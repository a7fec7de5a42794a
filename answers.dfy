/**
 * The answers a room collects: a string-to-string map that, like the source's
 * Map, remembers insertion order (the quizEnded broadcast lists its entries in
 * that order). It is an association list with distinct keys; writing an
 * existing key replaces its value in place, writing a new key appends it.
 */
module AnswerLog {
  import opened Quiz

  type Entries = seq<(string, string)>

  /** No key occurs twice. */
  predicate DistinctKeys(m: Entries)
  {
    forall i, j :: 0 <= i < j < |m| ==> m[i].0 != m[j].0
  }

  /** The keys of the map. */
  function Keys(m: Entries): set<string>
  {
    set i | 0 <= i < |m| :: m[i].0
  }

  /** The position of key k, if present. */
  function IndexOf(m: Entries, k: string): (r: Option<nat>)
    ensures r.Some? ==> r.value < |m| && m[r.value].0 == k
    ensures r.None? ==> forall i :: 0 <= i < |m| ==> m[i].0 != k
    decreases |m|
  {
    if |m| == 0 then None
    else if m[|m| - 1].0 == k then Some(|m| - 1)
    else IndexOf(m[..|m| - 1], k)
  }

  /** The value stored under k (the source's Map.get). */
  function Get(m: Entries, k: string): Option<string>
  {
    match IndexOf(m, k)
    case Some(i) => Some(m[i].1)
    case None => None
  }

  /** The source's Map.set: replace the value of k where it stands, or append k. */
  function Set(m: Entries, k: string, v: string): (r: Entries)
    ensures Keys(r) == Keys(m) + {k}
    ensures k in Keys(m) ==> |r| == |m| && forall j :: 0 <= j < |m| ==> r[j].0 == m[j].0
    ensures k !in Keys(m) ==> r == m + [(k, v)]
  {
    match IndexOf(m, k)
    case Some(i) =>
      var r := m[i := (k, v)];
      assert forall j :: 0 <= j < |m| ==> r[j].0 == m[j].0;
      r
    case None =>
      var r := m + [(k, v)];
      assert r[|m|].0 == k;
      assert forall j :: 0 <= j < |m| ==> r[j].0 == m[j].0;
      r
  }

  /** With distinct keys, the key found at position i is found there. */
  lemma {:induction false} IndexOfUnique(m: Entries, i: nat)
    requires DistinctKeys(m) && i < |m|
    ensures IndexOf(m, m[i].0) == Some(i)
    decreases |m|
  {
    if i < |m| - 1 {
      IndexOfUnique(m[..|m| - 1], i);
    }
  }

  /** Set keeps the keys distinct, so the log never holds two answers of one connection. */
  lemma SetKeepsDistinct(m: Entries, k: string, v: string)
    ensures DistinctKeys(m) ==> DistinctKeys(Set(m, k, v))
  {
  }

  /** After Set, k maps to v and every other key keeps its value. */
  lemma SetGet(m: Entries, k: string, v: string, k': string)
    requires DistinctKeys(m)
    ensures Get(Set(m, k, v), k') == if k' == k then Some(v) else Get(m, k')
  {
    SetKeepsDistinct(m, k, v);
    var r := Set(m, k, v);
    match IndexOf(m, k)
    case Some(i) =>
      assert r == m[i := (k, v)];
      if k' == k {
        IndexOfUnique(r, i);
      } else if IndexOf(m, k').Some? {
        IndexOfUnique(r, IndexOf(m, k').value);
      } else {
        assert forall p :: 0 <= p < |r| ==> r[p].0 != k';
      }
    case None =>
      assert r == m + [(k, v)];
      if k' == k {
        IndexOfUnique(r, |m|);
      } else {
        if IndexOf(m, k').Some? {
          IndexOfUnique(r, IndexOf(m, k').value);
        } else {
          assert forall p :: 0 <= p < |r| ==> r[p].0 != k';
        }
      }
  }

  /** Last write wins: writing k twice is the same as writing only the second value. */
  lemma SetSet(m: Entries, k: string, v1: string, v2: string)
    requires DistinctKeys(m)
    ensures Set(Set(m, k, v1), k, v2) == Set(m, k, v2)
  {
  }
}
