/**
 * The per-session answer shuffle. The source draws each swap partner with
 * Math.random; here the draws come from a caller-supplied function `pick`,
 * and the swap partner at step i is `pick(i) % (i + 1)`, which ranges over
 * exactly the indices 0..i that the source can draw.
 */
module Shuffle {
  import opened Quiz

  /** The index swapped with position i at step i. */
  function Draw(pick: nat -> nat, i: nat): (j: nat)
    ensures j <= i
  {
    pick(i) % (i + 1)
  }

  /** s with the elements at positions i and j exchanged. */
  function Swap<T>(s: seq<T>, i: nat, j: nat): (r: seq<T>)
    requires i < |s| && j < |s|
    ensures |r| == |s| && r[i] == s[j] && r[j] == s[i]
    ensures forall k :: 0 <= k < |s| && k != i && k != j ==> r[k] == s[k]
  {
    s[i := s[j]][j := s[i]]
  }

  /** Exchanging two positions keeps the same elements. */
  lemma SwapPermutes<T>(s: seq<T>, i: nat, j: nat)
    requires i < |s| && j < |s|
    ensures multiset(Swap(s, i, j)) == multiset(s)
  {
  }

  /** The steps i, i - 1, ..., 1 of the shuffle applied to s. */
  function ShuffleFrom<T>(s: seq<T>, pick: nat -> nat, i: nat): (r: seq<T>)
    requires i < |s|
    ensures |r| == |s|
    decreases i
  {
    if i == 0 then s else ShuffleFrom(Swap(s, i, Draw(pick, i)), pick, i - 1)
  }

  /** The whole shuffle of s under the draws `pick`. */
  function FisherYates<T>(s: seq<T>, pick: nat -> nat): (r: seq<T>)
    ensures |r| == |s|
  {
    if |s| == 0 then s else ShuffleFrom(s, pick, |s| - 1)
  }

  lemma {:induction false} ShuffleFromPermutes<T>(s: seq<T>, pick: nat -> nat, i: nat)
    requires i < |s|
    ensures multiset(ShuffleFrom(s, pick, i)) == multiset(s)
    decreases i
  {
    if i > 0 {
      SwapPermutes(s, i, Draw(pick, i));
      ShuffleFromPermutes(Swap(s, i, Draw(pick, i)), pick, i - 1);
    }
  }

  /** The shuffle never loses, adds or duplicates an option: it is a permutation. */
  lemma FisherYatesPermutes<T>(s: seq<T>, pick: nat -> nat)
    ensures multiset(FisherYates(s, pick)) == multiset(s)
  {
    if |s| > 0 {
      ShuffleFromPermutes(s, pick, |s| - 1);
    }
  }

  /** When every draw picks the current position, no swap moves anything. */
  lemma {:induction false} IdentityDrawsKeepOrder<T>(s: seq<T>, pick: nat -> nat, i: nat)
    requires i < |s|
    requires forall k :: 0 < k <= i ==> pick(k) % (k + 1) == k
    ensures ShuffleFrom(s, pick, i) == s
    decreases i
  {
    if i > 0 {
      assert Swap(s, i, Draw(pick, i)) == s;
      IdentityDrawsKeepOrder(s, pick, i - 1);
    }
  }

  /**
   * The source's loop: copy the options into a fresh array, then for i from
   * the last index down to 1 swap position i with the drawn position. The
   * result is the shuffle FisherYates describes, hence a permutation of the
   * input, and the input sequence is a value that the loop never touches.
   */
  method ShuffleArr(arrOriginal: seq<Answer>, pick: nat -> nat) returns (r: seq<Answer>)
    ensures r == FisherYates(arrOriginal, pick)
    ensures |r| == |arrOriginal| && multiset(r) == multiset(arrOriginal)
  {
    var arr := new Answer[|arrOriginal|](k requires 0 <= k < |arrOriginal| => arrOriginal[k]);
    assert arr[..] == arrOriginal;
    var i := arr.Length - 1;
    while i > 0
      invariant arr.Length == |arrOriginal|
      invariant arr.Length == 0 || 0 <= i < arr.Length
      invariant arr.Length > 0 ==> ShuffleFrom(arr[..], pick, i) == FisherYates(arrOriginal, pick)
    {
      var j := Draw(pick, i);
      ghost var before := arr[..];
      arr[i], arr[j] := arr[j], arr[i];
      assert arr[..] == Swap(before, i, j);
      assert ShuffleFrom(arr[..], pick, i - 1) == ShuffleFrom(before, pick, i);
      i := i - 1;
    }
    r := arr[..];
    FisherYatesPermutes(arrOriginal, pick);
  }

  /**
   * The per-session copy of a quiz's questions: each question keeps its id and
   * text, and its options are shuffled with the draws of question k, `pick(k)`.
   */
  function ShuffleAnswers(questionsOriginal: seq<Question>, pick: nat -> nat -> nat): (r: seq<Question>)
    ensures |r| == |questionsOriginal|
    ensures forall k :: 0 <= k < |r| ==>
      r[k].id == questionsOriginal[k].id && r[k].question == questionsOriginal[k].question
      && |r[k].answers| == |questionsOriginal[k].answers|
  {
    var r := seq(|questionsOriginal|, k requires 0 <= k < |questionsOriginal| =>
      questionsOriginal[k].(answers := FisherYates(questionsOriginal[k].answers, pick(k))));
    assert forall k :: 0 <= k < |r| ==> r[k].answers == FisherYates(questionsOriginal[k].answers, pick(k));
    r
  }

  /**
   * The session copy has as many questions as the quiz; each keeps its id and
   * text, and its options are a permutation of the original ones.
   */
  lemma ShuffleAnswersPermutes(questionsOriginal: seq<Question>, pick: nat -> nat -> nat)
    ensures |ShuffleAnswers(questionsOriginal, pick)| == |questionsOriginal|
    ensures forall k :: 0 <= k < |questionsOriginal| ==>
      var q := ShuffleAnswers(questionsOriginal, pick)[k];
      q.id == questionsOriginal[k].id && q.question == questionsOriginal[k].question
      && multiset(q.answers) == multiset(questionsOriginal[k].answers)
  {
    forall k | 0 <= k < |questionsOriginal|
      ensures multiset(ShuffleAnswers(questionsOriginal, pick)[k].answers) == multiset(questionsOriginal[k].answers)
    {
      FisherYatesPermutes(questionsOriginal[k].answers, pick(k));
    }
  }
}
