/**
 * Quiz definitions as the quiz store hands them out, and the public view of a
 * question that is broadcast to the players of a room.
 */
module Quiz {

  datatype Option<+T> = None | Some(value: T)

  /** One answer option of a question, with its correctness flag. */
  datatype Answer = Answer(answer: string, isCorrect: bool)

  /** A question with its ordered answer options. */
  datatype Question = Question(id: string, question: string, answers: seq<Answer>)

  /** A stored quiz: an identifier, a name and an ordered list of questions. */
  datatype QuizDef = QuizDef(id: string, name: string, questions: seq<Question>)

  /** An answer option as players see it: only the text, no correctness flag. */
  datatype PublicAnswer = PublicAnswer(answer: string)

  /** A question as players see it while the quiz runs. */
  datatype PublicQuestion = PublicQuestion(id: string, question: string, answers: seq<PublicAnswer>)

  /** The texts of a list of answer options, in order. */
  function Texts(answers: seq<Answer>): seq<string>
  {
    seq(|answers|, k requires 0 <= k < |answers| => answers[k].answer)
  }

  /** The texts of a list of public answer options, in order. */
  function PublicTexts(answers: seq<PublicAnswer>): seq<string>
  {
    seq(|answers|, k requires 0 <= k < |answers| => answers[k].answer)
  }

  /**
   * The question that is broadcast: the same id, text and answer texts, in the
   * same order, with every correctness flag dropped.
   */
  function Strip(q: Question): (p: PublicQuestion)
    ensures p.id == q.id && p.question == q.question
    ensures PublicTexts(p.answers) == Texts(q.answers)
  {
    PublicQuestion(q.id, q.question,
      seq(|q.answers|, k requires 0 <= k < |q.answers| => PublicAnswer(q.answers[k].answer)))
  }

  /** Two questions that differ at most in which options are flagged correct. */
  predicate SameButFlags(q1: Question, q2: Question)
  {
    q1.id == q2.id && q1.question == q2.question && Texts(q1.answers) == Texts(q2.answers)
  }

  /**
   * The broadcast reveals nothing about correctness: questions that differ only
   * in their flags are broadcast identically.
   */
  lemma StripHidesCorrectness(q1: Question, q2: Question)
    requires SameButFlags(q1, q2)
    ensures Strip(q1) == Strip(q2)
  {
    var p1, p2 := Strip(q1), Strip(q2);
    assert |p1.answers| == |PublicTexts(p1.answers)| == |PublicTexts(p2.answers)| == |p2.answers|;
    forall k | 0 <= k < |p1.answers|
      ensures p1.answers[k] == p2.answers[k]
    {
      assert p1.answers[k].answer == PublicTexts(p1.answers)[k];
      assert p2.answers[k].answer == PublicTexts(p2.answers)[k];
    }
  }

  /** Conversely, the broadcast keeps everything but the flags: equal broadcasts mean equal questions up to flags. */
  lemma StripDeterminesTexts(q1: Question, q2: Question)
    requires Strip(q1) == Strip(q2)
    ensures SameButFlags(q1, q2)
  {
  }
}
