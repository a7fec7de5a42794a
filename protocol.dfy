/**
 * Properties of sequences of events on the room table: how a quiz runs to
 * its end, what a second start under a taken name does, and how joining and
 * disconnecting interact.
 */
module Protocol {
  import opened Quiz
  import opened AnswerLog
  import opened Rooms

  /** The table and the broadcasts after n nextQuestion events on one room. */
  datatype Run = Run(rooms: Table, events: seq<Event>)

  function Advance(rooms: Table, roomId: string, n: nat): Run
    decreases n
  {
    if n == 0 then Run(rooms, [])
    else
      var first := NextQuestion(rooms, roomId);
      var rest := Advance(first.rooms, roomId, n - 1);
      Run(rest.rooms, first.events + rest.events)
  }

  /** The nextQuestion broadcasts for the questions from position `from` on. */
  function QuestionBroadcasts(roomId: string, questions: seq<Question>, from: nat): (r: seq<Event>)
    requires from <= |questions|
    ensures |r| == |questions| - from
  {
    seq(|questions| - from, k requires 0 <= k < |questions| - from =>
      NextQuestionEvent(roomId, Strip(questions[from + k])))
  }

  /** The last advance of a room ends its quiz and removes it. */
  lemma AdvanceLast(rooms: Table, roomId: string)
    requires roomId in rooms
    requires rooms[roomId].currentQuestionIndex + 1 >= |rooms[roomId].questions|
    ensures Advance(rooms, roomId, 1)
         == Run(rooms - {roomId}, [QuizEnded(roomId, QuizHasEnded, rooms[roomId].answers)])
  {
    assert Advance(NextQuestion(rooms, roomId).rooms, roomId, 0) == Run(rooms - {roomId}, []);
  }

  /** An advance before the last one broadcasts the next question and keeps the room. */
  lemma AdvanceMiddle(rooms: Table, roomId: string, m: nat)
    requires roomId in rooms
    requires rooms[roomId].currentQuestionIndex + 1 < |rooms[roomId].questions|
    ensures var room := rooms[roomId];
      var rest := Advance(rooms[roomId := room.(currentQuestionIndex := room.currentQuestionIndex + 1)], roomId, m);
      Advance(rooms, roomId, m + 1)
      == Run(rest.rooms, [NextQuestionEvent(roomId, Strip(room.questions[room.currentQuestionIndex + 1]))] + rest.events)
  {
  }

  lemma BroadcastsCons(roomId: string, questions: seq<Question>, from: nat)
    requires from < |questions|
    ensures [NextQuestionEvent(roomId, Strip(questions[from]))] + QuestionBroadcasts(roomId, questions, from + 1)
         == QuestionBroadcasts(roomId, questions, from)
  {
  }

  /**
   * A room at question i of n runs to its end in exactly n - i advances: it
   * broadcasts questions i + 1, ..., n - 1 in order, then one quizEnded with
   * the answers it holds, and it is gone; every other room is untouched.
   */
  lemma {:induction false} AdvanceToEnd(rooms: Table, roomId: string)
    requires roomId in rooms
    requires rooms[roomId].currentQuestionIndex < |rooms[roomId].questions|
    ensures var room := rooms[roomId];
      Advance(rooms, roomId, |room.questions| - room.currentQuestionIndex)
      == Run(rooms - {roomId},
             QuestionBroadcasts(roomId, room.questions, room.currentQuestionIndex + 1)
             + [QuizEnded(roomId, QuizHasEnded, room.answers)])
    decreases |rooms[roomId].questions| - rooms[roomId].currentQuestionIndex
  {
    var room := rooms[roomId];
    var i := room.currentQuestionIndex;
    var n := |room.questions|;
    if i + 1 == n {
      AdvanceLast(rooms, roomId);
    } else {
      var rooms' := rooms[roomId := room.(currentQuestionIndex := i + 1)];
      AdvanceMiddle(rooms, roomId, n - i - 1);
      AdvanceToEnd(rooms', roomId);
      assert rooms' - {roomId} == rooms - {roomId};
      BroadcastsCons(roomId, room.questions, i + 1);
    }
  }

  /**
   * A freshly started quiz with n >= 1 questions ends after n advances with a
   * single quizEnded; the questions broadcast before it are 1, ..., n - 1, so
   * question 0 is never broadcast.
   */
  lemma FreshQuizRun(rooms: Table, quizId: string, roomName: string, quiz: QuizDef,
                     pick: nat -> nat -> nat)
    requires roomName != "" && roomName !in rooms && quizId != ""
    requires |quiz.questions| > 0
    ensures var started := StartQuiz(rooms, quizId, roomName, Some(quiz), pick).rooms;
      Advance(started, roomName, |quiz.questions|)
      == Run(rooms, QuestionBroadcasts(roomName, started[roomName].questions, 1)
                    + [QuizEnded(roomName, QuizHasEnded, [])])
  {
    var started := StartQuiz(rooms, quizId, roomName, Some(quiz), pick).rooms;
    StartedTable(rooms, quizId, roomName, quiz, pick);
    AdvanceToEnd(started, roomName);
  }

  /** The table right after a successful start, with nothing but the new room added. */
  lemma StartedTable(rooms: Table, quizId: string, roomName: string, quiz: QuizDef,
                     pick: nat -> nat -> nat)
    requires roomName != "" && roomName !in rooms && quizId != ""
    ensures var started := StartQuiz(rooms, quizId, roomName, Some(quiz), pick).rooms;
      && started == rooms[roomName := NewRoom(roomName, quiz.questions, pick)]
      && started - {roomName} == rooms
  {
    var started := StartQuiz(rooms, quizId, roomName, Some(quiz), pick).rooms;
    assert started - {roomName} == rooms;
  }

  /** A quiz without questions still gets a room, and the first advance ends it. */
  lemma EmptyQuizEndsAtOnce(rooms: Table, quizId: string, roomName: string, quiz: QuizDef,
                            pick: nat -> nat -> nat)
    requires StartQuiz(rooms, quizId, roomName, Some(quiz), pick).ack.success
    requires quiz.questions == []
    ensures var started := StartQuiz(rooms, quizId, roomName, Some(quiz), pick).rooms;
      && roomName in started
      && NextQuestion(started, roomName) == Step(rooms, Ack(true, None, None), [QuizEnded(roomName, QuizHasEnded, [])])
  {
    var started := StartQuiz(rooms, quizId, roomName, Some(quiz), pick).rooms;
    assert started - {roomName} == rooms;
  }

  /**
   * A second start under a name in use fails with the room-taken message and
   * leaves the room the first start created as it is.
   */
  lemma StartTwice(rooms: Table, quizId: string, roomName: string, quiz: Option<QuizDef>,
                   quizId': string, quiz': Option<QuizDef>, pick: nat -> nat -> nat, pick': nat -> nat -> nat)
    requires StartQuiz(rooms, quizId, roomName, quiz, pick).ack.success
    ensures var first := StartQuiz(rooms, quizId, roomName, quiz, pick);
      StartQuiz(first.rooms, quizId', roomName, quiz', pick') == Step(first.rooms, Reject(RoomTaken), [])
  {
  }

  /** Once the joining connection has left again, every room is as before the join. */
  lemma JoinLeavesNoTrace(rooms: Table, socketId: string, playerName: string, roomId: string)
    ensures var joined := JoinRoom(rooms, socketId, playerName, roomId).rooms;
      && joined.Keys == rooms.Keys
      && forall k :: k in rooms ==> Leave(joined[k], socketId) == Leave(rooms[k], socketId)
  {
    var joined := JoinRoom(rooms, socketId, playerName, roomId).rooms;
    if joined != rooms {
      WithoutAppend(rooms[roomId].players, [Player(socketId, playerName)], socketId);
      assert Without([Player(socketId, playerName)], socketId) == [];
    }
  }

  /**
   * A connection that joins a room and then disconnects leaves the table and
   * the broadcasts exactly as its disconnect alone would have.
   */
  lemma JoinThenDisconnect(rooms: Table, socketId: string, playerName: string, roomId: string)
    ensures Disconnect(JoinRoom(rooms, socketId, playerName, roomId).rooms, socketId) == Disconnect(rooms, socketId)
  {
    var joined := JoinRoom(rooms, socketId, playerName, roomId).rooms;
    JoinLeavesNoTrace(rooms, socketId, playerName, roomId);
    SameLeaveSameSweep(joined, rooms, socketId);
  }

  /** Tables whose rooms agree once the connection has left sweep to the same result. */
  lemma SameLeaveSameSweep(a: Table, b: Table, socketId: string)
    requires a.Keys == b.Keys
    requires forall k :: k in a ==> Leave(a[k], socketId) == Leave(b[k], socketId)
    ensures Disconnect(a, socketId) == Disconnect(b, socketId)
  {
    var da, db := Disconnect(a, socketId).rooms, Disconnect(b, socketId).rooms;
    assert da.Keys == db.Keys;
    assert da == db;
  }

  /** A room without the disconnecting connection keeps its players as they were. */
  lemma DisconnectOfStranger(rooms: Table, socketId: string, roomId: string)
    requires roomId in rooms && rooms[roomId].players != []
    requires forall p :: p in rooms[roomId].players ==> p.id != socketId
    ensures roomId in Disconnect(rooms, socketId).rooms
    ensures Disconnect(rooms, socketId).rooms[roomId] == rooms[roomId]
    ensures PlayerLeft(roomId, socketId, rooms[roomId].players) in Disconnect(rooms, socketId).events
  {
    WithoutAbsent(rooms[roomId].players, socketId);
  }

  /** A second disconnect of the same connection changes nothing more. */
  lemma DisconnectIdempotent(rooms: Table, socketId: string)
    ensures var once := Disconnect(rooms, socketId);
      Disconnect(once.rooms, socketId) == once
  {
    var once := Disconnect(rooms, socketId);
    forall k | k in once.rooms
      ensures Without(once.rooms[k].players, socketId) == once.rooms[k].players
    {
      WithoutAbsent(once.rooms[k].players, socketId);
    }
    assert Disconnect(once.rooms, socketId).rooms == once.rooms;
  }

  /** The tables a two-question session goes through. */
  lemma TwoQuestionTables(rooms: Table, quizId: string, roomName: string, quiz: QuizDef,
                          pick: nat -> nat -> nat, socketId: string, playerName: string, answer: string)
    requires roomName != "" && roomName !in rooms && quizId != "" && playerName != ""
    requires |quiz.questions| == 2
    ensures var room := NewRoom(roomName, quiz.questions, pick);
      var player := Player(socketId, playerName);
      var t1 := StartQuiz(rooms, quizId, roomName, Some(quiz), pick).rooms;
      var t2 := JoinRoom(t1, socketId, playerName, roomName).rooms;
      var t3 := SubmitAnswer(t2, socketId, roomName, answer).rooms;
      && t1 == rooms[roomName := room]
      && t2 == rooms[roomName := room.(players := [player])]
      && t3 == rooms[roomName := room.(players := [player], answers := [(socketId, answer)])]
  {
    var room := NewRoom(roomName, quiz.questions, pick);
    var player := Player(socketId, playerName);
    StartedTable(rooms, quizId, roomName, quiz, pick);
    var t1 := rooms[roomName := room];
    assert room.players + [player] == [player];
    var t2 := rooms[roomName := room.(players := [player])];
    assert JoinRoom(t1, socketId, playerName, roomName).rooms == t2;
    assert Set([], socketId, answer) == [(socketId, answer)];
  }

  /**
   * A two-question session: start, one player joins and answers, two
   * advances. The first advance broadcasts the second question (the first is
   * never broadcast); the second ends the quiz with the one answer, which was
   * given before the second question and was never cleared, and the room is gone.
   */
  lemma TwoQuestionSession(rooms: Table, quizId: string, roomName: string, quiz: QuizDef,
                           pick: nat -> nat -> nat, socketId: string, playerName: string, answer: string)
    requires roomName != "" && roomName !in rooms && quizId != "" && playerName != ""
    requires |quiz.questions| == 2
    ensures var t1 := StartQuiz(rooms, quizId, roomName, Some(quiz), pick).rooms;
      var t2 := JoinRoom(t1, socketId, playerName, roomName).rooms;
      var t3 := SubmitAnswer(t2, socketId, roomName, answer).rooms;
      Advance(t3, roomName, 2)
      == Run(rooms, [NextQuestionEvent(roomName, Strip(t1[roomName].questions[1])),
                     QuizEnded(roomName, QuizHasEnded, [(socketId, answer)])])
  {
    TwoQuestionTables(rooms, quizId, roomName, quiz, pick, socketId, playerName, answer);
    var room := NewRoom(roomName, quiz.questions, pick);
    var t3 := rooms[roomName := room.(players := [Player(socketId, playerName)], answers := [(socketId, answer)])];
    AdvanceToEnd(t3, roomName);
    assert t3 - {roomName} == rooms;
    assert QuestionBroadcasts(roomName, room.questions, 1) == [NextQuestionEvent(roomName, Strip(room.questions[1]))];
  }
}
