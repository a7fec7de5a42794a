/**
 * The room protocol of the quiz server as pure steps over the table of active
 * rooms. Each handler either rejects with a fixed message and leaves the table
 * as it was, or makes one small change to one room or to the table. What the
 * source sends back to the caller (the acknowledgment) and what it broadcasts
 * to a room are returned as data.
 */
module Rooms {
  import opened Quiz
  import opened AnswerLog
  import Shuffle

  /** A connected player: the connection id and the chosen name. */
  datatype Player = Player(id: string, name: string)

  /** One live quiz session. */
  datatype Room = Room(
    id: string,
    players: seq<Player>,
    currentQuestionIndex: nat,
    questions: seq<Question>,
    answers: Entries)

  type Table = map<string, Room>

  /** The reply to the connection that sent the event. */
  datatype Ack = Ack(success: bool, message: Option<string>, roomId: Option<string>)

  /** A message sent to every connection in the room `room`. */
  datatype Event =
    | PlayerJoined(room: string, playerName: string, players: seq<Player>)
    | PlayerLeft(room: string, playerId: string, players: seq<Player>)
    | NextQuestionEvent(room: string, question: PublicQuestion)
    | QuizEnded(room: string, message: string, entries: Entries)

  /** The result of one handler: the new table, the reply and the broadcasts in order. */
  datatype Step = Step(rooms: Table, ack: Ack, events: seq<Event>)

  /** The result of a disconnect: the new table and one broadcast per surviving room. */
  datatype Sweep = Sweep(rooms: Table, events: set<Event>)

  const PlayerNameRequired := "Player name is required"
  const RoomNameRequired := "Room name is required"
  const RoomDoesNotExist := "Room does not exist"
  const Joined := "Joined the room successfully"
  const RoomNameMissing := "A roomname is required to start a quiz"
  const RoomTaken := "There is already a quiz going on with this room name"
  const QuizIdMissing := "A quiz is required to start a quiz"
  const QuizNotFound := "Quiz not found"
  const Started := "Quiz started successfully"
  const RoomNotFound := "Room not found"
  const AnswerSubmitted := "Answer submitted successfully"
  const QuizHasEnded := "Quiz has ended!"

  function Reject(message: string): Ack
  {
    Ack(false, Some(message), None)
  }

  /** A room's internal consistency, kept by every handler. */
  predicate RoomValid(r: Room)
  {
    && DistinctKeys(r.answers)
    && (r.currentQuestionIndex == 0 || r.currentQuestionIndex < |r.questions|)
  }

  /** Every room is stored under its own id and is consistent. */
  predicate TableValid(rooms: Table)
  {
    forall k :: k in rooms ==> rooms[k].id == k && RoomValid(rooms[k])
  }

  /** Every room other than `key` is the same in both tables. */
  predicate OthersUnchanged(before: Table, after: Table, key: string)
  {
    && after.Keys - {key} == before.Keys - {key}
    && forall k :: k in before && k != key ==> k in after && after[k] == before[k]
  }

  /**
   * joinRoom: the name and the room id must be non-empty and the room must
   * exist; then the caller is appended to the room's players and the room is
   * told the new list.
   */
  function JoinRoom(rooms: Table, socketId: string, playerName: string, roomId: string): (s: Step)
    ensures s.ack.success <==> playerName != "" && roomId != "" && roomId in rooms
    ensures playerName == "" ==> s.ack == Reject(PlayerNameRequired)
    ensures playerName != "" && roomId == "" ==> s.ack == Reject(RoomNameRequired)
    ensures playerName != "" && roomId != "" && roomId !in rooms ==> s.ack == Reject(RoomDoesNotExist)
    ensures !s.ack.success ==> s.rooms == rooms && s.events == []
    ensures s.ack.success ==>
      && s.ack == Ack(true, Some(Joined), Some(roomId))
      && roomId in s.rooms
      && s.rooms.Keys == rooms.Keys
      && OthersUnchanged(rooms, s.rooms, roomId)
      && s.rooms[roomId].players == rooms[roomId].players + [Player(socketId, playerName)]
      && s.rooms[roomId].(players := rooms[roomId].players) == rooms[roomId]
      && s.events == [PlayerJoined(roomId, playerName, s.rooms[roomId].players)]
  {
    if playerName == "" then Step(rooms, Reject(PlayerNameRequired), [])
    else if roomId == "" then Step(rooms, Reject(RoomNameRequired), [])
    else if roomId !in rooms then Step(rooms, Reject(RoomDoesNotExist), [])
    else
      var room := rooms[roomId];
      var room' := room.(players := room.players + [Player(socketId, playerName)]);
      Step(rooms[roomId := room'], Ack(true, Some(Joined), Some(roomId)),
           [PlayerJoined(roomId, playerName, room'.players)])
  }

  /** The room a successful startQuiz creates from the quiz's questions. */
  function NewRoom(roomId: string, questions: seq<Question>, pick: nat -> nat -> nat): (r: Room)
    ensures r.id == roomId && r.players == [] && r.currentQuestionIndex == 0 && r.answers == []
    ensures |r.questions| == |questions|
    ensures forall k :: 0 <= k < |questions| ==>
      && r.questions[k].id == questions[k].id
      && r.questions[k].question == questions[k].question
      && multiset(r.questions[k].answers) == multiset(questions[k].answers)
  {
    Shuffle.ShuffleAnswersPermutes(questions, pick);
    Room(roomId, [], 0, Shuffle.ShuffleAnswers(questions, pick), [])
  }

  /**
   * startQuiz, with the quiz already looked up: the room name must be
   * non-empty and free, the quiz id non-empty and the quiz found; then a room
   * with no players, at question 0, with no answers and with the quiz's
   * questions (options shuffled) is added under the room name. Nothing is
   * broadcast.
   */
  function StartQuiz(rooms: Table, quizId: string, roomName: string, quiz: Option<QuizDef>,
                     pick: nat -> nat -> nat): (s: Step)
    ensures s.ack.success <==> roomName != "" && roomName !in rooms && quizId != "" && quiz.Some?
    ensures roomName == "" ==> s.ack == Reject(RoomNameMissing)
    ensures roomName != "" && roomName in rooms ==> s.ack == Reject(RoomTaken)
    ensures roomName != "" && roomName !in rooms && quizId == "" ==> s.ack == Reject(QuizIdMissing)
    ensures roomName != "" && roomName !in rooms && quizId != "" && quiz.None? ==> s.ack == Reject(QuizNotFound)
    ensures !s.ack.success ==> s.rooms == rooms
    ensures s.events == []
    ensures s.ack.success ==>
      && s.ack == Ack(true, Some(Started), Some(roomName))
      && s.rooms.Keys == rooms.Keys + {roomName}
      && OthersUnchanged(rooms, s.rooms, roomName)
      && s.rooms[roomName] == NewRoom(roomName, quiz.value.questions, pick)
  {
    if roomName == "" then Step(rooms, Reject(RoomNameMissing), [])
    else if roomName in rooms then Step(rooms, Reject(RoomTaken), [])
    else if quizId == "" then Step(rooms, Reject(QuizIdMissing), [])
    else if quiz.None? then Step(rooms, Reject(QuizNotFound), [])
    else
      Step(rooms[roomName := NewRoom(roomName, quiz.value.questions, pick)],
           Ack(true, Some(Started), Some(roomName)), [])
  }

  /**
   * submitAnswer: the room must exist; then the caller's answer is recorded
   * under its connection id, replacing an earlier one. The caller need not be
   * a player of the room. Nothing is broadcast.
   */
  function SubmitAnswer(rooms: Table, socketId: string, roomId: string, answer: string): (s: Step)
    ensures s.ack.success <==> roomId in rooms
    ensures !s.ack.success ==> s.ack == Reject(RoomNotFound) && s.rooms == rooms
    ensures s.events == []
    ensures s.ack.success ==>
      && s.ack == Ack(true, Some(AnswerSubmitted), None)
      && roomId in s.rooms
      && s.rooms.Keys == rooms.Keys
      && OthersUnchanged(rooms, s.rooms, roomId)
      && s.rooms[roomId].(answers := rooms[roomId].answers) == rooms[roomId]
      && Keys(s.rooms[roomId].answers) == Keys(rooms[roomId].answers) + {socketId}
  {
    if roomId !in rooms then Step(rooms, Reject(RoomNotFound), [])
    else
      var room := rooms[roomId];
      Step(rooms[roomId := room.(answers := Set(room.answers, socketId, answer))],
           Ack(true, Some(AnswerSubmitted), None), [])
  }

  /**
   * After submitAnswer the caller's connection id maps to the submitted answer
   * and every other recorded answer of the room is as it was.
   */
  lemma SubmitAnswerRecords(rooms: Table, socketId: string, roomId: string, answer: string, k: string)
    requires roomId in rooms && RoomValid(rooms[roomId])
    ensures roomId in SubmitAnswer(rooms, socketId, roomId, answer).rooms
    ensures Get(SubmitAnswer(rooms, socketId, roomId, answer).rooms[roomId].answers, k)
         == if k == socketId then Some(answer) else Get(rooms[roomId].answers, k)
  {
    SetGet(rooms[roomId].answers, socketId, answer, k);
  }

  /** Last write wins: two submissions by one connection leave only the second. */
  lemma SubmitAnswerTwice(rooms: Table, socketId: string, roomId: string, first: string, second: string)
    requires roomId in rooms && RoomValid(rooms[roomId])
    ensures SubmitAnswer(SubmitAnswer(rooms, socketId, roomId, first).rooms, socketId, roomId, second)
         == SubmitAnswer(rooms, socketId, roomId, second)
  {
    var room := rooms[roomId];
    SetSet(room.answers, socketId, first, second);
    var once := rooms[roomId := room.(answers := Set(room.answers, socketId, first))];
    assert SubmitAnswer(rooms, socketId, roomId, first).rooms == once;
    assert once[roomId := room.(answers := Set(Set(room.answers, socketId, first), socketId, second))]
        == rooms[roomId := room.(answers := Set(room.answers, socketId, second))];
  }

  /**
   * nextQuestion: the room must exist; its question index goes up by one. Past
   * the last question the room is told the quiz ended, with every recorded
   * answer, and is removed; otherwise it stays with the new index and is sent
   * the new current question without correctness flags.
   */
  function NextQuestion(rooms: Table, roomId: string): (s: Step)
    ensures s.ack.success <==> roomId in rooms
    ensures !s.ack.success ==> s.ack == Reject(RoomNotFound) && s.rooms == rooms && s.events == []
    ensures s.ack.success ==> s.ack == Ack(true, None, None) && OthersUnchanged(rooms, s.rooms, roomId)
    ensures roomId in rooms && rooms[roomId].currentQuestionIndex + 1 >= |rooms[roomId].questions| ==>
      && s.rooms.Keys == rooms.Keys - {roomId}
      && s.events == [QuizEnded(roomId, QuizHasEnded, rooms[roomId].answers)]
    ensures roomId in rooms && rooms[roomId].currentQuestionIndex + 1 < |rooms[roomId].questions| ==>
      && s.rooms.Keys == rooms.Keys
      && s.rooms[roomId] == rooms[roomId].(currentQuestionIndex := rooms[roomId].currentQuestionIndex + 1)
      && s.events == [NextQuestionEvent(roomId, Strip(rooms[roomId].questions[rooms[roomId].currentQuestionIndex + 1]))]
  {
    if roomId !in rooms then Step(rooms, Reject(RoomNotFound), [])
    else
      var room := rooms[roomId];
      var index := room.currentQuestionIndex + 1;
      if index >= |room.questions| then
        Step(rooms - {roomId}, Ack(true, None, None), [QuizEnded(roomId, QuizHasEnded, room.answers)])
      else
        Step(rooms[roomId := room.(currentQuestionIndex := index)], Ack(true, None, None),
             [NextQuestionEvent(roomId, Strip(room.questions[index]))])
  }

  /** The players whose connection id is not `id`, in their original order. */
  function Without(players: seq<Player>, id: string): (r: seq<Player>)
    ensures forall p :: p in r <==> p in players && p.id != id
    ensures |r| <= |players|
  {
    if |players| == 0 then []
    else if players[0].id == id then Without(players[1..], id)
    else [players[0]] + Without(players[1..], id)
  }

  /** Filtering distributes over concatenation, so the survivors keep their order. */
  lemma {:induction false} WithoutAppend(a: seq<Player>, b: seq<Player>, id: string)
    ensures Without(a + b, id) == Without(a, id) + Without(b, id)
    decreases |a|
  {
    if |a| == 0 {
      assert a + b == b;
    } else {
      assert (a + b)[0] == a[0];
      assert (a + b)[1..] == a[1..] + b;
      WithoutAppend(a[1..], b, id);
    }
  }

  /** A list without the id is left as it is. */
  lemma {:induction false} WithoutAbsent(players: seq<Player>, id: string)
    requires forall p :: p in players ==> p.id != id
    ensures Without(players, id) == players
    decreases |players|
  {
    if |players| > 0 {
      assert players[0] in players;
      WithoutAbsent(players[1..], id);
    }
  }

  /** The room after the connection `id` has left it. */
  function Leave(room: Room, id: string): Room
  {
    room.(players := Without(room.players, id))
  }

  /** Whether room k still has players once the connection `id` has left it. */
  predicate Survives(rooms: Table, id: string, k: string)
    requires k in rooms
  {
    Without(rooms[k].players, id) != []
  }

  /**
   * disconnect: every room loses the players with the connection's id; a room
   * left with no players is removed, every other room is sent its remaining
   * players, whether or not the connection was in it.
   */
  function Disconnect(rooms: Table, socketId: string): (s: Sweep)
    ensures s.rooms.Keys == set k | k in rooms && Survives(rooms, socketId, k)
    ensures forall k :: k in s.rooms ==> s.rooms[k] == Leave(rooms[k], socketId)
    ensures forall k :: k in s.rooms ==> forall p :: p in s.rooms[k].players ==> p.id != socketId
    ensures forall e :: e in s.events <==>
      exists k :: k in s.rooms && e == PlayerLeft(k, socketId, s.rooms[k].players)
  {
    var rooms' := map k | k in rooms && Survives(rooms, socketId, k) :: Leave(rooms[k], socketId);
    Sweep(rooms', set k | k in rooms' :: PlayerLeft(k, socketId, rooms'[k].players))
  }

  /** Every handler keeps the table consistent. */
  lemma JoinRoomKeepsValid(rooms: Table, socketId: string, playerName: string, roomId: string)
    requires TableValid(rooms)
    ensures TableValid(JoinRoom(rooms, socketId, playerName, roomId).rooms)
  {
  }

  lemma StartQuizKeepsValid(rooms: Table, quizId: string, roomName: string, quiz: Option<QuizDef>,
                            pick: nat -> nat -> nat)
    requires TableValid(rooms)
    ensures TableValid(StartQuiz(rooms, quizId, roomName, quiz, pick).rooms)
  {
  }

  lemma SubmitAnswerKeepsValid(rooms: Table, socketId: string, roomId: string, answer: string)
    requires TableValid(rooms)
    ensures TableValid(SubmitAnswer(rooms, socketId, roomId, answer).rooms)
  {
    if roomId in rooms {
      SetKeepsDistinct(rooms[roomId].answers, socketId, answer);
    }
  }

  lemma NextQuestionKeepsValid(rooms: Table, roomId: string)
    requires TableValid(rooms)
    ensures TableValid(NextQuestion(rooms, roomId).rooms)
  {
  }

  lemma DisconnectKeepsValid(rooms: Table, socketId: string)
    requires TableValid(rooms)
    ensures TableValid(Disconnect(rooms, socketId).rooms)
  {
  }
}
