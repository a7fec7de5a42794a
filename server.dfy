/**
 * The process-wide table of active rooms and the event handlers that update it
 * in place. Each handler takes the id of the connection that sent the event,
 * and returns the acknowledgment and the broadcasts instead of sending them;
 * its new table, reply and broadcasts are exactly those of the matching step
 * in module Rooms.
 */
module Server {
  import opened Quiz
  import opened AnswerLog
  import opened Rooms
  import Shuffle

  /**
   * The state of the disconnect sweep over `before` with the rooms in `todo`
   * still to visit: visited rooms have lost the connection's players and are
   * gone if none remain, unvisited rooms are as they were...
   */
  ghost predicate SweptTable(before: Table, table: Table, todo: set<string>, socketId: string)
  {
    && todo <= before.Keys
    && table.Keys <= before.Keys
    && (forall k :: k in todo ==> k in table && table[k] == before[k])
    && (forall k :: k in table && k !in todo ==> table[k] == Leave(before[k], socketId))
    && (forall k :: k in before && k !in todo ==> (k in table <==> Survives(before, socketId, k)))
  }

  /** ... and every visited room that remains has been announced. */
  ghost predicate SweptEvents(table: Table, events: set<Event>, todo: set<string>, socketId: string)
  {
    events == set k | k in table && k !in todo :: PlayerLeft(k, socketId, table[k].players)
  }

  ghost predicate SweptPart(before: Table, table: Table, events: set<Event>, todo: set<string>, socketId: string)
  {
    SweptTable(before, table, todo, socketId) && SweptEvents(table, events, todo, socketId)
  }

  /** Visiting one more room keeps the sweep's table consistent. */
  lemma SweepStepTable(before: Table, table: Table, todo: set<string>, socketId: string,
                       roomId: string, table': Table)
    requires SweptTable(before, table, todo, socketId) && roomId in todo
    requires var room := Leave(table[roomId], socketId);
      table' == if room.players == [] then table - {roomId} else table[roomId := room]
    ensures SweptTable(before, table', todo - {roomId}, socketId)
  {
  }

  /** Visiting one more room keeps the sweep's announcements consistent. */
  lemma SweepStepEvents(table: Table, events: set<Event>, todo: set<string>, socketId: string,
                        roomId: string, room: Room, survives: bool, table': Table, events': set<Event>)
    requires SweptEvents(table, events, todo, socketId) && roomId in todo
    requires forall k :: k in todo ==> k in table
    requires survives ==> table' == table[roomId := room] && events' == events + {PlayerLeft(roomId, socketId, room.players)}
    requires !survives ==> table' == table - {roomId} && events' == events
    ensures SweptEvents(table', events', todo - {roomId}, socketId)
  {
    var todo' := todo - {roomId};
    var announced := set k | k in table' && k !in todo' :: PlayerLeft(k, socketId, table'[k].players);
    forall k | k in table' && k !in todo'
      ensures PlayerLeft(k, socketId, table'[k].players) in events'
    {
      if k != roomId {
        assert k in table && k !in todo && table'[k] == table[k];
      }
    }
    forall e | e in events'
      ensures e in announced
    {
      if e in events {
        var k :| k in table && k !in todo && e == PlayerLeft(k, socketId, table[k].players);
        assert k in table' && table'[k] == table[k];
      }
    }
  }

  /** When every room has been visited, the sweep is complete. */
  lemma SweepDone(before: Table, after: Table, events: set<Event>, socketId: string)
    requires SweptPart(before, after, events, {}, socketId)
    ensures Sweep(after, events) == Rooms.Disconnect(before, socketId)
  {
    var target := Rooms.Disconnect(before, socketId).rooms;
    assert after.Keys == target.Keys;
    forall k | k in after
      ensures after[k] == target[k]
    {
    }
    assert after == target;
  }

  class Registry {
    var rooms: Table

    ghost predicate Valid()
      reads this
    {
      TableValid(rooms)
    }

    constructor ()
      ensures Valid() && rooms == map[]
    {
      rooms := map[];
    }

    method JoinRoom(socketId: string, playerName: string, roomId: string) returns (ack: Ack, events: seq<Event>)
      requires Valid()
      modifies this
      ensures Valid()
      ensures Step(rooms, ack, events) == Rooms.JoinRoom(old(rooms), socketId, playerName, roomId)
    {
      JoinRoomKeepsValid(rooms, socketId, playerName, roomId);
      if playerName == "" {
        return Reject(PlayerNameRequired), [];
      }
      if roomId == "" {
        return Reject(RoomNameRequired), [];
      }
      if roomId !in rooms {
        return Reject(RoomDoesNotExist), [];
      }
      var room := rooms[roomId];
      var player := Player(socketId, playerName);
      room := room.(players := room.players + [player]);
      rooms := rooms[roomId := room];
      events := [PlayerJoined(roomId, playerName, room.players)];
      ack := Ack(true, Some(Joined), Some(roomId));
    }

    method StartQuiz(quizId: string, roomName: string, quiz: Option<QuizDef>, pick: nat -> nat -> nat)
      returns (ack: Ack)
      requires Valid()
      modifies this
      ensures Valid()
      ensures Step(rooms, ack, []) == Rooms.StartQuiz(old(rooms), quizId, roomName, quiz, pick)
    {
      StartQuizKeepsValid(rooms, quizId, roomName, quiz, pick);
      if roomName == "" {
        return Reject(RoomNameMissing);
      }
      if roomName in rooms {
        return Reject(RoomTaken);
      }
      if quizId == "" {
        return Reject(QuizIdMissing);
      }
      if quiz.None? {
        return Reject(QuizNotFound);
      }
      var questions := Shuffle.ShuffleAnswers(quiz.value.questions, pick);
      var roomId := roomName;
      var newRoom := Room(roomId, [], 0, questions, []);
      rooms := rooms[roomId := newRoom];
      ack := Ack(true, Some(Started), Some(roomId));
    }

    method SubmitAnswer(socketId: string, roomId: string, answer: string) returns (ack: Ack)
      requires Valid()
      modifies this
      ensures Valid()
      ensures Step(rooms, ack, []) == Rooms.SubmitAnswer(old(rooms), socketId, roomId, answer)
    {
      SubmitAnswerKeepsValid(rooms, socketId, roomId, answer);
      if roomId !in rooms {
        return Reject(RoomNotFound);
      }
      var room := rooms[roomId];
      room := room.(answers := Set(room.answers, socketId, answer));
      rooms := rooms[roomId := room];
      ack := Ack(true, Some(AnswerSubmitted), None);
    }

    method NextQuestion(roomId: string) returns (ack: Ack, events: seq<Event>)
      requires Valid()
      modifies this
      ensures Valid()
      ensures Step(rooms, ack, events) == Rooms.NextQuestion(old(rooms), roomId)
    {
      NextQuestionKeepsValid(rooms, roomId);
      if roomId !in rooms {
        return Reject(RoomNotFound), [];
      }
      var room := rooms[roomId];
      room := room.(currentQuestionIndex := room.currentQuestionIndex + 1);
      if room.currentQuestionIndex >= |room.questions| {
        events := [QuizEnded(roomId, QuizHasEnded, room.answers)];
        rooms := rooms - {roomId};
      } else {
        rooms := rooms[roomId := room];
        var question := room.questions[room.currentQuestionIndex];
        events := [NextQuestionEvent(roomId, Strip(question))];
      }
      ack := Ack(true, None, None);
    }

    /**
     * Visits every room once: filters out the connection's players, removes the
     * room if none are left, and otherwise records a playerLeft broadcast.
     */
    method Disconnect(socketId: string) returns (events: set<Event>)
      requires Valid()
      modifies this
      ensures Valid()
      ensures Sweep(rooms, events) == Rooms.Disconnect(old(rooms), socketId)
    {
      var todo := rooms.Keys;
      events := {};
      while todo != {}
        invariant SweptPart(old(rooms), rooms, events, todo, socketId)
        decreases todo
      {
        var roomId :| roomId in todo;
        ghost var table, events0 := rooms, events;
        var room := rooms[roomId];
        room := room.(players := Without(room.players, socketId));
        if |room.players| == 0 {
          rooms := rooms - {roomId};
        } else {
          rooms := rooms[roomId := room];
          events := events + {PlayerLeft(roomId, socketId, room.players)};
        }
        SweepStepTable(old(rooms), table, todo, socketId, roomId, rooms);
        SweepStepEvents(table, events0, todo, socketId, roomId, room, |room.players| != 0, rooms, events);
        todo := todo - {roomId};
      }
      SweepDone(old(rooms), rooms, events, socketId);
      DisconnectKeepsValid(old(rooms), socketId);
    }
  }
}
