# Quiz server rooms, modelled in Dafny

This project models the room protocol of the quiz server in `src/index.ts`.
Clients start a quiz under a room name. Players join the room. Answers are
submitted. The room is advanced question by question until the quiz ends and
the room is removed. When a connection drops, every room loses that
connection's players.

Files:

- `quiz.dfy` (module `Quiz`): the quiz and question records, and the public
  view of a question. That view is broadcast without the `isCorrect` flags.
- `shuffle.dfy` (module `Shuffle`): the per-session answer shuffle. It has the
  `shuffleArr` loop over an array copy, the Fisher–Yates function that
  specifies it, and `shuffleAnswers`.
- `answers.dfy` (module `AnswerLog`): a room's `answers` map. It is modelled as
  an insertion-ordered association list, because the quizEnded broadcast lists
  the entries in insertion order.
- `rooms.dfy` (module `Rooms`): the room table `map<string, Room>`. Each event
  handler is a pure step. A step returns the new table, the acknowledgment sent
  to the caller and the broadcasts, as data. The contracts state the rejection
  conditions and messages, what the step changes and what stays unchanged. The
  lemmas show that each handler keeps the table consistent.
- `protocol.dfy` (module `Protocol`): properties of sequences of events. A room
  runs to its end. A second start under a used name fails. A join followed by
  a disconnect leaves no trace. Disconnecting twice is the same as once. There
  is also a two-question session.
- `server.dfy` (module `Server`): the class `Registry` holds the process-wide
  table as a field. Its handler methods update the field in place. The
  disconnect sweep is a loop over the rooms. Each method is proved to produce
  exactly the matching step of `Rooms` and to keep the table consistent.

Inputs the source takes from outside are parameters here:

- the connection id of the caller (`socket.id`);
- the quiz the store returned, as an `Option<QuizDef>`;
- the random draws. `ShuffleArr` and `FisherYates` take a function
  `pick: nat -> nat`: at step `i` the shuffle swaps with position
  `pick(i) % (i + 1)`. That covers exactly the indices
  `Math.floor(Math.random() * (i + 1))` can produce. `ShuffleAnswers`,
  `NewRoom`, `StartQuiz` and `Registry.StartQuiz` take
  `pick: nat -> nat -> nat`, indexed by question and then by step: question
  `k` is shuffled with the draws `pick(k)`.

Behaviour of the source kept as written:

- `startQuiz` creates a room with no players.
- A quiz with no questions is accepted without an error. It still gets a room,
  and its first advance ends it.
- `answers` is never cleared between questions. The quizEnded broadcast
  carries every answer recorded since the start, with the last write per
  connection.
- `nextQuestion` first increments the index and only then broadcasts. So
  question 0 is never broadcast. A fresh quiz of n questions broadcasts
  questions 1 to n - 1 and then quizEnded.
- `submitAnswer` records the answer even when the caller is not a player of the
  room.
- A disconnect removes every room left without players, including rooms the
  connection never joined and rooms that never had players. It sends
  playerLeft to every remaining room, whether or not the connection was in it.

## Model

| member | source | states |
|---|---|---|
| `Quiz.Strip` | src/index.ts:168-171 | the broadcast question keeps the id, the text and the answer texts in their order |
| `Quiz.StripHidesCorrectness` | src/index.ts:169 | questions that differ only in their `isCorrect` flags are broadcast identically, so the broadcast reveals no correctness |
| `Quiz.StripDeterminesTexts` | src/index.ts:169 | equal broadcasts come from questions equal up to their flags (converse of the above) |
| `Shuffle.Draw` | src/index.ts:69 | the drawn swap partner at step i lies in 0..i |
| `Shuffle.Swap` | src/index.ts:70 | the swap keeps the length, exchanges the two positions and leaves every other position unchanged |
| `Shuffle.SwapPermutes` | src/index.ts:70 | a swap keeps the same multiset of elements |
| `Shuffle.ShuffleFrom` | src/index.ts:68-71 | the steps i down to 1 of the loop keep the length |
| `Shuffle.FisherYates` | src/index.ts:66-73 | the whole shuffle keeps the length |
| `Shuffle.ShuffleFromPermutes` | src/index.ts:68-71 | the steps i down to 1 give a permutation (same multiset) of their input |
| `Shuffle.FisherYatesPermutes` | src/index.ts:66-73 | the shuffle's result is a permutation of the input options |
| `Shuffle.IdentityDrawsKeepOrder` | src/index.ts:68-71 | when every draw picks the current index, the loop leaves the order unchanged |
| `Shuffle.ShuffleArr` | src/index.ts:66-73 | the loop over an array copy returns exactly the Fisher–Yates shuffle of the input, of the same length and a permutation of it; the input is a value and is not modified |
| `Shuffle.ShuffleAnswers` | src/index.ts:62-64 | as many questions as the quiz, each keeping its id, text and number of options |
| `Shuffle.ShuffleAnswersPermutes` | src/index.ts:62-64 | each session question keeps its id and text, and its options are a permutation of the original ones |
| `AnswerLog.IndexOf` | src/index.ts:31 | the position found holds the key; when none is found no position holds it |
| `AnswerLog.IndexOfUnique` | src/index.ts:31 | with distinct keys, a key is found at the one position that holds it |
| `AnswerLog.Set` | src/index.ts:146 | `Map.set` adds the key to the key set; overwriting an existing key keeps the length and every key at its position, so the quizEnded entry order is unchanged; a new key is appended at the end |
| `AnswerLog.SetKeepsDistinct` | src/index.ts:146 | `Map.set` never creates a second entry for a key |
| `AnswerLog.SetGet` | src/index.ts:146 | after `set(k, v)`, `get(k)` is v and every other key's value is unchanged |
| `AnswerLog.SetSet` | src/index.ts:146 | last write wins: two writes to one key equal the second write alone |
| `Rooms.JoinRoom` | src/index.ts:82-106 | fails exactly on an empty name, an empty room id or a missing room, with the source's message in that order of checks, and then the table is unchanged and nothing is broadcast; on success it appends exactly `{id, name}` to that room's players, changes nothing else and broadcasts playerJoined with the new list |
| `Rooms.NewRoom` | src/index.ts:123-132 | the new room has id = room name, no players, index 0, no answers, as many questions as the quiz, each with the same id and text and a permutation of its options |
| `Rooms.StartQuiz` | src/index.ts:109-137 | fails exactly on an empty room name, a room name in use, an empty quiz id or a missing quiz, with the source's message in that order of checks, leaving the table unchanged; on success it adds exactly one room under the room name, leaves every other room unchanged, acknowledges with roomId = room name and broadcasts nothing |
| `Rooms.SubmitAnswer` | src/index.ts:140-153 | fails with 'Room not found' exactly when the room is missing, leaving the table unchanged; otherwise only that room's answers change, the caller's id joins the answer keys, and nothing is broadcast |
| `Rooms.SubmitAnswerRecords` | src/index.ts:146 | after a submission the caller's id maps to the submitted answer and every other recorded answer is unchanged, membership not required |
| `Rooms.SubmitAnswerTwice` | src/index.ts:146 | two submissions by one connection have the effect of the second alone |
| `Rooms.NextQuestion` | src/index.ts:156-175 | fails with 'Room not found' exactly when the room is missing; otherwise acknowledges `{success: true}`, and either ends the quiz (the index reaches the question count: quizEnded with all recorded answers, room removed) or keeps the room with the index one higher and broadcasts that question without flags; other rooms unchanged |
| `Rooms.Without` | src/index.ts:181 | the remaining players are exactly the players whose id differs from the connection's |
| `Rooms.WithoutAppend` | src/index.ts:181 | the filter distributes over concatenation, so the remaining players keep their order |
| `Rooms.WithoutAbsent` | src/index.ts:181 | a list without the connection's id is left as it is |
| `Rooms.Disconnect` | src/index.ts:178-189 | the remaining rooms are exactly those with players left after the filter, each with only its players changed, none of them the connection's; exactly one playerLeft per remaining room carrying its new list |
| `Rooms.JoinRoomKeepsValid` | src/index.ts:97-99 | joining keeps every room stored under its own id, with distinct answer keys and a valid question index |
| `Rooms.StartQuizKeepsValid` | src/index.ts:125-134 | starting a quiz keeps the table consistent |
| `Rooms.SubmitAnswerKeepsValid` | src/index.ts:146-147 | submitting keeps the table consistent (answer keys stay distinct) |
| `Rooms.NextQuestionKeepsValid` | src/index.ts:162-165 | advancing keeps the table consistent (the index of a stored room stays below the question count, or at 0) |
| `Rooms.DisconnectKeepsValid` | src/index.ts:180-184 | the disconnect sweep keeps the table consistent |
| `Protocol.AdvanceLast` | src/index.ts:162-166 | the last advance broadcasts quizEnded with the room's answers and removes the room |
| `Protocol.AdvanceMiddle` | src/index.ts:162-171 | an earlier advance broadcasts the next question and keeps the room at the next index |
| `Protocol.BroadcastsCons` | src/index.ts:168-171 | the question broadcasts from position i are question i's broadcast followed by those from i + 1 |
| `Protocol.AdvanceToEnd` | src/index.ts:156-175 | a room at question i of n ends after exactly n - i advances: it broadcasts questions i + 1 to n - 1 in order, then exactly one quizEnded with its answers, and is removed, with every other room unchanged |
| `Protocol.StartedTable` | src/index.ts:123-134 | a successful start adds the new room and nothing else |
| `Protocol.FreshQuizRun` | src/index.ts:162-171 | a freshly started quiz of n >= 1 questions ends after n advances. Questions 1 to n - 1 are broadcast, never question 0, and then quizEnded with no answers. The table is back to what it was before the start |
| `Protocol.EmptyQuizEndsAtOnce` | src/index.ts:123-134 | a quiz with no questions still gets a room, and the first advance ends it and removes it |
| `Protocol.StartTwice` | src/index.ts:113-115 | a second start under a name in use fails with the room-taken message, and the first room is untouched |
| `Protocol.JoinLeavesNoTrace` | src/index.ts:97-99 | once the joining connection is filtered out again, every room is as before the join |
| `Protocol.JoinThenDisconnect` | src/index.ts:180-188 | a join followed by the same connection's disconnect gives the same table and broadcasts as the disconnect alone |
| `Protocol.SameLeaveSameSweep` | src/index.ts:180-188 | the sweep depends only on each room once the connection has left it |
| `Protocol.DisconnectOfStranger` | src/index.ts:185-187 | a non-empty room the connection was never in stays as it was and still gets a playerLeft broadcast |
| `Protocol.DisconnectIdempotent` | src/index.ts:180-188 | a second disconnect of the same connection changes nothing |
| `Protocol.TwoQuestionTables` | src/index.ts:97-147 | the tables of a start, a join and a submission, step by step |
| `Protocol.TwoQuestionSession` | src/index.ts:156-175 | two-question session: the first advance broadcasts question 2, and the second ends it. It sends quizEnded with the answer given before question 2, and the table returns to its state before the start |
| `Server.Registry.constructor` | src/index.ts:34 | the table starts empty and consistent |
| `Server.Registry.JoinRoom` | src/index.ts:82-106 | the in-place handler leaves exactly the table, reply and broadcasts of `Rooms.JoinRoom` and keeps the table consistent |
| `Server.Registry.StartQuiz` | src/index.ts:109-137 | the in-place handler matches `Rooms.StartQuiz` and keeps the table consistent |
| `Server.Registry.SubmitAnswer` | src/index.ts:140-153 | the in-place handler matches `Rooms.SubmitAnswer` and keeps the table consistent |
| `Server.Registry.NextQuestion` | src/index.ts:156-175 | the in-place handler matches `Rooms.NextQuestion` and keeps the table consistent |
| `Server.Registry.Disconnect` | src/index.ts:178-189 | the loop visits every room once and leaves exactly the table and broadcasts of `Rooms.Disconnect` |
| `Server.SweepStepTable` | src/index.ts:181-183 | visiting one more room keeps the sweep's table invariant |
| `Server.SweepStepEvents` | src/index.ts:185-187 | visiting one more room keeps the sweep's broadcast invariant |
| `Server.SweepDone` | src/index.ts:180-188 | after all rooms are visited, the table and broadcasts are those of the whole sweep |

## Left out

- Express routes and the HTTP server (src/index.ts:9-19, 36-60, 193-195) are not modelled: they are transport, not room state.
- Socket.IO wiring is not modelled: `io.on`, `socket.join`, `io.to(...).emit` and the callbacks. Acknowledgments and broadcasts are returned values. Delivery to individual connections and room membership on the transport side are not modelled.
- `console.log` calls are left out because they have no effect on state.
- The quiz store is not part of this model (src/quizes/file-system-quiz.repository.ts, quiz.service.ts, quizes.controller.ts). Its file I/O, JSON parsing and id generation are outside the model, and the looked-up quiz is an input to `StartQuiz`.
- Quiz not found: the store's `getById` rejects its promise when the quiz is missing. The `await` in the `async` `startQuiz` listener (src/index.ts:119) has no try/catch, so the rejection is unhandled. The caller gets no reply. Under Node's default since version 15, an unhandled rejection ends the process, and with it every room. The model has no process and does not capture that crash. The model follows the handler's own `if (!quiz)` branch and replies 'Quiz not found'.
- `startQuiz` awaits the store after its room-name check. Two concurrent starts under one name can therefore race. The model treats each handler as atomic.
- `Math.random` is replaced by the caller-supplied draws. Only "the result is a permutation" is proved. Uniformity of the shuffle is not modelled.
- Payload fields are strings in the model. The source's `!x` tests also reject `undefined` and `null`, which the model represents by the empty string. Non-string payloads are not modelled.
- The rooms table is a Dafny `map`, which has no order. The source's `rooms.forEach` visits rooms in insertion order, so `Rooms.Disconnect` returns its playerLeft broadcasts as a set. The order of broadcasts across rooms is not modelled.
- Rooms are values in the table. The source mutates Room objects in place. `joinRoom` (src/index.ts:98-99) and `submitAnswer` (src/index.ts:146-147) mutate the room and store it again with `rooms.set`. `nextQuestion` (src/index.ts:162) increments the index on the stored object without `rooms.set`. `disconnect` (src/index.ts:181) reassigns `players` on the stored object. No other reference to a Room outlives a handler, so replacing the stored value in the map has the same effect. Aliasing between Room objects is not modelled. The broadcast player list is the state at the time of sending.
- `Shuffle.ShuffleArr` takes the options as a sequence value and copies them into a fresh array. So "the input is not modified" holds by construction rather than by a frame condition on a caller's array.
- `Registry.StartQuiz` builds the session questions with the function `ShuffleAnswers`, which uses `FisherYates`. It does not call the `ShuffleArr` method. `ShuffleArr` is proved equal to `FisherYates`.
