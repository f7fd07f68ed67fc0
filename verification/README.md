# Verified model of the quiz game backend

A quiz game is played through any number of API instances that share one Redis.
Joins, starts and closes run under a per-game lock; answers take no lock; a
question ends when the host closes it or when some instance has claimed its answer
deadline. This project models those parts of the backend in Dafny and proves what
they promise in every run: all interleavings of all threads, with store errors
and crashes between any two commands.

## What is modelled, file by file

- `Order`: sorted listings of sets, Go's string order.
- `Domain`, `Rules`, `Checks`: a game's values; the rules applied to a closed
  question, as the loops of a `State` object whose fields they overwrite and as
  functions on values; the checks each transition makes.
- `Game`, `GameLaws`: the sequential game, with atomic Join, Start, Answer and
  Close, its invariant, and its laws over whole plays. The one extra move, Void,
  is a close whose penalties were lost.
- `Redis`, `Store`: one game's keys, with one function per atomic command,
  MULTI/EXEC block or script, and the same store as an object.
- `Protocol`: the transition system. A thread's program counter says where it is
  and what it has read so far; `Step` performs one store command. An action that
  is not enabled does nothing, so every sequence of actions is a run.
- `LockSafety`, `Refinement`, `Safety`, `DeadlineSafety`: the inductive invariant,
  the refinement of the sequential game, and what follows for the store.
- `EarlyClose`: exactly when a deadline can close a question before its time.
- `Replies`: what callers are told, compared with atomic calls.
- `Calls`: what a call achieves when nobody gets in its way, and that every call is
  answered once.
- `Witness`, `StaleDeadline`, `LateReply`: concrete runs, in which a lock holder that
  overruns reopens a finished game, a deadline closes a question early, and a reply is
  that of no single moment.
- `Engine`: the engine's calls as methods on the store object, each of them by
  itself, proved to be moves of the sequential game.
- `LockRetry`: the loop that waits for the lock.
- `Deadlines`: the sorted set of deadlines shared by all games, and its members.
- `Hub`, `Connections`, `Admission`, `Sessions`: one live connection per player.
  `Connections` is the transition system (instances, reference-counted sessions,
  generation counters, messages in flight), `Admission` shows that connections are
  let in, and `Hub` and `Sessions` hold the objects behind both.
- `Catalog`: the order of the questions of a list under add, reorder and delete.

## Hypotheses

- `Domain.Env.Valid`: at least one initial life, a timeout that is not negative,
  whole-second expiry times of at least one second, and a non-empty correct option
  for every question (a missing answer reads as the empty string).
- `Protocol.Timely`: the game's keys have not expired, and no live thread is still
  between Lock and unlock when its lock expires. Unique holders and harmless late
  unlocks need neither.
  `Witness.OverrunReopens` shows what happens otherwise.
- `DeadlineSafety.Clean`, for `DeadlineIsNotEarly` and its invariant only: no start of
  the question concerned fails or dies between registering its deadline and saving.
- The per-player connection counter does not expire, pub/sub delivers to every
  confirmed subscriber, and all clocks agree.

Store errors, and commands that took effect although an error was returned, are
the action `Fail` before or after the command; a crash is `Crash`.

## Where the code falls short

The comment at internal/game/engine.go:167-168 calls the deadline that a failed
start leaves behind harmless, because closing checks the question index. The index
does not tell a start from its repetition: if the stale deadline has been claimed
when the start is repeated, it closes the question at once.
`StaleDeadline.FailedStartClosesEarly` is such a run. The exact condition is
`EarlyClose.EarlyExactlyIfUnderWay`: whatever failed before, an open question whose
time is not up can still be closed early if and only if its deadline is already
claimed or being acted on, and the lock can be had in time. A lock that is free or in
the hands of a live thread can be had at once, that of a crashed one when it expires.
`DeadlineSafety.DeadlineIsNotEarly` adds that this takes a start of that very question
which failed between registering its deadline and saving.

A submission reads the progress and the players separately. If the close that ends
the game falls between the two reads and eliminates the player, the reply is
"eliminated", although an atomic submission would have been accepted before and told
"not running" after. `LateReply.NoMomentExplains` is such a run, and
`Replies.SubmissionReply` says that "eliminated" is the reply of some moment exactly
in all other cases, and gives the one other exception: an invalid option from a player
whose earlier answer has expired since the progress was read.

A thread that dies or fails between taking a question's answers and saving loses
that round's penalties. The question stays closed, and if it was the last one the
game can be neither started nor closed again. `Safety.StuckExactlyWhenLastCloseLost`
says that this is the only way to get there, `Safety.NeverStuck` that other runs
never do, and `GameLaws.LostCloseStrands` is an instance.

## Model

| member | source | states |
|---|---|---|
| `Safety.EveryRunIsAPlay` | internal/game/engine.go:86-321 | every interleaving of joins, starts, unlocked answers, host and deadline closes, claims, errors and crashes is a legal play of the sequential game |
| `Refinement.StepRefines` | internal/redis/gamestate.go:144-447 | one store command of one thread keeps the invariant and is exactly one move, or none, of the sequential game |
| `Refinement.ChangedIsEnough` | internal/game/engine.go:267-273 | writing back only the players who lost a life leaves all stored players as the rules say |
| `Refinement.TakeStep` | internal/redis/gamestate.go:387-391 | the close script takes every answer recorded for the question although the answers key expires separately |
| `Refinement.RecordStep` | internal/redis/gamestate.go:351-358 | the record script is a legal Answer move or changes nothing, although its thread checked an older, piecemeal Load |
| `Refinement.SaveCloseStep` | internal/game/engine.go:264-273 | saving a close is the atomic Close of the sequential game |
| `Refinement.StartStep` | internal/game/engine.go:160-177 | saving a start is the atomic Start, and finds no answers to the new question |
| `Refinement.JoinStep` | internal/game/engine.go:104-119 | storing a new player is the atomic Join |
| `Refinement.LostStep` | internal/game/engine.go:258-273 | a closer that stops between taking the answers and saving voids its round and nothing else |
| `Calls.UndisturbedCall` | internal/game/engine.go:86-279 | a call that gets the lock and is left alone makes its move of the game, with the new times and deadlines, iff that is legal (a deadline's close on its own question only), changes nothing otherwise, and frees the lock |
| `Calls.UndisturbedSubmission` | internal/game/engine.go:192-221 | a submission left alone records the answer, with its expiry, iff the question asked is open and the answer legal, and changes nothing otherwise |
| `Calls.EveryCallIsAnswered` | internal/game/engine.go:86-256 | in any run whatever a thread that does not fail or die is never done with a call before its reply is decided, and never decides a second one |
| `Calls.NoLockIsLeftBehind` | internal/game/engine.go:86-97 | in any run without crashes and failing unlocks, whatever error a call ends with, the lock is free or held by a thread that will give it back |
| `Calls.FailureStops` | internal/game/engine.go:86-97 | a command may fail at any point of a call; the store keeps what it has and only the unlock is still tried |
| `Calls.ReachedCanBeClaimed` | internal/redis/gamestate.go:426-431 | any reached deadlines may be claimed together, and are then nobody else's |
| `Calls.FailureUnlocks` | internal/redis/gamestate.go:254-262 | a call that fails under the lock gives it back with its next command and leaves the rest of the store as it was |
| `Calls.LockLastsTenSeconds` | internal/redis/gamestate.go:46 | a holder that dies keeps others out for exactly ten seconds |
| `Calls.CrashIsDeath` | internal/redis/gamestate.go:245-262 | a dead thread does nothing more and its death changes nothing in the store |
| `Safety.AcceptedAnswerIsValid` | internal/game/engine.go:192-221 | when the record script says ok, at that instant the player is in the game and active, the question is the open one, the option one of its options, and no answer was there before |
| `Safety.CloseTakesEveryAnswer` | internal/redis/gamestate.go:387-407 | a close that succeeds has every answer ever accepted for its question |
| `Safety.CorrectAnswersAreSafe` | internal/game/engine.go:330-345 | in no run, crashes included, does an accepted correct answer cost a life |
| `Safety.LivesAreAccountedFor` | internal/game/engine.go:327-345 | stored lives are the initial ones minus one per saved close at which the player still had a life and no accepted correct answer; active iff lives are left |
| `Safety.StoredLivesAreConserved` | internal/game/engine.go:327-345 | lives left plus lives lost is players times initial lives |
| `Safety.PenaltiesAtMostOnce` | internal/game/engine.go:242-278 | each question's penalties are stored or lost exactly once if it is over and never otherwise, whatever closes race |
| `Safety.ClosedForGood` | internal/redis/gamestate.go:351-391 | a closed question never reopens and its recorded answers never change |
| `Safety.RunSettles` | internal/game/engine.go:192-273 | between any two states of a run, accepted answers, eliminated players' records and finished games do not change |
| `Safety.LockFreeShape` | internal/game/engine.go:139-279 | with the lock free: waiting iff no question started, end reason iff finished and which one iff one, no or several players are left, finished implies closed, the index is in range, and running but closed implies two players and a question left unless the last close was lost |
| `Safety.StuckExactlyWhenLastCloseLost` | internal/game/engine.go:151-153 | with the lock free an unfinished game can be started or closed, and the exhausted-list error is unreachable, except exactly when the last question's penalties were lost |
| `Safety.ScoredUnlessLost` | internal/game/engine.go:258-273 | a round's penalties are lost exactly in runs in which a closer stops between taking the answers and saving |
| `Safety.NeverStuck` | internal/game/engine.go:139-158 | in all other runs, with the lock free, running but closed implies two active players and a question left, an unfinished game can go on, and the exhausted-list error of a start is unreachable |
| `Safety.RunsAreFinite` | internal/game/engine.go:139-279 | a run makes at most two transitions per question and at most as many closes as questions |
| `Witness.OverrunReopens` | internal/redis/gamestate.go:301-330 | a concrete run in which a starter overruns its lock and reopens a finished game, so the hypothesis is needed |
| `LockSafety.StepKeepsLockInv` | internal/redis/gamestate.go:239-262 | tokens stay unique and an unexpired ticket stays worth the lock after any step, with no assumption on how long threads take |
| `LockSafety.UnexpiredHolderIsAlone` | internal/redis/gamestate.go:245-262 | in any run an unexpired holder has the lock and nobody else does |
| `LockSafety.LateUnlockIsHarmless` | internal/redis/gamestate.go:239-243 | an unlock, however late, never takes the lock from another holder |
| `LockSafety.CriticalSectionsExclude` | internal/game/engine.go:86-97 | in any run, if nobody overruns, at most one thread is between Lock and unlock, and it has the lock |
| `DeadlineSafety.DeadlineClosesItsQuestion` | internal/game/engine.go:239-273 | in any run whatever, a round that a step saves or loses belongs to the acting thread's last close, and if that was begun for the deadline of question n it is a round of question n |
| `DeadlineSafety.DeadlineIsNotEarly` | internal/game/engine.go:167-174 | unless some start of that question failed or died between registering its deadline and saving, a deadline never closes a question before its start plus the timeout in milliseconds |
| `EarlyClose.EarlyExactlyIfUnderWay` | internal/game/engine.go:167-174 | in any timely run, an open question whose time is not up can still be closed early for its deadline iff that deadline is already claimed or acted on and the lock can be had before the time is up and the game expires |
| `EarlyClose.EarlyExactlyIfClaimed` | internal/game/manager.go:120-139 | with the lock free: iff the deadline is claimed |
| `EarlyClose.WaitsForExpiry` | internal/redis/gamestate.go:245-262 | while a crashed thread's lock lasts nobody gets past Lock, and afterwards only if the game is still there |
| `EarlyClose.RunKeepsScoreInv` | internal/game/engine.go:169-174 | whatever failed before, the registered deadline of a started question, and of one about to be saved, is no earlier than its start plus timeout |
| `EarlyClose.UnclaimedIsNeverEarly` | internal/game/manager.go:120-139 | a started question whose deadline is neither claimed nor acted on is never closed early, whatever happens from there |
| `StaleDeadline.FailedStartClosesEarly` | internal/game/engine.go:167-174 | a concrete timely run with one such failure, in which a claimed deadline closes its question the moment it starts |
| `DeadlineSafety.RunKeepsDeadlineInv` | internal/game/manager.go:120-139 | unless a start of the question failed or died between registering its deadline and saving, its registered, claimed or acted-on deadline is no earlier than its start plus timeout |
| `Replies.LockedRepliesAreSequential` | internal/game/engine.go:86-279 | in any timely run a join, start or close is answered exactly as the sequential game would at the step that decides it, which makes its move on success and none on an error |
| `Replies.JoinIsTold` | internal/game/engine.go:104-109 | a join is told "already started" iff some question was started, "already joined" iff none was and the id is stored, and succeeds otherwise |
| `Replies.StartIsTold` | internal/game/engine.go:141-153 | a start is told "still open" iff a question is open, "finished" iff the game ended with at most one survivor, "no more questions" iff it ended with two or the list is exhausted, and succeeds otherwise |
| `Replies.CloseIsTold` | internal/game/engine.go:250-255 | a close is told "not running" iff nothing was started or the game has ended, "no active question" iff the game runs and the current question is closed or the deadline is for another one, and succeeds otherwise |
| `Replies.SuccessIsLegal` | internal/game/engine.go:102-256 | the checks of a join, start or close succeed iff the sequential game can make the move, for a deadline's close on the question it is for |
| `Replies.SubmissionReply` | internal/game/engine.go:192-221 | the reply, success included, is that of an atomic submission at some moment of the call, except exactly for "eliminated" when the close that ended the game eliminated the player, and "invalid option" when the player had answered that question before the call |
| `Replies.StaysTooLate` | internal/game/engine.go:192-199 | a submission begun after the end never gets as far as recording, and "not running" is the atomic reply |
| `LateReply.NoMomentExplains` | internal/redis/gamestate.go:144-152 | a concrete timely run without faults in which the reply is that of no atomic submission |
| `Game.MoveKeepsInv` | internal/game/engine.go:102-279 | every move keeps the shape of the game, the validity of answers, the lives ledger and what the last close decided |
| `GameLaws.PlayKeepsInv` | internal/game/engine.go:102-279 | so does every legal play |
| `GameLaws.RoundsAreFair` | internal/game/engine.go:330-345 | a saved round takes a life from exactly the players who still had one and gave no accepted correct answer |
| `GameLaws.LivesAreConserved` | internal/game/engine.go:327-345 | any play conserves lives left plus lives lost |
| `GameLaws.PlaySettles` | internal/game/engine.go:102-279 | closed questions, accepted answers, eliminated players and finished games never change in a play |
| `GameLaws.PlaysAreFinite` | internal/game/engine.go:139-279 | every start and close uses up one unit of 2*(total-1-index) plus one if open |
| `GameLaws.ClosedOnce` | internal/game/engine.go:242-279 | no question is closed twice in a play |
| `GameLaws.LastCloseFinishes` | internal/game/engine.go:347-363 | closing the last question always finishes the game with a reason |
| `GameLaws.StuckOnlyByLostClose` | internal/game/engine.go:139-153 | an unfinished game has no start and no close exactly if the last question's penalties were lost |
| `GameLaws.LostCloseStrands` | internal/game/engine.go:258-273 | two players, one question and a lost close: the game is stranded |
| `Rules.State.ApplyPenalties` | internal/game/engine.go:327-366 | exactly the active players without the correct answer lose a life; reason, winner, survivors, scoreboard and the sorted, exact lists of losers and eliminated are as the rules say |
| `Rules.ReasonIsExact` | internal/game/engine.go:347-363 | the reported reason is last_player_standing, all_eliminated or no_more_questions iff one, no or several players are left, the last with no question left; the game is over iff there is a reason |
| `Rules.State.TakeLives` | internal/game/engine.go:327-345 | the loop over sorted players computes the tally of all of them |
| `Rules.TallyIsExact` | internal/game/engine.go:330-345 | going through the players in order yields exactly the losers, the eliminated, their deltas and the penalized players |
| `Rules.State.Leader` | internal/game/state.go:147-161 | the id with strictly the most lives, or the empty string if there is none or the top is tied |
| `Rules.WinnerIsUniqueLeader` | internal/game/state.go:145-161 | among survivors the winner is the one player nobody equals, and empty iff there are none or the top is shared |
| `Rules.State.ActivePlayers` | internal/game/state.go:134-143 | the active players, sorted, each once |
| `Order.FirstDifferenceDecides` | internal/game/engine.go:368-375 | ids sort as Go's strings: the first difference decides, and a proper prefix comes first |
| `Rules.State.SortedPlayerIDs` | internal/game/engine.go:368-375 | all players, sorted, each once |
| `Rules.State.Scoreboard` | internal/game/state.go:80-92 | every player's score, by name and then id |
| `Store.GameStateStore.constructor` | internal/game/manager.go:57-73 | a new game is waiting, without players, answers, lock or deadlines |
| `Store.GameStateStore.Load` | internal/redis/gamestate.go:144-205 | the game with its players, its current question, which is none before the first start, and the answers to it, or not found |
| `Store.GameStateStore.SetNX` | internal/redis/gamestate.go:245-262 | one attempt at the lock, with a token never used before |
| `Store.GameStateStore.Save` | internal/redis/gamestate.go:301-330 | writes the progress and the given players only; a finished game's answers get the finished expiry |
| `Store.GameStateStore.RefreshAnswers` | internal/redis/gamestate.go:317-325 | the answers keys up to the index get a new expiry, keys already gone stay gone |
| `Store.GameStateStore.RecordAnswer` | internal/redis/gamestate.go:351-382 | a player's first answer while the question is open is stored, anything else gets the script's error |
| `Store.GameStateStore.CloseAnswers` | internal/redis/gamestate.go:387-407 | marks the open question closed and returns its answers, or nothing |
| `Engine.Engine.AddPlayer` | internal/game/engine.go:102-119 | the Join of the sequential game, or the error that applies and no change |
| `Engine.Engine.StartNextQuestion` | internal/game/engine.go:139-187 | the Start of the sequential game with its deadline, or the error that applies and no change |
| `Engine.Engine.SubmitAnswer` | internal/game/engine.go:192-221 | the Answer of the sequential game, or the error that applies and no change, in any state, a close under way included; lock and deadlines are not touched |
| `Engine.Engine.CloseQuestion` | internal/game/engine.go:242-279 | the Close of the sequential game and its exact report, or the error that applies and no change |
| `Engine.Engine.ChangedPlayers` | internal/game/engine.go:267-270 | the records of exactly the players who lost a life |
| `Engine.Engine.CloseDue` | internal/game/manager.go:120-139 | the open question is closed, once, iff its deadline is among those claimed, the lock is free and the game exists; otherwise nothing changes; the count says so |
| `LockRetry.DelaysLevelOff` | internal/redis/gamestate.go:249-272 | the delays are 2, 4, 8, 16, 32 and then 64 for ever |
| `LockRetry.WaitOver` | internal/redis/gamestate.go:46-47 | the slept time first exceeds the wait after 83 sleeps, at 5054 ms |
| `LockRetry.Lock` | internal/redis/gamestate.go:245-275 | at most 84 attempts; the lock is taken at the first free reply, given up only after the wait; the time taken is the sum of all latencies and sleeps, 5054 ms at most with exact sleeps and no latency |
| `Deadlines.MemberRoundTrip` | internal/redis/gamestate.go:59 | every game id and index comes back from splitting at the last separator and parsing the decimal |
| `Deadlines.MembersAreDistinct` | internal/redis/gamestate.go:59 | distinct pairs never share a member |
| `Deadlines.ItoaRoundTrip` | internal/redis/gamestate.go:484-487 | parsing the decimal of an index gives it back |
| `Deadlines.LastIndexByte` | internal/redis/gamestate.go:438-446 | the scan finds the last separator |
| `Deadlines.DeadlineSet.ClaimScript` | internal/redis/gamestate.go:428-431 | removes and returns the first max due members in score order; due ones stay only if the batch is full |
| `Deadlines.DeadlineSet.ClaimDueCloses` | internal/redis/gamestate.go:433-447 | the claimed members parsed in order, those without a separator skipped |
| `Deadlines.ParsedMembers` | internal/redis/gamestate.go:438-446 | a claim hands out exactly the questions its members were made from |
| `Deadlines.BatchIsUnique` | internal/redis/gamestate.go:428-431 | the order leaves the claim no choice |
| `Deadlines.OldestFirst` | internal/redis/gamestate.go:428-431 | a batch holds deadlines that are reached, now included, oldest first and by member at the same time; what is reached and left is no older, and is left only by a full batch |
| `Deadlines.AtoiOtherwise` | internal/redis/gamestate.go:484-487 | anything but digits after an optional sign reads as 0, and a minus sign negates |
| `Deadlines.ReturnedOncePerScheduling` | internal/redis/gamestate.go:426-431 | however many instances claim, a member is returned at most once per scheduling |
| `Deadlines.ScheduleIsLocal` | internal/redis/gamestate.go:411-424 | setting or removing a deadline affects one index of one game |
| `Deadlines.ClaimIsLocal` | internal/redis/gamestate.go:428-447 | a claim takes due deadlines of each game and hands out exactly those |
| `Hub.HighestWins` | internal/ws/hub.go:37-72 | for any order of Register and Claim calls the highest generation is latest, its client survives if presented, and exactly the other presented clients are closed |
| `Hub.OrderDoesNotMatter` | internal/ws/hub.go:59-72 | two orders of the same calls end alike |
| `Hub.AlwaysConsistent` | internal/ws/hub.go:37-82 | throughout any run, disconnects included, latest is the highest generation so far and a registered client has it |
| `Hub.Hub.Register` | internal/ws/hub.go:37-53 | the new client replaces and closes the old one unless a newer generation was announced, in which case it is closed |
| `Hub.Hub.Claim` | internal/ws/hub.go:59-72 | the announced generation is remembered and an older local client removed and closed |
| `Hub.Hub.Unregister` | internal/ws/hub.go:76-82 | forgets the client unless another one is registered by now |
| `Connections.NewestConnectionWins` | internal/handler/game.go:534-561 | once everything about a player has settled, a registered connection is live iff no higher generation was published, and at most one is, across all instances |
| `Admission.RegisterLetsIn` | internal/ws/hub.go:37-53 | a connection is refused iff its hub has heard of a newer generation, so the newest never is |
| `Admission.NewestIsLetIn` | internal/handler/game.go:534-561 | in any run a registering connection with the newest generation becomes live |
| `Admission.ExactlyTheNewest` | internal/handler/game.go:534-561 | once a player has settled, a registered connection with the newest generation is live and is the only one |
| `Admission.UndisturbedConnection` | internal/handler/game.go:534-561 | a connection left alone becomes live with the player's next generation, has closed the player's earlier client on its hub and nobody else, and is announced to every subscribed hub |
| `Admission.DeliveryCloses` | internal/ws/hub.go:59-72 | an announcement closes exactly the player's older live clients on the hub it reaches |
| `Admission.UndisturbedLeave` | internal/app/app.go:90-104 | a connection that leaves gives its reference back, the last one the session |
| `Admission.UndisturbedGiveUp` | internal/handler/game.go:534-555 | so does one that never got as far as registering |
| `Connections.QuietMeansNewestOnly` | internal/redis/broadcaster.go:60-79 | at quiescence live means newest; newer generations have reached the connection's hub because it subscribed before claiming |
| `Connections.SessionsAreCounted` | internal/app/app.go:71-104 | a session exists exactly while acquires are outstanding, counts them, and is the one they were all given |
| `Connections.RunKeepsWorldInv` | internal/redis/broadcaster.go:116-159 | sessions, counters, messages in flight, hub tables and clients stay consistent in every run |
| `Sessions.SessionStore.Acquire` | internal/app/app.go:71-87 | one more reference to the game's hub, which is created with its subscription if missing, as in the protocol of connections; or an error and no change |
| `Sessions.SessionStore.Release` | internal/app/app.go:90-104 | one reference less, as in the protocol of connections; the last one ends the subscription |
| `Sessions.Publisher.ClaimConnection` | internal/redis/broadcaster.go:60-79 | a generation above all published before, added to them; the counter moves even if publishing fails |
| `Sessions.Connect` | internal/handler/game.go:557-561 | the client is let in unless a newer generation is known, survives iff nothing newer is announced while it is connected, and is gone from the hub in the end |
| `Sessions.SurvivesOlder` | internal/ws/hub.go:59-72 | a registered client survives exactly the announcements that are not newer than itself |
| `Sessions.WebSocket` | internal/handler/game.go:534-561 | with a session it takes the next generation; the client is let in iff that was published, the upgrade succeeded and the hub has heard of nothing newer; it survives iff nothing newer was announced before it left; on every path the references are back where they were |
| `Catalog.IsPermutation` | internal/handler/question_list.go:461-476 | true iff the request is a permutation of distinct questions |
| `Catalog.Pigeonhole` | internal/handler/question_list.go:461-476 | distinct ids drawn from equally many questions are all of them |
| `Catalog.QuestionTable.AddQuestion` | internal/handler/question_list.go:283-298 | the new question goes last, positions stay 0..n-1, and no other row changes |
| `Catalog.QuestionTable.ReorderQuestions` | internal/handler/question_list.go:420-458 | exactly the requested order if it is a permutation, else no change |
| `Catalog.QuestionTable.DeleteQuestion` | internal/postgres/postgres.go:280-302 | the remaining rows of the list are numbered 0..n-1 in their order, whatever their positions were |
| `Catalog.QuestionTable.DeleteListed` | internal/handler/question_list.go:394-415 | a question of the list goes and the rest keep their order; one of another list is refused |
| `Catalog.QuestionTable.Number` | internal/postgres/postgres.go:304-314 | the rows of the list get the positions of the given order; nothing else about them, and no other row, changes |
| `Catalog.QuestionTable.ListQuestions` | internal/postgres/postgres.go:331-348 | the rows of the list by position |
| `Catalog.QuestionTable.Replay` | internal/postgres/postgres.go:280-348 | after any sequence of edits positions are 0..n-1 in the order the edits ask for |
| `Catalog.OrderOfTwo` | internal/postgres/postgres.go:291-298 | rows come by position, and where positions clash by creation |
| `Catalog.WithoutIsOrdered` | internal/postgres/postgres.go:291-298 | deleting a row leaves the order of the others |

## Left out

- Game history in Postgres: best effort, and written after the lock is released.
- Events: broadcasts follow the unlock, so their order across transitions is not fixed; the order within one close is not modelled either.
- WebSocket pumps, the bounded send buffer, message fan-out and CloseAll: a client is a generation and a closed flag.
- HTTP routing, JSON bodies, authentication, configuration, themes and list permissions: plumbing.
- A start's read of its question and the decoding errors of Load: they end the call like any other store error.
- Writes to a game whose keys have expired, which recreate part of them: excluded by `Protocol.Timely`.
- Expiry of the per-player connection counter, and a publish that fails on some subscribers only.
- "A timed question is eventually closed": a claimed deadline whose close finds the lock busy is only logged, so deadlines are covered for safety alone.
- Players of a loaded game are values in a map, not shared objects: aliasing between the loaded state and the records written back is not captured.
- Engine.Engine.SubmitAnswer: a sequential call; its interleavings are those of `Protocol`, and its replies there those of `Replies`.
- Engine.Engine.CloseDue: one game's claimed deadlines, without store errors; the claim itself is in `Deadlines`.
- Connections.NewestConnectionWins: a hub's table and the client it closes change in one step, whereas the code closes just after unlocking the hub; one game only.
- Sessions.WebSocket: of what happens while the client is connected, only announcements about its own player; other clients of the hub and of the game come and go in `Connections`.
- Deadlines.ItoaRoundTrip: integers are unbounded, so Go's range error for indexes beyond 64 bits does not arise.
- Store.GameStateStore.Load: one atomic read; `Protocol` reads the progress, the players and the answers in separate steps.
- Replies.SubmissionReply: that no moment explains "invalid option" is stated for distinct question ids, which the catalog's keys are.
- What `Lock` and cancelled contexts add to the replies: a busy or cancelled call has no effect.
- LockRetry.Lock: replies, latencies, sleeps and cancellation are given by functions of the attempt; when a sleep and a cancellation are ready together the model cancels.
- Catalog.QuestionTable.ListQuestions: ties in position, which SQL leaves open, are broken by creation and id; contiguous positions have none.
- Catalog.QuestionTable.AddQuestion: edits are sequential; two concurrent adds may choose the same position.
- Protocol.Step: lock tokens are fresh numbers; the code draws 128 random bits.
- The per-actor index of games, GamesOf, ActorView and the client payloads: easy members.
