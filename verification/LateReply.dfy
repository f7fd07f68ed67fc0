/**
 * A reply that no moment explains: a submission reads the progress before a close that
 * eliminates its player and ends the game, and the players after it.
 */
module LateReply {
  import opened Domain
  import opened Rules
  import opened Checks
  import opened Redis
  import opened Game
  import opened Protocol
  import opened Replies
  import opened StaleDeadline
  import opened Witness

  const Newcomer: Player := Player("P", 1, true, "x")

  const Sub: Submission := Submission("p", "q", "a")

  /** Thread 1 joins the only player, */
  const Join1: seq<Action> := [Begin(1, JoinOp("p", "P", "x")), Advance(1), Advance(1), Advance(1), Advance(1)]

  const Joined: Sys := Start0.(db := Start0.db.(players := map["p" := Newcomer]), threads := map[1 := Idle], tokens := 1)

  lemma Joins()
    ensures Exec(OneQuestion, Start0, Join1) == Joined && TimelyRun(OneQuestion, Start0, Join1)
  {
  }

  /** and starts the only question. */
  const Load1: seq<Action> := [Begin(1, StartOp), Advance(1), Advance(1), Advance(1)]

  const Save1: seq<Action> := [Advance(1), Advance(1), Advance(1)]

  const LockedAgain: Sys := Joined.(db := Joined.db.(lock := Some(Lease(1, LockTTL))), tokens := 2)

  const ReadyToSave: Sys := LockedAgain.(threads := map[1 := Stamped(Ticket(1, LockTTL), First)])

  const Asked: Sys := Joined.(db := Joined.db.(progress := First), tokens := 2)

  lemma Loads()
    ensures Exec(OneQuestion, Joined, Load1) == ReadyToSave && TimelyRun(OneQuestion, Joined, Load1)
  {
  }

  lemma Starts()
    ensures Exec(OneQuestion, ReadyToSave, Save1) == Asked && TimelyRun(OneQuestion, ReadyToSave, Save1)
  {
  }

  /** Thread 9 begins to submit the correct answer, and reads the progress. */
  const Submit9: seq<Action> := [Submit(9, Sub)]

  const Submitted: Sys := Asked.(threads := map[1 := Idle, 9 := Asking(Sub)])

  const Look9: seq<Action> := [Advance(9)]

  const Looked: Sys := Asked.(threads := map[1 := Idle, 9 := AskedProgress(Sub, First)])

  lemma Looks()
    ensures Exec(OneQuestion, Asked, Submit9) == Submitted && TimelyRun(OneQuestion, Asked, Submit9)
    ensures Exec(OneQuestion, Submitted, Look9) == Looked && TimelyRun(OneQuestion, Submitted, Look9)
  {
  }

  /** Meanwhile thread 3 closes the question: the player is out, and the game over. */
  const Read3: seq<Action> := [Begin(3, CloseOp(-1)), Advance(3)]

  const Load3: seq<Action> := [Advance(3)]

  const Take3: seq<Action> := [Advance(3)]

  const Score3: seq<Action> := [Advance(3)]

  const Ticket3: Ticket := Ticket(2, LockTTL)

  const Begun3: Sys :=
    Put(Looked, 3, HasProgress(CloseOp(-1), Ticket3, First))
    .(db := Looked.db.(lock := Some(Lease(2, LockTTL))), tokens := 3)

  const Ready3: Sys := Put(Begun3, 3, Loaded(CloseOp(-1), Ticket3, First, map["p" := Newcomer]))

  const Taken3: Sys :=
    Put(Ready3, 3, Closing(-1, Ticket3, First, map["p" := Newcomer], map[]))
    .(db := Ready3.db.(progress := First.(open := false)))

  const Ended: Sys :=
    Put(Taken3, 3, Saved(Ticket3, 0))
    .(db := Taken3.db.(progress := Progress(Finished, 0, false, 0, AllEliminated),
                       players := map["p" := Newcomer.(lives := 0, active := false)]),
      rounds := [Round(0, {"p"}, true)])

  lemma Reads()
    ensures Exec(OneQuestion, Looked, Read3) == Begun3 && TimelyRun(OneQuestion, Looked, Read3)
  {
  }

  lemma Sees()
    ensures Exec(OneQuestion, Begun3, Load3) == Ready3 && TimelyRun(OneQuestion, Begun3, Load3)
  {
  }

  lemma Takes()
    ensures Exec(OneQuestion, Ready3, Take3) == Taken3 && TimelyRun(OneQuestion, Ready3, Take3)
  {
  }

  lemma OnlyPlayerLoses()
    ensures
      var players: Players, after := map["p" := Newcomer], map["p" := Newcomer.(lives := 0, active := false)];
      && Losers(players, map[], "a") == {"p"}
      && Penalized(players, map[], "a") == after
      && Active(after) == {}
      && Changed(OneQuestion, First, players, map[]) == after
  {
    var players: Players, after := map["p" := Newcomer], map["p" := Newcomer.(lives := 0, active := false)];
    assert Losers(players, map[], "a") == {"p"};
    assert Penalized(players, map[], "a") == after;
    assert Changed(OneQuestion, First, players, map[]) == after;
  }

  lemma Scores()
    ensures Step(OneQuestion, Taken3, Advance(3)) == Ended
  {
    OnlyPlayerLoses();
    assert Save(OneQuestion, Taken3.db, Ended.db.progress, Ended.db.players) == Ended.db;
  }

  lemma Ends()
    ensures Exec(OneQuestion, Taken3, Score3) == Ended && TimelyRun(OneQuestion, Taken3, Score3)
  {
    Scores();
  }

  /** Then thread 9 reads the players. */
  const Told9: Sys := Put(Ended, 9, AskedPlayers(Sub, First, Ended.db.players))

  lemma Tells()
    ensures Exec(OneQuestion, Ended, Look9) == Told9 && TimelyRun(OneQuestion, Ended, Look9)
  {
  }

  const Before: seq<Action> := Join1 + Load1 + Save1 + Submit9

  const Meanwhile: seq<Action> := Look9 + Read3 + Load3 + Take3 + Score3 + Look9

  lemma Runs()
    ensures Exec(OneQuestion, Start0, Before) == Submitted && TimelyRun(OneQuestion, Start0, Before)
    ensures Exec(OneQuestion, Submitted, Meanwhile) == Told9 && TimelyRun(OneQuestion, Submitted, Meanwhile)
  {
    Joins();
    Loads();
    Starts();
    Looks();
    Reads();
    Sees();
    Takes();
    Ends();
    Tells();
    TimelyAppend(OneQuestion, Start0, Join1, Load1);
    TimelyAppend(OneQuestion, Start0, Join1 + Load1, Save1);
    TimelyAppend(OneQuestion, Start0, Join1 + Load1 + Save1, Submit9);
    TimelyAppend(OneQuestion, Submitted, Look9, Read3);
    TimelyAppend(OneQuestion, Submitted, Look9 + Read3, Load3);
    TimelyAppend(OneQuestion, Submitted, Look9 + Read3 + Load3, Take3);
    TimelyAppend(OneQuestion, Submitted, Look9 + Read3 + Load3 + Take3, Score3);
    TimelyAppend(OneQuestion, Submitted, Look9 + Read3 + Load3 + Take3 + Score3, Look9);
  }

  /** A timely run without faults in which the reply is that of no atomic submission. */
  lemma NoMomentExplains()
    ensures OneQuestion.Valid() && Init(OneQuestion, Start0) && TimelyRun(OneQuestion, Start0, Before)
    ensures At(Exec(OneQuestion, Start0, Before), 9) == Asking(Sub)
    ensures
      var start := Exec(OneQuestion, Start0, Before);
      && TimelyRun(OneQuestion, start, Meanwhile)
      && Answered(OneQuestion, Exec(OneQuestion, start, Meanwhile), 9) == Some(Some(PlayerEliminated))
      && Some(PlayerEliminated) !in AtomicReplies(OneQuestion, start, Meanwhile, Sub)
  {
    Runs();
    assert Out(Told9.db.players, "p") && OutAtTheEnd(Abs(Told9), "p");
    SubmissionReply(OneQuestion, Start0, Before, Meanwhile, 9, Sub);
  }
}
