/**
 * Why runs have to be timely: Save carries no fencing token, so a thread that has
 * overrun its lock can still write back what it read long before.
 */
module Witness {
  import opened Domain
  import opened Rules
  import opened Checks
  import opened Redis
  import opened Game
  import opened Protocol
  import opened Safety

  const OneQuestion: Env := Env(1, 0, [Question("q", ["a"], "a")], 60, 60)

  /** A new game at time 0. */
  const Start0: Sys :=
    Sys(Db(Progress(Waiting, -1, false, 0, NotOver), map[], 60_000, map[], None, map[], 0), map[], 0, {}, [])

  const Opened: Progress := Progress(Running, 0, true, 0, NotOver)

  const Again: Progress := Progress(Running, 0, true, LockTTL, NotOver)

  /** Thread 1 loads the waiting game for a start and pauses until its lock has run out. */
  const Read1: seq<Action> := [Begin(1, StartOp), Advance(1), Advance(1), Advance(1)]

  const Pause: seq<Action> := [Tick(LockTTL)]

  const Ready1: Sys :=
    Start0.(db := Start0.db.(lock := Some(Lease(0, LockTTL))), threads := map[1 := Stamped(Ticket(0, LockTTL), Opened)],
            tokens := 1)

  const Paused: Sys := Ready1.(db := Ready1.db.(now := LockTTL))

  lemma Pauses()
    ensures Exec(OneQuestion, Start0, Read1) == Ready1
    ensures Exec(OneQuestion, Ready1, Pause) == Paused
  {
  }

  /** Meanwhile thread 2 starts the question, */
  const Read2: seq<Action> := [Begin(2, StartOp), Advance(2), Advance(2), Advance(2)]

  const Write2: seq<Action> := [Advance(2), Advance(2), Advance(2)]

  const Locked2: Sys := Paused.(db := Paused.db.(lock := Some(Lease(1, 2 * LockTTL))), tokens := 2)

  const Ready2: Sys := Put(Locked2, 2, Stamped(Ticket(1, 2 * LockTTL), Again))

  const Played: Sys :=
    Paused.(db := Paused.db.(lock := None, progress := Again, expiry := LockTTL + 60_000),
            threads := Paused.threads[2 := Idle], tokens := 2)

  lemma Reads()
    ensures Exec(OneQuestion, Paused, Read2) == Ready2
  {
  }

  lemma Writes()
    ensures Exec(OneQuestion, Ready2, Write2) == Played
  {
  }

  /** and thread 3 closes it, which ends the game. */
  const Read3: seq<Action> := [Begin(3, CloseOp(-1)), Advance(3), Advance(3), Advance(3)]

  const Write3: seq<Action> := [Advance(3), Advance(3), Advance(3)]

  const Locked3: Sys := Played.(db := Played.db.(lock := Some(Lease(2, 2 * LockTTL))), tokens := 3)

  const Ready3: Sys :=
    Put(Locked3, 3, Closing(-1, Ticket(2, 2 * LockTTL), Again, map[], map[]))
    .(db := Locked3.db.(progress := Again.(open := false)))

  const Over: Progress := Progress(Finished, 0, false, LockTTL, AllEliminated)

  const Closed3: Sys :=
    Played.(db := Played.db.(progress := Over), threads := Played.threads[3 := Idle], tokens := 3,
            rounds := [Round(0, {}, true)])

  lemma ReadsToClose()
    ensures Exec(OneQuestion, Played, Read3) == Ready3
  {
  }

  const Scored3: Sys := Put(Closed3, 3, Saved(Ticket(2, 2 * LockTTL), 0)).(db := Closed3.db.(lock := Locked3.db.lock))

  lemma Scores()
    ensures Step(OneQuestion, Ready3, Advance(3)) == Scored3
  {
    assert Penalized(map[], map[], "a") == map[];
    assert Losers(map[], map[], "a") == {};
    assert Active(map[]) == {};
    assert Changed(OneQuestion, Again, map[], map[]) == map[];
    assert Scored(OneQuestion, Again, map[]) == Over;
    assert Save(OneQuestion, Ready3.db, Over, map[]) == Scored3.db;
  }

  const Leaving3: Sys := Put(Closed3, 3, Releasing(Ticket(2, 2 * LockTTL))).(db := Scored3.db)

  lemma Releases()
    ensures Step(OneQuestion, Scored3, Advance(3)) == Leaving3
    ensures Step(OneQuestion, Leaving3, Advance(3)) == Closed3
  {
  }

  lemma Closes()
    ensures Exec(OneQuestion, Ready3, Write3) == Closed3
  {
    Scores();
    Releases();
  }

  /** Then thread 1 wakes up and saves its start. */
  const Wake: seq<Action> := [Advance(1), Advance(1)]

  lemma Reopens()
    ensures Exec(OneQuestion, Closed3, Wake).db.progress == Opened
  {
  }

  const Finish: seq<Action> := Read1 + Pause + Read2 + Write2 + Read3 + Write3

  lemma Finishes()
    ensures Exec(OneQuestion, Start0, Finish) == Closed3
  {
    Pauses();
    Reads();
    Writes();
    ReadsToClose();
    Closes();
    ExecAppend(OneQuestion, Start0, Read1, Pause);
    ExecAppend(OneQuestion, Start0, Read1 + Pause, Read2);
    ExecAppend(OneQuestion, Start0, Read1 + Pause + Read2, Write2);
    ExecAppend(OneQuestion, Start0, Read1 + Pause + Read2 + Write2, Read3);
    ExecAppend(OneQuestion, Start0, Read1 + Pause + Read2 + Write2 + Read3, Write3);
  }

  lemma NotTimely()
    ensures !TimelyRun(OneQuestion, Start0, Finish)
  {
    Finishes();
    assert !Timely(Closed3) by { assert 1 in Closed3.threads && Closed3.threads[1].Critical(); }
    if TimelyRun(OneQuestion, Start0, Finish) {
      InitIsNewGame(OneQuestion, Start0);
      RunRefines(OneQuestion, Start0, Finish);
    }
  }

  /**
   * A run that is not timely reopens a finished game at a question whose penalties
   * are already saved: without the hypothesis neither ClosedForGood nor RunSettles holds.
   */
  lemma OverrunReopens()
    ensures OneQuestion.Valid() && Init(OneQuestion, Start0) && !TimelyRun(OneQuestion, Start0, Finish)
    ensures
      var before, after := Exec(OneQuestion, Start0, Finish), Exec(OneQuestion, Start0, Finish + Wake);
      && before.db.progress.status == Finished && ClosedAt(before.db, 0) && before.rounds == [Round(0, {}, true)]
      && after.db.progress.status == Running && !ClosedAt(after.db, 0)
  {
    NotTimely();
    Finishes();
    Reopens();
    ExecAppend(OneQuestion, Start0, Finish, Wake);
  }
}
