/**
 * Why `Clean` is needed for deadlines not to be early: a start that fails after registering
 * its deadline leaves it behind, and closing checks the question's index only, so the
 * deadline can close the same question once it has been started again.
 */
module StaleDeadline {
  import opened Domain
  import opened Rules
  import opened Checks
  import opened Redis
  import opened Game
  import opened Protocol
  import opened DeadlineSafety
  import opened Witness

  const OneSecond: Env := OneQuestion.(timeout := 1)

  const First: Progress := Progress(Running, 0, true, 0, NotOver)

  const Second: Progress := Progress(Running, 0, true, 1_000, NotOver)

  /** Thread 1 registers the deadline of its start and fails to save the start. */
  const Read1: seq<Action> := [Begin(1, StartOp), Advance(1), Advance(1), Advance(1)]

  const Fail1: seq<Action> := [Advance(1), Fail(1), Advance(1)]

  const Locked1: Sys := Start0.(db := Start0.db.(lock := Some(Lease(0, LockTTL))), tokens := 1)

  const Ready1: Sys := Locked1.(threads := map[1 := Stamped(Ticket(0, LockTTL), First)])

  const Left: Sys :=
    Start0.(db := Start0.db.(deadlines := map[0 := 1_000]), threads := map[1 := Idle], tokens := 1)

  lemma Begins()
    ensures Exec(OneSecond, Start0, Read1) == Ready1 && TimelyRun(OneSecond, Start0, Read1)
  {
  }

  lemma Fails()
    ensures Exec(OneSecond, Ready1, Fail1) == Left && TimelyRun(OneSecond, Ready1, Fail1)
  {
  }

  /** A second later some instance claims that deadline. */
  const Claim2: seq<Action> := [Tick(1_000), Claim(1_000, {0})]

  const Claimed: Sys := Left.(db := Left.db.(deadlines := map[], now := 1_000), claimed := {0})

  lemma Claims()
    ensures Exec(OneSecond, Left, Claim2) == Claimed && TimelyRun(OneSecond, Left, Claim2)
  {
  }

  /** Before it acts on it, thread 2 starts the question again. */
  const Read2: seq<Action> := [Begin(2, StartOp), Advance(2), Advance(2), Advance(2)]

  const Write2: seq<Action> := [Advance(2), Advance(2), Advance(2)]

  const Locked2: Sys := Claimed.(db := Claimed.db.(lock := Some(Lease(1, 11_000))), tokens := 2)

  const Ready2: Sys := Put(Locked2, 2, Stamped(Ticket(1, 11_000), Second))

  const Reopened: Sys :=
    Put(Locked2, 2, Idle).(db := Claimed.db.(progress := Second, expiry := 61_000, deadlines := map[0 := 2_000]))

  lemma Reads()
    ensures Exec(OneSecond, Claimed, Read2) == Ready2 && TimelyRun(OneSecond, Claimed, Read2)
  {
  }

  const Scheduled2: Sys :=
    Put(Locked2, 2, Scheduled(Ticket(1, 11_000), Second)).(db := Locked2.db.(deadlines := map[0 := 2_000]))

  const Saved2: Sys := Put(Locked2, 2, Releasing(Ticket(1, 11_000))).(db := Reopened.db.(lock := Locked2.db.lock))

  lemma Schedules()
    ensures Step(OneSecond, Ready2, Advance(2)) == Scheduled2
  {
  }

  lemma Saves()
    ensures Step(OneSecond, Scheduled2, Advance(2)) == Saved2
    ensures Step(OneSecond, Saved2, Advance(2)) == Reopened
  {
  }

  lemma Writes()
    ensures Exec(OneSecond, Ready2, Write2) == Reopened && TimelyRun(OneSecond, Ready2, Write2)
  {
    Schedules();
    Saves();
  }

  /** And then the claimed deadline closes it, at the very moment it was started. */
  const Read3: seq<Action> := [Begin(3, CloseOp(0)), Advance(3), Advance(3)]

  const Locked3: Sys := Reopened.(db := Reopened.db.(lock := Some(Lease(2, 11_000))), tokens := 3, claimed := {})

  const Ready3: Sys := Put(Locked3, 3, Loaded(CloseOp(0), Ticket(2, 11_000), Second, map[]))

  lemma ReadsToClose()
    ensures Exec(OneSecond, Reopened, Read3) == Ready3 && TimelyRun(OneSecond, Reopened, Read3)
  {
  }

  const Early: seq<Action> := Read1 + Fail1 + Claim2 + Read2 + Write2 + Read3

  lemma EarlyRun()
    ensures Exec(OneSecond, Start0, Early) == Ready3 && TimelyRun(OneSecond, Start0, Early)
  {
    Begins();
    Fails();
    Claims();
    Reads();
    Writes();
    ReadsToClose();
    TimelyAppend(OneSecond, Start0, Read1, Fail1);
    TimelyAppend(OneSecond, Start0, Read1 + Fail1, Claim2);
    TimelyAppend(OneSecond, Start0, Read1 + Fail1 + Claim2, Read2);
    TimelyAppend(OneSecond, Start0, Read1 + Fail1 + Claim2 + Read2, Write2);
    TimelyAppend(OneSecond, Start0, Read1 + Fail1 + Claim2 + Read2 + Write2, Read3);
  }

  /** A timely run with one store error, in which a deadline closes its question before the time is up. */
  lemma FailedStartClosesEarly()
    ensures OneSecond.Valid() && Init(OneSecond, Start0) && TimelyRun(OneSecond, Start0, Early)
    ensures !Clean(OneSecond, Start0, Early, 0)
    ensures
      var s := Exec(OneSecond, Start0, Early);
      && ClosesForDeadline(OneSecond, s, 3, 0)
      && s.db.now < s.db.progress.start + 1000 * OneSecond.timeout
  {
    EarlyRun();
    if Clean(OneSecond, Start0, Early, 0) { DeadlineIsNotEarly(OneSecond, Start0, Early, 3, 0); }
  }
}
