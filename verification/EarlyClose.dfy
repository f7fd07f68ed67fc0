/**
 * Exactly when a deadline can close a question before its time: when it was claimed,
 * or is being acted on, although the question as it was last started is not yet due.
 */
module EarlyClose {
  import opened Domain
  import opened Rules
  import opened Checks
  import opened Redis
  import opened Game
  import opened Protocol
  import opened LockSafety
  import opened Refinement
  import opened Safety
  import opened DeadlineSafety

  ghost predicate Early(env: Env, s: Sys, t: nat, k: int) {
    ClosesForDeadline(env, s, t, k) && s.db.now < Due(env, s.db.progress.start)
  }

  /** Some continuation closes question k early for its deadline. */
  ghost predicate CanBeEarly(env: Env, s: Sys, k: int) {
    exists more, t :: TimelyRun(env, s, more) && Early(env, Exec(env, s, more), t, k)
  }

  // ----- what is registered is never early, whatever fails

  predicate NotBefore(env: Env, db: Db, k: int, start: int) {
    env.timeout > 0 && k in db.deadlines ==> Due(env, start) <= db.deadlines[k]
  }

  /** A start overwrites whatever deadline an earlier one left behind. */
  ghost predicate ScoreInv(env: Env, s: Sys) {
    && (forall t :: t in s.threads && s.threads[t].Scheduled? ==>
          NotBefore(env, s.db, s.threads[t].next.idx, s.threads[t].next.start))
    && (s.db.progress.idx >= 0 ==>
          s.db.progress.start <= s.db.now && NotBefore(env, s.db, s.db.progress.idx, s.db.progress.start))
  }

  lemma ScheduleKeepsScoreInv(env: Env, s: Sys, t: nat)
    requires env.Valid() && SysInv(env, s) && Timely(s) && ScoreInv(env, s) && At(s, t).Stamped?
    ensures ScoreInv(env, Step(env, s, Advance(t)))
  {
    var s' := Step(env, s, Advance(t));
    assert Fresh(env, s.db, s.threads[t]);
    forall u | u in s'.threads && s'.threads[u].Scheduled? ensures u == t {
      if u != t { OneCritical(s, t, u); }
    }
  }

  lemma SaveKeepsScoreInv(env: Env, s: Sys, t: nat)
    requires env.Valid() && SysInv(env, s) && Timely(s) && ScoreInv(env, s) && At(s, t).Scheduled?
    ensures ScoreInv(env, Step(env, s, Advance(t)))
  {
    var s' := Step(env, s, Advance(t));
    assert Fresh(env, s.db, s.threads[t]);
    forall u | u in s'.threads ensures !s'.threads[u].Scheduled? {
      if u != t && s'.threads[u].Scheduled? { OneCritical(s, t, u); }
    }
  }

  lemma StillScheduled(env: Env, s: Sys, a: Action, u: nat)
    requires !(a.Advance? && At(s, a.t).Stamped?)
    requires u in Step(env, s, a).threads && Step(env, s, a).threads[u].Scheduled?
    ensures u in s.threads && s.threads[u] == Step(env, s, a).threads[u]
  {
    if a.Advance? && a.t != u && a.t in s.threads && u in s.threads { OnlyOneMoves(env, s, a.t, u); }
  }

  lemma StepKeepsScoreInv(env: Env, s: Sys, a: Action)
    requires env.Valid() && SysInv(env, s) && Timely(s) && ScoreInv(env, s)
    ensures ScoreInv(env, Step(env, s, a))
  {
    if a.Advance? && At(s, a.t).Stamped? {
      ScheduleKeepsScoreInv(env, s, a.t);
    } else if a.Advance? && At(s, a.t).Scheduled? {
      SaveKeepsScoreInv(env, s, a.t);
    } else {
      var s' := Step(env, s, a);
      ProgressMoves(env, s, a);
      DeadlinesOnlyGo(env, s, a);
      NowGrows(env, s, a);
      forall u | u in s'.threads && s'.threads[u].Scheduled?
        ensures NotBefore(env, s'.db, s'.threads[u].next.idx, s'.threads[u].next.start)
      {
        StillScheduled(env, s, a, u);
      }
    }
  }

  lemma {:induction false} RunKeepsScoreInv(env: Env, s: Sys, run: seq<Action>)
    requires env.Valid() && SysInv(env, s) && TimelyRun(env, s, run) && ScoreInv(env, s)
    ensures SysInv(env, Exec(env, s, run)) && Timely(Exec(env, s, run)) && ScoreInv(env, Exec(env, s, run))
    decreases |run|
  {
    if run != [] {
      StepRefines(env, s, run[0]);
      StepKeepsScoreInv(env, s, run[0]);
      RunKeepsScoreInv(env, Step(env, s, run[0]), run[1..]);
    }
  }

  // ----- unclaimed, never early

  lemma NoOrphan(env: Env, s: Sys, a: Action, k: int)
    requires SysInv(env, s) && k <= s.db.progress.idx
    ensures !Orphans(s, a, k)
  {
    if (a.Fail? || a.Crash?) && a.t in s.threads { assert Fresh(env, s.db, s.threads[a.t]); }
  }

  /** Once question k is the current one no start of it can fail any more. */
  lemma {:induction false} CleanOnceStarted(env: Env, s: Sys, run: seq<Action>, k: int)
    requires env.Valid() && SysInv(env, s) && TimelyRun(env, s, run) && k <= s.db.progress.idx
    ensures Clean(env, s, run, k)
    decreases |run|
  {
    if run != [] {
      NoOrphan(env, s, run[0], k);
      ProgressMoves(env, s, run[0]);
      StepRefines(env, s, run[0]);
      CleanOnceStarted(env, Step(env, s, run[0]), run[1..], k);
    }
  }

  /** A started question whose deadline nobody has claimed or acts on is never closed early, whatever happens from here. */
  lemma UnclaimedIsNeverEarly(env: Env, s: Sys, more: seq<Action>, t: nat, k: int)
    requires env.Valid() && SysInv(env, s) && TimelyRun(env, s, more) && ScoreInv(env, s)
    requires 0 <= k == s.db.progress.idx && k !in s.claimed
    requires forall u :: u in s.threads ==> !ActsOn(s.threads[u], k)
    ensures !Early(env, Exec(env, s, more), t, k)
  {
    var s' := Exec(env, s, more);
    RunKeepsScoreInv(env, s, more);
    if env.timeout > 0 {
      CleanOnceStarted(env, s, more, k);
      RunKeepsDeadlineInv(env, s, more, k);
      if ClosesForDeadline(env, s', t, k) {
        ClosesTheOpenQuestion(env, s', t, k);
        assert Ripe(env, s', k);
      }
    } else if ClosesForDeadline(env, s', t, k) {
      ClosesTheOpenQuestion(env, s', t, k);
    }
  }

  // ----- claimed, possibly early

  /** No thread is numbered Bound(ids) or higher, so there is always an idle one. */
  ghost function Bound(ids: set<nat>): (u: nat)
    ensures forall x :: x in ids ==> x < u
  {
    if ids == {} then 0
    else
      var x :| x in ids;
      var u := Bound(ids - {x});
      assert forall y :: y in ids ==> y == x || y in ids - {x};
      if x < u then u else x + 1
  }

  /** Thread u takes the free lock for the claimed deadline and loads the game. */
  function ActRun(u: nat, k: int): seq<Action> {
    [Begin(u, CloseOp(k)), Advance(u), Advance(u)]
  }

  lemma ActRunLoads(env: Env, s: Sys, u: nat, k: int)
    requires Timely(s) && LockFree(s.db) && At(s, u).Idle? && k in s.claimed
    ensures
      var s' := Exec(env, s, ActRun(u, k));
      && TimelyRun(env, s, ActRun(u, k))
      && s'.db == s.db.(lock := s'.db.lock)
      && At(s', u) == Loaded(CloseOp(k), Ticket(s.tokens, s.db.now + LockTTL), s.db.progress, s.db.players)
  {
    var s1 := Step(env, s, Begin(u, CloseOp(k)));
    var s2 := Step(env, s1, Advance(u));
    var s3 := Step(env, s2, Advance(u));
    assert s1.threads == s.threads[u := At(s1, u)] && Timely(s1);
    assert s2 == Put(s1, u, At(s2, u)) && Timely(s2);
    assert s3 == Put(s2, u, At(s3, u)) && Timely(s3);
    var last, rest := [Advance(u)], [Advance(u), Advance(u)];
    assert Exec(env, s3, []) == s3 && TimelyRun(env, s3, []);
    assert Exec(env, s2, last) == s3 && TimelyRun(env, s2, last) by { assert last[1..] == []; }
    assert Exec(env, s1, rest) == s3 && TimelyRun(env, s1, rest) by { assert rest[1..] == last; }
    assert ActRun(u, k)[1..] == rest;
  }

  lemma EarlyLater(env: Env, s: Sys, run: seq<Action>, k: int)
    requires TimelyRun(env, s, run) && CanBeEarly(env, Exec(env, s, run), k)
    ensures CanBeEarly(env, s, k)
  {
    var more, t :| TimelyRun(env, Exec(env, s, run), more) && Early(env, Exec(env, Exec(env, s, run), more), t, k);
    TimelyAppend(env, s, run, more);
    assert Early(env, Exec(env, s, run + more), t, k);
  }

  /** The question is open and its time not up. */
  predicate OpenAndNotDue(env: Env, db: Db, k: int) {
    db.progress.open && db.progress.idx == k && db.now < Due(env, db.progress.start)
  }

  lemma ClaimedWithFreeLock(env: Env, s: Sys, k: int)
    requires SysInv(env, s) && Timely(s) && LockFree(s.db) && OpenAndNotDue(env, s.db, k) && k in s.claimed
    ensures CanBeEarly(env, s, k)
  {
    var t := Bound(s.threads.Keys);
    ActRunLoads(env, s, t, k);
    assert Abs(s).open && Abs(s).status == Running && Abs(s).idx >= 0;
    assert Early(env, Exec(env, s, ActRun(t, k)), t, k);
  }

  /** A closer that is under way has the lock and needs no time. */
  lemma ActingCanBeEarly(env: Env, s: Sys, u: nat, k: int)
    requires env.Valid() && SysInv(env, s) && Timely(s) && OpenAndNotDue(env, s.db, k)
    requires u in s.threads && ActsOn(s.threads[u], k)
    ensures CanBeEarly(env, s, k)
    decreases if s.threads[u].Holding? then 2 else if s.threads[u].HasProgress? then 1 else 0
  {
    if s.threads[u].Loaded? {
      assert Fresh(env, s.db, s.threads[u]);
      assert Abs(s).open && Abs(s).status == Running;
      assert Exec(env, s, []) == s && TimelyRun(env, s, []);
      assert Early(env, Exec(env, s, []), u, k);
    } else {
      var s' := Step(env, s, Advance(u));
      StepRefines(env, s, Advance(u));
      assert s' == Put(s, u, At(s', u)) && Timely(s');
      ActingCanBeEarly(env, s', u, k);
      var one := [Advance(u)];
      assert one[1..] == [] && Exec(env, s', []) == s' && TimelyRun(env, s', []);
      EarlyLater(env, s, one, k);
    }
  }

  // ----- who has the lock

  /** A thread that will give the lock back. */
  ghost predicate InGoodHands(s: Sys) {
    exists h :: h in s.threads && s.threads[h].HasTicket() && Holds(s.db, s.threads[h].ticket)
  }

  /** The holder can fail, which gives the lock back at once and leaves the game alone. */
  lemma FreedAtOnce(env: Env, s: Sys, h: nat) returns (run: seq<Action>)
    requires Timely(s) && h in s.threads && s.threads[h].HasTicket() && Holds(s.db, s.threads[h].ticket)
    ensures
      var s' := Exec(env, s, run);
      TimelyRun(env, s, run) && LockFree(s'.db) && s'.db == s.db.(lock := s'.db.lock) && s'.claimed == s.claimed
  {
    run := [Advance(h)];
    assert run[1..] == [];
    var released := s;
    if s.threads[h].Critical() {
      released := Step(env, s, Fail(h));
      assert released.threads == s.threads[h := Releasing(s.threads[h].ticket)] && released.db == s.db;
    }
    var free := Step(env, released, Advance(h));
    assert free.threads == released.threads[h := Idle];
    assert free.db == Unlock(released.db, s.threads[h].ticket.token);
    assert Exec(env, free, []) == free && TimelyRun(env, free, []);
    assert Exec(env, released, run) == free && TimelyRun(env, released, run);
    if s.threads[h].Critical() {
      run := [Fail(h), Advance(h)];
      assert run[1..] == [Advance(h)];
    }
  }

  /** A lock that nobody will give back. */
  ghost predicate Abandoned(s: Sys, lease: Lease) {
    && s.db.lock == Some(lease) && s.db.now < lease.expiry
    && forall h :: h in s.threads && s.threads[h].HasTicket() ==> s.threads[h].ticket.token != lease.token
  }

  lemma NobodyCritical(s: Sys, lease: Lease, t: nat)
    requires LockInv(s) && Timely(s) && Abandoned(s, lease)
    ensures !At(s, t).Critical()
  {
  }

  /** Until such a lock expires, the game stays as it is but for answers and deadlines. */
  lemma AbandonedStep(env: Env, s: Sys, a: Action, lease: Lease)
    requires LockInv(s) && Timely(s) && Abandoned(s, lease)
    ensures
      var s' := Step(env, s, a);
      s'.db.expiry == s.db.expiry && (Abandoned(s', lease) || s'.db.now >= lease.expiry)
  {
    if a.Advance? { NobodyCritical(s, lease, a.t); }
    if a.Fail? { NobodyCritical(s, lease, a.t); }
  }

  lemma {:induction false} TimeGrows(env: Env, s: Sys, run: seq<Action>)
    ensures s.db.now <= Exec(env, s, run).db.now
    decreases |run|
  {
    if run != [] {
      NowGrows(env, s, run[0]);
      TimeGrows(env, Step(env, s, run[0]), run[1..]);
    }
  }

  /** Nobody gets anywhere under the lock before it expires, and then only if the game has not. */
  lemma {:induction false} WaitsForExpiry(env: Env, s: Sys, run: seq<Action>, lease: Lease, t: nat)
    requires LockInv(s) && TimelyRun(env, s, run) && Abandoned(s, lease)
    requires At(Exec(env, s, run), t).Critical()
    ensures lease.expiry <= Exec(env, s, run).db.now && lease.expiry < s.db.expiry
    decreases |run|
  {
    if run == [] {
      NobodyCritical(s, lease, t);
    } else {
      var s' := Step(env, s, run[0]);
      AbandonedStep(env, s, run[0], lease);
      StepKeepsLockInv(env, s, run[0]);
      TimeGrows(env, s', run[1..]);
      if Abandoned(s', lease) { WaitsForExpiry(env, s', run[1..], lease, t); }
    }
  }

  lemma {:induction false} SameStart(env: Env, s: Sys, run: seq<Action>)
    requires env.Valid() && SysInv(env, s) && TimelyRun(env, s, run)
    ensures
      var p, p' := s.db.progress, Exec(env, s, run).db.progress;
      p.idx <= p'.idx && (p'.idx == p.idx ==> p'.start == p.start)
    decreases |run|
  {
    if run != [] {
      ProgressMoves(env, s, run[0]);
      StepRefines(env, s, run[0]);
      SameStart(env, Step(env, s, run[0]), run[1..]);
    }
  }

  lemma WaitedOut(env: Env, s: Sys, lease: Lease, k: int)
    requires env.Valid() && SysInv(env, s) && Timely(s) && Abandoned(s, lease) && OpenAndNotDue(env, s.db, k)
    requires lease.expiry < Due(env, s.db.progress.start) && lease.expiry < s.db.expiry && k in s.claimed
    ensures CanBeEarly(env, s, k)
  {
    var wait := [Tick(lease.expiry - s.db.now)];
    var s' := Step(env, s, wait[0]);
    forall t | t in s'.threads ensures !s'.threads[t].Critical() { NobodyCritical(s, lease, t); }
    assert wait[1..] == [] && Exec(env, s', []) == s' && TimelyRun(env, s', []);
    StepRefines(env, s, wait[0]);
    ClaimedWithFreeLock(env, s', k);
    EarlyLater(env, s, wait, k);
  }

  /** When the lock can be had: at once, or when an abandoned one expires. */
  ghost function Available(s: Sys): int {
    if LockFree(s.db) || InGoodHands(s) then s.db.now else s.db.lock.value.expiry
  }

  lemma EarlyNeedsTheLock(env: Env, s: Sys, k: int)
    requires env.Valid() && SysInv(env, s) && Timely(s) && OpenAndNotDue(env, s.db, k) && CanBeEarly(env, s, k)
    ensures Available(s) < Due(env, s.db.progress.start) && Available(s) < s.db.expiry
  {
    if !(LockFree(s.db) || InGoodHands(s)) {
      var lease := s.db.lock.value;
      var more, t :| TimelyRun(env, s, more) && Early(env, Exec(env, s, more), t, k);
      assert Abandoned(s, lease);
      WaitsForExpiry(env, s, more, lease, t);
      ClosesTheOpenQuestion(env, Exec(env, s, more), t, k);
      SameStart(env, s, more);
    }
  }

  lemma ClaimedCanBeEarly(env: Env, s: Sys, k: int)
    requires env.Valid() && SysInv(env, s) && Timely(s) && OpenAndNotDue(env, s.db, k) && k in s.claimed
    requires Available(s) < Due(env, s.db.progress.start) && Available(s) < s.db.expiry
    ensures CanBeEarly(env, s, k)
  {
    if LockFree(s.db) {
      ClaimedWithFreeLock(env, s, k);
    } else if InGoodHands(s) {
      var h :| h in s.threads && s.threads[h].HasTicket() && Holds(s.db, s.threads[h].ticket);
      var run := FreedAtOnce(env, s, h);
      RunRefines(env, s, run);
      ClaimedWithFreeLock(env, Exec(env, s, run), k);
      EarlyLater(env, s, run, k);
    } else {
      WaitedOut(env, s, s.db.lock.value, k);
    }
  }

  // ----- the theorem

  /** The deadline of question k is claimed, or a thread is acting on it. */
  ghost predicate UnderWay(s: Sys, k: int) {
    k in s.claimed || exists u :: u in s.threads && ActsOn(s.threads[u], k)
  }

  /**
   * In any timely run, errors and crashes included, let question k be open and its
   * time not up. Then some continuation closes it early for its deadline if and only
   * if that deadline is already claimed or acted on, and the lock can be had before
   * the time is up and before the game expires.
   */
  lemma EarlyExactlyIfUnderWay(env: Env, s: Sys, run: seq<Action>, k: int)
    requires env.Valid() && Init(env, s) && TimelyRun(env, s, run)
    requires OpenAndNotDue(env, Exec(env, s, run).db, k)
    ensures
      var s' := Exec(env, s, run);
      CanBeEarly(env, s', k) <==>
      UnderWay(s', k) && Available(s') < Due(env, s'.db.progress.start) && Available(s') < s'.db.expiry
  {
    InitIsNewGame(env, s);
    RunKeepsScoreInv(env, s, run);
    var s' := Exec(env, s, run);
    assert Abs(s').idx >= 0;
    if CanBeEarly(env, s', k) {
      EarlyNeedsTheLock(env, s', k);
      if !UnderWay(s', k) {
        var more, t :| TimelyRun(env, s', more) && Early(env, Exec(env, s', more), t, k);
        UnclaimedIsNeverEarly(env, s', more, t, k);
      }
    } else if exists u :: u in s'.threads && ActsOn(s'.threads[u], k) {
      var u :| u in s'.threads && ActsOn(s'.threads[u], k);
      ActingCanBeEarly(env, s', u, k);
    } else if k in s'.claimed && Available(s') < Due(env, s'.db.progress.start) && Available(s') < s'.db.expiry {
      ClaimedCanBeEarly(env, s', k);
    }
  }

  /** With the lock free nothing else matters: early if and only if claimed. */
  lemma EarlyExactlyIfClaimed(env: Env, s: Sys, run: seq<Action>, k: int)
    requires env.Valid() && Init(env, s) && TimelyRun(env, s, run)
    requires OpenAndNotDue(env, Exec(env, s, run).db, k) && LockFree(Exec(env, s, run).db)
    ensures CanBeEarly(env, Exec(env, s, run), k) <==> k in Exec(env, s, run).claimed
  {
    InitIsNewGame(env, s);
    RunRefines(env, s, run);
    EarlyExactlyIfUnderWay(env, s, run, k);
  }
}
