/** Closes triggered by an answer deadline: the right question, and never too early. */
module DeadlineSafety {
  import opened Domain
  import opened Rules
  import opened Checks
  import opened Redis
  import opened Game
  import opened Protocol
  import opened LockSafety
  import opened Refinement
  import opened Safety

  function Due(env: Env, start: int): int { start + Seconds(env.timeout) }

  /** Some thread has registered the deadline of the next question, started at `start`, and not saved it yet. */
  ghost predicate Announced(s: Sys, start: int) {
    exists t :: t in s.threads && s.threads[t].Scheduled? && s.threads[t].next.start == start
  }

  /** A start of question k fails or dies after registering its deadline and before saving: the deadline stays behind. */
  ghost predicate Orphans(s: Sys, a: Action, k: int) {
    (a.Fail? || a.Crash?) && At(s, a.t).Scheduled? && At(s, a.t).next.idx == k
  }

  ghost predicate Clean(env: Env, s: Sys, run: seq<Action>, k: int)
    decreases |run|
  {
    run == [] || (!Orphans(s, run[0], k) && Clean(env, Step(env, s, run[0]), run[1..], k))
  }

  /** If question k is the current one, or about to be, its time is up. */
  ghost predicate Ripe(env: Env, s: Sys, k: int) {
    || k < s.db.progress.idx
    || (k == s.db.progress.idx && Due(env, s.db.progress.start) <= s.db.now)
    || (k == s.db.progress.idx + 1 && exists start :: Announced(s, start) && Due(env, start) <= s.db.now)
  }

  /** A registered deadline is no earlier than its question's start plus the timeout. */
  ghost predicate Registered(env: Env, s: Sys, k: int)
    requires k in s.db.deadlines
  {
    || k < s.db.progress.idx
    || (k == s.db.progress.idx && Due(env, s.db.progress.start) <= s.db.deadlines[k])
    || (k == s.db.progress.idx + 1 && exists start :: Announced(s, start) && Due(env, start) <= s.db.deadlines[k])
  }

  /** The deadline a thread is acting on, if any. */
  predicate ActsOn(th: Thread, k: int) {
    (th.Holding? || th.HasProgress? || th.Loaded?) && th.op == CloseOp(k) && k >= 0
  }

  ghost predicate DeadlineInv(env: Env, s: Sys, k: int) {
    && (k in s.db.deadlines ==> Registered(env, s, k))
    && (k in s.claimed ==> Ripe(env, s, k))
    && (forall t :: t in s.threads && ActsOn(s.threads[t], k) ==> Ripe(env, s, k))
  }

  /** Only saving a start moves the game to another question. */
  lemma ProgressMoves(env: Env, s: Sys, a: Action)
    requires env.Valid() && SysInv(env, s) && Timely(s)
    ensures
      var p, p' := s.db.progress, Step(env, s, a).db.progress;
      if a.Advance? && At(s, a.t).Scheduled?
      then p'.idx == p.idx + 1 && p'.start == At(s, a.t).next.start
      else p'.idx == p.idx && p'.start == p.start
  {
    if a.Advance? && a.t in s.threads { assert Fresh(env, s.db, s.threads[a.t]); }
  }

  lemma AnnouncedKept(env: Env, s: Sys, a: Action, start: int)
    requires env.Valid() && SysInv(env, s) && Timely(s)
    requires !Orphans(s, a, s.db.progress.idx + 1) && Announced(s, start)
    ensures
      var s' := Step(env, s, a);
      || Announced(s', start)
      || (s'.db.progress.idx == s.db.progress.idx + 1 && s'.db.progress.start == start)
  {
    var t :| t in s.threads && s.threads[t].Scheduled? && s.threads[t].next.start == start;
    var s' := Step(env, s, a);
    if a == Advance(t) {
      ProgressMoves(env, s, a);
    } else {
      OthersStay(env, s, a, t);
      assert s'.threads[t].Scheduled?;
    }
  }

  /** Only its own advance moves a thread that has announced a start. */
  lemma OthersStay(env: Env, s: Sys, a: Action, t: nat)
    requires t in s.threads && s.threads[t].Scheduled? && a != Advance(t) && !Orphans(s, a, s.threads[t].next.idx)
    ensures var s' := Step(env, s, a); t in s'.threads && s'.threads[t] == s.threads[t]
  {
    if a.Advance? { OnlyOneMoves(env, s, a.t, t); }
  }

  lemma OnlyOneMoves(env: Env, s: Sys, t: nat, u: nat)
    requires t != u && u in s.threads
    ensures var s' := Step(env, s, Advance(t)); u in s'.threads && s'.threads[u] == s.threads[u]
  {
  }

  lemma RipeKept(env: Env, s: Sys, a: Action, k: int)
    requires env.Valid() && SysInv(env, s) && Timely(s)
    requires !Orphans(s, a, k) && Ripe(env, s, k)
    ensures Ripe(env, Step(env, s, a), k)
  {
    ProgressMoves(env, s, a);
    NowGrows(env, s, a);
    if k == s.db.progress.idx + 1 {
      var start :| Announced(s, start) && Due(env, start) <= s.db.now;
      AnnouncedKept(env, s, a, start);
    }
  }

  lemma NowGrows(env: Env, s: Sys, a: Action)
    ensures s.db.now <= Step(env, s, a).db.now
  {
  }

  lemma RegisteredKept(env: Env, s: Sys, a: Action, k: int)
    requires env.Valid() && SysInv(env, s) && Timely(s) && !Orphans(s, a, k)
    requires k in s.db.deadlines && Registered(env, s, k)
    requires var s' := Step(env, s, a); k in s'.db.deadlines && s'.db.deadlines[k] == s.db.deadlines[k]
    ensures Registered(env, Step(env, s, a), k)
  {
    ProgressMoves(env, s, a);
    if k == s.db.progress.idx + 1 {
      var start :| Announced(s, start) && Due(env, start) <= s.db.deadlines[k];
      AnnouncedKept(env, s, a, start);
    }
  }

  lemma DeadlinesOnlyGo(env: Env, s: Sys, a: Action)
    requires !(a.Advance? && At(s, a.t).Stamped?)
    ensures
      var before, after := s.db.deadlines, Step(env, s, a).db.deadlines;
      forall k :: k in after ==> k in before && after[k] == before[k]
  {
  }

  /** Deadlines are registered by starts only, and for the next question. */
  lemma NewDeadline(env: Env, s: Sys, a: Action, k: int)
    requires SysInv(env, s)
    ensures
      var s' := Step(env, s, a);
      k in s'.db.deadlines ==>
        || (k in s.db.deadlines && s'.db.deadlines[k] == s.db.deadlines[k])
        || (k == s'.db.progress.idx + 1 && Announced(s', s'.db.deadlines[k] - Seconds(env.timeout)))
  {
    if a.Advance? && At(s, a.t).Stamped? {
      assert Fresh(env, s.db, s.threads[a.t]);
      assert Step(env, s, a).threads[a.t].Scheduled?;
    } else {
      DeadlinesOnlyGo(env, s, a);
    }
  }

  lemma StepKeepsDeadlineInv(env: Env, s: Sys, a: Action, k: int)
    requires env.Valid() && SysInv(env, s) && Timely(s) && DeadlineInv(env, s, k)
    requires !Orphans(s, a, k)
    ensures DeadlineInv(env, Step(env, s, a), k)
  {
    var s' := Step(env, s, a);
    if k in s'.db.deadlines {
      NewDeadline(env, s, a, k);
      if k in s.db.deadlines && s'.db.deadlines[k] == s.db.deadlines[k] { RegisteredKept(env, s, a, k); }
    }
    if k in s'.claimed {
      ClaimedIsRipe(env, s, a, k);
      RipeKept(env, s, a, k);
    }
    forall t | t in s'.threads && ActsOn(s'.threads[t], k) ensures Ripe(env, s', k) {
      ActorIsRipe(env, s, a, t, k);
      RipeKept(env, s, a, k);
    }
  }

  lemma ClaimedIsRipe(env: Env, s: Sys, a: Action, k: int)
    requires DeadlineInv(env, s, k) && k in Step(env, s, a).claimed
    ensures Ripe(env, s, k)
  {
    if k !in s.claimed {
      assert a.Claim? && k in a.due;
      assert Registered(env, s, k);
    }
  }

  lemma ActorIsRipe(env: Env, s: Sys, a: Action, t: nat, k: int)
    requires DeadlineInv(env, s, k) && t in Step(env, s, a).threads && ActsOn(Step(env, s, a).threads[t], k)
    ensures Ripe(env, s, k)
  {
    if a.Begin? && a.t == t && At(s, t).Idle? {
      assert k in s.claimed;
    } else {
      ActorActed(env, s, a, t, k);
    }
  }

  lemma ActorActed(env: Env, s: Sys, a: Action, t: nat, k: int)
    requires t in Step(env, s, a).threads && ActsOn(Step(env, s, a).threads[t], k)
    requires !(a.Begin? && a.t == t && At(s, t).Idle?)
    ensures t in s.threads && ActsOn(s.threads[t], k)
  {
    if a.Advance? {
      if a.t != t && a.t in s.threads && t in s.threads { OnlyOneMoves(env, s, a.t, t); }
    }
  }

  lemma {:induction false} RunKeepsDeadlineInv(env: Env, s: Sys, run: seq<Action>, k: int)
    requires env.Valid() && SysInv(env, s) && TimelyRun(env, s, run) && DeadlineInv(env, s, k)
    requires Clean(env, s, run, k)
    ensures SysInv(env, Exec(env, s, run)) && Timely(Exec(env, s, run)) && DeadlineInv(env, Exec(env, s, run), k)
    decreases |run|
  {
    if run != [] {
      var s' := Step(env, s, run[0]);
      StepRefines(env, s, run[0]);
      StepKeepsDeadlineInv(env, s, run[0], k);
      RunKeepsDeadlineInv(env, s', run[1..], k);
    }
  }

  /** Thread t is about to take the answers of question k for its deadline. */
  ghost predicate ClosesForDeadline(env: Env, s: Sys, t: nat, k: int) {
    ActsOn(At(s, t), k) && At(s, t).Loaded? && At(Step(env, s, Advance(t)), t).Closing?
  }

  lemma ClosesTheOpenQuestion(env: Env, s: Sys, t: nat, k: int)
    requires ClosesForDeadline(env, s, t, k)
    ensures s.db.progress.idx == k && s.db.progress.open
  {
  }

  /**
   * Unless some start of question k failed or died between registering its deadline
   * and saving, a deadline never closes question k before its start plus the timeout,
   * in milliseconds. Whatever else fails or dies does no harm.
   */
  lemma DeadlineIsNotEarly(env: Env, s: Sys, run: seq<Action>, t: nat, k: int)
    requires env.Valid() && Init(env, s) && TimelyRun(env, s, run) && Clean(env, s, run, k)
    ensures
      var s' := Exec(env, s, run);
      ClosesForDeadline(env, s', t, k) ==> s'.db.now >= s'.db.progress.start + 1000 * env.timeout
  {
    InitIsNewGame(env, s);
    RunKeepsDeadlineInv(env, s, run, k);
    var s' := Exec(env, s, run);
    if ClosesForDeadline(env, s', t, k) {
      ClosesTheOpenQuestion(env, s', t, k);
      assert Ripe(env, s', k);
    }
  }

  // ----- a deadline closes its own question

  predicate OwnQuestion(th: Thread) {
    th.Closing? && th.only >= 0 ==> th.progress.idx == th.only
  }

  /** The close a thread has begun, as far as it is still at it. */
  function Began(th: Thread): Option<int> {
    if (th.Holding? || th.HasProgress? || th.Loaded?) && th.op.CloseOp? then Some(th.op.only)
    else if th.Closing? then Some(th.only)
    else None
  }

  /** The last close thread t has begun in a run, starting from `last`. */
  ghost function LastBegun(env: Env, s: Sys, run: seq<Action>, t: nat, last: Option<int>): Option<int>
    decreases |run|
  {
    if run == [] then last
    else
      var s' := Step(env, s, run[0]);
      LastBegun(env, s', run[1..], t,
                if run[0].Begin? && run[0].t == t && run[0].op.CloseOp? && s' != s then Some(run[0].op.only) else last)
  }

  ghost predicate Remembers(s: Sys, t: nat, last: Option<int>) {
    OwnQuestion(At(s, t)) && (Began(At(s, t)).Some? ==> Began(At(s, t)) == last)
  }

  lemma StepRemembers(env: Env, s: Sys, a: Action, t: nat, last: Option<int>)
    requires Remembers(s, t, last)
    ensures
      var s' := Step(env, s, a);
      Remembers(s', t, if a.Begin? && a.t == t && a.op.CloseOp? && s' != s then Some(a.op.only) else last)
  {
    if a.Advance? && a.t != t && t in s.threads { OnlyOneMoves(env, s, a.t, t); }
  }

  lemma {:induction false} RunRemembers(env: Env, s: Sys, run: seq<Action>, t: nat, last: Option<int>)
    requires Remembers(s, t, last)
    ensures Remembers(Exec(env, s, run), t, LastBegun(env, s, run, t, last))
    decreases |run|
  {
    if run != [] {
      var s', a := Step(env, s, run[0]), run[0];
      StepRemembers(env, s, a, t, last);
      RunRemembers(env, s', run[1..], t,
                   if a.Begin? && a.t == t && a.op.CloseOp? && s' != s then Some(a.op.only) else last);
    }
  }

  lemma OnlyClosersAppend(env: Env, s: Sys, a: Action)
    requires Step(env, s, a).rounds != s.rounds
    ensures (a.Advance? || a.Fail? || a.Crash?) && At(s, a.t).Closing?
    ensures exists losers, scored :: Step(env, s, a).rounds == s.rounds + [Round(At(s, a.t).progress.idx, losers, scored)]
  {
  }

  /**
   * In any run whatever, the round that a step saves or loses is one of the acting
   * thread's last close: if that was for the deadline of question k, of question k.
   */
  lemma DeadlineClosesItsQuestion(env: Env, s: Sys, run: seq<Action>, a: Action)
    requires Init(env, s)
    ensures
      var before, after := Exec(env, s, run), Step(env, Exec(env, s, run), a);
      after.rounds != before.rounds ==>
        && (a.Advance? || a.Fail? || a.Crash?)
        && |after.rounds| == |before.rounds| + 1 && before.rounds <= after.rounds
        && LastBegun(env, s, run, a.t, None).Some?
        && (LastBegun(env, s, run, a.t, None).value >= 0 ==>
              after.rounds[|before.rounds|].idx == LastBegun(env, s, run, a.t, None).value)
  {
    var before := Exec(env, s, run);
    if Step(env, before, a).rounds != before.rounds {
      OnlyClosersAppend(env, before, a);
      RunRemembers(env, s, run, a.t, None);
    }
  }
}
