/** Every step of the protocol keeps its invariant and is one move of the sequential game. */
module Refinement {
  import opened Domain
  import opened Rules
  import opened Checks
  import opened Redis
  import opened Game
  import opened Protocol
  import opened LockSafety

  /** The move a step amounts to. */
  ghost function MoveOf(env: Env, s: Sys, a: Action): Move {
    match a
    case Advance(t) => (
      match At(s, t)
      case Loaded(JoinOp(id, name, actor), _, p, players) =>
        if JoinError(p, players, id).None? then Join(id, name, actor) else Stutter
      case Scheduled(_, _) => Start
      case Closing(_, _, _, _, _) => Close
      case Submitting(sub, p, _) =>
        if RecordAnswer(env, s.db, p.idx, sub.player, sub.option).0.None? then Answer(sub.player, sub.option) else Stutter
      case _ => Stutter
    )
    case Fail(t) => if At(s, t).Closing? then Void else Stutter
    case Crash(t) => if At(s, t).Closing? then Void else Stutter
    case _ => Stutter
  }

  ghost predicate Simulates(env: Env, s: Sys, s': Sys, m: Move) {
    CanMove(env, Abs(s), m) && Abs(s') == Moved(env, Abs(s), m)
  }

  // ----- frames

  /** Changes that no waiting submission can notice. */
  ghost predicate Quiet(db: Db, db': Db) {
    && db.progress.idx <= db'.progress.idx
    && db.now <= db'.now
    && (db'.progress.open && db'.progress.idx == db.progress.idx ==> db.progress.open && db'.players == db.players)
  }

  /** Changes that nobody can notice, not even the lock holder. */
  ghost predicate SameGame(db: Db, db': Db) {
    && db.progress == db'.progress && db.players == db'.players
    && db.now <= db'.now
    && (db.progress.open || Entries(db', db.progress.idx) == Entries(db, db.progress.idx))
  }

  lemma FreshAfterQuiet(env: Env, db: Db, db': Db, th: Thread)
    requires Quiet(db, db') && !th.Critical() && Fresh(env, db, th)
    ensures Fresh(env, db', th)
  {
  }

  lemma FreshAfterSameGame(env: Env, db: Db, db': Db, th: Thread)
    requires SameGame(db, db') && Fresh(env, db, th)
    ensures Fresh(env, db', th)
  {
  }

  lemma OthersFresh(env: Env, s: Sys, s': Sys, t: nat, th: Thread)
    requires LockInv(s) && Timely(s) && AllFresh(env, s) && Moves(s, s', t, th)
    requires (At(s, t).Critical() && Quiet(s.db, s'.db)) || SameGame(s.db, s'.db)
    requires Fresh(env, s'.db, th)
    ensures AllFresh(env, s')
  {
    forall u | u in s'.threads ensures Fresh(env, s'.db, s'.threads[u]) {
      if u != t {
        if SameGame(s.db, s'.db) {
          FreshAfterSameGame(env, s.db, s'.db, s.threads[u]);
        } else {
          if s.threads[u].Critical() { OneCritical(s, t, u); }
          FreshAfterQuiet(env, s.db, s'.db, s.threads[u]);
        }
      }
    }
  }

  lemma PendingAfter(s: Sys, s': Sys, t: nat, th: Thread)
    requires LockInv(s) && Timely(s) && Moves(s, s', t, th)
    ensures th.Closing? ==> Pending(s'.threads)
    ensures At(s, t).Critical() ==> (Pending(s'.threads) <==> th.Closing?)
    ensures At(s, t).Closing? == th.Closing? ==> (Pending(s'.threads) <==> Pending(s.threads))
    ensures At(s, t).Critical() ==> (Pending(s.threads) <==> At(s, t).Closing?)
  {
    if th.Closing? { assert s'.threads[t].Closing?; }
    forall u | u in s.threads && u != t && s.threads[u].Closing? ensures s'.threads[u].Closing? && !At(s, t).Critical() {
      if At(s, t).Critical() { OneCritical(s, t, u); }
    }
    forall u | u in s'.threads && u != t && s'.threads[u].Closing? ensures s.threads[u].Closing? && !At(s, t).Critical() {
      if At(s, t).Critical() { OneCritical(s, t, u); }
    }
  }

  // ----- steps that leave the store alone

  lemma LocalStep(env: Env, s: Sys, s': Sys, t: nat, th: Thread)
    requires env.Valid() && SysInv(env, s) && Timely(s) && Moves(s, s', t, th)
    requires s'.db == s.db && s'.rounds == s.rounds
    requires Fresh(env, s.db, th) && At(s, t).Closing? == th.Closing?
    ensures StateInv(env, s') && Simulates(env, s, s', Stutter)
  {
    OthersFresh(env, s, s', t, th);
    PendingAfter(s, s', t, th);
    assert Abs(s') == Abs(s);
  }

  /** The pending close is given up: its round is void. */
  lemma LostStep(env: Env, s: Sys, s': Sys, t: nat, th: Thread)
    requires env.Valid() && SysInv(env, s) && Timely(s) && Moves(s, s', t, th)
    requires At(s, t).Closing? && !th.Critical() && Fresh(env, s.db, th)
    requires s'.db == s.db && s'.rounds == s.rounds + [Round(At(s, t).progress.idx, {}, false)]
    ensures StateInv(env, s') && Simulates(env, s, s', Void)
  {
    OthersFresh(env, s, s', t, th);
    PendingAfter(s, s', t, th);
    assert Fresh(env, s.db, s.threads[t]);
    assert Abs(s') == Moved(env, Abs(s), Void);
    MoveKeepsInv(env, Abs(s), Void);
  }

  // ----- steps that change only the lock, the deadlines or the clock

  lemma BeginStep(env: Env, s: Sys, t: nat, op: Op)
    requires env.Valid() && SysInv(env, s) && Timely(s)
    ensures
      var s' := Step(env, s, Begin(t, op));
      StateInv(env, s') && Simulates(env, s, s', Stutter)
  {
    var s' := Step(env, s, Begin(t, op));
    if s' != s {
      var th := At(s', t);
      assert Moves(s, s', t, th);
      OthersFresh(env, s, s', t, th);
      PendingAfter(s, s', t, th);
      assert Abs(s') == Abs(s);
    }
  }

  lemma ReleaseStep(env: Env, s: Sys, t: nat)
    requires env.Valid() && SysInv(env, s) && Timely(s) && At(s, t).Releasing?
    ensures
      var s' := Step(env, s, Advance(t));
      StateInv(env, s') && Simulates(env, s, s', Stutter)
  {
    var s' := Step(env, s, Advance(t));
    assert Moves(s, s', t, Idle);
    OthersFresh(env, s, s', t, Idle);
    PendingAfter(s, s', t, Idle);
    assert Abs(s') == Abs(s);
  }

  lemma DeadlineStep(env: Env, s: Sys, s': Sys, t: nat, th: Thread, deadlines: map<int, int>)
    requires env.Valid() && SysInv(env, s) && Timely(s) && Moves(s, s', t, th)
    requires s'.db == s.db.(deadlines := deadlines) && s'.rounds == s.rounds
    requires Fresh(env, s.db, th) && !At(s, t).Closing? && !th.Closing?
    ensures StateInv(env, s') && Simulates(env, s, s', Stutter)
  {
    FreshAfterSameGame(env, s.db, s'.db, th);
    OthersFresh(env, s, s', t, th);
    PendingAfter(s, s', t, th);
    assert Abs(s') == Abs(s);
  }

  lemma ClockStep(env: Env, s: Sys, s': Sys)
    requires env.Valid() && SysInv(env, s) && Timely(s)
    requires s'.threads == s.threads && s'.rounds == s.rounds && s'.tokens == s.tokens
    requires exists deadlines, now :: s'.db == s.db.(deadlines := deadlines, now := now) && now >= s.db.now
    ensures StateInv(env, s') && Simulates(env, s, s', Stutter)
  {
    forall u | u in s'.threads ensures Fresh(env, s'.db, s'.threads[u]) {
      FreshAfterSameGame(env, s.db, s'.db, s.threads[u]);
    }
    assert Abs(s') == Abs(s);
  }

  // ----- steps that are moves of the game

  lemma JoinStep(env: Env, s: Sys, t: nat)
    requires env.Valid() && SysInv(env, s) && Timely(s)
    requires At(s, t).Loaded? && At(s, t).op.JoinOp?
    requires JoinError(At(s, t).progress, At(s, t).players, At(s, t).op.id).None?
    ensures
      var s' := Step(env, s, Advance(t));
      StateInv(env, s') && Simulates(env, s, s', MoveOf(env, s, Advance(t)))
  {
    var Loaded(JoinOp(id, name, actor), k, p, players) := At(s, t);
    var s', m := Step(env, s, Advance(t)), Join(id, name, actor);
    assert Fresh(env, s.db, s.threads[t]);
    OthersFresh(env, s, s', t, Releasing(k));
    PendingAfter(s, s', t, Releasing(k));
    assert Abs(s') == Moved(env, Abs(s), m);
    MoveKeepsInv(env, Abs(s), m);
  }

  lemma StartStep(env: Env, s: Sys, t: nat)
    requires env.Valid() && SysInv(env, s) && Timely(s) && At(s, t).Scheduled?
    ensures
      var s' := Step(env, s, Advance(t));
      StateInv(env, s') && Simulates(env, s, s', Start)
  {
    var Scheduled(k, next) := At(s, t);
    var s' := Step(env, s, Advance(t));
    assert Fresh(env, s.db, s.threads[t]);
    OthersFresh(env, s, s', t, Releasing(k));
    PendingAfter(s, s', t, Releasing(k));
    assert next.idx !in Abs(s).answers;
    assert Abs(s') == Moved(env, Abs(s), Start);
    MoveKeepsInv(env, Abs(s), Start);
  }

  lemma RecordedAbs(env: Env, s: Sys, t: nat)
    requires env.Valid() && SysInv(env, s) && Timely(s) && At(s, t).Submitting?
    requires MoveOf(env, s, Advance(t)).Answer?
    ensures Simulates(env, s, Step(env, s, Advance(t)), MoveOf(env, s, Advance(t)))
  {
    var Submitting(sub, p, players) := At(s, t);
    var s' := Step(env, s, Advance(t));
    assert Fresh(env, s.db, s.threads[t]);
    assert Stored(s.db, p.idx) == Entries(s.db, p.idx) == AnswersTo(Abs(s), p.idx);
    PendingAfter(s, s', t, Idle);
    assert Abs(s') == Moved(env, Abs(s), Answer(sub.player, sub.option));
  }

  /** An accepted answer: everything checked earlier on a snapshot is true now. */
  lemma RecordStep(env: Env, s: Sys, t: nat)
    requires env.Valid() && SysInv(env, s) && Timely(s) && At(s, t).Submitting?
    ensures
      var s' := Step(env, s, Advance(t));
      StateInv(env, s') && Simulates(env, s, s', MoveOf(env, s, Advance(t)))
  {
    var s' := Step(env, s, Advance(t));
    if MoveOf(env, s, Advance(t)).Answer? {
      RecordedAbs(env, s, t);
      OthersFresh(env, s, s', t, Idle);
      MoveKeepsInv(env, Abs(s), MoveOf(env, s, Advance(t)));
    } else {
      LocalStep(env, s, s', t, Idle);
    }
  }

  /** Taking the answers: nothing recorded is missed, although the answers key has its own expiry. */
  lemma TakeStep(env: Env, s: Sys, t: nat)
    requires env.Valid() && SysInv(env, s) && Timely(s)
    requires At(s, t).Loaded? && At(s, t).op.CloseOp?
    requires CloseError(At(s, t).progress, At(s, t).op.only).None?
    ensures
      var s' := Step(env, s, Advance(t));
      && StateInv(env, s') && Simulates(env, s, s', Stutter)
      && At(s', t).Closing? && At(s', t).taken == Entries(s.db, s.db.progress.idx)
  {
    var s' := Step(env, s, Advance(t));
    var th := At(s', t);
    assert Fresh(env, s.db, s.threads[t]);
    assert Stored(s.db, s.db.progress.idx) == Entries(s.db, s.db.progress.idx);
    OthersFresh(env, s, s', t, th);
    PendingAfter(s, s', t, th);
    assert Abs(s') == Abs(s);
  }

  /** Writing back only the players who lost a life leaves all of them as the rules say. */
  lemma ChangedIsEnough(env: Env, p: Progress, players: Players, taken: Answers)
    requires 0 <= p.idx < env.Total()
    ensures players + Changed(env, p, players, taken) == Penalized(players, taken, env.Correct(p.idx))
  {
  }

  lemma SavedAbs(env: Env, s: Sys, t: nat)
    requires env.Valid() && SysInv(env, s) && Timely(s) && At(s, t).Closing?
    ensures Simulates(env, s, Step(env, s, Advance(t)), Close)
  {
    var Closing(_, k, p, players, taken) := At(s, t);
    var s' := Step(env, s, Advance(t));
    assert Fresh(env, s.db, s.threads[t]);
    ChangedIsEnough(env, p, players, taken);
    PendingAfter(s, s', t, Saved(k, p.idx));
    assert AnswersTo(Abs(s), p.idx) == taken;
    assert Abs(s').answers == Abs(s).answers;
    assert Abs(s') == Moved(env, Abs(s), Close);
  }

  lemma SaveCloseStep(env: Env, s: Sys, t: nat)
    requires env.Valid() && SysInv(env, s) && Timely(s) && At(s, t).Closing?
    ensures
      var s' := Step(env, s, Advance(t));
      StateInv(env, s') && Simulates(env, s, s', Close)
  {
    var Closing(_, k, p, _, _) := At(s, t);
    var s' := Step(env, s, Advance(t));
    assert Fresh(env, s.db, s.threads[t]);
    SavedAbs(env, s, t);
    OthersFresh(env, s, s', t, Saved(k, p.idx));
    MoveKeepsInv(env, Abs(s), Close);
  }

  // ----- every step

  lemma LoadedStep(env: Env, s: Sys, t: nat)
    requires env.Valid() && SysInv(env, s) && Timely(s) && At(s, t).Loaded?
    ensures
      var s' := Step(env, s, Advance(t));
      StateInv(env, s') && Simulates(env, s, s', MoveOf(env, s, Advance(t)))
  {
    var s', th := Step(env, s, Advance(t)), At(s, t);
    assert Fresh(env, s.db, th);
    match th.op {
      case JoinOp(id, _, _) =>
        if JoinError(th.progress, th.players, id).None? { JoinStep(env, s, t); } else { LocalStep(env, s, s', t, At(s', t)); }
      case StartOp => LocalStep(env, s, s', t, At(s', t));
      case CloseOp(only) =>
        if CloseError(th.progress, only).None? { TakeStep(env, s, t); } else { LocalStep(env, s, s', t, At(s', t)); }
    }
  }

  /** Reads and checks, which do not touch the store. */
  lemma ReadStep(env: Env, s: Sys, t: nat)
    requires env.Valid() && SysInv(env, s) && Timely(s)
    requires var th := At(s, t); th.Holding? || th.HasProgress? || th.Asking? || th.AskedProgress? || th.AskedPlayers?
    ensures
      var s' := Step(env, s, Advance(t));
      StateInv(env, s') && Simulates(env, s, s', Stutter)
  {
    var s' := Step(env, s, Advance(t));
    assert Fresh(env, s.db, At(s, t));
    LocalStep(env, s, s', t, At(s', t));
  }

  lemma AdvanceStep(env: Env, s: Sys, t: nat)
    requires env.Valid() && SysInv(env, s) && Timely(s)
    ensures
      var s' := Step(env, s, Advance(t));
      StateInv(env, s') && Simulates(env, s, s', MoveOf(env, s, Advance(t)))
  {
    var s', th := Step(env, s, Advance(t)), At(s, t);
    if th.Idle? || th.Dead? {
      assert s' == s;
    } else if th.Loaded? {
      LoadedStep(env, s, t);
    } else if th.Stamped? || th.Saved? {
      assert Fresh(env, s.db, th);
      DeadlineStep(env, s, s', t, At(s', t), s'.db.deadlines);
    } else if th.Scheduled? {
      StartStep(env, s, t);
    } else if th.Closing? {
      SaveCloseStep(env, s, t);
    } else if th.Releasing? {
      ReleaseStep(env, s, t);
    } else if th.Submitting? {
      RecordStep(env, s, t);
    } else {
      ReadStep(env, s, t);
    }
  }

  /**
   * One step of any thread, one fault, one claim or one tick: the invariant is kept,
   * and the abstract game makes exactly the move MoveOf says, legally.
   */
  lemma StepRefines(env: Env, s: Sys, a: Action)
    requires env.Valid() && SysInv(env, s) && Timely(s)
    ensures SysInv(env, Step(env, s, a))
    ensures Simulates(env, s, Step(env, s, a), MoveOf(env, s, a))
  {
    var s' := Step(env, s, a);
    StepKeepsLockInv(env, s, a);
    match a {
      case Begin(t, op) => BeginStep(env, s, t, op);
      case Submit(t, sub) => if s' != s { LocalStep(env, s, s', t, Asking(sub)); }
      case Advance(t) => AdvanceStep(env, s, t);
      case Fail(t) => FaultStep(env, s, a);
      case Crash(t) => FaultStep(env, s, a);
      case Claim(_, _) => ClockStep(env, s, s');
      case Tick(_) => ClockStep(env, s, s');
    }
  }

  lemma FaultStep(env: Env, s: Sys, a: Action)
    requires env.Valid() && SysInv(env, s) && Timely(s) && (a.Fail? || a.Crash?)
    ensures StateInv(env, Step(env, s, a))
    ensures Simulates(env, s, Step(env, s, a), MoveOf(env, s, a))
  {
    var s', t := Step(env, s, a), a.t;
    if s' != s {
      if At(s, t).Closing? {
        LostStep(env, s, s', t, At(s', t));
      } else {
        LocalStep(env, s, s', t, At(s', t));
      }
    }
  }
}
