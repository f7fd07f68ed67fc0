/** The game lock: who holds it, in every run, overruns and faults included. */
module LockSafety {
  import opened Domain
  import opened Redis
  import opened Protocol

  /** Thread t moved on to th; nobody else did. */
  ghost predicate Moves(s: Sys, s': Sys, t: nat, th: Thread) {
    s'.threads == s.threads[t := th]
  }

  /** The lock is not touched, and the thread that moved did not make up a ticket. */
  ghost predicate LockUntouched(s: Sys, s': Sys, t: nat, th: Thread) {
    && Moves(s, s', t, th)
    && s'.db.lock == s.db.lock && s'.tokens == s.tokens && s'.db.now == s.db.now
    && (th.HasTicket() ==> At(s, t).HasTicket() && th.ticket == At(s, t).ticket)
    && (th.Critical() ==> At(s, t).Critical())
  }

  lemma LockFrame(s: Sys, s': Sys, t: nat, th: Thread)
    requires LockInv(s) && LockUntouched(s, s', t, th)
    ensures LockInv(s')
  {
  }

  lemma AcquireKeepsLockInv(s: Sys, t: nat, op: Op)
    requires LockInv(s)
    ensures LockInv(Acquire(s, t, op))
  {
  }

  lemma ReleaseKeepsLockInv(env: Env, s: Sys, t: nat)
    requires LockInv(s) && At(s, t).Releasing?
    ensures LockInv(Step(env, s, Advance(t)))
  {
  }

  /** Except for taking and releasing the lock, a thread that moves keeps its ticket or drops it. */
  lemma AdvanceUntouched(env: Env, s: Sys, t: nat)
    requires !At(s, t).Releasing? && !At(s, t).Idle? && !At(s, t).Dead?
    ensures var s' := Step(env, s, Advance(t)); LockUntouched(s, s', t, At(s', t))
  {
    if At(s, t).Loaded? { LoadedUntouched(env, s, t); }
  }

  lemma LoadedUntouched(env: Env, s: Sys, t: nat)
    requires At(s, t).Loaded?
    ensures var s' := Step(env, s, Advance(t)); LockUntouched(s, s', t, At(s', t))
  {
  }

  /** No assumption at all about how long threads take. */
  lemma StepKeepsLockInv(env: Env, s: Sys, a: Action)
    requires LockInv(s)
    ensures LockInv(Step(env, s, a))
  {
    var s' := Step(env, s, a);
    if s' != s {
      match a {
        case Begin(t, op) => AcquireKeepsLockInv(s, t, op);
        case Submit(t, sub) => LockFrame(s, s', t, Asking(sub));
        case Advance(t) =>
          if At(s, t).Releasing? {
            ReleaseKeepsLockInv(env, s, t);
          } else {
            AdvanceUntouched(env, s, t);
            LockFrame(s, s', t, At(s', t));
          }
        case Fail(t) => LockFrame(s, s', t, At(s', t));
        case Crash(t) => LockFrame(s, s', t, Dead);
        case Claim(_, _) =>
        case Tick(_) =>
      }
    }
  }

  lemma {:induction false} RunKeepsLockInv(env: Env, s: Sys, run: seq<Action>)
    requires LockInv(s)
    ensures LockInv(Exec(env, s, run))
    decreases |run|
  {
    if run != [] {
      StepKeepsLockInv(env, s, run[0]);
      RunKeepsLockInv(env, Step(env, s, run[0]), run[1..]);
    }
  }

  /**
   * In any run whatever, a ticket that has not run out is worth the lock: its holder
   * has it and no other thread does.
   */
  lemma UnexpiredHolderIsAlone(env: Env, s: Sys, run: seq<Action>, t: nat, u: nat)
    requires Init(env, s)
    ensures
      var s' := Exec(env, s, run);
      At(s', t).HasTicket() && s'.db.now < At(s', t).ticket.until ==>
        && Holds(s'.db, At(s', t).ticket)
        && (u != t && At(s', u).HasTicket() ==> !Holds(s'.db, At(s', u).ticket))
  {
    RunKeepsLockInv(env, s, run);
  }

  /** An unlock, however late, never takes the lock from another holder. */
  lemma LateUnlockIsHarmless(env: Env, s: Sys, run: seq<Action>, t: nat, u: nat)
    requires Init(env, s) && t != u
    ensures
      var s' := Exec(env, s, run);
      var after := Step(env, s', Advance(t));
      At(s', t).Releasing? && At(s', u).HasTicket() && Holds(s'.db, At(s', u).ticket) ==>
        At(after, u) == At(s', u) && Holds(after.db, At(after, u).ticket)
  {
    RunKeepsLockInv(env, s, run);
  }

  /** If nobody overruns, there is at most one thread between Lock and unlock. */
  lemma OneCritical(s: Sys, t: nat, u: nat)
    requires LockInv(s) && Timely(s)
    requires t in s.threads && u in s.threads && s.threads[t].Critical() && s.threads[u].Critical()
    ensures t == u && Holds(s.db, s.threads[t].ticket)
  {
  }

  /** So in any run, as long as nobody overruns, critical sections exclude each other. */
  lemma CriticalSectionsExclude(env: Env, s: Sys, run: seq<Action>, t: nat, u: nat)
    requires Init(env, s) && Timely(Exec(env, s, run))
    ensures
      var s' := Exec(env, s, run);
      At(s', t).Critical() && At(s', u).Critical() ==> t == u && Holds(s'.db, At(s', t).ticket)
  {
    RunKeepsLockInv(env, s, run);
    var s' := Exec(env, s, run);
    if At(s', t).Critical() && At(s', u).Critical() { OneCritical(s', t, u); }
  }
}
