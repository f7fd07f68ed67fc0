/**
 * Any number of threads, on any number of instances, serving one game over the
 * shared store. One `Advance` is one store command together with the thread's local
 * computation before the next; threads interleave freely, may fail or die between
 * any two commands, and time passes in between.
 */
module Protocol {
  import opened Domain
  import opened Rules
  import opened Checks
  import opened Redis
  import opened Game

  /** A transition made under the game lock. `CloseOp(-1)` is the host's close. */
  datatype Op =
    | JoinOp(id: string, name: string, actor: string)
    | StartOp
    | CloseOp(only: int)

  /** What a lock holder knows: its token, and when the lock would expire. */
  datatype Ticket = Ticket(token: nat, until: int)

  /**
   * Where a thread is, with what it has read so far. The second half of Load, the
   * current question and its answers, appears only for a submission: under the lock
   * the question never changes and the answers read there are not used.
   */
  datatype Thread =
    | Idle
    | Dead
    | Holding(op: Op, ticket: Ticket)
    | HasProgress(op: Op, ticket: Ticket, progress: Progress)
    | Loaded(op: Op, ticket: Ticket, progress: Progress, players: Players)
    | Stamped(ticket: Ticket, next: Progress)
    | Scheduled(ticket: Ticket, next: Progress)
    | Closing(only: int, ticket: Ticket, progress: Progress, players: Players, taken: Answers)
    | Saved(ticket: Ticket, idx: int)
    | Releasing(ticket: Ticket)
    | Asking(sub: Submission)
    | AskedProgress(sub: Submission, progress: Progress)
    | AskedPlayers(sub: Submission, progress: Progress, players: Players)
    | Submitting(sub: Submission, progress: Progress, players: Players)
  {
    /** Between taking the lock and giving it back. */
    predicate Critical() {
      Holding? || HasProgress? || Loaded? || Stamped? || Scheduled? || Closing? || Saved?
    }

    predicate HasTicket() { Critical() || Releasing? }
  }

  /**
   * `claimed` are the deadlines some instance has claimed and not begun to close.
   * `rounds` records what happened; no step reads it.
   */
  datatype Sys = Sys(db: Db, threads: map<nat, Thread>, tokens: nat, claimed: set<int>,
                     rounds: seq<Round>)

  datatype Action =
    | Begin(t: nat, op: Op)
    | Submit(t: nat, sub: Submission)
    | Advance(t: nat)
    | Fail(t: nat)
    | Crash(t: nat)
    | Claim(at: int, due: set<int>)
    | Tick(ms: nat)

  function At(s: Sys, t: nat): Thread {
    if t in s.threads then s.threads[t] else Idle
  }

  function Put(s: Sys, t: nat, th: Thread): Sys {
    s.(threads := s.threads[t := th])
  }

  ghost predicate Init(env: Env, s: Sys) {
    && Created(env, s.db)
    && s.threads == map[] && s.claimed == {} && s.rounds == []
  }

  /** Actions that are not enabled leave the system as it is, so every sequence of actions is a run. */
  ghost function Step(env: Env, s: Sys, a: Action): Sys {
    match a
    case Begin(t, op) =>
      if At(s, t).Idle? && (op.CloseOp? && op.only >= 0 ==> op.only in s.claimed) then Acquire(s, t, op) else s
    case Submit(t, sub) => if At(s, t).Idle? then Put(s, t, Asking(sub)) else s
    case Advance(t) => Next(env, s, t)
    case Fail(t) =>
      var th := At(s, t);
      if th.Idle? || th.Dead? then s
      else Lost(Put(s, t, if th.Critical() then Releasing(th.ticket) else Idle), th)
    case Crash(t) => Lost(Put(s, t, Dead), At(s, t))
    case Claim(at, due) =>
      if at <= s.db.now && Claimable(s.db, at, due)
      then s.(db := ClaimDue(s.db, due), claimed := s.claimed + due) else s
    case Tick(ms) => s.(db := s.db.(now := s.db.now + ms))
  }

  /** One attempt to take the lock; a failed one is repeated or given up. Tokens are never reused. */
  function Acquire(s: Sys, t: nat, op: Op): Sys {
    var (ok, db) := SetNX(s.db, s.tokens);
    if ok then
      s.(db := db,
         threads := s.threads[t := Holding(op, Ticket(s.tokens, s.db.now + LockTTL))],
         tokens := s.tokens + 1,
         claimed := if op.CloseOp? then s.claimed - {op.only} else s.claimed)
    else s
  }

  /** A fault of a thread that has taken a question's answers loses that round's penalties. */
  function Lost(s: Sys, th: Thread): Sys {
    if th.Closing? then s.(rounds := s.rounds + [Round(th.progress.idx, {}, false)]) else s
  }

  ghost function Next(env: Env, s: Sys, t: nat): Sys {
    var db := s.db;
    match At(s, t)
    case Idle => s
    case Dead => s
    case Holding(op, k) =>
      Put(s, t, if Exists(db) then HasProgress(op, k, db.progress) else Releasing(k))
    case HasProgress(op, k, p) => Put(s, t, Loaded(op, k, p, FoundPlayers(db)))
    case Loaded(JoinOp(id, name, actor), k, p, players) =>
      if JoinError(p, players, id).Some? then Put(s, t, Releasing(k))
      else Put(s.(db := AddPlayer(env, db, id, NewPlayer(env, name, actor))), t, Releasing(k))
    case Loaded(StartOp, k, p, players) =>
      Put(s, t, if StartError(env, p).Some? then Releasing(k) else Stamped(k, Started(p, db.now)))
    case Loaded(CloseOp(only), k, p, players) =>
      if CloseError(p, only).Some? then Put(s, t, Releasing(k))
      else
        var (taken, db') := CloseAnswers(db, p.idx);
        Put(s.(db := db'), t, if taken.None? then Releasing(k) else Closing(only, k, p, players, taken.value))
    case Stamped(k, next) =>
      var db' := if env.timeout > 0 then ScheduleClose(db, next.idx, next.start + Seconds(env.timeout)) else db;
      Put(s.(db := db'), t, Scheduled(k, next))
    case Scheduled(k, next) => Put(s.(db := Save(env, db, next, map[])), t, Releasing(k))
    case Closing(_, _, _, _, _) => SaveClose(env, s, t)
    case Saved(k, idx) => Put(s.(db := CancelClose(db, idx)), t, Releasing(k))
    case Releasing(k) => Put(s.(db := Unlock(db, k.token)), t, Idle)
    case Asking(sub) => Put(s, t, if Exists(db) then AskedProgress(sub, db.progress) else Idle)
    case AskedProgress(sub, p) => Put(s, t, AskedPlayers(sub, p, FoundPlayers(db)))
    case AskedPlayers(sub, p, players) =>
      Put(s, t, if SubmitError(env, p, players, Stored(db, p.idx), sub).Some? then Idle else Submitting(sub, p, players))
    case Submitting(sub, p, players) =>
      Put(s.(db := RecordAnswer(env, db, p.idx, sub.player, sub.option).1), t, Idle)
  }

  /** The players a close writes back: those who lost a life, as they are afterwards. */
  ghost function Changed(env: Env, p: Progress, players: Players, taken: Answers): Players
    requires 0 <= p.idx < env.Total()
  {
    var after := Penalized(players, taken, env.Correct(p.idx));
    map id | id in Losers(players, taken, env.Correct(p.idx)) :: after[id]
  }

  ghost function SaveClose(env: Env, s: Sys, t: nat): Sys
    requires At(s, t).Closing?
  {
    var Closing(_, k, p, players, taken) := At(s, t);
    if 0 <= p.idx < env.Total() then
      var after := Penalized(players, taken, env.Correct(p.idx));
      var losers := Losers(players, taken, env.Correct(p.idx));
      var db := Save(env, s.db, Scored(env, p, after), Changed(env, p, players, taken));
      Put(s, t, Saved(k, p.idx)).(db := db, rounds := s.rounds + [Round(p.idx, losers, true)])
    else Put(s, t, Releasing(k))
  }

  ghost function Exec(env: Env, s: Sys, run: seq<Action>): Sys
    decreases |run|
  {
    if run == [] then s else Exec(env, Step(env, s, run[0]), run[1..])
  }

  /**
   * The hypothesis under which the protocol is correct: the game's keys have not
   * expired, and no live thread stays in its critical section until its lock expires.
   */
  ghost predicate Timely(s: Sys) {
    && Exists(s.db)
    && forall t :: t in s.threads && s.threads[t].Critical() ==> s.db.now < s.threads[t].ticket.until
  }

  ghost predicate TimelyRun(env: Env, s: Sys, run: seq<Action>)
    decreases |run|
  {
    Timely(s) && (run == [] || TimelyRun(env, Step(env, s, run[0]), run[1..]))
  }

  // ----- runs one after the other

  lemma {:induction false} ExecAppend(env: Env, s: Sys, run: seq<Action>, more: seq<Action>)
    ensures Exec(env, s, run + more) == Exec(env, Exec(env, s, run), more)
    decreases |run|
  {
    if run == [] {
      assert run + more == more;
    } else {
      assert (run + more)[1..] == run[1..] + more;
      ExecAppend(env, Step(env, s, run[0]), run[1..], more);
    }
  }

  lemma {:induction false} TimelyAppend(env: Env, s: Sys, run: seq<Action>, more: seq<Action>)
    requires TimelyRun(env, s, run) && TimelyRun(env, Exec(env, s, run), more)
    ensures TimelyRun(env, s, run + more) && Exec(env, s, run + more) == Exec(env, Exec(env, s, run), more)
    decreases |run|
  {
    if run == [] {
      assert run + more == more;
    } else {
      assert (run + more)[1..] == run[1..] + more;
      TimelyAppend(env, Step(env, s, run[0]), run[1..], more);
    }
  }

  // ----- the abstract game behind a state

  ghost predicate Pending(threads: map<nat, Thread>) {
    exists t :: t in threads && threads[t].Closing?
  }

  /**
   * The question counts as open until its penalties are saved or lost, although the
   * store already refuses answers once they have been taken.
   */
  ghost function Abs(s: Sys): Game {
    Game(s.db.progress.status, s.db.progress.idx, s.db.progress.open || Pending(s.threads), s.db.progress.reason,
         s.db.players, (map k | k in s.db.answers :: s.db.answers[k].entries), s.rounds)
  }

  // ----- the invariant

  ghost predicate Holds(db: Db, k: Ticket) {
    db.lock == Some(Lease(k.token, k.until))
  }

  /**
   * Holds whatever happens, even when holders overrun: tokens are unique, a lease
   * carries its holder's expiry, and until that time nobody else has the lock.
   */
  ghost predicate LockInv(s: Sys) {
    && (s.db.lock.Some? ==> s.db.lock.value.token < s.tokens)
    && (forall t :: t in s.threads && s.threads[t].HasTicket() ==> TicketInv(s, s.threads[t].ticket))
    && (forall t, u :: t in s.threads && u in s.threads && t != u
                       && s.threads[t].HasTicket() && s.threads[u].HasTicket() ==>
          s.threads[t].ticket.token != s.threads[u].ticket.token)
  }

  ghost predicate TicketInv(s: Sys, k: Ticket) {
    && k.token < s.tokens
    && (s.db.lock.Some? && s.db.lock.value.token == k.token ==> s.db.lock.value.expiry == k.until)
    && (s.db.now < k.until ==> Holds(s.db, k))
  }

  /** What a thread has read is still true, as far as it matters. */
  ghost predicate Fresh(env: Env, db: Db, th: Thread) {
    match th
    case HasProgress(_, _, p) => p == db.progress
    case Loaded(_, _, p, players) => p == db.progress && players == db.players
    case Stamped(_, next) => FreshStart(env, db, next)
    case Scheduled(_, next) => FreshStart(env, db, next)
    case Closing(_, _, p, players, taken) =>
      && p.open && p.status == Running && 0 <= p.idx < env.Total()
      && db.progress == p.(open := false)
      && players == db.players
      && taken == Entries(db, p.idx)
    case AskedProgress(_, p) => p.idx <= db.progress.idx
    case AskedPlayers(_, p, players) => FreshAsk(db, p, players)
    case Submitting(sub, p, players) => FreshAsk(db, p, players) && SubmitError(env, p, players, map[], sub) == None
    case _ => true
  }

  ghost predicate FreshStart(env: Env, db: Db, next: Progress) {
    StartError(env, db.progress) == None && next == Started(db.progress, next.start) && next.start <= db.now
  }

  ghost predicate FreshAsk(db: Db, p: Progress, players: Players) {
    && p.idx <= db.progress.idx
    && (p.open && db.progress.open && p.idx == db.progress.idx ==> players == db.players)
  }

  ghost predicate AllFresh(env: Env, s: Sys) {
    forall t :: t in s.threads ==> Fresh(env, s.db, s.threads[t])
  }

  /** While a question is open its answers outlive the game's other keys. */
  ghost predicate ExpiryInv(env: Env, db: Db) {
    && (db.progress.status != Finished ==> db.expiry <= db.now + Seconds(env.idleTTL))
    && (db.progress.open && db.progress.idx in db.answers ==> db.answers[db.progress.idx].expiry >= db.expiry)
  }

  ghost predicate StateInv(env: Env, s: Sys) {
    && AllFresh(env, s)
    && ExpiryInv(env, s.db)
    && Inv(env, Abs(s))
  }

  ghost predicate SysInv(env: Env, s: Sys) {
    LockInv(s) && StateInv(env, s)
  }
}
