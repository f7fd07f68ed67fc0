/**
 * What a call achieves when nobody gets in its way, and that every call is answered:
 * the other half of safety.
 */
module Calls {
  import opened Domain
  import opened Rules
  import opened Checks
  import opened Redis
  import opened Game
  import opened Protocol
  import opened LockSafety
  import opened Refinement
  import opened Safety
  import opened DeadlineSafety
  import opened EarlyClose
  import opened Replies

  function Advances(t: nat, n: nat): seq<Action> {
    if n == 0 then [] else [Advance(t)] + Advances(t, n - 1)
  }

  lemma {:induction false} AdvancesAdd(t: nat, m: nat, n: nat)
    ensures Advances(t, m) + Advances(t, n) == Advances(t, m + n)
  {
    if m == 0 {
      assert Advances(t, m) + Advances(t, n) == Advances(t, n);
    } else {
      AdvancesAdd(t, m - 1, n);
      assert Advances(t, m) + Advances(t, n) == [Advance(t)] + (Advances(t, m - 1) + Advances(t, n));
    }
  }

  lemma OneAndTwo(t: nat)
    ensures Advances(t, 1) == [Advance(t)] && Advances(t, 2) == [Advance(t), Advance(t)]
  {
    assert Advances(t, 0) == [];
    assert Advances(t, 1) == [Advance(t)] + Advances(t, 0);
    assert Advances(t, 2) == [Advance(t)] + Advances(t, 1);
  }

  // ----- a call under the lock

  /** The steps a locked call needs at most from here. */
  function StepsLeft(th: Thread): nat {
    match th
    case Holding(_, _) => 6
    case HasProgress(_, _, _) => 5
    case Loaded(_, _, _, _) => 4
    case Stamped(_, _) => 3
    case Scheduled(_, _) => 2
    case Closing(_, _, _, _, _) => 3
    case Saved(_, _) => 2
    case Releasing(_) => 1
    case _ => 0
  }

  /** The move a call makes if it is undisturbed: its own if that is legal, and a deadline's close on its question only. */
  ghost function Intended(env: Env, g: Game, op: Op): Move {
    if CanMove(env, g, MoveFor(op)) && (op.CloseOp? && op.only >= 0 ==> op.only == g.idx) then MoveFor(op) else Stutter
  }

  /** The move that is still to come. */
  ghost function ToCome(env: Env, s: Sys, t: nat): Move {
    match At(s, t)
    case Holding(op, _) => Intended(env, Abs(s), op)
    case HasProgress(op, _, _) => Intended(env, Abs(s), op)
    case Loaded(op, _, _, _) => Intended(env, Abs(s), op)
    case Stamped(_, _) => Start
    case Scheduled(_, _) => Start
    case Closing(_, _, _, _, _) => Close
    case _ => Stutter
  }

  /** The store's times and deadlines once the call is over. */
  datatype Times = Times(start: int, expiry: int, deadlines: map<int, int>)

  function TimesOf(db: Db): Times {
    Times(db.progress.start, db.expiry, db.deadlines)
  }

  /** The game's keys live on from now; a finished game has its own time to live. */
  function Renewed(env: Env, db: Db, status: Status): int {
    db.now + 1000 * (if status == Finished then env.finishedTTL else env.idleTTL)
  }

  /** What a move of the game does to them: a start has a deadline if answers are timed, a close takes it away. */
  ghost function TimesAfter(env: Env, db: Db, g: Game, m: Move): Times
    requires CanMove(env, g, m)
  {
    match m
    case Join(_, _, _) => TimesOf(db).(expiry := Renewed(env, db, Waiting))
    case Start =>
      Times(db.now, Renewed(env, db, Running),
            if env.timeout > 0 then db.deadlines[g.idx + 1 := db.now + 1000 * env.timeout] else db.deadlines)
    case Close =>
      Times(db.progress.start, Renewed(env, db, Moved(env, g, Close).status), db.deadlines - {g.idx})
    case _ => TimesOf(db)
  }

  /** The same for a call under way. */
  ghost predicate Heading(env: Env, s: Sys, t: nat, times: Times) {
    var db, g := s.db, Abs(s);
    match At(s, t)
    case Stamped(_, next) =>
      times == Times(next.start, Renewed(env, db, Running),
                     if env.timeout > 0 then db.deadlines[next.idx := next.start + 1000 * env.timeout] else db.deadlines)
    case Scheduled(_, next) => times == Times(next.start, Renewed(env, db, Running), db.deadlines)
    case Saved(_, idx) => times == TimesOf(db).(deadlines := db.deadlines - {idx})
    case _ => CanMove(env, g, ToCome(env, s, t)) && times == TimesAfter(env, db, g, ToCome(env, s, t))
  }

  lemma KeysLast(env: Env, s: Sys, t: nat)
    requires env.Valid() && Timely(s)
    ensures Exists(Step(env, s, Advance(t)).db)
  {
  }

  lemma AdvanceIsTimely(env: Env, s: Sys, t: nat)
    requires env.Valid() && Timely(s)
    ensures Timely(Step(env, s, Advance(t)))
  {
    KeysLast(env, s, t);
    if At(s, t).Releasing? || At(s, t).Idle? || At(s, t).Dead? {
      assert Step(env, s, Advance(t)).threads == s.threads || At(Step(env, s, Advance(t)), t) == Idle;
    } else {
      AdvanceUntouched(env, s, t);
    }
  }

  /** A step of the call makes the move to come, or leaves it to come. */
  ghost predicate Comes(env: Env, s: Sys, s': Sys, t: nat) {
    || (Abs(s') == Abs(s) && ToCome(env, s', t) == ToCome(env, s, t))
    || (CanMove(env, Abs(s), ToCome(env, s, t)) && Abs(s') == Moved(env, Abs(s), ToCome(env, s, t))
        && ToCome(env, s', t) == Stutter)
  }

  /** And the call nears its end. */
  ghost predicate Nearer(s: Sys, s': Sys, t: nat) {
    StepsLeft(At(s', t)) < StepsLeft(At(s, t)) && (At(s', t).HasTicket() || At(s', t) == Idle)
  }

  lemma NothingPending(s: Sys, t: nat)
    requires LockInv(s) && Timely(s) && At(s, t).Critical()
    ensures Pending(s.threads) <==> At(s, t).Closing?
  {
    PendingAfter(s, s.(threads := s.threads[t := Dead]), t, Dead);
  }

  ghost predicate Advanced(env: Env, s: Sys, t: nat, times: Times) {
    var s' := Step(env, s, Advance(t));
    Nearer(s, s', t) && Comes(env, s, s', t) && Heading(env, s', t, times)
  }

  lemma LoadedJoin(env: Env, s: Sys, t: nat, times: Times)
    requires env.Valid() && SysInv(env, s) && Timely(s) && Heading(env, s, t, times)
    requires At(s, t).Loaded? && At(s, t).op.JoinOp?
    ensures Advanced(env, s, t, times)
  {
    LoadedStep(env, s, t);
    assert Fresh(env, s.db, At(s, t));
  }

  lemma LoadedStart(env: Env, s: Sys, t: nat, times: Times)
    requires env.Valid() && SysInv(env, s) && Timely(s) && Heading(env, s, t, times)
    requires At(s, t).Loaded? && At(s, t).op.StartOp?
    ensures Advanced(env, s, t, times)
  {
    LoadedStep(env, s, t);
    NothingPending(s, t);
    assert Fresh(env, s.db, At(s, t));
  }

  lemma LoadedClose(env: Env, s: Sys, t: nat, times: Times)
    requires env.Valid() && SysInv(env, s) && Timely(s) && Heading(env, s, t, times)
    requires At(s, t).Loaded? && At(s, t).op.CloseOp?
    ensures Advanced(env, s, t, times)
  {
    LoadedStep(env, s, t);
    NothingPending(s, t);
    assert Fresh(env, s.db, At(s, t));
  }

  lemma StartAdvances(env: Env, s: Sys, t: nat, times: Times)
    requires env.Valid() && SysInv(env, s) && Timely(s) && Heading(env, s, t, times)
    requires At(s, t).Stamped? || At(s, t).Scheduled?
    ensures Advanced(env, s, t, times)
  {
    AdvanceStep(env, s, t);
    NothingPending(s, t);
    assert Fresh(env, s.db, At(s, t));
  }

  lemma CloseComes(env: Env, s: Sys, t: nat)
    requires env.Valid() && SysInv(env, s) && Timely(s) && At(s, t).Closing?
    ensures
      var s', h := Step(env, s, Advance(t)), Moved(env, Abs(s), Close);
      && At(s', t).Saved? && At(s', t).idx == Abs(s).idx && Comes(env, s, s', t)
      && TimesOf(s'.db) == Times(s.db.progress.start, Renewed(env, s.db, h.status), s.db.deadlines)
  {
    SavedAbs(env, s, t);
    assert Fresh(env, s.db, At(s, t));
  }

  lemma CloseAdvances(env: Env, s: Sys, t: nat, times: Times)
    requires env.Valid() && SysInv(env, s) && Timely(s) && Heading(env, s, t, times) && At(s, t).Closing?
    ensures Advanced(env, s, t, times)
  {
    CloseComes(env, s, t);
  }

  lemma OtherAdvances(env: Env, s: Sys, t: nat, times: Times)
    requires env.Valid() && SysInv(env, s) && Timely(s) && Heading(env, s, t, times)
    requires At(s, t).Holding? || At(s, t).HasProgress? || At(s, t).Saved? || At(s, t).Releasing?
    ensures Advanced(env, s, t, times)
  {
    AdvanceStep(env, s, t);
  }

  lemma CallAdvances(env: Env, s: Sys, t: nat, times: Times)
    requires env.Valid() && SysInv(env, s) && Timely(s) && At(s, t).HasTicket() && Heading(env, s, t, times)
    ensures Advanced(env, s, t, times)
  {
    var th := At(s, t);
    if th.Loaded? {
      match th.op
      case JoinOp(_, _, _) => LoadedJoin(env, s, t, times);
      case StartOp => LoadedStart(env, s, t, times);
      case CloseOp(_) => LoadedClose(env, s, t, times);
    } else if th.Stamped? || th.Scheduled? {
      StartAdvances(env, s, t, times);
    } else if th.Closing? {
      CloseAdvances(env, s, t, times);
    } else {
      OtherAdvances(env, s, t, times);
    }
  }

  lemma LockAdvances(env: Env, s: Sys, t: nat)
    requires LockInv(s) && Timely(s) && At(s, t).HasTicket() && Holds(s.db, At(s, t).ticket) && s.db.now < At(s, t).ticket.until
    ensures
      var s' := Step(env, s, Advance(t));
      && s'.db.now == s.db.now && s'.claimed == s.claimed
      && if At(s', t).HasTicket() then At(s', t).ticket == At(s, t).ticket && Holds(s'.db, At(s', t).ticket)
         else At(s', t).Idle? ==> LockFree(s'.db)
  {
    if !At(s, t).Releasing? { AdvanceUntouched(env, s, t); }
  }

  /** Thread t has the lock and time to use it, or is done with it. */
  ghost predicate InCall(s: Sys, t: nat) {
    if At(s, t).HasTicket() then Holds(s.db, At(s, t).ticket) && s.db.now < At(s, t).ticket.until
    else At(s, t) == Idle && LockFree(s.db)
  }

  ghost predicate CallInv(env: Env, s: Sys, t: nat, times: Times) {
    SysInv(env, s) && Timely(s) && InCall(s, t) && Heading(env, s, t, times)
  }

  /** The game once the call is over. */
  ghost function Outcome(env: Env, s: Sys, t: nat): Game {
    if CanMove(env, Abs(s), ToCome(env, s, t)) then Moved(env, Abs(s), ToCome(env, s, t)) else Abs(s)
  }

  ghost predicate SameEnd(env: Env, s: Sys, s': Sys, t: nat) {
    Outcome(env, s', t) == Outcome(env, s, t) && s'.db.now == s.db.now && s'.claimed == s.claimed
  }

  lemma CallStep(env: Env, s: Sys, t: nat, times: Times)
    requires env.Valid() && CallInv(env, s, t, times)
    ensures
      var s' := Step(env, s, Advance(t));
      && CallInv(env, s', t, times) && SameEnd(env, s, s', t)
      && (StepsLeft(At(s', t)) < StepsLeft(At(s, t)) || StepsLeft(At(s', t)) == 0)
  {
    StepRefines(env, s, Advance(t));
    AdvanceIsTimely(env, s, t);
    if At(s, t).HasTicket() {
      CallAdvances(env, s, t, times);
      LockAdvances(env, s, t);
    }
  }

  lemma AdvanceFirst(env: Env, s: Sys, t: nat, n: nat)
    requires n > 0
    ensures
      var s' := Step(env, s, Advance(t));
      && Exec(env, s, Advances(t, n)) == Exec(env, s', Advances(t, n - 1))
      && (TimelyRun(env, s, Advances(t, n)) <==> Timely(s) && TimelyRun(env, s', Advances(t, n - 1)))
  {
    assert Advances(t, n)[0] == Advance(t) && Advances(t, n)[1..] == Advances(t, n - 1);
  }

  /** The rest of a call that has the lock, with n commands to go at most. */
  lemma {:induction false} CallFinishes(env: Env, s: Sys, t: nat, times: Times, n: nat)
    requires env.Valid() && CallInv(env, s, t, times) && StepsLeft(At(s, t)) <= n
    ensures
      var s' := Exec(env, s, Advances(t, n));
      TimelyRun(env, s, Advances(t, n)) && CallInv(env, s', t, times) && SameEnd(env, s, s', t) && At(s', t) == Idle
    decreases n
  {
    if n > 0 {
      AdvanceFirst(env, s, t, n);
      CallStep(env, s, t, times);
      CallFinishes(env, Step(env, s, Advance(t)), t, times, n - 1);
    }
  }

  lemma CallBegins(env: Env, s: Sys, t: nat, op: Op)
    requires env.Valid() && SysInv(env, s) && Timely(s) && LockFree(s.db) && At(s, t).Idle?
    requires op.CloseOp? && op.only >= 0 ==> op.only in s.claimed
    ensures
      var s', m := Step(env, s, Begin(t, op)), Intended(env, Abs(s), op);
      && CallInv(env, s', t, TimesAfter(env, s.db, Abs(s), m))
      && Outcome(env, s', t) == Moved(env, Abs(s), m) && s'.db.now == s.db.now
      && s'.claimed == if op.CloseOp? then s.claimed - {op.only} else s.claimed
  {
    var s' := Step(env, s, Begin(t, op));
    StepRefines(env, s, Begin(t, op));
    assert s'.threads == s.threads[t := At(s', t)] && Timely(s');
  }

  /**
   * A call that gets the lock and is left alone for seven steps does all it is for:
   * its move of the game if that is legal, and for a deadline if the question is the
   * open one, with the new times and deadlines; and nothing at all otherwise. In the
   * end the lock is free again.
   */
  lemma UndisturbedCall(env: Env, s: Sys, t: nat, op: Op)
    requires env.Valid() && SysInv(env, s) && Timely(s) && LockFree(s.db) && At(s, t).Idle?
    requires op.CloseOp? && op.only >= 0 ==> op.only in s.claimed
    ensures
      var run, m := [Begin(t, op)] + Advances(t, 6), Intended(env, Abs(s), op);
      var s' := Exec(env, s, run);
      && TimelyRun(env, s, run)
      && Abs(s') == Moved(env, Abs(s), m) && TimesOf(s'.db) == TimesAfter(env, s.db, Abs(s), m)
      && At(s', t) == Idle && LockFree(s'.db) && s'.db.now == s.db.now
      && s'.claimed == if op.CloseOp? then s.claimed - {op.only} else s.claimed
  {
    var run, m := [Begin(t, op)] + Advances(t, 6), Intended(env, Abs(s), op);
    CallBegins(env, s, t, op);
    assert run[1..] == Advances(t, 6);
    CallFinishes(env, Step(env, s, Begin(t, op)), t, TimesAfter(env, s.db, Abs(s), m), 6);
  }

  // ----- a submission

  lemma SubmissionSteps(env: Env, s: Sys, t: nat, sub: Submission)
    requires Timely(s) && At(s, t).Idle?
    ensures
      var run := [Submit(t, sub)] + Advances(t, 2);
      && Exec(env, s, run) == Put(s, t, AskedPlayers(sub, s.db.progress, s.db.players))
      && TimelyRun(env, s, run)
  {
    var s1, s2 := Put(s, t, Asking(sub)), Put(s, t, AskedProgress(sub, s.db.progress));
    var s3 := Put(s, t, AskedPlayers(sub, s.db.progress, s.db.players));
    assert Step(env, s, Submit(t, sub)) == s1;
    assert Step(env, s1, Advance(t)) == s2;
    assert Step(env, s2, Advance(t)) == s3;
    OneAndTwo(t);
    assert Exec(env, s3, []) == s3 && TimelyRun(env, s3, []);
    assert Advances(t, 1)[1..] == [] && Exec(env, s2, Advances(t, 1)) == s3 && TimelyRun(env, s2, Advances(t, 1));
    assert Advances(t, 2)[1..] == Advances(t, 1) && Exec(env, s1, Advances(t, 2)) == s3 && TimelyRun(env, s1, Advances(t, 2));
    assert ([Submit(t, sub)] + Advances(t, 2))[1..] == Advances(t, 2);
  }

  /** The answers of the open question with one more, and their new expiry. */
  function WithAnswer(env: Env, db: Db, sub: Submission): Db {
    var idx := db.progress.idx;
    db.(answers := db.answers[idx := AnswerHash(Entries(db, idx)[sub.player := sub.option],
                                                db.now + 1000 * env.idleTTL)])
  }

  /** Two more commands of thread t, which is not critical, leading to s2. */
  lemma TwoAdvances(env: Env, s: Sys, t: nat, s2: Sys)
    requires Timely(s) && Timely(s2) && Timely(Step(env, s, Advance(t)))
    requires s2 == Step(env, Step(env, s, Advance(t)), Advance(t))
    ensures Exec(env, s, Advances(t, 2)) == s2 && TimelyRun(env, s, Advances(t, 2))
  {
    var s1 := Step(env, s, Advance(t));
    OneAndTwo(t);
    assert Advances(t, 1)[1..] == [] && Advances(t, 2)[1..] == Advances(t, 1);
    assert Exec(env, s2, []) == s2 && TimelyRun(env, s2, []);
    assert Exec(env, s1, Advances(t, 1)) == s2 && TimelyRun(env, s1, Advances(t, 1));
  }

  lemma Refused(env: Env, s: Sys, t: nat, sub: Submission)
    requires Timely(s) && Atomic(env, s.db, sub).Some?
    requires At(s, t) == AskedPlayers(sub, s.db.progress, s.db.players)
    ensures Exec(env, s, Advances(t, 2)) == Put(s, t, Idle) && TimelyRun(env, s, Advances(t, 2))
  {
    assert Step(env, s, Advance(t)) == Put(s, t, Idle);
    TwoAdvances(env, s, t, Put(s, t, Idle));
  }

  lemma RecordsAnswer(env: Env, db: Db, sub: Submission)
    requires Atomic(env, db, sub).None? && Stored(db, db.progress.idx) == Entries(db, db.progress.idx)
    ensures RecordAnswer(env, db, db.progress.idx, sub.player, sub.option) == (None, WithAnswer(env, db, sub))
  {
  }

  lemma Recorded(env: Env, s: Sys, t: nat, sub: Submission)
    requires env.Valid() && SysInv(env, s) && Timely(s) && Atomic(env, s.db, sub).None?
    requires At(s, t) == AskedPlayers(sub, s.db.progress, s.db.players)
    ensures
      var s' := Put(s, t, Idle).(db := WithAnswer(env, s.db, sub));
      Exec(env, s, Advances(t, 2)) == s' && TimelyRun(env, s, Advances(t, 2))
  {
    var s1 := Put(s, t, Submitting(sub, s.db.progress, s.db.players));
    var s2 := Put(s, t, Idle).(db := WithAnswer(env, s.db, sub));
    assert Step(env, s, Advance(t)) == s1;
    assert Stored(s.db, s.db.progress.idx) == Entries(s.db, s.db.progress.idx);
    RecordsAnswer(env, s.db, sub);
    assert s2.threads == s1.threads[t := Idle];
    TwoAdvances(env, s, t, s2);
  }

  /** An atomic submission succeeds exactly if the answer is a legal move, to the question asked and before it is closed. */
  lemma AtomicSuccess(env: Env, s: Sys, sub: Submission)
    requires env.Valid() && SysInv(env, s) && Timely(s)
    ensures
      Atomic(env, s.db, sub).None? <==>
      && s.db.progress.open && Asks(env, s.db.progress.idx, sub)
      && CanMove(env, Abs(s), Answer(sub.player, sub.option))
  {
    assert AnswersTo(Abs(s), s.db.progress.idx) == Entries(s.db, s.db.progress.idx);
    if s.db.progress.open { assert Stored(s.db, s.db.progress.idx) == Entries(s.db, s.db.progress.idx); }
    assert s.db.progress.open ==> Abs(s).open && Abs(s).status == Running;
  }

  /**
   * A submission that is left alone for five steps records the answer if it is a legal
   * one to the question asked, and changes nothing otherwise.
   */
  lemma UndisturbedSubmission(env: Env, s: Sys, t: nat, sub: Submission)
    requires env.Valid() && SysInv(env, s) && Timely(s) && At(s, t).Idle?
    ensures
      var run, m := [Submit(t, sub)] + Advances(t, 4), Answer(sub.player, sub.option);
      var s' := Exec(env, s, run);
      && TimelyRun(env, s, run) && At(s', t) == Idle
      && s'.db == if s.db.progress.open && Asks(env, s.db.progress.idx, sub) && CanMove(env, Abs(s), m)
                  then WithAnswer(env, s.db, sub) else s.db
  {
    var first := [Submit(t, sub)] + Advances(t, 2);
    SubmissionSteps(env, s, t, sub);
    RunRefines(env, s, first);
    AtomicSuccess(env, s, sub);
    SubmissionEnds(env, Exec(env, s, first), t, sub);
    TimelyAppend(env, s, first, Advances(t, 2));
    AdvancesAdd(t, 2, 2);
    assert first + Advances(t, 2) == [Submit(t, sub)] + Advances(t, 4);
  }

  lemma SubmissionEnds(env: Env, s: Sys, t: nat, sub: Submission)
    requires env.Valid() && SysInv(env, s) && Timely(s)
    requires At(s, t) == AskedPlayers(sub, s.db.progress, s.db.players)
    ensures
      var s' := Exec(env, s, Advances(t, 2));
      && TimelyRun(env, s, Advances(t, 2)) && At(s', t) == Idle
      && s'.db == if Atomic(env, s.db, sub).None? then WithAnswer(env, s.db, sub) else s.db
  {
    if Atomic(env, s.db, sub).None? {
      Recorded(env, s, t, sub);
    } else {
      Refused(env, s, t, sub);
    }
  }

  // ----- every call is answered, once

  /** What the caller behind thread t has heard. */
  datatype Word = Nothing | OnHold | Told(reply: Option<Error>)

  /** The reply that thread t's next command decides, if any. */
  ghost function ReplyAt(env: Env, s: Sys, t: nat): Option<Option<Error>> {
    if At(s, t).Asking? && !Exists(s.db) then Some(Some(GameNotFound))
    else if Decides(env, s, t).Some? then Decides(env, s, t)
    else Answered(env, s, t)
  }

  ghost function Hears(env: Env, s: Sys, a: Action, t: nat, word: Word): Word {
    if (a.Begin? || a.Submit?) && a.t == t && Step(env, s, a) != s then OnHold
    else if a == Advance(t) && ReplyAt(env, s, t).Some? then Told(ReplyAt(env, s, t).value)
    else word
  }

  ghost function Heard(env: Env, s: Sys, run: seq<Action>, t: nat, word: Word): Word
    decreases |run|
  {
    if run == [] then word else Heard(env, Step(env, s, run[0]), run[1..], t, Hears(env, s, run[0], t, word))
  }

  /** Callers wait exactly until the call is decided; then only the deadline and the lock are left to deal with. */
  predicate InStep(th: Thread, word: Word) {
    match th
    case Idle => !word.OnHold?
    case Dead => true
    case Saved(_, _) => word.Told?
    case Releasing(_) => word.Told?
    case _ => word.OnHold?
  }

  lemma StaysInStep(env: Env, s: Sys, a: Action, t: nat, word: Word)
    requires InStep(At(s, t), word) && a != Fail(t) && a != Crash(t)
    ensures InStep(At(Step(env, s, a), t), Hears(env, s, a, t, word))
    ensures a == Advance(t) && ReplyAt(env, s, t).Some? ==> word.OnHold?
  {
    if a.Advance? && a.t != t && t in s.threads { OnlyOneMoves(env, s, a.t, t); }
  }

  lemma {:induction false} RunInStep(env: Env, s: Sys, run: seq<Action>, t: nat, word: Word)
    requires InStep(At(s, t), word) && Fail(t) !in run && Crash(t) !in run
    ensures InStep(At(Exec(env, s, run), t), Heard(env, s, run, t, word))
    decreases |run|
  {
    if run != [] {
      StaysInStep(env, s, run[0], t, word);
      RunInStep(env, Step(env, s, run[0]), run[1..], t, Hears(env, s, run[0], t, word));
    }
  }

  /**
   * In any run whatever, a thread that does not fail or die is never done with a call
   * before the reply is decided, and never decides a second one.
   */
  lemma EveryCallIsAnswered(env: Env, s: Sys, run: seq<Action>, t: nat)
    requires Init(env, s) && Fail(t) !in run && Crash(t) !in run
    ensures
      var s', word := Exec(env, s, run), Heard(env, s, run, t, Nothing);
      && InStep(At(s', t), word) && !At(s', t).Dead?
      && (ReplyAt(env, s', t).Some? ==> word == OnHold)
  {
    RunInStep(env, s, run, t, Nothing);
    NobodyDies(env, s, run, t);
    StaysInStep(env, Exec(env, s, run), Advance(t), t, Heard(env, s, run, t, Nothing));
  }

  lemma {:induction false} NobodyDies(env: Env, s: Sys, run: seq<Action>, t: nat)
    requires !At(s, t).Dead? && Crash(t) !in run
    ensures !At(Exec(env, s, run), t).Dead?
    decreases |run|
  {
    if run != [] {
      var s' := Step(env, s, run[0]);
      if run[0].Advance? && run[0].t != t && t in s.threads { OnlyOneMoves(env, s, run[0].t, t); }
      assert !At(s', t).Dead?;
      NobodyDies(env, s', run[1..], t);
    }
  }

  // ----- no call leaves its lock behind

  /** Only a crash, or a failing unlock, can leave a lock to expire. */
  predicate Abandons(s: Sys, a: Action) {
    a.Crash? || (a.Fail? && At(s, a.t).Releasing?)
  }

  ghost predicate NothingAbandoned(env: Env, s: Sys, run: seq<Action>)
    decreases |run|
  {
    run == [] || (!Abandons(s, run[0]) && NothingAbandoned(env, Step(env, s, run[0]), run[1..]))
  }

  /** Whatever a call runs into, the next thing it does with its lock is to give it back. */
  lemma CallKeepsTicket(env: Env, s: Sys, t: nat)
    requires At(s, t).Critical()
    ensures var s' := Step(env, s, Advance(t)); At(s', t).HasTicket() && At(s', t).ticket == At(s, t).ticket
  {
  }

  lemma HolderStays(env: Env, s: Sys, a: Action, h: nat)
    requires LockInv(s) && !Abandons(s, a) && !a.Begin?
    requires h in s.threads && s.threads[h].HasTicket() && Holds(s.db, s.threads[h].ticket)
    ensures var s' := Step(env, s, a); LockFree(s'.db) || InGoodHands(s')
  {
    var s' := Step(env, s, a);
    if a == Advance(h) && !s.threads[h].Releasing? {
      CallKeepsTicket(env, s, h);
      AdvanceUntouched(env, s, h);
    } else if a.Advance? && a.t != h {
      OnlyOneMoves(env, s, a.t, h);
      if !At(s, a.t).Releasing? && !At(s, a.t).Idle? && !At(s, a.t).Dead? { AdvanceUntouched(env, s, a.t); }
    }
    if !LockFree(s'.db) {
      assert h in s'.threads && s'.threads[h].HasTicket() && Holds(s'.db, s'.threads[h].ticket);
    }
  }

  lemma StepAbandonsNothing(env: Env, s: Sys, a: Action)
    requires LockInv(s) && !Abandons(s, a) && (LockFree(s.db) || InGoodHands(s))
    ensures var s' := Step(env, s, a); LockFree(s'.db) || InGoodHands(s')
  {
    var s' := Step(env, s, a);
    if a.Begin? && s' != s {
      assert s'.threads[a.t].HasTicket() && Holds(s'.db, s'.threads[a.t].ticket);
    } else if InGoodHands(s) {
      var h :| h in s.threads && s.threads[h].HasTicket() && Holds(s.db, s.threads[h].ticket);
      if s' != s { HolderStays(env, s, a, h); }
    } else {
      FreeStays(env, s, a);
    }
  }

  lemma FreeStays(env: Env, s: Sys, a: Action)
    requires LockFree(s.db) && !(a.Begin? && Step(env, s, a) != s)
    ensures LockFree(Step(env, s, a).db)
  {
  }

  /**
   * In any run without crashes and failing unlocks, whatever else fails and however
   * long it takes, the lock is free or in the hands of a thread that will give it back.
   */
  lemma {:induction false} NoLockIsLeftBehind(env: Env, s: Sys, run: seq<Action>)
    requires LockInv(s) && NothingAbandoned(env, s, run) && (LockFree(s.db) || InGoodHands(s))
    ensures var s' := Exec(env, s, run); LockFree(s'.db) || InGoodHands(s')
    decreases |run|
  {
    if run != [] {
      StepAbandonsNothing(env, s, run[0]);
      StepKeepsLockInv(env, s, run[0]);
      NoLockIsLeftBehind(env, Step(env, s, run[0]), run[1..]);
    }
  }

  // ----- faults

  /** A holder that dies keeps others out for exactly ten seconds from when it took the lock. */
  lemma LockLastsTenSeconds(env: Env, s: Sys, t: nat, op: Op, ms: nat, u: nat, next: Op)
    requires LockFree(s.db) && At(s, t).Idle? && At(s, u).Idle? && t != u
    requires (op.CloseOp? ==> op.only < 0) && (next.CloseOp? ==> next.only < 0)
    ensures
      var dead := Step(env, Step(env, s, Begin(t, op)), Crash(t));
      At(Step(env, Step(env, dead, Tick(ms)), Begin(u, next)), u).Holding? <==> ms >= 10_000
  {
  }

  /** A dead thread does nothing more, and its death changes nothing in the store. */
  lemma {:induction false} DeadForGood(env: Env, s: Sys, t: nat, run: seq<Action>)
    requires At(s, t).Dead?
    ensures At(Exec(env, s, run), t).Dead?
    decreases |run|
  {
    if run != [] {
      var s' := Step(env, s, run[0]);
      if run[0].Advance? && run[0].t != t && t in s.threads { OnlyOneMoves(env, s, run[0].t, t); }
      assert At(s', t).Dead?;
      DeadForGood(env, s', t, run[1..]);
    }
  }

  lemma CrashIsDeath(env: Env, s: Sys, t: nat, run: seq<Action>)
    ensures At(Exec(env, Step(env, s, Crash(t)), run), t).Dead? && Step(env, s, Crash(t)).db == s.db
  {
    DeadForGood(env, Step(env, s, Crash(t)), t, run);
  }

  /** A command may fail at any point of a call: the store keeps what it has, and only the unlock is still tried. */
  lemma FailureStops(env: Env, s: Sys, t: nat)
    requires !At(s, t).Dead?
    ensures
      var th, s' := At(s, t), Step(env, s, Fail(t));
      && s'.db == s.db && s'.claimed == s.claimed
      && At(s', t) == if th.Critical() then Releasing(th.ticket) else Idle
  {
  }

  /** Any deadlines that are reached may be claimed together; they are then nobody else's. */
  lemma ReachedCanBeClaimed(env: Env, s: Sys, at: int, due: set<int>)
    requires at <= s.db.now && forall k :: k in due ==> k in s.db.deadlines && s.db.deadlines[k] <= at
    ensures
      var s' := Step(env, s, Claim(at, due));
      && s'.claimed == s.claimed + due && s'.threads == s.threads
      && s'.db.deadlines == map k | k in s.db.deadlines && k !in due :: s.db.deadlines[k]
  {
  }

  /** A call that fails under the lock gives it back with its next command, and leaves the rest as it was. */
  lemma FailureUnlocks(env: Env, s: Sys, t: nat)
    requires LockInv(s) && Timely(s) && At(s, t).Critical()
    ensures
      var s' := Step(env, Step(env, s, Fail(t)), Advance(t));
      At(s', t) == Idle && LockFree(s'.db) && s'.db == s.db.(lock := None)
  {
  }
}
