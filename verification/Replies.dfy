/** What the callers are told: replies of interleaved calls compared with those of atomic ones. */
module Replies {
  import opened Domain
  import opened Rules
  import opened Checks
  import opened Redis
  import opened Game
  import opened GameLaws
  import opened Protocol
  import opened LockSafety
  import opened Refinement
  import opened Safety
  import opened DeadlineSafety

  // ----- calls under the lock

  /** The sequential game's fields as the engine's checks look at them. */
  function ProgressOf(g: Game): Progress {
    Progress(g.status, g.idx, g.open, 0, g.reason)
  }

  /** The error, if any, with which the sequential game answers a call. */
  function SequentialReply(env: Env, g: Game, op: Op): Option<Error> {
    match op
    case JoinOp(id, _, _) => JoinError(ProgressOf(g), g.players, id)
    case StartOp => StartError(env, ProgressOf(g))
    case CloseOp(only) => CloseError(ProgressOf(g), only)
  }

  function MoveFor(op: Op): Move {
    match op
    case JoinOp(id, name, actor) => Join(id, name, actor)
    case StartOp => Start
    case CloseOp(_) => Close
  }

  /** In a game that can be reached, success means the move is legal. */
  lemma SuccessIsLegal(env: Env, g: Game, op: Op)
    requires Inv(env, g)
    ensures SequentialReply(env, g, op).None? ==> CanMove(env, g, MoveFor(op))
    ensures CanMove(env, g, MoveFor(op)) && !(op.CloseOp? && op.only >= 0 && op.only != g.idx) ==>
              SequentialReply(env, g, op).None?
  {
  }

  /** The call a thread is serving. */
  function CallOf(th: Thread): Option<Op> {
    match th
    case Holding(op, _) => Some(op)
    case HasProgress(op, _, _) => Some(op)
    case Loaded(op, _, _, _) => Some(op)
    case Stamped(_, _) => Some(StartOp)
    case Scheduled(_, _) => Some(StartOp)
    case Closing(only, _, _, _, _) => Some(CloseOp(only))
    case _ => None
  }

  /** The reply of thread t's call, if its next command decides it: Some(None) is success. */
  ghost function Decides(env: Env, s: Sys, t: nat): Option<Option<Error>> {
    match At(s, t)
    case Holding(_, _) => if Exists(s.db) then None else Some(Some(GameNotFound))
    case Loaded(JoinOp(id, _, _), _, p, players) => Some(JoinError(p, players, id))
    case Loaded(StartOp, _, p, _) => if StartError(env, p).Some? then Some(StartError(env, p)) else None
    case Loaded(CloseOp(only), _, p, _) =>
      if CloseError(p, only).Some? then Some(CloseError(p, only))
      else if CloseAnswers(s.db, p.idx).0.None? then Some(Some(NoActiveQuestion))
      else None
    case Scheduled(_, _) => Some(None)
    case Closing(_, _, _, _, _) => Some(None)
    case _ => None
  }

  /**
   * In any timely run, whatever else is under way: a join, start or close is answered
   * exactly as the sequential game would at the step that decides the call, and that
   * step makes the call's move if it succeeds and none if it does not.
   */
  lemma LockedRepliesAreSequential(env: Env, s: Sys, run: seq<Action>, t: nat)
    requires env.Valid() && Init(env, s) && TimelyRun(env, s, run)
    requires Decides(env, Exec(env, s, run), t).Some?
    ensures
      var s' := Exec(env, s, run);
      var op := CallOf(At(s', t));
      && op.Some?
      && Decides(env, s', t).value == SequentialReply(env, Abs(s'), op.value)
      && MoveOf(env, s', Advance(t)) == if Decides(env, s', t).value.None? then MoveFor(op.value) else Stutter
  {
    InitIsNewGame(env, s);
    RunRefines(env, s, run);
    RunRemembers(env, s, run, t, None);
    var s' := Exec(env, s, run);
    assert Fresh(env, s'.db, At(s', t));
    PendingAfter(s', s'.(threads := s'.threads[t := Dead]), t, Dead);
  }

  // ----- which error it is, told from the game's history

  /** A round has been closed since the last start, or nothing was started: no question is left open. */
  predicate BetweenQuestions(s: Sys) {
    |s.rounds| == s.db.progress.idx + 1
  }

  predicate HasBegun(s: Sys) { s.db.progress.idx >= 0 }

  predicate HasEnded(s: Sys) { s.db.progress.reason != NotOver }

  /** What the call of thread t, about to be decided, is told. */
  ghost predicate CallIsTold(env: Env, s: Sys, t: nat, op: Op, reply: Option<Error>) {
    CallOf(At(s, t)) == Some(op) && Decides(env, s, t) == Some(reply)
  }

  lemma DecisiveState(env: Env, s: Sys, run: seq<Action>, t: nat, op: Op, reply: Option<Error>)
    requires env.Valid() && Init(env, s) && TimelyRun(env, s, run)
    requires CallIsTold(env, Exec(env, s, run), t, op, reply)
    ensures var s' := Exec(env, s, run); reply == SequentialReply(env, Abs(s'), op) && Inv(env, Abs(s'))
  {
    LockedRepliesAreSequential(env, s, run, t);
    InitIsNewGame(env, s);
    RunRefines(env, s, run);
  }

  /** A join: too late once a question was started, and a second one for the same player. */
  lemma JoinIsTold(env: Env, s: Sys, run: seq<Action>, t: nat, op: Op, reply: Option<Error>)
    requires env.Valid() && Init(env, s) && TimelyRun(env, s, run)
    requires op.JoinOp? && CallIsTold(env, Exec(env, s, run), t, op, reply)
    ensures
      var s' := Exec(env, s, run);
      && (reply == Some(GameAlreadyStarted) <==> HasBegun(s'))
      && (reply == Some(PlayerAlreadyJoined) <==> !HasBegun(s') && op.id in s'.db.players)
      && (reply == None <==> !HasBegun(s') && op.id !in s'.db.players)
  {
    DecisiveState(env, s, run, t, op, reply);
  }

  /**
   * A start: not while a question is open; a finished game has no more questions if
   * two players are left, or else is finished; and a list can be exhausted otherwise
   * only because its last round was lost.
   */
  lemma StartIsTold(env: Env, s: Sys, run: seq<Action>, t: nat, reply: Option<Error>)
    requires env.Valid() && Init(env, s) && TimelyRun(env, s, run)
    requires CallIsTold(env, Exec(env, s, run), t, StartOp, reply)
    ensures
      var s' := Exec(env, s, run);
      var survivors, left := |Active(s'.db.players)|, env.Total() - s'.db.progress.idx - 1;
      && (reply == Some(QuestionStillOpen) <==> !BetweenQuestions(s'))
      && (reply == Some(GameFinished) <==> HasEnded(s') && survivors <= 1)
      && (reply == Some(NoMoreQuestions) <==>
            if HasEnded(s') then survivors >= 2 else BetweenQuestions(s') && left <= 0)
      && (reply == None <==> !HasEnded(s') && BetweenQuestions(s') && left >= 1)
  {
    DecisiveState(env, s, run, t, StartOp, reply);
  }

  /** A close: only of a game under way, and of a question not closed yet; a deadline's only of its own. */
  lemma CloseIsTold(env: Env, s: Sys, run: seq<Action>, t: nat, only: int, reply: Option<Error>)
    requires env.Valid() && Init(env, s) && TimelyRun(env, s, run)
    requires CallIsTold(env, Exec(env, s, run), t, CloseOp(only), reply)
    ensures
      var s' := Exec(env, s, run);
      var running, other := HasBegun(s') && !HasEnded(s'), only >= 0 && only != s'.db.progress.idx;
      && (reply == Some(GameNotRunning) <==> !running)
      && (reply == Some(NoActiveQuestion) <==> running && (BetweenQuestions(s') || other))
      && (reply == None <==> running && !BetweenQuestions(s') && !other)
  {
    DecisiveState(env, s, run, t, CloseOp(only), reply);
  }

  // ----- submissions

  /** The reply to a submission that loads and records in one step. */
  function Atomic(env: Env, db: Db, sub: Submission): Option<Error> {
    if !Exists(db) then Some(GameNotFound)
    else SubmitError(env, db.progress, db.players, Stored(db, db.progress.idx), sub)
  }

  /** The atomic replies in all states of a run. */
  ghost function AtomicReplies(env: Env, s: Sys, run: seq<Action>, sub: Submission): set<Option<Error>>
    decreases |run|
  {
    {Atomic(env, s.db, sub)} + if run == [] then {} else AtomicReplies(env, Step(env, s, run[0]), run[1..], sub)
  }

  /** The reply of thread t's submission, if its next command decides it. */
  function Answered(env: Env, s: Sys, t: nat): Option<Option<Error>> {
    match At(s, t)
    case AskedPlayers(sub, p, players) =>
      var error := SubmitError(env, p, players, Stored(s.db, p.idx), sub);
      if error.Some? then Some(error) else None
    case Submitting(sub, p, _) => Some(RecordAnswer(env, s.db, p.idx, sub.player, sub.option).0)
    case _ => None
  }

  predicate Out(players: Players, id: string) {
    id in players && !players[id].active
  }

  /** The close that ended the game is the one that eliminated the player. */
  predicate OutAtTheEnd(g: Game, id: string) {
    g.status == Finished && Out(g.players, id) && g.rounds != [] && id in g.rounds[|g.rounds| - 1].losers
  }

  predicate OutBeforeTheEnd(g: Game, id: string) {
    Out(g.players, id) && !OutAtTheEnd(g, id)
  }

  /** What a snapshot of the progress implies about the replies given since, for a player who was active then. */
  ghost predicate ProgressWasSeen(env: Env, db: Db, p: Progress, sub: Submission, replies: set<Option<Error>>) {
    if !p.open || !(0 <= p.idx < env.Total()) then Some(NoActiveQuestion) in replies
    else if env.questions[p.idx].id != sub.question then Some(WrongQuestion) in replies
    else
      && (sub.player in Stored(db, p.idx) ==> Some(AlreadyAnswered) in replies)
      && (sub.option !in env.questions[p.idx].options && sub.player !in Entries(db, p.idx) ==>
            Some(InvalidOption) in replies)
      && ((db.progress.open && db.progress.idx == p.idx && !Out(db.players, sub.player)) || Some(NoActiveQuestion) in replies)
  }

  /** The same for any player, whose record was read as `out` later or not yet. */
  ghost predicate SnapshotWasSeen(env: Env, db: Db, p: Progress, out: bool, sub: Submission, replies: set<Option<Error>>) {
    if p.status != Running then Some(GameNotRunning) in replies
    else
      && db.progress.status != Waiting
      && (if sub.player !in db.players then Some(PlayerNotFound) in replies
          else out || ProgressWasSeen(env, db, p, sub, replies))
  }

  ghost predicate WasSeen(env: Env, db: Db, th: Thread, sub: Submission, replies: set<Option<Error>>) {
    match th
    case AskedProgress(x, p) => x == sub ==> SnapshotWasSeen(env, db, p, Out(db.players, sub.player), sub, replies)
    case AskedPlayers(x, p, players) => x == sub ==> PlayersWereSeen(env, db, p, players, sub, replies)
    case Submitting(x, p, players) => x == sub ==> PlayersWereSeen(env, db, p, players, sub, replies)
    case _ => true
  }

  ghost predicate PlayersWereSeen(env: Env, db: Db, p: Progress, players: Players, sub: Submission,
                                  replies: set<Option<Error>>)
  {
    var out := Out(players, sub.player);
    && SnapshotWasSeen(env, db, p, out, sub, replies)
    && (p.status == Running ==> (sub.player in players <==> sub.player in db.players))
    && (p.status == Running && out ==> Out(db.players, sub.player))
  }

  // ----- one step

  lemma StepSettles(env: Env, s: Sys, a: Action)
    requires env.Valid() && SysInv(env, s) && Timely(s)
    ensures Settled(Abs(s), Abs(Step(env, s, a)))
  {
    StepRefines(env, s, a);
    MoveSettles(env, Abs(s), MoveOf(env, s, a));
  }

  lemma EntriesByRecord(env: Env, s: Sys, a: Action, k: int)
    requires !(a.Advance? && At(s, a.t).Submitting?)
    ensures Entries(Step(env, s, a).db, k) == Entries(s.db, k)
  {
  }

  lemma StoredByRecord(env: Env, s: Sys, a: Action, k: int, id: string)
    requires !(a.Advance? && At(s, a.t).Submitting?)
    ensures id in Stored(Step(env, s, a).db, k) ==> id in Stored(s.db, k)
  {
    EntriesByRecord(env, s, a, k);
  }

  lemma RecordedEntry(env: Env, s: Sys, t: nat, k: int, id: string)
    requires At(s, t).Submitting?
    requires
      var db := Step(env, s, Advance(t)).db;
      (id in Stored(db, k) && id !in Stored(s.db, k)) || (id in Entries(db, k) && id !in Entries(s.db, k))
    ensures s.db.progress.idx == k && At(s, t).sub.player == id && MoveOf(env, s, Advance(t)).Answer?
  {
  }

  lemma RecordIsLegal(env: Env, s: Sys, t: nat)
    requires env.Valid() && SysInv(env, s) && Timely(s) && At(s, t).Submitting? && MoveOf(env, s, Advance(t)).Answer?
    ensures
      var db, id := s.db, At(s, t).sub.player;
      && Step(env, s, Advance(t)).db == db.(answers := Step(env, s, Advance(t)).db.answers)
      && db.progress.status == Running && db.progress.open && 0 <= db.progress.idx < env.Total()
      && id in db.players && db.players[id].active && id !in Entries(db, db.progress.idx)
  {
    RecordedAbs(env, s, t);
    assert AnswersTo(Abs(s), s.db.progress.idx) == Entries(s.db, s.db.progress.idx);
  }

  /** An answer that was not there is one just accepted. */
  lemma NewEntry(env: Env, s: Sys, a: Action, k: int, id: string)
    requires env.Valid() && SysInv(env, s) && Timely(s)
    requires
      var db := Step(env, s, a).db;
      (id in Stored(db, k) && id !in Stored(s.db, k)) || (id in Entries(db, k) && id !in Entries(s.db, k))
    ensures
      var db := Step(env, s, a).db;
      && db.progress == s.db.progress && db.players == s.db.players && db.now == s.db.now
      && db.progress.status == Running && db.progress.open && db.progress.idx == k && 0 <= k < env.Total()
      && id in db.players && db.players[id].active
      && id !in Entries(s.db, k)
  {
    if a.Advance? && At(s, a.t).Submitting? {
      RecordedEntry(env, s, a.t, k, id);
      RecordIsLegal(env, s, a.t);
    } else {
      EntriesByRecord(env, s, a, k);
      StoredByRecord(env, s, a, k, id);
    }
  }

  lemma NotWhileOpen(env: Env, s: Sys, t: nat)
    requires env.Valid() && SysInv(env, s) && Timely(s) && s.db.progress.open
    ensures
      var th := At(s, t);
      && !th.Stamped? && !th.Scheduled? && !th.Closing?
      && (th.Loaded? && th.op.JoinOp? ==> JoinError(th.progress, th.players, th.op.id).Some?)
  {
    assert Abs(s).open && Abs(s).status == Running;
    if t in s.threads { assert Fresh(env, s.db, s.threads[t]); }
  }

  /** An open question stays as it is until its answers are taken. */
  lemma OpenUntilTaken(env: Env, s: Sys, a: Action)
    requires env.Valid() && SysInv(env, s) && Timely(s) && s.db.progress.open
    ensures
      var db := Step(env, s, a).db;
      db.players == s.db.players && db.progress == s.db.progress.(open := db.progress.open)
  {
    if a.Advance? { NotWhileOpen(env, s, a.t); }
  }

  lemma SnapshotTaken(env: Env, db: Db, sub: Submission, replies: set<Option<Error>>)
    requires Exists(db) && Atomic(env, db, sub) in replies
    ensures SnapshotWasSeen(env, db, db.progress, Out(db.players, sub.player), sub, replies)
  {
  }

  lemma EntriesGrow(env: Env, s: Sys, a: Action, k: int, id: string)
    requires env.Valid() && SysInv(env, s) && Timely(s)
    ensures id in Entries(s.db, k) ==> id in Entries(Step(env, s, a).db, k)
  {
    var s' := Step(env, s, a);
    StepSettles(env, s, a);
    assert Entries(s'.db, k) == AnswersTo(Abs(s'), k) && Entries(s.db, k) == AnswersTo(Abs(s), k);
  }

  /** The moment the answers are taken is one at which the question is no longer active. */
  lemma TakingIsSeen(env: Env, s: Sys, a: Action, sub: Submission)
    requires env.Valid() && SysInv(env, s) && Timely(s) && Timely(Step(env, s, a))
    requires s.db.progress.open && sub.player in s.db.players && s.db.players[sub.player].active
    ensures
      var db := Step(env, s, a).db;
      || (db.progress.open && db.progress.idx == s.db.progress.idx && db.players == s.db.players)
      || Atomic(env, db, sub) == Some(NoActiveQuestion)
  {
    OpenUntilTaken(env, s, a);
    assert Abs(s).open && Abs(s).status == Running;
  }

  lemma ProgressStaysSeen(env: Env, s: Sys, a: Action, p: Progress, sub: Submission, replies: set<Option<Error>>)
    requires env.Valid() && SysInv(env, s) && Timely(s) && Timely(Step(env, s, a))
    requires ProgressWasSeen(env, s.db, p, sub, replies) && sub.player in s.db.players
    ensures
      var db := Step(env, s, a).db;
      ProgressWasSeen(env, db, p, sub, replies + {Atomic(env, db, sub)})
  {
    var db := Step(env, s, a).db;
    EntriesGrow(env, s, a, p.idx, sub.player);
    if sub.player in Stored(db, p.idx) && sub.player !in Stored(s.db, p.idx) {
      NewEntry(env, s, a, p.idx, sub.player);
    }
    if s.db.progress.open && s.db.progress.idx == p.idx && !Out(s.db.players, sub.player) {
      TakingIsSeen(env, s, a, sub);
    }
  }

  lemma SnapshotStaysSeen(env: Env, s: Sys, a: Action, p: Progress, out: bool, out': bool, sub: Submission,
                          replies: set<Option<Error>>)
    requires env.Valid() && SysInv(env, s) && Timely(s) && Timely(Step(env, s, a))
    requires SnapshotWasSeen(env, s.db, p, out, sub, replies) && (out ==> out')
    ensures
      var db := Step(env, s, a).db;
      SnapshotWasSeen(env, db, p, out', sub, replies + {Atomic(env, db, sub)})
  {
    StepSettles(env, s, a);
    if p.status == Running && sub.player in s.db.players && !out {
      ProgressStaysSeen(env, s, a, p, sub, replies);
    }
  }

  /** A thread that does not move goes on knowing what it knew. */
  lemma ThreadStaysSeen(env: Env, s: Sys, a: Action, th: Thread, sub: Submission, replies: set<Option<Error>>)
    requires env.Valid() && SysInv(env, s) && Timely(s) && Timely(Step(env, s, a))
    requires WasSeen(env, s.db, th, sub, replies)
    ensures
      var db := Step(env, s, a).db;
      WasSeen(env, db, th, sub, replies + {Atomic(env, db, sub)})
  {
    StepSettles(env, s, a);
    var db := Step(env, s, a).db;
    if th.AskedProgress? && th.sub == sub {
      SnapshotStaysSeen(env, s, a, th.progress, Out(s.db.players, sub.player), Out(db.players, sub.player), sub, replies);
    } else if (th.AskedPlayers? || th.Submitting?) && th.sub == sub {
      var out := Out(th.players, sub.player);
      SnapshotStaysSeen(env, s, a, th.progress, out, out, sub, replies);
    }
  }

  /** A submission's own reads. */
  lemma ReadIsSeen(env: Env, s: Sys, t: nat, sub: Submission, replies: set<Option<Error>>)
    requires Timely(s) && WasSeen(env, s.db, At(s, t), sub, replies) && Atomic(env, s.db, sub) in replies
    ensures var s' := Step(env, s, Advance(t)); WasSeen(env, s'.db, At(s', t), sub, replies)
  {
    var th := At(s, t);
    if th.Asking? && th.sub == sub {
      SnapshotTaken(env, s.db, sub, replies);
    }
  }

  lemma StepSees(env: Env, s: Sys, a: Action, t: nat, sub: Submission, replies: set<Option<Error>>)
    requires env.Valid() && SysInv(env, s) && Timely(s) && Timely(Step(env, s, a))
    requires WasSeen(env, s.db, At(s, t), sub, replies) && Atomic(env, s.db, sub) in replies
    ensures
      var s' := Step(env, s, a);
      WasSeen(env, s'.db, At(s', t), sub, replies + {Atomic(env, s'.db, sub)})
  {
    var s' := Step(env, s, a);
    if At(s', t) == At(s, t) {
      ThreadStaysSeen(env, s, a, At(s, t), sub, replies);
    } else if a == Advance(t) {
      ReadIsSeen(env, s, t, sub, replies);
      MoreReplies(env, s'.db, At(s', t), sub, replies, replies + {Atomic(env, s'.db, sub)});
    } else {
      OthersMoved(env, s, a, t);
    }
  }

  lemma MoreReplies(env: Env, db: Db, th: Thread, sub: Submission, replies: set<Option<Error>>, more: set<Option<Error>>)
    requires WasSeen(env, db, th, sub, replies) && replies <= more
    ensures WasSeen(env, db, th, sub, more)
  {
  }

  /** Whatever else changes a thread makes it forget. */
  lemma OthersMoved(env: Env, s: Sys, a: Action, t: nat)
    requires a != Advance(t) && At(Step(env, s, a), t) != At(s, t)
    ensures var th := At(Step(env, s, a), t); !th.AskedProgress? && !th.AskedPlayers? && !th.Submitting?
  {
    if a.Advance? && t in s.threads { OnlyOneMoves(env, s, a.t, t); }
  }

  // ----- elimination

  /** A player is out before the end if that was so already, or if the game still runs without the player. */
  lemma MoveOuts(env: Env, g: Game, m: Move, id: string)
    requires env.Valid() && Inv(env, g) && CanMove(env, g, m)
    ensures
      var h := Moved(env, g, m);
      OutBeforeTheEnd(h, id) <==> OutBeforeTheEnd(g, id) || (h.status == Running && Out(h.players, id))
  {
    MoveKeepsInv(env, g, m);
    NobodyOutWhileWaiting(env, g, id);
    NobodyOutWhileWaiting(env, Moved(env, g, m), id);
  }

  lemma NobodyOutWhileWaiting(env: Env, g: Game, id: string)
    requires env.Valid() && Inv(env, g)
    ensures g.status == Waiting ==> !Out(g.players, id)
  {
    if g.status == Waiting && id in g.players {
      assert g.rounds == [] && g.players[id].lives == env.lives;
    }
  }

  /** "Eliminated" has been an atomic reply exactly if the player was out before the end. */
  ghost predicate OutWasSeen(s: Sys, sub: Submission, replies: set<Option<Error>>) {
    Some(PlayerEliminated) in replies <==> OutBeforeTheEnd(Abs(s), sub.player)
  }

  lemma OutAtStart(env: Env, s: Sys, sub: Submission)
    requires env.Valid() && SysInv(env, s) && Timely(s) && s.db.progress.status != Finished
    ensures OutWasSeen(s, sub, {Atomic(env, s.db, sub)})
  {
    NobodyOutWhileWaiting(env, Abs(s), sub.player);
  }

  lemma OutStaysSeen(env: Env, s: Sys, a: Action, sub: Submission, replies: set<Option<Error>>)
    requires env.Valid() && SysInv(env, s) && Timely(s) && Timely(Step(env, s, a))
    requires OutWasSeen(s, sub, replies)
    ensures var s' := Step(env, s, a); OutWasSeen(s', sub, replies + {Atomic(env, s'.db, sub)})
  {
    StepRefines(env, s, a);
    MoveOuts(env, Abs(s), MoveOf(env, s, a), sub.player);
  }

  // ----- invalid options

  /** Question ids are keys of the catalog. */
  ghost predicate DistinctQuestions(env: Env) {
    forall i, j :: 0 <= i < j < env.Total() ==> env.questions[i].id != env.questions[j].id
  }

  predicate Asks(env: Env, k: int, sub: Submission) {
    0 <= k < env.Total() && env.questions[k].id == sub.question
  }

  /** What the player's answers to question k, those at the start of the call and later ones, say about the replies since. */
  ghost predicate InvalidKnown(env: Env, start: Db, db: Db, k: int, sub: Submission, replies: set<Option<Error>>)
    requires 0 <= k < env.Total()
  {
    var before, now := sub.player in Entries(start, k), sub.player in Entries(db, k);
    && (before ==> now)
    && (now && !before && sub.option !in env.questions[k].options ==> Some(InvalidOption) in replies)
    && (before && DistinctQuestions(env) ==> Some(InvalidOption) !in replies)
  }

  ghost predicate InvalidWasSeen(env: Env, start: Db, db: Db, sub: Submission, replies: set<Option<Error>>) {
    forall k :: Asks(env, k, sub) ==> InvalidKnown(env, start, db, k, sub, replies)
  }

  lemma AnsweredIsNotInvalid(env: Env, s: Sys, k: int, sub: Submission)
    requires SysInv(env, s) && Timely(s) && DistinctQuestions(env)
    requires Asks(env, k, sub) && sub.player in Entries(s.db, k)
    ensures Atomic(env, s.db, sub) != Some(InvalidOption)
  {
    var idx := s.db.progress.idx;
    if Asks(env, idx, sub) { assert idx == k; }
  }

  /** Just before its first answer a player with an invalid option would have been told so. */
  lemma FirstAnswer(env: Env, s: Sys, a: Action, k: int, sub: Submission)
    requires env.Valid() && SysInv(env, s) && Timely(s)
    requires Asks(env, k, sub) && sub.option !in env.questions[k].options
    requires sub.player in Entries(Step(env, s, a).db, k) && sub.player !in Entries(s.db, k)
    ensures Atomic(env, s.db, sub) == Some(InvalidOption)
  {
    NewEntry(env, s, a, k, sub.player);
  }

  lemma InvalidStaysSeen(env: Env, start: Db, s: Sys, a: Action, sub: Submission, replies: set<Option<Error>>)
    requires env.Valid() && SysInv(env, s) && Timely(s) && Timely(Step(env, s, a)) && SysInv(env, Step(env, s, a))
    requires InvalidWasSeen(env, start, s.db, sub, replies) && Atomic(env, s.db, sub) in replies
    ensures var db := Step(env, s, a).db; InvalidWasSeen(env, start, db, sub, replies + {Atomic(env, db, sub)})
  {
    var s' := Step(env, s, a);
    var replies' := replies + {Atomic(env, s'.db, sub)};
    forall k | Asks(env, k, sub) ensures InvalidKnown(env, start, s'.db, k, sub, replies') {
      assert InvalidKnown(env, start, s.db, k, sub, replies);
      EntriesGrow(env, s, a, k, sub.player);
      if sub.player in Entries(s'.db, k) && sub.player !in Entries(s.db, k) && sub.option !in env.questions[k].options {
        FirstAnswer(env, s, a, k, sub);
      }
      if DistinctQuestions(env) && sub.player in Entries(start, k) { AnsweredIsNotInvalid(env, s', k, sub); }
    }
  }

  lemma InvalidAtStart(env: Env, s: Sys, sub: Submission)
    requires SysInv(env, s) && Timely(s)
    ensures InvalidWasSeen(env, s.db, s.db, sub, {Atomic(env, s.db, sub)})
  {
    forall k | Asks(env, k, sub) ensures InvalidKnown(env, s.db, s.db, k, sub, {Atomic(env, s.db, sub)}) {
      if DistinctQuestions(env) && sub.player in Entries(s.db, k) { AnsweredIsNotInvalid(env, s, k, sub); }
    }
  }

  // ----- the reply

  /** All that is known about a submission in progress since `start`. */
  ghost predicate Tracked(env: Env, start: Db, s: Sys, t: nat, sub: Submission, replies: set<Option<Error>>) {
    && Atomic(env, s.db, sub) in replies
    && WasSeen(env, s.db, At(s, t), sub, replies)
    && OutWasSeen(s, sub, replies)
    && InvalidWasSeen(env, start, s.db, sub, replies)
  }

  lemma {:induction false} RunTracks(env: Env, start: Db, s: Sys, run: seq<Action>, t: nat, sub: Submission,
                                     replies: set<Option<Error>>)
    requires env.Valid() && SysInv(env, s) && TimelyRun(env, s, run) && Tracked(env, start, s, t, sub, replies)
    ensures SysInv(env, Exec(env, s, run)) && Timely(Exec(env, s, run))
    ensures Tracked(env, start, Exec(env, s, run), t, sub, replies + AtomicReplies(env, s, run, sub))
    decreases |run|
  {
    if run == [] {
      assert replies + AtomicReplies(env, s, run, sub) == replies;
    } else {
      var s' := Step(env, s, run[0]);
      var more := replies + {Atomic(env, s'.db, sub)};
      StepRefines(env, s, run[0]);
      StepSees(env, s, run[0], t, sub, replies);
      OutStaysSeen(env, s, run[0], sub, replies);
      InvalidStaysSeen(env, start, s, run[0], sub, replies);
      RunTracks(env, start, s', run[1..], t, sub, more);
      assert replies + AtomicReplies(env, s, run, sub) == more + AtomicReplies(env, s', run[1..], sub) by {
        assert Atomic(env, s'.db, sub) in AtomicReplies(env, s', run[1..], sub);
      }
    }
  }

  /** Whether the reply is that of some moment of the call, given the store at its start. */
  ghost predicate Explained(env: Env, start: Db, s: Sys, t: nat, replies: set<Option<Error>>)
    requires Answered(env, s, t).Some?
  {
    var sub, k, reply := At(s, t).sub, At(s, t).progress.idx, Answered(env, s, t).value;
    if reply == Some(PlayerEliminated) then reply in replies <==> !OutAtTheEnd(Abs(s), sub.player)
    else if reply == Some(InvalidOption) then
      && (sub.player !in Entries(start, k) ==> reply in replies)
      && (sub.player in Entries(start, k) && DistinctQuestions(env) ==> reply !in replies)
    else reply in replies
  }

  lemma ReplyIsExplained(env: Env, start: Db, s: Sys, t: nat, replies: set<Option<Error>>)
    requires env.Valid() && SysInv(env, s) && Timely(s) && Answered(env, s, t).Some?
    requires Tracked(env, start, s, t, At(s, t).sub, replies)
    ensures Explained(env, start, s, t, replies)
  {
    assert Fresh(env, s.db, At(s, t));
    RecordedAnswerIsAtomic(env, s, t);
    if Answered(env, s, t).value == Some(InvalidOption) {
      var sub, k := At(s, t).sub, At(s, t).progress.idx;
      assert Asks(env, k, sub) && InvalidKnown(env, start, s.db, k, sub, replies);
    }
  }

  lemma RecordedAnswerIsAtomic(env: Env, s: Sys, t: nat)
    requires env.Valid() && SysInv(env, s) && Timely(s)
    ensures At(s, t).Submitting? && Answered(env, s, t) == Some(None) ==> Atomic(env, s.db, At(s, t).sub) == None
  {
    if At(s, t).Submitting? && Answered(env, s, t) == Some(None) {
      assert Fresh(env, s.db, At(s, t));
      RecordStep(env, s, t);
      RecordedAnswerIsValid(env, s, t);
    }
  }

  // ----- once the game is over

  predicate AskedTooLate(s: Sys, t: nat, sub: Submission) {
    var th := At(s, t);
    && s.db.progress.status == Finished
    && ((th.AskedProgress? || th.AskedPlayers?) && th.sub == sub ==> th.progress.status == Finished)
    && !(th.Submitting? && th.sub == sub)
  }

  lemma StepTooLate(env: Env, s: Sys, a: Action, t: nat, sub: Submission)
    requires env.Valid() && SysInv(env, s) && Timely(s) && AskedTooLate(s, t, sub)
    ensures AskedTooLate(Step(env, s, a), t, sub)
  {
    var s' := Step(env, s, a);
    StepSettles(env, s, a);
    assert Abs(s').status == s'.db.progress.status;
    if At(s', t) != At(s, t) && a != Advance(t) { OthersMoved(env, s, a, t); }
  }

  lemma {:induction false} StaysTooLate(env: Env, s: Sys, run: seq<Action>, t: nat, sub: Submission)
    requires env.Valid() && SysInv(env, s) && TimelyRun(env, s, run) && AskedTooLate(s, t, sub)
    ensures AskedTooLate(Exec(env, s, run), t, sub) && Timely(Exec(env, s, run))
    ensures Some(GameNotRunning) in AtomicReplies(env, s, run, sub)
    decreases |run|
  {
    if run != [] {
      StepRefines(env, s, run[0]);
      StepTooLate(env, s, run[0], t, sub);
      StaysTooLate(env, Step(env, s, run[0]), run[1..], t, sub);
    }
  }

  // ----- the theorem

  /**
   * A submission takes no lock and reads the game piece by piece. In any timely run,
   * its reply, success included, is the one an atomic submission would get at some
   * moment between its start and its reply, with two exceptions, which are exact:
   * "eliminated" if the player was eliminated by the very close that ended the game,
   * and "invalid option" if the player had answered that question before the call.
   */
  lemma SubmissionReply(env: Env, s: Sys, run: seq<Action>, more: seq<Action>, t: nat, sub: Submission)
    requires env.Valid() && Init(env, s) && TimelyRun(env, s, run)
    requires At(Exec(env, s, run), t) == Asking(sub)
    requires TimelyRun(env, Exec(env, s, run), more)
    requires
      var s' := Exec(env, Exec(env, s, run), more);
      Answered(env, s', t).Some? && At(s', t).sub == sub
    ensures
      var start := Exec(env, s, run);
      Explained(env, start.db, Exec(env, start, more), t, AtomicReplies(env, start, more, sub))
  {
    InitIsNewGame(env, s);
    RunRefines(env, s, run);
    var start := Exec(env, s, run);
    if start.db.progress.status == Finished {
      StaysTooLate(env, start, more, t, sub);
    } else {
      var replies := {Atomic(env, start.db, sub)};
      OutAtStart(env, start, sub);
      InvalidAtStart(env, start, sub);
      RunTracks(env, start.db, start, more, t, sub, replies);
      assert replies + AtomicReplies(env, start, more, sub) == AtomicReplies(env, start, more, sub);
      ReplyIsExplained(env, start.db, Exec(env, start, more), t, AtomicReplies(env, start, more, sub));
    }
  }
}
