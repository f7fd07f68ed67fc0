/** What holds in every run of the protocol, stated about the store. */
module Safety {
  import opened Domain
  import opened Rules
  import opened Checks
  import opened Redis
  import opened Game
  import opened GameLaws
  import opened Protocol
  import opened LockSafety
  import opened Refinement

  // ----- runs refine plays

  ghost function MovesOf(env: Env, s: Sys, run: seq<Action>): seq<Move>
    decreases |run|
  {
    if run == [] then [] else [MoveOf(env, s, run[0])] + MovesOf(env, Step(env, s, run[0]), run[1..])
  }

  lemma InitIsNewGame(env: Env, s: Sys)
    requires env.Valid() && Init(env, s)
    ensures SysInv(env, s) && Abs(s) == NewGame
  {
    NewGameInv(env);
    assert Abs(s).answers == map[];
  }

  lemma {:induction false} RunRefines(env: Env, s: Sys, run: seq<Action>)
    requires env.Valid() && SysInv(env, s) && TimelyRun(env, s, run)
    ensures SysInv(env, Exec(env, s, run)) && Timely(Exec(env, s, run))
    ensures Legal(env, Abs(s), MovesOf(env, s, run))
    ensures Abs(Exec(env, s, run)) == Play(env, Abs(s), MovesOf(env, s, run))
    decreases |run|
  {
    if run != [] {
      StepRefines(env, s, run[0]);
      RunRefines(env, Step(env, s, run[0]), run[1..]);
      assert MovesOf(env, s, run)[1..] == MovesOf(env, Step(env, s, run[0]), run[1..]);
    }
  }

  /**
   * Every run from a new game, whatever joins, starts, answers, closes, claims, faults
   * and crashes it interleaves, is a legal play of the sequential game.
   */
  lemma EveryRunIsAPlay(env: Env, s: Sys, run: seq<Action>)
    requires env.Valid() && Init(env, s) && TimelyRun(env, s, run)
    ensures Legal(env, NewGame, MovesOf(env, s, run))
    ensures Abs(Exec(env, s, run)) == Play(env, NewGame, MovesOf(env, s, run))
    ensures SysInv(env, Exec(env, s, run))
  {
    InitIsNewGame(env, s);
    RunRefines(env, s, run);
  }

  // ----- accepted answers

  /**
   * In any run, when the record script says ok, all that was checked on an earlier,
   * piecemeal Load is true at that instant.
   */
  lemma AcceptedAnswerIsValid(env: Env, s: Sys, run: seq<Action>, t: nat, sub: Submission)
    requires env.Valid() && Init(env, s) && TimelyRun(env, s, run)
    ensures
      var db, th := Exec(env, s, run).db, At(Exec(env, s, run), t);
      th.Submitting? && th.sub == sub && RecordAnswer(env, db, th.progress.idx, sub.player, sub.option).0.None? ==>
        var after := Step(env, Exec(env, s, run), Advance(t)).db;
        && db.progress.status == Running && db.progress.open && 0 <= db.progress.idx < env.Total()
        && sub.player in db.players && db.players[sub.player].active
        && env.questions[db.progress.idx].id == sub.question
        && sub.option in env.questions[db.progress.idx].options
        && sub.player !in Entries(db, db.progress.idx)
        && after.answers.Keys == db.answers.Keys + {db.progress.idx}
        && Entries(after, db.progress.idx) == Entries(db, db.progress.idx)[sub.player := sub.option]
  {
    EveryRunIsAPlay(env, s, run);
    InitIsNewGame(env, s);
    RunRefines(env, s, run);
    var s' := Exec(env, s, run);
    if At(s', t).Submitting? && At(s', t).sub == sub { RecordedAnswerIsValid(env, s', t); }
  }

  lemma RecordedAnswerIsValid(env: Env, s: Sys, t: nat)
    requires env.Valid() && SysInv(env, s) && Timely(s) && At(s, t).Submitting?
    ensures
      var Submitting(sub, p, _) := At(s, t);
      var (error, db) := RecordAnswer(env, s.db, p.idx, sub.player, sub.option);
      error.None? ==>
        && CanMove(env, Abs(s), Answer(sub.player, sub.option))
        && env.questions[s.db.progress.idx].id == sub.question
        && db.answers.Keys == s.db.answers.Keys + {s.db.progress.idx}
        && Entries(db, s.db.progress.idx) == Entries(s.db, s.db.progress.idx)[sub.player := sub.option]
  {
    assert Fresh(env, s.db, At(s, t));
    RecordStep(env, s, t);
  }

  /**
   * In any run, a close that succeeds has taken every answer ever accepted for its
   * question, though the key they are kept under has an expiry of its own.
   */
  lemma CloseTakesEveryAnswer(env: Env, s: Sys, run: seq<Action>, t: nat)
    requires env.Valid() && Init(env, s) && TimelyRun(env, s, run)
    ensures
      var before, after := Exec(env, s, run), Step(env, Exec(env, s, run), Advance(t));
      At(before, t).Loaded? && At(after, t).Closing? ==>
        && before.db.progress.open && !after.db.progress.open
        && At(after, t).progress == before.db.progress
        && At(after, t).taken == Entries(before.db, before.db.progress.idx)
  {
    EveryRunIsAPlay(env, s, run);
    InitIsNewGame(env, s);
    RunRefines(env, s, run);
    var before := Exec(env, s, run);
    var th := At(before, t);
    if th.Loaded? && th.op.CloseOp? && CloseError(th.progress, th.op.only).None? {
      assert Fresh(env, before.db, th);
      TakeStep(env, before, t);
    }
  }

  /** In no run, crashes included, does an accepted correct answer cost a life. */
  lemma CorrectAnswersAreSafe(env: Env, s: Sys, run: seq<Action>, k: nat, id: string)
    requires env.Valid() && Init(env, s) && TimelyRun(env, s, run)
    ensures
      var s' := Exec(env, s, run);
      k < |s'.rounds| && id in Entries(s'.db, k) && k < env.Total() && Entries(s'.db, k)[id] == env.Correct(k) ==>
        id !in s'.rounds[k].losers
  {
    EveryRunIsAPlay(env, s, run);
    var s' := Exec(env, s, run);
    if k < |s'.rounds| { RoundsAreFair(env, Abs(s'), k, id); }
  }

  /**
   * In every state of every run the stored lives are the initial ones minus one for
   * each saved close at which the player still had a life and had no accepted correct
   * answer, and nothing else.
   */
  lemma LivesAreAccountedFor(env: Env, s: Sys, run: seq<Action>, id: string)
    requires env.Valid() && Init(env, s) && TimelyRun(env, s, run)
    ensures
      var s' := Exec(env, s, run);
      id in s'.db.players ==>
        && s'.db.players[id].lives == env.lives - Hits(s'.rounds, id) >= 0
        && (s'.db.players[id].active <==> s'.db.players[id].lives > 0)
    ensures
      var s' := Exec(env, s, run);
      forall k :: 0 <= k < |s'.rounds| ==>
        && s'.rounds[k].idx == k < env.Total()
        && (id in s'.rounds[k].losers <==>
              && s'.rounds[k].scored
              && id in s'.db.players
              && env.lives > Hits(s'.rounds[..k], id)
              && !(id in Entries(s'.db, k) && Entries(s'.db, k)[id] == env.Correct(k)))
  {
    EveryRunIsAPlay(env, s, run);
    var s' := Exec(env, s, run);
    assert s'.rounds[..|s'.rounds|] == s'.rounds;
    forall k | 0 <= k < |s'.rounds|
      ensures s'.rounds[k].idx == k < env.Total()
      ensures id in s'.rounds[k].losers <==>
              && s'.rounds[k].scored
              && id in s'.db.players
              && env.lives > Hits(s'.rounds[..k], id)
              && !(id in Entries(s'.db, k) && Entries(s'.db, k)[id] == env.Correct(k))
    {
      RoundsAreFair(env, Abs(s'), k, id);
      assert AnswersTo(Abs(s'), k) == Entries(s'.db, k);
    }
  }

  /** Summed over players: lives left plus lives lost is what everybody joined with. */
  lemma StoredLivesAreConserved(env: Env, s: Sys, run: seq<Action>)
    requires env.Valid() && Init(env, s) && TimelyRun(env, s, run)
    ensures
      var s' := Exec(env, s, run);
      LivesOf(s'.db.players, s'.db.players.Keys) + Losses(s'.rounds) == |s'.db.players| * env.lives
  {
    EveryRunIsAPlay(env, s, run);
    NewGameInv(env);
    NewGameConserved(env);
    LivesAreConserved(env, NewGame, MovesOf(env, s, run));
    assert Conserved(env, Abs(Exec(env, s, run)));
    StakesIsProduct(|Exec(env, s, run).db.players|, env.lives);
  }

  // ----- at most once

  /** Steps of a run that save or lose the penalties of question k. */
  ghost function ClosesIn(env: Env, s: Sys, run: seq<Action>, k: int): nat
    decreases |run|
  {
    if run == [] then 0
    else
      var m := MoveOf(env, s, run[0]);
      (if (m.Close? || m.Void?) && s.db.progress.idx == k then 1 else 0)
      + ClosesIn(env, Step(env, s, run[0]), run[1..], k)
  }

  lemma {:induction false} ClosesInIsClosesOf(env: Env, s: Sys, run: seq<Action>, k: int)
    requires env.Valid() && SysInv(env, s) && TimelyRun(env, s, run)
    ensures Legal(env, Abs(s), MovesOf(env, s, run))
    ensures ClosesIn(env, s, run, k) == ClosesOf(env, Abs(s), MovesOf(env, s, run), k)
    decreases |run|
  {
    RunRefines(env, s, run);
    if run != [] {
      StepRefines(env, s, run[0]);
      ClosesInIsClosesOf(env, Step(env, s, run[0]), run[1..], k);
      assert MovesOf(env, s, run)[1..] == MovesOf(env, Step(env, s, run[0]), run[1..]);
    }
  }

  /** Whatever host closes, deadline closes and crashes race, each question is scored or lost at most once. */
  lemma PenaltiesAtMostOnce(env: Env, s: Sys, run: seq<Action>, k: nat)
    requires env.Valid() && Init(env, s) && TimelyRun(env, s, run)
    ensures ClosesIn(env, s, run, k) == if k < |Exec(env, s, run).rounds| then 1 else 0
  {
    InitIsNewGame(env, s);
    EveryRunIsAPlay(env, s, run);
    ClosesInIsClosesOf(env, s, run, k);
    ClosedOnce(env, NewGame, MovesOf(env, s, run), k);
  }

  // ----- closed questions

  /** Question k can no longer be answered. */
  predicate ClosedAt(db: Db, k: int) {
    k < db.progress.idx || (k == db.progress.idx && !db.progress.open)
  }

  ghost predicate StaysClosed(db: Db, db': Db) {
    forall k :: ClosedAt(db, k) ==> ClosedAt(db', k) && Entries(db', k) == Entries(db, k)
  }

  lemma StepStaysClosed(env: Env, s: Sys, a: Action)
    requires env.Valid() && SysInv(env, s) && Timely(s)
    ensures StaysClosed(s.db, Step(env, s, a).db)
  {
    StepRefines(env, s, a);
    var s', m := Step(env, s, a), MoveOf(env, s, a);
    if m.Answer? {
      AnswerStaysClosed(env, s, a.t);
    } else {
      assert Abs(s').answers == Abs(s).answers;
      SameEntries(s, s');
      ReopensOnlyByStart(env, s, a);
    }
  }

  lemma AnswerStaysClosed(env: Env, s: Sys, t: nat)
    requires At(s, t).Submitting?
    ensures StaysClosed(s.db, Step(env, s, Advance(t)).db)
  {
  }

  lemma ReopensOnlyByStart(env: Env, s: Sys, a: Action)
    requires env.Valid() && SysInv(env, s) && Timely(s) && !MoveOf(env, s, a).Answer?
    ensures forall k :: ClosedAt(s.db, k) ==> ClosedAt(Step(env, s, a).db, k)
  {
    if a.Advance? && a.t in s.threads { assert Fresh(env, s.db, s.threads[a.t]); }
  }

  lemma SameEntries(s: Sys, s': Sys)
    requires Abs(s').answers == Abs(s).answers
    ensures forall k :: Entries(s'.db, k) == Entries(s.db, k)
  {
    forall k ensures Entries(s'.db, k) == Entries(s.db, k) {
      assert k in Abs(s).answers <==> k in s.db.answers;
      assert k in Abs(s').answers <==> k in s'.db.answers;
      assert Entries(s.db, k) == AnswersTo(Abs(s), k) && Entries(s'.db, k) == AnswersTo(Abs(s'), k);
    }
  }

  /** Once a question is closed in the store it never reopens, and its recorded answers never change. */
  lemma {:induction false} ClosedForGood(env: Env, s: Sys, run: seq<Action>)
    requires env.Valid() && SysInv(env, s) && TimelyRun(env, s, run)
    ensures StaysClosed(s.db, Exec(env, s, run).db)
    decreases |run|
  {
    if run != [] {
      StepStaysClosed(env, s, run[0]);
      StepRefines(env, s, run[0]);
      ClosedForGood(env, Step(env, s, run[0]), run[1..]);
    }
  }

  /** Between any two states of a run: accepted answers, eliminated players and finished games are settled. */
  lemma RunSettles(env: Env, s: Sys, run: seq<Action>)
    requires env.Valid() && SysInv(env, s) && TimelyRun(env, s, run)
    ensures Settled(Abs(s), Abs(Exec(env, s, run)))
  {
    RunRefines(env, s, run);
    PlaySettles(env, Abs(s), MovesOf(env, s, run));
  }

  // ----- when the lock is free

  lemma NothingPendingWhenFree(s: Sys)
    requires LockInv(s) && Timely(s) && LockFree(s.db)
    ensures !Pending(s.threads)
  {
    forall t | t in s.threads ensures !s.threads[t].Closing? {
    }
  }

  /** The meta hash is consistent whenever the lock is free; what is left to play depends on the last close only. */
  lemma LockFreeShape(env: Env, s: Sys, run: seq<Action>)
    requires env.Valid() && Init(env, s) && TimelyRun(env, s, run)
    requires LockFree(Exec(env, s, run).db)
    ensures
      var s' := Exec(env, s, run);
      var p := s'.db.progress;
      && -1 <= p.idx && (p.idx == -1 || p.idx < env.Total())
      && (p.status == Waiting <==> p.idx == -1)
      && (p.reason != NotOver <==> p.status == Finished)
      && (p.open ==> p.status == Running)
      && |s'.rounds| == p.idx + (if p.open then 0 else 1)
      && (p.status == Finished ==> p.reason == EndReason(|Active(s'.db.players)|, env.Total() - p.idx - 1))
      && (p.status == Finished ==>
            var left := |Active(s'.db.players)|;
            && (p.reason == LastPlayerStanding <==> left == 1)
            && (p.reason == AllEliminated <==> left == 0)
            && (p.reason == QuestionsExhausted <==> left >= 2)
            && (left >= 2 ==> p.idx + 1 == env.Total()))
      && (p.status == Running && !p.open && s'.rounds[p.idx].scored ==>
            |Active(s'.db.players)| >= 2 && p.idx + 1 < env.Total())
  {
    EveryRunIsAPlay(env, s, run);
    InitIsNewGame(env, s);
    RunRefines(env, s, run);
    NothingPendingWhenFree(Exec(env, s, run));
  }

  /**
   * With the lock free, an unfinished game can be started or closed, except in one
   * case: the very last question was closed and its penalties were lost. Only then is
   * the exhausted-list error of a start reachable.
   */
  lemma StuckExactlyWhenLastCloseLost(env: Env, s: Sys, run: seq<Action>)
    requires env.Valid() && Init(env, s) && TimelyRun(env, s, run) && env.Total() >= 1
    requires LockFree(Exec(env, s, run).db)
    ensures
      var s' := Exec(env, s, run);
      s'.db.progress.status != Finished ==>
        && (StartError(env, s'.db.progress) == Some(NoMoreQuestions) <==>
              |s'.rounds| == env.Total() && !s'.rounds[env.Total() - 1].scored)
        && (StartError(env, s'.db.progress) == None || CloseError(s'.db.progress, -1) == None <==>
              StartError(env, s'.db.progress) != Some(NoMoreQuestions))
  {
    LockFreeShape(env, s, run);
  }

  /** A closer fails or dies after taking the answers and before saving. */
  ghost predicate LosesRound(s: Sys, a: Action) {
    (a.Fail? || a.Crash?) && At(s, a.t).Closing?
  }

  ghost predicate Lossless(env: Env, s: Sys, run: seq<Action>)
    decreases |run|
  {
    run == [] || (!LosesRound(s, run[0]) && Lossless(env, Step(env, s, run[0]), run[1..]))
  }

  ghost predicate AllScored(rounds: seq<Round>) {
    forall k :: 0 <= k < |rounds| ==> rounds[k].scored
  }

  lemma ScoredAppend(rounds: seq<Round>, r: Round)
    ensures AllScored(rounds + [r]) <==> AllScored(rounds) && r.scored
  {
    if AllScored(rounds + [r]) {
      forall k | 0 <= k < |rounds| ensures rounds[k].scored { assert (rounds + [r])[k].scored; }
      assert (rounds + [r])[|rounds|].scored;
    }
  }

  lemma StepScores(env: Env, s: Sys, a: Action)
    requires env.Valid() && SysInv(env, s) && Timely(s)
    ensures AllScored(Step(env, s, a).rounds) <==> AllScored(s.rounds) && !LosesRound(s, a)
  {
    StepRefines(env, s, a);
    var rounds, rounds' := s.rounds, Step(env, s, a).rounds;
    assert LosesRound(s, a) <==> MoveOf(env, s, a) == Void;
    assert rounds' == Moved(env, Abs(s), MoveOf(env, s, a)).rounds;
    if MoveOf(env, s, a).Void? || MoveOf(env, s, a).Close? {
      var r := rounds'[|rounds|];
      assert rounds' == rounds + [r] && r.scored == !LosesRound(s, a);
      ScoredAppend(rounds, r);
    } else {
      assert rounds' == rounds;
    }
  }

  /** A round's penalties are lost exactly in runs in which a closer stops halfway. */
  lemma {:induction false} ScoredUnlessLost(env: Env, s: Sys, run: seq<Action>)
    requires env.Valid() && SysInv(env, s) && TimelyRun(env, s, run)
    ensures AllScored(Exec(env, s, run).rounds) <==> AllScored(s.rounds) && Lossless(env, s, run)
    decreases |run|
  {
    if run != [] {
      StepScores(env, s, run[0]);
      StepRefines(env, s, run[0]);
      ScoredUnlessLost(env, Step(env, s, run[0]), run[1..]);
    }
  }

  /**
   * If no closer stopped halfway, whatever else went wrong, then with the lock free an
   * unfinished game can go on: a running game has a question open, or two players and
   * a question left; the exhausted-list error of a start is out of reach.
   */
  lemma NeverStuck(env: Env, s: Sys, run: seq<Action>)
    requires env.Valid() && Init(env, s) && TimelyRun(env, s, run) && env.Total() >= 1
    requires Lossless(env, s, run) && LockFree(Exec(env, s, run).db)
    ensures
      var s' := Exec(env, s, run);
      var p := s'.db.progress;
      && (p.status == Running && !p.open ==> |Active(s'.db.players)| >= 2 && p.idx + 1 < env.Total())
      && (p.status != Finished ==> StartError(env, p) == None || CloseError(p, -1) == None)
      && (p.status != Finished ==> StartError(env, p) != Some(NoMoreQuestions))
  {
    InitIsNewGame(env, s);
    ScoredUnlessLost(env, s, run);
    LockFreeShape(env, s, run);
  }

  /** No run has more starts and closes than twice the questions. */
  lemma RunsAreFinite(env: Env, s: Sys, run: seq<Action>)
    requires env.Valid() && Init(env, s) && TimelyRun(env, s, run)
    ensures Transitions(MovesOf(env, s, run)) == 2 * env.Total() - Measure(env, Abs(Exec(env, s, run))) <= 2 * env.Total()
    ensures |Exec(env, s, run).rounds| <= env.Total()
  {
    EveryRunIsAPlay(env, s, run);
    NewGameInv(env);
    PlaysAreFinite(env, NewGame, MovesOf(env, s, run));
    InitIsNewGame(env, s);
    RunRefines(env, s, run);
  }
}
