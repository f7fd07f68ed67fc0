/**
 * The engine's calls, each run by itself: on a store whose lock is free every call
 * either is one move of the sequential game or changes nothing, and says which.
 */
module Engine {
  import opened Domain
  import opened Rules
  import opened Checks
  import opened Redis
  import opened Game
  import opened Store

  /** The sequential game a quiet store shows, given the rounds played so far. */
  ghost function Shown(db: Db, rounds: seq<Round>): Game {
    Game(db.progress.status, db.progress.idx, db.progress.open, db.progress.reason, db.players,
         (map k | k in db.answers :: db.answers[k].entries), rounds)
  }

  /** The answers to the open question live as long as the game. */
  predicate AnswersLast(db: Db) {
    db.progress.open && db.progress.idx in db.answers ==> db.answers[db.progress.idx].expiry >= db.expiry
  }

  /** A store between two transitions. */
  ghost predicate Quiescent(env: Env, db: Db, rounds: seq<Round>) {
    env.Valid() && Inv(env, Shown(db, rounds)) && AnswersLast(db)
  }

  lemma MoveShown(env: Env, db: Db, rounds: seq<Round>, m: Move)
    requires Quiescent(env, db, rounds) && CanMove(env, Shown(db, rounds), m)
    ensures Inv(env, Moved(env, Shown(db, rounds), m))
  {
    MoveKeepsInv(env, Shown(db, rounds), m);
  }

  lemma StartShown(env: Env, db: Db, db': Db, rounds: seq<Round>)
    requires Quiescent(env, db, rounds) && StartError(env, db.progress).None?
    requires db'.progress == Started(db.progress, db'.progress.start)
    requires db'.players == db.players && db'.answers == db.answers
    ensures CanMove(env, Shown(db, rounds), Start) && Shown(db', rounds) == Moved(env, Shown(db, rounds), Start)
    ensures Quiescent(env, db', rounds)
  {
    assert db'.progress.idx !in Shown(db, rounds).answers;
    MoveShown(env, db, rounds, Start);
  }

  lemma CloseShown(env: Env, db: Db, db': Db, rounds: seq<Round>) returns (rounds': seq<Round>)
    requires Quiescent(env, db, rounds) && CloseError(db.progress, -1).None?
    requires 0 <= db.progress.idx < env.Total()
    requires db'.players == Penalized(db.players, Entries(db, db.progress.idx), env.Correct(db.progress.idx))
    requires db'.progress == Scored(env, db.progress, db'.players)
    requires db'.answers.Keys == db.answers.Keys
    requires forall k :: k in db.answers ==> db'.answers[k].entries == db.answers[k].entries
    ensures CanMove(env, Shown(db, rounds), Close) && Shown(db', rounds') == Moved(env, Shown(db, rounds), Close)
    ensures Quiescent(env, db', rounds')
  {
    var g := Shown(db, rounds);
    assert AnswersTo(g, g.idx) == Entries(db, g.idx);
    rounds' := Moved(env, g, Close).rounds;
    forall k | k in db.answers ensures Shown(db', rounds').answers[k] == g.answers[k] {
      assert k in db'.answers;
    }
    assert Shown(db', rounds').answers == g.answers;
    MoveShown(env, db, rounds, Close);
  }

  /** The store after a close, command by command. */
  lemma ClosedDb(env: Env, db: Db, rounds: seq<Round>, after: Players, changed: Players) returns (rounds': seq<Round>)
    requires Quiescent(env, db, rounds) && Exists(db) && CloseError(db.progress, -1).None?
    requires 0 <= db.progress.idx < env.Total()
    requires after == Penalized(db.players, Entries(db, db.progress.idx), env.Correct(db.progress.idx))
    requires db.players + changed == after
    ensures
      var idx := db.progress.idx;
      var (taken, closed) := Redis.CloseAnswers(db, idx);
      var db' := Redis.CancelClose(Redis.Save(env, closed, Scored(env, db.progress, after), changed), idx);
      && taken == Some(Entries(db, idx))
      && CanMove(env, Shown(db, rounds), Close) && Shown(db', rounds') == Moved(env, Shown(db, rounds), Close)
      && Exists(db') && Quiescent(env, db', rounds')
  {
    var idx := db.progress.idx;
    var closed := Redis.CloseAnswers(db, idx).1;
    var db' := Redis.CancelClose(Redis.Save(env, closed, Scored(env, db.progress, after), changed), idx);
    rounds' := CloseShown(env, db, db', rounds);
  }

  class Engine {
    const store: GameStateStore

    constructor (store: GameStateStore)
      ensures this.store == store
    {
      this.store := store;
    }

    method AddPlayer(id: string, name: string, actor: string, ghost rounds: seq<Round>) returns (error: Option<Error>)
      requires Quiescent(store.env, store.View(), rounds)
      modifies store
      ensures error == if !LockFree(old(store.View())) then Some(Busy)
                       else if !Exists(old(store.View())) then Some(GameNotFound)
                       else JoinError(old(store.progress), old(store.players), id)
      ensures Shown(store.View(), rounds) ==
              if error.None? then Moved(store.env, old(Shown(store.View(), rounds)), Join(id, name, actor))
              else old(Shown(store.View(), rounds))
      ensures error != Some(Busy) ==> LockFree(store.View())
      ensures Quiescent(store.env, store.View(), rounds)
    {
      ghost var g := Shown(store.View(), rounds);
      var ok, token := store.SetNX();
      if !ok { return Some(Busy); }
      var r := store.Load();
      if r.Err? {
        error := Some(r.error);
      } else {
        error := JoinError(r.value.Fields(), r.value.players, id);
        if error.None? {
          store.AddPlayer(id, NewPlayer(store.env, name, actor));
          MoveShown(store.env, old(store.View()), rounds, Join(id, name, actor));
          assert Shown(store.View(), rounds) == Moved(store.env, g, Join(id, name, actor));
        }
      }
      store.Unlock(token);
    }

    /** Opens the next question, and registers its deadline if answers are timed. */
    method StartNextQuestion(ghost rounds: seq<Round>) returns (error: Option<Error>)
      requires Quiescent(store.env, store.View(), rounds)
      modifies store
      ensures error == if !LockFree(old(store.View())) then Some(Busy)
                       else if !Exists(old(store.View())) then Some(GameNotFound)
                       else StartError(store.env, old(store.progress))
      ensures Shown(store.View(), rounds) ==
              if error.None? then Moved(store.env, old(Shown(store.View(), rounds)), Start)
              else old(Shown(store.View(), rounds))
      ensures error.None? ==> store.progress.start == store.now == old(store.now)
      ensures store.deadlines ==
              if error.None? && store.env.timeout > 0
              then old(store.deadlines)[store.progress.idx := store.progress.start + 1000 * store.env.timeout]
              else old(store.deadlines)
      ensures error != Some(Busy) ==> LockFree(store.View())
      ensures Quiescent(store.env, store.View(), rounds)
    {
      var ok, token := store.SetNX();
      if !ok { return Some(Busy); }
      var r := store.Load();
      if r.Err? {
        error := Some(r.error);
      } else {
        error := StartError(store.env, r.value.Fields());
        if error.None? { Open(r.value, rounds); }
      }
      store.Unlock(token);
    }

    /** The part of a start after its checks, under the lock. */
    method Open(s: State, ghost rounds: seq<Round>)
      requires Quiescent(store.env, store.View(), rounds)
      requires store.LoadedAs(s, store.progress) && StartError(store.env, store.progress).None?
      modifies store, s
      ensures CanMove(store.env, old(Shown(store.View(), rounds)), Start)
      ensures Shown(store.View(), rounds) == Moved(store.env, old(Shown(store.View(), rounds)), Start)
      ensures store.progress.start == store.now == old(store.now)
      ensures store.deadlines ==
              if store.env.timeout > 0
              then old(store.deadlines)[store.progress.idx := store.progress.start + 1000 * store.env.timeout]
              else old(store.deadlines)
      ensures store.lock == old(store.lock)
      ensures Quiescent(store.env, store.View(), rounds)
    {
      s.status, s.currentIdx, s.questionOpen, s.questionStart := Running, s.currentIdx + 1, true, store.now;
      if store.env.timeout > 0 {
        store.ScheduleClose(s.currentIdx, s.questionStart + Seconds(store.env.timeout));
      }
      store.Save(s.Fields(), map[]);
      StartShown(store.env, old(store.View()), store.View(), rounds);
    }

    /** Takes no lock and needs no quiet store: a close may be under way, and the game in any shape. */
    method SubmitAnswer(sub: Submission, ghost rounds: seq<Round>) returns (error: Option<Error>)
      requires AnswersLast(store.View())
      modifies store
      ensures error == if !Exists(old(store.View())) then Some(GameNotFound)
                       else SubmitError(store.env, old(store.progress), old(store.players),
                                        Entries(old(store.View()), old(store.progress).idx), sub)
      ensures Shown(store.View(), rounds) ==
              if error.None? then Moved(store.env, old(Shown(store.View(), rounds)), Answer(sub.player, sub.option))
              else old(Shown(store.View(), rounds))
      ensures store.lock == old(store.lock) && store.deadlines == old(store.deadlines)
    {
      ghost var g := Shown(store.View(), rounds);
      var r := store.Load();
      if r.Err? { return Some(r.error); }
      var s := r.value;
      error := SubmitError(store.env, s.Fields(), s.players, s.answers, sub);
      if error.None? {
        error := store.RecordAnswer(s.currentIdx, sub.player, sub.option);
        assert Stored(old(store.View()), s.currentIdx) == AnswersTo(g, s.currentIdx);
        assert Shown(store.View(), rounds) == Moved(store.env, g, Answer(sub.player, sub.option));
      }
    }

    /**
     * Closes the open question: the answers are taken, the penalties applied, and the
     * players who lost a life written back. With `only` >= 0 it closes no other question.
     */
    method CloseQuestion(only: int, ghost rounds: seq<Round>) returns (r: Result<CloseResult>, ghost rounds': seq<Round>)
      requires Quiescent(store.env, store.View(), rounds)
      modifies store
      ensures ErrorOf(r) == if !LockFree(old(store.View())) then Some(Busy)
                            else if !Exists(old(store.View())) then Some(GameNotFound)
                            else CloseError(old(store.progress), only)
      ensures r.Err? ==> rounds' == rounds && Shown(store.View(), rounds) == old(Shown(store.View(), rounds))
                         && store.deadlines == old(store.deadlines) && store.progress == old(store.progress)
      ensures r.Ok? ==>
                && CanMove(store.env, old(Shown(store.View(), rounds)), Close)
                && Shown(store.View(), rounds') == Moved(store.env, old(Shown(store.View(), rounds)), Close)
                && (only >= 0 ==> store.progress.idx == only) && !store.progress.open
                && store.deadlines == old(store.deadlines) - {store.progress.idx}
                && Reports(r.value, old(store.players), Entries(old(store.View()), old(store.progress).idx),
                           store.env.Correct(store.progress.idx), store.env.Total() - store.progress.idx - 1)
      ensures if LockFree(old(store.View())) then LockFree(store.View()) else store.View() == old(store.View())
      ensures Exists(store.View()) <==> Exists(old(store.View()))
      ensures Quiescent(store.env, store.View(), rounds')
    {
      rounds' := rounds;
      var ok, token := store.SetNX();
      if !ok { return Err(Busy), rounds; }
      var loaded := store.Load();
      if loaded.Err? {
        r := Err(loaded.error);
      } else {
        var error := CloseError(loaded.value.Fields(), only);
        if error.Some? {
          r := Err(error.value);
        } else {
          var result;
          result, rounds' := CloseLoaded(loaded.value, rounds);
          r := Ok(result);
        }
      }
      store.Unlock(token);
    }

    /** The part of a close after its checks, under the lock. */
    method CloseLoaded(s: State, ghost rounds: seq<Round>) returns (result: CloseResult, ghost rounds': seq<Round>)
      requires Quiescent(store.env, store.View(), rounds) && Exists(store.View())
      requires store.LoadedAs(s, store.progress) && s.players == store.players
      requires CloseError(store.progress, -1).None?
      modifies store, s
      ensures CanMove(store.env, old(Shown(store.View(), rounds)), Close)
      ensures Shown(store.View(), rounds') == Moved(store.env, old(Shown(store.View(), rounds)), Close)
      ensures Reports(result, old(store.players), Entries(old(store.View()), old(store.progress).idx),
                      store.env.Correct(store.progress.idx), store.env.Total() - store.progress.idx - 1)
      ensures store.deadlines == old(store.deadlines) - {store.progress.idx}
      ensures store.lock == old(store.lock) && store.now == old(store.now) && Exists(store.View())
      ensures Quiescent(store.env, store.View(), rounds')
    {
      ghost var env, before := store.env, store.View();
      var taken := store.CloseAnswers(s.currentIdx);
      assert taken == Some(Entries(before, before.progress.idx));
      var changed;
      result, changed := Score(s, taken.value);
      store.Save(s.Fields(), changed);
      store.CancelClose(s.currentIdx);
      rounds' := ClosedDb(env, before, rounds, s.players, changed);
    }

    /** Applies the penalties to the loaded state; `changed` are the records to write back. */
    method Score(s: State, taken: Answers) returns (result: CloseResult, changed: Players)
      requires s.current.Some? && s.total == store.env.Total()
      modifies s
      ensures s.players == Penalized(old(s.players), taken, old(s.current).value.correct)
      ensures s.Fields() == Scored(store.env, old(s.Fields()), s.players)
      ensures Reports(result, old(s.players), taken, old(s.current).value.correct, old(s.RemainingQuestions()))
      ensures old(s.players) + changed == s.players
    {
      s.questionOpen, s.answers := false, taken;
      var livesAfter;
      result, livesAfter := s.ApplyPenalties();
      changed := ChangedPlayers(s, result.lifeLost);
    }

    /** The records of the players who lost a life. */
    method ChangedPlayers(s: State, ids: seq<string>) returns (changed: Players)
      requires forall id :: id in ids ==> id in s.players
      ensures changed == map id | id in ids :: s.players[id]
    {
      changed := map[];
      for i := 0 to |ids|
        invariant changed == map id | id in ids[..i] :: s.players[id]
      {
        assert ids[..i + 1] == ids[..i] + [ids[i]];
        changed := changed[ids[i] := s.players[ids[i]]];
      }
      assert ids[..|ids|] == ids;
    }

    /**
     * Closes what the claimed deadlines are for: the open question, once, if its
     * deadline is among them. A busy lock, a game that is gone and deadlines of other
     * questions leave everything as it is.
     */
    method CloseDue(due: seq<int>, ghost rounds: seq<Round>) returns (closed: int, ghost rounds': seq<Round>)
      requires Quiescent(store.env, store.View(), rounds)
      modifies store
      ensures closed == if CloseIsDue(old(store.View()), due) then 1 else 0
      ensures Shown(store.View(), rounds') ==
              if closed == 1 then Moved(store.env, old(Shown(store.View(), rounds)), Close)
              else old(Shown(store.View(), rounds))
      ensures Quiescent(store.env, store.View(), rounds')
    {
      closed, rounds' := 0, rounds;
      ghost var before, g := store.View(), Shown(store.View(), rounds);
      ghost var ready := LockFree(before) && Exists(before) && before.progress.open;
      for i := 0 to |due|
        invariant Quiescent(store.env, store.View(), rounds')
        invariant Exists(store.View()) <==> Exists(before)
        invariant LockFree(store.View()) <==> LockFree(before)
        invariant closed == if ready && IsFor(due[..i], before.progress.idx) then 1 else 0
        invariant if closed == 1
                  then CanMove(store.env, g, Close) && Shown(store.View(), rounds') == Moved(store.env, g, Close)
                       && !store.progress.open
                  else Shown(store.View(), rounds') == g && store.progress == before.progress
      {
        DueGrows(due, i, before.progress.idx);
        OpenIsRunning(store.env, store.View(), rounds');
        var r;
        r, rounds' := CloseQuestion(due[i], rounds');
        if r.Ok? { closed := closed + 1; }
      }
      assert due[..|due|] == due;
    }
  }

  /** An index below 0, which no member carries, would close any question. */
  predicate Wants(d: int, k: int) { d < 0 || d == k }

  predicate IsFor(due: seq<int>, k: int) {
    exists i :: 0 <= i < |due| && Wants(due[i], k)
  }

  predicate CloseIsDue(db: Db, due: seq<int>) {
    LockFree(db) && Exists(db) && db.progress.open && IsFor(due, db.progress.idx)
  }

  lemma DueGrows(due: seq<int>, i: nat, k: int)
    requires i < |due|
    ensures IsFor(due[..i + 1], k) <==> IsFor(due[..i], k) || Wants(due[i], k)
  {
    if IsFor(due[..i], k) {
      var j :| 0 <= j < i && Wants(due[..i][j], k);
      assert Wants(due[..i + 1][j], k);
    }
    if Wants(due[i], k) { assert Wants(due[..i + 1][i], k); }
    if IsFor(due[..i + 1], k) {
      var j :| 0 <= j < i + 1 && Wants(due[..i + 1][j], k);
      if j < i { assert Wants(due[..i][j], k); }
    }
  }

  lemma OpenIsRunning(env: Env, db: Db, rounds: seq<Round>)
    requires Quiescent(env, db, rounds)
    ensures db.progress.open ==> db.progress.status == Running
  {
  }

  function ErrorOf<T>(r: Result<T>): Option<Error> {
    if r.Err? then Some(r.error) else None
  }
}
