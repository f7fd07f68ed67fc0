/** The game's keys in Redis as an object: each method is one atomic command on its fields. */
module Store {
  import opened Domain
  import opened Rules
  import opened Redis

  class GameStateStore {
    const env: Env
    var progress: Progress
    var players: Players
    var expiry: int
    var answers: map<int, AnswerHash>
    var lock: Option<Lease>
    var deadlines: map<int, int>
    var now: int
    var tokens: nat

    ghost function View(): Db
      reads this
    {
      Db(progress, players, expiry, answers, lock, deadlines, now)
    }

    /** Create: a game that is waiting, with no players. */
    constructor (env: Env, now: int)
      ensures this.env == env && this.now == now && Created(env, View())
    {
      this.env, this.now, tokens := env, now, 0;
      progress := Progress(Waiting, -1, false, 0, NotOver);
      players, answers, deadlines, lock := map[], map[], map[], None;
      expiry := now + Seconds(env.idleTTL);
    }

    /** Everything a transition looks at, in a fresh State. */
    method Load() returns (r: Result<State>)
      ensures r.Err? <==> !Exists(View())
      ensures r.Err? ==> r.error == GameNotFound
      ensures r.Ok? ==> fresh(r.value) && LoadedAs(r.value, progress)
      ensures r.Ok? ==> r.value.players == players && r.value.answers == Stored(View(), progress.idx)
    {
      if now >= expiry { return Err(GameNotFound); }
      var current, taken := None, map[];
      if progress.idx >= 0 {
        if progress.idx < env.Total() { current := Some(env.questions[progress.idx]); }
      }
      if progress.idx in answers && now < answers[progress.idx].expiry { taken := answers[progress.idx].entries; }
      var s := new State(env.Total(), progress.status, progress.idx, progress.open, progress.start, progress.reason,
                         players, current, taken);
      return Ok(s);
    }

    /** The state has these progress fields and the question they point at. */
    ghost predicate LoadedAs(s: State, p: Progress)
      reads s
    {
      && s.total == env.Total()
      && s.Fields() == p
      && s.current == (if 0 <= p.idx < env.Total() then Some(env.questions[p.idx]) else None)
    }

    /** One attempt at the lock, with a token never used before. */
    method SetNX() returns (ok: bool, token: nat)
      modifies this`lock, this`tokens
      ensures tokens == old(tokens) + 1 && token == old(tokens)
      ensures (ok, View()) == Redis.SetNX(old(View()), token)
    {
      token := tokens;
      tokens := tokens + 1;
      ok := lock.None? || lock.value.expiry <= now;
      if ok { lock := Some(Lease(token, now + LockTTL)); }
    }

    method Unlock(token: nat)
      modifies this`lock
      ensures View() == Redis.Unlock(old(View()), token)
    {
      if lock.Some? && now < lock.value.expiry && lock.value.token == token { lock := None; }
    }

    method AddPlayer(id: string, player: Player)
      modifies this`players, this`expiry
      ensures View() == Redis.AddPlayer(env, old(View()), id, player)
    {
      players := players[id := player];
      expiry := now + Seconds(env.idleTTL);
    }

    /** EXPIRE on the answers keys of the questions 0..last; keys already gone stay gone. */
    method RefreshAnswers(last: int, ttl: int)
      modifies this`answers
      ensures answers == Refreshed(old(View()), last, ttl)
    {
      ghost var before := View();
      var i := 0;
      while i <= last
        invariant 0 <= i && (i <= last + 1 || i == 0)
        invariant answers == Refreshed(before, i - 1, ttl)
      {
        if i in answers && now < answers[i].expiry {
          answers := answers[i := answers[i].(expiry := now + ttl)];
        }
        i := i + 1;
      }
    }

    /** Writes the progress fields and the given players; a finished game's answers stay as long as the rest. */
    method Save(p: Progress, changed: Players)
      modifies this`progress, this`players, this`expiry, this`answers
      ensures View() == Redis.Save(env, old(View()), p, changed)
    {
      progress := p;
      players := players + changed;
      if p.status == Finished {
        expiry := now + Seconds(env.finishedTTL);
        RefreshAnswers(p.idx, Seconds(env.finishedTTL));
      } else {
        expiry := now + Seconds(env.idleTTL);
      }
    }

    method RecordAnswer(idx: int, player: string, option: string) returns (error: Option<Error>)
      modifies this`answers
      ensures (error, View()) == Redis.RecordAnswer(env, old(View()), idx, player, option)
    {
      if now >= expiry { return Some(GameNotFound); }
      if progress.status != Running { return Some(GameNotRunning); }
      if !progress.open || progress.idx != idx { return Some(NoActiveQuestion); }
      var hash := map[];
      if idx in answers && now < answers[idx].expiry { hash := answers[idx].entries; }
      if player in hash { return Some(AlreadyAnswered); }
      answers := answers[idx := AnswerHash(hash[player := option], now + Seconds(env.idleTTL))];
      return None;
    }

    method CloseAnswers(idx: int) returns (taken: Option<Answers>)
      modifies this`progress
      ensures (taken, View()) == Redis.CloseAnswers(old(View()), idx)
    {
      if now >= expiry || !progress.open || progress.idx != idx { return None; }
      progress := progress.(open := false);
      return Some(if idx in answers && now < answers[idx].expiry then answers[idx].entries else map[]);
    }

    method ScheduleClose(idx: int, at: int)
      modifies this`deadlines
      ensures View() == Redis.ScheduleClose(old(View()), idx, at)
    {
      deadlines := deadlines[idx := at];
    }

    method CancelClose(idx: int)
      modifies this`deadlines
      ensures View() == Redis.CancelClose(old(View()), idx)
    {
      deadlines := deadlines - {idx};
    }
  }
}
