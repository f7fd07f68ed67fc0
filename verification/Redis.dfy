/**
 * One game's keys in Redis and the atomic commands on them: each function below is
 * one command, one MULTI/EXEC block or one script. `Db` is what the keys hold;
 * `GameStateStore` is the same store as an object whose fields the commands update.
 */
module Redis {
  import opened Domain

  const LockTTL: int := 10_000

  /** An answers hash and the time (ms) at which it expires. */
  datatype AnswerHash = AnswerHash(entries: Answers, expiry: int)

  datatype Lease = Lease(token: nat, expiry: int)

  /**
   * `expiry` is that of the meta, questions and players keys, which are always given
   * the same one. `deadlines` is this game's part of the shared deadline set: question
   * index to score. `now` is the server's clock in milliseconds.
   */
  datatype Db = Db(progress: Progress, players: Players, expiry: int, answers: map<int, AnswerHash>,
                   lock: Option<Lease>, deadlines: map<int, int>, now: int)

  function Seconds(n: int): int { 1000 * n }

  predicate Exists(db: Db) { db.now < db.expiry }

  /** What HGETALL finds under the answers key of question idx. */
  function Stored(db: Db, idx: int): Answers {
    if idx in db.answers && db.now < db.answers[idx].expiry then db.answers[idx].entries else map[]
  }

  /** Every answer recorded for question idx, whether or not its key has expired since. */
  function Entries(db: Db, idx: int): Answers {
    if idx in db.answers then db.answers[idx].entries else map[]
  }

  function FoundPlayers(db: Db): Players {
    if Exists(db) then db.players else map[]
  }

  predicate LockFree(db: Db) {
    db.lock.None? || db.lock.value.expiry <= db.now
  }

  function SetNX(db: Db, token: nat): (r: (bool, Db)) {
    if LockFree(db) then (true, db.(lock := Some(Lease(token, db.now + LockTTL)))) else (false, db)
  }

  function Unlock(db: Db, token: nat): Db {
    if !LockFree(db) && db.lock.value.token == token then db.(lock := None) else db
  }

  function AddPlayer(env: Env, db: Db, id: string, player: Player): Db {
    db.(players := db.players[id := player], expiry := db.now + Seconds(env.idleTTL))
  }

  /** Writes the progress fields and the given players, and nothing else of the game. */
  function Save(env: Env, db: Db, progress: Progress, changed: Players): Db {
    var ttl := Seconds(if progress.status == Finished then env.finishedTTL else env.idleTTL);
    db.(progress := progress,
        players := db.players + changed,
        expiry := db.now + ttl,
        answers := if progress.status == Finished then Refreshed(db, progress.idx, ttl) else db.answers)
  }

  /** EXPIRE on the answers keys 0..last; it does nothing to a key that is already gone. */
  function Refreshed(db: Db, last: int, ttl: int): map<int, AnswerHash> {
    map k | k in db.answers ::
      if 0 <= k <= last && db.now < db.answers[k].expiry
      then db.answers[k].(expiry := db.now + ttl)
      else db.answers[k]
  }

  /** The script behind SubmitAnswer: it refuses anything but a player's first answer while the question is open. */
  function RecordAnswer(env: Env, db: Db, idx: int, player: string, option: string): (Option<Error>, Db) {
    if !Exists(db) then (Some(GameNotFound), db)
    else if db.progress.status != Running then (Some(GameNotRunning), db)
    else if !db.progress.open || db.progress.idx != idx then (Some(NoActiveQuestion), db)
    else if player in Stored(db, idx) then (Some(AlreadyAnswered), db)
    else
      var hash := AnswerHash(Stored(db, idx)[player := option], db.now + Seconds(env.idleTTL));
      (None, db.(answers := db.answers[idx := hash]))
  }

  /** The script behind a close: if idx is the open question, no more answers, and here are those given. */
  function CloseAnswers(db: Db, idx: int): (Option<Answers>, Db) {
    if !Exists(db) || !db.progress.open || db.progress.idx != idx then (None, db)
    else (Some(Stored(db, idx)), db.(progress := db.progress.(open := false)))
  }

  function ScheduleClose(db: Db, idx: int, at: int): Db {
    db.(deadlines := db.deadlines[idx := at])
  }

  function CancelClose(db: Db, idx: int): Db {
    db.(deadlines := db.deadlines - {idx})
  }

  /** The claim script may take any of the deadlines reached at `at`; `Deadlines` says which. */
  predicate Claimable(db: Db, at: int, due: set<int>) {
    forall k :: k in due ==> k in db.deadlines && db.deadlines[k] <= at
  }

  function ClaimDue(db: Db, due: set<int>): Db {
    db.(deadlines := db.deadlines - due)
  }

  /** A game as Create stores it. */
  predicate Created(env: Env, db: Db) {
    && db.progress.(start := 0) == Progress(Waiting, -1, false, 0, NotOver)
    && db.players == map[] && db.answers == map[] && db.deadlines == map[] && db.lock == None
    && db.expiry == db.now + Seconds(env.idleTTL)
  }
}
