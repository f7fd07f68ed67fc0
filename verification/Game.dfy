/**
 * The sequential game: joins, starts, answers and closes are single steps.
 * `Void` is the one step a healthy game never takes: the open question is closed
 * but its penalties are lost, because whoever was closing it died or failed
 * between reading the answers and saving.
 */
module Game {
  import opened Domain
  import opened Rules

  /** One closed question: who lost a life, and whether the penalties were saved at all. */
  datatype Round = Round(idx: int, losers: set<string>, scored: bool)

  datatype Game = Game(status: Status, idx: int, open: bool, reason: Reason, players: Players,
                       answers: map<int, Answers>, rounds: seq<Round>)

  datatype Move =
    | Stutter
    | Join(id: string, name: string, actor: string)
    | Start
    | Answer(player: string, option: string)
    | Close
    | Void

  const NewGame: Game := Game(Waiting, -1, false, NotOver, map[], map[], [])

  function AnswersTo(g: Game, k: int): Answers {
    if k in g.answers then g.answers[k] else map[]
  }

  predicate CanMove(env: Env, g: Game, m: Move) {
    match m
    case Stutter => true
    case Join(id, _, _) => g.status == Waiting && id !in g.players
    case Start => g.status != Finished && !g.open && g.idx + 1 < env.Total()
    case Answer(id, option) =>
      && g.status == Running && g.open && 0 <= g.idx < env.Total()
      && id in g.players && g.players[id].active
      && id !in AnswersTo(g, g.idx)
      && option in env.questions[g.idx].options
    case Close => g.status == Running && g.open && 0 <= g.idx < env.Total()
    case Void => g.status == Running && g.open
  }

  ghost function Moved(env: Env, g: Game, m: Move): Game
    requires CanMove(env, g, m)
  {
    match m
    case Stutter => g
    case Join(id, name, actor) => g.(players := g.players[id := Player(name, env.lives, true, actor)])
    case Start => g.(status := Running, idx := g.idx + 1, open := true)
    case Answer(id, option) => g.(answers := g.answers[g.idx := AnswersTo(g, g.idx)[id := option]])
    case Close => Closed(env, g)
    case Void => g.(open := false, rounds := g.rounds + [Round(g.idx, {}, false)])
  }

  ghost function Closed(env: Env, g: Game): Game
    requires 0 <= g.idx < env.Total()
  {
    var answers, correct := AnswersTo(g, g.idx), env.Correct(g.idx);
    var after := Penalized(g.players, answers, correct);
    var reason := EndReason(|Active(after)|, env.Total() - g.idx - 1);
    g.(open := false,
       players := after,
       status := if reason == NotOver then g.status else Finished,
       reason := if reason == NotOver then g.reason else reason,
       rounds := g.rounds + [Round(g.idx, Losers(g.players, answers, correct), true)])
  }

  // ----- the ledger

  /** How many of these rounds cost the player a life. */
  function Hits(rounds: seq<Round>, id: string): nat {
    if rounds == [] then 0
    else Hits(rounds[..|rounds| - 1], id) + if id in rounds[|rounds| - 1].losers then 1 else 0
  }

  lemma HitsAppend(rounds: seq<Round>, r: Round, id: string)
    ensures Hits(rounds + [r], id) == Hits(rounds, id) + if id in r.losers then 1 else 0
  {
    assert (rounds + [r])[..|rounds|] == rounds;
  }

  /** A player's lives before round k, as the ledger has them. */
  function LivesBefore(env: Env, rounds: seq<Round>, k: nat, id: string): int
    requires k <= |rounds|
  {
    env.lives - Hits(rounds[..k], id)
  }

  ghost predicate Shape(env: Env, g: Game) {
    && -1 <= g.idx
    && (g.idx == -1 || g.idx < env.Total())
    && (g.status == Waiting <==> g.idx == -1)
    && (g.reason != NotOver <==> g.status == Finished)
    && (g.open ==> g.status == Running)
    && |g.rounds| == g.idx + (if g.open then 0 else 1)
    && (forall k :: 0 <= k < |g.rounds| ==> g.rounds[k].idx == k)
    && (forall k :: k in g.answers ==> 0 <= k <= g.idx)
  }

  /** A joined player's choice among the options of question k. */
  ghost predicate ValidAnswer(env: Env, players: Players, k: int, id: string, option: string) {
    id in players && 0 <= k < env.Total() && option in env.questions[k].options
  }

  ghost predicate AnswersValid(env: Env, g: Game) {
    forall k, id :: k in g.answers && id in g.answers[k] ==> ValidAnswer(env, g.players, k, id, g.answers[k][id])
  }

  /**
   * Players are a function of the ledger, and the ledger a function of the answers:
   * round k cost a life exactly to those who still had one and did not answer k
   * correctly, provided its penalties were saved.
   */
  ghost predicate LivesTally(env: Env, g: Game) {
    forall id :: id in g.players ==>
      && g.players[id].lives == LivesBefore(env, g.rounds, |g.rounds|, id) >= 0
      && (g.players[id].active <==> g.players[id].lives > 0)
  }

  ghost predicate Owes(env: Env, g: Game, k: nat, id: string)
    requires k < |g.rounds| && k < env.Total()
  {
    && g.rounds[k].scored
    && id in g.players
    && LivesBefore(env, g.rounds, k, id) > 0
    && AnswerOf(AnswersTo(g, k), id) != env.Correct(k)
  }

  ghost predicate RoundsTally(env: Env, g: Game) {
    && |g.rounds| <= env.Total()
    && forall k, id :: 0 <= k < |g.rounds| ==> (id in g.rounds[k].losers <==> Owes(env, g, k, id))
  }

  ghost predicate LastScored(g: Game) {
    g.rounds != [] && g.rounds[|g.rounds| - 1].scored
  }

  /** What a saved close decides about the rest of the game. */
  ghost predicate Verdict(env: Env, g: Game) {
    && (g.status == Finished ==>
          LastScored(g) && g.reason == EndReason(|Active(g.players)|, env.Total() - g.idx - 1))
    && (g.status == Running && !g.open && LastScored(g) ==>
          |Active(g.players)| >= 2 && g.idx + 1 < env.Total())
  }

  ghost predicate Inv(env: Env, g: Game) {
    && Shape(env, g)
    && AnswersValid(env, g)
    && LivesTally(env, g)
    && RoundsTally(env, g)
    && Verdict(env, g)
  }

  lemma NewGameInv(env: Env)
    requires env.Valid()
    ensures Inv(env, NewGame)
  {
  }

  /** Every legal move keeps the invariant. */
  lemma MoveKeepsInv(env: Env, g: Game, m: Move)
    requires env.Valid() && Inv(env, g) && CanMove(env, g, m)
    ensures Inv(env, Moved(env, g, m))
  {
    match m
    case Stutter =>
    case Join(_, _, _) => JoinKeepsInv(env, g, m);
    case Start => StartKeepsInv(env, g);
    case Answer(_, _) => AnswerKeepsInv(env, g, m);
    case Close => CloseKeepsInv(env, g);
    case Void => VoidKeepsInv(env, g);
  }

  lemma JoinKeepsInv(env: Env, g: Game, m: Move)
    requires env.Valid() && Inv(env, g) && CanMove(env, g, m) && m.Join?
    ensures Inv(env, Moved(env, g, m))
  {
    assert g.rounds == [];
  }

  lemma StartKeepsInv(env: Env, g: Game)
    requires env.Valid() && Inv(env, g) && CanMove(env, g, Start)
    ensures Inv(env, Moved(env, g, Start))
  {
    var h := Moved(env, g, Start);
    forall k, id | 0 <= k < |h.rounds| ensures id in h.rounds[k].losers <==> Owes(env, h, k, id) {
      assert id in g.rounds[k].losers <==> Owes(env, g, k, id);
    }
  }

  lemma AnswerIsValid(env: Env, g: Game, m: Move)
    requires env.Valid() && Inv(env, g) && CanMove(env, g, m) && m.Answer?
    ensures AnswersValid(env, Moved(env, g, m))
  {
    var h := Moved(env, g, m);
    forall k, id | k in h.answers && id in h.answers[k]
      ensures ValidAnswer(env, h.players, k, id, h.answers[k][id])
    {
      if !(k == g.idx && id == m.player) {
        assert k in g.answers && id in g.answers[k] && h.answers[k][id] == g.answers[k][id];
      }
    }
  }

  lemma AnswerKeepsInv(env: Env, g: Game, m: Move)
    requires env.Valid() && Inv(env, g) && CanMove(env, g, m) && m.Answer?
    ensures Inv(env, Moved(env, g, m))
  {
    var h := Moved(env, g, m);
    forall k, id | 0 <= k < |h.rounds| ensures id in h.rounds[k].losers <==> Owes(env, h, k, id) {
      assert id in g.rounds[k].losers <==> Owes(env, g, k, id);
      assert AnswersTo(h, k) == AnswersTo(g, k);
    }
    AnswerIsValid(env, g, m);
  }

  /** Adding a round does not disturb the account of the earlier ones. */
  lemma AppendedRound(env: Env, g: Game, h: Game, r: Round)
    requires Shape(env, g) && g.open && RoundsTally(env, g)
    requires h.rounds == g.rounds + [r] && h.answers == g.answers && h.players.Keys == g.players.Keys
    ensures forall k, id :: 0 <= k < |g.rounds| ==> (id in h.rounds[k].losers <==> Owes(env, h, k, id))
    ensures forall id :: LivesBefore(env, h.rounds, |g.rounds|, id) == LivesBefore(env, g.rounds, |g.rounds|, id)
    ensures forall id :: LivesBefore(env, h.rounds, |h.rounds|, id) ==
                         LivesBefore(env, g.rounds, |g.rounds|, id) - if id in r.losers then 1 else 0
  {
    assert g.rounds[..|g.rounds|] == g.rounds && h.rounds[..|h.rounds|] == h.rounds;
    assert h.rounds[..|g.rounds|] == g.rounds;
    forall k, id | 0 <= k < |g.rounds| ensures id in h.rounds[k].losers <==> Owes(env, h, k, id) {
      assert id in g.rounds[k].losers <==> Owes(env, g, k, id);
      assert h.rounds[..k] == g.rounds[..k];
    }
    forall id ensures LivesBefore(env, h.rounds, |h.rounds|, id) ==
                      LivesBefore(env, g.rounds, |g.rounds|, id) - if id in r.losers then 1 else 0
    {
      HitsAppend(g.rounds, r, id);
    }
  }

  lemma CloseTallies(env: Env, g: Game)
    requires env.Valid() && Inv(env, g) && CanMove(env, g, Close)
    ensures LivesTally(env, Closed(env, g)) && RoundsTally(env, Closed(env, g))
  {
    var h := Closed(env, g);
    var r := h.rounds[|g.rounds|];
    AppendedRound(env, g, h, r);
    forall k, id | 0 <= k < |h.rounds| ensures id in h.rounds[k].losers <==> Owes(env, h, k, id) {
      if k == |g.rounds| {
        assert id in r.losers <==> id in g.players && Loses(g.players, AnswersTo(g, k), env.Correct(k), id);
        assert AnswersTo(h, k) == AnswersTo(g, k);
      }
    }
  }

  lemma CloseKeepsInv(env: Env, g: Game)
    requires env.Valid() && Inv(env, g) && CanMove(env, g, Close)
    ensures Inv(env, Moved(env, g, Close))
  {
    var h := Moved(env, g, Close);
    CloseTallies(env, g);
    assert Shape(env, h);
    assert LastScored(h);
  }

  lemma VoidKeepsInv(env: Env, g: Game)
    requires env.Valid() && Inv(env, g) && CanMove(env, g, Void)
    ensures Inv(env, Moved(env, g, Void))
  {
    var h := Moved(env, g, Void);
    AppendedRound(env, g, h, Round(g.idx, {}, false));
    forall k, id | 0 <= k < |h.rounds| ensures id in h.rounds[k].losers <==> Owes(env, h, k, id) {
    }
  }
}
