/** What the sequential game guarantees over whole plays. */
module GameLaws {
  import opened Domain
  import opened Rules
  import opened Game

  // ----- plays

  ghost predicate Legal(env: Env, g: Game, moves: seq<Move>)
    decreases |moves|
  {
    moves == [] || (CanMove(env, g, moves[0]) && Legal(env, Moved(env, g, moves[0]), moves[1..]))
  }

  ghost function Play(env: Env, g: Game, moves: seq<Move>): Game
    requires Legal(env, g, moves)
    decreases |moves|
  {
    if moves == [] then g else Play(env, Moved(env, g, moves[0]), moves[1..])
  }

  lemma {:induction false} PlayKeepsInv(env: Env, g: Game, moves: seq<Move>)
    requires env.Valid() && Inv(env, g) && Legal(env, g, moves)
    ensures Inv(env, Play(env, g, moves))
    decreases |moves|
  {
    if moves != [] {
      MoveKeepsInv(env, g, moves[0]);
      PlayKeepsInv(env, Moved(env, g, moves[0]), moves[1..]);
    }
  }

  // ----- who loses a life

  /**
   * A round whose penalties were saved took a life from exactly the players who still
   * had one and whose accepted answer, if any, was not the correct one. A round whose
   * penalties were lost took none. So no accepted correct answer ever costs a life.
   */
  lemma RoundsAreFair(env: Env, g: Game, k: nat, id: string)
    requires env.Valid() && Inv(env, g) && k < |g.rounds|
    ensures id in g.rounds[k].losers <==>
            && g.rounds[k].scored
            && id in g.players
            && LivesBefore(env, g.rounds, k, id) > 0
            && !(id in AnswersTo(g, k) && AnswersTo(g, k)[id] == env.Correct(k))
    ensures id in AnswersTo(g, k) && AnswersTo(g, k)[id] == env.Correct(k) ==> id !in g.rounds[k].losers
  {
    assert id in g.rounds[k].losers <==> Owes(env, g, k, id);
    assert env.questions[k] in env.questions;
  }

  // ----- lives are conserved

  ghost function LivesOf(players: Players, ids: set<string>): int
    requires ids <= players.Keys
  {
    if ids == {} then 0 else var id :| id in ids; players[id].lives + LivesOf(players, ids - {id})
  }

  function Losses(rounds: seq<Round>): nat {
    if rounds == [] then 0 else Losses(rounds[..|rounds| - 1]) + |rounds[|rounds| - 1].losers|
  }

  lemma {:induction false} LivesRemove(players: Players, ids: set<string>, id: string)
    requires ids <= players.Keys && id in ids
    ensures LivesOf(players, ids) == players[id].lives + LivesOf(players, ids - {id})
    decreases |ids|
  {
    var pick :| pick in ids && LivesOf(players, ids) == players[pick].lives + LivesOf(players, ids - {pick});
    if pick != id {
      LivesRemove(players, ids - {pick}, id);
      LivesRemove(players, ids - {id}, pick);
      assert ids - {pick} - {id} == ids - {id} - {pick};
    }
  }

  lemma {:induction false} LivesSame(before: Players, after: Players, ids: set<string>)
    requires ids <= before.Keys && ids <= after.Keys
    requires forall id :: id in ids ==> before[id].lives == after[id].lives
    ensures LivesOf(before, ids) == LivesOf(after, ids)
  {
    if ids != {} {
      var id :| id in ids;
      LivesRemove(before, ids, id);
      LivesRemove(after, ids, id);
      LivesSame(before, after, ids - {id});
    }
  }

  lemma {:induction false} LivesPenalized(players: Players, answers: Answers, correct: string, ids: set<string>)
    requires ids <= players.Keys
    ensures LivesOf(Penalized(players, answers, correct), ids) ==
            LivesOf(players, ids) - |Losers(players, answers, correct) * ids|
  {
    var after, losers := Penalized(players, answers, correct), Losers(players, answers, correct);
    if ids == {} {
      assert losers * ids == {};
    } else {
      var id :| id in ids;
      LivesRemove(players, ids, id);
      LivesRemove(after, ids, id);
      LivesPenalized(players, answers, correct, ids - {id});
      if id in losers {
        assert losers * ids == losers * (ids - {id}) + {id};
      } else {
        assert losers * ids == losers * (ids - {id});
      }
    }
  }

  /** What n players joined with. */
  function Stakes(n: nat, lives: int): int {
    if n == 0 then 0 else lives + Stakes(n - 1, lives)
  }

  lemma {:induction false} StakesIsProduct(n: nat, lives: int)
    ensures Stakes(n, lives) == n * lives
  {
    if n > 0 {
      StakesIsProduct(n - 1, lives);
      assert n * lives == (n - 1) * lives + lives;
    } else {
      assert n * lives == 0;
    }
  }

  ghost predicate Conserved(env: Env, g: Game) {
    LivesOf(g.players, g.players.Keys) + Losses(g.rounds) == Stakes(|g.players|, env.lives)
  }

  lemma NewGameConserved(env: Env)
    ensures Conserved(env, NewGame)
  {
  }

  lemma MoveConserves(env: Env, g: Game, m: Move)
    requires Inv(env, g) && CanMove(env, g, m) && Conserved(env, g)
    ensures Conserved(env, Moved(env, g, m))
  {
    match m
    case Stutter =>
    case Join(id, name, actor) => JoinConserves(env, g, id, Player(name, env.lives, true, actor));
    case Start =>
    case Answer(_, _) =>
    case Close => CloseConserves(env, g);
    case Void => VoidConserves(env, g);
  }

  lemma VoidConserves(env: Env, g: Game)
    requires CanMove(env, g, Void) && Conserved(env, g)
    ensures Conserved(env, Moved(env, g, Void))
  {
    LossesAppend(g.rounds, Round(g.idx, {}, false));
  }

  lemma LossesAppend(rounds: seq<Round>, r: Round)
    ensures Losses(rounds + [r]) == Losses(rounds) + |r.losers|
  {
    assert (rounds + [r])[..|rounds|] == rounds;
  }

  lemma JoinAdds(before: Players, after: Players, id: string)
    requires id !in before && after.Keys == before.Keys + {id}
    requires forall x :: x in before ==> after[x] == before[x]
    ensures LivesOf(after, after.Keys) == after[id].lives + LivesOf(before, before.Keys) && |after| == |before| + 1
  {
    LivesRemove(after, after.Keys, id);
    assert after.Keys - {id} == before.Keys;
    LivesSame(before, after, before.Keys);
    assert |after.Keys| == |before.Keys| + 1;
  }

  lemma JoinConserves(env: Env, g: Game, id: string, player: Player)
    requires id !in g.players && player.lives == env.lives && Conserved(env, g)
    ensures Conserved(env, g.(players := g.players[id := player]))
  {
    var n, after := |g.players|, g.players[id := player];
    JoinAdds(g.players, after, id);
    assert Stakes(n + 1, env.lives) == env.lives + Stakes(n, env.lives);
  }

  lemma CloseConserves(env: Env, g: Game)
    requires CanMove(env, g, Close) && Conserved(env, g)
    ensures Conserved(env, Closed(env, g))
  {
    var answers, correct, h := AnswersTo(g, g.idx), env.Correct(g.idx), Closed(env, g);
    var losers := Losers(g.players, answers, correct);
    LivesPenalized(g.players, answers, correct, g.players.Keys);
    assert losers * g.players.Keys == losers;
    LossesAppend(g.rounds, Round(g.idx, losers, true));
    assert h.players.Keys == g.players.Keys;
    assert |h.players| == |h.players.Keys| == |g.players|;
  }

  /** Lives left plus lives lost is what the players joined with, after any play. */
  lemma {:induction false} LivesAreConserved(env: Env, g: Game, moves: seq<Move>)
    requires env.Valid() && Inv(env, g) && Legal(env, g, moves) && Conserved(env, g)
    ensures Conserved(env, Play(env, g, moves))
    decreases |moves|
  {
    if moves != [] {
      MoveConserves(env, g, moves[0]);
      MoveKeepsInv(env, g, moves[0]);
      LivesAreConserved(env, Moved(env, g, moves[0]), moves[1..]);
    }
  }

  // ----- what never changes again

  /** Everything that is settled in g is still so in h. */
  ghost predicate Settled(g: Game, h: Game) {
    && g.rounds <= h.rounds
    && g.idx <= h.idx
    && (forall k :: 0 <= k < |g.rounds| ==> AnswersTo(h, k) == AnswersTo(g, k))
    && (forall k, id :: k in g.answers && id in g.answers[k] ==>
          id in AnswersTo(h, k) && AnswersTo(h, k)[id] == g.answers[k][id])
    && (forall id :: id in g.players ==>
          && id in h.players
          && h.players[id].name == g.players[id].name && h.players[id].actor == g.players[id].actor
          && h.players[id].lives <= g.players[id].lives
          && (!g.players[id].active ==> h.players[id] == g.players[id]))
    && (g.status != Waiting ==> h.status != Waiting && h.players.Keys == g.players.Keys)
    && (g.status == Finished ==> h == g)
  }

  lemma MoveSettles(env: Env, g: Game, m: Move)
    requires Inv(env, g) && CanMove(env, g, m)
    ensures Settled(g, Moved(env, g, m))
  {
  }

  lemma SettledTransitive(f: Game, g: Game, h: Game)
    requires Settled(f, g) && Settled(g, h)
    ensures Settled(f, h)
  {
    forall k | 0 <= k < |f.rounds| ensures AnswersTo(h, k) == AnswersTo(f, k) {
      assert AnswersTo(g, k) == AnswersTo(f, k);
    }
    forall k, id | k in f.answers && id in f.answers[k]
      ensures id in AnswersTo(h, k) && AnswersTo(h, k)[id] == f.answers[k][id]
    {
      assert id in AnswersTo(g, k);
    }
  }

  /**
   * Closed questions stay closed with the same answers, accepted answers stay as they
   * were given, an eliminated player's record and a finished game never change.
   */
  lemma {:induction false} PlaySettles(env: Env, g: Game, moves: seq<Move>)
    requires env.Valid() && Inv(env, g) && Legal(env, g, moves)
    ensures Settled(g, Play(env, g, moves))
    decreases |moves|
  {
    if moves != [] {
      var h := Moved(env, g, moves[0]);
      MoveSettles(env, g, moves[0]);
      MoveKeepsInv(env, g, moves[0]);
      PlaySettles(env, h, moves[1..]);
      SettledTransitive(g, h, Play(env, h, moves[1..]));
    }
  }

  // ----- termination

  /** Starts and closes still to come. */
  function Measure(env: Env, g: Game): int {
    2 * (env.Total() - 1 - g.idx) + if g.open then 1 else 0
  }

  function Transitions(moves: seq<Move>): nat {
    if moves == [] then 0
    else (if moves[0].Start? || moves[0].Close? || moves[0].Void? then 1 else 0) + Transitions(moves[1..])
  }

  /**
   * Every start and every close uses up one unit of the measure, which is never
   * negative, and nothing gives any back: a play has at most 2 * total of them.
   */
  lemma {:induction false} PlaysAreFinite(env: Env, g: Game, moves: seq<Move>)
    requires env.Valid() && Inv(env, g) && Legal(env, g, moves)
    ensures Transitions(moves) == Measure(env, g) - Measure(env, Play(env, g, moves)) <= Measure(env, g)
    ensures |Play(env, g, moves).rounds| <= env.Total()
    decreases |moves|
  {
    if moves != [] {
      MoveKeepsInv(env, g, moves[0]);
      PlaysAreFinite(env, Moved(env, g, moves[0]), moves[1..]);
    }
  }

  /** Closes of question k in a play, whether their penalties were saved or lost. */
  ghost function ClosesOf(env: Env, g: Game, moves: seq<Move>, k: int): nat
    requires Legal(env, g, moves)
    decreases |moves|
  {
    if moves == [] then 0
    else
      (if (moves[0].Close? || moves[0].Void?) && g.idx == k then 1 else 0)
      + ClosesOf(env, Moved(env, g, moves[0]), moves[1..], k)
  }

  /** No question is closed twice: one that is closed in the end was closed before or is closed once. */
  lemma {:induction false} ClosedOnce(env: Env, g: Game, moves: seq<Move>, k: nat)
    requires env.Valid() && Inv(env, g) && Legal(env, g, moves)
    ensures ClosesOf(env, g, moves, k) + (if k < |g.rounds| then 1 else 0) ==
            if k < |Play(env, g, moves).rounds| then 1 else 0
    decreases |moves|
  {
    if moves != [] {
      MoveKeepsInv(env, g, moves[0]);
      ClosedOnce(env, Moved(env, g, moves[0]), moves[1..], k);
    }
  }

  /** Closing the last question always ends the game. */
  lemma LastCloseFinishes(env: Env, g: Game)
    requires Inv(env, g) && CanMove(env, g, Close) && g.idx == env.Total() - 1
    ensures Moved(env, g, Close).status == Finished && Moved(env, g, Close).reason != NotOver
  {
    var h := Moved(env, g, Close);
    assert h.reason == EndReason(|Active(h.players)|, 0);
  }

  // ----- never stuck, unless a closer failed

  /** Running, nothing open, nothing left to open. */
  predicate Stranded(env: Env, g: Game) {
    g.status == Running && !g.open && g.idx + 1 >= env.Total()
  }

  /**
   * An unfinished game with at least one question can be started or closed unless it
   * is stranded, which takes a lost close of the very last question; a stranded game
   * admits no move at all.
   */
  lemma StuckOnlyByLostClose(env: Env, g: Game, m: Move)
    requires env.Valid() && Inv(env, g) && g.status != Finished && env.Total() >= 1
    ensures CanMove(env, g, Start) || CanMove(env, g, Close) <==> !Stranded(env, g)
    ensures Stranded(env, g) <==> g.rounds != [] && !LastScored(g) && |g.rounds| == env.Total()
    ensures Stranded(env, g) && CanMove(env, g, m) ==> m == Stutter
  {
  }

  /** Two players, one question, and a closer that dies in the middle: stranded for good. */
  lemma LostCloseStrands(env: Env)
    requires env.Valid() && env.Total() == 1
    ensures
      var moves := [Join("a", "A", "x"), Join("b", "B", "y"), Start, Void];
      Legal(env, NewGame, moves) && Stranded(env, Play(env, NewGame, moves))
  {
    var g1 := Moved(env, NewGame, Join("a", "A", "x"));
    var g2 := Moved(env, g1, Join("b", "B", "y"));
    var g3 := Moved(env, g2, Start);
    var g4 := Moved(env, g3, Void);
    assert Legal(env, g4, []) && Play(env, g4, []) == g4;
    assert Legal(env, g3, [Void]) && Play(env, g3, [Void]) == g4 by { assert [Void][1..] == []; }
    assert Legal(env, g2, [Start, Void]) && Play(env, g2, [Start, Void]) == g4 by {
      assert [Start, Void][1..] == [Void];
    }
    var rest := [Join("b", "B", "y"), Start, Void];
    assert Legal(env, g1, rest) && Play(env, g1, rest) == g4 by { assert rest[1..] == [Start, Void]; }
    assert [Join("a", "A", "x"), Join("b", "B", "y"), Start, Void][1..] == rest;
  }
}
