/** The rules of one closed question: who loses a life, when the game ends, who wins. */
module Rules {
  import opened Domain
  import opened Order

  /** A missing answer reads as the empty string. */
  function AnswerOf(answers: Answers, id: string): string {
    if id in answers then answers[id] else ""
  }

  predicate Loses(players: Players, answers: Answers, correct: string, id: string) {
    id in players && players[id].active && AnswerOf(answers, id) != correct
  }

  function Hit(player: Player): Player {
    player.(lives := player.lives - 1, active := player.active && player.lives > 1)
  }

  ghost function Losers(players: Players, answers: Answers, correct: string): set<string> {
    set id | id in players && Loses(players, answers, correct, id)
  }

  /** Every player after the close: exactly the losers are hit, nobody else changes. */
  ghost function Penalized(players: Players, answers: Answers, correct: string): Players {
    map id | id in players :: if Loses(players, answers, correct, id) then Hit(players[id]) else players[id]
  }

  function Active(players: Players): set<string> {
    set id | id in players && players[id].active
  }

  function EndReason(active: int, remaining: int): Reason {
    if active == 1 then LastPlayerStanding
    else if active == 0 then AllEliminated
    else if remaining == 0 then QuestionsExhausted
    else NotOver
  }

  /** ids[i] has strictly more lives than every other entry, and not a negative number of them. */
  ghost predicate UniqueTop(players: Players, ids: seq<string>, i: int)
    requires forall id :: id in ids ==> id in players
  {
    && 0 <= i < |ids|
    && players[ids[i]].lives >= 0
    && forall j :: 0 <= j < |ids| && j != i ==> players[ids[j]].lives < players[ids[i]].lives
  }

  ghost function Winner(players: Players, ids: seq<string>): string
    requires forall id :: id in ids ==> id in players
  {
    if exists i :: UniqueTop(players, ids, i)
    then var i :| UniqueTop(players, ids, i); ids[i]
    else ""
  }

  lemma TopIsUnique(players: Players, ids: seq<string>, i: int, j: int)
    requires forall id :: id in ids ==> id in players
    requires UniqueTop(players, ids, i) && UniqueTop(players, ids, j)
    ensures i == j
  {
  }

  /** With positive lives, which every active player has, the winner is exactly the one player nobody equals. */
  lemma WinnerIsUniqueLeader(players: Players, ids: seq<string>, w: string)
    requires forall id :: id in ids ==> id in players && players[id].lives > 0 && id != ""
    requires Sorted(Less, ids)
    ensures Winner(players, ids) == w != "" <==>
            w in ids && forall id :: id in ids && id != w ==> players[id].lives < players[w].lives
    ensures Winner(players, ids) == "" <==>
            ids == [] || exists a, b :: a in ids && b in ids && a != b && players[a].lives == players[b].lives
                           && forall id :: id in ids ==> players[id].lives <= players[a].lives
  {
    DistinctWhenSorted(ids);
    if exists i :: UniqueTop(players, ids, i) {
      var i :| UniqueTop(players, ids, i);
      assert Winner(players, ids) == ids[i] by {
        forall j | UniqueTop(players, ids, j) ensures j == i { TopIsUnique(players, ids, i, j); }
      }
      assert ids[i] in ids;
      forall id | id in ids && id != ids[i] ensures players[id].lives < players[ids[i]].lives {
        var j :| 0 <= j < |ids| && ids[j] == id;
      }
    } else {
      if w in ids && forall id :: id in ids && id != w ==> players[id].lives < players[w].lives {
        var i :| 0 <= i < |ids| && ids[i] == w;
        forall j | 0 <= j < |ids| && j != i ensures players[ids[j]].lives < players[ids[i]].lives {
          assert ids[j] in ids && ids[j] != ids[i];
        }
        assert UniqueTop(players, ids, i);
      }
      if ids != [] {
        var i := TopIndex(players, ids);
        assert !UniqueTop(players, ids, i);
        assert ids[i] in ids;
        var j :| 0 <= j < |ids| && j != i && players[ids[j]].lives >= players[ids[i]].lives;
        assert ids[j] in ids && ids[j] != ids[i];
        assert forall id :: id in ids ==> players[id].lives <= players[ids[i]].lives;
        assert players[ids[i]].lives == players[ids[j]].lives;
      }
    }
  }

  lemma DistinctWhenSorted(ids: seq<string>)
    requires Sorted(Less, ids)
    ensures forall i, j :: 0 <= i < |ids| && 0 <= j < |ids| && i != j ==> ids[i] != ids[j]
  {
    LessIsStrictTotal();
    forall i, j | 0 <= i < |ids| && 0 <= j < |ids| && i != j ensures ids[i] != ids[j] {
      assert Less(ids[if i < j then i else j], ids[if i < j then j else i]);
    }
  }

  lemma {:induction false} TopIndex(players: Players, ids: seq<string>) returns (i: int)
    requires forall id :: id in ids ==> id in players
    requires ids != []
    ensures 0 <= i < |ids| && forall j :: 0 <= j < |ids| ==> players[ids[j]].lives <= players[ids[i]].lives
  {
    i := 0;
    for k := 1 to |ids|
      invariant 0 <= i < |ids|
      invariant forall j :: 0 <= j < k ==> players[ids[j]].lives <= players[ids[i]].lives
    {
      if players[ids[k]].lives > players[ids[i]].lives { i := k; }
    }
  }

  datatype LifeDelta = LifeDelta(id: string, lives: int, active: bool)

  datatype PlayerScore = PlayerScore(id: string, name: string, lives: int, active: bool)

  function ScoreOf(players: Players, id: string): PlayerScore
    requires id in players
  {
    PlayerScore(id, players[id].name, players[id].lives, players[id].active)
  }

  datatype CloseResult = CloseResult(
    lifeLost: seq<string>,
    lifeDeltas: seq<LifeDelta>,
    eliminated: seq<string>,
    gameOver: bool,
    winner: string,
    survivors: seq<string>,
    reason: Reason,
    remaining: int,
    scores: seq<PlayerScore>)

  /** Who was active before and no longer is. */
  ghost function Gone(before: Players, after: Players): set<string> {
    set id | id in before && id in after && before[id].active && !after[id].active
  }

  ghost predicate DeltasOf(deltas: seq<LifeDelta>, ids: seq<string>, after: Players) {
    && |deltas| == |ids|
    && forall i :: 0 <= i < |ids| ==>
                     ids[i] in after && deltas[i] == LifeDelta(ids[i], after[ids[i]].lives, after[ids[i]].active)
  }

  /** Everybody's lives, each player once, by name and then by id. */
  ghost predicate ScoresOf(scores: seq<PlayerScore>, players: Players) {
    && (forall s :: s in scores <==>
          && s.id in players && s.name == players[s.id].name
          && s.lives == players[s.id].lives && s.active == players[s.id].active)
    && forall i, j :: 0 <= i < j < |scores| ==>
         Less(scores[i].name, scores[j].name) || (scores[i].name == scores[j].name && Less(scores[i].id, scores[j].id))
  }

  /** What the result of a close has to say, given the players before and after it. */
  ghost predicate Reports(r: CloseResult, before: Players, answers: Answers, correct: string, remaining: int) {
    var after := Penalized(before, answers, correct);
    && Lists(Less, r.lifeLost, Losers(before, answers, correct))
    && Lists(Less, r.eliminated, Gone(before, after))
    && DeltasOf(r.lifeDeltas, r.lifeLost, after)
    && r.remaining == remaining
    && r.reason == EndReason(|Active(after)|, remaining)
    && r.gameOver == (r.reason != NotOver)
    && (if r.gameOver
        then Lists(Less, r.survivors, Active(after)) && r.winner == Winner(after, r.survivors)
        else r.survivors == [] && r.winner == "")
    && ScoresOf(r.scores, after)
  }

  /** The reason a close reports, told from who is left and from the questions left. */
  lemma ReasonIsExact(r: CloseResult, before: Players, answers: Answers, correct: string, remaining: int)
    requires Reports(r, before, answers, correct, remaining)
    ensures
      var left := Active(Penalized(before, answers, correct));
      && (r.reason == LastPlayerStanding <==> exists id :: left == {id})
      && (r.reason == AllEliminated <==> left == {})
      && (r.reason == QuestionsExhausted <==> |left| >= 2 && remaining == 0)
      && (r.reason == NotOver <==> |left| >= 2 && remaining != 0)
      && (r.gameOver <==> |left| <= 1 || remaining == 0)
  {
    var left := Active(Penalized(before, answers, correct));
    if |left| == 1 {
      var id :| id in left;
      assert |left - {id}| == 0;
      assert left == {id};
    }
  }

  /** A game as loaded from the store; the engine's transitions overwrite its fields. */
  class State {
    const total: int
    var status: Status
    var currentIdx: int
    var questionOpen: bool
    var questionStart: int
    var endReason: Reason
    var players: Players
    var current: Option<Question>
    var answers: Answers

    constructor (total: int, status: Status, currentIdx: int, questionOpen: bool, questionStart: int,
                 endReason: Reason, players: Players, current: Option<Question>, answers: Answers)
      ensures this.total == total && this.status == status && this.currentIdx == currentIdx
      ensures this.questionOpen == questionOpen && this.questionStart == questionStart
      ensures this.endReason == endReason && this.players == players
      ensures this.current == current && this.answers == answers
    {
      this.total, this.status, this.currentIdx := total, status, currentIdx;
      this.questionOpen, this.questionStart, this.endReason := questionOpen, questionStart, endReason;
      this.players, this.current, this.answers := players, current, answers;
    }

    /** The fields that Save writes back. */
    function Fields(): Progress
      reads this
    {
      Progress(status, currentIdx, questionOpen, questionStart, endReason)
    }

    function RemainingQuestions(): int
      reads this
    {
      total - currentIdx - 1
    }

    method SortedPlayerIDs() returns (ids: seq<string>)
      ensures Lists(Less, ids, players.Keys)
    {
      LessIsStrictTotal();
      ids := [];
      var rest := players.Keys;
      while rest != {}
        invariant rest <= players.Keys
        invariant Lists(Less, ids, players.Keys - rest)
        decreases |rest|
      {
        var id :| id in rest;
        InsertLists(Less, id, ids, players.Keys - rest);
        assert players.Keys - rest + {id} == players.Keys - (rest - {id});
        ids, rest := Insert(Less, id, ids), rest - {id};
      }
    }

    method ActivePlayers() returns (ids: seq<string>)
      ensures Lists(Less, ids, Active(players)) && |ids| == |Active(players)|
    {
      LessIsStrictTotal();
      ids := [];
      var rest := players.Keys;
      while rest != {}
        invariant rest <= players.Keys
        invariant Lists(Less, ids, Active(players) - rest)
        decreases |rest|
      {
        var id :| id in rest;
        if players[id].active {
          InsertLists(Less, id, ids, Active(players) - rest);
          assert Active(players) - rest + {id} == Active(players) - (rest - {id});
          ids := Insert(Less, id, ids);
        } else {
          assert Active(players) - rest == Active(players) - (rest - {id});
        }
        rest := rest - {id};
      }
      assert Active(players) - rest == Active(players);
      ListingIsUnique(Less, ids, ids, Active(players));
    }

    /** The id with strictly the most lives, or "" if there is none or the top is tied. */
    method Leader(ids: seq<string>) returns (leader: string)
      requires forall id :: id in ids ==> id in players
      ensures leader == Winner(players, ids)
    {
      var best, tied := -1, false;
      leader := "";
      ghost var top := -1;
      for i := 0 to |ids|
        invariant top == -1 ==> leader == "" && best == -1
        invariant top != -1 ==> 0 <= top < i && ids[top] == leader && players[leader].lives == best >= 0
        invariant forall j :: 0 <= j < i ==> players[ids[j]].lives <= best
        invariant !tied ==> forall j :: 0 <= j < i && j != top ==> players[ids[j]].lives < best
        invariant tied ==> best == -1 || exists j :: 0 <= j < i && j != top && players[ids[j]].lives == best
      {
        var lives := players[ids[i]].lives;
        if lives > best {
          leader, best, tied, top := ids[i], lives, false, i;
        } else if lives == best {
          tied := true;
        }
      }
      if tied {
        forall i ensures !UniqueTop(players, ids, i) {}
        leader := "";
      } else if top != -1 {
        assert UniqueTop(players, ids, top);
      }
    }

    method Scoreboard() returns (scores: seq<PlayerScore>)
      ensures ScoresOf(scores, players)
    {
      var ids := IDsByName();
      scores := [];
      for i := 0 to |ids|
        invariant |scores| == i
        invariant forall j :: 0 <= j < i ==> scores[j] == ScoreOf(players, ids[j])
      {
        scores := scores + [ScoreOf(players, ids[i])];
      }
      forall id | id in players ensures ScoreOf(players, id) in scores {
        var i :| 0 <= i < |ids| && ids[i] == id;
        assert scores[i] == ScoreOf(players, id);
      }
    }

    method IDsByName() returns (ids: seq<string>)
      ensures forall id :: id in ids <==> id in players
      ensures forall i :: 0 <= i < |ids| ==> ids[i] in players
      ensures forall i, j :: 0 <= i < j < |ids| ==> NameThenID(players, ids[i], ids[j])
    {
      var ps := players;
      var before := (a, b) => NameThenID(ps, a, b);
      NameThenIDIsStrictTotal(ps, before);
      ids := [];
      var rest := players.Keys;
      while rest != {}
        invariant rest <= players.Keys
        invariant Lists(before, ids, players.Keys - rest)
        decreases |rest|
      {
        var id :| id in rest;
        InsertLists(before, id, ids, players.Keys - rest);
        assert players.Keys - rest + {id} == players.Keys - (rest - {id});
        ids, rest := Insert(before, id, ids), rest - {id};
      }
      forall i, j | 0 <= i < j < |ids| ensures NameThenID(ps, ids[i], ids[j]) {
        assert before(ids[i], ids[j]);
      }
    }

    /** Takes a life from every loser, eliminating those left with none. */
    method TakeLives()
      returns (lifeLost: seq<string>, eliminated: seq<string>, lifeDeltas: seq<LifeDelta>, livesAfter: map<string, int>,
               ghost ids: seq<string>)
      requires current.Some?
      modifies this`players
      ensures Lists(Less, ids, old(players).Keys)
      ensures Tally(players, lifeLost, eliminated, lifeDeltas, livesAfter) ==
              TallyOf(old(players), answers, current.value.correct, ids)
    {
      var correct := current.value.correct;
      ghost var before := players;
      lifeLost, eliminated, lifeDeltas, livesAfter := [], [], [], map[];
      var order := SortedPlayerIDs();
      ids := order;
      ghost var t := Tally(players, [], [], [], map[]);
      for i := 0 to |order|
        invariant players.Keys == before.Keys
        invariant t == Tally(players, lifeLost, eliminated, lifeDeltas, livesAfter)
        invariant t == TallyOf(before, answers, correct, ids[..i])
      {
        var pid := order[i];
        assert pid in ids;
        TallyStep(before, answers, correct, ids, i);
        var player := players[pid];
        if player.active && AnswerOf(answers, pid) != correct {
          assert Loses(t.players, answers, correct, pid);
          ghost var hit := Hit(player);
          player := player.(lives := player.lives - 1);
          lifeLost := lifeLost + [pid];
          if player.lives <= 0 {
            player := player.(active := false);
            eliminated := eliminated + [pid];
          }
          assert player == hit;
          livesAfter := livesAfter[pid := player.lives];
          lifeDeltas := lifeDeltas + [LifeDelta(pid, player.lives, player.active)];
          players := players[pid := player];
        }
        t := Dealt(t, answers, correct, pid);
      }
      assert ids[..|ids|] == ids;
    }

    /**
     * Scores `current` with the answers taken: whoever is still in and did not choose
     * the correct option pays with a life. With fewer than two players or no question
     * left, that decides the game.
     */
    method ApplyPenalties() returns (result: CloseResult, livesAfter: map<string, int>)
      requires current.Some?
      modifies this`players, this`status, this`endReason
      ensures players == Penalized(old(players), answers, current.value.correct)
      ensures Reports(result, old(players), answers, current.value.correct, RemainingQuestions())
      ensures livesAfter == map id | id in Losers(old(players), answers, current.value.correct) :: players[id].lives
      ensures status == if result.gameOver then Finished else old(status)
      ensures endReason == if result.gameOver then result.reason else old(endReason)
    {
      var lifeLost, eliminated, lifeDeltas;
      ghost var ids;
      lifeLost, eliminated, lifeDeltas, livesAfter, ids := TakeLives();
      TallyIsExact(old(players), answers, current.value.correct, ids);
      var active := ActivePlayers();
      var remaining := RemainingQuestions();
      var reason := EndReason(|active|, remaining);
      var survivors, winner := [], "";
      if reason != NotOver {
        status, endReason := Finished, reason;
        survivors := active;
        winner := Leader(active);
      }
      var scores := Scoreboard();
      result := CloseResult(lifeLost, lifeDeltas, eliminated, reason != NotOver, winner, survivors, reason, remaining, scores);
    }
  }

  function NameOf(players: Players, id: string): string {
    if id in players then players[id].name else ""
  }

  predicate NameThenID(players: Players, a: string, b: string) {
    var x, y := NameOf(players, a), NameOf(players, b);
    Less(x, y) || (x == y && Less(a, b))
  }

  lemma NameThenIDIsStrictTotal(players: Players, before: (string, string) -> bool)
    requires forall a, b :: before(a, b) == NameThenID(players, a, b)
    ensures StrictTotal(before)
  {
    LessIsStrictTotal();
    forall x, y, z | before(x, y) && before(y, z) ensures before(x, z) {
      assert NameThenID(players, x, y) && NameThenID(players, y, z);
    }
    forall x, y ensures x == y || before(x, y) || before(y, x) {
      assert Less(NameOf(players, x), NameOf(players, y)) || Less(NameOf(players, y), NameOf(players, x))
             || NameOf(players, x) == NameOf(players, y);
    }
  }

  lemma BelowLater(ids: seq<string>, i: int)
    requires Sorted(Less, ids) && 0 <= i < |ids|
    ensures ids[i] !in ids[..i] && forall id :: id in ids[..i] ==> Less(id, ids[i])
  {
    LessIsStrictTotal();
  }

  /** The variables of the loop that takes lives. */
  datatype Tally = Tally(players: Players, lifeLost: seq<string>, eliminated: seq<string>,
                         lifeDeltas: seq<LifeDelta>, livesAfter: map<string, int>)

  /** Their values after one more player. */
  function Dealt(t: Tally, answers: Answers, correct: string, id: string): Tally {
    if Loses(t.players, answers, correct, id) then
      var hit := Hit(t.players[id]);
      Tally(t.players[id := hit], t.lifeLost + [id], if hit.active then t.eliminated else t.eliminated + [id],
            t.lifeDeltas + [LifeDelta(id, hit.lives, hit.active)], t.livesAfter[id := hit.lives])
    else t
  }

  /** Their values once the players `ids` have been dealt with, in that order. */
  function TallyOf(before: Players, answers: Answers, correct: string, ids: seq<string>): Tally {
    if ids == [] then Tally(before, [], [], [], map[])
    else Dealt(TallyOf(before, answers, correct, ids[..|ids| - 1]), answers, correct, ids[|ids| - 1])
  }

  lemma TallyStep(before: Players, answers: Answers, correct: string, ids: seq<string>, i: int)
    requires 0 <= i < |ids|
    ensures TallyOf(before, answers, correct, ids[..i + 1]) ==
            Dealt(TallyOf(before, answers, correct, ids[..i]), answers, correct, ids[i])
  {
    assert ids[..i + 1][..i] == ids[..i];
  }

  ghost function Seen(ids: seq<string>): set<string> { set id | id in ids }

  lemma SeenLast(ids: seq<string>) returns (rest: seq<string>, id: string)
    requires Sorted(Less, ids) && ids != []
    ensures rest == ids[..|ids| - 1] && id == ids[|ids| - 1] && Sorted(Less, rest)
    ensures Seen(ids) == Seen(rest) + {id} && id !in Seen(rest) && forall x :: x in Seen(rest) ==> Less(x, id)
  {
    rest, id := ids[..|ids| - 1], ids[|ids| - 1];
    assert ids == rest + [id];
    BelowLater(ids, |ids| - 1);
  }

  lemma {:induction false} TallyPlayers(before: Players, answers: Answers, correct: string, ids: seq<string>)
    requires Sorted(Less, ids)
    ensures
      var t, after := TallyOf(before, answers, correct, ids), Penalized(before, answers, correct);
      && t.players.Keys == before.Keys
      && forall x :: x in before ==> t.players[x] == if x in ids then after[x] else before[x]
  {
    if ids != [] {
      var rest, id := SeenLast(ids);
      TallyPlayers(before, answers, correct, rest);
      assert ids == rest + [id] && id !in rest;
    }
  }

  lemma {:induction false} TallyLists(before: Players, answers: Answers, correct: string, ids: seq<string>)
    requires Sorted(Less, ids)
    ensures
      var t := TallyOf(before, answers, correct, ids);
      && Lists(Less, t.lifeLost, Losers(before, answers, correct) * Seen(ids))
      && Lists(Less, t.eliminated, Gone(before, Penalized(before, answers, correct)) * Seen(ids))
  {
    if ids != [] {
      var rest, id := SeenLast(ids);
      TallyLists(before, answers, correct, rest);
      TallyPlayers(before, answers, correct, rest);
      var t := TallyOf(before, answers, correct, rest);
      ExtendLists(t.lifeLost, Losers(before, answers, correct), Seen(rest), id);
      ExtendLists(t.eliminated, Gone(before, Penalized(before, answers, correct)), Seen(rest), id);
    }
  }

  lemma {:induction false} TallyDeltas(before: Players, answers: Answers, correct: string, ids: seq<string>)
    requires Sorted(Less, ids)
    ensures
      var t, after := TallyOf(before, answers, correct, ids), Penalized(before, answers, correct);
      && DeltasOf(t.lifeDeltas, t.lifeLost, after)
      && (forall x :: x in t.livesAfter <==> x in t.lifeLost)
      && (forall x :: x in t.livesAfter ==> x in after && t.livesAfter[x] == after[x].lives)
  {
    if ids != [] {
      var rest, id := SeenLast(ids);
      TallyDeltas(before, answers, correct, rest);
      TallyPlayers(before, answers, correct, rest);
      if id in before {
        DeltasAppend(TallyOf(before, answers, correct, rest).lifeDeltas, TallyOf(before, answers, correct, rest).lifeLost,
                     Penalized(before, answers, correct), id);
      }
    }
  }

  /** Going through all players once yields exactly what the rules say. */
  lemma TallyIsExact(before: Players, answers: Answers, correct: string, ids: seq<string>)
    requires Lists(Less, ids, before.Keys)
    ensures
      var t, after, losers :=
        TallyOf(before, answers, correct, ids), Penalized(before, answers, correct), Losers(before, answers, correct);
      && t.players == after
      && Lists(Less, t.lifeLost, losers)
      && Lists(Less, t.eliminated, Gone(before, after))
      && DeltasOf(t.lifeDeltas, t.lifeLost, after)
      && t.livesAfter == map id | id in losers :: after[id].lives
  {
    var t, after, losers :=
      TallyOf(before, answers, correct, ids), Penalized(before, answers, correct), Losers(before, answers, correct);
    assert Seen(ids) == before.Keys;
    TallyPlayers(before, answers, correct, ids);
    assert t.players == after;
    TallyLists(before, answers, correct, ids);
    assert losers * before.Keys == losers && Gone(before, after) * before.Keys == Gone(before, after);
    TallyLivesAfter(before, answers, correct, ids);
  }

  lemma TallyLivesAfter(before: Players, answers: Answers, correct: string, ids: seq<string>)
    requires Lists(Less, ids, before.Keys)
    ensures
      var t, after, losers :=
        TallyOf(before, answers, correct, ids), Penalized(before, answers, correct), Losers(before, answers, correct);
      DeltasOf(t.lifeDeltas, t.lifeLost, after) && t.livesAfter == map id | id in losers :: after[id].lives
  {
    var t, losers := TallyOf(before, answers, correct, ids), Losers(before, answers, correct);
    TallyDeltas(before, answers, correct, ids);
    TallyLists(before, answers, correct, ids);
    assert Seen(ids) == before.Keys && losers * before.Keys == losers;
    assert forall id :: id in t.livesAfter <==> id in losers;
  }

  lemma DeltasAppend(deltas: seq<LifeDelta>, ids: seq<string>, after: Players, id: string)
    requires DeltasOf(deltas, ids, after) && id in after
    ensures DeltasOf(deltas + [LifeDelta(id, after[id].lives, after[id].active)], ids + [id], after)
  {
  }

  /** Looking at one more id, above all those seen so far: it is appended iff it belongs to s. */
  lemma ExtendLists(ids: seq<string>, s: set<string>, seen: set<string>, id: string)
    requires Lists(Less, ids, s * seen)
    requires id !in seen && forall x :: x in seen ==> Less(x, id)
    ensures Lists(Less, if id in s then ids + [id] else ids, s * (seen + {id}))
  {
    if id in s {
      forall j | 0 <= j < |ids| ensures Less(ids[j], id) {
        assert ids[j] in ids;
      }
    } else {
      assert s * (seen + {id}) == s * seen;
    }
  }
}
