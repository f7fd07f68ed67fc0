/**
 * One instance's sessions: a hub and a Redis subscription per game with local
 * WebSocket clients, counted by reference, and the handler that uses them.
 */
module Sessions {
  import opened Domain
  import H = Hub
  import C = Connections

  datatype Subscription = Subscription(hub: H.Hub, refs: int)

  class SessionStore {
    var sessions: map<string, Subscription>
    /** Hubs whose Redis subscription has been cancelled. */
    var stopped: set<H.Hub>
    /** The hubs created so far, in that order. */
    ghost var created: seq<H.Hub>

    constructor ()
      ensures Valid() && sessions == map[]
    {
      sessions, stopped, created := map[], {}, [];
    }

    ghost predicate Valid()
      reads this
    {
      && (forall g :: g in sessions ==>
            sessions[g].refs >= 1 && sessions[g].hub !in stopped && sessions[g].hub in created)
      && (forall g, h :: g in sessions && h in sessions && g != h ==> sessions[g].hub != sessions[h].hub)
      && (forall i, j :: 0 <= i < j < |created| ==> created[i] != created[j])
    }

    function RefsOf(game: string): int
      reads this
    {
      if game in sessions then sessions[game].refs else 0
    }

    /** The newest generation of the player that the game's hub has heard of. */
    function LatestOf(game: string, player: string): int
      reads this, if game in sessions then {sessions[game].hub} else {}
    {
      if game in sessions then sessions[game].hub.SlotOf(player).latest else 0
    }

    /** The number of a hub in order of creation. */
    ghost function NumberOf(hub: H.Hub): (n: nat)
      requires hub in created
      reads this
      ensures n < |created| && created[n] == hub
    {
      var n: nat :| n < |created| && created[n] == hub; n
    }

    /** A game's session as the protocol of connections sees it. */
    ghost function SessionOf(game: string): Option<C.Session>
      requires Valid()
      reads this
    {
      if game in sessions then Some(C.Session(NumberOf(sessions[game].hub), sessions[game].refs)) else None
    }

    /** The game's hub for a new client; `confirmed` tells whether Redis confirms a new subscription. */
    method Acquire(game: string, confirmed: bool) returns (hub: Option<H.Hub>)
      requires Valid()
      modifies this
      ensures Valid() && stopped == old(stopped)
      ensures hub.None? <==> game !in old(sessions) && !confirmed
      ensures hub.None? ==> sessions == old(sessions) && created == old(created)
      ensures hub.Some? ==> sessions == old(sessions)[game := Subscription(hub.value, old(RefsOf(game)) + 1)]
      ensures hub.Some? ==>
                && SessionOf(game) == Some(C.Acquired(old(SessionOf(game)), |old(created)|))
                && created == old(created) + (if game in old(sessions) then [] else [hub.value])
      ensures game in old(sessions) ==> hub == Some(old(sessions)[game].hub)
      ensures hub.Some? && game !in old(sessions) ==>
                fresh(hub.value) && hub.value.Valid() && hub.value.clients == map[] && hub.value.latest == map[]
    {
      if game in sessions {
        sessions := sessions[game := sessions[game].(refs := sessions[game].refs + 1)];
        return Some(sessions[game].hub);
      }
      if !confirmed { return None; }
      var h := new H.Hub();
      sessions := sessions[game := Subscription(h, 1)];
      created := created + [h];
      return Some(h);
    }

    /** One reference less; without references the hub loses its subscription. */
    method Release(game: string)
      requires Valid()
      modifies this
      ensures Valid() && created == old(created)
      ensures old(RefsOf(game)) <= 1 ==> sessions == old(sessions) - {game}
      ensures old(RefsOf(game)) > 1 ==>
                sessions == old(sessions)[game := old(sessions)[game].(refs := old(RefsOf(game)) - 1)]
      ensures game in old(sessions) ==>
                && SessionOf(game) == C.Released(old(SessionOf(game)).value)
                && stopped == (if game in sessions then old(stopped) else old(stopped) + {old(sessions)[game].hub})
    {
      if game !in sessions { return; }
      var s := sessions[game];
      s := s.(refs := s.refs - 1);
      if s.refs > 0 {
        sessions := sessions[game := s];
        return;
      }
      stopped := stopped + {s.hub};
      sessions := sessions - {game};
    }
  }

  /** The per-player generation counters of one game in Redis. */
  class Publisher {
    var counters: map<string, int>
    var published: map<string, set<int>>

    constructor ()
      ensures Valid() && counters == map[] && published == map[]
    {
      counters, published := map[], map[];
    }

    ghost predicate Valid()
      reads this
    {
      forall p, gen :: gen in C.Published(published, p) ==> gen <= C.Counter(counters, p)
    }

    /** The next generation of the player's connection, higher than any published before. */
    method ClaimConnection(player: string, delivered: bool) returns (gen: Option<int>)
      requires Valid()
      modifies this
      ensures Valid()
      ensures gen.Some? <==> delivered
      ensures counters == old(counters)[player := C.Counter(old(counters), player) + 1]
      ensures gen.Some? ==> forall earlier :: earlier in C.Published(old(published), player) ==> gen.value > earlier
      ensures gen.Some? ==> gen.value == C.Counter(counters, player)
      ensures published == if delivered
                           then old(published)[player := C.Published(old(published), player) + {C.Counter(counters, player)}]
                           else old(published)
    {
      var next := C.Counter(counters, player) + 1;
      counters := counters[player := next];
      if !delivered {
        forall p, g | g in C.Published(published, p) ensures g <= C.Counter(counters, p) {
          assert g <= C.Counter(old(counters), p);
        }
        return None;
      }
      published := published[player := C.Published(published, player) + {next}];
      forall p, g | g in C.Published(published, p) ensures g <= C.Counter(counters, p) {
        assert g in C.Published(old(published), p) || g == next;
      }
      return Some(next);
    }
  }

  /** A slot after these generations of the player have been announced. */
  function Told(slot: H.Slot, claims: seq<int>): H.Slot {
    if claims == [] then slot else H.After(Told(slot, claims[..|claims| - 1]), H.Claimed(claims[|claims| - 1]))
  }

  /** What a connection of the player may change: the hub, and the client it takes over from. */
  ghost function Touched(hub: H.Hub, player: string): set<object>
    reads hub
  {
    if player in hub.clients then {hub, hub.clients[player]} else {hub}
  }

  predicate NoneNewer(claims: seq<int>, gen: int) {
    forall i :: 0 <= i < |claims| ==> claims[i] <= gen
  }

  /** A registered client survives exactly the announcements that are not newer than itself. */
  lemma {:induction false} SurvivesOlder(slot: H.Slot, gen: int, claims: seq<int>)
    requires slot == H.Slot(gen, Some(gen))
    ensures Told(slot, claims).current == if NoneNewer(claims, gen) then Some(gen) else None
    ensures Told(slot, claims).latest >= gen
  {
    if claims != [] {
      var rest, last := claims[..|claims| - 1], claims[|claims| - 1];
      SurvivesOlder(slot, gen, rest);
      assert claims == rest + [last];
      assert NoneNewer(claims, gen) <==> NoneNewer(rest, gen) && last <= gen by {
        if NoneNewer(claims, gen) {
          forall i | 0 <= i < |rest| ensures rest[i] <= gen { assert rest[i] == claims[i]; }
        }
      }
    }
  }

  /** The announcements that reach the hub while the client is connected. */
  method Stay(hub: H.Hub, player: string, client: H.Client, claims: seq<int>) returns (survived: bool)
    requires hub.Valid() && player in hub.clients && hub.clients[player] == client && !client.closed
    modifies hub, client
    ensures hub.Valid() && hub.clients - {player} == old(hub.clients) - {player}
    ensures hub.SlotOf(player) == Told(old(hub.SlotOf(player)), claims)
    ensures player in hub.clients ==> hub.clients[player] == client
    ensures survived <==> NoneNewer(claims, client.gen)
  {
    ghost var slot, others := hub.SlotOf(player), hub.clients - {player};
    for i := 0 to |claims|
      invariant hub.Valid() && hub.clients - {player} == others
      invariant hub.SlotOf(player) == Told(slot, claims[..i])
      invariant player in hub.clients ==> hub.clients[player] == client
      invariant client.closed <==> player !in hub.clients
    {
      assert claims[..i + 1][..i] == claims[..i];
      hub.Claim(player, claims[i]);
    }
    assert claims[..|claims|] == claims;
    SurvivesOlder(slot, client.gen, claims);
    survived := !client.closed;
  }

  /** And its departure: it leaves nothing of itself behind. */
  method StayAndGo(hub: H.Hub, player: string, client: H.Client, claims: seq<int>) returns (survived: bool)
    requires hub.Valid() && player in hub.clients && hub.clients[player] == client && !client.closed
    modifies hub, client
    ensures hub.Valid() && hub.clients == old(hub.clients) - {player}
    ensures hub.SlotOf(player) == Told(old(hub.SlotOf(player)), claims).(current := None)
    ensures survived <==> NoneNewer(claims, client.gen)
  {
    survived := Stay(hub, player, client, claims);
    ghost var clients := hub.clients;
    hub.Unregister(player, client);
    assert hub.clients == clients - {player};
  }

  /**
   * The client's stay in the hub, from Register to Unregister. `claims` are the
   * generations of the player announced meanwhile; the client is closed by the first
   * that is newer, and gone from the hub in the end whatever happened.
   */
  method Connect(hub: H.Hub, player: string, gen: int, claims: seq<int>) returns (registered: bool, survived: bool)
    requires hub.Valid()
    modifies Touched(hub, player)
    ensures hub.Valid()
    ensures registered <==> gen >= old(hub.SlotOf(player)).latest
    ensures survived <==> registered && NoneNewer(claims, gen)
    ensures !registered ==> hub.clients == old(hub.clients) && hub.latest == old(hub.latest)
    ensures registered ==>
              && hub.clients == old(hub.clients) - {player}
              && hub.SlotOf(player) == Told(H.Slot(gen, Some(gen)), claims).(current := None)
  {
    var client := new H.Client(gen);
    registered := hub.Register(player, client);
    if !registered { return false, false; }
    assert hub.SlotOf(player) == H.Slot(gen, Some(gen));
    survived := StayAndGo(hub, player, client, claims);
  }

  /** The counters after the player's next claim. */
  function Counted(counters: map<string, int>, player: string): map<string, int> {
    counters[player := C.Counter(counters, player) + 1]
  }

  /** What the handler does with the hub it was given: claim a generation, then connect with it. */
  method Serve(hub: H.Hub, publisher: Publisher, player: string, delivered: bool, upgraded: bool, claims: seq<int>)
    returns (registered: bool, survived: bool)
    requires hub.Valid() && publisher.Valid()
    modifies publisher, Touched(hub, player)
    ensures hub.Valid() && publisher.Valid()
    ensures publisher.counters == Counted(old(publisher.counters), player)
    ensures registered <==>
              delivered && upgraded && C.Counter(publisher.counters, player) >= old(hub.SlotOf(player)).latest
    ensures survived <==> registered && NoneNewer(claims, C.Counter(publisher.counters, player))
    ensures hub.clients == if registered then old(hub.clients) - {player} else old(hub.clients)
    ensures if registered
            then hub.SlotOf(player) == Told(H.Slot(C.Counter(publisher.counters, player),
                                                   Some(C.Counter(publisher.counters, player))), claims).(current := None)
            else hub.latest == old(hub.latest)
  {
    var gen := publisher.ClaimConnection(player, delivered);
    if gen.None? || !upgraded { return false, false; }
    registered, survived := Connect(hub, player, gen.value, claims);
  }

  /** The handler once it has a reference, which it gives back in the end. */
  method ServeAndRelease(store: SessionStore, publisher: Publisher, game: string, player: string,
                         delivered: bool, upgraded: bool, claims: seq<int>)
    returns (registered: bool, survived: bool)
    requires store.Valid() && publisher.Valid()
    requires game in store.sessions && store.sessions[game].hub.Valid()
    modifies store, publisher, Touched(store.sessions[game].hub, player)
    ensures store.Valid() && publisher.Valid()
    ensures store.sessions == if old(store.RefsOf(game)) <= 1 then old(store.sessions) - {game}
                              else old(store.sessions)[game := old(store.sessions[game]).(refs := old(store.RefsOf(game)) - 1)]
    ensures publisher.counters == Counted(old(publisher.counters), player)
    ensures registered <==>
              && delivered && upgraded
              && C.Counter(publisher.counters, player) >= old(store.sessions[game].hub.SlotOf(player).latest)
    ensures registered ==> player !in old(store.sessions[game]).hub.clients
    ensures survived <==> registered && NoneNewer(claims, C.Counter(publisher.counters, player))
  {
    registered, survived := Serve(store.sessions[game].hub, publisher, player, delivered, upgraded, claims);
    store.Release(game);
  }

  /**
   * The WebSocket handler from Acquire to Release. With a session it takes the player's
   * next generation; the client is let in exactly if that was published, the upgrade
   * succeeded and the hub has heard of nothing newer; it is still the player's
   * connection when it leaves exactly if nothing newer was announced meanwhile. On
   * every path, early returns included, the references are back where they were.
   */
  method WebSocket(store: SessionStore, publisher: Publisher, game: string, player: string,
                   confirmed: bool, delivered: bool, upgraded: bool, claims: seq<int>)
    returns (registered: bool, survived: bool)
    requires store.Valid() && publisher.Valid()
    requires game in store.sessions ==> store.sessions[game].hub.Valid()
    modifies store, publisher
    modifies if game in store.sessions then Touched(store.sessions[game].hub, player) else {}
    ensures store.Valid() && publisher.Valid()
    ensures store.sessions == old(store.sessions)
    ensures publisher.counters == if confirmed || game in old(store.sessions)
                                  then Counted(old(publisher.counters), player) else old(publisher.counters)
    ensures registered <==>
              && (confirmed || game in old(store.sessions)) && delivered && upgraded
              && C.Counter(publisher.counters, player) >= old(store.LatestOf(game, player))
    ensures survived <==> registered && NoneNewer(claims, C.Counter(publisher.counters, player))
    ensures game in store.sessions && registered ==> player !in store.sessions[game].hub.clients
  {
    var hub := store.Acquire(game, confirmed);
    if hub.None? { return false, false; }
    registered, survived := ServeAndRelease(store, publisher, game, player, delivered, upgraded, claims);
  }
}
