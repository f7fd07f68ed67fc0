/**
 * One instance's table of WebSocket clients of a game. Each connection of a player
 * carries a generation; connections and announcements of generations arrive in any
 * order, and the highest generation wins.
 */
module Hub {
  import opened Domain

  /** What a hub knows about one player: the highest generation announced, and the registered one. */
  datatype Slot = Slot(latest: int, current: Option<int>)

  datatype Event = Present(gen: int) | Claimed(gen: int)

  const EmptySlot: Slot := Slot(0, None)

  function After(slot: Slot, e: Event): Slot {
    match e
    case Present(gen) => if gen < slot.latest then slot else Slot(gen, Some(gen))
    case Claimed(gen) =>
      Slot(if gen > slot.latest then gen else slot.latest,
           if slot.current.Some? && slot.current.value < gen then None else slot.current)
  }

  /** The generation whose client is closed by the event. */
  function Victim(slot: Slot, e: Event): Option<int> {
    match e
    case Present(gen) =>
      if gen < slot.latest then Some(gen) else if slot.current == Some(gen) then None else slot.current
    case Claimed(gen) => if slot.current.Some? && slot.current.value < gen then slot.current else None
  }

  function WithoutCurrent(slot: Slot, gen: int): Slot {
    if slot.current == Some(gen) then slot.(current := None) else slot
  }

  // ----- the order of events does not matter

  function Run(events: seq<Event>): Slot {
    if events == [] then EmptySlot else After(Run(events[..|events| - 1]), events[|events| - 1])
  }

  function ClosedBy(events: seq<Event>): set<int> {
    if events == [] then {}
    else
      var victim := Victim(Run(events[..|events| - 1]), events[|events| - 1]);
      ClosedBy(events[..|events| - 1]) + if victim.Some? then {victim.value} else {}
  }

  /** Generations are counted from 1 and no client is presented twice; claims may repeat. */
  ghost predicate Distinct(events: seq<Event>) {
    && (forall e :: e in events ==> e.gen >= 1)
    && forall i, j :: 0 <= i < j < |events| && events[i].Present? && events[j].Present? ==> events[i].gen != events[j].gen
  }

  ghost predicate Highest(events: seq<Event>, m: int) {
    && (forall e :: e in events ==> e.gen <= m)
    && (if events == [] then m == 0 else exists e :: e in events && e.gen == m)
  }

  ghost predicate Outcome(events: seq<Event>, slot: Slot, closed: set<int>) {
    && Highest(events, slot.latest)
    && slot.current == (if Present(slot.latest) in events then Some(slot.latest) else None)
    && (forall gen :: gen in closed <==> Present(gen) in events && gen != slot.latest)
  }

  /**
   * The hub ends with the highest generation it was told of as `latest`; the client
   * of that generation is registered if it was presented; every other presented
   * client, and nobody else, has been closed.
   */
  lemma {:induction false} HighestWins(events: seq<Event>)
    requires Distinct(events)
    ensures Outcome(events, Run(events), ClosedBy(events))
  {
    if events != [] {
      var rest, e := events[..|events| - 1], events[|events| - 1];
      assert events == rest + [e];
      assert forall x :: x in events <==> x in rest || x == e;
      assert e.Present? ==> e !in rest;
      HighestWins(rest);
      HighestStep(rest, e, Run(rest).latest);
    }
  }

  lemma HighestStep(rest: seq<Event>, e: Event, m: int)
    requires Highest(rest, m) && e.gen >= 1
    ensures Highest(rest + [e], if e.gen > m then e.gen else m)
  {
    assert e in rest + [e];
    assert forall x :: x in rest ==> x in rest + [e];
  }

  lemma OutcomeIsUnique(events: seq<Event>, shuffled: seq<Event>, a: Slot, b: Slot, closedA: set<int>, closedB: set<int>)
    requires forall e :: e in events <==> e in shuffled
    requires Outcome(events, a, closedA) && Outcome(shuffled, b, closedB)
    ensures a == b && closedA == closedB
  {
    assert a.latest == b.latest by {
      assert events != [] ==> events[0] in shuffled;
      assert shuffled != [] ==> shuffled[0] in events;
      if events != [] {
        var e :| e in events && e.gen == a.latest;
        var f :| f in shuffled && f.gen == b.latest;
        assert f in events;
      }
    }
    forall gen ensures gen in closedA <==> gen in closedB {
      assert Present(gen) in events <==> Present(gen) in shuffled;
    }
  }

  /** Any two orders, and any repetition of claims, of the same events give the same result. */
  lemma OrderDoesNotMatter(events: seq<Event>, shuffled: seq<Event>)
    requires Distinct(events) && Distinct(shuffled)
    requires forall e :: e in events <==> e in shuffled
    ensures Run(events) == Run(shuffled) && ClosedBy(events) == ClosedBy(shuffled)
  {
    HighestWins(events);
    HighestWins(shuffled);
    OutcomeIsUnique(events, shuffled, Run(events), Run(shuffled), ClosedBy(events), ClosedBy(shuffled));
  }

  // ----- with disconnects

  datatype Call = Told(e: Event) | Left(gen: int)

  function AfterCalls(calls: seq<Call>): Slot {
    if calls == [] then EmptySlot
    else
      var slot, call := AfterCalls(calls[..|calls| - 1]), calls[|calls| - 1];
      if call.Told? then After(slot, call.e) else WithoutCurrent(slot, call.gen)
  }

  function EventsOf(calls: seq<Call>): seq<Event> {
    if calls == [] then []
    else
      var events, call := EventsOf(calls[..|calls| - 1]), calls[|calls| - 1];
      if call.Told? then events + [call.e] else events
  }

  /** A registered generation is the latest one announced. */
  predicate Consistent(slot: Slot) {
    slot.current.Some? ==> slot.current.value == slot.latest
  }

  /** However clients come, go and are announced, `latest` is the highest generation so far and nobody else is registered. */
  lemma {:induction false} AlwaysConsistent(calls: seq<Call>)
    requires forall i :: 0 <= i < |calls| && calls[i].Told? ==> calls[i].e.gen >= 1
    ensures Consistent(AfterCalls(calls)) && Highest(EventsOf(calls), AfterCalls(calls).latest)
  {
    if calls != [] {
      var rest, call := calls[..|calls| - 1], calls[|calls| - 1];
      AlwaysConsistent(rest);
      if call.Told? { HighestStep(EventsOf(rest), call.e, AfterCalls(rest).latest); }
    }
  }

  // ----- the table itself

  class Client {
    const gen: int
    var closed: bool

    constructor (gen: int)
      ensures this.gen == gen && !closed
    {
      this.gen, closed := gen, false;
    }

    method Close()
      modifies this
      ensures closed
    {
      closed := true;
    }
  }

  class Hub {
    var clients: map<string, Client>
    var latest: map<string, int>

    constructor ()
      ensures Valid() && clients == map[] && latest == map[]
    {
      clients, latest := map[], map[];
    }

    function SlotOf(player: string): Slot
      reads this
    {
      Slot(if player in latest then latest[player] else 0,
           if player in clients then Some(clients[player].gen) else None)
    }

    ghost predicate Valid()
      reads this
    {
      forall player :: player in clients ==> Consistent(SlotOf(player))
    }

    /** Makes c the player's connection unless a newer one has been announced. */
    method Register(player: string, c: Client) returns (ok: bool)
      requires Valid()
      modifies this, c, if player in clients then {clients[player]} else {}
      ensures Valid()
      ensures SlotOf(player) == After(old(SlotOf(player)), Present(c.gen))
      ensures forall other :: other != player ==> SlotOf(other) == old(SlotOf(other))
      ensures ok <==> c.gen >= old(SlotOf(player)).latest
      ensures ok ==> clients == old(clients)[player := c] && c.closed == old(c.closed)
      ensures ok && player in old(clients) && old(clients[player]) != c ==> old(clients[player]).closed
      ensures !ok ==> clients == old(clients) && latest == old(latest) && c.closed
      ensures !ok && player in clients && clients[player] != c ==> clients[player].closed == old(clients[player].closed)
    {
      if c.gen < (if player in latest then latest[player] else 0) {
        c.Close();
        return false;
      }
      latest := latest[player := c.gen];
      var displaced: Client? := if player in clients then clients[player] else null;
      clients := clients[player := c];
      if displaced != null && displaced != c {
        displaced.Close();
      }
      return true;
    }

    /** Generation gen of the player's connection now exists somewhere: an older local one goes. */
    method Claim(player: string, gen: int)
      requires Valid()
      modifies this, if player in clients then {clients[player]} else {}
      ensures Valid()
      ensures SlotOf(player) == After(old(SlotOf(player)), Claimed(gen))
      ensures forall other :: other != player ==> SlotOf(other) == old(SlotOf(other))
      ensures player in old(clients) ==>
                if old(clients[player]).gen < gen
                then clients == old(clients) - {player} && old(clients[player]).closed
                else clients == old(clients) && clients[player].closed == old(clients[player].closed)
      ensures player !in old(clients) ==> clients == old(clients)
    {
      if gen > (if player in latest then latest[player] else 0) {
        latest := latest[player := gen];
      }
      if player !in clients || clients[player].gen >= gen {
        return;
      }
      var c := clients[player];
      clients := clients - {player};
      c.Close();
    }

    /** Forgets c, unless the player has another connection by now. */
    method Unregister(player: string, c: Client)
      requires Valid()
      modifies this
      ensures Valid() && latest == old(latest)
      ensures clients == if player in old(clients) && old(clients[player]) == c then old(clients) - {player} else old(clients)
    {
      if player in clients && clients[player] == c {
        clients := clients - {player};
      }
    }
  }
}
