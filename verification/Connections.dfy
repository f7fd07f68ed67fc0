/**
 * The WebSocket connections of one game on any number of instances. A connection
 * acquires its instance's session (a hub subscribed to the game's channel, shared
 * and reference-counted), takes the player's next generation from a counter in
 * Redis, publishes it, registers with the hub, and later unregisters and releases.
 * Published generations reach every hub subscribed at that time, in any order and
 * after any delay.
 */
module Connections {
  import opened Domain
  import opened Hub

  /** An instance's session: its hub and the number of connections holding it. */
  datatype Session = Session(hub: nat, refs: int)

  datatype Stage = Joined | Numbered | Announced | Live | Leaving | Gone

  /** `gen` is 0 until the connection is numbered; `hub` is the hub it was given. */
  datatype Conn = Conn(inst: nat, player: string, hub: nat, stage: Stage, gen: int, closed: bool)

  datatype Message = Message(hub: nat, player: string, gen: int)

  /** `published` records every generation published so far; no step reads it. */
  datatype World = World(sessions: map<nat, Session>, slots: Slots, counters: map<string, int>,
                         published: map<string, set<int>>, inflight: set<Message>, conns: Conns, hubs: nat)

  datatype Action =
    | Acquire(c: nat, inst: nat, player: string)
    | Number(c: nat)
    | Publish(c: nat)
    | Register(c: nat)
    | GiveUp(c: nat)
    | Unregister(c: nat)
    | Release(c: nat)
    | Deliver(m: Message)
    | Discard(m: Message)

  const NoWorld: World := World(map[], map[], map[], map[], {}, map[], 0)

  type Slots = map<(nat, string), Slot>
  type Conns = map<nat, Conn>

  function SlotAt(slots: Slots, hub: nat, player: string): Slot {
    if (hub, player) in slots then slots[(hub, player)] else EmptySlot
  }

  function Counter(counters: map<string, int>, player: string): int {
    if player in counters then counters[player] else 0
  }

  function Published(published: map<string, set<int>>, player: string): set<int> {
    if player in published then published[player] else {}
  }

  function Subscribed(sessions: map<nat, Session>): set<nat> {
    set i | i in sessions :: sessions[i].hub
  }

  /** The session after one more connection acquired it; a missing one is created with a new hub. */
  function Acquired(session: Option<Session>, hub: nat): Session {
    if session.Some? then session.value.(refs := session.value.refs + 1) else Session(hub, 1)
  }

  /** The session after a connection released it; the last release ends it. */
  function Released(session: Session): Option<Session> {
    if session.refs > 1 then Some(session.(refs := session.refs - 1)) else None
  }

  function With(w: World, c: nat, conn: Conn): World {
    w.(conns := w.conns[c := conn])
  }

  /** An event at a hub: the player's slot changes, and the victim's client is closed. */
  function Happens(w: World, hub: nat, player: string, e: Event): World {
    var slot := SlotAt(w.slots, hub, player);
    w.(slots := w.slots[(hub, player) := After(slot, e)], conns := Strike(w.conns, hub, player, Victim(slot, e)))
  }

  function Strike(conns: Conns, hub: nat, player: string, victim: Option<int>): Conns {
    map c | c in conns :: Struck(conns[c], hub, player, victim)
  }

  function Struck(conn: Conn, hub: nat, player: string, victim: Option<int>): Conn {
    if (conn.stage == Live || conn.stage == Announced) && conn.hub == hub && conn.player == player && victim == Some(conn.gen)
    then conn.(closed := true) else conn
  }

  /** Actions that are not enabled change nothing, so every sequence of actions is a run. */
  function Step(w: World, a: Action): World {
    match a
    case Acquire(c, inst, player) => if c in w.conns then w else AcquireStep(w, c, inst, player)
    case Number(c) =>
      if c in w.conns && w.conns[c].stage == Joined then
        var gen := Counter(w.counters, w.conns[c].player) + 1;
        With(w, c, w.conns[c].(stage := Numbered, gen := gen)).(counters := w.counters[w.conns[c].player := gen])
      else w
    case Publish(c) => if c in w.conns && w.conns[c].stage == Numbered then PublishStep(w, c) else w
    case Register(c) => if c in w.conns && w.conns[c].stage == Announced then RegisterStep(w, c) else w
    case GiveUp(c) =>
      if c in w.conns && w.conns[c].stage in {Joined, Numbered, Announced} then With(w, c, w.conns[c].(stage := Leaving)) else w
    case Unregister(c) => if c in w.conns && w.conns[c].stage == Live then UnregisterStep(w, c) else w
    case Release(c) => if c in w.conns && w.conns[c].stage == Leaving then ReleaseStep(w, c) else w
    case Deliver(m) =>
      if m in w.inflight then Happens(w, m.hub, m.player, Claimed(m.gen)).(inflight := w.inflight - {m}) else w
    case Discard(m) => if m.hub !in Subscribed(w.sessions) then w.(inflight := w.inflight - {m}) else w
  }

  function AcquireStep(w: World, c: nat, inst: nat, player: string): World {
    var session := Acquired(if inst in w.sessions then Some(w.sessions[inst]) else None, w.hubs);
    With(w, c, Conn(inst, player, session.hub, Joined, 0, false))
    .(sessions := w.sessions[inst := session], hubs := if inst in w.sessions then w.hubs else w.hubs + 1)
  }

  function PublishStep(w: World, c: nat): World
    requires c in w.conns
  {
    var conn := w.conns[c];
    With(w, c, conn.(stage := Announced))
    .(published := w.published[conn.player := Published(w.published, conn.player) + {conn.gen}],
      inflight := w.inflight + set h | h in Subscribed(w.sessions) :: Message(h, conn.player, conn.gen))
  }

  function RegisterStep(w: World, c: nat): World
    requires c in w.conns
  {
    var conn := w.conns[c];
    var refused := conn.gen < SlotAt(w.slots, conn.hub, conn.player).latest;
    var w' := Happens(w, conn.hub, conn.player, Present(conn.gen));
    With(w', c, w'.conns[c].(stage := if refused then Leaving else Live))
  }

  function UnregisterStep(w: World, c: nat): World
    requires c in w.conns
  {
    var conn := w.conns[c];
    With(w, c, conn.(stage := Leaving))
    .(slots := w.slots[(conn.hub, conn.player) := WithoutCurrent(SlotAt(w.slots, conn.hub, conn.player), conn.gen)])
  }

  function ReleaseStep(w: World, c: nat): World
    requires c in w.conns
  {
    var conn := w.conns[c];
    var w' := With(w, c, conn.(stage := Gone));
    if conn.inst in w.sessions then
      var session := Released(w.sessions[conn.inst]);
      w'.(sessions := if session.Some? then w.sessions[conn.inst := session.value] else w.sessions - {conn.inst})
    else w'
  }

  function Exec(w: World, run: seq<Action>): World
    decreases |run|
  {
    if run == [] then w else Exec(Step(w, run[0]), run[1..])
  }

  // ----- the invariant

  predicate Holding(conn: Conn) { conn.stage != Gone }

  function Holders(conns: Conns, inst: nat): set<nat> {
    set c | c in conns && conns[c].inst == inst && Holding(conns[c])
  }

  /**
   * A session exists exactly while connections hold it, counts them, and is the one
   * whose hub they were all given; no two instances share a hub.
   */
  ghost predicate SessionInv(conns: Conns, sessions: map<nat, Session>, hubs: nat) {
    && (forall i :: i in sessions ==> sessions[i].refs == |Holders(conns, i)| >= 1 && sessions[i].hub < hubs)
    && (forall c :: c in conns && Holding(conns[c]) ==>
          conns[c].inst in sessions && sessions[conns[c].inst].hub == conns[c].hub)
    && (forall i, j :: i in sessions && j in sessions && i != j ==> sessions[i].hub != sessions[j].hub)
  }

  /** Has a generation that others may already know of. */
  predicate Known(conn: Conn) { conn.stage == Announced || conn.stage == Live }

  predicate Counted(conn: Conn) { conn.stage == Numbered || Known(conn) }

  /** Generations are positive, counted by the player's counter, and never shared. */
  ghost predicate GenInv(conns: Conns, counters: map<string, int>) {
    && (forall p :: Counter(counters, p) >= 0)
    && (forall c :: c in conns ==> 0 <= conns[c].gen <= Counter(counters, conns[c].player))
    && (forall c :: c in conns && Counted(conns[c]) ==> conns[c].gen >= 1)
    && (forall c, d :: c in conns && d in conns && c != d && conns[c].player == conns[d].player && conns[c].gen >= 1 ==>
          conns[c].gen != conns[d].gen)
  }

  ghost predicate PublishedInv(conns: Conns, counters: map<string, int>, published: map<string, set<int>>,
                               inflight: set<Message>)
  {
    && (forall p, gen :: gen in Published(published, p) ==> 1 <= gen <= Counter(counters, p))
    && (forall c :: c in conns && Known(conns[c]) ==> conns[c].gen in Published(published, conns[c].player))
    && (forall m :: m in inflight ==> m.gen in Published(published, m.player))
  }

  /** A generation has reached a hub, or is on its way there. */
  predicate Reaches(slots: Slots, inflight: set<Message>, hub: nat, player: string, gen: int) {
    gen <= SlotAt(slots, hub, player).latest || Message(hub, player, gen) in inflight
  }

  ghost predicate Overtakes(published: map<string, set<int>>, conn: Conn, gen: int) {
    gen in Published(published, conn.player) && gen > conn.gen
  }

  /** Every newer published generation has reached the connection's hub, or is on its way there. */
  ghost predicate MessageInv(conns: Conns, published: map<string, set<int>>, slots: Slots, inflight: set<Message>) {
    forall c, gen :: c in conns && Counted(conns[c]) && Overtakes(published, conns[c], gen) ==>
                       Reaches(slots, inflight, conns[c].hub, conns[c].player, gen)
  }

  /** What a hub knows was published, and its current client has the latest generation. */
  ghost predicate SlotInv(slots: Slots, published: map<string, set<int>>) {
    forall h, p ::
      var slot := SlotAt(slots, h, p);
      Consistent(slot) && (slot.latest == 0 || slot.latest in Published(published, p))
  }

  /** A live client is its hub's current one; a closed one has been overtaken. */
  ghost predicate ClientInv(conns: Conns, slots: Slots, published: map<string, set<int>>) {
    && (forall c :: c in conns && IsLive(conns[c]) ==>
          SlotAt(slots, conns[c].hub, conns[c].player).current == Some(conns[c].gen))
    && (forall c :: c in conns && conns[c].closed ==> exists gen :: Overtakes(published, conns[c], gen))
    && (forall c :: c in conns && conns[c].stage == Joined ==> !conns[c].closed)
  }

  predicate IsLive(conn: Conn) { conn.stage == Live && !conn.closed }

  ghost predicate WorldInv(w: World) {
    && SessionInv(w.conns, w.sessions, w.hubs)
    && GenInv(w.conns, w.counters)
    && PublishedInv(w.conns, w.counters, w.published, w.inflight)
    && MessageInv(w.conns, w.published, w.slots, w.inflight)
    && SlotInv(w.slots, w.published)
    && ClientInv(w.conns, w.slots, w.published)
  }

  // ----- steps that only close clients or move connections on

  /** Nobody gets a new identity or generation. */
  ghost predicate Tracks(conns: Conns, conns': Conns) {
    && conns'.Keys == conns.Keys
    && forall c :: c in conns ==>
      && conns'[c] == conns[c].(stage := conns'[c].stage, closed := conns'[c].closed)
      && (Counted(conns'[c]) ==> Counted(conns[c]))
      && (Known(conns'[c]) ==> Known(conns[c]))
      && (conns'[c].stage == Joined ==> conns[c].stage == Joined)
  }

  predicate Issues(a: Action) { a.Acquire? || a.Number? || a.Publish? }

  lemma StrikeTracks(conns: Conns, hub: nat, player: string, victim: Option<int>)
    ensures Tracks(conns, Strike(conns, hub, player, victim))
  {
  }

  lemma StepTracks(w: World, a: Action)
    requires !Issues(a)
    ensures Tracks(w.conns, Step(w, a).conns)
  {
    if a.Deliver? {
      StrikeTracks(w.conns, a.m.hub, a.m.player, Victim(SlotAt(w.slots, a.m.hub, a.m.player), Claimed(a.m.gen)));
    } else if a.Register? {
      if a.c in w.conns && w.conns[a.c].stage == Announced { RegisterTracks(w, a.c); }
    } else {
      LeavingTracks(w, a);
    }
  }

  lemma NothingIssued(w: World, a: Action)
    requires !Issues(a)
    ensures
      var w' := Step(w, a);
      w'.counters == w.counters && w'.published == w.published && w'.inflight <= w.inflight && w'.hubs == w.hubs
  {
  }

  lemma RegisterTracks(w: World, c: nat)
    requires c in w.conns && w.conns[c].stage == Announced
    ensures Tracks(w.conns, RegisterStep(w, c).conns)
  {
    var conn := w.conns[c];
    StrikeTracks(w.conns, conn.hub, conn.player, Victim(SlotAt(w.slots, conn.hub, conn.player), Present(conn.gen)));
  }

  /** Giving up, unregistering, releasing and discarding: at most one connection moves towards the end. */
  predicate Ends(a: Action) { a.GiveUp? || a.Unregister? || a.Release? || a.Discard? }

  /** The connections after one of them moved to a later stage. */
  predicate Departs(conns: Conns, conns': Conns, c: nat) {
    && c in conns && conns[c].stage != Gone && c in conns'
    && (conns'[c].stage == Leaving || conns'[c].stage == Gone)
    && conns' == conns[c := conns[c].(stage := conns'[c].stage)]
  }

  lemma EndsDeparts(w: World, a: Action)
    requires Ends(a) && Step(w, a).conns != w.conns
    ensures !a.Discard? && Departs(w.conns, Step(w, a).conns, a.c)
  {
  }

  lemma DepartsTracks(conns: Conns, conns': Conns, c: nat)
    requires Departs(conns, conns', c)
    ensures Tracks(conns, conns')
    ensures forall d :: d in conns ==> conns'[d].closed == conns[d].closed
    ensures forall d :: d in conns && IsLive(conns'[d]) ==> IsLive(conns[d]) && d != c
  {
  }

  lemma LeavingTracks(w: World, a: Action)
    requires Ends(a)
    ensures Tracks(w.conns, Step(w, a).conns)
    ensures forall c :: c in w.conns ==> Step(w, a).conns[c].closed == w.conns[c].closed
    ensures forall c :: c in w.conns && IsLive(Step(w, a).conns[c]) ==> IsLive(w.conns[c])
  {
    if Step(w, a).conns != w.conns {
      EndsDeparts(w, a);
      DepartsTracks(w.conns, Step(w, a).conns, a.c);
    }
  }

  lemma GenTracked(conns: Conns, conns': Conns, counters: map<string, int>)
    requires Tracks(conns, conns') && GenInv(conns, counters)
    ensures GenInv(conns', counters)
  {
  }

  lemma PublishedTracked(conns: Conns, conns': Conns, counters: map<string, int>, published: map<string, set<int>>,
                         inflight: set<Message>, inflight': set<Message>)
    requires Tracks(conns, conns') && PublishedInv(conns, counters, published, inflight) && inflight' <= inflight
    ensures PublishedInv(conns', counters, published, inflight')
  {
  }

  lemma MessageTracked(conns: Conns, conns': Conns, published: map<string, set<int>>, slots: Slots, slots': Slots,
                       inflight: set<Message>, inflight': set<Message>)
    requires Tracks(conns, conns') && MessageInv(conns, published, slots, inflight)
    requires forall c, gen :: c in conns && Counted(conns[c]) && Reaches(slots, inflight, conns[c].hub, conns[c].player, gen) ==>
                                Reaches(slots', inflight', conns[c].hub, conns[c].player, gen)
    ensures MessageInv(conns', published, slots', inflight')
  {
    forall c, gen | c in conns' && Counted(conns'[c]) && Overtakes(published, conns'[c], gen)
      ensures Reaches(slots', inflight', conns'[c].hub, conns'[c].player, gen)
    {
      assert Overtakes(published, conns[c], gen);
    }
  }

  /** A connection's hub stays subscribed as long as the connection holds its session. */
  lemma HeldHubIsSubscribed(w: World, c: nat)
    requires SessionInv(w.conns, w.sessions, w.hubs) && c in w.conns && Holding(w.conns[c])
    ensures w.conns[c].hub in Subscribed(w.sessions)
  {
  }

  lemma StillReaches(w: World, a: Action, c: nat, gen: int)
    requires WorldInv(w) && !Issues(a) && c in w.conns && Counted(w.conns[c])
    requires Reaches(w.slots, w.inflight, w.conns[c].hub, w.conns[c].player, gen)
    ensures Reaches(Step(w, a).slots, Step(w, a).inflight, w.conns[c].hub, w.conns[c].player, gen)
  {
    HeldHubIsSubscribed(w, c);
    LatestGrows(w, a, w.conns[c].hub, w.conns[c].player);
    if (a.Deliver? || a.Discard?) && Message(w.conns[c].hub, w.conns[c].player, gen) in w.inflight {
      InflightShrinks(w, a, w.conns[c], gen);
    }
  }

  lemma LatestGrows(w: World, a: Action, hub: nat, player: string)
    ensures SlotAt(Step(w, a).slots, hub, player).latest >= SlotAt(w.slots, hub, player).latest
  {
  }

  lemma InflightShrinks(w: World, a: Action, conn: Conn, gen: int)
    requires a.Deliver? || a.Discard?
    requires conn.hub in Subscribed(w.sessions) && Message(conn.hub, conn.player, gen) in w.inflight
    ensures Reaches(Step(w, a).slots, Step(w, a).inflight, conn.hub, conn.player, gen)
  {
  }

  lemma TrackingStep(w: World, a: Action)
    requires WorldInv(w) && !Issues(a)
    ensures
      var w' := Step(w, a);
      && GenInv(w'.conns, w'.counters)
      && PublishedInv(w'.conns, w'.counters, w'.published, w'.inflight)
      && MessageInv(w'.conns, w'.published, w'.slots, w'.inflight)
  {
    var w' := Step(w, a);
    StepTracks(w, a);
    NothingIssued(w, a);
    GenTracked(w.conns, w'.conns, w.counters);
    PublishedTracked(w.conns, w'.conns, w.counters, w.published, w.inflight, w'.inflight);
    forall c, gen | c in w.conns && Counted(w.conns[c]) && Reaches(w.slots, w.inflight, w.conns[c].hub, w.conns[c].player, gen)
      ensures Reaches(w'.slots, w'.inflight, w.conns[c].hub, w.conns[c].player, gen)
    {
      StillReaches(w, a, c, gen);
    }
    MessageTracked(w.conns, w'.conns, w.published, w.slots, w'.slots, w.inflight, w'.inflight);
  }

  // ----- what happens at a hub

  /** Whoever is closed has been overtaken, and whoever is not is still the hub's current client. */
  lemma EventKeepsClients(w: World, hub: nat, player: string, e: Event)
    requires SlotInv(w.slots, w.published) && ClientInv(w.conns, w.slots, w.published)
    requires e.gen >= 1 && e.gen in Published(w.published, player)
    ensures var w' := Happens(w, hub, player, e); SlotInv(w'.slots, w.published) && ClientInv(w'.conns, w'.slots, w.published)
  {
    var w' := Happens(w, hub, player, e);
    var slot := SlotAt(w.slots, hub, player);
    forall h, p ensures var s := SlotAt(w'.slots, h, p); Consistent(s) && (s.latest == 0 || s.latest in Published(w.published, p)) {
      assert Consistent(SlotAt(w.slots, h, p));
    }
    forall c | c in w'.conns && w'.conns[c].closed ensures exists gen :: Overtakes(w.published, w'.conns[c], gen) {
      if w.conns[c].closed {
        var gen :| Overtakes(w.published, w.conns[c], gen);
        assert Overtakes(w.published, w'.conns[c], gen);
      } else {
        assert Consistent(slot);
        assert Overtakes(w.published, w'.conns[c], if e.gen < slot.latest then slot.latest else e.gen);
      }
    }
  }

  lemma DeliverKeepsClients(w: World, m: Message)
    requires WorldInv(w) && m in w.inflight
    ensures var w' := Step(w, Deliver(m)); SlotInv(w'.slots, w'.published) && ClientInv(w'.conns, w'.slots, w'.published)
  {
    EventKeepsClients(w, m.hub, m.player, Claimed(m.gen));
  }

  lemma RegisterKeepsClients(w: World, c: nat)
    requires WorldInv(w) && c in w.conns && w.conns[c].stage == Announced
    ensures var w' := RegisterStep(w, c); SlotInv(w'.slots, w'.published) && ClientInv(w'.conns, w'.slots, w'.published)
  {
    var conn := w.conns[c];
    EventKeepsClients(w, conn.hub, conn.player, Present(conn.gen));
    var mid, w' := Happens(w, conn.hub, conn.player, Present(conn.gen)), RegisterStep(w, c);
    forall d | d in w'.conns && w'.conns[d].closed ensures exists gen :: Overtakes(w'.published, w'.conns[d], gen) {
      var gen :| Overtakes(mid.published, mid.conns[d], gen);
      assert Overtakes(w'.published, w'.conns[d], gen);
    }
  }

  lemma ClosedStaysOvertaken(conns: Conns, conns': Conns, published: map<string, set<int>>, published': map<string, set<int>>)
    requires conns'.Keys >= conns.Keys
    requires forall c :: c in conns' && conns'[c].closed ==>
                           c in conns && conns[c].closed && conns'[c].player == conns[c].player && conns'[c].gen == conns[c].gen
    requires forall p :: Published(published, p) <= Published(published', p)
    requires forall c :: c in conns && conns[c].closed ==> exists gen :: Overtakes(published, conns[c], gen)
    ensures forall c :: c in conns' && conns'[c].closed ==> exists gen :: Overtakes(published', conns'[c], gen)
  {
    forall c | c in conns' && conns'[c].closed ensures exists gen :: Overtakes(published', conns'[c], gen) {
      var gen :| Overtakes(published, conns[c], gen);
      assert gen in Published(published', conns[c].player);
      assert Overtakes(published', conns'[c], gen);
    }
  }

  lemma UnregisterKeepsSlots(w: World, c: nat)
    requires SlotInv(w.slots, w.published) && c in w.conns
    ensures var w' := UnregisterStep(w, c); SlotInv(w'.slots, w'.published)
  {
    var w' := UnregisterStep(w, c);
    forall h, p ensures var s := SlotAt(w'.slots, h, p);
                        Consistent(s) && (s.latest == 0 || s.latest in Published(w.published, p))
    {
      assert Consistent(SlotAt(w.slots, h, p));
    }
  }

  lemma UnregisterKeepsClients(w: World, c: nat)
    requires GenInv(w.conns, w.counters) && ClientInv(w.conns, w.slots, w.published)
    requires c in w.conns && w.conns[c].stage == Live
    ensures var w' := UnregisterStep(w, c); ClientInv(w'.conns, w'.slots, w'.published)
  {
    var w' := UnregisterStep(w, c);
    DepartsTracks(w.conns, w'.conns, c);
    ClosedStaysOvertaken(w.conns, w'.conns, w.published, w'.published);
    forall d | d in w'.conns && IsLive(w'.conns[d])
      ensures SlotAt(w'.slots, w'.conns[d].hub, w'.conns[d].player).current == Some(w'.conns[d].gen)
    {
      assert IsLive(w.conns[d]);
    }
  }

  /** Leaving connections are nobody's current client any more; nobody else is affected. */
  lemma LeaveKeepsClients(w: World, a: Action)
    requires GenInv(w.conns, w.counters) && SlotInv(w.slots, w.published) && ClientInv(w.conns, w.slots, w.published)
    requires Ends(a)
    ensures var w' := Step(w, a); SlotInv(w'.slots, w'.published) && ClientInv(w'.conns, w'.slots, w'.published)
  {
    if a.Unregister? {
      if a.c in w.conns && w.conns[a.c].stage == Live {
        UnregisterKeepsSlots(w, a.c);
        UnregisterKeepsClients(w, a.c);
      }
    } else {
      var w' := Step(w, a);
      SlotsKept(w, a);
      LeavingTracks(w, a);
      ClosedStaysOvertaken(w.conns, w'.conns, w.published, w.published);
    }
  }

  lemma SlotsKept(w: World, a: Action)
    requires Ends(a)
    ensures Step(w, a).published == w.published && (!a.Unregister? ==> Step(w, a).slots == w.slots)
  {
  }

  // ----- steps that issue something new

  lemma GenAfterNew(conns: Conns, counters: map<string, int>, c: nat, conn: Conn, counters': map<string, int>)
    requires GenInv(conns, counters) && forall p :: Counter(counters', p) >= Counter(counters, p)
    requires 0 <= conn.gen <= Counter(counters', conn.player) && (Counted(conn) ==> conn.gen >= 1)
    requires || conn.gen == 0
             || conn.gen > Counter(counters, conn.player)
             || (c in conns && conn.player == conns[c].player && conn.gen == conns[c].gen)
    ensures GenInv(conns[c := conn], counters')
  {
  }

  lemma PublishedAfterNew(conns: Conns, counters: map<string, int>, published: map<string, set<int>>, inflight: set<Message>,
                          c: nat, conn: Conn, counters': map<string, int>, published': map<string, set<int>>,
                          inflight': set<Message>)
    requires PublishedInv(conns, counters, published, inflight)
    requires forall p :: Counter(counters', p) >= Counter(counters, p)
    requires forall p :: Published(published, p) <= Published(published', p)
    requires forall p, gen :: gen in Published(published', p) ==>
                                gen in Published(published, p) || 1 <= gen <= Counter(counters', p)
    requires Known(conn) ==> conn.gen in Published(published', conn.player)
    requires forall m :: m in inflight' ==> m in inflight || m.gen in Published(published', m.player)
    ensures PublishedInv(conns[c := conn], counters', published', inflight')
  {
  }

  lemma AcquireKeepsGens(w: World, c: nat, inst: nat, player: string)
    requires GenInv(w.conns, w.counters) && PublishedInv(w.conns, w.counters, w.published, w.inflight) && c !in w.conns
    ensures
      var w' := AcquireStep(w, c, inst, player);
      GenInv(w'.conns, w'.counters) && PublishedInv(w'.conns, w'.counters, w'.published, w'.inflight)
  {
    var conn := AcquireStep(w, c, inst, player).conns[c];
    GenAfterNew(w.conns, w.counters, c, conn, w.counters);
    PublishedAfterNew(w.conns, w.counters, w.published, w.inflight, c, conn, w.counters, w.published, w.inflight);
  }

  /** A connection without a generation has nothing to miss and no client. */
  lemma AcquireKeepsClients(w: World, c: nat, inst: nat, player: string)
    requires MessageInv(w.conns, w.published, w.slots, w.inflight) && ClientInv(w.conns, w.slots, w.published)
    requires c !in w.conns
    ensures
      var w' := AcquireStep(w, c, inst, player);
      MessageInv(w'.conns, w'.published, w'.slots, w'.inflight) && ClientInv(w'.conns, w'.slots, w'.published)
  {
    ClosedStaysOvertaken(w.conns, AcquireStep(w, c, inst, player).conns, w.published, w.published);
  }

  lemma NumberKeepsGens(w: World, c: nat)
    requires GenInv(w.conns, w.counters) && PublishedInv(w.conns, w.counters, w.published, w.inflight)
    requires c in w.conns && w.conns[c].stage == Joined
    ensures
      var w' := Step(w, Number(c));
      GenInv(w'.conns, w'.counters) && PublishedInv(w'.conns, w'.counters, w'.published, w'.inflight)
  {
    var w' := Step(w, Number(c));
    GenAfterNew(w.conns, w.counters, c, w'.conns[c], w'.counters);
    PublishedAfterNew(w.conns, w.counters, w.published, w.inflight, c, w'.conns[c], w'.counters, w.published, w.inflight);
  }

  /** The new generation is above all published ones, so there is nothing the connection missed. */
  lemma NumberKeepsClients(w: World, c: nat)
    requires PublishedInv(w.conns, w.counters, w.published, w.inflight)
    requires MessageInv(w.conns, w.published, w.slots, w.inflight) && ClientInv(w.conns, w.slots, w.published)
    requires c in w.conns && w.conns[c].stage == Joined
    ensures
      var w' := Step(w, Number(c));
      MessageInv(w'.conns, w'.published, w'.slots, w'.inflight) && ClientInv(w'.conns, w'.slots, w'.published)
  {
    var w' := Step(w, Number(c));
    ClosedStaysOvertaken(w.conns, w'.conns, w.published, w'.published);
    forall d, gen | d in w'.conns && Counted(w'.conns[d]) && Overtakes(w'.published, w'.conns[d], gen)
      ensures Reaches(w'.slots, w'.inflight, w'.conns[d].hub, w'.conns[d].player, gen)
    {
      assert d != c ==> Overtakes(w.published, w.conns[d], gen);
    }
  }

  lemma PublishKeepsGens(w: World, c: nat)
    requires GenInv(w.conns, w.counters) && PublishedInv(w.conns, w.counters, w.published, w.inflight)
    requires c in w.conns && w.conns[c].stage == Numbered
    ensures
      var w' := PublishStep(w, c);
      GenInv(w'.conns, w'.counters) && PublishedInv(w'.conns, w'.counters, w'.published, w'.inflight)
  {
    var w' := PublishStep(w, c);
    GenAfterNew(w.conns, w.counters, c, w'.conns[c], w.counters);
    PublishedAfterNew(w.conns, w.counters, w.published, w.inflight, c, w'.conns[c], w.counters, w'.published, w'.inflight);
  }

  /** The message goes to every subscribed hub, hence to that of every connection under way. */
  lemma PublishKeepsMessages(w: World, c: nat)
    requires SessionInv(w.conns, w.sessions, w.hubs) && MessageInv(w.conns, w.published, w.slots, w.inflight)
    requires c in w.conns && w.conns[c].stage == Numbered
    ensures var w' := PublishStep(w, c); MessageInv(w'.conns, w'.published, w'.slots, w'.inflight)
  {
    var w' := PublishStep(w, c);
    forall d, gen | d in w'.conns && Counted(w'.conns[d]) && Overtakes(w'.published, w'.conns[d], gen)
      ensures Reaches(w'.slots, w'.inflight, w'.conns[d].hub, w'.conns[d].player, gen)
    {
      HeldHubIsSubscribed(w, d);
      if Overtakes(w.published, w.conns[d], gen) {
        assert Reaches(w.slots, w.inflight, w.conns[d].hub, w.conns[d].player, gen);
      }
    }
  }

  lemma PublishKeepsClients(w: World, c: nat)
    requires SlotInv(w.slots, w.published) && ClientInv(w.conns, w.slots, w.published)
    requires c in w.conns && w.conns[c].stage == Numbered
    ensures var w' := PublishStep(w, c); SlotInv(w'.slots, w'.published) && ClientInv(w'.conns, w'.slots, w'.published)
  {
    var w' := PublishStep(w, c);
    ClosedStaysOvertaken(w.conns, w'.conns, w.published, w'.published);
    forall h, p ensures var s := SlotAt(w'.slots, h, p); Consistent(s) && (s.latest == 0 || s.latest in Published(w'.published, p)) {
      assert Consistent(SlotAt(w.slots, h, p));
    }
  }

  // ----- sessions

  lemma AcquireKeepsSessions(w: World, c: nat, inst: nat, player: string)
    requires SessionInv(w.conns, w.sessions, w.hubs) && c !in w.conns
    ensures var w' := AcquireStep(w, c, inst, player); SessionInv(w'.conns, w'.sessions, w'.hubs)
  {
    var w' := AcquireStep(w, c, inst, player);
    if inst !in w.sessions { NobodyHolds(w, inst); }
    SessionsAfterAcquire(w.conns, w.sessions, w.hubs, c, w'.conns[c], w'.sessions[inst], w'.hubs);
  }

  lemma SessionsAfterAcquire(conns: Conns, sessions: map<nat, Session>, hubs: nat, c: nat, conn: Conn, session: Session,
                             hubs': nat)
    requires SessionInv(conns, sessions, hubs) && c !in conns && hubs' >= hubs
    requires Holding(conn) && conn.hub == session.hub
    requires if conn.inst in sessions
             then session == sessions[conn.inst].(refs := sessions[conn.inst].refs + 1)
             else session == Session(hubs, 1) && hubs' > hubs && Holders(conns, conn.inst) == {}
    ensures SessionInv(conns[c := conn], sessions[conn.inst := session], hubs')
  {
    AcquireHolders(conns, c, conn);
  }

  lemma NobodyHolds(w: World, inst: nat)
    requires SessionInv(w.conns, w.sessions, w.hubs) && inst !in w.sessions
    ensures Holders(w.conns, inst) == {}
  {
    forall d | d in w.conns ensures d !in Holders(w.conns, inst) {
    }
  }

  lemma AcquireHolders(conns: Conns, c: nat, conn: Conn)
    requires c !in conns && Holding(conn)
    ensures Holders(conns[c := conn], conn.inst) == Holders(conns, conn.inst) + {c} && c !in Holders(conns, conn.inst)
    ensures forall i :: i != conn.inst ==> Holders(conns[c := conn], i) == Holders(conns, i)
  {
  }

  lemma ReleaseHolders(conns: Conns, c: nat)
    requires c in conns && Holding(conns[c])
    ensures
      var conns' := conns[c := conns[c].(stage := Gone)];
      && Holders(conns', conns[c].inst) == Holders(conns, conns[c].inst) - {c} && c in Holders(conns, conns[c].inst)
      && forall i :: i != conns[c].inst ==> Holders(conns', i) == Holders(conns, i)
  {
  }

  lemma ReleaseKeepsSessions(w: World, c: nat)
    requires SessionInv(w.conns, w.sessions, w.hubs) && c in w.conns && w.conns[c].stage == Leaving
    ensures var w' := ReleaseStep(w, c); SessionInv(w'.conns, w'.sessions, w'.hubs)
  {
    var w', inst := ReleaseStep(w, c), w.conns[c].inst;
    ReleaseHolders(w.conns, c);
    assert |Holders(w'.conns, inst)| == |Holders(w.conns, inst)| - 1;
    forall d | d in w'.conns && Holding(w'.conns[d])
      ensures w'.conns[d].inst in w'.sessions && w'.sessions[w'.conns[d].inst].hub == w'.conns[d].hub
    {
      assert Holding(w.conns[d]);
      assert d in Holders(w'.conns, w'.conns[d].inst);
    }
  }

  lemma StepKeepsSessions(w: World, a: Action)
    requires SessionInv(w.conns, w.sessions, w.hubs)
    ensures var w' := Step(w, a); SessionInv(w'.conns, w'.sessions, w'.hubs)
  {
    var w' := Step(w, a);
    if w' != w {
      if a.Acquire? {
        AcquireKeepsSessions(w, a.c, a.inst, a.player);
      } else if a.Release? {
        ReleaseKeepsSessions(w, a.c);
      } else {
        HoldersKept(w, a);
      }
    }
  }

  lemma HoldersKept(w: World, a: Action)
    requires SessionInv(w.conns, w.sessions, w.hubs) && !a.Acquire? && !a.Release?
    ensures var w' := Step(w, a); SessionInv(w'.conns, w'.sessions, w'.hubs)
  {
    var w' := Step(w, a);
    SameHolders(w, a);
    forall i | i in w.sessions ensures Holders(w'.conns, i) == Holders(w.conns, i) {
    }
  }

  ghost predicate SessionsAlike(w: World, w': World) {
    && w'.sessions == w.sessions && w'.hubs == w.hubs && w'.conns.Keys == w.conns.Keys
    && forall c :: c in w.conns ==> SameHolding(w.conns[c], w'.conns[c])
  }

  lemma SameHolders(w: World, a: Action)
    requires !a.Acquire? && !a.Release?
    ensures SessionsAlike(w, Step(w, a))
  {
    if a.Deliver? {
      StrikeHolds(w.conns, a.m.hub, a.m.player, Victim(SlotAt(w.slots, a.m.hub, a.m.player), Claimed(a.m.gen)));
    } else if a.Register? {
      RegisterHolds(w, a.c);
    } else {
      OneMovesHolds(w, a);
    }
  }

  lemma OneMovesHolds(w: World, a: Action)
    requires a.Number? || a.Publish? || a.GiveUp? || a.Unregister? || a.Discard?
    ensures SessionsAlike(w, Step(w, a))
  {
    if !a.Discard? && a.c in w.conns && Step(w, a) != w {
      OneChangesHolds(w, Step(w, a), a.c, Step(w, a).conns[a.c]);
    }
  }

  lemma OneChangesHolds(w: World, w': World, c: nat, conn: Conn)
    requires c in w.conns && SameHolding(w.conns[c], conn) && w'.conns == w.conns[c := conn]
    requires w'.sessions == w.sessions && w'.hubs == w.hubs
    ensures SessionsAlike(w, w')
  {
  }

  lemma RegisterHolds(w: World, c: nat)
    ensures SessionsAlike(w, Step(w, Register(c)))
  {
    if c in w.conns {
      var conn := w.conns[c];
      StrikeHolds(w.conns, conn.hub, conn.player, Victim(SlotAt(w.slots, conn.hub, conn.player), Present(conn.gen)));
    }
  }

  predicate SameHolding(conn: Conn, conn': Conn) {
    conn'.inst == conn.inst && conn'.hub == conn.hub && Holding(conn') == Holding(conn)
  }

  lemma StrikeHolds(conns: Conns, hub: nat, player: string, victim: Option<int>)
    ensures
      var conns' := Strike(conns, hub, player, victim);
      conns'.Keys == conns.Keys && forall c :: c in conns ==> SameHolding(conns[c], conns'[c])
  {
  }

  // ----- runs

  lemma StepKeepsWorldInv(w: World, a: Action)
    requires WorldInv(w)
    ensures WorldInv(Step(w, a))
  {
    var w' := Step(w, a);
    StepKeepsSessions(w, a);
    if w' != w {
      match a {
        case Acquire(c, inst, player) => AcquireKeepsGens(w, c, inst, player); AcquireKeepsClients(w, c, inst, player);
        case Number(c) => NumberKeepsGens(w, c); NumberKeepsClients(w, c);
        case Publish(c) => PublishKeepsGens(w, c); PublishKeepsMessages(w, c); PublishKeepsClients(w, c);
        case Register(c) => TrackingStep(w, a); RegisterKeepsClients(w, c);
        case Deliver(m) => TrackingStep(w, a); DeliverKeepsClients(w, m);
        case _ => TrackingStep(w, a); LeaveKeepsClients(w, a);
      }
    }
  }

  lemma {:induction false} RunKeepsWorldInv(w: World, run: seq<Action>)
    requires WorldInv(w)
    ensures WorldInv(Exec(w, run))
    decreases |run|
  {
    if run != [] {
      StepKeepsWorldInv(w, run[0]);
      RunKeepsWorldInv(Step(w, run[0]), run[1..]);
    }
  }

  // ----- the result

  /** Nothing about the player is under way: claims are delivered, handlers are past Register. */
  ghost predicate Quiet(w: World, player: string) {
    && (forall m :: m in w.inflight && m.player == player ==> m.hub !in Subscribed(w.sessions))
    && (forall c :: c in w.conns && w.conns[c].player == player ==> w.conns[c].stage in {Live, Leaving, Gone})
  }

  lemma QuietMeansNewestOnly(w: World, c: nat)
    requires WorldInv(w) && c in w.conns && w.conns[c].stage == Live && Quiet(w, w.conns[c].player)
    ensures IsLive(w.conns[c]) <==>
            forall gen :: gen in Published(w.published, w.conns[c].player) ==> gen <= w.conns[c].gen
  {
    var conn := w.conns[c];
    if IsLive(conn) {
      forall gen | gen in Published(w.published, conn.player) ensures gen <= conn.gen {
        if gen > conn.gen {
          assert Overtakes(w.published, conn, gen);
          HeldHubIsSubscribed(w, c);
        }
      }
    }
  }

  lemma QuietMeansAtMostOne(w: World, c: nat, d: nat)
    requires WorldInv(w) && c in w.conns && d in w.conns
    requires IsLive(w.conns[c]) && IsLive(w.conns[d]) && w.conns[c].player == w.conns[d].player
    requires Quiet(w, w.conns[c].player)
    ensures c == d
  {
    QuietMeansNewestOnly(w, c);
    QuietMeansNewestOnly(w, d);
  }

  /**
   * In every run from nothing: once everything about a player has settled, a
   * registered connection of the player is still live exactly if no higher generation
   * was ever published, so at most one is, on whichever instance, and it is the newest.
   */
  lemma NewestConnectionWins(run: seq<Action>, player: string, c: nat, d: nat)
    ensures
      var w := Exec(NoWorld, run);
      Quiet(w, player) && c in w.conns && w.conns[c].player == player && w.conns[c].stage == Live ==>
        && (IsLive(w.conns[c]) <==> forall gen :: gen in Published(w.published, player) ==> gen <= w.conns[c].gen)
        && (IsLive(w.conns[c]) && d in w.conns && w.conns[d].player == player && IsLive(w.conns[d]) ==> c == d)
  {
    assert WorldInv(NoWorld);
    RunKeepsWorldInv(NoWorld, run);
    var w := Exec(NoWorld, run);
    if Quiet(w, player) && c in w.conns && w.conns[c].player == player && w.conns[c].stage == Live {
      QuietMeansNewestOnly(w, c);
      if IsLive(w.conns[c]) && d in w.conns && w.conns[d].player == player && IsLive(w.conns[d]) {
        QuietMeansAtMostOne(w, c, d);
      }
    }
  }

  /** A session exists exactly while connections hold it, and it is the one every one of them was given. */
  lemma SessionsAreCounted(run: seq<Action>, i: nat, c: nat)
    ensures
      var w := Exec(NoWorld, run);
      && (i in w.sessions <==> Holders(w.conns, i) != {})
      && (i in w.sessions ==> w.sessions[i].refs == |Holders(w.conns, i)|)
      && (c in Holders(w.conns, i) ==> i in w.sessions && w.sessions[i].hub == w.conns[c].hub)
  {
    assert WorldInv(NoWorld);
    RunKeepsWorldInv(NoWorld, run);
    var w := Exec(NoWorld, run);
    if Holders(w.conns, i) != {} {
      var d :| d in Holders(w.conns, i);
    }
  }
}
