/** That connections are let in: the other half of "at most one live connection". */
module Admission {
  import opened Domain
  import opened Hub
  import opened Connections

  /** The newest generation published for its player is the connection's own. */
  ghost predicate IsNewest(w: World, conn: Conn) {
    forall gen :: gen in Published(w.published, conn.player) ==> gen <= conn.gen
  }

  /** A connection is refused only if its hub has heard of a newer one, and the newest never. */
  lemma RegisterLetsIn(w: World, c: nat)
    requires WorldInv(w) && c in w.conns && w.conns[c].stage == Announced
    ensures
      var conn, conn' := w.conns[c], Step(w, Register(c)).conns[c];
      && conn'.stage == (if SlotAt(w.slots, conn.hub, conn.player).latest <= conn.gen then Live else Leaving)
      && (IsNewest(w, conn) ==> IsLive(conn'))
      && (conn'.stage == Leaving ==>
            exists gen :: Overtakes(w.published, conn, gen) && gen <= SlotAt(w.slots, conn.hub, conn.player).latest)
  {
    var conn := w.conns[c];
    var latest := SlotAt(w.slots, conn.hub, conn.player).latest;
    assert latest == 0 || latest in Published(w.published, conn.player);
    if latest > conn.gen { assert Overtakes(w.published, conn, latest); }
  }

  /** In any run the newest connection is let in when it registers. */
  lemma NewestIsLetIn(run: seq<Action>, c: nat)
    ensures
      var w := Exec(NoWorld, run);
      c in w.conns && w.conns[c].stage == Announced && IsNewest(w, w.conns[c]) ==> IsLive(Step(w, Register(c)).conns[c])
  {
    assert WorldInv(NoWorld);
    RunKeepsWorldInv(NoWorld, run);
    var w := Exec(NoWorld, run);
    if c in w.conns && w.conns[c].stage == Announced { RegisterLetsIn(w, c); }
  }

  /** And it is the one: once the player has settled, it and no other connection of the player is live. */
  lemma ExactlyTheNewest(run: seq<Action>, c: nat)
    ensures
      var w := Exec(NoWorld, run);
      c in w.conns && w.conns[c].stage == Live && IsNewest(w, w.conns[c]) && Quiet(w, w.conns[c].player) ==>
        forall d :: d in w.conns && w.conns[d].player == w.conns[c].player ==> (IsLive(w.conns[d]) <==> d == c)
  {
    assert WorldInv(NoWorld);
    RunKeepsWorldInv(NoWorld, run);
    var w := Exec(NoWorld, run);
    if c in w.conns && w.conns[c].stage == Live && IsNewest(w, w.conns[c]) && Quiet(w, w.conns[c].player) {
      QuietMeansNewestOnly(w, c);
      forall d | d in w.conns && w.conns[d].player == w.conns[c].player && IsLive(w.conns[d]) ensures d == c {
        QuietMeansAtMostOne(w, c, d);
      }
    }
  }

  // ----- a connection that is left alone

  lemma FourSteps(w: World, a: Action, b: Action, c: Action, d: Action)
    ensures Exec(w, [a, b, c, d]) == Step(Step(Step(Step(w, a), b), c), d)
  {
    var w3 := Step(Step(Step(w, a), b), c);
    assert [a, b, c, d][1..] == [b, c, d] && [b, c, d][1..] == [c, d] && [c, d][1..] == [d] && [d][1..] == [];
    assert Exec(Step(w3, d), []) == Step(w3, d);
    assert Exec(w3, [d]) == Step(w3, d);
    assert Exec(Step(Step(w, a), b), [c, d]) == Step(w3, d);
  }

  /** The connection as it enters the world: with its instance's hub, and the player's next generation. */
  function Introduced(w: World, inst: nat, player: string, stage: Stage): Conn {
    var session := Acquired(if inst in w.sessions then Some(w.sessions[inst]) else None, w.hubs);
    Conn(inst, player, session.hub, stage, if stage == Joined then 0 else Counter(w.counters, player) + 1, false)
  }

  lemma UndisturbedNumber(w: World, c: nat, inst: nat, player: string)
    requires c !in w.conns
    ensures
      var w' := Step(Step(w, Acquire(c, inst, player)), Number(c));
      && w'.conns == w.conns[c := Introduced(w, inst, player, Numbered)]
      && w'.counters == w.counters[player := Counter(w.counters, player) + 1]
      && w'.sessions ==
         w.sessions[inst := Acquired(if inst in w.sessions then Some(w.sessions[inst]) else None, w.hubs)]
      && w'.published == w.published && w'.inflight == w.inflight && w'.slots == w.slots
  {
    var w1 := Step(w, Acquire(c, inst, player));
    assert w1.conns == w.conns[c := Introduced(w, inst, player, Joined)];
  }

  /** Its generation is announced to every hub with a subscription, its own included. */
  ghost predicate IsIntroduced(w: World, w': World, c: nat, conn: Conn) {
    && c !in w.conns && w'.conns == w.conns[c := conn] && w'.slots == w.slots
    && w'.published == w.published[conn.player := Published(w.published, conn.player) + {conn.gen}]
    && (forall h :: h in Subscribed(w'.sessions) ==> Message(h, conn.player, conn.gen) in w'.inflight)
    && conn.hub in Subscribed(w'.sessions)
  }

  lemma UndisturbedPublish(w: World, c: nat, inst: nat, player: string)
    requires c !in w.conns
    ensures
      var w' := Step(Step(Step(w, Acquire(c, inst, player)), Number(c)), Publish(c));
      IsIntroduced(w, w', c, Introduced(w, inst, player, Announced))
  {
    UndisturbedNumber(w, c, inst, player);
    var w2 := Step(Step(w, Acquire(c, inst, player)), Number(c));
    assert w2.sessions[inst].hub in Subscribed(w2.sessions);
    Publishes(w2, c);
  }

  lemma Publishes(w: World, c: nat)
    requires c in w.conns && w.conns[c].stage == Numbered
    ensures
      var conn, w' := w.conns[c], Step(w, Publish(c));
      && w'.conns == w.conns[c := conn.(stage := Announced)] && w'.slots == w.slots && w'.sessions == w.sessions
      && w'.published == w.published[conn.player := Published(w.published, conn.player) + {conn.gen}]
      && (forall h :: h in Subscribed(w.sessions) ==> Message(h, conn.player, conn.gen) in w'.inflight)
  {
  }

  lemma IntroducedInv(w: World, c: nat, inst: nat, player: string)
    requires WorldInv(w)
    ensures WorldInv(Step(Step(Step(w, Acquire(c, inst, player)), Number(c)), Publish(c)))
  {
    StepKeepsWorldInv(w, Acquire(c, inst, player));
    StepKeepsWorldInv(Step(w, Acquire(c, inst, player)), Number(c));
    StepKeepsWorldInv(Step(Step(w, Acquire(c, inst, player)), Number(c)), Publish(c));
  }

  /** The connection is live, has taken over on its hub, and is on its way to be known everywhere. */
  ghost predicate IsConnected(w: World, w': World, c: nat, conn: Conn) {
    && w'.conns.Keys == w.conns.Keys + {c} && w'.conns[c] == conn && IsNewest(w', conn)
    && TakesOver(w.conns, w'.conns, conn)
    && (forall h :: h in Subscribed(w'.sessions) ==> Message(h, conn.player, conn.gen) in w'.inflight)
  }

  /** The player's live clients on the connection's hub are closed, and nobody else is. */
  ghost predicate TakesOver(conns: Conns, conns': Conns, conn: Conn) {
    forall d :: d in conns && IsLive(conns[d]) ==>
      d in conns' && (IsLive(conns'[d]) <==> !(conns[d].hub == conn.hub && conns[d].player == conn.player))
  }

  lemma IntroducedConnects(w: World, w': World, c: nat, conn: Conn)
    requires WorldInv(w') && IsIntroduced(w, w', c, conn) && conn.stage == Announced && IsNewest(w', conn)
    ensures IsConnected(w, Step(w', Register(c)), c, conn.(stage := Live))
  {
    RegisterTakesOver(w', c);
    var conns := Step(w', Register(c)).conns;
    forall d | d in w.conns && IsLive(w.conns[d])
      ensures IsLive(conns[d]) <==> !(w.conns[d].hub == conn.hub && w.conns[d].player == conn.player)
    {
      assert w'.conns[d] == w.conns[d];
    }
  }

  lemma IntroducedIsNewest(w: World, w': World, c: nat, conn: Conn)
    requires WorldInv(w) && IsIntroduced(w, w', c, conn) && conn.gen == Counter(w.counters, conn.player) + 1
    ensures IsNewest(w', conn)
  {
    forall gen | gen in Published(w'.published, conn.player) ensures gen <= conn.gen {
      assert gen in Published(w.published, conn.player) || gen == conn.gen;
    }
  }

  /**
   * A connection that is left alone becomes live with the player's next generation. On
   * its own hub it has taken over from the player's earlier client; every hub with a
   * subscription has its announcement on the way.
   */
  lemma UndisturbedConnection(w: World, c: nat, inst: nat, player: string)
    requires WorldInv(w) && c !in w.conns
    ensures
      var w' := Exec(w, [Acquire(c, inst, player), Number(c), Publish(c), Register(c)]);
      IsConnected(w, w', c, Introduced(w, inst, player, Live))
  {
    var w' := Step(Step(Step(w, Acquire(c, inst, player)), Number(c)), Publish(c));
    FourSteps(w, Acquire(c, inst, player), Number(c), Publish(c), Register(c));
    UndisturbedPublish(w, c, inst, player);
    IntroducedInv(w, c, inst, player);
    IntroducedIsNewest(w, w', c, Introduced(w, inst, player, Announced));
    IntroducedConnects(w, w', c, Introduced(w, inst, player, Announced));
  }

  /** A registering connection that is let in closes its hub's earlier client of the player, and nobody else's. */
  lemma RegisterTakesOver(w: World, c: nat)
    requires WorldInv(w) && c in w.conns && w.conns[c].stage == Announced && IsNewest(w, w.conns[c])
    ensures
      var conn, w' := w.conns[c], Step(w, Register(c));
      && w'.conns.Keys == w.conns.Keys && w'.sessions == w.sessions && w'.inflight == w.inflight
      && w'.published == w.published
      && w'.conns[c] == conn.(stage := Live)
      && TakesOver(w.conns, w'.conns, conn)
  {
    RegisterLetsIn(w, c);
    NewestIsOpen(w, c);
  }

  lemma NewestIsOpen(w: World, c: nat)
    requires ClientInv(w.conns, w.slots, w.published) && c in w.conns && IsNewest(w, w.conns[c])
    ensures !w.conns[c].closed
  {
  }

  /** An announcement closes every live client of the player that is older, on the hub it reaches. */
  lemma DeliveryCloses(w: World, m: Message)
    requires WorldInv(w) && m in w.inflight
    ensures
      var w' := Step(w, Deliver(m));
      && SlotAt(w'.slots, m.hub, m.player).latest >= m.gen
      && forall d :: d in w.conns && IsLive(w.conns[d]) ==>
           && d in w'.conns
           && (IsLive(w'.conns[d]) <==>
                 !(w.conns[d].hub == m.hub && w.conns[d].player == m.player && w.conns[d].gen < m.gen))
  {
  }

  /** And leaving again gives the reference back, whatever became of the client meanwhile. */
  lemma UndisturbedLeave(w: World, c: nat)
    requires WorldInv(w) && c in w.conns && w.conns[c].stage == Live
    ensures
      var conn, w' := w.conns[c], Step(Step(w, Unregister(c)), Release(c));
      && conn.inst in w.sessions
      && w'.conns == w.conns[c := conn.(stage := Gone)]
      && w'.sessions == Without(w.sessions, conn.inst)
  {
    Unregisters(w, c);
    Releases(Step(w, Unregister(c)), c);
    assert w.conns[c].inst in w.sessions;
  }

  /** So does giving up before the connection is registered. */
  lemma UndisturbedGiveUp(w: World, c: nat)
    requires WorldInv(w) && c in w.conns && w.conns[c].stage in {Joined, Numbered, Announced}
    ensures
      var conn, w' := w.conns[c], Step(Step(w, GiveUp(c)), Release(c));
      && conn.inst in w.sessions
      && w'.conns == w.conns[c := conn.(stage := Gone)]
      && w'.sessions == Without(w.sessions, conn.inst)
  {
    var w1 := Step(w, GiveUp(c));
    assert w1.conns == w.conns[c := w.conns[c].(stage := Leaving)] && w1.sessions == w.sessions;
    Releases(w1, c);
    assert w.conns[c].inst in w.sessions;
  }

  lemma Unregisters(w: World, c: nat)
    requires c in w.conns && w.conns[c].stage == Live
    ensures
      var w' := Step(w, Unregister(c));
      w'.conns == w.conns[c := w.conns[c].(stage := Leaving)] && w'.sessions == w.sessions
  {
  }

  lemma Releases(w: World, c: nat)
    requires c in w.conns && w.conns[c].stage == Leaving && w.conns[c].inst in w.sessions
    ensures
      var conn, w' := w.conns[c], Step(w, Release(c));
      w'.conns == w.conns[c := conn.(stage := Gone)] && w'.sessions == Without(w.sessions, conn.inst)
  {
  }

  /** The sessions with one reference less to that of the instance. */
  function Without(sessions: map<nat, Session>, inst: nat): map<nat, Session>
    requires inst in sessions
  {
    if sessions[inst].refs > 1 then sessions[inst := sessions[inst].(refs := sessions[inst].refs - 1)]
    else sessions - {inst}
  }
}
