/** What the classes are proved against is what the steps of the tunnel do: Route is a delivery, and an
    effect on one stream is a step of its Conn. */
module Bridge {
  import opened StreamCore
  import opened IdPool
  import opened Link
  import opened Tunnel
  import opened TunnelSafety
  import FabricSpec
  import LinkSafety

  /** The mapped streams of an end, by id. */
  function Cores(e: Endpoint): map<Id, Core>
    requires MapsOwn(e)
  {
    map id | id in e.weaves :: e.conns[e.weaves[id]].half.core
  }

  lemma CoresSettle(e: Endpoint, tag: nat, eff: HalfEffect)
    requires MapsOwn(e) && Mapped(e, tag)
    ensures MapsOwn(Settle(e, tag, eff))
    ensures var id := e.conns[tag].streamid;
            Cores(Settle(e, tag, eff)) ==
            if eff.keep then Cores(e)[id := eff.half.core] else Cores(e) - {id}
  {
    SettleBooks(e, tag, eff);
  }

  /** The packets of a wire, without the tags that only name streams. */
  function Untagged(w: seq<Item>): seq<FabricSpec.Packet> {
    seq(|w|, i requires 0 <= i < |w| => (w[i].id, w[i].frame))
  }

  /** An end of the tunnel as a fabric that has written the packets of its outgoing wire. */
  function FabricAt(s: State, side: Side): FabricSpec.Fab
    requires MapsOwn(At(s, side))
  {
    FabricSpec.Fab(Cores(At(s, side)), Untagged(Inbox(s, Peer(side))))
  }

  lemma UntaggedAppend(w: seq<Item>, id: Id, tag: nat, out: seq<Frame>)
    ensures Untagged(w + Stamp(id, tag, out)) == Untagged(w) + FabricSpec.Labels(id, out)
  {
  }

  lemma ArriveMappedIsRoute(s: State, side: Side)
    requires Inv(s) && Inbox(s, side) != [] && !Inbox(s, side)[0].frame.Syn? && Ready(s, Arrive(side))
    requires MapsOwn(At(DoArrive(s, side), side))
    ensures var item := Inbox(s, side)[0];
            FabricSpec.Route(side.Server?, s.handlers, FabricAt(s, side), (item.id, item.frame))
            == (FabricAt(DoArrive(s, side), side), !At(DoArrive(s, side), side).halted)
  {
    var item := Inbox(s, side)[0];
    RoutedToOwner(s, side);
    var eff := Receive(At(s, side).conns[item.tag].half, item.frame);
    CoresSettle(At(s, side), item.tag, eff);
    UntaggedAppend(Inbox(s, Peer(side)), item.id, item.tag, eff.out);
  }

  lemma ArriveSynIsRoute(s: State)
    requires Inv(s) && s.cs != [] && s.cs[0].frame.Syn? && Ready(s, Arrive(Server))
    requires MapsOwn(DoArrive(s, Server).server)
    ensures var item := s.cs[0];
            FabricSpec.Route(true, s.handlers, FabricAt(s, Server), (item.id, item.frame))
            == (FabricAt(DoArrive(s, Server), Server), !DoArrive(s, Server).server.halted)
  {
    SynFindsFreeId(s);
    SynIsDialing(s, 0);
    var e, e' := s.server, DoArrive(s, Server).server;
    assert forall id :: id in e.weaves ==> e.weaves[id] != s.cs[0].tag;
    if s.cs[0].frame.network in s.handlers {
      assert Cores(e') == Cores(e)[s.cs[0].id := NewCore(SynRecv)];
      assert s.sc + [] == s.sc;
    } else {
      assert DoArrive(s, Server).sc == s.sc + Stamp(s.cs[0].id, s.cs[0].tag, [Result(ERR_UNKNOWN_PROTOCOL)]);
      UntaggedAppend(s.sc, s.cs[0].id, s.cs[0].tag, [Result(ERR_UNKNOWN_PROTOCOL)]);
      assert FabricSpec.Labels(s.cs[0].id, [Result(ERR_UNKNOWN_PROTOCOL)]) == [(s.cs[0].id, Result(ERR_UNKNOWN_PROTOCOL))];
    }
  }

  /** In every state of the invariant a delivery does what Route does: to the mapped streams, to
      the packets written, and to the loop. */
  lemma ArriveIsRoute(s: State, side: Side)
    requires Inv(s) && Inbox(s, side) != []
    ensures Ready(s, Arrive(side)) && MapsOwn(At(DoArrive(s, side), side))
    ensures var item := Inbox(s, side)[0];
            FabricSpec.Route(side.Server?, s.handlers, FabricAt(s, side), (item.id, item.frame))
            == (FabricAt(DoArrive(s, side), side), !At(DoArrive(s, side), side).halted)
  {
    ArriveInv(s, side);
    var item := Inbox(s, side)[0];
    if item.frame.Syn? {
      HeadOf(Inbox(s, side));
      LinkSafety.DeliverPreserves(s.handlers, View(s, item.tag), side);
      ArriveSynIsRoute(s);
    } else {
      ArriveMappedIsRoute(s, side);
    }
  }

  // ---------- steps of a Conn ----------

  /** The effect that a class method has on its stream and its fabric. */
  function EffectOf(e: HalfEffect): Effect {
    Effect(e.half.core, e.keep, e.out, e.ok)
  }

  lemma MappedMoveIsInstall(s: State, side: Side, tag: nat, a: Act)
    requires Inv(s) && Ready(s, Move(side, tag, a)) && Mapped(At(s, side), tag)
    requires MapsOwn(At(DoMove(s, side, tag, a), side))
    ensures var e := At(s, side);
            FabricAt(DoMove(s, side, tag, a), side) ==
            FabricSpec.Install(FabricAt(s, side), e.conns[tag].streamid,
                               EffectOf(Do(e.conns[tag].half, true, a)))
  {
    var e := At(s, side);
    var eff := Do(e.conns[tag].half, true, a);
    CoresSettle(e, tag, eff);
    UntaggedAppend(Inbox(s, Peer(side)), e.conns[tag].streamid, tag, eff.out);
  }

  /** A stream that is not mapped any more can only be read, and sends nothing. */
  lemma UnmappedMoveIsSilent(s: State, side: Side, tag: nat, a: Act)
    requires Inv(s) && Ready(s, Move(side, tag, a)) && !Mapped(At(s, side), tag)
    ensures MapsOwn(At(DoMove(s, side, tag, a), side))
    ensures FabricAt(DoMove(s, side, tag, a), side) == FabricAt(s, side)
  {
    var e := At(s, side);
    var eff := Do(e.conns[tag].half, false, a);
    assert Enabled(View(s, tag), Local(side, a));
    LinkSafety.LocalSends(View(s, tag), side, a);
    UnmappedCores(e, tag, eff);
    UntaggedAppend(Inbox(s, Peer(side)), e.conns[tag].streamid, tag, []);
    assert FabricSpec.Labels(e.conns[tag].streamid, []) == [];
  }

  lemma UnmappedCores(e: Endpoint, tag: nat, eff: HalfEffect)
    requires MapsOwn(e) && tag in e.conns && !Mapped(e, tag) && eff.keep
    ensures MapsOwn(Settle(e, tag, eff)) && Cores(Settle(e, tag, eff)) == Cores(e)
  {
    assert forall id :: id in e.weaves ==> e.weaves[id] != tag;
  }

  /** In every state of the invariant a step of a Conn does to its fabric what the effect of the class
      method does. */
  lemma MoveIsInstall(s: State, side: Side, tag: nat, a: Act)
    requires Inv(s) && Ready(s, Move(side, tag, a))
    ensures MapsOwn(At(DoMove(s, side, tag, a), side))
    ensures var e := At(s, side);
            FabricAt(DoMove(s, side, tag, a), side) ==
            if Mapped(e, tag)
            then FabricSpec.Install(FabricAt(s, side), e.conns[tag].streamid, EffectOf(Do(e.conns[tag].half, true, a)))
            else FabricAt(s, side)
  {
    StepInv(s, Move(side, tag, a));
    if Mapped(At(s, side), tag) {
      MappedMoveIsInstall(s, side, tag, a);
    } else {
      UnmappedMoveIsSilent(s, side, tag, a);
    }
  }
}
