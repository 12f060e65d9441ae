/**
 The shared tunnel refines a private link for each of its streams, in every
 orderly run, with any number of streams and any reuse of ids. From that: no frame
 is ever unmapped, no loop stops, and what a private link keeps, a stream keeps.
 */
module TunnelSafety {
  import opened Prelude
  import opened StreamCore
  import opened IdPool
  import opened Link
  import opened Tunnel
  import LinkSafety

  // ---------- shared wires ----------

  lemma {:induction false} OfAppend(a: seq<Item>, b: seq<Item>, tag: nat)
    ensures Of(a + b, tag) == Of(a, tag) + Of(b, tag)
  {
    if a == [] {
      assert a + b == b;
    } else {
      assert (a + b)[1..] == a[1..] + b;
      OfAppend(a[1..], b, tag);
      var head := if a[0].tag == tag then [a[0].frame] else [];
      assert Of(a + b, tag) == head + (Of(a[1..], tag) + Of(b, tag));
    }
  }

  lemma {:induction false} OfStamp(id: Id, tag: nat, out: seq<Frame>, k: nat)
    ensures Of(Stamp(id, tag, out), k) == if k == tag then out else []
  {
    if out != [] {
      assert Stamp(id, tag, out)[1..] == Stamp(id, tag, out[1..]);
      OfStamp(id, tag, out[1..], k);
    }
  }

  /** A frame of stream `tag` in the wire is a frame of its private wire. */
  lemma {:induction false} OfHolds(w: seq<Item>, p: nat, tag: nat)
    requires p < |w| && w[p].tag == tag
    ensures w[p].frame in Of(w, tag)
  {
    if p > 0 {
      OfHolds(w[1..], p - 1, tag);
    }
  }

  /** A frame of the private wire of `tag` has a place in the shared wire. */
  lemma {:induction false} OfPlace(w: seq<Item>, tag: nat, f: Frame) returns (p: nat)
    requires f in Of(w, tag)
    ensures p < |w| && w[p] == Item(w[p].id, tag, f)
  {
    if w[0].tag == tag && w[0].frame == f {
      p := 0;
    } else {
      p := OfPlace(w[1..], tag, f);
      p := p + 1;
    }
  }

  // ---------- the invariant ----------

  predicate MapsOwn(e: Endpoint) {
    forall id :: id in e.weaves ==> e.weaves[id] in e.conns && e.conns[e.weaves[id]].streamid == id
  }

  /** Every frame in a wire carries the id of its stream. */
  predicate Labelled(w: seq<Item>, conns: map<nat, Conn>) {
    forall p :: 0 <= p < |w| ==> w[p].tag in conns && w[p].id == conns[w[p].tag].streamid
  }

  /** Behind a frame of one stream, the first frame under the same id of another is its SYN. */
  predicate Successive(w: seq<Item>) {
    forall p, q :: 0 <= p < q < |w| && w[p].id == w[q].id && w[p].tag != w[q].tag ==> w[q].frame.Syn?
  }

  predicate SameIds(s: State) {
    forall k :: k in s.server.conns ==>
      k in s.client.conns && s.server.conns[k].streamid == s.client.conns[k].streamid
  }

  /** How ids, tags and maps agree. */
  predicate Books(s: State) {
    && (forall k :: k in s.client.conns ==> k < s.nextTag)
    && SameIds(s)
    && MapsOwn(s.client) && MapsOwn(s.server)
    && Labelled(s.cs, s.client.conns) && Labelled(s.sc, s.client.conns)
    && Successive(s.cs)
  }

  ghost predicate Inv(s: State) {
    && !s.client.halted && !s.server.halted
    && (forall k: nat :: LinkInv(View(s, k)))
    && Books(s)
  }

  // ---------- routing ----------

  lemma HeadOf(w: seq<Item>)
    requires w != []
    ensures Of(w, w[0].tag) == [w[0].frame] + Of(w[1..], w[0].tag)
  {
  }

  /** A frame other than SYN is routed to the Conn of its own stream. */
  lemma RoutedToOwner(s: State, side: Side)
    requires Inv(s) && Inbox(s, side) != [] && !Inbox(s, side)[0].frame.Syn?
    ensures var item := Inbox(s, side)[0];
            Mapped(At(s, side), item.tag) && item.id in At(s, side).weaves
            && At(s, side).weaves[item.id] == item.tag
  {
    var item := Inbox(s, side)[0];
    HeadOf(Inbox(s, side));
    LinkSafety.DeliverPreserves({}, View(s, item.tag), side);
  }

  /** What the server still holds of a stream whose id the client has given away:
      it has sent its FIN and the client's FIN is under way. */
  lemma HalfGone(l: Link)
    requires LinkInv(l) && l.sOn && !l.cOn
    ensures Opened(l) && l.cs != [] && l.cs[|l.cs| - 1] == Fin
  {
  }

  /** While a SYN is under way its stream holds the id at the client alone. */
  lemma SynIsDialing(s: State, p: nat)
    requires Inv(s) && p < |s.cs| && s.cs[p].frame.Syn?
    ensures Dialing(View(s, s.cs[p].tag)) && s.client.weaves[s.cs[p].id] == s.cs[p].tag
  {
    OfHolds(s.cs, p, s.cs[p].tag);
    LinkSafety.SynMeansDialing(View(s, s.cs[p].tag), s.cs[p].frame);
  }

  /** A stream mapped at the server alone has its FIN on the way there. */
  lemma StaleFin(s: State, tag: nat) returns (p: nat)
    requires Inv(s) && Mapped(s.server, tag) && !Mapped(s.client, tag)
    ensures p < |s.cs| && s.cs[p] == Item(s.server.conns[tag].streamid, tag, Fin)
  {
    HalfGone(View(s, tag));
    p := OfPlace(s.cs, tag, Fin);
  }

  /** A SYN finds its id unmapped at the server. */
  lemma SynFindsFreeId(s: State)
    requires Inv(s) && s.cs != [] && s.cs[0].frame.Syn?
    ensures s.cs[0].id !in s.server.weaves
  {
    SynIsDialing(s, 0);
    if s.cs[0].id in s.server.weaves {
      var p := StaleFin(s, s.server.weaves[s.cs[0].id]);
      assert false;
    }
  }

  // ---------- each step, seen by each stream ----------

  /** Register starts a link for its new stream and touches no other. */
  lemma RegisterView(s: State, k: nat)
    requires Inv(s)
    ensures View(DoRegister(s), k) ==
              if k == s.nextTag && DoRegister(s) != s then Next(s.handlers, NO_LINK, Dial).0 else View(s, k)
    ensures k == s.nextTag ==> View(s, k) == NO_LINK
  {
    assert LinkInv(View(s, k));
  }

  lemma SettleView(e: Endpoint, tag: nat, eff: HalfEffect, k: nat)
    requires tag in e.conns && (eff.keep || Mapped(e, tag))
    ensures HalfOf(Settle(e, tag, eff), k) == if k == tag then Some(eff.half) else HalfOf(e, k)
    ensures Mapped(Settle(e, tag, eff), k) <==> Mapped(e, k) && (k == tag ==> eff.keep)
  {
  }

  lemma BecomeView(s: State, side: Side, e: Endpoint, used: nat, id: Id, tag: nat, out: seq<Frame>, k: nat)
    requires used <= 1 && used <= |Inbox(s, side)| && (used == 1 ==> Inbox(s, side)[0].tag == tag)
    ensures var s' := Become(s, side, e, used, Stamp(id, tag, out));
            && At(s', side) == e && At(s', Peer(side)) == At(s, Peer(side))
            && Of(Inbox(s', side), k) == Of(Inbox(s, side), k)[if k == tag then used else 0..]
            && Of(Inbox(s', Peer(side)), k) == Of(Inbox(s, Peer(side)), k) + (if k == tag then out else [])
  {
    OfAppend(Inbox(s, Peer(side)), Stamp(id, tag, out), k);
    OfStamp(id, tag, out, k);
    assert used == 0 ==> Inbox(s, side)[used..] == Inbox(s, side);
  }

  lemma ViewMoved(s: State, s': State, side: Side, k: nat, h: Half, on: bool, used: nat, out: seq<Frame>)
    requires HalfOf(At(s', side), k) == Some(h) && Mapped(At(s', side), k) == on
    requires At(s', Peer(side)) == At(s, Peer(side))
    requires used <= |Of(Inbox(s, side), k)| && Of(Inbox(s', side), k) == Of(Inbox(s, side), k)[used..]
    requires Of(Inbox(s', Peer(side)), k) == Of(Inbox(s, Peer(side)), k) + out
    ensures View(s', k) == Put(View(s, k), side, h, on, used, out)
  {
  }

  lemma ViewUnmoved(s: State, s': State, side: Side, k: nat)
    requires HalfOf(At(s', side), k) == HalfOf(At(s, side), k)
    requires Mapped(At(s', side), k) == Mapped(At(s, side), k)
    requires At(s', Peer(side)) == At(s, Peer(side))
    requires Of(Inbox(s', side), k) == Of(Inbox(s, side), k)[0..]
    requires Of(Inbox(s', Peer(side)), k) == Of(Inbox(s, Peer(side)), k) + []
    ensures View(s', k) == View(s, k)
  {
  }

  /** An operation of Conn `tag`, for any effect it may have, seen by stream k. */
  lemma EffectView(s: State, side: Side, tag: nat, eff: HalfEffect, used: nat, k: nat)
    requires tag in At(s, side).conns && (eff.keep || Mapped(At(s, side), tag))
    requires used <= 1 && used <= |Inbox(s, side)| && (used == 1 ==> Inbox(s, side)[0].tag == tag)
    ensures used <= |Incoming(View(s, tag), side)|
    ensures var e := At(s, side);
            View(Become(s, side, Settle(e, tag, eff), used, Stamp(e.conns[tag].streamid, tag, eff.out)), k) ==
            if k == tag then Put(View(s, k), side, eff.half, Mapped(e, k) && eff.keep, used, eff.out)
            else View(s, k)
  {
    var e := At(s, side);
    SettleView(e, tag, eff, k);
    BecomeView(s, side, Settle(e, tag, eff), used, e.conns[tag].streamid, tag, eff.out, k);
    if used == 1 {
      HeadOf(Inbox(s, side));
    }
    var s' := Become(s, side, Settle(e, tag, eff), used, Stamp(e.conns[tag].streamid, tag, eff.out));
    if k == tag {
      ViewMoved(s, s', side, k, eff.half, Mapped(e, k) && eff.keep, used, eff.out);
    } else {
      ViewUnmoved(s, s', side, k);
    }
  }

  /** A step of one Conn is a step on the link of its stream, and nothing else. */
  lemma MoveView(s: State, side: Side, tag: nat, a: Act, k: nat)
    requires Inv(s) && Ready(s, Move(side, tag, a))
    ensures Enabled(View(s, tag), Local(side, a))
    ensures View(DoMove(s, side, tag, a), k) ==
              if k == tag then Next(s.handlers, View(s, k), Local(side, a)).0 else View(s, k)
  {
    var e := At(s, side);
    assert LinkInv(View(s, tag));
    assert Enabled(View(s, tag), Local(side, a));
    LinkSafety.LocalSends(View(s, tag), side, a);
    EffectView(s, side, tag, Do(e.conns[tag].half, Mapped(e, tag), a), 0, k);
  }

  lemma ArriveMappedView(s: State, side: Side, k: nat)
    requires Inv(s) && Inbox(s, side) != [] && !Inbox(s, side)[0].frame.Syn?
    requires Enabled(View(s, Inbox(s, side)[0].tag), Deliver(side))
    ensures View(DoArrive(s, side), k) ==
              if k == Inbox(s, side)[0].tag then Next(s.handlers, View(s, k), Deliver(side)).0 else View(s, k)
  {
    var e := At(s, side);
    var item := Inbox(s, side)[0];
    RoutedToOwner(s, side);
    HeadOf(Inbox(s, side));
    EffectView(s, side, item.tag, Receive(e.conns[item.tag].half, item.frame), 1, k);
  }

  lemma ArriveRefusedView(s: State, k: nat)
    requires s.cs != [] && s.cs[0].frame.Syn? && s.cs[0].id !in s.server.weaves && Ready(s, Arrive(Server))
    requires s.cs[0].frame.network !in s.handlers && !Mapped(s.server, s.cs[0].tag)
    requires Enabled(View(s, s.cs[0].tag), Deliver(Server))
    ensures View(DoArrive(s, Server), k) ==
              if k == s.cs[0].tag then Next(s.handlers, View(s, k), Deliver(Server)).0 else View(s, k)
  {
    var item := s.cs[0];
    HeadOf(s.cs);
    var refusal := [Result(ERR_UNKNOWN_PROTOCOL)];
    assert Stamp(item.id, item.tag, refusal) == [Item(item.id, item.tag, Result(ERR_UNKNOWN_PROTOCOL))];
    BecomeView(s, Server, s.server, 1, item.id, item.tag, refusal, k);
    if k != item.tag {
      ViewUnmoved(s, DoArrive(s, Server), Server, k);
    }
  }

  lemma ArriveAcceptedView(s: State, k: nat)
    requires s.cs != [] && s.cs[0].frame.Syn? && s.cs[0].id !in s.server.weaves && Ready(s, Arrive(Server))
    requires s.cs[0].frame.network in s.handlers && !Mapped(s.server, s.cs[0].tag)
    requires Enabled(View(s, s.cs[0].tag), Deliver(Server))
    ensures View(DoArrive(s, Server), k) ==
              if k == s.cs[0].tag then Next(s.handlers, View(s, k), Deliver(Server)).0 else View(s, k)
  {
    var item := s.cs[0];
    var s' := DoArrive(s, Server);
    HeadOf(s.cs);
    assert s'.sc == s.sc + [] == s.sc && Of(s.sc, k) + [] == Of(s.sc, k);
    if k == item.tag {
      ViewMoved(s, s', Server, k, NewHalf(SynRecv), true, 1, []);
    } else {
      ViewUnmoved(s, s', Server, k);
    }
  }

  /** A delivery is a delivery on the link of the frame's own stream, and nothing else. */
  lemma ArriveView(s: State, side: Side, k: nat)
    requires Inv(s) && Inbox(s, side) != []
    ensures Ready(s, Arrive(side))
    ensures var tag := Inbox(s, side)[0].tag;
            && Enabled(View(s, tag), Deliver(side))
            && View(DoArrive(s, side), k) ==
               if k == tag then Next(s.handlers, View(s, k), Deliver(side)).0 else View(s, k)
  {
    var item := Inbox(s, side)[0];
    HeadOf(Inbox(s, side));
    LinkSafety.DeliverPreserves(s.handlers, View(s, item.tag), side);
    if item.frame.Syn? {
      SynFindsFreeId(s);
      if item.frame.network in s.handlers {
        ArriveAcceptedView(s, k);
      } else {
        ArriveRefusedView(s, k);
      }
    } else {
      ArriveMappedView(s, side, k);
    }
  }

  // ---------- each step keeps the invariant ----------

  lemma RegisterInv(s: State)
    requires Inv(s)
    ensures Inv(DoRegister(s))
  {
    forall k: nat ensures LinkInv(View(DoRegister(s), k)) {
      RegisterView(s, k);
    }
  }

  /** A frame that a client Conn sends finds no other stream of its id in the wire, but for a SYN. */
  lemma SentInTurn(s: State, tag: nat, a: Act, q: nat)
    requires Inv(s) && Ready(s, Move(Client, tag, a))
    requires q < |s.cs| && s.cs[q].id == s.client.conns[tag].streamid && s.cs[q].tag != tag
    ensures var out := Do(s.client.conns[tag].half, Mapped(s.client, tag), a).out;
            out == [] || out[0].Syn?
  {
    LinkSafety.LocalSends(View(s, tag), Client, a);
    if s.cs[q].frame.Syn? {
      SynIsDialing(s, q);
    } else {
      OfHolds(s.cs, q, s.cs[q].tag);
      LinkSafety.TrafficMeansMapped(View(s, s.cs[q].tag), s.cs[q].frame);
    }
  }

  lemma SettleBooks(e: Endpoint, tag: nat, eff: HalfEffect)
    requires tag in e.conns && MapsOwn(e)
    ensures MapsOwn(Settle(e, tag, eff))
    ensures Settle(e, tag, eff).conns.Keys == e.conns.Keys
    ensures forall k :: k in e.conns ==> Settle(e, tag, eff).conns[k].streamid == e.conns[k].streamid
  {
  }

  lemma LabelledMore(w: seq<Item>, w': seq<Item>, conns: map<nat, Conn>, conns': map<nat, Conn>)
    requires Labelled(w, conns)
    requires forall k :: k in conns ==> k in conns' && conns'[k].streamid == conns[k].streamid
    requires Labelled(w', conns)
    ensures Labelled(w + w', conns')
  {
  }

  /** An operation of Conn `tag` that sends at most one frame, and in turn, keeps the books. */
  lemma EffectBooks(s: State, side: Side, tag: nat, eff: HalfEffect, used: nat)
    requires Books(s) && tag in At(s, side).conns && |eff.out| <= 1 && used <= |Inbox(s, side)|
    requires side.Client? && eff.out != [] && !eff.out[0].Syn? ==>
               forall q :: 0 <= q < |s.cs| && s.cs[q].id == s.client.conns[tag].streamid ==> s.cs[q].tag == tag
    ensures var e := At(s, side);
            Books(Become(s, side, Settle(e, tag, eff), used, Stamp(e.conns[tag].streamid, tag, eff.out)))
  {
    var e := At(s, side);
    var out := Stamp(e.conns[tag].streamid, tag, eff.out);
    var s' := Become(s, side, Settle(e, tag, eff), used, out);
    SettleBooks(e, tag, eff);
    assert Labelled(Inbox(s, side)[used..], s.client.conns);
    LabelledMore(Inbox(s, Peer(side)), out, s.client.conns, s'.client.conns);
    LabelledMore(Inbox(s, side)[used..], [], s.client.conns, s'.client.conns);
    assert Inbox(s, side)[used..] + [] == Inbox(s, side)[used..];
    assert Successive(s'.cs);
  }

  lemma MoveBooks(s: State, side: Side, tag: nat, a: Act)
    requires Inv(s) && Ready(s, Move(side, tag, a))
    ensures Books(DoMove(s, side, tag, a))
  {
    var e := At(s, side);
    var eff := Do(e.conns[tag].half, Mapped(e, tag), a);
    LinkSafety.LocalSends(View(s, tag), side, a);
    if side.Client? && eff.out != [] && !eff.out[0].Syn? {
      forall q | 0 <= q < |s.cs| && s.cs[q].id == s.client.conns[tag].streamid
        ensures s.cs[q].tag == tag
      {
        if s.cs[q].tag != tag {
          SentInTurn(s, tag, a, q);
        }
      }
    }
    EffectBooks(s, side, tag, eff, 0);
  }

  lemma MoveInv(s: State, side: Side, tag: nat, a: Act)
    requires Inv(s) && Ready(s, Move(side, tag, a))
    ensures Inv(DoMove(s, side, tag, a))
  {
    MoveBooks(s, side, tag, a);
    forall k: nat ensures LinkInv(View(DoMove(s, side, tag, a), k)) {
      MoveView(s, side, tag, a, k);
      if k == tag {
        LinkSafety.LocalPreserves(s.handlers, View(s, k), side, a);
      }
    }
  }

  lemma ArriveMappedBooks(s: State, side: Side)
    requires Inv(s) && Inbox(s, side) != [] && !Inbox(s, side)[0].frame.Syn?
    requires Ready(s, Arrive(side))
    ensures Books(DoArrive(s, side))
  {
    var item := Inbox(s, side)[0];
    RoutedToOwner(s, side);
    EffectBooks(s, side, item.tag, Receive(At(s, side).conns[item.tag].half, item.frame), 1);
  }

  lemma ArriveSynBooks(s: State)
    requires Inv(s) && s.cs != [] && s.cs[0].frame.Syn?
    ensures Books(DoArrive(s, Server))
  {
    SynFindsFreeId(s);
    assert s.sc + [] == s.sc;
  }

  lemma ArriveInv(s: State, side: Side)
    requires Inv(s) && Inbox(s, side) != []
    ensures Ready(s, Arrive(side)) && Inv(DoArrive(s, side))
  {
    var item := Inbox(s, side)[0];
    HeadOf(Inbox(s, side));
    LinkSafety.DeliverPreserves(s.handlers, View(s, item.tag), side);
    if item.frame.Syn? {
      SynFindsFreeId(s);
      ArriveSynBooks(s);
    } else {
      RoutedToOwner(s, side);
      ArriveMappedBooks(s, side);
    }
    forall k: nat ensures LinkInv(View(DoArrive(s, side), k)) {
      ArriveView(s, side, k);
    }
  }

  /** Every step of an orderly run keeps the invariant; in particular no loop stops. */
  lemma StepInv(s: State, step: Step)
    requires Inv(s) && Ready(s, step)
    ensures Inv(Apply(s, step))
  {
    match step {
      case Register => RegisterInv(s);
      case Move(side, tag, a) => MoveInv(s, side, tag, a);
      case Arrive(side) => ArriveInv(s, side);
    }
  }
}
