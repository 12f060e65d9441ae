/** The invariant of a private link is kept by every step, and what it gives. */
module LinkSafety {
  import opened Prelude
  import opened StreamCore
  import opened Link

  // ---------- steps before the link is open ----------

  /** An untouched end can only begin to read, or fail to close. */
  lemma FreshAct(h: Half, status: Status, on: bool, a: Act)
    requires Fresh(h, status) && status in {Unknown, SynSent, SynRecv} && Can(h, on, a)
    requires !a.DoConnect? && !a.DoAccept? && !a.DoDeny?
    ensures var e := Do(h, on, a);
            && e.keep && e.out == [] && Fresh(e.half, status)
            && (e.half == h || (a.ReadCall? && e.half == h.(reader := Reading(a.space, 0))))
  {
  }

  lemma AcceptOpens(c: Half, s: Half)
    requires Fresh(c, SynSent) && Fresh(s, SynRecv)
    ensures Open(c.(core := c.core.(status := Est)), true, s.(core := Accept(s.core).core), true, [], [])
  {
  }

  lemma AllocatedLocal(l: Link, side: Side, a: Act)
    requires Allocated(l) && Enabled(l, Local(side, a))
    ensures LinkInv(Next({}, l, Local(side, a)).0)
  {
    if !a.DoConnect? {
      FreshAct(l.c.value, Unknown, l.cOn, a);
    }
  }

  lemma DialingLocal(l: Link, side: Side, a: Act)
    requires Dialing(l) && Enabled(l, Local(side, a))
    ensures Dialing(Next({}, l, Local(side, a)).0)
  {
    FreshAct(l.c.value, SynSent, l.cOn, a);
  }

  lemma AnsweringLocal(l: Link, side: Side, a: Act)
    requires Answering(l) && Enabled(l, Local(side, a))
    ensures LinkInv(Next({}, l, Local(side, a)).0)
  {
    if a.DoAccept? {
      AcceptOpens(l.c.value, l.s.value);
      var l' := Next({}, l, Local(side, a)).0;
      assert l'.sc[1..] == [];
    } else if !a.DoDeny? {
      FreshAct(End(l, side).value, if side.Client? then SynSent else SynRecv, On(l, side), a);
    }
  }

  lemma RefusedLocal(l: Link, side: Side, a: Act)
    requires Refused(l) && Enabled(l, Local(side, a))
    ensures Refused(Next({}, l, Local(side, a)).0)
  {
    FreshAct(End(l, side).value, if side.Client? then SynSent else SynRecv, On(l, side), a);
    assert l.cs[0..] == l.cs + [] == l.cs && l.sc[0..] == l.sc + [] == l.sc;
  }

  lemma AcceptedClientLocal(l: Link, a: Act)
    requires Accepted(l) && Enabled(l, Local(Client, a))
    ensures Accepted(Next({}, l, Local(Client, a)).0)
  {
    var c := l.c.value;
    FreshAct(c, SynSent, l.cOn, a);
    if a.ReadCall? {
      OpenPoint(c.(core := c.core.(status := Est)), true, l.s.value, l.sOn, [], l.sc[1..], a);
    }
  }

  lemma AcceptedServerLocal(l: Link, a: Act)
    requires Accepted(l) && Enabled(l, Local(Server, a))
    ensures Accepted(Next({}, l, Local(Server, a)).0)
  {
    var c := l.c.value;
    var est := c.(core := c.core.(status := Est));
    OpenSymmetric(est, true, l.s.value, l.sOn, [], l.sc[1..]);
    OpenAct(l.s.value, l.sOn, est, true, l.sc[1..], [], a);
    var e := Do(l.s.value, l.sOn, a);
    OpenSymmetric(e.half, l.sOn && e.keep, est, true, l.sc[1..] + e.out, []);
    assert (l.sc + e.out)[1..] == l.sc[1..] + e.out;
  }

  lemma AcceptedLocal(l: Link, side: Side, a: Act)
    requires Accepted(l) && Enabled(l, Local(side, a))
    ensures Accepted(Next({}, l, Local(side, a)).0)
  {
    if side.Client? {
      AcceptedClientLocal(l, a);
    } else {
      AcceptedServerLocal(l, a);
    }
  }

  lemma OpenedLocal(l: Link, side: Side, a: Act)
    requires Opened(l) && Enabled(l, Local(side, a))
    ensures Opened(Next({}, l, Local(side, a)).0)
  {
    if side.Client? {
      OpenAct(l.c.value, l.cOn, l.s.value, l.sOn, l.cs, l.sc, a);
    } else {
      OpenSymmetric(l.c.value, l.cOn, l.s.value, l.sOn, l.cs, l.sc);
      OpenAct(l.s.value, l.sOn, l.c.value, l.cOn, l.sc, l.cs, a);
    }
  }

  /** A local step of either end keeps the invariant, and uses no handler. */
  lemma LocalPreserves(handlers: set<string>, l: Link, side: Side, a: Act)
    requires LinkInv(l) && Enabled(l, Local(side, a))
    ensures LinkInv(Next(handlers, l, Local(side, a)).0)
  {
    assert Next(handlers, l, Local(side, a)) == Next({}, l, Local(side, a));
    if Allocated(l) { AllocatedLocal(l, side, a); }
    else if Dialing(l) { DialingLocal(l, side, a); }
    else if Answering(l) { AnsweringLocal(l, side, a); }
    else if Refused(l) { RefusedLocal(l, side, a); }
    else if Accepted(l) { AcceptedLocal(l, side, a); }
    else { OpenedLocal(l, side, a); }
  }

  predicate SendsInTurn(l: Link, side: Side, e: HalfEffect) {
    && |e.out| <= 1
    && (!e.keep ==> On(l, side))
    && (e.out != [] ==> (e.out[0].Syn? && side.Client? && Allocated(l)) ||
                        (!e.out[0].Syn? && l.cOn && l.sOn))
  }

  lemma OpenedSends(l: Link, side: Side, a: Act)
    requires Opened(l) && Enabled(l, Local(side, a))
    ensures SendsInTurn(l, side, Do(End(l, side).value, On(l, side), a))
  {
    if side.Client? {
      OpenActSends(l.c.value, l.cOn, l.s.value, l.sOn, l.cs, l.sc, a);
    } else {
      OpenSymmetric(l.c.value, l.cOn, l.s.value, l.sOn, l.cs, l.sc);
      OpenActSends(l.s.value, l.sOn, l.c.value, l.cOn, l.sc, l.cs, a);
    }
  }

  lemma AcceptedSends(l: Link, side: Side, a: Act)
    requires Accepted(l) && Enabled(l, Local(side, a))
    ensures SendsInTurn(l, side, Do(End(l, side).value, On(l, side), a))
  {
    if side.Client? {
      FreshAct(l.c.value, SynSent, l.cOn, a);
    } else {
      var est := l.c.value.(core := l.c.value.core.(status := Est));
      OpenSymmetric(est, true, l.s.value, l.sOn, [], l.sc[1..]);
      OpenActSends(l.s.value, l.sOn, est, true, l.sc[1..], [], a);
    }
  }

  lemma HandshakeSends(l: Link, side: Side, a: Act)
    requires Allocated(l) || Dialing(l) || Answering(l) || Refused(l)
    requires Enabled(l, Local(side, a))
    ensures SendsInTurn(l, side, Do(End(l, side).value, On(l, side), a))
  {
    if !a.DoConnect? && !a.DoAccept? && !a.DoDeny? {
      FreshAct(End(l, side).value, End(l, side).value.core.status, On(l, side), a);
    }
  }

  /** An end gives up its id only while it holds it. It sends SYN only on a fresh
      link; it sends any other frame only while both ends hold the id. */
  lemma LocalSends(l: Link, side: Side, a: Act)
    requires LinkInv(l) && Enabled(l, Local(side, a))
    ensures SendsInTurn(l, side, Do(End(l, side).value, On(l, side), a))
  {
    if Opened(l) {
      OpenedSends(l, side, a);
    } else if Accepted(l) {
      AcceptedSends(l, side, a);
    } else {
      HandshakeSends(l, side, a);
    }
  }

  lemma OpenedDeliver(handlers: set<string>, l: Link, side: Side)
    requires Opened(l) && Incoming(l, side) != []
    ensures On(l, side) && !Incoming(l, side)[0].Syn?
    ensures var (l', ok) := Next(handlers, l, Deliver(side));
            ok && Opened(l')
  {
    if side.Client? {
      OpenReceive(l.c.value, l.cOn, l.s.value, l.sOn, l.cs, l.sc);
      assert l.cs + [] == l.cs;
    } else {
      OpenSymmetric(l.c.value, l.cOn, l.s.value, l.sOn, l.cs, l.sc);
      OpenReceive(l.s.value, l.sOn, l.c.value, l.cOn, l.sc, l.cs);
      assert l.sc + [] == l.sc;
    }
  }

  lemma HandshakeDeliver(handlers: set<string>, l: Link, side: Side)
    requires Dialing(l) || Refused(l) || Accepted(l)
    requires Incoming(l, side) != []
    ensures On(l, side) <==> !Incoming(l, side)[0].Syn?
    ensures Incoming(l, side)[0].Syn? ==> side.Server?
    ensures var (l', ok) := Next(handlers, l, Deliver(side));
            ok && if Dialing(l) then Answering(l') || Refused(l')
                  else if Refused(l) then Refused(l') else Opened(l')
  {
    assert l.cs + [] == l.cs;
  }

  /** Every frame that a wire delivers, but a SYN, finds its id mapped; a SYN finds it
      unmapped. The receiver takes it without error and the invariant is kept. */
  lemma DeliverPreserves(handlers: set<string>, l: Link, side: Side)
    requires LinkInv(l) && Incoming(l, side) != []
    ensures Enabled(l, Deliver(side))
    ensures On(l, side) <==> !Incoming(l, side)[0].Syn?
    ensures Incoming(l, side)[0].Syn? ==> side.Server?
    ensures var (l', ok) := Next(handlers, l, Deliver(side));
            ok && LinkInv(l')
  {
    if Opened(l) {
      OpenedDeliver(handlers, l, side);
    } else {
      HandshakeDeliver(handlers, l, side);
    }
  }

  /** A SYN is in the wire only while the client dials. */
  lemma SynMeansDialing(l: Link, f: Frame)
    requires LinkInv(l) && f in l.cs && f.Syn?
    ensures Dialing(l)
  {
    if Opened(l) {
      NoSynInside(l.c.value.core.status, l.s.value.core.status, l.cs, f);
    }
  }

  lemma NoSynInside(xs: Status, ys: Status, w: seq<Frame>, f: Frame)
    requires FinDiscipline(xs, ys, w) && f in w
    ensures !f.Syn?
  {
    var i :| 0 <= i < |w| && w[i] == f;
    if FinWasSent(xs) && i < |w| - 1 {
      assert w[..|w| - 1][i] == f;
    }
  }

  /** Any other frame from the client is in the wire only while the server holds the id. */
  lemma TrafficMeansMapped(l: Link, f: Frame)
    requires LinkInv(l) && f in l.cs && !f.Syn?
    ensures l.sOn
  {
  }

  // ---------- runs of a link ----------

  predicate Legal(handlers: set<string>, l: Link, steps: seq<LinkStep>)
    decreases |steps|
  {
    steps == [] ||
    (Enabled(l, steps[0]) && Legal(handlers, Next(handlers, l, steps[0]).0, steps[1..]))
  }

  function Run(handlers: set<string>, l: Link, steps: seq<LinkStep>): Link
    requires Legal(handlers, l, steps)
    decreases |steps|
  {
    if steps == [] then l else Run(handlers, Next(handlers, l, steps[0]).0, steps[1..])
  }

  lemma StepPreserves(handlers: set<string>, l: Link, step: LinkStep)
    requires LinkInv(l) && Enabled(l, step)
    ensures LinkInv(Next(handlers, l, step).0) && Next(handlers, l, step).1
  {
    match step {
      case Dial =>
      case Local(side, a) => LocalPreserves(handlers, l, side, a);
      case Deliver(side) => DeliverPreserves(handlers, l, side);
    }
  }

  lemma {:induction false} RunPreserves(handlers: set<string>, l: Link, steps: seq<LinkStep>)
    requires LinkInv(l) && Legal(handlers, l, steps)
    ensures LinkInv(Run(handlers, l, steps))
    decreases |steps|
  {
    if steps != [] {
      StepPreserves(handlers, l, steps[0]);
      RunPreserves(handlers, Next(handlers, l, steps[0]).0, steps[1..]);
    }
  }

  lemma {:induction false} RunAppend(handlers: set<string>, l: Link, a: seq<LinkStep>, b: seq<LinkStep>)
    requires Legal(handlers, l, a) && Legal(handlers, Run(handlers, l, a), b)
    ensures Legal(handlers, l, a + b)
    ensures Run(handlers, l, a + b) == Run(handlers, Run(handlers, l, a), b)
    decreases |a|
  {
    if a == [] {
      assert a + b == b;
    } else {
      assert (a + b)[1..] == a[1..] + b;
      RunAppend(handlers, Next(handlers, l, a[0]).0, a[1..], b);
    }
  }

  // ---------- what the invariant gives ----------

  /** The link has halves on both sides. */
  predicate Joined(l: Link) { l.c.Some? && l.s.Some? }

  /** Bytes are neither lost, nor repeated, nor reordered: what x wrote is what y has
      taken, then what waits at y, then what is in the wire. */
  predicate Intact(x: Half, y: Half, xy: seq<Frame>) {
    x.written == y.taken + Unread(y.core) + DataOf(xy)
  }

  /** Credit is conserved while the receiver y has not begun to close, and never grows. */
  predicate Balanced(x: Half, y: Half, xy: seq<Frame>, yx: seq<Frame>) {
    && 0 <= x.core.window <= WINDOWSIZE
    && CreditSum(x, y, xy, yx) <= WINDOWSIZE
    && (y.core.status in {SynSent, SynRecv, Est} ==> CreditSum(x, y, xy, yx) == WINDOWSIZE)
  }

  lemma AcceptedFacts(l: Link)
    requires Accepted(l)
    ensures Intact(l.c.value, l.s.value, l.cs) && Balanced(l.c.value, l.s.value, l.cs, l.sc)
    ensures Intact(l.s.value, l.c.value, l.sc) && Balanced(l.s.value, l.c.value, l.sc, l.cs)
  {
    var est := l.c.value.(core := l.c.value.core.(status := Est));
    assert Way(est, l.s.value, [], l.sc[1..]) && Way(l.s.value, est, l.sc[1..], []);
    assert DataOf(l.sc) == [] + DataOf(l.sc[1..]) == DataOf(l.sc[1..]);
    assert CreditOf(l.sc) == 0 + CreditOf(l.sc[1..]);
  }

  /** On a link with both halves, in either direction, bytes are intact and credit is balanced. */
  lemma JoinedFacts(l: Link, side: Side)
    requires LinkInv(l) && Joined(l)
    ensures var x, y := End(l, side).value, End(l, Peer(side)).value;
            && Intact(x, y, Outgoing(l, side))
            && Balanced(x, y, Outgoing(l, side), Incoming(l, side))
  {
    if Opened(l) {
      OpenedFacts(l, side);
    } else if Accepted(l) {
      AcceptedFacts(l);
    } else {
      UntouchedFacts(l, side);
    }
  }

  lemma OpenedFacts(l: Link, side: Side)
    requires Opened(l)
    ensures var x, y := End(l, side).value, End(l, Peer(side)).value;
            Intact(x, y, Outgoing(l, side)) && Balanced(x, y, Outgoing(l, side), Incoming(l, side))
  {
    assert Way(End(l, side).value, End(l, Peer(side)).value, Outgoing(l, side), Incoming(l, side));
  }

  /** Before the server accepts, and after it refuses, no byte and no credit is anywhere. */
  lemma UntouchedFacts(l: Link, side: Side)
    requires Joined(l) && (Answering(l) || Refused(l))
    ensures var x, y := End(l, side).value, End(l, Peer(side)).value;
            Intact(x, y, Outgoing(l, side)) && Balanced(x, y, Outgoing(l, side), Incoming(l, side))
  {
    NothingIn(l.sc);
    NothingIn(l.cs);
  }

  lemma NothingIn(w: seq<Frame>)
    requires |w| <= 1 && (w != [] ==> w[0].Result?)
    ensures DataOf(w) == [] && CreditOf(w) == 0
  {
    if w != [] {
      assert w[1..] == [];
    }
  }

  /** Before the server has a half, the client has written nothing and has its whole window. */
  lemma UnjoinedFacts(l: Link)
    requires LinkInv(l) && !Joined(l)
    ensures l.s.None?
    ensures l.c.Some? ==> l.c.value.written == [] && l.c.value.taken == [] && l.c.value.core.window == WINDOWSIZE
  {
  }

  lemma EofFacts(l: Link, side: Side)
    requires LinkInv(l) && Enabled(l, Local(side, ReadEof))
    ensures Opened(l)
    ensures End(l, side).value.taken == End(l, Peer(side)).value.written
    ensures FinWasSent(End(l, Peer(side)).value.core.status)
  {
    assert Opened(l);
    var y, x := End(l, side).value, End(l, Peer(side)).value;
    assert Way(x, y, Incoming(l, side), Outgoing(l, side));
    assert Unread(y.core) == [] + Join(y.core.queue) == [];
  }

  lemma WndFits(l: Link, side: Side)
    requires LinkInv(l) && Incoming(l, side) != [] && Incoming(l, side)[0].Wnd?
    ensures End(l, side).Some?
    ensures var h := End(l, side).value;
            Receive(h, Incoming(l, side)[0]).half.core.window == h.core.window + Incoming(l, side)[0].credit
  {
    assert Opened(l);
    var x, y := End(l, side).value, End(l, Peer(side)).value;
    assert Way(x, y, Outgoing(l, side), Incoming(l, side));
    assert CreditOf(Incoming(l, side)) >= Incoming(l, side)[0].credit;
  }

  lemma WriteFits(l: Link, side: Side)
    requires LinkInv(l) && Enabled(l, Local(side, FinishWrite))
    ensures var h := End(l, side).value;
            Do(h, On(l, side), FinishWrite).half.core.window == h.core.window - |h.pending.value|
  {
    if Accepted(l) {
      var est := l.c.value.(core := l.c.value.core.(status := Est));
      assert Way(l.s.value, est, l.sc[1..], []);
    } else {
      assert Opened(l);
    }
  }

  /** `side` has sent its FIN. */
  predicate Quiet(l: Link, side: Side) {
    && (Opened(l) || (Accepted(l) && side.Server?))
    && FinWasSent(End(l, side).value.core.status)
  }

  /** The frames `side` sends in a step. */
  function Sends(handlers: set<string>, l: Link, step: LinkStep, side: Side): seq<Frame>
    requires Enabled(l, step)
  {
    match step
    case Dial => []
    case Local(at, a) => if at == side then Do(End(l, at).value, On(l, at), a).out else []
    case Deliver(at) =>
      var f := Incoming(l, at)[0];
      if at == side && On(l, at) then Receive(End(l, at).value, f).out
      else if at == side == Server && f.Syn? && f.network !in handlers then [Result(ERR_UNKNOWN_PROTOCOL)]
      else []
  }

  /** The only answer to a delivery is the server's refusal of an unknown network. */
  lemma SendsOnDelivery(handlers: set<string>, l: Link, at: Side, side: Side)
    requires Enabled(l, Deliver(at)) && (On(l, at) <==> !Incoming(l, at)[0].Syn?)
    ensures var f := Incoming(l, at)[0];
            Sends(handlers, l, Deliver(at), side) ==
            if at == side == Server && f.Syn? && f.network !in handlers then [Result(ERR_UNKNOWN_PROTOCOL)] else []
  {
    if On(l, at) {
      NoAnswer(End(l, at).value, Incoming(l, at)[0]);
    }
  }

  lemma NoAnswer(h: Half, f: Frame)
    ensures Receive(h, f).out == []
  {
  }

  /** An open link stays open. */
  lemma OpenedStays(handlers: set<string>, l: Link, step: LinkStep)
    requires Opened(l) && Enabled(l, step)
    ensures Opened(Next(handlers, l, step).0)
  {
    match step {
      case Local(at, a) => OpenedLocal(l, at, a);
      case Deliver(at) => OpenedDeliver(handlers, l, at);
    }
  }

  lemma QuietHalf(h: Half, on: bool, a: Act)
    requires Tidy(h, on) && FinWasSent(h.core.status) && Can(h, on, a)
    ensures Do(h, on, a).out == [] && FinWasSent(Do(h, on, a).half.core.status)
  {
  }

  lemma QuietEnd(handlers: set<string>, l: Link, step: LinkStep, side: Side)
    requires End(l, side).Some? && Tidy(End(l, side).value, On(l, side))
    requires FinWasSent(End(l, side).value.core.status) && Enabled(l, step) && !step.Dial?
    requires step == Deliver(side) ==> On(l, side)
    ensures Sends(handlers, l, step, side) == []
    ensures End(Next(handlers, l, step).0, side).Some?
    ensures FinWasSent(End(Next(handlers, l, step).0, side).value.core.status)
  {
    if step.Local? && step.side == side {
      QuietHalf(End(l, side).value, On(l, side), step.act);
    }
  }

  lemma QuietAcceptedLocal(l: Link, at: Side, a: Act)
    requires Accepted(l) && Quiet(l, Server) && Enabled(l, Local(at, a))
    ensures Sends({}, l, Local(at, a), Server) == [] && Quiet(Next({}, l, Local(at, a)).0, Server)
  {
    AcceptedLocal(l, at, a);
    if at.Server? {
      QuietHalf(l.s.value, l.sOn, a);
    }
  }

  lemma QuietAccepted(handlers: set<string>, l: Link, step: LinkStep)
    requires Accepted(l) && Quiet(l, Server) && Enabled(l, step)
    ensures Sends(handlers, l, step, Server) == []
    ensures Quiet(Next(handlers, l, step).0, Server)
  {
    match step {
      case Local(at, a) =>
        QuietAcceptedLocal(l, at, a);
        assert Next(handlers, l, step) == Next({}, l, step);
      case Deliver(at) => HandshakeDeliver(handlers, l, at);
    }
  }

  /** Once an end has sent its FIN it sends nothing more, whatever happens on either side. */
  lemma QuietStays(handlers: set<string>, l: Link, step: LinkStep, side: Side)
    requires Quiet(l, side) && Enabled(l, step)
    ensures Sends(handlers, l, step, side) == []
    ensures Quiet(Next(handlers, l, step).0, side)
  {
    if Opened(l) {
      if step == Deliver(side) {
        OpenedDeliver(handlers, l, side);
      }
      QuietEnd(handlers, l, step, side);
      OpenedStays(handlers, l, step);
    } else {
      QuietAccepted(handlers, l, step);
    }
  }

  lemma SendsFin(handlers: set<string>, l: Link, step: LinkStep, side: Side)
    requires Enabled(l, step) && Fin in Sends(handlers, l, step, side)
    ensures step == Local(side, DoClose) && End(l, side).value.core.status in {Est, FinRecv}
  {
  }

  lemma FinQuietsOpened(l: Link, side: Side)
    requires Opened(l) && Enabled(l, Local(side, DoClose)) && End(l, side).value.core.status in {Est, FinRecv}
    ensures Quiet(Next({}, l, Local(side, DoClose)).0, side)
  {
    OpenedLocal(l, side, DoClose);
  }

  lemma FinQuietsAccepted(l: Link)
    requires Accepted(l) && Enabled(l, Local(Server, DoClose)) && l.s.value.core.status in {Est, FinRecv}
    ensures Quiet(Next({}, l, Local(Server, DoClose)).0, Server)
  {
    AcceptedServerLocal(l, DoClose);
  }

  /** Sending FIN makes an end quiet. */
  lemma FinQuiets(handlers: set<string>, l: Link, step: LinkStep, side: Side)
    requires LinkInv(l) && Enabled(l, step) && Fin in Sends(handlers, l, step, side)
    ensures Quiet(Next(handlers, l, step).0, side)
  {
    SendsFin(handlers, l, step, side);
    assert Next(handlers, l, step) == Next({}, l, step);
    if Opened(l) {
      FinQuietsOpened(l, side);
    } else {
      FinQuietsAccepted(l);
    }
  }
}
