/** What holds in every orderly run of the tunnel, from the empty state on. */
module TunnelTheorems {
  import opened Prelude
  import opened StreamCore
  import opened IdPool
  import opened Link
  import opened Tunnel
  import opened TunnelSafety
  import LinkSafety

  lemma {:induction false} ExecInv(s: State, steps: seq<Step>)
    requires Inv(s) && Orderly(s, steps)
    ensures Inv(Exec(s, steps)) && Exec(s, steps).handlers == s.handlers
    decreases |steps|
  {
    if steps != [] {
      StepInv(s, steps[0]);
      ExecInv(Apply(s, steps[0]), steps[1..]);
    }
  }

  lemma InitInv(handlers: set<string>)
    ensures Inv(Init(handlers))
  {
    forall k: nat ensures LinkInv(View(Init(handlers), k)) {
      assert View(Init(handlers), k) == NO_LINK;
    }
  }

  /** A state that some orderly run reaches. */
  ghost predicate Reachable(s: State) {
    exists handlers, steps :: Orderly(Init(handlers), steps) && Exec(Init(handlers), steps) == s
  }

  lemma ReachableInv(s: State)
    requires Reachable(s)
    ensures Inv(s)
  {
    var handlers, steps :| Orderly(Init(handlers), steps) && Exec(Init(handlers), steps) == s;
    InitInv(handlers);
    ExecInv(Init(handlers), steps);
  }

  lemma {:induction false} OrderlyAppend(s: State, a: seq<Step>, b: seq<Step>)
    requires Orderly(s, a) && Orderly(Exec(s, a), b)
    ensures Orderly(s, a + b) && Exec(s, a + b) == Exec(Exec(s, a), b)
    decreases |a|
  {
    if a == [] {
      assert a + b == b;
    } else {
      assert (a + b)[1..] == a[1..] + b;
      OrderlyAppend(Apply(s, a[0]), a[1..], b);
    }
  }

  lemma ExecOne(s: State, step: Step)
    requires Ready(s, step)
    ensures Orderly(s, [step]) && Exec(s, [step]) == Apply(s, step)
  {
    var one, s1 := [step], Apply(s, step);
    assert one[0] == step && one[1..] == [];
    assert Orderly(s1, one[1..]);
    assert Exec(s1, one[1..]) == s1;
    assert Orderly(s, one);
    assert Exec(s, one) == Exec(s1, one[1..]);
  }

  lemma ReachableExec(s: State, steps: seq<Step>)
    requires Reachable(s) && Orderly(s, steps)
    ensures Reachable(Exec(s, steps))
  {
    var handlers, before :| Orderly(Init(handlers), before) && Exec(Init(handlers), before) == s;
    OrderlyAppend(Init(handlers), before, steps);
  }

  // ---------- no frame is unmapped ----------

  /** The loop of neither end has stopped. The next frame for an end, unless it is a SYN,
      finds its id mapped to the Conn of its own stream; a SYN goes to the
      server and finds its id free. So the loop takes it, and goes on. */
  lemma NoFrameIsUnmapped(s: State, side: Side)
    requires Reachable(s)
    ensures !At(s, side).halted
    ensures Inbox(s, side) != [] ==>
              && Ready(s, Arrive(side)) && !At(Apply(s, Arrive(side)), side).halted
              && var item := Inbox(s, side)[0];
                 if item.frame.Syn? then side.Server? && item.id !in s.server.weaves
                 else item.id in At(s, side).weaves && At(s, side).weaves[item.id] == item.tag
  {
    ReachableInv(s);
    if Inbox(s, side) != [] {
      ArriveInv(s, side);
      var item := Inbox(s, side)[0];
      if item.frame.Syn? {
        HeadOf(Inbox(s, side));
        LinkSafety.DeliverPreserves({}, View(s, item.tag), side);
        SynFindsFreeId(s);
      } else {
        RoutedToOwner(s, side);
      }
    }
  }

  // ---------- the tunnel refines a private link for each stream ----------

  /** The steps of a run that belong to stream k, as steps of its link. */
  function Trace(s: State, steps: seq<Step>, k: nat): seq<LinkStep>
    requires Orderly(s, steps)
    decreases |steps|
  {
    if steps == [] then []
    else LinkSteps(s, steps[0], k) + Trace(Apply(s, steps[0]), steps[1..], k)
  }

  function LinkSteps(s: State, step: Step, k: nat): seq<LinkStep>
    requires Ready(s, step)
  {
    match step
    case Register =>
      if k == s.nextTag && FirstFree(s.client.weaves.Keys, s.nextId, 0).Some? then [Dial] else []
    case Move(side, tag, a) => if k == tag then [Local(side, a)] else []
    case Arrive(side) => if k == Inbox(s, side)[0].tag then [Deliver(side)] else []
  }

  lemma StepRefines(s: State, step: Step, k: nat)
    requires Inv(s) && Ready(s, step)
    ensures LinkSafety.Legal(s.handlers, View(s, k), LinkSteps(s, step, k))
    ensures View(Apply(s, step), k) == LinkSafety.Run(s.handlers, View(s, k), LinkSteps(s, step, k))
  {
    match step {
      case Register => RegisterView(s, k);
      case Move(side, tag, a) => MoveView(s, side, tag, a, k);
      case Arrive(side) => ArriveView(s, side, k);
    }
  }

  lemma HandlersStay(s: State, step: Step)
    requires Ready(s, step)
    ensures Apply(s, step).handlers == s.handlers
  {
  }

  /** Whatever the other streams do, stream k goes through a run of a private link. */
  lemma {:induction false} Refines(s: State, steps: seq<Step>, k: nat)
    requires Inv(s) && Orderly(s, steps)
    ensures LinkSafety.Legal(s.handlers, View(s, k), Trace(s, steps, k))
    ensures View(Exec(s, steps), k) == LinkSafety.Run(s.handlers, View(s, k), Trace(s, steps, k))
    decreases |steps|
  {
    if steps != [] {
      var s1 := Apply(s, steps[0]);
      StepRefines(s, steps[0], k);
      StepInv(s, steps[0]);
      HandlersStay(s, steps[0]);
      Refines(s1, steps[1..], k);
      LinkSafety.RunAppend(s.handlers, View(s, k), LinkSteps(s, steps[0], k), Trace(s1, steps[1..], k));
    }
  }

  /** From the empty tunnel: the life of any stream is a legal run of a link from nothing. */
  lemma TunnelRefinesLinks(handlers: set<string>, steps: seq<Step>, k: nat)
    requires Orderly(Init(handlers), steps)
    ensures LinkSafety.Legal(handlers, NO_LINK, Trace(Init(handlers), steps, k))
    ensures View(Exec(Init(handlers), steps), k) ==
            LinkSafety.Run(handlers, NO_LINK, Trace(Init(handlers), steps, k))
  {
    InitInv(handlers);
    assert View(Init(handlers), k) == NO_LINK;
    Refines(Init(handlers), steps, k);
  }

  /** Isolation: two runs that agree on the steps of stream k end with the same stream k,
      though all other streams, the ids in use and the order of frames may differ. */
  lemma Isolation(handlers: set<string>, one: seq<Step>, two: seq<Step>, k: nat, j: nat)
    requires Orderly(Init(handlers), one) && Orderly(Init(handlers), two)
    requires Trace(Init(handlers), one, k) == Trace(Init(handlers), two, j)
    ensures View(Exec(Init(handlers), one), k) == View(Exec(Init(handlers), two), j)
  {
    TunnelRefinesLinks(handlers, one, k);
    TunnelRefinesLinks(handlers, two, j);
  }

  // ---------- bytes ----------

  /** What one end of a stream has read is a prefix of what the other end has written, and the
      rest is, in order, at the reader or in the wire under the tag of this stream. */
  lemma StreamIntegrity(s: State, k: nat, side: Side)
    requires Reachable(s) && k in At(s, side).conns
    ensures var x := At(s, side).conns[k].half;
            if k in At(s, Peer(side)).conns then
              var y := At(s, Peer(side)).conns[k].half;
              && x.written == y.taken + Unread(y.core) + DataOf(Of(Inbox(s, Peer(side)), k))
              && y.taken <= x.written
            else x.written == []
  {
    ReachableInv(s);
    if k in At(s, Peer(side)).conns {
      LinkSafety.JoinedFacts(View(s, k), side);
    } else {
      LinkSafety.UnjoinedFacts(View(s, k));
    }
  }

  /** A reader is told EOF only when it has all that its peer wrote, and the peer has closed. */
  lemma EofIsComplete(s: State, k: nat, side: Side)
    requires Reachable(s) && Ready(s, Move(side, k, ReadEof))
    ensures k in At(s, Peer(side)).conns
    ensures var x, y := At(s, Peer(side)).conns[k].half, At(s, side).conns[k].half;
            y.taken == x.written && x.core.status in {FinSent, Unknown}
  {
    ReachableInv(s);
    var l := View(s, k);
    assert LinkInv(l);
    LinkSafety.EofFacts(l, side);
  }

  /** A stream that was open and is now UNKNOWN, or has received FIN, has its queue closed;
      its closing timer is set exactly while it is half closed. */
  lemma ClosedAndTimed(s: State, k: nat, side: Side)
    requires Reachable(s) && k in At(s, side).conns
    ensures var c := At(s, side).conns[k].half.core;
            && (c.timer <==> c.status in {FinRecv, FinSent})
            && (c.status == FinRecv ==> c.closed)
            && (c.status == Unknown && !Mapped(At(s, side), k) ==> c.closed)
  {
    ReachableInv(s);
    assert LinkInv(View(s, k));
  }

  // ---------- credit ----------

  /** The credit of each direction of a stream is conserved until the receiver closes, and
      never exceeds the window; so windows and receive buffers are bounded. */
  lemma CreditConserved(s: State, k: nat, side: Side)
    requires Reachable(s) && k in At(s, side).conns && k in At(s, Peer(side)).conns
    ensures var x, y := At(s, side).conns[k].half, At(s, Peer(side)).conns[k].half;
            var sum := x.core.window + |DataOf(Of(Inbox(s, Peer(side)), k))| + |Unread(y.core)|
                       + Uncredited(y) + CreditOf(Of(Inbox(s, side), k));
            && sum <= WINDOWSIZE
            && (y.core.status in {SynSent, SynRecv, Est} ==> sum == WINDOWSIZE)
            && 0 <= x.core.window <= WINDOWSIZE
            && |Unread(y.core)| <= WINDOWSIZE
  {
    ReachableInv(s);
    LinkSafety.JoinedFacts(View(s, k), side);
  }

  /** The 32-bit window never wraps: a WND adds exactly what it says, a DATA subtracts its length. */
  lemma WindowNeverWraps(s: State, k: nat, side: Side)
    requires Reachable(s)
    ensures Inbox(s, side) != [] && Inbox(s, side)[0].frame.Wnd? ==>
              && Ready(s, Arrive(side))
              && var item := Inbox(s, side)[0];
                 item.tag in At(s, side).conns && item.tag in At(Apply(s, Arrive(side)), side).conns
                 && At(Apply(s, Arrive(side)), side).conns[item.tag].half.core.window ==
                    At(s, side).conns[item.tag].half.core.window + item.frame.credit
    ensures Ready(s, Move(side, k, FinishWrite)) ==>
              var h := At(s, side).conns[k].half;
              At(Apply(s, Move(side, k, FinishWrite)), side).conns[k].half.core.window ==
              h.core.window - |h.pending.value|
  {
    ReachableInv(s);
    if Inbox(s, side) != [] && Inbox(s, side)[0].frame.Wnd? {
      RoutedToOwner(s, side);
      HeadOf(Inbox(s, side));
      LinkSafety.WndFits(View(s, Inbox(s, side)[0].tag), side);
    }
    if Ready(s, Move(side, k, FinishWrite)) {
      LinkSafety.WriteFits(View(s, k), side);
    }
  }

  // ---------- closing ----------

  /** The frames of stream k that `side` sends in a run. */
  function Sent(s: State, steps: seq<Step>, side: Side, k: nat): seq<Frame>
    requires Orderly(s, steps)
    decreases |steps|
  {
    if steps == [] then [] else SentIn(s, steps[0], side, k) + Sent(Apply(s, steps[0]), steps[1..], side, k)
  }

  /** What a step adds to the wire from `side` for stream k. */
  function SentIn(s: State, step: Step, side: Side, k: nat): seq<Frame>
    requires Ready(s, step)
  {
    var before := Inbox(s, Peer(side));
    var used := if step == Arrive(Peer(side)) then 1 else 0;
    var after := Inbox(Apply(s, step), Peer(side));
    if |before| - used <= |after| then Of(after[|before| - used..], k) else []
  }

  lemma SentInIsSends(s: State, step: Step, side: Side, k: nat)
    requires Inv(s) && Ready(s, step)
    ensures SentIn(s, step, side, k) ==
            (if LinkSteps(s, step, k) == [] then []
             else if !Enabled(View(s, k), LinkSteps(s, step, k)[0]) then []
             else LinkSafety.Sends(s.handlers, View(s, k), LinkSteps(s, step, k)[0], side))
  {
    match step {
      case Register =>
        var before := Inbox(s, Peer(side));
        assert Inbox(Apply(s, step), Peer(side))[|before|..] == [];
      case Move(at, tag, a) =>
        MoveView(s, at, tag, a, k);
        SentOnMove(s, at, tag, a, side, k);
      case Arrive(at) =>
        ArriveView(s, at, k);
        SentOnArrival(s, at, side, k);
    }
  }

  lemma SentOnMove(s: State, at: Side, tag: nat, a: Act, side: Side, k: nat)
    requires Ready(s, Move(at, tag, a))
    ensures SentIn(s, Move(at, tag, a), side, k) ==
            if k == tag && at == side then Do(At(s, at).conns[tag].half, Mapped(At(s, at), tag), a).out else []
  {
    var before := Inbox(s, Peer(side));
    var after := Inbox(Apply(s, Move(at, tag, a)), Peer(side));
    var eff := Do(At(s, at).conns[tag].half, Mapped(At(s, at), tag), a);
    if at == side {
      assert after[|before|..] == Stamp(At(s, at).conns[tag].streamid, tag, eff.out);
      OfStamp(At(s, at).conns[tag].streamid, tag, eff.out, k);
    } else {
      assert after[|before|..] == [];
    }
  }

  /** What a frame that is not a SYN makes the other end's inbox: nothing is sent in return. */
  lemma NothingSentInReturn(s: State, at: Side, side: Side, k: nat)
    requires Inv(s) && Ready(s, Arrive(at)) && !Inbox(s, at)[0].frame.Syn?
    ensures SentIn(s, Arrive(at), side, k) == []
  {
    var before := Inbox(s, Peer(side));
    var after := Inbox(Apply(s, Arrive(at)), Peer(side));
    RoutedToOwner(s, at);
    assert after == before[if at == side then 0 else 1..];
  }

  lemma SentOnSyn(s: State, side: Side, k: nat)
    requires Inv(s) && Ready(s, Arrive(Server)) && s.cs[0].frame.Syn?
    ensures SentIn(s, Arrive(Server), side, k) ==
            if k == s.cs[0].tag && side.Server? && s.cs[0].frame.network !in s.handlers
            then [Result(ERR_UNKNOWN_PROTOCOL)] else []
  {
    SynFindsFreeId(s);
    var item := s.cs[0];
    var before := Inbox(s, Peer(side));
    var after := Inbox(Apply(s, Arrive(Server)), Peer(side));
    if side.Server? {
      var reply := [Item(item.id, item.tag, Result(ERR_UNKNOWN_PROTOCOL))];
      assert Of(reply, k) == (if k == item.tag then [reply[0].frame] else []) + Of(reply[1..], k);
      assert after[|before|..] == if item.frame.network in s.handlers then [] else reply;
    } else {
      assert after == before[1..];
    }
  }

  lemma SentOnArrival(s: State, at: Side, side: Side, k: nat)
    requires Inv(s) && Ready(s, Arrive(at)) && Enabled(View(s, Inbox(s, at)[0].tag), Deliver(at))
    ensures SentIn(s, Arrive(at), side, k) ==
            (if k == Inbox(s, at)[0].tag then LinkSafety.Sends(s.handlers, View(s, k), Deliver(at), side) else [])
  {
    var item := Inbox(s, at)[0];
    HeadOf(Inbox(s, at));
    LinkSafety.DeliverPreserves(s.handlers, View(s, item.tag), at);
    LinkSafety.SendsOnDelivery(s.handlers, View(s, item.tag), at, side);
    if item.frame.Syn? {
      SentOnSyn(s, side, k);
    } else {
      NothingSentInReturn(s, at, side, k);
    }
  }

  lemma LinkStepsOne(s: State, step: Step, k: nat)
    requires Inv(s) && Ready(s, step) && LinkSteps(s, step, k) != []
    ensures var one := LinkSteps(s, step, k)[0];
            Enabled(View(s, k), one) && View(Apply(s, step), k) == Next(s.handlers, View(s, k), one).0
  {
    StepRefines(s, step, k);
    assert LinkSteps(s, step, k)[1..] == [];
  }

  lemma QuietStep(s: State, step: Step, side: Side, k: nat)
    requires Inv(s) && Ready(s, step) && LinkSafety.Quiet(View(s, k), side)
    ensures SentIn(s, step, side, k) == [] && LinkSafety.Quiet(View(Apply(s, step), k), side)
  {
    SentInIsSends(s, step, side, k);
    if LinkSteps(s, step, k) == [] {
      StepRefines(s, step, k);
    } else {
      LinkStepsOne(s, step, k);
      LinkSafety.QuietStays(s.handlers, View(s, k), LinkSteps(s, step, k)[0], side);
    }
  }

  lemma {:induction false} QuietRun(s: State, steps: seq<Step>, side: Side, k: nat)
    requires Inv(s) && Orderly(s, steps) && LinkSafety.Quiet(View(s, k), side)
    ensures Sent(s, steps, side, k) == []
    decreases |steps|
  {
    if steps != [] {
      QuietStep(s, steps[0], side, k);
      StepInv(s, steps[0]);
      QuietRun(Apply(s, steps[0]), steps[1..], side, k);
    }
  }

  lemma FinStep(s: State, step: Step, side: Side, k: nat)
    requires Inv(s) && Ready(s, step) && Fin in SentIn(s, step, side, k)
    ensures LinkSafety.Quiet(View(Apply(s, step), k), side)
  {
    SentInIsSends(s, step, side, k);
    LinkStepsOne(s, step, k);
    LinkSafety.FinQuiets(s.handlers, View(s, k), LinkSteps(s, step, k)[0], side);
  }

  /** FIN is last: after the step in which an end sends FIN for a stream, it sends nothing more
      for that stream, for every continuation and every interleaving of the two closes. */
  lemma FinIsLast(s: State, step: Step, steps: seq<Step>, side: Side, k: nat)
    requires Reachable(s) && Ready(s, step) && Orderly(Apply(s, step), steps)
    requires Fin in SentIn(s, step, side, k)
    ensures Sent(Apply(s, step), steps, side, k) == []
  {
    ReachableInv(s);
    FinStep(s, step, side, k);
    StepInv(s, step);
    QuietRun(Apply(s, step), steps, side, k);
  }

  lemma CloseFacts(l: Link)
    requires LinkInv(l) && l.c.Some? && l.s.Some?
    ensures var c, v := l.c.value.core.status, l.s.value.core.status;
            && (c == Unknown && v == Unknown <==> FinWasSent(c) && FinWasSent(v) && l.cs == [] && l.sc == [])
            && (c != SynSent ==> (l.cOn <==> c != Unknown)) && (v != SynRecv ==> (l.sOn <==> v != Unknown))
            && (c == Unknown ==> FinWasSent(v) && l.sc == []) && (v == Unknown ==> FinWasSent(c) && l.cs == [])
  {
  }

  /** Both ends are UNKNOWN exactly when both have sent FIN and both FINs are delivered; and an
      end that got as far as EST is mapped exactly until it is UNKNOWN, so not before its
      peer's FIN has arrived and not after. */
  lemma CloseCompletes(s: State, k: nat)
    requires Reachable(s) && k in s.client.conns && k in s.server.conns
    ensures var c, v := s.client.conns[k].half.core, s.server.conns[k].half.core;
            && (c.status == Unknown && v.status == Unknown <==>
                  FinWasSent(c.status) && FinWasSent(v.status) && Of(s.cs, k) == [] && Of(s.sc, k) == [])
            && (c.status != SynSent ==> (Mapped(s.client, k) <==> c.status != Unknown))
            && (v.status != SynRecv ==> (Mapped(s.server, k) <==> v.status != Unknown))
            && (c.status == Unknown ==> FinWasSent(v.status) && Of(s.sc, k) == [])
            && (v.status == Unknown ==> FinWasSent(c.status) && Of(s.cs, k) == [])
  {
    ReachableInv(s);
    CloseFacts(View(s, k));
  }
}
