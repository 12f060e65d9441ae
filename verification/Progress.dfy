/**
 What the tunnel can always still do, from every reachable state and with a run that is given.
 All that is in a wire can be delivered, and a reader can take and credit all it has. So while
 the receiving end of a stream is EST a writer that waits for window can be released; when
 both ends have closed, deliveries alone free the id at both; and when its peer has closed a
 reader comes to EOF, with all that the peer wrote.
 */
module Progress {
  import opened Prelude
  import opened StreamCore
  import opened Link
  import opened Tunnel
  import opened TunnelSafety
  import opened TunnelTheorems
  import LinkSafety
  import ReadSpec

  /** A parked writer means that something is left to drain, and when nothing is, the window is
      whole and holds any chunk Write can make. */
  lemma ParkedWriterHasCreditUnderway(s: State, k: nat, side: Side)
    requires Reachable(s) && k in At(s, side).conns && k in At(s, Peer(side)).conns
    requires At(s, side).conns[k].half.pending.Some? && !FinWasSent(At(s, Peer(side)).conns[k].half.core.status)
    ensures var x, y := At(s, side).conns[k].half, At(s, Peer(side)).conns[k].half;
            var drained := DataOf(Of(Inbox(s, Peer(side)), k)) == [] && Unread(y.core) == []
                           && Uncredited(y) == 0 && CreditOf(Of(Inbox(s, side), k)) == 0;
            && (drained ==> x.core.window == WINDOWSIZE && Ready(s, Move(side, k, FinishWrite)))
            && (!Ready(s, Move(side, k, FinishWrite)) ==> !drained)
  {
    ReachableInv(s);
    WriterIsOpen(View(s, k), side);
    WriterIsHeard(View(s, k), side);
    LinkSafety.JoinedFacts(View(s, k), side);
  }

  /** The peer of an end that has a slice to send has not received FIN from it. */
  lemma WriterIsHeard(l: Link, side: Side)
    requires Live(l) && End(l, side).value.pending.Some?
    ensures End(l, Peer(side)).value.core.status in {SynSent, Est, FinSent}
  {
  }

  /** A slice waits only at an end of an open stream, or at a server that the client has not
      heard from; and it is no longer than a chunk. */
  lemma WriterIsOpen(l: Link, side: Side)
    requires LinkInv(l) && End(l, side).Some? && End(l, side).value.pending.Some?
    ensures Live(l) && Tidy(End(l, side).value, On(l, side))
  {
  }

  // ---------- deliveries ----------

  /** A stream that the server has accepted. */
  predicate Live(l: Link) {
    Accepted(l) || Opened(l)
  }

  /** l' is l after deliveries to `at`. */
  predicate Delivered(l: Link, l': Link, at: Side) {
    && l.c.Some? && l.s.Some? && l'.c.Some? && l'.s.Some?
    && Outgoing(l', at) == Outgoing(l, at) && End(l', Peer(at)) == End(l, Peer(at))
    && Received(End(l, at).value, End(l', at).value, End(l, Peer(at)).value.core.status)
    && Credit(l', at) == Credit(l, at)
  }

  /** The window of an end, with the credit that is under way to it. */
  function Credit(l: Link, at: Side): int
    requires End(l, at).Some?
  {
    End(l, at).value.core.window + CreditOf(Incoming(l, at))
  }

  /** What a frame leaves as it is, and that FIN alone ends EST. */
  predicate Received(h: Half, h': Half, peer: Status) {
    && h' == h.(core := h'.core)
    && (h.core.status == Est && !FinWasSent(peer) ==> h'.core.status == Est)
    && (FinWasSent(h.core.status) <==> FinWasSent(h'.core.status))
    && h.core.window <= h'.core.window
  }

  lemma ReceivesFrame(h: Half, f: Frame, peer: Status)
    requires f.Data? || f.Wnd? || (f.Fin? && FinWasSent(peer))
    requires f.Wnd? ==> Receive(h, f).half.core.window == h.core.window + f.credit
    ensures Received(h, Receive(h, f).half, peer)
    ensures Receive(h, f).half.core.window == h.core.window + (if f.Wnd? then f.credit else 0)
  {
  }

  lemma OpenedDelivered(handlers: set<string>, l: Link, at: Side)
    requires Opened(l) && Incoming(l, at) != []
    ensures var l' := Next(handlers, l, Deliver(at)).0;
            Opened(l') && Delivered(l, l', at) && Incoming(l', at) == Incoming(l, at)[1..]
  {
    var f := Incoming(l, at)[0];
    HeadOfOpened(l, at);
    if f.Wnd? {
      LinkSafety.WndFits(l, at);
    }
    ReceivesFrame(End(l, at).value, f, End(l, Peer(at)).value.core.status);
    LinkSafety.OpenedDeliver(handlers, l, at);
    DeliveryIsLocal(handlers, l, at);
    assert CreditOf(Incoming(l, at)) == (if f.Wnd? then f.credit else 0) + CreditOf(Incoming(l, at)[1..]);
  }

  /** A delivery to a mapped end changes that end and its incoming wire only. */
  lemma DeliveryIsLocal(handlers: set<string>, l: Link, at: Side)
    requires On(l, at) && End(l, at).Some? && Incoming(l, at) != []
    ensures var l' := Next(handlers, l, Deliver(at)).0;
            && Outgoing(l', at) == Outgoing(l, at) && End(l', Peer(at)) == End(l, Peer(at))
            && Incoming(l', at) == Incoming(l, at)[1..]
            && End(l', at) == Some(Receive(End(l, at).value, Incoming(l, at)[0]).half)
  {
    LinkSafety.NoAnswer(End(l, at).value, Incoming(l, at)[0]);
    assert Outgoing(l, at) + [] == Outgoing(l, at);
  }

  lemma HeadOfOpened(l: Link, at: Side)
    requires Opened(l) && Incoming(l, at) != []
    ensures var f := Incoming(l, at)[0];
            f.Data? || f.Wnd? || (f.Fin? && FinWasSent(End(l, Peer(at)).value.core.status))
  {
    DisciplineHead(End(l, Peer(at)).value.core.status, End(l, at).value.core.status, Incoming(l, at));
  }

  lemma LiveDelivered(handlers: set<string>, l: Link, at: Side)
    requires Live(l) && Incoming(l, at) != []
    ensures var l' := Next(handlers, l, Deliver(at)).0;
            Live(l') && Delivered(l, l', at) && Incoming(l', at) == Incoming(l, at)[1..]
  {
    if Opened(l) {
      OpenedDelivered(handlers, l, at);
    } else {
      LinkSafety.HandshakeDeliver(handlers, l, at);
      assert l.cs + [] == l.cs;
      assert CreditOf(l.sc) == CreditOf(l.sc[1..]);
    }
  }

  /** A delivery to the client makes it send nothing. */
  lemma ClientOnlyListens(s: State)
    requires Inv(s) && Ready(s, Arrive(Client))
    ensures Apply(s, Arrive(Client)).cs == s.cs
  {
    var item := s.sc[0];
    if item.id in s.client.weaves {
      LinkSafety.NoAnswer(s.client.conns[s.client.weaves[item.id]].half, item.frame);
    }
  }

  /** One delivery, seen by stream k. */
  lemma ArriveDelivers(s: State, at: Side, k: nat)
    requires Inv(s) && Ready(s, Arrive(at)) && Live(View(s, k))
    ensures var l' := View(Apply(s, Arrive(at)), k);
            Live(l') && Delivered(View(s, k), l', at)
  {
    ArriveView(s, at, k);
    if Inbox(s, at)[0].tag == k {
      HeadOf(Inbox(s, at));
      LiveDelivered(s.handlers, View(s, k), at);
    }
  }

  /** One delivery, seen by the wires. */
  lemma ArriveTakesOne(s: State, at: Side)
    requires Inv(s) && Inbox(s, at) != []
    ensures Ready(s, Arrive(at)) && Inv(Apply(s, Arrive(at)))
    ensures Inbox(Apply(s, Arrive(at)), at) == Inbox(s, at)[1..]
    ensures at.Client? ==> Apply(s, Arrive(at)).cs == s.cs
  {
    ArriveInv(s, at);
    if at.Client? {
      ClientOnlyListens(s);
    }
  }

  predicate AllArrive(steps: seq<Step>, at: Side) {
    forall i :: 0 <= i < |steps| ==> steps[i] == Arrive(at)
  }

  /** Steps that are deliveries, to either end. */
  predicate Deliveries(steps: seq<Step>) {
    forall i :: 0 <= i < |steps| ==> steps[i].Arrive?
  }

  lemma DeliveriesAppend(a: seq<Step>, b: seq<Step>, one: Side, two: Side)
    requires AllArrive(a, one) && AllArrive(b, two)
    ensures Deliveries(a + b)
  {
  }

  predicate ArriveRun(s: State, steps: seq<Step>, at: Side) {
    Orderly(s, steps) && AllArrive(steps, at)
  }

  lemma ArriveRunCons(s: State, more: seq<Step>, at: Side)
    requires Ready(s, Arrive(at)) && ArriveRun(Apply(s, Arrive(at)), more, at)
    ensures ArriveRun(s, [Arrive(at)] + more, at)
    ensures Exec(s, [Arrive(at)] + more) == Exec(Apply(s, Arrive(at)), more)
  {
    assert ([Arrive(at)] + more)[1..] == more;
  }

  lemma DeliveredTwice(l: Link, l1: Link, l2: Link, at: Side)
    requires Delivered(l, l1, at) && Delivered(l1, l2, at)
    ensures Delivered(l, l2, at)
  {
  }

  /** Deliver all that is in the shared wire towards `at`, whatever streams it belongs to. */
  lemma DeliverAll(s: State, at: Side, k: nat) returns (steps: seq<Step>)
    requires Inv(s)
    ensures ArriveRun(s, steps, at) && Inv(Exec(s, steps))
    ensures Inbox(Exec(s, steps), at) == [] && (at.Client? ==> Exec(s, steps).cs == s.cs)
    ensures Live(View(s, k)) ==> Live(View(Exec(s, steps), k))
                                 && Delivered(View(s, k), View(Exec(s, steps), k), at)
    decreases |Inbox(s, at)|
  {
    if Inbox(s, at) == [] {
      steps := [];
    } else {
      ArriveTakesOne(s, at);
      var s1 := Apply(s, Arrive(at));
      var more := DeliverAll(s1, at, k);
      ArriveRunCons(s, more, at);
      steps := [Arrive(at)] + more;
      if Live(View(s, k)) {
        ArriveDelivers(s, at, k);
        DeliveredTwice(View(s, k), View(s1, k), View(Exec(s1, more), k), at);
      }
    }
  }

  // ---------- the reader ----------

  predicate ReaderAct(a: Act) {
    a.ReadCall? || a.ReadCopy? || a.ReadStop? || a.ReadEof? || a.ReadCredit?
  }

  /** A step that drains: any delivery, or a step of the reader of stream k at `at`. */
  predicate Draining(step: Step, k: nat, at: Side) {
    step.Arrive? || (step.Move? && step.side == at && step.tag == k && ReaderAct(step.act))
  }

  predicate DrainRun(s: State, steps: seq<Step>, k: nat, at: Side) {
    Orderly(s, steps) && forall i :: 0 <= i < |steps| ==> Draining(steps[i], k, at)
  }

  /** h' is h after steps of its reader: what they do not change. */
  predicate SameButRead(h: Half, h': Half) {
    && h'.core == h.core.(rest := h'.core.rest, queue := h'.core.queue)
    && h'.pending == h.pending && h'.written == h.written
  }

  /** l' is l after steps of the reader at `at`. */
  predicate ReadOn(l: Link, l': Link, at: Side) {
    && Incoming(l', at) == Incoming(l, at) && End(l', Peer(at)) == End(l, Peer(at))
    && End(l, at).Some? && End(l', at).Some? && SameButRead(End(l, at).value, End(l', at).value)
  }

  lemma ReaderActs(h: Half, on: bool, a: Act)
    requires ReaderAct(a) && Can(h, on, a)
    ensures Do(h, on, a).keep && SameButRead(h, Do(h, on, a).half)
  {
  }

  lemma ReaderActsOn(handlers: set<string>, l: Link, at: Side, a: Act)
    requires ReaderAct(a) && Enabled(l, Local(at, a))
    ensures var l' := Next(handlers, l, Local(at, a)).0;
            ReadOn(l, l', at) && End(l', at) == Some(Do(End(l, at).value, On(l, at), a).half)
  {
    ReaderActs(End(l, at).value, On(l, at), a);
  }

  /** One step of the reader, seen by its stream. */
  lemma ReaderMoves(s: State, k: nat, at: Side, a: Act)
    requires Inv(s) && k in At(s, at).conns && ReaderAct(a)
    requires Can(At(s, at).conns[k].half, Mapped(At(s, at), k), a)
    ensures Ready(s, Move(at, k, a))
    ensures var s' := Apply(s, Move(at, k, a));
            && Inv(s') && ReadOn(View(s, k), View(s', k), at)
            && HalfOf(At(s', at), k) == Some(Do(At(s, at).conns[k].half, Mapped(At(s, at), k), a).half)
  {
    assert Ready(s, Move(at, k, a));
    StepInv(s, Move(at, k, a));
    MoveView(s, at, k, a, k);
    ReaderActsOn(s.handlers, View(s, k), at, a);
  }

  /** A step before a run of draining steps. */
  lemma DrainRunCons(s: State, step: Step, more: seq<Step>, k: nat, at: Side)
    requires Ready(s, step) && Draining(step, k, at) && DrainRun(Apply(s, step), more, k, at)
    ensures DrainRun(s, [step] + more, k, at) && Exec(s, [step] + more) == Exec(Apply(s, step), more)
  {
    assert ([step] + more)[1..] == more;
  }

  predicate Drained(h: Half) {
    Unread(h.core) == [] && Uncredited(h) == 0
  }

  /** The next step of a reader that has something left. */
  function ReaderStep(h: Half): Act {
    match h.reader
    case Idle => ReadCall(|Unread(h.core)|)
    case Reading(space, _) =>
      if space > 0 && Available(h.core) then ReadCopy
      else if space > 0 && h.core.closed then ReadEof else ReadStop
    case Crediting(_) => ReadCredit
  }

  function Phase(r: Reader): nat {
    match r
    case Reading(space, n) => if n > 0 || space == 0 then 4 else 1
    case Crediting(_) => 3
    case Idle => 2
  }

  lemma ReaderAdvances(h: Half, on: bool)
    requires !Drained(h)
    ensures ReaderAct(ReaderStep(h)) && Can(h, on, ReaderStep(h))
    ensures var h' := Do(h, on, ReaderStep(h)).half;
            || ReadSpec.Backlog(h'.core) < ReadSpec.Backlog(h.core)
            || (h'.core == h.core && (Drained(h') || Phase(h'.reader) < Phase(h.reader)))
  {
    if !Available(h.core) {
      assert Unread(h.core) == [];
    }
    if h.reader.Reading? && h.reader.space > 0 && Available(h.core) {
      ReadSpec.CopyShrinks(h.core, h.reader.space);
    }
  }

  /** Let the reader of stream k at `at` take all it has, and credit it or come to EOF. */
  lemma ReadAll(s: State, k: nat, at: Side) returns (steps: seq<Step>)
    requires Inv(s) && k in At(s, at).conns
    ensures DrainRun(s, steps, k, at) && Inv(Exec(s, steps))
    ensures ReadOn(View(s, k), View(Exec(s, steps), k), at)
    ensures Drained(End(View(Exec(s, steps), k), at).value)
    decreases !Drained(At(s, at).conns[k].half), ReadSpec.Backlog(At(s, at).conns[k].half.core),
              Phase(At(s, at).conns[k].half.reader)
  {
    var h := At(s, at).conns[k].half;
    if Drained(h) {
      steps := [];
    } else {
      var a := ReaderStep(h);
      ReaderAdvances(h, Mapped(At(s, at), k));
      ReaderMoves(s, k, at, a);
      var more := ReadAll(Apply(s, Move(at, k, a)), k, at);
      DrainRunCons(s, Move(at, k, a), more, k, at);
      steps := [Move(at, k, a)] + more;
    }
  }

  /** The next step of a reader on its way to EOF. */
  function EofStep(h: Half): Act {
    match h.reader
    case Idle => ReadCall(1)
    case Reading(space, _) => if space > 0 then ReadCopy else ReadStop
    case Crediting(_) => ReadCredit
  }

  function EofPhase(r: Reader): nat {
    match r
    case Reading(space, _) => if space == 0 then 3 else 0
    case Crediting(_) => 2
    case Idle => 1
  }

  lemma EofAdvances(h: Half, on: bool)
    requires h.core.closed && !Can(h, on, ReadEof)
    ensures ReaderAct(EofStep(h)) && Can(h, on, EofStep(h))
    ensures var h' := Do(h, on, EofStep(h)).half;
            ReadSpec.Backlog(h'.core) < ReadSpec.Backlog(h.core) || (h'.core == h.core && EofPhase(h'.reader) < EofPhase(h.reader))
  {
    if h.reader.Reading? && h.reader.space > 0 {
      ReadSpec.CopyShrinks(h.core, h.reader.space);
    }
  }

  /** Let the reader of a closed queue come to EOF. */
  lemma ReadToEof(s: State, k: nat, at: Side) returns (steps: seq<Step>)
    requires Inv(s) && k in At(s, at).conns && At(s, at).conns[k].half.core.closed
    ensures DrainRun(s, steps, k, at) && Inv(Exec(s, steps))
    ensures ReadOn(View(s, k), View(Exec(s, steps), k), at)
    ensures Ready(Exec(s, steps), Move(at, k, ReadEof))
    decreases ReadSpec.Backlog(At(s, at).conns[k].half.core), EofPhase(At(s, at).conns[k].half.reader)
  {
    var h, on := At(s, at).conns[k].half, Mapped(At(s, at), k);
    if Can(h, on, ReadEof) {
      steps := [];
    } else {
      var a := EofStep(h);
      EofAdvances(h, on);
      ReaderMoves(s, k, at, a);
      var more := ReadToEof(Apply(s, Move(at, k, a)), k, at);
      DrainRunCons(s, Move(at, k, a), more, k, at);
      steps := [Move(at, k, a)] + more;
    }
  }

  // ---------- the theorems ----------

  lemma DrainRunAppend(s: State, a: seq<Step>, b: seq<Step>, k: nat, at: Side)
    requires DrainRun(s, a, k, at) && DrainRun(Exec(s, a), b, k, at)
    ensures DrainRun(s, a + b, k, at) && Exec(s, a + b) == Exec(Exec(s, a), b)
  {
    OrderlyAppend(s, a, b);
  }

  lemma FlushedMeansWhole(l: Link, side: Side)
    requires Live(l) && Incoming(l, side) == [] && Outgoing(l, side) == []
    requires End(l, Peer(side)).value.core.status == Est && Drained(End(l, Peer(side)).value)
    ensures End(l, side).value.core.window == WINDOWSIZE
  {
    LinkSafety.JoinedFacts(l, side);
  }

  /** Deliver to the reader, let it read, deliver its credit. */
  lemma Drain(s: State, k: nat, side: Side) returns (steps: seq<Step>)
    requires Inv(s) && Live(View(s, k)) && End(View(s, k), side).value.pending.Some?
    requires End(View(s, k), Peer(side)).value.core.status == Est
    ensures DrainRun(s, steps, k, Peer(side)) && Inv(Exec(s, steps)) && Inbox(Exec(s, steps), side) == []
    ensures var l, l' := View(s, k), View(Exec(s, steps), k);
            && Live(l') && Outgoing(l', side) == []
            && End(l', side).value.pending == End(l, side).value.pending
            && End(l', Peer(side)).value.pending == End(l, Peer(side)).value.pending
            && End(l', Peer(side)).value.core.status == Est && Drained(End(l', Peer(side)).value)
  {
    WriterIsOpen(View(s, k), side);
    var out := DeliverAll(s, Peer(side), k);
    var s1 := Exec(s, out);
    var read := ReadAll(s1, k, Peer(side));
    var s2 := Exec(s1, read);
    ReadKeepsLive(s1, s2, k, Peer(side));
    var back := DeliverAll(s2, side, k);
    DrainRunAppend(s, out, read, k, Peer(side));
    DrainRunAppend(s, out + read, back, k, Peer(side));
    steps := out + read + back;
  }

  /** Reading leaves a stream as live as it was. */
  lemma ReadKeepsLive(s: State, s': State, k: nat, at: Side)
    requires Live(View(s, k)) && Inv(s') && ReadOn(View(s, k), View(s', k), at)
    ensures Live(View(s', k))
  {
    assert LinkInv(View(s', k));
  }

  /** A peer that has not closed is EST once all is delivered to it. */
  lemma FlushedMeansEst(l: Link, side: Side)
    requires Live(l) && Outgoing(l, side) == [] && End(l, side).value.pending.Some?
    requires !FinWasSent(End(l, Peer(side)).value.core.status)
    ensures End(l, Peer(side)).value.core.status == Est
  {
    WriterIsOpen(l, side);
    assert Opened(l);
  }

  /** From every reachable state in which stream k has a slice to send at `side` and its peer has not
      sent FIN, there is an orderly run of deliveries and of reads by that peer alone after which
      the whole window is back and the slice can be sent. */
  lemma WriterIsNeverStuck(s: State, k: nat, side: Side) returns (steps: seq<Step>)
    requires Reachable(s) && k in At(s, side).conns && k in At(s, Peer(side)).conns
    requires At(s, side).conns[k].half.pending.Some? && !FinWasSent(At(s, Peer(side)).conns[k].half.core.status)
    ensures DrainRun(s, steps, k, Peer(side)) && Ready(Exec(s, steps), Move(side, k, FinishWrite))
    ensures At(Exec(s, steps), side).conns[k].half.core.window == WINDOWSIZE
    ensures At(Exec(s, steps), side).conns[k].half.pending == At(s, side).conns[k].half.pending
  {
    ReachableInv(s);
    WriterIsOpen(View(s, k), side);
    var first := DeliverAll(s, Peer(side), k);
    var s1 := Exec(s, first);
    FlushedMeansEst(View(s1, k), side);
    var drain := Drain(s1, k, side);
    DrainRunAppend(s, first, drain, k, Peer(side));
    steps := first + drain;
    FlushedMeansWhole(View(Exec(s, steps), k), side);
    WriterIsOpen(View(Exec(s, steps), k), side);
  }

  lemma ClosedIsLive(l: Link, side: Side)
    requires LinkInv(l) && l.c.Some? && l.s.Some? && FinWasSent(End(l, side).value.core.status)
    ensures Live(l)
  {
  }

  /** Both ends have sent FIN. */
  predicate Closing(l: Link) {
    l.c.Some? && l.s.Some? && FinWasSent(l.c.value.core.status) && FinWasSent(l.s.value.core.status)
  }

  lemma ClosingStays(l: Link, l': Link, at: Side)
    requires Closing(l) && Delivered(l, l', at)
    ensures Closing(l')
  {
  }

  /** Deliver to the server, then to the client. */
  lemma DeliverBoth(s: State, k: nat) returns (steps: seq<Step>)
    requires Inv(s) && Live(View(s, k))
    ensures Orderly(s, steps) && Deliveries(steps)
    ensures Exec(s, steps).cs == [] && Exec(s, steps).sc == []
    ensures Closing(View(s, k)) ==> Closing(View(Exec(s, steps), k))
  {
    var up := DeliverAll(s, Server, k);
    var s1 := Exec(s, up);
    var down := DeliverAll(s1, Client, k);
    OrderlyAppend(s, up, down);
    DeliveriesAppend(up, down, Server, Client);
    steps := up + down;
    if Closing(View(s, k)) {
      ClosingStays(View(s, k), View(s1, k), Server);
      ClosingStays(View(s1, k), View(Exec(s1, down), k), Client);
    }
  }

  /** From every reachable state in which both ends of a stream have sent FIN there is a run of
      deliveries alone after which both are UNKNOWN and both have given up the id. */
  lemma CloseFinishes(s: State, k: nat) returns (steps: seq<Step>)
    requires Reachable(s) && Closing(View(s, k))
    ensures Orderly(s, steps) && Deliveries(steps)
    ensures var s' := Exec(s, steps);
            && k in s'.client.conns && k in s'.server.conns
            && s'.client.conns[k].half.core.status == Unknown && s'.server.conns[k].half.core.status == Unknown
            && !Mapped(s'.client, k) && !Mapped(s'.server, k)
  {
    ReachableInv(s);
    ClosedIsLive(View(s, k), Client);
    steps := DeliverBoth(s, k);
    ReachableExec(s, steps);
    CloseCompletes(Exec(s, steps), k);
  }

  /** A stream whose peer has closed, with nothing left in the wire, has its queue closed. */
  lemma FlushedMeansClosed(l: Link, side: Side)
    requires Live(l) && Incoming(l, side) == [] && FinWasSent(End(l, Peer(side)).value.core.status)
    ensures End(l, side).value.core.closed
  {
    assert Opened(l);
  }

  /** From every reachable state in which the peer has sent FIN there is a run of deliveries and of
      steps of the reader alone that brings the reader to EOF, with all that the peer wrote. */
  lemma EofIsReached(s: State, k: nat, side: Side) returns (steps: seq<Step>)
    requires Reachable(s) && k in At(s, side).conns && k in At(s, Peer(side)).conns
    requires FinWasSent(At(s, Peer(side)).conns[k].half.core.status)
    ensures DrainRun(s, steps, k, side) && Ready(Exec(s, steps), Move(side, k, ReadEof))
    ensures At(Exec(s, steps), side).conns[k].half.taken == At(s, Peer(side)).conns[k].half.written
  {
    ReachableInv(s);
    ClosedIsLive(View(s, k), Peer(side));
    var down := DeliverAll(s, side, k);
    var s1 := Exec(s, down);
    FlushedMeansClosed(View(s1, k), side);
    var read := ReadToEof(s1, k, side);
    DrainRunAppend(s, down, read, k, side);
    steps := down + read;
    ReachableExec(s, steps);
    EofIsComplete(Exec(s, steps), k, side);
  }
}
