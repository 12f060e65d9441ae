/**
 One stream alone: a client half and a server half joined by two private FIFO
 wires. It is the simple system that module TunnelSafety proves the shared
 tunnel to refine, stream by stream. Everything that can happen to a stream
 in an orderly run is a step here, and `LinkInv` holds in every reachable state.
 */
module Link {
  import opened Prelude
  import opened StreamCore

  // ---------- one end ----------

  /** Where the goroutine reading this end is: outside Read, in its copy loop with
      `space` bytes of buffer left and n copied, or past the loop with n bytes to credit. */
  datatype Reader = Idle | Reading(space: nat, n: nat) | Crediting(n: nat)

  /** A Conn with the program points of its one reader and its one writer.
      `pending` is the slice that writeSlice has accepted and not sent yet.
      `written` and `taken` record all bytes sent and all bytes Read has returned. */
  datatype Half = Half(core: Core, reader: Reader, pending: Option<Bytes>, written: Bytes, taken: Bytes)

  datatype HalfEffect = HalfEffect(half: Half, keep: bool, out: seq<Frame>, ok: bool)

  datatype Act =
    | DoConnect(network: string)
    | DoAccept
    | DoDeny
    | BeginWrite(chunk: Bytes)
    | FinishWrite
    | DoClose
    | ReadCall(space: nat)
    | ReadCopy
    | ReadStop
    | ReadEof
    | ReadCredit

  function NewHalf(status: Status): Half {
    Half(NewCore(status), Idle, None, [], [])
  }

  function Lift(h: Half, e: Effect): HalfEffect {
    HalfEffect(h.(core := e.core), e.keep, e.out, e.ok)
  }

  /** When an end may take a step; `on` says that its id is in the fabric's map.
      A writer short of window, and a reader of an empty open queue, are disabled. */
  predicate Can(h: Half, on: bool, a: Act) {
    match a
    case DoConnect(_) => on && h.core.status == Unknown
    case DoAccept => on && h.core.status == SynRecv
    case DoDeny => on && h.core.status == SynRecv
    case BeginWrite(chunk) => h.core.status == Est && h.pending.None? && |chunk| <= BUFFERSIZE
    case FinishWrite => h.pending.Some? && h.core.window - |h.pending.value| >= 0
    case DoClose => h.pending.None?
    case ReadCall(space) => h.reader.Idle? && space > 0
    case ReadCopy => h.reader.Reading? && h.reader.space > 0 && Available(h.core)
    case ReadStop => h.reader.Reading? &&
      (h.reader.space == 0 || (h.reader.n > 0 && !Available(h.core) && !h.core.closed))
    case ReadEof => h.reader.Reading? && h.reader.space > 0 && !Available(h.core) && h.core.closed
    case ReadCredit => h.reader.Crediting?
  }

  function Do(h: Half, on: bool, a: Act): HalfEffect
    requires Can(h, on, a)
  {
    match a
    case DoConnect(network) => Lift(h, Connect(h.core, network))
    case DoAccept => Lift(h, Accept(h.core))
    case DoDeny => Lift(h, Deny(h.core))
    case BeginWrite(chunk) => HalfEffect(h.(pending := Some(chunk)), true, [], true)
    case FinishWrite =>
      var sent := h.(pending := None, written := h.written + h.pending.value);
      Lift(sent, SendChunk(h.core, h.pending.value))
    case DoClose => Lift(h, CloseWrite(h.core))
    case ReadCall(space) => HalfEffect(h.(reader := Reading(space, 0)), true, [], true)
    case ReadCopy =>
      var (core, got) := CopyOnce(h.core, h.reader.space);
      HalfEffect(h.(core := core, taken := h.taken + got,
                    reader := Reading(h.reader.space - |got|, h.reader.n + |got|)), true, [], true)
    case ReadStop => HalfEffect(h.(reader := Crediting(h.reader.n)), true, [], true)
    case ReadEof => HalfEffect(h.(reader := Idle), true, [], true)
    case ReadCredit => Lift(h.(reader := Idle), CreditRead(h.core, h.reader.n))
  }

  function Receive(h: Half, f: Frame): HalfEffect {
    Lift(h, OnFrame(h.core, f))
  }

  // ---------- the link ----------

  datatype Side = Client | Server

  /** Two ends, two wires, and for each end whether its id is mapped. */
  datatype Link = Link(
    c: Option<Half>, s: Option<Half>,
    cs: seq<Frame>, sc: seq<Frame>,
    cOn: bool, sOn: bool)

  const NO_LINK := Link(None, None, [], [], false, false)

  datatype LinkStep = Dial | Local(side: Side, act: Act) | Deliver(side: Side)

  function End(l: Link, side: Side): Option<Half> { if side.Client? then l.c else l.s }
  function On(l: Link, side: Side): bool { if side.Client? then l.cOn else l.sOn }
  function Incoming(l: Link, side: Side): seq<Frame> { if side.Client? then l.sc else l.cs }
  function Outgoing(l: Link, side: Side): seq<Frame> { if side.Client? then l.cs else l.sc }
  function Peer(side: Side): Side { if side.Client? then Server else Client }

  /** The link after `side` has moved to h, received `used` frames and sent `out`. */
  function Put(l: Link, side: Side, h: Half, on: bool, used: nat, out: seq<Frame>): Link
    requires used <= |Incoming(l, side)|
  {
    if side.Client? then l.(c := Some(h), cOn := on, sc := l.sc[used..], cs := l.cs + out)
    else l.(s := Some(h), sOn := on, cs := l.cs[used..], sc := l.sc + out)
  }

  predicate Enabled(l: Link, step: LinkStep) {
    match step
    case Dial => l == NO_LINK
    case Local(side, a) => End(l, side).Some? && Can(End(l, side).value, On(l, side), a)
    case Deliver(side) => Incoming(l, side) != [] && (On(l, side) ==> End(l, side).Some?)
  }

  /** The next state, and whether the receiving loop goes on. An unmapped frame
      goes to the default fiber: the client logs it, the server takes a SYN
      and fails on anything else. */
  function Next(handlers: set<string>, l: Link, step: LinkStep): (r: (Link, bool))
    requires Enabled(l, step)
  {
    match step
    case Dial => (l.(c := Some(NewHalf(Unknown)), cOn := true), true)
    case Local(side, a) =>
      var e := Do(End(l, side).value, On(l, side), a);
      (Put(l, side, e.half, On(l, side) && e.keep, 0, e.out), true)
    case Deliver(side) =>
      var f := Incoming(l, side)[0];
      if On(l, side) then
        var e := Receive(End(l, side).value, f);
        (Put(l, side, e.half, e.keep, 1, e.out), e.ok)
      else if side.Client? then
        (l.(sc := l.sc[1..]), true)
      else if f.Syn? then
        if f.network in handlers then (Put(l, side, NewHalf(SynRecv), true, 1, []), true)
        else (l.(cs := l.cs[1..], sc := l.sc + [Result(ERR_UNKNOWN_PROTOCOL)]), true)
      else (l.(cs := l.cs[1..]), false)
  }

  // ---------- what is in a wire ----------

  function DataOf(w: seq<Frame>): Bytes {
    if w == [] then [] else (if w[0].Data? then w[0].bytes else []) + DataOf(w[1..])
  }

  function CreditOf(w: seq<Frame>): nat {
    if w == [] then 0 else (if w[0].Wnd? then w[0].credit else 0) + CreditOf(w[1..])
  }

  lemma {:induction false} DataOfAppend(a: seq<Frame>, b: seq<Frame>)
    ensures DataOf(a + b) == DataOf(a) + DataOf(b)
  {
    if a == [] {
      assert a + b == b;
    } else {
      assert (a + b)[1..] == a[1..] + b;
      DataOfAppend(a[1..], b);
    }
  }

  lemma {:induction false} CreditOfAppend(a: seq<Frame>, b: seq<Frame>)
    ensures CreditOf(a + b) == CreditOf(a) + CreditOf(b)
  {
    if a == [] {
      assert a + b == b;
    } else {
      assert (a + b)[1..] == a[1..] + b;
      CreditOfAppend(a[1..], b);
    }
  }

  lemma SentOne(w: seq<Frame>, f: Frame)
    ensures DataOf(w + [f]) == DataOf(w) + (if f.Data? then f.bytes else [])
    ensures CreditOf(w + [f]) == CreditOf(w) + (if f.Wnd? then f.credit else 0)
  {
    DataOfAppend(w, [f]);
    CreditOfAppend(w, [f]);
    assert [f][1..] == [];
  }

  // ---------- the invariant of an open link ----------

  function Uncredited(h: Half): nat {
    match h.reader
    case Idle => 0
    case Reading(_, n) => n
    case Crediting(n) => n
  }

  /** All window credit of the direction x to y, wherever it is. */
  function CreditSum(x: Half, y: Half, xy: seq<Frame>, yx: seq<Frame>): int {
    x.core.window + |DataOf(xy)| + |Unread(y.core)| + Uncredited(y) + CreditOf(yx)
  }

  predicate Body(w: seq<Frame>) {
    forall i :: 0 <= i < |w| ==> w[i].Data? || w[i].Wnd?
  }

  /** The wire from an end in status xs to an end in status ys carries DATA and WND,
      then the FIN exactly while it is sent and not received. */
  predicate FinDiscipline(xs: Status, ys: Status, xy: seq<Frame>) {
    if !FinWasSent(xs) then Body(xy) && !FinWasReceived(ys)
    else if FinWasReceived(ys) then xy == []
    else xy != [] && xy[|xy| - 1].Fin? && Body(xy[..|xy| - 1])
  }

  /** The direction from x to y: order of frames, integrity of bytes, credit. */
  predicate Way(x: Half, y: Half, xy: seq<Frame>, yx: seq<Frame>) {
    && FinDiscipline(x.core.status, y.core.status, xy)
    && x.written == y.taken + Unread(y.core) + DataOf(xy)
    && 0 <= x.core.window
    && CreditSum(x, y, xy, yx) <= WINDOWSIZE
    && (y.core.status == Est ==> CreditSum(x, y, xy, yx) == WINDOWSIZE)
  }

  /** One end of an open link. */
  predicate Tidy(h: Half, on: bool) {
    && h.core.status in {Est, FinRecv, FinSent, Unknown}
    && (on <==> h.core.status != Unknown)
    && (h.core.closed <==> FinWasReceived(h.core.status))
    && (h.core.timer <==> h.core.status in {FinRecv, FinSent})
    && (h.pending.Some? ==> h.core.status in {Est, FinRecv} && |h.pending.value| <= BUFFERSIZE)
  }

  predicate Open(x: Half, xOn: bool, y: Half, yOn: bool, xy: seq<Frame>, yx: seq<Frame>) {
    && Tidy(x, xOn) && Tidy(y, yOn)
    && Way(x, y, xy, yx) && Way(y, x, yx, xy)
  }

  // ---------- the invariant through the whole life ----------

  /** An end in status `status` that no byte has touched. Its reader may already be waiting. */
  predicate Fresh(h: Half, status: Status) {
    && h.core == NewCore(status)
    && h.pending.None? && h.written == [] && h.taken == []
    && (h.reader.Idle? || (h.reader.Reading? && h.reader.space > 0 && h.reader.n == 0))
  }

  predicate Allocated(l: Link) {
    l.c.Some? && Fresh(l.c.value, Unknown) && l.cOn && l.s.None? && !l.sOn && l.cs == [] && l.sc == []
  }

  predicate Dialing(l: Link) {
    && l.c.Some? && Fresh(l.c.value, SynSent) && l.cOn && l.s.None? && !l.sOn
    && |l.cs| == 1 && l.cs[0].Syn? && l.sc == []
  }

  predicate Answering(l: Link) {
    && l.c.Some? && Fresh(l.c.value, SynSent) && l.cOn
    && l.s.Some? && Fresh(l.s.value, SynRecv) && l.sOn && l.cs == [] && l.sc == []
  }

  predicate Refused(l: Link) {
    && l.c.Some? && Fresh(l.c.value, SynSent) && !l.sOn
    && (l.s.Some? ==> Fresh(l.s.value, SynRecv)) && l.cs == []
    && if l.cOn then |l.sc| == 1 && l.sc[0].Result? && l.sc[0].errno != ERR_NONE else l.sc == []
  }

  /** The server has accepted and the client has not read the RESULT: an open
      link, but for the status of the client and that first frame. */
  predicate Accepted(l: Link) {
    && l.c.Some? && Fresh(l.c.value, SynSent) && l.cOn && l.s.Some?
    && l.cs == [] && l.sc != [] && l.sc[0] == Result(ERR_NONE)
    && var c := l.c.value;
       Open(c.(core := c.core.(status := Est)), true, l.s.value, l.sOn, [], l.sc[1..])
  }

  predicate Opened(l: Link) {
    l.c.Some? && l.s.Some? && Open(l.c.value, l.cOn, l.s.value, l.sOn, l.cs, l.sc)
  }

  predicate LinkInv(l: Link) {
    l == NO_LINK || Allocated(l) || Dialing(l) || Answering(l) || Refused(l) || Accepted(l) || Opened(l)
  }

  // ---------- steps of an open link ----------

  lemma OpenSymmetric(x: Half, xOn: bool, y: Half, yOn: bool, xy: seq<Frame>, yx: seq<Frame>)
    requires Open(x, xOn, y, yOn, xy, yx)
    ensures Open(y, yOn, x, xOn, yx, xy)
  {
  }

  /** A slice goes into the wire: its bytes are written, and its credit is in the wire. */
  lemma WriteOut(x: Half, y: Half, xy: seq<Frame>, yx: seq<Frame>)
    requires Way(x, y, xy, yx) && Can(x, true, FinishWrite) && !FinWasSent(x.core.status)
    ensures Way(Do(x, true, FinishWrite).half, y, xy + [Data(x.pending.value)], yx)
  {
    SentOne(xy, Data(x.pending.value));
    assert x.written + x.pending.value == y.taken + Unread(y.core) + (DataOf(xy) + x.pending.value);
  }

  lemma WriteBack(x: Half, y: Half, xy: seq<Frame>, yx: seq<Frame>)
    requires Way(y, x, yx, xy) && Can(x, true, FinishWrite)
    ensures Way(y, Do(x, true, FinishWrite).half, yx, xy + [Data(x.pending.value)])
  {
    SentOne(xy, Data(x.pending.value));
  }

  lemma OpenWrite(x: Half, xOn: bool, y: Half, yOn: bool, xy: seq<Frame>, yx: seq<Frame>)
    requires Open(x, xOn, y, yOn, xy, yx) && Can(x, xOn, FinishWrite)
    ensures Open(Do(x, xOn, FinishWrite).half, xOn, y, yOn, xy + Do(x, xOn, FinishWrite).out, yx)
  {
    WriteOut(x, y, xy, yx);
    WriteBack(x, y, xy, yx);
  }

  /** FIN goes behind all that is in the wire. */
  lemma CloseOut(x: Half, y: Half, xy: seq<Frame>, yx: seq<Frame>)
    requires Way(x, y, xy, yx) && x.core.status in {Est, FinRecv}
    ensures Way(x.(core := CloseWrite(x.core).core), y, xy + [Fin], yx)
  {
    SentOne(xy, Fin);
    assert (xy + [Fin])[..|xy|] == xy;
  }

  lemma CloseBack(x: Half, y: Half, xy: seq<Frame>, yx: seq<Frame>)
    requires Way(y, x, yx, xy) && x.core.status in {Est, FinRecv}
    ensures Way(y, x.(core := CloseWrite(x.core).core), yx, xy + [Fin])
  {
    SentOne(xy, Fin);
  }

  lemma OpenClose(x: Half, xOn: bool, y: Half, yOn: bool, xy: seq<Frame>, yx: seq<Frame>)
    requires Open(x, xOn, y, yOn, xy, yx) && Can(x, xOn, DoClose)
    ensures var e := Do(x, xOn, DoClose);
            Open(e.half, xOn && e.keep, y, yOn, xy + e.out, yx)
  {
    if x.core.status in {Est, FinRecv} {
      CloseOut(x, y, xy, yx);
      CloseBack(x, y, xy, yx);
    } else {
      assert Do(x, xOn, DoClose).half == x;
      assert xy + [] == xy;
    }
  }

  lemma OpenCopy(x: Half, xOn: bool, y: Half, yOn: bool, xy: seq<Frame>, yx: seq<Frame>)
    requires Open(x, xOn, y, yOn, xy, yx) && Can(x, xOn, ReadCopy)
    ensures Open(Do(x, xOn, ReadCopy).half, xOn, y, yOn, xy, yx)
  {
    var (core, got) := CopyOnce(x.core, x.reader.space);
    assert |got| + |Unread(core)| == |Unread(x.core)|;
    assert y.written == (x.taken + got) + Unread(core) + DataOf(yx);
  }

  lemma OpenCredit(x: Half, xOn: bool, y: Half, yOn: bool, xy: seq<Frame>, yx: seq<Frame>)
    requires Open(x, xOn, y, yOn, xy, yx) && Can(x, xOn, ReadCredit)
    ensures var e := Do(x, xOn, ReadCredit);
            e.keep && Open(e.half, xOn, y, yOn, xy + e.out, yx)
  {
    var e := Do(x, xOn, ReadCredit);
    if e.out == [] {
      assert xy + e.out == xy;
    } else {
      SentOne(xy, Wnd(x.reader.n));
    }
  }

  /** A step that moves only the program points of the reader and the writer. */
  lemma OpenPoint(x: Half, xOn: bool, y: Half, yOn: bool, xy: seq<Frame>, yx: seq<Frame>, a: Act)
    requires Open(x, xOn, y, yOn, xy, yx) && Can(x, xOn, a)
    requires a.BeginWrite? || a.ReadCall? || a.ReadStop? || a.ReadEof?
    ensures var e := Do(x, xOn, a);
            e.keep && e.out == [] && Open(e.half, xOn, y, yOn, xy, yx)
  {
    var h := Do(x, xOn, a).half;
    assert h.core == x.core && h.written == x.written && h.taken == x.taken;
    assert Uncredited(h) == Uncredited(x) || (a.ReadEof? && Uncredited(h) == 0);
  }

  /** Every step of an end of an open link keeps it open. */
  lemma OpenAct(x: Half, xOn: bool, y: Half, yOn: bool, xy: seq<Frame>, yx: seq<Frame>, a: Act)
    requires Open(x, xOn, y, yOn, xy, yx) && Can(x, xOn, a)
    ensures var e := Do(x, xOn, a);
            Open(e.half, xOn && e.keep, y, yOn, xy + e.out, yx)
  {
    assert xy + [] == xy;
    match a {
      case FinishWrite => OpenWrite(x, xOn, y, yOn, xy, yx);
      case DoClose => OpenClose(x, xOn, y, yOn, xy, yx);
      case ReadCopy => OpenCopy(x, xOn, y, yOn, xy, yx);
      case ReadCredit => OpenCredit(x, xOn, y, yOn, xy, yx);
      case BeginWrite(_) => OpenPoint(x, xOn, y, yOn, xy, yx, a);
      case ReadCall(_) => OpenPoint(x, xOn, y, yOn, xy, yx, a);
      case ReadStop => OpenPoint(x, xOn, y, yOn, xy, yx, a);
      case ReadEof => OpenPoint(x, xOn, y, yOn, xy, yx, a);
      case _ =>
    }
  }

  /** An end of an open link loses its id only if it had it, and sends only while both ends
      have it and its FIN is not sent. */
  lemma OpenActSends(x: Half, xOn: bool, y: Half, yOn: bool, xy: seq<Frame>, yx: seq<Frame>, a: Act)
    requires Open(x, xOn, y, yOn, xy, yx) && Can(x, xOn, a)
    ensures var e := Do(x, xOn, a);
            && (!e.keep ==> xOn)
            && (e.out != [] ==> xOn && yOn && !FinWasSent(x.core.status) && |e.out| == 1 && !e.out[0].Syn?)
  {
  }

  lemma UnreadPush(c: Core, b: Bytes)
    ensures Unread(c.(queue := c.queue + [b])) == Unread(c) + b
  {
    JoinSnoc(c.queue, b);
  }

  /** The first frame of a disciplined wire, and what remains behind it. */
  lemma DisciplineHead(xs: Status, ys: Status, w: seq<Frame>)
    requires FinDiscipline(xs, ys, w) && w != []
    ensures !FinWasReceived(ys)
    ensures w[0].Data? || w[0].Wnd? || w[0].Fin?
    ensures if w[0].Fin? then FinWasSent(xs) && |w| == 1 else FinDiscipline(xs, ys, w[1..])
  {
    if |w| > 1 {
      assert w[1..][|w| - 2] == w[|w| - 1];
      assert w[1..][..|w| - 2] == w[..|w| - 1][1..];
    }
  }

  /** The next chunk moves from the wire to the receiver's queue. */
  lemma ReceiveDataIn(x: Half, y: Half, xy: seq<Frame>, yx: seq<Frame>)
    requires Way(y, x, yx, xy) && yx != [] && yx[0].Data? && !x.core.closed
    ensures Way(y, Receive(x, yx[0]).half, yx[1..], xy)
  {
    DisciplineHead(y.core.status, x.core.status, yx);
    UnreadPush(x.core, yx[0].bytes);
    assert y.written == x.taken + (Unread(x.core) + yx[0].bytes) + DataOf(yx[1..]);
  }

  lemma OpenReceiveData(x: Half, xOn: bool, y: Half, yOn: bool, xy: seq<Frame>, yx: seq<Frame>)
    requires Open(x, xOn, y, yOn, xy, yx) && yx != [] && yx[0].Data?
    ensures Open(Receive(x, yx[0]).half, xOn, y, yOn, xy, yx[1..])
  {
    DisciplineHead(y.core.status, x.core.status, yx);
    ReceiveDataIn(x, y, xy, yx);
    assert CreditOf(yx) == CreditOf(yx[1..]);
  }

  /** The next credit moves from the wire to the sender's window. */
  lemma ReceiveWndOut(x: Half, y: Half, xy: seq<Frame>, yx: seq<Frame>)
    requires Way(x, y, xy, yx) && yx != [] && yx[0].Wnd?
    ensures Way(Receive(x, yx[0]).half, y, xy, yx[1..])
  {
    var w := yx[0].credit;
    assert CreditOf(yx) == w + CreditOf(yx[1..]);
    assert Int32(x.core.window + Int32(w)) == x.core.window + w;
  }

  lemma OpenReceiveWnd(x: Half, xOn: bool, y: Half, yOn: bool, xy: seq<Frame>, yx: seq<Frame>)
    requires Open(x, xOn, y, yOn, xy, yx) && yx != [] && yx[0].Wnd?
    ensures Open(Receive(x, yx[0]).half, xOn, y, yOn, xy, yx[1..])
  {
    DisciplineHead(y.core.status, x.core.status, yx);
    ReceiveWndOut(x, y, xy, yx);
    assert DataOf(yx) == [] + DataOf(yx[1..]) == DataOf(yx[1..]);
  }

  lemma OpenReceiveFin(x: Half, xOn: bool, y: Half, yOn: bool, xy: seq<Frame>, yx: seq<Frame>)
    requires Open(x, xOn, y, yOn, xy, yx) && yx != [] && yx[0].Fin?
    ensures var e := Receive(x, yx[0]);
            e.ok && Open(e.half, e.keep, y, yOn, xy, yx[1..])
  {
    DisciplineHead(y.core.status, x.core.status, yx);
    assert DataOf(yx) == [] && DataOf(yx[1..]) == [];
    assert CreditOf(yx) == 0 && CreditOf(yx[1..]) == 0;
  }

  /** A frame that arrives at an open end finds its id mapped and is taken without error. */
  lemma OpenReceive(x: Half, xOn: bool, y: Half, yOn: bool, xy: seq<Frame>, yx: seq<Frame>)
    requires Open(x, xOn, y, yOn, xy, yx) && yx != []
    ensures xOn && !yx[0].Syn?
    ensures var e := Receive(x, yx[0]);
            e.ok && e.out == [] && Open(e.half, e.keep, y, yOn, xy, yx[1..])
  {
    DisciplineHead(y.core.status, x.core.status, yx);
    if yx[0].Data? {
      OpenReceiveData(x, xOn, y, yOn, xy, yx);
    } else if yx[0].Wnd? {
      OpenReceiveWnd(x, xOn, y, yOn, xy, yx);
    } else {
      OpenReceiveFin(x, xOn, y, yOn, xy, yx);
    }
  }
}
