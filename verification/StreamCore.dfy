/**
 What one `Conn` of the tunnel does to itself in each of its operations, as
 functions on the fields that tunnel/conn.go updates. The concurrent system
 (modules Link and Tunnel) and the classes (module TunnelObjects) both use them.
 */
module StreamCore {
  import opened Prelude

  const WINDOWSIZE: int := 4 * 1024 * 1024
  const BUFFERSIZE: int := 8 * 1024
  const ERR_NONE: nat := 0
  const ERR_IDEXIST: nat := 2
  const ERR_CONNFAILED: nat := 3
  const ERR_UNKNOWN_PROTOCOL: nat := 6

  datatype Status = Unknown | SynRecv | SynSent | Est | FinRecv | FinSent

  /** A frame with its payload already decoded; the stream id travels beside it. */
  datatype Frame =
    | Result(errno: nat)
    | Data(bytes: Bytes)
    | Syn(network: string)
    | Wnd(credit: nat)
    | Fin
    | Rst

  /** The fields of a Conn: `timer` says that t_closing is set, `rest` is r_rest,
      `queue` and `closed` are the contents of rqueue. */
  datatype Core = Core(
    status: Status, timer: bool,
    rest: Option<Bytes>, queue: seq<Bytes>, closed: bool,
    window: int)

  /** What an operation does: the new fields, whether the stream's id stays in
      the fabric's map, the frames it sends, and whether it returns a nil error. */
  datatype Effect = Effect(core: Core, keep: bool, out: seq<Frame>, ok: bool)

  function NewCore(status: Status): Core {
    Core(status, false, None, [], false, WINDOWSIZE)
  }

  const WORD: int := 0x1_0000_0000

  /** Conversion to a signed 32-bit integer, which wraps around. */
  function Int32(x: int): (r: int)
    ensures -0x8000_0000 <= r < 0x8000_0000
    ensures -0x8000_0000 <= x < 0x8000_0000 ==> r == x
  {
    x - WORD * ((x + 0x8000_0000) / WORD)
  }

  /** Conversion to an unsigned 32-bit integer. */
  function Uint32(x: int): (r: nat)
    ensures r == x % WORD
  {
    if 0 <= x < 0x1_0000_0000 then x else x % 0x1_0000_0000
  }

  /** The bytes delivered to this end that no Read has returned yet. */
  function Unread(c: Core): Bytes {
    (if c.rest.Some? then c.rest.value else []) + Join(c.queue)
  }

  predicate Available(c: Core) {
    c.rest.Some? || c.queue != []
  }

  predicate FinWasSent(st: Status) {
    st == FinSent || st == Unknown
  }

  predicate FinWasReceived(st: Status) {
    st == FinRecv || st == Unknown
  }

  function Connect(c: Core, network: string): Effect {
    if c.status == Unknown then Effect(c.(status := SynSent), true, [Syn(network)], true)
    else Effect(c, true, [], false)
  }

  function Accept(c: Core): Effect {
    if c.status == SynRecv then Effect(c.(status := Est), true, [Result(ERR_NONE)], true)
    else Effect(c, true, [], false)
  }

  function Deny(c: Core): Effect {
    Effect(c, false, [Result(ERR_CONNFAILED)], true)
  }

  /** The part of writeSlice after the wait for the window. */
  function SendChunk(c: Core, chunk: Bytes): Effect {
    Effect(c.(window := Int32(c.window - |chunk|)), true, [Data(chunk)], true)
  }

  function CloseWrite(c: Core): Effect {
    match c.status
    case Est => Effect(c.(status := FinSent, timer := true), true, [Fin], true)
    case FinRecv => Effect(c.(status := Unknown, timer := false), false, [Fin], true)
    case Unknown => Effect(c, true, [], true)
    case _ => Effect(c, true, [], false)
  }

  function CloseRead(c: Core): Effect {
    match c.status
    case Est => Effect(c.(status := FinRecv, timer := true, closed := true), true, [], true)
    case FinSent => Effect(c.(status := Unknown, timer := false, closed := true), false, [], true)
    case Unknown => Effect(c, true, [], true)
    case _ => Effect(c, true, [], false)
  }

  function Reset(c: Core): Effect {
    Effect(c.(status := Unknown, closed := true), false, [], true)
  }

  /** One round of the copy loop in Read, for a buffer with `space` bytes left:
      refill `rest` from the queue if it is empty, then copy what fits. */
  function CopyOnce(c: Core, space: nat): (r: (Core, Bytes))
    requires Available(c)
    ensures r.1 + Unread(r.0) == Unread(c)
    ensures |r.1| <= space
    ensures r.0.(rest := c.rest, queue := c.queue) == c
  {
    var full := if c.rest.Some? then c else c.(rest := Some(c.queue[0]), queue := c.queue[1..]);
    var size := if space < |full.rest.value| then space else |full.rest.value|;
    var left := if |full.rest.value| > size then Some(full.rest.value[size..]) else None;
    assert full.rest.value[..size] + full.rest.value[size..] == full.rest.value;
    (full.(rest := left), full.rest.value[..size])
  }

  /** The end of Read: credit the n bytes taken, unless this end has closed. */
  function CreditRead(c: Core, n: nat): Effect {
    if c.status == FinSent || c.status == Unknown then Effect(c, true, [], true)
    else Effect(c, true, [Wnd(Uint32(n))], true)
  }

  /** Conn.SendFrame: a frame arrives for this stream. A successful RESULT and the
      move to EST that Connect makes on it are one step. */
  function OnFrame(c: Core, f: Frame): Effect {
    match f
    case Syn(_) => Reset(c).(ok := false)
    case Result(errno) =>
      if c.status != SynSent then Effect(c, true, [], false)
      else if errno == ERR_NONE then Effect(c.(status := Est), true, [], true)
      else Effect(c, false, [], true)
    case Data(b) => Effect(if c.closed then c else c.(queue := c.queue + [b]), true, [], true)
    case Wnd(w) => Effect(c.(window := Int32(c.window + Int32(w))), true, [], true)
    case Fin => CloseRead(c).(ok := true)
    case Rst => Reset(c)
  }
}
