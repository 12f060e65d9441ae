/**
 * The encrypted connection of `cryptconn`: both ends exchange random vectors, xor them into
 * one initialisation vector and run a cipher-feedback stream in each direction. The block
 * cipher is an uninterpreted function on blocks. `Cfb` and `Step` follow the stream object of
 * Go's `crypto/cipher`, which keeps a partly used block between calls.
 */
module CryptConn {
  import opened Prelude

  type Data = Octets

  /** A block cipher in its forward direction: `n` is the block size. */
  datatype Cipher = Cipher(n: nat, E: Data -> Data) {
    ghost predicate Valid() {
      n > 0 && forall x :: |x| == n ==> |E(x)| == n
    }
  }

  /** A feedback register being filled, the key block in use, and how much of it is used. */
  datatype Cfb = Cfb(next: Data, out: Data, used: nat) {
    predicate Fits(n: nat) {
      |next| == n && |out| == n && used <= n
    }
  }

  function Xor(a: Data, b: Data): (r: Data)
    requires |a| <= |b|
  {
    seq(|a|, i requires 0 <= i < |a| => a[i] ^ b[i])
  }

  function Start(c: Cipher, iv: Data): Cfb {
    Cfb(iv, iv, c.n)
  }

  function Refresh(c: Cipher, s: Cfb): Cfb {
    if s.used == c.n then Cfb(s.next, c.E(s.next), 0) else s
  }

  /** One byte through the stream: the ciphertext byte is the one fed back. */
  function Step(c: Cipher, s: Cfb, decrypt: bool, x: bv8): (r: (Cfb, bv8))
    requires c.Valid() && s.Fits(c.n)
    ensures r.0.Fits(c.n)
  {
    var t := Refresh(c, s);
    var y := x ^ t.out[t.used];
    (t.(next := t.next[t.used := if decrypt then x else y], used := t.used + 1), y)
  }

  function Feed(c: Cipher, s: Cfb, decrypt: bool, src: Data): (r: (Cfb, Data))
    requires c.Valid() && s.Fits(c.n)
    ensures r.0.Fits(c.n) && |r.1| == |src|
    decreases |src|
  {
    if src == [] then (s, []) else
    var first := Step(c, s, decrypt, src[0]);
    var rest := Feed(c, first.0, decrypt, src[1..]);
    (rest.0, [first.1] + rest.1)
  }

  /** The stream does not notice where a buffer ends. */
  lemma {:induction false} FeedAppend(c: Cipher, s: Cfb, decrypt: bool, a: Data, b: Data)
    requires c.Valid() && s.Fits(c.n)
    ensures var m := Feed(c, s, decrypt, a);
            var r := Feed(c, m.0, decrypt, b);
            Feed(c, s, decrypt, a + b).0 == r.0 && Feed(c, s, decrypt, a + b).1 == m.1 + r.1
    decreases |a|
  {
    if a == [] {
      assert a + b == b;
    } else {
      var first := Step(c, s, decrypt, a[0]);
      assert (a + b)[1..] == a[1..] + b;
      FeedAppend(c, first.0, decrypt, a[1..], b);
    }
  }

  lemma FeedOne(c: Cipher, s: Cfb, decrypt: bool, x: bv8)
    requires c.Valid() && s.Fits(c.n)
    ensures Feed(c, s, decrypt, [x]).0 == Step(c, s, decrypt, x).0
    ensures Feed(c, s, decrypt, [x]).1 == [Step(c, s, decrypt, x).1]
  {
    assert [x][1..] == [];
  }

  /** One byte more. */
  lemma FeedNext(c: Cipher, s: Cfb, decrypt: bool, src: Data, i: nat)
    requires c.Valid() && s.Fits(c.n) && i < |src|
    ensures var m := Feed(c, s, decrypt, src[..i]);
            var r := Step(c, m.0, decrypt, src[i]);
            Feed(c, s, decrypt, src[..i + 1]).0 == r.0 && Feed(c, s, decrypt, src[..i + 1]).1 == m.1 + [r.1]
  {
    assert src[..i + 1] == src[..i] + [src[i]];
    FeedAppend(c, s, decrypt, src[..i], [src[i]]);
    FeedOne(c, Feed(c, s, decrypt, src[..i]).0, decrypt, src[i]);
  }

  lemma XorTwice(x: bv8, k: bv8)
    ensures x ^ k ^ k == x
  {
  }

  /** The decrypting stream undoes the encrypting one and ends in the same state. */
  lemma {:induction false} FeedInverse(c: Cipher, s: Cfb, p: Data)
    requires c.Valid() && s.Fits(c.n)
    ensures var e := Feed(c, s, false, p); Feed(c, s, true, e.1).0 == e.0 && Feed(c, s, true, e.1).1 == p
    decreases |p|
  {
    if p != [] {
      var first := Step(c, s, false, p[0]);
      var t := Refresh(c, s);
      XorTwice(p[0], t.out[t.used]);
      assert Step(c, s, true, first.1).0 == first.0 && Step(c, s, true, first.1).1 == p[0];
      FeedInverse(c, first.0, p[1..]);
      var e := Feed(c, s, false, p).1;
      assert e[1..] == Feed(c, first.0, false, p[1..]).1;
    }
  }

  // ----- the mode of operation, block by block: section 6.3 of NIST SP 800-38A -----

  /** Full-block cipher feedback; the last block may be short. */
  function Encrypt(c: Cipher, iv: Data, p: Data): (r: Data)
    requires c.Valid() && |iv| == c.n
    decreases |p|
  {
    if |p| <= c.n then Xor(p, c.E(iv)) else
    var block := Xor(p[..c.n], c.E(iv));
    block + Encrypt(c, block, p[c.n..])
  }

  function Decrypt(c: Cipher, iv: Data, q: Data): (r: Data)
    requires c.Valid() && |iv| == c.n
    decreases |q|
  {
    if |q| <= c.n then Xor(q, c.E(iv)) else
    Xor(q[..c.n], c.E(iv)) + Decrypt(c, q[..c.n], q[c.n..])
  }

  /** Within one key block the stream is a plain xor. */
  lemma {:induction false} WithinBlock(c: Cipher, s: Cfb, decrypt: bool, src: Data)
    requires c.Valid() && s.Fits(c.n) && s.used + |src| <= c.n
    ensures Feed(c, s, decrypt, src).1 == Xor(src, s.out[s.used..])
    decreases |src|
  {
    if src != [] && s.used < c.n {
      var first := Step(c, s, decrypt, src[0]);
      WithinBlock(c, first.0, decrypt, src[1..]);
      assert Xor(src, s.out[s.used..]) == [first.1] + Xor(src[1..], s.out[s.used + 1..]);
    }
  }

  /** Within one key block the register keeps what it has collected. */
  lemma {:induction false} Keeps(c: Cipher, s: Cfb, decrypt: bool, src: Data)
    requires c.Valid() && s.Fits(c.n) && s.used + |src| <= c.n
    ensures var r := Feed(c, s, decrypt, src).0;
            r.used == s.used + |src| && forall i :: 0 <= i < s.used ==> r.next[i] == s.next[i]
    decreases |src|
  {
    if src != [] {
      Keeps(c, Step(c, s, decrypt, src[0]).0, decrypt, src[1..]);
    }
  }

  /** And it collects the ciphertext, whichever side that is on. */
  lemma {:induction false} Collects(c: Cipher, s: Cfb, decrypt: bool, src: Data, i: nat)
    requires c.Valid() && s.Fits(c.n) && s.used + |src| <= c.n && i < |src|
    ensures var r := Feed(c, s, decrypt, src);
            r.0.next[s.used + i] == if decrypt then src[i] else r.1[i]
    decreases |src|
  {
    var first := Step(c, s, decrypt, src[0]);
    if i == 0 {
      Keeps(c, first.0, decrypt, src[1..]);
    } else {
      Collects(c, first.0, decrypt, src[1..], i - 1);
    }
  }

  lemma RefreshIsSilent(c: Cipher, s: Cfb, decrypt: bool, src: Data)
    requires c.Valid() && s.Fits(c.n) && src != []
    ensures Feed(c, s, decrypt, src) == Feed(c, Refresh(c, s), decrypt, src)
  {
    assert Step(c, s, decrypt, src[0]) == Step(c, Refresh(c, s), decrypt, src[0]);
  }

  /** At a block boundary: refill, then xor. */
  lemma AtBoundary(c: Cipher, s: Cfb, decrypt: bool, src: Data)
    requires c.Valid() && s.Fits(c.n) && s.used == c.n && |src| <= c.n
    ensures var r := Feed(c, s, decrypt, src);
            && r.1 == Xor(src, c.E(s.next))
            && (|src| == c.n ==> r.0.used == c.n && r.0.next == if decrypt then src else r.1)
  {
    if src != [] {
      var t := Refresh(c, s);
      RefreshIsSilent(c, s, decrypt, src);
      WithinBlock(c, t, decrypt, src);
      assert t.out[0..] == c.E(s.next);
      Keeps(c, t, decrypt, src);
      forall i | 0 <= i < |src|
        ensures var r := Feed(c, t, decrypt, src); r.0.next[i] == if decrypt then src[i] else r.1[i]
      {
        Collects(c, t, decrypt, src, i);
      }
    }
  }

  /** The byte-at-a-time stream computes the standard's mode, in both directions. */
  lemma {:induction false} StreamIsCfb(c: Cipher, s: Cfb, decrypt: bool, src: Data)
    requires c.Valid() && s.Fits(c.n) && s.used == c.n
    ensures Feed(c, s, decrypt, src).1
         == if decrypt then Decrypt(c, s.next, src) else Encrypt(c, s.next, src)
    decreases |src|
  {
    if |src| <= c.n {
      AtBoundary(c, s, decrypt, src);
    } else {
      var a, b := src[..c.n], src[c.n..];
      assert src == a + b;
      FeedAppend(c, s, decrypt, a, b);
      AtBoundary(c, s, decrypt, a);
      StreamIsCfb(c, Feed(c, s, decrypt, a).0, decrypt, b);
    }
  }

  /** Hence the standard's two functions are inverses, for messages of every length. */
  lemma DecryptEncrypt(c: Cipher, iv: Data, p: Data)
    requires c.Valid() && |iv| == c.n
    ensures Decrypt(c, iv, Encrypt(c, iv, p)) == p
  {
    var s := Start(c, iv);
    StreamIsCfb(c, s, false, p);
    StreamIsCfb(c, s, true, Encrypt(c, iv, p));
    FeedInverse(c, s, p);
  }

  /** Two decrypting streams agree again behind one block of the same ciphertext, whatever they began with. */
  lemma Resynchronises(c: Cipher, s: Cfb, t: Cfb, block: Data, more: Data)
    requires c.Valid() && s.Fits(c.n) && t.Fits(c.n) && s.used == t.used == c.n && |block| == c.n
    ensures Feed(c, s, true, block + more).1[c.n..] == Feed(c, t, true, block + more).1[c.n..]
  {
    FeedAppend(c, s, true, block, more);
    FeedAppend(c, t, true, block, more);
    AtBoundary(c, s, true, block);
    AtBoundary(c, t, true, block);
    StreamIsCfb(c, Feed(c, s, true, block).0, true, more);
    StreamIsCfb(c, Feed(c, t, true, block).0, true, more);
  }

  /** Both ends compute the same vector, whichever order they xor in. */
  lemma XorCommutes(a: Data, b: Data)
    requires |a| == |b|
    ensures Xor(a, b) == Xor(b, a)
  {
    forall i | 0 <= i < |a|
      ensures Xor(a, b)[i] == Xor(b, a)[i]
    {
      BitsCommute(a[i], b[i]);
    }
  }

  lemma BitsCommute(x: bv8, y: bv8)
    ensures x ^ y == y ^ x
  {
  }

  // ----- fragmentation -----

  /** The outputs of one call per buffer, in order. */
  function Calls(c: Cipher, s: Cfb, decrypt: bool, bufs: seq<Data>): (r: seq<Data>)
    requires c.Valid() && s.Fits(c.n)
    decreases |bufs|
  {
    if bufs == [] then [] else
    var first := Feed(c, s, decrypt, bufs[0]);
    [first.1] + Calls(c, first.0, decrypt, bufs[1..])
  }

  lemma {:induction false} CallsAreOneFeed(c: Cipher, s: Cfb, decrypt: bool, bufs: seq<Data>)
    requires c.Valid() && s.Fits(c.n)
    ensures Join(Calls(c, s, decrypt, bufs)) == Feed(c, s, decrypt, Join(bufs)).1
    decreases |bufs|
  {
    if bufs != [] {
      var first := Feed(c, s, decrypt, bufs[0]);
      CallsAreOneFeed(c, first.0, decrypt, bufs[1..]);
      FeedAppend(c, s, decrypt, bufs[0], Join(bufs[1..]));
      assert Calls(c, s, decrypt, bufs)[1..] == Calls(c, first.0, decrypt, bufs[1..]);
    }
  }

  /** Any split into writes, any other split into reads, each end with the vector it computed. */
  lemma RoundTrip(c: Cipher, mine: Data, theirs: Data, sent: seq<Data>, got: seq<Data>)
    requires c.Valid() && |mine| == |theirs| == c.n
    requires Join(got) == Join(Calls(c, Start(c, Xor(mine, theirs)), false, sent))
    ensures Join(Calls(c, Start(c, Xor(theirs, mine)), true, got)) == Join(sent)
    ensures Join(got) == Encrypt(c, Xor(mine, theirs), Join(sent))
  {
    XorCommutes(mine, theirs);
    var s := Start(c, Xor(mine, theirs));
    CallsAreOneFeed(c, s, false, sent);
    CallsAreOneFeed(c, s, true, got);
    FeedInverse(c, s, Join(sent));
    StreamIsCfb(c, s, false, Join(sent));
  }

  // ----- whole sessions: handshake and both directions, interleaved at will -----

  /**
   * One end of a session. `iv` is the vector it sent, `heard` the one it received; `written`,
   * `taken` and `read` record the plaintext given to Write, the ciphertext taken from the
   * socket by Read, and the bytes Read returned.
   */
  datatype End = End(iv: Option<Data>, heard: Option<Data>, out: Cfb, inn: Cfb,
                     written: Data, taken: Data, read: Data)

  datatype Act =
    | SentIV(iv: Data)
    | RecvIV
    | Write(p: Data)
    | Read(k: nat)

  /** One end with the wire it fills and the wire it drains. */
  datatype Local = Local(end: End, filled: Data, drained: Data)

  /** The vector this end computed. */
  function Key(e: End): Data
    requires e.iv.Some? && e.heard.Some? && |e.iv.value| <= |e.heard.value|
  {
    Xor(e.iv.value, e.heard.value)
  }

  /** What the code's control flow allows: send, then receive, then any reads and writes. */
  predicate Can(n: nat, l: Local, a: Act) {
    match a
    case SentIV(iv) => l.end.iv.None? && |iv| == n
    case RecvIV => l.end.iv.Some? && |l.end.iv.value| == n && l.end.heard.None? && |l.drained| >= n
    case Write(p) => l.end.heard.Some? && l.end.out.Fits(n)
    case Read(k) => l.end.heard.Some? && l.end.inn.Fits(n) && 1 <= k <= |l.drained|
  }

  function Do(c: Cipher, l: Local, a: Act): (r: Local)
    requires c.Valid() && Can(c.n, l, a)
  {
    var e := l.end;
    match a
    case SentIV(iv) => l.(end := e.(iv := Some(iv)), filled := l.filled + iv)
    case RecvIV =>
      var h := e.(heard := Some(l.drained[..c.n]));
      l.(end := h.(out := Start(c, Key(h)), inn := Start(c, Key(h))), drained := l.drained[c.n..])
    case Write(p) =>
      var r := Feed(c, e.out, false, p);
      l.(end := e.(out := r.0, written := e.written + p), filled := l.filled + r.1)
    case Read(k) =>
      var r := Feed(c, e.inn, true, l.drained[..k]);
      l.(end := e.(inn := r.0, taken := e.taken + l.drained[..k], read := e.read + r.1),
         drained := l.drained[k..])
  }

  /** `up` carries the client's bytes, `down` the server's. */
  datatype Session = Session(client: End, server: End, up: Data, down: Data)

  datatype Move = ByClient(act: Act) | ByServer(act: Act)

  function Fresh(): Session {
    var e := End(None, None, Cfb([], [], 0), Cfb([], [], 0), [], [], []);
    Session(e, e, [], [])
  }

  predicate Ready(n: nat, s: Session, m: Move) {
    match m
    case ByClient(a) => Can(n, Local(s.client, s.up, s.down), a)
    case ByServer(a) => Can(n, Local(s.server, s.down, s.up), a)
  }

  function Next(c: Cipher, s: Session, m: Move): Session
    requires c.Valid() && Ready(c.n, s, m)
  {
    match m
    case ByClient(a) =>
      var l := Do(c, Local(s.client, s.up, s.down), a);
      Session(l.end, s.server, l.filled, l.drained)
    case ByServer(a) =>
      var l := Do(c, Local(s.server, s.down, s.up), a);
      Session(s.client, l.end, l.drained, l.filled)
  }

  predicate Shaped(n: nat, e: End) {
    && (e.iv.Some? ==> |e.iv.value| == n)
    && (e.heard.Some? ==> e.iv.Some? && |e.heard.value| == n)
    && (e.heard.None? ==> e.written == [] && e.taken == [] && e.read == [])
  }

  /** `cipher` is all the ciphertext an end produced. */
  ghost predicate Sender(c: Cipher, e: End, cipher: Data)
    requires c.Valid() && Shaped(c.n, e)
  {
    if e.heard.None? then cipher == [] else
    var r := Feed(c, Start(c, Key(e)), false, e.written);
    r.0 == e.out && r.1 == cipher
  }

  ghost predicate Receiver(c: Cipher, e: End)
    requires c.Valid() && Shaped(c.n, e)
  {
    e.heard.Some? ==>
      var r := Feed(c, Start(c, Key(e)), true, e.taken);
      r.0 == e.inn && r.1 == e.read
  }

  /** One direction, from `f` over `w` to `t`. */
  ghost predicate Way(c: Cipher, f: End, w: Data, t: End, cipher: Data)
    requires c.Valid()
  {
    && Shaped(c.n, f) && Shaped(c.n, t)
    && Sender(c, f, cipher)
    && Receiver(c, t)
    && (t.heard.Some? ==> t.heard == f.iv && cipher == t.taken + w)
    && (t.heard.None? ==> w == (if f.iv.Some? then f.iv.value else []) + cipher)
  }

  ghost predicate Inv(c: Cipher, s: Session)
    requires c.Valid()
  {
    && (exists cipher :: Way(c, s.client, s.up, s.server, cipher))
    && (exists cipher :: Way(c, s.server, s.down, s.client, cipher))
  }

  lemma ReceiverReads(c: Cipher, e: End, got: Data)
    requires c.Valid() && Shaped(c.n, e) && e.heard.Some? && e.inn.Fits(c.n) && Receiver(c, e)
    ensures var r := Feed(c, e.inn, true, got);
            Receiver(c, e.(inn := r.0, taken := e.taken + got, read := e.read + r.1))
  {
    FeedAppend(c, Start(c, Key(e)), true, e.taken, got);
  }

  /** The acting end as a receiver. */
  lemma ReceiverStep(c: Cipher, l: Local, a: Act, peer: End, cipher: Data)
    requires c.Valid() && Can(c.n, l, a) && Way(c, peer, l.drained, l.end, cipher)
    ensures Way(c, peer, Do(c, l, a).drained, Do(c, l, a).end, cipher)
  {
    var e, w := l.end, l.drained;
    match a
    case SentIV(iv) =>
    case RecvIV =>
      assert w[..c.n] == peer.iv.value;
      assert [] + w[c.n..] == cipher;
    case Write(p) =>
    case Read(k) =>
      ReceiverReads(c, e, w[..k]);
      assert w == w[..k] + w[k..];
      assert e.taken + w == (e.taken + w[..k]) + w[k..];
  }

  /** The acting end as a sender, except in Write. */
  lemma SenderStep(c: Cipher, l: Local, a: Act, peer: End, cipher: Data)
    requires c.Valid() && Can(c.n, l, a) && Way(c, l.end, l.filled, peer, cipher)
    requires !a.Write? && Shaped(c.n, Do(c, l, a).end)
    ensures Way(c, Do(c, l, a).end, Do(c, l, a).filled, peer, cipher)
  {
    if a.SentIV? {
      assert [] + a.iv == a.iv + [];
    }
  }

  lemma SenderWrites(c: Cipher, e: End, p: Data, cipher: Data)
    requires c.Valid() && Shaped(c.n, e) && e.heard.Some? && e.out.Fits(c.n) && Sender(c, e, cipher)
    ensures var r := Feed(c, e.out, false, p);
            Sender(c, e.(out := r.0, written := e.written + p), cipher + r.1)
  {
    FeedAppend(c, Start(c, Key(e)), false, e.written, p);
  }

  /** The acting end as a sender in Write. */
  lemma WriteStep(c: Cipher, l: Local, p: Data, peer: End, cipher: Data)
    requires c.Valid() && Can(c.n, l, Write(p)) && Way(c, l.end, l.filled, peer, cipher)
    ensures var r := Do(c, l, Write(p));
            Way(c, r.end, r.filled, peer, cipher + Feed(c, l.end.out, false, p).1)
  {
    var more := Feed(c, l.end.out, false, p).1;
    SenderWrites(c, l.end, p, cipher);
    if peer.heard.Some? {
      assert peer.taken + l.filled + more == peer.taken + (l.filled + more);
    } else {
      assert l.end.iv.value + cipher + more == l.end.iv.value + (cipher + more);
    }
  }

  /** Both directions survive a step of the end they share. */
  lemma LocalStep(c: Cipher, l: Local, a: Act, peer: End)
    requires c.Valid() && Can(c.n, l, a)
    requires exists x :: Way(c, l.end, l.filled, peer, x)
    requires exists x :: Way(c, peer, l.drained, l.end, x)
    ensures exists x :: Way(c, Do(c, l, a).end, Do(c, l, a).filled, peer, x)
    ensures exists x :: Way(c, peer, Do(c, l, a).drained, Do(c, l, a).end, x)
  {
    var x :| Way(c, l.end, l.filled, peer, x);
    var y :| Way(c, peer, l.drained, l.end, y);
    ReceiverStep(c, l, a, peer, y);
    if a.Write? {
      WriteStep(c, l, a.p, peer, x);
    } else {
      SenderStep(c, l, a, peer, x);
    }
  }

  ghost predicate Run(c: Cipher, s: Session, moves: seq<Move>, r: Session)
    requires c.Valid()
    decreases moves
  {
    if moves == [] then r == s else
    Ready(c.n, s, moves[0]) && Run(c, Next(c, s, moves[0]), moves[1..], r)
  }

  lemma {:induction false} RunInv(c: Cipher, s: Session, moves: seq<Move>, r: Session)
    requires c.Valid() && Inv(c, s) && Run(c, s, moves, r)
    ensures Inv(c, r)
    decreases moves
  {
    if moves != [] {
      match moves[0] {
        case ByClient(a) => LocalStep(c, Local(s.client, s.up, s.down), a, s.server);
        case ByServer(a) => LocalStep(c, Local(s.server, s.down, s.up), a, s.client);
      }
      RunInv(c, Next(c, s, moves[0]), moves[1..], r);
    }
  }

  /**
   * What a direction promises: the bytes Read returned are a prefix of the bytes given to
   * Write, and all of them once the wire is empty; when both ends know both vectors they hold
   * the same key, and the rest is what the undelivered ciphertext decrypts to.
   */
  ghost predicate Delivers(c: Cipher, f: End, w: Data, t: End)
    requires c.Valid()
  {
    && t.read <= f.written
    && (t.heard.Some? && w == [] ==> t.read == f.written)
    && (f.heard.Some? && t.heard.Some? ==>
          && f.iv == t.heard && t.iv == f.heard
          && f.iv.Some? && t.iv.Some? && |f.iv.value| == |t.iv.value|
          && Key(f) == Key(t)
          && t.inn.Fits(c.n)
          && f.written == t.read + Feed(c, t.inn, true, w).1)
  }

  lemma WayDelivers(c: Cipher, f: End, w: Data, t: End, cipher: Data)
    requires c.Valid() && Way(c, f, w, t, cipher) && (f.heard.Some? ==> f.heard == t.iv)
    ensures Delivers(c, f, w, t)
  {
    if t.heard.Some? && f.heard.Some? {
      XorCommutes(f.iv.value, t.iv.value);
      var s := Start(c, Key(f));
      FeedInverse(c, s, f.written);
      FeedAppend(c, s, true, t.taken, w);
    } else if t.heard.Some? {
      assert t.taken == [];
    }
  }

  /** In every run of a session, at every moment, both directions deliver. */
  lemma SessionIntegrity(c: Cipher, moves: seq<Move>, r: Session)
    requires c.Valid() && Run(c, Fresh(), moves, r)
    ensures Delivers(c, r.client, r.up, r.server)
    ensures Delivers(c, r.server, r.down, r.client)
  {
    assert Way(c, Fresh().client, [], Fresh().server, []);
    RunInv(c, Fresh(), moves, r);
    var x :| Way(c, r.client, r.up, r.server, x);
    var y :| Way(c, r.server, r.down, r.client, y);
    WayDelivers(c, r.client, r.up, r.server, x);
    WayDelivers(c, r.server, r.down, r.client, y);
  }

  // ----- the objects -----

  /** The loop that combines the two vectors. */
  method XOR(n: nat, a: array<bv8>, b: array<bv8>) returns (r: array<bv8>)
    requires n <= a.Length && n <= b.Length
    ensures fresh(r) && r[..] == Xor(a[..n], b[..n])
  {
    r := new bv8[n];
    for i := 0 to n
      invariant forall j :: 0 <= j < i ==> r[j] == a[j] ^ b[j]
    {
      r[i] := a[i] ^ b[i];
    }
  }

  /** One direction's stream object. */
  class Stream {
    const c: Cipher
    const decrypt: bool
    var s: Cfb

    ghost predicate Valid()
      reads this
    {
      c.Valid() && s.Fits(c.n)
    }

    constructor (c: Cipher, decrypt: bool, iv: Data)
      requires c.Valid() && |iv| == c.n
      ensures Valid() && this.c == c && this.decrypt == decrypt && s == Start(c, iv)
    {
      this.c, this.decrypt, s := c, decrypt, Start(c, iv);
    }

    /** Transform the first `n` bytes of a buffer in place. */
    method XORKeyStream(b: array<bv8>, n: nat)
      requires Valid() && n <= b.Length
      modifies this, b
      ensures Valid()
      ensures s == Feed(c, old(s), decrypt, old(b[..n])).0
      ensures b[..n] == Feed(c, old(s), decrypt, old(b[..n])).1
      ensures b[n..] == old(b[n..])
    {
      ghost var all := b[..];
      ghost var src := b[..n];
      for i := 0 to n
        invariant Valid()
        invariant forall j :: i <= j < b.Length ==> b[j] == all[j]
        invariant s == Feed(c, old(s), decrypt, src[..i]).0
        invariant b[..i] == Feed(c, old(s), decrypt, src[..i]).1
      {
        ghost var done := b[..i];
        var r := Step(c, s, decrypt, b[i]);
        s, b[i] := r.0, r.1;
        FeedNext(c, old(s), decrypt, src, i);
        assert b[..i + 1] == done + [r.1];
      }
      assert src[..n] == src;
      assert b[n..] == all[n..];
    }
  }

  /** The socket, seen from one end: bytes to take and bytes given. */
  class Socket {
    var incoming: Data
    var outgoing: Data

    constructor ()
      ensures incoming == [] && outgoing == []
    {
      incoming, outgoing := [], [];
    }
  }

  datatype Exchange = Agreed(iv: Data) | ErrRandom | ErrSocket | ErrShortWrite | Eof | UnexpectedEof

  /** What the environment does in an exchange: whether random bytes can be had, how many bytes the
      socket takes and whether it fails, and whether it fails or closes behind its last byte. */
  datatype Weather = Weather(random: bool, taken: nat, writes: bool, closes: bool)

  /** The outcome of an exchange of vectors of n bytes, when the incoming bytes are these. */
  function Exchanged(n: nat, mine: Data, incoming: Data, e: Weather): Exchange
    requires |mine| == n
  {
    if !e.random then ErrRandom
    else if !e.writes then ErrSocket
    else if e.taken != n then ErrShortWrite
    else if |incoming| >= n then Agreed(Xor(mine, incoming[..n]))
    else if !e.closes then ErrSocket
    else if incoming == [] then Eof
    else UnexpectedEof
  }

  /** The environment lets the exchange take its course. */
  predicate Fair(n: nat, e: Weather) {
    e.random && e.writes && e.taken == n
  }

  /**
   * Two ends that exchange their vectors agree on one, whatever follows the vectors, and it is the key that
   * a session computes in the two steps of its handshake; what follows stays in the wire.
   */
  lemma ExchangeAgrees(c: Cipher, a: Data, b: Data, more: Data, others: Data, e: Weather, f: Weather, l: Local)
    requires c.Valid() && |a| == |b| == c.n && Fair(c.n, e) && Fair(c.n, f)
    requires l.end.iv.None? && l.end.heard.None? && l.drained == b + more
    ensures Exchanged(c.n, a, b + more, e) == Exchanged(c.n, b, a + others, f) == Agreed(Xor(a, b))
    ensures Can(c.n, l, SentIV(a)) && Can(c.n, Do(c, l, SentIV(a)), RecvIV)
    ensures var r := Do(c, Do(c, l, SentIV(a)), RecvIV);
            && r.end == l.end.(iv := Some(a), heard := Some(b), out := Start(c, Xor(a, b)), inn := Start(c, Xor(a, b)))
            && Key(r.end) == Xor(a, b) && r.drained == more && r.filled == l.filled + a
  {
    XorCommutes(a, b);
    assert (b + more)[..c.n] == b && (b + more)[c.n..] == more && (a + others)[..c.n] == a;
  }

  /**
   * Send the random vector `mine`, then receive as many bytes. Of the incoming bytes exactly the
   * peer's vector is used up; what follows is left for Read.
   */
  method ExchangeIV(sock: Socket, n: nat, mine: array<bv8>, e: Weather) returns (r: Exchange)
    requires mine.Length == n && e.taken <= n
    modifies sock
    ensures r == Exchanged(n, mine[..], old(sock.incoming), e)
    ensures r.Agreed? <==> Fair(n, e) && |old(sock.incoming)| >= n
    ensures r.Agreed? ==> |r.iv| == n && forall i :: 0 <= i < n ==> r.iv[i] == mine[i] ^ old(sock.incoming)[i]
    ensures r == ErrRandom <==> !e.random
    ensures r == ErrShortWrite <==> e.random && e.writes && e.taken != n
    ensures r == Eof <==> Fair(n, e) && e.closes && n > 0 && old(sock.incoming) == []
    ensures r == UnexpectedEof <==> Fair(n, e) && e.closes && 0 < |old(sock.incoming)| < n
    ensures sock.outgoing == old(sock.outgoing) + if e.random then mine[..e.taken] else []
    ensures sock.incoming == if r.Agreed? then old(sock.incoming)[n..]
                             else if e.random && e.writes && e.taken == n then []
                             else old(sock.incoming)
  {
    if !e.random {
      return ErrRandom;
    }
    sock.outgoing := sock.outgoing + mine[..e.taken];
    if !e.writes {
      return ErrSocket;
    }
    if e.taken != n {
      return ErrShortWrite;
    }
    if |sock.incoming| < n {
      r := if !e.closes then ErrSocket else if sock.incoming == [] then Eof else UnexpectedEof;
      sock.incoming := [];
      return;
    }
    var theirs := new bv8[n];
    for i := 0 to n
      invariant sock.incoming == old(sock.incoming) && sock.outgoing == old(sock.outgoing) + mine[..e.taken]
      invariant theirs[..i] == sock.incoming[..i]
    {
      ghost var done := theirs[..i];
      theirs[i] := sock.incoming[i];
      assert theirs[..i + 1] == done + [sock.incoming[i]];
    }
    var iv := XOR(n, mine, theirs);
    assert mine[..n] == mine[..];
    sock.incoming := sock.incoming[n..];
    return Agreed(iv[..]);
  }

  /** The last bytes of one are the other. */
  predicate EndsIn(all: Data, last: Data) {
    |last| <= |all| && all[|all| - |last|..] == last
  }

  lemma EndsInMore(all: Data, last: Data, more: Data)
    requires EndsIn(all, last)
    ensures EndsIn(all + more, last + more)
  {
    assert (all + more)[|all| - |last|..] == all[|all| - |last|..] + more;
  }

  /**
   * NewClient and NewServer: exchange vectors, then start both streams with what came of it. Where a session
   * stands before its handshake, it stands behind it then.
   */
  method NewConn(sock: Socket, c: Cipher, mine: array<bv8>, e: Weather) returns (r: Exchange, conn: CryptConn?)
    requires c.Valid() && mine.Length == c.n && e.taken <= c.n
    modifies sock
    ensures r == Exchanged(c.n, mine[..], old(sock.incoming), e)
    ensures conn != null <==> r.Agreed?
    ensures conn != null ==> fresh(conn) && conn.Valid() && conn.sock == sock && conn.inn.c == c
    ensures forall l: Local :: conn != null && l.end.iv.None? && l.end.heard.None?
                               && l.drained == old(sock.incoming) && EndsIn(old(sock.outgoing), l.filled) ==>
              && Can(c.n, l, SentIV(mine[..])) && Can(c.n, Do(c, l, SentIV(mine[..])), RecvIV)
              && conn.Shows(Do(c, Do(c, l, SentIV(mine[..])), RecvIV))
  {
    conn := null;
    ghost var before, given := sock.incoming, sock.outgoing;
    r := ExchangeIV(sock, c.n, mine, e);
    if r.Agreed? {
      conn := new CryptConn(sock, c, r.iv);
      var theirs := before[..c.n];
      assert before == theirs + before[c.n..];
      assert mine[..c.n] == mine[..];
      forall l: Local | l.end.iv.None? && l.end.heard.None? && l.drained == before && EndsIn(given, l.filled)
        ensures Can(c.n, l, SentIV(mine[..])) && Can(c.n, Do(c, l, SentIV(mine[..])), RecvIV)
        ensures conn.Shows(Do(c, Do(c, l, SentIV(mine[..])), RecvIV))
      {
        ExchangeAgrees(c, mine[..], theirs, before[c.n..], [], e, e, l);
        EndsInMore(given, l.filled, mine[..]);
      }
    }
  }

  class CryptConn {
    const sock: Socket
    const inn: Stream
    const out: Stream

    ghost predicate Valid()
      reads this, inn, out
    {
      inn != out && inn.Valid() && out.Valid() && inn.c == out.c && inn.decrypt && !out.decrypt
    }

    constructor (sock: Socket, c: Cipher, iv: Data)
      requires c.Valid() && |iv| == c.n
      ensures Valid() && fresh(inn) && fresh(out) && this.sock == sock && inn.c == c
      ensures inn.s == out.s == Start(c, iv)
    {
      this.sock := sock;
      inn := new Stream(c, true, iv);
      out := new Stream(c, false, iv);
    }

    /** This end and its socket are as a session has them: the bytes that it will read are under way to it,
        and the last bytes that it has sent are those under way from it. */
    ghost predicate Shows(l: Local)
      reads this, inn, out, sock
    {
      && l.end.heard.Some? && l.end.inn == inn.s && l.end.out == out.s
      && l.drained == sock.incoming && EndsIn(sock.outgoing, l.filled)
    }

    /**
     * The socket hands over `n` bytes, or fails after placing `n`. A failed read is passed on
     * undecrypted and leaves the stream where it was.
     */
    method Read(b: array<bv8>, n: nat, fail: bool) returns (ok: bool)
      requires Valid() && n <= b.Length && n <= |sock.incoming|
      modifies b, inn, sock
      ensures Valid() && ok == !fail
      ensures sock.incoming == old(sock.incoming)[n..] && sock.outgoing == old(sock.outgoing)
      ensures ok ==> inn.s == Feed(inn.c, old(inn.s), true, old(sock.incoming)[..n]).0
      ensures ok ==> b[..n] == Feed(inn.c, old(inn.s), true, old(sock.incoming)[..n]).1
      ensures !ok ==> inn.s == old(inn.s) && b[..n] == old(sock.incoming)[..n]
      ensures b[n..] == old(b[n..])
      ensures forall l :: old(Shows(l)) && ok && n > 0 ==>
        && Can(inn.c.n, l, Act.Read(n)) && Shows(Do(inn.c, l, Act.Read(n)))
        && Do(inn.c, l, Act.Read(n)).end.read == l.end.read + b[..n]
    {
      for i := 0 to n
        invariant sock.incoming == old(sock.incoming)
        invariant sock.outgoing == old(sock.outgoing)
        invariant Valid() && inn.s == old(inn.s)
        invariant b[..i] == old(sock.incoming)[..i]
        invariant b[i..] == old(b[i..])
      {
        ghost var done := b[..i];
        b[i] := sock.incoming[i];
        assert b[..i + 1] == done + [sock.incoming[i]];
        assert b[i + 1..] == old(b[i + 1..]);
      }
      sock.incoming := sock.incoming[n..];
      ok := !fail;
      if ok {
        inn.XORKeyStream(b, n);
      }
    }

    /**
     * The caller's buffer is overwritten with the ciphertext, of which the socket takes the
     * first `w` bytes; the stream has moved over the whole buffer either way.
     */
    method Write(b: array<bv8>, w: nat)
      requires Valid() && w <= b.Length
      modifies b, out, sock
      ensures Valid()
      ensures out.s == Feed(out.c, old(out.s), false, old(b[..])).0
      ensures b[..] == Feed(out.c, old(out.s), false, old(b[..])).1
      ensures sock.outgoing == old(sock.outgoing) + b[..w]
      ensures sock.incoming == old(sock.incoming)
      ensures forall l :: old(Shows(l)) && w == b.Length ==>
        && Can(out.c.n, l, Act.Write(old(b[..]))) && Shows(Do(out.c, l, Act.Write(old(b[..]))))
    {
      assert b[..b.Length] == b[..];
      out.XORKeyStream(b, b.Length);
      assert b[..b.Length] == b[..];
      sock.outgoing := sock.outgoing + b[..w];
    }
  }
}
