/** The wire format of tunnel/frame.go: a big-endian header of five bytes, then the data. */
module FrameCodec {
  import opened Prelude

  const HEADER: nat := 5

  /** A frame as the struct holds it; `length` is the field of the header. */
  datatype Frame = Frame(kind: byte, length: uint16, streamid: uint16, data: Bytes)

  datatype ReadError = Eof | UnexpectedEof

  datatype ReadResult = Got(frame: Frame, rest: Bytes) | Failed(error: ReadError)

  predicate WellFormed(f: Frame) {
    f.length == |f.data|
  }

  function Big16(x: uint16): Bytes {
    [x / 256, x % 256]
  }

  function From16(hi: byte, lo: byte): uint16 {
    (hi as int) * 256 + lo as int
  }

  function Pack(f: Frame): Bytes {
    [f.kind] + Big16(f.length) + Big16(f.streamid) + f.data
  }

  /** io.ReadFull: the error of a read of n bytes when fewer are there. */
  function ShortRead(available: nat): ReadError {
    if available == 0 then Eof else UnexpectedEof
  }

  /** ReadFrame on the bytes that the connection will deliver before it closes. */
  function ReadFrame(s: Bytes): (r: ReadResult)
    ensures r.Got? ==> |r.rest| + HEADER <= |s|
  {
    if |s| < HEADER then Failed(ShortRead(|s|))
    else
      var length := From16(s[1], s[2]);
      var body := s[HEADER..];
      if |body| < length then Failed(ShortRead(|body|))
      else Got(Frame(s[0], length, From16(s[3], s[4]), body[..length]), body[length..])
  }

  /** The frames that a loop of ReadFrame yields, and the error that ends it. */
  function ReadAll(s: Bytes): (seq<Frame>, ReadError)
    decreases |s|
  {
    match ReadFrame(s)
    case Failed(e) => ([], e)
    case Got(f, rest) => var (fs, e) := ReadAll(rest); ([f] + fs, e)
  }

  function PackAll(fs: seq<Frame>): Bytes {
    if fs == [] then [] else Pack(fs[0]) + PackAll(fs[1..])
  }

  /** Frame.Marshal, given the encoded payload: a frame, unless the payload is too long for its length field. */
  function Marshal(kind: byte, streamid: uint16, payload: Bytes): (r: Option<Frame>)
    ensures r.Some? <==> |payload| <= 0xFFFF
    ensures r.Some? ==> WellFormed(r.value) && r.value.data == payload
    ensures r.Some? ==> r.value.kind == kind && r.value.streamid == streamid
  {
    if |payload| > 0xFFFF then None else Some(Frame(kind, |payload|, streamid, payload))
  }

  /** The bytes of a frame: its type, then length and stream id with the higher byte first, then the data. */
  lemma HeaderBytes(f: Frame)
    ensures |Pack(f)| == HEADER + |f.data| && Pack(f)[0] == f.kind && Pack(f)[HEADER..] == f.data
    ensures Pack(f)[1] == f.length / 256 && Pack(f)[2] == f.length % 256
    ensures Pack(f)[3] == f.streamid / 256 && Pack(f)[4] == f.streamid % 256
  {
    var head := [f.kind] + Big16(f.length) + Big16(f.streamid);
    assert Pack(f) == head + f.data && |head| == HEADER;
    assert (head + f.data)[HEADER..] == f.data;
  }

  /** Reading takes back exactly what was packed, and leaves what follows. */
  lemma ReadPack(f: Frame, rest: Bytes)
    requires WellFormed(f)
    ensures ReadFrame(Pack(f) + rest) == Got(f, rest)
  {
    var s := Pack(f) + rest;
    assert From16(s[1], s[2]) == f.length && From16(s[3], s[4]) == f.streamid;
    assert s[HEADER..] == f.data + rest;
  }

  /** Whatever is read was packed so: every byte string has at most one reading. */
  lemma PackRead(s: Bytes)
    requires ReadFrame(s).Got?
    ensures var Got(f, rest) := ReadFrame(s);
            WellFormed(f) && Pack(f) + rest == s
  {
    var Got(f, rest) := ReadFrame(s);
    assert s[..HEADER] == [f.kind] + Big16(f.length) + Big16(f.streamid);
    assert s[..HEADER] + s[HEADER..] == s && f.data + rest == s[HEADER..];
  }

  /** A stream of frames is read back whole, and ends in EOF. */
  lemma {:induction false} RoundTrip(fs: seq<Frame>)
    requires forall i :: 0 <= i < |fs| ==> WellFormed(fs[i])
    ensures ReadAll(PackAll(fs)) == (fs, Eof)
  {
    if fs != [] {
      ReadPack(fs[0], PackAll(fs[1..]));
      RoundTrip(fs[1..]);
      assert [fs[0]] + fs[1..] == fs;
    }
  }

  /** A frame cut short is an error; it is EOF only if nothing, or the header alone, is there. */
  lemma CutFrame(f: Frame, n: nat)
    requires WellFormed(f) && n < |Pack(f)|
    ensures ReadFrame(Pack(f)[..n]) == Failed(if n == 0 || n == HEADER then Eof else UnexpectedEof)
  {
    var s := Pack(f)[..n];
    if n >= HEADER {
      assert From16(s[1], s[2]) == f.length;
      assert |s[HEADER..]| == n - HEADER;
    }
  }

  /** The first n bytes of the packed frames hold k whole frames. */
  predicate Whole(fs: seq<Frame>, n: nat, k: nat) {
    && n <= |PackAll(fs)| && k <= |fs| && |PackAll(fs[..k])| <= n
    && (k < |fs| ==> n < |PackAll(fs[..k + 1])|)
  }

  /** They read as those frames and an error. */
  predicate CutAt(fs: seq<Frame>, n: nat, k: nat) {
    && Whole(fs, n, k)
    && var over := n - |PackAll(fs[..k])|;
       ReadAll(PackAll(fs)[..n]) == (fs[..k], if over == 0 || over == HEADER then Eof else UnexpectedEof)
  }

  lemma CutFirst(fs: seq<Frame>, n: nat)
    requires fs != [] && WellFormed(fs[0]) && n < |Pack(fs[0])|
    ensures CutAt(fs, n, 0)
  {
    PackAllTake(fs, 1);
    assert PackAll(fs)[..n] == Pack(fs[0])[..n];
    CutFrame(fs[0], n);
  }

  lemma WholeLater(fs: seq<Frame>, n: nat, j: nat)
    requires fs != [] && n >= |Pack(fs[0])| && Whole(fs[1..], n - |Pack(fs[0])|, j)
    ensures Whole(fs, n, j + 1)
    ensures |PackAll(fs[..j + 1])| == |Pack(fs[0])| + |PackAll(fs[1..][..j])|
  {
    PackAllTake(fs, j + 1);
    if j + 1 < |fs| {
      PackAllTake(fs, j + 2);
    }
  }

  lemma CutLater(fs: seq<Frame>, n: nat, j: nat)
    requires fs != [] && WellFormed(fs[0]) && n >= |Pack(fs[0])| && CutAt(fs[1..], n - |Pack(fs[0])|, j)
    ensures CutAt(fs, n, j + 1)
  {
    WholeLater(fs, n, j);
    ReadAllStep(fs[0], PackAll(fs[1..]), n);
    assert fs[..j + 1] == [fs[0]] + fs[1..][..j];
  }

  /** A stream cut at any point yields exactly the frames that are whole, then an error. The error
      is EOF, as after a clean close, exactly at a frame boundary or behind a bare header. */
  lemma {:induction false} CutStream(fs: seq<Frame>, n: nat) returns (k: nat)
    requires forall i :: 0 <= i < |fs| ==> WellFormed(fs[i])
    requires n <= |PackAll(fs)|
    ensures CutAt(fs, n, k)
  {
    if fs == [] {
      k := 0;
    } else if n < |Pack(fs[0])| {
      k := 0;
      CutFirst(fs, n);
    } else {
      var j := CutStream(fs[1..], n - |Pack(fs[0])|);
      CutLater(fs, n, j);
      k := j + 1;
    }
  }

  lemma PackAllTake(fs: seq<Frame>, k: nat)
    requires 0 < k <= |fs|
    ensures PackAll(fs[..k]) == Pack(fs[0]) + PackAll(fs[1..][..k - 1])
  {
    assert fs[..k][1..] == fs[1..][..k - 1];
  }

  lemma ReadAllStep(f: Frame, more: Bytes, n: nat)
    requires WellFormed(f) && |Pack(f)| <= n <= |Pack(f)| + |more|
    ensures var (fs, e) := ReadAll(more[..n - |Pack(f)|]);
            ReadAll((Pack(f) + more)[..n]) == ([f] + fs, e)
  {
    assert (Pack(f) + more)[..n] == Pack(f) + more[..n - |Pack(f)|];
    ReadPack(f, more[..n - |Pack(f)|]);
  }

  /** A reader over a connection: the bytes still to come. */
  class Reader {
    var stream: Bytes

    constructor (stream: Bytes)
      ensures this.stream == stream
    {
      this.stream := stream;
    }

    method ReadFull(n: nat) returns (b: Bytes, error: Option<ReadError>)
      modifies this
      ensures if |old(stream)| >= n
              then error == None && b == old(stream)[..n] && stream == old(stream)[n..]
              else error == Some(ShortRead(|old(stream)|)) && stream == []
    {
      if |stream| >= n {
        b, error := stream[..n], None;
        stream := stream[n..];
      } else {
        b, error := stream, Some(ShortRead(|stream|));
        stream := [];
      }
    }

    /** ReadFrame, which consumes the bytes of the frame it returns. */
    method ReadNext() returns (r: ReadResult)
      modifies this
      ensures r == ReadFrame(old(stream))
      ensures stream == if r.Got? then r.rest else []
    {
      var header, error := ReadFull(HEADER);
      if error.Some? {
        return Failed(error.value);
      }
      var length: uint16 := From16(header[1], header[2]);
      var data;
      data, error := ReadFull(length);
      if error.Some? {
        return Failed(error.value);
      }
      return Got(Frame(header[0], length, From16(header[3], header[4]), data), stream);
    }
  }
}
