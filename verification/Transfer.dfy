/** How Conn.Write cuts its buffer into chunks, and the 32-bit window that it waits for. */
module Transfer {
  import opened Prelude
  import opened StreamCore

  const UINT16_RANGE: int := 0x1_0000

  /** The size of the next chunk of a buffer with `len` bytes left: its length
      converted to 16 bits, then capped. */
  function ChunkSize(len: nat): (size: nat)
    ensures size <= len && size <= BUFFERSIZE
  {
    var size := len % UINT16_RANGE;
    if size > BUFFERSIZE then BUFFERSIZE else size
  }

  /** The chunks Write sends until its buffer is empty or its chunk size is 0. */
  function Cut(data: Bytes): (chunks: seq<Bytes>)
    decreases |data|
  {
    var size := ChunkSize(|data|);
    if size == 0 then [] else [data[..size]] + Cut(data[size..])
  }

  /** What is left of the buffer after those chunks. */
  function Uncut(data: Bytes): Bytes
    decreases |data|
  {
    var size := ChunkSize(|data|);
    if size == 0 then data else Uncut(data[size..])
  }

  /** The frames that carry these chunks. */
  function DataFrames(chunks: seq<Bytes>): seq<Frame> {
    seq(|chunks|, i requires 0 <= i < |chunks| => Data(chunks[i]))
  }

  lemma CutStep(data: Bytes)
    requires ChunkSize(|data|) > 0
    ensures var size := ChunkSize(|data|);
            && Cut(data) != [] && Cut(data)[0] == data[..size] && Cut(data)[1..] == Cut(data[size..])
            && Uncut(data) == Uncut(data[size..])
  {
  }

  lemma {:induction false} CutJoins(data: Bytes)
    ensures Join(Cut(data)) + Uncut(data) == data
    decreases |data|
  {
    var size := ChunkSize(|data|);
    if size == 0 {
      assert [] + data == data;
    } else {
      CutJoins(data[size..]);
      JoinCut(data);
      Assemble(data, size, Join(Cut(data[size..])), Uncut(data[size..]));
    }
  }

  lemma Assemble(data: Bytes, size: nat, a: Bytes, b: Bytes)
    requires size <= |data| && a + b == data[size..]
    ensures (data[..size] + a) + b == data
  {
    Regroup(data[..size], a, b);
  }

  lemma JoinCut(data: Bytes)
    requires ChunkSize(|data|) > 0
    ensures var size := ChunkSize(|data|);
            Join(Cut(data)) == data[..size] + Join(Cut(data[size..])) && Uncut(data) == Uncut(data[size..])
  {
    CutStep(data);
  }

  lemma {:induction false} UncutLength(data: Bytes)
    ensures |Uncut(data)| == UINT16_RANGE * (|data| / UINT16_RANGE)
    decreases |data|
  {
    var size := ChunkSize(|data|);
    if size != 0 {
      UncutLength(data[size..]);
      SameQuotient(|data|, size);
    }
  }

  /** A chunk that is not full is the last. */
  lemma {:induction false} CutIsFull(data: Bytes)
    ensures forall i :: 0 <= i < |Cut(data)| - 1 ==> |Cut(data)[i]| == BUFFERSIZE
    decreases |data|
  {
    var size := ChunkSize(|data|);
    if size != 0 {
      CutIsFull(data[size..]);
      CutStep(data);
      if size < BUFFERSIZE {
        assert (|data| - size) % UINT16_RANGE == 0;
        assert Cut(data[size..]) == [];
      }
      forall i | 0 < i < |Cut(data)| - 1
        ensures |Cut(data)[i]| == BUFFERSIZE
      {
        assert Cut(data)[i] == Cut(data[size..])[i - 1];
      }
    }
  }

  /** Every chunk is of 1 to BUFFERSIZE bytes, and all but the last are full; in order, and with the remainder,
      they are the buffer; and the remainder is the largest multiple of 65536 that the buffer holds. */
  lemma {:induction false} CutKeepsBytes(data: Bytes)
    ensures Join(Cut(data)) + Uncut(data) == data
    ensures forall i :: 0 <= i < |Cut(data)| ==> 1 <= |Cut(data)[i]| <= BUFFERSIZE
    ensures forall i :: 0 <= i < |Cut(data)| - 1 ==> |Cut(data)[i]| == BUFFERSIZE
    ensures |Uncut(data)| == UINT16_RANGE * (|data| / UINT16_RANGE)
    decreases |data|
  {
    var size := ChunkSize(|data|);
    if size != 0 {
      CutKeepsBytes(data[size..]);
    }
    CutJoins(data);
    CutIsFull(data);
    UncutLength(data);
  }

  lemma SameQuotient(len: nat, size: nat)
    requires size <= len % UINT16_RANGE
    ensures (len - size) / UINT16_RANGE == len / UINT16_RANGE
  {
  }

  /** Write sends its whole buffer exactly when that is shorter than 65536 bytes. A longer buffer
      leaves a positive multiple of 65536 bytes, on which the chunk size is 0 for ever. */
  lemma WriteIsExact(data: Bytes)
    ensures |data| < UINT16_RANGE <==> Join(Cut(data)) == data
    ensures |data| < UINT16_RANGE <==> Uncut(data) == []
    ensures |data| >= UINT16_RANGE ==>
              |Uncut(data)| > 0 && |Uncut(data)| % UINT16_RANGE == 0 && ChunkSize(|Uncut(data)|) == 0
  {
    CutKeepsBytes(data);
    var q := |data| / UINT16_RANGE;
    assert |data| >= UINT16_RANGE ==> q >= 1;
    assert (UINT16_RANGE * q) % UINT16_RANGE == 0;
  }

  // ---------- the window ----------

  function Sum(credits: seq<nat>): nat {
    if credits == [] then 0 else Sum(credits[..|credits| - 1]) + credits[|credits| - 1]
  }

  lemma {:induction false} SumAppend(a: seq<nat>, b: seq<nat>)
    ensures Sum(a + b) == Sum(a) + Sum(b)
  {
    if b == [] {
      assert a + b == a;
    } else {
      assert (a + b)[..|a + b| - 1] == a + b[..|b| - 1];
      SumAppend(a, b[..|b| - 1]);
    }
  }

  lemma Int32Unique(x: int, k: int)
    ensures Int32(x + WORD * k) == Int32(x)
  {
    assert (x + WORD * k + 0x8000_0000) / WORD == (x + 0x8000_0000) / WORD + k;
  }

  /** Wrapping on the way changes nothing in the end. */
  lemma Int32Add(a: int, b: int)
    ensures Int32(Int32(a) + b) == Int32(a + b)
  {
    Int32Unique(a + b, -((a + 0x8000_0000) / WORD));
  }

  /** The window when a wait for `len` bytes of it ends, and the number of credits that it took; one
      comes at each wait. */
  function Wait(w: int, len: nat, credits: seq<nat>): (r: (int, nat))
    ensures r.1 <= |credits|
    decreases |credits|
  {
    if Int32(w - len) >= 0 || credits == [] then (w, 0) else
    var r := Wait(Int32(w + Int32(credits[0])), len, credits[1..]);
    (r.0, r.1 + 1)
  }

  /** After a credit c, with b more. */
  lemma CreditThen(w: int, c: nat, b: int)
    ensures Int32(Int32(w + Int32(c)) + b) == Int32(w + c + b)
  {
    Int32Add(w + Int32(c), b);
    Int32Add(c, w + b);
  }

  lemma {:induction false} WaitSums(w: int, len: nat, credits: seq<nat>)
    requires Int32(w) == w
    ensures var (r, u) := Wait(w, len, credits); r == Int32(w + Sum(credits[..u]))
    decreases |credits|
  {
    var u := Wait(w, len, credits).1;
    if u == 0 {
      assert credits[..0] == [];
    } else {
      var w1 := Int32(w + Int32(credits[0]));
      WaitSums(w1, len, credits[1..]);
      SumsAfterCredit(w, credits, u);
    }
  }

  /** The first of u credits and the others are all of them. */
  lemma SumsAfterCredit(w: int, credits: seq<nat>, u: nat)
    requires 0 < u <= |credits|
    ensures Int32(Int32(w + Int32(credits[0])) + Sum(credits[1..][..u - 1])) == Int32(w + Sum(credits[..u]))
  {
    SumFirst(credits, u);
    CreditThen(w, credits[0], Sum(credits[1..][..u - 1]));
  }

  lemma {:induction false} WaitWaits(w: int, len: nat, credits: seq<nat>, j: nat)
    requires j < Wait(w, len, credits).1
    ensures Int32(w + Sum(credits[..j]) - len) < 0
    decreases |credits|
  {
    if j == 0 {
      assert credits[..0] == [];
    } else {
      WaitWaits(Int32(w + Int32(credits[0])), len, credits[1..], j - 1);
      SumFirst(credits, j);
      CreditThen(w, credits[0], Sum(credits[1..][..j - 1]) - len);
    }
  }

  lemma {:induction false} WaitStops(w: int, len: nat, credits: seq<nat>)
    ensures var (r, u) := Wait(w, len, credits); Int32(r - len) >= 0 || u == |credits|
    decreases |credits|
  {
    if !(Int32(w - len) >= 0 || credits == []) {
      WaitStops(Int32(w + Int32(credits[0])), len, credits[1..]);
    }
  }

  /** The wait ends as soon as the credits that have come give enough window, and not before. */
  lemma WaitIsExact(w: int, len: nat, credits: seq<nat>)
    requires Int32(w) == w
    ensures var (r, u) := Wait(w, len, credits);
            && r == Int32(w + Sum(credits[..u]))
            && (Int32(r - len) >= 0 || u == |credits|)
            && forall j :: 0 <= j < u ==> Int32(w + Sum(credits[..j]) - len) < 0
  {
    WaitSums(w, len, credits);
    WaitStops(w, len, credits);
    forall j | 0 <= j < Wait(w, len, credits).1
      ensures Int32(w + Sum(credits[..j]) - len) < 0
    {
      WaitWaits(w, len, credits, j);
    }
  }

  lemma SumFirst(credits: seq<nat>, u: nat)
    requires 0 < u <= |credits|
    ensures Sum(credits[..u]) == credits[0] + Sum(credits[1..][..u - 1])
  {
    assert credits[..u] == [credits[0]] + credits[1..][..u - 1];
    SumAppend([credits[0]], credits[1..][..u - 1]);
    assert Sum([credits[0]]) == Sum([]) + credits[0] by {
      assert [credits[0]][..0] == [];
    }
  }

  // ---------- the whole of Write ----------

  /** How far Write comes: the chunks and bytes sent, the window left, the credits taken, and whether it
      waits for more. */
  datatype Sent = Sent(chunks: nat, n: nat, window: int, used: nat, parked: bool)

  /** writeSlice on a stream that is EST: the window it leaves, the credits it takes, and whether it sends. */
  function Slice(w: int, len: nat, credits: seq<nat>): (r: (int, nat, bool))
    ensures r.1 <= |credits|
  {
    var (w1, u) := Wait(w, len, credits);
    if Int32(w1 - len) < 0 then (w1, u, false) else (Int32(w1 - len), u, true)
  }

  /** The chunks are sent one after the other; each waits for window, at which credits come, until there
      is enough of it or no more comes. */
  function Sending(w: int, chunks: seq<Bytes>, credits: seq<nat>): (s: Sent)
    ensures s.used <= |credits| && s.chunks <= |chunks|
    decreases |chunks|
  {
    if chunks == [] then Sent(0, 0, w, 0, false)
    else
      var (w1, u, ok) := Slice(w, |chunks[0]|, credits);
      if !ok then Sent(0, 0, w1, u, true)
      else
        var s := Sending(w1, chunks[1..], credits[u..]);
        Sent(s.chunks + 1, |chunks[0]| + s.n, s.window, u + s.used, s.parked)
  }

  /** The window has moved by the credits taken and the bytes sent, in 32 bits. */
  predicate WindowMoved(w: int, credits: seq<nat>, s: Sent) {
    s.used <= |credits| && s.window == Int32(w + Sum(credits[..s.used]) - s.n)
  }

  lemma WindowStays(w: int, credits: seq<nat>)
    requires Int32(w) == w
    ensures WindowMoved(w, credits, Sent(0, 0, w, 0, false))
  {
    assert credits[..0] == [];
  }

  lemma WindowWaits(w: int, len: nat, credits: seq<nat>)
    requires Int32(w) == w && !Slice(w, len, credits).2
    ensures var (w1, u, _) := Slice(w, len, credits); WindowMoved(w, credits, Sent(0, 0, w1, u, true))
  {
    WaitSums(w, len, credits);
  }

  lemma WrapThrice(w: int, a: int, len: int, b: int, n: int)
    ensures Int32(Int32(Int32(w + a) - len) + b - n) == Int32(w + (a + b) - (len + n))
  {
    Int32Add(w + a, 0 - len);
    Int32Add(w + a - len, b - n);
  }

  lemma SumSplit(credits: seq<nat>, u: nat, v: nat)
    requires u <= |credits| && v <= |credits| - u
    ensures Sum(credits[..u + v]) == Sum(credits[..u]) + Sum(credits[u..][..v])
  {
    assert credits[..u + v] == credits[..u] + credits[u..][..v];
    SumAppend(credits[..u], credits[u..][..v]);
  }

  /** The window goes by u credits, then down by a chunk, then as in s. */
  lemma WindowAdds(w: int, size: nat, credits: seq<nat>, s: Sent)
    requires Int32(w) == w && Slice(w, size, credits).2
    requires var (w1, u, _) := Slice(w, size, credits); WindowMoved(w1, credits[u..], s)
    ensures var (w1, u, _) := Slice(w, size, credits);
            WindowMoved(w, credits, Sent(s.chunks + 1, size + s.n, s.window, u + s.used, s.parked))
  {
    SliceSums(w, size, credits);
    var u := Slice(w, size, credits).1;
    SumSplit(credits, u, s.used);
    WrapThrice(w, Sum(credits[..u]), size, Sum(credits[u..][..s.used]), s.n);
  }

  lemma SliceSums(w: int, size: nat, credits: seq<nat>)
    requires Int32(w) == w && Slice(w, size, credits).2
    ensures var (w1, u, _) := Slice(w, size, credits); w1 == Int32(Int32(w + Sum(credits[..u])) - size)
  {
    WaitSums(w, size, credits);
  }

  lemma SliceInRange(w: int, len: nat, credits: seq<nat>)
    requires Int32(w) == w && Slice(w, len, credits).2
    ensures Int32(Slice(w, len, credits).0) == Slice(w, len, credits).0
  {
  }

  lemma {:induction false} SendingWindow(w: int, chunks: seq<Bytes>, credits: seq<nat>)
    requires Int32(w) == w
    ensures WindowMoved(w, credits, Sending(w, chunks, credits))
    decreases |chunks|
  {
    if chunks == [] {
      WindowStays(w, credits);
    } else {
      var size := |chunks[0]|;
      var (w1, u, ok) := Slice(w, size, credits);
      if !ok {
        WindowWaits(w, size, credits);
      } else {
        SliceInRange(w, size, credits);
        SendingWindow(w1, chunks[1..], credits[u..]);
        WindowAdds(w, size, credits, Sending(w1, chunks[1..], credits[u..]));
      }
    }
  }

  /** What is sent is a prefix of the chunks. */
  lemma {:induction false} SendingIsPrefix(w: int, chunks: seq<Bytes>, credits: seq<nat>)
    ensures var s := Sending(w, chunks, credits); s.n == |Join(chunks[..s.chunks])|
    decreases |chunks|
  {
    var s := Sending(w, chunks, credits);
    if s.chunks == 0 {
      assert chunks[..0] == [];
    } else {
      var (w1, u, _) := Slice(w, |chunks[0]|, credits);
      SendingIsPrefix(w1, chunks[1..], credits[u..]);
      assert chunks[..s.chunks] == [chunks[0]] + chunks[1..][..s.chunks - 1];
      JoinCons(chunks[0], chunks[1..][..s.chunks - 1]);
    }
  }

  lemma SliceStops(w: int, len: nat, credits: seq<nat>)
    ensures var (w1, u, ok) := Slice(w, len, credits); !ok ==> u == |credits| && Int32(w1 - len) < 0
  {
    WaitStops(w, len, credits);
  }

  /** If it is not all of them, then all credits are taken and the window is short of the next chunk. */
  lemma {:induction false} SendingParks(w: int, chunks: seq<Bytes>, credits: seq<nat>)
    ensures var s := Sending(w, chunks, credits);
            && (s.parked <==> s.chunks < |chunks|)
            && (s.parked ==> s.used == |credits| && Int32(s.window - |chunks[s.chunks]|) < 0)
    decreases |chunks|
  {
    if chunks != [] {
      var (w1, u, ok) := Slice(w, |chunks[0]|, credits);
      if !ok {
        SliceStops(w, |chunks[0]|, credits);
      } else {
        SendingParks(w1, chunks[1..], credits[u..]);
      }
    }
  }

  /** One chunk, and the others. */
  lemma SendingStep(w: int, chunks: seq<Bytes>, credits: seq<nat>)
    requires chunks != []
    ensures var (w1, u, ok) := Slice(w, |chunks[0]|, credits);
            if !ok then Sending(w, chunks, credits) == Sent(0, 0, w1, u, true)
            else
              var s := Sending(w1, chunks[1..], credits[u..]);
              Sending(w, chunks, credits) == Sent(s.chunks + 1, |chunks[0]| + s.n, s.window, u + s.used, s.parked)
  {
  }

  /** Where Write stands: behind so many chunks, bytes and credits, and with this window. */
  datatype Standing = Standing(chunks: nat, n: nat, used: nat, window: int)

  /** The rest of it is the sending of the other chunks from there, with the other credits. */
  predicate SendSplit(all: Sent, at: Standing, rest: seq<Bytes>, credits: seq<nat>) {
    var s := Sending(at.window, rest, credits);
    all == Sent(at.chunks + s.chunks, at.n + s.n, s.window, at.used + s.used, s.parked)
  }

  /** After one more chunk. */
  function NextSent(at: Standing, size: nat, credits: seq<nat>): Standing {
    var (w1, more, ok) := Slice(at.window, size, credits);
    Standing(at.chunks + 1, at.n + size, at.used + more, w1)
  }

  lemma SendSplitNext(all: Sent, at: Standing, rest: seq<Bytes>, credits: seq<nat>)
    requires SendSplit(all, at, rest, credits) && rest != []
    ensures var (w1, more, ok) := Slice(at.window, |rest[0]|, credits);
            if !ok then all == Sent(at.chunks, at.n, w1, at.used + more, true)
            else SendSplit(all, NextSent(at, |rest[0]|, credits), rest[1..], credits[more..])
  {
    SendingStep(at.window, rest, credits);
  }

  /** Write stands there, with these chunks sent, and with this rest of its buffer and of the credits. */
  predicate WriteSplit(all: Sent, data: Bytes, credits: seq<nat>,
                       done: seq<Bytes>, left: Bytes, at: Standing, coming: seq<nat>) {
    && Cut(data) == done + Cut(left) && |done| == at.chunks && Uncut(left) == Uncut(data)
    && at.used <= |credits| && coming == credits[at.used..]
    && SendSplit(all, at, Cut(left), coming)
  }

  lemma CutSplitNext(data: Bytes, done: seq<Bytes>, left: Bytes)
    requires Cut(data) == done + Cut(left) && Uncut(left) == Uncut(data) && ChunkSize(|left|) > 0
    ensures var size := ChunkSize(|left|);
            Cut(data) == (done + [left[..size]]) + Cut(left[size..]) && Uncut(left[size..]) == Uncut(data)
  {
    CutStep(left);
  }

  lemma WriteSplitNext(all: Sent, data: Bytes, credits: seq<nat>,
                       done: seq<Bytes>, left: Bytes, at: Standing, coming: seq<nat>)
    requires WriteSplit(all, data, credits, done, left, at, coming) && ChunkSize(|left|) > 0
    ensures var size := ChunkSize(|left|);
            var (w1, more, ok) := Slice(at.window, size, coming);
            if ok then WriteSplit(all, data, credits, done + [left[..size]], left[size..],
                                  NextSent(at, size, coming), coming[more..])
            else all == Sent(at.chunks, at.n, w1, at.used + more, true) && Cut(data)[..at.chunks] == done
  {
    CutStep(left);
    CutSplitNext(data, done, left);
    SendSplitNext(all, at, Cut(left), coming);
    var more := Slice(at.window, ChunkSize(|left|), coming).1;
    assert coming[more..] == credits[at.used + more..];
  }

  lemma WriteSplitEnds(all: Sent, data: Bytes, credits: seq<nat>,
                       done: seq<Bytes>, left: Bytes, at: Standing, coming: seq<nat>)
    requires WriteSplit(all, data, credits, done, left, at, coming) && ChunkSize(|left|) == 0
    ensures Cut(data)[..at.chunks] == done == Cut(data) && Uncut(data) == left && coming == credits[at.used..]
    ensures all == Sent(at.chunks, at.n, at.window, at.used, false)
  {
    assert Cut(left) == [];
  }
}
