/**
 The classes of the tunnel package, with the fields they update in place. Each method is
 proved against the functions of StreamCore, Transfer, IdPool and FabricSpec.
 Locks are not modelled: a method body is what runs while its lock is held.
 */
module TunnelObjects {
  import opened Prelude
  import opened StreamCore
  import opened IdPool
  import opened FabricSpec
  import opened ReadSpec
  import Transfer

  // ---------- tunnel/queue.go ----------

  datatype PopResult = Popped(v: Bytes) | NoneNow | Eof | Waits

  class Queue {
    var queue: seq<Bytes>
    var closed: bool
    /** The Conn whose rqueue this is: no two Conns share a queue. */
    ghost var owner: Conn?

    ghost function View(): Contents
      reads this
    {
      Contents(queue, closed)
    }

    constructor ()
      ensures queue == [] && !closed
    {
      queue := [];
      closed := false;
      owner := null;
    }

    method Push(v: Bytes) returns (ok: bool)
      modifies this`queue
      ensures ok == !closed
      ensures queue == if ok then old(queue) + [v] else old(queue)
    {
      if closed {
        return false;
      }
      queue := queue + [v];
      return true;
    }

    /** Pop, with what others do at each of its waits. It ends in Waits when they do no more. */
    method Pop(block: bool, others: seq<seq<QueueOp>>) returns (r: PopResult, waits: nat)
      modifies this`queue, this`closed
      ensures var (q, u) := if block then Await(old(View()), others) else (old(View()), 0);
              && waits == u && closed == q.closed
              && r == (if q.queue != [] then Popped(q.queue[0]) else if q.closed then Eof
                       else if block then Waits else NoneNow)
              && queue == if q.queue != [] then q.queue[1..] else []
    {
      waits := 0;
      assert others[0..] == others;
      while queue == []
        invariant waits <= |others|
        invariant !block ==> waits == 0 && View() == old(View())
        invariant block ==> Await(old(View()), others) ==
                            var (q, u) := Await(View(), others[waits..]); (q, waits + u)
        decreases |others| - waits
      {
        if closed {
          return Eof, waits;
        }
        if !block {
          return NoneNow, waits;
        }
        if waits == |others| {
          return Waits, waits;
        }
        assert others[waits..][1..] == others[waits + 1..];
        var after := Happen(Contents(queue, closed), others[waits]);
        queue, closed := after.queue, after.closed;
        waits := waits + 1;
      }
      r := Popped(queue[0]);
      queue := queue[1..];
    }

    method Close()
      modifies this`closed
      ensures closed
    {
      closed := true;
    }
  }

  // ---------- tunnel/conn.go ----------

  datatype WriteResult = Wrote | ClosedPipe | Parked | Stalled

  datatype ReadResult = Returned | AtEof | Blocked

  class Conn {
    const fab: Fabric
    const rqueue: Queue
    var streamid: Id
    var status: Status
    var timer: bool
    var rest: Option<Bytes>
    var window: int
    ghost var wasOpen: bool

    ghost function View(): Core
      reads this, rqueue
    {
      Core(status, timer, rest, rqueue.queue, rqueue.closed, window)
    }

    /** A half-closed stream has its timer; one that has seen FIN, or was open and is
        finished, has its queue closed. */
    ghost predicate Valid()
      reads this, rqueue
    {
      && (status in {FinRecv, FinSent} ==> timer && wasOpen)
      && (status == FinRecv ==> rqueue.closed)
      && (status == Est ==> wasOpen)
      && (status == Unknown && wasOpen ==> rqueue.closed)
      && rqueue.owner == this
    }

    constructor (fab: Fabric, status: Status)
      requires status in {Unknown, SynRecv}
      ensures Valid() && !wasOpen && View() == NewCore(status)
      ensures this.fab == fab && fresh(rqueue) && streamid == 0
    {
      this.fab := fab;
      rqueue := new Queue();
      streamid := 0;
      this.status := status;
      timer := false;
      rest := None;
      window := WINDOWSIZE;
      wasOpen := false;
      new;
      rqueue.owner := this;
    }

    method Final()
      modifies fab`weaves
      ensures fab.weaves == old(fab.weaves) - {streamid}
    {
      var ok := fab.CloseFiber(streamid);
    }

    /** Connect up to the SYN. */
    method Connect(network: string) returns (ok: bool)
      requires Valid() && !wasOpen
      modifies this`status, fab`sent
      ensures var e := StreamCore.Connect(old(View()), network);
              View() == e.core && ok == e.ok && fab.sent == old(fab.sent) + Labels(streamid, e.out)
      ensures Valid() && (ok <==> old(status) == Unknown)
      ensures ok ==> status == SynSent && fab.sent == old(fab.sent) + [(streamid, Syn(network))]
      ensures !ok ==> status == old(status) && fab.sent == old(fab.sent)
    {
      if status != Unknown {
        return false;
      }
      status := SynSent;
      fab.Send(streamid, Syn(network));
      return true;
    }

    method Accept() returns (ok: bool)
      requires Valid()
      modifies this`status, this`wasOpen, fab`sent
      ensures var e := StreamCore.Accept(old(View()));
              View() == e.core && ok == e.ok && fab.sent == old(fab.sent) + Labels(streamid, e.out)
      ensures Valid() && (ok <==> old(status) == SynRecv)
      ensures ok ==> status == Est && fab.sent == old(fab.sent) + [(streamid, Result(ERR_NONE))]
      ensures !ok ==> status == old(status) && fab.sent == old(fab.sent)
    {
      if status != SynRecv {
        return false;
      }
      status := Est;
      wasOpen := true;
      fab.Send(streamid, Result(ERR_NONE));
      return true;
    }

    method Deny()
      modifies fab`sent, fab`weaves
      ensures var e := StreamCore.Deny(old(View()));
              View() == e.core && fab.sent == old(fab.sent) + Labels(streamid, e.out)
      ensures fab.weaves == old(fab.weaves) - {streamid}
      ensures View() == old(View()) && fab.sent == old(fab.sent) + [(streamid, Result(ERR_CONNFAILED))]
    {
      fab.Send(streamid, Result(ERR_CONNFAILED));
      Final();
    }

    /** Stop is only called on a timer that is set. */
    method CloseWrite() returns (ok: bool)
      requires Valid()
      modifies this`status, this`timer, fab`sent, fab`weaves
      ensures var e := StreamCore.CloseWrite(old(View()));
              && View() == e.core && ok == e.ok
              && fab.sent == old(fab.sent) + Labels(streamid, e.out)
              && fab.weaves == if e.keep then old(fab.weaves) else old(fab.weaves) - {streamid}
      ensures Valid() && (ok <==> old(status) in {Est, FinRecv, Unknown})
      ensures fab.sent == old(fab.sent) + if old(status) in {Est, FinRecv} then [(streamid, Fin)] else []
      ensures status == (if old(status) == Est then FinSent else if old(status) == FinRecv then Unknown else old(status))
      ensures fab.weaves == if old(status) == FinRecv then old(fab.weaves) - {streamid} else old(fab.weaves)
    {
      match status {
        case Est =>
          status := FinSent;
          timer := true;
        case FinRecv =>
          status := Unknown;
          assert timer;
          timer := false;
          Final();
        case Unknown =>
          return true;
        case _ =>
          return false;
      }
      fab.Send(streamid, Fin);
      return true;
    }

    method CloseRead() returns (ok: bool)
      requires Valid()
      modifies this`status, this`timer, rqueue`closed, fab`weaves
      ensures var e := StreamCore.CloseRead(old(View()));
              && View() == e.core && ok == e.ok
              && fab.weaves == if e.keep then old(fab.weaves) else old(fab.weaves) - {streamid}
      ensures Valid() && (ok <==> old(status) in {Est, FinSent, Unknown})
      ensures rqueue.closed == (old(rqueue.closed) || old(status) in {Est, FinSent})
      ensures status == (if old(status) == Est then FinRecv else if old(status) == FinSent then Unknown else old(status))
      ensures fab.weaves == if old(status) == FinSent then old(fab.weaves) - {streamid} else old(fab.weaves)
    {
      match status {
        case Est =>
          status := FinRecv;
          timer := true;
        case FinSent =>
          status := Unknown;
          assert timer;
          timer := false;
          Final();
        case Unknown =>
          return true;
        case _ =>
          return false;
      }
      rqueue.Close();
      return true;
    }

    method Reset()
      modifies this`status, rqueue`closed, fab`weaves
      ensures View() == StreamCore.Reset(old(View())).core
      ensures status == Unknown && rqueue.closed
      ensures fab.weaves == old(fab.weaves) - {streamid}
      ensures old(rqueue.owner) == this ==> Valid()
    {
      status := Unknown;
      Final();
      rqueue.Close();
    }

    /** A frame arrives for this stream. */
    method SendFrame(f: Frame) returns (ok: bool)
      requires Valid()
      modifies this`status, this`timer, this`window, this`wasOpen, rqueue`queue, rqueue`closed, fab`weaves
      ensures var e := OnFrame(old(View()), f);
              && View() == e.core && ok == e.ok
              && fab.weaves == if e.keep then old(fab.weaves) else old(fab.weaves) - {streamid}
      ensures Valid() && (ok <==> !f.Syn? && (f.Result? ==> old(status) == SynSent))
      ensures f.Syn? || f.Rst? ==> status == Unknown && rqueue.closed && fab.weaves == old(fab.weaves) - {streamid}
      ensures f.Result? && ok && f.errno != ERR_NONE ==>
                View() == old(View()) && fab.weaves == old(fab.weaves) - {streamid}
    {
      match f {
        case Syn(_) =>
          Reset();
          return false;
        case Result(errno) =>
          if status != SynSent {
            return false;
          }
          if errno == ERR_NONE {
            status := Est;
            wasOpen := true;
          } else {
            Final();
          }
          return true;
        case Data(b) =>
          var pushed := rqueue.Push(b);
          return true;
        case Wnd(w) =>
          window := Int32(window + Int32(w));
          return true;
        case Fin =>
          var closed := CloseRead();
          return true;
        case Rst =>
          Reset();
          return true;
      }
    }

    /** Wait until the window holds `len` bytes, with the credits that come at each wait, or until no
        more comes. */
    method AwaitWindow(len: nat, credits: seq<nat>) returns (used: nat)
      modifies this`window
      ensures (window, used) == Transfer.Wait(old(window), len, credits)
    {
      used := 0;
      assert credits[0..] == credits;
      while Int32(window - len) < 0 && used < |credits|
        invariant used <= |credits|
        invariant Transfer.Wait(old(window), len, credits) ==
                  var (w, u) := Transfer.Wait(window, len, credits[used..]); (w, used + u)
        decreases |credits| - used
      {
        assert credits[used..][1..] == credits[used + 1..];
        window := Int32(window + Int32(credits[used]));
        used := used + 1;
      }
    }

    /** Send one chunk if the stream is EST, when the window holds it. It ends in Parked when no more
        credit comes. */
    method WriteSlice(data: Bytes, credits: seq<nat>) returns (r: WriteResult, used: nat)
      modifies this`window, fab`sent
      ensures var (w, u, ok) := if status == Est then Transfer.Slice(old(window), |data|, credits)
                                else (old(window), 0, false);
              && window == w && used == u
              && r == (if ok then Wrote else if status == Est then Parked else ClosedPipe)
              && fab.sent == old(fab.sent) + (if ok then Labels(streamid, [Data(data)]) else [])
      ensures credits == [] && r == Wrote ==> View() == SendChunk(old(View()), data).core
    {
      if status != Est {
        return ClosedPipe, 0;
      }
      used := AwaitWindow(|data|, credits);
      if Int32(window - |data|) < 0 {
        return Parked, used;
      }
      fab.Send(streamid, Data(data));
      window := Int32(window - |data|);
      r := Wrote;
    }

    /** The next chunk of Write, which stands at `at` with this rest of its buffer and of the credits. */
    method SendNext(left: Bytes, coming: seq<nat>, ghost all: Transfer.Sent, ghost data: Bytes, ghost credits: seq<nat>,
                    ghost done: seq<Bytes>, ghost at: Transfer.Standing, ghost base: seq<Packet>)
      returns (r: WriteResult, more: nat, ghost sent: seq<Bytes>, ghost next: Transfer.Standing)
      requires status == Est && Transfer.ChunkSize(|left|) > 0 && at.window == window
      requires Transfer.WriteSplit(all, data, credits, done, left, at, coming)
      requires fab.sent == base + ChunkPackets(streamid, done)
      modifies this`window, fab`sent
      ensures more <= |coming| && next.window == window && r in {Wrote, Parked}
      ensures r == Wrote ==>
                && next.n == at.n + Transfer.ChunkSize(|left|) && fab.sent == base + ChunkPackets(streamid, sent)
                && Transfer.WriteSplit(all, data, credits, sent, left[Transfer.ChunkSize(|left|)..], next, coming[more..])
      ensures r == Parked ==>
                && all == Transfer.Sent(at.chunks, at.n, window, all.used, true)
                && fab.sent == base + ChunkPackets(streamid, Transfer.Cut(data)[..at.chunks])
    {
      var size := Transfer.ChunkSize(|left|);
      Transfer.WriteSplitNext(all, data, credits, done, left, at, coming);
      ChunkSent(base, done, left[..size], streamid);
      r, more := WriteSlice(left[..size], coming);
      sent, next := done + [left[..size]], Transfer.NextSent(at, size, coming);
    }

    /** The loop of Write up to a chunk size of 0: the chunks of `Cut(data)` one after the other, with the
        credits that come at each wait for window; `left` and `coming` are what is left of both. */
    method SendChunks(data: Bytes, credits: seq<nat>) returns (n: nat, r: WriteResult, left: Bytes, coming: seq<nat>)
      requires status == Est
      modifies this`window, fab`sent
      ensures var s := Transfer.Sending(old(window), Transfer.Cut(data), credits);
              && n == s.n && window == s.window && r == (if s.parked then Parked else Wrote)
              && fab.sent == old(fab.sent) + ChunkPackets(streamid, Transfer.Cut(data)[..s.chunks])
              && (!s.parked ==> left == Transfer.Uncut(data) && coming == credits[s.used..])
    {
      n, r, left, coming := 0, Wrote, data, credits;
      ghost var all, base := Transfer.Sending(window, Transfer.Cut(data), credits), fab.sent;
      ghost var at, done: seq<Bytes> := Transfer.Standing(0, 0, 0, window), [];
      while Transfer.ChunkSize(|left|) > 0
        invariant at.n == n && at.window == window && r == Wrote
        invariant Transfer.WriteSplit(all, data, credits, done, left, at, coming)
        invariant fab.sent == base + ChunkPackets(streamid, done)
        decreases |left|
      {
        var size, more := Transfer.ChunkSize(|left|), 0;
        r, more, done, at := SendNext(left, coming, all, data, credits, done, at, base);
        if r != Wrote {
          return;
        }
        n, left, coming := n + size, left[size..], coming[more..];
      }
      Transfer.WriteSplitEnds(all, data, credits, done, left, at, coming);
    }

    /** Write a buffer, with the credits that come at each wait for window. Stalled stands for the loop
        that sends empty chunks for ever, once the window is not negative. */
    method Write(data: Bytes, credits: seq<nat>) returns (n: nat, r: WriteResult)
      modifies this`window, fab`sent
      ensures var s := if status == Est then Transfer.Sending(old(window), Transfer.Cut(data), credits)
                       else Transfer.Sent(0, 0, old(window), 0, false);
              var stalls := status == Est && !s.parked && Transfer.Uncut(data) != [];
              && n == s.n && |fab.sent| == |old(fab.sent)| + s.chunks && old(fab.sent) <= fab.sent
              && (forall i :: 0 <= i < s.chunks ==>
                    fab.sent[|old(fab.sent)| + i] == (streamid, Data(Transfer.Cut(data)[i])))
              && window == (if stalls then Transfer.Wait(s.window, 0, credits[s.used..]).0 else s.window)
              && r == if data == [] then Wrote else if status != Est then ClosedPipe
                      else if s.parked then Parked else if !stalls then Wrote
                      else if Int32(window) < 0 then Parked else Stalled
      ensures status != Est ==> n == 0 && fab.sent == old(fab.sent) && window == old(window)
    {
      if status != Est {
        return 0, if data == [] then Wrote else ClosedPipe;
      }
      var left, coming;
      n, r, left, coming := SendChunks(data, credits);
      if r == Wrote && left != [] {
        var more := AwaitWindow(0, coming);
        r := if Int32(window) < 0 then Parked else Stalled;
      }
    }

    /** The stream is as in s, on a fabric that had sent and mapped this before. */
    ghost predicate Shows(s: Scene, sent: seq<Packet>, weaves: map<Id, Conn>)
      reads this, rqueue, fab
    {
      && View() == s.core && fab.sent == sent + Labels(streamid, s.out)
      && fab.weaves == if s.keep then weaves else weaves - {streamid}
    }

    /** Another goroutine has its turn. */
    method Happens(e: Event, ghost s: Scene, ghost sent: seq<Packet>, ghost weaves: map<Id, Conn>)
      requires Valid() && Shows(s, sent, weaves)
      modifies this`status, this`timer, this`window, this`wasOpen, rqueue`queue, rqueue`closed, fab`weaves, fab`sent
      ensures Valid() && Shows(Occurs(s, e), sent, weaves)
    {
      match e {
        case Comes(f) =>
          FrameSaysNothing(s.core, f);
          assert s.out + [] == s.out;
          var ok := SendFrame(f);
        case Closing =>
          LabelsAppend(streamid, s.out, StreamCore.CloseWrite(s.core).out);
          var ok := CloseWrite();
      }
    }

    /** What other goroutines do during one wait. */
    method Meanwhile(es: seq<Event>, ghost s: Scene, ghost sent: seq<Packet>, ghost weaves: map<Id, Conn>)
      requires Valid() && Shows(s, sent, weaves)
      modifies this`status, this`timer, this`window, this`wasOpen, rqueue`queue, rqueue`closed, fab`weaves, fab`sent
      ensures Valid() && Shows(OccurAll(s, es), sent, weaves)
    {
      ghost var now := s;
      for i := 0 to |es|
        invariant Valid() && Shows(now, sent, weaves) && now == OccurAll(s, es[..i])
      {
        assert es[..i + 1][..i] == es[..i];
        Happens(es[i], now, sent, weaves);
        now := Occurs(now, es[i]);
      }
      assert es[..|es|] == es;
    }

    /** The copy in one round of Read: from `rest` into the buffer at offset n. */
    method CopyRest(buf: array<byte>, n: nat) returns (size: nat)
      requires rest.Some? && n < buf.Length
      modifies this`rest, buf
      ensures var (core, got) := CopyOnce(old(View()), buf.Length - n);
              View() == core && size == |got| && n + size <= buf.Length && buf[..n + size] == old(buf[..n]) + got
    {
      size := if buf.Length - n < |rest.value| then buf.Length - n else |rest.value|;
      forall i | 0 <= i < size {
        buf[n + i] := rest.value[i];
      }
      rest := if |rest.value| > size then Some(rest.value[size..]) else None;
    }

    /** A chunk from the queue when there is none in `rest`, and a copy of what fits, at offset n. */
    method Take(buf: array<byte>, n: nat) returns (p: PopResult, size: nat)
      requires n < buf.Length
      modifies this`rest, rqueue`queue, rqueue`closed, buf
      ensures p.Popped? <==> Available(old(View()))
      ensures p.Popped? ==>
                var (core, got) := CopyOnce(old(View()), buf.Length - n);
                View() == core && size == |got| && n + size <= buf.Length && buf[..n + size] == old(buf[..n]) + got
      ensures !p.Popped? ==>
                && View() == old(View()) && size == 0 && buf[..n] == old(buf[..n])
                && p == if rqueue.closed then Eof else if n == 0 then Waits else NoneNow
    {
      p, size := Popped([]), 0;
      if rest == None {
        ghost var c := View();
        var waits;
        p, waits := rqueue.Pop(n == 0, []);
        if !p.Popped? {
          return;
        }
        rest := Some(p.v);
        CopyAfterPop(c, buf.Length - n);
      }
      size := CopyRest(buf, n);
    }

    /** The same, as a round of the loop that began at c0. */
    method Round(buf: array<byte>, n: nat, ghost c0: Core) returns (p: PopResult, size: nat)
      requires n < buf.Length && Copying(c0, View(), buf[..n])
      modifies this`rest, rqueue`queue, rqueue`closed, buf
      ensures n + size <= buf.Length && Copying(c0, View(), buf[..n + size])
      ensures p.Popped? ==> Backlog(View()) < old(Backlog(View()))
      ensures !p.Popped? ==> size == 0 && !Available(View())
                             && p == if rqueue.closed then Eof else if n == 0 then Waits else NoneNow
    {
      CopyingNext(c0, View(), buf[..n], buf.Length - n);
      p, size := Take(buf, n);
    }

    /** The loop of Read until the buffer is full or Pop finds no chunk: what it has copied and what is left
        unread are together what was unread. With nothing copied, Pop then waits. */
    method Fill(buf: array<byte>) returns (n: nat, p: PopResult)
      modifies this`rest, rqueue`queue, rqueue`closed, buf
      ensures n <= buf.Length && Copying(old(View()), View(), buf[..n])
      ensures p.Popped? ==> n == buf.Length
      ensures !p.Popped? ==> n < buf.Length && !Available(View())
                             && p == if rqueue.closed then Eof else if n == 0 then Waits else NoneNow
    {
      n, p := 0, Popped([]);
      ghost var c0 := View();
      CopyingStart(c0);
      while n < buf.Length
        invariant n <= buf.Length && p.Popped? && Copying(c0, View(), buf[..n])
        decreases Backlog(View())
      {
        var size;
        p, size := Round(buf, n, c0);
        if !p.Popped? {
          return;
        }
        n := n + size;
      }
    }

    /** A wait of Pop, at which others do what they do, and the loop of Read from there. */
    method Again(buf: array<byte>, others: seq<seq<Event>>, waits: nat,
                 ghost s: Scene, ghost before: seq<Scene>, ghost was: Scene,
                 ghost sent: seq<Packet>, ghost weaves: map<Id, Conn>)
      returns (n: nat, p: PopResult, ghost scenes: seq<Scene>, ghost now: Scene)
      requires Valid() && Shows(was, sent, weaves) && !Available(View()) && !rqueue.closed
      requires ReadsOn(s, others, before, was, []) && waits == |before| - 1 < |others|
      modifies this`status, this`timer, this`window, this`wasOpen, this`rest, rqueue`queue, rqueue`closed
      modifies fab`weaves, fab`sent, buf
      ensures Valid() && n <= buf.Length && Shows(now, sent, weaves)
      ensures ReadsOn(s, others, scenes, now, buf[..n]) && |scenes| == |before| + 1
      ensures p.Popped? ==> n == buf.Length
      ensures !p.Popped? ==> n < buf.Length && !Available(now.core)
                             && p == if rqueue.closed then Eof else if n == 0 then Waits else NoneNow
    {
      ReadsOnWait(s, others, before, was);
      Meanwhile(others[waits], was, sent, weaves);
      scenes := before + [OccurAll(before[waits], others[waits])];
      ghost var mid := OccurAll(was, others[waits]);
      n, p := Fill(buf);
      now := mid.(core := View());
      ReadsOnMore(s, others, scenes, mid, now, buf[..n]);
    }

    /** Fill `buf` with as many of the unread bytes as it holds, and credit them to the peer; `others`
        is what happens at each wait. Blocked stands for a wait at which nothing more does. */
    method Read(buf: array<byte>, others: seq<seq<Event>>)
      returns (n: nat, r: ReadResult, ghost scenes: seq<Scene>, ghost end: Scene)
      requires Valid()
      modifies this`status, this`timer, this`window, this`wasOpen, this`rest, rqueue`queue, rqueue`closed
      modifies fab`weaves, fab`sent, buf
      ensures Valid() && n <= buf.Length && View() == end.core
      ensures ReadsAlong(Scene(old(View()), [], true), buf.Length, 0, others, scenes, end, buf[..n])
      ensures r == (if n < buf.Length && end.core.closed then AtEof
                    else if n < buf.Length && n == 0 then Blocked else Returned)
      ensures fab.weaves == if end.keep then old(fab.weaves) else old(fab.weaves) - {streamid}
      ensures fab.sent == old(fab.sent) + Labels(streamid, end.out)
                          + (if r == Returned && end.core.status !in {FinSent, Unknown}
                             then [(streamid, Wnd(Uint32(n)))] else [])
    {
      var p;
      n, p, scenes, end := Copied(buf, others);
      if p == Eof {
        return n, AtEof, scenes, end;
      }
      if p == Waits {
        return n, Blocked, scenes, end;
      }
      if status != FinSent && status != Unknown {
        fab.Send(streamid, Wnd(Uint32(n)));
      }
      return n, Returned, scenes, end;
    }

    /** The loop of Read with its waits. */
    method Copied(buf: array<byte>, others: seq<seq<Event>>)
      returns (n: nat, p: PopResult, ghost scenes: seq<Scene>, ghost now: Scene)
      requires Valid()
      modifies this`status, this`timer, this`window, this`wasOpen, this`rest, rqueue`queue, rqueue`closed
      modifies fab`weaves, fab`sent, buf
      ensures Valid() && n <= buf.Length && Shows(now, old(fab.sent), old(fab.weaves))
      ensures ReadsAlong(Scene(old(View()), [], true), buf.Length, 0, others, scenes, now, buf[..n])
      ensures p.Popped? ==> n == buf.Length
      ensures !p.Popped? ==> n < buf.Length && p == if rqueue.closed then Eof else if n == 0 then Waits else NoneNow
    {
      ghost var s, sent, weaves := Scene(View(), [], true), fab.sent, fab.weaves;
      ReadsOnStart(s, others);
      n, p := Fill(buf);
      scenes, now := [s], s.(core := View());
      ReadsOnMore(s, others, scenes, s, now, buf[..n]);
      var waits := 0;
      while p == Waits && waits < |others|
        invariant Valid() && n <= buf.Length && Shows(now, sent, weaves)
        invariant ReadsOn(s, others, scenes, now, buf[..n]) && waits == |scenes| - 1
        invariant p.Popped? ==> n == buf.Length
        invariant !p.Popped? ==> n < buf.Length && !Available(now.core)
                                 && p == if rqueue.closed then Eof else if n == 0 then Waits else NoneNow
        decreases |others| - waits
      {
        assert buf[..0] == [];
        n, p, scenes, now := Again(buf, others, waits, s, scenes, now, sent, weaves);
        waits := waits + 1;
      }
      ReadsOnEnds(s, buf.Length, others, scenes, now, buf[..n]);
    }

    /** Called by a fabric that closes. */
    method CloseFiber()
      modifies this`status, rqueue`closed, fab`weaves
      ensures status == Unknown && rqueue.closed
      ensures fab.weaves == old(fab.weaves) - {streamid}
    {
      Reset();
    }
  }

  /** One DATA for each chunk. */
  function ChunkPackets(id: Id, chunks: seq<Bytes>): (out: seq<Packet>)
    ensures |out| == |chunks| && forall i :: 0 <= i < |out| ==> out[i] == (id, Data(chunks[i]))
  {
    Labels(id, Transfer.DataFrames(chunks))
  }

  lemma ChunkSent(before: seq<Packet>, done: seq<Bytes>, chunk: Bytes, id: Id)
    ensures before + ChunkPackets(id, done + [chunk]) == before + ChunkPackets(id, done) + Labels(id, [Data(chunk)])
  {
  }

  lemma LabelsAppend(id: Id, a: seq<Frame>, b: seq<Frame>)
    ensures Labels(id, a + b) == Labels(id, a) + Labels(id, b)
  {
  }

  lemma FrameSaysNothing(c: Core, f: Frame)
    ensures OnFrame(c, f).out == []
  {
  }

  // ---------- tunnel/fabric.go ----------

  /** Two maps that differ at most at one id. */
  lemma Others(before: map<Id, Core>, after: map<Id, Core>, id: Id, keep: bool, core: Core)
    requires id in before
    requires forall i :: i in after <==> i in before && (i == id ==> keep)
    requires forall i :: i in after ==> after[i] == if i == id then core else before[i]
    ensures after == if keep then before[id := core] else before - {id}
  {
  }

  /** A stream answers no frame. */
  lemma Silent(fab: Fab, id: Id, f: Frame)
    requires id in fab.cores
    ensures Install(fab, id, OnFrame(fab.cores[id], f)).sent == fab.sent
  {
    assert Labels(id, OnFrame(fab.cores[id], f).out) == [];
  }

  class Fabric {
    var weaves: map<Id, Conn>
    var nextId: Id
    var closed: bool
    var sent: seq<Packet>

    constructor (nextId: Id)
      ensures weaves == map[] && !closed && sent == [] && this.nextId == nextId
    {
      weaves := map[];
      this.nextId := nextId;
      closed := false;
      sent := [];
    }

    method Send(id: Id, f: Frame)
      modifies this`sent
      ensures sent == old(sent) + [(id, f)] == old(sent) + Labels(id, [f])
    {
      sent := sent + [(id, f)];
    }

    /** Register f under the next free id of the parity of next_id. */
    method PutIntoNextId(f: Conn) returns (id: Id, ok: bool)
      modifies this`weaves, this`nextId
      ensures ok <==> FirstFree(old(weaves).Keys, old(nextId), 0).Some?
      ensures ok ==> Some(id) == FirstFree(old(weaves).Keys, old(nextId), 0)
                     && id !in old(weaves) && weaves == old(weaves)[id := f] && nextId == (id + 2) % ID_SPACE
      ensures !ok ==> weaves == old(weaves) && nextId == old(nextId)
      ensures nextId % 2 == old(nextId) % 2
    {
      var start := nextId;
      ghost var k, used := 0, weaves.Keys;
      ghost var found := FirstFree(used, start, 0);
      CandidateFacts(start, 0);
      while nextId in weaves
        invariant 0 <= k < HALF_SPACE && nextId == Candidate(start, k)
        invariant weaves == old(weaves) && found == FirstFree(used, start, k)
        decreases HALF_SPACE - k
      {
        CandidateFacts(start, k);
        CandidateFacts(start, k + 1);
        nextId := (nextId + 2) % ID_SPACE;
        k := k + 1;
        if nextId == start {
          return 0, false;
        }
      }
      CandidateFacts(start, k);
      CandidateFacts(start, k + 1);
      assert found == Some(nextId);
      id := nextId;
      nextId := (nextId + 2) % ID_SPACE;
      weaves := weaves[id := f];
      ok := true;
    }

    method PutIntoId(id: Id, f: Conn) returns (ok: bool)
      modifies this`weaves
      ensures ok <==> id !in old(weaves)
      ensures weaves == if ok then old(weaves)[id := f] else old(weaves)
    {
      if id in weaves {
        return false;
      }
      weaves := weaves[id := f];
      return true;
    }

    method CloseFiber(id: Id) returns (ok: bool)
      modifies this`weaves
      ensures ok <==> id in old(weaves)
      ensures weaves == old(weaves) - {id}
    {
      if id !in weaves {
        return false;
      }
      weaves := weaves - {id};
      return true;
    }

    /** Close the fabric once: the fibers it starts a reset for. */
    method Close() returns (started: map<Id, Conn>)
      modifies this`closed
      ensures closed
      ensures started == if old(closed) then map[] else weaves
    {
      if closed {
        return map[];
      }
      closed := true;
      return weaves;
    }

    /** Each stream is under its own id, on this fabric, with a queue of its own. */
    ghost predicate Valid()
      reads this`weaves, set id | id in weaves :: weaves[id], set id | id in weaves :: weaves[id].rqueue
    {
      forall id :: id in weaves ==>
        weaves[id].streamid == id && weaves[id].fab == this && weaves[id].Valid()
    }

    ghost function View(): Fab
      reads this`weaves, this`sent, set id | id in weaves :: weaves[id], set id | id in weaves :: weaves[id].rqueue
    {
      Fab(map id | id in weaves :: weaves[id].View(), sent)
    }

    /** A frame goes to its stream; all others stay as they are. */
    method Pass(id: Id, f: Frame) returns (ok: bool)
      requires Valid() && id in weaves
      modifies this`weaves, weaves[id], weaves[id].rqueue
      ensures Valid() && ok == OnFrame(old(weaves[id].View()), f).ok
      ensures old(weaves)[id].View() == OnFrame(old(weaves[id].View()), f).core && old(weaves)[id].streamid == id
      ensures weaves == if OnFrame(old(weaves[id].View()), f).keep then old(weaves) else old(weaves) - {id}
      ensures forall i :: i in old(weaves) && i != id ==> old(weaves)[i].View() == old(weaves[i].View())
    {
      ghost var fibers := weaves;
      ok := weaves[id].SendFrame(f);
      forall i | i in fibers && i != id
        ensures fibers[i].View() == old(weaves[i].View()) && fibers[i].Valid()
      {
        assert fibers[i].rqueue.owner == fibers[i];
      }
    }

    /** A packet for a mapped stream. */
    method ToFiber(id: Id, f: Frame) returns (ok: bool)
      requires Valid() && id in weaves
      modifies this`weaves, weaves[id], weaves[id].rqueue
      ensures Valid()
      ensures var e := OnFrame(old(View()).cores[id], f);
              ok == e.ok && View() == Install(old(View()), id, e)
      ensures weaves == old(weaves) || weaves == old(weaves) - {id}
    {
      ghost var before := View();
      ghost var e := OnFrame(before.cores[id], f);
      ok := Pass(id, f);
      Silent(before, id, f);
      Others(before.cores, View().cores, id, e.keep, e.core);
    }

    /** A stream for a SYN, not yet in the map. */
    method NewStream(id: Id) returns (c: Conn)
      ensures fresh(c) && fresh(c.rqueue) && c.Valid() && c.View() == NewCore(SynRecv)
      ensures c.streamid == id && c.fab == this
    {
      c := new Conn(this, SynRecv);
      c.streamid := id;
    }

    /** The server's accept: a new stream under the id of its SYN, or an answer that the id is taken. Its
        error is that of the answer, so a stream comes back either way. */
    method AcceptSyn(id: Id) returns (c: Conn)
      requires Valid()
      modifies this`weaves, this`sent
      ensures Valid() && fresh(c) && fresh(c.rqueue) && c.View() == NewCore(SynRecv)
      ensures id !in old(weaves) ==> weaves == old(weaves)[id := c] && sent == old(sent)
      ensures id in old(weaves) ==> weaves == old(weaves) && sent == old(sent) + Labels(id, [Result(ERR_IDEXIST)])
    {
      c := NewStream(id);
      var put := PutIntoId(id, c);
      if !put {
        Send(id, Result(ERR_IDEXIST));
      }
    }

    /** The server's onSyn: a stream for the handler of a known network, a refusal for any other. The
        dispatch loop calls it only for an id that is free. */
    method OnSyn(handlers: set<string>, id: Id, network: string) returns (handled: Option<Conn>)
      requires Valid()
      modifies this`weaves, this`sent
      ensures Valid() && (handled.Some? <==> network in handlers)
      ensures id !in old(weaves) ==> View() == Route(true, handlers, old(View()), (id, Syn(network))).0
      ensures id in old(weaves) ==>
                View() == Fab(old(View()).cores, old(sent) + Labels(id, [Result(
                  if network in handlers then ERR_IDEXIST else ERR_UNKNOWN_PROTOCOL)]))
      ensures forall i :: i in weaves ==>
        (i in old(weaves) && weaves[i] == old(weaves)[i]) || (fresh(weaves[i]) && fresh(weaves[i].rqueue))
    {
      if network !in handlers {
        Send(id, Result(ERR_UNKNOWN_PROTOCOL));
        return None;
      }
      ghost var before := View();
      var c := AcceptSyn(id);
      assert id !in old(weaves) ==> View().cores == before.cores[id := NewCore(SynRecv)];
      handled := Some(c);
    }

    /** The default fiber: the server takes a SYN and fails on anything else, the client logs. */
    method ToDefault(server: bool, handlers: set<string>, id: Id, f: Frame) returns (ok: bool)
      requires Valid() && id !in weaves
      modifies this`weaves, this`sent
      ensures Valid()
      ensures (View(), ok) == Route(server, handlers, old(View()), (id, f))
      ensures ok <==> !server || f.Syn?
      ensures View() == if server && f.Syn? && f.network in handlers
                        then Fab(old(View()).cores[id := NewCore(SynRecv)], old(sent))
                        else Fab(old(View()).cores, old(sent) + if server && f.Syn?
                          then [(id, Result(ERR_UNKNOWN_PROTOCOL))] else [])
      ensures forall i :: i in weaves ==>
        (i in old(weaves) && weaves[i] == old(weaves)[i]) || (fresh(weaves[i]) && fresh(weaves[i].rqueue))
    {
      if !server {
        return true;
      }
      match f {
        case Syn(network) =>
          var handled := OnSyn(handlers, id, network);
          ok := true;
        case _ => ok := false;
      }
    }

    /** One round of Loop, with the server or the client as default fiber. */
    method Dispatch(server: bool, handlers: set<string>, p: Packet) returns (ok: bool)
      requires Valid()
      modifies this`weaves, this`sent
      modifies set id | id in weaves :: weaves[id], set id | id in weaves :: weaves[id].rqueue
      ensures Valid()
      ensures View() == Route(server, handlers, old(View()), p).0 && ok == Route(server, handlers, old(View()), p).1
      ensures forall i :: i in weaves ==>
        (i in old(weaves) && weaves[i] == old(weaves)[i]) || (fresh(weaves[i]) && fresh(weaves[i].rqueue))
    {
      if p.0 in weaves {
        ok := ToFiber(p.0, p.1);
      } else {
        ok := ToDefault(server, handlers, p.0, p.1);
      }
    }

    /** The rounds of Loop on the packets that come in before the socket fails. */
    method Rounds(server: bool, handlers: set<string>, packets: seq<Packet>)
      returns (taken: nat, ok: bool, ghost fabs: seq<Fab>)
      requires Valid()
      modifies this`weaves, this`sent
      modifies set id | id in weaves :: weaves[id], set id | id in weaves :: weaves[id].rqueue
      ensures Valid() && Routed(server, handlers, packets, fabs, ok)
      ensures |fabs| == taken + 1 && fabs[0] == old(View()) && fabs[taken] == View()
      ensures if ok then taken == |packets| else taken > 0
      ensures forall i :: i in weaves ==>
        (i in old(weaves) && weaves[i] == old(weaves)[i]) || (fresh(weaves[i]) && fresh(weaves[i].rqueue))
    {
      taken, ok, fabs := 0, true, [View()];
      while ok && taken < |packets|
        invariant Valid() && Routed(server, handlers, packets, fabs, ok)
        invariant |fabs| == taken + 1 && fabs[0] == old(View()) && fabs[taken] == View()
        invariant ok || taken > 0
        invariant forall i :: i in weaves ==>
          (i in old(weaves) && weaves[i] == old(weaves)[i]) || (fresh(weaves[i]) && fresh(weaves[i].rqueue))
        decreases |packets| - taken
      {
        ok, fabs := Next(server, handlers, packets, taken, fabs);
        taken := taken + 1;
      }
    }

    /** One round, behind those that went through these fabrics. */
    method Next(server: bool, handlers: set<string>, packets: seq<Packet>, taken: nat, ghost before: seq<Fab>)
      returns (ok: bool, ghost fabs: seq<Fab>)
      requires Valid() && taken < |packets| && Routed(server, handlers, packets, before, true)
      requires |before| == taken + 1 && before[taken] == View()
      modifies this`weaves, this`sent
      modifies set id | id in weaves :: weaves[id], set id | id in weaves :: weaves[id].rqueue
      ensures Valid() && fabs == before + [View()] && Routed(server, handlers, packets, fabs, ok)
      ensures forall i :: i in weaves ==>
        (i in old(weaves) && weaves[i] == old(weaves)[i]) || (fresh(weaves[i]) && fresh(weaves[i].rqueue))
    {
      RoutedNext(server, handlers, packets, before);
      ok := Dispatch(server, handlers, packets[taken]);
      fabs := before + [View()];
    }

    /** Loop: route packets until one fails or the socket does, then close the fabric. It goes through
        these fabrics, and starts a reset for each stream that is left, unless the fabric was closed before. */
    method Loop(server: bool, handlers: set<string>, packets: seq<Packet>)
      returns (taken: nat, ok: bool, started: map<Id, Conn>, ghost fabs: seq<Fab>)
      requires Valid()
      modifies this`weaves, this`sent, this`closed
      modifies set id | id in weaves :: weaves[id], set id | id in weaves :: weaves[id].rqueue
      ensures Valid() && closed && started == if old(closed) then map[] else weaves
      ensures taken <= |packets| && if ok then taken == |packets| else taken > 0
      ensures |fabs| == taken + 1 && fabs[0] == old(View()) && fabs[taken] == View()
      ensures forall i :: 0 <= i < taken ==>
        Route(server, handlers, fabs[i], packets[i]) == (fabs[i + 1], i + 1 < taken || ok)
      ensures forall i :: i in weaves ==>
        (i in old(weaves) && weaves[i] == old(weaves)[i]) || (fresh(weaves[i]) && fresh(weaves[i].rqueue))
    {
      taken, ok, fabs := Rounds(server, handlers, packets);
      started := Close();
    }

    /** The streams of a map, in any order. */
    method Spread(streams: map<Id, Conn>) returns (order: seq<Conn>)
      ensures forall c :: c in order <==> c in streams.Values
    {
      order := [];
      var todo := streams.Keys;
      while todo != {}
        invariant todo <= streams.Keys
        invariant forall c :: c in order <==> exists id :: id in streams && id !in todo && streams[id] == c
        decreases todo
      {
        var id :| id in todo;
        order, todo := order + [streams[id]], todo - {id};
      }
    }

    /** Loop and the resets that its Close starts, in any order, while other streams may finish by
        themselves: each stream that is left when the loop ends is finished, and none is mapped any more. */
    method Serve(server: bool, handlers: set<string>, packets: seq<Packet>, gone: nat -> set<Id>)
      returns (taken: nat, ok: bool, started: map<Id, Conn>, ghost fabs: seq<Fab>)
      requires Valid()
      modifies this`weaves, this`sent, this`closed
      modifies set id | id in weaves :: weaves[id], set id | id in weaves :: weaves[id].rqueue
      ensures closed && |fabs| == taken + 1 && fabs[0] == old(View())
      ensures taken <= |packets| && if ok then taken == |packets| else taken > 0
      ensures forall i :: 0 <= i < taken ==>
        Route(server, handlers, fabs[i], packets[i]) == (fabs[i + 1], i + 1 < taken || ok)
      ensures !old(closed) ==> weaves == map[] && started.Keys == fabs[taken].cores.Keys
      ensures forall id :: id in started ==> started[id].status == Unknown && started[id].rqueue.closed
      ensures old(closed) ==> started == map[]
    {
      taken, ok, started, fabs := Loop(server, handlers, packets);
      if started != map[] {
        var order := Spread(started);
        forall c | c in order
          ensures (exists id :: id in old(weaves) && old(weaves)[id] == c) || (fresh(c) && fresh(c.rqueue))
        {
          var id :| id in started && started[id] == c;
          assert weaves[id] == c;
        }
        ghost var maps := TearDown(started, order, seq(|order|, gone));
      }
    }

    /** Client.Dial: a new stream under the next free id, and the answer that Connect gets, which is that of
        the server or, for want of one, a timeout. A refusal frees the id and is no error; an error is
        only that no id is free. */
    method Dial(network: string, errno: nat) returns (c: Conn, ok: bool)
      requires Valid()
      modifies this`weaves, this`nextId, this`sent
      ensures Valid() && fresh(c)
      ensures ok == FirstFree(old(weaves).Keys, old(nextId), 0).Some?
      ensures ok ==>
                && FirstFree(old(weaves).Keys, old(nextId), 0) == Some(c.streamid)
                && sent == old(sent) + Labels(c.streamid, [Syn(network)])
                && c.View() == NewCore(if errno == ERR_NONE then Est else SynSent)
                && weaves == if errno == ERR_NONE then old(weaves)[c.streamid := c] else old(weaves)
      ensures !ok ==> weaves == old(weaves) && nextId == old(nextId) && sent == old(sent)
    {
      c, ok := Call(network);
      if ok {
        var taken := Pass(c.streamid, Result(errno));
      }
    }

    /** Client.Dial up to the SYN. */
    method Call(network: string) returns (c: Conn, ok: bool)
      requires Valid()
      modifies this`weaves, this`nextId, this`sent
      ensures Valid() && fresh(c)
      ensures ok == FirstFree(old(weaves).Keys, old(nextId), 0).Some?
      ensures ok ==>
                && FirstFree(old(weaves).Keys, old(nextId), 0) == Some(c.streamid)
                && weaves == old(weaves)[c.streamid := c] && c.View() == NewCore(SynSent) && c.fab == this
                && c.streamid !in old(weaves) && fresh(c.rqueue) && sent == old(sent) + Labels(c.streamid, [Syn(network)])
      ensures !ok ==> weaves == old(weaves) && nextId == old(nextId) && sent == old(sent)
    {
      c := new Conn(this, Unknown);
      var id;
      id, ok := PutIntoNextId(c);
      if ok {
        c.streamid := id;
        ok := c.Connect(network);
      }
    }

    /** The resets that Close has started, in any order. Other streams may have finished by themselves
        before it, and may do so before each reset: `gone` says which. The maps in between show that
        a reset removes the entry of its own stream and no other. */
    method TearDown(started: map<Id, Conn>, order: seq<Conn>, gone: seq<set<Id>>) returns (ghost maps: seq<map<Id, Conn>>)
      requires forall c :: c in order <==> c in started.Values
      requires forall id :: id in started ==> started[id].streamid == id && started[id].fab == this
      requires forall id :: id in weaves ==> id in started && weaves[id] == started[id]
      requires |gone| == |order|
      modifies this`weaves, (set c | c in order)`status, (set c | c in order :: c.rqueue)`closed
      ensures weaves == map[]
      ensures forall c :: c in order ==> c.status == Unknown && c.rqueue.closed
      ensures |maps| == |order| + 1 && maps[0] == old(weaves) && maps[|order|] == weaves
      ensures forall i :: 0 <= i < |order| ==> maps[i + 1] == maps[i] - gone[i] - {order[i].streamid}
    {
      forall j | 0 <= j < |order|
        ensures order[j].fab == this
      {
        assert order[j] in started.Values;
      }
      maps := [weaves];
      ghost var ids := seq(|order|, i requires 0 <= i < |order| reads order => order[i].streamid);
      for i := 0 to |order|
        invariant forall j :: 0 <= j < |order| ==> order[j].fab == this
        invariant forall id :: id in weaves ==> id in started && weaves[id] == started[id] && weaves[id] in order[i..]
        invariant forall j :: 0 <= j < i ==> order[j].status == Unknown && order[j].rqueue.closed
        invariant Trail(maps, gone, ids, i) && maps[0] == old(weaves) && maps[i] == weaves
      {
        assert order[i..] == [order[i]] + order[i + 1..];
        TrailNext(maps, gone, ids, i);
        weaves := weaves - gone[i];
        order[i].CloseFiber();
        maps := maps + [maps[i] - gone[i] - {ids[i]}];
      }
    }
  }

  /** The first i steps of a row of maps: each loses what is gone, and one entry more. */
  predicate Trail(maps: seq<map<Id, Conn>>, gone: seq<set<Id>>, ids: seq<Id>, i: nat) {
    && |maps| == i + 1 && i <= |gone| && i <= |ids|
    && forall j :: 0 <= j < i ==> maps[j + 1] == maps[j] - gone[j] - {ids[j]}
  }

  lemma TrailNext(maps: seq<map<Id, Conn>>, gone: seq<set<Id>>, ids: seq<Id>, i: nat)
    requires Trail(maps, gone, ids, i) && i < |gone| && i < |ids|
    ensures Trail(maps + [maps[i] - gone[i] - {ids[i]}], gone, ids, i + 1)
  {
  }
}
