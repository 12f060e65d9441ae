/**
 What two of the assumptions of an orderly run are for. Each part takes one of them away, lets the
 code do what it then can, from every state with the right streams in it, and says exactly
 when that fails; and it shows that an orderly run leads to such a state.
 */
module Necessity {
  import opened Prelude
  import opened StreamCore
  import opened IdPool
  import opened Link
  import opened Tunnel
  import opened TunnelSafety
  import opened TunnelTheorems
  import opened Progress
  import LinkSafety

  // ---------- runs that open a stream ----------

  lemma ReachableStep(s: State, step: Step)
    requires Reachable(s) && Ready(s, step)
    ensures Reachable(Apply(s, step))
  {
    ExecOne(s, step);
    ReachableExec(s, [step]);
  }

  /** One stream, under id 0, with an end of this kind on each side and nothing in the wires. */
  function OneStream(handlers: set<string>, client: Half, server: Half): State {
    State(Endpoint(map[0 := 0], map[0 := Conn(0, client)], false),
          Endpoint(map[0 := 0], map[0 := Conn(0, server)], false), [], [], 2, 1, handlers)
  }

  /** The first dial, up to the arrival of its SYN. */
  lemma FirstDial(handlers: set<string>, network: string)
    requires network in handlers
    ensures Reachable(OneStream(handlers, NewHalf(SynSent), NewHalf(SynRecv)))
  {
    var s0 := Init(handlers);
    assert Orderly(s0, []) && Exec(s0, []) == s0;
    ReachableStep(s0, Register);
    var client := Endpoint(map[0 := 0], map[0 := Conn(0, NewHalf(Unknown))], false);
    var s1 := s0.(client := client, nextId := 2, nextTag := 1);
    assert FirstFree({}, 0, 0) == Some(0);
    assert s0.client.weaves.Keys == {};
    assert Apply(s0, Register) == s1;
    var dial := Move(Client, 0, DoConnect(network));
    ReachableStep(s1, dial);
    var dialing := Endpoint(map[0 := 0], map[0 := Conn(0, NewHalf(SynSent))], false);
    assert client.conns[0 := Conn(0, NewHalf(SynSent))] == dialing.conns;
    var s2 := s1.(client := dialing, cs := [Item(0, 0, Syn(network))]);
    assert Apply(s1, dial) == s2;
    ReachableStep(s2, Arrive(Server));
    assert Apply(s2, Arrive(Server)) == OneStream(handlers, NewHalf(SynSent), NewHalf(SynRecv));
  }

  /** The server has accepted it, and the client has not heard. */
  function ResultUnderway(handlers: set<string>): State {
    OneStream(handlers, NewHalf(SynSent), NewHalf(Est)).(sc := [Item(0, 0, Result(ERR_NONE))])
  }

  lemma ServerAccepts(handlers: set<string>, network: string)
    requires network in handlers
    ensures Reachable(ResultUnderway(handlers))
  {
    FirstDial(handlers, network);
    var s3 := OneStream(handlers, NewHalf(SynSent), NewHalf(SynRecv));
    var accept := Move(Server, 0, DoAccept);
    ReachableStep(s3, accept);
    assert s3.server.conns[0 := Conn(0, NewHalf(Est))] == ResultUnderway(handlers).server.conns;
    assert Apply(s3, accept) == ResultUnderway(handlers);
  }

  /** An open stream that no byte has touched. */
  lemma OpenStream(handlers: set<string>, network: string)
    requires network in handlers
    ensures Reachable(OneStream(handlers, NewHalf(Est), NewHalf(Est)))
  {
    ServerAccepts(handlers, network);
    var s4, s5 := ResultUnderway(handlers), OneStream(handlers, NewHalf(Est), NewHalf(Est));
    ReachableStep(s4, Arrive(Client));
    assert s4.client.conns[0 := Conn(0, NewHalf(Est))] == s5.client.conns;
    assert Apply(s4, Arrive(Client)) == s5;
  }

  // ---------- closeWrite is atomic ----------

  /** closeWrite of the client's stream t up to its call of Final: the id is free, FIN not sent. */
  function Finalized(s: State, t: nat): State
    requires t in s.client.conns
  {
    var h := s.client.conns[t].half;
    var e := CloseWrite(h.core);
    s.(client := Settle(s.client, t, HalfEffect(h.(core := e.core), e.keep, [], e.ok)))
  }

  /** The rest of it. */
  function FinSentNow(s: State, t: nat): State
    requires t in s.client.conns
  {
    s.(cs := s.cs + [Item(s.client.conns[t].streamid, t, Fin)])
  }

  /** The client's stream t has received FIN and may be closed. */
  predicate MayClose(s: State, t: nat) {
    && s.cs == [] && Mapped(s.client, t)
    && s.client.conns[t].half.core.status == FinRecv && s.client.conns[t].half.pending.None?
  }

  /** The id that a dial gets once the id of stream t is free. */
  function NextDial(s: State, t: nat): Option<Id>
    requires t in s.client.conns
  {
    FirstFree(s.client.weaves.Keys - {s.client.conns[t].streamid}, s.nextId, 0)
  }

  /** While the client has not sent FIN the server holds the stream. */
  lemma ServerHolds(s: State, t: nat)
    requires Inv(s) && Mapped(s.client, t) && s.client.conns[t].half.core.status == FinRecv
    ensures Mapped(s.server, t) && s.server.conns[t].streamid == s.client.conns[t].streamid
    ensures t < s.nextTag
  {
    assert LinkInv(View(s, t));
    assert Opened(View(s, t));
  }

  /** The dial that comes between. */
  lemma DialBetween(s: State, t: nat, network: string)
    requires Inv(s) && MayClose(s, t) && NextDial(s, t).Some?
    ensures var s1 := Finalized(s, t);
            Ready(s1, Register) &&
            var s2 := Apply(s1, Register);
            var dial := Move(Client, s.nextTag, DoConnect(network));
            Ready(s2, dial) &&
            var s3 := Apply(s2, dial);
            && s3.cs == [Item(NextDial(s, t).value, s.nextTag, Syn(network))]
            && s3.server == s.server && s3.handlers == s.handlers && !s3.client.halted
            && t in s3.client.conns
  {
    var id, got := s.client.conns[t].streamid, NextDial(s, t).value;
    var s1 := Finalized(s, t);
    assert s1.client.weaves.Keys == s.client.weaves.Keys - {id};
    var s2 := Apply(s1, Register);
    ServerHolds(s, t);
    assert s2.client.weaves[got] == s.nextTag && s2.client.conns[s.nextTag] == Conn(got, NewHalf(Unknown));
    assert s2.cs + Stamp(got, s.nextTag, [Syn(network)]) == [Item(got, s.nextTag, Syn(network))];
  }

  /** An id that the client does not hold, with nothing under way, is free at the server. */
  lemma FreeAtBoth(s: State, id: Id)
    requires Inv(s) && s.cs == [] && id !in s.client.weaves
    ensures id !in s.server.weaves
  {
    if id in s.server.weaves {
      var p := StaleFin(s, s.server.weaves[id]);
    }
  }

  /** A dial comes between Final and the FIN of a closeWrite. Its SYN goes out first, and stops the
      server's loop if and only if the dial gets the id that Final freed. */
  lemma OvertakingSynHalts(s: State, t: nat, network: string)
    requires Inv(s) && MayClose(s, t) && NextDial(s, t).Some?
    ensures var s1 := Finalized(s, t);
            Ready(s1, Register) &&
            var s2 := Apply(s1, Register);
            var dial := Move(Client, s.nextTag, DoConnect(network));
            Ready(s2, dial) && t in Apply(s2, dial).client.conns &&
            var s4 := FinSentNow(Apply(s2, dial), t);
            && Ready(s4, Arrive(Server))
            && (Apply(s4, Arrive(Server)).server.halted <==> NextDial(s, t) == Some(s.client.conns[t].streamid))
  {
    DialBetween(s, t, network);
    ServerHolds(s, t);
    if NextDial(s, t) != Some(s.client.conns[t].streamid) {
      FreeAtBoth(s, NextDial(s, t).value);
    }
  }

  /** Client and server of a stream that the server has closed. */
  function HalfClosed(handlers: set<string>): State {
    OneStream(handlers, Half(Core(FinRecv, true, None, [], true, WINDOWSIZE), Idle, None, [], []),
              Half(Core(FinSent, true, None, [], false, WINDOWSIZE), Idle, None, [], []))
  }

  lemma ServerCloses(handlers: set<string>, network: string)
    requires network in handlers
    ensures Reachable(HalfClosed(handlers))
  {
    OpenStream(handlers, network);
    var s5, end := OneStream(handlers, NewHalf(Est), NewHalf(Est)), HalfClosed(handlers);
    var close := Move(Server, 0, DoClose);
    ReachableStep(s5, close);
    var s6 := s5.(server := end.server, sc := [Item(0, 0, Fin)]);
    assert s5.server.conns[0 := end.server.conns[0]] == end.server.conns;
    assert Apply(s5, close) == s6;
    ReachableStep(s6, Arrive(Client));
    assert s6.client.conns[0 := end.client.conns[0]] == end.client.conns;
    assert Apply(s6, Arrive(Client)) == end;
  }

  /** m more dials have taken ids, in order, and none of them is connected yet. */
  predicate Dialed(s: State, handlers: set<string>, m: nat) {
    && m < HALF_SPACE && s.nextId == (2 + 2 * m) % ID_SPACE && s.nextTag == 1 + m
    && s.cs == [] && !s.client.halted && !s.server.halted
    && Mapped(s.client, 0) && s.client.conns[0] == HalfClosed(handlers).client.conns[0]
    && forall id :: id in s.client.weaves ==> id < 2 + 2 * m
  }

  lemma DialOne(s: State, handlers: set<string>, m: nat)
    requires Dialed(s, handlers, m) && m < HALF_SPACE - 1
    ensures Ready(s, Register) && Dialed(Apply(s, Register), handlers, m + 1)
  {
    assert s.nextId == 2 + 2 * m;
    NextIsFree(s.client.weaves.Keys, s.nextId);
    assert (s.nextId + 2) % ID_SPACE == (2 + 2 * (m + 1)) % ID_SPACE;
  }

  lemma NextIsFree(used: set<Id>, next: Id)
    requires next !in used
    ensures FirstFree(used, next, 0) == Some(next)
  {
    CandidateFacts(next, 0);
  }

  lemma {:induction false} DialOn(s: State, handlers: set<string>, m: nat) returns (r: State)
    requires Reachable(s) && Dialed(s, handlers, m)
    ensures Reachable(r) && Dialed(r, handlers, HALF_SPACE - 1)
    decreases HALF_SPACE - m
  {
    if m == HALF_SPACE - 1 {
      r := s;
    } else {
      DialOne(s, handlers, m);
      ReachableStep(s, Register);
      r := DialOn(Apply(s, Register), handlers, m + 1);
    }
  }

  /** A run leads there: a stream that the server closes, then dials until the ids come round. */
  lemma OvertakingIsPossible(handlers: set<string>, network: string) returns (s: State)
    requires network in handlers
    ensures Reachable(s) && Inv(s) && MayClose(s, 0) && NextDial(s, 0) == Some(s.client.conns[0].streamid)
  {
    ServerCloses(handlers, network);
    s := DialOn(HalfClosed(handlers), handlers, 0);
    ReachableInv(s);
    assert s.nextId == 0;
    NextIsFree(s.client.weaves.Keys - {0}, 0);
  }

  // ---------- a stream is closed by its writer ----------

  /** Close of stream t at `side` by another goroutine than its writer. */
  function ClosedByOther(s: State, side: Side, t: nat): State
    requires t in At(s, side).conns
  {
    var e := At(s, side);
    var h := e.conns[t].half;
    var eff := Lift(h, CloseWrite(h.core));
    Become(s, side, Settle(e, t, eff), 0, Stamp(e.conns[t].streamid, t, eff.out))
  }

  /** A slice of stream t at `side` has waited for window, and could be sent now. */
  predicate Woken(s: State, side: Side, t: nat) {
    && Inbox(s, Peer(side)) == [] && Mapped(At(s, side), t)
    && var h := At(s, side).conns[t].half;
       h.core.status in {Est, FinRecv} && h.pending.Some? && |h.pending.value| <= h.core.window
  }

  /** The peer holds the stream, and has all that was written. */
  lemma WokenPeer(s: State, side: Side, t: nat)
    requires Inv(s) && Woken(s, side, t)
    ensures Mapped(At(s, Peer(side)), t)
    ensures At(s, Peer(side)).conns[t].streamid == At(s, side).conns[t].streamid
    ensures var x, y := At(s, side).conns[t].half, At(s, Peer(side)).conns[t].half;
            y.core.status in {Est, FinSent} && x.written == y.taken + Unread(y.core)
  {
    var l := View(s, t);
    assert LinkInv(l) && Opened(l);
    assert DataOf(Outgoing(l, side)) == [];
    assert Way(End(l, side).value, End(l, Peer(side)).value, Outgoing(l, side), Incoming(l, side));
  }

  /** The close and the late write: FIN, and DATA behind it. */
  lemma LateWrite(s: State, side: Side, t: nat)
    requires Inv(s) && Woken(s, side, t)
    ensures var s1 := ClosedByOther(s, side, t);
            Ready(s1, Move(side, t, FinishWrite)) &&
            var s2 := Apply(s1, Move(side, t, FinishWrite));
            var c := At(s, side).conns[t];
            && Inbox(s2, Peer(side)) == [Item(c.streamid, t, Fin), Item(c.streamid, t, Data(c.half.pending.value))]
            && At(s2, Peer(side)) == At(s, Peer(side)) && s2.handlers == s.handlers && !At(s2, side).halted
            && t in At(s2, side).conns && At(s2, side).conns[t].half.written == c.half.written + c.half.pending.value
  {
    var c := At(s, side).conns[t];
    assert Stamp(c.streamid, t, [Fin]) == [Item(c.streamid, t, Fin)];
    assert Stamp(c.streamid, t, [Data(c.half.pending.value)]) == [Item(c.streamid, t, Data(c.half.pending.value))];
  }

  /** FIN and then DATA at an end that has not received FIN: the FIN closes its queue, and the DATA is
      dropped or, if the FIN has freed the id, goes to the default fiber. */
  lemma FinThenData(s: State, at: Side, id: Id, t: nat, chunk: Bytes)
    requires !s.client.halted && !s.server.halted && Inbox(s, at) == [Item(id, t, Fin), Item(id, t, Data(chunk))]
    requires Mapped(At(s, at), t) && At(s, at).conns[t].streamid == id
    requires At(s, at).conns[t].half.core.status in {Est, FinSent}
    ensures Ready(s, Arrive(at)) && !At(Apply(s, Arrive(at)), at).halted
    ensures var s1 := Apply(s, Arrive(at));
            Ready(s1, Arrive(at)) &&
            var s2, h := Apply(s1, Arrive(at)), At(s, at).conns[t].half;
            && (At(s2, at).halted <==> at.Server? && h.core.status == FinSent)
            && Inbox(s2, at) == [] && At(s2, Peer(at)) == At(s, Peer(at))
            && t in At(s2, at).conns
            && var h2 := At(s2, at).conns[t].half;
               h2.core.closed && h2.taken == h.taken && Unread(h2.core) == Unread(h.core)
  {
    var s1 := Apply(s, Arrive(at));
    assert Inbox(s1, at) == [Item(id, t, Data(chunk))];
    assert id in At(s1, at).weaves <==> At(s, at).conns[t].half.core.status == Est;
  }

  /** If another goroutine closes the stream before the writer wakes, the slice is sent all the same,
      behind the FIN. It stops the receiving loop if and only if that is the server's and the
      server has closed its side too; and a slice that is not empty is lost in every case. */
  lemma WriteAcrossClose(s: State, side: Side, t: nat)
    requires Inv(s) && Woken(s, side, t)
    ensures var s1 := ClosedByOther(s, side, t);
            var write, arrive := Move(side, t, FinishWrite), Arrive(Peer(side));
            Ready(s1, write) &&
            var s2 := Apply(s1, write);
            Ready(s2, arrive) && !At(Apply(s2, arrive), Peer(side)).halted &&
            var s3 := Apply(s2, arrive);
            Ready(s3, arrive) &&
            var s4 := Apply(s3, arrive);
            && t in At(s, Peer(side)).conns && t in At(s4, side).conns && t in At(s4, Peer(side)).conns
            && (At(s4, Peer(side)).halted <==>
                  side.Client? && At(s, Peer(side)).conns[t].half.core.status == FinSent)
            && var x, y := At(s4, side).conns[t].half, At(s4, Peer(side)).conns[t].half;
               && Inbox(s4, Peer(side)) == [] && y.core.closed
               && x.written == y.taken + Unread(y.core) + At(s, side).conns[t].half.pending.value
  {
    WokenPeer(s, side, t);
    LateWrite(s, side, t);
    var c := At(s, side).conns[t];
    var s2 := Apply(ClosedByOther(s, side, t), Move(side, t, FinishWrite));
    FinThenData(s2, Peer(side), c.streamid, t, c.half.pending.value);
  }

  /** The client of an open stream has sent m full chunks, and the server has done nothing. */
  predicate Written(s: State, m: nat) {
    && !s.client.halted && !s.server.halted
    && Mapped(s.client, 0) && 0 in s.server.conns && s.server.conns[0].half == NewHalf(Est) && s.sc == []
    && var h := s.client.conns[0].half;
       && h.core.status == Est && h.pending.None?
       && m * BUFFERSIZE <= WINDOWSIZE && h.core.window == WINDOWSIZE - m * BUFFERSIZE
  }

  /** The client's stream 0 goes to half h, and the server stays as it is. */
  predicate ClientGoes(s: State, s': State, h: Half) {
    && Mapped(s'.client, 0) && s'.client.conns[0].half == h && !s'.client.halted
    && s'.server == s.server && s'.sc == s.sc
  }

  lemma ClientMoves(s: State, a: Act)
    requires !s.client.halted && !s.server.halted && Mapped(s.client, 0) && Can(s.client.conns[0].half, true, a)
    requires Do(s.client.conns[0].half, true, a).keep
    ensures Ready(s, Move(Client, 0, a))
    ensures ClientGoes(s, Apply(s, Move(Client, 0, a)), Do(s.client.conns[0].half, true, a).half)
  {
  }

  lemma WriteOne(s: State, m: nat, chunk: Bytes) returns (r: State)
    requires Reachable(s) && Written(s, m) && m < 512 && |chunk| == BUFFERSIZE
    ensures Reachable(r) && Written(r, m + 1)
  {
    ClientMoves(s, BeginWrite(chunk));
    ReachableStep(s, Move(Client, 0, BeginWrite(chunk)));
    var s1 := Apply(s, Move(Client, 0, BeginWrite(chunk)));
    ClientMoves(s1, FinishWrite);
    ReachableStep(s1, Move(Client, 0, FinishWrite));
    r := Apply(s1, Move(Client, 0, FinishWrite));
  }

  lemma {:induction false} WriteOn(s: State, m: nat) returns (r: State)
    requires Reachable(s) && Written(s, m) && m <= 512
    ensures Reachable(r) && Written(r, 512)
    decreases 512 - m
  {
    if m == 512 {
      r := s;
    } else {
      var s1 := WriteOne(s, m, seq(BUFFERSIZE, _ => 0));
      r := WriteOn(s1, m + 1);
    }
  }

  /** A run in which a slice has to wait for window. */
  lemma WriterParks(handlers: set<string>, network: string) returns (s: State)
    requires network in handlers
    ensures Reachable(s) && !Ready(s, Move(Client, 0, FinishWrite))
    ensures 0 in s.client.conns && s.client.conns[0].half.pending == Some([0])
    ensures 0 in s.server.conns && s.server.conns[0].half == NewHalf(Est) && s.sc == []
  {
    OpenStream(handlers, network);
    var full := WriteOn(OneStream(handlers, NewHalf(Est), NewHalf(Est)), 0);
    ReachableStep(full, Move(Client, 0, BeginWrite([0])));
    s := Apply(full, Move(Client, 0, BeginWrite([0])));
  }

  /** From there, a run that credits the window and lets the server close. */
  lemma WriterWakes(p: State) returns (open: State, s: State)
    requires Reachable(p) && 0 in p.client.conns && p.client.conns[0].half.pending == Some([0])
    requires 0 in p.server.conns && p.server.conns[0].half == NewHalf(Est)
    ensures Reachable(open) && Inv(open) && Woken(open, Client, 0) && open.client.conns[0].half.pending == Some([0])
    ensures 0 in open.server.conns && open.server.conns[0].half.core.status == Est
    ensures Reachable(s) && Inv(s) && Woken(s, Client, 0) && s.client.conns[0].half.pending == Some([0])
    ensures 0 in s.server.conns && s.server.conns[0].half.core.status == FinSent
  {
    ReachableInv(p);
    WriterIsOpen(View(p, 0), Client);
    var drain := Drain(p, 0, Client);
    ReachableExec(p, drain);
    var s1 := Exec(p, drain);
    FlushedMeansWhole(View(s1, 0), Client);
    open := FlushToServer(s1);
    var s2 := CloseServer(s1);
    s := FlushToClient(s2);
  }

  lemma FlushToServer(s: State) returns (r: State)
    requires Reachable(s) && Inv(s) && Live(View(s, 0)) && End(View(s, 0), Server).value.core.status == Est
    requires End(View(s, 0), Client).value.pending == Some([0]) && End(View(s, 0), Client).value.core.window >= 1
    ensures Reachable(r) && Inv(r) && Woken(r, Client, 0) && r.client.conns[0].half.pending == Some([0])
    ensures 0 in r.server.conns && r.server.conns[0].half.core.status == Est
  {
    WriterIsOpen(View(s, 0), Client);
    var up := DeliverAll(s, Server, 0);
    ReachableExec(s, up);
    r := Exec(s, up);
    WriterIsOpen(View(r, 0), Client);
  }

  lemma LinkCloses(handlers: set<string>, l: Link)
    requires Enabled(l, Local(Server, DoClose)) && l.s.value.core.status == Est
    ensures var l' := Next(handlers, l, Local(Server, DoClose)).0;
            l'.c == l.c && l'.s.Some? && FinWasSent(l'.s.value.core.status) && l'.sc == l.sc + [Fin]
  {
  }

  lemma CloseServer(s: State) returns (r: State)
    requires Reachable(s) && Inv(s) && Live(View(s, 0))
    requires End(View(s, 0), Server).value.core.status == Est && End(View(s, 0), Server).value.pending.None?
    ensures Reachable(r) && Inv(r) && Live(View(r, 0))
    ensures End(View(r, 0), Client) == End(View(s, 0), Client)
    ensures FinWasSent(End(View(r, 0), Server).value.core.status) && View(r, 0).sc == View(s, 0).sc + [Fin]
  {
    var close := Move(Server, 0, DoClose);
    assert Ready(s, close);
    ReachableStep(s, close);
    r := Apply(s, close);
    MoveView(s, Server, 0, DoClose, 0);
    LinkCloses(s.handlers, View(s, 0));
    ReachableInv(r);
    ClosedIsLive(View(r, 0), Server);
  }

  lemma FlushToClient(s: State) returns (r: State)
    requires Reachable(s) && Inv(s) && Live(View(s, 0)) && FinWasSent(End(View(s, 0), Server).value.core.status)
    requires End(View(s, 0), Client).value.pending == Some([0]) && End(View(s, 0), Client).value.core.window >= 1
    ensures Reachable(r) && Inv(r) && Woken(r, Client, 0) && r.client.conns[0].half.pending == Some([0])
    ensures 0 in r.server.conns && r.server.conns[0].half.core.status == FinSent
  {
    var up := DeliverAll(s, Server, 0);
    ReachableExec(s, up);
    var s1 := Exec(s, up);
    var down := DeliverAll(s1, Client, 0);
    ReachableExec(s1, down);
    r := Exec(s1, down);
    FlushedMeansClosed(View(r, 0), Client);
    WriterIsOpen(View(r, 0), Client);
    assert Opened(View(r, 0));
    WokenPeer(r, Client, 0);
    assert FinWasSent(End(View(s1, 0), Server).value.core.status);
  }

  /** Runs lead there: the writer fills the window and has to wait; then the server reads and credits,
      and in the one run closes, in the other not. */
  lemma WriteAcrossCloseIsPossible(handlers: set<string>, network: string)
    returns (parked: State, open: State, closed: State)
    requires network in handlers
    ensures Reachable(parked) && !Ready(parked, Move(Client, 0, FinishWrite))
    ensures 0 in parked.client.conns && parked.client.conns[0].half.pending == Some([0])
    ensures Reachable(open) && Inv(open) && Woken(open, Client, 0) && open.client.conns[0].half.pending == Some([0])
    ensures 0 in open.server.conns && open.server.conns[0].half.core.status == Est
    ensures Reachable(closed) && Inv(closed) && Woken(closed, Client, 0) && closed.client.conns[0].half.pending == Some([0])
    ensures 0 in closed.server.conns && closed.server.conns[0].half.core.status == FinSent
  {
    parked := WriterParks(handlers, network);
    open, closed := WriterWakes(parked);
  }
}
