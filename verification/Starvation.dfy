/**
 When a writer that waits for window is released. An end that has closed credits nothing of what
 it still reads, so a writer whose peer has closed has only the window it holds and the credit
 that is under way. If these fall short of its slice it waits in every continuation; in every
 other case there is a run that releases it.
 */
module Starvation {
  import opened Prelude
  import opened StreamCore
  import opened Link
  import opened Tunnel
  import opened TunnelSafety
  import opened TunnelTheorems
  import opened Progress
  import opened Necessity
  import LinkSafety

  /** The peer may still credit, or what it has credited is enough. */
  predicate Releasable(l: Link, side: Side)
    requires l.c.Some? && l.s.Some? && End(l, side).value.pending.Some?
  {
    || !FinWasSent(End(l, Peer(side)).value.core.status)
    || Credit(l, side) >= |End(l, side).value.pending.value|
  }

  predicate Starved(l: Link, side: Side) {
    && Live(l) && End(l, side).value.pending.Some? && !Releasable(l, side)
  }

  // ---------- a starved writer stays so ----------

  /** It cannot send, and cannot close. */
  lemma StarvedWaits(l: Link, side: Side)
    requires Starved(l, side)
    ensures On(l, side)
    ensures !Enabled(l, Local(side, FinishWrite)) && !Enabled(l, Local(side, DoClose))
  {
    WriterIsOpen(l, side);
  }

  /** What it can do is read. */
  lemma StarvedActs(l: Link, side: Side, a: Act)
    requires Starved(l, side) && Enabled(l, Local(side, a))
    ensures ReaderAct(a)
  {
    StarvedWaits(l, side);
    WriterIsOpen(l, side);
  }

  lemma StarvedLive(handlers: set<string>, l: Link, side: Side, a: Act)
    requires Live(l) && Enabled(l, Local(side, a))
    ensures Live(Next(handlers, l, Local(side, a)).0)
  {
    assert Next(handlers, l, Local(side, a)) == Next({}, l, Local(side, a));
    if Opened(l) {
      LinkSafety.OpenedLocal(l, side, a);
    } else {
      LinkSafety.AcceptedLocal(l, side, a);
    }
  }

  lemma StarvedReads(handlers: set<string>, l: Link, side: Side, a: Act)
    requires Starved(l, side) && Enabled(l, Local(side, a))
    ensures Starved(Next(handlers, l, Local(side, a)).0, side)
  {
    StarvedActs(l, side, a);
    StarvedLive(handlers, l, side, a);
    ReaderActsOn(handlers, l, side, a);
  }

  /** A step of the peer leaves the writer alone, but for what it sends. */
  lemma PeerActs(handlers: set<string>, l: Link, side: Side, a: Act)
    requires Enabled(l, Local(Peer(side), a))
    ensures var l' := Next(handlers, l, Local(Peer(side), a)).0;
            && End(l', side) == End(l, side)
            && Incoming(l', side) == Incoming(l, side) + LinkSafety.Sends(handlers, l, Local(Peer(side), a), Peer(side))
  {
  }

  lemma StarvedAlone(handlers: set<string>, l: Link, side: Side, a: Act)
    requires Starved(l, side) && Enabled(l, Local(Peer(side), a))
    ensures Starved(Next(handlers, l, Local(Peer(side), a)).0, side)
  {
    assert LinkSafety.Quiet(l, Peer(side));
    LinkSafety.QuietStays(handlers, l, Local(Peer(side), a), Peer(side));
    StarvedLive(handlers, l, Peer(side), a);
    PeerActs(handlers, l, side, a);
    assert Incoming(l, side) + [] == Incoming(l, side);
  }

  lemma StarvedDelivery(handlers: set<string>, l: Link, side: Side, at: Side)
    requires Starved(l, side) && Enabled(l, Deliver(at))
    ensures Starved(Next(handlers, l, Deliver(at)).0, side)
  {
    LiveDelivered(handlers, l, at);
  }

  lemma StarvedStep(s: State, step: Step, k: nat, side: Side)
    requires Inv(s) && Ready(s, step) && Starved(View(s, k), side)
    ensures Starved(View(Apply(s, step), k), side)
  {
    if LinkSteps(s, step, k) == [] {
      StepRefines(s, step, k);
    } else {
      LinkStepsOne(s, step, k);
      match LinkSteps(s, step, k)[0] {
        case Dial =>
        case Local(at, a) =>
          if at == side {
            StarvedReads(s.handlers, View(s, k), side, a);
          } else {
            StarvedAlone(s.handlers, View(s, k), side, a);
          }
        case Deliver(at) => StarvedDelivery(s.handlers, View(s, k), side, at);
      }
    }
  }

  lemma {:induction false} StarvedRun(s: State, steps: seq<Step>, k: nat, side: Side)
    requires Inv(s) && Orderly(s, steps) && Starved(View(s, k), side)
    ensures Inv(Exec(s, steps)) && Starved(View(Exec(s, steps), k), side)
    decreases |steps|
  {
    if steps != [] {
      StarvedStep(s, steps[0], k, side);
      StepInv(s, steps[0]);
      StarvedRun(Apply(s, steps[0]), steps[1..], k, side);
    }
  }

  /** In every continuation a starved writer waits; it cannot be closed, and its id is never free. */
  lemma StarvedForever(s: State, steps: seq<Step>, k: nat, side: Side)
    requires Reachable(s) && Starved(View(s, k), side) && Orderly(s, steps)
    ensures var r := Exec(s, steps);
            && !Ready(r, Move(side, k, FinishWrite)) && !Ready(r, Move(side, k, DoClose)) && Mapped(At(r, side), k)
  {
    ReachableInv(s);
    StarvedRun(s, steps, k, side);
    StarvedWaits(View(Exec(s, steps), k), side);
  }

  // ---------- every other writer can be released ----------

  /** A run after which the slice that stream k has to send at `side` can be sent. */
  ghost predicate Releases(s: State, steps: seq<Step>, k: nat, side: Side)
    requires k in At(s, side).conns
  {
    && Orderly(s, steps)
    && var r := Exec(s, steps);
       k in At(r, side).conns && At(r, side).conns[k].half.pending == At(s, side).conns[k].half.pending
       && Ready(r, Move(side, k, FinishWrite))
  }

  lemma CreditIsIn(l: Link, l': Link, side: Side)
    requires Delivered(l, l', side) && Incoming(l', side) == [] && End(l, side).value.pending.Some?
    requires Credit(l, side) >= |End(l, side).value.pending.value|
    ensures Enabled(l', Local(side, FinishWrite)) && End(l', side).value.pending == End(l, side).value.pending
  {
    assert CreditOf(Incoming(l', side)) == 0;
  }

  /** What its link can do, a stream of the tunnel can. */
  lemma ReadyByView(s: State, k: nat, side: Side, a: Act)
    requires Inv(s) && Enabled(View(s, k), Local(side, a))
    ensures Ready(s, Move(side, k, a)) && At(s, side).conns[k].half == End(View(s, k), side).value
  {
  }

  lemma CreditArrives(s: State, k: nat, side: Side) returns (steps: seq<Step>)
    requires Inv(s) && k in At(s, side).conns && Live(View(s, k)) && End(View(s, k), side).value.pending.Some?
    requires Credit(View(s, k), side) >= |End(View(s, k), side).value.pending.value|
    ensures Releases(s, steps, k, side)
  {
    steps := DeliverAll(s, side, k);
    var r := Exec(s, steps);
    CreditIsIn(View(s, k), View(r, k), side);
    ReadyByView(r, k, side, FinishWrite);
  }

  /** A waiting writer of a reachable state can be released if and only if its peer has not sent FIN,
      or its window and the credit under way to it hold its slice. */
  lemma ReleasedExactly(s: State, k: nat, side: Side)
    requires Reachable(s) && k in At(s, side).conns && At(s, side).conns[k].half.pending.Some?
    ensures k in At(s, Peer(side)).conns
    ensures var x, y := At(s, side).conns[k].half, At(s, Peer(side)).conns[k].half;
            (exists steps :: Releases(s, steps, k, side)) <==>
            !FinWasSent(y.core.status) || x.core.window + CreditOf(Of(Inbox(s, side), k)) >= |x.pending.value|
  {
    ReachableInv(s);
    var l := View(s, k);
    WriterIsOpen(l, side);
    if Starved(l, side) {
      forall steps | Orderly(s, steps)
        ensures !Ready(Exec(s, steps), Move(side, k, FinishWrite))
      {
        StarvedForever(s, steps, k, side);
      }
    } else if !FinWasSent(End(l, Peer(side)).value.core.status) {
      var steps := WriterIsNeverStuck(s, k, side);
      assert Releases(s, steps, k, side);
    } else {
      var steps := CreditArrives(s, k, side);
    }
  }

  /** An orderly run starves a writer: it fills the window, waits, and the server closes without having
      read. */
  lemma StarvedIsPossible(handlers: set<string>, network: string) returns (s: State)
    requires network in handlers
    ensures Reachable(s) && Starved(View(s, 0), Client)
  {
    var parked := WriterParks(handlers, network);
    ReachableInv(parked);
    WriterIsOpen(View(parked, 0), Client);
    s := CloseServer(parked);
    assert View(parked, 0).sc == [];
    SentOne([], Fin);
  }
}
