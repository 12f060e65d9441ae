/**
 RESULT and EST are one step in the tunnel; in the code the loop takes RESULT off the wire, and the
 goroutine in Connect moves the stream to EST some time later. As long as no FIN of the stream
 arrives in between, the delay makes no difference to any run; if one does, it is lost for good.
 */
module LateMove {
  import opened Prelude
  import opened StreamCore
  import opened Link
  import opened Tunnel
  import opened TunnelSafety
  import opened TunnelTheorems
  import opened Progress
  import opened Necessity
  import LinkSafety

  // ---------- a late move of a stream by itself ----------

  /** The frames that arrive while Connect has not yet moved to EST. */
  function Absorb(c: Core, fs: seq<Frame>): Core
    decreases |fs|
  {
    if fs == [] then c else OnFrame(Absorb(c, fs[..|fs| - 1]), fs[|fs| - 1]).core
  }

  /** The client takes RESULT and j frames behind it before it moves to EST. */
  function MovedAfter(l: Link, j: nat): Link
    requires Accepted(l) && j < |l.sc|
  {
    var c := l.c.value;
    l.(c := Some(c.(core := Absorb(c.core, l.sc[1..][..j]).(status := Est))), sc := l.sc[1..][j..])
  }

  /** What is behind the RESULT: DATA and WND, and a FIN at the end if the server has closed. */
  lemma BehindResult(l: Link, i: nat)
    requires Accepted(l) && i < |l.sc| - 1
    ensures var f := l.sc[1..][i];
            f.Data? || f.Wnd? || (f.Fin? && i == |l.sc| - 2 && FinWasSent(l.s.value.core.status))
  {
    var w := l.sc[1..];
    assert FinDiscipline(l.s.value.core.status, Est, w);
    if i < |w| - 1 && FinWasSent(l.s.value.core.status) {
      assert w[i] == w[..|w| - 1][i];
    }
  }

  /** DATA and WND do the same before the move as after it. */
  lemma StatusCommutes(c: Core, f: Frame, status: Status)
    requires f.Data? || f.Wnd?
    ensures OnFrame(c.(status := status), f).core == OnFrame(c, f).core.(status := status)
    ensures OnFrame(c.(status := status), f).keep && OnFrame(c.(status := status), f).ok
    ensures OnFrame(c.(status := status), f).out == []
  {
  }

  /** One frame more before the move is one delivery more behind it. */
  lemma MovedNext(handlers: set<string>, l: Link, j: nat)
    requires Accepted(l) && j < |l.sc| - 1 && !l.sc[1..][j].Fin?
    ensures Enabled(MovedAfter(l, j), Deliver(Client))
    ensures Next(handlers, MovedAfter(l, j), Deliver(Client)) == (MovedAfter(l, j + 1), true)
  {
    var w, f, c := l.sc[1..], l.sc[1..][j], l.c.value.core;
    BehindResult(l, j);
    StatusCommutes(Absorb(c, w[..j]), f, Est);
    assert w[..j + 1][..j] == w[..j] && w[..j + 1][j] == f;
    assert w[j..][0] == f && w[j..][1..] == w[j + 1..];
    assert l.cs + [] == l.cs;
  }

  lemma MovedFirst(handlers: set<string>, l: Link)
    requires Accepted(l)
    ensures Enabled(l, Deliver(Client)) && Next(handlers, l, Deliver(Client)) == (MovedAfter(l, 0), true)
  {
    assert l.sc[1..][..0] == [] && l.sc[1..][0..] == l.sc[1..];
    assert l.cs + [] == l.cs;
  }

  function DeliverTimes(n: nat): seq<LinkStep> {
    seq(n, _ => Deliver(Client))
  }

  lemma DeliverOnce(handlers: set<string>, l: Link, n: nat)
    requires LinkSafety.Legal(handlers, l, DeliverTimes(n))
    requires Enabled(LinkSafety.Run(handlers, l, DeliverTimes(n)), Deliver(Client))
    ensures LinkSafety.Legal(handlers, l, DeliverTimes(n + 1))
    ensures LinkSafety.Run(handlers, l, DeliverTimes(n + 1)) ==
            Next(handlers, LinkSafety.Run(handlers, l, DeliverTimes(n)), Deliver(Client)).0
  {
    var l1 := LinkSafety.Run(handlers, l, DeliverTimes(n));
    RunOne(handlers, l1, [Deliver(Client)]);
    LinkSafety.RunAppend(handlers, l, DeliverTimes(n), [Deliver(Client)]);
    assert DeliverTimes(n + 1) == DeliverTimes(n) + [Deliver(Client)];
  }

  lemma RunOne(handlers: set<string>, l: Link, steps: seq<LinkStep>)
    requires |steps| == 1 && Enabled(l, steps[0])
    ensures LinkSafety.Legal(handlers, l, steps)
    ensures LinkSafety.Run(handlers, l, steps) == Next(handlers, l, steps[0]).0
  {
    var l1 := Next(handlers, l, steps[0]).0;
    assert steps[1..] == [];
    assert LinkSafety.Legal(handlers, l1, steps[1..]) && LinkSafety.Run(handlers, l1, steps[1..]) == l1;
  }

  /** Without a FIN, a late move is RESULT and EST in one step and then the deliveries. */
  lemma {:induction false} LateIsDeliveries(handlers: set<string>, l: Link, j: nat)
    requires Accepted(l) && j < |l.sc| && Fin !in l.sc[1..][..j]
    ensures LinkSafety.Legal(handlers, l, DeliverTimes(j + 1))
    ensures LinkSafety.Run(handlers, l, DeliverTimes(j + 1)) == MovedAfter(l, j)
  {
    if j == 0 {
      MovedFirst(handlers, l);
      RunNone(handlers, l);
      DeliverOnce(handlers, l, 0);
    } else {
      NoFinBefore(l, j);
      LateIsDeliveries(handlers, l, j - 1);
      MovedNext(handlers, l, j - 1);
      DeliverOnce(handlers, l, j);
    }
  }

  lemma RunNone(handlers: set<string>, l: Link)
    ensures LinkSafety.Legal(handlers, l, DeliverTimes(0)) && LinkSafety.Run(handlers, l, DeliverTimes(0)) == l
  {
    assert DeliverTimes(0) == [];
  }

  lemma NoFinBefore(l: Link, j: nat)
    requires 0 < j < |l.sc| && Fin !in l.sc[1..][..j]
    ensures Fin !in l.sc[1..][..j - 1] && !l.sc[1..][j - 1].Fin?
  {
    var w := l.sc[1..];
    assert w[..j][..j - 1] == w[..j - 1] && w[..j][j - 1] == w[j - 1];
  }

  /** The stream is open after a late move if and only if no FIN was among the frames before it. */
  lemma LateIsOpenExactly(l: Link, j: nat)
    requires Accepted(l) && j < |l.sc|
    ensures Opened(MovedAfter(l, j)) <==> Fin !in l.sc[1..][..j]
  {
    if Fin in l.sc[1..][..j] {
      FinMeansAll(l, j);
    } else {
      LateIsDeliveries({}, l, j);
      DeliveredIsOpen(l, j);
    }
  }

  /** FIN is the last frame, so a move behind it is a move behind all. */
  lemma FinMeansAll(l: Link, j: nat)
    requires Accepted(l) && j < |l.sc| && Fin in l.sc[1..][..j]
    ensures j == |l.sc| - 1 && MovedAfter(l, j).sc == [] && FinWasSent(l.s.value.core.status)
    ensures !Opened(MovedAfter(l, j))
  {
    var w := l.sc[1..];
    var i :| 0 <= i < |w[..j]| && w[..j][i] == Fin;
    BehindResult(l, i);
    assert w[j..] == [];
  }

  lemma {:induction false} DeliveredIsOpen(l: Link, j: nat)
    requires Accepted(l) && j < |l.sc| && Fin !in l.sc[1..][..j]
    ensures Opened(MovedAfter(l, j))
  {
    if j == 0 {
      MovedFirst({}, l);
      LinkSafety.HandshakeDeliver({}, l, Client);
    } else {
      NoFinBefore(l, j);
      DeliveredIsOpen(l, j - 1);
      MovedNext({}, l, j - 1);
      LinkSafety.OpenedDeliver({}, MovedAfter(l, j - 1), Client);
    }
  }

  // ---------- a FIN before the move is lost ----------

  /** A client that has missed the FIN of its peer. */
  predicate Deaf(l: Link) {
    && l.c.Some? && l.cOn && !l.c.value.core.closed && l.c.value.core.status in {Est, FinSent}
    && l.s.Some? && FinWasSent(l.s.value.core.status) && l.s.value.pending.None?
    && (l.sOn ==> l.s.value.core.status == FinSent)
    && l.sc == [] && forall i :: 0 <= i < |l.cs| ==> !l.cs[i].Syn?
  }

  lemma {:induction false} FinIsIgnored(c: Core, fs: seq<Frame>)
    requires c.status == SynSent && !c.closed
    requires forall i :: 0 <= i < |fs| ==> fs[i].Data? || fs[i].Wnd? || fs[i].Fin?
    ensures Absorb(c, fs).status == SynSent && !Absorb(c, fs).closed
    decreases |fs|
  {
    if fs != [] {
      FinIsIgnored(c, fs[..|fs| - 1]);
    }
  }

  lemma DeafLocal(l: Link, side: Side, a: Act)
    requires Deaf(l) && Enabled(l, Local(side, a))
    ensures Deaf(Next({}, l, Local(side, a)).0)
  {
  }

  lemma DeafDeliver(handlers: set<string>, l: Link, side: Side)
    requires Deaf(l) && Enabled(l, Deliver(side))
    ensures Deaf(Next(handlers, l, Deliver(side)).0)
  {
    if l.sOn {
      LinkSafety.NoAnswer(l.s.value, l.cs[0]);
    }
  }

  lemma {:induction false} DeafForever(handlers: set<string>, l: Link, steps: seq<LinkStep>)
    requires Deaf(l) && LinkSafety.Legal(handlers, l, steps)
    ensures Deaf(LinkSafety.Run(handlers, l, steps))
    decreases |steps|
  {
    if steps != [] {
      match steps[0] {
        case Dial =>
        case Local(side, a) =>
          DeafLocal(l, side, a);
          assert Next(handlers, l, steps[0]) == Next({}, l, steps[0]);
        case Deliver(side) => DeafDeliver(handlers, l, side);
      }
      DeafForever(handlers, Next(handlers, l, steps[0]).0, steps[1..]);
    }
  }

  /** A FIN among the frames before the move is lost: in no continuation does the client's reader come
      to EOF, and in none does the client give up the id. */
  lemma FinBeforeEstIsLost(handlers: set<string>, l: Link, j: nat, steps: seq<LinkStep>)
    requires Accepted(l) && j < |l.sc| && Fin in l.sc[1..][..j] && LinkSafety.Legal(handlers, MovedAfter(l, j), steps)
    ensures var r := LinkSafety.Run(handlers, MovedAfter(l, j), steps);
            && r.c.Some? && !r.c.value.core.closed && r.cOn
            && !Enabled(r, Local(Client, ReadEof))
  {
    FinMeansAll(l, j);
    var w := l.sc[1..][..j];
    forall i | 0 <= i < |w|
      ensures w[i].Data? || w[i].Wnd? || w[i].Fin?
    {
      BehindResult(l, i);
    }
    FinIsIgnored(l.c.value.core, w);
    assert Deaf(MovedAfter(l, j));
    DeafForever(handlers, MovedAfter(l, j), steps);
  }

  /** A run leads there: the server accepts and closes at once. */
  lemma FinBeforeEstIsPossible(handlers: set<string>, network: string) returns (s: State)
    requires network in handlers
    ensures Reachable(s) && Accepted(View(s, 0)) && |View(s, 0).sc| == 2 && Fin in View(s, 0).sc[1..][..1]
  {
    ServerAccepts(handlers, network);
    var s4, end := ResultUnderway(handlers), HalfClosed(handlers);
    var close := Move(Server, 0, DoClose);
    ReachableStep(s4, close);
    s := s4.(server := end.server, sc := s4.sc + [Item(0, 0, Fin)]);
    assert s4.server.conns[0 := end.server.conns[0]] == end.server.conns;
    assert Apply(s4, close) == s;
    ReachableInv(s);
    ClosedIsLive(View(s, 0), Server);
    TwoFrames(s.sc);
  }

  lemma TwoFrames(w: seq<Item>)
    requires |w| == 2 && w[0].tag == w[1].tag == 0
    ensures Of(w, 0) == [w[0].frame, w[1].frame]
  {
    HeadOf(w);
    HeadOf(w[1..]);
    assert w[1..][1..] == [];
  }

  // ---------- a late move among all other streams ----------

  /** An end with stream k in this status. */
  function With(e: Endpoint, k: nat, status: Status): Endpoint
    requires k in e.conns
  {
    var c := e.conns[k];
    e.(conns := e.conns[k := c.(half := c.half.(core := c.half.core.(status := status)))])
  }

  lemma SettleOther(e: Endpoint, tag: nat, eff: HalfEffect, k: nat, status: Status)
    requires tag in e.conns && k in e.conns && tag != k
    ensures Settle(With(e, k, status), tag, eff) == With(Settle(e, tag, eff), k, status)
  {
    assert Settle(With(e, k, status), tag, eff).conns == With(Settle(e, tag, eff), k, status).conns;
  }

  /** s, but that stream k of the client has not yet moved to EST. */
  function Late(s: State, k: nat): State
    requires k in s.client.conns
  {
    s.(client := With(s.client, k, SynSent))
  }

  /** Connect moves stream k to EST. */
  function MovesToEst(s: State, k: nat): State
    requires k in s.client.conns
  {
    s.(client := With(s.client, k, Est))
  }

  /** The step is not one of the client's stream k, and brings it no FIN. */
  predicate LeavesAlone(s: State, step: Step, k: nat) {
    && !(step.Move? && step.side.Client? && step.tag == k)
    && !(step == Arrive(Client) && s.sc != [] && s.sc[0].tag == k && s.sc[0].frame.Fin?)
  }

  /** Stream k is open, and EST at the client. */
  predicate EstAtClient(s: State, k: nat) {
    Opened(View(s, k)) && s.client.conns[k].half.core.status == Est
  }

  lemma LateRegister(s: State, k: nat)
    requires Inv(s) && EstAtClient(s, k)
    ensures k in DoRegister(s).client.conns && DoRegister(Late(s, k)) == Late(DoRegister(s), k)
    ensures DoRegister(s).client.conns[k] == s.client.conns[k]
  {
    assert k != s.nextTag;
    assert DoRegister(Late(s, k)).client.conns == Late(DoRegister(s), k).client.conns;
  }

  lemma LateMoveStep(s: State, side: Side, tag: nat, a: Act, k: nat)
    requires Inv(s) && EstAtClient(s, k) && !(side.Client? && tag == k)
    ensures Ready(Late(s, k), Move(side, tag, a)) <==> Ready(s, Move(side, tag, a))
    ensures Ready(s, Move(side, tag, a)) ==>
              var s' := DoMove(s, side, tag, a);
              k in s'.client.conns && DoMove(Late(s, k), side, tag, a) == Late(s', k)
              && s'.client.conns[k] == s.client.conns[k]
  {
    if Ready(s, Move(side, tag, a)) && side.Client? {
      SettleOther(s.client, tag, Do(s.client.conns[tag].half, Mapped(s.client, tag), a), k, SynSent);
    }
  }

  lemma LateArriveServer(s: State, k: nat)
    requires Inv(s) && EstAtClient(s, k)
    ensures Ready(Late(s, k), Arrive(Server)) <==> Ready(s, Arrive(Server))
    ensures Ready(s, Arrive(Server)) ==>
              var s' := DoArrive(s, Server);
              k in s'.client.conns && DoArrive(Late(s, k), Server) == Late(s', k)
              && s'.client.conns[k] == s.client.conns[k]
  {
  }

  lemma SettleSame(e: Endpoint, k: nat, f: Frame, status: Status)
    requires k in e.conns && (f.Data? || f.Wnd?)
    ensures Settle(With(e, k, status), k, Receive(With(e, k, status).conns[k].half, f)) ==
            With(Settle(e, k, Receive(e.conns[k].half, f)), k, status)
    ensures Settle(e, k, Receive(e.conns[k].half, f)).conns[k].half.core.status == e.conns[k].half.core.status
  {
    var h := e.conns[k].half;
    StatusCommutes(h.core, f, status);
    StatusCommutes(h.core, f, h.core.status);
    assert Settle(With(e, k, status), k, Receive(With(e, k, status).conns[k].half, f)).conns ==
           With(Settle(e, k, Receive(h, f)), k, status).conns;
  }

  /** What a delivery to a mapped stream of the client does. */
  lemma ArriveSettles(s: State, tag: nat)
    requires Ready(s, Arrive(Client)) && s.sc[0].id in s.client.weaves && s.client.weaves[s.sc[0].id] == tag
    ensures var eff := Receive(s.client.conns[tag].half, s.sc[0].frame);
            DoArrive(s, Client) == s.(client := Settle(s.client, tag, eff).(halted := !eff.ok), sc := s.sc[1..])
  {
    LinkSafety.NoAnswer(s.client.conns[tag].half, s.sc[0].frame);
    assert s.cs + [] == s.cs;
  }

  lemma LateArriveSame(s: State, k: nat)
    requires Ready(s, Arrive(Client)) && k in s.client.conns && (s.sc[0].frame.Data? || s.sc[0].frame.Wnd?)
    requires s.sc[0].id in s.client.weaves && s.client.weaves[s.sc[0].id] == k
    ensures Ready(Late(s, k), Arrive(Client)) && k in DoArrive(s, Client).client.conns
    ensures DoArrive(Late(s, k), Client) == Late(DoArrive(s, Client), k)
    ensures DoArrive(s, Client).client.conns[k].half.core.status == s.client.conns[k].half.core.status
  {
    var h, f := s.client.conns[k].half, s.sc[0].frame;
    ArriveSettles(s, k);
    ArriveSettles(Late(s, k), k);
    SettleSame(s.client, k, f, SynSent);
    StatusCommutes(h.core, f, SynSent);
    StatusCommutes(h.core, f, h.core.status);
  }

  lemma LateArriveOther(s: State, k: nat, tag: nat)
    requires Ready(s, Arrive(Client)) && k in s.client.conns && tag != k
    requires s.sc[0].id in s.client.weaves && s.client.weaves[s.sc[0].id] == tag
    ensures Ready(Late(s, k), Arrive(Client)) && k in DoArrive(s, Client).client.conns
    ensures DoArrive(Late(s, k), Client) == Late(DoArrive(s, Client), k)
    ensures DoArrive(s, Client).client.conns[k] == s.client.conns[k]
  {
    ArriveSettles(s, tag);
    ArriveSettles(Late(s, k), tag);
    SettleOther(s.client, tag, Receive(s.client.conns[tag].half, s.sc[0].frame), k, SynSent);
  }

  lemma LateArriveClient(s: State, k: nat)
    requires Inv(s) && EstAtClient(s, k) && LeavesAlone(s, Arrive(Client), k)
    ensures Ready(Late(s, k), Arrive(Client)) <==> Ready(s, Arrive(Client))
    ensures Ready(s, Arrive(Client)) ==>
              var s' := DoArrive(s, Client);
              k in s'.client.conns && DoArrive(Late(s, k), Client) == Late(s', k)
              && s'.client.conns[k].half.core.status == Est
  {
    if Ready(s, Arrive(Client)) {
      var item := s.sc[0];
      HeadOf(s.sc);
      LinkSafety.DeliverPreserves({}, View(s, item.tag), Client);
      RoutedToOwner(s, Client);
      if item.tag == k {
        HeadOfOpened(View(s, k), Client);
        LateArriveSame(s, k);
      } else {
        LateArriveOther(s, k, item.tag);
      }
    }
  }

  /** A step that leaves the stream alone does the same before the move as after it. */
  lemma LateStep(s: State, step: Step, k: nat)
    requires Inv(s) && EstAtClient(s, k) && LeavesAlone(s, step, k)
    ensures Ready(Late(s, k), step) <==> Ready(s, step)
    ensures Ready(s, step) ==>
              && Inv(Apply(s, step)) && EstAtClient(Apply(s, step), k)
              && Apply(Late(s, k), step) == Late(Apply(s, step), k)
  {
    match step {
      case Register => LateRegister(s, k);
      case Move(side, tag, a) => LateMoveStep(s, side, tag, a, k);
      case Arrive(Server) => LateArriveServer(s, k);
      case Arrive(Client) => LateArriveClient(s, k);
    }
    if Ready(s, step) {
      StepInv(s, step);
      OpenedOn(s, step, k);
    }
  }

  lemma OpenedOn(s: State, step: Step, k: nat)
    requires Inv(s) && Ready(s, step) && Opened(View(s, k))
    ensures Opened(View(Apply(s, step), k))
  {
    if LinkSteps(s, step, k) == [] {
      StepRefines(s, step, k);
    } else {
      LinkStepsOne(s, step, k);
      LinkSafety.OpenedStays(s.handlers, View(s, k), LinkSteps(s, step, k)[0]);
    }
  }

  /** None of the steps disturbs the client's stream k. */
  predicate AllLeaveAlone(s: State, steps: seq<Step>, k: nat)
    requires Orderly(s, steps)
    decreases |steps|
  {
    steps == [] || (LeavesAlone(s, steps[0], k) && AllLeaveAlone(Apply(s, steps[0]), steps[1..], k))
  }

  lemma {:induction false} LateRun(s: State, steps: seq<Step>, k: nat)
    requires Inv(s) && EstAtClient(s, k) && Orderly(Late(s, k), steps) && AllLeaveAlone(Late(s, k), steps, k)
    ensures Orderly(s, steps) && EstAtClient(Exec(s, steps), k)
    ensures Exec(Late(s, k), steps) == Late(Exec(s, steps), k)
    decreases |steps|
  {
    if steps != [] {
      LateStep(s, steps[0], k);
      LateRun(Apply(s, steps[0]), steps[1..], k);
    }
  }

  /** The client takes the RESULT of stream k and moves to EST any number of steps later. If none of these
      is a step of that stream at the client or brings it a FIN, the end is the same as that of
      the orderly run in which it moves at once. */
  lemma LateMoveIsHarmless(s: State, k: nat, steps: seq<Step>)
    requires Reachable(s) && s.sc != [] && s.sc[0].tag == k && s.sc[0].frame == Result(ERR_NONE)
    ensures Ready(s, Arrive(Client)) && k in Apply(s, Arrive(Client)).client.conns
    ensures var at := Apply(s, Arrive(Client));
            Orderly(Late(at, k), steps) && AllLeaveAlone(Late(at, k), steps, k) ==>
              && Orderly(at, steps) && k in Exec(Late(at, k), steps).client.conns
              && MovesToEst(Exec(Late(at, k), steps), k) == Exec(at, steps)
  {
    ReachableInv(s);
    ResultOpens(s, k);
    var at := Apply(s, Arrive(Client));
    if Orderly(Late(at, k), steps) && AllLeaveAlone(Late(at, k), steps, k) {
      LateRun(at, steps, k);
      MovedBack(Exec(at, steps), k);
    }
  }

  lemma MovedBack(s: State, k: nat)
    requires k in s.client.conns && s.client.conns[k].half.core.status == Est
    ensures MovesToEst(Late(s, k), k) == s
  {
    assert MovesToEst(Late(s, k), k).client.conns == s.client.conns;
  }

  lemma ResultOpens(s: State, k: nat)
    requires Inv(s) && s.sc != [] && s.sc[0].tag == k && s.sc[0].frame == Result(ERR_NONE)
    ensures Ready(s, Arrive(Client)) && Inv(Apply(s, Arrive(Client))) && EstAtClient(Apply(s, Arrive(Client)), k)
  {
    HeadOf(s.sc);
    ArriveInv(s, Client);
    ArriveView(s, Client, k);
    assert LinkInv(View(s, k));
    ResultMeansAccepted(View(s, k));
    LinkSafety.HandshakeDeliver(s.handlers, View(s, k), Client);
  }

  lemma ResultMeansAccepted(l: Link)
    requires LinkInv(l) && l.sc != [] && l.sc[0] == Result(ERR_NONE)
    ensures Accepted(l)
  {
    if Opened(l) {
      DisciplineHead(l.s.value.core.status, l.c.value.core.status, l.sc);
      assert false;
    }
  }
}
