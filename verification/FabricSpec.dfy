/** What a fabric does with a frame, on the fields of its mapped streams. */
module FabricSpec {
  import opened StreamCore
  import opened IdPool

  /** A frame on the socket: the id of its header, and the frame. */
  type Packet = (Id, Frame)

  /** The mapped streams of a fabric and the packets it has written. */
  datatype Fab = Fab(cores: map<Id, Core>, sent: seq<Packet>)

  function Labels(id: Id, out: seq<Frame>): seq<Packet> {
    seq(|out|, i requires 0 <= i < |out| => (id, out[i]))
  }

  function Install(f: Fab, id: Id, e: Effect): Fab {
    Fab(if e.keep then f.cores[id := e.core] else f.cores - {id}, f.sent + Labels(id, e.out))
  }

  /** One round of Fabric.Loop, at the server or at the client: route by id, or give the
      packet to the default fiber. The second part says that the loop goes on. */
  function Route(server: bool, handlers: set<string>, f: Fab, p: Packet): (Fab, bool) {
    if p.0 in f.cores then
      var e := OnFrame(f.cores[p.0], p.1);
      (Install(f, p.0, e), e.ok)
    else if !server then (f, true)
    else if p.1.Syn? then
      if p.1.network in handlers then (f.(cores := f.cores[p.0 := NewCore(SynRecv)]), true)
      else (f.(sent := f.sent + [(p.0, Result(ERR_UNKNOWN_PROTOCOL))]), true)
    else (f, false)
  }

  /** The fabrics that a loop goes through, one more than it has taken packets: each is what Route makes
      of the one before, and only the last packet may fail. */
  predicate Routed(server: bool, handlers: set<string>, packets: seq<Packet>, fabs: seq<Fab>, ok: bool) {
    && 1 <= |fabs| <= |packets| + 1
    && forall i :: 0 <= i < |fabs| - 1 ==>
         Route(server, handlers, fabs[i], packets[i]) == (fabs[i + 1], i + 2 < |fabs| || ok)
  }

  lemma RoutedNext(server: bool, handlers: set<string>, packets: seq<Packet>, fabs: seq<Fab>)
    requires Routed(server, handlers, packets, fabs, true) && |fabs| <= |packets|
    ensures var r := Route(server, handlers, fabs[|fabs| - 1], packets[|fabs| - 1]);
            Routed(server, handlers, packets, fabs + [r.0], r.1)
  {
  }

  /** A packet for one stream leaves all other streams as they are. */
  lemma RouteTouchesOne(server: bool, handlers: set<string>, f: Fab, p: Packet, other: Id)
    requires other != p.0
    ensures var f' := Route(server, handlers, f, p).0;
            && (other in f'.cores <==> other in f.cores)
            && (other in f.cores ==> f'.cores[other] == f.cores[other])
            && f.sent <= f'.sent
            && forall i :: |f.sent| <= i < |f'.sent| ==> f'.sent[i].0 == p.0
  {
  }
}
