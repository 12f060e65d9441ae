/**
 The whole tunnel: a client and a server fabric, each with its map from stream id
 to Conn, joined by two FIFO wires that all streams share. Ids are reused, so one
 id may belong to many streams in a run; each stream has a tag of its own. A tag
 only names a stream: frames are routed by id through the map, as in Fabric.Loop.

 The steps are those of an orderly run. What that takes for granted:
 - socket writes succeed, and no dial or closing timer fires;
 - the receipt of RESULT and the move to EST are one step;
 - closeWrite, Accept and Deny are atomic, and a handler answers its stream once;
 - a stream is closed by the goroutine that writes to it (`Can` for DoClose);
 - a stream has one reader, which passes Read a buffer that is not empty.
 */
module Tunnel {
  import opened Prelude
  import opened StreamCore
  import opened IdPool
  import opened Link

  /** A frame in a wire: the id of its header, the stream it belongs to, the frame. */
  datatype Item = Item(id: Id, tag: nat, frame: Frame)

  datatype Conn = Conn(streamid: Id, half: Half)

  /** A fabric and the Conns made on it. `halted` says that its Loop has returned. */
  datatype Endpoint = Endpoint(weaves: map<Id, nat>, conns: map<nat, Conn>, halted: bool)

  datatype State = State(
    client: Endpoint, server: Endpoint,
    cs: seq<Item>, sc: seq<Item>,
    nextId: Id, nextTag: nat, handlers: set<string>)

  /** Register is the part of Client.Dial that takes an id; its DoConnect comes later. */
  datatype Step = Register | Move(side: Side, tag: nat, act: Act) | Arrive(side: Side)

  function Init(handlers: set<string>): State {
    State(Endpoint(map[], map[], false), Endpoint(map[], map[], false), [], [], 0, 0, handlers)
  }

  function At(s: State, side: Side): Endpoint { if side.Client? then s.client else s.server }
  function Inbox(s: State, side: Side): seq<Item> { if side.Client? then s.sc else s.cs }

  predicate Mapped(e: Endpoint, tag: nat) {
    && tag in e.conns
    && e.conns[tag].streamid in e.weaves
    && e.weaves[e.conns[tag].streamid] == tag
  }

  function Stamp(id: Id, tag: nat, out: seq<Frame>): seq<Item> {
    seq(|out|, i requires 0 <= i < |out| => Item(id, tag, out[i]))
  }

  function Become(s: State, side: Side, e: Endpoint, used: nat, out: seq<Item>): State
    requires used <= |Inbox(s, side)|
  {
    if side.Client? then s.(client := e, sc := s.sc[used..], cs := s.cs + out)
    else s.(server := e, cs := s.cs[used..], sc := s.sc + out)
  }

  /** Conn `tag` of e after an operation; giving up an id deletes whatever is under it. */
  function Settle(e: Endpoint, tag: nat, eff: HalfEffect): Endpoint
    requires tag in e.conns
  {
    var conn := e.conns[tag];
    Endpoint(if eff.keep then e.weaves else e.weaves - {conn.streamid},
             e.conns[tag := conn.(half := eff.half)],
             e.halted)
  }

  predicate Ready(s: State, step: Step) {
    && !s.client.halted && !s.server.halted
    && match step
       case Register => true
       case Move(side, tag, a) =>
         tag in At(s, side).conns && Can(At(s, side).conns[tag].half, Mapped(At(s, side), tag), a)
       case Arrive(side) =>
         && Inbox(s, side) != []
         && var e := At(s, side);
            var id := Inbox(s, side)[0].id;
            id in e.weaves ==> e.weaves[id] in e.conns
  }

  /** A new Conn under the next free id; no change when no id is left. */
  function DoRegister(s: State): State {
    var free := FirstFree(s.client.weaves.Keys, s.nextId, 0);
    if free.None? then s
    else
      var id := free.value;
      s.(client := Endpoint(s.client.weaves[id := s.nextTag],
                            s.client.conns[s.nextTag := Conn(id, NewHalf(Unknown))],
                            s.client.halted),
         nextId := (id + 2) % ID_SPACE,
         nextTag := s.nextTag + 1)
  }

  function DoMove(s: State, side: Side, tag: nat, a: Act): State
    requires Ready(s, Move(side, tag, a))
  {
    var e := At(s, side);
    var eff := Do(e.conns[tag].half, Mapped(e, tag), a);
    Become(s, side, Settle(e, tag, eff), 0, Stamp(e.conns[tag].streamid, tag, eff.out))
  }

  /** One round of Fabric.Loop. */
  function DoArrive(s: State, side: Side): State
    requires Ready(s, Arrive(side))
  {
    var e := At(s, side);
    var item := Inbox(s, side)[0];
    if item.id in e.weaves then
      var tag := e.weaves[item.id];
      var eff := Receive(e.conns[tag].half, item.frame);
      var e' := Settle(e, tag, eff).(halted := !eff.ok);
      Become(s, side, e', 1, Stamp(e.conns[tag].streamid, tag, eff.out))
    else if side.Client? then
      Become(s, side, e, 1, [])
    else if item.frame.Syn? then
      if item.frame.network in s.handlers then
        var conn := Conn(item.id, NewHalf(SynRecv));
        Become(s, side, Endpoint(e.weaves[item.id := item.tag], e.conns[item.tag := conn], false), 1, [])
      else
        Become(s, side, e, 1, [Item(item.id, item.tag, Result(ERR_UNKNOWN_PROTOCOL))])
    else
      Become(s, side, e.(halted := true), 1, [])
  }

  function Apply(s: State, step: Step): State
    requires Ready(s, step)
  {
    match step
    case Register => DoRegister(s)
    case Move(side, tag, a) => DoMove(s, side, tag, a)
    case Arrive(side) => DoArrive(s, side)
  }

  predicate Orderly(s: State, steps: seq<Step>)
    decreases |steps|
  {
    steps == [] || (Ready(s, steps[0]) && Orderly(Apply(s, steps[0]), steps[1..]))
  }

  function Exec(s: State, steps: seq<Step>): State
    requires Orderly(s, steps)
    decreases |steps|
  {
    if steps == [] then s else Exec(Apply(s, steps[0]), steps[1..])
  }

  // ---------- one stream of the tunnel ----------

  /** The frames of stream `tag` in a shared wire. */
  function Of(w: seq<Item>, tag: nat): seq<Frame> {
    if w == [] then [] else (if w[0].tag == tag then [w[0].frame] else []) + Of(w[1..], tag)
  }

  function HalfOf(e: Endpoint, tag: nat): Option<Half> {
    if tag in e.conns then Some(e.conns[tag].half) else None
  }

  /** All that the tunnel holds of stream `tag`, as a link of its own. */
  function View(s: State, tag: nat): Link {
    Link(HalfOf(s.client, tag), HalfOf(s.server, tag), Of(s.cs, tag), Of(s.sc, tag),
         Mapped(s.client, tag), Mapped(s.server, tag))
  }
}
