/** The wait of Queue.Pop and the loop of Conn.Read: what they give, from what the stream holds and from
    what other goroutines do at each wait. */
module ReadSpec {
  import opened Prelude
  import opened StreamCore

  // ---------- the queue ----------

  /** What another goroutine does to a queue: DATA and FIN make the two. */
  datatype QueueOp = Pushes(v: Bytes) | Closes

  /** The contents of a queue: what waits in it, and whether it is closed. */
  datatype Contents = Contents(queue: seq<Bytes>, closed: bool)

  function Happen(q: Contents, ops: seq<QueueOp>): Contents
    decreases |ops|
  {
    if ops == [] then q
    else if q.closed || ops[0].Closes? then Happen(q.(closed := true), ops[1..])
    else Happen(q.(queue := q.queue + [ops[0].v]), ops[1..])
  }

  /** The contents when a blocking Pop need not wait any more, or others do nothing more; `others` is
      what they do at each wait. The second part is the number of waits. */
  function Await(q: Contents, others: seq<seq<QueueOp>>): (r: (Contents, nat))
    ensures r.1 <= |others|
    decreases |others|
  {
    if q.queue != [] || q.closed || others == [] then (q, 0)
    else
      var r := Await(Happen(q, others[0]), others[1..]);
      (r.0, r.1 + 1)
  }

  /** The values that a queue takes from a run of operations, in order. */
  function Taken(closed: bool, ops: seq<QueueOp>): seq<Bytes> {
    if ops == [] || closed then []
    else if ops[0].Pushes? then [ops[0].v] + Taken(closed, ops[1..])
    else []
  }

  predicate Closed(closed: bool, ops: seq<QueueOp>) {
    closed || exists i :: 0 <= i < |ops| && ops[i].Closes?
  }

  /** Values come behind those that wait, in order, up to the close; none is lost before it. */
  lemma {:induction false} HappenTakes(q: Contents, ops: seq<QueueOp>)
    ensures Happen(q, ops).queue == q.queue + Taken(q.closed, ops)
    ensures Happen(q, ops).closed == Closed(q.closed, ops)
    decreases |ops|
  {
    if ops != [] {
      if q.closed || ops[0].Closes? {
        HappenTakes(q.(closed := true), ops[1..]);
      } else {
        HappenTakes(q.(queue := q.queue + [ops[0].v]), ops[1..]);
        assert Closed(false, ops) <==> Closed(false, ops[1..]) by {
          assert forall i :: 1 <= i < |ops| ==> ops[i] == ops[1..][i - 1];
          assert forall i :: 0 <= i < |ops| - 1 ==> ops[1..][i] == ops[i + 1];
        }
      }
    }
  }

  lemma {:induction false} HappenAppend(q: Contents, a: seq<QueueOp>, b: seq<QueueOp>)
    ensures Happen(q, a + b) == Happen(Happen(q, a), b)
    decreases |a|
  {
    if a == [] {
      assert a + b == b;
    } else {
      assert (a + b)[1..] == a[1..] + b;
      if q.closed || a[0].Closes? {
        HappenAppend(q.(closed := true), a[1..], b);
      } else {
        HappenAppend(q.(queue := q.queue + [a[0].v]), a[1..], b);
      }
    }
  }

  /** The wait ends as soon as there is a value or the queue is closed, and not before. */
  lemma {:induction false} AwaitIsExact(q: Contents, others: seq<seq<QueueOp>>)
    ensures var (r, u) := Await(q, others);
            && r == Happen(q, Join(others[..u]))
            && (r.queue != [] || r.closed || u == |others|)
            && forall j :: 0 <= j < u ==> Happen(q, Join(others[..j])) == q && q == Contents([], false)
    decreases |others|
  {
    if q.queue == [] && !q.closed && others != [] {
      var q1 := Happen(q, others[0]);
      AwaitIsExact(q1, others[1..]);
      var u := Await(q1, others[1..]).1;
      assert others[..u + 1][1..] == others[1..][..u];
      HappenAppend(q, others[0], Join(others[1..][..u]));
      forall j | 0 < j < u + 1
        ensures Happen(q, Join(others[..j])) == q
      {
        assert others[..j][1..] == others[1..][..j - 1];
        HappenAppend(q, others[0], Join(others[1..][..j - 1]));
        assert Happen(q1, Join(others[1..][..j - 1])) == q1;
      }
    }
  }

  // ---------- the loop of Read ----------

  /** What is left to copy, counting chunks as well as bytes. */
  function Backlog(c: Core): nat {
    |Unread(c)| + |c.queue| + (if c.rest.Some? then 1 else 0)
  }

  lemma CopyShrinks(c: Core, space: nat)
    requires Available(c) && space > 0
    ensures Backlog(CopyOnce(c, space).0) < Backlog(c)
  {
    var (c', got) := CopyOnce(c, space);
    assert |got| + |Unread(c')| == |Unread(c)|;
  }

  /** What another goroutine does to a stream while its reader waits: the loop of the fabric brings it a
      frame, or its writer closes it. */
  datatype Event = Comes(frame: Frame) | Closing

  /** The fields of a stream, the frames it has sent, and whether it has kept its id. */
  datatype Scene = Scene(core: Core, out: seq<Frame>, keep: bool)

  function Occurs(s: Scene, e: Event): Scene {
    var f := match e case Comes(frame) => OnFrame(s.core, frame) case Closing => CloseWrite(s.core);
    Scene(f.core, s.out + f.out, s.keep && f.keep)
  }

  function OccurAll(s: Scene, es: seq<Event>): Scene {
    if es == [] then s else Occurs(OccurAll(s, es[..|es| - 1]), es[|es| - 1])
  }

  /** The bytes that an event adds to what is unread: only DATA that finds the queue open adds any. */
  function Added(s: Scene, e: Event): Bytes {
    if e.Comes? && e.frame.Data? && !s.core.closed then e.frame.bytes else []
  }

  lemma OtherEvents(s: Scene, e: Event)
    requires !(e.Comes? && e.frame.Data? && !s.core.closed)
    ensures Occurs(s, e).core.rest == s.core.rest && Occurs(s, e).core.queue == s.core.queue
  {
  }

  lemma OccursUnread(s: Scene, e: Event)
    ensures Unread(Occurs(s, e).core) == Unread(s.core) + Added(s, e)
  {
    if e.Comes? && e.frame.Data? && !s.core.closed {
      JoinSnoc(s.core.queue, e.frame.bytes);
      Regroup(if s.core.rest.Some? then s.core.rest.value else [], Join(s.core.queue), e.frame.bytes);
    } else {
      OtherEvents(s, e);
      assert Unread(s.core) + [] == Unread(s.core);
    }
  }

  /** The scene after the loop of Read, and the bytes it has copied, from a state with `space` bytes of
      buffer left and n copied; `others` is what happens at each wait. */
  function ReadLoop(s: Scene, space: nat, n: nat, others: seq<seq<Event>>): (r: (Scene, Bytes))
    ensures |r.1| <= space
    decreases |others|, Backlog(s.core)
  {
    if space == 0 then (s, [])
    else if Available(s.core) then
      CopyShrinks(s.core, space);
      var (c1, got) := CopyOnce(s.core, space);
      var r := ReadLoop(s.(core := c1), space - |got|, n + |got|, others);
      (r.0, got + r.1)
    else if n > 0 || s.core.closed || others == [] then (s, [])
    else ReadLoop(OccurAll(s, others[0]), space, n, others[1..])
  }

  /** The copy takes from the queue by itself what Pop has put into `rest`. */
  lemma CopyAfterPop(c: Core, space: nat)
    requires c.rest.None? && c.queue != []
    ensures CopyOnce(c.(rest := Some(c.queue[0]), queue := c.queue[1..]), space) == CopyOnce(c, space)
  {
  }

  // ---------- what the loop gives ----------

  /** t is s but for the place of its reader, which is ahead by these bytes. */
  predicate Ahead(s: Scene, t: Scene, got: Bytes) {
    && SameBut(s.core, t.core) && t.out == s.out && t.keep == s.keep
    && got + Unread(t.core) == Unread(s.core)
  }

  lemma AheadCopy(s: Scene, space: nat)
    requires Available(s.core)
    ensures var (c1, got) := CopyOnce(s.core, space); Ahead(s, s.(core := c1), got)
  {
  }

  /** d is c but for the place of its reader. */
  predicate SameBut(c: Core, d: Core) {
    d == c.(rest := d.rest, queue := d.queue)
  }

  /** What a frame does besides the queue does not depend on what is in that. */
  lemma SameFrame(c: Core, d: Core, f: Frame)
    requires SameBut(c, d)
    ensures SameBut(OnFrame(c, f).core, OnFrame(d, f).core)
    ensures OnFrame(d, f).out == OnFrame(c, f).out && OnFrame(d, f).keep == OnFrame(c, f).keep
  {
    match f {
      case Fin => SameClose(c, d);
      case _ =>
    }
  }

  lemma SameClose(c: Core, d: Core)
    requires SameBut(c, d)
    ensures SameBut(CloseRead(c).core, CloseRead(d).core) && SameBut(CloseWrite(c).core, CloseWrite(d).core)
    ensures CloseRead(d).out == CloseRead(c).out && CloseRead(d).keep == CloseRead(c).keep
    ensures CloseWrite(d).out == CloseWrite(c).out && CloseWrite(d).keep == CloseWrite(c).keep
  {
  }

  lemma SameEvents(s: Scene, t: Scene, e: Event)
    requires SameBut(s.core, t.core) && t.out == s.out && t.keep == s.keep
    ensures SameBut(Occurs(s, e).core, Occurs(t, e).core)
    ensures Occurs(t, e).out == Occurs(s, e).out && Occurs(t, e).keep == Occurs(s, e).keep
  {
    match e {
      case Comes(f) => SameFrame(s.core, t.core, f);
      case Closing => SameClose(s.core, t.core);
    }
  }

  lemma AheadOccurs(s: Scene, t: Scene, got: Bytes, e: Event)
    requires Ahead(s, t, got)
    ensures Ahead(Occurs(s, e), Occurs(t, e), got)
  {
    OccursUnread(s, e);
    OccursUnread(t, e);
    SameEvents(s, t, e);
    Regroup(got, Unread(t.core), Added(s, e));
  }

  lemma {:induction false} AheadOccurAll(s: Scene, t: Scene, got: Bytes, es: seq<Event>)
    requires Ahead(s, t, got)
    ensures Ahead(OccurAll(s, es), OccurAll(t, es), got)
    decreases |es|
  {
    if es != [] {
      AheadOccurAll(s, t, got, es[..|es| - 1]);
      AheadOccurs(OccurAll(s, es[..|es| - 1]), OccurAll(t, es[..|es| - 1]), got, es[|es| - 1]);
    }
  }

  lemma AheadTwice(s: Scene, t: Scene, u: Scene, a: Bytes, b: Bytes)
    requires Ahead(s, t, a) && Ahead(t, u, b)
    ensures Ahead(s, u, a + b)
  {
    Regroup(a, b, Unread(u.core));
  }

  /** Nothing to read, and no EOF: a reader that has copied nothing waits. */
  predicate Starves(s: Scene) {
    Unread(s.core) == [] && !s.core.closed
  }

  /** The scenes at the waits of a reader, and behind the last: what happens at each leads to the next. */
  predicate Path(scenes: seq<Scene>, others: seq<seq<Event>>) {
    && 0 < |scenes| <= |others| + 1
    && forall i :: 0 <= i < |scenes| - 1 ==> Starves(scenes[i]) && scenes[i + 1] == OccurAll(scenes[i], others[i])
  }

  lemma PathNext(scenes: seq<Scene>, others: seq<seq<Event>>)
    requires Path(scenes, others) && |scenes| <= |others| && Starves(scenes[|scenes| - 1])
    ensures Path(scenes + [OccurAll(scenes[|scenes| - 1], others[|scenes| - 1])], others)
  {
  }

  lemma PathCons(s: Scene, scenes: seq<Scene>, others: seq<seq<Event>>)
    requires others != [] && Starves(s) && Path(scenes, others[1..]) && scenes[0] == OccurAll(s, others[0])
    ensures Path([s] + scenes, others)
  {
  }

  /**
   * What a Read gives that begins at s with n bytes copied and `space` bytes of buffer left. It waits at
   * the scenes of a path, as long as it has nothing to return; behind the last it is where it would
   * be if all that had happened before, but for what it has read, which is what it returns. It
   * stops short of its buffer only when nothing is left.
   */
  predicate ReadsAlong(s: Scene, space: nat, n: nat, others: seq<seq<Event>>, scenes: seq<Scene>, r: Scene, got: Bytes) {
    && Path(scenes, others) && scenes[0] == s && (|scenes| > 1 ==> n == 0)
    && Ahead(scenes[|scenes| - 1], r, got)
    && |got| <= space && (|got| < space ==> !Available(r.core))
    && (|got| < space && n + |got| == 0 && !r.core.closed ==> |scenes| == |others| + 1)
  }

  /** The same in the middle of the loop: where it would be, where it is, and what it has copied. */
  predicate ReadsOn(s: Scene, others: seq<seq<Event>>, scenes: seq<Scene>, now: Scene, done: Bytes) {
    && Path(scenes, others) && scenes[0] == s && Ahead(scenes[|scenes| - 1], now, done)
  }

  lemma ReadsOnStart(s: Scene, others: seq<seq<Event>>)
    ensures ReadsOn(s, others, [s], s, [])
  {
    assert [] + Unread(s.core) == Unread(s.core);
  }

  /** A wait, with nothing copied and nothing to copy. */
  lemma ReadsOnWait(s: Scene, others: seq<seq<Event>>, scenes: seq<Scene>, now: Scene)
    requires ReadsOn(s, others, scenes, now, []) && |scenes| <= |others| && !Available(now.core) && !now.core.closed
    ensures var es, last := others[|scenes| - 1], scenes[|scenes| - 1];
            ReadsOn(s, others, scenes + [OccurAll(last, es)], OccurAll(now, es), [])
  {
    assert [] + Unread(now.core) == [];
    PathNext(scenes, others);
    AheadOccurAll(scenes[|scenes| - 1], now, [], others[|scenes| - 1]);
  }

  /** Some reading, with nothing copied before. */
  lemma ReadsOnMore(s: Scene, others: seq<seq<Event>>, scenes: seq<Scene>, was: Scene, now: Scene, got: Bytes)
    requires ReadsOn(s, others, scenes, was, []) && Ahead(was, now, got)
    ensures ReadsOn(s, others, scenes, now, got)
  {
    AheadTwice(scenes[|scenes| - 1], was, now, [], got);
    assert [] + got == got;
  }

  /** d is c but for what its reader has copied. */
  predicate Copying(c: Core, d: Core, done: Bytes) {
    SameBut(c, d) && done + Unread(d) == Unread(c)
  }

  lemma CopyingStart(c: Core)
    ensures Copying(c, c, [])
  {
    assert [] + Unread(c) == Unread(c);
  }

  /** One round of the copy keeps the bytes in order, and leaves less. */
  lemma CopyingNext(c: Core, d: Core, done: Bytes, space: nat)
    requires Copying(c, d, done) && space > 0
    ensures Available(d) ==>
              Copying(c, CopyOnce(d, space).0, done + CopyOnce(d, space).1)
              && Backlog(CopyOnce(d, space).0) < Backlog(d)
  {
    if Available(d) {
      CopyShrinks(d, space);
      Regroup(done, CopyOnce(d, space).1, Unread(CopyOnce(d, space).0));
    }
  }

  lemma ReadsOnEnds(s: Scene, space: nat, others: seq<seq<Event>>, scenes: seq<Scene>, now: Scene, done: Bytes)
    requires ReadsOn(s, others, scenes, now, done) && |done| <= space
    requires |done| == space || !Available(now.core)
    requires |done| < space && |done| == 0 && !now.core.closed ==> |scenes| == |others| + 1
    ensures ReadsAlong(s, space, 0, others, scenes, now, done)
  {
  }

  lemma AlongStop(s: Scene, space: nat, n: nat, others: seq<seq<Event>>)
    requires space == 0 || (!Available(s.core) && (n > 0 || s.core.closed || others == []))
    ensures ReadsAlong(s, space, n, others, [s], s, [])
  {
    assert [] + Unread(s.core) == Unread(s.core);
  }

  /** The path of a reader that is ahead, for one that is behind. */
  lemma {:induction false} PathBehind(s: Scene, t: Scene, got: Bytes, others: seq<seq<Event>>, scenes: seq<Scene>)
    returns (back: seq<Scene>)
    requires Path(scenes, others) && scenes[0] == t && Ahead(s, t, got) && (|scenes| > 1 ==> got == [])
    ensures Path(back, others) && back[0] == s && |back| == |scenes|
    ensures Ahead(back[|back| - 1], scenes[|scenes| - 1], got)
    decreases |scenes|
  {
    if |scenes| == 1 {
      back := [s];
    } else {
      var more := scenes[1..];
      AheadOccurAll(s, t, got, others[0]);
      PathTail(scenes, others);
      var rest := PathBehind(OccurAll(s, others[0]), OccurAll(t, others[0]), got, others[1..], more);
      PathCons(s, rest, others);
      back := [s] + rest;
    }
  }

  lemma PathTail(scenes: seq<Scene>, others: seq<seq<Event>>)
    requires Path(scenes, others) && |scenes| > 1
    ensures Path(scenes[1..], others[1..]) && scenes[1] == OccurAll(scenes[0], others[0]) && Starves(scenes[0])
  {
    assert scenes[0 + 1] == OccurAll(scenes[0], others[0]);
    forall i | 0 <= i < |scenes[1..]| - 1
      ensures Starves(scenes[1..][i]) && scenes[1..][i + 1] == OccurAll(scenes[1..][i], others[1..][i])
    {
      assert scenes[1..][i] == scenes[i + 1] && scenes[1..][i + 1] == scenes[(i + 1) + 1];
    }
  }

  lemma AlongCopy(s: Scene, space: nat, n: nat, others: seq<seq<Event>>, ahead: seq<Scene>, r: Scene, more: Bytes)
    returns (scenes: seq<Scene>)
    requires space > 0 && Available(s.core)
    requires var (c1, part) := CopyOnce(s.core, space);
             ReadsAlong(s.(core := c1), space - |part|, n + |part|, others, ahead, r, more)
    ensures ReadsAlong(s, space, n, others, scenes, r, CopyOnce(s.core, space).1 + more)
  {
    var (c1, part) := CopyOnce(s.core, space);
    AheadCopy(s, space);
    scenes := PathBehind(s, s.(core := c1), part, others, ahead);
    AheadTwice(scenes[|scenes| - 1], ahead[|ahead| - 1], r, part, more);
  }

  lemma AlongWait(s: Scene, space: nat, others: seq<seq<Event>>, later: seq<Scene>, r: Scene, got: Bytes)
    requires space > 0 && !Available(s.core) && !s.core.closed && others != []
    requires ReadsAlong(OccurAll(s, others[0]), space, 0, others[1..], later, r, got)
    ensures ReadsAlong(s, space, 0, others, [s] + later, r, got)
  {
    PathCons(s, later, others);
  }

  lemma {:induction false} ReadLoopIsExact(s: Scene, space: nat, n: nat, others: seq<seq<Event>>)
    returns (scenes: seq<Scene>)
    ensures ReadsAlong(s, space, n, others, scenes, ReadLoop(s, space, n, others).0, ReadLoop(s, space, n, others).1)
    decreases |others|, Backlog(s.core)
  {
    if space > 0 && Available(s.core) {
      CopyShrinks(s.core, space);
      var (c1, part) := CopyOnce(s.core, space);
      var ahead := ReadLoopIsExact(s.(core := c1), space - |part|, n + |part|, others);
      var r := ReadLoop(s.(core := c1), space - |part|, n + |part|, others);
      scenes := AlongCopy(s, space, n, others, ahead, r.0, r.1);
    } else if space > 0 && !(n > 0 || s.core.closed || others == []) {
      var later := ReadLoopIsExact(OccurAll(s, others[0]), space, n, others[1..]);
      var r := ReadLoop(OccurAll(s, others[0]), space, n, others[1..]);
      AlongWait(s, space, others, later, r.0, r.1);
      scenes := [s] + later;
    } else {
      AlongStop(s, space, n, others);
      scenes := [s];
    }
  }

  lemma {:induction false} PathIsUnique(s: Scene, others: seq<seq<Event>>, a: seq<Scene>, b: seq<Scene>, i: nat)
    requires Path(a, others) && Path(b, others) && a[0] == b[0] == s && i < |a| && i < |b|
    ensures a[i] == b[i]
  {
    if i > 0 {
      PathIsUnique(s, others, a, b, i - 1);
      assert a[(i - 1) + 1] == OccurAll(a[i - 1], others[i - 1]);
      assert b[(i - 1) + 1] == OccurAll(b[i - 1], others[i - 1]);
    }
  }

  /** A Read stops waiting as soon as it need not wait, so no other path is longer. */
  lemma PathEnds(s: Scene, space: nat, others: seq<seq<Event>>, a: seq<Scene>, r: Scene, got: Bytes, b: seq<Scene>)
    requires space > 0 && ReadsAlong(s, space, 0, others, a, r, got) && Path(b, others) && b[0] == s
    ensures |b| <= |a|
  {
    if |a| < |b| {
      PathIsUnique(s, others, a, b, |a| - 1);
    }
  }

  /** Whatever reads along reads the same bytes, and leaves the same but for the division into chunks of
      what is left. */
  lemma ReadIsDetermined(s: Scene, space: nat, others: seq<seq<Event>>,
                         a: seq<Scene>, r: Scene, got: Bytes, b: seq<Scene>, r': Scene, got': Bytes)
    requires space > 0 && ReadsAlong(s, space, 0, others, a, r, got) && ReadsAlong(s, space, 0, others, b, r', got')
    ensures got == got' && Ahead(r, r', [])
  {
    PathEnds(s, space, others, a, r, got, b);
    PathEnds(s, space, others, b, r', got', a);
    PathIsUnique(s, others, a, b, |a| - 1);
    var all := Unread(a[|a| - 1].core);
    SamePart(all, space, got, Unread(r.core), got', Unread(r'.core));
    assert [] + Unread(r'.core) == Unread(r'.core);
  }

  lemma SamePart(all: Bytes, space: nat, a: Bytes, b: Bytes, c: Bytes, d: Bytes)
    requires a + b == all == c + d && |a| <= space && |c| <= space
    requires (|a| < space ==> b == []) && (|c| < space ==> d == [])
    ensures a == c && b == d
  {
    assert |a| == |c|;
    assert a == all[..|a|] && c == all[..|c|] && b == all[|a|..] && d == all[|c|..];
  }
}
