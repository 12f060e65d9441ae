/** A call of Conn.Read and a call of Conn.Write are runs of the steps that the tunnel has for a reader
    and a writer, with the frames that arrive at their waits in between. */
module Runs {
  import opened Prelude
  import opened StreamCore
  import opened Link
  import opened ReadSpec
  import opened Transfer

  // ---------- steps of one end ----------

  datatype ActorStep = Acts(act: Act) | Receives(frame: Frame)

  /** An end, the frames it has sent, and whether it has kept its id. */
  datatype Actor = Actor(half: Half, out: seq<Frame>, keep: bool)

  predicate CanStep(x: Actor, on: bool, step: ActorStep) {
    step.Acts? ==> Can(x.half, on, step.act)
  }

  function StepOn(x: Actor, on: bool, step: ActorStep): Actor
    requires CanStep(x, on, step)
  {
    var e := match step case Acts(a) => Do(x.half, on, a) case Receives(f) => Receive(x.half, f);
    Actor(e.half, x.out + e.out, x.keep && e.keep)
  }

  predicate CanRun(x: Actor, on: bool, steps: seq<ActorStep>)
    decreases |steps|
  {
    steps == [] || (CanStep(x, on, steps[0]) && CanRun(StepOn(x, on, steps[0]), on, steps[1..]))
  }

  function RunOn(x: Actor, on: bool, steps: seq<ActorStep>): Actor
    requires CanRun(x, on, steps)
    decreases |steps|
  {
    if steps == [] then x else RunOn(StepOn(x, on, steps[0]), on, steps[1..])
  }

  lemma RunCons(x: Actor, on: bool, step: ActorStep, more: seq<ActorStep>)
    requires CanStep(x, on, step) && CanRun(StepOn(x, on, step), on, more)
    ensures CanRun(x, on, [step] + more) && RunOn(x, on, [step] + more) == RunOn(StepOn(x, on, step), on, more)
  {
    assert ([step] + more)[1..] == more;
  }

  lemma {:induction false} RunAppend(x: Actor, on: bool, a: seq<ActorStep>, b: seq<ActorStep>)
    requires CanRun(x, on, a) && CanRun(RunOn(x, on, a), on, b)
    ensures CanRun(x, on, a + b) && RunOn(x, on, a + b) == RunOn(RunOn(x, on, a), on, b)
    decreases |a|
  {
    if a == [] {
      assert a + b == b;
    } else {
      assert (a + b)[1..] == a[1..] + b;
      RunAppend(StepOn(x, on, a[0]), on, a[1..], b);
    }
  }

  lemma RunOne(x: Actor, on: bool, step: ActorStep)
    requires CanStep(x, on, step)
    ensures CanRun(x, on, [step]) && RunOn(x, on, [step]) == StepOn(x, on, step)
  {
    var y := StepOn(x, on, step);
    assert CanRun(y, on, []) && RunOn(y, on, []) == y;
    RunCons(x, on, step, []);
    assert [step] + [] == [step];
  }

  // ---------- Read ----------

  function SceneOf(x: Actor): Scene {
    Scene(x.half.core, x.out, x.keep)
  }

  function WithScene(x: Actor, s: Scene): Actor {
    Actor(x.half.(core := s.core), s.out, s.keep)
  }

  function EventStep(e: Event): ActorStep {
    match e
    case Comes(f) => Receives(f)
    case Closing => Acts(DoClose)
  }

  function EventSteps(es: seq<Event>): seq<ActorStep> {
    seq(|es|, i requires 0 <= i < |es| => EventStep(es[i]))
  }

  /** What happens at a wait is a run: frames that arrive, and a Close by the writer, who has no slice to
      send then. */
  lemma {:induction false} EventsAreRun(x: Actor, on: bool, es: seq<Event>)
    requires x.half.pending.None?
    ensures CanRun(x, on, EventSteps(es)) && RunOn(x, on, EventSteps(es)) == WithScene(x, OccurAll(SceneOf(x), es))
    decreases |es|
  {
    if es == [] {
      assert EventSteps(es) == [];
    } else {
      var before, e := es[..|es| - 1], es[|es| - 1];
      EventsAreRun(x, on, before);
      var y := WithScene(x, OccurAll(SceneOf(x), before));
      RunOne(y, on, EventStep(e));
      RunAppend(x, on, EventSteps(before), [EventStep(e)]);
      assert EventSteps(es) == EventSteps(before) + [EventStep(e)];
    }
  }

  /** The steps of a reader in the loop of Read: ReadCopy as long as there is a chunk and space for it; at a
      wait, what happens there; and in the end ReadEof, or ReadStop and ReadCredit, or a wait. */
  function ReadSteps(s: Scene, space: nat, n: nat, others: seq<seq<Event>>): seq<ActorStep>
    decreases |others|, Backlog(s.core)
  {
    if space > 0 && Available(s.core) then
      CopyShrinks(s.core, space);
      var (c1, got) := CopyOnce(s.core, space);
      [Acts(ReadCopy)] + ReadSteps(s.(core := c1), space - |got|, n + |got|, others)
    else if space > 0 && n == 0 && !s.core.closed && others != [] then
      EventSteps(others[0]) + ReadSteps(OccurAll(s, others[0]), space, n, others[1..])
    else if space > 0 && s.core.closed then [Acts(ReadEof)]
    else if space > 0 && n == 0 then []
    else [Acts(ReadStop), Acts(ReadCredit)]
  }

  /** What Conn.Read sends at its end, with n bytes in a buffer of this size. */
  function ReadSends(c: Core, size: nat, n: nat): seq<Frame> {
    if n < size && (c.closed || n == 0) then [] else CreditRead(c, n).out
  }

  /** The end of a Read that began with n bytes copied and `space` left: this scene and these bytes, its
      credit sent, and its reader gone, or still waiting. */
  function ReadEnd(x: Actor, space: nat, n: nat, r: Scene, got: Bytes): Actor {
    var waits := |got| < space && n + |got| == 0 && !r.core.closed;
    Actor(x.half.(core := r.core, taken := x.half.taken + got, reader := if waits then Reading(space, 0) else Idle),
          r.out + ReadSends(r.core, n + space, n + |got|), r.keep)
  }

  /** These steps of a reader in the loop of Read bring it to this end. */
  predicate ReadsTo(x: Actor, on: bool, steps: seq<ActorStep>, r: Scene, got: Bytes) {
    && x.half.reader.Reading? && CanRun(x, on, steps)
    && RunOn(x, on, steps) == ReadEnd(x, x.half.reader.space, x.half.reader.n, r, got)
  }

  /** They bring it to the end of its Read. */
  predicate IsRead(x: Actor, on: bool, steps: seq<ActorStep>, others: seq<seq<Event>>) {
    && x.half.reader.Reading?
    && var r := ReadLoop(SceneOf(x), x.half.reader.space, x.half.reader.n, others);
       ReadsTo(x, on, steps, r.0, r.1)
  }

  lemma CreditIsRun(x: Actor, on: bool)
    requires Can(x.half, on, ReadStop)
    ensures var steps := [Acts(ReadStop), Acts(ReadCredit)];
            && CanRun(x, on, steps)
            && RunOn(x, on, steps) == Actor(x.half.(reader := Idle), x.out + CreditRead(x.half.core, x.half.reader.n).out, x.keep)
  {
    var y := StepOn(x, on, Acts(ReadStop));
    assert x.out + [] == x.out;
    RunOne(y, on, Acts(ReadCredit));
    RunCons(x, on, Acts(ReadStop), [Acts(ReadCredit)]);
    assert [Acts(ReadStop)] + [Acts(ReadCredit)] == [Acts(ReadStop), Acts(ReadCredit)];
  }

  lemma StopIsRun(x: Actor, on: bool, others: seq<seq<Event>>)
    requires x.half.reader.Reading?
    requires var (space, n, c) := (x.half.reader.space, x.half.reader.n, x.half.core);
             space == 0 || (!Available(c) && (n > 0 || c.closed || others == []))
    ensures IsRead(x, on, ReadSteps(SceneOf(x), x.half.reader.space, x.half.reader.n, others), others)
  {
    var space, n, c := x.half.reader.space, x.half.reader.n, x.half.core;
    assert x.half.taken + [] == x.half.taken && x.out + [] == x.out;
    if space > 0 && c.closed {
      RunOne(x, on, Acts(ReadEof));
    } else if space == 0 || n > 0 {
      CreditIsRun(x, on);
    }
  }

  lemma CopyEnds(x: Actor, on: bool, r: Scene, rest: Bytes)
    requires Can(x.half, on, ReadCopy)
    ensures var y := StepOn(x, on, Acts(ReadCopy));
            var got := CopyOnce(x.half.core, x.half.reader.space).1;
            && y.half.reader == Reading(x.half.reader.space - |got|, x.half.reader.n + |got|)
            && SceneOf(y) == SceneOf(x).(core := CopyOnce(x.half.core, x.half.reader.space).0)
            && ReadEnd(y, y.half.reader.space, y.half.reader.n, r, rest) ==
               ReadEnd(x, x.half.reader.space, x.half.reader.n, r, got + rest)
  {
    assert x.out + [] == x.out;
    Regroup(x.half.taken, CopyOnce(x.half.core, x.half.reader.space).1, rest);
  }

  lemma CopyRuns(x: Actor, on: bool, more: seq<ActorStep>, r: Scene, rest: Bytes)
    requires Can(x.half, on, ReadCopy) && ReadsTo(StepOn(x, on, Acts(ReadCopy)), on, more, r, rest)
    ensures ReadsTo(x, on, [Acts(ReadCopy)] + more, r, CopyOnce(x.half.core, x.half.reader.space).1 + rest)
  {
    CopyEnds(x, on, r, rest);
    RunCons(x, on, Acts(ReadCopy), more);
  }

  lemma CopyIsRun(x: Actor, on: bool, more: seq<ActorStep>, others: seq<seq<Event>>)
    requires Can(x.half, on, ReadCopy) && IsRead(StepOn(x, on, Acts(ReadCopy)), on, more, others)
    ensures IsRead(x, on, [Acts(ReadCopy)] + more, others)
  {
    var y := StepOn(x, on, Acts(ReadCopy));
    var r := ReadLoop(SceneOf(y), y.half.reader.space, y.half.reader.n, others);
    CopyRuns(x, on, more, r.0, r.1);
    LoopAfterCopy(x, on, others);
  }

  lemma LoopAfterCopy(x: Actor, on: bool, others: seq<seq<Event>>)
    requires Can(x.half, on, ReadCopy)
    ensures var y := StepOn(x, on, Acts(ReadCopy));
            && y.half.reader.Reading?
            && var r := ReadLoop(SceneOf(y), y.half.reader.space, y.half.reader.n, others);
               ReadLoop(SceneOf(x), x.half.reader.space, x.half.reader.n, others) ==
               (r.0, CopyOnce(x.half.core, x.half.reader.space).1 + r.1)
  {
    CopyEnds(x, on, SceneOf(x), []);
    LoopCopies(SceneOf(x), x.half.reader.space, x.half.reader.n, others);
  }

  lemma LoopCopies(s: Scene, space: nat, n: nat, others: seq<seq<Event>>)
    requires space > 0 && Available(s.core)
    ensures var (c1, got) := CopyOnce(s.core, space);
            var r := ReadLoop(s.(core := c1), space - |got|, n + |got|, others);
            && ReadSteps(s, space, n, others) ==
               [Acts(ReadCopy)] + ReadSteps(s.(core := c1), space - |got|, n + |got|, others)
            && ReadLoop(s, space, n, others) == (r.0, got + r.1)
  {
  }

  lemma WaitIsRun(x: Actor, on: bool, more: seq<ActorStep>, others: seq<seq<Event>>)
    requires x.half.reader.Reading? && x.half.reader.space > 0 && x.half.reader.n == 0 && x.half.pending.None?
    requires !Available(x.half.core) && !x.half.core.closed && others != []
    requires IsRead(WithScene(x, OccurAll(SceneOf(x), others[0])), on, more, others[1..])
    ensures IsRead(x, on, EventSteps(others[0]) + more, others)
  {
    var s, space := OccurAll(SceneOf(x), others[0]), x.half.reader.space;
    var r := ReadLoop(s, space, 0, others[1..]);
    assert RunOn(WithScene(x, s), on, more) == ReadEnd(WithScene(x, s), space, 0, r.0, r.1);
    EndsSame(x, s, space, r.0, r.1);
    LoopWaits(SceneOf(x), space, others);
    EventsAreRun(x, on, others[0]);
    RunAppend(x, on, EventSteps(others[0]), more);
  }

  lemma EndsSame(x: Actor, s: Scene, space: nat, r: Scene, got: Bytes)
    ensures ReadEnd(WithScene(x, s), space, 0, r, got) == ReadEnd(x, space, 0, r, got) && SceneOf(WithScene(x, s)) == s
  {
  }

  lemma LoopWaits(s: Scene, space: nat, others: seq<seq<Event>>)
    requires space > 0 && !Available(s.core) && !s.core.closed && others != []
    ensures ReadLoop(s, space, 0, others) == ReadLoop(OccurAll(s, others[0]), space, 0, others[1..])
    ensures ReadSteps(s, space, 0, others) ==
            EventSteps(others[0]) + ReadSteps(OccurAll(s, others[0]), space, 0, others[1..])
  {
  }

  /** The steps that are left to a reader in the loop of Read. */
  function StepsOf(x: Actor, others: seq<seq<Event>>): seq<ActorStep>
    requires x.half.reader.Reading?
  {
    ReadSteps(SceneOf(x), x.half.reader.space, x.half.reader.n, others)
  }

  lemma CopyThenLoop(x: Actor, on: bool, others: seq<seq<Event>>)
    requires Can(x.half, on, ReadCopy)
    requires var y := StepOn(x, on, Acts(ReadCopy)); y.half.reader.Reading? && IsRead(y, on, StepsOf(y, others), others)
    ensures IsRead(x, on, StepsOf(x, others), others)
  {
    var y := StepOn(x, on, Acts(ReadCopy));
    CopySteps(x, on, others);
    CopyIsRun(x, on, StepsOf(y, others), others);
  }

  lemma CopySteps(x: Actor, on: bool, others: seq<seq<Event>>)
    requires Can(x.half, on, ReadCopy)
    ensures var y := StepOn(x, on, Acts(ReadCopy));
            y.half.reader.Reading? && StepsOf(x, others) == [Acts(ReadCopy)] + StepsOf(y, others)
  {
    CopyEnds(x, on, SceneOf(x), []);
    LoopCopies(SceneOf(x), x.half.reader.space, x.half.reader.n, others);
  }

  lemma WaitThenLoop(x: Actor, on: bool, others: seq<seq<Event>>)
    requires x.half.reader.Reading? && x.half.reader.space > 0 && x.half.reader.n == 0 && x.half.pending.None?
    requires !Available(x.half.core) && !x.half.core.closed && others != []
    requires var y := WithScene(x, OccurAll(SceneOf(x), others[0])); IsRead(y, on, StepsOf(y, others[1..]), others[1..])
    ensures IsRead(x, on, StepsOf(x, others), others)
  {
    var y := WithScene(x, OccurAll(SceneOf(x), others[0]));
    WaitIsRun(x, on, StepsOf(y, others[1..]), others);
    LoopWaits(SceneOf(x), x.half.reader.space, others);
  }

  lemma {:induction false} LoopIsRun(x: Actor, on: bool, others: seq<seq<Event>>)
    requires x.half.reader.Reading? && x.half.pending.None?
    ensures IsRead(x, on, StepsOf(x, others), others)
    decreases |others|, Backlog(x.half.core)
  {
    var space, n, c := x.half.reader.space, x.half.reader.n, x.half.core;
    if space > 0 && Available(c) {
      CopyShrinks(c, space);
      CopyEnds(x, on, SceneOf(x), []);
      LoopIsRun(StepOn(x, on, Acts(ReadCopy)), on, others);
      CopyThenLoop(x, on, others);
    } else if space > 0 && n == 0 && !c.closed && others != [] {
      LoopIsRun(WithScene(x, OccurAll(SceneOf(x), others[0])), on, others[1..]);
      WaitThenLoop(x, on, others);
    } else {
      StopIsRun(x, on, others);
    }
  }

  /** One call of Conn.Read is the run ReadCall, ReadCopy as often as it can, what happens at its waits, and
      in the end ReadEof, or ReadStop and ReadCredit, or a wait; and it reads along, as the class
      method does, so that the two read the same bytes and leave and send the same. */
  lemma ReadIsRun(h: Half, on: bool, size: nat, others: seq<seq<Event>>) returns (scenes: seq<Scene>)
    requires h.reader.Idle? && h.pending.None? && size > 0
    ensures var s := Scene(h.core, [], true);
            var steps, r := [Acts(ReadCall(size))] + ReadSteps(s, size, 0, others), ReadLoop(s, size, 0, others);
            && CanRun(Actor(h, [], true), on, steps)
            && RunOn(Actor(h, [], true), on, steps) == ReadEnd(Actor(h, [], true), size, 0, r.0, r.1)
            && ReadsAlong(s, size, 0, others, scenes, r.0, r.1)
  {
    var x := Actor(h, [], true);
    var y := StepOn(x, on, Acts(ReadCall(size)));
    assert y == Actor(h.(reader := Reading(size, 0)), [], true);
    LoopIsRun(y, on, others);
    RunCons(x, on, Acts(ReadCall(size)), ReadSteps(SceneOf(y), size, 0, others));
    scenes := ReadLoopIsExact(SceneOf(x), size, 0, others);
  }

  // ---------- Write ----------

  function CreditSteps(credits: seq<nat>): seq<ActorStep> {
    seq(|credits|, i requires 0 <= i < |credits| => Receives(Wnd(credits[i])))
  }

  /** The steps of a writer: for each chunk BeginWrite, the credits that come at its wait for window, and
      FinishWrite; or BeginWrite and a wait at which no more comes. */
  function WriteSteps(w: int, chunks: seq<Bytes>, credits: seq<nat>): seq<ActorStep>
    decreases |chunks|
  {
    if chunks == [] then []
    else
      var (w1, u, ok) := Slice(w, |chunks[0]|, credits);
      [Acts(BeginWrite(chunks[0]))] + (CreditSteps(credits[..u])
      + if ok then [Acts(FinishWrite)] + WriteSteps(w1, chunks[1..], credits[u..]) else [])
  }

  /** The end of a Write that has come as far as s. */
  function WriteEnd(x: Actor, chunks: seq<Bytes>, s: Sent): Actor
    requires s.chunks <= |chunks| && (s.parked ==> s.chunks < |chunks|)
  {
    Actor(x.half.(core := x.half.core.(window := s.window), written := x.half.written + Join(chunks[..s.chunks]),
                  pending := if s.parked then Some(chunks[s.chunks]) else None),
          x.out + DataFrames(chunks[..s.chunks]), x.keep)
  }

  /** These steps bring a Write as far as s. */
  predicate WritesTo(x: Actor, on: bool, chunks: seq<Bytes>, steps: seq<ActorStep>, s: Sent) {
    && s.chunks <= |chunks| && (s.parked ==> s.chunks < |chunks|)
    && CanRun(x, on, steps) && RunOn(x, on, steps) == WriteEnd(x, chunks, s)
  }

  predicate IsWrite(x: Actor, on: bool, chunks: seq<Bytes>, credits: seq<nat>) {
    var w := x.half.core.window;
    WritesTo(x, on, chunks, WriteSteps(w, chunks, credits), Sending(w, chunks, credits))
  }

  function WithWindow(x: Actor, w: int): Actor {
    x.(half := x.half.(core := x.half.core.(window := w)))
  }

  /** The credits that come at a wait. */
  lemma {:induction false} CreditsAreRun(x: Actor, on: bool, len: nat, credits: seq<nat>)
    ensures var (w1, u) := Wait(x.half.core.window, len, credits);
            && CanRun(x, on, CreditSteps(credits[..u]))
            && RunOn(x, on, CreditSteps(credits[..u])) == WithWindow(x, w1)
    decreases |credits|
  {
    var (w1, u) := Wait(x.half.core.window, len, credits);
    if u == 0 {
      assert CreditSteps(credits[..0]) == [];
    } else {
      var y := StepOn(x, on, Receives(Wnd(credits[0])));
      assert x.out + [] == x.out;
      CreditsAreRun(y, on, len, credits[1..]);
      RunCons(x, on, Receives(Wnd(credits[0])), CreditSteps(credits[1..][..u - 1]));
      CreditStepsFirst(credits, u);
    }
  }

  lemma CreditStepsFirst(credits: seq<nat>, u: nat)
    requires 0 < u <= |credits|
    ensures CreditSteps(credits[..u]) == [Receives(Wnd(credits[0]))] + CreditSteps(credits[1..][..u - 1])
  {
    var a, b := CreditSteps(credits[..u]), [Receives(Wnd(credits[0]))] + CreditSteps(credits[1..][..u - 1]);
    forall i | 0 <= i < u
      ensures a[i] == b[i]
    {
      if i > 0 {
        assert credits[1..][..u - 1][i - 1] == credits[i];
      }
    }
    assert a == b;
  }

  /** A window and credits that 32 bits hold. */
  predicate InRange(w: int, credits: seq<nat>) {
    0 <= w && w + Sum(credits) < 0x8000_0000
  }

  lemma WaitInRange(w: int, len: nat, credits: seq<nat>)
    requires InRange(w, credits)
    ensures var (w1, u) := Wait(w, len, credits); 0 <= w1 && InRange(w1, credits[u..])
  {
    var u := Wait(w, len, credits).1;
    WaitSums(w, len, credits);
    assert credits == credits[..u] + credits[u..];
    SumAppend(credits[..u], credits[u..]);
  }

  /** One chunk up to its wait. */
  lemma BeginIsRun(x: Actor, on: bool, chunk: Bytes, credits: seq<nat>)
    requires x.half.core.status == Est && x.half.pending.None? && |chunk| <= BUFFERSIZE
    ensures var (w1, u) := Wait(x.half.core.window, |chunk|, credits);
            var steps := [Acts(BeginWrite(chunk))] + CreditSteps(credits[..u]);
            && CanRun(x, on, steps)
            && RunOn(x, on, steps) == WithWindow(x, w1).(half := WithWindow(x, w1).half.(pending := Some(chunk)))
  {
    var y := StepOn(x, on, Acts(BeginWrite(chunk)));
    assert x.out + [] == x.out;
    CreditsAreRun(y, on, |chunk|, credits);
    RunCons(x, on, Acts(BeginWrite(chunk)), CreditSteps(credits[..Wait(x.half.core.window, |chunk|, credits).1]));
  }

  lemma ParkIsRun(x: Actor, on: bool, chunks: seq<Bytes>, credits: seq<nat>)
    requires x.half.core.status == Est && x.half.pending.None? && chunks != [] && |chunks[0]| <= BUFFERSIZE
    requires !Slice(x.half.core.window, |chunks[0]|, credits).2
    ensures IsWrite(x, on, chunks, credits)
  {
    BeginIsRun(x, on, chunks[0], credits);
    var u := Slice(x.half.core.window, |chunks[0]|, credits).1;
    assert CreditSteps(credits[..u]) + [] == CreditSteps(credits[..u]);
    assert chunks[..0] == [] && x.half.written + [] == x.half.written && x.out + DataFrames([]) == x.out;
  }

  /** After one chunk that is sent. */
  function Wrote(x: Actor, chunk: Bytes, w: int): Actor {
    Actor(x.half.(core := x.half.core.(window := w), written := x.half.written + chunk), x.out + [Data(chunk)], x.keep)
  }

  /** The steps for a chunk that is sent after these credits. */
  function FirstSteps(chunk: Bytes, credits: seq<nat>): seq<ActorStep> {
    ([Acts(BeginWrite(chunk))] + CreditSteps(credits)) + [Acts(FinishWrite)]
  }

  lemma SendIsRun(x: Actor, on: bool, chunk: Bytes, credits: seq<nat>)
    requires x.half.core.status == Est && x.half.pending.None? && |chunk| <= BUFFERSIZE
    requires InRange(x.half.core.window, credits) && Slice(x.half.core.window, |chunk|, credits).2
    ensures var (w1, u, _) := Slice(x.half.core.window, |chunk|, credits);
            var steps := FirstSteps(chunk, credits[..u]);
            && CanRun(x, on, steps) && RunOn(x, on, steps) == Wrote(x, chunk, w1) && InRange(w1, credits[u..])
  {
    var w, u := Wait(x.half.core.window, |chunk|, credits).0, Wait(x.half.core.window, |chunk|, credits).1;
    BeginIsRun(x, on, chunk, credits);
    WaitInRange(x.half.core.window, |chunk|, credits);
    var y := WithWindow(x, w).(half := WithWindow(x, w).half.(pending := Some(chunk)));
    RunOne(y, on, Acts(FinishWrite));
    RunAppend(x, on, [Acts(BeginWrite(chunk))] + CreditSteps(credits[..u]), [Acts(FinishWrite)]);
  }

  /** One chunk sent and the others are all of them. */
  lemma EndsAdd(x: Actor, chunks: seq<Bytes>, w: int, u: nat, s: Sent)
    requires chunks != [] && s.chunks <= |chunks| - 1 && (s.parked ==> s.chunks < |chunks| - 1) && x.half.pending.None?
    ensures WriteEnd(Wrote(x, chunks[0], w), chunks[1..], s) ==
            WriteEnd(x, chunks, Sent(s.chunks + 1, |chunks[0]| + s.n, s.window, u + s.used, s.parked))
  {
    var k := s.chunks;
    assert chunks[..k + 1] == [chunks[0]] + chunks[1..][..k];
    JoinCons(chunks[0], chunks[1..][..k]);
    Regroup(x.half.written, chunks[0], Join(chunks[1..][..k]));
    assert (x.out + [Data(chunks[0])]) + DataFrames(chunks[1..][..k]) == x.out + DataFrames(chunks[..k + 1]);
  }

  lemma MoreRuns(x: Actor, on: bool, chunks: seq<Bytes>, w: int, u: nat,
                 first: seq<ActorStep>, later: seq<ActorStep>, s: Sent)
    requires chunks != [] && x.half.pending.None?
    requires CanRun(x, on, first) && RunOn(x, on, first) == Wrote(x, chunks[0], w)
    requires WritesTo(Wrote(x, chunks[0], w), on, chunks[1..], later, s)
    ensures WritesTo(x, on, chunks, first + later,
                     Sent(s.chunks + 1, |chunks[0]| + s.n, s.window, u + s.used, s.parked))
  {
    RunAppend(x, on, first, later);
    EndsAdd(x, chunks, w, u, s);
  }

  lemma MoreIsRun(x: Actor, on: bool, chunks: seq<Bytes>, credits: seq<nat>, w: int, u: nat)
    requires x.half.pending.None? && chunks != []
    requires Slice(x.half.core.window, |chunks[0]|, credits) == (w, u, true)
    requires var first := FirstSteps(chunks[0], credits[..u]);
             CanRun(x, on, first) && RunOn(x, on, first) == Wrote(x, chunks[0], w)
    requires WritesTo(Wrote(x, chunks[0], w), on, chunks[1..],
                      WriteSteps(w, chunks[1..], credits[u..]), Sending(w, chunks[1..], credits[u..]))
    ensures IsWrite(x, on, chunks, credits)
  {
    var later, s := WriteSteps(w, chunks[1..], credits[u..]), Sending(w, chunks[1..], credits[u..]);
    MoreRuns(x, on, chunks, w, u, FirstSteps(chunks[0], credits[..u]), later, s);
    StepsFirst(x.half.core.window, chunks, credits);
    SendingStep(x.half.core.window, chunks, credits);
  }

  lemma StepsFirst(w: int, chunks: seq<Bytes>, credits: seq<nat>)
    requires chunks != [] && Slice(w, |chunks[0]|, credits).2
    ensures var (w1, u, _) := Slice(w, |chunks[0]|, credits);
            WriteSteps(w, chunks, credits) ==
            FirstSteps(chunks[0], credits[..u]) + WriteSteps(w1, chunks[1..], credits[u..])
  {
    var (w1, u, _) := Slice(w, |chunks[0]|, credits);
    StepsRegroup([Acts(BeginWrite(chunks[0]))], CreditSteps(credits[..u]), [Acts(FinishWrite)],
                 WriteSteps(w1, chunks[1..], credits[u..]));
  }

  lemma StepsRegroup(a: seq<ActorStep>, b: seq<ActorStep>, c: seq<ActorStep>, d: seq<ActorStep>)
    ensures a + (b + (c + d)) == ((a + b) + c) + d
  {
  }

  /** The chunks that a Write sends are BeginWrite and FinishWrite, one pair for each, with the credits of
      its waits in between; window, bytes written and frames are those that the class method is proved
      to give, and a Write that is parked leaves its next chunk pending. */
  lemma {:induction false} WriteIsRun(x: Actor, on: bool, chunks: seq<Bytes>, credits: seq<nat>)
    requires x.half.core.status == Est && x.half.pending.None? && InRange(x.half.core.window, credits)
    requires forall i :: 0 <= i < |chunks| ==> |chunks[i]| <= BUFFERSIZE
    ensures IsWrite(x, on, chunks, credits)
    ensures var w, n := x.half.core.window, |x.out|;
            var s, out := Sending(w, chunks, credits), RunOn(x, on, WriteSteps(w, chunks, credits)).out;
            && |out| == n + s.chunks && x.out <= out
            && forall i :: 0 <= i < s.chunks ==> out[n + i] == Data(chunks[i])
    decreases |chunks|
  {
    if chunks == [] {
      assert x.half.written + [] == x.half.written && x.out + DataFrames([]) == x.out;
      assert chunks[..0] == [];
    } else {
      var (w1, u, ok) := Slice(x.half.core.window, |chunks[0]|, credits);
      if ok {
        SendIsRun(x, on, chunks[0], credits);
        WriteIsRun(Wrote(x, chunks[0], w1), on, chunks[1..], credits[u..]);
        MoreIsRun(x, on, chunks, credits, w1, u);
      } else {
        ParkIsRun(x, on, chunks, credits);
      }
    }
  }
}
