/** Feeding layers to the neural-network accelerator and the life of a run (lib/drivers/kpu.c).

    Several cores share the driver's context.  A run begins with kpu_run on one of them, whose assignments to the
    context are separate steps, and so are the lines of kpu_continue, which the accelerator's interrupt and the end
    of the input transfer call.  The completion handler frees the context in one step and reads the callback in
    another.  All these interrupts have the same priority, so that a core in one of the handlers takes no other and
    does nothing else until it is out; another core may do anything meanwhile. */
module Kpu {

  type Callback = nat

  /** The registers of one layer. */
  datatype Layer = Layer(interruptEnable: bv64, imageAddr: bv64, imageChannelNum: bv64, imageSize: bv64,
                         kernelPoolTypeCfg: bv64, kernelLoadCfg: bv64, kernelOffset: bv64, kernelCalcTypeCfg: bv64,
                         writeBackCfg: bv64, convValue: bv64, convValue2: bv64, dmaParameter: bv64)

  /** The memory that holds layers, by the place of a layer in it. */
  type Pointer = nat
  type Memory = Pointer -> Layer

  /** The twelve words of a layer in the order of the argument FIFO. */
  function Encode(l: Layer): (ws: seq<bv64>)
    ensures |ws| == 12
  {
    [l.interruptEnable, l.imageAddr, l.imageChannelNum, l.imageSize]
    + [l.kernelPoolTypeCfg, l.kernelLoadCfg, l.kernelOffset, l.kernelCalcTypeCfg]
    + [l.writeBackCfg, l.convValue, l.convValue2, l.dmaParameter]
  }

  function EncodeAll(layers: seq<Layer>): (ws: seq<bv64>)
    ensures |ws| == 12 * |layers|
  {
    if layers == [] then [] else EncodeAll(layers[..|layers| - 1]) + Encode(layers[|layers| - 1])
  }

  /** The last layer sends its output and interrupts: bit 0 of two of its registers. */
  function Marked(l: Layer): Layer {
    l.(dmaParameter := l.dmaParameter | 1, interruptEnable := l.interruptEnable | 1)
  }

  function Prepared(layers: seq<Layer>): (p: seq<Layer>)
    requires layers != []
    ensures |p| == |layers|
  {
    layers[|layers| - 1 := Marked(layers[|layers| - 1])]
  }

  function Slice(mem: Memory, p: Pointer, n: nat): (s: seq<Layer>)
    ensures |s| == n && forall i :: 0 <= i < n ==> s[i] == mem(p + i)
  {
    seq(n, i requires 0 <= i => mem(p + i))
  }

  function Put(mem: Memory, at: Pointer, l: Layer): Memory { (p: Pointer) => if p == at then l else mem(p) }

  lemma EncodeAllPush(layers: seq<Layer>, k: nat)
    requires k < |layers|
    ensures EncodeAll(layers[..k + 1]) == EncodeAll(layers[..k]) + Encode(layers[k])
  {
    assert layers[..k + 1][..k] == layers[..k];
  }

  // ----- the system -----

  type Core = nat

  /** The part of kpu_task_t that matters: in the caller's hands and, copied, in the context. */
  datatype Task = Task(layers: Pointer, remain: Pointer, cb: Callback, length: nat, left: nat)

  /** The arguments of kpu_run: the caller's structure and the callback that replaces the one in it; and the core
      that calls it. */
  datatype Request = Request(core: Core, task: Task, callback: Callback)

  /** How far the current start has come: the context claimed; its pointers, its callback and its lengths copied
      from the caller's structure; the last layer marked; the callback, the remaining length and the remaining
      layers set; the accelerator's interrupt enabled.  At rest no start is in progress. */
  datatype Stage = AtRest | Claimed | PointersCopied | CallbackCopied | LengthsCopied | LastMarked | CallbackSet
                 | LengthSet | LayersSet | Enabled

  /** The transfer that is pending on the DMA channel. */
  datatype Phase = Quiet | Input | Output

  /** The next line of kpu_continue: the tests of the remaining length, the loop over at most one layer and the
      assignment behind it, or the loop over one layer and the two assignments behind it. */
  datatype Point = Test | Single(i: nat) | Clear | Burst | Advance | Decrease

  /** A call of kpu_continue: none, or one that runs on a core. */
  datatype Activation = Outside | Inside(core: Core, point: Point)

  /** The two interrupts that call it.  Neither is taken again, on any core, before its handler is out. */
  datatype Source = Ai | Dma

  /** A completion handler that has freed the context, and the core it runs on. */
  datatype Handler = Handler(run: nat, core: Core)

  /** What can happen: a core tries to claim the context, the accepted start goes on by one line, a core takes the
      interrupt at the end of the input transfer, or that of the accelerator, a call of kpu_continue goes on by one
      line, a core takes the interrupt at the end of the output transfer, and one of the handlers that have freed
      the context goes on to read and call the callback.  What cannot happen in a state does nothing. */
  datatype Event = Claim(request: Request) | Proceed | InputDone(core: Core) | Interrupt(core: Core)
                 | Continue(source: Source) | OutputDone(core: Core) | Notify(which: nat)

  /** What happened to the runs: their requests, the completed ones, the completion handlers that have not read
      the callback yet, and those that have, with what they called. */
  datatype Runs = Runs(accepted: seq<Request>, completed: nat, pending: seq<Handler>, answered: seq<nat>,
                       called: seq<Callback>)

  /** The FIFO since the last claim.  `calls` are the calls of kpu_continue that have returned since the remaining
      layers were set, and `image` the caller's layers at the claim. */
  datatype Stream = Stream(fifo: seq<bv64>, calls: nat, image: seq<Layer>)

  /** `enabled` are the cores on which the interrupts are enabled, which they stay. */
  datatype State = State(busy: bool, stage: Stage, phase: Phase, enabled: set<Core>, ai: Activation, dma: Activation,
                         mem: Memory, ctx: Task, stream: Stream, runs: Runs)

  function Init(mem: Memory): State {
    State(false, AtRest, Quiet, {}, Outside, Outside, mem, Task(0, 0, 0, 0, 0), Stream([], 0, []),
          Runs([], 0, [], [], []))
  }

  predicate On(a: Activation, c: Core) { a.Inside? && a.core == c }

  /** The core is in none of the handlers. */
  predicate Free(s: State, c: Core) {
    !On(s.ai, c) && !On(s.dma, c) && forall h :: h in s.runs.pending ==> h.core != c
  }

  predicate Takes(s: State, c: Core) { c in s.enabled && Free(s, c) }

  function Pushed(x: Stream, l: Layer): Stream { x.(fifo := x.fifo + Encode(l)) }

  function Returned(x: Stream): Stream { x.(calls := x.calls + 1) }

  /** The remaining length is unsigned and has 32 bits. */
  function Less(left: nat): nat { if left == 0 then 0xFFFF_FFFF else left - 1 }

  datatype Continuation = Continuation(ctx: Task, stream: Stream, call: Activation)

  /** One line of kpu_continue on the context and the FIFO. */
  function ContinueLine(mem: Memory, ctx: Task, x: Stream, a: Activation): Continuation {
    match a
    case Outside => Continuation(ctx, x, a)
    case Inside(c, point) =>
      match point
      case Test =>
        if ctx.left == 0 then Continuation(ctx, Returned(x), Outside)
        else Continuation(ctx, x, Inside(c, if ctx.left <= 1 then Single(0) else Burst))
      case Single(i) =>
        if i < ctx.left then Continuation(ctx, Pushed(x, mem(ctx.remain + i)), Inside(c, Single(i + 1)))
        else Continuation(ctx, x, Inside(c, Clear))
      case Clear => Continuation(ctx.(left := 0), Returned(x), Outside)
      case Burst => Continuation(ctx, Pushed(x, mem(ctx.remain)), Inside(c, Advance))
      case Advance => Continuation(ctx.(remain := ctx.remain + 1), x, Inside(c, Decrease))
      case Decrease => Continuation(ctx.(left := Less(ctx.left)), Returned(x), Outside)
  }

  function Continued(s: State, source: Source): State {
    var k := ContinueLine(s.mem, s.ctx, s.stream, if source == Ai then s.ai else s.dma);
    if source == Ai then s.(ctx := k.ctx, stream := k.stream, ai := k.call)
    else s.(ctx := k.ctx, stream := k.stream, dma := k.call)
  }

  predicate Accepts(s: State, q: Request) { q.task.length > 0 && !s.busy && Free(s, q.core) }

  function Current(s: State): Request
    requires s.runs.accepted != []
  {
    s.runs.accepted[|s.runs.accepted| - 1]
  }

  /** The next line of the start in progress. */
  function Line(s: State): State
    requires s.runs.accepted != []
    requires s.stage == LengthsCopied ==> s.ctx.length > 0
  {
    var q := Current(s);
    match s.stage
    case AtRest => s
    case Claimed => s.(stage := PointersCopied, ctx := s.ctx.(layers := q.task.layers, remain := q.task.remain))
    case PointersCopied => s.(stage := CallbackCopied, ctx := s.ctx.(cb := q.task.cb))
    case CallbackCopied => s.(stage := LengthsCopied, ctx := s.ctx.(length := q.task.length, left := q.task.left))
    case LengthsCopied =>
      var last := s.ctx.layers + s.ctx.length - 1;
      s.(stage := LastMarked, mem := Put(s.mem, last, Marked(s.mem(last))))
    case LastMarked => s.(stage := CallbackSet, ctx := s.ctx.(cb := q.callback))
    case CallbackSet => s.(stage := LengthSet, ctx := s.ctx.(left := s.ctx.length))
    case LengthSet => s.(stage := LayersSet, ctx := s.ctx.(remain := s.ctx.layers), stream := s.stream.(calls := 0))
    case LayersSet => s.(stage := Enabled, enabled := s.enabled + {q.core})
    case Enabled => s.(stage := AtRest, phase := Input)
  }

  function Claiming(s: State, q: Request): State {
    s.(busy := true, stage := Claimed,
       stream := Stream([], 0, Slice(s.mem, q.task.layers, q.task.length)),
       runs := s.runs.(accepted := s.runs.accepted + [q]))
  }

  function Finishing(s: State, c: Core): State {
    s.(busy := false, phase := Quiet,
       runs := s.runs.(completed := s.runs.completed + 1,
                       pending := s.runs.pending + [Handler(s.runs.completed, c)]))
  }

  function Notifying(s: State, i: nat): State
    requires i < |s.runs.pending|
  {
    s.(runs := s.runs.(pending := s.runs.pending[..i] + s.runs.pending[i + 1..],
                       answered := s.runs.answered + [s.runs.pending[i].run],
                       called := s.runs.called + [s.ctx.cb]))
  }

  /** Lines are run only by an accepted start. */
  predicate Steady(s: State) {
    && (s.stage != AtRest ==> s.runs.accepted != [])
    && (s.stage == LengthsCopied ==> s.ctx.length > 0)
  }

  /** The start can go on: its core is not in a handler that has interrupted it. */
  predicate Proceeds(s: State)
    requires Steady(s)
  {
    s.stage != AtRest && Free(s, Current(s).core)
  }

  function Step(s: State, e: Event): State
    requires Steady(s)
  {
    match e
    case Claim(q) => if Accepts(s, q) then Claiming(s, q) else s
    case Proceed => if Proceeds(s) then Line(s) else s
    case InputDone(c) =>
      if s.phase == Input && s.dma.Outside? && Takes(s, c) then s.(phase := Output, dma := Inside(c, Test)) else s
    case Interrupt(c) => if s.ai.Outside? && Takes(s, c) then s.(ai := Inside(c, Test)) else s
    case Continue(source) => Continued(s, source)
    case OutputDone(c) => if s.phase == Output && s.dma.Outside? && Takes(s, c) then Finishing(s, c) else s
    case Notify(i) => if i < |s.runs.pending| then Notifying(s, i) else s
  }

  // ----- what every run keeps -----

  function Min(a: nat, b: nat): nat { if a < b then a else b }

  /** A start is in progress and has not set the remaining layers. */
  predicate Unarmed(stage: Stage) { stage != AtRest && stage != LayersSet && stage != Enabled }

  /** Runs do not overlap: a start or a transfer is in progress exactly while the context is claimed. */
  predicate Exclusive(s: State) {
    && |s.runs.accepted| == s.runs.completed + (if s.busy then 1 else 0)
    && (s.busy <==> s.stage != AtRest || s.phase != Quiet)
    && (s.stage != AtRest ==> s.phase == Quiet)
    && (forall q :: q in s.runs.accepted ==> q.task.length > 0)
  }

  /** The callback that stands in the context: of the last request, of the structure it came with while that is
      all that has been copied, or still of the request before. */
  function CallbackInPlace(accepted: seq<Request>, stage: Stage): Callback {
    var n := |accepted|;
    if n == 0 then 0
    else if stage == Claimed || stage == PointersCopied then if n == 1 then 0 else accepted[n - 2].callback
    else if stage == CallbackCopied || stage == LengthsCopied || stage == LastMarked then accepted[n - 1].task.cb
    else accepted[n - 1].callback
  }

  predicate LayersKnown(stage: Stage) { stage != Claimed }

  predicate LengthKnown(stage: Stage) { stage != Claimed && stage != PointersCopied && stage != CallbackCopied }

  predicate LastDone(stage: Stage) { LengthKnown(stage) && stage != LengthsCopied }

  /** The context agrees with the request as far as it has been set. */
  predicate Contextual(s: State) {
    && s.ctx.cb == CallbackInPlace(s.runs.accepted, s.stage)
    && (s.runs.accepted != [] ==>
          var t := Current(s).task;
          && (LayersKnown(s.stage) ==> s.ctx.layers == t.layers)
          && (LengthKnown(s.stage) ==> s.ctx.length == t.length))
  }

  /** The layers in memory are the caller's, with the last one marked once that line has been run. */
  predicate Remembered(s: State) {
    s.runs.accepted != [] ==>
      var t, image := Current(s).task, s.stream.image;
      && |image| == t.length > 0
      && Slice(s.mem, t.layers, t.length) == if LastDone(s.stage) then Prepared(image) else image
  }

  function Numbers(n: nat): (s: seq<nat>)
    ensures |s| == n && forall i :: 0 <= i < n ==> s[i] == i
  {
    seq(n, i => i)
  }

  function RunsOf(pending: seq<Handler>): (s: seq<nat>)
    ensures |s| == |pending| && forall i :: 0 <= i < |s| ==> s[i] == pending[i].run
  {
    seq(|pending|, i requires 0 <= i < |pending| => pending[i].run)
  }

  /** Every completed run is pending or answered, exactly once. */
  predicate Answered(r: Runs) {
    && multiset(RunsOf(r.pending)) + multiset(r.answered) == multiset(Numbers(r.completed))
    && |r.called| == |r.answered|
  }

  predicate Inv(s: State) {
    Steady(s) && Exclusive(s) && Contextual(s) && Remembered(s) && Answered(s.runs)
  }

  lemma InitInv(mem: Memory)
    ensures Inv(Init(mem))
  {
  }

  /** kpu_continue changes nothing but what remains, the FIFO and its own state. */
  lemma ContinueFacts(mem: Memory, ctx: Task, x: Stream, a: Activation)
    ensures var k := ContinueLine(mem, ctx, x, a);
            && k.ctx == ctx.(remain := k.ctx.remain, left := k.ctx.left) && k.stream.image == x.image
            && (k.call.Inside? ==> a.Inside? && k.call.core == a.core)
  {
    hide Encode;
  }

  // ----- each part of the invariant, step by step -----

  lemma StepKeepsExclusive(s: State, e: Event)
    requires Steady(s) && Exclusive(s)
    ensures Exclusive(Step(s, e))
  {
    hide ContinueLine, Put, Slice, Marked, Free;
    if e.Continue? { ContinueFacts(s.mem, s.ctx, s.stream, if e.source == Ai then s.ai else s.dma); }
  }

  lemma StepKeepsContextual(s: State, e: Event)
    requires Steady(s) && Exclusive(s) && Contextual(s)
    ensures Contextual(Step(s, e))
  {
    hide ContinueLine, Put, Slice, Marked, Free;
    if e.Continue? { ContinueFacts(s.mem, s.ctx, s.stream, if e.source == Ai then s.ai else s.dma); }
  }

  lemma StepKeepsSteady(s: State, e: Event)
    requires Steady(s) && Exclusive(s) && Contextual(s)
    ensures Steady(Step(s, e))
  {
    hide ContinueLine, Put, Slice, Marked, Free;
    if e.Continue? { ContinueFacts(s.mem, s.ctx, s.stream, if e.source == Ai then s.ai else s.dma); }
  }

  lemma MarkLast(mem: Memory, p: Pointer, n: nat)
    requires n > 0
    ensures var last := p + n - 1;
            Slice(Put(mem, last, Marked(mem(last))), p, n) == Prepared(Slice(mem, p, n))
  {
    hide Marked;
  }

  /** Nothing that the layers in memory depend on has changed. */
  lemma StillRemembered(s: State, t: State)
    requires Remembered(s) && t.mem == s.mem && t.stream.image == s.stream.image
    requires t.runs.accepted == s.runs.accepted && LastDone(t.stage) == LastDone(s.stage)
    ensures Remembered(t)
  {
    hide Slice, Prepared;
  }

  lemma LineMarks(s: State)
    requires Steady(s) && s.stage == LengthsCopied
    ensures var t, last := Line(s), s.ctx.layers + s.ctx.length - 1;
            && t.mem == Put(s.mem, last, Marked(s.mem(last))) && t.stage == LastMarked
            && t.stream.image == s.stream.image && t.runs == s.runs
  {
  }

  lemma LineKeepsMemory(s: State)
    requires Steady(s) && s.stage != AtRest && s.stage != LengthsCopied
    ensures var t := Line(s);
            && t.mem == s.mem && t.stream.image == s.stream.image && t.runs == s.runs
            && LastDone(t.stage) == LastDone(s.stage)
  {
    hide Put, Marked;
  }

  lemma MarkingKeepsRemembered(s: State)
    requires Steady(s) && Contextual(s) && Remembered(s) && s.stage == LengthsCopied
    ensures Remembered(Line(s))
  {
    hide Line, Put, Slice, Marked, Prepared;
    LineMarks(s);
    MarkLast(s.mem, s.ctx.layers, s.ctx.length);
  }

  lemma ClaimIsRemembered(s: State, q: Request)
    requires q.task.length > 0
    ensures Remembered(Claiming(s, q))
  {
    hide Slice;
  }

  lemma LineKeepsRemembered(s: State)
    requires Steady(s) && Contextual(s) && Remembered(s) && s.stage != AtRest
    ensures Remembered(Line(s))
  {
    if s.stage == LengthsCopied {
      MarkingKeepsRemembered(s);
    } else {
      hide Remembered, Contextual, Line, LastDone;
      LineKeepsMemory(s);
      StillRemembered(s, Line(s));
    }
  }

  lemma StepKeepsRemembered(s: State, e: Event)
    requires Steady(s) && Contextual(s) && Remembered(s)
    ensures Remembered(Step(s, e))
  {
    hide Remembered, Contextual, Line, Claiming, ContinueLine, Free;
    match e
    case Claim(q) =>
      if Accepts(s, q) {
        ClaimIsRemembered(s, q);
      }
    case Proceed =>
      if Proceeds(s) {
        LineKeepsRemembered(s);
      }
    case Continue(source) =>
      ContinueFacts(s.mem, s.ctx, s.stream, if source == Ai then s.ai else s.dma);
      StillRemembered(s, Step(s, e));
    case _ => StillRemembered(s, Step(s, e));
  }

  lemma PendingRemoved(pending: seq<Handler>, i: nat)
    requires i < |pending|
    ensures multiset(RunsOf(pending))
         == multiset(RunsOf(pending[..i] + pending[i + 1..])) + multiset{pending[i].run}
  {
    var r := RunsOf(pending);
    assert r == r[..i] + [r[i]] + r[i + 1..];
    assert RunsOf(pending[..i] + pending[i + 1..]) == r[..i] + r[i + 1..];
  }

  lemma FinishingKeepsAnswered(s: State, c: Core)
    requires Answered(s.runs)
    ensures Answered(Finishing(s, c).runs)
  {
    var n := s.runs.completed;
    assert Numbers(n + 1) == Numbers(n) + [n];
    assert RunsOf(s.runs.pending + [Handler(n, c)]) == RunsOf(s.runs.pending) + [n];
    hide Numbers, RunsOf;
  }

  lemma NotifyingKeepsAnswered(s: State, i: nat)
    requires Answered(s.runs) && i < |s.runs.pending|
    ensures Answered(Notifying(s, i).runs)
  {
    hide Numbers, RunsOf;
    PendingRemoved(s.runs.pending, i);
  }

  lemma StepKeepsAnswered(s: State, e: Event)
    requires Steady(s) && Answered(s.runs)
    ensures Answered(Step(s, e).runs)
  {
    hide Line, ContinueLine, Slice, Answered, Finishing, Notifying, Free;
    match e
    case Claim(q) => assert Answered(Claiming(s, q).runs) by { ClaimingKeepsAnswered(s, q); }
    case Proceed => LineKeepsRuns(s);
    case OutputDone(c) => FinishingKeepsAnswered(s, c);
    case Notify(i) =>
      if i < |s.runs.pending| {
        NotifyingKeepsAnswered(s, i);
      }
    case _ =>
  }

  lemma ClaimingKeepsAnswered(s: State, q: Request)
    requires Answered(s.runs)
    ensures Answered(Claiming(s, q).runs)
  {
  }

  lemma LineKeepsRuns(s: State)
    requires Steady(s)
    ensures s.stage != AtRest ==> Line(s).runs == s.runs
  {
  }

  lemma StepKeepsInv(s: State, e: Event)
    requires Inv(s)
    ensures Inv(Step(s, e))
  {
    StepKeepsSteady(s, e);
    StepKeepsExclusive(s, e);
    StepKeepsContextual(s, e);
    StepKeepsRemembered(s, e);
    StepKeepsAnswered(s, e);
    hide Step, Steady, Exclusive, Contextual, Remembered, Answered;
  }

  function Run(s: State, events: seq<Event>): (r: State)
    requires Inv(s)
    ensures Inv(r)
  {
    if events == [] then s
    else
      var t := Run(s, events[..|events| - 1]);
      StepKeepsInv(t, events[|events| - 1]);
      Step(t, events[|events| - 1])
  }

  lemma RunOne(s: State, events: seq<Event>, e: Event)
    requires Inv(s)
    ensures Run(s, events + [e]) == Step(Run(s, events), e)
  {
    hide Inv, Step;
    assert (events + [e])[..|events|] == events;
  }
}
