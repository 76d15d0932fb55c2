/** Concrete runs of the neural-network accelerator's driver, seen without the layers. */
module KpuRuns {
  import opened Kpu
  import opened KpuStream
  import opened KpuCores

  /** What the order of events and the callbacks depend on; `words` is the length of the FIFO. */
  datatype View = View(busy: bool, stage: Stage, phase: Phase, enabled: set<Core>, ai: Activation, dma: Activation,
                       runs: Runs, cb: Callback, length: nat, left: nat, words: nat)

  function ViewOf(s: State): View {
    View(s.busy, s.stage, s.phase, s.enabled, s.ai, s.dma, s.runs, s.ctx.cb, s.ctx.length, s.ctx.left,
         |s.stream.fifo|)
  }

  predicate ViewFree(v: View, c: Core) {
    !On(v.ai, c) && !On(v.dma, c) && forall h :: h in v.runs.pending ==> h.core != c
  }

  predicate ViewTakes(v: View, c: Core) { c in v.enabled && ViewFree(v, c) }

  function Last(v: View): Request
    requires v.runs.accepted != []
  {
    v.runs.accepted[|v.runs.accepted| - 1]
  }

  function ViewLine(v: View): View
    requires v.runs.accepted != []
  {
    var q := Last(v);
    match v.stage
    case AtRest => v
    case Claimed => v.(stage := PointersCopied)
    case PointersCopied => v.(stage := CallbackCopied, cb := q.task.cb)
    case CallbackCopied => v.(stage := LengthsCopied, length := q.task.length, left := q.task.left)
    case LengthsCopied => v.(stage := LastMarked)
    case LastMarked => v.(stage := CallbackSet, cb := q.callback)
    case CallbackSet => v.(stage := LengthSet, left := v.length)
    case LengthSet => v.(stage := LayersSet)
    case LayersSet => v.(stage := Enabled, enabled := v.enabled + {q.core})
    case Enabled => v.(stage := AtRest, phase := Input)
  }

  datatype ViewContinuation = ViewContinuation(left: nat, words: nat, call: Activation)

  function ViewContinue(left: nat, words: nat, a: Activation): ViewContinuation {
    match a
    case Outside => ViewContinuation(left, words, a)
    case Inside(c, point) =>
      match point
      case Test =>
        if left == 0 then ViewContinuation(left, words, Outside)
        else ViewContinuation(left, words, Inside(c, if left <= 1 then Single(0) else Burst))
      case Single(i) =>
        if i < left then ViewContinuation(left, words + 12, Inside(c, Single(i + 1)))
        else ViewContinuation(left, words, Inside(c, Clear))
      case Clear => ViewContinuation(0, words, Outside)
      case Burst => ViewContinuation(left, words + 12, Inside(c, Advance))
      case Advance => ViewContinuation(left, words, Inside(c, Decrease))
      case Decrease => ViewContinuation(Less(left), words, Outside)
  }

  function ViewContinued(v: View, source: Source): View {
    var k := ViewContinue(v.left, v.words, if source == Ai then v.ai else v.dma);
    if source == Ai then v.(left := k.left, words := k.words, ai := k.call)
    else v.(left := k.left, words := k.words, dma := k.call)
  }

  function ViewClaim(v: View, q: Request): View {
    v.(busy := true, stage := Claimed, words := 0, runs := v.runs.(accepted := v.runs.accepted + [q]))
  }

  function ViewFinish(v: View, c: Core): View {
    v.(busy := false, phase := Quiet,
       runs := v.runs.(completed := v.runs.completed + 1,
                       pending := v.runs.pending + [Handler(v.runs.completed, c)]))
  }

  function ViewNotify(v: View, i: nat): View
    requires i < |v.runs.pending|
  {
    v.(runs := v.runs.(pending := v.runs.pending[..i] + v.runs.pending[i + 1..],
                       answered := v.runs.answered + [v.runs.pending[i].run], called := v.runs.called + [v.cb]))
  }

  function ViewStep(v: View, e: Event): View {
    match e
    case Claim(q) => if q.task.length > 0 && !v.busy && ViewFree(v, q.core) then ViewClaim(v, q) else v
    case Proceed => if v.stage != AtRest && v.runs.accepted != [] && ViewFree(v, Last(v).core) then ViewLine(v) else v
    case InputDone(c) =>
      if v.phase == Input && v.dma.Outside? && ViewTakes(v, c) then v.(phase := Output, dma := Inside(c, Test)) else v
    case Interrupt(c) => if v.ai.Outside? && ViewTakes(v, c) then v.(ai := Inside(c, Test)) else v
    case Continue(source) => ViewContinued(v, source)
    case OutputDone(c) => if v.phase == Output && v.dma.Outside? && ViewTakes(v, c) then ViewFinish(v, c) else v
    case Notify(i) => if i < |v.runs.pending| then ViewNotify(v, i) else v
  }

  predicate ViewEarly(v: View, e: Event) {
    && e.Continue? && Unarmed(v.stage)
    && match if e.source == Ai then v.ai else v.dma
       case Inside(_, Burst) => true
       case Inside(_, Single(i)) => i < v.left
       case _ => false
  }

  lemma LineView(s: State)
    requires Steady(s) && s.stage != AtRest
    ensures ViewOf(Line(s)) == ViewLine(ViewOf(s))
  {
    hide Put, Marked;
  }

  lemma ContinueView(mem: Memory, ctx: Task, x: Stream, a: Activation)
    ensures var k := ContinueLine(mem, ctx, x, a);
            ViewContinue(ctx.left, |x.fifo|, a) == ViewContinuation(k.ctx.left, |k.stream.fifo|, k.call)
  {
    hide Encode;
  }

  lemma StepView(s: State, e: Event)
    requires Steady(s)
    ensures ViewOf(Step(s, e)) == ViewStep(ViewOf(s), e) && Early(s, e) == ViewEarly(ViewOf(s), e)
  {
    hide Line, ViewLine, ContinueLine, ViewContinue, Slice;
    match e
    case Proceed => if s.stage != AtRest { LineView(s); }
    case Continue(source) =>
      var a := Call(s, source);
      ContinueFacts(s.mem, s.ctx, s.stream, a);
      ContinueView(s.mem, s.ctx, s.stream, a);
    case _ =>
  }

  // ----- building runs -----

  /** A run over a set of requests, without an early push, that ends in a view. */
  predicate Reaches(mem: Memory, events: seq<Event>, requests: set<Request>, v: View) {
    Inv(Init(mem)) && Over(events, requests) && NothingEarly(mem, events) && ViewOf(Run(Init(mem), events)) == v
  }

  const START := View(false, AtRest, Quiet, {}, Outside, Outside, Runs([], 0, [], [], []), 0, 0, 0, 0)

  lemma Begin(mem: Memory, requests: set<Request>)
    ensures Reaches(mem, [], requests, START)
  {
    InitInv(mem);
  }

  lemma Next(mem: Memory, events: seq<Event>, requests: set<Request>, v: View, e: Event) returns (longer: seq<Event>)
    requires Reaches(mem, events, requests, v) && !ViewEarly(v, e) && (e.Claim? ==> e.request in requests)
    ensures Reaches(mem, longer, requests, ViewStep(v, e)) && longer == events + [e]
  {
    hide Inv, Run, Step, Early, ViewStep, ViewEarly;
    var s := Run(Init(mem), events);
    RunKeepsInv(Init(mem), events);
    InvIsSteady(s);
    StepView(s, e);
    RunOne(Init(mem), events, e);
    longer := events + [e];
    assert longer[..|events|] == events;
  }

  lemma RunKeepsInv(s: State, events: seq<Event>)
    requires Inv(s)
    ensures Inv(Run(s, events))
  {
    hide Run;
  }

  function ViewLines(v: View, n: nat): View
    decreases n
  {
    if n == 0 then v else ViewLines(ViewStep(v, Proceed), n - 1)
  }

  lemma {:induction false} Lines(mem: Memory, events: seq<Event>, requests: set<Request>, v: View, n: nat)
      returns (longer: seq<Event>)
    requires Reaches(mem, events, requests, v)
    ensures Reaches(mem, longer, requests, ViewLines(v, n))
    decreases n
  {
    hide Reaches, ViewStep;
    longer := events;
    if n > 0 {
      longer := Next(mem, events, requests, v, Proceed);
      longer := Lines(mem, longer, requests, ViewStep(v, Proceed), n - 1);
    }
  }

  /** A core claims the context. */
  lemma Start(mem: Memory, events: seq<Event>, requests: set<Request>, v: View, q: Request) returns (longer: seq<Event>)
    requires Reaches(mem, events, requests, v) && q in requests
    requires q.task.length > 0 && !v.busy && ViewFree(v, q.core)
    ensures Reaches(mem, longer, requests, ViewClaim(v, q))
  {
    hide Reaches, ViewClaim, ViewFree;
    longer := Next(mem, events, requests, v, Claim(q));
  }

  /** What its nine lines do if no handler interrupts it. */
  function Started(v: View, q: Request): View {
    v.(stage := AtRest, enabled := v.enabled + {q.core}, phase := Input, cb := q.callback,
       length := q.task.length, left := q.task.length)
  }

  lemma NineLines(v: View, q: Request)
    requires v.stage == Claimed && v.runs.accepted != [] && q == Last(v) && ViewFree(v, q.core)
    ensures ViewLines(v, 9) == Started(v, q)
  {
    FourLines(v, q);
    var w := ViewLines(v, 4);
    FiveMore(w, q);
    LinesSum(v, 4, 5);
  }

  lemma FourTimes(v: View)
    ensures ViewLines(v, 4)
         == ViewStep(ViewStep(ViewStep(ViewStep(v, Proceed), Proceed), Proceed), Proceed)
  {
    hide ViewStep;
  }

  lemma NextLine(v: View, q: Request)
    requires v.stage != AtRest && v.runs.accepted != [] && q == Last(v) && ViewFree(v, q.core)
    ensures ViewStep(v, Proceed) == ViewLine(v) && ViewFree(ViewLine(v), q.core)
    ensures ViewLine(v).runs == v.runs
  {
  }

  lemma FourLines(v: View, q: Request)
    requires v.stage == Claimed && v.runs.accepted != [] && q == Last(v) && ViewFree(v, q.core)
    ensures ViewLines(v, 4)
         == v.(stage := LastMarked, cb := q.task.cb, length := q.task.length, left := q.task.left)
  {
    hide ViewStep, ViewFree;
    NextLine(v, q);
    var v1 := ViewLine(v);
    NextLine(v1, q);
    var v2 := ViewLine(v1);
    NextLine(v2, q);
    var v3 := ViewLine(v2);
    NextLine(v3, q);
    FourTimes(v);
  }

  lemma FiveMore(v: View, q: Request)
    requires v.stage == LastMarked && v.runs.accepted != [] && q == Last(v) && ViewFree(v, q.core)
    ensures ViewLines(v, 5)
         == v.(stage := AtRest, enabled := v.enabled + {q.core}, phase := Input, cb := q.callback, left := v.length)
  {
    hide ViewStep, ViewFree;
    NextLine(v, q);
    var v1 := ViewLine(v);
    NextLine(v1, q);
    var v2 := ViewLine(v1);
    NextLine(v2, q);
    var v3 := ViewLine(v2);
    NextLine(v3, q);
    var v4 := ViewLine(v3);
    NextLine(v4, q);
    FourTimes(v);
    LinesSum(v, 4, 1);
    assert ViewLines(v4, 1) == ViewStep(v4, Proceed);
  }

  lemma {:induction false} LinesSum(v: View, m: nat, n: nat)
    ensures ViewLines(v, m + n) == ViewLines(ViewLines(v, m), n)
    decreases m
  {
    hide ViewStep;
    if m > 0 { LinesSum(ViewStep(v, Proceed), m - 1, n); }
  }

  /** A whole start. */
  lemma StartAll(mem: Memory, events: seq<Event>, requests: set<Request>, v: View, q: Request)
      returns (longer: seq<Event>)
    requires Reaches(mem, events, requests, v) && q in requests
    requires q.task.length > 0 && !v.busy && ViewFree(v, q.core)
    ensures Reaches(mem, longer, requests, Started(ViewClaim(v, q), q))
  {
    hide Reaches, ViewLines;
    longer := Start(mem, events, requests, v, q);
    longer := Lines(mem, longer, requests, ViewClaim(v, q), 9);
    NineLines(ViewClaim(v, q), q);
  }

  /** The four lines of a call that finds something left and is not disturbed. */
  function CallDone(v: View, source: Source): View {
    var w := v.(left := if v.left == 0 then 0 else v.left - 1, words := v.words + 12);
    if source == Ai then w.(ai := Outside) else w.(dma := Outside)
  }

  lemma Calls(mem: Memory, events: seq<Event>, requests: set<Request>, v: View, source: Source)
      returns (longer: seq<Event>)
    requires Reaches(mem, events, requests, v) && v.stage == AtRest && v.left > 0
    requires var a := if source == Ai then v.ai else v.dma; a.Inside? && a.point == Test
    ensures Reaches(mem, longer, requests, CallDone(v, source))
  {
    hide Reaches;
    var e := Continue(source);
    longer := Next(mem, events, requests, v, e);
    var v1 := ViewStep(v, e);
    longer := Next(mem, longer, requests, v1, e);
    var v2 := ViewStep(v1, e);
    longer := Next(mem, longer, requests, v2, e);
    var v3 := ViewStep(v2, e);
    longer := Next(mem, longer, requests, v3, e);
    FourCalls(v, source);
  }

  lemma FourCalls(v: View, source: Source)
    requires v.stage == AtRest && v.left > 0
    requires var a := if source == Ai then v.ai else v.dma; a.Inside? && a.point == Test
    ensures var e := Continue(source);
            var v2 := ViewStep(ViewStep(v, e), e);
            ViewStep(ViewStep(v2, e), e) == CallDone(v, source)
  {
  }

  /** Between runs: nobody is in a handler. */
  predicate Resting(v: View) {
    !v.busy && v.stage == AtRest && v.ai.Outside? && v.dma.Outside? && v.runs.pending == []
  }

  /** A whole run of q, its completion taken by core d, up to the freeing of the context. */
  function Ran(v: View, q: Request, d: Core): View
    requires q.task.length > 0
  {
    View(false, AtRest, Quiet, v.enabled + {q.core}, Outside, Outside,
         Runs(v.runs.accepted + [q], v.runs.completed + 1, [Handler(v.runs.completed, d)], v.runs.answered,
              v.runs.called),
         q.callback, q.task.length, q.task.length - 1, 12)
  }

  lemma WholeRun(mem: Memory, events: seq<Event>, requests: set<Request>, v: View, q: Request, d: Core)
      returns (longer: seq<Event>)
    requires Reaches(mem, events, requests, v) && q in requests && q.task.length > 0
    requires Resting(v) && d in v.enabled + {q.core}
    ensures Reaches(mem, longer, requests, Ran(v, q, d))
  {
    hide Reaches;
    longer := StartAll(mem, events, requests, v, q);
    var v1 := Started(ViewClaim(v, q), q);
    longer := Next(mem, longer, requests, v1, InputDone(q.core));
    var v2 := v1.(phase := Output, dma := Inside(q.core, Test));
    longer := Calls(mem, longer, requests, v2, Dma);
    var v3 := CallDone(v2, Dma);
    longer := Next(mem, longer, requests, v3, OutputDone(d));
    assert [] + [Handler(v.runs.completed, d)] == [Handler(v.runs.completed, d)];
  }

  /** And on to the callback. */
  function Told(v: View): View
    requires |v.runs.pending| == 1
  {
    v.(runs := v.runs.(pending := [], answered := v.runs.answered + [v.runs.pending[0].run],
                       called := v.runs.called + [v.cb]))
  }

  lemma Tell(mem: Memory, events: seq<Event>, requests: set<Request>, v: View) returns (longer: seq<Event>)
    requires Reaches(mem, events, requests, v) && |v.runs.pending| == 1
    ensures Reaches(mem, longer, requests, Told(v))
  {
    hide Reaches;
    longer := Next(mem, events, requests, v, Notify(0));
    assert v.runs.pending[..0] + v.runs.pending[1..] == [];
  }
}
