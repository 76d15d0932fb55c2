/** For which programs the layer FIFO is always right (lib/drivers/kpu.c). */
module KpuPrograms {
  import opened Kpu
  import opened KpuStream
  import opened KpuCores
  import opened KpuRuns

  // ----- two starts -----

  /** The view of a second start of q up to the setting of the remaining length. */
  function HalfStarted(v: View, q: Request): View {
    v.(stage := LengthSet, cb := q.callback, length := q.task.length, left := q.task.length)
  }

  lemma SixLines(v: View, q: Request)
    requires v.stage == Claimed && v.runs.accepted != [] && q == Last(v) && ViewFree(v, q.core)
    ensures ViewLines(v, 6) == HalfStarted(v, q)
  {
    FourLines(v, q);
    var w := ViewLines(v, 4);
    hide ViewStep, ViewFree;
    NextLine(w, q);
    NextLine(ViewLine(w), q);
    LinesSum(v, 4, 2);
    assert ViewLines(w, 2) == ViewStep(ViewStep(w, Proceed), Proceed);
  }

  /** One request twice on one core, the second time up to the setting of the remaining length, where the
      accelerator's interrupt has been taken and has found it. */
  lemma SecondStart(mem: Memory, q: Request, requests: set<Request>) returns (events: seq<Event>, v: View)
    requires q in requests && q.task.length > 0
    ensures Reaches(mem, events, requests, v) && Unarmed(v.stage) && v.runs.accepted == [q, q]
    ensures v.ai == Inside(q.core, if v.left == 1 then Single(0) else Burst) && v.left == q.task.length
  {
    hide Reaches, ViewLines;
    Begin(mem, requests);
    events := WholeRun(mem, [], requests, START, q, q.core);
    v := Ran(START, q, q.core);
    events := Tell(mem, events, requests, v);
    v := Told(v);
    events := Start(mem, events, requests, v, q);
    v := ViewClaim(v, q);
    assert v.runs.accepted == [q, q];
    events := Lines(mem, events, requests, v, 6);
    SixLines(v, q);
    v := HalfStarted(v, q);
    events := Next(mem, events, requests, v, Interrupt(q.core));
    v := v.(ai := Inside(q.core, Test));
    events := Next(mem, events, requests, v, Continue(Ai));
    v := ViewStep(v, Continue(Ai));
  }

  /** No structure that the caller prepares keeps the FIFO right in every run: in the second of two runs of any
      task, on one core, an interrupt that arrives when the remaining length has been set, but not the remaining
      layers, pushes a layer from wherever the old pointer points. */
  lemma EarlyInterrupt(mem: Memory, q: Request, requests: set<Request>) returns (events: seq<Event>)
    requires q in requests && q.task.length > 0
    ensures Inv(Init(mem)) && Over(events, requests) && !AlwaysRight(mem, events)
    ensures Run(Init(mem), events).runs.accepted == [q, q]
  {
    hide Reaches, ViewEarly, Run;
    var before, v := SecondStart(mem, q, requests);
    assert ViewEarly(v, Continue(Ai)) by { PushIsEarly(v); }
    events := EarlyNext(mem, before, requests, v, Ai);
  }

  lemma PushIsEarly(v: View)
    requires Unarmed(v.stage) && v.left > 0 && v.ai.Inside?
    requires v.ai.point == if v.left == 1 then Single(0) else Burst
    ensures ViewEarly(v, Continue(Ai))
  {
  }

  lemma EarlyNext(mem: Memory, before: seq<Event>, requests: set<Request>, v: View, source: Source)
      returns (events: seq<Event>)
    requires Reaches(mem, before, requests, v) && ViewEarly(v, Continue(source))
    ensures Inv(Init(mem)) && Over(events, requests) && !AlwaysRight(mem, events)
    ensures Run(Init(mem), events).runs.accepted == v.runs.accepted
  {
    hide Inv, Run, Step, ViewEarly, Early, AlwaysRight;
    var s := Run(Init(mem), before);
    RunKeepsInv(Init(mem), before);
    InvIsSteady(s);
    StepView(s, Continue(source));
    StepAccepts(s, Continue(source));
    RunOne(Init(mem), before, Continue(source));
    events := before + [Continue(source)];
    assert events[..|before|] == before;
    if AlwaysRight(mem, events) { RightIsNotEarly(mem, events); }
  }

  /** The exact condition on the number of starts: whatever the requests, the FIFO is right in every state of all
      runs with at most n accepted starts if and only if n is at most 1. */
  lemma RightIffOneStart(mem: Memory, requests: set<Request>, n: nat)
    requires exists q :: q in requests && q.task.length > 0
    ensures Inv(Init(mem))
    ensures (forall events: seq<Event> :: Over(events, requests) && |Run(Init(mem), events).runs.accepted| <= n ==>
               AlwaysRight(mem, events))
            <==> n <= 1
  {
    InitInv(mem);
    hide Run, Inv, AlwaysRight;
    if n <= 1 {
      forall events: seq<Event> | Over(events, requests) && |Run(Init(mem), events).runs.accepted| <= n
        ensures AlwaysRight(mem, events)
      {
        OneStartIsRight(mem, events);
      }
    } else {
      var q :| q in requests && q.task.length > 0;
      var events := EarlyInterrupt(mem, q, requests);
      assert Over(events, requests) && |Run(Init(mem), events).runs.accepted| <= n;
    }
  }

  // ----- two cores -----

  /** n calls from the accelerator's interrupt on one core, while the call from the input transfer waits on
      another. */
  lemma {:induction false} Drain(mem: Memory, events: seq<Event>, requests: set<Request>, v: View, c: Core, n: nat)
      returns (longer: seq<Event>)
    requires Reaches(mem, events, requests, v) && v.stage == AtRest && v.ai.Outside? && ViewTakes(v, c)
    requires v.left == n + 1
    ensures Reaches(mem, longer, requests, v.(left := 1, words := v.words + 12 * n))
    decreases n
  {
    hide Reaches;
    longer := events;
    if n > 0 {
      longer := Next(mem, longer, requests, v, Interrupt(c));
      var w := v.(ai := Inside(c, Test));
      longer := Calls(mem, longer, requests, w, Ai);
      longer := Drain(mem, longer, requests, CallDone(w, Ai), c, n - 1);
    }
  }

  /** Both calls find one layer left. */
  lemma BothPush(mem: Memory, events: seq<Event>, requests: set<Request>, v: View, c: Core)
      returns (longer: seq<Event>, w: View)
    requires Reaches(mem, events, requests, v) && v.stage == AtRest && v.ai.Outside? && ViewTakes(v, c)
    requires v.left == 1 && v.dma.Inside? && v.dma.point == Test
    ensures Reaches(mem, longer, requests, w) && w.words == v.words + 24 && w.stage == AtRest
    ensures w.runs == v.runs && w.length == v.length
  {
    hide Reaches;
    longer := Next(mem, events, requests, v, Interrupt(c));
    w := v.(ai := Inside(c, Test));
    longer := Next(mem, longer, requests, w, Continue(Ai));
    w := w.(ai := Inside(c, Single(0)));
    longer := Next(mem, longer, requests, w, Continue(Dma));
    w := w.(dma := Inside(w.dma.core, Single(0)));
    longer := Next(mem, longer, requests, w, Continue(Ai));
    w := w.(ai := Inside(c, Single(1)), words := w.words + 12);
    longer := Next(mem, longer, requests, w, Continue(Dma));
    w := w.(dma := Inside(w.dma.core, Single(1)), words := w.words + 12);
  }

  lemma TooMuch(s: State)
    requires s.runs.accepted != [] && s.stage == AtRest && |s.stream.fifo| == 12 * (Current(s).task.length + 1)
    ensures !Right(s)
  {
    hide EncodeAll, Prepared;
  }

  /** The second of two runs, on another core than the first: core 1 is in the handler of the input transfer and
      about to read the remaining length, core 0 serves the accelerator's interrupt, up to the last layer, and then
      both push that one. */
  lemma LastLayerTwice(mem: Memory, q: Request, r: Request, requests: set<Request>) returns (events: seq<Event>)
    requires q in requests && r in requests && q.task.length > 0 && r.task.length > 0 && q.core != r.core
    ensures Inv(Init(mem)) && Over(events, requests) && NothingEarly(mem, events) && !AlwaysRight(mem, events)
  {
    hide Reaches;
    Begin(mem, requests);
    events := WholeRun(mem, [], requests, START, q, q.core);
    var v := Ran(START, q, q.core);
    events := Tell(mem, events, requests, v);
    v := Told(v);
    events := StartAll(mem, events, requests, v, r);
    v := Started(ViewClaim(v, r), r);
    events := Next(mem, events, requests, v, InputDone(r.core));
    v := v.(phase := Output, dma := Inside(r.core, Test));
    events := Drain(mem, events, requests, v, q.core, r.task.length - 1);
    v := v.(left := 1, words := v.words + 12 * (r.task.length - 1));
    var w;
    events, w := BothPush(mem, events, requests, v, q.core);
    Overfull(mem, events, requests, w, r);
  }

  lemma Overfull(mem: Memory, events: seq<Event>, requests: set<Request>, v: View, r: Request)
    requires Reaches(mem, events, requests, v) && v.stage == AtRest && v.runs.accepted != [] && Last(v) == r
    requires v.words == 12 * (r.task.length + 1)
    ensures Inv(Init(mem)) && Over(events, requests) && NothingEarly(mem, events) && !AlwaysRight(mem, events)
  {
    hide Inv, Run, Right, NothingEarly;
    TooMuch(Run(Init(mem), events));
  }

  /** The exact condition on the cores: in every run over a set of requests in which no layer is pushed early, the
      FIFO is right in every state if and only if all requests are made on one core. */
  lemma RightIffOneCore(mem: Memory, requests: set<Request>)
    requires forall q :: q in requests ==> q.task.length > 0
    ensures Inv(Init(mem))
    ensures (forall events: seq<Event> :: Over(events, requests) && NothingEarly(mem, events) ==>
               AlwaysRight(mem, events))
            <==> OneCore(requests)
  {
    InitInv(mem);
    hide Run, Inv, AlwaysRight, NothingEarly;
    if OneCore(requests) {
      forall events: seq<Event> | Over(events, requests) && NothingEarly(mem, events)
        ensures AlwaysRight(mem, events)
      {
        var c := OneCoreAccepts(mem, events, requests);
        RightIffNothingEarly(mem, events, c);
      }
    } else {
      var q, r :| q in requests && r in requests && q.core != r.core;
      var events := LastLayerTwice(mem, q, r, requests);
      assert Over(events, requests) && NothingEarly(mem, events) && !AlwaysRight(mem, events);
    }
  }
}
