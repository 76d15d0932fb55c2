/** The driver of the neural-network accelerator on its mutable context (lib/drivers/kpu.c). */
module KpuDriver {
  import opened Kpu
  import opened KpuStream

  /** What a method needs to know of its step: that it keeps the invariant. */
  lemma StepFacts(s: State, e: Event)
    requires Inv(s)
    ensures Steady(s) && Inv(Step(s, e))
    ensures Step(s, e) == match e
      case Claim(q) => if Accepts(s, q) then Claiming(s, q) else s
      case Proceed => if Proceeds(s) then Line(s) else s
      case InputDone(c) =>
        if s.phase == Input && s.dma.Outside? && Takes(s, c) then s.(phase := Output, dma := Inside(c, Test)) else s
      case Interrupt(c) => if s.ai.Outside? && Takes(s, c) then s.(ai := Inside(c, Test)) else s
      case Continue(source) => Continued(s, source)
      case OutputDone(c) => if s.phase == Output && s.dma.Outside? && Takes(s, c) then Finishing(s, c) else s
      case Notify(i) => if i < |s.runs.pending| then Notifying(s, i) else s
  {
    StepKeepsInv(s, e);
    hide Exclusive, Contextual, Remembered, Answered, Line, Claiming, Continued, Finishing, Notifying, Free, Proceeds;
  }

  /** The context, the FIFO and the interrupts after an undisturbed call of kpu_continue from its first line on. */
  function Served(s: State, source: Source): State {
    var t := s.(stream := if s.ctx.left == 0 then Returned(s.stream) else Returned(Pushed(s.stream, s.mem(s.ctx.remain))),
                ctx := if s.ctx.left == 0 then s.ctx
                       else if s.ctx.left == 1 then s.ctx.(left := 0)
                       else s.ctx.(remain := s.ctx.remain + 1, left := s.ctx.left - 1));
    if source == Ai then t.(ai := Outside) else t.(dma := Outside)
  }

  /** The lines left of a call. */
  function CallLeft(a: Activation): nat {
    match a
    case Outside => 0
    case Inside(_, point) =>
      match point
      case Test => 4 case Burst => 3 case Advance => 2 case Decrease => 1
      case Clear => 1
      case Single(i) => if i == 0 then 3 else 2
  }

  /** How far an undisturbed call of kpu_continue has come since the state s in which it began. */
  ghost predicate Underway(s: State, t: State, source: Source) {
    match Call(t, source)
    case Outside => t == Served(s, source)
    case Inside(c, point) =>
      var u := if source == Ai then t.(ai := Call(s, source)) else t.(dma := Call(s, source));
      match point
      case Test => u == s
      case Single(0) => u == s && s.ctx.left == 1
      case Single(i) => i == 1 && s.ctx.left == 1 && u == s.(stream := Pushed(s.stream, s.mem(s.ctx.remain)))
      case Clear => s.ctx.left == 1 && u == s.(stream := Pushed(s.stream, s.mem(s.ctx.remain)))
      case Burst => u == s && s.ctx.left > 1
      case Advance => s.ctx.left > 1 && u == s.(stream := Pushed(s.stream, s.mem(s.ctx.remain)))
      case Decrease =>
        s.ctx.left > 1
        && u == s.(stream := Pushed(s.stream, s.mem(s.ctx.remain)), ctx := s.ctx.(remain := s.ctx.remain + 1))
  }

  lemma StaysUnderway(s: State, t: State, source: Source)
    requires Underway(s, t, source) && Call(t, source).Inside?
    ensures Underway(s, Continued(t, source), source)
    ensures CallLeft(Call(Continued(t, source), source)) < CallLeft(Call(t, source))
  {
    hide Encode;
  }

  /** The driver's global context.  `request` are the arguments of the start in progress. */
  class Context {
    var status: bool
    var stage: Stage
    var phase: Phase
    var enabled: set<Core>
    var ai: Activation
    var dma: Activation
    var mem: Memory
    var ctx: Task
    var request: Request
    var fifo: seq<bv64>
    var called: seq<Callback>
    ghost var pending: seq<Handler>
    ghost var past: Stream
    ghost var runs: Runs

    constructor (mem: Memory)
      ensures Now() == Init(mem) && Valid()
    {
      status, stage, phase, enabled, ai, dma, this.mem := false, AtRest, Quiet, {}, Outside, Outside, mem;
      ctx, fifo, pending, called := Task(0, 0, 0, 0, 0), [], [], [];
      request := Request(0, Task(0, 0, 0, 0, 0), 0);
      past, runs := Stream([], 0, []), Runs([], 0, [], [], []);
      new;
      InitInv(mem);
    }

    ghost function Now(): State
      reads this
    {
      State(status, stage, phase, enabled, ai, dma, mem, ctx, past.(fifo := fifo),
            runs.(pending := pending, called := called))
    }

    ghost predicate Valid()
      reads this
    {
      Inv(Now()) && (runs.accepted != [] ==> request == Current(Now()))
    }

    /** The compare-and-swap of kpu_run, on a core that is in none of the handlers. */
    method TryClaim(q: Request) returns (r: int)
      requires Valid() && q.task.length > 0 && Free(Now(), q.core)
      modifies this
      ensures Valid() && Now() == Step(old(Now()), Claim(q)) && r == if old(status) then -1 else 0
    {
      hide Inv, Step, Slice, Line, Free;
      StepFacts(Now(), Claim(q));
      if status { return -1; }
      status, stage, request, fifo := true, Claimed, q, [];
      past := Stream([], 0, Slice(mem, q.task.layers, q.task.length));
      runs := runs.(accepted := runs.accepted + [q]);
      return 0;
    }

    /** One line of kpu_run after the swap, while its core is in none of the handlers. */
    method NextLine()
      requires Valid() && stage != AtRest && Free(Now(), request.core) && runs.accepted != []
      modifies this
      ensures Valid() && Now() == Step(old(Now()), Proceed) && stage != old(stage)
      ensures runs.accepted == old(runs.accepted)
    {
      hide Inv, Step, Line, Free;
      StepFacts(Now(), Proceed);
      LineFacts(Now());
      SetLine();
    }

    /** The assignments of the line. */
    method SetLine()
      requires stage != AtRest && runs.accepted != [] && request == Current(Now())
      requires stage == LengthsCopied ==> ctx.length > 0
      modifies this`stage, this`ctx, this`mem, this`past, this`enabled, this`phase
      ensures Now() == Line(old(Now()))
    {
      hide Put, Marked;
      match stage {
        case Claimed => stage, ctx := PointersCopied, ctx.(layers := request.task.layers, remain := request.task.remain);
        case PointersCopied => stage, ctx := CallbackCopied, ctx.(cb := request.task.cb);
        case CallbackCopied => stage, ctx := LengthsCopied, ctx.(length := request.task.length, left := request.task.left);
        case LengthsCopied =>
          var last := ctx.layers + ctx.length - 1;
          stage, mem := LastMarked, Put(mem, last, Marked(mem(last)));
        case LastMarked => stage, ctx := CallbackSet, ctx.(cb := request.callback);
        case CallbackSet => stage, ctx := LengthSet, ctx.(left := ctx.length);
        case LengthSet =>
          past := past.(calls := 0);
          stage, ctx := LayersSet, ctx.(remain := ctx.layers);
        case LayersSet => stage, enabled := Enabled, enabled + {request.core};
        case Enabled => stage, phase := AtRest, Input;
      }
    }

    method PushLayer(l: Layer)
      modifies this`fifo
      ensures fifo == old(fifo) + Encode(l)
    {
      Regroup(fifo, [l.interruptEnable, l.imageAddr, l.imageChannelNum, l.imageSize],
              [l.kernelPoolTypeCfg, l.kernelLoadCfg, l.kernelOffset, l.kernelCalcTypeCfg],
              [l.writeBackCfg, l.convValue, l.convValue2, l.dmaParameter]);
      Push(l.interruptEnable, l.imageAddr, l.imageChannelNum, l.imageSize);
      Push(l.kernelPoolTypeCfg, l.kernelLoadCfg, l.kernelOffset, l.kernelCalcTypeCfg);
      Push(l.writeBackCfg, l.convValue, l.convValue2, l.dmaParameter);
    }

    method Push(a: bv64, b: bv64, c: bv64, d: bv64)
      modifies this`fifo
      ensures fifo == old(fifo) + [a, b, c, d]
    {
      fifo := fifo + [a];
      fifo := fifo + [b];
      fifo := fifo + [c];
      fifo := fifo + [d];
    }

    /** One line of kpu_continue on the context and the FIFO. */
    method RunLine(call: Activation) returns (next: Activation)
      requires call.Inside?
      modifies this`ctx, this`fifo, this`past
      ensures Continuation(ctx, past.(fifo := fifo), next) == ContinueLine(mem, old(ctx), old(past.(fifo := fifo)), call)
    {
      hide Encode;
      next := Outside;
      match call.point {
        case Test =>
          if ctx.left == 0 { past := past.(calls := past.calls + 1); }
          else if ctx.left <= 1 { next := Inside(call.core, Single(0)); }
          else { next := Inside(call.core, Burst); }
        case Single(i) =>
          if i < ctx.left {
            PushLayer(mem(ctx.remain + i));
            next := Inside(call.core, Single(i + 1));
          } else {
            next := Inside(call.core, Clear);
          }
        case Clear =>
          ctx := ctx.(left := 0);
          past := past.(calls := past.calls + 1);
        case Burst =>
          PushLayer(mem(ctx.remain));
          next := Inside(call.core, Advance);
        case Advance =>
          ctx := ctx.(remain := ctx.remain + 1);
          next := Inside(call.core, Decrease);
        case Decrease =>
          ctx := ctx.(left := Less(ctx.left));
          past := past.(calls := past.calls + 1);
      }
    }

    /** The same in the handler of an interrupt. */
    method ContinueNext(source: Source)
      requires Valid() && Call(Now(), source).Inside?
      modifies this
      ensures Valid() && Now() == Continued(old(Now()), source)
    {
      hide Inv, Step, ContinueLine;
      StepFacts(Now(), Continue(source));
      if source == Ai {
        ai := RunLine(ai);
      } else {
        dma := RunLine(dma);
      }
    }

    /** kpu_continue without a disturbance: the next layer is pushed, if any is left. */
    method KpuContinue(source: Source)
      requires Valid() && Call(Now(), source).Inside? && Call(Now(), source).point == Test
      modifies this
      ensures Valid() && Now() == Served(old(Now()), source)
    {
      hide Inv, Continued;
      ghost var s := Now();
      while (if source == Ai then ai else dma).Inside?
        invariant Valid() && Underway(s, Now(), source)
        decreases CallLeft(Call(Now(), source))
      {
        hide Underway;
        StaysUnderway(s, Now(), source);
        ContinueNext(source);
      }
    }

    /** kpu_run_dma_input_done_push_layers, when core c takes the interrupt of the input transfer. */
    method InputTransferDone(c: Core)
      requires Valid() && phase == Input && dma.Outside? && Takes(Now(), c)
      modifies this
      ensures Valid() && Now() == Served(Step(old(Now()), InputDone(c)), Dma)
    {
      hide Inv, Step, Served, Takes;
      StepFacts(Now(), InputDone(c));
      phase, dma := Output, Inside(c, Test);
      KpuContinue(Dma);
    }

    /** The accelerator's interrupt on a core that has enabled it. */
    method LayerInterrupt(c: Core)
      requires Valid() && ai.Outside? && Takes(Now(), c)
      modifies this
      ensures Valid() && Now() == Served(Step(old(Now()), Interrupt(c)), Ai)
    {
      hide Inv, Step, Served, Takes;
      StepFacts(Now(), Interrupt(c));
      ai := Inside(c, Test);
      KpuContinue(Ai);
    }

    /** kpu_run_all_done on core c up to and with the swap. */
    method RunAllDone(c: Core)
      requires Valid() && phase == Output && dma.Outside? && Takes(Now(), c)
      modifies this
      ensures Valid() && Now() == Step(old(Now()), OutputDone(c)) && !status
    {
      hide Inv, Step, Takes;
      StepFacts(Now(), OutputDone(c));
      status, phase := false, Quiet;
      pending := pending + [Handler(runs.completed, c)];
      runs := runs.(completed := runs.completed + 1);
    }

    /** The rest of kpu_run_all_done, in one of the handlers that have got that far. */
    method CallBack(ghost which: nat)
      requires Valid() && which < |pending|
      modifies this
      ensures Valid() && Now() == Step(old(Now()), Notify(which)) && called == old(called) + [ctx.cb]
    {
      hide Inv, Step;
      StepFacts(Now(), Notify(which));
      runs := runs.(answered := runs.answered + [pending[which].run]);
      called := called + [ctx.cb];
      pending := pending[..which] + pending[which + 1..];
    }

    /** kpu_run without an interruption: it is refused exactly while a run is in progress, and otherwise leaves a
        context that is the caller's in every field, nothing in the FIFO, and the input transfer pending. */
    method KpuRun(q: Request) returns (r: int)
      requires Valid() && q.task.length > 0 && Free(Now(), q.core)
      modifies this
      ensures Valid() && r == if old(status) then -1 else 0
      ensures r != 0 ==> Now() == old(Now())
      ensures r == 0 ==>
        && status && stage == AtRest && phase == Input && runs.accepted == old(runs.accepted) + [q]
        && enabled == old(enabled) + {q.core} && fifo == []
        && ctx == Task(q.task.layers, q.task.layers, q.callback, q.task.length, q.task.length)
    {
      hide Inv, Free;
      ghost var before := enabled;
      ghost var calls := (ai, dma, pending);
      r := TryClaim(q);
      if r != 0 { return; }
      StartBegun(Now());
      while stage != AtRest
        invariant Valid() && runs.accepted == old(runs.accepted) + [q] && status && fifo == []
        invariant calls == (ai, dma, pending) && SetSoFar(Now())
        invariant enabled == if stage == AtRest || stage == Enabled then before + {q.core} else before
        invariant stage == AtRest ==> phase == Input
        decreases LinesLeft(stage)
      {
        assert Free(Now(), request.core) by { SameFree(Now(), old(Now()), q.core); }
        LineOfStart(Now());
        NextLine();
      }
      StartDone(Now());
    }
  }

  lemma SameFree(s: State, t: State, c: Core)
    requires s.ai == t.ai && s.dma == t.dma && s.runs.pending == t.runs.pending
    ensures Free(s, c) == Free(t, c)
  {
  }

  function LinesLeft(stage: Stage): nat {
    match stage
    case Claimed => 9 case PointersCopied => 8 case CallbackCopied => 7 case LengthsCopied => 6
    case LastMarked => 5 case CallbackSet => 4 case LengthSet => 3 case LayersSet => 2 case Enabled => 1 case AtRest => 0
  }

  /** What an uninterrupted start has set of what remains. */
  predicate SetSoFar(s: State) {
    && (s.stage == LengthSet || !Unarmed(s.stage) ==> s.ctx.left == s.ctx.length)
    && (!Unarmed(s.stage) ==> s.ctx.remain == s.ctx.layers)
  }

  lemma StartBegun(s: State)
    requires s.stage == Claimed
    ensures SetSoFar(s)
  {
  }

  lemma LineOfStart(s: State)
    requires Inv(s) && s.stage != AtRest && Free(s, Current(s).core) && SetSoFar(s)
    ensures Steady(s)
    ensures var t := Step(s, Proceed);
            && LinesLeft(t.stage) < LinesLeft(s.stage) && t.busy == s.busy && SetSoFar(t)
            && t.stream.fifo == s.stream.fifo && t.ai == s.ai && t.dma == s.dma && t.runs == s.runs
            && t.enabled == (if t.stage == Enabled then s.enabled + {Current(s).core} else s.enabled)
            && (t.stage == AtRest ==> t.phase == Input)
  {
    hide Put, Marked, Contextual, Remembered, Answered, Exclusive, Free;
  }

  /** A start that nobody has interrupted. */
  lemma StartDone(s: State)
    requires Inv(s) && s.stage == AtRest && s.runs.accepted != [] && SetSoFar(s)
    ensures var q := Current(s);
            s.ctx == Task(q.task.layers, q.task.layers, q.callback, q.task.length, q.task.length)
  {
    hide Answered, Exclusive, Remembered;
  }

  lemma LineFacts(s: State)
    requires Inv(s) && s.stage != AtRest
    ensures Line(s).stage != s.stage && Line(s).runs == s.runs
    ensures s.stage == LengthsCopied ==> s.ctx.length > 0
  {
    hide Put, Marked, Exclusive, Contextual, Remembered, Answered;
  }

  lemma Regroup(fifo: seq<bv64>, a: seq<bv64>, b: seq<bv64>, c: seq<bv64>)
    ensures fifo + a + b + c == fifo + (a + b + c)
  {
  }
}
