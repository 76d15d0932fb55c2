/** What the layer FIFO receives over whole runs (lib/drivers/kpu.c). */
module KpuStream {
  import opened Kpu

  // ----- what is right -----

  predicate Calling(s: State) { s.ai.Inside? || s.dma.Inside? }

  /** Since the claim the FIFO has received the encodings of the task's layers, each once and in order, with the
      two marks on the last: none before the remaining layers were set, and then one for each call of kpu_continue
      that has returned, as long as there are any. */
  predicate Right(s: State) {
    s.runs.accepted != [] ==>
      var image := s.stream.image;
      && |image| == Current(s).task.length > 0
      && (if Unarmed(s.stage) then s.stream.fifo == []
          else
            && s.stream.fifo <= EncodeAll(Prepared(image))
            && (!Calling(s) ==> s.stream.fifo == EncodeAll(Prepared(image)[..Min(s.stream.calls, |image|)])))
  }

  predicate AlwaysRight(mem: Memory, events: seq<Event>)
    requires Inv(Init(mem))
  {
    Right(Run(Init(mem), events)) && (events != [] ==> AlwaysRight(mem, events[..|events| - 1]))
  }

  function Call(s: State, source: Source): Activation { if source == Ai then s.ai else s.dma }

  /** A line that pushes a layer between the swap and the setting of the remaining layers. */
  predicate Early(s: State, e: Event) {
    && e.Continue? && Unarmed(s.stage)
    && match Call(s, e.source)
       case Inside(_, Burst) => true
       case Inside(_, Single(i)) => i < s.ctx.left
       case _ => false
  }

  predicate NothingEarly(mem: Memory, events: seq<Event>)
    requires Inv(Init(mem))
  {
    events != [] ==>
      var before := events[..|events| - 1];
      NothingEarly(mem, before) && !Early(Run(Init(mem), before), events[|events| - 1])
  }

  // ----- undisturbed runs -----

  predicate Begins(s: State, t: State) { (s.ai.Outside? && t.ai.Inside?) || (s.dma.Outside? && t.dma.Inside?) }

  /** While a call of kpu_continue is under way, another begins, or a start is accepted or goes on; or a layer is
      pushed early. */
  predicate Disturbs(s: State, e: Event)
    requires Steady(s)
  {
    (Calling(s) && (Begins(s, Step(s, e)) || Step(s, e).stage != s.stage)) || Early(s, e)
  }

  predicate Undisturbed(mem: Memory, events: seq<Event>)
    requires Inv(Init(mem))
  {
    events != [] ==>
      var before := events[..|events| - 1];
      Undisturbed(mem, before) && !Disturbs(Run(Init(mem), before), events[|events| - 1])
  }

  /** The call under way, if there is only one. */
  function Only(s: State): Activation { if s.ai.Inside? then s.ai else s.dma }

  /** The call has pushed its layer and not yet changed the remaining length. */
  predicate Ahead(a: Activation) {
    a.Inside? && (a.point == Single(1) || a.point == Clear || a.point == Advance || a.point == Decrease)
  }

  predicate Fits(a: Activation, left: nat) {
    match a
    case Outside => true
    case Inside(_, point) =>
      match point
      case Test => true
      case Single(i) => left == 1 && i <= 1
      case Clear => left == 1
      case _ => left > 1
  }

  /** What remains and what the FIFO holds, with the layers as they stand in memory. */
  predicate Streaming(ctx: Task, x: Stream, layers: seq<Layer>, a: Activation) {
    var n := |layers|;
    var k := Min(x.calls, n);
    && ctx.length == n && ctx.left == n - k && Fits(a, ctx.left)
    && (ctx.left > 0 ==> ctx.remain == ctx.layers + k + if a.Inside? && a.point == Decrease then 1 else 0)
    && (Ahead(a) ==> k < n)
    && x.fifo == EncodeAll(layers[..if Ahead(a) then k + 1 else k])
  }

  /** No layer has been pushed, and the only call there may be has not come to pushing one. */
  predicate Untouched(stage: Stage, ctx: Task, x: Stream, a: Activation) {
    && x.fifo == [] && (stage == LengthSet ==> ctx.left == ctx.length)
    && match a
       case Outside => true
       case Inside(_, Test) => true
       case Inside(_, Single(i)) => i == 0 && ctx.left > 0
       case Inside(_, Burst) => ctx.left > 0
       case _ => false
  }

  predicate Clean(s: State) {
    && (s.ai.Outside? || s.dma.Outside?)
    && (s.runs.accepted == [] ==> !Calling(s) && s.enabled == {} && s.phase == Quiet)
    && (s.runs.accepted != [] ==>
          if Unarmed(s.stage) then Untouched(s.stage, s.ctx, s.stream, Only(s))
          else Streaming(s.ctx, s.stream, Slice(s.mem, s.ctx.layers, s.ctx.length), Only(s)))
  }

  lemma {:induction false} EncodePrefix(layers: seq<Layer>, k: nat)
    requires k <= |layers|
    ensures EncodeAll(layers[..k]) <= EncodeAll(layers)
    decreases |layers|
  {
    hide Encode;
    if k == |layers| {
      assert layers[..k] == layers;
    } else {
      var front := layers[..|layers| - 1];
      EncodePrefix(front, k);
      assert front[..k] == layers[..k];
    }
  }

  lemma CleanIsRight(s: State)
    requires Inv(s) && Clean(s)
    ensures Right(s)
  {
    hide Exclusive, Answered, EncodeAll, Encode, Slice;
    if s.runs.accepted != [] && !Unarmed(s.stage) {
      var layers := Slice(s.mem, s.ctx.layers, s.ctx.length);
      assert layers == Prepared(s.stream.image);
      var k := Min(s.stream.calls, |layers|);
      EncodePrefix(layers, if Ahead(Only(s)) then k + 1 else k);
    }
  }

  /** A line of the only call, on a layer list that is in memory. */
  lemma LineKeepsStreaming(mem: Memory, ctx: Task, x: Stream, a: Activation)
    requires Streaming(ctx, x, Slice(mem, ctx.layers, ctx.length), a)
    ensures var k := ContinueLine(mem, ctx, x, a);
            Streaming(k.ctx, k.stream, Slice(mem, ctx.layers, ctx.length), k.call)
  {
    hide Encode, EncodeAll;
    var layers := Slice(mem, ctx.layers, ctx.length);
    if a.Inside? && (a.point == Single(0) || a.point == Burst) {
      EncodeAllPush(layers, x.calls);
      assert layers[x.calls] == mem(ctx.remain);
    }
    hide Slice;
  }

  lemma LineKeepsUntouched(stage: Stage, mem: Memory, ctx: Task, x: Stream, a: Activation)
    requires Untouched(stage, ctx, x, a) && (a.Inside? ==> a.point == Test)
    ensures var k := ContinueLine(mem, ctx, x, a);
            Untouched(stage, k.ctx, k.stream, k.call)
  {
    hide Encode;
  }

  lemma ContinueKeepsClean(s: State, source: Source)
    requires Inv(s) && Clean(s) && !Early(s, Continue(source))
    ensures Clean(Step(s, Continue(source)))
  {
    hide Exclusive, Contextual, Remembered, Answered, Streaming, Slice;
    var a := Call(s, source);
    if a.Inside? {
      ContinueFacts(s.mem, s.ctx, s.stream, a);
      if s.runs.accepted != [] {
        if Unarmed(s.stage) {
          LineKeepsUntouched(s.stage, s.mem, s.ctx, s.stream, a);
        } else {
          LineKeepsStreaming(s.mem, s.ctx, s.stream, a);
        }
      }
      hide Untouched, ContinueLine;
    }
  }

  lemma LineKeepsClean(s: State)
    requires Inv(s) && Clean(s) && !Calling(s) && s.stage != AtRest
    ensures Clean(Line(s))
  {
    hide Exclusive, Answered, Encode, Put, Marked, Prepared;
    if s.stage == LengthSet {
      assert Slice(s.mem, s.ctx.layers, s.ctx.length)[..0] == [];
      assert EncodeAll([]) == [];
    }
    hide Slice, EncodeAll;
  }

  lemma StepKeepsClean(s: State, e: Event)
    requires Inv(s) && Clean(s) && !Disturbs(s, e)
    ensures Clean(Step(s, e))
  {
    hide Contextual, Remembered, Answered, Streaming, Slice, ContinueLine, Line;
    match e
    case Continue(source) => ContinueKeepsClean(s, source);
    case Proceed =>
      if Proceeds(s) {
        LineChanges(s);
        LineKeepsClean(s);
      }
    case _ => CallsApart(s, e);
  }

  lemma LineChanges(s: State)
    requires Steady(s) && s.stage != AtRest
    ensures Line(s).stage != s.stage
  {
    hide Put, Marked;
  }

  lemma CallsApart(s: State, e: Event)
    requires Inv(s) && Clean(s) && !Disturbs(s, e) && !e.Continue? && !e.Proceed?
    ensures Clean(Step(s, e))
  {
    hide Contextual, Remembered, Answered, Slice, Free;
    if s.runs.accepted != [] && !Unarmed(s.stage) && !e.Claim? {
      BeginKeepsStreaming(s.ctx, s.stream, Slice(s.mem, s.ctx.layers, s.ctx.length), Only(s), Only(Step(s, e)));
    }
    hide Streaming;
  }

  lemma BeginKeepsStreaming(ctx: Task, x: Stream, layers: seq<Layer>, a: Activation, b: Activation)
    requires Streaming(ctx, x, layers, a)
    ensures b == a || (a.Outside? && b.Inside? && b.point == Test) ==> Streaming(ctx, x, layers, b)
  {
    hide Encode, EncodeAll;
  }

  lemma InitIsClean(mem: Memory)
    ensures Clean(Init(mem))
  {
  }

  /** As long as nothing disturbs it, the FIFO is right in every state of a run. */
  lemma {:induction false} LayersInOrder(mem: Memory, events: seq<Event>)
    requires Inv(Init(mem)) && Undisturbed(mem, events)
    ensures Clean(Run(Init(mem), events)) && AlwaysRight(mem, events)
  {
    hide Inv, Step, Right, Clean, Disturbs;
    if events == [] {
      InitIsClean(mem);
    } else {
      LayersInOrder(mem, events[..|events| - 1]);
      StepKeepsClean(Run(Init(mem), events[..|events| - 1]), events[|events| - 1]);
    }
    CleanIsRight(Run(Init(mem), events));
  }
}
