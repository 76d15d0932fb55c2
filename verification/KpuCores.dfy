/** Programs that start all their runs on one core (lib/drivers/kpu.c). */
module KpuCores {
  import opened Kpu
  import opened KpuStream

  /** All claims of a run come from a set of requests. */
  predicate Over(events: seq<Event>, requests: set<Request>) {
    forall k :: 0 <= k < |events| && events[k].Claim? ==> events[k].request in requests
  }

  predicate OneCore(requests: set<Request>) { forall q, r :: q in requests && r in requests ==> q.core == r.core }

  predicate AcceptedOn(s: State, c: Core) { forall q :: q in s.runs.accepted ==> q.core == c }

  /** Nothing has happened on any other core. */
  predicate OnlyOn(s: State, c: Core) {
    && AcceptedOn(s, c) && s.enabled <= {c}
    && (s.ai.Inside? ==> s.ai.core == c) && (s.dma.Inside? ==> s.dma.core == c)
    && forall h :: h in s.runs.pending ==> h.core == c
  }

  /** One handler at a time: no two calls of kpu_continue, and a completion handler only when nothing else is going
      on; its run is then the last. */
  predicate InTurn(s: State) {
    && !(s.ai.Inside? && s.dma.Inside?)
    && (s.runs.pending != [] ==>
          !Calling(s) && !s.busy && |s.runs.pending| == 1 && s.runs.pending[0].run == s.runs.completed - 1)
  }

  lemma StepGrows(s: State, e: Event)
    requires Steady(s)
    ensures s.runs.accepted <= Step(s, e).runs.accepted && s.runs.completed <= Step(s, e).runs.completed
  {
    hide ContinueLine, Put, Slice, Marked, Free;
  }

  lemma {:induction false} AcceptedGrows(s: State, events: seq<Event>)
    requires Inv(s)
    ensures s.runs.accepted <= Run(s, events).runs.accepted && s.runs.completed <= Run(s, events).runs.completed
  {
    hide Step, Exclusive, Contextual, Remembered, Answered;
    if events != [] {
      AcceptedGrows(s, events[..|events| - 1]);
      StepGrows(Run(s, events[..|events| - 1]), events[|events| - 1]);
    }
  }

  /** While a run is in progress no other start is accepted, whatever happens and however often it is tried,
      until its output transfer has ended. */
  lemma NoSecondStart(s: State, events: seq<Event>)
    requires Inv(s) && s.busy && Run(s, events).runs.completed == s.runs.completed
    ensures Run(s, events).runs.accepted == s.runs.accepted && Run(s, events).busy
  {
    AcceptedGrows(s, events);
    hide Run, Remembered, Contextual, Answered;
  }

  lemma StepStaysOn(s: State, e: Event, c: Core)
    requires Inv(s) && OnlyOn(s, c) && AcceptedOn(Step(s, e), c)
    ensures OnlyOn(Step(s, e), c)
  {
    hide Contextual, Remembered, Answered, Put, Slice, Marked, ContinueLine;
    if e.Continue? { ContinueFacts(s.mem, s.ctx, s.stream, Call(s, e.source)); }
  }

  lemma StepInTurn(s: State, e: Event, c: Core)
    requires Inv(s) && OnlyOn(s, c) && InTurn(s) && AcceptedOn(Step(s, e), c)
    ensures InTurn(Step(s, e))
  {
    hide Contextual, Remembered, Answered, Put, Slice, Marked, ContinueLine;
    if e.Continue? { ContinueFacts(s.mem, s.ctx, s.stream, Call(s, e.source)); }
  }

  /** On one core a call of kpu_continue is disturbed by nothing. */
  lemma NotDisturbed(s: State, e: Event, c: Core)
    requires Inv(s) && OnlyOn(s, c) && InTurn(s) && AcceptedOn(Step(s, e), c) && !Early(s, e)
    ensures !Disturbs(s, e)
  {
    hide Contextual, Remembered, Answered, Put, Slice, Marked, ContinueLine, Line, Early;
    if e.Continue? { ContinueFacts(s.mem, s.ctx, s.stream, Call(s, e.source)); }
    if e.Proceed? && s.stage != AtRest {
      assert Current(s) in s.runs.accepted;
    }
    if e.Claim? && Accepts(s, e.request) {
      assert e.request in Step(s, e).runs.accepted;
    }
  }

  lemma {:induction false} OneCoreRuns(mem: Memory, events: seq<Event>, c: Core)
    requires Inv(Init(mem)) && AcceptedOn(Run(Init(mem), events), c)
    ensures OnlyOn(Run(Init(mem), events), c) && InTurn(Run(Init(mem), events))
    ensures NothingEarly(mem, events) ==> Undisturbed(mem, events)
  {
    hide Inv, Step, Disturbs, Early, OnlyOn, InTurn;
    if events == [] {
      InitIsOn(mem, c);
    } else {
      var before, e := events[..|events| - 1], events[|events| - 1];
      var s := Run(Init(mem), before);
      InvIsSteady(s);
      StepGrows(s, e);
      OneCoreRuns(mem, before, c);
      StepStaysOn(s, e, c);
      StepInTurn(s, e, c);
      if !Early(s, e) {
        NotDisturbed(s, e, c);
      }
    }
  }

  lemma InvIsSteady(s: State)
    requires Inv(s)
    ensures Steady(s)
  {
    hide Exclusive, Contextual, Remembered, Answered, Steady;
  }

  lemma InitIsOn(mem: Memory, c: Core)
    ensures OnlyOn(Init(mem), c) && InTurn(Init(mem))
  {
  }

  lemma EarlyShows(s: State, e: Event)
    requires Inv(s) && Early(s, e)
    ensures !Right(Step(s, e))
  {
    hide Exclusive, Contextual, Remembered, Answered;
    assert |Step(s, e).stream.fifo| > 0;
  }

  lemma {:induction false} RightIsNotEarly(mem: Memory, events: seq<Event>)
    requires Inv(Init(mem)) && AlwaysRight(mem, events)
    ensures NothingEarly(mem, events)
  {
    hide Inv, Step, Right, Early;
    if events != [] {
      RightIsNotEarly(mem, events[..|events| - 1]);
      if Early(Run(Init(mem), events[..|events| - 1]), events[|events| - 1]) {
        EarlyShows(Run(Init(mem), events[..|events| - 1]), events[|events| - 1]);
      }
    }
  }

  /** On one core the FIFO is right in every state of a run if and only if no layer is pushed between a swap and the
      setting of the remaining layers. */
  lemma RightIffNothingEarly(mem: Memory, events: seq<Event>, c: Core)
    requires Inv(Init(mem)) && AcceptedOn(Run(Init(mem), events), c)
    ensures AlwaysRight(mem, events) <==> NothingEarly(mem, events)
  {
    hide Inv, AlwaysRight, NothingEarly;
    if NothingEarly(mem, events) {
      OneCoreRuns(mem, events, c);
      LayersInOrder(mem, events);
    }
    if AlwaysRight(mem, events) {
      RightIsNotEarly(mem, events);
    }
  }

  // ----- the first start -----

  /** No core takes an interrupt before the first start has enabled it. */
  predicate FirstStart(s: State) {
    s.runs.accepted == [] || (s.stage != AtRest && s.stage != Enabled) ==> s.enabled == {} && !Calling(s)
  }

  lemma StepKeepsFirst(s: State, e: Event)
    requires Inv(s) && FirstStart(s) && |Step(s, e).runs.accepted| <= 1
    ensures FirstStart(Step(s, e)) && !Early(s, e)
  {
    hide Contextual, Remembered, Answered, Put, Slice, Marked, ContinueLine, Free;
    if e.Continue? { ContinueFacts(s.mem, s.ctx, s.stream, Call(s, e.source)); }
    if e.Claim? && Accepts(s, e.request) {
      assert s.runs.accepted == [];
    }
  }

  lemma {:induction false} OneStartIsNotEarly(mem: Memory, events: seq<Event>)
    requires Inv(Init(mem)) && |Run(Init(mem), events).runs.accepted| <= 1
    ensures NothingEarly(mem, events) && FirstStart(Run(Init(mem), events))
  {
    if events != [] {
      var before, e := events[..|events| - 1], events[|events| - 1];
      hide Inv, Step, Early;
      InvIsSteady(Run(Init(mem), before));
      StepGrows(Run(Init(mem), before), e);
      OneStartIsNotEarly(mem, before);
      StepKeepsFirst(Run(Init(mem), before), e);
    }
  }

  lemma OneStartIsRight(mem: Memory, events: seq<Event>)
    requires Inv(Init(mem)) && |Run(Init(mem), events).runs.accepted| <= 1
    ensures AlwaysRight(mem, events)
  {
    hide Inv, AlwaysRight, NothingEarly, Run;
    OneStartIsNotEarly(mem, events);
    var accepted := Run(Init(mem), events).runs.accepted;
    RightIffNothingEarly(mem, events, if accepted == [] then 0 else accepted[0].core);
  }

  lemma {:induction false} AcceptedFrom(mem: Memory, events: seq<Event>, requests: set<Request>)
    requires Inv(Init(mem)) && Over(events, requests)
    ensures forall q :: q in Run(Init(mem), events).runs.accepted ==> q in requests
  {
    hide Inv, Step;
    if events != [] {
      var before, e := events[..|events| - 1], events[|events| - 1];
      AcceptedFrom(mem, before, requests);
      InvIsSteady(Run(Init(mem), before));
      StepAccepts(Run(Init(mem), before), e);
    }
  }

  lemma StepAccepts(s: State, e: Event)
    requires Steady(s)
    ensures Step(s, e).runs.accepted == s.runs.accepted
         || (e.Claim? && Step(s, e).runs.accepted == s.runs.accepted + [e.request])
  {
    hide ContinueLine, Put, Slice, Marked, Free;
  }

  lemma OneCoreAccepts(mem: Memory, events: seq<Event>, requests: set<Request>) returns (c: Core)
    requires Inv(Init(mem)) && Over(events, requests) && OneCore(requests)
    ensures AcceptedOn(Run(Init(mem), events), c)
  {
    hide Inv, Run;
    AcceptedFrom(mem, events, requests);
    var accepted := Run(Init(mem), events).runs.accepted;
    c := if accepted == [] then 0 else accepted[0].core;
  }
}
