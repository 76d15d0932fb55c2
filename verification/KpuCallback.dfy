/** Which callback answers a run (lib/drivers/kpu.c). */
module KpuCallback {
  import opened Kpu
  import opened KpuStream
  import opened KpuCores
  import opened KpuRuns

  lemma PendingIsCompleted(r: Runs, i: nat)
    requires Answered(r) && i < |r.pending|
    ensures r.pending[i].run < r.completed
  {
    assert RunsOf(r.pending)[i] in multiset(RunsOf(r.pending)) + multiset(r.answered);
    assert r.pending[i].run in Numbers(r.completed);
  }

  /** The completion handler frees the context and then calls the callback it finds there.  That is the finished
      run's own exactly if the one in place is: after a later claim, the callback of the request before until the
      copying reaches it, then the one in the caller's structure, which kpu_run does not ask to be filled in, and
      from the assignment on the later request's. */
  lemma CallbackIsOwn(s: State, i: nat)
    requires Inv(s) && i < |s.runs.pending|
    ensures s.runs.pending[i].run < |s.runs.accepted|
    ensures Step(s, Notify(i)).runs.called == s.runs.called + [s.ctx.cb]
    ensures var own := s.runs.accepted[s.runs.pending[i].run].callback;
            s.ctx.cb == own <==> CallbackInPlace(s.runs.accepted, s.stage) == own
  {
    hide Remembered, Answered;
    PendingIsCompleted(s.runs, i);
  }

  lemma PendingIsPositive(s: State, i: nat)
    requires Inv(s) && i < |s.runs.pending|
    ensures s.runs.pending[i].run < s.runs.completed <= |s.runs.accepted|
  {
    hide Remembered, Answered, Contextual;
    PendingIsCompleted(s.runs, i);
  }

  lemma ContextCallback(s: State)
    requires Inv(s)
    ensures s.ctx.cb == CallbackInPlace(s.runs.accepted, s.stage)
  {
    hide Remembered, Answered, Exclusive, CallbackInPlace;
  }

  /** Every callback that has been called was the one of the run it answered. */
  predicate Own(r: Runs) {
    && |r.called| == |r.answered|
    && forall i :: 0 <= i < |r.answered| ==>
         r.answered[i] < |r.accepted| && r.called[i] == r.accepted[r.answered[i]].callback
  }

  lemma OwnPush(r: Runs, t: Runs, a: nat, cb: Callback)
    requires Own(r) && t.accepted == r.accepted
    requires t.answered == r.answered + [a] && t.called == r.called + [cb]
    requires a < |r.accepted| && cb == r.accepted[a].callback
    ensures Own(t)
  {
  }

  lemma OwnGrows(r: Runs, t: Runs)
    requires Own(r) && r.accepted <= t.accepted && t.answered == r.answered && t.called == r.called
    ensures Own(t)
  {
  }

  lemma OtherSteps(s: State, e: Event)
    requires Inv(s) && !e.Notify?
    ensures var t := Step(s, e).runs;
            s.runs.accepted <= t.accepted && t.answered == s.runs.answered && t.called == s.runs.called
  {
    hide Exclusive, Contextual, Remembered, Answered, ContinueLine, Put, Slice, Marked, Free;
  }

  lemma NotifyFacts(s: State, i: nat)
    requires Inv(s)
    ensures Step(s, Notify(i)) == if i < |s.runs.pending| then Notifying(s, i) else s
  {
    hide Exclusive, Contextual, Remembered, Answered, Notifying;
  }

  /** A step keeps the callbacks own if the one it may call is. */
  lemma StepKeepsOwn(s: State, e: Event)
    requires Inv(s) && Own(s.runs)
    requires e.Notify? && e.which < |s.runs.pending| ==>
               var run := s.runs.pending[e.which].run;
               run < |s.runs.accepted| ==> s.ctx.cb == s.runs.accepted[run].callback
    ensures Own(Step(s, e).runs)
  {
    if e.Notify? {
      NotifyFacts(s, e.which);
      if e.which < |s.runs.pending| {
        CallbackIsOwn(s, e.which);
        hide Inv, Step, Own;
        OwnPush(s.runs, Notifying(s, e.which).runs, s.runs.pending[e.which].run, s.ctx.cb);
      }
    } else {
      OtherSteps(s, e);
      hide Inv, Step, Own;
      OwnGrows(s.runs, Step(s, e).runs);
    }
  }

  // ----- one callback -----

  /** All callbacks that can ever stand in the context are the same: those given to kpu_run and those that
      happen to be in the structures. */
  predicate OneCallback(requests: set<Request>) {
    forall q, r :: q in requests && r in requests ==> r.task.cb == q.callback && r.callback == q.callback
  }

  lemma InPlaceFromSet(s: State, requests: set<Request>, own: Request)
    requires Inv(s) && OneCallback(requests) && own in s.runs.accepted && s.runs.pending != []
    requires forall q :: q in s.runs.accepted ==> q in requests
    ensures s.ctx.cb == own.callback
  {
    hide Remembered;
    var n := |s.runs.accepted|;
    PendingIsCompleted(s.runs, 0);
    assert s.runs.accepted[n - 1] in requests && (n > 1 ==> s.runs.accepted[n - 2] in requests) && own in requests;
    hide Answered;
  }

  lemma {:induction false} OneCallbackIsOwn(mem: Memory, events: seq<Event>, requests: set<Request>)
    requires Inv(Init(mem)) && Over(events, requests) && OneCallback(requests)
    ensures Own(Run(Init(mem), events).runs)
  {
    if events != [] {
      hide Inv, Step, OneCallback;
      var before, e := events[..|events| - 1], events[|events| - 1];
      var s := Run(Init(mem), before);
      OneCallbackIsOwn(mem, before, requests);
      AcceptedFrom(mem, before, requests);
      if e.Notify? && e.which < |s.runs.pending| && s.runs.pending[e.which].run < |s.runs.accepted| {
        InPlaceFromSet(s, requests, s.runs.accepted[s.runs.pending[e.which].run]);
      }
      StepKeepsOwn(s, e);
    }
  }

  // ----- nobody in between -----

  lemma LastInPlace(s: State)
    requires Exclusive(s) && 0 < s.runs.completed <= |s.runs.accepted|
    requires !s.busy || s.stage == Claimed || s.stage == PointersCopied
    ensures CallbackInPlace(s.runs.accepted, s.stage) == s.runs.accepted[s.runs.completed - 1].callback
  {
  }

  /** At most the last completed run is pending, and its callback is still in place. */
  predicate InOrder(s: State) {
    s.runs.pending != [] ==>
      && |s.runs.pending| == 1 && s.runs.pending[0].run == s.runs.completed - 1
      && (!s.busy || s.stage == Claimed || s.stage == PointersCopied)
  }

  lemma InOrderIsOwn(s: State, i: nat)
    requires Inv(s) && InOrder(s) && i < |s.runs.pending|
    ensures s.runs.pending[i].run < |s.runs.accepted|
    ensures s.ctx.cb == s.runs.accepted[s.runs.pending[i].run].callback
  {
    hide Remembered, Answered, Contextual, CallbackInPlace, Step;
    CallbackIsOwn(s, i);
    PendingIsPositive(s, i);
    LastInPlace(s);
    ContextCallback(s);
  }

  // ----- one core -----

  lemma InTurnIsInOrder(s: State)
    requires InTurn(s)
    ensures InOrder(s)
  {
  }

  lemma {:induction false} OneCoreIsOwn(mem: Memory, events: seq<Event>, c: Core)
    requires Inv(Init(mem)) && AcceptedOn(Run(Init(mem), events), c)
    ensures Own(Run(Init(mem), events).runs)
  {
    if events != [] {
      hide Inv, Step, InTurn, InOrder, OnlyOn;
      var before, e := events[..|events| - 1], events[|events| - 1];
      var s := Run(Init(mem), before);
      InvIsSteady(s);
      StepGrows(s, e);
      OneCoreIsOwn(mem, before, c);
      OneCoreRuns(mem, before, c);
      if e.Notify? && e.which < |s.runs.pending| {
        assert InOrder(s) by { InTurnIsInOrder(s); }
        InOrderIsOwn(s, e.which);
      }
      StepKeepsOwn(s, e);
    }
  }

  // ----- two cores and two callbacks -----

  /** After two lines of a start the structure's callback is in place, after five the one given to kpu_run. */
  lemma InPlaceAfter(v: View, r: Request)
    requires v.stage == Claimed && v.runs.accepted != [] && r == Last(v) && ViewFree(v, r.core)
    ensures ViewLines(v, 2).cb == r.task.cb && ViewLines(v, 5).cb == r.callback
    ensures ViewLines(v, 2).runs == v.runs == ViewLines(v, 5).runs
  {
    FourLines(v, r);
    hide ViewStep, ViewFree;
    var w := ViewLines(v, 4);
    NextLine(w, r);
    LinesSum(v, 4, 1);
    assert ViewLines(w, 1) == ViewStep(w, Proceed);
    NextLine(v, r);
    NextLine(ViewLine(v), r);
    assert ViewLines(v, 2) == ViewStep(ViewStep(v, Proceed), Proceed);
  }

  /** A run of q, whose completion core d has taken, and a claim of r on another core, after n of whose lines d
      calls the callback. */
  lemma Overtaken(mem: Memory, before: seq<Event>, requests: set<Request>, v: View, q: Request, r: Request, d: Core,
                  n: nat) returns (events: seq<Event>)
    requires Reaches(mem, before, requests, v) && Resting(v) && q in requests && r in requests
    requires q.task.length > 0 && r.task.length > 0 && d in v.enabled + {q.core} && d != r.core && (n == 2 || n == 5)
    ensures Inv(Init(mem)) && Over(events, requests)
    ensures var runs := Run(Init(mem), events).runs;
            && runs.accepted == v.runs.accepted + [q] + [r]
            && runs.answered == v.runs.answered + [v.runs.completed]
            && runs.called == v.runs.called + [if n == 2 then r.task.cb else r.callback]
  {
    hide Reaches, ViewLines;
    events := WholeRun(mem, before, requests, v, q, d);
    var w := Ran(v, q, d);
    events := Start(mem, events, requests, w, r);
    w := ViewClaim(w, r);
    events := Lines(mem, events, requests, w, n);
    InPlaceAfter(w, r);
    w := ViewLines(w, n);
    events := Tell(mem, events, requests, w);
    EndsWith(mem, events, requests, Told(w));
  }

  lemma EndsWith(mem: Memory, events: seq<Event>, requests: set<Request>, v: View)
    requires Reaches(mem, events, requests, v)
    ensures Inv(Init(mem)) && Over(events, requests) && Run(Init(mem), events).runs == v.runs
  {
    hide Inv, Run, NothingEarly;
  }

  /** Two tasks with the same callback f on two cores, the second in a structure that holds g: core 0 has freed the
      context, core 1 has claimed it and copied the structure, and core 0 calls g. */
  lemma OvertakenBySameCallback(mem: Memory, q: Request, r: Request) returns (events: seq<Event>)
    requires q.task.length > 0 && r.task.length > 0 && r.callback == q.callback && q.core != r.core
    ensures Inv(Init(mem)) && Over(events, {q, r})
    ensures var runs := Run(Init(mem), events).runs;
            runs.accepted == [q, r] && runs.answered == [0] && runs.called == [r.task.cb]
  {
    hide Run, Inv, Reaches;
    Begin(mem, {q, r});
    events := Overtaken(mem, [], {q, r}, START, q, r, q.core, 2);
  }

  /** A first run on another core than r's, then q and r, whose completion and start overtake each other. */
  lemma SomebodyElses(mem: Memory, a: Request, q: Request, r: Request, requests: set<Request>)
      returns (events: seq<Event>)
    requires a in requests && q in requests && r in requests && a.core != r.core
    requires a.task.length > 0 && q.task.length > 0 && r.task.length > 0
    requires !(r.task.cb == q.callback && r.callback == q.callback)
    ensures Inv(Init(mem)) && Over(events, requests) && !Own(Run(Init(mem), events).runs)
  {
    hide Run, Inv, Reaches;
    Begin(mem, requests);
    events := WholeRun(mem, [], requests, START, a, a.core);
    var v := Ran(START, a, a.core);
    events := Tell(mem, events, requests, v);
    v := Told(v);
    assert v.runs == Runs([a], 1, [], [0], [a.callback]);
    events := Overtaken(mem, events, requests, v, q, r, a.core, if r.task.cb != q.callback then 2 else 5);
    var runs := Run(Init(mem), events).runs;
    assert runs.answered[1] == 1 && runs.accepted[1] == q && runs.called[1] != q.callback;
  }

  /** The exact condition on the requests a program makes: in every run over them every callback called is the
      finished run's own if and only if they are all made on one core, or all the callbacks, those given to kpu_run
      and those standing in the structures it copies, are one. */
  lemma OwnIff(mem: Memory, requests: set<Request>)
    requires forall q :: q in requests ==> q.task.length > 0
    ensures Inv(Init(mem))
    ensures (forall events: seq<Event> :: Over(events, requests) ==> Own(Run(Init(mem), events).runs))
            <==> OneCore(requests) || OneCallback(requests)
  {
    InitInv(mem);
    hide Run, Inv, Own;
    if OneCore(requests) || OneCallback(requests) {
      forall events: seq<Event> | Over(events, requests)
        ensures Own(Run(Init(mem), events).runs)
      {
        if OneCallback(requests) {
          OneCallbackIsOwn(mem, events, requests);
        } else {
          var c := OneCoreAccepts(mem, events, requests);
          OneCoreIsOwn(mem, events, c);
        }
      }
    } else {
      var q, r :| q in requests && r in requests && !(r.task.cb == q.callback && r.callback == q.callback);
      var a :| a in requests && a.core != r.core;
      var events := SomebodyElses(mem, a, q, r, requests);
      assert Over(events, requests) && !Own(Run(Init(mem), events).runs);
    }
  }

  // ----- runs without a start in the gap -----

  /** No structure's callback is copied into the context while a handler still has to read it. */
  predicate Calm(s: State, events: seq<Event>)
    requires Inv(s)
  {
    events != [] ==>
      var t := Run(s, events[..|events| - 1]);
      && Calm(s, events[..|events| - 1])
      && (events[|events| - 1] == Proceed && t.stage == PointersCopied ==> t.runs.pending == [])
  }

  lemma CalmStep(s: State, e: Event)
    requires Inv(s) && InOrder(s) && (e == Proceed && s.stage == PointersCopied ==> s.runs.pending == [])
    ensures InOrder(Step(s, e))
  {
    hide Remembered, Answered, Contextual, ContinueLine, Put, Slice, Marked, Free;
  }

  /** In such a run every callback is the answered run's own, whatever is in the structures and on whatever cores. */
  lemma {:induction false} CalmRunsAreOwn(mem: Memory, events: seq<Event>)
    requires Inv(Init(mem)) && Calm(Init(mem), events)
    ensures InOrder(Run(Init(mem), events)) && Own(Run(Init(mem), events).runs)
  {
    if events != [] {
      hide Inv, InOrder, Step;
      var before, e := events[..|events| - 1], events[|events| - 1];
      var s := Run(Init(mem), before);
      CalmRunsAreOwn(mem, before);
      CalmStep(s, e);
      if e.Notify? && e.which < |s.runs.pending| {
        InOrderIsOwn(s, e.which);
      }
      StepKeepsOwn(s, e);
    }
  }
}
