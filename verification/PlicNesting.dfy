/** Interrupts do nest, as deep as the priorities allow (lib/drivers/plic.c). */
module PlicNesting {
  import opened Plic
  import opened PlicLoss

  // ----- in a callback -----

  predicate InCallback(s: State) { s.frames != [] && s.frames[|s.frames| - 1].phase == Callback }

  /** The source whose callback is running. */
  function Running(s: State): nat
    requires InCallback(s)
  {
    s.frames[|s.frames| - 1].num
  }

  lemma {:induction false} ExternalKept(s: State, i: nat)
    requires Inv(s) && i < |s.frames|
    ensures s.frames[i].entryMie.external == s.baseMie.external
  {
    assert FrameInv(s, i);
    if i > 0 { ExternalKept(s, i - 1); }
  }

  lemma TopInCallback(s: State)
    requires Inv(s) && InCallback(s)
    ensures s.mie == Mie(s.baseMie.external, false, false) && s.open && Source(Running(s))
    ensures s.threshold == Priority(s, Running(s)) > s.baseThreshold
  {
    var top := |s.frames| - 1;
    assert FrameInv(s, top);
    ExternalKept(s, top);
    LevelsClimb(s, top);
    hide Configured, FramesInv, GatewayInv, FrameInv, Best, Priority;
  }

  /** In a callback timer and software interrupts are masked, external ones are not, interrupts are open, and the
      threshold is the priority of the running source. */
  lemma CallbackIsOpen(threshold: nat, mie: Mie, open: bool, actions: seq<Action>)
    ensures var s := Run(Initial(threshold, mie, open), actions);
            InCallback(s) ==>
              && s.mie == Mie(true, false, false) && mie.external && s.open
              && Source(Running(s)) && s.threshold == Priority(s, Running(s)) > threshold
  {
    var init := Initial(threshold, mie, open);
    var s := Run(init, actions);
    InitialInv(threshold, mie, open);
    RunInv(init, actions);
    BaseIsConstant(init, actions);
    hide Inv, Run, Priority;
    if InCallback(s) {
      TopInCallback(s);
      if !Receptive(threshold, mie, open) { NothingTaken(threshold, mie, open, actions); }
    }
  }

  /** A request that would be claimed and is more urgent than a priority. */
  predicate Urgent(s: State, n: nat, than: nat) { 0 < n < SOURCES && Claimable(s, n) && Priority(s, n) > than }

  lemma PendingIffUrgent(s: State)
    ensures ExternalPending(s) <==> exists n :: Urgent(s, n, s.threshold)
  {
    var b := Best(s, SOURCES);
    if ExternalPending(s) {
      assert Urgent(s, b, s.threshold);
    }
    forall n | Urgent(s, n, s.threshold)
      ensures ExternalPending(s)
    {
      assert Claimable(s, n);
    }
  }

  /** A running callback is interrupted exactly by requests of a higher priority. */
  lemma PreemptsIffUrgent(threshold: nat, mie: Mie, open: bool, actions: seq<Action>)
    ensures var s := Run(Initial(threshold, mie, open), actions);
            InCallback(s) ==>
              (|Step(s, Trap).frames| == |s.frames| + 1 <==> exists n :: Urgent(s, n, Priority(s, Running(s))))
  {
    CallbackIsOpen(threshold, mie, open, actions);
    var s := Run(Initial(threshold, mie, open), actions);
    PendingIffUrgent(s);
    hide Run, Best;
  }

  // ----- the bound on the depth is reached -----

  /** Sources 1..k have priorities above the base threshold, one level each; the callbacks of the first j are running,
      the last on top. */
  ghost predicate Ready(s: State, base: nat, k: nat, j: nat) {
    && |s.frames| == j && (j > 0 ==> s.frames[j - 1].phase == Callback && s.frames[j - 1].num == j)
    && s.pending == {} && (forall n :: n in s.enabled <==> 0 < n <= k) && (forall n :: n in s.inService <==> 0 < n <= j)
    && |s.priority| == SOURCES > k && (forall i :: 0 < i <= k ==> s.priority[i] == base + i)
    && s.threshold == base + j && s.open && s.mie.external
  }

  lemma {:induction false} Prepare(init: State, base: nat, k: nat, i: nat) returns (actions: seq<Action>)
    requires i <= k < SOURCES && base + k <= PRIORITIES && init == Initial(base, init.mie, true) && init.mie.external
    ensures DisablesOnly(actions, {})
    ensures var s := Run(init, actions);
            && s == init.(priority := s.priority, enabled := s.enabled) && |s.priority| == SOURCES
            && (forall n :: n in s.enabled <==> 0 < n <= i) && (forall n :: 0 < n <= i ==> s.priority[n] == base + n)
  {
    hide Run;
    if i == 0 {
      actions := [];
      RunNothing(init);
    } else {
      actions := Prepare(init, base, k, i - 1);
      actions := Then(init, actions, {}, SetPriority(i, base + i));
      actions := Then(init, actions, {}, Enable(i));
    }
  }

  lemma RunNothing(init: State)
    ensures Run(init, []) == init
  {
  }

  predicate BeforeCallback(p: Phase) {
    p == ReadMie || p == SaveThreshold || p == RaiseThreshold || p == MaskMie || p == OpenMie
  }

  function NextPhase(p: Phase): Phase {
    match p
    case ReadMie => Claim case SaveThreshold => RaiseThreshold case RaiseThreshold => MaskMie case MaskMie => OpenMie
    case _ => Callback
  }

  /** The PLIC and the frames below are left alone. */
  predicate SameBelow(s: State, t: State) {
    && s.frames != [] && |t.frames| == |s.frames| && t.enabled == s.enabled && t.priority == s.priority
  }

  lemma LineOn(s: State)
    requires s.frames != [] && BeforeCallback(s.frames[|s.frames| - 1].phase)
    ensures var t, f := HartStep(s), s.frames[|s.frames| - 1];
            && SameBelow(s, t) && t.pending == s.pending && t.inService == s.inService
            && t.frames[|s.frames| - 1].phase == NextPhase(f.phase) && t.frames[|s.frames| - 1].num == f.num
            && (f.phase == ReadMie ==> t.threshold == s.threshold)
  {
    hide Best, ExternalPending, Priority;
  }

  lemma EnterOn(s: State)
    requires s.frames != [] && s.frames[|s.frames| - 1].phase == Enter && ExternalPending(s)
    ensures var t := HartStep(s);
            && SameBelow(s, t) && t.pending == s.pending && t.inService == s.inService && t.threshold == s.threshold
            && t.frames[|s.frames| - 1].phase == ReadMie
  {
    hide Best, ExternalPending, Priority;
  }

  lemma ClaimOn(s: State, n: nat)
    requires s.frames != [] && s.frames[|s.frames| - 1].phase == Claim && n > 0 && Best(s, SOURCES) == n
    ensures var t := HartStep(s);
            && SameBelow(s, t) && t.pending == s.pending - {n} && t.inService == s.inService + {n}
            && t.frames[|s.frames| - 1].phase == SaveThreshold && t.frames[|s.frames| - 1].num == n
  {
    hide Best, ExternalPending, Priority;
  }

  lemma OneRequest(s: State, n: nat)
    requires s.pending == {n} && n in s.enabled && Source(n) && Priority(s, n) > 0
    ensures Best(s, SOURCES) == n
  {
    assert Claimable(s, n);
  }

  lemma SevenLines(s: State, n: nat)
    requires s.frames != [] && s.frames[|s.frames| - 1].phase == Enter
    requires s.pending == {n} && n in s.enabled && Source(n) && Priority(s, n) > s.threshold
    ensures var t := HartSteps(s, 7);
            && SameBelow(s, t) && t.pending == {} && t.inService == s.inService + {n}
            && t.frames[|s.frames| - 1].phase == Callback && t.frames[|s.frames| - 1].num == n
  {
    OneRequest(s, n);
    assert ExternalPending(s);
    EnterOn(s);
    var a := HartStep(s);
    hide HartStep;
    LineOn(a);
    var b := HartStep(a);
    OneRequest(b, n);
    hide Best, Priority, ExternalPending;
    ClaimOn(b, n);
    var c := HartStep(b);
    FourMore(c);
    SevenSteps(s);
    assert s.pending - {n} == {};
  }

  lemma FourMore(s: State)
    requires s.frames != [] && s.frames[|s.frames| - 1].phase == SaveThreshold
    ensures var t := HartStep(HartStep(HartStep(HartStep(s))));
            && SameBelow(s, t) && t.pending == s.pending && t.inService == s.inService
            && t.frames[|s.frames| - 1].phase == Callback
            && t.frames[|s.frames| - 1].num == s.frames[|s.frames| - 1].num
  {
    hide HartStep;
    LineOn(s);
    LineOn(HartStep(s));
    LineOn(HartStep(HartStep(s)));
    LineOn(HartStep(HartStep(HartStep(s))));
  }

  lemma SevenSteps(s: State)
    ensures HartSteps(s, 7) == HartStep(HartStep(HartStep(HartStep(HartStep(HartStep(HartStep(s)))))))
  {
    hide HartStep;
    TwoSteps(s, 0);
    TwoSteps(s, 2);
    TwoSteps(s, 4);
  }

  lemma TwoSteps(s: State, k: nat)
    ensures HartSteps(s, k + 2) == HartStep(HartStep(HartSteps(s, k)))
    ensures HartSteps(s, k + 1) == HartStep(HartSteps(s, k))
  {
    hide HartStep;
  }

  /** One level deeper: a request of the next priority interrupts the callback. */
  lemma Deeper(init: State, actions: seq<Action>, base: nat, k: nat, j: nat) returns (longer: seq<Action>)
    requires init == Initial(base, init.mie, true) && init.mie.external && DisablesOnly(actions, {})
    requires j < k < SOURCES && base + k <= PRIORITIES && Ready(Run(init, actions), base, k, j)
    ensures DisablesOnly(longer, {}) && Ready(Run(init, longer), base, k, j + 1)
  {
    hide Run, HartStep, Best;
    var n := j + 1;
    longer := Then(init, actions, {}, Raise(n));
    var s := Run(init, longer);
    Interrupted(s, base, k, j);
    longer := Then(init, longer, {}, Trap);
    s := Run(init, longer);
    hide Step;
    SevenLines(s, n);
    longer := Lines(init, longer, {}, 7);
    CallbackIsOpen(base, init.mie, true, longer);
  }

  /** The request of the next priority is there and is taken. */
  lemma Interrupted(s: State, base: nat, k: nat, j: nat)
    requires j < k && s.pending == {j + 1} && Ready(s.(pending := {}), base, k, j)
    ensures var t := Step(s, Trap);
            && |t.frames| == j + 1 && t.frames[j].phase == Enter && t == s.(open := false, frames := t.frames)
            && Priority(t, j + 1) == base + j + 1 > t.threshold && Source(j + 1)
  {
    OneRequest(s, j + 1);
    hide Best;
  }

  lemma {:induction false} Nest(init: State, base: nat, k: nat, j: nat) returns (actions: seq<Action>)
    requires init == Initial(base, init.mie, true) && init.mie.external
    requires j <= k < SOURCES && base + k <= PRIORITIES
    ensures DisablesOnly(actions, {}) && Ready(Run(init, actions), base, k, j)
  {
    hide Run;
    if j == 0 {
      actions := Prepare(init, base, k, k);
    } else {
      actions := Nest(init, base, k, j - 1);
      actions := Deeper(init, actions, base, k, j - 1);
    }
  }

  /** For every base threshold the bound on the depth of the stack is reached by some run of a hart that takes
      external interrupts. */
  lemma DepthIsReached(threshold: nat, mie: Mie) returns (actions: seq<Action>)
    requires Receptive(threshold, mie, true)
    ensures var s := Run(Initial(threshold, mie, true), actions);
            |s.frames| == PRIORITIES - threshold && InCallback(s)
  {
    actions := Nest(Initial(threshold, mie, true), threshold, PRIORITIES - threshold, PRIORITIES - threshold);
  }
}
