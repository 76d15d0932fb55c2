/** When the interrupt controller can ignore a completion (lib/drivers/plic.c). */
module PlicLoss {
  import opened Plic

  /** All sources that a run disables are in d. */
  predicate DisablesOnly(actions: seq<Action>, d: set<nat>) {
    forall k :: 0 <= k < |actions| && actions[k].Disable? ==> actions[k].source in d
  }

  predicate Source(n: nat) { 0 < n < SOURCES }

  /** The hart takes external interrupts at all. */
  predicate Receptive(threshold: nat, mie: Mie, open: bool) { threshold < PRIORITIES && mie.external && open }

  lemma StepEnablesSources(s: State, a: Action)
    requires forall n :: n in s.enabled ==> Source(n)
    ensures forall n :: n in Step(s, a).enabled ==> Source(n)
  {
    hide PlainLine, Best;
  }

  lemma {:induction false} OnlySourcesEnabled(init: State, actions: seq<Action>)
    requires init.enabled == {}
    ensures forall n :: n in Run(init, actions).enabled ==> Source(n)
  {
    if actions != [] {
      hide Step;
      OnlySourcesEnabled(init, actions[..|actions| - 1]);
      StepEnablesSources(Run(init, actions[..|actions| - 1]), actions[|actions| - 1]);
    }
  }

  /** Disabling what is no source changes nothing. */
  lemma {:induction false} NoSourceDisabled(threshold: nat, mie: Mie, open: bool, actions: seq<Action>, d: set<nat>)
    requires DisablesOnly(actions, d) && forall n :: n in d ==> !Source(n)
    ensures ActiveEnabled(Run(Initial(threshold, mie, open), actions))
  {
    var init := Initial(threshold, mie, open);
    InitialInv(threshold, mie, open);
    if actions != [] {
      var before, a := actions[..|actions| - 1], actions[|actions| - 1];
      NoSourceDisabled(threshold, mie, open, before, d);
      RunInv(init, before);
      OnlySourcesEnabled(init, before);
      var s := Run(init, before);
      if Disables(a) {
        hide Inv, Run, ActiveNums;
        assert a.source !in s.enabled && s.enabled - {a.source} == s.enabled;
      } else {
        hide Step, ActiveEnabled;
        StepWithoutDisable(s, a);
      }
    }
  }

  lemma StepStaysOutside(s: State, a: Action)
    requires Configured(s) && s.frames == [] && s.ignored == {} && !Receptive(s.threshold, s.mie, s.open)
    ensures var t := Step(s, a);
            && t.frames == [] && t.ignored == {} && t.threshold == s.threshold && t.mie == s.mie && t.open == s.open
  {
    hide Best;
  }

  lemma {:induction false} NothingTaken(threshold: nat, mie: Mie, open: bool, actions: seq<Action>)
    requires !Receptive(threshold, mie, open)
    ensures var s := Run(Initial(threshold, mie, open), actions);
            s.frames == [] && s.ignored == {} && s.threshold == threshold && s.mie == mie && s.open == open
  {
    if actions != [] {
      NothingTaken(threshold, mie, open, actions[..|actions| - 1]);
      InitialInv(threshold, mie, open);
      RunInv(Initial(threshold, mie, open), actions[..|actions| - 1]);
      hide Step, Inv, Configured;
      StaysConfigured(Run(Initial(threshold, mie, open), actions[..|actions| - 1]));
      StepStaysOutside(Run(Initial(threshold, mie, open), actions[..|actions| - 1]), actions[|actions| - 1]);
    }
  }

  lemma StaysConfigured(s: State)
    requires Inv(s)
    ensures Configured(s)
  {
    hide Configured, FramesInv, TopInv, GatewayInv;
  }

  lemma Then(init: State, actions: seq<Action>, d: set<nat>, a: Action) returns (longer: seq<Action>)
    requires DisablesOnly(actions, d) && (a.Disable? ==> a.source in d)
    ensures DisablesOnly(longer, d) && Run(init, longer) == Step(Run(init, actions), a)
  {
    hide Step;
    longer := actions + [a];
    assert longer[..|actions|] == actions;
  }

  lemma OnlyRequest(s: State, n: nat)
    requires s.pending == {n} == s.enabled && Source(n) && Priority(s, n) > 0
    ensures Best(s, SOURCES) == n
  {
    assert Claimable(s, n);
  }

  /** The handler of a single request, up to its callback. */
  lemma {:induction false} Lines(init: State, actions: seq<Action>, d: set<nat>, k: nat) returns (longer: seq<Action>)
    requires DisablesOnly(actions, d)
    ensures DisablesOnly(longer, d) && Run(init, longer) == HartSteps(Run(init, actions), k)
  {
    hide HartStep, Run;
    longer := actions;
    if k > 0 {
      longer := Lines(init, actions, d, k - 1);
      longer := Then(init, longer, d, Hart);
    }
  }

  function HartSteps(s: State, k: nat): State { if k == 0 then s else HartStep(HartSteps(s, k - 1)) }

  lemma ThreeLines(s: State, n: nat)
    requires s.frames == [Frame(Enter, 0, s.mie, 0, s.mie, s.threshold)] && Source(n) && s.ignored == {}
    requires s.pending == {n} == s.enabled && Priority(s, n) > s.threshold
    ensures var t := HartSteps(s, 3);
            && t.frames == [Frame(SaveThreshold, n, s.mie, 0, s.mie, s.threshold)]
            && t.enabled == {n} && t.ignored == {} && t.priority == s.priority
  {
    hide Best;
    OnlyRequest(s, n);
    var a := HartStep(s);
    assert a.frames == [Frame(ReadMie, 0, s.mie, 0, s.mie, s.threshold)];
    var b := HartStep(a);
    assert b.frames == [Frame(Claim, 0, s.mie, 0, s.mie, s.threshold)];
    OnlyRequest(b, n);
    var c := HartStep(b);
    assert c.frames == [Frame(SaveThreshold, n, s.mie, 0, s.mie, s.threshold)];
    hide HartStep;
    assert HartSteps(s, 1) == a && HartSteps(s, 2) == b && HartSteps(s, 3) == c;
  }

  lemma FourLines(s: State, n: nat, f: Frame)
    requires s.frames == [f] && f.phase == SaveThreshold && f.num == n && s.enabled == {n} && s.ignored == {}
    ensures var t := HartSteps(s, 4);
            |t.frames| == 1 && t.frames[0].phase == Callback && t.frames[0].num == n && t.enabled == {n} && t.ignored == {}
  {
    hide Best, ExternalPending, Priority;
    var a := HartStep(s);
    var b := HartStep(a);
    assert |b.frames| == 1 && b.frames[0].phase == MaskMie && b.frames[0].num == n;
    var c := HartStep(b);
    var e := HartStep(c);
    assert |e.frames| == 1 && e.frames[0].phase == Callback && e.frames[0].num == n;
    hide HartStep;
    assert HartSteps(s, 1) == a && HartSteps(s, 2) == b && HartSteps(s, 3) == c && HartSteps(s, 4) == e;
  }

  /** A source of the highest priority is enabled and requested, and its callback disables it. */
  lemma DisabledInCallback(threshold: nat, mie: Mie, open: bool, d: set<nat>, n: nat) returns (actions: seq<Action>)
    requires Receptive(threshold, mie, open) && n in d && Source(n)
    ensures DisablesOnly(actions, d) && Run(Initial(threshold, mie, open), actions).ignored == {n}
  {
    var init := Initial(threshold, mie, open);
    assert Run(init, []) == init;
    hide Run, HartStep;
    actions := Then(init, [], d, SetPriority(n, PRIORITIES));
    actions := Then(init, actions, d, Enable(n));
    actions := Then(init, actions, d, Raise(n));
    var s := Run(init, actions);
    assert s.pending == {n} == s.enabled && s.frames == [] && Priority(s, n) == PRIORITIES;
    OnlyRequest(s, n);
    actions := Then(init, actions, d, Trap);
    s := Run(init, actions);
    hide Step, Best;
    ThreeLines(s, n);
    actions := Lines(init, actions, d, 3);
    s := Run(init, actions);
    FourLines(s, n, s.frames[0]);
    actions := Lines(init, actions, d, 4);
    actions := DisableAndComplete(init, actions, d, n);
  }

  lemma DisableAndComplete(init: State, before: seq<Action>, d: set<nat>, n: nat) returns (actions: seq<Action>)
    requires DisablesOnly(before, d) && n in d
    requires var s := Run(init, before);
             |s.frames| == 1 && s.frames[0].phase == Callback && s.frames[0].num == n && s.ignored == {}
    ensures DisablesOnly(actions, d) && Run(init, actions).ignored == {n}
  {
    hide Run, Best, ExternalPending, Priority;
    actions := Then(init, before, d, Disable(n));
    actions := Then(init, actions, d, Hart);
    actions := Then(init, actions, d, Hart);
  }

  /** The exact condition: whatever else happens, no completion is ignored in any run that disables only sources in d
      if and only if there is no source in d, or the hart takes no external interrupts. */
  lemma NothingLostIff(threshold: nat, mie: Mie, open: bool, d: set<nat>)
    ensures (forall actions: seq<Action> :: DisablesOnly(actions, d) ==>
               Run(Initial(threshold, mie, open), actions).ignored == {})
            <==> (forall n :: n in d ==> !Source(n)) || !Receptive(threshold, mie, open)
  {
    hide Run, DisablesOnly;
    if !Receptive(threshold, mie, open) {
      forall actions: seq<Action> | DisablesOnly(actions, d)
        ensures Run(Initial(threshold, mie, open), actions).ignored == {}
      {
        NothingTaken(threshold, mie, open, actions);
      }
    } else if forall n :: n in d ==> !Source(n) {
      forall actions: seq<Action> | DisablesOnly(actions, d)
        ensures Run(Initial(threshold, mie, open), actions).ignored == {}
      {
        NoSourceDisabled(threshold, mie, open, actions, d);
      }
    } else {
      var n :| n in d && Source(n);
      var actions := DisabledInCallback(threshold, mie, open, d, n);
      assert n in Run(Initial(threshold, mie, open), actions).ignored;
    }
  }
}
