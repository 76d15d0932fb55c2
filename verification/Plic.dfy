/** Nested external interrupts on one hart (lib/drivers/plic.c).

    The handler `handle_irq_m_ext` is a stack machine: every trap pushes a frame, and each hart step is
    one line of the handler in the top frame.  Devices may raise requests at any moment; a trap is taken
    whenever the hart's flags and the PLIC allow it.  The hart owns its sources, and callbacks may enable
    and disable sources but leave priorities and thresholds alone; code outside handlers may also set
    priorities.  A run is any sequence of actions. */
module Plic {

  const SOURCES := 66          // source numbers 0..65; 0 means "no source"
  const PRIORITIES := 7        // priorities 0..7; 0 never interrupts

  /** The machine-level enable bits of mie. */
  datatype Mie = Mie(external: bool, timer: bool, software: bool)

  function Masked(m: Mie): Mie { m.(timer := false, software := false) }

  /** The next line of the handler in a frame. */
  datatype Phase =
    | Enter | ReadMie | Claim | SaveThreshold | RaiseThreshold | MaskMie | OpenMie
    | Callback | Complete | CloseMie | RestoreMie | RestoreThreshold | Return

  /** `num`, `savedMie` and `savedThreshold` are the handler's locals; `entryMie` and `entryThreshold`
      are history: the hart's values when the trap was taken. */
  datatype Frame = Frame(phase: Phase, num: nat, savedMie: Mie, savedThreshold: nat,
                         entryMie: Mie, entryThreshold: nat)

  /** The PLIC side: `inService` are the sources whose gateway waits for a completion.
      The hart side: `open` is mstatus.MIE.  `frames` is the handler stack, top last.
      History: all claims and completion writes, the completions that the PLIC ignored because the
      source was disabled, and the values outside all handlers. */
  datatype State = State(
    priority: seq<nat>, pending: set<nat>, enabled: set<nat>, inService: set<nat>, threshold: nat,
    mie: Mie, open: bool, frames: seq<Frame>,
    claims: seq<nat>, completions: seq<nat>, ignored: set<nat>, baseThreshold: nat, baseMie: Mie)

  datatype Action =
    | Raise(source: nat) | Trap | Hart
    | Enable(source: nat) | Disable(source: nat) | SetPriority(source: nat, priority: nat)

  function Initial(threshold: nat, mie: Mie, open: bool): State {
    State(seq(SOURCES, _ => 0), {}, {}, {}, threshold, mie, open, [], [], [], {}, threshold, mie)
  }

  function Priority(s: State, n: nat): nat {
    if n < |s.priority| then s.priority[n] else 0
  }

  /** A request that a claim may return. */
  predicate Claimable(s: State, n: nat) {
    n in s.pending && n in s.enabled && Priority(s, n) > 0
  }

  /** The claim register among sources below k: highest priority, lowest number on ties, 0 if none. */
  function Best(s: State, k: nat): (n: nat)
    ensures n != 0 ==> n < k && Claimable(s, n)
    ensures forall m :: 0 < m < k && Claimable(s, m) ==> n != 0 && Priority(s, m) <= Priority(s, n)
  {
    if k <= 1 then 0
    else
      var n := Best(s, k - 1);
      if Claimable(s, k - 1) && (n == 0 || Priority(s, k - 1) > Priority(s, n)) then k - 1 else n
  }

  /** A claim returns the lowest source number of those that share the highest priority. */
  lemma {:induction false} BestIsLowest(s: State, k: nat, m: nat)
    requires 0 < m < Best(s, k) && Claimable(s, m)
    ensures Priority(s, m) < Priority(s, Best(s, k))
  {
    if m < Best(s, k - 1) {
      BestIsLowest(s, k - 1, m);
    }
  }

  /** mip.MEIP: some claimable request has a priority above the threshold. */
  predicate ExternalPending(s: State) {
    var n := Best(s, SOURCES);
    n != 0 && Priority(s, n) > s.threshold
  }

  /** The software that runs now, outside handlers or in a callback. */
  predicate UserCode(s: State) {
    s.frames == [] || s.frames[|s.frames| - 1].phase == Callback
  }

  function WithTop(s: State, f: Frame): State
    requires s.frames != []
  {
    s.(frames := s.frames[|s.frames| - 1 := f])
  }

  predicate Plain(p: Phase) { p != Claim && p != Complete && p != Return }

  datatype Line = Line(frame: Frame, threshold: nat, mie: Mie, open: bool)

  /** The lines that only move data between the frame and the hart's registers.  `meip` is the pending
      bit and `level` the priority of the frame's source. */
  function PlainLine(f: Frame, threshold: nat, mie: Mie, open: bool, meip: bool, level: nat): Line
    requires Plain(f.phase)
  {
    match f.phase
    case Enter => Line(f.(phase := if meip then ReadMie else Return), threshold, mie, open)
    case ReadMie => Line(f.(phase := Claim, savedMie := mie), threshold, mie, open)
    case SaveThreshold => Line(f.(phase := RaiseThreshold, savedThreshold := threshold), threshold, mie, open)
    case RaiseThreshold => Line(f.(phase := MaskMie), level, mie, open)
    case MaskMie => Line(f.(phase := OpenMie), threshold, Masked(mie), open)
    case OpenMie => Line(f.(phase := Callback), threshold, mie, true)
    case Callback => Line(f.(phase := Complete), threshold, mie, open)
    case CloseMie => Line(f.(phase := RestoreMie), threshold, mie, false)
    case RestoreMie => Line(f.(phase := RestoreThreshold), threshold, f.savedMie, open)
    case RestoreThreshold => Line(f.(phase := Return), f.savedThreshold, mie, open)
  }

  /** One line of the handler in the top frame. */
  function HartStep(s: State): State {
    if s.frames == [] then s else
    var f := s.frames[|s.frames| - 1];
    match f.phase
    case Claim =>
      var n := Best(s, SOURCES);
      WithTop(s, f.(phase := SaveThreshold, num := n)).(
        pending := s.pending - {n},
        inService := s.inService + (if n == 0 then {} else {n}),
        claims := s.claims + [n])
    case Complete =>
      WithTop(s, f.(phase := CloseMie)).(
        completions := s.completions + [f.num],
        inService := if f.num in s.enabled then s.inService - {f.num} else s.inService,
        ignored := if f.num in s.enabled then s.ignored else s.ignored + {f.num})
    case Return => s.(frames := s.frames[..|s.frames| - 1], open := true)
    case _ =>
      var l := PlainLine(f, s.threshold, s.mie, s.open, ExternalPending(s), Priority(s, f.num));
      WithTop(s, l.frame).(threshold := l.threshold, mie := l.mie, open := l.open)
  }

  function Step(s: State, a: Action): State {
    match a
    case Raise(n) =>
      if 0 < n < SOURCES && n !in s.inService then s.(pending := s.pending + {n}) else s
    case Trap =>
      if s.open && s.mie.external && ExternalPending(s) then
        s.(open := false, frames := s.frames + [Frame(Enter, 0, s.mie, 0, s.mie, s.threshold)])
      else s
    case Hart => HartStep(s)
    case Enable(n) => if UserCode(s) && 0 < n < SOURCES then s.(enabled := s.enabled + {n}) else s
    case Disable(n) => if UserCode(s) then s.(enabled := s.enabled - {n}) else s
    case SetPriority(n, p) =>
      if s.frames == [] && 0 < n < |s.priority| && p <= PRIORITIES then s.(priority := s.priority[n := p]) else s
  }

  function Run(init: State, actions: seq<Action>): State {
    if actions == [] then init
    else Step(Run(init, actions[..|actions| - 1]), actions[|actions| - 1])
  }

  // ----- the inductive invariant -----

  function Rank(p: Phase): nat {
    match p
    case Enter => 0 case ReadMie => 1 case Claim => 2 case SaveThreshold => 3 case RaiseThreshold => 4
    case MaskMie => 5 case OpenMie => 6 case Callback => 7 case Complete => 8 case CloseMie => 9
    case RestoreMie => 10 case RestoreThreshold => 11 case Return => 12
  }

  /** mstatus.MIE is set, so a further trap may be taken. */
  predicate Open(p: Phase) { 7 <= Rank(p) <= 9 }

  /** Claimed and not yet completed. */
  predicate Active(p: Phase) { 3 <= Rank(p) <= 8 }

  /** The threshold and the mie bits under which frame i was entered. */
  function ThresholdBelow(s: State, i: nat): nat
    requires i <= |s.frames|
  {
    if i == 0 then s.baseThreshold else Priority(s, s.frames[i - 1].num)
  }

  function MieBelow(s: State, i: nat): Mie
    requires i <= |s.frames|
  {
    if i == 0 then s.baseMie else Masked(s.frames[i - 1].entryMie)
  }

  /** A frame's locals, given the values below it.  A claimed source has a priority `level` above the
      threshold at entry; a frame that has not claimed yet still has such a request, of priority
      `waiting`, in front of it. */
  predicate LocalInv(f: Frame, below: nat, mieBelow: Mie, level: nat, waiting: nat) {
    var r := Rank(f.phase);
    && f.entryThreshold == below && f.entryMie == mieBelow
    && (r >= 2 ==> f.savedMie == f.entryMie)
    && (r >= 4 ==> f.savedThreshold == f.entryThreshold)
    && (r >= 3 ==> 0 < f.num < SOURCES && level > f.entryThreshold)
    && (r < 3 ==> waiting > f.entryThreshold)
  }

  /** The hart's registers as a function of the top frame. */
  predicate RegsInv(f: Frame, threshold: nat, mie: Mie, open: bool, level: nat) {
    var r := Rank(f.phase);
    && open == Open(f.phase)
    && threshold == (if 5 <= r <= 11 then level else f.entryThreshold)
    && mie == (if 6 <= r <= 10 then Masked(f.entryMie) else f.entryMie)
  }

  /** The priority of the request that a claim would return, 0 if there is none. */
  function Waiting(s: State): nat { Priority(s, Best(s, SOURCES)) }

  predicate FrameInv(s: State, i: nat)
    requires i < |s.frames|
  {
    var f := s.frames[i];
    && LocalInv(f, ThresholdBelow(s, i), MieBelow(s, i), Priority(s, f.num), Waiting(s))
    && (i + 1 < |s.frames| ==> Open(f.phase))
  }

  predicate TopInv(s: State) {
    if s.frames == [] then s.threshold == s.baseThreshold && s.mie == s.baseMie
    else
      var f := s.frames[|s.frames| - 1];
      RegsInv(f, s.threshold, s.mie, s.open, Priority(s, f.num))
  }

  function ActiveNums(frames: seq<Frame>): multiset<nat> {
    if frames == [] then multiset{}
    else
      var f := frames[|frames| - 1];
      ActiveNums(frames[..|frames| - 1]) + (if Active(f.phase) then multiset{f.num} else multiset{})
  }

  ghost predicate Configured(s: State) {
    && |s.priority| == SOURCES && (forall i :: 0 <= i < |s.priority| ==> s.priority[i] <= PRIORITIES)
    && s.priority[0] == 0
  }

  /** Claims and completions balance up to the handlers in progress; a gateway is closed exactly for a
      source that is being handled or whose completion was ignored, and never twice. */
  ghost predicate GatewayInv(s: State) {
    && s.pending !! s.inService
    && multiset(s.claims) == multiset(s.completions) + ActiveNums(s.frames)
    && (forall n :: n in s.inService <==> n in ActiveNums(s.frames) || n in s.ignored)
    && (forall n :: ActiveNums(s.frames)[n] + (if n in s.ignored then 1 else 0) <= 1)
  }

  ghost predicate FramesInv(s: State) {
    forall i :: 0 <= i < |s.frames| ==> FrameInv(s, i)
  }

  ghost predicate Inv(s: State) {
    Configured(s) && FramesInv(s) && TopInv(s) && GatewayInv(s)
  }

  lemma InitialInv(threshold: nat, mie: Mie, open: bool)
    ensures Inv(Initial(threshold, mie, open))
  {
  }

  lemma {:induction false} BestSame(s: State, s': State, k: nat)
    requires s'.pending == s.pending && s'.enabled == s.enabled && s'.priority == s.priority
    ensures Best(s', k) == Best(s, k)
  {
    if k > 1 { BestSame(s, s', k - 1); }
  }

  /** Frames below the top run with interrupts open, hence have claimed. */
  lemma LowerFramesOpen(s: State, i: nat)
    requires FramesInv(s) && i + 1 < |s.frames|
    ensures Open(s.frames[i].phase)
  {
    assert FrameInv(s, i);
  }

  lemma StepRaise(s: State, n: nat)
    requires Inv(s) && 0 < n < SOURCES && n !in s.inService
    ensures Inv(s.(pending := s.pending + {n}))
  {
    var s' := s.(pending := s.pending + {n});
    var b := Best(s, SOURCES);
    assert b != 0 ==> Claimable(s', b);
    forall i | 0 <= i < |s.frames| ensures FrameInv(s', i) {
      assert FrameInv(s, i);
    }
  }

  /** Enable, disable and set priority happen when no frame is between its trap and its claim. */
  lemma StepConfigure(s: State, s': State)
    requires Inv(s) && UserCode(s) && s' == s.(enabled := s'.enabled, priority := s'.priority)
    requires s.frames == [] || s'.priority == s.priority
    requires Configured(s')
    ensures Inv(s')
  {
    forall i | 0 <= i < |s.frames| ensures FrameInv(s', i) {
      assert FrameInv(s, i);
    }
  }

  lemma StepTrap(s: State)
    requires Inv(s) && s.open && s.mie.external && ExternalPending(s)
    ensures Inv(Step(s, Trap))
  {
    var s' := Step(s, Trap);
    BestSame(s, s', SOURCES);
    var top := |s.frames|;
    forall i | 0 <= i < |s'.frames| ensures FrameInv(s', i) {
      if i < top {
        assert FrameInv(s, i) && s'.frames[i] == s.frames[i];
      } else {
        assert top > 0 ==> FrameInv(s, top - 1);
      }
    }
    assert s'.frames[..top] == s.frames;
  }

  lemma StepReturn(s: State)
    requires Inv(s) && s.frames != [] && s.frames[|s.frames| - 1].phase == Return
    ensures Inv(Step(s, Hart))
  {
    var s' := Step(s, Hart);
    var top := |s.frames| - 1;
    BestSame(s, s', SOURCES);
    assert FrameInv(s, top);
    forall i | 0 <= i < |s'.frames| ensures FrameInv(s', i) {
      assert FrameInv(s, i) && s'.frames[i] == s.frames[i];
    }
    if top > 0 { LowerFramesOpen(s, top - 1); }
  }

  /** A step of the top frame that keeps its source leaves the frames below alone. */
  lemma FramesBelow(s: State, s': State)
    requires FramesInv(s) && s.frames != [] && s'.priority == s.priority
    requires s'.baseThreshold == s.baseThreshold && s'.baseMie == s.baseMie
    requires |s'.frames| == |s.frames| && s'.frames[..|s.frames| - 1] == s.frames[..|s.frames| - 1]
    requires s'.frames[|s.frames| - 1].entryThreshold == s.frames[|s.frames| - 1].entryThreshold
    requires s'.frames[|s.frames| - 1].entryMie == s.frames[|s.frames| - 1].entryMie
    ensures forall i :: 0 <= i < |s.frames| - 1 ==> FrameInv(s', i)
    ensures ThresholdBelow(s', |s.frames| - 1) == ThresholdBelow(s, |s.frames| - 1)
    ensures MieBelow(s', |s.frames| - 1) == MieBelow(s, |s.frames| - 1)
  {
    var top := |s.frames| - 1;
    assert forall i :: 0 <= i < top ==> s'.frames[i] == s'.frames[..top][i] == s.frames[..top][i] == s.frames[i];
    forall i | 0 <= i < top ensures FrameInv(s', i) {
      assert FrameInv(s, i);
    }
  }

  lemma StepClaim(s: State)
    requires Inv(s) && s.frames != [] && s.frames[|s.frames| - 1].phase == Claim
    ensures Inv(Step(s, Hart))
  {
    var s' := Step(s, Hart);
    var top := |s.frames| - 1;
    FramesBelow(s, s');
    assert FrameInv(s, top);
    assert FrameInv(s', top);
    assert s'.frames[..top] == s.frames[..top];
    var n := Best(s, SOURCES);
    assert ActiveNums(s'.frames) == ActiveNums(s.frames) + multiset{n};
    assert n in s.pending && n !in s.inService;
  }

  lemma CompleteGateway(s: State)
    requires GatewayInv(s) && s.frames != [] && s.frames[|s.frames| - 1].phase == Complete
    ensures GatewayInv(Step(s, Hart))
  {
    var s' := Step(s, Hart);
    var top := |s.frames| - 1;
    assert s'.frames[..top] == s.frames[..top];
    var n := s.frames[top].num;
    assert ActiveNums(s.frames) == ActiveNums(s'.frames) + multiset{n};
    assert ActiveNums(s.frames)[n] >= 1;
  }

  lemma StepComplete(s: State)
    requires Inv(s) && s.frames != [] && s.frames[|s.frames| - 1].phase == Complete
    ensures Inv(Step(s, Hart))
  {
    hide GatewayInv;
    CompleteGateway(s);
    var s' := Step(s, Hart);
    FramesBelow(s, s');
    BestSame(s, s', SOURCES);
    assert FrameInv(s, |s.frames| - 1);
    assert FrameInv(s', |s.frames| - 1);
  }

  lemma PlainLineKeeps(f: Frame, threshold: nat, mie: Mie, open: bool, meip: bool, level: nat, waiting: nat,
                       below: nat, mieBelow: Mie)
    requires Plain(f.phase) && meip == (waiting > threshold)
    requires LocalInv(f, below, mieBelow, level, waiting) && RegsInv(f, threshold, mie, open, level)
    ensures var l := PlainLine(f, threshold, mie, open, meip, level);
            && LocalInv(l.frame, below, mieBelow, level, waiting)
            && RegsInv(l.frame, l.threshold, l.mie, l.open, level)
            && l.frame.num == f.num && Active(l.frame.phase) == Active(f.phase)
            && l.frame.entryThreshold == f.entryThreshold && l.frame.entryMie == f.entryMie
  {
  }

  lemma PendingMeansWaiting(s: State)
    requires Configured(s)
    ensures ExternalPending(s) <==> Waiting(s) > s.threshold
  {
  }

  lemma PlainStep(s: State) returns (l: Line)
    requires Inv(s) && s.frames != [] && Plain(s.frames[|s.frames| - 1].phase)
    ensures Step(s, Hart) == WithTop(s, l.frame).(threshold := l.threshold, mie := l.mie, open := l.open)
    ensures var top := |s.frames| - 1;
            var f := s.frames[top];
            && LocalInv(l.frame, ThresholdBelow(s, top), MieBelow(s, top), Priority(s, f.num), Waiting(s))
            && RegsInv(l.frame, l.threshold, l.mie, l.open, Priority(s, f.num))
            && l.frame.num == f.num && Active(l.frame.phase) == Active(f.phase)
            && l.frame.entryThreshold == f.entryThreshold && l.frame.entryMie == f.entryMie
  {
    hide LocalInv;
    hide RegsInv;
    hide PlainLine;
    hide GatewayInv;
    var top := |s.frames| - 1;
    var f := s.frames[top];
    assert FrameInv(s, top);
    PendingMeansWaiting(s);
    l := PlainLine(f, s.threshold, s.mie, s.open, ExternalPending(s), Priority(s, f.num));
    PlainLineKeeps(f, s.threshold, s.mie, s.open, ExternalPending(s), Priority(s, f.num), Waiting(s),
                   ThresholdBelow(s, top), MieBelow(s, top));
  }

  lemma NumsReplace(frames: seq<Frame>, f: Frame)
    requires frames != [] && f.num == frames[|frames| - 1].num
    requires Active(f.phase) == Active(frames[|frames| - 1].phase)
    ensures ActiveNums(frames[|frames| - 1 := f]) == ActiveNums(frames)
  {
    assert frames[|frames| - 1 := f][..|frames| - 1] == frames[..|frames| - 1];
  }

  lemma PlainGateway(s: State, l: Line)
    requires GatewayInv(s) && s.frames != []
    requires l.frame.num == s.frames[|s.frames| - 1].num
    requires Active(l.frame.phase) == Active(s.frames[|s.frames| - 1].phase)
    ensures GatewayInv(WithTop(s, l.frame).(threshold := l.threshold, mie := l.mie, open := l.open))
  {
    hide ActiveNums;
    NumsReplace(s.frames, l.frame);
  }

  lemma StepPlain(s: State)
    requires Inv(s) && s.frames != [] && Plain(s.frames[|s.frames| - 1].phase)
    ensures Inv(Step(s, Hart))
  {
    hide HartStep;
    hide LocalInv;
    hide RegsInv;
    hide GatewayInv;
    var l := PlainStep(s);
    PlainGateway(s, l);
    var s' := Step(s, Hart);
    FramesBelow(s, s');
    BestSame(s, s', SOURCES);
    assert FrameInv(s', |s.frames| - 1);
  }

  lemma StepKeepsInv(s: State, a: Action)
    requires Inv(s)
    ensures Inv(Step(s, a))
  {
    match a
    case Raise(n) => if 0 < n < SOURCES && n !in s.inService { StepRaise(s, n); }
    case Trap => if s.open && s.mie.external && ExternalPending(s) { StepTrap(s); }
    case Hart =>
      if s.frames != [] {
        match s.frames[|s.frames| - 1].phase
        case Claim => StepClaim(s);
        case Complete => StepComplete(s);
        case Return => StepReturn(s);
        case _ => StepPlain(s);
      }
    case _ => if UserCode(s) { StepConfigure(s, Step(s, a)); }
  }

  lemma {:induction false} RunInv(init: State, actions: seq<Action>)
    requires Inv(init)
    ensures Inv(Run(init, actions))
  {
    if actions != [] {
      RunInv(init, actions[..|actions| - 1]);
      StepKeepsInv(Run(init, actions[..|actions| - 1]), actions[|actions| - 1]);
    }
  }

  // ----- the theorems -----

  predicate Claimed(f: Frame) { Rank(f.phase) >= 3 }

  lemma {:induction false} FramesClimb(s: State, i: nat, j: nat)
    requires Inv(s) && i < j < |s.frames| && Claimed(s.frames[j])
    ensures Priority(s, s.frames[i].num) < Priority(s, s.frames[j].num)
    decreases j
  {
    assert FrameInv(s, j);
    if i + 1 < j {
      LowerFramesOpen(s, j - 1);
      FramesClimb(s, i, j - 1);
    }
  }

  /** From the bottom of the stack to the top the priorities of the claimed sources strictly increase,
      and each exceeds the threshold its handler saved. */
  lemma PrioritiesIncrease(threshold: nat, mie: Mie, open: bool, actions: seq<Action>, i: nat, j: nat)
    requires i < j < |Run(Initial(threshold, mie, open), actions).frames|
    requires Claimed(Run(Initial(threshold, mie, open), actions).frames[j])
    ensures var s := Run(Initial(threshold, mie, open), actions);
            && Priority(s, s.frames[i].num) < Priority(s, s.frames[j].num)
            && (Rank(s.frames[j].phase) >= 4 ==> s.frames[j].savedThreshold < Priority(s, s.frames[j].num))
  {
    InitialInv(threshold, mie, open);
    RunInv(Initial(threshold, mie, open), actions);
    var s := Run(Initial(threshold, mie, open), actions);
    FramesClimb(s, i, j);
    assert FrameInv(s, j);
  }

  lemma {:induction false} LevelsClimb(s: State, i: nat)
    requires Inv(s) && i < |s.frames|
    ensures s.frames[i].entryThreshold >= s.baseThreshold + i
    ensures Claimed(s.frames[i]) ==> Priority(s, s.frames[i].num) > s.baseThreshold + i
  {
    assert FrameInv(s, i);
    if i > 0 {
      LevelsClimb(s, i - 1);
      LowerFramesOpen(s, i - 1);
    }
  }

  /** The stack is never deeper than the number of priority levels above the base threshold. */
  lemma DepthIsBounded(threshold: nat, mie: Mie, open: bool, actions: seq<Action>)
    ensures var depth := |Run(Initial(threshold, mie, open), actions).frames|;
            depth <= PRIORITIES && (depth > 0 ==> threshold + depth <= PRIORITIES)
  {
    InitialInv(threshold, mie, open);
    RunInv(Initial(threshold, mie, open), actions);
    BaseIsConstant(Initial(threshold, mie, open), actions);
    var s := Run(Initial(threshold, mie, open), actions);
    if s.frames != [] {
      var top := |s.frames| - 1;
      LevelsClimb(s, top);
      assert FrameInv(s, top);
    }
  }

  lemma StepKeepsBase(s: State, a: Action)
    ensures Step(s, a).baseThreshold == s.baseThreshold && Step(s, a).baseMie == s.baseMie
  {
  }

  lemma {:induction false} BaseIsConstant(init: State, actions: seq<Action>)
    ensures var s := Run(init, actions);
            s.baseThreshold == init.baseThreshold && s.baseMie == init.baseMie
  {
    if actions != [] {
      BaseIsConstant(init, actions[..|actions| - 1]);
      StepKeepsBase(Run(init, actions[..|actions| - 1]), actions[|actions| - 1]);
    }
  }

  /** Every claim is completed exactly once: at any moment the claims are the completions plus the
      handlers that have not completed yet, no source is handled twice at the same time, and when the
      stack is empty the two logs agree.  Only an ignored completion leaves a gateway closed. */
  lemma ClaimsAreCompleted(threshold: nat, mie: Mie, open: bool, actions: seq<Action>)
    ensures var s := Run(Initial(threshold, mie, open), actions);
            && multiset(s.claims) == multiset(s.completions) + ActiveNums(s.frames)
            && (forall n :: ActiveNums(s.frames)[n] <= 1)
            && 0 !in multiset(s.claims)
            && (s.frames == [] ==> multiset(s.claims) == multiset(s.completions) && s.inService == s.ignored)
  {
    InitialInv(threshold, mie, open);
    RunInv(Initial(threshold, mie, open), actions);
    NoZeroClaim(threshold, mie, open, actions);
  }

  lemma StepClaimsSource(s: State, a: Action)
    requires Inv(s)
    ensures Step(s, a).claims == s.claims || exists n :: n != 0 && Step(s, a).claims == s.claims + [n]
  {
    hide GatewayInv;
    if a == Hart && s.frames != [] && s.frames[|s.frames| - 1].phase == Claim {
      assert FrameInv(s, |s.frames| - 1);
      assert Step(s, a).claims == s.claims + [Best(s, SOURCES)];
    } else {
      assert Step(s, a).claims == s.claims;
    }
  }

  /** The claim register never answers "no source" to the handler. */
  lemma {:induction false} NoZeroClaim(threshold: nat, mie: Mie, open: bool, actions: seq<Action>)
    ensures 0 !in multiset(Run(Initial(threshold, mie, open), actions).claims)
  {
    if actions != [] {
      var before := actions[..|actions| - 1];
      NoZeroClaim(threshold, mie, open, before);
      InitialInv(threshold, mie, open);
      RunInv(Initial(threshold, mie, open), before);
      StepClaimsSource(Run(Initial(threshold, mie, open), before), actions[|actions| - 1]);
    }
  }

  /** When a handler returns, threshold and mie have the values they had at its entry, and global
      interrupts are open again, as they were. */
  lemma ReturnRestores(threshold: nat, mie: Mie, open: bool, actions: seq<Action>)
    ensures var s := Run(Initial(threshold, mie, open), actions);
            s.frames != [] && s.frames[|s.frames| - 1].phase == Return ==>
              var f := s.frames[|s.frames| - 1];
              var s' := Step(s, Hart);
              s'.frames == s.frames[..|s.frames| - 1] && s'.threshold == f.entryThreshold && s'.mie == f.entryMie && s'.open
    ensures var s := Run(Initial(threshold, mie, open), actions);
            s.frames == [] ==> s.threshold == threshold && s.mie == mie
  {
    InitialInv(threshold, mie, open);
    RunInv(Initial(threshold, mie, open), actions);
    BaseIsConstant(Initial(threshold, mie, open), actions);
  }

  predicate Disables(a: Action) { a.Disable? }

  ghost predicate ActiveEnabled(s: State) {
    s.ignored == {} && forall n :: n in ActiveNums(s.frames) ==> n in s.enabled
  }

  lemma PlainKeepsEnabled(s: State)
    requires Inv(s) && ActiveEnabled(s) && s.frames != [] && Plain(s.frames[|s.frames| - 1].phase)
    ensures ActiveEnabled(Step(s, Hart))
  {
    hide HartStep;
    hide ActiveNums;
    var l := PlainStep(s);
    NumsReplace(s.frames, l.frame);
  }

  lemma HartKeepsEnabled(s: State)
    requires Inv(s) && ActiveEnabled(s) && s.frames != []
    ensures ActiveEnabled(Step(s, Hart))
  {
    var s' := Step(s, Hart);
    var top := |s.frames| - 1;
    var p := s.frames[top].phase;
    if Plain(p) {
      PlainKeepsEnabled(s);
    } else if p != Return {
      var n := s'.frames[top].num;
      if p == Claim { assert FrameInv(s, top); }
      hide Inv;
      assert s'.frames[..top] == s.frames[..top];
      assert p == Complete ==> n in ActiveNums(s.frames);
    }
  }

  lemma StepWithoutDisable(s: State, a: Action)
    requires Inv(s) && ActiveEnabled(s) && !Disables(a)
    ensures ActiveEnabled(Step(s, a))
  {
    hide Inv;
    match a
    case Trap =>
      assert (s.frames + [Frame(Enter, 0, s.mie, 0, s.mie, s.threshold)])[..|s.frames|] == s.frames;
    case Hart => if s.frames != [] { HartKeepsEnabled(s); }
    case _ =>
  }

  /** If no source is disabled during the run, no completion is ignored, and every gateway is open
      again once the stack is empty. */
  lemma {:induction false} WithoutDisableNothingIsLost(threshold: nat, mie: Mie, open: bool, actions: seq<Action>)
    requires forall k :: 0 <= k < |actions| ==> !Disables(actions[k])
    ensures ActiveEnabled(Run(Initial(threshold, mie, open), actions))
    ensures var s := Run(Initial(threshold, mie, open), actions); s.frames == [] ==> s.inService == {}
  {
    InitialInv(threshold, mie, open);
    RunInv(Initial(threshold, mie, open), actions);
    if actions != [] {
      var before := actions[..|actions| - 1];
      WithoutDisableNothingIsLost(threshold, mie, open, before);
      RunInv(Initial(threshold, mie, open), before);
      StepWithoutDisable(Run(Initial(threshold, mie, open), before), actions[|actions| - 1]);
    }
  }

  // ----- the same handler on mutable registers -----

  class HartMachine {
    var priority: seq<nat>
    var pending: set<nat>
    var enabled: set<nat>
    var inService: set<nat>
    var threshold: nat
    var mie: Mie
    var open: bool
    var frames: seq<Frame>
    var claims: seq<nat>
    var completions: seq<nat>
    var ignored: set<nat>
    const baseThreshold: nat
    const baseMie: Mie

    function Snapshot(): State
      reads this
    {
      State(priority, pending, enabled, inService, threshold, mie, open, frames,
            claims, completions, ignored, baseThreshold, baseMie)
    }

    constructor (threshold: nat, mie: Mie, open: bool)
      ensures Snapshot() == Initial(threshold, mie, open)
    {
      this.threshold, this.mie, this.open, baseThreshold, baseMie := threshold, mie, open, threshold, mie;
      priority, pending, enabled, inService := seq(SOURCES, _ => 0), {}, {}, {};
      frames, claims, completions, ignored := [], [], [], {};
    }

    /** Reading the claim register. */
    method ReadClaim() returns (n: nat)
      modifies this`pending, this`inService, this`claims
      ensures n == old(Best(Snapshot(), SOURCES))
      ensures pending == old(pending) - {n} && claims == old(claims) + [n]
      ensures inService == old(inService) + (if n == 0 then {} else {n})
    {
      n := Best(Snapshot(), SOURCES);
      pending := pending - {n};
      if n != 0 { inService := inService + {n}; }
      claims := claims + [n];
    }

    /** Writing the completion register; the PLIC ignores a source that is not enabled. */
    method WriteComplete(n: nat)
      modifies this`inService, this`completions, this`ignored
      ensures completions == old(completions) + [n]
      ensures inService == if n in enabled then old(inService) - {n} else old(inService)
      ensures ignored == if n in enabled then old(ignored) else old(ignored) + {n}
    {
      completions := completions + [n];
      if n in enabled { inService := inService - {n}; } else { ignored := ignored + {n}; }
    }

    /** A line of handle_irq_m_ext that touches only the hart's registers and the frame. */
    method RegisterLine(f: Frame, meip: bool, level: nat) returns (f': Frame)
      requires Plain(f.phase)
      modifies this`threshold, this`mie, this`open
      ensures Line(f', threshold, mie, open) == PlainLine(f, old(threshold), old(mie), old(open), meip, level)
    {
      match f.phase {
        case Enter => f' := f.(phase := if meip then ReadMie else Return);
        case ReadMie => f' := f.(phase := Phase.Claim, savedMie := mie);
        case SaveThreshold => f' := f.(phase := RaiseThreshold, savedThreshold := threshold);
        case RaiseThreshold => threshold := level; f' := f.(phase := MaskMie);
        case MaskMie => mie := Masked(mie); f' := f.(phase := OpenMie);
        case OpenMie => open := true; f' := f.(phase := Callback);
        case Callback => f' := f.(phase := Phase.Complete);
        case CloseMie => open := false; f' := f.(phase := RestoreMie);
        case RestoreMie => mie := f.savedMie; f' := f.(phase := RestoreThreshold);
        case RestoreThreshold => threshold := f.savedThreshold; f' := f.(phase := Return);
      }
    }

    /** One line of handle_irq_m_ext in the top frame. */
    method HandlerLine()
      modifies this
      ensures Snapshot() == HartStep(old(Snapshot()))
    {
      hide PlainLine, ExternalPending, Best, Priority;
      if frames == [] { return; }
      var top := |frames| - 1;
      if frames[top].phase == Return {
        frames := frames[..top];
        open := true;
      } else {
        hide HartStep;
        LineInFrame();
      }
    }

    /** The lines before the return. */
    method LineInFrame()
      requires frames != [] && frames[|frames| - 1].phase != Return
      modifies this
      ensures Snapshot() == HartStep(old(Snapshot()))
    {
      hide PlainLine, ExternalPending, Best, Priority;
      var top := |frames| - 1;
      var f := frames[top];
      if f.phase == Claim {
        var n := ReadClaim();
        f := f.(phase := SaveThreshold, num := n);
      } else if f.phase == Complete {
        WriteComplete(f.num);
        f := f.(phase := CloseMie);
      } else {
        var meip := ExternalPending(Snapshot());
        f := RegisterLine(f, meip, Priority(Snapshot(), f.num));
      }
      frames := frames[top := f];
    }

    method Act(a: Action)
      modifies this
      ensures Snapshot() == Step(old(Snapshot()), a)
    {
      match a {
        case Raise(n) => if 0 < n < SOURCES && n !in inService { pending := pending + {n}; }
        case Trap =>
          var meip := ExternalPending(Snapshot());
          if open && mie.external && meip {
            open := false;
            frames := frames + [Frame(Enter, 0, mie, 0, mie, threshold)];
          }
        case Hart => HandlerLine();
        case Enable(n) => if UserCode(Snapshot()) && 0 < n < SOURCES { enabled := enabled + {n}; }
        case Disable(n) => if UserCode(Snapshot()) { enabled := enabled - {n}; }
        case SetPriority(n, p) =>
          if frames == [] && 0 < n < |priority| && p <= PRIORITIES { priority := priority[n := p]; }
      }
    }

    method Execute(actions: seq<Action>)
      requires Inv(Snapshot())
      modifies this
      ensures Snapshot() == Run(old(Snapshot()), actions) && Inv(Snapshot())
    {
      ghost var init := Snapshot();
      for k := 0 to |actions|
        invariant Snapshot() == Run(init, actions[..k])
      {
        Act(actions[k]);
        assert actions[..k + 1][..k] == actions[..k];
      }
      assert actions[..|actions|] == actions;
      RunInv(init, actions);
    }
  }
}
