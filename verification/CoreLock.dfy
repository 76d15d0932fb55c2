/** The reentrant core lock (lib/bsp/include/atomic.h), built on the swap spinlock.

    Any number of cores call trylock, lock and unlock in any order.  One step performs at most one
    access to the spinlock word, `count` or `core`.  The machine is the code as it stands, including the
    release at line 200 that a contended `corelock_lock` performs after its retry has already released
    the spinlock; `StrayIffDishonest` says exactly what that release costs. */
module CoreLock {

  datatype Op = DoTrylock | DoLock | DoUnlock

  /** Which call an acquisition belongs to: corelock_trylock, the first attempt of corelock_lock, or
      the trylock that a contended corelock_lock retries. */
  datatype Mode = Try | First | Retry

  datatype Pc =
    | Idle
    | Swap(mode: Mode) | Test(mode: Mode) | TestCore(mode: Mode)
    | FreshLoad(mode: Mode) | FreshStore(mode: Mode, tmp: int) | FreshCore(mode: Mode)
    | NestLoad(mode: Mode) | NestStore(mode: Mode, tmp: int)
    | Taken(mode: Mode) | Foreign(mode: Mode)
    | AwaitZero | Line200
    | OutSwap | OutTest | OutLoad | OutStore(tmp: int) | OutCheck | OutCore | OutCount | OutDone
    | OutForeign | Exited

  datatype Words = Words(lock: int, count: int, core: int)

  /** `depth` is history: acquisitions minus releases that this core has completed. */
  datatype Core = Core(pc: Pc, depth: nat)

  datatype Outcome = Nothing | Acquired | Released

  datatype Move = Move(words: Words, pc: Pc, outcome: Outcome)

  /** `owner` and `nest` are history: what the words said when the spinlock was last released.
      `stray` is history: line 200 has stored 0 into a word that was not 0. */
  datatype State = State(words: Words, cores: seq<Core>, owner: int, nest: int, stray: bool)

  datatype Choice = Choice(t: nat, op: Op)

  function Initial(cores: nat): State {
    State(Words(0, 0, -1), seq(cores, _ => Core(Idle, 0)), -1, 0, false)
  }

  function Swapped(w: Words, taken: Pc, again: Pc): Move {
    Move(w.(lock := -1), if w.lock == 0 then taken else again, Nothing)
  }

  function CoreMove(w: Words, t: nat, pc: Pc, op: Op): Move {
    match pc
    case Idle => Move(w, match op case DoTrylock => Swap(Try) case DoLock => Swap(First) case DoUnlock => OutSwap, Nothing)
    case Swap(m) => Swapped(w, Test(m), match m case Try => Idle case First => pc case Retry => AwaitZero)
    case Test(m) => Move(w, if w.count == 0 then FreshLoad(m) else TestCore(m), Nothing)
    case TestCore(m) => Move(w, if w.core == t then NestLoad(m) else Foreign(m), Nothing)
    case FreshLoad(m) => Move(w, FreshStore(m, w.count), Nothing)
    case FreshStore(m, tmp) => Move(w.(count := tmp + 1), FreshCore(m), Nothing)
    case FreshCore(m) => Move(w.(core := t), Taken(m), Nothing)
    case NestLoad(m) => Move(w, NestStore(m, w.count), Nothing)
    case NestStore(m, tmp) => Move(w.(count := tmp + 1), Taken(m), Nothing)
    case Taken(m) => Move(w.(lock := 0), if m == Retry then Line200 else Idle, Acquired)
    case Foreign(m) => Move(w.(lock := 0), if m == Try then Idle else AwaitZero, Nothing)
    case AwaitZero => Move(w, if w.count == 0 then Swap(Retry) else pc, Nothing)
    case Line200 => Move(w.(lock := 0), Idle, Nothing)
    case OutSwap => Swapped(w, OutTest, pc)
    case OutTest => Move(w, if w.core == t then OutLoad else OutForeign, Nothing)
    case OutLoad => Move(w, OutStore(w.count), Nothing)
    case OutStore(tmp) => Move(w.(count := tmp - 1), OutCheck, Nothing)
    case OutCheck => Move(w, if w.count <= 0 then OutCore else OutDone, Nothing)
    case OutCore => Move(w.(core := -1), OutCount, Nothing)
    case OutCount => Move(w.(count := 0), OutDone, Nothing)
    case OutDone => Move(w.(lock := 0), Idle, Released)
    case OutForeign => Move(w.(lock := 0), Exited, Nothing)
    case Exited => Move(w, Exited, Nothing)
  }

  function DepthAfter(depth: nat, outcome: Outcome): nat {
    match outcome
    case Nothing => depth
    case Acquired => depth + 1
    case Released => if depth == 0 then 0 else depth - 1
  }

  function Step(s: State, c: Choice): State {
    if c.t >= |s.cores| then s else
    var me := s.cores[c.t];
    var m := CoreMove(s.words, c.t, me.pc, c.op);
    State(m.words,
          s.cores[c.t := Core(m.pc, DepthAfter(me.depth, m.outcome))],
          if m.outcome == Nothing then s.owner else m.words.core,
          if m.outcome == Nothing then s.nest else m.words.count,
          s.stray || (me.pc == Line200 && s.words.lock != 0))
  }

  function Run(cores: nat, schedule: seq<Choice>): State {
    if schedule == [] then Initial(cores)
    else Step(Run(cores, schedule[..|schedule| - 1]), schedule[|schedule| - 1])
  }

  // ----- the inductive invariant of runs without a stray release -----

  predicate Inside(pc: Pc) {
    !pc.Idle? && !pc.Swap? && !pc.AwaitZero? && !pc.Line200? && !pc.OutSwap? && !pc.Exited?
  }

  /** In the middle of a release that this core is entitled to. */
  predicate Releasing(pc: Pc) {
    pc.OutLoad? || pc.OutStore? || pc.OutCheck? || pc.OutCore? || pc.OutCount? || pc.OutDone?
  }

  /** `owner` and `nest` describe the depths: the owner's depth is `nest`, everybody else's is 0. */
  ghost predicate Owned(cores: seq<Core>, owner: int, nest: int) {
    && (if owner == -1 then nest == 0 else 0 <= owner < |cores| && nest > 0 && cores[owner].depth == nest)
    && forall t :: 0 <= t < |cores| && t != owner ==> cores[t].depth == 0
  }

  /** What the core `t` inside the spinlock knows about the words and the published values. */
  predicate HolderInv(w: Words, t: nat, pc: Pc, owner: int, nest: int) {
    match pc
    case TestCore(_) => w.core == owner && w.count == nest != 0
    case FreshLoad(_) => w.core == owner == -1 && w.count == nest == 0
    case FreshStore(_, tmp) => w.core == owner == -1 && w.count == nest == tmp == 0
    case FreshCore(_) => w.core == owner == -1 && nest == 0 && w.count == 1
    case NestLoad(_) => w.core == owner == t && w.count == nest > 0
    case NestStore(_, tmp) => w.core == owner == t && w.count == nest == tmp > 0
    case Taken(_) => w.core == t && w.count == nest + 1 && (owner == t || (owner == -1 && nest == 0))
    case OutLoad => w.core == owner == t && w.count == nest > 0
    case OutStore(tmp) => w.core == owner == t && w.count == nest == tmp > 0
    case OutCheck => w.core == owner == t && w.count == nest - 1 >= 0
    case OutCore => w.core == owner == t && w.count == 0 && nest == 1
    case OutCount => w.core == -1 && owner == t && w.count == 0 && nest == 1
    case OutDone => owner == t && w.count == nest - 1 >= 0 && w.core == (if nest == 1 then -1 else t)
    case Foreign(_) => w.core == owner != t && w.count == nest != 0
    case OutForeign => w.core == owner != t && w.count == nest
    case _ => w.core == owner && w.count == nest
  }

  ghost predicate Alone(s: State, t: nat) {
    forall u :: 0 <= u < |s.cores| && u != t ==> !Inside(s.cores[u].pc)
  }

  ghost predicate Free(s: State) {
    forall t :: 0 <= t < |s.cores| ==> !Inside(s.cores[t].pc)
  }

  /** The spinlock word tells the truth: it is 0 exactly when no core is inside. */
  ghost predicate Honest(s: State) {
    s.words.lock == 0 <==> Free(s)
  }

  ghost predicate MutexInv(s: State) {
    Honest(s) && forall t :: 0 <= t < |s.cores| && Inside(s.cores[t].pc) ==> Alone(s, t)
  }

  ghost predicate DataInv(s: State) {
    && Owned(s.cores, s.owner, s.nest)
    && (Free(s) ==> s.words.core == s.owner && s.words.count == s.nest)
    && (forall t :: 0 <= t < |s.cores| && Inside(s.cores[t].pc) ==>
          HolderInv(s.words, t, s.cores[t].pc, s.owner, s.nest))
    && (forall t :: 0 <= t < |s.cores| && s.cores[t].pc.Exited? ==> s.owner != t)
  }

  ghost predicate Inv(s: State) {
    MutexInv(s) && DataInv(s)
  }

  lemma MoveOutside(w: Words, t: nat, pc: Pc, op: Op)
    requires !Inside(pc) && !(pc == Line200 && w.lock != 0)
    ensures var m := CoreMove(w, t, pc, op);
            && m.words.count == w.count && m.words.core == w.core && m.outcome == Nothing
            && (m.pc.Exited? ==> pc.Exited?)
            && (if Inside(m.pc) then w.lock == 0 && m.words.lock != 0 && HolderInv(m.words, t, m.pc, w.core, w.count)
                else (m.words.lock == 0 <==> w.lock == 0))
  {
  }

  lemma MoveInside(w: Words, t: nat, pc: Pc, op: Op, owner: int, nest: int)
    requires Inside(pc) && HolderInv(w, t, pc, owner, nest)
    requires owner == -1 <==> nest == 0
    requires nest >= 0
    ensures var m := CoreMove(w, t, pc, op);
            if Inside(m.pc) then
              m.words.lock == w.lock && m.outcome == Nothing && HolderInv(m.words, t, m.pc, owner, nest)
            else
              && m.words.lock == 0 && m.words.core == w.core && m.words.count == w.count
              && (m.pc.Exited? ==> owner != t)
              && match m.outcome
                 case Nothing => w.core == owner && w.count == nest
                 case Acquired => (owner == t || owner == -1) && w.core == t && w.count == nest + 1
                 case Released => owner == t && w.count == nest - 1 && w.core == (if nest == 1 then -1 else t)
  {
  }

  lemma StepInside(s: State, c: Choice)
    requires Inv(s) && c.t < |s.cores| && Inside(s.cores[c.t].pc)
    ensures Inv(Step(s, c))
  {
    var s' := Step(s, c);
    var me := s.cores[c.t];
    var m := CoreMove(s.words, c.t, me.pc, c.op);
    assert Alone(s, c.t) && !Free(s) && Alone(s', c.t) && s'.cores[c.t].pc == m.pc;
    assert HolderInv(s.words, c.t, me.pc, s.owner, s.nest);
    MoveInside(s.words, c.t, me.pc, c.op, s.owner, s.nest);
    assert !Inside(m.pc) ==> Free(s');
    assert Inside(m.pc) ==> !Free(s');
    assert Owned(s'.cores, s'.owner, s'.nest);
    assert forall u :: 0 <= u < |s.cores| && u != c.t ==> s'.cores[u] == s.cores[u];
  }

  lemma StepOutsideMutex(s: State, c: Choice)
    requires MutexInv(s) && c.t < |s.cores| && !Inside(s.cores[c.t].pc) && !Step(s, c).stray
    ensures MutexInv(Step(s, c))
  {
    var s' := Step(s, c);
    MoveOutside(s.words, c.t, s.cores[c.t].pc, c.op);
    if Inside(s'.cores[c.t].pc) {
      assert Free(s) && Alone(s', c.t) && !Free(s');
    } else {
      assert forall u :: 0 <= u < |s.cores| ==> Inside(s'.cores[u].pc) == Inside(s.cores[u].pc);
      assert forall u :: 0 <= u < |s.cores| && Inside(s'.cores[u].pc) ==> Alone(s, u) && Alone(s', u);
      assert Free(s') <==> Free(s);
    }
  }

  lemma StepOutside(s: State, c: Choice)
    requires Inv(s) && c.t < |s.cores| && !Inside(s.cores[c.t].pc) && !Step(s, c).stray
    ensures Inv(Step(s, c))
  {
    StepOutsideMutex(s, c);
    MoveOutside(s.words, c.t, s.cores[c.t].pc, c.op);
    var s' := Step(s, c);
    assert s'.cores[c.t].depth == s.cores[c.t].depth;
    assert forall u :: 0 <= u < |s.cores| && u != c.t ==> s'.cores[u] == s.cores[u];
    assert Free(s') ==> Free(s);
  }

  lemma {:induction false} RunInv(cores: nat, schedule: seq<Choice>)
    ensures |Run(cores, schedule).cores| == cores
    ensures !Run(cores, schedule).stray ==> Inv(Run(cores, schedule))
  {
    if schedule != [] {
      var before, c := schedule[..|schedule| - 1], schedule[|schedule| - 1];
      RunInv(cores, before);
      var s := Run(cores, before);
      if !Run(cores, schedule).stray && c.t < cores {
        if Inside(s.cores[c.t].pc) { StepInside(s, c); } else { StepOutside(s, c); }
      }
    }
  }

  // ----- the theorems -----

  /** At most one core holds the lock, at any depth. */
  lemma OneOwner(cores: nat, schedule: seq<Choice>, t: nat, u: nat)
    requires !Run(cores, schedule).stray && t < cores && u < cores && t != u
    ensures |Run(cores, schedule).cores| == cores
    ensures var s := Run(cores, schedule); s.cores[t].depth == 0 || s.cores[u].depth == 0
  {
    RunInv(cores, schedule);
  }

  /** Whenever the inner spinlock is free, `count` is the nesting depth of the owner and `core` names
      it, or is -1 when nobody holds the lock. */
  lemma FreeWordsNameOwner(cores: nat, schedule: seq<Choice>)
    requires !Run(cores, schedule).stray
    ensures var s := Run(cores, schedule);
            s.words.lock == 0 ==>
              && (s.words.core == -1 <==> forall t :: 0 <= t < |s.cores| ==> s.cores[t].depth == 0)
              && (s.words.core == -1 ==> s.words.count == 0)
              && (s.words.core != -1 ==>
                    0 <= s.words.core < |s.cores| && s.words.count == s.cores[s.words.core].depth > 0)
  {
    RunInv(cores, schedule);
    var s := Run(cores, schedule);
    if s.words.lock == 0 && s.words.core != -1 {
      assert s.cores[s.words.core].depth > 0;
    }
  }

  /** A core that unlocks what it holds always gets through; one that holds nothing ends in the exit
      call, which never returns. */
  lemma UnlockExitsIffNotHeld(cores: nat, schedule: seq<Choice>, t: nat)
    requires !Run(cores, schedule).stray && t < cores
    ensures |Run(cores, schedule).cores| == cores
    ensures var me := Run(cores, schedule).cores[t];
            && (me.pc.OutForeign? || me.pc.Exited? ==> me.depth == 0)
            && (Releasing(me.pc) ==> me.depth > 0)
  {
    RunInv(cores, schedule);
    var s := Run(cores, schedule);
    assert Inside(s.cores[t].pc) ==> HolderInv(s.words, t, s.cores[t].pc, s.owner, s.nest);
  }

  lemma {:induction false} StrayStays(cores: nat, schedule: seq<Choice>, k: nat)
    requires k <= |schedule|
    ensures Run(cores, schedule[..k]).stray ==> Run(cores, schedule).stray
    decreases |schedule|
  {
    if k == |schedule| {
      assert schedule[..k] == schedule;
    } else {
      var before := schedule[..|schedule| - 1];
      StrayStays(cores, before, k);
      assert before[..k] == schedule[..k];
    }
  }

  /** The exact price of line 200: the spinlock word tells the truth in every state of a run if and
      only if line 200 never stores into a word that another core has set. */
  lemma {:induction false} StrayIffDishonest(cores: nat, schedule: seq<Choice>)
    ensures !Run(cores, schedule).stray <==>
            forall k: nat :: k <= |schedule| ==> Honest(Run(cores, schedule[..k]))
  {
    if !Run(cores, schedule).stray {
      forall k: nat | k <= |schedule| ensures Honest(Run(cores, schedule[..k])) {
        StrayStays(cores, schedule, k);
        RunInv(cores, schedule[..k]);
      }
    } else {
      var before, c := schedule[..|schedule| - 1], schedule[|schedule| - 1];
      if Run(cores, before).stray {
        StrayIffDishonest(cores, before);
        var k: nat :| k <= |before| && !Honest(Run(cores, before[..k]));
        assert before[..k] == schedule[..k];
      } else {
        RunInv(cores, before);
        var s := Run(cores, before);
        var u :| 0 <= u < |s.cores| && Inside(s.cores[u].pc);
        assert Run(cores, schedule).cores[u] == s.cores[u];
        assert schedule[..|schedule|] == schedule;
      }
    }
  }

  /** A core that waits for `count` to drop, retries, or is about to run line 200. */
  predicate Contending(pc: Pc) {
    pc.AwaitZero? || pc.Line200? || pc == Foreign(First) ||
    ((pc.Swap? || pc.Test? || pc.TestCore? || pc.FreshLoad? || pc.FreshStore? || pc.FreshCore? || pc.NestLoad? ||
      pc.NestStore? || pc.Taken? || pc.Foreign?) && pc.mode == Retry)
  }

  ghost predicate NobodyContends(s: State) {
    forall t :: 0 <= t < |s.cores| ==> !Contending(s.cores[t].pc)
  }

  ghost predicate NobodyMeetsForeignOwner(s: State) {
    forall t :: 0 <= t < |s.cores| ==> s.cores[t].pc != Foreign(First)
  }

  lemma MoveContends(w: Words, t: nat, pc: Pc, op: Op)
    requires !Contending(pc)
    ensures CoreMove(w, t, pc, op).pc == Foreign(First) || !Contending(CoreMove(w, t, pc, op).pc)
  {
  }

  /** Runs that acquire through trylock, or through the first two branches of lock, are never stray,
      so all the theorems above hold of them. */
  lemma {:induction false} FirstBranchesNeverStray(cores: nat, schedule: seq<Choice>)
    requires forall k: nat :: k <= |schedule| ==> NobodyMeetsForeignOwner(Run(cores, schedule[..k]))
    ensures !Run(cores, schedule).stray && NobodyContends(Run(cores, schedule))
  {
    if schedule != [] {
      var before, c := schedule[..|schedule| - 1], schedule[|schedule| - 1];
      forall k: nat | k <= |before| ensures NobodyMeetsForeignOwner(Run(cores, before[..k])) {
        assert before[..k] == schedule[..k];
      }
      FirstBranchesNeverStray(cores, before);
      assert NobodyMeetsForeignOwner(Run(cores, schedule)) by {
        assert schedule[..|schedule|] == schedule;
      }
      var s := Run(cores, before);
      if c.t < |s.cores| {
        MoveContends(s.words, c.t, s.cores[c.t].pc, c.op);
      }
    }
  }

  predicate TrylockOnly(pc: Pc) {
    !Contending(pc) && pc != Swap(First) && pc != Test(First) && pc != TestCore(First)
  }

  lemma MoveTrylockOnly(w: Words, t: nat, pc: Pc, op: Op)
    requires TrylockOnly(pc) && op != DoLock
    ensures TrylockOnly(CoreMove(w, t, pc, op).pc)
  {
  }

  /** A condition the callers control: while nobody calls corelock_lock, no release is stray. */
  lemma {:induction false} WithoutLockNeverStray(cores: nat, schedule: seq<Choice>)
    requires forall k :: 0 <= k < |schedule| ==> schedule[k].op != DoLock
    ensures !Run(cores, schedule).stray
    ensures forall t :: 0 <= t < |Run(cores, schedule).cores| ==> TrylockOnly(Run(cores, schedule).cores[t].pc)
  {
    if schedule != [] {
      var before, c := schedule[..|schedule| - 1], schedule[|schedule| - 1];
      WithoutLockNeverStray(cores, before);
      var s := Run(cores, before);
      if c.t < |s.cores| {
        MoveTrylockOnly(s.words, c.t, s.cores[c.t].pc, c.op);
      }
    }
  }

  // ----- what a stray release can do -----

  /** What one core sees of the state while the others stand still. */
  datatype Solo = Solo(words: Words, me: Core, owner: int, nest: int, stray: bool)

  function View(s: State, t: nat): Solo
    requires t < |s.cores|
  {
    Solo(s.words, s.cores[t], s.owner, s.nest, s.stray)
  }

  function Replaced(s: State, t: nat, x: Solo): State
    requires t < |s.cores|
  {
    State(x.words, s.cores[t := x.me], x.owner, x.nest, x.stray)
  }

  function SoloStep(x: Solo, t: nat, op: Op): Solo {
    var m := CoreMove(x.words, t, x.me.pc, op);
    Solo(m.words, Core(m.pc, DepthAfter(x.me.depth, m.outcome)),
         if m.outcome == Nothing then x.owner else m.words.core,
         if m.outcome == Nothing then x.nest else m.words.count,
         x.stray || (x.me.pc == Line200 && x.words.lock != 0))
  }

  function SoloRun(x: Solo, t: nat, op: Op, n: nat): Solo
    decreases n
  {
    if n == 0 then x else SoloRun(SoloStep(x, t, op), t, op, n - 1)
  }

  /** Every step of the schedule begins only calls from `ops`. */
  predicate Over(schedule: seq<Choice>, ops: set<Op>) {
    forall k :: 0 <= k < |schedule| ==> schedule[k].op in ops
  }

  /** A schedule is extended by n steps of one core. */
  lemma {:induction false} Extend(cores: nat, schedule: seq<Choice>, ops: set<Op>, t: nat, op: Op, n: nat)
      returns (longer: seq<Choice>)
    requires |Run(cores, schedule).cores| == cores && t < cores && Over(schedule, ops) && op in ops
    ensures |Run(cores, longer).cores| == cores && Over(longer, ops)
    ensures Run(cores, longer) == Replaced(Run(cores, schedule), t, SoloRun(View(Run(cores, schedule), t), t, op, n))
    decreases n
  {
    if n == 0 {
      longer := schedule;
    } else {
      var c := Choice(t, op);
      assert (schedule + [c])[..|schedule|] == schedule;
      assert Run(cores, schedule + [c]) ==
             Replaced(Run(cores, schedule), t, SoloStep(View(Run(cores, schedule), t), t, op));
      longer := Extend(cores, schedule + [c], ops, t, op, n - 1);
    }
  }

  /** Cores 0 and 1 as given, all others idle. */
  function Pair(n: nat, a: Core, b: Core): seq<Core> {
    seq(n, i => if i == 0 then a else if i == 1 then b else Core(Idle, 0))
  }

  lemma PairUpdate(n: nat, a: Core, b: Core, c: Core)
    requires n >= 2
    ensures Pair(n, a, b)[0 := c] == Pair(n, c, b) && Pair(n, a, b)[1 := c] == Pair(n, a, c)
    ensures |Pair(n, a, b)| == n && Pair(n, a, b)[0] == a && Pair(n, a, b)[1] == b
  {
  }

  /** A state of n cores of which at most the first two are busy. */
  function Duo(n: nat, w: Words, a: Core, b: Core, owner: int, nest: int, stray: bool): State {
    State(w, Pair(n, a, b), owner, nest, stray)
  }

  /** Core t (0 or 1) moves from the solo state x to the solo state y while the other one stands still. */
  lemma Moves(n: nat, schedule: seq<Choice>, ops: set<Op>, t: nat, op: Op, steps: nat, x: Solo, y: Solo, other: Core)
      returns (longer: seq<Choice>)
    requires n >= 2 && t < 2 && Over(schedule, ops) && op in ops
    requires Run(n, schedule) == Placed(n, t, x, other) && SoloRun(x, t, op, steps) == y
    ensures Over(longer, ops) && Run(n, longer) == Placed(n, t, y, other)
  {
    hide SoloRun, Run, CoreMove;
    PairUpdate(n, if t == 0 then x.me else other, if t == 0 then other else x.me, y.me);
    longer := Extend(n, schedule, ops, t, op, steps);
  }

  function Placed(n: nat, t: nat, x: Solo, other: Core): State {
    Duo(n, x.words, if t == 0 then x.me else other, if t == 0 then other else x.me, x.owner, x.nest, x.stray)
  }

  lemma StartsIdle(n: nat)
    requires n >= 2
    ensures Run(n, []) == Placed(n, 0, Solo(Words(0, 0, -1), Core(Idle, 0), -1, 0, false), Core(Idle, 0))
  {
    assert Initial(n).cores == Pair(n, Core(Idle, 0), Core(Idle, 0));
  }

  lemma SoloTake(m: Mode, t: nat) returns (n: nat)
    ensures SoloRun(Solo(Words(-1, 0, -1), Core(FreshLoad(m), 0), -1, 0, false), t, DoLock, n)
            == Solo(Words(0, 1, t), Core(if m == Retry then Line200 else Idle, 1), t, 1, false)
  {
    n := 4;
  }

  lemma SoloReleaseFirst(t: nat, stray: bool) returns (n: nat)
    ensures SoloRun(Solo(Words(0, 1, t), Core(Idle, 1), t, 1, stray), t, DoUnlock, n)
            == Solo(Words(-1, 1, t), Core(OutStore(1), 1), t, 1, stray)
  {
    n := 4;
  }

  lemma SoloReleaseLast(t: nat, stray: bool) returns (n: nat)
    ensures SoloRun(Solo(Words(-1, 1, t), Core(OutStore(1), 1), t, 1, stray), t, DoUnlock, n)
            == Solo(Words(0, 0, -1), Core(Idle, 0), -1, 0, stray)
  {
    n := 5;
  }

  lemma SoloEnter(t: nat, stray: bool) returns (n: nat)
    ensures SoloRun(Solo(Words(0, 0, -1), Core(Idle, 0), -1, 0, stray), t, DoLock, n)
            == Solo(Words(-1, 0, -1), Core(FreshLoad(First), 0), -1, 0, stray)
  {
    n := 3;
  }

  lemma SoloWait() returns (n: nat)
    ensures SoloRun(Solo(Words(0, 1, 0), Core(Idle, 0), 0, 1, false), 1, DoLock, n)
            == Solo(Words(0, 1, 0), Core(AwaitZero, 0), 0, 1, false)
  {
    n := 5;
  }

  lemma SoloRetry() returns (n: nat)
    ensures SoloRun(Solo(Words(0, 0, -1), Core(AwaitZero, 0), -1, 0, false), 1, DoLock, n)
            == Solo(Words(-1, 0, -1), Core(FreshLoad(Retry), 0), -1, 0, false)
  {
    n := 3;
  }

  /** Core 0 is inside with a word it has swapped; core 1 runs line 200. */
  lemma SoloSteps() returns (into: nat, past: nat)
    ensures SoloRun(Solo(Words(0, 1, 1), Core(Idle, 0), 1, 1, false), 0, DoLock, into)
            == Solo(Words(-1, 1, 1), Core(Test(First), 0), 1, 1, false)
    ensures SoloRun(Solo(Words(-1, 1, 1), Core(Line200, 1), 1, 1, false), 1, DoLock, past)
            == Solo(Words(0, 1, 1), Core(Idle, 1), 1, 1, true)
  {
    into, past := 2, 1;
  }

  lemma SoloFinish() returns (m: nat, n: nat)
    ensures SoloRun(Solo(Words(-1, 0, -1), Core(Test(First), 0), -1, 0, true), 0, DoLock, m)
            == Solo(Words(0, 1, 0), Core(Idle, 1), 0, 1, true)
    ensures SoloRun(Solo(Words(0, 1, 0), Core(FreshLoad(First), 0), 0, 1, true), 1, DoLock, n)
            == Solo(Words(0, 2, 1), Core(Idle, 1), 1, 2, true)
  {
    m, n := 5, 4;
  }

  const LOCK_UNLOCK: set<Op> := {DoLock, DoUnlock}

  /** A core with depth 1 in an otherwise untouched machine releases the lock. */
  lemma Release(n: nat, schedule: seq<Choice>, t: nat, other: Core, stray: bool) returns (longer: seq<Choice>)
    requires n >= 2 && t < 2 && Over(schedule, LOCK_UNLOCK)
    requires Run(n, schedule) == Placed(n, t, Solo(Words(0, 1, t), Core(Idle, 1), t, 1, stray), other)
    ensures Over(longer, LOCK_UNLOCK)
    ensures Run(n, longer) == Placed(n, t, Solo(Words(0, 0, -1), Core(Idle, 0), -1, 0, stray), other)
  {
    hide SoloRun, Run, Placed;
    var a, b := Solo(Words(0, 1, t), Core(Idle, 1), t, 1, stray), Solo(Words(-1, 1, t), Core(OutStore(1), 1), t, 1, stray);
    var k := SoloReleaseFirst(t, stray);
    longer := Moves(n, schedule, LOCK_UNLOCK, t, DoUnlock, k, a, b, other);
    k := SoloReleaseLast(t, stray);
    longer := Moves(n, longer, LOCK_UNLOCK, t, DoUnlock, k, b, Solo(Words(0, 0, -1), Core(Idle, 0), -1, 0, stray), other);
  }

  /** Core 0 takes the lock; core 1 meets a foreign owner and waits. */
  lemma AwaitedRun(n: nat) returns (schedule: seq<Choice>)
    requires n >= 2
    ensures Over(schedule, LOCK_UNLOCK)
    ensures Run(n, schedule) == Duo(n, Words(0, 1, 0), Core(Idle, 1), Core(AwaitZero, 0), 0, 1, false)
  {
    hide SoloRun, Run, Pair;
    StartsIdle(n);
    var a, b := Solo(Words(0, 0, -1), Core(Idle, 0), -1, 0, false), Solo(Words(-1, 0, -1), Core(FreshLoad(First), 0), -1, 0, false);
    var k := SoloEnter(0, false);
    schedule := Moves(n, [], LOCK_UNLOCK, 0, DoLock, k, a, b, Core(Idle, 0));
    k := SoloTake(First, 0);
    schedule := Moves(n, schedule, LOCK_UNLOCK, 0, DoLock, k, b, Solo(Words(0, 1, 0), Core(Idle, 1), 0, 1, false), Core(Idle, 0));
    k := SoloWait();
    schedule := Moves(n, schedule, LOCK_UNLOCK, 1, DoLock, k, Solo(Words(0, 1, 0), Core(Idle, 0), 0, 1, false),
                      Solo(Words(0, 1, 0), Core(AwaitZero, 0), 0, 1, false), Core(Idle, 1));
  }

  /** Core 0 releases, core 1 takes the lock on its retry and stands before line 200. */
  lemma ContendedRun(n: nat) returns (schedule: seq<Choice>)
    requires n >= 2
    ensures Over(schedule, LOCK_UNLOCK)
    ensures Run(n, schedule) == Duo(n, Words(0, 1, 1), Core(Idle, 0), Core(Line200, 1), 1, 1, false)
  {
    hide SoloRun, Run, Pair;
    schedule := AwaitedRun(n);
    schedule := Release(n, schedule, 0, Core(AwaitZero, 0), false);
    var a, b := Solo(Words(0, 0, -1), Core(AwaitZero, 0), -1, 0, false), Solo(Words(-1, 0, -1), Core(FreshLoad(Retry), 0), -1, 0, false);
    var k := SoloRetry();
    schedule := Moves(n, schedule, LOCK_UNLOCK, 1, DoLock, k, a, b, Core(Idle, 0));
    k := SoloTake(Retry, 1);
    schedule := Moves(n, schedule, LOCK_UNLOCK, 1, DoLock, k, b, Solo(Words(0, 1, 1), Core(Line200, 1), 1, 1, false), Core(Idle, 0));
  }

  /** Core 0 gets inside, and line 200 opens the spinlock behind its back. */
  lemma StrayRun(n: nat) returns (schedule: seq<Choice>)
    requires n >= 2
    ensures Over(schedule, LOCK_UNLOCK)
    ensures Run(n, schedule) == Duo(n, Words(0, 1, 1), Core(Test(First), 0), Core(Idle, 1), 1, 1, true)
  {
    hide SoloRun, Run, Pair;
    schedule := ContendedRun(n);
    var into, past := SoloSteps();
    schedule := Moves(n, schedule, LOCK_UNLOCK, 0, DoLock, into, Solo(Words(0, 1, 1), Core(Idle, 0), 1, 1, false),
                      Solo(Words(-1, 1, 1), Core(Test(First), 0), 1, 1, false), Core(Line200, 1));
    schedule := Moves(n, schedule, LOCK_UNLOCK, 1, DoLock, past, Solo(Words(-1, 1, 1), Core(Line200, 1), 1, 1, false),
                      Solo(Words(0, 1, 1), Core(Idle, 1), 1, 1, true), Core(Test(First), 0));
  }

  /** Core 1 releases and asks again while core 0 is still inside: both have seen the lock free. */
  lemma BothInsideRun(n: nat) returns (schedule: seq<Choice>)
    requires n >= 2
    ensures Over(schedule, LOCK_UNLOCK)
    ensures Run(n, schedule) == Duo(n, Words(-1, 0, -1), Core(Test(First), 0), Core(FreshLoad(First), 0), -1, 0, true)
  {
    hide SoloRun, Run, Pair;
    schedule := StrayRun(n);
    schedule := Release(n, schedule, 1, Core(Test(First), 0), true);
    var k := SoloEnter(1, true);
    schedule := Moves(n, schedule, LOCK_UNLOCK, 1, DoLock, k, Solo(Words(0, 0, -1), Core(Idle, 0), -1, 0, true),
                      Solo(Words(-1, 0, -1), Core(FreshLoad(First), 0), -1, 0, true), Core(Test(First), 0));
  }

  /** With line 200 the lock can have two owners: on any machine with two cores or more there is a run of
      nothing but corelock_lock and corelock_unlock that ends with two cores holding the lock. */
  lemma Line200BreaksExclusion(n: nat) returns (schedule: seq<Choice>)
    requires n >= 2
    ensures |Run(n, schedule).cores| == n && Run(n, schedule).stray && Over(schedule, LOCK_UNLOCK)
    ensures Run(n, schedule).cores[0].depth == 1 && Run(n, schedule).cores[1].depth == 1
  {
    hide SoloRun, Run, Pair;
    schedule := BothInsideRun(n);
    var m, k := SoloFinish();
    schedule := Moves(n, schedule, LOCK_UNLOCK, 0, DoLock, m, Solo(Words(-1, 0, -1), Core(Test(First), 0), -1, 0, true),
                      Solo(Words(0, 1, 0), Core(Idle, 1), 0, 1, true), Core(FreshLoad(First), 0));
    schedule := Moves(n, schedule, LOCK_UNLOCK, 1, DoLock, k, Solo(Words(0, 1, 0), Core(FreshLoad(First), 0), 0, 1, true),
                      Solo(Words(0, 2, 1), Core(Idle, 1), 1, 2, true), Core(Idle, 1));
    PairUpdate(n, Core(Idle, 1), Core(Idle, 1), Core(Idle, 1));
  }

  // ----- without releases nobody gets past the wait -----

  /** Nobody releases or retries, and a core that waits does so because the lock is held. */
  ghost predicate NoRelease(s: State) {
    && Inv(s) && !s.stray
    && forall t :: 0 <= t < |s.cores| ==> NeverReleases(s.cores[t].pc, s.nest)
  }

  predicate NeverReleases(pc: Pc, nest: int) {
    match pc
    case Swap(m) => m != Retry
    case Test(m) => m != Retry
    case TestCore(m) => m != Retry
    case FreshLoad(m) => m != Retry
    case FreshStore(m, _) => m != Retry
    case FreshCore(m) => m != Retry
    case NestLoad(m) => m != Retry
    case NestStore(m, _) => m != Retry
    case Taken(m) => m != Retry
    case Foreign(m) => m != Retry && nest > 0
    case AwaitZero => nest > 0
    case Idle => true
    case _ => false
  }

  /** While the lock is held and nobody releases, `count` is positive. */
  lemma HeldCountPositive(s: State)
    requires NoRelease(s) && s.nest > 0
    ensures s.words.count > 0
  {
    if t :| 0 <= t < |s.cores| && Inside(s.cores[t].pc) {
      assert HolderInv(s.words, t, s.cores[t].pc, s.owner, s.nest) && NeverReleases(s.cores[t].pc, s.nest);
    } else {
      assert Free(s);
    }
  }

  lemma MoveWithoutRelease(w: Words, t: nat, pc: Pc, op: Op, owner: int, nest: int)
    requires NeverReleases(pc, nest) && op != DoUnlock && nest >= 0 && (nest > 0 ==> w.count > 0)
    requires Inside(pc) ==> HolderInv(w, t, pc, owner, nest)
    ensures var m := CoreMove(w, t, pc, op);
            m.outcome != Released && NeverReleases(m.pc, nest) && (m.outcome == Acquired ==> m.words.count == nest + 1)
  {
  }

  lemma NeverReleasesLater(pc: Pc, nest: int, later: int)
    requires NeverReleases(pc, nest) && later >= nest
    ensures NeverReleases(pc, later)
  {
  }

  lemma StepWithoutRelease(s: State, c: Choice)
    requires NoRelease(s) && c.op != DoUnlock && c.t < |s.cores|
    ensures NoRelease(Step(s, c))
  {
    var s', me := Step(s, c), s.cores[c.t];
    if s.nest > 0 { HeldCountPositive(s); }
    assert NeverReleases(me.pc, s.nest);
    assert s.nest >= 0;
    MoveWithoutRelease(s.words, c.t, me.pc, c.op, s.owner, s.nest);
    if Inside(me.pc) { StepInside(s, c); } else { StepOutside(s, c); }
    hide Inv, CoreMove, HolderInv, Inside;
    forall t | 0 <= t < |s'.cores|
      ensures NeverReleases(s'.cores[t].pc, s'.nest)
    {
      NeverReleasesLater(if t == c.t then s'.cores[t].pc else s.cores[t].pc, s.nest, s'.nest);
    }
  }

  lemma {:induction false} WithoutUnlockNeverStray(cores: nat, schedule: seq<Choice>)
    requires forall k :: 0 <= k < |schedule| ==> schedule[k].op != DoUnlock
    ensures NoRelease(Run(cores, schedule))
  {
    RunInv(cores, schedule);
    if schedule != [] {
      var before, c := schedule[..|schedule| - 1], schedule[|schedule| - 1];
      WithoutUnlockNeverStray(cores, before);
      if c.t < |Run(cores, before).cores| {
        StepWithoutRelease(Run(cores, before), c);
      }
    }
  }

  // ----- which programs the lock is safe for -----

  ghost predicate OneHolder(s: State) {
    forall t, u :: 0 <= t < u < |s.cores| ==> s.cores[t].depth == 0 || s.cores[u].depth == 0
  }

  /** The exact condition for mutual exclusion, on the machine and on the calls a program makes: at most one
      core holds the lock in every state of every run if and only if there are fewer than two cores, or the
      program never calls corelock_lock, or it never calls corelock_unlock. */
  lemma ExclusionIff(n: nat, ops: set<Op>)
    ensures (forall schedule: seq<Choice> :: Over(schedule, ops) ==> OneHolder(Run(n, schedule)))
            <==> n < 2 || DoLock !in ops || DoUnlock !in ops
  {
    hide Run;
    if n < 2 || DoLock !in ops || DoUnlock !in ops {
      forall schedule: seq<Choice> | Over(schedule, ops)
        ensures OneHolder(Run(n, schedule))
      {
        SafePrograms(n, ops, schedule);
      }
    } else {
      var schedule := Line200BreaksExclusion(n);
      assert LOCK_UNLOCK <= ops;
      assert Over(schedule, ops) && !OneHolder(Run(n, schedule));
    }
  }

  lemma SafePrograms(n: nat, ops: set<Op>, schedule: seq<Choice>)
    requires Over(schedule, ops) && (n < 2 || DoLock !in ops || DoUnlock !in ops)
    ensures OneHolder(Run(n, schedule))
  {
    hide Run;
    RunInv(n, schedule);
    if n >= 2 {
      if DoLock !in ops {
        WithoutLockNeverStray(n, schedule);
      } else {
        WithoutUnlockNeverStray(n, schedule);
      }
      forall t, u | 0 <= t < u < n
        ensures Run(n, schedule).cores[t].depth == 0 || Run(n, schedule).cores[u].depth == 0
      {
        OneOwner(n, schedule, t, u);
      }
    }
  }

  // ----- the same protocol on mutable words -----

  class Machine {
    var lock: int
    var count: int
    var core: int
    var cores: seq<Core>
    var owner: int
    var nest: int
    var stray: bool

    ghost function Snapshot(): State
      reads this
    {
      State(Words(lock, count, core), cores, owner, nest, stray)
    }

    constructor (n: nat)
      ensures Snapshot() == Initial(n)
    {
      lock, count, core, owner, nest, stray := 0, 0, -1, -1, 0, false;
      cores := seq(n, _ => Core(Idle, 0));
    }

    /** One shared access of the core `t`, with the words assigned in place. */
    method Access(t: nat, op: Op) returns (next: Pc, outcome: Outcome)
      requires t < |cores|
      modifies this`lock, this`count, this`core
      ensures Move(Words(lock, count, core), next, outcome) == CoreMove(old(Words(lock, count, core)), t, cores[t].pc, op)
    {
      next, outcome := cores[t].pc, Nothing;
      match next {
        case Idle => next := match op case DoTrylock => Swap(Try) case DoLock => Swap(First) case DoUnlock => OutSwap;
        case Swap(m) =>
          var busy := lock;
          lock := -1;
          next := if busy == 0 then Test(m) else if m == Try then Idle else if m == First then next else AwaitZero;
        case Test(m) => next := if count == 0 then FreshLoad(m) else TestCore(m);
        case TestCore(m) => next := if core == t then NestLoad(m) else Foreign(m);
        case FreshLoad(m) => next := FreshStore(m, count);
        case FreshStore(m, tmp) => count := tmp + 1; next := FreshCore(m);
        case FreshCore(m) => core := t; next := Taken(m);
        case NestLoad(m) => next := NestStore(m, count);
        case NestStore(m, tmp) => count := tmp + 1; next := Taken(m);
        case Taken(m) => lock := 0; outcome := Acquired; next := if m == Retry then Line200 else Idle;
        case Foreign(m) => lock := 0; next := if m == Try then Idle else AwaitZero;
        case AwaitZero => next := if count == 0 then Swap(Retry) else next;
        case Line200 => lock := 0; next := Idle;
        case OutSwap =>
          var busy := lock;
          lock := -1;
          next := if busy == 0 then OutTest else next;
        case OutTest => next := if core == t then OutLoad else OutForeign;
        case OutLoad => next := OutStore(count);
        case OutStore(tmp) => count := tmp - 1; next := OutCheck;
        case OutCheck => next := if count <= 0 then OutCore else OutDone;
        case OutCore => core := -1; next := OutCount;
        case OutCount => count := 0; next := OutDone;
        case OutDone => lock := 0; outcome := Released; next := Idle;
        case OutForeign => lock := 0; next := Exited;
        case Exited =>
      }
    }

    method Advance(c: Choice)
      requires c.t < |cores|
      modifies this
      ensures Snapshot() == Step(old(Snapshot()), c)
    {
      var me := cores[c.t];
      stray := stray || (me.pc == Line200 && lock != 0);
      var next, outcome := Access(c.t, c.op);
      if outcome != Nothing {
        owner, nest := core, count;
      }
      cores := cores[c.t := Core(next, DepthAfter(me.depth, outcome))];
    }

    method Execute(n: nat, schedule: seq<Choice>)
      requires Snapshot() == Initial(n)
      requires forall k :: 0 <= k < |schedule| ==> schedule[k].t < n
      modifies this
      ensures Snapshot() == Run(n, schedule)
      ensures !stray ==> forall t, u :: 0 <= t < u < |cores| ==> cores[t].depth == 0 || cores[u].depth == 0
    {
      for k := 0 to |schedule|
        invariant Snapshot() == Run(n, schedule[..k]) && |cores| == n
      {
        RunInv(n, schedule[..k]);
        Advance(schedule[k]);
        assert schedule[..k + 1][..k] == schedule[..k];
      }
      assert schedule[..|schedule|] == schedule;
      RunInv(n, schedule);
    }
  }
}
