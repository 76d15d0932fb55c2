/** What each call of the core lock does (lib/bsp/include/atomic.h): who is refused, and the effect of a whole call
    that nobody interferes with. */
module CoreLockCalls {
  import opened CoreLock

  // ----- who is refused or has to wait -----

  /** A core is treated as a foreign one only if it does not hold the lock and another core does. */
  lemma ForeignIsForeign(n: nat, schedule: seq<Choice>, t: nat)
    requires !Run(n, schedule).stray && t < n
    ensures |Run(n, schedule).cores| == n
    ensures var s := Run(n, schedule);
            s.cores[t].pc.Foreign? ==>
              s.cores[t].depth == 0 && exists u: nat :: u < n && u != t && s.cores[u].depth > 0
  {
    RunInv(n, schedule);
    var s := Run(n, schedule);
    if s.cores[t].pc.Foreign? {
      assert HolderInv(s.words, t, s.cores[t].pc, s.owner, s.nest);
      var u: nat := s.owner;
      assert s.cores[u].depth > 0;
    }
  }

  /** In the wait of a contended corelock_lock or in the trylock that it retries. */
  predicate Waiting(pc: Pc) {
    pc.AwaitZero? ||
    ((pc.Swap? || pc.Test? || pc.TestCore? || pc.FreshLoad? || pc.FreshStore? || pc.FreshCore? || pc.NestLoad? ||
      pc.NestStore? || pc.Taken? || pc.Foreign?) && pc.mode == Retry)
  }

  lemma MoveToWaiting(w: Words, t: nat, pc: Pc, op: Op)
    requires Waiting(CoreMove(w, t, pc, op).pc)
    ensures (Waiting(pc) || pc == Foreign(First)) && CoreMove(w, t, pc, op).outcome == Nothing
  {
  }

  /** A core that waits holds nothing: no core waits for itself. */
  lemma {:induction false} WaitersHoldNothing(n: nat, schedule: seq<Choice>, t: nat)
    requires !Run(n, schedule).stray && t < n
    ensures |Run(n, schedule).cores| == n
    ensures Waiting(Run(n, schedule).cores[t].pc) ==> Run(n, schedule).cores[t].depth == 0
  {
    RunInv(n, schedule);
    if schedule != [] {
      var before, c := schedule[..|schedule| - 1], schedule[|schedule| - 1];
      RunInv(n, before);
      WaitersHoldNothing(n, before, t);
      var s := Run(n, before);
      if c.t == t && Waiting(Step(s, c).cores[t].pc) {
        MoveToWaiting(s.words, t, s.cores[t].pc, c.op);
        ForeignIsForeign(n, before, t);
      }
    }
  }

  // ----- one core while the others stand still -----

  /** The same choice k times. */
  function Times(c: Choice, k: nat): seq<Choice> { seq(k, _ => c) }

  lemma {:induction false} RunAlone(n: nat, schedule: seq<Choice>, t: nat, op: Op, k: nat)
    requires |Run(n, schedule).cores| == n && t < n
    ensures Run(n, schedule + Times(Choice(t, op), k))
         == Replaced(Run(n, schedule), t, SoloRun(View(Run(n, schedule), t), t, op, k))
    decreases k
  {
    hide Step, SoloStep, Run;
    var c := Choice(t, op);
    if k == 0 {
      assert schedule + Times(c, 0) == schedule;
    } else {
      RunStep(n, schedule, t, op);
      RunAlone(n, schedule + [c], t, op, k - 1);
      assert schedule + Times(c, k) == (schedule + [c]) + Times(c, k - 1);
    }
  }

  lemma RunStep(n: nat, schedule: seq<Choice>, t: nat, op: Op)
    requires |Run(n, schedule).cores| == n && t < n
    ensures Run(n, schedule + [Choice(t, op)])
         == Replaced(Run(n, schedule), t, SoloStep(View(Run(n, schedule), t), t, op))
  {
    hide CoreMove;
    assert (schedule + [Choice(t, op)])[..|schedule|] == schedule;
  }

  lemma {:induction false} SoloSum(x: Solo, t: nat, op: Op, m: nat, n: nat)
    ensures SoloRun(x, t, op, m + n) == SoloRun(SoloRun(x, t, op, m), t, op, n)
    decreases m
  {
    hide SoloStep;
    if m > 0 { SoloSum(SoloStep(x, t, op), t, op, m - 1, n); }
  }

  lemma TwoSteps(x: Solo, t: nat, op: Op)
    ensures SoloRun(x, t, op, 1) == SoloStep(x, t, op)
    ensures SoloRun(x, t, op, 2) == SoloStep(SoloStep(x, t, op), t, op)
  {
    hide SoloStep;
  }

  function At(x: Solo, w: Words, pc: Pc): Solo { x.(words := w, me := x.me.(pc := pc)) }

  /** From idle through the swap. */
  lemma Enter(x: Solo, t: nat, op: Op)
    requires x.me.pc == Idle && x.words.lock == 0
    ensures SoloRun(x, t, op, 2) == At(x, x.words.(lock := -1),
              match op case DoTrylock => Test(Try) case DoLock => Test(First) case DoUnlock => OutTest)
  {
    TwoSteps(x, t, op);
  }

  /** If the inner spinlock is taken, trylock returns and the other two try again. */
  lemma Busy(x: Solo, t: nat, op: Op)
    requires x.me.pc == Idle && x.words.lock != 0
    ensures SoloRun(x, t, op, 2) == At(x, x.words.(lock := -1),
              match op case DoTrylock => Idle case DoLock => Swap(First) case DoUnlock => OutSwap)
  {
    TwoSteps(x, t, op);
  }

  /** From the test of count to the store of count, on a lock that is nobody's. */
  lemma FreshStart(x: Solo, t: nat, op: Op, m: Mode)
    requires x.me.pc == Test(m) && x.words.count == 0
    ensures SoloRun(x, t, op, 2) == At(x, x.words, FreshStore(m, 0))
  {
    TwoSteps(x, t, op);
  }

  lemma FreshEnd(x: Solo, t: nat, op: Op, m: Mode)
    requires x.me.pc == FreshStore(m, 0)
    ensures SoloRun(x, t, op, 2) == At(x, x.words.(count := 1, core := t), Taken(m))
  {
    TwoSteps(x, t, op);
  }

  lemma NestStart(x: Solo, t: nat, op: Op, m: Mode)
    requires x.me.pc == Test(m) && x.words.count != 0 && x.words.core == t
    ensures SoloRun(x, t, op, 2) == At(x, x.words, NestLoad(m))
  {
    TwoSteps(x, t, op);
  }

  lemma NestEnd(x: Solo, t: nat, op: Op, m: Mode)
    requires x.me.pc == NestLoad(m)
    ensures SoloRun(x, t, op, 2) == At(x, x.words.(count := x.words.count + 1), Taken(m))
  {
    TwoSteps(x, t, op);
  }

  lemma Leave(x: Solo, t: nat, op: Op, m: Mode)
    requires x.me.pc == Taken(m)
    ensures SoloRun(x, t, op, 1)
         == Solo(x.words.(lock := 0), Core(if m == Retry then Line200 else Idle, x.me.depth + 1), x.words.core,
                 x.words.count, x.stray)
  {
    TwoSteps(x, t, op);
  }

  /** A free lock is taken, by whichever of the calls, from its test on. */
  lemma FreshFromTest(x: Solo, t: nat, op: Op, m: Mode)
    requires x.me.pc == Test(m) && x.words.count == 0
    ensures SoloRun(x, t, op, 5)
         == Solo(Words(0, 1, t), Core(if m == Retry then Line200 else Idle, x.me.depth + 1), t, 1, x.stray)
  {
    hide SoloRun;
    FreshStart(x, t, op, m);
    SoloSum(x, t, op, 2, 3);
    var y := At(x, x.words, FreshStore(m, 0));
    FreshEnd(y, t, op, m);
    SoloSum(y, t, op, 2, 1);
    Leave(At(y, y.words.(count := 1, core := t), Taken(m)), t, op, m);
  }

  function FirstMode(op: Op): Mode { if op == DoTrylock then Try else First }

  lemma FreshTaken(x: Solo, t: nat, op: Op)
    requires x.me.pc == Idle && x.words.lock == 0 && x.words.count == 0 && op != DoUnlock
    ensures SoloRun(x, t, op, 7) == Solo(Words(0, 1, t), Core(Idle, x.me.depth + 1), t, 1, x.stray)
  {
    hide SoloRun;
    Enter(x, t, op);
    SoloSum(x, t, op, 2, 5);
    FreshFromTest(At(x, x.words.(lock := -1), Test(FirstMode(op))), t, op, FirstMode(op));
  }

  lemma NestTaken(x: Solo, t: nat, op: Op)
    requires x.me.pc == Idle && x.words.lock == 0 && x.words.count != 0 && x.words.core == t && op != DoUnlock
    ensures SoloRun(x, t, op, 7)
         == Solo(Words(0, x.words.count + 1, t), Core(Idle, x.me.depth + 1), t, x.words.count + 1, x.stray)
  {
    hide SoloRun;
    var m := FirstMode(op);
    Enter(x, t, op);
    SoloSum(x, t, op, 2, 5);
    var y := At(x, x.words.(lock := -1), Test(m));
    NestStart(y, t, op, m);
    SoloSum(y, t, op, 2, 3);
    var z := At(y, y.words, NestLoad(m));
    NestEnd(z, t, op, m);
    SoloSum(z, t, op, 2, 1);
    Leave(At(z, z.words.(count := z.words.count + 1), Taken(m)), t, op, m);
  }

  lemma TurnedAway(x: Solo, t: nat, op: Op, m: Mode)
    requires x.me.pc == Test(m) && x.words.count != 0 && x.words.core != t
    ensures SoloRun(x, t, op, 2) == At(x, x.words, Foreign(m))
    ensures SoloRun(At(x, x.words, Foreign(m)), t, op, 1)
         == At(x, x.words.(lock := 0), if m == Try then Idle else AwaitZero)
  {
    TwoSteps(x, t, op);
    TwoSteps(At(x, x.words, Foreign(m)), t, op);
  }

  lemma Refused(x: Solo, t: nat, op: Op)
    requires x.me.pc == Idle && x.words.lock == 0 && x.words.count != 0 && x.words.core != t && op != DoUnlock
    ensures SoloRun(x, t, op, 5) == if op == DoTrylock then x else x.(me := Core(AwaitZero, x.me.depth))
  {
    hide SoloRun;
    Enter(x, t, op);
    SoloSum(x, t, op, 2, 3);
    var y := At(x, x.words.(lock := -1), Test(FirstMode(op)));
    TurnedAway(y, t, op, FirstMode(op));
    SoloSum(y, t, op, 2, 1);
  }

  lemma Retrying(x: Solo, t: nat, op: Op)
    requires x.me.pc == AwaitZero && x.words.lock == 0 && x.words.count == 0
    ensures SoloRun(x, t, op, 2) == At(x, x.words.(lock := -1), Test(Retry))
  {
    TwoSteps(x, t, op);
  }

  lemma LineTwoHundred(x: Solo, t: nat, op: Op)
    requires x.me.pc == Line200 && x.words.lock == 0
    ensures SoloRun(x, t, op, 1) == At(x, x.words, Idle)
  {
    TwoSteps(x, t, op);
  }

  lemma RetryTaken(x: Solo, t: nat, op: Op)
    requires x.me.pc == AwaitZero && x.words.lock == 0 && x.words.count == 0
    ensures SoloRun(x, t, op, 8) == Solo(Words(0, 1, t), Core(Idle, x.me.depth + 1), t, 1, x.stray)
  {
    hide SoloRun;
    Retrying(x, t, op);
    SoloSum(x, t, op, 2, 6);
    var y := At(x, x.words.(lock := -1), Test(Retry));
    FreshFromTest(y, t, op, Retry);
    SoloSum(y, t, op, 5, 1);
    LineTwoHundred(SoloRun(y, t, op, 5), t, op);
  }

  lemma OutStart(x: Solo, t: nat)
    requires x.me.pc == OutTest && x.words.core == t
    ensures SoloRun(x, t, DoUnlock, 2) == At(x, x.words, OutStore(x.words.count))
  {
    TwoSteps(x, t, DoUnlock);
  }

  lemma OutMiddle(x: Solo, t: nat, d: int)
    requires x.me.pc == OutStore(d)
    ensures SoloRun(x, t, DoUnlock, 2)
         == At(x, x.words.(count := d - 1), if d - 1 <= 0 then OutCore else OutDone)
  {
    TwoSteps(x, t, DoUnlock);
  }

  lemma OutLast(x: Solo, t: nat)
    requires x.me.pc == OutCore
    ensures SoloRun(x, t, DoUnlock, 2) == At(x, x.words.(core := -1, count := 0), OutDone)
  {
    TwoSteps(x, t, DoUnlock);
  }

  lemma OutEnd(x: Solo, t: nat)
    requires x.me.pc == OutDone && x.me.depth > 0
    ensures SoloRun(x, t, DoUnlock, 1)
         == Solo(x.words.(lock := 0), Core(Idle, x.me.depth - 1), x.words.core, x.words.count, x.stray)
  {
    TwoSteps(x, t, DoUnlock);
  }

  lemma Released(x: Solo, t: nat)
    requires x.words.count > 0 && x.me == Core(Idle, x.words.count) && x.words.lock == 0 && x.words.core == t
    ensures var k := if x.words.count == 1 then 9 else 7;
            SoloRun(x, t, DoUnlock, k) == UnlockedOnce(x, t)
  {
    hide SoloRun;
    var d := x.words.count;
    var n := if d == 1 then 3 else 1;
    Enter(x, t, DoUnlock);
    SoloSum(x, t, DoUnlock, 2, 4 + n);
    var y := At(x, x.words.(lock := -1), OutTest);
    OutStart(y, t);
    SoloSum(y, t, DoUnlock, 2, 2 + n);
    var z := At(y, y.words, OutStore(d));
    OutMiddle(z, t, d);
    SoloSum(z, t, DoUnlock, 2, n);
    var w := At(z, z.words.(count := d - 1), if d == 1 then OutCore else OutDone);
    if d == 1 {
      OutLast(w, t);
      SoloSum(w, t, DoUnlock, 2, 1);
      OutEnd(At(w, w.words.(core := -1, count := 0), OutDone), t);
    } else {
      OutEnd(w, t);
    }
  }

  function UnlockedOnce(x: Solo, t: nat): Solo
    requires x.words.count > 0
  {
    var d := x.words.count - 1;
    var core := if d == 0 then -1 else t;
    Solo(Words(0, d, core), Core(Idle, d), core, d, x.stray)
  }

  lemma OutThrown(x: Solo, t: nat)
    requires x.me.pc == OutTest && x.words.core != t
    ensures SoloRun(x, t, DoUnlock, 2) == At(x, x.words.(lock := 0), Exited)
  {
    TwoSteps(x, t, DoUnlock);
  }

  lemma Thrown(x: Solo, t: nat)
    requires x.me.pc == Idle && x.words.lock == 0 && x.words.core != t
    ensures SoloRun(x, t, DoUnlock, 4) == x.(me := Core(Exited, x.me.depth))
  {
    hide SoloRun;
    Enter(x, t, DoUnlock);
    SoloSum(x, t, DoUnlock, 2, 2);
    OutThrown(At(x, x.words.(lock := -1), OutTest), t);
  }

  // ----- whole calls, in any reachable state -----

  ghost predicate NobodyHolds(s: State) { forall u :: 0 <= u < |s.cores| ==> s.cores[u].depth == 0 }

  /** A call begins at a moment at which the inner spinlock is free. */
  ghost predicate CanCall(n: nat, schedule: seq<Choice>, t: nat) {
    t < n && !Run(n, schedule).stray && Run(n, schedule).words.lock == 0 && |Run(n, schedule).cores| == n
  }

  lemma WhoHolds(n: nat, schedule: seq<Choice>, t: nat)
    requires CanCall(n, schedule, t)
    ensures var s := Run(n, schedule);
            && (s.cores[t].depth > 0 ==> s.words.core == t && s.words.count == s.cores[t].depth)
            && (NobodyHolds(s) ==> s.words.count == 0 && s.words.core == -1)
            && (s.cores[t].depth == 0 && !NobodyHolds(s) ==> s.words.count > 0 && s.words.core != t)
  {
    hide CoreMove;
    RunInv(n, schedule);
    FreeWordsNameOwner(n, schedule);
  }

  /** corelock_trylock and corelock_lock, undisturbed: a core that holds the lock takes it once more, nobody's lock is
      taken, and anybody else's is refused or waited for without a change.  `k` is the number of steps. */
  lemma Acquire(n: nat, schedule: seq<Choice>, t: nat, op: Op) returns (k: nat)
    requires CanCall(n, schedule, t) && Run(n, schedule).cores[t].pc == Idle && op != DoUnlock
    ensures var s, s' := Run(n, schedule), Run(n, schedule + Times(Choice(t, op), k));
            var d := s.cores[t].depth;
            if d > 0 || NobodyHolds(s) then
              && s'.words == Words(0, d + 1, t) && s'.cores == s.cores[t := Core(Idle, d + 1)] && !s'.stray
            else
              && s'.words == s.words && !s'.stray
              && s'.cores == s.cores[t := Core(if op == DoTrylock then Idle else AwaitZero, 0)]
  {
    var s := Run(n, schedule);
    WhoHolds(n, schedule, t);
    hide SoloRun;
    var x := View(s, t);
    if NobodyHolds(s) {
      k := 7;
      FreshTaken(x, t, op);
    } else if x.me.depth > 0 {
      k := 7;
      NestTaken(x, t, op);
    } else {
      k := 5;
      Refused(x, t, op);
    }
    RunAlone(n, schedule, t, op, k);
  }

  /** The rest of a contended corelock_lock, once nobody holds the lock and nobody else moves. */
  lemma AcquireAfterWaiting(n: nat, schedule: seq<Choice>, t: nat, op: Op)
    requires CanCall(n, schedule, t) && Run(n, schedule).cores[t].pc == AwaitZero && NobodyHolds(Run(n, schedule))
    ensures var s, s' := Run(n, schedule), Run(n, schedule + Times(Choice(t, op), 8));
            s'.words == Words(0, 1, t) && s'.cores == s.cores[t := Core(Idle, 1)] && !s'.stray
  {
    WhoHolds(n, schedule, t);
    hide SoloRun;
    RetryTaken(View(Run(n, schedule), t), t, op);
    RunAlone(n, schedule, t, op, 8);
  }

  /** corelock_unlock, undisturbed: the depth drops by one and at 0 the lock is nobody's; a core that holds nothing
      ends in the exit call and leaves the words alone. */
  lemma Release(n: nat, schedule: seq<Choice>, t: nat) returns (k: nat)
    requires CanCall(n, schedule, t) && Run(n, schedule).cores[t].pc == Idle
    ensures var s, s' := Run(n, schedule), Run(n, schedule + Times(Choice(t, DoUnlock), k));
            var d := s.cores[t].depth;
            if d > 0 then
              && s'.words == Words(0, d - 1, if d == 1 then -1 else t)
              && s'.cores == s.cores[t := Core(Idle, d - 1)] && !s'.stray
            else
              s'.words == s.words && s'.cores == s.cores[t := Core(Exited, 0)] && !s'.stray
  {
    var s := Run(n, schedule);
    WhoHolds(n, schedule, t);
    hide SoloRun;
    var x := View(s, t);
    if x.me.depth > 0 {
      k := if x.me.depth == 1 then 9 else 7;
      Released(x, t);
    } else {
      k := 4;
      Thrown(x, t);
    }
    RunAlone(n, schedule, t, DoUnlock, k);
  }
}
