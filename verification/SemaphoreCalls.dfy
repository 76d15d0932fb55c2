/** The effect of whole semaphore calls that nobody interferes with (lib/bsp/include/atomic.h). */
module SemaphoreCalls {
  import opened Semaphore

  /** What one thread sees of the state while the others stand still. */
  datatype Solo = Solo(words: Words, pc: Pc, log: seq<Event>)

  function SoloStep(x: Solo, t: nat, op: Op): Solo {
    var m := ThreadMove(x.words, t, x.pc, op);
    Solo(m.words, m.pc, x.log + m.done)
  }

  function SoloRun(x: Solo, t: nat, op: Op, k: nat): Solo
    decreases k
  {
    if k == 0 then x else SoloRun(SoloStep(x, t, op), t, op, k - 1)
  }

  lemma {:induction false} SoloSum(x: Solo, t: nat, op: Op, m: nat, n: nat)
    ensures SoloRun(x, t, op, m + n) == SoloRun(SoloRun(x, t, op, m), t, op, n)
    decreases m
  {
    hide SoloStep;
    if m > 0 { SoloSum(SoloStep(x, t, op), t, op, m - 1, n); }
  }

  lemma TwoSteps(x: Solo, t: nat, op: Op)
    ensures SoloRun(x, t, op, 1) == SoloStep(x, t, op)
    ensures SoloRun(x, t, op, 2) == SoloStep(SoloStep(x, t, op), t, op)
  {
    hide SoloStep;
  }

  lemma ThreeSteps(x: Solo, t: nat, op: Op)
    ensures SoloRun(x, t, op, 3) == SoloStep(SoloStep(SoloStep(x, t, op), t, op), t, op)
  {
    hide SoloStep;
    TwoSteps(SoloStep(x, t, op), t, op);
  }

  lemma SignalSolo(x: Solo, t: nat, i: int)
    requires x.pc == Idle && x.words.lock == 0
    ensures SoloRun(x, t, Signal(i), 5)
         == Solo(x.words.(count := x.words.count + i), Idle, x.log + [Signalled(t, i)])
  {
    var op := Signal(i);
    TwoSteps(x, t, op);
    var y := Solo(x.words.(lock := -1), SignalLoad(i), x.log + []);
    assert SoloRun(x, t, op, 2) == y && x.log + [] == x.log;
    ThreeSteps(y, t, op);
    SoloSum(x, t, op, 2, 3);
  }

  /** Up to the swap of a wait. */
  lemma WaitBegins(x: Solo, t: nat, i: int)
    requires x.pc == Idle
    ensures SoloRun(x, t, Wait(i), 2) == Solo(x.words.(waiting := x.words.waiting + 1), WaitLock(i), x.log)
  {
    TwoSteps(x, t, Wait(i));
  }

  /** A wait whose amount is not covered releases the lock and is where it was. */
  lemma WaitTurns(x: Solo, t: nat, op: Op, i: int)
    requires x.pc == WaitLock(i) && x.words.lock == 0 && x.words.count < i
    ensures SoloRun(x, t, op, 3) == x
  {
    ThreeSteps(x, t, op);
    assert x.log + [] == x.log;
  }

  /** A wait whose amount is covered goes through. */
  lemma WaitPasses(x: Solo, t: nat, op: Op, i: int)
    requires x.pc == WaitLock(i) && x.words.lock == 0 && x.words.count >= i
    ensures SoloRun(x, t, op, 6)
         == Solo(Words(0, x.words.count - i, x.words.waiting - 1), Idle, x.log + [Waited(t, i)])
  {
    ThreeSteps(x, t, op);
    var y := Solo(x.words.(lock := -1), WaitStore(i, x.words.count), x.log);
    assert SoloRun(x, t, op, 3) == y by { assert x.log + [] == x.log; }
    ThreeSteps(y, t, op);
    assert y.log + [] == y.log;
    SoloSum(x, t, op, 3, 3);
  }

  lemma CountSolo(x: Solo, t: nat)
    requires x.pc == Idle && x.words.lock == 0
    ensures SoloRun(x, t, Count, 4) == Solo(x.words, Idle, x.log + [Counted(t, x.words.count)])
  {
    TwoSteps(x, t, Count);
    var y := Solo(x.words.(lock := -1), CountLoad, x.log);
    assert SoloRun(x, t, Count, 2) == y by { assert x.log + [] == x.log; }
    TwoSteps(y, t, Count);
    assert y.log + [] == y.log;
    SoloSum(x, t, Count, 2, 2);
  }

  // ----- in any state of a run -----

  function View(s: State, t: nat): Solo
    requires t < |s.pcs|
  {
    Solo(s.words, s.pcs[t], s.log)
  }

  function Replaced(s: State, t: nat, x: Solo): State
    requires t < |s.pcs|
  {
    State(x.words, s.pcs[t := x.pc], x.log)
  }

  function Times(c: Choice, k: nat): seq<Choice> { seq(k, _ => c) }

  lemma {:induction false} RunAlone(threads: nat, init: int, schedule: seq<Choice>, t: nat, op: Op, k: nat)
    requires t < threads
    ensures |Run(threads, init, schedule).pcs| == threads
    ensures Run(threads, init, schedule + Times(Choice(t, op), k))
         == Replaced(Run(threads, init, schedule), t, SoloRun(View(Run(threads, init, schedule), t), t, op, k))
    decreases k
  {
    hide Run, Inv, SoloStep;
    RunInv(threads, init, schedule);
    var c := Choice(t, op);
    if k == 0 {
      assert schedule + Times(c, 0) == schedule;
    } else {
      RunStep(threads, init, schedule, t, op);
      RunAlone(threads, init, schedule + [c], t, op, k - 1);
      assert schedule + Times(c, k) == (schedule + [c]) + Times(c, k - 1);
    }
  }

  lemma RunStep(threads: nat, init: int, schedule: seq<Choice>, t: nat, op: Op)
    requires t < threads && |Run(threads, init, schedule).pcs| == threads
    ensures Run(threads, init, schedule + [Choice(t, op)])
         == Replaced(Run(threads, init, schedule), t, SoloStep(View(Run(threads, init, schedule), t), t, op))
  {
    hide ThreadMove;
    assert (schedule + [Choice(t, op)])[..|schedule|] == schedule;
  }

  /** The effect of a call that begins while the spinlock is free and that nobody disturbs: k steps take a signal, a
      count and a covered wait through; a wait that is not covered is counted as waiting and waits. */
  lemma CallAlone(threads: nat, init: int, schedule: seq<Choice>, t: nat, op: Op) returns (k: nat)
    requires t < threads && |Run(threads, init, schedule).pcs| == threads
    requires Run(threads, init, schedule).words.lock == 0 && Run(threads, init, schedule).pcs[t] == Idle
    ensures var s, s' := Run(threads, init, schedule), Run(threads, init, schedule + Times(Choice(t, op), k));
            && s'.words.lock == 0
            && (op.Signal? ==>
                  && s'.words == s.words.(count := s.words.count + op.amount) && s'.log == s.log + [Signalled(t, op.amount)]
                  && s'.pcs == s.pcs)
            && (op.Wait? && s.words.count >= op.amount ==>
                  && s'.words == s.words.(count := s.words.count - op.amount) && s'.log == s.log + [Waited(t, op.amount)]
                  && s'.pcs == s.pcs)
            && (op.Wait? && s.words.count < op.amount ==>
                  && s'.words == s.words.(waiting := s.words.waiting + 1) && s'.log == s.log
                  && s'.pcs == s.pcs[t := WaitLock(op.amount)])
            && (op.Count? ==> s' == s.(log := s.log + [Counted(t, s.words.count)]))
  {
    hide SoloRun, Run, ThreadMove;
    var x := View(Run(threads, init, schedule), t);
    match op {
      case Signal(i) =>
        k := 5;
        SignalSolo(x, t, i);
      case Count =>
        k := 4;
        CountSolo(x, t);
      case Wait(i) =>
        WaitBegins(x, t, i);
        var y := Solo(x.words.(waiting := x.words.waiting + 1), WaitLock(i), x.log);
        if x.words.count >= i {
          k := 8;
          WaitPasses(y, t, op, i);
          SoloSum(x, t, op, 2, 6);
        } else {
          k := 5;
          WaitTurns(y, t, op, i);
          SoloSum(x, t, op, 2, 3);
        }
    }
    RunAlone(threads, init, schedule, t, op, k);
    assert Run(threads, init, schedule).pcs[t := Idle] == Run(threads, init, schedule).pcs;
  }

  /** A wait that is under way gets through, undisturbed, if and only if the count covers its amount. */
  lemma WaitAlone(threads: nat, init: int, schedule: seq<Choice>, t: nat, op: Op, i: int)
    requires t < threads && |Run(threads, init, schedule).pcs| == threads
    requires Run(threads, init, schedule).words.lock == 0 && Run(threads, init, schedule).pcs[t] == WaitLock(i)
    ensures var s, s' := Run(threads, init, schedule), Run(threads, init, schedule + Times(Choice(t, op), 6));
            if s.words.count >= i then
              && s'.words == Words(0, s.words.count - i, s.words.waiting - 1) && s'.log == s.log + [Waited(t, i)]
              && s'.pcs == s.pcs[t := Idle]
            else s' == s
  {
    hide SoloRun, Run, ThreadMove;
    var s := Run(threads, init, schedule);
    var x := View(s, t);
    if x.words.count >= i {
      WaitPasses(x, t, op, i);
    } else {
      WaitTurns(x, t, op, i);
      SoloSum(x, t, op, 3, 3);
      assert s.pcs[t := s.pcs[t]] == s.pcs;
    }
    RunAlone(threads, init, schedule, t, op, 6);
  }
}
