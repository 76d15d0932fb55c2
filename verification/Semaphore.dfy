/** The swap-based spinlock and the counting semaphore built on it (lib/bsp/include/atomic.h).

    Any number of threads call signal, wait and count in any order.  One step performs at most one
    access to the shared lock word, `count` or `waiting`; swap and fetch-and-add are single steps, but
    `count += i` and `count -= i` are a load followed by a store.  Every completed operation is appended
    to a log when it releases the spinlock; the main result is that this log is always a legal history
    of an atomic semaphore (`RunIsLinearizable`). */
module Semaphore {

  datatype Op = Signal(amount: int) | Wait(amount: int) | Count

  datatype Pc =
    | Idle
    | SignalLock(i: int) | SignalLoad(i: int) | SignalStore(i: int, tmp: int) | SignalUnlock(i: int)
    | WaitEnter(i: int) | WaitLock(i: int) | WaitTest(i: int) | WaitLoad(i: int) | WaitStore(i: int, tmp: int)
    | WaitLeave(i: int) | WaitUnlock(i: int) | WaitRetry(i: int)
    | CountLock | CountLoad | CountUnlock(tmp: int)

  datatype Event = Signalled(thread: nat, amount: int) | Waited(thread: nat, amount: int) | Counted(thread: nat, value: int)

  /** The words of the C structure. */
  datatype Words = Words(lock: int, count: int, waiting: int)

  /** `log` is history. */
  datatype State = State(words: Words, pcs: seq<Pc>, log: seq<Event>)

  /** A scheduling decision: thread `t` takes a step; if it is idle it begins `op`. */
  datatype Choice = Choice(t: nat, op: Op)

  /** What one step of a thread does to the words, where it goes, and what it completes. */
  datatype Move = Move(words: Words, pc: Pc, done: seq<Event>)

  function Initial(threads: nat, count: int): State {
    State(Words(0, count, 0), seq(threads, _ => Idle), [])
  }

  /** spinlock_trylock: swap in -1; the caller goes on to `taken` only if the old word was 0. */
  function TryLock(w: Words, taken: Pc, again: Pc): Move {
    Move(w.(lock := -1), if w.lock == 0 then taken else again, [])
  }

  function Begin(op: Op): Pc {
    match op
    case Signal(i) => SignalLock(i)
    case Wait(i) => WaitEnter(i)
    case Count => CountLock
  }

  function ThreadMove(w: Words, t: nat, pc: Pc, op: Op): Move {
    match pc
    case Idle => Move(w, Begin(op), [])
    case SignalLock(i) => TryLock(w, SignalLoad(i), pc)
    case SignalLoad(i) => Move(w, SignalStore(i, w.count), [])
    case SignalStore(i, tmp) => Move(w.(count := tmp + i), SignalUnlock(i), [])
    case SignalUnlock(i) => Move(w.(lock := 0), Idle, [Signalled(t, i)])
    case WaitEnter(i) => Move(w.(waiting := w.waiting + 1), WaitLock(i), [])
    case WaitLock(i) => TryLock(w, WaitTest(i), pc)
    case WaitTest(i) => Move(w, if w.count >= i then WaitLoad(i) else WaitRetry(i), [])
    case WaitLoad(i) => Move(w, WaitStore(i, w.count), [])
    case WaitStore(i, tmp) => Move(w.(count := tmp - i), WaitLeave(i), [])
    case WaitLeave(i) => Move(w.(waiting := w.waiting - 1), WaitUnlock(i), [])
    case WaitUnlock(i) => Move(w.(lock := 0), Idle, [Waited(t, i)])
    case WaitRetry(i) => Move(w.(lock := 0), WaitLock(i), [])
    case CountLock => TryLock(w, CountLoad, pc)
    case CountLoad => Move(w, CountUnlock(w.count), [])
    case CountUnlock(tmp) => Move(w.(lock := 0), Idle, [Counted(t, tmp)])
  }

  function Step(s: State, c: Choice): State {
    if c.t >= |s.pcs| then s else
    var m := ThreadMove(s.words, c.t, s.pcs[c.t], c.op);
    State(m.words, s.pcs[c.t := m.pc], s.log + m.done)
  }

  function Run(threads: nat, count: int, schedule: seq<Choice>): State {
    if schedule == [] then Initial(threads, count)
    else Step(Run(threads, count, schedule[..|schedule| - 1]), schedule[|schedule| - 1])
  }

  // ----- the atomic semaphore that the log is compared with -----

  function Effect(count: int, e: Event): int {
    match e
    case Signalled(_, i) => count + i
    case Waited(_, i) => count - i
    case Counted(_, _) => count
  }

  predicate Enabled(count: int, e: Event) {
    match e
    case Signalled(_, _) => true
    case Waited(_, i) => count >= i
    case Counted(_, v) => v == count
  }

  function Replay(init: int, log: seq<Event>): int {
    if log == [] then init else Effect(Replay(init, log[..|log| - 1]), log[|log| - 1])
  }

  /** Every event of the log is one that the atomic semaphore could perform at that point. */
  predicate Legal(init: int, log: seq<Event>) {
    log == [] || (Legal(init, log[..|log| - 1]) && Enabled(Replay(init, log[..|log| - 1]), log[|log| - 1]))
  }

  // ----- the inductive invariant -----

  predicate Inside(pc: Pc) {
    !pc.Idle? && !pc.SignalLock? && !pc.WaitEnter? && !pc.WaitLock? && !pc.CountLock?
  }

  /** Between the increment and the decrement of `waiting`. */
  predicate IsWaiting(pc: Pc) {
    pc.WaitLock? || pc.WaitTest? || pc.WaitLoad? || pc.WaitStore? || pc.WaitLeave? || pc.WaitRetry?
  }

  function Waiters(pcs: seq<Pc>): nat {
    if pcs == [] then 0
    else Waiters(pcs[..|pcs| - 1]) + (if IsWaiting(pcs[|pcs| - 1]) then 1 else 0)
  }

  lemma {:induction false} WaitersUpdate(pcs: seq<Pc>, t: nat, pc: Pc)
    requires t < |pcs|
    ensures Waiters(pcs[t := pc]) ==
            Waiters(pcs) - (if IsWaiting(pcs[t]) then 1 else 0) + (if IsWaiting(pc) then 1 else 0)
  {
    var n := |pcs| - 1;
    if t == n {
      assert pcs[t := pc][..n] == pcs[..n];
    } else {
      assert pcs[t := pc][..n] == pcs[..n][t := pc];
      WaitersUpdate(pcs[..n], t, pc);
    }
  }

  lemma {:induction false} NoWaiters(threads: nat)
    ensures Waiters(seq(threads, _ => Idle)) == 0
  {
    if threads > 0 {
      var pcs := seq(threads, _ => Idle);
      assert pcs[..threads - 1] == seq(threads - 1, _ => Idle);
      NoWaiters(threads - 1);
    }
  }

  /** What the holder of the spinlock knows: `count` is the replayed value until its own store, and
      differs from it by the amount it is about to publish afterwards. */
  predicate HolderInv(count: int, published: int, pc: Pc) {
    match pc
    case SignalStore(_, tmp) => count == published == tmp
    case SignalUnlock(i) => count == published + i
    case WaitLoad(i) => count == published >= i
    case WaitStore(i, tmp) => count == published == tmp >= i
    case WaitLeave(i) => count == published - i >= 0
    case WaitUnlock(i) => count == published - i >= 0
    case CountUnlock(tmp) => count == published == tmp
    case _ => count == published
  }

  ghost predicate Alone(s: State, t: nat) {
    forall u :: 0 <= u < |s.pcs| && u != t ==> !Inside(s.pcs[u])
  }

  ghost predicate Free(s: State) {
    forall t :: 0 <= t < |s.pcs| ==> !Inside(s.pcs[t])
  }

  ghost predicate MutexInv(s: State) {
    && (s.words.lock == 0 <==> Free(s))
    && forall t :: 0 <= t < |s.pcs| && Inside(s.pcs[t]) ==> Alone(s, t)
  }

  ghost predicate DataInv(init: int, s: State) {
    && (Free(s) ==> s.words.count == Replay(init, s.log))
    && forall t :: 0 <= t < |s.pcs| && Inside(s.pcs[t]) ==> HolderInv(s.words.count, Replay(init, s.log), s.pcs[t])
  }

  ghost predicate Inv(init: int, s: State) {
    MutexInv(s) && DataInv(init, s) && Legal(init, s.log) && s.words.waiting == Waiters(s.pcs)
  }

  lemma MoveWaiting(w: Words, t: nat, pc: Pc, op: Op)
    ensures var m := ThreadMove(w, t, pc, op);
            m.words.waiting - (if IsWaiting(m.pc) then 1 else 0) == w.waiting - (if IsWaiting(pc) then 1 else 0)
  {
  }

  /** A thread outside can only try the lock: it changes no data and gets in only through a free lock. */
  lemma MoveOutside(w: Words, t: nat, pc: Pc, op: Op)
    requires !Inside(pc)
    ensures var m := ThreadMove(w, t, pc, op);
            && m.words.count == w.count && m.done == []
            && (if Inside(m.pc) then w.lock == 0 && m.words.lock != 0 && HolderInv(w.count, w.count, m.pc)
                else (m.words.lock == 0 <==> w.lock == 0))
  {
  }

  /** The holder keeps the lock while it stays inside, and leaves the count as the logged effect says. */
  lemma MoveInside(w: Words, published: int, t: nat, pc: Pc, op: Op)
    requires Inside(pc) && HolderInv(w.count, published, pc)
    ensures var m := ThreadMove(w, t, pc, op);
            if Inside(m.pc) then m.words.lock == w.lock && m.done == [] && HolderInv(m.words.count, published, m.pc)
            else
              && m.words.lock == 0 && m.words.count == w.count
              && (|m.done| == 1 ==> Enabled(published, m.done[0]) && w.count == Effect(published, m.done[0]))
              && (|m.done| != 1 ==> m.done == [] && w.count == published)
  {
  }

  lemma LogOne(init: int, log: seq<Event>, e: Event)
    requires Legal(init, log) && Enabled(Replay(init, log), e)
    ensures Legal(init, log + [e]) && Replay(init, log + [e]) == Effect(Replay(init, log), e)
  {
    assert (log + [e])[..|log|] == log;
  }

  lemma StepInside(init: int, s: State, c: Choice)
    requires Inv(init, s) && c.t < |s.pcs| && Inside(s.pcs[c.t])
    ensures MutexInv(Step(s, c)) && DataInv(init, Step(s, c)) && Legal(init, Step(s, c).log)
  {
    var s' := Step(s, c);
    var m := ThreadMove(s.words, c.t, s.pcs[c.t], c.op);
    MoveInside(s.words, Replay(init, s.log), c.t, s.pcs[c.t], c.op);
    assert Alone(s, c.t) && !Free(s) && Alone(s', c.t) && s'.pcs[c.t] == m.pc;
    if |m.done| == 1 {
      LogOne(init, s.log, m.done[0]);
      assert m.done == [m.done[0]];
    } else {
      assert s'.log == s.log;
    }
    assert !Inside(m.pc) ==> Free(s');
    assert Inside(m.pc) ==> !Free(s');
  }

  lemma StepOutside(init: int, s: State, c: Choice)
    requires Inv(init, s) && c.t < |s.pcs| && !Inside(s.pcs[c.t])
    ensures MutexInv(Step(s, c)) && DataInv(init, Step(s, c)) && Legal(init, Step(s, c).log)
  {
    var s' := Step(s, c);
    MoveOutside(s.words, c.t, s.pcs[c.t], c.op);
    assert s'.log == s.log;
    if Inside(s'.pcs[c.t]) {
      assert Free(s) && Alone(s', c.t) && !Free(s');
    } else {
      assert forall u :: 0 <= u < |s.pcs| ==> Inside(s'.pcs[u]) == Inside(s.pcs[u]);
      assert forall u :: 0 <= u < |s.pcs| && Inside(s'.pcs[u]) ==> s'.pcs[u] == s.pcs[u] && Alone(s, u) && Alone(s', u);
      assert Free(s') <==> Free(s);
    }
  }

  lemma StepKeepsInv(init: int, s: State, c: Choice)
    requires Inv(init, s)
    ensures Inv(init, Step(s, c))
  {
    if c.t < |s.pcs| {
      var m := ThreadMove(s.words, c.t, s.pcs[c.t], c.op);
      WaitersUpdate(s.pcs, c.t, m.pc);
      MoveWaiting(s.words, c.t, s.pcs[c.t], c.op);
      if Inside(s.pcs[c.t]) { StepInside(init, s, c); } else { StepOutside(init, s, c); }
    }
  }

  lemma {:induction false} RunInv(threads: nat, init: int, schedule: seq<Choice>)
    ensures Inv(init, Run(threads, init, schedule)) && |Run(threads, init, schedule).pcs| == threads
  {
    if schedule == [] {
      NoWaiters(threads);
    } else {
      var before := schedule[..|schedule| - 1];
      RunInv(threads, init, before);
      StepKeepsInv(init, Run(threads, init, before), schedule[|schedule| - 1]);
    }
  }

  // ----- what is logged is what was called -----

  /** The operations that thread t has begun, in order: the ones chosen while it was idle. */
  function Begun(threads: nat, init: int, schedule: seq<Choice>, t: nat): seq<Op> {
    if schedule == [] then []
    else
      var before, c := schedule[..|schedule| - 1], schedule[|schedule| - 1];
      var s := Run(threads, init, before);
      Begun(threads, init, before, t) + if c.t == t < |s.pcs| && s.pcs[t].Idle? then [c.op] else []
  }

  /** The events of thread t. */
  function EventsOf(log: seq<Event>, t: nat): seq<Event> {
    if log == [] then []
    else EventsOf(log[..|log| - 1], t) + if log[|log| - 1].thread == t then [log[|log| - 1]] else []
  }

  /** The event reports the operation. */
  predicate Reports(e: Event, op: Op) {
    match op
    case Signal(i) => e.Signalled? && e.amount == i
    case Wait(i) => e.Waited? && e.amount == i
    case Count => e.Counted?
  }

  /** The thread is in the middle of the operation. */
  predicate Performs(pc: Pc, op: Op) {
    match op
    case Signal(i) => (pc.SignalLock? || pc.SignalLoad? || pc.SignalStore? || pc.SignalUnlock?) && pc.i == i
    case Wait(i) => (pc.WaitEnter? || pc.WaitLock? || pc.WaitTest? || pc.WaitLoad? || pc.WaitStore? || pc.WaitLeave?
                     || pc.WaitUnlock? || pc.WaitRetry?) && pc.i == i
    case Count => pc.CountLock? || pc.CountLoad? || pc.CountUnlock?
  }

  /** The events of a thread report the operations it has begun, in order, all but the one in progress. */
  predicate Faithful(begun: seq<Op>, events: seq<Event>, pc: Pc) {
    && |begun| == |events| + (if pc.Idle? then 0 else 1)
    && (forall i :: 0 <= i < |events| ==> Reports(events[i], begun[i]))
    && (!pc.Idle? ==> Performs(pc, begun[|events|]))
  }

  lemma MoveReports(w: Words, t: nat, pc: Pc, op: Op, doing: Op)
    requires if pc.Idle? then op == doing else Performs(pc, doing)
    ensures var m := ThreadMove(w, t, pc, op);
            if m.pc.Idle? then |m.done| == 1 && m.done[0].thread == t && Reports(m.done[0], doing)
            else m.done == [] && Performs(m.pc, doing)
  {
  }

  lemma EventsPush(log: seq<Event>, e: Event, t: nat)
    ensures EventsOf(log + [e], t) == EventsOf(log, t) + if e.thread == t then [e] else []
  {
    assert (log + [e])[..|log|] == log;
  }

  lemma MoveThread(w: Words, t: nat, pc: Pc, op: Op)
    ensures var m := ThreadMove(w, t, pc, op); m.done == [] || (|m.done| == 1 && m.done[0].thread == t)
  {
  }

  lemma EventsMore(log: seq<Event>, done: seq<Event>, t: nat)
    requires done == [] || |done| == 1
    ensures EventsOf(log + done, t)
         == EventsOf(log, t) + if done != [] && done[0].thread == t then done else []
  {
    if done == [] {
      assert log + done == log;
    } else {
      assert done == [done[0]];
      EventsPush(log, done[0], t);
    }
  }

  /** One move of the thread itself. */
  lemma OwnMove(begun: seq<Op>, events: seq<Event>, pc: Pc, w: Words, t: nat, op: Op)
    requires Faithful(begun, events, pc)
    ensures var m := ThreadMove(w, t, pc, op);
            Faithful(begun + (if pc.Idle? then [op] else []), events + m.done, m.pc)
  {
    MoveReports(w, t, pc, op, if pc.Idle? then op else begun[|events|]);
    hide ThreadMove, Reports, Performs;
  }

  lemma StepFaithful(begun: seq<Op>, s: State, c: Choice, t: nat)
    requires t < |s.pcs| && c.t < |s.pcs| && Faithful(begun, EventsOf(s.log, t), s.pcs[t])
    ensures Faithful(begun + (if c.t == t && s.pcs[t].Idle? then [c.op] else []), EventsOf(Step(s, c).log, t),
                     Step(s, c).pcs[t])
  {
    hide ThreadMove, Faithful, EventsOf;
    var m := ThreadMove(s.words, c.t, s.pcs[c.t], c.op);
    MoveThread(s.words, c.t, s.pcs[c.t], c.op);
    EventsMore(s.log, m.done, t);
    if c.t == t {
      OwnMove(begun, EventsOf(s.log, t), s.pcs[t], s.words, t, c.op);
      assert m.done != [] || EventsOf(s.log, t) + [] == EventsOf(s.log, t) + m.done;
    } else {
      assert begun + [] == begun && EventsOf(s.log, t) + [] == EventsOf(s.log, t);
    }
  }

  /** In every run, and for every thread. */
  lemma {:induction false} LogIsFaithful(threads: nat, init: int, schedule: seq<Choice>, t: nat)
    requires t < threads
    ensures |Run(threads, init, schedule).pcs| == threads
    ensures var s := Run(threads, init, schedule);
            Faithful(Begun(threads, init, schedule, t), EventsOf(s.log, t), s.pcs[t])
  {
    RunInv(threads, init, schedule);
    if schedule != [] {
      hide ThreadMove, Inv, EventsOf, Faithful;
      var before, c := schedule[..|schedule| - 1], schedule[|schedule| - 1];
      RunInv(threads, init, before);
      LogIsFaithful(threads, init, before, t);
      if c.t < threads {
        StepFaithful(Begun(threads, init, before, t), Run(threads, init, before), c, t);
      } else {
        assert Begun(threads, init, before, t) + [] == Begun(threads, init, before, t);
      }
    } else {
      NothingFaithful(threads, t);
    }
  }

  lemma NothingFaithful(threads: nat, t: nat)
    requires t < threads
    ensures Faithful([], EventsOf([], t), seq(threads, _ => Idle)[t])
  {
  }

  // ----- the theorems -----

  /** Whatever the interleaving, the completed operations in the order of their completion are a
      history of the atomic semaphore: the events of each thread report the operations it has begun, one for
      each that it has completed; a wait completes only when the count covers its amount, a count query
      returns the current value, and whenever the spinlock is free the shared count is the value the history
      leads to.  `waiting` is exact in every state. */
  lemma RunIsLinearizable(threads: nat, init: int, schedule: seq<Choice>)
    ensures var s := Run(threads, init, schedule);
            && Legal(init, s.log)
            && (s.words.lock == 0 ==> s.words.count == Replay(init, s.log))
            && s.words.waiting == Waiters(s.pcs)
    ensures |Run(threads, init, schedule).pcs| == threads
    ensures var s := Run(threads, init, schedule);
            forall t: nat :: t < threads ==> Faithful(Begun(threads, init, schedule, t), EventsOf(s.log, t), s.pcs[t])
  {
    RunInv(threads, init, schedule);
    hide Run, Begun, EventsOf, Faithful;
    forall t: nat | t < threads
      ensures Faithful(Begun(threads, init, schedule, t), EventsOf(Run(threads, init, schedule).log, t),
                       Run(threads, init, schedule).pcs[t])
    {
      LogIsFaithful(threads, init, schedule, t);
    }
  }

  /** At most one thread is between a successful swap and its release, and the word says whether. */
  lemma SpinlockExcludes(threads: nat, init: int, schedule: seq<Choice>, t: nat, u: nat)
    requires t < threads && u < threads
    ensures |Run(threads, init, schedule).pcs| == threads
    ensures var s := Run(threads, init, schedule);
            && (Inside(s.pcs[t]) && Inside(s.pcs[u]) ==> t == u)
            && (Inside(s.pcs[t]) ==> s.words.lock != 0)
  {
    RunInv(threads, init, schedule);
    var s := Run(threads, init, schedule);
    assert Inside(s.pcs[t]) ==> Alone(s, t);
  }

  function Signals(log: seq<Event>): int {
    if log == [] then 0
    else Signals(log[..|log| - 1]) + (match log[|log| - 1] case Signalled(_, i) => i case _ => 0)
  }

  function Waits(log: seq<Event>): int {
    if log == [] then 0
    else Waits(log[..|log| - 1]) + (match log[|log| - 1] case Waited(_, i) => i case _ => 0)
  }

  lemma {:induction false} ReplayConserves(init: int, log: seq<Event>)
    ensures Replay(init, log) == init + Signals(log) - Waits(log)
  {
    if log != [] { ReplayConserves(init, log[..|log| - 1]); }
  }

  /** Conservation: a free semaphore holds its initial count plus all completed signals minus all
      completed waits. */
  lemma CountIsConserved(threads: nat, init: int, schedule: seq<Choice>)
    ensures var s := Run(threads, init, schedule);
            s.words.lock == 0 ==> s.words.count == init + Signals(s.log) - Waits(s.log)
  {
    RunInv(threads, init, schedule);
    ReplayConserves(init, Run(threads, init, schedule).log);
  }

  predicate SignalsUp(op: Op) { op.Signal? ==> op.amount >= 0 }

  predicate UpPc(pc: Pc) {
    pc.SignalLock? || pc.SignalLoad? || pc.SignalStore? || pc.SignalUnlock? ==> pc.i >= 0
  }

  lemma MoveSignalsUp(w: Words, published: int, t: nat, pc: Pc, op: Op)
    requires SignalsUp(op) && UpPc(pc) && published >= 0
    requires Inside(pc) ==> HolderInv(w.count, published, pc)
    ensures var m := ThreadMove(w, t, pc, op);
            UpPc(m.pc) && (m.done == [] || (|m.done| == 1 && Effect(published, m.done[0]) >= 0))
  {
  }

  ghost predicate AllUp(init: int, s: State) {
    Replay(init, s.log) >= 0 && forall t :: 0 <= t < |s.pcs| ==> UpPc(s.pcs[t])
  }

  lemma StepSignalsUp(init: int, s: State, c: Choice)
    requires Inv(init, s) && AllUp(init, s) && SignalsUp(c.op)
    ensures AllUp(init, Step(s, c))
  {
    if c.t < |s.pcs| {
      var m := ThreadMove(s.words, c.t, s.pcs[c.t], c.op);
      MoveSignalsUp(s.words, Replay(init, s.log), c.t, s.pcs[c.t], c.op);
      if m.done == [] {
        assert s.log + m.done == s.log;
      } else {
        assert (s.log + m.done)[..|s.log|] == s.log;
      }
    }
  }

  lemma {:induction false} PendingSignalsUp(threads: nat, init: int, schedule: seq<Choice>)
    requires init >= 0 && forall k :: 0 <= k < |schedule| ==> SignalsUp(schedule[k].op)
    ensures AllUp(init, Run(threads, init, schedule))
  {
    if schedule != [] {
      var before := schedule[..|schedule| - 1];
      PendingSignalsUp(threads, init, before);
      RunInv(threads, init, before);
      StepSignalsUp(init, Run(threads, init, before), schedule[|schedule| - 1]);
    }
  }

  /** The count is never negative, not even while an operation is half done, provided it starts
      non-negative and nobody signals a negative amount.  Waits may ask for any amount. */
  lemma CountNeverNegative(threads: nat, init: int, schedule: seq<Choice>)
    requires init >= 0 && forall k :: 0 <= k < |schedule| ==> SignalsUp(schedule[k].op)
    ensures Run(threads, init, schedule).words.count >= 0
  {
    RunInv(threads, init, schedule);
    PendingSignalsUp(threads, init, schedule);
    var s := Run(threads, init, schedule);
    if t :| 0 <= t < |s.pcs| && Inside(s.pcs[t]) {
      assert HolderInv(s.words.count, Replay(init, s.log), s.pcs[t]) && UpPc(s.pcs[t]);
    } else {
      assert Free(s);
    }
  }

  /** A wait is logged only by a thread that read `count >= i` while it held the lock. */
  lemma WaitSawEnough(threads: nat, init: int, schedule: seq<Choice>, c: Choice)
    ensures var s := Run(threads, init, schedule);
            var s' := Step(s, c);
            forall i :: s'.log == s.log + [Waited(c.t, i)] ==>
              Replay(init, s.log) >= i && s.words.lock != 0 && s'.words.count == Replay(init, s.log) - i
  {
    RunInv(threads, init, schedule);
    var s := Run(threads, init, schedule);
    forall i | Step(s, c).log == s.log + [Waited(c.t, i)]
      ensures Replay(init, s.log) >= i && s.words.lock != 0 && Step(s, c).words.count == Replay(init, s.log) - i
    {
      assert c.t < |s.pcs| && Step(s, c).log[|s.log|] == Waited(c.t, i);
      assert s.pcs[c.t] == WaitUnlock(i);
      assert HolderInv(s.words.count, Replay(init, s.log), s.pcs[c.t]);
    }
  }

  // ----- the same protocol on mutable words -----

  class Machine {
    var lock: int
    var count: int
    var waiting: int
    var pcs: seq<Pc>
    var log: seq<Event>

    ghost function Snapshot(): State
      reads this
    {
      State(Words(lock, count, waiting), pcs, log)
    }

    constructor (threads: nat, init: int)
      ensures Snapshot() == Initial(threads, init)
    {
      lock, count, waiting, log := 0, init, 0, [];
      pcs := seq(threads, _ => Idle);
    }

    method SpinlockTrylock() returns (res: int)
      modifies this`lock
      ensures res == old(lock) && lock == -1
    {
      res := lock;
      lock := -1;
    }

    method Advance(c: Choice)
      requires c.t < |pcs|
      modifies this
      ensures Snapshot() == Step(old(Snapshot()), c)
    {
      var next := pcs[c.t];
      match pcs[c.t] {
        case Idle => next := Begin(c.op);
        case SignalLock(i) =>
          var busy := SpinlockTrylock();
          if busy == 0 { next := SignalLoad(i); }
        case SignalLoad(i) => next := SignalStore(i, count);
        case SignalStore(i, tmp) => count := tmp + i; next := SignalUnlock(i);
        case SignalUnlock(i) => lock := 0; log := log + [Signalled(c.t, i)]; next := Idle;
        case WaitEnter(i) => waiting := waiting + 1; next := WaitLock(i);
        case WaitLock(i) =>
          var busy := SpinlockTrylock();
          if busy == 0 { next := WaitTest(i); }
        case WaitTest(i) => next := if count >= i then WaitLoad(i) else WaitRetry(i);
        case WaitLoad(i) => next := WaitStore(i, count);
        case WaitStore(i, tmp) => count := tmp - i; next := WaitLeave(i);
        case WaitLeave(i) => waiting := waiting - 1; next := WaitUnlock(i);
        case WaitUnlock(i) => lock := 0; log := log + [Waited(c.t, i)]; next := Idle;
        case WaitRetry(i) => lock := 0; next := WaitLock(i);
        case CountLock =>
          var busy := SpinlockTrylock();
          if busy == 0 { next := CountLoad; }
        case CountLoad => next := CountUnlock(count);
        case CountUnlock(tmp) => lock := 0; log := log + [Counted(c.t, tmp)]; next := Idle;
      }
      assert pcs[c.t := pcs[c.t]] == pcs;
      pcs := pcs[c.t := next];
    }

    method Execute(threads: nat, init: int, schedule: seq<Choice>)
      requires Snapshot() == Initial(threads, init)
      requires forall k :: 0 <= k < |schedule| ==> schedule[k].t < threads
      modifies this
      ensures Snapshot() == Run(threads, init, schedule)
      ensures Legal(init, log) && (lock == 0 ==> count == init + Signals(log) - Waits(log))
    {
      for k := 0 to |schedule|
        invariant Snapshot() == Run(threads, init, schedule[..k]) && |pcs| == threads
      {
        RunInv(threads, init, schedule[..k]);
        Advance(schedule[k]);
        assert schedule[..k + 1][..k] == schedule[..k];
      }
      assert schedule[..|schedule|] == schedule;
      RunIsLinearizable(threads, init, schedule);
      CountIsConserved(threads, init, schedule);
    }
  }
}
