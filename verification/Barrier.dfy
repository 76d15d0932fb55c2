/** The sense-reversing barrier that the cores share (lib/bsp/include/util.h).

    The protocol is a step system: every thread has a program counter, and one step performs at most
    one access to a shared variable.  Memory is sequentially consistent and fetch-and-add is one step.
    A run is a schedule, that is, a sequence of thread numbers; all theorems range over all schedules. */
module Barrier {

  /** Where a thread is inside its current call.
      Outside: between two calls (or about to flip its sense); Arrive: about to fetch-and-add;
      Reset and Release: the last arrival, about to clear `count` and then to publish the new sense;
      Spin: waiting for `sense` to equal its own sense. */
  datatype Pc = Outside | Arrive | Reset | Release | Spin

  /** `arrived` and `returned` are history: how many fetch-and-adds the thread has done and how many
      calls it has completed. */
  datatype Thread = Thread(pc: Pc, threadSense: bool, arrived: nat, returned: nat)

  /** `count` and `sense` are the shared statics; `round` is history: how often `sense` was published. */
  datatype State = State(count: int, sense: bool, threads: seq<Thread>, round: nat)

  function Initial(ncores: nat): State {
    State(0, false, seq(ncores, _ => Thread(Outside, false, 0, 0)), 0)
  }

  /** A spinning thread that reads the old sense makes no move. */
  predicate Blocked(s: State, t: nat) {
    t < |s.threads| ==> s.threads[t].pc == Spin && s.sense != s.threads[t].threadSense
  }

  /** One step of thread `t`; a number that names no thread is a step that does nothing. */
  function Step(s: State, t: nat): State {
    if t >= |s.threads| then s else
    var me := s.threads[t];
    match me.pc
    case Outside =>
      s.(threads := s.threads[t := me.(pc := Arrive, threadSense := !me.threadSense)])
    case Arrive =>
      var next := if s.count == |s.threads| - 1 then Reset else Spin;
      s.(count := s.count + 1, threads := s.threads[t := me.(pc := next, arrived := me.arrived + 1)])
    case Reset =>
      s.(count := 0, threads := s.threads[t := me.(pc := Release)])
    case Release =>
      s.(sense := me.threadSense, round := s.round + 1,
         threads := s.threads[t := me.(pc := Outside, returned := me.returned + 1)])
    case Spin =>
      if s.sense == me.threadSense then
        s.(threads := s.threads[t := me.(pc := Outside, returned := me.returned + 1)])
      else s
  }

  function Run(ncores: nat, schedule: seq<nat>): State {
    if schedule == [] then Initial(ncores)
    else Step(Run(ncores, schedule[..|schedule| - 1]), schedule[|schedule| - 1])
  }

  // ----- counting -----

  function Arrivals(threads: seq<Thread>, k: nat): nat {
    if threads == [] then 0
    else
      var n := |threads| - 1;
      Arrivals(threads[..n], k) + (if threads[n].arrived == k then 1 else 0)
  }

  lemma {:induction false} ArrivalsUpdate(threads: seq<Thread>, t: nat, th: Thread, k: nat)
    requires t < |threads|
    ensures Arrivals(threads[t := th], k) ==
            Arrivals(threads, k) - (if threads[t].arrived == k then 1 else 0) + (if th.arrived == k then 1 else 0)
  {
    var n := |threads| - 1;
    if t == n {
      assert threads[t := th][..n] == threads[..n];
    } else {
      assert threads[t := th][..n] == threads[..n][t := th];
      ArrivalsUpdate(threads[..n], t, th, k);
    }
  }

  /** Everybody has arrived for the k-th time exactly when the arrivals number all threads. */
  lemma {:induction false} ArrivalsFull(threads: seq<Thread>, k: nat)
    ensures Arrivals(threads, k) <= |threads|
    ensures Arrivals(threads, k) == |threads| <==> forall i :: 0 <= i < |threads| ==> threads[i].arrived == k
  {
    if threads != [] {
      var n := |threads| - 1;
      ArrivalsFull(threads[..n], k);
      assert forall i :: 0 <= i < n ==> threads[..n][i] == threads[i];
    }
  }

  lemma {:induction false} ArrivalsNone(threads: seq<Thread>, k: nat)
    requires forall i :: 0 <= i < |threads| ==> threads[i].arrived != k
    ensures Arrivals(threads, k) == 0
  {
    if threads != [] {
      ArrivalsNone(threads[..|threads| - 1], k);
    }
  }

  // ----- the inductive invariant -----

  predicate Odd(k: nat) { k % 2 == 1 }

  predicate Leading(th: Thread) { th.pc == Reset || th.pc == Release }

  ghost predicate ThreadInv(th: Thread, round: nat) {
    match th.pc
    case Outside => th.arrived == th.returned == round && th.threadSense == Odd(round)
    case Arrive => th.arrived == th.returned == round && th.threadSense != Odd(round)
    case Spin => th.arrived == th.returned + 1 && th.threadSense == Odd(th.arrived) &&
                 (th.arrived == round || th.arrived == round + 1)
    case _ => th.arrived == round + 1 && th.returned == round && th.threadSense == Odd(th.arrived)
  }

  /** All threads but `t` spin, having arrived in the current round. */
  ghost predicate OthersSpin(s: State, t: nat) {
    forall u :: 0 <= u < |s.threads| && u != t ==>
      s.threads[u].pc == Spin && s.threads[u].arrived == s.round + 1
  }

  ghost predicate NobodyLeads(s: State) {
    forall t :: 0 <= t < |s.threads| ==> !Leading(s.threads[t])
  }

  ghost predicate ThreadsInv(s: State) {
    forall t :: 0 <= t < |s.threads| ==> ThreadInv(s.threads[t], s.round)
  }

  /** `count` is full when a leader is about to clear it, and zero before the new sense is published. */
  ghost predicate LeaderInv(s: State) {
    forall t :: 0 <= t < |s.threads| && Leading(s.threads[t]) ==>
      OthersSpin(s, t) && s.count == (if s.threads[t].pc == Reset then |s.threads| else 0)
  }

  /** Without a leader `count` is the number of arrivals of the current round, and somebody is missing. */
  ghost predicate CountInv(s: State) {
    NobodyLeads(s) && |s.threads| > 0 ==> s.count == Arrivals(s.threads, s.round + 1) < |s.threads|
  }

  ghost predicate Inv(s: State) {
    s.sense == Odd(s.round) && ThreadsInv(s) && LeaderInv(s) && CountInv(s)
  }

  lemma InitialInv(ncores: nat)
    ensures Inv(Initial(ncores))
  {
    ArrivalsNone(Initial(ncores).threads, 1);
  }

  /** A thread that moves and a thread that stays keep their own part of the invariant. */
  lemma StepThreadInv(s: State, t: nat)
    requires Inv(s) && t < |s.threads|
    ensures ThreadsInv(Step(s, t)) && Step(s, t).sense == Odd(Step(s, t).round)
  {
    var s' := Step(s, t);
    forall u | 0 <= u < |s'.threads| ensures ThreadInv(s'.threads[u], s'.round) {
      assert ThreadInv(s.threads[u], s.round) && ThreadInv(s.threads[t], s.round);
      assert u != t ==> s'.threads[u] == s.threads[u];
      assert s'.round != s.round ==> OthersSpin(s, t);
    }
  }

  /** A thread that is about to arrive sees no leader. */
  lemma ArriveWithoutLeader(s: State, t: nat)
    requires Inv(s) && t < |s.threads| && s.threads[t].pc == Arrive
    ensures NobodyLeads(s)
  {
    forall u | 0 <= u < |s.threads|
      ensures !Leading(s.threads[u])
    {
      assert Leading(s.threads[u]) ==> OthersSpin(s, u);
    }
  }

  /** The arrival that fills the round finds all others spinning in it. */
  lemma LastArrival(s: State, t: nat)
    requires Inv(s) && NobodyLeads(s) && t < |s.threads| && s.threads[t].pc == Arrive
    requires s.count == |s.threads| - 1
    ensures OthersSpin(Step(s, t), t)
  {
    var s' := Step(s, t);
    assert ThreadInv(s.threads[t], s.round);
    ArrivalsUpdate(s.threads, t, s'.threads[t], s.round + 1);
    ArrivalsFull(s'.threads, s.round + 1);
    forall u | 0 <= u < |s.threads| && u != t
      ensures s'.threads[u].pc == Spin && s'.threads[u].arrived == s.round + 1
    {
      assert s'.threads[u] == s.threads[u] && s'.threads[u].arrived == s.round + 1;
      assert ThreadInv(s.threads[u], s.round) && !Leading(s.threads[u]);
    }
  }

  lemma StepArrive(s: State, t: nat)
    requires Inv(s) && t < |s.threads| && s.threads[t].pc == Arrive
    ensures LeaderInv(Step(s, t)) && CountInv(Step(s, t))
  {
    ArriveWithoutLeader(s, t);
    var s' := Step(s, t);
    if s.count == |s.threads| - 1 {
      LastArrival(s, t);
      assert Leading(s'.threads[t]);
    } else {
      assert ThreadInv(s.threads[t], s.round);
      ArrivalsUpdate(s.threads, t, s'.threads[t], s.round + 1);
      assert NobodyLeads(s');
    }
  }

  lemma StepLead(s: State, t: nat)
    requires Inv(s) && t < |s.threads| && Leading(s.threads[t])
    ensures LeaderInv(Step(s, t)) && CountInv(Step(s, t))
  {
    var s' := Step(s, t);
    assert OthersSpin(s, t) && ThreadInv(s.threads[t], s.round);
    assert forall u :: 0 <= u < |s.threads| && u != t ==> s'.threads[u] == s.threads[u];
    if s.threads[t].pc == Reset {
      assert OthersSpin(s', t) && Leading(s'.threads[t]);
    } else {
      ArrivalsNone(s'.threads, s'.round + 1);
    }
  }

  /** As long as somebody leads, everybody else is blocked. */
  lemma LeaderBlocksOthers(s: State, t: nat, leader: nat)
    requires Inv(s) && t < |s.threads| && leader < |s.threads| && t != leader && Leading(s.threads[leader])
    ensures Step(s, t) == s && s.threads[t].pc == Spin
  {
    assert OthersSpin(s, leader);
    assert ThreadInv(s.threads[t], s.round);
  }

  lemma StepPlain(s: State, t: nat)
    requires Inv(s) && t < |s.threads| && (s.threads[t].pc == Outside || s.threads[t].pc == Spin)
    ensures LeaderInv(Step(s, t)) && CountInv(Step(s, t))
  {
    if leader: nat :| leader < |s.threads| && Leading(s.threads[leader]) {
      LeaderBlocksOthers(s, t, leader);
    } else {
      PlainWithoutLeader(s, t);
    }
  }

  lemma PlainWithoutLeader(s: State, t: nat)
    requires Inv(s) && t < |s.threads| && (s.threads[t].pc == Outside || s.threads[t].pc == Spin) && NobodyLeads(s)
    ensures LeaderInv(Step(s, t)) && CountInv(Step(s, t))
  {
    var s' := Step(s, t);
    PlainStep(s, t);
    ArrivalsUpdate(s.threads, t, s'.threads[t], s.round + 1);
    hide Step, Arrivals, ThreadsInv;
    assert forall u :: 0 <= u < |s.threads| && u != t ==> s'.threads[u] == s.threads[u];
    assert NobodyLeads(s');
  }

  /** Leaving the barrier or beginning a call changes neither the statics nor the arrivals. */
  lemma PlainStep(s: State, t: nat)
    requires t < |s.threads| && (s.threads[t].pc == Outside || s.threads[t].pc == Spin)
    ensures var s' := Step(s, t);
            && s' == s.(threads := s.threads[t := s'.threads[t]])
            && s'.threads[t].arrived == s.threads[t].arrived && !Leading(s'.threads[t])
  {
  }

  lemma StepKeepsInv(s: State, t: nat)
    requires Inv(s)
    ensures Inv(Step(s, t))
  {
    if t < |s.threads| {
      StepThreadInv(s, t);
      match s.threads[t].pc
      case Arrive => StepArrive(s, t);
      case Reset => StepLead(s, t);
      case Release => StepLead(s, t);
      case _ => StepPlain(s, t);
    }
  }

  lemma {:induction false} RunInv(ncores: nat, schedule: seq<nat>)
    ensures Inv(Run(ncores, schedule)) && |Run(ncores, schedule).threads| == ncores
  {
    if schedule == [] {
      InitialInv(ncores);
    } else {
      var before := schedule[..|schedule| - 1];
      RunInv(ncores, before);
      StepKeepsInv(Run(ncores, before), schedule[|schedule| - 1]);
    }
  }

  // ----- safety over all runs -----

  /** No thread returns from its k-th call before every thread has done its k-th fetch-and-add, and no
      two threads are ever more than one round apart. */
  lemma NoEarlyReturn(ncores: nat, schedule: seq<nat>, t: nat, u: nat)
    requires t < ncores && u < ncores
    ensures |Run(ncores, schedule).threads| == ncores
    ensures var ths := Run(ncores, schedule).threads;
            && ths[t].returned <= ths[u].arrived
            && ths[t].arrived <= ths[u].arrived + 1
            && ths[t].returned <= ths[u].returned + 1
  {
    RunInv(ncores, schedule);
    var s := Run(ncores, schedule);
    assert ThreadInv(s.threads[t], s.round) && ThreadInv(s.threads[u], s.round);
    if s.threads[t].arrived == s.round + 1 && s.threads[u].arrived + 1 == s.round {
      assert false;
    }
  }

  /** `count` never leaves 0..ncores, so the static int cannot overflow, and at most one thread at a
      time is past the test that elects the last arrival. */
  lemma CountInRange(ncores: nat, schedule: seq<nat>)
    ensures var s := Run(ncores, schedule);
            && 0 <= s.count <= ncores
            && forall t, u :: 0 <= t < u < |s.threads| ==> !(Leading(s.threads[t]) && Leading(s.threads[u]))
  {
    RunInv(ncores, schedule);
    var s := Run(ncores, schedule);
    ArrivalsFull(s.threads, s.round + 1);
    if t :| 0 <= t < |s.threads| && Leading(s.threads[t]) {
      assert s.threads[t].pc == Reset || s.threads[t].pc == Release;
    }
  }

  // ----- progress over all runs -----

  /** A state in which every thread is stuck spinning is unreachable. */
  lemma NeverAllBlocked(ncores: nat, schedule: seq<nat>)
    requires ncores > 0
    ensures exists t: nat :: t < ncores && !Blocked(Run(ncores, schedule), t)
  {
    RunInv(ncores, schedule);
    var s := Run(ncores, schedule);
    if forall t: nat :: t < ncores ==> Blocked(s, t) {
      forall t | 0 <= t < |s.threads| ensures s.threads[t].arrived == s.round + 1 && !Leading(s.threads[t]) {
        assert Blocked(s, t);
        assert ThreadInv(s.threads[t], s.round);
      }
      ArrivalsFull(s.threads, s.round + 1);
      assert false;
    }
  }

  /** How many steps of a schedule were made by threads that were not blocked. */
  function Moves(ncores: nat, schedule: seq<nat>): nat {
    if schedule == [] then 0
    else
      var before := schedule[..|schedule| - 1];
      var t := schedule[|schedule| - 1];
      Moves(ncores, before) + (if Blocked(Run(ncores, before), t) || t >= ncores then 0 else 1)
  }

  /** The work one thread has done: four moves a call at most. */
  function Work(th: Thread): nat {
    4 * th.returned + (match th.pc case Outside => 0 case Arrive => 1 case Release => 3 case _ => 2)
  }

  function TotalWork(threads: seq<Thread>): nat {
    if threads == [] then 0 else TotalWork(threads[..|threads| - 1]) + Work(threads[|threads| - 1])
  }

  lemma {:induction false} TotalWorkUpdate(threads: seq<Thread>, t: nat, th: Thread)
    requires t < |threads|
    ensures TotalWork(threads[t := th]) == TotalWork(threads) - Work(threads[t]) + Work(th)
  {
    var n := |threads| - 1;
    if t == n {
      assert threads[t := th][..n] == threads[..n];
    } else {
      assert threads[t := th][..n] == threads[..n][t := th];
      TotalWorkUpdate(threads[..n], t, th);
    }
  }

  lemma {:induction false} TotalWorkBound(threads: seq<Thread>, each: nat)
    requires forall t :: 0 <= t < |threads| ==> Work(threads[t]) <= each
    ensures TotalWork(threads) <= |threads| * each
  {
    if threads != [] {
      TotalWorkBound(threads[..|threads| - 1], each);
      assert |threads| * each == (|threads| - 1) * each + each;
    }
  }

  lemma StepAddsWork(s: State, t: nat)
    requires t < |s.threads|
    ensures TotalWork(Step(s, t).threads) >= TotalWork(s.threads) + (if Blocked(s, t) then 0 else 1)
  {
    var th := Step(s, t).threads[t];
    assert Step(s, t).threads == s.threads[t := th];
    TotalWorkUpdate(s.threads, t, th);
  }

  lemma {:induction false} MovesAreWork(ncores: nat, schedule: seq<nat>)
    ensures Moves(ncores, schedule) <= TotalWork(Run(ncores, schedule).threads)
  {
    if schedule != [] {
      var before := schedule[..|schedule| - 1];
      var t := schedule[|schedule| - 1];
      MovesAreWork(ncores, before);
      RunInv(ncores, before);
      if t < ncores {
        StepAddsWork(Run(ncores, before), t);
      }
    }
  }

  /** Nobody is left behind: however the threads are interleaved, a run with m moves has taken every
      single thread through at least m / (4 * ncores) - 2 complete calls. */
  lemma EveryThreadAdvances(ncores: nat, schedule: seq<nat>, t: nat)
    requires t < ncores
    ensures |Run(ncores, schedule).threads| == ncores
    ensures Moves(ncores, schedule) <= ncores * (4 * (Run(ncores, schedule).threads[t].returned + 2))
  {
    RunInv(ncores, schedule);
    var ths := Run(ncores, schedule).threads;
    forall u | 0 <= u < |ths| ensures Work(ths[u]) <= 4 * (ths[t].returned + 2) {
      NoEarlyReturn(ncores, schedule, u, t);
    }
    TotalWorkBound(ths, 4 * (ths[t].returned + 2));
    MovesAreWork(ncores, schedule);
  }

  // ----- the same protocol on mutable variables -----

  /** The shared statics and the thread-local variables as fields that each step assigns in place. */
  class Machine {
    var count: int
    var sense: bool
    var threads: seq<Thread>
    var round: nat

    ghost function Snapshot(): State
      reads this
    {
      State(count, sense, threads, round)
    }

    constructor (ncores: nat)
      ensures Snapshot() == Initial(ncores)
    {
      count, sense, round := 0, false, 0;
      threads := seq(ncores, _ => Thread(Outside, false, 0, 0));
    }

    /** One step of `barrier` in thread `t`. */
    method Advance(t: nat)
      requires t < |threads|
      modifies this
      ensures Snapshot() == Step(old(Snapshot()), t)
    {
      var me := threads[t];
      match me.pc {
        case Outside =>
          me := me.(threadSense := !me.threadSense, pc := Arrive);
        case Arrive =>
          var seen := count;
          count := count + 1;
          me := me.(arrived := me.arrived + 1, pc := if seen == |threads| - 1 then Reset else Spin);
        case Reset =>
          count := 0;
          me := me.(pc := Release);
        case Release =>
          sense := me.threadSense;
          round := round + 1;
          me := me.(returned := me.returned + 1, pc := Outside);
        case Spin =>
          if sense == me.threadSense {
            me := me.(returned := me.returned + 1, pc := Outside);
          }
      }
      threads := threads[t := me];
    }

    /** Any interleaving, executed on the variables, is a run of the step system. */
    method Execute(ncores: nat, schedule: seq<nat>)
      requires Snapshot() == Initial(ncores)
      requires forall k :: 0 <= k < |schedule| ==> schedule[k] < ncores
      modifies this
      ensures Snapshot() == Run(ncores, schedule) && Inv(Snapshot())
    {
      for k := 0 to |schedule|
        invariant Snapshot() == Run(ncores, schedule[..k]) && |threads| == ncores
      {
        RunInv(ncores, schedule[..k]);
        Advance(schedule[k]);
        assert schedule[..k + 1][..k] == schedule[..k];
      }
      assert schedule[..|schedule|] == schedule;
      RunInv(ncores, schedule);
    }
  }
}
