/** Deferred functions never block each other: some step is always open, and all of them can finish. */
module LatchProgress {
  import opened Wrappers
  import opened Latch

  /** The step a deferred function takes next: drop its guard, finish or run a hook, or return. */
  function NextStep(work: Work, l: nat): Step
    requires work.Running?
  {
    if work.guard.Some? then DropParentGuard(l)
    else if work.current.Some? then FinishHook(l)
    else if work.todo != [] then RunHook(l)
    else Return(l)
  }

  /** Only a hook that waits for its child's deferred function can hold a latch up. */
  predicate CanAdvance(s: System, l: nat) {
    && IsRunning(s, l)
    && var work := s.latches[l].work;
    work.guard.None? && work.current.Some? ==>
      var h := work.current.value;
      && h < |s.hooks| && s.hooks[h].action.TriggerChild? && s.hooks[h].action.child < |s.latches|
      && s.latches[s.hooks[h].action.child].work.Finished?
  }

  lemma {:induction false} HighestRunning(s: System, l: nat) returns (top: nat)
    requires IsRunning(s, l)
    ensures l <= top && IsRunning(s, top) && forall k: nat :: k > top ==> !IsRunning(s, k)
    decreases |s.latches| - l
  {
    if k: nat :| k > l && IsRunning(s, k) {
      top := HighestRunning(s, k);
    } else {
      top := l;
    }
  }

  /** Children come after their parents, so the highest running latch waits for nobody. */
  lemma HighestCanAdvance(s: System, l: nat)
    requires Inv(s) && IsRunning(s, l) && forall k: nat :: k > l ==> !IsRunning(s, k)
    ensures CanAdvance(s, l)
  {
    assert LatchOk(s, l);
    var work := s.latches[l].work;
    if work.current.Some? {
      assert HookOk(s, work.current.value);
      var c := s.hooks[work.current.value].action.child;
      assert LatchOk(s, c) && !IsRunning(s, c);
    }
  }

  /** In every reachable state with a deferred function under way, one of them can take its next step. */
  lemma NeverStuck(steps: seq<Step>, l: nat) returns (top: nat)
    requires IsRunning(Run(steps), l)
    ensures CanAdvance(Run(steps), top)
  {
    top := HighestRunning(Run(steps), l);
    HighestCanAdvance(Run(steps), top);
  }

  // ---- Every such step brings the end nearer ----

  function HookWeight(hook: Hook): nat {
    match hook.phase
    case Waiting => 2
    case Queued => 2
    case InProgress => 1
    case _ => 0
  }

  function LatchWeight(latch: Shared): nat {
    match latch.work
    case Idle => 2
    case Running(guard, _, _) => if guard.Some? then 2 else 1
    case Finished => 0
  }

  function HookSum(hooks: seq<Hook>): nat {
    if hooks == [] then 0 else HookSum(hooks[..|hooks| - 1]) + HookWeight(hooks[|hooks| - 1])
  }

  function LatchSum(latches: seq<Shared>): nat {
    if latches == [] then 0 else LatchSum(latches[..|latches| - 1]) + LatchWeight(latches[|latches| - 1])
  }

  /** How much work is left if nobody starts anything new. */
  function Remaining(s: System): nat { HookSum(s.hooks) + LatchSum(s.latches) }

  ghost predicate HooksNoHeavier(a: seq<Hook>, b: seq<Hook>) {
    |a| == |b| && forall i: nat :: i < |a| ==> HookWeight(a[i]) <= HookWeight(b[i])
  }

  ghost predicate LatchesNoHeavier(a: seq<Shared>, b: seq<Shared>) {
    |a| == |b| && forall i: nat :: i < |a| ==> LatchWeight(a[i]) <= LatchWeight(b[i])
  }

  lemma {:induction false} HookSumOrdered(a: seq<Hook>, b: seq<Hook>, i: nat)
    requires HooksNoHeavier(a, b)
    ensures HookSum(a) <= HookSum(b)
    ensures i < |a| && HookWeight(a[i]) < HookWeight(b[i]) ==> HookSum(a) < HookSum(b)
    decreases |a|
  {
    if a != [] {
      HookSumOrdered(a[..|a| - 1], b[..|b| - 1], i);
    }
  }

  lemma {:induction false} LatchSumOrdered(a: seq<Shared>, b: seq<Shared>, i: nat)
    requires LatchesNoHeavier(a, b)
    ensures LatchSum(a) <= LatchSum(b)
    ensures i < |a| && LatchWeight(a[i]) < LatchWeight(b[i]) ==> LatchSum(a) < LatchSum(b)
    decreases |a|
  {
    if a != [] {
      LatchSumOrdered(a[..|a| - 1], b[..|b| - 1], i);
    }
  }

  lemma CriticalNoHeavier(s: System, l: nat)
    requires Inv(s) && l < |s.latches|
    ensures HooksNoHeavier(Critical(s, l).hooks, s.hooks) && LatchesNoHeavier(Critical(s, l).latches, s.latches)
  {
    assert LatchOk(s, l);
    if s.latches[l].hooks.Some? {
      var listed := s.latches[l].hooks.value;
      forall h: nat | h < |s.hooks| && h in listed ensures s.hooks[h].phase.Waiting? {
        HooksAreMembers(s, listed, l, Waiting, h);
      }
    }
  }

  lemma DropLowers(s: System, l: nat)
    requires Inv(s) && IsRunning(s, l) && s.latches[l].work.guard.Some?
    ensures Remaining(Do(s, DropParentGuard(l))) < Remaining(s)
  {
    var s' := Do(s, DropParentGuard(l));
    assert LatchOk(s, l) && HookOk(s, s.latches[l].work.guard.value);
    HookSumOrdered(s'.hooks, s.hooks, 0);
    LatchSumOrdered(s'.latches, s.latches, l);
  }

  lemma AdvancedIsLighter(s: System, s1: System, l: nat, phase: Phase)
    requires CanRun(s1, l) && s1.latches[l].work.todo[0] < |s1.hooks| && (phase.InProgress? || phase.Ran?)
    requires HooksNoHeavier(s1.hooks, s.hooks) && LatchesNoHeavier(s1.latches, s.latches)
    requires s.hooks[s1.latches[l].work.todo[0]].phase.Queued?
    ensures Remaining(Advanced(s1, l, phase)) < Remaining(s)
  {
    var s' := Advanced(s1, l, phase);
    HookSumOrdered(s'.hooks, s.hooks, s1.latches[l].work.todo[0]);
    LatchSumOrdered(s'.latches, s.latches, l);
  }

  lemma RunLowers(s: System, l: nat)
    requires Inv(s) && CanRun(s, l)
    ensures Remaining(Do(s, RunHook(l))) < Remaining(s)
  {
    var h := s.latches[l].work.todo[0];
    assert LatchOk(s, l);
    assert HookOk(s, h);
    var action := s.hooks[h].action;
    if action.TriggerChild? && s.latches[action.child].live && !s.latches[action.child].triggered {
      CriticalNoHeavier(s, action.child);
      CriticalLeaves(s, action.child, l, h);
      RunHookIsAdvance(s, l, Critical(s, action.child), InProgress);
      AdvancedIsLighter(s, Critical(s, action.child), l, InProgress);
    } else {
      RunHookIsAdvance(s, l, s, Ran);
      AdvancedIsLighter(s, s, l, Ran);
    }
  }

  lemma FinishLowers(s: System, l: nat)
    requires Inv(s) && CanAdvance(s, l) && s.latches[l].work.guard.None? && s.latches[l].work.current.Some?
    ensures Remaining(Do(s, FinishHook(l))) < Remaining(s)
  {
    var s', h := Do(s, FinishHook(l)), s.latches[l].work.current.value;
    assert LatchOk(s, l) && HookOk(s, h);
    HookSumOrdered(s'.hooks, s.hooks, h);
    LatchSumOrdered(s'.latches, s.latches, l);
  }

  lemma ReturnLowers(s: System, l: nat)
    requires Inv(s) && l < |s.latches| && s.latches[l].work == Running(None, [], None)
    ensures Remaining(Do(s, Return(l))) < Remaining(s)
  {
    var s' := Do(s, Return(l));
    HookSumOrdered(s'.hooks, s.hooks, 0);
    LatchSumOrdered(s'.latches, s.latches, l);
  }

  lemma AdvanceLowers(s: System, l: nat)
    requires Inv(s) && CanAdvance(s, l)
    ensures Remaining(Do(s, NextStep(s.latches[l].work, l))) < Remaining(s)
  {
    var work := s.latches[l].work;
    if work.guard.Some? {
      DropLowers(s, l);
    } else if work.current.Some? {
      FinishLowers(s, l);
    } else if work.todo != [] {
      RunLowers(s, l);
    } else {
      ReturnLowers(s, l);
    }
  }

  lemma StepNearer(steps: seq<Step>, l: nat) returns (longer: seq<Step>)
    requires IsRunning(Run(steps), l)
    ensures steps <= longer && Remaining(Run(longer)) < Remaining(Run(steps))
  {
    var top := NeverStuck(steps, l);
    var step := NextStep(Run(steps).latches[top].work, top);
    AdvanceLowers(Run(steps), top);
    Extends(steps, step);
    longer := steps + [step];
  }

  ghost predicate NoneRunning(s: System) { forall l: nat :: !IsRunning(s, l) }

  /** Every run can be continued to one in which all the deferred functions under way have ended. */
  lemma {:induction false} EveryRunCanFinish(steps: seq<Step>) returns (all: seq<Step>)
    ensures steps <= all && NoneRunning(Run(all))
    decreases Remaining(Run(steps))
  {
    if NoneRunning(Run(steps)) {
      all := steps;
    } else {
      var l: nat :| IsRunning(Run(steps), l);
      var longer := StepNearer(steps, l);
      all := EveryRunCanFinish(longer);
    }
  }
}
