/**
 The cancellation latch as a transition system (latch.rs). A step is one lock-protected section,
 or one uninterrupted piece of a deferred function; threads interleave steps freely.
 */
module Latch {
  import opened Wrappers

  /** What a hook does when it runs. */
  datatype Action = User | TriggerChild(child: nat)

  /** Where a registered hook is: still listed, dropped, taken by a trigger, running, or run. */
  datatype Phase = Waiting | Discarded | Queued | InProgress | Ran

  datatype Hook = Hook(latch: nat, action: Action, phase: Phase, runs: nat, guardDropped: bool)

  /** The deferred function of the trigger that won: not made yet, under way, or returned. */
  datatype Work = Idle | Running(guard: Option<nat>, todo: seq<nat>, current: Option<nat>) | Finished

  /** One latch; `live` while a handle exists, `returned` once its first handle has reached the caller. */
  datatype Shared = Shared(
    triggered: bool,
    wakeOpen: bool,
    hooks: Option<seq<nat>>,
    parentGuard: Option<nat>,
    work: Work,
    live: bool,
    returned: bool)

  datatype System = System(latches: seq<Shared>, hooks: seq<Hook>)

  datatype Step =
    | NewLatch
    | Trigger(latch: nat)
    | DropParentGuard(latch: nat)
    | RunHook(latch: nat)
    | FinishHook(latch: nat)
    | Return(latch: nat)
    | OnCancel(latch: nat)
    | NewChild(latch: nat)
    | AttachGuard(hook: nat)
    | DropGuard(hook: nat)
    | DropLatch(latch: nat)

  const FRESH := Shared(false, true, Some([]), None, Idle, true, true)

  /** A child latch before its guard is attached and it is handed out. */
  function Born(triggered: bool): Shared {
    if triggered then Shared(true, false, None, None, Finished, true, false) else FRESH.(returned := false)
  }

  /** The caller holds a handle to the latch. */
  predicate Held(s: System, l: nat) { l < |s.latches| && s.latches[l].live && s.latches[l].returned }

  // ---- Steps ----

  function SetLatch(s: System, l: nat, latch: Shared): System
    requires l < |s.latches|
  {
    s.(latches := s.latches[l := latch])
  }

  function SetHook(s: System, h: nat, hook: Hook): System
    requires h < |s.hooks|
  {
    s.(hooks := s.hooks[h := hook])
  }

  /** The listed hooks change phase together. */
  function Move(hooks: seq<Hook>, listed: seq<nat>, phase: Phase): (moved: seq<Hook>)
    ensures |moved| == |hooks|
    ensures forall h: nat :: h < |hooks| ==> moved[h] == if h in listed then hooks[h].(phase := phase) else hooks[h]
  {
    seq(|hooks|, h requires 0 <= h < |hooks| => if h in listed then hooks[h].(phase := phase) else hooks[h])
  }

  /** The section under the hook lock: the first trigger takes the hooks and the parent guard. */
  function Critical(s: System, l: nat): System
    requires l < |s.latches|
  {
    var latch := s.latches[l];
    if latch.triggered || latch.hooks.None? then s
    else
      var listed := latch.hooks.value;
      System(s.latches[l := latch.(triggered := true, wakeOpen := false, hooks := None, parentGuard := None,
                                   work := Running(latch.parentGuard, listed, None))],
             Move(s.hooks, listed, Queued))
  }

  function IndexOf(list: seq<nat>, x: nat): (i: nat)
    requires x in list
    ensures i < |list| && list[i] == x
  {
    if list[0] == x then 0 else 1 + IndexOf(list[1..], x)
  }

  /** Removal that fills the gap with the last element. */
  function SwapRemove(list: seq<nat>, i: nat): seq<nat>
    requires i < |list|
  {
    list[i := list[|list| - 1]][..|list| - 1]
  }

  /** Dropping a guard: its hook leaves the list if no trigger has taken it. */
  function RemoveHook(s: System, h: nat): System
    requires h < |s.hooks| && s.hooks[h].latch < |s.latches|
  {
    var hook := s.hooks[h];
    var latch := s.latches[hook.latch];
    if latch.hooks.Some? && h in latch.hooks.value then
      var list := latch.hooks.value;
      System(s.latches[hook.latch := latch.(hooks := Some(SwapRemove(list, IndexOf(list, h))))],
             s.hooks[h := hook.(phase := Discarded, guardDropped := true)])
    else SetHook(s, h, hook.(guardDropped := true))
  }

  /** Runs the next hook; a child hook that wins its child's trigger stays in progress. */
  function RunNext(s: System, l: nat): System
    requires l < |s.latches| && s.latches[l].work.Running? && s.latches[l].work.todo != []
    requires s.latches[l].work.todo[0] < |s.hooks|
    requires var action := s.hooks[s.latches[l].work.todo[0]].action; action.TriggerChild? ==> action.child < |s.latches|
  {
    var work := s.latches[l].work;
    var h := work.todo[0];
    var hook := s.hooks[h].(runs := s.hooks[h].runs + 1);
    var rest := work.(todo := work.todo[1..]);
    if hook.action.TriggerChild? && s.latches[hook.action.child].live && !s.latches[hook.action.child].triggered then
      var s1 := Critical(s, hook.action.child);
      SetLatch(SetHook(s1, h, hook.(phase := InProgress)), l, s1.latches[l].(work := rest.(current := Some(h))))
    else
      SetLatch(SetHook(s, h, hook.(phase := Ran)), l, s.latches[l].(work := rest))
  }

  /** Registers a hook: listed before the trigger, run at once after it. */
  function Register(s: System, l: nat, action: Action): System
    requires l < |s.latches|
  {
    var latch := s.latches[l];
    var h := |s.hooks|;
    if latch.triggered || latch.hooks.None? then
      s.(hooks := s.hooks + [Hook(l, action, Ran, 1, true)])
    else
      System(s.latches[l := latch.(hooks := Some(latch.hooks.value + [h]))],
             s.hooks + [Hook(l, action, Waiting, 0, false)])
  }

  function AppendLatch(s: System, latch: Shared): System {
    s.(latches := s.latches + [latch])
  }

  /** One step; a step that is not enabled changes nothing. */
  ghost function Do(s: System, step: Step): System
    requires Inv(s)
  {
    match step
    case NewLatch => AppendLatch(s, FRESH)
    case Trigger(l) => if Held(s, l) then Critical(s, l) else s
    case DropParentGuard(l) =>
      if l < |s.latches| && s.latches[l].work.Running? && s.latches[l].work.guard.Some? then
        var work := s.latches[l].work;
        assert LatchOk(s, l) && HookOk(s, work.guard.value);
        RemoveHook(SetLatch(s, l, s.latches[l].(work := work.(guard := None))), work.guard.value)
      else s
    case RunHook(l) =>
      if CanRun(s, l) then
        assert LatchOk(s, l) && HookOk(s, s.latches[l].work.todo[0]);
        RunNext(s, l)
      else s
    case FinishHook(l) =>
      if l < |s.latches| && s.latches[l].work.Running? && s.latches[l].work.current.Some? then
        assert LatchOk(s, l);
        var h := s.latches[l].work.current.value;
        assert HookOk(s, h);
        if s.latches[s.hooks[h].action.child].work.Finished? then EndHook(s, l, h) else s
      else s
    case Return(l) =>
      if l < |s.latches| && s.latches[l].work == Running(None, [], None)
      then SetLatch(s, l, s.latches[l].(work := Finished)) else s
    case OnCancel(l) => if Held(s, l) then Register(s, l, User) else s
    case NewChild(l) =>
      if Held(s, l)
      then Register(AppendLatch(s, Born(s.latches[l].triggered)), l, TriggerChild(|s.latches|))
      else s
    case AttachGuard(h) =>
      if h < |s.hooks| && s.hooks[h].action.TriggerChild? then
        assert HookOk(s, h);
        var c := s.hooks[h].action.child;
        if !s.latches[c].returned
        then SetLatch(s, c, s.latches[c].(parentGuard := Some(h), returned := true)) else s
      else s
    case DropGuard(h) =>
      if h < |s.hooks| && s.hooks[h].action.User? then
        assert HookOk(s, h);
        RemoveHook(s, h)
      else s
    case DropLatch(l) => if Held(s, l) then Discard(s, l) else s
  }

  predicate CanRun(s: System, l: nat) {
    && l < |s.latches| && s.latches[l].work.Running?
    && s.latches[l].work.guard.None? && s.latches[l].work.current.None? && s.latches[l].work.todo != []
  }

  /** The last handle goes: hooks never taken are dropped unrun. */
  function Orphan(s: System, l: nat): System
    requires l < |s.latches|
  {
    var latch := s.latches[l].(live := false, parentGuard := None);
    if latch.hooks.None? then SetLatch(s, l, latch)
    else System(s.latches[l := latch.(hooks := Some([]))], Move(s.hooks, latch.hooks.value, Discarded))
  }

  /** Losing the last handle also drops the guard held on the parent. */
  ghost function Discard(s: System, l: nat): System
    requires Inv(s) && l < |s.latches|
  {
    assert LatchOk(s, l);
    var guard := s.latches[l].parentGuard;
    if guard.None? then Orphan(s, l)
    else
      assert HookOk(s, guard.value);
      RemoveHook(Orphan(s, l), guard.value)
  }

  // ---- Invariant ----

  predicate NoDuplicates(list: seq<nat>) {
    forall i, j :: 0 <= i < j < |list| ==> list[i] != list[j]
  }

  predicate HooksAre(s: System, list: seq<nat>, l: nat, phase: Phase) {
    forall k :: 0 <= k < |list| ==>
      list[k] < |s.hooks| && s.hooks[list[k]].latch == l && s.hooks[list[k]].phase == phase
  }

  /** The hook by which a latch's parent triggers it. */
  predicate IsOwnHook(s: System, l: nat, h: nat) { h < |s.hooks| && s.hooks[h].action == TriggerChild(l) }

  /** A latch that went without ever triggering. */
  predicate Abandoned(latch: Shared) { !latch.live && !latch.triggered }

  /** A child that was triggered, or that nobody holds any more. */
  predicate Settled(s: System, c: nat)
    requires c < |s.latches|
  {
    s.latches[c].triggered || !s.latches[c].live
  }

  predicate LatchOk(s: System, l: nat)
    requires l < |s.latches|
  {
    var latch := s.latches[l];
    && (latch.triggered <==> latch.hooks.None?)
    && (latch.triggered <==> !latch.wakeOpen)
    && (latch.triggered <==> !latch.work.Idle?)
    && (latch.parentGuard.Some? ==> IsOwnHook(s, l, latch.parentGuard.value))
    && (latch.hooks.Some? ==> NoDuplicates(latch.hooks.value) && HooksAre(s, latch.hooks.value, l, Waiting))
    && (latch.work.Running? ==>
          && NoDuplicates(latch.work.todo) && HooksAre(s, latch.work.todo, l, Queued)
          && (latch.work.guard.Some? ==> IsOwnHook(s, l, latch.work.guard.value))
          && (latch.work.current.Some? ==>
                var h := latch.work.current.value;
                h < |s.hooks| && s.hooks[h].latch == l && s.hooks[h].phase.InProgress? && s.hooks[h].action.TriggerChild?))
  }

  predicate HookOk(s: System, h: nat)
    requires h < |s.hooks|
  {
    var hook := s.hooks[h];
    && hook.latch < |s.latches|
    && (hook.action.TriggerChild? ==> hook.latch < hook.action.child < |s.latches|)
    && var latch := s.latches[hook.latch];
       && hook.runs == (if hook.phase.InProgress? || hook.phase.Ran? then 1 else 0)
       && (hook.guardDropped ==> !hook.phase.Waiting?)
       && (hook.phase.Waiting? ==> latch.hooks.Some? && h in latch.hooks.value)
       && (hook.phase.Queued? ==> latch.work.Running? && h in latch.work.todo)
       && (hook.phase.InProgress? ==>
             latch.work.Running? && latch.work.current == Some(h) && hook.action.TriggerChild?
             && s.latches[hook.action.child].triggered)
       && (hook.phase.Ran? ==> latch.triggered)
       && (hook.phase.Ran? && hook.action.TriggerChild? ==> Settled(s, hook.action.child))
       && (hook.phase.Discarded? ==> hook.guardDropped || Abandoned(latch))
       && (hook.phase.Discarded? && hook.action.TriggerChild? ==> Settled(s, hook.action.child) || Abandoned(latch))
  }

  ghost predicate Inv(s: System) {
    && (forall l: nat :: l < |s.latches| ==> LatchOk(s, l))
    && (forall h: nat :: h < |s.hooks| ==> HookOk(s, h))
  }

  // ---- Every step keeps the invariant ----

  lemma SwapRemoveKeeps(list: seq<nat>, i: nat)
    requires i < |list| && NoDuplicates(list)
    ensures NoDuplicates(SwapRemove(list, i))
    ensures forall x :: x in SwapRemove(list, i) <==> x in list && x != list[i]
  {
    var last := |list| - 1;
    var out := SwapRemove(list, i);
    forall x | x in list && x != list[i]
      ensures x in out
    {
      var j :| 0 <= j < |list| && list[j] == x;
      if j == last { assert out[i] == x; } else { assert out[j] == x; }
    }
    forall x | x in out
      ensures x in list && x != list[i]
    {
      var j :| 0 <= j < |out| && out[j] == x;
      assert x == list[if j == i then last else j];
    }
  }

  lemma HooksAreMembers(s: System, list: seq<nat>, l: nat, phase: Phase, h: nat)
    requires HooksAre(s, list, l, phase) && h in list
    ensures h < |s.hooks| && s.hooks[h].latch == l && s.hooks[h].phase == phase
  {
  }

  lemma CriticalKeeps(s: System, l: nat)
    requires Inv(s) && l < |s.latches| && s.latches[l].live
    ensures Inv(Critical(s, l)) && Critical(s, l).latches[l].triggered
  {
    var s' := Critical(s, l);
    assert LatchOk(s, l);
    if !s.latches[l].triggered {
      var listed := s.latches[l].hooks.value;
      forall h: nat | h < |s'.hooks|
        ensures HookOk(s', h)
      {
        assert HookOk(s, h);
        if h in listed { HooksAreMembers(s, listed, l, Waiting, h); }
      }
      forall k: nat | k < |s'.latches|
        ensures LatchOk(s', k)
      {
        assert LatchOk(s, k);
      }
    }
  }

  lemma RemoveKeeps(s: System, h: nat)
    requires Inv(s) && h < |s.hooks| && s.hooks[h].latch < |s.latches|
    requires var action := s.hooks[h].action;
             action.TriggerChild? ==> action.child < |s.latches| && Settled(s, action.child)
    ensures Inv(RemoveHook(s, h))
  {
    var s' := RemoveHook(s, h);
    forall k: nat | k < |s'.hooks|
      ensures HookOk(s', k)
    {
      RemoveKeepsHook(s, h, k);
    }
    forall k: nat | k < |s'.latches|
      ensures LatchOk(s', k)
    {
      RemoveKeepsLatch(s, h, k);
    }
  }

  lemma RemoveKeepsHook(s: System, h: nat, k: nat)
    requires Inv(s) && h < |s.hooks| && k < |s.hooks| && s.hooks[h].latch < |s.latches|
    requires var action := s.hooks[h].action;
             action.TriggerChild? ==> action.child < |s.latches| && Settled(s, action.child)
    ensures HookOk(RemoveHook(s, h), k)
  {
    var l := s.hooks[h].latch;
    assert HookOk(s, h) && HookOk(s, k) && LatchOk(s, l);
    var listed := s.latches[l].hooks;
    if listed.Some? && h in listed.value {
      SwapRemoveKeeps(listed.value, IndexOf(listed.value, h));
      HooksAreMembers(s, listed.value, l, Waiting, h);
    }
  }

  lemma RemoveKeepsLatch(s: System, h: nat, k: nat)
    requires Inv(s) && h < |s.hooks| && k < |s.latches| && s.hooks[h].latch < |s.latches|
    ensures LatchOk(RemoveHook(s, h), k)
  {
    var l := s.hooks[h].latch;
    assert HookOk(s, h) && LatchOk(s, k) && LatchOk(s, l);
    var listed := s.latches[l].hooks;
    if listed.Some? && h in listed.value {
      SwapRemoveKeeps(listed.value, IndexOf(listed.value, h));
      HooksAreMembers(s, listed.value, l, Waiting, h);
    }
  }

  lemma RegisterKeeps(s: System, l: nat, action: Action)
    requires Inv(s) && l < |s.latches|
    requires action.TriggerChild? ==>
               l < action.child < |s.latches| && (s.latches[l].triggered ==> s.latches[action.child].triggered)
    ensures Inv(Register(s, l, action))
  {
    var s' := Register(s, l, action);
    assert LatchOk(s, l);
    forall h: nat | h < |s'.hooks|
      ensures HookOk(s', h)
    {
      if h < |s.hooks| { assert HookOk(s, h); }
    }
    forall k: nat | k < |s'.latches|
      ensures LatchOk(s', k)
    {
      assert LatchOk(s, k);
    }
  }

  lemma AppendKeeps(s: System, latch: Shared)
    requires Inv(s) && (latch == FRESH || exists triggered :: latch == Born(triggered))
    ensures Inv(AppendLatch(s, latch))
  {
    var s' := AppendLatch(s, latch);
    forall h: nat | h < |s'.hooks|
      ensures HookOk(s', h)
    {
      assert HookOk(s, h);
    }
    forall k: nat | k < |s'.latches|
      ensures LatchOk(s', k)
    {
      if k < |s.latches| { assert LatchOk(s, k); }
    }
  }

  /** Triggering another latch leaves this one, and a hook it has already queued, as they were. */
  lemma CriticalLeaves(s: System, c: nat, l: nat, h: nat)
    requires Inv(s) && c < |s.latches| && l < |s.latches| && h < |s.hooks| && c != l && !s.hooks[h].phase.Waiting?
    ensures Critical(s, c).latches[l] == s.latches[l] && Critical(s, c).hooks[h] == s.hooks[h]
  {
    assert LatchOk(s, c);
    if s.latches[c].hooks.Some? && h in s.latches[c].hooks.value {
      HooksAreMembers(s, s.latches[c].hooks.value, c, Waiting, h);
    }
  }

  /** The next queued hook starts, or runs to its end when there is nothing to wait for. */
  function Advanced(s: System, l: nat, phase: Phase): System
    requires CanRun(s, l) && s.latches[l].work.todo[0] < |s.hooks|
  {
    var work := s.latches[l].work;
    var h := work.todo[0];
    var rest := work.(todo := work.todo[1..]);
    var next := if phase.InProgress? then rest.(current := Some(h)) else rest;
    SetLatch(SetHook(s, h, s.hooks[h].(runs := s.hooks[h].runs + 1, phase := phase)), l, s.latches[l].(work := next))
  }

  lemma RunHookIsAdvance(s: System, l: nat, s1: System, phase: Phase)
    requires Inv(s) && CanRun(s, l) && CanRun(s1, l) && s.latches[l].work.todo[0] < |s.hooks| == |s1.hooks|
    requires var h := s.latches[l].work.todo[0];
             s1.latches[l] == s.latches[l] && s1.hooks[h] == s.hooks[h]
    requires var action := s.hooks[s.latches[l].work.todo[0]].action;
             && (action.TriggerChild? ==> action.child < |s.latches|)
             && if action.TriggerChild? && s.latches[action.child].live && !s.latches[action.child].triggered
                then s1 == Critical(s, action.child) && phase == InProgress
                else s1 == s && phase == Ran
    ensures Do(s, RunHook(l)) == Advanced(s1, l, phase)
  {
  }

  /** Taking one entry from the queue and giving its hook a later phase keeps the invariant. */
  lemma RunKeeps(s: System, l: nat)
    requires Inv(s) && CanRun(s, l)
    ensures Inv(Do(s, RunHook(l)))
  {
    assert LatchOk(s, l);
    var h := s.latches[l].work.todo[0];
    assert HookOk(s, h);
    var action := s.hooks[h].action;
    if action.TriggerChild? && s.latches[action.child].live && !s.latches[action.child].triggered {
      var s1 := Critical(s, action.child);
      CriticalKeeps(s, action.child);
      CriticalLeaves(s, action.child, l, h);
      RunHookIsAdvance(s, l, s1, InProgress);
      AdvanceKeeps(s1, l, InProgress);
    } else {
      RunHookIsAdvance(s, l, s, Ran);
      AdvanceKeeps(s, l, Ran);
    }
  }

  lemma AdvanceKeeps(s: System, l: nat, phase: Phase)
    requires Inv(s) && CanRun(s, l) && s.latches[l].work.todo[0] < |s.hooks|
    requires var action := s.hooks[s.latches[l].work.todo[0]].action;
             && (phase.InProgress? ==> action.TriggerChild? && action.child < |s.latches| && s.latches[action.child].triggered)
             && (phase.Ran? && action.TriggerChild? ==> action.child < |s.latches| && Settled(s, action.child))
    requires phase.InProgress? || phase.Ran?
    ensures Inv(Advanced(s, l, phase))
  {
    var work := s.latches[l].work;
    var h := work.todo[0];
    assert LatchOk(s, l) && HookOk(s, h);
    var s' := Advanced(s, l, phase);
    assert forall x :: x in work.todo <==> x == h || x in work.todo[1..];
    forall k: nat | k < |s'.hooks|
      ensures HookOk(s', k)
    {
      assert HookOk(s, k);
    }
    forall k: nat | k < |s'.latches|
      ensures LatchOk(s', k)
    {
      assert LatchOk(s, k);
    }
  }

  /** Replacing a latch by one with the same hooks, and phases of no listed hook, keeps the invariant. */
  lemma SetLatchKeeps(s: System, l: nat, latch: Shared)
    requires Inv(s) && l < |s.latches|
    requires var was := s.latches[l];
             latch.triggered == was.triggered && latch.hooks == was.hooks && latch.live == was.live
             && (latch.work == was.work
                 || (was.work.Running? && latch.work == was.work.(guard := None))
                 || (was.work == Running(None, [], None) && latch.work.Finished?))
             && latch.wakeOpen == was.wakeOpen
             && (latch.parentGuard.Some? ==> IsOwnHook(s, l, latch.parentGuard.value))
    ensures Inv(SetLatch(s, l, latch))
  {
    var s' := SetLatch(s, l, latch);
    assert LatchOk(s, l);
    forall h: nat | h < |s'.hooks|
      ensures HookOk(s', h)
    {
      assert HookOk(s, h);
    }
    forall k: nat | k < |s'.latches|
      ensures LatchOk(s', k)
    {
      assert LatchOk(s, k);
    }
  }

  function EndHook(s: System, l: nat, h: nat): System
    requires l < |s.latches| && h < |s.hooks| && s.latches[l].work.Running?
  {
    SetLatch(SetHook(s, h, s.hooks[h].(phase := Ran)), l, s.latches[l].(work := s.latches[l].work.(current := None)))
  }

  lemma EndHookKeeps(s: System, l: nat, h: nat)
    requires Inv(s) && l < |s.latches| && h < |s.hooks|
    requires s.latches[l].work.Running? && s.latches[l].work.current == Some(h)
    ensures Inv(EndHook(s, l, h))
  {
    var s' := EndHook(s, l, h);
    assert LatchOk(s, l) && HookOk(s, h);
    forall k: nat | k < |s'.hooks|
      ensures HookOk(s', k)
    {
      assert HookOk(s, k);
    }
    forall k: nat | k < |s'.latches|
      ensures LatchOk(s', k)
    {
      assert LatchOk(s, k);
    }
  }

  lemma OrphanKeeps(s: System, l: nat)
    requires Inv(s) && l < |s.latches|
    ensures Inv(Orphan(s, l)) && Later(s, Orphan(s, l))
  {
    assert LatchOk(s, l);
    var s', listed := Orphan(s, l), s.latches[l].hooks;
    forall h: nat | h < |s'.hooks|
      ensures HookOk(s', h) && HookLater(s.hooks[h], s'.hooks[h])
    {
      assert HookOk(s, h);
      if listed.Some? && h in listed.value { HooksAreMembers(s, listed.value, l, Waiting, h); }
    }
    forall k: nat | k < |s'.latches|
      ensures LatchOk(s', k)
    {
      assert LatchOk(s, k);
    }
  }

  lemma DiscardKeeps(s: System, l: nat)
    requires Inv(s) && l < |s.latches|
    ensures Inv(Discard(s, l)) && Later(s, Discard(s, l))
  {
    OrphanKeeps(s, l);
    assert LatchOk(s, l);
    var guard := s.latches[l].parentGuard;
    if guard.Some? {
      assert HookOk(s, guard.value);
      RemoveKeeps(Orphan(s, l), guard.value);
      RemoveIsLater(Orphan(s, l), guard.value);
      LaterTransitive(s, Orphan(s, l), Discard(s, l));
    }
  }

  lemma DoKeepsInv(s: System, step: Step)
    requires Inv(s)
    ensures Inv(Do(s, step))
  {
    match step
    case NewLatch => AppendKeeps(s, FRESH);
    case Trigger(l) => if Held(s, l) { CriticalKeeps(s, l); }
    case DropParentGuard(l) =>
      if l < |s.latches| && s.latches[l].work.Running? && s.latches[l].work.guard.Some? {
        var work := s.latches[l].work;
        assert LatchOk(s, l) && HookOk(s, work.guard.value);
        SetLatchKeeps(s, l, s.latches[l].(work := work.(guard := None)));
        RemoveKeeps(SetLatch(s, l, s.latches[l].(work := work.(guard := None))), work.guard.value);
      }
    case RunHook(l) => if CanRun(s, l) { RunKeeps(s, l); }
    case FinishHook(l) =>
      if l < |s.latches| && s.latches[l].work.Running? && s.latches[l].work.current.Some? {
        assert LatchOk(s, l);
        EndHookKeeps(s, l, s.latches[l].work.current.value);
      }
    case Return(l) =>
      if l < |s.latches| && s.latches[l].work == Running(None, [], None) {
        assert LatchOk(s, l);
        SetLatchKeeps(s, l, s.latches[l].(work := Finished));
      }
    case OnCancel(l) => if l < |s.latches| { RegisterKeeps(s, l, User); }
    case NewChild(l) =>
      if l < |s.latches| {
        var born := Born(s.latches[l].triggered);
        AppendKeeps(s, born);
        RegisterKeeps(AppendLatch(s, born), l, TriggerChild(|s.latches|));
      }
    case AttachGuard(h) =>
      if h < |s.hooks| && s.hooks[h].action.TriggerChild? {
        assert HookOk(s, h);
        var c := s.hooks[h].action.child;
        SetLatchKeeps(s, c, s.latches[c].(parentGuard := Some(h), returned := true));
      }
    case DropGuard(h) => if h < |s.hooks| && s.hooks[h].action.User? { assert HookOk(s, h); RemoveKeeps(s, h); }
    case DropLatch(l) => if l < |s.latches| { DiscardKeeps(s, l); }
  }

  /** The system after any interleaving of steps, from nothing. */
  ghost function Run(steps: seq<Step>): (s: System)
    ensures Inv(s)
  {
    if steps == [] then System([], [])
    else
      var before := Run(steps[..|steps| - 1]);
      DoKeepsInv(before, steps[|steps| - 1]);
      Do(before, steps[|steps| - 1])
  }

  // ---- What the latch promises ----

  /** Later states keep triggered latches triggered and discarded hooks discarded. */
  ghost predicate Later(s: System, s': System) {
    && |s.latches| <= |s'.latches| && |s.hooks| <= |s'.hooks|
    && (forall l: nat :: l < |s.latches| ==> LatchLater(s.latches[l], s'.latches[l]))
    && (forall h: nat :: h < |s.hooks| ==> HookLater(s.hooks[h], s'.hooks[h]))
  }

  predicate LatchLater(a: Shared, b: Shared) {
    && (a.triggered ==> b.triggered) && (!a.wakeOpen ==> !b.wakeOpen)
    && (!a.live ==> !b.live) && (a.work.Finished? ==> b.work.Finished?)
  }

  predicate HookLater(a: Hook, b: Hook) {
    && a.latch == b.latch && a.action == b.action
    && a.runs <= b.runs && (a.phase.Discarded? ==> b.phase.Discarded?) && (a.phase.Ran? ==> b.phase.Ran?)
  }

  lemma LaterTransitive(a: System, b: System, c: System)
    requires Later(a, b) && Later(b, c)
    ensures Later(a, c)
  {
    forall l: nat | l < |a.latches|
      ensures LatchLater(a.latches[l], c.latches[l])
    {
      assert LatchLater(a.latches[l], b.latches[l]) && LatchLater(b.latches[l], c.latches[l]);
    }
    forall h: nat | h < |a.hooks|
      ensures HookLater(a.hooks[h], c.hooks[h])
    {
      assert HookLater(a.hooks[h], b.hooks[h]) && HookLater(b.hooks[h], c.hooks[h]);
    }
  }

  lemma CriticalIsLater(s: System, l: nat)
    requires Inv(s) && l < |s.latches|
    ensures Later(s, Critical(s, l))
  {
    assert LatchOk(s, l);
    if s.latches[l].hooks.Some? {
      var listed := s.latches[l].hooks.value;
      forall h: nat | h < |s.hooks| && h in listed
        ensures s.hooks[h].phase.Waiting?
      {
        HooksAreMembers(s, listed, l, Waiting, h);
      }
    }
  }

  lemma RemoveIsLater(s: System, h: nat)
    requires Inv(s) && h < |s.hooks| && s.hooks[h].latch < |s.latches|
    ensures Later(s, RemoveHook(s, h))
  {
    assert LatchOk(s, s.hooks[h].latch);
    var listed := s.latches[s.hooks[h].latch].hooks;
    if listed.Some? && h in listed.value { HooksAreMembers(s, listed.value, s.hooks[h].latch, Waiting, h); }
  }

  lemma RunIsLater(s: System, l: nat)
    requires Inv(s) && CanRun(s, l)
    ensures Later(s, Do(s, RunHook(l)))
  {
    assert LatchOk(s, l);
    var h := s.latches[l].work.todo[0];
    assert HookOk(s, h);
    if s.hooks[h].action.TriggerChild? { CriticalIsLater(s, s.hooks[h].action.child); }
  }

  lemma EndHookIsLater(s: System, l: nat, h: nat)
    requires Inv(s) && l < |s.latches| && h < |s.hooks| && s.latches[l].work.Running?
    requires s.latches[l].work.current == Some(h)
    ensures Later(s, EndHook(s, l, h))
  {
    assert LatchOk(s, l);
  }

  lemma RegisterIsLater(s: System, l: nat, action: Action)
    requires l < |s.latches|
    ensures Later(s, Register(s, l, action))
  {
  }

  lemma SetLatchIsLater(s: System, l: nat, latch: Shared)
    requires l < |s.latches| && LatchLater(s.latches[l], latch)
    ensures Later(s, SetLatch(s, l, latch))
  {
  }

  lemma DropParentIsLater(s: System, l: nat)
    requires Inv(s) && l < |s.latches| && s.latches[l].work.Running? && s.latches[l].work.guard.Some?
    ensures Later(s, Do(s, DropParentGuard(l)))
  {
    var latch := s.latches[l].(work := s.latches[l].work.(guard := None));
    var g := s.latches[l].work.guard.value;
    assert LatchOk(s, l) && HookOk(s, g);
    SetLatchIsLater(s, l, latch);
    SetLatchKeeps(s, l, latch);
    RemoveIsLater(SetLatch(s, l, latch), g);
    LaterTransitive(s, SetLatch(s, l, latch), Do(s, DropParentGuard(l)));
  }

  lemma NewChildIsLater(s: System, l: nat)
    requires Inv(s) && l < |s.latches|
    ensures Later(s, Do(s, NewChild(l)))
  {
    RegisterIsLater(AppendLatch(s, Born(s.latches[l].triggered)), l, TriggerChild(|s.latches|));
  }

  lemma AttachIsLater(s: System, h: nat)
    requires Inv(s) && h < |s.hooks| && s.hooks[h].action.TriggerChild?
    ensures Later(s, Do(s, AttachGuard(h)))
  {
    assert HookOk(s, h);
    var c := s.hooks[h].action.child;
    SetLatchIsLater(s, c, s.latches[c].(parentGuard := Some(h), returned := true));
  }

  /** Every step leads to a later state: nothing triggered, run or discarded is undone. */
  lemma DoIsLater(s: System, step: Step)
    requires Inv(s)
    ensures Later(s, Do(s, step))
  {
    match step
    case NewLatch =>
    case Trigger(l) => if l < |s.latches| { CriticalIsLater(s, l); }
    case DropParentGuard(l) =>
      if l < |s.latches| && s.latches[l].work.Running? && s.latches[l].work.guard.Some? {
        DropParentIsLater(s, l);
      }
    case RunHook(l) => if CanRun(s, l) { RunIsLater(s, l); }
    case FinishHook(l) =>
      if l < |s.latches| && s.latches[l].work.Running? && s.latches[l].work.current.Some? {
        assert LatchOk(s, l);
        EndHookIsLater(s, l, s.latches[l].work.current.value);
      }
    case Return(l) => if l < |s.latches| { SetLatchIsLater(s, l, s.latches[l].(work := Finished)); }
    case OnCancel(l) => if l < |s.latches| { RegisterIsLater(s, l, User); }
    case NewChild(l) => if l < |s.latches| { NewChildIsLater(s, l); }
    case AttachGuard(h) => if h < |s.hooks| && s.hooks[h].action.TriggerChild? { AttachIsLater(s, h); }
    case DropGuard(h) => if h < |s.hooks| { assert HookOk(s, h); RemoveIsLater(s, h); }
    case DropLatch(l) => if l < |s.latches| { DiscardKeeps(s, l); }
  }

  /** Over any further steps the latch never resets and no settled hook changes its fate. */
  lemma {:induction false} LaterIsKept(steps: seq<Step>, more: seq<Step>)
    ensures Later(Run(steps), Run(steps + more))
  {
    if more == [] {
      assert steps + more == steps;
    } else {
      var front := more[..|more| - 1];
      assert (steps + more)[..|steps + more| - 1] == steps + front;
      LaterIsKept(steps, front);
      DoIsLater(Run(steps + front), more[|more| - 1]);
      LaterTransitive(Run(steps), Run(steps + front), Run(steps + more));
    }
  }

  /** A hook whose guard was dropped before its latch triggered never runs, whatever follows. */
  lemma DroppedBeforeTriggerNeverRuns(steps: seq<Step>, more: seq<Step>, h: nat)
    requires var s := Run(steps);
             h < |s.hooks| && s.hooks[h].latch < |s.latches|
             && s.hooks[h].guardDropped && !s.latches[s.hooks[h].latch].triggered
    ensures var s' := Run(steps + more); h < |s'.hooks| && s'.hooks[h].runs == 0
  {
    var s, s' := Run(steps), Run(steps + more);
    assert HookOk(s, h) && LatchOk(s, s.hooks[h].latch);
    LaterIsKept(steps, more);
    assert HookLater(s.hooks[h], s'.hooks[h]) && HookOk(s', h);
  }

  /** No hook ever runs twice, and triggering has closed the wake channel and taken the hooks. */
  lemma EveryRunIsSafe(steps: seq<Step>)
    ensures var s := Run(steps);
            && (forall h: nat :: h < |s.hooks| ==> s.hooks[h].runs <= 1)
            && (forall l: nat :: l < |s.latches| ==>
                  (s.latches[l].triggered <==> !s.latches[l].wakeOpen) && (s.latches[l].triggered <==> s.latches[l].hooks.None?))
  {
    var s := Run(steps);
    forall h: nat | h < |s.hooks|
      ensures s.hooks[h].runs <= 1
    {
      assert HookOk(s, h);
    }
    forall l: nat | l < |s.latches|
      ensures (s.latches[l].triggered <==> !s.latches[l].wakeOpen) && (s.latches[l].triggered <==> s.latches[l].hooks.None?)
    {
      assert LatchOk(s, l);
    }
  }

  /** Once the winning trigger's deferred function has returned, only a dropped guard kept a hook from running. */
  lemma FinishedRanEverything(steps: seq<Step>, h: nat)
    requires var s := Run(steps);
             h < |s.hooks| && s.hooks[h].latch < |s.latches| && s.latches[s.hooks[h].latch].work.Finished?
    ensures var hook := Run(steps).hooks[h];
            && (!hook.guardDropped ==> hook.runs == 1)
            && (hook.runs == 0 ==> hook.phase.Discarded?)
  {
    var s := Run(steps);
    assert HookOk(s, h) && LatchOk(s, s.hooks[h].latch);
  }

  // ---- Descendants ----

  /** The latch a line of child hooks has reached before its `i`-th hook. */
  function LatchOn(s: System, top: nat, line: seq<nat>, i: nat): nat
    requires i <= |line|
  {
    if i == 0 then top
    else
      var h := line[i - 1];
      if h < |s.hooks| && s.hooks[h].action.TriggerChild? then s.hooks[h].action.child else top
  }

  /** The `i`-th hook belongs to the latch reached so far and leads to a live child. */
  predicate LinkOk(s: System, top: nat, line: seq<nat>, i: nat)
    requires i < |line|
  {
    var h := line[i];
    && h < |s.hooks| && s.hooks[h].latch == LatchOn(s, top, line, i)
    && s.hooks[h].action.TriggerChild? && s.hooks[h].action.child < |s.latches|
    && s.latches[s.hooks[h].action.child].live
  }

  /** Hooks that lead from a latch down through live children, whatever became of the hooks. */
  ghost predicate IsLine(s: System, top: nat, line: seq<nat>) {
    top < |s.latches| && forall i: nat :: i < |line| ==> LinkOk(s, top, line, i)
  }

  predicate IsTriggered(s: System, l: nat) { l < |s.latches| && s.latches[l].triggered }

  predicate IsRunning(s: System, l: nat) { l < |s.latches| && s.latches[l].work.Running? }

  /** The `i`-th hook is queued in a deferred function still under way, and its child waits for it. */
  predicate AwaitsRun(s: System, top: nat, line: seq<nat>, i: nat)
    requires i < |line|
  {
    && line[i] < |s.hooks| && s.hooks[line[i]].phase.Queued?
    && IsRunning(s, LatchOn(s, top, line, i)) && !IsTriggered(s, LatchOn(s, top, line, i + 1))
  }

  /** Below a triggered latch a live child is triggered, or its hook is queued and not yet run. */
  lemma TriggeredOrQueued(s: System, top: nat, line: seq<nat>, i: nat)
    requires Inv(s) && i < |line| && LinkOk(s, top, line, i) && IsTriggered(s, LatchOn(s, top, line, i))
    ensures IsTriggered(s, LatchOn(s, top, line, i + 1)) || AwaitsRun(s, top, line, i)
  {
    assert HookOk(s, line[i]) && LatchOk(s, LatchOn(s, top, line, i));
  }

  /** If no hook of the line awaits its run, every latch of the line up to the `i`-th is triggered. */
  lemma {:induction false} TriggeredDownTo(s: System, top: nat, line: seq<nat>, i: nat)
    requires Inv(s) && IsLine(s, top, line) && IsTriggered(s, top) && i <= |line|
    requires forall j: nat :: j < |line| ==> !AwaitsRun(s, top, line, j)
    ensures IsTriggered(s, LatchOn(s, top, line, i))
    decreases i
  {
    if i > 0 {
      TriggeredDownTo(s, top, line, i - 1);
      assert LinkOk(s, top, line, i - 1);
      TriggeredOrQueued(s, top, line, i - 1);
    }
  }

  /**
   Once a latch's deferred function has returned, all its live descendants along a line are triggered
   exactly when no hook of the line is still queued, in a deferred function under way, for a waiting child.
   */
  lemma DescendantsTriggeredIff(steps: seq<Step>, top: nat, line: seq<nat>)
    requires var s := Run(steps); IsLine(s, top, line) && s.latches[top].work.Finished?
    ensures var s := Run(steps);
            (forall i: nat :: i <= |line| ==> IsTriggered(s, LatchOn(s, top, line, i)))
            <==> (forall i: nat :: i < |line| ==> !AwaitsRun(s, top, line, i))
  {
    var s := Run(steps);
    assert LatchOk(s, top);
    if forall i: nat :: i < |line| ==> !AwaitsRun(s, top, line, i) {
      forall i: nat | i <= |line| ensures IsTriggered(s, LatchOn(s, top, line, i)) {
        TriggeredDownTo(s, top, line, i);
      }
    }
  }

  /** They are all triggered when no latch of the line is still running its deferred function. */
  lemma DescendantsTriggered(steps: seq<Step>, top: nat, line: seq<nat>)
    requires var s := Run(steps); IsLine(s, top, line) && s.latches[top].work.Finished?
    requires var s := Run(steps); forall i: nat :: i < |line| ==> !IsRunning(s, LatchOn(s, top, line, i))
    ensures var s := Run(steps); forall i: nat :: i <= |line| ==> IsTriggered(s, LatchOn(s, top, line, i))
  {
    DescendantsTriggeredIff(steps, top, line);
  }

  /** Direct children need no proviso: every live one is triggered, whether or not its hook was dropped. */
  lemma ChildrenTriggered(steps: seq<Step>, h: nat)
    requires var s := Run(steps);
             && h < |s.hooks| && s.hooks[h].latch < |s.latches| && s.latches[s.hooks[h].latch].work.Finished?
             && s.hooks[h].action.TriggerChild? && s.hooks[h].action.child < |s.latches|
             && s.latches[s.hooks[h].action.child].live
    ensures var s := Run(steps); s.latches[s.hooks[h].action.child].triggered
  {
    var s := Run(steps);
    assert HookOk(s, h) && LatchOk(s, s.hooks[h].latch);
  }

  // ---- Two runs that leave a grandchild waiting ----

  function ChildHook(parent: nat, phase: Phase, runs: nat, dropped: bool): Hook {
    Hook(parent, TriggerChild(parent + 1), phase, runs, dropped)
  }

  const WAITING := [ChildHook(0, Waiting, 0, false), ChildHook(1, Waiting, 0, false)]
  const OWNER := FRESH.(hooks := Some([0]))
  const CHILD := FRESH.(parentGuard := Some(0))
  const PARENT := FRESH.(hooks := Some([1]), parentGuard := Some(0))
  const GRANDCHILD := FRESH.(parentGuard := Some(1))

  function Triggered(work: Work): Shared { Shared(true, false, None, None, work, true, true) }

  lemma {:induction false} Extends(steps: seq<Step>, step: Step)
    ensures Run(steps + [step]) == Do(Run(steps), step)
  {
    assert (steps + [step])[..|steps|] == steps;
  }

  function Alone(): seq<Step> { [] + [NewLatch] }

  function One(): seq<Step> { Alone() + [NewChild(0)] }

  /** A latch, its child and its grandchild, each child handed out with the guard of its hook. */
  function Family(): seq<Step> { One() + [AttachGuard(0)] + [NewChild(1)] + [AttachGuard(1)] }

  lemma LatchMade()
    ensures Run(Alone()) == System([FRESH], [])
  {
    Extends([], NewLatch);
  }

  lemma ChildBorn()
    ensures Run(One()) == System([OWNER, Born(false)], WAITING[..1])
  {
    LatchMade();
    Extends(Alone(), NewChild(0));
    assert [] + [0] == [0];
  }

  lemma ChildReturned()
    ensures Run(One() + [AttachGuard(0)]) == System([OWNER, CHILD], WAITING[..1])
  {
    ChildBorn();
    Extends(One(), AttachGuard(0));
  }

  lemma GrandchildBorn()
    ensures Run(One() + [AttachGuard(0)] + [NewChild(1)]) == System([OWNER, PARENT, Born(false)], WAITING)
  {
    ChildReturned();
    Extends(One() + [AttachGuard(0)], NewChild(1));
    assert [] + [1] == [1];
  }

  lemma FamilyRuns()
    ensures Run(Family()) == System([OWNER, PARENT, GRANDCHILD], WAITING)
  {
    GrandchildBorn();
    Extends(One() + [AttachGuard(0)] + [NewChild(1)], AttachGuard(1));
  }

  /** Another thread triggers the child and has yet to call its deferred function. */
  lemma ChildTriggeredAlone()
    ensures Run(Family() + [Trigger(1)])
         == System([OWNER, Triggered(Running(Some(0), [1], None)), GRANDCHILD], [WAITING[0], ChildHook(1, Queued, 0, false)])
  {
    FamilyRuns();
    Extends(Family(), Trigger(1));
    assert Move(WAITING, [1], Queued) == [WAITING[0], ChildHook(1, Queued, 0, false)];
  }

  /** The top latch's deferred function has returned, and the live grandchild is not triggered. */
  ghost predicate GrandchildMissed(s: System) {
    IsLine(s, 0, [0, 1]) && s.latches[0].work.Finished? && !IsTriggered(s, LatchOn(s, 0, [0, 1], 2))
  }

  lemma TopTriggered()
    ensures Run(Family() + [Trigger(1)] + [Trigger(0)])
         == System([Triggered(Running(None, [0], None)), Triggered(Running(Some(0), [1], None)), GRANDCHILD],
                   [ChildHook(0, Queued, 0, false), ChildHook(1, Queued, 0, false)])
  {
    ChildTriggeredAlone();
    Extends(Family() + [Trigger(1)], Trigger(0));
    assert Move([WAITING[0], ChildHook(1, Queued, 0, false)], [0], Queued)
        == [ChildHook(0, Queued, 0, false), ChildHook(1, Queued, 0, false)];
  }

  lemma TopRan()
    ensures Run(Family() + [Trigger(1)] + [Trigger(0)] + [RunHook(0)])
         == System([Triggered(Running(None, [], None)), Triggered(Running(Some(0), [1], None)), GRANDCHILD],
                   [ChildHook(0, Ran, 1, false), ChildHook(1, Queued, 0, false)])
  {
    TopTriggered();
    Extends(Family() + [Trigger(1)] + [Trigger(0)], RunHook(0));
    assert [0][1..] == [];
  }

  /** The top latch triggers after the child did, finds it triggered, and returns. */
  lemma GrandchildCanBeMissed()
    ensures GrandchildMissed(Run(Family() + [Trigger(1)] + [Trigger(0)] + [RunHook(0)] + [Return(0)]))
  {
    TopRan();
    Extends(Family() + [Trigger(1)] + [Trigger(0)] + [RunHook(0)], Return(0));
    var s := Run(Family() + [Trigger(1)] + [Trigger(0)] + [RunHook(0)] + [Return(0)]);
    assert LinkOk(s, 0, [0, 1], 0) && LinkOk(s, 0, [0, 1], 1);
  }

  lemma GuardReleased()
    ensures Run(Family() + [Trigger(1)] + [DropParentGuard(1)])
         == System([FRESH, Triggered(Running(None, [1], None)), GRANDCHILD],
                   [ChildHook(0, Discarded, 0, true), ChildHook(1, Queued, 0, false)])
  {
    ChildTriggeredAlone();
    Extends(Family() + [Trigger(1)], DropParentGuard(1));
    assert SwapRemove([0], 0) == [] && IndexOf([0], 0) == 0;
  }

  lemma TopTriggeredLate()
    ensures Run(Family() + [Trigger(1)] + [DropParentGuard(1)] + [Trigger(0)])
         == System([Triggered(Running(None, [], None)), Triggered(Running(None, [1], None)), GRANDCHILD],
                   [ChildHook(0, Discarded, 0, true), ChildHook(1, Queued, 0, false)])
  {
    GuardReleased();
    Extends(Family() + [Trigger(1)] + [DropParentGuard(1)], Trigger(0));
    var hooks := [ChildHook(0, Discarded, 0, true), ChildHook(1, Queued, 0, false)];
    assert Move(hooks, [], Queued) == hooks;
  }

  /** The child released its guard first, so the top latch has no hook to run, and returns. */
  lemma ReleasedGrandchildCanBeMissed()
    ensures GrandchildMissed(Run(Family() + [Trigger(1)] + [DropParentGuard(1)] + [Trigger(0)] + [Return(0)]))
  {
    TopTriggeredLate();
    Extends(Family() + [Trigger(1)] + [DropParentGuard(1)] + [Trigger(0)], Return(0));
    var s := Run(Family() + [Trigger(1)] + [DropParentGuard(1)] + [Trigger(0)] + [Return(0)]);
    assert LinkOk(s, 0, [0, 1], 0) && LinkOk(s, 0, [0, 1], 1);
  }
}
