/** Machine slots: every machine task of the provider occupies one, and a new machine gets the least free one. */
module Slots {
  import opened Ints
  import opened Results
  import opened Sets
  import opened Paths

  type RequestId = string

  const MAX_MACHINE_COUNT: int := 100000

  /** The slot of each machine task, and of the state of each machine that is being provisioned, 0 if it has none. */
  datatype State = State(tasks: map<RequestId, int32>, machines: map<RequestId, int32>)

  predicate InUse(tasks: map<RequestId, int32>, slot: int) {
    exists r | r in tasks :: tasks[r] == slot
  }

  /** No two tasks have the same slot. */
  predicate Distinct(tasks: map<RequestId, int32>) {
    forall r, q | r in tasks && q in tasks && tasks[r] == tasks[q] :: r == q
  }

  /** The least slot that no task uses, if there is one below the limit. */
  ghost predicate IsFreeSlot(tasks: map<RequestId, int32>, slot: Option<int32>) {
    if slot.Some? then
      && 1 <= slot.value < MAX_MACHINE_COUNT && !InUse(tasks, slot.value)
      && forall i | 1 <= i < slot.value :: InUse(tasks, i)
    else forall i | 1 <= i < MAX_MACHINE_COUNT :: InUse(tasks, i)
  }

  lemma FreeSlotIsUnique(tasks: map<RequestId, int32>, a: Option<int32>, b: Option<int32>)
    requires IsFreeSlot(tasks, a) && IsFreeSlot(tasks, b)
    ensures a == b
  {
  }

  /** Tasks that use all of 1, ..., n are at least n. */
  lemma {:induction false} UsedUpTo(tasks: map<RequestId, int32>, n: nat)
    requires forall i | 1 <= i <= n :: InUse(tasks, i)
    ensures n <= |tasks|
    decreases n
  {
    if n > 0 {
      assert InUse(tasks, n);
      var rest := map r | r in tasks && tasks[r] != n :: tasks[r];
      forall i | 1 <= i <= n - 1
        ensures InUse(rest, i)
      {
        assert InUse(tasks, i);
        var r :| r in tasks && tasks[r] == i;
        assert r in rest;
      }
      UsedUpTo(rest, n - 1);
      var r :| r in tasks && tasks[r] == n;
      assert rest.Keys <= tasks.Keys - {r};
      SubsetSize(rest.Keys, tasks.Keys - {r});
    }
  }

  /** A free slot is at most one more than the number of tasks; there is always one unless they fill all slots. */
  lemma FreeSlotIsSmall(tasks: map<RequestId, int32>, slot: Option<int32>)
    requires IsFreeSlot(tasks, slot)
    ensures slot.Some? ==> slot.value <= |tasks| + 1
    ensures slot.None? ==> |tasks| >= MAX_MACHINE_COUNT - 1
  {
    UsedUpTo(tasks, if slot.Some? then slot.value - 1 else MAX_MACHINE_COUNT - 1);
  }

  // ---------------------------------------------------------------- provisioning

  /** The slot a machine is given: the one it already has, or else the free one. */
  ghost predicate IsGiven(s: State, r: RequestId, slot: Option<int32>) {
    if r in s.machines && s.machines[r] != 0 then slot == Some(s.machines[r]) else IsFreeSlot(s.tasks, slot)
  }

  /** One createMachine step: the state after it, if its machine task can be created or not. */
  ghost predicate Creates(s: State, r: RequestId, created: bool, s': State) {
    if r in s.tasks then s' == s
    else exists slot ::
      && IsGiven(s, r, slot)
      && s' == (if slot == None then s
                else State(if created then s.tasks[r := slot.value] else s.tasks, s.machines[r := slot.value]))
  }

  datatype Step = Create(request: RequestId, created: bool) | Remove(request: RequestId)

  /** A step of the provider; a machine task can be created or not. */
  ghost predicate Next(s: State, step: Step, s': State) {
    match step
    case Create(r, created) => Creates(s, r, created, s')
    case Remove(r) => s' == State(s.tasks - {r}, s.machines - {r})
  }

  class Provisioner {
    var tasks: map<RequestId, int32>
    var machines: map<RequestId, int32>

    constructor ()
      ensures Value() == State(map[], map[])
    {
      tasks, machines := map[], map[];
    }

    ghost function Value(): State
      reads this
    {
      State(tasks, machines)
    }

    /** pickFreeSlot. */
    method PickFreeSlot() returns (slot: Option<int32>)
      ensures IsFreeSlot(tasks, slot)
      ensures slot.Some? ==> slot.value <= |tasks| + 1
    {
      var used: set<int32> := {};
      var rest := tasks.Keys;
      while rest != {}
        invariant rest <= tasks.Keys
        invariant forall i :: i in used <==> exists r | r in tasks && r !in rest :: tasks[r] == i
        decreases |rest|
      {
        var r :| r in rest;
        used, rest := used + {tasks[r]}, rest - {r};
      }
      assert forall i: int32 :: i in used <==> InUse(tasks, i);
      for i := 1 to MAX_MACHINE_COUNT
        invariant forall j | 1 <= j < i :: InUse(tasks, j)
      {
        if i !in used {
          FreeSlotIsSmall(tasks, Some(i));
          return Some(i);
        }
      }
      return None;
    }

    /** The createMachine step. The machine's slot is kept even if its machine task cannot be created. */
    method CreateMachine(r: RequestId, created: bool) returns (infraID: Option<int32>, err: bool)
      modifies this
      ensures Next(old(Value()), Create(r, created), Value())
      ensures forall q | q != r :: q in tasks <==> q in old(tasks)
      ensures forall q | q in old(tasks) :: q in tasks && tasks[q] == old(tasks)[q]
      ensures forall q | q != r :: (q in machines <==> q in old(machines)) &&
                                   (q in machines ==> machines[q] == old(machines)[q])
      ensures r !in old(tasks) && infraID.Some? ==>
                && r in machines && machines[r] == infraID.value && (r in tasks <==> created)
                && (if r in old(machines) && old(machines)[r] != 0 then infraID.value == old(machines)[r]
                    else !InUse(old(tasks), infraID.value) && infraID.value >= 1)
      ensures !err ==> r in tasks && infraID == Some(tasks[r])
      ensures infraID == None <==>
                r !in old(tasks) && !(r in old(machines) && old(machines)[r] != 0) && IsFreeSlot(old(tasks), None)
      ensures !err <==> r in tasks
    {
      err := false;
      if r in tasks {
        return Some(tasks[r]), false;
      }
      var slot := if r in machines then machines[r] else 0;
      if slot == 0 {
        var free := PickFreeSlot();
        if free == None {
          assert IsGiven(Value(), r, None);
          return None, true;
        }
        slot := free.value;
      }
      assert IsGiven(Value(), r, Some(slot));
      machines := machines[r := slot];
      infraID := Some(slot);
      if !created {
        return infraID, true;
      }
      tasks := tasks[r := slot];
    }

    /** Deprovision: the machine task goes, and with the request the machine's state. */
    method Deprovision(r: RequestId)
      modifies this
      ensures Next(old(Value()), Remove(r), Value())
      ensures forall q :: q in tasks <==> q in old(tasks) && q != r
      ensures forall q :: q in machines <==> q in old(machines) && q != r
      ensures (forall q | q in tasks :: tasks[q] == old(tasks)[q]) &&
              forall q | q in machines :: machines[q] == old(machines)[q]
    {
      tasks := tasks - {r};
      machines := machines - {r};
    }
  }

  // ---------------------------------------------------------------- distinct slots

  /**
   * A step that creates a task keeps the slots distinct if and only if the machine has no slot from
   * an earlier attempt, or nobody has taken that slot since.
   */
  lemma CreateKeepsDistinct(s: State, r: RequestId, s': State)
    requires Distinct(s.tasks) && Creates(s, r, true, s') && r !in s.tasks && r in s'.tasks
    ensures Distinct(s'.tasks) <==> (r in s.machines && s.machines[r] != 0 ==> !InUse(s.tasks, s.machines[r]))
  {
    var slot :|
      IsGiven(s, r, slot) &&
      s' == (if slot == None then s else State(s.tasks[r := slot.value], s.machines[r := slot.value]));
    if !InUse(s.tasks, slot.value) {
      forall q, p | q in s'.tasks && p in s'.tasks && s'.tasks[q] == s'.tasks[p]
        ensures q == p
      {
      }
    } else {
      var q :| q in s.tasks && s.tasks[q] == slot.value;
      assert s'.tasks[q] == s'.tasks[r];
    }
  }

  /** The condition above, of a step that creates a task. */
  ghost predicate IsFair(s: State, step: Step, s': State) {
    step.Create? && step.request !in s.tasks && step.request in s'.tasks ==>
      (step.request in s.machines && s.machines[step.request] != 0 ==> !InUse(s.tasks, s.machines[step.request]))
  }

  ghost predicate NextFairly(s: State, step: Step, s': State) {
    Next(s, step, s') && IsFair(s, step, s')
  }

  lemma StepDistinct(s: State, step: Step, s': State)
    requires Distinct(s.tasks) && Next(s, step, s')
    ensures Distinct(s'.tasks) <==> IsFair(s, step, s')
  {
    hide IsGiven;
    if step.Create? && step.request in s'.tasks && step.request !in s.tasks {
      CreateKeepsDistinct(s, step.request, s');
    }
  }

  ghost predicate Run(run: seq<State>) {
    Path(Next, run) && run[0] == State(map[], map[])
  }

  lemma {:induction false} FairRunIsDistinct(run: seq<State>, i: nat)
    requires Run(run) && Path(NextFairly, run) && i < |run|
    ensures Distinct(run[i].tasks)
  {
    hide Next, Path, IsFair;
    if i > 0 {
      FairRunIsDistinct(run, i - 1);
      var step := StepTo(NextFairly, run, i);
      StepDistinct(run[i - 1], step, run[i]);
    }
  }

  lemma DistinctStepIsFair(run: seq<State>, i: nat)
    requires Run(run) && 0 < i < |run| && Distinct(run[i - 1].tasks) && Distinct(run[i].tasks)
    ensures Linked(NextFairly, run[i - 1], run[i])
  {
    hide Next, Path, IsFair, Distinct;
    var step := StepTo(Next, run, i);
    StepDistinct(run[i - 1], step, run[i]);
    assert NextFairly(run[i - 1], step, run[i]);
  }

  /**
   * Over any run, failed creations included: all live tasks have different slots throughout, if and
   * only if every task is created with a slot that nobody has taken since an earlier attempt.
   */
  lemma SlotsAreDistinctExactly(run: seq<State>)
    requires Run(run)
    ensures (forall i | 0 <= i < |run| :: Distinct(run[i].tasks)) <==> Path(NextFairly, run)
  {
    hide Next, NextFairly, Distinct;
    if Path(NextFairly, run) {
      forall i | 0 <= i < |run|
        ensures Distinct(run[i].tasks)
      {
        FairRunIsDistinct(run, i);
      }
    }
    if forall i | 0 <= i < |run| :: Distinct(run[i].tasks) {
      forall i | 0 < i < |run|
        ensures Linked(NextFairly, run[i - 1], run[i])
      {
        DistinctStepIsFair(run, i);
      }
    }
  }

  /** A machine has a slot only together with its task. */
  ghost predicate Settled(s: State) {
    Distinct(s.tasks) && forall r | r in s.machines && s.machines[r] != 0 :: r in s.tasks
  }

  ghost predicate NextSucceeds(s: State, step: Step, s': State) {
    Next(s, step, s') && (step.Create? ==> step.created)
  }

  lemma StepSettled(s: State, step: Step, s': State)
    requires Settled(s) && NextSucceeds(s, step, s')
    ensures Settled(s')
  {
    StepDistinct(s, step, s');
  }

  /** So they do over any run of steps whose creations succeed. */
  lemma {:induction false} SlotsStayDistinct(run: seq<State>, i: nat)
    requires Run(run) && Path(NextSucceeds, run) && i < |run|
    ensures Settled(run[i]) && Distinct(run[i].tasks)
  {
    hide Next, Path, NextSucceeds;
    if i > 0 {
      SlotsStayDistinct(run, i - 1);
      var step := StepTo(NextSucceeds, run, i);
      StepSettled(run[i - 1], step, run[i]);
    }
  }

  /** A creation that fails leaves its slot free for the next machine; both then get it. */
  lemma FailedCreateSharesSlot(r: RequestId, q: RequestId)
    requires r != q
    ensures var s0, s1 := State(map[], map[]), State(map[], map[r := 1]);
            var s2, s3 := State(map[q := 1], map[r := 1, q := 1]), State(map[q := 1, r := 1], map[r := 1, q := 1]);
            && Creates(s0, r, false, s1) && Creates(s1, q, true, s2) && Creates(s2, r, true, s3)
            && !Distinct(s3.tasks)
  {
    var s0, s1 := State(map[], map[]), State(map[], map[r := 1]);
    var s2, s3 := State(map[q := 1], map[r := 1, q := 1]), State(map[q := 1, r := 1], map[r := 1, q := 1]);
    assert IsGiven(s0, r, Some(1)) && IsGiven(s1, q, Some(1)) && IsGiven(s2, r, Some(1));
    assert s3.tasks[q] == s3.tasks[r];
  }
}
