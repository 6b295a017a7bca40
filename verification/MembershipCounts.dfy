/**
 * The counters of a cluster's record: over which runs they equal the number of machines that are
 * configured for the cluster, and when the record is torn down.
 */
module MembershipCounts {
  import opened Ints
  import opened Results
  import opened Sets
  import opened Membership
  import opened Paths
  import opened MembershipRuns

  /** The machines that are configured for a cluster, with one of the two roles. */
  function Machines(locals: map<MachineId, Local>, id: ClusterId, controlPlane: bool): set<MachineId> {
    set m | m in locals && locals[m].config == Some(Complete(id, controlPlane))
  }

  /** Both counters of the record are right, with 0 for no record, and it is torn down exactly if nobody is left. */
  ghost predicate CountsAre(s: Shared, id: ClusterId, controlPlanes: int, workers: int) {
    if id in s.clusters then
      && s.clusters[id].controlPlanes == controlPlanes && s.clusters[id].workers == workers
      && (s.clusters[id].tearingDown <==> controlPlanes == 0 && workers == 0)
    else controlPlanes == 0 && workers == 0
  }

  ghost predicate Conserved(s: Shared, locals: map<MachineId, Local>) {
    forall id :: CountsAre(s, id, |Machines(locals, id, true)|, |Machines(locals, id, false)|)
  }

  /** The number of machines other than m, and whether m is one of them. */
  lemma WithOrWithout(locals: map<MachineId, Local>, m: MachineId, id: ClusterId, controlPlane: bool)
    requires m in locals
    ensures |Machines(locals, id, controlPlane)| ==
              |Machines(locals, id, controlPlane) - {m}| +
                  (if locals[m].config == Some(Complete(id, controlPlane)) then 1 else 0)
    ensures |Machines(locals, id, controlPlane) - {m}| < |locals|
  {
    var others := Machines(locals, id, controlPlane) - {m};
    SubsetSize(others, locals.Keys - {m});
  }

  /** How the number of machines changes when one of them gets another configuration. */
  lemma OneMachineChanges(locals: map<MachineId, Local>, m: MachineId, l: Local, id: ClusterId, controlPlane: bool)
    requires m in locals
    ensures |Machines(locals[m := l], id, controlPlane)| ==
              |Machines(locals, id, controlPlane)|
              - (if locals[m].config == Some(Complete(id, controlPlane)) then 1 else 0)
              + (if l.config == Some(Complete(id, controlPlane)) then 1 else 0)
  {
    hide Machines;
    WithOrWithout(locals, m, id, controlPlane);
    WithOrWithout(locals[m := l], m, id, controlPlane);
    OthersSame(locals, m, l, id, controlPlane);
  }

  lemma OthersSame(locals: map<MachineId, Local>, m: MachineId, l: Local, id: ClusterId, controlPlane: bool)
    requires m in locals
    ensures Machines(locals[m := l], id, controlPlane) - {m} == Machines(locals, id, controlPlane) - {m}
  {
  }

  /**
   * A configuration that the counters can follow: no partial one, no other cluster and no other role
   * over a complete one; and no new machine for a cluster that is being torn down.
   */
  predicate Orderly(s: Shared, l: Local, cfg: MachineConfig) {
    if GetComplete(l).Some? then cfg == l.config.value
    else cfg.Partial? || cfg.cluster !in s.clusters || !s.clusters[cfg.cluster].tearingDown
  }

  /** What a call does to the record of one cluster, given how many machines it had. */
  ghost predicate Follows(m: MachineId, s: Shared, l: Local, o: Outcome, id: ClusterId, cp: nat, workers: nat) {
    CountsAre(o.shared, id,
      cp - (if l.config == Some(Complete(id, true)) then 1 else 0) +
          (if o.local.config == Some(Complete(id, true)) then 1 else 0),
      workers - (if l.config == Some(Complete(id, false)) then 1 else 0) +
          (if o.local.config == Some(Complete(id, false)) then 1 else 0))
  }

  lemma ApplyFollows(m: MachineId, s: Shared, l: Local, cfg: MachineConfig, id: ClusterId, cp: nat, workers: nat)
    requires CountsAre(s, id, cp, workers) && m in s.status && Orderly(s, l, cfg)
    requires cp + 1 < TWO_32 && workers + 1 < TWO_32
    ensures Follows(m, s, l, Apply(m, s, l, cfg), id, cp, workers)
  {
  }

  /** A configuration that is not orderly puts some counter wrong. */
  lemma DisorderlyFails(m: MachineId, s: Shared, l: Local, cfg: MachineConfig, cp: nat, workers: nat)
    requires !Orderly(s, l, cfg) && CountsAre(s, DisorderlyId(m, s, l, cfg), cp, workers)
    ensures !Follows(m, s, l, Apply(m, s, l, cfg), DisorderlyId(m, s, l, cfg), cp, workers)
  {
  }

  /** The cluster whose counters a configuration puts wrong. */
  function DisorderlyId(m: MachineId, s: Shared, l: Local, cfg: MachineConfig): ClusterId
    requires !Orderly(s, l, cfg)
  {
    if GetComplete(l).Some? then l.config.value.cluster else cfg.cluster
  }

  lemma ResetFollows(m: MachineId, s: Shared, l: Local, id: ClusterId, cp: nat, workers: nat)
    requires CountsAre(s, id, cp, workers)
    requires l.config == Some(Complete(id, true)) ==> cp > 0
    requires l.config == Some(Complete(id, false)) ==> workers > 0
    ensures Follows(m, s, l, ResetMachine(m, s, l), id, cp, workers)
  {
  }

  lemma OthersFollow(m: MachineId, s: Shared, l: Local, call: Call, id: ClusterId, cp: nat, workers: nat)
    requires CountsAre(s, id, cp, workers) && !call.ApplyConfiguration? && !call.Reset?
    ensures Follows(m, s, l, Called(m, s, l, call), id, cp, workers)
  {
  }

  // ---------------------------------------------------------------- steps

  /** The only way to get a counter wrong is to apply a configuration that is not orderly. */
  ghost predicate OrderlyStep(w: World, step: Step)
    requires Enabled(w, step)
  {
    step.Serve? && step.call.ApplyConfiguration? ==> Orderly(w.shared, w.locals[step.m], step.call.cfg)
  }

  /** The number of machines stays below what the counters can hold. */
  const MAX_MACHINES: int := TWO_32 - 2

  lemma FewMachines(locals: map<MachineId, Local>, m: MachineId, id: ClusterId, controlPlane: bool)
    requires m in locals && |locals| <= MAX_MACHINES
    ensures |Machines(locals, id, controlPlane)| + 1 < TWO_32
    ensures locals[m].config == Some(Complete(id, controlPlane)) ==> |Machines(locals, id, controlPlane)| > 0
  {
    hide Machines;
    WithOrWithout(locals, m, id, controlPlane);
  }

  lemma ServeConserves(w: World, m: MachineId, call: Call)
    requires Fits(w) && Conserved(w.shared, w.locals) && m in w.locals && |w.locals| <= MAX_MACHINES
    ensures Conserved(Next(w, Serve(m, call)).shared, Next(w, Serve(m, call)).locals) <==>
              OrderlyStep(w, Serve(m, call))
  {
    hide Called, Machines, CountsAre, Orderly, Follows;
    var o := Called(m, w.shared, w.locals[m], call);
    var after := w.locals[m := o.local];
    if OrderlyStep(w, Serve(m, call)) {
      forall id
        ensures CountsAre(o.shared, id, |Machines(after, id, true)|, |Machines(after, id, false)|)
      {
        OrderlyFollows(w, m, call, id);
        FollowsMeansCounts(w.shared, w.locals, m, o, id);
      }
    } else {
      DisorderlyServe(w, m, call);
    }
  }

  lemma FollowsMeansCounts(s: Shared, locals: map<MachineId, Local>, m: MachineId, o: Outcome, id: ClusterId)
    requires m in locals
    ensures CountsAre(
              o.shared, id, |Machines(locals[m := o.local], id, true)|, |Machines(locals[m := o.local], id, false)|)
       <==> Follows(m, s, locals[m], o, id, |Machines(locals, id, true)|, |Machines(locals, id, false)|)
  {
    hide Machines, CountsAre;
    OneMachineChanges(locals, m, o.local, id, true);
    OneMachineChanges(locals, m, o.local, id, false);
  }

  lemma OrderlyFollows(w: World, m: MachineId, call: Call, id: ClusterId)
    requires Fits(w) && Conserved(w.shared, w.locals) && m in w.locals && |w.locals| <= MAX_MACHINES
    requires OrderlyStep(w, Serve(m, call))
    ensures Follows(m, w.shared, w.locals[m], Called(m, w.shared, w.locals[m], call), id,
                    |Machines(w.locals, id, true)|, |Machines(w.locals, id, false)|)
  {
    hide Machines, CountsAre, Orderly, Follows, Apply, ResetMachine, BootstrapCluster, RemoveMember, LeaveCluster;
    var cp, workers := |Machines(w.locals, id, true)|, |Machines(w.locals, id, false)|;
    FewMachines(w.locals, m, id, true);
    FewMachines(w.locals, m, id, false);
    match call
    case ApplyConfiguration(cfg) => ApplyFollows(m, w.shared, w.locals[m], cfg, id, cp, workers);
    case Reset => ResetFollows(m, w.shared, w.locals[m], id, cp, workers);
    case _ => OthersFollow(m, w.shared, w.locals[m], call, id, cp, workers);
  }

  lemma DisorderlyServe(w: World, m: MachineId, call: Call)
    requires Conserved(w.shared, w.locals) && m in w.locals && !OrderlyStep(w, Serve(m, call))
    ensures !Conserved(Next(w, Serve(m, call)).shared, Next(w, Serve(m, call)).locals)
  {
    hide Machines, CountsAre, Orderly, Follows, Apply;
    var id := DisorderlyId(m, w.shared, w.locals[m], call.cfg);
    DisorderlyFails(
      m, w.shared, w.locals[m], call.cfg, |Machines(w.locals, id, true)|, |Machines(w.locals, id, false)|);
    FollowsMeansCounts(w.shared, w.locals, m, Apply(m, w.shared, w.locals[m], call.cfg), id);
  }

  /** No other step changes who is configured, and only records without machines are destroyed. */
  lemma OtherStepConserves(w: World, step: Step)
    requires Enabled(w, step) && !step.Serve? && Conserved(w.shared, w.locals)
    ensures Conserved(Next(w, step).shared, Next(w, step).locals)
  {
    hide Machines, EtcdCaller;
    forall id
      ensures CountsAre(
                Next(w, step).shared, id,
                |Machines(Next(w, step).locals, id, true)|, |Machines(Next(w, step).locals, id, false)|)
    {
      OtherStepMachines(w, step, id, true);
      OtherStepMachines(w, step, id, false);
    }
  }

  lemma OtherStepMachines(w: World, step: Step, id: ClusterId, controlPlane: bool)
    requires Enabled(w, step) && !step.Serve?
    ensures Machines(Next(w, step).locals, id, controlPlane) == Machines(w.locals, id, controlPlane)
  {
    hide EtcdCaller;
  }

  /** One step: the counters stay right if and only if the step is orderly. */
  lemma StepConserves(w: World, step: Step)
    requires Enabled(w, step) && Fits(w) && Conserved(w.shared, w.locals) && |w.locals| <= MAX_MACHINES
    ensures Conserved(Next(w, step).shared, Next(w, step).locals) <==> OrderlyStep(w, step)
  {
    hide Conserved, Next, Enabled, Orderly, Fits;
    if step.Serve? {
      StepMachine(w, step);
      ServeConserves(w, step.m, step.call);
    } else {
      OtherStepConserves(w, step);
    }
  }

  lemma StepMachine(w: World, step: Step)
    requires Enabled(w, step) && step.Serve?
    ensures step.m in w.locals
  {
  }

  // ---------------------------------------------------------------- runs

  ghost predicate LeadsOrderly(w: World, step: Step, w': World) {
    Leads(w, step, w') && OrderlyStep(w, step)
  }

  ghost predicate Small(run: seq<World>) {
    forall i | 0 <= i < |run| :: |run[i].locals| <= MAX_MACHINES
  }

  lemma EmptyConserved()
    ensures Conserved(EMPTY.shared, EMPTY.locals)
  {
    assert forall id, cp :: Machines(EMPTY.locals, id, cp) == {};
  }

  /**
   * Over a whole run, the counters of every record equal the numbers of configured machines, and a
   * record is torn down exactly while no machine is left, if and only if every step is orderly.
   */
  lemma {:induction false} CountersAreConserved(run: seq<World>)
    requires Run(run) && Small(run)
    ensures (forall i | 0 <= i < |run| :: Conserved(run[i].shared, run[i].locals)) <==> Path(LeadsOrderly, run)
  {
    hide Conserved, LeadsOrderly, Leads;
    if Path(LeadsOrderly, run) {
      forall i | 0 <= i < |run|
        ensures Conserved(run[i].shared, run[i].locals)
      {
        OrderlyRunConserves(run, i);
      }
    }
    if forall i | 0 <= i < |run| :: Conserved(run[i].shared, run[i].locals) {
      forall i | 0 < i < |run|
        ensures Linked(LeadsOrderly, run[i - 1], run[i])
      {
        ConservedIsOrderly(run, i);
      }
    }
  }

  lemma {:induction false} OrderlyRunConserves(run: seq<World>, i: nat)
    requires Run(run) && Small(run) && Path(LeadsOrderly, run) && i < |run|
    ensures Conserved(run[i].shared, run[i].locals)
  {
    hide Conserved, LeadsOrderly, Path;
    if i == 0 {
      EmptyConserved();
    } else {
      OrderlyRunConserves(run, i - 1);
      RunFits(run, i - 1);
      var step := StepTo(LeadsOrderly, run, i);
      OrderlyStepConserves(run[i - 1], step, run[i]);
    }
  }

  lemma OrderlyStepConserves(w: World, step: Step, w': World)
    requires LeadsOrderly(w, step, w') && Fits(w) && Conserved(w.shared, w.locals) && |w.locals| <= MAX_MACHINES
    ensures Conserved(w'.shared, w'.locals)
  {
    hide Conserved, Fits, Next, OrderlyStep;
    StepConserves(w, step);
  }

  lemma ConservedIsOrderly(run: seq<World>, i: nat)
    requires Run(run) && Small(run) && 0 < i < |run|
    requires Conserved(run[i - 1].shared, run[i - 1].locals) && Conserved(run[i].shared, run[i].locals)
    ensures Linked(LeadsOrderly, run[i - 1], run[i])
  {
    hide Conserved, Next, OrderlyStep, Fits, Path;
    RunFits(run, i - 1);
    var step := StepTo(Leads, run, i);
    StepConserves(run[i - 1], step);
    assert LeadsOrderly(run[i - 1], step, run[i]);
  }

  // ---------------------------------------------------------------- what follows from right counters

  /** As long as the counters are right, neither an increment nor a decrement wraps. */
  lemma NoCounterWraps(w: World, m: MachineId)
    requires Conserved(w.shared, w.locals) && m in w.locals && |w.locals| <= MAX_MACHINES
    ensures forall id | id in w.shared.clusters ::
              w.shared.clusters[id].controlPlanes < TWO_32 - 1 && w.shared.clusters[id].workers < TWO_32 - 1
    ensures GetComplete(w.locals[m]).Some? ==> (
              var id := w.locals[m].config.value.cluster;
              && id in w.shared.clusters && !w.shared.clusters[id].tearingDown
              && (w.locals[m].config.value.controlPlane ==> w.shared.clusters[id].controlPlanes > 0)
              && (!w.locals[m].config.value.controlPlane ==> w.shared.clusters[id].workers > 0))
  {
    hide Machines;
    forall id | id in w.shared.clusters
      ensures w.shared.clusters[id].controlPlanes < TWO_32 - 1 && w.shared.clusters[id].workers < TWO_32 - 1
    {
      FewMachines(w.locals, m, id, true);
      FewMachines(w.locals, m, id, false);
    }
    if GetComplete(w.locals[m]).Some? {
      FewMachines(w.locals, m, w.locals[m].config.value.cluster, w.locals[m].config.value.controlPlane);
      assert CountsAre(w.shared, w.locals[m].config.value.cluster,
        |Machines(w.locals, w.locals[m].config.value.cluster, true)|,
        |Machines(w.locals, w.locals[m].config.value.cluster, false)|);
    }
  }

  /**
   * As long as the counters are right, a bootstrapped cluster stays bootstrapped until its record is
   * destroyed: the last control plane's reset tests the counter as it was before the decrement.
   */
  lemma StaysBootstrapped(w: World, step: Step, id: ClusterId)
    requires Enabled(w, step) && Conserved(w.shared, w.locals) && |w.locals| <= MAX_MACHINES
    requires id in w.shared.clusters && id in Next(w, step).shared.clusters && w.shared.clusters[id].bootstrapped
    ensures Next(w, step).shared.clusters[id].bootstrapped
  {
    hide Machines, EtcdCaller;
    if step.Serve? && step.call.Reset? {
      NoCounterWraps(w, step.m);
    }
  }

  // ---------------------------------------------------------------- when steps are not orderly

  /** A complete configuration, a partial one over it and the complete one again count one machine twice. */
  lemma PartialCountsTwice(m: MachineId, st: Status, id: ClusterId)
    ensures var s0, l0 := Shared(map[], map[m := st]), Local(None, None, None);
            var o1 := Apply(m, s0, l0, Complete(id, true));
            var o2 := Apply(m, o1.shared, o1.local, Partial);
            var o3 := Apply(m, o2.shared, o2.local, Complete(id, true));
            && o1.err == None && o2.err == None && o3.err == None
            && o3.shared.clusters[id].controlPlanes == 2
  {
  }

  /** A machine that changes its role and is then reset makes the counter of the new role wrap. */
  lemma RoleChangeWraps(m: MachineId, st: Status, id: ClusterId)
    ensures var s0, l0 := Shared(map[], map[m := st]), Local(None, None, None);
            var o1 := Apply(m, s0, l0, Complete(id, true));
            var o2 := Apply(m, o1.shared, o1.local, Complete(id, false));
            var o3 := ResetMachine(m, o2.shared, o2.local);
            && o3.err == None && id in o3.shared.clusters
            && o3.shared.clusters[id].workers == TWO_32 - 1 && o3.shared.clusters[id].controlPlanes == 1
  {
  }
}
