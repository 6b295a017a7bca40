/**
 * Resets that race with the etcd controller: a machine that was reset has no labels, and exactly when
 * a reconcile under way can put them back.
 */
module MembershipResets {
  import opened Results
  import opened Membership
  import opened Paths
  import opened MembershipRuns

  /** A reconcile of the machine is under way that has read a bootstrapped record, or no record yet. */
  predicate MayLabel(w: World, m: MachineId) {
    m in w.stages && (w.stages[m].Started? || IsBootstrapped(w.stages[m].seen))
  }

  predicate HasLabel(st: Status) {
    st.cluster.Some? || st.controlPlane || st.worker
  }

  /** The machine has no complete configuration and no labels. */
  ghost predicate Bare(w: World, m: MachineId) {
    m in w.locals && m in w.shared.status && GetComplete(w.locals[m]) == None && !HasLabel(w.shared.status[m])
  }

  /** The machine has no complete configuration, but labels. */
  ghost predicate Stale(w: World, m: MachineId) {
    m in w.locals && m in w.shared.status && GetComplete(w.locals[m]) == None && HasLabel(w.shared.status[m])
  }

  /** A reset that succeeds leaves the machine bare, and every reconcile as it was. */
  lemma ResetMakesBare(w: World, m: MachineId)
    requires Fits(w) && m in w.locals && Called(m, w.shared, w.locals[m], Reset).err == None
    ensures var w' := Next(w, Serve(m, Reset));
            && Fits(w') && Bare(w', m) && w'.locals[m].config == None
            && w'.shared.status[m] == Unlabelled(w.shared.status[m]) && w'.stages == w.stages
  {
  }

  // ---------------------------------------------------------------- staying bare

  predicate Configures(step: Step, m: MachineId) {
    step.Serve? && step.m == m && step.call.ApplyConfiguration? && step.call.cfg.Complete?
  }

  /** Any step but one that applies a complete configuration to this machine. */
  ghost function Sparing(m: MachineId): (World, Step, World) -> bool {
    (w: World, step: Step, w': World) => Leads(w, step, w') && !Configures(step, m)
  }

  /** A configuration that a call leaves complete, where there was none, is what the call applied. */
  lemma CallKeepsUnlabelled(m: MachineId, s: Shared, l: Local, call: Call)
    requires m in s.status && GetComplete(l) == None
    ensures var o := Called(m, s, l, call);
            (!call.ApplyConfiguration? || call.cfg.Partial?) ==>
                o.shared.status[m] == s.status[m] && GetComplete(o.local) == None
  {
  }

  lemma StepKeepsBare(w: World, step: Step, m: MachineId)
    requires Enabled(w, step) && Fits(w) && Bare(w, m) && !MayLabel(w, m) && !Configures(step, m)
    ensures Bare(Next(w, step), m) && !MayLabel(Next(w, step), m)
  {
    hide Called;
    if step.Serve? {
      CallStaysLocal(step.m, w.shared, w.locals[step.m], step.call);
      if step.m == m {
        CallKeepsUnlabelled(m, w.shared, w.locals[m], step.call);
      }
    }
  }

  /** A bare machine without such a reconcile stays bare until a complete configuration is applied to it. */
  lemma {:induction false} BareIsKept(path: seq<World>, i: nat, m: MachineId)
    requires Path(Sparing(m), path) && i < |path| && Fits(path[0]) && Bare(path[0], m) && !MayLabel(path[0], m)
    ensures Fits(path[i]) && Bare(path[i], m) && !MayLabel(path[i], m)
  {
    hide Next, Enabled, Path, Fits, Bare, MayLabel, Configures;
    if i > 0 {
      BareIsKept(path, i - 1, m);
      var step := StepTo(Sparing(m), path, i);
      StepFits(path[i - 1], step);
      StepKeepsBare(path[i - 1], step, m);
    }
  }

  /** What applying a complete configuration leaves is a complete configuration. */
  lemma AppliedIsComplete(w: World, m: MachineId, cfg: MachineConfig)
    requires Enabled(w, Serve(m, ApplyConfiguration(cfg))) && cfg.Complete?
    ensures m in Next(w, Serve(m, ApplyConfiguration(cfg))).locals
    ensures GetComplete(Next(w, Serve(m, ApplyConfiguration(cfg))).locals[m]) == Some(cfg)
  {
  }

  /** A part of a run in which the machine has no complete configuration applies none to it. */
  lemma PartSpares(run: seq<World>, i: nat, j: nat, m: MachineId)
    requires Run(run) && i <= j < |run|
    requires forall k | i < k <= j :: m in run[k].locals ==> GetComplete(run[k].locals[m]) == None
    ensures Path(Sparing(m), run[i..j + 1])
  {
    hide Next, Enabled;
    var path := run[i..j + 1];
    forall k | 0 < k < |path|
      ensures Linked(Sparing(m), path[k - 1], path[k])
    {
      var step := StepTo(Leads, run, i + k);
      if Configures(step, m) {
        AppliedIsComplete(run[i + k - 1], m, step.call.cfg);
      }
      assert Sparing(m)(path[k - 1], step, path[k]);
    }
  }

  /**
   * After a reset of a machine with no such reconcile under way, in any run: it has no labels until
   * a complete configuration is applied to it.
   */
  lemma ResetStaysUnlabelled(run: seq<World>, i: nat, j: nat, m: MachineId)
    requires Run(run) && 0 < i <= j < |run| && m in run[i - 1].locals && !MayLabel(run[i - 1], m)
    requires run[i] == Next(run[i - 1], Serve(m, Reset))
    requires Called(m, run[i - 1].shared, run[i - 1].locals[m], Reset).err == None
    requires forall k | i < k <= j :: m in run[k].locals ==> GetComplete(run[k].locals[m]) == None
    ensures Bare(run[j], m) && !MayLabel(run[j], m)
  {
    hide Run, Next, Path, Called, Bare, Sparing;
    RunFits(run, i - 1);
    ResetMakesBare(run[i - 1], m);
    PartSpares(run, i, j, m);
    BareIsKept(run[i..j + 1], j - i, m);
  }

  // ---------------------------------------------------------------- getting labels back

  /** A reconcile that has read a bootstrapped record labels the machine, whatever became of it meanwhile. */
  lemma FinishLabels(w: World, m: MachineId, newID: MemberId)
    requires Fits(w) && Enabled(w, Finish(m, newID)) && IsBootstrapped(w.stages[m].seen)
    ensures var w' := Next(w, Finish(m, newID));
            && w'.locals[m].config == w.locals[m].config
            && w'.shared.status[m].cluster == Some(w.stages[m].cluster) && w'.shared.status[m].controlPlane
  {
  }

  /** The world goes on, without a complete configuration for the machine, to one where it has labels. */
  ghost predicate Relabels(path: seq<World>, w: World, m: MachineId) {
    Path(Sparing(m), path) && path[0] == w && Stale(path[|path| - 1], m)
  }

  /** A reconcile of the machine has started for this cluster; the machine has no complete configuration. */
  ghost predicate Waits(w: World, m: MachineId, id: ClusterId) {
    && Fits(w) && m in w.locals && GetComplete(w.locals[m]) == None
    && m in w.stages && w.stages[m] == Started(id)
  }

  lemma CleanUpWaits(w: World, m: MachineId, id: ClusterId)
    requires Waits(w, m, id) && id in w.shared.clusters && w.shared.clusters[id].tearingDown
    ensures Enabled(w, CleanUp(id)) && Waits(Next(w, CleanUp(id)), m, id)
    ensures id !in Next(w, CleanUp(id)).shared.clusters
  {
  }

  /** The cluster can be joined: it has no record, or one that is not being torn down. */
  predicate IsOpen(w: World, id: ClusterId) {
    id in w.shared.clusters ==> !w.shared.clusters[id].tearingDown
  }

  lemma NewMachineWaits(w: World, m: MachineId, id: ClusterId, n: MachineId)
    requires Waits(w, m, id) && IsOpen(w, id) && n !in w.locals
    ensures Enabled(w, NewMachine(n))
    ensures var w' := Next(w, NewMachine(n));
            Waits(w', m, id) && IsOpen(w', id) && n in w'.locals && GetComplete(w'.locals[n]) == None
  {
  }

  lemma JoinWaits(w: World, m: MachineId, id: ClusterId, n: MachineId)
    requires Waits(w, m, id) && IsOpen(w, id) && n != m && n in w.locals && GetComplete(w.locals[n]) == None
    ensures var w' := Next(w, Serve(n, ApplyConfiguration(Complete(id, true))));
            && Waits(w', m, id) && n in w'.locals && GetComplete(w'.locals[n]) == Some(Complete(id, true))
            && id in w'.shared.clusters && !w'.shared.clusters[id].tearingDown
  {
  }

  lemma BootstrapWaits(w: World, m: MachineId, id: ClusterId, n: MachineId)
    requires Waits(w, m, id) && n != m && n in w.locals && GetComplete(w.locals[n]) == Some(Complete(id, true))
    requires id in w.shared.clusters && !w.shared.clusters[id].tearingDown
    ensures var w' := Next(w, Serve(n, Bootstrap)); Waits(w', m, id) && IsBootstrapped(RecordOf(w'.shared, id))
  {
  }

  lemma ReadAndFinish(w: World, m: MachineId, id: ClusterId, newID: MemberId)
    requires Waits(w, m, id) && IsBootstrapped(RecordOf(w.shared, id))
    ensures Enabled(w, ReadRecord(m)) && Enabled(Next(w, ReadRecord(m)), Finish(m, newID))
    ensures Stale(Next(Next(w, ReadRecord(m)), Finish(m, newID)), m)
  {
    FinishLabels(Next(w, ReadRecord(m)), m, newID);
  }

  /** There is always a name for one more machine. */
  lemma {:induction false} LongestName(names: set<MachineId>) returns (k: nat)
    ensures forall n | n in names :: |n| <= k
  {
    if names == {} {
      k := 0;
    } else {
      var n :| n in names;
      k := LongestName(names - {n});
      k := if |n| > k then |n| else k;
    }
  }

  lemma NewName(names: set<MachineId>) returns (n: MachineId)
    ensures n !in names
  {
    var k := LongestName(names);
    n := seq(k + 1, _ => 'm');
  }

  lemma SparingLeads(w: World, step: Step, m: MachineId)
    requires Enabled(w, step) && !Configures(step, m)
    ensures Sparing(m)(w, step, Next(w, step))
  {
  }

  lemma SparesOneMore(path: seq<World>, step: Step, m: MachineId) returns (longer: seq<World>)
    requires Path(Sparing(m), path) && Enabled(path[|path| - 1], step) && !Configures(step, m)
    ensures Path(Sparing(m), longer) && longer == path + [Next(path[|path| - 1], step)]
  {
    hide Next, Enabled, Sparing;
    SparingLeads(path[|path| - 1], step, m);
    longer := OneMore(Sparing(m), path, step, Next(path[|path| - 1], step));
  }

  /** A reconcile that has only started reads a bootstrapped record if another machine sees to it. */
  lemma StartedRelabels(w: World, m: MachineId, id: ClusterId) returns (path: seq<World>)
    requires Waits(w, m, id)
    ensures Relabels(path, w, m)
  {
    hide Next, Path, Sparing, Waits, Enabled, Stale;
    path := OnlyWorld(w, m);
    var w1 := w;
    if !IsOpen(w, id) {
      CleanUpWaits(w, m, id);
      path := SparesOneMore(path, CleanUp(id), m);
      w1 := Next(w, CleanUp(id));
    }
    var n := NewName(w1.locals.Keys);
    assert n != m by { WaitsHere(w1, m, id); }
    NewMachineWaits(w1, m, id, n);
    path := SparesOneMore(path, NewMachine(n), m);
    var w2 := Next(w1, NewMachine(n));
    JoinWaits(w2, m, id, n);
    ServeEnabled(w2, n, ApplyConfiguration(Complete(id, true)));
    path := SparesOneMore(path, Serve(n, ApplyConfiguration(Complete(id, true))), m);
    var w3 := Next(w2, Serve(n, ApplyConfiguration(Complete(id, true))));
    BootstrapWaits(w3, m, id, n);
    ServeEnabled(w3, n, Bootstrap);
    path := SparesOneMore(path, Serve(n, Bootstrap), m);
    ReadAndFinish(Next(w3, Serve(n, Bootstrap)), m, id, 0);
    path := SparesOneMore(path, ReadRecord(m), m);
    path := SparesOneMore(path, Finish(m, 0), m);
  }

  lemma OnlyWorld(w: World, m: MachineId) returns (path: seq<World>)
    ensures Path(Sparing(m), path) && path == [w]
  {
    path := [w];
  }

  lemma WaitsHere(w: World, m: MachineId, id: ClusterId)
    requires Waits(w, m, id)
    ensures m in w.locals
  {
  }

  lemma ServeEnabled(w: World, m: MachineId, call: Call)
    requires m in w.locals
    ensures Enabled(w, Serve(m, call))
  {
  }

  lemma ReadRelabels(w: World, m: MachineId) returns (path: seq<World>)
    requires Fits(w) && Bare(w, m) && m in w.stages && w.stages[m].Read? && IsBootstrapped(w.stages[m].seen)
    ensures Relabels(path, w, m)
  {
    FinishLabels(w, m, 0);
    assert Enabled(w, Finish(m, 0)) && Stale(Next(w, Finish(m, 0)), m);
    hide Next, Path, Sparing, Enabled, Stale;
    path := OnlyWorld(w, m);
    path := SparesOneMore(path, Finish(m, 0), m);
  }

  // ---------------------------------------------------------------- exactly when

  /** A bare machine can get labels without a complete configuration if and only if such a reconcile is under way. */
  lemma BareRelabelsExactly(w: World, m: MachineId)
    requires Fits(w) && Bare(w, m)
    ensures (exists path: seq<World> :: Relabels(path, w, m)) <==> MayLabel(w, m)
  {
    hide Sparing;
    if MayLabel(w, m) {
      if w.stages[m].Started? {
        var path := StartedRelabels(w, m, w.stages[m].cluster);
      } else {
        var path := ReadRelabels(w, m);
      }
    } else {
      forall path: seq<World> | Relabels(path, w, m)
        ensures false
      {
        BareIsKept(path, |path| - 1, m);
      }
    }
  }

  /**
   * After a reset that succeeds, and without a complete configuration being applied to the machine, its
   * labels can come back if and only if such a reconcile was under way when it was reset.
   */
  lemma ResetRelabelsExactly(w: World, m: MachineId)
    requires Fits(w) && m in w.locals && Called(m, w.shared, w.locals[m], Reset).err == None
    ensures (exists path: seq<World> :: Relabels(path, Next(w, Serve(m, Reset)), m)) <==> MayLabel(w, m)
  {
    hide Called, Relabels, Fits, Bare;
    ResetMakesBare(w, m);
    BareRelabelsExactly(Next(w, Serve(m, Reset)), m);
  }

  // ---------------------------------------------------------------- a run in which that happens

  lemma RunOn(run: seq<World>, step: Step, w: World) returns (longer: seq<World>)
    requires Run(run) && Leads(run[|run| - 1], step, w)
    ensures Run(longer) && longer == run + [w]
  {
    hide Leads;
    longer := OneMore(Leads, run, step, w);
  }

  const UNLABELLED := Status(None, None, false, false)

  /** A world with one machine and one cluster. */
  function One(
      m: MachineId, l: Local, st: Status, clusters: map<ClusterId, Cluster>, pending: bool,
      stage: Option<Stage>): World {
    World(Shared(clusters, map[m := st]), map[m := l], if pending then {m} else {},
      if stage == None then map[] else map[m := stage.value])
  }

  function ConfiguredAs(id: ClusterId): Local {
    Local(Some(Complete(id, true)), None, None)
  }

  lemma Joins(m: MachineId, id: ClusterId)
    ensures var st := Labelled(UNLABELLED, id, true);
            && Leads(EMPTY, NewMachine(m), One(m, Local(None, None, None), UNLABELLED, map[], true, None))
            && Leads(One(m, Local(None, None, None), UNLABELLED, map[], true, None),
                     Serve(m, ApplyConfiguration(Complete(id, true))),
                     One(m, ConfiguredAs(id), st, map[id := Cluster(false, 1, 0, [], false)], true, None))
  {
  }

  lemma Bootstraps(m: MachineId, id: ClusterId, st: Status)
    ensures Leads(One(m, ConfiguredAs(id), st, map[id := Cluster(false, 1, 0, [], false)], true, None),
                  Serve(m, Bootstrap),
                  One(m, ConfiguredAs(id), st, map[id := Cluster(true, 1, 0, [], false)], true, None))
  {
  }

  lemma Reads(m: MachineId, id: ClusterId, st: Status)
    ensures var c := Cluster(true, 1, 0, [], false);
            && Leads(One(m, ConfiguredAs(id), st, map[id := c], true, None), Start(m),
                     One(m, ConfiguredAs(id), st, map[id := c], false, Some(Started(id))))
            && Leads(One(m, ConfiguredAs(id), st, map[id := c], false, Some(Started(id))), ReadRecord(m),
                     One(m, ConfiguredAs(id), st, map[id := c], false, Some(Read(id, Some(c)))))
  {
  }

  function AfterReset(m: MachineId, id: ClusterId, st: Status, stage: Stage): World {
    One(m, Local(None, None, None), st, map[id := Cluster(true, 0, 0, [], true)], true, Some(stage))
  }

  lemma Resets(m: MachineId, id: ClusterId, st: Status, stage: Stage)
    ensures Leads(One(m, ConfiguredAs(id), st, map[id := Cluster(true, 1, 0, [], false)], false, Some(stage)),
                  Serve(m, Reset), AfterReset(m, id, Unlabelled(st), stage))
  {
  }

  /** The machine has no configuration at all, and this status. */
  ghost predicate Unconfigured(w: World, m: MachineId, st: Status) {
    m in w.locals && m in w.shared.status && w.locals[m].config == None && w.shared.status[m] == st
  }

  lemma FinishesLate(m: MachineId, id: ClusterId, newID: MemberId)
    ensures var reset := AfterReset(m, id, UNLABELLED, Read(id, Some(Cluster(true, 1, 0, [], false))));
            && Leads(reset, Finish(m, newID), Next(reset, Finish(m, newID)))
            && Unconfigured(reset, m, UNLABELLED)
            && Unconfigured(Next(reset, Finish(m, newID)), m, Status(Some(newID), Some(id), true, false))
  {
    var reset := AfterReset(m, id, UNLABELLED, Read(id, Some(Cluster(true, 1, 0, [], false))));
    assert Enabled(reset, Finish(m, newID)) && Fits(reset);
    FinishLabels(reset, m, newID);
  }

  lemma StartsEmpty()
    ensures Run([EMPTY])
  {
  }

  /**
   * A run from the beginning: a control plane joins, the cluster is bootstrapped, a reconcile reads
   * its record, the machine is reset, and the reconcile puts the labels back.
   */
  lemma LateReconcileRelabels(m: MachineId, id: ClusterId, newID: MemberId) returns (run: seq<World>)
    ensures Run(run) && |run| > 2 && Leads(run[|run| - 2], Finish(m, newID), run[|run| - 1])
    ensures Unconfigured(run[|run| - 2], m, Status(None, None, false, false))
    ensures Unconfigured(run[|run| - 1], m, Status(Some(newID), Some(id), true, false))
  {
    var st, c := Labelled(UNLABELLED, id, true), Cluster(true, 1, 0, [], false);
    var stage := Read(id, Some(c));
    assert Unlabelled(st) == UNLABELLED;
    StartsEmpty();
    Joins(m, id);
    Bootstraps(m, id, st);
    Reads(m, id, st);
    Resets(m, id, st, stage);
    FinishesLate(m, id, newID);
    hide Run, Leads, One, AfterReset, Next, Unconfigured;
    run := RunOn([EMPTY], NewMachine(m), One(m, Local(None, None, None), UNLABELLED, map[], true, None));
    run := RunOn(run, Serve(m, ApplyConfiguration(Complete(id, true))),
      One(m, ConfiguredAs(id), st, map[id := Cluster(false, 1, 0, [], false)], true, None));
    run := RunOn(run, Serve(m, Bootstrap), One(m, ConfiguredAs(id), st, map[id := c], true, None));
    run := RunOn(run, Start(m), One(m, ConfiguredAs(id), st, map[id := c], false, Some(Started(id))));
    run := RunOn(run, ReadRecord(m), One(m, ConfiguredAs(id), st, map[id := c], false, Some(stage)));
    run := RunOn(run, Serve(m, Reset), AfterReset(m, id, UNLABELLED, stage));
    run := RunOn(run, Finish(m, newID), Next(AfterReset(m, id, UNLABELLED, stage), Finish(m, newID)));
  }
}
