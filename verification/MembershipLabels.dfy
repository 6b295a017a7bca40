/** Which labels a configured machine has, over runs. */
module MembershipLabels {
  import opened Results
  import opened Membership
  import opened Paths
  import opened MembershipRuns
  import opened MembershipResets

  /**
   * The machine has this configuration, the labels of its cluster and its role and no other, and no
   * reconcile of it is under way that may write others.
   */
  ghost predicate HasOwn(w: World, m: MachineId, id: ClusterId, controlPlane: bool) {
    && m in w.locals && m in w.shared.status
    && w.locals[m].config == Some(Complete(id, controlPlane))
    && w.shared.status[m].cluster == Some(id)
    && w.shared.status[m].controlPlane == controlPlane && w.shared.status[m].worker == !controlPlane
    && (MayLabel(w, m) ==> controlPlane && w.stages[m].cluster == id)
  }

  /** A machine without labels and without such a reconcile gets just its own when it is configured. */
  lemma ConfiguringLabels(w: World, m: MachineId, id: ClusterId, controlPlane: bool)
    requires Fits(w) && Bare(w, m) && !MayLabel(w, m)
    requires Called(m, w.shared, w.locals[m], ApplyConfiguration(Complete(id, controlPlane))).err == None
    ensures HasOwn(Next(w, Serve(m, ApplyConfiguration(Complete(id, controlPlane)))), m, id, controlPlane)
  {
  }

  /** A call that leaves a complete configuration as it is leaves all labels. */
  lemma CallKeepsLabels(m: MachineId, s: Shared, l: Local, call: Call)
    requires m in s.status && GetComplete(l).Some? && Called(m, s, l, call).local.config == l.config
    ensures Called(m, s, l, call).shared.status == s.status
  {
  }

  lemma StepKeepsOwn(w: World, step: Step, m: MachineId, id: ClusterId, controlPlane: bool)
    requires Enabled(w, step) && Fits(w) && HasOwn(w, m, id, controlPlane)
    requires Next(w, step).locals[m].config == Some(Complete(id, controlPlane))
    ensures HasOwn(Next(w, step), m, id, controlPlane)
  {
    hide Called;
    if step.Serve? {
      CallStaysLocal(step.m, w.shared, w.locals[step.m], step.call);
      if step.m == m {
        CallKeepsLabels(m, w.shared, w.locals[m], step.call);
      }
    }
  }

  /** It keeps them over a run as long as it has that configuration. */
  lemma {:induction false} OwnIsKept(
      run: seq<World>, i: nat, j: nat, m: MachineId, id: ClusterId, controlPlane: bool)
    requires Run(run) && i <= j < |run| && HasOwn(run[i], m, id, controlPlane)
    requires forall k | i <= k <= j && m in run[k].locals :: run[k].locals[m].config == Some(Complete(id, controlPlane))
    ensures HasOwn(run[j], m, id, controlPlane)
    decreases j
  {
    hide Next, Enabled, Path, Fits;
    if i < j {
      OwnIsKept(run, i, j - 1, m, id, controlPlane);
      RunFits(run, j - 1);
      var step := StepTo(Leads, run, j);
      MachinesStay(run[j - 1], step, m);
      StepKeepsOwn(run[j - 1], step, m, id, controlPlane);
    }
  }

  lemma MachinesStay(w: World, step: Step, m: MachineId)
    requires Enabled(w, step) && m in w.locals
    ensures m in Next(w, step).locals
  {
    hide Called, EtcdCaller;
  }

  /**
   * Over every run: a machine that is configured when it has no labels, no complete configuration and no
   * reconcile under way that may write labels has from then on exactly the labels of its cluster and its
   * role, as long as that configuration stays.
   */
  lemma ConfiguredHasOwnLabels(run: seq<World>, i: nat, j: nat, m: MachineId, id: ClusterId, controlPlane: bool)
    requires Run(run) && 0 < i <= j < |run| && Bare(run[i - 1], m) && !MayLabel(run[i - 1], m)
    requires run[i] == Next(run[i - 1], Serve(m, ApplyConfiguration(Complete(id, controlPlane))))
    requires Called(m, run[i - 1].shared, run[i - 1].locals[m], ApplyConfiguration(Complete(id, controlPlane))).err ==
              None
    requires forall k | i <= k <= j && m in run[k].locals :: run[k].locals[m].config == Some(Complete(id, controlPlane))
    ensures m in run[j].shared.status
    ensures var st := run[j].shared.status[m];
            st.cluster == Some(id) && (st.controlPlane <==> controlPlane) && (st.worker <==> !controlPlane)
  {
    RunFits(run, i - 1);
    ConfiguringLabels(run[i - 1], m, id, controlPlane);
    hide Run, Next, Called, Bare;
    OwnIsKept(run, i, j, m, id, controlPlane);
  }
}
