/**
 * Runs of many machines over the shared store: calls of the machine service, the etcd controllers
 * with their pending events, and the clean-up of empty clusters, in any order.
 */
module MembershipRuns {
  import opened Ints
  import opened Results
  import opened Membership
  import opened Paths

  /** How far a reconcile has come: it has read the configuration, or also the cluster's record. */
  datatype Stage = Started(cluster: ClusterId) | Read(cluster: ClusterId, seen: Option<Cluster>)

  /** The stores, the machines whose etcd controller has an event to handle, and the reconciles under way. */
  datatype World = World(
    shared: Shared, locals: map<MachineId, Local>, pending: set<MachineId>, stages: map<MachineId, Stage>)

  /** The calls of the machine service that change a store. */
  datatype Call =
    | ApplyConfiguration(cfg: MachineConfig)
    | Bootstrap
    | Reset
    | EtcdRemoveMemberByID(member: MemberId)
    | EtcdLeaveCluster

  datatype Step =
    | NewMachine(m: MachineId)
    | Serve(m: MachineId, call: Call)
    | CleanUp(cluster: ClusterId)
    | Event(m: MachineId)
    | Start(m: MachineId)
    | ReadRecord(m: MachineId)
    | Finish(m: MachineId, newID: MemberId)

  const EMPTY := World(Shared(map[], map[]), map[], {}, map[])

  ghost predicate Enabled(w: World, step: Step) {
    match step
    case NewMachine(m) => m !in w.locals
    case CleanUp(id) => id in w.shared.clusters && w.shared.clusters[id].tearingDown
    case Start(m) => m in w.locals && m in w.pending && m !in w.stages
    case ReadRecord(m) => m in w.locals && m in w.stages && w.stages[m].Started?
    case Finish(m, _) => m in w.locals && m in w.stages && w.stages[m].Read?
    case _ => step.m in w.locals
  }

  function Called(m: MachineId, s: Shared, l: Local, call: Call): Outcome {
    match call
    case ApplyConfiguration(cfg) => Apply(m, s, l, cfg)
    case Bootstrap => BootstrapCluster(s, l)
    case Reset => ResetMachine(m, s, l)
    case EtcdRemoveMemberByID(member) => RemoveMember(s, l, member)
    case EtcdLeaveCluster => LeaveCluster(s, l)
  }

  /**
   * A call has changed the stores. The controller of every machine watches all cluster records, and
   * the configuration of its own machine.
   */
  function After(w: World, m: MachineId, o: Outcome): World
    requires m in w.locals
  {
    w.(shared := o.shared, locals := w.locals[m := o.local],
       pending := if o.shared.clusters != w.shared.clusters then w.locals.Keys
                  else if o.local.config != w.locals[m].config then w.pending + {m}
                  else w.pending)
  }

  function Next(w: World, step: Step): World
    requires Enabled(w, step)
  {
    match step
    case NewMachine(m) =>
      World(w.shared.(status := w.shared.status[m := Status(None, None, false, false)]),
            w.locals[m := Local(None, None, None)], w.pending + {m}, w.stages - {m})
    case Serve(m, call) => After(w, m, Called(m, w.shared, w.locals[m], call))
    case CleanUp(id) => w.(shared := w.shared.(clusters := w.shared.clusters - {id}), pending := w.locals.Keys)
    case Event(m) => w.(pending := w.pending + {m})
    case Start(m) =>
      var w' := w.(pending := w.pending - {m});
      if EtcdCaller(w.locals[m]).Some? then w'
      else w'.(stages := w.stages[m := Started(w.locals[m].config.value.cluster)])
    case ReadRecord(m) =>
      var id := w.stages[m].cluster;
      w.(stages := w.stages[m := Read(id, RecordOf(w.shared, id))])
    case Finish(m, newID) =>
      var o := Reconcile(m, w.shared, w.locals[m], w.stages[m].cluster, w.stages[m].seen, newID);
      w.(shared := o.shared, locals := w.locals[m := o.local], stages := w.stages - {m})
  }

  ghost predicate Leads(w: World, step: Step, w': World) {
    Enabled(w, step) && w' == Next(w, step)
  }

  ghost predicate Run(run: seq<World>) {
    Path(Leads, run) && run[0] == EMPTY
  }

  // ---------------------------------------------------------------- what every step keeps

  ghost predicate NoRepeats(deny: seq<MemberId>) {
    forall i, j | 0 <= i < j < |deny| :: deny[i] != deny[j]
  }

  /** No call touches the machine's member ID or etcd service, nor the status of another machine. */
  lemma CallStaysLocal(m: MachineId, s: Shared, l: Local, call: Call)
    requires m in s.status
    ensures var o := Called(m, s, l, call);
            && o.local.member == l.member && o.local.etcd == l.etcd
            && o.shared.status.Keys == s.status.Keys
            && o.shared.status[m].etcdMemberId == s.status[m].etcdMemberId
            && (forall n | n in s.status && n != m :: o.shared.status[n] == s.status[n])
            && (o.shared.status != s.status ==> o.local.config != l.config)
  {
  }

  /** A call removes no cluster record, and takes nobody off a list of denied members. */
  lemma CallKeepsDenied(m: MachineId, s: Shared, l: Local, call: Call, id: ClusterId)
    requires id in s.clusters
    ensures var o := Called(m, s, l, call);
            && id in o.shared.clusters
            && s.clusters[id].denyEtcdMembers <= o.shared.clusters[id].denyEtcdMembers
            && (NoRepeats(s.clusters[id].denyEtcdMembers) ==> NoRepeats(o.shared.clusters[id].denyEtcdMembers))
  {
  }

  lemma CallMakesNoRepeats(m: MachineId, s: Shared, l: Local, call: Call, id: ClusterId)
    requires id !in s.clusters && id in Called(m, s, l, call).shared.clusters
    ensures NoRepeats(Called(m, s, l, call).shared.clusters[id].denyEtcdMembers)
  {
  }

  /** Every machine has a status, whose member ID, if it has one, is the machine's own. */
  ghost predicate Fits(w: World) {
    && w.locals.Keys == w.shared.status.Keys
    && forall m | m in w.locals :: w.shared.status[m].etcdMemberId.Some? ==>
        w.locals[m].member == w.shared.status[m].etcdMemberId
  }

  lemma StepFits(w: World, step: Step)
    requires Enabled(w, step) && Fits(w)
    ensures Fits(Next(w, step))
  {
    hide Called, EtcdCaller;
    if step.Serve? {
      CallStaysLocal(step.m, w.shared, w.locals[step.m], step.call);
    }
  }

  /** A member ID, once a machine has one, is never changed. */
  lemma StepKeepsMember(w: World, step: Step, m: MachineId)
    requires Enabled(w, step) && Fits(w) && m in w.locals
    ensures m in Next(w, step).locals
    ensures w.locals[m].member.Some? ==> Next(w, step).locals[m].member == w.locals[m].member
  {
    hide Called, EtcdCaller;
    if step.Serve? {
      CallStaysLocal(step.m, w.shared, w.locals[step.m], step.call);
    }
  }

  /** A list of denied members only grows at its end, without repeats, until its record is destroyed. */
  lemma StepKeepsDenied(w: World, step: Step, id: ClusterId)
    requires Enabled(w, step) && id in w.shared.clusters && id in Next(w, step).shared.clusters
    ensures w.shared.clusters[id].denyEtcdMembers <= Next(w, step).shared.clusters[id].denyEtcdMembers
  {
    hide Called, EtcdCaller, NoRepeats;
    if step.Serve? {
      CallKeepsDenied(step.m, w.shared, w.locals[step.m], step.call, id);
    }
  }

  ghost predicate DeniedOnce(w: World) {
    forall id | id in w.shared.clusters :: NoRepeats(w.shared.clusters[id].denyEtcdMembers)
  }

  lemma StepDeniesOnce(w: World, step: Step)
    requires Enabled(w, step) && DeniedOnce(w)
    ensures DeniedOnce(Next(w, step))
  {
    hide Called, EtcdCaller, NoRepeats;
    if step.Serve? {
      forall id | id in Next(w, step).shared.clusters
        ensures NoRepeats(Next(w, step).shared.clusters[id].denyEtcdMembers)
      {
        if id in w.shared.clusters {
          CallKeepsDenied(step.m, w.shared, w.locals[step.m], step.call, id);
        } else {
          CallMakesNoRepeats(step.m, w.shared, w.locals[step.m], step.call, id);
        }
      }
    }
  }

  // ---------------------------------------------------------------- the etcd service settles

  /** The record says that the cluster is bootstrapped. */
  predicate IsBootstrapped(seen: Option<Cluster>) {
    seen.Some? && seen.value.bootstrapped
  }

  /**
   * The machine's etcd service is running exactly if the cluster is bootstrapped, and healthy exactly
   * if, besides, its member is not denied. If it is running, the shared status has its member ID
   * together with both labels.
   */
  ghost predicate Settled(w: World, m: MachineId, id: ClusterId)
    requires m in w.locals && m in w.shared.status
  {
    var l, record := w.locals[m], RecordOf(w.shared, id);
    && l.etcd.Some?
    && (l.etcd.value.running <==> IsBootstrapped(record))
    && (l.etcd.value.running ==>
          && l.member.Some?
          && w.shared.status[m].etcdMemberId == l.member
          && w.shared.status[m].cluster == Some(id) && w.shared.status[m].controlPlane)
    && (l.etcd.value.healthy <==> l.etcd.value.running && l.member.value !in record.value.denyEtcdMembers)
  }

  /** A control plane without a pending event is settled, or its reconcile has read what is current. */
  ghost predicate UpToDate(w: World, m: MachineId) {
    && m in w.locals && m in w.shared.status
    && (EtcdCaller(w.locals[m]) == None && m !in w.pending ==>
          var id := w.locals[m].config.value.cluster;
          if m !in w.stages then Settled(w, m, id)
          else if w.stages[m].Started? then w.stages[m].cluster == id
          else w.stages[m] == Read(id, RecordOf(w.shared, id)))
  }

  ghost predicate AllUpToDate(w: World) {
    w.locals.Keys == w.shared.status.Keys && forall m | m in w.locals :: UpToDate(w, m)
  }

  lemma ServeUpToDate(w: World, m: MachineId, call: Call, n: MachineId)
    requires AllUpToDate(w) && m in w.locals && n in w.locals
    ensures UpToDate(Next(w, Serve(m, call)), n)
  {
    hide Called, EtcdCaller;
    CallStaysLocal(m, w.shared, w.locals[m], call);
    assert UpToDate(w, n);
    SameConfigSameCaller(w.locals[m], Called(m, w.shared, w.locals[m], call).local);
  }

  lemma SameConfigSameCaller(l: Local, l': Local)
    ensures l.config == l'.config ==> EtcdCaller(l) == EtcdCaller(l')
    ensures EtcdCaller(l) == None ==> l.config.Some? && l.config.value.Complete?
  {
  }

  /** A finished reconcile settles the machine, if what it had read is still current. */
  lemma FinishSettles(w: World, m: MachineId, newID: MemberId)
    requires m in w.locals && m in w.shared.status && m in w.stages && w.stages[m].Read?
    requires w.stages[m].seen == RecordOf(w.shared, w.stages[m].cluster)
    ensures Settled(Next(w, Finish(m, newID)), m, w.stages[m].cluster)
  {
  }

  lemma StepUpToDate(w: World, step: Step)
    requires Enabled(w, step) && AllUpToDate(w)
    ensures AllUpToDate(Next(w, step))
  {
    hide Called, EtcdCaller, Settled;
    var w' := Next(w, step);
    StepKeys(w, step);
    forall n | n in w'.locals
      ensures UpToDate(w', n)
    {
      if n in w.locals {
        assert UpToDate(w, n);
        if step.Serve? {
          ServeUpToDate(w, step.m, step.call, n);
        } else {
          OtherUpToDate(w, step, n);
        }
      }
    }
  }

  lemma StepKeys(w: World, step: Step)
    requires Enabled(w, step) && w.locals.Keys == w.shared.status.Keys
    ensures Next(w, step).locals.Keys == Next(w, step).shared.status.Keys
    ensures w.locals.Keys <= Next(w, step).locals.Keys <= w.locals.Keys + (if step.NewMachine? then {step.m} else {})
  {
    hide Called, EtcdCaller;
    if step.Serve? {
      CallStaysLocal(step.m, w.shared, w.locals[step.m], step.call);
    }
  }

  lemma OtherUpToDate(w: World, step: Step, n: MachineId)
    requires Enabled(w, step) && !step.Serve? && w.locals.Keys == w.shared.status.Keys && n in w.locals &&
              UpToDate(w, n)
    ensures UpToDate(Next(w, step), n)
  {
    hide EtcdCaller;
    match step
    case Finish(m, newID) =>
      SameConfigSameCaller(w.locals[m], Next(w, step).locals[m]);
      if n == m && EtcdCaller(w.locals[m]) == None && m !in w.pending {
        FinishSettles(w, m, newID);
      }
    case _ =>
  }

  /** Left alone, a control plane with an event to handle settles in three steps. */
  lemma ReconcileSettles(w: World, m: MachineId, newID: MemberId)
    requires w.locals.Keys == w.shared.status.Keys
    requires Enabled(w, Start(m)) && EtcdCaller(w.locals[m]) == None
    ensures var w1 := Next(w, Start(m));
            && Enabled(w1, ReadRecord(m))
            && Enabled(Next(w1, ReadRecord(m)), Finish(m, newID))
            && Settled(Next(Next(w1, ReadRecord(m)), Finish(m, newID)), m, w.locals[m].config.value.cluster)
  {
    var w1 := Next(w, Start(m));
    FinishSettles(Next(w1, ReadRecord(m)), m, newID);
  }

  // ---------------------------------------------------------------- whole runs

  lemma {:induction false} RunUpToDate(run: seq<World>, i: nat)
    requires Run(run) && i < |run|
    ensures AllUpToDate(run[i])
  {
    hide UpToDate, Next, Enabled, Path;
    if i > 0 {
      RunUpToDate(run, i - 1);
      var step := StepTo(Leads, run, i);
      StepUpToDate(run[i - 1], step);
    }
  }

  /**
   * In whatever order the configuration, the bootstrap and the denials come: whenever a control plane
   * has no event pending and no reconcile under way, its etcd service is as it should be.
   */
  lemma EtcdStartsUp(run: seq<World>, i: nat, m: MachineId)
    requires Run(run) && i < |run| && m in run[i].locals
    requires EtcdCaller(run[i].locals[m]) == None && m !in run[i].pending && m !in run[i].stages
    ensures m in run[i].shared.status && Settled(run[i], m, run[i].locals[m].config.value.cluster)
  {
    hide Settled;
    RunUpToDate(run, i);
    assert UpToDate(run[i], m);
  }

  /**
   * Over every run, of the control planes without a pending event or a reconcile under way, those
   * that run etcd are reported by EtcdMemberList exactly if their service is healthy.
   */
  lemma RunningIsListed(run: seq<World>, i: nat, m: MachineId)
    requires Run(run) && i < |run| && m in run[i].locals
    requires EtcdCaller(run[i].locals[m]) == None && m !in run[i].pending && m !in run[i].stages
    requires run[i].locals[m].etcd.Some? && run[i].locals[m].etcd.value.running
    ensures run[i].locals[m].member.Some?
    ensures Listed(run[i].shared, run[i].locals[m].config.value.cluster, m, run[i].locals[m].member.value) <==>
            run[i].locals[m].etcd.value.healthy
  {
    hide Run, EtcdCaller;
    EtcdStartsUp(run, i, m);
  }

  lemma {:induction false} RunFits(run: seq<World>, i: nat)
    requires Run(run) && i < |run|
    ensures Fits(run[i]) && DeniedOnce(run[i])
  {
    hide Next, Enabled, Path, NoRepeats;
    if i > 0 {
      RunFits(run, i - 1);
      var step := StepTo(Leads, run, i);
      StepFits(run[i - 1], step);
      StepDeniesOnce(run[i - 1], step);
    }
  }

  /** Over every run, whatever is listed is a machine's own member, not denied, with the labels of both. */
  lemma ListedIsOwn(run: seq<World>, i: nat, m: MachineId, id: ClusterId, member: MemberId)
    requires Run(run) && i < |run| && Listed(run[i].shared, id, m, member)
    ensures m in run[i].locals && run[i].locals[m].member == Some(member)
    ensures m in run[i].shared.status && run[i].shared.status[m].cluster == Some(id)
    ensures run[i].shared.status[m].controlPlane
    ensures id in run[i].shared.clusters && member !in run[i].shared.clusters[id].denyEtcdMembers
  {
    hide Run;
    RunFits(run, i);
  }

  /** Over a whole run, a machine's member ID never changes once it is set. */
  lemma {:induction false} MemberIsKept(run: seq<World>, i: nat, j: nat, m: MachineId)
    requires Run(run) && i <= j < |run| && m in run[i].locals
    ensures m in run[j].locals
    ensures run[i].locals[m].member.Some? ==> run[j].locals[m].member == run[i].locals[m].member
    decreases j
  {
    hide Next, Enabled, Path, Fits;
    if i < j {
      MemberIsKept(run, i, j - 1, m);
      RunFits(run, j - 1);
      var step := StepTo(Leads, run, j);
      StepKeepsMember(run[j - 1], step, m);
    }
  }

  /** The record of the cluster is there all the time from i to j. */
  ghost predicate Lives(run: seq<World>, i: nat, j: nat, id: ClusterId)
    requires i <= j < |run|
  {
    forall k | i <= k <= j :: id in run[k].shared.clusters
  }

  /** As long as the record of a cluster lives, its list of denied members only grows. */
  lemma {:induction false} DeniedGrows(run: seq<World>, i: nat, j: nat, id: ClusterId)
    requires Run(run) && i <= j < |run| && Lives(run, i, j, id)
    ensures run[i].shared.clusters[id].denyEtcdMembers <= run[j].shared.clusters[id].denyEtcdMembers
    ensures NoRepeats(run[j].shared.clusters[id].denyEtcdMembers)
    decreases j
  {
    hide Next, Enabled, Path, Fits, NoRepeats;
    RunFits(run, j);
    if i < j {
      DeniedGrows(run, i, j - 1, id);
      var step := StepTo(Leads, run, j);
      StepKeepsDenied(run[j - 1], step, id);
    }
  }

  /** A member that was removed or has left is never listed again while the record of the cluster lives. */
  lemma NeverListedAgain(run: seq<World>, i: nat, j: nat, id: ClusterId, member: MemberId, m: MachineId)
    requires Run(run) && i <= j < |run| && Lives(run, i, j, id)
    requires member in run[i].shared.clusters[id].denyEtcdMembers
    ensures !Listed(run[j].shared, id, m, member)
  {
    DeniedGrows(run, i, j, id);
  }

  /** Removing a member, or leaving, is what denies it. */
  lemma RemovedIsDenied(w: World, m: MachineId, call: Call)
    requires Enabled(w, Serve(m, call)) && Called(m, w.shared, w.locals[m], call).err == None
    requires call.EtcdRemoveMemberByID? || call.EtcdLeaveCluster?
    ensures EtcdCaller(w.locals[m]) == None
    ensures var id := w.locals[m].config.value.cluster;
            && id in Next(w, Serve(m, call)).shared.clusters
            && (call.EtcdLeaveCluster? ==> w.locals[m].member.Some?)
            && (if call.EtcdLeaveCluster? then w.locals[m].member.value else call.member) in
                 Next(w, Serve(m, call)).shared.clusters[id].denyEtcdMembers
  {
  }

  predicate IsHealthy(l: Local) {
    l.etcd.Some? && l.etcd.value.healthy
  }

  /**
   * The machine has this member, which is denied, and its etcd is not healthy; a reconcile under way
   * is for this cluster and has not read a record in which the member is not denied.
   */
  ghost predicate Shut(w: World, m: MachineId, id: ClusterId, member: MemberId) {
    && m in w.locals && w.locals[m].member == Some(member) && !IsHealthy(w.locals[m])
    && id in w.shared.clusters && member in w.shared.clusters[id].denyEtcdMembers
    && (m in w.stages ==> w.stages[m].cluster == id)
    && (m in w.stages && w.stages[m].Read? && IsBootstrapped(w.stages[m].seen) ==>
          member in w.stages[m].seen.value.denyEtcdMembers)
  }

  lemma ServeKeepsShut(w: World, n: MachineId, call: Call, m: MachineId, id: ClusterId, member: MemberId)
    requires n in w.locals && Fits(w) && Shut(w, m, id, member)
    ensures Shut(Next(w, Serve(n, call)), m, id, member)
  {
    hide Called, EtcdCaller;
    CallStaysLocal(n, w.shared, w.locals[n], call);
    CallKeepsDenied(n, w.shared, w.locals[n], call, id);
  }

  lemma StepKeepsShut(w: World, step: Step, m: MachineId, id: ClusterId, member: MemberId)
    requires Enabled(w, step) && Fits(w) && Shut(w, m, id, member) && id in Next(w, step).shared.clusters
    requires EtcdCaller(w.locals[m]) == None ==> w.locals[m].config.value.cluster == id
    ensures Shut(Next(w, step), m, id, member)
  {
    hide Called, EtcdCaller;
    if step.Serve? {
      ServeKeepsShut(w, step.m, step.call, m, id, member);
    }
  }

  /**
   * Once a machine's member is denied and its etcd is not healthy, it is never healthy again while
   * the cluster's record lives, however often the machine is reset and configured for that cluster.
   */
  lemma {:induction false} DeniedNeverHealthy(
      run: seq<World>, i: nat, j: nat, m: MachineId, id: ClusterId, member: MemberId)
    requires Run(run) && i <= j < |run| && Lives(run, i, j, id) && Shut(run[i], m, id, member)
    requires forall k | i <= k <= j && m in run[k].locals && EtcdCaller(run[k].locals[m]) == None ::
               run[k].locals[m].config.value.cluster == id
    ensures Shut(run[j], m, id, member) && !IsHealthy(run[j].locals[m])
    decreases j
  {
    hide Next, Enabled, Path, Fits, EtcdCaller;
    if i < j {
      DeniedNeverHealthy(run, i, j - 1, m, id, member);
      RunFits(run, j - 1);
      var step := StepTo(Leads, run, j);
      StepKeepsShut(run[j - 1], step, m, id, member);
    }
  }

  /**
   * Whenever such a machine has no event pending and no reconcile under way, its etcd is not healthy,
   * whatever it was.
   */
  lemma DeniedIsUnhealthy(run: seq<World>, i: nat, j: nat, m: MachineId, id: ClusterId)
    requires Run(run) && i <= j < |run| && Lives(run, i, j, id)
    requires m in run[i].locals && run[i].locals[m].member.Some?
    requires run[i].locals[m].member.value in run[i].shared.clusters[id].denyEtcdMembers
    requires m in run[j].locals && EtcdCaller(run[j].locals[m]) == None && run[j].locals[m].config.value.cluster == id
    requires m !in run[j].pending && m !in run[j].stages
    ensures run[j].locals[m].etcd.Some? && !run[j].locals[m].etcd.value.healthy
  {
    hide Run, AllUpToDate, EtcdCaller;
    EtcdStartsUp(run, j, m);
    MemberIsKept(run, i, j, m);
    DeniedGrows(run, i, j, id);
  }
}
