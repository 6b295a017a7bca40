/** What each call of the machine service, and a reconcile, leaves in every field of the stores. */
module MembershipCalls {
  import opened Ints
  import opened Results
  import opened Membership

  /** All records but one, and all statuses but one. */
  ghost predicate OthersSame(s: Shared, s': Shared, id: ClusterId, m: MachineId) {
    && (forall other | other != id ::
          (other in s'.clusters <==> other in s.clusters) &&
          (other in s.clusters ==> s'.clusters[other] == s.clusters[other]))
    && s'.status.Keys == s.status.Keys
    && (forall n | n in s.status && n != m :: s'.status[n] == s.status[n])
  }

  /** The machine has a complete configuration. */
  predicate HasConfig(l: Local) {
    l.config.Some? && l.config.value.Complete?
  }

  /**
   * ApplyConfiguration. The configuration is always stored. If it is complete and there was no complete
   * one, the machine joins: its role is counted in the record of the cluster, which is made if there is
   * none, and its status gets the labels of the cluster and of its role.
   */
  lemma ApplyMeans(m: MachineId, s: Shared, l: Local, cfg: MachineConfig)
    ensures var o := Apply(m, s, l, cfg);
            o.local.config == Some(cfg) && o.local.member == l.member && o.local.etcd == l.etcd
    ensures cfg.Partial? || HasConfig(l) ==> Apply(m, s, l, cfg).shared == s && Apply(m, s, l, cfg).err == None
    ensures cfg.Complete? && !HasConfig(l) ==> Joined(m, s, cfg.cluster, cfg.controlPlane, Apply(m, s, l, cfg))
  {
    hide Joined, Counted, Increment;
    if cfg.Complete? && !HasConfig(l) {
      JoinMeans(m, s, l, cfg);
    }
  }

  lemma JoinMeans(m: MachineId, s: Shared, l: Local, cfg: MachineConfig)
    requires cfg.Complete? && !HasConfig(l)
    ensures Joined(m, s, cfg.cluster, cfg.controlPlane, Apply(m, s, l, cfg))
  {
    var before := if cfg.cluster in s.clusters then s.clusters[cfg.cluster] else Cluster(false, 0, 0, [], false);
    CountedMeans(before, cfg.controlPlane);
    hide Increment, Counted;
  }

  lemma CountedMeans(c: Cluster, controlPlane: bool)
    ensures var c' := Counted(c, controlPlane);
            && c'.controlPlanes == (c.controlPlanes + if controlPlane then 1 else 0) % TWO_32
            && c'.workers == (c.workers + if controlPlane then 0 else 1) % TWO_32
            && c'.bootstrapped == c.bootstrapped && c'.denyEtcdMembers == c.denyEtcdMembers
            && c'.tearingDown == c.tearingDown
  {
  }

  ghost predicate Joined(m: MachineId, s: Shared, id: ClusterId, controlPlane: bool, o: Outcome) {
    var before := if id in s.clusters then s.clusters[id] else Cluster(false, 0, 0, [], false);
    && id in o.shared.clusters
    && OthersSame(s, o.shared, id, m)
    && o.err == (if before.tearingDown then Some(PhaseConflict) else if m !in s.status then Some(NotFound) else None)
    && (before.tearingDown ==> o.shared == s)
    && (!before.tearingDown ==> (
          var c := o.shared.clusters[id];
          && c.controlPlanes == (before.controlPlanes + if controlPlane then 1 else 0) % TWO_32
          && c.workers == (before.workers + if controlPlane then 0 else 1) % TWO_32
          && c.bootstrapped == before.bootstrapped && c.denyEtcdMembers == before.denyEtcdMembers && !c.tearingDown))
    && (o.err == None ==> HasOwnLabels(s.status[m], o.shared.status[m], id, controlPlane))
    && (o.err != None ==> o.shared.status == s.status)
  }

  /** The label of the cluster and that of the role; the label of the other role and the member ID stay. */
  predicate HasOwnLabels(before: Status, after: Status, id: ClusterId, controlPlane: bool) {
    && after.cluster == Some(id)
    && (controlPlane ==> after.controlPlane && after.worker == before.worker)
    && (!controlPlane ==> after.worker && after.controlPlane == before.controlPlane)
    && after.etcdMemberId == before.etcdMemberId
  }

  /** Bootstrap sets the flag of a record that is there, not bootstrapped and not torn down, and nothing else. */
  lemma BootstrapMeans(s: Shared, l: Local)
    ensures var o := BootstrapCluster(s, l);
            && o.local == l && o.shared.status == s.status
            && (o.err != None ==> o.shared == s)
            && (!HasConfig(l) ==> o.err == Some(InvalidArgument))
    ensures HasConfig(l) ==> (
              var o, id := BootstrapCluster(s, l), l.config.value.cluster;
              && (o.err == Some(InternalError) <==> id !in s.clusters)
              && (o.err == Some(InvalidArgument) <==> id in s.clusters && s.clusters[id].bootstrapped)
              && (o.err == Some(PhaseConflict) <==>
                    id in s.clusters && !s.clusters[id].bootstrapped && s.clusters[id].tearingDown)
              && (o.err == None ==> (
                    && id in s.clusters && o.shared.clusters.Keys == s.clusters.Keys
                    && o.shared.clusters[id].bootstrapped
                    && o.shared.clusters[id].(bootstrapped := false) == s.clusters[id]
                    && forall other | other in s.clusters && other != id ::
                         o.shared.clusters[other] == s.clusters[other])))
  {
  }

  /**
   * Reset. The configuration goes first, even if a later step fails. Then the role is counted down, the
   * flag is cleared if the counter of control planes was zero before, the record is torn down if both
   * counters are zero after, and the three labels go.
   */
  lemma ResetMeans(m: MachineId, s: Shared, l: Local)
    ensures !HasConfig(l) ==> ResetMachine(m, s, l) == Outcome(s, l, Some(InvalidArgument))
    ensures HasConfig(l) ==> LeavesCluster(m, s, l, ResetMachine(m, s, l))
  {
  }

  ghost predicate LeavesCluster(m: MachineId, s: Shared, l: Local, o: Outcome)
    requires HasConfig(l)
  {
    var id, role := l.config.value.cluster, l.config.value.controlPlane;
    && o.local.config == None && o.local.member == l.member && o.local.etcd == l.etcd
    && OthersSame(s, o.shared, id, m)
    && o.err == (if id !in s.clusters then Some(InternalError)
                 else if s.clusters[id].tearingDown then Some(PhaseConflict)
                 else if m !in s.status then Some(NotFound) else None)
    && (o.err == Some(InternalError) || o.err == Some(PhaseConflict) ==> o.shared == s)
    && (o.err == None || o.err == Some(NotFound) ==> (
          && id in o.shared.clusters
          && IsUncounted(s.clusters[id], o.shared.clusters[id], role)))
    && (o.err == None ==> (
          && o.shared.status[m].cluster == None && !o.shared.status[m].controlPlane && !o.shared.status[m].worker
          && o.shared.status[m].etcdMemberId == s.status[m].etcdMemberId))
    && (o.err != None ==> o.shared.status == s.status)
  }

  predicate IsUncounted(before: Cluster, after: Cluster, controlPlane: bool) {
    && after.controlPlanes == (before.controlPlanes + TWO_32 - if controlPlane then 1 else 0) % TWO_32
    && after.workers == (before.workers + TWO_32 - if controlPlane then 0 else 1) % TWO_32
    && (after.bootstrapped <==> before.bootstrapped && !(controlPlane && before.controlPlanes == 0))
    && (after.tearingDown <==> after.controlPlanes == 0 && after.workers == 0)
    && after.denyEtcdMembers == before.denyEtcdMembers
  }

  /** The etcd calls are for machines that are configured as control planes. */
  predicate IsControlPlane(l: Local) {
    HasConfig(l) && l.config.value.controlPlane
  }

  /** The member is denied from now on, after those that were; nothing else changes. */
  ghost predicate Denies(s: Shared, o: Outcome, id: ClusterId, member: MemberId) {
    && o.shared.status == s.status
    && o.err == (if id !in s.clusters || s.clusters[id].tearingDown then Some(InternalError) else None)
    && (o.err != None ==> o.shared == s)
    && (o.err == None ==> (
          && o.shared.clusters.Keys == s.clusters.Keys
          && (forall other | other in s.clusters && other != id :: o.shared.clusters[other] == s.clusters[other])
          && o.shared.clusters[id].(denyEtcdMembers := s.clusters[id].denyEtcdMembers) == s.clusters[id]
          && o.shared.clusters[id].denyEtcdMembers ==
               (if member in s.clusters[id].denyEtcdMembers then s.clusters[id].denyEtcdMembers
                else s.clusters[id].denyEtcdMembers + [member])))
  }

  lemma RemoveMeans(s: Shared, l: Local, member: MemberId)
    ensures RemoveMember(s, l, member).local == l
    ensures !IsControlPlane(l) ==> RemoveMember(s, l, member) == Outcome(s, l, Some(InvalidArgument))
    ensures IsControlPlane(l) ==> Denies(s, RemoveMember(s, l, member), l.config.value.cluster, member)
  {
  }

  lemma LeaveMeans(s: Shared, l: Local)
    ensures LeaveCluster(s, l).local == l
    ensures !IsControlPlane(l) || l.member == None ==> LeaveCluster(s, l) == Outcome(s, l, Some(InvalidArgument))
    ensures IsControlPlane(l) && l.member != None ==>
              Denies(s, LeaveCluster(s, l), l.config.value.cluster, l.member.value)
  {
  }

  /**
   * A reconcile. Without a record, or before the bootstrap, the service is neither running nor healthy,
   * and nothing else changes. After it, the service runs, the machine has a member ID, the new one if it
   * had none, and its status has that together with both labels; it is healthy unless the record that was
   * read denies the member.
   */
  lemma ReconcileMeans(m: MachineId, s: Shared, l: Local, id: ClusterId, seen: Option<Cluster>, newID: MemberId)
    ensures var o := Reconcile(m, s, l, id, seen, newID);
            && o.local.config == l.config && o.shared.clusters == s.clusters && OthersSame(s, o.shared, id, m)
            && (seen == None || !seen.value.bootstrapped ==>
                  && o.shared == s && o.err == None
                  && o.local.member == l.member && o.local.etcd == Some(Service(false, false)))
            && (seen != None && seen.value.bootstrapped ==> Runs(m, s, l, id, seen.value, newID, o))
  {
  }

  ghost predicate Runs(
      m: MachineId, s: Shared, l: Local, id: ClusterId, seen: Cluster, newID: MemberId, o: Outcome) {
    && o.local.member.Some?
    && (l.member.Some? ==> o.local.member == l.member) && (l.member == None ==> o.local.member == Some(newID))
    && o.err == (if m in s.status then None else Some(NotFound))
    && o.local.etcd.Some? && o.local.etcd.value.running
    && (o.local.etcd.value.healthy <==> m in s.status && o.local.member.value !in seen.denyEtcdMembers)
    && (m in s.status ==> (
          && m in o.shared.status && o.shared.status[m].etcdMemberId == o.local.member
          && o.shared.status[m].cluster == Some(id) && o.shared.status[m].controlPlane
          && o.shared.status[m].worker == s.status[m].worker))
  }
}
