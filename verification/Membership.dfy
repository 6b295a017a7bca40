/**
 * The machine service calls that change who belongs to a cluster: they read and write the machine's
 * own state and the records that all machines share.
 */
module Membership {
  import opened Ints
  import opened Results

  type ClusterId = string
  type MachineId = string

  /** An etcd member ID. The store writes it in hexadecimal, and no ID as the empty string. */
  type MemberId = uint64

  /** A machine configuration, which is partial if it has no machine section. */
  datatype MachineConfig = Partial | Complete(cluster: ClusterId, controlPlane: bool)

  datatype Cluster = Cluster(
    bootstrapped: bool, controlPlanes: uint32, workers: uint32, denyEtcdMembers: seq<MemberId>, tearingDown: bool)

  /** The shared status of a machine: its member ID and its labels. */
  datatype Status = Status(etcdMemberId: Option<MemberId>, cluster: Option<ClusterId>, controlPlane: bool, worker: bool)

  datatype Service = Service(running: bool, healthy: bool)

  /** What a machine keeps for itself. */
  datatype Local = Local(config: Option<MachineConfig>, member: Option<MemberId>, etcd: Option<Service>)

  /** What all machines share. */
  datatype Shared = Shared(clusters: map<ClusterId, Cluster>, status: map<MachineId, Status>)

  datatype Code =
    InvalidArgument | InternalError | UnimplementedError | NotFound | PhaseConflict

  /** What a call leaves behind, and the error it returns. */
  datatype Outcome = Outcome(shared: Shared, local: Local, err: Option<Code>)

  const NO_CLUSTER := Cluster(false, 0, 0, [], false)

  function Increment(x: uint32): uint32 {
    if x + 1 == TWO_32 then 0 else x + 1
  }

  function Decrement(x: uint32): uint32 {
    if x == 0 then TWO_32 - 1 else x - 1
  }

  /** machineconfig.GetComplete: a partial configuration is as good as none. */
  function GetComplete(l: Local): Option<MachineConfig> {
    if l.config.Some? && l.config.value.Complete? then l.config else None
  }

  // ---------------------------------------------------------------- the calls, as state changes

  /** Why an update of a cluster record fails: there is none, or it is being torn down. */
  function UpdateFails(s: Shared, id: ClusterId): Option<Code> {
    if id !in s.clusters then Some(NotFound)
    else if s.clusters[id].tearingDown then Some(PhaseConflict)
    else None
  }

  function Counted(c: Cluster, controlPlane: bool): Cluster {
    if controlPlane then c.(controlPlanes := Increment(c.controlPlanes)) else c.(workers := Increment(c.workers))
  }

  /** One machine less. Whether to clear bootstrapped is decided by the record as it was read before, snapshot. */
  function Uncounted(c: Cluster, controlPlane: bool, snapshot: Cluster): Cluster {
    if controlPlane then
      c.(controlPlanes := Decrement(c.controlPlanes), bootstrapped := c.bootstrapped && snapshot.controlPlanes != 0)
    else c.(workers := Decrement(c.workers))
  }

  function Denied(c: Cluster, member: MemberId): Cluster {
    if member in c.denyEtcdMembers then c else c.(denyEtcdMembers := c.denyEtcdMembers + [member])
  }

  function Labelled(st: Status, id: ClusterId, controlPlane: bool): Status {
    if controlPlane then st.(cluster := Some(id), controlPlane := true) else st.(cluster := Some(id), worker := true)
  }

  function Unlabelled(st: Status): Status {
    st.(cluster := None, controlPlane := false, worker := false)
  }

  /** ApplyConfiguration of a configuration that could be loaded. */
  function Apply(m: MachineId, s: Shared, l: Local, cfg: MachineConfig): Outcome {
    var l' := l.(config := Some(cfg));
    if GetComplete(l).Some? || cfg.Partial? then Outcome(s, l', None)
    else
      var id := cfg.cluster;
      var created := if id in s.clusters then s else s.(clusters := s.clusters[id := NO_CLUSTER]);
      if UpdateFails(created, id).Some? then Outcome(created, l', UpdateFails(created, id))
      else
        var counted := created.(clusters := created.clusters[id := Counted(created.clusters[id], cfg.controlPlane)]);
        if m !in s.status then Outcome(counted, l', Some(NotFound))
        else Outcome(counted.(status := s.status[m := Labelled(s.status[m], id, cfg.controlPlane)]), l', None)
  }

  function BootstrapCluster(s: Shared, l: Local): Outcome {
    if GetComplete(l) == None then Outcome(s, l, Some(InvalidArgument))
    else
      var id := l.config.value.cluster;
      if id !in s.clusters then Outcome(s, l, Some(InternalError))
      else if s.clusters[id].bootstrapped then Outcome(s, l, Some(InvalidArgument))
      else if s.clusters[id].tearingDown then Outcome(s, l, Some(PhaseConflict))
      else Outcome(s.(clusters := s.clusters[id := s.clusters[id].(bootstrapped := true)]), l, None)
  }

  /** Reset of the state partition. The configuration is gone even if a later step fails. */
  function ResetMachine(m: MachineId, s: Shared, l: Local): Outcome {
    if GetComplete(l) == None then Outcome(s, l, Some(InvalidArgument))
    else
      var id, l' := l.config.value.cluster, l.(config := None);
      if id !in s.clusters then Outcome(s, l', Some(InternalError))
      else if s.clusters[id].tearingDown then Outcome(s, l', Some(PhaseConflict))
      else
        var c := Uncounted(s.clusters[id], l.config.value.controlPlane, s.clusters[id]);
        var c' := if c.controlPlanes == 0 && c.workers == 0 then c.(tearingDown := true) else c;
        var uncounted := s.(clusters := s.clusters[id := c']);
        if m !in s.status then Outcome(uncounted, l', Some(NotFound))
        else Outcome(uncounted.(status := s.status[m := Unlabelled(s.status[m])]), l', None)
  }

  /** The etcd calls are for control planes with a complete configuration. */
  function EtcdCaller(l: Local): Option<Code> {
    if GetComplete(l) == None || !l.config.value.controlPlane then Some(InvalidArgument) else None
  }

  function RemoveMember(s: Shared, l: Local, member: MemberId): Outcome {
    if EtcdCaller(l).Some? then Outcome(s, l, EtcdCaller(l))
    else
      var id := l.config.value.cluster;
      if UpdateFails(s, id).Some? then Outcome(s, l, Some(InternalError))
      else Outcome(s.(clusters := s.clusters[id := Denied(s.clusters[id], member)]), l, None)
  }

  function LeaveCluster(s: Shared, l: Local): Outcome {
    if EtcdCaller(l).Some? then Outcome(s, l, EtcdCaller(l))
    else if l.member == None then Outcome(s, l, Some(InvalidArgument))
    else RemoveMember(s, l, l.member.value)
  }

  /** What the etcd controller leaves behind, having seen the cluster's record as seen; newID is a new member ID. */
  function Reconcile(
      m: MachineId, s: Shared, l: Local, id: ClusterId, seen: Option<Cluster>, newID: MemberId): Outcome {
    if seen == None || !seen.value.bootstrapped then Outcome(s, l.(etcd := Some(Service(false, false))), None)
    else
      var member := if l.member.Some? then l.member.value else newID;
      var l' := l.(member := Some(member));
      if m !in s.status then Outcome(s, l'.(etcd := Some(Service(true, false))), Some(NotFound))
      else
        var st := s.status[m].(etcdMemberId := Some(member), cluster := Some(id), controlPlane := true);
        Outcome(
          s.(status := s.status[m := st]),
          l'.(etcd := Some(Service(true, member !in seen.value.denyEtcdMembers))),
          None)
  }

  function RecordOf(s: Shared, id: ClusterId): Option<Cluster> {
    if id in s.clusters then Some(s.clusters[id]) else None
  }

  /** A machine that EtcdMemberList reports: labelled, with a member ID, and not denied. */
  predicate Listed(s: Shared, id: ClusterId, m: MachineId, member: MemberId) {
    && m in s.status && id in s.clusters
    && s.status[m].cluster == Some(id) && s.status[m].controlPlane
    && s.status[m].etcdMemberId == Some(member)
    && member !in s.clusters[id].denyEtcdMembers
  }

  // ---------------------------------------------------------------- the calls, as they run

  /** The shared store. */
  class GlobalState {
    var clusters: map<ClusterId, Cluster>
    var status: map<MachineId, Status>

    constructor ()
      ensures Value() == Shared(map[], map[])
    {
      clusters, status := map[], map[];
    }

    ghost function Value(): Shared
      reads this
    {
      Shared(clusters, status)
    }

    /** Creates a record that is not there; a conflict is not an error for the caller. */
    method CreateCluster(id: ClusterId)
      modifies this`clusters
      ensures clusters == if id in old(clusters) then old(clusters) else old(clusters)[id := NO_CLUSTER]
    {
      if id !in clusters {
        clusters := clusters[id := NO_CLUSTER];
      }
    }

    /** An update with conflicts: f is applied to the record that is current when the update succeeds. */
    method UpdateCluster(id: ClusterId, f: Cluster -> Cluster) returns (err: Option<Code>)
      modifies this`clusters
      ensures err == UpdateFails(old(Value()), id)
      ensures err.Some? ==> clusters == old(clusters)
      ensures err == None ==> clusters == old(clusters)[id := f(old(clusters)[id])]
    {
      if id !in clusters {
        return Some(NotFound);
      }
      if clusters[id].tearingDown {
        return Some(PhaseConflict);
      }
      clusters := clusters[id := f(clusters[id])];
      return None;
    }

    method TeardownCluster(id: ClusterId)
      requires id in clusters
      modifies this`clusters
      ensures clusters == old(clusters)[id := old(clusters)[id].(tearingDown := true)]
    {
      clusters := clusters[id := clusters[id].(tearingDown := true)];
    }

    method UpdateStatus(m: MachineId, f: Status -> Status) returns (err: Option<Code>)
      modifies this`status
      ensures err == if m in old(status) then None else Some(NotFound)
      ensures status == if m in old(status) then old(status)[m := f(old(status)[m])] else old(status)
    {
      if m !in status {
        return Some(NotFound);
      }
      status := status[m := f(status[m])];
      return None;
    }
  }

  /** The store of one machine. */
  class LocalState {
    var config: Option<MachineConfig>
    var member: Option<MemberId>
    var etcd: Option<Service>

    constructor ()
      ensures Value() == Local(None, None, None)
    {
      config, member, etcd := None, None, None;
    }

    ghost function Value(): Local
      reads this
    {
      Local(config, member, etcd)
    }

    method GetCompleteConfig() returns (cfg: Option<MachineConfig>)
      ensures cfg == GetComplete(Value())
    {
      cfg := if config.Some? && config.value.Complete? then config else None;
    }
  }

  class MachineService {
    const machineID: MachineId
    const globalState: GlobalState
    const local: LocalState

    constructor (machineID: MachineId, globalState: GlobalState, local: LocalState)
      ensures this.machineID == machineID && this.globalState == globalState && this.local == local
    {
      this.machineID, this.globalState, this.local := machineID, globalState, local;
    }

    /** The two states are those of this outcome. */
    ghost predicate Is(o: Outcome)
      reads local, globalState
    {
      globalState.Value() == o.shared && local.Value() == o.local
    }

    /** ApplyConfiguration; data is None if it cannot be loaded, and installerOk says that its image is valid. */
    method ApplyConfiguration(data: Option<MachineConfig>, installerOk: bool) returns (err: Option<Code>, reboot: bool)
      modifies local`config, globalState
      ensures var refused := data == None || (data.value.Complete? && !installerOk);
              if refused then
                && Is(Outcome(old(globalState.Value()), old(local.Value()), None))
                && err == Some(InvalidArgument) && !reboot
              else
                var o := Apply(machineID, old(globalState.Value()), old(local.Value()), data.value);
                && Is(o) && err == o.err
                && (reboot <==> err == None && old(GetComplete(local.Value())) == None && data.value.Complete?)
      ensures (err == None && data.value.Complete? && old(GetComplete(local.Value())) == None) ==> (
                var role, before := data.value.controlPlane, old(globalState.status);
                && machineID in before && globalState.status.Keys == before.Keys
                && globalState.status[machineID].cluster == Some(data.value.cluster)
                && (globalState.status[machineID].controlPlane <==> role || before[machineID].controlPlane)
                && (globalState.status[machineID].worker <==> !role || before[machineID].worker)
                && globalState.status[machineID].etcdMemberId == before[machineID].etcdMemberId
                && forall m | m in before && m != machineID :: globalState.status[m] == before[m])
    {
      reboot := false;
      if data == None {
        return Some(InvalidArgument), false;
      }
      var cfg := data.value;
      if cfg.Complete? && !installerOk {
        return Some(InvalidArgument), false;
      }
      var existing := local.GetCompleteConfig();
      local.config := Some(cfg);
      var joins := existing == None && cfg.Complete?;
      if !joins {
        return None, false;
      }
      globalState.CreateCluster(cfg.cluster);
      err := globalState.UpdateCluster(cfg.cluster, c => Counted(c, cfg.controlPlane));
      if err.Some? {
        return;
      }
      err := globalState.UpdateStatus(machineID, st => Labelled(st, cfg.cluster, cfg.controlPlane));
      reboot := err == None;
    }

    method Bootstrap() returns (err: Option<Code>)
      modifies globalState
      ensures var o := BootstrapCluster(old(globalState.Value()), old(local.Value())); Is(o) && err == o.err
    {
      var cfg := local.GetCompleteConfig();
      if cfg == None {
        return Some(InvalidArgument);
      }
      var id := cfg.value.cluster;
      if id !in globalState.clusters {
        return Some(InternalError);
      }
      if globalState.clusters[id].bootstrapped {
        return Some(InvalidArgument);
      }
      err := globalState.UpdateCluster(id, (c: Cluster) => c.(bootstrapped := true));
    }

    method Reset(wipesState: bool) returns (err: Option<Code>)
      modifies local`config, globalState
      ensures !wipesState ==>
                Is(Outcome(old(globalState.Value()), old(local.Value()), None)) && err == Some(UnimplementedError)
      ensures wipesState ==> (
                var o := ResetMachine(machineID, old(globalState.Value()), old(local.Value()));
                Is(o) && err == o.err)
    {
      if !wipesState {
        return Some(UnimplementedError);
      }
      var cfg := local.GetCompleteConfig();
      if cfg == None {
        return Some(InvalidArgument);
      }
      local.config := None;
      var id := cfg.value.cluster;
      if id !in globalState.clusters {
        return Some(InternalError);
      }
      var snapshot := globalState.clusters[id];
      err := globalState.UpdateCluster(id, c => Uncounted(c, cfg.value.controlPlane, snapshot));
      if err.Some? {
        return;
      }
      var updated := globalState.clusters[id];
      if updated.controlPlanes == 0 && updated.workers == 0 {
        globalState.TeardownCluster(id);
      }
      err := globalState.UpdateStatus(machineID, st => Unlabelled(st));
    }

    /** EtcdMemberList: the members of the machine's cluster, in the order in which the store lists machines. */
    method EtcdMemberList(machines: seq<MachineId>)
      returns (err: Option<Code>, members: seq<(MachineId, MemberId)>)
      requires forall m :: m in machines <==> m in globalState.status
      requires forall i, j | 0 <= i < j < |machines| :: machines[i] != machines[j]
      ensures EtcdCaller(local.Value()).Some? ==> err == EtcdCaller(local.Value())
      ensures EtcdCaller(local.Value()) == None && local.config.value.cluster !in globalState.clusters ==>
                err == Some(NotFound)
      ensures EtcdCaller(local.Value()) == None && local.config.value.cluster in globalState.clusters ==> err == None
      ensures err == None ==> forall m: MachineId, id: MemberId ::
                (m, id) in members <==> Listed(globalState.Value(), local.config.value.cluster, m, id)
      ensures forall i, j | 0 <= i < j < |members| :: members[i].0 != members[j].0
    {
      members := [];
      var cfg := local.GetCompleteConfig();
      if cfg == None || !cfg.value.controlPlane {
        return Some(InvalidArgument), members;
      }
      var id := cfg.value.cluster;
      if id !in globalState.clusters {
        return Some(NotFound), members;
      }
      var deny := globalState.clusters[id].denyEtcdMembers;
      for i := 0 to |machines|
        invariant forall m: MachineId, member: MemberId ::
            (m, member) in members <==> m in machines[..i] && Listed(globalState.Value(), id, m, member)
        invariant forall k | 0 <= k < |members| :: members[k].0 in machines[..i]
        invariant forall j, k | 0 <= j < k < |members| :: members[j].0 != members[k].0
      {
        var m := machines[i];
        assert m in machines;
        var st := globalState.status[m];
        assert machines[..i + 1] == machines[..i] + [m];
        if st.cluster == Some(id) && st.controlPlane && st.etcdMemberId.Some? && st.etcdMemberId.value !in deny {
          members := members + [(m, st.etcdMemberId.value)];
        }
      }
      assert machines[..|machines|] == machines;
      err := None;
    }

    method EtcdRemoveMemberByID(memberID: MemberId) returns (err: Option<Code>)
      modifies globalState
      ensures var o := RemoveMember(old(globalState.Value()), old(local.Value()), memberID); Is(o) && err == o.err
    {
      var cfg := local.GetCompleteConfig();
      if cfg == None || !cfg.value.controlPlane {
        return Some(InvalidArgument);
      }
      err := globalState.UpdateCluster(cfg.value.cluster, c => Denied(c, memberID));
      if err.Some? {
        err := Some(InternalError);
      }
    }

    method EtcdLeaveCluster() returns (err: Option<Code>)
      modifies globalState
      ensures var o := LeaveCluster(old(globalState.Value()), old(local.Value())); Is(o) && err == o.err
    {
      var cfg := local.GetCompleteConfig();
      if cfg == None || !cfg.value.controlPlane {
        return Some(InvalidArgument);
      }
      if local.member == None {
        return Some(InvalidArgument);
      }
      var memberID := local.member.value;
      err := globalState.UpdateCluster(cfg.value.cluster, c => Denied(c, memberID));
      if err.Some? {
        err := Some(InternalError);
      }
    }
  }

  class EtcdController {
    const machineID: MachineId
    const globalState: GlobalState
    const local: LocalState

    constructor (machineID: MachineId, globalState: GlobalState, local: LocalState)
      ensures this.machineID == machineID && this.globalState == globalState && this.local == local
    {
      this.machineID, this.globalState, this.local := machineID, globalState, local;
    }

    /** reconcile: nothing to do for a machine that is not a control plane. */
    method ReconcileEtcd(newID: MemberId) returns (err: Option<Code>)
      modifies local`member, local`etcd, globalState`status
      ensures old(EtcdCaller(local.Value())).Some? ==>
                err == None && local.Value() == old(local.Value()) && globalState.Value() == old(globalState.Value())
      ensures old(EtcdCaller(local.Value())) == None ==> (
                var id := local.config.value.cluster;
                var o := Reconcile(machineID, old(globalState.Value()), old(local.Value()), id,
                                   old(RecordOf(globalState.Value(), local.config.value.cluster)), newID);
                globalState.Value() == o.shared && local.Value() == o.local && err == o.err)
    {
      var cfg := local.GetCompleteConfig();
      if cfg == None || !cfg.value.controlPlane {
        return None;
      }
      var healthy, running := false, false;
      running, healthy, err := ReconcileRunning(cfg.value.cluster, newID);
      local.etcd := Some(Service(running, healthy));
    }

    /** The part of reconcileRunning before its deferred write of the service. */
    method ReconcileRunning(id: ClusterId, newID: MemberId) returns (running: bool, healthy: bool, err: Option<Code>)
      modifies local`member, globalState`status
      ensures var o := Reconcile(machineID, old(globalState.Value()), old(local.Value()), id,
                                 old(RecordOf(globalState.Value(), id)), newID);
              && globalState.Value() == o.shared && err == o.err
              && local.Value() == o.local.(etcd := old(local.etcd))
              && o.local.etcd == Some(Service(running, healthy))
    {
      if id !in globalState.clusters {
        return false, false, None;
      }
      var clusterStatus := globalState.clusters[id];
      if !clusterStatus.bootstrapped {
        return false, false, None;
      }
      running, healthy := true, false;
      if local.member == None {
        local.member := Some(newID);
      }
      var member := local.member.value;
      err := globalState.UpdateStatus(machineID,
        (st: Status) => st.(etcdMemberId := Some(member), cluster := Some(id), controlPlane := true));
      if err.Some? || member in clusterStatus.denyEtcdMembers {
        return;
      }
      healthy := true;
    }
  }
}
