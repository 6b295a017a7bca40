/**
 * Each message through the wire: a fresh message that reads what MarshalVT wrote is accepted by EqualVT
 * if and only if the unknown bytes, here and in the messages inside, are well-formed unknown fields.
 */
module WireRoundTrips {
  import opened Ints
  import opened Results
  import opened Codecs
  import ClusterStatus
  import EventSinkState
  import Health
  import MachineTask
  import Service

  method MachineTaskThroughWire(m: MachineTask.MachineTaskSpec) returns (err: Option<Error>, equal: bool)
    requires |MachineTask.Bytes(m.Value())| <= MAX_INT
    ensures err == None && equal <==> UnknownOnly(MachineTask.SCHEMA, m.unknownFields, 0)
  {
    hide UnknownOnly, MachineTask.Bytes, Unmarshal;
    var dAtA := m.MarshalVT();
    var copy := new MachineTask.MachineTaskSpec();
    MachineTask.TaskRoundTrip(m.Value());
    err := copy.UnmarshalVT(dAtA[..]);
    equal := copy.EqualVT(m);
  }

  method ClusterStatusThroughWire(m: ClusterStatus.ClusterStatusSpec) returns (err: Option<Error>, equal: bool)
    requires |ClusterStatus.Bytes(m.Value())| <= MAX_INT
    ensures err == None && equal <==> UnknownOnly(ClusterStatus.SCHEMA, m.unknownFields, 0)
  {
    hide UnknownOnly, ClusterStatus.Bytes, Unmarshal;
    var dAtA := m.MarshalVT();
    var copy := new ClusterStatus.ClusterStatusSpec();
    ClusterStatus.StatusRoundTrip(m.Value());
    err := copy.UnmarshalVT(dAtA[..]);
    equal := copy.EqualVT(m);
  }

  method HealthThroughWire(m: Health.ServiceSpec_Health) returns (err: Option<Error>, equal: bool)
    requires |Health.Bytes(m.Value())| <= MAX_INT
    ensures err == None && equal <==> Health.WellFormed(m.Value())
  {
    hide Health.WellFormed, Health.Bytes, Unmarshal;
    var dAtA := m.MarshalVT();
    var copy := new Health.ServiceSpec_Health();
    Health.HealthRoundTrip(m.Value());
    err := copy.UnmarshalVT(dAtA[..]);
    equal := copy.EqualVT(m);
  }

  method ServiceThroughWire(m: Service.ServiceSpec) returns (err: Option<Error>, equal: bool)
    requires |Service.Bytes(m.Value())| <= MAX_INT
    ensures err == None && equal <==> Service.WellFormed(m.Value())
  {
    hide Service.WellFormed, Service.Bytes, Unmarshal;
    var dAtA := m.MarshalVT();
    var copy := new Service.ServiceSpec();
    Service.ServiceRoundTrip(m.Value());
    err := copy.UnmarshalVT(dAtA[..]);
    equal := copy.EqualVT(m);
  }

  method EventSinkStateThroughWire(m: EventSinkState.EventSinkStateSpec) returns (err: Option<Error>, equal: bool)
    requires forall order | EventSinkState.Visits(order, m.versions.Keys) ::
               |EventSinkState.Bytes(m.Value(), order)| <= MAX_INT
    ensures err == None && equal <==> UnknownOnly(EventSinkState.SCHEMA, m.unknownFields, 0)
  {
    hide UnknownOnly, EventSinkState.Bytes, EventSinkState.Visits, Unmarshal;
    ghost var order;
    var dAtA;
    dAtA, order := m.MarshalVT();
    var copy := new EventSinkState.EventSinkStateSpec();
    EventSinkState.StateRoundTrip(m.Value(), order);
    err := copy.UnmarshalVT(dAtA[..]);
    equal := copy.EqualVT(m);
  }
}
