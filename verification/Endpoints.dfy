/**
 * The SideroLink manager: it provisions the machine, and rotates through the endpoints of the
 * response, one for each pass, until they are used up or the machine's UUID changes.
 */
module Endpoints {
  import opened Results

  type Uuid = string

  /** A response of the provision service: whether its addresses parse, and its endpoints. */
  datatype Response = Response(addressesParse: bool, endpoints: seq<string>)

  /** The cached response: whom it was for, and the endpoints not yet used. */
  datatype ProvisionData = ProvisionData(nodeUUID: Uuid, addressesParse: bool, endpoints: seq<string>) {
    predicate IsEmpty() {
      endpoints == []
    }
  }

  const NO_DATA := ProvisionData("", false, [])

  /**
   * What asking for a response comes to: there is no configuration or no system information, it
   * fails, or the service responds to the UUID that provision has read.
   */
  datatype Asking = NotReady | Fails | Responds(uuid: Uuid, response: Response)

  /**
   * One turn of Run: nothing to reconnect; or the UUID in the system information, if there is any and
   * it can be read (it is looked at only if something is cached), what asking would come to, and
   * whether the specs can be written.
   */
  datatype Turn = Idle | Turn(uuid: Option<Uuid>, readable: bool, asking: Asking, writable: bool)

  /** What happens in a run, each with the UUID that was current then, None without system information. */
  datatype Event =
    | Provisioned(current: Uuid, data: ProvisionData)
    | Dropped(current: Uuid)
    | Taken(known: Option<Uuid>, endpoint: string)

  // ---------------------------------------------------------------- the rotation

  /**
   * The data left after these events, if they follow the rotation: a response is asked for, for the
   * current UUID, only when none is left; its endpoints are taken in order, and only while the UUID is
   * not known to be another; and what is left is dropped only when the UUID is another one.
   */
  function Left(log: seq<Event>): Option<ProvisionData> {
    if log == [] then Some(NO_DATA) else LeftAfter(Left(log[..|log| - 1]), log[|log| - 1])
  }

  function LeftAfter(before: Option<ProvisionData>, e: Event): Option<ProvisionData> {
    match before
    case None => None
    case Some(d) =>
      match e
      case Provisioned(current, data) => if d.IsEmpty() && data.nodeUUID == current then Some(data) else None
      case Dropped(current) => if d.IsEmpty() || current == d.nodeUUID then None else Some(NO_DATA)
      case Taken(known, endpoint) =>
        if d.IsEmpty() || d.endpoints[0] != endpoint || (known.Some? && known.value != d.nodeUUID) then None
        else Some(d.(endpoints := d.endpoints[1..]))
  }

  lemma LeftMore(log: seq<Event>, e: Event)
    ensures Left(log + [e]) == LeftAfter(Left(log), e)
  {
    assert (log + [e])[..|log|] == log;
  }

  /** The endpoints that these events take. */
  function Endpoints(log: seq<Event>): seq<string> {
    if log == [] then []
    else Endpoints(log[..|log| - 1]) + (if log[|log| - 1].Taken? then [log[|log| - 1].endpoint] else [])
  }

  lemma {:induction false} LeftBefore(log: seq<Event>, k: nat)
    requires Left(log).Some? && k <= |log|
    ensures Left(log[..k]).Some?
    decreases |log|
  {
    if k < |log| {
      LeftBefore(log[..|log| - 1], k);
      assert log[..|log| - 1][..k] == log[..k];
    } else {
      assert log[..k] == log;
    }
  }

  lemma LeftStep(log: seq<Event>, k: nat)
    requires Left(log).Some? && k < |log|
    ensures Left(log[..k]).Some? && Left(log[..k + 1]).Some?
    ensures Left(log[..k + 1]) == LeftAfter(Left(log[..k]), log[k])
  {
    hide Left, LeftAfter;
    LeftBefore(log, k);
    LeftBefore(log, k + 1);
    assert log[..k + 1] == log[..k] + [log[k]];
    LeftMore(log[..k], log[k]);
  }

  /** From a response on, as long as there is no other and nothing is dropped, its endpoints are taken in order. */
  lemma {:induction false} TakenInOrder(log: seq<Event>, i: nat, j: nat)
    requires Left(log).Some? && i < j <= |log| && log[i].Provisioned?
    requires forall k | i < k < j :: log[k].Taken?
    ensures Left(log[..j]).Some? && Left(log[..j]).value.nodeUUID == log[i].data.nodeUUID
    ensures Endpoints(log[i + 1..j]) + Left(log[..j]).value.endpoints == log[i].data.endpoints
    decreases j
  {
    hide Left, Endpoints, LeftAfter;
    LeftStep(log, j - 1);
    if j == i + 1 {
      assert log[i + 1..j] == [];
      NothingTaken();
      LeftProvisioned(Left(log[..i]), log[i]);
    } else {
      TakenInOrder(log, i, j - 1);
      assert log[i + 1..j] == log[i + 1..j - 1] + [log[j - 1]];
      OneMoreTaken(log[i + 1..j - 1], log[j - 1]);
      LeftTaken(Left(log[..j - 1]), log[j - 1]);
    }
  }

  lemma NothingTaken()
    ensures Endpoints([]) == []
  {
  }

  lemma OneMoreTaken(log: seq<Event>, e: Event)
    requires e.Taken?
    ensures Endpoints(log + [e]) == Endpoints(log) + [e.endpoint]
  {
    assert (log + [e])[..|log|] == log;
  }

  lemma LeftProvisioned(before: Option<ProvisionData>, e: Event)
    requires e.Provisioned? && LeftAfter(before, e).Some?
    ensures before.value.IsEmpty() && LeftAfter(before, e) == Some(e.data) && e.data.nodeUUID == e.current
  {
  }

  lemma LeftTaken(before: Option<ProvisionData>, e: Event)
    requires e.Taken? && LeftAfter(before, e).Some?
    ensures before.Some? && LeftAfter(before, e).value.nodeUUID == before.value.nodeUUID
    ensures [e.endpoint] + LeftAfter(before, e).value.endpoints == before.value.endpoints
    ensures e.known.Some? ==> e.known.value == before.value.nodeUUID
  {
  }

  lemma LeftDropped(before: Option<ProvisionData>, e: Event)
    requires e.Dropped? && LeftAfter(before, e).Some?
    ensures !before.value.IsEmpty() && e.current != before.value.nodeUUID && LeftAfter(before, e) == Some(NO_DATA)
  {
  }

  /**
   * What came of the response at index i by index j, with no other in between: its endpoints were
   * taken once each and in order, all of them unless the UUID became another one, which then ended it.
   */
  ghost predicate UsedUp(log: seq<Event>, i: nat, j: nat)
    requires i < j <= |log| && log[i].Provisioned?
  {
    if forall k | i < k < j :: log[k].Taken? then Endpoints(log[i + 1..j]) == log[i].data.endpoints
    else
      && log[j - 1].Dropped? && log[j - 1].current != log[i].data.nodeUUID
      && (forall k | i < k < j - 1 :: log[k].Taken?)
      && Endpoints(log[i + 1..j - 1]) < log[i].data.endpoints
  }

  /** Two responses and none in between. */
  ghost predicate Successive(log: seq<Event>, i: nat, j: nat) {
    && i < j < |log| && log[i].Provisioned? && log[j].Provisioned?
    && forall k | i < k < j :: !log[k].Provisioned?
  }

  /** The response an endpoint was taken from was for the UUID that was current then, if there was one. */
  ghost predicate ForCurrent(log: seq<Event>, i: nat, j: nat)
    requires i < j < |log| && log[i].Provisioned? && log[j].Taken?
  {
    log[i].current == log[i].data.nodeUUID && (log[j].known.Some? ==> log[j].known.value == log[i].data.nodeUUID)
  }

  /** A response and none after it. */
  ghost predicate IsLast(log: seq<Event>, i: nat) {
    i < |log| && log[i].Provisioned? && forall k | i < k < |log| :: !log[k].Provisioned?
  }

  /**
   * Between two responses, the first is used up, and the last is used from its beginning; every
   * endpoint taken is of a response for the current UUID.
   */
  ghost predicate Rotates(log: seq<Event>) {
    && (forall i: nat, j: nat | Successive(log, i, j) :: UsedUp(log, i, j))
    && (forall i: nat | IsLast(log, i) :: Endpoints(log[i + 1..]) <= log[i].data.endpoints)
    && (forall i: nat, j: nat | i < j < |log| && log[i].Provisioned? && log[j].Taken? &&
          (forall k | i < k < j :: !log[k].Provisioned?) :: ForCurrent(log, i, j))
  }

  lemma EachResponseIsUsed(log: seq<Event>, i: nat, j: nat)
    requires Left(log).Some? && Successive(log, i, j)
    ensures UsedUp(log, i, j)
  {
    hide Left, Endpoints, LeftAfter;
    LeftStep(log, j);
    LeftProvisioned(Left(log[..j]), log[j]);
    if forall k | i < k < j :: log[k].Taken? {
      TakenInOrder(log, i, j);
      assert Endpoints(log[i + 1..j]) + [] == Endpoints(log[i + 1..j]);
    } else {
      var k := FirstDropped(log, i, j);
      DroppedIsLast(log, i, k, j);
      TakenInOrder(log, i, k);
      LeftStep(log, k);
      LeftDropped(Left(log[..k]), log[k]);
    }
  }

  lemma LastIsUsed(log: seq<Event>, i: nat)
    requires Left(log).Some? && IsLast(log, i)
    ensures Endpoints(log[i + 1..]) <= log[i].data.endpoints
  {
    hide Left, Endpoints;
    assert log[i + 1..|log|] == log[i + 1..];
    if forall k | i < k < |log| :: log[k].Taken? {
      TakenInOrder(log, i, |log|);
    } else {
      var k := FirstDropped(log, i, |log|);
      DroppedIsLast(log, i, k, |log|);
      TakenInOrder(log, i, k);
      assert log[i + 1..] == log[i + 1..k] + [log[k]];
      NoMoreTaken(log[i + 1..k], log[k]);
    }
  }

  lemma NoMoreTaken(log: seq<Event>, e: Event)
    requires !e.Taken?
    ensures Endpoints(log + [e]) == Endpoints(log)
  {
    assert (log + [e])[..|log|] == log;
  }

  lemma {:induction false} FirstDropped(log: seq<Event>, i: nat, j: nat) returns (k: nat)
    requires i < j <= |log| && exists k | i < k < j :: !log[k].Taken?
    ensures i < k < j && !log[k].Taken? && forall l | i < l < k :: log[l].Taken?
    decreases j
  {
    if exists k | i < k < j - 1 :: !log[k].Taken? {
      k := FirstDropped(log, i, j - 1);
    } else {
      k := j - 1;
    }
  }

  /** After what was left is dropped, the next event can only be a response. */
  lemma DroppedIsLast(log: seq<Event>, i: nat, k: nat, j: nat)
    requires Left(log).Some? && i < k < j <= |log| && log[k].Dropped?
    requires forall l | i < l < j :: !log[l].Provisioned?
    ensures k == j - 1
  {
    hide Left;
    LeftStep(log, k);
    if k + 1 < j {
      LeftStep(log, k + 1);
    }
  }

  /** An endpoint is taken of the last response, if nothing was dropped since; and nothing was. */
  lemma TakenForCurrent(log: seq<Event>, i: nat, j: nat)
    requires Left(log).Some? && i < j < |log| && log[i].Provisioned? && log[j].Taken?
    requires forall k | i < k < j :: !log[k].Provisioned?
    ensures ForCurrent(log, i, j)
  {
    hide Left, LeftAfter;
    LeftStep(log, i);
    LeftProvisioned(Left(log[..i]), log[i]);
    LeftStep(log, j);
    LeftTaken(Left(log[..j]), log[j]);
    if exists k | i < k < j :: !log[k].Taken? {
      var k := FirstDropped(log, i, j);
      DroppedBeforeTaken(log, k, j);
    } else {
      TakenInOrder(log, i, j);
    }
  }

  lemma DroppedBeforeTaken(log: seq<Event>, k: nat, j: nat)
    requires Left(log).Some? && k < j < |log| && log[k].Dropped? && log[j].Taken?
    ensures exists l | k < l < j :: log[l].Provisioned?
  {
    hide Left;
    LeftStep(log, k);
    LeftStep(log, k + 1);
  }

  lemma LastIsResponse(log: seq<Event>, i: nat)
    requires IsLast(log, i)
    ensures i < |log| && log[i].Provisioned?
  {
  }

  /** Events that follow the rotation, by what happens between their responses. */
  lemma LeftRotates(log: seq<Event>)
    requires Left(log).Some?
    ensures Rotates(log)
  {
    hide Left, UsedUp, ForCurrent, Endpoints, IsLast;
    forall i: nat | IsLast(log, i)
      ensures i < |log| && log[i].Provisioned? && Endpoints(log[i + 1..]) <= log[i].data.endpoints
    {
      LastIsResponse(log, i);
      LastIsUsed(log, i);
    }
    forall i: nat, j: nat | Successive(log, i, j)
      ensures UsedUp(log, i, j)
    {
      EachResponseIsUsed(log, i, j);
    }
    forall i: nat, j: nat | i < j < |log| && log[i].Provisioned? && log[j].Taken? &&
        (forall k | i < k < j :: !log[k].Provisioned?)
      ensures ForCurrent(log, i, j)
    {
      TakenForCurrent(log, i, j);
    }
  }

  // ---------------------------------------------------------------- one pass

  /** What one turn leaves cached, what happens in it, and whether it fails. */
  datatype Pass = Pass(pd: ProvisionData, events: seq<Event>, err: bool)

  predicate Changed(pd: ProvisionData, turn: Turn)
    requires turn.Turn?
  {
    !pd.IsEmpty() && turn.uuid.Some? && turn.uuid.value != pd.nodeUUID
  }

  function DataOf(uuid: Uuid, r: Response): ProvisionData {
    ProvisionData(uuid, r.addressesParse, r.endpoints)
  }

  /** An endpoint is taken of these data, unless their addresses do not parse or there is none. */
  function TakePass(pd: ProvisionData, current: Option<Uuid>, events: seq<Event>, writable: bool): Pass {
    if !pd.addressesParse || pd.IsEmpty() then Pass(pd, events, true)
    else Pass(pd.(endpoints := pd.endpoints[1..]), events + [Taken(current, pd.endpoints[0])], !writable)
  }

  function PassOf(pd: ProvisionData, turn: Turn): Pass {
    if turn.Idle? then Pass(pd, [], false)
    else if !turn.readable && !pd.IsEmpty() then Pass(pd, [], true)
    else
      var dropped := if Changed(pd, turn) then [Dropped(turn.uuid.value)] else [];
      if !pd.IsEmpty() && !Changed(pd, turn) then TakePass(pd, turn.uuid, [], turn.writable)
      else
        var kept := if Changed(pd, turn) then NO_DATA else pd;
        match turn.asking
        case NotReady => Pass(kept, dropped, false)
        case Fails => Pass(kept, dropped, true)
        case Responds(uuid, r) =>
          var data := DataOf(uuid, r);
          TakePass(data, Some(uuid), dropped + [Provisioned(uuid, data)], turn.writable)
  }

  /** What happens in a run over these turns, which ends at the first one that fails. */
  function Happens(pd: ProvisionData, turns: seq<Turn>): seq<Event>
    decreases |turns|
  {
    if turns == [] then []
    else
      var pass := PassOf(pd, turns[0]);
      pass.events + (if pass.err then [] else Happens(pass.pd, turns[1..]))
  }

  lemma HappensFrom(pd: ProvisionData, turns: seq<Turn>, i: nat)
    requires i <= |turns|
    ensures i == |turns| ==> Happens(pd, turns[i..]) == []
    ensures i < |turns| ==> (
              var pass := PassOf(pd, turns[i]);
              Happens(pd, turns[i..]) == pass.events + (if pass.err then [] else Happens(pass.pd, turns[i + 1..])))
  {
    hide PassOf;
    if i < |turns| {
      assert turns[i..][1..] == turns[i + 1..];
    }
  }

  lemma Appended(a: seq<Event>, b: seq<Event>, c: seq<Event>)
    ensures a + (b + c) == (a + b) + c
  {
  }

  /**
   * A pass drops exactly if the UUID is another one, and asks exactly if nothing is cached then; so
   * the endpoint it takes is of data for the UUID that was read last.
   */
  lemma PassIsRight(pd: ProvisionData, turn: Turn)
    requires turn.Turn? && (turn.readable || pd.IsEmpty())
    ensures var p := PassOf(pd, turn);
            && ((exists e | e in p.events :: e.Dropped?) <==> Changed(pd, turn))
            && ((exists e | e in p.events :: e.Provisioned?) <==>
                  (pd.IsEmpty() || Changed(pd, turn)) && turn.asking.Responds?)
            && forall e | e in p.events && e.Taken? ::
                 e.known == (if pd.IsEmpty() || Changed(pd, turn) then Some(turn.asking.uuid) else turn.uuid)
                 && (e.known.Some? ==> e.known.value == p.pd.nodeUUID)
  {
    var p := PassOf(pd, turn);
    if Changed(pd, turn) {
      assert p.events[0] == Dropped(turn.uuid.value);
    }
    if (pd.IsEmpty() || Changed(pd, turn)) && turn.asking.Responds? {
      var k := if Changed(pd, turn) then 1 else 0;
      assert p.events[k].Provisioned?;
    }
  }

  /** The data a pass takes an endpoint of: what is cached for the current UUID, or else a new response. */
  ghost predicate TakesOf(pd: ProvisionData, turn: Turn, uuid: Uuid, parse: bool, endpoints: seq<string>)
    requires turn.Turn?
  {
    if pd.endpoints != [] && (turn.uuid == None || turn.uuid.value == pd.nodeUUID) then
      uuid == pd.nodeUUID && parse == pd.addressesParse && endpoints == pd.endpoints
    else turn.asking == Responds(uuid, Response(parse, endpoints))
  }

  /**
   * One pass, by what there is to take an endpoint of. If its addresses parse and it has endpoints, the
   * first one is taken, the others stay cached with their UUID, and the pass fails only if the specs cannot
   * be written; otherwise none is taken, it stays as it is, and the pass fails. Without anything to take
   * an endpoint of, nothing is cached afterwards, and the pass fails only if asking did.
   */
  lemma PassExactly(pd: ProvisionData, turn: Turn, uuid: Uuid, parse: bool, endpoints: seq<string>)
    requires turn.Turn? && (turn.readable || pd.endpoints == [])
    ensures TakesOf(pd, turn, uuid, parse, endpoints) && parse && endpoints != [] ==> (
              var p := PassOf(pd, turn);
              && p.pd == ProvisionData(uuid, parse, endpoints[1..]) && p.err == !turn.writable
              && p.events != [] && p.events[|p.events| - 1].Taken?
              && p.events[|p.events| - 1].endpoint == endpoints[0]
              && forall e | e in p.events[..|p.events| - 1] :: !e.Taken?)
    ensures TakesOf(pd, turn, uuid, parse, endpoints) && !(parse && endpoints != []) ==> (
              var p := PassOf(pd, turn);
              && p.pd == ProvisionData(uuid, parse, endpoints) && p.err && forall e | e in p.events :: !e.Taken?)
    ensures (pd.endpoints == [] || (turn.uuid != None && turn.uuid.value != pd.nodeUUID)) && !turn.asking.Responds? ==>
              (
              var p := PassOf(pd, turn);
              && p.pd.endpoints == [] && p.err == turn.asking.Fails? && forall e | e in p.events :: e.Dropped?)
  {
  }

  /** With nothing to reconnect nothing happens, and without the system information a cached response stays. */
  lemma PassesOver(pd: ProvisionData, turn: Turn)
    ensures turn.Idle? ==> PassOf(pd, turn) == Pass(pd, [], false)
    ensures turn.Turn? && !turn.readable && pd.endpoints != [] ==> PassOf(pd, turn) == Pass(pd, [], true)
  {
  }

  // ---------------------------------------------------------------- the controller

  class ManagerController {
    var pd: ProvisionData
    var log: seq<Event>

    constructor ()
      ensures Valid() && log == [] && pd == NO_DATA
    {
      pd, log := NO_DATA, [];
    }

    /** The cached data is what the rotation has left over. */
    ghost predicate Valid()
      reads this
    {
      Left(log) == Some(pd)
    }

    method TakeEndpoint() returns (ep: Option<string>)
      modifies this`pd
      ensures old(pd).IsEmpty() ==> ep == None && pd == old(pd)
      ensures !old(pd).IsEmpty() ==>
                && ep.Some? && pd == old(pd).(endpoints := pd.endpoints)
                && [ep.value] + pd.endpoints == old(pd).endpoints
    {
      if pd.IsEmpty() {
        return None;
      }
      ep := Some(pd.endpoints[0]);
      pd := pd.(endpoints := pd.endpoints[1..]);
    }

    /** nodeUUIDChanged: the machine is provisioned, but for another UUID than its current one. */
    method NodeUUIDChanged(uuid: Option<Uuid>) returns (changed: bool)
      ensures changed <==> !pd.IsEmpty() && uuid.Some? && uuid.value != pd.nodeUUID
    {
      if pd.IsEmpty() {
        return false;
      }
      if uuid == None {
        return false;
      }
      changed := uuid.value != pd.nodeUUID;
    }

    /** One turn of the loop. */
    method HandleTurn(turn: Turn) returns (err: bool)
      requires Valid()
      modifies this
      ensures Valid()
      ensures var p := PassOf(old(pd), turn); pd == p.pd && log == old(log) + p.events && err == p.err
    {
      hide Left;
      err := false;
      if turn.Idle? {
        return false;
      }
      if !turn.readable && !pd.IsEmpty() {
        return true;
      }
      var uuidChanged := NodeUUIDChanged(turn.uuid);
      if uuidChanged {
        LeftMore(log, Dropped(turn.uuid.value));
        pd, log := NO_DATA, log + [Dropped(turn.uuid.value)];
      }
      var current := turn.uuid;
      if pd.IsEmpty() {
        match turn.asking {
          case NotReady => return false;
          case Fails => return true;
          case Responds(uuid, r) =>
            LeftMore(log, Provisioned(uuid, DataOf(uuid, r)));
            pd := DataOf(uuid, r);
            current, log := Some(uuid), log + [Provisioned(uuid, pd)];
        }
      }
      if !pd.addressesParse {
        return true;
      }
      var ep := TakeEndpoint();
      if ep == None {
        return true;
      }
      LeftMore(log, Taken(current, ep.value));
      log := log + [Taken(current, ep.value)];
      err := !turn.writable;
    }

    /** Run, until a turn fails. A failure keeps the cached data for the next Run. */
    method Run(turns: seq<Turn>)
      requires Valid()
      modifies this
      ensures Valid() && Rotates(log)
      ensures log == old(log) + Happens(old(pd), turns)
    {
      hide Left, PassOf, Rotates, Happens;
      ghost var all := log + Happens(pd, turns);
      assert turns[0..] == turns;
      var i: nat, err := 0, false;
      while i < |turns| && !err
        invariant i <= |turns| && Valid()
        invariant log + (if err then [] else Happens(pd, turns[i..])) == all
        decreases |turns| - i
      {
        HappensFrom(pd, turns, i);
        ghost var pass, was := PassOf(pd, turns[i]), log;
        Appended(was, pass.events, if pass.err then [] else Happens(pass.pd, turns[i + 1..]));
        err := HandleTurn(turns[i]);
        i := i + 1;
      }
      if !err {
        HappensFrom(pd, turns, i);
      }
      assert log + [] == log;
      LeftRotates(log);
    }
  }

  // ---------------------------------------------------------------- addresses that do not parse

  /** The first turn that is not idle. */
  ghost predicate IsFirst(turns: seq<Turn>, i: nat) {
    i < |turns| && turns[i].Turn? && forall j | 0 <= j < i :: turns[j].Idle?
  }

  predicate ReadsAnother(pd: ProvisionData, turn: Turn)
    requires turn.Turn?
  {
    turn.readable && Changed(pd, turn)
  }

  /**
   * A cached response whose addresses do not parse: nothing happens in a run if and only if its first
   * turn that is not idle, if any, does not read another UUID.
   */
  lemma {:induction false} BadAddressesStay(pd: ProvisionData, turns: seq<Turn>)
    requires !pd.IsEmpty() && !pd.addressesParse
    ensures Happens(pd, turns) == [] <==> forall i: nat | IsFirst(turns, i) :: !ReadsAnother(pd, turns[i])
    decreases |turns|
  {
    if turns != [] {
      if turns[0].Idle? {
        BadAddressesStay(pd, turns[1..]);
        forall i: nat
          ensures IsFirst(turns, i + 1) <==> IsFirst(turns[1..], i)
        {
          assert forall j | 0 < j < |turns| :: turns[j] == turns[1..][j - 1];
        }
        FirstIsLater(pd, turns);
      } else {
        assert IsFirst(turns, 0);
      }
    }
  }

  lemma FirstIsLater(pd: ProvisionData, turns: seq<Turn>)
    requires turns != [] && turns[0].Idle?
    requires forall i: nat :: IsFirst(turns, i + 1) <==> IsFirst(turns[1..], i)
    ensures (forall i: nat | IsFirst(turns, i) :: !ReadsAnother(pd, turns[i])) <==>
            forall i: nat | IsFirst(turns[1..], i) :: !ReadsAnother(pd, turns[1..][i])
  {
    hide ReadsAnother;
    forall i: nat | IsFirst(turns[1..], i)
      ensures IsFirst(turns, i + 1) && turns[i + 1] == turns[1..][i]
    {
    }
    forall i: nat | IsFirst(turns, i)
      ensures i > 0 && IsFirst(turns[1..], i - 1) && turns[i] == turns[1..][i - 1]
    {
      assert IsFirst(turns, i - 1 + 1);
    }
  }

  /** Such a response is cached, with the pass failing, and the next pass finds it there and fails too. */
  lemma BadAddressesAreCached(uuid: Uuid, endpoint: string)
    ensures var turn := Turn(Some(uuid), true, Responds(uuid, Response(false, [endpoint])), true);
            && PassOf(NO_DATA, turn).pd == ProvisionData(uuid, false, [endpoint]) && PassOf(NO_DATA, turn).err
            && Happens(PassOf(NO_DATA, turn).pd, [turn]) == []
            && PassOf(PassOf(NO_DATA, turn).pd, turn).err
  {
  }
}
