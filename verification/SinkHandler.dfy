/**
 * The handler that keeps one event sink connection, bound to the machine's current SideroLink
 * address: at each address event it looks the address up, and replaces the sink if it changed.
 */
module SinkHandler {
  import opened Results

  type Addr = nat

  /** What happens to sinks, in order. */
  datatype Event = Started(addr: Addr) | Ended(addr: Addr)

  /** One turn of Run: the lookup failed, or found an address or none; the new sink may fail to start. */
  datatype Turn = LookupFailed | Found(addr: Option<Addr>, starts: bool)

  /** The sink that runs after these events, if just one ran at a time, each ended before the next started. */
  function Running(events: seq<Event>): (r: Option<Option<Addr>>) {
    if events == [] then Some(None)
    else
      var before, last := Running(events[..|events| - 1]), events[|events| - 1];
      if before == Some(None) && last.Started? then Some(Some(last.addr))
      else if before.Some? && last.Ended? && before.value == Some(last.addr) then Some(None)
      else None
  }

  lemma RunningAfter(events: seq<Event>, e: Event)
    ensures Running(events + [e]) ==
              (if Running(events) == Some(None) && e.Started? then Some(Some(e.addr))
               else if Running(events).Some? && e.Ended? && Running(events).value == Some(e.addr) then Some(None)
               else None)
  {
    assert (events + [e])[..|events|] == events;
  }

  /** If the events are well ordered, so is every beginning of them. */
  lemma {:induction false} RunningBefore(events: seq<Event>, k: nat)
    requires Running(events).Some? && k <= |events|
    ensures Running(events[..k]).Some?
    decreases |events|
  {
    if k < |events| {
      RunningBefore(events[..|events| - 1], k);
      assert events[..|events| - 1][..k] == events[..k];
    } else {
      assert events[..k] == events;
    }
  }

  /** Between two starts of a sink, the first of the two sinks has ended. */
  lemma {:induction false} EndedBetween(events: seq<Event>, i: nat, j: nat)
    requires Running(events).Some? && i < j < |events| && events[i].Started? && events[j].Started?
    ensures exists k | i < k < j :: events[k] == Ended(events[i].addr)
    decreases j
  {
    RunningBefore(events, i + 1);
    RunningBefore(events, j + 1);
    assert events[..i + 1][..i] == events[..i] && events[..j + 1][..j] == events[..j];
    if forall k | i < k < j :: events[k] != Ended(events[i].addr) {
      StillRuns(events, i, j);
    }
  }

  lemma {:induction false} StillRuns(events: seq<Event>, i: nat, j: nat)
    requires i < j <= |events| && Running(events[..j]).Some? && events[i].Started?
    requires forall k | i < k < j :: events[k] != Ended(events[i].addr)
    ensures Running(events[..j]) == Some(Some(events[i].addr))
    decreases j
  {
    assert events[..j][..j - 1] == events[..j - 1];
    if j > i + 1 {
      RunningBefore(events[..j], j - 1);
      StillRuns(events, i, j - 1);
    }
  }

  class Handler {
    var boundAddr: Option<Addr>
    var haveRunner: bool
    var events: seq<Event>

    constructor ()
      ensures Valid() && boundAddr == None && events == []
    {
      boundAddr, haveRunner, events := None, false, [];
    }

    /** One sink runs, on the bound address, or none does. */
    ghost predicate Valid()
      reads this
    {
      && Running(events) == Some(if haveRunner then boundAddr else None)
      && (haveRunner ==> boundAddr.Some?)
    }

    /** The address of the sink that runs, if one does. */
    ghost function Bound(): Option<Addr>
      reads this
    {
      if haveRunner then boundAddr else None
    }

    method TeardownSink()
      requires Valid()
      modifies this`haveRunner, this`events
      ensures Valid() && !haveRunner
      ensures events == old(events) + if old(haveRunner) then [Ended(boundAddr.value)] else []
    {
      if !haveRunner {
        return;
      }
      RunningAfter(events, Ended(boundAddr.value));
      events := events + [Ended(boundAddr.value)];
      haveRunner := false;
    }

    /** One turn of the loop. The sink is replaced only if there is an address and it is another one. */
    method HandleAddress(turn: Turn) returns (err: bool)
      requires Valid() && (haveRunner || boundAddr == None)
      modifies this
      ensures Valid()
      ensures err <==> turn.LookupFailed? || (turn.addr.Some? && turn.addr != old(boundAddr) && !turn.starts)
      ensures !err && turn.addr.Some? ==> haveRunner && boundAddr == turn.addr
      ensures !err && (turn.addr == None || turn.addr == old(boundAddr)) ==>
                events == old(events) && haveRunner == old(haveRunner) && boundAddr == old(boundAddr)
      ensures !err && turn.addr.Some? && turn.addr != old(boundAddr) ==>
                events == old(events) + (if old(haveRunner) then [Ended(old(boundAddr).value)] else []) +
                    [Started(turn.addr.value)]
      ensures Handled(old(Bound()), turn, old(events), events, Bound(), err)
      ensures old(events) <= events
    {
      if turn.LookupFailed? {
        return true;
      }
      if turn.addr == None || turn.addr == boundAddr {
        return false;
      }
      TeardownSink();
      boundAddr := turn.addr;
      if !turn.starts {
        return true;
      }
      RunningAfter(events, Started(turn.addr.value));
      events := events + [Started(turn.addr.value)];
      haveRunner := true;
      err := false;
    }

    /**
     * Run, over all the turns until the context is done or a turn fails. It starts with nothing bound,
     * whatever an earlier Run was bound to. Sinks never overlap, the last one is bound to the address
     * found last, and none is left behind, so that Run can be called again.
     */
    method Run(turns: seq<Turn>) returns (err: bool)
      requires Valid() && !haveRunner
      modifies this
      ensures Valid() && !haveRunner && old(events) <= events
      ensures Running(events) == Some(None)
      ensures (forall t | t in turns :: t.Found? && t.starts) ==> !err && boundAddr == LastFound(turns)
      ensures events == old(events) + Outcome(None, turns).events && err == Outcome(None, turns).err
    {
      hide Running, Outcome, Handled, Ends, LastFound, Goes;
      ghost var before := events;
      boundAddr, err := None, false;
      StartsGoing(before, turns);
      var i: nat := 0;
      while i < |turns| && !err
        invariant i <= |turns| && Valid() && old(events) <= events
        invariant !err ==> (haveRunner || boundAddr == None) && boundAddr == LastFound(turns[..i])
        invariant (forall t | t in turns :: t.Found? && t.starts) ==> !err
        invariant Goes(before, events, Bound(), turns, i, err)
      {
        ghost var was, bound := events, Bound();
        err := HandleAddress(turns[i]);
        TurnGoes(before, was, bound, turns, i, events, Bound(), err);
        FoundMore(turns, i);
        i := i + 1;
      }
      assert turns[..|turns|] == turns;
      StopsGoing(before, events, Bound(), turns, i, err);
      assert Ends(Bound()) == if haveRunner then [Ended(boundAddr.value)] else [] by { EndsOf(Bound()); }
      TeardownSink();
    }
  }

  /** The end of the sink that runs, if one does. */
  function Ends(bound: Option<Addr>): seq<Event> {
    if bound.Some? then [Ended(bound.value)] else []
  }

  lemma EndsOf(bound: Option<Addr>)
    ensures Ends(bound) == if bound.Some? then [Ended(bound.value)] else []
  {
  }

  /** What one turn does to the events and to the address of the sink that runs. */
  ghost predicate Handled(
      bound: Option<Addr>, turn: Turn, was: seq<Event>, now: seq<Event>, bound': Option<Addr>, err: bool) {
    if turn.LookupFailed? then err && now == was && bound' == bound
    else if turn.addr == None || turn.addr == bound then !err && now == was && bound' == bound
    else if !turn.starts then err && now == was + Ends(bound) && bound' == None
    else !err && now == was + Ends(bound) + [Started(turn.addr.value)] && bound' == turn.addr
  }

  /** The events so far, and those that the turns from i on bring, are all that come of the turns. */
  ghost predicate Goes(
      before: seq<Event>, events: seq<Event>, bound: Option<Addr>, turns: seq<Turn>, i: nat, err: bool) {
    && i <= |turns|
    && (err ==> Outcome(None, turns).err && events + Ends(bound) == before + Outcome(None, turns).events)
    && (!err ==>
          && events + Outcome(bound, turns[i..]).events == before + Outcome(None, turns).events
          && Outcome(bound, turns[i..]).err == Outcome(None, turns).err)
  }

  lemma StartsGoing(before: seq<Event>, turns: seq<Turn>)
    ensures Goes(before, before, None, turns, 0, false) && LastFound(turns[..0]) == None
  {
    assert turns[0..] == turns && turns[..0] == [];
  }

  lemma TurnGoes(
      before: seq<Event>, was: seq<Event>, bound: Option<Addr>, turns: seq<Turn>, i: nat, now: seq<Event>,
      bound': Option<Addr>, err: bool)
    requires Goes(before, was, bound, turns, i, false) && i < |turns|
    requires Handled(bound, turns[i], was, now, bound', err)
    ensures Goes(before, now, bound', turns, i + 1, err)
  {
    hide Ends;
    assert turns[i..][1..] == turns[i + 1..];
    if turns[i].Found? && turns[i].addr.Some? && turns[i].addr != bound {
      Appended(was, Ends(bound), [Started(turns[i].addr.value)], Outcome(turns[i].addr, turns[i + 1..]).events);
      assert Ends(None) == [] by { EndsOf(None); }
    }
  }

  lemma Appended(a: seq<Event>, b: seq<Event>, c: seq<Event>, d: seq<Event>)
    ensures a + b + c + d == a + (b + c + d) && a + b + [] == a + b
  {
  }

  lemma StopsGoing(
      before: seq<Event>, events: seq<Event>, bound: Option<Addr>, turns: seq<Turn>, i: nat, err: bool)
    requires Goes(before, events, bound, turns, i, err) && (err || i == |turns|)
    ensures events + Ends(bound) == before + Outcome(None, turns).events && err == Outcome(None, turns).err
  {
    assert turns[|turns|..] == [];
  }

  lemma FoundMore(turns: seq<Turn>, i: nat)
    requires i < |turns|
    ensures turns[i] in turns
    ensures turns[i].Found? && turns[i].addr.Some? ==> LastFound(turns[..i + 1]) == turns[i].addr
    ensures turns[i].Found? && turns[i].addr == None ==> LastFound(turns[..i + 1]) == LastFound(turns[..i])
  {
    assert turns[..i + 1][..i] == turns[..i];
  }

  datatype Result = Result(events: seq<Event>, err: bool)

  /**
   * What happens over some turns while a sink is bound to this address, if any is. A failed lookup, or a
   * sink that does not start, ends the run. A turn that finds no address, or the same one, does nothing.
   */
  function Outcome(bound: Option<Addr>, turns: seq<Turn>): Result
    decreases |turns|
  {
    if turns == [] then Result(Ends(bound), false)
    else if turns[0].LookupFailed? then Result(Ends(bound), true)
    else if turns[0].addr == None || turns[0].addr == bound then Outcome(bound, turns[1..])
    else if !turns[0].starts then Result(Ends(bound), true)
    else
      var rest := Outcome(turns[0].addr, turns[1..]);
      Result(Ends(bound) + [Started(turns[0].addr.value)] + rest.events, rest.err)
  }

  /** The address that was found last. */
  function LastFound(turns: seq<Turn>): Option<Addr> {
    if turns == [] then None
    else
      var last := turns[|turns| - 1];
      if last.Found? && last.addr.Some? then last.addr else LastFound(turns[..|turns| - 1])
  }
}
