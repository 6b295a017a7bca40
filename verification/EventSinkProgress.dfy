/**
 * Progress of the event sink: what each step of an update does, and that a session left alone handles
 * all versions it has, until the current one is recorded.
 */
module EventSinkProgress {
  import opened Results
  import opened Paths
  import opened EventSink

  /**
   * What each step of an update does to the record: nothing is written while a version is received or
   * published. A swap at the revision that was read records just the version that was published, and
   * takes the next version; at any other revision it writes nothing, and handles the same version again.
   */
  lemma SwapsExactly(w: World, p: Id)
    requires Enabled(w, Swap(p))
    ensures var s, w' := SessionOf(w, p).value, Next(w, Swap(p));
            && w'.log == w.log && w'.publishers.Keys == w.publishers.Keys
            && (forall q | q in w.publishers && q != p :: w'.publishers[q] == w.publishers[q])
            && w'.publishers[p].version == w.publishers[p].version
            && (s.revision == w.revision ==>
                  && w'.recorded == s.queue[0] && w'.revision == w.revision + 1
                  && SessionOf(w', p) == Some(Watching(s.queue[1..])))
            && (s.revision != w.revision ==>
                  && w'.recorded == w.recorded && w'.revision == w.revision
                  && SessionOf(w', p) == Some(Watching(s.queue)))
  {
  }

  /** A write of anything else to the record between reading and swapping makes the swap write nothing. */
  lemma ConflictIsRetried(w: World, p: Id)
    requires Enabled(w, Swap(p)) && SessionOf(w, p).value.revision <= w.revision
    ensures var w1 := Next(w, WriteElsewhere);
            && w1.(revision := w.revision) == w && Enabled(w1, Swap(p))
            && Next(w1, Swap(p)).recorded == w.recorded && Next(w1, Swap(p)).revision == w1.revision
            && SessionOf(Next(w1, Swap(p)), p) == Some(Watching(SessionOf(w, p).value.queue))
  {
    SwapsExactly(Next(w, WriteElsewhere), p);
  }

  /** A version that is not above the recorded one is dropped; any other is published, and just once a try. */
  lemma ReceivesExactly(w: World, p: Id)
    requires Enabled(w, Receive(p))
    ensures var queue, w1 := SessionOf(w, p).value.queue, Next(w, Receive(p));
            && w1.log == w.log && w1.recorded == w.recorded && w1.revision == w.revision
            && (queue[0] <= w.recorded ==> SessionOf(w1, p) == Some(Watching(queue[1..])))
            && (queue[0] > w.recorded ==>
                  && SessionOf(w1, p) == Some(Decided(queue, w.revision)) && Enabled(w1, Publish(p))
                  && var w2 := Next(w1, Publish(p));
                  && SessionOf(w2, p) == Some(Sent(queue, w.revision)) && w2.log == w.log + [Message(p, queue[0])]
                  && w2.recorded == w.recorded && w2.revision == w.revision && Enabled(w2, Swap(p)))
  {
  }

  /** A watch starts with as many of the last versions as there is backlog, or else with the current one, if any. */
  lemma InitialExactly(version: nat, latest: nat, last: nat)
    ensures var queue := Initial(version, latest, last);
            && (latest > last ==> |queue| == if latest - last <= version then latest - last else version)
            && (latest <= last ==> |queue| == if version == 0 then 0 else 1)
            && forall k | 0 <= k < |queue| :: queue[k] == version - |queue| + 1 + k
  {
    hide Versions;
    VersionsAre(if version >= latest - last then version - (latest - last) + 1 else 1, version);
  }

  predicate IsOwn(step: Step, p: Id) {
    && !step.WriteElsewhere? && step.p == p
    && (step.Start? || step.ReadRecord? || step.Watch? || step.Receive? || step.Publish? || step.Swap?)
  }

  /** The steps of one session alone: no update, no crash, and nobody else. */
  ghost function Alone(p: Id): (World, Step, World) -> bool {
    (w: World, step: Step, w': World) => Leads(w, step, w') && IsOwn(step, p)
  }

  lemma OneMoreAlone(path: seq<World>, step: Step, p: Id) returns (longer: seq<World>)
    requires Path(Alone(p), path) && Enabled(path[|path| - 1], step) && IsOwn(step, p)
    ensures Path(Alone(p), longer) && longer[0] == path[0]
    ensures longer[|longer| - 1] == Next(path[|path| - 1], step)
  {
    hide Next, Enabled;
    longer := OneMore(Alone(p), path, step, Next(path[|path| - 1], step));
  }

  /** The highest of some versions and the recorded one. */
  function Highest(recorded: nat, queue: seq<nat>): nat
    decreases |queue|
  {
    if queue == [] then recorded else Highest(if queue[0] > recorded then queue[0] else recorded, queue[1..])
  }

  predicate IsWatching(w: World, p: Id, queue: seq<nat>, version: nat) {
    p in w.publishers && w.publishers[p] == Publisher(version, Some(Watching(queue)))
  }

  lemma ReceiveEnabled(w: World, p: Id, queue: seq<nat>, version: nat)
    requires IsWatching(w, p, queue, version) && queue != []
    ensures Enabled(w, Receive(p)) && SessionOf(w, p).value.queue == queue
    ensures Next(w, Receive(p)).publishers.Keys == w.publishers.Keys
    ensures Next(w, Receive(p)).publishers[p].version == version
  {
  }

  /** Left alone, a session that watches handles the first version it has. */
  lemma HandlesFirst(path: seq<World>, p: Id, queue: seq<nat>, version: nat) returns (longer: seq<World>)
    requires Path(Alone(p), path) && IsWatching(path[|path| - 1], p, queue, version) && queue != []
    ensures Path(Alone(p), longer) && longer[0] == path[0]
    ensures IsWatching(longer[|longer| - 1], p, queue[1..], version)
    ensures var recorded := path[|path| - 1].recorded;
            longer[|longer| - 1].recorded == if queue[0] > recorded then queue[0] else recorded
  {
    var w := path[|path| - 1];
    ReceiveEnabled(w, p, queue, version);
    ReceivesExactly(w, p);
    hide Path, Alone;
    longer := OneMoreAlone(path, Receive(p), p);
    if queue[0] > w.recorded {
      var w2 := Next(Next(w, Receive(p)), Publish(p));
      SwapsExactly(w2, p);
      longer := OneMoreAlone(longer, Publish(p), p);
      longer := OneMoreAlone(longer, Swap(p), p);
    }
  }

  /** Left alone, a session that watches handles all it has, whatever that is, and the highest is recorded. */
  lemma {:induction false} HandlesAll(path: seq<World>, p: Id, queue: seq<nat>, version: nat)
    returns (longer: seq<World>)
    requires Path(Alone(p), path) && IsWatching(path[|path| - 1], p, queue, version)
    ensures Path(Alone(p), longer) && longer[0] == path[0]
    ensures IsWatching(longer[|longer| - 1], p, [], version)
    ensures longer[|longer| - 1].recorded == Highest(path[|path| - 1].recorded, queue)
    decreases |queue|
  {
    hide Path, Alone, IsWatching;
    longer := path;
    if queue != [] {
      longer := HandlesFirst(path, p, queue, version);
      longer := HandlesAll(longer, p, queue[1..], version);
    }
  }

  /** A session under way can always come to watching: one that has decided or published goes on to its swap. */
  lemma ComesToWatch(w: World, p: Id) returns (path: seq<World>, queue: seq<nat>)
    requires InStep(w, p)
    requires w.publishers[p].session == None || (!w.publishers[p].session.value.Got? &&
              !w.publishers[p].session.value.Ready?)
    ensures Path(Alone(p), path) && path[0] == w && IsWatching(path[|path| - 1], p, queue, w.publishers[p].version)
    ensures Covers(queue, w.publishers[p].version, path[|path| - 1].recorded)
    ensures path[|path| - 1].recorded <= w.publishers[p].version
  {
    path := AloneAtFirst(w, p);
    var session := w.publishers[p].session;
    if session == None {
      StartsToWatch(w, p);
      hide Path, Alone, Next;
      path := OneMoreAlone(path, Start(p), p);
      path := OneMoreAlone(path, ReadRecord(p), p);
      path := OneMoreAlone(path, Watch(p), p);
      queue := Initial(w.publishers[p].version, w.publishers[p].version, w.recorded);
    } else if session.value.Decided? {
      PublishesInStep(w, p);
      var w1 := Next(w, Publish(p));
      SwapInStep(w1, p);
      hide Path, Alone, Next, InStep;
      path := OneMoreAlone(path, Publish(p), p);
      path := OneMoreAlone(path, Swap(p), p);
      queue := SessionOf(Next(w1, Swap(p)), p).value.queue;
    } else if session.value.Sent? {
      SwapInStep(w, p);
      hide Path, Alone, Next, InStep;
      path := OneMoreAlone(path, Swap(p), p);
      queue := SessionOf(Next(w, Swap(p)), p).value.queue;
    } else {
      queue := session.value.queue;
    }
  }

  lemma AloneAtFirst(w: World, p: Id) returns (path: seq<World>)
    ensures Path(Alone(p), path) && path == [w]
  {
    path := [w];
  }

  lemma StartsToWatch(w: World, p: Id)
    requires InStep(w, p) && w.publishers[p].session == None
    ensures var version := w.publishers[p].version;
            var queue := Initial(version, version, w.recorded);
            && Enabled(w, Start(p)) && Enabled(Next(w, Start(p)), ReadRecord(p))
            && Enabled(Next(Next(w, Start(p)), ReadRecord(p)), Watch(p))
            && var w' := Next(Next(Next(w, Start(p)), ReadRecord(p)), Watch(p));
            IsWatching(w', p, queue, version) && w'.recorded == w.recorded && Covers(queue, version, w.recorded)
    ensures w.recorded <= w.publishers[p].version
  {
    hide Initial, InOrder, Covers;
    WatchCovers(w.publishers[p].version, w.publishers[p].version, w.recorded);
  }

  lemma PublishesInStep(w: World, p: Id)
    requires InStep(w, p) && w.publishers[p].session.Some? && w.publishers[p].session.value.Decided?
    ensures Enabled(w, Publish(p)) && InStep(Next(w, Publish(p)), p)
    ensures Next(w, Publish(p)).publishers[p].version == w.publishers[p].version
    ensures var s := Next(w, Publish(p)).publishers[p].session; s.Some? && s.value.Sent?
  {
    hide InOrder, Covers;
    StepInStep(w, Publish(p), p);
  }

  lemma SwapInStep(w: World, p: Id)
    requires InStep(w, p) && w.publishers[p].session.Some? && w.publishers[p].session.value.Sent?
    ensures Enabled(w, Swap(p)) && SessionOf(Next(w, Swap(p)), p).Some?
    ensures var s, version := SessionOf(Next(w, Swap(p)), p).value, w.publishers[p].version;
            && s.Watching? && IsWatching(Next(w, Swap(p)), p, s.queue, version)
            && Covers(s.queue, version, Next(w, Swap(p)).recorded) && Next(w, Swap(p)).recorded <= version
  {
    hide InOrder, Covers;
    StepInStep(w, Swap(p), p);
  }

  lemma {:induction false} HighestOfCovering(queue: seq<nat>, version: nat, recorded: nat)
    requires Covers(queue, version, recorded) && recorded <= version
    ensures Highest(recorded, queue) == version
    decreases |queue|
  {
    if queue != [] {
      HighestOfCovering(queue[1..], version, if queue[0] > recorded then queue[0] else recorded);
    }
  }

  /**
   * From every world of a gapless run in which no session has just started: the session's own steps
   * alone, with a new session if there is none, lead to one that has nothing left to handle, with the
   * current version recorded.
   */
  lemma CatchesUp(start: World, run: seq<World>, p: Id) returns (path: seq<World>)
    requires GaplessRun(start, run) && Initially(start) && start.publishers.Keys == {p}
    requires p in run[|run| - 1].publishers
    requires var session := run[|run| - 1].publishers[p].session;
             session == None || (!session.value.Got? && !session.value.Ready?)
    ensures Path(Alone(p), path) && path[0] == run[|run| - 1]
    ensures var w, version := path[|path| - 1], run[|run| - 1].publishers[p].version;
            SessionOf(w, p) == Some(Watching([])) && w.recorded == version && w.publishers[p].version == version
  {
    hide GaplessRun, InStep, Covers;
    RunIsThere(start, run);
    RunInStep(start, run, p, |run| - 1);
    var w := run[|run| - 1];
    var queue: seq<nat>;
    path, queue := ComesToWatch(w, p);
    HighestOfCovering(queue, w.publishers[p].version, path[|path| - 1].recorded);
    path := HandlesAll(path, p, queue, w.publishers[p].version);
  }

  lemma RunIsThere(start: World, run: seq<World>)
    requires GaplessRun(start, run)
    ensures run != []
  {
  }
}
