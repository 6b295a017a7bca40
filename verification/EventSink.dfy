/**
 * Publishing events under optimistic concurrency: sessions that watch a resource publish its
 * versions inside a conflict-retried update of the record of what was published.
 */
module EventSink {
  import opened Results
  import opened Paths

  type Id = nat

  /**
   * How far a session of generateEvents has come: it got the latest version, also got the recorded
   * one, watches with some versions still to handle, has read the record and decided to publish the
   * first of them, or has published it. revision is the version of the record it has read.
   */
  datatype Session =
    | Got(latest: nat)
    | Ready(latest: nat, last: nat)
    | Watching(queue: seq<nat>)
    | Decided(queue: seq<nat>, revision: nat)
    | Sent(queue: seq<nat>, revision: nat)

  /** A resource at some version, 0 if it does not exist, and the session that publishes it. */
  datatype Publisher = Publisher(version: nat, session: Option<Session>)

  datatype Message = Message(from: Id, version: nat)

  /**
   * The publishers that share one entry of the record of published versions, that entry, the version
   * of the record itself, and everything published so far.
   */
  datatype World = World(publishers: map<Id, Publisher>, recorded: nat, revision: nat, log: seq<Message>)

  datatype Step =
    | Update(p: Id)
    | WriteElsewhere
    | Start(p: Id)
    | ReadRecord(p: Id)
    | Watch(p: Id)
    | Receive(p: Id)
    | Publish(p: Id)
    | Swap(p: Id)
    | Crash(p: Id)

  function Versions(first: nat, last: nat): seq<nat>
    decreases last + 1 - first
  {
    if first > last then [] else [first] + Versions(first + 1, last)
  }

  /** What a watch starts with: the last backlog versions, or the current one if there is no backlog. */
  function Initial(version: nat, latest: nat, last: nat): seq<nat> {
    if latest > last then Versions(if version >= latest - last then version - (latest - last) + 1 else 1, version)
    else if version > 0 then [version] else []
  }

  function SessionOf(w: World, p: Id): Option<Session> {
    if p in w.publishers then w.publishers[p].session else None
  }

  ghost predicate Enabled(w: World, step: Step) {
    match step
    case WriteElsewhere => true
    case Update(p) => p in w.publishers
    case Start(p) => p in w.publishers && w.publishers[p].session == None
    case ReadRecord(p) => SessionOf(w, p).Some? && SessionOf(w, p).value.Got?
    case Watch(p) => SessionOf(w, p).Some? && SessionOf(w, p).value.Ready?
    case Receive(p) => SessionOf(w, p).Some? && SessionOf(w, p).value.Watching? && SessionOf(w, p).value.queue != []
    case Publish(p) => SessionOf(w, p).Some? && SessionOf(w, p).value.Decided? && SessionOf(w, p).value.queue != []
    case Swap(p) => SessionOf(w, p).Some? && SessionOf(w, p).value.Sent? && SessionOf(w, p).value.queue != []
    case Crash(p) => SessionOf(w, p).Some?
  }

  /** A session that watches gets every new version. */
  function Notify(session: Option<Session>, version: nat): Option<Session> {
    if session.None? || session.value.Got? || session.value.Ready? then session
    else Some(session.value.(queue := session.value.queue + [version]))
  }

  function To(w: World, p: Id, session: Option<Session>): World
    requires p in w.publishers
  {
    w.(publishers := w.publishers[p := w.publishers[p].(session := session)])
  }

  function Next(w: World, step: Step): World
    requires Enabled(w, step)
  {
    match step
    case WriteElsewhere => w.(revision := w.revision + 1)
    case Update(p) =>
      var v := w.publishers[p].version + 1;
      w.(publishers := w.publishers[p := Publisher(v, Notify(w.publishers[p].session, v))])
    case Start(p) => To(w, p, Some(Got(w.publishers[p].version)))
    case ReadRecord(p) => To(w, p, Some(Ready(SessionOf(w, p).value.latest, w.recorded)))
    case Watch(p) =>
      var s := SessionOf(w, p).value;
      To(w, p, Some(Watching(Initial(w.publishers[p].version, s.latest, s.last))))
    case Receive(p) =>
      var queue := SessionOf(w, p).value.queue;
      To(w, p, Some(if queue[0] <= w.recorded then Watching(queue[1..]) else Decided(queue, w.revision)))
    case Publish(p) =>
      var s := SessionOf(w, p).value;
      To(w, p, Some(Sent(s.queue, s.revision))).(log := w.log + [Message(p, s.queue[0])])
    case Swap(p) =>
      var s := SessionOf(w, p).value;
      if s.revision != w.revision then To(w, p, Some(Watching(s.queue)))
      else To(w, p, Some(Watching(s.queue[1..]))).(recorded := s.queue[0], revision := w.revision + 1)
    case Crash(p) => To(w, p, None)
  }

  // ---------------------------------------------------------------- any number of publishers

  ghost predicate WasPublished(w: World, version: nat) {
    exists k | 0 <= k < |w.log| :: w.log[k].version == version
  }

  /** A session that has read the record as it still is holds a version above the recorded one. */
  ghost predicate Fresh(w: World, session: Session) {
    && (session.Decided? || session.Sent? ==>
          && session.queue != [] && session.revision <= w.revision
          && (session.revision == w.revision ==> session.queue[0] > w.recorded))
    && (session.Sent? ==> WasPublished(w, session.queue[0]))
  }

  ghost predicate Sound(w: World) {
    && (w.recorded == 0 || WasPublished(w, w.recorded))
    && forall p | p in w.publishers && w.publishers[p].session.Some? :: Fresh(w, w.publishers[p].session.value)
  }

  lemma LogGrows(w: World, w': World, version: nat)
    requires w.log <= w'.log && WasPublished(w, version)
    ensures WasPublished(w', version)
  {
    var k :| 0 <= k < |w.log| && w.log[k].version == version;
    assert w'.log[k].version == version;
  }

  lemma StepLog(w: World, step: Step)
    requires Enabled(w, step)
    ensures w.log <= Next(w, step).log && w.revision <= Next(w, step).revision
    ensures Next(w, step).revision == w.revision ==> Next(w, step).recorded == w.recorded
  {
  }

  /** A session of another publisher stays fresh. */
  lemma StaysFresh(w: World, w': World, session: Session)
    requires Fresh(w, session) && w.log <= w'.log && w.revision <= w'.revision
    requires w'.revision == w.revision ==> w'.recorded == w.recorded
    ensures Fresh(w', session)
  {
    if session.Sent? {
      LogGrows(w, w', session.queue[0]);
    }
  }

  /**
   * The recorded version never goes back, and is only ever one that was published before, whatever
   * conflicts, retries and crashes there are and however many publishers share it.
   */
  lemma StepSound(w: World, step: Step)
    requires Enabled(w, step) && Sound(w)
    ensures Sound(Next(w, step))
    ensures w.recorded <= Next(w, step).recorded
  {
    hide Fresh, WasPublished;
    var w' := Next(w, step);
    StepLog(w, step);
    if w.recorded != 0 {
      LogGrows(w, w', w.recorded);
    }
    forall p | p in w'.publishers && w'.publishers[p].session.Some?
      ensures Fresh(w', w'.publishers[p].session.value)
    {
      if w'.publishers[p].session == w.publishers[p].session {
        StaysFresh(w, w', w.publishers[p].session.value);
      } else {
        OwnStepFresh(w, step, p);
      }
    }
    if step.Swap? {
      SwapSound(w, step.p);
    }
  }

  lemma OwnStepFresh(w: World, step: Step, p: Id)
    requires Enabled(w, step) && Sound(w) && p in w.publishers
    requires Next(w, step).publishers[p].session.Some? && Next(w, step).publishers[p].session != w.publishers[p].session
    ensures Fresh(Next(w, step), Next(w, step).publishers[p].session.value)
  {
    var w' := Next(w, step);
    StepLog(w, step);
    match step
    case Update(_) =>
      StaysFresh(w, w', w.publishers[p].session.value);
    case Publish(_) =>
      assert w'.log[|w.log|].version == w.publishers[p].session.value.queue[0];
    case _ =>
  }

  lemma SwapSound(w: World, p: Id)
    requires Enabled(w, Swap(p)) && Sound(w)
    ensures w.recorded <= Next(w, Swap(p)).recorded
    ensures Next(w, Swap(p)).recorded == w.recorded || WasPublished(Next(w, Swap(p)), Next(w, Swap(p)).recorded)
  {
    assert Fresh(w, w.publishers[p].session.value);
  }

  ghost predicate Leads(w: World, step: Step, w': World) {
    Enabled(w, step) && w' == Next(w, step)
  }

  ghost predicate Run(start: World, run: seq<World>) {
    Path(Leads, run) && run[0] == start
  }

  /** Nothing is recorded, nothing published and no session has started. */
  ghost predicate Initially(w: World) {
    && w.recorded == 0 && w.log == []
    && forall p | p in w.publishers :: w.publishers[p].session == None
  }

  lemma {:induction false} RunSound(start: World, run: seq<World>, i: nat)
    requires Run(start, run) && Initially(start) && i < |run|
    ensures Sound(run[i])
  {
    hide Next, Enabled, Path;
    if i > 0 {
      RunSound(start, run, i - 1);
      var step := StepTo(Leads, run, i);
      StepSound(run[i - 1], step);
    }
  }

  /** Over a whole run, the recorded version never goes back and was always published before. */
  lemma {:induction false} RecordIsSafe(start: World, run: seq<World>, i: nat, j: nat)
    requires Run(start, run) && Initially(start) && i <= j < |run|
    ensures run[i].recorded <= run[j].recorded
    ensures run[j].recorded == 0 || WasPublished(run[j], run[j].recorded)
    decreases j
  {
    hide Next, Enabled, Path, WasPublished;
    RunSound(start, run, j);
    if i < j {
      RecordIsSafe(start, run, i, j - 1);
      RunSound(start, run, j - 1);
      var step := StepTo(Leads, run, j);
      StepSound(run[j - 1], step);
    }
  }

  // ---------------------------------------------------------------- one publisher

  /** The queue holds consecutive versions up to the current one, among them all that are not recorded. */
  ghost predicate Covers(queue: seq<nat>, version: nat, recorded: nat) {
    version <= recorded + |queue| && forall k | 0 <= k < |queue| :: queue[k] == version - |queue| + 1 + k
  }

  lemma {:induction false} VersionsAre(first: nat, last: nat)
    ensures |Versions(first, last)| == if first > last then 0 else last + 1 - first
    ensures forall k | 0 <= k < |Versions(first, last)| :: Versions(first, last)[k] == first + k
    decreases last + 1 - first
  {
    if first <= last {
      VersionsAre(first + 1, last);
    }
  }

  /** No update came between reading the latest version and watching, or just one and there was no backlog. */
  predicate NoGap(version: nat, latest: nat, last: nat) {
    version == latest || (latest == last && version == latest + 1)
  }

  /** A watch starts with every version that is not recorded if and only if there was no such gap. */
  lemma WatchCovers(version: nat, latest: nat, last: nat)
    requires last <= latest <= version
    ensures Covers(Initial(version, latest, last), version, last) <==> NoGap(version, latest, last)
  {
    var queue := Initial(version, latest, last);
    VersionsAre(version - (latest - last) + 1, version);
    if latest > last {
      assert |queue| == latest - last;
    }
  }

  function LastSent(log: seq<Message>): nat {
    if log == [] then 0 else log[|log| - 1].version
  }

  /** The published versions start at 1, and each is the one before it again, or the next one. */
  ghost predicate InOrder(log: seq<Message>) {
    && (log != [] ==> log[0].version == 1)
    && forall k | 0 < k < |log| :: log[k].version == log[k - 1].version || log[k].version == log[k - 1].version + 1
  }

  lemma InOrderMore(log: seq<Message>, m: Message)
    requires InOrder(log) && (m.version == LastSent(log) > 0 || m.version == LastSent(log) + 1)
    ensures InOrder(log + [m]) && LastSent(log + [m]) == m.version
  {
  }

  /** The only publisher's session knows all that is to be published. */
  ghost predicate Knows(w: World, version: nat, session: Session) {
    match session
    case Got(latest) => latest <= version && w.recorded <= latest
    case Ready(latest, last) => latest <= version && last == w.recorded <= latest
    case Watching(queue) => Covers(queue, version, w.recorded)
    case Decided(queue, _) => Covers(queue, version, w.recorded) && queue != [] && queue[0] == w.recorded + 1
    case Sent(queue, _) =>
      Covers(queue, version, w.recorded) && queue != [] && queue[0] == w.recorded + 1 == LastSent(w.log)
  }

  ghost predicate InStep(w: World, p: Id) {
    && w.publishers.Keys == {p}
    && InOrder(w.log)
    && w.recorded <= LastSent(w.log) <= w.recorded + 1
    && LastSent(w.log) <= w.publishers[p].version
    && (w.publishers[p].session.Some? ==> Knows(w, w.publishers[p].version, w.publishers[p].session.value))
  }

  ghost predicate Gapless(w: World, step: Step)
    requires Enabled(w, step)
  {
    step.Watch? ==>
      var s := SessionOf(w, step.p).value;
      NoGap(w.publishers[step.p].version, s.latest, s.last)
  }

  lemma StepInStep(w: World, step: Step, p: Id)
    requires Enabled(w, step) && InStep(w, p) && Gapless(w, step)
    ensures InStep(Next(w, step), p)
  {
    hide InOrder, Initial, Covers;
    match step
    case Update(_) => UpdateInStep(w, p);
    case Watch(_) =>
      var s := w.publishers[p].session.value;
      WatchCovers(w.publishers[p].version, s.latest, s.last);
    case Receive(_) => CoversHead(w.publishers[p].session.value.queue, w.publishers[p].version, w.recorded);
    case Publish(_) =>
      var queue := w.publishers[p].session.value.queue;
      CoversHead(queue, w.publishers[p].version, w.recorded);
      InOrderMore(w.log, Message(p, queue[0]));
    case Swap(_) => CoversHead(w.publishers[p].session.value.queue, w.publishers[p].version, w.recorded);
    case _ =>
  }

  lemma UpdateInStep(w: World, p: Id)
    requires InStep(w, p)
    ensures InStep(Next(w, Update(p)), p)
  {
    hide InOrder, Initial, LastSent;
  }

  /** The first version of a queue that covers is at most the next one to record, and is handled next. */
  lemma CoversHead(queue: seq<nat>, version: nat, recorded: nat)
    requires Covers(queue, version, recorded) && queue != []
    ensures queue[0] <= recorded + 1 && queue[0] <= version
    ensures Covers(queue[1..], version, if queue[0] <= recorded then recorded else queue[0])
  {
  }

  ghost predicate LeadsGapless(w: World, step: Step, w': World) {
    Leads(w, step, w') && Gapless(w, step)
  }

  ghost predicate GaplessRun(start: World, run: seq<World>) {
    Path(LeadsGapless, run) && run[0] == start
  }

  lemma StartsInStep(start: World, p: Id)
    requires Initially(start) && start.publishers.Keys == {p}
    ensures InStep(start, p)
  {
  }

  lemma {:induction false} RunInStep(start: World, run: seq<World>, p: Id, i: nat)
    requires GaplessRun(start, run) && Initially(start) && start.publishers.Keys == {p} && i < |run|
    ensures InStep(run[i], p)
  {
    hide Next, Enabled, Path, InStep, Gapless;
    StartsInStep(start, p);
    if i > 0 {
      RunInStep(start, run, p, i - 1);
      var step := StepTo(LeadsGapless, run, i);
      StepInStep(run[i - 1], step, p);
    }
  }

  lemma {:induction false} AllSent(w: World, k: nat, version: nat)
    requires InOrder(w.log) && k < |w.log| && 1 <= version <= w.log[k].version
    ensures WasPublished(w, version)
  {
    if version < w.log[k].version {
      AllSent(w, k - 1, version);
    }
  }

  /**
   * For a resource with one publisher, over conflicts, retries and crashes: the versions are published
   * in order, with nothing left out and nothing but repeats; and once a session has handled all it was
   * sent, everything is published and recorded.
   */
  lemma PublishedInOrder(start: World, run: seq<World>, p: Id, i: nat)
    requires GaplessRun(start, run) && Initially(start) && start.publishers.Keys == {p} && i < |run|
    ensures InOrder(run[i].log)
    ensures forall v | 1 <= v <= run[i].recorded :: WasPublished(run[i], v)
    ensures SessionOf(run[i], p) == Some(Watching([])) ==> run[i].recorded == run[i].publishers[p].version
  {
    RunInStep(start, run, p, i);
    hide WasPublished, GaplessRun;
    var w := run[i];
    forall v | 1 <= v <= w.recorded
      ensures WasPublished(w, v)
    {
      AllSent(w, |w.log| - 1, v);
    }
  }

  // ---------------------------------------------------------------- with gaps

  /** The published versions never go back. */
  ghost predicate NonDecreasing(log: seq<Message>) {
    forall k | 0 < k < |log| :: log[k - 1].version <= log[k].version
  }

  lemma NonDecreasingMore(log: seq<Message>, m: Message)
    ensures NonDecreasing(log + [m]) <==> NonDecreasing(log) && LastSent(log) <= m.version
    ensures LastSent(log + [m]) == m.version
  {
    var more := log + [m];
    assert forall k | 0 <= k < |log| :: more[k] == log[k];
    assert more[|log|] == m;
    if NonDecreasing(more) {
      assert forall k | 0 < k < |log| :: more[k - 1].version <= more[k].version;
      assert log != [] ==> more[|log| - 1].version <= more[|log|].version;
    }
  }

  /** The session is about to publish, or to record, the version published last. */
  ghost predicate StillAt(session: Option<Session>, version: nat) {
    && session.Some? && !session.value.Got? && !session.value.Ready?
    && session.value.queue != [] && session.value.queue[0] == version
  }

  /** What holds for a single publisher in spite of gaps, as long as no session crashes at a wrong moment. */
  ghost predicate Forward(w: World, p: Id) {
    && w.publishers.Keys == {p}
    && NonDecreasing(w.log)
    && w.recorded <= LastSent(w.log) <= w.publishers[p].version
    && (LastSent(w.log) <= w.recorded + 1 || StillAt(w.publishers[p].session, LastSent(w.log)))
    && (w.publishers[p].session.Some? ==> Ahead(w, w.publishers[p].version, w.publishers[p].session.value))
  }

  ghost predicate Ahead(w: World, version: nat, session: Session) {
    match session
    case Got(_) => true
    case Ready(_, _) => true
    case Watching(queue) => UpTo(queue, version)
    case Decided(queue, _) => UpTo(queue, version) && queue != [] && queue[0] > w.recorded
    case Sent(queue, _) => UpTo(queue, version) && queue != [] && queue[0] == LastSent(w.log)
  }

  ghost predicate UpTo(queue: seq<nat>, version: nat) {
    forall v | v in queue :: v <= version
  }

  lemma UpToMore(queue: seq<nat>, version: nat)
    requires UpTo(queue, version)
    ensures UpTo(queue + [version + 1], version + 1)
  {
  }

  lemma UpToRest(queue: seq<nat>, version: nat)
    requires UpTo(queue, version) && queue != []
    ensures UpTo(queue[1..], version) && queue[0] <= version
  {
    assert forall v | v in queue[1..] :: v in queue;
    assert queue[0] in queue;
  }

  lemma InitialUpTo(version: nat, latest: nat, last: nat)
    ensures UpTo(Initial(version, latest, last), version)
  {
    var first := if version >= latest - last then version - (latest - last) + 1 else 1;
    if latest > last {
      VersionsAre(first, version);
    }
  }

  /** No session crashes while what it published last is beyond the version to record next. */
  ghost predicate Safe(w: World, step: Step) {
    step.Crash? ==> LastSent(w.log) <= w.recorded + 1
  }

  lemma StepForward(w: World, step: Step, p: Id)
    requires Enabled(w, step) && Forward(w, p) && Safe(w, step)
    ensures Forward(Next(w, step), p)
  {
    hide NonDecreasing, Initial, UpTo, LastSent;
    match step
    case Update(_) =>
      if w.publishers[p].session.Some? && !w.publishers[p].session.value.Got? && !w.publishers[p].session.value.Ready? {
        UpToMore(w.publishers[p].session.value.queue, w.publishers[p].version);
      }
    case Receive(_) => UpToRest(w.publishers[p].session.value.queue, w.publishers[p].version);
    case Swap(_) => UpToRest(w.publishers[p].session.value.queue, w.publishers[p].version);
    case Watch(_) =>
      var s := w.publishers[p].session.value;
      InitialUpTo(w.publishers[p].version, s.latest, s.last);
    case Publish(_) =>
      var queue := w.publishers[p].session.value.queue;
      UpToRest(queue, w.publishers[p].version);
      NonDecreasingMore(w.log, Message(p, queue[0]));
    case _ =>
  }

  ghost predicate LeadsSafely(w: World, step: Step, w': World) {
    Leads(w, step, w') && Safe(w, step)
  }

  ghost predicate SafeRun(start: World, run: seq<World>) {
    Path(LeadsSafely, run) && run[0] == start
  }

  lemma StartsForward(start: World, p: Id)
    requires Initially(start) && start.publishers.Keys == {p}
    ensures Forward(start, p)
  {
  }

  lemma {:induction false} PathForward(path: seq<World>, p: Id, i: nat)
    requires Path(LeadsSafely, path) && i < |path| && Forward(path[0], p)
    ensures Forward(path[i], p)
  {
    hide Next, Enabled, Path, Forward, Safe;
    if i > 0 {
      PathForward(path, p, i - 1);
      var step := StepTo(LeadsSafely, path, i);
      StepForward(path[i - 1], step, p);
    }
  }

  /**
   * For a resource with one publisher, and whatever gaps there are: the published versions never go
   * back, if no session crashes after it has published a version beyond the next one to record.
   */
  lemma NeverGoesBack(start: World, run: seq<World>, p: Id, i: nat)
    requires SafeRun(start, run) && Initially(start) && start.publishers.Keys == {p} && i < |run|
    ensures NonDecreasing(run[i].log)
  {
    StartsForward(start, p);
    PathForward(run, p, i);
  }

  /** What can follow on a crash, if no session crashes at a wrong moment after it. */
  ghost predicate GoesOnAfterCrash(w: World, path: seq<World>, p: Id)
    requires Enabled(w, Crash(p))
  {
    Path(LeadsSafely, path) && path[0] == Next(w, Crash(p))
  }

  /** After a crash, the published versions can go back. */
  ghost predicate CanGoBack(w: World, p: Id)
    requires Enabled(w, Crash(p))
  {
    exists path: seq<World> :: GoesOnAfterCrash(w, path, p) && !NonDecreasing(path[|path| - 1].log)
  }

  lemma OneMoreSafely(path: seq<World>, step: Step) returns (longer: seq<World>)
    requires Path(LeadsSafely, path) && Enabled(path[|path| - 1], step) && !step.Crash?
    ensures Path(LeadsSafely, longer) && longer == path + [Next(path[|path| - 1], step)]
  {
    hide Next, Enabled;
    longer := OneMore(LeadsSafely, path, step, Next(path[|path| - 1], step));
  }

  /** What a new session publishes first, if there is no gap: the version after the recorded one. */
  lemma NewSession(w: World, p: Id)
    requires p in w.publishers && w.publishers[p].session == None && w.recorded < w.publishers[p].version
    ensures var w1 := Next(w, Start(p));
            && Enabled(w1, ReadRecord(p))
            && var w2 := Next(w1, ReadRecord(p));
            && Enabled(w2, Watch(p))
            && var w3 := Next(w2, Watch(p));
            && Enabled(w3, Receive(p))
            && var w4 := Next(w3, Receive(p));
            && Enabled(w4, Publish(p)) && Next(w4, Publish(p)).log == w.log + [Message(p, w.recorded + 1)]
  {
    VersionsAre(w.recorded + 1, w.publishers[p].version);
    hide Versions;
  }

  lemma AfterCrash(w: World, p: Id)
    requires Enabled(w, Crash(p)) && Forward(w, p)
    ensures var w0 := Next(w, Crash(p));
            && w0.log == w.log && w0.recorded == w.recorded && p in w0.publishers
            && w0.publishers[p] == Publisher(w.publishers[p].version, None) && Enabled(w0, Start(p))
            && LastSent(w.log) <= w0.publishers[p].version
  {
  }

  /** A world without a session leads to one where the version to record next is published. */
  lemma SessionGoesOn(w: World, p: Id) returns (path: seq<World>)
    requires p in w.publishers && w.publishers[p].session == None && w.recorded < w.publishers[p].version
    ensures Path(LeadsSafely, path) && path[0] == w
    ensures path[|path| - 1].log == w.log + [Message(p, w.recorded + 1)]
  {
    NewSession(w, p);
    assert Enabled(w, Start(p));
    assert Path(LeadsSafely, [w]);
    hide Next, Enabled, Path;
    path := OneMoreSafely([w], Start(p));
    path := OneMoreSafely(path, ReadRecord(p));
    path := OneMoreSafely(path, Watch(p));
    path := OneMoreSafely(path, Receive(p));
    path := OneMoreSafely(path, Publish(p));
  }

  /** After a crash at the wrong moment, a new session publishes a version that was passed already. */
  lemma CrashGoesBack(w: World, p: Id) returns (path: seq<World>)
    requires Enabled(w, Crash(p)) && Forward(w, p) && LastSent(w.log) > w.recorded + 1
    ensures GoesOnAfterCrash(w, path, p) && !NonDecreasing(path[|path| - 1].log)
  {
    hide NonDecreasing;
    NonDecreasingMore(w.log, Message(p, w.recorded + 1));
    AfterCrash(w, p);
    hide Next, Enabled, Forward;
    path := SessionGoesOn(Next(w, Crash(p)), p);
  }

  /**
   * The exact moment at which a crash is harmful: the published versions can go back after it if and
   * only if the session has published a version beyond the next one to record.
   */
  lemma CrashGoesBackExactly(start: World, run: seq<World>, p: Id)
    requires SafeRun(start, run) && Initially(start) && start.publishers.Keys == {p}
    requires Enabled(run[|run| - 1], Crash(p))
    ensures CanGoBack(run[|run| - 1], p) <==> LastSent(run[|run| - 1].log) > run[|run| - 1].recorded + 1
  {
    hide Forward, LeadsSafely, NonDecreasing, Enabled, Next;
    var w := run[|run| - 1];
    StartsForward(start, p);
    PathForward(run, p, |run| - 1);
    if LastSent(w.log) > w.recorded + 1 {
      var path := CrashGoesBack(w, p);
    } else {
      StepForward(w, Crash(p), p);
      forall path: seq<World> | GoesOnAfterCrash(w, path, p)
        ensures NonDecreasing(path[|path| - 1].log)
      {
        PathForward(path, p, |path| - 1);
        ForwardIsNonDecreasing(path[|path| - 1], p);
      }
    }
  }

  lemma ForwardIsNonDecreasing(w: World, p: Id)
    requires Forward(w, p)
    ensures NonDecreasing(w.log)
  {
  }

  // ---------------------------------------------------------------- an update in between

  lemma RunOn(start: World, run: seq<World>, step: Step, w: World) returns (longer: seq<World>)
    requires Run(start, run) && Leads(run[|run| - 1], step, w)
    ensures Run(start, longer) && longer[|longer| - 1] == w
  {
    hide Leads;
    longer := OneMore(Leads, run, step, w);
  }

  /** A world with one publisher, of whose versions nothing is recorded. */
  function Only(version: nat, session: Option<Session>, log: seq<Message>): World {
    World(map[0 := Publisher(version, session)], 0, 0, log)
  }

  lemma Updates(version: nat, session: Option<Session>, log: seq<Message>)
    ensures Leads(Only(version, session, log), Update(0), Only(version + 1, Notify(session, version + 1), log))
  {
  }

  lemma Starts(version: nat, log: seq<Message>)
    ensures Leads(Only(version, None, log), Start(0), Only(version, Some(Got(version)), log))
  {
  }

  lemma Reads(version: nat, latest: nat, log: seq<Message>)
    ensures Leads(Only(version, Some(Got(latest)), log), ReadRecord(0), Only(version, Some(Ready(latest, 0)), log))
  {
  }

  lemma Watches(version: nat, latest: nat, log: seq<Message>)
    ensures Leads(Only(version, Some(Ready(latest, 0)), log), Watch(0),
                  Only(version, Some(Watching(Initial(version, latest, 0))), log))
  {
  }

  lemma Receives(version: nat, queue: seq<nat>, log: seq<Message>)
    requires queue != [] && queue[0] > 0
    ensures Leads(Only(version, Some(Watching(queue)), log), Receive(0), Only(version, Some(Decided(queue, 0)), log))
  {
  }

  lemma Publishes(version: nat, queue: seq<nat>, log: seq<Message>)
    requires queue != []
    ensures Leads(Only(version, Some(Decided(queue, 0)), log), Publish(0),
                  Only(version, Some(Sent(queue, 0)), log + [Message(0, queue[0])]))
  {
  }

  lemma Crashes(version: nat, session: Session, log: seq<Message>)
    ensures Leads(Only(version, Some(session), log), Crash(0), Only(version, None, log))
  {
  }

  /** A session that publishes the first version it is sent, after one more update if late. */
  lemma SessionPublishes(start: World, run: seq<World>, version: nat, late: bool, queue: seq<nat>, log: seq<Message>)
    returns (longer: seq<World>)
    requires Run(start, run) && run[|run| - 1] == Only(version, None, log)
    requires queue == Initial(if late then version + 1 else version, version, 0) && queue != [] && queue[0] > 0
    ensures Run(start, longer)
    ensures longer[|longer| - 1] ==
              Only(if late then version + 1 else version, Some(Sent(queue, 0)), log + [Message(0, queue[0])])
  {
    hide Run, Leads, Only, Initial;
    var now := if late then version + 1 else version;
    Starts(version, log);
    longer := RunOn(start, run, Start(0), Only(version, Some(Got(version)), log));
    Reads(version, version, log);
    longer := RunOn(start, longer, ReadRecord(0), Only(version, Some(Ready(version, 0)), log));
    if late {
      Updates(version, Some(Ready(version, 0)), log);
      longer := RunOn(start, longer, Update(0), Only(now, Some(Ready(version, 0)), log));
    }
    Watches(now, version, log);
    longer := RunOn(start, longer, Watch(0), Only(now, Some(Watching(queue)), log));
    Receives(now, queue, log);
    longer := RunOn(start, longer, Receive(0), Only(now, Some(Decided(queue, 0)), log));
    Publishes(now, queue, log);
    longer := RunOn(start, longer, Publish(0), Only(now, Some(Sent(queue, 0)), log + [Message(0, queue[0])]));
  }

  lemma StartRun(start: World) returns (run: seq<World>)
    ensures Run(start, run) && run == [start]
  {
    run := [start];
  }

  /**
   * An update between reading the latest version and watching makes the session skip a version. If it
   * then crashes before it records what it published, the next session goes back.
   */
  lemma SkippedIsReplayed() returns (run: seq<World>)
    ensures Initially(Only(0, None, [])) && Run(Only(0, None, []), run)
    ensures run[|run| - 1].log == [Message(0, 2), Message(0, 1)]
  {
    var start, m1, m2 := Only(0, None, []), Message(0, 1), Message(0, 2);
    assert Initial(2, 1, 0) == [2] && Initial(2, 2, 0) == [1, 2] by {
      assert Versions(3, 2) == [] && Versions(2, 2) == [2];
    }
    assert [] + [m2] == [m2] && [m2] + [m1] == [m2, m1];
    hide Run, Leads, Initial;
    run := StartRun(start);
    Updates(0, None, []);
    run := RunOn(start, run, Update(0), Only(1, None, []));
    run := SessionPublishes(start, run, 1, true, [2], []);
    Crashes(2, Sent([2], 0), [m2]);
    run := RunOn(start, run, Crash(0), Only(2, None, [m2]));
    run := SessionPublishes(start, run, 2, false, [1, 2], [m2]);
  }
}
