/**
 * The cache of remote backends: any number of calls of Get, each a load, a build and a
 * load-or-store, in any interleaving.
 */
module ApidFactory {
  import opened Paths

  /** A backend, by the order in which backends were built. */
  type Id = nat
  type Call = nat

  /** How far a call of Get has come. */
  datatype Phase = Missed(target: string) | Built(target: string, id: Id) | Returned(target: string, id: Id) | Failed

  /** The cache, the target each backend was built for, which ones are closed, and the calls. */
  datatype Factory = Factory(cache: map<string, Id>, built: seq<string>, closed: set<Id>, calls: map<Call, Phase>)

  const EMPTY := Factory(map[], [], {}, map[])

  datatype Step = Load(call: Call, target: string) | Build(call: Call) | LoadOrStore(call: Call)

  ghost predicate Enabled(f: Factory, step: Step) {
    match step
    case Load(c, _) => c !in f.calls
    case Build(c) => c in f.calls && f.calls[c].Missed?
    case LoadOrStore(c) => c in f.calls && f.calls[c].Built?
  }

  /** One atomic step of a call; accepts says which targets NewAPID takes. */
  function Next(accepts: string -> bool, f: Factory, step: Step): Factory
    requires Enabled(f, step)
  {
    match step
    case Load(c, t) =>
      f.(calls := f.calls[c := if t in f.cache then Returned(t, f.cache[t]) else Missed(t)])
    case Build(c) =>
      var t := f.calls[c].target;
      if !accepts(t) then f.(calls := f.calls[c := Failed])
      else f.(built := f.built + [t], calls := f.calls[c := Built(t, |f.built|)])
    case LoadOrStore(c) =>
      var t, id := f.calls[c].target, f.calls[c].id;
      if t in f.cache then f.(closed := f.closed + {id}, calls := f.calls[c := Returned(t, f.cache[t])])
      else f.(cache := f.cache[t := id], calls := f.calls[c := Returned(t, id)])
  }

  ghost function Leads(accepts: string -> bool): (Factory, Step, Factory) -> bool {
    (f: Factory, step: Step, g: Factory) => Enabled(f, step) && g == Next(accepts, f, step)
  }

  ghost predicate Run(accepts: string -> bool, run: seq<Factory>) {
    Path(Leads(accepts), run) && run[0] == EMPTY
  }

  /** Call c has built this backend and not yet offered it to the cache. */
  ghost predicate Holds(f: Factory, c: Call, id: Id) {
    c in f.calls && f.calls[c].Built? && f.calls[c].id == id
  }

  ghost predicate Cached(f: Factory, id: Id) {
    id < |f.built| && f.built[id] in f.cache && f.cache[f.built[id]] == id
  }

  /** A cached backend is open, and was built for its target. */
  ghost predicate CacheIsOpen(f: Factory) {
    forall t | t in f.cache :: f.cache[t] < |f.built| && f.built[f.cache[t]] == t && f.cache[t] !in f.closed
  }

  /** A backend that a call holds is neither cached nor closed, and no other call holds it. */
  ghost predicate HeldOnce(f: Factory) {
    && (forall c: Call, id: Id | Holds(f, c, id) ::
          id < |f.built| && f.built[id] == f.calls[c].target && !Cached(f, id) && id !in f.closed)
    && (forall c: Call, d: Call, id: Id | Holds(f, c, id) && Holds(f, d, id) :: c == d)
  }

  ghost predicate Held(f: Factory, id: Id) {
    exists c: Call :: Holds(f, c, id)
  }

  /** No backend is forgotten: each is cached, closed or held by a call. */
  ghost predicate NoneForgotten(f: Factory) {
    && (forall id | 0 <= id < |f.built| :: Cached(f, id) || id in f.closed || Held(f, id))
    && (forall id | id in f.closed :: id < |f.built|)
  }

  /** What a call returned for a target is what the cache holds for it. */
  ghost predicate Agrees(f: Factory) {
    forall c | c in f.calls && f.calls[c].Returned? ::
      f.calls[c].target in f.cache && f.cache[f.calls[c].target] == f.calls[c].id
  }

  ghost predicate Accounted(f: Factory) {
    CacheIsOpen(f) && HeldOnce(f) && NoneForgotten(f) && Agrees(f)
  }

  lemma LoadKeeps(accepts: string -> bool, f: Factory, c: Call, target: string)
    requires Enabled(f, Load(c, target)) && Accounted(f)
    ensures Accounted(Next(accepts, f, Load(c, target)))
  {
    var g := Next(accepts, f, Load(c, target));
    assert forall d: Call, id: Id :: Holds(g, d, id) <==> Holds(f, d, id);
    forall id | 0 <= id < |g.built|
      ensures Cached(g, id) || id in g.closed || Held(g, id)
    {
      assert Cached(f, id) || id in f.closed || Held(f, id);
    }
  }

  lemma BuildKeeps(accepts: string -> bool, f: Factory, c: Call)
    requires Enabled(f, Build(c)) && Accounted(f)
    ensures Accounted(Next(accepts, f, Build(c)))
  {
    var g := Next(accepts, f, Build(c));
    var made := accepts(f.calls[c].target);
    assert forall d: Call, id: Id :: Holds(g, d, id) <==> Holds(f, d, id) || (made && d == c && id == |f.built|);
    forall id | 0 <= id < |f.built|
      ensures Cached(g, id) <==> Cached(f, id)
      ensures Cached(g, id) || id in g.closed || Held(g, id)
    {
      if Held(f, id) {
        var d :| Holds(f, d, id);
        assert Holds(g, d, id);
      }
    }
    if made {
      assert Holds(g, c, |f.built|);
    }
  }

  lemma StoreForgetsNone(accepts: string -> bool, f: Factory, c: Call)
    requires Enabled(f, LoadOrStore(c)) && Accounted(f)
    ensures NoneForgotten(Next(accepts, f, LoadOrStore(c)))
  {
    hide Agrees;
    var g := Next(accepts, f, LoadOrStore(c));
    var mine := f.calls[c].id;
    assert Holds(f, c, mine);
    forall id | 0 <= id < |g.built|
      ensures Cached(g, id) || id in g.closed || Held(g, id)
    {
      if Held(f, id) && id != mine {
        var d :| Holds(f, d, id);
        assert Holds(g, d, id);
      }
    }
  }

  lemma StoreKeeps(accepts: string -> bool, f: Factory, c: Call)
    requires Enabled(f, LoadOrStore(c)) && Accounted(f)
    ensures Accounted(Next(accepts, f, LoadOrStore(c)))
  {
    hide NoneForgotten;
    StoreForgetsNone(accepts, f, c);
    var g := Next(accepts, f, LoadOrStore(c));
    var mine := f.calls[c].id;
    assert Holds(f, c, mine);
    assert forall d: Call, id: Id :: Holds(g, d, id) <==> Holds(f, d, id) && d != c;
    assert forall id | Cached(g, id) :: Cached(f, id) || id == mine;
  }

  lemma StepKeeps(accepts: string -> bool, f: Factory, step: Step)
    requires Enabled(f, step) && Accounted(f)
    ensures Accounted(Next(accepts, f, step))
  {
    hide Accounted;
    match step
    case Load(c, target) => LoadKeeps(accepts, f, c, target);
    case Build(c) => BuildKeeps(accepts, f, c);
    case LoadOrStore(c) => StoreKeeps(accepts, f, c);
  }

  lemma StepKeepsCache(accepts: string -> bool, f: Factory, step: Step, target: string)
    requires Enabled(f, step) && target in f.cache
    ensures var g := Next(accepts, f, step); target in g.cache && g.cache[target] == f.cache[target]
  {
  }

  lemma {:induction false} RunKeeps(accepts: string -> bool, run: seq<Factory>, i: nat)
    requires Run(accepts, run) && i < |run|
    ensures Accounted(run[i])
  {
    hide Next, Enabled, Path;
    if i > 0 {
      RunKeeps(accepts, run, i - 1);
      var step := StepTo(Leads(accepts), run, i);
      StepKeeps(accepts, run[i - 1], step);
    }
  }

  lemma {:induction false} CacheIsKept(accepts: string -> bool, run: seq<Factory>, i: nat, j: nat, target: string)
    requires Run(accepts, run) && i <= j < |run| && target in run[i].cache
    ensures target in run[j].cache && run[j].cache[target] == run[i].cache[target]
    decreases j
  {
    hide Next, Enabled, Path;
    if i < j {
      CacheIsKept(accepts, run, i, j - 1, target);
      var step := StepTo(Leads(accepts), run, j);
      StepKeepsCache(accepts, run[j - 1], step, target);
    }
  }

  /**
   * Whenever two calls of Get for one target return, and however they interleave, they return the
   * same backend; it is open, and the cache keeps it.
   */
  lemma OneBackendPerTarget(accepts: string -> bool, run: seq<Factory>, i: nat, j: nat, c: Call, d: Call)
    requires Run(accepts, run) && i <= j < |run|
    requires c in run[i].calls && run[i].calls[c].Returned? && d in run[j].calls && run[j].calls[d].Returned?
    requires run[i].calls[c].target == run[j].calls[d].target
    ensures run[i].calls[c].id == run[j].calls[d].id
    ensures run[j].calls[d].id !in run[j].closed && Cached(run[j], run[j].calls[d].id)
  {
    hide Run, HeldOnce, NoneForgotten;
    RunKeeps(accepts, run, i);
    RunKeeps(accepts, run, j);
    CacheIsKept(accepts, run, i, j, run[i].calls[c].target);
  }

  /** Once no call is under way, every backend that lost a race is closed. */
  lemma LosersAreClosed(accepts: string -> bool, run: seq<Factory>, i: nat, id: Id)
    requires Run(accepts, run) && i < |run| && id < |run[i].built|
    requires forall c | c in run[i].calls :: run[i].calls[c].Returned? || run[i].calls[c].Failed?
    ensures id in run[i].closed <==> !Cached(run[i], id)
  {
    RunKeeps(accepts, run, i);
  }

  /**
   * A call of Get, left alone: it returns the cached backend if there is one. Otherwise, if the target is
   * accepted, it builds a backend and returns that, or the one that another call has cached meanwhile,
   * closing its own; if it is not, it fails and caches nothing.
   */
  lemma GetsExactly(accepts: string -> bool, f: Factory, c: Call, target: string)
    requires c !in f.calls
    ensures var g := Next(accepts, f, Load(c, target));
            && (target in f.cache ==> g.calls == f.calls[c := Returned(target, f.cache[target])])
            && g.cache == f.cache && g.built == f.built && g.closed == f.closed
    ensures target !in f.cache ==> (
              var g := Next(accepts, f, Load(c, target));
              && Enabled(g, Build(c))
              && var h := Next(accepts, g, Build(c));
              && h.cache == f.cache && h.closed == f.closed
              && (!accepts(target) ==> h.built == f.built && h.calls == f.calls[c := Failed])
              && (accepts(target) ==>
                    && h.built == f.built + [target] && h.calls == f.calls[c := Built(target, |f.built|)]
                    && Enabled(h, LoadOrStore(c))))
  {
  }

  /** The end of a call, whatever others did since it built its backend. */
  lemma StoresExactly(accepts: string -> bool, f: Factory, c: Call, target: string, id: Id)
    requires c in f.calls && f.calls[c] == Built(target, id)
    ensures var g := Next(accepts, f, LoadOrStore(c));
            && g.built == f.built
            && (target in f.cache ==>
                  && g.cache == f.cache && g.closed == f.closed + {id}
                  && g.calls == f.calls[c := Returned(target, f.cache[target])])
            && (target !in f.cache ==>
                  && g.cache == f.cache[target := id] && g.closed == f.closed
                  && g.calls == f.calls[c := Returned(target, id)])
  {
  }
}
