/** Runs of a state machine, given by which step leads from which state to which. */
module Paths {

  ghost predicate Linked<S, T(!new)>(leads: (S, T, S) -> bool, s: S, s': S) {
    exists step :: leads(s, step, s')
  }

  /** States of which each follows from the one before. */
  ghost predicate Path<S, T(!new)>(leads: (S, T, S) -> bool, path: seq<S>) {
    path != [] && forall i | 0 < i < |path| :: Linked(leads, path[i - 1], path[i])
  }

  lemma StepTo<S, T(!new)>(leads: (S, T, S) -> bool, path: seq<S>, i: nat) returns (step: T)
    requires Path(leads, path) && 0 < i < |path|
    ensures leads(path[i - 1], step, path[i])
  {
    assert Linked(leads, path[i - 1], path[i]);
    step :| leads(path[i - 1], step, path[i]);
  }

  lemma OneMore<S, T(!new)>(leads: (S, T, S) -> bool, path: seq<S>, step: T, s: S) returns (longer: seq<S>)
    requires Path(leads, path) && leads(path[|path| - 1], step, s)
    ensures Path(leads, longer) && longer == path + [s]
  {
    longer := path + [s];
    assert Linked(leads, path[|path| - 1], s);
    forall i | 0 < i < |longer|
      ensures Linked(leads, longer[i - 1], longer[i])
    {
      assert i < |path| ==> Linked(leads, path[i - 1], path[i]);
    }
  }
}
