/** The layered hostname: the configuration of the highest layer wins, the first one among equals. */
module HostnameMerge {

  datatype HostnameSpec = HostnameSpec(hostname: string, domainname: string, layer: int)

  const NO_HOSTNAME := HostnameSpec("", "", 0)

  // ---------------------------------------------------------------- what should win

  /** The spec at index i is of the highest layer, and the first one of that layer. */
  ghost predicate Wins(specs: seq<HostnameSpec>, i: nat) {
    && i < |specs|
    && (forall j | 0 <= j < |specs| :: specs[j].layer <= specs[i].layer)
    && (forall j | 0 <= j < i :: specs[j].layer < specs[i].layer)
  }

  lemma WinnerIsUnique(specs: seq<HostnameSpec>, i: nat, j: nat)
    requires Wins(specs, i) && Wins(specs, j)
    ensures i == j
  {
    assert specs[i].layer <= specs[j].layer && specs[j].layer <= specs[i].layer;
  }

  /** The first spec of the highest layer. */
  function Winner(specs: seq<HostnameSpec>): (i: nat)
    requires specs != []
    ensures Wins(specs, i)
    decreases |specs|
  {
    var n := |specs| - 1;
    if n == 0 then 0
    else
      var i := Winner(specs[..n]);
      assert forall j | 0 <= j < n :: specs[..n][j] == specs[j];
      if specs[n].layer > specs[i].layer then n else i
  }

  predicate AllNamed(specs: seq<HostnameSpec>) {
    forall s | s in specs :: s.hostname != ""
  }

  /** The spec at index i has a hostname, and no later spec is of a higher layer. */
  ghost predicate Survives(specs: seq<HostnameSpec>, i: nat) {
    i < |specs| && specs[i].hostname != "" && forall j | i < j < |specs| :: specs[j].layer <= specs[i].layer
  }

  ghost predicate SurvivesFirst(specs: seq<HostnameSpec>, i: nat) {
    i < |specs| && Survives(specs, i) && forall j: nat | j < i :: !Survives(specs, j)
  }

  /** The first spec with a hostname that no later spec outranks, or the last spec if there is none. */
  ghost predicate MergesTo(specs: seq<HostnameSpec>, final: HostnameSpec) {
    if exists i: nat :: Survives(specs, i) then exists i: nat :: SurvivesFirst(specs, i) && specs[i] == final
    else final == if specs == [] then NO_HOSTNAME else specs[|specs| - 1]
  }

  lemma MergesToOne(specs: seq<HostnameSpec>, a: HostnameSpec, b: HostnameSpec)
    requires MergesTo(specs, a) && MergesTo(specs, b)
    ensures a == b
  {
    if i: nat, j: nat :| SurvivesFirst(specs, i) && specs[i] == a && SurvivesFirst(specs, j) && specs[j] == b {
      assert i == j;
    }
  }

  // ---------------------------------------------------------------- the fold

  /** One turn of the fold. */
  function Turn(final: HostnameSpec, s: HostnameSpec): HostnameSpec {
    if final.hostname != "" && s.layer <= final.layer then final else s
  }

  /** What the fold over the layers comes to. */
  function Merged(specs: seq<HostnameSpec>): HostnameSpec {
    if specs == [] then NO_HOSTNAME else Turn(Merged(specs[..|specs| - 1]), specs[|specs| - 1])
  }

  lemma SurvivesMore(specs: seq<HostnameSpec>, s: HostnameSpec, i: nat)
    ensures Survives(specs + [s], i) <==>
              if i == |specs| then s.hostname != "" else Survives(specs, i) && s.layer <= specs[i].layer
  {
    var more := specs + [s];
    if i < |specs| {
      assert more[i] == specs[i] && more[|specs|] == s;
      assert forall j | i < j < |specs| :: more[j] == specs[j];
    }
  }

  lemma TurnStays(specs: seq<HostnameSpec>, s: HostnameSpec, i: nat)
    requires SurvivesFirst(specs, i) && s.layer <= specs[i].layer
    ensures SurvivesFirst(specs + [s], i)
  {
    hide Survives;
    SurvivesHere(specs, i);
    SurvivesMore(specs, s, i);
    forall j: nat | j < i
      ensures !Survives(specs + [s], j)
    {
      SurvivesMore(specs, s, j);
    }
  }

  lemma SurvivesHere(specs: seq<HostnameSpec>, i: nat)
    requires Survives(specs, i)
    ensures i < |specs| && specs[i].hostname != ""
  {
  }

  /** A spec of a higher layer than the first that survives outranks all that do. */
  lemma TurnReplaces(specs: seq<HostnameSpec>, s: HostnameSpec)
    requires forall i: nat | SurvivesFirst(specs, i) :: s.layer > specs[i].layer
    ensures forall i: nat | i < |specs| :: !Survives(specs + [s], i)
  {
    forall i: nat | i < |specs|
      ensures !Survives(specs + [s], i)
    {
      SurvivesMore(specs, s, i);
      if Survives(specs, i) {
        var first := FirstSurvivor(specs, i);
        assert specs[i].layer <= specs[first].layer;
      }
    }
  }

  lemma {:induction false} FirstSurvivor(specs: seq<HostnameSpec>, i: nat) returns (first: nat)
    requires Survives(specs, i)
    ensures SurvivesFirst(specs, first) && first <= i
  {
    if j: nat :| j < i && Survives(specs, j) {
      first := FirstSurvivor(specs, j);
    } else {
      first := i;
    }
  }

  lemma TurnMerges(specs: seq<HostnameSpec>, final: HostnameSpec, s: HostnameSpec)
    requires MergesTo(specs, final) && (final.hostname != "" <==> exists i: nat :: Survives(specs, i))
    ensures MergesTo(specs + [s], Turn(final, s))
  {
    hide Survives;
    var more := specs + [s];
    if final.hostname != "" && s.layer <= final.layer {
      var i: nat :| SurvivesFirst(specs, i) && specs[i] == final;
      SurvivesHere(specs, i);
      TurnStays(specs, s, i);
      assert more[i] == final;
    } else {
      TurnReplacesAll(specs, final, s);
      SurvivesMore(specs, s, |specs|);
      assert more[|specs|] == s;
      forall i: nat | Survives(more, i)
        ensures i == |specs|
      {
        SurvivesHere(more, i);
      }
      assert s.hostname != "" ==> SurvivesFirst(more, |specs|);
    }
  }

  lemma TurnReplacesAll(specs: seq<HostnameSpec>, final: HostnameSpec, s: HostnameSpec)
    requires MergesTo(specs, final) && (final.hostname != "" <==> exists i: nat :: Survives(specs, i))
    requires final.hostname == "" || s.layer > final.layer
    ensures forall i: nat | i < |specs| :: !Survives(specs + [s], i)
  {
    forall i: nat | SurvivesFirst(specs, i)
      ensures s.layer > specs[i].layer
    {
      assert Survives(specs, i);
    }
    TurnReplaces(specs, s);
  }

  /** A result of the closed form has a hostname if and only if some spec survives. */
  lemma NamedIfSurvives(specs: seq<HostnameSpec>, final: HostnameSpec)
    requires MergesTo(specs, final)
    ensures final.hostname != "" <==> exists i: nat :: Survives(specs, i)
  {
    if specs != [] && specs[|specs| - 1].hostname != "" {
      assert Survives(specs, |specs| - 1);
    }
  }

  /**
   * For every list: the result is the first spec with a hostname that no later spec outranks, or the
   * last spec if there is none, and it has a hostname if and only if there is one.
   */
  lemma {:induction false} MergedIsFirstSurvivor(specs: seq<HostnameSpec>)
    ensures forall final :: final == Merged(specs) <==> MergesTo(specs, final)
    ensures Merged(specs).hostname != "" <==> exists i: nat :: Survives(specs, i)
  {
    hide MergesTo, Survives, Turn;
    if specs == [] {
      NothingMerges();
    } else {
      var n := |specs| - 1;
      MergedIsFirstSurvivor(specs[..n]);
      assert specs == specs[..n] + [specs[n]];
      TurnMerges(specs[..n], Merged(specs[..n]), specs[n]);
    }
    NamedIfSurvives(specs, Merged(specs));
    forall final | MergesTo(specs, final)
      ensures final == Merged(specs)
    {
      MergesToOne(specs, final, Merged(specs));
    }
  }

  lemma NothingMerges()
    ensures MergesTo([], Merged([]))
  {
  }

  /**
   * The result is the first spec of the highest layer if and only if that has a hostname, or no spec
   * survives and the last one is the same. So it is if all have hostnames.
   */
  lemma MergedIsWinner(specs: seq<HostnameSpec>)
    requires specs != []
    ensures Merged(specs) == specs[Winner(specs)] <==>
              || specs[Winner(specs)].hostname != ""
              || (specs[|specs| - 1] == specs[Winner(specs)] && !exists i: nat :: Survives(specs, i))
    ensures AllNamed(specs) ==> Merged(specs) == specs[Winner(specs)]
  {
    hide Winner, Merged;
    var i := Winner(specs);
    assert specs[i] in specs;
    MergedIsFirstSurvivor(specs);
    if specs[i].hostname != "" {
      assert Survives(specs, i);
      assert SurvivesFirst(specs, i);
      FirstMerges(specs, i);
    }
    assert MergesTo(specs, Merged(specs));
  }

  lemma FirstMerges(specs: seq<HostnameSpec>, i: nat)
    requires SurvivesFirst(specs, i)
    ensures MergesTo(specs, specs[i])
  {
    assert Survives(specs, i);
  }

  /** If those without a hostname are of the lowest layer, a hostname comes out if and only if one goes in. */
  lemma {:induction false} NoneIsErased(specs: seq<HostnameSpec>)
    requires forall s, t | s in specs && t in specs && s.hostname == "" :: s.layer <= t.layer
    ensures Merged(specs).hostname != "" <==> exists s | s in specs :: s.hostname != ""
    ensures specs != [] ==> Merged(specs) in specs
  {
    if specs != [] {
      var front, s := specs[..|specs| - 1], specs[|specs| - 1];
      assert specs == front + [s];
      NoneIsErased(front);
    }
  }

  /** In general it can: a spec of a higher layer and without a hostname erases what comes before it. */
  lemma UnnamedErases(hostname: string)
    requires hostname != ""
    ensures Merged([HostnameSpec(hostname, "", 1), HostnameSpec("", "", 2)]).hostname == ""
  {
    var low, high := HostnameSpec(hostname, "", 1), HostnameSpec("", "", 2);
    assert [low, high][..1] == [low] && [low][..0] == [];
    assert Merged([]) == NO_HOSTNAME;
    assert Merged([low]) == low;
    assert Merged([low, high]) == high;
  }

  // ---------------------------------------------------------------- the controller

  /** The merged output: a resource with the final spec, absent, or being torn down. */
  datatype Output = Absent | Present(spec: HostnameSpec) | TearingDown(spec: HostnameSpec)

  class HostnameMergeController {
    var output: Output

    constructor ()
      ensures output == Absent
    {
      output := Absent;
    }

    method Merge(specs: seq<HostnameSpec>) returns (final: HostnameSpec)
      ensures final == Merged(specs) && MergesTo(specs, final)
      ensures specs != [] && AllNamed(specs) ==> Wins(specs, Winner(specs)) && final == specs[Winner(specs)]
    {
      hide MergesTo, AllNamed, Winner;
      final := NO_HOSTNAME;
      for i := 0 to |specs|
        invariant final == Merged(specs[..i])
      {
        assert specs[..i + 1][..i] == specs[..i];
        if final.hostname != "" && specs[i].layer <= final.layer {
          continue;
        }
        final := specs[i];
      }
      assert specs[..|specs|] == specs;
      MergedIsFirstSurvivor(specs);
      if specs != [] {
        MergedIsWinner(specs);
      }
    }

    /**
     * One reconcile. The output gets the final spec if that has a hostname; it is torn down if it has
     * none, or if it is being torn down already, and destroyed once it has no finalizers.
     */
    method Reconcile(specs: seq<HostnameSpec>, finalizers: bool) returns (again: bool)
      modifies this
      ensures again <==> Merged(specs).hostname != "" && old(output).TearingDown?
      ensures Merged(specs).hostname != "" && !old(output).TearingDown? ==> output == Present(Merged(specs))
      ensures Merged(specs).hostname == "" || old(output).TearingDown? ==>
                output == (if old(output).Absent? || !finalizers then Absent else TearingDown(old(output).spec))
    {
      hide Merged;
      var final := Merge(specs);
      again := false;
      if final.hostname != "" {
        if output.TearingDown? {
          final := final.(hostname := "");
          again := true;
        } else {
          output := Present(final);
        }
      }
      if final.hostname == "" {
        if !output.Absent? {
          output := TearingDown(output.spec);
          if !finalizers {
            output := Absent;
          }
        }
      }
    }
  }
}
