/** The cluster members a machine knows: one for every affiliate with a node name, and no others of its own. */
module Members {

  type Id = string

  datatype Affiliate = Affiliate(nodename: Id, spec: string)

  /** A stored member: who owns it, and what it says. */
  datatype Member = Member(owner: string, spec: string)

  const NAME := "cluster.MemberController"

  /** The affiliate at index i is the last one with its node name. */
  ghost predicate LastOf(affiliates: seq<Affiliate>, i: nat) {
    && i < |affiliates| && affiliates[i].nodename != ""
    && forall j | i < j < |affiliates| :: affiliates[j].nodename != affiliates[i].nodename
  }

  ghost predicate Wanted(affiliates: seq<Affiliate>, id: Id) {
    id != "" && exists i | 0 <= i < |affiliates| :: affiliates[i].nodename == id
  }

  /** No affiliate has the name of a member that somebody else owns. */
  ghost predicate NoneForeign(members: map<Id, Member>, affiliates: seq<Affiliate>) {
    forall id | id in members && Wanted(affiliates, id) :: members[id].owner == NAME
  }

  /** Exactly the wanted members are owned, each as its last affiliate says; those of others are untouched. */
  ghost predicate Reconciled(before: map<Id, Member>, affiliates: seq<Affiliate>, after: map<Id, Member>) {
    && (forall id :: id in after && after[id].owner == NAME <==> Wanted(affiliates, id))
    && (forall i: nat | LastOf(affiliates, i) ::
          affiliates[i].nodename in after && after[affiliates[i].nodename].spec == affiliates[i].spec)
    && (forall id :: id in after && after[id].owner != NAME <==> id in before && before[id].owner != NAME)
    && (forall id | id in before && before[id].owner != NAME :: after[id] == before[id])
  }

  lemma {:induction false} WantedHasLast(affiliates: seq<Affiliate>, id: Id) returns (i: nat)
    requires Wanted(affiliates, id)
    ensures LastOf(affiliates, i) && affiliates[i].nodename == id
    decreases |affiliates|
  {
    var n := |affiliates| - 1;
    if affiliates[n].nodename == id {
      i := n;
    } else {
      i := WantedHasLast(affiliates[..n], id);
      assert forall j | 0 <= j < n :: affiliates[..n][j] == affiliates[j];
    }
  }

  /** The members after a reconcile are determined by those before it and the affiliates. */
  lemma ReconciledIsDetermined(
      before: map<Id, Member>, affiliates: seq<Affiliate>, a: map<Id, Member>, b: map<Id, Member>)
    requires Reconciled(before, affiliates, a) && Reconciled(before, affiliates, b)
    ensures a == b
  {
    forall id
      ensures id in a <==> id in b
      ensures id in a ==> a[id] == b[id]
    {
      if Wanted(affiliates, id) {
        var i := WantedHasLast(affiliates, id);
      }
    }
  }

  /** Reconciling again changes nothing. */
  lemma ReconcileIsIdempotent(
      before: map<Id, Member>, affiliates: seq<Affiliate>, once: map<Id, Member>, twice: map<Id, Member>)
    requires Reconciled(before, affiliates, once) && Reconciled(once, affiliates, twice)
    ensures twice == once
  {
    assert Reconciled(once, affiliates, once);
    ReconciledIsDetermined(once, affiliates, once, twice);
  }

  class MemberController {
    var members: map<Id, Member>

    constructor (members: map<Id, Member>)
      ensures this.members == members
    {
      this.members := members;
    }

    /** Writes the wanted members, or fails at the first name that is taken by somebody else's member. */
    method WriteWanted(affiliates: seq<Affiliate>) returns (err: bool, touched: set<Id>)
      modifies this
      ensures err <==> !NoneForeign(old(members), affiliates)
      ensures !err ==> Written(old(members), affiliates, members)
      ensures !err ==> forall id :: id in touched <==> Wanted(affiliates, id)
      ensures forall id | id in old(members) && old(members)[id].owner != NAME ::
                id in members && members[id] == old(members)[id]
    {
      hide Written, Wanted;
      ghost var before := members;
      touched := {};
      NothingWritten(before);
      for i := 0 to |affiliates|
        invariant forall id :: id in touched <==> Wanted(affiliates[..i], id)
        invariant NoneForeign(before, affiliates[..i])
        invariant Written(before, affiliates[..i], members)
        invariant forall id | id in before && before[id].owner != NAME :: id in members && members[id] == before[id]
      {
        var a := affiliates[i];
        assert affiliates[..i + 1] == affiliates[..i] + [a];
        WrittenMore(before, affiliates[..i], members, a);
        WantedLater(affiliates, i);
        if a.nodename == "" {
          continue;
        }
        if a.nodename in members && members[a.nodename].owner != NAME {
          return true, touched;
        }
        UnownedIsKept(before, affiliates[..i], members, a.nodename);
        members := members[a.nodename := Member(NAME, a.spec)];
        touched := touched + {a.nodename};
      }
      assert affiliates[..|affiliates|] == affiliates;
      err := false;
    }

    /** Destroys the owned members that were not touched. */
    method CleanUp(touched: set<Id>)
      modifies this
      ensures forall id :: id in members <==> id in old(members) && (old(members)[id].owner != NAME || id in touched)
      ensures forall id | id in members :: members[id] == old(members)[id]
    {
      var list := members.Keys;
      while list != {}
        invariant list <= members.Keys
        invariant forall id | id in members :: id in old(members) && members[id] == old(members)[id]
        invariant forall id | id in old(members) && id !in list ::
            id in members <==> old(members)[id].owner != NAME || id in touched
        decreases |list|
      {
        var id :| id in list;
        list := list - {id};
        if members[id].owner != NAME {
          continue;
        }
        if id !in touched {
          members := members - {id};
        }
      }
    }

    /**
     * One reconcile: writes the wanted members, then destroys the owned ones it has not touched. It
     * fails if the name of an affiliate is taken by a member that somebody else owns.
     */
    method Reconcile(affiliates: seq<Affiliate>) returns (err: bool)
      modifies this
      ensures err <==> !NoneForeign(old(members), affiliates)
      ensures !err ==> Reconciled(old(members), affiliates, members)
      ensures forall id | id in old(members) && old(members)[id].owner != NAME ::
                id in members && members[id] == old(members)[id]
    {
      hide Reconciled, Written, Wanted, NoneForeign;
      ghost var before := members;
      var touched: set<Id>;
      err, touched := WriteWanted(affiliates);
      if err {
        return;
      }
      ghost var written := members;
      CleanUp(touched);
      CleanedUp(before, affiliates, written, members);
    }
  }

  lemma NothingWritten(before: map<Id, Member>)
    ensures Written(before, [], before) && forall id :: !Wanted([], id)
  {
  }

  lemma WantedLater(affiliates: seq<Affiliate>, i: nat)
    requires i < |affiliates|
    ensures affiliates[i].nodename != "" ==> Wanted(affiliates, affiliates[i].nodename)
  {
  }

  /** A name is foreign after some writes only if it was so before. */
  lemma UnownedIsKept(before: map<Id, Member>, affiliates: seq<Affiliate>, now: map<Id, Member>, id: Id)
    requires Written(before, affiliates, now) && NoneForeign(before, affiliates)
    requires !(id in now && now[id].owner != NAME)
    ensures !(id in before && before[id].owner != NAME)
  {
  }

  /** The wanted members of these affiliates are written; nothing is cleaned up yet. */
  ghost predicate Written(before: map<Id, Member>, affiliates: seq<Affiliate>, now: map<Id, Member>) {
    && (forall id | Wanted(affiliates, id) :: id in now && now[id].owner == NAME)
    && (forall i: nat | LastOf(affiliates, i) ::
          affiliates[i].nodename in now && now[affiliates[i].nodename].spec == affiliates[i].spec)
    && (forall id | !Wanted(affiliates, id) :: (id in now <==> id in before) && (id in now ==> now[id] == before[id]))
  }

  lemma WantedMore(affiliates: seq<Affiliate>, a: Affiliate, id: Id)
    ensures Wanted(affiliates + [a], id) <==> Wanted(affiliates, id) || (id == a.nodename && id != "")
  {
    var more := affiliates + [a];
    assert more[|affiliates|] == a;
    if Wanted(affiliates, id) {
      var i :| 0 <= i < |affiliates| && affiliates[i].nodename == id;
      assert more[i].nodename == id;
    }
  }

  lemma LastOfMore(affiliates: seq<Affiliate>, a: Affiliate, i: nat)
    requires LastOf(affiliates + [a], i)
    ensures if i == |affiliates| then a.nodename != ""
            else LastOf(affiliates, i) && (a.nodename != "" ==> affiliates[i].nodename != a.nodename)
  {
    var more := affiliates + [a];
    assert more[|affiliates|] == a;
    assert forall j | 0 <= j < |affiliates| :: more[j] == affiliates[j];
  }

  lemma WrittenMore(before: map<Id, Member>, affiliates: seq<Affiliate>, now: map<Id, Member>, a: Affiliate)
    requires Written(before, affiliates, now)
    ensures forall id :: Wanted(affiliates + [a], id) <==> Wanted(affiliates, id) || (id == a.nodename && id != "")
    ensures a.nodename == "" ==> Written(before, affiliates + [a], now)
    ensures a.nodename != "" ==> Written(before, affiliates + [a], now[a.nodename := Member(NAME, a.spec)])
    ensures a.nodename != "" && a.nodename in now && now[a.nodename].owner != NAME ==>
              a.nodename in before && before[a.nodename].owner != NAME
  {
    hide LastOf, Wanted;
    var more := affiliates + [a];
    forall id
      ensures Wanted(more, id) <==> Wanted(affiliates, id) || (id == a.nodename && id != "")
    {
      WantedMore(affiliates, a, id);
    }
    forall i: nat | LastOf(more, i)
      ensures i < |more|
      ensures if i == |affiliates| then a.nodename != ""
              else LastOf(affiliates, i) && (a.nodename != "" ==> affiliates[i].nodename != a.nodename)
    {
      LastOfInside(more, i);
      LastOfMore(affiliates, a, i);
    }
  }

  lemma LastOfInside(affiliates: seq<Affiliate>, i: nat)
    requires LastOf(affiliates, i)
    ensures i < |affiliates|
  {
  }

  lemma CleanedUp(before: map<Id, Member>, affiliates: seq<Affiliate>, written: map<Id, Member>, now: map<Id, Member>)
    requires Written(before, affiliates, written) && NoneForeign(before, affiliates)
    requires now.Keys <= written.Keys && forall id | id in now :: now[id] == written[id]
    requires forall id | id in written && id !in now :: written[id].owner == NAME && !Wanted(affiliates, id)
    requires forall id | id in now :: now[id].owner != NAME || Wanted(affiliates, id)
    ensures Reconciled(before, affiliates, now)
  {
    forall i: nat | LastOf(affiliates, i)
      ensures Wanted(affiliates, affiliates[i].nodename)
    {
    }
  }
}
