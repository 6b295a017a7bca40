/**
 * The WireGuard configuration patch: Encode merges the sorted peers of a device with the sorted
 * peers that are wanted, and the patch it emits turns one configuration into the other.
 */
module Wireguard {
  import opened Results
  import K = KeyStrings

  type Key = K.Key
  type Address = nat

  datatype Prefix = Prefix(address: nat, bits: nat)

  datatype Peer = Peer(
    publicKey: string, presharedKey: string, endpoint: string, keepalive: int, allowedIPs: seq<Prefix>)

  datatype Spec = Spec(privateKey: string, listenPort: int, firewallMark: int, peers: seq<Peer>)

  /** What the patch says of one peer. An absent endpoint or preshared key leaves the device's as it is. */
  datatype PeerConfig = PeerConfig(
    publicKey: Key, remove: bool, endpoint: Option<Address>, presharedKey: Option<Key>,
    keepalive: Option<int>, replaceAllowedIPs: bool, allowedIPs: seq<Prefix>)

  datatype Config = Config(
    privateKey: Option<Key>, listenPort: Option<int>, firewallMark: Option<int>, peers: seq<PeerConfig>)

  /** The libraries: key parsing and printing, address resolution, and Equal of two peers. */
  datatype Env = Env(
    parseKey: string -> Option<Key>, keyString: Key -> string,
    resolve: string -> Option<Address>, addressString: Address -> string, equal: (Peer, Peer) -> bool)

  // ---------------------------------------------------------------- the order of strings

  /** Go's < on strings. */
  predicate Less(a: string, b: string) {
    b != [] && (a == [] || a[0] < b[0] || (a[0] == b[0] && Less(a[1..], b[1..])))
  }

  lemma {:induction false} LessIrreflexive(a: string)
    ensures !Less(a, a)
  {
    if a != [] {
      LessIrreflexive(a[1..]);
    }
  }

  lemma {:induction false} LessTotal(a: string, b: string)
    ensures Less(a, b) || Less(b, a) || a == b
    ensures !(Less(a, b) && Less(b, a)) && !Less(a, a)
    decreases |a| + |b|
  {
    LessIrreflexive(a);
    if a != [] && b != [] {
      LessTotal(a[1..], b[1..]);
      assert a == [a[0]] + a[1..] && b == [b[0]] + b[1..];
    }
  }

  lemma {:induction false} LessTransitive(a: string, b: string, c: string)
    requires Less(a, b) && Less(b, c)
    ensures Less(a, c)
  {
    if a != [] && a[0] == b[0] == c[0] {
      LessTransitive(a[1..], b[1..], c[1..]);
    }
  }

  /** One string is before another if it is its beginning, or smaller at the first place where they differ. */
  lemma {:induction false} LessExactly(a: string, b: string)
    ensures Less(a, b) <==> exists n: nat :: Before(a, b, n)
  {
    if a != [] && b != [] && a[0] == b[0] {
      LessExactly(a[1..], b[1..]);
      if n: nat :| Before(a[1..], b[1..], n) {
        assert a[..n + 1] == [a[0]] + a[1..][..n] && b[..n + 1] == [b[0]] + b[1..][..n];
        assert Before(a, b, n + 1);
      }
      if n: nat :| Before(a, b, n) {
        assert n > 0;
        assert a[1..][..n - 1] == a[..n][1..] && b[1..][..n - 1] == b[..n][1..];
        assert Before(a[1..], b[1..], n - 1);
      }
    } else {
      assert Less(a, b) ==> Before(a, b, 0);
      forall n: nat | Before(a, b, n)
        ensures n == 0
      {
        BeforeFirst(a, b, n);
      }
    }
  }

  lemma BeforeFirst(a: string, b: string, n: nat)
    requires Before(a, b, n)
    ensures n > 0 ==> a != [] && b != [] && a[0] == b[0]
  {
    assert n > 0 ==> a[..n][0] == a[0] && b[..n][0] == b[0];
  }

  predicate Before(a: string, b: string, n: nat) {
    n <= |a| && n < |b| && a[..n] == b[..n] && (n == |a| || a[n] < b[n])
  }

  /** The peers are in strictly ascending order of their public keys. */
  predicate Sorted(peers: seq<Peer>) {
    forall i, j | 0 <= i < j < |peers| :: Less(peers[i].publicKey, peers[j].publicKey)
  }

  // ---------------------------------------------------------------- the difference

  datatype Change = Add(peer: Peer) | Delete(peer: Peer)

  /** The merge of two lists of peers from the given cursors on, as the changes it finds. */
  function Changes(env: Env, existing: seq<Peer>, spec: seq<Peer>, l: nat, r: nat): seq<Change>
    requires l <= |existing| && r <= |spec|
    decreases |existing| - l + |spec| - r
  {
    if l == |existing| && r == |spec| then []
    else if l == |existing| || (r < |spec| && Less(spec[r].publicKey, existing[l].publicKey)) then
      [Add(spec[r])] + Changes(env, existing, spec, l, r + 1)
    else if r == |spec| || Less(existing[l].publicKey, spec[r].publicKey) then
      [Delete(existing[l])] + Changes(env, existing, spec, l + 1, r)
    else
      (if env.equal(existing[l], spec[r]) then [] else [Add(spec[r])]) + Changes(env, existing, spec, l + 1, r + 1)
  }

  /** Some peer from index i on has this key. */
  predicate HasKey(peers: seq<Peer>, i: nat, key: string) {
    exists j | i <= j < |peers| :: peers[j].publicKey == key
  }

  /** Some peer from index i on has the key of p and is Equal to p. */
  predicate HasEqual(env: Env, peers: seq<Peer>, i: nat, p: Peer) {
    exists j | i <= j < |peers| :: peers[j].publicKey == p.publicKey && env.equal(peers[j], p)
  }

  predicate Has(peers: seq<Peer>, i: nat, p: Peer) {
    exists j | i <= j < |peers| :: peers[j] == p
  }

  predicate Ascending(changes: seq<Change>) {
    forall i, j | 0 <= i < j < |changes| :: Less(changes[i].peer.publicKey, changes[j].peer.publicKey)
  }

  /**
   * The changes that are due: a peer is added exactly if it is wanted and not there in an equal form,
   * and deleted exactly if it is there and its key is not wanted; each key once, in ascending order.
   */
  ghost predicate IsDifference(env: Env, existing: seq<Peer>, spec: seq<Peer>, changes: seq<Change>) {
    && Ascending(changes)
    && (forall p :: Add(p) in changes <==> Has(spec, 0, p) && !HasEqual(env, existing, 0, p))
    && (forall p :: Delete(p) in changes <==> Has(existing, 0, p) && !HasKey(spec, 0, p.publicKey))
  }

  /** In a sorted list, every later peer has a larger key. */
  lemma LaterIsLarger(peers: seq<Peer>, i: nat, key: string)
    requires Sorted(peers) && i < |peers|
    ensures Less(key, peers[i].publicKey) ==> forall j | i <= j < |peers| :: Less(key, peers[j].publicKey)
    ensures forall j | i < j < |peers| :: Less(peers[i].publicKey, peers[j].publicKey)
  {
    forall j | i < j < |peers| && Less(key, peers[i].publicKey)
      ensures Less(key, peers[j].publicKey)
    {
      LessTransitive(key, peers[i].publicKey, peers[j].publicKey);
    }
  }

  /** Nothing from index i on has a key if the peer at i is already larger. */
  lemma NoSmallerKey(env: Env, peers: seq<Peer>, i: nat, p: Peer)
    requires Sorted(peers) && i <= |peers|
    requires i < |peers| ==> Less(p.publicKey, peers[i].publicKey)
    ensures !HasKey(peers, i, p.publicKey) && !HasEqual(env, peers, i, p) && !Has(peers, i, p)
  {
    if i < |peers| {
      LaterIsLarger(peers, i, p.publicKey);
    }
    forall j | i <= j < |peers|
      ensures peers[j].publicKey != p.publicKey
    {
      LessTotal(p.publicKey, peers[j].publicKey);
    }
  }

  /** The first of several peers, or one of the later ones. */
  lemma HasFirst(env: Env, peers: seq<Peer>, i: nat, p: Peer)
    requires i < |peers|
    ensures Has(peers, i, p) <==> peers[i] == p || Has(peers, i + 1, p)
    ensures HasKey(peers, i, p.publicKey) <==> peers[i].publicKey == p.publicKey || HasKey(peers, i + 1, p.publicKey)
    ensures HasEqual(env, peers, i, p) <==>
              (peers[i].publicKey == p.publicKey && env.equal(peers[i], p)) || HasEqual(env, peers, i + 1, p)
  {
  }

  lemma LargerLater(env: Env, peers: seq<Peer>, i: nat)
    requires Sorted(peers) && i < |peers|
    ensures !HasKey(peers, i + 1, peers[i].publicKey)
  {
    NoSmallerKey(env, peers, i + 1, peers[i]);
  }

  /** Keys that a list lacks make no peer equal. */
  lemma NoKeyNoPeer(env: Env, peers: seq<Peer>, i: nat, p: Peer)
    requires !HasKey(peers, i, p.publicKey)
    ensures !Has(peers, i, p) && !HasEqual(env, peers, i, p)
  {
  }

  /** What one turn of the merge adds to the changes. The third case is exactly that of equal keys. */
  lemma ChangesTurn(env: Env, existing: seq<Peer>, spec: seq<Peer>, l: nat, r: nat)
    requires l <= |existing| && r <= |spec|
    ensures l == |existing| && r == |spec| ==> Changes(env, existing, spec, l, r) == []
    ensures (r < |spec| && (l == |existing| || Less(spec[r].publicKey, existing[l].publicKey))) ==>
              Changes(env, existing, spec, l, r) == [Add(spec[r])] + Changes(env, existing, spec, l, r + 1)
    ensures (l < |existing| && (r == |spec| || Less(existing[l].publicKey, spec[r].publicKey))) ==>
              Changes(env, existing, spec, l, r) == [Delete(existing[l])] + Changes(env, existing, spec, l + 1, r)
    ensures (l < |existing| && r < |spec| && existing[l].publicKey == spec[r].publicKey) ==>
              Changes(env, existing, spec, l, r) ==
                (if env.equal(existing[l], spec[r]) then [] else [Add(spec[r])]) +
                    Changes(env, existing, spec, l + 1, r + 1)
    ensures (l < |existing| && r < |spec| && existing[l].publicKey == spec[r].publicKey &&
              env.equal(existing[l], spec[r])) ==>
              Changes(env, existing, spec, l, r) == Changes(env, existing, spec, l + 1, r + 1)
    ensures l < |existing| && r < |spec| ==>
              (Less(spec[r].publicKey, existing[l].publicKey) || Less(existing[l].publicKey, spec[r].publicKey) ||
               existing[l].publicKey == spec[r].publicKey)
  {
    hide Less;
    if l < |existing| && r < |spec| {
      LessTotal(existing[l].publicKey, spec[r].publicKey);
      assert [] + Changes(env, existing, spec, l + 1, r + 1) == Changes(env, existing, spec, l + 1, r + 1);
    }
  }

  lemma InFirst(c: Change, rest: seq<Change>, d: Change)
    ensures d in [c] + rest <==> d == c || d in rest
  {
  }

  /** A peer is added exactly if it is due, from any pair of cursors on. */
  lemma {:induction false} AddDue(env: Env, existing: seq<Peer>, spec: seq<Peer>, l: nat, r: nat, p: Peer)
    requires Sorted(existing) && Sorted(spec) && l <= |existing| && r <= |spec|
    ensures Add(p) in Changes(env, existing, spec, l, r) <==> Has(spec, r, p) && !HasEqual(env, existing, l, p)
    decreases |existing| - l + |spec| - r
  {
    hide Changes, Sorted, Has, HasKey, HasEqual, Less;
    ChangesTurn(env, existing, spec, l, r);
    if l == |existing| && r == |spec| {
      NothingLeft(spec, p);
    } else if l == |existing| || (r < |spec| && Less(spec[r].publicKey, existing[l].publicKey)) {
      AddDue(env, existing, spec, l, r + 1, p);
      InFirst(Add(spec[r]), Changes(env, existing, spec, l, r + 1), Add(p));
      HasFirst(env, spec, r, p);
      NoSmallerKey(env, existing, l, spec[r]);
    } else if r == |spec| || Less(existing[l].publicKey, spec[r].publicKey) {
      AddDue(env, existing, spec, l + 1, r, p);
      InFirst(Delete(existing[l]), Changes(env, existing, spec, l + 1, r), Add(p));
      HasFirst(env, existing, l, p);
      if p.publicKey == existing[l].publicKey {
        NoSmallerKey(env, spec, r, p);
      }
    } else {
      AddDue(env, existing, spec, l + 1, r + 1, p);
      InFirst(Add(spec[r]), Changes(env, existing, spec, l + 1, r + 1), Add(p));
      HasFirst(env, existing, l, p);
      HasFirst(env, spec, r, p);
      if p.publicKey == spec[r].publicKey {
        LargerLater(env, spec, r);
        NoKeyNoPeer(env, spec, r + 1, p);
        LargerLater(env, existing, l);
        NoKeyNoPeer(env, existing, l + 1, p);
      }
    }
  }

  lemma NothingLeft(peers: seq<Peer>, p: Peer)
    ensures !Has(peers, |peers|, p)
  {
  }

  /** A peer is deleted exactly if it is due, from any pair of cursors on. */
  lemma {:induction false} DeleteDue(env: Env, existing: seq<Peer>, spec: seq<Peer>, l: nat, r: nat, p: Peer)
    requires Sorted(existing) && Sorted(spec) && l <= |existing| && r <= |spec|
    ensures Delete(p) in Changes(env, existing, spec, l, r) <==> Has(existing, l, p) && !HasKey(spec, r, p.publicKey)
    decreases |existing| - l + |spec| - r
  {
    hide Changes, Sorted, Has, HasKey, HasEqual, Less;
    ChangesTurn(env, existing, spec, l, r);
    if l == |existing| && r == |spec| {
      NothingLeft(existing, p);
    } else if l == |existing| || (r < |spec| && Less(spec[r].publicKey, existing[l].publicKey)) {
      DeleteDue(env, existing, spec, l, r + 1, p);
      InFirst(Add(spec[r]), Changes(env, existing, spec, l, r + 1), Delete(p));
      HasFirst(env, spec, r, p);
      if p.publicKey == spec[r].publicKey {
        NoSmallerKey(env, existing, l, p);
      }
    } else if r == |spec| || Less(existing[l].publicKey, spec[r].publicKey) {
      DeleteDue(env, existing, spec, l + 1, r, p);
      InFirst(Delete(existing[l]), Changes(env, existing, spec, l + 1, r), Delete(p));
      HasFirst(env, existing, l, p);
      if p == existing[l] {
        NoSmallerKey(env, spec, r, p);
      }
    } else {
      DeleteDue(env, existing, spec, l + 1, r + 1, p);
      InFirst(Add(spec[r]), Changes(env, existing, spec, l + 1, r + 1), Delete(p));
      HasFirst(env, existing, l, p);
      HasFirst(env, spec, r, p);
      if p.publicKey == spec[r].publicKey {
        LargerLater(env, existing, l);
        NoKeyNoPeer(env, existing, l + 1, p);
      }
    }
  }

  /** All changes from a pair of cursors on have keys above key, if all peers have. */
  lemma ChangesAbove(env: Env, existing: seq<Peer>, spec: seq<Peer>, l: nat, r: nat, key: string)
    requires Sorted(existing) && Sorted(spec) && l <= |existing| && r <= |spec|
    requires forall i | l <= i < |existing| :: Less(key, existing[i].publicKey)
    requires forall j | r <= j < |spec| :: Less(key, spec[j].publicKey)
    ensures forall c | c in Changes(env, existing, spec, l, r) :: Less(key, c.peer.publicKey)
  {
    hide Changes, Less, Sorted;
    forall c | c in Changes(env, existing, spec, l, r)
      ensures Less(key, c.peer.publicKey)
    {
      AddDue(env, existing, spec, l, r, c.peer);
      DeleteDue(env, existing, spec, l, r, c.peer);
    }
  }

  lemma AscendingMore(c: Change, changes: seq<Change>)
    requires Ascending(changes) && forall d | d in changes :: Less(c.peer.publicKey, d.peer.publicKey)
    ensures Ascending([c] + changes)
  {
  }

  lemma {:induction false} ChangesAscend(env: Env, existing: seq<Peer>, spec: seq<Peer>, l: nat, r: nat)
    requires Sorted(existing) && Sorted(spec) && l <= |existing| && r <= |spec|
    ensures Ascending(Changes(env, existing, spec, l, r))
    decreases |existing| - l + |spec| - r
  {
    hide Sorted, Ascending, Less;
    if l == |existing| && r == |spec| {
      NoChanges();
    } else if l == |existing| || (r < |spec| && Less(spec[r].publicKey, existing[l].publicKey)) {
      ChangesAscend(env, existing, spec, l, r + 1);
      LaterIsLarger(spec, r, spec[r].publicKey);
      if l < |existing| {
        LaterIsLarger(existing, l, spec[r].publicKey);
      }
      ChangesAbove(env, existing, spec, l, r + 1, spec[r].publicKey);
      AscendingMore(Add(spec[r]), Changes(env, existing, spec, l, r + 1));
    } else if r == |spec| || Less(existing[l].publicKey, spec[r].publicKey) {
      ChangesAscend(env, existing, spec, l + 1, r);
      LaterIsLarger(existing, l, existing[l].publicKey);
      if r < |spec| {
        LaterIsLarger(spec, r, existing[l].publicKey);
      }
      ChangesAbove(env, existing, spec, l + 1, r, existing[l].publicKey);
      AscendingMore(Delete(existing[l]), Changes(env, existing, spec, l + 1, r));
    } else {
      LessTotal(existing[l].publicKey, spec[r].publicKey);
      ChangesAscend(env, existing, spec, l + 1, r + 1);
      LaterIsLarger(existing, l, existing[l].publicKey);
      LaterIsLarger(spec, r, spec[r].publicKey);
      ChangesAbove(env, existing, spec, l + 1, r + 1, spec[r].publicKey);
      var rest := Changes(env, existing, spec, l + 1, r + 1);
      AscendingMore(Add(spec[r]), rest);
      assert [] + rest == rest;
    }
  }

  lemma NoChanges()
    ensures Ascending([])
  {
  }

  /** The merge of two sorted lists finds exactly the changes that are due, once each and in order. */
  lemma ChangesAreDifference(env: Env, existing: seq<Peer>, spec: seq<Peer>)
    requires Sorted(existing) && Sorted(spec)
    ensures IsDifference(env, existing, spec, Changes(env, existing, spec, 0, 0))
  {
    hide Changes, Ascending, Has, HasKey, HasEqual, Sorted;
    ChangesAscend(env, existing, spec, 0, 0);
    forall p
      ensures Add(p) in Changes(env, existing, spec, 0, 0) <==> Has(spec, 0, p) && !HasEqual(env, existing, 0, p)
    {
      AddDue(env, existing, spec, 0, 0, p);
    }
    forall p
      ensures Delete(p) in Changes(env, existing, spec, 0, 0) <==> Has(existing, 0, p) && !HasKey(spec, 0, p.publicKey)
    {
      DeleteDue(env, existing, spec, 0, 0, p);
    }
  }

  /** There is nothing to change exactly if each wanted peer is there and each peer's key is wanted. */
  lemma NothingToChange(env: Env, existing: seq<Peer>, spec: seq<Peer>)
    requires Sorted(existing) && Sorted(spec)
    ensures Changes(env, existing, spec, 0, 0) == [] <==>
              && (forall p | p in spec :: HasEqual(env, existing, 0, p))
              && (forall e | e in existing :: HasKey(spec, 0, e.publicKey))
  {
    hide Changes, Ascending, HasKey, HasEqual, Sorted;
    ChangesAreDifference(env, existing, spec);
    var changes := Changes(env, existing, spec, 0, 0);
    if changes != [] {
      assert changes[0] in changes;
      assert changes[0] == Add(changes[0].peer) || changes[0] == Delete(changes[0].peer);
    } else {
      assert forall p :: Add(p) !in changes && Delete(p) !in changes;
    }
  }

  /** A configuration needs no change of peers to become itself, if every peer is equal to itself. */
  lemma SelfNeedsNoChange(env: Env, peers: seq<Peer>)
    requires Sorted(peers) && forall p | p in peers :: env.equal(p, p)
    ensures Changes(env, peers, peers, 0, 0) == []
  {
    NothingToChange(env, peers, peers);
  }

  // ---------------------------------------------------------------- the patch

  /** A peer cannot be added if one of its keys does not parse, or its endpoint does not resolve. */
  predicate CannotAdd(env: Env, p: Peer) {
    || env.parseKey(p.publicKey) == None
    || (p.presharedKey != "" && env.parseKey(p.presharedKey) == None)
    || (p.endpoint != "" && env.resolve(p.endpoint) == None)
  }

  /** The entry sends all of this peer, but for an empty endpoint or preshared key. */
  predicate Sends(env: Env, e: PeerConfig, p: Peer) {
    && env.parseKey(p.publicKey) == Some(e.publicKey) && !e.remove
    && e.replaceAllowedIPs && e.allowedIPs == p.allowedIPs && e.keepalive == Some(p.keepalive)
    && (if p.endpoint == "" then e.endpoint == None else e.endpoint.Some? && e.endpoint == env.resolve(p.endpoint))
    && (if p.presharedKey == "" then e.presharedKey == None
        else e.presharedKey.Some? && e.presharedKey == env.parseKey(p.presharedKey))
  }

  /** The entry removes this peer, and says no more of it. */
  predicate Removes(env: Env, e: PeerConfig, p: Peer) {
    && env.parseKey(p.publicKey) == Some(e.publicKey) && e.remove
    && e.endpoint == None && e.presharedKey == None && e.keepalive == None
    && !e.replaceAllowedIPs && e.allowedIPs == []
  }

  function AddPeer(env: Env, p: Peer): (r: Option<PeerConfig>)
    ensures r == None <==> CannotAdd(env, p)
    ensures r != None ==> Sends(env, r.value, p)
  {
    match env.parseKey(p.publicKey)
    case None => None
    case Some(key) =>
      if p.presharedKey != "" && env.parseKey(p.presharedKey) == None then None
      else if p.endpoint != "" && env.resolve(p.endpoint) == None then None
      else Some(PeerConfig(
        key, false,
        if p.endpoint == "" then None else env.resolve(p.endpoint),
        if p.presharedKey == "" then None else env.parseKey(p.presharedKey),
        Some(p.keepalive), true, p.allowedIPs))
  }

  function DeletePeer(env: Env, p: Peer): (r: Option<PeerConfig>)
    ensures r == None <==> env.parseKey(p.publicKey) == None
    ensures r != None ==> Removes(env, r.value, p)
  {
    match env.parseKey(p.publicKey)
    case None => None
    case Some(key) => Some(PeerConfig(key, true, None, None, None, false, []))
  }

  function Entry(env: Env, change: Change): Option<PeerConfig> {
    match change
    case Add(p) => AddPeer(env, p)
    case Delete(p) => DeletePeer(env, p)
  }

  /** Every change can be written as a patch entry, and these are the entries. */
  ghost predicate Translates(env: Env, changes: seq<Change>, entries: seq<PeerConfig>) {
    |entries| == |changes| && forall i | 0 <= i < |changes| :: Entry(env, changes[i]) == Some(entries[i])
  }

  ghost predicate Untranslatable(env: Env, changes: seq<Change>) {
    exists c | c in changes :: Entry(env, c) == None
  }

  lemma TranslatesMore(env: Env, changes: seq<Change>, entries: seq<PeerConfig>, c: Change, e: PeerConfig)
    requires Translates(env, changes, entries) && Entry(env, c) == Some(e)
    ensures Translates(env, changes + [c], entries + [e])
  {
  }

  lemma TranslatesAll(env: Env, changes: seq<Change>, entries: seq<PeerConfig>)
    requires Translates(env, changes, entries)
    ensures !Untranslatable(env, changes)
  {
    forall c | c in changes
      ensures Entry(env, c) != None
    {
      var i :| 0 <= i < |changes| && changes[i] == c;
    }
  }

  lemma CannotTranslate(env: Env, before: seq<Change>, c: Change, after: seq<Change>)
    requires Entry(env, c) == None
    ensures Untranslatable(env, before + ([c] + after))
  {
    assert (before + ([c] + after))[|before|] == c;
  }

  /** Some change that is due cannot be written: in terms of the two lists and the libraries. */
  ghost predicate Unwritable(env: Env, existing: seq<Peer>, spec: seq<Peer>) {
    || (exists p | p in spec :: !HasEqual(env, existing, 0, p) && CannotAdd(env, p))
    || (exists p | p in existing :: !HasKey(spec, 0, p.publicKey) && env.parseKey(p.publicKey) == None)
  }

  lemma HasIsIn(peers: seq<Peer>, p: Peer)
    ensures Has(peers, 0, p) <==> p in peers
  {
  }

  /** For sorted lists, the changes that cannot be translated are those. */
  lemma UnwritableExactly(env: Env, existing: seq<Peer>, spec: seq<Peer>)
    requires Sorted(existing) && Sorted(spec)
    ensures Untranslatable(env, Changes(env, existing, spec, 0, 0)) <==> Unwritable(env, existing, spec)
  {
    hide Changes, Sorted, Has, HasKey, HasEqual, AddPeer, DeletePeer, CannotAdd, Ascending;
    ChangesAreDifference(env, existing, spec);
    var changes := Changes(env, existing, spec, 0, 0);
    forall p
      ensures Has(existing, 0, p) <==> p in existing
      ensures Has(spec, 0, p) <==> p in spec
    {
      HasIsIn(existing, p);
      HasIsIn(spec, p);
    }
    if c :| c in changes && Entry(env, c) == None {
      assert c == Add(c.peer) || c == Delete(c.peer);
    }
    if p :| p in spec && !HasEqual(env, existing, 0, p) && CannotAdd(env, p) {
      assert Add(p) in changes && Entry(env, Add(p)) == None;
    }
    if p :| p in existing && !HasKey(spec, 0, p.publicKey) && env.parseKey(p.publicKey) == None {
      assert Delete(p) in changes && Entry(env, Delete(p)) == None;
    }
  }

  /** What a patch sends for one change. */
  predicate Writes(env: Env, e: PeerConfig, c: Change) {
    match c
    case Add(p) => Sends(env, e, p)
    case Delete(p) => Removes(env, e, p)
  }

  /** The entries of a patch, one for each change, are the peers to add and to remove themselves. */
  lemma EntriesAreWritten(env: Env, changes: seq<Change>, entries: seq<PeerConfig>)
    requires Translates(env, changes, entries)
    ensures |entries| == |changes| && forall i | 0 <= i < |changes| :: Writes(env, entries[i], changes[i])
  {
    hide AddPeer, DeletePeer, Sends, Removes, CannotAdd;
    forall i | 0 <= i < |changes|
      ensures Writes(env, entries[i], changes[i])
    {
      assert Entry(env, changes[i]) == Some(entries[i]);
    }
  }

  /** Each scalar is sent only if it differs, and each change of a peer is sent. */
  ghost predicate IsPatch(env: Env, spec: Spec, existing: Spec, cfg: Config) {
    && Translates(env, Changes(env, existing.peers, spec.peers, 0, 0), cfg.peers)
    && (if existing.privateKey == spec.privateKey then cfg.privateKey == None
        else cfg.privateKey.Some? && cfg.privateKey == env.parseKey(spec.privateKey))
    && cfg.listenPort == (if existing.listenPort == spec.listenPort then None else Some(spec.listenPort))
    && cfg.firewallMark == (if existing.firewallMark == spec.firewallMark then None else Some(spec.firewallMark))
  }

  /** Encode: the patch that leads from an existing configuration to this one. */
  method Encode(env: Env, spec: Spec, existing: Spec) returns (cfg: Option<Config>)
    ensures cfg.Some? ==> IsPatch(env, spec, existing, cfg.value)
    ensures cfg.None? <==>
              || (existing.privateKey != spec.privateKey && env.parseKey(spec.privateKey) == None)
              || Untranslatable(env, Changes(env, existing.peers, spec.peers, 0, 0))
    ensures Sorted(existing.peers) && Sorted(spec.peers) ==> (
              cfg.None? <==>
                || (existing.privateKey != spec.privateKey && env.parseKey(spec.privateKey) == None)
                || Unwritable(env, existing.peers, spec.peers))
    ensures cfg.Some? ==> (
              var changes := Changes(env, existing.peers, spec.peers, 0, 0);
              && |cfg.value.peers| == |changes|
              && forall i | 0 <= i < |changes| :: Writes(env, cfg.value.peers[i], changes[i]))
  {
    hide Unwritable, Writes, Sorted, Changes, Less, Translates, Untranslatable, Entry, AddPeer, DeletePeer;
    if Sorted(existing.peers) && Sorted(spec.peers) {
      UnwritableExactly(env, existing.peers, spec.peers);
    }
    var privateKey, listenPort, firewallMark := None, None, None;
    if existing.privateKey != spec.privateKey {
      privateKey := env.parseKey(spec.privateKey);
      if privateKey == None {
        return None;
      }
    }
    if existing.listenPort != spec.listenPort {
      listenPort := Some(spec.listenPort);
    }
    if existing.firewallMark != spec.firewallMark {
      firewallMark := Some(spec.firewallMark);
    }
    ghost var all := Changes(env, existing.peers, spec.peers, 0, 0);
    ghost var done: seq<Change> := [];
    var peers: seq<PeerConfig> := [];
    NothingTranslates(env);
    var l: nat, r: nat := 0, 0;
    while l < |existing.peers| || r < |spec.peers|
      invariant l <= |existing.peers| && r <= |spec.peers|
      invariant done + Changes(env, existing.peers, spec.peers, l, r) == all
      invariant Translates(env, done, peers)
      decreases |existing.peers| - l + |spec.peers| - r
    {
      ChangesTurn(env, existing.peers, spec.peers, l, r);
      ghost var change;
      var entry: Option<PeerConfig>;
      if l == |existing.peers| || (r < |spec.peers| && Less(spec.peers[r].publicKey, existing.peers[l].publicKey)) {
        entry, change := AddPeer(env, spec.peers[r]), Add(spec.peers[r]);
        r := r + 1;
      } else if r == |spec.peers| || Less(existing.peers[l].publicKey, spec.peers[r].publicKey) {
        entry, change := DeletePeer(env, existing.peers[l]), Delete(existing.peers[l]);
        l := l + 1;
      } else {
        assert existing.peers[l].publicKey == spec.peers[r].publicKey;
        if env.equal(existing.peers[l], spec.peers[r]) {
          l, r := l + 1, r + 1;
          continue;
        }
        entry, change := AddPeer(env, spec.peers[r]), Add(spec.peers[r]);
        l, r := l + 1, r + 1;
      }
      EntryOf(env, change.peer);
      ghost var left := Changes(env, existing.peers, spec.peers, l, r);
      if entry == None {
        CannotTranslate(env, done, change, left);
        return None;
      }
      TranslatesMore(env, done, peers, change, entry.value);
      OneMore(done, change, left);
      done, peers := done + [change], peers + [entry.value];
    }
    ChangesTurn(env, existing.peers, spec.peers, l, r);
    assert done + [] == done;
    TranslatesAll(env, all, peers);
    EntriesAreWritten(env, all, peers);
    return Some(Config(privateKey, listenPort, firewallMark, peers));
  }

  lemma OneMore(done: seq<Change>, c: Change, left: seq<Change>)
    ensures done + [c] + left == done + ([c] + left)
  {
  }

  lemma EntryOf(env: Env, p: Peer)
    ensures Entry(env, Add(p)) == AddPeer(env, p) && Entry(env, Delete(p)) == DeletePeer(env, p)
  {
  }

  lemma NothingTranslates(env: Env)
    ensures Translates(env, [], [])
  {
  }
}
