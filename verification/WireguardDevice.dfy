/**
 * A WireGuard device and what a patch does to it: reading the device, encoding the difference to a
 * wanted configuration and applying it reaches that configuration.
 */
module WireguardDevice {
  import opened Results
  import opened Wireguard
  import K = KeyStrings

  /** A peer as the device holds it. The zero preshared key means that it has none. */
  datatype State = State(endpoint: Option<Address>, presharedKey: Key, keepalive: int, allowedIPs: seq<Prefix>)

  const FRESH := State(None, K.ZERO_KEY, 0, [])

  type Peers = map<Key, State>

  datatype Device = Device(privateKey: Key, publicKey: Key, listenPort: int, firewallMark: int, peers: Peers)

  // ---------------------------------------------------------------- applying a patch

  function Updated(st: State, e: PeerConfig): State {
    State(
      if e.endpoint.Some? then e.endpoint else st.endpoint,
      if e.presharedKey.Some? then e.presharedKey.value else st.presharedKey,
      if e.keepalive.Some? then e.keepalive.value else st.keepalive,
      if e.replaceAllowedIPs then e.allowedIPs else st.allowedIPs + e.allowedIPs)
  }

  function At(peers: Peers, k: Key): State {
    if k in peers then peers[k] else FRESH
  }

  function ApplyEntry(peers: Peers, e: PeerConfig): Peers {
    if e.remove then peers - {e.publicKey} else peers[e.publicKey := Updated(At(peers, e.publicKey), e)]
  }

  function ApplyPeers(peers: Peers, entries: seq<PeerConfig>): Peers
    decreases |entries|
  {
    if entries == [] then peers
    else ApplyEntry(ApplyPeers(peers, entries[..|entries| - 1]), entries[|entries| - 1])
  }

  function Apply(dev: Device, cfg: Config): Device {
    dev.(privateKey := if cfg.privateKey.Some? then cfg.privateKey.value else dev.privateKey,
         listenPort := if cfg.listenPort.Some? then cfg.listenPort.value else dev.listenPort,
         firewallMark := if cfg.firewallMark.Some? then cfg.firewallMark.value else dev.firewallMark,
         peers := ApplyPeers(dev.peers, cfg.peers))
  }

  ghost predicate SameAt(a: Peers, b: Peers, k: Key) {
    (k in a <==> k in b) && (k in a ==> a[k] == b[k])
  }

  /** Some entry from index i on is about this key. */
  predicate Touches(entries: seq<PeerConfig>, i: nat, k: Key) {
    exists j | i <= j < |entries| :: entries[j].publicKey == k
  }

  lemma {:induction false} Untouched(peers: Peers, entries: seq<PeerConfig>, k: Key)
    requires !Touches(entries, 0, k)
    ensures SameAt(ApplyPeers(peers, entries), peers, k)
    decreases |entries|
  {
    if entries != [] {
      var n := |entries| - 1;
      assert entries[n].publicKey != k;
      Untouched(peers, entries[..n], k);
    }
  }

  lemma {:induction false} ApplyAppend(peers: Peers, a: seq<PeerConfig>, b: seq<PeerConfig>)
    ensures ApplyPeers(peers, a + b) == ApplyPeers(ApplyPeers(peers, a), b)
    decreases |b|
  {
    hide ApplyEntry;
    if b == [] {
      assert a + b == a;
    } else {
      var n := |b| - 1;
      ApplyAppend(peers, a, b[..n]);
      assert (a + b)[..|a + b| - 1] == a + b[..n];
    }
  }

  lemma ApplyOneMore(peers: Peers, entries: seq<PeerConfig>, i: nat)
    requires i < |entries|
    ensures ApplyPeers(peers, entries[..i + 1]) == ApplyEntry(ApplyPeers(peers, entries[..i]), entries[i])
  {
    assert entries[..i + 1][..i] == entries[..i];
  }

  /** The last entry about a key decides what becomes of it. */
  lemma LastTouch(peers: Peers, entries: seq<PeerConfig>, i: nat)
    requires i < |entries| && !Touches(entries, i + 1, entries[i].publicKey)
    ensures SameAt(
              ApplyPeers(peers, entries), ApplyEntry(ApplyPeers(peers, entries[..i]), entries[i]), entries[i].publicKey)
  {
    hide ApplyPeers, ApplyEntry, SameAt;
    var after := entries[i + 1..];
    ApplyOneMore(peers, entries, i);
    ApplyAppend(peers, entries[..i + 1], after);
    assert entries[..i + 1] + after == entries;
    assert forall j | 0 <= j < |after| :: after[j] == entries[i + 1 + j];
    Untouched(ApplyPeers(peers, entries[..i + 1]), after, entries[i].publicKey);
  }

  lemma {:induction false} FindLast(entries: seq<PeerConfig>, k: Key) returns (i: nat)
    requires Touches(entries, 0, k)
    ensures i < |entries| && entries[i].publicKey == k && !Touches(entries, i + 1, k)
    decreases |entries|
  {
    var n := |entries| - 1;
    if entries[n].publicKey == k {
      i := n;
    } else {
      i := FindLast(entries[..n], k);
      assert forall j | i + 1 <= j < n :: entries[..n][j] == entries[j];
    }
  }

  // ---------------------------------------------------------------- which keys a patch leaves

  /** The peers are those of the device: every key of it once, in a form that parses. */
  ghost predicate Shows(env: Env, peers: Peers, existing: seq<Peer>) {
    && (forall p | p in existing :: env.parseKey(p.publicKey).Some? && env.parseKey(p.publicKey).value in peers)
    && (forall k | k in peers :: Wants(env, existing, k))
    && Unambiguous(env, existing)
  }

  /** Some peer of the list is the peer with this key. */
  ghost predicate Wants(env: Env, spec: seq<Peer>, k: Key) {
    exists p | p in spec :: env.parseKey(p.publicKey) == Some(k)
  }

  /** No two ways to write a key. */
  ghost predicate Unambiguous(env: Env, peers: seq<Peer>) {
    forall p, q | p in peers && q in peers && env.parseKey(p.publicKey) == env.parseKey(q.publicKey) ::
      p.publicKey == q.publicKey
  }

  /**
   * Where the device's way to write a key is not the wanted one, some wanted way comes later in the
   * order of strings, so that the peer is added again after it was removed.
   */
  ghost predicate AddedLast(env: Env, existing: seq<Peer>, spec: seq<Peer>) {
    forall e, p | e in existing && p in spec && env.parseKey(e.publicKey) == env.parseKey(p.publicKey) ::
      HasKey(spec, 0, e.publicKey) || WantedAfter(env, spec, e)
  }

  ghost predicate WantedAfter(env: Env, spec: seq<Peer>, e: Peer) {
    exists p | p in spec :: env.parseKey(p.publicKey) == env.parseKey(e.publicKey) && Less(e.publicKey, p.publicKey)
  }

  lemma EntryKey(env: Env, c: Change, e: PeerConfig)
    requires Entry(env, c) == Some(e)
    ensures env.parseKey(c.peer.publicKey) == Some(e.publicKey) && (e.remove <==> c.Delete?)
  {
  }

  lemma HasIn(peers: seq<Peer>, p: Peer)
    ensures Has(peers, 0, p) <==> p in peers
  {
  }

  /** An added or deleted peer, by what IsDifference says of it. */
  lemma WhyChanged(env: Env, existing: seq<Peer>, spec: seq<Peer>, changes: seq<Change>, i: nat)
    requires IsDifference(env, existing, spec, changes) && i < |changes|
    ensures changes[i].Add? ==> changes[i].peer in spec && !HasEqual(env, existing, 0, changes[i].peer)
    ensures changes[i].Delete? ==> changes[i].peer in existing && !HasKey(spec, 0, changes[i].peer.publicKey)
  {
    hide HasKey, HasEqual, Ascending, Has;
    var c := changes[i];
    assert c in changes;
    assert c == Add(c.peer) || c == Delete(c.peer);
    HasIn(existing, c.peer);
    HasIn(spec, c.peer);
  }

  /** A key that no entry touches is wanted exactly if the device has it. */
  lemma UntouchedIsRight(
      env: Env, existing: seq<Peer>, spec: seq<Peer>, changes: seq<Change>, entries: seq<PeerConfig>, peers: Peers,
      k: Key)
    requires IsDifference(env, existing, spec, changes) && Translates(env, changes, entries) &&
              Shows(env, peers, existing)
    requires !Touches(entries, 0, k)
    ensures k in peers <==> Wants(env, spec, k)
  {
    hide Ascending;
    forall c | c in changes
      ensures env.parseKey(c.peer.publicKey) != Some(k)
    {
      var i :| 0 <= i < |changes| && changes[i] == c;
      EntryKey(env, c, entries[i]);
    }
    if k in peers {
      var e :| e in existing && env.parseKey(e.publicKey) == Some(k);
      HasIn(existing, e);
      assert Delete(e) !in changes;
      var j :| 0 <= j < |spec| && spec[j].publicKey == e.publicKey;
      assert spec[j] in spec;
    }
    if Wants(env, spec, k) {
      var p :| p in spec && env.parseKey(p.publicKey) == Some(k);
      HasIn(spec, p);
      assert Add(p) !in changes;
      var j :| 0 <= j < |existing| && existing[j].publicKey == p.publicKey;
      assert existing[j] in existing;
    }
  }

  /** Of two changes of one list, the one with the larger key comes later. */
  lemma LargerComesLater(changes: seq<Change>, i: nat, j: nat)
    requires Ascending(changes) && i < |changes| && j < |changes|
    requires Less(changes[i].peer.publicKey, changes[j].peer.publicKey)
    ensures i < j
  {
    LessTotal(changes[i].peer.publicKey, changes[j].peer.publicKey);
  }

  lemma TouchedBy(env: Env, changes: seq<Change>, entries: seq<PeerConfig>, c: Change) returns (i: nat)
    requires Translates(env, changes, entries) && c in changes
    ensures i < |entries| && changes[i] == c && Some(entries[i].publicKey) == env.parseKey(c.peer.publicKey)
    ensures Touches(entries, 0, entries[i].publicKey)
  {
    i :| 0 <= i < |changes| && changes[i] == c;
    EntryKey(env, c, entries[i]);
  }

  lemma NotAfterLast(entries: seq<PeerConfig>, i: nat, j: nat)
    requires i < |entries| && j < |entries| && entries[i].publicKey == entries[j].publicKey
    requires !Touches(entries, i + 1, entries[i].publicKey)
    ensures j <= i
  {
  }

  /** A wanted peer is not equal to one whose key is written otherwise. */
  lemma NotEqualToOther(env: Env, existing: seq<Peer>, e: Peer, p: Peer)
    requires Unambiguous(env, existing) && e in existing
    requires env.parseKey(p.publicKey) == env.parseKey(e.publicKey) && Less(e.publicKey, p.publicKey)
    ensures !HasEqual(env, existing, 0, p)
  {
    LessTotal(e.publicKey, p.publicKey);
    forall j | 0 <= j < |existing|
      ensures existing[j].publicKey != p.publicKey
    {
      assert existing[j] in existing;
    }
  }

  /** Deleting a key last is right exactly if no way to write it is wanted. */
  lemma DeletedIsUnwanted(
      env: Env, existing: seq<Peer>, spec: seq<Peer>, changes: seq<Change>, entries: seq<PeerConfig>, peers: Peers,
      i: nat)
    requires IsDifference(env, existing, spec, changes) && Translates(env, changes, entries) &&
              Shows(env, peers, existing)
    requires i < |entries| && entries[i].remove && !Touches(entries, i + 1, entries[i].publicKey)
    requires AddedLast(env, existing, spec)
    ensures !Wants(env, spec, entries[i].publicKey)
  {
    hide Ascending, Less, Touches;
    var k := entries[i].publicKey;
    EntryKey(env, changes[i], entries[i]);
    WhyChanged(env, existing, spec, changes, i);
    var e := changes[i].peer;
    if Wants(env, spec, k) {
      assert WantedAfter(env, spec, e);
      var p :| p in spec && env.parseKey(p.publicKey) == env.parseKey(e.publicKey) && Less(e.publicKey, p.publicKey);
      HasIn(spec, p);
      NotEqualToOther(env, existing, e, p);
      var j := TouchedBy(env, changes, entries, Add(p));
      LargerComesLater(changes, i, j);
      NotAfterLast(entries, i, j);
    }
  }

  ghost predicate KeysReached(env: Env, spec: seq<Peer>, peers: Peers) {
    forall k :: k in peers <==> Wants(env, spec, k)
  }

  /** If the patch reaches the wanted keys, each key that is written anew is also wanted in a later way. */
  lemma ReachedIsAddedLast(
      env: Env, existing: seq<Peer>, spec: seq<Peer>, changes: seq<Change>, entries: seq<PeerConfig>, peers: Peers,
      e: Peer, p: Peer)
    requires IsDifference(env, existing, spec, changes) && Translates(env, changes, entries)
    requires KeysReached(env, spec, ApplyPeers(peers, entries))
    requires e in existing && p in spec && env.parseKey(e.publicKey) == env.parseKey(p.publicKey)
    requires !HasKey(spec, 0, e.publicKey)
    ensures WantedAfter(env, spec, e)
  {
    hide Less, ApplyPeers, Touches;
    HasIn(existing, e);
    var j := TouchedBy(env, changes, entries, Delete(e));
    var k := entries[j].publicKey;
    assert Wants(env, spec, k);
    var i := FindLast(entries, k);
    LastTouch(peers, entries, i);
    EntryKey(env, changes[i], entries[i]);
    EntryKey(env, changes[j], entries[j]);
    WhyChanged(env, existing, spec, changes, i);
    NotAfterLast(entries, i, j);
    assert changes[i].peer in spec;
  }

  /**
   * The patch leaves exactly the wanted keys on the device if and only if every key that is wanted
   * in another form than the device's own is also wanted in a form that sorts after it.
   */
  lemma PatchReachesKeys(
      env: Env, existing: seq<Peer>, spec: seq<Peer>, changes: seq<Change>, entries: seq<PeerConfig>, peers: Peers)
    requires Sorted(existing) && Sorted(spec) && Shows(env, peers, existing)
    requires changes == Changes(env, existing, spec, 0, 0) && Translates(env, changes, entries)
    ensures KeysReached(env, spec, ApplyPeers(peers, entries)) <==> AddedLast(env, existing, spec)
  {
    hide Changes, IsDifference, ApplyPeers, Less, Shows, HasKey, Wants, Translates, Touches, Sorted, WantedAfter;
    ChangesAreDifference(env, existing, spec);
    if AddedLast(env, existing, spec) {
      forall k
        ensures k in ApplyPeers(peers, entries) <==> Wants(env, spec, k)
      {
        KeyReached(env, existing, spec, changes, entries, peers, k);
      }
    }
    if KeysReached(env, spec, ApplyPeers(peers, entries)) {
      forall e, p | e in existing && p in spec && env.parseKey(e.publicKey) == env.parseKey(p.publicKey)
        ensures HasKey(spec, 0, e.publicKey) || WantedAfter(env, spec, e)
      {
        if !HasKey(spec, 0, e.publicKey) {
          ReachedIsAddedLast(env, existing, spec, changes, entries, peers, e, p);
        }
      }
    }
  }

  lemma KeyReached(
      env: Env, existing: seq<Peer>, spec: seq<Peer>, changes: seq<Change>, entries: seq<PeerConfig>, peers: Peers,
      k: Key)
    requires IsDifference(env, existing, spec, changes) && Translates(env, changes, entries) &&
              Shows(env, peers, existing)
    requires AddedLast(env, existing, spec)
    ensures k in ApplyPeers(peers, entries) <==> Wants(env, spec, k)
  {
    hide ApplyPeers, Shows, Touches, AddedLast, IsDifference;
    if !Touches(entries, 0, k) {
      Untouched(peers, entries, k);
      UntouchedIsRight(env, existing, spec, changes, entries, peers, k);
    } else {
      var i := FindLast(entries, k);
      LastTouch(peers, entries, i);
      if entries[i].remove {
        DeletedIsUnwanted(env, existing, spec, changes, entries, peers, i);
      } else {
        EntryKey(env, changes[i], entries[i]);
        WhyChanged(env, existing, spec, changes, i);
      }
    }
  }

  // ---------------------------------------------------------------- what a patch leaves of each peer

  /** The device has the wanted peer; where the wanted peer sets no endpoint or preshared key, the old one stays. */
  ghost predicate PeerReached(env: Env, before: Peers, after: Peers, p: Peer) {
    var k := env.parseKey(p.publicKey);
    && k.Some? && k.value in after
    && after[k.value].allowedIPs == p.allowedIPs
    && after[k.value].keepalive == p.keepalive
    && after[k.value].endpoint ==
         (if p.endpoint == "" then At(before, k.value).endpoint else env.resolve(p.endpoint))
    && Some(after[k.value].presharedKey) ==
         (if p.presharedKey == "" then Some(At(before, k.value).presharedKey) else env.parseKey(p.presharedKey))
  }

  /** The device still has the very same peer. */
  ghost predicate PeerKept(env: Env, before: Peers, after: Peers, p: Peer) {
    var k := env.parseKey(p.publicKey);
    k.Some? && k.value in before && SameAt(after, before, k.value)
  }

  lemma SortedKeysDiffer(peers: seq<Peer>, p: Peer, q: Peer)
    requires Sorted(peers) && p in peers && q in peers && p.publicKey == q.publicKey
    ensures p == q
  {
    LessIrreflexive(p.publicKey);
  }

  /** If keys are written in one way, the only change about a wanted peer's key is the one that adds it. */
  lemma SoleChange(env: Env, existing: seq<Peer>, spec: seq<Peer>, changes: seq<Change>, i: nat, p: Peer)
    requires Sorted(spec) && IsDifference(env, existing, spec, changes)
    requires Unambiguous(env, existing + spec) && p in spec
    requires i < |changes| && env.parseKey(changes[i].peer.publicKey) == env.parseKey(p.publicKey)
    ensures changes[i] == Add(p) && !HasEqual(env, existing, 0, p)
  {
    hide Ascending, HasEqual, Sorted, IsDifference;
    WhyChanged(env, existing, spec, changes, i);
    assert changes[i].peer in existing + spec && p in existing + spec;
    assert changes[i].peer.publicKey == p.publicKey;
    var r :| 0 <= r < |spec| && spec[r] == p;
    assert HasKey(spec, 0, p.publicKey);
    SortedKeysDiffer(spec, changes[i].peer, p);
  }

  lemma AscendingOnce(changes: seq<Change>, i: nat, j: nat)
    requires Ascending(changes) && i < |changes| && j < |changes| && changes[i] == changes[j]
    ensures i == j
  {
    LessIrreflexive(changes[i].peer.publicKey);
  }

  lemma KeptPeer(
      env: Env, existing: seq<Peer>, spec: seq<Peer>, changes: seq<Change>, entries: seq<PeerConfig>, peers: Peers,
      p: Peer)
    requires Sorted(spec) && IsDifference(env, existing, spec, changes) && Translates(env, changes, entries)
    requires Shows(env, peers, existing) && Unambiguous(env, existing + spec)
    requires p in spec && HasEqual(env, existing, 0, p)
    ensures PeerKept(env, peers, ApplyPeers(peers, entries), p)
  {
    hide Ascending, Sorted, IsDifference, Unambiguous;
    var j :| 0 <= j < |existing| && existing[j].publicKey == p.publicKey && env.equal(existing[j], p);
    assert existing[j] in existing;
    var k := env.parseKey(p.publicKey).value;
    forall i | 0 <= i < |entries|
      ensures entries[i].publicKey != k
    {
      EntryKey(env, changes[i], entries[i]);
      if entries[i].publicKey == k {
        SoleChange(env, existing, spec, changes, i, p);
      }
    }
    Untouched(peers, entries, k);
  }

  lemma WrittenPeer(
      env: Env, existing: seq<Peer>, spec: seq<Peer>, changes: seq<Change>, entries: seq<PeerConfig>, peers: Peers,
      p: Peer)
    requires Sorted(spec) && IsDifference(env, existing, spec, changes) && Translates(env, changes, entries)
    requires Unambiguous(env, existing + spec)
    requires p in spec && !HasEqual(env, existing, 0, p)
    ensures PeerReached(env, peers, ApplyPeers(peers, entries), p)
  {
    hide Ascending, Sorted, Unambiguous, HasEqual, ApplyPeers;
    HasIn(spec, p);
    var i := TouchedBy(env, changes, entries, Add(p));
    var k := entries[i].publicKey;
    forall j | 0 <= j < |entries| && j != i
      ensures entries[j].publicKey != k
    {
      EntryKey(env, changes[j], entries[j]);
      if entries[j].publicKey == k {
        SoleChange(env, existing, spec, changes, j, p);
        AscendingOnce(changes, i, j);
      }
    }
    LastTouch(peers, entries, i);
    assert forall j | 0 <= j < i :: entries[..i][j] == entries[j];
    Untouched(peers, entries[..i], k);
  }

  /**
   * Where keys are written in one way, the patch leaves every peer that is equal untouched, brings
   * every other wanted peer to what is wanted of it, and leaves no other key.
   */
  lemma PatchReachesPeers(
      env: Env, existing: seq<Peer>, spec: seq<Peer>, changes: seq<Change>, entries: seq<PeerConfig>, peers: Peers)
    requires Sorted(existing) && Sorted(spec) && Shows(env, peers, existing)
    requires changes == Changes(env, existing, spec, 0, 0) && Translates(env, changes, entries)
    requires Unambiguous(env, existing + spec)
    ensures KeysReached(env, spec, ApplyPeers(peers, entries))
    ensures forall p | p in spec ::
              if HasEqual(env, existing, 0, p) then PeerKept(env, peers, ApplyPeers(peers, entries), p)
              else PeerReached(env, peers, ApplyPeers(peers, entries), p)
  {
    hide Changes, IsDifference, ApplyPeers, Less, Shows, HasEqual, Translates, Sorted, PeerKept, PeerReached;
    hide KeysReached;
    ChangesAreDifference(env, existing, spec);
    forall e, p | e in existing && p in spec && env.parseKey(e.publicKey) == env.parseKey(p.publicKey)
      ensures HasKey(spec, 0, e.publicKey)
    {
      assert e in existing + spec && p in existing + spec;
    }
    PatchReachesKeys(env, existing, spec, changes, entries, peers);
    forall p | p in spec
      ensures if HasEqual(env, existing, 0, p) then PeerKept(env, peers, ApplyPeers(peers, entries), p)
              else PeerReached(env, peers, ApplyPeers(peers, entries), p)
    {
      if HasEqual(env, existing, 0, p) {
        KeptPeer(env, existing, spec, changes, entries, peers, p);
      } else {
        WrittenPeer(env, existing, spec, changes, entries, peers, p);
      }
    }
  }

  // ---------------------------------------------------------------- reading a device

  /** Printing a key and parsing it again gives the key. */
  ghost predicate KeysReadBack(env: Env) {
    forall k: Key :: env.parseKey(env.keyString(k)) == Some(k)
  }

  /** Keys are written as the device would write them. */
  ghost predicate Canonical(env: Env, peers: seq<Peer>) {
    forall p | p in peers && env.parseKey(p.publicKey).Some? ::
      env.keyString(env.parseKey(p.publicKey).value) == p.publicKey
  }

  function DecodedPeer(env: Env, k: Key, st: State): Peer {
    Peer(
      env.keyString(k),
      if st.presharedKey == K.ZERO_KEY then "" else env.keyString(st.presharedKey),
      if st.endpoint.Some? then env.addressString(st.endpoint.value) else "",
      st.keepalive, st.allowedIPs)
  }

  /** The peers of a device, in the order in which it lists their keys. */
  ghost predicate Decoded(env: Env, peers: Peers, listed: seq<Key>, read: seq<Peer>) {
    && |read| == |listed| && (forall k :: k in listed <==> k in peers)
    && forall i | 0 <= i < |listed| :: read[i] == DecodedPeer(env, listed[i], peers[listed[i]])
  }

  class WireguardSpec {
    var privateKey: string
    var publicKey: string
    var listenPort: int
    var firewallMark: int
    var peers: seq<Peer>

    constructor ()
      ensures privateKey == "" && publicKey == "" && listenPort == 0 && firewallMark == 0 && peers == []
    {
      privateKey, publicKey, listenPort, firewallMark, peers := "", "", 0, 0, [];
    }

    /** Decode: read the device's configuration. The private key is read only if this is not for a status. */
    method Decode(env: Env, dev: Device, listed: seq<Key>, isStatus: bool)
      requires forall k :: k in listed <==> k in dev.peers
      modifies this
      ensures privateKey == if isStatus then old(privateKey) else env.keyString(dev.privateKey)
      ensures publicKey == if isStatus then env.keyString(dev.publicKey) else old(publicKey)
      ensures listenPort == dev.listenPort && firewallMark == dev.firewallMark
      ensures Decoded(env, dev.peers, listed, peers)
    {
      if isStatus {
        publicKey := env.keyString(dev.publicKey);
      } else {
        privateKey := env.keyString(dev.privateKey);
      }
      listenPort, firewallMark := dev.listenPort, dev.firewallMark;
      peers := seq(|listed|, i => Peer("", "", "", 0, []));
      for i := 0 to |listed|
        invariant |peers| == |listed|
        invariant forall j | 0 <= j < i :: peers[j] == DecodedPeer(env, listed[j], dev.peers[listed[j]])
        invariant forall j | i <= j < |peers| :: peers[j] == Peer("", "", "", 0, [])
        invariant privateKey == if isStatus then old(privateKey) else env.keyString(dev.privateKey)
        invariant publicKey == if isStatus then env.keyString(dev.publicKey) else old(publicKey)
        invariant listenPort == dev.listenPort && firewallMark == dev.firewallMark
      {
        var k := listed[i];
        assert k in listed;
        var st := dev.peers[k];
        var peer := peers[i].(publicKey := env.keyString(k));
        if st.endpoint.Some? {
          peer := peer.(endpoint := env.addressString(st.endpoint.value));
        }
        if st.presharedKey != K.ZERO_KEY {
          peer := peer.(presharedKey := env.keyString(st.presharedKey));
        }
        peers := peers[i := peer.(keepalive := st.keepalive, allowedIPs := st.allowedIPs)];
      }
    }
  }

  /** What was read of a device, in any order, shows its keys, in the one way it writes them. */
  lemma DecodedShows(env: Env, peers: Peers, listed: seq<Key>, read: seq<Peer>, existing: seq<Peer>)
    requires KeysReadBack(env) && Decoded(env, peers, listed, read) && multiset(existing) == multiset(read)
    ensures Shows(env, peers, existing) && Canonical(env, existing)
  {
    forall p | p in existing
      ensures exists k | k in peers :: p.publicKey == env.keyString(k)
    {
      assert p in multiset(existing);
      assert p in read;
      var i :| 0 <= i < |read| && read[i] == p;
      assert listed[i] in listed;
    }
    forall k | k in peers
      ensures Wants(env, existing, k)
    {
      var i :| 0 <= i < |listed| && listed[i] == k;
      assert read[i] in multiset(read);
      assert read[i] in multiset(existing);
    }
  }

  /** Addresses that are printed, and keys, are read back, and are not empty. */
  ghost predicate ReadsBack(env: Env) {
    && KeysReadBack(env) && (forall k: Key :: env.keyString(k) != "")
    && forall a: Address :: env.resolve(env.addressString(a)) == Some(a) && env.addressString(a) != ""
  }

  /** What was read of a peer, added to a device without it, makes the very same peer. */
  lemma ReadingRebuilds(env: Env, k: Key, st: State)
    requires ReadsBack(env)
    ensures AddPeer(env, DecodedPeer(env, k, st)).Some?
    ensures ApplyPeers(map[], [AddPeer(env, DecodedPeer(env, k, st)).value]) == map[k := st]
  {
    var e := AddPeer(env, DecodedPeer(env, k, st)).value;
    assert [e][..0] == [];
    assert ApplyPeers(map[], []) == map[];
  }

  lemma CanonicalIsUnambiguous(env: Env, peers: seq<Peer>, more: seq<Peer>)
    requires Canonical(env, peers) && Canonical(env, more)
    requires forall p | p in peers + more :: env.parseKey(p.publicKey).Some?
    ensures Unambiguous(env, peers + more)
  {
  }

  /** The wanted peers all have keys that parse, if the patch could be encoded. */
  lemma PatchMeansParsed(
      env: Env, existing: seq<Peer>, spec: seq<Peer>, changes: seq<Change>, entries: seq<PeerConfig>, peers: Peers,
      p: Peer)
    requires IsDifference(env, existing, spec, changes) && Translates(env, changes, entries)
    requires Shows(env, peers, existing) && p in spec
    ensures env.parseKey(p.publicKey).Some?
  {
    hide Ascending;
    HasIn(spec, p);
    if HasEqual(env, existing, 0, p) {
      var j :| 0 <= j < |existing| && existing[j].publicKey == p.publicKey;
      assert existing[j] in existing;
    } else {
      var i := TouchedBy(env, changes, entries, Add(p));
    }
  }

  /** The device is as wanted: its scalars, and its peers as far as the patch may change them. */
  ghost predicate Synced(env: Env, existing: Spec, spec: Spec, before: Device, after: Device) {
    && Some(after.privateKey) == env.parseKey(spec.privateKey)
    && after.publicKey == before.publicKey
    && after.listenPort == spec.listenPort && after.firewallMark == spec.firewallMark
    && KeysReached(env, spec.peers, after.peers)
    && forall p | p in spec.peers ::
         if HasEqual(env, existing.peers, 0, p) then PeerKept(env, before.peers, after.peers, p)
         else PeerReached(env, before.peers, after.peers, p)
  }

  /** Reading the device, sorting what was read, encoding the difference and applying it syncs the device. */
  lemma SyncReaches(env: Env, dev: Device, listed: seq<Key>, read: seq<Peer>, existing: Spec, spec: Spec, cfg: Config)
    requires KeysReadBack(env) && Decoded(env, dev.peers, listed, read) && multiset(existing.peers) == multiset(read)
    requires existing.privateKey == env.keyString(dev.privateKey)
    requires existing.listenPort == dev.listenPort && existing.firewallMark == dev.firewallMark
    requires Sorted(existing.peers) && Sorted(spec.peers) && Canonical(env, spec.peers)
    requires IsPatch(env, spec, existing, cfg)
    ensures Synced(env, existing, spec, dev, Apply(dev, cfg))
  {
    hide Changes, IsDifference, ApplyPeers, Less, Shows, HasEqual, Translates, Sorted, PeerKept, PeerReached;
    hide KeysReached;
    hide Canonical, Unambiguous, Decoded;
    DecodedShows(env, dev.peers, listed, read, existing.peers);
    ChangesAreDifference(env, existing.peers, spec.peers);
    var changes := Changes(env, existing.peers, spec.peers, 0, 0);
    forall p | p in existing.peers + spec.peers
      ensures env.parseKey(p.publicKey).Some?
    {
      if p in existing.peers {
        ShownParses(env, dev.peers, existing.peers, p);
      } else {
        PatchMeansParsed(env, existing.peers, spec.peers, changes, cfg.peers, dev.peers, p);
      }
    }
    CanonicalIsUnambiguous(env, existing.peers, spec.peers);
    PatchReachesPeers(env, existing.peers, spec.peers, changes, cfg.peers, dev.peers);
  }

  lemma ShownParses(env: Env, peers: Peers, existing: seq<Peer>, p: Peer)
    requires Shows(env, peers, existing) && p in existing
    ensures env.parseKey(p.publicKey).Some?
  {
  }

  // ---------------------------------------------------------------- a key written in another way

  /** Keys as strings in base 64; the other libraries are left open. */
  function Base64(
      resolve: string -> Option<Address>, addressString: Address -> string, equal: (Peer, Peer) -> bool): Env {
    Env(K.Parse, K.Print, resolve, addressString, equal)
  }

  lemma Base64ReadsBack(
      resolve: string -> Option<Address>, addressString: Address -> string, equal: (Peer, Peer) -> bool)
    ensures KeysReadBack(Base64(resolve, addressString, equal))
  {
    forall k: Key
      ensures K.Parse(K.Print(k)) == Some(k)
    {
      K.PrintReadsBack(k);
    }
  }

  /** Strings that first differ at one place are in the order of their characters there. */
  lemma {:induction false} LessAt(common: string, a: string, b: string)
    requires a != [] && b != [] && a[0] != b[0]
    ensures Less(common + a, common + b) <==> a[0] < b[0]
  {
    if common == [] {
      assert common + a == a && common + b == b;
    } else {
      LessAt(common[1..], a, b);
      assert (common + a)[1..] == common[1..] + a && (common + b)[1..] == common[1..] + b;
    }
  }

  /**
   * A key in another spelling sorts before the device's if and only if the device's ends in "8=" and it
   * in "+=" or "/=".
   */
  lemma SpelledBefore(k: Key, low: nat)
    requires 0 < low < 4
    ensures Less(K.Respelled(k, low), K.Print(k)) <==> k[31] % 16 == 15 && low >= 2
    ensures K.Respelled(k, low) != K.Print(k)
  {
    hide K.Letter, K.PrintGroups;
    K.RespelledIsPrint(k);
    K.EarlierLetter(k[31] % 16, low);
    K.LetterReadsBack(4 * (k[31] % 16) + low);
    K.LetterReadsBack(4 * (k[31] % 16));
    var common := K.PrintGroups(k[..30]) + [K.Letter(k[30] / 4), K.Letter(k[30] % 4 * 16 + k[31] / 16)];
    var a, b := [K.Letter(k[31] % 16 * 4 + low), '='], [K.Letter(k[31] % 16 * 4), '='];
    assert K.Respelled(k, low) == common + a && K.Respelled(k, 0) == common + b;
    LessAt(common, a, b);
    assert (common + a)[|common|] != (common + b)[|common|];
  }

  function Spelled(k: Key, low: nat): Peer
    requires low < 4
  {
    Peer(K.Respelled(k, low), "", "", 0, [])
  }

  /** The one change that a single peer on each side, with the same key spelled differently, leads to. */
  lemma AddThenDelete(env: Env, e: Peer, p: Peer)
    requires Less(p.publicKey, e.publicKey)
    ensures Changes(env, [e], [p], 0, 0) == [Add(p), Delete(e)]
  {
    assert Changes(env, [e], [p], 1, 1) == [];
    assert Changes(env, [e], [p], 0, 1) == [Delete(e)];
  }

  lemma AddedThenRemoved(peers: Peers, a: PeerConfig, d: PeerConfig)
    requires d.remove && a.publicKey == d.publicKey
    ensures d.publicKey !in ApplyPeers(peers, [a, d])
  {
    assert [a, d][..1] == [a];
  }

  /**
   * A device with a key that is printed with "8=" at the end, and the same key wanted with "+=" or
   * "/=" there, which parses as the same: the patch is encoded, and removes the wanted peer.
   */
  lemma WantedPeerIsLost(env: Env, k: Key, state: State, low: nat) returns (entries: seq<PeerConfig>)
    requires env == Base64(env.resolve, env.addressString, env.equal)
    requires k[31] % 16 == 15 && 2 <= low < 4
    ensures var existing, spec := [DecodedPeer(env, k, state)], [Spelled(k, low)];
            && Decoded(env, map[k := state], [k], existing) && Sorted(existing) && Sorted(spec)
            && Translates(env, Changes(env, existing, spec, 0, 0), entries)
            && Wants(env, spec, k) && k !in ApplyPeers(map[k := state], entries)
  {
    hide K.Respelled, K.Print, K.Parse, Less, Changes, ApplyPeers;
    var e, p := DecodedPeer(env, k, state), Spelled(k, low);
    SpelledBefore(k, low);
    K.RespelledParses(k, low);
    K.PrintReadsBack(k);
    AddThenDelete(env, e, p);
    var a, d := AddPeer(env, p).value, DeletePeer(env, e).value;
    entries := [a, d];
    AddedThenRemoved(map[k := state], a, d);
    assert [p][0] in [p];
  }
}
