/** Installer image references: parsing them, pinning them to a digest, and upgrading to them. */
module Images {
  import opened Results

  /** The parsed form of a reference. The schematic is known only at the image factory's host. */
  datatype ImageRef = ImageRef(host: string, schematic: string, version: string)

  /** The fields of an image that was never set. */
  const NO_IMAGE := ImageRef("", "", "")

  // ---------------------------------------------------------------- strings

  /** strings.IndexByte. */
  function IndexByte(s: string, c: char): (i: int)
    ensures -1 <= i < |s|
    ensures i == -1 <==> c !in s
    ensures i >= 0 ==> s[i] == c && c !in s[..i]
  {
    if s == [] then -1
    else if s[0] == c then 0
    else
      var i := IndexByte(s[1..], c);
      assert s == [s[0]] + s[1..];
      if i == -1 then -1
      else
        assert s[..i + 1] == [s[0]] + s[1..][..i];
        i + 1
  }

  /** The first occurrence is where anything without it ends. */
  lemma IndexOfFirst(before: string, c: char, after: string)
    requires c !in before
    ensures IndexByte(before + [c] + after, c) == |before|
  {
    var s := before + [c] + after;
    var i := IndexByte(s, c);
    assert s[|before|] == c;
    assert forall k | 0 <= k < |before| :: s[k] == before[k];
    assert forall k | 0 <= k < i :: s[..i][k] == s[k];
  }

  /** strings.Split: there is always at least one part. */
  function Split(s: string, sep: char): (parts: seq<string>)
    ensures parts != []
    decreases |s|
  {
    var i := IndexByte(s, sep);
    if i == -1 then [s] else [s[..i]] + Split(s[i + 1..], sep)
  }

  function Join(parts: seq<string>, sep: char): string
    requires parts != []
  {
    if |parts| == 1 then parts[0] else parts[0] + [sep] + Join(parts[1..], sep)
  }

  predicate Separated(parts: seq<string>, sep: char) {
    forall p | p in parts :: sep !in p
  }

  lemma JoinFirst(first: string, rest: seq<string>, sep: char)
    requires rest != []
    ensures Join([first] + rest, sep) == first + [sep] + Join(rest, sep)
  {
    assert ([first] + rest)[1..] == rest;
  }

  lemma Around(s: string, i: nat)
    requires i < |s|
    ensures s == s[..i] + [s[i]] + s[i + 1..]
  {
  }

  lemma SplitTurn(s: string, sep: char)
    ensures IndexByte(s, sep) == -1 ==> Split(s, sep) == [s]
    ensures IndexByte(s, sep) >= 0 ==>
              Split(s, sep) == [s[..IndexByte(s, sep)]] + Split(s[IndexByte(s, sep) + 1..], sep)
  {
    hide IndexByte;
  }

  lemma SplitFirst(s: string, sep: char)
    ensures sep !in s ==> Split(s, sep) == [s]
    ensures sep in s ==> (
              var i := IndexByte(s, sep);
              && i >= 0 && Split(s, sep) == [s[..i]] + Split(s[i + 1..], sep)
              && sep !in s[..i] && s == s[..i] + [sep] + s[i + 1..])
  {
    hide IndexByte, Split;
    SplitTurn(s, sep);
    if sep in s {
      Around(s, IndexByte(s, sep));
    }
  }

  lemma {:induction false} JoinSplit(s: string, sep: char)
    ensures Join(Split(s, sep), sep) == s && Separated(Split(s, sep), sep)
    decreases |s|
  {
    hide IndexByte, Split, Join;
    SplitFirst(s, sep);
    if sep in s {
      var i := IndexByte(s, sep);
      JoinSplit(s[i + 1..], sep);
      JoinFirst(s[..i], Split(s[i + 1..], sep), sep);
    } else {
      JoinOne(s, sep);
    }
  }

  lemma JoinOne(s: string, sep: char)
    ensures Join([s], sep) == s
  {
  }

  lemma {:induction false} SplitJoin(parts: seq<string>, sep: char)
    requires parts != [] && Separated(parts, sep)
    ensures Split(Join(parts, sep), sep) == parts
    decreases |parts|
  {
    hide IndexByte, Split, Join;
    var s, first, rest := Join(parts, sep), parts[0], parts[1..];
    SplitFirst(s, sep);
    assert parts == [first] + rest && first in parts;
    if rest != [] {
      JoinFirst(first, rest, sep);
      IndexOfFirst(first, sep, Join(rest, sep));
      AroundFirst(first, sep, Join(rest, sep));
      SplitJoin(rest, sep);
    } else {
      assert parts == [first];
      JoinOne(first, sep);
    }
  }

  lemma AroundFirst(before: string, c: char, after: string)
    ensures var s := before + [c] + after;
            c in s && s[..|before|] == before && s[|before| + 1..] == after
  {
    assert (before + [c] + after)[|before|] == c;
  }

  /** strings.Cut around the first occurrence of sep. */
  datatype CutParts = CutParts(before: string, after: string, found: bool)

  function Cut(s: string, sep: char): CutParts {
    var i := IndexByte(s, sep);
    if i == -1 then CutParts(s, "", false) else CutParts(s[..i], s[i + 1..], true)
  }

  // ---------------------------------------------------------------- references

  /** What comes before the digest. */
  function Unpinned(ref: string): string {
    var at := IndexByte(ref, '@');
    if at == -1 then ref else ref[..at]
  }

  function ParseImageRef(imageFactoryHost: string, imageRef: string): Option<ImageRef> {
    var parts := Split(Unpinned(imageRef), '/');
    var last := Cut(parts[|parts| - 1], ':');
    if !last.found then None
    else
      var host := if |parts| > 1 then parts[0] else "";
      var schematic := if host != "" && host == imageFactoryHost then last.before else "";
      Some(ImageRef(host, schematic, last.after))
  }

  /** A reference by its parts: path segments, the name and tag of the last one, and perhaps a digest. */
  function Reference(path: seq<string>, name: string, tag: string, digest: Option<string>): string {
    Join(path + [name + ":" + tag], '/') + (if digest == None then "" else "@" + digest.value)
  }

  ghost predicate WellFormed(path: seq<string>, name: string, tag: string) {
    && (forall p | p in path :: '/' !in p && '@' !in p)
    && '/' !in name && '@' !in name && ':' !in name && '/' !in tag && '@' !in tag
  }

  lemma {:induction false} JoinWithout(parts: seq<string>, sep: char, c: char)
    requires parts != [] && c != sep
    ensures c !in Join(parts, sep) <==> forall p | p in parts :: c !in p
    decreases |parts|
  {
    if |parts| > 1 {
      JoinWithout(parts[1..], sep, c);
      assert parts == [parts[0]] + parts[1..];
    } else {
      assert parts == [parts[0]];
    }
  }

  /** What a digest adds to a reference is cut off again. */
  lemma UnpinnedOf(ref: string, digest: string)
    requires '@' !in ref
    ensures Unpinned(ref) == ref && Unpinned(ref + "@" + digest) == ref
  {
    IndexOfFirst(ref, '@', digest);
    assert ref + ['@'] + digest == ref + "@" + digest;
  }

  lemma CutOf(name: string, tag: string)
    requires ':' !in name
    ensures Cut(name + ":" + tag, ':') == CutParts(name, tag, true)
  {
    IndexOfFirst(name, ':', tag);
    AroundFirst(name, ':', tag);
    assert name + [':'] + tag == name + ":" + tag;
  }

  lemma UnpinnedReference(path: seq<string>, name: string, tag: string, digest: Option<string>)
    requires WellFormed(path, name, tag)
    ensures Unpinned(Reference(path, name, tag, digest)) == Join(path + [name + ":" + tag], '/')
    ensures Separated(path + [name + ":" + tag], '/')
  {
    hide Join, IndexByte, Unpinned;
    var last := name + ":" + tag;
    var parts := path + [last];
    assert '@' !in last && '/' !in last && forall p | p in parts :: p in path || p == last;
    JoinWithout(parts, '/', '@');
    UnpinnedOf(Join(parts, '/'), if digest == None then "" else digest.value);
    assert Join(parts, '/') + "" == Join(parts, '/');
    if digest.Some? {
      assert Join(parts, '/') + ("@" + digest.value) == Join(parts, '/') + "@" + digest.value;
    }
  }

  /** Building a reference from its parts and parsing it gives the parts. */
  lemma BuiltParses(
      imageFactoryHost: string, path: seq<string>, name: string, tag: string, digest: Option<string>)
    requires WellFormed(path, name, tag)
    ensures ParseImageRef(imageFactoryHost, Reference(path, name, tag, digest)) == Some(ImageRef(
              if path == [] then "" else path[0],
              if path != [] && path[0] != "" && path[0] == imageFactoryHost then name else "",
              tag))
  {
    hide Split, Join, IndexByte, Unpinned, Reference, Separated, Cut;
    UnpinnedReference(path, name, tag, digest);
    SplitJoin(path + [name + ":" + tag], '/');
    CutOf(name, tag);
  }

  /** A reference is its unpinned part, and perhaps a digest after it. */
  lemma UnpinnedAndDigest(imageRef: string) returns (digest: Option<string>)
    ensures imageRef == Unpinned(imageRef) + (if digest == None then "" else "@" + digest.value)
    ensures '@' !in Unpinned(imageRef)
  {
    hide IndexByte;
    var at := IndexByte(imageRef, '@');
    if at == -1 {
      digest := None;
      assert imageRef + "" == imageRef;
    } else {
      digest := Some(imageRef[at + 1..]);
      assert imageRef[at..] == "@" + imageRef[at + 1..];
    }
  }

  lemma CutIs(s: string)
    requires Cut(s, ':').found
    ensures s == Cut(s, ':').before + ":" + Cut(s, ':').after && ':' !in Cut(s, ':').before
  {
    hide IndexByte;
  }

  lemma AllButLast(parts: seq<string>, last: string)
    requires parts != [] && last == parts[|parts| - 1]
    ensures parts == parts[..|parts| - 1] + [last]
  {
  }

  lemma ParsesMeansFound(imageFactoryHost: string, imageRef: string)
    requires ParseImageRef(imageFactoryHost, imageRef).Some?
    ensures var parts := Split(Unpinned(imageRef), '/'); Cut(parts[|parts| - 1], ':').found
  {
    hide Split, Cut, Unpinned;
  }

  /** Every reference that parses is built in this way. */
  lemma ParsedIsBuilt(imageFactoryHost: string, imageRef: string)
    returns (path: seq<string>, name: string, tag: string, digest: Option<string>)
    ensures ParseImageRef(imageFactoryHost, imageRef).Some? ==>
              WellFormed(path, name, tag) && imageRef == Reference(path, name, tag, digest)
  {
    hide Split, Join, IndexByte, Separated, Unpinned, Cut, ParseImageRef, WellFormed;
    var ref := Unpinned(imageRef);
    digest := UnpinnedAndDigest(imageRef);
    JoinSplit(ref, '/');
    var parts := Split(ref, '/');
    var last := parts[|parts| - 1];
    path, name, tag := parts[..|parts| - 1], Cut(last, ':').before, Cut(last, ':').after;
    if ParseImageRef(imageFactoryHost, imageRef).Some? {
      ParsesMeansFound(imageFactoryHost, imageRef);
      CutIs(last);
      AllButLast(parts, last);
      PartsWellFormed(path, name, tag);
    }
  }

  lemma PartsWellFormed(path: seq<string>, name: string, tag: string)
    requires Separated(path + [name + ":" + tag], '/') && '@' !in Join(path + [name + ":" + tag], '/') && ':' !in name
    ensures WellFormed(path, name, tag)
  {
    hide Join;
    var last := name + ":" + tag;
    var parts := path + [last];
    JoinWithout(parts, '/', '@');
    assert last in parts && forall p | p in path :: p in parts;
    assert forall c | c in name || c in tag :: c in last;
  }

  /** A reference parses exactly if its last path segment, before any digest, has a tag. */
  lemma ParsesExactlyTagged(imageFactoryHost: string, imageRef: string)
    ensures ParseImageRef(imageFactoryHost, imageRef).Some? <==>
              exists path, name, tag, digest :: WellFormed(path, name, tag) &&
                  imageRef == Reference(path, name, tag, digest)
  {
    hide ParseImageRef, WellFormed, Reference;
    if ParseImageRef(imageFactoryHost, imageRef).Some? {
      var path, name, tag, digest := ParsedIsBuilt(imageFactoryHost, imageRef);
      assert WellFormed(path, name, tag) && imageRef == Reference(path, name, tag, digest);
    }
    forall path, name, tag, digest | WellFormed(path, name, tag) && imageRef == Reference(path, name, tag, digest)
      ensures ParseImageRef(imageFactoryHost, imageRef).Some?
    {
      BuiltParses(imageFactoryHost, path, name, tag, digest);
    }
  }

  function PinImageReference(ref: string, digest: string): string {
    if '@' in ref then ref else ref + "@" + digest
  }

  /** Pinning changes nothing that parsing sees, and pinning again changes nothing at all. */
  lemma PinKeepsIdentity(imageFactoryHost: string, ref: string, digest: string, again: string)
    ensures ParseImageRef(imageFactoryHost, PinImageReference(ref, digest)) == ParseImageRef(imageFactoryHost, ref)
    ensures PinImageReference(PinImageReference(ref, digest), again) == PinImageReference(ref, digest)
  {
    hide Split, IndexByte;
    if '@' !in ref {
      UnpinnedOf(ref, digest);
      assert '@' in ref + "@" + digest by {
        assert (ref + "@" + digest)[|ref|] == '@';
      }
    }
  }

  /** Pinning adds the digest to a reference that has none, and leaves one that has. */
  lemma PinsExactly(path: seq<string>, name: string, tag: string, digest: Option<string>, resolved: string)
    requires WellFormed(path, name, tag)
    ensures PinImageReference(Reference(path, name, tag, digest), resolved) ==
              Reference(path, name, tag, if digest == None then Some(resolved) else digest)
  {
    hide Join, WellFormed;
    var parts := path + [name + ":" + tag];
    NoDigest(path, name, tag);
    assert Join(parts, '/') + "" == Join(parts, '/');
    if digest.Some? {
      assert (Join(parts, '/') + ("@" + digest.value))[|Join(parts, '/')|] == '@';
    } else {
      assert Join(parts, '/') + ("@" + resolved) == Join(parts, '/') + "@" + resolved;
    }
  }

  lemma NoDigest(path: seq<string>, name: string, tag: string)
    requires WellFormed(path, name, tag)
    ensures '@' !in Join(path + [name + ":" + tag], '/')
  {
    hide Join;
    var last := name + ":" + tag;
    var parts := path + [last];
    assert '@' !in last && forall p | p in parts :: p in path || p == last;
    JoinWithout(parts, '/', '@');
  }

  // ---------------------------------------------------------------- upgrades

  /** One upgrade request: whether a sequence is running, Talos is installed, and the image is a valid installer. */
  datatype Request = Request(image: string, busy: bool, installed: bool, valid: bool)

  predicate Accepted(r: Request, imageFactoryHost: string) {
    !r.busy && r.installed && r.valid && ParseImageRef(imageFactoryHost, r.image).Some?
  }

  /** The image after some upgrade requests. */
  function ImageAfter(imageFactoryHost: string, image: ImageRef, requests: seq<Request>): ImageRef
    decreases |requests|
  {
    if requests == [] then image
    else ImageAfter(imageFactoryHost, ImageAfterOne(imageFactoryHost, image, requests[0]), requests[1..])
  }

  function ImageAfterOne(imageFactoryHost: string, image: ImageRef, r: Request): ImageRef {
    if Accepted(r, imageFactoryHost) then ParseImageRef(imageFactoryHost, r.image).value else image
  }

  /** How often the image is another one than before, over some upgrade requests. */
  function Changes(imageFactoryHost: string, image: ImageRef, requests: seq<Request>): nat
    decreases |requests|
  {
    if requests == [] then 0
    else
      var next := ImageAfterOne(imageFactoryHost, image, requests[0]);
      (if next == image then 0 else 1) + Changes(imageFactoryHost, next, requests[1..])
  }

  /** Requests for one and the same image change it at most once: if it is not that image already. */
  lemma {:induction false} SameImageChangesOnce(
      imageFactoryHost: string, image: ImageRef, requests: seq<Request>, target: ImageRef)
    requires forall r | r in requests && Accepted(r, imageFactoryHost) ::
              ParseImageRef(imageFactoryHost, r.image) == Some(target)
    ensures Changes(imageFactoryHost, image, requests) ==
              if image != target && exists r | r in requests :: Accepted(r, imageFactoryHost) then 1 else 0
    decreases |requests|
  {
    hide ParseImageRef;
    if requests != [] {
      var next := ImageAfterOne(imageFactoryHost, image, requests[0]);
      assert requests == [requests[0]] + requests[1..];
      SameImageChangesOnce(imageFactoryHost, next, requests[1..], target);
    }
  }

  class MachineService {
    const imageFactoryHost: string
    var image: ImageRef
    var bootID: string
    var reboots: nat

    constructor (imageFactoryHost: string, bootID: string)
      ensures this.imageFactoryHost == imageFactoryHost && image == NO_IMAGE && this.bootID == bootID && reboots == 0
    {
      this.imageFactoryHost, image, this.bootID, reboots := imageFactoryHost, NO_IMAGE, bootID, 0;
    }

    /** setImage: records the image, and says whether it is another one than before. */
    method SetImage(imageRef: string) returns (changed: bool, err: bool)
      modifies this`image
      ensures err <==> ParseImageRef(imageFactoryHost, imageRef) == None
      ensures err ==> image == old(image) && !changed
      ensures !err ==> Some(image) == ParseImageRef(imageFactoryHost, imageRef) && (changed <==> image != old(image))
    {
      var parsed := ParseImageRef(imageFactoryHost, imageRef);
      if parsed == None {
        return false, true;
      }
      changed := image.schematic != parsed.value.schematic || image.version != parsed.value.version ||
        image.host != parsed.value.host;
      image := image.(schematic := parsed.value.schematic);
      image := image.(version := parsed.value.version);
      image := image.(host := parsed.value.host);
      err := false;
    }

    method RequestReboot(newBootID: string)
      modifies this`bootID, this`reboots
      ensures bootID == newBootID && reboots == old(reboots) + 1
    {
      reboots := reboots + 1;
      bootID := newBootID;
    }

    /** Upgrade: reboots, and gets another boot ID, exactly if the image changes. */
    method Upgrade(r: Request, newBootID: string) returns (err: bool)
      modifies this
      ensures err <==> !Accepted(r, imageFactoryHost)
      ensures err <==> r.busy || !r.installed || !r.valid || ParseImageRef(imageFactoryHost, r.image) == None
      ensures if err then image == old(image) else Some(image) == ParseImageRef(imageFactoryHost, r.image)
      ensures image == ImageAfterOne(imageFactoryHost, old(image), r)
      ensures reboots == old(reboots) + if image == old(image) then 0 else 1
      ensures bootID == if image == old(image) then old(bootID) else newBootID
    {
      if r.busy || !r.installed || !r.valid {
        return true;
      }
      var changed: bool;
      changed, err := SetImage(r.image);
      if err {
        return;
      }
      if changed {
        RequestReboot(newBootID);
      }
    }

    /** A run of upgrades reboots once for every change of the image, and rotates the boot ID only then. */
    method Upgrades(requests: seq<Request>, newBootIDs: seq<string>)
      requires |newBootIDs| == |requests|
      modifies this
      ensures image == ImageAfter(imageFactoryHost, old(image), requests)
      ensures reboots == old(reboots) + Changes(imageFactoryHost, old(image), requests)
      ensures reboots == old(reboots) ==> bootID == old(bootID)
    {
      hide ParseImageRef;
      var i: nat := 0;
      while i < |requests|
        invariant i <= |requests|
        invariant ImageAfter(imageFactoryHost, image, requests[i..]) ==
                  ImageAfter(imageFactoryHost, old(image), requests)
        invariant reboots + Changes(imageFactoryHost, image, requests[i..]) ==
                    old(reboots) + Changes(imageFactoryHost, old(image), requests)
        invariant old(reboots) <= reboots && (reboots == old(reboots) ==> bootID == old(bootID))
      {
        assert requests[i..][1..] == requests[i + 1..];
        var _ := Upgrade(requests[i], newBootIDs[i]);
        i := i + 1;
      }
    }
  }
}
