/**
  Pruning the image store against what run would still pick from it.

  The store is keyed by digest, so a republished tag adds an image next to the old one. Prune removes the
  superseded ones; run answers a reference from the newest complete match. Both read the same records.
 */
module Prune {
  import opened Common

  /** Digests, references, repositories and platforms, by their rank in alphabetical order. */
  type Text = nat

  const DEFAULT_PLATFORM: Text := 0

  /** A record. One without a platform predates the field. */
  datatype Image = Image(
    digest: Text, index: Option<Text>, ref: Text, repository: Option<Text>, platform: Option<Text>, pulledAt: int)

  /** A directory of the store; isDigest says that its name has the shape of a digest. */
  datatype Entry = Entry(name: Text, isDigest: bool, record: Option<Image>, complete: bool)

  datatype Reference = Reference(raw: Text, digest: Option<Text>, repository: Option<Text>)

  /** The readable records, in listing order. */
  function Images(entries: seq<Entry>): seq<Image> {
    if entries == [] then []
    else
      var last := entries[|entries| - 1];
      Images(entries[..|entries| - 1]) + (if last.record.Some? then [last.record.value] else [])
  }

  function Complete(entries: seq<Entry>): set<Text> { set e | e in entries && e.complete :: e.name }

  function PlatformOf(i: Image): Text { if i.platform.None? then DEFAULT_PLATFORM else i.platform.value }

  datatype Key = Key(ref: Text, platform: Text)

  function KeyOf(i: Image): Key { Key(i.ref, PlatformOf(i)) }

  // ----- what supersedes what -----

  predicate Newer(a: Image, b: Image) { a.pulledAt > b.pulledAt || (a.pulledAt == b.pulledAt && a.digest > b.digest) }

  predicate InGroup(i: Image, complete: set<Text>, k: Key) { i.digest in complete && KeyOf(i) == k }

  /** The newest complete image of a group, of the records so far. */
  function Newest(images: seq<Image>, complete: set<Text>, k: Key): Option<Image> {
    if images == [] then None
    else
      var last := images[|images| - 1];
      var best := Newest(images[..|images| - 1], complete, k);
      if InGroup(last, complete, k) && (best.None? || Newer(last, best.value)) then Some(last) else best
  }

  /** It is in the group, nothing in the group is newer, and there is one as soon as the group has any. */
  lemma {:induction false} NewestIsNewest(images: seq<Image>, complete: set<Text>, k: Key)
    ensures Newest(images, complete, k).Some? <==> exists i :: i in images && InGroup(i, complete, k)
    ensures Newest(images, complete, k).Some? ==>
              var n := Newest(images, complete, k).value;
              n in images && InGroup(n, complete, k)
              && forall i | i in images && InGroup(i, complete, k) :: !Newer(i, n)
  {
    if images != [] {
      var last := images[|images| - 1];
      var front := images[..|images| - 1];
      assert images == front + [last];
      NewestIsNewest(front, complete, k);
    }
  }

  ghost predicate Supersedes(images: seq<Image>, complete: set<Text>, i: Image) {
    var n := Newest(images, complete, KeyOf(i));
    n.Some? && n.value.digest != i.digest
  }

  /** Some record of this digest is in a group whose newest complete image is another. */
  ghost predicate IsSuperseded(images: seq<Image>, complete: set<Text>, d: Text) {
    exists i :: i in images && i.digest == d && Supersedes(images, complete, i)
  }

  /** d is the newest complete image of the group this record is in. */
  ghost predicate Replaces(images: seq<Image>, complete: set<Text>, i: Image, d: Text) {
    var n := Newest(images, complete, KeyOf(i));
    n.Some? && n.value.digest == d
  }

  /** supersededDigests: the first loop finds each group's newest, the second names what it replaced. */
  method SupersededDigests(images: seq<Image>, complete: set<Text>) returns (superseded: map<Text, Text>)
    ensures forall d :: d in superseded <==> IsSuperseded(images, complete, d)
    ensures forall d | d in superseded ::
              superseded[d] != d
              && exists i :: i in images && i.digest == d && Replaces(images, complete, i, superseded[d])
  {
    var newest: map<Key, Image> := map[];
    for n := 0 to |images|
      invariant forall k :: Newest(images[..n], complete, k) == if k in newest then Some(newest[k]) else None
    {
      var img := images[n];
      assert images[..n + 1][..n] == images[..n];
      if img.digest in complete {
        var k := KeyOf(img);
        if k !in newest || Newer(img, newest[k]) {
          newest := newest[k := img];
        }
      }
    }
    assert images[..|images|] == images;
    superseded := map[];
    for n := 0 to |images|
      invariant forall d :: d in superseded <==>
                  exists i :: i in images[..n] && i.digest == d && Supersedes(images, complete, i)
      invariant forall d | d in superseded ::
                  superseded[d] != d
                  && exists i :: i in images && i.digest == d && Replaces(images, complete, i, superseded[d])
    {
      var img := images[n];
      assert images[..n + 1] == images[..n] + [img];
      if KeyOf(img) in newest && newest[KeyOf(img)].digest != img.digest {
        assert Replaces(images, complete, img, newest[KeyOf(img)].digest);
        superseded := superseded[img.digest := newest[KeyOf(img)].digest];
      }
    }
  }

  // ----- what prune removes -----

  ghost predicate Recorded(images: seq<Image>, d: Text) { exists i :: i in images && i.digest == d }

  ghost predicate Target(entries: seq<Entry>, held: set<Text>, all: bool, e: Entry) {
    var images := Images(entries);
    e.name !in held &&
    if !Recorded(images, e.name) then e.isDigest
    else e.name !in Complete(entries) || IsSuperseded(images, Complete(entries), e.name) || all
  }

  /** pruneTargets, without the leftovers of interrupted pulls. */
  method PruneTargets(entries: seq<Entry>, held: set<Text>, all: bool) returns (targets: seq<Text>)
    ensures forall d :: d in targets <==> exists e :: e in entries && e.name == d && Target(entries, held, all, e)
    ensures forall d | d in targets :: d !in held
  {
    var images := Images(entries);
    var complete := Complete(entries);
    var byDigest := set i | i in images :: i.digest;
    var superseded := SupersededDigests(images, complete);
    targets := [];
    for n := 0 to |entries|
      invariant forall d :: d in targets <==>
                  exists e :: e in entries[..n] && e.name == d && Target(entries, held, all, e)
    {
      var e := entries[n];
      assert entries[..n + 1] == entries[..n] + [e];
      assert e.name in byDigest <==> Recorded(images, e.name);
      if e.name !in held {
        if e.name !in byDigest {
          if e.isDigest {
            targets := targets + [e.name];
          }
        } else if e.name !in complete || e.name in superseded || all {
          targets := targets + [e.name];
        }
      }
    }
    assert entries[..|entries|] == entries;
  }

  // ----- what run picks -----

  /** ImageMetadata.Answers: the reference as written, the store key, or a digest pin of this repository. */
  predicate Answers(i: Image, want: Reference) {
    || i.ref == want.raw || i.digest == want.raw
    || (want.digest.Some? && want.repository.Some?
        && (want.digest.value == i.digest || want.digest == i.index) && i.repository == want.repository)
  }

  predicate Candidate(i: Image, complete: set<Text>, want: Reference, platform: Text) {
    Answers(i, want) && PlatformOf(i) == platform && i.digest in complete
  }

  /** The first of the most recently pulled candidates, in listing order. */
  function Best(images: seq<Image>, complete: set<Text>, want: Reference, platform: Text): Option<Image> {
    if images == [] then None
    else
      var last := images[|images| - 1];
      var best := Best(images[..|images| - 1], complete, want, platform);
      if Candidate(last, complete, want, platform) && (best.None? || last.pulledAt > best.value.pulledAt)
      then Some(last) else best
  }

  function Cached(entries: seq<Entry>, want: Reference, platform: Text): Option<Text> {
    var best := Best(Images(entries), Complete(entries), want, platform);
    if best.None? then None else Some(best.value.digest)
  }

  method CachedDigest(entries: seq<Entry>, want: Reference, platform: Text) returns (d: Option<Text>)
    ensures d == Cached(entries, want, platform)
  {
    var images, complete := Images(entries), Complete(entries);
    var best: Option<Image> := None;
    for n := 0 to |images|
      invariant best == Best(images[..n], complete, want, platform)
    {
      assert images[..n + 1][..n] == images[..n];
      var img := images[n];
      if !Answers(img, want) || PlatformOf(img) != platform || img.digest !in complete {
        continue;
      }
      if best.None? || img.pulledAt > best.value.pulledAt {
        best := Some(img);
      }
    }
    assert images[..|images|] == images;
    d := if best.None? then None else Some(best.value.digest);
  }
}
