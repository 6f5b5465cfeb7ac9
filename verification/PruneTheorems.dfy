/**
  Prune agrees with run: what is pruned is never what run would have answered a name with, up to one tie
  rule in which the two disagree.
 */
module PruneTheorems {
  import opened Common
  import opened Prune

  /** The listing is sorted by name, and no name appears twice. */
  ghost predicate Listed(entries: seq<Entry>) {
    forall i, j | 0 <= i < j < |entries| :: entries[i].name < entries[j].name
  }

  /** Every directory is named by the digest of the record in it, which is how a pull writes one. */
  ghost predicate Keyed(entries: seq<Entry>) {
    forall e | e in entries && e.record.Some? :: e.record.value.digest == e.name
  }

  /** The store once the named directories are gone. */
  function After(entries: seq<Entry>, removed: set<Text>): seq<Entry> {
    if entries == [] then []
    else
      var last := entries[|entries| - 1];
      After(entries[..|entries| - 1], removed) + (if last.name in removed then [] else [last])
  }

  lemma {:induction false} AfterHolds(entries: seq<Entry>, removed: set<Text>)
    ensures forall e :: e in After(entries, removed) <==> e in entries && e.name !in removed
  {
    if entries != [] {
      var last := entries[|entries| - 1];
      var front := entries[..|entries| - 1];
      assert entries == front + [last];
      AfterHolds(front, removed);
    }
  }

  lemma {:induction false} AfterIsListed(entries: seq<Entry>, removed: set<Text>)
    requires Listed(entries)
    ensures Listed(After(entries, removed))
  {
    if entries != [] {
      var last := entries[|entries| - 1];
      var front := entries[..|entries| - 1];
      AfterIsListed(front, removed);
      AfterHolds(front, removed);
      var kept := After(front, removed);
      forall i | 0 <= i < |kept| ensures kept[i].name < last.name {
        assert kept[i] in kept;
        var j :| 0 <= j < |front| && front[j] == kept[i];
        assert entries[j].name < entries[|entries| - 1].name;
      }
    }
  }

  lemma {:induction false} ImagesHold(entries: seq<Entry>)
    ensures forall i :: i in Images(entries) <==> exists e :: e in entries && e.record == Some(i)
  {
    if entries != [] {
      var last := entries[|entries| - 1];
      var front := entries[..|entries| - 1];
      assert entries == front + [last];
      ImagesHold(front);
      forall i ensures i in Images(entries) <==> exists e :: e in entries && e.record == Some(i) {
        if i in Images(front) {
          var e :| e in front && e.record == Some(i);
          assert e in entries;
        }
        if last.record == Some(i) {
          assert last in entries;
        }
      }
    }
  }

  ghost predicate Rising(images: seq<Image>) {
    forall i, j | 0 <= i < j < |images| :: images[i].digest < images[j].digest
  }

  lemma RisingAppend(images: seq<Image>, x: Image)
    requires Rising(images) && forall i | 0 <= i < |images| :: images[i].digest < x.digest
    ensures Rising(images + [x])
  {
  }

  lemma FrontIsLess(entries: seq<Entry>, e: Entry)
    requires Listed(entries) && entries != [] && e in entries[..|entries| - 1]
    ensures e.name < entries[|entries| - 1].name
  {
    var j :| 0 <= j < |entries| - 1 && entries[j] == e;
  }

  lemma {:induction false} ImagesRise(entries: seq<Entry>)
    requires Listed(entries) && Keyed(entries)
    ensures Rising(Images(entries))
  {
    if entries != [] {
      var last := entries[|entries| - 1];
      var front := entries[..|entries| - 1];
      assert Listed(front) && Keyed(front);
      assert last in entries;
      ImagesRise(front);
      ImagesHold(front);
      var before := Images(front);
      assert Images(entries) == before + (if last.record.Some? then [last.record.value] else []);
      hide Images, Rising;
      if last.record.Some? {
        forall i | 0 <= i < |before| ensures before[i].digest < last.record.value.digest {
          assert before[i] in before;
          var e :| e in front && e.record == Some(before[i]);
          FrontIsLess(entries, e);
        }
        RisingAppend(before, last.record.value);
      } else {
        assert before + [] == before;
      }
    }
  }

  /** b was pulled later than c, or at the same time and is listed no later. */
  predicate Preferred(b: Image, c: Image) {
    c.pulledAt < b.pulledAt || (c.pulledAt == b.pulledAt && b.digest <= c.digest)
  }

  /** What run picks, without reference to the loop that finds it. */
  ghost predicate IsPick(images: seq<Image>, complete: set<Text>, want: Reference, platform: Text, b: Image) {
    && b in images && Candidate(b, complete, want, platform)
    && forall c | c in images && Candidate(c, complete, want, platform) :: Preferred(b, c)
  }

  lemma RisingFront(images: seq<Image>)
    requires Rising(images) && images != []
    ensures Rising(images[..|images| - 1])
    ensures forall c | c in images[..|images| - 1] :: c.digest < images[|images| - 1].digest
  {
  }

  /** One more image listed, of a larger digest than all before it. */
  lemma BestStep(images: seq<Image>, complete: set<Text>, want: Reference, platform: Text)
    requires images != []
    requires var front := images[..|images| - 1];
             var best := Best(front, complete, want, platform);
             && (forall c | c in front :: c.digest < images[|images| - 1].digest)
             && (best.None? ==> forall c | c in front :: !Candidate(c, complete, want, platform))
             && (best.Some? ==> IsPick(front, complete, want, platform, best.value))
    ensures var best := Best(images, complete, want, platform);
            && (best.None? ==> forall c | c in images :: !Candidate(c, complete, want, platform))
            && (best.Some? ==> IsPick(images, complete, want, platform, best.value))
  {
    hide Candidate;
    var last := images[|images| - 1];
    var front := images[..|images| - 1];
    forall c ensures c in images <==> c in front || c == last {
      assert images == front + [last];
    }
  }

  lemma {:induction false} BestIsPick(images: seq<Image>, complete: set<Text>, want: Reference, platform: Text)
    requires Rising(images)
    ensures var best := Best(images, complete, want, platform);
            && (best.None? ==> forall c | c in images :: !Candidate(c, complete, want, platform))
            && (best.Some? ==> IsPick(images, complete, want, platform, best.value))
  {
    hide Rising, Candidate;
    if images != [] {
      var last := images[|images| - 1];
      var front := images[..|images| - 1];
      RisingFront(images);
      BestIsPick(front, complete, want, platform);
      BestStep(images, complete, want, platform);
    }
  }

  lemma OneRecord(entries: seq<Entry>, a: Image, b: Image)
    requires Listed(entries) && Keyed(entries)
    requires a in Images(entries) && b in Images(entries) && a.digest == b.digest
    ensures a == b
  {
    ImagesRise(entries);
    var images := Images(entries);
    var i :| 0 <= i < |images| && images[i] == a;
    var j :| 0 <= j < |images| && images[j] == b;
    assert i == j;
  }

  /** Removing directories removes exactly their images from what run can choose from. */
  lemma CandidatesAfter(entries: seq<Entry>, removed: set<Text>, want: Reference, platform: Text, i: Image)
    requires Listed(entries) && Keyed(entries)
    ensures i in Images(After(entries, removed)) && Candidate(i, Complete(After(entries, removed)), want, platform)
            <==> i in Images(entries) && Candidate(i, Complete(entries), want, platform) && i.digest !in removed
  {
    var rest := After(entries, removed);
    AfterHolds(entries, removed);
    ImagesHold(entries);
    ImagesHold(rest);
    CompleteAfter(entries, removed, i.digest);
    hide After, Images, Complete;
  }

  lemma CompleteAfter(entries: seq<Entry>, removed: set<Text>, d: Text)
    ensures d in Complete(After(entries, removed)) <==> d in Complete(entries) && d !in removed
  {
    AfterHolds(entries, removed);
    hide After;
  }

  lemma AfterIsKeyed(entries: seq<Entry>, removed: set<Text>)
    requires Listed(entries) && Keyed(entries)
    ensures Listed(After(entries, removed)) && Keyed(After(entries, removed))
  {
    AfterIsListed(entries, removed);
    AfterHolds(entries, removed);
  }

  /** Whatever is removed: run's answer to any reference stays the same exactly when it was not removed. */
  lemma SameAnswerIff(entries: seq<Entry>, removed: set<Text>, want: Reference, platform: Text)
    requires Listed(entries) && Keyed(entries)
    ensures var before := Cached(entries, want, platform);
            Cached(After(entries, removed), want, platform) == before <==> before.None? || before.value !in removed
  {
    var rest := After(entries, removed);
    AfterIsKeyed(entries, removed);
    ImagesRise(entries);
    ImagesRise(rest);
    BestIsPick(Images(entries), Complete(entries), want, platform);
    BestIsPick(Images(rest), Complete(rest), want, platform);
    var before := Best(Images(entries), Complete(entries), want, platform);
    var after := Best(Images(rest), Complete(rest), want, platform);
    if after.Some? {
      CandidatesAfter(entries, removed, want, platform, after.value);
    }
    if before.Some? {
      CandidatesAfter(entries, removed, want, platform, before.value);
    }
    hide After, Images, Complete, Best, Candidate, Listed, Keyed, Rising;
  }

  // ----- the group's newest stays -----

  /** The newest complete image of a group is a target exactly when another group's record claims its digest. */
  lemma KeeperTargetedIff(entries: seq<Entry>, held: set<Text>, k: Key, e: Entry)
    requires Newest(Images(entries), Complete(entries), k).Some? && e in entries
    requires e.name == Newest(Images(entries), Complete(entries), k).value.digest
    ensures Target(entries, held, false, e) <==>
            && e.name !in held
            && exists i :: i in Images(entries) && i.digest == e.name && KeyOf(i) != k
                           && Supersedes(Images(entries), Complete(entries), i)
  {
    NewestIsNewest(Images(entries), Complete(entries), k);
    hide Newest, Images, Complete;
  }

  /** In a store as pulls write it, the newest complete image of every group is never a target. */
  lemma KeeperStays(entries: seq<Entry>, held: set<Text>, k: Key, e: Entry)
    requires Listed(entries) && Keyed(entries)
    requires Newest(Images(entries), Complete(entries), k).Some? && e in entries
    requires e.name == Newest(Images(entries), Complete(entries), k).value.digest
    ensures !Target(entries, held, false, e)
  {
    var n := Newest(Images(entries), Complete(entries), k).value;
    NewestIsNewest(Images(entries), Complete(entries), k);
    KeeperTargetedIff(entries, held, k, e);
    forall i | i in Images(entries) && i.digest == e.name ensures KeyOf(i) == k {
      OneRecord(entries, i, n);
    }
    hide Newest, Images, Complete, Target;
  }

  // ----- names -----

  /** The reference matches records only by the name they were pulled under. */
  ghost predicate NameOnly(entries: seq<Entry>, want: Reference) {
    forall i | i in Images(entries) && Answers(i, want) :: i.ref == want.raw
  }

  ghost predicate OnlyTargets(entries: seq<Entry>, held: set<Text>, removed: set<Text>) {
    forall e | e in entries && e.name in removed :: Target(entries, held, false, e)
  }

  lemma CandidateIsInGroup(entries: seq<Entry>, want: Reference, platform: Text, i: Image)
    requires NameOnly(entries, want) && i in Images(entries)
    ensures Candidate(i, Complete(entries), want, platform)
            <==> InGroup(i, Complete(entries), Key(want.raw, platform))
  {
  }

  lemma EntryOf(entries: seq<Entry>, i: Image) returns (e: Entry)
    requires Keyed(entries) && i in Images(entries)
    ensures e in entries && e.name == i.digest
  {
    ImagesHold(entries);
    e :| e in entries && e.record == Some(i);
  }

  /** A name that had an answer still has one, however many of the targets were removed. */
  lemma AnswerSurvives(entries: seq<Entry>, held: set<Text>, removed: set<Text>, want: Reference, platform: Text)
    requires Listed(entries) && Keyed(entries) && NameOnly(entries, want) && OnlyTargets(entries, held, removed)
    ensures Cached(After(entries, removed), want, platform).Some? <==> Cached(entries, want, platform).Some?
  {
    var rest := After(entries, removed);
    var k := Key(want.raw, platform);
    AfterIsKeyed(entries, removed);
    ImagesRise(entries);
    ImagesRise(rest);
    BestIsPick(Images(entries), Complete(entries), want, platform);
    BestIsPick(Images(rest), Complete(rest), want, platform);
    var before := Best(Images(entries), Complete(entries), want, platform);
    var after := Best(Images(rest), Complete(rest), want, platform);
    if before.Some? {
      CandidateIsInGroup(entries, want, platform, before.value);
      NewestIsNewest(Images(entries), Complete(entries), k);
      var n := Newest(Images(entries), Complete(entries), k).value;
      var e := EntryOf(entries, n);
      KeeperStays(entries, held, k, e);
      CandidateIsInGroup(entries, want, platform, n);
      CandidatesAfter(entries, removed, want, platform, n);
    }
    if after.Some? {
      CandidatesAfter(entries, removed, want, platform, after.value);
    }
    hide After, Images, Complete, Best, Newest, Candidate, Listed, Keyed, Rising, Target;
  }

  // ----- the same answer -----

  ghost predicate AllTargets(entries: seq<Entry>, held: set<Text>, removed: set<Text>) {
    forall e | e in entries :: e.name in removed <==> Target(entries, held, false, e)
  }

  ghost predicate IsAnswer(entries: seq<Entry>, want: Reference, platform: Text, b: Image) {
    Best(Images(entries), Complete(entries), want, platform) == Some(b)
  }

  /** A complete image of the same name and platform was pulled later, or at the same time with a larger digest. */
  ghost predicate Outdated(entries: seq<Entry>, b: Image) {
    exists i :: i in Images(entries) && InGroup(i, Complete(entries), KeyOf(b)) && Newer(i, b)
  }

  lemma SupersededIff(entries: seq<Entry>, b: Image)
    requires Listed(entries) && Keyed(entries) && b in Images(entries)
    ensures IsSuperseded(Images(entries), Complete(entries), b.digest)
            <==> Supersedes(Images(entries), Complete(entries), b)
  {
    forall i | i in Images(entries) && i.digest == b.digest ensures i == b {
      OneRecord(entries, i, b);
    }
    hide Images, Complete, Newest, Supersedes;
  }

  lemma OutdatedIff(entries: seq<Entry>, b: Image)
    requires Listed(entries) && Keyed(entries) && b in Images(entries) && b.digest in Complete(entries)
    ensures Supersedes(Images(entries), Complete(entries), b) <==> Outdated(entries, b)
  {
    NewestIsNewest(Images(entries), Complete(entries), KeyOf(b));
    assert InGroup(b, Complete(entries), KeyOf(b));
    var n := Newest(Images(entries), Complete(entries), KeyOf(b)).value;
    if n.digest == b.digest {
      OneRecord(entries, n, b);
    }
    hide Images, Complete, Newest;
  }

  lemma AnswerIs(entries: seq<Entry>, want: Reference, platform: Text, b: Image)
    requires Listed(entries) && Keyed(entries) && IsAnswer(entries, want, platform, b)
    ensures Cached(entries, want, platform) == Some(b.digest)
    ensures IsPick(Images(entries), Complete(entries), want, platform, b)
  {
    ImagesRise(entries);
    BestIsPick(Images(entries), Complete(entries), want, platform);
  }

  lemma RemovedIff(entries: seq<Entry>, held: set<Text>, removed: set<Text>, c: Image)
    requires Listed(entries) && Keyed(entries) && AllTargets(entries, held, removed)
    requires c in Images(entries) && c.digest in Complete(entries)
    ensures c.digest !in removed <==> c.digest in held || !Outdated(entries, c)
  {
    var e := EntryOf(entries, c);
    SupersededIff(entries, c);
    OutdatedIff(entries, c);
    assert Recorded(Images(entries), c.digest);
    hide Images, Complete, Listed, Keyed, IsSuperseded, Supersedes, Outdated, Recorded;
  }

  /** After a whole prune any reference is answered exactly when some image that answered it was held or current. */
  lemma AnsweredIff(entries: seq<Entry>, held: set<Text>, removed: set<Text>, want: Reference, platform: Text)
    requires Listed(entries) && Keyed(entries) && AllTargets(entries, held, removed)
    ensures Cached(After(entries, removed), want, platform).Some?
            <==> exists c :: c in Images(entries) && Candidate(c, Complete(entries), want, platform)
                             && (c.digest in held || !Outdated(entries, c))
  {
    var rest := After(entries, removed);
    AfterIsKeyed(entries, removed);
    ImagesRise(rest);
    BestIsPick(Images(rest), Complete(rest), want, platform);
    forall c | c in Images(entries) && Candidate(c, Complete(entries), want, platform)
      ensures c.digest !in removed <==> c.digest in held || !Outdated(entries, c)
    {
      RemovedIff(entries, held, removed, c);
    }
    forall c ensures c in Images(rest) && Candidate(c, Complete(rest), want, platform)
                     <==> c in Images(entries) && Candidate(c, Complete(entries), want, platform)
                          && c.digest !in removed {
      CandidatesAfter(entries, removed, want, platform, c);
    }
    hide After, Images, Complete, Best, Candidate, Listed, Keyed, Outdated, AllTargets;
  }

  /**
    After a whole prune any reference, a name or a pin, keeps its answer exactly when that image is held by
    an instance or is not outdated by another of its own name.
   */
  lemma AnswerStaysIff(entries: seq<Entry>, held: set<Text>, removed: set<Text>,
                       want: Reference, platform: Text, b: Image)
    requires Listed(entries) && Keyed(entries) && AllTargets(entries, held, removed)
    requires IsAnswer(entries, want, platform, b)
    ensures Cached(After(entries, removed), want, platform) == Some(b.digest)
            <==> b.digest in held || !Outdated(entries, b)
  {
    SameAnswerIff(entries, removed, want, platform);
    AnswerIs(entries, want, platform, b);
    RemovedIff(entries, held, removed, b);
    hide After, Images, Best, Cached, Listed, Keyed, Outdated, AllTargets;
  }

  /** No other complete image of the same name and platform was pulled at the same time. */
  ghost predicate AloneInTime(entries: seq<Entry>, b: Image) {
    forall i | i in Images(entries) && InGroup(i, Complete(entries), KeyOf(b)) && i.pulledAt == b.pulledAt :: i == b
  }

  /** For a name the only way to lose the answer is a tie in pull times. */
  lemma NameStaysIff(entries: seq<Entry>, held: set<Text>, removed: set<Text>,
                     want: Reference, platform: Text, b: Image)
    requires Listed(entries) && Keyed(entries) && NameOnly(entries, want) && AllTargets(entries, held, removed)
    requires IsAnswer(entries, want, platform, b)
    ensures Cached(After(entries, removed), want, platform) == Some(b.digest)
            <==> b.digest in held || AloneInTime(entries, b)
  {
    AnswerStaysIff(entries, held, removed, want, platform, b);
    AnswerIs(entries, want, platform, b);
    CandidateIsInGroup(entries, want, platform, b);
    forall i | i in Images(entries) && InGroup(i, Complete(entries), KeyOf(b))
      ensures Newer(i, b) <==> i.pulledAt == b.pulledAt && i != b
    {
      CandidateIsInGroup(entries, want, platform, i);
      if i.digest == b.digest {
        OneRecord(entries, i, b);
      }
    }
    hide After, Images, Complete, Best, Cached, Candidate, Listed, Keyed;
  }

  /** A pin that one image answers has an answer afterwards exactly when that image stays. */
  lemma PinStaysIff(entries: seq<Entry>, held: set<Text>, removed: set<Text>,
                    want: Reference, platform: Text, b: Image)
    requires Listed(entries) && Keyed(entries) && AllTargets(entries, held, removed)
    requires IsAnswer(entries, want, platform, b)
    requires forall c | c in Images(entries) && Candidate(c, Complete(entries), want, platform) :: c == b
    ensures Cached(After(entries, removed), want, platform)
            == if b.digest in held || !Outdated(entries, b) then Some(b.digest) else None
  {
    AnswerStaysIff(entries, held, removed, want, platform, b);
    AnsweredIff(entries, held, removed, want, platform);
    hide After, Images, Complete, Cached, Candidate, Listed, Keyed, Outdated, AllTargets;
  }

  /** No two complete images of the group were pulled at the same time. */
  ghost predicate DistinctTimes(entries: seq<Entry>, k: Key) {
    forall a, b | a in Images(entries) && b in Images(entries) && InGroup(a, Complete(entries), k)
                  && InGroup(b, Complete(entries), k) && a.pulledAt == b.pulledAt :: a == b
  }

  /** With distinct pull times, prune never changes what a name is answered with. */
  lemma DistinctTimesAgree(entries: seq<Entry>, held: set<Text>, removed: set<Text>, want: Reference, platform: Text)
    requires Listed(entries) && Keyed(entries) && NameOnly(entries, want) && AllTargets(entries, held, removed)
    requires DistinctTimes(entries, Key(want.raw, platform))
    ensures Cached(After(entries, removed), want, platform) == Cached(entries, want, platform)
  {
    SameAnswerIff(entries, removed, want, platform);
    var best := Best(Images(entries), Complete(entries), want, platform);
    if best.Some? {
      AnswerIs(entries, want, platform, best.value);
      CandidateIsInGroup(entries, want, platform, best.value);
      NameStaysIff(entries, held, removed, want, platform, best.value);
    }
    hide After, Images, Best, Candidate, Listed, Keyed, Complete;
  }

  /** The image is complete, for this platform, and what the reference names. */
  ghost predicate Wanted(entries: seq<Entry>, want: Reference, platform: Text, b: Image) {
    && b in Images(entries) && b.digest in Complete(entries)
    && (b.platform == Some(platform) || (b.platform.None? && platform == DEFAULT_PLATFORM))
    && (|| b.ref == want.raw || b.digest == want.raw
        || (b.repository.Some? && b.repository == want.repository
            && (want.digest == Some(b.digest) || (want.digest.Some? && want.digest == b.index))))
  }

  /** A reference is answered exactly when some image is wanted, and by one of the latest pulled of those. */
  lemma AnswerIsWanted(entries: seq<Entry>, want: Reference, platform: Text)
    requires Listed(entries) && Keyed(entries)
    ensures Cached(entries, want, platform).Some? <==> exists b :: Wanted(entries, want, platform, b)
    ensures Cached(entries, want, platform).Some? ==>
              exists b :: Wanted(entries, want, platform, b) && b.digest == Cached(entries, want, platform).value
                          && forall c | Wanted(entries, want, platform, c) :: c.pulledAt <= b.pulledAt
  {
    ImagesRise(entries);
    BestIsPick(Images(entries), Complete(entries), want, platform);
    forall b ensures Wanted(entries, want, platform, b)
                     <==> b in Images(entries) && Candidate(b, Complete(entries), want, platform) {
    }
    hide Images, Complete, Best, Candidate, Wanted, Listed, Keyed;
  }

  // ----- what goes -----

  lemma RecordedIff(entries: seq<Entry>, e: Entry)
    requires Listed(entries) && Keyed(entries) && e in entries
    ensures Recorded(Images(entries), e.name) <==> e.record.Some?
    ensures e.record.Some? ==> e.record.value in Images(entries)
    ensures e.name in Complete(entries) <==> e.complete
  {
    ImagesHold(entries);
    forall f | f in entries && f.name == e.name ensures f == e {
      var i :| 0 <= i < |entries| && entries[i] == e;
      var j :| 0 <= j < |entries| && entries[j] == f;
      assert i == j;
    }
    if Recorded(Images(entries), e.name) {
      var i :| i in Images(entries) && i.digest == e.name;
      var f :| f in entries && f.record == Some(i);
    }
    hide Images;
  }

  /**
    What prune takes, directory by directory: never one an instance holds; one without a readable record if its
    name is a digest; otherwise everything with --all, and else what is unusable or outdated.
   */
  lemma TargetIff(entries: seq<Entry>, held: set<Text>, all: bool, e: Entry)
    requires Listed(entries) && Keyed(entries) && e in entries
    ensures Target(entries, held, all, e) <==>
            && e.name !in held
            && (if e.record.None? then e.isDigest else all || !e.complete || Outdated(entries, e.record.value))
  {
    RecordedIff(entries, e);
    if e.record.Some? {
      SupersededIff(entries, e.record.value);
      if e.complete {
        OutdatedIff(entries, e.record.value);
      }
    }
    hide Images, Complete, Listed, Keyed, IsSuperseded, Supersedes, Outdated, Recorded;
  }

  // ----- where they disagree -----

  /** A store of two images. */
  function Two(a: Image, b: Image): seq<Entry> {
    [Entry(a.digest, true, Some(a), true), Entry(b.digest, true, Some(b), true)]
  }

  lemma TwoImages(a: Image, b: Image)
    requires a.digest < b.digest
    ensures Listed(Two(a, b)) && Keyed(Two(a, b))
    ensures forall i :: i in Images(Two(a, b)) <==> i == a || i == b
    ensures Complete(Two(a, b)) == {a.digest, b.digest}
  {
    var s := Two(a, b);
    assert s[0] in s && s[1] in s;
    ImagesHold(s);
    hide Images;
    assert s[0].record == Some(a) && s[1].record == Some(b);
  }

  /** The later of two images of one group supersedes the other, and only that other. */
  lemma TwoTargets(a: Image, b: Image, removed: set<Text>)
    requires a.digest < b.digest && KeyOf(a) == KeyOf(b) && a.pulledAt <= b.pulledAt
    requires AllTargets(Two(a, b), {}, removed)
    ensures a.digest in removed && b.digest !in removed
  {
    var s := Two(a, b);
    TwoImages(a, b);
    NewestIsNewest(Images(s), Complete(s), KeyOf(a));
    assert Newer(b, a);
    assert Newest(Images(s), Complete(s), KeyOf(a)) == Some(b);
    SupersededIff(s, a);
    SupersededIff(s, b);
    assert s[0] in s && s[1] in s;
    assert Recorded(Images(s), a.digest) && Recorded(Images(s), b.digest);
    hide Images, Complete, Newest, IsSuperseded, Recorded;
  }

  /**
    Two images of one name pulled at the same instant: run answers with the first listed, prune removes
    exactly that one, and run then answers with the other.
   */
  lemma TieDisagrees(a: Image, b: Image, want: Reference, removed: set<Text>)
    requires a.digest < b.digest && KeyOf(a) == KeyOf(b) && a.pulledAt == b.pulledAt && want.raw == a.ref
    requires AllTargets(Two(a, b), {}, removed)
    ensures Cached(Two(a, b), want, PlatformOf(a)) == Some(a.digest)
    ensures Cached(After(Two(a, b), removed), want, PlatformOf(a)) == Some(b.digest)
  {
    hide Two, Images, Complete, Best, After, Listed, Keyed, Rising, AllTargets;
    var s, p := Two(a, b), PlatformOf(a);
    var rest := After(s, removed);
    TwoImages(a, b);
    TwoTargets(a, b, removed);
    assert Candidate(a, Complete(s), want, p) && Candidate(b, Complete(s), want, p);
    hide Candidate;
    ImagesRise(s);
    BestIsPick(Images(s), Complete(s), want, p);
    AfterIsKeyed(s, removed);
    ImagesRise(rest);
    BestIsPick(Images(rest), Complete(rest), want, p);
    CandidatesAfter(s, removed, want, p, b);
    var after := Best(Images(rest), Complete(rest), want, p);
    assert after.Some?;
    CandidatesAfter(s, removed, want, p, after.value);
  }

  /** An image pulled under a tag and pinned by its digest: once the tag moves on, prune takes the pin's answer. */
  lemma PinLosesAnswer(a: Image, b: Image, want: Reference, removed: set<Text>)
    requires a.digest < b.digest && KeyOf(a) == KeyOf(b) && a.pulledAt < b.pulledAt
    requires want.digest == Some(a.digest) && want.repository == a.repository && a.repository.Some?
    requires b.index != Some(a.digest) && b.ref != want.raw && b.digest != want.raw
    requires AllTargets(Two(a, b), {}, removed)
    ensures Cached(Two(a, b), want, PlatformOf(a)) == Some(a.digest)
    ensures Cached(After(Two(a, b), removed), want, PlatformOf(a)).None?
  {
    hide Two, Images, Complete, Best, After, Listed, Keyed, Rising, AllTargets;
    var s, p := Two(a, b), PlatformOf(a);
    TwoImages(a, b);
    assert Candidate(a, Complete(s), want, p) && !Candidate(b, Complete(s), want, p);
    hide Candidate;
    ImagesRise(s);
    BestIsPick(Images(s), Complete(s), want, p);
    assert Outdated(s, a) by {
      assert Newer(b, a);
    }
    PinStaysIff(s, {}, removed, want, p, a);
  }
}
