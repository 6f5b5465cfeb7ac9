/**
  The rewrite as the source runs it: loops over entries and paths, one list of staged files that the
  whole recursion appends to, and a chain of files that grows on the way down.
 */
module IncludeRewriter {
  import opened Common
  import opened Includes

  class Rewriter {
    const disk: Disk
    var staged: seq<Staged>

    constructor (disk: Disk)
      ensures this.disk == disk && staged == []
    {
      this.disk := disk;
      staged := [];
    }

    /** stripIncludesAtLevel. */
    method StripLevel(dir: Dir, doc: Doc, chain: set<Path>) returns (rewritten: Doc, changed: bool)
      requires UserDisk(disk) && UserDoc(doc)
      modifies this
      ensures Stripped(rewritten, changed, staged) == Strip(disk, dir, doc, chain, old(staged))
      decreases disk.files.Keys - chain, 2, 0
    {
      rewritten, changed := doc, false;
      if doc.NotAMapping? {
        return;
      }
      var listed := doc.listed;
      if listed.List? {
        var kept, entriesChanged := StripList(dir, listed.entries, chain);
        if entriesChanged {
          changed := true;
          listed := if kept == [] then Unset else List(kept);
        }
      }
      var services, servicesChanged := StripExtends(dir, doc.services);
      rewritten := Doc(listed, services, doc.rest);
      changed := changed || servicesChanged;
    }

    /** The loop over the entries of one include: list. */
    method StripList(dir: Dir, es: seq<Entry>, chain: set<Path>) returns (kept: seq<Entry>, changed: bool)
      requires UserDisk(disk) && UserEntries(es)
      modifies this
      ensures StrippedEntries(kept, changed, staged) == StripEntries(disk, dir, es, chain, old(staged))
      decreases disk.files.Keys - chain, 1, |es|
    {
      kept, changed := [], false;
      var i := 0;
      assert es[0..] == es;
      while i < |es|
        invariant 0 <= i <= |es|
        invariant ResumedEntries(disk, dir, es[i..], chain, kept, changed, staged) ==
                  StripEntries(disk, dir, es, chain, old(staged))
      {
        var ok, refs, entryChanged := ResolveEntry(dir, es[i].paths, chain);
        assert es[i..][1..] == es[i + 1..];
        if ok {
          assert kept + ([Entry(refs)] + StripEntries(disk, dir, es[i + 1..], chain, staged).kept) ==
                 (kept + [Entry(refs)]) + StripEntries(disk, dir, es[i + 1..], chain, staged).kept;
          kept := kept + [Entry(refs)];
          changed := changed || entryChanged;
        } else {
          changed := true;
        }
        i := i + 1;
      }
    }

    /** resolveIncludeEntry and resolveIncludeTarget. */
    method ResolveEntry(dir: Dir, rs: seq<Ref>, chain: set<Path>) returns (ok: bool, refs: seq<Ref>, changed: bool)
      requires UserDisk(disk) && forall r | r in rs :: UserRef(r)
      modifies this
      ensures var r := StripPaths(disk, dir, rs, chain, old(staged));
              ok == r.ok && staged == r.staged && (ok ==> refs == r.refs && changed == r.changed)
      decreases disk.files.Keys - chain, 0, |rs|
    {
      refs, changed := [], false;
      var i := 0;
      assert rs[0..] == rs;
      while i < |rs|
        invariant 0 <= i <= |rs|
        invariant Agrees(ResumedPaths(disk, dir, rs[i..], chain, refs, changed, staged),
                         StripPaths(disk, dir, rs, chain, old(staged)))
      {
        var p := Target(disk, dir, rs[i]);
        assert rs[i..][0] == rs[i] && rs[i..][1..] == rs[i + 1..];
        if p in chain {
          return false, [], false;
        }
        if !Parses(disk, p) {
          return false, [], false;
        }
        var rewritten, targetChanged := StripLevel(p.dir, disk.files[p].doc, chain + {p});
        var ref := rs[i];
        if targetChanged {
          ref := StagedCopy(|staged|);
          staged := staged + [Staged(p.dir, rewritten)];
          changed := true;
        }
        assert refs + ([ref] + StripPaths(disk, dir, rs[i + 1..], chain, staged).refs) ==
               (refs + [ref]) + StripPaths(disk, dir, rs[i + 1..], chain, staged).refs;
        refs := refs + [ref];
        i := i + 1;
      }
      ok := true;
    }

    /** stripUnreadableExtends: a service loses its extends exactly when the file does not parse, and nothing else. */
    method StripExtends(dir: Dir, ss: seq<Service>) returns (services: seq<Service>, changed: bool)
      ensures services == ReadableAll(disk, dir, ss) && changed == (services != ss)
      ensures |services| == |ss| && forall i | 0 <= i < |ss| ::
                && services[i].name == ss[i].name && services[i].body == ss[i].body
                && services[i].base
                   == if ss[i].base.InFile? &&
                         !(UserRef(ss[i].base.file) && Parses(disk, Target(disk, dir, ss[i].base.file)))
                      then NoBase else ss[i].base
    {
      services, changed := [], false;
      ReadableSame(disk, dir, ss);
      for i := 0 to |ss|
        invariant services == ReadableAll(disk, dir, ss)[..i]
        invariant changed == (services != ss[..i])
      {
        var s := ss[i];
        if !BaseParses(disk, dir, s) {
          s := s.(base := NoBase);
          changed := true;
        }
        services := services + [s];
        assert ss[..i + 1] == ss[..i] + [ss[i]];
        assert services[i] == s && services[..i] == ReadableAll(disk, dir, ss)[..i];
      }
      assert ss[..|ss|] == ss;
    }
  }

  /** The result of a loop over the entries that has kept some and goes on with `rest`. */
  ghost function ResumedEntries(
    d: Disk, dir: Dir, rest: seq<Entry>, chain: set<Path>, kept: seq<Entry>, changed: bool, staged: seq<Staged>)
    : StrippedEntries
    requires UserDisk(d) && UserEntries(rest)
  {
    var r := StripEntries(d, dir, rest, chain, staged);
    StrippedEntries(kept + r.kept, changed || r.changed, r.staged)
  }

  ghost function ResumedPaths(
    d: Disk, dir: Dir, rest: seq<Ref>, chain: set<Path>, refs: seq<Ref>, changed: bool, staged: seq<Staged>)
    : StrippedPaths
    requires UserDisk(d) && forall r | r in rest :: UserRef(r)
  {
    var r := StripPaths(d, dir, rest, chain, staged);
    StrippedPaths(r.ok, refs + r.refs, changed || r.changed, r.staged)
  }

  /** A dropped entry keeps nothing but what was staged on the way. */
  ghost predicate Agrees(a: StrippedPaths, b: StrippedPaths) {
    a.ok == b.ok && a.staged == b.staged && (a.ok ==> a == b)
  }
}
