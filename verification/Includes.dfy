/**
  Reloading a compose project whose `include:` and `extends:` files may have drifted.

  Strip rewrites a document so that a strict loader accepts it: entries that name an unreadable,
  unparseable or cyclic file are dropped, at any depth, and a file that needed rewriting is staged
  beside the original. Load is the strict loader as hull relies on it, which follows a service's
  `extends` through every file it leads to; Tolerant says what the documents mean when broken entries
  are ignored. The theorems are that loading the rewritten document is exactly that, exactly when the
  reload succeeds, and that a project with nothing broken is left alone.
 */
module Includes {
  import opened Common

  // Directories, file names and relative spellings are only compared and looked up.
  type Dir = nat

  datatype Path = Path(dir: Dir, name: nat)

  /** How a document names a file: relative to its own directory, absolutely, or a staged copy. */
  datatype Ref = Relative(spelling: nat) | Absolute(p: Path) | StagedCopy(k: nat)

  /** One include: entry. One whose shape cannot be read has no paths, and is left to the loader. */
  datatype Entry = Entry(paths: seq<Ref>)

  datatype Include = Unset | NotAList | List(entries: seq<Entry>)

  /** What a service extends: nothing, a service of the same file, or one of another file. */
  datatype Extends = NoBase | Here(service: nat) | InFile(file: Ref, service: nat)

  /** A service; `body` stands for the rest of its definition. */
  datatype Service = Service(name: nat, body: nat, base: Extends)

  /** A parsed file; `rest` stands for everything the rewrite does not touch. */
  datatype Doc = NotAMapping | Doc(listed: Include, services: seq<Service>, rest: nat)

  datatype File = Garbage | Yaml(doc: Doc)

  /** A rewritten copy, written beside the file it replaces. */
  datatype Staged = Staged(dir: Dir, doc: Doc)

  /** The readable files, and how a relative name resolves from a directory. */
  datatype Disk = Disk(files: map<Path, File>, join: (Dir, nat) -> Path)

  // Documents on disk do not name staged copies, whose names are made up as they are written.
  predicate UserRef(r: Ref) { !r.StagedCopy? }

  predicate UserDoc(doc: Doc) {
    doc.Doc? ==>
      && (forall s | s in doc.services && s.base.InFile? :: UserRef(s.base.file))
      && (doc.listed.List? ==> UserEntries(doc.listed.entries))
  }

  predicate UserEntries(es: seq<Entry>) {
    forall e, r | e in es && r in e.paths :: UserRef(r)
  }

  ghost predicate UserDisk(d: Disk) {
    forall p | p in d.files && d.files[p].Yaml? :: UserDoc(d.files[p].doc)
  }

  function Target(d: Disk, dir: Dir, r: Ref): Path
    requires UserRef(r)
  {
    match r
    case Relative(sp) => d.join(dir, sp)
    case Absolute(p) => p
  }

  /** fileReadsAndParses. */
  predicate Parses(d: Disk, p: Path) { p in d.files && d.files[p].Yaml? }

  // ----- what a document means -----

  /** A service's definition over the one it extends, each read from the directory it is written in. */
  datatype Def = Def(dir: Dir, body: nat, base: Option<Def>)

  datatype Named = Named(name: nat, def: Def)

  /** A loaded document: its own content, read from its directory, and what each entry brought in. */
  datatype Meaning = Meaning(dir: Dir, rest: nat, services: seq<Named>, includes: seq<seq<Meaning>>)

  function Over(dir: Dir, s: Service, base: Option<Def>): Option<Def> {
    if base.None? then None else Some(Def(dir, s.body, base))
  }

  function Find(ss: seq<Service>, name: nat): (r: Option<Service>)
    ensures r.Some? ==> r.value in ss && r.value.name == name
  {
    if ss == [] then None else if ss[0].name == name then Some(ss[0]) else Find(ss[1..], name)
  }

  /** The services of a file that parses to a mapping. */
  function ServicesIn(d: Disk, p: Path): seq<Service> {
    if Parses(d, p) && d.files[p].doc.Doc? then d.files[p].doc.services else []
  }

  ghost function Declared(d: Disk): set<(Path, nat)> {
    set p, s | p in d.files && s in ServicesIn(d, p) :: (p, s.name)
  }

  /** A service of a file on disk, through all it extends. A missing one, or one met before, is an error. */
  ghost function DefIn(d: Disk, p: Path, name: nat, seen: set<(Path, nat)>): Option<Def>
    decreases Declared(d) - seen
  {
    var found := Find(ServicesIn(d, p), name);
    if (p, name) in seen || found.None? then None
    else
      var s := found.value;
      assert (p, name) in Declared(d);
      match s.base
      case NoBase => Some(Def(p.dir, s.body, None))
      case Here(n) => Over(p.dir, s, DefIn(d, p, n, seen + {(p, name)}))
      case InFile(r, n) =>
        if !UserRef(r) then None else Over(p.dir, s, DefIn(d, Target(d, p.dir, r), n, seen + {(p, name)}))
  }

  function Names(ss: seq<Service>): set<nat> { set s | s in ss :: s.name }

  /** A service of the document being loaded, which may be a rewritten one. */
  ghost function DefOf(d: Disk, dir: Dir, all: seq<Service>, s: Service, seen: set<nat>): Option<Def>
    decreases Names(all) - seen
  {
    match s.base
    case NoBase => Some(Def(dir, s.body, None))
    case Here(n) =>
      if n in seen || Find(all, n).None? then None
      else
        assert n in Names(all);
        Over(dir, s, DefOf(d, dir, all, Find(all, n).value, seen + {n}))
    case InFile(r, n) => if !UserRef(r) then None else Over(dir, s, DefIn(d, Target(d, dir, r), n, {}))
  }

  ghost function DefsOf(d: Disk, dir: Dir, all: seq<Service>, ss: seq<Service>): Option<seq<Named>> {
    if ss == [] then Some([])
    else
      match (DefOf(d, dir, all, ss[0], {}), DefsOf(d, dir, all, ss[1..]))
      case (Some(def), Some(rest)) => Some([Named(ss[0].name, def)] + rest)
      case _ => None
  }

  lemma {:induction false} DefsOfAll(d: Disk, dir: Dir, all: seq<Service>, ss: seq<Service>)
    ensures DefsOf(d, dir, all, ss).Some? <==> forall s | s in ss :: DefOf(d, dir, all, s, {}).Some?
  {
    if ss != [] {
      DefsOfAll(d, dir, all, ss[1..]);
      assert ss[0] in ss && forall s :: s in ss <==> s == ss[0] || s in ss[1..];
      assert DefsOf(d, dir, all, ss).Some?
        <==> DefOf(d, dir, all, ss[0], {}).Some? && DefsOf(d, dir, all, ss[1..]).Some?;
      hide DefsOf, DefOf;
    }
  }

  /** The file a service's `extends` names parses. Nothing of what is in it is looked at. */
  predicate BaseParses(d: Disk, dir: Dir, s: Service) {
    s.base.InFile? ==> UserRef(s.base.file) && Parses(d, Target(d, dir, s.base.file))
  }

  lemma DefParses(d: Disk, dir: Dir, all: seq<Service>, s: Service)
    requires DefOf(d, dir, all, s, {}).Some?
    ensures BaseParses(d, dir, s)
  {
  }

  // ----- the strict loader -----

  datatype Key = User(p: Path) | Temp(k: nat)

  function KeyOf(d: Disk, dir: Dir, r: Ref): Key {
    if r.StagedCopy? then Temp(r.k) else User(Target(d, dir, r))
  }

  function Universe(d: Disk, f: seq<Staged>): set<Key> {
    (set p | p in d.files :: User(p)) + (set k | 0 <= k < |f| :: Temp(k))
  }

  ghost function Load(d: Disk, f: seq<Staged>, dir: Dir, doc: Doc, chain: set<Key>): Option<Meaning>
    decreases Universe(d, f) - chain, 3, 0
  {
    if doc.NotAMapping? || doc.listed.NotAList? then None
    else
      var es := if doc.listed.List? then doc.listed.entries else [];
      match (DefsOf(d, dir, doc.services, doc.services), LoadEntries(d, f, dir, es, chain))
      case (Some(defs), Some(ms)) => Some(Meaning(dir, doc.rest, defs, ms))
      case _ => None
  }

  ghost function LoadEntries(
    d: Disk, f: seq<Staged>, dir: Dir, es: seq<Entry>, chain: set<Key>): Option<seq<seq<Meaning>>>
    decreases Universe(d, f) - chain, 2, |es|
  {
    if es == [] then Some([])
    else if es[0].paths == [] then None
    else
      match (LoadPaths(d, f, dir, es[0].paths, chain), LoadEntries(d, f, dir, es[1..], chain))
      case (Some(m), Some(ms)) => Some([m] + ms)
      case _ => None
  }

  ghost function LoadPaths(d: Disk, f: seq<Staged>, dir: Dir, rs: seq<Ref>, chain: set<Key>): Option<seq<Meaning>>
    decreases Universe(d, f) - chain, 1, |rs|
  {
    if rs == [] then Some([])
    else
      match (LoadKey(d, f, KeyOf(d, dir, rs[0]), chain), LoadPaths(d, f, dir, rs[1..], chain))
      case (Some(m), Some(ms)) => Some([m] + ms)
      case _ => None
  }

  /** A file already being loaded is a cycle; a missing or unparseable one is an error. */
  ghost function LoadKey(d: Disk, f: seq<Staged>, key: Key, chain: set<Key>): Option<Meaning>
    decreases Universe(d, f) - chain, 0, 0
  {
    if key in chain then None
    else
      match key
      case User(p) =>
        if !Parses(d, p) then None
        else
          assert key in Universe(d, f);
          Load(d, f, p.dir, d.files[p].doc, chain + {key})
      case Temp(k) =>
        if k >= |f| then None
        else
          assert key in Universe(d, f);
          Load(d, f, f[k].dir, f[k].doc, chain + {key})
  }

  // ----- the tolerant meaning -----

  predicate Usable(d: Disk, dir: Dir, r: Ref, chain: set<Path>)
    requires UserRef(r)
  {
    Target(d, dir, r) !in chain && Parses(d, Target(d, dir, r))
  }

  predicate AllUsable(d: Disk, dir: Dir, rs: seq<Ref>, chain: set<Path>)
    requires forall r | r in rs :: UserRef(r)
  {
    forall r | r in rs :: Usable(d, dir, r, chain)
  }

  function Readable(d: Disk, dir: Dir, s: Service): Service {
    if BaseParses(d, dir, s) then s else s.(base := NoBase)
  }

  function ReadableAll(d: Disk, dir: Dir, ss: seq<Service>): seq<Service> {
    if ss == [] then [] else [Readable(d, dir, ss[0])] + ReadableAll(d, dir, ss[1..])
  }

  /**
    The meaning with broken include entries and unreadable extends files ignored. None for a malformed
    document, and for a service whose extends leads on from a readable file to something broken.
   */
  ghost function Tolerant(d: Disk, dir: Dir, doc: Doc, chain: set<Path>): Option<Meaning>
    requires UserDisk(d) && UserDoc(doc)
    decreases d.files.Keys - chain, 2, 0
  {
    if doc.NotAMapping? || doc.listed.NotAList? then None
    else
      var es := if doc.listed.List? then doc.listed.entries else [];
      var ss := ReadableAll(d, dir, doc.services);
      match (DefsOf(d, dir, ss, ss), TolerantEntries(d, dir, es, chain))
      case (Some(defs), Some(ms)) => Some(Meaning(dir, doc.rest, defs, ms))
      case _ => None
  }

  ghost function TolerantEntries(d: Disk, dir: Dir, es: seq<Entry>, chain: set<Path>): Option<seq<seq<Meaning>>>
    requires UserDisk(d) && UserEntries(es)
    decreases d.files.Keys - chain, 1, |es|
  {
    if es == [] then Some([])
    else if es[0].paths == [] then None
    else if !AllUsable(d, dir, es[0].paths, chain) then TolerantEntries(d, dir, es[1..], chain)
    else
      match (TolerantPaths(d, dir, es[0].paths, chain), TolerantEntries(d, dir, es[1..], chain))
      case (Some(m), Some(ms)) => Some([m] + ms)
      case _ => None
  }

  ghost function TolerantPaths(d: Disk, dir: Dir, rs: seq<Ref>, chain: set<Path>): Option<seq<Meaning>>
    requires UserDisk(d) && (forall r | r in rs :: UserRef(r)) && AllUsable(d, dir, rs, chain)
    decreases d.files.Keys - chain, 0, |rs|
  {
    if rs == [] then Some([])
    else
      assert Usable(d, dir, rs[0], chain);
      var p := Target(d, dir, rs[0]);
      match (Tolerant(d, p.dir, d.files[p].doc, chain + {p}), TolerantPaths(d, dir, rs[1..], chain))
      case (Some(m), Some(ms)) => Some([m] + ms)
      case _ => None
  }

  // ----- the rewrite -----

  datatype Stripped = Stripped(doc: Doc, changed: bool, staged: seq<Staged>)
  datatype StrippedEntries = StrippedEntries(kept: seq<Entry>, changed: bool, staged: seq<Staged>)
  datatype StrippedPaths = StrippedPaths(ok: bool, refs: seq<Ref>, changed: bool, staged: seq<Staged>)

  /** stripIncludesAtLevel: the rewritten document, whether it changed, and what has been staged so far. */
  ghost function Strip(d: Disk, dir: Dir, doc: Doc, chain: set<Path>, staged: seq<Staged>): Stripped
    requires UserDisk(d) && UserDoc(doc)
    decreases d.files.Keys - chain, 2, 0
  {
    if doc.NotAMapping? then Stripped(doc, false, staged)
    else
      var r := if doc.listed.List? then StripEntries(d, dir, doc.listed.entries, chain, staged)
               else StrippedEntries([], false, staged);
      var listed := if !r.changed then doc.listed else if r.kept == [] then Unset else List(r.kept);
      var services := ReadableAll(d, dir, doc.services);
      Stripped(Doc(listed, services, doc.rest), r.changed || services != doc.services, r.staged)
  }

  ghost function StripEntries(d: Disk, dir: Dir, es: seq<Entry>, chain: set<Path>, staged: seq<Staged>): StrippedEntries
    requires UserDisk(d) && UserEntries(es)
    decreases d.files.Keys - chain, 1, |es|
  {
    if es == [] then StrippedEntries([], false, staged)
    else
      var e := StripPaths(d, dir, es[0].paths, chain, staged);
      var rest := StripEntries(d, dir, es[1..], chain, e.staged);
      if e.ok then StrippedEntries([Entry(e.refs)] + rest.kept, e.changed || rest.changed, rest.staged)
      else StrippedEntries(rest.kept, true, rest.staged)
  }

  /** resolveIncludeEntry: stops at the first path that does not resolve. */
  ghost function StripPaths(d: Disk, dir: Dir, rs: seq<Ref>, chain: set<Path>, staged: seq<Staged>): StrippedPaths
    requires UserDisk(d) && forall r | r in rs :: UserRef(r)
    decreases d.files.Keys - chain, 0, |rs|
  {
    if rs == [] then StrippedPaths(true, [], false, staged)
    else if !Usable(d, dir, rs[0], chain) then StrippedPaths(false, [], false, staged)
    else
      var p := Target(d, dir, rs[0]);
      var t := Strip(d, p.dir, d.files[p].doc, chain + {p}, staged);
      var ref := if t.changed then StagedCopy(|t.staged|) else rs[0];
      var after := if t.changed then t.staged + [Staged(p.dir, t.doc)] else t.staged;
      var rest := StripPaths(d, dir, rs[1..], chain, after);
      StrippedPaths(rest.ok, [ref] + rest.refs, t.changed || rest.changed, rest.staged)
  }

  // ----- nothing changed means nothing touched -----

  lemma {:induction false} ReadableSame(d: Disk, dir: Dir, ss: seq<Service>)
    ensures |ReadableAll(d, dir, ss)| == |ss|
    ensures forall i | 0 <= i < |ss| :: ReadableAll(d, dir, ss)[i] == Readable(d, dir, ss[i])
  {
    if ss != [] {
      ReadableSame(d, dir, ss[1..]);
    }
  }

  lemma {:induction false} Unchanged(d: Disk, dir: Dir, doc: Doc, chain: set<Path>, staged: seq<Staged>)
    requires UserDisk(d) && UserDoc(doc)
    ensures var r := Strip(d, dir, doc, chain, staged);
            staged <= r.staged && (!r.changed ==> r.doc == doc && r.staged == staged)
    decreases d.files.Keys - chain, 2, 0
  {
    if doc.Doc? && doc.listed.List? {
      UnchangedEntries(d, dir, doc.listed.entries, chain, staged);
    }
  }

  lemma {:induction false} UnchangedEntries(d: Disk, dir: Dir, es: seq<Entry>, chain: set<Path>, staged: seq<Staged>)
    requires UserDisk(d) && UserEntries(es)
    ensures var r := StripEntries(d, dir, es, chain, staged);
            staged <= r.staged && (!r.changed ==> r.kept == es && r.staged == staged)
    decreases d.files.Keys - chain, 1, |es|
  {
    if es != [] {
      UnchangedPaths(d, dir, es[0].paths, chain, staged);
      UnchangedEntries(d, dir, es[1..], chain, StripPaths(d, dir, es[0].paths, chain, staged).staged);
    }
  }

  lemma {:induction false} UnchangedPaths(d: Disk, dir: Dir, rs: seq<Ref>, chain: set<Path>, staged: seq<Staged>)
    requires UserDisk(d) && forall r | r in rs :: UserRef(r)
    ensures var r := StripPaths(d, dir, rs, chain, staged);
            && staged <= r.staged
            && (r.ok <==> AllUsable(d, dir, rs, chain))
            && (r.ok ==> |r.refs| == |rs|)
            && (r.ok && !r.changed ==> r.refs == rs && r.staged == staged)
    decreases d.files.Keys - chain, 0, |rs|
  {
    if rs != [] && Usable(d, dir, rs[0], chain) {
      var p := Target(d, dir, rs[0]);
      Unchanged(d, p.dir, d.files[p].doc, chain + {p}, staged);
      var t := Strip(d, p.dir, d.files[p].doc, chain + {p}, staged);
      var after := if t.changed then t.staged + [Staged(p.dir, t.doc)] else t.staged;
      UnchangedPaths(d, dir, rs[1..], chain, after);
      assert AllUsable(d, dir, rs, chain) <==> AllUsable(d, dir, rs[1..], chain) by {
        assert forall r | r in rs :: r == rs[0] || r in rs[1..];
      }
    }
  }

  // ----- what is touched, and how -----

  /**
    The rewrite leaves everything of a document but its include list as it is, and of each service everything
    but an `extends` whose file does not parse.
   */
  lemma StripKeepsServices(d: Disk, dir: Dir, doc: Doc, chain: set<Path>, staged: seq<Staged>)
    requires UserDisk(d) && UserDoc(doc) && doc.Doc?
    ensures var r := Strip(d, dir, doc, chain, staged).doc;
            && r.Doc? && r.rest == doc.rest && |r.services| == |doc.services|
            && forall i | 0 <= i < |doc.services| ::
                 var s := doc.services[i];
                 && r.services[i].name == s.name && r.services[i].body == s.body
                 && r.services[i].base
                    == if s.base.InFile? && UserRef(s.base.file) && !Parses(d, Target(d, dir, s.base.file))
                       then NoBase else s.base
  {
    ReadableSame(d, dir, doc.services);
    forall i | 0 <= i < |doc.services| && doc.services[i].base.InFile? ensures UserRef(doc.services[i].base.file) {
      assert doc.services[i] in doc.services;
    }
    hide ReadableAll;
  }

  /** The entries none of whose files is missing, unparseable or already on the chain, in order. */
  ghost function Survivors(d: Disk, dir: Dir, es: seq<Entry>, chain: set<Path>): seq<Entry>
    requires UserEntries(es)
  {
    if es == [] then []
    else
      var rest := Survivors(d, dir, es[1..], chain);
      if forall r | r in es[0].paths :: Target(d, dir, r) !in chain && Parses(d, Target(d, dir, r))
      then [es[0]] + rest else rest
  }

  /** A path as written, or a copy staged in the directory of the file it names. */
  ghost predicate StandsFor(d: Disk, dir: Dir, now: Ref, was: Ref, staged: seq<Staged>)
    requires UserRef(was)
  {
    now == was || (now.StagedCopy? && now.k < |staged| && staged[now.k].dir == Target(d, dir, was).dir)
  }

  ghost predicate PathsStandFor(d: Disk, dir: Dir, now: seq<Ref>, was: seq<Ref>, staged: seq<Staged>)
    requires forall r | r in was :: UserRef(r)
  {
    |now| == |was| && forall j | 0 <= j < |now| :: StandsFor(d, dir, now[j], was[j], staged)
  }

  /** Exactly the surviving entries are kept, in order, path by path. */
  lemma {:induction false} StripKeepsEntries(d: Disk, dir: Dir, es: seq<Entry>, chain: set<Path>, staged: seq<Staged>)
    requires UserDisk(d) && UserEntries(es)
    ensures var r := StripEntries(d, dir, es, chain, staged);
            var kept := Survivors(d, dir, es, chain);
            && UserEntries(kept) && |r.kept| == |kept|
            && forall i | 0 <= i < |kept| :: PathsStandFor(d, dir, r.kept[i].paths, kept[i].paths, r.staged)
    decreases |es|
  {
    if es != [] {
      var e := StripPaths(d, dir, es[0].paths, chain, staged);
      var rest := StripEntries(d, dir, es[1..], chain, e.staged);
      UnchangedPaths(d, dir, es[0].paths, chain, staged);
      UnchangedEntries(d, dir, es[1..], chain, e.staged);
      StripKeepsEntries(d, dir, es[1..], chain, e.staged);
      if e.ok {
        StripKeepsPaths(d, dir, es[0].paths, chain, staged);
        LaterStandFor(d, dir, e.refs, es[0].paths, e.staged, rest.staged);
      }
      hide StripPaths, PathsStandFor;
    }
  }

  lemma LaterStandFor(d: Disk, dir: Dir, now: seq<Ref>, was: seq<Ref>, staged: seq<Staged>, later: seq<Staged>)
    requires (forall r | r in was :: UserRef(r)) && PathsStandFor(d, dir, now, was, staged) && staged <= later
    ensures PathsStandFor(d, dir, now, was, later)
  {
  }

  lemma {:induction false} StripKeepsPaths(d: Disk, dir: Dir, rs: seq<Ref>, chain: set<Path>, staged: seq<Staged>)
    requires UserDisk(d) && (forall r | r in rs :: UserRef(r)) && StripPaths(d, dir, rs, chain, staged).ok
    ensures var r := StripPaths(d, dir, rs, chain, staged);
            PathsStandFor(d, dir, r.refs, rs, r.staged)
    decreases |rs|
  {
    if rs != [] {
      var p := Target(d, dir, rs[0]);
      var t := Strip(d, p.dir, d.files[p].doc, chain + {p}, staged);
      var ref := if t.changed then StagedCopy(|t.staged|) else rs[0];
      var after := if t.changed then t.staged + [Staged(p.dir, t.doc)] else t.staged;
      var rest := StripPaths(d, dir, rs[1..], chain, after);
      UnchangedPaths(d, dir, rs[1..], chain, after);
      StripKeepsPaths(d, dir, rs[1..], chain, after);
      assert after <= rest.staged;
      assert StandsFor(d, dir, ref, rs[0], rest.staged);
      hide Strip;
    }
  }

  // ----- the rewrite preserves the tolerant meaning -----

  /** The loader's chain holds only files of the rewriter's chain, and copies staged later. */
  ghost predicate ChainOk(keys: set<Key>, chain: set<Path>, n: nat) {
    forall key | key in keys :: if key.User? then key.p in chain else key.k >= n
  }

  lemma {:induction false} StripLoads(
    d: Disk, dir: Dir, doc: Doc, chain: set<Path>, staged: seq<Staged>, f: seq<Staged>, keys: set<Key>)
    requires UserDisk(d) && UserDoc(doc)
    requires var r := Strip(d, dir, doc, chain, staged); r.staged <= f && ChainOk(keys, chain, |r.staged|)
    ensures Load(d, f, dir, Strip(d, dir, doc, chain, staged).doc, keys) == Tolerant(d, dir, doc, chain)
    decreases d.files.Keys - chain, 2, 0
  {
    hide DefsOf;
    if doc.Doc? {
      if doc.listed.List? {
        StripEntriesLoad(d, dir, doc.listed.entries, chain, staged, f, keys);
        UnchangedEntries(d, dir, doc.listed.entries, chain, staged);
      }
    }
  }

  lemma {:induction false} StripEntriesLoad(
    d: Disk, dir: Dir, es: seq<Entry>, chain: set<Path>, staged: seq<Staged>, f: seq<Staged>, keys: set<Key>)
    requires UserDisk(d) && UserEntries(es)
    requires var r := StripEntries(d, dir, es, chain, staged); r.staged <= f && ChainOk(keys, chain, |r.staged|)
    ensures LoadEntries(d, f, dir, StripEntries(d, dir, es, chain, staged).kept, keys)
            == TolerantEntries(d, dir, es, chain)
    decreases d.files.Keys - chain, 1, |es|
  {
    if es != [] {
      var e := StripPaths(d, dir, es[0].paths, chain, staged);
      UnchangedPaths(d, dir, es[0].paths, chain, staged);
      UnchangedEntries(d, dir, es[1..], chain, e.staged);
      var rest := StripEntries(d, dir, es[1..], chain, e.staged);
      StripEntriesLoad(d, dir, es[1..], chain, e.staged, f, keys);
      if e.ok {
        StripPathsLoad(d, dir, es[0].paths, chain, staged, f, keys);
        assert ([Entry(e.refs)] + rest.kept)[1..] == rest.kept;
      }
    }
  }

  lemma {:induction false} StripPathsLoad(
    d: Disk, dir: Dir, rs: seq<Ref>, chain: set<Path>, staged: seq<Staged>, f: seq<Staged>, keys: set<Key>)
    requires UserDisk(d) && (forall r | r in rs :: UserRef(r)) && AllUsable(d, dir, rs, chain)
    requires var r := StripPaths(d, dir, rs, chain, staged); r.ok && r.staged <= f && ChainOk(keys, chain, |r.staged|)
    ensures LoadPaths(d, f, dir, StripPaths(d, dir, rs, chain, staged).refs, keys) == TolerantPaths(d, dir, rs, chain)
    decreases d.files.Keys - chain, 0, |rs|
  {
    if rs != [] {
      assert Usable(d, dir, rs[0], chain);
      var p := Target(d, dir, rs[0]);
      var doc := d.files[p].doc;
      var t := Strip(d, p.dir, doc, chain + {p}, staged);
      var ref := if t.changed then StagedCopy(|t.staged|) else rs[0];
      var after := if t.changed then t.staged + [Staged(p.dir, t.doc)] else t.staged;
      var rest := StripPaths(d, dir, rs[1..], chain, after);
      Unchanged(d, p.dir, doc, chain + {p}, staged);
      UnchangedPaths(d, dir, rs[1..], chain, after);
      StripPathsLoad(d, dir, rs[1..], chain, after, f, keys);
      var key := KeyOf(d, dir, ref);
      assert key !in keys;
      StripLoads(d, p.dir, doc, chain + {p}, staged, f, keys + {key});
      assert LoadKey(d, f, key, keys) == Tolerant(d, p.dir, doc, chain + {p}) by {
        if t.changed {
          assert f[key.k] == after[key.k] == Staged(p.dir, t.doc);
        }
      }
      assert ([ref] + rest.refs)[1..] == rest.refs;
    }
  }

  /**
    Reloading a drifted project: strictly loading the rewritten document, with the staged copies in
    place, gives exactly the tolerant meaning of the original.
   */
  lemma RewriteKeepsMeaning(d: Disk, top: Path, doc: Doc)
    requires UserDisk(d) && UserDoc(doc)
    ensures var r := Strip(d, top.dir, doc, {top}, []);
            && Load(d, r.staged, top.dir, r.doc, {User(top)}) == Tolerant(d, top.dir, doc, {top})
            && (!r.changed ==> r.doc == doc && r.staged == [])
  {
    var r := Strip(d, top.dir, doc, {top}, []);
    Unchanged(d, top.dir, doc, {top}, []);
    StripLoads(d, top.dir, doc, {top}, [], r.staged, {User(top)});
  }

  // ----- exactly when the reload succeeds -----

  predicate WellShaped(doc: Doc) {
    doc.Doc? && !doc.listed.NotAList? && (doc.listed.List? ==> forall e | e in doc.listed.entries :: e.paths != [])
  }

  /** The document is well shaped, and every extends that is kept leads through files that load. */
  ghost predicate Sound(d: Disk, dir: Dir, doc: Doc) {
    WellShaped(doc) &&
    var ss := ReadableAll(d, dir, doc.services);
    forall s | s in ss :: DefOf(d, dir, ss, s, {}).Some?
  }

  /** An entry none of whose paths is broken names this file. */
  predicate Brings(d: Disk, dir: Dir, e: Entry, chain: set<Path>, p: Path)
    requires forall r | r in e.paths :: UserRef(r)
  {
    AllUsable(d, dir, e.paths, chain) && exists r | r in e.paths :: Target(d, dir, r) == p
  }

  ghost predicate BringsOne(d: Disk, dir: Dir, doc: Doc, chain: set<Path>, p: Path)
    requires UserDoc(doc)
  {
    doc.Doc? && doc.listed.List? && exists e | e in doc.listed.entries :: Brings(d, dir, e, chain, p)
  }

  /** The files of the trail include one another, from the document on, through unbroken entries. */
  ghost predicate Reaches(d: Disk, dir: Dir, doc: Doc, chain: set<Path>, trail: seq<Path>)
    requires UserDisk(d) && UserDoc(doc)
    decreases |trail|
  {
    trail == [] ||
    (BringsOne(d, dir, doc, chain, trail[0]) && Parses(d, trail[0]) &&
     Reaches(d, trail[0].dir, d.files[trail[0]].doc, chain + {trail[0]}, trail[1..]))
  }

  /** What the trail ends at is sound. */
  ghost predicate SoundAt(d: Disk, dir: Dir, doc: Doc, trail: seq<Path>) {
    if trail == [] then Sound(d, dir, doc)
    else
      var p := trail[|trail| - 1];
      Parses(d, p) && Sound(d, p.dir, d.files[p].doc)
  }

  ghost predicate AllSound(d: Disk, dir: Dir, doc: Doc, chain: set<Path>)
    requires UserDisk(d) && UserDoc(doc)
  {
    forall trail :: Reaches(d, dir, doc, chain, trail) ==> SoundAt(d, dir, doc, trail)
  }

  /** Soundness everywhere is soundness here and everywhere below each file brought in. */
  lemma AllSoundBelow(d: Disk, dir: Dir, doc: Doc, chain: set<Path>, p: Path)
    requires UserDisk(d) && UserDoc(doc) && AllSound(d, dir, doc, chain)
    requires BringsOne(d, dir, doc, chain, p) && Parses(d, p)
    ensures AllSound(d, p.dir, d.files[p].doc, chain + {p})
  {
    var below := d.files[p].doc;
    hide BringsOne, Sound;
    forall trail | Reaches(d, p.dir, below, chain + {p}, trail) ensures SoundAt(d, p.dir, below, trail) {
      var longer := [p] + trail;
      assert longer[1..] == trail;
      assert Reaches(d, dir, doc, chain, longer);
      assert trail != [] ==> longer[|longer| - 1] == trail[|trail| - 1];
    }
  }

  lemma {:induction false} SoundSucceeds(d: Disk, dir: Dir, doc: Doc, chain: set<Path>)
    requires UserDisk(d) && UserDoc(doc) && AllSound(d, dir, doc, chain)
    ensures Tolerant(d, dir, doc, chain).Some?
    decreases d.files.Keys - chain, 2, 0
  {
    assert Reaches(d, dir, doc, chain, []);
    assert SoundAt(d, dir, doc, []);
    var ss := ReadableAll(d, dir, doc.services);
    DefsOfAll(d, dir, ss, ss);
    hide AllSound, DefsOf;
    if doc.listed.List? {
      forall e, p | e in doc.listed.entries && Brings(d, dir, e, chain, p)
        ensures BringsOne(d, dir, doc, chain, p)
      {
      }
      SoundEntries(d, dir, doc, doc.listed.entries, chain);
    }
  }

  lemma {:induction false} SoundEntries(d: Disk, dir: Dir, doc: Doc, es: seq<Entry>, chain: set<Path>)
    requires UserDisk(d) && UserDoc(doc) && AllSound(d, dir, doc, chain)
    requires UserEntries(es) && forall e | e in es :: e.paths != []
    requires forall e, p | e in es && Brings(d, dir, e, chain, p) :: BringsOne(d, dir, doc, chain, p)
    ensures TolerantEntries(d, dir, es, chain).Some?
    decreases d.files.Keys - chain, 1, |es|
  {
    hide AllSound, BringsOne;
    if es != [] {
      SoundEntries(d, dir, doc, es[1..], chain);
      if AllUsable(d, dir, es[0].paths, chain) {
        forall r | r in es[0].paths ensures BringsOne(d, dir, doc, chain, Target(d, dir, r)) {
          assert Brings(d, dir, es[0], chain, Target(d, dir, r));
        }
        SoundPaths(d, dir, doc, es[0].paths, chain);
      }
    }
  }

  lemma {:induction false} SoundPaths(d: Disk, dir: Dir, doc: Doc, rs: seq<Ref>, chain: set<Path>)
    requires UserDisk(d) && UserDoc(doc) && AllSound(d, dir, doc, chain)
    requires (forall r | r in rs :: UserRef(r)) && AllUsable(d, dir, rs, chain)
    requires forall r | r in rs :: BringsOne(d, dir, doc, chain, Target(d, dir, r))
    ensures TolerantPaths(d, dir, rs, chain).Some?
    decreases d.files.Keys - chain, 0, |rs|
  {
    hide AllSound, BringsOne;
    if rs != [] {
      assert Usable(d, dir, rs[0], chain);
      var p := Target(d, dir, rs[0]);
      AllSoundBelow(d, dir, doc, chain, p);
      SoundSucceeds(d, p.dir, d.files[p].doc, chain + {p});
      SoundPaths(d, dir, doc, rs[1..], chain);
    }
  }

  lemma {:induction false} EntryLoads(d: Disk, dir: Dir, es: seq<Entry>, chain: set<Path>, e: Entry)
    requires UserDisk(d) && UserEntries(es) && TolerantEntries(d, dir, es, chain).Some? && e in es
    ensures e.paths != []
    ensures AllUsable(d, dir, e.paths, chain) ==> TolerantPaths(d, dir, e.paths, chain).Some?
    decreases |es|
  {
    if e != es[0] {
      EntryLoads(d, dir, es[1..], chain, e);
    }
  }

  lemma {:induction false} PathLoads(d: Disk, dir: Dir, rs: seq<Ref>, chain: set<Path>, r: Ref)
    requires UserDisk(d) && (forall x | x in rs :: UserRef(x)) && AllUsable(d, dir, rs, chain)
    requires TolerantPaths(d, dir, rs, chain).Some? && r in rs
    ensures var p := Target(d, dir, r);
            Usable(d, dir, r, chain) && Tolerant(d, p.dir, d.files[p].doc, chain + {p}).Some?
    decreases |rs|
  {
    assert Usable(d, dir, r, chain);
    if r != rs[0] {
      PathLoads(d, dir, rs[1..], chain, r);
    }
  }

  lemma {:induction false} LoadedIsSound(d: Disk, dir: Dir, doc: Doc, chain: set<Path>, trail: seq<Path>)
    requires UserDisk(d) && UserDoc(doc) && Tolerant(d, dir, doc, chain).Some?
    requires Reaches(d, dir, doc, chain, trail)
    ensures SoundAt(d, dir, doc, trail)
    decreases |trail|
  {
    if trail == [] {
      LoadedHere(d, dir, doc, chain);
    } else {
      var p := trail[0];
      var e :| e in doc.listed.entries && Brings(d, dir, e, chain, p);
      var r :| r in e.paths && Target(d, dir, r) == p;
      EntryLoads(d, dir, doc.listed.entries, chain, e);
      PathLoads(d, dir, e.paths, chain, r);
      hide Tolerant, Sound, BringsOne;
      LoadedIsSound(d, p.dir, d.files[p].doc, chain + {p}, trail[1..]);
      assert |trail| > 1 ==> trail[1..][|trail| - 2] == trail[|trail| - 1];
    }
  }

  lemma LoadedHere(d: Disk, dir: Dir, doc: Doc, chain: set<Path>)
    requires UserDisk(d) && UserDoc(doc) && Tolerant(d, dir, doc, chain).Some?
    ensures Sound(d, dir, doc)
  {
    var ss := ReadableAll(d, dir, doc.services);
    DefsOfAll(d, dir, ss, ss);
    if doc.listed.List? {
      forall e | e in doc.listed.entries ensures e.paths != [] {
        EntryLoads(d, dir, doc.listed.entries, chain, e);
      }
    }
    hide DefsOf, TolerantEntries;
  }

  /**
    However the graph of files is broken, the reload succeeds exactly when every document reached through
    unbroken entries is well shaped and every extends it keeps leads through files that load.
   */
  lemma ReloadSucceedsIff(d: Disk, top: Path, doc: Doc)
    requires UserDisk(d) && UserDoc(doc)
    ensures var r := Strip(d, top.dir, doc, {top}, []);
            Load(d, r.staged, top.dir, r.doc, {User(top)}).Some? <==> AllSound(d, top.dir, doc, {top})
  {
    RewriteKeepsMeaning(d, top, doc);
    hide Strip, Load, Tolerant, Reaches, SoundAt;
    if AllSound(d, top.dir, doc, {top}) {
      SoundSucceeds(d, top.dir, doc, {top});
    }
    if Tolerant(d, top.dir, doc, {top}).Some? {
      forall trail | Reaches(d, top.dir, doc, {top}, trail) ensures SoundAt(d, top.dir, doc, trail) {
        LoadedIsSound(d, top.dir, doc, {top}, trail);
      }
    }
  }

  /** An extends whose file parses is kept; when the service there extends a file that does not, the reload fails. */
  lemma NestedExtendsFails(d: Disk, top: Path, doc: Doc, s: Service, t: Service)
    requires UserDisk(d) && UserDoc(doc) && doc.Doc? && s in doc.services && s.base.InFile?
    requires Find(ServicesIn(d, Target(d, top.dir, s.base.file)), s.base.service) == Some(t)
    requires t.base.InFile? && !BaseParses(d, Target(d, top.dir, s.base.file).dir, t)
    ensures var r := Strip(d, top.dir, doc, {top}, []);
            s in r.doc.services && Load(d, r.staged, top.dir, r.doc, {User(top)}).None?
  {
    var p := Target(d, top.dir, s.base.file);
    var ss := ReadableAll(d, top.dir, doc.services);
    ReadableSame(d, top.dir, doc.services);
    var i :| 0 <= i < |doc.services| && doc.services[i] == s;
    assert ss[i] == s && s in ss;
    if UserRef(t.base.file) {
      assert ServicesIn(d, Target(d, p.dir, t.base.file)) == [];
    }
    assert DefIn(d, p, s.base.service, {}).None?;
    assert DefOf(d, top.dir, ss, s, {}).None?;
    DefsOfAll(d, top.dir, ss, ss);
    hide DefsOf, DefOf, ReadableAll;
  }

  /** Such an input: one service extending a file whose own base file is missing. Nothing is stripped. */
  lemma NestedExtendsInput(join: (Dir, nat) -> Path)
    ensures var middle, missing := Path(0, 1), Path(0, 2);
            var base := Service(1, 0, InFile(Absolute(missing), 1));
            var d := Disk(map[middle := Yaml(Doc(Unset, [base], 0))], join);
            var doc := Doc(Unset, [Service(0, 0, InFile(Absolute(middle), 1))], 0);
            && UserDisk(d) && UserDoc(doc) && Strip(d, 0, doc, {Path(0, 0)}, []) == Stripped(doc, false, [])
            && Load(d, [], 0, doc, {User(Path(0, 0))}).None?
  {
    var middle, missing := Path(0, 1), Path(0, 2);
    var base := Service(1, 0, InFile(Absolute(missing), 1));
    var d := Disk(map[middle := Yaml(Doc(Unset, [base], 0))], join);
    var s := Service(0, 0, InFile(Absolute(middle), 1));
    var doc := Doc(Unset, [s], 0);
    assert ReadableAll(d, 0, doc.services) == [s] by {
      assert [s][1..] == [];
    }
    assert s in doc.services;
    NestedExtendsFails(d, Path(0, 0), doc, s, base);
  }

  // ----- a project with nothing broken is left alone -----

  ghost predicate SameChain(keys: set<Key>, chain: set<Path>) {
    forall p :: User(p) in keys <==> p in chain
  }

  lemma {:induction false} HealthyDoc(
    d: Disk, dir: Dir, doc: Doc, chain: set<Path>, staged: seq<Staged>, f: seq<Staged>, keys: set<Key>)
    requires UserDisk(d) && UserDoc(doc) && SameChain(keys, chain)
    requires Load(d, f, dir, doc, keys).Some?
    ensures !Strip(d, dir, doc, chain, staged).changed
    ensures Tolerant(d, dir, doc, chain) == Load(d, f, dir, doc, keys)
    decreases d.files.Keys - chain, 2, 0
  {
    DefsOfAll(d, dir, doc.services, doc.services);
    forall s | s in doc.services ensures BaseParses(d, dir, s) {
      DefParses(d, dir, doc.services, s);
    }
    ReadableSame(d, dir, doc.services);
    assert ReadableAll(d, dir, doc.services) == doc.services;
    hide DefsOf, DefOf;
    if doc.listed.List? {
      HealthyEntries(d, dir, doc.listed.entries, chain, staged, f, keys);
    }
  }

  lemma {:induction false} HealthyEntries(
    d: Disk, dir: Dir, es: seq<Entry>, chain: set<Path>, staged: seq<Staged>, f: seq<Staged>, keys: set<Key>)
    requires UserDisk(d) && UserEntries(es) && SameChain(keys, chain)
    requires LoadEntries(d, f, dir, es, keys).Some?
    ensures !StripEntries(d, dir, es, chain, staged).changed
    ensures TolerantEntries(d, dir, es, chain) == LoadEntries(d, f, dir, es, keys)
    decreases d.files.Keys - chain, 1, |es|
  {
    if es != [] {
      HealthyPaths(d, dir, es[0].paths, chain, staged, f, keys);
      HealthyEntries(d, dir, es[1..], chain, StripPaths(d, dir, es[0].paths, chain, staged).staged, f, keys);
    }
  }

  lemma {:induction false} HealthyPaths(
    d: Disk, dir: Dir, rs: seq<Ref>, chain: set<Path>, staged: seq<Staged>, f: seq<Staged>, keys: set<Key>)
    requires UserDisk(d) && (forall r | r in rs :: UserRef(r)) && SameChain(keys, chain)
    requires LoadPaths(d, f, dir, rs, keys).Some?
    ensures AllUsable(d, dir, rs, chain)
    ensures StripPaths(d, dir, rs, chain, staged).ok && !StripPaths(d, dir, rs, chain, staged).changed
    ensures TolerantPaths(d, dir, rs, chain) == LoadPaths(d, f, dir, rs, keys)
    decreases d.files.Keys - chain, 0, |rs|
  {
    if rs != [] {
      var p := Target(d, dir, rs[0]);
      assert Usable(d, dir, rs[0], chain);
      HealthyDoc(d, p.dir, d.files[p].doc, chain + {p}, staged, f, keys + {User(p)});
      Unchanged(d, p.dir, d.files[p].doc, chain + {p}, staged);
      HealthyPaths(d, dir, rs[1..], chain, staged, f, keys);
      forall r | r in rs ensures Usable(d, dir, r, chain) {
        assert r == rs[0] || r in rs[1..];
      }
    }
  }

  /** A project that loads strictly as it stands is returned as it stands, and means the same. */
  lemma HealthyIsUntouched(d: Disk, top: Path, doc: Doc)
    requires UserDisk(d) && UserDoc(doc)
    requires Load(d, [], top.dir, doc, {User(top)}).Some?
    ensures Strip(d, top.dir, doc, {top}, []) == Stripped(doc, false, [])
    ensures Tolerant(d, top.dir, doc, {top}) == Load(d, [], top.dir, doc, {User(top)})
  {
    HealthyDoc(d, top.dir, doc, {top}, [], [], {User(top)});
    Unchanged(d, top.dir, doc, {top}, []);
  }
}
