/**
  Folding YAML merge keys into the mapping that references them.

  A document is a graph of nodes in which aliases and merge keys may form cycles. Fold is the meaning of a
  node as a table of keys, to a bounded or to any depth; MappingEntries is the source's walk.
 */
module Merge {
  import opened Common

  type Id = nat

  /** Keys, by their rank in alphabetical order. */
  type Key = nat

  const MERGE_KEY: Key := 0

  const MERGE_DEPTH := 8

  datatype Kind = Scalar | Sequence | Mapping | Document | Alias

  /** A node: its text, its children (keys and values in turn for a mapping) and what an alias points at. */
  datatype Node = Node(kind: Kind, value: Key, content: seq<Id>, target: Option<Id>)

  /** Every graph, cycles included. A pointer that may be nil is an Option. */
  type Graph = Id -> Node

  type Ref = Option<Id>

  datatype Entry = Entry(key: Key, value: Id)

  type Table = map<Key, Id>

  /** a, and from b only the keys that a does not have. */
  function Over(a: Table, b: Table): Table { b + a }

  // ----- aliases -----

  predicate IsAlias(g: Graph, r: Ref) { r.Some? && g(r.value).kind == Alias }

  /** At most so many aliases followed. */
  function Walk(g: Graph, r: Ref, steps: nat): Ref
    decreases steps
  {
    if steps == 0 || !IsAlias(g, r) then r else Walk(g, g(r.value).target, steps - 1)
  }

  /** resolveAlias: at most nine steps, and possibly still an alias after them. */
  method ResolveAlias(g: Graph, n: Ref) returns (r: Ref)
    ensures r == Walk(g, n, 9)
  {
    r := n;
    var i := 0;
    while IsAlias(g, r) && i <= MERGE_DEPTH
      invariant 0 <= i <= MERGE_DEPTH + 1
      invariant Walk(g, n, MERGE_DEPTH + 1) == Walk(g, r, MERGE_DEPTH + 1 - i)
      decreases MERGE_DEPTH - i
    {
      r := g(r.value).target;
      i := i + 1;
    }
  }

  /** How far aliases are followed: a number of steps, or to their end. */
  datatype How = Within(steps: nat) | Fully

  ghost predicate Ends(g: Graph, r: Ref) { exists s :: !IsAlias(g, Walk(g, r, s)) }

  /** What a reference stands for. A chain of aliases without end stands for nothing. */
  ghost function Resolve(g: Graph, how: How, r: Ref): Ref {
    match how
    case Within(steps) => Walk(g, r, steps)
    case Fully =>
      if Ends(g, r) then
        var s :| !IsAlias(g, Walk(g, r, s));
        Walk(g, r, s)
      else None
  }

  // ----- the meaning of a node -----

  /** The mapping behind a reference, through aliases and a document node. */
  ghost function MappingOf(g: Graph, how: How, r: Ref): Ref {
    var n := Resolve(g, how, r);
    var m := if n.Some? && g(n.value).kind == Document && |g(n.value).content| > 0
             then Resolve(g, how, Some(g(n.value).content[0])) else n;
    if m.Some? && g(m.value).kind == Mapping then m else None
  }

  /** What the value of one merge key refers to: one mapping, or a sequence of them. */
  ghost function SourcesOf(g: Graph, how: How, v: Id): seq<Id> {
    var r := Resolve(g, how, Some(v));
    if r.None? then [] else if g(r.value).kind == Sequence then g(r.value).content else [r.value]
  }

  ghost function SourcesOfAll(g: Graph, how: How, values: seq<Id>): seq<Id> {
    if values == [] then [] else SourcesOf(g, how, values[0]) + SourcesOfAll(g, how, values[1..])
  }

  /** The keys written directly in a mapping; a repeated one counts where it is first. */
  function Direct(g: Graph, content: seq<Id>): Table {
    if |content| < 2 then map[]
    else if g(content[0]).value == MERGE_KEY then Direct(g, content[2..])
    else Direct(g, content[2..])[g(content[0]).value := content[1]]
  }

  /** The values of a mapping's merge keys, in order. */
  function MergeValues(g: Graph, content: seq<Id>): seq<Id> {
    if |content| < 2 then []
    else (if g(content[0]).value == MERGE_KEY then [content[1]] else []) + MergeValues(g, content[2..])
  }

  ghost function Sources(g: Graph, how: How, m: Id): seq<Id> {
    SourcesOfAll(g, how, MergeValues(g, g(m).content))
  }

  /** The keys of a node over so many levels: its own over those of its sources, earlier ones first. */
  ghost function Fold(g: Graph, how: How, r: Ref, levels: nat): Table
    decreases levels, 0, 0
  {
    var m := MappingOf(g, how, r);
    if levels == 0 || m.None? then map[]
    else Over(Direct(g, g(m.value).content), FoldAll(g, how, Sources(g, how, m.value), levels - 1))
  }

  ghost function FoldAll(g: Graph, how: How, sources: seq<Id>, levels: nat): Table
    decreases levels, 1, |sources|
  {
    if sources == [] then map[]
    else Over(Fold(g, how, Some(sources[0]), levels), FoldAll(g, how, sources[1..], levels))
  }

  // ----- lists of entries -----

  predicate Distinct(s: seq<Entry>) { forall i, j | 0 <= i < j < |s| :: s[i].key != s[j].key }

  predicate Ascending(s: seq<Entry>) { forall i, j | 0 <= i < j < |s| :: s[i].key < s[j].key }

  /** The list holds exactly the entries of the table, each once. */
  ghost predicate Lists(s: seq<Entry>, t: Table) {
    Distinct(s) && forall e :: e in s <==> e.key in t && t[e.key] == e.value
  }

  lemma ListsKeys(s: seq<Entry>, t: Table, k: Key)
    requires Lists(s, t) && k in t
    ensures Entry(k, t[k]) in s
  {
  }

  lemma ListsAppend(s: seq<Entry>, t: Table, e: Entry)
    requires Lists(s, t) && e.key !in t
    ensures Lists(s + [e], t[e.key := e.value])
  {
    forall i | 0 <= i < |s| ensures s[i].key != e.key {
      assert s[i] in s;
    }
    forall x ensures x in s + [e] <==> x.key in t[e.key := e.value] && t[e.key := e.value][x.key] == x.value {
      assert x in s + [e] <==> x in s || x == e;
    }
  }

  /** sort.Slice by key, by insertion. */
  method SortEntries(s: seq<Entry>, ghost t: Table) returns (r: seq<Entry>)
    requires Lists(s, t)
    ensures Ascending(r) && Lists(r, t)
  {
    r := [];
    for i := 0 to |s|
      invariant Ascending(r) && forall e :: e in r <==> e in s[..i]
    {
      var k := 0;
      while k < |r| && r[k].key < s[i].key
        invariant 0 <= k <= |r|
        invariant forall j | 0 <= j < k :: r[j].key < s[i].key
      {
        k := k + 1;
      }
      ghost var before := r;
      NewKey(s, i, r);
      InsertAscends(r, k, s[i]);
      r := r[..k] + [s[i]] + r[k..];
      assert s[..i + 1] == s[..i] + [s[i]];
    }
    assert s[..|s|] == s;
  }

  lemma NewKey(s: seq<Entry>, i: nat, r: seq<Entry>)
    requires Distinct(s) && i < |s| && forall e :: e in r <==> e in s[..i]
    ensures forall j | 0 <= j < |r| :: r[j].key != s[i].key
  {
    forall j | 0 <= j < |r| ensures r[j].key != s[i].key {
      assert r[j] in s[..i];
    }
  }

  lemma InsertAscends(r: seq<Entry>, k: nat, e: Entry)
    requires Ascending(r) && k <= |r| && (forall j | 0 <= j < k :: r[j].key < e.key)
    requires k < |r| ==> e.key < r[k].key
    ensures Ascending(r[..k] + [e] + r[k..])
    ensures forall x :: x in r[..k] + [e] + r[k..] <==> x in r || x == e
  {
    assert r == r[..k] + r[k..];
  }

  /** The entries not seen yet, appended. */
  method AddUnseen(out: seq<Entry>, seen: set<Key>, more: seq<Entry>, ghost a: Table, ghost b: Table)
    returns (out': seq<Entry>, seen': set<Key>)
    requires Lists(out, a) && seen == a.Keys && Lists(more, b)
    ensures Lists(out', Over(a, b)) && seen' == Over(a, b).Keys
  {
    hide Lists;
    out', seen' := out, seen;
    ghost var t := a;
    for i := 0 to |more|
      invariant Lists(out', t) && seen' == t.Keys && PartlyOver(a, b, more[..i], t)
    {
      var e := more[i];
      PartStep(a, b, more, i, t);
      if e.key !in seen' {
        ListsAppend(out', t, e);
        seen' := seen' + {e.key};
        out' := out' + [e];
        t := t[e.key := e.value];
      }
    }
    PartEnd(a, b, more, t);
  }

  /** t is a, and over it what part of b was visited. */
  ghost predicate PartlyOver(a: Table, b: Table, visited: seq<Entry>, t: Table) {
    && (forall k | k in a :: k in t && t[k] == a[k])
    && (forall k | k in t && k !in a :: k in b && t[k] == b[k])
    && (forall i | 0 <= i < |visited| :: visited[i].key in t)
  }

  lemma PartStep(a: Table, b: Table, more: seq<Entry>, i: nat, t: Table)
    requires Lists(more, b) && i < |more| && PartlyOver(a, b, more[..i], t)
    ensures var e := more[i];
            PartlyOver(a, b, more[..i + 1], if e.key in t then t else t[e.key := e.value])
  {
    assert more[i] in more;
    assert more[..i + 1] == more[..i] + [more[i]];
  }

  lemma PartEnd(a: Table, b: Table, more: seq<Entry>, t: Table)
    requires Lists(more, b) && PartlyOver(a, b, more[..|more|], t)
    ensures t == Over(a, b)
  {
    assert more[..|more|] == more;
    forall k | k in b ensures k in t {
      ListsKeys(more, b, k);
      var i :| 0 <= i < |more| && more[i] == Entry(k, b[k]);
    }
  }

  // ----- the walk -----

  /** The bound the source follows aliases to. */
  const BOUNDED := Within(MERGE_DEPTH + 1)

  method AsMapping(g: Graph, n: Ref) returns (m: Ref)
    ensures m == MappingOf(g, BOUNDED, n)
  {
    m := ResolveAlias(g, n);
    if m.Some? && g(m.value).kind == Document && |g(m.value).content| > 0 {
      m := ResolveAlias(g, Some(g(m.value).content[0]));
    }
    if m.None? || g(m.value).kind != Mapping {
      m := None;
    }
  }

  method MergeSources(g: Graph, v: Id) returns (sources: seq<Id>)
    ensures sources == SourcesOf(g, BOUNDED, v)
  {
    var r := ResolveAlias(g, Some(v));
    if r.None? {
      return [];
    }
    if g(r.value).kind == Sequence {
      return g(r.value).content;
    }
    return [r.value];
  }

  lemma OverAssoc(a: Table, b: Table, c: Table)
    ensures Over(Over(a, b), c) == Over(a, Over(b, c))
  {
  }

  lemma OverNothing(a: Table)
    ensures Over(a, map[]) == a && Over(map[], a) == a
  {
  }

  /** The first loop: the keys written directly, and the merge values for later. */
  method ReadDirect(g: Graph, content: seq<Id>) returns (out: seq<Entry>, seen: set<Key>, merges: seq<Id>)
    ensures Lists(out, Direct(g, content)) && seen == Direct(g, content).Keys && merges == MergeValues(g, content)
  {
    out, seen, merges := [], {}, [];
    ghost var t: Table := map[];
    OverNothing(Direct(g, content));
    assert content[0..] == content;
    hide Lists, Direct, MergeValues, Over;
    ListsNothing();
    var i := 0;
    while i + 1 < |content|
      invariant 0 <= i <= |content|
      invariant Lists(out, t) && seen == t.Keys
      invariant Over(t, Direct(g, content[i..])) == Direct(g, content)
      invariant merges + MergeValues(g, content[i..]) == MergeValues(g, content)
    {
      var key, value := g(content[i]).value, content[i + 1];
      ReadStep(g, content, i);
      if key == MERGE_KEY {
        Assoc(merges, [value], MergeValues(g, content[i + 2..]));
        merges := merges + [value];
      } else {
        OverUpdate(t, Direct(g, content[i + 2..]), key, value);
        if key !in seen {
          seen := seen + {key};
          ListsAppend(out, t, Entry(key, value));
          out := out + [Entry(key, value)];
          t := t[key := value];
        }
      }
      i := i + 2;
    }
    ReadEnd(g, content[i..]);
    OverNothing(t);
    assert merges + [] == merges;
  }

  lemma ReadStep(g: Graph, content: seq<Id>, i: nat)
    requires i + 1 < |content|
    ensures var key, value, rest := g(content[i]).value, content[i + 1], content[i + 2..];
            && Direct(g, content[i..]) == (if key == MERGE_KEY then Direct(g, rest) else Direct(g, rest)[key := value])
            && MergeValues(g, content[i..])
               == if key == MERGE_KEY then [value] + MergeValues(g, rest) else MergeValues(g, rest)
  {
    assert content[i..][2..] == content[i + 2..];
    assert [] + MergeValues(g, content[i + 2..]) == MergeValues(g, content[i + 2..]);
  }

  lemma ReadEnd(g: Graph, rest: seq<Id>)
    requires |rest| < 2
    ensures Direct(g, rest) == map[] && MergeValues(g, rest) == []
  {
  }

  lemma ListsNothing()
    ensures Lists([], map[])
  {
  }

  lemma OverUpdate(t: Table, rest: Table, k: Key, v: Id)
    ensures Over(t, rest[k := v]) == if k in t then Over(t, rest) else Over(t[k := v], rest)
  {
  }

  /** mappingEntriesDepth: on every graph it ends, with the table Fold gives, sorted by key. */
  method MappingEntries(g: Graph, n: Ref, depth: nat) returns (out: seq<Entry>)
    requires depth <= MERGE_DEPTH + 1
    ensures Ascending(out) && Lists(out, Fold(g, BOUNDED, n, MERGE_DEPTH + 1 - depth))
    decreases MERGE_DEPTH + 1 - depth, 0, 0
  {
    hide Lists;
    ListsNothing();
    var m := AsMapping(g, n);
    if m.None? || depth > MERGE_DEPTH {
      return [];
    }
    var direct, seen, merges := ReadDirect(g, g(m.value).content);
    ghost var a := Direct(g, g(m.value).content);
    direct, seen := AddMerges(g, merges, depth + 1, direct, seen, a);
    out := SortEntries(direct, Fold(g, BOUNDED, n, MERGE_DEPTH + 1 - depth));
  }

  /** The second loop: merge values in order, each with its sources in order. */
  method AddMerges(g: Graph, merges: seq<Id>, depth: nat, out: seq<Entry>, seen: set<Key>, ghost a: Table)
    returns (out': seq<Entry>, seen': set<Key>)
    requires 1 <= depth <= MERGE_DEPTH + 1 && Lists(out, a) && seen == a.Keys
    ensures var all := Over(a, FoldAll(g, BOUNDED, SourcesOfAll(g, BOUNDED, merges), MERGE_DEPTH + 1 - depth));
            Lists(out', all) && seen' == all.Keys
    decreases MERGE_DEPTH + 1 - depth, 2, 0
  {
    hide Lists, Over, FoldAll, SourcesOf;
    out', seen' := out, seen;
    ghost var levels, t := MERGE_DEPTH + 1 - depth, a;
    assert merges[0..] == merges;
    for i := 0 to |merges|
      invariant Lists(out', t) && seen' == t.Keys
      invariant Over(t, FoldAll(g, BOUNDED, SourcesOfAll(g, BOUNDED, merges[i..]), levels))
                == Over(a, FoldAll(g, BOUNDED, SourcesOfAll(g, BOUNDED, merges), levels))
    {
      assert merges[i..][1..] == merges[i + 1..];
      var sources := MergeSources(g, merges[i]);
      FoldAllAppend(g, BOUNDED, sources, SourcesOfAll(g, BOUNDED, merges[i + 1..]), levels);
      OverAssoc(t, FoldAll(g, BOUNDED, sources, levels),
                FoldAll(g, BOUNDED, SourcesOfAll(g, BOUNDED, merges[i + 1..]), levels));
      out', seen' := AddSources(g, sources, depth, out', seen', t);
      t := Over(t, FoldAll(g, BOUNDED, sources, levels));
    }
    FoldAllNothing(g, BOUNDED, levels);
    OverNothing(t);
  }

  method AddSources(g: Graph, sources: seq<Id>, depth: nat, out: seq<Entry>, seen: set<Key>, ghost a: Table)
    returns (out': seq<Entry>, seen': set<Key>)
    requires 1 <= depth <= MERGE_DEPTH + 1 && Lists(out, a) && seen == a.Keys
    ensures var all := Over(a, FoldAll(g, BOUNDED, sources, MERGE_DEPTH + 1 - depth));
            Lists(out', all) && seen' == all.Keys
    decreases MERGE_DEPTH + 1 - depth, 1, 0
  {
    hide Lists, Over, Fold;
    out', seen' := out, seen;
    ghost var levels, t := MERGE_DEPTH + 1 - depth, a;
    assert sources[0..] == sources;
    for i := 0 to |sources|
      invariant Lists(out', t) && seen' == t.Keys
      invariant Over(t, FoldAll(g, BOUNDED, sources[i..], levels)) == Over(a, FoldAll(g, BOUNDED, sources, levels))
    {
      assert sources[i..][1..] == sources[i + 1..];
      var more := MappingEntries(g, Some(sources[i]), depth);
      ghost var b := Fold(g, BOUNDED, Some(sources[i]), levels);
      OverAssoc(t, b, FoldAll(g, BOUNDED, sources[i + 1..], levels));
      out', seen' := AddUnseen(out', seen', more, t, b);
      t := Over(t, b);
    }
    FoldAllNothing(g, BOUNDED, levels);
    OverNothing(t);
  }

  lemma FoldAllNothing(g: Graph, how: How, levels: nat)
    ensures FoldAll(g, how, [], levels) == map[]
  {
  }

  lemma {:induction false} FoldAllAppend(g: Graph, how: How, x: seq<Id>, y: seq<Id>, levels: nat)
    ensures FoldAll(g, how, x + y, levels) == Over(FoldAll(g, how, x, levels), FoldAll(g, how, y, levels))
  {
    if x == [] {
      assert x + y == y;
      OverNothing(FoldAll(g, how, y, levels));
    } else {
      assert (x + y)[1..] == x[1..] + y;
      FoldAllAppend(g, how, x[1..], y, levels);
      OverAssoc(Fold(g, how, Some(x[0]), levels), FoldAll(g, how, x[1..], levels), FoldAll(g, how, y, levels));
      hide Over, Fold;
    }
  }
}
