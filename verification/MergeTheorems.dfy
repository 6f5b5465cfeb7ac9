/**
  What folding merge keys means: the precedence of keys, and when the bounded walk is the whole meaning.
 */
module MergeTheorems {
  import opened Common
  import opened Merge

  // ----- precedence -----

  /** A key written directly in the mapping wins over every merged one. */
  lemma DirectWins(g: Graph, how: How, r: Ref, levels: nat, k: Key)
    requires levels > 0 && MappingOf(g, how, r).Some?
    requires k in Direct(g, g(MappingOf(g, how, r).value).content)
    ensures k in Fold(g, how, r, levels)
    ensures Fold(g, how, r, levels)[k] == Direct(g, g(MappingOf(g, how, r).value).content)[k]
  {
  }

  /** Of the sources, the first that has the key decides. */
  lemma {:induction false} FirstSourceWins(g: Graph, how: How, sources: seq<Id>, levels: nat, i: nat, k: Key)
    requires i < |sources| && k in Fold(g, how, Some(sources[i]), levels)
    requires forall j | 0 <= j < i :: k !in Fold(g, how, Some(sources[j]), levels)
    ensures k in FoldAll(g, how, sources, levels)
    ensures FoldAll(g, how, sources, levels)[k] == Fold(g, how, Some(sources[i]), levels)[k]
    decreases i
  {
    if i > 0 {
      FirstSourceWins(g, how, sources[1..], levels, i - 1, k);
    }
    hide Fold;
  }

  /** A merged key comes from some source; a key is in the table only if it is direct or merged. */
  lemma {:induction false} MergedComesFrom(g: Graph, how: How, sources: seq<Id>, levels: nat, k: Key) returns (i: nat)
    requires k in FoldAll(g, how, sources, levels)
    ensures i < |sources| && k in Fold(g, how, Some(sources[i]), levels)
    ensures forall j | 0 <= j < i :: k !in Fold(g, how, Some(sources[j]), levels)
    decreases |sources|
  {
    hide Fold, FoldAll;
    FoldAllHas(g, how, sources, levels, k);
    if k in Fold(g, how, Some(sources[0]), levels) {
      i := 0;
    } else {
      var j := MergedComesFrom(g, how, sources[1..], levels, k);
      i := j + 1;
      forall n | 0 <= n < i ensures k !in Fold(g, how, Some(sources[n]), levels) {
        assert n > 0 ==> sources[n] == sources[1..][n - 1];
      }
    }
  }

  lemma FoldAllHas(g: Graph, how: How, sources: seq<Id>, levels: nat, k: Key)
    requires k in FoldAll(g, how, sources, levels)
    ensures sources != []
    ensures k in Fold(g, how, Some(sources[0]), levels) || k in FoldAll(g, how, sources[1..], levels)
  {
    hide Fold;
  }

  // ----- reading a mapping -----

  lemma OverInsert(t: Table, rest: Table, k: Key, v: Id)
    ensures Over(t[k := v], rest) == Over(t, rest)[k := v]
  {
  }

  /** Keys are read in the order they are written: earlier ones first, in what is direct and in what is merged. */
  lemma {:induction false} ReadInOrder(g: Graph, a: seq<Id>, b: seq<Id>)
    requires |a| % 2 == 0
    ensures Direct(g, a + b) == Over(Direct(g, a), Direct(g, b))
    ensures MergeValues(g, a + b) == MergeValues(g, a) + MergeValues(g, b)
    decreases |a|
  {
    hide Over, Direct, MergeValues;
    if a == [] {
      assert a + b == b;
      ReadEnd(g, []);
      OverNothing(Direct(g, b));
    } else {
      assert (a + b)[2..] == a[2..] + b && a[0..] == a && (a + b)[0..] == a + b;
      ReadInOrder(g, a[2..], b);
      ReadStep(g, a + b, 0);
      ReadStep(g, a, 0);
      OverInsert(Direct(g, a[2..]), Direct(g, b), g(a[0]).value, a[1]);
      Assoc([a[1]], MergeValues(g, a[2..]), MergeValues(g, b));
    }
  }

  /** One key with its value: merged under the merge key, direct under any other. */
  lemma ReadOne(g: Graph, k: Id, v: Id)
    ensures Direct(g, [k, v]) == if g(k).value == MERGE_KEY then map[] else map[g(k).value := v]
    ensures MergeValues(g, [k, v]) == if g(k).value == MERGE_KEY then [v] else []
  {
    assert [k, v][2..] == [];
  }

  /** A merge value names a mapping, possibly through an alias, or a sequence of them in order of precedence. */
  lemma SourcesAre(g: Graph, how: How, v: Id)
    requires Resolve(g, how, Some(v)).Some?
    ensures var r := Resolve(g, how, Some(v)).value;
            && (g(r).kind == Sequence ==> SourcesOf(g, how, v) == g(r).content)
            && (g(r).kind != Sequence ==> SourcesOf(g, how, v) == [r])
  {
  }

  lemma {:induction false} SourcesSplit(g: Graph, how: How, a: seq<Id>, b: seq<Id>)
    ensures SourcesOfAll(g, how, a + b) == SourcesOfAll(g, how, a) + SourcesOfAll(g, how, b)
  {
    if a == [] {
      assert a + b == b;
    } else {
      assert (a + b)[1..] == a[1..] + b;
      SourcesSplit(g, how, a[1..], b);
      Assoc(SourcesOf(g, how, a[0]), SourcesOfAll(g, how, a[1..]), SourcesOfAll(g, how, b));
      hide SourcesOf;
    }
  }

  /**
    The precedence of merges as they are written: of the merge values before and after one, and of the sequence
    it may name, the first source that has the key gives it, unless the mapping has the key itself.
   */
  lemma MergePrecedence(g: Graph, how: How, m: Id, levels: nat,
                        before: seq<Id>, key: Id, v: Id, after: seq<Id>, i: nat, k: Key)
    requires g(m).kind == Mapping && g(m).content == before + [key, v] + after && |before| % 2 == 0
    requires g(key).value == MERGE_KEY && Resolve(g, how, Some(v)).Some?
    requires var r := Resolve(g, how, Some(v)).value;
             g(r).kind == Sequence && i < |g(r).content| && k in Fold(g, how, Some(g(r).content[i]), levels)
             && forall j | 0 <= j < i :: k !in Fold(g, how, Some(g(r).content[j]), levels)
    requires k !in Direct(g, before) && k !in Direct(g, after)
    requires k !in FoldAll(g, how, SourcesOfAll(g, how, MergeValues(g, before)), levels)
    ensures MappingOf(g, how, Some(m)) == Some(m)
    ensures var r := Resolve(g, how, Some(v)).value;
            var table := Fold(g, how, Some(m), levels + 1);
            k in table && table[k] == Fold(g, how, Some(g(r).content[i]), levels)[k]
  {
    var r := Resolve(g, how, Some(v)).value;
    MappingIsItself(g, how, m);
    MappingReads(g, how, m, before, key, v, after);
    FirstSourceWins(g, how, g(r).content, levels, i, k);
    FoldStep(g, how, Some(m), levels + 1);
    var first := SourcesOfAll(g, how, MergeValues(g, before));
    var last := SourcesOfAll(g, how, MergeValues(g, after));
    FoldAllAppend(g, how, first, g(r).content, levels);
    FoldAllAppend(g, how, first + g(r).content, last, levels);
    hide Direct, MergeValues, SourcesOfAll, FoldAll, Fold, MappingOf, Resolve, Sources;
  }

  lemma MappingReads(g: Graph, how: How, m: Id, before: seq<Id>, key: Id, v: Id, after: seq<Id>)
    requires g(m).content == before + [key, v] + after && |before| % 2 == 0
    requires g(key).value == MERGE_KEY && Resolve(g, how, Some(v)).Some?
    requires g(Resolve(g, how, Some(v)).value).kind == Sequence
    ensures Direct(g, g(m).content) == Over(Direct(g, before), Direct(g, after))
    ensures Sources(g, how, m)
            == SourcesOfAll(g, how, MergeValues(g, before)) + g(Resolve(g, how, Some(v)).value).content
               + SourcesOfAll(g, how, MergeValues(g, after))
  {
    hide Direct, MergeValues, SourcesOfAll, Over, Resolve;
    ReadAround(g, before, key, v, after);
    SourcesAround(g, how, MergeValues(g, before), v, MergeValues(g, after));
  }

  lemma ReadAround(g: Graph, before: seq<Id>, key: Id, v: Id, after: seq<Id>)
    requires |before| % 2 == 0 && g(key).value == MERGE_KEY
    ensures Direct(g, before + [key, v] + after) == Over(Direct(g, before), Direct(g, after))
    ensures MergeValues(g, before + [key, v] + after) == MergeValues(g, before) + [v] + MergeValues(g, after)
  {
    hide *;
    ReadOne(g, key, v);
    ReadInOrder(g, before, [key, v]);
    OverNothing(Direct(g, before));
    EvenAppend(before, [key, v]);
    ReadInOrder(g, before + [key, v], after);
  }

  lemma EvenAppend(a: seq<Id>, b: seq<Id>)
    requires |a| % 2 == 0 && |b| == 2
    ensures |a + b| % 2 == 0
  {
  }

  lemma SourcesAround(g: Graph, how: How, first: seq<Id>, v: Id, last: seq<Id>)
    requires Resolve(g, how, Some(v)).Some? && g(Resolve(g, how, Some(v)).value).kind == Sequence
    ensures SourcesOfAll(g, how, first + [v] + last)
            == SourcesOfAll(g, how, first) + g(Resolve(g, how, Some(v)).value).content
               + SourcesOfAll(g, how, last)
  {
    hide SourcesOfAll, Resolve;
    SourcesSplit(g, how, first, [v]);
    SourcesSplit(g, how, first + [v], last);
    OneSource(g, how, v);
    SourcesAre(g, how, v);
  }

  /** A mapping is found through nothing, through an alias and through a document; a scalar is none. */
  lemma MappingIsItself(g: Graph, how: How, m: Id)
    requires g(m).kind != Alias && g(m).kind != Document
    ensures MappingOf(g, how, Some(m)) == if g(m).kind == Mapping then Some(m) else None
    ensures Resolve(g, how, Some(m)) == Some(m)
  {
    if how.Fully? {
      EndsAt(g, Some(m), 0);
    }
  }

  lemma MappingBehind(g: Graph, how: How, outer: Id, m: Id)
    requires g(m).kind == Mapping && (how.Within? ==> how.steps > 0)
    requires g(outer).kind == Document ==> |g(outer).content| > 0 && g(outer).content[0] == m
    requires g(outer).kind == Alias ==> g(outer).target == Some(m)
    requires g(outer).kind == Document || g(outer).kind == Alias
    ensures MappingOf(g, how, Some(outer)) == Some(m)
  {
    MappingIsItself(g, how, m);
    if how.Fully? {
      assert Walk(g, Some(m), 0) == Some(m);
      EndsAt(g, Some(outer), if g(outer).kind == Alias then 1 else 0);
    } else {
      assert Walk(g, Some(m), how.steps - 1) == Some(m);
    }
  }

  // ----- aliases -----

  /** An alias chain that has ended stays where it ended. */
  lemma {:induction false} WalkStays(g: Graph, r: Ref, s: nat, t: nat)
    requires !IsAlias(g, Walk(g, r, s)) && s <= t
    ensures Walk(g, r, t) == Walk(g, r, s)
    decreases s
  {
    if IsAlias(g, r) && s > 0 {
      WalkStays(g, g(r.value).target, s - 1, t - 1);
    }
  }

  lemma EndsAt(g: Graph, r: Ref, s: nat)
    requires !IsAlias(g, Walk(g, r, s))
    ensures Resolve(g, Fully, r) == Walk(g, r, s)
  {
    var t :| !IsAlias(g, Walk(g, r, t)) && Resolve(g, Fully, r) == Walk(g, r, t);
    if s <= t {
      WalkStays(g, r, s, t);
    } else {
      WalkStays(g, r, t, s);
    }
  }

  /** Every alias chain of the document that ends does so within the bound. */
  ghost predicate ShortAliases(g: Graph) { forall r :: Ends(g, r) ==> !IsAlias(g, Walk(g, r, 9)) }

  /** Then the bounded resolution is the whole one, up to a chain without end, which stays an alias. */
  lemma BoundedResolves(g: Graph, r: Ref)
    requires ShortAliases(g)
    ensures Ends(g, r) ==> Resolve(g, BOUNDED, r) == Resolve(g, Fully, r)
    ensures !Ends(g, r) ==> IsAlias(g, Resolve(g, BOUNDED, r)) && Resolve(g, Fully, r).None?
  {
    if Ends(g, r) {
      EndsAt(g, r, MERGE_DEPTH + 1);
    }
  }

  lemma SameMapping(g: Graph, r: Ref)
    requires ShortAliases(g)
    ensures MappingOf(g, BOUNDED, r) == MappingOf(g, Fully, r)
  {
    BoundedResolves(g, r);
    var n := Resolve(g, Fully, r);
    if n.Some? && |g(n.value).content| > 0 {
      BoundedResolves(g, Some(g(n.value).content[0]));
    }
    hide Ends, Resolve;
  }

  // ----- nesting -----

  /** Merges below this node nest at most so deep. */
  ghost predicate Nests(g: Graph, r: Ref, depth: nat)
    decreases depth
  {
    var m := MappingOf(g, Fully, r);
    m.Some? ==>
      forall i | 0 <= i < |Sources(g, Fully, m.value)| ::
        depth > 0 && Nests(g, Some(Sources(g, Fully, m.value)[i]), depth - 1)
  }

  lemma NestsBelow(g: Graph, r: Ref, depth: nat)
    requires Nests(g, r, depth) && MappingOf(g, Fully, r).Some?
    ensures var sources := Sources(g, Fully, MappingOf(g, Fully, r).value);
            sources != [] ==> depth > 0 && forall i | 0 <= i < |sources| :: Nests(g, Some(sources[i]), depth - 1)
  {
    var sources := Sources(g, Fully, MappingOf(g, Fully, r).value);
    if sources != [] {
      assert Nests(g, Some(sources[0]), depth - 1);
    }
    hide Sources, MappingOf;
  }

  lemma FoldStep(g: Graph, how: How, r: Ref, levels: nat)
    requires levels > 0
    ensures var m := MappingOf(g, how, r);
            Fold(g, how, r, levels)
            == if m.None? then map[]
               else Over(Direct(g, g(m.value).content), FoldAll(g, how, Sources(g, how, m.value), levels - 1))
  {
  }

  lemma FoldNoLevels(g: Graph, how: How, r: Ref)
    ensures Fold(g, how, r, 0) == map[]
  {
  }

  /** The unbounded meaning: with more levels than the nesting, the number of levels no longer matters. */
  lemma {:induction false} LevelsDoNotMatter(g: Graph, r: Ref, depth: nat, a: nat, b: nat)
    requires Nests(g, r, depth) && a > depth && b > depth
    ensures Fold(g, Fully, r, a) == Fold(g, Fully, r, b)
    decreases depth, 1, 0
  {
    hide MappingOf, Sources, Direct, Fold, FoldAll, Over, Nests;
    FoldStep(g, Fully, r, a);
    FoldStep(g, Fully, r, b);
    var m := MappingOf(g, Fully, r);
    if m.Some? {
      NestsBelow(g, r, depth);
      var sources := Sources(g, Fully, m.value);
      if sources == [] {
        FoldAllNothing(g, Fully, a - 1);
        FoldAllNothing(g, Fully, b - 1);
      } else {
        LevelsOfAll(g, sources, depth - 1, a - 1, b - 1);
      }
    }
  }

  lemma {:induction false} LevelsOfAll(g: Graph, sources: seq<Id>, depth: nat, a: nat, b: nat)
    requires (forall i | 0 <= i < |sources| :: Nests(g, Some(sources[i]), depth)) && a > depth && b > depth
    ensures FoldAll(g, Fully, sources, a) == FoldAll(g, Fully, sources, b)
    decreases depth, 2, |sources|
  {
    if sources != [] {
      LevelsDoNotMatter(g, Some(sources[0]), depth, a, b);
      LevelsOfAll(g, sources[1..], depth, a, b);
      hide Fold, Nests;
    }
  }

  /**
    It is the meaning the YAML merge key defines: a mapping's own keys over those of its sources, with no
    bound on either side.
   */
  lemma MeaningIsMerge(g: Graph, r: Ref, depth: nat, levels: nat)
    requires Nests(g, r, depth) && levels > depth && MappingOf(g, Fully, r).Some?
    ensures var m := MappingOf(g, Fully, r).value;
            Fold(g, Fully, r, levels) == Over(Direct(g, g(m).content), FoldAll(g, Fully, Sources(g, Fully, m), levels))
  {
    hide Over, Fold, FoldAll, Sources, MappingOf, Nests, Direct;
    LevelsDoNotMatter(g, r, depth, levels, levels + 1);
    FoldStep(g, Fully, r, levels + 1);
  }

  // ----- the bounded walk is the meaning -----

  lemma {:induction false} SameSources(g: Graph, values: seq<Id>, levels: nat)
    requires ShortAliases(g)
    ensures FoldAll(g, BOUNDED, SourcesOfAll(g, BOUNDED, values), levels)
            == FoldAll(g, BOUNDED, SourcesOfAll(g, Fully, values), levels)
  {
    if values != [] {
      SameSources(g, values[1..], levels);
      SameSource(g, values[0], levels);
      FoldAllAppend(g, BOUNDED, SourcesOf(g, BOUNDED, values[0]), SourcesOfAll(g, BOUNDED, values[1..]), levels);
      FoldAllAppend(g, BOUNDED, SourcesOf(g, Fully, values[0]), SourcesOfAll(g, Fully, values[1..]), levels);
      hide FoldAll, SourcesOf, Over;
    }
  }

  /** An alias chain without end is one source for the walk and none in the meaning; it holds no key. */
  lemma SameSource(g: Graph, v: Id, levels: nat)
    requires ShortAliases(g)
    ensures FoldAll(g, BOUNDED, SourcesOf(g, BOUNDED, v), levels) == FoldAll(g, BOUNDED, SourcesOf(g, Fully, v), levels)
  {
    BoundedResolves(g, Some(v));
    if !Ends(g, Some(v)) {
      var x := Resolve(g, BOUNDED, Some(v)).value;
      assert SourcesOf(g, BOUNDED, v) == [x] && SourcesOf(g, Fully, v) == [];
      EndlessEnd(g, Some(v), MERGE_DEPTH + 1);
      BoundedResolves(g, Some(x));
      assert MappingOf(g, BOUNDED, Some(x)).None?;
      assert [x][1..] == [];
      OverNothing(map[]);
    }
  }

  lemma {:induction false} EndlessEnd(g: Graph, r: Ref, s: nat)
    requires !Ends(g, r)
    ensures !Ends(g, Walk(g, r, s))
    decreases s
  {
    if s > 0 {
      assert IsAlias(g, Walk(g, r, 0));
      var next := g(r.value).target;
      forall t: nat ensures IsAlias(g, Walk(g, next, t)) {
        assert Walk(g, r, t + 1) == Walk(g, next, t);
      }
      EndlessEnd(g, next, s - 1);
    }
  }

  lemma SameSourcesAt(g: Graph, m: Id, levels: nat)
    requires ShortAliases(g)
    ensures FoldAll(g, BOUNDED, Sources(g, BOUNDED, m), levels) == FoldAll(g, BOUNDED, Sources(g, Fully, m), levels)
  {
    hide FoldAll, SourcesOfAll;
    SameSources(g, MergeValues(g, g(m).content), levels);
  }

  lemma {:induction false} BoundedMeaning(g: Graph, r: Ref, depth: nat, levels: nat)
    requires ShortAliases(g) && Nests(g, r, depth) && levels > depth
    ensures Fold(g, BOUNDED, r, levels) == Fold(g, Fully, r, levels)
    decreases depth, 1, 0
  {
    hide Fold, FoldAll, Over, MappingOf, Sources, Nests, Direct, ShortAliases;
    SameMapping(g, r);
    FoldStep(g, BOUNDED, r, levels);
    FoldStep(g, Fully, r, levels);
    var m := MappingOf(g, Fully, r);
    if m.Some? {
      NestsBelow(g, r, depth);
      SameSourcesAt(g, m.value, levels - 1);
      var sources := Sources(g, Fully, m.value);
      if sources == [] {
        FoldAllNothing(g, BOUNDED, levels - 1);
        FoldAllNothing(g, Fully, levels - 1);
      } else {
        BoundedMeaningAll(g, sources, depth - 1, levels - 1);
      }
    }
  }

  lemma {:induction false} BoundedMeaningAll(g: Graph, sources: seq<Id>, depth: nat, levels: nat)
    requires ShortAliases(g) && levels > depth
    requires forall i | 0 <= i < |sources| :: Nests(g, Some(sources[i]), depth)
    ensures FoldAll(g, BOUNDED, sources, levels) == FoldAll(g, Fully, sources, levels)
    decreases depth, 2, |sources|
  {
    if sources != [] {
      BoundedMeaning(g, Some(sources[0]), depth, levels);
      BoundedMeaningAll(g, sources[1..], depth, levels);
      hide Fold, Nests;
    }
  }

  /**
    Where merges nest at most eight deep and aliases resolve within the bound, the table of mappingEntries is
    the unbounded meaning, whatever number of levels that is taken to.
   */
  lemma WalkIsMeaning(g: Graph, r: Ref, levels: nat)
    requires ShortAliases(g) && Nests(g, r, 8) && levels > 8
    ensures Fold(g, BOUNDED, r, MERGE_DEPTH + 1) == Fold(g, Fully, r, levels)
  {
    BoundedMeaning(g, r, MERGE_DEPTH, MERGE_DEPTH + 1);
    LevelsDoNotMatter(g, r, MERGE_DEPTH, MERGE_DEPTH + 1, levels);
  }

  // ----- past the bound -----

  const LAST: nat := 9
  const MERGE_TEXT: Id := 100
  const KEY_TEXT: Id := 101
  const KEY: Key := 1

  function ChainLink(next: Id): Node { Node(Mapping, 0, [MERGE_TEXT, next], None) }

  /** Mappings 0 to 8 each merge the next; the ninth after them writes the only key. */
  function Chain(): Graph {
    (n: Id) => if n < LAST then ChainLink(n + 1)
               else if n == LAST then Node(Mapping, 0, [KEY_TEXT, KEY_TEXT], None)
               else if n == KEY_TEXT then Node(Scalar, KEY, [], None)
               else Node(Scalar, MERGE_KEY, [], None)
  }

  lemma ChainSources(how: How, n: Id)
    requires n <= LAST && (how == Fully || how == BOUNDED)
    ensures MappingOf(Chain(), how, Some(n)) == Some(n)
    ensures n < LAST ==> Sources(Chain(), how, n) == [n + 1] && Direct(Chain(), Chain()(n).content) == map[]
    ensures n == LAST ==> Sources(Chain(), how, n) == [] && Direct(Chain(), Chain()(n).content) == map[KEY := KEY_TEXT]
  {
    var g := Chain();
    EndsAt(g, Some(n), 0);
    var c := g(n).content;
    assert |c| == 2 && c[2..] == [];
    if n < LAST {
      EndsAt(g, Some(n + 1), 0);
      assert MergeValues(g, c) == [c[1]] + MergeValues(g, []);
      assert MergeValues(g, c) == [n + 1];
      assert SourcesOf(g, how, n + 1) == [n + 1];
      OneSource(g, how, n + 1);
    }
  }

  lemma OneSource(g: Graph, how: How, v: Id)
    ensures SourcesOfAll(g, how, [v]) == SourcesOf(g, how, v)
  {
    assert [v][1..] == [];
    assert SourcesOf(g, how, v) + [] == SourcesOf(g, how, v);
  }

  lemma OneFold(g: Graph, how: How, v: Id, levels: nat)
    ensures FoldAll(g, how, [v], levels) == Fold(g, how, Some(v), levels)
  {
    assert [v][1..] == [];
    OverNothing(Fold(g, how, Some(v), levels));
  }

  /** The chain's key is reached with one more level than the chain is long, and not with fewer. */
  lemma {:induction false} ChainFold(how: How, n: Id, levels: nat)
    requires n <= LAST && (how == Fully || how == BOUNDED)
    ensures Fold(Chain(), how, Some(n), levels) == if levels > LAST - n then map[KEY := KEY_TEXT] else map[]
    decreases levels
  {
    var g := Chain();
    FoldNoLevels(g, how, Some(n));
    hide Over, MappingOf, Sources, Direct, Chain, Fold, FoldAll;
    if levels > 0 {
      ChainSources(how, n);
      FoldStep(g, how, Some(n), levels);
      if n < LAST {
        ChainFold(how, n + 1, levels - 1);
        OneFold(g, how, n + 1, levels - 1);
        OverNothing(FoldAll(g, how, [n + 1], levels - 1));
      } else {
        FoldAllNothing(g, how, levels - 1);
        OverNothing(map[KEY := KEY_TEXT]);
      }
    }
  }

  /** One merge deeper than the bound, the walk loses the key the meaning has. */
  lemma NinthMergeIsLost()
    ensures Fold(Chain(), BOUNDED, Some(0), MERGE_DEPTH + 1) == map[]
    ensures forall levels: nat | levels > LAST :: Fold(Chain(), Fully, Some(0), levels) == map[KEY := KEY_TEXT]
  {
    ChainFold(BOUNDED, 0, MERGE_DEPTH + 1);
    forall levels: nat | levels > LAST ensures Fold(Chain(), Fully, Some(0), levels) == map[KEY := KEY_TEXT] {
      ChainFold(Fully, 0, levels);
    }
  }
}
