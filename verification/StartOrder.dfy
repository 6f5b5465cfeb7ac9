/**
  The order services start in: a topological sort of depends_on with a first-in first-out queue,
  ties broken alphabetically.

  StartupOrder is the order as a function of the project alone; Compute is the source's algorithm on
  maps whose iteration order is arbitrary, proved to give that one result.
 */
module StartOrder {
  import opened Common

  /** Service names, by their rank in alphabetical order. */
  type Name = nat

  /** depends_on, per service. A dependency may name no service of the project. */
  type Project = map<Name, set<Name>>

  // ----- sorted lists -----

  predicate Ascending(s: seq<Name>) { forall i, j | 0 <= i < j < |s| :: s[i] < s[j] }

  function Elements(s: seq<Name>): set<Name> { set x | x in s }

  ghost function Least(s: set<Name>): (m: Name)
    requires s != {}
    ensures m in s && forall x | x in s :: m <= x
  {
    LeastExists(s);
    var m :| m in s && forall x | x in s :: m <= x;
    m
  }

  lemma {:induction false} FindLeast(s: set<Name>) returns (m: Name)
    requires s != {}
    ensures m in s && forall x | x in s :: m <= x
    decreases |s|
  {
    var x :| x in s;
    m := x;
    var rest := s - {x};
    if rest != {} {
      var least := FindLeast(rest);
      m := if least <= x then least else x;
    }
    assert s == rest + {x};
  }

  lemma LeastExists(s: set<Name>)
    requires s != {}
    ensures exists m :: m in s && forall x | x in s :: m <= x
  {
    var m := FindLeast(s);
  }

  lemma ElementsAppend(a: seq<Name>, b: seq<Name>)
    ensures Elements(a + b) == Elements(a) + Elements(b)
  {
  }

  lemma ElementsOne(x: Name)
    ensures Elements([x]) == {x} && Elements([]) == {} && NoRepeats([x])
  {
  }

  lemma SortedStep(h: Name, rest: seq<Name>, s: set<Name>)
    requires h in s && (forall x | x in s :: h <= x)
    requires Ascending(rest) && Elements(rest) == s - {h}
    ensures Ascending([h] + rest) && Elements([h] + rest) == s
  {
    ElementsAppend([h], rest);
    ElementsOne(h);
    forall i, j | 0 <= i < j < |[h] + rest| ensures ([h] + rest)[i] < ([h] + rest)[j] {
      assert rest[j - 1] in Elements(rest);
    }
  }

  /** The names of a set in alphabetical order. */
  ghost function Sorted(s: set<Name>): (r: seq<Name>)
    ensures Ascending(r) && Elements(r) == s && |r| == |s|
    decreases |s|
  {
    if s == {} then []
    else
      var rest := Sorted(s - {Least(s)});
      SortedStep(Least(s), rest, s);
      [Least(s)] + rest
  }

  /** An ascending list is determined by what it holds. */
  lemma {:induction false} AscendingUnique(a: seq<Name>, b: seq<Name>)
    requires Ascending(a) && Ascending(b) && Elements(a) == Elements(b)
    ensures a == b
  {
    assert a != [] ==> a[0] in Elements(a);
    assert b != [] ==> b[0] in Elements(b);
    if a != [] {
      assert a[0] == b[0];
      TailElements(a);
      TailElements(b);
      AscendingUnique(a[1..], b[1..]);
    }
  }

  lemma TailElements(a: seq<Name>)
    requires a != [] && Ascending(a)
    ensures Elements(a[1..]) == Elements(a) - {a[0]}
  {
    forall x ensures x in Elements(a[1..]) <==> x in Elements(a) - {a[0]} {
      if x in a && x != a[0] {
        var i :| 0 <= i < |a| && a[i] == x;
        assert a[1..][i - 1] == x;
      }
    }
  }

  /** sort.Strings on a list without repeats, by insertion. */
  method SortNames(s: seq<Name>) returns (r: seq<Name>)
    requires NoRepeats(s)
    ensures r == Sorted(Elements(s))
  {
    r := [];
    for i := 0 to |s|
      invariant Ascending(r) && Elements(r) == Elements(s[..i])
    {
      var k := 0;
      while k < |r| && r[k] < s[i]
        invariant 0 <= k <= |r|
        invariant forall j | 0 <= j < k :: r[j] < s[i]
      {
        k := k + 1;
      }
      assert s[i] !in r by {
        assert s[i] !in s[..i];
        assert s[i] !in Elements(s[..i]);
      }
      ghost var before := r;
      r := r[..k] + [s[i]] + r[k..];
      assert Elements(r) == Elements(before) + {s[i]} by {
        InsertElements(before, k, s[i]);
      }
      assert s[..i + 1] == s[..i] + [s[i]];
    }
    assert s[..|s|] == s;
    AscendingUnique(r, Sorted(Elements(s)));
  }

  lemma InsertElements(r: seq<Name>, k: nat, x: Name)
    requires k <= |r|
    ensures Elements(r[..k] + [x] + r[k..]) == Elements(r) + {x}
  {
    assert r == r[..k] + r[k..];
  }

  // ----- the order, as a function of the project -----

  predicate NoRepeats(s: seq<Name>) { forall i, j | 0 <= i < j < |s| :: s[i] != s[j] }

  /** Services with every dependency already placed, themselves not yet. */
  ghost function Eligible(p: Project, done: set<Name>): set<Name> {
    set m | m in p && m !in done && p[m] <= done
  }

  /** What placing n makes eligible. */
  ghost function Released(p: Project, done: set<Name>, n: Name): set<Name> {
    set m | m in p && n in p[m] && m !in done && p[m] <= done + {n}
  }

  /** The queue discipline: placed and queued services are distinct, and the queue is what is eligible. */
  ghost predicate QueueOk(p: Project, order: seq<Name>, ready: seq<Name>) {
    && NoRepeats(order + ready)
    && Elements(ready) == Eligible(p, Elements(order))
    && (forall i | 0 <= i < |order| :: order[i] in p && p[order[i]] <= Elements(order[..i]))
  }

  lemma EligibleStep(p: Project, done: set<Name>, n: Name)
    requires n in Eligible(p, done)
    ensures Eligible(p, done + {n}) == (Eligible(p, done) - {n}) + Released(p, done, n)
    ensures Released(p, done, n) !! Eligible(p, done)
  {
  }

  lemma HeadElements(s: seq<Name>)
    requires s != [] && NoRepeats(s)
    ensures Elements(s[1..]) == Elements(s) - {s[0]} && s[0] in Elements(s)
  {
    assert s == [s[0]] + s[1..];
    ElementsAppend([s[0]], s[1..]);
    ElementsOne(s[0]);
  }

  lemma NoRepeatsAppend(a: seq<Name>, b: seq<Name>)
    ensures NoRepeats(a + b) <==> NoRepeats(a) && NoRepeats(b) && Elements(a) !! Elements(b)
  {
    var c := a + b;
    if NoRepeats(c) {
      assert forall i | 0 <= i < |a| :: c[i] == a[i];
      assert forall i | 0 <= i < |b| :: c[|a| + i] == b[i];
    }
    if NoRepeats(a) && NoRepeats(b) && Elements(a) !! Elements(b) {
      forall i, j | 0 <= i < j < |c| ensures c[i] != c[j] {
        if i < |a| <= j {
          assert a[i] in Elements(a) && b[j - |a|] in Elements(b);
        }
      }
    }
  }

  lemma QueueStep(p: Project, order: seq<Name>, ready: seq<Name>)
    requires QueueOk(p, order, ready) && ready != []
    ensures var n := ready[0];
            && n in p && n !in Elements(order)
            && QueueOk(p, order + [n], ready[1..] + Sorted(Released(p, Elements(order), n)))
  {
    hide Sorted, Least;
    var n := ready[0];
    var done := Elements(order);
    var news := Sorted(Released(p, done, n));
    NoRepeatsAppend(order, ready);
    HeadElements(ready);
    EligibleStep(p, done, n);
    ElementsOne(n);
    ElementsAppend(order, [n]);
    ElementsAppend(ready[1..], news);
    QueueDistinct(order, ready, news);
    PlacedAfter(p, order, n);
  }

  lemma QueueDistinct(order: seq<Name>, ready: seq<Name>, news: seq<Name>)
    requires NoRepeats(order + ready) && ready != [] && Ascending(news)
    requires Elements(news) !! Elements(order) && Elements(news) !! Elements(ready)
    ensures NoRepeats((order + [ready[0]]) + (ready[1..] + news))
  {
    assert (order + [ready[0]]) + (ready[1..] + news) == (order + ready) + news;
    ElementsAppend(order, ready);
    NoRepeatsAppend(order + ready, news);
  }

  lemma PlacedAfter(p: Project, order: seq<Name>, n: Name)
    requires forall i | 0 <= i < |order| :: order[i] in p && p[order[i]] <= Elements(order[..i])
    requires n in p && p[n] <= Elements(order)
    ensures var o := order + [n];
            forall i | 0 <= i < |o| :: o[i] in p && p[o[i]] <= Elements(o[..i])
  {
    var o := order + [n];
    forall i | 0 <= i < |o| ensures o[i] in p && p[o[i]] <= Elements(o[..i]) {
      assert o[..i] == order[..i];
      assert order[..|order|] == order;
    }
  }

  ghost function Kahn(p: Project, order: seq<Name>, ready: seq<Name>): (r: seq<Name>)
    requires QueueOk(p, order, ready)
    ensures QueueOk(p, r, [])
    decreases p.Keys - Elements(order)
  {
    if ready == [] then order
    else
      QueueStep(p, order, ready);
      ElementsAppend(order, [ready[0]]);
      ElementsOne(ready[0]);
      Kahn(p, order + [ready[0]], ready[1..] + Sorted(Released(p, Elements(order), ready[0])))
  }

  lemma QueueStart(p: Project)
    ensures QueueOk(p, [], Sorted(Eligible(p, {})))
  {
    var ready := Sorted(Eligible(p, {}));
    assert Elements([]) == {};
    assert [] + ready == ready;
  }

  /** The startup order, or None when some service can never start. */
  ghost function StartupOrder(p: Project): (r: Option<seq<Name>>) {
    QueueStart(p);
    var o := Kahn(p, [], Sorted(Eligible(p, {})));
    if |o| == |p| then Some(o) else None
  }

  // ----- what the order promises -----

  /** Every service once, each after all its dependencies. */
  ghost predicate IsTopological(p: Project, o: seq<Name>) {
    && NoRepeats(o) && Elements(o) == p.Keys
    && forall i | 0 <= i < |o| :: p[o[i]] <= Elements(o[..i])
  }

  ghost predicate AllDefined(p: Project) { forall m | m in p :: p[m] <= p.Keys }

  /** A walk along depends_on that comes back to where it began. */
  ghost predicate IsWalk(p: Project, c: seq<Name>) {
    forall i | 0 <= i < |c| - 1 :: c[i] in p && c[i + 1] in p[c[i]]
  }

  ghost predicate IsCycle(p: Project, c: seq<Name>) { |c| >= 2 && c[0] == c[|c| - 1] && IsWalk(p, c) }

  lemma {:induction false} ElementsCount(s: seq<Name>)
    requires NoRepeats(s)
    ensures |Elements(s)| == |s|
  {
    if s != [] {
      ElementsCount(s[1..]);
      assert s == [s[0]] + s[1..];
      assert Elements(s) == {s[0]} + Elements(s[1..]);
      assert s[0] !in Elements(s[1..]);
    }
  }

  /** A successful order is a permutation of the services with every dependency before its dependents. */
  lemma OrderIsTopological(p: Project)
    requires StartupOrder(p).Some?
    ensures IsTopological(p, StartupOrder(p).value)
  {
    hide Kahn, Sorted, Least;
    QueueStart(p);
    var o := StartupOrder(p).value;
    assert o + [] == o;
    ElementsCount(o);
    assert Elements(o) <= p.Keys;
    SubsetFull(Elements(o), p.Keys);
  }

  lemma SubsetFull(a: set<Name>, b: set<Name>)
    requires a <= b && |a| == |b|
    ensures a == b
  {
    assert b == a + (b - a);
    assert |b| == |a| + |b - a|;
  }

  /** Position of a service in a topological order. */
  ghost function Position(o: seq<Name>, x: Name): (i: nat)
    requires x in o
    ensures i < |o| && o[i] == x
  {
    var i :| 0 <= i < |o| && o[i] == x;
    i
  }

  lemma SubWalk(p: Project, c: seq<Name>, i: nat, j: nat)
    requires IsWalk(p, c) && i <= j <= |c|
    ensures IsWalk(p, c[i..j])
  {
    forall k | 0 <= k < j - i - 1 ensures c[i..j][k] in p && c[i..j][k + 1] in p[c[i..j][k]] {
      assert c[i..j][k] == c[i + k] && c[i..j][k + 1] == c[i + k + 1];
    }
  }

  lemma {:induction false} WalkDescends(p: Project, o: seq<Name>, c: seq<Name>)
    requires IsTopological(p, o) && IsWalk(p, c) && |c| >= 2
    ensures c[0] in o && c[|c| - 1] in o && Position(o, c[|c| - 1]) < Position(o, c[0])
  {
    assert c[0] in p && c[1] in p[c[0]];
    var i := Position(o, c[0]);
    assert c[0] in Elements(o);
    assert c[1] in Elements(o[..i]);
    var j :| 0 <= j < i && o[j] == c[1];
    assert Position(o, c[1]) == j;
    if |c| > 2 {
      SubWalk(p, c, 1, |c|);
      WalkDescends(p, o, c[1..]);
    }
  }

  /** The stuck services: each waits for another of them, or for one that does not exist. */
  ghost function Stuck(p: Project): set<Name> {
    QueueStart(p);
    p.Keys - Elements(Kahn(p, [], Sorted(Eligible(p, {}))))
  }

  lemma StuckWait(p: Project, m: Name)
    requires AllDefined(p) && m in Stuck(p)
    ensures exists d :: d in p[m] && d in Stuck(p)
  {
    QueueStart(p);
    var o := Kahn(p, [], Sorted(Eligible(p, {})));
    assert m !in Eligible(p, Elements(o));
    var d :| d in p[m] && d !in Elements(o);
  }

  /** A walk of any length among the stuck services. */
  lemma {:induction false} StuckWalk(p: Project, m: Name, n: nat) returns (c: seq<Name>)
    requires AllDefined(p) && m in Stuck(p)
    ensures |c| == n + 1 && c[0] == m && IsWalk(p, c) && Elements(c) <= Stuck(p)
    decreases n
  {
    if n == 0 {
      c := [m];
    } else {
      StuckWait(p, m);
      var d :| d in p[m] && d in Stuck(p);
      var rest := StuckWalk(p, d, n - 1);
      c := [m] + rest;
      assert forall i | 0 < i < |c| :: c[i] == rest[i - 1];
    }
  }

  lemma FitsIn(c: seq<Name>, s: set<Name>)
    requires Elements(c) <= s && NoRepeats(c)
    ensures |c| <= |s|
  {
    ElementsCount(c);
    assert s == Elements(c) + (s - Elements(c));
  }

  /** A long enough list over a set repeats itself. */
  lemma Pigeonhole(c: seq<Name>, s: set<Name>)
    requires Elements(c) <= s && |c| > |s|
    ensures exists i, j :: 0 <= i < j < |c| && c[i] == c[j]
  {
    if NoRepeats(c) {
      FitsIn(c, s);
      assert false;
    }
  }

  lemma StuckMeansCycle(p: Project) returns (c: seq<Name>)
    requires AllDefined(p) && Stuck(p) != {}
    ensures IsCycle(p, c)
  {
    hide Stuck;
    var m :| m in Stuck(p);
    var w := StuckWalk(p, m, |Stuck(p)|);
    Pigeonhole(w, Stuck(p));
    var i, j :| 0 <= i < j < |w| && w[i] == w[j];
    c := w[i..j + 1];
    SubWalk(p, w, i, j + 1);
  }

  /** The order fails exactly when a dependency is undefined or depends_on has a cycle. */
  lemma FailsExactlyOnCycles(p: Project)
    ensures StartupOrder(p).None? <==> !AllDefined(p) || exists c :: IsCycle(p, c)
  {
    hide StartupOrder;
    if StartupOrder(p).Some? {
      OrderIsTopological(p);
      TopologicalMeansNoCycle(p, StartupOrder(p).value);
    } else if AllDefined(p) {
      FailureMeansStuck(p);
      var c := StuckMeansCycle(p);
    }
  }

  lemma TopologicalMeansNoCycle(p: Project, o: seq<Name>)
    requires IsTopological(p, o)
    ensures AllDefined(p) && !exists c :: IsCycle(p, c)
  {
    forall m | m in p ensures p[m] <= p.Keys {
      assert m in Elements(o);
      var i :| 0 <= i < |o| && o[i] == m;
      assert Elements(o[..i]) <= Elements(o);
    }
    forall c ensures !IsCycle(p, c) {
      if |c| >= 2 && IsWalk(p, c) {
        WalkDescends(p, o, c);
      }
    }
  }

  lemma FailureMeansStuck(p: Project)
    requires StartupOrder(p).None?
    ensures Stuck(p) != {}
  {
    hide Kahn, Sorted, Least;
    QueueStart(p);
    var o := Kahn(p, [], Sorted(Eligible(p, {})));
    assert o + [] == o;
    ElementsCount(o);
    assert Elements(o) <= p.Keys;
    assert p.Keys == Elements(o) + Stuck(p);
  }

  // ----- how ties are broken -----

  /** m becomes ready with the t-th service placed, the last of its dependencies; or at once, with t == 0. */
  ghost predicate ReadyAt(p: Project, o: seq<Name>, m: Name, t: nat) {
    m in p && t <= |o| && p[m] <= Elements(o[..t]) && (t == 0 || !(p[m] <= Elements(o[..t - 1])))
  }

  /** m goes before n: it was ready earlier, or at the same time and is first by name. */
  ghost predicate GoesBefore(p: Project, o: seq<Name>, m: Name, n: Name) {
    forall t, u | ReadyAt(p, o, m, t) && ReadyAt(p, o, n, u) :: t < u || (t == u && m < n)
  }

  /** Placed and queued services are all in turn. */
  ghost predicate InTurn(p: Project, o: seq<Name>, line: seq<Name>) {
    forall i, j | 0 <= i < j < |line| :: GoesBefore(p, o, line[i], line[j])
  }

  /** Placing one more service does not change when those already placed or queued became ready. */
  lemma ReadyStays(p: Project, o: seq<Name>, n: Name, m: Name, t: nat)
    requires m in p && p[m] <= Elements(o)
    ensures ReadyAt(p, o + [n], m, t) <==> ReadyAt(p, o, m, t)
  {
    assert o[..|o|] == o && (o + [n])[..|o|] == o;
    if t <= |o| {
      assert (o + [n])[..t] == o[..t];
      assert t > 0 ==> (o + [n])[..t - 1] == o[..t - 1];
    }
  }

  lemma ReleasedReadyNow(p: Project, o: seq<Name>, n: Name, m: Name, t: nat)
    requires n !in Elements(o) && m in Released(p, Elements(o), n)
    ensures ReadyAt(p, o + [n], m, t) <==> t == |o| + 1
  {
    var o' := o + [n];
    assert o'[..|o|] == o && o'[..|o| + 1] == o';
    ElementsAppend(o, [n]);
    ElementsOne(n);
    if t <= |o| {
      assert o'[..t] == o[..t] && Elements(o[..t]) <= Elements(o);
    }
  }

  lemma PlacedIsReady(p: Project, order: seq<Name>, ready: seq<Name>, i: nat)
    requires QueueOk(p, order, ready) && i < |order + ready|
    ensures var m := (order + ready)[i]; m in p && p[m] <= Elements(order)
  {
    var m := (order + ready)[i];
    if i < |order| {
      assert Elements(order[..i]) <= Elements(order);
    } else {
      assert m == ready[i - |order|] && m in Elements(ready);
    }
  }

  lemma TurnStep(p: Project, order: seq<Name>, ready: seq<Name>)
    requires QueueOk(p, order, ready) && ready != [] && InTurn(p, order, order + ready)
    ensures var n := ready[0];
            var news := Sorted(Released(p, Elements(order), n));
            InTurn(p, order + [n], (order + [n]) + (ready[1..] + news))
  {
    hide Sorted, ReadyAt;
    var n := ready[0];
    var news := Sorted(Released(p, Elements(order), n));
    var line, o' := order + ready, order + [n];
    QueueStep(p, order, ready);
    assert o' + (ready[1..] + news) == line + news;
    forall i, j | 0 <= i < j < |line + news| ensures GoesBefore(p, o', (line + news)[i], (line + news)[j]) {
      var a, b := (line + news)[i], (line + news)[j];
      forall t, u | ReadyAt(p, o', a, t) && ReadyAt(p, o', b, u) ensures t < u || (t == u && a < b) {
        if j < |line| {
          PlacedIsReady(p, order, ready, i);
          PlacedIsReady(p, order, ready, j);
          ReadyStays(p, order, n, a, t);
          ReadyStays(p, order, n, b, u);
          assert GoesBefore(p, order, line[i], line[j]);
        } else {
          NewsReadyNow(p, order, n, news, j - |line|, u);
          if i < |line| {
            PlacedIsReady(p, order, ready, i);
            ReadyStays(p, order, n, a, t);
            ReadyBounded(p, order, a, t);
          } else {
            NewsReadyNow(p, order, n, news, i - |line|, t);
          }
        }
      }
    }
  }

  lemma ReadyBounded(p: Project, o: seq<Name>, m: Name, t: nat)
    requires ReadyAt(p, o, m, t)
    ensures t <= |o|
  {
  }

  lemma NewsReadyNow(p: Project, o: seq<Name>, n: Name, news: seq<Name>, i: nat, t: nat)
    requires n !in Elements(o) && Elements(news) == Released(p, Elements(o), n) && i < |news|
    ensures ReadyAt(p, o + [n], news[i], t) <==> t == |o| + 1
  {
    assert news[i] in Elements(news);
    ReleasedReadyNow(p, o, n, news[i], t);
  }

  lemma {:induction false} KahnInTurn(p: Project, order: seq<Name>, ready: seq<Name>)
    requires QueueOk(p, order, ready) && InTurn(p, order, order + ready)
    ensures var o := Kahn(p, order, ready); InTurn(p, o, o)
    decreases p.Keys - Elements(order)
  {
    if ready == [] {
      assert order + ready == order;
    } else {
      QueueStep(p, order, ready);
      TurnStep(p, order, ready);
      ElementsAppend(order, [ready[0]]);
      ElementsOne(ready[0]);
      KahnInTurn(p, order + [ready[0]], ready[1..] + Sorted(Released(p, Elements(order), ready[0])));
      hide InTurn, Sorted, Released;
    }
  }

  /** The order is in turn: by when each service became ready, and alphabetical among those ready together. */
  lemma OrderIsInTurn(p: Project)
    requires StartupOrder(p).Some?
    ensures var o := StartupOrder(p).value; InTurn(p, o, o)
  {
    QueueStart(p);
    var ready := Sorted(Eligible(p, {}));
    assert [] + ready == ready;
    KahnInTurn(p, [], ready);
    hide Kahn, InTurn, Sorted;
  }

  lemma {:induction false} FindReady(p: Project, o: seq<Name>, m: Name, k: nat) returns (t: nat)
    requires m in p && k <= |o| && p[m] <= Elements(o[..k])
    ensures t <= k && ReadyAt(p, o, m, t)
    decreases k
  {
    if k > 0 && p[m] <= Elements(o[..k - 1]) {
      t := FindReady(p, o, m, k - 1);
    } else {
      t := k;
    }
  }

  /** What is ready after a common prefix became ready at the same place in both. */
  lemma ReadySame(p: Project, o: seq<Name>, q: seq<Name>, k: nat, m: Name, t: nat)
    requires k <= |o| && k <= |q| && o[..k] == q[..k] && t <= k
    ensures ReadyAt(p, o, m, t) <==> ReadyAt(p, q, m, t)
  {
    assert o[..t] == o[..k][..t] && q[..t] == q[..k][..t];
    assert t > 0 ==> o[..t - 1] == o[..k][..t - 1] && q[..t - 1] == q[..k][..t - 1];
  }

  lemma NextIsForced(p: Project, o: seq<Name>, q: seq<Name>, k: nat)
    requires IsTopological(p, o) && IsTopological(p, q) && InTurn(p, o, o) && InTurn(p, q, q)
    requires k < |o| && k < |q| && o[..k] == q[..k]
    ensures o[k] == q[k]
  {
    var a, b := o[k], q[k];
    if a != b {
      var i := LaterIn(p, o, q, k);
      var j := LaterIn(p, q, o, k);
      var t := FindReady(p, o, a, k);
      var u := FindReady(p, q, b, k);
      ReadySame(p, o, q, k, a, t);
      ReadySame(p, o, q, k, b, u);
      assert false;
    }
  }

  /** The k-th service of o comes later in q, when q has another there. */
  lemma LaterIn(p: Project, o: seq<Name>, q: seq<Name>, k: nat) returns (i: nat)
    requires IsTopological(p, o) && IsTopological(p, q) && k < |o| && k < |q| && o[..k] == q[..k] && o[k] != q[k]
    ensures k < i < |q| && q[i] == o[k] && o[k] in p && p[o[k]] <= Elements(o[..k])
  {
    assert o[k] in Elements(o);
    assert o[k] in Elements(q);
    i :| 0 <= i < |q| && q[i] == o[k];
    assert forall h | 0 <= h < k :: q[..k][h] == q[h] && o[..k][h] == o[h];
  }

  lemma {:induction false} SamePrefix(p: Project, o: seq<Name>, q: seq<Name>, k: nat)
    requires IsTopological(p, o) && IsTopological(p, q) && InTurn(p, o, o) && InTurn(p, q, q)
    requires k <= |o| && k <= |q|
    ensures o[..k] == q[..k]
    decreases k
  {
    if k > 0 {
      SamePrefix(p, o, q, k - 1);
      NextIsForced(p, o, q, k - 1);
      assert o[..k] == o[..k - 1] + [o[k - 1]] && q[..k] == q[..k - 1] + [q[k - 1]];
    }
  }

  /** No other order does: dependencies first, earlier ready first, alphabetical among equals. */
  lemma OrderIsTheOnlyOne(p: Project, q: seq<Name>)
    requires IsTopological(p, q) && InTurn(p, q, q)
    ensures StartupOrder(p) == Some(q)
  {
    hide StartupOrder, InTurn;
    TopologicalMeansNoCycle(p, q);
    FailsExactlyOnCycles(p);
    var o := StartupOrder(p).value;
    OrderIsTopological(p);
    OrderIsInTurn(p);
    ElementsCount(o);
    ElementsCount(q);
    SamePrefix(p, o, q, |q|);
    assert o[..|q|] == o && q[..|q|] == q;
  }

  // ----- the algorithm -----

  function Of(dependents: map<Name, seq<Name>>, d: Name): seq<Name> {
    if d in dependents then dependents[d] else []
  }

  /** Services among some, that depend on d. */
  ghost function Dependents(p: Project, some: set<Name>, d: Name): set<Name> {
    set m | m in p && m in some && d in p[m]
  }

  ghost predicate Indexed(p: Project, some: set<Name>, dependents: map<Name, seq<Name>>) {
    forall d :: NoRepeats(Of(dependents, d)) && Elements(Of(dependents, d)) == Dependents(p, some, d)
  }

  /** indegree counts the dependencies not yet placed. */
  ghost predicate Counted(p: Project, done: set<Name>, indegree: map<Name, nat>) {
    indegree.Keys == p.Keys && forall m | m in p :: indegree[m] == |p[m] - done|
  }

  /** One service's dependencies, visited in any order. */
  method AddService(p: Project, ghost some: set<Name>, name: Name, dependents: map<Name, seq<Name>>)
    returns (count: nat, dependents': map<Name, seq<Name>>)
    requires name in p && name !in some && Indexed(p, some, dependents)
    ensures count == |p[name]| && Indexed(p, some + {name}, dependents')
  {
    count, dependents' := 0, dependents;
    var left := p[name];
    while left != {}
      invariant left <= p[name] && count == |p[name]| - |left|
      invariant forall d :: Of(dependents', d) == Of(dependents, d) + (if d in p[name] - left then [name] else [])
      decreases |left|
    {
      var dep :| dep in left;
      left := left - {dep};
      count := count + 1;
      dependents' := dependents'[dep := Of(dependents', dep) + [name]];
    }
    forall d ensures NoRepeats(Of(dependents', d))
                     && Elements(Of(dependents', d)) == Dependents(p, some + {name}, d) {
      AddedOnce(p, some, name, d, Of(dependents, d));
    }
  }

  lemma AddedOnce(p: Project, some: set<Name>, name: Name, d: Name, was: seq<Name>)
    requires name in p && name !in some && NoRepeats(was) && Elements(was) == Dependents(p, some, d)
    ensures var now := was + (if d in p[name] then [name] else []);
            NoRepeats(now) && Elements(now) == Dependents(p, some + {name}, d)
  {
    if d in p[name] {
      ElementsOne(name);
      NoRepeatsAppend(was, [name]);
      ElementsAppend(was, [name]);
    } else {
      assert was + [] == was;
    }
  }

  /** The maps once every service outside left was visited. */
  ghost predicate Visited(p: Project, left: set<Name>, indegree: map<Name, nat>, dependents: map<Name, seq<Name>>) {
    && left <= p.Keys && indegree.Keys == p.Keys - left && (forall m | m in indegree :: indegree[m] == |p[m]|)
    && Indexed(p, p.Keys - left, dependents)
  }

  lemma VisitStart(p: Project)
    ensures Visited(p, p.Keys, map[], map[])
  {
    ElementsOne(0);
  }

  lemma VisitStep(p: Project, left: set<Name>, indegree: map<Name, nat>, dependents: map<Name, seq<Name>>,
                  name: Name, count: nat, more: map<Name, seq<Name>>)
    requires Visited(p, left, indegree, dependents) && name in left
    requires count == |p[name]| && Indexed(p, p.Keys - left + {name}, more)
    ensures Visited(p, left - {name}, indegree[name := count], more)
  {
    hide Indexed;
    assert p.Keys - (left - {name}) == (p.Keys - left) + {name};
  }

  lemma VisitEnd(p: Project, indegree: map<Name, nat>, dependents: map<Name, seq<Name>>)
    requires Visited(p, {}, indegree, dependents)
    ensures Counted(p, {}, indegree) && Indexed(p, p.Keys, dependents)
  {
    hide Indexed;
    assert p.Keys - {} == p.Keys;
    forall m | m in p ensures indegree[m] == |p[m] - {}| {
      assert p[m] - {} == p[m];
    }
  }

  /** The first loop: every service visited once, in any order. */
  method Index(p: Project) returns (indegree: map<Name, nat>, dependents: map<Name, seq<Name>>)
    ensures Counted(p, {}, indegree) && Indexed(p, p.Keys, dependents)
  {
    hide Indexed, Counted;
    indegree, dependents := map[], map[];
    var left := p.Keys;
    VisitStart(p);
    while left != {}
      invariant Visited(p, left, indegree, dependents)
      decreases left
    {
      var name :| name in left;
      var count, more := AddService(p, p.Keys - left, name, dependents);
      VisitStep(p, left, indegree, dependents, name, count, more);
      left, indegree, dependents := left - {name}, indegree[name := count], more;
    }
    VisitEnd(p, indegree, dependents);
  }

  /** The services of count zero found outside left. */
  ghost predicate ReadySoFar(p: Project, left: set<Name>, ready: seq<Name>) {
    left <= p.Keys && NoRepeats(ready) && Elements(ready) == Eligible(p, {}) - left
  }

  lemma ReadyStart(p: Project)
    ensures ReadySoFar(p, p.Keys, [])
  {
    ElementsOne(0);
  }

  lemma ReadyStep(p: Project, left: set<Name>, ready: seq<Name>, indegree: map<Name, nat>, name: Name)
    requires ReadySoFar(p, left, ready) && Counted(p, {}, indegree) && name in left
    ensures name in indegree
    ensures ReadySoFar(p, left - {name}, if indegree[name] == 0 then ready + [name] else ready)
  {
    hide Elements, NoRepeats, Eligible;
    CountZero(p, name, indegree);
    ElementsOne(name);
    NoRepeatsAppend(ready, [name]);
    ElementsAppend(ready, [name]);
    TakeOut(Eligible(p, {}), left, name);
  }

  lemma CountZero(p: Project, name: Name, indegree: map<Name, nat>)
    requires Counted(p, {}, indegree) && name in p
    ensures name in Eligible(p, {}) <==> indegree[name] == 0
  {
    NoneLeft(p[name], {});
  }

  lemma TakeOut(first: set<Name>, left: set<Name>, name: Name)
    requires name in left
    ensures first - (left - {name}) == (first - left) + (if name in first then {name} else {})
    ensures (first - left) !! {name}
  {
  }

  lemma ReadyEnd(p: Project, ready: seq<Name>)
    requires ReadySoFar(p, {}, ready)
    ensures NoRepeats(ready) && Elements(ready) == Eligible(p, {})
  {
    assert Eligible(p, {}) - {} == Eligible(p, {});
  }

  /** The services whose count starts at zero, found in any order and then sorted. */
  method FirstReady(p: Project, indegree: map<Name, nat>) returns (ready: seq<Name>)
    requires Counted(p, {}, indegree)
    ensures ready == Sorted(Eligible(p, {}))
  {
    assert indegree.Keys == p.Keys;
    hide Sorted, Eligible, Elements, NoRepeats, Counted, ReadySoFar;
    ready := [];
    var left := indegree.Keys;
    ReadyStart(p);
    while left != {}
      invariant ReadySoFar(p, left, ready)
      decreases left
    {
      var name :| name in left;
      ReadyStep(p, left, ready, indegree, name);
      left := left - {name};
      if indegree[name] == 0 {
        ready := ready + [name];
      }
    }
    ReadyEnd(p, ready);
    ready := SortNames(ready);
  }

  lemma NoneLeft(a: set<Name>, b: set<Name>)
    ensures |a - b| == 0 <==> a <= b
  {
    if a <= b {
      assert a - b == {};
    } else {
      var x :| x in a && x !in b;
      assert x in a - b;
    }
  }

  lemma OneLess(a: set<Name>, done: set<Name>, n: Name)
    requires n !in done
    ensures |a - (done + {n})| == |a - done| - (if n in a then 1 else 0)
  {
    if n in a {
      assert a - done == (a - (done + {n})) + {n};
    } else {
      assert a - done == a - (done + {n});
    }
  }

  /** The counts after n was placed and its first k dependents were visited. */
  ghost predicate HalfCounted(p: Project, done: set<Name>, n: Name, visited: seq<Name>, indegree: map<Name, nat>) {
    && indegree.Keys == p.Keys
    && forall m | m in p :: indegree[m] == |p[m] - (if m in visited then done + {n} else done)|
  }

  lemma VisitCounts(p: Project, done: set<Name>, n: Name, visited: seq<Name>, m: Name, indegree: map<Name, nat>)
    requires HalfCounted(p, done, n, visited, indegree)
    requires m in p && n in p[m] && n !in done && m !in done && m !in visited
    ensures indegree[m] >= 1
    ensures HalfCounted(p, done, n, visited + [m], indegree[m := indegree[m] - 1])
    ensures indegree[m] - 1 == 0 <==> m in Released(p, done, n)
  {
    OneLess(p[m], done, n);
    NoneLeft(p[m], done + {n});
  }

  /** The list news holds what of some was visited, in alphabetical order. */
  ghost predicate Collected(news: seq<Name>, visited: seq<Name>, some: set<Name>) {
    Ascending(news) && Elements(news) == Elements(visited) * some
  }

  lemma Collect(news: seq<Name>, visited: seq<Name>, some: set<Name>, m: Name)
    requires Collected(news, visited, some) && Ascending(visited + [m])
    ensures Collected(if m in some then news + [m] else news, visited + [m], some)
  {
    ElementsAppend(visited, [m]);
    ElementsOne(m);
    assert (Elements(visited) + {m}) * some == Elements(visited) * some + {m} * some;
    if m in some {
      ElementsAppend(news, [m]);
      forall i | 0 <= i < |news| ensures news[i] < m {
        assert news[i] in Elements(news);
        var j :| 0 <= j < |visited| && visited[j] == news[i];
        assert (visited + [m])[j] < (visited + [m])[|visited|];
      }
    }
  }

  lemma AllCollected(news: seq<Name>, visited: seq<Name>, some: set<Name>)
    requires Collected(news, visited, some) && some <= Elements(visited)
    ensures news == Sorted(some)
  {
    hide Sorted;
    assert Elements(news) == some;
    AscendingUnique(news, Sorted(some));
  }

  lemma Visiting(next: seq<Name>, k: nat)
    requires Ascending(next) && k < |next|
    ensures next[k] !in next[..k] && next[..k + 1] == next[..k] + [next[k]] && Ascending(next[..k] + [next[k]])
  {
  }

  lemma ReleaseStart(p: Project, done: set<Name>, n: Name, next: seq<Name>, indegree: map<Name, nat>)
    requires Counted(p, done, indegree) && Elements(next) == Dependents(p, p.Keys, n)
    requires forall m | m in p && m in done :: n !in p[m]
    ensures HalfCounted(p, done, n, [], indegree) && Collected([], [], Released(p, done, n))
    ensures forall k | 0 <= k < |next| :: next[k] in p && n in p[next[k]] && next[k] !in done
    ensures Released(p, done, n) <= Elements(next)
  {
    ElementsOne(n);
    assert forall k | 0 <= k < |next| :: next[k] in Elements(next);
  }

  lemma AllVisited(p: Project, done: set<Name>, n: Name, next: seq<Name>, indegree: map<Name, nat>)
    requires HalfCounted(p, done, n, next, indegree) && n !in done
    requires Elements(next) == Dependents(p, p.Keys, n)
    ensures Counted(p, done + {n}, indegree)
  {
    forall m | m in p ensures indegree[m] == |p[m] - (done + {n})| {
      assert m in next <==> m in Elements(next);
      OneLess(p[m], done, n);
    }
  }

  /** The inner loop: every dependent loses one count, and those that reach zero join the queue. */
  method Release(p: Project, ghost done: set<Name>, n: Name, next: seq<Name>,
                 indegree: map<Name, nat>, ready: seq<Name>)
    returns (indegree': map<Name, nat>, ready': seq<Name>)
    requires n !in done && (forall m | m in p && m in done :: n !in p[m]) && Counted(p, done, indegree)
    requires Ascending(next) && Elements(next) == Dependents(p, p.Keys, n)
    ensures Counted(p, done + {n}, indegree')
    ensures ready' == ready + Sorted(Released(p, done, n))
  {
    ReleaseStart(p, done, n, next, indegree);
    hide Sorted, Least, Released, Dependents, HalfCounted, Counted, Elements, Collected, Ascending;
    indegree', ready' := indegree, ready;
    ghost var news: seq<Name> := [];
    ghost var some := Released(p, done, n);
    assert next[..0] == [];
    for k := 0 to |next|
      invariant HalfCounted(p, done, n, next[..k], indegree')
      invariant ready' == ready + news && Collected(news, next[..k], some)
    {
      var m := next[k];
      Visiting(next, k);
      VisitCounts(p, done, n, next[..k], m, indegree');
      Collect(news, next[..k], some, m);
      Assoc(ready, news, [m]);
      indegree' := indegree'[m := indegree'[m] - 1];
      if indegree'[m] == 0 {
        ready' := ready' + [m];
        news := news + [m];
      }
    }
    assert next[..|next|] == next;
    AllCollected(news, next, some);
    AllVisited(p, done, n, next, indegree');
  }

  /** startupOrder: whatever order the maps are walked in, the result is the one StartupOrder gives. */
  method Compute(p: Project) returns (r: Option<seq<Name>>)
    ensures r == StartupOrder(p)
  {
    hide Sorted, Least;
    var indegree, dependents := Index(p);
    var ready := FirstReady(p, indegree);
    QueueStart(p);
    ghost var result := Kahn(p, [], ready);
    var order := [];
    assert Elements([]) == {};
    while ready != []
      invariant QueueOk(p, order, ready) && Kahn(p, order, ready) == result
      invariant Counted(p, Elements(order), indegree)
      decreases p.Keys - Elements(order)
    {
      QueueStep(p, order, ready);
      var n := ready[0];
      assert n in Elements(ready);
      ElementsAppend(order, [n]);
      ElementsOne(n);
      var next := SortNames(Of(dependents, n));
      indegree, ready := Release(p, Elements(order), n, next, indegree, ready[1..]);
      order := order + [n];
    }
    r := if |order| == |p| then Some(order) else None;
  }
}
