/**
  Bringing a project up: services start in dependency order, each behind the gates its dependencies
  declare, and any failure unwinds everything that was created.

  Every answer from outside (a health probe, a child command, a read of a record, a signal) is a
  parameter, so what is proved holds for all of them.
 */
module ComposeUp {
  import opened Common
  import opened StartOrder

  type Instance = nat

  datatype Condition = Started | Healthy | Completed

  datatype Dependency = Dependency(condition: Condition, required: bool)

  /** How a service's health can be asked for; Broken is a probe that does not parse. */
  datatype Probe = Exec | Tcp | Broken

  datatype Service = Service(
    dependsOn: map<Name, Dependency>, job: bool, probe: Probe, hooks: bool, instance: Instance)

  type Services = map<Name, Service>

  /** The instance records, with the exit status once there is one. */
  type Store = map<Instance, Option<int>>

  datatype JobAnswer = JobError | JobExit(code: int)

  /** What the outside answers while one service is being started. */
  datatype Answers = Answers(
    interrupted: bool, readable: set<Name>, healthy: set<Name>,
    argsOk: bool, runOk: bool, halfCreated: bool, saveOk: bool, job: JobAnswer, hooksOk: bool)

  /** Why a service failed; made says whether its failed run left an instance behind. */
  datatype Reason = Interrupted | CompletionGate | HealthGate | BadArgs | RunFailed(made: bool) | SaveFailed
                  | JobFailed | HookFailed

  datatype Outcome = Refused | Failed(service: Name, reason: Reason) | Succeeded

  function Graph(services: Services): Project { map n | n in services :: services[n].dependsOn.Keys }

  // ----- instance names -----

  ghost predicate DistinctInstances(services: Services) {
    forall a, b | a in services && b in services && services[a].instance == services[b].instance :: a == b
  }

  /** checkInstanceNames: accepts exactly the projects whose services have distinct instance names. */
  method CheckInstanceNames(services: Services) returns (ok: bool)
    ensures ok <==> DistinctInstances(services)
  {
    var seen: map<Instance, Name> := map[];
    var left := services.Keys;
    while left != {}
      invariant left <= services.Keys
      invariant forall a | a in services && a !in left :: services[a].instance in seen
      invariant forall i | i in seen :: seen[i] in services && seen[i] !in left && services[seen[i]].instance == i
      invariant forall a | a in services && a !in left :: seen[services[a].instance] == a
      decreases left
    {
      var name :| name in left;
      var i := services[name].instance;
      if i in seen {
        assert services[seen[i]].instance == services[name].instance && seen[i] != name;
        return false;
      }
      seen := seen[i := name];
      left := left - {name};
    }
    return true;
  }

  // ----- jobs -----

  predicate GatesOn(other: Service, name: Name) {
    name in other.dependsOn && other.dependsOn[name].condition == Completed
  }

  /** A service is a job when it says so, or when some service waits for its completion. */
  ghost predicate IsJob(services: Services, name: Name) {
    (name in services && services[name].job) || exists other :: other in services && GatesOn(services[other], name)
  }

  method IsOneShot(services: Services, name: Name) returns (r: bool)
    ensures r <==> IsJob(services, name)
    ensures r <==> (name in services && services[name].job)
                   || exists o :: o in services && name in services[o].dependsOn
                                  && services[o].dependsOn[name].condition == Completed
  {
    if name in services && services[name].job {
      return true;
    }
    var left := services.Keys;
    while left != {}
      invariant left <= services.Keys
      invariant forall other | other in services && other !in left :: !GatesOn(services[other], name)
      decreases left
    {
      var other :| other in left;
      if GatesOn(services[other], name) {
        return true;
      }
      left := left - {other};
    }
    return false;
  }

  // ----- the unwind order -----

  /** Recorded instances, last started first. */
  function TeardownOrder(order: seq<Name>, recorded: map<Name, Instance>): seq<Instance> {
    if order == [] then []
    else
      var last := order[|order| - 1];
      (if last in recorded then [recorded[last]] else []) + TeardownOrder(order[..|order| - 1], recorded)
  }

  method ListTeardown(order: seq<Name>, recorded: map<Name, Instance>) returns (instances: seq<Instance>)
    ensures instances == TeardownOrder(order, recorded)
  {
    instances := [];
    var i := |order|;
    assert order[..i] == order;
    while i > 0
      invariant 0 <= i <= |order|
      invariant TeardownOrder(order, recorded) == instances + TeardownOrder(order[..i], recorded)
    {
      i := i - 1;
      assert order[..i + 1][..i] == order[..i];
      if order[i] in recorded {
        instances := instances + [recorded[order[i]]];
      }
    }
  }

  /** Where a list holds x, for stating what comes before what. */
  ghost predicate Before(s: seq<nat>, x: nat, y: nat) {
    exists i, j :: 0 <= i < j < |s| && s[i] == x && s[j] == y
  }

  lemma {:induction false} TeardownHolds(order: seq<Name>, recorded: map<Name, Instance>, x: Instance)
    ensures x in TeardownOrder(order, recorded) <==> exists n :: n in order && n in recorded && recorded[n] == x
  {
    if order != [] {
      var last := order[|order| - 1];
      var front := order[..|order| - 1];
      assert order == front + [last];
      TeardownHolds(front, recorded, x);
      if x in TeardownOrder(front, recorded) {
        var n :| n in front && n in recorded && recorded[n] == x;
        assert n in order;
      }
      if n :| n in order && n in recorded && recorded[n] == x && n != last {
        assert n in front;
      }
    }
  }

  ghost predicate Injective(recorded: map<Name, Instance>) {
    forall a, b | a in recorded && b in recorded && recorded[a] == recorded[b] :: a == b
  }

  /** With distinct instance names, no instance is listed twice. */
  lemma {:induction false} TeardownOnce(order: seq<Name>, recorded: map<Name, Instance>)
    requires NoRepeats(order) && Injective(recorded)
    ensures NoRepeats(TeardownOrder(order, recorded))
  {
    if order != [] {
      var last := order[|order| - 1];
      var front := order[..|order| - 1];
      TeardownOnce(front, recorded);
      if last in recorded {
        TeardownHolds(front, recorded, recorded[last]);
        assert last !in front;
        var tail := TeardownOrder(front, recorded);
        assert recorded[last] !in tail;
        ElementsOne(recorded[last]);
        NoRepeatsAppend([recorded[last]], tail);
      }
    }
  }

  /** Whatever started later stops earlier. */
  lemma {:induction false} TeardownReverses(order: seq<Name>, recorded: map<Name, Instance>, i: nat, j: nat)
    requires i < j < |order| && order[i] in recorded && order[j] in recorded
    ensures Before(TeardownOrder(order, recorded), recorded[order[j]], recorded[order[i]])
  {
    var last := order[|order| - 1];
    var front := order[..|order| - 1];
    var tail := TeardownOrder(front, recorded);
    var whole := TeardownOrder(order, recorded);
    if j < |order| - 1 {
      TeardownReverses(front, recorded, i, j);
      var a, b :| 0 <= a < b < |tail| && tail[a] == recorded[order[j]] && tail[b] == recorded[order[i]];
      var shift := |whole| - |tail|;
      assert whole[a + shift] == tail[a] && whole[b + shift] == tail[b];
    } else {
      assert front[i] in front;
      TeardownHolds(front, recorded, recorded[order[i]]);
      var b :| 0 <= b < |tail| && tail[b] == recorded[order[i]];
      assert whole[0] == recorded[last] && whole[b + 1] == tail[b];
    }
  }

  /**
    The unwind of any recorded subset of a topologically ordered project: each recorded instance exactly
    once, and a dependent always before what it depends on.
   */
  lemma TeardownIsSafe(services: Services, order: seq<Name>, recorded: map<Name, Instance>)
    requires IsTopological(Graph(services), order) && Injective(recorded) && recorded.Keys <= services.Keys
    ensures var t := TeardownOrder(order, recorded);
            && NoRepeats(t) && Elements(t) == recorded.Values
            && forall a, d | a in recorded && d in recorded && d in services[a].dependsOn ::
                 Before(t, recorded[a], recorded[d])
  {
    var t := TeardownOrder(order, recorded);
    TeardownOnce(order, recorded);
    forall x ensures x in t <==> x in recorded.Values {
      TeardownHolds(order, recorded, x);
      if x in recorded.Values {
        var n :| n in recorded && recorded[n] == x;
        assert n in Elements(order);
      }
    }
    forall a, d | a in recorded && d in recorded && d in services[a].dependsOn
      ensures Before(t, recorded[a], recorded[d])
    {
      var i, j := DependencyEarlier(services, order, a, d);
      TeardownReverses(order, recorded, i, j);
    }
  }

  lemma DependencyEarlier(services: Services, order: seq<Name>, a: Name, d: Name) returns (i: nat, j: nat)
    requires IsTopological(Graph(services), order) && a in services && d in services[a].dependsOn
    ensures i < j < |order| && order[i] == d && order[j] == a
  {
    assert a in Elements(order);
    j :| 0 <= j < |order| && order[j] == a;
    assert d in Graph(services)[a];
    assert d in Elements(order[..j]);
    i :| 0 <= i < j && order[..j][i] == d;
  }

  // ----- the gates -----

  /** The moment a service's VM is started: what was recorded, what the records said, what was answered. */
  datatype Snapshot = Snapshot(
    service: Name, recorded: map<Name, Instance>, store: Store, answers: Answers)

  ghost predicate ExitedZero(store: Store, i: Instance) { i in store && store[i] == Some(0) }

  /** Every dependency is recorded; one waited on for completion exited 0; a required health gate passed. */
  ghost predicate GateOpen(services: Services, s: Snapshot) {
    s.service in services &&
    forall d | d in services[s.service].dependsOn ::
      && d in services && d in s.recorded && s.recorded[d] == services[d].instance
      && (services[s.service].dependsOn[d].condition == Completed ==> ExitedZero(s.store, services[d].instance))
      && (services[s.service].dependsOn[d] == Dependency(Healthy, true) ==> d in s.answers.healthy)
  }

  /** Starts follow the order, each behind an open gate. */
  ghost predicate Gated(services: Services, order: seq<Name>, starts: seq<Snapshot>) {
    && |starts| <= |order|
    && forall i | 0 <= i < |starts| :: starts[i].service == order[i] && GateOpen(services, starts[i])
  }

  /** checkCompletedDeps: optional dependencies only warn. */
  method CheckCompletedDeps(deps: map<Name, Dependency>, recorded: map<Name, Instance>, store: Store,
                            readable: set<Name>)
    returns (ok: bool)
    ensures ok <==> forall d | d in deps && deps[d] == Dependency(Completed, true) ::
                      d in recorded && d in readable && ExitedZero(store, recorded[d])
  {
    var left := deps.Keys;
    while left != {}
      invariant left <= deps.Keys
      invariant forall d | d in deps && d !in left && deps[d] == Dependency(Completed, true) ::
                  d in recorded && d in readable && ExitedZero(store, recorded[d])
      decreases left
    {
      var d :| d in left;
      left := left - {d};
      if deps[d].condition != Completed {
        continue;
      }
      if d !in recorded || d !in readable || recorded[d] !in store {
        if deps[d].required {
          return false;
        }
        continue;
      }
      var status := store[recorded[d]];
      if status.None? || status.value != 0 {
        if deps[d].required {
          return false;
        }
      }
    }
    return true;
  }

  /** A health gate of one dependency: an unparsable probe always refuses, a failed one only when required. */
  predicate HealthPasses(services: Services, d: Name, dep: Dependency, healthy: set<Name>) {
    dep.condition == Healthy ==> !(d in services && services[d].probe == Broken) && (dep.required ==> d in healthy)
  }

  method CheckHealth(services: Services, deps: map<Name, Dependency>, healthy: set<Name>) returns (ok: bool)
    ensures ok <==> forall d | d in deps :: HealthPasses(services, d, deps[d], healthy)
    ensures ok <==> forall d | d in deps && deps[d].condition == Healthy ::
                      !(d in services && services[d].probe == Broken) && (d in healthy || !deps[d].required)
  {
    var left := deps.Keys;
    while left != {}
      invariant left <= deps.Keys
      invariant forall d | d in deps && d !in left :: HealthPasses(services, d, deps[d], healthy)
      decreases left
    {
      var d :| d in left;
      left := left - {d};
      if deps[d].condition == Healthy {
        if d in services && services[d].probe == Broken {
          return false;
        }
        if d !in healthy && deps[d].required {
          return false;
        }
      }
    }
    return true;
  }

  // ----- between two services -----

  /** An up under way: the project, the state it keeps, what it did, and the store it began with. */
  datatype Stage = Stage(
    services: Services, order: seq<Name>, k: nat, recorded: map<Name, Instance>, store: Store,
    starts: seq<Snapshot>, created: set<Instance>, before: Store)
  {
    predicate More() { k < |order| && order[k] in services }

    function Next(): Name requires More() { order[k] }

    function Svc(): Service requires More() { services[order[k]] }
  }

  /** The first k services are recorded under their own instances, and every job among them exited 0. */
  ghost predicate UpTo(g: Stage) {
    && g.k <= |g.order| && (forall n :: n in g.recorded <==> n in g.order[..g.k])
    && RecordedRight(g)
    && (forall n | n in g.recorded && n in g.services && IsJob(g.services, n) ::
          ExitedZero(g.store, g.services[n].instance))
  }

  ghost predicate RecordedRight(g: Stage) {
    forall n | n in g.recorded :: n in g.services && g.recorded[n] == g.services[n].instance
  }

  /** What up created was not there before, and nothing else has changed. */
  ghost predicate Framed(g: Stage) {
    g.created !! g.before.Keys &&
    forall i | i !in g.created :: (i in g.store <==> i in g.before) && (i in g.store ==> g.store[i] == g.before[i])
  }

  ghost predicate Planned(g: Stage) { IsTopological(Graph(g.services), g.order) && DistinctInstances(g.services) }

  /** What holds between two services of the loop. */
  ghost predicate Between(g: Stage) {
    && Planned(g) && UpTo(g) && Framed(g) && g.created == g.recorded.Values
    && Gated(g.services, g.order, g.starts) && |g.starts| == g.k
  }

  /** The unwind names the failing instance unless it is recorded or its arguments were refused. */
  predicate NamesFailing(r: Reason) { r.Interrupted? || r.CompletionGate? || r.HealthGate? || r.RunFailed? }

  /** What holds when the next service failed: what is recorded was created, and what its failed run left. */
  ghost predicate FailedAt(g: Stage, r: Reason) {
    && g.More() && Planned(g) && RecordedRight(g) && Framed(g) && Gated(g.services, g.order, g.starts)
    && (NamesFailing(r) ==> g.Next() !in g.recorded)
    && g.created == g.recorded.Values + (if r == RunFailed(true) then {g.Svc().instance} else {})
  }

  lemma NextIsNew(g: Stage)
    requires Between(g) && g.k < |g.order|
    ensures g.More() && g.Next() !in g.recorded && g.Svc().instance !in g.created
    ensures g.Svc().instance in g.store <==> g.Svc().instance in g.before
  {
    assert g.order[g.k] in Elements(g.order);
    assert g.order[g.k] !in g.order[..g.k];
    hide IsTopological, IsJob, Gated, NoRepeats, Elements;
  }

  lemma PlacedBefore(g: Stage, d: Name)
    requires Planned(g) && g.More() && d in g.Svc().dependsOn
    ensures d in g.order[..g.k]
  {
    assert d in Graph(g.services)[g.Next()];
    assert d in Elements(g.order[..g.k]);
  }

  /** Between two services, the next one's dependencies are recorded and its completion gates are at 0. */
  lemma GateFromPrefix(g: Stage, a: Answers)
    requires Between(g) && g.More()
    requires forall d | d in g.Svc().dependsOn :: HealthPasses(g.services, d, g.Svc().dependsOn[d], a.healthy)
    ensures GateOpen(g.services, Snapshot(g.Next(), g.recorded, g.store, a))
  {
    forall d | d in g.Svc().dependsOn
      ensures d in g.recorded && (g.Svc().dependsOn[d].condition == Completed ==> IsJob(g.services, d))
    {
      PlacedBefore(g, d);
      assert g.Svc().dependsOn[d].condition == Completed ==> GatesOn(g.Svc(), d);
    }
    hide Planned, IsJob, Gated, Framed;
  }

  /** Some required completion gate of the service could not read its dependency's record. */
  ghost predicate UnreadableGate(svc: Service, a: Answers) {
    exists d :: d in svc.dependsOn && d !in a.readable && svc.dependsOn[d] == Dependency(Completed, true)
  }

  /** A completion gate refuses only over an unreadable record: a wrong status ended the run earlier. */
  lemma RefusedMeansUnreadable(g: Stage, a: Answers)
    requires Between(g) && g.More()
    requires exists d :: d in g.Svc().dependsOn && g.Svc().dependsOn[d] == Dependency(Completed, true)
                         && !(d in g.recorded && d in a.readable && ExitedZero(g.store, g.recorded[d]))
    ensures UnreadableGate(g.Svc(), a)
  {
    var d :| d in g.Svc().dependsOn && g.Svc().dependsOn[d] == Dependency(Completed, true)
             && !(d in g.recorded && d in a.readable && ExitedZero(g.store, g.recorded[d]));
    PlacedBefore(g, d);
    assert GatesOn(g.Svc(), d);
    assert IsJob(g.services, d);
    hide Planned, IsJob, Gated, Framed;
  }

  lemma ReadableMeansPassed(svc: Service, recorded: map<Name, Instance>, store: Store, a: Answers)
    requires forall d | d in svc.dependsOn && svc.dependsOn[d] == Dependency(Completed, true) ::
               d in recorded && d in a.readable && ExitedZero(store, recorded[d])
    ensures !UnreadableGate(svc, a)
  {
  }

  // ----- one service -----

  /** The run command was issued. */
  function Issued(g: Stage, s: Snapshot): Stage { g.(starts := g.starts + [s]) }

  /** It made an instance. */
  function Made(g: Stage, s: Snapshot, status: Option<int>): Stage
    requires g.More()
  {
    var i := g.Svc().instance;
    Issued(g, s).(created := g.created + {i}, store := g.store[i := status])
  }

  /** The instance is recorded. */
  function Kept(g: Stage, s: Snapshot, status: Option<int>): Stage
    requires g.More()
  {
    Made(g, s, status).(recorded := g.recorded[g.Next() := g.Svc().instance])
  }

  ghost predicate Opens(g: Stage, s: Snapshot) { g.More() && s.service == g.Next() && GateOpen(g.services, s) }

  lemma GatedAppend(g: Stage, s: Snapshot)
    requires Gated(g.services, g.order, g.starts) && |g.starts| == g.k && Opens(g, s)
    ensures Gated(g.services, g.order, g.starts + [s])
  {
    hide GateOpen;
  }

  lemma FramedAdd(g: Stage, s: Snapshot, status: Option<int>)
    requires Framed(g) && g.More() && g.Svc().instance !in g.before
    ensures Framed(Made(g, s, status))
  {
  }

  lemma ValuesAdd(recorded: map<Name, Instance>, svc: Name, i: Instance)
    requires svc !in recorded
    ensures recorded[svc := i].Values == recorded.Values + {i}
  {
    var more := recorded[svc := i];
    forall x ensures x in more.Values <==> x in recorded.Values + {i} {
      if x in recorded.Values {
        var n :| n in recorded && recorded[n] == x;
        assert n in more && more[n] == x;
      }
      if x == i {
        assert svc in more && more[svc] == x;
      }
    }
  }

  lemma FailEarly(g: Stage, r: Reason)
    requires Between(g) && g.k < |g.order| && r != RunFailed(true)
    ensures FailedAt(g, r)
  {
    NextIsNew(g);
    hide Planned, Gated, Framed;
  }

  lemma FailRun(g: Stage, s: Snapshot)
    requires Between(g) && Opens(g, s)
    ensures FailedAt(Issued(g, s), RunFailed(false))
  {
    hide Gated, IsTopological, Graph, DistinctInstances, GateOpen, IsJob;
    NextIsNew(g);
    GatedAppend(g, s);
  }

  lemma FailHalfway(g: Stage, s: Snapshot)
    requires Between(g) && Opens(g, s) && g.Svc().instance !in g.store
    ensures FailedAt(Made(g, s, None), RunFailed(true))
  {
    hide Gated, IsTopological, Graph, DistinctInstances, GateOpen, IsJob;
    NextIsNew(g);
    GatedAppend(g, s);
    FramedAdd(g, s, None);
    hide Framed;
  }

  lemma FailLate(g: Stage, s: Snapshot, status: Option<int>, r: Reason)
    requires Between(g) && Opens(g, s) && g.Svc().instance !in g.store && !NamesFailing(r)
    ensures FailedAt(Kept(g, s, status), r)
  {
    hide Gated, IsTopological, Graph, DistinctInstances, GateOpen, IsJob;
    NextIsNew(g);
    GatedAppend(g, s);
    FramedAdd(g, s, status);
    ValuesAdd(g.recorded, g.Next(), g.Svc().instance);
    hide Framed;
  }

  lemma Advance(g: Stage, s: Snapshot, status: Option<int>)
    requires Between(g) && Opens(g, s) && g.Svc().instance !in g.store
    requires IsJob(g.services, g.Next()) ==> status == Some(0)
    ensures Between(Kept(g, s, status).(k := g.k + 1))
  {
    NextIsNew(g);
    GatedAppend(g, s);
    FramedAdd(g, s, status);
    ValuesAdd(g.recorded, g.Next(), g.Svc().instance);
    RecordNext(g, s, status);
    hide Gated, IsTopological, Graph, DistinctInstances, UpTo, GateOpen;
  }

  lemma PrefixNext(order: seq<Name>, k: nat, recorded: map<Name, Instance>, more: map<Name, Instance>)
    requires k < |order| && forall n :: n in recorded <==> n in order[..k]
    requires more.Keys == recorded.Keys + {order[k]}
    ensures forall n :: n in more <==> n in order[..k + 1]
  {
    assert order[..k + 1] == order[..k] + [order[k]];
  }

  lemma JobNext(g: Stage, s: Snapshot, status: Option<int>, n: Name)
    requires DistinctInstances(g.services) && UpTo(g) && g.More() && n in g.services && IsJob(g.services, n)
    requires n in g.recorded || (n == g.Next() && status == Some(0))
    requires g.Next() !in g.recorded
    ensures ExitedZero(Kept(g, s, status).store, g.services[n].instance)
  {
    hide IsJob;
  }

  lemma RecordNext(g: Stage, s: Snapshot, status: Option<int>)
    requires Planned(g) && UpTo(g) && g.More() && g.Next() !in g.recorded
    requires IsJob(g.services, g.Next()) ==> status == Some(0)
    ensures UpTo(Kept(g, s, status).(k := g.k + 1))
  {
    hide IsJob, IsTopological, Graph, DistinctInstances, ExitedZero;
    var h := Kept(g, s, status).(k := g.k + 1);
    PrefixNext(g.order, g.k, g.recorded, h.recorded);
    forall n | n in h.recorded && n in h.services && IsJob(h.services, n)
      ensures ExitedZero(h.store, h.services[n].instance)
    {
      JobNext(g, s, status, n);
    }
    assert RecordedRight(h);
  }

  /** What becomes of a service once its turn has come, from the answers and the store up began with alone. */
  ghost function Verdict(services: Services, svc: Name, a: Answers, before: Store): Option<Reason>
    requires svc in services
  {
    var s := services[svc];
    if a.interrupted then Some(Interrupted)
    else if UnreadableGate(s, a) then Some(CompletionGate)
    else if exists d :: d in s.dependsOn && !HealthPasses(services, d, s.dependsOn[d], a.healthy) then Some(HealthGate)
    else if !a.argsOk then Some(BadArgs)
    else AfterGates(services, svc, a, before)
  }

  ghost function AfterGates(services: Services, svc: Name, a: Answers, before: Store): Option<Reason>
    requires svc in services
  {
    if services[svc].instance in before then Some(RunFailed(false))
    else if !a.runOk then Some(RunFailed(a.halfCreated))
    else if !a.saveOk then Some(SaveFailed)
    else AfterRun(services, svc, a)
  }

  ghost function AfterRun(services: Services, svc: Name, a: Answers): Option<Reason>
    requires svc in services
  {
    if IsJob(services, svc) then (if a.job == JobExit(0) then None else Some(JobFailed))
    else if services[svc].hooks && !a.hooksOk then Some(HookFailed)
    else None
  }

  /** The services before the k-th had no trouble. */
  ghost predicate NoTrouble(services: Services, order: seq<Name>, k: nat, world: Name -> Answers, before: Store) {
    && k <= |order|
    && forall i | 0 <= i < k ::
         order[i] in services && Verdict(services, order[i], world(order[i]), before).None?
  }

  // ----- the unwind -----

  lemma RecordedIsInjective(g: Stage)
    requires DistinctInstances(g.services) && RecordedRight(g)
    ensures Injective(g.recorded)
  {
  }

  /** Recorded instances, dependents first, and the failing one after all of them. */
  ghost predicate InOrder(g: Stage, torn: seq<Instance>, r: Reason)
    requires g.More()
  {
    && (forall a, d | a in g.recorded && d in g.recorded && a in g.services && d in g.services[a].dependsOn ::
          Before(torn, g.recorded[a], g.recorded[d]))
    && (NamesFailing(r) ==> forall n | n in g.recorded :: Before(torn, g.recorded[n], g.Svc().instance))
  }

  /**
    The unwind of a failure: each created instance exactly once, and the failing service's instance also
    when this up did not create it.
   */
  ghost predicate Unwound(g: Stage, torn: seq<Instance>, r: Reason)
    requires g.More()
  {
    && NoRepeats(torn) && InOrder(g, torn, r)
    && Elements(torn) == g.created + (if NamesFailing(r) then {g.Svc().instance} else {})
    && (NamesFailing(r) ==> (g.Svc().instance in g.created <==> r == RunFailed(true)))
  }

  function UnwindList(g: Stage, r: Reason): seq<Instance>
    requires g.More()
  {
    TeardownOrder(g.order, g.recorded) + (if NamesFailing(r) then [g.Svc().instance] else [])
  }

  ghost predicate ListInOrder(g: Stage, list: seq<Instance>) {
    forall a, d | a in g.recorded && d in g.recorded && a in g.services && d in g.services[a].dependsOn ::
      Before(list, g.recorded[a], g.recorded[d])
  }

  lemma RecordedListIsSafe(g: Stage)
    requires Planned(g) && RecordedRight(g)
    ensures var list := TeardownOrder(g.order, g.recorded);
            NoRepeats(list) && Elements(list) == g.recorded.Values && ListInOrder(g, list)
  {
    RecordedIsInjective(g);
    TeardownIsSafe(g.services, g.order, g.recorded);
    hide TeardownOrder, IsTopological, NoRepeats, Elements, Before, DistinctInstances;
  }

  lemma FailedIsUnwound(g: Stage, r: Reason)
    requires FailedAt(g, r)
    ensures Unwound(g, UnwindList(g, r), r)
  {
    hide Gated, Framed, TeardownOrder, NoRepeats, Elements, Before, ListInOrder, InOrder, Planned, RecordedRight;
    RecordedListIsSafe(g);
    NotRecorded(g, r);
    var list, i := TeardownOrder(g.order, g.recorded), g.Svc().instance;
    if NamesFailing(r) {
      ElementsOne(i);
      ElementsAppend(list, [i]);
      NoRepeatsAppend(list, [i]);
      LastInOrder(g, list, r);
    } else {
      assert list + [] == list;
      PlainInOrder(g, list, r);
    }
  }

  lemma PlainInOrder(g: Stage, list: seq<Instance>, r: Reason)
    requires g.More() && !NamesFailing(r) && ListInOrder(g, list)
    ensures InOrder(g, list, r)
  {
    hide Before;
  }

  lemma NotRecorded(g: Stage, r: Reason)
    requires FailedAt(g, r)
    ensures NamesFailing(r) ==> g.Svc().instance !in g.recorded.Values
    ensures g.created == g.recorded.Values + (if r == RunFailed(true) then {g.Svc().instance} else {})
  {
    hide IsTopological, Gated, Framed;
  }

  lemma LastInOrder(g: Stage, list: seq<Instance>, r: Reason)
    requires g.More() && NamesFailing(r) && Elements(list) == g.recorded.Values && ListInOrder(g, list)
    ensures InOrder(g, list + [g.Svc().instance], r)
  {
    var i := g.Svc().instance;
    forall a, d | a in g.recorded && d in g.recorded && a in g.services && d in g.services[a].dependsOn
      ensures Before(list + [i], g.recorded[a], g.recorded[d])
    {
      BeforeAppend(list, [i], g.recorded[a], g.recorded[d]);
    }
    forall n | n in g.recorded ensures Before(list + [i], g.recorded[n], i) {
      assert g.recorded[n] in Elements(list);
      var j :| 0 <= j < |list| && list[j] == g.recorded[n];
      assert (list + [i])[j] == g.recorded[n] && (list + [i])[|list|] == i;
    }
  }

  lemma BeforeAppend(s: seq<nat>, t: seq<nat>, x: nat, y: nat)
    requires Before(s, x, y)
    ensures Before(s + t, x, y)
  {
    var i, j :| 0 <= i < j < |s| && s[i] == x && s[j] == y;
    assert (s + t)[i] == x && (s + t)[j] == y;
  }

  /** The store without what was torn down, except for what would not stop. */
  ghost predicate Without(store: Store, left: Store, torn: seq<Instance>, stuck: set<Instance>) {
    forall i :: (i in left <==> i in store && (i in torn ==> i in stuck)) && (i in left ==> left[i] == store[i])
  }

  /**
    What a failed up leaves: of what it created only what would not stop, and of what was there before
    everything as it was, except the failing service's instance where the unwind names it and it stops.
   */
  ghost predicate Leaves(g: Stage, r: Reason, stuck: set<Instance>, left: Store)
    requires g.More()
  {
    && (forall i | i in left :: i in g.before || (i in g.created && i in stuck))
    && (forall i | i in g.before :: i !in left <==> NamesFailing(r) && i == g.Svc().instance && i !in stuck)
    && (forall i | i in g.before && i in left :: left[i] == g.before[i])
  }

  lemma UnwoundLeaves(g: Stage, r: Reason, torn: seq<Instance>, stuck: set<Instance>, left: Store)
    requires g.More() && Framed(g) && Unwound(g, torn, r) && Without(g.store, left, torn, stuck)
    ensures Leaves(g, r, stuck, left)
  {
    forall i ensures i in torn <==> i in g.created || (NamesFailing(r) && i == g.Svc().instance) {
      assert i in torn <==> i in Elements(torn);
    }
    hide NoRepeats, InOrder, Elements;
  }

  // ----- the whole run -----

  /** Success: every service recorded under its instance, none of which was taken, and every job at exit code 0. */
  ghost predicate AllUp(g: Stage) {
    && g.recorded == (map n | n in g.services :: g.services[n].instance)
    && (forall n | n in g.services :: g.services[n].instance !in g.before)
    && forall n | n in g.services && IsJob(g.services, n) :: ExitedZero(g.store, g.services[n].instance)
  }

  lemma EndsUp(g: Stage)
    requires Between(g) && g.k == |g.order|
    ensures AllUp(g) && |g.starts| == |g.services|
  {
    hide IsTopological, Graph, DistinctInstances, IsJob, Gated;
    assert g.order[..g.k] == g.order;
    OrderIsServices(g.services, g.order);
    forall n | n in g.services ensures g.services[n].instance !in g.before {
      assert g.recorded[n] in g.recorded.Values;
    }
    hide ExitedZero, Framed;
  }

  lemma OrderIsServices(services: Services, order: seq<Name>)
    requires IsTopological(Graph(services), order)
    ensures |order| == |services| && forall n :: n in order <==> n in services
  {
    forall n ensures n in order <==> n in services {
      assert n in order <==> n in Elements(order);
      assert Graph(services).Keys == services.Keys;
    }
    ElementsCount(order);
    assert Graph(services).Keys == services.Keys;
  }

  lemma StartsEmpty(g: Stage)
    requires Planned(g) && g.k == 0 && g.recorded == map[] && g.starts == [] && g.created == {} && g.store == g.before
    ensures Between(g)
  {
    hide Planned, IsJob;
    assert g.recorded.Values == {};
  }

  class Run {
    const services: Services
    /** The store as up found it. */
    const before: Store
    /** The project state: the order, and the instance each started service runs in. */
    var order: seq<Name>
    var recorded: map<Name, Instance>
    var store: Store
    /** Every run command issued so far, with what held at that moment. */
    ghost var starts: seq<Snapshot>
    /** Instances this up made. */
    ghost var created: set<Instance>
    /** Instances stopped and removed by the unwind, in order. */
    ghost var torn: seq<Instance>

    constructor (services: Services, store: Store)
      ensures this.services == services && this.store == store && before == store
      ensures order == [] && recorded == map[] && starts == [] && created == {} && torn == []
    {
      this.services, this.store, before := services, store, store;
      order, recorded := [], map[];
      starts, created, torn := [], {}, [];
    }

    ghost function At(k: nat): Stage
      reads this
    {
      Stage(services, order, k, recorded, store, starts, created, before)
    }

    /** One turn of the loop, up to the unwind. */
    method StartOne(k: nat, a: Answers) returns (failure: Option<Reason>)
      requires k < |order| && Between(At(k))
      modifies `recorded, `store, `starts, `created
      ensures failure.None? ==> Between(At(k + 1))
      ensures failure.Some? ==> FailedAt(At(k), failure.value)
      ensures order[k] in services && failure == Verdict(services, order[k], a, before)
    {
      hide Between, FailedAt, IsJob, GateOpen, UnreadableGate, AfterGates;
      ghost var g := At(k);
      NextIsNew(g);
      FailEarly(g, Interrupted);
      FailEarly(g, CompletionGate);
      FailEarly(g, HealthGate);
      FailEarly(g, BadArgs);
      var svc := order[k];
      if a.interrupted {
        return Some(Interrupted);
      }
      var deps := services[svc].dependsOn;
      var completed := CheckCompletedDeps(deps, recorded, store, a.readable);
      if !completed {
        RefusedMeansUnreadable(g, a);
        return Some(CompletionGate);
      }
      ReadableMeansPassed(g.Svc(), g.recorded, g.store, a);
      var healthy := CheckHealth(services, deps, a.healthy);
      if !healthy {
        return Some(HealthGate);
      }
      var oneShot := IsOneShot(services, svc);
      if !a.argsOk {
        return Some(BadArgs);
      }
      GateFromPrefix(g, a);
      failure := Launch(k, a, oneShot);
    }

    /** The run command, which refuses a taken name, and everything after it. */
    method Launch(k: nat, a: Answers, oneShot: bool) returns (failure: Option<Reason>)
      requires k < |order| && Between(At(k)) && order[k] in services
      requires oneShot <==> IsJob(services, order[k])
      requires GateOpen(services, Snapshot(order[k], recorded, store, a))
      requires Verdict(services, order[k], a, before) == AfterGates(services, order[k], a, before)
      modifies `recorded, `store, `starts, `created
      ensures failure.None? ==> Between(At(k + 1))
      ensures failure.Some? ==> FailedAt(At(k), failure.value)
      ensures order[k] in services && failure == Verdict(services, order[k], a, before)
    {
      hide Between, FailedAt, IsJob, GateOpen, Verdict, AfterRun;
      ghost var g := At(k);
      var svc := order[k];
      var instance := services[svc].instance;
      ghost var s := Snapshot(svc, recorded, store, a);
      NextIsNew(g);
      FailRun(g, s);
      starts := starts + [s];
      if instance in store {
        return Some(RunFailed(false));
      }
      if !a.runOk {
        if a.halfCreated {
          FailHalfway(g, s);
          created := created + {instance};
          store := store[instance := None];
        }
        return Some(RunFailed(a.halfCreated));
      }
      created := created + {instance};
      store := store[instance := None];
      recorded := recorded[svc := instance];
      if !a.saveOk {
        FailLate(g, s, None, SaveFailed);
        return Some(SaveFailed);
      }
      failure := Settle(k, a, oneShot, g, s);
    }

    /** A job runs to its end; another service runs its hooks. */
    method Settle(k: nat, a: Answers, oneShot: bool, ghost g: Stage, ghost s: Snapshot)
      returns (failure: Option<Reason>)
      requires k < |order| && k == g.k && Between(g) && Opens(g, s) && g.Svc().instance !in g.store
      requires At(k) == Kept(g, s, None)
      requires oneShot <==> IsJob(services, order[k])
      requires Verdict(services, order[k], a, before) == AfterRun(services, order[k], a)
      modifies `store
      ensures failure.None? ==> Between(At(k + 1))
      ensures failure.Some? ==> FailedAt(At(k), failure.value)
      ensures order[k] in services && failure == Verdict(services, order[k], a, before)
    {
      hide Between, FailedAt, IsJob, GateOpen, Verdict;
      var svc := order[k];
      var instance := services[svc].instance;
      if oneShot {
        match a.job
        case JobError =>
          FailLate(g, s, None, JobFailed);
          return Some(JobFailed);
        case JobExit(code) =>
          store := store[instance := Some(code)];
          assert store == g.store[instance := Some(code)];
          if code != 0 {
            FailLate(g, s, Some(code), JobFailed);
            return Some(JobFailed);
          }
          Advance(g, s, Some(code));
      } else {
        if services[svc].hooks && !a.hooksOk {
          FailLate(g, s, None, HookFailed);
          return Some(HookFailed);
        }
        Advance(g, s, None);
      }
      return None;
    }

    /** teardownProject: stop and remove what is recorded, then the failing instance. Stuck ones stay. */
    method Teardown(failing: Option<Instance>, stuck: set<Instance>)
      requires torn == []
      modifies `store, `torn
      ensures torn == TeardownOrder(order, recorded) + (if failing.Some? then [failing.value] else [])
      ensures Without(old(store), store, torn, stuck)
    {
      var list := ListTeardown(order, recorded);
      if failing.Some? {
        list := list + [failing.value];
      }
      for n := 0 to |list|
        invariant torn == list[..n] && Without(old(store), store, torn, stuck)
      {
        torn := torn + [list[n]];
        if list[n] !in stuck {
          store := store - {list[n]};
        }
        assert list[..n + 1] == list[..n] + [list[n]];
      }
      assert list[..|list|] == list;
    }

    /** The unwind of a failed service. */
    method Unwind(k: nat, r: Reason, stuck: set<Instance>)
      requires torn == [] && FailedAt(At(k), r)
      modifies `store, `torn
      ensures Unwound(At(k), torn, r) && Leaves(At(k), r, stuck, store) && Gated(services, order, starts)
    {
      ghost var g := At(k);
      var failing := if NamesFailing(r) then Some(services[order[k]].instance) else None;
      FailedIsUnwound(g, r);
      Teardown(failing, stuck);
      assert torn == UnwindList(g, r);
      UnwoundLeaves(g, r, torn, stuck, store);
      SameUnwound(g, store, torn, r, stuck);
      hide Unwound, Leaves, Gated, Planned, Framed, TeardownOrder;
    }

    /**
      composeUp, over every answer the outside may give. Whatever the outcome, each run command was issued
      behind an open gate, and the first service of the order with trouble decides the outcome. Success means
      that there was none, every service is recorded and every job exited 0. A failure's unwind names what was
      created once each, and it is stated what is left of either store.
     */
    method Up(world: Name -> Answers, stuck: set<Instance>) returns (out: Outcome, ghost end: Stage)
      requires store == before && recorded == map[] && starts == [] && created == {} && torn == []
      modifies this
      ensures end == At(end.k)
      ensures out.Refused? <==> StartupOrder(Graph(services)).None? || !DistinctInstances(services)
      ensures out.Refused? ==> store == before && starts == []
      ensures Gated(services, order, starts)
      ensures !out.Refused? ==> order == StartupOrder(Graph(services)).value
      ensures !out.Refused? ==> NoTrouble(services, order, end.k, world, before)
      ensures out.Succeeded? ==> end.k == |order| && AllUp(end) && Framed(end) && |starts| == |services| && torn == []
      ensures out.Failed? ==>
                && end.More() && out.service == end.Next()
                && Verdict(services, out.service, world(out.service), before) == Some(out.reason)
                && Unwound(end, torn, out.reason) && Leaves(end, out.reason, stuck, store)
    {
      hide Between, FailedAt, AllUp, Unwound, Leaves, StartupOrder, Graph, IsTopological, TeardownOrder, Verdict;
      order := [];
      end := At(0);
      var planned := Compute(Graph(services));
      if planned.None? {
        return Refused, end;
      }
      OrderIsTopological(Graph(services));
      var distinct := CheckInstanceNames(services);
      if !distinct {
        return Refused, end;
      }
      order := planned.value;
      StartsEmpty(At(0));
      for k := 0 to |order|
        invariant order == planned.value && Between(At(k)) && torn == []
        invariant NoTrouble(services, order, k, world, before)
      {
        var failure := StartOne(k, world(order[k]));
        if failure.Some? {
          out := Failed(order[k], failure.value);
          FailedHasNext(At(k), failure.value);
          Unwind(k, failure.value, stuck);
          end := At(k);
          return;
        }
      }
      end := At(|order|);
      BetweenGated(end);
      EndsUp(end);
      return Succeeded, end;
    }
  }

  lemma FailedHasNext(g: Stage, r: Reason)
    requires FailedAt(g, r)
    ensures g.More()
  {
  }

  lemma BetweenGated(g: Stage)
    requires Between(g)
    ensures Gated(g.services, g.order, g.starts) && Framed(g)
  {
  }

  /** Neither claim is about the store the unwind began with. */
  lemma SameUnwound(g: Stage, store: Store, torn: seq<Instance>, r: Reason, stuck: set<Instance>)
    requires g.More() && Unwound(g, torn, r) && Leaves(g, r, stuck, store)
    ensures Unwound(g.(store := store), torn, r) && Leaves(g.(store := store), r, stuck, store)
  {
    hide NoRepeats, Elements, Before;
  }

  /** Answers under which nothing goes wrong. */
  function AllGood(services: Services): Answers {
    Answers(false, services.Keys, services.Keys, true, true, false, true, JobExit(0), true)
  }

  /**
    A project with nothing wrong but a taken instance name: the run is refused, and the unwind removes the
    older instance that holds the name.
   */
  method TakenNameIsRemoved(services: Services, store: Store, n: Name) returns (out: Outcome, left: Store)
    requires StartupOrder(Graph(services)).Some? && DistinctInstances(services)
    requires forall m | m in services :: services[m].probe != Broken
    requires n in services && services[n].instance in store
    ensures out.Failed? && out.reason == RunFailed(false) && out.service in services
    ensures services[out.service].instance in store && services[out.service].instance !in left
    ensures forall i | i in store && i != services[out.service].instance :: i in left && left[i] == store[i]
  {
    var run := new Run(services, store);
    ghost var end;
    out, end := run.Up(_ => AllGood(services), {});
    left := run.store;
    OrderIsTopological(Graph(services));
    forall m, d | m in services && d in services[m].dependsOn ensures d in services {
      DependencyNamed(services, StartupOrder(Graph(services)).value, m, d);
    }
    forall m | m in services
      ensures Verdict(services, m, AllGood(services), store)
              == if services[m].instance in store then Some(RunFailed(false)) else None
    {
      GoodVerdict(services, m, store);
    }
    hide StartupOrder, Graph, IsTopological, Gated, Unwound, DistinctInstances, Framed, Verdict;
  }

  lemma GoodVerdict(services: Services, m: Name, store: Store)
    requires m in services && services[m].dependsOn.Keys <= services.Keys
    requires forall d | d in services :: services[d].probe != Broken
    ensures Verdict(services, m, AllGood(services), store)
            == if services[m].instance in store then Some(RunFailed(false)) else None
  {
    hide IsJob;
  }

  lemma DependencyNamed(services: Services, order: seq<Name>, m: Name, d: Name)
    requires IsTopological(Graph(services), order) && m in services && d in services[m].dependsOn
    ensures d in services
  {
    var i, j := DependencyEarlier(services, order, m, d);
    assert d in Elements(order);
    assert Graph(services).Keys == services.Keys;
  }
}
