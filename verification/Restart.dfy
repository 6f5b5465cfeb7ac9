/**
  The restart engine of the project supervisor: what one observation of a service does to its
  history, and what that adds up to over every run of observations of any number of services.
 */
module Restart {
  import opened Common
  import opened Bytes

  // Durations and times are in nanoseconds, as in Go.
  const SECOND := 1_000_000_000
  const BACKOFF_BASE := 1 * SECOND
  const BACKOFF_CAP := 60 * SECOND
  const STABLE_UPTIME := 60 * SECOND

  // ----- backoff -----

  /** The wait after the k-th restart: min(2^(k-1), 60) seconds. */
  function Backoff(attempt: int): nat {
    if attempt <= 1 then BACKOFF_BASE
    else if Pow2(attempt - 1) * SECOND < BACKOFF_CAP then Pow2(attempt - 1) * SECOND
    else BACKOFF_CAP
  }

  lemma {:induction false} Pow2Grows(m: nat, n: nat)
    requires m <= n
    ensures Pow2(m) <= Pow2(n)
    decreases n - m
  {
    if m < n {
      Pow2Grows(m, n - 1);
    }
  }

  method RestartBackoff(attempt: int) returns (d: nat)
    ensures d == Backoff(attempt)
    ensures attempt > 1 ==> d == (if Pow2(attempt - 1) < 60 then Pow2(attempt - 1) else 60) * SECOND
    ensures attempt <= 1 ==> d == SECOND
  {
    if attempt <= 1 {
      return BACKOFF_BASE;
    }
    d := BACKOFF_BASE;
    var i := 1;
    while i < attempt
      invariant 1 <= i <= attempt
      invariant d == Pow2(i - 1) * SECOND < BACKOFF_CAP
    {
      d := d * 2;
      if d >= BACKOFF_CAP {
        Pow2Grows(i, attempt - 1);
        return BACKOFF_CAP;
      }
      i := i + 1;
    }
  }

  lemma BackoffIsMonotone(j: int, k: int)
    requires j <= k
    ensures BACKOFF_BASE <= Backoff(j) <= Backoff(k) <= BACKOFF_CAP
  {
    if j > 1 {
      Pow2Grows(j - 1, k - 1);
      Pow2Grows(0, j - 1);
    } else if k > 1 {
      Pow2Grows(0, k - 1);
    }
  }

  // ----- policies -----

  datatype Mode = No | Always | OnFailure | UnlessStopped

  datatype Policy = Policy(mode: Mode, maxAttempts: nat, declared: bool) {
    predicate Restarts() { !mode.No? }
  }

  datatype Result<+T> = Ok(value: T) | Err

  // "no", "always", "on-failure" and "unless-stopped", as bytes.
  const NO: seq<Byte> := [0x6e, 0x6f]
  const ALWAYS: seq<Byte> := [0x61, 0x6c, 0x77, 0x61, 0x79, 0x73]
  const ON_FAILURE: seq<Byte> := [0x6f, 0x6e, 0x2d, 0x66, 0x61, 0x69, 0x6c, 0x75, 0x72, 0x65]
  const UNLESS_STOPPED: seq<Byte> :=
    [0x75, 0x6e, 0x6c, 0x65, 0x73, 0x73, 0x2d, 0x73, 0x74, 0x6f, 0x70, 0x70, 0x65, 0x64]
  const COLON: Byte := 0x3a

  function ModeText(m: Mode): seq<Byte> {
    match m
    case No => NO
    case Always => ALWAYS
    case OnFailure => ON_FAILURE
    case UnlessStopped => UNLESS_STOPPED
  }

  function ParsePolicy(raw: seq<Byte>): Result<Policy> {
    var s := TrimSpace(raw);
    if s == [] then Ok(Policy(No, 0, false))
    else if s == NO then Ok(Policy(No, 0, true))
    else if s == ALWAYS then Ok(Policy(Always, 0, true))
    else if s == ON_FAILURE then Ok(Policy(OnFailure, 0, true))
    else if s == UNLESS_STOPPED then Ok(Policy(UnlessStopped, 0, true))
    else if |s| > 10 && s[..11] == ON_FAILURE + [COLON] then
      match Atoi(s[11..])
      case None => Err
      case Some(n) => if n < 0 then Err else Ok(Policy(OnFailure, n, true))
    else Err
  }

  function RenderPolicy(p: Policy): seq<Byte> {
    if p.mode.OnFailure? && p.maxAttempts > 0 then ON_FAILURE + [COLON] + Itoa(p.maxAttempts)
    else ModeText(p.mode)
  }

  /** What a parsed policy can be: only on-failure carries a cap, and the cap is a Go int. */
  predicate IsParsed(p: Policy) {
    (!p.mode.OnFailure? ==> p.maxAttempts == 0) && p.maxAttempts <= MAX_INT
  }

  /** Rendering an accepted policy and parsing it again gives it back, now declared. */
  lemma PolicyRoundTrip(raw: seq<Byte>)
    requires ParsePolicy(raw).Ok?
    ensures IsParsed(ParsePolicy(raw).value)
    ensures var p := ParsePolicy(raw).value; ParsePolicy(RenderPolicy(p)) == Ok(p.(declared := true))
  {
    RenderedParses(ParsePolicy(raw).value);
  }

  lemma RenderedParses(p: Policy)
    requires IsParsed(p)
    ensures ParsePolicy(RenderPolicy(p)) == Ok(p.(declared := true))
  {
    if p.mode.OnFailure? && p.maxAttempts > 0 {
      CappedParses(p.maxAttempts);
    } else {
      TrimNothing(ModeText(p.mode));
    }
  }

  lemma CappedParses(n: nat)
    requires n <= MAX_INT
    ensures ParsePolicy(ON_FAILURE + [COLON] + Itoa(n)) == Ok(Policy(OnFailure, n, true))
  {
    AtoiItoa(n);
    var prefix, digits := ON_FAILURE + [COLON], Itoa(n);
    var s := prefix + digits;
    hide Itoa, Atoi;
    assert s[..11] == prefix && s[11..] == digits;
    assert s[|s| - 1] == digits[|digits| - 1] && IsDigit(digits[|digits| - 1]);
    assert s[0] == 0x6f && |s| > 11;
    TrimNothing(s);
    assert s[10] == COLON;
  }

  lemma TrimNothing(s: seq<Byte>)
    requires |s| > 0 && 0x21 <= s[0] < 0x80 && 0x21 <= s[|s| - 1] < 0x80
    ensures TrimSpace(s) == s
  {
  }

  /** The texts without a number, and what they mean. */
  lemma PolicyTexts()
    ensures ParsePolicy([]) == Ok(Policy(No, 0, false)) && ParsePolicy(NO) == Ok(Policy(No, 0, true))
    ensures ParsePolicy(ALWAYS) == Ok(Policy(Always, 0, true))
    ensures ParsePolicy(UNLESS_STOPPED) == Ok(Policy(UnlessStopped, 0, true))
    ensures ParsePolicy(ON_FAILURE) == Ok(Policy(OnFailure, 0, true))
  {
    RenderedParses(Policy(No, 0, true));
    RenderedParses(Policy(Always, 0, true));
    RenderedParses(Policy(UnlessStopped, 0, true));
    RenderedParses(Policy(OnFailure, 0, true));
  }

  /** Whatever else is accepted is on-failure with a number that is not negative, spaces around it aside. */
  lemma OtherPolicies(raw: seq<Byte>)
    requires TrimSpace(raw) != [] && forall m :: TrimSpace(raw) != ModeText(m)
    ensures var s := TrimSpace(raw); var prefix := ON_FAILURE + [COLON];
            ParsePolicy(raw) == if prefix <= s && Atoi(s[|prefix|..]).Some? && Atoi(s[|prefix|..]).value >= 0
                                then Ok(Policy(OnFailure, Atoi(s[|prefix|..]).value, true)) else Err
  {
    var s := TrimSpace(raw);
    assert s != ModeText(No) && s != ModeText(Always) && s != ModeText(OnFailure) && s != ModeText(UnlessStopped);
    hide Atoi, TrimSpace;
  }

  // ----- one observation -----

  /** A service's restart history. None stands for Go's zero time. */
  datatype Tracker = Tracker(attempts: nat, next: Option<int>, gaveUp: bool, aliveSince: Option<int>)

  const NEW_TRACKER := Tracker(0, None, false, None)

  datatype Service = Service(name: string, policy: Policy, job: bool)

  /** One look at a service: when, and whether its VMM answered. */
  datatype Observation = Observation(svc: Service, now: int, alive: bool)

  datatype Event = Restarted(name: string, at: int, attempt: nat) | GaveUp(name: string) | Forgiven(name: string)

  datatype Step = Step(tracker: Tracker, events: seq<Event>)

  function Decide(tr: Tracker, o: Observation): Step {
    var name := o.svc.name;
    if o.alive then
      if tr.aliveSince.None? then Step(tr.(aliveSince := Some(o.now)), [])
      else if o.now - tr.aliveSince.value >= STABLE_UPTIME then
        Step(NEW_TRACKER.(aliveSince := tr.aliveSince), [Forgiven(name)])
      else Step(tr, [])
    else
      var down := tr.(aliveSince := None);
      var max := o.svc.policy.maxAttempts;
      if down.gaveUp then Step(down, [])
      else if max > 0 && down.attempts >= max then Step(down.(gaveUp := true), [GaveUp(name)])
      else if down.next.Some? && o.now < down.next.value then Step(down, [])
      else
        var k := down.attempts + 1;
        Step(down.(attempts := k, next := Some(o.now + Backoff(k))), [Restarted(name, o.now, k)])
  }

  datatype State = State(trackers: map<string, Tracker>, log: seq<Event>)

  const START := State(map[], [])

  function TrackerOf(s: State, name: string): Tracker {
    if name in s.trackers then s.trackers[name] else NEW_TRACKER
  }

  function Consider(s: State, o: Observation): State {
    if o.svc.job || !o.svc.policy.Restarts() then s
    else
      var step := Decide(TrackerOf(s, o.svc.name), o);
      State(s.trackers[o.svc.name := step.tracker], s.log + step.events)
  }

  function Run(os: seq<Observation>): State {
    if os == [] then START else Consider(Run(os[..|os| - 1]), os[|os| - 1])
  }

  /** The supervisor object; `log` records the restarts, give-up warnings and forgivenesses. */
  class Supervisor {
    var trackers: map<string, Tracker>
    var log: seq<Event>

    constructor ()
      ensures State(trackers, log) == START
    {
      trackers, log := map[], [];
    }

    method ConsiderService(t: Service, now: int, alive: bool)
      modifies this
      ensures State(trackers, log) == Consider(old(State(trackers, log)), Observation(t, now, alive))
    {
      if t.job {
        return;
      }
      if !t.policy.Restarts() {
        return;
      }
      var tr := if t.name in trackers then trackers[t.name] else NEW_TRACKER;
      if alive {
        if tr.aliveSince.None? {
          tr := tr.(aliveSince := Some(now));
        } else if now - tr.aliveSince.value >= STABLE_UPTIME {
          tr := Tracker(0, None, false, tr.aliveSince);
          log := log + [Forgiven(t.name)];
        }
        trackers := trackers[t.name := tr];
        return;
      }
      tr := tr.(aliveSince := None);
      trackers := trackers[t.name := tr];
      if tr.gaveUp {
        return;
      }
      if t.policy.maxAttempts > 0 && tr.attempts >= t.policy.maxAttempts {
        trackers := trackers[t.name := tr.(gaveUp := true)];
        log := log + [GaveUp(t.name)];
        return;
      }
      if tr.next.Some? && now < tr.next.value {
        return;
      }
      tr := tr.(attempts := tr.attempts + 1);
      var wait := RestartBackoff(tr.attempts);
      tr := tr.(next := Some(now + wait));
      trackers := trackers[t.name := tr];
      log := log + [Restarted(t.name, now, tr.attempts)];
    }
  }

  // ----- every run -----

  /** Observations come from one clock that does not run backwards. */
  predicate ClockOk(os: seq<Observation>) {
    forall i, j | 0 <= i < j < |os| :: os[i].now <= os[j].now
  }

  /** What the tracker of a service still knows of an earlier restart of it, at time `now`. */
  ghost predicate Remembers(tr: Tracker, e: Event, now: int)
    requires e.Restarted?
  {
    var due := e.at + Backoff(e.attempt);
    && e.at <= now
    && (tr.aliveSince.Some? ==> e.at <= tr.aliveSince.value)
    && (due <= now || (tr.next.Some? && due <= tr.next.value))
  }

  ghost predicate Spaced(log: seq<Event>) {
    forall i, j | 0 <= i < j < |log| && log[i].Restarted? && log[j].Restarted? && log[i].name == log[j].name ::
      log[i].at + Backoff(log[i].attempt) <= log[j].at
  }

  ghost predicate AllRemembered(s: State, now: int) {
    forall i | 0 <= i < |s.log| && s.log[i].Restarted? :: Remembers(TrackerOf(s, s.log[i].name), s.log[i], now)
  }

  /** What a look leaves remembered of one earlier restart, and when it may restart again. */
  lemma DecideRemembers(tr: Tracker, o: Observation, e: Event, before: int)
    requires e.Restarted? && Remembers(tr, e, before) && before <= o.now
    ensures Remembers(Decide(tr, o).tracker, e, o.now)
    ensures Decide(tr, o).events != [] && Decide(tr, o).events[0].Restarted? ==> e.at + Backoff(e.attempt) <= o.now
  {
    BackoffIsMonotone(e.attempt, e.attempt);
    hide Backoff;
  }

  lemma ConsiderKeepsSpacing(s: State, o: Observation, before: int)
    requires Spaced(s.log) && AllRemembered(s, before) && before <= o.now
    ensures Spaced(Consider(s, o).log) && AllRemembered(Consider(s, o), o.now)
  {
    var s' := Consider(s, o);
    if !o.svc.job && o.svc.policy.Restarts() {
      var step := Decide(TrackerOf(s, o.svc.name), o);
      assert |step.events| <= 1 && forall e | e in step.events && e.Restarted? ::
          e.at == o.now && e.name == o.svc.name && Remembers(step.tracker, e, o.now);
      forall i | 0 <= i < |s.log| && s.log[i].Restarted?
        ensures Remembers(TrackerOf(s', s.log[i].name), s.log[i], o.now)
        ensures s.log[i].name == o.svc.name && step.events != [] && step.events[0].Restarted? ==>
                  s.log[i].at + Backoff(s.log[i].attempt) <= o.now
      {
        var e := s.log[i];
        assert Remembers(TrackerOf(s, e.name), e, before);
        if e.name == o.svc.name {
          DecideRemembers(TrackerOf(s, e.name), o, e, before);
        }
      }
      hide Decide, Remembers, Backoff;
    } else {
      forall i | 0 <= i < |s.log| && s.log[i].Restarted?
        ensures Remembers(TrackerOf(s', s.log[i].name), s.log[i], o.now)
      {
        assert Remembers(TrackerOf(s, s.log[i].name), s.log[i], before);
      }
    }
  }

  /**
    Any two restarts of one service are at least the backoff of the earlier apart, whatever the
    liveness answers, the policy changes and the forgivenesses in between.
   */
  lemma {:induction false} RestartsAreSpaced(os: seq<Observation>)
    requires ClockOk(os)
    ensures Spaced(Run(os).log)
    ensures os != [] ==> AllRemembered(Run(os), os[|os| - 1].now)
  {
    if os != [] {
      var n := |os| - 1;
      RestartsAreSpaced(os[..n]);
      var before := if n > 0 then os[n - 1].now else os[n].now;
      ConsiderKeepsSpacing(Run(os[..n]), os[n], before);
    }
  }

  // ----- budgets -----

  /** Restarts and give-up warnings of a service since it was last forgiven. */
  function RestartsSince(log: seq<Event>, name: string): nat {
    if log == [] then 0
    else
      var e := log[|log| - 1];
      if e == Forgiven(name) then 0
      else RestartsSince(log[..|log| - 1], name) + if e.Restarted? && e.name == name then 1 else 0
  }

  function GiveUpsSince(log: seq<Event>, name: string): nat {
    if log == [] then 0
    else
      var e := log[|log| - 1];
      if e == Forgiven(name) then 0
      else GiveUpsSince(log[..|log| - 1], name) + if e == GaveUp(name) then 1 else 0
  }

  /** The tracker counts exactly what the log shows since the last forgiveness. */
  ghost predicate Accounts(s: State, name: string) {
    var tr := TrackerOf(s, name);
    && tr.attempts == RestartsSince(s.log, name)
    && GiveUpsSince(s.log, name) == if tr.gaveUp then 1 else 0
  }

  lemma SinceAppend(log: seq<Event>, e: Event, name: string)
    ensures RestartsSince(log + [e], name) ==
            if e == Forgiven(name) then 0
            else RestartsSince(log, name) + if e.Restarted? && e.name == name then 1 else 0
    ensures GiveUpsSince(log + [e], name) ==
            if e == Forgiven(name) then 0 else GiveUpsSince(log, name) + if e == GaveUp(name) then 1 else 0
  {
    assert (log + [e])[..|log|] == log;
  }

  lemma ConsiderKeepsAccounts(s: State, o: Observation, name: string)
    requires Accounts(s, name)
    ensures Accounts(Consider(s, o), name)
  {
    hide RestartsSince, GiveUpsSince;
    if !o.svc.job && o.svc.policy.Restarts() {
      var step := Decide(TrackerOf(s, o.svc.name), o);
      if step.events != [] {
        assert step.events == [step.events[0]];
        SinceAppend(s.log, step.events[0], name);
      } else {
        assert s.log + [] == s.log;
      }
    }
  }

  lemma {:induction false} RunAccounts(os: seq<Observation>, name: string)
    ensures Accounts(Run(os), name)
  {
    if os != [] {
      RunAccounts(os[..|os| - 1], name);
      ConsiderKeepsAccounts(Run(os[..|os| - 1]), os[|os| - 1], name);
    }
  }

  /** Every observation of the service in this run read the policy on-failure:max. */
  predicate FixedCap(os: seq<Observation>, name: string, max: nat) {
    forall o | o in os && o.svc.name == name :: o.svc.policy.mode.OnFailure? && o.svc.policy.maxAttempts == max
  }

  predicate WithinBudget(tr: Tracker, max: nat) {
    tr.attempts <= max && (tr.gaveUp ==> tr.attempts == max)
  }

  lemma ConsiderKeepsBudget(s: State, o: Observation, name: string, max: nat)
    requires max > 0 && WithinBudget(TrackerOf(s, name), max) && FixedCap([o], name, max)
    ensures WithinBudget(TrackerOf(Consider(s, o), name), max)
  {
    hide Backoff;
    assert o in [o];
  }

  lemma {:induction false} RunKeepsBudget(os: seq<Observation>, name: string, max: nat)
    requires max > 0 && FixedCap(os, name, max)
    ensures WithinBudget(TrackerOf(Run(os), name), max)
  {
    if os != [] {
      hide Consider;
      RunKeepsBudget(os[..|os| - 1], name, max);
      ConsiderKeepsBudget(Run(os[..|os| - 1]), os[|os| - 1], name, max);
    }
  }

  /**
    Under a fixed on-failure:N, at every point of every run there have been at most N restarts and
    at most one give-up warning since the last forgiveness, and the warning only once all N were spent.
   */
  lemma BudgetIsKept(os: seq<Observation>, name: string, max: nat)
    requires max > 0 && FixedCap(os, name, max)
    ensures RestartsSince(Run(os).log, name) <= max
    ensures GiveUpsSince(Run(os).log, name) <= 1
    ensures GiveUpsSince(Run(os).log, name) == 1 ==> RestartsSince(Run(os).log, name) == max
  {
    RunAccounts(os, name);
    RunKeepsBudget(os, name, max);
  }

  // ----- when a look does something, from the history alone -----

  /** A look the supervisor takes at this service: not a job, and a policy that restarts. */
  predicate LooksAt(o: Observation, name: string) { o.svc.name == name && !o.svc.job && !o.svc.policy.mode.No? }

  /** When the unbroken stretch of looks that found the service alive began, if the last look found it so. */
  function AliveFrom(os: seq<Observation>, name: string): Option<int> {
    if os == [] then None
    else
      var o, before := os[|os| - 1], AliveFrom(os[..|os| - 1], name);
      if !LooksAt(o, name) then before
      else if !o.alive then None
      else if before.Some? then before
      else Some(o.now)
  }

  /** When the wait after the last restart since the last forgiveness is over. */
  function WaitOver(log: seq<Event>, name: string): Option<int> {
    if log == [] then None
    else
      var e := log[|log| - 1];
      if e == Forgiven(name) then None
      else if e.Restarted? && e.name == name then Some(e.at + Backoff(e.attempt))
      else WaitOver(log[..|log| - 1], name)
  }

  /** The tracker holds the history: its counts, its wait and its stretch of life. */
  ghost predicate HoldsHistory(os: seq<Observation>, name: string) {
    var s := Run(os);
    && Accounts(s, name) && TrackerOf(s, name).next == WaitOver(s.log, name)
    && TrackerOf(s, name).aliveSince == AliveFrom(os, name)
  }

  lemma WaitOverAppend(log: seq<Event>, e: Event, name: string)
    ensures WaitOver(log + [e], name) ==
            if e == Forgiven(name) then None
            else if e.Restarted? && e.name == name then Some(e.at + Backoff(e.attempt))
            else WaitOver(log, name)
  {
    assert (log + [e])[..|log|] == log;
  }

  lemma {:induction false} RunHoldsHistory(os: seq<Observation>, name: string)
    ensures HoldsHistory(os, name)
  {
    if os != [] {
      var n := |os| - 1;
      var s, o := Run(os[..n]), os[n];
      RunHoldsHistory(os[..n], name);
      ConsiderKeepsAccounts(s, o, name);
      if !o.svc.job && o.svc.policy.Restarts() {
        var step := Decide(TrackerOf(s, o.svc.name), o);
        if step.events == [] {
          assert s.log + [] == s.log;
        } else {
          assert step.events == [step.events[0]];
          WaitOverAppend(s.log, step.events[0], name);
        }
      }
      hide WaitOver, Accounts;
    }
  }

  /** What one more look adds to the log. */
  ghost function Adds(os: seq<Observation>, o: Observation): seq<Event> {
    Run(os + [o]).log[|Run(os).log|..]
  }

  lemma LogGrows(os: seq<Observation>, o: Observation)
    ensures |Run(os).log| <= |Run(os + [o]).log| && Run(os + [o]) == Consider(Run(os), o)
    ensures Run(os + [o]).log == Run(os).log + Adds(os, o)
    ensures Adds(os, o) == if o.svc.job || !o.svc.policy.Restarts() then []
                           else Decide(TrackerOf(Run(os), o.svc.name), o).events
  {
    assert (os + [o])[..|os|] == os;
    var log := Run(os).log;
    assert log[|log|..] == [];
    if !o.svc.job && o.svc.policy.Restarts() {
      var events := Decide(TrackerOf(Run(os), o.svc.name), o).events;
      assert (log + events)[|log|..] == events;
    }
  }

  /**
    Every look of every run, decided by the log and the looks before it. A dead service is restarted exactly
    when its budget is not spent, it was not given up on, and the last wait is over; it is given up on exactly
    when the budget is spent and that was not said yet; a live one is forgiven exactly when its stretch of
    life has lasted a minute; and nothing else is ever added.
   */
  lemma LookDecides(os: seq<Observation>, o: Observation)
    ensures Run(os + [o]).log == Run(os).log + Adds(os, o)
    ensures var log, name, cap := Run(os).log, o.svc.name, o.svc.policy.maxAttempts;
            var spent := cap > 0 && RestartsSince(log, name) >= cap;
            var open := LooksAt(o, name) && !o.alive && GiveUpsSince(log, name) == 0;
            var rested := WaitOver(log, name).None? || WaitOver(log, name).value <= o.now;
            var stable := AliveFrom(os, name).Some? && o.now - AliveFrom(os, name).value >= 60 * SECOND;
            && (Adds(os, o) == [Restarted(name, o.now, RestartsSince(log, name) + 1)] <==> open && !spent && rested)
            && (Adds(os, o) == [GaveUp(name)] <==> open && spent)
            && (Adds(os, o) == [Forgiven(name)] <==> LooksAt(o, name) && o.alive && stable)
            && (Adds(os, o) == [] <==> !(open && (spent || rested)) && !(LooksAt(o, name) && o.alive && stable))
  {
    LogGrows(os, o);
    RunHoldsHistory(os, o.svc.name);
    hide Run, Adds, RestartsSince, GiveUpsSince, WaitOver, AliveFrom;
  }
}
