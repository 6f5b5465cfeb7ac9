/**
  One `compose down` against the project supervisor, as interleaved steps of two processes that
  share only the disk: the project's Supervise flag and the instance records.

  Each child `run`, `stop` and `rm`, and each read or write of the project state, is one step. VMMs
  may die at any time, and a poll may look at the services in any order. Nothing the teardown stopped
  comes back, and no VMM ever loses its record, except where the flag could not be saved or the daemon
  is killed at a bad moment; what is live at the end is then stated exactly.
 */
module Teardown {

  /** Instance names, which are compared and never read. */
  type Name = nat

  /** An instance: no record, a record with nothing running, or a record and its VMM. */
  datatype Instance = Absent | Dead | Live

  datatype Supervisor =
    | Waiting              // between polls
    | Polling              // a poll that read Supervise as set
    | Gate(t: Name)        // about to check again that t is down
    | Flag(t: Name)        // about to read the flag again
    | Clearing(t: Name)    // about to delete t's old record
    | Booting(t: Name)     // about to run t
    | Recheck(t: Name)     // t is up; about to read the flag once more
    | Undoing(t: Name)     // the flag was gone; about to stop t again
    | Deleting(t: Name)    // about to delete t's record
    | Gone

  datatype Down =
    | NotStarted
    | Loaded               // the project state is read, the flag not yet cleared
    | Stopping(i: nat)     // about to stop order[i - 1]
    | Removing(i: nat)     // about to remove order[i - 1]
    | AwaitingExit         // the daemon was told to stop
    | Finished

  /** The persisted project state: removed, or its Supervise flag. */
  datatype Project = Missing | Supervise(on: bool)

  /** orphans are instances whose record was deleted under a live VMM. */
  datatype State = State(
    order: seq<Name>, project: Project, insts: map<Name, Instance>, orphans: set<Name>,
    sup: Supervisor, cancelled: bool, down: Down)

  function Of(s: State, n: Name): Instance {
    if n in s.insts then s.insts[n] else Absent
  }

  function Put(s: State, n: Name, v: Instance): State {
    s.(insts := s.insts[n := v])
  }

  /** A stop that succeeds, of an instance that may have no record. */
  function StopInst(s: State, n: Name): State {
    if Of(s, n).Live? then Put(s, n, Dead) else s
  }

  /** rm without --force: refuses a live instance, and finds nothing without a record. */
  function RemoveInst(s: State, n: Name): State {
    if Of(s, n).Dead? then Put(s, n, Absent) else s
  }

  /** DeleteInstance: the directory goes whatever it holds. */
  function DeleteInst(s: State, n: Name): State {
    var s' := if Of(s, n).Live? then s.(orphans := s.orphans + {n}) else s;
    Put(s', n, Absent)
  }

  // ----- the supervisor's steps -----

  datatype SupStep =
    | Poll                         // read the flag
    | Look(n: Name, due: bool)     // look at a service; due is the policy's word
    | EndPoll
    | LookAgain
    | ReadFlag(skip: bool)         // skip: stopped by a person, a job, or no longer declared
    | Clear(ok: bool)
    | Boot(ok: bool)
    | ReadFlagAgain
    | StopAgain
    | Delete
    | Quit                         // told to stop, or the project is gone
    | Die                          // the daemon is killed

  predicate SupEnabled(s: State, a: SupStep) {
    match a
    case Poll => s.sup.Waiting? && !s.cancelled
    case Look(n, _) => s.sup.Polling? && !s.cancelled && n in s.order
    case EndPoll => s.sup.Polling?
    case LookAgain => s.sup.Gate?
    case ReadFlag(_) => s.sup.Flag?
    case Clear(_) => s.sup.Clearing?
    case Boot(_) => s.sup.Booting?
    case ReadFlagAgain => s.sup.Recheck?
    case StopAgain => s.sup.Undoing?
    case Delete => s.sup.Deleting?
    case Quit => s.sup.Waiting? && (s.cancelled || s.project.Missing?)
    case Die => !s.sup.Gone?
  }

  function SupApply(s: State, a: SupStep): State
    requires SupEnabled(s, a)
  {
    match a
    case Poll => if s.project == Supervise(true) then s.(sup := Polling) else s
    case Look(n, due) => if Of(s, n).Live? || !due then s else s.(sup := Gate(n))
    case EndPoll => s.(sup := Waiting)
    case LookAgain => if Of(s, s.sup.t).Live? then s.(sup := Polling) else s.(sup := Flag(s.sup.t))
    case ReadFlag(skip) =>
      if s.project == Supervise(true) && !skip then s.(sup := Clearing(s.sup.t)) else s.(sup := Polling)
    case Clear(ok) => if ok then DeleteInst(s, s.sup.t).(sup := Booting(s.sup.t)) else s.(sup := Polling)
    case Boot(ok) =>
      if ok && Of(s, s.sup.t).Absent? then Put(s, s.sup.t, Live).(sup := Recheck(s.sup.t)) else s.(sup := Polling)
    case ReadFlagAgain => if s.project == Supervise(true) then s.(sup := Polling) else s.(sup := Undoing(s.sup.t))
    case StopAgain => StopInst(s, s.sup.t).(sup := Deleting(s.sup.t))
    case Delete => DeleteInst(s, s.sup.t).(sup := Polling)
    case Quit => s.(sup := Gone)
    case Die => s.(sup := Gone)
  }

  // ----- the steps of `down` -----

  datatype DownStep =
    | Load
    | Pause(saved: bool)   // clear the flag on disk; a failed save is only a warning
    | Stop
    | Remove
    | Signal               // terminate the daemon
    | Cleanup              // the daemon has exited: remove the project state

  predicate DownEnabled(s: State, d: DownStep) {
    match d
    case Load => s.down.NotStarted? && s.project.Supervise?
    case Pause(_) => s.down.Loaded?
    case Stop => s.down.Stopping? && 0 < s.down.i <= |s.order|
    case Remove => s.down.Removing? && 0 < s.down.i <= |s.order|
    case Signal => s.down == Stopping(0)
    case Cleanup => s.down.AwaitingExit? && s.sup.Gone?
  }

  function DownApply(s: State, d: DownStep): State
    requires DownEnabled(s, d)
  {
    match d
    case Load => s.(down := Loaded)
    case Pause(saved) => s.(project := if saved then Supervise(false) else s.project, down := Stopping(|s.order|))
    case Stop => StopInst(s, s.order[s.down.i - 1]).(down := Removing(s.down.i))
    case Remove => RemoveInst(s, s.order[s.down.i - 1]).(down := Stopping(s.down.i - 1))
    case Signal => s.(cancelled := true, down := AwaitingExit)
    case Cleanup => s.(project := Missing, down := Finished)
  }

  // ----- runs -----

  datatype Step = VmmDies(n: Name) | BySup(a: SupStep) | ByDown(d: DownStep)

  predicate Enabled(s: State, step: Step) {
    match step
    case VmmDies(n) => Of(s, n).Live?
    case BySup(a) => SupEnabled(s, a)
    case ByDown(d) => DownEnabled(s, d)
  }

  function Apply(s: State, step: Step): State
    requires Enabled(s, step)
  {
    match step
    case VmmDies(n) => Put(s, n, Dead)
    case BySup(a) => SupApply(s, a)
    case ByDown(d) => DownApply(s, d)
  }

  /** The window in which only the supervisor knows that a service must be stopped again. */
  predicate InWindow(s: State) { s.sup.Recheck? || s.sup.Undoing? }

  predicate Initial(s: State) {
    && s.project == Supervise(true)
    && (forall n | n in s.insts :: n in s.order)
    && s.orphans == {} && s.sup.Waiting? && !s.cancelled && s.down.NotStarted?
  }

  /** `steps` lead from s to e. */
  ghost predicate Run(s: State, steps: seq<Step>, e: State)
    decreases |steps|
  {
    if steps == [] then s == e
    else Enabled(s, steps[0]) && Run(Apply(s, steps[0]), steps[1..], e)
  }

  // ----- what is live when down has ended, in every run -----

  /** The services `down` has still to stop. */
  function StillToStop(s: State): seq<Name> {
    match s.down
    case NotStarted | Loaded => s.order
    case Stopping(i) => if i <= |s.order| then s.order[..i] else s.order
    case Removing(i) => if 0 < i <= |s.order| then s.order[..i - 1] else s.order
    case _ => []
  }

  predicate Passed(s: State, n: Name) { n !in StillToStop(s) }

  /** `down` has nothing left to stop and the daemon is gone. */
  predicate Ended(s: State) { StillToStop(s) == [] && s.sup.Gone? }

  /** No VMM has lost its record, and the supervisor clears and boots only what is down. */
  predicate Steady(s: State) {
    && s.orphans == {}
    && (s.sup.Flag? || s.sup.Clearing? || s.sup.Booting? || s.sup.Deleting? ==> !Of(s, s.sup.t).Live?)
    && (s.down.Finished? ==> s.sup.Gone? && s.project.Missing?)
  }

  predicate BootsIt(s: State, step: Step, n: Name) {
    step == BySup(Boot(true)) && s.sup == Booting(n) && Of(s, n).Absent?
  }

  /** Its VMM dies, or the supervisor stops it again. */
  predicate EndsIt(s: State, step: Step, n: Name) {
    step == VmmDies(n) || (step == BySup(StopAgain) && s.sup == Undoing(n))
  }

  ghost predicate Survives(s: State, steps: seq<Step>, n: Name)
    decreases |steps|
  {
    steps == [] ||
    (Enabled(s, steps[0]) && !EndsIt(s, steps[0], n) && Survives(Apply(s, steps[0]), steps[1..], n))
  }

  /** Somewhere in the run n was booted after `down` had passed it, and nothing ended it since. */
  ghost predicate BootedLate(s: State, steps: seq<Step>, n: Name)
    decreases |steps|
  {
    steps != [] && Enabled(s, steps[0]) &&
    var next := Apply(s, steps[0]);
    || (BootsIt(s, steps[0], n) && Passed(s, n) && Survives(next, steps[1..], n))
    || BootedLate(next, steps[1..], n)
  }

  lemma StepKeepsSteady(s: State, step: Step)
    requires Steady(s) && Enabled(s, step)
    ensures Steady(Apply(s, step))
  {
    hide SupApply, DownApply;
    match step
    case VmmDies(_) =>
    case BySup(a) => SupKeepsSteady(s, a);
    case ByDown(d) => DownKeepsSteady(s, d);
  }

  lemma SupKeepsSteady(s: State, a: SupStep)
    requires Steady(s) && SupEnabled(s, a)
    ensures Steady(SupApply(s, a))
  {
  }

  lemma DownKeepsSteady(s: State, d: DownStep)
    requires Steady(s) && DownEnabled(s, d)
    ensures Steady(DownApply(s, d))
  {
  }

  /** What is live and passed after a step was so before and survived it, or was booted by it. */
  lemma StepLive(s: State, step: Step, n: Name)
    requires Steady(s) && Enabled(s, step)
    ensures var next := Apply(s, step);
            Of(next, n).Live? && Passed(next, n) <==>
            Passed(s, n) && ((Of(s, n).Live? && !EndsIt(s, step, n)) || BootsIt(s, step, n))
  {
    hide SupApply, DownApply, StillToStop, Steady;
    match step
    case VmmDies(dead) => SameToStop(s, Put(s, dead, Dead));
    case BySup(a) => SupLive(s, a, n);
    case ByDown(d) => DownLive(s, d, n);
  }

  lemma SameToStop(s: State, next: State)
    requires next.down == s.down && next.order == s.order
    ensures StillToStop(next) == StillToStop(s)
  {
  }

  lemma SupLive(s: State, a: SupStep, n: Name)
    requires Steady(s) && SupEnabled(s, a)
    ensures var next, step := SupApply(s, a), BySup(a);
            && StillToStop(next) == StillToStop(s)
            && (Of(next, n).Live? <==> (Of(s, n).Live? && !EndsIt(s, step, n)) || BootsIt(s, step, n))
  {
    SameToStop(s, SupApply(s, a));
    hide StillToStop;
  }

  lemma DownLive(s: State, d: DownStep, n: Name)
    requires DownEnabled(s, d)
    ensures var next := DownApply(s, d);
            Of(next, n).Live? && Passed(next, n) <==> Of(s, n).Live? && Passed(s, n)
  {
    match d
    case Pause(_) => assert s.order[..|s.order|] == s.order;
    case Stop => StopLive(s, n);
    case _ =>
  }

  lemma StopLive(s: State, n: Name)
    requires DownEnabled(s, Stop)
    ensures var next := DownApply(s, Stop);
            Of(next, n).Live? && Passed(next, n) <==> Of(s, n).Live? && Passed(s, n)
  {
    var i := s.down.i;
    assert s.order[..i] == s.order[..i - 1] + [s.order[i - 1]];
  }

  lemma {:induction false} LiveFrom(s: State, steps: seq<Step>, e: State, n: Name)
    requires Steady(s) && Run(s, steps, e) && StillToStop(e) == []
    ensures Of(e, n).Live? <==>
            (Of(s, n).Live? && Passed(s, n) && Survives(s, steps, n)) || BootedLate(s, steps, n)
    decreases |steps|
  {
    if steps != [] {
      var next := Apply(s, steps[0]);
      StepKeepsSteady(s, steps[0]);
      StepLive(s, steps[0], n);
      LiveFrom(next, steps[1..], e, n);
      assert BootsIt(s, steps[0], n) ==> !Of(s, n).Live?;
      hide Steady, StillToStop, Passed, Apply, BootsIt, EndsIt;
    }
  }

  lemma {:induction false} RunKeepsSteady(s: State, steps: seq<Step>, e: State)
    requires Steady(s) && Run(s, steps, e)
    ensures Steady(e)
    decreases |steps|
  {
    if steps != [] {
      hide Steady;
      StepKeepsSteady(s, steps[0]);
      RunKeepsSteady(Apply(s, steps[0]), steps[1..], e);
    }
  }

  /**
    In every run, whatever fails: no VMM loses its record, and once `down` has stopped all it will, exactly
    those instances are live that were booted after it had passed them and that nothing has ended since.
   */
  lemma LiveAtEndIff(s: State, steps: seq<Step>, e: State, n: Name)
    requires Initial(s) && Run(s, steps, e)
    ensures e.orphans == {} && (e.down.Finished? ==> StillToStop(e) == [])
    ensures StillToStop(e) == [] ==> (Of(e, n).Live? <==> BootedLate(s, steps, n))
  {
    RunKeepsSteady(s, steps, e);
    if StillToStop(e) == [] {
      LiveFrom(s, steps, e, n);
    }
  }

  // ----- which records are left, in every run -----

  predicate HasRecord(s: State, n: Name) { !Of(s, n).Absent? }

  /** The supervisor clears or deletes the record, or the rm of `down` finds the instance stopped. */
  predicate ErasesIt(s: State, step: Step, n: Name) {
    || (step == BySup(Clear(true)) && s.sup == Clearing(n))
    || (step == BySup(Delete) && s.sup == Deleting(n))
    || (step == ByDown(Remove) && s.down.Removing? && 0 < s.down.i <= |s.order| && s.order[s.down.i - 1] == n
        && Of(s, n).Dead?)
  }

  ghost predicate Keeps(s: State, steps: seq<Step>, n: Name)
    decreases |steps|
  {
    steps == [] ||
    (Enabled(s, steps[0]) && !ErasesIt(s, steps[0], n) && Keeps(Apply(s, steps[0]), steps[1..], n))
  }

  /** Somewhere in the run n was booted after `down` had stopped it, and nothing erased its record since. */
  ghost predicate LeftRecord(s: State, steps: seq<Step>, n: Name)
    decreases |steps|
  {
    steps != [] && Enabled(s, steps[0]) &&
    var next := Apply(s, steps[0]);
    || (BootsIt(s, steps[0], n) && Passed(s, n) && Keeps(next, steps[1..], n))
    || LeftRecord(next, steps[1..], n)
  }

  /** `down` has nothing left to stop or to remove. */
  predicate AllRemoved(s: State) { StillToStop(s) == [] && !s.down.Removing? }

  lemma StepRecord(s: State, step: Step, n: Name)
    requires Steady(s) && Enabled(s, step)
    ensures HasRecord(Apply(s, step), n)
            <==> (HasRecord(s, n) && !ErasesIt(s, step, n)) || BootsIt(s, step, n)
  {
    hide SupApply, DownApply;
    match step
    case VmmDies(_) =>
    case BySup(a) => SupRecord(s, a, n);
    case ByDown(d) => DownRecord(s, d, n);
  }

  lemma SupRecord(s: State, a: SupStep, n: Name)
    requires SupEnabled(s, a)
    ensures HasRecord(SupApply(s, a), n)
            <==> (HasRecord(s, n) && !ErasesIt(s, BySup(a), n)) || BootsIt(s, BySup(a), n)
  {
  }

  lemma DownRecord(s: State, d: DownStep, n: Name)
    requires DownEnabled(s, d)
    ensures HasRecord(DownApply(s, d), n) <==> HasRecord(s, n) && !ErasesIt(s, ByDown(d), n)
  {
  }

  /** Once passed a name stays passed, and it is passed by being stopped, with its rm to follow. */
  lemma PassingIs(s: State, step: Step, n: Name)
    requires Enabled(s, step)
    ensures Passed(s, n) ==> Passed(Apply(s, step), n)
    ensures !Passed(s, n) && Passed(Apply(s, step), n) ==>
              var next := Apply(s, step);
              next.down.Removing? && 0 < next.down.i <= |next.order| && next.order[next.down.i - 1] == n
              && !Of(next, n).Live?
  {
    hide SupApply, DownApply;
    match step
    case VmmDies(dead) => SameToStop(s, Put(s, dead, Dead));
    case BySup(a) => SupKeepsToStop(s, a);
    case ByDown(d) => DownPassing(s, d, n);
  }

  lemma SupKeepsToStop(s: State, a: SupStep)
    requires SupEnabled(s, a)
    ensures SupApply(s, a).down == s.down && SupApply(s, a).order == s.order
    ensures StillToStop(SupApply(s, a)) == StillToStop(s)
  {
  }

  lemma DownPassing(s: State, d: DownStep, n: Name)
    requires DownEnabled(s, d)
    ensures var next := DownApply(s, d);
            && (Passed(s, n) ==> Passed(next, n))
            && (!Passed(s, n) && Passed(next, n) ==>
                  next.down.Removing? && 0 < next.down.i <= |next.order| && next.order[next.down.i - 1] == n
                  && !Of(next, n).Live?)
  {
    match d
    case Pause(_) => assert s.order[..|s.order|] == s.order;
    case Stop =>
      var i := s.down.i;
      assert s.order[..i] == s.order[..i - 1] + [s.order[i - 1]];
    case _ =>
  }

  /** A record whose rm is next does not survive to the end. */
  lemma {:induction false} StoppedIsErased(s: State, steps: seq<Step>, e: State, n: Name)
    requires s.down.Removing? && 0 < s.down.i <= |s.order| && s.order[s.down.i - 1] == n && Of(s, n).Dead?
    requires Steady(s) && Run(s, steps, e) && AllRemoved(e)
    ensures !Keeps(s, steps, n)
    decreases |steps|
  {
    if !ErasesIt(s, steps[0], n) {
      StepKeepsSteady(s, steps[0]);
      DeadWaits(s, steps[0], n);
      StoppedIsErased(Apply(s, steps[0]), steps[1..], e, n);
    }
  }

  lemma DeadWaits(s: State, step: Step, n: Name)
    requires s.down.Removing? && 0 < s.down.i <= |s.order| && s.order[s.down.i - 1] == n && Of(s, n).Dead?
    requires Enabled(s, step) && !ErasesIt(s, step, n)
    ensures var next := Apply(s, step);
            next.down == s.down && next.order == s.order && Of(next, n).Dead?
  {
    hide SupApply, DownApply;
    match step
    case VmmDies(_) =>
    case BySup(a) => SupLeavesDead(s, a, n);
    case ByDown(_) =>
  }

  lemma SupLeavesDead(s: State, a: SupStep, n: Name)
    requires SupEnabled(s, a) && Of(s, n).Dead? && !ErasesIt(s, BySup(a), n)
    ensures var next := SupApply(s, a);
            next.down == s.down && next.order == s.order && Of(next, n).Dead?
  {
  }

  lemma {:induction false} RecordFrom(s: State, steps: seq<Step>, e: State, n: Name)
    requires Steady(s) && Run(s, steps, e) && AllRemoved(e)
    ensures HasRecord(e, n) <==>
            (HasRecord(s, n) && Passed(s, n) && Keeps(s, steps, n)) || LeftRecord(s, steps, n)
    decreases |steps|
  {
    if steps != [] {
      var next, rest := Apply(s, steps[0]), steps[1..];
      StepKeepsSteady(s, steps[0]);
      StepRecord(s, steps[0], n);
      PassingIs(s, steps[0], n);
      RecordFrom(next, rest, e, n);
      if !Passed(s, n) && Passed(next, n) && HasRecord(next, n) {
        StoppedIsErased(next, rest, e, n);
      }
      assert BootsIt(s, steps[0], n) ==> !HasRecord(s, n);
      hide Steady, StillToStop, Passed, Apply, BootsIt, ErasesIt, HasRecord;
    }
  }

  /**
    In every run, whatever fails, a record is left when `down` has finished exactly for those instances that
    were booted after it had stopped them and whose record nothing has erased since; all others are gone.
   */
  lemma RecordAtEndIff(s: State, steps: seq<Step>, e: State, n: Name)
    requires Initial(s) && Run(s, steps, e)
    ensures e.down.Finished? ==> AllRemoved(e) && e.project.Missing?
    ensures AllRemoved(e) ==> (HasRecord(e, n) <==> LeftRecord(s, steps, n))
  {
    RunKeepsSteady(s, steps, e);
    if AllRemoved(e) {
      RecordFrom(s, steps, e, n);
    }
  }

  // ----- runs in which the flag is saved -----

  predicate Names(sup: Supervisor) { !sup.Waiting? && !sup.Polling? && !sup.Gone? }

  /** Where each process is agrees with what is on disk. */
  predicate Placed(s: State) {
    && (Names(s.sup) ==> s.sup.t in s.order)
    && (!s.down.NotStarted? && !s.down.Loaded? ==> s.project != Supervise(true))
  }

  predicate Shape(s: State) { Steady(s) && Placed(s) }

  /** A live instance is one `down` will still stop, or one the supervisor is about to look at again. */
  predicate Covered(s: State, n: Name) {
    Of(s, n).Live? ==> n in StillToStop(s) || (InWindow(s) && s.sup.t == n)
  }

  /** The daemon is killed in the window of a live service that `down` has passed. */
  predicate Abandons(s: State, step: Step, n: Name) {
    step == BySup(Die) && InWindow(s) && s.sup.t == n && Of(s, n).Live? && Passed(s, n)
  }

  /** Somewhere in the run the daemon abandoned n, and its VMM has not died since. */
  ghost predicate Abandoned(s: State, steps: seq<Step>, n: Name)
    decreases |steps|
  {
    steps != [] && Enabled(s, steps[0]) &&
    ((Abandons(s, steps[0], n) && VmmDies(n) !in steps[1..]) || Abandoned(Apply(s, steps[0]), steps[1..], n))
  }

  lemma StepKeepsShape(s: State, step: Step)
    requires Shape(s) && Enabled(s, step) && step != ByDown(Pause(false))
    ensures Shape(Apply(s, step))
  {
    StepKeepsSteady(s, step);
    hide Steady, SupApply, DownApply;
    match step
    case VmmDies(_) =>
    case BySup(a) => SupKeepsPlaced(s, a);
    case ByDown(d) => DownKeepsPlaced(s, d);
  }

  lemma SupKeepsPlaced(s: State, a: SupStep)
    requires Placed(s) && SupEnabled(s, a)
    ensures Placed(SupApply(s, a))
  {
  }

  lemma DownKeepsPlaced(s: State, d: DownStep)
    requires Placed(s) && DownEnabled(s, d) && d != Pause(false)
    ensures Placed(DownApply(s, d))
  {
  }

  lemma StepKeepsCovered(s: State, step: Step, n: Name)
    requires Shape(s) && Covered(s, n) && Enabled(s, step) && !Abandons(s, step, n)
    ensures Covered(Apply(s, step), n)
  {
    hide SupApply, DownApply, StillToStop, Shape;
    match step
    case VmmDies(dead) => SameToStop(s, Put(s, dead, Dead));
    case BySup(a) => SupKeepsCovered(s, a, n);
    case ByDown(d) => DownKeepsCovered(s, d, n);
  }

  lemma SupKeepsCovered(s: State, a: SupStep, n: Name)
    requires Shape(s) && Covered(s, n) && SupEnabled(s, a) && !Abandons(s, BySup(a), n)
    ensures Covered(SupApply(s, a), n)
  {
    SupLive(s, a, n);
    assert s.project == Supervise(true) ==> StillToStop(s) == s.order;
    hide StillToStop, Steady;
  }

  lemma DownKeepsCovered(s: State, d: DownStep, n: Name)
    requires Covered(s, n) && DownEnabled(s, d)
    ensures Covered(DownApply(s, d), n)
  {
    DownLive(s, d, n);
    hide StillToStop;
  }

  /** Without the daemon nothing boots, and only its own death ends a VMM that `down` has passed. */
  lemma {:induction false} WithoutDaemon(s: State, steps: seq<Step>, e: State, n: Name)
    requires s.sup.Gone? && Run(s, steps, e)
    ensures Survives(s, steps, n) <==> VmmDies(n) !in steps
    ensures !BootedLate(s, steps, n)
    decreases |steps|
  {
    if steps != [] {
      WithoutDaemon(Apply(s, steps[0]), steps[1..], e, n);
      assert steps == [steps[0]] + steps[1..];
      assert Apply(s, steps[0]).sup.Gone?;
    }
  }

  lemma {:induction false} AbandonedFrom(s: State, steps: seq<Step>, e: State, n: Name)
    requires Shape(s) && Covered(s, n) && Run(s, steps, e) && ByDown(Pause(false)) !in steps && Ended(e)
    ensures Of(e, n).Live? <==> Abandoned(s, steps, n)
    decreases |steps|
  {
    if steps != [] {
      var step, next, rest := steps[0], Apply(s, steps[0]), steps[1..];
      assert step in steps;
      StepKeepsShape(s, step);
      if Abandons(s, step, n) {
        LiveFrom(next, rest, e, n);
        WithoutDaemon(next, rest, e, n);
        NotAbandoned(next, rest, e, n);
        assert Of(next, n).Live? && Passed(next, n);
      } else {
        StepKeepsCovered(s, step, n);
        AbandonedFrom(next, rest, e, n);
      }
      hide Shape, Covered, Apply, Abandons, Survives, BootedLate;
    }
  }

  lemma {:induction false} NotAbandoned(s: State, steps: seq<Step>, e: State, n: Name)
    requires s.sup.Gone? && Run(s, steps, e)
    ensures !Abandoned(s, steps, n)
    decreases |steps|
  {
    if steps != [] {
      NotAbandoned(Apply(s, steps[0]), steps[1..], e, n);
    }
  }

  ghost predicate NothingLive(s: State) {
    s.orphans == {} && forall n :: !Of(s, n).Live?
  }

  /**
    Never resurrect: in every interleaving in which the flag was saved, an instance is live at the end
    exactly when the daemon was killed in its window after `down` had passed it and its VMM has not died
    since. So nothing is live exactly when nothing was abandoned.
   */
  lemma NeverResurrect(s: State, steps: seq<Step>, e: State)
    requires Initial(s) && Run(s, steps, e) && ByDown(Pause(false)) !in steps
    ensures e.orphans == {} && (e.down.Finished? ==> Ended(e))
    ensures Ended(e) ==> forall n :: Of(e, n).Live? <==> Abandoned(s, steps, n)
    ensures Ended(e) ==> (NothingLive(e) <==> forall n :: !Abandoned(s, steps, n))
  {
    RunKeepsSteady(s, steps, e);
    if Ended(e) {
      forall n ensures Of(e, n).Live? <==> Abandoned(s, steps, n) {
        AbandonedFrom(s, steps, e, n);
      }
    }
  }

  // ----- boots once the flag is cleared -----

  /** A restart that has read the flag and not booted yet. */
  predicate InFlight(s: State) { s.sup.Clearing? || s.sup.Booting? }

  /** How many services the rest of a run boots. */
  ghost function BootsIn(s: State, steps: seq<Step>): nat
    decreases |steps|
  {
    if steps == [] || !Enabled(s, steps[0]) then 0
    else
      (if s.sup.Booting? && BootsIt(s, steps[0], s.sup.t) then 1 else 0) + BootsIn(Apply(s, steps[0]), steps[1..])
  }

  /** With the flag cleared no restart gets past it: only one already in flight can still boot. */
  lemma {:induction false} AtMostOneBoot(s: State, steps: seq<Step>)
    requires s.project != Supervise(true)
    ensures BootsIn(s, steps) <= if InFlight(s) then 1 else 0
    decreases |steps|
  {
    if steps != [] && Enabled(s, steps[0]) {
      ClearedStaysCleared(s, steps[0]);
      AtMostOneBoot(Apply(s, steps[0]), steps[1..]);
      hide Apply, Enabled, BootsIt;
    }
  }

  lemma ClearedStaysCleared(s: State, step: Step)
    requires s.project != Supervise(true) && Enabled(s, step)
    ensures Apply(s, step).project != Supervise(true)
    ensures InFlight(Apply(s, step)) ==> InFlight(s)
    ensures s.sup.Booting? && BootsIt(s, step, s.sup.t) ==> !InFlight(Apply(s, step))
  {
    hide SupApply, DownApply;
    match step
    case VmmDies(_) =>
    case BySup(a) => SupStaysCleared(s, a);
    case ByDown(d) => DownStaysCleared(s, d);
  }

  lemma SupStaysCleared(s: State, a: SupStep)
    requires s.project != Supervise(true) && SupEnabled(s, a)
    ensures SupApply(s, a).project == s.project && (InFlight(SupApply(s, a)) ==> InFlight(s))
    ensures s.sup.Booting? && BootsIt(s, BySup(a), s.sup.t) ==> !InFlight(SupApply(s, a))
  {
  }

  lemma DownStaysCleared(s: State, d: DownStep)
    requires s.project != Supervise(true) && DownEnabled(s, d)
    ensures DownApply(s, d).project != Supervise(true) && DownApply(s, d).sup == s.sup
  {
  }

  // ----- runs without a fault -----

  /** A record is one `down` will still remove, or one the supervisor is about to undo. */
  predicate RecordCovered(s: State, n: Name) {
    HasRecord(s, n) ==>
      || !Passed(s, n)
      || (s.down.Removing? && 0 < s.down.i <= |s.order| && s.order[s.down.i - 1] == n && Of(s, n).Dead?)
      || s.sup == Recheck(n) || s.sup == Undoing(n) || s.sup == Deleting(n)
  }

  lemma SupKeepsRecordCovered(s: State, a: SupStep, n: Name)
    requires Shape(s) && RecordCovered(s, n) && SupEnabled(s, a) && a != Die
    ensures RecordCovered(SupApply(s, a), n)
  {
    SupRecord(s, a, n);
    SupKeepsToStop(s, a);
    assert s.project == Supervise(true) ==> StillToStop(s) == s.order;
    hide StillToStop, Steady;
  }

  lemma DownKeepsRecordCovered(s: State, d: DownStep, n: Name)
    requires RecordCovered(s, n) && DownEnabled(s, d)
    ensures RecordCovered(DownApply(s, d), n)
  {
    DownRecord(s, d, n);
    DownPassing(s, d, n);
    assert DownApply(s, d).sup == s.sup;
    hide StillToStop;
  }

  lemma StepKeepsRecordCovered(s: State, step: Step, n: Name)
    requires Shape(s) && RecordCovered(s, n) && Enabled(s, step) && step != BySup(Die)
    ensures RecordCovered(Apply(s, step), n)
  {
    hide SupApply, DownApply, StillToStop, Shape;
    match step
    case VmmDies(dead) => SameToStop(s, Put(s, dead, Dead));
    case BySup(a) => SupKeepsRecordCovered(s, a, n);
    case ByDown(d) => DownKeepsRecordCovered(s, d, n);
  }

  lemma {:induction false} CoveredToTheEnd(s: State, steps: seq<Step>, e: State, n: Name)
    requires Shape(s) && RecordCovered(s, n) && Run(s, steps, e)
    requires ByDown(Pause(false)) !in steps && BySup(Die) !in steps
    ensures RecordCovered(e, n)
    decreases |steps|
  {
    if steps != [] {
      assert steps[0] in steps;
      StepKeepsShape(s, steps[0]);
      StepKeepsRecordCovered(s, steps[0], n);
      CoveredToTheEnd(Apply(s, steps[0]), steps[1..], e, n);
      hide Shape, RecordCovered;
    }
  }

  /** Saved flag and living daemon: in every interleaving `down` leaves no instance, no record and no project. */
  lemma DownRemovesAll(s: State, steps: seq<Step>, e: State)
    requires Initial(s) && Run(s, steps, e) && ByDown(Pause(false)) !in steps && BySup(Die) !in steps
    requires e.down.Finished?
    ensures e.project.Missing? && e.orphans == {} && e.sup.Gone? && forall n :: Of(e, n).Absent?
  {
    RunKeepsSteady(s, steps, e);
    forall n ensures Of(e, n).Absent? {
      CoveredToTheEnd(s, steps, e, n);
    }
  }

  // ----- either fault can bring a service back -----

  const WEB: Name := 0

  /** A project of one service that has just crashed. */
  const CRASHED := State([WEB], Supervise(true), map[WEB := Dead], {}, Waiting, false, NotStarted)

  ghost predicate Resurrected(e: State) { e.down.Finished? && Of(e, WEB).Live? }

  lemma Cons(s: State, step: Step, rest: seq<Step>, e: State)
    requires Enabled(s, step) && Run(Apply(s, step), rest, e)
    ensures Run(s, [step] + rest, e)
  {
    assert ([step] + rest)[1..] == rest;
  }

  /** The supervisor decides to restart the service and reads the flag: four steps. */
  lemma PassesFlag(s: State, rest: seq<Step>, e: State) returns (steps: seq<Step>)
    requires s.order == [WEB] && s.project == Supervise(true) && s.sup.Waiting? && !s.cancelled && !Of(s, WEB).Live?
    requires Run(s.(sup := Clearing(WEB)), rest, e)
    ensures Run(s, steps, e)
  {
    hide Run;
    Cons(s.(sup := Flag(WEB)), BySup(ReadFlag(false)), rest, e);
    steps := [BySup(ReadFlag(false))] + rest;
    Cons(s.(sup := Gate(WEB)), BySup(LookAgain), steps, e);
    steps := [BySup(LookAgain)] + steps;
    Cons(s.(sup := Polling), BySup(Look(WEB, true)), steps, e);
    steps := [BySup(Look(WEB, true))] + steps;
    Cons(s, BySup(Poll), steps, e);
    steps := [BySup(Poll)] + steps;
  }

  /** It deletes the old record and boots: two steps. */
  lemma Boots(s: State, rest: seq<Step>, e: State) returns (steps: seq<Step>)
    requires s.sup == Clearing(WEB) && !Of(s, WEB).Live?
    requires Run(Put(s, WEB, Live).(sup := Recheck(WEB)), rest, e)
    ensures Run(s, steps, e)
  {
    hide Run;
    var booting := Put(s, WEB, Absent).(sup := Booting(WEB));
    assert booting.insts[WEB := Live] == s.insts[WEB := Live];
    Cons(booting, BySup(Boot(true)), rest, e);
    steps := [BySup(Boot(true))] + rest;
    Cons(s, BySup(Clear(true)), steps, e);
    steps := [BySup(Clear(true))] + steps;
  }

  /** `down` walks past the crashed service, with its flag saved or not: four steps. */
  lemma DownPasses(s: State, saved: bool, rest: seq<Step>, e: State) returns (steps: seq<Step>)
    requires s.order == [WEB] && s.project == Supervise(true) && s.down.NotStarted? && Of(s, WEB).Dead?
    requires Run(Put(s, WEB, Absent).(project := Supervise(!saved), down := Stopping(0)), rest, e)
    ensures Run(s, steps, e)
  {
    hide Run;
    var paused := s.(project := Supervise(!saved), down := Stopping(1));
    Cons(paused.(down := Removing(1)), ByDown(Remove), rest, e);
    steps := [ByDown(Remove)] + rest;
    Cons(paused, ByDown(Stop), steps, e);
    steps := [ByDown(Stop)] + steps;
    Cons(s.(down := Loaded), ByDown(Pause(saved)), steps, e);
    steps := [ByDown(Pause(saved))] + steps;
    Cons(s, ByDown(Load), steps, e);
    steps := [ByDown(Load)] + steps;
  }

  /** `down` ends once it has walked past every service and the daemon is gone or about to go. */
  lemma Finishes(s: State) returns (steps: seq<Step>, e: State)
    requires s.down == Stopping(0) && (s.sup.Gone? || s.sup.Waiting?)
    ensures Run(s, steps, e) && e.down.Finished? && e.insts == s.insts
  {
    var signalled := s.(down := AwaitingExit, cancelled := true);
    e := signalled.(down := Finished, project := Missing, sup := Gone);
    assert Run(e, [], e);
    hide Run;
    Cons(signalled.(sup := Gone), ByDown(Cleanup), [], e);
    steps := [ByDown(Cleanup)] + [];
    if s.sup.Waiting? {
      Cons(signalled, BySup(Quit), steps, e);
      steps := [BySup(Quit)] + steps;
    }
    Cons(s, ByDown(Signal), steps, e);
    steps := [ByDown(Signal)] + steps;
  }

  /**
    The daemon killed between a boot and its second look at the flag: `down` has already walked past
    the service, which stays up. The supervisor's promise does not survive its own death there.
   */
  lemma DeathInWindowResurrects() returns (steps: seq<Step>, e: State)
    ensures Run(CRASHED, steps, e) && Resurrected(e)
  {
    hide Run;
    var flagged := CRASHED.(sup := Clearing(WEB));
    var passed := Put(flagged, WEB, Absent).(project := Supervise(false), down := Stopping(0));
    var up := Put(passed, WEB, Live).(sup := Recheck(WEB));
    steps, e := Finishes(up.(sup := Gone));
    Cons(up, BySup(Die), steps, e);
    steps := Boots(passed, [BySup(Die)] + steps, e);
    steps := DownPasses(flagged, true, steps, e);
    steps := PassesFlag(CRASHED, steps, e);
  }

  /** A flag that could not be saved: the supervisor restarts what `down` has just removed. */
  lemma UnsavedFlagResurrects() returns (steps: seq<Step>, e: State)
    ensures Run(CRASHED, steps, e) && Resurrected(e)
  {
    hide Run;
    var passed := Put(CRASHED, WEB, Absent).(down := Stopping(0));
    var up := Put(passed, WEB, Live);
    steps, e := Finishes(up);
    Cons(up.(sup := Polling), BySup(EndPoll), steps, e);
    steps := [BySup(EndPoll)] + steps;
    Cons(up.(sup := Recheck(WEB)), BySup(ReadFlagAgain), steps, e);
    steps := Boots(passed.(sup := Clearing(WEB)), [BySup(ReadFlagAgain)] + steps, e);
    steps := PassesFlag(passed, steps, e);
    steps := DownPasses(CRASHED, false, steps, e);
  }
}
