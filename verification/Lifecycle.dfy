/**
  The life of one instance under run, restore, stop, rm and the supervisor's clear, where the
  process running any of them may be killed after any step, any record write may fail, and the VMM
  may exit at any time.

  The record is written before the VMM is spawned and the pid after it, so a VMM is always findable:
  by the pid of a running record, or by the exact argv of a starting one. `ps` and SIGKILL are taken
  as reliable and record writes as atomic; operations do not overlap.
 */
module Lifecycle {
  import opened Common

  /** Whole command lines, which are only compared; NO_ARGV is the empty one. */
  type Argv = nat
  const NO_ARGV: Argv := 0

  datatype Vmm = Vmm(pid: nat, argv: Argv)

  datatype Status = Creating | Starting | Running | Stopped

  /** state.json. A pid of 0 is none. */
  datatype Record = Record(status: Status, pid: nat, argv: Argv, byUser: bool)

  const CREATING := Record(Creating, 0, NO_ARGV, false)

  /** How far the operation under way has come. */
  datatype Pc =
    | Idle
    // run
    | RunMade                                        // the directory exists, no record yet
    | RunPreparing                                   // the creating record is saved
    | RunAbandon                                     // failed before a VMM; about to remove the directory
    // run and restore, in launchVMM
    | RestoreReady                                   // nothing live is left; about to launch again
    | Recorded(prev: Record, argv: Argv, run: bool)  // the starting record is saved; about to spawn
    | SpawnFailed(prev: Record, run: bool)           // about to put the previous record back
    | Spawned(v: Vmm, byUser: bool)                  // about to record the pid
    | Attached(v: Vmm, byUser: bool)                 // in the foreground until the VMM exits
    // stop
    | StopMarked(st: Record)                         // the intent is recorded; about to end the VMM
    | StopFailed                                     // it could not be killed; about to undo the intent
    | StopEnded(st: Record)                          // about to record the stop
    // rm
    | RmCleared                                      // about to delete the directory
    // the supervisor's clear
    | ClearReaped(st: Record)                        // about to mark the record stopped
    | ClearMarked                                    // about to delete the directory

  datatype State = State(dir: bool, rec: Option<Record>, live: set<Vmm>, pc: Pc)

  const NOTHING := State(false, None, {}, Idle)

  /** SaveInstance: the new record, or the old one when the write fails. */
  function Save(s: State, r: Record, ok: bool): State {
    if ok then s.(rec := Some(r)) else s
  }

  /** processIsAVMM on the recorded pid. */
  predicate PidAlive(s: State, pid: nat) { exists v | v in s.live :: v.pid == pid }

  function KillPid(s: State, pid: nat): State {
    s.(live := set v | v in s.live && v.pid != pid)
  }

  /** reapOrphanVMM: kill whatever runs under the recorded argv. */
  function Reap(s: State, argv: Argv): State {
    if argv == NO_ARGV then s else s.(live := set v | v in s.live && v.argv != argv)
  }

  /** RemoveAll of the directory; one that fails may have taken the record with it. */
  function RemoveDir(s: State, ok: bool, recordGone: bool): State {
    if ok then s.(dir := false, rec := None) else if recordGone then s.(rec := None) else s
  }

  // ----- run and restore -----

  datatype LaunchStep =
    | Mkdir                                      // CreateInstance
    | FirstSave(ok: bool)
    | PrepareFails                               // pull, bundle or preflight error
    | Abandon(ok: bool, recordGone: bool)
    | RestoreCheck(proceed: bool)                // read the record, reap an unrecorded VMM
    | RecordStarting(argv: Argv, ok: bool)
    | Spawn(pid: nat, ok: bool)
    | PutBack(ok: bool)
    | RecordPid(ok: bool, detach: bool)
    | KillAttached                               // the foreground run was told to stop
    | Finish(ok: bool)                           // the foreground VMM has exited

  predicate LaunchEnabled(s: State, a: LaunchStep) {
    match a
    case Mkdir => s.pc.Idle? && !s.dir
    case FirstSave(_) => s.pc.RunMade?
    case PrepareFails => s.pc.RunPreparing?
    case Abandon(_, _) => s.pc.RunAbandon?
    case RestoreCheck(_) => s.pc.Idle? && s.rec.Some?
    case RecordStarting(argv, _) => (s.pc.RunPreparing? || s.pc.RestoreReady?) && s.rec.Some? && argv != NO_ARGV
    case Spawn(pid, _) => s.pc.Recorded? && s.rec.Some? && pid > 0
    case PutBack(_) => s.pc.SpawnFailed?
    case RecordPid(_, _) => s.pc.Spawned?
    case KillAttached => s.pc.Attached?
    case Finish(_) => s.pc.Attached? && s.pc.v !in s.live
  }

  function LaunchApply(s: State, a: LaunchStep): State
    requires LaunchEnabled(s, a)
  {
    match a
    case Mkdir => s.(dir := true, rec := None, pc := RunMade)
    case FirstSave(ok) => Save(s, CREATING, ok).(pc := if ok then RunPreparing else RunAbandon)
    case PrepareFails => s.(pc := RunAbandon)
    case Abandon(ok, recordGone) => RemoveDir(s, ok, recordGone).(pc := Idle)
    case RestoreCheck(proceed) =>
      var r := s.rec.value;
      if r.status.Running? && r.pid > 0 && PidAlive(s, r.pid) then s
      else
        var s' := if r.status.Starting? && r.pid == 0 then Reap(s, r.argv) else s;
        if proceed && r.argv != NO_ARGV then s'.(pc := RestoreReady) else s'
    case RecordStarting(argv, ok) =>
      var run := s.pc.RunPreparing?;
      if ok then s.(rec := Some(Record(Starting, 0, argv, s.rec.value.byUser)), pc := Recorded(s.rec.value, argv, run))
      else s.(pc := if run then RunAbandon else Idle)
    case Spawn(pid, ok) =>
      var v := Vmm(pid, s.pc.argv);
      if ok then s.(live := s.live + {v}, pc := Spawned(v, s.rec.value.byUser))
      else s.(pc := SpawnFailed(s.pc.prev, s.pc.run))
    case PutBack(ok) => Save(s, s.pc.prev, ok).(pc := if s.pc.run then RunAbandon else Idle)
    case RecordPid(ok, detach) =>
      var v := s.pc.v;
      Save(s, Record(Running, v.pid, v.argv, s.pc.byUser), ok).(pc := if detach then Idle else Attached(v, s.pc.byUser))
    case KillAttached => KillPid(s, s.pc.v.pid)
    case Finish(ok) => Save(s, Record(Stopped, 0, s.pc.v.argv, s.pc.byUser), ok).(pc := Idle)
  }

  // ----- stop -----

  datatype StopStep =
    | MarkIntent(ok: bool)
    | EndVmm(killed: bool)
    | UndoIntent(ok: bool)
    | MarkStopped(ok: bool)

  predicate StopEnabled(s: State, a: StopStep) {
    match a
    case MarkIntent(_) => s.pc.Idle? && s.rec.Some?
    case EndVmm(_) => s.pc.StopMarked?
    case UndoIntent(_) => s.pc.StopFailed?
    case MarkStopped(_) => s.pc.StopEnded?
  }

  function StopApply(s: State, a: StopStep): State
    requires StopEnabled(s, a)
  {
    match a
    case MarkIntent(ok) =>
      var r := s.rec.value;
      if r.status.Creating? then s
      else if r.status.Stopped? then Save(s, r.(byUser := true), ok)
      else Save(s, r.(byUser := true), ok).(pc := StopMarked(r.(byUser := true)))
    case EndVmm(killed) =>
      var st := s.pc.st;
      if st.pid == 0 then (if st.status.Starting? then Reap(s, st.argv) else s).(pc := StopEnded(st))
      else if !PidAlive(s, st.pid) then s.(pc := StopEnded(st))
      else if killed then KillPid(s, st.pid).(pc := StopEnded(st))
      else s.(pc := StopFailed)
    case UndoIntent(ok) =>
      if s.rec.Some? && s.rec.value.byUser && !s.rec.value.status.Stopped? then
        Save(s, s.rec.value.(byUser := false), ok).(pc := Idle)
      else s.(pc := Idle)
    case MarkStopped(ok) => Save(s, s.pc.st.(status := Stopped, byUser := true, pid := 0), ok).(pc := Idle)
  }

  // ----- rm and the supervisor's clear -----

  datatype RemoveStep =
    | RmCheck(force: bool, killed: bool)
    | RmDelete(ok: bool, recordGone: bool)
    | ClearCheck
    | ClearMark(ok: bool)
    | ClearDelete(ok: bool, recordGone: bool)

  predicate RemoveEnabled(s: State, a: RemoveStep) {
    match a
    case RmCheck(_, _) => s.pc.Idle? && s.dir
    case RmDelete(_, _) => s.pc.RmCleared?
    case ClearCheck => s.pc.Idle?
    case ClearMark(_) => s.pc.ClearReaped?
    case ClearDelete(_, _) => s.pc.ClearMarked?
  }

  /** alive, in the supervisor: a running record whose pid answers as its VMM. */
  predicate SupervisorSeesAlive(s: State) {
    s.rec.Some? && s.rec.value.status.Running? && s.rec.value.pid > 0 && PidAlive(s, s.rec.value.pid)
  }

  function RemoveApply(s: State, a: RemoveStep): State
    requires RemoveEnabled(s, a)
  {
    match a
    case RmCheck(force, killed) =>
      if s.rec.None? then s.(pc := RmCleared)    // removeWedgedInstance
      else
        var r := s.rec.value;
        if (r.status.Running? || r.status.Starting?) && r.pid > 0 then
          if !force then s
          else if !PidAlive(s, r.pid) then s.(pc := RmCleared)
          else if killed then KillPid(s, r.pid).(pc := RmCleared)
          else s
        else if r.status.Starting? then Reap(s, r.argv).(pc := RmCleared)
        else s.(pc := RmCleared)
    case RmDelete(ok, recordGone) => RemoveDir(s, ok, recordGone).(pc := Idle)
    case ClearCheck =>
      if SupervisorSeesAlive(s) then s
      else if s.rec.None? || s.rec.value.status.Stopped? then s.(pc := ClearMarked)
      else
        var r := s.rec.value;
        (if r.status.Starting? && r.pid == 0 then Reap(s, r.argv) else s).(pc := ClearReaped(r))
    case ClearMark(ok) => Save(s, s.pc.st.(status := Stopped, pid := 0), ok).(pc := ClearMarked)
    case ClearDelete(ok, recordGone) => RemoveDir(s, ok, recordGone).(pc := Idle)
  }

  // ----- runs -----

  datatype Step =
    | Launch(l: LaunchStep) | Stop(t: StopStep) | Remove(r: RemoveStep)
    | Crash                     // the operation's process is killed
    | VmmExits(v: Vmm)

  predicate Enabled(s: State, a: Step) {
    match a
    case Launch(l) => LaunchEnabled(s, l)
    case Stop(t) => StopEnabled(s, t)
    case Remove(r) => RemoveEnabled(s, r)
    case Crash => true
    case VmmExits(v) => v in s.live
  }

  function Apply(s: State, a: Step): State
    requires Enabled(s, a)
  {
    match a
    case Launch(l) => LaunchApply(s, l)
    case Stop(t) => StopApply(s, t)
    case Remove(r) => RemoveApply(s, r)
    case Crash => s.(pc := Idle)
    case VmmExits(v) => s.(live := s.live - {v})
  }

  /** Every state a run passes through, in order. */
  ghost predicate IsRun(states: seq<State>, steps: seq<Step>) {
    && |states| == |steps| + 1 && states[0] == NOTHING
    && forall i | 0 <= i < |steps| :: Enabled(states[i], steps[i]) && states[i + 1] == Apply(states[i], steps[i])
  }

  // ----- the invariant -----

  /** The record leads to this VMM: by its pid, or, before the pid is known, by its argv. */
  predicate Findable(s: State, v: Vmm) {
    && s.dir && s.rec.Some?
    && var r := s.rec.value;
       (r.status.Running? && r.pid == v.pid) || (r.status.Starting? && r.pid == 0 && r.argv == v.argv)
  }

  predicate OneAndFindable(s: State) {
    && (forall v, w | v in s.live && w in s.live :: v == w)
    && forall v | v in s.live :: Findable(s, v) && v.argv != NO_ARGV
  }

  /** A record's fields agree with its status. */
  predicate RecordOk(r: Record) {
    && (r.status.Starting? ==> r.pid == 0 && r.argv != NO_ARGV)
    && (r.status.Running? ==> r.pid > 0)
    && (r.status.Creating? || r.status.Stopped? ==> r.pid == 0)
  }

  /** The positions at which an operation has made sure that nothing is live. */
  predicate Quiet(pc: Pc) {
    pc.RunMade? || pc.RunPreparing? || pc.RunAbandon? || pc.RestoreReady? || pc.Recorded? || pc.SpawnFailed? ||
    pc.StopEnded? || pc.RmCleared? || pc.ClearReaped? || pc.ClearMarked?
  }

  predicate SameVmm(r: Record, st: Record) { r.status == st.status && r.pid == st.pid && r.argv == st.argv }

  predicate PcOk(s: State) {
    match s.pc
    case Recorded(prev, argv, _) => s.dir && RecordOk(prev) && s.rec.Some? && s.rec.value.status.Starting? &&
                                    s.rec.value.pid == 0 && s.rec.value.argv == argv != NO_ARGV
    case SpawnFailed(prev, _) => s.dir && RecordOk(prev)
    case Spawned(v, _) => s.dir && v.pid > 0 && v.argv != NO_ARGV && s.live <= {v} && s.rec.Some? &&
                       s.rec.value.status.Starting? && s.rec.value.pid == 0 && s.rec.value.argv == v.argv
    case Attached(v, _) => s.dir && v.pid > 0 && s.live <= {v}
    case StopMarked(st) => RecordOk(st) && s.rec.Some? && SameVmm(s.rec.value, st)
    case StopEnded(st) => s.dir && RecordOk(st)
    case ClearReaped(st) => s.dir && RecordOk(st)
    case RunMade | RunPreparing | RestoreReady => s.dir
    case _ => true
  }

  predicate Inv(s: State) {
    && OneAndFindable(s)
    && (s.rec.Some? ==> s.dir && RecordOk(s.rec.value))
    && (Quiet(s.pc) ==> s.live == {})
    && PcOk(s)
  }

  lemma LaunchKeepsInv(s: State, a: LaunchStep)
    requires Inv(s) && LaunchEnabled(s, a)
    ensures Inv(LaunchApply(s, a))
  {
  }

  lemma StopKeepsInv(s: State, a: StopStep)
    requires Inv(s) && StopEnabled(s, a)
    ensures Inv(StopApply(s, a))
  {
  }

  lemma RemoveKeepsInv(s: State, a: RemoveStep)
    requires Inv(s) && RemoveEnabled(s, a)
    ensures Inv(RemoveApply(s, a))
  {
  }

  lemma StepKeepsInv(s: State, a: Step)
    requires Inv(s) && Enabled(s, a)
    ensures Inv(Apply(s, a))
  {
    match a
    case Launch(l) => LaunchKeepsInv(s, l);
    case Stop(t) => StopKeepsInv(s, t);
    case Remove(r) => RemoveKeepsInv(s, r);
    case _ =>
  }

  lemma {:induction false} RunKeepsInv(states: seq<State>, steps: seq<Step>, i: nat)
    requires IsRun(states, steps) && i < |states|
    ensures Inv(states[i])
  {
    if i > 0 {
      RunKeepsInv(states, steps, i - 1);
      StepKeepsInv(states[i - 1], steps[i - 1]);
    }
  }

  /**
    In every run, at every point: at most one VMM is live and the record finds it, and the directory
    it uses is deleted only when none is.
   */
  lemma CrashSafe(states: seq<State>, steps: seq<Step>)
    requires IsRun(states, steps)
    ensures forall i | 0 <= i < |states| :: OneAndFindable(states[i]) && |states[i].live| <= 1
    ensures forall i | 0 <= i < |steps| && states[i].dir && !states[i + 1].dir :: states[i].live == {}
  {
    forall i | 0 <= i < |states|
      ensures OneAndFindable(states[i]) && |states[i].live| <= 1
      ensures i < |steps| && states[i].dir && !states[i + 1].dir ==> states[i].live == {}
    {
      RunKeepsInv(states, steps, i);
      AtMostOne(states[i].live);
    }
  }

  lemma AtMostOne(live: set<Vmm>)
    requires forall v, w | v in live && w in live :: v == w
    ensures |live| <= 1
  {
    if live != {} {
      var v :| v in live;
      assert live == {v};
    }
  }

  /**
    No crash leaves the name stuck: from every state a run can leave behind, an uninterrupted
    `rm --force` ends with nothing live and the name free.
   */
  lemma RmForceRecovers(states: seq<State>, steps: seq<Step>)
    requires IsRun(states, steps)
    ensures var s := states[|steps|].(pc := Idle);
            s.dir ==> Apply(Apply(s, Remove(RmCheck(true, true))), Remove(RmDelete(true, false))) == NOTHING
  {
    RunKeepsInv(states, steps, |steps|);
    var s := states[|steps|].(pc := Idle);
    StepKeepsInv(states[|steps|], Crash);
    if s.dir {
      RemoveKeepsInv(s, RmCheck(true, true));
    }
  }

  /** An uninterrupted stop of a record that may have a VMM ends it and says so. */
  lemma StopEndsIt(states: seq<State>, steps: seq<Step>)
    requires IsRun(states, steps)
    ensures var s := states[|steps|].(pc := Idle);
            s.rec.Some? && (s.rec.value.status.Running? || s.rec.value.status.Starting?) ==>
              var e := Apply(Apply(Apply(s, Stop(MarkIntent(true))), Stop(EndVmm(true))), Stop(MarkStopped(true)));
              e == State(true, Some(s.rec.value.(status := Stopped, pid := 0, byUser := true)), {}, Idle)
  {
    RunKeepsInv(states, steps, |steps|);
    var s := states[|steps|].(pc := Idle);
    StepKeepsInv(states[|steps|], Crash);
    if s.rec.Some? && (s.rec.value.status.Running? || s.rec.value.status.Starting?) {
      var s1 := StopApply(s, MarkIntent(true));
      StopKeepsInv(s, MarkIntent(true));
      StopKeepsInv(s1, EndVmm(true));
    }
  }

  // ----- what ends a VMM, and what leaves it alone -----

  /** The record never learned this VMM's pid; only its argv leads to it. */
  predicate Unrecorded(s: State, v: Vmm) {
    s.rec.Some? && s.rec.value.status.Starting? && s.rec.value.pid == 0 && s.rec.value.argv == v.argv
  }

  /**
    The steps that end a VMM: its own exit, the kill of a stop, of a foreground run or of a forced rm, and the
    reap of one whose pid was never recorded.
   */
  predicate EndsVmm(s: State, a: Step, v: Vmm) {
    match a
    case VmmExits(w) => w == v
    case Launch(KillAttached) => s.pc.Attached? && s.pc.v.pid == v.pid
    case Launch(RestoreCheck(_)) => Unrecorded(s, v)
    case Stop(EndVmm(killed)) => s.pc.StopMarked? && (Unrecorded(s, v) || (killed && s.pc.st.pid == v.pid))
    case Remove(RmCheck(force, killed)) => Unrecorded(s, v) || (force && killed)
    case Remove(ClearCheck) => Unrecorded(s, v)
    case _ => false
  }

  /** In every state a run can reach, a live VMM is ended by these steps and by no other. */
  lemma VmmEndsIff(s: State, a: Step, v: Vmm)
    requires Inv(s) && Enabled(s, a) && v in s.live
    ensures v !in Apply(s, a).live <==> EndsVmm(s, a, v)
  {
    hide PcOk, LaunchApply, StopApply, RemoveApply;
    match a
    case Launch(l) => LaunchEndsIff(s, l, v);
    case Stop(t) => StopEndsIff(s, t, v);
    case Remove(r) => RemoveEndsIff(s, r, v);
    case _ =>
  }

  lemma LaunchEndsIff(s: State, l: LaunchStep, v: Vmm)
    requires Inv(s) && LaunchEnabled(s, l) && v in s.live
    ensures v !in LaunchApply(s, l).live <==> EndsVmm(s, Launch(l), v)
  {
  }

  lemma StopEndsIff(s: State, t: StopStep, v: Vmm)
    requires Inv(s) && StopEnabled(s, t) && v in s.live
    ensures v !in StopApply(s, t).live <==> EndsVmm(s, Stop(t), v)
  {
  }

  lemma RemoveEndsIff(s: State, r: RemoveStep, v: Vmm)
    requires Inv(s) && RemoveEnabled(s, r) && v in s.live
    ensures v !in RemoveApply(s, r).live <==> EndsVmm(s, Remove(r), v)
  {
  }

  /** rm without --force, restore and the supervisor's clear change nothing of an instance that is up. */
  lemma RunningIsLeftAlone(s: State, killed: bool, proceed: bool)
    requires s.pc.Idle? && s.dir && s.rec.Some? && s.rec.value.pid > 0
    ensures s.rec.value.status.Running? || s.rec.value.status.Starting? ==> RemoveApply(s, RmCheck(false, killed)) == s
    ensures SupervisorSeesAlive(s) ==> RemoveApply(s, ClearCheck) == s && LaunchApply(s, RestoreCheck(proceed)) == s
  {
  }

  // ----- operations that nothing interrupts -----

  /** run: from a free name to a running record and its VMM. */
  lemma RunStarts(s: State, argv: Argv, pid: nat, detach: bool)
    requires Inv(s) && s.pc.Idle? && !s.dir && argv != NO_ARGV && pid > 0
    ensures var made := Apply(s, Launch(Mkdir));
            var saved := Apply(made, Launch(FirstSave(true)));
            var starting := Apply(saved, Launch(RecordStarting(argv, true)));
            var spawned := Apply(starting, Launch(Spawn(pid, true)));
            var v := Vmm(pid, argv);
            Apply(spawned, Launch(RecordPid(true, detach)))
            == State(true, Some(Record(Running, pid, argv, false)), {v}, if detach then Idle else Attached(v, false))
  {
    assert s.live == {};
  }

  /** run: a spawn that fails gives the name back. */
  lemma FailedRunGivesNameBack(s: State, argv: Argv, pid: nat, gone: bool)
    requires Inv(s) && s.pc.Idle? && !s.dir && argv != NO_ARGV && pid > 0
    ensures var made := Apply(s, Launch(Mkdir));
            var saved := Apply(made, Launch(FirstSave(true)));
            var starting := Apply(saved, Launch(RecordStarting(argv, true)));
            var failed := Apply(starting, Launch(Spawn(pid, false)));
            var back := Apply(failed, Launch(PutBack(true)));
            Apply(back, Launch(Abandon(true, gone))) == NOTHING
  {
    assert s.live == {};
  }

  /** restore of an instance that is down, from every state a run can leave; or its record back as it was. */
  lemma RestoreStarts(s: State, argv: Argv, pid: nat, detach: bool)
    requires Inv(s) && s.pc.Idle? && s.rec.Some? && s.rec.value.argv != NO_ARGV && !SupervisorSeesAlive(s)
    requires argv != NO_ARGV && pid > 0
    ensures var byUser := s.rec.value.byUser;
            var ready := Apply(s, Launch(RestoreCheck(true)));
            var starting := Apply(ready, Launch(RecordStarting(argv, true)));
            var v := Vmm(pid, argv);
            && Apply(Apply(starting, Launch(Spawn(pid, true))), Launch(RecordPid(true, detach)))
               == State(true, Some(Record(Running, pid, argv, byUser)), {v},
                        if detach then Idle else Attached(v, byUser))
            && Apply(Apply(starting, Launch(Spawn(pid, false))), Launch(PutBack(true)))
               == State(true, s.rec, {}, Idle)
  {
    RestoreReaps(s);
  }

  lemma RestoreReaps(s: State)
    requires Inv(s) && s.pc.Idle? && s.rec.Some? && s.rec.value.argv != NO_ARGV && !SupervisorSeesAlive(s)
    ensures Apply(s, Launch(RestoreCheck(true))) == State(true, s.rec, {}, RestoreReady)
  {
  }

  /** rm without --force of an instance that is not up frees the name. */
  lemma RmRemoves(s: State, killed: bool, gone: bool)
    requires Inv(s) && s.pc.Idle? && s.dir && (s.rec.Some? ==> s.rec.value.pid == 0)
    ensures Apply(Apply(s, Remove(RmCheck(false, killed))), Remove(RmDelete(true, gone))) == NOTHING
  {
  }

  /** The supervisor's clear of an instance it does not see alive ends what runs and frees the name. */
  lemma ClearRemoves(s: State, marked: bool, gone: bool)
    requires Inv(s) && s.pc.Idle? && !SupervisorSeesAlive(s)
    ensures var checked := Apply(s, Remove(ClearCheck));
            var cleared := if checked.pc.ClearReaped? then Apply(checked, Remove(ClearMark(marked))) else checked;
            cleared.pc.ClearMarked? && Apply(cleared, Remove(ClearDelete(true, gone))) == NOTHING
  {
  }

  /** stop: a VMM that will not die keeps running, and the record no longer says that a person stopped it. */
  lemma FailedStopIsUndone(s: State)
    requires Inv(s) && s.pc.Idle? && SupervisorSeesAlive(s)
    ensures var marked := Apply(s, Stop(MarkIntent(true)));
            var failed := Apply(marked, Stop(EndVmm(false)));
            Apply(failed, Stop(UndoIntent(true))) == s.(rec := Some(s.rec.value.(byUser := false)))
  {
  }

  /** A foreground run that is told to stop ends its VMM and records it. */
  lemma ForegroundEnds(s: State)
    requires Inv(s) && s.pc.Attached?
    ensures Apply(Apply(s, Launch(KillAttached)), Launch(Finish(true)))
            == s.(live := {}, rec := Some(Record(Stopped, 0, s.pc.v.argv, s.pc.byUser)), pc := Idle)
  {
  }
}
