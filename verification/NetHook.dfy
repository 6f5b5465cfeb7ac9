/**
  The Linux network hook: createRuntime attaches an instance, postStop and detach detach it, and
  `hull rm` runs the detach a runtime never ran. Any plugin, mount or file call may fail; no hook is
  killed midway.
 */
module NetHook {

  /** The bind mount that keeps the namespace: absent, a plain file left where it was, or mounted. */
  datatype Pin = NoPin | PlainFile | Pinned

  /**
    lease: what the plugins hold for the instance's ID. record: network.json. attached: a past attach
    succeeded. reported: some hook or command has reported a failure. forced: an rm --force went ahead.
   */
  datatype State = State(
    lease: bool, pin: Pin, record: bool, container: bool, attached: bool, reported: bool, forced: bool)

  const CREATED := State(false, NoPin, false, true, false, false, false)

  datatype Outcome = Outcome(s: State, ok: bool)

  // ----- the calls a hook makes, each with how it went -----

  datatype UnpinCalls = UnpinCalls(unmount: bool, remove: bool)

  function Unpin(s: State, c: UnpinCalls): (o: Outcome)
    ensures o.s == s.(pin := o.s.pin)
    ensures (o.ok ==> o.s.pin.NoPin?) && (o.s.pin.Pinned? ==> s.pin.Pinned?)
    ensures o.ok <==> (s.pin.Pinned? ==> c.unmount) && (!s.pin.NoPin? ==> c.remove)
  {
    if s.pin.Pinned? && !c.unmount then Outcome(s, false)
    else if s.pin.NoPin? then Outcome(s, true)
    else if !c.remove then Outcome(s.(pin := PlainFile), false)
    else Outcome(s.(pin := NoPin), true)
  }

  datatype PinCalls = PinCalls(stale: UnpinCalls, create: bool, mount: bool, remove: bool)

  function PinNetns(s: State, c: PinCalls): (o: Outcome)
    ensures o.s == s.(pin := o.s.pin)
    ensures (o.ok ==> o.s.pin.Pinned?) && (!o.ok && !s.pin.Pinned? ==> !o.s.pin.Pinned?)
    ensures o.ok <==> Unpin(s, c.stale).ok && c.create && c.mount
  {
    var u := Unpin(s, c.stale);
    if !u.ok || !c.create then Outcome(u.s, false)
    else if c.mount then Outcome(u.s.(pin := Pinned), true)
    else Outcome(u.s.(pin := if c.remove then NoPin else PlainFile), false)
  }

  /** DelNetworkList: a failed one may still have released the lease. */
  datatype Del = DelOk | DelFails(released: bool)

  function RunDel(s: State, d: Del): (o: Outcome)
    ensures o.s == s.(lease := o.s.lease) && o.ok == d.DelOk?
    ensures (o.s.lease ==> s.lease) && (o.ok ==> !o.s.lease)
  {
    match d
    case DelOk => Outcome(s.(lease := false), true)
    case DelFails(released) => Outcome(s.(lease := s.lease && !released), false)
  }

  /** AddNetworkList and reading its result: a failed one may leave a lease behind. */
  datatype Add = Added | AddedUnusable | AddFails(leaves: bool)

  datatype AttachCalls = AttachCalls(lock: bool, conf: bool, add: Add, undo: Del)

  /** Attach, whose failure past the configuration is undone while the namespace is pinned. */
  function Attach(s: State, c: AttachCalls): (o: Outcome)
    ensures o.s == s.(lease := o.s.lease, attached := o.s.attached)
    ensures if o.ok then o.s.lease && o.s.attached else o.s.attached == s.attached
    ensures !o.ok && c.undo.DelOk? && !s.lease ==> !o.s.lease
    ensures (o.ok <==> c.lock && c.conf && c.add.Added?) && (!c.lock || !c.conf ==> o.s == s)
  {
    if !c.lock || !c.conf then Outcome(s, false)
    else
      match c.add
      case Added => Outcome(s.(lease := true, attached := true), true)
      case AddedUnusable => Outcome(RunDel(s.(lease := true), c.undo).s, false)
      case AddFails(leaves) => Outcome(RunDel(s.(lease := s.lease || leaves), c.undo).s, false)
  }

  datatype DetachCalls = DetachCalls(lock: bool, conf: bool, del: Del)

  function Detach(s: State, c: DetachCalls): (o: Outcome)
    ensures o.s == s.(lease := o.s.lease)
    ensures (o.s.lease ==> s.lease) && (o.ok ==> !o.s.lease)
    ensures (o.ok <==> c.lock && c.conf && c.del.DelOk?) && (!c.lock || !c.conf ==> o.s == s)
  {
    if !c.lock || !c.conf then Outcome(s, false) else RunDel(s, c.del)
  }

  // ----- createRuntime -----

  datatype CreateCalls = CreateCalls(
    state: bool, pin: PinCalls, attach: AttachCalls, write: bool, detach: DetachCalls, unpin: UnpinCalls)

  /** How createRuntime leaves the files and the plugins. */
  function CreateEffect(s: State, c: CreateCalls): Outcome {
    var p := PinNetns(s, c.pin);
    if !c.state then Outcome(s, false)
    else if !p.ok then p
    else
      var a := Attach(p.s, c.attach);
      if a.ok && c.write then Outcome(a.s.(record := true), true)
      else
        var undone := if a.ok then Detach(a.s, c.detach).s else a.s;
        Outcome(Unpin(undone, c.unpin).s, false)
  }

  /** What must go right for a failed createRuntime to have been undone. */
  predicate UndoSucceeds(c: CreateCalls) {
    c.attach.undo.DelOk? && c.detach == DetachCalls(true, true, DelOk) && c.unpin == UnpinCalls(true, true)
  }

  // ----- postStop and detach -----

  datatype StopCalls = StopCalls(state: bool, detach: DetachCalls, unpin: UnpinCalls, remove: bool)

  function StopEffect(s: State, isDetach: bool, c: StopCalls): Outcome {
    if !c.state then Outcome(s, false)
    else
      var d := Detach(s, c.detach);
      if !d.ok && isDetach then d
      else
        var u := Unpin(d.s, c.unpin);
        var gone := !u.s.record || c.remove;
        Outcome(if gone then u.s.(record := false) else u.s, d.ok && u.ok && gone)
  }

  // ----- hull rm -----

  datatype Lock = Locked | NoLogDir | LockFails

  /**
    postStop: the runtime's own hook, run when its process goes, if it runs. stat: reading the record
    worked. spec: reading the container's spec worked. exec: the detach could be started.
   */
  datatype RmCalls = RmCalls(
    force: bool, lock: Lock, running: bool, ranPostStop: bool, postStop: StopCalls,
    stat: bool, spec: bool, exec: bool, detach: StopCalls, delete: bool, netDir: UnpinCalls, removeAll: bool)

  /** The detach left over, run while the container is still there. */
  function TaskGone(s: State, c: RmCalls): Outcome {
    if !c.stat then Outcome(s, false)
    else if !s.record then Outcome(s, true)
    else if !c.spec || !c.exec then Outcome(s, false)
    else StopEffect(s, true, c.detach)
  }

  /** The state when the container is about to be deleted, and whether it will be. */
  function RmBeforeDelete(s: State, c: RmCalls): Outcome {
    if c.running && !c.force then Outcome(s, false)
    else
      var t := if c.ranPostStop then StopEffect(s, false, c.postStop).s else s;
      if !c.lock.Locked? then Outcome(t, true)
      else
        var g := TaskGone(t, c);
        if g.ok then g else if c.force then Outcome(g.s, true) else g
  }

  function RmEffect(s: State, c: RmCalls): Outcome {
    var b := RmBeforeDelete(s, c);
    if !b.ok || !c.delete then Outcome(b.s, false)
    else
      var deleted := b.s.(container := false, forced := b.s.forced || c.force);
      if c.lock.LockFails? then Outcome(deleted, false)
      else if c.lock.NoLogDir? then Outcome(deleted, true)
      else
        var u := Unpin(deleted, c.netDir);
        if !u.ok || !c.removeAll then Outcome(u.s, false) else Outcome(u.s.(record := false, pin := NoPin), true)
  }

  // ----- runs of an instance whose spec carries the hook -----

  datatype Op = CreateRuntime(c: CreateCalls) | PostStop(p: StopCalls) | Rm(r: RmCalls)

  /** There is no log directory only when nothing was ever written beside the log. */
  predicate Enabled(s: State, op: Op) {
    s.container && (op.Rm? && op.r.lock.NoLogDir? ==> !s.record && s.pin.NoPin?)
  }

  function Effect(s: State, op: Op): Outcome {
    match op
    case CreateRuntime(c) => CreateEffect(s, c)
    case PostStop(p) => StopEffect(s, false, p)
    case Rm(r) => RmEffect(s, r)
  }

  /** What an rm that goes on has to report: the hook's error file, or a detach that --force passed over. */
  predicate Warns(s: State, c: RmCalls) {
    || (c.ranPostStop && !StopEffect(s, false, c.postStop).ok)
    || (c.lock.Locked? && c.force &&
        !TaskGone(if c.ranPostStop then StopEffect(s, false, c.postStop).s else s, c).ok)
  }

  /** A failure is reported: by an exit status, the hook's error file, or a warning of rm --force. */
  predicate Reports(s: State, op: Op) { !Effect(s, op).ok || (op.Rm? && Warns(s, op.r)) }

  function Next(s: State, op: Op): State {
    var e := Effect(s, op).s;
    e.(reported := s.reported || Reports(s, op))
  }

  ghost predicate Legal(ops: seq<Op>) {
    ops == [] || (Legal(ops[..|ops| - 1]) && Enabled(After(ops[..|ops| - 1]), ops[|ops| - 1]))
  }

  ghost function After(ops: seq<Op>): State {
    if ops == [] then CREATED else Next(After(ops[..|ops| - 1]), ops[|ops| - 1])
  }

  // ----- what each operation can do -----

  lemma CreateSummary(s: State, c: CreateCalls)
    ensures var e := CreateEffect(s, c);
            && e.s.container == s.container && e.s.reported == s.reported && e.s.forced == s.forced
            && (s.attached ==> e.s.attached)
            && (e.ok ==> e.s.record && e.s.lease && e.s.pin.Pinned? && e.s.attached)
            && (!e.ok ==> e.s.record == s.record)
  {
    hide PinNetns, Unpin, Attach, Detach;
  }

  lemma StopSummary(s: State, isDetach: bool, c: StopCalls)
    ensures var e := StopEffect(s, isDetach, c);
            && e.s == s.(lease := e.s.lease, pin := e.s.pin, record := e.s.record)
            && (e.s.lease ==> s.lease) && (e.s.record ==> s.record)
            && (e.ok ==> !e.s.lease && e.s.pin.NoPin? && !e.s.record)
            && (!isDetach ==> (e.s.record <==> s.record && !(c.state && c.remove)))
  {
    hide Unpin, Detach;
  }

  /** What rm has done when it deletes the container, or stops short of it. */
  lemma RmBeforeSummary(s: State, c: RmCalls)
    ensures var e := RmBeforeDelete(s, c);
            && e.s == s.(lease := e.s.lease, pin := e.s.pin, record := e.s.record)
            && (e.s.lease ==> s.lease) && (e.s.record ==> s.record)
            && (e.ok && c.lock.Locked? && !c.force ==> !e.s.record)
            && (e.ok && c.lock.LockFails? ==>
                  (e.s.record <==> s.record && !(c.ranPostStop && c.postStop.state && c.postStop.remove)))
            && (c.lock.LockFails? && !c.force ==> (e.ok <==> !c.running))
  {
    StopSummary(s, false, c.postStop);
    var t := if c.ranPostStop then StopEffect(s, false, c.postStop).s else s;
    StopSummary(t, true, c.detach);
    hide StopEffect;
  }

  lemma RmSummary(s: State, c: RmCalls)
    requires Enabled(s, Rm(c))
    ensures var b, e := RmBeforeDelete(s, c), RmEffect(s, c);
            && e.s.attached == s.attached && e.s.reported == s.reported
            && (e.s.record ==> b.s.record) && e.s.lease == b.s.lease
            && (!e.s.container <==> b.ok && c.delete)
            && (e.ok && c.lock.Locked? ==> !e.s.record && e.s.pin.NoPin?)
            && (e.ok && c.lock.NoLogDir? ==> e.s.pin == b.s.pin && e.s.record == b.s.record)
            && (e.ok ==> !c.lock.LockFails?)
  {
    RmBeforeSummary(s, c);
    hide RmBeforeDelete;
  }

  /** Unless rm reports something, what it leaves of the lease is what the record says. */
  lemma QuietRm(s: State, c: RmCalls)
    requires Enabled(s, Rm(c)) && !Reports(s, Rm(c)) && s.record == s.lease == s.pin.Pinned?
    ensures var e := RmEffect(s, c).s; e.record == e.lease == e.pin.Pinned?
  {
    RmSummary(s, c);
    StopSummary(s, false, c.postStop);
    var t := if c.ranPostStop then StopEffect(s, false, c.postStop).s else s;
    assert t.record == t.lease == t.pin.Pinned?;
    StopSummary(t, true, c.detach);
    hide StopEffect;
    if c.lock.Locked? {
      assert TaskGone(t, c).ok;
      assert !TaskGone(t, c).s.lease;
      assert RmBeforeDelete(s, c).s == TaskGone(t, c).s;
    } else {
      assert RmBeforeDelete(s, c).s == t;
    }
    hide RmEffect;
  }

  // ----- operations in which no call fails -----

  predicate CreateGoesWell(c: CreateCalls) {
    c.state && c.pin == PinCalls(UnpinCalls(true, true), true, true, c.pin.remove) && c.attach.lock && c.attach.conf
    && c.attach.add.Added? && c.write
  }

  predicate StopGoesWell(c: StopCalls) {
    c.state && c.detach == DetachCalls(true, true, DelOk) && c.unpin == UnpinCalls(true, true) && c.remove
  }

  predicate RmGoesWell(c: RmCalls) {
    && (c.force || !c.running) && !c.lock.LockFails? && (c.ranPostStop ==> StopGoesWell(c.postStop))
    && c.stat && c.spec && c.exec && StopGoesWell(c.detach) && c.delete && c.netDir == UnpinCalls(true, true)
    && c.removeAll
  }

  /** createRuntime attaches, whatever was left before; postStop and detach leave nothing. */
  lemma UndisturbedHook(s: State, c: CreateCalls, isDetach: bool, p: StopCalls)
    ensures CreateGoesWell(c) ==>
              CreateEffect(s, c) == Outcome(s.(lease := true, pin := Pinned, record := true, attached := true), true)
    ensures StopGoesWell(p) ==>
              StopEffect(s, isDetach, p) == Outcome(s.(lease := false, pin := NoPin, record := false), true)
  {
  }

  /** rm succeeds and leaves nothing; a lease without a record goes only with the runtime's own postStop. */
  lemma UndisturbedRm(s: State, c: RmCalls)
    requires Enabled(s, Rm(c)) && RmGoesWell(c)
    ensures var e := RmEffect(s, c);
            && e.ok && !e.s.container && !e.s.record && e.s.pin.NoPin?
            && (e.s.lease <==> s.lease && !c.ranPostStop && (c.lock.NoLogDir? || !s.record))
  {
    hide StopEffect, CreateEffect, Unpin;
    var t := if c.ranPostStop then StopEffect(s, false, c.postStop).s else s;
    UndisturbedHook(s, ATTACH.c, false, c.postStop);
    UndisturbedHook(t, ATTACH.c, true, c.detach);
    var clean := s.(lease := false, pin := NoPin, record := false);
    assert t == if c.ranPostStop then clean else s;
    assert TaskGone(t, c) == Outcome(if t.record then clean else t, true);
    assert RmBeforeDelete(s, c) == Outcome(if c.lock.Locked? && t.record then clean else t, true);
    hide TaskGone, RmBeforeDelete;
  }

  // ----- what holds of every run -----

  predicate Inv(s: State) {
    && (s.record ==> s.attached)
    && (!s.reported ==> s.record == s.lease == s.pin.Pinned?)
  }

  lemma NextKeepsInv(s: State, op: Op)
    requires Inv(s) && Enabled(s, op)
    ensures Inv(Next(s, op))
  {
    match op
    case CreateRuntime(c) =>
      CreateSummary(s, c);
      hide CreateEffect;
    case PostStop(p) =>
      StopSummary(s, false, p);
      hide StopEffect;
    case Rm(r) =>
      RmSummary(s, r);
      RmBeforeSummary(s, r);
      if !s.reported && !Reports(s, op) {
        QuietRm(s, r);
      }
      hide RmEffect, RmBeforeDelete, Reports;
  }

  /**
    In every run: a record exists only after an attach that succeeded, and as long as nothing has
    been reported the record, the lease and the pin exist together or not at all. So a lease without
    a record has always been reported.
   */
  lemma {:induction false} RecordsAreHonest(ops: seq<Op>)
    requires Legal(ops)
    ensures Inv(After(ops))
  {
    if ops != [] {
      RecordsAreHonest(ops[..|ops| - 1]);
      NextKeepsInv(After(ops[..|ops| - 1]), ops[|ops| - 1]);
      hide Next, Inv;
    }
  }

  /** A createRuntime that failed and was undone leaves nothing of its own behind. */
  lemma FailedCreateLeavesNothing(s: State, c: CreateCalls)
    requires !s.lease && !s.record && !s.pin.Pinned?
    requires !CreateEffect(s, c).ok && UndoSucceeds(c)
    ensures var e := CreateEffect(s, c).s; !e.lease && !e.record && !e.pin.Pinned?
  {
    var p := PinNetns(s, c.pin);
    var a := Attach(p.s, c.attach);
    var undone := if a.ok then Detach(a.s, c.detach).s else a.s;
    assert Unpin(undone, c.unpin).s.pin.NoPin?;
    assert Detach(a.s, c.detach).ok;
    hide PinNetns, Attach, Detach, Unpin;
  }

  /** A detach that failed keeps the pin and the record, so the next rm can run it again. */
  lemma FailedDetachKeepsBoth(s: State, c: StopCalls)
    requires c.state && !Detach(s, c.detach).ok
    ensures var e := StopEffect(s, true, c); !e.ok && e.s.pin == s.pin && e.s.record == s.record
  {
  }

  // ----- rm and the record -----

  /** The container goes while network.json is still there. */
  predicate DeletesUnderRecord(s: State, c: RmCalls) {
    s.container && !RmEffect(s, c).s.container && RmBeforeDelete(s, c).s.record
  }

  /**
    rm without --force deletes a container only once its record is gone, except when the log
    directory could not be locked: then no detach is tried at all.
   */
  lemma RmDeletesUnderRecordIff(s: State, c: RmCalls)
    requires Enabled(s, Rm(c)) && !c.force
    ensures DeletesUnderRecord(s, c) <==>
            c.lock.LockFails? && !c.running && c.delete &&
            s.record && !(c.ranPostStop && c.postStop.state && c.postStop.remove)
  {
    RmSummary(s, c);
    RmBeforeSummary(s, c);
    hide RmEffect, RmBeforeDelete;
  }

  /** An undisturbed postStop or detach. */
  const CLEAN := StopCalls(true, DetachCalls(true, true, DelOk), UnpinCalls(true, true), true)

  /** An undisturbed createRuntime. */
  const ATTACH := CreateRuntime(CreateCalls(
    true, PinCalls(UnpinCalls(true, true), true, true, true), AttachCalls(true, true, Added, DelOk), true,
    DetachCalls(true, true, DelOk), UnpinCalls(true, true)))

  /** An rm that cannot lock the log directory, of an instance whose postStop never ran. */
  const BLIND_RM := Rm(RmCalls(
    false, LockFails, false, false, CLEAN, true, true, true, CLEAN, true, UnpinCalls(true, true), true))

  /** The failing case, in a run: attach, lose the runtime, rm with the lock refused. */
  lemma LockFailureLosesLease()
    ensures Legal([ATTACH, BLIND_RM])
    ensures var s := After([ATTACH, BLIND_RM]); !s.container && s.record && s.lease && !s.forced
  {
    var one, ops := [ATTACH], [ATTACH, BLIND_RM];
    assert ops[..1] == one && one[..0] == [];
    assert After([]) == CREATED && Legal([]);
    assert Legal(one);
    var s1 := After(one);
    assert s1 == State(true, Pinned, true, true, true, false, false);
  }

  /** No rm is forced and every lock is taken. */
  ghost predicate Careful(ops: seq<Op>) {
    forall op | op in ops && op.Rm? :: !op.r.force && !op.r.lock.LockFails?
  }

  /** In every careful run, a deleted container has no record left, and a lease it kept was reported. */
  lemma {:induction false} CarefulRmKeepsRecords(ops: seq<Op>)
    requires Legal(ops) && Careful(ops)
    ensures var s := After(ops); !s.container ==> !s.record && (s.lease ==> s.reported)
  {
    RecordsAreHonest(ops);
    if ops != [] {
      var before, op := ops[..|ops| - 1], ops[|ops| - 1];
      var s := After(before);
      assert op in ops;
      match op
      case CreateRuntime(c) => CreateSummary(s, c);
      case PostStop(p) => StopSummary(s, false, p);
      case Rm(r) =>
        RmSummary(s, r);
        RmDeletesUnderRecordIff(s, r);
      hide CreateEffect, StopEffect, RmEffect, RmBeforeDelete, Reports;
    }
  }

  // ----- the ID an attachment is kept under -----

  /** A containerd identifier: begins and ends with no dash and holds no two in a row. */
  predicate IsIdentifier(s: string) {
    && |s| > 0 && s[0] != '-' && s[|s| - 1] != '-'
    && forall i | 0 <= i < |s| - 1 :: !(s[i] == '-' && s[i + 1] == '-')
  }

  function CniId(namespace: string, id: string): string { namespace + "--" + id }

  /** No two containers share an attachment ID. */
  lemma CniIdIsUnique(n1: string, i1: string, n2: string, i2: string)
    requires IsIdentifier(n1) && IsIdentifier(i1) && IsIdentifier(n2) && IsIdentifier(i2)
    ensures CniId(n1, i1) == CniId(n2, i2) ==> n1 == n2 && i1 == i2
  {
    if |n1| < |n2| {
      ShorterDiffers(n1, i1, n2, i2);
    } else if |n2| < |n1| {
      ShorterDiffers(n2, i2, n1, i1);
    } else {
      assert n1 == CniId(n1, i1)[..|n1|] && i1 == CniId(n1, i1)[|n1| + 2..];
      assert n2 == CniId(n2, i2)[..|n2|] && i2 == CniId(n2, i2)[|n2| + 2..];
    }
  }

  lemma ShorterDiffers(n1: string, i1: string, n2: string, i2: string)
    requires IsIdentifier(n2) && |n1| < |n2|
    ensures CniId(n1, i1) != CniId(n2, i2)
  {
    var c1, c2, k := CniId(n1, i1), CniId(n2, i2), |n1|;
    assert c1[k] == '-' && c1[k + 1] == '-' && c2[k] == n2[k];
    if k + 1 < |n2| {
      assert c2[k + 1] == n2[k + 1];
    }
  }
}
