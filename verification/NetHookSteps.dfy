/**
  The hook and `hull rm` as the source runs them: one call after another on the instance's files. Each
  operation keeps the record honest, whatever of its calls fail.
 */
module NetHookSteps {
  import opened NetHook

  class Instance {
    var s: State

    /** A record follows a successful attach, and an unreported lease has its record and pin. */
    ghost predicate Valid()
      reads this
    {
      Inv(s)
    }

    constructor ()
      ensures s == CREATED && Valid()
    {
      s := CREATED;
    }

    /** createRuntime: attached, recorded and pinned, or, when its undo works, as if it had not run. */
    method CreateRuntime(c: CreateCalls) returns (ok: bool)
      requires Valid() && s.container
      modifies this
      ensures Valid() && s == Next(old(s), Op.CreateRuntime(c))
      ensures ok ==> s.record && s.lease && s.pin.Pinned?
      ensures !ok ==> s.reported && s.record == old(s.record)
      ensures !ok && UndoSucceeds(c) && !old(s.lease) && !old(s.record) && !old(s.pin.Pinned?) ==>
                !s.lease && !s.record && !s.pin.Pinned?
    {
      NextKeepsInv(s, Op.CreateRuntime(c));
      CreateSummary(s, c);
      if !CreateEffect(s, c).ok && UndoSucceeds(c) && !s.lease && !s.record && !s.pin.Pinned? {
        FailedCreateLeavesNothing(s, c);
      }
      ok := RunCreate(c);
      s := s.(reported := s.reported || !ok);
    }

    /** postStop: nothing is left of the attachment, or a failure is reported; the record goes if it can. */
    method PostStop(c: StopCalls) returns (ok: bool)
      requires Valid() && s.container
      modifies this
      ensures Valid() && s == Next(old(s), Op.PostStop(c))
      ensures ok ==> !s.lease && !s.record && s.pin.NoPin?
      ensures !ok ==> s.reported
      ensures s.record <==> old(s.record) && !(c.state && c.remove)
    {
      NextKeepsInv(s, Op.PostStop(c));
      StopSummary(s, false, c);
      ok := RunStop(false, c);
      s := s.(reported := s.reported || !ok);
    }

    /**
      rm: without --force the container is deleted under its record exactly when the log directory could not
      be locked and nothing else had removed the record; under the lock, never.
     */
    method Remove(c: RmCalls) returns (ok: bool, ghost underRecord: bool)
      requires Valid() && Enabled(s, Rm(c))
      modifies this
      ensures Valid() && s == Next(old(s), Rm(c))
      ensures underRecord <==> DeletesUnderRecord(old(s), c)
      ensures !c.force && c.lock.Locked? ==> !underRecord
      ensures !c.force ==>
                (underRecord <==>
                 c.lock.LockFails? && !c.running && c.delete &&
                 old(s.record) && !(c.ranPostStop && c.postStop.state && c.postStop.remove))
      ensures ok && c.lock.Locked? ==> !s.container && !s.record && s.pin.NoPin?
      ensures !ok ==> s.reported
    {
      NextKeepsInv(s, Rm(c));
      RmSummary(s, c);
      if !c.force {
        RmDeletesUnderRecordIff(s, c);
      }
      var reports: bool;
      ok, reports, underRecord := RunRemove(c);
      s := s.(reported := s.reported || reports);
      hide RmEffect, RmBeforeDelete, TaskGone, StopEffect, Inv;
    }

    // ----- the calls, one after another -----

    method Unpin(c: UnpinCalls) returns (ok: bool)
      modifies this
      ensures Outcome(s, ok) == NetHook.Unpin(old(s), c)
    {
      if s.pin.Pinned? {
        if !c.unmount {
          return false;
        }
        s := s.(pin := PlainFile);
      }
      if s.pin.PlainFile? {
        if !c.remove {
          return false;
        }
        s := s.(pin := NoPin);
      }
      return true;
    }

    method Pin(c: PinCalls) returns (ok: bool)
      modifies this
      ensures Outcome(s, ok) == PinNetns(old(s), c)
    {
      ok := Unpin(c.stale);
      if !ok || !c.create {
        return false;
      }
      s := s.(pin := PlainFile);
      if !c.mount {
        if c.remove {
          s := s.(pin := NoPin);
        }
        return false;
      }
      s := s.(pin := Pinned);
      return true;
    }

    /** Attach, with the undo its deferred function runs on an error. */
    method AttachNetwork(c: AttachCalls) returns (ok: bool)
      modifies this
      ensures Outcome(s, ok) == Attach(old(s), c)
    {
      if !c.lock || !c.conf {
        return false;
      }
      if !c.add.AddFails? || c.add.leaves {
        s := s.(lease := true);
      }
      if c.add.Added? {
        s := s.(attached := true);
        return true;
      }
      s := RunDel(s, c.undo).s;
      return false;
    }

    method RunCreate(c: CreateCalls) returns (ok: bool)
      modifies this
      ensures Outcome(s, ok) == CreateEffect(old(s), c)
    {
      if !c.state {
        return false;
      }
      ok := Pin(c.pin);
      if !ok {
        return false;
      }
      ok := AttachNetwork(c.attach);
      if ok {
        if c.write {
          s := s.(record := true);
          return true;
        }
        s := Detach(s, c.detach).s;
      }
      var unpinned := Unpin(c.unpin);
      return false;
    }

    /** postStop and detach, which differ only in what a failed detach keeps. */
    method RunStop(isDetach: bool, c: StopCalls) returns (ok: bool)
      modifies this
      ensures Outcome(s, ok) == StopEffect(old(s), isDetach, c)
      ensures isDetach && c.state && !Detach(old(s), c.detach).ok ==>
                !ok && s.pin == old(s.pin) && s.record == old(s.record)
    {
      if !c.state {
        return false;
      }
      var d := Detach(s, c.detach);
      s, ok := d.s, d.ok;
      if !ok && isDetach {
        return false;
      }
      var unpinned := Unpin(c.unpin);
      ok := ok && unpinned;
      if s.record {
        if c.remove {
          s := s.(record := false);
        } else {
          ok := false;
        }
      }
    }

    /** rm up to the deletion: the leftover detach is run only when the log directory is locked. */
    method RunBeforeDelete(c: RmCalls) returns (ok: bool, warned: bool)
      modifies this
      ensures Outcome(s, ok) == RmBeforeDelete(old(s), c) && (ok ==> (warned <==> Warns(old(s), c)))
    {
      hide StopEffect, Detach, NetHook.Unpin;
      warned := false;
      if c.running && !c.force {
        return false, false;
      }
      if c.ranPostStop {
        var stopped := RunStop(false, c.postStop);
        warned := !stopped;
      }
      if c.lock.Locked? {
        var gone := c.stat;
        if c.stat && s.record {
          gone := c.spec && c.exec;
          if gone {
            gone := RunStop(true, c.detach);
          }
        }
        if !gone {
          if !c.force {
            return false, false;
          }
          warned := true;
        }
      }
      return true, warned;
    }

    /** removeInstance. */
    method RunRemove(c: RmCalls) returns (ok: bool, reports: bool, ghost underRecord: bool)
      modifies this
      ensures Outcome(s, ok) == RmEffect(old(s), c) && reports == Reports(old(s), Rm(c))
      ensures old(s.container) ==> (underRecord <==> DeletesUnderRecord(old(s), c))
    {
      RmBeforeSummary(s, c);
      hide RmBeforeDelete, Warns, NetHook.Unpin;
      ok, reports := RunBeforeDelete(c);
      if !ok || !c.delete {
        return false, true, false;
      }
      underRecord := s.record;
      s := s.(container := false, forced := s.forced || c.force);
      if c.lock.LockFails? {
        return false, true, underRecord;
      }
      if c.lock.Locked? {
        ok := Unpin(c.netDir);
        if !ok || !c.removeAll {
          return false, true, underRecord;
        }
        s := s.(record := false, pin := NoPin);
      }
      return true, reports, underRecord;
    }
  }
}
