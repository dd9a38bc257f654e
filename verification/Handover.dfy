/** The export handover: guest work moves from a stopped VM to a committed pending Work Set, with
    a recovery record in between (internal/cli approval_control.go, dev_recovery.go, pending.go). */
module Handover {
  import opened Faults
  import OrphanCleanup

  /** What happens to one operation. A container operation may also take effect and still report
      an error; a write of metadata that reports an error has had no effect. */
  datatype Fate = Succeeds | FailsEarly | FailsLate | Dies

  type Fates = seq<Fate>

  ghost predicate Undisturbed(fates: Fates) {
    forall k :: 0 <= k < |fates| ==> fates[k] == Succeeds
  }

  function Now(fates: Fates): (fate: Fate)
    ensures Undisturbed(fates) ==> fate == Succeeds
  {
    if fates == [] then Succeeds else fates[0]
  }

  function Later(fates: Fates): (rest: Fates)
    ensures Undisturbed(fates) ==> Undisturbed(rest)
  {
    if fates == [] then [] else fates[1..]
  }

  datatype Vm = Running | Stopped | Gone

  /** Only a directory with its change file counts as a pending Work Set. */
  datatype Pending = Absent | Partial | Committed(work: string)

  /** The recovery record; a frozen one already carries the verified export. */
  datatype Record = Record(frozen: bool)

  /** The state of the process that owns the VM: a supervisor session, or a retry that adopted it. */
  datatype Phase = Active | Exporting | Broken | Recovery | Exported | Adopted

  datatype ExportEnd = Captured | RecoveryRequired | PlainError | Interrupted

  datatype Command = Export(fates: Fates) | Retry(fates: Fates) | Cleanup(fates: Fates) | Shutdown(fates: Fates) | Crash

  class Guest {
    const work: string      // what the guest has changed
    const changed: bool     // it has changed something
    const dev: bool         // runtime mode: dev (true) or secure
    const project: string
    const vmId: string

    var vm: Vm
    var record: Option<Record>
    var pending: Pending
    var process: Option<Phase>
    var guard: bool         // the owning process holds the VM guard
    var paused: bool        // the owning process believes it has paused the VM
    var boundary: bool      // the owning process has a dev network boundary that is still open

    ghost var secured: bool   // an export has stopped the VM, or ended over a stopped one
    ghost var exposed: bool   // the VM was restarted or discarded although nothing else held the work
    ghost var taken: seq<Command>   // the commands performed so far

    /** A session of a supervisor, running or paused. */
    constructor (work: string, changed: bool, dev: bool, paused: bool, project: string, vmId: string)
      requires project != "" && vmId != ""
      ensures Valid() && process == Some(Active) && vm == (if paused then Stopped else Running) && record.None? && pending == Absent
      ensures !secured && !exposed && guard && this.paused == paused && boundary == dev
      ensures this.work == work && this.changed == changed && this.dev == dev
    {
      this.work, this.changed, this.dev, this.project, this.vmId := work, changed, dev, project, vmId;
      vm, this.paused, boundary := if paused then Stopped else Running, paused, dev;
      record, pending, process, guard := None, Absent, Some(Active), true;
      secured, exposed, taken := false, false, [];
    }

    predicate Owned()
      reads this
    {
      pending == Committed(work)
    }

    /** The work is in a committed pending Work Set, in a stopped VM, or in a VM that a retry
        under a recovery record has started again. */
    predicate Preserved()
      reads this
    {
      Owned() || vm == Stopped || (vm == Running && record.Some?)
    }

    ghost predicate Valid()
      reads this
    {
      && project != "" && vmId != ""
      && (process.None? ==> !guard)
      && (process == Some(Active) ==> !secured && !Sealed())
      && (process.Some? && !guard ==> secured)
      && (process.Some? && process.value in {Broken, Recovery} && vm == Stopped ==> secured)
      && (record.Some? && vm == Stopped ==> secured)
      && (process.Some? && Sealed() ==> paused || vm == Gone)
      && (changed && secured && !exposed ==> Preserved())
    }

    /** The boundary of a dev session has been closed. Its egress cannot be cut any more, so every
        further export is refused before it comes to the VM. */
    predicate Sealed()
      reads this`boundary
    {
      dev && !boundary
    }

    /** An earlier export of this supervisor stopped the VM and left neither a record nor a
        pending Work Set. Another export would start the VM again with nothing to protect it. */
    predicate Stranded()
      reads this
    {
      process.Some? && process.value in {Broken, Recovery} && vm == Stopped && record.None? && !Owned() && !Sealed()
    }

    /** The strict reading of preservation: a committed pending Work Set or a stopped VM. */
    ghost predicate Kept()
      reads this
    {
      changed && secured ==> Owned() || vm == Stopped
    }

    /** Starting the VM does not take anything away from where it is kept. */
    ghost predicate MayStart()
      reads this
    {
      changed && secured && vm == Stopped ==> Owned()
    }

    /** No procedure is under way. */
    predicate AtRest()
      reads this
    {
      process.None? || process.value in {Active, Broken, Recovery, Exported}
    }

    /** The command would start a stopped VM although the work is not committed: a further export
        of a supervisor whose last one failed, unless its boundary is closed, or a retry under a
        record that carries no export. */
    predicate Restarts(command: Command)
      reads this
    {
      match command
      case Export(_) => process.Some? && process.value in {Broken, Recovery} && vm == Stopped && !Owned() && !Sealed()
      case Retry(_) => process.None? && record.Some? && !record.value.frozen && !pending.Committed? && vm == Stopped
      case _ => false
    }

    /** The command would remove a VM that alone holds the work: the end of a supervisor whose last
        export failed without retaining the VM for recovery. */
    predicate Discards(command: Command)
      reads this
    {
      command.Shutdown? && process == Some(Broken) && vm != Gone && !Owned()
    }

    /** The command can take the work out of a stopped VM although it is not committed. */
    predicate Risks(command: Command)
      reads this
    {
      Restarts(command) || (Discards(command) && vm == Stopped)
    }

    // ----- Single operations -----

    method Die()
      modifies this
      ensures process.None? && !guard
      ensures vm == old(vm) && record == old(record) && pending == old(pending) && secured == old(secured) && exposed == old(exposed)
    {
      process, guard := None, false;
    }

    /** An operation that changes nothing modelled here, but can fail or be interrupted. */
    method Check(fates: Fates) returns (ok: bool, rest: Fates)
      modifies this`process, this`guard
      ensures rest == Later(fates) && (ok <==> Now(fates) == Succeeds)
      ensures if Now(fates) == Dies then process.None? && !guard else process == old(process) && guard == old(guard)
    {
      rest := Later(fates);
      ok := Now(fates) == Succeeds;
      if Now(fates) == Dies {
        process, guard := None, false;
      }
    }

    /** A container operation; a late failure has taken effect. */
    method Drive(next: Vm, fates: Fates) returns (ok: bool, rest: Fates)
      modifies this`vm, this`process, this`guard
      ensures rest == Later(fates) && (ok <==> Now(fates) == Succeeds)
      ensures vm == if Now(fates) in {Succeeds, FailsLate} then next else old(vm)
      ensures if Now(fates) == Dies then process.None? && !guard else process == old(process) && guard == old(guard)
    {
      ok, rest := Check(fates);
      if Now(fates) in {Succeeds, FailsLate} {
        vm := next;
      }
    }

    method StopVm(fates: Fates) returns (ok: bool, rest: Fates)
      requires Valid() && process.Some? && process.value != Active && vm == Running
      modifies this`vm, this`process, this`guard, this`secured
      ensures Valid() && (old(secured) ==> secured) && rest == Later(fates) && (ok <==> Now(fates) == Succeeds)
      ensures vm == old(vm) || vm == Stopped
      ensures secured == (old(secured) || vm == Stopped)
      ensures ok ==> vm == Stopped && secured
      ensures Now(fates) == FailsEarly ==> vm == old(vm) && process == old(process)
      ensures process.None? || (process == old(process) && guard == old(guard))
      ensures ok ==> process.Some?
    {
      ok, rest := Drive(Stopped, fates);
      secured := secured || vm == Stopped;
    }

    method StartVm(fates: Fates) returns (ok: bool, rest: Fates)
      requires Valid() && process.Some? && process.value != Active && vm == Stopped
      requires secured && record.None? && !Owned() ==> exposed
      modifies this`vm, this`process, this`guard
      ensures Valid() && rest == Later(fates) && (ok <==> Now(fates) == Succeeds)
      ensures vm == Stopped || vm == Running
      ensures ok ==> vm == Running && process == old(process) && guard == old(guard)
      ensures process.None? || (process == old(process) && guard == old(guard))
    {
      ok, rest := Drive(Running, fates);
    }

    /** Remove the container; it must be stopped, and the outcome must already be owned. */
    method RemoveVm(fates: Fates) returns (ok: bool, rest: Fates)
      requires Valid() && vm == Stopped && (changed ==> Owned())
      modifies this`vm, this`process, this`guard
      ensures Valid() && (ok ==> vm == Gone) && (vm == Gone || vm == old(vm))
      ensures process.None? || (process == old(process) && guard == old(guard))
      ensures ok ==> process == old(process)
      ensures Undisturbed(fates) ==> ok && Undisturbed(rest)
    {
      ok, rest := Drive(Gone, fates);
    }

    /** A second record is never written over the first. */
    method SaveRecord(frozen: bool, fates: Fates) returns (ok: bool, rest: Fates)
      requires Valid() && (vm == Stopped ==> secured)
      modifies this`record, this`process, this`guard
      ensures Valid() && (if ok then old(record).None? && record == Some(Record(frozen)) else record == old(record))
      ensures process.None? || (process == old(process) && guard == old(guard))
      ensures old(record).None? ==> (ok <==> Now(fates) == Succeeds) && rest == Later(fates)
      ensures old(record).Some? || Now(fates) != Dies ==> process == old(process) && guard == old(guard)
      ensures Undisturbed(fates) ==> process == old(process) && Undisturbed(rest)
    {
      if record.Some? {
        return false, fates;
      }
      ok, rest := Check(fates);
      if ok {
        record := Some(Record(frozen));
      }
    }

    method RemoveRecord(fates: Fates) returns (ok: bool, rest: Fates)
      requires Valid() && vm == Gone
      modifies this`record, this`process, this`guard
      ensures Valid() && (if ok then record.None? else record == old(record))
      ensures process.None? || (process == old(process) && guard == old(guard))
      ensures ok ==> process == old(process)
      ensures Undisturbed(fates) ==> ok && Undisturbed(rest)
    {
      ok, rest := Check(fates);
      if ok {
        record := None;
      }
    }

    // ----- Committing the pending Work Set -----

    /** A directory without its change file is left over from an interrupted attempt. */
    method ResetStale(fates: Fates) returns (ok: bool, rest: Fates)
      requires Valid()
      modifies this`pending, this`process, this`guard
      ensures Valid() && (old(pending).Committed? ==> pending == old(pending)) && (pending.Committed? ==> pending == old(pending))
      ensures ok ==> pending == (if old(pending) == Partial then Absent else old(pending)) && process == old(process) && guard == old(guard)
      ensures if old(pending) == Partial then rest == Later(fates) && (ok <==> Now(fates) == Succeeds) else ok && rest == fates
      ensures process.None? || (process == old(process) && guard == old(guard))
      ensures Undisturbed(fates) ==> ok && Undisturbed(rest)
    {
      ok, rest := true, fates;
      if pending == Partial {
        ok, rest := Check(rest);
        if ok {
          pending := Absent;
        }
      }
    }

    /** Make the directory, copy, and commit with the metadata transaction. An existing pending
        Work Set is never touched. */
    method PersistPending(fates: Fates) returns (ok: bool, rest: Fates)
      requires Valid()
      modifies this`pending, this`process, this`guard
      ensures Valid() && (old(pending).Committed? ==> !ok && pending == old(pending))
      ensures ok ==> Owned() && process == old(process) && guard == old(guard)
      ensures !ok && !old(pending).Committed? ==> !pending.Committed?
      ensures old(pending) == Absent ==>
        && (Now(fates) != Succeeds ==> !ok && pending == Absent && rest == Later(fates) && (Now(fates) != Dies ==> process == old(process)))
        && (Now(fates) == Succeeds && Now(Later(fates)) in {FailsEarly, FailsLate} && Now(Later(Later(fates))) == Succeeds && old(process).Some? ==>
          !ok && pending == Absent)
        && (Now(fates) == Succeeds && Now(Later(fates)) == Dies ==> pending == Partial)
      ensures process.None? || (process == old(process) && guard == old(guard))
      ensures Undisturbed(fates) ==> Undisturbed(rest) && (ok <==> !old(pending).Committed?)
    {
      ok, rest := ResetStale(fates);
      if !ok || pending.Committed? {
        ok := false;
        return;
      }
      ok, rest := CreateAndCommit(rest);
    }

    /** Make the new directory, which is only partial until its change file is there. */
    method CreateAndCommit(fates: Fates) returns (ok: bool, rest: Fates)
      requires Valid() && pending == Absent
      modifies this`pending, this`process, this`guard
      ensures Valid() && (if ok then Owned() && process == old(process) && guard == old(guard) else !pending.Committed?)
      ensures Now(fates) != Succeeds ==> !ok && pending == Absent && rest == Later(fates) && (Now(fates) != Dies ==> process == old(process))
      ensures Now(fates) == Succeeds && Now(Later(fates)) in {FailsEarly, FailsLate} && Now(Later(Later(fates))) == Succeeds && old(process).Some? ==>
        !ok && pending == Absent
      ensures Now(fates) == Succeeds && Now(Later(fates)) == Dies ==> pending == Partial
      ensures process.None? || (process == old(process) && guard == old(guard))
      ensures Undisturbed(fates) ==> ok && Undisturbed(rest)
    {
      ok, rest := Check(fates);
      if ok {
        pending := Partial;
        ok, rest := CopyAndCommit(rest);
      }
    }

    /** Fill the new directory and write its change file, or remove the directory again. */
    method CopyAndCommit(fates: Fates) returns (ok: bool, rest: Fates)
      requires Valid() && pending == Partial
      modifies this`pending, this`process, this`guard
      ensures Valid() && (if ok then Owned() && process == old(process) && guard == old(guard) else !pending.Committed?)
      ensures ok <==> Now(fates) == Succeeds
      ensures Now(fates) in {FailsEarly, FailsLate} && Now(Later(fates)) == Succeeds && old(process).Some? ==> pending == Absent
      ensures Now(fates) == Dies ==> pending == Partial
      ensures process.None? || (process == old(process) && guard == old(guard))
      ensures Undisturbed(fates) ==> ok && Undisturbed(rest)
    {
      ok, rest := Check(fates);
      if ok {
        pending := Committed(work);
      } else if process.Some? {
        var cleaned;
        cleaned, rest := Check(rest);
        if cleaned {
          pending := Absent;
        }
      }
    }

    // ----- Stopping and exporting -----

    /** The schedule that interrupts an export just after it has started a stopped VM. */
    function CrashOnceStarted(): Fates {
      if dev then [Succeeds, Succeeds, Succeeds, Succeeds, Dies] else [Succeeds, Succeeds, Dies]
    }

    /** The schedule under which an export of a running VM is refused and the VM kept. */
    function RefusedOnce(): Fates {
      if dev then [Succeeds, Succeeds, Succeeds, FailsEarly] else [Succeeds, FailsEarly]
    }

    /** The schedule under which a stopped VM is started again to be exported, and then neither
        frozen nor, at first, stopped. */
    function HardToStop(): Fates {
      (if dev then [Succeeds, Succeeds] else []) + [Succeeds, Succeeds, Succeeds, FailsEarly, FailsEarly]
    }

    /** The schedule under which a running VM is frozen and stopped, but not captured. */
    function NotCaptured(): Fates {
      if dev then [Succeeds, Succeeds, Succeeds, Succeeds, Succeeds, FailsEarly] else [Succeeds, Succeeds, Succeeds, FailsEarly]
    }

    method StopAndExport(fates: Fates) returns (end: ExportEnd, rest: Fates)
      requires Valid() && process.Some? && process.value != Active
      requires vm == Stopped && secured && record.None? && !Owned() && !Sealed() ==> exposed
      modifies this`vm, this`process, this`guard, this`secured, this`paused, this`boundary
      ensures Valid() && (old(secured) ==> secured)
      ensures end == Interrupted <==> process.None?
      ensures end != Interrupted ==> process == old(process) && guard == old(guard)
      ensures end == Captured ==> vm == Stopped && secured
      ensures end in {Captured, RecoveryRequired} ==> paused
      ensures vm == Gone <==> old(vm) == Gone
      ensures Undisturbed(fates) ==> Undisturbed(rest) && (old(vm != Gone && !Sealed()) ==> end == Captured)
      ensures old(Kept() && (MayStart() || Sealed())) ==> Kept()
      ensures old(Sealed() && vm != Gone) ==> end == PlainError && rest == fates && vm == old(vm) && secured == old(secured) && Sealed()
      ensures old(vm == Stopped && !Sealed()) && fates == CrashOnceStarted() ==> end == Interrupted && vm == Running
      ensures old(vm == Running && !Sealed()) && fates == RefusedOnce() ==>
        end == RecoveryRequired && vm == Stopped && secured && rest == [] && !boundary
      ensures old(vm == Running && !Sealed()) && fates == NotCaptured() ==>
        end == RecoveryRequired && vm == Stopped && secured && rest == [] && boundary == old(boundary)
      ensures dev && old(vm == Running && !paused) && fates == [FailsEarly] ==>
        end == PlainError && vm == Stopped && secured && boundary == old(boundary)
      ensures old(vm == Stopped && !Sealed()) && fates == HardToStop() ==> end == RecoveryRequired && vm == Running && rest == []
    {
      var ok;
      rest := fates;
      if dev {
        ok, rest := CutEgress(rest);
        if !ok {
          end := if process.None? then Interrupted else PlainError;
          return;
        }
      }
      end, rest := ExportFrozen(rest);
    }

    /** Freeze the guest, and copy what it has changed out of the stopped VM. */
    method ExportFrozen(fates: Fates) returns (end: ExportEnd, rest: Fates)
      requires Valid() && process.Some? && process.value != Active
      requires vm == Stopped && secured && record.None? && !Owned() ==> exposed
      modifies this`vm, this`process, this`guard, this`secured, this`paused, this`boundary
      ensures Valid() && (old(secured) ==> secured) && end != PlainError
      ensures end == Interrupted <==> process.None?
      ensures end != Interrupted ==> process == old(process) && guard == old(guard) && paused
      ensures end == Captured ==> vm == Stopped && secured
      ensures vm == Gone <==> old(vm) == Gone
      ensures Undisturbed(fates) ==> Undisturbed(rest) && (old(vm) != Gone ==> end == Captured)
      ensures old(Kept() && MayStart()) ==> Kept()
      ensures old(vm) == Stopped && fates == [Succeeds, Succeeds, Dies] ==> end == Interrupted && vm == Running
      ensures old(vm) == Running && fates == [Succeeds, FailsEarly] ==>
        end == RecoveryRequired && vm == Stopped && secured && rest == [] && !boundary
      ensures old(vm) == Running && fates == [Succeeds, Succeeds, Succeeds, FailsEarly] ==>
        end == RecoveryRequired && vm == Stopped && secured && rest == [] && boundary == old(boundary)
      ensures old(vm) == Stopped && fates == [Succeeds, Succeeds, Succeeds, FailsEarly, FailsEarly] ==>
        end == RecoveryRequired && vm == Running && rest == []
    {
      end, rest := Freeze(fates);
      if end == Captured {
        var ok;
        ok, rest := Check(rest);
        if !ok {
          end := if process.None? then Interrupted else RecoveryRequired;
        }
      }
    }

    /** Before a dev session is exported its egress is cut, and that is written to the audit log.
        A closed boundary refuses at once. */
    method CutEgress(fates: Fates) returns (ok: bool, rest: Fates)
      requires Valid() && process.Some? && process.value != Active
      modifies this`vm, this`process, this`guard, this`secured, this`paused
      ensures Valid() && (old(secured) ==> secured) && (ok <==> boundary && Now(fates) == Now(Later(fates)) == Succeeds)
      ensures ok ==> vm == old(vm) && process == old(process) && guard == old(guard) && secured == old(secured) && rest == Later(Later(fates))
      ensures process.None? || (process == old(process) && guard == old(guard))
      ensures vm == old(vm) || (vm == Stopped && old(vm) == Running)
      ensures old(Kept()) ==> Kept()
      ensures !boundary && old(paused) ==> rest == fates && vm == old(vm) && process == old(process) && secured == old(secured)
      ensures Undisturbed(fates) ==> Undisturbed(rest)
      ensures boundary && old(vm == Running && !paused) && fates == [FailsEarly] ==> process.Some? && vm == Stopped && secured
    {
      ok, rest := boundary, fates;
      if ok {
        ok, rest := Check(rest);
      }
      if ok {
        ok, rest := Check(rest);
      } else {
        var end;
        end, rest := QuiesceFailed(rest);
      }
    }

    /** Egress could not be cut: the session is paused instead, and nothing is recorded. */
    method QuiesceFailed(fates: Fates) returns (end: ExportEnd, rest: Fates)
      requires Valid() && (process.Some? ==> process.value != Active)
      modifies this`vm, this`process, this`guard, this`secured, this`paused
      ensures Valid() && (old(secured) ==> secured) && end == (if process.None? then Interrupted else PlainError)
      ensures process.None? || (process == old(process) && guard == old(guard))
      ensures old(process).None? ==> process.None? && vm == old(vm)
      ensures vm == old(vm) || (vm == Stopped && old(vm) == Running)
      ensures old(Kept()) ==> Kept()
      ensures old(process.Some? && paused) ==> rest == fates && vm == old(vm) && process == old(process) && secured == old(secured)
      ensures Undisturbed(fates) ==> Undisturbed(rest)
      ensures old(process).Some? && Now(fates) == Succeeds ==> paused
      ensures fates == [] && old(process).Some? && old(vm) == Running && !old(paused) ==> vm == Stopped && process.Some? && secured
    {
      rest := fates;
      if process.Some? && !paused {
        var ok;
        ok, rest := Check(rest);
        if ok {
          paused := true;
          if vm == Running {
            ok, rest := StopVm(rest);
          }
        }
      }
      end := if process.None? then Interrupted else PlainError;
    }

    /** Revoke the session's capabilities; a stopped VM is started again to be exported. */
    method Revoke(fates: Fates) returns (ok: bool, rest: Fates)
      requires Valid() && process.Some? && process.value != Active
      requires vm == Stopped && secured && record.None? && !Owned() ==> exposed
      modifies this`vm, this`process, this`guard
      ensures Valid() && (vm == Gone <==> old(vm) == Gone)
      ensures process.None? || (process == old(process) && guard == old(guard))
      ensures ok ==> vm == Running && process.Some?
      ensures Undisturbed(fates) ==> Undisturbed(rest) && (ok <==> old(vm) != Gone) && process.Some?
      ensures old(Kept() && MayStart()) ==> Kept()
      ensures old(vm) == Stopped && fates == [Succeeds, Succeeds, Dies] ==> !ok && process.None? && vm == Running
      ensures old(vm) == Running && Now(fates) == Succeeds ==> ok && process.Some? && rest == Later(fates)
      ensures old(vm) == Stopped && Now(fates) == Now(Later(fates)) == Now(Later(Later(fates))) == Succeeds ==>
        ok && rest == Later(Later(Later(fates)))
    {
      ok, rest := Check(fates);
      if ok && vm == Stopped {
        ok, rest := StartVm(rest);
        if ok {
          ok, rest := Check(rest);
        }
      } else if vm == Gone {
        ok := false;
      }
    }

    /** From revoked capabilities to a frozen, stopped VM. Every failure stops the VM and keeps it. */
    method Freeze(fates: Fates) returns (end: ExportEnd, rest: Fates)
      requires Valid() && process.Some? && process.value != Active
      requires vm == Stopped && secured && record.None? && !Owned() ==> exposed
      modifies this`vm, this`process, this`guard, this`secured, this`paused, this`boundary
      ensures Valid() && (old(secured) ==> secured) && end in {Captured, RecoveryRequired, Interrupted}
      ensures end == Interrupted <==> process.None?
      ensures end != Interrupted ==> process == old(process) && guard == old(guard)
      ensures end == Captured ==> vm == Stopped && secured && boundary == old(boundary)
      ensures end != Interrupted ==> paused
      ensures vm == Gone <==> old(vm) == Gone
      ensures Undisturbed(fates) ==> Undisturbed(rest) && (old(vm) != Gone ==> end == Captured)
      ensures old(Kept() && MayStart()) ==> Kept()
      ensures old(vm) == Stopped && fates == [Succeeds, Succeeds, Dies] ==> end == Interrupted && vm == Running
      ensures old(vm) == Running && fates == [Succeeds, FailsEarly] ==>
        end == RecoveryRequired && vm == Stopped && secured && rest == [] && !boundary
      ensures old(vm) == Running && Now(fates) == Now(Later(fates)) == Now(Later(Later(fates))) == Succeeds ==>
        end == Captured && rest == Later(Later(Later(fates)))
      ensures old(vm) == Stopped && fates == [Succeeds, Succeeds, Succeeds, FailsEarly, FailsEarly] ==>
        end == RecoveryRequired && vm == Running && rest == []
    {
      var ok;
      ok, rest := Revoke(fates);
      if ok {
        ok, rest := StopFrozen(rest);
      }
      if ok {
        end := Captured;
      } else {
        end, rest := Retain(rest);
      }
    }

    /** Check the guest, freeze its workspace and stop it. */
    method StopFrozen(fates: Fates) returns (ok: bool, rest: Fates)
      requires Valid() && process.Some? && process.value != Active && vm == Running
      modifies this`vm, this`process, this`guard, this`secured, this`paused
      ensures Valid() && (old(secured) ==> secured) && (vm == Running || vm == Stopped)
      ensures process.None? || (process == old(process) && guard == old(guard))
      ensures ok ==> vm == Stopped && secured && process.Some? && paused
      ensures secured == (old(secured) || vm == Stopped)
      ensures Undisturbed(fates) ==> ok && Undisturbed(rest)
      ensures Now(fates) == FailsEarly ==> !ok && vm == Running && process == old(process) && rest == Later(fates)
      ensures Now(fates) == Now(Later(fates)) == Succeeds ==> ok && rest == Later(Later(fates))
    {
      ok, rest := Check(fates);
      if ok {
        ok, rest := StopVm(rest);
      }
      if ok {
        paused := true;
      }
    }

    /** Stop the VM, if it can be stopped, and keep it for explicit recovery. The boundary counts as
        closed from then on, whether or not closing it succeeds. */
    method Retain(fates: Fates) returns (end: ExportEnd, rest: Fates)
      requires Valid() && (process.Some? ==> process.value != Active)
      modifies this`vm, this`process, this`guard, this`secured, this`paused, this`boundary
      ensures Valid() && (old(secured) ==> secured) && end == (if process.None? then Interrupted else RecoveryRequired)
      ensures process.None? || (process == old(process) && guard == old(guard))
      ensures old(process).None? ==> process.None? && vm == old(vm)
      ensures vm == old(vm) || (vm == Stopped && old(vm) == Running)
      ensures old(Kept()) ==> Kept()
      ensures fates == [] && old(process).Some? && old(vm) == Running ==> process.Some? && vm == Stopped && secured && rest == []
      ensures fates == [FailsEarly] && old(process).Some? && old(vm) == Running ==> process.Some? && vm == Running && rest == []
      ensures Undisturbed(fates) ==> Undisturbed(rest)
      ensures paused && !boundary
      ensures old(vm) == Stopped ==> rest == fates && process == old(process)
    {
      rest := fates;
      if process.Some? && vm == Running {
        var ok;
        ok, rest := StopVm(rest);
      }
      paused, boundary := true, false;
      end := if process.None? then Interrupted else RecoveryRequired;
    }

    /** Stop a running VM, remove it and release what belonged to it. */
    method Destroy(fates: Fates) returns (ok: bool, rest: Fates)
      requires Valid() && process.Some? && process.value != Active && (changed ==> Owned())
      modifies this`vm, this`process, this`guard, this`secured, this`boundary
      ensures Valid() && (old(secured) ==> secured) && (ok ==> vm == Gone && process == old(process) && guard == old(guard))
      ensures process.None? || (process == old(process) && guard == old(guard))
      ensures vm == Running ==> old(vm) == Running
      ensures ok ==> !boundary
      ensures old(vm) == Gone ==> !boundary && (ok <==> Now(fates) == Succeeds)
      ensures Undisturbed(fates) ==> ok && Undisturbed(rest)
    {
      ok, rest := true, fates;
      if vm == Running {
        ok, rest := StopVm(rest);
      }
      if ok && vm != Gone {
        ok, rest := RemoveVm(rest);
      }
      if ok {
        boundary := false;
        ok, rest := Check(rest);
      }
    }

    // ----- The supervisor's export -----

    method SetPhase(phase: Phase)
      requires Valid() && process.Some? && phase != Active
      requires phase in {Broken, Recovery} && vm == Stopped ==> secured
      modifies this`process
      ensures Valid() && process == Some(phase)
    {
      process := Some(phase);
    }

    /** Hand the stopped VM over to the record: only then are the process's locks released and its
        boundary closed. */
    method Detach()
      requires Valid() && (vm == Stopped ==> secured && paused)
      modifies this`guard, this`boundary
      ensures Valid() && guard == (if vm == Stopped then false else old(guard)) && (boundary ==> old(boundary))
    {
      if vm == Stopped {
        guard, boundary := false, false;
      }
    }

    method Export(fates: Fates) returns (ok: bool, rest: Fates)
      requires Valid() && process.Some? && AtRest()
      modifies this
      ensures Valid() && AtRest() && (old(secured) ==> secured)
      ensures old(Kept() && !Restarts(Command.Export(fates))) ==> Kept()
      ensures exposed ==> old(exposed) || old(Stranded())
      ensures old(pending).Committed? ==> pending == old(pending)
      ensures ok && changed ==> Owned() && vm == Gone
      ensures ok ==> process == Some(Exported)
      ensures process == Some(Exported) ==> vm == Gone || old(process) == Some(Exported)
      ensures Undisturbed(fates) && old(record.None? && !pending.Committed? && vm != Gone && process.value != Exported && !Sealed()) ==>
        ok && record.None? && vm == Gone
      ensures old(Sealed() && vm != Gone && process.value != Exported) ==>
        !ok && process == Some(Broken) && vm == old(vm) && record == old(record) && pending == old(pending) && rest == fates
      ensures old(Restarts(Command.Export(fates))) && fates == CrashOnceStarted() ==>
        process.None? && vm == Running && record == old(record) && pending == old(pending)
      ensures old(process == Some(Active) && vm == Running && record.None?) && fates == RefusedOnce() ==>
        process == Some(Recovery) && vm == Stopped && secured && record == Some(Record(false)) && pending == old(pending) && !boundary
      ensures dev && old(process == Some(Active) && vm == Running && !paused && record.None?) && !old(pending).Committed? && fates == [FailsEarly] ==>
        Stranded() && secured
    {
      ok, rest := false, fates;
      if process == Some(Exported) {
        return;
      }
      exposed := exposed || Stranded();
      SetPhase(Exporting);
      var end;
      end, rest := StopAndExport(rest);
      secured := secured || (process.Some? && vm == Stopped);
      if end != Interrupted {
        ok, rest := Conclude(end, rest);
      }
    }

    /** What follows the stop and the capture, or their failure. */
    method Conclude(end: ExportEnd, fates: Fates) returns (ok: bool, rest: Fates)
      requires Valid() && process == Some(Exporting) && end != Interrupted
      requires (vm == Stopped ==> secured) && (end == Captured ==> vm == Stopped) && (end != PlainError ==> paused)
      modifies this`vm, this`record, this`pending, this`process, this`guard, this`secured, this`paused, this`boundary
      ensures Valid() && AtRest() && (old(secured) ==> secured)
      ensures old(Kept()) ==> Kept()
      ensures old(pending).Committed? ==> pending == old(pending)
      ensures ok && changed ==> Owned() && vm == Gone
      ensures (ok ==> process == Some(Exported)) && (process == Some(Exported) ==> vm == Gone)
      ensures Undisturbed(fates) && end == Captured && old(record.None? && !pending.Committed?) ==> ok && record.None? && vm == Gone
      ensures end == PlainError ==> !ok && process == Some(Broken) && vm == old(vm) && record == old(record) && pending == old(pending)
      ensures end == PlainError ==> boundary == old(boundary) && rest == fates
      ensures end == RecoveryRequired ==> vm == old(vm) && pending == old(pending) && (boundary ==> old(boundary))
      ensures end == RecoveryRequired && fates == [] && old(record).None? ==> process == Some(Recovery) && record == Some(Record(false))
    {
      ok, rest := false, fates;
      match end {
        case PlainError => SetPhase(Broken);
        case RecoveryRequired => rest := RecordAndDetach(rest);
        case Captured =>
          if changed {
            ok, rest := CommitCaptured(rest);
          } else {
            ok, rest := Destroy(rest);
            if process.Some? {
              SetPhase(if ok then Exported else Broken);
            }
          }
        case Interrupted =>
      }
    }

    /** The guest is kept under a record for an explicit retry. */
    method RecordAndDetach(fates: Fates) returns (rest: Fates)
      requires Valid() && process.Some? && paused && (vm == Stopped ==> secured)
      modifies this`record, this`process, this`guard, this`boundary
      ensures Valid() && (process.None? || process == Some(Recovery)) && (boundary ==> old(boundary)) && (old(record).Some? ==> record == old(record))
      ensures Now(fates) == Succeeds && old(record).None? ==>
        record == Some(Record(false)) && process == Some(Recovery) && (vm == Stopped ==> !guard)
      ensures Now(fates) in {FailsEarly, FailsLate} && old(record).None? ==> record.None? && process == Some(Recovery)
    {
      SetPhase(Recovery);
      var ok;
      ok, rest := SaveRecord(false, fates);
      if ok {
        Detach();
      }
    }

    /** Record the frozen export, commit the pending Work Set, and only then remove the VM. */
    method CommitCaptured(fates: Fates) returns (ok: bool, rest: Fates)
      requires Valid() && process.Some? && process.value != Active && vm == Stopped && changed && secured
      modifies this`vm, this`record, this`pending, this`process, this`guard, this`secured, this`paused, this`boundary
      ensures Valid() && (old(secured) ==> secured) && (old(pending).Committed? ==> pending == old(pending))
      ensures AtRest() && Kept()
      ensures ok ==> Owned() && vm == Gone && process == Some(Exported)
      ensures process == Some(Exported) ==> vm == Gone
      ensures old(record).None? && old(pending) == Absent && fates == [FailsEarly, FailsEarly] ==>
        process == Some(Recovery) && record == Some(Record(true)) && !guard && !boundary
      ensures Now(fates) == Succeeds && old(record).None? && vm != Gone ==> record == Some(Record(true))
      ensures Undisturbed(fates) && old(record.None? && !pending.Committed?) ==> ok && record.None?
    {
      var saved;
      saved, rest := SaveRecord(true, fates);
      if process.None? {
        return false, rest;
      }
      ok, rest := PersistPending(rest);
      if process.None? {
        return false, rest;
      }
      if !ok {
        rest := KeepCaptured(saved, rest);
        return;
      }
      ok, rest := Destroy(rest);
      if process.Some? {
        SetPhase(if ok then Exported else Broken);
      }
      if ok && saved {
        ok, rest := RemoveRecord(rest);
      }
    }

    /** The pending Work Set could not be committed: the VM is kept for recovery, and a record that
        was not saved is tried once more. */
    method KeepCaptured(saved: bool, fates: Fates) returns (rest: Fates)
      requires Valid() && process.Some? && process.value != Active && vm == Stopped && secured
      modifies this`vm, this`record, this`process, this`guard, this`secured, this`paused, this`boundary
      ensures Valid() && secured && vm == Stopped && !guard && !boundary
      ensures process.None? || process == Some(Recovery)
      ensures saved || old(record).Some? ==> record == old(record)
      ensures !saved && old(record).None? && Now(fates) == Succeeds ==> process == Some(Recovery) && record == Some(Record(true))
    {
      SetPhase(Recovery);
      var end;
      end, rest := Retain(fates);
      Detach();
      if !saved {
        var second;
        second, rest := SaveRecord(true, rest);
      }
    }

    // ----- The retry -----

    /** Take the stopped VM over from the record, with a boundary of its own. */
    method Adopt(fates: Fates) returns (ok: bool, rest: Fates)
      requires Valid() && process.None?
      modifies this`process, this`guard, this`paused, this`boundary
      ensures Valid()
      ensures ok ==> paused && !Sealed() && guard
      ensures if ok then vm == Stopped && process == Some(Adopted) else process.None?
      ensures |fates| >= 2 && fates[..2] == [Succeeds, Succeeds] && vm == Stopped ==> ok && rest == fates[2..]
      ensures Undisturbed(fates) ==> Undisturbed(rest) && (ok <==> vm == Stopped)
    {
      ok, rest := Check(fates);
      if ok && !guard && vm == Stopped {
        process, guard, paused, boundary := Some(Adopted), true, true, dev;
        ok, rest := Check(rest);
        process, guard := if ok then Some(Adopted) else None, ok;
      } else {
        ok := false;
      }
    }

    method Release()
      requires Valid()
      modifies this`process, this`guard
      ensures Valid() && process.None?
    {
      process, guard := None, false;
    }

    /** What an undisturbed retry needs. */
    predicate Retriable()
      reads this
    {
      && record.Some? && vm != Running
      && (pending.Committed? ==> Owned())
      && (vm == Gone && record.value.frozen ==> pending.Committed?)
    }

    /** The schedule that interrupts a retry just after it has started the VM. */
    function RetryCrashOnceStarted(): Fates {
      [Succeeds, Succeeds] + CrashOnceStarted()
    }

    /** A retry finishes the handover exactly when the VM is not running, the pending Work Set is
        absent or its own, and a frozen record without one still has its VM. A VM that an
        interrupted retry left running is never touched again. */
    method Retry(fates: Fates) returns (ok: bool, rest: Fates)
      requires Valid() && process.None?
      modifies this
      ensures Valid() && process.None? && exposed == old(exposed) && (old(secured) ==> secured)
      ensures old(Kept() && !Restarts(Command.Retry(fates))) ==> Kept()
      ensures old(Restarts(Command.Retry(fates))) && fates == RetryCrashOnceStarted() ==>
        vm == Running && record == old(record) && pending == old(pending)
      ensures old(Restarts(Command.Retry(fates))) && fates == [Succeeds, Succeeds] + HardToStop() ==> vm == Stopped && record == old(record)
      ensures old(pending).Committed? ==> pending == old(pending)
      ensures ok ==> record.None? && vm == Gone && (changed && old(vm) == Stopped ==> Owned())
      ensures Undisturbed(fates) ==> (ok <==> old(Retriable()))
      ensures old(vm) == Running ==> !ok && vm == Running && record == old(record) && pending == old(pending)
    {
      ok, rest := false, fates;
      if record.None? {
        return;
      }
      if record.value.frozen {
        ok, rest := PersistFrozen(rest);
      } else if pending.Committed? {
        if !Owned() {
          return;
        }
        ok, rest := Finish(rest);
      } else if vm == Gone {
        ok, rest := RemoveRecord(rest);
      } else {
        ok, rest := ExportAgain(rest);
      }
      Release();
    }

    /** The pending Work Set is committed: remove the retained VM and then the record. */
    method Finish(fates: Fates) returns (ok: bool, rest: Fates)
      requires Valid() && Owned() && record.Some?
      modifies this`vm, this`record, this`process, this`guard
      ensures Valid() && (ok ==> record.None? && vm == Gone)
      ensures Undisturbed(fates) ==> (ok <==> old(vm) != Running)
      ensures old(vm) == Running ==> vm == Running && record == old(record)
    {
      ok, rest := vm != Running, fates;
      if vm == Stopped {
        ok, rest := RemoveVm(rest);
      }
      if ok {
        ok, rest := RemoveRecord(rest);
      }
    }

    /** Stop-and-export once more, under the record. */
    method ExportAgain(fates: Fates) returns (ok: bool, rest: Fates)
      requires Valid() && process.None? && record.Some? && !pending.Committed? && vm != Gone
      modifies this`vm, this`record, this`pending, this`process, this`guard, this`secured, this`paused, this`boundary
      ensures Valid() && (ok ==> record.None? && vm == Gone && (changed ==> Owned()))
      ensures Undisturbed(fates) ==> (ok <==> old(vm) == Stopped)
      ensures old(secured) ==> secured
      ensures old(vm) == Stopped && fates == RetryCrashOnceStarted() ==> vm == Running && record == old(record) && pending == old(pending)
      ensures old(vm) == Stopped && fates == [Succeeds, Succeeds] + HardToStop() ==> vm == Stopped && record == old(record)
      ensures old(vm) == Running ==> secured == old(secured)
      ensures old(vm) == Running ==> !ok && vm == Running && record == old(record) && pending == old(pending)
    {
      var end;
      ok, rest := Adopt(fates);
      if !ok {
        return;
      }
      end, rest := StopAndExport(rest);
      if end != Captured {
        end, rest := Retain(rest);
        return false, rest;
      }
      if changed {
        ok, rest := PersistPending(rest);
        if !ok {
          end, rest := Retain(rest);
          return;
        }
      }
      ok, rest := Destroy(rest);
      if ok {
        ok, rest := RemoveRecord(rest);
      }
    }

    /** Commit the export the record carries, without starting the VM. */
    method PersistFrozen(fates: Fates) returns (ok: bool, rest: Fates)
      requires Valid() && process.None? && record.Some? && record.value.frozen
      modifies this`vm, this`record, this`pending, this`process, this`guard, this`secured, this`paused, this`boundary
      ensures Valid() && (old(pending).Committed? ==> pending == old(pending)) && (old(secured) ==> secured)
      ensures vm == Running ==> old(vm) == Running
      ensures old(Kept()) ==> Kept()
      ensures ok ==> record.None? && vm == Gone && Owned()
      ensures Undisturbed(fates) ==> (ok <==> old(Retriable()))
      ensures old(vm) == Running ==> !ok && vm == Running && record == old(record) && pending == old(pending)
    {
      ok, rest := false, fates;
      var committed := pending.Committed?;
      if committed {
        if !Owned() {
          return;
        }
        if vm == Gone {
          ok, rest := RemoveRecord(rest);
          return;
        }
      }
      if dev {
        ok, rest := Check(rest);
        if !ok {
          return;
        }
      }
      ok, rest := Adopt(rest);
      if ok && !committed {
        ok, rest := PersistPending(rest);
        if !ok {
          Detach();
        }
      }
      if ok {
        ok, rest := Destroy(rest);
        if vm == Gone && (ok || process.Some?) {
          var removed;
          removed, rest := RemoveRecord(rest);
          ok := ok && removed;
        }
      }
    }

    // ----- Orphan cleanup and whole runs -----

    function Report(): OrphanCleanup.Info
      reads this
    {
      OrphanCleanup.Info(
        OrphanCleanup.PREFIX + project + "-" + vmId, "sunaba-supervisor", project, vmId, if dev then "dev" else "secure",
        if vm == Running then OrphanCleanup.VmState.Running else OrphanCleanup.VmState.Stopped)
    }

    function RecordFile(): OrphanCleanup.RecoveryFile
      reads this
    {
      if record.None? then OrphanCleanup.RecoveryFile.Absent
      else OrphanCleanup.RecoveryFile.Record(project, vmId, Report().name, Report().mode)
    }

    /** What orphan cleanup, a process of its own, does to this VM. */
    method CleanUp(leased: bool, fates: Fates)
      requires Valid()
      modifies this`vm
      ensures Valid() && (old(Kept()) ==> Kept())
      ensures vm != old(vm) ==> old(vm) == Running && record.None? && !guard
      ensures old(vm == Running && record.None? && !guard) && leased ==>
        if Now(fates) in {FailsEarly, Dies} then vm == Running
        else if Now(fates) == Succeeds && Now(Later(fates)) in {Succeeds, FailsLate} then vm == Gone
        else vm == Stopped
    {
      if vm == Gone {
        return;
      }
      OrphanCleanup.RemovedOnlyIf(Report(), RecordFile(), guard, leased);
      if OrphanCleanup.Decide(Report(), RecordFile(), guard, leased) == OrphanCleanup.Remove {
        if Now(fates) in {Succeeds, FailsLate} {
          vm := Stopped;
        }
        if Now(fates) == Succeeds && Now(Later(fates)) in {Succeeds, FailsLate} {
          vm := Gone;
        }
      }
    }

    /** The end of a supervisor: it removes its VM, unless an export has finished or has retained
        the VM for recovery. */
    method ShutDown(fates: Fates)
      requires Valid() && process.Some? && AtRest()
      modifies this
      ensures Valid() && process.None? && record == old(record) && pending == old(pending) && (old(secured) ==> secured)
      ensures old(process.value) in {Recovery, Exported} ==> vm == old(vm) && secured == old(secured)
      ensures old(process.value) in {Active, Broken} && old(vm) == Running && Now(fates) == Succeeds && Now(Later(fates)) == FailsEarly ==>
        vm == Stopped
      ensures exposed ==> old(exposed || Discards(Command.Shutdown(fates)))
      ensures old(Kept()) && !old(Risks(Command.Shutdown(fates))) ==> Kept()
      ensures Undisturbed(fates) && old(process.value) in {Active, Broken} ==> vm == Gone
    {
      if process == Some(Active) || process == Some(Broken) {
        exposed := exposed || Discards(Command.Shutdown(fates));
        var ok, rest := true, fates;
        if vm == Running {
          ok, rest := Drive(Stopped, rest);
        }
        if ok && vm != Gone {
          ok, rest := Drive(Gone, rest);
        }
        secured := secured || vm == Stopped;
      }
      Die();
    }

    /** What a command is there for: what it has done when nothing went wrong, and what it leaves
        alone. */
    twostate predicate Took(command: Command)
      reads this
    {
      match command
      case Export(fates) =>
        Undisturbed(fates) && old(process == Some(Active) && record.None? && !pending.Committed? && vm != Gone) ==>
          process == Some(Exported) && vm == Gone
      case Retry(fates) =>
        if old(process).Some? then process == old(process) && vm == old(vm) && record == old(record) && pending == old(pending)
        else Undisturbed(fates) && old(Retriable()) ==> record.None? && vm == Gone
      case Shutdown(fates) =>
        process.None? && record == old(record) && pending == old(pending)
        && (Undisturbed(fates) && old(process == Some(Active)) ==> vm == Gone)
      case Cleanup(fates) =>
        process == old(process) && record == old(record) && pending == old(pending)
        && (Undisturbed(fates) && old(vm == Running && record.None? && !guard) ==> vm == Gone)
      case Crash => process.None? && vm == old(vm) && record == old(record) && pending == old(pending)
    }

    /** One command; an export and a shutdown need a supervisor, and a retry needs that there is
        none. */
    method Perform(command: Command)
      requires Valid() && AtRest()
      modifies this
      ensures Valid() && AtRest() && (old(secured) ==> secured)
      ensures exposed ==> old(exposed || Discards(command)) || (command.Export? && old(Stranded()))
      ensures old(Kept() && !Risks(command)) ==> Kept()
      ensures old(vm == Running && record.Some? && process.None? && !Owned()) ==>
        vm == Running && record == old(record) && process.None? && !Owned()
      ensures taken == old(taken) + [command] && Took(command)
    {
      ghost var before := taken;
      match command {
        case Export(fates) =>
          if process.Some? {
            var _, _ := Export(fates);
          }
        case Retry(fates) =>
          if process.None? {
            var _, _ := Retry(fates);
          }
        case Shutdown(fates) =>
          if process.Some? {
            ShutDown(fates);
          }
        case Cleanup(fates) => CleanUp(true, fates);
        case Crash => Die();
      }
      taken := before + [command];
    }

    /** Work preservation, over every run of exports, crashes, retries, shutdowns and orphan
        cleanups with any operation failing: once export has stopped the VM the work is never lost.
        The run goes on until the first command that is an export from a stranded state or a
        shutdown of a failed supervisor that alone holds the work. */
    method RunAll(commands: seq<Command>) returns (performed: nat)
      requires Valid() && AtRest() && !exposed
      modifies this
      ensures Valid() && performed <= |commands|
      ensures performed < |commands| ==> (commands[performed].Export? && Stranded()) || Discards(commands[performed])
      ensures changed && secured ==> Preserved()
      ensures taken == old(taken) + commands[..performed]
    {
      performed := 0;
      while performed < |commands|
        invariant Valid() && AtRest() && !exposed && performed <= |commands|
        invariant taken == old(taken) + commands[..performed]
      {
        if (commands[performed].Export? && Stranded()) || Discards(commands[performed]) {
          return;
        }
        Perform(commands[performed]);
        performed := performed + 1;
      }
    }

    /** The strict reading, over every run up to the first command that would start a stopped VM
        whose work is not committed, or would discard it: the work is in a committed pending Work
        Set or a stopped VM. */
    method RunWithoutRisk(commands: seq<Command>) returns (performed: nat)
      requires Valid() && AtRest() && Kept()
      modifies this
      ensures Valid() && performed <= |commands|
      ensures performed < |commands| ==> Risks(commands[performed])
      ensures changed && secured ==> Owned() || vm == Stopped
      ensures taken == old(taken) + commands[..performed]
    {
      performed := 0;
      while performed < |commands|
        invariant Valid() && AtRest() && Kept() && performed <= |commands|
        invariant taken == old(taken) + commands[..performed]
      {
        if Risks(commands[performed]) {
          return;
        }
        Perform(commands[performed]);
        performed := performed + 1;
      }
    }

    /** The guards are exact. From every state in which a command of this kind would restart the
        VM, it can be interrupted so that the work is in neither place. */
    method RestartBreaksStrictReading(command: Command)
      requires Valid() && AtRest() && Restarts(command) && changed
      modifies this
      ensures Valid() && secured && vm == Running && !Owned() && process.None? && !Kept() && record == old(record)
    {
      if command.Export? {
        var _, _ := Export(CrashOnceStarted());
      } else {
        var _, _ := Retry(RetryCrashOnceStarted());
      }
    }

    /** And where the end of a supervisor would discard the work, it does so undisturbed. */
    method ShutdownDiscards(command: Command)
      requires Valid() && AtRest() && Discards(command) && changed
      modifies this
      ensures vm == Gone && !Owned() && process.None? && record == old(record) && (old(vm) == Stopped ==> secured && !Kept())
    {
      ShutDown([]);
    }

    /** From every stranded state, an export that is interrupted once it has started the VM,
        followed by a cleanup, loses the work. */
    method StrandedWorkCanBeLost()
      requires Valid() && AtRest() && Stranded() && changed
      modifies this
      ensures vm == Gone && !Owned() && secured
    {
      var _, _ := Export(CrashOnceStarted());
      CleanUp(true, []);
    }

    /** Work in a running VM under a record, with no process left, stays there: neither a retry nor
        a cleanup, in any number and order, touches it. */
    method StaysRunning(commands: seq<Command>)
      requires Valid() && vm == Running && record.Some? && process.None? && !Owned()
      modifies this
      ensures Valid() && vm == Running && record == old(record) && process.None? && !Owned() && (old(secured) ==> secured)
      ensures taken == old(taken) + commands
    {
      for k := 0 to |commands|
        invariant taken == old(taken) + commands[..k]
        invariant Valid() && vm == Running && record == old(record) && process.None? && !Owned() && (old(secured) ==> secured)
      {
        Perform(commands[k]);
      }
    }
  }

  /** Stranded states are reachable: one failure to cut a dev session's egress is enough. */
  method WorkCanBeLost(work: string) returns (guest: Guest)
    ensures fresh(guest) && guest.changed && guest.secured && guest.vm == Gone && guest.pending != Committed(guest.work)
  {
    guest := new Guest(work, true, true, false, "project", "machine");
    var _, _ := guest.Export([FailsEarly]);
    guest.StrandedWorkCanBeLost();
  }

  /** The strict reading fails without any stranded state: an export is refused and recorded, the
      supervisor ends, and the retry dies once it has started the VM. The work is then in a running
      VM, and whatever is tried afterwards leaves it there. */
  method RetryCanLeaveRunning(work: string, dev: bool, afterwards: seq<Command>) returns (guest: Guest)
    ensures fresh(guest) && guest.changed && guest.secured
    ensures guest.vm == Running && guest.record.Some? && guest.process.None? && guest.pending != Committed(guest.work)
    ensures |afterwards| <= |guest.taken| && guest.taken[|guest.taken| - |afterwards|..] == afterwards
  {
    guest := new Guest(work, true, dev, false, "project", "machine");
    var _, _ := guest.Export(guest.RefusedOnce());
    guest.Die();
    guest.RestartBreaksStrictReading(Retry([]));
    guest.StaysRunning(afterwards);
  }

  /** Nor is a VM safe that was retained for recovery: a dev export is refused and recorded, the
      supervisor exports once more when the session ends, and its closed boundary makes it fail in
      a way that lets the end of the process remove the VM. */
  method RetainedWorkCanBeDiscarded(work: string) returns (guest: Guest)
    ensures fresh(guest) && guest.changed && guest.secured && guest.record.Some?
    ensures guest.vm == Gone && guest.pending != Committed(guest.work)
  {
    guest := new Guest(work, true, true, false, "project", "machine");
    var _, _ := guest.Export(guest.RefusedOnce());
    var _, _ := guest.Export([]);
    guest.ShutdownDiscards(Shutdown([]));
  }
}
