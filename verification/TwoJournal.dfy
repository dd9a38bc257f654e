/** Applying a pending Work Set: the project transaction (internal/apply/workset.go) and the
    retention journal together, as internal/cli/cli.go drives them. */
module TwoJournal {
  import opened Faults
  import ProjectTransaction
  import Retention

  /** How one apply command ends. */
  datatype Report =
    | Applied            // this run committed the project and finished retention
    | Resumed            // an earlier run had committed; this one finished it
    | NotResumed         // no earlier run had committed; the way is clear for a new apply
    | NothingPending
    | Declined           // the user did not confirm the plan
    | Revised            // the Resolution was changed
    | Error              // reported to the user; the command may be run again
    | ProjectionAbsent   // "journal says committed, but the projection is absent"
    | Stopped            // the process died

  /** What the user runs: an apply, confirmed or not, or a change of the Resolution, which chooses
      what is to happen to one Bulk path. */
  datatype Command =
    | Apply(confirmed: bool, faults: Schedule)
    | Revise(id: Retention.Id, disposition: Retention.Disposition, faults: Schedule)

  /** The operations with another disposition for one path. */
  function Choose(ops: seq<Retention.Operation>, id: Retention.Id, d: Retention.Disposition): (chosen: seq<Retention.Operation>)
    ensures |chosen| == |ops|
    ensures forall k :: 0 <= k < |ops| ==>
      chosen[k].retainedId == ops[k].retainedId && chosen[k].objectId == ops[k].objectId
    ensures forall k :: 0 <= k < |ops| ==> chosen[k].disposition == if ops[k].retainedId == id then d else ops[k].disposition
  {
    seq(|ops|, k requires 0 <= k < |ops| => if ops[k].retainedId == id then ops[k].(disposition := d) else ops[k])
  }

  lemma ChoiceIsFresh(v: Retention.Vault, ops: seq<Retention.Operation>, id: Retention.Id, d: Retention.Disposition)
    requires Retention.Fresh(v, ops) && id !in Retention.Records(v, Retention.ShelfOf(d))
    ensures Retention.Fresh(v, Choose(ops, id, d))
  {
    var chosen := Choose(ops, id, d);
    forall k | 0 <= k < |chosen|
      ensures chosen[k].retainedId !in Retention.Records(v, Retention.ShelfOf(chosen[k].disposition))
    {
      assert ops[k] in ops;
    }
    forall k | 0 <= k < |chosen| && chosen[k].objectId.Some?
      ensures chosen[k].objectId.value in v.objects && chosen[k].objectId.value !in v.trash && chosen[k].objectId.value !in v.artifacts
    {
      assert ops[k] in ops;
    }
  }

  class PendingApply {
    const host: ProjectTransaction.ProjectHost
    const store: Retention.RetentionStore
    const bulk: map<Retention.Id, set<Retention.Disposition>>   // the Bulk paths of the Work Set, with what is allowed for each
    ghost const captured: Retention.Vault   // the retained data as the export left it

    var pending: bool                  // the pending Work Set is on disk
    var approved: Retention.Approved   // the plan its current Resolution gives

    ghost var granted: set<Retention.Approved>   // the plans the user confirmed
    ghost var settled: Retention.Approved        // the one that was carried out, once one was

    constructor (host: ProjectTransaction.ProjectHost, store: Retention.RetentionStore, approved: Retention.Approved,
                 bulk: map<Retention.Id, set<Retention.Disposition>>)
      requires host.Valid() && host.Current() == ProjectTransaction.Untouched(host.plan)
      requires store.journal.None? && Retention.Fresh(store.vault, approved.operations)
      requires forall id :: id in bulk ==> exists op :: op in approved.operations && op.retainedId == id
      requires forall id, d :: id in bulk && d in bulk[id] ==> id !in Retention.Records(store.vault, Retention.ShelfOf(d))
      ensures Valid() && AtBaseline() && this.host == host && this.store == store && this.approved == approved
      ensures granted == {} && captured == store.vault && this.bulk == bulk
    {
      this.host, this.store, this.approved, this.bulk := host, store, approved, bulk;
      captured, pending, granted, settled := store.vault, true, {}, approved;
      new;
      Retention.FreshIsReady(captured, approved.operations);
    }

    ghost function Settlement(plan: Retention.Approved): Retention.Vault {
      Retention.Target(captured, plan.operations)
    }

    /** Settled, nothing applied: the project is the baseline and everything is still there. */
    ghost predicate AtBaseline()
      reads this, host, store
    {
      host.root == host.plan.baseline && host.tx.None? && pending && store.vault == captured && store.journal.None?
    }

    /** Settled, applied: the project is the result, every retention operation of a confirmed plan
        is done, and no pending data or journal is left. */
    ghost predicate AtResult()
      reads this, host, store
    {
      && host.root == host.plan.merged && host.tx.None? && !pending && store.journal.None?
      && settled in granted && store.vault == Settlement(settled)
    }

    ghost predicate MarkedPrepared()
      reads this, host, store
    {
      pending && store.vault == captured
    }

    ghost predicate MarkedCommitted(plan: Retention.Approved)
      reads this, host, store
    {
      && pending && host.root == host.plan.merged
      && (host.tx.None? || ProjectTransaction.IsCommitted(host.Current()))
      && Retention.Ready(store.vault, plan.operations)
      && Retention.Target(store.vault, plan.operations) == Settlement(plan)
    }

    ghost predicate MarkedFinalized(plan: Retention.Approved)
      reads this, host, store
    {
      host.root == host.plan.merged && host.tx.None? && store.vault == Settlement(plan)
    }

    /** When the Work Set was captured, nothing was on record for its Bulk paths. */
    ghost predicate NothingFiled() {
      forall id, d :: Choosable(id, d) ==> id !in Retention.Records(captured, Retention.ShelfOf(d))
    }

    /** The Work Set has this Bulk path, and this may happen to it. */
    predicate Choosable(id: Retention.Id, d: Retention.Disposition) {
      id in bulk && d in bulk[id]
    }

    /** What every interruption leaves. */
    ghost predicate Valid()
      reads this, host, store
    {
      && host.Valid() && Retention.Fresh(captured, approved.operations) && NothingFiled()
      && match store.journal
         case None => AtBaseline() || AtResult()
         case Some(j) =>
           && j.approved in granted && Retention.Fresh(captured, j.approved.operations)
           && j.approved.revision <= approved.revision
           && match j.phase
              case Prepared => MarkedPrepared()
              case ProjectCommitted => MarkedCommitted(j.approved)
              case Finalized => MarkedFinalized(j.approved)
    }

    /** The journal, if there is one, is for the current plan. */
    predicate Current()
      reads this, store
    {
      store.journal.Some? ==> store.journal.value.approved == approved
    }

    /** An apply is unfinished and the Resolution has changed since. */
    predicate Superseded()
      reads this, store
    {
      !Current() && !InPhase(Retention.Finalized)
    }

    /** Recovery will read the transaction journals of this plan. */
    predicate Admissible() {
      |host.plan.roots| <= host.maxEntries
    }

    /** Phase of the retention journal, as far as it decides what is allowed. */
    predicate InPhase(phase: Retention.Phase)
      reads this, store
    {
      store.journal.Some? && store.journal.value.phase == phase
    }

    method RemovePending(faults: Schedule) returns (o: Outcome, rest: Schedule)
      requires Valid() && InPhase(Retention.Finalized)
      modifies `pending
      ensures Valid() && (o.Done? ==> !pending) && (pending ==> old(pending))
      ensures Quiet(faults) ==> o.Done? && Quiet(rest)
    {
      if !pending {
        return Done, faults;
      }
      rest := Rest(faults);
      match Next(faults) {
        case Ok => pending, o := false, Done;
        case Fails => o := Failed;
        case Crashes => o := Crashed;
      }
    }

    /** The end of every path that has reached the finalized phase. */
    method CleanUp(faults: Schedule) returns (o: Outcome, rest: Schedule)
      requires Valid() && InPhase(Retention.Finalized)
      modifies `pending, `settled, store
      ensures Valid() && (if o.Done? then AtResult() else store.journal == old(store.journal))
      ensures settled == old(store.journal).value.approved
      ensures Quiet(faults) ==> o.Done? && Quiet(rest)
    {
      var journal := store.journal.value;
      settled := journal.approved;
      o, rest := RemovePending(faults);
      if o.Done? {
        o, rest := store.RemoveFinalized(journal, rest);
      }
    }

    /** Loading the pending Work Set first completes an interrupted cleanup, in which case there
        is nothing left to load. */
    method LoadPending(faults: Schedule) returns (o: Outcome, found: bool, rest: Schedule)
      requires Valid()
      modifies `pending, `settled, store
      ensures Valid()
      ensures o.Done? && !found ==> AtResult()
      ensures if old(InPhase(Retention.Finalized)) then !(o.Done? && found) && (InPhase(Retention.Finalized) || AtResult())
              else o.Done? && rest == faults && found == pending && unchanged(this) && unchanged(store)
      ensures Quiet(faults) ==> o.Done? && Quiet(rest)
    {
      o, found, rest := Done, false, faults;
      if InPhase(Retention.Finalized) {
        o, rest := CleanUp(rest);
      } else {
        found := pending;
      }
    }

    /** Resolve a project transaction an earlier run left, and report which side it fell on. */
    method ResumeTransaction(faults: Schedule) returns (o: Outcome, committed: bool, rest: Schedule)
      requires Valid() && (InPhase(Retention.Prepared) || InPhase(Retention.ProjectCommitted))
      modifies host
      ensures Valid()
      ensures o.Done? ==> host.tx.None?
      ensures o.Done? && committed ==> host.root == host.plan.merged
      ensures o.Done? && !committed ==> host.root == host.plan.baseline && InPhase(Retention.Prepared)
      ensures old(InPlace()) ==> InPlace()
      ensures old(host.tx.None?) ==> o.Done? && rest == faults && host.Current() == old(host.Current())
      ensures Quiet(faults) ==> Quiet(rest) && (Admissible() ==> o.Done?)
    {
      committed := false;
      o, rest := host.RecoverLocked(faults);
      if o.Done? {
        if host.root == host.plan.merged {
          committed := true;
        } else if host.root != host.plan.baseline {
          o := Failed;
        }
      }
    }

    /** Retention from a committed project to the finalized phase. */
    method FinishRetention(faults: Schedule) returns (o: Outcome, rest: Schedule)
      requires Valid() && host.tx.None? && InPhase(Retention.ProjectCommitted) && Current()
      modifies store
      ensures Valid() && Current() && (o.Done? ==> InPhase(Retention.Finalized))
      ensures Quiet(faults) ==> o.Done? && Quiet(rest)
    {
      o, rest := store.Finalize(approved, faults);
    }

    method MarkCommitted(faults: Schedule) returns (o: Outcome, rest: Schedule)
      requires Valid() && InPhase(Retention.Prepared) && host.root == host.plan.merged
      requires host.tx.None? || ProjectTransaction.IsCommitted(host.Current())
      modifies store
      ensures Valid() && (if o.Done? then InPhase(Retention.ProjectCommitted) else InPhase(Retention.Prepared))
      ensures store.journal.value.approved == old(store.journal).value.approved
      ensures Quiet(faults) ==> o.Done? && Quiet(rest)
    {
      Retention.FreshIsReady(captured, store.journal.value.approved.operations);
      o, rest := store.MarkProjectCommitted(store.journal.value, faults);
    }

    /** Complete what an earlier run left behind a journal, or clear the way for a new apply. A
        journal for another plan than the current one is refused before anything is touched. */
    method ResumeRetention(faults: Schedule) returns (r: Report, rest: Schedule)
      requires Valid() && pending && !InPhase(Retention.Finalized)
      modifies `pending, `settled, host, store
      ensures Valid() && r in {NotResumed, Resumed, Error, Stopped}
      ensures r == Resumed ==> AtResult() && settled == approved
      ensures r == NotResumed ==> AtBaseline()
      ensures old(store.journal).None? ==> rest == faults && r == NotResumed && unchanged(host)
      ensures if old(Superseded()) then r == Error && unchanged(this) && unchanged(host) && unchanged(store) else Current()
      ensures Quiet(faults) && Admissible() && old(!Superseded()) ==> Quiet(rest) && r in {NotResumed, Resumed}
    {
      rest := faults;
      if store.journal.None? {
        return NotResumed, rest;
      }
      if store.journal.value.approved != approved {
        return Error, rest;
      }
      var o, committed;
      o, committed, rest := ResumeTransaction(rest);
      if o.Done? && !committed {
        if !InPhase(Retention.Prepared) {
          return ProjectionAbsent, rest;
        }
        o, rest := store.RemovePrepared(store.journal.value, rest);
        return (if o.Done? then NotResumed else Unfinished(o)), rest;
      }
      if o.Done? && InPhase(Retention.Prepared) {
        o, rest := MarkCommitted(rest);
      }
      if o.Done? {
        o, rest := FinishRetention(rest);
      }
      if o.Done? {
        o, rest := CleanUp(rest);
      }
      r := if o.Done? then Resumed else Unfinished(o);
    }

    static function Unfinished(o: Outcome): Report {
      if o.Crashed? then Stopped else Error
    }

    /** The result is in place, and no transaction can take it back. */
    ghost predicate InPlace()
      reads this, host
    {
      host.root == host.plan.merged && (host.tx.None? || ProjectTransaction.IsCommitted(host.Current()))
    }

    /** The journal is prepared and the project untouched. */
    ghost predicate NothingDone()
      reads this, host, store
    {
      InPhase(Retention.Prepared) && host.Current() == ProjectTransaction.Untouched(host.plan)
    }

    /** The project side of a confirmed apply, with the retention mark as its commit callback. */
    method ApplyWorkSet(faults: Schedule) returns (o: Outcome, rest: Schedule)
      requires Valid() && InPhase(Retention.Prepared) && host.Current() == ProjectTransaction.Untouched(host.plan)
      requires Current()
      modifies host, store
      ensures Valid() && Current()
      ensures o.Done? ==> InPhase(Retention.ProjectCommitted) && host.tx.None?
      ensures InPhase(Retention.Prepared) || InPhase(Retention.ProjectCommitted)
      ensures faults == ProjectTransaction.ProjectHost.JournalThenCrash() ==>
        o.Crashed? && InPhase(Retention.Prepared) && ProjectTransaction.InFlight(host.Current())
      ensures FailsOnce(faults) ==> InPlace() || (o.Failed? && Quiet(rest) && NothingDone())
      ensures Quiet(faults) ==> o.Done? && Quiet(rest)
    {
      o, rest := host.RecoverLocked(faults);
      if o.Done? && host.root != host.plan.baseline {
        o := Failed;
      }
      if o.Done? {
        o, rest := host.SwapAndCommit(rest);
      }
      if o.Done? {
        o, rest := MarkCommitted(rest);
      }
      if o.Done? {
        o, rest := host.Attempt(ProjectTransaction.Discard, rest);
      }
    }

    /** After a failed apply: if nothing was committed, take the prepared journal back. */
    method WithdrawPrepared(faults: Schedule) returns (r: Report, rest: Schedule)
      requires Valid() && (InPhase(Retention.Prepared) || InPhase(Retention.ProjectCommitted)) && Current()
      modifies host, store
      ensures Valid() && r in {Error, Stopped} && Current()
      ensures Quiet(faults) && Admissible() && InPhase(Retention.Prepared) ==> host.root == host.plan.merged
      ensures old(InPlace()) ==> InPlace()
      ensures Quiet(faults) && old(NothingDone()) ==> AtBaseline() || InPlace()
    {
      r, rest := Error, faults;
      if InPhase(Retention.Prepared) {
        var o, committed;
        o, committed, rest := ResumeTransaction(rest);
        if o.Done? && !committed {
          o, rest := store.RemovePrepared(store.journal.value, rest);
        }
        if o.Crashed? {
          r := Stopped;
        }
      }
    }

    /** One run of the apply command. Whatever is interrupted or fails, the invariant holds; it
        never reports an absent projection; and an undisturbed, confirmed run settles at the
        result, unless the Resolution has changed since an unfinished apply: then it refuses. From a
        settled baseline one failure, wherever it is, leaves either everything as it was or the
        project at the result; nothing is left half done. */
    method ApplyPending(confirmed: bool, faults: Schedule) returns (r: Report, rest: Schedule)
      requires Valid()
      modifies `pending, `settled, `granted, host, store
      ensures Valid() && r !in {ProjectionAbsent, NotResumed, Revised}
      ensures old(granted) <= granted <= old(granted) + (if confirmed then {approved} else {})
      ensures r in {Applied, Resumed, NothingPending} ==> AtResult()
      ensures r in {Applied, Resumed} ==> settled == approved
      ensures r == Declined ==> AtBaseline()
      ensures Superseded() <==> old(Superseded())
      ensures old(Superseded()) ==> r == (if pending then Error else NothingPending) && unchanged(host) && unchanged(store)
      ensures Quiet(faults) && Admissible() && old(!Superseded()) ==> r !in {Error, Stopped} && (confirmed ==> AtResult())
      ensures old(AtBaseline()) && FailsOnce(faults) ==> AtBaseline() || InPlace()
      ensures old(AtBaseline()) && confirmed && faults == JournalsThenCrash() ==>
        InPhase(Retention.Prepared) && Current() && ProjectTransaction.InFlight(host.Current())
    {
      var o, found;
      o, found, rest := LoadPending(faults);
      if !o.Done? {
        return Unfinished(o), rest;
      }
      if !found {
        return NothingPending, rest;
      }
      r, rest := ResumeRetention(rest);
      if r != NotResumed {
        return;
      }
      if host.root != host.plan.baseline {
        return Error, rest;
      }
      if !confirmed {
        return Declined, rest;
      }
      r, rest := ApplyConfirmed(rest);
    }

    /** The process dies after both journals have been written. */
    static function JournalsThenCrash(): Schedule {
      [Ok] + ProjectTransaction.ProjectHost.JournalThenCrash()
    }

    method ApplyConfirmed(faults: Schedule) returns (r: Report, rest: Schedule)
      requires Valid() && AtBaseline()
      modifies `pending, `settled, `granted, host, store
      ensures Valid() && r in {Applied, Error, Stopped} && Current()
      ensures granted == old(granted) + {approved}
      ensures r == Applied ==> AtResult() && settled == approved
      ensures faults == JournalsThenCrash() ==> InPhase(Retention.Prepared) && ProjectTransaction.InFlight(host.Current())
      ensures FailsOnce(faults) ==> AtBaseline() || InPlace()
      ensures Quiet(faults) ==> r == Applied
    {
      var o;
      granted := granted + {approved};
      o, rest := store.Prepare(approved, 0, faults);
      if !o.Done? {
        return Unfinished(o), rest;
      }
      o, rest := ApplyWorkSet(rest);
      if o.Failed? {
        r, rest := WithdrawPrepared(rest);
        return;
      }
      if o.Done? && host.root != host.plan.merged {
        return Error, rest;
      }
      if o.Done? {
        o, rest := FinishRetention(rest);
      }
      if o.Done? {
        o, rest := CleanUp(rest);
      }
      r := if o.Done? then Applied else Unfinished(o);
    }

    /** Choose what happens to one Bulk path of the pending Work Set. A path the Work Set does not
        have, or a disposition not allowed for it, is refused. An unfinished apply is not noticed,
        and the revision in the plan makes the new plan another one even if the choice is the same. */
    method ReviseResolution(id: Retention.Id, d: Retention.Disposition, faults: Schedule) returns (r: Report, rest: Schedule)
      requires Valid()
      modifies `pending, `settled, `approved, store
      ensures Valid() && r in {Revised, NothingPending, Error, Stopped}
      ensures r == Revised ==> Choosable(id, d)
      ensures r == Revised ==>
        approved == old(approved).(revision := old(approved.revision) + 1, operations := Choose(old(approved.operations), id, d))
      ensures r == Revised ==> store.journal == old(store.journal) && (Superseded() <==> store.journal.Some?)
      ensures r != Revised ==> approved == old(approved) && (Superseded() <==> old(Superseded()))
      ensures old(!InPhase(Retention.Finalized)) ==> unchanged(store) && pending == old(pending)
      ensures Quiet(faults) && old(pending && !InPhase(Retention.Finalized)) ==> r == if Choosable(id, d) then Revised else Error
    {
      var o, found;
      o, found, rest := LoadPending(faults);
      if !o.Done? {
        return Unfinished(o), rest;
      }
      if !found {
        return NothingPending, rest;
      }
      if !Choosable(id, d) {
        return Error, rest;
      }
      r := match Next(rest) case Ok => Revised case Fails => Error case Crashes => Stopped;
      rest := Rest(rest);
      if r == Revised {
        ChoiceIsFresh(captured, approved.operations, id, d);
        approved := approved.(revision := approved.revision + 1, operations := Choose(approved.operations, id, d));
      }
    }

    /** One command. It supersedes an unfinished apply exactly if it changes the Resolution while
        a retention journal exists, for which the Work Set must have a Bulk path; nothing ends that
        again. */
    method Perform(command: Command) returns (r: Report)
      requires Valid()
      modifies `pending, `settled, `granted, `approved, host, store
      ensures Valid() && r !in {ProjectionAbsent, NotResumed}
      ensures Superseded() <==> old(Superseded()) || (r == Revised && store.journal.Some?)
      ensures r == Revised ==> command.Revise? && Choosable(command.id, command.disposition)
      ensures old(Superseded()) ==> unchanged(host) && unchanged(store)
      ensures approved != old(approved) ==> command.Revise?
      ensures old(granted) <= granted <= old(granted) + (if Confirmed(command) then {approved} else {})
      ensures GoesThrough(command) && Admissible() ==> AtResult() || Superseded()
    {
      var rest;
      match command {
        case Apply(confirmed, faults) => r, rest := ApplyPending(confirmed, faults);
        case Revise(id, disposition, faults) => r, rest := ReviseResolution(id, disposition, faults);
      }
    }

    static predicate Confirmed(command: Command) {
      command.Apply? && command.confirmed
    }

    /** A confirmed apply that nothing interrupts. */
    static ghost predicate GoesThrough(command: Command) {
      Confirmed(command) && Quiet(command.faults)
    }

    /** Any number of commands, each run confirmed or not and interrupted anywhere, with the
        Resolution changing in between: whenever no retention journal is left, the project, the
        retained data and the pending Work Set are all on the same side, and only a confirmed plan
        was carried out. One undisturbed confirmed run at the end settles at the result, unless
        the Resolution was changed while an apply was unfinished; a Work Set without Bulk paths
        always settles. */
    method RunRepeatedly(commands: seq<Command>) returns (reports: seq<Report>)
      requires Valid()
      modifies `pending, `settled, `granted, `approved, host, store
      ensures Valid() && (store.journal.None? ==> AtBaseline() || AtResult())
      ensures |reports| == |commands| && ProjectionAbsent !in reports
      ensures Superseded() && old(!Superseded()) ==> Revised in reports && bulk != map[]
      ensures old(Superseded()) ==> Superseded() && host.Current() == old(host.Current()) && store.vault == old(store.vault) && store.journal == old(store.journal)
      ensures (forall command :: command in commands ==> !Confirmed(command)) ==> granted == old(granted)
      ensures commands != [] && GoesThrough(commands[|commands| - 1]) && Admissible() ==> AtResult() || Superseded()
      ensures commands != [] && GoesThrough(commands[|commands| - 1]) && Admissible() && bulk == map[] && old(!Superseded()) ==> AtResult()
    {
      reports := [];
      for k := 0 to |commands|
        invariant Valid() && |reports| == k && ProjectionAbsent !in reports
        invariant Superseded() && old(!Superseded()) ==> Revised in reports && bulk != map[]
        invariant old(Superseded()) ==> Superseded() && host.Current() == old(host.Current()) && store.vault == old(store.vault) && store.journal == old(store.journal)
        invariant (forall command :: command in commands ==> !Confirmed(command)) ==> granted == old(granted)
        invariant k > 0 && GoesThrough(commands[k - 1]) && Admissible() ==> AtResult() || Superseded()
      {
        assert commands[k] in commands;
        var r := Perform(commands[k]);
        reports := reports + [r];
      }
    }

    /** From every settled baseline of a Work Set with a Bulk path: an apply that dies in the middle
        of the swap, then a change of the Resolution, even to the same choice. No sequence of
        commands brings the project out of the transaction again. */
    method Strand(id: Retention.Id, d: Retention.Disposition, commands: seq<Command>)
      requires Valid() && AtBaseline() && Choosable(id, d)
      modifies `pending, `settled, `granted, `approved, host, store
      ensures Valid() && Superseded() && InPhase(Retention.Prepared) && ProjectTransaction.InFlight(host.Current())
    {
      var r, rest := ApplyPending(true, JournalsThenCrash());
      r, rest := ReviseResolution(id, d, []);
      var _ := RunRepeatedly(commands);
    }
  }

  /** So a project of one file, with one Bulk path whose data is to be kept, is left in the middle
      of its transaction when the choice to keep it is repeated after a crash, although recovery
      would read the journal. */
  method StrandedByRevision(commands: seq<Command>) returns (apply: PendingApply)
    ensures fresh(apply) && apply.Valid() && apply.Admissible() && apply.Superseded()
    ensures apply.host.plan == ProjectTransaction.FileReplaced() && ProjectTransaction.InFlight(apply.host.Current())
  {
    ProjectTransaction.AdmissionCanFail();
    var host := new ProjectTransaction.ProjectHost(ProjectTransaction.FileReplaced(), 2);
    var store := new Retention.RetentionStore(Retention.Vault({"object"}, {}, {}, map[], map[], map[]));
    var kept := Retention.Operation("item", Retention.KeepHost, Some("object"));
    assert kept in [kept] && kept.retainedId == "item";
    apply := new PendingApply(host, store, Retention.Approved("work set", 1, [kept]), map["item" := {Retention.KeepHost}]);
    apply.Strand("item", Retention.KeepHost, commands);
  }
}
