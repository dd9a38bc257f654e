/** Restartable disposition of retained objects after a project commit (internal/retention). */
module Retention {
  import opened Faults

  type Id = string

  /** What happens to a captured object: it stays for the project, is pinned as an artifact, or
      is deleted with a receipt. A kept absence has no object and leaves only a receipt. */
  datatype Disposition = KeepHost | KeepAbsence | RetainArtifact | Discard

  /** One retention operation, with the object it disposes of; as a value it is also the
      content of the record that says it was done. */
  datatype Operation = Operation(retainedId: Id, disposition: Disposition, objectId: Option<Id>)

  datatype Phase = Prepared | ProjectCommitted | Finalized

  /** The approved plan as far as retention is concerned, with the revision of the Resolution it
      was built from. Equal digests mean equal plans, so a plan stands for its digests. */
  datatype Approved = Approved(workSet: string, revision: nat, operations: seq<Operation>)

  datatype Journal = Journal(approved: Approved, created: nat, phase: Phase)

  predicate SameIdentity(a: Journal, b: Journal) {
    a.approved == b.approved && a.created == b.created
  }

  /** The retained directories: three places an object can be, three kinds of record. */
  datatype Vault = Vault(
    objects: set<Id>, artifacts: set<Id>, trash: set<Id>,
    items: map<Id, Operation>, receipts: map<Id, Operation>, artifactRecords: map<Id, Operation>)

  datatype Shelf = Items | Receipts | ArtifactRecords

  function ShelfOf(d: Disposition): Shelf {
    match d
    case KeepHost => Items
    case RetainArtifact => ArtifactRecords
    case KeepAbsence => Receipts
    case Discard => Receipts
  }

  function Records(v: Vault, shelf: Shelf): map<Id, Operation> {
    match shelf
    case Items => v.items
    case Receipts => v.receipts
    case ArtifactRecords => v.artifactRecords
  }

  /** The operation's record exists, with exactly this content. */
  predicate Recorded(v: Vault, op: Operation) {
    op.retainedId in Records(v, ShelfOf(op.disposition)) && Records(v, ShelfOf(op.disposition))[op.retainedId] == op
  }

  // ----- The state one uninterrupted run ends in -----

  /** The objects of the operations with disposition d. */
  function ObjectsOf(ops: seq<Operation>, d: Disposition): set<Id> {
    set op | op in ops && op.disposition == d && op.objectId.Some? :: op.objectId.value
  }

  /** The records the operations leave on a shelf. */
  function Filed(ops: seq<Operation>, shelf: Shelf): map<Id, Operation> {
    if ops == [] then map[]
    else
      var rest := Filed(ops[1..], shelf);
      if ShelfOf(ops[0].disposition) == shelf then rest[ops[0].retainedId := ops[0]] else rest
  }

  /** The vault when every operation has been carried out. */
  function Target(v: Vault, ops: seq<Operation>): Vault {
    Vault(v.objects - ObjectsOf(ops, Discard) - ObjectsOf(ops, RetainArtifact),
          v.artifacts + ObjectsOf(ops, RetainArtifact),
          v.trash - ObjectsOf(ops, Discard),
          v.items + Filed(ops, Items),
          v.receipts + Filed(ops, Receipts),
          v.artifactRecords + Filed(ops, ArtifactRecords))
  }

  // ----- Well-formed plans and the states finalization passes through -----

  /** Operations name distinct retained items and distinct objects. */
  predicate GoodOperations(ops: seq<Operation>) {
    && (forall i, j :: 0 <= i < j < |ops| ==> ops[i].retainedId != ops[j].retainedId)
    && (forall i, j :: 0 <= i < j < |ops| && ops[i].objectId.Some? ==> ops[i].objectId != ops[j].objectId)
  }

  /** How far one operation has come. Its record is absent or exactly its own; a kept object is
      where it was; an artifact object is in one of its two places and never in trash; an object
      to be discarded is gone from both places only once its receipt exists. */
  predicate InProgress(v: Vault, op: Operation) {
    && (op.retainedId in Records(v, ShelfOf(op.disposition)) ==> Recorded(v, op))
    && (op.objectId.Some? ==>
      var x := op.objectId.value;
      match op.disposition
      case KeepHost => x in v.objects && x !in v.trash && x !in v.artifacts
      case KeepAbsence => true
      case RetainArtifact =>
        && x !in v.trash
        && (x in v.objects <==> x !in v.artifacts)
        && (Recorded(v, op) ==> x in v.artifacts)
      case Discard =>
        && x !in v.artifacts
        && !(x in v.objects && x in v.trash)
        && (x !in v.objects && x !in v.trash ==> Recorded(v, op))
        && (Recorded(v, op) ==> x !in v.objects))
  }

  predicate Ready(v: Vault, ops: seq<Operation>) {
    GoodOperations(ops) && forall op :: op in ops ==> InProgress(v, op)
  }

  /** Nothing has been done for these operations yet. */
  predicate Fresh(v: Vault, ops: seq<Operation>) {
    && GoodOperations(ops)
    && (forall op :: op in ops ==> op.retainedId !in Records(v, ShelfOf(op.disposition)))
    && (forall op :: op in ops && op.objectId.Some? ==>
      op.objectId.value in v.objects && op.objectId.value !in v.trash && op.objectId.value !in v.artifacts)
  }

  lemma FreshIsReady(v: Vault, ops: seq<Operation>)
    requires Fresh(v, ops)
    ensures Ready(v, ops)
  {
  }

  // ----- Every durable step keeps the target -----

  lemma {:induction false} FiledHas(ops: seq<Operation>, op: Operation, shelf: Shelf)
    requires GoodOperations(ops)
    requires op in ops && ShelfOf(op.disposition) == shelf
    ensures op.retainedId in Filed(ops, shelf) && Filed(ops, shelf)[op.retainedId] == op
  {
    if ops[0] != op {
      assert op in ops[1..];
      FiledHas(ops[1..], op, shelf);
      var k :| 0 <= k < |ops| && ops[k] == op;
      assert ops[0].retainedId != ops[k].retainedId;
    }
  }

  lemma {:induction false} FiledOnly(ops: seq<Operation>, id: Id, shelf: Shelf)
    requires id in Filed(ops, shelf)
    ensures exists op :: op in ops && op.retainedId == id && ShelfOf(op.disposition) == shelf && Filed(ops, shelf)[id] == op
  {
    if ShelfOf(ops[0].disposition) == shelf && ops[0].retainedId == id {
      assert ops[0] in ops;
    } else {
      FiledOnly(ops[1..], id, shelf);
      var op :| op in ops[1..] && op.retainedId == id && ShelfOf(op.disposition) == shelf && Filed(ops, shelf)[id] == op;
      assert op in ops;
    }
  }

  function WithRecord(v: Vault, op: Operation): Vault {
    match ShelfOf(op.disposition)
    case Items => v.(items := v.items[op.retainedId := op])
    case Receipts => v.(receipts := v.receipts[op.retainedId := op])
    case ArtifactRecords => v.(artifactRecords := v.artifactRecords[op.retainedId := op])
  }

  function IntoArtifacts(v: Vault, x: Id): Vault {
    v.(objects := v.objects - {x}, artifacts := v.artifacts + {x})
  }

  function IntoTrash(v: Vault, x: Id): Vault {
    v.(objects := v.objects - {x}, trash := v.trash + {x})
  }

  function Purged(v: Vault, x: Id): Vault {
    v.(trash := v.trash - {x})
  }

  /** Operations other than op do not share its object or its record. */
  lemma OthersDistinct(ops: seq<Operation>, op: Operation, other: Operation)
    requires GoodOperations(ops) && op in ops && other in ops && other != op
    ensures other.retainedId != op.retainedId
    ensures op.objectId.Some? ==> other.objectId != op.objectId
  {
    var i :| 0 <= i < |ops| && ops[i] == op;
    var j :| 0 <= j < |ops| && ops[j] == other;
    assert i < j || j < i;
  }

  lemma RecordKeepsOthers(v: Vault, ops: seq<Operation>, op: Operation, other: Operation)
    requires GoodOperations(ops) && op in ops && other in ops && other != op && InProgress(v, other)
    ensures InProgress(WithRecord(v, op), other)
  {
    OthersDistinct(ops, op, other);
    assert Recorded(WithRecord(v, op), other) <==> Recorded(v, other);
  }

  lemma RecordKeepsTarget(v: Vault, ops: seq<Operation>, op: Operation)
    requires GoodOperations(ops) && op in ops
    ensures Target(WithRecord(v, op), ops) == Target(v, ops)
  {
    FiledHas(ops, op, ShelfOf(op.disposition));
    match ShelfOf(op.disposition) {
      case Items => assert v.items[op.retainedId := op] + Filed(ops, Items) == v.items + Filed(ops, Items);
      case Receipts => assert v.receipts[op.retainedId := op] + Filed(ops, Receipts) == v.receipts + Filed(ops, Receipts);
      case ArtifactRecords =>
        assert v.artifactRecords[op.retainedId := op] + Filed(ops, ArtifactRecords) == v.artifactRecords + Filed(ops, ArtifactRecords);
    }
  }

  lemma RecordStep(v: Vault, ops: seq<Operation>, op: Operation)
    requires Ready(v, ops) && op in ops && !Recorded(v, op)
    requires op.disposition == RetainArtifact && op.objectId.Some? ==> op.objectId.value in v.artifacts
    requires op.disposition == Discard && op.objectId.Some? ==> op.objectId.value in v.trash
    ensures Ready(WithRecord(v, op), ops) && Recorded(WithRecord(v, op), op)
    ensures Target(WithRecord(v, op), ops) == Target(v, ops)
  {
    forall other | other in ops && other != op
      ensures InProgress(WithRecord(v, op), other)
    {
      assert InProgress(v, other);
      RecordKeepsOthers(v, ops, op, other);
    }
    assert InProgress(v, op);
    assert InProgress(WithRecord(v, op), op);
    RecordKeepsTarget(v, ops, op);
  }

  lemma ArtifactStep(v: Vault, ops: seq<Operation>, op: Operation)
    requires Ready(v, ops) && op in ops && op.disposition == RetainArtifact && op.objectId.Some?
    requires op.objectId.value in v.objects
    ensures Ready(IntoArtifacts(v, op.objectId.value), ops)
    ensures Target(IntoArtifacts(v, op.objectId.value), ops) == Target(v, ops)
  {
    var after := IntoArtifacts(v, op.objectId.value);
    forall other | other in ops && other != op
      ensures InProgress(after, other)
    {
      OthersDistinct(ops, op, other);
      assert InProgress(v, other);
    }
    assert InProgress(v, op);
    assert op.objectId.value in ObjectsOf(ops, RetainArtifact);
  }

  lemma TrashStep(v: Vault, ops: seq<Operation>, op: Operation)
    requires Ready(v, ops) && op in ops && op.disposition == Discard && op.objectId.Some?
    requires op.objectId.value in v.objects
    ensures Ready(IntoTrash(v, op.objectId.value), ops)
    ensures Target(IntoTrash(v, op.objectId.value), ops) == Target(v, ops)
  {
    var after := IntoTrash(v, op.objectId.value);
    forall other | other in ops && other != op
      ensures InProgress(after, other)
    {
      OthersDistinct(ops, op, other);
      assert InProgress(v, other);
    }
    assert InProgress(v, op);
    assert op.objectId.value in ObjectsOf(ops, Discard);
  }

  /** The only step that destroys data; it needs the receipt. */
  lemma PurgeStep(v: Vault, ops: seq<Operation>, op: Operation)
    requires Ready(v, ops) && op in ops && op.disposition == Discard && op.objectId.Some?
    requires Recorded(v, op)
    ensures Ready(Purged(v, op.objectId.value), ops)
    ensures Target(Purged(v, op.objectId.value), ops) == Target(v, ops)
  {
    var after := Purged(v, op.objectId.value);
    forall other | other in ops && other != op
      ensures InProgress(after, other)
    {
      OthersDistinct(ops, op, other);
      assert InProgress(v, other);
    }
    assert InProgress(v, op);
    assert op.objectId.value in ObjectsOf(ops, Discard);
  }

  /** One operation is finished. */
  predicate Finished(v: Vault, op: Operation) {
    Recorded(v, op) && (op.disposition == Discard && op.objectId.Some? ==> op.objectId.value !in v.trash)
  }

  /** What was finished stays finished. */
  predicate KeepsFinished(before: Vault, after: Vault, ops: seq<Operation>) {
    forall op :: op in ops && Finished(before, op) ==> Finished(after, op)
  }

  /** When every operation is finished, the vault is its own target. */
  lemma AllFinished(v: Vault, ops: seq<Operation>)
    requires Ready(v, ops) && forall op :: op in ops ==> Finished(v, op)
    ensures v == Target(v, ops)
  {
    forall op | op in ops
      ensures InProgress(v, op) && Finished(v, op)
    {
    }
    forall x | x in ObjectsOf(ops, Discard)
      ensures x !in v.objects && x !in v.trash
    {
      var op :| op in ops && op.disposition == Discard && op.objectId == Some(x);
      assert Finished(v, op);
    }
    forall x | x in ObjectsOf(ops, RetainArtifact)
      ensures x !in v.objects && x in v.artifacts
    {
      var op :| op in ops && op.disposition == RetainArtifact && op.objectId == Some(x);
      assert Finished(v, op);
    }
    FiledAlready(v, ops, Items);
    FiledAlready(v, ops, Receipts);
    FiledAlready(v, ops, ArtifactRecords);
  }

  lemma FiledAlready(v: Vault, ops: seq<Operation>, shelf: Shelf)
    requires forall op :: op in ops ==> Recorded(v, op)
    ensures Records(v, shelf) + Filed(ops, shelf) == Records(v, shelf)
  {
    forall id | id in Filed(ops, shelf)
      ensures id in Records(v, shelf) && Filed(ops, shelf)[id] == Records(v, shelf)[id]
    {
      FiledOnly(ops, id, shelf);
    }
  }

  /** What the target means for the data: nothing but the objects the approved plan discards is
      lost, kept objects have not moved, and artifact objects are in the artifact store. */
  lemma TargetConserves(v: Vault, ops: seq<Operation>, op: Operation)
    requires Fresh(v, ops) && op in ops && op.objectId.Some?
    ensures var x, t := op.objectId.value, Target(v, ops);
      && (op.disposition == KeepHost ==> x in t.objects && x !in t.trash && x !in t.artifacts)
      && (op.disposition == RetainArtifact ==> x in t.artifacts && x !in t.objects && x !in t.trash)
      && (op.disposition == Discard ==> x !in t.objects && x !in t.trash && x !in t.artifacts && op.retainedId in t.receipts)
  {
    forall other | other in ops && other != op
      ensures other.objectId != op.objectId
    {
      OthersDistinct(ops, op, other);
    }
    if op.disposition == Discard {
      FiledHas(ops, op, Receipts);
    }
  }

  /** Where the record of an operation belongs: kept items with the project, artifacts with the
      artifact store, and a receipt for what is deleted or was absent. */
  predicate InItsPlace(v: Vault, op: Operation) {
    match op.disposition
    case KeepHost => op.retainedId in v.items && v.items[op.retainedId] == op
    case RetainArtifact => op.retainedId in v.artifactRecords && v.artifactRecords[op.retainedId] == op
    case KeepAbsence => op.retainedId in v.receipts && v.receipts[op.retainedId] == op
    case Discard => op.retainedId in v.receipts && v.receipts[op.retainedId] == op
  }

  /** In the end every operation, with or without an object, has its own record in its place, and
      a place has gained no other records. */
  lemma TargetFiles(v: Vault, ops: seq<Operation>)
    requires GoodOperations(ops)
    ensures forall op :: op in ops ==> InItsPlace(Target(v, ops), op)
    ensures forall id :: id in Target(v, ops).items && id !in v.items ==>
      exists op :: op in ops && op.retainedId == id && op.disposition == KeepHost
    ensures forall id :: id in Target(v, ops).artifactRecords && id !in v.artifactRecords ==>
      exists op :: op in ops && op.retainedId == id && op.disposition == RetainArtifact
    ensures forall id :: id in Target(v, ops).receipts && id !in v.receipts ==>
      exists op :: op in ops && op.retainedId == id && op.disposition in {KeepAbsence, Discard}
  {
    forall op | op in ops
      ensures InItsPlace(Target(v, ops), op)
    {
      FiledHas(ops, op, ShelfOf(op.disposition));
    }
    forall id, shelf | id in Filed(ops, shelf)
      ensures exists op :: op in ops && op.retainedId == id && ShelfOf(op.disposition) == shelf
    {
      FiledOnly(ops, id, shelf);
    }
  }

  /** An object that no operation names is never touched. */
  lemma TargetKeepsUnnamed(v: Vault, ops: seq<Operation>, x: Id)
    requires forall op :: op in ops ==> op.objectId != Some(x)
    ensures (x in Target(v, ops).objects <==> x in v.objects) && (x in Target(v, ops).trash <==> x in v.trash)
    ensures x in Target(v, ops).artifacts <==> x in v.artifacts
  {
  }

  /** What holds at every interruption: with the same target as the untouched vault, a ready vault has
      lost no object except those the plan discards, and those only with their receipt. */
  lemma NeverLost(start: Vault, v: Vault, ops: seq<Operation>, x: Id)
    requires Fresh(start, ops) && Ready(v, ops) && Target(v, ops) == Target(start, ops)
    requires x in start.objects
    ensures x in v.objects || x in v.artifacts || x in v.trash
      || exists op :: op in ops && op.disposition == Discard && op.objectId == Some(x) && Recorded(v, op)
    ensures x in v.trash && x !in start.trash ==> exists op :: op in ops && op.disposition == Discard && op.objectId == Some(x)
  {
    if op :| op in ops && op.disposition == Discard && op.objectId == Some(x) {
      assert InProgress(v, op);
    } else {
      assert x !in ObjectsOf(ops, Discard);
      assert x in Target(start, ops).objects || x in Target(start, ops).artifacts;
      if x in Target(v, ops).artifacts && x !in v.artifacts {
        assert x in ObjectsOf(ops, RetainArtifact);
        var op :| op in ops && op.disposition == RetainArtifact && op.objectId == Some(x);
        assert InProgress(v, op);
      }
      assert x in v.trash ==> x in Target(v, ops).trash;
    }
  }

  // ----- The store and its procedures -----

  class RetentionStore {
    var vault: Vault
    var journal: Option<Journal>

    constructor (vault: Vault)
      ensures this.vault == vault && journal.None?
    {
      this.vault, journal := vault, None;
    }

    /** Finalization of this plan is under way: the phase allows it and no other plan owns it. */
    predicate Finalizing(approved: Approved)
      reads this
    {
      journal.Some? && journal.value.phase == ProjectCommitted && journal.value.approved == approved
    }

    method WriteJournal(j: Journal, faults: Schedule) returns (o: Outcome, rest: Schedule)
      modifies `journal
      ensures o == (match Next(faults) case Ok => Done case Fails => Failed case Crashes => Crashed)
      ensures rest == Rest(faults)
      ensures o.Done? ==> journal == Some(j)
      ensures !o.Done? ==> journal == old(journal)
      ensures Quiet(faults) ==> o.Done? && Quiet(rest)
    {
      rest := Rest(faults);
      match Next(faults) {
        case Ok => journal, o := Some(j), Done;
        case Fails => o := Failed;
        case Crashes => o := Crashed;
      }
    }

    method RemoveJournal(faults: Schedule) returns (o: Outcome, rest: Schedule)
      modifies `journal
      ensures o.Done? ==> journal.None?
      ensures !o.Done? ==> journal == old(journal)
      ensures Quiet(faults) ==> o.Done? && Quiet(rest)
    {
      rest := Rest(faults);
      match Next(faults) {
        case Ok => journal, o := None, Done;
        case Fails => o := Failed;
        case Crashes => o := Crashed;
      }
    }

    /** One durable change of the retained directories that keeps the plan's target. */
    method Move(next: Vault, ghost ops: seq<Operation>, faults: Schedule) returns (o: Outcome, rest: Schedule)
      requires Ready(vault, ops) && Ready(next, ops) && Target(next, ops) == Target(vault, ops)
      modifies `vault
      ensures Ready(vault, ops) && Target(vault, ops) == old(Target(vault, ops))
      ensures vault == if o.Done? then next else old(vault)
      ensures Quiet(faults) ==> o.Done? && Quiet(rest)
    {
      rest := Rest(faults);
      match Next(faults) {
        case Ok => vault, o := next, Done;
        case Fails => o := Failed;
        case Crashes => o := Crashed;
      }
    }

    method Prepare(approved: Approved, created: nat, faults: Schedule) returns (o: Outcome, rest: Schedule)
      modifies `journal
      ensures o == (match Next(faults) case Ok => Done case Fails => Failed case Crashes => Crashed)
      ensures rest == Rest(faults)
      ensures o.Done? ==> journal == Some(Journal(approved, created, Prepared))
      ensures !o.Done? ==> journal == old(journal)
      ensures Quiet(faults) ==> o.Done? && Quiet(rest)
    {
      o, rest := WriteJournal(Journal(approved, created, Prepared), faults);
    }

    method MarkProjectCommitted(expected: Journal, faults: Schedule) returns (o: Outcome, rest: Schedule)
      modifies `journal
      ensures o.Done? ==> old(journal) == Some(expected.(phase := Prepared)) && journal == Some(expected.(phase := ProjectCommitted))
      ensures !o.Done? ==> journal == old(journal)
      ensures Quiet(faults) && old(journal) == Some(expected.(phase := Prepared)) ==> o.Done?
      ensures Quiet(faults) ==> Quiet(rest)
    {
      if journal.None? || !SameIdentity(journal.value, expected) || journal.value.phase != Prepared {
        return Failed, faults;
      }
      o, rest := WriteJournal(journal.value.(phase := ProjectCommitted), faults);
    }

    /** Drop the journal of an apply that never committed; nothing else is ever dropped here. */
    method RemovePrepared(expected: Journal, faults: Schedule) returns (o: Outcome, rest: Schedule)
      modifies `journal
      ensures o.Done? ==> journal.None? && (old(journal).Some? ==> old(journal) == Some(expected.(phase := Prepared)))
      ensures !o.Done? ==> journal == old(journal)
      ensures Quiet(faults) && (old(journal).Some? ==> old(journal) == Some(expected.(phase := Prepared))) ==> o.Done?
      ensures Quiet(faults) ==> Quiet(rest)
    {
      if journal.None? {
        return Done, faults;
      }
      if !SameIdentity(journal.value, expected) || journal.value.phase != Prepared {
        return Failed, faults;
      }
      o, rest := RemoveJournal(faults);
    }

    method RemoveFinalized(expected: Journal, faults: Schedule) returns (o: Outcome, rest: Schedule)
      modifies `journal
      ensures o.Done? ==> journal.None? && (old(journal).Some? ==> old(journal) == Some(expected.(phase := Finalized)))
      ensures !o.Done? ==> journal == old(journal)
      ensures Quiet(faults) && (old(journal).Some? ==> old(journal) == Some(expected.(phase := Finalized))) ==> o.Done?
      ensures Quiet(faults) ==> Quiet(rest)
    {
      if journal.None? {
        return Done, faults;
      }
      if !SameIdentity(journal.value, expected) || journal.value.phase != Finalized {
        return Failed, faults;
      }
      o, rest := RemoveJournal(faults);
    }

    /** The operation's record is there; a record with other content stops the run. */
    method RecordMatches(op: Operation, ghost ops: seq<Operation>) returns (complete: bool, conflict: bool)
      requires Ready(vault, ops) && op in ops
      ensures !conflict && (complete <==> Recorded(vault, op))
    {
      assert InProgress(vault, op);
      var records := Records(vault, ShelfOf(op.disposition));
      complete := op.retainedId in records;
      conflict := complete && records[op.retainedId] != op;
    }

    method WriteRecord(op: Operation, ghost ops: seq<Operation>, faults: Schedule) returns (o: Outcome, rest: Schedule)
      requires Ready(vault, ops) && op in ops && !Recorded(vault, op)
      requires op.disposition == RetainArtifact && op.objectId.Some? ==> op.objectId.value in vault.artifacts
      requires op.disposition == Discard && op.objectId.Some? ==> op.objectId.value in vault.trash
      modifies `vault
      ensures Ready(vault, ops) && Target(vault, ops) == old(Target(vault, ops))
      ensures vault == if o.Done? then WithRecord(old(vault), op) else old(vault)
      ensures o.Done? ==> Recorded(vault, op)
      ensures Quiet(faults) ==> o.Done? && Quiet(rest)
    {
      RecordStep(vault, ops, op);
      o, rest := Move(WithRecord(vault, op), ops, faults);
    }

    /** Move a captured object to the artifact store, unless an earlier run already did. */
    method MoveToArtifacts(op: Operation, ghost ops: seq<Operation>, faults: Schedule) returns (o: Outcome, rest: Schedule)
      requires Ready(vault, ops) && op in ops && op.disposition == RetainArtifact && op.objectId.Some?
      requires !Recorded(vault, op)
      modifies `vault
      ensures Ready(vault, ops) && Target(vault, ops) == old(Target(vault, ops))
      ensures vault.trash == old(vault.trash) && !Recorded(vault, op)
      ensures forall other :: Recorded(vault, other) <==> old(Recorded(vault, other))
      ensures o.Done? ==> op.objectId.value in vault.artifacts
      ensures Quiet(faults) ==> o.Done? && Quiet(rest)
    {
      assert InProgress(vault, op);
      var x := op.objectId.value;
      if x in vault.artifacts {
        o, rest := if x in vault.objects then Failed else Done, faults;
      } else {
        ArtifactStep(vault, ops, op);
        o, rest := Move(IntoArtifacts(vault, x), ops, faults);
      }
    }

    method MoveToTrash(op: Operation, ghost ops: seq<Operation>, faults: Schedule) returns (o: Outcome, rest: Schedule)
      requires Ready(vault, ops) && op in ops && op.disposition == Discard && op.objectId.Some?
      requires !Recorded(vault, op)
      modifies `vault
      ensures Ready(vault, ops) && Target(vault, ops) == old(Target(vault, ops))
      ensures !Recorded(vault, op) && vault.trash <= old(vault.trash) + {op.objectId.value}
      ensures forall other :: Recorded(vault, other) <==> old(Recorded(vault, other))
      ensures o.Done? ==> op.objectId.value in vault.trash
      ensures Quiet(faults) ==> o.Done? && Quiet(rest)
    {
      assert InProgress(vault, op);
      var x := op.objectId.value;
      if x in vault.trash {
        o, rest := if x in vault.objects then Failed else Done, faults;
      } else {
        TrashStep(vault, ops, op);
        o, rest := Move(IntoTrash(vault, x), ops, faults);
      }
    }

    /** Delete the object's trash copy; the receipt is already there. */
    method RemoveObject(op: Operation, ghost ops: seq<Operation>, faults: Schedule) returns (o: Outcome, rest: Schedule)
      requires Ready(vault, ops) && op in ops && op.disposition == Discard && op.objectId.Some?
      requires Recorded(vault, op)
      modifies `vault
      ensures Ready(vault, ops) && Target(vault, ops) == old(Target(vault, ops))
      ensures vault.trash <= old(vault.trash)
      ensures forall other :: Recorded(vault, other) <==> old(Recorded(vault, other))
      ensures o.Done? ==> op.objectId.value !in vault.trash
      ensures Quiet(faults) ==> o.Done? && Quiet(rest)
    {
      if op.objectId.value !in vault.trash {
        return Done, faults;
      }
      PurgeStep(vault, ops, op);
      o, rest := Move(Purged(vault, op.objectId.value), ops, faults);
    }

    /** Move the object to trash and write the receipt. */
    method MoveAndRecord(op: Operation, ghost ops: seq<Operation>, faults: Schedule) returns (o: Outcome, rest: Schedule)
      requires Ready(vault, ops) && op in ops && op.disposition == Discard && !Recorded(vault, op)
      modifies `vault
      ensures Ready(vault, ops) && Target(vault, ops) == old(Target(vault, ops))
      ensures KeepsFinished(old(vault), vault, ops)
      ensures o.Done? ==> Recorded(vault, op)
      ensures Quiet(faults) ==> o.Done? && Quiet(rest)
    {
      OthersApart(ops, op);
      o, rest := Done, faults;
      if op.objectId.Some? {
        o, rest := MoveToTrash(op, ops, rest);
      }
      if o.Done? {
        o, rest := WriteRecord(op, ops, rest);
      }
    }

    /** A kept object, or a kept absence, only gets its record. */
    method KeepRecord(op: Operation, ghost ops: seq<Operation>, faults: Schedule) returns (o: Outcome, rest: Schedule)
      requires Ready(vault, ops) && op in ops && op.disposition in {KeepHost, KeepAbsence}
      modifies `vault
      ensures Ready(vault, ops) && Target(vault, ops) == old(Target(vault, ops))
      ensures KeepsFinished(old(vault), vault, ops)
      ensures o.Done? ==> Finished(vault, op)
      ensures Quiet(faults) ==> o.Done? && Quiet(rest)
    {
      OthersApart(ops, op);
      o, rest := Done, faults;
      var complete, conflict := RecordMatches(op, ops);
      if conflict {
        return Failed, rest;
      }
      if !complete {
        o, rest := WriteRecord(op, ops, rest);
      }
    }

    /** An artifact's object moves to the artifact store before its record is written. */
    method PinArtifact(op: Operation, ghost ops: seq<Operation>, faults: Schedule) returns (o: Outcome, rest: Schedule)
      requires Ready(vault, ops) && op in ops && op.disposition == RetainArtifact
      modifies `vault
      ensures Ready(vault, ops) && Target(vault, ops) == old(Target(vault, ops))
      ensures KeepsFinished(old(vault), vault, ops)
      ensures o.Done? ==> Finished(vault, op)
      ensures Quiet(faults) ==> o.Done? && Quiet(rest)
    {
      OthersApart(ops, op);
      o, rest := Done, faults;
      var complete, conflict := RecordMatches(op, ops);
      if conflict {
        return Failed, rest;
      }
      if !complete && op.objectId.Some? {
        o, rest := MoveToArtifacts(op, ops, rest);
      }
      if !complete && o.Done? {
        o, rest := WriteRecord(op, ops, rest);
      }
    }

    /** A discarded object moves to trash, its receipt is written, and only then is it deleted. */
    method DiscardObject(op: Operation, ghost ops: seq<Operation>, faults: Schedule) returns (o: Outcome, rest: Schedule)
      requires Ready(vault, ops) && op in ops && op.disposition == Discard
      modifies `vault
      ensures Ready(vault, ops) && Target(vault, ops) == old(Target(vault, ops))
      ensures KeepsFinished(old(vault), vault, ops)
      ensures o.Done? ==> Finished(vault, op)
      ensures Quiet(faults) ==> o.Done? && Quiet(rest)
    {
      OthersApart(ops, op);
      o, rest := Done, faults;
      var complete, conflict := RecordMatches(op, ops);
      if conflict {
        return Failed, rest;
      }
      if !complete {
        o, rest := MoveAndRecord(op, ops, rest);
      }
      if o.Done? && op.objectId.Some? {
        o, rest := RemoveObject(op, ops, rest);
      }
    }

    /** Carry out one operation from wherever an earlier run left it. */
    method FinalizeOne(op: Operation, ghost ops: seq<Operation>, faults: Schedule) returns (o: Outcome, rest: Schedule)
      requires Ready(vault, ops) && op in ops
      modifies `vault
      ensures Ready(vault, ops) && Target(vault, ops) == old(Target(vault, ops))
      ensures KeepsFinished(old(vault), vault, ops)
      ensures o.Done? ==> Finished(vault, op)
      ensures Quiet(faults) ==> o.Done? && Quiet(rest)
    {
      match op.disposition {
        case KeepHost => o, rest := KeepRecord(op, ops, faults);
        case KeepAbsence => o, rest := KeepRecord(op, ops, faults);
        case RetainArtifact => o, rest := PinArtifact(op, ops, faults);
        case Discard => o, rest := DiscardObject(op, ops, faults);
      }
    }

    /** Finalize is restartable: wherever it stops, the state an uninterrupted run would end in
        has not changed, and the first run that completes is in that state. */
    method Finalize(approved: Approved, faults: Schedule) returns (o: Outcome, rest: Schedule)
      requires Finalizing(approved) ==> Ready(vault, approved.operations)
      modifies this
      ensures !old(Finalizing(approved)) ==>
        && vault == old(vault) && journal == old(journal)
        && o == (if journal.Some? && journal.value.phase == Finalized then Done else Failed)
      ensures old(Finalizing(approved)) ==>
        && Ready(vault, approved.operations)
        && Target(vault, approved.operations) == old(Target(vault, approved.operations))
        && (if o.Done? then vault == old(Target(vault, approved.operations)) && journal == Some(old(journal).value.(phase := Finalized))
            else journal == old(journal))
        && (o.Done? ==> forall op :: op in approved.operations ==> InItsPlace(vault, op))
      ensures Quiet(faults) ==> Quiet(rest) && (old(Finalizing(approved)) ==> o.Done?)
    {
      o, rest := Done, faults;
      if journal.None? {
        return Failed, rest;
      }
      if journal.value.phase == Finalized {
        return Done, rest;
      }
      if journal.value.phase != ProjectCommitted || journal.value.approved != approved {
        return Failed, rest;
      }
      var ops := approved.operations;
      var k: nat := 0;
      while k < |ops| && o.Done?
        invariant k <= |ops| && journal == old(journal)
        invariant Ready(vault, ops) && Target(vault, ops) == old(Target(vault, ops))
        invariant o.Done? ==> forall op :: op in ops[..k] ==> Finished(vault, op)
        invariant Quiet(faults) ==> o.Done? && Quiet(rest)
        decreases |ops| - k, o.Done?
      {
        assert ops[..k + 1] == ops[..k] + [ops[k]];
        o, rest := FinalizeOne(ops[k], ops, rest);
        k := k + 1;
      }
      if o.Done? {
        assert ops[..k] == ops;
        AllFinished(vault, ops);
        TargetFiles(vault, ops);
        o, rest := WriteJournal(journal.value.(phase := Finalized), rest);
      }
    }

    /** The item names the object and size the caller repeated. */
    ghost predicate Confirmed(id: Id, expected: Id)
      reads this
    {
      id in vault.items && vault.items[id].retainedId == id && vault.items[id].objectId == Some(expected)
    }

    /** Discard one kept item: the object through trash with a receipt, and the item last, so an
        interrupted discard can be repeated until it completes. */
    method DiscardProjectItem(id: Id, expected: Id, faults: Schedule) returns (o: Outcome, rest: Schedule)
      requires Confirmed(id, expected) ==> Ready(vault, [ReceiptFor(vault.items[id])])
      modifies `vault
      ensures !old(Confirmed(id, expected)) ==> o.Failed? && vault == old(vault)
      ensures old(Confirmed(id, expected)) ==>
        var ops := [ReceiptFor(old(vault).items[id])];
        var target := old(Target(vault, ops));
        if o.Done? then vault == target.(items := target.items - {id})
        else Confirmed(id, expected) && vault.items == old(vault).items && Ready(vault, ops) && Target(vault, ops) == target
      ensures Quiet(faults) ==> (o.Done? <==> old(Confirmed(id, expected)))
    {
      if id !in vault.items || vault.items[id].retainedId != id || vault.items[id].objectId != Some(expected) {
        return Failed, faults;
      }
      var receipt := ReceiptFor(vault.items[id]);
      var ops := [receipt];
      ItemsKept(vault, receipt);
      o, rest := DiscardObject(receipt, ops, faults);
      ItemsKept(vault, receipt);
      if o.Done? {
        assert forall op :: op in ops ==> op == receipt;
        AllFinished(vault, ops);
        o, rest := RemoveItem(id, rest);
      }
    }

    /** What is kept can be discarded later: after a completed finalization, repeating the identity
        of a kept object deletes it and replaces its item by a receipt. */
    method KeepThenDiscard(approved: Approved, op: Operation)
      requires Finalizing(approved) && Ready(vault, approved.operations)
      requires op in approved.operations && op.disposition == KeepHost && op.objectId.Some?
      requires op.retainedId !in vault.receipts
      modifies this
      ensures op.objectId.value !in vault.objects && op.objectId.value !in vault.trash && op.objectId.value !in vault.artifacts
      ensures op.retainedId !in vault.items && op.retainedId in vault.receipts
    {
      ghost var start := vault;
      var o, rest := Finalize(approved, []);
      assert InProgress(vault, op) && InItsPlace(vault, op);
      TargetFiles(start, approved.operations);
      OthersApart(approved.operations, op);
      var receipt := ReceiptFor(op);
      assert InProgress(vault, receipt);
      FiledHas([receipt], receipt, Receipts);
      o, rest := DiscardProjectItem(op.retainedId, op.objectId.value, []);
    }

    method RemoveItem(id: Id, faults: Schedule) returns (o: Outcome, rest: Schedule)
      modifies `vault
      ensures vault == if o.Done? then old(vault).(items := old(vault).items - {id}) else old(vault)
      ensures Quiet(faults) ==> o.Done? && Quiet(rest)
    {
      rest := Rest(faults);
      match Next(faults) {
        case Ok => vault, o := vault.(items := vault.items - {id}), Done;
        case Fails => o := Failed;
        case Crashes => o := Crashed;
      }
    }
  }

  /** The operation that discards a kept item; its receipt is of a kind of its own, but it is
      filed and followed like any other receipt. */
  function ReceiptFor(item: Operation): Operation {
    item.(disposition := Discard)
  }

  /** What another operation is finished by cannot be undone by working on op. */
  lemma OthersApart(ops: seq<Operation>, op: Operation)
    requires GoodOperations(ops) && op in ops
    ensures forall other :: other in ops && other != op ==>
      other.retainedId != op.retainedId && (op.objectId.Some? ==> other.objectId != op.objectId)
  {
    forall other | other in ops && other != op
      ensures other.retainedId != op.retainedId && (op.objectId.Some? ==> other.objectId != op.objectId)
    {
      OthersDistinct(ops, op, other);
    }
  }

  /** Discarding files nothing among the kept items. */
  lemma ItemsKept(v: Vault, receipt: Operation)
    requires receipt.disposition == Discard
    ensures Target(v, [receipt]).items == v.items
  {
    assert Filed([receipt], Items) == Filed([receipt][1..], Items) == map[];
  }
}
