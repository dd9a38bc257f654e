/** The journaled subtree swap of internal/apply: the machine of its durable steps. */
module ProjectTransaction {
  import opened Faults
  import opened Trees

  // ----- What one apply is asked to do -----

  /** One journal entry: an affected root, whether the project had it, whether the result has it. */
  datatype Item = Item(path: Path, original: bool, desired: bool)

  datatype Plan = Plan(baseline: Tree, merged: Tree, roots: seq<Path>)

  function Items(plan: Plan): (items: seq<Item>)
    ensures |items| == |plan.roots|
  {
    seq(|plan.roots|, i requires 0 <= i < |plan.roots| =>
      Item(plan.roots[i], plan.roots[i] in plan.baseline, plan.roots[i] in plan.merged))
  }

  /** Path p lies under no affected root. */
  predicate Outside(plan: Plan, p: Path) {
    forall i :: 0 <= i < |plan.roots| ==> !Under(plan.roots[i], p)
  }

  /** The roots are pairwise unrelated and cover every path where the two trees differ. */
  predicate GoodPlan(plan: Plan) {
    && WellFormed(plan.baseline) && WellFormed(plan.merged)
    && (forall i :: 0 <= i < |plan.roots| ==> plan.roots[i] != [])
    && (forall i, j :: 0 <= i < |plan.roots| && 0 <= j < |plan.roots| && i != j ==> !Under(plan.roots[i], plan.roots[j]))
    && (forall p :: p in plan.baseline && Outside(plan, p) ==> SameAt(plan.baseline, plan.merged, p))
    && (forall p :: p in plan.merged && Outside(plan, p) ==> SameAt(plan.baseline, plan.merged, p))
  }

  /** The part of the result that is copied into the stage: the desired roots, their
      contents and the directories leading to them. */
  function Staged(plan: Plan): Tree {
    map p | p in plan.merged && Selected(plan, p) :: plan.merged[p]
  }

  predicate Selected(plan: Plan, p: Path) {
    exists i :: 0 <= i < |plan.roots| && plan.roots[i] in plan.merged && (Under(plan.roots[i], p) || Under(p, plan.roots[i]))
  }

  // ----- The disk -----

  datatype Journal = Journal(items: seq<Item>, committed: bool)

  /** A transaction directory: the staged tree, the backup slots by index, the journal file. */
  datatype Transaction = Transaction(stage: Tree, backup: map<nat, Tree>, journal: Option<Journal>)

  datatype Disk = Disk(root: Tree, tx: Option<Transaction>)

  predicate InFlight(d: Disk) {
    d.tx.Some? && d.tx.value.journal.Some? && !d.tx.value.journal.value.committed
  }

  predicate IsCommitted(d: Disk) {
    d.tx.Some? && d.tx.value.journal.Some? && d.tx.value.journal.value.committed
  }

  // ----- Durable steps -----

  datatype Step =
    | Open                    // create the transaction directory
    | Stage(tree: Tree)       // copy (part of) the approved result into the stage
    | WriteJournal
    | Backup(i: nat)          // rename an original subtree into its backup slot
    | Install(i: nat)         // rename a staged subtree into the project
    | RemoveEntry(i: nat, p: Path)  // unlink one file or one empty directory
    | Restore(i: nat)         // rename a backup slot back into the project
    | Commit
    | Discard                 // remove the transaction directory

  /** The item's subtree in the project is back to what it was before the apply. */
  predicate ItemRestored(plan: Plan, d: Disk, i: nat)
    requires d.tx.Some? && i < |plan.roots|
  {
    i !in d.tx.value.backup && Subtree(d.root, plan.roots[i]) == Subtree(plan.baseline, plan.roots[i])
  }

  predicate Enabled(plan: Plan, d: Disk, s: Step) {
    match s
    case Open => d.tx.None? && d.root == plan.baseline
    case Stage(_) => d.tx.Some? && d.tx.value.journal.None?
    case WriteJournal => d.tx.Some? && d.tx.value.journal.None? && d.tx.value.backup == map[]
    case Backup(i) => InFlight(d) && i < |plan.roots| && i !in d.tx.value.backup
      && plan.roots[i] in plan.baseline && plan.roots[i] in d.root
    case Install(i) => InFlight(d) && i < |plan.roots|
      && (i in d.tx.value.backup || plan.roots[i] !in plan.baseline)
      && plan.roots[i] in d.tx.value.stage && HangsFrom(Subtree(d.tx.value.stage, plan.roots[i]), plan.roots[i])
      && HasParent(d.root, plan.roots[i]) && Subtree(d.root, plan.roots[i]) == map[]
    case RemoveEntry(i, p) => InFlight(d) && i < |plan.roots|
      && (i in d.tx.value.backup || plan.roots[i] !in plan.baseline)
      && Under(plan.roots[i], p) && p in d.root && Childless(d.root, p)
    case Restore(i) => InFlight(d) && i < |plan.roots| && i in d.tx.value.backup
      && HasParent(d.root, plan.roots[i]) && Subtree(d.root, plan.roots[i]) == map[]
    case Commit => InFlight(d) && d.root == plan.merged
    case Discard => d.tx.Some? && (InFlight(d) ==> forall i :: 0 <= i < |plan.roots| ==> ItemRestored(plan, d, i))
  }

  function Perform(plan: Plan, d: Disk, s: Step): Disk
    requires Enabled(plan, d, s)
  {
    match s
    case Open => d.(tx := Some(Transaction(map[], map[], None)))
    case Stage(t) => d.(tx := Some(d.tx.value.(stage := t)))
    case WriteJournal => d.(tx := Some(d.tx.value.(journal := Some(Journal(Items(plan), false)))))
    case Backup(i) =>
      Disk(Without(d.root, plan.roots[i]),
           Some(d.tx.value.(backup := d.tx.value.backup[i := Subtree(d.root, plan.roots[i])])))
    case Install(i) =>
      Disk(d.root + Subtree(d.tx.value.stage, plan.roots[i]),
           Some(d.tx.value.(stage := Without(d.tx.value.stage, plan.roots[i]))))
    case RemoveEntry(_, p) => d.(root := d.root - {p})
    case Restore(i) =>
      Disk(d.root + d.tx.value.backup[i], Some(d.tx.value.(backup := d.tx.value.backup - {i})))
    case Commit => d.(tx := Some(d.tx.value.(journal := Some(Journal(Items(plan), true)))))
    case Discard => d.(tx := None)
  }

  // ----- Runs -----

  /** The disk after a history of steps, if every step was enabled when it was taken. */
  function After(plan: Plan, start: Disk, history: seq<Step>): Option<Disk> {
    if history == [] then Some(start)
    else
      var before := After(plan, start, history[..|history| - 1]);
      var s := history[|history| - 1];
      if before.Some? && Enabled(plan, before.value, s) then Some(Perform(plan, before.value, s)) else None
  }

  // ----- The invariant -----

  /** The original subtree of item i is intact in exactly one place: its backup slot, or the project. */
  predicate ItemSafe(plan: Plan, d: Disk, i: nat)
    requires d.tx.Some? && i < |plan.roots|
  {
    if i in d.tx.value.backup then
      plan.roots[i] in plan.baseline && d.tx.value.backup[i] == Subtree(plan.baseline, plan.roots[i])
    else
      plan.roots[i] in plan.baseline ==> Subtree(d.root, plan.roots[i]) == Subtree(plan.baseline, plan.roots[i])
  }

  /** Nothing under no affected root has changed. */
  predicate OutsideUntouched(plan: Plan, root: Tree) {
    && (forall p :: p in root && Outside(plan, p) ==> SameAt(plan.baseline, root, p))
    && (forall p :: p in plan.baseline && Outside(plan, p) ==> SameAt(plan.baseline, root, p))
  }

  predicate Safe(plan: Plan, d: Disk) {
    && WellFormed(d.root)
    && (d.tx.None? ==> d.root == plan.baseline || d.root == plan.merged)
    && (d.tx.Some? ==>
      && (d.tx.value.journal.None? ==> d.root == plan.baseline && d.tx.value.backup == map[])
      && (d.tx.value.journal.Some? ==> d.tx.value.journal.value.items == Items(plan))
      && (IsCommitted(d) ==> d.root == plan.merged)
      && (InFlight(d) ==>
        && OutsideUntouched(plan, d.root)
        && (forall i :: i in d.tx.value.backup ==> i < |plan.roots|)
        && (forall i :: 0 <= i < |plan.roots| ==> ItemSafe(plan, d, i))))
  }

  // ----- Small facts about disjoint subtrees -----

  lemma ParentOutside(plan: Plan, i: nat)
    requires GoodPlan(plan) && i < |plan.roots|
    ensures |plan.roots[i]| > 1 ==> Outside(plan, Parent(plan.roots[i]))
  {
    var p := plan.roots[i];
    if |p| > 1 {
      forall j | 0 <= j < |plan.roots|
        ensures !Under(plan.roots[j], Parent(p))
      {
        assert Under(plan.roots[j], Parent(p)) ==> Under(plan.roots[j], p);
      }
    }
  }

  /** A root's parent directory is in the project throughout, so every rename finds it. */
  lemma ParentPresent(plan: Plan, root: Tree, i: nat)
    requires GoodPlan(plan) && i < |plan.roots| && OutsideUntouched(plan, root)
    requires plan.roots[i] in plan.baseline || plan.roots[i] in plan.merged
    ensures HasParent(root, plan.roots[i])
  {
    ParentOutside(plan, i);
    var p := plan.roots[i];
    assert HasParent(plan.baseline, p) || HasParent(plan.merged, p);
    if |p| > 1 {
      assert SameAt(plan.baseline, plan.merged, Parent(p));
      assert SameAt(plan.baseline, root, Parent(p));
    }
  }

  lemma RootsDisjoint(plan: Plan, i: nat, j: nat, p: Path)
    requires GoodPlan(plan) && i < |plan.roots| && j < |plan.roots| && i != j
    requires Under(plan.roots[i], p)
    ensures !Under(plan.roots[j], p)
  {
    if Under(plan.roots[j], p) {
      PrefixesComparable(plan.roots[i], plan.roots[j], p);
    }
  }

  /** Changing only what lies under root i leaves every other subtree as it was. */
  lemma OtherSubtreesKept(plan: Plan, before: Tree, after: Tree, i: nat)
    requires GoodPlan(plan) && i < |plan.roots|
    requires Without(before, plan.roots[i]) == Without(after, plan.roots[i])
    ensures forall j :: 0 <= j < |plan.roots| && j != i ==> Subtree(before, plan.roots[j]) == Subtree(after, plan.roots[j])
    ensures OutsideUntouched(plan, before) ==> OutsideUntouched(plan, after)
  {
    WithoutByPoints(before, after, plan.roots[i]);
    forall j | 0 <= j < |plan.roots| && j != i
      ensures Subtree(before, plan.roots[j]) == Subtree(after, plan.roots[j])
    {
      forall p | Under(plan.roots[j], p)
        ensures SameAt(before, after, p)
      {
        RootsDisjoint(plan, j, i, p);
      }
      SubtreeByPoints(before, after, plan.roots[j]);
    }
  }

  /** Two trees that agree outside the roots and under each root are equal. */
  lemma TreesEqual(plan: Plan, s: Tree, t: Tree)
    requires forall p :: p in s && Outside(plan, p) ==> SameAt(s, t, p)
    requires forall p :: p in t && Outside(plan, p) ==> SameAt(s, t, p)
    requires forall i :: 0 <= i < |plan.roots| ==> Subtree(s, plan.roots[i]) == Subtree(t, plan.roots[i])
    ensures s == t
  {
    forall p | p in s || p in t
      ensures SameAt(s, t, p)
    {
      if !Outside(plan, p) {
        var i :| 0 <= i < |plan.roots| && Under(plan.roots[i], p);
        SubtreeByPoints(s, t, plan.roots[i]);
      }
    }
  }

  // ----- Every step keeps the invariant -----

  lemma RestoredIsBaseline(plan: Plan, d: Disk)
    requires GoodPlan(plan) && Safe(plan, d) && InFlight(d)
    requires forall i :: 0 <= i < |plan.roots| ==> ItemRestored(plan, d, i)
    ensures d.root == plan.baseline
  {
    forall i | 0 <= i < |plan.roots|
      ensures Subtree(plan.baseline, plan.roots[i]) == Subtree(d.root, plan.roots[i])
    {
      assert ItemRestored(plan, d, i);
    }
    TreesEqual(plan, plan.baseline, d.root);
  }

  /** A step of an uncommitted transaction that works under one root only. */
  lemma LocalStepSafe(plan: Plan, d: Disk, after: Disk, i: nat)
    requires GoodPlan(plan) && Safe(plan, d) && InFlight(d) && i < |plan.roots|
    requires InFlight(after) && after.tx.value.journal == d.tx.value.journal && WellFormed(after.root)
    requires Without(d.root, plan.roots[i]) == Without(after.root, plan.roots[i])
    requires d.tx.value.backup - {i} == after.tx.value.backup - {i}
    requires ItemSafe(plan, after, i)
    ensures Safe(plan, after)
  {
    OtherSubtreesKept(plan, d.root, after.root, i);
    forall j | 0 <= j < |plan.roots| && j != i
      ensures ItemSafe(plan, after, j)
    {
      assert ItemSafe(plan, d, j);
      assert j in d.tx.value.backup <==> j in d.tx.value.backup - {i};
      assert j in after.tx.value.backup <==> j in after.tx.value.backup - {i};
      if j in d.tx.value.backup {
        assert (d.tx.value.backup - {i})[j] == (after.tx.value.backup - {i})[j];
      }
    }
    forall j | j in after.tx.value.backup
      ensures j < |plan.roots|
    {
      assert j != i ==> j in after.tx.value.backup - {i};
    }
  }

  lemma BackupSafe(plan: Plan, d: Disk, i: nat)
    requires GoodPlan(plan) && Safe(plan, d) && Enabled(plan, d, Backup(i))
    ensures Safe(plan, Perform(plan, d, Backup(i)))
  {
    var root := plan.roots[i];
    assert ItemSafe(plan, d, i);
    WithoutWellFormed(d.root, root);
    var after := Perform(plan, d, Backup(i));
    assert ItemSafe(plan, after, i);
    LocalStepSafe(plan, d, after, i);
  }

  lemma InstallSafe(plan: Plan, d: Disk, i: nat)
    requires GoodPlan(plan) && Safe(plan, d) && Enabled(plan, d, Install(i))
    ensures Safe(plan, Perform(plan, d, Install(i)))
    ensures Subtree(Perform(plan, d, Install(i)).root, plan.roots[i]) == Subtree(d.tx.value.stage, plan.roots[i])
    ensures Without(Perform(plan, d, Install(i)).root, plan.roots[i]) == Without(d.root, plan.roots[i])
  {
    Graft(d.root, Subtree(d.tx.value.stage, plan.roots[i]), plan.roots[i]);
    assert ItemSafe(plan, d, i);
    LocalStepSafe(plan, d, Perform(plan, d, Install(i)), i);
  }

  lemma RemoveEntrySafe(plan: Plan, d: Disk, i: nat, p: Path)
    requires GoodPlan(plan) && Safe(plan, d) && Enabled(plan, d, RemoveEntry(i, p))
    ensures Safe(plan, Perform(plan, d, RemoveEntry(i, p)))
  {
    UnlinkWellFormed(d.root, p);
    assert ItemSafe(plan, d, i);
    LocalStepSafe(plan, d, Perform(plan, d, RemoveEntry(i, p)), i);
  }

  lemma RestoreSafe(plan: Plan, d: Disk, i: nat)
    requires GoodPlan(plan) && Safe(plan, d) && Enabled(plan, d, Restore(i))
    ensures Safe(plan, Perform(plan, d, Restore(i)))
    ensures ItemRestored(plan, Perform(plan, d, Restore(i)), i)
    ensures Without(Perform(plan, d, Restore(i)).root, plan.roots[i]) == Without(d.root, plan.roots[i])
  {
    assert ItemSafe(plan, d, i);
    SubtreeHangs(plan.baseline, plan.roots[i]);
    Graft(d.root, d.tx.value.backup[i], plan.roots[i]);
    LocalStepSafe(plan, d, Perform(plan, d, Restore(i)), i);
  }

  lemma StepSafe(plan: Plan, d: Disk, s: Step)
    requires GoodPlan(plan) && Safe(plan, d) && Enabled(plan, d, s)
    ensures Safe(plan, Perform(plan, d, s))
  {
    match s
    case Backup(i) => BackupSafe(plan, d, i);
    case Install(i) => InstallSafe(plan, d, i);
    case RemoveEntry(i, p) => RemoveEntrySafe(plan, d, i, p);
    case Restore(i) => RestoreSafe(plan, d, i);
    case Discard =>
      if InFlight(d) {
        RestoredIsBaseline(plan, d);
      }
    case _ =>
  }

  // ----- Theorems over every run -----

  function Untouched(plan: Plan): Disk {
    Disk(plan.baseline, None)
  }

  lemma {:induction false} RunsAreSafe(plan: Plan, history: seq<Step>)
    requires GoodPlan(plan) && After(plan, Untouched(plan), history).Some?
    ensures Safe(plan, After(plan, Untouched(plan), history).value)
  {
    if history != [] {
      var earlier := history[..|history| - 1];
      RunsAreSafe(plan, earlier);
      StepSafe(plan, After(plan, Untouched(plan), earlier).value, history[|history| - 1]);
    }
  }

  /** Crash atomicity. A run may contain any number of interrupted applies and recoveries, in
      any order of steps. Whenever no transaction directory is left, the project is exactly the
      result if the commit mark was ever written, and exactly the baseline if it was not. */
  lemma {:induction false} CrashAtomicity(plan: Plan, history: seq<Step>)
    requires GoodPlan(plan) && After(plan, Untouched(plan), history).Some?
    ensures var d := After(plan, Untouched(plan), history).value;
      && (d.tx.None? ==> d.root == if Commit in history then plan.merged else plan.baseline)
      && (IsCommitted(d) ==> Commit in history)
      && (d.tx.Some? && !IsCommitted(d) && Commit in history ==> plan.baseline == plan.merged)
  {
    if history != [] {
      var earlier, s := history[..|history| - 1], history[|history| - 1];
      CrashAtomicity(plan, earlier);
      RunsAreSafe(plan, earlier);
      assert history == earlier + [s];
      var before := After(plan, Untouched(plan), earlier).value;
      if s == Discard && InFlight(before) {
        RestoredIsBaseline(plan, before);
      }
    }
  }

  /** What lies under no affected root is the same in every state of every run. */
  lemma OutsideNeverChanges(plan: Plan, history: seq<Step>, p: Path)
    requires GoodPlan(plan) && After(plan, Untouched(plan), history).Some?
    requires Outside(plan, p)
    ensures SameAt(plan.baseline, After(plan, Untouched(plan), history).value.root, p)
  {
    RunsAreSafe(plan, history);
  }

  /** Backup conservation: before commit, each original subtree is in its slot or in the project,
      complete, and never missing from both. */
  lemma OriginalsConserved(plan: Plan, history: seq<Step>, i: nat)
    requires GoodPlan(plan) && After(plan, Untouched(plan), history).Some?
    requires InFlight(After(plan, Untouched(plan), history).value)
    requires i < |plan.roots| && plan.roots[i] in plan.baseline
    ensures var d := After(plan, Untouched(plan), history).value;
      var original := Subtree(plan.baseline, plan.roots[i]);
      if i in d.tx.value.backup then d.tx.value.backup[i] == original else Subtree(d.root, plan.roots[i]) == original
  {
    RunsAreSafe(plan, history);
    assert ItemSafe(plan, After(plan, Untouched(plan), history).value, i);
  }

  /** A staged root carries exactly its part of the result. */
  lemma StagedRoot(plan: Plan, i: nat)
    requires GoodPlan(plan) && i < |plan.roots|
    ensures plan.roots[i] in plan.merged ==> Subtree(Staged(plan), plan.roots[i]) == Subtree(plan.merged, plan.roots[i])
  {
    if plan.roots[i] in plan.merged {
      forall p | Under(plan.roots[i], p)
        ensures SameAt(Staged(plan), plan.merged, p)
      {
        assert p in plan.merged ==> Selected(plan, p);
      }
      SubtreeByPoints(Staged(plan), plan.merged, plan.roots[i]);
    }
  }

  /** Recovery reads a journal only if it has at most as many entries as the snapshot policy
      allows files; otherwise it refuses. */
  predicate Admitted(plan: Plan, d: Disk, maxEntries: nat) {
    d.tx.Some? && d.tx.value.journal.Some? ==> |d.tx.value.journal.value.items| <= maxEntries
  }

  /** Replacing the one file of a project by another one. */
  function FileReplaced(): Plan {
    Plan(map[["a"] := File(0, "")], map[["b"] := File(0, "")], [["a"], ["b"]])
  }

  /** Two one-file manifests within a limit of one entry can need two journal entries: a plan
      that every check before the apply accepts and that recovery will not read. */
  lemma AdmissionCanFail()
    ensures var plan := FileReplaced(); GoodPlan(plan) && |plan.baseline| <= 1 && |plan.merged| <= 1 && |plan.roots| > 1
  {
    var a, b: Path := ["a"], ["b"];
    var plan := FileReplaced();
    assert a[0] != b[0];
    assert !Under(a, b) && !Under(b, a);
    assert plan.roots[0] == a && plan.roots[1] == b;
    assert !Outside(plan, a) && !Outside(plan, b);
    assert GoodPlan(plan);
  }

  // ----- The procedures -----

  /** One project directory during one apply. */
  class ProjectHost {
    const plan: Plan
    const maxEntries: nat   // the snapshot policy's limit, checked again by recovery

    var root: Tree
    var tx: Option<Transaction>
    ghost var history: seq<Step>

    function Current(): Disk
      reads this
    {
      Disk(root, tx)
    }

    ghost predicate Valid()
      reads this
    {
      && GoodPlan(plan)
      && After(plan, Untouched(plan), history) == Some(Current())
      && Safe(plan, Current())
    }

    constructor (plan: Plan, maxEntries: nat)
      requires GoodPlan(plan)
      ensures Valid() && this.plan == plan && this.maxEntries == maxEntries
      ensures Current() == Untouched(plan) && history == []
    {
      this.plan, this.maxEntries := plan, maxEntries;
      root, tx, history := plan.baseline, None, [];
    }

    /** Whatever was interrupted before: once no transaction directory is left, the project is the
        result if the commit mark was ever written, and the baseline otherwise. */
    lemma Settled()
      requires Valid() && tx.None?
      ensures root == if Commit in history then plan.merged else plan.baseline
    {
      CrashAtomicity(plan, history);
    }

    /** How a procedure may end under at most one failure: the failure is yet to come, or it has
        made the procedure fail and nothing else will go wrong. */
    static ghost predicate OneFault(o: Outcome, rest: Schedule) {
      if o.Done? then FailsOnce(rest) else o.Failed? && Quiet(rest)
    }

    /** One durable step, if the schedule lets it happen. */
    method Attempt(s: Step, faults: Schedule) returns (o: Outcome, rest: Schedule)
      requires Valid() && Enabled(plan, Current(), s)
      modifies this
      ensures Valid() && rest == Rest(faults)
      ensures o == (match Next(faults) case Ok => Done case Fails => Failed case Crashes => Crashed)
      ensures Quiet(faults) ==> o.Done? && Quiet(rest)
      ensures FailsOnce(faults) ==> OneFault(o, rest)
      ensures Current() == if o.Done? then Perform(plan, old(Current()), s) else old(Current())
      ensures history == if o.Done? then old(history) + [s] else old(history)
    {
      rest := Rest(faults);
      match Next(faults) {
        case Ok =>
          StepSafe(plan, Current(), s);
          var d := Perform(plan, Current(), s);
          root, tx := d.root, d.tx;
          history := history + [s];
          o := Done;
        case Fails => o := Failed;
        case Crashes => o := Crashed;
      }
    }

    /** Recursive removal of everything at and below p, one unlink at a time. */
    method RemoveAt(i: nat, p: Path, faults: Schedule) returns (o: Outcome, rest: Schedule)
      requires Valid() && InFlight(Current()) && i < |plan.roots|
      requires i in tx.value.backup || plan.roots[i] !in plan.baseline
      requires Under(plan.roots[i], p)
      modifies this
      ensures Valid() && tx == old(tx)
      ensures Without(root, p) == old(Without(root, p)) && root.Keys <= old(root.Keys)
      ensures o.Done? ==> Subtree(root, p) == map[]
      ensures Quiet(faults) ==> o.Done? && Quiet(rest)
      decreases Subtree(root, p).Keys
    {
      o, rest := Done, faults;
      BelowDirectoriesOnly(root, p);
      if p !in root {
        return;
      }
      if root[p].Directory? {
        var names := ChildNames(root, p);
        while names != {} && o.Done?
          invariant Valid() && tx == old(tx)
          invariant Without(root, p) == old(Without(root, p)) && root.Keys <= old(root.Keys)
          invariant p in root
          invariant o.Done? ==> ChildNames(root, p) <= names
          invariant Quiet(faults) ==> o.Done? && Quiet(rest)
          decreases names, o.Done?
        {
          var n :| n in names;
          ghost var before := root;
          ChildSmaller(old(root), root, p, n);
          o, rest := RemoveAt(i, p + [n], rest);
          ChildRemoved(before, root, p, n);
          names := names - {n};
        }
        if o.Done? {
          NoNamesChildless(root, p);
        }
      }
      if o.Done? {
        Unlinked(root, p);
        o, rest := Attempt(RemoveEntry(i, p), rest);
      }
    }

    /** Undo in reverse order; an entry whose slot is still full goes back, an entry that was
        new is removed, and an original that never left stays where it is. */
    method Rollback(faults: Schedule) returns (o: Outcome, rest: Schedule)
      requires Valid() && InFlight(Current())
      modifies this
      ensures Valid() && InFlight(Current())
      ensures o.Done? ==> forall i :: 0 <= i < |plan.roots| ==> ItemRestored(plan, Current(), i)
      ensures Quiet(faults) ==> o.Done? && Quiet(rest)
    {
      o, rest := Done, faults;
      var items := tx.value.journal.value.items;
      var index: nat := |items|;
      while index > 0 && o.Done?
        invariant Valid() && InFlight(Current()) && items == Items(plan) && index <= |items|
        invariant o.Done? ==> forall i :: index <= i < |items| ==> ItemRestored(plan, Current(), i)
        invariant Quiet(faults) ==> o.Done? && Quiet(rest)
        decreases index, o.Done?
      {
        index := index - 1;
        o, rest := RollbackItem(index, rest);
      }
    }

    method RollbackItem(index: nat, faults: Schedule) returns (o: Outcome, rest: Schedule)
      requires Valid() && InFlight(Current()) && index < |plan.roots|
      modifies this
      ensures Valid() && InFlight(Current())
      ensures o.Done? ==> ItemRestored(plan, Current(), index)
      ensures o.Done? ==> forall i :: index < i < |plan.roots| && old(ItemRestored(plan, Current(), i)) ==> ItemRestored(plan, Current(), i)
      ensures Quiet(faults) ==> o.Done? && Quiet(rest)
    {
      o, rest := Done, faults;
      ghost var before := Current();
      var item := tx.value.journal.value.items[index];
      assert ItemSafe(plan, Current(), index);
      if index in tx.value.backup {
        o, rest := RemoveAt(index, item.path, rest);
        if o.Done? {
          ParentPresent(plan, root, index);
          RestoreSafe(plan, Current(), index);
          o, rest := Attempt(Restore(index), rest);
        }
      } else if !item.original {
        BelowDirectoriesOnly(plan.baseline, item.path);
        o, rest := RemoveAt(index, item.path, rest);
      }
      OtherSubtreesKept(plan, before.root, root, index);
    }

    /** The process dies at the first step after the journal write. */
    static function JournalThenCrash(): Schedule {
      [Ok, Ok, Ok, Crashes]
    }

    /** Stage, journal, swap every affected root and write the commit mark; undo on failure. */
    method SwapAndCommit(faults: Schedule) returns (o: Outcome, rest: Schedule)
      requires Valid() && Current() == Untouched(plan)
      modifies this
      ensures Valid()
      ensures o.Done? ==> IsCommitted(Current())
      ensures o.Failed? ==> !IsCommitted(Current()) && (tx.None? ==> root == plan.baseline)
      ensures faults == JournalThenCrash() ==> o.Crashed? && InFlight(Current())
      ensures FailsOnce(faults) ==> OneFault(o, rest) && (o.Failed? ==> Current() == Untouched(plan))
      ensures Quiet(faults) ==> o.Done? && Quiet(rest)
    {
      o, rest := Begin(faults);
      if o.Done? {
        o, rest := SwapRoots(rest);
        if o.Done? {
          if root == plan.merged {
            o, rest := Attempt(Commit, rest);
          } else {
            o := Failed;
          }
        }
        if o.Failed? {
          o, rest := Abandon(rest);
        }
      }
    }

    /** Everything up to and including the first journal write; a failure before that only
        removes the transaction directory again. */
    method Begin(faults: Schedule) returns (o: Outcome, rest: Schedule)
      requires Valid() && Current() == Untouched(plan)
      modifies this
      ensures Valid() && root == plan.baseline
      ensures o.Done? ==> InFlight(Current()) && forall k :: 0 <= k < |plan.roots| ==> Waiting(k)
      ensures !o.Done? ==> tx.Some? ==> tx.value.journal.None?
      ensures faults == JournalThenCrash() ==> o.Done? && rest == [Crashes]
      ensures FailsOnce(faults) ==> OneFault(o, rest) && (o.Failed? ==> Current() == Untouched(plan))
      ensures Quiet(faults) ==> o.Done? && Quiet(rest)
    {
      o, rest := Attempt(Open, faults);
      if o.Done? {
        o, rest := Attempt(Stage(Staged(plan)), rest);
        if o.Done? {
          var items := JournalItems();
          assert items == Items(plan);
          o, rest := Attempt(WriteJournal, rest);
          forall k | 0 <= k < |plan.roots| {
            StagedRoot(plan, k);
          }
        }
        if o.Failed? {
          var dropped;
          dropped, rest := Attempt(Discard, rest);
          o := if dropped.Crashed? then Crashed else Failed;
        }
      }
    }

    /** The error path after the journal exists: roll back and drop the transaction. */
    method Abandon(faults: Schedule) returns (o: Outcome, rest: Schedule)
      requires Valid() && InFlight(Current())
      modifies this
      ensures Valid() && !o.Done? && !IsCommitted(Current())
      ensures tx.None? ==> root == plan.baseline
      ensures Quiet(faults) ==> o.Failed? && Current() == Untouched(plan) && Quiet(rest)
    {
      o, rest := Rollback(faults);
      if o.Done? {
        RestoredIsBaseline(plan, Current());
        o, rest := Attempt(Discard, rest);
      }
      o := if o.Crashed? then Crashed else Failed;
    }

    /** The journal entries, read off the project and the approved result one root at a time. */
    method JournalItems() returns (items: seq<Item>)
      requires Valid() && root == plan.baseline
      ensures items == Items(plan)
    {
      items := [];
      for index := 0 to |plan.roots|
        invariant items == Items(plan)[..index]
      {
        var exists_, wanted := plan.roots[index] in root, plan.roots[index] in plan.merged;
        items := items + [Item(plan.roots[index], exists_, wanted)];
      }
    }

    /** Root k has its part of the result in the project. */
    ghost predicate Swapped(k: nat)
      requires k < |plan.roots|
      reads this
    {
      Subtree(root, plan.roots[k]) == Subtree(plan.merged, plan.roots[k])
    }

    /** Root k has not been touched and its part of the result waits in the stage. */
    ghost predicate Waiting(k: nat)
      requires k < |plan.roots| && tx.Some?
      reads this
    {
      && k !in tx.value.backup
      && Subtree(root, plan.roots[k]) == Subtree(plan.baseline, plan.roots[k])
      && (plan.roots[k] in plan.merged ==> Subtree(tx.value.stage, plan.roots[k]) == Subtree(plan.merged, plan.roots[k]))
    }

    method SwapRoots(faults: Schedule) returns (o: Outcome, rest: Schedule)
      requires Valid() && InFlight(Current())
      requires forall k :: 0 <= k < |plan.roots| ==> Waiting(k)
      modifies this
      ensures Valid() && InFlight(Current())
      ensures o.Done? ==> root == plan.merged
      ensures faults == [Crashes] ==> o.Crashed? || (o.Done? && rest == faults)
      ensures FailsOnce(faults) ==> OneFault(o, rest)
      ensures Quiet(faults) ==> o.Done? && Quiet(rest)
    {
      o, rest := Done, faults;
      var items := tx.value.journal.value.items;
      var i: nat := 0;
      while i < |items| && o.Done?
        invariant Valid() && InFlight(Current()) && items == Items(plan) && i <= |items|
        invariant o.Done? ==> forall k :: 0 <= k < i ==> Swapped(k)
        invariant o.Done? ==> forall k :: i <= k < |items| ==> Waiting(k)
        invariant faults == [Crashes] ==> o.Crashed? || (o.Done? && rest == faults)
        invariant FailsOnce(faults) ==> OneFault(o, rest)
        invariant Quiet(faults) ==> o.Done? && Quiet(rest)
        decreases |items| - i, o.Done?
      {
        o, rest := SwapRoot(i, items[i], rest);
        i := i + 1;
      }
      if o.Done? {
        forall k | 0 <= k < |plan.roots|
          ensures Subtree(root, plan.roots[k]) == Subtree(plan.merged, plan.roots[k])
        {
          assert Swapped(k);
        }
        forall p | (p in root || p in plan.merged) && Outside(plan, p)
          ensures SameAt(root, plan.merged, p)
        {
          assert SameAt(plan.baseline, root, p);
          assert p in plan.baseline || p in plan.merged;
          assert SameAt(plan.baseline, plan.merged, p);
        }
        TreesEqual(plan, root, plan.merged);
      }
    }

    method SwapRoot(i: nat, item: Item, faults: Schedule) returns (o: Outcome, rest: Schedule)
      requires Valid() && InFlight(Current()) && i < |plan.roots| && item == Items(plan)[i] && Waiting(i)
      modifies this
      ensures Valid() && InFlight(Current())
      ensures o.Done? ==> Swapped(i)
      ensures o.Done? ==> forall k :: 0 <= k < |plan.roots| && k != i && old(Swapped(k)) ==> Swapped(k)
      ensures o.Done? ==> forall k :: 0 <= k < |plan.roots| && k != i && old(Waiting(k)) ==> Waiting(k)
      ensures faults == [Crashes] ==> o.Crashed? || (o.Done? && rest == faults)
      ensures FailsOnce(faults) ==> OneFault(o, rest)
      ensures Quiet(faults) ==> o.Done? && Quiet(rest)
    {
      o, rest := Done, faults;
      ghost var before := Current();
      if item.original {
        o, rest := BackUpRoot(i, rest);
      } else {
        BelowDirectoriesOnly(plan.baseline, plan.roots[i]);
      }
      if o.Done? {
        if item.desired {
          o, rest := InstallRoot(i, rest);
        } else {
          BelowDirectoriesOnly(plan.merged, plan.roots[i]);
        }
        OtherSubtreesKept(plan, before.root, root, i);
        OtherSubtreesKept(plan, before.tx.value.stage, tx.value.stage, i);
      }
    }

    method BackUpRoot(i: nat, faults: Schedule) returns (o: Outcome, rest: Schedule)
      requires Valid() && InFlight(Current()) && i < |plan.roots| && Waiting(i)
      requires plan.roots[i] in plan.baseline
      modifies this
      ensures Valid() && InFlight(Current())
      ensures Without(root, plan.roots[i]) == old(Without(root, plan.roots[i])) && tx.value.stage == old(tx.value.stage)
      ensures forall k :: k != i ==> (k in tx.value.backup <==> k in old(tx.value.backup))
      ensures o.Done? ==> i in tx.value.backup && Subtree(root, plan.roots[i]) == map[]
      ensures faults == [Crashes] ==> o.Crashed?
      ensures FailsOnce(faults) ==> OneFault(o, rest)
      ensures Quiet(faults) ==> o.Done? && Quiet(rest)
    {
      assert plan.roots[i] in Subtree(root, plan.roots[i]);
      MovedAside(root, plan.roots[i]);
      o, rest := Attempt(Backup(i), faults);
    }

    method InstallRoot(i: nat, faults: Schedule) returns (o: Outcome, rest: Schedule)
      requires Valid() && InFlight(Current()) && i < |plan.roots|
      requires plan.roots[i] in plan.merged && Subtree(root, plan.roots[i]) == map[]
      requires Subtree(tx.value.stage, plan.roots[i]) == Subtree(plan.merged, plan.roots[i])
      requires plan.roots[i] in plan.baseline ==> i in tx.value.backup
      modifies this
      ensures Valid() && InFlight(Current()) && tx.value.backup == old(tx.value.backup)
      ensures Without(root, plan.roots[i]) == old(Without(root, plan.roots[i]))
      ensures Without(tx.value.stage, plan.roots[i]) == old(Without(tx.value.stage, plan.roots[i]))
      ensures o.Done? ==> Swapped(i)
      ensures faults == [Crashes] ==> o.Crashed?
      ensures FailsOnce(faults) ==> OneFault(o, rest)
      ensures Quiet(faults) ==> o.Done? && Quiet(rest)
    {
      ParentPresent(plan, root, i);
      assert plan.roots[i] in Subtree(tx.value.stage, plan.roots[i]);
      SubtreeHangs(plan.merged, plan.roots[i]);
      InstallSafe(plan, Current(), i);
      MovedAside(tx.value.stage, plan.roots[i]);
      o, rest := Attempt(Install(i), faults);
    }

    /** Bring an interrupted transaction to an end. Interruptions of recovery itself leave the
        project recoverable, and the first call that completes settles it. */
    method RecoverLocked(faults: Schedule) returns (o: Outcome, rest: Schedule)
      requires Valid()
      modifies this
      ensures Valid()
      ensures o.Done? ==> tx.None?
      ensures o.Done? ==> root == if old(IsCommitted(Current())) then plan.merged else if old(tx.None?) then old(root) else plan.baseline
      ensures old(tx.None? || IsCommitted(Current())) ==> root == old(root) && (tx.None? || tx == old(tx))
      ensures old(tx.None?) ==> o.Done? && rest == faults && Current() == old(Current())
      ensures !old(Admitted(plan, Current(), maxEntries)) ==> o.Failed? && Current() == old(Current())
      ensures Quiet(faults) ==> Quiet(rest) && (o.Done? <==> old(Admitted(plan, Current(), maxEntries)))
    {
      o, rest := Done, faults;
      if tx.Some? {
        if tx.value.journal.Some? && |tx.value.journal.value.items| > maxEntries {
          o := Failed;
          return;
        }
        if InFlight(Current()) {
          o, rest := Rollback(rest);
        }
        if o.Done? {
          if InFlight(Current()) {
            RestoredIsBaseline(plan, Current());
          }
          o, rest := Attempt(Discard, rest);
        }
      }
    }

    /** The whole locked apply: settle what an earlier run left, insist on the approved
        baseline, swap and commit. A leftover committed transaction directory is harmless. */
    method Apply(faults: Schedule) returns (o: Outcome, rest: Schedule)
      requires Valid()
      modifies this
      ensures Valid()
      ensures o.Done? ==> root == plan.merged && (tx.None? || IsCommitted(Current()))
      ensures o.Failed? && tx.None? ==> root == plan.baseline || root == plan.merged
      ensures !old(Admitted(plan, Current(), maxEntries)) ==> o.Failed? && Current() == old(Current())
      ensures old(Current()) == Untouched(plan) && faults == JournalThenCrash() ==> o.Crashed? && InFlight(Current())
      ensures old(Current()) == Untouched(plan) && FailsOnce(faults) ==> o.Done? || (o.Failed? && Current() == Untouched(plan))
      ensures Quiet(faults) && old(Admitted(plan, Current(), maxEntries)) ==>
        (o.Done? <==> plan.baseline == (if old(IsCommitted(Current())) then plan.merged else if old(tx.None?) then old(root) else plan.baseline))
    {
      o, rest := RecoverLocked(faults);
      if o.Done? {
        if root != plan.baseline {
          o := Failed;
          return;
        }
        o, rest := SwapAndCommit(rest);
        if o.Done? {
          var dropped;
          dropped, rest := Attempt(Discard, rest);
          if dropped.Crashed? {
            o := Crashed;
          }
        }
      }
    }

    /** Recovery can refuse exactly the plans over the limit: an apply of such a plan that dies
        after the journal write leaves a transaction that no recovery and no later apply, under
        any schedule, will touch; for every other plan the next undisturbed recovery goes through. */
    method Strand(recovery: Schedule, again: Schedule) returns (recovered: Outcome, applied: Outcome)
      requires Valid() && Current() == Untouched(plan)
      modifies this
      ensures Valid()
      ensures |plan.roots| > maxEntries ==> recovered.Failed? && applied.Failed? && InFlight(Current())
      ensures |plan.roots| <= maxEntries && Quiet(recovery) ==> recovered.Done?
    {
      var _, _ := Apply(JournalThenCrash());
      var rest;
      recovered, rest := RecoverLocked(recovery);
      applied, rest := Apply(again);
    }
  }

  /** So a project of one file, with a limit of one file, is stranded by a crash while that file
      is replaced. */
  method StrandedByAdmission() returns (host: ProjectHost, recovered: Outcome)
    ensures fresh(host) && host.Valid() && host.plan == FileReplaced()
    ensures host.maxEntries == 1 && |host.plan.baseline| <= 1 && |host.plan.merged| <= 1
    ensures recovered.Failed? && InFlight(host.Current())
  {
    AdmissionCanFail();
    host := new ProjectHost(FileReplaced(), 1);
    var applied;
    recovered, applied := host.Strand([], []);
  }
}
