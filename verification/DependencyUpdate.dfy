/** The dependency update of internal/cli/version_commands.go: an undo/redo journal over every
    project policy, the version lock file and the active binding. */
module DependencyUpdate {
  import opened Faults

  type Id = string

  datatype Manifest = Manifest(digest: string, versions: string)

  datatype Lock = Lock(generation: nat, manifest: Manifest)

  /** A version lock in an older format: it decodes to a current manifest, but the digest that
      policies and bindings were pinned to is the one of its own encoding. */
  datatype LegacyFile = LegacyFile(generation: nat, manifest: Manifest, digest: string)

  datatype LockFile = Missing | Current(lock: Lock) | Legacy(file: LegacyFile)

  datatype Binding = Binding(generation: nat, digest: string, versions: string)

  datatype Dependency = Dependency(digest: string, versions: string)

  datatype Policy = Policy(dependency: Dependency, settings: string)

  datatype LegacySource = LegacySource(file: LegacyFile, binding: Binding)

  datatype Phase = Prepared | CommitDecided

  datatype Journal = Journal(
    phase: Phase, sourceActive: bool, source: Lock, target: Lock, projects: seq<Id>, legacy: Option<LegacySource>)

  datatype State = State(policies: map<Id, Policy>, lockFile: LockFile, binding: Option<Binding>, journal: Option<Journal>)

  const MAX_PROJECTS := 256

  function BindingOf(lock: Lock): Binding {
    Binding(lock.generation, lock.manifest.digest, lock.manifest.versions)
  }

  function DependencyOf(manifest: Manifest): Dependency {
    Dependency(manifest.digest, manifest.versions)
  }

  // ----- What recovery chooses -----

  /** Recovery accepts the journal's legacy source only if its binding is the legacy one. */
  predicate LegacyReadable(j: Journal) {
    j.legacy.Some? ==>
      var file, binding := j.legacy.value.file, j.legacy.value.binding;
      && j.sourceActive
      && file.generation == j.target.generation && file.manifest == j.target.manifest
      && binding == Binding(file.generation, file.digest, file.manifest.versions)
  }

  predicate Readable(j: Journal) {
    |j.projects| <= MAX_PROJECTS && LegacyReadable(j)
  }

  function ChosenLock(j: Journal): Lock {
    if j.phase == CommitDecided then j.target else j.source
  }

  function ChosenDependency(j: Journal): Dependency {
    if j.legacy.Some? && j.phase == Prepared then
      Dependency(j.legacy.value.file.digest, j.legacy.value.binding.versions)
    else
      DependencyOf(ChosenLock(j).manifest)
  }

  function ChosenFile(j: Journal): LockFile {
    if j.legacy.Some? && j.phase == Prepared then Legacy(j.legacy.value.file)
    else if j.sourceActive || j.phase == CommitDecided then Current(ChosenLock(j))
    else Missing
  }

  function ChosenBinding(j: Journal): Option<Binding> {
    if j.legacy.Some? && j.phase == Prepared then Some(j.legacy.value.binding)
    else if j.sourceActive || j.phase == CommitDecided then Some(BindingOf(ChosenLock(j)))
    else None
  }

  function Repointed(policies: map<Id, Policy>, paths: seq<Id>, d: Dependency): map<Id, Policy> {
    map p | p in policies :: if p in paths then policies[p].(dependency := d) else policies[p]
  }

  /** Where the state goes if recovery completes. It depends on what is on disk now, not on how
      it came to be there. */
  function Resolved(s: State): State {
    if s.journal.None? then s
    else
      var j := s.journal.value;
      State(Repointed(s.policies, j.projects, ChosenDependency(j)), ChosenFile(j), ChosenBinding(j), None)
  }

  // ----- Agreement -----

  /** Lock file, binding and every project policy name one dependency set; or nothing is active. */
  predicate Agrees(s: State) {
    match s.lockFile
    case Current(lock) => s.binding == Some(BindingOf(lock)) && AllOn(s, DependencyOf(lock.manifest))
    case Legacy(file) => s.binding == Some(Binding(file.generation, file.digest, file.manifest.versions))
      && AllOn(s, Dependency(file.digest, file.manifest.versions))
    case Missing => s.binding.None?
  }

  predicate AllOn(s: State, d: Dependency) {
    forall p :: p in s.policies ==> s.policies[p].dependency == d
  }

  /** A journal for an update that starts from s: its source is what s has active. */
  predicate StartsFrom(s: State, j: Journal) {
    && j.phase == Prepared
    && (j.legacy.Some? ==> s.lockFile == Legacy(j.legacy.value.file) && s.binding == Some(j.legacy.value.binding) && j.sourceActive)
    && (j.legacy.None? ==> if j.sourceActive then s.lockFile == Current(j.source) && s.binding == Some(BindingOf(j.source))
                           else s.lockFile.Missing? && s.binding.None?)
  }

  /** The result of the update, and what a rollback leaves, as states without a journal. */
  function Updated(s: State, j: Journal): State {
    Resolved(s.(journal := Some(j.(phase := CommitDecided))))
  }

  function RolledBack(s: State, j: Journal): State {
    Resolved(s.(journal := Some(j.(phase := Prepared))))
  }

  /** Rolling back restores the start exactly, provided the project policies agreed with the source. */
  lemma RollbackRestores(s: State, j: Journal)
    requires StartsFrom(s, j) && s.journal.None?
    requires forall p :: p in j.projects && p in s.policies ==>
      var d := s.policies[p].dependency;
      if j.legacy.Some? then d.digest == j.legacy.value.file.digest && d.versions == j.legacy.value.binding.versions
      else d.digest == j.source.manifest.digest && d.versions == j.source.manifest.versions
    ensures RolledBack(s, j) == s
  {
    assert j.(phase := Prepared) == j;
    forall p | p in s.policies && p in j.projects
      ensures s.policies[p].(dependency := ChosenDependency(j)) == s.policies[p]
    {
    }
  }

  /** Both ends of an update over every project agree, whatever the policies said before. */
  lemma EndsAgree(s: State, j: Journal)
    requires forall p :: p in s.policies ==> p in j.projects
    ensures Agrees(Updated(s, j))
    ensures LegacyReadable(j) ==> Agrees(RolledBack(s, j))
  {
  }

  // ----- Setup's guard against recovery's -----

  /** The binding setup accepts beside a legacy lock file of the same manifest. */
  predicate SetupAccepts(binding: Binding, file: LegacyFile, manifest: Manifest) {
    binding == BindingOf(Lock(binding.generation, manifest)) || binding == Binding(file.generation, file.digest, manifest.versions)
  }

  function MigrationJournal(target: Lock, projects: seq<Id>, source: LegacySource): Journal {
    Journal(Prepared, true, target, target, projects, Some(source))
  }

  /** A migration that setup starts can be recovered exactly when the binding is the legacy one
      and there are not too many projects. */
  lemma MigrationRecoverable(file: LegacyFile, binding: Binding, projects: seq<Id>)
    requires SetupAccepts(binding, file, file.manifest)
    ensures Readable(MigrationJournal(Lock(file.generation, file.manifest), projects, LegacySource(file, binding)))
      <==> |projects| <= 256 && binding.generation == file.generation && binding.digest == file.digest
  {
  }

  /** Setup also accepts a binding that already names the current manifest. An interruption of
      that migration leaves a journal every later recovery refuses. */
  lemma SetupCanStrand()
    ensures var file, binding := LegacyFile(1, Manifest("new", "v"), "old"), Binding(1, "new", "v");
      && SetupAccepts(binding, file, file.manifest)
      && !Readable(MigrationJournal(Lock(file.generation, file.manifest), [], LegacySource(file, binding)))
  {
    var file, binding := LegacyFile(1, Manifest("new", "v"), "old"), Binding(1, "new", "v");
    assert SetupAccepts(binding, file, file.manifest);
    MigrationRecoverable(file, binding, []);
  }

  // ----- What an update does -----

  /** An update can start: there are not too many projects, and either a lock in the current format
      is active, or nothing is and every policy is on the bootstrap dependency. */
  predicate Updatable(s: State, bootstrap: Manifest) {
    && |s.policies| <= 256
    && (s.lockFile.Current? || (s.lockFile.Missing? && AllOn(s, Dependency(bootstrap.digest, bootstrap.versions))))
  }

  /** Lock file, binding and every policy name the target; nothing else in the policies has changed,
      and no journal is left. */
  predicate MovedTo(before: State, after: State, generation: nat, target: Manifest) {
    && after.journal.None?
    && after.lockFile.Current? && after.lockFile.lock == Lock(generation, target)
    && after.binding == Some(Binding(generation, target.digest, target.versions))
    && after.policies.Keys == before.policies.Keys
    && forall p :: p in after.policies ==>
      && after.policies[p].dependency == Dependency(target.digest, target.versions)
      && after.policies[p].settings == before.policies[p].settings
  }

  /** A migration keeps the generation and the manifest of the file in the old format. */
  predicate Migrated(before: State, after: State) {
    before.lockFile.Legacy? && MovedTo(before, after, before.lockFile.file.generation, before.lockFile.file.manifest)
  }

  /** An update makes the generation after the active one, or the first. */
  function NextGeneration(s: State): (generation: nat)
    ensures s.lockFile.Current? ==> generation == s.lockFile.lock.generation + 1
    ensures !s.lockFile.Current? ==> generation == 1
  {
    if s.lockFile.Current? then s.lockFile.lock.generation + 1 else 1
  }

  lemma UpdatedMoves(s: State, j: Journal)
    requires s.journal.None? && forall p :: p in s.policies ==> p in j.projects
    ensures MovedTo(s, Updated(s, j), j.target.generation, j.target.manifest)
  {
  }

  // ----- The procedures -----

  datatype Project = Project(path: Id, policy: Policy)

  class DependencyStore {
    var policies: map<Id, Policy>
    var lockFile: LockFile
    var binding: Option<Binding>
    var journal: Option<Journal>

    function Now(): State
      reads this
    {
      State(policies, lockFile, binding, journal)
    }

    constructor (s: State)
      ensures Now() == s
    {
      policies, lockFile, binding, journal := s.policies, s.lockFile, s.binding, s.journal;
    }

    /** One atomic write or removal. */
    method Write(next: State, faults: Schedule) returns (o: Outcome, rest: Schedule)
      modifies this
      ensures Now() == if o.Done? then next else old(Now())
      ensures rest == Rest(faults)
      ensures o == (match Next(faults) case Ok => Done case Fails => Failed case Crashes => Crashed)
      ensures Quiet(faults) ==> o.Done? && Quiet(rest)
    {
      rest := Rest(faults);
      match Next(faults) {
        case Ok =>
          policies, lockFile, binding, journal := next.policies, next.lockFile, next.binding, next.journal;
          o := Done;
        case Fails => o := Failed;
        case Crashes => o := Crashed;
      }
    }

    method SavePolicy(path: Id, policy: Policy, faults: Schedule) returns (o: Outcome, rest: Schedule)
      modifies this
      ensures Now() == if o.Done? then old(Now()).(policies := old(policies)[path := policy]) else old(Now())
      ensures faults == [Crashes] ==> o.Crashed?
      ensures Quiet(faults) ==> o.Done? && Quiet(rest)
      ensures FailsOnce(faults) ==> (o.Done? && FailsOnce(rest)) || (o.Failed? && Quiet(rest))
    {
      o, rest := Write(Now().(policies := policies[path := policy]), faults);
    }

    /** Lock file first, then the binding: whenever the binding is new, so is the lock file. */
    method Activate(file: LockFile, active: Binding, faults: Schedule) returns (o: Outcome, rest: Schedule)
      modifies this
      ensures policies == old(policies) && journal == old(journal)
      ensures o.Done? ==> lockFile == file && binding == Some(active)
      ensures !o.Done? ==> (lockFile == old(lockFile) || lockFile == file) && binding == old(binding)
      ensures Quiet(faults) ==> o.Done? && Quiet(rest)
    {
      o, rest := Write(Now().(lockFile := file), faults);
      if o.Done? {
        o, rest := Write(Now().(binding := Some(active)), rest);
      }
    }

    method ClearActivation(faults: Schedule) returns (o: Outcome, rest: Schedule)
      modifies this
      ensures policies == old(policies) && journal == old(journal)
      ensures o.Done? ==> lockFile.Missing? && binding.None?
      ensures old(lockFile.Missing? && binding.None?) ==> lockFile.Missing? && binding.None?
      ensures Quiet(faults) ==> o.Done? && Quiet(rest)
    {
      o, rest := Done, faults;
      if !lockFile.Missing? {
        o, rest := Write(Now().(lockFile := Missing), rest);
      }
      if o.Done? && binding.Some? {
        o, rest := Write(Now().(binding := None), rest);
      }
    }

    method RemoveJournal(faults: Schedule) returns (o: Outcome, rest: Schedule)
      modifies this
      ensures Now() == if o.Done? then old(Now()).(journal := None) else old(Now())
      ensures Quiet(faults) ==> o.Done? && Quiet(rest)
    {
      o, rest := Write(Now().(journal := None), faults);
    }

    /** Rewriting the dependency of the first k projects changes nothing else. */
    lemma RepointedPrefix(before: map<Id, Policy>, paths: seq<Id>, d: Dependency, k: nat)
      requires k < |paths| && paths[k] in before
      ensures Repointed(before, paths[..k], d)[paths[k] := before[paths[k]].(dependency := d)] == Repointed(before, paths[..k + 1], d)
    {
      assert paths[..k + 1] == paths[..k] + [paths[k]];
    }

    /** Point every project the journal names at the chosen dependency. */
    method RepointAll(paths: seq<Id>, d: Dependency, faults: Schedule) returns (o: Outcome, rest: Schedule)
      modifies this
      ensures lockFile == old(lockFile) && binding == old(binding) && journal == old(journal)
      ensures exists k: nat :: k <= |paths| && policies == Repointed(old(policies), paths[..k], d)
      ensures o.Done? ==> policies == Repointed(old(policies), paths, d)
      ensures Quiet(faults) ==> Quiet(rest) && (o.Done? <==> forall p :: p in paths ==> p in old(policies))
    {
      o, rest := Done, faults;
      var k: nat := 0;
      assert policies == Repointed(policies, paths[..0], d);
      while k < |paths|
        invariant k <= |paths| && o.Done?
        invariant lockFile == old(lockFile) && binding == old(binding) && journal == old(journal)
        invariant policies == Repointed(old(policies), paths[..k], d)
        invariant forall p :: p in paths[..k] ==> p in old(policies)
        invariant Quiet(faults) ==> Quiet(rest)
      {
        if paths[k] !in policies {
          assert paths[k] in paths;
          o := Failed;
          return;
        }
        RepointedPrefix(old(policies), paths, d, k);
        o, rest := SavePolicy(paths[k], policies[paths[k]].(dependency := d), rest);
        if !o.Done? {
          return;
        }
        assert paths[..k + 1] == paths[..k] + [paths[k]];
        k := k + 1;
      }
      assert paths[..k] == paths;
    }

    /** Settle an interrupted update. The first recovery that completes ends exactly where the
        journal and the disk said it would, however many were interrupted before it. */
    method Recover(faults: Schedule) returns (o: Outcome, recovered: bool, rest: Schedule)
      modifies this
      ensures Resolved(Now()) == old(Resolved(Now()))
      ensures recovered <==> o.Done? && old(journal).Some?
      ensures o.Done? ==> Now() == old(Resolved(Now()))
      ensures !o.Done? ==> journal == old(journal)
      ensures policies.Keys == old(policies.Keys)
      ensures old(journal.Some? && !Readable(journal.value)) ==> o.Failed? && Now() == old(Now())
      ensures old(journal.None?) ==> o.Done? && rest == faults
      ensures Quiet(faults) ==> Quiet(rest) && (o.Done? <==>
        old(journal.Some? ==> Readable(journal.value) && forall p :: p in journal.value.projects ==> p in policies))
    {
      o, recovered, rest := Done, false, faults;
      if journal.None? {
        return;
      }
      var j := journal.value;
      if !Readable(j) {
        o := Failed;
        return;
      }
      o, rest := RepointAll(j.projects, ChosenDependency(j), rest);
      RepointedTwice(old(policies), j.projects, ChosenDependency(j));
      if o.Done? {
        o, rest := RestoreActivation(j, rest);
      }
      if o.Done? {
        o, rest := RemoveJournal(rest);
      }
      recovered := o.Done?;
    }

    lemma RepointedTwice(policies: map<Id, Policy>, paths: seq<Id>, d: Dependency)
      ensures forall k :: 0 <= k <= |paths| ==> Repointed(Repointed(policies, paths[..k], d), paths, d) == Repointed(policies, paths, d)
    {
    }

    method RestoreActivation(j: Journal, faults: Schedule) returns (o: Outcome, rest: Schedule)
      modifies this
      ensures policies == old(policies) && journal == old(journal)
      ensures o.Done? ==> lockFile == ChosenFile(j) && binding == ChosenBinding(j)
      ensures Quiet(faults) ==> o.Done? && Quiet(rest)
    {
      if j.legacy.Some? && j.phase == Prepared {
        o, rest := Activate(Legacy(j.legacy.value.file), j.legacy.value.binding, faults);
      } else if j.sourceActive || j.phase == CommitDecided {
        o, rest := Activate(Current(ChosenLock(j)), BindingOf(ChosenLock(j)), faults);
      } else {
        o, rest := ClearActivation(faults);
      }
    }

    /** The projects carry the policies now on disk. */
    ghost predicate Loaded(projects: seq<Project>)
      reads this
    {
      forall project :: project in projects ==> project.path in policies && policies[project.path] == project.policy
    }

    static ghost predicate OnePolicyEach(projects: seq<Project>) {
      forall i, j :: 0 <= i < |projects| && 0 <= j < |projects| && projects[i].path == projects[j].path ==> projects[i] == projects[j]
    }

    /** Same projects and the same settings; only dependencies may differ. */
    ghost predicate OnlyDependencies(before: map<Id, Policy>)
      reads this
    {
      policies.Keys == before.Keys && forall p :: p in before ==> policies[p] == before[p].(dependency := policies[p].dependency)
    }

    static function Paths(projects: seq<Project>): (paths: seq<Id>)
      ensures |paths| == |projects|
      ensures forall k :: 0 <= k < |projects| ==> paths[k] == projects[k].path
    {
      seq(|projects|, k requires 0 <= k < |projects| => projects[k].path)
    }

    /** Everything is as it was, except that the journal may be left. An update from the old format
        is undone by a recovery, which goes through if it can read the journal. */
    ghost predicate UndoneTo(before: State, j: Journal)
      reads this
    {
      Now() == before ||
      if j.legacy.None? then Now() == before.(journal := Some(j))
      else if Readable(j) then Now() == RolledBack(before, j)
      else journal == Some(j)
    }

    /** Commit an update. On every outcome the state is one that recovery takes to the target if
        the commit was decided and back to the source if it was not. A single failure before the
        decision is undone at once. */
    method Commit(current: Lock, target: Lock, sourceActive: bool, projects: seq<Project>, legacy: Option<LegacySource>, faults: Schedule)
      returns (o: Outcome, decided: bool, rest: Schedule)
      requires journal.None? ==> Loaded(projects) && StartsFrom(Now(), Journal(Prepared, sourceActive, current, target, Paths(projects), legacy))
      modifies this
      ensures policies.Keys == old(policies.Keys)
      ensures old(journal.Some?) ==> o.Failed? && !decided && Now() == old(Now())
      ensures old(journal.None?) ==>
        var j := Journal(Prepared, sourceActive, current, target, Paths(projects), legacy);
        && (journal.Some? ==> journal.value.(phase := Prepared) == j)
        && (o.Done? ==> decided && Now() == old(Updated(Now(), j)))
        && (decided ==> Resolved(Now()) == old(Updated(Now(), j)) && (o.Done? || journal == Some(j.(phase := CommitDecided))))
        && (!decided ==> Now() == old(Now()) || Resolved(Now()) == old(RolledBack(Now(), j)))
        && (faults == [Ok, Crashes] ==> o.Crashed? && Now() == old(Now()).(journal := Some(j)))
      ensures Quiet(faults) && old(journal.None?) ==> o.Done?
      ensures FailsOnce(faults) && old(journal.None?) && !decided ==>
        UndoneTo(old(Now()), Journal(Prepared, sourceActive, current, target, Paths(projects), legacy))
    {
      o, decided, rest := Done, false, faults;
      if journal.Some? {
        o := Failed;
        return;
      }
      var j := CollectJournal(current, target, sourceActive, projects, legacy);
      ghost var start := Now();
      o, rest := Write(Now().(journal := Some(j)), rest);
      if !o.Done? {
        return;
      }
      o, decided, rest := MoveAndDecide(j, projects, rest);
      SameEnds(start, Now(), j);
      if o.Failed? {
        o, rest := Undo(j, projects, rest);
        PutBackMeansEqual(start.policies, policies, projects);
      } else if o.Done? {
        o, rest := FinishCommit(j, rest);
      }
    }

    /** Move every policy and mark the journal as decided. */
    method MoveAndDecide(j: Journal, projects: seq<Project>, faults: Schedule) returns (o: Outcome, decided: bool, rest: Schedule)
      requires journal == Some(j) && j.phase == Prepared && j.projects == Paths(projects) && Loaded(projects)
      modifies this
      ensures decided <==> o.Done?
      ensures lockFile == old(lockFile) && binding == old(binding)
      ensures journal == Some(if decided then j.(phase := CommitDecided) else j)
      ensures OnlyDependencies(old(policies))
      ensures forall p :: p in policies && p !in j.projects ==> policies[p] == old(policies)[p]
      ensures decided ==> policies == Repointed(old(policies), j.projects, DependencyOf(j.target.manifest))
      ensures faults == [Crashes] ==> o.Crashed? && Now() == old(Now())
      ensures Quiet(faults) ==> decided && Quiet(rest)
      ensures FailsOnce(faults) ==> decided || (o.Failed? && Quiet(rest))
    {
      o, rest := MoveProjects(projects, DependencyOf(j.target.manifest), faults);
      if o.Done? {
        o, rest := Write(Now().(journal := Some(j.(phase := CommitDecided))), rest);
      }
      decided := o.Done?;
    }

    /** The listed policies are back, and no other has changed. */
    lemma PutBackMeansEqual(before: map<Id, Policy>, after: map<Id, Policy>, projects: seq<Project>)
      ensures
        && before.Keys == after.Keys
        && (forall p :: p in after && p !in Paths(projects) ==> after[p] == before[p])
        && (forall project :: project in projects ==>
          project.path in before && before[project.path] == project.policy == after[project.path])
        ==> before == after
    {
    }

    method CollectJournal(current: Lock, target: Lock, sourceActive: bool, projects: seq<Project>, legacy: Option<LegacySource>)
      returns (j: Journal)
      ensures j == Journal(Prepared, sourceActive, current, target, Paths(projects), legacy)
    {
      var paths: seq<Id> := [];
      for k := 0 to |projects|
        invariant paths == Paths(projects)[..k]
      {
        paths := paths + [projects[k].path];
      }
      j := Journal(Prepared, sourceActive, current, target, paths, legacy);
    }

    /** Where an update can end depends only on the settings of the policies. */
    lemma SameEnds(start: State, s: State, j: Journal)
      requires start.policies.Keys == s.policies.Keys
      requires forall p :: p in s.policies ==> s.policies[p].settings == start.policies[p].settings
      requires forall p :: p in s.policies && p !in j.projects ==> s.policies[p] == start.policies[p]
      ensures Updated(s, j) == Updated(start, j) && RolledBack(s, j) == RolledBack(start, j)
    {
    }

    /** Save every listed policy with the new dependency. */
    method MoveProjects(projects: seq<Project>, d: Dependency, faults: Schedule) returns (o: Outcome, rest: Schedule)
      requires Loaded(projects)
      modifies this
      ensures lockFile == old(lockFile) && binding == old(binding) && journal == old(journal)
      ensures OnlyDependencies(old(policies))
      ensures forall p :: p in policies && p !in Paths(projects) ==> policies[p] == old(policies)[p]
      ensures o.Done? ==> policies == Repointed(old(policies), Paths(projects), d)
      ensures faults == [Crashes] ==> policies == old(policies) && (o.Crashed? || (o.Done? && rest == faults))
      ensures Quiet(faults) ==> o.Done? && Quiet(rest)
      ensures FailsOnce(faults) ==> (o.Done? && FailsOnce(rest)) || (o.Failed? && Quiet(rest))
    {
      o, rest := Done, faults;
      var k: nat := 0;
      ghost var paths := Paths(projects);
      while k < |projects| && o.Done?
        invariant k <= |projects|
        invariant lockFile == old(lockFile) && binding == old(binding) && journal == old(journal)
        invariant exists n: nat :: n <= k && policies == Repointed(old(policies), paths[..n], d)
        invariant o.Done? ==> policies == Repointed(old(policies), paths[..k], d)
        invariant faults == [Crashes] ==> policies == old(policies) && (o.Crashed? || (o.Done? && rest == faults))
        invariant Quiet(faults) ==> o.Done? && Quiet(rest)
        invariant FailsOnce(faults) ==> (o.Done? && FailsOnce(rest)) || (o.Failed? && Quiet(rest))
        decreases |projects| - k, o.Done?
      {
        assert projects[k] in projects && paths[k] == projects[k].path;
        RepointedPrefix(old(policies), paths, d, k);
        o, rest := SavePolicy(projects[k].path, projects[k].policy.(dependency := d), rest);
        k := k + 1;
      }
      assert paths[..|projects|] == paths;
    }

    /** The in-process undo after a failure before the decision. Its own failures are ignored,
        and it leaves the journal for the next recovery. */
    method Undo(j: Journal, projects: seq<Project>, faults: Schedule) returns (o: Outcome, rest: Schedule)
      requires journal == Some(j) && j.phase == Prepared && j.projects == Paths(projects)
      requires forall project :: project in projects ==> project.path in policies && policies[project.path].settings == project.policy.settings
      requires OnePolicyEach(projects)
      modifies this
      ensures !o.Done? && policies.Keys == old(policies.Keys) && (journal.None? || journal == old(journal))
      ensures Quiet(faults) && j.legacy.None? ==>
        Loaded(projects) && lockFile == ChosenFile(j) && binding == ChosenBinding(j) && journal == Some(j)
      ensures Quiet(faults) && j.legacy.Some? ==> if Readable(j) then Now() == old(Resolved(Now())) else journal == Some(j)
      ensures Quiet(faults) ==> o.Failed?
      ensures j.legacy.None? ==> forall p :: p in policies && p !in j.projects ==> policies[p] == old(policies)[p]
      ensures Resolved(Now()) == old(Resolved(Now()))
    {
      if j.legacy.Some? {
        var recovered;
        o, recovered, rest := Recover(faults);
        o := if o.Crashed? then Crashed else Failed;
        return;
      }
      o, rest := PutBack(j, projects, faults);
      if !o.Crashed? {
        if j.sourceActive {
          o, rest := Write(Now().(lockFile := Current(j.source)), rest);
          if !o.Crashed? {
            o, rest := Write(Now().(binding := Some(BindingOf(j.source))), rest);
          }
        } else {
          o, rest := ClearActivation(rest);
        }
      }
      o := if o.Crashed? then Crashed else Failed;
    }

    method PutBack(j: Journal, projects: seq<Project>, faults: Schedule) returns (o: Outcome, rest: Schedule)
      requires journal == Some(j) && j.projects == Paths(projects)
      requires forall project :: project in projects ==> project.path in policies && policies[project.path].settings == project.policy.settings
      requires OnePolicyEach(projects)
      modifies this
      ensures Quiet(faults) ==> Loaded(projects) && Quiet(rest) && o.Done?
      ensures journal == old(journal) && policies.Keys == old(policies.Keys)
      ensures forall p :: p in policies && p !in j.projects ==> policies[p] == old(policies)[p]
      ensures Resolved(Now()) == old(Resolved(Now()))
    {
      o, rest := Done, faults;
      var k: nat := 0;
      while k < |projects| && !o.Crashed?
        invariant k <= |projects| && journal == old(journal) && policies.Keys == old(policies.Keys)
        invariant forall p :: p in policies && p !in j.projects ==> policies[p] == old(policies)[p]
        invariant Resolved(Now()) == old(Resolved(Now()))
        invariant forall p :: p in policies ==> policies[p].settings == old(policies)[p].settings
        invariant Quiet(faults) ==> Quiet(rest) && o.Done?
        invariant Quiet(faults) ==> forall i :: 0 <= i < k ==> policies[projects[i].path] == projects[i].policy
        decreases |projects| - k, !o.Crashed?
      {
        assert projects[k] in projects && projects[k].path == Paths(projects)[k];
        o, rest := SavePolicy(projects[k].path, projects[k].policy, rest);
        k := k + 1;
      }
    }

    method FinishCommit(j: Journal, faults: Schedule) returns (o: Outcome, rest: Schedule)
      requires journal == Some(j.(phase := CommitDecided))
      requires policies == Repointed(policies, j.projects, DependencyOf(j.target.manifest))
      modifies this
      ensures policies == old(policies) && Resolved(Now()) == old(Resolved(Now()))
      ensures !o.Done? ==> journal == old(journal)
      ensures o.Done? ==> Now() == old(Resolved(Now()))
      ensures Quiet(faults) ==> o.Done?
    {
      o, rest := Activate(Current(j.target), BindingOf(j.target), faults);
      if o.Done? {
        o, rest := RemoveJournal(rest);
      }
    }

    /** Every registered policy must be on the current dependency before an update starts. */
    method Inventory(current: Manifest) returns (ok: bool, projects: seq<Project>)
      ensures ok <==> AllOn(Now(), DependencyOf(current)) && |policies| <= MAX_PROJECTS
      ensures ok ==> Loaded(projects) && |projects| == |policies| && forall p :: p in policies ==> p in Paths(projects)
    {
      projects := [];
      var left := policies.Keys;
      if |left| > MAX_PROJECTS {
        return false, projects;
      }
      while left != {}
        invariant left <= policies.Keys && Loaded(projects) && |projects| + |left| == |policies|
        invariant forall p :: p in policies && p !in left ==> p in Paths(projects) && policies[p].dependency == DependencyOf(current)
      {
        var p :| p in left;
        if policies[p].dependency != DependencyOf(current) {
          return false, projects;
        }
        ghost var before := projects;
        projects := projects + [Project(p, policies[p])];
        assert forall q :: q in Paths(before) ==> q in Paths(projects) by {
          assert Paths(projects) == Paths(before) + [p];
        }
        assert Paths(projects)[|before|] == p;
        left := left - {p};
      }
      ok := true;
    }

    /** What holds between any two commands: recovery would read the journal, if there is one,
        and would end in agreement. */
    ghost predicate Sound()
      reads this
    {
      && Agrees(Resolved(Now()))
      && (journal.Some? ==> Readable(journal.value) && forall p :: p in journal.value.projects ==> p in policies)
    }

    /** update apply, from whatever an earlier run left: recover, check that the active lock, the
        binding and every policy agree, commit. However it ends, the state is sound again. An
        undisturbed run leaves no journal, and moves everything to the target exactly if recovery
        ends in a state that can be updated. */
    method UpdateApply(bootstrap: Manifest, target: Manifest, faults: Schedule) returns (o: Outcome, rest: Schedule)
      requires Sound()
      modifies this
      ensures Sound() && policies.Keys == old(policies.Keys)
      ensures o.Done? ==> MovedTo(old(Resolved(Now())), Now(), NextGeneration(old(Resolved(Now()))), target)
      ensures Quiet(faults) ==> journal.None? && (o.Done? <==> Updatable(old(Resolved(Now())), bootstrap))
      ensures FailsOnce(faults) && old(journal.None?) && !(journal.Some? && journal.value.phase == CommitDecided) ==>
        o.Done? || Now().(journal := None) == old(Now())
    {
      var recovered;
      o, recovered, rest := Recover(faults);
      if !o.Done? {
        return;
      }
      var current, active := Lock(0, bootstrap), false;
      match lockFile {
        case Missing =>
          if binding.Some? {
            o := Failed;
            return;
          }
        case Current(lock) =>
          if binding != Some(BindingOf(lock)) {
            o := Failed;
            return;
          }
          current, active := lock, true;
        case Legacy(_) =>
          o := Failed;
          return;
      }
      o, rest := StartUpdate(current, active, target, rest);
    }

    method StartUpdate(current: Lock, active: bool, target: Manifest, faults: Schedule) returns (o: Outcome, rest: Schedule)
      requires journal.None? && Agrees(Now())
      requires if active then lockFile == Current(current) else lockFile.Missing?
      modifies this
      ensures Sound() && policies.Keys == old(policies.Keys)
      ensures o.Done? ==> MovedTo(old(Now()), Now(), NextGeneration(old(Now())), target)
      ensures Quiet(faults) ==> journal.None? && (o.Done? <==> old(|policies| <= MAX_PROJECTS && AllOn(Now(), DependencyOf(current.manifest))))
      ensures FailsOnce(faults) && !(journal.Some? && journal.value.phase == CommitDecided) ==>
        o.Done? || Now().(journal := None) == old(Now())
    {
      o, rest := Failed, faults;
      var ok, projects := Inventory(current.manifest);
      if ok {
        var next := Lock(if active then current.generation + 1 else 1, target);
        UpdatedMoves(Now(), Journal(Prepared, active, current, next, Paths(projects), None));
        o, rest := CommitListed(current, next, active, projects, rest);
      }
    }

    /** Commit an update of every project. */
    method CommitListed(current: Lock, next: Lock, active: bool, projects: seq<Project>, faults: Schedule)
      returns (o: Outcome, rest: Schedule)
      requires journal.None? && Agrees(Now())
      requires if active then lockFile == Current(current) else lockFile.Missing?
      requires Loaded(projects) && |projects| <= MAX_PROJECTS && forall p :: p in policies ==> p in Paths(projects)
      modifies this
      ensures Sound() && policies.Keys == old(policies.Keys)
      ensures o.Done? ==> Now() == old(Updated(Now(), Journal(Prepared, active, current, next, Paths(projects), None)))
      ensures Quiet(faults) ==> o.Done?
      ensures FailsOnce(faults) && !(journal.Some? && journal.value.phase == CommitDecided) ==>
        o.Done? || Now().(journal := None) == old(Now())
    {
      EndsAgree(Now(), Journal(Prepared, active, current, next, Paths(projects), None));
      var decided;
      o, decided, rest := Commit(current, next, active, projects, None, faults);
    }

    /** Any number of update commands, each interrupted anywhere: everything agrees whenever no
        journal is left, and one undisturbed command at the end leaves none. */
    method UpdateRepeatedly(bootstrap: Manifest, runs: seq<(Manifest, Schedule)>)
      requires Sound()
      modifies this
      ensures Sound() && (journal.None? ==> Agrees(Now()))
      ensures runs != [] && Quiet(runs[|runs| - 1].1) ==> journal.None?
    {
      for k := 0 to |runs|
        invariant Sound()
        invariant k > 0 && Quiet(runs[k - 1].1) ==> journal.None?
      {
        var _, _ := UpdateApply(bootstrap, runs[k].0, runs[k].1);
      }
    }

    // ----- Setup's migration -----

    /** What setup checks before it migrates a lock file in the old format: the binding beside it,
        and that there are not too many projects, each on the same versions under a digest that is
        pinned or the file's own. */
    ghost predicate Migratable(pinned: set<string>)
      reads this
    {
      && lockFile.Legacy? && binding.Some? && SetupAccepts(binding.value, lockFile.file, lockFile.file.manifest)
      && |policies| <= 256
      && forall p :: p in policies ==>
        var d := policies[p].dependency;
        d.versions == lockFile.file.manifest.versions &&
        (d.digest in pinned || d.digest == lockFile.file.manifest.digest || d.digest == lockFile.file.digest)
    }

    static predicate MayMigrate(policy: Policy, file: LegacyFile, pinned: set<string>) {
      policy.dependency.versions == file.manifest.versions && policy.dependency.digest in pinned + {file.manifest.digest, file.digest}
    }

    /** Setup lists every project, and refuses if one does not belong to the migration. */
    method SetupInventory(file: LegacyFile, pinned: set<string>) returns (ok: bool, projects: seq<Project>)
      ensures ok <==> |policies| <= MAX_PROJECTS && forall p :: p in policies ==> MayMigrate(policies[p], file, pinned)
      ensures ok ==> Loaded(projects) && |projects| == |policies| && forall p :: p in policies ==> p in Paths(projects)
    {
      projects := [];
      var left := policies.Keys;
      if |left| > MAX_PROJECTS {
        return false, projects;
      }
      while left != {}
        invariant left <= policies.Keys && Loaded(projects) && |projects| + |left| == |policies|
        invariant forall p :: p in policies && p !in left ==> p in Paths(projects) && MayMigrate(policies[p], file, pinned)
      {
        var p :| p in left;
        if !MayMigrate(policies[p], file, pinned) {
          return false, projects;
        }
        ghost var before := projects;
        projects := projects + [Project(p, policies[p])];
        assert forall q :: q in Paths(before) ==> q in Paths(projects) by {
          assert Paths(projects) == Paths(before) + [p];
        }
        assert Paths(projects)[|before|] == p;
        left := left - {p};
      }
      ok := true;
    }

    /** The journal of a migration of these projects that setup starts from here. */
    function NewMigration(projects: seq<Id>): Journal
      requires lockFile.Legacy? && binding.Some?
      reads this
    {
      MigrationJournal(Lock(lockFile.file.generation, lockFile.file.manifest), projects, LegacySource(lockFile.file, binding.value))
    }

    /** Setup over a lock file in the old format: recover, check, commit the migration. From a
        sound state every outcome is sound. */
    method Migrate(pinned: set<string>, faults: Schedule) returns (o: Outcome, rest: Schedule)
      modifies this
      ensures policies.Keys == old(policies.Keys) && (old(Sound()) ==> Sound())
      ensures o.Done? ==> Migrated(old(Resolved(Now())), Now())
      ensures old(journal.None? && !Migratable(pinned)) ==> o.Failed? && Now() == old(Now())
      ensures old(journal.None? && Migratable(pinned)) && Quiet(faults) ==> o.Done?
      ensures old(journal.None? && Migratable(pinned)) && faults == [Ok, Crashes] ==> Interrupted(old(Now()))
    {
      var recovered;
      o, recovered, rest := Recover(faults);
      if o.Done? {
        o, rest := MigrateSettled(pinned, rest);
      }
    }

    /** Nothing but the journal of a migration over every project has been written since. */
    ghost predicate Interrupted(before: State)
      reads this
    {
      && journal.Some? && Now() == before.(journal := journal) && lockFile.Legacy? && binding.Some?
      && |journal.value.projects| == |policies| && (forall p :: p in journal.value.projects ==> p in policies)
      && journal.value == NewMigration(journal.value.projects)
    }

    method MigrateSettled(pinned: set<string>, faults: Schedule) returns (o: Outcome, rest: Schedule)
      requires journal.None?
      modifies this
      ensures policies.Keys == old(policies.Keys) && (old(Agrees(Now())) ==> Sound())
      ensures o.Done? ==> Migrated(old(Now()), Now())
      ensures old(!Migratable(pinned)) ==> o.Failed? && Now() == old(Now())
      ensures old(Migratable(pinned)) && Quiet(faults) ==> o.Done?
      ensures old(Migratable(pinned)) && faults == [Ok, Crashes] ==> Interrupted(old(Now()))
    {
      o, rest := Failed, faults;
      if lockFile.Legacy? && binding.Some? && SetupAccepts(binding.value, lockFile.file, lockFile.file.manifest) {
        var ok, projects := SetupInventory(lockFile.file, pinned);
        if ok {
          o, rest := StartMigration(projects, rest);
        }
      }
    }

    method StartMigration(projects: seq<Project>, faults: Schedule) returns (o: Outcome, rest: Schedule)
      requires journal.None? && lockFile.Legacy? && binding.Some?
      requires Loaded(projects) && |projects| <= MAX_PROJECTS && forall p :: p in policies ==> p in Paths(projects)
      modifies this
      ensures policies.Keys == old(policies.Keys) && (old(Agrees(Now())) ==> Sound())
      ensures o.Done? ==> Migrated(old(Now()), Now())
      ensures Quiet(faults) ==> o.Done?
      ensures faults == [Ok, Crashes] && |projects| == |old(policies)| ==> Interrupted(old(Now()))
    {
      UpdatedMoves(Now(), NewMigration(Paths(projects)));
      o, rest := CommitMigration(projects, faults);
    }

    method CommitMigration(projects: seq<Project>, faults: Schedule) returns (o: Outcome, rest: Schedule)
      requires journal.None? && lockFile.Legacy? && binding.Some?
      requires Loaded(projects) && |projects| <= MAX_PROJECTS && forall p :: p in policies ==> p in Paths(projects)
      modifies this
      ensures policies.Keys == old(policies.Keys) && (old(Agrees(Now())) ==> Sound())
      ensures o.Done? ==> Now() == old(Updated(Now(), NewMigration(Paths(projects))))
      ensures Quiet(faults) ==> o.Done?
      ensures faults == [Ok, Crashes] ==> Now() == old(Now()).(journal := Some(old(NewMigration(Paths(projects)))))
      ensures forall p :: p in Paths(projects) ==> p in policies
    {
      var target, source := Lock(lockFile.file.generation, lockFile.file.manifest), LegacySource(lockFile.file, binding.value);
      EndsAgree(Now(), MigrationJournal(target, Paths(projects), source));
      assert forall k :: 0 <= k < |projects| ==> projects[k] in projects;
      var decided;
      o, decided, rest := Commit(target, target, true, projects, Some(source), faults);
    }

    /** A migration that setup starts and that dies right after the journal write. If the binding
        is not the legacy one, no recovery under any schedule touches the journal again; if it is,
        the next undisturbed recovery goes through. */
    method StrandMigration(pinned: set<string>, recovery: Schedule) returns (recovered: Outcome)
      requires journal.None? && Migratable(pinned)
      modifies this
      ensures !old(binding.value.generation == lockFile.file.generation && binding.value.digest == lockFile.file.digest) ==>
        recovered.Failed? && journal.Some? && Now() == old(Now()).(journal := journal)
      ensures old(binding.value.generation == lockFile.file.generation && binding.value.digest == lockFile.file.digest) && Quiet(recovery) ==>
        recovered.Done? && journal.None?
    {
      ghost var file, binding := lockFile.file, binding.value;
      var _, _ := Migrate(pinned, [Ok, Crashes]);
      MigrationRecoverable(file, binding, journal.value.projects);
      var done, rest;
      recovered, done, rest := Recover(recovery);
    }
  }

  /** So a lock file in the old format beside a binding of the same manifest in the new one is
      stranded by a crash during setup, without any project. */
  method StrandedMigration() returns (store: DependencyStore, recovered: Outcome)
    ensures fresh(store) && store.journal.Some? && store.lockFile.Legacy? && recovered.Failed?
  {
    var file, binding := LegacyFile(1, Manifest("new", "v"), "old"), Binding(1, "new", "v");
    SetupCanStrand();
    store := new DependencyStore(State(map[], Legacy(file), Some(binding), None));
    recovered := store.StrandMigration({}, []);
  }
}
