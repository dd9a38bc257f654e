/** internal/cleanup: which VMs a cleanup run may remove. */
module OrphanCleanup {
  import opened Faults

  datatype VmState = Running | Stopped | Unknown

  /** What the container runtime reports about one container. */
  datatype Info = Info(name: string, owner: string, project: string, vm: string, mode: string, state: VmState)

  /** The export recovery record of a project. */
  datatype RecoveryFile = Absent | Unreadable | Record(project: string, vm: string, container: string, mode: string)

  datatype Decision = Ignore | Keep | Refuse | Remove

  const PREFIX := "sunaba-"

  predicate HasPrefix(name: string) {
    PREFIX <= name
  }

  predicate OwnedIdentity(info: Info) {
    && info.owner == "sunaba-supervisor" && info.mode in {"secure", "dev"}
    && info.project != "" && info.vm != "" && info.name == PREFIX + info.project + "-" + info.vm
  }

  predicate RecordMatches(record: RecoveryFile, info: Info) {
    record == Record(info.project, info.vm, info.name, info.mode) && info.state == Stopped
  }

  /** The verdict on one container, from its report, its project's recovery record, whether a
      live process holds its guard, and whether a model lease is bound to it. */
  function Decide(info: Info, record: RecoveryFile, guardHeld: bool, leased: bool): Decision {
    if !HasPrefix(info.name) then Ignore
    else if !OwnedIdentity(info) then Refuse
    else if !record.Absent? then (if RecordMatches(record, info) then Keep else Refuse)
    else if guardHeld then Keep
    else if info.state == Stopped then Refuse
    else if !leased then Refuse
    else Remove
  }

  /** The labels say that this program made the VM, and the name is the one they give it. */
  predicate Owned(info: Info) {
    && info.owner == "sunaba-supervisor" && (info.mode == "secure" || info.mode == "dev")
    && info.project != "" && info.vm != "" && info.name == "sunaba-" + info.project + "-" + info.vm
  }

  /** Nobody can still want the VM, and there is evidence that it is an orphan. */
  predicate MayBeRemoved(info: Info, record: RecoveryFile, guardHeld: bool, leased: bool) {
    Owned(info) && record.Absent? && !guardHeld && info.state != Stopped && leased
  }

  /** Removal needs every one of these, and nothing else is needed. In particular a stopped VM is
      never removed, and neither is a VM of a project that has any recovery record. */
  lemma RemovedOnlyIf(info: Info, record: RecoveryFile, guardHeld: bool, leased: bool)
    ensures Decide(info, record, guardHeld, leased) == Remove <==> MayBeRemoved(info, record, guardHeld, leased)
  {
    assert OwnedIdentity(info) ==> info.name[..|PREFIX|] == PREFIX;
  }

  /** An owned VM is kept while a live process holds its guard, or as the stopped VM that the
      recovery record of its project describes. */
  predicate MayBeKept(info: Info, record: RecoveryFile, guardHeld: bool) {
    Owned(info) && match record
      case Absent => guardHeld
      case Unreadable => false
      case Record(project, vm, container, mode) =>
        project == info.project && vm == info.vm && container == info.name && mode == info.mode && info.state == Stopped
  }

  /** Foreign names are passed over, and what may be neither kept nor removed is refused. */
  lemma OtherVerdicts(info: Info, record: RecoveryFile, guardHeld: bool, leased: bool)
    ensures Decide(info, record, guardHeld, leased) == Ignore <==> !("sunaba-" <= info.name)
    ensures Decide(info, record, guardHeld, leased) == Keep <==> MayBeKept(info, record, guardHeld)
    ensures Decide(info, record, guardHeld, leased) == Refuse <==>
      "sunaba-" <= info.name && !MayBeKept(info, record, guardHeld) && !MayBeRemoved(info, record, guardHeld, leased)
  {
    assert OwnedIdentity(info) ==> info.name[..|PREFIX|] == PREFIX;
  }

  class CleanupHost {
    const recoveries: map<string, RecoveryFile>   // by project; a missing key is an absent record
    const guards: set<string>                     // VMs whose guard a live process holds
    const leases: set<(string, string)>           // (project, container) with a latest lease for model use

    var vms: map<string, Info>

    constructor (vms: map<string, Info>, recoveries: map<string, RecoveryFile>, guards: set<string>, leases: set<(string, string)>)
      ensures this.vms == vms && this.recoveries == recoveries && this.guards == guards && this.leases == leases
    {
      this.vms, this.recoveries, this.guards, this.leases := vms, recoveries, guards, leases;
    }

    function RecordOf(project: string): RecoveryFile {
      if project in recoveries then recoveries[project] else Absent
    }

    function Verdict(info: Info): Decision {
      Decide(info, RecordOf(info.project), info.vm in guards, (info.project, info.name) in leases)
    }

    /** The listed names with verdict d, in listing order. */
    function Chosen(before: map<string, Info>, listing: seq<string>, d: Decision): seq<string>
      requires forall n :: n in listing ==> n in before
    {
      if listing == [] then []
      else
        var init, last := listing[..|listing| - 1], listing[|listing| - 1];
        Chosen(before, init, d) + if Verdict(before[last]) == d then [last] else []
    }

    /** The three result lists are disjoint and together hold every listed name with the prefix. */
    lemma {:induction false} ChosenMembers(before: map<string, Info>, listing: seq<string>, d: Decision, n: string)
      requires forall m :: m in listing ==> m in before
      ensures n in Chosen(before, listing, d) <==> n in listing && Verdict(before[n]) == d
    {
      if listing != [] {
        var init, last := listing[..|listing| - 1], listing[|listing| - 1];
        ChosenMembers(before, init, d, n);
        assert listing == init + [last];
      }
    }

    /** This VM of this host is one that may be removed. */
    predicate Orphan(info: Info) {
      && Owned(info) && info.state != Stopped && info.vm !in guards && (info.project, info.name) in leases
      && (info.project !in recoveries || recoveries[info.project].Absent?)
    }

    lemma VerdictMeaning(info: Info)
      ensures Verdict(info) == Decision.Remove <==> Orphan(info)
    {
      RemovedOnlyIf(info, RecordOf(info.project), info.vm in guards, (info.project, info.name) in leases);
    }

    /** Stop the container if it runs, then remove it; one in any other state stays. */
    method RemoveOwned(name: string, faults: Schedule) returns (o: Outcome, rest: Schedule)
      requires name in vms && Verdict(vms[name]) == Decision.Remove
      modifies this
      ensures o.Done? ==> vms == old(vms) - {name} && old(vms)[name].state == Running
      ensures !o.Done? ==> vms == old(vms) || (old(vms)[name].state == Running && vms == old(vms)[name := old(vms)[name].(state := Stopped)])
      ensures Quiet(faults) ==> Quiet(rest) && (o.Done? <==> old(vms)[name].state == Running)
    {
      VerdictMeaning(vms[name]);
      o, rest := Done, faults;
      if vms[name].state == Running {
        o, rest := StopVm(name, rest);
      } else if vms[name].state != Stopped {
        o := Failed;
      }
      if o.Done? {
        o, rest := RemoveVm(name, rest);
      }
    }

    method StopVm(name: string, faults: Schedule) returns (o: Outcome, rest: Schedule)
      requires name in vms && vms[name].state == Running
      modifies this
      ensures vms == if o.Done? then old(vms)[name := old(vms)[name].(state := Stopped)] else old(vms)
      ensures Quiet(faults) ==> o.Done? && Quiet(rest)
    {
      o, rest := Attempt(vms[name := vms[name].(state := Stopped)], faults);
    }

    /** The runtime removes only a stopped container. */
    method RemoveVm(name: string, faults: Schedule) returns (o: Outcome, rest: Schedule)
      requires name in vms && vms[name].state == Stopped
      modifies this
      ensures vms == if o.Done? then old(vms) - {name} else old(vms)
      ensures Quiet(faults) ==> o.Done? && Quiet(rest)
    {
      o, rest := Attempt(vms - {name}, faults);
    }

    method Attempt(next: map<string, Info>, faults: Schedule) returns (o: Outcome, rest: Schedule)
      modifies this
      ensures vms == if o.Done? then next else old(vms)
      ensures Quiet(faults) ==> o.Done? && Quiet(rest)
    {
      rest := Rest(faults);
      match Next(faults) {
        case Ok => vms, o := next, Done;
        case Fails => o := Failed;
        case Crashes => o := Crashed;
      }
    }

    /** A whole run: every removed VM was one that may be removed, every other VM is still there,
        and a run that completes has put every candidate on exactly one list. */
    method Run(listing: seq<string>, faults: Schedule) returns (o: Outcome, removed: seq<string>, kept: seq<string>, refused: seq<string>)
      requires forall i, j :: 0 <= i < j < |listing| ==> listing[i] != listing[j]
      requires forall n :: n in listing ==> n in vms && vms[n].name == n
      modifies this
      ensures forall n :: n in vms ==> n in old(vms)
      ensures forall n :: n in old(vms) && n !in vms ==> n in listing && Orphan(old(vms)[n])
      ensures forall n :: n in old(vms) && old(vms)[n].state == Stopped ==> n in vms && vms[n] == old(vms)[n]
      ensures o.Done? ==>
        && removed == Chosen(old(vms), listing, Remove)
        && kept == Chosen(old(vms), listing, Keep)
        && refused == Chosen(old(vms), listing, Refuse)
        && (forall n :: n in old(vms) ==> (n in vms <==> n !in removed))
    {
      o, removed, kept, refused := Done, [], [], [];
      var rest := faults;
      for k := 0 to |listing|
        invariant o.Done?
        invariant vms.Keys <= old(vms.Keys)
        invariant forall n :: n in vms ==> vms[n] == old(vms)[n]
        invariant forall n :: n in old(vms) ==> (n in vms <==> n !in removed)
        invariant forall n :: n in old(vms) && n !in vms ==> n in listing && Orphan(old(vms)[n])
        invariant removed == Chosen(old(vms), listing[..k], Remove)
        invariant kept == Chosen(old(vms), listing[..k], Keep)
        invariant refused == Chosen(old(vms), listing[..k], Refuse)
      {
        var name := listing[k];
        RunStep(old(vms), listing, k);
        if !HasPrefix(name) {
          continue;
        }
        match Verdict(vms[name]) {
          case Keep => kept := kept + [name];
          case Refuse => refused := refused + [name];
          case Ignore =>
          case Remove =>
            VerdictMeaning(vms[name]);
            o, rest := RemoveOwned(name, rest);
            if !o.Done? {
              return;
            }
            removed := removed + [name];
        }
      }
      assert listing[..|listing|] == listing;
    }

    lemma RunStep(before: map<string, Info>, listing: seq<string>, k: nat)
      requires k < |listing|
      requires forall i, j :: 0 <= i < j < |listing| ==> listing[i] != listing[j]
      requires forall n :: n in listing ==> n in before
      ensures listing[k] !in Chosen(before, listing[..k], Decision.Remove)
      ensures forall d ::
        Chosen(before, listing[..k + 1], d) == Chosen(before, listing[..k], d) + if Verdict(before[listing[k]]) == d then [listing[k]] else []
      ensures forall n :: n in Chosen(before, listing[..k], Decision.Remove) ==> n in listing && Verdict(before[n]) == Decision.Remove
    {
      assert listing[..k + 1][..k] == listing[..k];
      ChosenMembers(before, listing[..k], Decision.Remove, listing[k]);
      forall n
        ensures n in Chosen(before, listing[..k], Decision.Remove) <==> n in listing[..k] && Verdict(before[n]) == Decision.Remove
      {
        ChosenMembers(before, listing[..k], Decision.Remove, n);
      }
    }
  }
}
