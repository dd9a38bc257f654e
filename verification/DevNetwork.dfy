/** The dev network of internal/devnetwork: a runtime resource that outlives the process, and the
    owner journal that must always name it. */
module DevNetwork {
  import opened Faults

  /** How the container runtime answers one command, or the disk one journal write. The client
      takes any error whose text speaks of something not found for the absence of the network,
      even when the text is about something else, such as the client program itself. */
  datatype Reply =
    | Works
    | Errors         // fails without effect
    | ErrorsLate     // takes effect and reports an error; for an inspection or a write, just fails
    | SaysNotFound   // fails without effect, with text that says "not found"
    | Dies           // the process stops before the command

  type Replies = seq<Reply>

  datatype Found = Present | NotFound | Unclear | Interrupted

  datatype End = Completed | Error | Died

  function Now(replies: Replies): Reply {
    if replies == [] then Works else replies[0]
  }

  function Later(replies: Replies): (rest: Replies)
    ensures From(rest, replies)
  {
    if replies == [] then [] else replies[1..]
  }

  /** Nothing is answered later that was not to be answered at all. */
  ghost predicate From(rest: Replies, replies: Replies) {
    forall r :: r in rest ==> r in replies
  }

  /** A network that exists is reported as absent, and then the journal is cleared. */
  predicate HidesAndClears(replies: Replies) {
    Now(replies) == SaysNotFound && Now(Later(replies)) == Works
  }

  datatype Command = Activate(name: string, replies: Replies) | Recover(name: string, replies: Replies) | Close(replies: Replies) | Crash

  class Boundaries {
    var networks: set<string>      // the owned dev networks the runtime has
    var journal: Option<string>    // the owner journal
    var locked: bool               // a live process holds the exclusive lock
    var held: Option<string>       // the network of that process's boundary
    var filtered: bool             // the host's packet filter carries the boundary's rules

    ghost var misled: bool         // the journal was once cleared on a false report of absence
    ghost var taken: seq<Command>  // the commands performed so far

    constructor ()
      ensures Valid() && networks == {} && journal.None? && !locked && !misled && !filtered && taken == []
    {
      networks, journal, locked, held, filtered, misled, taken := {}, None, false, None, false, false, [];
    }

    /** At most one owned network exists, and if one does the journal names it. */
    predicate Accounted()
      reads this
    {
      networks <= (if journal.Some? then {journal.value} else {})
    }

    ghost predicate Valid()
      reads this
    {
      (held.Some? ==> locked && journal == held) && (!misled ==> Accounted())
    }

    lemma AtMostOne()
      requires Valid() && !misled
      ensures |networks| <= 1
      ensures forall n :: n in networks ==> journal == Some(n)
    {
      if journal.Some? {
        assert networks == {} || networks == {journal.value};
      }
    }

    // ----- Single commands -----

    method Die()
      modifies this`locked, this`held
      ensures !locked && held.None?
    {
      locked, held := false, None;
    }

    method Inspect(name: string, replies: Replies) returns (found: Found, rest: Replies)
      modifies this`locked, this`held
      ensures rest == Later(replies)
      ensures found == (match Now(replies)
        case Works => if name in networks then Present else NotFound
        case SaysNotFound => NotFound
        case Dies => Interrupted
        case _ => Unclear)
      ensures found == NotFound && name in networks ==> SaysNotFound in replies
      ensures if found == Interrupted then !locked && held.None? else locked == old(locked) && held == old(held)
    {
      rest := Later(replies);
      match Now(replies) {
        case Works => found := if name in networks then Present else NotFound;
        case SaysNotFound => found := NotFound;
        case Dies => found := Interrupted; Die();
        case _ => found := Unclear;
      }
    }

    /** Create or delete one network. */
    method Change(next: set<string>, replies: Replies) returns (end: End, rest: Replies)
      modifies this`networks, this`locked, this`held
      ensures rest == Later(replies)
      ensures networks == if Now(replies) in {Works, ErrorsLate} then next else old(networks)
      ensures end == if Now(replies) == Works then Completed else if Now(replies) == Dies then Died else Error
      ensures if end == Died then !locked && held.None? else locked == old(locked) && held == old(held)
    {
      rest := Later(replies);
      end := if Now(replies) == Works then Completed else if Now(replies) == Dies then Died else Error;
      if Now(replies) in {Works, ErrorsLate} {
        networks := next;
      }
      if end == Died {
        Die();
      }
    }

    method WriteJournal(next: Option<string>, replies: Replies) returns (end: End, rest: Replies)
      modifies this`journal, this`locked, this`held
      ensures rest == Later(replies)
      ensures journal == if end == Completed then next else old(journal)
      ensures end == if Now(replies) == Works then Completed else if Now(replies) == Dies then Died else Error
      ensures if end == Died then !locked && held.None? else locked == old(locked) && held == old(held)
    {
      rest := Later(replies);
      end := if Now(replies) == Works then Completed else if Now(replies) == Dies then Died else Error;
      if end == Completed {
        journal := next;
      }
      if end == Died {
        Die();
      }
    }

    /** Delete the network after checking it, and check that it is gone. Absence is success for
        the callers; lied tells whether the first answer reported an existing network as absent. */
    method Delete(name: string, replies: Replies) returns (end: End, rest: Replies, ghost lied: bool)
      requires locked
      modifies this`networks, this`locked, this`held
      ensures From(rest, replies) && networks <= old(networks) && old(networks) <= networks + {name}
      ensures end == Completed ==> (name in networks <==> lied)
      ensures lied <==> name in old(networks) && Now(replies) == SaysNotFound
      ensures lied ==> end == Completed && SaysNotFound in replies && networks == old(networks) && rest == Later(replies)
      ensures if end == Died then !locked && held.None? else locked && held == old(held)
      ensures end == Completed <==>
        || Now(replies) == SaysNotFound
        || (Now(replies) == Works && name !in old(networks))
        || (Now(replies) == Now(Later(replies)) == Works && Now(Later(Later(replies))) in {Works, SaysNotFound})
      ensures replies == [SaysNotFound] ==> networks == old(networks) && rest == []
      ensures Now(replies) in {Errors, ErrorsLate} ==> end == Error && networks == old(networks) && rest == Later(replies)
      ensures replies == [] ==> networks == old(networks) - {name} && rest == [] && !lied
    {
      var found;
      found, rest := Inspect(name, replies);
      lied := found == NotFound && name in networks;
      match found {
        case NotFound => end := Completed;
        case Unclear => end := Error;
        case Interrupted => end := Died;
        case Present =>
          end, rest := Change(networks - {name}, rest);
          if end == Completed {
            found, rest := Inspect(name, rest);
            end := if found == NotFound then Completed else if found == Interrupted then Died else Error;
          }
      }
    }

    /** Verify the network and load the packet filter, or switch the filter off. */
    method Filter(on: bool, replies: Replies) returns (end: End, rest: Replies)
      requires Valid()
      modifies this`filtered, this`locked, this`held
      ensures Valid() && rest == Later(replies)
      ensures filtered == if Now(replies) in {Works, ErrorsLate} then on else old(filtered)
      ensures end == if Now(replies) == Works then Completed else if Now(replies) == Dies then Died else Error
      ensures if end == Died then !locked && held.None? else locked == old(locked) && held == old(held)
    {
      rest := Later(replies);
      end := if Now(replies) == Works then Completed else if Now(replies) == Dies then Died else Error;
      if Now(replies) in {Works, ErrorsLate} {
        filtered := on;
      }
      if end == Died {
        Die();
      }
    }

    // ----- The boundary -----

    /** This operation cleared the journal although its network, known as name, is still there. */
    twostate predicate Leaked(name: string)
      reads this
    {
      name in old(networks) && name in networks && journal != Some(name)
    }

    /** Delete the network another owner left in the journal, unless it is the one to be kept. */
    method ReclaimStaleNetwork(keep: string, replies: Replies) returns (end: End, rest: Replies)
      requires Valid() && locked && held.None?
      modifies this
      ensures Valid() && held.None? && (old(misled) ==> misled) && networks <= old(networks) && From(rest, replies)
      ensures if end == Died then !locked else locked
      ensures end == Completed ==> journal.None? || journal == Some(keep)
      ensures misled && !old(misled) ==> SaysNotFound in replies && end == Completed
      ensures misled && !old(misled) ==> old(journal).Some? && old(journal).value != keep && Leaked(old(journal).value)
      ensures !old(misled) ==> (misled <==>
        old(journal.Some? && journal.value != keep && journal.value in networks) &&
        (HidesAndClears(replies) || (Now(replies) == Works && HidesAndClears(Later(replies)))))
      ensures replies == [] ==> end == Completed && rest == []
      ensures old(journal).None? ==> end == Completed && rest == replies && networks == old(networks) && misled == old(misled)
      ensures replies == [] && old(journal).Some? && old(journal).value != keep ==>
        end == Completed && networks == old(networks) - {old(journal).value} && journal.None?
      ensures replies == [SaysNotFound] && old(journal).Some? && old(journal).value != keep ==>
        end == Completed && networks == old(networks) && journal.None? && rest == []
      ensures old(journal) == Some(keep) ==> end == Completed && networks == old(networks) && journal == old(journal)
    {
      end, rest := Completed, replies;
      if journal.None? || journal.value == keep {
        return;
      }
      var found;
      var name := journal.value;
      found, rest := Inspect(name, rest);
      ghost var lied := found == NotFound && name in networks;
      match found {
        case NotFound =>
        case Unclear => end := Error;
        case Interrupted => end := Died;
        case Present => end, rest, lied := Delete(name, rest);
      }
      if end == Completed {
        end, rest := WriteJournal(None, rest);
        misled := misled || (lied && end == Completed);
      }
    }

    /** The new network is created, cannot be verified, and can be removed. */
    predicate Unverified(replies: Replies) {
      && |replies| == 3 && replies[0] in {Works, SaysNotFound} && replies[1] == Works
      && replies[2] in {Errors, ErrorsLate, SaysNotFound}
    }

    /** Create the network and inspect it; a network that cannot be verified is removed again. */
    method Create(name: string, replies: Replies) returns (end: End, rest: Replies)
      requires Valid() && locked && held.None? && journal == Some(name)
      modifies this`networks, this`locked, this`held
      ensures Valid() && held.None? && networks - {name} == old(networks) - {name} && From(rest, replies)
      ensures if end == Died then !locked else locked
      ensures end == Completed ==> name in networks
      ensures replies == [] && name !in old(networks) ==> end == Completed && rest == [] && networks == old(networks) + {name}
      ensures Unverified(replies) && name !in old(networks) ==> end == Error && networks == old(networks)
      ensures name in old(networks) ==> end != Completed && networks == old(networks)
    {
      var found;
      found, rest := Inspect(name, replies);
      if found != NotFound {
        return (if found == Interrupted then Died else Error), rest;
      }
      if name in networks {
        end, rest := Error, Later(rest);   // the runtime refuses a second network of that name
        return;
      }
      end, rest := Change(networks + {name}, rest);
      if end == Completed {
        found, rest := Inspect(name, rest);
        if found == Interrupted {
          end := Died;
        } else if found != Present {
          end, rest := Change(networks - {name}, rest);
          end := if end == Died then Died else Error;
        }
      }
    }

    /** Give the boundary up: delete its network, clear the journal once it is gone, and switch the
        packet filter off whether or not that succeeded. The network leaks exactly if the journal was cleared on a false report of absence. */
    method CloseBoundary(replies: Replies) returns (end: End, rest: Replies)
      requires Valid()
      modifies this
      ensures Valid() && !locked && held.None? && (old(misled) ==> misled) && From(rest, replies)
      ensures networks <= old(networks) && (old(held).Some? ==> old(networks) <= networks + {old(held).value})
      ensures journal.None? || journal == old(journal)
      ensures misled && !old(misled) ==> SaysNotFound in replies
      ensures !old(misled) ==> (misled <==> old(held).Some? && Leaked(old(held).value))
      ensures !old(misled) ==> (misled <==> old(held.Some? && held.value in networks) && HidesAndClears(replies))
      ensures replies == [SaysNotFound] && old(held.Some?) ==> networks == old(networks) && journal.None?
      ensures replies == [] && old(held.Some?) ==> end == Completed && networks == old(networks) - {old(held).value} && journal.None?
      ensures old(held).None? ==> networks == old(networks) && journal == old(journal) && filtered == old(filtered)
      ensures end == Completed && old(held).Some? ==> !filtered && journal.None?
      ensures replies == [Errors] && old(held).Some? ==> end == Error && !filtered && networks == old(networks) && journal == old(journal)
    {
      end, rest := Completed, replies;
      if held.Some? {
        var name := held.value;
        ghost var lied;
        held := None;
        end, rest, lied := Delete(name, rest);
        if end == Completed {
          end, rest := WriteJournal(None, rest);
          misled := misled || (lied && end == Completed);
        }
        if end != Died {
          var off;
          off, rest := Filter(false, rest);
          end := if end == Error && off == Completed then Error else off;
        }
      }
      Die();
    }

    /** Activate or activate quiesced: take the lock, reclaim, write the journal, create, verify.
        The journal names the network before it can exist. */
    method ActivateNetwork(name: string, replies: Replies) returns (end: End, rest: Replies)
      requires Valid()
      modifies this
      ensures Valid() && (old(misled) ==> misled)
      ensures misled && !old(misled) ==> SaysNotFound in replies && !Accounted()
      ensures end == Completed ==> locked && held == Some(name) && name in networks && filtered
      ensures end != Completed && !old(locked) ==> !locked && held.None?
      ensures old(locked) ==>
        end == Error && networks == old(networks) && journal == old(journal) && locked && held == old(held) && filtered == old(filtered)
      ensures replies == [] && !old(locked) && name !in old(networks) ==>
        && end == Completed && misled == old(misled) && journal == Some(name)
        && networks == old(networks) - (if old(journal.Some? && journal.value != name) then {old(journal).value} else {}) + {name}
      ensures replies == [SaysNotFound] && !old(locked) && old(journal).Some? && old(journal).value != name && name !in old(networks) ==>
        end == Completed && networks == old(networks) + {name} && journal == Some(name)
    {
      rest := replies;
      if locked {
        return Error, rest;
      }
      locked := true;
      ghost var stale := if journal.Some? then journal.value else name;
      end, rest := ReclaimStaleNetwork(name, rest);
      ghost var leaked := misled && !old(misled);
      if end == Completed {
        end, rest := WriteJournal(Some(name), rest);
      }
      if end == Completed {
        ghost var before := networks;
        end, rest := Create(name, rest);
        assert leaked ==> stale in before - {name};
      }
      assert leaked ==> stale != name && stale in networks;
      if end == Completed {
        held := Some(name);
        end, rest := Filter(true, rest);
      }
      if end == Error {
        var closed;
        closed, rest := CloseBoundary(rest);
        assert leaked ==> stale in networks;
      }
    }

    /** Recover quiesced: adopt the network if it is still there; never create one. */
    method RecoverQuiesced(name: string, replies: Replies) returns (end: End, rest: Replies)
      requires Valid()
      modifies this
      ensures Valid() && (old(misled) ==> misled) && networks <= old(networks)
      ensures old(locked) ==>
        end == Error && networks == old(networks) && journal == old(journal) && locked && held == old(held) && filtered == old(filtered)
      ensures misled && !old(misled) ==> SaysNotFound in replies && !Accounted()
      ensures end == Completed ==> locked && ((held == Some(name) && filtered) || held.None?)
      ensures end == Completed && SaysNotFound !in replies && name in networks ==> held == Some(name)
      ensures end != Completed && !old(locked) ==> !locked && held.None?
      ensures replies == [] && !old(locked) ==>
        && end == Completed && journal == Some(name) && held == (if name in old(networks) then Some(name) else None)
        && networks == old(networks) - (if old(journal.Some? && journal.value != name) then {old(journal).value} else {})
    {
      rest := replies;
      if locked {
        return Error, rest;
      }
      locked := true;
      var found := Unclear;
      end, rest := ReclaimStaleNetwork(name, rest);
      if end == Completed {
        end, rest := WriteJournal(Some(name), rest);
      }
      if end == Completed {
        found, rest := Inspect(name, rest);
        if found == Present {
          held := Some(name);
          end, rest := Filter(true, rest);
        } else if found != NotFound {
          end := if found == Interrupted then Died else Error;
        }
      }
      if end == Error {
        var closed;
        closed, rest := CloseBoundary(rest);
      }
    }

    // ----- Whole runs -----

    /** Over every run of activations, recoveries, closes and crashes with any command failing: at
        most one owned network exists and the journal names it, unless the journal of an existing
        network was cleared on a false report of its absence. The first operation in which that
        happens is the first that leaves a network without a name. */
    method RunAll(commands: seq<Command>)
      requires Valid() && !misled
      modifies this
      ensures Valid() && (!misled ==> Accounted() && |networks| <= 1) && taken == old(taken) + commands
    {
      for k := 0 to |commands|
        invariant Valid() && taken == old(taken) + commands[..k]
      {
        Perform(commands[k]);
      }
      if !misled {
        AtMostOne();
      }
    }

    function Answers(command: Command): Replies {
      match command
      case Activate(_, replies) => replies
      case Recover(_, replies) => replies
      case Close(replies) => replies
      case Crash => []
    }

    /** What a command does when no process holds the lock and nothing goes wrong; a close and a
        crash always end the process. Only an activation can make a network. */
    twostate predicate Took(command: Command)
      reads this
    {
      match command
      case Activate(name, replies) =>
        if old(locked) then Same() && locked
        else replies == [] && old(journal).None? && name !in old(networks) ==>
          held == Some(name) && filtered && networks == old(networks) + {name}
      case Recover(name, replies) =>
        if old(locked) then Same() && locked
        else networks <= old(networks) && (replies == [] ==> journal == Some(name) && (held == Some(name) <==> name in old(networks)))
      case Close(replies) =>
        !locked && networks <= old(networks) &&
        (replies == [] && old(held).Some? ==> networks == old(networks) - {old(held).value} && journal.None? && !filtered)
      case Crash => !locked && Same()
    }

    twostate predicate Same()
      reads this
    {
      networks == old(networks) && journal == old(journal) && filtered == old(filtered)
    }

    /** The condition is exact: an operation that starts with every network accounted for ends so
        if and only if it did not clear a journal on a false report, and without such an answer it
        cannot. */
    method Perform(command: Command)
      requires Valid()
      modifies this
      ensures Valid() && (old(misled) ==> misled)
      ensures !old(misled) ==> (Accounted() <==> !misled)
      ensures !old(misled) && SaysNotFound !in Answers(command) ==> Accounted()
      ensures taken == old(taken) + [command] && Took(command)
    {
      ghost var before := taken;
      match command {
        case Activate(name, replies) => var _, _ := ActivateNetwork(name, replies);
        case Recover(name, replies) => var _, _ := RecoverQuiesced(name, replies);
        case Close(replies) => var _, _ := CloseBoundary(replies);
        case Crash => Die();
      }
      taken := before + [command];
    }

    /** From every held boundary whose network exists, one not-found text while closing clears the
        journal and leaks the network. */
    method Mislead(ghost name: string)
      requires Valid() && held == Some(name) && name in networks
      modifies this
      ensures Valid() && networks == old(networks) && journal.None? && !locked && !Accounted()
    {
      var _, _ := CloseBoundary([SaysNotFound]);
    }

    /** And from every stale network in the journal, one not-found text while another is activated
        leaves the stale one without a name beside the new one. */
    method MisleadReclaim(stale: string, name: string)
      requires Valid() && !misled && !locked && journal == Some(stale) && stale in networks && name != stale
      modifies this
      ensures Valid() && networks == {stale, name} && journal == Some(name) && !Accounted()
    {
      var _, _ := ActivateNetwork(name, [SaysNotFound]);
    }
  }

  /** A leaked network stays while the next one is created: two at once. */
  method TwoNetworks() returns (b: Boundaries)
    ensures fresh(b) && b.networks == {"a", "b"}
  {
    b := new Boundaries();
    var _, _ := b.ActivateNetwork("a", []);
    b.Mislead("a");
    var _, _ := b.ActivateNetwork("b", []);
  }
}
