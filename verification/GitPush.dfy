/** One-shot push approval in internal/gitgateway: hook connections, host confirmations and
    rejections interleaved at the granularity of their critical sections. Each method below is
    one critical section, or one stretch of a thread between two of them. */
module GitPush {
  import opened Faults
  import opened PushBinding

  type Nonce = nat
  type GrantId = nat
  type ThreadId = nat

  /** A request for approval of one canonical push. Digests are injective, so the canonical
      binding stands for its digest. */
  datatype Request = Request(binding: Binding, expires: nat)

  datatype Thread =
    | Idle
    | Looking(digest: Binding)                       // hook: about to look for a grant
    | Asking(digest: Binding)                        // hook: no grant, about to ask for approval
    | Executing(grant: GrantId)                      // hook: took a grant, revalidating
    | Consuming(grant: GrantId, item: Request, current: Binding, canonical: Option<Binding>)
    | Pushing(grant: GrantId, current: Binding, consumedAt: nat)
    | Confirming(nonce: Nonce, presented: Option<Binding>, digest: Binding)
    | Checking(nonce: Nonce, found: Option<Request>, presented: Option<Binding>, digest: Binding)
    | Granted(grant: GrantId, digest: Binding)
    | Rejecting(nonce: Nonce)

  /** What the host agreed to when it confirmed a nonce. */
  datatype Confirmation = Confirmation(nonce: Nonce, binding: Binding, expires: nat)

  /** One push sent upstream. */
  datatype Push = Push(grant: GrantId, binding: Binding, consumedAt: nat)

  /** Where a nonce is on its way, and where a grant is. */
  datatype NoncePlace = Listed | TakenBy(t: ThreadId) | DecidedAs(g: GrantId) | Refused

  datatype GrantPlace = InManager | HeldBy(t: ThreadId) | SentAs(i: nat)

  datatype Action =
    | Arrive(t: ThreadId, resolved: Binding)
    | TakeGrant(t: ThreadId)
    | Ask(t: ThreadId, recorded: bool)
    | ConsumeTake(t: ThreadId, resolved: Binding)
    | ConsumeCheck(t: ThreadId, recorded: bool)
    | SendPush(t: ThreadId, recorded: bool)
    | ConfirmTake(t: ThreadId, nonce: Nonce, presented: Binding)
    | ConfirmWithdraw(t: ThreadId)
    | ConfirmGrant(t: ThreadId, recorded: bool)
    | ConfirmPublish(t: ThreadId)
    | RejectTake(t: ThreadId, nonce: Nonce)
    | RejectWithdraw(t: ThreadId)
    | Abandon(t: ThreadId)
    | Tick

  // ----- The invariant, on the values it speaks about -----

  /** The two indexes are exact inverses: at most one live request for each push. */
  predicate Inverse(pending: map<Nonce, Request>, byDigest: map<Binding, Nonce>) {
    && (forall n :: n in pending ==> pending[n].binding in byDigest && byDigest[pending[n].binding] == n)
    && (forall d :: d in byDigest ==> byDigest[d] in pending && pending[byDigest[d]].binding == d)
  }

  predicate Took(threads: map<ThreadId, Thread>, t: ThreadId) {
    t in threads && (threads[t].Confirming? || threads[t].Checking?)
  }

  predicate Holds(threads: map<ThreadId, Thread>, t: ThreadId) {
    t in threads && (threads[t].Consuming? || threads[t].Pushing?)
  }

  /** Nonces move one way: listed, taken by one thread, then confirmed or refused. */
  ghost predicate NoncesOneWay(nonceAt: map<Nonce, NoncePlace>, issued: nat, pending: map<Nonce, Request>,
    threads: map<ThreadId, Thread>, confirmed: map<GrantId, Confirmation>, refused: set<Nonce>)
  {
    && (forall n :: n in nonceAt ==> n < issued)
    && (forall n :: n in pending ==> n in nonceAt && nonceAt[n] == Listed)
    && (forall t :: Took(threads, t) ==> threads[t].nonce in nonceAt && nonceAt[threads[t].nonce] == TakenBy(t))
    && (forall g :: g in confirmed ==> g < issued && confirmed[g].nonce in nonceAt && nonceAt[confirmed[g].nonce] == DecidedAs(g))
    && (forall n :: n in refused ==> n in nonceAt && nonceAt[n] == Refused)
  }

  type Sameness = (Binding, Binding) -> bool

  ghost predicate Matches(same: Sameness, c: Confirmation, p: Push) {
    same(c.binding, p.binding) && p.consumedAt < c.expires
  }

  ghost predicate Bears(same: Sameness, thread: Thread, c: Confirmation)
    requires thread.Consuming? || thread.Pushing?
  {
    match thread
    case Consuming(_, item, current, canonical) =>
      item == Request(c.binding, c.expires) && (canonical.Some? ==> same(canonical.value, current))
    case Pushing(g, current, at) => Matches(same, c, Push(g, current, at))
  }

  /** A grant is in the manager, in the hands of one thread, or in one push, and carries what the
      host confirmed. */
  ghost predicate GrantsOneWay(same: Sameness, grantAt: map<GrantId, GrantPlace>, confirmed: map<GrantId, Confirmation>,
    grants: map<GrantId, Request>, threads: map<ThreadId, Thread>, pushes: seq<Push>)
  {
    && (forall g :: g in grantAt ==> g in confirmed)
    && (forall g :: g in grants ==> g in grantAt && grantAt[g] == InManager && grants[g] == Request(confirmed[g].binding, confirmed[g].expires))
    && (forall t :: Holds(threads, t) ==>
          threads[t].grant in grantAt && grantAt[threads[t].grant] == HeldBy(t) && Bears(same, threads[t], confirmed[threads[t].grant]))
    && (forall i :: 0 <= i < |pushes| ==>
          pushes[i].grant in grantAt && grantAt[pushes[i].grant] == SentAs(i) && Matches(same, confirmed[pushes[i].grant], pushes[i]))
  }

  lemma InverseListed(pending: map<Nonce, Request>, byDigest: map<Binding, Nonce>, n: Nonce, r: Request)
    requires Inverse(pending, byDigest) && n !in pending && r.binding !in byDigest
    ensures Inverse(pending[n := r], byDigest[r.binding := n])
  {
  }

  lemma InverseUnlisted(pending: map<Nonce, Request>, byDigest: map<Binding, Nonce>, n: Nonce)
    requires Inverse(pending, byDigest) && n in pending
    ensures Inverse(pending - {n}, byDigest - {pending[n].binding})
  {
  }

  lemma NonceTaken(nonceAt: map<Nonce, NoncePlace>, issued: nat, pending: map<Nonce, Request>,
    threads: map<ThreadId, Thread>, confirmed: map<GrantId, Confirmation>, refused: set<Nonce>, t: ThreadId, next: Thread)
    requires NoncesOneWay(nonceAt, issued, pending, threads, confirmed, refused) && next.Confirming?
    requires next.nonce in nonceAt && nonceAt[next.nonce] == Listed && next.nonce !in pending && !Took(threads, t)
    ensures NoncesOneWay(nonceAt[next.nonce := TakenBy(t)], issued, pending, threads[t := next], confirmed, refused)
  {
  }

  /** A thread that takes no nonce does not matter to them. */
  lemma NoncesIgnore(nonceAt: map<Nonce, NoncePlace>, issued: nat, pending: map<Nonce, Request>,
    threads: map<ThreadId, Thread>, confirmed: map<GrantId, Confirmation>, refused: set<Nonce>, t: ThreadId, next: Thread)
    requires NoncesOneWay(nonceAt, issued, pending, threads, confirmed, refused) && !next.Confirming? && !next.Checking?
    ensures NoncesOneWay(nonceAt, issued, pending, threads[t := next], confirmed, refused)
  {
  }

  lemma NonceListed(nonceAt: map<Nonce, NoncePlace>, issued: nat, pending: map<Nonce, Request>,
    threads: map<ThreadId, Thread>, confirmed: map<GrantId, Confirmation>, refused: set<Nonce>, n: Nonce, r: Request)
    requires NoncesOneWay(nonceAt, issued, pending, threads, confirmed, refused) && n < issued && n !in nonceAt
    ensures NoncesOneWay(nonceAt[n := Listed], issued, pending[n := r], threads, confirmed, refused)
  {
  }

  lemma NonceConfirmed(nonceAt: map<Nonce, NoncePlace>, issued: nat, pending: map<Nonce, Request>,
    threads: map<ThreadId, Thread>, confirmed: map<GrantId, Confirmation>, refused: set<Nonce>, t: ThreadId, g: GrantId, c: Confirmation)
    requires NoncesOneWay(nonceAt, issued, pending, threads, confirmed, refused) && g < issued && g !in confirmed
    requires c.nonce in nonceAt && nonceAt[c.nonce] == TakenBy(t) && !Took(threads, t)
    ensures NoncesOneWay(nonceAt[c.nonce := DecidedAs(g)], issued, pending, threads, confirmed[g := c], refused)
  {
  }

  lemma GrantTaken(same: Sameness, grantAt: map<GrantId, GrantPlace>, confirmed: map<GrantId, Confirmation>,
    grants: map<GrantId, Request>, threads: map<ThreadId, Thread>, pushes: seq<Push>, t: ThreadId, next: Thread)
    requires GrantsOneWay(same, grantAt, confirmed, grants, threads, pushes) && !Holds(threads, t)
    requires next.Consuming? && next.grant in grants && next.item == grants[next.grant]
    requires next.canonical.Some? ==> same(next.canonical.value, next.current)
    ensures GrantsOneWay(same, grantAt[next.grant := HeldBy(t)], confirmed, grants - {next.grant}, threads[t := next], pushes)
  {
  }

  lemma GrantAdded(same: Sameness, grantAt: map<GrantId, GrantPlace>, confirmed: map<GrantId, Confirmation>,
    grants: map<GrantId, Request>, threads: map<ThreadId, Thread>, pushes: seq<Push>, g: GrantId, c: Confirmation, item: Request)
    requires GrantsOneWay(same, grantAt, confirmed, grants, threads, pushes) && g !in confirmed
    requires item == Request(c.binding, c.expires)
    ensures GrantsOneWay(same, grantAt[g := InManager], confirmed[g := c], grants[g := item], threads, pushes)
  {
  }

  class PushGateway {
    const lifetime: nat
    ghost const same: Sameness   // (c, b): c is the canonical form of b

    var clock: nat
    var issued: nat                        // nonces and grant identities below this are taken
    var requests: map<Nonce, Request>      // approval manager: pending
    var grants: map<GrantId, Request>      // approval manager: grants
    var pending: map<Nonce, Request>       // hook broker: pending
    var byDigest: map<Binding, Nonce>      // hook broker: byDigest
    var approved: map<Binding, GrantId>    // hook broker: approved
    var threads: map<ThreadId, Thread>

    ghost var nonceAt: map<Nonce, NoncePlace>
    ghost var grantAt: map<GrantId, GrantPlace>
    ghost var confirmed: map<GrantId, Confirmation>
    ghost var refused: set<Nonce>          // rejected, or confirmed wrongly or too late
    ghost var pushes: seq<Push>
    ghost var taken: seq<Action>           // the steps so far

    constructor (lifetime: nat, ghost same: Sameness)
      ensures Valid() && pushes == [] && confirmed == map[] && refused == {} && this.same == same
      ensures this.lifetime == lifetime && taken == [] && clock == 0
    {
      this.lifetime, this.same := lifetime, same;
      clock, issued := 0, 0;
      requests, grants, pending, byDigest, approved, threads := map[], map[], map[], map[], map[], map[];
      nonceAt, grantAt, confirmed, refused, pushes := map[], map[], map[], {}, [];
      taken := [];
    }

    // ----- The invariant -----

    ghost predicate Valid()
      reads this
    {
      && Inverse(pending, byDigest)
      && NoncesOneWay(nonceAt, issued, pending, threads, confirmed, refused)
      && GrantsOneWay(same, grantAt, confirmed, grants, threads, pushes)
    }

    /** Every push has a confirmed nonce of its own, for the same canonical binding, which had not
        expired when the approval was consumed and was never refused. */
    ghost predicate OnePushPerApproval()
      reads this
    {
      && (forall i :: 0 <= i < |pushes| ==>
            && pushes[i].grant in confirmed
            && Matches(same, confirmed[pushes[i].grant], pushes[i])
            && confirmed[pushes[i].grant].nonce !in refused)
      && (forall i, j :: 0 <= i < j < |pushes| && pushes[i].grant in confirmed && pushes[j].grant in confirmed ==>
            confirmed[pushes[i].grant].nonce != confirmed[pushes[j].grant].nonce)
    }

    function ThreadOf(t: ThreadId): Thread
      reads this`threads
    {
      if t in threads then threads[t] else Idle
    }

    /** A request for the same push is listed and has not expired. */
    predicate Live(d: Binding)
      requires Inverse(pending, byDigest)
      reads this`pending, this`byDigest, this`clock
    {
      d in byDigest && clock < pending[byDigest[d]].expires
    }

    // ----- Hook connections -----

    method Become(t: ThreadId, next: Thread)
      requires Valid() && (next.Idle? || next.Looking? || next.Asking? || next.Executing? || next.Rejecting? || next.Granted?)
      modifies this`threads
      ensures Valid() && threads == old(threads)[t := next]
    {
      threads := threads[t := next];
    }

    method DoArrive(t: ThreadId, canonical: Option<Binding>)
      requires Valid()
      modifies this`threads
      ensures Valid()
      ensures threads == if old(ThreadOf(t)).Idle? && canonical.Some? then old(threads)[t := Looking(canonical.value)] else old(threads)
    {
      if (t !in threads || threads[t].Idle?) && canonical.Some? {
        Become(t, Looking(canonical.value));
      }
    }

    method DoTakeGrant(t: ThreadId)
      requires Valid()
      modifies this`threads, this`approved
      ensures Valid()
      ensures match old(ThreadOf(t))
        case Looking(d) =>
          && approved == old(approved) - {d}
          && threads == old(threads)[t := if d in old(approved) then Executing(old(approved)[d]) else Asking(d)]
        case _ => approved == old(approved) && threads == old(threads)
    {
      if t in threads && threads[t].Looking? {
        var d := threads[t].digest;
        if d in approved {
          var g := approved[d];
          approved := approved - {d};
          Become(t, Executing(g));
        } else {
          Become(t, Asking(d));
        }
      }
    }

    method DoAsk(t: ThreadId, recorded: bool)
      requires Valid()
      modifies this`threads, this`issued, this`requests, this`pending, this`byDigest, this`nonceAt
      ensures Valid()
      ensures match old(ThreadOf(t))
        case Asking(d) =>
          && threads == old(threads)[t := Idle]
          && Asked(old(pending), old(byDigest), old(requests), old(issued), old(Live(d)), d, recorded)
        case _ => threads == old(threads) && pending == old(pending) && byDigest == old(byDigest) && requests == old(requests)
    {
      if t in threads && threads[t].Asking? {
        var d := threads[t].digest;
        Become(t, Idle);
        AskFor(d, recorded);
      }
    }

    /** Keep a live request; otherwise drop an expired one and list a new one. */
    method AskFor(d: Binding, recorded: bool)
      requires Valid()
      modifies this`issued, this`requests, this`pending, this`byDigest, this`nonceAt
      ensures Valid() && Asked(old(pending), old(byDigest), old(requests), old(issued), old(Live(d)), d, recorded)
    {
      if d in byDigest {
        if clock < pending[byDigest[d]].expires {
          return;
        }
        Unlist(byDigest[d]);
      }
      if recorded {
        List(d);
      }
    }

    /** The outcome of asking for approval of push d, from the indexes and requests before. */
    predicate Asked(pending0: map<Nonce, Request>, byDigest0: map<Binding, Nonce>, requests0: map<Nonce, Request>, n: Nonce, live: bool,
      d: Binding, recorded: bool)
      reads this`pending, this`byDigest, this`requests, this`clock
    {
      var r := Request(d, clock + lifetime);
      var kept := if d in byDigest0 then pending0 - {byDigest0[d]} else pending0;
      if live then pending == pending0 && byDigest == byDigest0 && requests == requests0
      else if !recorded then pending == kept && byDigest == byDigest0 - {d} && requests == requests0
      else pending == kept[n := r] && byDigest == byDigest0[d := n] && requests == requests0[n := r]
    }

    /** Remove a request from both broker indexes. */
    method Unlist(n: Nonce)
      requires Valid() && n in pending
      modifies this`pending, this`byDigest
      ensures Valid() && pending == old(pending) - {n} && byDigest == old(byDigest) - {old(pending)[n].binding}
    {
      InverseUnlisted(pending, byDigest, n);
      byDigest, pending := byDigest - {pending[n].binding}, pending - {n};
    }

    /** A value nobody has seen before. */
    method Draw() returns (id: nat)
      requires Valid()
      modifies this`issued
      ensures Valid() && id == old(issued) && issued == id + 1
      ensures id !in nonceAt && id !in pending && id !in confirmed && id !in grantAt && id !in grants
    {
      id := issued;
      issued := issued + 1;
    }

    /** Issue a fresh nonce and enter it in the manager and in both broker indexes. */
    method List(d: Binding)
      requires Valid() && d !in byDigest
      modifies this`issued, this`requests, this`pending, this`byDigest, this`nonceAt
      ensures Valid()
      ensures var r := Request(d, clock + lifetime);
        && requests == old(requests)[old(issued) := r] && pending == old(pending)[old(issued) := r] && byDigest == old(byDigest)[d := old(issued)]
    {
      var n := Draw();
      var r := Request(d, clock + lifetime);
      Enlist(n, r);
      requests := requests[n := r];
    }

    method Enlist(n: Nonce, r: Request)
      requires Valid() && r.binding !in byDigest && n < issued && n !in nonceAt && n !in pending
      modifies this`pending, this`byDigest, this`nonceAt
      ensures Valid() && pending == old(pending)[n := r] && byDigest == old(byDigest)[r.binding := n]
    {
      NonceListed(nonceAt, issued, pending, threads, confirmed, refused, n, r);
      InverseListed(pending, byDigest, n, r);
      nonceAt, pending, byDigest := nonceAt[n := Listed], pending[n := r], byDigest[r.binding := n];
    }

    /** Take the grant out of the manager; whatever follows, it cannot be taken again. */
    method DoConsumeTake(t: ThreadId, resolved: Binding, canonical: Option<Binding>)
      requires Valid() && (canonical.Some? ==> same(canonical.value, resolved))
      modifies this`threads, this`grants, this`grantAt
      ensures Valid()
      ensures match old(ThreadOf(t))
        case Executing(g) =>
          && grants == old(grants) - {g}
          && threads == old(threads)[t := if g in old(grants) then Consuming(g, old(grants)[g], resolved, canonical) else Idle]
        case _ => grants == old(grants) && threads == old(threads)
    {
      if t in threads && threads[t].Executing? {
        var g := threads[t].grant;
        if g !in grants {
          Become(t, Idle);
          return;
        }
        TakeOut(t, g, Consuming(g, grants[g], resolved, canonical));
      }
    }

    method TakeOut(t: ThreadId, g: GrantId, next: Thread)
      requires Valid() && g in grants && !Took(threads, t) && !Holds(threads, t)
      requires next.Consuming? && next.grant == g && next.item == grants[g]
      requires next.canonical.Some? ==> same(next.canonical.value, next.current)
      modifies this`threads, this`grants, this`grantAt
      ensures Valid() && grants == old(grants) - {g} && threads == old(threads)[t := next]
    {
      NoncesIgnore(nonceAt, issued, pending, threads, confirmed, refused, t, next);
      GrantTaken(same, grantAt, confirmed, grants, threads, pushes, t, next);
      grants, grantAt, threads := grants - {g}, grantAt[g := HeldBy(t)], threads[t := next];
    }

    method DoConsumeCheck(t: ThreadId, recorded: bool)
      requires Valid()
      modifies this`threads
      ensures Valid()
      ensures match old(ThreadOf(t))
        case Consuming(g, item, current, canonical) =>
          threads == old(threads)[t :=
            if canonical == Some(item.binding) && clock < item.expires && recorded then Pushing(g, current, clock) else Idle]
        case _ => threads == old(threads)
    {
      if t in threads && threads[t].Consuming? {
        var thread := threads[t];
        assert Holds(threads, t);
        if thread.canonical.None? || clock >= thread.item.expires || thread.item.binding != thread.canonical.value || !recorded {
          Become(t, Idle);
        } else {
          threads := threads[t := Pushing(thread.grant, thread.current, clock)];
        }
      }
    }

    method DoSendPush(t: ThreadId, recorded: bool)
      requires Valid()
      modifies this`threads, this`pushes, this`grantAt
      ensures Valid()
      ensures match old(ThreadOf(t))
        case Pushing(g, current, at) =>
          threads == old(threads)[t := Idle] && pushes == old(pushes) + if recorded then [Push(g, current, at)] else []
        case _ => threads == old(threads) && pushes == old(pushes)
    {
      if t in threads && threads[t].Pushing? {
        var thread := threads[t];
        assert Holds(threads, t);
        Become(t, Idle);
        if recorded {
          Send(t, Push(thread.grant, thread.current, thread.consumedAt));
        }
      }
    }

    ghost method Send(t: ThreadId, push: Push)
      requires Valid() && !Holds(threads, t)
      requires push.grant in grantAt && grantAt[push.grant] == HeldBy(t) && Matches(same, confirmed[push.grant], push)
      modifies this`pushes, this`grantAt
      ensures Valid() && pushes == old(pushes) + [push]
    {
      grantAt := grantAt[push.grant := SentAs(|pushes|)];
      pushes := pushes + [push];
    }

    // ----- Host decisions -----

    method DoConfirmTake(t: ThreadId, nonce: Nonce, presented: Option<Binding>)
      requires Valid()
      modifies this`threads, this`pending, this`byDigest, this`nonceAt
      ensures Valid()
      ensures if old(ThreadOf(t).Idle? && nonce in pending) then
          var d := old(pending)[nonce].binding;
          pending == old(pending) - {nonce} && byDigest == old(byDigest) - {d} && threads == old(threads)[t := Confirming(nonce, presented, d)]
        else
          pending == old(pending) && byDigest == old(byDigest) && threads == old(threads)
    {
      if (t !in threads || threads[t].Idle?) && nonce in pending {
        var d := pending[nonce].binding;
        Unlist(nonce);
        Take(t, Confirming(nonce, presented, d));
      }
    }

    method Take(t: ThreadId, next: Thread)
      requires Valid() && next.Confirming? && !Took(threads, t) && !Holds(threads, t)
      requires next.nonce in nonceAt && nonceAt[next.nonce] == Listed && next.nonce !in pending
      modifies this`threads, this`nonceAt
      ensures Valid() && threads == old(threads)[t := next]
    {
      NonceTaken(nonceAt, issued, pending, threads, confirmed, refused, t, next);
      nonceAt, threads := nonceAt[next.nonce := TakenBy(t)], threads[t := next];
    }

    method DoConfirmWithdraw(t: ThreadId)
      requires Valid()
      modifies this`threads, this`requests
      ensures Valid()
      ensures match old(ThreadOf(t))
        case Confirming(n, presented, d) =>
          && requests == old(requests) - {n}
          && threads == old(threads)[t := Checking(n, if n in old(requests) then Some(old(requests)[n]) else None, presented, d)]
        case _ => requests == old(requests) && threads == old(threads)
    {
      if t in threads && threads[t].Confirming? {
        var thread := threads[t];
        assert Took(threads, t);
        var found := if thread.nonce in requests then Some(requests[thread.nonce]) else None;
        requests := requests - {thread.nonce};
        threads := threads[t := Checking(thread.nonce, found, thread.presented, thread.digest)];
      }
    }

    method DoConfirmGrant(t: ThreadId, recorded: bool)
      requires Valid()
      modifies this`threads, this`refused, this`nonceAt, this`issued, this`grants, this`grantAt, this`confirmed
      ensures Valid() && old(refused) <= refused
      ensures match old(ThreadOf(t))
        case Checking(n, found, presented, d) =>
          if found.Some? && presented == Some(found.value.binding) && clock < found.value.expires && recorded then
            grants == old(grants)[old(issued) := found.value] && threads == old(threads)[t := Granted(old(issued), d)]
          else
            grants == old(grants) && threads == old(threads)[t := Idle] && n in refused
        case _ => grants == old(grants) && threads == old(threads) && refused == old(refused)
    {
      if t in threads && threads[t].Checking? {
        var thread := threads[t];
        assert Took(threads, t);
        Become(t, Idle);
        if thread.presented.None? || thread.found.None? || clock >= thread.found.value.expires
          || thread.found.value.binding != thread.presented.value || !recorded {
          Refuse(t, thread.nonce);
        } else {
          var g := NewGrant(t, thread.nonce, thread.found.value);
          Become(t, Granted(g, thread.digest));
        }
      }
    }

    ghost method Refuse(t: ThreadId, nonce: Nonce)
      requires Valid() && nonce in nonceAt && nonceAt[nonce] == TakenBy(t) && !Took(threads, t)
      modifies this`nonceAt, this`refused
      ensures Valid() && refused == old(refused) + {nonce}
    {
      nonceAt, refused := nonceAt[nonce := NoncePlace.Refused], refused + {nonce};
    }

    method NewGrant(t: ThreadId, nonce: Nonce, item: Request) returns (g: GrantId)
      requires Valid() && nonce in nonceAt && nonceAt[nonce] == TakenBy(t) && !Took(threads, t)
      modifies this`nonceAt, this`issued, this`grants, this`grantAt, this`confirmed
      ensures Valid() && g == old(issued) && grants == old(grants)[g := item]
    {
      g := Draw();
      Decide(t, g, Confirmation(nonce, item.binding, item.expires), item);
      grants := grants[g := item];
    }

    ghost method Decide(t: ThreadId, g: GrantId, c: Confirmation, item: Request)
      requires Valid() && g < issued && g !in confirmed
      requires c.nonce in nonceAt && nonceAt[c.nonce] == TakenBy(t) && !Took(threads, t)
      requires item == Request(c.binding, c.expires)
      modifies this`nonceAt, this`grantAt, this`confirmed
      ensures NoncesOneWay(nonceAt, issued, pending, threads, confirmed, refused)
      ensures GrantsOneWay(same, grantAt, confirmed, grants[g := item], threads, pushes)
    {
      NonceConfirmed(nonceAt, issued, pending, threads, confirmed, refused, t, g, c);
      GrantAdded(same, grantAt, confirmed, grants, threads, pushes, g, c, item);
      nonceAt, confirmed, grantAt := nonceAt[c.nonce := DecidedAs(g)], confirmed[g := c], grantAt[g := InManager];
    }

    method DoConfirmPublish(t: ThreadId)
      requires Valid()
      modifies this`threads, this`approved
      ensures Valid()
      ensures match old(ThreadOf(t))
        case Granted(g, d) => approved == old(approved)[d := g] && threads == old(threads)[t := Idle]
        case _ => approved == old(approved) && threads == old(threads)
    {
      if t in threads && threads[t].Granted? {
        approved := approved[threads[t].digest := threads[t].grant];
        Become(t, Idle);
      }
    }

    /** A rejected nonce is refused from the moment it leaves the broker. */
    method DoRejectTake(t: ThreadId, nonce: Nonce)
      requires Valid()
      modifies this`threads, this`pending, this`byDigest, this`refused, this`nonceAt
      ensures Valid() && old(refused) <= refused
      ensures if old(ThreadOf(t).Idle? && nonce in pending) then
          && pending == old(pending) - {nonce} && byDigest == old(byDigest) - {old(pending)[nonce].binding}
          && nonce in refused && threads == old(threads)[t := Rejecting(nonce)]
        else
          pending == old(pending) && byDigest == old(byDigest) && threads == old(threads)
    {
      if (t !in threads || threads[t].Idle?) && nonce in pending {
        Unlist(nonce);
        nonceAt := nonceAt[nonce := Refused];
        refused := refused + {nonce};
        Become(t, Rejecting(nonce));
      }
    }

    method DoRejectWithdraw(t: ThreadId)
      requires Valid()
      modifies this`threads, this`requests
      ensures Valid()
      ensures match old(ThreadOf(t))
        case Rejecting(n) => requests == old(requests) - {n} && threads == old(threads)[t := Idle]
        case _ => requests == old(requests) && threads == old(threads)
    {
      if t in threads && threads[t].Rejecting? {
        requests := requests - {threads[t].nonce};
        Become(t, Idle);
      }
    }

    method DoTick()
      requires Valid()
      modifies this`clock
      ensures Valid() && clock == old(clock) + 1
    {
      clock := clock + 1;
    }

    /** Left alone, the whole path works: a push that nobody has asked for yet is asked for by one
        connection, confirmed by the host, and sent when it is tried again. */
    method ApprovedPush(t: ThreadId, host: ThreadId, d: Binding, resolved: Binding)
      requires Valid() && t != host && ThreadOf(t).Idle? && ThreadOf(host).Idle? && lifetime > 0
      requires d !in byDigest && d !in approved && same(d, resolved)
      modifies this
      ensures Valid() && |pushes| == |old(pushes)| + 1 && pushes[..|old(pushes)|] == old(pushes)
      ensures pushes[|old(pushes)|].binding == resolved && d !in approved && d !in byDigest
    {
      RequestPush(t, d);
      ConfirmListed(host, d);
      SendApproved(t, d, resolved);
    }

    /** An idle connection finds the grant for its push, or goes on to ask. */
    method LookUp(t: ThreadId, d: Binding)
      requires Valid() && ThreadOf(t).Idle?
      modifies this`threads, this`approved
      ensures Valid() && approved == old(approved) - {d}
      ensures threads == old(threads)[t := if d in old(approved) then Executing(old(approved)[d]) else Asking(d)]
    {
      DoArrive(t, Some(d));
      assert ThreadOf(t) == Looking(d);
      DoTakeGrant(t);
    }

    method RequestPush(t: ThreadId, d: Binding)
      requires Valid() && ThreadOf(t).Idle? && lifetime > 0 && d !in byDigest && d !in approved
      modifies this`threads, this`approved, this`issued, this`requests, this`pending, this`byDigest, this`nonceAt
      ensures Valid() && threads == old(threads)[t := Idle] && approved == old(approved) && d in byDigest
      ensures byDigest[d] in requests && requests[byDigest[d]] == pending[byDigest[d]] == Request(d, clock + lifetime)
    {
      LookUp(t, d);
      assert ThreadOf(t) == Asking(d);
      DoAsk(t, true);
    }

    method ConfirmListed(host: ThreadId, d: Binding)
      requires Valid() && ThreadOf(host).Idle? && d in byDigest && byDigest[d] in requests
      requires requests[byDigest[d]] == pending[byDigest[d]] && clock < pending[byDigest[d]].expires
      modifies this`threads, this`approved, this`issued, this`requests, this`pending, this`byDigest, this`nonceAt, this`grants, this`grantAt, this`confirmed, this`refused
      ensures Valid() && threads == old(threads)[host := Idle] && d !in byDigest
      ensures d in approved && approved[d] in grants && grants[approved[d]].binding == d && clock < grants[approved[d]].expires
    {
      var n, r := byDigest[d], pending[byDigest[d]];
      FindListed(host, n, r);
      GrantFound(host, n, r);
    }

    method FindListed(host: ThreadId, n: Nonce, r: Request)
      requires Valid() && ThreadOf(host).Idle? && n in pending && pending[n] == r && n in requests && requests[n] == r
      modifies this`threads, this`requests, this`pending, this`byDigest, this`nonceAt
      ensures Valid() && threads == old(threads)[host := Checking(n, Some(r), Some(r.binding), r.binding)]
      ensures byDigest == old(byDigest) - {r.binding}
    {
      DoConfirmTake(host, n, Some(r.binding));
      assert ThreadOf(host) == Confirming(n, Some(r.binding), r.binding);
      DoConfirmWithdraw(host);
    }

    method GrantFound(host: ThreadId, n: Nonce, r: Request)
      requires Valid() && ThreadOf(host) == Checking(n, Some(r), Some(r.binding), r.binding) && clock < r.expires
      modifies this`threads, this`approved, this`issued, this`nonceAt, this`grants, this`grantAt, this`confirmed, this`refused
      ensures Valid() && threads == old(threads)[host := Idle]
      ensures approved == old(approved)[r.binding := old(issued)] && grants == old(grants)[old(issued) := r]
    {
      DoConfirmGrant(host, true);
      assert ThreadOf(host) == Granted(old(issued), r.binding);
      DoConfirmPublish(host);
    }

    method SendApproved(t: ThreadId, d: Binding, resolved: Binding)
      requires Valid() && ThreadOf(t).Idle? && same(d, resolved)
      requires d in approved && approved[d] in grants && grants[approved[d]].binding == d && clock < grants[approved[d]].expires
      modifies this`threads, this`approved, this`grants, this`grantAt, this`pushes
      ensures Valid() && pushes == old(pushes) + [Push(old(approved)[d], resolved, clock)] && d !in approved
    {
      var g := approved[d];
      LookUp(t, d);
      assert ThreadOf(t) == Executing(g);
      SendExecuting(t, g, d, resolved);
    }

    method SendExecuting(t: ThreadId, g: GrantId, d: Binding, resolved: Binding)
      requires Valid() && ThreadOf(t) == Executing(g) && same(d, resolved) && g in grants && grants[g].binding == d && clock < grants[g].expires
      modifies this`threads, this`grants, this`grantAt, this`pushes
      ensures Valid() && pushes == old(pushes) + [Push(g, resolved, clock)]
    {
      DoConsumeTake(t, resolved, Some(d));
      SendTaken(t, g);
    }

    method SendTaken(t: ThreadId, g: GrantId)
      requires Valid() && ThreadOf(t).Consuming? && ThreadOf(t).grant == g
      requires ThreadOf(t).canonical == Some(ThreadOf(t).item.binding) && clock < ThreadOf(t).item.expires
      modifies this`threads, this`grantAt, this`pushes
      ensures Valid() && pushes == old(pushes) + [Push(g, old(ThreadOf(t)).current, clock)]
    {
      DoConsumeCheck(t, true);
      assert ThreadOf(t) == Pushing(g, old(ThreadOf(t)).current, clock);
      DoSendPush(t, true);
    }

    lemma PushesApproved()
      requires Valid()
      ensures OnePushPerApproval()
    {
    }
  }

  // ----- Every interleaving -----

  predicate FromHook(action: Action) {
    action.Arrive? || action.TakeGrant? || action.Ask? || action.ConsumeTake? || action.ConsumeCheck? || action.SendPush?
  }

  /** Where an action of a hook connection takes its thread, and what it leaves behind. */
  twostate predicate HookPerformed(gateway: PushGateway, action: Action)
    reads gateway
    requires FromHook(action)
  {
    var before, after := old(gateway.ThreadOf(action.t)), gateway.ThreadOf(action.t);
    && (!action.SendPush? ==> gateway.pushes == old(gateway.pushes))
    && match action
       case Arrive(_, resolved) =>
         before.Idle? && Acceptable(resolved) && DistinctRefs(resolved.updates) ==> after.Looking? && gateway.same(after.digest, resolved)
       case TakeGrant(_) =>
         before.Looking? ==>
           && before.digest !in gateway.approved
           && after == if before.digest in old(gateway.approved) then Executing(old(gateway.approved)[before.digest]) else Asking(before.digest)
       case Ask(_, recorded) => before.Asking? ==> after.Idle? && (recorded ==> before.digest in gateway.byDigest)
       case ConsumeTake(_, resolved) =>
         before.Executing? ==>
           && before.grant !in gateway.grants
           && if before.grant in old(gateway.grants) then after.Consuming? && after.current == resolved else after.Idle?
       case ConsumeCheck(_, recorded) => before.Consuming? ==> (after.Pushing? && recorded) || after.Idle?
       case SendPush(_, recorded) =>
         before.Pushing? ==> after.Idle? && |gateway.pushes| == |old(gateway.pushes)| + if recorded then 1 else 0
  }

  /** The same for what the host does. */
  twostate predicate HostPerformed(gateway: PushGateway, action: Action)
    reads gateway
    requires !FromHook(action)
  {
    && gateway.pushes == old(gateway.pushes)
    && (action.Tick? ==> gateway.threads == old(gateway.threads))
    && (!action.Tick? ==>
      var before, after := old(gateway.ThreadOf(action.t)), gateway.ThreadOf(action.t);
      match action
      case ConfirmTake(_, nonce, _) =>
        before.Idle? && nonce in old(gateway.pending) ==> nonce !in gateway.pending && after.Confirming? && after.nonce == nonce
      case ConfirmWithdraw(_) => before.Confirming? ==> after.Checking? && before.nonce !in gateway.requests
      case ConfirmGrant(_, recorded) => before.Checking? ==> (after.Granted? && recorded) || after.Idle?
      case ConfirmPublish(_) => before.Granted? ==> after.Idle? && before.digest in gateway.approved
      case RejectTake(_, nonce) =>
        before.Idle? && nonce in old(gateway.pending) ==> nonce !in gateway.pending && nonce in gateway.refused && after.Rejecting?
      case RejectWithdraw(_) => before.Rejecting? ==> after.Idle? && before.nonce !in gateway.requests
      case _ => after.Idle?)
  }

  method HookStep(gateway: PushGateway, action: Action)
    requires gateway.Valid() && (forall c, b :: gateway.same(c, b) <==> IsCanonicalFor(c, b)) && FromHook(action)
    modifies gateway`threads, gateway`approved, gateway`issued, gateway`requests, gateway`pending, gateway`byDigest, gateway`nonceAt
    modifies gateway`grants, gateway`grantAt, gateway`pushes
    ensures gateway.Valid() && HookPerformed(gateway, action)
  {
    match action {
      case Arrive(t, resolved) =>
        var canonical := Canonicalize(resolved);
        gateway.DoArrive(t, canonical);
      case TakeGrant(t) => gateway.DoTakeGrant(t);
      case Ask(t, recorded) => gateway.DoAsk(t, recorded);
      case ConsumeTake(t, resolved) =>
        var canonical := Canonicalize(resolved);
        gateway.DoConsumeTake(t, resolved, canonical);
      case ConsumeCheck(t, recorded) => gateway.DoConsumeCheck(t, recorded);
      case SendPush(t, recorded) => gateway.DoSendPush(t, recorded);
    }
  }

  method HostStep(gateway: PushGateway, action: Action)
    requires gateway.Valid() && !FromHook(action)
    modifies gateway`clock, gateway`threads, gateway`approved, gateway`issued, gateway`requests, gateway`pending, gateway`byDigest
    modifies gateway`nonceAt, gateway`grants, gateway`grantAt, gateway`confirmed, gateway`refused
    ensures gateway.Valid() && old(gateway.refused) <= gateway.refused && HostPerformed(gateway, action)
    ensures gateway.clock == old(gateway.clock) + if action.Tick? then 1 else 0
  {
    match action {
      case ConfirmTake(t, nonce, presented) =>
        var canonical := Canonicalize(presented);
        gateway.DoConfirmTake(t, nonce, canonical);
      case ConfirmWithdraw(t) => gateway.DoConfirmWithdraw(t);
      case ConfirmGrant(t, recorded) => gateway.DoConfirmGrant(t, recorded);
      case ConfirmPublish(t) => gateway.DoConfirmPublish(t);
      case RejectTake(t, nonce) => gateway.DoRejectTake(t, nonce);
      case RejectWithdraw(t) => gateway.DoRejectWithdraw(t);
      case Abandon(t) => gateway.Become(t, Idle);
      case Tick => gateway.DoTick();
    }
  }

  method Step(gateway: PushGateway, action: Action)
    requires gateway.Valid() && forall c, b :: gateway.same(c, b) <==> IsCanonicalFor(c, b)
    modifies gateway
    ensures gateway.Valid() && old(gateway.refused) <= gateway.refused && gateway.taken == old(gateway.taken) + [action]
    ensures gateway.clock == old(gateway.clock) + if action.Tick? then 1 else 0
    ensures if FromHook(action) then HookPerformed(gateway, action) else HostPerformed(gateway, action)
  {
    gateway.taken := gateway.taken + [action];
    if FromHook(action) {
      HookStep(gateway, action);
    } else {
      HostStep(gateway, action);
    }
  }

  /** After every interleaving of critical sections: each push answers to a confirmed nonce of its
      own, and the broker's indexes are exact inverses. */
  method Interleave(lifetime: nat, actions: seq<Action>) returns (gateway: PushGateway)
    ensures Inverse(gateway.pending, gateway.byDigest) && gateway.OnePushPerApproval()
    ensures forall c, b :: gateway.same(c, b) <==> IsCanonicalFor(c, b)
    ensures gateway.lifetime == lifetime && gateway.taken == actions
  {
    gateway := new PushGateway(lifetime, (c, b) => IsCanonicalFor(c, b));
    for k := 0 to |actions|
      invariant gateway.Valid() && fresh(gateway)
      invariant forall c, b :: gateway.same(c, b) <==> IsCanonicalFor(c, b)
      invariant gateway.lifetime == lifetime && gateway.taken == actions[..k]
    {
      assert actions[..k + 1] == actions[..k] + [actions[k]];
      Step(gateway, actions[k]);
    }
    gateway.PushesApproved();
  }
}
