/** canonicalBinding of internal/gitgateway: one form for every way of writing the same push. */
module PushBinding {
  import opened Faults
  import opened ByteOrder
  import KeyedSort
  import opened Texts

  datatype RefUpdate = RefUpdate(name: string, before: string, after: string, force: bool, delete: bool)

  /** A remote URL, taken apart. */
  datatype Remote = Remote(scheme: string, user: bool, host: string, path: string, query: string, fragment: string)

  datatype Binding = Binding(project: string, repository: string, remoteName: string, remote: Remote, updates: seq<RefUpdate>)

  const MAX_UPDATES := 128

  // ----- Well-formedness -----

  predicate IsDigit(c: char) {
    '0' <= c <= '9'
  }

  predicate IsLetter(c: char) {
    'a' <= c <= 'z' || 'A' <= c <= 'Z'
  }

  /** A letter or digit, then at most 127 letters, digits, dots, underscores and dashes. */
  predicate GitIdentity(s: string) {
    && 1 <= |s| <= 128 && (IsLetter(s[0]) || IsDigit(s[0]))
    && forall k :: 1 <= k < |s| ==> IsLetter(s[k]) || IsDigit(s[k]) || s[k] in "._-"
  }

  predicate ObjectId(s: string) {
    |s| in {40, 64} && forall k :: 0 <= k < |s| ==> IsDigit(s[k]) || 'a' <= s[k] <= 'f'
  }

  predicate RefName(s: string) {
    && 6 <= |s| <= 1005 && s[..5] == "refs/" && (IsLetter(s[5]) || IsDigit(s[5]))
    && forall k :: 6 <= k < |s| ==> IsLetter(s[k]) || IsDigit(s[k]) || s[k] in "._/-"
  }

  predicate AllZero(s: string) {
    forall k :: 0 <= k < |s| ==> s[k] == '0'
  }

  predicate GoodUpdate(u: RefUpdate) {
    && RefName(u.name) && ObjectId(u.before) && ObjectId(u.after) && |u.before| == |u.after|
    && (u.delete <==> AllZero(u.after)) && !(AllZero(u.before) && u.delete)
  }

  predicate GoodRemote(r: Remote) {
    && Lower(r.scheme) in {"https", "ssh"} && r.host != "" && !r.user && r.query == "" && r.fragment == ""
    && |r.path| >= 4 && r.path[|r.path| - 4..] == ".git"
  }

  function NormalizedRemote(r: Remote): Remote {
    r.(scheme := Lower(r.scheme), host := Lower(r.host))
  }

  predicate WellFormed(b: Binding) {
    && GitIdentity(b.project) && GitIdentity(b.repository) && GitIdentity(b.remoteName)
    && 1 <= |b.updates| <= MAX_UPDATES && GoodRemote(b.remote)
    && forall k :: 0 <= k < |b.updates| ==> GoodUpdate(b.updates[k])
  }

  // ----- What well-formed means -----

  /** An ASCII letter or digit, by its code. */
  predicate Alphanumeric(c: char) {
    48 <= c as int <= 57 || 65 <= c as int <= 90 || 97 <= c as int <= 122
  }

  /** The prefix, a letter or digit, and then at most 'most' characters, each a letter, a digit or
      one of the extra ones. */
  ghost predicate Named(s: string, prefix: string, most: nat, extra: set<char>) {
    exists c: char, rest: string :: s == prefix + [c] + rest && Alphanumeric(c) && |rest| <= most && AllNameable(rest, extra)
  }

  predicate AllNameable(s: string, extra: set<char>) {
    forall k :: 0 <= k < |s| ==> Alphanumeric(s[k]) || s[k] in extra
  }

  lemma NamedAt(s: string, prefix: string, most: nat, extra: set<char>)
    ensures Named(s, prefix, most, extra) <==>
      && |prefix| < |s| <= |prefix| + 1 + most && s[..|prefix|] == prefix && Alphanumeric(s[|prefix|])
      && AllNameable(s[|prefix| + 1..], extra)
  {
    if |prefix| < |s| {
      assert s == s[..|prefix|] + [s[|prefix|]] + s[|prefix| + 1..];
    }
    forall c: char, rest: string | s == prefix + [c] + rest
      ensures s[..|prefix|] == prefix && s[|prefix|] == c && s[|prefix| + 1..] == rest
    {
    }
  }

  /** Forty or sixty-four lower-case hexadecimal digits. */
  predicate Hexadecimal(s: string) {
    (|s| == 40 || |s| == 64) && forall k :: 0 <= k < |s| ==> 48 <= s[k] as int <= 57 || 97 <= s[k] as int <= 102
  }

  /** Only zeros: the object that does not exist. */
  predicate NoObject(s: string) {
    s == seq(|s|, _ => '0')
  }

  /** A ref changes from one object to another; none at the end means that it is deleted, and a ref
      that does not exist is not deleted. */
  ghost predicate Meaningful(u: RefUpdate) {
    && Named(u.name, "refs/", 999, {'.', '_', '/', '-'}) && Hexadecimal(u.before) && Hexadecimal(u.after) && |u.before| == |u.after|
    && (u.delete <==> NoObject(u.after)) && (u.delete ==> !NoObject(u.before))
  }

  /** An https or ssh URL of a host, without credentials, query and fragment, to a .git path. */
  ghost predicate Reachable(r: Remote) {
    && (SameButCase(r.scheme, "https") || SameButCase(r.scheme, "ssh")) && |r.host| > 0 && !r.user && |r.query| == 0 && |r.fragment| == 0
    && exists path: string :: r.path == path + ".git"
  }

  ghost predicate Acceptable(b: Binding) {
    && Named(b.project, "", 127, {'.', '_', '-'}) && Named(b.repository, "", 127, {'.', '_', '-'})
    && Named(b.remoteName, "", 127, {'.', '_', '-'}) && Reachable(b.remote)
    && 1 <= |b.updates| <= 128 && forall k :: 0 <= k < |b.updates| ==> Meaningful(b.updates[k])
  }

  lemma IdentityIsNamed(s: string)
    ensures GitIdentity(s) <==> Named(s, "", 127, {'.', '_', '-'})
  {
    NamedAt(s, "", 127, {'.', '_', '-'});
    if s != [] {
      assert forall k :: 1 <= k < |s| ==> s[k] == s[1..][k - 1];
    }
  }

  lemma RefIsNamed(s: string)
    ensures RefName(s) <==> Named(s, "refs/", 999, {'.', '_', '/', '-'})
  {
    NamedAt(s, "refs/", 999, {'.', '_', '/', '-'});
    if |s| >= 6 {
      assert forall k :: 6 <= k < |s| ==> s[k] == s[6..][k - 6];
    }
  }

  lemma UpdateIsMeaningful(u: RefUpdate)
    ensures GoodUpdate(u) <==> Meaningful(u)
  {
    RefIsNamed(u.name);
  }

  lemma RemoteIsReachable(r: Remote)
    ensures GoodRemote(r) <==> Reachable(r)
  {
    LowerTells(r.scheme, "https");
    LowerTells(r.scheme, "ssh");
    assert Lower("https") == "https" && Lower("ssh") == "ssh";
    if |r.path| >= 4 {
      assert r.path == r.path[..|r.path| - 4] + r.path[|r.path| - 4..];
    }
    forall path: string | r.path == path + ".git"
      ensures |r.path| >= 4 && r.path[|r.path| - 4..] == ".git"
    {
    }
  }

  lemma WellFormedIsAcceptable(b: Binding)
    ensures WellFormed(b) <==> Acceptable(b)
  {
    IdentityIsNamed(b.project);
    IdentityIsNamed(b.repository);
    IdentityIsNamed(b.remoteName);
    RemoteIsReachable(b.remote);
    forall k | 0 <= k < |b.updates|
      ensures GoodUpdate(b.updates[k]) <==> Meaningful(b.updates[k])
    {
      UpdateIsMeaningful(b.updates[k]);
    }
  }

  // ----- The canonical form -----

  predicate DistinctRefs(updates: seq<RefUpdate>) {
    forall i, j :: 0 <= i < j < |updates| ==> updates[i].name != updates[j].name
  }

  function NameOf(u: RefUpdate): string {
    u.name
  }

  predicate Ordered(updates: seq<RefUpdate>) {
    KeyedSort.Ordered(updates, NameOf)
  }

  /** c is the canonical form of b: the same push with a normalized remote and sorted refs. */
  ghost predicate IsCanonicalFor(c: Binding, b: Binding) {
    && c == b.(remote := NormalizedRemote(b.remote), updates := c.updates)
    && multiset(c.updates) == multiset(b.updates)
    && Ordered(c.updates) && DistinctRefs(c.updates)
  }

  /** Whatever produces it, the canonical form is unique. */
  lemma CanonicalUnique(c: Binding, d: Binding, b: Binding)
    requires IsCanonicalFor(c, b) && IsCanonicalFor(d, b)
    ensures c == d
  {
    KeyedSort.OrderedUnique(c.updates, d.updates, NameOf);
  }

  /** The same remote: the scheme and the host may differ in case. */
  predicate SameRemote(r: Remote, q: Remote) {
    && SameButCase(r.scheme, q.scheme) && SameButCase(r.host, q.host) && r.user == q.user
    && r.path == q.path && r.query == q.query && r.fragment == q.fragment
  }

  /** The same push: the updates may come in another order. */
  predicate SamePush(a: Binding, b: Binding) {
    && a.project == b.project && a.repository == b.repository && a.remoteName == b.remoteName
    && SameRemote(a.remote, b.remote) && multiset(a.updates) == multiset(b.updates)
  }

  lemma NormalizedTells(r: Remote, q: Remote)
    ensures NormalizedRemote(r) == NormalizedRemote(q) <==> SameRemote(r, q)
  {
    LowerTells(r.scheme, q.scheme);
    LowerTells(r.host, q.host);
  }

  /** Canonical forms are the same exactly for the same push: the order of the updates and the case
      of scheme and host change nothing, and whatever else differs shows. */
  lemma CanonicalPermutes(c: Binding, d: Binding, a: Binding, b: Binding)
    requires IsCanonicalFor(c, a) && IsCanonicalFor(d, b)
    ensures c == d <==> SamePush(a, b)
  {
    NormalizedTells(a.remote, b.remote);
    if SamePush(a, b) {
      KeyedSort.OrderedUnique(c.updates, d.updates, NameOf);
    }
  }

  /** A canonical form is its own canonical form, and well-formed again. */
  lemma CanonicalIdempotent(c: Binding, b: Binding)
    requires WellFormed(b) && IsCanonicalFor(c, b)
    ensures WellFormed(c) && IsCanonicalFor(c, c)
  {
    LowerTwice(b.remote.scheme);
    LowerTwice(b.remote.host);
    assert |c.updates| == |multiset(c.updates)| == |multiset(b.updates)| == |b.updates|;
    forall k | 0 <= k < |c.updates|
      ensures GoodUpdate(c.updates[k])
    {
      assert c.updates[k] in multiset(b.updates);
    }
  }

  /** Having repeated refs does not depend on the order of the updates. */
  lemma DistinctPermutes(s: seq<RefUpdate>, t: seq<RefUpdate>)
    requires multiset(s) == multiset(t) && DistinctRefs(s)
    ensures DistinctRefs(t)
  {
    KeyedSort.DistinctPermutes(s, t, NameOf);
    forall i, j | 0 <= i < j < |t|
      ensures t[i].name != t[j].name
    {
      assert NameOf(t[i]) != NameOf(t[j]);
    }
  }

  // ----- The procedure -----

  method CheckAndSort(b: Binding) returns (r: Option<Binding>)
    ensures r.Some? <==> WellFormed(b) && DistinctRefs(b.updates)
    ensures r.Some? ==> IsCanonicalFor(r.value, b)
  {
    if !(GitIdentity(b.project) && GitIdentity(b.repository) && GitIdentity(b.remoteName)) || |b.updates| == 0 || |b.updates| > MAX_UPDATES {
      return None;
    }
    if !GoodRemote(b.remote) {
      return None;
    }
    var copied := new RefUpdate[|b.updates|](i requires 0 <= i < |b.updates| => b.updates[i]);
    assert copied[..] == b.updates;
    for i := 0 to copied.Length
      invariant forall k :: 0 <= k < i ==> GoodUpdate(b.updates[k])
    {
      if !GoodUpdate(copied[i]) {
        return None;
      }
    }
    KeyedSort.Sort(copied, NameOf);
    var repeated := FindRepeated(copied[..]);
    if repeated {
      if DistinctRefs(b.updates) {
        DistinctPermutes(b.updates, copied[..]);
      }
      return None;
    }
    DistinctPermutes(copied[..], b.updates);
    r := Some(b.(remote := NormalizedRemote(b.remote), updates := copied[..]));
  }

  /** The canonical form, or nothing if the binding is malformed or names a ref twice. */
  method Canonicalize(b: Binding) returns (r: Option<Binding>)
    ensures r.Some? <==> WellFormed(b) && DistinctRefs(b.updates)
    ensures r.Some? <==> Acceptable(b) && DistinctRefs(b.updates)
    ensures r.Some? ==> IsCanonicalFor(r.value, b)
  {
    r := CheckAndSort(b);
    WellFormedIsAcceptable(b);
  }

  /** In sorted order, a repeated ref is next to its copy. */
  method FindRepeated(updates: seq<RefUpdate>) returns (repeated: bool)
    requires Ordered(updates)
    ensures repeated <==> !DistinctRefs(updates)
  {
    var i := 1;
    while i < |updates|
      invariant 1 <= i && (|updates| > 0 ==> i <= |updates| && DistinctRefs(updates[..i]))
    {
      if updates[i - 1].name == updates[i].name {
        return true;
      }
      forall k | 0 <= k < i
        ensures updates[k].name != updates[i].name
      {
        if updates[k].name == updates[i].name && k < i - 1 {
          LexTotal(updates[i - 1].name, updates[i].name);
        }
      }
      i := i + 1;
    }
    assert |updates| >= 1 ==> updates[..|updates|] == updates;
    repeated := false;
  }
}
