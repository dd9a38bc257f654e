/** affectedRoots of internal/apply: the minimal changed paths, shallowest first. */
module AffectedRoots {
  import opened Faults
  import opened ByteOrder
  import opened Trees
  import ProjectTransaction
  import Texts

  /** One change: the path it names and, for a rename, the path it came from. */
  datatype Change = Change(path: Path, from: Option<Path>)

  predicate CleanName(n: string) {
    n != "" && '/' !in n
  }

  /** A relative clean path: at least one component, none empty, no separator inside one. */
  predicate CleanPath(p: Path) {
    p != [] && forall n :: n in p ==> CleanName(n)
  }

  function ChangedPaths(changes: seq<Change>): (paths: set<Path>)
    ensures forall c :: c in changes ==> c.path in paths && (c.from.Some? ==> c.from.value in paths)
    ensures forall p :: p in paths ==> exists c :: c in changes && (c.path == p || c.from == Some(p))
  {
    if changes == [] then {}
    else
      var c := changes[|changes| - 1];
      ChangedPaths(changes[..|changes| - 1]) + {c.path} + if c.from.Some? then {c.from.value} else {}
  }

  /** The members of s that have no proper ancestor in s. */
  function Roots(s: set<Path>): set<Path> {
    set p | p in s && forall q :: q in s && Under(q, p) ==> q == p
  }

  ghost predicate Lists(s: seq<Path>, members: set<Path>) {
    forall p :: p in s <==> p in members
  }

  // ----- What the roots are good for -----

  /** Every changed path is a root or lies below one. */
  lemma {:induction false} RootsCover(s: set<Path>, p: Path)
    requires p in s
    ensures exists r :: r in Roots(s) && Under(r, p)
    decreases |p|
  {
    if p in Roots(s) {
      assert Under(p, p);
    } else {
      var q :| q in s && Under(q, p) && q != p;
      RootsCover(s, q);
      var r :| r in Roots(s) && Under(r, q);
      assert Under(r, p);
    }
  }

  /** No root is an ancestor of another. */
  lemma RootsUnrelated(s: set<Path>, p: Path, q: Path)
    requires p in Roots(s) && q in Roots(s) && Under(p, q)
    ensures p == q
  {
  }

  /** Exactness of the subtree swap: a change set that names every differing path yields a plan
      whose roots are unrelated and cover every difference. */
  lemma RootsMakeGoodPlan(baseline: Tree, merged: Tree, changes: seq<Change>, roots: seq<Path>)
    requires WellFormed(baseline) && WellFormed(merged)
    requires forall p :: p in ChangedPaths(changes) ==> CleanPath(p)
    requires forall p :: (p in baseline || p in merged) && !SameAt(baseline, merged, p) ==> p in ChangedPaths(changes)
    requires Lists(roots, Roots(ChangedPaths(changes)))
    requires forall i, j :: 0 <= i < j < |roots| ==> roots[i] != roots[j]
    ensures ProjectTransaction.GoodPlan(ProjectTransaction.Plan(baseline, merged, roots))
  {
    var plan := ProjectTransaction.Plan(baseline, merged, roots);
    forall i | 0 <= i < |roots|
      ensures roots[i] in Roots(ChangedPaths(changes))
    {
      assert roots[i] in roots;
    }
    forall i, j | 0 <= i < |roots| && 0 <= j < |roots| && i != j
      ensures !Under(roots[i], roots[j])
    {
      assert roots[i] != roots[j];
    }
    forall p | (p in baseline || p in merged) && ProjectTransaction.Outside(plan, p)
      ensures SameAt(baseline, merged, p)
    {
      if p in ChangedPaths(changes) {
        OutsideUnchanged(changes, roots, p);
      }
    }
  }

  /** A path under no root is not a changed path. */
  lemma OutsideUnchanged(changes: seq<Change>, roots: seq<Path>, p: Path)
    requires Lists(roots, Roots(ChangedPaths(changes)))
    requires p in ChangedPaths(changes)
    ensures exists i :: 0 <= i < |roots| && Under(roots[i], p)
  {
    RootsCover(ChangedPaths(changes), p);
    var r :| r in Roots(ChangedPaths(changes)) && Under(r, p);
    assert r in roots;
    var i :| 0 <= i < |roots| && roots[i] == r;
  }

  // ----- The order of the result -----

  /** The path as text, components joined by '/'. */
  function Join(p: Path): string {
    if p == [] then "" else if |p| == 1 then p[0] else p[0] + "/" + Join(p[1..])
  }

  predicate Before(p: Path, q: Path) {
    |p| < |q| || (|p| == |q| && LexLess(Join(p), Join(q)))
  }

  predicate Sorted(s: seq<Path>) {
    forall i, j :: 0 <= i < j < |s| ==> Before(s[i], s[j])
  }

  /** The order said without it: fewer components first, then the first character that differs. */
  ghost predicate InOrder(s: seq<Path>) {
    forall i, j :: 0 <= i < j < |s| ==> Shallower(s[i], s[j]) || (|s[i]| == |s[j]| && FirstByBytes(Join(s[i]), Join(s[j])))
  }

  predicate Shallower(p: Path, q: Path) {
    |p| < |q|
  }

  ghost predicate FirstByBytes(a: string, b: string) {
    exists k: nat :: SmallerAt(a, b, k)
  }

  lemma SortedInOrder(s: seq<Path>)
    ensures Sorted(s) <==> InOrder(s)
  {
    forall i, j | 0 <= i < j < |s|
      ensures LexLess(Join(s[i]), Join(s[j])) <==> FirstByBytes(Join(s[i]), Join(s[j]))
    {
      LexLessAt(Join(s[i]), Join(s[j]));
    }
  }

  /** The text of a path is its components between slashes, and they can be read off it. */
  lemma {:induction false} JoinSplits(p: Path)
    requires CleanPath(p)
    ensures Join(p) == Texts.Join(p, '/') && Texts.Split(Join(p), '/') == p
  {
    assert forall k :: 0 <= k < |p| ==> p[k] in p;
    Texts.SplitJoined(p, '/');
    if |p| > 1 {
      assert forall n :: n in p[1..] ==> n in p;
      JoinSplits(p[1..]);
    }
  }

  /** Where the first separator is, the first component ends. */
  lemma JoinHead(p: Path, q: Path)
    requires CleanPath(p) && CleanPath(q) && |p| == |q| && Join(p) == Join(q)
    ensures p[0] == q[0]
  {
    var a, b := p[0], q[0];
    var s := Join(p);
    assert p[0] in p && q[0] in q;
    assert a == s[..|a|] && b == s[..|b|];
    if |p| > 1 {
      assert s[|a|] == '/' && s[|b|] == '/';
      assert forall k :: 0 <= k < |a| ==> s[k] != '/';
      assert forall k :: 0 <= k < |b| ==> s[k] != '/';
    }
  }

  lemma {:induction false} JoinInjective(p: Path, q: Path)
    requires CleanPath(p) && CleanPath(q) && |p| == |q| && Join(p) == Join(q)
    ensures p == q
  {
    JoinHead(p, q);
    if |p| > 1 {
      assert Join(p) == p[0] + "/" + Join(p[1..]) && Join(q) == q[0] + "/" + Join(q[1..]);
      assert Join(p[1..]) == Join(p)[|p[0]| + 1..] == Join(q[1..]);
      JoinInjective(p[1..], q[1..]);
    }
    assert p == [p[0]] + p[1..] && q == [q[0]] + q[1..];
  }

  lemma BeforeTotal(p: Path, q: Path)
    requires CleanPath(p) && CleanPath(q)
    ensures p == q || Before(p, q) || Before(q, p)
    ensures !(Before(p, q) && Before(q, p)) && !Before(p, p)
  {
    LexTotal(Join(p), Join(q));
    LexTotal(Join(p), Join(p));
    if |p| == |q| && Join(p) == Join(q) {
      JoinInjective(p, q);
    }
  }

  lemma BeforeTransitive(p: Path, q: Path, r: Path)
    requires Before(p, q) && Before(q, r)
    ensures Before(p, r)
  {
    if |p| == |q| == |r| {
      LexTransitive(Join(p), Join(q), Join(r));
    }
  }

  lemma FirstMember(s: seq<Path>)
    ensures s == [] || s[0] in s
  {
  }

  /** A sorted sequence is determined by its members: the order of the changes cannot matter. */
  lemma {:induction false} SortedUnique(s: seq<Path>, t: seq<Path>)
    requires Sorted(s) && Sorted(t)
    requires forall p :: p in s ==> CleanPath(p)
    requires forall p :: p in s <==> p in t
    ensures s == t
  {
    if s == [] {
      FirstMember(t);
    } else {
      assert s[0] in t;
      assert t[0] in s;
      BeforeTotal(s[0], t[0]);
      var i :| 0 <= i < |t| && t[i] == s[0];
      var j :| 0 <= j < |s| && s[j] == t[0];
      BeforeTotal(s[0], s[0]);
      assert s[0] == t[0];
      forall p
        ensures p in s[1..] <==> p in t[1..]
      {
        TailMembers(s, p);
        TailMembers(t, p);
      }
      SortedUnique(s[1..], t[1..]);
      assert s == [s[0]] + s[1..] && t == [t[0]] + t[1..];
    }
  }

  /** Two change sets with the same changes, in any order, have the same affected roots. */
  lemma OrderIndependent(a: seq<Change>, b: seq<Change>, s: seq<Path>, t: seq<Path>)
    requires forall c :: c in a <==> c in b
    requires forall p :: p in ChangedPaths(a) ==> CleanPath(p)
    requires Sorted(s) && Lists(s, Roots(ChangedPaths(a)))
    requires Sorted(t) && Lists(t, Roots(ChangedPaths(b)))
    ensures s == t
  {
    assert ChangedPaths(a) == ChangedPaths(b);
    SortedUnique(s, t);
  }

  lemma TailMembers(s: seq<Path>, p: Path)
    requires Sorted(s) && s != []
    ensures p in s[1..] <==> p in s && p != s[0]
  {
    forall i | 0 < i < |s|
      ensures s[i] != s[0]
    {
      assert Before(s[0], s[i]);
      LexTotal(Join(s[0]), Join(s[0]));
    }
    if p in s && p != s[0] {
      var i :| 0 <= i < |s| && s[i] == p;
      assert s[1..][i - 1] == p;
    }
  }

  // ----- The procedure -----

  /** The changed paths in order: insert each at its place among those already sorted. */
  method SortPaths(paths: set<Path>) returns (sorted: seq<Path>)
    requires forall p :: p in paths ==> CleanPath(p)
    ensures Sorted(sorted) && Lists(sorted, paths)
  {
    sorted := [];
    var left := paths;
    while left != {}
      invariant left <= paths
      invariant Sorted(sorted) && Lists(sorted, paths - left)
    {
      var p :| p in left;
      var at := |sorted|;
      while at > 0 && Before(p, sorted[at - 1])
        invariant 0 <= at <= |sorted|
        invariant forall k :: at <= k < |sorted| ==> Before(p, sorted[k])
      {
        at := at - 1;
      }
      InsertSorted(sorted, p, at);
      sorted := sorted[..at] + [p] + sorted[at..];
      left := left - {p};
    }
  }

  lemma InsertSorted(sorted: seq<Path>, p: Path, at: nat)
    requires at <= |sorted| && Sorted(sorted) && CleanPath(p)
    requires forall q :: q in sorted ==> CleanPath(q)
    requires p !in sorted
    requires at > 0 ==> !Before(p, sorted[at - 1])
    requires forall k :: at <= k < |sorted| ==> Before(p, sorted[k])
    ensures Sorted(sorted[..at] + [p] + sorted[at..])
    ensures forall q :: q in sorted[..at] + [p] + sorted[at..] <==> q in sorted || q == p
  {
    if at > 0 {
      BeforeTotal(p, sorted[at - 1]);
      forall k | 0 <= k < at
        ensures Before(sorted[k], p)
      {
        if k < at - 1 {
          BeforeTransitive(sorted[k], sorted[at - 1], p);
        }
      }
    }
    assert sorted == sorted[..at] + sorted[at..];
  }

  /** The path at position k is not among the earlier ones; a shallower path is. */
  lemma PositionOrder(paths: seq<Path>, k: nat)
    requires Sorted(paths) && k < |paths|
    ensures paths[k] !in paths[..k]
    ensures forall p :: p in paths && |p| < |paths[k]| ==> p in paths[..k]
  {
    LexTotal(Join(paths[k]), Join(paths[k]));
    forall i | 0 <= i < k
      ensures paths[i] != paths[k]
    {
      assert Before(paths[i], paths[k]);
    }
    forall p | p in paths && |p| < |paths[k]|
      ensures p in paths[..k]
    {
      var i :| 0 <= i < |paths| && paths[i] == p;
      assert !Before(paths[k], p) && p != paths[k];
      assert i < k;
      assert paths[..k][i] == p;
    }
  }

  /** Walking up from a candidate meets an already selected path exactly when the candidate
      has a proper ancestor among the changed paths. */
  lemma CoveredIff(all: set<Path>, paths: seq<Path>, k: nat, result: seq<Path>)
    requires k < |paths| && Sorted(paths) && Lists(paths, all)
    requires forall p :: p in result <==> p in paths[..k] && p in Roots(all)
    ensures paths[k] in Roots(all) <==> forall q :: q in result ==> !Under(q, paths[k])
  {
    var candidate := paths[k];
    PositionOrder(paths, k);
    assert candidate in paths;
    if candidate !in Roots(all) {
      var q :| q in all && Under(q, candidate) && q != candidate;
      RootsCover(all, q);
      var r :| r in Roots(all) && Under(r, q);
      assert Under(r, candidate) && r in paths;
      assert r in result;
    }
  }

  /** The minimal set of subtrees an apply replaces, in a canonical order. */
  method AffectedRoots(changes: seq<Change>) returns (result: seq<Path>)
    requires forall p :: p in ChangedPaths(changes) ==> CleanPath(p)
    ensures Sorted(result) && InOrder(result) && Lists(result, Roots(ChangedPaths(changes)))
  {
    var all := CollectPaths(changes);
    var paths := SortPaths(all);
    result := [];
    for k := 0 to |paths|
      invariant SelectedSoFar(all, paths, k, result)
    {
      PositionOrder(paths, k);
      assert paths[k] in paths;
      assert forall q :: q in result ==> q in paths;
      var covered := Covered(paths[k], result);
      SelectStep(all, paths, k, result, covered);
      if !covered {
        result := result + [paths[k]];
      }
    }
    assert paths[..|paths|] == paths;
    SortedInOrder(result);
  }

  ghost predicate SelectedSoFar(all: set<Path>, paths: seq<Path>, k: nat, result: seq<Path>)
    requires k <= |paths|
  {
    Sorted(result) && forall p :: p in result <==> p in paths[..k] && p in Roots(all)
  }

  lemma SelectStep(all: set<Path>, paths: seq<Path>, k: nat, result: seq<Path>, covered: bool)
    requires k < |paths| && Sorted(paths) && Lists(paths, all) && SelectedSoFar(all, paths, k, result)
    requires covered <==> exists q :: q in result && Under(q, paths[k])
    ensures SelectedSoFar(all, paths, k + 1, if covered then result else result + [paths[k]])
  {
    CoveredIff(all, paths, k, result);
    assert paths[..k + 1] == paths[..k] + [paths[k]];
    AppendSorted(paths, k, result);
  }

  lemma AppendSorted(paths: seq<Path>, k: nat, result: seq<Path>)
    requires k < |paths| && Sorted(paths) && Sorted(result)
    requires forall p :: p in result ==> p in paths[..k]
    ensures Sorted(result + [paths[k]])
  {
    forall i | 0 <= i < |result|
      ensures Before(result[i], paths[k])
    {
      assert result[i] in result;
      var j :| 0 <= j < k && paths[..k][j] == result[i];
      assert Before(paths[j], paths[k]);
    }
  }

  method CollectPaths(changes: seq<Change>) returns (all: set<Path>)
    ensures all == ChangedPaths(changes)
  {
    all := {};
    for k := 0 to |changes|
      invariant all == ChangedPaths(changes[..k])
    {
      assert changes[..k + 1][..k] == changes[..k];
      all := all + {changes[k].path};
      if changes[k].from.Some? {
        all := all + {changes[k].from.value};
      }
    }
    assert changes[..|changes|] == changes;
  }

  /** Whether the walk from the candidate up to the project root meets a selected path. */
  method Covered(candidate: Path, selected: seq<Path>) returns (covered: bool)
    requires candidate != [] && candidate !in selected && [] !in selected
    ensures covered <==> exists q :: q in selected && Under(q, candidate)
  {
    covered := false;
    var parent := Parent(candidate);
    assert forall q :: Under(q, candidate) && |q| >= |candidate| ==> q == candidate;
    while parent != [] && !covered
      invariant Under(parent, candidate)
      invariant covered ==> parent in selected
      invariant !covered ==> forall q :: q in selected && Under(q, candidate) ==> |q| <= |parent|
      decreases |parent|, !covered
    {
      assert forall q :: Under(q, candidate) && |q| == |parent| ==> q == parent;
      if parent in selected {
        covered := true;
      } else {
        parent := Parent(parent);
      }
    }
  }
}
