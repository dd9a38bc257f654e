/** Directory trees as finite maps from relative paths to entries. */
module Trees {

  /** A clean relative path, as the sequence of its components. */
  type Path = seq<string>

  datatype Entry =
    | Directory(mode: nat)
    | File(mode: nat, digest: string)
    | Symlink(target: string)

  type Tree = map<Path, Entry>

  /** p is root itself or lies below it. */
  predicate Under(root: Path, p: Path) {
    root <= p
  }

  function Parent(p: Path): Path
    requires p != []
  {
    p[..|p| - 1]
  }

  /** The entry's parent directory is present; the root directory always is. */
  predicate HasParent(t: Tree, p: Path) {
    p != [] && (|p| == 1 || (Parent(p) in t && t[Parent(p)].Directory?))
  }

  predicate WellFormed(t: Tree) {
    forall p {:trigger HasParent(t, p)} :: p in t ==> HasParent(t, p)
  }

  /** The two trees agree about path p. */
  predicate SameAt(s: Tree, t: Tree, p: Path) {
    (p in s <==> p in t) && (p in s ==> s[p] == t[p])
  }

  /** The entry at root, if any, with everything below it. */
  function Subtree(t: Tree, root: Path): Tree {
    map p | p in t && Under(root, p) :: t[p]
  }

  function Without(t: Tree, root: Path): Tree {
    map p | p in t && !Under(root, p) :: t[p]
  }

  /** No entry lies strictly below p. */
  predicate Childless(t: Tree, p: Path) {
    forall q :: q in t && Under(p, q) ==> q == p
  }

  /** Agreement at every path below root is equality of the subtrees, and conversely. */
  lemma SubtreeByPoints(s: Tree, t: Tree, root: Path)
    ensures (forall p :: Under(root, p) ==> SameAt(s, t, p)) <==> Subtree(s, root) == Subtree(t, root)
  {
    if Subtree(s, root) == Subtree(t, root) {
      forall p | Under(root, p)
        ensures SameAt(s, t, p)
      {
        assert p in s <==> p in Subtree(s, root);
        assert p in t <==> p in Subtree(t, root);
        if p in s {
          assert Subtree(s, root)[p] == Subtree(t, root)[p];
        }
      }
    }
    if forall p :: Under(root, p) ==> SameAt(s, t, p) {
      forall p | p in Subtree(s, root) || p in Subtree(t, root)
        ensures SameAt(s, t, p)
      {
      }
    }
  }

  lemma WithoutByPoints(s: Tree, t: Tree, root: Path)
    requires Without(s, root) == Without(t, root)
    ensures forall p :: !Under(root, p) ==> SameAt(s, t, p)
  {
    forall p | !Under(root, p)
      ensures SameAt(s, t, p)
    {
      assert p in s <==> p in Without(s, root);
      assert p in t <==> p in Without(t, root);
      if p in s {
        assert Without(s, root)[p] == Without(t, root)[p];
      }
    }
  }

  /** Every prefix of an entry's path that is at least as long as one present entry is present. */
  lemma {:induction false} PrefixPresent(t: Tree, p: Path, q: Path)
    requires WellFormed(t) && q in t && Under(p, q) && p != []
    ensures p in t
    decreases |q|
  {
    if |p| < |q| {
      assert HasParent(t, q);
      assert Under(p, Parent(q));
      PrefixPresent(t, p, Parent(q));
    } else {
      assert p == q;
    }
  }

  /** Prefixes of one path are comparable. */
  lemma PrefixesComparable(a: Path, b: Path, p: Path)
    requires Under(a, p) && Under(b, p)
    ensures Under(a, b) || Under(b, a)
  {
    if |a| <= |b| {
      assert a == p[..|a|] == b[..|a|];
    } else {
      assert b == p[..|b|] == a[..|b|];
    }
  }

  lemma WithoutWellFormed(t: Tree, root: Path)
    requires WellFormed(t)
    ensures WellFormed(Without(t, root))
  {
    forall p | p in Without(t, root)
      ensures HasParent(Without(t, root), p)
    {
      assert HasParent(t, p);
      assert |p| > 1 && Under(root, Parent(p)) ==> Under(root, p);
    }
  }

  /** Every entry of sub lies under root, and its parent does too unless it is root itself. */
  predicate HangsFrom(sub: Tree, root: Path) {
    forall p {:trigger p in sub} :: p in sub ==> Under(root, p) && (p == root || HasParent(sub, p))
  }

  lemma SubtreeHangs(t: Tree, root: Path)
    requires WellFormed(t)
    ensures HangsFrom(Subtree(t, root), root)
  {
    forall p | p in Subtree(t, root)
      ensures Under(root, p) && (p == root || HasParent(Subtree(t, root), p))
    {
      assert HasParent(t, p);
      assert p != root && |p| > 1 ==> Under(root, Parent(p));
      assert p != root && |p| == 1 ==> root == [];
    }
  }

  /** Renaming a subtree to a place that is free and whose parent is there. */
  lemma Graft(t: Tree, sub: Tree, root: Path)
    requires WellFormed(t) && HangsFrom(sub, root) && HasParent(t, root)
    requires Subtree(t, root) == map[]
    ensures WellFormed(t + sub)
    ensures Without(t + sub, root) == Without(t, root)
    ensures Subtree(t + sub, root) == sub
  {
    assert forall p :: p in t && Under(root, p) ==> p in Subtree(t, root);
    forall p | p in t + sub
      ensures HasParent(t + sub, p)
    {
      if p in sub {
        assert p == root || HasParent(sub, p);
      } else {
        assert HasParent(t, p);
      }
    }
  }

  /** Unlinking an entry that has nothing below it. */
  lemma UnlinkWellFormed(t: Tree, p: Path)
    requires WellFormed(t) && Childless(t, p)
    ensures WellFormed(t - {p})
  {
    forall q | q in t - {p}
      ensures HasParent(t - {p}, q)
    {
      assert HasParent(t, q);
      assert |q| > 1 ==> Under(Parent(q), q);
    }
  }

  /** Nothing lies below an absent path, and nothing lies below a file or a link. */
  lemma BelowDirectoriesOnly(t: Tree, p: Path)
    requires WellFormed(t) && p != []
    ensures p !in t ==> Subtree(t, p) == map[]
    ensures p in t && !t[p].Directory? ==> Childless(t, p)
  {
    forall q | q in t && Under(p, q)
      ensures p in t && (q != p ==> t[p].Directory?)
    {
      PrefixPresent(t, p, q);
      if q != p {
        var child := q[..|p| + 1];
        PrefixPresent(t, child, q);
        assert HasParent(t, child) && Parent(child) == p;
      }
    }
  }

  /** The names a directory listing of p returns. */
  function ChildNames(t: Tree, p: Path): set<string> {
    set q | q in t && Under(p, q) && |q| > |p| :: q[|p|]
  }

  lemma ChildSmaller(whole: Tree, t: Tree, p: Path, n: string)
    requires p in whole && t.Keys <= whole.Keys
    ensures Under(p, p + [n])
    ensures forall r :: Under(r, p) ==> Under(r, p + [n])
    ensures Subtree(t, p + [n]).Keys < Subtree(whole, p).Keys
  {
    assert p in Subtree(whole, p) && p !in Subtree(t, p + [n]);
    assert forall q :: Under(p + [n], q) ==> Under(p, q);
  }

  /** Emptying one child of p changes nothing outside p and shortens the listing of p. */
  lemma ChildRemoved(before: Tree, after: Tree, p: Path, n: string)
    requires Without(before, p + [n]) == Without(after, p + [n])
    ensures Without(before, p) == Without(after, p)
    ensures p in before <==> p in after
    ensures Subtree(after, p + [n]) == map[] ==> ChildNames(after, p) <= ChildNames(before, p) - {n}
  {
    var child := p + [n];
    WithoutByPoints(before, after, child);
    assert forall q :: Under(child, q) ==> Under(p, q) && |q| > |p| && q[|p|] == n;
    assert forall q :: Under(p, q) && |q| > |p| && q[|p|] == n ==> Under(child, q);
    if Subtree(after, child) == map[] {
      assert forall q :: Under(child, q) && q in after ==> q in Subtree(after, child);
      forall q | q in after && Under(p, q) && |q| > |p|
        ensures q[|p|] in ChildNames(before, p) - {n}
      {
        assert SameAt(before, after, q);
      }
    }
  }

  lemma NoNamesChildless(t: Tree, p: Path)
    requires ChildNames(t, p) == {}
    ensures Childless(t, p)
  {
    assert forall q :: q in t && Under(p, q) && |q| > |p| ==> q[|p|] in ChildNames(t, p);
  }

  lemma Unlinked(t: Tree, p: Path)
    requires Childless(t, p)
    ensures Without(t - {p}, p) == Without(t, p) && Subtree(t - {p}, p) == map[]
  {
  }

  lemma MovedAside(t: Tree, root: Path)
    ensures Subtree(Without(t, root), root) == map[] && Without(Without(t, root), root) == Without(t, root)
  {
  }
}
