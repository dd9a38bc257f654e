/** In-place sorting of an array by a string key, and what a sorted permutation determines. */
module KeyedSort {
  import opened ByteOrder

  /** Keys do not decrease. */
  predicate Ordered<T(!new)>(s: seq<T>, key: T -> string) {
    forall i, j :: 0 <= i < j < |s| ==> !LexLess(key(s[j]), key(s[i]))
  }

  /** Elements with the same key are the same element. */
  ghost predicate KeysTell<T(!new)>(s: seq<T>, key: T -> string) {
    forall i, j :: 0 <= i < |s| && 0 <= j < |s| && key(s[i]) == key(s[j]) ==> s[i] == s[j]
  }

  /** Then order and content determine the sequence. */
  lemma {:induction false} OrderedUnique<T(!new)>(s: seq<T>, t: seq<T>, key: T -> string)
    requires Ordered(s, key) && Ordered(t, key) && KeysTell(s, key) && multiset(s) == multiset(t)
    ensures s == t
  {
    SameLength(s, t);
    if s != [] {
      FirstUnique(s, t, key);
      TailContent(s, key);
      TailContent(t, key);
      OrderedUnique(s[1..], t[1..], key);
      SameHeadAndTail(s, t);
    }
  }

  lemma SameLength<T>(s: seq<T>, t: seq<T>)
    requires multiset(s) == multiset(t)
    ensures |s| == |t|
  {
    assert |s| == |multiset(s)| == |multiset(t)| == |t|;
  }

  lemma SameHeadAndTail<T>(s: seq<T>, t: seq<T>)
    requires s != [] && t != [] && s[0] == t[0] && s[1..] == t[1..]
    ensures s == t
  {
    assert s == [s[0]] + s[1..] && t == [t[0]] + t[1..];
  }

  lemma TailContent<T(!new)>(s: seq<T>, key: T -> string)
    requires s != []
    ensures multiset(s[1..]) == multiset(s) - multiset{s[0]}
    ensures Ordered(s, key) ==> Ordered(s[1..], key)
    ensures KeysTell(s, key) ==> KeysTell(s[1..], key)
  {
    assert s == [s[0]] + s[1..];
  }

  lemma FirstUnique<T(!new)>(s: seq<T>, t: seq<T>, key: T -> string)
    requires Ordered(s, key) && Ordered(t, key) && KeysTell(s, key) && multiset(s) == multiset(t) && s != [] && t != []
    ensures s[0] == t[0]
  {
    assert t[0] in multiset(s) && s[0] in multiset(t);
    var i :| 0 <= i < |s| && s[i] == t[0];
    var j :| 0 <= j < |t| && t[j] == s[0];
    LexTotal(key(s[0]), key(t[0]));
  }

  // ----- Distinct keys -----

  ghost predicate Distinct<T(!new), K>(s: seq<T>, key: T -> K) {
    forall i, j :: 0 <= i < j < |s| ==> key(s[i]) != key(s[j])
  }

  /** Whether two elements share a key does not depend on their order. */
  lemma DistinctPermutes<T(!new), K>(s: seq<T>, t: seq<T>, key: T -> K)
    requires multiset(s) == multiset(t) && Distinct(s, key)
    ensures Distinct(t, key)
  {
    forall i, j | 0 <= i < j < |t|
      ensures key(t[i]) != key(t[j])
    {
      if key(t[i]) == key(t[j]) {
        assert t[i] in multiset(s) && t[j] in multiset(s);
        assert t[i] == t[j];
        CountedTwice(t, i, j);
        CountedOnce(s, key, t[i]);
      }
    }
  }

  lemma CountedTwice<T>(t: seq<T>, i: nat, j: nat)
    requires i < j < |t| && t[i] == t[j]
    ensures multiset(t)[t[i]] >= 2
  {
    assert t == t[..j] + [t[j]] + t[j + 1..];
    assert t[i] in t[..j];
    assert multiset(t) == multiset(t[..j]) + multiset{t[j]} + multiset(t[j + 1..]);
  }

  lemma CountedOnce<T(!new), K>(s: seq<T>, key: T -> K, u: T)
    requires Distinct(s, key)
    ensures multiset(s)[u] <= 1
  {
    if u in s {
      var k :| 0 <= k < |s| && s[k] == u;
      assert s == s[..k] + [u] + s[k + 1..];
      assert u !in s[..k] && u !in s[k + 1..];
      assert multiset(s) == multiset(s[..k]) + multiset{u} + multiset(s[k + 1..]);
    }
  }

  // ----- Sorting in place -----

  /** The first i + 1 elements are in order, except that the one at j may belong further down. */
  ghost predicate Sifting<T(!new)>(s: seq<T>, key: T -> string, i: nat, j: nat)
    requires j <= i < |s|
  {
    && Ordered(s[..j] + s[j + 1..i + 1], key)
    && forall m :: j < m <= i ==> !LexLess(key(s[m]), key(s[j]))
  }

  function Swapped<T>(s: seq<T>, j: nat): (t: seq<T>)
    requires 0 < j < |s|
    ensures multiset(t) == multiset(s)
  {
    s[j - 1 := s[j]][j := s[j - 1]]
  }

  lemma SiftStep<T(!new)>(s: seq<T>, key: T -> string, i: nat, j: nat)
    requires 0 < j <= i < |s| && Sifting(s, key, i, j) && LexLess(key(s[j]), key(s[j - 1]))
    ensures Sifting(Swapped(s, j), key, i, j - 1)
  {
    var t := Swapped(s, j);
    assert t[..j - 1] + t[j..i + 1] == s[..j] + s[j + 1..i + 1];
    LexTotal(key(s[j]), key(s[j - 1]));
  }

  lemma SiftDone<T(!new)>(s: seq<T>, key: T -> string, i: nat, j: nat)
    requires j <= i < |s| && Sifting(s, key, i, j)
    requires j > 0 ==> !LexLess(key(s[j]), key(s[j - 1]))
    ensures Ordered(s[..i + 1], key)
  {
    var others := s[..j] + s[j + 1..i + 1];
    forall k, m | 0 <= k < m <= i
      ensures !LexLess(key(s[m]), key(s[k]))
    {
      if k != j && m != j {
        assert s[k] == others[if k < j then k else k - 1] && s[m] == others[if m < j then m else m - 1];
      } else if m == j && k < j - 1 {
        assert others[k] == s[k] && others[j - 1] == s[j - 1];
        NotLessTransitive(key(s[k]), key(s[j - 1]), key(s[j]));
      }
    }
  }

  lemma NotLessTransitive(x: string, y: string, z: string)
    requires !LexLess(y, x) && !LexLess(z, y)
    ensures !LexLess(z, x)
  {
    LexTotal(x, y);
    LexTotal(y, z);
    if x != y && y != z {
      LexTransitive(x, y, z);
    }
    LexTotal(x, z);
  }

  /** Move element i down to its place among the sorted ones before it. */
  method SiftDown<T(!new)>(a: array<T>, key: T -> string, i: nat)
    requires i < a.Length && Ordered(a[..i], key)
    modifies a
    ensures Ordered(a[..i + 1], key) && multiset(a[..]) == old(multiset(a[..]))
  {
    var j := i;
    assert a[..][..i] + a[..][i + 1..i + 1] == a[..i];
    while j > 0 && LexLess(key(a[j]), key(a[j - 1]))
      invariant 0 <= j <= i && Sifting(a[..], key, i, j)
      invariant multiset(a[..]) == old(multiset(a[..]))
    {
      ghost var s := a[..];
      SiftStep(s, key, i, j);
      a[j - 1], a[j] := a[j], a[j - 1];
      assert a[..] == Swapped(s, j);
      j := j - 1;
    }
    SiftDone(a[..], key, i, j);
    assert a[..][..i + 1] == a[..i + 1];
  }

  method Sort<T(!new)>(a: array<T>, key: T -> string)
    modifies a
    ensures Ordered(a[..], key) && multiset(a[..]) == old(multiset(a[..]))
  {
    for i := 0 to a.Length
      invariant Ordered(a[..i], key) && multiset(a[..]) == old(multiset(a[..]))
    {
      SiftDown(a, key, i);
    }
    assert a[..a.Length] == a[..];
  }
}
