/** Byte-wise order on strings: the first character that differs decides, and a proper prefix
    comes first. */
module ByteOrder {

  predicate LexLess(a: string, b: string) {
    b != [] && (a == [] || a[0] < b[0] || (a[0] == b[0] && LexLess(a[1..], b[1..])))
  }

  /** Up to some place the strings are the same; there the first one ends, or has the smaller
      character. */
  lemma {:induction false} LexLessAt(a: string, b: string)
    ensures LexLess(a, b) <==> exists k: nat :: SmallerAt(a, b, k)
  {
    if a == [] {
      assert b != [] ==> SmallerAt(a, b, 0);
    } else if b != [] {
      if a[0] != b[0] {
        assert a[0] < b[0] ==> SmallerAt(a, b, 0);
      } else {
        LexLessAt(a[1..], b[1..]);
        if k: nat :| SmallerAt(a[1..], b[1..], k) {
          assert a[..k + 1] == [a[0]] + a[1..][..k] && b[..k + 1] == [b[0]] + b[1..][..k];
          assert SmallerAt(a, b, k + 1);
        }
        if k: nat :| SmallerAt(a, b, k) {
          assert k > 0;
          assert a[1..][..k - 1] == a[..k][1..] == b[..k][1..];
          assert b[1..][..k - 1] == b[..k][1..];
          assert SmallerAt(a[1..], b[1..], k - 1);
        }
      }
    }
  }

  predicate SmallerAt(a: string, b: string, k: nat) {
    k <= |a| && k < |b| && a[..k] == b[..k] && (k < |a| ==> a[k] < b[k])
  }

  lemma {:induction false} LexPrefix(p: string, a: string, b: string)
    ensures LexLess(p + a, p + b) <==> LexLess(a, b)
  {
    if p == [] {
      assert p + a == a && p + b == b;
    } else {
      LexPrefix(p[1..], a, b);
      assert (p + a)[1..] == p[1..] + a && (p + b)[1..] == p[1..] + b;
    }
  }

  lemma {:induction false} LexTotal(a: string, b: string)
    ensures a == b || LexLess(a, b) || LexLess(b, a)
    ensures !(LexLess(a, b) && LexLess(b, a)) && !LexLess(a, a)
  {
    if a != [] && b != [] {
      LexTotal(a[1..], b[1..]);
      LexTotal(a[1..], a[1..]);
      assert a == [a[0]] + a[1..] && b == [b[0]] + b[1..];
    } else if a != [] {
      LexTotal(a[1..], a[1..]);
    }
  }

  lemma {:induction false} LexTransitive(a: string, b: string, c: string)
    requires LexLess(a, b) && LexLess(b, c)
    ensures LexLess(a, c)
  {
    if a != [] && a[0] == b[0] && b[0] == c[0] {
      LexTransitive(a[1..], b[1..], c[1..]);
    }
  }
}
