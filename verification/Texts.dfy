/** Taking text apart: splitting at a separator, lower case, first occurrences. */
module Texts {

  /** Splitting at every separator; the result is never empty. */
  function Split(s: string, separator: char): (parts: seq<string>)
    ensures |parts| >= 1 && forall k :: 0 <= k < |parts| ==> separator !in parts[k]
  {
    if s == [] then [""]
    else
      var rest := Split(s[1..], separator);
      if s[0] == separator then [""] + rest else [[s[0]] + rest[0]] + rest[1..]
  }

  function Join(parts: seq<string>, separator: char): string
    requires |parts| >= 1
  {
    if |parts| == 1 then parts[0] else parts[0] + [separator] + Join(parts[1..], separator)
  }

  lemma {:induction false} SplitPrefix(part: string, rest: string, separator: char)
    requires separator !in part
    ensures Split(part + [separator] + rest, separator) == [part] + Split(rest, separator)
    ensures Split(part, separator) == [part]
  {
    if part == [] {
      assert part + [separator] + rest == [separator] + rest;
    } else {
      assert forall c :: c in part[1..] ==> c in part;
      SplitPrefix(part[1..], rest, separator);
      assert (part + [separator] + rest)[1..] == part[1..] + [separator] + rest;
      assert part == [part[0]] + part[1..];
    }
  }

  /** Parts that do not contain the separator survive joining and splitting. */
  lemma {:induction false} SplitJoined(parts: seq<string>, separator: char)
    requires |parts| >= 1 && forall k :: 0 <= k < |parts| ==> separator !in parts[k]
    ensures Split(Join(parts, separator), separator) == parts
  {
    if |parts| == 1 {
      SplitPrefix(parts[0], "", separator);
    } else {
      SplitJoined(parts[1..], separator);
      SplitPrefix(parts[0], Join(parts[1..], separator), separator);
    }
  }

  /** And any text is its parts joined again. */
  lemma {:induction false} JoinedSplit(s: string, separator: char)
    ensures Join(Split(s, separator), separator) == s
  {
    if s != [] {
      JoinedSplit(s[1..], separator);
      var rest := Split(s[1..], separator);
      if s[0] != separator {
        var parts := Split(s, separator);
        assert parts[1..] == rest[1..];
        assert Join(parts, separator) == [s[0]] + Join(rest, separator);
      }
    }
  }

  // ----- Lower case -----

  /** The same letter, in either case. */
  predicate SameLetter(c: char, d: char) {
    c == d || ('A' <= c <= 'Z' && d as int == c as int + 32) || ('A' <= d <= 'Z' && c as int == d as int + 32)
  }

  predicate SameButCase(a: string, b: string) {
    |a| == |b| && forall k :: 0 <= k < |a| ==> SameLetter(a[k], b[k])
  }

  /** Texts have the same lower case exactly if they are the same up to case. */
  lemma LowerTells(a: string, b: string)
    ensures Lower(a) == Lower(b) <==> SameButCase(a, b)
  {
    if Lower(a) == Lower(b) {
      SameLower(a, b);
    }
    if SameButCase(a, b) {
      forall k | 0 <= k < |a|
        ensures Lower(a)[k] == Lower(b)[k]
      {
        assert SameLetter(a[k], b[k]);
      }
    }
  }

  lemma SameLower(a: string, b: string)
    requires Lower(a) == Lower(b)
    ensures SameButCase(a, b)
  {
    assert |a| == |Lower(a)| == |Lower(b)| == |b|;
    forall k | 0 <= k < |a|
      ensures SameLetter(a[k], b[k])
    {
      assert Lower(a)[k] == Lower(b)[k];
    }
  }

  function LowerChar(c: char): char {
    if 'A' <= c <= 'Z' then (c as int + 32) as char else c
  }

  function Lower(s: string): (t: string)
    ensures |t| == |s| && forall k :: 0 <= k < |s| ==> t[k] == LowerChar(s[k])
  {
    if s == [] then [] else [LowerChar(s[0])] + Lower(s[1..])
  }

  lemma LowerTwice(s: string)
    ensures Lower(Lower(s)) == Lower(s)
  {
    assert forall k :: 0 <= k < |s| ==> Lower(Lower(s))[k] == Lower(s)[k];
  }

  // ----- First occurrences -----

  /** The position of the first c in s, or |s| if there is none. */
  function IndexOf(s: string, c: char): (i: nat)
    ensures i <= |s| && c !in s[..i] && (i < |s| ==> s[i] == c) && (i == |s| <==> c !in s)
  {
    if s == [] || s[0] == c then 0
    else
      var i := IndexOf(s[1..], c);
      assert s[..i + 1] == [s[0]] + s[1..][..i];
      assert s == [s[0]] + s[1..];
      i + 1
  }

  lemma {:induction false} IndexAfter(a: string, c: char, b: string)
    requires c !in a
    ensures IndexOf(a + [c] + b, c) == |a|
  {
    if a != [] {
      assert forall d :: d in a[1..] ==> d in a;
      IndexAfter(a[1..], c, b);
      assert (a + [c] + b)[1..] == a[1..] + [c] + b;
    }
  }
}
