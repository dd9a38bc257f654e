/** The line diff of internal/cli/config_commands.go: a longest-common-subsequence table walked
    into an edit script, with a linear fallback for large inputs. */
module LineDiff {
  import opened Texts

  type Line = string

  // ----- Text and lines -----

  predicate SingleLine(s: string) {
    '\n' !in s
  }

  function TrimNewline(s: string): string {
    if s != [] && s[|s| - 1] == '\n' then s[..|s| - 1] else s
  }

  function Lines(s: string): seq<Line> {
    Split(TrimNewline(s), '\n')
  }

  /** A text is its lines joined again, with or without a final newline, and no line contains one. */
  lemma LinesRejoin(s: string)
    ensures s == Join(Lines(s), '\n') + (if s != [] && s[|s| - 1] == '\n' then "\n" else "")
    ensures forall k :: 0 <= k < |Lines(s)| ==> '\n' !in Lines(s)[k]
  {
    JoinedSplit(TrimNewline(s), '\n');
    assert s != [] ==> s == s[..|s| - 1] + [s[|s| - 1]];
  }

  // ----- Edit scripts -----

  datatype Edit = Keep(line: Line) | Delete(line: Line) | Add(line: Line)

  function Before(s: seq<Edit>): seq<Line> {
    if s == [] then [] else if s[0].Add? then Before(s[1..]) else [s[0].line] + Before(s[1..])
  }

  function After(s: seq<Edit>): seq<Line> {
    if s == [] then [] else if s[0].Delete? then After(s[1..]) else [s[0].line] + After(s[1..])
  }

  function Kept(s: seq<Edit>): seq<Line> {
    if s == [] then [] else if s[0].Keep? then [s[0].line] + Kept(s[1..]) else Kept(s[1..])
  }

  function Mark(e: Edit): Line {
    (match e case Keep(_) => "  " case Delete(_) => "- " case Add(_) => "+ ") + e.line
  }

  function Marked(s: seq<Edit>): (lines: seq<Line>)
    ensures |lines| == |s|
  {
    if s == [] then [] else [Mark(s[0])] + Marked(s[1..])
  }

  /** What is printed for a script. */
  function Text(s: seq<Edit>): string {
    if s == [] then "" else Printed(s[0]) + Text(s[1..])
  }

  function Printed(e: Edit): string {
    Mark(e) + "\n"
  }

  lemma ConcatenatedHead(s: seq<Edit>, t: seq<Edit>)
    requires s != []
    ensures (s + t)[0] == s[0] && (s + t)[1..] == s[1..] + t
  {
  }

  lemma {:induction false} BeforeConcatenated(s: seq<Edit>, t: seq<Edit>)
    ensures Before(s + t) == Before(s) + Before(t)
  {
    if s == [] {
      assert s + t == t;
    } else {
      ConcatenatedHead(s, t);
      BeforeConcatenated(s[1..], t);
    }
  }

  lemma {:induction false} AfterConcatenated(s: seq<Edit>, t: seq<Edit>)
    ensures After(s + t) == After(s) + After(t)
  {
    if s == [] {
      assert s + t == t;
    } else {
      ConcatenatedHead(s, t);
      AfterConcatenated(s[1..], t);
    }
  }

  lemma {:induction false} TextConcatenated(s: seq<Edit>, t: seq<Edit>)
    ensures Text(s + t) == Text(s) + Text(t)
  {
    if s == [] {
      assert s + t == t;
    } else {
      ConcatenatedHead(s, t);
      TextConcatenated(s[1..], t);
    }
  }

  // ----- Reading the printed diff back -----

  function OldLines(lines: seq<Line>): seq<Line> {
    if lines == [] then []
    else if |lines[0]| >= 2 && lines[0][..2] in {"  ", "- "} then [lines[0][2..]] + OldLines(lines[1..])
    else OldLines(lines[1..])
  }

  function NewLines(lines: seq<Line>): seq<Line> {
    if lines == [] then []
    else if |lines[0]| >= 2 && lines[0][..2] in {"  ", "+ "} then [lines[0][2..]] + NewLines(lines[1..])
    else NewLines(lines[1..])
  }

  lemma {:induction false} MarkedReadBack(s: seq<Edit>)
    ensures OldLines(Marked(s)) == Before(s) && NewLines(Marked(s)) == After(s)
  {
    if s != [] {
      MarkedReadBack(s[1..]);
      assert Marked(s)[1..] == Marked(s[1..]);
      assert Mark(s[0])[2..] == s[0].line;
      assert Mark(s[0])[..2] == (match s[0] case Keep(_) => "  " case Delete(_) => "- " case Add(_) => "+ ");
    }
  }

  lemma {:induction false} TextIsLines(s: seq<Edit>)
    requires s != []
    ensures Text(s) == Join(Marked(s), '\n') + "\n"
  {
    if |s| > 1 {
      TextIsLines(s[1..]);
    }
  }

  lemma {:induction false} MarkedSingle(s: seq<Edit>)
    requires forall k :: 0 <= k < |s| ==> SingleLine(s[k].line)
    ensures forall k :: 0 <= k < |s| ==> SingleLine(Marked(s)[k])
  {
    if s != [] {
      MarkedSingle(s[1..]);
    }
  }

  /** The printed text determines the lines on both sides of the diff. */
  lemma ReadBack(s: seq<Edit>)
    requires s != [] && forall k :: 0 <= k < |s| ==> SingleLine(s[k].line)
    ensures OldLines(Lines(Text(s))) == Before(s) && NewLines(Lines(Text(s))) == After(s)
  {
    MarkedSingle(s);
    TextSplits(s);
    MarkedReadBack(s);
  }

  lemma TextSplits(s: seq<Edit>)
    requires s != [] && forall k :: 0 <= k < |s| ==> SingleLine(Marked(s)[k])
    ensures Lines(Text(s)) == Marked(s)
  {
    TextIsLines(s);
    SplitJoined(Marked(s), '\n');
    NewlineTrimmed(Join(Marked(s), '\n'));
  }

  lemma NewlineTrimmed(t: string)
    ensures TrimNewline(t + "\n") == t
  {
    assert (t + "\n")[..|t|] == t;
  }

  lemma {:induction false} EditLines(s: seq<Edit>, k: nat)
    requires k < |s|
    ensures s[k].line in Before(s) || s[k].line in After(s)
  {
    if k > 0 {
      EditLines(s[1..], k - 1);
    }
  }

  // ----- Longest common subsequences -----

  predicate Subsequence(c: seq<Line>, a: seq<Line>) {
    c == [] || (a != [] && ((c[0] == a[0] && Subsequence(c[1..], a[1..])) || Subsequence(c, a[1..])))
  }

  predicate CommonSubsequence(c: seq<Line>, a: seq<Line>, b: seq<Line>) {
    Subsequence(c, a) && Subsequence(c, b)
  }

  function Max(x: nat, y: nat): nat {
    if x < y then y else x
  }

  function Lcs(a: seq<Line>, b: seq<Line>): nat
    decreases |a| + |b|
  {
    if a == [] || b == [] then 0
    else if a[0] == b[0] then 1 + Lcs(a[1..], b[1..])
    else Max(Lcs(a[1..], b), Lcs(a, b[1..]))
  }

  lemma {:induction false} SubsequenceTail(c: seq<Line>, a: seq<Line>)
    requires c != [] && Subsequence(c, a)
    ensures a != [] && Subsequence(c[1..], a[1..])
  {
    if !(c[0] == a[0] && Subsequence(c[1..], a[1..])) {
      SubsequenceTail(c, a[1..]);
      SubsequenceWeaken(c[1..], a[1..]);
    }
  }

  lemma {:induction false} SubsequenceWeaken(c: seq<Line>, a: seq<Line>)
    requires a != [] && Subsequence(c, a[1..])
    ensures Subsequence(c, a)
  {
  }

  /** No common subsequence is longer. */
  lemma {:induction false} LcsIsBound(c: seq<Line>, a: seq<Line>, b: seq<Line>)
    requires CommonSubsequence(c, a, b)
    ensures |c| <= Lcs(a, b)
    decreases |a| + |b|
  {
    if c != [] {
      if a[0] == b[0] {
        if c[0] == a[0] {
          SubsequenceTail(c, a);
          SubsequenceTail(c, b);
          LcsIsBound(c[1..], a[1..], b[1..]);
        } else {
          LcsIsBound(c, a[1..], b[1..]);
        }
      } else if c[0] != a[0] {
        LcsIsBound(c, a[1..], b);
      } else {
        LcsIsBound(c, a, b[1..]);
      }
    }
  }

  /** The script the walk over the table produces; on a tie it deletes first. */
  function Edits(a: seq<Line>, b: seq<Line>): seq<Edit>
    decreases |a| + |b|
  {
    if a == [] && b == [] then []
    else if a != [] && b != [] && a[0] == b[0] then [Keep(a[0])] + Edits(a[1..], b[1..])
    else if b == [] || (a != [] && Lcs(a[1..], b) >= Lcs(a, b[1..])) then [Delete(a[0])] + Edits(a[1..], b)
    else [Add(b[0])] + Edits(a, b[1..])
  }

  lemma {:induction false} EditsRebuild(a: seq<Line>, b: seq<Line>)
    ensures Before(Edits(a, b)) == a && After(Edits(a, b)) == b && |Kept(Edits(a, b))| == Lcs(a, b)
    decreases |a| + |b|
  {
    if a != [] && b != [] && a[0] == b[0] {
      EditsRebuild(a[1..], b[1..]);
      assert Edits(a, b)[1..] == Edits(a[1..], b[1..]);
    } else if a != [] && (b == [] || Lcs(a[1..], b) >= Lcs(a, b[1..])) {
      EditsRebuild(a[1..], b);
      assert Edits(a, b)[1..] == Edits(a[1..], b);
    } else if b != [] {
      EditsRebuild(a, b[1..]);
      assert Edits(a, b)[1..] == Edits(a, b[1..]);
    }
  }

  /** The lines a script keeps are common to both sides. */
  lemma {:induction false} KeptIsCommon(s: seq<Edit>)
    ensures CommonSubsequence(Kept(s), Before(s), After(s))
  {
    if s != [] {
      KeptIsCommon(s[1..]);
      assert Before(s) != [] ==> Before(s)[1..] == Before(s[1..]) || s[0].Add?;
      assert After(s) != [] ==> After(s)[1..] == After(s[1..]) || s[0].Delete?;
      match s[0] {
        case Keep(_) => assert Kept(s)[1..] == Kept(s[1..]);
        case Delete(_) => SubsequenceWeaken(Kept(s), Before(s));
        case Add(_) => SubsequenceWeaken(Kept(s), After(s));
      }
    }
  }

  /** No script with the same two sides keeps more lines, and Lcs is the length of a longest
      common subsequence: it is reached, and nothing exceeds it. */
  lemma EditsOptimal(a: seq<Line>, b: seq<Line>, s: seq<Edit>)
    ensures Before(s) == a && After(s) == b ==> |Kept(s)| <= |Kept(Edits(a, b))|
    ensures CommonSubsequence(Kept(Edits(a, b)), a, b) && |Kept(Edits(a, b))| == Lcs(a, b)
  {
    EditsRebuild(a, b);
    KeptIsCommon(Edits(a, b));
    if Before(s) == a && After(s) == b {
      KeptIsCommon(s);
      LcsIsBound(Kept(s), a, b);
    }
  }

  // ----- The fallback -----

  /** The last n lines are the same. */
  predicate SameTail(a: seq<Line>, b: seq<Line>, n: nat) {
    n <= |a| && n <= |b| && a[|a| - n..] == b[|b| - n..]
  }

  /** The first p and the last s lines are common, and the lines next to them differ, unless the
      two parts already meet. */
  predicate Longest(a: seq<Line>, b: seq<Line>, p: nat, s: nat) {
    && p + s <= |a| && p + s <= |b| && a[..p] == b[..p] && SameTail(a, b, s)
    && (p < |a| && p < |b| ==> a[p] != b[p])
    && (p + s < |a| && p + s < |b| ==> a[|a| - 1 - s] != b[|b| - 1 - s])
  }

  lemma TailExtends(a: seq<Line>, b: seq<Line>, n: nat)
    requires SameTail(a, b, n) && n < |a| && n < |b| && a[|a| - 1 - n] == b[|b| - 1 - n]
    ensures SameTail(a, b, n + 1)
  {
    assert a[|a| - 1 - n..] == [a[|a| - 1 - n]] + a[|a| - n..];
    assert b[|b| - 1 - n..] == [b[|b| - 1 - n]] + b[|b| - n..];
  }

  lemma HeadAt(a: seq<Line>, b: seq<Line>, n: nat, k: nat)
    requires n <= |a| && n <= |b| && a[..n] == b[..n] && k < n
    ensures a[k] == b[k]
  {
    assert a[..n][k] == a[k] && b[..n][k] == b[k];
  }

  lemma TailAt(a: seq<Line>, b: seq<Line>, n: nat, k: nat)
    requires SameTail(a, b, n) && k < n
    ensures a[|a| - 1 - k] == b[|b| - 1 - k]
  {
    assert a[|a| - n..][n - 1 - k] == a[|a| - 1 - k] && b[|b| - n..][n - 1 - k] == b[|b| - 1 - k];
  }

  /** Two texts have one such pair of parts. */
  lemma LongestUnique(a: seq<Line>, b: seq<Line>, p: nat, s: nat, q: nat, t: nat)
    requires Longest(a, b, p, s) && Longest(a, b, q, t)
    ensures p == q && s == t
  {
    if p < q {
      HeadAt(a, b, q, p);
    } else if q < p {
      HeadAt(a, b, p, q);
    } else if s < t {
      TailAt(a, b, t, s);
    } else if t < s {
      TailAt(a, b, s, t);
    }
  }

  function Each(kind: Edit, lines: seq<Line>): (s: seq<Edit>)
    ensures |s| == |lines|
  {
    if lines == [] then []
    else
      [match kind case Keep(_) => Keep(lines[0]) case Delete(_) => Delete(lines[0]) case Add(_) => Add(lines[0])] + Each(kind, lines[1..])
  }

  lemma {:induction false} EachSides(kind: Edit, lines: seq<Line>)
    ensures Before(Each(kind, lines)) == if kind.Add? then [] else lines
    ensures After(Each(kind, lines)) == if kind.Delete? then [] else lines
  {
    if lines != [] {
      EachSides(kind, lines[1..]);
      assert Each(kind, lines)[1..] == Each(kind, lines[1..]);
    }
  }

  function FourParts(head: seq<Edit>, gone: seq<Edit>, added: seq<Edit>, tail: seq<Edit>): seq<Edit> {
    head + (gone + (added + tail))
  }

  lemma FourPartsSides(head: seq<Edit>, gone: seq<Edit>, added: seq<Edit>, tail: seq<Edit>)
    ensures Before(FourParts(head, gone, added, tail)) == Before(head) + (Before(gone) + (Before(added) + Before(tail)))
    ensures After(FourParts(head, gone, added, tail)) == After(head) + (After(gone) + (After(added) + After(tail)))
  {
    BeforeConcatenated(head, gone + (added + tail));
    BeforeConcatenated(gone, added + tail);
    BeforeConcatenated(added, tail);
    AfterConcatenated(head, gone + (added + tail));
    AfterConcatenated(gone, added + tail);
    AfterConcatenated(added, tail);
  }

  lemma FourPartsText(head: seq<Edit>, gone: seq<Edit>, added: seq<Edit>, tail: seq<Edit>)
    ensures Text(FourParts(head, gone, added, tail)) == Text(head) + (Text(gone) + (Text(added) + Text(tail)))
  {
    TextConcatenated(head, gone + (added + tail));
    TextConcatenated(gone, added + tail);
    TextConcatenated(added, tail);
  }

  /** The script that keeps p lines at the front and s at the end. */
  function TrimmedEdits(a: seq<Line>, b: seq<Line>, p: nat, s: nat): seq<Edit>
    requires p + s <= |a| && p + s <= |b|
  {
    FourParts(Each(Keep(""), a[..p]), Each(Delete(""), a[p..|a| - s]), Each(Add(""), b[p..|b| - s]), Each(Keep(""), a[|a| - s..]))
  }

  /** The script with the longest common parts is printed. */
  ghost predicate PrintsTrimmed(a: seq<Line>, b: seq<Line>, output: string) {
    exists p: nat, s: nat :: Longest(a, b, p, s) && output == Text(TrimmedEdits(a, b, p, s))
  }

  lemma FallbackRebuilds(a: seq<Line>, b: seq<Line>, p: nat, s: nat)
    requires p + s <= |a| && p + s <= |b| && a[..p] == b[..p] && SameTail(a, b, s)
    ensures Before(TrimmedEdits(a, b, p, s)) == a && After(TrimmedEdits(a, b, p, s)) == b
  {
    OldSide(a, b, p, s);
    NewSide(a, b, p, s);
  }

  lemma OldSide(a: seq<Line>, b: seq<Line>, p: nat, s: nat)
    requires p + s <= |a| && p + s <= |b|
    ensures Before(TrimmedEdits(a, b, p, s)) == a
  {
    FourSides(a[..p], a[p..|a| - s], b[p..|b| - s], a[|a| - s..]);
    Rejoined(a, p, s);
  }

  lemma NewSide(a: seq<Line>, b: seq<Line>, p: nat, s: nat)
    requires p + s <= |a| && p + s <= |b| && a[..p] == b[..p] && SameTail(a, b, s)
    ensures After(TrimmedEdits(a, b, p, s)) == b
  {
    FourSides(a[..p], a[p..|a| - s], b[p..|b| - s], a[|a| - s..]);
    Rejoined(b, p, s);
  }

  lemma FourSides(head: seq<Line>, gone: seq<Line>, added: seq<Line>, tail: seq<Line>)
    ensures var s := FourParts(Each(Keep(""), head), Each(Delete(""), gone), Each(Add(""), added), Each(Keep(""), tail));
      Before(s) == head + (gone + tail) && After(s) == head + (added + tail)
  {
    FourPartsSides(Each(Keep(""), head), Each(Delete(""), gone), Each(Add(""), added), Each(Keep(""), tail));
    EachSides(Keep(""), head);
    EachSides(Delete(""), gone);
    EachSides(Add(""), added);
    EachSides(Keep(""), tail);
    assert [] + tail == tail && [] + (added + tail) == added + tail;
  }

  lemma Rejoined(a: seq<Line>, p: nat, s: nat)
    requires p + s <= |a|
    ensures a[..p] + (a[p..|a| - s] + a[|a| - s..]) == a
  {
  }

  // ----- The table -----

  const MAX_CELLS := 2_000_000

  function Cell(width: nat, i: nat, j: nat): nat {
    i * width + j
  }

  lemma CellDistinct(width: nat, i: nat, j: nat, k: nat, l: nat)
    requires j < width && l < width && (i != k || j != l)
    ensures Cell(width, i, j) != Cell(width, k, l)
  {
    if i < k {
      assert k * width >= (i + 1) * width == i * width + width;
    } else if k < i {
      assert i * width >= (k + 1) * width == k * width + width;
    }
  }

  lemma CellInside(width: nat, rows: nat, i: nat, j: nat)
    requires i < rows && j < width
    ensures Cell(width, i, j) < rows * width
  {
    assert rows * width >= (i + 1) * width == i * width + width;
  }

  function At(table: seq<nat>, width: nat, i: nat, j: nat): nat {
    if Cell(width, i, j) < |table| then table[Cell(width, i, j)] else 0
  }

  /** The cells filled so far hold the optima of their suffixes: the rows below i, row i from
      column j on, and the last column, which stays zero. */
  ghost predicate Filled(table: seq<nat>, a: seq<Line>, b: seq<Line>, i: nat, j: nat) {
    && |table| == (|a| + 1) * (|b| + 1)
    && forall k, l {:trigger At(table, |b| + 1, k, l)} ::
      0 <= k <= |a| && 0 <= l <= |b| && (k > i || (k == i && l >= j) || l == |b|) ==>
        At(table, |b| + 1, k, l) == Lcs(a[k..], b[l..])
  }

  lemma LcsStep(a: seq<Line>, b: seq<Line>, i: nat, j: nat)
    requires i < |a| && j < |b|
    ensures Lcs(a[i..], b[j..]) == if a[i] == b[j] then Lcs(a[i + 1..], b[j + 1..]) + 1 else Max(Lcs(a[i + 1..], b[j..]), Lcs(a[i..], b[j + 1..]))
  {
    assert a[i..][1..] == a[i + 1..] && b[j..][1..] == b[j + 1..];
  }

  lemma AtWritten(table: seq<nat>, width: nat, i: nat, j: nat, value: nat, k: nat, l: nat)
    requires j < width && l < width && Cell(width, i, j) < |table|
    ensures At(table[Cell(width, i, j) := value], width, k, l) == if k == i && l == j then value else At(table, width, k, l)
  {
    if k != i || l != j {
      CellDistinct(width, i, j, k, l);
    }
  }

  /** Filling the next cell to the left. */
  lemma FillStep(table: seq<nat>, a: seq<Line>, b: seq<Line>, i: nat, j: nat, value: nat)
    requires i < |a| && j < |b| && Filled(table, a, b, i, j + 1)
    requires value == if a[i] == b[j] then At(table, |b| + 1, i + 1, j + 1) + 1
                      else Max(At(table, |b| + 1, i + 1, j), At(table, |b| + 1, i, j + 1))
    ensures Cell(|b| + 1, i, j) < |table| && Filled(table[Cell(|b| + 1, i, j) := value], a, b, i, j)
  {
    CellInside(|b| + 1, |a| + 1, i, j);
    LcsStep(a, b, i, j);
    var after := table[Cell(|b| + 1, i, j) := value];
    forall k, l | 0 <= k <= |a| && 0 <= l <= |b| && (k > i || (k == i && l >= j) || l == |b|)
      ensures At(after, |b| + 1, k, l) == Lcs(a[k..], b[l..])
    {
      AtWritten(table, |b| + 1, i, j, value, k, l);
    }
  }

  lemma CellsInside(width: nat, rows: nat, i: nat, j: nat)
    requires i + 1 < rows && j + 1 < width
    ensures Cell(width, i, j) < rows * width && Cell(width, i + 1, j) < rows * width
    ensures Cell(width, i, j + 1) < rows * width && Cell(width, i + 1, j + 1) < rows * width
  {
    CellInside(width, rows, i, j);
    CellInside(width, rows, i + 1, j);
    CellInside(width, rows, i, j + 1);
    CellInside(width, rows, i + 1, j + 1);
  }

  method FillCell(lengths: array<nat>, a: seq<Line>, b: seq<Line>, i: nat, j: nat)
    requires i < |a| && j < |b| && Filled(lengths[..], a, b, i, j + 1)
    modifies lengths
    ensures Filled(lengths[..], a, b, i, j)
  {
    var width := |b| + 1;
    CellsInside(width, |a| + 1, i, j);
    var value: nat := if a[i] == b[j] then lengths[Cell(width, i + 1, j + 1)] + 1
                 else Max(lengths[Cell(width, i + 1, j)], lengths[Cell(width, i, j + 1)]);
    FillStep(lengths[..], a, b, i, j, value);
    ghost var before := lengths[..];
    lengths[Cell(width, i, j)] := value;
    assert lengths[..] == before[Cell(width, i, j) := value];
  }

  lemma NextRow(table: seq<nat>, a: seq<Line>, b: seq<Line>, i: nat)
    requires Filled(table, a, b, i + 1, 0)
    ensures Filled(table, a, b, i, |b|)
  {
  }

  /** The whole table: cell (i, j) is the optimum for the suffixes from i and from j. */
  method FillTable(a: seq<Line>, b: seq<Line>) returns (lengths: array<nat>)
    ensures Filled(lengths[..], a, b, 0, 0)
  {
    lengths := new nat[(|a| + 1) * (|b| + 1)](_ => 0);
    assert Filled(lengths[..], a, b, |a|, 0);
    var i := |a|;
    while i > 0
      invariant 0 <= i <= |a| && Filled(lengths[..], a, b, i, 0)
    {
      i := i - 1;
      NextRow(lengths[..], a, b, i);
      var j := |b|;
      while j > 0
        invariant 0 <= j <= |b| && Filled(lengths[..], a, b, i, j)
      {
        j := j - 1;
        FillCell(lengths, a, b, i, j);
      }
    }
  }

  // ----- Printing -----

  lemma EditsStep(a: seq<Line>, b: seq<Line>, i: nat, j: nat)
    requires i <= |a| && j <= |b| && (i < |a| || j < |b|)
    ensures i < |a| && j < |b| && a[i] == b[j] ==> Edits(a[i..], b[j..]) == [Keep(a[i])] + Edits(a[i + 1..], b[j + 1..])
    ensures !(i < |a| && j < |b| && a[i] == b[j]) ==>
      if j == |b| || (i < |a| && Lcs(a[i + 1..], b[j..]) >= Lcs(a[i..], b[j + 1..])) then
        Edits(a[i..], b[j..]) == [Delete(a[i])] + Edits(a[i + 1..], b[j..])
      else
        Edits(a[i..], b[j..]) == [Add(b[j])] + Edits(a[i..], b[j + 1..])
  {
    assert i < |a| ==> a[i..][1..] == a[i + 1..];
    assert j < |b| ==> b[j..][1..] == b[j + 1..];
  }

  /** Appending one marked line is one step of printing. */
  lemma TextStep(output: string, e: Edit, rest: seq<Edit>)
    ensures output + Text([e] + rest) == (output + Printed(e)) + Text(rest)
  {
    assert ([e] + rest)[1..] == rest;
  }

  /** Compare the two neighbouring cells; a tie goes to deletion. */
  method DeleteFirst(lengths: array<nat>, a: seq<Line>, b: seq<Line>, i: nat, j: nat) returns (delete: bool)
    requires i < |a| && j < |b| && Filled(lengths[..], a, b, 0, 0)
    ensures delete <==> Lcs(a[i + 1..], b[j..]) >= Lcs(a[i..], b[j + 1..])
  {
    var width := |b| + 1;
    CellsInside(width, |a| + 1, i, j);
    delete := lengths[Cell(width, i + 1, j)] >= lengths[Cell(width, i, j + 1)];
    assert lengths[Cell(width, i + 1, j)] == At(lengths[..], width, i + 1, j);
    assert lengths[Cell(width, i, j + 1)] == At(lengths[..], width, i, j + 1);
  }

  /** The next line of the walk over the table, and where the walk goes from there. */
  method NextEdit(lengths: array<nat>, a: seq<Line>, b: seq<Line>, i: nat, j: nat) returns (e: Edit, k: nat, l: nat)
    requires i <= |a| && j <= |b| && (i < |a| || j < |b|) && Filled(lengths[..], a, b, 0, 0)
    ensures i <= k <= |a| && j <= l <= |b| && i + j < k + l
    ensures Edits(a[i..], b[j..]) == [e] + Edits(a[k..], b[l..])
  {
    EditsStep(a, b, i, j);
    if i < |a| && j < |b| && a[i] == b[j] {
      return Keep(a[i]), i + 1, j + 1;
    }
    var delete := j == |b|;
    if !delete && i < |a| {
      delete := DeleteFirst(lengths, a, b, i, j);
    }
    if delete {
      e, k, l := Delete(a[i]), i + 1, j;
    } else {
      e, k, l := Add(b[j]), i, j + 1;
    }
  }

  /** Walk the table and print the script. */
  method RenderTable(a: seq<Line>, b: seq<Line>) returns (output: string)
    ensures output == Text(Edits(a, b))
  {
    var lengths := FillTable(a, b);
    output := "";
    var i, j := 0, 0;
    assert a[0..] == a && b[0..] == b;
    while i < |a| || j < |b|
      invariant 0 <= i <= |a| && 0 <= j <= |b|
      invariant Filled(lengths[..], a, b, 0, 0)
      invariant output + Text(Edits(a[i..], b[j..])) == Text(Edits(a, b))
      decreases |a| - i + |b| - j
    {
      var e, k, l := NextEdit(lengths, a, b, i, j);
      TextStep(output, e, Edits(a[k..], b[l..]));
      output := output + Printed(e);
      i, j := k, l;
    }
    assert a[i..] == [] && b[j..] == [] && Text([]) == "";
  }

  method PrintEach(kind: Edit, lines: seq<Line>) returns (output: string)
    ensures output == Text(Each(kind, lines))
  {
    output := "";
    assert lines[0..] == lines;
    for k := 0 to |lines|
      invariant output + Text(Each(kind, lines[k..])) == Text(Each(kind, lines))
    {
      assert lines[k..][1..] == lines[k + 1..];
      var e := match kind case Keep(_) => Keep(lines[k]) case Delete(_) => Delete(lines[k]) case Add(_) => Add(lines[k]);
      TextStep(output, e, Each(kind, lines[k + 1..]));
      output := output + Printed(e);
    }
  }

  method ScanPrefix(a: seq<Line>, b: seq<Line>) returns (prefix: nat)
    ensures prefix <= |a| && prefix <= |b| && a[..prefix] == b[..prefix]
    ensures prefix < |a| && prefix < |b| ==> a[prefix] != b[prefix]
  {
    prefix := 0;
    while prefix < |a| && prefix < |b| && a[prefix] == b[prefix]
      invariant prefix <= |a| && prefix <= |b| && a[..prefix] == b[..prefix]
    {
      assert a[..prefix + 1] == a[..prefix] + [a[prefix]];
      assert b[..prefix + 1] == b[..prefix] + [b[prefix]];
      prefix := prefix + 1;
    }
  }

  /** Compare from the end, but never into the common prefix. */
  method ScanSuffix(a: seq<Line>, b: seq<Line>, prefix: nat) returns (suffix: nat)
    requires prefix <= |a| && prefix <= |b|
    ensures prefix + suffix <= |a| && prefix + suffix <= |b| && SameTail(a, b, suffix)
    ensures prefix + suffix < |a| && prefix + suffix < |b| ==> a[|a| - 1 - suffix] != b[|b| - 1 - suffix]
  {
    suffix := 0;
    while suffix < |a| - prefix && suffix < |b| - prefix && a[|a| - 1 - suffix] == b[|b| - 1 - suffix]
      invariant prefix + suffix <= |a| && prefix + suffix <= |b| && SameTail(a, b, suffix)
    {
      TailExtends(a, b, suffix);
      suffix := suffix + 1;
    }
  }

  method RenderPrefixSuffixDiff(a: seq<Line>, b: seq<Line>) returns (output: string)
    ensures PrintsTrimmed(a, b, output)
  {
    var prefix := ScanPrefix(a, b);
    var suffix := ScanSuffix(a, b, prefix);
    output := RenderTrimmed(a, b, prefix, suffix);
    assert Longest(a, b, prefix, suffix);
  }

  method RenderTrimmed(a: seq<Line>, b: seq<Line>, prefix: nat, suffix: nat) returns (output: string)
    requires prefix + suffix <= |a| && prefix + suffix <= |b|
    ensures output == Text(TrimmedEdits(a, b, prefix, suffix))
  {
    var head := PrintEach(Keep(""), a[..prefix]);
    var gone := PrintEach(Delete(""), a[prefix..|a| - suffix]);
    var added := PrintEach(Add(""), b[prefix..|b| - suffix]);
    var tail := PrintEach(Keep(""), a[|a| - suffix..]);
    output := head + (gone + (added + tail));
    FourPartsText(Each(Keep(""), a[..prefix]), Each(Delete(""), a[prefix..|a| - suffix]),
      Each(Add(""), b[prefix..|b| - suffix]), Each(Keep(""), a[|a| - suffix..]));
  }

  /** The diff of two texts: what it prints can be read back into the lines of both, and unless
      the texts are too large no diff of them keeps more lines. */
  method RenderLineDiff(applied: string, desired: string) returns (output: string)
    ensures OldLines(Lines(output)) == Lines(applied) && NewLines(Lines(output)) == Lines(desired)
    ensures |Lines(applied)| * |Lines(desired)| <= 2_000_000 ==> output == Text(Edits(Lines(applied), Lines(desired)))
    ensures |Lines(applied)| * |Lines(desired)| > 2_000_000 ==> PrintsTrimmed(Lines(applied), Lines(desired), output)
  {
    var a, b := Lines(applied), Lines(desired);
    if |a| * |b| > MAX_CELLS {
      output := RenderPrefixSuffixDiff(a, b);
      TrimmedReadsBack(a, b, output);
    } else {
      output := RenderTable(a, b);
      EditsRebuild(a, b);
      PrintedReadsBack(Edits(a, b));
    }
  }

  lemma TrimmedReadsBack(a: seq<Line>, b: seq<Line>, output: string)
    requires a != [] && PrintsTrimmed(a, b, output)
    requires forall k :: 0 <= k < |a| ==> SingleLine(a[k])
    requires forall k :: 0 <= k < |b| ==> SingleLine(b[k])
    ensures OldLines(Lines(output)) == a && NewLines(Lines(output)) == b
  {
    var p: nat, s: nat :| Longest(a, b, p, s) && output == Text(TrimmedEdits(a, b, p, s));
    FallbackRebuilds(a, b, p, s);
    PrintedReadsBack(TrimmedEdits(a, b, p, s));
  }

  lemma PrintedReadsBack(s: seq<Edit>)
    requires Before(s) != []
    requires forall k :: 0 <= k < |Before(s)| ==> SingleLine(Before(s)[k])
    requires forall k :: 0 <= k < |After(s)| ==> SingleLine(After(s)[k])
    ensures OldLines(Lines(Text(s))) == Before(s) && NewLines(Lines(Text(s))) == After(s)
  {
    forall k | 0 <= k < |s|
      ensures SingleLine(s[k].line)
    {
      EditLines(s, k);
    }
    ReadBack(s);
  }
}
