/** reviewDiffPages of internal/cli/tui_coordinator.go: greedy pages under two limits. */
module Pagination {

  datatype Cell = Cell(kind: string, text: string)

  datatype Row = Row(kind: string, header: string, before: Cell, after: Cell)

  /** Rows from start up to, not including, end. */
  datatype Page = Page(start: nat, end: nat)

  const MAX_ROWS := 256
  const MAX_BYTES := 65536

  function RowBytes(r: Row): nat {
    |r.kind| + |r.header| + |r.before.kind| + |r.before.text| + |r.after.kind| + |r.after.text|
  }

  function Bytes(rows: seq<Row>, i: nat, j: nat): nat
    requires i <= j <= |rows|
  {
    if i == j then 0 else Bytes(rows, i, j - 1) + RowBytes(rows[j - 1])
  }

  /** All the text of a row. */
  function RowText(r: Row): string {
    r.kind + r.header + r.before.kind + r.before.text + r.after.kind + r.after.text
  }

  /** All the text of a page. */
  function PageText(rows: seq<Row>, i: nat, j: nat): string
    requires i <= j <= |rows|
  {
    if i == j then "" else PageText(rows, i, j - 1) + RowText(rows[j - 1])
  }

  /** The bytes counted for a page are those of its text. */
  lemma {:induction false} BytesOfText(rows: seq<Row>, i: nat, j: nat)
    requires i <= j <= |rows|
    ensures Bytes(rows, i, j) == |PageText(rows, i, j)|
  {
    if i < j {
      BytesOfText(rows, i, j - 1);
    }
  }

  lemma {:induction false} BytesWithin(rows: seq<Row>, i: nat, j: nat, k: nat, l: nat)
    requires k <= i <= j <= l <= |rows|
    ensures Bytes(rows, i, j) <= Bytes(rows, k, l)
    decreases l - k
  {
    if j < l {
      BytesWithin(rows, i, j, k, l - 1);
    } else if i < j {
      BytesWithin(rows, i, j - 1, k, l - 1);
    }
  }

  /** A page within the limits: few enough rows, and few enough bytes unless it is one row. */
  predicate Fits(rows: seq<Row>, p: Page) {
    && p.start <= p.end <= |rows| && p.end - p.start <= 256
    && (|PageText(rows, p.start, p.end)| <= 65536 || p.end - p.start == 1)
  }

  /** The pages are contiguous, cover every row once, and each is within the limits. */
  predicate Paginates(rows: seq<Row>, pages: seq<Page>) {
    && |pages| >= 1 && pages[0].start == 0 && pages[|pages| - 1].end == |rows|
    && (forall k :: 0 <= k < |pages| - 1 ==> pages[k].end == pages[k + 1].start)
    && (forall k :: 0 <= k < |pages| ==> Fits(rows, pages[k]))
  }

  /** No row could be added to the page. */
  predicate Full(rows: seq<Row>, p: Page)
    requires p.start <= p.end <= |rows|
  {
    p.end == |rows| || p.end - p.start == 256 || |PageText(rows, p.start, p.end + 1)| > 65536
  }

  ghost predicate Greedy(rows: seq<Row>, pages: seq<Page>)
    requires Paginates(rows, pages)
  {
    && (forall k :: 0 <= k < |pages| ==> Full(rows, pages[k]))
    && (rows != [] ==> forall k :: 0 <= k < |pages| ==> pages[k].start < pages[k].end)
  }

  /** Greedy stays ahead: after the same number of pages no pagination has shown more rows. */
  lemma {:induction false} StaysAhead(rows: seq<Row>, pages: seq<Page>, other: seq<Page>, k: nat)
    requires Paginates(rows, pages) && Greedy(rows, pages) && Paginates(rows, other)
    requires k < |pages| && k < |other|
    ensures other[k].end <= pages[k].end
  {
    if k > 0 {
      StaysAhead(rows, pages, other, k - 1);
    }
    var p, q := pages[k], other[k];
    assert q.start <= p.start by {
      if k > 0 {
        assert pages[k - 1].end == pages[k].start && other[k - 1].end == other[k].start;
      }
    }
    if p.end < q.end {
      assert Full(rows, p) && Fits(rows, p) && Fits(rows, q);
      BytesWithin(rows, p.start, p.end + 1, q.start, q.end);
      BytesOfText(rows, p.start, p.end + 1);
      BytesOfText(rows, q.start, q.end);
    }
  }

  /** No pagination within the limits uses fewer pages. */
  lemma FewestPages(rows: seq<Row>, pages: seq<Page>, other: seq<Page>)
    requires Paginates(rows, pages) && Greedy(rows, pages) && Paginates(rows, other)
    ensures rows != [] ==> |pages| <= |other|
  {
    var k := |other| - 1;
    if k < |pages| {
      StaysAhead(rows, pages, other, k);
      assert Fits(rows, pages[k]);
      assert k + 1 < |pages| ==> pages[k].end == pages[k + 1].start && Fits(rows, pages[k + 1]);
    }
  }

  /** Fill one page from start. */
  method NextPage(rows: seq<Row>, start: nat) returns (end: nat)
    requires start < |rows|
    ensures start < end <= |rows| && Fits(rows, Page(start, end)) && Full(rows, Page(start, end))
  {
    end := start;
    var bytes := 0;
    while end < |rows| && end - start < MAX_ROWS
      invariant start <= end <= |rows| && end - start <= MAX_ROWS
      invariant bytes == Bytes(rows, start, end)
      invariant bytes <= MAX_BYTES || end - start == 1
    {
      var rowBytes := RowBytes(rows[end]);
      if end > start && bytes + rowBytes > MAX_BYTES {
        BytesOfText(rows, start, end + 1);
        break;
      }
      bytes := bytes + rowBytes;
      end := end + 1;
    }
    BytesOfText(rows, start, end);
  }

  method ReviewDiffPages(rows: seq<Row>) returns (pages: seq<Page>)
    ensures Paginates(rows, pages) && Greedy(rows, pages)
    ensures rows == [] ==> pages == [Page(0, 0)]
  {
    if rows == [] {
      return [Page(0, 0)];
    }
    pages := [];
    var start := 0;
    while start < |rows|
      invariant 0 <= start <= |rows|
      invariant if pages == [] then start == 0 else pages[0].start == 0 && pages[|pages| - 1].end == start
      invariant forall k :: 0 <= k < |pages| - 1 ==> pages[k].end == pages[k + 1].start
      invariant forall k :: 0 <= k < |pages| ==>
        Fits(rows, pages[k]) && Full(rows, pages[k]) && pages[k].start < pages[k].end
    {
      var end := NextPage(rows, start);
      pages := pages + [Page(start, end)];
      start := end;
    }
  }
}
