/** Reading a cursor in pages, with a row budget and one row of lookahead. */
module Paging {
  import opened Text

  /** What one step of a cursor gives: a row, or a row that cannot be scanned. */
  datatype Fetch<T> = Row(row: T) | ScanError(message: string)

  datatype Step<T> = Got(item: Fetch<T>) | End(error: Option<string>)

  /** sql.Rows: the rows still to come, and the error, if any, that ends them. */
  class Rows<T> {
    var unread: seq<Fetch<T>>
    const error: Option<string>
    var closed: bool

    constructor (unread: seq<Fetch<T>>, error: Option<string>)
      ensures this.unread == unread && this.error == error && !closed
    {
      this.unread, this.error, closed := unread, error, false;
    }

    method Close()
      modifies `closed
      ensures closed
    {
      closed := true;
    }

    method Next() returns (r: Step<T>)
      requires !closed
      modifies `unread
      ensures old(unread) == [] ==> r == End(error) && unread == []
      ensures old(unread) != [] ==> r == Got(old(unread)[0]) && unread == old(unread)[1..]
    {
      if unread == [] {
        return End(error);
      }
      r := Got(unread[0]);
      unread := unread[1..];
    }
  }

  type PageLength = n: int | n > 0 witness 1

  datatype Page<T> = Page(rows: seq<T>, hasMore: bool, truncated: bool)

  /** A cursor being paged, as a value. */
  datatype Cursor<T> = Cursor(unread: seq<Fetch<T>>, error: Option<string>, pending: Option<T>, remaining: int)

  function Content<T>(c: Cursor<T>): seq<Fetch<T>> {
    (if c.pending.Some? then [Row(c.pending.value)] else []) + c.unread
  }

  predicate Clean<T>(fetches: seq<Fetch<T>>) { forall i | 0 <= i < |fetches| :: fetches[i].Row? }

  function RowsOf<T>(fetches: seq<Fetch<T>>): (r: seq<T>)
    requires Clean(fetches)
    ensures |r| == |fetches| && forall i | 0 <= i < |r| :: r[i] == fetches[i].row
  {
    seq(|fetches|, i requires 0 <= i < |fetches| => fetches[i].row)
  }

  function FirstError<T>(fetches: seq<Fetch<T>>): string
    requires !Clean(fetches)
    decreases |fetches|
  {
    if fetches[0].ScanError? then fetches[0].message else FirstError(fetches[1..])
  }

  function PageSize(pageSize: int, standard: PageLength): PageLength { if pageSize <= 0 then standard else pageSize }

  function Least(a: int, b: int): int { if a <= b then a else b }

  /** What is wanted of a page: as many rows as the page size and the budget allow; then nothing more
      if the budget is used up; otherwise one row of lookahead decides. */
  function PageOf<T>(c: Cursor<T>, size: int): Result<Page<T>> {
    var content := Content(c);
    var n := if Least(size, c.remaining) < 0 then 0 else Least(size, c.remaining);
    var taken := content[..Least(n, |content|)];
    if !Clean(taken) then Err(FirstError(taken))
    else if |content| < n then (if c.error.Some? then Err(c.error.value) else Ok(Page(RowsOf(taken), false, false)))
    else if c.remaining - n <= 0 then Ok(Page(RowsOf(taken), false, true))
    else if |content| == n then (if c.error.Some? then Err(c.error.value) else Ok(Page(RowsOf(taken), false, false)))
    else if content[n].ScanError? then Err(content[n].message)
    else Ok(Page(RowsOf(taken), true, false))
  }

  /** The cursor after a page that has more. */
  function Advanced<T>(c: Cursor<T>, size: int): Cursor<T>
    requires size > 0 && PageOf(c, size).Ok? && PageOf(c, size).value.hasMore
  {
    var content := Content(c);
    var n := Least(size, c.remaining);
    Cursor(content[n + 1..], c.error, Some(content[n].row), c.remaining - n)
  }

  // ---- the loop ----

  class QuerySession<T> {
    const rows: Rows<T>
    var pending: Option<T>
    var remaining: int

    constructor (rows: Rows<T>, maxRows: int)
      ensures this.rows == rows && pending == None && remaining == maxRows
    {
      this.rows, pending, remaining := rows, None, maxRows;
    }

    ghost function View(): Cursor<T>
      reads this, rows`unread
    {
      Cursor(rows.unread, rows.error, pending, remaining)
    }

    method ReadQuerySessionPage(pageSize: int, standard: PageLength) returns (r: Result<Page<T>>)
      requires !rows.closed
      modifies this, rows`unread
      ensures r == PageOf(old(View()), PageSize(pageSize, standard))
      ensures r.Ok? && r.value.hasMore ==> View() == Advanced(old(View()), PageSize(pageSize, standard))
    {
      hide PageOf, RowsOf, Clean, Content;
      var size := PageSize(pageSize, standard);
      ghost var c := View();
      ghost var content := Content(c);
      var page: seq<T> := [];
      NothingRead(content);
      while |page| < size && remaining > 0
        invariant |page| <= |content| && content[|page|..] == Content(View())
        invariant Clean(content[..|page|]) && page == RowsOf(content[..|page|])
        invariant |page| > 0 ==> pending.None?
        invariant remaining == c.remaining - |page| && (|page| == 0 || (|page| <= size && remaining >= 0))
        decreases size - |page|
      {
        ghost var k := |page|;
        PageAt(c, size, k);
        ContentParts(View());
        if pending.Some? {
          assert content[k] == content[k..][0];
          page := page + [pending.value];
          pending := None;
        } else {
          var next := rows.Next();
          if next.End? {
            return if next.error.Some? then Err(next.error.value) else Ok(Page(page, false, false));
          }
          assert content[k] == content[k..][0];
          if next.item.ScanError? {
            return Err(next.item.message);
          }
          page := page + [next.item.row];
        }
        remaining := remaining - 1;
        ContentParts(View());
        OneMore(content, k);
      }
      ghost var n := |page|;
      PageAt(c, size, n);
      if remaining <= 0 {
        return Ok(Page(page, false, true));
      }
      ContentParts(View());
      var next := rows.Next();
      if next.End? {
        return if next.error.Some? then Err(next.error.value) else Ok(Page(page, false, false));
      }
      assert content[n] == content[n..][0];
      if next.item.ScanError? {
        return Err(next.item.message);
      }
      pending := Some(next.item.row);
      assert content[n + 1..] == content[n..][1..];
      return Ok(Page(page, true, false));
    }
  }

  lemma ContentParts<T>(c: Cursor<T>)
    ensures c.pending == None ==> Content(c) == c.unread
    ensures c.pending.Some? ==> Content(c) != [] && Content(c)[0] == Row(c.pending.value) && Content(c)[1..] == c.unread
  {
  }

  lemma NothingRead<T>(content: seq<Fetch<T>>)
    ensures Clean(content[..0]) && RowsOf(content[..0]) == [] && content[0..] == content
  {
  }

  lemma OneMore<T>(content: seq<Fetch<T>>, k: nat)
    requires k < |content| && Clean(content[..k]) && content[k].Row?
    ensures Clean(content[..k + 1]) && RowsOf(content[..k + 1]) == RowsOf(content[..k]) + [content[k].row]
    ensures content[k + 1..] == content[k..][1..]
  {
  }

  /** What the page is, seen from the loop with `k` rows read. */
  lemma PageAt<T>(c: Cursor<T>, size: PageLength, k: nat)
    requires k <= |Content(c)| && Clean(Content(c)[..k]) && (k == 0 || k <= Least(size, c.remaining))
    ensures var content := Content(c); var rows := RowsOf(content[..k]);
      && (k < Least(size, c.remaining) && k < |content| && content[k].ScanError? ==>
          PageOf(c, size) == Err(content[k].message))
      && (c.remaining <= k ==> PageOf(c, size) == Ok(Page(rows, false, true)))
      && (k < c.remaining && k <= size && k == |content| ==>
            PageOf(c, size) == if c.error.Some? then Err(c.error.value) else Ok(Page(rows, false, false)))
      && (k == size && k < c.remaining && k < |content| ==>
            PageOf(c, size) == if content[k].ScanError? then Err(content[k].message) else Ok(Page(rows, true, false)))
  {
    var content := Content(c);
    if k < Least(size, c.remaining) && k < |content| && content[k].ScanError? {
      var taken := content[..Least(Least(size, c.remaining), |content|)];
      assert taken[..k] == content[..k];
      FirstErrorAt(taken, k);
    }
  }

  lemma {:induction false} FirstErrorAt<T>(fetches: seq<Fetch<T>>, k: nat)
    requires k < |fetches| && Clean(fetches[..k]) && fetches[k].ScanError?
    ensures !Clean(fetches) && FirstError(fetches) == fetches[k].message
    decreases k
  {
    assert fetches[k] in fetches;
    if k > 0 {
      assert fetches[0] == fetches[..k][0];
      assert fetches[1..][..k - 1] == fetches[..k][1..];
      FirstErrorAt(fetches[1..], k - 1);
    }
  }

  // ---- the unpaged read ----

  /** executeSelect and readRows: the whole result in one go, up to the budget. */
  method ReadAll<T>(rows: Rows<T>, maxRows: int) returns (r: Result<Page<T>>)
    requires maxRows > 0 && !rows.closed
    modifies rows`unread
    ensures r == Unpaged(old(rows.unread), rows.error, maxRows)
  {
    ghost var content := rows.unread;
    var result: seq<T> := [];
    while true
      invariant |result| <= |content| && |result| <= maxRows && content[|result|..] == rows.unread
      invariant Clean(content[..|result|]) && result == RowsOf(content[..|result|])
      decreases maxRows - |result|
    {
      ghost var k := |result|;
      var next := rows.Next();
      if next.End? {
        return if next.error.Some? then Err(next.error.value) else Ok(Page(result, false, false));
      }
      assert content[k] == next.item;
      if |result| >= maxRows {
        return Ok(Page(result, false, true));
      }
      if next.item.ScanError? {
        FirstErrorAt(content[..Least(maxRows, |content|)], k);
        return Err(next.item.message);
      }
      result := result + [next.item.row];
      assert content[..k + 1] == content[..k] + [content[k]];
      assert content[k + 1..] == content[k..][1..];
    }
  }

  /** What the unpaged read gives: the row after the last one wanted is only asked for. */
  function Unpaged<T>(content: seq<Fetch<T>>, error: Option<string>, maxRows: int): Result<Page<T>>
    requires maxRows > 0
  {
    var taken := content[..Least(maxRows, |content|)];
    if !Clean(taken) then Err(FirstError(taken))
    else if |content| > maxRows then Ok(Page(RowsOf(taken), false, true))
    else if error.Some? then Err(error.value)
    else Ok(Page(RowsOf(taken), false, false))
  }

  // ---- all pages ----

  /** The pages that a sequence of page sizes produces: each further one is asked for only as long as
      there is more. */
  function Pages<T>(c: Cursor<T>, sizes: seq<PageLength>): seq<Page<T>>
    decreases |sizes|
  {
    if sizes == [] || PageOf(c, sizes[0]).Err? then []
    else
      var page := PageOf(c, sizes[0]).value;
      [page] + if page.hasMore then Pages(Advanced(c, sizes[0]), sizes[1..]) else []
  }

  function Concat<T>(pages: seq<Page<T>>): seq<T> {
    if pages == [] then [] else pages[0].rows + Concat(pages[1..])
  }

  /** A budget is left whenever a page said that there is more. */
  ghost predicate Live<T>(c: Cursor<T>) { c.remaining > 0 }

  lemma AdvancedIs<T>(c: Cursor<T>, size: int)
    requires Live(c) && size > 0 && PageOf(c, size).Ok? && PageOf(c, size).value.hasMore
    ensures var d := Advanced(c, size); var page := PageOf(c, size).value;
      && Live(d) && d.pending.Some? && d.error == c.error && |page.rows| == size && d.remaining == c.remaining - size
      && Content(d) == Content(c)[size..] && |Content(d)| > 0
      && size < |Content(c)| && Clean(Content(c)[..size]) && page.rows == RowsOf(Content(c)[..size])
  {
    var content := Content(c);
    assert content[size..] == [content[size]] + content[size + 1..];
  }

  /** Every page that has more is full, and the page after it, unless reading fails, is not empty. */
  lemma MoreMeansMore<T>(c: Cursor<T>, size: int, next: int)
    requires Live(c) && size > 0 && next > 0 && PageOf(c, size).Ok? && PageOf(c, size).value.hasMore
    ensures |PageOf(c, size).value.rows| == size
    ensures var p := PageOf(Advanced(c, size), next); p.Ok? ==> p.value.rows != []
  {
    AdvancedIs(c, size);
  }

  /** The pages say what they should about `rows`, the rows to come, of which `budget` are wanted. */
  ghost predicate Refines<T>(pages: seq<Page<T>>, sizes: seq<PageLength>, rows: seq<T>, budget: int) {
    var wanted := rows[..if budget < 0 then 0 else Least(budget, |rows|)];
    && |pages| <= |sizes| && Concat(pages) <= wanted
    && (forall i | 0 <= i < |pages| ::
        (i + 1 < |pages| ==> pages[i].hasMore) && (pages[i].hasMore ==> |pages[i].rows| == sizes[i]))
    && (pages != [] && !pages[|pages| - 1].hasMore ==>
          Concat(pages) == wanted && (pages[|pages| - 1].truncated <==> |rows| >= budget))
    && (|sizes| > |rows| ==> pages != [] && !pages[|pages| - 1].hasMore)
  }

  lemma RefinesMore<T>(page: Page<T>, rest: seq<Page<T>>, sizes: seq<PageLength>, rows: seq<T>, budget: int)
    requires sizes != [] && page.hasMore && |page.rows| == sizes[0] < budget && sizes[0] <= |rows|
        && page.rows == rows[..sizes[0]]
    requires Refines(rest, sizes[1..], rows[sizes[0]..], budget - sizes[0])
    ensures Refines([page] + rest, sizes, rows, budget)
  {
    var size := sizes[0];
    var pages := [page] + rest;
    assert pages[1..] == rest;
    assert rows[..Least(budget, |rows|)] == rows[..size] + rows[size..][..Least(budget - size, |rows| - size)];
    forall i | 0 <= i < |pages|
      ensures (i + 1 < |pages| ==> pages[i].hasMore) && (pages[i].hasMore ==> |pages[i].rows| == sizes[i])
    {
      if i > 0 {
        assert pages[i] == rest[i - 1] && sizes[i] == sizes[1..][i - 1];
      }
    }
  }

  lemma RefinesLast<T>(page: Page<T>, sizes: seq<PageLength>, rows: seq<T>, budget: int)
    requires sizes != [] && !page.hasMore && budget > 0 && page.rows == rows[..Least(budget, |rows|)]
    requires page.truncated <==> |rows| >= budget
    ensures Refines([page], sizes, rows, budget)
  {
    assert [page][1..] == [] && Concat([page]) == page.rows + [];
  }

  lemma LastPage<T>(c: Cursor<T>, size: PageLength)
    requires Live(c) && Clean(Content(c)) && c.error == None && !PageOf(c, size).value.hasMore
    ensures var page := PageOf(c, size).value; var rows := RowsOf(Content(c));
      page.rows == rows[..Least(c.remaining, |rows|)] && (page.truncated <==> |rows| >= c.remaining)
  {
    var content := Content(c);
    assert RowsOf(content[..Least(c.remaining, |content|)]) == RowsOf(content)[..Least(c.remaining, |content|)];
  }

  lemma CleanPage<T>(c: Cursor<T>, size: PageLength)
    requires Clean(Content(c)) && c.error == None
    ensures PageOf(c, size).Ok?
  {
  }

  lemma CleanRest<T>(content: seq<Fetch<T>>, size: nat)
    requires Clean(content) && size <= |content|
    ensures Clean(content[size..]) && RowsOf(content[size..]) == RowsOf(content)[size..]
    ensures RowsOf(content[..size]) == RowsOf(content)[..size]
  {
  }

  /** Paging refines the unpaged read. With every row readable and no error at the end, the pages
      concatenated are a prefix of the first `remaining` rows, and all of them once a page says that
      there is no more; that page is truncated exactly when there are at least `remaining` rows. */
  lemma {:induction false} PagesRefine<T>(c: Cursor<T>, sizes: seq<PageLength>)
    requires Live(c) && Clean(Content(c)) && c.error == None
    ensures Refines(Pages(c, sizes), sizes, RowsOf(Content(c)), c.remaining)
    decreases |sizes|
  {
    hide PageOf, Clean, RowsOf, Content, Advanced;
    if sizes != [] {
      CleanPage(c, sizes[0]);
      var page := PageOf(c, sizes[0]).value;
      if page.hasMore {
        AdvancedIs(c, sizes[0]);
        CleanRest(Content(c), sizes[0]);
        PagesRefine(Advanced(c, sizes[0]), sizes[1..]);
        RefinesMore(page, Pages(Advanced(c, sizes[0]), sizes[1..]), sizes, RowsOf(Content(c)), c.remaining);
      } else {
        LastPage(c, sizes[0]);
        RefinesLast(page, sizes, RowsOf(Content(c)), c.remaining);
        assert [page] + [] == [page];
      }
    }
  }

  /** The paged and the unpaged read of one cursor with one budget give the same rows, and their
      truncated flags differ exactly when there are as many rows as the budget allows. */
  lemma PagedEqualsUnpaged<T>(content: seq<Fetch<T>>, maxRows: int, sizes: seq<PageLength>)
    requires Clean(content) && maxRows > 0 && |sizes| > |content|
    ensures var c := Cursor(content, None, None, maxRows);
      var pages := Pages(c, sizes); var whole := Unpaged(content, None, maxRows);
      && pages != [] && whole.Ok? && Concat(pages) == whole.value.rows
      && (pages[|pages| - 1].truncated != whole.value.truncated <==> |content| == maxRows)
  {
    var c := Cursor(content, None, None, maxRows);
    hide PageOf, Pages, Concat, Clean, RowsOf;
    assert Content(c) == content;
    PagesRefine(c, sizes);
    UnpagedRows(content, maxRows);
  }

  lemma UnpagedRows<T>(content: seq<Fetch<T>>, maxRows: int)
    requires Clean(content) && maxRows > 0
    ensures Unpaged(content, None, maxRows)
      == Ok(Page(RowsOf(content)[..Least(maxRows, |content|)], false, |content| > maxRows))
  {
    assert RowsOf(content[..Least(maxRows, |content|)]) == RowsOf(content)[..Least(maxRows, |content|)];
  }

  lemma ErrorPage<T>(c: Cursor<T>, size: PageLength, n: nat)
    requires Live(c) && n <= |Content(c)| && Clean(Content(c)[..n]) && (n < |Content(c)| ==> Content(c)[n].ScanError?)
    requires PageOf(c, size).Ok?
    ensures var page := PageOf(c, size).value; var rows := RowsOf(Content(c)[..n]);
      |page.rows| <= n && page.rows == rows[..|page.rows|]
    ensures PageOf(c, size).value.hasMore ==> size <= n && |PageOf(c, size).value.rows| == size
  {
    var content := Content(c);
    var k := |PageOf(c, size).value.rows|;
    assert Clean(content[..k]);
    forall i | 0 <= i < k
      ensures content[i].Row?
    {
      assert content[i] == content[..k][i];
    }
    assert RowsOf(content[..k]) == RowsOf(content[..n])[..k];
  }

  /** When a row cannot be read, the pages delivered before are still rows of the cursor, in order. */
  lemma {:induction false} PagesBeforeError<T>(c: Cursor<T>, sizes: seq<PageLength>, n: nat)
    requires Live(c) && n <= |Content(c)| && Clean(Content(c)[..n]) && (n < |Content(c)| ==> Content(c)[n].ScanError?)
    ensures Concat(Pages(c, sizes)) <= RowsOf(Content(c)[..n])
    decreases |sizes|
  {
    hide PageOf, Clean, RowsOf, Content, Advanced;
    if sizes != [] && PageOf(c, sizes[0]).Ok? {
      var size := sizes[0];
      var page := PageOf(c, size).value;
      var rows := RowsOf(Content(c)[..n]);
      ErrorPage(c, size, n);
      if page.hasMore {
        AdvancedIs(c, size);
        var d := Advanced(c, size);
        assert Content(c)[size..][..n - size] == Content(c)[..n][size..];
        CleanRest(Content(c)[..n], size);
        PagesBeforeError(d, sizes[1..], n - size);
        ConcatMore(page, Pages(d, sizes[1..]), rows, size);
      } else {
        ConcatMore(page, [], rows, |page.rows|);
      }
    }
  }

  lemma ConcatMore<T>(page: Page<T>, rest: seq<Page<T>>, rows: seq<T>, k: nat)
    requires k <= |rows| && page.rows == rows[..k] && Concat(rest) <= rows[k..]
    ensures Concat([page] + rest) <= rows
  {
    assert ([page] + rest)[1..] == rest;
    assert rows == rows[..k] + rows[k..];
  }

  // ---- sizes and errors, outright ----

  /** A page has at most as many rows as were asked for, or as is standard if no number was, and exactly as many
      if there is more; and never more than the budget. */
  lemma PageIsBounded<T>(c: Cursor<T>, pageSize: int, standard: PageLength)
    requires Live(c) && PageOf(c, PageSize(pageSize, standard)).Ok?
    ensures var page := PageOf(c, PageSize(pageSize, standard)).value;
        var size := if pageSize > 0 then pageSize else standard;
      |page.rows| <= size && |page.rows| <= c.remaining && (page.hasMore ==> |page.rows| == size)
  {
  }

  /** The first row that cannot be read fails the page that needs it, with its message: a page of its budget, or
      the row of lookahead. */
  lemma PageFails<T>(c: Cursor<T>, size: PageLength, n: nat)
    requires Live(c) && n < |Content(c)| && Clean(Content(c)[..n]) && Content(c)[n].ScanError?
    ensures PageOf(c, size) == Err(Content(c)[n].message) <== n < Least(size, c.remaining) || n == size < c.remaining
    ensures PageOf(c, size).Ok? <== n >= c.remaining || n > size
  {
    var content := Content(c);
    PrefixClean(content, n, Least(size, c.remaining));
    if n < Least(size, c.remaining) {
      PageAt(c, size, n);
    } else if n == size < c.remaining {
      PageAt(c, size, n);
    }
  }

  lemma PrefixClean<T>(content: seq<Fetch<T>>, n: nat, k: int)
    requires n <= |content| && Clean(content[..n])
    ensures 0 <= k <= n ==> Clean(content[..k])
  {
    if 0 <= k <= n {
      assert forall i | 0 <= i < k :: content[..k][i] == content[..n][i];
    }
  }

  /** The end of the cursor with an error fails the page that reaches it. */
  lemma EndFails<T>(c: Cursor<T>, size: PageLength)
    requires Live(c) && Clean(Content(c)) && c.error.Some? && |Content(c)| < c.remaining && |Content(c)| <= size
    ensures PageOf(c, size) == Err(c.error.value)
  {
  }

  /** The same for the unpaged read, which does not read the row behind the budget. */
  lemma UnpagedFails<T>(content: seq<Fetch<T>>, error: Option<string>, maxRows: int, n: nat)
    requires maxRows > 0 && n <= |content| && Clean(content[..n]) && (n < |content| ==> content[n].ScanError?)
    ensures n < |content| && n < maxRows ==> Unpaged(content, error, maxRows) == Err(content[n].message)
    ensures n == |content| <= maxRows && error.Some? ==> Unpaged(content, error, maxRows) == Err(error.value)
    ensures n >= maxRows && |content| > maxRows ==>
        Unpaged(content, error, maxRows) == Ok(Page(RowsOf(content[..maxRows]), false, true))
  {
    if n < |content| && n < maxRows {
      var taken := content[..Least(maxRows, |content|)];
      assert taken[..n] == content[..n];
      FirstErrorAt(taken, n);
    }
    PrefixClean(content, n, maxRows);
    if n == |content| {
      assert content[..n] == content;
    }
  }
}
