/** The live cursors of one agent session: who holds them, when they are closed, and how the handles
    given to the client are named. */
module CursorAccounting {
  import opened Text
  import opened Paging

  const DEFAULT_MAX_ROWS: PageLength := 1000

  const QUERY_PREFIX := "oracle-go-"
  const TABLE_PREFIX := "oracle-go-table-"

  /** The handles given out so far under one prefix. */
  ghost predicate Issued(prefix: string, n: nat, id: string) {
    exists k: nat :: 0 < k <= n && id == prefix + Decimal(k)
  }

  /** The next handle was never given out before. */
  lemma NextIsNew(prefix: string, n: nat)
    ensures !Issued(prefix, n, prefix + Decimal(n + 1))
    ensures forall id :: Issued(prefix, n + 1, id) <==> Issued(prefix, n, id) || id == prefix + Decimal(n + 1)
  {
    forall k: nat | prefix + Decimal(k) == prefix + Decimal(n + 1)
      ensures k == n + 1
    {
      assert Decimal(k) == (prefix + Decimal(k))[|prefix|..] == (prefix + Decimal(n + 1))[|prefix|..] == Decimal(n + 1);
      DecimalInjective(k, n + 1);
    }
  }

  /** A handle of a query is never one of a table read. */
  lemma KindsApart(m: nat, n: nat, id: string)
    requires Issued("oracle-go-", m, id)
    ensures !Issued("oracle-go-table-", n, id)
  {
    var k: nat :| 0 < k <= m && id == "oracle-go-" + Decimal(k);
    DecimalStarts(k);
    assert id[10] == Decimal(k)[0];
    assert "oracle-go-table-"[10] == 't';
    forall j: nat | 0 < j <= n ensures id != "oracle-go-table-" + Decimal(j) {
      assert ("oracle-go-table-" + Decimal(j))[10] == "oracle-go-table-"[10];
    }
  }

  lemma {:induction false} DecimalStarts(n: nat)
    ensures Decimal(n) != "" && Decimal(n)[0] in "0123456789"
  {
    if n >= 10 {
      DecimalStarts(n / 10);
    } else {
      assert "0123456789"[n] in "0123456789";
    }
  }

  /** Pages and row budgets are those asked for, and 1000 where none is. */
  lemma Defaults<T>(first: Cursor<T>, maxRows: int, pageSize: int, page: Page<T>)
    requires Server<T>.FirstPage(first, maxRows, pageSize, page)
    ensures var size := if pageSize > 0 then pageSize else 1000; var budget := if maxRows > 0 then maxRows else 1000;
      && |page.rows| <= size && |page.rows| <= budget && (page.hasMore ==> |page.rows| == size < budget)
      && first.remaining == budget
  {
    PageIsBounded(first, pageSize, DEFAULT_MAX_ROWS);
    if page.hasMore {
      AdvancedIs(first, PageSize(pageSize, DEFAULT_MAX_ROWS));
    }
  }

  datatype QueryPage<T> = QueryPage(page: Page<T>, sessionID: Option<string>)

  function RowsIn<T>(sessions: map<string, QuerySession<T>>): set<Rows<T>> {
    set id | id in sessions :: sessions[id].rows
  }

  ghost predicate Apart<T>(sessions: map<string, QuerySession<T>>) {
    forall i, j | i in sessions && j in sessions && i != j :: sessions[i].rows != sessions[j].rows
  }

  lemma RowsInWithout<T>(sessions: map<string, QuerySession<T>>, id: string)
    requires Apart(sessions) && id in sessions
    ensures RowsIn(sessions - {id}) == RowsIn(sessions) - {sessions[id].rows} && Apart(sessions - {id})
    ensures sessions[id].rows in RowsIn(sessions)
  {
    var rest := sessions - {id};
    assert sessions[id].rows in RowsIn(sessions);
    forall r | r in RowsIn(sessions) - {sessions[id].rows}
      ensures r in RowsIn(rest)
    {
      var i :| i in sessions && sessions[i].rows == r;
      assert i in rest && rest[i] == sessions[i];
    }
  }

  lemma RowsInWith<T>(sessions: map<string, QuerySession<T>>, id: string, session: QuerySession<T>)
    requires Apart(sessions) && id !in sessions && session.rows !in RowsIn(sessions)
    ensures RowsIn(sessions[id := session]) == RowsIn(sessions) + {session.rows} && Apart(sessions[id := session])
  {
    var all := sessions[id := session];
    forall i | i in sessions
      ensures all[i] == sessions[i] && sessions[i].rows in RowsIn(sessions)
    {
    }
    assert all[id] == session;
    forall r | r in RowsIn(sessions)
      ensures r in RowsIn(all)
    {
      var i :| i in sessions && sessions[i].rows == r;
      assert all[i].rows == r;
    }
  }

  /** No context is forgotten: each was cancelled, or belongs to a live cursor. */
  ghost predicate NoneForgotten<T>(contexts: nat, cancelled: set<nat>, activeRows: map<Rows<T>, nat>) {
    forall c: nat | c < contexts :: c in cancelled || c in activeRows.Values
  }

  lemma NoneForgottenWith<T>(contexts: nat, cancelled: set<nat>, activeRows: map<Rows<T>, nat>, rows: Rows<T>)
    requires NoneForgotten(contexts, cancelled, activeRows) && rows !in activeRows
    ensures NoneForgotten(contexts + 1, cancelled, activeRows[rows := contexts])
  {
    var after := activeRows[rows := contexts];
    assert after[rows] == contexts;
    forall c: nat | c < contexts && c !in cancelled
      ensures c in after.Values
    {
      var r: Rows<T> :| r in activeRows && activeRows[r] == c;
      assert r in after && after[r] == c;
    }
  }

  lemma NoneForgottenCancelled<T>(contexts: nat, cancelled: set<nat>, activeRows: map<Rows<T>, nat>)
    requires NoneForgotten(contexts, cancelled, activeRows)
    ensures NoneForgotten(contexts + 1, cancelled + {contexts}, activeRows)
  {
  }

  lemma NoneForgottenWithout<T>(contexts: nat, cancelled: set<nat>, activeRows: map<Rows<T>, nat>, rows: Rows<T>)
    requires NoneForgotten(contexts, cancelled, activeRows)
    ensures NoneForgotten(
      contexts, if rows in activeRows then cancelled + {activeRows[rows]} else cancelled, activeRows - {rows})
  {
    var after := activeRows - {rows};
    forall c: nat | c < contexts && c !in cancelled && (rows in activeRows ==> c != activeRows[rows])
      ensures c in after.Values
    {
      var r: Rows<T> :| r in activeRows && activeRows[r] == c;
      assert r in after && after[r] == c;
    }
  }

  /** One agent session. Requests run one after the other; a context is named by a number, and to
      cancel it is to add it to `cancelled`. */
  class Server<T> {
    var connected: bool
    var sessions: map<string, QuerySession<T>>
    var tableReadSessions: map<string, QuerySession<T>>
    var nextSessionID: nat
    var nextTableReadSessionID: nat
    var activeRows: map<Rows<T>, nat>
    var contexts: nat
    var cancelled: set<nat>
    /** Every cursor that the driver ever opened for this session. */
    ghost var cursors: set<Rows<T>>

    constructor ()
      ensures Valid() && sessions == map[] && tableReadSessions == map[] && cursors == {}
    {
      connected := true;
      sessions, tableReadSessions := map[], map[];
      nextSessionID, nextTableReadSessionID := 0, 0;
      activeRows := map[];
      contexts, cancelled := 0, {};
      cursors := {};
    }

    ghost predicate CursorsCounted()
      reads this, cursors
    {
      && activeRows.Keys <= cursors
      && forall r | r in cursors :: r.closed <==> r !in activeRows
    }

    ghost predicate HandlesIssued()
      reads this
    {
      && (forall id | id in sessions :: Issued(QUERY_PREFIX, nextSessionID, id))
      && (forall id | id in tableReadSessions :: Issued(TABLE_PREFIX, nextTableReadSessionID, id))
    }

    ghost predicate SessionsApart()
      reads this
    {
      Apart(sessions) && Apart(tableReadSessions) && RowsIn(sessions) !! RowsIn(tableReadSessions)
    }

    /** The live cursors are those stored in the two maps and those that the running request holds. */
    ghost predicate Accounted(inFlight: set<Rows<T>>)
      reads this, cursors
    {
      && activeRows.Keys == RowsIn(sessions) + RowsIn(tableReadSessions) + inFlight
      && inFlight !! RowsIn(sessions) + RowsIn(tableReadSessions)
      && CursorsCounted() && NoneForgotten(contexts, cancelled, activeRows) && HandlesIssued() && SessionsApart()
    }

    ghost predicate Valid()
      reads this, cursors
    {
      Accounted({})
    }

    /** The driver's answer is arbitrary: a failure, a timeout that took effect, or a cursor. */
    method QueryRowsWithTimeout() returns (r: Result<Rows<T>>)
      requires CursorsCounted() && NoneForgotten(contexts, cancelled, activeRows)
      modifies `activeRows, `contexts, `cancelled, `cursors
      ensures CursorsCounted() && NoneForgotten(contexts, cancelled, activeRows)
      ensures old(cursors) <= cursors && fresh(cursors - old(cursors)) && old(cancelled) <= cancelled
      ensures r.Err? ==> activeRows == old(activeRows)
      ensures r.Ok? ==> fresh(r.value) && r.value in cursors && !r.value.closed
      ensures r.Ok? ==>
          activeRows == old(activeRows)[r.value := old(contexts)] && activeRows - {r.value} == old(activeRows)
    {
      hide NoneForgotten;
      if !connected {
        return Err("agent is not connected");
      }
      var context := contexts;
      contexts := contexts + 1;
      var unread: seq<Fetch<T>>, error: Option<string>, failed: bool, timedOut: bool := *, *, *, *;
      NoneForgottenCancelled(context, cancelled, activeRows);
      if failed {
        cancelled := cancelled + {context};
        return Err("query failed");
      }
      var rows := new Rows(unread, error);
      NoneForgottenWith(context, cancelled, activeRows, rows);
      cursors := cursors + {rows};
      if timedOut {
        cancelled := cancelled + {context};
        rows.Close();
        return Err("query timed out");
      }
      activeRows := activeRows[rows := context];
      return Ok(rows);
    }

    method CloseRows(rows: Rows<T>)
      requires CursorsCounted() && NoneForgotten(contexts, cancelled, activeRows) && rows in cursors
      modifies `activeRows, `cancelled, rows`closed
      ensures CursorsCounted() && NoneForgotten(contexts, cancelled, activeRows)
      ensures rows.closed && activeRows == old(activeRows) - {rows}
      ensures old(cancelled) <= cancelled
      ensures rows in old(activeRows) ==> old(activeRows)[rows] in cancelled
    {
      hide NoneForgotten;
      NoneForgottenWithout(contexts, cancelled, activeRows, rows);
      if rows in activeRows {
        cancelled := cancelled + {activeRows[rows]};
      }
      activeRows := activeRows - {rows};
      rows.Close();
    }

    method QueryRowsWithXMLTypeRewriteIfNeeded() returns (r: Result<Rows<T>>)
      requires Valid()
      modifies `activeRows, `contexts, `cancelled, `cursors
      ensures old(cursors) <= cursors && fresh(cursors - old(cursors)) && old(cancelled) <= cancelled
      ensures r.Err? ==> Valid() && activeRows == old(activeRows)
      ensures r.Ok? ==> fresh(r.value) && r.value in cursors && !r.value.closed && Accounted({r.value})
      ensures r.Ok? ==> activeRows.Keys == old(activeRows).Keys + {r.value} && activeRows - {r.value} == old(activeRows)
    {
      hide Issued, RowsIn, Apart, NoneForgotten;
      r := QueryRowsWithTimeout();
      if r.Err? {
        return;
      }
      var xmlType: bool, rewriteFailed: bool, same: bool := *, *, *;
      if !xmlType {
        return;
      }
      if rewriteFailed {
        CloseRows(r.value);
        assert activeRows == old(activeRows);
        return Err("rewrite failed");
      }
      if same {
        return;
      }
      CloseRows(r.value);
      assert activeRows == old(activeRows);
      r := QueryRowsWithTimeout();
    }

    /** The page is the first one of a new cursor with the given row budget. */
    static ghost predicate FirstPage(first: Cursor<T>, maxRows: int, pageSize: int, page: Page<T>) {
      && first.pending == None && first.remaining == (if maxRows <= 0 then DEFAULT_MAX_ROWS else maxRows)
      && PageOf(first, PageSize(pageSize, DEFAULT_MAX_ROWS)) == Ok(page)
    }

    /** The common part of executeQueryPage and startTableRead: run the query, read the first page, and
        keep the cursor only if there is more. */
    method OpenPage(maxRows: int, pageSize: int)
      returns (r: Result<(Page<T>, Option<QuerySession<T>>)>, ghost first: Cursor<T>)
      requires Valid()
      modifies `activeRows, `contexts, `cancelled, `cursors
      ensures old(cursors) <= cursors && fresh(cursors - old(cursors)) && old(cancelled) <= cancelled
      ensures r.Err? || r.value.1.None? ==> Valid() && activeRows == old(activeRows)
      ensures r.Ok? ==> (r.value.1.Some? <==> r.value.0.hasMore) && FirstPage(first, maxRows, pageSize, r.value.0)
      ensures r.Ok? && r.value.1.Some? ==>
        var session := r.value.1.value;
        && session.View() == Advanced(first, PageSize(pageSize, DEFAULT_MAX_ROWS))
        && fresh(session) && fresh(session.rows) && session.rows in cursors && Accounted({session.rows})
        && activeRows.Keys == old(activeRows).Keys + {session.rows}
    {
      hide Issued, RowsIn, Apart, NoneForgotten, PageOf, PageSize, Advanced;
      var opening := QueryRowsWithXMLTypeRewriteIfNeeded();
      if opening.Err? {
        return Err(opening.error), Cursor([], None, None, 0);
      }
      var rows := opening.value;
      var columnsFailed: bool := *;
      if columnsFailed {
        CloseRows(rows);
        assert activeRows == old(activeRows);
        return Err("no columns"), Cursor([], None, None, 0);
      }
      var session := new QuerySession(rows, if maxRows <= 0 then DEFAULT_MAX_ROWS else maxRows);
      first := session.View();
      var page := session.ReadQuerySessionPage(pageSize, DEFAULT_MAX_ROWS);
      if page.Err? {
        CloseRows(rows);
        assert activeRows == old(activeRows);
        return Err(page.error), first;
      }
      if page.value.hasMore {
        return Ok((page.value, Some(session))), first;
      }
      CloseRows(rows);
      assert activeRows == old(activeRows);
      return Ok((page.value, None)), first;
    }

    method StoreQuerySession(session: QuerySession<T>) returns (id: string)
      requires Accounted({session.rows})
      modifies `nextSessionID, `sessions
      ensures Valid() && !Issued(QUERY_PREFIX, old(nextSessionID), id) && Issued(QUERY_PREFIX, nextSessionID, id)
      ensures id !in old(sessions) && sessions == old(sessions)[id := session]
          && nextSessionID == old(nextSessionID) + 1
    {
      hide Issued, RowsIn, Apart, NoneForgotten;
      NextIsNew(QUERY_PREFIX, nextSessionID);
      nextSessionID := nextSessionID + 1;
      id := QUERY_PREFIX + Decimal(nextSessionID);
      RowsInWith(sessions, id, session);
      sessions := sessions[id := session];
    }

    method StoreTableReadSession(session: QuerySession<T>) returns (id: string)
      requires Accounted({session.rows})
      modifies `nextTableReadSessionID, `tableReadSessions
      ensures Valid() && !Issued(TABLE_PREFIX, old(nextTableReadSessionID), id)
          && Issued(TABLE_PREFIX, nextTableReadSessionID, id)
      ensures id !in old(tableReadSessions) && tableReadSessions == old(tableReadSessions)[id := session]
      ensures nextTableReadSessionID == old(nextTableReadSessionID) + 1
    {
      hide Issued, RowsIn, Apart, NoneForgotten;
      NextIsNew(TABLE_PREFIX, nextTableReadSessionID);
      nextTableReadSessionID := nextTableReadSessionID + 1;
      id := TABLE_PREFIX + Decimal(nextTableReadSessionID);
      RowsInWith(tableReadSessions, id, session);
      tableReadSessions := tableReadSessions[id := session];
    }

    method ExecuteQueryPage(maxRows: int, pageSize: int) returns (r: Result<QueryPage<T>>, ghost first: Cursor<T>)
      requires Valid()
      modifies this
      ensures Valid() && fresh(cursors - old(cursors)) && old(cancelled) <= cancelled
      ensures tableReadSessions == old(tableReadSessions) && connected == old(connected)
      ensures r.Ok? ==>
          (r.value.sessionID.Some? <==> r.value.page.hasMore) && FirstPage(first, maxRows, pageSize, r.value.page)
      ensures r.Err? || r.value.sessionID.None? ==> sessions == old(sessions) && activeRows == old(activeRows)
      ensures r.Ok? && r.value.sessionID.Some? ==>
        var id := r.value.sessionID.value;
        && !Issued(QUERY_PREFIX, old(nextSessionID), id) && id in sessions && fresh(sessions[id])
            && fresh(sessions[id].rows)
        && sessions[id].View() == Advanced(first, PageSize(pageSize, DEFAULT_MAX_ROWS))
        && sessions == old(sessions)[id := sessions[id]]
        && activeRows.Keys == old(activeRows).Keys + {sessions[id].rows}
    {
      hide Issued, RowsIn, Apart, NoneForgotten, PageOf, PageSize, Advanced, FirstPage;
      var opening;
      opening, first := OpenPage(maxRows, pageSize);
      if opening.Err? {
        return Err(opening.error), first;
      }
      if opening.value.1.None? {
        return Ok(QueryPage(opening.value.0, None)), first;
      }
      var id := StoreQuerySession(opening.value.1.value);
      return Ok(QueryPage(opening.value.0, Some(id))), first;
    }

    method StartTableRead(maxRows: int, pageSize: int) returns (r: Result<QueryPage<T>>, ghost first: Cursor<T>)
      requires Valid()
      modifies this
      ensures Valid() && fresh(cursors - old(cursors)) && old(cancelled) <= cancelled
      ensures sessions == old(sessions) && connected == old(connected)
      ensures r.Ok? ==>
          (r.value.sessionID.Some? <==> r.value.page.hasMore) && FirstPage(first, maxRows, pageSize, r.value.page)
      ensures r.Err? || r.value.sessionID.None? ==>
          tableReadSessions == old(tableReadSessions) && activeRows == old(activeRows)
      ensures r.Ok? && r.value.sessionID.Some? ==>
        var id := r.value.sessionID.value;
        && !Issued(TABLE_PREFIX, old(nextTableReadSessionID), id) && id in tableReadSessions
        && fresh(tableReadSessions[id]) && fresh(tableReadSessions[id].rows)
        && tableReadSessions[id].View() == Advanced(first, PageSize(pageSize, DEFAULT_MAX_ROWS))
        && tableReadSessions == old(tableReadSessions)[id := tableReadSessions[id]]
        && activeRows.Keys == old(activeRows).Keys + {tableReadSessions[id].rows}
    {
      hide Issued, RowsIn, Apart, NoneForgotten, PageOf, PageSize, Advanced, FirstPage;
      var opening;
      opening, first := OpenPage(maxRows, pageSize);
      if opening.Err? {
        return Err(opening.error), first;
      }
      if opening.value.1.None? {
        return Ok(QueryPage(opening.value.0, None)), first;
      }
      var id := StoreTableReadSession(opening.value.1.value);
      return Ok(QueryPage(opening.value.0, Some(id))), first;
    }

    /** The cursor that a handle stands for; with Held, also the session that reads it. */
    static function HeldRows(sessions: map<string, QuerySession<T>>, id: string): (s: set<object>) {
      if id in sessions then {sessions[id].rows} else {}
    }

    static function Held(sessions: map<string, QuerySession<T>>, id: string): (s: set<object>) {
      if id in sessions then {sessions[id], sessions[id].rows} else {}
    }

    method CloseQuerySession(id: string) returns (found: bool)
      requires Valid()
      modifies `sessions, `activeRows, `cancelled, HeldRows(sessions, id)
      ensures Valid() && found == (id in old(sessions)) && sessions == old(sessions) - {id}
          && old(cancelled) <= cancelled
      ensures found ==> old(sessions)[id].rows.closed && activeRows == old(activeRows) - {old(sessions)[id].rows}
      ensures !found ==> activeRows == old(activeRows)
    {
      hide Issued, RowsIn, Apart, NoneForgotten;
      if id !in sessions {
        assert sessions == sessions - {id};
        return false;
      }
      RowsInWithout(sessions, id);
      CloseRows(sessions[id].rows);
      sessions := sessions - {id};
      return true;
    }

    method CloseTableReadSession(id: string) returns (found: bool)
      requires Valid()
      modifies `tableReadSessions, `activeRows, `cancelled, HeldRows(tableReadSessions, id)
      ensures Valid() && found == (id in old(tableReadSessions)) && tableReadSessions == old(tableReadSessions) - {id}
      ensures old(cancelled) <= cancelled
      ensures found ==>
          old(tableReadSessions)[id].rows.closed && activeRows == old(activeRows) - {old(tableReadSessions)[id].rows}
      ensures !found ==> activeRows == old(activeRows)
    {
      hide Issued, RowsIn, Apart, NoneForgotten;
      if id !in tableReadSessions {
        assert tableReadSessions == tableReadSessions - {id};
        return false;
      }
      RowsInWithout(tableReadSessions, id);
      CloseRows(tableReadSessions[id].rows);
      tableReadSessions := tableReadSessions - {id};
      return true;
    }

    method FetchQueryPage(id: string, pageSize: int) returns (r: Result<QueryPage<T>>)
      requires Valid()
      modifies `sessions, `activeRows, `cancelled, Held(sessions, id)
      ensures Valid() && old(cancelled) <= cancelled
      ensures id !in old(sessions) ==>
        r == Ok(QueryPage(Page([], false, false), None)) && sessions == old(sessions) && activeRows == old(activeRows)
      ensures id in old(sessions) ==>
        var c := old(sessions[id].View()); var size := PageSize(pageSize, DEFAULT_MAX_ROWS);
        && (PageOf(c, size).Err? ==> r == Err(PageOf(c, size).error))
        && (PageOf(c, size).Ok? && PageOf(c, size).value.hasMore ==>
              && r == Ok(QueryPage(PageOf(c, size).value, Some(id)))
              && sessions == old(sessions) && activeRows == old(activeRows) && sessions[id].View() == Advanced(c, size))
        && (PageOf(c, size).Ok? && !PageOf(c, size).value.hasMore ==> r == Ok(QueryPage(PageOf(c, size).value, None)))
        && (PageOf(c, size).Err? || !PageOf(c, size).value.hasMore ==>
              && sessions == old(sessions) - {id} && old(sessions)[id].rows.closed
              && activeRows == old(activeRows) - {old(sessions)[id].rows})
    {
      hide Issued, RowsIn, Apart, NoneForgotten, PageOf, PageSize, Advanced;
      if id !in sessions {
        return Ok(QueryPage(Page([], false, false), None));
      }
      RowsInWithout(sessions, id);
      var page := sessions[id].ReadQuerySessionPage(pageSize, DEFAULT_MAX_ROWS);
      if page.Ok? && page.value.hasMore {
        return Ok(QueryPage(page.value, Some(id)));
      }
      var _ := CloseQuerySession(id);
      r := if page.Err? then Err(page.error) else Ok(QueryPage(page.value, None));
    }

    method FetchTableReadPage(id: string, pageSize: int) returns (r: Result<QueryPage<T>>)
      requires Valid()
      modifies `tableReadSessions, `activeRows, `cancelled, Held(tableReadSessions, id)
      ensures Valid() && old(cancelled) <= cancelled
      ensures id !in old(tableReadSessions) ==>
        && r == Ok(QueryPage(Page([], false, false), None))
        && tableReadSessions == old(tableReadSessions) && activeRows == old(activeRows)
      ensures id in old(tableReadSessions) ==>
        var c := old(tableReadSessions[id].View()); var size := PageSize(pageSize, DEFAULT_MAX_ROWS);
        && (PageOf(c, size).Err? ==> r == Err(PageOf(c, size).error))
        && (PageOf(c, size).Ok? && PageOf(c, size).value.hasMore ==>
              && r == Ok(QueryPage(PageOf(c, size).value, Some(id)))
              && tableReadSessions == old(tableReadSessions) && activeRows == old(activeRows)
              && tableReadSessions[id].View() == Advanced(c, size))
        && (PageOf(c, size).Ok? && !PageOf(c, size).value.hasMore ==> r == Ok(QueryPage(PageOf(c, size).value, None)))
        && (PageOf(c, size).Err? || !PageOf(c, size).value.hasMore ==>
              && tableReadSessions == old(tableReadSessions) - {id} && old(tableReadSessions)[id].rows.closed
              && activeRows == old(activeRows) - {old(tableReadSessions)[id].rows})
    {
      hide Issued, RowsIn, Apart, NoneForgotten, PageOf, PageSize, Advanced;
      if id !in tableReadSessions {
        return Ok(QueryPage(Page([], false, false), None));
      }
      RowsInWithout(tableReadSessions, id);
      var page := tableReadSessions[id].ReadQuerySessionPage(pageSize, DEFAULT_MAX_ROWS);
      if page.Ok? && page.value.hasMore {
        return Ok(QueryPage(page.value, Some(id)));
      }
      var _ := CloseTableReadSession(id);
      r := if page.Err? then Err(page.error) else Ok(QueryPage(page.value, None));
    }

    /** executeSelect: whatever happens while reading, the cursor is closed and forgotten. If reading began,
        the result is the whole answer for what the cursor held. */
    method ExecuteSelect(maxRows: int) returns (r: Result<Page<T>>, ghost first: Option<Cursor<T>>)
      requires Valid() && maxRows > 0
      modifies `activeRows, `contexts, `cancelled, `cursors
      ensures Valid() && fresh(cursors - old(cursors)) && activeRows == old(activeRows)
      ensures old(cancelled) <= cancelled
      ensures r.Ok? ==> first.Some?
      ensures first.Some? ==>
          first.value.pending == None && r == Unpaged(first.value.unread, first.value.error, maxRows)
    {
      hide Issued, RowsIn, Apart, NoneForgotten, Unpaged;
      first := None;
      var opening := QueryRowsWithXMLTypeRewriteIfNeeded();
      if opening.Err? {
        return Err(opening.error), None;
      }
      var columnsFailed: bool := *;
      if columnsFailed {
        r := Err("no columns");
      } else {
        first := Some(Cursor(opening.value.unread, opening.value.error, None, maxRows));
        r := ReadAll(opening.value, maxRows);
      }
      CloseRows(opening.value);
      assert activeRows == old(activeRows);
    }

    /** Between requests a cancel reaches the context of every live cursor, so no context is left. */
    method CancelActiveQuery()
      requires Valid()
      modifies `cancelled
      ensures Valid() && old(cancelled) <= cancelled
      ensures forall c: nat | c < contexts :: c in cancelled
    {
      hide Issued, RowsIn, Apart;
      var cancels := activeRows.Values;
      cancelled := cancelled + cancels;
    }

    lemma HeldAreCursors(id: string)
      requires Valid()
      ensures id in sessions ==> sessions[id].rows in cursors
      ensures id in tableReadSessions ==> tableReadSessions[id].rows in cursors
    {
      hide Issued, Apart, NoneForgotten;
      assert id in sessions ==> sessions[id].rows in RowsIn(sessions);
      assert id in tableReadSessions ==> tableReadSessions[id].rows in RowsIn(tableReadSessions);
    }

    /** The first loop of closeAllQuerySessions. */
    method CloseQuerySessions()
      requires Valid()
      modifies `sessions, `activeRows, `cancelled, cursors
      ensures Valid() && sessions == map[]
    {
      hide Valid;
      while sessions != map[]
        invariant Valid() && cursors == old(cursors)
        decreases |sessions|
      {
        var id :| id in sessions;
        HeldAreCursors(id);
        var _ := CloseQuerySession(id);
      }
    }

    /** The second loop. */
    method CloseTableReadSessions()
      requires Valid()
      modifies `tableReadSessions, `activeRows, `cancelled, cursors
      ensures Valid() && tableReadSessions == map[]
    {
      hide Valid;
      while tableReadSessions != map[]
        invariant Valid() && cursors == old(cursors)
        decreases |tableReadSessions|
      {
        var id :| id in tableReadSessions;
        HeldAreCursors(id);
        var _ := CloseTableReadSession(id);
      }
    }

    method CloseAllQuerySessions()
      requires Valid()
      modifies `sessions, `tableReadSessions, `activeRows, `cancelled, cursors
      ensures Valid() && sessions == map[] && tableReadSessions == map[]
    {
      hide Valid;
      CloseQuerySessions();
      CloseTableReadSessions();
    }

    /** After a disconnect nothing is left: both maps and the live cursors are empty, every cursor ever
        opened is closed and every context was cancelled. */
    method Disconnect()
      requires Valid()
      modifies this, cursors
      ensures Valid() && !connected && sessions == map[] && tableReadSessions == map[] && activeRows == map[]
      ensures cursors == old(cursors) && forall r | r in cursors :: r.closed
      ensures forall c: nat | c < contexts :: c in cancelled
    {
      CloseAllQuerySessions();
      assert activeRows.Keys == {};
      connected := false;
    }
  }
}
