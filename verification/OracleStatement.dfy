/** Whole statements in the words of SQL: how a SELECT over one table is read, and what it is rewritten to. */
module OracleStatement {
  import opened Text
  import opened SqlLexer
  import opened QuotedIdentifiers
  import opened OracleTokens
  import opened OracleSelect
  import opened OracleItems
  import opened OracleReparse
  import opened OracleRoundTrip
  import opened OracleRewritten
  import opened OracleIdempotence
  import opened OracleTable
  import opened OracleItemText

  // ---- keywords ----

  /** A keyword is found in any letter case: the scan depends on the letters only up to their case. */
  lemma KeywordCase(s: string, pos: nat, keyword: string)
    requires pos + |keyword| <= |s|
    requires (pos > 0 ==> !IsIdentifierPart(s[pos - 1]))
      && (pos + |keyword| < |s| ==> !IsIdentifierPart(s[pos + |keyword|]))
    ensures KeywordAt(s, pos, keyword) <==> Spelled(s[pos..pos + |keyword|], Upper(keyword))
  {
  }

  lemma {:induction false} SpelledWord(word: string, upper: string)
    requires Spelled(word, upper) && forall i | 0 <= i < |upper| :: 'A' <= upper[i] <= 'Z'
    requires upper != ""
    ensures |word| == |upper| && Bare(word) && !IsSpace(word[0]) && !IsSpace(word[|word| - 1])
    ensures word[0] !in "'\"-/()" && forall i | 0 <= i < |word| :: IsLetter(word[i])
  {
    UpperIsBare(word, upper);
    LettersArePart(word);
  }

  // ---- reading ----

  /** A statement from its parts: SELECT, the list, FROM and what follows, the keywords in any letter case. */
  function Statement(sel: string, list: string, frm: string, after: string): string {
    sel + " " + list + " " + frm + after
  }

  /** A list that is self-contained. */
  ghost predicate ListBody(list: string) { list != "" && !IsSpace(list[0]) && Closed(list) && NoFrom(list) }

  /** One that starts with an item, not with a modifier. */
  ghost predicate ListText0(list: string) { ListBody(list) && !Begins(list, "DISTINCT") && !Begins(list, "ALL") }

  lemma StatementParts(sel: string, list: string, frm: string, after: string)
    requires |sel| == 6 && |frm| == 4
    ensures var s := Statement(sel, list, frm, after); var f := 8 + |list|;
      && |s| == f + 4 + |after| && s[0..6] == sel && s[6] == ' ' && s[6..f] == " " + list + " " && s[7..f] == list + " "
      && s[6..] == (" " + list + " ") + (frm + after) && s[f..f + 4] == frm && s[f + 4..] == after
      && s[f - 1] == ' ' && (after != "" ==> s[f + 4] == after[0] && s[|s| - 1] == after[|after| - 1])
  {
  }

  lemma SelectIsRead(sel: string, list: string, frm: string, after: string)
    requires Spelled(sel, "SELECT") && Spelled(frm, "FROM") && after != "" && !IsSpace(after[|after| - 1])
    ensures LeadingSelectListStart(Statement(sel, list, frm, after)) == 6
  {
    hide Statement, LeadingSelectListStart, Trim;
    var s := Statement(sel, list, frm, after);
    SpelledWord(sel, "SELECT");
    SpelledWord(frm, "FROM");
    StatementParts(sel, list, frm, after);
    assert s[0] == s[0..6][0] == sel[0];
    NoLead(s);
    assert EqualFold(s[0..6], "select") by {
      assert Upper("select") == "SELECT";
    }
    ListStartIs(s);
  }

  lemma NoLead(s: string)
    requires s != "" && IsLetter(s[0])
    ensures LeadEnd(s, 0) == 0
  {
    assert SkipWhite(s, 0) == 0;
  }

  lemma SpacedList(list: string)
    requires ListBody(list)
    ensures Closed(" " + list + " ") && NoFrom(" " + list + " ")
  {
    hide Closed, NoFrom;
    PlainOk(" ");
    ConcatClosed(" ", list);
    ConcatNoFrom(" ", list);
    ConcatClosed(" " + list, " ");
    ConcatNoFrom(" " + list, " ");
  }

  lemma FromIsFound(sel: string, list: string, frm: string, after: string)
    requires Spelled(sel, "SELECT") && Spelled(frm, "FROM") && ListBody(list) && Separate(after)
    ensures FindKeyword(Statement(sel, list, frm, after), 6, "from") == 8 + |list|
  {
    hide Statement, At, Closed, NoFrom, KeywordHit, ListBody;
    var s := Statement(sel, list, frm, after);
    var f := 8 + |list|;
    SpelledWord(sel, "SELECT");
    SpelledWord(frm, "FROM");
    StatementParts(sel, list, frm, after);
    SpacedList(list);
    AtStart(s, 6);
    var text := " " + list + " ";
    TopAfterList(s, 6, 6, text, frm + after);
    FromHits(s, f, frm, after);
    forall q | 6 <= q < f ensures !KeywordHit(s, 6, q, "from") {
      NoHitInList(s, 6, 6, text, frm + after, q);
    }
    FirstKeywordIs(s, 6, 6, f, "from");
  }

  lemma FromHits(s: string, f: nat, frm: string, after: string)
    requires 6 <= f && f + 4 <= |s| && s[f..f + 4] == frm && s[f + 4..] == after && Spelled(frm, "FROM")
        && Separate(after)
    requires At(s, 6, f) == TOP && s[f - 1] == ' '
    ensures KeywordHit(s, 6, f, "from")
  {
    hide At;
    SpelledWord(frm, "FROM");
    assert s[f] == frm[0];
    assert Upper("from") == "FROM";
    assert after != "" ==> s[f + 4] == after[0];
    KeywordCase(s, f, "from");
  }

  lemma PrefixIsBlank(list: string)
    requires ListText0(list)
    ensures ListPrefix(" " + list + " ") == 1
  {
    hide StartsWithKeyword, Closed, NoFrom, Begins;
    var v := " " + list + " ";
    assert v[1] == list[0];
    SkipSpaceIs(v, 0, 1);
    var x := v[1..];
    assert x == list + " " && x[0] == list[0];
    BeginsIs(x, "DISTINCT", "distinct");
    BeginsIs(x, "ALL", "all");
    BeginsPadded(list, "DISTINCT");
    BeginsPadded(list, "ALL");
  }

  lemma BeginsPadded(list: string, upper: string)
    requires upper != "" && forall i | 0 <= i < |upper| :: 'A' <= upper[i] <= 'Z'
    ensures Begins(list + " ", upper) ==> Begins(list, upper)
  {
    var x := list + " ";
    var n := |upper|;
    if Begins(x, upper) {
      UpperIsBare(x[..n], upper);
      assert x[n - 1] == x[..n][n - 1];
      assert x[..n] == list[..n];
      assert n < |list| ==> x[n] == list[n];
    }
  }

  /** A statement with its keywords in any letter case is read as the SELECT of its list over the table that
      follows FROM. */
  lemma StatementIsRead(sel: string, list: string, frm: string, after: string, ref: TableRef)
    requires Spelled(sel, "SELECT") && Spelled(frm, "FROM") && ListText0(list)
    requires after != "" && !IsSpace(after[|after| - 1]) && Separate(after) && ParseTableRef(after) == Some(ref)
    ensures var s := Statement(sel, list, frm, after);
      ParseSelect(s) == Some(Parts(6, 7, 8 + |list|, ref)) && s[7..8 + |list|] == list + " "
  {
    hide Statement, ListBody, Begins, LeadingSelectListStart, FindKeyword, ParseTableRef, ListPrefix, ParseSelect;
    var s := Statement(sel, list, frm, after);
    SpelledWord(sel, "SELECT");
    SpelledWord(frm, "FROM");
    StatementParts(sel, list, frm, after);
    SelectIsRead(sel, list, frm, after);
    FromIsFound(sel, list, frm, after);
    PrefixIsBlank(list);
    ParseIs(s, 6, 8 + |list|, ref);
  }

  lemma ModifierSlices(word: string, gap: string, list: string)
    requires word != "" && list != ""
    ensures var v := " " + (word + gap + list) + " "; var k := 1 + |word|;
      && |v| == k + |gap| + |list| + 1 && v[0] == ' ' && v[1] == word[0] && v[k..k + |gap|] == gap
      && v[k + |gap|] == list[0] && v[1..] == word + (gap + list + " ")
  {
  }

  /** The blanks at a position and the first character behind them. */
  lemma BlankEnds(v: string, k: nat, gap: string)
    requires k + |gap| < |v| && v[k..k + |gap|] == gap && Blank(gap) && !IsSQLSpace(v[k + |gap|])
    ensures SkipSpace(v, k) == k + |gap|
  {
    forall j | k <= j < k + |gap| ensures IsSQLSpace(v[j]) {
      assert v[j] == v[k..k + |gap|][j - k];
    }
    SkipSpaceIs(v, k, k + |gap|);
  }

  lemma PrefixIsModifier(word: string, gap: string, list: string)
    requires Spelled(word, "DISTINCT") || Spelled(word, "ALL")
    requires gap != "" && Blank(gap) && list != "" && !IsSQLSpace(list[0])
    ensures ListPrefix(" " + (word + gap + list) + " ") == 1 + |word| + |gap|
  {
    hide StartsWithKeyword, Begins, SkipSpace;
    var v := " " + (word + gap + list) + " ";
    var upper := if Spelled(word, "DISTINCT") then "DISTINCT" else "ALL";
    SpelledWord(word, upper);
    ModifierSlices(word, gap, list);
    SkipSpaceIs(v, 0, 1);
    var rest := gap + list + " ";
    assert rest[0] == gap[0] && (word + rest)[0] == word[0];
    BeginsIs(v[1..], "DISTINCT", "distinct");
    BeginsIs(v[1..], "ALL", "all");
    WordBegins(word, rest);
    BlankEnds(v, 1 + |word|, gap);
  }

  lemma WordBegins(word: string, rest: string)
    requires rest != "" && IsSQLSpace(rest[0])
    ensures Spelled(word, "DISTINCT") ==> Begins(word + rest, "DISTINCT")
    ensures Spelled(word, "ALL") ==> Begins(word + rest, "ALL") && !Begins(word + rest, "DISTINCT")
  {
    assert (word + rest)[..|word|] == word && (word + rest)[|word|] == rest[0];
  }

  /** DISTINCT or ALL, in any letter case, and the white space behind it belong to the keyword, not to the list. */
  lemma ModifierIsRead(sel: string, word: string, gap: string, list: string, frm: string, after: string, ref: TableRef)
    requires Spelled(sel, "SELECT") && Spelled(frm, "FROM") && (Spelled(word, "DISTINCT") || Spelled(word, "ALL"))
    requires gap != "" && Blank(gap) && list != "" && !IsSQLSpace(list[0]) && ListBody(word + gap + list)
    requires after != "" && !IsSpace(after[|after| - 1]) && Separate(after) && ParseTableRef(after) == Some(ref)
    ensures var s := Statement(sel, word + gap + list, frm, after); var at := 7 + |word| + |gap|;
      ParseSelect(s) == Some(Parts(6, at, at + |list| + 1, ref)) && s[at..at + |list| + 1] == list + " "
  {
    hide Statement, ListBody, LeadingSelectListStart, FindKeyword, ParseTableRef, ListPrefix, ParseSelect;
    var body := word + gap + list;
    var s := Statement(sel, body, frm, after);
    SpelledWord(sel, "SELECT");
    SpelledWord(frm, "FROM");
    StatementParts(sel, body, frm, after);
    SelectIsRead(sel, body, frm, after);
    FromIsFound(sel, body, frm, after);
    PrefixIsModifier(word, gap, list);
    ParseIs(s, 6, 8 + |body|, ref);
    assert (body + " ")[|word| + |gap|..] == list + " ";
    assert s[7..8 + |body|][|word| + |gap|..] == s[7 + |word| + |gap|..8 + |body|];
  }

  // ---- rewriting ----

  lemma Spliced(sel: string, list: string, frm: string, after: string, ref: TableRef, items: seq<string>)
    requires |sel| == 6 && |frm| == 4
    ensures WithList(Statement(sel, list, frm, after), Parts(6, 7, 8 + |list|, ref), items)
         == Statement(sel, Join(items, ", "), frm, after)
  {
    var s := Statement(sel, list, frm, after);
    assert s[..7] == sel + " " && s[8 + |list|..] == frm + after;
  }

  /** A statement over one table whose list is a star: the star becomes the columns of the table, in order,
      written after the alias if there is one, the XML ones serialized; everything else stays. */
  lemma StarStatement(sel: string, frm: string, after: string, ref: TableRef, load: Loader, columns: seq<Column>)
    returns (cells: seq<string>)
    requires Spelled(sel, "SELECT") && Spelled(frm, "FROM")
    requires after != "" && !IsSpace(after[|after| - 1]) && Separate(after) && ParseTableRef(after) == Some(ref)
    requires load(ref.schema, ref.table) == Ok(columns) && exists i | 0 <= i < |columns| ::
        IsXMLType(columns[i].dataType)
    ensures |cells| == |columns| && forall i | 0 <= i < |columns| :: StarCell(cells[i], columns[i], columns, ref)
    ensures RewriteDirect(Statement(sel, "*", frm, after), load)
         == Ok(Direct(Statement(sel, Join(cells, ", "), frm, after), true, true))
  {
    hide Statement, ListText0, ParseSelect, ParseTableRef, SplitList, StarCell, ParseStar, QualifierMatches, Trim,
      WithList, RewriteItem, IsXMLType, TokenText;
    SpelledWord(sel, "SELECT");
    SpelledWord(frm, "FROM");
    StarIsList();
    StatementIsRead(sel, "*", frm, after, ref);
    StarMatches(ref);
    assert "*" + " " == "* ";
    assert NeedsRewrite("*", columns, ref);
    TableAliasIsToken(after);
    StarBecomes("*", columns, ref);
    cells := RewriteItem("*", columns, ref);
    OneItem("* ", "*", ref, load, columns);
    Spliced(sel, "*", frm, after, ref, cells);
  }

  lemma OneItem(list: string, item: string, ref: TableRef, load: Loader, columns: seq<Column>)
    requires SplitList(list) == [item] && (ParseStar(item).Some? || ParseColumn(item).Some?)
    requires load(ref.schema, ref.table) == Ok(columns) && exists i | 0 <= i < |columns| ::
        IsXMLType(columns[i].dataType)
    ensures NewItems(list, ref, load)
         == if NeedsRewrite(item, columns, ref) then Ok(Some(RewriteItem(item, columns, ref))) else Ok(None)
  {
    hide SplitList, ParseStar, ParseColumn, NeedsRewrite, RewriteItem, IsXMLType;
    var items := [item];
    assert items[0] == item && items[1..] == [];
    assert ParseStar(items[0]).Some? || ParseColumn(items[0]).Some?;
    assert MayReferenceXml(items);
    assert RewriteItems(items, columns, ref) == RewriteItem(item, columns, ref) + [] == RewriteItem(item, columns, ref);
    assert NeedsRewrite(items[0], columns, ref) <==> AnyNeedsRewrite(items, columns, ref);
  }

  lemma StarIsList()
    ensures ListText0("*") && SplitList("* ") == ["*"]
  {
    hide At, SplitList;
    PlainOk("*");
    TrimFixed("*");
    ListTextSplits("", ["*"]);
    assert "" + ListText(["*"]) == "* ";
  }

  lemma StarMatches(ref: TableRef)
    ensures ParseStar("*") == Some("") && QualifierMatches("", ref)
  {
    TrimFixed("*");
    TrimFixed("");
  }

  /** The statements of the driver's own example: a star over a table without alias, before any clause. */
  lemma StarBeforeClause(sel: string, frm: string, pre: string, word: string, rest: string, ref: TableRef, load: Loader,
      columns: seq<Column>) returns (cells: seq<string>)
    requires Spelled(sel, "SELECT") && Spelled(frm, "FROM") && TableText(pre, ref) && pre != "" && Separate(pre)
    requires ClauseWord(word) && Separate(rest) && GoesOn(pre, word + rest)
        && (rest != "" ==> !IsSpace(rest[|rest| - 1]))
    requires load(ref.schema, ref.table) == Ok(columns) && exists i | 0 <= i < |columns| ::
        IsXMLType(columns[i].dataType)
    ensures |cells| == |columns| && forall i | 0 <= i < |columns| ::
        cells[i] == if IsXmlName(columns, columns[i].name)
          then "XMLSERIALIZE(CONTENT " + QuoteIdentifier(columns[i].name) + " AS CLOB) AS "
              + QuoteIdentifier(columns[i].name)
          else QuoteIdentifier(columns[i].name)
    ensures RewriteDirect(Statement(sel, "*", frm, pre + (word + rest)), load)
         == Ok(Direct(Statement(sel, Join(cells, ", "), frm, pre + (word + rest)), true, true))
  {
    hide ParseTableRef, TableText, GoesOn, ClauseWord, Statement, Join, IsXMLType, QuoteIdentifier, IsXmlName,
        RewriteDirect;
    TableThenClause(pre, word, rest, ref);
    var after := pre + (word + rest);
    ClauseIsBare(word);
    assert after[0] == pre[0] && after[|after| - 1] == (word + rest)[|word + rest| - 1];
    NotSpace(word);
    cells := StarStatement(sel, frm, after, ref, load, columns);
    forall i | 0 <= i < |columns| ensures StarCell(cells[i], columns[i], columns, ref)
        && Reference("", columns[i].name) == QuoteIdentifier(columns[i].name) {
    }
  }

  // ---- when a statement is rewritten ----

  /** The item is a star or a column that means the table; a column only if its type is XMLTYPE. */
  predicate Concerned(item: string, columns: seq<Column>, ref: TableRef) {
    || (ParseStar(item).Some? && QualifierMatches(ParseStar(item).value, ref))
    || (ParseColumn(item).Some? && QualifierMatches(ParseColumn(item).value.qualifier, ref)
        && IsXmlName(columns, ParseColumn(item).value.column.name))
  }

  /** The columns are asked for only if an item is a star or a column, and an error in that is returned. The
      statement is rewritten exactly if the table has an XMLTYPE column and some item is concerned. */
  lemma DirectCases(s: string, load: Loader)
    requires ParseSelect(s).Some?
    ensures var p := ParseSelect(s).value; var items := SplitList(s[p.listAt..p.fromAt]);
      var asked := exists item | item in items :: ParseStar(item).Some? || ParseColumn(item).Some?;
      var loaded := load(p.ref.schema, p.ref.table); var r := RewriteDirect(s, load);
      && (!asked ==> r == Ok(Direct(s, false, true)))
      && (asked && loaded.Err? ==> r == Err(loaded.error))
      && (asked && loaded.Ok? ==>
          var xml := exists column | column in loaded.value :: IsXMLType(column.dataType);
          var any := exists item | item in items :: Concerned(item, loaded.value, p.ref);
          r.Ok? && r.value.handled && (r.value.changed <==> xml && any) && (!r.value.changed ==> r.value.text == s))
  {
    hide ParseSelect, SplitList, ParseStar, ParseColumn, QualifierMatches, IsXMLType, Concerned, RewriteItems, WithList;
    var p := ParseSelect(s).value;
    var items := SplitList(s[p.listAt..p.fromAt]);
    var asked := exists item | item in items :: ParseStar(item).Some? || ParseColumn(item).Some?;
    AskedIs(items);
    if asked && load(p.ref.schema, p.ref.table).Ok? {
      var columns := load(p.ref.schema, p.ref.table).value;
      ColumnsAre(columns);
      ConcernedIs(items, columns, p.ref);
    }
  }

  lemma AskedIs(items: seq<string>)
    ensures MayReferenceXml(items) <==> exists item | item in items :: ParseStar(item).Some? || ParseColumn(item).Some?
    ensures items == [] ==> !MayReferenceXml(items)
  {
    hide ParseStar, ParseColumn;
    forall item | item in items && (ParseStar(item).Some? || ParseColumn(item).Some?) ensures MayReferenceXml(items) {
      var i :| 0 <= i < |items| && items[i] == item;
    }
  }

  lemma ColumnsAre(columns: seq<Column>)
    ensures HaveXMLType(columns) <==> exists column | column in columns :: IsXMLType(column.dataType)
  {
    hide IsXMLType;
    forall column | column in columns && IsXMLType(column.dataType) ensures HaveXMLType(columns) {
      var i :| 0 <= i < |columns| && columns[i] == column;
    }
  }

  lemma ConcernedIs(items: seq<string>, columns: seq<Column>, ref: TableRef)
    ensures AnyNeedsRewrite(items, columns, ref) <==> exists item | item in items :: Concerned(item, columns, ref)
  {
    hide ParseStar, ParseColumn, QualifierMatches, IsXmlName, NeedsRewrite, Concerned;
    forall item | item in items ensures NeedsRewrite(item, columns, ref) <==> Concerned(item, columns, ref) {
      OneConcerned(item, columns, ref);
    }
    forall item | item in items && Concerned(item, columns, ref) ensures AnyNeedsRewrite(items, columns, ref) {
      var i :| 0 <= i < |items| && items[i] == item;
    }
  }

  lemma OneConcerned(item: string, columns: seq<Column>, ref: TableRef)
    ensures NeedsRewrite(item, columns, ref) <==> Concerned(item, columns, ref)
  {
    hide ParseStar, ParseColumn, QualifierMatches, IsXmlName;
    if ParseColumn(item).Some? {
      XmlNameIs(columns, ParseColumn(item).value.column.name);
    }
  }
}
