/** Line comments in a select list: when they survive the rewrite, exactly, and a statement that goes wrong. */
module OracleComments {
  import opened Text
  import opened SqlLexer
  import opened QuotedIdentifiers
  import opened OracleTokens
  import opened OracleSelect
  import opened OracleItems
  import opened OracleReparse
  import opened OracleRoundTrip
  import opened OracleRewritten
  import opened OracleIdempotence
  import opened OracleMeaning
  import opened OracleItemText
  import opened OracleGlued
  import opened OracleShifted

  // ---- items that split back ----

  predicate IsPad(pad: string) { pad == "" || pad == " " }

  /** A padded item is scanned as the item, also with a comma or a blank after it. */
  lemma {:induction false} PaddedAt(pad: string, x: string, rest: string, p: nat)
    requires IsPad(pad) && p <= |x| && (rest != "" ==> rest[0] == ',' || rest[0] == ' ')
    ensures At(pad + x + rest, 0, |pad| + p) == At(x, 0, p)
    decreases p
  {
    var s := pad + x + rest;
    if p > 0 {
      PaddedAt(pad, x, rest, p - 1);
      var i := |pad| + p - 1;
      assert s[i] == x[p - 1];
      assert if p < |x| then s[i + 1] == x[p] else i + 1 < |s| ==> s[i + 1] == rest[0];
      SameStep(At(x, 0, p - 1).mode, s, i, x, p - 1);
    } else {
      PlainKeeps(s, 0, 0, |pad|);
    }
  }

  lemma SameStep(m: Mode, s: string, i: nat, x: string, j: nat)
    requires i < |s| && j < |x| && s[i] == x[j]
    requires if j + 1 < |x| then i + 1 < |s| && s[i + 1] == x[j + 1] else i + 1 < |s| ==> s[i + 1] in ", "
    ensures StepMode(m, s, i) == StepMode(m, x, j)
  {
  }

  lemma TrimCovers(s: string, i: nat, n: nat)
    requires i <= n < |s| && !IsSpace(s[i]) && !IsSpace(s[n])
    ensures |Trim(s)| > n - i
  {
    hide Trim;
    var lead := TrimSplits(s);
  }

  lemma TrimDropsPad(s: string, pad: string)
    requires IsPad(pad) && pad <= s
    ensures |Trim(s)| <= |s| - |pad|
  {
    hide Trim;
    var lead := TrimSplits(s);
    assert pad == " " ==> s[0] == ' ';
  }

  lemma TrimmedStarts(x: string)
    requires Trim(x) == x
    ensures x != "" ==> !IsSpace(x[0])
  {
    hide Trim;
    var _ := TrimSplits(x);
  }

  /** If the first piece of a padded list is the first item, it ends at that item's comma. */
  lemma FirstPieceEnds(pad: string, x: string, rest: string, c: nat)
    requires IsPad(pad) && Trim(x) == x
    requires var s := pad + x + ("," + rest); c < |s| && s[c] == ',' && Trim(s[..c]) == x
    ensures c == |pad| + |x|
  {
    hide Trim;
    var s := pad + x + ("," + rest);
    var n := |pad| + |x|;
    TrimmedStarts(x);
    assert s[n] == ',' && (x != "" ==> s[|pad|] == x[0]);
    if c > n {
      TrimCovers(s[..c], if x == "" then n else |pad|, n);
    } else if |pad| <= c {
      assert s[..|pad|] == pad;
      TrimDropsPad(s[..c], pad);
    }
  }

  lemma CommaIsHit(v: string, c: int)
    requires FirstComma(v, 0) == c && c != -1
    ensures 0 <= c < |v| && v[c] == ',' && At(v, 0, c) == TOP && At(v, 0, c + 1) == TOP
  {
  }

  lemma BehindClosed(v: string, n: nat)
    requires Closed(v) && n <= |v| && At(v, 0, n) == TOP
    ensures Closed(v[n..])
  {
    hide At;
    Restart(v, 0, n, |v|);
    Shift(v, n, n, |v|);
  }

  lemma OnlyOnePiece(v: string)
    requires FirstComma(v, 0) == -1
    ensures |SplitList(v)| <= 1
  {
    hide Trim;
  }

  lemma LineStays(s: string, n: nat)
    requires n + 1 == |s| && s[n] == ' ' && At(s, 0, n).mode == Line
    ensures !Closed(s)
  {
  }

  /** A self-contained list that splits back into its items has none that ends with a line comment. */
  lemma {:induction false} SplitBackEnds(pad: string, items: seq<string>)
    requires IsPad(pad) && items != [] && forall x | x in items :: Trim(x) == x
    requires Closed(pad + ListText(items)) && SplitList(pad + ListText(items)) == items
    ensures CommentsEnd(items)
    decreases |items|
  {
    hide At, Trim, SplitList;
    var x := items[0];
    var s := pad + ListText(items);
    assert x in items;
    if |items| == 1 {
      assert s == pad + x + " ";
      PaddedAt(pad, x, " ", |x|);
      if !EndsInCode(x) {
        LineStays(s, |pad| + |x|);
      }
    } else {
      var rest := " " + ListText(items[1..]);
      assert s == pad + x + ("," + rest);
      var c := FirstComma(s, 0);
      if c == -1 {
        OnlyOnePiece(s);
      }
      CommaIsHit(s, c);
      SplitStep(s, c);
      assert SplitList(s)[0] == Trim(s[..c]) && SplitList(s)[1..] == SplitList(s[c + 1..]);
      FirstPieceEnds(pad, x, rest, c);
      assert s[c + 1..] == rest;
      PaddedAt(pad, x, "," + rest, |x|);
      BehindClosed(s, c + 1);
      SplitBackEnds(" ", items[1..]);
    }
  }

  lemma {:induction false} SplitTrimmed(v: string)
    ensures forall x | x in SplitList(v) :: Trim(x) == x
    decreases |v|
  {
    hide Trim;
    var c := FirstComma(v, 0);
    if c == -1 {
      TrimTwice(v);
    } else {
      SplitStep(v, c);
      TrimTwice(v[..c]);
      SplitTrimmed(v[c + 1..]);
    }
  }

  // ---- items that are rewritten have no comment ----

  lemma StarEndsInCode(t: string)
    requires Trim(t) == t && ParseStar(t).Some?
    ensures EndsInCode(t)
  {
    hide At, Trim, ReadToken, SkipSpace;
    AtStart(t, 0);
    if t == "*" {
      PlainStep(t, 0);
    } else {
      TokenTop(t, 0);
      var next := ReadToken(t, 0).next;
      SpaceTop(t, next);
      var pos := SkipSpace(t, next);
      PlainStep(t, pos);
      var star := SkipSpace(t, pos + 1);
      PlainStep(t, star);
      EndsThere(t, star + 1);
    }
  }

  lemma AliasEndsInCode(t: string, pos: nat, c: ColumnItem)
    requires Trim(t) == t && PlainSpaces(t) && pos <= |t| && At(t, 0, pos) == TOP && ItemAlias(t, pos, c).Some?
    requires pos < |t| ==> !IsSQLSpace(t[pos])
    ensures EndsInCode(t)
  {
    hide At, Trim, ReadToken, StartsWithKeyword;
    if pos < |t| {
      var from := pos;
      if StartsWithKeyword(t[pos..], "as") {
        BreakAfterAs(t, pos);
        BreakBound(t, SkipSpace(t, pos + 2));
        from := SkipSpace(t, pos + 2);
      }
      TokenTop(t, from);
      EndsThere(t, ReadToken(t, from).next);
    }
  }

  lemma ColumnEndsInCode(t: string)
    requires Trim(t) == t && PlainSpaces(t) && ParseColumn(t).Some?
    ensures EndsInCode(t)
  {
    hide At, Trim, ItemAlias, ReadToken, EndsInCode;
    AtStart(t, 0);
    TokenTop(t, 0);
    var first := ReadToken(t, 0);
    SpaceTop(t, first.next);
    var pos := SkipSpace(t, first.next);
    if pos < |t| && t[pos] == '.' {
      PlainStep(t, pos);
      var i := SkipSpace(t, pos + 1);
      TokenTop(t, i);
      var second := ReadToken(t, i);
      SpaceTop(t, second.next);
      AliasEndsInCode(t, SkipSpace(t, second.next), ColumnItem(first.token.text, second.token, ""));
    } else {
      AliasEndsInCode(t, pos, ColumnItem("", first.token, ""));
    }
  }

  lemma {:induction false} OldItemsEnd(items: seq<string>, columns: seq<Column>, ref: TableRef)
    requires forall x | x in items :: Trim(x) == x && PlainSpaces(x)
    requires CommentsEnd(RewriteItems(items, columns, ref))
    ensures CommentsEnd(items)
  {
    hide Trim, PlainSpaces, EndsInCode, ParseStar, ParseColumn, QualifierMatches, RewriteXmlColumn, ExpandStar,
        XmlColumn;
    if items != [] {
      var x := items[0];
      assert x in items;
      var head, tail := RewriteItem(x, columns, ref), RewriteItems(items[1..], columns, ref);
      assert RewriteItems(items, columns, ref) == head + tail;
      assert forall y | y in tail :: y in head + tail;
      OldItemsEnd(items[1..], columns, ref);
      if ParseStar(x).Some? {
        StarEndsInCode(x);
      } else if ParseColumn(x).Some? {
        ColumnEndsInCode(x);
      } else {
        assert head == [x] && (head + tail)[0] == x;
      }
    }
  }

  // ---- the exact condition ----

  lemma ReadListClosed(s: string, p: Parts, items: seq<string>)
    requires Bounds(s, p) && Readable(s, p) && items != []
    requires ParseSelect(WithList(s, p, items)) == Some(p.(fromAt := p.listAt + |ListText(items)|))
    ensures Closed(ListText(items))
  {
    hide Readable, ParseSelect, WithList, ListText, At, KeywordHit, ListPrefix, ParseTableRef, FindKeyword,
        LeadingSelectListStart;
    var t := WithList(s, p, items);
    var q := p.(fromAt := p.listAt + |ListText(items)|);
    var a := p.listStart;
    WithListIs(s, p, items);
    ParsedFacts(t, q);
    FromIsTop(t, a, q.fromAt);
    BeforeList(s, p);
    assert forall i | a <= i < p.listAt :: t[i] == t[..p.listAt][i] == s[..p.listAt][i] == s[i];
    PrefixCharsKeepTop(t, a, p.listAt);
    Shift(t, a, a, p.listAt);
    Shift(t, a, a, q.fromAt);
    PartAt(t[a..], p.listAt - a, q.fromAt - a, |ListText(items)|);
    assert t[a..][p.listAt - a..q.fromAt - a] == t[p.listAt..q.fromAt];
  }

  /** What the statement must look like after the rewrite. */
  ghost predicate ReadAsMeant(s: string, p: Parts, items: seq<string>)
    requires Bounds(s, p)
  {
    var t := WithList(s, p, items);
    var q := p.(fromAt := p.listAt + |ListText(items)|);
    ParseSelect(t) == Some(q) && q.fromAt <= |t| && SplitList(t[p.listAt..q.fromAt]) == items
  }

  /** The rewritten statement is read as the same SELECT over the same table with exactly the new items, if and
      only if the list does not touch the keyword before it and none of its items ends with a line comment. */
  lemma ReadAsMeantExactly(s: string, p: Parts, columns: seq<Column>)
    requires Usable(s, p) && columns != []
    ensures ReadAsMeant(s, p, RewriteItems(SplitList(ListOf(s, p)), columns, p.ref))
      <==> !Touching(s, p, columns) && CommentsEnd(SplitList(ListOf(s, p)))
  {
    hide Readable, ParseSelect, WithList, ListText, SplitList, RewriteItems, Touching, AliasUsable, CommentsEnd,
      PlainSpaces, Trim, Closed, ListOf;
    var was := SplitList(ListOf(s, p));
    var items := RewriteItems(was, columns, p.ref);
    if CommentsEnd(was) {
      RewriteReadsBack(s, p, columns);
    } else if ReadAsMeant(s, p, items) {
      RewrittenNotEmpty(was, columns, p.ref);
      ReadListClosed(s, p, items);
      WithListIs(s, p, items);
      SplitTrimmed(ListText(items));
      assert "" + ListText(items) == ListText(items);
      SplitBackEnds("", items);
      SplitTrimmed(ListOf(s, p));
      PlainOf(s, p);
      ItemsPlain(ListOf(s, p));
      OldItemsEnd(was, columns, p.ref);
    }
  }

  lemma RewrittenNotEmpty(items: seq<string>, columns: seq<Column>, ref: TableRef)
    requires items != [] && columns != []
    ensures RewriteItems(items, columns, ref) != []
  {
    hide ParseStar, ParseColumn, QualifierMatches, RewriteXmlColumn, XmlColumn;
  }

  // ---- a statement that goes wrong ----

  const COMMENTED := "select a -- c\n, x from t"
  const COMMENTED_PARTS := Parts(6, 7, 18, TableRef("", "T", "", ""))
  const COMMENTED_LIST := "a -- c\n, x "

  /** A line comment from one position to a line end at another. */
  lemma LineAt(s: string, a: nat, i: nat, end: nat)
    requires a <= i && i + 2 <= end < |s| && At(s, a, i) == TOP && s[i] == '-' && s[i + 1] == '-'
    requires s[end] == '\n' && forall k | i <= k < end :: s[k] != '\n' && s[k] != '\r'
    ensures At(s, a, end) == Scan(Line, 0) && At(s, a, end + 1) == TOP
    ensures forall k | i < k <= end :: At(s, a, k).mode == Line
  {
    LineGoesOn(s, a, i, end);
    forall k | i < k <= end ensures At(s, a, k).mode == Line {
      LineGoesOn(s, a, i, k);
    }
  }

  lemma {:induction false} LineGoesOn(s: string, a: nat, i: nat, k: nat)
    requires a <= i < k <= |s| && i + 1 < |s| && At(s, a, i) == TOP && s[i] == '-' && s[i + 1] == '-'
    requires forall j | i <= j < k :: s[j] != '\n' && s[j] != '\r'
    ensures At(s, a, k) == Scan(Line, 0)
    decreases k
  {
    if k > i + 1 {
      LineGoesOn(s, a, i, k - 1);
    }
  }

  lemma CommentedFrom()
    ensures FindKeyword(COMMENTED, 6, "from") == 18
  {
    hide KeywordHit;
    CommentedFromHit();
    CommentedNoHit();
    FirstKeywordIs(COMMENTED, 6, 6, 18, "from");
  }

  lemma CommentedNoHit()
    ensures forall q | 6 <= q < 18 :: !KeywordHit(COMMENTED, 6, q, "from")
  {
    hide KeywordHit;
    forall q | 6 <= q < 18 ensures !KeywordHit(COMMENTED, 6, q, "from") {
      FromHitShape(COMMENTED, 6, q);
    }
  }

  lemma CommentedFromHit()
    ensures KeywordHit(COMMENTED, 6, 18, "from")
  {
    hide At;
    CommentedAtFrom();
    assert COMMENTED[18..18 + 4] == "from";
  }

  lemma CommentedAtFrom()
    ensures At(COMMENTED, 6, 18) == TOP
  {
    hide At;
    var s := COMMENTED;
    AtStart(s, 6);
    PlainKeeps(s, 6, 6, 9);
    LineAt(s, 6, 9, 13);
    CommaStepTop(s, 6, 14);
    PlainKeeps(s, 6, 15, 18);
  }

  lemma CommaStepTop(s: string, a: nat, i: nat)
    requires a <= i < |s| && At(s, a, i) == TOP && s[i] == ','
    ensures At(s, a, i + 1) == TOP
  {
  }

  lemma CommentedStart()
    ensures LeadingSelectListStart(COMMENTED) == 6 && NoTrailingSpace(COMMENTED)
  {
    hide LeadEnd, SelectAt, LeadingSelectListStart;
    SelectFirst(COMMENTED);
    ListStartIs(COMMENTED);
  }

  lemma CommentedTable()
    ensures ParseTableRef(" t") == Some(TableRef("", "T", "", ""))
  {
    hide ReadToken;
    var s := " t";
    SkipSpaceIs(s, 0, 1);
    BareToken(s, 1, 1, "t");
    SkipSpaceIs(s, 2, 2);
    assert Upper("t") == "T";
  }

  lemma CommentedPrefix()
    ensures ListPrefix(" a -- c\n, x ") == 1
  {
    var list := " a -- c\n, x ";
    SkipSpaceIs(list, 0, 1);
    NoModifier(list, 1);
  }

  lemma CommentedIsRead()
    ensures ParseSelect(COMMENTED) == Some(COMMENTED_PARTS) && ListOf(COMMENTED, COMMENTED_PARTS) == COMMENTED_LIST
    ensures COMMENTED[6..18] == " a -- c\n, x "
  {
    hide LeadingSelectListStart, FindKeyword, ParseTableRef, ListPrefix, ParseSelect;
    CommentedStart();
    CommentedFrom();
    CommentedTable();
    CommentedPrefix();
    assert COMMENTED[18 + 4..] == " t" && COMMENTED[6..18] == " a -- c\n, x " && COMMENTED[7..18] == COMMENTED_LIST;
    ParseIs(COMMENTED, 6, 18, TableRef("", "T", "", ""));
  }

  lemma CommentedItems()
    ensures SplitList(COMMENTED_LIST) == ["a -- c", "x"] && !CommentsEnd(["a -- c", "x"])
  {
    hide At, Trim, SplitList;
    var v := COMMENTED_LIST;
    AtStart(v, 0);
    PlainKeeps(v, 0, 0, 2);
    LineAt(v, 0, 2, 6);
    assert CommaHit(v, 0, 7);
    FirstCommaIs(v, 0, 7);
    SplitStep(v, 7);
    assert v[..7] == "a -- c" + "\n" && v[8..] == " " + "x" + " ";
    FirstItemTrims();
    PlainOk("x");
    TrimFixed("x");
    LastSplits(" ", "x");
    FirstItemInLine();
    assert ["a -- c", "x"][0] == "a -- c";
  }

  lemma FirstItemTrims()
    ensures Trim("a -- c" + "\n") == "a -- c"
  {
    TrimDropsTrailing("a -- c" + "\n", 6);
    assert ("a -- c" + "\n")[..6] == "a -- c";
    TrimFixed("a -- c");
  }

  lemma FirstItemInLine()
    ensures !EndsInCode("a -- c")
  {
    hide At;
    var x := "a -- c";
    AtStart(x, 0);
    PlainKeeps(x, 0, 0, 2);
    LineGoesOn(x, 0, 2, 6);
  }

  lemma CommentedIsUsable()
    ensures Usable(COMMENTED, COMMENTED_PARTS)
  {
    hide ParseSelect, ListOf, NoTrailingSpace, CommentsEnd, SplitList, PlainSpaces, AliasUsable;
    CommentedIsRead();
    CommentedStart();
    CommentedItems();
    CommentedSpaces();
    NoAlias();
  }

  lemma CommentedSpaces()
    ensures PlainSpaces(" a -- c\n, x ")
  {
    hide At;
    assert forall i | 0 <= i < |" a -- c\n, x "| :: IsSpace(" a -- c\n, x "[i]) ==> IsSQLSpace(" a -- c\n, x "[i]);
  }

  lemma NoAlias()
    ensures AliasUsable(TableRef("", "T", "", ""))
  {
    assert "" + "." == ".";
  }

  lemma FirstItemKept()
    ensures ParseStar("a -- c") == None && ParseColumn("a -- c") == None
  {
    hide ReadToken, Trim;
    var x := "a -- c";
    TrimFixed(x);
    BareToken(x, 0, 0, "a");
    SkipSpaceIs(x, 1, 2);
    NoTokenAt(x, 2);
    DashesAreNotAs();
    assert x[2..] == "-- c";
  }

  lemma NoTokenAt(s: string, i: nat)
    requires i < |s| && s[i] == '-'
    ensures ReadToken(s, i) == NoToken
  {
  }

  lemma DashesAreNotAs()
    ensures !StartsWithKeyword("-- c", "as")
  {
    TrimFixed("-- c");
    assert Upper("-- c"[..2])[0] == '-' && Upper("as")[0] == 'A';
  }

  lemma CommentedNewItems(ref: TableRef, load: Loader)
    requires load(ref.schema, ref.table) == Ok(AX_AND_X)
    ensures NewItems(COMMENTED_LIST, ref, load) == Ok(Some(RewriteItems(["a -- c", "x"], AX_AND_X, ref)))
    ensures RewriteItems(["a -- c", "x"], AX_AND_X, ref) == ["a -- c",
        SerializeExpression(QuoteIdentifier("X"), QuoteIdentifier("X"))]
  {
    hide SplitList, ParseColumn, ParseStar, QualifierMatches, XmlColumn, HaveXMLType, SerializeExpression,
        QuoteIdentifier,
      IsBareXmlColumn, IsMatchingStar, RewriteXmlColumn, CommentsEnd;
    CommentedItems();
    FirstItemKept();
    ColumnX(ref);
    XmlIsX();
    ItemX(ref);
    KeptItem(ref);
    var items := ["a -- c", "x"];
    assert items[1] == "x" && items[0] == "a -- c" && items[1..] == ["x"] && ["x"][1..] == [];
    assert NeedsRewrite(items[1], AX_AND_X, ref);
    assert ParseColumn(items[1]).Some? && MayReferenceXml(items);
    assert RewriteItem("x", AX_AND_X, ref) == [SerializeExpression(QuoteIdentifier("X"), QuoteIdentifier("X"))];
    assert RewriteItems([], AX_AND_X, ref) == [];
    assert RewriteItems(["x"], AX_AND_X, ref) == RewriteItem("x", AX_AND_X, ref) + [];
    assert RewriteItems(items, AX_AND_X, ref) == ["a -- c"] + RewriteItems(["x"], AX_AND_X, ref);
  }

  lemma KeptItem(ref: TableRef)
    ensures RewriteItem("a -- c", AX_AND_X, ref) == ["a -- c"]
  {
    hide ParseColumn, ParseStar, QualifierMatches;
    FirstItemKept();
  }

  /** The rewrite drops the line end that ends the comment; the rest of the statement becomes part of the
      comment, and the statement is no longer read as it is meant. */
  lemma CommentSwallowsTheRest(load: Loader)
    requires load("", "T") == Ok(AX_AND_X)
    ensures var items := RewriteItems(["a -- c", "x"], AX_AND_X, COMMENTED_PARTS.ref);
      && RewriteDirect(COMMENTED, load) == Ok(Direct("select a -- c, " + NEW_LIST + "from t", true, true))
      && WithList(COMMENTED, COMMENTED_PARTS, items) == "select a -- c, " + NEW_LIST + "from t"
      && !ReadAsMeant(COMMENTED, COMMENTED_PARTS, items)
  {
    hide ParseSelect, NewItems, RewriteItems, SerializeExpression, WithList, Usable, SplitList, Touching, ReadAsMeant,
      CommentsEnd;
    CommentedIsRead();
    CommentedIsUsable();
    CommentedItems();
    CommentedNewItems(COMMENTED_PARTS.ref, load);
    ReadAsMeantExactly(COMMENTED, COMMENTED_PARTS, AX_AND_X);
    CommentedText(SerializeExpression(QuoteIdentifier("X"), QuoteIdentifier("X")));
  }

  lemma CommentedText(x: string)
    ensures WithList(COMMENTED, COMMENTED_PARTS, ["a -- c", x]) == "select a -- c, " + (x + " ") + "from t"
  {
    var items := ["a -- c", x];
    assert items[1..] == [x];
    assert Join(items, ", ") == "a -- c" + ", " + x;
    assert COMMENTED[..7] == "select " && COMMENTED[18..] == "from t";
  }
}
