/** A statement with white space at its end, whose rewrite starts inside an identifier. */
module OracleShifted {
  import opened Text
  import opened SqlLexer
  import opened QuotedIdentifiers
  import opened OracleTokens
  import opened OracleSelect
  import opened OracleSplice
  import opened OracleItems
  import opened OracleReparse
  import opened OracleRoundTrip
  import opened OracleIdempotence
  import opened OracleMeaning
  import opened OracleGlued
  import opened OracleListBounds

  const SHIFTED := "select ax from t  "
  const NESTED := "(select ax from t  )"
  const AX_AND_X := [Column("AX", "VARCHAR2"), Column("X", "XMLTYPE")]
  const NEW_LIST := SerializeExpression(QuoteIdentifier("X"), QuoteIdentifier("X")) + " "

  lemma ShiftedTrims()
    ensures TrimRight(SHIFTED) == "select ax from t"
  {
    var s := SHIFTED;
    assert s[..17] == "select ax from t " && s[..17][..16] == "select ax from t";
  }

  lemma SelectFirst(s: string)
    requires "select " <= s
    ensures LeadEnd(s, 0) == 0 && SelectAt(s, 0)
  {
    assert SkipWhite(s, 0) == 0;
    assert s[0..6] == "select";
  }

  lemma ShiftedStart()
    ensures LeadingSelectListStart(SHIFTED) == 8 && TrueStart(SHIFTED) == Some(6)
  {
    hide TrimRight, LeadEnd, SelectAt, LeadingSelectListStart;
    ShiftedTrims();
    SelectFirst(SHIFTED);
    SelectFirst("select ax from t");
    ListStartError(SHIFTED);
  }

  lemma ShiftedFrom(start: nat)
    requires start == 6 || start == 8
    ensures FindKeyword(SHIFTED, start, "from") == 10
  {
    hide At;
    var s := SHIFTED;
    AtStart(s, start);
    PlainKeeps(s, start, start, 10);
    assert s[10..10 + 4] == "from";
    assert KeywordHit(s, start, 10, "from");
    forall q | start <= q < 10 ensures !KeywordHit(s, start, q, "from") {
      FromHitShape(s, start, q);
    }
    FirstKeywordIs(s, start, start, 10, "from");
  }

  lemma ShiftedTable()
    ensures ParseTableRef(" t  ") == Some(TableRef("", "T", "", ""))
  {
    hide ReadToken;
    var s := " t  ";
    SkipSpaceIs(s, 0, 1);
    BareToken(s, 1, 1, "t");
    SkipSpaceIs(s, 2, 4);
    assert Upper("t") == "T";
  }

  lemma NoModifier(list: string, w: nat)
    requires SkipSpace(list, 0) == w && w + 1 < |list| && !IsSpace(list[w])
    requires UpperChar(list[w]) != 'D' && UpperChar(list[w + 1]) != 'L'
    ensures ListPrefix(list) == w && TruePrefix(list) == w
  {
    hide Trim, StartsWithKeyword, SkipSpace;
    ListPrefixIs(list);
    assert w + 3 <= |list| ==> Upper(list[w..w + 3])[1] == UpperChar(list[w + 1]);
    assert Upper("all")[1] == 'L';
    assert w + 8 <= |list| ==> Upper(list[w..w + 8])[0] == UpperChar(list[w]);
    assert Upper("distinct")[0] == 'D';
  }

  /** The driver finds the list at the `x` of `ax`. */
  lemma ShiftedIsRead()
    ensures ParseSelect(SHIFTED) == Some(Parts(8, 8, 10, TableRef("", "T", "", "")))
    ensures TrueList(SHIFTED) == Some(Span(7, 10))
    ensures SHIFTED[8..10] == "x "
  {
    hide LeadingSelectListStart, FindKeyword, ParseTableRef, ListPrefix, ParseSelect, TrueStart, TruePrefix;
    ShiftedStart();
    ShiftedFrom(6);
    ShiftedFrom(8);
    ShiftedTable();
    assert SHIFTED[10 + 4..] == " t  ";
    assert SHIFTED[8..10] == "x " && SHIFTED[6..10] == " ax ";
    ShiftedSpaces();
    NoModifier("x ", 0);
    NoModifier(" ax ", 1);
    ParseIs(SHIFTED, 8, 10, TableRef("", "T", "", ""));
  }

  lemma ShiftedSpaces()
    ensures SkipSpace("x ", 0) == 0 && SkipSpace(" ax ", 0) == 1
  {
    SkipSpaceIs("x ", 0, 0);
    SkipSpaceIs(" ax ", 0, 1);
  }

  lemma OneColumn()
    ensures SplitList("x ") == ["x"]
  {
    hide At, SplitList;
    PlainOk("x");
    TrimFixed("x");
    ListTextSplits("", ["x"]);
    assert "" + ListText(["x"]) == "x ";
  }

  lemma ColumnX(ref: TableRef)
    ensures ParseColumn("x") == Some(ColumnItem("", Token("X", "x", false), "")) && ParseStar("x") == None
    ensures QualifierMatches("", ref)
  {
    hide ReadToken;
    TrimFixed("x");
    TrimFixed("");
    BareToken("x", 0, 0, "x");
    assert Upper("x") == "X";
    assert SkipSpace("x", 1) == 1;
  }

  lemma XmlIsX()
    ensures XmlColumn(AX_AND_X, Key("X")) == Some(AX_AND_X[1]) && HaveXMLType(AX_AND_X)
  {
    TrimFixed("XMLTYPE");
    assert Upper("XMLTYPE") == "XMLTYPE";
    assert IsXMLType(AX_AND_X[1].dataType);
  }

  lemma ItemX(ref: TableRef)
    ensures IsBareXmlColumn("x", AX_AND_X, ref) && !IsMatchingStar("x", ref)
    ensures RewriteXmlColumn("x", AX_AND_X, ref) == SerializeExpression(QuoteIdentifier("X"), QuoteIdentifier("X"))
  {
    hide ParseColumn, ParseStar, QualifierMatches, XmlColumn, HaveXMLType, Key, SerializeExpression, QuoteIdentifier;
    ColumnX(ref);
    XmlIsX();
    TrimFixed("");
  }

  lemma ShiftedItems(ref: TableRef, load: Loader)
    requires load(ref.schema, ref.table) == Ok(AX_AND_X)
    ensures NewItems("x ", ref, load) == Ok(Some([SerializeExpression(QuoteIdentifier("X"), QuoteIdentifier("X"))]))
  {
    hide SplitList, ParseColumn, ParseStar, QualifierMatches, XmlColumn, HaveXMLType, SerializeExpression,
      QuoteIdentifier, IsBareXmlColumn, IsMatchingStar, RewriteXmlColumn;
    OneColumn();
    ColumnX(ref);
    XmlIsX();
    ItemX(ref);
    var items := ["x"];
    assert items[0] == "x" && items[1..] == [];
    assert NeedsRewrite(items[0], AX_AND_X, ref);
    assert ParseColumn(items[0]).Some? && MayReferenceXml(items);
    assert RewriteItem("x", AX_AND_X, ref) == [SerializeExpression(QuoteIdentifier("X"), QuoteIdentifier("X"))];
    assert RewriteItems([], AX_AND_X, ref) == [];
    assert RewriteItems(items, AX_AND_X, ref) == [SerializeExpression(QuoteIdentifier("X"), QuoteIdentifier("X"))];
  }

  /** The rewrite of this text replaces the `x` of `ax`; its select list is `ax`. */
  lemma EditInsideIdentifier(load: Loader)
    requires load("", "T") == Ok(AX_AND_X)
    ensures SelectEdits(SHIFTED, load, 0) == Ok([Edit(0, 18, 8, 10, NEW_LIST)])
    ensures TrueList(SHIFTED) == Some(Span(7, 10)) && !OffsetFallsRight(SHIFTED)
  {
    hide ParseSelect, NewItems, TrueList, OffsetFallsRight, SerializeExpression, WithList;
    ShiftedIsRead();
    ReadListIsTrue(SHIFTED);
    ShiftedItems(TableRef("", "T", "", ""), load);
  }

  // ---- the same text in parentheses ----

  lemma NestedIsNoSelect()
    ensures ParseSelect(NESTED) == None
  {
    var s := NESTED;
    assert SkipWhite(s, 0) == 0;
    assert LeadEnd(s, 0) == 0;
    assert Upper(s[0..6])[0] == '(' && Upper("select")[0] == 'S';
    ListStartIs(s);
  }

  lemma NestedParen()
    ensures At(NESTED, 0, 0).mode == Code && MatchingParen(NESTED, 0) == 19
  {
    hide At;
    var s := NESTED;
    AtStart(s, 0);
    AfterOpenAt(s);
    PlainKeeps(s, 0, 1, 19);
    ClosesAt(s, 19);
  }

  lemma ClosesAt(s: string, r: nat)
    requires 0 < r < |s| && s[0] == '(' && s[r] == ')' && At(s, 0, r) == Scan(Code, 1)
    requires forall p | 0 <= p < r :: s[p] != ')'
    ensures MatchingParen(s, 0) == r
  {
    hide At;
    FirstCloseIs(s, 0, 0, r);
  }

  lemma NestedText()
    ensures NESTED[1..19] == SHIFTED
  {
  }

  lemma AfterOpenAt(s: string)
    requires s != "" && s[0] == '('
    ensures At(s, 0, 1) == Scan(Code, 1)
  {
  }

  lemma NestedIs(load: Loader)
    requires SelectEdits(SHIFTED, load, 1) == Ok([Edit(0, 18, 8, 10, NEW_LIST)])
    ensures NestedEdits(NESTED, load, 0, 0) == Ok(Some([Edit(1, 19, 9, 11, NEW_LIST)]))
  {
    hide SelectEdits, At, MatchingParen, SerializeExpression, StartsWithKeyword;
    NestedParen();
    NestedText();
    ShiftedSelects();
    assert NestedEdits(NESTED, load, 0, 20) == Ok(Some([]));
    assert InnerEdits(NESTED, load, 0, 0, 19) == Ok([Edit(0, 18, 8, 10, NEW_LIST)]);
    assert Shifted([Edit(0, 18, 8, 10, NEW_LIST)], 1) + [] == [Edit(1, 19, 9, 11, NEW_LIST)];
  }

  lemma ShiftedSelects()
    ensures SelectAfterComments(SHIFTED)
  {
    ShiftedStart();
  }

  /** So a nested query is cut inside an identifier. */
  lemma NestedEditInsideIdentifier(load: Loader)
    requires load("", "T") == Ok(AX_AND_X)
    ensures SelectEdits(NESTED, load, 0) == Ok([Edit(1, 19, 9, 11, NEW_LIST)])
    ensures Apply(NESTED, 0, [Edit(1, 19, 9, 11, NEW_LIST)]) == "(select a" + NEW_LIST + "from t  )"
  {
    hide ParseSelect, NestedEdits, SerializeExpression;
    NestedIsNoSelect();
    InnerAtOne(load);
    NestedIs(load);
    var edits := [Edit(1, 19, 9, 11, NEW_LIST)];
    assert edits[1..] == [];
    assert NESTED[0..9] == "(select a" && NESTED[11..] == "from t  )";
  }

  lemma InnerAtOne(load: Loader)
    requires load("", "T") == Ok(AX_AND_X)
    ensures SelectEdits(SHIFTED, load, 1) == Ok([Edit(0, 18, 8, 10, NEW_LIST)])
  {
    hide ParseSelect, NewItems, SerializeExpression, WithList;
    ShiftedIsRead();
    ShiftedItems(TableRef("", "T", "", ""), load);
  }
}
