/** The one way the rewrite of a SELECT over a single table goes wrong, shown on a statement. */
module OracleGlued {
  import opened Text
  import opened SqlLexer
  import opened OracleTokens
  import opened OracleSelect
  import opened OracleItems
  import opened OracleReparse
  import opened OracleRoundTrip
  import opened OracleIdempotence
  import opened OracleMeaning

  const GLUED := "select* from t d"
  const GLUED_PARTS := Parts(6, 6, 8, TableRef("", "T", "D", "d"))
  const XML_TABLE := [Column("X", "XMLTYPE")]

  lemma GluedIsRead()
    ensures ParseSelect(GLUED) == Some(GLUED_PARTS) && NoTrailingSpace(GLUED) && PlainSpaces(GLUED[6..8])
    ensures ListOf(GLUED, GLUED_PARTS) == "* "
  {
    hide LeadingSelectListStart, FindKeyword, ParseTableRef, ListPrefix, ParseSelect;
    GluedStart();
    GluedFrom();
    GluedTable();
    GluedPrefix();
    assert GLUED[8 + 4..] == " t d";
    assert GLUED[6..8] == "* ";
    ParseIs(GLUED, 6, 8, TableRef("", "T", "D", "d"));
  }

  lemma GluedStart()
    ensures LeadingSelectListStart(GLUED) == 6
  {
    var s := GLUED;
    assert SkipWhite(s, 0) == 0;
    assert AfterComment(s, 0) == None;
    assert LeadEnd(s, 0) == 0;
    assert s[0..6] == "select";
    ListStartIs(s);
  }

  lemma GluedFrom()
    ensures FindKeyword(GLUED, 6, "from") == 8
  {
    var s := GLUED;
    PlainKeeps(s, 6, 6, 8);
    assert s[8..8 + 4] == "from";
    assert KeywordHit(s, 6, 8, "from");
    forall q | 6 <= q < 8 ensures !KeywordHit(s, 6, q, "from") {
      FromHitShape(s, 6, q);
    }
    FirstKeywordIs(s, 6, 6, 8, "from");
  }

  lemma BareToken(s: string, from: nat, at: nat, text: string)
    requires from <= at < |s| && at + |text| <= |s| && text != "" && IsIdentifierStart(text[0])
    requires (forall i | from <= i < at :: IsSQLSpace(s[i])) && s[at..at + |text|] == text
    requires forall i | 0 <= i < |text| :: IsIdentifierPart(text[i])
    requires at + |text| < |s| ==> !IsIdentifierPart(s[at + |text|])
    ensures ReadToken(s, from) == TokenAt(Token(Upper(text), text, false), at + |text|)
  {
    assert s[at] == s[at..at + |text|][0];
    SkipSpaceIs(s, from, at);
    assert forall i | at <= i < at + |text| :: s[i] == s[at..at + |text|][i - at];
    assert IdentifierEnd(s, at + 1) == at + |text|;
  }

  lemma GluedTable()
    ensures ParseTableRef(" t d") == Some(TableRef("", "T", "D", "d"))
  {
    hide ReadToken, IsClause, StartsJoin, NextKeywordIsClause;
    var s := " t d";
    SkipSpaceIs(s, 0, 1);
    BareToken(s, 1, 1, "t");
    SkipSpaceIs(s, 2, 3);
    assert SkipSpace(s, 3) == 3 && SkipSpace(s, 4) == 4;
    BareToken(s, 3, 3, "d");
    assert Upper("t") == "T" && Upper("d") == "D";
    assert s[3..] == "d" && s[4..] == "";
    SingleLetter();
  }

  lemma SingleLetter()
    ensures !NextKeywordIsClause("d") && !StartsJoin("d") && !StartsJoin("") && !IsClause("D")
  {
    TrimFixed("d");
    TrimFixed("D");
    TrimFixed("");
    BareToken("d", 0, 0, "d");
    assert Upper("d") == "D" && Upper("D") == "D";
  }

  lemma GluedPrefix()
    ensures ListPrefix("* ") == 0
  {
    var list := "* ";
    assert SkipSpace(list, 0) == 0;
    ListPrefixIs(list);
    FirstCharNotWord(list, "all");
    FirstCharNotWord(list, "distinct");
  }

  lemma GluedRewritable()
    ensures Rewritable(GLUED, GLUED_PARTS)
    ensures SplitList("* ") == ["*"]
  {
    hide ParseSelect, ListOf, PlainSpaces, NoTrailingSpace;
    GluedIsRead();
    StarList();
    assert Upper("d")[0] == 'D' && Upper("FROM") == "FROM";
    assert !WordAt("d.", 0, "distinct") && !WordAt("d.", 0, "all");
  }

  lemma StarList()
    ensures SplitList("* ") == ["*"] && CommentsEnd(["*"])
  {
    StarNoLine();
    hide At, SplitList;
    PlainOk("*");
    TrimFixed("*");
    ListTextSplits("", ["*"]);
    assert "" + ListText(["*"]) == "* ";
  }

  lemma StarNoLine()
    ensures EndsInCode("*")
  {
    assert At("*", 0, 1) == TOP;
  }

  lemma GluedGood()
    ensures var items := RewriteItems(["*"], XML_TABLE, GLUED_PARTS.ref); GoodList(items)
    ensures Bounds(GLUED, GLUED_PARTS) && Readable(GLUED, GLUED_PARTS)
  {
    hide Rewritable, ParseSelect, ListOf, SplitList, RewriteItems, Readable, GoodList, RewriteItem, AnyNeedsRewrite,
      PlainSpaces, NoTrailingSpace, CommentsEnd;
    GluedIsRead();
    GluedRewritable();
    RewritableFacts(GLUED, GLUED_PARTS);
    NewListGood(GLUED, GLUED_PARTS, XML_TABLE);
  }

  lemma GluedHolds()
    requires IsMatchingStar("*", GLUED_PARTS.ref)
    ensures Glued(GLUED, GLUED_PARTS, RewriteItems(["*"], XML_TABLE, GLUED_PARTS.ref))
  {
    hide IsMatchingStar, RewriteItems;
    GluedItems(GLUED_PARTS.ref);
    assert GLUED[6 - 1] == 't';
  }

  lemma GluedText()
    requires IsMatchingStar("*", GLUED_PARTS.ref)
    ensures ParseSelect(WithList(GLUED, GLUED_PARTS, RewriteItems(["*"], XML_TABLE, GLUED_PARTS.ref))) == None
  {
    hide ParseSelect, RewriteItems, Readable, GoodList, WithList, IsMatchingStar, Glued, Bounds;
    GluedGood();
    GluedHolds();
    GluedToSelect(GLUED, GLUED_PARTS, RewriteItems(["*"], XML_TABLE, GLUED_PARTS.ref));
  }

  /** The statement that is not preserved: SELECT followed by the star without white space. The
      rewrite reports success, and its text no longer starts with SELECT. */
  lemma GluedIsNotPreserved(load: Loader)
    requires load("", "T") == Ok(XML_TABLE)
    ensures RewriteDirect(GLUED, load).Ok? && RewriteDirect(GLUED, load).value.changed
    ensures ParseSelect(RewriteDirect(GLUED, load).value.text) == None
  {
    hide ParseSelect, SplitList, RewriteItems, NewItems, WithList, IsMatchingStar, Rewritable, ListOf, PlainSpaces,
      NoTrailingSpace;
    StarIsStar(GLUED_PARTS.ref);
    GluedIsRead();
    GluedRewritable();
    GluedText();
    NewItemsIs("* ", GLUED_PARTS.ref, load);
    GluedSlice();
  }

  lemma GluedSlice()
    ensures GLUED[6..8] == "* "
  {
  }

  lemma StarIsStar(ref: TableRef)
    ensures IsMatchingStar("*", ref)
  {
    TrimFixed("*");
    TrimFixed("");
  }

  lemma GluedItems(ref: TableRef)
    requires IsMatchingStar("*", ref)
    ensures var items := RewriteItems(["*"], XML_TABLE, ref);
      items != [] && items[0] != "" && items[0][0] == 'X'
  {
    hide IsMatchingStar, ParseStar, ColumnRef;
    var c := XML_TABLE[0];
    assert Upper("XMLTYPE") == "XMLTYPE";
    TrimFixed("XMLTYPE");
    assert IsXMLType(c.dataType);
    assert c in XML_TABLE;
    XmlFound(XML_TABLE, c);
    assert ["*"][1..] == [];
    assert SelectColumn(c, XML_TABLE, ref)[0] == SERIALIZE_OPEN[0];
  }

  lemma NewItemsIs(list: string, ref: TableRef, load: Loader)
    requires load(ref.schema, ref.table) == Ok(XML_TABLE) && SplitList(list) == ["*"] && IsMatchingStar("*", ref)
    ensures NewItems(list, ref, load) == Ok(Some(RewriteItems(["*"], XML_TABLE, ref)))
  {
    hide SplitList, IsMatchingStar, ParseStar, RewriteItems;
    assert Upper("XMLTYPE") == "XMLTYPE";
    TrimFixed("XMLTYPE");
    assert IsXMLType(XML_TABLE[0].dataType);
    assert ["*"][0] == "*" && NeedsRewrite("*", XML_TABLE, ref);
    StarParses();
  }

  lemma StarParses()
    ensures ParseStar("*").Some?
  {
    TrimFixed("*");
  }
}
