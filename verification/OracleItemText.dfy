/** Select items in the words of SQL: which texts are a star or a bare column, and what each item becomes. */
module OracleItemText {
  import opened Text
  import opened SqlLexer
  import opened QuotedIdentifiers
  import opened OracleTokens
  import opened OracleSelect
  import opened OracleItems
  import opened OracleReparse
  import opened OracleRoundTrip
  import opened OracleRewritten
  import opened OracleTable

  // ---- the column ----

  /** A column's name with or without its qualifier, the blanks inside and the blanks behind. */
  ghost predicate ColumnText(pre: string, qualifier: string, c: Token) {
    || (qualifier == "" && exists gap :: OneName(pre, TableRef("", c.name, "", ""), "", c, gap))
    || (exists u: Token, g, h, gap ::
          TwoNames(pre, TableRef(u.name, c.name, "", ""), "", u, g, h, c, gap) && qualifier == u.text)
  }

  lemma OneColumnRead(pre: string, c: Token, gap: string, x: string)
    requires OneName(pre, TableRef("", c.name, "", ""), "", c, gap) && GoesOn(pre, x) && Trim(pre + x) == pre + x
    ensures ParseColumn(pre + x) == ItemAlias(pre + x, |pre|, ColumnItem("", c, ""))
  {
    hide ItemAlias, WellFormed, GoesOn, Blank, ReadToken, SkipSpace, Trim, NameIn;
    OneNameIn(pre, TableRef("", c.name, "", ""), "", c, gap, x);
    NameRead(pre + x, 0, 0, |c.text|, |pre|, c);
  }

  lemma ParseQualified(t: string, first: Token, next: nat, pos: nat, i: nat, second: Token, after: nat)
    requires Trim(t) == t && ReadToken(t, 0) == TokenAt(first, next) && SkipSpace(t, next) == pos < |t| && t[pos] == '.'
    requires SkipSpace(t, pos + 1) == i && ReadToken(t, i) == TokenAt(second, after)
    ensures ParseColumn(t) == ItemAlias(t, SkipSpace(t, after), ColumnItem(first.text, second, ""))
  {
    hide ItemAlias, ReadToken, SkipSpace, Trim;
  }

  lemma QualifiedColumnRead(pre: string, u: Token, g: string, h: string, c: Token, gap: string, x: string)
    requires TwoNames(pre, TableRef(u.name, c.name, "", ""), "", u, g, h, c, gap)
    requires GoesOn(pre, x) && Trim(pre + x) == pre + x
    ensures ParseColumn(pre + x) == ItemAlias(pre + x, |pre|, ColumnItem(u.text, c, ""))
  {
    hide ItemAlias, ParseColumn, WellFormed, GoesOn, Blank, Trim, NameIn, ReadToken, SkipSpace;
    var s := pre + x;
    TwoNamesIn(pre, TableRef(u.name, c.name, "", ""), "", u, g, h, c, gap, x);
    var b := |u.text|;
    var d := b + |g|;
    var e := d + 1 + |h|;
    NameRead(s, 0, 0, b, d, u);
    NameRead(s, d + 1, e, e + |c.text|, |pre|, c);
    ParseQualified(s, u, b, d, e, c, e + |c.text|);
  }

  lemma ColumnRead(pre: string, qualifier: string, c: Token, x: string)
    requires ColumnText(pre, qualifier, c) && GoesOn(pre, x) && Trim(pre + x) == pre + x
    ensures ParseColumn(pre + x) == ItemAlias(pre + x, |pre|, ColumnItem(qualifier, c, ""))
  {
    hide ParseColumn, ItemAlias, OneName, TwoNames, GoesOn, Trim;
    if u: Token, g, h, gap :|
      TwoNames(pre, TableRef(u.name, c.name, "", ""), "", u, g, h, c, gap) && qualifier == u.text {
      QualifiedColumnRead(pre, u, g, h, c, gap, x);
    } else {
      var gap :| OneName(pre, TableRef("", c.name, "", ""), "", c, gap);
      OneColumnRead(pre, c, gap, x);
    }
  }

  /** A column on its own. */
  lemma ColumnAlone(pre: string, qualifier: string, c: Token)
    requires ColumnText(pre, qualifier, c) && Trim(pre) == pre
    ensures ParseColumn(pre) == Some(ColumnItem(qualifier, c, ""))
  {
    hide ParseColumn, ColumnText, Trim;
    assert pre + "" == pre;
    ColumnRead(pre, qualifier, c, "");
  }

  /** The text begins with AS, in any letter case. */
  predicate BeginsAs(x: string) { Begins(x, "AS") }

  lemma AsIs(x: string)
    requires x != "" ==> !IsSpace(x[0])
    ensures StartsWithKeyword(x, "as") <==> BeginsAs(x)
  {
    BeginsIs(x, "AS", "as");
  }

  lemma TokenEnds(pre: string, a: Token)
    requires WellFormed(a)
    ensures ReadToken(pre + a.text, |pre|) == TokenAt(a, |pre + a.text|) && Trim((pre + a.text)[|pre + a.text|..]) == ""
  {
    hide ReadToken;
    TokenReread(pre, a, "");
    assert pre + a.text + "" == pre + a.text;
    TrimFixed("");
  }

  /** A column and its alias, without AS. */
  lemma ColumnThenAlias(pre: string, qualifier: string, c: Token, a: Token)
    requires ColumnText(pre, qualifier, c) && WellFormed(a) && GoesOn(pre, a.text) && !BeginsAs(a.text)
    requires Trim(pre + a.text) == pre + a.text
    ensures ParseColumn(pre + a.text) == Some(ColumnItem(qualifier, c, a.text))
  {
    hide ParseColumn, ColumnText, Trim, ReadToken, WellFormed, GoesOn, BeginsAs, StartsWithKeyword;
    ColumnRead(pre, qualifier, c, a.text);
    TokenStarts(a);
    AsIs(a.text);
    SuffixIs(pre, a.text);
    TokenEnds(pre, a);
  }

  /** A column and its alias after AS, in any letter case. */
  lemma ColumnThenAs(pre: string, qualifier: string, c: Token, word: string, gap: string, a: Token)
    requires ColumnText(pre, qualifier, c) && Spelled(word, "AS") && Blank(gap) && WellFormed(a)
    requires GoesOn(pre, word + gap + a.text) && BeginsAs(word + gap + a.text)
    requires Trim(pre + (word + gap + a.text)) == pre + (word + gap + a.text)
    ensures ParseColumn(pre + (word + gap + a.text)) == Some(ColumnItem(qualifier, c, a.text))
  {
    hide ParseColumn, ColumnText, Trim, ReadToken, WellFormed, GoesOn, BeginsAs, StartsWithKeyword, SkipSpace, Blank;
    var x := word + gap + a.text;
    var s := pre + x;
    ColumnRead(pre, qualifier, c, x);
    AsWord(word);
    assert x[0] == word[0];
    AsIs(x);
    SuffixIs(pre, x);
    assert s == pre + word + gap + a.text;
    StartsNoBlank(a);
    BlankSkips(pre + word, gap, a.text);
    TokenEnds(pre + word + gap, a);
  }

  lemma AsWord(word: string)
    requires Spelled(word, "AS")
    ensures |word| == 2 && !IsSpace(word[0])
  {
    UpperIsBare(word, "AS");
  }

  /** The alias behind a column: a token, with or without AS before it. */
  ghost predicate AliasText(tail: string, alias: string) {
    exists a: Token | WellFormed(a) && a.text == alias ::
      tail == a.text || exists word, gap | Spelled(word, "AS") && Blank(gap) :: tail == word + gap + a.text
  }

  lemma TokenBetween(t: string, i: nat)
    requires ReadToken(t, i).TokenAt?
    ensures var r := ReadToken(t, i); var st := SkipSpace(t, i); var pos := SkipSpace(t, r.next);
      && i <= st < r.next <= pos <= |t| && WellFormed(r.token)
      && Blank(t[i..st]) && t[st..r.next] == r.token.text && Blank(t[r.next..pos])
  {
    hide WellFormed, ReadToken;
    ReadTokenShape(t, i);
    var r := ReadToken(t, i);
    assert forall k | i <= k < SkipSpace(t, i) :: IsSQLSpace(t[k]);
  }

  lemma NoBlankStart(t: string)
    requires Trim(t) == t
    ensures SkipSpace(t, 0) == 0
  {
    TrimmedFirst(t);
  }

  lemma TrimmedFirst(t: string)
    requires Trim(t) == t
    ensures t != "" ==> !IsSpace(t[0])
  {
    hide Trim;
    var _ := TrimSplits(t);
  }

  lemma ThreeSlices(t: string, i: nat, j: nat, k: nat)
    requires i <= j <= k <= |t|
    ensures t[i..k] == t[i..j] + t[j..k] && t[..k] == t[..i] + t[i..j] + t[j..k]
  {
  }

  lemma TailForm(t: string, pos: nat, c: ColumnItem)
    requires Trim(t) == t && pos < |t| && ItemAlias(t, pos, c).Some? && !IsSpace(t[pos])
    ensures AliasText(t[pos..], ItemAlias(t, pos, c).value.alias)
  {
    hide Trim, ReadToken, WellFormed, StartsWithKeyword, Blank;
    var isAs := StartsWithKeyword(t[pos..], "as");
    var from := if isAs then SkipSpace(t, pos + 2) else pos;
    var r := ReadToken(t, from);
    EndsThere(t, r.next);
    TokenBetween(t, from);
    if isAs {
      AsForm(t, pos);
    } else {
      assert SkipSpace(t, pos) == pos;
      assert t[pos..] == r.token.text;
    }
  }

  lemma AsForm(t: string, pos: nat)
    requires Trim(t) == t && pos < |t| && StartsWithKeyword(t[pos..], "as")
    requires var r := ReadToken(t, SkipSpace(t, pos + 2)); r.TokenAt? && r.next == |t| && !IsSpace(t[pos])
    ensures AliasText(t[pos..], ReadToken(t, SkipSpace(t, pos + 2)).token.text)
  {
    hide Trim, ReadToken, WellFormed, StartsWithKeyword, Blank, Begins, AliasText;
    var i := SkipSpace(t, pos + 2);
    var a := ReadToken(t, i).token;
    TokenBetween(t, i);
    ReadTokenShape(t, i);
    var x := t[pos..];
    AsStarts(x);
    var word, gap := t[pos..pos + 2], t[pos + 2..i];
    assert word == x[..2];
    GapIsBlank(t, pos + 2);
    assert SkipSpace(t, i) == i;
    assert x == word + gap + a.text;
    AliasWithAs(word, gap, a);
  }

  lemma AliasWithAs(word: string, gap: string, a: Token)
    requires Spelled(word, "AS") && Blank(gap) && WellFormed(a)
    ensures AliasText(word + gap + a.text, a.text)
  {
    hide WellFormed, Blank, Spelled;
  }

  lemma GapIsBlank(t: string, i: nat)
    requires i <= |t|
    ensures i <= SkipSpace(t, i) <= |t| && Blank(t[i..SkipSpace(t, i)])
  {
    assert forall k | i <= k < SkipSpace(t, i) :: IsSQLSpace(t[k]);
  }

  lemma AsStarts(x: string)
    requires StartsWithKeyword(x, "as") && x != "" && !IsSpace(x[0])
    ensures |x| >= 2 && Spelled(x[..2], "AS")
  {
    hide StartsWithKeyword;
    AsIs(x);
  }

  /** Nothing else is read as a column: a text so read is a column's name with or without its qualifier, and
      nothing more or an alias with or without AS. */
  lemma ColumnForm(t: string) returns (pre: string, tail: string)
    requires Trim(t) == t && PlainSpaces(t) && ParseColumn(t).Some?
    ensures var c := ParseColumn(t).value;
      && t == pre + tail && ColumnText(pre, c.qualifier, c.column)
      && if tail == "" then c.alias == "" else AliasText(tail, c.alias)
  {
    hide At, Trim, ParseColumn, ReadToken, WellFormed, Blank, AliasText, ColumnText;
    AtStart(t, 0);
    NoBlankStart(t);
    ColumnStarts(t);
    TokenTop(t, 0);
    var next := ReadToken(t, 0).next;
    SpaceTop(t, next);
    var pos := SkipSpace(t, next);
    if pos < |t| && t[pos] == '.' {
      pre, tail := QualifiedColumnForm(t, next, pos);
    } else {
      pre, tail := OneColumnForm(t, next, pos);
    }
  }

  lemma ColumnStarts(t: string)
    requires Trim(t) == t && ParseColumn(t).Some?
    ensures ReadToken(t, 0).TokenAt?
  {
    hide ReadToken, ItemAlias;
  }

  lemma OneColumnForm(t: string, next: nat, pos: nat) returns (pre: string, tail: string)
    requires Trim(t) == t && PlainSpaces(t) && ParseColumn(t).Some? && SkipSpace(t, 0) == 0
    requires ReadToken(t, 0).TokenAt? && ReadToken(t, 0).next == next && SkipSpace(t, next) == pos <= |t|
        && At(t, 0, pos) == TOP
    requires pos == |t| || t[pos] != '.'
    ensures var c := ParseColumn(t).value;
      && t == pre + tail && ColumnText(pre, c.qualifier, c.column)
      && if tail == "" then c.alias == "" else AliasText(tail, c.alias)
  {
    hide At, Trim, ItemAlias, ReadToken, WellFormed, Blank, AliasText, ColumnText;
    TokenBetween(t, 0);
    pre, tail := t[..pos], t[pos..];
    OneForm(t, ReadToken(t, 0).token, next, pos);
    AliasForm(t, pos, ColumnItem("", ReadToken(t, 0).token, ""));
  }

  lemma QualifiedColumnForm(t: string, next: nat, pos: nat) returns (pre: string, tail: string)
    requires Trim(t) == t && PlainSpaces(t) && ParseColumn(t).Some? && SkipSpace(t, 0) == 0
    requires ReadToken(t, 0).TokenAt? && ReadToken(t, 0).next == next && SkipSpace(t, next) == pos < |t|
        && At(t, 0, pos) == TOP
    requires t[pos] == '.'
    ensures var c := ParseColumn(t).value;
      && t == pre + tail && ColumnText(pre, c.qualifier, c.column)
      && if tail == "" then c.alias == "" else AliasText(tail, c.alias)
  {
    hide At, Trim, ItemAlias, ReadToken, WellFormed, Blank, AliasText, ColumnText;
    var first := ReadToken(t, 0).token;
    TokenBetween(t, 0);
    PlainStep(t, pos);
    var i := SkipSpace(t, pos + 1);
    GapIsBlank(t, pos + 1);
    TokenTop(t, i);
    TokenBetween(t, i);
    assert SkipSpace(t, i) == i;
    var second := ReadToken(t, i);
    SpaceTop(t, second.next);
    var n := SkipSpace(t, second.next);
    pre, tail := t[..n], t[n..];
    QualifiedForm(t, first, next, pos, i, second.token, second.next, n);
    AliasForm(t, n, ColumnItem(first.text, second.token, ""));
  }

  lemma PlainStep(t: string, i: nat)
    requires i < |t| && At(t, 0, i) == TOP && IsPlainChar(t[i])
    ensures At(t, 0, i + 1) == TOP && At(t, 0, SkipSpace(t, i + 1)) == TOP
  {
    hide At;
    PlainKeeps(t, 0, i, i + 1);
    SpaceTop(t, i + 1);
  }

  lemma AliasForm(t: string, pos: nat, c: ColumnItem)
    requires Trim(t) == t && PlainSpaces(t) && pos <= |t| && At(t, 0, pos) == TOP && ItemAlias(t, pos, c).Some?
    requires c.alias == "" && (pos < |t| ==> !IsSQLSpace(t[pos]))
    ensures var r := ItemAlias(t, pos, c).value;
      && r.qualifier == c.qualifier && r.column == c.column
      && if t[pos..] == "" then r.alias == "" else AliasText(t[pos..], r.alias)
  {
    hide At, Trim, AliasText;
    if pos < |t| {
      TailForm(t, pos, c);
    }
  }

  lemma OneForm(t: string, a: Token, next: nat, pos: nat)
    requires next <= pos <= |t| && WellFormed(a) && t[0..next] == a.text && Blank(t[next..pos])
    ensures ColumnText(t[..pos], "", a)
  {
    hide WellFormed, Blank;
    EmptyIsBlank();
    assert t[..pos] == "" + t[0..next] + t[next..pos];
    assert OneName(t[..pos], TableRef("", a.name, "", ""), "", a, t[next..pos]);
  }

  lemma QualifiedForm(t: string, u: Token, next: nat, pos: nat, i: nat, a: Token, after: nat, n: nat)
    requires next <= pos < i <= after <= n <= |t| && WellFormed(u) && WellFormed(a)
    requires t[0..next] == u.text && Blank(t[next..pos]) && t[pos] == '.' && Blank(t[pos + 1..i])
    requires t[i..after] == a.text && Blank(t[after..n])
    ensures ColumnText(t[..n], u.text, a)
  {
    hide WellFormed, Blank;
    EmptyIsBlank();
    SixSlices(t, next, pos, i, after, n);
    assert TwoNames(t[..n], TableRef(u.name, a.name, "", ""), "", u, t[next..pos], t[pos + 1..i], a, t[after..n]);
  }

  lemma SixSlices(t: string, next: nat, pos: nat, i: nat, after: nat, n: nat)
    requires next <= pos < i <= after <= n <= |t| && t[pos] == '.'
    ensures t[..n] == "" + t[0..next] + t[next..pos] + "." + t[pos + 1..i] + t[i..after] + t[after..n]
  {
    assert t[pos..pos + 1] == ".";
    ThreeSlices(t, next, pos, pos + 1);
    ThreeSlices(t, pos + 1, i, after);
    assert t[..n] == t[..next] + t[next..pos] + t[pos..pos + 1] + t[pos + 1..i] + t[i..after] + t[after..n];
  }

  // ---- the star ----

  lemma ParseQualifiedStar(t: string, q: Token, next: nat, pos: nat, star: nat)
    requires Trim(t) == t && |t| > 1 && ReadToken(t, 0) == TokenAt(q, next) && SkipSpace(t, next) == pos < |t|
        && t[pos] == '.'
    requires SkipSpace(t, pos + 1) == star && star + 1 == |t| && t[star] == '*'
    ensures ParseStar(t) == Some(q.text)
  {
    hide ReadToken, SkipSpace;
    TrimFixed("");
    assert t[star + 1..] == "";
  }

  lemma QualifiedStar(u: Token, g: string, h: string)
    requires WellFormed(u) && Blank(g) && Blank(h)
    ensures ParseStar(u.text + g + "." + h + "*") == Some(u.text)
  {
    hide ParseStar, WellFormed, Blank, ReadToken, SkipSpace, Trim, NameIn;
    var head := u.text + g + ".";
    var s := head + h + "*";
    EmptyIsBlank();
    assert s == "" + u.text + g + ("." + (h + "*"));
    FirstNameIn("", u, g, h + "*");
    NameRead(s, 0, 0, |u.text|, |u.text| + |g|, u);
    StarSkips(head, h);
    StarTrimmed(u, s);
    ParseQualifiedStar(s, u, |u.text|, |u.text| + |g|, |s| - 1);
  }

  lemma StarSkips(head: string, h: string)
    requires Blank(h)
    ensures var s := head + h + "*"; SkipSpace(s, |head|) == |s| - 1 && s[|s| - 1] == '*'
  {
    BlankSkips(head, h, "*");
  }

  /** A star alone, or behind a qualifier and a dot with any blanks between. */
  lemma StarRead(u: Token, g: string, h: string)
    requires WellFormed(u) && Blank(g) && Blank(h)
    ensures ParseStar("*") == Some("") && ParseStar(u.text + g + "." + h + "*") == Some(u.text)
  {
    hide ParseStar, WellFormed, Blank;
    StarAlone();
    QualifiedStar(u, g, h);
  }

  lemma StarAlone()
    ensures ParseStar("*") == Some("")
  {
    TrimFixed("*");
  }

  lemma StarTrimmed(u: Token, s: string)
    requires WellFormed(u) && u.text <= s && s != "" && s[|s| - 1] == '*'
    ensures Trim(s) == s
  {
    hide WellFormed;
    TokenStarts(u);
    assert s[0] == u.text[0];
    TrimFixed(s);
  }

  lemma EmptyIsBlank()
    ensures Blank("")
  {
  }

  // ---- which items are rewritten ----

  /** A qualifier names the table by the table's name or by its alias, ignoring letter case. */
  lemma QualifierIs(q: Token, ref: TableRef)
    requires WellFormed(q)
    ensures QualifierMatches("", ref)
    ensures QualifierMatches(q.text, ref) <==>
      EqualFold(Trim(q.name), Trim(ref.table)) || (ref.alias != "" && EqualFold(Trim(q.name), Trim(ref.alias)))
  {
    hide WellFormed, Trim, Unquote;
    TrimFixed("");
    TokenStarts(q);
    TrimFixed(q.text);
    UnquoteToken(q);
  }

  /** A type is XMLTYPE with or without its schema, in any letter case and with any white space around. */
  lemma XmlTypeIs(lead: string, name: string, tail: string)
    requires (forall i | 0 <= i < |lead| :: IsSpace(lead[i])) && (forall i | 0 <= i < |tail| :: IsSpace(tail[i]))
    requires name != "" && !IsSpace(name[0]) && !IsSpace(name[|name| - 1])
    ensures IsXMLType(lead + name + tail) <==> Spelled(name, "XMLTYPE") || Spelled(name, "SYS.XMLTYPE")
  {
    hide Trim;
    TrimPad(lead, name, tail);
  }

  lemma TrimPad(lead: string, name: string, tail: string)
    requires (forall i | 0 <= i < |lead| :: IsSpace(lead[i])) && (forall i | 0 <= i < |tail| :: IsSpace(tail[i]))
    requires name != "" && !IsSpace(name[0]) && !IsSpace(name[|name| - 1])
    ensures Trim(lead + name + tail) == name
  {
    hide Trim;
    assert lead + name + tail == lead + (name + tail);
    TrimSkips(lead, name + tail);
    TrimDropsTrailing(name + tail, |name|);
    assert (name + tail)[..|name|] == name;
    TrimFixed(name);
  }

  // ---- what they become ----

  /** A column of the list has this name, ignoring letter case and outer white space, and the type XMLTYPE. */
  predicate IsXmlName(columns: seq<Column>, name: string) {
    exists i | 0 <= i < |columns| :: EqualFold(Trim(columns[i].name), Trim(name)) && IsXMLType(columns[i].dataType)
  }

  lemma {:induction false} XmlNameIs(columns: seq<Column>, name: string)
    ensures XmlColumn(columns, Key(name)).Some? <==> IsXmlName(columns, name)
    decreases |columns|
  {
    hide IsXMLType, Trim;
    if columns != [] {
      var n := |columns| - 1;
      XmlNameIs(columns[..n], name);
      if IsXMLType(columns[n].dataType) && Key(columns[n].name) == Key(name) {
        assert EqualFold(Trim(columns[n].name), Trim(name));
      } else if IsXmlName(columns, name) {
        var i :| 0 <= i < |columns| && EqualFold(Trim(columns[i].name), Trim(name)) && IsXMLType(columns[i].dataType);
        assert i < n && columns[..n][i] == columns[i];
      }
    }
  }

  /** How a column is written: the qualifier and a dot, if there is one, and the delimited name. */
  function Reference(qualifier: string, name: string): string {
    (if qualifier == "" then "" else qualifier + ".") + QuoteIdentifier(name)
  }

  /** What stands for one column of an expanded star. */
  predicate StarCell(text: string, column: Column, columns: seq<Column>, ref: TableRef) {
    text == if IsXmlName(columns, column.name)
      then "XMLSERIALIZE(CONTENT " + Reference(ref.aliasText, column.name) + " AS CLOB) AS "
          + QuoteIdentifier(column.name)
      else Reference(ref.aliasText, column.name)
  }

  lemma SerializeWords(ref: string, alias: string)
    ensures SerializeExpression(ref, alias) == "XMLSERIALIZE(CONTENT " + ref + " AS CLOB) AS " + alias
  {
  }

  lemma ReferenceIs(qualifier: string, name: string)
    requires qualifier == "" || TokenText(qualifier)
    ensures ColumnRef(qualifier, name) == Reference(qualifier, name)
  {
    hide TokenText, QuoteIdentifier, Trim;
    RefInert(qualifier, name);
    assert "" + QuoteIdentifier(name) == QuoteIdentifier(name);
    assert qualifier + "." + QuoteIdentifier(name) == (qualifier + ".") + QuoteIdentifier(name);
  }

  lemma StarCellIs(column: Column, columns: seq<Column>, ref: TableRef)
    requires ref.aliasText == "" || TokenText(ref.aliasText)
    ensures StarCell(SelectColumn(column, columns, ref), column, columns, ref)
  {
    hide TokenText, QuoteIdentifier, ColumnRef, SerializeExpression, XmlColumn, IsXmlName, Key, Reference;
    XmlNameIs(columns, column.name);
    ReferenceIs(ref.aliasText, column.name);
    SerializeWords(ColumnRef(ref.aliasText, column.name), QuoteIdentifier(column.name));
  }

  /** A star that means the table becomes all its columns, in order; the XML ones serialized under their
      own names. */
  lemma StarBecomes(item: string, columns: seq<Column>, ref: TableRef)
    requires ParseStar(item).Some? && QualifierMatches(ParseStar(item).value, ref)
    requires ref.aliasText == "" || TokenText(ref.aliasText)
    ensures var r := RewriteItem(item, columns, ref);
      |r| == |columns| && forall i | 0 <= i < |columns| :: StarCell(r[i], columns[i], columns, ref)
  {
    hide TokenText, ParseStar, QualifierMatches, SelectColumn, StarCell;
    var r := RewriteItem(item, columns, ref);
    forall i | 0 <= i < |columns| ensures StarCell(r[i], columns[i], columns, ref) {
      StarCellIs(columns[i], columns, ref);
    }
  }

  lemma {:induction false} XmlMember(columns: seq<Column>, name: string)
    requires XmlColumn(columns, Key(name)).Some?
    ensures var m := XmlColumn(columns, Key(name)).value.name;
      EqualFold(Trim(m), Trim(name)) && exists i | 0 <= i < |columns| ::
          columns[i].name == m && IsXMLType(columns[i].dataType)
  {
    hide IsXMLType, Trim;
    var c := XmlColumn(columns, Key(name)).value;
    var i :| 0 <= i < |columns| && columns[i] == c;
  }

  /** A column that means the table and has the type XMLTYPE is serialized, by the name that the table gives
      it, under its alias or, without one, under that name; every other item stays as it is. */
  lemma ColumnBecomes(item: string, columns: seq<Column>, ref: TableRef) returns (name: string)
    requires ParseStar(item).None? && ParseColumn(item).Some?
    requires var c := ParseColumn(item).value; c.qualifier == "" || TokenText(c.qualifier)
    ensures var c := ParseColumn(item).value;
      if QualifierMatches(c.qualifier, ref) && IsXmlName(columns, c.column.name)
      then
        && EqualFold(Trim(name), Trim(c.column.name))
        && (exists i | 0 <= i < |columns| :: columns[i].name == name && IsXMLType(columns[i].dataType))
        && RewriteItem(item, columns, ref) ==
          ["XMLSERIALIZE(CONTENT " + Reference(c.qualifier, name) + " AS CLOB) AS "
            + (if c.alias == "" then QuoteIdentifier(name) else c.alias)]
      else RewriteItem(item, columns, ref) == [item]
  {
    hide TokenText, ParseStar, ParseColumn, QualifierMatches, QuoteIdentifier, ColumnRef, SerializeExpression,
      XmlColumn, IsXmlName, Reference, IsXMLType, Trim;
    var c := ParseColumn(item).value;
    XmlNameIs(columns, c.column.name);
    name := "";
    if IsBareXmlColumn(item, columns, ref) {
      XmlMember(columns, c.column.name);
      name := XmlColumn(columns, Key(c.column.name)).value.name;
      ReferenceIs(c.qualifier, name);
      SerializeWords(ColumnRef(c.qualifier, name), if c.alias == "" then QuoteIdentifier(name) else c.alias);
    }
  }

  /** So does an item that is neither a star nor a column. */
  lemma OtherStays(item: string, columns: seq<Column>, ref: TableRef)
    requires ParseStar(item).None? && ParseColumn(item).None?
    ensures RewriteItem(item, columns, ref) == [item]
  {
  }
}
