/** What the rewrite writes: every new item is one item wherever it is put, is read for what it is,
    and is not rewritten a second time. */
module OracleRewritten {
  import opened Text
  import opened SqlLexer
  import opened QuotedIdentifiers
  import opened OracleTokens
  import opened OracleSelect
  import opened OracleItems
  import opened OracleReparse
  import opened OracleRoundTrip

  // ---- text without commas, parentheses or FROM in code ----

  /** Nothing in the text counts for the scanners except that it is there. */
  ghost predicate Inert(x: string) {
    && Closed(x)
    && forall p | 0 <= p < |x| :: At(x, 0, p).mode == Code ==> x[p] !in "(),"
  }

  lemma InertConcat(x: string, y: string)
    requires Inert(x) && Inert(y) && CanFollow(x, y)
    ensures Inert(x + y)
  {
    hide At;
    ConcatClosed(x, y);
    forall p | 0 <= p < |x + y| && At(x + y, 0, p).mode == Code ensures (x + y)[p] !in "()," {
      if p < |x| {
        Extend(x, y, p);
      } else {
        AfterClosed(x, y, p - |x|);
      }
    }
  }

  lemma PlainInert(x: string)
    requires PlainRun(x, 0, |x|)
    ensures Inert(x)
  {
    PlainKeeps(x, 0, 0, |x|);
  }

  lemma TokenInert(t: Token)
    requires WellFormed(t)
    ensures Inert(t.text)
  {
    hide At;
    AtStart(t.text, 0);
    assert t.text[|t.text|..] == "";
    TokenKeeps(t.text, 0, 0, t);
    forall p | 0 <= p < |t.text| && At(t.text, 0, p).mode == Code ensures t.text[p] !in "()," {
      if p == 0 {
        assert t.text[0] == '"' || IsIdentifierPart(t.text[0]);
      } else {
        assert !t.quoted;
        assert IsIdentifierPart(t.text[p]);
      }
    }
  }

  lemma InertNoComma(x: string)
    requires Inert(x)
    ensures FirstComma(x, 0) == -1
  {
    hide At;
    forall p | 0 <= p < |x| ensures !CommaHit(x, 0, p) {
    }
    FirstCommaIs(x, 0, -1);
  }

  /** Inside parentheses inert text is never at the top level. */
  lemma {:induction false} ParenAt(x: string, p: nat)
    requires Inert(x) && p <= |x|
    ensures At("(" + x + ")", 0, 1 + p) == Scan(At(x, 0, p).mode, 1)
    decreases p
  {
    var s := "(" + x + ")";
    if p == 0 {
      assert At(s, 0, 1) == Scan(Code, 1);
    } else {
      ParenAt(x, p - 1);
      assert s[p] == x[p - 1];
      assert s[p + 1] == if p < |x| then x[p] else ')';
    }
  }

  lemma ParenOk(x: string)
    requires Inert(x)
    ensures var s := "(" + x + ")"; Closed(s) && NoFrom(s) && FirstComma(s, 0) == -1
  {
    var s := "(" + x + ")";
    ParenAt(x, |x|);
    assert s[|x| + 1] == ')';
    forall p | 0 < p < |s| ensures At(s, 0, p) != TOP {
      ParenAt(x, p - 1);
    }
    NeverTop(s);
  }

  lemma NeverTop(s: string)
    requires s != "" && s[0] == '(' && forall p | 0 < p < |s| :: At(s, 0, p) != TOP
    ensures NoFrom(s) && FirstComma(s, 0) == -1
  {
    hide At;
    forall p | 0 <= p < |s| ensures !KeywordHit(s, 0, p, "from") && !CommaHit(s, 0, p) {
      FromHitShape(s, 0, p);
    }
    FirstKeywordIs(s, 0, 0, -1, "from");
    FirstCommaIs(s, 0, -1);
  }

  // ---- tokens as text ----

  ghost predicate TokenText(q: string) { exists t: Token :: WellFormed(t) && t.text == q }

  ghost function TokenOf(q: string): (t: Token)
    requires TokenText(q)
    ensures WellFormed(t) && t.text == q
  {
    var t: Token :| WellFormed(t) && t.text == q;
    t
  }

  lemma QuoteIsToken(name: string)
    ensures TokenText(QuoteIdentifier(name)) && WellFormed(Token(name, QuoteIdentifier(name), true))
  {
    assert WellFormed(Token(name, QuoteIdentifier(name), true));
  }

  lemma TokenTextShape(q: string)
    requires TokenText(q)
    ensures q != "" && (q[0] == '"' || IsIdentifierStart(q[0])) && (q[|q| - 1] == '"' || IsIdentifierPart(q[|q| - 1]))
    ensures !IsSpace(q[0]) && !IsSpace(q[|q| - 1]) && q[0] !in "-*'" && q[|q| - 1] !in "-/'"
    ensures Inert(q)
  {
    var t := TokenOf(q);
    TokenInert(t);
    assert !t.quoted ==> IsIdentifierPart(q[0]) && IsIdentifierPart(q[|q| - 1]);
  }

  /** A token holds no FROM, unless it is that word. */
  lemma TokenNoFrom(q: string)
    requires TokenText(q) && Upper(q) != "FROM"
    ensures NoFrom(q)
  {
    var t := TokenOf(q);
    TokenKeeps(q, 0, 0, t);
    forall p | 0 <= p < |q| ensures !KeywordHit(q, 0, p, "from") {
      FromHitShape(q, 0, p);
      if p == 0 {
        FromIsWhole(q, t);
      } else if !t.quoted {
        assert IsIdentifierPart(q[p - 1]);
      }
    }
    FirstKeywordIs(q, 0, 0, -1, "from");
  }

  lemma FromIsWhole(q: string, t: Token)
    requires WellFormed(t) && t.text == q && q != "" && Upper(q) != "FROM"
    ensures !KeywordHit(q, 0, 0, "from")
  {
    if !t.quoted && |q| > 4 {
      assert IsIdentifierPart(q[4]);
    }
    assert |q| == 4 ==> q[0..0 + 4] == q;
    assert Upper("from") == "FROM";
  }

  // ---- the new items ----

  lemma RefInert(q: string, name: string)
    requires q == "" || TokenText(q)
    ensures Inert(ColumnRef(q, name)) && TokenText(QuoteIdentifier(name))
    ensures var r := ColumnRef(q, name); r != "" && r[|r| - 1] == '"' && !IsSpace(r[0]) && r[0] !in "-*'"
    ensures Trim(q) == "" <==> q == ""
  {
    hide Inert, TokenText;
    QuoteIsToken(name);
    TokenTextShape(QuoteIdentifier(name));
    if q != "" {
      TokenTextShape(q);
      TrimFixed(q);
      PlainInert(".");
      InertConcat(q, ".");
      InertConcat(q + ".", QuoteIdentifier(name));
    }
  }

  lemma RefOk(q: string, name: string)
    requires q == "" || (TokenText(q) && Upper(q) != "FROM")
    ensures ItemOk(ColumnRef(q, name))
  {
    hide Inert, TokenText, At;
    RefInert(q, name);
    var r := ColumnRef(q, name);
    InertNoComma(r);
    TrimFixed(r);
    InertClosed(r);
    QuotedNotFrom(name);
    if q != "" {
      TokenTextShape(q);
      TokenNoFrom(q);
      PlainOk(".");
      InertClosed(q);
      ConcatNoFrom(q, ".");
      ConcatClosed(q, ".");
      ConcatNoFrom(q + ".", QuoteIdentifier(name));
    }
  }

  lemma InertClosed(x: string)
    requires Inert(x)
    ensures Closed(x)
  {
  }

  lemma QuotedNotFrom(name: string)
    ensures NoFrom(QuoteIdentifier(name)) && Upper(QuoteIdentifier(name)) != "FROM"
  {
    var q := QuoteIdentifier(name);
    QuoteIsToken(name);
    assert Upper(q)[0] == '"';
    assert "FROM"[0] == 'F';
    TokenNoFrom(q);
  }

  lemma SerializeText(ref: string, alias: string)
    ensures SerializeExpression(ref, alias) == "XMLSERIALIZE"
        + (("(" + ("CONTENT " + ref + " AS CLOB") + ")") + (" AS " + alias))
  {
    assert SERIALIZE_OPEN == "XMLSERIALIZE" + "(" + "CONTENT ";
    assert SERIALIZE_AS == " AS CLOB" + ")" + " AS ";
  }

  lemma ConcatOk(x: string, y: string)
    requires Closed(x) && NoFrom(x) && FirstComma(x, 0) == -1
    requires Closed(y) && NoFrom(y) && FirstComma(y, 0) == -1
    requires CanFollow(x, y) && Separated(x, y)
    ensures Closed(x + y) && NoFrom(x + y) && FirstComma(x + y, 0) == -1
  {
    ConcatClosed(x, y);
    ConcatNoFrom(x, y);
    NoCommaConcat(x, y);
  }

  lemma SerializeInside(ref: string)
    requires Inert(ref) && ref != "" && ref[|ref| - 1] == '"' && ref[0] !in "-*'"
    ensures Inert("CONTENT " + ref + " AS CLOB")
  {
    hide Inert;
    PlainInert("CONTENT ");
    PlainInert(" AS CLOB");
    InertConcat("CONTENT ", ref);
    InertConcat("CONTENT " + ref, " AS CLOB");
  }

  lemma SerializeOk(ref: string, alias: string)
    requires Inert(ref) && ref != "" && ref[|ref| - 1] == '"' && ref[0] !in "-*'"
    requires TokenText(alias) && Upper(alias) != "FROM"
    ensures ItemOk(SerializeExpression(ref, alias))
  {
    hide Inert, TokenText, Closed, NoFrom, SerializeExpression, Trim;
    var inside := "CONTENT " + ref + " AS CLOB";
    SerializeInside(ref);
    ParenOk(inside);
    var paren := "(" + inside + ")";
    AliasOk(alias);
    ConcatOk(paren, " AS " + alias);
    PlainOk("XMLSERIALIZE");
    ConcatOk("XMLSERIALIZE", paren + (" AS " + alias));
    SerializeText(ref, alias);
    SerializeTrim(ref, alias);
  }

  lemma AliasOk(alias: string)
    requires TokenText(alias) && Upper(alias) != "FROM"
    ensures var x := " AS " + alias; Closed(x) && NoFrom(x) && FirstComma(x, 0) == -1
  {
    hide Inert, TokenText;
    PlainOk(" AS ");
    TokenTextShape(alias);
    InertClosed(alias);
    InertNoComma(alias);
    TokenNoFrom(alias);
    ConcatOk(" AS ", alias);
  }

  lemma SerializeTrim(ref: string, alias: string)
    requires TokenText(alias)
    ensures var text := SerializeExpression(ref, alias);
      |text| > 12 && text[0] == 'X' && !IsSpace(text[|text| - 1]) && Trim(text) == text
  {
    hide TokenText, Inert, Trim;
    TokenTextShape(alias);
    var text := SerializeExpression(ref, alias);
    assert text[0] == 'X' && text[|text| - 1] == alias[|alias| - 1];
    TrimFixed(text);
  }

  // ---- how the new items are read ----

  lemma RefParses(q: string, name: string)
    requires q == "" || TokenText(q)
    ensures var r := ColumnRef(q, name);
      && ParseStar(r) == None
      && ParseColumn(r) == Some(ColumnItem(q, Token(name, QuoteIdentifier(name), true), ""))
  {
    hide TokenText, ColumnRef, ParseStar, ParseColumn;
    if q == "" {
      BareRefParses(name);
    } else {
      QualifiedRefParses(q, name);
    }
  }

  lemma BareRefParses(name: string)
    ensures var r := ColumnRef("", name);
      && ParseStar(r) == None
      && ParseColumn(r) == Some(ColumnItem("", Token(name, QuoteIdentifier(name), true), ""))
  {
    hide Inert, TokenText, Trim, ReadToken;
    RefInert("", name);
    var r := ColumnRef("", name);
    TrimFixed(r);
    var n := Token(name, QuoteIdentifier(name), true);
    QuoteIsToken(name);
    TokenReread("", n, "");
    assert "" + n.text + "" == r;
    assert r != "*" by { assert r[0] == '"'; }
  }

  lemma QualifiedRefParses(q: string, name: string)
    requires q != "" && TokenText(q)
    ensures var r := ColumnRef(q, name);
      && ParseStar(r) == None
      && ParseColumn(r) == Some(ColumnItem(q, Token(name, QuoteIdentifier(name), true), ""))
  {
    hide Inert, TokenText, Trim, ReadToken, Undoubled;
    RefInert(q, name);
    var r := ColumnRef(q, name);
    TrimFixed(r);
    var n := Token(name, QuoteIdentifier(name), true);
    QuoteIsToken(name);
    TokenReread("", TokenOf(q), "." + n.text);
    assert "" + q + ("." + n.text) == r;
    TokenReread(q + ".", n, "");
    assert (q + ".") + n.text + "" == r;
    assert r[|q|] == '.' && r[|q| + 1] == '"';
    assert SkipSpace(r, |q|) == |q| && SkipSpace(r, |q| + 1) == |q| + 1;
    assert |r| >= 2;
  }

  lemma SerializeParses(ref: string, alias: string)
    requires TokenText(alias)
    ensures ParseStar(SerializeExpression(ref, alias)) == None
    ensures ParseColumn(SerializeExpression(ref, alias)) == None
  {
    hide TokenText, Trim, SerializeExpression, StartsWithKeyword;
    var r := SerializeExpression(ref, alias);
    SerializeTrim(ref, alias);
    SerializeToken(ref, alias);
    assert SkipSpace(r, 12) == 12;
  }

  lemma SerializeToken(ref: string, alias: string)
    requires TokenText(alias)
    ensures var r := SerializeExpression(ref, alias);
      && ReadToken(r, 0) == TokenAt(Token("XMLSERIALIZE", "XMLSERIALIZE", false), 12)
      && |r| > 12 && r[12] == '(' && r != "*" && !StartsWithKeyword(r[12..], "as")
  {
    hide TokenText, Trim, SerializeExpression, StartsWithKeyword, ReadToken;
    var r := SerializeExpression(ref, alias);
    SerializeTrim(ref, alias);
    SerializeText(ref, alias);
    var rest := ("(" + ("CONTENT " + ref + " AS CLOB") + ")") + (" AS " + alias);
    SerializeWord(rest);
    assert r == "XMLSERIALIZE" + rest && r[12..] == rest;
    SuffixTrimmed(r, 12);
    NotAs(r[12..]);
  }

  lemma SerializeWord(rest: string)
    requires rest != "" && rest[0] == '('
    ensures ReadToken("XMLSERIALIZE" + rest, 0) == TokenAt(Token("XMLSERIALIZE", "XMLSERIALIZE", false), 12)
  {
    hide ReadToken;
    var x := Token("XMLSERIALIZE", "XMLSERIALIZE", false);
    assert Upper("XMLSERIALIZE") == "XMLSERIALIZE";
    TokenReread("", x, rest);
    assert "" + x.text + rest == "XMLSERIALIZE" + rest;
  }

  lemma NotAs(s: string)
    requires s != "" && s[0] == '(' && Trim(s) == s
    ensures !StartsWithKeyword(s, "as")
  {
    hide Trim;
    if |s| >= 2 {
      assert Upper(s[..2])[0] == UpperChar(s[..2][0]) == '(';
      assert Upper("as")[0] == 'A';
    }
  }

  // ---- the aliases and qualifiers that come from the statement ----

  lemma TokenTop(t: string, i: nat)
    requires i <= |t| && At(t, 0, i) == TOP && ReadToken(t, i).TokenAt?
    ensures var r := ReadToken(t, i); var st := SkipSpace(t, i);
      && st < r.next <= |t| && At(t, 0, st) == TOP && At(t, 0, r.next) == TOP
      && WellFormed(r.token) && r.token.text == t[st..r.next]
      && (r.next < |t| ==> if r.token.quoted then t[r.next - 1] == '"' else !IsIdentifierPart(t[r.next]))
  {
    hide At;
    ReadTokenShape(t, i);
    var r := ReadToken(t, i);
    var st := SkipSpace(t, i);
    SpaceTop(t, i);
    assert r.token.quoted && r.next < |t| ==> NoQuoteNext(t[r.next..]);
    TokenKeeps(t, 0, st, r.token);
    assert t[r.next - 1] == r.token.text[|r.token.text| - 1];
  }

  lemma SpaceTop(t: string, i: nat)
    requires i <= |t| && At(t, 0, i) == TOP
    ensures At(t, 0, SkipSpace(t, i)) == TOP
  {
    hide At;
    PlainKeeps(t, 0, i, SkipSpace(t, i));
  }

  /** A position where an identifier could not have gone on. */
  ghost predicate Break(t: string, i: nat) {
    i <= |t| && At(t, 0, i) == TOP && (0 < i < |t| ==> !IsIdentifierPart(t[i - 1]) || !IsKeywordChar(t[i]))
  }

  /** The word FROM at the end of a text, at a break, is a keyword hit. */
  lemma FromTokenHits(t: string, i: nat, st: nat)
    requires Break(t, i) && i <= st < |t| && st == SkipSpace(t, i) && At(t, 0, st) == TOP
    requires Upper(t[st..]) == "FROM"
    ensures KeywordHit(t, 0, st, "from")
  {
    hide At;
    UpperFrom(t[st..]);
    assert t[st] == t[st..][0];
    assert t[st..st + 4] == t[st..];
    assert st > i ==> IsSQLSpace(t[st - 1]);
  }

  /** An alias read at a break to the end of a self-contained item is a token other than FROM. */
  lemma AliasNotFrom(t: string, i: nat)
    requires ItemOk(t) && Break(t, i)
    requires var r := ReadToken(t, i); r.TokenAt? && r.next <= |t| && Trim(t[r.next..]) == ""
    ensures TokenText(ReadToken(t, i).token.text) && Upper(ReadToken(t, i).token.text) != "FROM"
  {
    hide At, Trim, Closed, Break, KeywordHit;
    BreakBound(t, i);
    TokenTop(t, i);
    var r := ReadToken(t, i);
    var st := SkipSpace(t, i);
    EndsThere(t, r.next);
    assert t[st..] == r.token.text;
    if Upper(r.token.text) == "FROM" {
      FromTokenHits(t, i, st);
    }
  }

  lemma BreakBound(t: string, i: nat)
    requires Break(t, i)
    ensures i <= |t| && At(t, 0, i) == TOP
  {
  }

  lemma UpperFrom(x: string)
    requires Upper(x) == "FROM"
    ensures |x| == 4 && (x[0] == 'f' || x[0] == 'F') && EqualFold(x, "from")
  {
    assert Upper(x)[0] == UpperChar(x[0]) == 'F';
    assert Upper("from") == "FROM";
  }

  lemma BlankSuffix(t: string, n: nat)
    requires n <= |t| && Trim(t[n..]) == ""
    ensures forall i | n <= i < |t| :: IsSpace(t[i])
  {
    hide Trim;
    var lead := TrimSplits(t[n..]);
    forall i | n <= i < |t| ensures IsSpace(t[i]) {
      assert t[i] == t[n..][i - n];
    }
  }

  lemma EndsThere(t: string, n: nat)
    requires n <= |t| && Trim(t) == t && Trim(t[n..]) == ""
    ensures n == |t|
  {
    hide Trim;
    var _ := TrimSplits(t);
    BlankSuffix(t, n);
  }

  lemma BreakAfter(t: string, i: nat)
    requires i <= |t| && At(t, 0, i) == TOP && ReadToken(t, i).TokenAt?
    ensures Break(t, SkipSpace(t, ReadToken(t, i).next))
  {
    hide At, ReadToken;
    TokenTop(t, i);
    var n := ReadToken(t, i).next;
    var b := SkipSpace(t, n);
    SpaceTop(t, n);
    assert b > n ==> IsSQLSpace(t[b - 1]);
  }

  lemma BreakAfterAs(t: string, i: nat)
    requires i <= |t| && At(t, 0, i) == TOP && StartsWithKeyword(t[i..], "as") && i < |t| && !IsSpace(t[i])
        && Trim(t) == t
    ensures i + 2 <= |t| && Break(t, SkipSpace(t, i + 2))
  {
    hide At, Trim, StartsWithKeyword;
    AsAt(t, i);
    PlainKeeps(t, 0, i, i + 2);
    SpaceTop(t, i + 2);
    var b := SkipSpace(t, i + 2);
    assert b > i + 2 ==> IsSQLSpace(t[b - 1]);
  }

  lemma AsAt(t: string, i: nat)
    requires i < |t| && StartsWithKeyword(t[i..], "as") && !IsSpace(t[i]) && Trim(t) == t
    ensures i + 2 <= |t| && IsLetter(t[i]) && IsLetter(t[i + 1])
    ensures i + 2 < |t| ==> !IsKeywordChar(t[i + 2])
  {
    hide Trim, StartsWithKeyword;
    var x := t[i..];
    SuffixTrimmed(t, i);
    StartsWithTrimmed(x);
    assert t[i] == x[0] && t[i + 1] == x[1];
    assert i + 2 < |t| ==> x[2] == t[i + 2];
  }

  lemma SuffixTrimmed(t: string, i: nat)
    requires i < |t| && !IsSpace(t[i]) && Trim(t) == t
    ensures Trim(t[i..]) == t[i..]
  {
    hide Trim;
    var x := t[i..];
    var _ := TrimSplits(t);
    assert x[0] == t[i] && x[|x| - 1] == t[|t| - 1];
    TrimFixed(x);
  }

  lemma StartsWithTrimmed(x: string)
    requires Trim(x) == x && StartsWithKeyword(x, "as")
    ensures |x| >= 2 && IsLetter(x[0]) && IsLetter(x[1]) && (|x| > 2 ==> !IsKeywordChar(x[2]))
  {
    hide Trim;
    AsLetters(x[..2]);
    assert x[..2][0] == x[0] && x[..2][1] == x[1];
  }

  lemma AsLetters(w: string)
    requires EqualFold(w, "as")
    ensures |w| == 2 && IsLetter(w[0]) && IsLetter(w[1])
  {
    assert Upper(w)[0] == 'A' && Upper(w)[1] == 'S';
  }

  /** The qualifier and the alias of a column item are tokens, and the alias is not FROM. */
  lemma ColumnItemTokens(t: string)
    requires ItemOk(t) && PlainSpaces(t) && ParseColumn(t).Some?
    ensures var c := ParseColumn(t).value;
      && (c.qualifier == "" || TokenText(c.qualifier))
      && (c.alias == "" || (TokenText(c.alias) && Upper(c.alias) != "FROM"))
  {
    hide At, Trim, ItemAlias, ReadToken, TokenText, Closed, NoFrom;
    AtStart(t, 0);
    TokenTop(t, 0);
    BreakAfter(t, 0);
    var first := ReadToken(t, 0);
    TokenIsText(first.token);
    var pos := SkipSpace(t, first.next);
    if pos < |t| && t[pos] == '.' {
      PlainKeeps(t, 0, pos, pos + 1);
      SpaceTop(t, pos + 1);
      var i := SkipSpace(t, pos + 1);
      TokenTop(t, i);
      BreakAfter(t, i);
      var second := ReadToken(t, i);
      ItemAliasTokens(t, SkipSpace(t, second.next), ColumnItem(first.token.text, second.token, ""));
    } else {
      ItemAliasTokens(t, pos, ColumnItem("", first.token, ""));
    }
  }

  lemma TokenIsText(t: Token)
    requires WellFormed(t)
    ensures TokenText(t.text)
  {
  }

  lemma ItemAliasTokens(t: string, pos: nat, c: ColumnItem)
    requires ItemOk(t) && PlainSpaces(t) && Break(t, pos) && ItemAlias(t, pos, c).Some? && c.alias == ""
    requires pos < |t| ==> !IsSQLSpace(t[pos])
    ensures var r := ItemAlias(t, pos, c).value;
      r.qualifier == c.qualifier && (r.alias == "" || (TokenText(r.alias) && Upper(r.alias) != "FROM"))
  {
    hide At, Trim, ReadToken, TokenText, Closed, NoFrom, StartsWithKeyword;
    if pos < |t| {
      if StartsWithKeyword(t[pos..], "as") {
        BreakAfterAs(t, pos);
        AliasNotFrom(t, SkipSpace(t, pos + 2));
      } else {
        AliasNotFrom(t, pos);
      }
    }
  }
}
