/** Rewriting an already rewritten SELECT changes nothing. */
module OracleIdempotence {
  import opened Text
  import opened SqlLexer
  import opened QuotedIdentifiers
  import opened OracleTokens
  import opened OracleSelect
  import opened OracleItems
  import opened OracleReparse
  import opened OracleRoundTrip
  import opened OracleRewritten

  // ---- the table alias ----

  lemma TableAliasIsToken(s: string)
    requires ParseTableRef(s).Some?
    ensures var a := ParseTableRef(s).value.aliasText; a == "" || TokenText(a)
  {
    hide TokenText, NextKeywordIsClause, StartsJoin, IsClause, ReadToken;
    var start := SkipSpace(s, 0);
    var first := ReadToken(s, start);
    var pos := SkipSpace(s, first.next);
    if pos < |s| && s[pos] == '.' {
      AliasIsToken(s, SkipSpace(s, ReadToken(s, SkipSpace(s, pos + 1)).next),
          TableRef(first.token.name, ReadToken(s, SkipSpace(s, pos + 1)).token.name, "", ""));
    } else {
      AliasIsToken(s, pos, TableRef("", first.token.name, "", ""));
    }
  }

  lemma AliasIsToken(s: string, pos: nat, ref: TableRef)
    requires ref.aliasText == "" && WithAlias(s, pos, ref).Some?
    ensures var a := WithAlias(s, pos, ref).value.aliasText; a == "" || TokenText(a)
  {
    hide TokenText, NextKeywordIsClause, StartsJoin, IsClause, CommaAt, ReadToken;
    if ReadToken(s, pos).TokenAt? {
      ReadTokenShape(s, pos);
      TokenIsText(ReadToken(s, pos).token);
    }
  }

  /** The alias written before a column does not read as FROM, DISTINCT or ALL. */
  predicate AliasUsable(ref: TableRef) {
    Upper(ref.aliasText) != "FROM" && !StartsWithModifier(ref.aliasText + ".")
  }

  // ---- one item ----

  ghost predicate Settled(x: string, columns: seq<Column>, ref: TableRef) {
    ItemOk(x) && !NeedsRewrite(x, columns, ref)
  }

  lemma SerializedSettled(q: string, name: string, alias: string, columns: seq<Column>, ref: TableRef)
    requires q == "" || TokenText(q)
    requires TokenText(alias) && Upper(alias) != "FROM"
    ensures Settled(SerializeExpression(ColumnRef(q, name), alias), columns, ref)
    ensures var text := SerializeExpression(ColumnRef(q, name), alias); text != "" && text[0] == 'X'
  {
    hide Inert, TokenText, SerializeExpression, ItemOk, ParseStar, ParseColumn;
    RefInert(q, name);
    SerializeOk(ColumnRef(q, name), alias);
    SerializeParses(ColumnRef(q, name), alias);
    SerializeTrim(ColumnRef(q, name), alias);
  }

  lemma ColumnSettled(column: Column, columns: seq<Column>, ref: TableRef)
    requires (ref.aliasText == "" || TokenText(ref.aliasText)) && Upper(ref.aliasText) != "FROM"
    ensures Settled(SelectColumn(column, columns, ref), columns, ref)
    ensures SelectColumn(column, columns, ref) != ""
  {
    hide TokenText, ItemOk, ParseStar, ParseColumn, SerializeExpression, ColumnRef, QualifierMatches;
    QuoteIsToken(column.name);
    QuotedNotFrom(column.name);
    if XmlColumn(columns, Key(column.name)).Some? {
      SerializedSettled(ref.aliasText, column.name, QuoteIdentifier(column.name), columns, ref);
    } else {
      RefOk(ref.aliasText, column.name);
      RefInert(ref.aliasText, column.name);
      RefParses(ref.aliasText, column.name);
    }
  }

  lemma ItemSettled(item: string, columns: seq<Column>, ref: TableRef)
    requires ItemOk(item) && PlainSpaces(item) && columns != []
    requires (ref.aliasText == "" || TokenText(ref.aliasText)) && Upper(ref.aliasText) != "FROM"
    ensures var r := RewriteItem(item, columns, ref);
      && r != [] && (item != "" ==> r[|r| - 1] != "")
      && forall x | x in r :: Settled(x, columns, ref)
  {
    hide TokenText, ItemOk, ParseStar, ParseColumn, SerializeExpression, QualifierMatches, SelectColumn;
    if IsMatchingStar(item, ref) {
      var r := ExpandStar(columns, columns, ref);
      forall x | x in r ensures Settled(x, columns, ref) {
        var i :| 0 <= i < |r| && x == r[i];
        ColumnSettled(columns[i], columns, ref);
      }
      ColumnSettled(columns[|columns| - 1], columns, ref);
    } else if IsBareXmlColumn(item, columns, ref) {
      var c := ParseColumn(item).value;
      var name := XmlColumn(columns, Key(c.column.name)).value.name;
      ColumnItemTokens(item);
      QuoteIsToken(name);
      QuotedNotFrom(name);
      SerializedSettled(c.qualifier, name, if c.alias == "" then QuoteIdentifier(name) else c.alias, columns, ref);
    }
  }

  lemma {:induction false} ItemsSettled(items: seq<string>, columns: seq<Column>, ref: TableRef)
    requires items != [] && items[|items| - 1] != "" && columns != []
    requires forall x | x in items :: ItemOk(x) && PlainSpaces(x)
    requires (ref.aliasText == "" || TokenText(ref.aliasText)) && Upper(ref.aliasText) != "FROM"
    ensures GoodList(RewriteItems(items, columns, ref))
    ensures !AnyNeedsRewrite(RewriteItems(items, columns, ref), columns, ref)
    ensures RewriteItems(items, columns, ref)[0] == RewriteItem(items[0], columns, ref)[0]
    ensures RewriteItem(items[0], columns, ref) != []
    decreases |items|
  {
    hide TokenText, ItemOk, PlainSpaces, RewriteItem, NeedsRewrite;
    assert items[0] in items;
    ItemSettled(items[0], columns, ref);
    var head := RewriteItem(items[0], columns, ref);
    var all := RewriteItems(items, columns, ref);
    if |items| == 1 {
      assert items[1..] == [];
      assert all == head + [];
    } else {
      ItemsSettled(items[1..], columns, ref);
    }
    forall x | x in all ensures Settled(x, columns, ref) {
      AllSettled(items, columns, ref, x);
    }
    forall i | 0 <= i < |all| ensures !NeedsRewrite(all[i], columns, ref) {
      assert all[i] in all;
    }
  }

  lemma {:induction false} AllSettled(items: seq<string>, columns: seq<Column>, ref: TableRef, x: string)
    requires columns != [] && forall i | i in items :: ItemOk(i) && PlainSpaces(i)
    requires (ref.aliasText == "" || TokenText(ref.aliasText)) && Upper(ref.aliasText) != "FROM"
    requires x in RewriteItems(items, columns, ref)
    ensures Settled(x, columns, ref)
  {
    hide TokenText, ItemOk, PlainSpaces, RewriteItem, Settled;
    assert items[0] in items;
    ItemSettled(items[0], columns, ref);
    if x !in RewriteItem(items[0], columns, ref) {
      AllSettled(items[1..], columns, ref, x);
    }
  }

  // ---- no modifier appears ----

  lemma FoldsLetters(w: string, word: string)
    requires EqualFold(w, word) && (word == "distinct" || word == "all")
    ensures |w| == |word| && forall i | 0 <= i < |w| :: IsLetter(w[i])
  {
    forall i | 0 <= i < |w| ensures IsLetter(w[i]) {
      assert Upper(w)[i] == UpperChar(w[i]) && Upper(word)[i] == UpperChar(word[i]);
      assert IsLetter(word[i]);
    }
  }

  lemma WordInPrefix(x: string, separator: char, rest: string, word: string)
    requires (word == "distinct" || word == "all") && !IsLetter(separator)
    ensures WordAt(x + [separator] + rest, 0, word) ==> WordAt(x + [separator], 0, word)
  {
    var s := x + [separator] + rest;
    assert s[|x|] == separator;
    if WordAt(s, 0, word) {
      FoldsLetters(s[0..0 + |word|], word);
      assert forall i | 0 <= i < |word| :: s[i] == s[0..0 + |word|][i];
      assert |word| <= |x|;
      assert (x + [separator])[0..0 + |word|] == s[0..0 + |word|];
      assert (x + [separator])[|word|] == s[|word|];
    }
  }

  /** The first item of a list that starts with no white space is how the list starts. */
  lemma FirstItemLeads(v: string)
    requires (v != "" ==> !IsSpace(v[0])) && SplitList(v) != []
    ensures var x := SplitList(v)[0];
      |x| <= |v| && v[..|x|] == x && (|x| < |v| ==> IsSpace(v[|x|]) || v[|x|] == ',')
  {
    hide Trim;
    var c := FirstComma(v, 0);
    var piece := if c == -1 then v else v[..c];
    if c != -1 {
      SplitStep(v, c);
    }
    var lead := TrimSplits(piece);
    var x := Trim(piece);
    assert SplitList(v)[0] == x;
    if piece != "" {
      assert piece[0] == v[0];
      assert lead == 0 && |x| > 0;
      assert |x| < |piece| ==> IsSpace(piece[|x|]);
    }
  }

  lemma WordInList(v: string, x: string, separator: char, word: string)
    requires |x| <= |v| && v[..|x|] == x && (|x| < |v| ==> IsSpace(v[|x|]) || v[|x|] == ',')
    requires (word == "distinct" || word == "all") && (separator == ',' || separator == ' ')
    ensures WordAt(x + [separator], 0, word) ==> WordAt(v, 0, word)
  {
    var s := x + [separator];
    assert s[|x|] == separator;
    if WordAt(s, 0, word) {
      FoldsLetters(s[0..0 + |word|], word);
      assert forall i | 0 <= i < |word| :: s[i] == s[0..0 + |word|][i];
      assert |word| <= |x|;
      assert v[0..0 + |word|] == v[..|x|][..|word|] == s[0..0 + |word|];
      assert |word| < |x| ==> v[|word|] == v[..|x|][|word|] == s[|word|];
    }
  }

  lemma ListTextSeparator(items: seq<string>) returns (separator: char, rest: string)
    requires items != []
    ensures ListText(items) == items[0] + [separator] + rest && (separator == ',' || separator == ' ')
  {
    if |items| == 1 {
      separator, rest := ' ', "";
    } else {
      separator, rest := ',', " " + ListText(items[1..]);
      assert ", " == [','] + " ";
    }
  }

  // ---- the theorem ----

  /** What the caller can check before rewriting: the statement was read as a SELECT over one table,
      has no white space at its end and only plain white space in its list's code, the list does not end
      with a comma, and the table alias is not one of three reserved words. */
  ghost predicate Usable(s: string, p: Parts) {
    && Bounds(s, p) && p.listAt > 0 && Readable(s, p)
    && (var items := SplitList(ListOf(s, p)); items != [] && items[|items| - 1] != "")
    && AliasUsable(p.ref)
  }

  /** And no item ends with a line comment. */
  ghost predicate Rewritable(s: string, p: Parts) {
    Usable(s, p) && CommentsEnd(SplitList(ListOf(s, p)))
  }

  lemma {:induction false} ItemsPlain(v: string)
    requires PlainSpaces(v)
    ensures forall x | x in SplitList(v) :: PlainSpaces(x)
    decreases |v|
  {
    hide Trim, PlainSpaces;
    var c := FirstComma(v, 0);
    if c == -1 {
      TrimPlain(v);
    } else {
      SplitStep(v, c);
      PlainBefore(v, c);
      TrimPlain(v[..c]);
      AfterComma(v, c);
      PlainBehind(v, c + 1);
      ItemsPlain(v[c + 1..]);
    }
  }

  lemma AfterComma(v: string, c: nat)
    requires c < |v| && CommaHit(v, 0, c)
    ensures At(v, 0, c + 1) == TOP
  {
  }

  lemma PlainBefore(v: string, n: nat)
    requires PlainSpaces(v) && n <= |v|
    ensures PlainSpaces(v[..n])
  {
    hide At;
    forall i | 0 <= i < n && At(v[..n], 0, i).mode == Code ensures IsSpace(v[..n][i]) ==> IsSQLSpace(v[..n][i]) {
      Cut(v, 0, n, i);
    }
  }

  lemma PlainBehind(v: string, n: nat)
    requires PlainSpaces(v) && n <= |v| && At(v, 0, n) == TOP
    ensures PlainSpaces(v[n..])
  {
    hide At;
    forall i | 0 <= i < |v[n..]| && At(v[n..], 0, i).mode == Code ensures IsSpace(v[n..][i]) ==> IsSQLSpace(v[n..][i]) {
      Shift(v, n, n, n + i);
      Restart(v, 0, n, n + i);
    }
  }

  lemma TrimPlain(v: string)
    requires PlainSpaces(v)
    ensures PlainSpaces(Trim(v))
  {
    hide Trim, PlainSpaces, At;
    var lead := TrimSplits(v);
    AtStart(v, 0);
    PlainKeeps(v, 0, 0, lead);
    PlainBehind(v, lead);
    PlainBefore(v[lead..], |Trim(v)|);
    assert v[lead..][..|Trim(v)|] == Trim(v);
  }

  lemma ListItemsReady(s: string, p: Parts)
    requires Rewritable(s, p)
    ensures forall x | x in SplitList(ListOf(s, p)) :: ItemOk(x) && PlainSpaces(x)
    ensures p.ref.aliasText == "" || TokenText(p.ref.aliasText)
    ensures SpacesAreSQL(s[p.listStart..p.fromAt])
  {
    hide Readable, ItemOk, ParseTableRef, KeywordHit, LeadEnd, SelectAt, ListPrefix, SpacesAreSQL;
    ListOk(s, p);
    ListItemsOk(ListOf(s, p));
    PlainOf(s, p);
    ItemsPlain(ListOf(s, p));
    ReadableFacts(s, p);
    TableAliasIsToken(s[p.fromAt + 4..]);
  }

  lemma PlainOf(s: string, p: Parts)
    requires Bounds(s, p) && Readable(s, p)
    ensures PlainSpaces(ListOf(s, p))
  {
    hide ParseSelect, PlainSpaces;
    var list := s[p.listStart..p.fromAt];
    var n := p.listAt - p.listStart;
    BeforeList(s, p);
    forall i | 0 <= i < n ensures PrefixChar(list[i]) {
      assert list[i] == s[p.listStart + i];
    }
    PrefixCharsKeepTop(list, 0, n);
    PlainBehind(list, n);
    assert list[n..] == ListOf(s, p);
  }

  /** Which texts can come first in the new list: the first item of the old one, or a text that
      starts with a new column. */
  lemma NewListGood(s: string, p: Parts, columns: seq<Column>)
    requires Rewritable(s, p) && columns != []
    ensures var items := SplitList(ListOf(s, p));
      var all := RewriteItems(items, columns, p.ref);
      && items != [] && GoodList(all) && all != [] && !AnyNeedsRewrite(all, columns, p.ref)
      && RewriteItem(items[0], columns, p.ref) != [] && all[0] == RewriteItem(items[0], columns, p.ref)[0]
      && (p.ref.aliasText == "" || TokenText(p.ref.aliasText))
  {
    hide RewriteItems, RewriteItem, AnyNeedsRewrite, SplitList, TokenText, Readable, SpacesAreSQL, ItemOk, PlainSpaces;
    ListItemsReady(s, p);
    ItemsSettled(SplitList(ListOf(s, p)), columns, p.ref);
  }

  lemma NoNewModifier(s: string, p: Parts, columns: seq<Column>)
    requires Rewritable(s, p) && columns != []
    requires !HasModifier(s[p.listStart..p.fromAt])
    ensures !StartsWithModifier(ListText(RewriteItems(SplitList(ListOf(s, p)), columns, p.ref)))
  {
    hide Rewritable, HasModifier, WordAt, RewriteItem, ListText, Trim, RewriteItems, SplitList, GoodList,
      AnyNeedsRewrite, Readable, CommentsEnd, AliasUsable, TokenText;
    RewritableFacts(s, p);
    NewListGood(s, p, columns);
    var v := ListOf(s, p);
    var items := SplitList(v);
    var all := RewriteItems(items, columns, p.ref);
    var separator, rest := ListTextSeparator(all);
    ListNotWord(s, p);
    forall word | word == "distinct" || word == "all" ensures !WordAt(ListText(all), 0, word) {
      WordInPrefix(all[0], separator, rest, word);
      FirstNotWord(v, items[0], columns, p.ref, separator, word);
    }
  }

  lemma RewritableFacts(s: string, p: Parts)
    requires Rewritable(s, p)
    ensures Bounds(s, p) && p.listAt > 0 && Readable(s, p) && AliasUsable(p.ref)
    ensures CommentsEnd(SplitList(ListOf(s, p)))
    ensures var items := SplitList(ListOf(s, p)); items != [] && items[|items| - 1] != ""
  {
  }

  /** A list read without a modifier does not start with white space or with one. */
  lemma ListNotWord(s: string, p: Parts)
    requires Bounds(s, p) && Readable(s, p) && !HasModifier(s[p.listStart..p.fromAt])
    ensures var v := ListOf(s, p);
      (v != "" ==> !IsSpace(v[0])) && !WordAt(v, 0, "distinct") && !WordAt(v, 0, "all")
  {
    hide Readable, WordAt, ParseTableRef, KeywordHit, LeadEnd, SelectAt, ListPrefix, SkipSpace;
    ReadableFacts(s, p);
    var list := s[p.listStart..p.fromAt];
    var v := ListOf(s, p);
    ListPrefixIs(list);
    var w := SkipSpace(list, 0);
    assert list == list[..w] + v;
    WordShift(list[..w], v, "distinct");
    WordShift(list[..w], v, "all");
    assert v != "" ==> v[0] == list[w];
  }

  lemma FirstNotWord(v: string, item: string, columns: seq<Column>, ref: TableRef, separator: char, word: string)
    requires (word == "distinct" || word == "all") && (separator == ',' || separator == ' ')
    requires (v != "" ==> !IsSpace(v[0])) && !WordAt(v, 0, word) && SplitList(v) != [] && SplitList(v)[0] == item
    requires columns != [] && RewriteItem(item, columns, ref) != []
    requires (ref.aliasText == "" || TokenText(ref.aliasText)) && AliasUsable(ref)
    ensures !WordAt(RewriteItem(item, columns, ref)[0] + [separator], 0, word)
  {
    hide WordAt, ParseStar, ParseColumn, QualifierMatches, TokenText, Trim, SplitList, ColumnRef;
    var x := RewriteItem(item, columns, ref)[0] + [separator];
    if IsMatchingStar(item, ref) {
      ColumnNotWord(columns[0], columns, ref, separator, word);
    } else if IsBareXmlColumn(item, columns, ref) {
      SerializeNotWord(RewriteXmlColumn(item, columns, ref), separator, word);
    } else {
      FirstItemLeads(v);
      WordInList(v, item, separator, word);
    }
  }

  lemma FirstCharNotWord(x: string, word: string)
    requires x != "" && UpperChar(x[0]) != 'D' && UpperChar(x[0]) != 'A' && (word == "distinct" || word == "all")
    ensures !WordAt(x, 0, word)
  {
    if |word| <= |x| {
      assert Upper(x[0..0 + |word|])[0] == UpperChar(x[0]);
      assert Upper(word)[0] == UpperChar(word[0]);
    }
  }

  lemma SerializeNotWord(x: string, separator: char, word: string)
    requires SERIALIZE_OPEN <= x && (word == "distinct" || word == "all")
    ensures !WordAt(x + [separator], 0, word)
  {
    assert x[0] == SERIALIZE_OPEN[0] == 'X';
    FirstCharNotWord(x + [separator], word);
  }

  lemma ColumnNotWord(column: Column, columns: seq<Column>, ref: TableRef, separator: char, word: string)
    requires (word == "distinct" || word == "all") && (separator == ',' || separator == ' ')
    requires (ref.aliasText == "" || TokenText(ref.aliasText)) && AliasUsable(ref)
    ensures !WordAt(SelectColumn(column, columns, ref) + [separator], 0, word)
  {
    hide WordAt, TokenText, QuoteIdentifier;
    var a := ref.aliasText;
    var name := QuoteIdentifier(column.name);
    if XmlColumn(columns, Key(column.name)).Some? {
      SerializeNotWord(SelectColumn(column, columns, ref), separator, word);
    } else {
      RefInert(a, column.name);
      QuoteStart(column.name);
      if a == "" {
        FirstCharNotWord(name + [separator], word);
      } else {
        WordInPrefix(a, '.', name + [separator], word);
        assert a + ['.'] + (name + [separator]) == SelectColumn(column, columns, ref) + [separator];
        assert a + ['.'] == a + ".";
      }
    }
  }

  lemma QuoteStart(name: string)
    ensures QuoteIdentifier(name)[0] == '"'
  {
  }

  // ---- when the new list is glued to the keyword before it ----

  /** The item is replaced by a text that could continue a word: a bare column of type XMLTYPE always, a star
      if its first column has that type or is written after an alias that starts like a word. */
  predicate ContinuesWord(item: string, columns: seq<Column>, ref: TableRef) {
    if IsMatchingStar(item, ref) then
      columns != [] && (XmlColumn(columns, Key(columns[0].name)).Some?
        || (ref.aliasText != "" && IsKeywordChar(ref.aliasText[0])))
    else IsBareXmlColumn(item, columns, ref)
  }

  /** What a caller can see in the statement: no white space stands between the list and the keyword before
      it, and the first item is replaced by a text that could continue that keyword. */
  predicate Touching(s: string, p: Parts, columns: seq<Column>)
    requires 0 < p.listAt <= p.fromAt <= |s|
  {
    var items := SplitList(ListOf(s, p));
    !IsSpace(s[p.listAt - 1]) && items != [] && ContinuesWord(items[0], columns, p.ref)
  }

  /** The list that is spliced in is glued to the keyword before it exactly in these statements. */
  lemma GluedIsTouching(s: string, p: Parts, columns: seq<Column>)
    requires Rewritable(s, p) && columns != []
    ensures Glued(s, p, RewriteItems(SplitList(ListOf(s, p)), columns, p.ref)) <==> Touching(s, p, columns)
  {
    hide Rewritable, RewriteItems, RewriteItem, SplitList, GoodList, AnyNeedsRewrite, Readable, CommentsEnd,
      AliasUsable, TokenText, ContinuesWord;
    RewritableFacts(s, p);
    NewListGood(s, p, columns);
    BeforeList(s, p);
    FirstOfList(s, p);
    var v := ListOf(s, p);
    ListStartsPlain(s, p);
    FirstItemLeads(v);
    NewFirst(v, SplitList(v)[0], columns, p.ref, !IsSpace(s[p.listAt - 1]));
  }

  lemma ListStartsPlain(s: string, p: Parts)
    requires Bounds(s, p) && Readable(s, p)
    ensures var v := ListOf(s, p); v != "" ==> !IsSpace(v[0])
  {
    hide Readable, ParseTableRef, KeywordHit, LeadEnd, SelectAt, ListPrefix, SkipSpace, SpacesAreSQL;
    ReadableFacts(s, p);
    PlainOf(s, p);
    var list := s[p.listStart..p.fromAt];
    PrefixEnds(list);
    FirstIsPlain(ListOf(s, p));
    assert ListOf(s, p) == list[ListPrefix(list)..];
  }

  lemma FirstIsPlain(v: string)
    requires PlainSpaces(v)
    ensures v != "" && IsSpace(v[0]) ==> IsSQLSpace(v[0])
  {
    AtStart(v, 0);
  }

  lemma PrefixEnds(list: string)
    ensures ListPrefix(list) < |list| ==> !IsSQLSpace(list[ListPrefix(list)])
  {
    hide StartsWithKeyword;
  }

  lemma NewFirst(v: string, item: string, columns: seq<Column>, ref: TableRef, glued: bool)
    requires columns != [] && RewriteItem(item, columns, ref) != [] && (ref.aliasText == "" || TokenText(ref.aliasText))
    requires |item| <= |v| && v[..|item|] == item && (glued && v != "" ==> !IsKeywordChar(v[0]))
    ensures var x := RewriteItem(item, columns, ref)[0];
      glued && x != "" && IsKeywordChar(x[0]) <==> glued && ContinuesWord(item, columns, ref)
  {
    hide ParseStar, ParseColumn, QualifierMatches, TokenText, Trim, ColumnRef, XmlColumn, Key;
    if IsMatchingStar(item, ref) {
      ColumnFirst(columns[0], columns, ref);
    } else if IsBareXmlColumn(item, columns, ref) {
      assert RewriteXmlColumn(item, columns, ref)[0] == SERIALIZE_OPEN[0] == 'X';
    } else {
      assert item != "" ==> item[0] == v[..|item|][0];
    }
  }

  lemma ColumnFirst(column: Column, columns: seq<Column>, ref: TableRef)
    requires ref.aliasText == "" || TokenText(ref.aliasText)
    ensures var x := SelectColumn(column, columns, ref);
      x != "" && (IsKeywordChar(x[0]) <==>
        XmlColumn(columns, Key(column.name)).Some? || (ref.aliasText != "" && IsKeywordChar(ref.aliasText[0])))
  {
    hide TokenText, QuoteIdentifier, Trim, XmlColumn, Key;
    var x := SelectColumn(column, columns, ref);
    if XmlColumn(columns, Key(column.name)).Some? {
      assert x[0] == SERIALIZE_OPEN[0] == 'X';
    } else {
      RefInert(ref.aliasText, column.name);
      QuoteStart(column.name);
      assert ref.aliasText != "" ==> x[0] == ref.aliasText[0];
    }
  }

  /** The rewritten statement is read as the same SELECT, with exactly the new items, if and only if the
      list does not touch the keyword before it. */
  lemma RewriteReadsBack(s: string, p: Parts, columns: seq<Column>)
    requires Rewritable(s, p) && columns != []
    ensures var items := RewriteItems(SplitList(ListOf(s, p)), columns, p.ref);
      var t := WithList(s, p, items);
      var q := p.(fromAt := p.listAt + |ListText(items)|);
      && (ParseSelect(t) == Some(q) <==> !Touching(s, p, columns))
      && p.listAt <= q.fromAt <= |t| && SplitList(t[p.listAt..q.fromAt]) == items
  {
    hide Rewritable, HasModifier, ListText, RewriteItems, RewriteItem, ParseSelect, Glued, Touching, WithList,
      SplitList, StartsWithModifier, AnyNeedsRewrite, Readable, CommentsEnd, AliasUsable, TokenText, ItemOk,
      ParseTableRef, FindKeyword;
    RewritableFacts(s, p);
    NewListGood(s, p, columns);
    var items := RewriteItems(SplitList(ListOf(s, p)), columns, p.ref);
    if !HasModifier(s[p.listStart..p.fromAt]) {
      NoNewModifier(s, p, columns);
    }
    ReadsBack(s, p, items);
    GluedIsTouching(s, p, columns);
    FromAndTableKept(s, p, items);
    ListTextSplits("", items);
    assert "" + ListText(items) == ListText(items);
  }

  /** Rewriting twice is rewriting once: if the list does not touch the keyword before it, the rewritten
      statement is handled and left as it is. */
  lemma RewriteTwice(s: string, p: Parts, load: Loader, items: seq<string>)
    requires Rewritable(s, p) && NewItems(ListOf(s, p), p.ref, load) == Ok(Some(items))
    requires !Touching(s, p, load(p.ref.schema, p.ref.table).value)
    ensures RewriteDirect(s, load) == Ok(Direct(WithList(s, p, items), true, true))
    ensures RewriteDirect(WithList(s, p, items), load) == Ok(Direct(WithList(s, p, items), false, true))
  {
    hide Rewritable, WithList, ListText, ParseSelect, SplitList, Touching, AnyNeedsRewrite, RewriteItems, RewriteItem,
      NewItems, Readable, GoodList, AliasUsable, TokenText, CommentsEnd;
    RewritableFacts(s, p);
    var columns := NewItemsColumns(ListOf(s, p), p.ref, load);
    RewriteReadsBack(s, p, columns);
    NewListGood(s, p, columns);
    var t := WithList(s, p, items);
    var q := p.(fromAt := p.listAt + |ListText(items)|);
    NotNew(t[p.listAt..q.fromAt], p.ref, load, columns, items);
    ReadableParse(s, p);
  }

  lemma ReadableParse(s: string, p: Parts)
    requires Readable(s, p)
    ensures ParseSelect(s) == Some(p)
  {
  }

  lemma NewItemsColumns(list: string, ref: TableRef, load: Loader) returns (columns: seq<Column>)
    requires NewItems(list, ref, load).Ok? && NewItems(list, ref, load).value.Some?
    ensures load(ref.schema, ref.table) == Ok(columns) && columns != []
    ensures NewItems(list, ref, load) == Ok(Some(RewriteItems(SplitList(list), columns, ref)))
  {
    hide SplitList, RewriteItems, MayReferenceXml, AnyNeedsRewrite;
    columns := load(ref.schema, ref.table).value;
  }

  lemma NotNew(list: string, ref: TableRef, load: Loader, columns: seq<Column>, items: seq<string>)
    requires load(ref.schema, ref.table) == Ok(columns) && SplitList(list) == items
    requires !AnyNeedsRewrite(items, columns, ref)
    ensures NewItems(list, ref, load) == Ok(None)
  {
    hide SplitList, MayReferenceXml, AnyNeedsRewrite, RewriteItems;
  }
}
