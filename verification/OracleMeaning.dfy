/** What a select list yields for a row, before and after the rewrite. */
module OracleMeaning {
  import opened Text
  import opened SqlLexer
  import opened QuotedIdentifiers
  import opened OracleTokens
  import opened OracleSelect
  import opened OracleItems
  import opened OracleReparse
  import opened OracleRoundTrip
  import opened OracleRewritten
  import opened OracleIdempotence
  import opened OracleSplice

  // ---- reading an item as SQL ----

  datatype Meaning =
    | AllColumns
    | ColumnValue(name: string, alias: string)
    | Serialized(name: string, alias: string)
    | Other

  /** A database's reading of `XMLSERIALIZE(CONTENT column AS CLOB) AS alias`. */
  function ParseSerialize(item: string): Option<ColumnItem> {
    if !(SERIALIZE_OPEN <= item) then None
    else
      match ReadToken(item, |SERIALIZE_OPEN|)
      case NoToken => None
      case TokenAt(first, next) =>
        if next < |item| && item[next] == '.' then
          match ReadToken(item, next + 1)
          case NoToken => None
          case TokenAt(second, after) => SerializeAlias(item, after, ColumnItem(first.text, second, ""))
        else SerializeAlias(item, next, ColumnItem("", first, ""))
  }

  function SerializeAlias(item: string, pos: nat, c: ColumnItem): Option<ColumnItem> {
    if pos <= |item| && SERIALIZE_AS <= item[pos..] then
      match ReadToken(item, pos + |SERIALIZE_AS|)
      case NoToken => None
      case TokenAt(alias, next) => if next == |item| then Some(c.(alias := alias.text)) else None
    else None
  }

  function MeaningOf(item: string, ref: TableRef): Meaning {
    if IsMatchingStar(item, ref) then AllColumns
    else if ParseColumn(item).Some? && QualifierMatches(ParseColumn(item).value.qualifier, ref) then
      ColumnValue(ParseColumn(item).value.column.name, ParseColumn(item).value.alias)
    else if ParseSerialize(item).Some? && QualifierMatches(ParseSerialize(item).value.qualifier, ref) then
      Serialized(ParseSerialize(item).value.column.name, ParseSerialize(item).value.alias)
    else Other
  }

  // ---- what the database yields ----

  datatype Cell<V> = Cell(name: string, value: V)

  /** One row of the table: the value of each column by name, what serializing an XML value gives,
      and whatever the database yields for an expression that is not about a column of the table. */
  datatype World<!V> = World(row: string -> V, serialize: V -> V, other: string -> Cell<V>)

  function FindColumn(columns: seq<Column>, key: string): (r: Option<Column>)
    ensures r.Some? ==> r.value in columns && Key(r.value.name) == key
  {
    if columns == [] then None
    else if Key(columns[0].name) == key then Some(columns[0])
    else FindColumn(columns[1..], key)
  }

  function OutputName(column: Column, alias: string): string {
    if alias == "" then column.name else Unquote(alias)
  }

  /** The value of a column that is selected as it is; with `expected` XML columns count as
      serialized, which is what the rewrite is for. */
  function ColumnCell<V>(column: Column, alias: string, w: World<V>, expected: bool): Cell<V> {
    var v := w.row(column.name);
    Cell(OutputName(column, alias), if expected && IsXMLType(column.dataType) then w.serialize(v) else v)
  }

  function StarCells<V>(columns: seq<Column>, w: World<V>, expected: bool): (r: seq<Cell<V>>)
    ensures |r| == |columns|
    ensures forall i | 0 <= i < |columns| :: r[i] == ColumnCell(columns[i], "", w, expected)
  {
    seq(|columns|, i requires 0 <= i < |columns| => ColumnCell(columns[i], "", w, expected))
  }

  function ItemCells<V>(item: string, columns: seq<Column>, ref: TableRef, w: World<V>, expected: bool): seq<Cell<V>> {
    match MeaningOf(item, ref)
    case AllColumns => StarCells(columns, w, expected)
    case ColumnValue(name, alias) =>
      (match FindColumn(columns, Key(name))
       case Some(c) => [ColumnCell(c, alias, w, expected)]
       case None => [w.other(item)])
    case Serialized(name, alias) =>
      (match FindColumn(columns, Key(name))
       case Some(c) => [Cell(OutputName(c, alias), w.serialize(w.row(c.name)))]
       case None => [w.other(item)])
    case Other => [w.other(item)]
  }

  function ListCells<V>(items: seq<string>, columns: seq<Column>, ref: TableRef, w: World<V>,
      expected: bool): seq<Cell<V>> {
    if items == [] then []
    else ItemCells(items[0], columns, ref, w, expected) + ListCells(items[1..], columns, ref, w, expected)
  }

  ghost predicate DistinctNames(columns: seq<Column>) {
    forall i, j | 0 <= i < j < |columns| :: Key(columns[i].name) != Key(columns[j].name)
  }

  // ---- finding columns ----

  lemma {:induction false} FindsEach(columns: seq<Column>, i: nat)
    requires i < |columns| && DistinctNames(columns)
    ensures FindColumn(columns, Key(columns[i].name)) == Some(columns[i])
    decreases |columns|
  {
    hide Key;
    if i > 0 {
      assert Key(columns[0].name) != Key(columns[i].name);
      assert columns[1..][i - 1] == columns[i];
      FindsEach(columns[1..], i - 1);
    }
  }

  lemma {:induction false} XmlFound(columns: seq<Column>, c: Column)
    requires c in columns && IsXMLType(c.dataType)
    ensures XmlColumn(columns, Key(c.name)).Some?
    decreases |columns|
  {
    hide Key, IsXMLType;
    var last := columns[|columns| - 1];
    if c != last {
      assert c in columns[..|columns| - 1] by {
        var i :| 0 <= i < |columns| && columns[i] == c;
        assert columns[..|columns| - 1][i] == c;
      }
      XmlFound(columns[..|columns| - 1], c);
    }
  }

  /** With distinct names, the driver's XML map holds a column's key exactly when the column of that
      name is an XML one. */
  lemma XmlIsFound(columns: seq<Column>, key: string)
    requires DistinctNames(columns)
    ensures XmlColumn(columns, key).Some? ==> XmlColumn(columns, key) == FindColumn(columns, key)
    ensures FindColumn(columns, key).Some? ==>
      (XmlColumn(columns, key).Some? <==> IsXMLType(FindColumn(columns, key).value.dataType))
  {
    hide Key, IsXMLType, XmlColumn, FindColumn, DistinctNames;
    if XmlColumn(columns, key).Some? {
      var i :| 0 <= i < |columns| && columns[i] == XmlColumn(columns, key).value;
      FindsEach(columns, i);
    }
    if FindColumn(columns, key).Some? && IsXMLType(FindColumn(columns, key).value.dataType) {
      XmlFound(columns, FindColumn(columns, key).value);
    }
  }

  // ---- reading what was written ----

  lemma SerializeReads(q: string, name: string, alias: string)
    requires q == "" || TokenText(q)
    requires TokenText(alias)
    ensures ParseSerialize(SerializeExpression(ColumnRef(q, name), alias))
         == Some(ColumnItem(q, Token(name, QuoteIdentifier(name), true), alias))
  {
    hide TokenText, ParseSerialize, SerializeExpression, ColumnRef;
    RefText(q, name);
    if q == "" {
      BareReads(name, alias);
    } else {
      QualifiedReads(q, name, alias);
    }
  }

  lemma RefText(q: string, name: string)
    requires q == "" || TokenText(q)
    ensures ColumnRef(q, name) == if q == "" then QuoteIdentifier(name) else q + "." + QuoteIdentifier(name)
  {
    hide TokenText;
    RefInert(q, name);
  }

  lemma BareReads(name: string, alias: string)
    requires TokenText(alias)
    ensures ParseSerialize(SerializeExpression(QuoteIdentifier(name), alias))
         == Some(ColumnItem("", Token(name, QuoteIdentifier(name), true), alias))
  {
    hide TokenText, ReadToken, SerializeAlias, WellFormed;
    var n := Token(name, QuoteIdentifier(name), true);
    QuoteIsToken(name);
    var tail := SERIALIZE_AS + alias;
    var s := SERIALIZE_OPEN + n.text + tail;
    assert s == SerializeExpression(QuoteIdentifier(name), alias);
    TokenReread(SERIALIZE_OPEN, n, tail);
    AliasReads(SERIALIZE_OPEN + n.text, alias, ColumnItem("", n, ""));
    assert s[|SERIALIZE_OPEN + n.text|] == ' ';
  }

  lemma QualifiedReads(q: string, name: string, alias: string)
    requires TokenText(q) && TokenText(alias)
    ensures ParseSerialize(SerializeExpression(q + "." + QuoteIdentifier(name), alias))
         == Some(ColumnItem(q, Token(name, QuoteIdentifier(name), true), alias))
  {
    hide TokenText, ReadToken, SerializeAlias, WellFormed;
    var n := Token(name, QuoteIdentifier(name), true);
    QuoteIsToken(name);
    var tail := SERIALIZE_AS + alias;
    var open := SERIALIZE_OPEN;
    var s := SerializeExpression(q + "." + n.text, alias);
    assert s == open + q + ("." + n.text + tail);
    TokenReread(open, TokenOf(q), "." + n.text + tail);
    assert s[|open| + |q|] == '.';
    assert s == (open + q + ".") + n.text + tail;
    TokenReread(open + q + ".", n, tail);
    assert s == (open + q + "." + n.text) + tail;
    AliasReads(open + q + "." + n.text, alias, ColumnItem(q, n, ""));
  }

  lemma AliasReads(pre: string, alias: string, c: ColumnItem)
    requires TokenText(alias)
    ensures SerializeAlias(pre + (SERIALIZE_AS + alias), |pre|, c) == Some(c.(alias := alias))
  {
    hide TokenText, ReadToken;
    var t := TokenOf(alias);
    var s := pre + (SERIALIZE_AS + alias);
    assert s == (pre + SERIALIZE_AS) + t.text + "";
    TokenReread(pre + SERIALIZE_AS, t, "");
    assert s[|pre|..] == SERIALIZE_AS + alias;
  }

  // ---- the items written mean the items read ----

  lemma QuoteNames(name: string)
    ensures Unquote(QuoteIdentifier(name)) == name && QuoteIdentifier(name) != ""
  {
    QuoteIsToken(name);
    UnquoteToken(Token(name, QuoteIdentifier(name), true));
  }

  lemma SerializeMeaning(q: string, name: string, alias: string, ref: TableRef)
    requires (q == "" || TokenText(q)) && TokenText(alias) && QualifierMatches(q, ref)
    ensures MeaningOf(SerializeExpression(ColumnRef(q, name), alias), ref) == Serialized(name, alias)
  {
    hide TokenText, ParseStar, ParseColumn, ParseSerialize, SerializeExpression, ColumnRef, QualifierMatches;
    SerializeReads(q, name, alias);
    SerializeParses(ColumnRef(q, name), alias);
  }

  lemma RefMeaning(q: string, name: string, ref: TableRef)
    requires (q == "" || TokenText(q)) && QualifierMatches(q, ref)
    ensures MeaningOf(ColumnRef(q, name), ref) == ColumnValue(name, "")
  {
    hide TokenText, ParseStar, ParseColumn, ParseSerialize, ColumnRef, QualifierMatches;
    RefParses(q, name);
  }

  /** The alias that the star expansion writes before a column names the table. */
  ghost predicate AliasNamesTable(ref: TableRef) {
    (ref.aliasText == "" || TokenText(ref.aliasText)) && QualifierMatches(ref.aliasText, ref)
  }

  /** One column of an expanded star yields that column, serialized if it is an XML one. */
  lemma SelectColumnCells<V>(columns: seq<Column>, i: nat, ref: TableRef, w: World<V>)
    requires i < |columns| && DistinctNames(columns) && AliasNamesTable(ref)
    ensures ItemCells(SelectColumn(columns[i], columns, ref), columns, ref, w, false)
        == [ColumnCell(columns[i], "", w, true)]
  {
    hide TokenText, MeaningOf, SerializeExpression, ColumnRef, QualifierMatches, Key, Unquote, DistinctNames,
      IsXMLType, XmlColumn, FindColumn;
    var c := columns[i];
    FindsEach(columns, i);
    XmlIsFound(columns, Key(c.name));
    QuoteIsToken(c.name);
    QuoteNames(c.name);
    if XmlColumn(columns, Key(c.name)).Some? {
      SerializeMeaning(ref.aliasText, c.name, QuoteIdentifier(c.name), ref);
    } else {
      RefMeaning(ref.aliasText, c.name, ref);
    }
  }

  lemma {:induction false} StarRewritten<V>(columns: seq<Column>, n: nat, ref: TableRef, w: World<V>)
    requires n <= |columns| && DistinctNames(columns) && AliasNamesTable(ref)
    ensures ListCells(ExpandStar(columns, columns, ref)[n..], columns, ref, w, false)
        == StarCells(columns, w, true)[n..]
    decreases |columns| - n
  {
    hide SelectColumn, ItemCells, AliasNamesTable, DistinctNames, ColumnCell;
    var texts := ExpandStar(columns, columns, ref);
    var cells := StarCells(columns, w, true);
    if n < |columns| {
      StarRewritten(columns, n + 1, ref, w);
      SelectColumnCells(columns, n, ref, w);
      assert texts[n..][1..] == texts[n + 1..];
      assert cells[n..] == [cells[n]] + cells[n + 1..];
    }
  }

  /** A bare XML column yields its serialized value under the same name. */
  lemma XmlColumnCells<V>(item: string, columns: seq<Column>, ref: TableRef, w: World<V>)
    requires ItemOk(item) && PlainSpaces(item) && DistinctNames(columns)
    requires !IsMatchingStar(item, ref) && IsBareXmlColumn(item, columns, ref)
    ensures ItemCells(RewriteXmlColumn(item, columns, ref), columns, ref, w, false)
        == ItemCells(item, columns, ref, w, true)
  {
    var c := ParseColumn(item).value;
    hide TokenText, SerializeExpression, ColumnRef, QualifierMatches, Key, Unquote, DistinctNames, IsXMLType,
      XmlColumn, FindColumn, ParseColumn, ParseStar, ParseSerialize, ItemOk;
    var found := XmlColumn(columns, Key(c.column.name)).value;
    XmlIsFound(columns, Key(c.column.name));
    ColumnItemTokens(item);
    QuoteIsToken(found.name);
    QuoteNames(found.name);
    SerializeMeaning(c.qualifier, found.name, if c.alias == "" then QuoteIdentifier(found.name) else c.alias, ref);
  }

  lemma KeptCells<V>(item: string, columns: seq<Column>, ref: TableRef, w: World<V>)
    requires DistinctNames(columns) && !NeedsRewrite(item, columns, ref)
    ensures ItemCells(item, columns, ref, w, false) == ItemCells(item, columns, ref, w, true)
  {
    hide QualifierMatches, Key, Unquote, DistinctNames, IsXMLType, XmlColumn, FindColumn, ParseColumn, ParseStar,
      ParseSerialize;
    if ParseColumn(item).Some? {
      XmlIsFound(columns, Key(ParseColumn(item).value.column.name));
    }
  }

  lemma ItemMeaning<V>(item: string, columns: seq<Column>, ref: TableRef, w: World<V>)
    requires ItemOk(item) && PlainSpaces(item) && DistinctNames(columns) && AliasNamesTable(ref)
    ensures ListCells(RewriteItem(item, columns, ref), columns, ref, w, false) == ItemCells(item, columns, ref, w, true)
  {
    hide ItemCells, DistinctNames, AliasNamesTable, IsBareXmlColumn, RewriteXmlColumn, ItemOk, PlainSpaces,
      IsMatchingStar, ExpandStar;
    if IsMatchingStar(item, ref) {
      StarRewritten(columns, 0, ref, w);
      StarItemCells(item, columns, ref, w, true);
      assert ExpandStar(columns, columns, ref)[0..] == ExpandStar(columns, columns, ref);
    } else if IsBareXmlColumn(item, columns, ref) {
      XmlColumnCells(item, columns, ref, w);
      OneItemCells(RewriteXmlColumn(item, columns, ref), columns, ref, w, false);
    } else {
      KeptCells(item, columns, ref, w);
      OneItemCells(item, columns, ref, w, false);
    }
  }

  lemma StarItemCells<V>(item: string, columns: seq<Column>, ref: TableRef, w: World<V>, expected: bool)
    requires IsMatchingStar(item, ref)
    ensures ItemCells(item, columns, ref, w, expected) == StarCells(columns, w, expected)
        == StarCells(columns, w, expected)[0..]
  {
    hide ParseStar, QualifierMatches, ParseColumn, ParseSerialize;
  }

  lemma OneItemCells<V>(item: string, columns: seq<Column>, ref: TableRef, w: World<V>, expected: bool)
    ensures ListCells([item], columns, ref, w, expected) == ItemCells(item, columns, ref, w, expected)
  {
    hide ItemCells;
    assert [item][1..] == [];
  }

  lemma {:induction false} ListCellsConcat<V>(a: seq<string>, b: seq<string>, columns: seq<Column>, ref: TableRef,
      w: World<V>, expected: bool)
    ensures ListCells(a + b, columns, ref, w, expected)
         == ListCells(a, columns, ref, w, expected) + ListCells(b, columns, ref, w, expected)
  {
    hide ItemCells;
    if a == [] {
      assert a + b == b;
    } else {
      ListCellsConcat(a[1..], b, columns, ref, w, expected);
      assert (a + b)[1..] == a[1..] + b;
      var head := ItemCells(a[0], columns, ref, w, expected);
      assert head + (ListCells(a[1..], columns, ref, w, expected) + ListCells(b, columns, ref, w, expected))
          == (head + ListCells(a[1..], columns, ref, w, expected)) + ListCells(b, columns, ref, w, expected);
    }
  }

  /** The rewritten list yields, for every row, exactly what the original list yields with the XML
      columns serialized: the same number of values, in the same order, under the same names. */
  lemma {:induction false} RewriteMeaning<V>(items: seq<string>, columns: seq<Column>, ref: TableRef, w: World<V>)
    requires DistinctNames(columns) && AliasNamesTable(ref)
    requires forall x | x in items :: ItemOk(x) && PlainSpaces(x)
    ensures ListCells(RewriteItems(items, columns, ref), columns, ref, w, false)
        == ListCells(items, columns, ref, w, true)
    decreases |items|
  {
    hide ItemCells, DistinctNames, AliasNamesTable, ItemOk, PlainSpaces, RewriteItem;
    if items != [] {
      assert items[0] in items;
      RewriteMeaning(items[1..], columns, ref, w);
      ItemMeaning(items[0], columns, ref, w);
      ListCellsConcat(RewriteItem(items[0], columns, ref), RewriteItems(items[1..], columns, ref), columns,
        ref, w, false);
    }
  }

  /** The reference: serializing changes values only, and only by serializing them. */
  lemma {:induction false} ExpectedDiffersInValues<V>(items: seq<string>, columns: seq<Column>, ref: TableRef,
      w: World<V>)
    ensures var a := ListCells(items, columns, ref, w, false);
      var b := ListCells(items, columns, ref, w, true);
      && |a| == |b|
      && forall i | 0 <= i < |a| ::
          a[i].name == b[i].name && (b[i].value == a[i].value || b[i].value == w.serialize(a[i].value))
    decreases |items|
  {
    hide MeaningOf, FindColumn, OutputName, IsXMLType;
    if items != [] {
      ExpectedDiffersInValues(items[1..], columns, ref, w);
    }
  }

  // ---- whole statements ----

  /** What a statement over one table yields for a row of that table. */
  function StatementCells<V>(s: string, columns: seq<Column>, w: World<V>, expected: bool): Option<seq<Cell<V>>> {
    match ParseSelect(s)
    case None => None
    case Some(p) => Some(ListCells(SplitList(s[p.listAt..p.fromAt]), columns, p.ref, w, expected))
  }

  /** Meaning preservation for the statement text: read again by the same reader, the rewritten
      statement is over the same table and yields the expected cells for every row. */
  lemma StatementMeaning<V>(s: string, p: Parts, columns: seq<Column>, w: World<V>)
    requires Rewritable(s, p) && columns != [] && DistinctNames(columns) && AliasNamesTable(p.ref)
    requires !Touching(s, p, columns)
    ensures var items := RewriteItems(SplitList(ListOf(s, p)), columns, p.ref);
      StatementCells(WithList(s, p, items), columns, w, false) == StatementCells(s, columns, w, true)
  {
    hide Rewritable, ListCells, ListText, RewriteItems, ParseSelect, Touching, WithList, SplitList, Readable,
      AliasNamesTable, DistinctNames, ItemOk, PlainSpaces;
    RewritableFacts(s, p);
    ReadableParse(s, p);
    RewriteReadsBack(s, p, columns);
    ListItemsReady(s, p);
    RewriteMeaning(SplitList(ListOf(s, p)), columns, p.ref, w);
  }

  /** The same for every statement that the nested rewrite edits: in its place it yields the expected cells,
      and rewriting it again leaves it as it is. */
  lemma NestedMeaning<V>(s: string, load: Loader, depth: nat, e: Edit, p: Parts, columns: seq<Column>, w: World<V>)
    requires SelectEdits(s, load, depth).Ok? && e in SelectEdits(s, load, depth).value
    requires e.at <= e.lo <= e.hi <= e.until <= |s|
    requires Rewritable(s[e.at..e.until], p) && load(p.ref.schema, p.ref.table) == Ok(columns)
    requires !Touching(s[e.at..e.until], p, columns) && DistinctNames(columns) && AliasNamesTable(p.ref)
    ensures StatementCells(Edited(s, e), columns, w, false) == StatementCells(s[e.at..e.until], columns, w, true)
    ensures RewriteDirect(Edited(s, e), load) == Ok(Direct(Edited(s, e), false, true))
  {
    hide Rewritable, ParseSelect, Touching, WithList, Readable, AliasNamesTable, DistinctNames, SelectEdits, Place,
      NewItems, RewriteItems, SplitList, ListOf;
    EditsReplaceLists(s, load, depth);
    assert ReplacesSelectList(s, load, e);
    var x := s[e.at..e.until];
    RewritableFacts(x, p);
    ReadableParse(x, p);
    ListOfIs(x, p);
    var found := NewItemsColumns(ListOf(x, p), p.ref, load);
    var items := RewriteItems(SplitList(ListOf(x, p)), columns, p.ref);
    assert Edited(s, e) == WithList(x, p, items);
    StatementMeaning(x, p, columns, w);
    RewriteTwice(x, p, load, items);
  }

  lemma ListOfIs(s: string, p: Parts)
    requires Bounds(s, p)
    ensures ListOf(s, p) == s[p.listAt..p.fromAt]
  {
  }

  /** The alias read with the table names it, unless it is an empty delimited identifier. */
  lemma ReadAliasNamesTable(s: string)
    requires ParseTableRef(s).Some?
    requires ParseTableRef(s).value.aliasText != "\"\""
    ensures AliasNamesTable(ParseTableRef(s).value)
  {
    hide TokenText, NextKeywordIsClause, StartsJoin, IsClause, ReadToken, QualifierMatches;
    var start := SkipSpace(s, 0);
    var first := ReadToken(s, start);
    var pos := SkipSpace(s, first.next);
    if pos < |s| && s[pos] == '.' {
      AliasMatches(s, SkipSpace(s, ReadToken(s, SkipSpace(s, pos + 1)).next),
          TableRef(first.token.name, ReadToken(s, SkipSpace(s, pos + 1)).token.name, "", ""));
    } else {
      AliasMatches(s, pos, TableRef("", first.token.name, "", ""));
    }
  }

  lemma AliasMatches(s: string, pos: nat, ref: TableRef)
    requires ref.aliasText == "" && ref.alias == "" && WithAlias(s, pos, ref).Some?
    requires WithAlias(s, pos, ref).value.aliasText != "\"\""
    ensures AliasNamesTable(WithAlias(s, pos, ref).value)
  {
    hide TokenText, NextKeywordIsClause, StartsJoin, IsClause, CommaAt, ReadToken, Unquote, Trim;
    TrimFixed("");
    var read := ReadToken(s, pos);
    var r := WithAlias(s, pos, ref).value;
    if r.aliasText != "" {
      ReadTokenShape(s, pos);
      TokenIsText(read.token);
      UnquoteToken(read.token);
      TokenName(read.token);
    }
  }

  lemma TokenName(t: Token)
    requires WellFormed(t) && t.text != "\"\""
    ensures t.name != ""
  {
    assert t.quoted && t.name == "" ==> t.text == "\"\"";
  }
}
