/** The XMLTYPE rewrite of one SELECT over a single table: how the select list, the table and the
    items are read, and what is spliced in. */
module OracleSelect {
  import opened Text
  import opened SqlLexer
  import opened QuotedIdentifiers
  import opened OracleTokens

  // ---- reading the statement ----

  predicate IsKeywordChar(c: char) { IsLetter(c) || IsDigit(c) || c == '_' || c == '$' }

  predicate StartsWithKeyword(s: string, keyword: string) {
    var t := Trim(s);
    && |t| >= |keyword|
    && EqualFold(t[..|keyword|], keyword)
    && (|t| > |keyword| ==> !IsKeywordChar(t[|keyword|]))
  }

  function IndexLineEnd(s: string, from: nat): (r: int)
    ensures r == -1 || (from <= r < |s| && (s[r] == '\r' || s[r] == '\n'))
    decreases |s| - from
  {
    if from >= |s| then -1
    else if s[from] == '\r' || s[from] == '\n' then from
    else IndexLineEnd(s, from + 1)
  }

  lemma TrimShort(s: string)
    ensures |Trim(s)| <= |s|
  {
    var _ := TrimSplits(s);
  }

  function TrimLeadingSQLComments(s: string): string
    decreases |s|
  {
    TrimShort(s);
    var r := Trim(s);
    if "--" <= r then
      var e := IndexLineEnd(r, 0);
      if e == -1 then "" else TrimLeadingSQLComments(r[e + 1..])
    else if "/*" <= r then
      var c := IndexBlockClose(r, 2);
      if c == -1 then "" else TrimLeadingSQLComments(r[c + 2..])
    else r
  }

  lemma {:induction false} TrimLeadingShort(s: string)
    ensures |TrimLeadingSQLComments(s)| <= |s|
    decreases |s|
  {
    TrimShort(s);
    var r := Trim(s);
    if "--" <= r {
      var e := IndexLineEnd(r, 0);
      if e != -1 { TrimLeadingShort(r[e + 1..]); }
    } else if "/*" <= r {
      var c := IndexBlockClose(r, 2);
      if c != -1 { TrimLeadingShort(r[c + 2..]); }
    }
  }

  method TrimLeadingComments(sqlText: string) returns (remaining: string)
    ensures remaining == TrimLeadingSQLComments(sqlText)
  {
    hide Trim;
    remaining := Trim(sqlText);
    TrimTwice(sqlText);
    while true
      invariant Trim(remaining) == remaining
      invariant TrimLeadingSQLComments(remaining) == TrimLeadingSQLComments(sqlText)
      decreases |remaining|
    {
      var rest: string;
      if "--" <= remaining {
        var lineEnd := IndexLineEnd(remaining, 0);
        if lineEnd < 0 {
          return "";
        }
        rest := remaining[lineEnd + 1..];
      } else if "/*" <= remaining {
        var commentEnd := IndexBlockClose(remaining, 2);
        if commentEnd < 0 {
          return "";
        }
        rest := remaining[commentEnd + 2..];
      } else {
        return;
      }
      TrimShort(rest);
      TrimTwice(rest);
      remaining := Trim(rest);
    }
  }

  /** leadingSQLSelectListStart: the offset is computed from the length of a text that was trimmed
      at both ends. */
  function LeadingSelectListStart(s: string): (r: int)
    ensures r == -1 || 6 <= r <= |s|
  {
    var trimmed := TrimLeadingSQLComments(s);
    TrimLeadingShort(s);
    if !StartsWithKeyword(trimmed, "select") then -1
    else
      TrimShort(trimmed);
      |s| - |trimmed| + 6
  }

  datatype TableRef = TableRef(schema: string, table: string, alias: string, aliasText: string)

  function Key(value: string): string { Upper(Trim(value)) }

  predicate IsClause(name: string) {
    Key(name) in
      ["WHERE", "GROUP", "ORDER", "HAVING", "CONNECT", "START", "MODEL", "FETCH", "OFFSET", "UNION",
       "MINUS", "INTERSECT"]
  }

  predicate NextKeywordIsClause(s: string) {
    var t := Trim(s);
    t == "" || (var r := ReadToken(t, 0); r.TokenAt? && IsClause(r.token.name))
  }

  predicate StartsJoin(s: string) {
    || StartsWithKeyword(s, "join") || StartsWithKeyword(s, "inner") || StartsWithKeyword(s, "left")
    || StartsWithKeyword(s, "right") || StartsWithKeyword(s, "full") || StartsWithKeyword(s, "cross")
  }

  predicate CommaAt(s: string, pos: nat) {
    var p := SkipSpace(s, pos); p < |s| && s[p] == ','
  }

  /** parseSingleOracleTableRef on the text after FROM. */
  function ParseTableRef(s: string): Option<TableRef> {
    var start := SkipSpace(s, 0);
    if start >= |s| || s[start] == '(' then None
    else
      match ReadToken(s, start)
      case NoToken => None
      case TokenAt(first, next) =>
        var pos := SkipSpace(s, next);
        if pos < |s| && s[pos] == '.' then
          match ReadToken(s, SkipSpace(s, pos + 1))
          case NoToken => None
          case TokenAt(second, after) => WithAlias(s, SkipSpace(s, after), TableRef(first.name, second.name, "", ""))
        else WithAlias(s, pos, TableRef("", first.name, "", ""))
  }

  function WithAlias(s: string, pos: nat, ref: TableRef): Option<TableRef> {
    if pos >= |s| then Some(ref)
    else if CommaAt(s, pos) then None
    else if NextKeywordIsClause(s[pos..]) then Some(ref)
    else if StartsJoin(s[pos..]) then None
    else
      var read := ReadToken(s, pos);
      if read.TokenAt? && !IsClause(read.token.name) then
        var after := SkipSpace(s, read.next);
        if CommaAt(s, after) || (after <= |s| && StartsJoin(s[after..])) then None
        else Some(ref.(alias := read.token.name, aliasText := read.token.text))
      else Some(ref)
  }

  function ModifierPrefix(list: string, start: nat, keyword: string): (r: nat)
    requires start <= |list|
    ensures r <= |list|
  {
    if start + |keyword| <= |list| then SkipSpace(list, start + |keyword|) else |list|
  }

  /** splitOracleSelectListModifier: how much of the list text is white space and DISTINCT or ALL. */
  function ListPrefix(list: string): (r: nat)
    ensures r <= |list|
  {
    var start := SkipSpace(list, 0);
    if StartsWithKeyword(list[start..], "distinct") then ModifierPrefix(list, start, "distinct")
    else if StartsWithKeyword(list[start..], "all") then ModifierPrefix(list, start, "all")
    else start
  }

  /** Where a direct rewrite found things: the select list is `[listAt, fromAt)`. */
  datatype Parts = Parts(listStart: nat, listAt: nat, fromAt: nat, ref: TableRef)

  function ParseSelect(s: string): (r: Option<Parts>)
    ensures r.Some? ==> var p := r.value; p.listStart <= p.listAt <= p.fromAt && p.fromAt + 4 <= |s|
  {
    var listStart := LeadingSelectListStart(s);
    if listStart < 0 then None
    else
      var fromAt := FindKeyword(s, listStart, "from");
      if fromAt < 0 then None
      else
        match ParseTableRef(s[fromAt + 4..])
        case None => None
        case Some(ref) => Some(Parts(listStart, listStart + ListPrefix(s[listStart..fromAt]), fromAt, ref))
  }

  // ---- reading an item ----

  datatype ColumnItem = ColumnItem(qualifier: string, column: Token, alias: string)

  function ParseStar(item: string): Option<string> {
    var t := Trim(item);
    if t == "*" then Some("")
    else
      match ReadToken(t, 0)
      case NoToken => None
      case TokenAt(qualifier, next) =>
        var pos := SkipSpace(t, next);
        if pos >= |t| || t[pos] != '.' then None
        else
          var star := SkipSpace(t, pos + 1);
          if star < |t| && t[star] == '*' && Trim(t[star + 1..]) == "" then Some(qualifier.text) else None
  }

  function ParseColumn(item: string): Option<ColumnItem> {
    var t := Trim(item);
    match ReadToken(t, 0)
    case NoToken => None
    case TokenAt(first, next) =>
      var pos := SkipSpace(t, next);
      if pos < |t| && t[pos] == '.' then
        match ReadToken(t, SkipSpace(t, pos + 1))
        case NoToken => None
        case TokenAt(second, after) => ItemAlias(t, SkipSpace(t, after), ColumnItem(first.text, second, ""))
      else ItemAlias(t, pos, ColumnItem("", first, ""))
  }

  function ItemAlias(t: string, pos: nat, column: ColumnItem): Option<ColumnItem> {
    if pos >= |t| then Some(column)
    else
      var from := if StartsWithKeyword(t[pos..], "as") then SkipSpace(t, pos + 2) else pos;
      match ReadToken(t, from)
      case NoToken => None
      case TokenAt(alias, after) =>
        if after <= |t| && Trim(t[after..]) == "" then Some(column.(alias := alias.text)) else None
  }

  predicate QualifierMatches(qualifier: string, ref: TableRef) {
    || Trim(qualifier) == ""
    || (ref.alias != "" && Key(Unquote(qualifier)) == Key(ref.alias))
    || Key(Unquote(qualifier)) == Key(ref.table)
  }

  // ---- rewriting an item ----

  datatype Column = Column(name: string, dataType: string)

  type Loader = (string, string) -> Result<seq<Column>>

  predicate IsXMLType(dataType: string) { Upper(Trim(dataType)) in ["XMLTYPE", "SYS.XMLTYPE"] }

  /** The XMLTYPE column that the driver's map holds under a key: the last one put there. */
  function XmlColumn(columns: seq<Column>, key: string): (r: Option<Column>)
    ensures r.Some? ==> r.value in columns && IsXMLType(r.value.dataType) && Key(r.value.name) == key
  {
    if columns == [] then None
    else
      var last := columns[|columns| - 1];
      if IsXMLType(last.dataType) && Key(last.name) == key then Some(last)
      else XmlColumn(columns[..|columns| - 1], key)
  }

  const SERIALIZE_OPEN := "XMLSERIALIZE(CONTENT "
  const SERIALIZE_AS := " AS CLOB) AS "

  function SerializeExpression(columnRef: string, alias: string): string {
    SERIALIZE_OPEN + columnRef + SERIALIZE_AS + alias
  }

  function ColumnRef(qualifier: string, column: string): string {
    if Trim(qualifier) == "" then QuoteIdentifier(column) else qualifier + "." + QuoteIdentifier(column)
  }

  function SelectColumn(column: Column, columns: seq<Column>, ref: TableRef): string {
    if XmlColumn(columns, Key(column.name)).Some?
    then SerializeExpression(ColumnRef(ref.aliasText, column.name), QuoteIdentifier(column.name))
    else ColumnRef(ref.aliasText, column.name)
  }

  function ExpandStar(list: seq<Column>, columns: seq<Column>, ref: TableRef): (r: seq<string>)
    ensures |r| == |list|
    ensures forall i | 0 <= i < |list| :: r[i] == SelectColumn(list[i], columns, ref)
  {
    seq(|list|, i requires 0 <= i < |list| => SelectColumn(list[i], columns, ref))
  }

  predicate IsMatchingStar(item: string, ref: TableRef) {
    ParseStar(item).Some? && QualifierMatches(ParseStar(item).value, ref)
  }

  predicate IsBareXmlColumn(item: string, columns: seq<Column>, ref: TableRef) {
    && ParseColumn(item).Some?
    && QualifierMatches(ParseColumn(item).value.qualifier, ref)
    && XmlColumn(columns, Key(ParseColumn(item).value.column.name)).Some?
  }

  predicate NeedsRewrite(item: string, columns: seq<Column>, ref: TableRef) {
    IsMatchingStar(item, ref) || IsBareXmlColumn(item, columns, ref)
  }

  function RewriteXmlColumn(item: string, columns: seq<Column>, ref: TableRef): string
    requires IsBareXmlColumn(item, columns, ref)
  {
    var c := ParseColumn(item).value;
    var name := XmlColumn(columns, Key(c.column.name)).value.name;
    SerializeExpression(ColumnRef(c.qualifier, name), if c.alias == "" then QuoteIdentifier(name) else c.alias)
  }

  function RewriteItem(item: string, columns: seq<Column>, ref: TableRef): seq<string> {
    if IsMatchingStar(item, ref) then ExpandStar(columns, columns, ref)
    else if IsBareXmlColumn(item, columns, ref) then [RewriteXmlColumn(item, columns, ref)]
    else [item]
  }

  function RewriteItems(items: seq<string>, columns: seq<Column>, ref: TableRef): seq<string> {
    if items == [] then [] else RewriteItem(items[0], columns, ref) + RewriteItems(items[1..], columns, ref)
  }

  predicate AnyNeedsRewrite(items: seq<string>, columns: seq<Column>, ref: TableRef) {
    exists i | 0 <= i < |items| :: NeedsRewrite(items[i], columns, ref)
  }

  lemma {:induction false} RewriteItemsAppend(items: seq<string>, item: string, columns: seq<Column>, ref: TableRef)
    ensures RewriteItems(items + [item], columns, ref)
         == RewriteItems(items, columns, ref) + RewriteItem(item, columns, ref)
  {
    hide RewriteItem;
    if items == [] {
      assert items + [item] == [item];
      assert RewriteItems([item], columns, ref) == RewriteItem(item, columns, ref) + [];
    } else {
      RewriteItemsAppend(items[1..], item, columns, ref);
      assert (items + [item])[1..] == items[1..] + [item];
    }
  }

  method RewriteSelectItemsForXMLType(items: seq<string>, columns: seq<Column>, ref: TableRef)
    returns (rewritten: seq<string>, changed: bool)
    ensures rewritten == RewriteItems(items, columns, ref)
    ensures changed == AnyNeedsRewrite(items, columns, ref)
  {
    hide Trim, ParseStar, ParseColumn, QualifierMatches, Key, SelectColumn;
    var xmlColumns: map<string, Column> := map[];
    for i := 0 to |columns|
      invariant forall key :: key in xmlColumns <==> XmlColumn(columns[..i], key).Some?
      invariant forall key | key in xmlColumns :: XmlColumn(columns[..i], key) == Some(xmlColumns[key])
    {
      assert columns[..i + 1][..i] == columns[..i];
      if IsXMLType(columns[i].dataType) {
        xmlColumns := xmlColumns[Key(columns[i].name) := columns[i]];
      }
    }
    assert columns[..|columns|] == columns;
    rewritten, changed := [], false;
    for i := 0 to |items|
      invariant rewritten == RewriteItems(items[..i], columns, ref)
      invariant changed == exists k | 0 <= k < i :: NeedsRewrite(items[k], columns, ref)
    {
      var item := items[i];
      assert items[..i + 1] == items[..i] + [item];
      RewriteItemsAppend(items[..i], item, columns, ref);
      var star := ParseStar(item);
      var column := ParseColumn(item);
      if star.Some? && QualifierMatches(star.value, ref) {
        rewritten := rewritten + ExpandStar(columns, columns, ref);
        changed := true;
      } else if && column.Some? && QualifierMatches(column.value.qualifier, ref)
                && Key(column.value.column.name) in xmlColumns {
        var meta := xmlColumns[Key(column.value.column.name)];
        var alias := if column.value.alias == "" then QuoteIdentifier(meta.name) else column.value.alias;
        rewritten := rewritten + [SerializeExpression(ColumnRef(column.value.qualifier, meta.name), alias)];
        changed := true;
      } else {
        rewritten := rewritten + [item];
      }
    }
    assert items[..|items|] == items;
  }

  // ---- the direct rewrite ----

  /** What a rewrite attempt on one statement comes to: `handled` says the statement is a SELECT
      over one table, so nested SELECTs are not looked for. */
  datatype Direct = Direct(text: string, changed: bool, handled: bool)

  predicate MayReferenceXml(items: seq<string>) {
    exists i | 0 <= i < |items| :: ParseStar(items[i]).Some? || ParseColumn(items[i]).Some?
  }

  predicate HaveXMLType(columns: seq<Column>) {
    exists i | 0 <= i < |columns| :: IsXMLType(columns[i].dataType)
  }

  /** The new select list, or none when the statement stays as it is. */
  function NewItems(list: string, ref: TableRef, load: Loader): Result<Option<seq<string>>> {
    var items := SplitList(list);
    if |items| == 0 || !MayReferenceXml(items) then Ok(None)
    else
      match load(ref.schema, ref.table)
      case Err(e) => Err(e)
      case Ok(columns) =>
        if !HaveXMLType(columns) || !AnyNeedsRewrite(items, columns, ref) then Ok(None)
        else Ok(Some(RewriteItems(items, columns, ref)))
  }

  function WithList(s: string, p: Parts, items: seq<string>): string
    requires p.listAt <= p.fromAt <= |s|
  {
    s[..p.listAt] + Join(items, ", ") + " " + s[p.fromAt..]
  }

  function RewriteDirect(s: string, load: Loader): Result<Direct> {
    match ParseSelect(s)
    case None => Ok(Direct(s, false, false))
    case Some(p) =>
      match NewItems(s[p.listAt..p.fromAt], p.ref, load)
      case Err(e) => Err(e)
      case Ok(None) => Ok(Direct(s, false, true))
      case Ok(Some(items)) => Ok(Direct(WithList(s, p, items), true, true))
  }
}
