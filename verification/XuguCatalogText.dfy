/** Identifier lists, index keys and foreign-key text of the Xugu driver: what is printed reads back. */
module XuguCatalogText {
  import opened Text
  import opened QuotedIdentifiers
  import opened XuguSplit

  // ---- identifier lists ----

  function QuoteAll(names: seq<string>): (r: seq<string>)
    ensures |r| == |names|
  {
    seq(|names|, i requires 0 <= i < |names| => QuoteIdentifier(names[i]))
  }

  function QuotedList(names: seq<string>): string { Join(QuoteAll(names), ", ") }

  method PrintIdentifiers(values: seq<string>) returns (r: string)
    ensures r == QuotedList(values)
  {
    var quoted: seq<string> := [];
    for i := 0 to |values|
      invariant quoted == QuoteAll(values)[..i]
    {
      quoted := quoted + [QuoteIdentifier(values[i])];
    }
    assert QuoteAll(values)[..|values|] == QuoteAll(values);
    r := Join(quoted, ", ");
  }

  /** The delimited identifiers of a text, from position `i` on; what is between them is ignored. */
  function QuotedNames(s: string, i: nat): seq<string>
    decreases |s| - i
  {
    if i >= |s| then []
    else if s[i] != '"' then QuotedNames(s, i + 1)
    else match ReadQuoted(s, i)
      case NoIdentifier => []
      case Identifier(name, next) => ReadQuotedText(s, i); [name] + QuotedNames(s, next)
  }

  method ParseQuotedIdentifiers(value: string) returns (result: seq<string>)
    ensures result == QuotedNames(value, 0)
  {
    result := [];
    var i := 0;
    while i < |value|
      invariant 0 <= i <= |value| && QuotedNames(value, 0) == result + QuotedNames(value, i)
      decreases |value| - i
    {
      if value[i] != '"' {
        i := i + 1;
        continue;
      }
      var read := ReadQuotedIdentifier(value, i);
      if read.NoIdentifier? {
        break;
      }
      ReadQuotedText(value, i);
      result := result + [read.name];
      i := read.next;
    }
  }

  lemma {:induction false} QuotedNamesOf(pre: string, names: seq<string>)
    ensures QuotedNames(pre + QuotedList(names), |pre|) == names
    decreases |names|
  {
    var s := pre + QuotedList(names);
    if |names| == 1 {
      QuoteThenRead(pre, names[0], "");
      assert s == pre + QuoteIdentifier(names[0]) + "";
    } else if |names| > 1 {
      var q := QuoteIdentifier(names[0]);
      assert QuoteAll(names)[1..] == QuoteAll(names[1..]);
      assert QuotedList(names) == q + ", " + QuotedList(names[1..]);
      var rest := ", " + QuotedList(names[1..]);
      assert s == pre + q + rest;
      QuoteThenRead(pre, names[0], rest);
      var pre2 := pre + q + ", ";
      assert s == pre2 + QuotedList(names[1..]);
      assert s[|pre| + |q|] == ',' && s[|pre| + |q| + 1] == ' ';
      QuotedNamesOf(pre2, names[1..]);
      assert QuotedNames(s, |pre| + |q|) == QuotedNames(s, |pre| + |q| + 1) == QuotedNames(s, |pre2|);
      assert QuotedNames(s, |pre|) == [names[0]] + QuotedNames(s, |pre| + |q|);
      assert [names[0]] + names[1..] == names;
    }
  }

  /** Reading a printed identifier list gives the names back, whatever characters they have. */
  lemma QuotedListReadsBack(names: seq<string>)
    ensures QuotedNames(QuotedList(names), 0) == names
  {
    QuotedNamesOf("", names);
    assert "" + QuotedList(names) == QuotedList(names);
  }

  // ---- what printed pieces are for the scanners ----

  lemma {:induction false} DoubledScans(name: string)
    ensures var d := Doubled(name, '"') + "\"";
      && Quiet(true, d) && Whole(COMMAS, Scan(true, 0), d) && Run(COMMAS, Scan(true, 0), d) == TOP
  {
    var d := Doubled(name, '"') + "\"";
    if name != "" {
      DoubledScans(name[1..]);
      var rest := Doubled(name[1..], '"') + "\"";
      if name[0] == '"' {
        assert d == "\"\"" + rest && d[1..] == "\"" + rest && d[1..][1..] == rest;
      } else {
        assert d == [name[0]] + rest && d[1..] == rest;
      }
    } else {
      assert d == "\"" && d[1..] == "";
    }
  }

  lemma QuotedScans(name: string)
    ensures var q := QuoteIdentifier(name);
        Quiet(false, q) && Whole(COMMAS, TOP, q) && Run(COMMAS, TOP, q) == TOP && Trim(q) == q
  {
    DoubledScans(name);
    var q := QuoteIdentifier(name);
    assert q[1..] == Doubled(name, '"') + "\"" && q[0] == '"';
    TrimFixed(q);
  }

  /** Nothing in the text matters to the scanners. */
  predicate Plain(s: string) { forall i | 0 <= i < |s| :: s[i] != '"' && s[i] != '(' && s[i] != ')' && s[i] != ',' }

  lemma {:induction false} PlainScans(s: string)
    requires Plain(s)
    ensures Quiet(false, s) && Whole(COMMAS, TOP, s) && Run(COMMAS, TOP, s) == TOP
  {
    if s != "" {
      assert Plain(s[1..]) by {
        assert forall i | 0 <= i < |s[1..]| :: s[1..][i] == s[i + 1];
      }
      PlainScans(s[1..]);
    }
  }

  lemma PlainIsQuiet(s: string)
    requires Plain(s)
    ensures Quiet(false, s)
  {
    PlainScans(s);
  }

  /** All pieces but the first get the space that follows the comma. */
  function Spaced(pieces: seq<string>): (r: seq<string>)
    ensures |r| == |pieces|
    ensures forall i | 0 <= i < |r| :: r[i] == if i == 0 then pieces[0] else " " + pieces[i]
  {
    seq(|pieces|, i requires 0 <= i < |pieces| => if i == 0 then pieces[0] else " " + pieces[i])
  }

  lemma {:induction false} JoinSpaced(pieces: seq<string>)
    requires pieces != []
    ensures Join(pieces, ", ") == Join(Spaced(pieces), ",")
    decreases |pieces|
  {
    if |pieces| > 1 {
      var rest := pieces[1..];
      JoinSpaced(rest);
      assert Spaced(pieces)[1..] == XuguSplit.Prefixed(" ", Spaced(rest));
      JoinPrefixed(" ", Spaced(rest), ",");
      assert pieces[0] + ", " + Join(rest, ", ") == pieces[0] + "," + (" " + Join(rest, ", "));
    }
  }

  lemma SplitJoined(pieces: seq<string>)
    requires Listable(COMMAS, pieces) && pieces != []
    ensures Split(COMMAS, TOP, Join(pieces, ", ")) == Spaced(pieces)
  {
    var spaced := Spaced(pieces);
    forall i | 0 <= i < |spaced|
      ensures Whole(COMMAS, TOP, spaced[i]) && Run(COMMAS, TOP, spaced[i]) == Run(COMMAS, TOP, pieces[i])
    {
      if i > 0 {
        assert (" " + pieces[i])[1..] == pieces[i];
      }
    }
    JoinSpaced(pieces);
    JoinThenSplit(COMMAS, spaced);
  }

  lemma TrimSpaced(s: string)
    ensures Trim(" " + s) == Trim(s)
  {
    assert (" " + s)[1..] == s;
  }

  // ---- parseIdentifierList ----

  function Unquote(value: string): Option<string> {
    var v := Trim(value);
    if |v| < 2 || v[0] != '"' then None
    else match ReadQuoted(v, 0)
      case NoIdentifier => None
      case Identifier(name, next) => ReadQuotedText(v, 0); if Trim(v[next..]) == "" then Some(name) else None
  }

  /** strings.Trim with a double quote as the cutset. */
  function TrimQuotes(s: string): string
    decreases |s|
  {
    if s != "" && s[0] == '"' then TrimQuotes(s[1..])
    else if s != "" && s[|s| - 1] == '"' then TrimQuotes(s[..|s| - 1])
    else s
  }

  function NameOf(piece: string): string { if Unquote(piece).Some? then Unquote(piece).value else TrimQuotes(piece) }

  function NamesOf(pieces: seq<string>): seq<string> {
    if pieces == [] then []
    else (if Trim(pieces[0]) == "" then [] else [NameOf(Trim(pieces[0]))]) + NamesOf(pieces[1..])
  }

  function IdentifierList(value: string): seq<string> { NamesOf(Split(COMMAS, TOP, value)) }

  method ParseIdentifierList(value: string) returns (result: seq<string>)
    ensures result == IdentifierList(value)
  {
    hide Trim, NameOf, NamesOf, Split;
    var parts := SplitTopLevel(value, ',');
    result := [];
    NamesStep(parts, |parts|);
    for i := 0 to |parts|
      invariant NamesOf(parts) == result + NamesOf(parts[i..])
    {
      NamesStep(parts, i);
      var part := Trim(parts[i]);
      if part == "" {
        continue;
      }
      result := result + [NameOf(part)];
    }
  }

  lemma NamesStep(parts: seq<string>, i: nat)
    requires i <= |parts|
    ensures parts[0..] == parts && NamesOf(parts[|parts|..]) == []
    ensures i < |parts| ==>
      NamesOf(parts[i..]) == (if Trim(parts[i]) == "" then [] else [NameOf(Trim(parts[i]))]) + NamesOf(parts[i + 1..])
  {
    hide Trim, NameOf;
    assert i < |parts| ==> parts[i..][1..] == parts[i + 1..];
  }

  lemma QuotedNameOf(name: string)
    ensures var q := QuoteIdentifier(name); Trim(q) == q != "" && Unquote(q) == Some(name)
  {
    QuotedScans(name);
    var q := QuoteIdentifier(name);
    QuoteThenRead("", name, "");
    assert "" + q + "" == q;
  }

  lemma {:induction false} NamesOfQuoted(pieces: seq<string>, names: seq<string>)
    requires |pieces| == |names|
    requires forall i | 0 <= i < |names| ::
        pieces[i] == QuoteIdentifier(names[i]) || pieces[i] == " " + QuoteIdentifier(names[i])
    ensures NamesOf(pieces) == names
  {
    hide QuoteIdentifier, Unquote, Trim;
    if names != [] {
      QuotedNameOf(names[0]);
      TrimSpaced(QuoteIdentifier(names[0]));
      NamesOfQuoted(pieces[1..], names[1..]);
      assert [names[0]] + names[1..] == names;
    }
  }

  /** A printed list of names is also what parseIdentifierList reads, even when names hold commas,
      quotes, parentheses or outer spaces. */
  lemma IdentifierListReadsBack(names: seq<string>)
    ensures IdentifierList(QuotedList(names)) == names
  {
    hide NamesOf, QuoteIdentifier, Quiet, Whole, Split;
    if names == [] {
      EmptyList();
    } else {
      forall i | 0 <= i < |names|
        ensures Whole(COMMAS, TOP, QuoteAll(names)[i]) && Run(COMMAS, TOP, QuoteAll(names)[i]) == TOP
      {
        QuotedScans(names[i]);
      }
      SplitJoined(QuoteAll(names));
      NamesOfQuoted(Spaced(QuoteAll(names)), names);
    }
  }

  lemma EmptyList()
    ensures IdentifierList(QuotedList([])) == []
  {
    assert Split(COMMAS, TOP, "") == [""] && Trim("") == "";
    assert NamesOf([""]) == [];
  }

  // ---- foreign keys ----

  datatype Constraint = Constraint(
    name: string, definition: string, referenceSchema: string, referenceTable: string,
    matchType: string, updateAction: string, deleteAction: string, deferrable: bool, initiallyDeferred: bool)

  function ForeignKeyColumns(define: string): (seq<string>, seq<string>) {
    var groups := Groups(TOP, "", define);
    if |groups| < 2 then
      var columns := QuotedNames(define, 0);
      if |columns| % 2 == 0 then (columns[..|columns| / 2], columns[|columns| / 2..]) else (columns, [])
    else (IdentifierList(groups[0]), IdentifierList(groups[1]))
  }

  method ParseForeignKeyColumns(define: string) returns (columns: seq<string>, referenced: seq<string>)
    ensures (columns, referenced) == ForeignKeyColumns(define)
  {
    var groups := ParenthesizedGroups(define);
    if |groups| < 2 {
      columns := ParseQuotedIdentifiers(define);
      if |columns| % 2 == 0 {
        var mid := |columns| / 2;
        return columns[..mid], columns[mid..];
      }
      return columns, [];
    }
    columns := ParseIdentifierList(groups[0]);
    referenced := ParseIdentifierList(groups[1]);
  }

  function MatchClause(value: string): (r: string)
    ensures Plain(r)
  {
    var v := Upper(Trim(value));
    if v == "A" then "MATCH FULL" else if v == "P" then "MATCH PARTIAL" else ""
  }

  function ReferentialAction(value: string): (r: string)
    ensures Plain(r)
  {
    var v := Upper(Trim(value));
    if v == "N" then "NO ACTION"
    else if v == "R" then "RESTRICT"
    else if v == "C" then "CASCADE"
    else if v == "U" then "SET NULL"
    else if v == "D" then "SET DEFAULT"
    else ""
  }

  function Clause(keyword: string, text: string): string { if text != "" then keyword + text else "" }

  function Clauses(c: Constraint): string {
    Clause(" ", MatchClause(c.matchType))
    + (Clause(" ON UPDATE ", ReferentialAction(c.updateAction))
    + (Clause(" ON DELETE ", ReferentialAction(c.deleteAction))
    + Deferral(c)))
  }

  function Deferral(c: Constraint): string {
    if !c.deferrable then " NOT DEFERRABLE"
    else if c.initiallyDeferred then " DEFERRABLE INITIALLY DEFERRED"
    else " DEFERRABLE INITIALLY IMMEDIATE"
  }

  function Opening(schema: string, table: string, name: string): string {
    "ALTER TABLE " + (QuoteIdentifier(schema) + ("." + (QuoteIdentifier(table)
        + (" ADD CONSTRAINT " + (QuoteIdentifier(name)
    + " FOREIGN KEY ")))))
  }

  function References(c: Constraint): string {
    " REFERENCES " + ((if Trim(c.referenceSchema) != "" then QuoteIdentifier(c.referenceSchema) + "." else "")
    + (QuoteIdentifier(c.referenceTable) + " "))
  }

  /** renderXuguForeignKeyAlterDDL. */
  function ForeignKeyAlterDDL(schema: string, table: string, c: Constraint): string {
    var name := Trim(c.name);
    var definition := Trim(c.definition);
    if name == "" || definition == "" then ""
    else
      var (columns, referenced) := ForeignKeyColumns(definition);
      if columns == [] || referenced == [] || Trim(c.referenceTable) == "" then ""
      else
        Opening(schema, table, name) + ("(" + (QuotedList(columns) + (")" + (References(c)
        + ("(" + (QuotedList(referenced) + (")" + Clauses(c))))))))
  }

  lemma OpeningWordsAreQuiet()
    ensures Quiet(false, "ALTER TABLE ") && Quiet(false, ".") && Quiet(false, " ADD CONSTRAINT ")
        && Quiet(false, " FOREIGN KEY ")
  {
    hide Quiet;
    PlainIsQuiet("ALTER TABLE ");
    PlainIsQuiet(".");
    PlainIsQuiet(" ADD CONSTRAINT ");
    PlainIsQuiet(" FOREIGN KEY ");
  }

  lemma OpeningIsQuiet(schema: string, table: string, name: string)
    ensures Quiet(false, Opening(schema, table, name))
  {
    hide QuoteIdentifier, Quiet, Whole, Run, Trim;
    QuotedScans(schema);
    QuotedScans(table);
    QuotedScans(name);
    OpeningWordsAreQuiet();
    QuietConcat(false, QuoteIdentifier(name), " FOREIGN KEY ");
    var a := QuoteIdentifier(name) + " FOREIGN KEY ";
    QuietConcat(false, " ADD CONSTRAINT ", a);
    var b := " ADD CONSTRAINT " + a;
    QuietConcat(false, QuoteIdentifier(table), b);
    var d := QuoteIdentifier(table) + b;
    QuietConcat(false, ".", d);
    QuietConcat(false, QuoteIdentifier(schema), "." + d);
    QuietConcat(false, "ALTER TABLE ", QuoteIdentifier(schema) + ("." + d));
  }

  lemma ReferencesIsQuiet(c: Constraint)
    ensures Quiet(false, References(c))
  {
    hide QuoteIdentifier, Quiet, Trim, Whole, Run;
    QuotedScans(c.referenceSchema);
    QuotedScans(c.referenceTable);
    PlainIsQuiet("");
    PlainIsQuiet(" ");
    PlainIsQuiet(".");
    PlainIsQuiet(" REFERENCES ");
    QuietConcat(false, QuoteIdentifier(c.referenceTable), " ");
    QuietConcat(false, QuoteIdentifier(c.referenceSchema), ".");
    var schema := if Trim(c.referenceSchema) != "" then QuoteIdentifier(c.referenceSchema) + "." else "";
    QuietConcat(false, schema, QuoteIdentifier(c.referenceTable) + " ");
    QuietConcat(false, " REFERENCES ", schema + (QuoteIdentifier(c.referenceTable) + " "));
  }

  lemma ClauseIsQuiet(keyword: string, text: string)
    requires Plain(keyword) && Plain(text)
    ensures Quiet(false, Clause(keyword, text))
  {
    hide Quiet, Plain;
    PlainIsQuiet(keyword);
    PlainIsQuiet(text);
    EmptyIsQuiet();
    QuietConcat(false, keyword, text);
  }

  lemma EmptyIsQuiet()
    ensures Quiet(false, "")
  {
  }

  lemma DeferralIsQuiet(c: Constraint)
    ensures Quiet(false, Deferral(c))
  {
    hide Quiet;
    if !c.deferrable {
      PlainIsQuiet(" NOT DEFERRABLE");
    } else if c.initiallyDeferred {
      PlainIsQuiet(" DEFERRABLE INITIALLY DEFERRED");
    } else {
      PlainIsQuiet(" DEFERRABLE INITIALLY IMMEDIATE");
    }
  }

  lemma ClausesAreQuiet(c: Constraint)
    ensures Quiet(false, Clauses(c))
  {
    hide Quiet, Clause, MatchClause, ReferentialAction, Deferral;
    DeferralIsQuiet(c);
    ClauseIsQuiet(" ", MatchClause(c.matchType));
    ClauseIsQuiet(" ON UPDATE ", ReferentialAction(c.updateAction));
    ClauseIsQuiet(" ON DELETE ", ReferentialAction(c.deleteAction));
    var deferral := Deferral(c);
    var onDelete := Clause(" ON DELETE ", ReferentialAction(c.deleteAction));
    var onUpdate := Clause(" ON UPDATE ", ReferentialAction(c.updateAction));
    QuietConcat(false, onDelete, deferral);
    QuietConcat(false, onUpdate, onDelete + deferral);
    QuietConcat(false, Clause(" ", MatchClause(c.matchType)), onUpdate + (onDelete + deferral));
  }

  lemma CommaIsQuiet()
    ensures Quiet(false, ", ")
  {
    assert ", "[1..] == " " && " "[1..] == "";
  }

  lemma {:induction false} QuotedListIsQuiet(names: seq<string>)
    ensures Quiet(false, QuotedList(names))
  {
    hide QuoteIdentifier, Quiet;
    PlainIsQuiet("");
    if names != [] {
      QuotedScans(names[0]);
      if |names| > 1 {
        assert QuoteAll(names)[1..] == QuoteAll(names[1..]);
        QuotedListIsQuiet(names[1..]);
        CommaIsQuiet();
        QuietConcat(false, QuoteIdentifier(names[0]), ", ");
        QuietConcat(false, QuoteIdentifier(names[0]) + ", ", QuotedList(names[1..]));
      }
    }
  }

  /** The printed statement has exactly two top-level groups, the two column lists, whatever the names
      of schema, table, constraint and referenced table are; so it parses to the columns that the
      catalog's definition parses to. */
  lemma ForeignKeyRoundTrip(schema: string, table: string, c: Constraint)
    ensures var r := ForeignKeyAlterDDL(schema, table, c);
      var (columns, referenced) := ForeignKeyColumns(Trim(c.definition));
      r != "" ==>
        && Groups(TOP, "", r) == [QuotedList(columns), QuotedList(referenced)]
        && ForeignKeyColumns(r) == (columns, referenced) && columns != [] && referenced != []
  {
    hide QuotedList, IdentifierList, Opening, References, Clauses, Quiet, Trim;
    var r := ForeignKeyAlterDDL(schema, table, c);
    var name := Trim(c.name);
    var (columns, referenced) := ForeignKeyColumns(Trim(c.definition));
    OpeningIsQuiet(schema, table, name);
    ReferencesIsQuiet(c);
    QuotedListIsQuiet(columns);
    QuotedListIsQuiet(referenced);
    ClausesAreQuiet(c);
    var after := References(c) + ("(" + (QuotedList(referenced) + (")" + Clauses(c))));
    GroupsOne(References(c), QuotedList(referenced), Clauses(c));
    GroupsOne(Opening(schema, table, name), QuotedList(columns), after);
    NoGroups(Clauses(c));
    IdentifierListReadsBack(columns);
    IdentifierListReadsBack(referenced);
  }

  lemma NoGroups(s: string)
    requires Quiet(false, s)
    ensures Groups(TOP, "", s) == []
  {
    GroupsSkipQuiet(false, s, "");
    assert s + "" == s;
  }

  // ---- index keys ----

  datatype IndexKey = IndexKey(raw: string, column: string, direction: string, plainColumn: bool)

  function IndexKeyOf(value: string): Option<IndexKey> {
    var raw := Trim(value);
    if raw == "" then None
    else match ReadQuoted(raw, 0)
      case NoIdentifier => Some(IndexKey(raw, "", "", false))
      case Identifier(identifier, next) =>
        ReadQuotedText(raw, 0);
        var remainder := Upper(Trim(raw[next..]));
        if remainder == "" then Some(IndexKey(raw, identifier, "", true))
        else if remainder == "ASC" || remainder == "DESC" then Some(IndexKey(raw, identifier, remainder, false))
        else Some(IndexKey(raw, "", "", false))
  }

  function KeysOf(pieces: seq<string>): seq<IndexKey> {
    if pieces == [] then []
    else (if IndexKeyOf(pieces[0]).Some? then [IndexKeyOf(pieces[0]).value] else []) + KeysOf(pieces[1..])
  }

  function IndexKeys(value: string): seq<IndexKey> { KeysOf(Split(COMMAS, TOP, value)) }

  method ParseIndexKeys(value: string) returns (keys: seq<IndexKey>)
    ensures keys == IndexKeys(value)
  {
    hide IndexKeyOf;
    var parts := SplitTopLevel(value, ',');
    keys := [];
    for i := 0 to |parts|
      invariant IndexKeys(value) == keys + KeysOf(parts[i..])
    {
      assert parts[i..][1..] == parts[i + 1..];
      var key := IndexKeyOf(parts[i]);
      if key.Some? {
        keys := keys + [key.value];
      }
    }
  }

  function RenderIndexKey(key: IndexKey): string {
    if key.plainColumn || key.direction != "" then
      QuoteIdentifier(key.column) + (if key.direction != "" then " " + key.direction else "")
    else key.raw
  }

  function RenderIndexKeys(keys: seq<IndexKey>): (r: seq<string>)
    ensures |r| == |keys|
    ensures forall i | 0 <= i < |keys| :: r[i] == RenderIndexKey(keys[i])
  {
    seq(|keys|, i requires 0 <= i < |keys| => RenderIndexKey(keys[i]))
  }

  /** The same key: the same column, direction and plainness; for an expression also the same text. */
  predicate SameKey(a: IndexKey, b: IndexKey) {
    && a.column == b.column && a.direction == b.direction && a.plainColumn == b.plainColumn
    && (!a.plainColumn && a.direction == "" ==> a.raw == b.raw)
  }

  lemma KeyReadsBack(value: string)
    requires IndexKeyOf(value).Some?
    ensures var key := IndexKeyOf(value).value; var again := IndexKeyOf(RenderIndexKey(key));
      again.Some? && SameKey(again.value, key)
  {
    var key := IndexKeyOf(value).value;
    if key.plainColumn || key.direction != "" {
      RenderedColumnReadsBack(key.column, key.direction);
    } else {
      TrimTwice(value);
    }
  }

  lemma RenderedColumnReadsBack(column: string, direction: string)
    requires direction == "" || direction == "ASC" || direction == "DESC"
    ensures var text := QuoteIdentifier(column) + (if direction != "" then " " + direction else "");
      IndexKeyOf(text) == Some(IndexKey(text, column, direction, direction == ""))
  {
    hide Upper;
    var q := QuoteIdentifier(column);
    var suffix := if direction != "" then " " + direction else "";
    var text := q + suffix;
    TrimFixed(text);
    QuoteThenRead("", column, suffix);
    assert "" + q + suffix == text && text[|q|..] == suffix;
    TrimFixed(direction);
    if direction != "" {
      TrimSpaced(direction);
    }
    UpperDirection(direction);
  }

  lemma UpperDirection(direction: string)
    requires direction == "" || direction == "ASC" || direction == "DESC"
    ensures Upper(direction) == direction
  {
    assert Upper("ASC") == "ASC" && Upper("DESC") == "DESC";
  }

  lemma RenderedScans(value: string)
    requires IndexKeyOf(value).Some? && Whole(COMMAS, TOP, value)
    ensures var text := RenderIndexKey(IndexKeyOf(value).value);
      Whole(COMMAS, TOP, text) && (Run(COMMAS, TOP, value) == TOP ==> Run(COMMAS, TOP, text) == TOP)
  {
    hide QuoteIdentifier, Whole, Run, Trim;
    var key := IndexKeyOf(value).value;
    if key.plainColumn || key.direction != "" {
      QuotedScans(key.column);
      var suffix := if key.direction != "" then " " + key.direction else "";
      PlainScans(suffix);
      WholeConcat(COMMAS, TOP, QuoteIdentifier(key.column), suffix);
      RunConcat(COMMAS, TOP, QuoteIdentifier(key.column), suffix);
    } else {
      TrimmedScans(value);
    }
  }

  lemma TrimmedScans(value: string)
    requires Whole(COMMAS, TOP, value)
    ensures Whole(COMMAS, TOP, Trim(value)) && Run(COMMAS, TOP, Trim(value)) == Run(COMMAS, TOP, value)
  {
    hide Whole, Run, Trim;
    var lead := TrimSplits(value);
    var raw := Trim(value);
    var before, after := value[..lead], value[lead + |raw|..];
    assert value == before + (raw + after);
    SpacesScan(TOP, before);
    WholeConcat(COMMAS, TOP, before, raw + after);
    RunConcat(COMMAS, TOP, before, raw + after);
    WholeConcat(COMMAS, TOP, raw, after);
    RunConcat(COMMAS, TOP, raw, after);
    SpacesScan(Run(COMMAS, TOP, raw), after);
  }

  lemma {:induction false} SpacesScan(st: Scan, s: string)
    requires forall i | 0 <= i < |s| :: IsSpace(s[i])
    ensures Run(COMMAS, st, s) == st
    decreases |s|
  {
    if s != "" {
      SpacesScan(st, s[1..]);
    }
  }

  lemma {:induction false} RenderedListable(pieces: seq<string>)
    requires Listable(COMMAS, pieces)
    ensures Listable(COMMAS, RenderIndexKeys(KeysOf(pieces)))
    ensures |KeysOf(pieces)| <= |pieces|
    decreases |pieces|
  {
    hide IndexKeyOf, RenderIndexKey, Whole, Run;
    if pieces != [] {
      ListableTail(COMMAS, pieces);
      RenderedListable(pieces[1..]);
      if IndexKeyOf(pieces[0]).Some? {
        RenderedScans(pieces[0]);
        var texts := RenderIndexKeys(KeysOf(pieces));
        assert texts[1..] == RenderIndexKeys(KeysOf(pieces[1..]));
        ListableWith(COMMAS, texts);
      }
    }
  }

  ghost predicate SameKeys(a: seq<IndexKey>, b: seq<IndexKey>) {
    |a| == |b| && forall i | 0 <= i < |a| :: SameKey(a[i], b[i])
  }

  lemma {:induction false} KeysReadBack(texts: seq<string>, pieces: seq<string>)
    requires |texts| == |KeysOf(pieces)|
    requires var rendered := RenderIndexKeys(KeysOf(pieces));
      forall i | 0 <= i < |texts| :: texts[i] == rendered[i] || texts[i] == " " + rendered[i]
    ensures SameKeys(KeysOf(texts), KeysOf(pieces))
    decreases |pieces|
  {
    hide IndexKeyOf, RenderIndexKey, SameKey;
    if pieces != [] {
      if IndexKeyOf(pieces[0]).Some? {
        var key := IndexKeyOf(pieces[0]).value;
        assert KeysOf(pieces)[0] == key && KeysOf(pieces)[1..] == KeysOf(pieces[1..]);
        KeyReadsBack(pieces[0]);
        SpacedKey(RenderIndexKey(key));
        KeysReadBack(texts[1..], pieces[1..]);
      } else {
        KeysReadBack(texts, pieces[1..]);
      }
    }
  }

  lemma SpacedKey(text: string)
    ensures IndexKeyOf(" " + text) == IndexKeyOf(text)
  {
    TrimSpaced(text);
  }

  /** Parsing the key list printed in CREATE INDEX gives the keys that the catalog text gave: an
      expression key stays as it was even when it holds commas, and an unterminated last piece does no
      harm. */
  lemma IndexKeysRoundTrip(value: string)
    ensures SameKeys(IndexKeys(Join(RenderIndexKeys(IndexKeys(value)), ", ")), IndexKeys(value))
  {
    hide KeysOf, RenderIndexKey, Split;
    var pieces := Split(COMMAS, TOP, value);
    var texts := RenderIndexKeys(KeysOf(pieces));
    SplitListable(COMMAS, TOP, value);
    ListableWith(COMMAS, pieces);
    RenderedListable(pieces);
    if texts == [] {
      NoKeys();
    } else {
      SplitJoined(texts);
      KeysReadBack(Spaced(texts), pieces);
    }
  }

  lemma NoKeys()
    ensures IndexKeys(Join([], ", ")) == []
  {
    assert Split(COMMAS, TOP, "") == [""] && Trim("") == "";
    assert KeysOf([""]) == [];
  }
}
