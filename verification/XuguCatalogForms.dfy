/** The texts that the Xugu catalog uses for columns and keys, and what is read from each form. */
module XuguCatalogForms {
  import opened Text
  import opened QuotedIdentifiers
  import opened XuguSplit
  import opened XuguCatalogText

  // ---- foreign-key definitions ----

  /** Two parenthesized lists, whatever stands around them: the columns and the referenced ones. */
  lemma GroupedDefinition(before: string, columns: seq<string>, between: string, referenced: seq<string>, after: string)
    requires Plain(before) && Plain(between) && Plain(after)
    ensures ForeignKeyColumns(before + ("(" + (QuotedList(columns) + (")" + (between
        + ("(" + (QuotedList(referenced) + (")" + after)))))))) == (columns, referenced)
  {
    hide QuotedList, IdentifierList, Quiet, Plain;
    PlainIsQuiet(before);
    PlainIsQuiet(between);
    PlainIsQuiet(after);
    QuotedListIsQuiet(columns);
    QuotedListIsQuiet(referenced);
    GroupsOne(between, QuotedList(referenced), after);
    GroupsOne(before, QuotedList(columns), between + ("(" + (QuotedList(referenced) + (")" + after))));
    NoGroups(after);
    IdentifierListReadsBack(columns);
    IdentifierListReadsBack(referenced);
  }

  /** Without parentheses: as many names on each side, the columns first. */
  lemma FlatDefinition(columns: seq<string>, referenced: seq<string>)
    requires |columns| == |referenced|
    ensures ForeignKeyColumns(QuotedList(columns + referenced)) == (columns, referenced)
  {
    hide QuotedList, IdentifierList, Quiet;
    var names := columns + referenced;
    QuotedListIsQuiet(names);
    NoGroups(QuotedList(names));
    QuotedListReadsBack(names);
    assert names[..|columns|] == columns && names[|columns|..] == referenced;
  }

  /** An odd number of names says nothing about the referenced side. */
  lemma OddDefinition(names: seq<string>)
    requires |names| % 2 == 1
    ensures ForeignKeyColumns(QuotedList(names)) == (names, [])
  {
    hide QuotedList, IdentifierList, Quiet;
    QuotedListIsQuiet(names);
    NoGroups(QuotedList(names));
    QuotedListReadsBack(names);
  }

  lemma {:induction false} BareNames(pieces: seq<string>, names: seq<string>)
    requires |pieces| == |names| && forall x | x in names :: Plain(x) && Trim(x) == x && x != ""
    requires forall i | 0 <= i < |names| :: pieces[i] == names[i] || pieces[i] == " " + names[i]
    ensures NamesOf(pieces) == names
  {
    hide Trim, Plain, NameOf;
    if names != [] {
      assert names[0] in names;
      BareName(names[0]);
      assert forall x | x in names[1..] :: x in names;
      BareNames(pieces[1..], names[1..]);
      assert [names[0]] + names[1..] == names;
    }
  }

  /** A bare name, with or without the blank that follows the comma. */
  lemma BareName(x: string)
    requires Plain(x) && Trim(x) == x && x != ""
    ensures NameOf(x) == x && Trim(" " + x) == x
  {
    hide Trim;
    TrimSpaced(x);
    assert x[0] != '"' && x[|x| - 1] != '"';
    assert Unquote(x) == None;
  }

  /** Names without quotes, between commas, are read as they are. */
  lemma BareListRead(names: seq<string>)
    requires names != [] && forall x | x in names :: Plain(x) && Trim(x) == x && x != ""
    ensures IdentifierList(Join(names, ", ")) == names
  {
    hide NamesOf, Plain, Trim, Whole, Run, Split;
    forall i | 0 <= i < |names|
      ensures Whole(COMMAS, TOP, names[i]) && Run(COMMAS, TOP, names[i]) == TOP
    {
      assert names[i] in names;
      PlainScans(names[i]);
    }
    SplitJoined(names);
    BareNames(Spaced(names), names);
  }

  // ---- index keys ----

  predicate White(s: string) { forall i | 0 <= i < |s| :: IsSpace(s[i]) }

  lemma QuotedKey(lead: string, name: string, suffix: string, tail: string)
    requires White(lead) && White(tail) && NoQuoteNext(suffix) && (suffix != "" ==> !IsSpace(suffix[|suffix| - 1]))
    ensures var raw := QuoteIdentifier(name) + suffix;
      Trim(lead + raw + tail) == raw != "" && ReadQuoted(raw, 0) == Identifier(name, |QuoteIdentifier(name)|)
      && raw[|QuoteIdentifier(name)|..] == suffix
  {
    hide Trim;
    var q := QuoteIdentifier(name);
    var raw := q + suffix;
    assert lead + raw + tail == lead + (raw + tail);
    TrimSkips(lead, raw + tail);
    TrimDropsTrailing(raw + tail, |raw|);
    assert (raw + tail)[..|raw|] == raw;
    assert raw[0] == '"' && raw[|raw| - 1] == if suffix == "" then '"' else suffix[|suffix| - 1];
    TrimFixed(raw);
    QuoteThenRead("", name, suffix);
    assert "" + q + suffix == raw;
  }

  /** A delimited column alone is a plain key. */
  lemma PlainKey(lead: string, name: string, tail: string)
    requires White(lead) && White(tail)
    ensures var q := QuoteIdentifier(name);
      IndexKeyOf(lead + q + tail) == Some(IndexKey(q, name, "", true))
          && RenderIndexKey(IndexKey(q, name, "", true)) == q
  {
    hide Trim, QuoteIdentifier;
    QuotedKey(lead, name, "", tail);
    var q := QuoteIdentifier(name);
    assert q + "" == q;
    TrimFixed("");
    assert Upper("") == "";
  }

  /** With a direction in any letter case: it is kept, and printed in upper case. */
  lemma DirectedKey(lead: string, name: string, gap: string, direction: string, tail: string)
    requires White(lead) && White(gap) && gap != "" && White(tail)
        && (Upper(direction) == "ASC" || Upper(direction) == "DESC")
    ensures var q := QuoteIdentifier(name); var key := IndexKeyOf(lead + (q + (gap + direction)) + tail);
      && key == Some(IndexKey(q + (gap + direction), name, Upper(direction), false))
      && RenderIndexKey(key.value) == q + (if Upper(direction) == "ASC" then " ASC" else " DESC")
  {
    hide Trim, QuoteIdentifier;
    var suffix := gap + direction;
    DirectionEnds(direction);
    assert suffix[0] == gap[0] && suffix[|suffix| - 1] == direction[|direction| - 1];
    QuotedKey(lead, name, suffix, tail);
    TrimSkips(gap, direction);
    TrimFixed(direction);
    assert " " + "ASC" == " ASC" && " " + "DESC" == " DESC";
  }

  lemma DirectionEnds(direction: string)
    requires Upper(direction) == "ASC" || Upper(direction) == "DESC"
    ensures direction != "" && !IsSpace(direction[0]) && !IsSpace(direction[|direction| - 1])
  {
    assert UpperChar(direction[0]) == Upper(direction)[0];
    assert UpperChar(direction[|direction| - 1]) == Upper(direction)[|direction| - 1];
  }

  /** Any other text is an expression, kept and printed as it is; a blank piece is no key. */
  lemma ExpressionKey(value: string)
    requires Trim(value) != "" ==> Trim(value)[0] != '"'
    ensures IndexKeyOf(value) == (if Trim(value) == "" then None else Some(IndexKey(Trim(value), "", "", false)))
    ensures RenderIndexKey(IndexKey(Trim(value), "", "", false)) == Trim(value)
  {
    hide Trim;
  }
}
