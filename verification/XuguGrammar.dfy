/** Catalog text as nested parentheses and delimited names, and what the scanners make of it. */
module XuguGrammar {
  import opened Text
  import opened QuotedIdentifiers
  import opened XuguSplit
  import opened XuguCatalogText

  /** A text: characters, delimited names and parentheses, in order. */
  datatype Doc = Empty | Char(c: char, rest: Doc) | Name(name: string, rest: Doc) | Paren(inner: Doc, rest: Doc)

  function Written(d: Doc): string {
    match d
    case Empty => ""
    case Char(c, rest) => [c] + Written(rest)
    case Name(name, rest) => QuoteIdentifier(name) + Written(rest)
    case Paren(inner, rest) => "(" + (Written(inner) + (")" + Written(rest)))
  }

  /** Quotes and parentheses stand only where the shape says. */
  predicate Shaped(d: Doc) {
    match d
    case Empty => true
    case Char(c, rest) => c != '"' && c != '(' && c != ')' && Shaped(rest)
    case Name(_, rest) => Shaped(rest)
    case Paren(inner, rest) => Shaped(inner) && Shaped(rest)
  }

  lemma {:induction false} DoubledRuns(name: string, k: nat)
    ensures Run(COMMAS, Scan(true, k), Doubled(name, '"') + "\"") == Scan(false, k)
  {
    var d := Doubled(name, '"') + "\"";
    if name == "" {
      assert d == "\"" && d[1..] == "";
    } else {
      DoubledRuns(name[1..], k);
      var rest := Doubled(name[1..], '"') + "\"";
      if name[0] == '"' {
        assert d == "\"\"" + rest && d[1..] == "\"" + rest && d[1..][1..] == rest;
      } else {
        assert d == [name[0]] + rest && d[1..] == rest;
      }
    }
  }

  lemma NameRuns(name: string, k: nat)
    ensures Run(COMMAS, Scan(false, k), QuoteIdentifier(name)) == Scan(false, k)
  {
    hide Run;
    DoubledRuns(name, k);
    var d := Doubled(name, '"') + "\"";
    assert QuoteIdentifier(name) == "\"" + d;
    QuoteRuns(d, k);
  }

  lemma QuoteRuns(d: string, k: nat)
    ensures Run(COMMAS, Scan(false, k), "\"" + d) == Run(COMMAS, Scan(true, k), d)
  {
    assert ("\"" + d)[1..] == d;
  }

  lemma OneRuns(c: char, s: string, st: Scan)
    ensures Run(COMMAS, st, [c] + s) == Run(COMMAS, Next(COMMAS, st, c), s)
  {
    assert ([c] + s)[1..] == s;
  }

  /** Every shaped text leaves the scan at the depth at which it found it. */
  lemma {:induction false} ShapedRuns(d: Doc, k: nat)
    requires Shaped(d)
    ensures Run(COMMAS, Scan(false, k), Written(d)) == Scan(false, k)
    decreases d
  {
    hide Run, QuoteIdentifier;
    match d
    case Empty => EmptyRuns(Scan(false, k));
    case Char(c, rest) =>
      OneRuns(c, Written(rest), Scan(false, k));
      ShapedRuns(rest, k);
    case Name(name, rest) =>
      NameRuns(name, k);
      RunConcat(COMMAS, Scan(false, k), QuoteIdentifier(name), Written(rest));
      ShapedRuns(rest, k);
    case Paren(inner, rest) =>
      OneRuns('(', Written(inner) + (")" + Written(rest)), Scan(false, k));
      ShapedRuns(inner, k + 1);
      RunConcat(COMMAS, Scan(false, k + 1), Written(inner), ")" + Written(rest));
      OneRuns(')', Written(rest), Scan(false, k + 1));
      ShapedRuns(rest, k);
  }

  lemma EmptyRuns(st: Scan)
    ensures Run(COMMAS, st, "") == st
  {
  }

  // ---- splitting ----

  /** No comma outside parentheses and names. */
  predicate NoComma(d: Doc) {
    match d
    case Empty => true
    case Char(c, rest) => c != ',' && NoComma(rest)
    case Name(_, rest) => NoComma(rest)
    case Paren(_, rest) => NoComma(rest)
  }

  lemma {:induction false} DoubledIsWhole(name: string, k: nat)
    ensures Whole(COMMAS, Scan(true, k), Doubled(name, '"') + "\"")
  {
    var d := Doubled(name, '"') + "\"";
    if name == "" {
      assert d == "\"" && d[1..] == "";
    } else {
      DoubledIsWhole(name[1..], k);
      var rest := Doubled(name[1..], '"') + "\"";
      if name[0] == '"' {
        assert d == "\"\"" + rest && d[1..] == "\"" + rest && d[1..][1..] == rest;
      } else {
        assert d == [name[0]] + rest && d[1..] == rest;
      }
    }
  }

  lemma OneIsWhole(c: char, s: string, st: Scan)
    ensures Whole(COMMAS, st, [c] + s) <==> !Separates(COMMAS, st, c) && Whole(COMMAS, Next(COMMAS, st, c), s)
  {
    assert ([c] + s)[1..] == s;
  }

  lemma NameIsWhole(name: string, k: nat)
    ensures Whole(COMMAS, Scan(false, k), QuoteIdentifier(name))
  {
    hide Whole;
    DoubledIsWhole(name, k);
    var d := Doubled(name, '"') + "\"";
    assert QuoteIdentifier(name) == ['"'] + d;
    OneIsWhole('"', d, Scan(false, k));
  }

  lemma {:induction false} ShapedIsWhole(d: Doc, k: nat)
    requires Shaped(d) && (k == 0 ==> NoComma(d))
    ensures Whole(COMMAS, Scan(false, k), Written(d))
    decreases d
  {
    hide Run, Whole, QuoteIdentifier;
    match d
    case Empty => EmptyIsWhole(Scan(false, k));
    case Char(c, rest) =>
      OneIsWhole(c, Written(rest), Scan(false, k));
      ShapedIsWhole(rest, k);
    case Name(name, rest) =>
      NameRuns(name, k);
      NameIsWhole(name, k);
      WholeConcat(COMMAS, Scan(false, k), QuoteIdentifier(name), Written(rest));
      ShapedIsWhole(rest, k);
    case Paren(inner, rest) =>
      OneIsWhole('(', Written(inner) + (")" + Written(rest)), Scan(false, k));
      ShapedIsWhole(inner, k + 1);
      ShapedRuns(inner, k + 1);
      WholeConcat(COMMAS, Scan(false, k + 1), Written(inner), ")" + Written(rest));
      OneIsWhole(')', Written(rest), Scan(false, k + 1));
      ShapedIsWhole(rest, k);
  }

  lemma EmptyIsWhole(st: Scan)
    ensures Whole(COMMAS, st, "")
  {
  }

  function WrittenAll(docs: seq<Doc>): (r: seq<string>)
    ensures |r| == |docs| && forall i | 0 <= i < |r| :: r[i] == Written(docs[i])
  {
    seq(|docs|, i requires 0 <= i < |docs| => Written(docs[i]))
  }

  /** Texts between commas are split at just these commas; commas in parentheses, however deep, and in
      delimited names stay. */
  lemma ShapedSplit(docs: seq<Doc>)
    requires docs != [] && forall i | 0 <= i < |docs| :: Shaped(docs[i]) && NoComma(docs[i])
    ensures Split(COMMAS, TOP, Join(WrittenAll(docs), ",")) == WrittenAll(docs)
  {
    hide Whole, Run, Split;
    forall i | 0 <= i < |docs|
      ensures Whole(COMMAS, TOP, WrittenAll(docs)[i]) && Run(COMMAS, TOP, WrittenAll(docs)[i]) == TOP
    {
      ShapedIsWhole(docs[i], 0);
      ShapedRuns(docs[i], 0);
    }
    JoinThenSplit(COMMAS, WrittenAll(docs));
  }

  // ---- groups ----

  /** The texts in the outer parentheses. */
  function Inside(d: Doc): seq<string> {
    match d
    case Empty => []
    case Char(_, rest) => Inside(rest)
    case Name(_, rest) => Inside(rest)
    case Paren(inner, rest) => [Written(inner)] + Inside(rest)
  }

  lemma OneGroups(st: Scan, acc: string, c: char, s: string)
    ensures Groups(st, acc, [c] + s) ==
      if !st.quoted && c == ')' && st.depth == 1 then [acc] + Groups(TOP, "", s)
      else Groups(Next(COMMAS, st, c), if st.depth > 0 then acc + [c] else "", s)
  {
    assert ([c] + s)[1..] == s;
  }

  lemma {:induction false} QuotedGroups(name: string, k: nat, acc: string, rest: string)
    ensures var d := Doubled(name, '"') + "\"";
      Groups(Scan(true, k), acc, d + rest) == Groups(Scan(false, k), if k > 0 then acc + d else "", rest)
  {
    hide Groups;
    var d := Doubled(name, '"') + "\"";
    if name == "" {
      assert d == "\"" && d + rest == ['"'] + rest && acc + ['"'] == acc + d;
      OneGroups(Scan(true, k), acc, '"', rest);
    } else {
      var tail := Doubled(name[1..], '"') + "\"";
      var c := name[0];
      var acc1 := if k > 0 then acc + [c] else "";
      OneGroups(Scan(true, k), acc, c, (if c == '"' then ['"'] + tail else tail) + rest);
      if c == '"' {
        assert d == [c] + (['"'] + tail) && d + rest == [c] + ((['"'] + tail) + rest);
        assert (['"'] + tail) + rest == ['"'] + (tail + rest);
        OneGroups(Scan(false, k), acc1, '"', tail + rest);
        QuotedGroups(name[1..], k, if k > 0 then acc1 + ['"'] else "", rest);
        assert acc + [c] + ['"'] + tail == acc + d;
      } else {
        assert d == [c] + tail && d + rest == [c] + (tail + rest);
        QuotedGroups(name[1..], k, acc1, rest);
        assert acc + [c] + tail == acc + d;
      }
    }
  }

  lemma NameGroups(name: string, k: nat, acc: string, rest: string)
    ensures Groups(Scan(false, k), acc, QuoteIdentifier(name) + rest)
         == Groups(Scan(false, k), if k > 0 then acc + QuoteIdentifier(name) else "", rest)
  {
    hide Groups;
    var d := Doubled(name, '"') + "\"";
    assert QuoteIdentifier(name) == ['"'] + d && QuoteIdentifier(name) + rest == ['"'] + (d + rest);
    OneGroups(Scan(false, k), acc, '"', d + rest);
    QuotedGroups(name, k, if k > 0 then acc + ['"'] else "", rest);
    assert acc + ['"'] + d == acc + QuoteIdentifier(name);
  }

  /** Inside a group everything shaped is taken as it is. */
  lemma {:induction false} DeepGroups(d: Doc, k: nat, acc: string, rest: string)
    requires Shaped(d) && k > 0
    ensures Groups(Scan(false, k), acc, Written(d) + rest) == Groups(Scan(false, k), acc + Written(d), rest)
    decreases d
  {
    hide Groups, QuoteIdentifier;
    match d
    case Empty => assert "" + rest == rest && acc + "" == acc;
    case Char(c, more) =>
      assert Written(d) + rest == [c] + (Written(more) + rest);
      OneGroups(Scan(false, k), acc, c, Written(more) + rest);
      DeepGroups(more, k, acc + [c], rest);
      assert acc + [c] + Written(more) == acc + Written(d);
    case Name(name, more) =>
      assert Written(d) + rest == QuoteIdentifier(name) + (Written(more) + rest);
      NameGroups(name, k, acc, Written(more) + rest);
      DeepGroups(more, k, acc + QuoteIdentifier(name), rest);
      assert acc + QuoteIdentifier(name) + Written(more) == acc + Written(d);
    case Paren(inner, more) =>
      var tail := Written(more) + rest;
      RegroupParen(acc, Written(inner), Written(more), rest);
      OneGroups(Scan(false, k), acc, '(', Written(inner) + ([')'] + tail));
      DeepGroups(inner, k + 1, acc + ['('], [')'] + tail);
      OneGroups(Scan(false, k + 1), acc + ['('] + Written(inner), ')', tail);
      DeepGroups(more, k, acc + ['('] + Written(inner) + [')'], rest);
  }

  lemma RegroupParen(acc: string, x: string, y: string, rest: string)
    ensures "(" + (x + (")" + y)) + rest == ['('] + (x + ([')'] + (y + rest)))
    ensures acc + ['('] + x + [')'] + y == acc + ("(" + (x + (")" + y)))
  {
  }

  /** The groups found are the texts in the outer parentheses, in order, whatever is nested in them. */
  lemma {:induction false} ShapedGroups(d: Doc, rest: string)
    requires Shaped(d)
    ensures Groups(TOP, "", Written(d) + rest) == Inside(d) + Groups(TOP, "", rest)
    decreases d
  {
    hide Groups, QuoteIdentifier;
    match d
    case Empty => assert "" + rest == rest && [] + Groups(TOP, "", rest) == Groups(TOP, "", rest);
    case Char(c, more) =>
      assert Written(d) + rest == [c] + (Written(more) + rest);
      OneGroups(TOP, "", c, Written(more) + rest);
      ShapedGroups(more, rest);
    case Name(name, more) =>
      assert Written(d) + rest == QuoteIdentifier(name) + (Written(more) + rest);
      NameGroups(name, 0, "", Written(more) + rest);
      ShapedGroups(more, rest);
    case Paren(inner, more) =>
      var tail := Written(more) + rest;
      RegroupParen("", Written(inner), Written(more), rest);
      OneGroups(TOP, "", '(', Written(inner) + ([')'] + tail));
      DeepGroups(inner, 1, "", [')'] + tail);
      assert "" + Written(inner) == Written(inner);
      OneGroups(Scan(false, 1), Written(inner), ')', tail);
      ShapedGroups(more, rest);
      assert [Written(inner)] + (Inside(more) + Groups(TOP, "", rest)) == Inside(d) + Groups(TOP, "", rest);
  }

  lemma GroupsAre(d: Doc)
    requires Shaped(d)
    ensures Groups(TOP, "", Written(d)) == Inside(d)
  {
    hide Groups, Inside;
    ShapedGroups(d, "");
    NoneLeft();
    assert Written(d) + "" == Written(d) && Inside(d) + [] == Inside(d);
  }

  lemma NoneLeft()
    ensures Groups(TOP, "", "") == []
  {
  }
}
