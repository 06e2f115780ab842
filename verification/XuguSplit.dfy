/** The top-level scanners of the Xugu driver: splitting at a separator, which catalog text and data
    source names need with different quotes, and collecting parenthesized groups. */
module XuguSplit {
  import opened Text

  /** Whether the scan is inside a delimited identifier, and how many parentheses are open. */
  datatype Scan = Scan(quoted: bool, depth: nat)

  const TOP := Scan(false, 0)

  /** What a scan looks for. */
  datatype Lexis = Lexis(quote: char, brackets: bool, separator: char)

  const COMMAS := Lexis('"', true, ',')

  /** A doubled quote leaves the quoted part and enters it again, so one character at a time will do. */
  function Next(lex: Lexis, st: Scan, c: char): Scan {
    if c == lex.quote then st.(quoted := !st.quoted)
    else if st.quoted || !lex.brackets then st
    else if c == '(' then st.(depth := st.depth + 1)
    else if c == ')' && st.depth > 0 then st.(depth := st.depth - 1)
    else st
  }

  function Run(lex: Lexis, st: Scan, s: string): Scan
    decreases |s|
  {
    if s == [] then st else Run(lex, Next(lex, st, s[0]), s[1..])
  }

  lemma {:induction false} RunConcat(lex: Lexis, st: Scan, a: string, b: string)
    ensures Run(lex, st, a + b) == Run(lex, Run(lex, st, a), b)
    decreases |a|
  {
    if a == [] {
      assert a + b == b;
    } else {
      assert (a + b)[1..] == a[1..] + b;
      RunConcat(lex, Next(lex, st, a[0]), a[1..], b);
    }
  }

  // ---- splitting ----

  predicate Separates(lex: Lexis, st: Scan, c: char) {
    st == TOP && c == lex.separator && c != lex.quote && !(lex.brackets && (c == '(' || c == ')'))
  }

  function Split(lex: Lexis, st: Scan, s: string): (r: seq<string>)
    ensures r != []
    decreases |s|
  {
    if s == [] then [""]
    else if Separates(lex, st, s[0]) then [""] + Split(lex, TOP, s[1..])
    else Prefixed([s[0]], Split(lex, Next(lex, st, s[0]), s[1..]))
  }

  function Prefixed(p: string, pieces: seq<string>): (r: seq<string>)
    requires pieces != []
    ensures r != []
  {
    [p + pieces[0]] + pieces[1..]
  }

  lemma PrefixedTwice(p: string, q: string, pieces: seq<string>)
    requires pieces != []
    ensures Prefixed(p, Prefixed(q, pieces)) == Prefixed(p + q, pieces)
    ensures Prefixed("", pieces) == pieces
  {
    assert p + (q + pieces[0]) == (p + q) + pieces[0];
    assert Prefixed(q, pieces)[1..] == pieces[1..];
    assert "" + pieces[0] == pieces[0];
  }

  /** The pieces still to come from position `i`, when the current one starts at `start`. */
  function SplitFrom(lex: Lexis, st: Scan, value: string, start: nat, i: nat): (r: seq<string>)
    requires start <= i <= |value|
    ensures r != []
  {
    Prefixed(value[start..i], Split(lex, st, value[i..]))
  }

  method SplitTopLevel(value: string, separator: char) returns (result: seq<string>)
    ensures result == Split(Lexis('"', true, separator), TOP, value)
  {
    ghost var lex := Lexis('"', true, separator);
    hide SplitFrom, Split;
    result := [];
    var start: nat, i: nat := 0, 0;
    var depth: nat := 0;
    var inQuote := false;
    SplitEnds(lex, TOP, value, 0);
    while i < |value|
      invariant start <= i <= |value|
      invariant Split(lex, TOP, value) == result + SplitFrom(lex, Scan(inQuote, depth), value, start, i)
    {
      SplitStep(lex, Scan(inQuote, depth), value, start, i);
      if inQuote {
        if value[i] == '"' {
          if i + 1 < |value| && value[i + 1] == '"' {
            SplitStep(lex, Scan(false, depth), value, start, i + 1);
            i := i + 1;
          } else {
            inQuote := false;
          }
        }
      } else {
        match value[i]
        case '"' => inQuote := true;
        case '(' => depth := depth + 1;
        case ')' => if depth > 0 { depth := depth - 1; }
        case _ =>
          if value[i] == separator && depth == 0 {
            Regroup(result, value[start..i], SplitFrom(lex, TOP, value, i + 1, i + 1));
            result := result + [value[start..i]];
            start := i + 1;
          }
      }
      i := i + 1;
    }
    SplitEnds(lex, Scan(inQuote, depth), value, start);
    result := result + [value[start..]];
  }

  lemma Regroup(a: seq<string>, x: string, b: seq<string>)
    ensures a + ([x] + b) == (a + [x]) + b
  {
  }

  lemma SplitEnds(lex: Lexis, st: Scan, value: string, start: nat)
    requires start <= |value|
    ensures SplitFrom(lex, TOP, value, 0, 0) == Split(lex, TOP, value)
    ensures SplitFrom(lex, st, value, start, |value|) == [value[start..]]
  {
    PrefixedTwice("", "", Split(lex, TOP, value));
    assert value[0..0] == "" && value[0..] == value && value[|value|..] == ""
        && value[start..|value|] + "" == value[start..];
  }

  lemma SplitStep(lex: Lexis, st: Scan, value: string, start: nat, i: nat)
    requires start <= i < |value|
    ensures SplitFrom(lex, st, value, start, i)
         == if Separates(lex, st, value[i]) then [value[start..i]] + SplitFrom(lex, TOP, value, i + 1, i + 1)
            else SplitFrom(lex, Next(lex, st, value[i]), value, start, i + 1)
  {
    assert value[i..][1..] == value[i + 1..];
    assert value[start..i + 1] == value[start..i] + [value[i]];
    PrefixedTwice(value[start..i], [value[i]], Split(lex, Next(lex, st, value[i]), value[i + 1..]));
    var t := Split(lex, TOP, value[i + 1..]);
    PrefixedTwice("", "", t);
    assert ([""] + t)[1..] == t && value[start..i] + "" == value[start..i] && value[i + 1..i + 1] == "";
  }

  /** The pieces, joined with the separator, are the text again. */
  lemma {:induction false} SplitJoin(lex: Lexis, st: Scan, s: string)
    ensures Join(Split(lex, st, s), [lex.separator]) == s
    decreases |s|
  {
    if s != [] {
      if Separates(lex, st, s[0]) {
        SplitJoin(lex, TOP, s[1..]);
        var r := Split(lex, TOP, s[1..]);
        assert ([""] + r)[1..] == r;
      } else {
        SplitJoin(lex, Next(lex, st, s[0]), s[1..]);
        JoinPrefixed([s[0]], Split(lex, Next(lex, st, s[0]), s[1..]), [lex.separator]);
      }
    }
  }

  lemma JoinPrefixed(p: string, pieces: seq<string>, separator: string)
    requires pieces != []
    ensures Join(Prefixed(p, pieces), separator) == p + Join(pieces, separator)
  {
    assert Prefixed(p, pieces)[1..] == pieces[1..];
    if |pieces| > 1 {
      assert (p + pieces[0]) + separator + Join(pieces[1..], separator)
        == p + (pieces[0] + separator + Join(pieces[1..], separator));
    }
  }

  /** No separator of the text is at the top level. */
  predicate Whole(lex: Lexis, st: Scan, s: string)
    decreases |s|
  {
    s != [] ==> !Separates(lex, st, s[0]) && Whole(lex, Next(lex, st, s[0]), s[1..])
  }

  lemma {:induction false} WholeConcat(lex: Lexis, st: Scan, a: string, b: string)
    ensures Whole(lex, st, a + b) <==> Whole(lex, st, a) && Whole(lex, Run(lex, st, a), b)
    decreases |a|
  {
    if a == [] {
      assert a + b == b;
    } else {
      assert (a + b)[1..] == a[1..] + b;
      WholeConcat(lex, Next(lex, st, a[0]), a[1..], b);
    }
  }

  /** What follows a text without top-level separators only lengthens its one piece. */
  lemma {:induction false} SplitAfterWhole(lex: Lexis, st: Scan, a: string, b: string)
    requires Whole(lex, st, a)
    ensures Split(lex, st, a + b) == Prefixed(a, Split(lex, Run(lex, st, a), b))
    decreases |a|
  {
    if a == [] {
      assert a + b == b;
      PrefixedTwice("", "", Split(lex, st, b));
    } else {
      assert (a + b)[1..] == a[1..] + b;
      SplitAfterWhole(lex, Next(lex, st, a[0]), a[1..], b);
      PrefixedTwice([a[0]], a[1..], Split(lex, Run(lex, st, a), b));
      assert [a[0]] + a[1..] == a;
    }
  }

  lemma SplitWhole(lex: Lexis, st: Scan, s: string)
    requires Whole(lex, st, s)
    ensures Split(lex, st, s) == [s]
  {
    SplitAfterWhole(lex, st, s, "");
    assert s + "" == s;
  }

  /** A list with exactly the given pieces: each is whole, and all but the last are closed. */
  ghost predicate Listable(lex: Lexis, pieces: seq<string>) {
    && (forall i | 0 <= i < |pieces| :: Whole(lex, TOP, pieces[i]))
    && (forall i | 0 <= i < |pieces| - 1 :: Run(lex, TOP, pieces[i]) == TOP)
  }

  lemma {:induction false} JoinThenSplit(lex: Lexis, pieces: seq<string>)
    requires Listable(lex, pieces) && pieces != [] && Separates(lex, TOP, lex.separator)
    ensures Split(lex, TOP, Join(pieces, [lex.separator])) == pieces
    decreases |pieces|
  {
    if |pieces| == 1 {
      SplitWhole(lex, TOP, pieces[0]);
    } else {
      var rest := Join(pieces[1..], [lex.separator]);
      assert Join(pieces, [lex.separator]) == pieces[0] + ([lex.separator] + rest);
      SplitAfterWhole(lex, TOP, pieces[0], [lex.separator] + rest);
      assert ([lex.separator] + rest)[1..] == rest;
      JoinThenSplit(lex, pieces[1..]);
      assert ([""] + pieces[1..])[1..] == pieces[1..] && pieces[0] + "" == pieces[0];
    }
  }

  /** The other way round: the pieces of any text are whole, so each splits into just itself, and all
      but the last are closed. */
  lemma {:induction false} SplitListable(lex: Lexis, st: Scan, s: string)
    ensures var r := Split(lex, st, s);
      && Whole(lex, st, r[0]) && (|r| > 1 ==> Run(lex, st, r[0]) == TOP)
      && Listable(lex, r[1..])
    decreases |s|
  {
    if s != [] {
      var r := Split(lex, st, s);
      if Separates(lex, st, s[0]) {
        SplitListable(lex, TOP, s[1..]);
        assert r[1..] == Split(lex, TOP, s[1..]);
        ListableWith(lex, r[1..]);
      } else {
        SplitListable(lex, Next(lex, st, s[0]), s[1..]);
        var t := Split(lex, Next(lex, st, s[0]), s[1..]);
        assert r[0] == [s[0]] + t[0] && r[0][1..] == t[0] && r[1..] == t[1..];
      }
    }
  }

  lemma ListableWith(lex: Lexis, pieces: seq<string>)
    requires pieces != [] && Whole(lex, TOP, pieces[0]) && (|pieces| > 1 ==> Run(lex, TOP, pieces[0]) == TOP)
    requires Listable(lex, pieces[1..])
    ensures Listable(lex, pieces)
  {
    forall i | 0 <= i < |pieces|
      ensures Whole(lex, TOP, pieces[i]) && (i < |pieces| - 1 ==> Run(lex, TOP, pieces[i]) == TOP)
    {
      if i > 0 {
        assert pieces[i] == pieces[1..][i - 1];
      }
    }
  }

  lemma ListableTail(lex: Lexis, pieces: seq<string>)
    requires pieces != [] && Listable(lex, pieces)
    ensures Listable(lex, pieces[1..])
  {
    hide Whole, Run;
    forall i | 0 <= i < |pieces| - 1
      ensures Whole(lex, TOP, pieces[1..][i]) && (i < |pieces| - 2 ==> Run(lex, TOP, pieces[1..][i]) == TOP)
    {
      assert pieces[1..][i] == pieces[i + 1];
    }
  }

  /** Every piece of a text re-splits to itself. */
  lemma PiecesAreWhole(lex: Lexis, s: string, i: nat)
    requires i < |Split(lex, TOP, s)|
    ensures Split(lex, TOP, Split(lex, TOP, s)[i]) == [Split(lex, TOP, s)[i]]
  {
    var r := Split(lex, TOP, s);
    SplitListable(lex, TOP, s);
    ListableWith(lex, r);
    SplitWhole(lex, TOP, r[i]);
  }

  // ---- parenthesized groups ----

  /** The texts between each top-level parenthesis and the one that closes it; `acc` is what the open
      group has so far. */
  function Groups(st: Scan, acc: string, s: string): seq<string>
    decreases |s|
  {
    if s == [] then []
    else if !st.quoted && s[0] == ')' && st.depth == 1 then [acc] + Groups(TOP, "", s[1..])
    else Groups(Next(COMMAS, st, s[0]), if st.depth > 0 then acc + [s[0]] else "", s[1..])
  }

  method ParenthesizedGroups(value: string) returns (result: seq<string>)
    ensures result == Groups(TOP, "", value)
  {
    result := [];
    var depth: nat, start := 0, -1;
    var inQuote := false;
    var i := 0;
    while i < |value|
      invariant 0 <= i <= |value| && (if depth == 0 then start == -1 else 0 <= start <= i)
      invariant Groups(TOP, "", value)
             == result + Groups(Scan(inQuote, depth), if depth > 0 then value[start..i] else "", value[i..])
    {
      GroupsStep(Scan(inQuote, depth), value, start, i);
      assert value[i + 1..i + 1] == "";
      ghost var before := result;
      if inQuote {
        if value[i] == '"' {
          if i + 1 < |value| && value[i + 1] == '"' {
            GroupsStep(Scan(false, depth), value, start, i + 1);
            i := i + 1;
          } else {
            inQuote := false;
          }
        }
      } else {
        match value[i]
        case '"' => inQuote := true;
        case '(' =>
          if depth == 0 {
            start := i + 1;
          }
          depth := depth + 1;
        case ')' =>
          if depth > 0 {
            depth := depth - 1;
            if depth == 0 && start >= 0 {
              result := result + [value[start..i]];
              assert result + Groups(TOP, "", value[i + 1..])
                  == before + ([value[start..i]] + Groups(TOP, "", value[i + 1..]));
              start := -1;
            }
          }
        case _ =>
      }
      i := i + 1;
    }
  }

  lemma GroupsStep(st: Scan, value: string, start: int, i: nat)
    requires i < |value| && (st.depth > 0 ==> 0 <= start <= i)
    ensures Groups(st, if st.depth > 0 then value[start..i] else "", value[i..])
         == if !st.quoted && value[i] == ')' && st.depth == 1 then [value[start..i]] + Groups(TOP, "", value[i + 1..])
            else Groups(Next(COMMAS, st, value[i]), if st.depth > 0 then value[start..i + 1] else "", value[i + 1..])
  {
    assert value[i..][1..] == value[i + 1..];
    if st.depth > 0 {
      assert value[start..i + 1] == value[start..i] + [value[i]];
    }
  }

  /** Every parenthesis of the text is inside a delimited identifier, and none is left open. */
  predicate Quiet(quoted: bool, s: string)
    decreases |s|
  {
    if s == [] then !quoted
    else if s[0] == '"' then Quiet(!quoted, s[1..])
    else (quoted || (s[0] != '(' && s[0] != ')')) && Quiet(quoted, s[1..])
  }

  lemma {:induction false} QuietConcat(quoted: bool, a: string, b: string)
    requires Quiet(quoted, a) && Quiet(false, b)
    ensures Quiet(quoted, a + b)
    decreases |a|
  {
    if a == [] {
      assert a + b == b;
    } else {
      assert (a + b)[1..] == a[1..] + b;
      QuietConcat(if a[0] == '"' then !quoted else quoted, a[1..], b);
    }
  }

  lemma {:induction false} GroupsSkipQuiet(quoted: bool, a: string, b: string)
    requires Quiet(quoted, a)
    ensures Groups(Scan(quoted, 0), "", a + b) == Groups(TOP, "", b)
    decreases |a|
  {
    if a == [] {
      assert a + b == b;
    } else {
      assert (a + b)[1..] == a[1..] + b;
      GroupsSkipQuiet(if a[0] == '"' then !quoted else quoted, a[1..], b);
    }
  }

  lemma {:induction false} GroupsTakeQuiet(quoted: bool, acc: string, a: string, b: string)
    requires Quiet(quoted, a)
    ensures Groups(Scan(quoted, 1), acc, a + (")" + b)) == [acc + a] + Groups(TOP, "", b)
    decreases |a|
  {
    if a == [] {
      assert a + (")" + b) == ")" + b && (")" + b)[1..] == b && acc + a == acc;
    } else {
      assert (a + (")" + b))[1..] == a[1..] + (")" + b);
      GroupsTakeQuiet(if a[0] == '"' then !quoted else quoted, acc + [a[0]], a[1..], b);
      assert acc + [a[0]] + a[1..] == acc + a;
    }
  }

  /** A quiet text, a group, and so on: the group is found whole. */
  lemma GroupsOne(before: string, group: string, after: string)
    requires Quiet(false, before) && Quiet(false, group)
    ensures Groups(TOP, "", before + ("(" + (group + (")" + after)))) == [group] + Groups(TOP, "", after)
  {
    GroupsSkipQuiet(false, before, "(" + (group + (")" + after)));
    assert ("(" + (group + (")" + after)))[1..] == group + (")" + after);
    GroupsTakeQuiet(false, "", group, after);
    assert "" + group == group;
  }
}
