/** Delimited identifiers, as both Go drivers print and read them: a double quote inside the name is
    written twice. */
module QuotedIdentifiers {
  import opened Text

  datatype Read = NoIdentifier | Identifier(name: string, next: nat)

  function QuoteIdentifier(name: string): string { "\"" + Doubled(name, '"') + "\"" }

  /** Reads the rest of a delimited identifier whose opening quote is before `i`. */
  function ReadBody(s: string, i: nat): Read
    decreases |s| - i
  {
    if i >= |s| then NoIdentifier
    else if s[i] != '"' then Prefixed(s[i], ReadBody(s, i + 1))
    else if i + 1 < |s| && s[i + 1] == '"' then Prefixed('"', ReadBody(s, i + 2))
    else Identifier("", i + 1)
  }

  function Prefixed(c: char, r: Read): Read {
    if r.NoIdentifier? then r else Identifier([c] + r.name, r.next)
  }

  function ReadQuoted(s: string, start: nat): Read {
    if start < |s| && s[start] == '"' then ReadBody(s, start + 1) else NoIdentifier
  }

  method ReadQuotedIdentifier(value: string, start: nat) returns (r: Read)
    ensures r == ReadQuoted(value, start)
  {
    if start >= |value| || value[start] != '"' {
      return NoIdentifier;
    }
    var builder := "";
    var i := start + 1;
    while i < |value|
      invariant start < i <= |value|
      invariant ReadBody(value, start + 1) == (match ReadBody(value, i)
                                               case NoIdentifier => NoIdentifier
                                               case Identifier(n, e) => Identifier(builder + n, e))
    {
      if value[i] != '"' {
        builder := builder + [value[i]];
        i := i + 1;
      } else if i + 1 < |value| && value[i + 1] == '"' {
        builder := builder + ['"'];
        i := i + 2;
      } else {
        return Identifier(builder, i + 1);
      }
    }
    return NoIdentifier;
  }

  predicate NoQuoteNext(rest: string) { rest == [] || rest[0] != '"' }

  lemma {:induction false} ReadDoubled(s: string, i: nat, name: string)
    requires var d := Doubled(name, '"');
      i + |d| < |s| && s[i..i + |d|] == d && s[i + |d|] == '"' && NoQuoteNext(s[i + |d| + 1..])
    ensures ReadBody(s, i) == Identifier(name, i + |Doubled(name, '"')| + 1)
    decreases |name|
  {
    var d := Doubled(name, '"');
    if name == "" {
      assert i + 1 < |s| ==> s[i + 1] == s[i + 1..][0];
    } else {
      var rest := Doubled(name[1..], '"');
      var k := |d| - |rest|;
      assert s[i + k..i + |d|] == d[k..] == rest;
      ReadDoubled(s, i + k, name[1..]);
      assert s[i] == d[0] && (k == 2 ==> s[i + 1] == d[1]);
      assert [name[0]] + name[1..] == name;
    }
  }

  /** What is printed for a name reads back as that name, whatever characters it has, and reading
      stops right after it. */
  lemma QuoteThenRead(pre: string, name: string, rest: string)
    requires NoQuoteNext(rest)
    ensures ReadQuoted(pre + QuoteIdentifier(name) + rest, |pre|)
         == Identifier(name, |pre| + |QuoteIdentifier(name)|)
  {
    var d := Doubled(name, '"');
    var s := pre + QuoteIdentifier(name) + rest;
    assert s[|pre| + 1..|pre| + 1 + |d|] == d;
    assert s[|pre| + |d| + 2..] == rest;
    ReadDoubled(s, |pre| + 1, name);
  }

  /** Conversely, whatever is read was the printed form of the name found. */
  lemma {:induction false} ReadThenQuote(s: string, i: nat)
    requires ReadBody(s, i).Identifier?
    ensures var r := ReadBody(s, i);
      i < r.next <= |s| && s[i..r.next] == Doubled(r.name, '"') + "\"" && NoQuoteNext(s[r.next..])
    decreases |s| - i
  {
    var r := ReadBody(s, i);
    if s[i] != '"' {
      ReadThenQuote(s, i + 1);
      assert r.name[1..] == ReadBody(s, i + 1).name;
      assert s[i..r.next] == [s[i]] + s[i + 1..r.next];
    } else if i + 1 < |s| && s[i + 1] == '"' {
      ReadThenQuote(s, i + 2);
      assert r.name[1..] == ReadBody(s, i + 2).name;
      assert s[i..r.next] == "\"\"" + s[i + 2..r.next];
    } else {
      assert s[i..i + 1] == "\"";
    }
  }

  lemma ReadQuotedText(s: string, start: nat)
    requires ReadQuoted(s, start).Identifier?
    ensures var r := ReadQuoted(s, start);
      start < r.next <= |s| && s[start..r.next] == QuoteIdentifier(r.name) && NoQuoteNext(s[r.next..])
  {
    ReadThenQuote(s, start + 1);
    var r := ReadQuoted(s, start);
    assert s[start..r.next] == "\"" + s[start + 1..r.next];
  }
}
