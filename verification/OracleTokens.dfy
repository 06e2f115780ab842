/** Identifier tokens of the Oracle driver's select-list reader. */
module OracleTokens {
  import opened Text
  import opened SqlLexer
  import opened QuotedIdentifiers

  datatype Token = Token(name: string, text: string, quoted: bool)

  datatype TokenRead = NoToken | TokenAt(token: Token, next: nat)

  predicate IsSQLSpace(c: char) { c == ' ' || c == '\t' || c == '\r' || c == '\n' }

  function SkipSpace(s: string, pos: nat): (r: nat)
    ensures pos <= r && (pos <= |s| ==> r <= |s|)
    ensures r < |s| ==> !IsSQLSpace(s[r])
    ensures forall i | pos <= i < r && i < |s| :: IsSQLSpace(s[i])
    decreases |s| - pos
  {
    if pos < |s| && IsSQLSpace(s[pos]) then SkipSpace(s, pos + 1) else pos
  }

  /** The end of the run of identifier characters at `pos`. */
  function IdentifierEnd(s: string, pos: nat): (r: nat)
    ensures pos <= r && (pos <= |s| ==> r <= |s|)
    ensures r < |s| ==> !IsIdentifierPart(s[r])
    ensures forall i | pos <= i < r && i < |s| :: IsIdentifierPart(s[i])
    decreases |s| - pos
  {
    if pos < |s| && IsIdentifierPart(s[pos]) then IdentifierEnd(s, pos + 1) else pos
  }

  function ReadToken(value: string, from: nat): TokenRead {
    var pos := SkipSpace(value, from);
    if pos >= |value| then NoToken
    else if value[pos] == '"' then
      match ReadQuoted(value, pos)
      case NoIdentifier => NoToken
      case Identifier(name, next) => TokenAt(Token(name, QuoteIdentifier(name), true), next)
    else if !IsIdentifierStart(value[pos]) then NoToken
    else
      var end := IdentifierEnd(value, pos + 1);
      TokenAt(Token(Upper(value[pos..end]), value[pos..end], false), end)
  }

  method ReadOracleIdentifierToken(value: string, from: nat) returns (r: TokenRead)
    ensures r == ReadToken(value, from)
  {
    var pos := from;
    while pos < |value| && IsSQLSpace(value[pos])
      invariant from <= pos && (from <= |value| ==> pos <= |value|)
      invariant SkipSpace(value, from) == SkipSpace(value, pos)
    {
      pos := pos + 1;
    }
    if pos >= |value| {
      return NoToken;
    }
    if value[pos] == '"' {
      var quoted := ReadQuotedIdentifier(value, pos);
      if quoted.NoIdentifier? {
        return NoToken;
      }
      ReadQuotedText(value, pos);
      return TokenAt(Token(quoted.name, value[pos..quoted.next], true), quoted.next);
    }
    if !IsIdentifierStart(value[pos]) {
      return NoToken;
    }
    var end := pos + 1;
    while end < |value| && IsIdentifierPart(value[end])
      invariant pos < end <= |value|
      invariant IdentifierEnd(value, pos + 1) == IdentifierEnd(value, end)
    {
      end := end + 1;
    }
    return TokenAt(Token(Upper(value[pos..end]), value[pos..end], false), end);
  }

  /** Tokens as the reader makes them: the text of a delimited one is its printed name, a bare one
      is a run of identifier characters that does not start with a digit. */
  predicate WellFormed(t: Token) {
    if t.quoted then t.text == QuoteIdentifier(t.name)
    else
      && t.text != "" && IsIdentifierStart(t.text[0])
      && (forall i | 0 <= i < |t.text| :: IsIdentifierPart(t.text[i]))
      && t.name == Upper(t.text)
  }

  /** The text may follow a token without becoming part of it. */
  predicate EndsToken(rest: string) { rest == [] || (rest[0] != '"' && !IsIdentifierPart(rest[0])) }

  lemma ReadTokenShape(value: string, from: nat)
    requires ReadToken(value, from).TokenAt?
    ensures var r := ReadToken(value, from); var pos := SkipSpace(value, from);
      && WellFormed(r.token) && from <= pos < r.next <= |value|
      && r.token.text == value[pos..r.next]
      && (r.next < |value| ==> if r.token.quoted then value[r.next] != '"' else !IsIdentifierPart(value[r.next]))
  {
    var pos := SkipSpace(value, from);
    if value[pos] == '"' {
      ReadQuotedText(value, pos);
    }
  }

  /** A token's text, placed anywhere it ends properly, is read back as that token. */
  lemma TokenReread(pre: string, t: Token, rest: string)
    requires WellFormed(t) && EndsToken(rest)
    ensures ReadToken(pre + t.text + rest, |pre|) == TokenAt(t, |pre| + |t.text|)
  {
    var s := pre + t.text + rest;
    assert s[|pre|] == t.text[0];
    assert SkipSpace(s, |pre|) == |pre|;
    var end := |pre| + |t.text|;
    assert s[|pre|..end] == t.text;
    if t.quoted {
      QuoteThenRead(pre, t.name, rest);
    } else {
      assert forall i | |pre| <= i < end :: s[i] == t.text[i - |pre|];
      assert end < |s| ==> s[end] == rest[0];
      assert IdentifierEnd(s, |pre| + 1) == end;
    }
  }

  /** unquoteOracleIdentifierText. */
  function Unquote(text: string): string {
    var value := Trim(text);
    if |value| >= 2 && value[0] == '"' && value[|value| - 1] == '"' then Undoubled(value[1..|value| - 1])
    else Upper(value)
  }

  function Undoubled(s: string): string {
    if s == [] then []
    else if |s| >= 2 && s[0] == '"' && s[1] == '"' then "\"" + Undoubled(s[2..])
    else [s[0]] + Undoubled(s[1..])
  }

  lemma {:induction false} UndoubleDoubled(name: string)
    ensures Undoubled(Doubled(name, '"')) == name
    decreases |name|
  {
    if name != "" {
      UndoubleDoubled(name[1..]);
      var d := Doubled(name, '"');
      if name[0] == '"' {
        assert d[2..] == Doubled(name[1..], '"');
      } else {
        assert d[1..] == Doubled(name[1..], '"');
      }
    }
  }

  /** A token's text names what the token names. */
  lemma UnquoteToken(t: Token)
    requires WellFormed(t)
    ensures Unquote(t.text) == t.name
  {
    TrimFixed(t.text);
    if t.quoted {
      UndoubleDoubled(t.name);
      assert t.text[1..|t.text| - 1] == Doubled(t.name, '"');
    }
  }
}
