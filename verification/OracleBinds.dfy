/** The fifth scanner of the Oracle driver: the bind variables of a statement to be explained. */
module OracleBinds {
  import opened Text
  import opened SqlLexer

  datatype BindParam = BindParam(name: string, positional: bool)

  datatype Token =
    | Bind(param: BindParam, lo: nat, hi: nat)
    | Skipped(lo: nat, hi: nat)       // literal, delimited identifier or comment
    | AltQuoted(lo: nat, hi: nat)     // q'[...]'
    | Plain(lo: nat, hi: nat)

  // ---- the token at a position ----

  /** The first position from `p` on that a scan begun at `a` finds in code, or the end of the text. */
  function NextCode(s: string, a: nat, p: nat): (r: nat)
    requires a <= p <= |s|
    ensures p <= r <= |s| && (r < |s| ==> At(s, a, r).mode == Code)
    ensures forall q | p <= q < r :: At(s, a, q).mode != Code
    decreases |s| - p
  {
    if p == |s| || At(s, a, p).mode == Code then p else NextCode(s, a, p + 1)
  }

  function CloseQuote(open: char): char {
    if open == '[' then ']' else if open == '{' then '}' else if open == '(' then ')' else if open == '<' then '>'
        else open
  }

  predicate StartsAltQuote(s: string, pos: nat) {
    pos + 2 < |s| && (s[pos] == 'q' || s[pos] == 'Q') && s[pos + 1] == '\''
  }

  /** The end of the alternative quotation: after the first closing pair, or the end of the text. */
  function AltQuoteEnd(s: string, p: nat, close: char): (r: nat)
    requires p <= |s|
    ensures p <= r <= |s|
    decreases |s| - p
  {
    if p + 1 >= |s| then |s|
    else if s[p] == close && s[p + 1] == '\'' then p + 2
    else AltQuoteEnd(s, p + 1, close)
  }

  function RunEnd(s: string, p: nat, digits: bool): (r: nat)
    requires p <= |s|
    ensures p <= r <= |s|
    ensures forall i | p <= i < r :: if digits then IsDigit(s[i]) else IsIdentifierPart(s[i])
    ensures r < |s| ==> !(if digits then IsDigit(s[r]) else IsIdentifierPart(s[r]))
    decreases |s| - p
  {
    if p < |s| && (if digits then IsDigit(s[p]) else IsIdentifierPart(s[p])) then RunEnd(s, p + 1, digits) else p
  }

  /** A colon that is neither preceded nor followed by one, before a digit or an identifier. */
  predicate StartsBind(s: string, pos: nat) {
    && pos + 1 < |s| && s[pos] == ':' && (pos > 0 ==> s[pos - 1] != ':')
    && (IsDigit(s[pos + 1]) || IsIdentifierStart(s[pos + 1]))
  }

  function BindAt(s: string, pos: nat): Token
    requires StartsBind(s, pos)
  {
    var digits := IsDigit(s[pos + 1]);
    var end := RunEnd(s, pos + 2, digits);
    Bind(BindParam(s[pos + 1..end], digits), pos, end)
  }

  function TokenAt(s: string, pos: nat): (t: Token)
    requires pos < |s|
    ensures t.lo == pos < t.hi <= |s|
  {
    if s[pos] == '\'' || s[pos] == '"' || (s[pos] == '-' && NextIs(s, pos, '-'))
        || (s[pos] == '/' && NextIs(s, pos, '*')) then
      Skipped(pos, NextCode(s, pos, pos + 1))
    else if StartsAltQuote(s, pos) then AltQuoted(pos, AltQuoteEnd(s, pos + 3, CloseQuote(s[pos + 2])))
    else if StartsBind(s, pos) then BindAt(s, pos)
    else Plain(pos, pos + 1)
  }

  /** The text cut into tokens; each starts where the one before it ended. */
  function Tokens(s: string, pos: nat): seq<Token>
    requires pos <= |s|
    decreases |s| - pos
  {
    if pos == |s| then [] else [TokenAt(s, pos)] + Tokens(s, TokenAt(s, pos).hi)
  }

  function Params(tokens: seq<Token>): seq<BindParam> {
    if tokens == [] then []
    else (if tokens[0].Bind? then [tokens[0].param] else []) + Params(tokens[1..])
  }

  /** Positional binds all stay; a named one stays unless its name was seen, ignoring case. */
  function Distinct(params: seq<BindParam>, seen: set<string>): seq<BindParam> {
    if params == [] then []
    else if params[0].positional then [params[0]] + Distinct(params[1..], seen)
    else if Upper(params[0].name) in seen then Distinct(params[1..], seen)
    else [params[0]] + Distinct(params[1..], seen + {Upper(params[0].name)})
  }

  function BindParams(s: string): seq<BindParam> { Distinct(Params(Tokens(s, 0)), {}) }

  // ---- the loop ----

  method ReadBindParam(sqlText: string, pos: nat) returns (param: BindParam, end: nat, ok: bool)
    requires pos < |sqlText|
    ensures ok == StartsBind(sqlText, pos)
    ensures ok ==> Bind(param, pos, end) == BindAt(sqlText, pos)
    ensures ok ==> pos + 1 < end <= |sqlText|
  {
    param, end, ok := BindParam("", false), pos, false;
    if pos + 1 >= |sqlText| || sqlText[pos] != ':' || (pos > 0 && sqlText[pos - 1] == ':') {
      return;
    }
    var digits := IsDigit(sqlText[pos + 1]);
    if !digits && !IsIdentifierStart(sqlText[pos + 1]) {
      return;
    }
    end := pos + 2;
    while end < |sqlText| && (if digits then IsDigit(sqlText[end]) else IsIdentifierPart(sqlText[end]))
      invariant pos + 2 <= end <= |sqlText|
      invariant RunEnd(sqlText, pos + 2, digits) == RunEnd(sqlText, end, digits)
    {
      end := end + 1;
    }
    param, ok := BindParam(sqlText[pos + 1..end], digits), true;
  }

  method SkipAlternativeQuoted(value: string, pos: nat) returns (end: nat, ok: bool)
    requires pos < |value|
    ensures ok == StartsAltQuote(value, pos)
    ensures ok ==> end + 1 == AltQuoteEnd(value, pos + 3, CloseQuote(value[pos + 2]))
  {
    if !StartsAltQuote(value, pos) {
      return pos, false;
    }
    var close := CloseQuote(value[pos + 2]);
    end := pos + 3;
    while end + 1 < |value|
      invariant pos + 3 <= end <= |value|
      invariant AltQuoteEnd(value, pos + 3, close) == AltQuoteEnd(value, end, close)
    {
      if value[end] == close && value[end + 1] == '\'' {
        return end + 1, true;
      }
      end := end + 1;
    }
    return |value| - 1, true;
  }

  lemma LexemeIsToken(s: string, pos: nat, end: nat)
    requires IsLexeme(s, pos, end)
    ensures NextCode(s, pos, pos + 1) == end + 1
  {
  }

  method ExplainPlanBindParams(sqlText: string) returns (params: seq<BindParam>)
    ensures params == BindParams(sqlText)
  {
    hide TokenAt, Upper, Distinct, Params, Tokens;
    params := [];
    ParamsEnd(sqlText);
    var seen: set<string> := {};
    var pos := 0;
    while pos < |sqlText|
      invariant pos <= |sqlText|
      invariant params + Distinct(Params(Tokens(sqlText, pos)), seen) == BindParams(sqlText)
    {
      var token := ScanToken(sqlText, pos);
      TokensStep(sqlText, pos);
      if token.Bind? {
        DistinctStep(params, token.param, Params(Tokens(sqlText, token.hi)), seen);
        if token.param.positional {
          params := params + [token.param];
        } else if Upper(token.param.name) !in seen {
          seen := seen + {Upper(token.param.name)};
          params := params + [token.param];
        }
      }
      pos := token.hi;
    }
  }

  lemma DistinctStep(done: seq<BindParam>, p: BindParam, rest: seq<BindParam>, seen: set<string>)
    ensures done + Distinct([p] + rest, seen) ==
      if p.positional then (done + [p]) + Distinct(rest, seen)
      else if Upper(p.name) in seen then done + Distinct(rest, seen)
      else (done + [p]) + Distinct(rest, seen + {Upper(p.name)})
  {
    hide Upper;
    assert ([p] + rest)[1..] == rest;
    var more := if p.positional then Distinct(rest, seen) else Distinct(rest, seen + {Upper(p.name)});
    assert done + ([p] + more) == (done + [p]) + more;
  }

  /** One turn of the loop's switch. */
  method ScanToken(sqlText: string, pos: nat) returns (t: Token)
    requires pos < |sqlText|
    ensures t == TokenAt(sqlText, pos)
  {
    var alt, isAlt := SkipAlternativeQuoted(sqlText, pos);
    var param, bindEnd, isBind := ReadBindParam(sqlText, pos);
    if sqlText[pos] == '\'' || sqlText[pos] == '"' || (sqlText[pos] == '-' && NextIs(sqlText, pos, '-'))
        || (sqlText[pos] == '/' && NextIs(sqlText, pos, '*')) {
      var end := SkipLexeme(sqlText, pos);
      LexemeIsToken(sqlText, pos, end);
      return Skipped(pos, end + 1);
    } else if isAlt {
      return AltQuoted(pos, alt + 1);
    } else if isBind {
      return Bind(param, pos, bindEnd);
    }
    return Plain(pos, pos + 1);
  }

  lemma ParamsEnd(s: string)
    ensures Distinct(Params(Tokens(s, |s|)), {}) == [] && forall seen :: Distinct(Params(Tokens(s, |s|)), seen) == []
  {
  }

  lemma TokensStep(s: string, pos: nat)
    requires pos < |s|
    ensures var t := TokenAt(s, pos); var rest := Params(Tokens(s, t.hi));
      Params(Tokens(s, pos)) == if t.Bind? then [t.param] + rest else rest
  {
    hide TokenAt;
    assert Tokens(s, pos)[1..] == Tokens(s, TokenAt(s, pos).hi);
  }

  // ---- what is reported ----

  ghost predicate Partition(tokens: seq<Token>, lo: nat, hi: nat) {
    if tokens == [] then lo == hi
    else tokens[0].lo == lo < tokens[0].hi <= hi && Partition(tokens[1..], tokens[0].hi, hi)
  }

  /** The tokens cover the text without overlap, so a bind never lies in a literal, a delimited
      identifier, a comment or an alternative quotation. */
  lemma {:induction false} TokensPartition(s: string, pos: nat)
    requires pos <= |s|
    ensures Partition(Tokens(s, pos), pos, |s|)
    ensures forall t | t in Tokens(s, pos) :: t.lo < t.hi <= |s| && t == TokenAt(s, t.lo)
    decreases |s| - pos
  {
    hide TokenAt;
    if pos < |s| {
      TokensPartition(s, TokenAt(s, pos).hi);
      assert Tokens(s, pos)[1..] == Tokens(s, TokenAt(s, pos).hi);
    }
  }

  /** Where the last alternative quotation before a position ends; `a` if there is none. */
  function Resumed(tokens: seq<Token>, lo: nat, a: nat): nat
    decreases |tokens|
  {
    if tokens == [] || tokens[0].lo >= lo then a
    else Resumed(tokens[1..], lo, if tokens[0].AltQuoted? then tokens[0].hi else a)
  }

  /** This scanner and the other four agree outside alternative quotations, which only this one knows: if the
      lexer is begun anew behind the last one before a token, the token starts at one of its code positions,
      and all characters of a bind are code. */
  lemma {:induction false} TokensStartInCode(s: string, a: nat, pos: nat, t: Token, p: nat)
    requires a <= pos < |s| && At(s, a, pos).mode == Code
    requires t in Tokens(s, pos) && !t.AltQuoted? && t.lo <= p < t.hi <= |s| && (t.Skipped? ==> p == t.lo)
    ensures var from := Resumed(Tokens(s, pos), t.lo, a); from <= p && At(s, from, p).mode == Code
    decreases |s| - pos
  {
    hide TokenAt;
    var first := TokenAt(s, pos);
    TokensPartition(s, pos);
    assert Tokens(s, pos)[0] == first && Tokens(s, pos)[1..] == Tokens(s, first.hi);
    if t == first {
      FirstInCode(s, a, pos, p);
    } else {
      assert t in Tokens(s, first.hi);
      TokensPartition(s, first.hi);
      TokensFrom(s, first.hi, t);
      if first.AltQuoted? {
        TokensStartInCode(s, first.hi, first.hi, t, p);
      } else {
        AfterTokenInCode(s, a, pos);
        TokensStartInCode(s, a, first.hi, t, p);
      }
    }
  }

  lemma {:induction false} TokensFrom(s: string, pos: nat, t: Token)
    requires pos <= |s| && t in Tokens(s, pos)
    ensures pos <= t.lo < |s|
    decreases |s| - pos
  {
    hide TokenAt;
    if t != TokenAt(s, pos) {
      TokensFrom(s, TokenAt(s, pos).hi, t);
    }
  }

  lemma {:induction false} CodeRun(s: string, a: nat, lo: nat, hi: nat)
    requires a <= lo <= hi <= |s| && At(s, a, lo).mode == Code
    requires forall i | lo <= i < hi :: s[i] !in "'\"-/"
    ensures At(s, a, hi).mode == Code
    decreases hi
  {
    if lo < hi {
      CodeRun(s, a, lo, hi - 1);
    }
  }

  lemma FirstInCode(s: string, a: nat, pos: nat, p: nat)
    requires a <= pos < |s| && At(s, a, pos).mode == Code && !TokenAt(s, pos).AltQuoted?
    requires pos <= p < TokenAt(s, pos).hi && (TokenAt(s, pos).Skipped? ==> p == pos)
    ensures At(s, a, p).mode == Code
  {
    hide At;
    if p > pos {
      assert StartsBind(s, pos);
      CodeRun(s, a, pos, p);
    }
  }

  lemma AfterTokenInCode(s: string, a: nat, pos: nat)
    requires a <= pos < |s| && At(s, a, pos).mode == Code && !TokenAt(s, pos).AltQuoted?
    ensures TokenAt(s, pos).hi < |s| ==> At(s, a, TokenAt(s, pos).hi).mode == Code
  {
    var t := TokenAt(s, pos);
    if t.Skipped? && t.hi < |s| {
      RestartMode(s, a, pos, t.hi);
    } else if t.Bind? {
      CodeRun(s, a, pos, t.hi);
    }
  }

  ghost predicate NamesDistinct(params: seq<BindParam>) {
    forall i, j | 0 <= i < j < |params| && !params[i].positional && !params[j].positional ::
      Upper(params[i].name) != Upper(params[j].name)
  }

  function Positionals(params: seq<BindParam>): seq<BindParam> {
    if params == [] then []
    else (if params[0].positional then [params[0]] else []) + Positionals(params[1..])
  }

  function Seen(p: BindParam, seen: set<string>): set<string> {
    if !p.positional && Upper(p.name) !in seen then seen + {Upper(p.name)} else seen
  }

  /** Nothing is reported that is not a bind, and no name that was seen before. */
  lemma {:induction false} DistinctSound(params: seq<BindParam>, seen: set<string>)
    ensures forall p | p in Distinct(params, seen) :: p in params && (!p.positional ==> Upper(p.name) !in seen)
  {
    hide Upper;
    if params != [] {
      DistinctSound(params[1..], Seen(params[0], seen));
    }
  }

  /** A named bind is reported once for each name, ignoring case. */
  lemma {:induction false} DistinctNames(params: seq<BindParam>, seen: set<string>)
    ensures NamesDistinct(Distinct(params, seen))
  {
    hide Upper;
    if params != [] {
      DistinctNames(params[1..], Seen(params[0], seen));
      DistinctSound(params[1..], Seen(params[0], seen));
    }
  }

  lemma PositionalsCons(p: BindParam, rest: seq<BindParam>)
    ensures Positionals([p] + rest) == (if p.positional then [p] else []) + Positionals(rest)
  {
    assert ([p] + rest)[1..] == rest;
  }

  lemma DistinctCons(params: seq<BindParam>, seen: set<string>)
    requires params != []
    ensures var p := params[0]; var rest := Distinct(params[1..], Seen(p, seen));
      Distinct(params, seen) == if !p.positional && Upper(p.name) in seen then rest else [p] + rest
  {
    hide Upper;
  }

  /** Positional binds are reported once for each occurrence, in order. */
  lemma {:induction false} DistinctPositionals(params: seq<BindParam>, seen: set<string>)
    ensures Positionals(Distinct(params, seen)) == Positionals(params)
    decreases |params|
  {
    hide Upper, Distinct, Seen;
    if params == [] {
      NoneReported(seen);
    } else {
      var p, next := params[0], Seen(params[0], seen);
      DistinctPositionals(params[1..], next);
      DistinctCons(params, seen);
      PositionalsCons(p, Distinct(params[1..], next));
    }
  }

  lemma NoneReported(seen: set<string>)
    ensures Distinct([], seen) == []
  {
  }

  /** Names come in the order of their first occurrence: what is reported for a prefix of the binds
      is a prefix of what is reported for all of them. */
  lemma {:induction false} DistinctPrefix(a: seq<BindParam>, b: seq<BindParam>, seen: set<string>)
    ensures Distinct(a, seen) <= Distinct(a + b, seen)
  {
    hide Upper;
    if a != [] {
      var p := a[0];
      DistinctPrefix(a[1..], b, Seen(p, seen));
      assert (a + b)[1..] == a[1..] + b;
    }
  }

  /** The first bind of a name is the one reported for it. */
  lemma FirstOccurrenceReported(before: seq<BindParam>, p: BindParam, after: seq<BindParam>)
    requires !p.positional && forall q | q in before && !q.positional :: Upper(q.name) != Upper(p.name)
    ensures var r := Distinct(before, {});
      r + [p] <= Distinct(before + [p] + after, {})
  {
    hide Upper;
    DistinctThen(before, p, {});
    DistinctPrefix(before + [p], after, {});
  }

  lemma {:induction false} DistinctThen(before: seq<BindParam>, p: BindParam, seen: set<string>)
    requires !p.positional && Upper(p.name) !in seen
    requires forall q | q in before && !q.positional :: Upper(q.name) != Upper(p.name)
    ensures Distinct(before + [p], seen) == Distinct(before, seen) + [p]
  {
    hide Upper;
    if before == [] {
      assert before + [p] == [p] && [p][1..] == [];
    } else {
      var q := before[0];
      DistinctThen(before[1..], p, Seen(q, seen));
      assert (before + [p])[1..] == before[1..] + [p];
    }
  }

  // ---- tokens in the words of SQL ----

  /** Which character ends an alternative quotation begun with another. */
  predicate Closes(open: char, close: char) {
    || (open == '[' && close == ']') || (open == '{' && close == '}')
    || (open == '(' && close == ')') || (open == '<' && close == '>')
    || (open != '[' && open != '{' && open != '(' && open != '<' && close == open)
  }

  /** The closing character and a quote do not follow each other before position `n`. */
  predicate Unclosed(s: string, p: nat, n: nat, close: char) {
    n <= |s| && forall i | p <= i < n :: i + 1 < |s| ==> !(s[i] == close && s[i + 1] == '\'')
  }

  lemma {:induction false} FirstPairEnds(s: string, p: nat, n: nat, close: char)
    requires p <= n && Unclosed(s, p, n, close)
    ensures n + 1 < |s| && s[n] == close && s[n + 1] == '\'' ==> AltQuoteEnd(s, p, close) == n + 2
    ensures n == |s| ==> AltQuoteEnd(s, p, close) == |s|
    decreases n - p
  {
    if p < n {
      FirstPairEnds(s, p + 1, n, close);
    }
  }

  /** An alternative quotation ends behind the first closing character that a quote follows, or, without one,
      at the end of the text; brackets are closed by their partners, everything else by itself. */
  lemma AltQuotedIs(s: string, pos: nat, close: char, n: nat)
    requires pos + 2 < |s| && (s[pos] == 'q' || s[pos] == 'Q') && s[pos + 1] == '\'' && Closes(s[pos + 2], close)
    requires pos + 3 <= n && Unclosed(s, pos + 3, n, close)
    requires n == |s| || (n + 1 < |s| && s[n] == close && s[n + 1] == '\'')
    ensures TokenAt(s, pos) == AltQuoted(pos, if n == |s| then |s| else n + 2)
  {
    hide NextCode;
    FirstPairEnds(s, pos + 3, n, close);
  }

  /** Every other character is a token of its own, also a `q` that no quote follows and a colon that begins no
      bind. */
  lemma PlainIs(s: string, pos: nat)
    requires pos < |s| && s[pos] != '\'' && s[pos] != '"'
    requires s[pos] == '-' ==> pos + 1 == |s| || s[pos + 1] != '-'
    requires s[pos] == '/' ==> pos + 1 == |s| || s[pos + 1] != '*'
    requires s[pos] == 'q' || s[pos] == 'Q' ==> pos + 2 >= |s| || s[pos + 1] != '\''
    requires s[pos] == ':' ==>
      pos + 1 == |s| || (pos > 0 && s[pos - 1] == ':') || !('0' <= s[pos + 1] <= '9' || IsIdentifierStart(s[pos + 1]))
    ensures TokenAt(s, pos) == Plain(pos, pos + 1)
  {
    hide NextCode;
  }

  predicate Numbered(name: string, rest: string) {
    name != "" && (forall i | 0 <= i < |name| :: '0' <= name[i] <= '9') && (rest != "" ==> !('0' <= rest[0] <= '9'))
  }

  predicate Named(name: string, rest: string) {
    && name != "" && IsIdentifierStart(name[0]) && (forall i | 0 <= i < |name| :: IsIdentifierPart(name[i]))
    && (rest != "" ==> !IsIdentifierPart(rest[0]))
  }

  /** A colon not next to another one, and digits or an identifier behind it: the bind takes all of it. */
  lemma BindIs(pre: string, name: string, rest: string)
    requires name != "" && (pre != "" ==> pre[|pre| - 1] != ':')
    requires Numbered(name, rest) || Named(name, rest)
    ensures var s := pre + ":" + name + rest;
      TokenAt(s, |pre|) == Bind(BindParam(name, '0' <= name[0] <= '9'), |pre|, |pre| + 1 + |name|)
  {
    hide NextCode;
    var s := pre + ":" + name + rest;
    var end := |pre| + 1 + |name|;
    assert s[|pre|] == ':' && s[|pre| + 1] == name[0] && (pre != "" ==> s[|pre| - 1] == pre[|pre| - 1]);
    assert forall i | |pre| + 1 <= i < end :: s[i] == name[i - |pre| - 1];
    assert end < |s| ==> s[end] == rest[0];
    assert s[|pre| + 1..end] == name;
    assert RunEnd(s, |pre| + 2, IsDigit(name[0])) == end;
  }
}
