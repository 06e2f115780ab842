/** The scanning loops of the Oracle driver, against one character-level lexer. */
module SqlLexer {
  import opened Text

  /** What the lexer is inside of just before it reads a character. The `Esc`, `Open` and `Close`
      modes stand before the second character of `''`, `""`, the comment opener and the closer. */
  datatype Mode = Code | Single | SingleEsc | Double | DoubleEsc | Line | BlockOpen | Block | BlockClose

  datatype Scan = Scan(mode: Mode, depth: nat)

  const TOP := Scan(Code, 0)

  predicate NextIs(s: string, i: nat, c: char) { i + 1 < |s| && s[i + 1] == c }

  function StepMode(m: Mode, s: string, i: nat): Mode
    requires i < |s|
  {
    match m
    case Code =>
      if s[i] == '\'' then Single
      else if s[i] == '"' then Double
      else if s[i] == '-' && NextIs(s, i, '-') then Line
      else if s[i] == '/' && NextIs(s, i, '*') then BlockOpen
      else Code
    case Single => if s[i] != '\'' then Single else if NextIs(s, i, '\'') then SingleEsc else Code
    case SingleEsc => Single
    case Double => if s[i] != '"' then Double else if NextIs(s, i, '"') then DoubleEsc else Code
    case DoubleEsc => Double
    case Line => if s[i] == '\n' || s[i] == '\r' then Code else Line
    case BlockOpen => Block
    case Block => if s[i] == '*' && NextIs(s, i, '/') then BlockClose else Block
    case BlockClose => Code
  }

  /** Parentheses count only in code, and a closing one never takes the depth below zero. */
  function StepDepth(st: Scan, c: char): nat {
    if st.mode != Code then st.depth
    else if c == '(' then st.depth + 1
    else if c == ')' && st.depth > 0 then st.depth - 1
    else st.depth
  }

  /** The lexer's state before position `p` of a scan that starts in code at `a`. */
  function At(s: string, a: nat, p: nat): Scan
    requires a <= p <= |s|
    decreases p
  {
    if p == a then TOP
    else
      var st := At(s, a, p - 1);
      Scan(StepMode(st.mode, s, p - 1), StepDepth(st, s[p - 1]))
  }

  /** Lexing can be restarted at any code position: the modes after it do not change. */
  lemma {:induction false} RestartMode(s: string, a: nat, b: nat, p: nat)
    requires a <= b <= p <= |s| && At(s, a, b).mode == Code
    ensures At(s, b, p).mode == At(s, a, p).mode
    decreases p
  {
    if p > b {
      RestartMode(s, a, b, p - 1);
    }
  }

  /** Restarted at a code position of depth zero, it also finds the same depths. */
  lemma {:induction false} Restart(s: string, a: nat, b: nat, p: nat)
    requires a <= b <= p <= |s| && At(s, a, b) == TOP
    ensures At(s, b, p) == At(s, a, p)
    decreases p
  {
    if p > b {
      Restart(s, a, b, p - 1);
    }
  }

  /** Only the text from the start on matters, not what comes before it. */
  lemma {:induction false} Shift(s: string, k: nat, a: nat, p: nat)
    requires k <= a <= p <= |s|
    ensures At(s[k..], a - k, p - k) == At(s, a, p)
    decreases p
  {
    if p > a {
      Shift(s, k, a, p - 1);
      assert s[k..][p - 1 - k] == s[p - 1];
      assert p < |s| ==> s[k..][p - k] == s[p];
    }
  }

  /** Lexing can be cut at any code position: the text after it does not change what is before. */
  lemma {:induction false} Cut(s: string, a: nat, b: nat, p: nat)
    requires a <= p <= b <= |s| && (p == b ==> At(s, a, b).mode == Code)
    ensures At(s[..b], a, p) == At(s, a, p)
    decreases p
  {
    if p > a {
      Cut(s, a, b, p - 1);
    }
  }

  /** No lexeme opener, and no doubled quote, lies across the seam between the two texts. */
  predicate CanFollow(x: string, rest: string) {
    x == [] || rest == [] ||
    (var last, next := x[|x| - 1], rest[0];
     !(last == next && last in "-'\"") && !(last == '/' && next == '*'))
  }

  /** Text that ends in code can be extended by anything that does not merge with its last
      character. */
  lemma {:induction false} Extend(x: string, rest: string, p: nat)
    requires p <= |x| && At(x, 0, |x|).mode == Code && CanFollow(x, rest)
    ensures At(x + rest, 0, p) == At(x, 0, p)
    decreases p
  {
    if p > 0 {
      Extend(x, rest, p - 1);
      assert (x + rest)[p - 1] == x[p - 1];
      if p < |x| {
        assert (x + rest)[p] == x[p];
      } else if rest != [] {
        assert (x + rest)[p] == rest[0];
      }
    }
  }

  /** Self-contained text: a scan of it starts and ends in code at depth zero. */
  predicate Closed(x: string) { At(x, 0, |x|) == TOP }

  /** After self-contained text the lexer reads on as if it started there. */
  lemma AfterClosed(x: string, y: string, p: nat)
    requires Closed(x) && CanFollow(x, y) && p <= |y|
    ensures At(x + y, 0, |x| + p) == At(y, 0, p)
  {
    Extend(x, y, |x|);
    Restart(x + y, 0, |x|, |x| + p);
    Shift(x + y, |x|, |x|, |x| + p);
    assert (x + y)[|x|..] == y;
  }

  lemma ConcatClosed(x: string, y: string)
    requires Closed(x) && Closed(y) && CanFollow(x, y)
    ensures Closed(x + y)
  {
    AfterClosed(x, y, |y|);
  }

  // ---- lexemes: what one step of a scanning loop skips ----

  /** The lexeme that starts at `pos` ends at `end`: the lexer is not back in code before
      `end + 1`, and is there unless the text ended first. */
  ghost predicate IsLexeme(s: string, pos: nat, end: nat) {
    && pos <= end < |s|
    && (forall p | pos < p <= end :: At(s, pos, p).mode != Code)
    && (end + 1 == |s| || At(s, pos, end + 1).mode == Code)
  }

  method SkipQuotedSQL(value: string, pos: nat, quote: char) returns (end: nat)
    requires pos < |value| && value[pos] == quote && (quote == '\'' || quote == '"')
    ensures IsLexeme(value, pos, end)
  {
    ghost var inside := if quote == '\'' then Single else Double;
    var i := pos + 1;
    while i < |value|
      invariant pos < i <= |value|
      invariant At(value, pos, i).mode == inside
      invariant forall p | pos < p <= i :: At(value, pos, p).mode != Code
    {
      if value[i] == quote {
        if i + 1 < |value| && value[i + 1] == quote {
          assert At(value, pos, i + 1).mode == if quote == '\'' then SingleEsc else DoubleEsc;
          i := i + 2;
          continue;
        }
        return i;
      }
      i := i + 1;
    }
    return |value| - 1;
  }

  method SkipLineCommentSQL(value: string, pos: nat) returns (end: nat)
    requires pos < |value| && value[pos] == '-' && NextIs(value, pos, '-')
    ensures IsLexeme(value, pos, end)
  {
    var i := pos;
    while i < |value|
      invariant pos <= i <= |value|
      invariant i > pos ==> At(value, pos, i).mode == Line
      invariant forall p | pos < p <= i :: At(value, pos, p).mode != Code
    {
      if value[i] == '\n' || value[i] == '\r' {
        return i;
      }
      i := i + 1;
    }
    return |value| - 1;
  }

  /** strings.Index(value[from:], closer), as a position in `value`. */
  function IndexBlockClose(value: string, from: nat): (r: int)
    requires from <= |value|
    ensures r == -1 || (from <= r < |value| - 1 && value[r] == '*' && value[r + 1] == '/')
    decreases |value| - from
  {
    if from + 1 >= |value| then -1
    else if value[from] == '*' && value[from + 1] == '/' then from
    else IndexBlockClose(value, from + 1)
  }

  lemma {:induction false} BlockModes(value: string, pos: nat, from: nat, p: nat)
    requires pos < from <= p <= |value|
    requires At(value, pos, from).mode == Block
    requires var c := IndexBlockClose(value, from); c == -1 || p <= c
    ensures At(value, pos, p).mode == Block
    decreases p - from
  {
    if p > from {
      assert At(value, pos, from + 1).mode == Block;
      if from + 1 < |value| {
        BlockModes(value, pos, from + 1, p);
      }
    }
  }

  method SkipBlockCommentSQL(value: string, pos: nat) returns (end: nat)
    requires pos < |value| && value[pos] == '/' && NextIs(value, pos, '*')
    ensures IsLexeme(value, pos, end)
  {
    assert At(value, pos, pos + 1).mode == BlockOpen;
    assert At(value, pos, pos + 2).mode == Block;
    var index := IndexBlockClose(value, pos + 2);
    forall p | pos + 2 <= p <= (if index < 0 then |value| else index)
      ensures At(value, pos, p).mode == Block
    {
      BlockModes(value, pos, pos + 2, p);
    }
    if index < 0 {
      return |value| - 1;
    }
    assert At(value, pos, index + 1).mode == BlockClose;
    return index + 1;
  }

  /** The four `case` arms that the scanning loops share: the last position of the lexeme that
      starts at `pos`, which is `pos` itself for a plain character. */
  method SkipLexeme(value: string, pos: nat) returns (end: nat)
    requires pos < |value|
    ensures IsLexeme(value, pos, end)
    ensures end > pos ==> value[pos] in "'\"-/"
  {
    end := pos;
    if value[pos] == '\'' || value[pos] == '"' {
      end := SkipQuotedSQL(value, pos, value[pos]);
    } else if value[pos] == '-' {
      if pos + 1 < |value| && value[pos + 1] == '-' {
        end := SkipLineCommentSQL(value, pos);
      }
    } else if value[pos] == '/' {
      if pos + 1 < |value| && value[pos + 1] == '*' {
        end := SkipBlockCommentSQL(value, pos);
      }
    }
  }

  /** Inside a lexeme met at a code position nothing is code and the depth does not move, whatever
      position the scan began at. */
  lemma {:induction false} LexemeInScan(s: string, a: nat, pos: nat, end: nat, p: nat)
    requires a <= pos < p <= end + 1 <= |s|
    requires At(s, a, pos).mode == Code && IsLexeme(s, pos, end)
    ensures At(s, a, p).mode == At(s, pos, p).mode
    ensures At(s, a, p).depth == StepDepth(At(s, a, pos), s[pos])
    decreases p
  {
    RestartMode(s, a, pos, p);
    if p > pos + 1 {
      LexemeInScan(s, a, pos, end, p - 1);
    }
  }

  /** One turn of a scanning loop: past the lexeme at `pos` the scan is in code again, unless the
      text ended, and the depth is the one `pos` left. */
  lemma AfterLexeme(s: string, a: nat, pos: nat, end: nat, depth: nat)
    requires a <= pos <= end < |s| && IsLexeme(s, pos, end)
    requires At(s, a, pos).mode == Code && StepDepth(At(s, a, pos), s[pos]) == depth
    ensures end + 1 < |s| ==> At(s, a, end + 1) == Scan(Code, depth)
  {
    LexemeInScan(s, a, pos, end, end + 1);
  }

  // ---- the scanning loops ----

  predicate IsIdentifierStart(c: char) { IsLetter(c) || c == '_' || c == '$' || c == '#' }

  predicate IsIdentifierPart(c: char) { IsIdentifierStart(c) || IsDigit(c) }

  predicate KeywordAt(s: string, pos: nat, keyword: string) {
    && pos + |keyword| <= |s|
    && EqualFold(s[pos..pos + |keyword|], keyword)
    && (pos > 0 ==> !IsIdentifierPart(s[pos - 1]))
    && (pos + |keyword| < |s| ==> !IsIdentifierPart(s[pos + |keyword|]))
  }

  /** A keyword that counts: in code, outside parentheses, on a character no other `case` takes. */
  predicate KeywordHit(s: string, start: nat, p: nat, keyword: string)
    requires start <= p < |s|
  {
    At(s, start, p) == TOP && s[p] !in "'\"-/()" && KeywordAt(s, p, keyword)
  }

  /** The first keyword hit at or after `p`. */
  function FirstKeyword(s: string, start: nat, p: nat, keyword: string): (r: int)
    requires start <= p <= |s|
    ensures r == -1 || (p <= r < |s| && KeywordHit(s, start, r, keyword))
    ensures forall q | p <= q < (if r == -1 then |s| else r) :: !KeywordHit(s, start, q, keyword)
    decreases |s| - p
  {
    if p == |s| then -1
    else if KeywordHit(s, start, p, keyword) then p
    else FirstKeyword(s, start, p + 1, keyword)
  }

  lemma FirstKeywordIs(s: string, start: nat, p: nat, r: int, keyword: string)
    requires start <= p <= |s|
    requires r == -1 || (p <= r < |s| && KeywordHit(s, start, r, keyword))
    requires forall q | p <= q < (if r == -1 then |s| else r) :: !KeywordHit(s, start, q, keyword)
    ensures FirstKeyword(s, start, p, keyword) == r
  {
  }

  function FindKeyword(s: string, start: nat, keyword: string): int {
    if start > |s| then -1 else FirstKeyword(s, start, start, keyword)
  }

  lemma NoKeywordInside(s: string, a: nat, pos: nat, end: nat, keyword: string)
    requires a <= pos <= end < |s| && IsLexeme(s, pos, end) && At(s, a, pos).mode == Code
    ensures forall q | pos < q <= end :: !KeywordHit(s, a, q, keyword)
  {
    forall q | pos < q <= end ensures !KeywordHit(s, a, q, keyword) {
      LexemeInScan(s, a, pos, end, q);
    }
  }

  method FindTopLevelSQLKeyword(sqlText: string, start: nat, keyword: string) returns (r: int)
    ensures r == FindKeyword(sqlText, start, keyword)
  {
    var depth: nat := 0;
    var pos := start;
    while pos < |sqlText|
      invariant start <= pos && (start <= |sqlText| ==> pos <= |sqlText|)
      invariant pos < |sqlText| ==> At(sqlText, start, pos) == Scan(Code, depth)
      invariant forall q | start <= q < pos <= |sqlText| :: !KeywordHit(sqlText, start, q, keyword)
    {
      if sqlText[pos] == '(' {
        depth := depth + 1;
      } else if sqlText[pos] == ')' {
        if depth > 0 {
          depth := depth - 1;
        }
      } else if sqlText[pos] !in "'\"-/" && depth == 0 && KeywordAt(sqlText, pos, keyword) {
        FirstKeywordIs(sqlText, start, start, pos, keyword);
        return pos;
      }
      var end := SkipLexeme(sqlText, pos);
      AfterLexeme(sqlText, start, pos, end, depth);
      NoKeywordInside(sqlText, start, pos, end, keyword);
      pos := end + 1;
    }
    if start <= |sqlText| {
      FirstKeywordIs(sqlText, start, start, -1, keyword);
    }
    return -1;
  }

  /** The position closes the parenthesis the scan started at. */
  predicate CloseHit(s: string, open: nat, p: nat)
    requires open <= p < |s|
  {
    At(s, open, p) == Scan(Code, 1) && s[p] == ')'
  }

  function FirstClose(s: string, open: nat, p: nat): (r: int)
    requires open <= p <= |s|
    ensures r == -1 || (p <= r < |s| && CloseHit(s, open, r))
    ensures forall q | p <= q < (if r == -1 then |s| else r) :: !CloseHit(s, open, q)
    decreases |s| - p
  {
    if p == |s| then -1 else if CloseHit(s, open, p) then p else FirstClose(s, open, p + 1)
  }

  lemma FirstCloseIs(s: string, open: nat, p: nat, r: int)
    requires open <= p <= |s|
    requires r == -1 || (p <= r < |s| && CloseHit(s, open, r))
    requires forall q | p <= q < (if r == -1 then |s| else r) :: !CloseHit(s, open, q)
    ensures FirstClose(s, open, p) == r
  {
  }

  function MatchingParen(s: string, open: nat): (r: int)
    requires open < |s| && s[open] == '('
    ensures r == -1 || open < r < |s|
  {
    FirstClose(s, open, open)
  }

  lemma NoCloseInside(s: string, a: nat, pos: nat, end: nat)
    requires a <= pos <= end < |s| && IsLexeme(s, pos, end) && At(s, a, pos).mode == Code
    ensures forall q | pos < q <= end :: !CloseHit(s, a, q)
  {
    forall q | pos < q <= end ensures !CloseHit(s, a, q) {
      LexemeInScan(s, a, pos, end, q);
    }
  }

  method FindMatchingSQLParen(sqlText: string, open: nat) returns (r: int)
    requires open < |sqlText| && sqlText[open] == '('
    ensures r == MatchingParen(sqlText, open)
  {
    var depth := 0;
    var pos := open;
    while pos < |sqlText|
      invariant open <= pos <= |sqlText|
      invariant depth >= 0 && (depth > 0 || pos == open)
      invariant pos < |sqlText| ==> At(sqlText, open, pos) == Scan(Code, depth)
      invariant forall q | open <= q < pos :: !CloseHit(sqlText, open, q)
    {
      if sqlText[pos] == '(' {
        depth := depth + 1;
      } else if sqlText[pos] == ')' {
        depth := depth - 1;
        if depth == 0 {
          FirstCloseIs(sqlText, open, open, pos);
          return pos;
        }
      }
      var end := SkipLexeme(sqlText, pos);
      AfterLexeme(sqlText, open, pos, end, depth);
      NoCloseInside(sqlText, open, pos, end);
      pos := end + 1;
    }
    FirstCloseIs(sqlText, open, open, -1);
    return -1;
  }

  /** Between a parenthesis and its match, a scan begun anywhere before it is always exactly its
      depth at the parenthesis deeper than the scan begun there, and back at that depth after the
      match: the loops agree on what is nested in what. */
  lemma {:induction false} NestedDepth(s: string, a: nat, open: nat, p: nat)
    requires a <= open < |s| && s[open] == '(' && At(s, a, open).mode == Code
    requires open < p <= (var r := MatchingParen(s, open); if r == -1 then |s| else r)
    ensures At(s, a, p).mode == At(s, open, p).mode
    ensures At(s, open, p).depth > 0
    ensures At(s, a, p).depth == At(s, a, open).depth + At(s, open, p).depth
    decreases p
  {
    if p > open + 1 {
      NestedDepth(s, a, open, p - 1);
      assert !CloseHit(s, open, p - 1);
    }
  }

  lemma MatchRestoresDepth(s: string, a: nat, open: nat)
    requires a <= open < |s| && s[open] == '(' && At(s, a, open).mode == Code
    requires MatchingParen(s, open) != -1
    ensures var end := MatchingParen(s, open);
      s[end] == ')' && At(s, a, end + 1) == At(s, a, open)
  {
    NestedDepth(s, a, open, MatchingParen(s, open));
  }

  predicate CommaHit(v: string, start: nat, p: nat)
    requires start <= p < |v|
  {
    At(v, start, p) == TOP && v[p] == ','
  }

  function FirstComma(v: string, p: nat): (r: int)
    requires p <= |v|
    ensures r == -1 || (p <= r < |v| && CommaHit(v, 0, r))
    ensures forall q | p <= q < (if r == -1 then |v| else r) :: !CommaHit(v, 0, q)
    decreases |v| - p
  {
    if p == |v| then -1 else if CommaHit(v, 0, p) then p else FirstComma(v, p + 1)
  }

  lemma FirstCommaIs(v: string, p: nat, r: int)
    requires p <= |v|
    requires r == -1 || (p <= r < |v| && CommaHit(v, 0, r))
    requires forall q | p <= q < (if r == -1 then |v| else r) :: !CommaHit(v, 0, q)
    ensures FirstComma(v, p) == r
  {
  }

  /** The text cut at its top-level commas, each piece lexed afresh. */
  function Pieces(v: string): (r: seq<string>)
    ensures |r| > 0
    decreases |v|
  {
    var c := FirstComma(v, 0);
    if c == -1 then [v] else [v[..c]] + Pieces(v[c + 1..])
  }

  /** The trimmed pieces; only an empty last one is dropped. */
  function ListItems(pieces: seq<string>): seq<string>
    requires |pieces| > 0
  {
    if |pieces| == 1 then (if Trim(pieces[0]) == "" then [] else [Trim(pieces[0])])
    else [Trim(pieces[0])] + ListItems(pieces[1..])
  }

  function SplitList(v: string): seq<string> { ListItems(Pieces(v)) }

  /** Cutting loses nothing: the pieces joined by commas are the text. */
  lemma {:induction false} PiecesJoin(v: string)
    ensures Join(Pieces(v), ",") == v
    decreases |v|
  {
    var c := FirstComma(v, 0);
    if c != -1 {
      PiecesJoin(v[c + 1..]);
      assert v == v[..c] + "," + v[c + 1..];
      assert Pieces(v)[1..] == Pieces(v[c + 1..]);
    }
  }

  /** The first top-level comma of a suffix, seen by a scan of the whole text begun there. */
  lemma FirstCommaOfSuffix(value: string, start: nat, r: int)
    requires start <= |value|
    requires r == -1 || (start <= r < |value| && CommaHit(value, start, r))
    requires forall q | start <= q < (if r == -1 then |value| else r) :: !CommaHit(value, start, q)
    ensures FirstComma(value[start..], 0) == if r == -1 then -1 else r - start
  {
    var v := value[start..];
    forall q | 0 <= q < |v| ensures CommaHit(v, 0, q) == CommaHit(value, start, start + q) {
      Shift(value, start, start, start + q);
    }
    FirstCommaIs(v, 0, if r == -1 then -1 else r - start);
  }

  lemma PiecesStep(value: string, start: nat, pos: nat)
    requires start <= pos < |value| && FirstComma(value[start..], 0) == pos - start
    ensures SplitList(value[start..]) == [Trim(value[start..pos])] + SplitList(value[pos + 1..])
  {
    var v := value[start..];
    assert v[..pos - start] == value[start..pos];
    assert v[pos - start + 1..] == value[pos + 1..];
    assert Pieces(v)[1..] == Pieces(value[pos + 1..]);
  }

  lemma CommaStep(result: seq<string>, value: string, start: nat, pos: nat)
    requires start <= pos < |value| && CommaHit(value, start, pos)
    requires forall q | start <= q < pos :: !CommaHit(value, start, q)
    ensures result + SplitList(value[start..]) == result + [Trim(value[start..pos])] + SplitList(value[pos + 1..])
  {
    FirstCommaOfSuffix(value, start, pos);
    PiecesStep(value, start, pos);
    assert result + ([Trim(value[start..pos])] + SplitList(value[pos + 1..]))
        == result + [Trim(value[start..pos])] + SplitList(value[pos + 1..]);
  }

  lemma PiecesLast(value: string, start: nat)
    requires start <= |value| && FirstComma(value[start..], 0) == -1
    ensures SplitList(value[start..]) == if Trim(value[start..]) == "" then [] else [Trim(value[start..])]
  {
  }

  lemma NoCommaInside(s: string, a: nat, pos: nat, end: nat)
    requires a <= pos <= end < |s| && IsLexeme(s, pos, end) && At(s, a, pos).mode == Code
    ensures forall q | pos < q <= end :: !CommaHit(s, a, q)
  {
    forall q | pos < q <= end ensures !CommaHit(s, a, q) {
      LexemeInScan(s, a, pos, end, q);
    }
  }

  method SplitTopLevelSQLList(value: string) returns (result: seq<string>)
    ensures result == SplitList(value)
  {
    hide Pieces, ListItems, Trim;
    result := [];
    var start := 0;
    var depth: nat := 0;
    var pos := 0;
    assert value[0..] == value;
    while pos < |value|
      invariant start <= pos <= |value|
      invariant pos < |value| ==> At(value, start, pos) == Scan(Code, depth)
      invariant forall q | start <= q < pos :: !CommaHit(value, start, q)
      invariant result + SplitList(value[start..]) == SplitList(value)
    {
      if value[pos] == ',' && depth == 0 {
        CommaStep(result, value, start, pos);
        result := result + [Trim(value[start..pos])];
        start := pos + 1;
        pos := pos + 1;
      } else {
        if value[pos] == '(' {
          depth := depth + 1;
        } else if value[pos] == ')' && depth > 0 {
          depth := depth - 1;
        }
        var end := SkipLexeme(value, pos);
        AfterLexeme(value, start, pos, end, depth);
        NoCommaInside(value, start, pos, end);
        pos := end + 1;
      }
    }
    FirstCommaOfSuffix(value, start, -1);
    PiecesLast(value, start);
    var tail := Trim(value[start..]);
    if tail != "" {
      result := result + [tail];
    }
  }

  // ---- letter case ----

  /** The two characters are the same for the lexer. */
  predicate Alike(c: char, d: char) {
    && (c == '\'' <==> d == '\'') && (c == '"' <==> d == '"') && (c == '-' <==> d == '-') && (c == '/' <==> d == '/')
    && (c == '*' <==> d == '*') && (c == '(' <==> d == '(') && (c == ')' <==> d == ')')
    && (c == '\n' <==> d == '\n') && (c == '\r' <==> d == '\r') && IsIdentifierPart(c) == IsIdentifierPart(d)
  }

  lemma SameCharacter(c: char, d: char)
    requires UpperChar(c) == UpperChar(d)
    ensures Alike(c, d)
  {
  }

  lemma SameAt(s: string, t: string, i: nat)
    requires Upper(s) == Upper(t) && i < |s|
    ensures |s| == |t| && UpperChar(s[i]) == UpperChar(t[i]) && Alike(s[i], t[i])
  {
    assert Upper(s)[i] == UpperChar(s[i]) && Upper(t)[i] == UpperChar(t[i]);
    SameCharacter(s[i], t[i]);
  }

  lemma SameSteps(st: Scan, s: string, t: string, i: nat)
    requires i < |s| == |t| && Alike(s[i], t[i]) && (i + 1 < |s| ==> Alike(s[i + 1], t[i + 1]))
    ensures StepMode(st.mode, s, i) == StepMode(st.mode, t, i) && StepDepth(st, s[i]) == StepDepth(st, t[i])
  {
    hide IsIdentifierPart;
  }

  lemma {:induction false} SameScan(s: string, t: string, a: nat, p: nat)
    requires Upper(s) == Upper(t) && a <= p <= |s| == |t|
    ensures At(t, a, p) == At(s, a, p)
    decreases p
  {
    hide Upper, Alike, StepMode, StepDepth;
    if p > a {
      SameScan(s, t, a, p - 1);
      SameAt(s, t, p - 1);
      if p < |s| {
        SameAt(s, t, p);
      }
      SameSteps(At(s, a, p - 1), s, t, p - 1);
    }
  }

  lemma SameSlice(s: string, t: string, pos: nat, n: nat)
    requires Upper(s) == Upper(t) && pos + n <= |s| == |t|
    ensures Upper(s[pos..pos + n]) == Upper(t[pos..pos + n])
  {
    var x, y := s[pos..pos + n], t[pos..pos + n];
    forall i | 0 <= i < n ensures UpperChar(x[i]) == UpperChar(y[i]) {
      assert Upper(s)[pos + i] == UpperChar(x[i]) && Upper(t)[pos + i] == UpperChar(y[i]);
    }
    assert |Upper(x)| == |Upper(y)| && forall i | 0 <= i < |x| :: Upper(x)[i] == Upper(y)[i];
  }

  lemma SameKeyword(s: string, t: string, pos: nat, keyword: string)
    requires Upper(s) == Upper(t) && |s| == |t| && pos <= |s|
    ensures KeywordAt(s, pos, keyword) == KeywordAt(t, pos, keyword)
  {
    hide Upper;
    var n := |keyword|;
    if pos + n <= |s| {
      SameSlice(s, t, pos, n);
      if pos > 0 {
        SameAt(s, t, pos - 1);
      }
      if pos + n < |s| {
        SameAt(s, t, pos + n);
      }
    }
  }

  /** Letter case makes no difference to where a keyword is found. */
  lemma KeywordInAnyCase(s: string, t: string, start: nat, keyword: string)
    requires Upper(s) == Upper(t)
    ensures FindKeyword(s, start, keyword) == FindKeyword(t, start, keyword)
  {
    hide At, KeywordAt, Upper;
    SameLength(s, t);
    if start <= |s| {
      forall q | start <= q < |s| ensures KeywordHit(s, start, q, keyword) == KeywordHit(t, start, q, keyword) {
        SameScan(s, t, start, q);
        SameAt(s, t, q);
        SameKeyword(s, t, q, keyword);
      }
      FirstKeywordIs(t, start, start, FirstKeyword(s, start, start, keyword), keyword);
    }
  }

  lemma SameLength(s: string, t: string)
    requires Upper(s) == Upper(t)
    ensures |s| == |t|
  {
  }
}
