/** SQL text as words, literals, comments and nested parentheses, and what the scanning loops make of it. */
module SqlGrammar {
  import opened Text
  import opened SqlLexer
  import opened QuotedIdentifiers
  import opened OracleItems
  import opened OracleNested

  /** A text: characters, quoted texts, comments and parentheses, in order. */
  datatype Doc =
    | Empty
    | Char(c: char, rest: Doc)
    | Quoted(quote: char, text: string, rest: Doc)
    | Line(text: string, end: char, rest: Doc)
    | Block(text: string, rest: Doc)
    | Paren(inner: Doc, rest: Doc)

  /** The first element as it is written. */
  function First(d: Doc): string
    decreases d, 0
  {
    match d
    case Empty => ""
    case Char(c, _) => [c]
    case Quoted(quote, text, _) => [quote] + (Doubled(text, quote) + [quote])
    case Line(text, end, _) => "--" + (text + [end])
    case Block(text, _) => "/*" + (text + "*/")
    case Paren(inner, _) => "(" + Written(inner) + ")"
  }

  function Written(d: Doc): string
    decreases d, 1
  {
    if d.Empty? then "" else First(d) + Written(d.rest)
  }

  predicate StartsWith(s: string, c: char) { s != "" && s[0] == c }

  /** The first element is what it is called, also with the text that follows. */
  predicate ShapedFirst(d: Doc, rest: string) {
    match d
    case Empty => true
    case Char(c, _) =>
      && c != '\'' && c != '"' && c != '(' && c != ')'
      && !(c == '-' && StartsWith(rest, '-')) && !(c == '/' && StartsWith(rest, '*'))
    case Quoted(quote, _, _) => (quote == '\'' || quote == '"') && !StartsWith(rest, quote)
    case Line(text, end, _) =>
      (end == '\n' || end == '\r') && forall i | 0 <= i < |text| :: text[i] != '\n' && text[i] != '\r'
    case Block(text, _) => forall i | 0 <= i < |text| - 1 :: !(text[i] == '*' && text[i + 1] == '/')
    case Paren(_, _) => true
  }

  predicate Shaped(d: Doc) {
    d.Empty? || (ShapedFirst(d, Written(d.rest)) && Shaped(d.rest) && (d.Paren? ==> Shaped(d.inner)))
  }

  // ---- one element ----

  /** Balanced text whose first character alone is code outside parentheses. */
  ghost predicate Solid(x: string) { x != "" && Balanced(x) && forall q | 0 < q < |x| :: At(x, 0, q) != TOP }

  lemma SolidWhen(x: string)
    requires x != "" && x[0] != ')' && Closed(x) && forall q | 0 < q < |x| :: At(x, 0, q) != TOP
    ensures Solid(x)
  {
    hide At;
  }

  lemma CharSolid(c: char)
    requires c !in "'\"()"
    ensures Solid([c])
  {
    assert At([c], 0, 0) == TOP;
    SolidWhen([c]);
  }

  lemma {:induction false} QuotedBody(s: string, i: nat, quote: char, text: string, p: nat)
    requires quote == '\'' || quote == '"'
    requires i <= p <= |s| && s[i..] == Doubled(text, quote) + [quote]
    requires At(s, 0, i) == Scan(if quote == '\'' then Single else Double, 0)
    ensures At(s, 0, p) == TOP <==> p == |s|
    decreases |text|
  {
    var d := Doubled(text, quote);
    if text == "" {
      assert s[i] == s[i..][0] == quote;
    } else {
      var rest := Doubled(text[1..], quote);
      var k := |d| - |rest|;
      assert s[i] == s[i..][0] == d[0] == text[0];
      assert k == 2 ==> s[i + 1] == s[i..][1] == d[1];
      assert s[i + k..] == (d + [quote])[k..] == rest + [quote];
      assert k == 2 ==> At(s, 0, i + 1) == Scan(if quote == '\'' then SingleEsc else DoubleEsc, 0);
      assert k == 1 ==> At(s, 0, i + 1) == At(s, 0, i);
      if p >= i + k {
        QuotedBody(s, i + k, quote, text[1..], p);
      }
    }
  }

  lemma QuotedSolid(quote: char, text: string)
    requires quote == '\'' || quote == '"'
    ensures Solid([quote] + (Doubled(text, quote) + [quote]))
  {
    var x := [quote] + (Doubled(text, quote) + [quote]);
    assert x[1..] == Doubled(text, quote) + [quote];
    assert At(x, 0, 0) == TOP && At(x, 0, 1) == Scan(if quote == '\'' then Single else Double, 0);
    forall p | 0 < p <= |x| ensures At(x, 0, p) == TOP <==> p == |x| {
      QuotedBody(x, 1, quote, text, p);
    }
    SolidWhen(x);
  }

  lemma {:induction false} LineBody(x: string, p: nat)
    requires |x| > 1 && x[0] == '-' && x[1] == '-' && 0 < p < |x|
    requires forall i | 0 <= i < |x| - 1 :: x[i] != '\n' && x[i] != '\r'
    ensures At(x, 0, p) == Scan(SqlLexer.Line, 0)
    decreases p
  {
    if p > 1 {
      LineBody(x, p - 1);
    } else {
      assert At(x, 0, 0) == TOP;
    }
  }

  lemma LineSolid(text: string, end: char)
    requires end == '\n' || end == '\r'
    requires forall i | 0 <= i < |text| :: text[i] != '\n' && text[i] != '\r'
    ensures Solid("--" + (text + [end]))
  {
    var x := "--" + (text + [end]);
    forall i | 0 <= i < |x| - 1 ensures x[i] != '\n' && x[i] != '\r' {
      assert i >= 2 ==> x[i] == text[i - 2];
    }
    forall p | 0 < p < |x| ensures At(x, 0, p) == Scan(SqlLexer.Line, 0) {
      LineBody(x, p);
    }
    assert x[|x| - 1] == end && At(x, 0, |x|) == TOP;
    SolidWhen(x);
  }

  lemma {:induction false} BlockBody(x: string, p: nat)
    requires |x| >= 4 && x[0] == '/' && x[1] == '*' && x[|x| - 2] == '*' && x[|x| - 1] == '/'
    requires forall i | 2 <= i < |x| - 2 :: !(x[i] == '*' && x[i + 1] == '/')
    requires 2 <= p <= |x| - 2
    ensures At(x, 0, p) == Scan(SqlLexer.Block, 0)
    decreases p
  {
    if p > 2 {
      BlockBody(x, p - 1);
    } else {
      assert At(x, 0, 0) == TOP && At(x, 0, 1) == Scan(BlockOpen, 0);
    }
  }

  lemma BlockSolid(text: string)
    requires forall i | 0 <= i < |text| - 1 :: !(text[i] == '*' && text[i + 1] == '/')
    ensures var x := "/*" + (text + "*/"); Solid(x) && At(x, 0, |x| - 1).mode == BlockClose
  {
    var x := "/*" + (text + "*/");
    forall i | 2 <= i < |x| - 2 ensures !(x[i] == '*' && x[i + 1] == '/') {
      assert x[i] == text[i - 2] && (i < |x| - 3 ==> x[i + 1] == text[i - 1]);
    }
    forall p | 2 <= p <= |x| - 2 ensures At(x, 0, p) == Scan(SqlLexer.Block, 0) {
      BlockBody(x, p);
    }
    assert At(x, 0, 0) == TOP && At(x, 0, 1) == Scan(BlockOpen, 0);
    assert At(x, 0, |x| - 1) == Scan(BlockClose, 0) && At(x, 0, |x|) == TOP;
    SolidWhen(x);
  }

  lemma ParenSolid(x: string)
    requires Balanced(x)
    ensures Solid("(" + x + ")")
  {
    hide At;
    ParenBalanced(x);
    var s := "(" + x + ")";
    forall q | 0 < q < |s| ensures At(s, 0, q) != TOP {
      InParen(s, 0, x, q - 1);
    }
  }

  // ---- the whole text ----

  lemma FirstSolid(d: Doc)
    requires !d.Empty? && Shaped(d) && (d.Paren? ==> Balanced(Written(d.inner)))
    ensures Solid(First(d))
  {
    hide Solid, Balanced;
    match d
    case Char(c, _) => CharSolid(c);
    case Quoted(quote, text, _) => QuotedSolid(quote, text);
    case Line(text, end, _) => LineSolid(text, end);
    case Block(text, _) => BlockSolid(text);
    case Paren(inner, _) => ParenSolid(Written(inner));
  }

  /** The two texts are lexed as one after the other. */
  ghost predicate Joins(x: string, y: string) {
    CanFollow(x, y) || (x != "" && At(x, 0, |x| - 1).mode == BlockClose)
  }

  lemma {:induction false} ExtendJoin(x: string, y: string, p: nat)
    requires p <= |x| && Closed(x) && Joins(x, y)
    ensures At(x + y, 0, p) == At(x, 0, p)
    decreases p
  {
    if p > 0 {
      ExtendJoin(x, y, p - 1);
      assert (x + y)[p - 1] == x[p - 1];
      if p < |x| {
        assert (x + y)[p] == x[p];
      } else if y != [] {
        assert (x + y)[p] == y[0];
      }
    }
  }

  lemma JoinedAt(x: string, y: string, p: nat)
    requires Closed(x) && Joins(x, y) && p <= |y|
    ensures At(x + y, 0, |x| + p) == At(y, 0, p)
  {
    hide At, Joins;
    ExtendJoin(x, y, |x|);
    Restart(x + y, 0, |x|, |x| + p);
    Shift(x + y, |x|, |x|, |x| + p);
    assert (x + y)[|x|..] == y;
  }

  lemma JoinedBalanced(x: string, y: string)
    requires Balanced(x) && Balanced(y) && Joins(x, y)
    ensures Balanced(x + y)
  {
    hide At, Joins;
    JoinedAt(x, y, |y|);
    forall q | 0 <= q < |x + y| ensures !(At(x + y, 0, q) == TOP && (x + y)[q] == ')') {
      if q < |x| {
        ExtendJoin(x, y, q);
        assert (x + y)[q] == x[q];
      } else {
        JoinedAt(x, y, q - |x|);
        assert (x + y)[q] == y[q - |x|];
      }
    }
  }

  lemma Seam(d: Doc)
    requires !d.Empty? && Shaped(d)
    ensures Joins(First(d), Written(d.rest))
  {
    hide At;
    if d.Block? {
      BlockSolid(d.text);
    }
  }

  /** Every shaped text is balanced: literals and comments hide what they contain. */
  lemma {:induction false} ShapedBalanced(d: Doc)
    requires Shaped(d)
    ensures Balanced(Written(d))
    decreases d
  {
    hide At, First, Balanced, Joins, ShapedFirst;
    if d.Empty? {
      EmptyBalanced();
    } else {
      if d.Paren? {
        ShapedBalanced(d.inner);
      }
      FirstSolid(d);
      Seam(d);
      ShapedBalanced(d.rest);
      JoinedBalanced(First(d), Written(d.rest));
    }
  }

  lemma EmptyBalanced()
    ensures Balanced("")
  {
  }

  /** The characters with which the elements of the text begin. */
  function Heads(d: Doc): set<char> {
    if d.Empty? then {}
    else (match d
          case Char(c, _) => {c}
          case Quoted(quote, _, _) => {quote}
          case Line(_, _, _) => {'-'}
          case Block(_, _) => {'/'}
          case Paren(_, _) => {'('}) + Heads(d.rest)
  }

  lemma FirstHead(d: Doc)
    requires !d.Empty?
    ensures First(d) != "" && First(d)[0] in Heads(d) && Heads(d.rest) <= Heads(d)
  {
  }

  /** Only where an element begins is the scan outside literals, comments and parentheses. */
  lemma {:induction false} TopIsHead(d: Doc, p: nat)
    requires Shaped(d) && p < |Written(d)| && At(Written(d), 0, p) == TOP
    ensures Written(d)[p] in Heads(d)
    decreases d
  {
    hide At, First, Balanced, Joins, ShapedFirst, Heads;
    if !d.Empty? {
      if d.Paren? {
        ShapedBalanced(d.inner);
      }
      FirstSolid(d);
      Seam(d);
      FirstHead(d);
      var x, y := First(d), Written(d.rest);
      SolidFacts(x);
      if p < |x| {
        ExtendJoin(x, y, p);
      } else {
        JoinedAt(x, y, p - |x|);
        TopIsHead(d.rest, p - |x|);
      }
    }
  }

  lemma SolidFacts(x: string)
    requires Solid(x)
    ensures Closed(x) && forall q | 0 < q < |x| :: At(x, 0, q) != TOP
  {
    hide At;
  }

  // ---- the parenthesis that matches ----

  /** A parenthesis is matched by the one that ends its group, whatever stands in it and after it. */
  lemma MatchIs(before: string, inner: Doc, after: string)
    requires Shaped(inner)
    ensures MatchingParen(before + "(" + Written(inner) + ")" + after, |before|) == |before| + 1 + |Written(inner)|
  {
    hide Written, Balanced, MatchingParen;
    var x := Written(inner);
    var s := before + "(" + x + ")" + after;
    ShapedBalanced(inner);
    assert s[|before|] == '(' && s[|before| + 1..|before| + 1 + |x|] == x && s[|before| + 1 + |x|] == ')';
    ParenMatches(s, |before|, x);
  }

  // ---- the list ----

  function WrittenAll(docs: seq<Doc>): (r: seq<string>)
    ensures |r| == |docs| && forall i | 0 <= i < |r| :: r[i] == Written(docs[i])
  {
    seq(|docs|, i requires 0 <= i < |docs| => Written(docs[i]))
  }

  lemma NoCommaHere(d: Doc)
    requires Shaped(d) && ',' !in Heads(d)
    ensures FirstComma(Written(d), 0) == -1
  {
    hide At, Heads, Written, Shaped;
    var x := Written(d);
    forall p | 0 <= p < |x| ensures !CommaHit(x, 0, p) {
      if At(x, 0, p) == TOP {
        TopIsHead(d, p);
      }
    }
    FirstCommaIs(x, 0, -1);
  }

  lemma CommaAfter(x: string, rest: string)
    requires Closed(x) && FirstComma(x, 0) == -1
    ensures FirstComma(x + "," + rest, 0) == |x|
  {
    hide At;
    var s := x + "," + rest;
    var y := "," + rest;
    assert s == x + y && CanFollow(x, y);
    AfterClosed(x, y, 0);
    AtStart(y, 0);
    forall q | 0 <= q < |x| ensures !CommaHit(s, 0, q) {
      Extend(x, y, q);
      assert !CommaHit(x, 0, q);
    }
    FirstCommaIs(s, 0, |x|);
  }

  lemma BalancedClosed(x: string)
    requires Balanced(x)
    ensures Closed(x)
  {
    hide At;
  }

  /** Texts between commas are split at just these commas: those in parentheses, literals, delimited names and
      comments stay. */
  lemma {:induction false} ShapedPieces(docs: seq<Doc>)
    requires docs != [] && forall i | 0 <= i < |docs| :: Shaped(docs[i]) && ',' !in Heads(docs[i])
    ensures Pieces(Join(WrittenAll(docs), ",")) == WrittenAll(docs)
    decreases |docs|
  {
    hide Heads, Written, Shaped, Closed, Balanced, FirstComma;
    var x := Written(docs[0]);
    NoCommaHere(docs[0]);
    if |docs| == 1 {
      assert WrittenAll(docs) == [x] && Join([x], ",") == x;
    } else {
      ShapedBalanced(docs[0]);
      BalancedClosed(x);
      var rest := Join(WrittenAll(docs[1..]), ",");
      assert WrittenAll(docs) == [x] + WrittenAll(docs[1..]) && WrittenAll(docs)[1..] == WrittenAll(docs[1..]);
      var s := x + "," + rest;
      assert Join(WrittenAll(docs), ",") == s;
      CommaAfter(x, rest);
      assert s[..|x|] == x && s[|x| + 1..] == rest;
      ShapedPieces(docs[1..]);
    }
  }

  // ---- the keyword ----

  lemma WordBegins(s: string, p: nat, word: string, c: char)
    requires p < |s| && word != "" && KeywordAt(s, p, word) && UpperChar(word[0]) == c
    ensures UpperChar(s[p]) == c
  {
    assert Upper(s[p..p + |word|])[0] == UpperChar(s[p]) && Upper(word)[0] == UpperChar(word[0]);
  }

  lemma WordStands(before: string, word: string, after: string, keyword: string)
    requires EqualFold(word, keyword)
    requires before != "" ==> !IsIdentifierPart(before[|before| - 1])
    requires after != "" ==> !IsIdentifierPart(after[0])
    ensures |word| == |keyword| && KeywordAt(before + (word + after), |before|, keyword)
  {
    SameLength(word, keyword);
    var s := before + (word + after);
    assert s[|before|..|before| + |word|] == word;
    assert after != "" ==> s[|before| + |word|] == after[0];
  }

  /** A keyword behind a text is found there, in any letter case, unless the text has its first letter outside
      parentheses, literals, delimited names and comments. */
  lemma KeywordAfter(d: Doc, word: string, after: string, keyword: string)
    requires Shaped(d) && keyword != "" && EqualFold(word, keyword) && IsLetter(keyword[0])
    requires forall c | c in Heads(d) :: UpperChar(c) != UpperChar(keyword[0])
    requires Written(d) != "" ==> !IsIdentifierPart(Written(d)[|Written(d)| - 1])
    requires after != "" ==> !IsIdentifierPart(after[0])
    ensures FindKeyword(Written(d) + (word + after), 0, keyword) == |Written(d)|
  {
    hide At, Heads, Written, Shaped, Balanced, KeywordAt, EqualFold;
    var x := Written(d);
    var y := word + after;
    ShapedBalanced(d);
    BalancedClosed(x);
    WordStands(x, word, after, keyword);
    LetterFirst(word, keyword);
    assert y[0] == word[0] && CanFollow(x, y);
    AfterClosed(x, y, 0);
    AtStart(y, 0);
    assert (x + y)[|x|] == y[0];
    forall q | 0 <= q < |x| ensures !KeywordHit(x + y, 0, q, keyword) {
      if KeywordHit(x + y, 0, q, keyword) {
        Extend(x, y, q);
        TopIsHead(d, q);
        WordBegins(x + y, q, keyword, UpperChar(keyword[0]));
      }
    }
    FirstKeywordIs(x + y, 0, 0, |x|, keyword);
  }

  lemma LetterFirst(word: string, keyword: string)
    requires keyword != "" && EqualFold(word, keyword) && IsLetter(keyword[0])
    ensures word != "" && IsLetter(word[0])
  {
    SameLength(word, keyword);
    assert Upper(word)[0] == UpperChar(word[0]) && Upper(keyword)[0] == UpperChar(keyword[0]);
  }
}
