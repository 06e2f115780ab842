/** What makes a select item safe to cut out of one statement and to write into another. */
module OracleItems {
  import opened Text
  import opened SqlLexer
  import opened QuotedIdentifiers
  import opened OracleTokens

  // ---- the lexer over plain text and over tokens ----

  predicate IsPlainChar(c: char) { c !in "'\"-/()," }

  ghost predicate PlainRun(s: string, lo: nat, hi: nat)
    requires lo <= hi <= |s|
  {
    forall i | lo <= i < hi :: IsPlainChar(s[i])
  }

  lemma {:induction false} PlainKeeps(s: string, a: nat, lo: nat, hi: nat)
    requires a <= lo <= hi <= |s| && PlainRun(s, lo, hi) && At(s, a, lo).mode == Code
    ensures At(s, a, hi) == At(s, a, lo)
    decreases hi
  {
    if hi > lo {
      PlainKeeps(s, a, lo, hi - 1);
    }
  }

  /** The double-quoted text `[from, to)` starts in code and the lexer is back in code, at the same
      depth, right after it, and nowhere inside. */
  lemma {:induction false} QuotedKeeps(s: string, a: nat, from: nat, name: string, p: nat)
    requires a <= from && from + |QuoteIdentifier(name)| <= |s|
    requires s[from..from + |QuoteIdentifier(name)|] == QuoteIdentifier(name)
    requires NoQuoteNext(s[from + |QuoteIdentifier(name)|..])
    requires At(s, a, from).mode == Code && from < p <= from + |QuoteIdentifier(name)|
    ensures At(s, a, p).depth == At(s, a, from).depth
    ensures At(s, a, p).mode == Code <==> p == from + |QuoteIdentifier(name)|
  {
    var q := QuoteIdentifier(name);
    assert s[from] == q[0] == '"';
    assert At(s, a, from + 1) == Scan(Double, At(s, a, from).depth);
    assert s[from + 1..from + |q|] == q[1..] == Doubled(name, '"') + "\"";
    assert from + |q| < |s| ==> s[from + |q|] == s[from + |q|..][0];
    BodyKeeps(s, a, from + 1, name, p);
  }

  lemma BodyStep(s: string, a: nat, i: nat, k: nat)
    requires a <= i && i + k <= |s| && At(s, a, i).mode == Double
    requires if k == 2 then s[i] == '"' && s[i + 1] == '"' else k == 1 && s[i] != '"'
    ensures At(s, a, i + k) == Scan(Double, At(s, a, i).depth)
    ensures At(s, a, i + 1).mode != Code && At(s, a, i + 1).depth == At(s, a, i).depth
  {
    if k == 2 {
      assert At(s, a, i + 1) == Scan(DoubleEsc, At(s, a, i).depth);
    }
  }

  lemma {:induction false} BodyKeeps(s: string, a: nat, i: nat, name: string, p: nat)
    requires var end := i + |Doubled(name, '"')| + 1;
      && a <= i < end <= |s| && s[i..end] == Doubled(name, '"') + "\""
      && (end < |s| ==> s[end] != '"') && i <= p <= end
    requires At(s, a, i).mode == Double
    ensures At(s, a, p).depth == At(s, a, i).depth
    ensures At(s, a, p).mode == Code <==> p == i + |Doubled(name, '"')| + 1
    decreases |name|
  {
    var d := Doubled(name, '"');
    var end := i + |d| + 1;
    if name == "" {
      assert s[i] == s[i..end][0] == '"';
    } else {
      var rest := Doubled(name[1..], '"');
      var k := |d| - |rest|;
      assert s[i] == s[i..end][0] == d[0];
      assert k == 2 ==> s[i + 1] == s[i..end][1] == d[1];
      BodyStep(s, a, i, k);
      assert s[i + k..end] == (d + "\"")[k..] == rest + "\"";
      if p >= i + k {
        BodyKeeps(s, a, i + k, name[1..], p);
      }
    }
  }

  /** A token's text leaves the lexer in the state it found it in; only the characters of a bare
      token are code. */
  lemma TokenKeeps(s: string, a: nat, from: nat, t: Token)
    requires WellFormed(t) && a <= from && from + |t.text| <= |s| && s[from..from + |t.text|] == t.text
    requires t.quoted ==> NoQuoteNext(s[from + |t.text|..])
    requires At(s, a, from).mode == Code
    ensures At(s, a, from + |t.text|) == At(s, a, from)
    ensures forall p | from < p < from + |t.text| && At(s, a, p).mode == Code :: !t.quoted
  {
    var end := from + |t.text|;
    if t.quoted {
      forall p | from < p <= end ensures At(s, a, p).mode == Code <==> p == end {
        QuotedKeeps(s, a, from, t.name, p);
      }
      QuotedKeeps(s, a, from, t.name, end);
    } else {
      forall i | from <= i < end ensures IsPlainChar(s[i]) {
        assert s[i] == t.text[i - from];
      }
      PlainKeeps(s, a, from, end);
    }
  }

  // ---- no FROM inside ----

  predicate NoFrom(s: string) { FindKeyword(s, 0, "from") == -1 }

  /** A keyword hit sits on an `f`, in code outside parentheses, not after an identifier character. */
  lemma FromHitShape(s: string, a: nat, p: nat)
    requires a <= p < |s|
    ensures KeywordHit(s, a, p, "from") ==>
      && At(s, a, p) == TOP && p + 4 <= |s| && (s[p] == 'f' || s[p] == 'F')
      && (p > 0 ==> !IsIdentifierPart(s[p - 1]))
      && (forall i | p <= i < p + 4 :: IsIdentifierPart(s[i]))
  {
    hide At;
    if KeywordHit(s, a, p, "from") {
      FoldsToFrom(s[p..p + 4]);
      var w := s[p..p + 4];
      assert s[p] == w[0];
      forall i | p <= i < p + 4 ensures IsIdentifierPart(s[i]) {
        assert s[i] == w[i - p];
      }
    }
  }

  lemma FoldsToFrom(w: string)
    requires EqualFold(w, "from")
    ensures |w| == 4 && (w[0] == 'f' || w[0] == 'F')
    ensures forall i | 0 <= i < 4 :: IsLetter(w[i])
  {
    var u := Upper(w);
    assert u[0] == 'F' && u[1] == 'R' && u[2] == 'O' && u[3] == 'M';
  }

  predicate Separated(x: string, y: string) {
    x == [] || y == [] || !IsIdentifierPart(x[|x| - 1]) || !IsIdentifierPart(y[0])
  }

  /** A keyword in a concatenation lies wholly in one of the two texts. */
  lemma FromHitInConcat(x: string, y: string, p: nat)
    requires Closed(x) && CanFollow(x, y) && Separated(x, y) && p < |x + y|
    ensures KeywordHit(x + y, 0, p, "from") ==>
      if p < |x| then KeywordHit(x, 0, p, "from") else KeywordHit(y, 0, p - |x|, "from")
  {
    hide At;
    var s := x + y;
    assert x != [] && y != [] ==> s[|x| - 1] == x[|x| - 1] && s[|x|] == y[0];
    FromHitShape(s, 0, p);
    if KeywordHit(s, 0, p, "from") {
      if p < |x| {
        Extend(x, y, p);
        assert s[p..p + 4] == x[p..p + 4];
      } else {
        AfterClosed(x, y, p - |x|);
        assert s[p..p + 4] == y[p - |x|..p - |x| + 4];
      }
    }
  }

  lemma ConcatNoFrom(x: string, y: string)
    requires Closed(x) && CanFollow(x, y) && Separated(x, y) && NoFrom(x) && NoFrom(y)
    ensures NoFrom(x + y)
  {
    hide At, KeywordAt;
    forall p | 0 <= p < |x + y| ensures !KeywordHit(x + y, 0, p, "from") {
      FromHitInConcat(x, y, p);
    }
    FirstKeywordIs(x + y, 0, 0, -1, "from");
  }

  /** A keyword found in a part of a text is one of the whole text, when the part starts at depth
      zero in code and is not glued to identifier characters. */
  lemma FromHitInWhole(s: string, lo: nat, hi: nat, p: nat)
    requires lo <= hi <= |s| && p < hi - lo
    requires At(s, 0, lo) == TOP && At(s, 0, hi).mode == Code
    requires lo > 0 ==> !IsIdentifierPart(s[lo - 1])
    requires hi < |s| ==> !IsIdentifierPart(s[hi])
    ensures KeywordHit(s[lo..hi], 0, p, "from") ==> KeywordHit(s, 0, lo + p, "from")
  {
    hide At;
    PartAt(s, lo, hi, p);
    if KeywordHit(s[lo..hi], 0, p, "from") {
      SliceOfSlice(s, lo, hi, p, p + 4);
    }
  }

  lemma PartNoFrom(s: string, lo: nat, hi: nat)
    requires lo <= hi <= |s| && NoFrom(s)
    requires At(s, 0, lo) == TOP && At(s, 0, hi).mode == Code
    requires lo > 0 ==> !IsIdentifierPart(s[lo - 1])
    requires hi < |s| ==> !IsIdentifierPart(s[hi])
    ensures NoFrom(s[lo..hi])
  {
    hide At, KeywordAt;
    forall p | 0 <= p < hi - lo ensures !KeywordHit(s[lo..hi], 0, p, "from") {
      FromHitInWhole(s, lo, hi, p);
    }
    FirstKeywordIs(s[lo..hi], 0, 0, -1, "from");
  }

  lemma PartAt(s: string, lo: nat, hi: nat, p: nat)
    requires lo <= hi <= |s| && p <= hi - lo
    requires At(s, 0, lo) == TOP && At(s, 0, hi).mode == Code
    ensures At(s[lo..hi], 0, p) == At(s, 0, lo + p)
  {
    hide At;
    Restart(s, 0, lo, lo + p);
    Restart(s, 0, lo, hi);
    Shift(s, lo, lo, lo + p);
    Shift(s, lo, lo, hi);
    Cut(s[lo..], 0, hi - lo, p);
    assert s[lo..][..hi - lo] == s[lo..hi];
  }

  // ---- items ----

  /** Text that stays one item, as it is, wherever a select list puts it. */
  predicate ItemOk(x: string) {
    Closed(x) && Trim(x) == x && FirstComma(x, 0) == -1 && NoFrom(x)
  }

  /** The text does not end inside a line comment. */
  predicate EndsInCode(x: string) { At(x, 0, |x|).mode != Line }

  predicate CommentsEnd(items: seq<string>) { forall x | x in items :: EndsInCode(x) }

  /** Of all modes white space ends only line comments, so self-contained text is in code before its
      trailing white space already, or in a line comment. */
  lemma {:induction false} SpaceKeeps(s: string, from: nat)
    requires from <= |s| && At(s, 0, |s|).mode == Code && At(s, 0, from).mode != Line
    requires forall i | from <= i < |s| :: IsSpace(s[i])
    ensures At(s, 0, from) == At(s, 0, |s|)
    decreases |s| - from
  {
    if from < |s| {
      assert IsSpace(s[from]);
      ClosingSeen(s, from);
      SpaceKeeps(s, from + 1);
    }
  }

  /** The second character of a closer is there. */
  lemma ClosingSeen(s: string, i: nat)
    requires i < |s|
    ensures At(s, 0, i).mode == BlockClose ==> s[i] == '/'
  {
  }

  lemma AtStart(s: string, a: nat)
    requires a <= |s|
    ensures At(s, a, a) == TOP
  {
  }

  /** Cut before white space, a text is scanned as before: no lexeme opener reaches over white space. */
  lemma CutAtSpace(s: string, b: nat)
    requires b <= |s| && (b < |s| ==> IsSpace(s[b]))
    ensures At(s[..b], 0, b) == At(s, 0, b)
  {
    if b > 0 {
      Cut(s, 0, b, b - 1);
      assert s[..b][b - 1] == s[b - 1];
    }
  }

  lemma TrimmedEnd(x: string) returns (lead: nat)
    requires At(x, 0, |x|) == TOP
    ensures lead + |Trim(x)| <= |x| && Trim(x) == x[lead..lead + |Trim(x)|] && At(x, 0, lead) == TOP
    ensures (lead > 0 ==> IsSpace(x[lead - 1])) && (lead + |Trim(x)| < |x| ==> IsSpace(x[lead + |Trim(x)|]))
    ensures EndsInCode(Trim(x)) ==> At(x, 0, lead + |Trim(x)|) == TOP
  {
    hide Trim, At;
    lead := TrimSplits(x);
    var n := |Trim(x)|;
    var b := lead + n;
    AtStart(x, 0);
    PlainKeeps(x, 0, 0, lead);
    if n == 0 {
      return;
    }
    var cut := x[..b];
    CutAtSpace(x, b);
    Cut(x, 0, b, lead);
    Restart(cut, 0, lead, b);
    Shift(cut, lead, lead, b);
    assert cut[lead..] == Trim(x);
    if EndsInCode(Trim(x)) {
      SpaceKeeps(x, b);
    }
  }

  lemma TrimOk(x: string)
    requires Closed(x) && FirstComma(x, 0) == -1 && NoFrom(x) && EndsInCode(Trim(x))
    ensures ItemOk(Trim(x))
  {
    hide Trim, KeywordAt, At, EndsInCode;
    var lead := TrimmedEnd(x);
    var n := |Trim(x)|;
    PartAt(x, lead, lead + n, n);
    PartNoFrom(x, lead, lead + n);
    forall p | 0 <= p < n ensures !CommaHit(Trim(x), 0, p) {
      PartAt(x, lead, lead + n, p);
      assert !CommaHit(x, 0, lead + p);
    }
    FirstCommaIs(Trim(x), 0, -1);
    TrimTwice(x);
  }

  /** The first piece of a list, and what is left after its comma, are lists like it. */
  lemma FirstPieceOk(v: string, c: nat)
    requires Closed(v) && NoFrom(v) && FirstComma(v, 0) == c && EndsInCode(Trim(v[..c]))
    ensures ItemOk(Trim(v[..c]))
    ensures var rest := v[c + 1..]; Closed(rest) && NoFrom(rest)
  {
    hide Trim, ItemOk, KeywordAt, EndsInCode;
    var rest := v[c + 1..];
    assert At(v, 0, c + 1) == TOP;
    assert v[c + 1..|v|] == rest && v[0..c] == v[..c];
    PartAt(v, 0, c, c);
    PartNoFrom(v, 0, c);
    forall p | 0 <= p < c ensures !CommaHit(v[..c], 0, p) {
      PartAt(v, 0, c, p);
      assert !CommaHit(v, 0, p);
    }
    FirstCommaIs(v[..c], 0, -1);
    TrimOk(v[..c]);
    PartAt(v, c + 1, |v|, |rest|);
    PartNoFrom(v, c + 1, |v|);
  }

  lemma SplitStep(v: string, c: nat)
    requires FirstComma(v, 0) == c
    ensures SplitList(v) == [Trim(v[..c])] + SplitList(v[c + 1..])
  {
    assert Pieces(v)[1..] == Pieces(v[c + 1..]);
  }

  /** Every item of a select list can stand on its own, unless it ends with a line comment. */
  lemma {:induction false} ListItemsOk(v: string)
    requires Closed(v) && NoFrom(v) && CommentsEnd(SplitList(v))
    ensures forall x | x in SplitList(v) :: ItemOk(x)
    decreases |v|
  {
    hide Trim, ItemOk, EndsInCode, NoFrom, Closed;
    var c := FirstComma(v, 0);
    if c == -1 {
      if Trim(v) != "" {
        assert Trim(v) in SplitList(v);
        TrimOk(v);
      }
    } else {
      SplitStep(v, c);
      var rest := SplitList(v[c + 1..]);
      assert SplitList(v)[0] in SplitList(v);
      assert forall x | x in rest :: x in SplitList(v);
      FirstPieceOk(v, c);
      ListItemsOk(v[c + 1..]);
    }
  }

  // ---- a list written from items ----

  function ListText(items: seq<string>): string { Join(items, ", ") + " " }

  lemma PlainOk(x: string)
    requires PlainRun(x, 0, |x|) && forall i | 0 <= i < |x| :: x[i] != 'f' && x[i] != 'F'
    ensures Closed(x) && NoFrom(x) && FirstComma(x, 0) == -1
  {
    PlainKeeps(x, 0, 0, |x|);
    forall p | 0 <= p < |x| ensures !KeywordHit(x, 0, p, "from") {
      FromHitShape(x, 0, p);
    }
    FirstKeywordIs(x, 0, 0, -1, "from");
    FirstCommaIs(x, 0, -1);
  }

  lemma CommaSpaceOk()
    ensures Closed(", ") && NoFrom(", ")
  {
    assert At(", ", 0, 1) == TOP;
    assert At(", ", 0, 2) == TOP;
    forall p | 0 <= p < 2 ensures !KeywordHit(", ", 0, p, "from") {
      FromHitShape(", ", 0, p);
    }
    FirstKeywordIs(", ", 0, 0, -1, "from");
  }

  lemma {:induction false} ListTextOk(items: seq<string>)
    requires items != [] && forall x | x in items :: ItemOk(x)
    ensures Closed(ListText(items)) && NoFrom(ListText(items))
    decreases |items|
  {
    hide Trim, Closed, NoFrom;
    var x := items[0];
    assert x in items && ItemOk(x);
    if |items| == 1 {
      PlainOk(" ");
      ConcatClosed(x, " ");
      ConcatNoFrom(x, " ");
    } else {
      var rest := ListText(items[1..]);
      ListTextOk(items[1..]);
      CommaSpaceOk();
      ConcatClosed(", ", rest);
      ConcatNoFrom(", ", rest);
      ConcatClosed(x, ", " + rest);
      ConcatNoFrom(x, ", " + rest);
      assert ListText(items) == x + (", " + rest);
    }
  }

  lemma TrimPadded(pad: string, x: string, tail: string)
    requires Trim(x) == x && (pad == "" || pad == " ") && (tail == "" || tail == " ")
    ensures Trim(pad + x + tail) == x
  {
    var s := pad + x + tail;
    if x == "" {
      TrimAllSpace(s);
    } else {
      var lead := TrimSplits(s);
      var _ := TrimSplits(x);
      var n := |Trim(s)|;
      assert s[|pad|] == x[0] && s[|pad| + |x| - 1] == x[|x| - 1];
      assert lead <= |pad| && lead + n >= |pad| + |x|;
      assert s[lead] == Trim(s)[0] && s[lead + n - 1] == Trim(s)[n - 1];
      assert s[|pad|..|pad| + |x|] == x;
    }
  }

  lemma CommaEndsFirst(x: string, rest: string)
    requires Closed(x) && FirstComma(x, 0) == -1
    ensures SplitList(x + ("," + rest)) == [Trim(x)] + SplitList(rest)
  {
    hide At, Trim, SplitList;
    var v := x + ("," + rest);
    forall p | 0 <= p < |x| ensures !CommaHit(v, 0, p) {
      Extend(x, "," + rest, p);
      assert !CommaHit(x, 0, p);
    }
    AfterClosed(x, "," + rest, 0);
    AtStart("," + rest, 0);
    assert CommaHit(v, 0, |x|);
    FirstCommaIs(v, 0, |x|);
    SplitStep(v, |x|);
    assert v[..|x|] == x && v[|x| + 1..] == rest;
  }

  /** Splitting the joined items gives those items back. */
  lemma {:induction false} ListTextSplits(pad: string, items: seq<string>)
    requires items != [] && items[|items| - 1] != "" && (pad == "" || pad == " ")
    requires forall x | x in items :: ItemOk(x)
    ensures SplitList(pad + ListText(items)) == items
    decreases |items|
  {
    hide Trim, At, NoFrom, SplitList;
    var x := items[0];
    assert x in items && ItemOk(x);
    PaddedItem(pad, x);
    if |items| == 1 {
      assert pad + ListText(items) == pad + x + " ";
      LastSplits(pad, x);
    } else {
      var rest := " " + ListText(items[1..]);
      var v := (pad + x) + ("," + rest);
      assert pad + ListText(items) == v;
      CommaEndsFirst(pad + x, rest);
      TrimPadded(pad, x, "");
      assert pad + x + "" == pad + x;
      ListTextSplits(" ", items[1..]);
      assert [x] + items[1..] == items;
    }
  }

  lemma PaddedItem(pad: string, x: string)
    requires (pad == "" || pad == " ") && ItemOk(x)
    ensures Closed(pad + x) && FirstComma(pad + x, 0) == -1
  {
    hide At, NoFrom, Trim;
    PlainOk(pad);
    ConcatClosed(pad, x);
    NoCommaConcat(pad, x);
  }

  lemma LastSplits(pad: string, x: string)
    requires (pad == "" || pad == " ") && ItemOk(x) && x != ""
    ensures SplitList(pad + x + " ") == [x]
  {
    hide At, NoFrom, Trim;
    PaddedItem(pad, x);
    PlainOk(" ");
    NoCommaConcat(pad + x, " ");
    TrimPadded(pad, x, " ");
  }

  lemma NoCommaConcat(x: string, y: string)
    requires Closed(x) && CanFollow(x, y) && FirstComma(x, 0) == -1 && FirstComma(y, 0) == -1
    ensures FirstComma(x + y, 0) == -1
  {
    forall p | 0 <= p < |x + y| ensures !CommaHit(x + y, 0, p) {
      if p < |x| {
        Extend(x, y, p);
        assert !CommaHit(x, 0, p);
      } else {
        AfterClosed(x, y, p - |x|);
        assert !CommaHit(y, 0, p - |x|);
      }
    }
    FirstCommaIs(x + y, 0, -1);
  }
}
