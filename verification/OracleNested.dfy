/** The nested rewrite of a whole text: each edited statement is found again in its parenthesis. */
module OracleNested {
  import opened Text
  import opened SqlLexer
  import opened QuotedIdentifiers
  import opened OracleTokens
  import opened OracleSelect
  import opened OracleSplice
  import opened OracleItems
  import opened OracleReparse
  import opened OracleRoundTrip
  import opened OracleRewritten
  import opened OracleIdempotence
  import opened OracleMeaning

  // ---- balanced text ----

  /** No parenthesis is closed that was not opened in the text, outside literals and comments. */
  predicate NoClose(x: string, from: nat) {
    forall q | from <= q < |x| :: !(At(x, 0, q) == TOP && x[q] == ')')
  }

  /** What can stand in parentheses without changing what they enclose. */
  predicate Balanced(x: string) { Closed(x) && NoClose(x, 0) }

  lemma BalancedConcat(x: string, y: string)
    requires Balanced(x) && Balanced(y) && CanFollow(x, y)
    ensures Balanced(x + y)
  {
    hide At;
    ConcatClosed(x, y);
    forall q | 0 <= q < |x + y| ensures !(At(x + y, 0, q) == TOP && (x + y)[q] == ')') {
      if q < |x| {
        Extend(x, y, q);
        assert (x + y)[q] == x[q];
      } else {
        AfterClosed(x, y, q - |x|);
        assert (x + y)[q] == y[q - |x|];
      }
    }
  }

  lemma BalancedPart(s: string, lo: nat, hi: nat)
    requires Balanced(s) && lo <= hi <= |s| && At(s, 0, lo) == TOP && At(s, 0, hi) == TOP
    ensures Balanced(s[lo..hi])
  {
    hide At;
    var x := s[lo..hi];
    PartAt(s, lo, hi, hi - lo);
    forall q | 0 <= q < |x| ensures !(At(x, 0, q) == TOP && x[q] == ')') {
      PartAt(s, lo, hi, q);
      assert x[q] == s[lo + q];
    }
  }

  lemma InertBalanced(x: string)
    requires Inert(x)
    ensures Balanced(x)
  {
    hide At;
  }

  /** Inside parentheses balanced text is scanned as on its own, one level deeper. */
  lemma {:induction false} InParen(s: string, open: nat, x: string, j: nat)
    requires open + 1 + |x| < |s| && s[open] == '(' && s[open + 1..open + 1 + |x|] == x && s[open + 1 + |x|] == ')'
    requires NoClose(x, 0) && j <= |x|
    ensures At(s, open, open + 1 + j) == Scan(At(x, 0, j).mode, At(x, 0, j).depth + 1)
    decreases j
  {
    hide At, StepMode, StepDepth;
    var k := open + 1 + j;
    AtStart(x, 0);
    if j == 0 {
      AfterParen(s, open);
    } else {
      InParen(s, open, x, j - 1);
      SliceAt(s, open + 1, x, j - 1);
      if j < |x| {
        SliceAt(s, open + 1, x, j);
      }
      StepInParen(At(x, 0, j - 1), s, k - 1, x, j - 1);
      AtStep(s, open, k);
      AtStep(x, 0, j);
    }
  }

  lemma SliceAt(s: string, lo: nat, x: string, j: nat)
    requires lo + |x| <= |s| && s[lo..lo + |x|] == x && j < |x|
    ensures s[lo + j] == x[j]
  {
    assert s[lo..lo + |x|][j] == s[lo + j];
  }

  lemma AfterParen(s: string, open: nat)
    requires open < |s| && s[open] == '('
    ensures At(s, open, open + 1) == Scan(Code, 1)
  {
  }

  lemma AtStep(s: string, a: nat, p: nat)
    requires a < p <= |s|
    ensures At(s, a, p) == Scan(StepMode(At(s, a, p - 1).mode, s, p - 1), StepDepth(At(s, a, p - 1), s[p - 1]))
  {
  }

  lemma StepInParen(st: Scan, s: string, k: nat, x: string, j: nat)
    requires k + 1 < |s| && j < |x| && s[k] == x[j] && s[k + 1] == (if j + 1 < |x| then x[j + 1] else ')')
    requires !(st == TOP && x[j] == ')')
    ensures StepMode(st.mode, s, k) == StepMode(st.mode, x, j)
    ensures StepDepth(Scan(st.mode, st.depth + 1), s[k]) == StepDepth(st, x[j]) + 1
  {
  }

  lemma ParenMatches(s: string, open: nat, x: string)
    requires open + 1 + |x| < |s| && s[open] == '(' && s[open + 1..open + 1 + |x|] == x && s[open + 1 + |x|] == ')'
    requires Balanced(x)
    ensures MatchingParen(s, open) == open + 1 + |x|
  {
    hide At;
    var end := open + 1 + |x|;
    InParen(s, open, x, |x|);
    AtStart(s, open);
    forall q | open <= q < end ensures !CloseHit(s, open, q) {
      if q > open {
        InParen(s, open, x, q - open - 1);
        assert s[q] == s[open + 1..end][q - open - 1];
      }
    }
    FirstCloseIs(s, open, open, end);
  }

  /** What a parenthesis encloses is balanced. */
  lemma {:induction false} InsideAt(s: string, open: nat, j: nat)
    requires open < |s| && s[open] == '(' && MatchingParen(s, open) != -1 && open + 1 + j <= MatchingParen(s, open)
    ensures var x := s[open + 1..MatchingParen(s, open)];
      && At(s, open, open + 1 + j) == Scan(At(x, 0, j).mode, At(x, 0, j).depth + 1)
      && (j < |x| ==> !(At(x, 0, j) == TOP && x[j] == ')'))
    decreases j
  {
    var end := MatchingParen(s, open);
    var x := s[open + 1..end];
    var k := open + 1 + j;
    hide At, StepMode, StepDepth, MatchingParen;
    MatchIsClose(s, open);
    AtStart(x, 0);
    if j == 0 {
      AfterParen(s, open);
    } else {
      InsideAt(s, open, j - 1);
      StepInParen(At(x, 0, j - 1), s, k - 1, x, j - 1);
      AtStep(s, open, k);
      AtStep(x, 0, j);
    }
    NoCloseBefore(s, open, k);
    assert k < end ==> !CloseHit(s, open, k);
  }

  lemma NoCloseBefore(s: string, open: nat, k: nat)
    requires open < |s| && s[open] == '(' && MatchingParen(s, open) != -1 && open < k
    ensures k < MatchingParen(s, open) ==> !CloseHit(s, open, k)
  {
  }

  lemma InnerBalanced(s: string, open: nat)
    requires open < |s| && s[open] == '(' && MatchingParen(s, open) != -1
    ensures Balanced(s[open + 1..MatchingParen(s, open)])
  {
    hide At;
    var end := MatchingParen(s, open);
    var x := s[open + 1..end];
    InsideAt(s, open, |x|);
    assert CloseHit(s, open, end);
    forall q | 0 <= q < |x| ensures !(At(x, 0, q) == TOP && x[q] == ')') {
      InsideAt(s, open, q);
    }
  }

  // ---- the new list is balanced ----

  lemma {:induction false} ItemsBalanced(v: string)
    requires Balanced(v) && CommentsEnd(SplitList(v))
    ensures forall x | x in SplitList(v) :: Balanced(x)
    decreases |v|
  {
    hide Trim, EndsInCode, At;
    var c := FirstComma(v, 0);
    AtStart(v, 0);
    if c == -1 {
      if Trim(v) != "" {
        assert Trim(v) in SplitList(v);
        TrimBalanced(v);
      }
    } else {
      SplitStep(v, c);
      var rest := SplitList(v[c + 1..]);
      assert SplitList(v)[0] in SplitList(v);
      assert forall x | x in rest :: x in SplitList(v);
      AfterComma(v, c);
      BalancedPart(v, 0, c);
      assert v[0..c] == v[..c];
      TrimBalanced(v[..c]);
      BalancedPart(v, c + 1, |v|);
      assert v[c + 1..|v|] == v[c + 1..];
      ItemsBalanced(v[c + 1..]);
    }
  }

  lemma TrimBalanced(x: string)
    requires Balanced(x) && EndsInCode(Trim(x))
    ensures Balanced(Trim(x))
  {
    hide Trim, EndsInCode, At;
    var lead := TrimmedEnd(x);
    BalancedPart(x, lead, lead + |Trim(x)|);
  }

  lemma PlainBalanced(x: string)
    requires PlainRun(x, 0, |x|)
    ensures Balanced(x)
  {
    PlainInert(x);
    InertBalanced(x);
  }

  lemma ParenBalanced(x: string)
    requires Balanced(x)
    ensures Balanced("(" + x + ")")
  {
    hide At;
    var s := "(" + x + ")";
    AtStart(s, 0);
    ParenMatches(s, 0, x);
    MatchRestoresDepth(s, 0, 0);
    forall q | 0 <= q < |s| ensures !(At(s, 0, q) == TOP && s[q] == ')') {
      if q > 0 {
        InParen(s, 0, x, q - 1);
      }
    }
  }

  lemma SerializeBalanced(ref: string, alias: string)
    requires Inert(ref) && ref != "" && ref[|ref| - 1] == '"' && ref[0] !in "-*'" && TokenText(alias)
    ensures Balanced(SerializeExpression(ref, alias))
  {
    hide Inert, TokenText, Balanced, SerializeExpression;
    var inside := "CONTENT " + ref + " AS CLOB";
    SerializeInside(ref);
    InertBalanced(inside);
    ParenBalanced(inside);
    PlainBalanced("XMLSERIALIZE");
    PlainBalanced(" AS ");
    TokenTextShape(alias);
    InertBalanced(alias);
    BalancedConcat(" AS ", alias);
    var paren := "(" + inside + ")";
    BalancedConcat(paren, " AS " + alias);
    BalancedConcat("XMLSERIALIZE", paren + (" AS " + alias));
    SerializeText(ref, alias);
  }

  lemma ColumnBalanced(column: Column, columns: seq<Column>, ref: TableRef)
    requires ref.aliasText == "" || TokenText(ref.aliasText)
    ensures Balanced(SelectColumn(column, columns, ref))
  {
    hide TokenText, SerializeExpression, ColumnRef, Balanced, Inert, XmlColumn;
    QuoteIsToken(column.name);
    RefInert(ref.aliasText, column.name);
    InertBalanced(ColumnRef(ref.aliasText, column.name));
    SerializeBalanced(ColumnRef(ref.aliasText, column.name), QuoteIdentifier(column.name));
  }

  lemma NewItemBalanced(item: string, columns: seq<Column>, ref: TableRef)
    requires ItemOk(item) && PlainSpaces(item) && Balanced(item) && (ref.aliasText == "" || TokenText(ref.aliasText))
    ensures forall x | x in RewriteItem(item, columns, ref) :: Balanced(x)
  {
    hide TokenText, ItemOk, ParseStar, ParseColumn, SerializeExpression, QualifierMatches, SelectColumn, Balanced,
      PlainSpaces, ColumnRef, Inert, XmlColumn;
    if IsMatchingStar(item, ref) {
      var r := ExpandStar(columns, columns, ref);
      forall x | x in r ensures Balanced(x) {
        var i :| 0 <= i < |r| && x == r[i];
        ColumnBalanced(columns[i], columns, ref);
      }
    } else if IsBareXmlColumn(item, columns, ref) {
      var c := ParseColumn(item).value;
      var name := XmlColumn(columns, Key(c.column.name)).value.name;
      ColumnItemTokens(item);
      QuoteIsToken(name);
      RefInert(c.qualifier, name);
      SerializeBalanced(ColumnRef(c.qualifier, name), if c.alias == "" then QuoteIdentifier(name) else c.alias);
    }
  }

  lemma {:induction false} NewItemsBalanced(items: seq<string>, columns: seq<Column>, ref: TableRef)
    requires forall x | x in items :: ItemOk(x) && PlainSpaces(x) && Balanced(x)
    requires ref.aliasText == "" || TokenText(ref.aliasText)
    ensures forall x | x in RewriteItems(items, columns, ref) :: Balanced(x)
  {
    hide TokenText, ItemOk, PlainSpaces, RewriteItem, Balanced;
    if items != [] {
      assert items[0] in items;
      NewItemBalanced(items[0], columns, ref);
      NewItemsBalanced(items[1..], columns, ref);
    }
  }

  lemma {:induction false} ListTextBalanced(items: seq<string>)
    requires items != [] && forall x | x in items :: Balanced(x)
    ensures Balanced(ListText(items))
    decreases |items|
  {
    hide Balanced;
    var x := items[0];
    assert x in items;
    if |items| == 1 {
      PlainBalanced(" ");
      BalancedConcat(x, " ");
    } else {
      var rest := ListText(items[1..]);
      ListTextBalanced(items[1..]);
      CommaSpaceBalanced();
      BalancedConcat(", ", rest);
      BalancedConcat(x, ", " + rest);
      assert ListText(items) == x + (", " + rest);
    }
  }

  lemma CommaSpaceBalanced()
    ensures Balanced(", ")
  {
    CommaSpaceOk();
  }

  // ---- a rewritten statement is balanced ----

  /** White space and comments before SELECT leave the lexer where it was. */
  lemma {:induction false} LeadTop(s: string, i: nat)
    requires i <= |s| && At(s, 0, i) == TOP
    ensures LeadEnd(s, i) < |s| ==> At(s, 0, LeadEnd(s, i)) == TOP
    decreases |s| - i
  {
    hide At, AfterComment;
    var j := SkipWhite(s, i);
    PlainKeeps(s, 0, i, j);
    if AfterComment(s, i).Some? {
      var next := AfterComment(s, i).value;
      CommentTop(s, i);
      if next < |s| {
        LeadTop(s, next);
      } else {
        LeadEndAtEnd(s);
      }
    } else {
      NoCommentLead(s, i);
    }
  }

  lemma NoCommentLead(s: string, i: nat)
    requires i <= |s| && AfterComment(s, i) == None
    ensures LeadEnd(s, i) == SkipWhite(s, i)
  {
  }

  lemma LeadEndAtEnd(s: string)
    ensures LeadEnd(s, |s|) == |s|
  {
  }

  lemma CommentTop(s: string, i: nat)
    requires i <= |s| && At(s, 0, SkipWhite(s, i)) == TOP && AfterComment(s, i).Some?
    ensures AfterComment(s, i).value < |s| ==> At(s, 0, AfterComment(s, i).value) == TOP
  {
    hide At, SkipWhite;
    var j := SkipWhite(s, i);
    if StartsLineComment(s, j) {
      var e := IndexLineEnd(s, j);
      if e != -1 {
        LineTop(s, j, e);
      }
    } else {
      var c := IndexBlockClose(s, j + 2);
      if c != -1 {
        BlockTop(s, j, c);
      }
    }
  }

  lemma {:induction false} LineEndFirst(s: string, i: nat)
    ensures forall k | i <= k < (if IndexLineEnd(s, i) == -1 then |s| else IndexLineEnd(s, i)) ::
        s[k] != '\n' && s[k] != '\r'
    decreases |s| - i
  {
    if i < |s| {
      LineEndFirst(s, i + 1);
    }
  }

  lemma {:induction false} InLine(s: string, i: nat, k: nat)
    requires i < k <= |s| && At(s, 0, i) == TOP && StartsLineComment(s, i)
    requires forall j | i <= j < k :: s[j] != '\n' && s[j] != '\r'
    ensures At(s, 0, k) == Scan(Line, 0)
    decreases k
  {
    if k > i + 1 {
      InLine(s, i, k - 1);
    }
  }

  lemma LineTop(s: string, j: nat, e: nat)
    requires j < |s| && At(s, 0, j) == TOP && StartsLineComment(s, j) && IndexLineEnd(s, j) == e
    ensures e < |s| && At(s, 0, e + 1) == TOP
  {
    LineEndFirst(s, j);
    InLine(s, j, e);
  }

  lemma {:induction false} InBlock(s: string, from: nat, p: nat)
    requires from <= p <= |s| && At(s, 0, from) == Scan(Block, 0)
    requires var c := IndexBlockClose(s, from); c != -1 && p <= c
    ensures At(s, 0, p) == Scan(Block, 0)
    decreases p - from
  {
    if p > from {
      assert At(s, 0, from + 1) == Scan(Block, 0);
      InBlock(s, from + 1, p);
    }
  }

  lemma BlockTop(s: string, j: nat, c: nat)
    requires j < |s| && At(s, 0, j) == TOP && StartsBlockComment(s, j) && IndexBlockClose(s, j + 2) == c
    ensures c + 2 <= |s| && At(s, 0, c + 2) == TOP
  {
    assert At(s, 0, j + 1) == Scan(BlockOpen, 0);
    assert At(s, 0, j + 2) == Scan(Block, 0);
    InBlock(s, j + 2, c);
    assert At(s, 0, c + 1) == Scan(BlockClose, 0);
  }

  lemma SelectLetters(s: string, k: nat)
    requires SelectAt(s, k)
    ensures k + 6 <= |s| && forall i | k <= i < k + 6 :: IsLetter(s[i])
  {
    var w := s[k..k + 6];
    forall i | k <= i < k + 6 ensures IsLetter(s[i]) {
      assert s[i] == w[i - k];
      assert Upper(w)[i - k] == UpperChar(w[i - k]);
      assert Upper("select")[i - k] == UpperChar("select"[i - k]);
    }
  }

  /** In a statement that was read, the list starts and ends in code, outside parentheses. */
  lemma ListTop(s: string, p: Parts)
    requires Bounds(s, p) && Readable(s, p)
    ensures At(s, 0, p.listAt) == TOP && At(s, 0, p.fromAt) == TOP
    ensures p.listAt > 0 && (IsLetter(s[p.listAt - 1]) || IsSQLSpace(s[p.listAt - 1]))
  {
    hide Readable, ListPrefix, ParseTableRef, LeadEnd, SelectAt, KeywordHit, At, SpacesAreSQL;
    ReadableFacts(s, p);
    var k := LeadEnd(s, 0);
    SelectLetters(s, k);
    AtStart(s, 0);
    LeadTop(s, 0);
    PlainKeeps(s, 0, k, k + 6);
    PrefixKeepsTop(s, p);
    FromIsTop(s, p.listStart, p.fromAt);
    Restart(s, 0, p.listStart, p.listAt);
    Restart(s, 0, p.listStart, p.fromAt);
    BeforeList(s, p);
    assert p.listAt > p.listStart ==> PrefixChar(s[p.listAt - 1]);
  }

  lemma WithListBalanced(s: string, p: Parts, items: seq<string>)
    requires Bounds(s, p) && Readable(s, p) && Balanced(s) && Balanced(ListText(items))
    ensures Balanced(WithList(s, p, items))
  {
    hide Readable, At, Balanced, Closed, NoClose;
    ListTop(s, p);
    AtStart(s, 0);
    ClosedEnd(s);
    var pre, text, rest := s[..p.listAt], ListText(items), s[p.fromAt..];
    BalancedPart(s, 0, p.listAt);
    assert s[0..p.listAt] == pre;
    BalancedPart(s, p.fromAt, |s|);
    assert s[p.fromAt..|s|] == rest;
    assert text[|text| - 1] == ' ';
    BalancedConcat(text, rest);
    BalancedConcat(pre, text + rest);
    WithListIs(s, p, items);
  }

  lemma ClosedEnd(s: string)
    requires Balanced(s)
    ensures At(s, 0, |s|) == TOP
  {
  }

  /** The statement is one whose rewrite reads back. */
  ghost predicate Fine(x: string) { ParseSelect(x).Some? && Rewritable(x, ParseSelect(x).value) }

  lemma DirectBalanced(x: string, load: Loader)
    requires Fine(x) && Balanced(x) && RewriteDirect(x, load).Ok? && RewriteDirect(x, load).value.changed
    ensures Balanced(RewriteDirect(x, load).value.text)
  {
    var p := ParseSelect(x).value;
    hide Rewritable, ParseSelect, SplitList, RewriteItems, NewItems, Readable, AliasUsable, CommentsEnd, Balanced,
      ItemOk, PlainSpaces, TokenText, ListText, WithList;
    RewritableFacts(x, p);
    ListOfIs(x, p);
    var columns := NewItemsColumns(ListOf(x, p), p.ref, load);
    var olds := SplitList(ListOf(x, p));
    ListItemsReady(x, p);
    ListTop(x, p);
    BalancedPart(x, p.listAt, p.fromAt);
    ItemsBalanced(ListOf(x, p));
    NewItemsBalanced(olds, columns, p.ref);
    NewListGood(x, p, columns);
    ListTextBalanced(RewriteItems(olds, columns, p.ref));
    WithListBalanced(x, p, RewriteItems(olds, columns, p.ref));
  }

  // ---- the edited statements in the output ----

  /** The edited statement fills a place of the output. */
  ghost predicate Found(s: string, t: string, e: Edit) {
    e.at <= e.lo <= e.hi <= e.until <= |s| && exists at: nat, until: nat :: FoundAt(s, t, e, at, until)
  }

  ghost predicate FoundAt(s: string, t: string, e: Edit, at: nat, until: nat) {
    && e.at <= e.lo <= e.hi <= e.until <= |s|
    && Place(t, at, until) && at <= until <= |t| && t[at..until] == Edited(s, e)
  }

  ghost predicate AllFine(s: string, edits: seq<Edit>) {
    forall e | e in edits :: e.at <= e.until <= |s| && Fine(s[e.at..e.until])
  }

  ghost predicate AllFound(s: string, t: string, edits: seq<Edit>) { forall e | e in edits :: Found(s, t, e) }

  /** The edits lie behind the position they were looked for from. */
  lemma NestedAfter(s: string, load: Loader, depth: nat, pos: nat)
    requires pos < |s| && NestedEdits(s, load, depth, pos).Ok? && NestedEdits(s, load, depth, pos).value.Some?
    ensures Ordered(NestedEdits(s, load, depth, pos).value.value, pos + 1, |s|)
  {
    hide SelectEdits, At, MatchingParen, GoodEdits;
    if At(s, 0, pos).mode != Code || s[pos] != '(' {
      NestedAreSelectLists(s, load, depth, pos + 1);
      GoodAreOrdered(s, load, NestedEdits(s, load, depth, pos + 1).value.value, pos + 1);
    } else {
      var end := MatchingParen(s, pos);
      var edits := InnerEdits(s, load, depth, pos, end).value;
      var rest := NestedEdits(s, load, depth, end + 1).value.value;
      InnerAreSelectLists(s, load, depth, pos, end);
      GoodAreOrdered(s[pos + 1..end], load, edits, 0);
      NestedAreSelectLists(s, load, depth, end + 1);
      GoodAreOrdered(s, load, rest, end + 1);
      WidenOrdered(rest, end + 1, end, |s|);
      OrderedShifted(edits, 0, end - pos - 1, pos + 1, pos + 1);
      OrderedConcat(Shifted(edits, pos + 1), rest, pos + 1, end, |s|);
    }
  }

  lemma GoodAreOrdered(s: string, load: Loader, edits: seq<Edit>, from: nat)
    requires GoodEdits(s, load, edits, from)
    ensures Ordered(edits, from, |s|)
  {
  }

  lemma FoundInside(s: string, open: nat, x: string, f: Edit, t: string, start: nat, y: string)
    requires open + 1 + |x| <= |s| && s[open + 1..open + 1 + |x|] == x && Found(x, y, f)
    requires start < |t| && t[start] == '(' && At(t, 0, start).mode == Code && MatchingParen(t, start) != -1
    requires t[start + 1..MatchingParen(t, start)] == y
    ensures Found(s, t, ShiftedEdit(f, open + 1))
  {
    hide At, MatchingParen, Place, Edited;
    var at: nat, until: nat :| FoundAt(x, y, f, at, until);
    PlaceInside(t, start, at, until);
    SliceOfSlice(t, start + 1, MatchingParen(t, start), at, until);
    EditedInside(s, open, x, f);
    assert FoundAt(s, t, ShiftedEdit(f, open + 1), start + 1 + at, start + 1 + until);
  }

  lemma EditedInside(s: string, open: nat, x: string, f: Edit)
    requires open + 1 + |x| <= |s| && s[open + 1..open + 1 + |x|] == x && f.at <= f.lo <= f.hi <= f.until <= |x|
    ensures Edited(s, ShiftedEdit(f, open + 1)) == Edited(x, f)
  {
    SliceOfSlice(s, open + 1, open + 1 + |x|, f.at, f.lo);
    SliceOfSlice(s, open + 1, open + 1 + |x|, f.hi, f.until);
  }

  lemma AllFoundInside(s: string, open: nat, x: string, edits: seq<Edit>, t: string, start: nat, y: string)
    requires open + 1 + |x| <= |s| && s[open + 1..open + 1 + |x|] == x && AllFound(x, y, edits)
    requires start < |t| && t[start] == '(' && At(t, 0, start).mode == Code && MatchingParen(t, start) != -1
    requires t[start + 1..MatchingParen(t, start)] == y
    ensures AllFound(s, t, Shifted(edits, open + 1))
  {
    hide At, MatchingParen, Found;
    forall e | e in Shifted(edits, open + 1) ensures Found(s, t, e) {
      var i :| 0 <= i < |edits| && Shifted(edits, open + 1)[i] == e;
      assert edits[i] in edits;
      FoundInside(s, open, x, edits[i], t, start, y);
    }
  }

  lemma AllFoundConcat(s: string, t: string, a: seq<Edit>, b: seq<Edit>)
    requires AllFound(s, t, a) && AllFound(s, t, b)
    ensures AllFound(s, t, a + b)
  {
    hide Found;
  }

  lemma FineInside(s: string, open: nat, x: string, edits: seq<Edit>)
    requires open + 1 + |x| <= |s| && s[open + 1..open + 1 + |x|] == x
    requires AllFine(s, Shifted(edits, open + 1)) && forall f | f in edits :: f.at <= f.until <= |x|
    ensures AllFine(x, edits)
  {
    hide Fine;
    forall f | f in edits ensures f.at <= f.until <= |x| && Fine(x[f.at..f.until]) {
      var i :| 0 <= i < |edits| && edits[i] == f;
      var e := Shifted(edits, open + 1)[i];
      assert e in Shifted(edits, open + 1);
      SliceOfSlice(s, open + 1, open + 1 + |x|, f.at, f.until);
      assert Fine(s[e.at..e.until]);
    }
  }

  /** One character that is no opening parenthesis in code. */
  lemma StepBoth(s: string, pos: nat, t: string, at: nat)
    requires pos < |s| && at < |t| && s[pos] == t[at] && At(t, 0, at) == At(s, 0, pos)
    requires if pos + 1 < |s| then at + 1 < |t| && t[at + 1] == s[pos + 1] else at + 1 == |t|
    ensures At(t, 0, at + 1) == At(s, 0, pos + 1)
  {
  }

  /** What the loop over parentheses leaves in the output: scanned as the input was, and every edited
      statement is in its parenthesis. */
  lemma {:induction false} NestedKeeps(s: string, load: Loader, depth: nat, pos: nat, t: string, at: nat)
    requires pos <= |s| && NestedEdits(s, load, depth, pos).Ok? && NestedEdits(s, load, depth, pos).value.Some?
    requires AllFine(s, NestedEdits(s, load, depth, pos).value.value)
    requires Ordered(NestedEdits(s, load, depth, pos).value.value, pos, |s|)
    requires at <= |t| && At(t, 0, at) == At(s, 0, pos)
    requires t[at..] == Apply(s, pos, NestedEdits(s, load, depth, pos).value.value)
    ensures AllFound(s, t, NestedEdits(s, load, depth, pos).value.value)
    ensures At(t, 0, |t|) == At(s, 0, |s|) && (NoClose(s, pos) ==> NoClose(t, at))
    decreases |s|, |s| - pos
  {
    hide At, SelectEdits, MatchingParen, AllFound, AllFine, Apply, NoClose;
    if pos == |s| {
      NothingLeft(s, t, at);
      NoneFound(s, t);
    } else if At(s, 0, pos).mode != Code || s[pos] != '(' {
      var edits := NestedEdits(s, load, depth, pos + 1).value.value;
      CopyOne(s, load, depth, pos, t, at);
      NestedKeeps(s, load, depth, pos + 1, t, at + 1);
      NoCloseStep(s, pos, t, at);
    } else {
      var end := MatchingParen(s, pos);
      var x := s[pos + 1..end];
      var inner := InnerEdits(s, load, depth, pos, end).value;
      var rest := NestedEdits(s, load, depth, end + 1).value.value;
      ParenPieces(s, load, depth, pos, t, at);
      var y := Apply(x, 0, inner);
      InnerBalanced(s, pos);
      MatchIsClose(s, pos);
      SplitFine(s, load, depth, pos);
      if SelectAfterComments(x) {
        SelectKeeps(x, load, depth + 1);
      } else {
        NothingEdited(x);
        NoneFound(x, x);
      }
      ParenMatches(t, at, y);
      MatchRestoresDepth(s, 0, pos);
      MatchRestoresDepth(t, 0, at);
      NestedKeeps(s, load, depth, end + 1, t, at + |y| + 2);
      AllFoundInside(s, pos, x, inner, t, at, y);
      AllFoundConcat(s, t, Shifted(inner, pos + 1), rest);
      NoCloseSkip(s, pos, t, at);
    }
  }

  lemma NothingLeft(s: string, t: string, at: nat)
    requires at <= |t| && t[at..] == Apply(s, |s|, [])
    ensures at == |t| && NoClose(t, at)
  {
  }

  lemma NothingEdited(x: string)
    ensures Apply(x, 0, []) == x
  {
  }

  lemma MatchIsClose(s: string, open: nat)
    requires open < |s| && s[open] == '(' && MatchingParen(s, open) != -1
    ensures s[MatchingParen(s, open)] == ')'
  {
  }

  lemma NoCloseStep(s: string, pos: nat, t: string, at: nat)
    requires pos < |s| && at < |t| && s[pos] == t[at] && At(t, 0, at) == At(s, 0, pos)
    requires NoClose(s, pos + 1) ==> NoClose(t, at + 1)
    ensures NoClose(s, pos) ==> NoClose(t, at)
  {
    hide At;
  }

  lemma NoCloseSkip(s: string, pos: nat, t: string, at: nat)
    requires pos < |s| && s[pos] == '(' && MatchingParen(s, pos) != -1
    requires at < |t| && t[at] == '(' && At(t, 0, at).mode == Code && MatchingParen(t, at) != -1
    requires NoClose(s, MatchingParen(s, pos) + 1) ==> NoClose(t, MatchingParen(t, at) + 1)
    ensures NoClose(s, pos) ==> NoClose(t, at)
  {
    hide At, MatchingParen;
    forall q | at <= q <= MatchingParen(t, at) ensures !(At(t, 0, q) == TOP && t[q] == ')') {
      if q > at {
        NestedDepth(t, 0, at, q);
      }
    }
  }

  lemma CopyOne(s: string, load: Loader, depth: nat, pos: nat, t: string, at: nat)
    requires pos < |s| && NestedEdits(s, load, depth, pos).Ok? && NestedEdits(s, load, depth, pos).value.Some?
    requires At(s, 0, pos).mode != Code || s[pos] != '('
    requires Ordered(NestedEdits(s, load, depth, pos).value.value, pos, |s|)
    requires at <= |t| && At(t, 0, at) == At(s, 0, pos)
    requires t[at..] == Apply(s, pos, NestedEdits(s, load, depth, pos).value.value)
    ensures at < |t| && t[at] == s[pos] && At(t, 0, at + 1) == At(s, 0, pos + 1)
    ensures NestedEdits(s, load, depth, pos + 1) == NestedEdits(s, load, depth, pos)
    ensures Ordered(NestedEdits(s, load, depth, pos + 1).value.value, pos + 1, |s|)
    ensures t[at + 1..] == Apply(s, pos + 1, NestedEdits(s, load, depth, pos + 1).value.value)
  {
    hide At, SelectEdits, MatchingParen, Apply, InnerEdits;
    var edits := NestedEdits(s, load, depth, pos + 1).value.value;
    NestedAfter(s, load, depth, pos);
    ApplyFrom(s, pos, pos + 1, edits);
    assert t[at] == t[at..][0] == s[pos];
    assert t[at + 1..] == t[at..][1..];
    if pos + 1 < |s| {
      NestedAfter(s, load, depth, pos + 1);
      ApplyFrom(s, pos + 1, pos + 2, edits);
      assert t[at + 1] == t[at + 1..][0] == s[pos + 1];
    } else {
      NothingLeft(s, t, at + 1);
    }
    StepBoth(s, pos, t, at);
  }

  /** The output at a parenthesis: the parenthesis, what became of its inside, and the rest. */
  lemma ParenPieces(s: string, load: Loader, depth: nat, pos: nat, t: string, at: nat)
    requires pos < |s| && NestedEdits(s, load, depth, pos).Ok? && NestedEdits(s, load, depth, pos).value.Some?
    requires At(s, 0, pos).mode == Code && s[pos] == '('
    requires Ordered(NestedEdits(s, load, depth, pos).value.value, pos, |s|)
    requires at <= |t| && t[at..] == Apply(s, pos, NestedEdits(s, load, depth, pos).value.value)
    ensures var end := MatchingParen(s, pos); end != -1
    ensures var end := MatchingParen(s, pos);
      var inner := InnerEdits(s, load, depth, pos, end).value;
      var rest := NestedEdits(s, load, depth, end + 1).value.value;
      var x := s[pos + 1..end];
      && Ordered(inner, 0, |x|) && Ordered(rest, end + 1, |s|)
      && (var y := Apply(x, 0, inner);
          && at + |y| + 2 <= |t| && t[at] == '(' && t[at + 1..at + 1 + |y|] == y && t[at + 1 + |y|] == s[end]
          && t[at + |y| + 2..] == Apply(s, end + 1, rest))
  {
    hide At, SelectEdits, MatchingParen, Apply, GoodEdits, InnerEdits;
    var end := MatchingParen(s, pos);
    var inner := InnerEdits(s, load, depth, pos, end).value;
    var rest := NestedEdits(s, load, depth, end + 1).value.value;
    var x := s[pos + 1..end];
    InnerAreSelectLists(s, load, depth, pos, end);
    GoodAreOrdered(x, load, inner, 0);
    NestedAreSelectLists(s, load, depth, end + 1);
    GoodAreOrdered(s, load, rest, end + 1);
    WidenOrdered(rest, end + 1, end, |s|);
    ApplyInner(s, pos, pos, end, inner, 0, rest);
    ApplyFrom(s, end, end + 1, rest);
    var y := Apply(x, 0, inner);
    ThreePieces(t, at, s[pos..pos + 1], y, s[end..end + 1], Apply(s, end + 1, rest));
  }

  lemma ThreePieces(t: string, at: nat, open: string, y: string, close: string, rest: string)
    requires at <= |t| && |open| == 1 && |close| == 1 && t[at..] == open + y + (close + rest)
    ensures at + |y| + 2 <= |t| && t[at] == open[0] && t[at + 1..at + 1 + |y|] == y && t[at + 1 + |y|] == close[0]
    ensures t[at + |y| + 2..] == rest
  {
    var u := t[at..];
    assert u[0] == open[0] && u[1..1 + |y|] == y && u[1 + |y|] == close[0] && u[|y| + 2..] == rest;
    assert t[at + 1..at + 1 + |y|] == u[1..1 + |y|] && t[at + |y| + 2..] == u[|y| + 2..];
  }

  lemma SplitFine(s: string, load: Loader, depth: nat, pos: nat)
    requires pos < |s| && NestedEdits(s, load, depth, pos).Ok? && NestedEdits(s, load, depth, pos).value.Some?
    requires At(s, 0, pos).mode == Code && s[pos] == '(' && AllFine(s, NestedEdits(s, load, depth, pos).value.value)
    ensures MatchingParen(s, pos) != -1
    ensures var end := MatchingParen(s, pos);
      AllFine(s[pos + 1..end], InnerEdits(s, load, depth, pos, end).value)
      && AllFine(s, NestedEdits(s, load, depth, end + 1).value.value)
  {
    hide At, SelectEdits, MatchingParen, Fine, ReplacesSelectList, InnerEdits;
    var end := MatchingParen(s, pos);
    var inner := InnerEdits(s, load, depth, pos, end).value;
    var rest := NestedEdits(s, load, depth, end + 1).value.value;
    var x := s[pos + 1..end];
    var all := Shifted(inner, pos + 1) + rest;
    assert forall e | e in Shifted(inner, pos + 1) :: e in all;
    assert forall e | e in rest :: e in all;
    InnerAreSelectLists(s, load, depth, pos, end);
    forall f | f in inner ensures f.at <= f.until <= |x| {
      ReplacesBounds(x, load, f);
    }
    FineInside(s, pos, x, inner);
  }

  lemma ReplacesBounds(s: string, load: Loader, e: Edit)
    requires ReplacesSelectList(s, load, e)
    ensures e.at <= e.lo <= e.hi <= e.until <= |s|
  {
    hide ParseSelect, RewriteDirect, At, MatchingParen;
  }

  /** The nested rewrite of a whole text whose edited statements all read back: in the output every edited
      statement is again the whole text or what a parenthesis in code encloses, and the output can stand
      wherever the text could. */
  lemma {:induction false} SelectKeeps(s: string, load: Loader, depth: nat)
    requires SelectEdits(s, load, depth).Ok? && AllFine(s, SelectEdits(s, load, depth).value)
    ensures Ordered(SelectEdits(s, load, depth).value, 0, |s|)
    ensures AllFound(s, Apply(s, 0, SelectEdits(s, load, depth).value), SelectEdits(s, load, depth).value)
    ensures Balanced(s) ==> Balanced(Apply(s, 0, SelectEdits(s, load, depth).value))
    decreases |s|, |s| + 1
  {
    hide RewriteDirect, DirectEdit, At, Apply, AllFine, Balanced, AllFound;
    NothingEdited(s);
    NoneFound(s, s);
    if depth <= MAX_DEPTH {
      var direct := RewriteDirect(s, load).value;
      if direct.handled {
        if direct.changed {
          DirectKeeps(s, load);
        }
      } else if NestedEdits(s, load, depth, 0).value.Some? {
        var edits := NestedEdits(s, load, depth, 0).value.value;
        NestedAreSelectLists(s, load, depth, 0);
        GoodAreOrdered(s, load, edits, 0);
        var t := Apply(s, 0, edits);
        AtStart(s, 0);
        AtStart(t, 0);
        assert t[0..] == t;
        NestedKeeps(s, load, depth, 0, t, 0);
        BalancedIs(s);
        BalancedIs(t);
      }
    }
  }

  lemma BalancedIs(s: string)
    ensures Balanced(s) <==> At(s, 0, |s|) == TOP && NoClose(s, 0)
  {
  }

  lemma NoneFound(s: string, t: string)
    ensures AllFound(s, t, []) && Ordered([], 0, |s|)
  {
  }

  lemma DirectKeeps(s: string, load: Loader)
    requires RewriteDirect(s, load).Ok? && RewriteDirect(s, load).value.changed && AllFine(s, DirectEdit(s, load))
    ensures Ordered(DirectEdit(s, load), 0, |s|)
    ensures AllFound(s, Apply(s, 0, DirectEdit(s, load)), DirectEdit(s, load))
    ensures Balanced(s) ==> Balanced(Apply(s, 0, DirectEdit(s, load)))
  {
    hide ParseSelect, NewItems, Balanced, Fine, RewriteDirect, Apply, DirectEdit;
    DirectEditIs(s, load);
    var t := Apply(s, 0, DirectEdit(s, load));
    var e := DirectEdit(s, load)[0];
    assert e in DirectEdit(s, load);
    WholePlace(s, load, e);
    assert s[0..|s|] == s && t[0..|t|] == t;
    forall f | f in DirectEdit(s, load) ensures Found(s, t, f) {
      assert f == e;
      assert FoundAt(s, t, e, 0, |t|);
    }
    if Balanced(s) {
      DirectBalanced(s, load);
    }
  }

  lemma WholePlace(s: string, load: Loader, e: Edit)
    requires RewriteDirect(s, load).Ok? && RewriteDirect(s, load).value.changed && DirectEdit(s, load) == [e]
    requires ReplacesSelectList(s, load, e)
    ensures e.at == 0 && e.until == |s| && e.lo <= e.hi <= |s| && Edited(s, e) == RewriteDirect(s, load).value.text
  {
    hide ParseSelect, NewItems;
    assert s[0..|s|] == s;
  }

  /** In the output of the nested rewrite there is, for every statement that it edited, a parenthesis in code
      (or the whole text) whose inside yields, read again by the same reader, the expected cells of that
      statement, and is left as it is by another rewrite. */
  lemma OutputMeaning<V>(r: Result<Rewrite>, s: string, load: Loader, depth: nat, e: Edit, columns: seq<Column>,
      w: World<V>)
    returns (at: nat, until: nat)
    requires SelectEdits(s, load, depth).Ok? && IsEditOf(r, s, SelectEdits(s, load, depth))
    requires AllFine(s, SelectEdits(s, load, depth).value) && e in SelectEdits(s, load, depth).value
    requires var x := s[e.at..e.until]; var p := ParseSelect(x).value;
      && load(p.ref.schema, p.ref.table) == Ok(columns) && DistinctNames(columns) && AliasNamesTable(p.ref)
      && p.listAt <= p.fromAt && !Touching(x, p, columns)
    ensures var t := r.value.text;
      && Place(t, at, until) && at <= until <= |t|
      && StatementCells(t[at..until], columns, w, false) == StatementCells(s[e.at..e.until], columns, w, true)
      && RewriteDirect(t[at..until], load) == Ok(Direct(t[at..until], false, true))
  {
    hide SelectEdits, Place, Rewritable, ParseSelect, Touching, DistinctNames, AliasNamesTable, StatementCells,
        Edited, Apply;
    SelectKeeps(s, load, depth);
    assert Found(s, r.value.text, e) && Fine(s[e.at..e.until]);
    at, until :| FoundAt(s, r.value.text, e, at, until);
    NestedMeaning(s, load, depth, e, ParseSelect(s[e.at..e.until]).value, columns, w);
  }

  // ---- nothing is left out ----

  /** The loop looks into every parenthesis that it meets outside the others. */
  lemma {:induction false} EveryParenIsVisited(s: string, load: Loader, depth: nat, pos: nat, open: nat)
    requires pos <= open < |s| && At(s, 0, pos).depth == 0 && At(s, 0, open) == TOP && s[open] == '('
    requires NestedEdits(s, load, depth, pos).Ok? && NestedEdits(s, load, depth, pos).value.Some?
    ensures MatchingParen(s, open) != -1 && InnerEdits(s, load, depth, open, MatchingParen(s, open)).Ok?
    ensures forall e | e in Shifted(InnerEdits(s, load, depth, open, MatchingParen(s, open)).value, open + 1) ::
        e in NestedEdits(s, load, depth, pos).value.value
    decreases |s|, |s| - pos
  {
    hide At, SelectEdits, MatchingParen, InnerEdits;
    if At(s, 0, pos).mode != Code || s[pos] != '(' {
      if pos < open {
        DepthStays(s, pos);
        EveryParenIsVisited(s, load, depth, pos + 1, open);
      }
    } else {
      var end := MatchingParen(s, pos);
      if pos < open {
        MatchRestoresDepth(s, 0, pos);
        NotInside(s, pos, open);
        EveryParenIsVisited(s, load, depth, end + 1, open);
      }
    }
  }

  lemma DepthStays(s: string, pos: nat)
    requires pos < |s| && At(s, 0, pos).depth == 0 && (At(s, 0, pos).mode != Code || s[pos] != '(')
    ensures At(s, 0, pos + 1).depth == 0
  {
  }

  lemma NotInside(s: string, pos: nat, open: nat)
    requires pos < open < |s| && s[pos] == '(' && At(s, 0, pos).mode == Code && MatchingParen(s, pos) != -1
    requires At(s, 0, open) == TOP
    ensures open > MatchingParen(s, pos)
  {
    hide At, MatchingParen;
    if open <= MatchingParen(s, pos) {
      NestedDepth(s, 0, pos, open);
    }
  }

  /** A SELECT in such a parenthesis that the direct rewrite changes is edited, down to eight levels. */
  lemma ParenIsEdited(s: string, load: Loader, depth: nat, open: nat) returns (e: Edit)
    requires open < |s| && At(s, 0, open) == TOP && s[open] == '(' && depth < 8
    requires NestedEdits(s, load, depth, 0).Ok? && NestedEdits(s, load, depth, 0).value.Some?
    requires MatchingParen(s, open) != -1
    requires var x := s[open + 1..MatchingParen(s, open)];
        RewriteDirect(x, load).Ok? && RewriteDirect(x, load).value.changed
    ensures e in NestedEdits(s, load, depth, 0).value.value
    ensures e.at == open + 1 && e.until == MatchingParen(s, open) && e.lo <= e.hi && e.at <= e.lo && e.hi <= e.until
    ensures Edited(s, e) == RewriteDirect(s[open + 1..MatchingParen(s, open)], load).value.text
  {
    hide At, MatchingParen, RewriteDirect, NestedEdits, DirectEdit;
    var end := MatchingParen(s, open);
    var x := s[open + 1..end];
    AtStart(s, 0);
    EveryParenIsVisited(s, load, depth, 0, open);
    ChangedIsSelect(x, load);
    DirectEditIs(x, load);
    var f := DirectEdit(x, load)[0];
    assert f in DirectEdit(x, load);
    WholePlace(x, load, f);
    e := ShiftedEdit(f, open + 1);
    assert Shifted([f], open + 1)[0] == e;
    assert e in Shifted(InnerEdits(s, load, depth, open, end).value, open + 1);
    EditedInside(s, open, x, f);
  }

  lemma ChangedIsSelect(x: string, load: Loader)
    requires RewriteDirect(x, load).Ok? && RewriteDirect(x, load).value.changed
    ensures SelectAfterComments(x) && RewriteDirect(x, load).value.handled
  {
    hide FindKeyword, ListPrefix, ParseTableRef, NewItems, StartsWithKeyword, TrimLeadingSQLComments;
  }

  /** The same for what is edited inside a SELECT that the direct rewrite does not handle. */
  lemma ParenEditsInside(s: string, load: Loader, depth: nat, open: nat, f: Edit)
    requires open < |s| && At(s, 0, open) == TOP && s[open] == '('
    requires NestedEdits(s, load, depth, 0).Ok? && NestedEdits(s, load, depth, 0).value.Some?
    requires MatchingParen(s, open) != -1
    requires var x := s[open + 1..MatchingParen(s, open)];
      LeadingSelectListStart(x) != -1 && SelectEdits(x, load, depth + 1).Ok?
          && f in SelectEdits(x, load, depth + 1).value
    ensures ShiftedEdit(f, open + 1) in NestedEdits(s, load, depth, 0).value.value
  {
    hide At, MatchingParen, SelectEdits, NestedEdits;
    var x := s[open + 1..MatchingParen(s, open)];
    AtStart(s, 0);
    EveryParenIsVisited(s, load, depth, 0, open);
    var edits := SelectEdits(x, load, depth + 1).value;
    var i :| 0 <= i < |edits| && edits[i] == f;
    assert Shifted(edits, open + 1)[i] == ShiftedEdit(f, open + 1);
  }

  /** Deeper than eight levels nothing is edited. */
  lemma DepthCap(s: string, load: Loader, depth: nat)
    ensures depth > 8 ==> SelectEdits(s, load, depth) == Ok([])
    ensures depth <= 8 && RewriteDirect(s, load).Err? ==>
        SelectEdits(s, load, depth) == Err(RewriteDirect(s, load).error)
    ensures depth <= 8 && RewriteDirect(s, load).Ok? && RewriteDirect(s, load).value.changed ==>
        SelectEdits(s, load, depth) == Ok(DirectEdit(s, load)) && |DirectEdit(s, load)| == 1
  {
    hide RewriteDirect, DirectEdit, NestedEdits;
    if RewriteDirect(s, load).Ok? && RewriteDirect(s, load).value.changed {
      DirectEditIs(s, load);
      ChangedIsSelect(s, load);
    }
  }
}
