/** Where the select list of a statement really is, and when the rewrite replaces just that. */
module OracleListBounds {
  import opened Text
  import opened SqlLexer
  import opened OracleTokens
  import opened OracleSelect
  import opened OracleSplice
  import opened OracleItems
  import opened OracleReparse
  import opened OracleRoundTrip

  // ---- the prefix of a list ----

  /** The length of the DISTINCT or ALL at the position. */
  function ModifierAt(list: string, i: nat): (r: nat)
    ensures i + r <= |list| || r == 0
  {
    if WordAt(list, i, "distinct") then 8 else if WordAt(list, i, "all") then 3 else 0
  }

  /** The length of the white space, the modifier and the white space after it. */
  function TruePrefix(list: string): (r: nat)
    ensures SkipSpace(list, 0) <= r <= |list|
  {
    var w := SkipSpace(list, 0);
    var m := ModifierAt(list, w);
    if m == 0 then w else SkipSpace(list, w + m)
  }

  /** What the driver takes for a modifier; it trims the text first. */
  predicate ReadsModifier(list: string, i: nat)
    requires i <= |list|
  {
    StartsWithKeyword(list[i..], "distinct") || StartsWithKeyword(list[i..], "all")
  }

  /** Reading the prefix `d` characters too late finds its end all the same: the offset is still in the
      white space before the modifier, or in the white space after it and no second modifier follows. */
  predicate FallsRight(list: string, d: nat) {
    var w := SkipSpace(list, 0);
    var m := ModifierAt(list, w);
    if d <= w then ReadsModifier(list, w) ==> m > 0
    else m > 0 && w + m <= d <= TruePrefix(list) && !ReadsModifier(list, TruePrefix(list))
  }

  lemma {:induction false} SkipSpaceFrom(list: string, i: nat, d: nat)
    requires i <= d <= SkipSpace(list, i) && i <= |list|
    ensures SkipSpace(list, d) == SkipSpace(list, i) && SkipSpace(list[d..], 0) == SkipSpace(list, i) - d
    decreases |list| - i
  {
    if i < d {
      SkipSpaceFrom(list, i + 1, d);
    } else {
      SkipSpaceShift(list, d, d);
    }
  }

  lemma {:induction false} SkipSpaceShift(list: string, d: nat, i: nat)
    requires d <= i <= |list|
    ensures SkipSpace(list[d..], i - d) == SkipSpace(list, i) - d
    decreases |list| - i
  {
    if i < |list| {
      SkipSpaceShift(list, d, i + 1);
    }
  }

  /** A modifier read moves the prefix on. */
  lemma PrefixMoves(list: string)
    ensures var w := SkipSpace(list, 0);
      ListPrefix(list) >= w && (ListPrefix(list) > w <==> ReadsModifier(list, w))
  {
    hide Trim;
    var w := SkipSpace(list, 0);
    if ReadsModifier(list, w) {
      ReadIsNotEmpty(list[w..]);
    }
  }

  lemma ReadIsNotEmpty(s: string)
    requires StartsWithKeyword(s, "distinct") || StartsWithKeyword(s, "all")
    ensures s != ""
  {
    TrimShort(s);
  }

  lemma ModifierIsRead(list: string)
    ensures var w := SkipSpace(list, 0);
      ModifierAt(list, w) > 0 ==> ReadsModifier(list, w) && ListPrefix(list) == TruePrefix(list) && !IsSpace(list[w])
    ensures SpacesAreSQL(list) ==> ListPrefix(list) == TruePrefix(list)
  {
    hide StartsWithKeyword, WordAt;
    var w := SkipSpace(list, 0);
    if ModifierAt(list, w) > 0 {
      WordChars(list, w, if WordAt(list, w, "distinct") then "distinct" else "all");
    }
    if w < |list| ==> !IsSpace(list[w]) {
      ListPrefixIs(list);
      StartsWithIs(list, w, "distinct");
      StartsWithIs(list, w, "all");
    }
  }

  /** In the middle of a modifier there is no modifier. */
  lemma InsideModifier(list: string, d: nat)
    requires var w := SkipSpace(list, 0); var m := ModifierAt(list, w); m > 0 && w < d < w + m
    ensures ListPrefix(list[d..]) == 0
  {
    hide StartsWithKeyword, WordAt;
    var w := SkipSpace(list, 0);
    var word := if WordAt(list, w, "distinct") then "distinct" else "all";
    WordChars(list, w, word);
    LettersInside(list, w, word, d);
    var rest := list[d..];
    assert rest[0] == list[d] && SkipSpace(rest, 0) == 0;
    ListPrefixIs(rest);
    FirstLetter(rest, "distinct");
    FirstLetter(rest, "all");
  }

  lemma LettersInside(list: string, w: nat, word: string, d: nat)
    requires WordAt(list, w, word) && (word == "distinct" || word == "all") && w < d < w + |word|
    ensures UpperChar(list[d]) != 'D' && UpperChar(list[d]) != 'A'
  {
    var x := list[w..w + |word|];
    assert list[d] == x[d - w] && Upper(x)[d - w] == UpperChar(x[d - w]);
    assert Upper(word)[d - w] == UpperChar(word[d - w]);
  }

  lemma FirstLetter(s: string, word: string)
    requires s != "" && word != "" && UpperChar(s[0]) != UpperChar(word[0])
    ensures !WordAt(s, 0, word)
  {
    assert |word| <= |s| ==> Upper(s[0..|word|])[0] == UpperChar(s[0]);
    assert Upper(word)[0] == UpperChar(word[0]);
  }

  lemma PrefixFallsRight(list: string, d: nat)
    requires d <= |list|
    ensures FallsRight(list, d) <==> d <= TruePrefix(list) && d + ListPrefix(list[d..]) == TruePrefix(list)
  {
    hide ReadsModifier, WordAt, ListPrefix;
    var w := SkipSpace(list, 0);
    var m := ModifierAt(list, w);
    if d <= w {
      BeforeModifier(list, d);
    } else if m > 0 && d < w + m {
      InsideModifier(list, d);
    } else if m > 0 && d <= TruePrefix(list) {
      BehindModifier(list, d);
    }
  }

  lemma BeforeModifier(list: string, d: nat)
    requires d <= SkipSpace(list, 0)
    ensures FallsRight(list, d) <==> d + ListPrefix(list[d..]) == TruePrefix(list)
  {
    hide StartsWithKeyword, ModifierAt, ListPrefix;
    var w, rest := SkipSpace(list, 0), list[d..];
    ModifierIsRead(list);
    PrefixMoves(rest);
    SkipSpaceFrom(list, 0, d);
    assert rest[w - d..] == list[w..];
    PrefixShift(list, rest, w, d);
  }

  lemma BehindModifier(list: string, d: nat)
    requires var w := SkipSpace(list, 0); var m := ModifierAt(list, w); m > 0 && w + m <= d <= TruePrefix(list)
    ensures FallsRight(list, d) <==> d + ListPrefix(list[d..]) == TruePrefix(list)
  {
    hide StartsWithKeyword, WordAt, ListPrefix;
    var w, n, rest := SkipSpace(list, 0), TruePrefix(list), list[d..];
    PrefixMoves(rest);
    SkipSpaceFrom(list, w + ModifierAt(list, w), d);
    assert rest[n - d..] == list[n..];
  }

  lemma ModifierPrefixShift(list: string, w: nat, d: nat, keyword: string)
    requires d <= w <= |list|
    ensures d + ModifierPrefix(list[d..], w - d, keyword) == ModifierPrefix(list, w, keyword)
  {
    if w + |keyword| <= |list| {
      SkipSpaceShift(list, d, w + |keyword|);
    }
  }

  lemma ListPrefixUnfold(list: string)
    ensures var w := SkipSpace(list, 0);
      ListPrefix(list) ==
        if StartsWithKeyword(list[w..], "distinct") then ModifierPrefix(list, w, "distinct")
        else if StartsWithKeyword(list[w..], "all") then ModifierPrefix(list, w, "all")
        else w
  {
    hide StartsWithKeyword, ModifierPrefix, SkipSpace;
  }

  lemma PrefixShift(list: string, rest: string, w: nat, d: nat)
    requires d <= w <= |list| && rest == list[d..] && SkipSpace(rest, 0) == w - d && SkipSpace(list, 0) == w
    ensures d + ListPrefix(rest) == ListPrefix(list)
  {
    hide StartsWithKeyword, ModifierPrefix, SkipSpace, ListPrefix;
    assert rest[w - d..] == list[w..];
    ModifierPrefixShift(list, w, d, "distinct");
    ModifierPrefixShift(list, w, d, "all");
    ListPrefixUnfold(list);
    ListPrefixUnfold(rest);
  }

  // ---- the list of a statement ----

  /** `[lo, hi)` in the text of a statement. */
  datatype Span = Span(lo: nat, hi: nat)

  /** Where the text behind SELECT starts, if the text is a SELECT. */
  function TrueStart(s: string): (r: Option<nat>)
    ensures r.Some? ==> r.value <= |s|
  {
    if SelectAt(s, LeadEnd(s, 0)) then Some(LeadEnd(s, 0) + 6) else None
  }

  /** The select list: behind SELECT and its modifier, up to the first FROM outside parentheses. */
  function TrueList(s: string): (r: Option<Span>)
    ensures r.Some? ==> r.value.lo <= r.value.hi <= |s|
  {
    match TrueStart(s)
    case None => None
    case Some(start) =>
      var end := FindKeyword(s, start, "from");
      if end < 0 then None else Some(Span(start + TruePrefix(s[start..end]), end))
  }

  /** How far off the driver starts to read. */
  function Excess(s: string): nat {
    TrimRightSplits(s);
    |s| - |TrimRight(s)|
  }

  /** The statement has a select list, and its trailing white space does not hide where the list starts. */
  predicate OffsetFallsRight(s: string) {
    && TrueList(s).Some?
    && FallsRight(s[TrueStart(s).value..TrueList(s).value.hi], Excess(s))
  }

  lemma StartIsOff(s: string)
    requires ParseSelect(s).Some?
    ensures TrueStart(s).Some? && ParseSelect(s).value.listStart == TrueStart(s).value + Excess(s)
  {
    hide TrimRight, SelectAt, LeadEnd, LeadingSelectListStart, FindKeyword, ListPrefix, ParseTableRef;
    var r := TrimRight(s);
    ListStartError(s);
    TrimRightSplits(s);
    var k := LeadEnd(r, 0);
    SelectBounds(r, k);
    LeadEndStable(r, s, 0, k);
    SelectStays(r, s, k);
  }

  lemma SelectBounds(s: string, k: nat)
    ensures SelectAt(s, k) ==> k + 6 <= |s|
  {
  }

  lemma SelectStays(r: string, s: string, k: nat)
    requires r <= s && SelectAt(r, k) && (|r| < |s| ==> IsSpace(s[|r|]))
    ensures SelectAt(s, k)
  {
    assert s[k..k + 6] == r[k..k + 6];
  }

  /** FROM is found from any offset that has only white space and a modifier before it. */
  lemma FromFromOffset(s: string, start: nat, end: nat, d: nat)
    requires start <= end <= |s| && FindKeyword(s, start, "from") == end && start + d <= end
    requires FallsRight(s[start..end], d)
    ensures FindKeyword(s, start + d, "from") == end
  {
    hide At, FallsRight, KeywordHit;
    var list := s[start..end];
    var late := start + d;
    SkippedIsPlain(list, d);
    PlainInList(s, start, end, late);
    AtStart(s, start);
    PlainKeeps(s, start, start, late);
    forall q | late <= q < |s| ensures KeywordHit(s, late, q, "from") == KeywordHit(s, start, q, "from") {
      HitRestarts(s, start, late, q);
    }
    assert KeywordHit(s, start, end, "from");
    FirstKeywordIs(s, late, late, end, "from");
  }

  lemma PlainInList(s: string, start: nat, end: nat, late: nat)
    requires start <= late <= end <= |s| && forall i | 0 <= i < late - start :: IsPlainChar(s[start..end][i])
    ensures PlainRun(s, start, late)
  {
    hide IsPlainChar;
    assert forall i | start <= i < late :: s[i] == s[start..end][i - start];
  }

  lemma HitRestarts(s: string, a: nat, b: nat, q: nat)
    requires a <= b <= q < |s| && At(s, a, b) == TOP
    ensures KeywordHit(s, b, q, "from") == KeywordHit(s, a, q, "from")
  {
    hide At, KeywordAt;
    Restart(s, a, b, q);
  }

  lemma SkippedIsPlain(list: string, d: nat)
    requires d <= |list| && FallsRight(list, d)
    ensures forall i | 0 <= i < d :: IsPlainChar(list[i])
  {
    hide ReadsModifier, WordAt;
    var w := SkipSpace(list, 0);
    if d > w {
      var word := if WordAt(list, w, "distinct") then "distinct" else "all";
      WordChars(list, w, word);
    }
  }

  /** For every text that the driver reads as a SELECT: the select list it finds is the select list if and
      only if the offset falls right. */
  lemma ReadListIsTrue(s: string)
    requires ParseSelect(s).Some?
    ensures TrueList(s) == Some(Span(ParseSelect(s).value.listAt, ParseSelect(s).value.fromAt)) <==> OffsetFallsRight(s)
  {
    hide ParseTableRef, FindKeyword, TruePrefix, FallsRight, LeadingSelectListStart, ListPrefix, TrueStart, Excess;
    var p := ParseSelect(s).value;
    StartIsOff(s);
    var start, d := TrueStart(s).value, Excess(s);
    assert p.listAt == p.listStart + ListPrefix(s[p.listStart..p.fromAt]);
    if TrueList(s).Some? {
      var end := TrueList(s).value.hi;
      var list := s[start..end];
      if start + d <= end {
        PrefixFallsRight(list, d);
        assert s[start + d..end] == list[d..];
        if FallsRight(list, d) {
          FromFromOffset(s, start, end, d);
        }
      } else {
        FallsWithin(list, d);
      }
    }
  }

  lemma FallsWithin(list: string, d: nat)
    ensures FallsRight(list, d) ==> d <= |list|
  {
    hide ModifierAt, ReadsModifier;
  }

  /** Without white space at the end the offset falls right, unless other white space than the scanners
      step over stands in the code of the list. */
  lemma NoTrailingSpaceFallsRight(s: string, p: Parts)
    requires Bounds(s, p) && Readable(s, p)
    ensures OffsetFallsRight(s)
  {
    hide ParseTableRef, LeadingSelectListStart, ListPrefix, TrueStart, Excess, FallsRight, PlainSpaces;
    StartIsOff(s);
    NothingTrimmed(s);
    SpacesOfList(s[p.listStart..p.fromAt]);
    PlainFallsRight(s[p.listStart..p.fromAt]);
  }

  lemma NothingTrimmed(s: string)
    requires NoTrailingSpace(s)
    ensures Excess(s) == 0
  {
  }

  lemma PlainFallsRight(list: string)
    requires SpacesAreSQL(list)
    ensures FallsRight(list, 0)
  {
    hide StartsWithKeyword, WordAt;
    var w := SkipSpace(list, 0);
    StartsWithIs(list, w, "distinct");
    StartsWithIs(list, w, "all");
  }

  // ---- the edits ----

  predicate FallsRightIn(s: string, e: Edit) { e.at <= e.until <= |s| && OffsetFallsRight(s[e.at..e.until]) }

  /** The edit replaces the select list of the statement in its place. */
  ghost predicate ReplacesTrueList(s: string, e: Edit) {
    && e.at <= e.until <= |s|
    && e.at <= e.lo <= e.hi
    && TrueList(s[e.at..e.until]) == Some(Span(e.lo - e.at, e.hi - e.at))
  }

  /** For every text and loader: the edits are in order and disjoint, each is in a place of its own in the
      code, and it replaces exactly the select list of the statement there if and only if the offset
      falls right in that statement. */
  lemma EditsAreSelectLists(s: string, load: Loader, depth: nat)
    requires SelectEdits(s, load, depth).Ok?
    ensures var edits := SelectEdits(s, load, depth).value;
      && Ordered(edits, 0, |s|)
      && forall e | e in edits :: Place(s, e.at, e.until) && (ReplacesTrueList(s, e) <==> FallsRightIn(s, e))
  {
    hide SelectEdits, ReplacesSelectList, Place, ReplacesTrueList, FallsRightIn;
    EditsReplaceLists(s, load, depth);
    var edits := SelectEdits(s, load, depth).value;
    forall e | e in edits
      ensures Place(s, e.at, e.until) && (ReplacesTrueList(s, e) <==> FallsRightIn(s, e))
    {
      EditIsSelectList(s, load, e);
    }
  }

  lemma EditIsSelectList(s: string, load: Loader, e: Edit)
    requires ReplacesSelectList(s, load, e)
    ensures Place(s, e.at, e.until) && (ReplacesTrueList(s, e) <==> FallsRightIn(s, e))
  {
    hide ParseSelect, RewriteDirect, Place, TrueList, OffsetFallsRight;
    PlaceBounds(s, e.at, e.until);
    ReadListIsTrue(s[e.at..e.until]);
  }
}
