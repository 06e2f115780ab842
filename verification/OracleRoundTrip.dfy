/** The rewritten statement, read again. */
module OracleRoundTrip {
  import opened Text
  import opened SqlLexer
  import opened OracleTokens
  import opened OracleSelect
  import opened OracleItems
  import opened OracleReparse

  // ---- the text of the list ----

  predicate PrefixChar(c: char) { IsSQLSpace(c) || (IsLetter(c) && c != 'f' && c != 'F') }

  predicate HasModifier(list: string) {
    var w := SkipSpace(list, 0); WordAt(list, w, "distinct") || WordAt(list, w, "all")
  }

  predicate SpacesAreSQL(list: string) {
    var w := SkipSpace(list, 0); w < |list| ==> !IsSpace(list[w])
  }

  lemma WordChars(list: string, w: nat, word: string)
    requires WordAt(list, w, word) && (word == "distinct" || word == "all")
    ensures forall i | w <= i < w + |word| :: PrefixChar(list[i]) && !IsSpace(list[i])
  {
    var x := list[w..w + |word|];
    forall i | w <= i < w + |word| ensures PrefixChar(list[i]) && !IsSpace(list[i]) {
      assert list[i] == x[i - w];
      assert Upper(x)[i - w] == UpperChar(x[i - w]);
      assert Upper(word)[i - w] == UpperChar(word[i - w]);
    }
  }

  /** The prefix is white space and letters, and either ends with white space, is empty, or is
      followed by a character that cannot continue its keyword. */
  lemma PrefixShape(list: string)
    requires SpacesAreSQL(list)
    ensures var n := ListPrefix(list);
      && (forall i | 0 <= i < n :: PrefixChar(list[i]))
      && (n > 0 && n < |list| && !IsSpace(list[n - 1]) ==> !IsKeywordChar(list[n]))
      && (n > 0 && !IsSpace(list[n - 1]) ==> HasModifier(list))
  {
    hide ListPrefix, WordAt;
    ListPrefixIs(list);
    var w := SkipSpace(list, 0);
    if WordAt(list, w, "distinct") {
      WordChars(list, w, "distinct");
      WordBoundary(list, w, "distinct");
    } else if WordAt(list, w, "all") {
      WordChars(list, w, "all");
      WordBoundary(list, w, "all");
    }
  }

  // ---- a statement and its list ----

  ghost predicate Readable(s: string, p: Parts) {
    && ParseSelect(s) == Some(p)
    && NoTrailingSpace(s)
    && p.listStart <= p.fromAt <= |s| && PlainSpaces(s[p.listStart..p.fromAt])
  }

  predicate Bounds(s: string, p: Parts) {
    p.listStart <= p.listAt <= p.fromAt && p.fromAt + 4 <= |s|
  }

  function ListOf(s: string, p: Parts): string
    requires p.listAt <= p.fromAt <= |s|
  {
    s[p.listAt..p.fromAt]
  }

  lemma ReadableFacts(s: string, p: Parts)
    requires Bounds(s, p) && Readable(s, p)
    ensures p.listStart == LeadEnd(s, 0) + 6 && SelectAt(s, LeadEnd(s, 0))
    ensures KeywordHit(s, p.listStart, p.fromAt, "from")
    ensures p.listAt == p.listStart + ListPrefix(s[p.listStart..p.fromAt])
    ensures ParseTableRef(s[p.fromAt + 4..]) == Some(p.ref)
    ensures SpacesAreSQL(s[p.listStart..p.fromAt])
  {
    ParsedFacts(s, p);
    hide KeywordHit, SelectAt, LeadEnd, LeadingSelectListStart, ListPrefix, ParseTableRef, ParseSelect;
    hide TrimLeadingSQLComments, SpacesAreSQL, PlainSpaces;
    ListStartIs(s);
    SpacesOfList(s[p.listStart..p.fromAt]);
  }

  lemma SpacesOfList(list: string)
    requires PlainSpaces(list)
    ensures SpacesAreSQL(list)
  {
    PlainKeeps(list, 0, 0, SkipSpace(list, 0));
  }

  lemma ParsedFacts(s: string, p: Parts)
    requires Bounds(s, p) && ParseSelect(s) == Some(p)
    ensures p.listStart == LeadingSelectListStart(s)
    ensures p.fromAt == FindKeyword(s, p.listStart, "from")
    ensures KeywordHit(s, p.listStart, p.fromAt, "from")
    ensures p.listAt == p.listStart + ListPrefix(s[p.listStart..p.fromAt])
    ensures ParseTableRef(s[p.fromAt + 4..]) == Some(p.ref)
  {
    hide KeywordHit, LeadingSelectListStart, ListPrefix, ParseTableRef;
  }

  lemma FirstOfList(s: string, p: Parts)
    requires Bounds(s, p)
    ensures ListOf(s, p) != "" ==> p.listAt < p.fromAt && ListOf(s, p)[0] == s[p.listAt]
  {
  }

  /** The character before the first item. */
  lemma BeforeList(s: string, p: Parts)
    requires Bounds(s, p) && Readable(s, p)
    ensures p.listAt > 0
    ensures forall i | p.listStart <= i < p.listAt :: PrefixChar(s[i])
    ensures !IsSpace(s[p.listAt - 1]) && ListOf(s, p) != "" ==> !IsKeywordChar(ListOf(s, p)[0])
  {
    hide ListPrefix, KeywordHit, LeadEnd, ParseTableRef, Readable;
    ReadableFacts(s, p);
    var list := s[p.listStart..p.fromAt];
    PrefixShape(list);
    forall i | p.listStart <= i < p.listAt ensures PrefixChar(s[i]) {
      assert s[i] == list[i - p.listStart];
    }
    FirstOfList(s, p);
    if p.listAt > p.listStart {
      var n := p.listAt - p.listStart;
      assert list[n - 1] == s[p.listAt - 1];
      assert p.listAt < p.fromAt ==> s[p.listAt] == list[n];
    }
  }

  lemma PrefixKeepsTop(s: string, p: Parts)
    requires Bounds(s, p) && Readable(s, p)
    ensures At(s, p.listStart, p.listAt) == TOP
  {
    hide Readable;
    BeforeList(s, p);
    PrefixCharsKeepTop(s, p.listStart, p.listAt);
  }

  lemma PrefixCharsKeepTop(s: string, a: nat, b: nat)
    requires a <= b <= |s| && forall i | a <= i < b :: PrefixChar(s[i])
    ensures At(s, a, b) == TOP
  {
    PlainKeeps(s, a, a, b);
  }

  /** In a statement that was read, the list is self-contained and holds no FROM of its own. */
  lemma ListOk(s: string, p: Parts)
    requires Bounds(s, p) && Readable(s, p)
    ensures Closed(ListOf(s, p)) && NoFrom(ListOf(s, p))
  {
    hide Readable, ListPrefix, ParseTableRef, LeadEnd, SelectAt, KeywordHit, At;
    ReadableFacts(s, p);
    var a := p.listStart;
    var list := ListOf(s, p);
    FromIsTop(s, a, p.fromAt);
    forall q | 0 <= q <= |list| ensures At(list, 0, q) == At(s, a, p.listAt + q) {
      ListAt(s, p, q);
    }
    forall q | 0 <= q < |list| ensures !KeywordHit(list, 0, q, "from") {
      ListHit(s, p, q);
    }
    FirstKeywordIs(list, 0, 0, -1, "from");
  }

  lemma FromIsTop(s: string, a: nat, f: nat)
    requires a <= f < |s| && KeywordHit(s, a, f, "from")
    ensures At(s, a, f) == TOP
    ensures f > 0 ==> !IsIdentifierPart(s[f - 1])
    ensures IsIdentifierPart(s[f])
  {
    FromHitShape(s, a, f);
  }

  lemma ListAt(s: string, p: Parts, q: nat)
    requires Bounds(s, p) && Readable(s, p) && p.listAt + q <= p.fromAt <= |s|
    ensures At(ListOf(s, p), 0, q) == At(s, p.listStart, p.listAt + q)
  {
    hide Readable, ListPrefix, ParseTableRef, LeadEnd, SelectAt, KeywordHit, At;
    ReadableFacts(s, p);
    FromIsTop(s, p.listStart, p.fromAt);
    PrefixKeepsTop(s, p);
    var a := p.listStart;
    var u := s[a..];
    Shift(s, a, a, p.listAt);
    Shift(s, a, a, p.fromAt);
    Shift(s, a, a, p.listAt + q);
    PartAt(u, p.listAt - a, p.fromAt - a, q);
    assert u[p.listAt - a..p.fromAt - a] == ListOf(s, p);
  }

  lemma ListHit(s: string, p: Parts, q: nat)
    requires Bounds(s, p) && Readable(s, p) && p.listAt + q < p.fromAt <= |s|
    ensures !KeywordHit(ListOf(s, p), 0, q, "from")
  {
    hide Readable, ListPrefix, ParseTableRef, LeadEnd, SelectAt, At;
    var list := ListOf(s, p);
    ListAt(s, p, q);
    NoHitBefore(s, p, p.listAt + q);
    FromHitShape(list, 0, q);
    BeforeList(s, p);
    FromBefore(s, p);
    if q + 4 <= |list| {
      SliceOfSlice(s, p.listAt, p.fromAt, q, q + 4);
    }
    assert q > 0 ==> list[q - 1] == s[p.listAt + q - 1];
    assert q + 4 < |list| ==> list[q + 4] == s[p.listAt + q + 4];
    assert list[|list| - 1] == s[p.fromAt - 1];
    assert list[q] == s[p.listAt + q];
  }

  lemma FromBefore(s: string, p: Parts)
    requires Bounds(s, p) && Readable(s, p)
    ensures p.listAt <= p.fromAt <= |s| && (p.fromAt > 0 ==> !IsIdentifierPart(s[p.fromAt - 1]))
  {
    hide Readable, ListPrefix, ParseTableRef, LeadEnd, SelectAt, At;
    ReadableFacts(s, p);
    FromIsTop(s, p.listStart, p.fromAt);
  }

  lemma NoHitBefore(s: string, p: Parts, i: nat)
    requires Bounds(s, p) && Readable(s, p) && p.listStart <= i < p.fromAt <= |s|
    ensures !KeywordHit(s, p.listStart, i, "from")
  {
    ParsedFacts(s, p);
    hide KeywordHit, LeadingSelectListStart, ListPrefix, ParseTableRef, ParseSelect;
  }

  // ---- the rewritten statement ----

  /** The new list would run into the keyword before it: `select*` becomes `selectX`. */
  predicate Glued(s: string, p: Parts, items: seq<string>)
    requires 0 < p.listAt <= |s|
  {
    items != [] && !IsSpace(s[p.listAt - 1]) && items[0] != "" && IsKeywordChar(items[0][0])
  }

  predicate StartsWithModifier(text: string) { WordAt(text, 0, "distinct") || WordAt(text, 0, "all") }

  lemma SkipSpaceIs(s: string, i: nat, r: nat)
    requires i <= r <= |s| && (r < |s| ==> !IsSQLSpace(s[r])) && forall j | i <= j < r :: IsSQLSpace(s[j])
    ensures SkipSpace(s, i) == r
  {
  }

  lemma WordMoves(list: string, list2: string, w: nat, word: string, n: nat)
    requires word == "distinct" || word == "all"
    requires WordAt(list, w, word) && w + |word| <= n <= |list| && n < |list2| && list2[..n] == list[..n]
    requires w + |word| < n ==> IsSQLSpace(list[w + |word|])
    requires w + |word| == n ==> !IsKeywordChar(list2[n])
    ensures WordAt(list2, w, word) && list2[w] == list[w]
    ensures word == "all" ==> !WordAt(list2, w, "distinct")
  {
    var m := w + |word|;
    assert list2[w..m] == list2[..n][w..m] == list[w..m];
    assert list2[w] == list2[w..m][0] == list[w..m][0];
    assert m < n ==> list2[m] == list2[..n][m] == list[m];
    if word == "all" {
      assert Upper(list[w..m])[0] == 'A';
      if w + 8 <= |list2| {
        assert Upper(list2[w..w + 8])[0] == UpperChar(list2[w]);
      }
    }
  }

  lemma PrefixSame(list: string, list2: string, n: nat)
    requires n == ListPrefix(list) && n < |list2| && list2[..n] == list[..n]
    requires SpacesAreSQL(list) && !IsSpace(list2[n])
    requires n > 0 && !IsSpace(list[n - 1]) ==> !IsKeywordChar(list2[n])
    requires !HasModifier(list) ==> !WordAt(list2, n, "distinct") && !WordAt(list2, n, "all")
    ensures ListPrefix(list2) == n
  {
    hide ListPrefix, WordAt, SkipSpace, IsKeywordChar;
    ListPrefixIs(list);
    var w := SkipSpace(list, 0);
    assert forall j | 0 <= j < n :: list2[j] == list2[..n][j] == list[j];
    if HasModifier(list) {
      var word := if WordAt(list, w, "distinct") then "distinct" else "all";
      WordBoundary(list, w, word);
      WordChars(list, w, word);
      WordMoves(list, list2, w, word, n);
      SkipSpaceIs(list2, 0, w);
      SkipSpaceIs(list2, w + |word|, n);
    } else {
      SkipSpaceIs(list2, 0, w);
    }
    ListPrefixIs(list2);
  }

  ghost predicate GoodList(items: seq<string>) {
    && items != [] && items[|items| - 1] != ""
    && forall x | x in items :: ItemOk(x)
  }

  lemma ListTextStart(items: seq<string>)
    requires GoodList(items)
    ensures var text := ListText(items);
      && text != "" && !IsSpace(text[0]) && text[|text| - 1] == ' ' && items != []
      && text[0] == if items[0] == "" then ',' else items[0][0]
  {
    hide NoFrom, Closed;
    assert items[0] in items && ItemOk(items[0]);
    var _ := TrimSplits(items[0]);
  }

  /** The pieces of the rewritten statement. */
  lemma WithListIs(s: string, p: Parts, items: seq<string>)
    requires Bounds(s, p)
    ensures var t := WithList(s, p, items); var text := ListText(items); var f := p.listAt + |text|;
      && t == s[..p.listAt] + (text + s[p.fromAt..])
      && |t| == f + |s| - p.fromAt
      && t[..p.listAt] == s[..p.listAt] && t[p.listAt..f] == text && t[f..] == s[p.fromAt..]
      && t[p.listAt..] == text + s[p.fromAt..]
      && t[f + 4..] == s[p.fromAt + 4..]
      && t[p.listStart..f] == s[p.listStart..p.listAt] + text
  {
    var t := WithList(s, p, items);
    var text := ListText(items);
    var f := p.listAt + |text|;
    assert t == s[..p.listAt] + (text + s[p.fromAt..]);
    assert t[f + 4..] == t[f..][4..] && s[p.fromAt + 4..] == s[p.fromAt..][4..];
  }

  lemma NoHitInList(t: string, a: nat, b: nat, text: string, rest: string, q: nat)
    requires a <= b <= q < b + |text| && b <= |t| && t[b..] == text + rest && At(t, a, b) == TOP
    requires Closed(text) && NoFrom(text) && text[|text| - 1] == ' '
    ensures !KeywordHit(t, a, q, "from")
  {
    hide At, KeywordHit;
    HitInSuffix(t, a, b, q);
    FromHitInConcat(text, rest, q - b);
  }

  lemma TopAfterList(t: string, a: nat, b: nat, text: string, rest: string)
    requires a <= b <= |t| && t[b..] == text + rest && At(t, a, b) == TOP
    requires Closed(text) && text != "" && text[|text| - 1] == ' '
    ensures At(t, a, b + |text|) == TOP
  {
    AfterClosed(text, rest, 0);
    AtStart(rest, 0);
    hide At;
    Restart(t, a, b, b + |text|);
    Shift(t, b, b, b + |text|);
  }

  lemma FromBetween(s: string, p: Parts, text: string, t: string)
    requires Bounds(s, p) && Readable(s, p) && Closed(text) && NoFrom(text) && text != "" && text[|text| - 1] == ' '
    requires t == s[..p.listAt] + (text + s[p.fromAt..])
    ensures FindKeyword(t, p.listStart, "from") == p.listAt + |text|
  {
    hide Readable, ListPrefix, ParseTableRef, LeadEnd, SelectAt, At, SpacesAreSQL, NoFrom, Closed, KeywordHit;
    ReadableFacts(s, p);
    BeforeList(s, p);
    var a, b := p.listStart, p.listAt;
    var rest := s[p.fromAt..];
    assert forall i | 0 <= i < b :: t[i] == s[i];
    assert t[b..] == text + rest;
    PrefixCharsKeepTop(t, a, b);
    FromIsTop(s, a, p.fromAt);
    forall q | a <= q < b + |text| ensures !KeywordHit(t, a, q, "from") {
      if q >= b {
        NoHitInList(t, a, b, text, rest, q);
      } else {
        FromHitShape(t, a, q);
      }
    }
    TopAfterList(t, a, b, text, rest);
    FromKept(s, a, p.fromAt, t, b + |text|);
    FirstKeywordIs(t, a, a, b + |text|, "from");
  }

  lemma FromKept(s: string, a: nat, f: nat, t: string, g: nat)
    requires a <= f < |s| && KeywordHit(s, a, f, "from")
    requires 0 < g <= |t| && t[g..] == s[f..] && t[g - 1] == ' '
    ensures g < |t| && (a <= g && At(t, a, g) == TOP ==> KeywordHit(t, a, g, "from"))
  {
    hide At;
    assert t[g..][0] == s[f..][0];
    assert t[g..g + 4] == t[g..][..4] && s[f..f + 4] == s[f..][..4];
    if g + 4 < |t| {
      assert t[g + 4] == t[g..][4] == s[f..][4] == s[f + 4];
    }
  }

  lemma HitInSuffix(t: string, a: nat, b: nat, q: nat)
    requires a <= b <= q < |t| && At(t, a, b) == TOP
    ensures KeywordHit(t, a, q, "from") ==> KeywordHit(t[b..], 0, q - b, "from")
  {
    hide At;
    Restart(t, a, b, q);
    Shift(t, b, b, q);
    assert q + 4 <= |t| ==> t[b..][q - b..q - b + 4] == t[q..q + 4];
  }

  lemma FoldFirst(x: string, word: string)
    requires EqualFold(x, word) && word != ""
    ensures |x| == |word| && UpperChar(x[0]) == UpperChar(word[0])
    ensures UpperChar(x[|x| - 1]) == UpperChar(word[|word| - 1])
  {
    assert Upper(x)[0] == UpperChar(x[0]) && Upper(word)[0] == UpperChar(word[0]);
    assert Upper(x)[|x| - 1] == UpperChar(x[|x| - 1]) && Upper(word)[|x| - 1] == UpperChar(word[|x| - 1]);
  }

  /** A change after the SELECT keyword moves the start of the list only by gluing it on. */
  lemma StartKept(s: string, t: string, b: nat, k: nat)
    requires NoTrailingSpace(s) && NoTrailingSpace(t) && k == LeadEnd(s, 0) && SelectAt(s, k)
    requires k + 6 <= b <= |s| && b < |t| && t[..b] == s[..b]
    ensures LeadingSelectListStart(t) == if b == k + 6 && IsKeywordChar(t[b]) then -1 else k + 6
    ensures !IsSpace(s[k + 5])
  {
    hide LeadEnd, LeadingSelectListStart, SelectAt, NoTrailingSpace;
    assert forall j | 0 <= j < b :: t[j] == t[..b][j] == s[..b][j] == s[j];
    LeadEndStable(s, t, 0, k);
    ListStartIs(t);
    SelectKept(s, t, k);
  }

  lemma ListStartKept(s: string, p: Parts, items: seq<string>)
    requires Bounds(s, p) && p.listAt > 0 && Readable(s, p) && GoodList(items)
    ensures LeadingSelectListStart(WithList(s, p, items))
         == if p.listAt == p.listStart && Glued(s, p, items) then -1 else p.listStart
  {
    hide Readable, LeadEnd, WithList, ListText, LeadingSelectListStart, GoodList, KeywordHit, ListPrefix,
      ParseTableRef, SpacesAreSQL, NoTrailingSpace, SelectAt;
    var t := WithList(s, p, items);
    NoTrailingOf(s, p);
    NoTrailingKept(s, p, items);
    ReadableFacts(s, p);
    ListTextStart(items);
    WithListIs(s, p, items);
    assert t[p.listAt] == t[p.listAt..p.listAt + |ListText(items)|][0] == ListText(items)[0];
    StartKept(s, t, p.listAt, LeadEnd(s, 0));
  }

  lemma SelectKept(s: string, t: string, k: nat)
    requires SelectAt(s, k) && k + 6 < |t| && forall j | 0 <= j < k + 6 :: t[j] == s[j]
    ensures SelectAt(t, k) <==> !IsKeywordChar(t[k + 6])
    ensures !IsSpace(s[k + 5])
    ensures k + 6 < |s| ==> !IsKeywordChar(s[k + 6])
  {
    assert t[k..k + 6] == s[k..k + 6];
    FoldFirst(s[k..k + 6], "select");
    assert s[k..k + 6][5] == s[k + 5];
  }

  lemma NoTrailingOf(s: string, p: Parts)
    requires Readable(s, p)
    ensures NoTrailingSpace(s)
  {
    hide ParseSelect;
  }

  lemma NoTrailingKept(s: string, p: Parts, items: seq<string>)
    requires Bounds(s, p) && NoTrailingSpace(s)
    ensures NoTrailingSpace(WithList(s, p, items))
  {
    hide WithList, ListText;
    WithListIs(s, p, items);
    var t := WithList(s, p, items);
    var f := p.listAt + |ListText(items)|;
    assert t[|t| - 1] == t[f..][|t| - 1 - f] == s[p.fromAt..][|s| - p.fromAt - 1] == s[|s| - 1];
  }

  lemma WordShift(pre: string, text: string, word: string)
    ensures WordAt(pre + text, |pre|, word) == WordAt(text, 0, word)
  {
    var list := pre + text;
    assert |word| <= |text| ==> list[|pre|..|pre| + |word|] == text[0..0 + |word|];
    assert |word| < |text| ==> list[|pre| + |word|] == text[0 + |word|];
  }

  /** A keyword glued to what follows it is no longer a modifier. */
  lemma GluedPrefix(list: string, list2: string, n: nat)
    requires n == ListPrefix(list) && 0 < n < |list2| && n <= |list| && list2[..n] == list[..n]
    requires SpacesAreSQL(list) && !IsSpace(list[n - 1]) && IsKeywordChar(list2[n])
    ensures ListPrefix(list2) != n
  {
    hide ListPrefix, WordAt, SkipSpace;
    PrefixShape(list);
    ListPrefixIs(list);
    var w := SkipSpace(list, 0);
    var word := if WordAt(list, w, "distinct") then "distinct" else "all";
    WordBoundary(list, w, word);
    WordChars(list, w, word);
    assert forall j | 0 <= j < n :: list2[j] == list2[..n][j] == list[j];
    assert n == w + |word|;
    SkipSpaceIs(list2, 0, w);
    GluedWord(list, list2, w, word);
    ListPrefixIs(list2);
  }

  lemma GluedWord(list: string, list2: string, w: nat, word: string)
    requires (word == "distinct" || word == "all") && WordAt(list, w, word)
    requires w + |word| < |list2| && list2[..w + |word|] == list[..w + |word|] && IsKeywordChar(list2[w + |word|])
    ensures !WordAt(list2, w, "distinct") && !WordAt(list2, w, "all")
  {
    var x := list[w..w + |word|];
    FoldFirst(x, word);
    assert x[0] == list[w] == list2[..w + |word|][w] == list2[w];
    assert w + 8 <= |list2| ==> list2[w..w + 8][0] == list2[w];
    assert w + 3 <= |list2| ==> list2[w..w + 3][0] == list2[w];
    if WordAt(list2, w, "distinct") {
      FoldFirst(list2[w..w + 8], "distinct");
    }
    if WordAt(list2, w, "all") {
      FoldFirst(list2[w..w + 3], "all");
    }
  }

  lemma ModifierKept(s: string, p: Parts, items: seq<string>)
    requires Bounds(s, p) && p.listAt > 0 && Readable(s, p) && GoodList(items)
    requires !HasModifier(s[p.listStart..p.fromAt]) ==> !StartsWithModifier(ListText(items))
    requires p.listAt == p.listStart ==> !Glued(s, p, items)
    ensures ListPrefix(s[p.listStart..p.listAt] + ListText(items)) == p.listAt - p.listStart <==> !Glued(s, p, items)
  {
    hide Readable, ListPrefix, LeadEnd, ListText, GoodList, KeywordHit, WordAt, SkipSpace, SpacesAreSQL,
      ParseTableRef, SelectAt;
    ReadableFacts(s, p);
    ListTextStart(items);
    var list := s[p.listStart..p.fromAt];
    var n := p.listAt - p.listStart;
    var text := ListText(items);
    var list2 := s[p.listStart..p.listAt] + text;
    SliceOfSlice(s, p.listStart, p.fromAt, 0, n);
    assert list[0..n] == list[..n];
    assert n > 0 ==> list[n - 1] == s[p.listAt - 1];
    PrefixKept(list, text, n);
  }

  lemma PrefixKept(list: string, text: string, n: nat)
    requires n == ListPrefix(list) && n <= |list| && SpacesAreSQL(list) && text != "" && !IsSpace(text[0])
    requires !HasModifier(list) ==> !StartsWithModifier(text)
    ensures ListPrefix(list[..n] + text) == n <==> !(n > 0 && !IsSpace(list[n - 1]) && IsKeywordChar(text[0]))
  {
    hide ListPrefix, WordAt, SkipSpace, SpacesAreSQL;
    var list2 := list[..n] + text;
    assert list2[..n] == list[..n] && list2[n] == text[0];
    if n > 0 && !IsSpace(list[n - 1]) && IsKeywordChar(text[0]) {
      GluedPrefix(list, list2, n);
    } else {
      WordShift(list[..n], text, "distinct");
      WordShift(list[..n], text, "all");
      PrefixSame(list, list2, n);
    }
  }

  lemma ParseIs(t: string, start: nat, f: nat, ref: TableRef)
    requires LeadingSelectListStart(t) == start && FindKeyword(t, start, "from") == f
    requires f + 4 <= |t| && start <= f && ParseTableRef(t[f + 4..]) == Some(ref)
    ensures ParseSelect(t) == Some(Parts(start, start + ListPrefix(t[start..f]), f, ref))
  {
    hide LeadingSelectListStart, FindKeyword, ParseTableRef, ListPrefix;
  }

  lemma ParseNone(t: string)
    requires LeadingSelectListStart(t) == -1
    ensures ParseSelect(t) == None
  {
    hide LeadingSelectListStart, FindKeyword, ParseTableRef, ListPrefix;
  }

  lemma FromAndTableKept(s: string, p: Parts, items: seq<string>)
    requires Bounds(s, p) && Readable(s, p) && GoodList(items)
    ensures var t := WithList(s, p, items); var f := p.listAt + |ListText(items)|;
      && f + 4 <= |t| && FindKeyword(t, p.listStart, "from") == f
      && ParseTableRef(t[f + 4..]) == Some(p.ref)
      && t[p.listStart..f] == s[p.listStart..p.listAt] + ListText(items)
      && t[p.listAt..f] == ListText(items)
  {
    ListTextOk(items);
    hide Readable, Closed, NoFrom, ListText, FindKeyword, ParseTableRef, WithList, KeywordHit, SpacesAreSQL,
      ListPrefix, SelectAt, LeadEnd;
    ListTextStart(items);
    ReadableFacts(s, p);
    WithListIs(s, p, items);
    FromBetween(s, p, ListText(items), WithList(s, p, items));
  }

  /** The rewritten statement is read as the same SELECT over the same table with exactly the new
      items, if and only if the new list does not run into the keyword before it. */
  lemma ReadsBack(s: string, p: Parts, items: seq<string>)
    requires Bounds(s, p) && p.listAt > 0 && Readable(s, p) && GoodList(items)
    requires !HasModifier(s[p.listStart..p.fromAt]) ==> !StartsWithModifier(ListText(items))
    ensures ParseSelect(WithList(s, p, items)) == Some(p.(fromAt := p.listAt + |ListText(items)|))
      <==> !Glued(s, p, items)
  {
    hide Readable, GoodList, WithList, ListText, HasModifier, StartsWithModifier, ListPrefix, ParseTableRef,
      FindKeyword, LeadingSelectListStart, ParseSelect, Glued;
    var t := WithList(s, p, items);
    var f := p.listAt + |ListText(items)|;
    FromAndTableKept(s, p, items);
    ListStartKept(s, p, items);
    if LeadingSelectListStart(t) == p.listStart {
      ModifierKept(s, p, items);
      ParseIs(t, p.listStart, f, p.ref);
    } else {
      ParseNone(t);
    }
  }

  /** A list glued to SELECT itself leaves no SELECT to read. */
  lemma GluedToSelect(s: string, p: Parts, items: seq<string>)
    requires Bounds(s, p) && p.listAt > 0 && Readable(s, p) && GoodList(items)
    requires p.listAt == p.listStart && Glued(s, p, items)
    ensures ParseSelect(WithList(s, p, items)) == None
  {
    hide Readable, GoodList, WithList, ParseSelect, LeadingSelectListStart, Glued;
    ListStartKept(s, p, items);
    ParseNone(WithList(s, p, items));
  }
}
