/** A rewritten SELECT reads back as the statement it was meant to be, and is not rewritten again. */
module OracleReparse {
  import opened Text
  import opened SqlLexer
  import opened QuotedIdentifiers
  import opened OracleTokens
  import opened OracleSelect
  import opened OracleItems

  // ---- where the SELECT keyword is ----

  function SkipWhite(s: string, i: nat): (r: nat)
    requires i <= |s|
    ensures i <= r <= |s|
    ensures r < |s| ==> !IsSpace(s[r])
    ensures forall j | i <= j < r :: IsSpace(s[j])
    decreases |s| - i
  {
    if i < |s| && IsSpace(s[i]) then SkipWhite(s, i + 1) else i
  }

  predicate StartsLineComment(s: string, i: nat) { i + 1 < |s| && s[i] == '-' && s[i + 1] == '-' }

  predicate StartsBlockComment(s: string, i: nat) { i + 1 < |s| && s[i] == '/' && s[i + 1] == '*' }

  /** The position after the comment that follows the white space at `i`, if there is one. */
  function AfterComment(s: string, i: nat): (r: Option<nat>)
    requires i <= |s|
    ensures r.Some? ==> i < r.value <= |s|
  {
    var j := SkipWhite(s, i);
    if StartsLineComment(s, j) then
      var e := IndexLineEnd(s, j);
      Some(if e == -1 then |s| else e + 1)
    else if StartsBlockComment(s, j) then
      var c := IndexBlockClose(s, j + 2);
      Some(if c == -1 then |s| else c + 2)
    else None
  }

  /** The position after the white space and the comments at `i`. */
  function LeadEnd(s: string, i: nat): (r: nat)
    requires i <= |s|
    ensures i <= r <= |s|
    ensures r < |s| ==> !IsSpace(s[r])
    decreases |s| - i
  {
    match AfterComment(s, i)
    case None => SkipWhite(s, i)
    case Some(next) => LeadEnd(s, next)
  }

  predicate NoTrailingSpace(s: string) { s != "" ==> !IsSpace(s[|s| - 1]) }

  lemma {:induction false} TrimSuffix(s: string, i: nat)
    requires i <= |s| && NoTrailingSpace(s)
    ensures Trim(s[i..]) == s[SkipWhite(s, i)..]
    decreases |s| - i
  {
    if i < |s| && IsSpace(s[i]) {
      TrimSuffix(s, i + 1);
      assert s[i..][1..] == s[i + 1..];
    } else if i < |s| {
      assert s[i..][|s| - i - 1] == s[|s| - 1];
    }
  }

  lemma {:induction false} LineEndShift(s: string, k: nat, i: nat)
    requires k <= i <= |s|
    ensures var r := IndexLineEnd(s, i); IndexLineEnd(s[k..], i - k) == if r == -1 then -1 else r - k
    decreases |s| - i
  {
    if i < |s| {
      LineEndShift(s, k, i + 1);
    }
  }

  lemma {:induction false} BlockCloseShift(s: string, k: nat, i: nat)
    requires k <= i <= |s|
    ensures var r := IndexBlockClose(s, i); IndexBlockClose(s[k..], i - k) == if r == -1 then -1 else r - k
    decreases |s| - i
  {
    if i < |s| {
      BlockCloseShift(s, k, i + 1);
    }
  }

  lemma TrimLeadingStep(s: string, i: nat)
    requires i <= |s| && NoTrailingSpace(s)
    ensures TrimLeadingSQLComments(s[i..]) ==
      match AfterComment(s, i) case None => s[SkipWhite(s, i)..] case Some(next) => TrimLeadingSQLComments(s[next..])
  {
    hide Trim, SkipWhite, IndexLineEnd, IndexBlockClose, AfterComment, TrimLeadingSQLComments;
    TrimSuffix(s, i);
    var j := SkipWhite(s, i);
    var r := s[j..];
    TrimLeadingUnfold(s[i..]);
    AfterCommentIs(s, i);
    assert "--" <= r <==> StartsLineComment(s, j);
    assert "/*" <= r <==> StartsBlockComment(s, j);
    TrimOfNothing(s);
  }

  lemma TrimLeadingUnfold(s: string)
    ensures var r := Trim(s);
      TrimLeadingSQLComments(s) ==
        if "--" <= r then (var e := IndexLineEnd(r, 0); if e == -1 then "" else TrimLeadingSQLComments(r[e + 1..]))
        else if "/*" <= r then (
          var c := IndexBlockClose(r, 2); if c == -1 then "" else TrimLeadingSQLComments(r[c + 2..]))
        else r
  {
  }

  /** The comment's end, found in the text that starts at the comment. */
  lemma AfterCommentIs(s: string, i: nat)
    requires i <= |s|
    ensures var j := SkipWhite(s, i); var r := s[j..];
      if StartsLineComment(s, j) then
        var e := IndexLineEnd(r, 0);
        AfterComment(s, i).Some? && s[AfterComment(s, i).value..] == if e == -1 then s[|s|..] else r[e + 1..]
      else if StartsBlockComment(s, j) then
        var c := IndexBlockClose(r, 2);
        AfterComment(s, i).Some? && s[AfterComment(s, i).value..] == if c == -1 then s[|s|..] else r[c + 2..]
      else AfterComment(s, i) == None
  {
    hide SkipWhite, IndexLineEnd, IndexBlockClose;
    var j := SkipWhite(s, i);
    if StartsLineComment(s, j) {
      LineEndShift(s, j, j);
    } else if StartsBlockComment(s, j) {
      BlockCloseShift(s, j, j + 2);
    }
  }

  lemma TrimOfNothing(s: string)
    ensures TrimLeadingSQLComments(s[|s|..]) == ""
  {
    assert s[|s|..] == "";
  }

  /** Without trailing white space the trimmed text is a suffix of the text. */
  lemma {:induction false} TrimLeadingIs(s: string, i: nat)
    requires i <= |s| && NoTrailingSpace(s)
    ensures TrimLeadingSQLComments(s[i..]) == s[LeadEnd(s, i)..]
    decreases |s| - i
  {
    hide AfterComment, TrimLeadingSQLComments;
    TrimLeadingStep(s, i);
    if AfterComment(s, i).Some? {
      TrimLeadingIs(s, AfterComment(s, i).value);
    }
  }

  predicate SelectAt(s: string, k: nat) {
    && k + 6 <= |s| && EqualFold(s[k..k + 6], "select")
    && (k + 6 < |s| ==> !IsKeywordChar(s[k + 6]))
  }

  /** Without trailing white space the select list starts right after the SELECT keyword. */
  lemma ListStartIs(s: string)
    requires NoTrailingSpace(s)
    ensures LeadingSelectListStart(s) == if SelectAt(s, LeadEnd(s, 0)) then LeadEnd(s, 0) + 6 else -1
  {
    hide Trim;
    var k := LeadEnd(s, 0);
    assert s[0..] == s;
    TrimLeadingIs(s, 0);
    TrimFixed(s[k..]);
    assert k + 6 <= |s| ==> s[k..][..6] == s[k..k + 6];
  }

  lemma TrimOfTrimRight(s: string)
    ensures Trim(TrimRight(s)) == Trim(s)
  {
    hide TrimRight, Trim;
    TrimRightSplits(s);
    TrimDropsTrailing(s, |TrimRight(s)|);
  }

  /** The offset of the select list is too large by exactly the number of white space characters at
      the end of the text: the statement is read as meant if and only if there are none. */
  lemma ListStartError(s: string)
    ensures var r := TrimRight(s);
      LeadingSelectListStart(s) ==
        if SelectAt(r, LeadEnd(r, 0)) then LeadEnd(r, 0) + 6 + (|s| - |r|) else -1
    ensures LeadingSelectListStart(s) == LeadingSelectListStart(TrimRight(s)) <==>
      (|TrimRight(s)| == |s| || LeadingSelectListStart(s) == -1)
  {
    hide Trim, StartsWithKeyword;
    var r := TrimRight(s);
    TrimRightSplits(s);
    TrimOfTrimRight(s);
    SameTrimSameLeading(s, r);
    ListStartIs(r);
    TrimLeadingShort(r);
  }

  lemma SameTrimSameLeading(s: string, r: string)
    requires Trim(s) == Trim(r)
    ensures TrimLeadingSQLComments(s) == TrimLeadingSQLComments(r)
  {
    hide Trim, TrimLeadingSQLComments, IndexLineEnd, IndexBlockClose;
    TrimLeadingUnfold(s);
    TrimLeadingUnfold(r);
  }

  ghost predicate Agree(s: string, t: string, n: nat) {
    n <= |s| && n <= |t| && forall j | 0 <= j < n :: s[j] == t[j]
  }

  lemma AfterCommentStable(s: string, t: string, i: nat, k: nat)
    requires i <= |s| && i <= |t| && Agree(s, t, k + 2)
    requires match AfterComment(s, i) case None => SkipWhite(s, i) <= k case Some(next) => next <= k
    ensures AfterComment(t, i) == AfterComment(s, i)
    ensures AfterComment(s, i) == None ==> SkipWhite(t, i) == SkipWhite(s, i)
  {
    hide SkipWhite, IndexLineEnd, IndexBlockClose;
    var j := SkipWhite(s, i);
    assert j <= k;
    WhiteStable(s, t, i);
    assert StartsLineComment(t, j) == StartsLineComment(s, j);
    assert StartsBlockComment(t, j) == StartsBlockComment(s, j);
    if StartsLineComment(s, j) {
      LineEndStable(s, t, j, k);
    } else if StartsBlockComment(s, j) {
      BlockCloseStable(s, t, j + 2, k);
    }
  }

  /** What comes after the SELECT keyword does not move it. */
  lemma {:induction false} LeadEndStable(s: string, t: string, i: nat, k: nat)
    requires i <= |s| && i <= |t| && k == LeadEnd(s, i) && Agree(s, t, k + 2)
    ensures LeadEnd(t, i) == k
    decreases |s| - i
  {
    hide AfterComment, Agree;
    AfterCommentStable(s, t, i, k);
    if AfterComment(s, i).Some? {
      LeadEndStable(s, t, AfterComment(s, i).value, k);
    }
  }

  lemma {:induction false} WhiteStable(s: string, t: string, i: nat)
    requires i <= |s| && i <= |t| && SkipWhite(s, i) < |s| && SkipWhite(s, i) < |t|
    requires forall j | i <= j <= SkipWhite(s, i) :: s[j] == t[j]
    ensures SkipWhite(t, i) == SkipWhite(s, i)
    decreases |s| - i
  {
    if IsSpace(s[i]) {
      WhiteStable(s, t, i + 1);
    }
  }

  lemma {:induction false} LineEndStable(s: string, t: string, i: nat, k: nat)
    requires i <= k && Agree(s, t, k) && IndexLineEnd(s, i) != -1 && IndexLineEnd(s, i) < k
    ensures IndexLineEnd(t, i) == IndexLineEnd(s, i)
    decreases |s| - i
  {
    if IndexLineEnd(s, i) != i {
      LineEndStable(s, t, i + 1, k);
    }
  }

  lemma {:induction false} BlockCloseStable(s: string, t: string, i: nat, k: nat)
    requires i <= k && Agree(s, t, k) && IndexBlockClose(s, i) != -1 && IndexBlockClose(s, i) + 1 < k
    ensures IndexBlockClose(t, i) == IndexBlockClose(s, i)
    decreases |s| - i
  {
    if IndexBlockClose(s, i) != i {
      BlockCloseStable(s, t, i + 1, k);
    }
  }

  // ---- the list prefix ----

  /** Outside literals, delimited identifiers and comments the only white space is the four characters that
      the scanners step over. */
  ghost predicate PlainSpaces(s: string) {
    forall i | 0 <= i < |s| && At(s, 0, i).mode == Code :: IsSpace(s[i]) ==> IsSQLSpace(s[i])
  }

  /** The keyword, not continued by a keyword character, is at the position. */
  predicate WordAt(s: string, i: nat, word: string) {
    && i + |word| <= |s| && EqualFold(s[i..i + |word|], word)
    && (i + |word| < |s| ==> !IsKeywordChar(s[i + |word|]))
  }

  lemma StartsWithIs(s: string, i: nat, word: string)
    requires i <= |s| && (i < |s| ==> !IsSpace(s[i])) && (word == "distinct" || word == "all")
    ensures StartsWithKeyword(s[i..], word) == WordAt(s, i, word)
  {
    hide Trim;
    var x := s[i..];
    var t := Trim(x);
    var lead := TrimSplits(x);
    if x == "" {
    } else {
      assert x[0] == s[i];
      assert lead == 0;
      assert t == x[..|t|];
      var n := |word|;
      if n <= |x| && EqualFold(x[..n], word) {
        LastLetter(x[..n], word);
        assert x[n - 1] == x[..n][n - 1];
        assert |t| >= n;
        assert t[..n] == x[..n];
        assert |t| == n && |x| > n ==> IsSpace(x[n]);
        assert |t| > n ==> t[n] == x[n];
      } else if n <= |t| {
        assert t[..n] == x[..n];
      }
      assert n <= |x| ==> x[..n] == s[i..i + n];
      assert n < |x| ==> x[n] == s[i + n];
    }
  }

  lemma LastLetter(a: string, word: string)
    requires EqualFold(a, word) && (word == "distinct" || word == "all")
    ensures |a| == |word| && !IsSpace(a[|a| - 1])
  {
    var k := |word| - 1;
    assert Upper(a)[k] == UpperChar(a[k]) && Upper(word)[k] == UpperChar(word[k]);
  }

  lemma WordBoundary(list: string, w: nat, word: string)
    requires WordAt(list, w, word)
    ensures w + |word| <= |list| && (w + |word| < |list| ==> !IsKeywordChar(list[w + |word|]))
  {
  }

  /** The length of the white space and of the DISTINCT or ALL before the first item. */
  lemma ListPrefixIs(list: string)
    requires SkipSpace(list, 0) < |list| ==> !IsSpace(list[SkipSpace(list, 0)])
    ensures var w := SkipSpace(list, 0);
      ListPrefix(list) ==
        if WordAt(list, w, "distinct") then SkipSpace(list, w + 8)
        else if WordAt(list, w, "all") then SkipSpace(list, w + 3)
        else w
  {
    hide Trim, StartsWithKeyword, WordAt;
    var w := SkipSpace(list, 0);
    StartsWithIs(list, w, "distinct");
    StartsWithIs(list, w, "all");
    if WordAt(list, w, "distinct") {
      WordBoundary(list, w, "distinct");
    } else if WordAt(list, w, "all") {
      WordBoundary(list, w, "all");
    }
  }
}
