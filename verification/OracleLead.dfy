/** What may stand before a statement: white space and comments, in literal text. */
module OracleLead {
  import opened Text
  import opened SqlLexer
  import opened OracleTokens
  import opened OracleSelect
  import opened OracleReparse
  import opened OracleTable
  import opened OracleStatement
  import opened SqlGrammar

  /** White space and comments only. */
  predicate Lead(d: Doc) {
    d.Empty? || ((d.Line? || d.Block? || (d.Char? && IsSpace(d.c))) && Lead(d.rest))
  }

  /** No more white space and no more comment. */
  predicate NoLead(s: string) { s != "" && !IsSpace(s[0]) && !("--" <= s) && !("/*" <= s) }

  lemma {:induction false} LineEndIs(s: string, i: nat, e: nat)
    requires i <= e < |s| && (s[e] == '\n' || s[e] == '\r') && forall k | i <= k < e :: s[k] != '\n' && s[k] != '\r'
    ensures IndexLineEnd(s, i) == e
    decreases e - i
  {
    if i < e {
      LineEndIs(s, i + 1, e);
    }
  }

  lemma {:induction false} BlockCloseIs(s: string, i: nat, c: nat)
    requires i <= c && c + 1 < |s| && s[c] == '*' && s[c + 1] == '/'
    requires forall k | i <= k < c :: !(s[k] == '*' && s[k + 1] == '/')
    ensures IndexBlockClose(s, i) == c
    decreases c - i
  {
    if i < c {
      BlockCloseIs(s, i + 1, c);
    }
  }

  /** The text of a comment, by its position. */
  lemma SliceIs(s: string, lo: nat, x: string, k: nat)
    requires lo + |x| <= |s| && s[lo..lo + |x|] == x && k < |x|
    ensures s[lo + k] == x[k]
  {
    assert s[lo..lo + |x|][k] == s[lo + k];
  }

  lemma LineSkipped(s: string, i: nat, text: string, end: char)
    requires var x := "--" + (text + [end]); i + |x| <= |s| && s[i..i + |x|] == x
    requires end == '\n' || end == '\r'
    requires forall k | 0 <= k < |text| :: text[k] != '\n' && text[k] != '\r'
    ensures LeadEnd(s, i) == LeadEnd(s, i + |text| + 3)
  {
    hide IndexLineEnd, LeadEnd;
    var x := "--" + (text + [end]);
    SliceIs(s, i, x, 0);
    SliceIs(s, i, x, 1);
    SliceIs(s, i, x, |text| + 2);
    forall k | i <= k < i + |text| + 2 ensures s[k] != '\n' && s[k] != '\r' {
      SliceIs(s, i, x, k - i);
      assert k - i >= 2 ==> x[k - i] == text[k - i - 2];
    }
    LineEndIs(s, i, i + |text| + 2);
    assert SkipWhite(s, i) == i && AfterComment(s, i) == Some(i + |text| + 3);
    LeadStep(s, i);
  }

  lemma BlockText(s: string, i: nat, text: string)
    requires var x := "/*" + (text + "*/"); i + |x| <= |s| && s[i..i + |x|] == x
    ensures s[i] == '/' && s[i + 1] == '*' && s[i + 2..i + 2 + |text|] == text
    ensures s[i + |text| + 2] == '*' && s[i + |text| + 3] == '/'
  {
    var x := "/*" + (text + "*/");
    SliceIs(s, i, x, 0);
    SliceIs(s, i, x, 1);
    SliceIs(s, i, x, |text| + 2);
    SliceIs(s, i, x, |text| + 3);
    forall k | 0 <= k < |text| ensures s[i + 2..i + 2 + |text|][k] == text[k] {
      SliceIs(s, i, x, k + 2);
    }
  }

  lemma BlockSkipped(s: string, i: nat, text: string)
    requires var x := "/*" + (text + "*/"); i + |x| <= |s| && s[i..i + |x|] == x
    requires forall k | 0 <= k < |text| - 1 :: !(text[k] == '*' && text[k + 1] == '/')
    ensures LeadEnd(s, i) == LeadEnd(s, i + |text| + 4)
  {
    hide IndexBlockClose, LeadEnd;
    BlockText(s, i, text);
    var c := i + |text| + 2;
    forall k | i + 2 <= k < c ensures !(s[k] == '*' && s[k + 1] == '/') {
      SliceIs(s, i + 2, text, k - i - 2);
      if k + 1 < c {
        SliceIs(s, i + 2, text, k - i - 1);
      }
    }
    BlockCloseIs(s, i + 2, c);
    assert SkipWhite(s, i) == i && AfterComment(s, i) == Some(c + 2);
    LeadStep(s, i);
  }

  lemma LeadStep(s: string, i: nat)
    requires i <= |s| && AfterComment(s, i).Some?
    ensures LeadEnd(s, i) == LeadEnd(s, AfterComment(s, i).value)
  {
  }

  lemma SpaceSkipped(s: string, i: nat)
    requires i < |s| && IsSpace(s[i])
    ensures LeadEnd(s, i) == LeadEnd(s, i + 1)
  {
    assert SkipWhite(s, i) == SkipWhite(s, i + 1);
    assert AfterComment(s, i) == AfterComment(s, i + 1);
  }

  lemma FirstSkipped(s: string, i: nat, d: Doc)
    requires !d.Empty? && Lead(d) && Shaped(d) && i + |First(d)| <= |s| && s[i..i + |First(d)|] == First(d)
    ensures LeadEnd(s, i) == LeadEnd(s, i + |First(d)|)
  {
    hide LeadEnd;
    match d
    case Char(c, _) => SliceIs(s, i, [c], 0); SpaceSkipped(s, i);
    case Line(text, end, _) => LineSkipped(s, i, text, end);
    case Block(text, _) => BlockSkipped(s, i, text);
  }

  lemma {:induction false} LeadSkipped(s: string, i: nat, d: Doc)
    requires Lead(d) && Shaped(d) && i + |Written(d)| < |s| && s[i..i + |Written(d)|] == Written(d)
    requires NoLead(s[i + |Written(d)|..])
    ensures LeadEnd(s, i) == i + |Written(d)|
    decreases d
  {
    hide LeadEnd, First, ShapedFirst, NoLead;
    if d.Empty? {
      NoLeadAt(s, i);
    } else {
      var n := |First(d)|;
      assert s[i..i + |Written(d)|][..n] == s[i..i + n] && Written(d)[..n] == First(d);
      assert s[i..i + |Written(d)|][n..] == s[i + n..i + |Written(d)|] && Written(d)[n..] == Written(d.rest);
      FirstSkipped(s, i, d);
      LeadSkipped(s, i + n, d.rest);
    }
  }

  lemma NoLeadAt(s: string, i: nat)
    requires i < |s| && NoLead(s[i..])
    ensures LeadEnd(s, i) == i
  {
    assert s[i..][0] == s[i] && (i + 1 < |s| ==> s[i..][1] == s[i + 1]);
    assert SkipWhite(s, i) == i;
  }

  /** Behind white space and comments, whatever those hold: a text that begins with SELECT, in any letter case, and
      does not end with white space has its list right behind that word; any other text has none. */
  lemma ListStartAfterLead(d: Doc, text: string)
    requires Lead(d) && Shaped(d) && NoLead(text) && NoTrailingSpace(text)
    ensures LeadingSelectListStart(Written(d) + text) == if Begins(text, "SELECT") then |Written(d)| + 6 else -1
  {
    hide LeadEnd, Lead, Shaped, Written, LeadingSelectListStart, EqualFold, NoLead;
    var s := Written(d) + text;
    var k := |Written(d)|;
    assert s[0..0 + k] == Written(d) && s[k..] == text;
    NotEmpty(text);
    LeadSkipped(s, 0, d);
    assert s[|s| - 1] == text[|text| - 1];
    ListStartIs(s);
    if |text| >= 6 {
      assert s[k..k + 6] == text[..6];
      assert k + 6 < |s| ==> s[k + 6] == text[6];
      SelectFolds(text[..6]);
    }
  }

  lemma NotEmpty(text: string)
    requires NoLead(text)
    ensures text != ""
  {
  }

  lemma SelectFolds(word: string)
    ensures EqualFold(word, "select") <==> Spelled(word, "SELECT")
  {
    assert Upper("select") == "SELECT";
  }
}
