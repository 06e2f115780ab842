/** The table after FROM, in the words of SQL: what is read for each way of going on after the table. */
module OracleTable {
  import opened Text
  import opened SqlLexer
  import opened OracleTokens
  import opened OracleSelect
  import opened OracleRoundTrip

  // ---- words ----

  /** The word is spelled in any mixture of upper and lower case. */
  predicate Spelled(word: string, upper: string) { Upper(word) == upper }

  predicate ClauseWord(word: string) {
    || Spelled(word, "WHERE") || Spelled(word, "GROUP") || Spelled(word, "ORDER") || Spelled(word, "HAVING")
    || Spelled(word, "CONNECT") || Spelled(word, "START") || Spelled(word, "MODEL") || Spelled(word, "FETCH")
    || Spelled(word, "OFFSET") || Spelled(word, "UNION") || Spelled(word, "MINUS") || Spelled(word, "INTERSECT")
  }

  /** The text starts with the word, and a letter, a digit, `_` or `$` does not continue it. */
  predicate Begins(s: string, upper: string) {
    |s| >= |upper| && Spelled(s[..|upper|], upper)
    && (|s| > |upper| ==> !IsLetter(s[|upper|]) && !IsDigit(s[|upper|]) && s[|upper|] != '_' && s[|upper|] != '$')
  }

  predicate JoinWord(s: string) {
    Begins(s, "JOIN") || Begins(s, "INNER") || Begins(s, "LEFT") || Begins(s, "RIGHT") || Begins(s, "FULL")
        || Begins(s, "CROSS")
  }

  predicate Blank(s: string) { forall i | 0 <= i < |s| :: s[i] == ' ' || s[i] == '\t' || s[i] == '\r' || s[i] == '\n' }

  /** The text does not continue an identifier. */
  predicate Separate(rest: string) { rest != "" ==> !IsIdentifierPart(rest[0]) }

  predicate Bare(word: string) {
    word != "" && IsIdentifierStart(word[0]) && forall i | 0 <= i < |word| :: IsIdentifierPart(word[i])
  }

  lemma BareReread(pre: string, word: string, rest: string)
    requires Bare(word) && Separate(rest)
    ensures ReadToken(pre + word + rest, |pre|) == TokenAt(Token(Upper(word), word, false), |pre| + |word|)
  {
    var s := pre + word + rest;
    var end := |pre| + |word|;
    assert s[|pre|] == word[0] && s[|pre|..end] == word;
    assert SkipSpace(s, |pre|) == |pre|;
    assert forall i | |pre| <= i < end :: s[i] == word[i - |pre|];
    assert end < |s| ==> s[end] == rest[0];
    assert IdentifierEnd(s, |pre| + 1) == end;
  }

  lemma BlankSkips(pre: string, gap: string, rest: string)
    requires Blank(gap) && (rest != "" ==> !IsSQLSpace(rest[0]))
    ensures SkipSpace(pre + gap + rest, |pre|) == |pre| + |gap|
  {
    var s := pre + gap + rest;
    assert forall i | |pre| <= i < |pre| + |gap| :: s[i] == gap[i - |pre|];
    SkipSpaceIs(s, |pre|, |pre| + |gap|);
  }

  /** Trimming a text that starts with a word keeps the word. */
  lemma TrimAfterWord(word: string, rest: string) returns (kept: string)
    requires word != "" && !IsSpace(word[0]) && !IsSpace(word[|word| - 1])
    ensures Trim(word + rest) == word + kept && kept <= rest
  {
    hide Trim;
    var s := word + rest;
    var lead := TrimSplits(s);
    assert s[0] == word[0] && s[|word| - 1] == word[|word| - 1];
    assert lead == 0;
    var n := |Trim(s)|;
    assert n >= |word|;
    kept := rest[..n - |word|];
    assert s[..n] == word + kept;
  }

  lemma {:induction false} UpperIsBare(word: string, upper: string)
    requires Spelled(word, upper) && forall i | 0 <= i < |upper| :: 'A' <= upper[i] <= 'Z'
    ensures |word| == |upper| && forall i | 0 <= i < |word| :: IsLetter(word[i])
  {
    forall i | 0 <= i < |word| ensures IsLetter(word[i]) {
      assert Upper(word)[i] == UpperChar(word[i]) == upper[i];
    }
  }

  lemma ClauseIsBare(word: string)
    requires ClauseWord(word)
    ensures Bare(word) && |word| >= 5 && (forall i | 0 <= i < |word| :: IsLetter(word[i])) && IsClause(Upper(word))
  {
    hide IsIdentifierPart, Trim;
    var upper := Upper(word);
    assert forall i | 0 <= i < |upper| :: 'A' <= upper[i] <= 'Z';
    UpperIsBare(word, upper);
    assert forall i | 0 <= i < |word| :: IsIdentifierPart(word[i]) by {
      LettersArePart(word);
    }
    TrimFixed(upper);
    assert Upper(upper) == upper;
  }

  lemma LettersArePart(word: string)
    requires forall i | 0 <= i < |word| :: IsLetter(word[i])
    ensures forall i | 0 <= i < |word| :: IsIdentifierPart(word[i])
  {
  }

  // ---- what follows the table ----

  lemma SuffixIs(pre: string, x: string)
    ensures (pre + x)[|pre|..] == x
  {
  }

  lemma AtText(pre: string, x: string)
    requires x != "" && !IsSQLSpace(x[0])
    ensures var s := pre + x;
        |pre| < |s| && s[|pre|] == x[0] && SkipSpace(s, |pre|) == |pre| && (CommaAt(s, |pre|) <==> x[0] == ',')
  {
    assert (pre + x)[|pre|] == x[0];
  }

  lemma NothingFollows(pre: string, ref: TableRef)
    ensures WithAlias(pre, |pre|, ref) == Some(ref)
  {
  }

  lemma CommaFollows(pre: string, rest: string, ref: TableRef)
    ensures WithAlias(pre + ("," + rest), |pre|, ref) == None
  {
    AtText(pre, "," + rest);
  }

  /** A clause word is no alias. */
  lemma ClauseFollows(pre: string, word: string, rest: string, ref: TableRef)
    requires ClauseWord(word) && Separate(rest)
    ensures WithAlias(pre + (word + rest), |pre|, ref) == Some(ref)
  {
    hide Trim, IsClause, ClauseWord, StartsJoin;
    var x := word + rest;
    ClauseIsBare(word);
    assert x[0] == word[0];
    AtText(pre, x);
    SuffixIs(pre, x);
    var kept := TrimAfterWord(word, rest);
    assert kept != "" ==> kept[0] == rest[0];
    BareReread("", word, kept);
    assert "" + word + kept == word + kept;
  }

  /** How the driver recognizes a keyword at the start of a text. */
  lemma BeginsIs(x: string, upper: string, keyword: string)
    requires Upper(keyword) == upper && forall i | 0 <= i < |upper| :: 'A' <= upper[i] <= 'Z'
    requires upper != "" && (x != "" ==> !IsSpace(x[0]))
    ensures StartsWithKeyword(x, keyword) <==> Begins(x, upper)
  {
    hide Trim;
    var n := |upper|;
    var lead := TrimSplits(x);
    var t := Trim(x);
    if x != "" {
      assert x[0] == x[..1][0] && lead == 0;
      assert t == x[..|t|];
    }
    if n <= |x| && Spelled(x[..n], upper) {
      UpperIsBare(x[..n], upper);
      assert x[n - 1] == x[..n][n - 1];
      assert |t| >= n && t[..n] == x[..n];
      assert |t| > n ==> t[n] == x[n];
      assert |t| == n && |x| > n ==> IsSpace(x[n]);
    } else if n <= |t| {
      assert t[..n] == x[..n];
    }
  }

  lemma JoinIs(x: string)
    requires x != "" ==> !IsSpace(x[0])
    ensures StartsJoin(x) <==> JoinWord(x)
  {
    hide Begins, StartsWithKeyword;
    BeginsIs(x, "JOIN", "join");
    BeginsIs(x, "INNER", "inner");
    BeginsIs(x, "LEFT", "left");
    BeginsIs(x, "RIGHT", "right");
    BeginsIs(x, "FULL", "full");
    BeginsIs(x, "CROSS", "cross");
  }

  /** A word that begins like a join word is no clause word. */
  lemma JoinIsNoClause(word: string)
    requires Bare(word)
    requires |word| >= 4 && (Spelled(word[..4], "JOIN") || Spelled(word[..4], "LEFT") || Spelled(word[..4], "FULL")
      || (|word| >= 5 && (Spelled(word[..5], "INNER") || Spelled(word[..5], "RIGHT") || Spelled(word[..5], "CROSS"))))
    ensures !IsClause(Upper(word))
  {
    hide Trim;
    var u := Upper(word);
    assert Upper(word[..4]) == u[..4] && (|word| >= 5 ==> Upper(word[..5]) == u[..5]);
    NotSpace(word);
    TrimFixed(u);
    assert Upper(u) == u;
    assert u[0] == u[..4][0] && u[1] == u[..4][1] && u[2] == u[..4][2];
    assert |word| >= 5 ==> u[0] == u[..5][0] && u[1] == u[..5][1] && u[2] == u[..5][2];
  }

  lemma NotSpace(word: string)
    requires Bare(word)
    ensures !IsSpace(word[0]) && !IsSpace(word[|word| - 1])
    ensures !IsSpace(Upper(word)[0]) && !IsSpace(Upper(word)[|word| - 1])
  {
  }

  /** The identifier that a text starts with. */
  lemma WordOf(x: string) returns (word: string, rest: string)
    requires x != "" && IsIdentifierStart(x[0])
    ensures x == word + rest && Bare(word) && Separate(rest)
  {
    var end := IdentifierEnd(x, 1);
    word, rest := x[..end], x[end..];
    assert forall i | 0 <= i < end :: word[i] == x[i];
  }

  lemma JoinStarts(x: string)
    requires JoinWord(x)
    ensures |x| >= 4 && forall i | 0 <= i < 4 :: IsLetter(x[i])
    ensures Spelled(x[..4], "JOIN") || Spelled(x[..4], "LEFT") || Spelled(x[..4], "FULL")
      || (|x| >= 5 && IsLetter(x[4]) && (Spelled(x[..5], "INNER") || Spelled(x[..5], "RIGHT")
          || Spelled(x[..5], "CROSS")))
  {
    var n := if Begins(x, "JOIN") || Begins(x, "LEFT") || Begins(x, "FULL") then 4 else 5;
    UpperIsBare(x[..n], Upper(x[..n]));
    assert forall i | 0 <= i < n :: x[i] == x[..n][i];
  }

  lemma WordCovers(x: string, word: string, rest: string, n: nat)
    requires x == word + rest && Separate(rest) && n <= |x| && forall i | 0 <= i < n :: IsLetter(x[i])
    ensures n <= |word| && word[..n] == x[..n]
  {
    assert rest != "" ==> x[|word|] == rest[0];
  }

  /** The word that begins with a join word is not a clause word. */
  lemma JoinWordOf(x: string, word: string, rest: string)
    requires JoinWord(x) && x == word + rest && Bare(word) && Separate(rest)
    ensures !IsClause(Upper(word))
  {
    hide JoinWord, Bare, Spelled, IsClause;
    JoinStarts(x);
    if |x| >= 5 && IsLetter(x[4]) {
      WordCovers(x, word, rest, 5);
      assert word[..4] == word[..5][..4] && x[..4] == x[..5][..4];
    } else {
      WordCovers(x, word, rest, 4);
    }
    JoinIsNoClause(word);
  }

  lemma FirstIsStart(x: string)
    requires JoinWord(x)
    ensures x != "" && IsIdentifierStart(x[0]) && !IsSpace(x[0]) && x[0] != ','
  {
    hide JoinWord;
    JoinStarts(x);
  }

  lemma NextIsClause(x: string, word: string, rest: string)
    requires x == word + rest && Bare(word) && Separate(rest)
    ensures NextKeywordIsClause(x) <==> IsClause(Upper(word))
  {
    hide Trim, IsClause;
    NotSpace(word);
    var kept := TrimAfterWord(word, rest);
    assert kept != "" ==> kept[0] == rest[0];
    BareReread("", word, kept);
    assert "" + word + kept == word + kept;
  }

  /** A join is not a statement over one table. */
  lemma JoinFollows(pre: string, x: string, ref: TableRef)
    requires JoinWord(x)
    ensures WithAlias(pre + x, |pre|, ref) == None
  {
    hide NextKeywordIsClause, IsClause, StartsJoin, JoinWord;
    FirstIsStart(x);
    AtText(pre, x);
    SuffixIs(pre, x);
    var word, rest := WordOf(x);
    JoinWordOf(x, word, rest);
    NextIsClause(x, word, rest);
    JoinIs(x);
  }

  // ---- the alias ----

  /** What must not follow the alias of the one table: a comma, or a join word after white space. */
  predicate MoreTables(rest: string) {
    (exists i: nat :: i < |rest| && rest[i] == ',' && Blank(rest[..i])) || JoinWord(Trim(rest))
  }

  /** No name of a clause, as a token: a delimited name counts by what it names, without outer white space. */
  predicate NoClause(name: string) { !ClauseWord(Trim(name)) }

  lemma ClauseIs(name: string)
    ensures IsClause(name) <==> !NoClause(name)
  {
    hide Trim;
  }

  lemma CommaIs(pre: string, rest: string)
    ensures CommaAt(pre + rest, |pre|) <==> exists i: nat :: i < |rest| && rest[i] == ',' && Blank(rest[..i])
  {
    var s := pre + rest;
    var p := SkipSpace(s, |pre|);
    assert forall i | 0 <= i < |rest| :: s[|pre| + i] == rest[i];
    if p < |s| && s[p] == ',' {
      var i := p - |pre|;
      assert rest[i] == ',' && Blank(rest[..i]);
    }
    if i: nat :| i < |rest| && rest[i] == ',' && Blank(rest[..i]) {
      assert forall k | 0 <= k < i :: rest[..i][k] == rest[k];
      SkipSpaceIs(s, |pre|, |pre| + i);
    }
  }

  lemma JoinTrimmed(y: string)
    ensures StartsJoin(y) <==> JoinWord(Trim(y))
  {
    hide Trim, JoinWord;
    var _ := TrimSplits(y);
    TrimTwice(y);
    JoinIs(Trim(y));
  }

  /** What the driver looks at behind the alias. */
  lemma AfterAlias(pre: string, rest: string)
    ensures var s := pre + rest; var after := SkipSpace(s, |pre|);
      after <= |s| && (CommaAt(s, after) || StartsJoin(s[after..]) <==> MoreTables(rest))
  {
    hide Trim, StartsJoin, JoinWord;
    var s := pre + rest;
    var after := SkipSpace(s, |pre|);
    var gap, y := rest[..after - |pre|], rest[after - |pre|..];
    assert SkipSpace(s, after) == after;
    CommaIs(pre, rest);
    assert forall i | 0 <= i < |gap| :: gap[i] == s[|pre| + i];
    assert gap + y == rest && s[after..] == y;
    TrimSkips(gap, y);
    JoinTrimmed(y);
  }

  /** Any other token is the alias. */
  lemma AliasFollows(pre: string, a: Token, rest: string, ref: TableRef)
    requires WellFormed(a) && EndsToken(rest) && NoClause(a.name) && (a.quoted || !JoinWord(a.text))
    ensures WithAlias(pre + (a.text + rest), |pre|, ref)
      == if MoreTables(rest) then None else Some(ref.(alias := a.name, aliasText := a.text))
  {
    hide NextKeywordIsClause, IsClause, StartsJoin, JoinWord, MoreTables, NoClause, WellFormed, CommaAt;
    var x := a.text + rest;
    TokenStarts(a);
    assert x[0] == a.text[0];
    AtText(pre, x);
    SuffixIs(pre, x);
    ClauseIs(a.name);
    AliasIsNoClause(a, rest);
    AliasIsNoJoin(a, rest);
    assert pre + x == pre + a.text + rest;
    TokenReread(pre, a, rest);
    AfterAlias(pre + a.text, rest);
  }

  lemma TokenStarts(a: Token)
    requires WellFormed(a)
    ensures a.text != "" && !IsSpace(a.text[0]) && !IsSpace(a.text[|a.text| - 1]) && a.text[0] !in ",.("
    ensures a.quoted ==> a.text[0] == '"'
    ensures !a.quoted ==> Bare(a.text)
  {
  }

  lemma AliasIsNoClause(a: Token, rest: string)
    requires WellFormed(a) && EndsToken(rest) && !IsClause(a.name)
    ensures !NextKeywordIsClause(a.text + rest)
  {
    hide IsClause, Trim, WellFormed;
    TokenStarts(a);
    var kept := TrimAfterWord(a.text, rest);
    assert kept != "" ==> kept[0] == rest[0];
    TokenReread("", a, kept);
    assert "" + a.text + kept == a.text + kept;
  }

  /** A bare word is no join word if it does not begin with one; what follows it makes no difference. */
  lemma AliasIsNoJoin(a: Token, rest: string)
    requires WellFormed(a) && EndsToken(rest) && (a.quoted || !JoinWord(a.text))
    ensures !StartsJoin(a.text + rest)
  {
    hide WellFormed, StartsJoin;
    var x := a.text + rest;
    TokenStarts(a);
    assert x[0] == a.text[0];
    JoinIs(x);
    if JoinWord(x) {
      JoinStarts(x);
      assert !a.quoted;
      JoinWithin(a.text, rest, "JOIN");
      JoinWithin(a.text, rest, "INNER");
      JoinWithin(a.text, rest, "LEFT");
      JoinWithin(a.text, rest, "RIGHT");
      JoinWithin(a.text, rest, "FULL");
      JoinWithin(a.text, rest, "CROSS");
    }
  }

  lemma JoinWithin(word: string, rest: string, upper: string)
    requires Bare(word) && Separate(rest) && forall i | 0 <= i < |upper| :: 'A' <= upper[i] <= 'Z'
    ensures Begins(word + rest, upper) ==> Begins(word, upper)
  {
    var x := word + rest;
    var n := |upper|;
    if Begins(x, upper) {
      UpperIsBare(x[..n], upper);
      assert forall i | 0 <= i < n :: x[i] == x[..n][i];
      WordCovers(x, word, rest, n);
      assert n < |word| ==> x[n] == word[n];
    }
  }

  /** A character that starts no token: the table has no alias. */
  lemma OtherFollows(pre: string, x: string, ref: TableRef)
    requires x != "" && !IsSpace(x[0]) && !IsIdentifierStart(x[0]) && x[0] != '"' && x[0] != ','
    ensures WithAlias(pre + x, |pre|, ref) == Some(ref)
  {
    hide Trim, StartsJoin, IsClause, JoinWord;
    AtText(pre, x);
    SuffixIs(pre, x);
    JoinIs(x);
    if JoinWord(x) {
      FirstIsStart(x);
    }
    var lead := TrimSplits(x);
    assert x[lead] == Trim(x)[0] || Trim(x) == "";
    FirstKept(x);
  }

  lemma FirstKept(x: string)
    requires x != "" && !IsSpace(x[0])
    ensures Trim(x) != "" && Trim(x)[0] == x[0]
  {
    hide Trim;
    var lead := TrimSplits(x);
    assert lead == 0;
  }

  // ---- the table ----

  ghost predicate OneName(pre: string, ref: TableRef, lead: string, t: Token, gap: string) {
    Blank(lead) && WellFormed(t) && Blank(gap) && pre == lead + t.text + gap && ref == TableRef("", t.name, "", "")
  }

  ghost predicate TwoNames(pre: string, ref: TableRef, lead: string, u: Token, g: string, h: string, t: Token,
      gap: string) {
    && Blank(lead) && WellFormed(u) && Blank(g) && Blank(h) && WellFormed(t) && Blank(gap)
    && pre == lead + u.text + g + "." + h + t.text + gap && ref == TableRef(u.name, t.name, "", "")
  }

  /** The text names a table, with or without its schema, and only blanks are around the names. */
  ghost predicate TableText(pre: string, ref: TableRef) {
    || (exists lead, t, gap :: OneName(pre, ref, lead, t, gap))
    || (exists lead, u, g, h, t, gap :: TwoNames(pre, ref, lead, u, g, h, t, gap))
  }

  /** What goes on after the blanks, and does not run into the name. */
  predicate GoesOn(pre: string, x: string) {
    x != "" ==>
      x[0] != '.' && !IsSpace(x[0]) && (EndsToken(x) || (pre != "" && Blank(pre[|pre| - 1..])))
  }

  lemma TokenHere(s: string, i: nat, j: nat, t: Token)
    requires i <= j <= |s| && s[i..j] == t.text && WellFormed(t) && EndsToken(s[j..])
    ensures ReadToken(s, i) == TokenAt(t, j) && i < j && s[i] !in ",.( "
  {
    hide WellFormed, ReadToken;
    TokenStarts(t);
    assert s[..i] + t.text + s[j..] == s;
    assert s[i] == t.text[0];
    TokenReread(s[..i], t, s[j..]);
  }

  lemma BlankHere(s: string, i: nat, j: nat)
    requires i <= j <= |s| && Blank(s[i..j]) && (j < |s| ==> !IsSQLSpace(s[j]))
    ensures SkipSpace(s, i) == j
  {
    assert forall k | i <= k < j :: s[k] == s[i..j][k - i];
    SkipSpaceIs(s, i, j);
  }

  lemma StartsNoBlank(t: Token)
    requires WellFormed(t)
    ensures t.text != "" && !IsSQLSpace(t.text[0])
  {
  }

  /** Blanks, a name, blanks, by their positions. */
  ghost predicate NameIn(s: string, i: nat, a: nat, b: nat, c: nat, t: Token) {
    && i <= a <= b <= c <= |s| && Blank(s[i..a]) && s[a..b] == t.text && Blank(s[b..c])
    && WellFormed(t) && EndsToken(s[b..]) && (c < |s| ==> !IsSQLSpace(s[c]))
  }

  lemma NameRead(s: string, i: nat, a: nat, b: nat, c: nat, t: Token)
    requires NameIn(s, i, a, b, c, t)
    ensures SkipSpace(s, i) == a < b <= c <= |s| && s[a] != '(' && ReadToken(s, a) == TokenAt(t, b)
        && SkipSpace(s, b) == c
  {
    hide WellFormed, ReadToken, SkipSpace, Blank, EndsToken;
    TokenHere(s, a, b, t);
    StartsNoBlank(t);
    assert s[a] == s[a..b][0];
    BlankHere(s, i, a);
    BlankHere(s, b, c);
  }

  lemma OneNameRead(s: string, a: nat, b: nat, c: nat, t: Token)
    requires NameIn(s, 0, a, b, c, t) && c <= |s| && (c < |s| ==> s[c] != '.')
    ensures ParseTableRef(s) == WithAlias(s, c, TableRef("", t.name, "", ""))
  {
    hide WithAlias, ReadToken, SkipSpace, NameIn;
    NameRead(s, 0, a, b, c, t);
  }

  lemma TwoNamesRead(s: string, a: nat, b: nat, d: nat, u: Token, e: nat, f: nat, c: nat, t: Token)
    requires NameIn(s, 0, a, b, d, u) && d < |s| && s[d] == '.' && NameIn(s, d + 1, e, f, c, t)
    ensures ParseTableRef(s) == WithAlias(s, c, TableRef(u.name, t.name, "", ""))
  {
    hide WithAlias, ReadToken, SkipSpace, NameIn;
    NameRead(s, 0, a, b, d, u);
    NameRead(s, d + 1, e, f, c, t);
  }

  /** The seam between the last name and what goes on. */
  lemma SeamEnds(before: string, t: Token, gap: string, x: string)
    requires WellFormed(t) && Blank(gap) && GoesOn(before + t.text + gap, x)
    ensures EndsToken(gap + x)
  {
    var pre := before + t.text + gap;
    TokenStarts(t);
    if gap == "" && x != "" {
      assert pre[|pre| - 1..][0] == t.text[|t.text| - 1];
      assert gap + x == x;
    }
  }

  lemma DotEnds(g: string, rest: string)
    requires Blank(g)
    ensures EndsToken(g + ("." + rest))
  {
  }

  lemma OneNameParts(lead: string, name: string, gap: string, x: string)
    ensures var s := lead + name + gap + x; var b := |lead| + |name|; var c := b + |gap|;
      && c <= |s| && s[0..|lead|] == lead && s[|lead|..b] == name && s[b..c] == gap && s[b..] == gap + x
      && (x != "" ==> c < |s| && s[c] == x[0])
  {
  }

  lemma RegroupTwo(a: string, b: string, c: string, y: string)
    ensures a + b + c + "." + y == a + b + c + ("." + y) && |a + b + c + "."| == |a| + |b| + |c| + 1
    ensures (a + b + c + "." + y)[|a| + |b| + |c|] == '.'
  {
  }

  lemma RegroupFour(p: string, h: string, name: string, gap: string, x: string)
    ensures p + h + name + gap + x == p + (h + name + gap + x)
  {
  }

  lemma SecondNameParts(head: string, h: string, name: string, gap: string, x: string)
    ensures var s := head + (h + name + gap + x);
      var e := |head| + |h|; var f := e + |name|; var c := f + |gap|;
      && c <= |s| && s[|head|..e] == h && s[e..f] == name && s[f..c] == gap && s[f..] == gap + x
      && (x != "" ==> c < |s| && s[c] == x[0])
  {
    var y := h + name + gap + x;
    OneNameParts(h, name, gap, x);
    SuffixSlices(head, y);
    assert x != "" ==> (head + y)[|head| + |h| + |name| + |gap|] == y[|h| + |name| + |gap|];
  }

  lemma SuffixSlices(head: string, y: string)
    ensures var s := head + y;
      && (forall i, j | 0 <= i <= j <= |y| :: s[|head| + i..|head| + j] == y[i..j])
      && (forall i | 0 <= i <= |y| :: s[|head| + i..] == y[i..])
  {
  }

  lemma SpacesAfter(pre: string, x: string)
    requires GoesOn(pre, x)
    ensures x != "" ==> !IsSQLSpace(x[0]) && x[0] != '.'
  {
  }

  lemma OneNameIn(pre: string, ref: TableRef, lead: string, t: Token, gap: string, x: string)
    requires OneName(pre, ref, lead, t, gap) && GoesOn(pre, x)
    ensures NameIn(pre + x, 0, |lead|, |lead| + |t.text|, |pre|, t)
        && (x != "" ==> |pre| < |pre + x| && (pre + x)[|pre|] != '.')
  {
    hide WellFormed, GoesOn, Blank, EndsToken;
    SpacesAfter(pre, x);
    OneNameParts(lead, t.text, gap, x);
    SeamEnds(lead, t, gap, x);
  }

  lemma OneNameText(pre: string, ref: TableRef, lead: string, t: Token, gap: string, x: string)
    requires OneName(pre, ref, lead, t, gap) && GoesOn(pre, x)
    ensures ParseTableRef(pre + x) == WithAlias(pre + x, |pre|, ref)
  {
    hide ParseTableRef, WithAlias, NameIn, GoesOn, WellFormed, Blank;
    OneNameIn(pre, ref, lead, t, gap, x);
    OneNameRead(pre + x, |lead|, |lead| + |t.text|, |pre|, t);
  }

  lemma FirstNameIn(lead: string, u: Token, g: string, y: string)
    requires Blank(lead) && WellFormed(u) && Blank(g)
    ensures var s := lead + u.text + g + ("." + y); var d := |lead| + |u.text| + |g|;
      NameIn(s, 0, |lead|, |lead| + |u.text|, d, u) && d < |s| && s[d] == '.'
  {
    hide WellFormed, Blank, EndsToken;
    OneNameParts(lead, u.text, g, "." + y);
    DotEnds(g, y);
  }

  lemma SecondNameIn(head: string, h: string, t: Token, gap: string, x: string)
    requires Blank(h) && WellFormed(t) && Blank(gap) && GoesOn(head + h + t.text + gap, x)
    ensures var s := head + (h + t.text + gap + x); var e := |head| + |h|; var f := e + |t.text|;
      NameIn(s, |head|, e, f, f + |gap|, t)
  {
    hide WellFormed, Blank, EndsToken, GoesOn;
    SpacesAfter(head + h + t.text + gap, x);
    SecondNameParts(head, h, t.text, gap, x);
    SeamEnds(head + h, t, gap, x);
  }

  lemma TwoNamesIn(pre: string, ref: TableRef, lead: string, u: Token, g: string, h: string, t: Token, gap: string,
      x: string)
    requires TwoNames(pre, ref, lead, u, g, h, t, gap) && GoesOn(pre, x)
    ensures var b := |lead| + |u.text|; var d := b + |g|; var e := d + 1 + |h|; var s := pre + x;
      NameIn(s, 0, |lead|, b, d, u) && d < |s| && s[d] == '.' && NameIn(s, d + 1, e, e + |t.text|, |pre|, t)
  {
    hide NameIn, WellFormed, Blank, GoesOn;
    var head, y := lead + u.text + g + ".", h + t.text + gap + x;
    RegroupFour(head, h, t.text, gap, x);
    RegroupTwo(lead, u.text, g, y);
    FirstNameIn(lead, u, g, y);
    SecondNameIn(head, h, t, gap, x);
  }

  lemma TwoNamesText(pre: string, ref: TableRef, lead: string, u: Token, g: string, h: string, t: Token, gap: string,
      x: string)
    requires TwoNames(pre, ref, lead, u, g, h, t, gap) && GoesOn(pre, x)
    ensures ParseTableRef(pre + x) == WithAlias(pre + x, |pre|, ref)
  {
    hide ParseTableRef, WithAlias, NameIn, GoesOn, WellFormed, Blank;
    TwoNamesIn(pre, ref, lead, u, g, h, t, gap, x);
    var b := |lead| + |u.text|;
    var e := b + |g| + 1 + |h|;
    TwoNamesRead(pre + x, |lead|, b, b + |g|, u, e, e + |t.text|, |pre|, t);
  }

  lemma TableRead(pre: string, x: string, ref: TableRef)
    requires TableText(pre, ref) && GoesOn(pre, x)
    ensures ParseTableRef(pre + x) == WithAlias(pre + x, |pre|, ref)
  {
    hide ParseTableRef, WithAlias, OneName, TwoNames, GoesOn;
    if lead, t, gap :| OneName(pre, ref, lead, t, gap) {
      OneNameText(pre, ref, lead, t, gap, x);
    } else {
      var lead, u, g, h, t, gap :| TwoNames(pre, ref, lead, u, g, h, t, gap);
      TwoNamesText(pre, ref, lead, u, g, h, t, gap, x);
    }
  }

  // ---- the theorems ----

  /** A table followed by a clause, in any letter case, has no alias; the same if nothing follows it. */
  lemma TableThenClause(pre: string, word: string, rest: string, ref: TableRef)
    requires TableText(pre, ref) && ClauseWord(word) && Separate(rest) && GoesOn(pre, word + rest)
    ensures ParseTableRef(pre + (word + rest)) == Some(ref) && ParseTableRef(pre) == Some(ref)
    ensures ref.alias == "" && ref.aliasText == ""
  {
    hide ParseTableRef, WithAlias, ClauseWord, GoesOn, TableText;
    TableRead(pre, word + rest, ref);
    ClauseFollows(pre, word, rest, ref);
    TableAlone(pre, ref);
  }

  lemma TableAlone(pre: string, ref: TableRef)
    requires TableText(pre, ref)
    ensures ParseTableRef(pre) == Some(ref) && ref.alias == "" && ref.aliasText == ""
  {
    hide ParseTableRef, WithAlias;
    assert pre + "" == pre;
    TableRead(pre, "", ref);
    NothingFollows(pre, ref);
  }

  /** A table followed by a token that is none of the twelve clause words and no join word: the token is its
      alias, unless a comma or a join follows. */
  lemma TableThenAlias(pre: string, a: Token, rest: string, ref: TableRef)
    requires TableText(pre, ref) && WellFormed(a) && EndsToken(rest) && GoesOn(pre, a.text + rest)
    requires NoClause(a.name) && (a.quoted || !JoinWord(a.text))
    ensures ParseTableRef(pre + (a.text + rest))
      == if MoreTables(rest) then None else Some(ref.(alias := a.name, aliasText := a.text))
  {
    hide ParseTableRef, WithAlias, WellFormed, GoesOn, TableText, NoClause, JoinWord, MoreTables;
    TableRead(pre, a.text + rest, ref);
    AliasFollows(pre, a, rest, ref);
  }

  /** A table followed by anything that starts no token, as a parenthesis or a digit, has no alias. */
  lemma TableThenOther(pre: string, x: string, ref: TableRef)
    requires TableText(pre, ref) && GoesOn(pre, x)
    requires x != "" && !IsSpace(x[0]) && !IsIdentifierStart(x[0]) && x[0] != '"' && x[0] != ','
    ensures ParseTableRef(pre + x) == Some(ref)
  {
    hide ParseTableRef, WithAlias, TableText, GoesOn;
    TableRead(pre, x, ref);
    OtherFollows(pre, x, ref);
  }

  /** A table followed by a comma or a join is not read as the one table of the statement. */
  lemma TableThenMore(pre: string, x: string, ref: TableRef)
    requires TableText(pre, ref) && GoesOn(pre, x) && (JoinWord(x) || (x != "" && x[0] == ','))
    ensures ParseTableRef(pre + x) == None
  {
    hide ParseTableRef, WithAlias, GoesOn, TableText, JoinWord;
    TableRead(pre, x, ref);
    if JoinWord(x) {
      JoinFollows(pre, x, ref);
    } else {
      assert x == "," + x[1..];
      CommaFollows(pre, x[1..], ref);
    }
  }

  /** A parenthesis after FROM is not read as a table. */
  lemma ParenIsNoTable(lead: string, rest: string)
    requires Blank(lead)
    ensures ParseTableRef(lead + "(" + rest) == None && ParseTableRef(lead) == None
  {
    assert ("(" + rest)[0] == '(';
    BlankSkips("", lead, "(" + rest);
    assert "" + lead + ("(" + rest) == lead + "(" + rest;
    BlankSkips("", lead, "");
    assert "" + lead + "" == lead;
  }
}
