/** tnsnames.ora in its own words: comments, quotes, parentheses, includes, and how deep they may go. */
module TnsText {
  import opened Text
  import opened Tns
  import opened TnsLayout

  /** No quote and no hash. */
  predicate NoMarks(s: string) { forall i | 0 <= i < |s| :: s[i] != '\'' && s[i] != '"' && s[i] != '#' }

  // ---- comments ----

  lemma {:induction false} StripPlain(q: Quote, a: string, rest: string)
    requires q == None && NoMarks(a)
    ensures StripFrom(q, a + rest) == a + StripFrom(q, rest) && RunQuote(q, a) == q
    decreases |a|
  {
    if a == "" {
      assert a + rest == rest;
    } else {
      assert (a + rest)[1..] == a[1..] + rest;
      StripPlain(q, a[1..], rest);
      assert [a[0]] + (a[1..] + StripFrom(q, rest)) == a + StripFrom(q, rest);
    }
  }

  lemma {:induction false} StripQuoted(c: char, body: string, rest: string)
    requires (c == '\'' || c == '"') && c !in body
    ensures StripFrom(Some(c), body + [c] + rest) == body + [c] + StripFrom(None, rest)
    ensures StripFrom(Some(c), body) == body && RunQuote(Some(c), body + [c]) == None
    decreases |body|
  {
    var s := body + [c] + rest;
    if body == "" {
      assert s[0] == c && s[1..] == rest;
      assert (body + [c])[1..] == "";
    } else {
      assert s[0] == body[0] && s[1..] == body[1..] + [c] + rest;
      assert (body + [c])[1..] == body[1..] + [c];
      StripQuoted(c, body[1..], rest);
      assert [body[0]] + (body[1..] + [c] + StripFrom(None, rest)) == body + [c] + StripFrom(None, rest);
      assert [body[0]] + body[1..] == body;
    }
  }

  /** A line is cut at the first hash outside quotes; a text in single or double quotes is kept with all its
      hashes, and a quote that is not closed keeps the rest of the line. */
  lemma CommentIsCut(a: string, c: char, body: string, b: string, comment: string)
    requires NoMarks(a) && NoMarks(b) && (c == '\'' || c == '"') && c !in body
    ensures StripFrom(None, a) == a && StripFrom(None, a + ("#" + comment)) == a
    ensures StripFrom(None, a + ([c] + (body + [c] + (b + ("#" + comment))))) == a + ([c] + (body + [c] + b))
    ensures StripFrom(None, a + ([c] + body)) == a + ([c] + body)
  {
    assert a + "" == a && b + "" == b;
    StripPlain(None, a, "");
    StripPlain(None, a, "#" + comment);
    StripPlain(None, b, "#" + comment);
    var rest := b + ("#" + comment);
    StripQuoted(c, body, rest);
    QuoteOpens(c, body + [c] + rest);
    StripPlain(None, a, [c] + (body + [c] + rest));
    QuoteOpens(c, body);
    StripPlain(None, a, [c] + body);
  }

  lemma QuoteOpens(c: char, s: string)
    requires c == '\'' || c == '"'
    ensures StripFrom(None, [c] + s) == [c] + StripFrom(Some(c), s)
  {
    assert ([c] + s)[1..] == s;
  }

  // ---- parentheses ----

  function Count(s: string, c: char): nat {
    if s == "" then 0 else (if s[0] == c then 1 else 0) + Count(s[1..], c)
  }

  /** Outside quotes the depth is the opening parentheses less the closing ones. */
  lemma {:induction false} DeltaCounts(s: string)
    requires NoMarks(s)
    ensures Delta(s) == Count(s, '(') - Count(s, ')') && RunQuote(None, s) == None
  {
    if s != "" {
      DeltaCounts(s[1..]);
    }
  }

  lemma {:induction false} QuotedDelta(c: char, body: string)
    requires (c == '\'' || c == '"') && c !in body
    ensures DeltaFrom(Some(c), body + [c]) == 0 && RunQuote(Some(c), body + [c]) == None
  {
    if body == "" {
      assert (body + [c])[1..] == "";
    } else {
      assert (body + [c])[1..] == body[1..] + [c];
      QuotedDelta(c, body[1..]);
    }
  }

  /** Parentheses in quotes do not count. */
  lemma QuotesDoNotCount(a: string, c: char, body: string, b: string)
    requires NoMarks(a) && NoMarks(b) && (c == '\'' || c == '"') && c !in body
    ensures Delta(a + ([c] + (body + [c]) + b)) == Count(a, '(') - Count(a, ')') + Count(b, '(') - Count(b, ')')
  {
    DeltaCounts(a);
    DeltaCounts(b);
    QuotedDelta(c, body);
    var quoted := [c] + (body + [c]);
    assert quoted[1..] == body + [c];
    DeltaConcat(None, quoted, b);
    DeltaConcat(None, a, quoted + b);
  }

  // ---- includes ----

  predicate NoQuoteEnds(s: string) {
    s != "" ==> s[0] != '"' && s[0] != '\'' && s[|s| - 1] != '"' && s[|s| - 1] != '\''
  }

  /** A path may stand in quotes. */
  lemma QuotedPath(path: string)
    requires NoQuoteEnds(path)
    ensures TrimQuotes(path) == path && TrimQuotes("\"" + path + "\"") == path && TrimQuotes("'" + path + "'") == path
  {
    TrimQuotesOf(path, '"');
    TrimQuotesOf(path, '\'');
  }

  lemma TrimQuotesOf(path: string, c: char)
    requires NoQuoteEnds(path) && (c == '"' || c == '\'')
    ensures TrimQuotes([c] + path + [c]) == path
  {
    var s := [c] + path + [c];
    assert s[1..] == path + [c];
    var t := path + [c];
    assert t[|t| - 1] == c && t[..|t| - 1] == path;
    if path == "" {
      assert t == [c] && [c][1..] == "";
      assert TrimQuotes([c]) == TrimQuotes("") == "";
    } else {
      assert t[0] == path[0];
      assert TrimQuotes(s) == TrimQuotes(t) == TrimQuotes(path) == path;
    }
  }

  /** A line `IFILE = path`, in any letter case and with any white space around the key and the path, includes
      the file that the path resolves to, in the middle of the file but not inside an entry. */
  lemma IfileIncludes(key: string, g: string, h: string, path: string, p: Parse)
    requires Upper(key) == "IFILE" && (forall i | 0 <= i < |g| :: IsSpace(g[i]))
        && (forall i | 0 <= i < |h| :: IsSpace(h[i]))
    requires path != "" && !IsSpace(path[0]) && !IsSpace(path[|path| - 1])
    ensures var text := key + g + "=" + (h + path);
      && (IsInclude(p, text) <==> p.current == []) && ValueOf(text) == path
  {
    hide Trim;
    KeyEnds(key);
    var name := key + g;
    KeyIsPlain(key, g);
    CutAt(name, '=', h + path);
    TrimDropsTrailing(name, |key|);
    assert name[..|key|] == key;
    TrimFixed(key);
    TrimSkips(h, path);
    TrimFixed(path);
    assert Upper("IFILE") == "IFILE";
  }

  lemma KeyEnds(key: string)
    requires Upper(key) == "IFILE"
    ensures |key| == 5 && !IsSpace(key[0]) && !IsSpace(key[4])
    ensures forall i | 0 <= i < 5 :: key[i] != '='
  {
    assert forall i | 0 <= i < 5 :: UpperChar(key[i]) == Upper(key)[i] == "IFILE"[i];
  }

  lemma KeyIsPlain(key: string, g: string)
    requires Upper(key) == "IFILE" && forall i | 0 <= i < |g| :: IsSpace(g[i])
    ensures Without(key + g, '=')
  {
    KeyEnds(key);
  }

  /** Files may include each other eight deep; a file beyond that, and one that cannot be read, is an error, and
      one that was read before gives nothing. */
  lemma DepthIsEight(w: World, path: string, visited: set<string>, depth: nat)
    ensures depth > 8 ==> ReadFile(w, path, visited, depth) == Err("Oracle TNS include depth exceeds 8 files")
    ensures depth <= 8 && path in visited ==> ReadFile(w, path, visited, depth) == Ok((map[], visited))
    ensures depth <= 8 && path !in visited && path !in w.files ==>
        ReadFile(w, path, visited, depth) == Err("Failed to read Oracle TNS file")
  {
  }

  /** An include adds the aliases of the file, read one level deeper, to those before it; where both name the
      same alias the included one counts. */
  lemma IncludeAdds(w: World, path: string, text: string, rest: seq<string>, p: Parse, visited: set<string>, depth: nat)
    requires IsInclude(p, text)
    ensures var included := ReadFile(w, w.resolve(path, TrimQuotes(ValueOf(text))), visited, depth + 1);
      ReadTexts(w, path, [text] + rest, p, visited, depth) ==
        if included.Err? then Err(included.error)
        else ReadTexts(w, path, rest, p.(aliases := p.aliases + included.value.0), included.value.1, depth)
  {
    hide ReadFile, IsInclude, TrimQuotes, ValueOf;
    var texts := [text] + rest;
    assert texts[0] == text && texts[1..] == rest;
  }

  // ---- names ----

  /** An entry is stored under its name in upper case, without outer white space. */
  lemma OneName(aliases: map<string, string>, name: string, words: seq<string>)
    requires Without(name, ',')
    ensures Defined(aliases, name, words) ==
      if Trim(name) == "" then aliases else aliases[Upper(Trim(name)) := Join(words, " ")]
  {
    hide Trim, SplitOn;
    NoComma(name);
    OneStored(aliases, name, [], Join(words, " "));
    assert [name] + [] == [name];
  }

  lemma OneStored(aliases: map<string, string>, name: string, rest: seq<string>, value: string)
    ensures WithAliases(aliases, [name] + rest, value)
      == WithAliases(if Trim(name) == "" then aliases else aliases[Upper(Trim(name)) := value], rest, value)
  {
    hide Trim;
    assert ([name] + rest)[1..] == rest;
    assert Trim(name) == "" <==> Upper(Trim(name)) == "";
  }

  lemma NoComma(name: string)
    requires Without(name, ',')
    ensures SplitOn(name, ',') == [name]
  {
    assert IndexByte(name, ',') < 0;
  }

  /** With several names, between commas, under each of them. */
  lemma MoreNames(aliases: map<string, string>, name: string, more: string, words: seq<string>)
    requires Without(name, ',')
    ensures Defined(aliases, name + "," + more, words) == Defined(Defined(aliases, name, words), more, words)
  {
    hide Trim, SplitOn;
    NoComma(name);
    CommaSplits(name, more);
    OneStored(aliases, name, SplitOn(more, ','), Join(words, " "));
    OneStored(aliases, name, [], Join(words, " "));
    assert [name] + [] == [name];
  }

  lemma CommaSplits(name: string, more: string)
    requires Without(name, ',')
    ensures SplitOn(name + "," + more, ',') == [name] + SplitOn(more, ',')
  {
    CutAt(name, ',', more);
    assert IndexByte(name + "," + more, ',') >= 0;
  }
}
