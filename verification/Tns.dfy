/** The tnsnames.ora reader: comments, entries over several lines, and included files. */
module Tns {
  import opened Text

  // ---- quotes, comments and parentheses ----

  /** Which quote the scan is inside of, if any. */
  type Quote = Option<char>

  function NextQuote(q: Quote, c: char): Quote {
    if q == Some(c) then None
    else if q == None && (c == '\'' || c == '"') then Some(c)
    else q
  }

  function RunQuote(q: Quote, s: string): Quote
    decreases |s|
  {
    if s == "" then q else RunQuote(NextQuote(q, s[0]), s[1..])
  }

  function StripFrom(q: Quote, s: string): string
    decreases |s|
  {
    if s == "" || (q == None && s[0] == '#') then "" else [s[0]] + StripFrom(NextQuote(q, s[0]), s[1..])
  }

  method StripComment(line: string) returns (r: string)
    ensures r == StripFrom(None, line)
  {
    var quote: Quote := None;
    var index := 0;
    assert line[..0] == "" && line[0..] == line;
    while index < |line|
      invariant 0 <= index <= |line| && StripFrom(None, line) == line[..index] + StripFrom(quote, line[index..])
    {
      var c := line[index];
      assert line[index..][1..] == line[index + 1..] && line[..index] + [c] == line[..index + 1];
      if quote.Some? && c == quote.value {
        quote := None;
      } else if quote.None? && (c == '\'' || c == '"') {
        quote := Some(c);
      } else if quote.None? && c == '#' {
        return line[..index];
      }
      index := index + 1;
    }
    return line;
  }

  function Change(q: Quote, c: char): int {
    if q != None then 0 else if c == '(' then 1 else if c == ')' then -1 else 0
  }

  function DeltaFrom(q: Quote, s: string): int
    decreases |s|
  {
    if s == "" then 0 else Change(q, s[0]) + DeltaFrom(NextQuote(q, s[0]), s[1..])
  }

  function Delta(s: string): int { DeltaFrom(None, s) }

  method ParenthesisDelta(value: string) returns (delta: int)
    ensures delta == Delta(value)
  {
    delta := 0;
    var quote: Quote := None;
    for i := 0 to |value|
      invariant Delta(value) == delta + DeltaFrom(quote, value[i..])
    {
      var c := value[i];
      assert value[i..][1..] == value[i + 1..];
      if quote.Some? && c == quote.value {
        quote := None;
      } else if quote.None? && (c == '\'' || c == '"') {
        quote := Some(c);
      } else if quote.None? && c == '(' {
        delta := delta + 1;
      } else if quote.None? && c == ')' {
        delta := delta - 1;
      }
    }
  }

  lemma {:induction false} DeltaConcat(q: Quote, a: string, b: string)
    ensures RunQuote(q, a + b) == RunQuote(RunQuote(q, a), b)
    ensures DeltaFrom(q, a + b) == DeltaFrom(q, a) + DeltaFrom(RunQuote(q, a), b)
    decreases |a|
  {
    if a == "" {
      assert a + b == b;
    } else {
      assert (a + b)[1..] == a[1..] + b;
      DeltaConcat(NextQuote(q, a[0]), a[1..], b);
    }
  }

  // ---- words ----

  /** strings.Fields: the pieces between white space; `word` is the current one so far. */
  function WordsFrom(word: string, s: string): seq<string>
    decreases |s|
  {
    if s == "" then (if word == "" then [] else [word])
    else if IsSpace(s[0]) then (if word == "" then [] else [word]) + WordsFrom("", s[1..])
    else WordsFrom(word + [s[0]], s[1..])
  }

  function Words(s: string): seq<string> { WordsFrom("", s) }

  lemma {:induction false} WordsConcat(word: string, a: string, b: string)
    ensures WordsFrom(word, a + " " + b) == WordsFrom(word, a) + Words(b)
    decreases |a|
  {
    var s := a + " " + b;
    if a == "" {
      assert s[0] == ' ' && s[1..] == b;
    } else {
      assert s[1..] == a[1..] + " " + b;
      if IsSpace(a[0]) {
        WordsConcat("", a[1..], b);
      } else {
        WordsConcat(word + [a[0]], a[1..], b);
      }
    }
  }

  lemma {:induction false} WordsOfText(word: string, s: string)
    requires word != "" || exists i :: 0 <= i < |s| && !IsSpace(s[i])
    ensures WordsFrom(word, s) != []
    decreases |s|
  {
    if s != "" {
      if IsSpace(s[0]) {
        if word == "" {
          var i :| 0 <= i < |s| && !IsSpace(s[i]);
          assert s[1..][i - 1] == s[i];
          WordsOfText("", s[1..]);
        }
      } else {
        WordsOfText(word + [s[0]], s[1..]);
      }
    }
  }

  function Concat(words: seq<string>): string { if words == [] then "" else words[0] + Concat(words[1..]) }

  lemma {:induction false} ConcatAppend(a: seq<string>, b: seq<string>)
    ensures Concat(a + b) == Concat(a) + Concat(b)
  {
    if a == [] {
      assert a + b == b;
    } else {
      assert (a + b)[1..] == a[1..] + b;
      ConcatAppend(a[1..], b);
    }
  }

  function Squeezed(s: string): string {
    if s == "" then "" else (if IsSpace(s[0]) then "" else [s[0]]) + Squeezed(s[1..])
  }

  lemma {:induction false} WordsSqueezed(word: string, s: string)
    ensures Concat(WordsFrom(word, s)) == word + Squeezed(s)
    decreases |s|
  {
    if s != "" {
      if IsSpace(s[0]) {
        WordsSqueezed("", s[1..]);
        var rest := WordsFrom("", s[1..]);
        if word != "" {
          assert ([word] + rest)[1..] == rest;
        }
        assert Squeezed(s) == Squeezed(s[1..]) && [] + rest == rest;
      } else {
        WordsSqueezed(word + [s[0]], s[1..]);
      }
    }
  }

  lemma {:induction false} DeltaSqueezed(q: Quote, s: string)
    requires q.None? || q.value == '"' || q.value == '\''
    ensures RunQuote(q, Squeezed(s)) == RunQuote(q, s) && DeltaFrom(q, Squeezed(s)) == DeltaFrom(q, s)
    decreases |s|
  {
    if s != "" {
      DeltaSqueezed(NextQuote(q, s[0]), s[1..]);
      if !IsSpace(s[0]) {
        assert ([s[0]] + Squeezed(s[1..]))[1..] == Squeezed(s[1..]);
      } else {
        assert NextQuote(q, s[0]) == q && Squeezed(s) == Squeezed(s[1..]);
      }
    }
  }

  /** White space is neither quote nor parenthesis, so the words alone decide about both. */
  lemma DeltaOfWords(s: string)
    ensures RunQuote(None, Concat(Words(s))) == RunQuote(None, s) && Delta(Concat(Words(s))) == Delta(s)
  {
    WordsSqueezed("", s);
    DeltaSqueezed(None, s);
    assert "" + Squeezed(s) == Squeezed(s);
  }

  // ---- one file ----

  /** What the reader knows while it reads a file: the aliases so far, and the entry it is in. */
  datatype Parse = Parse(aliases: map<string, string>, current: seq<string>, description: string, started: bool,
      depth: int)

  const START := Parse(map[], [], "", false, 0)

  function WithAliases(aliases: map<string, string>, names: seq<string>, value: string): map<string, string>
    decreases |names|
  {
    if names == [] then aliases
    else
      var name := Upper(Trim(names[0]));
      WithAliases(if name != "" then aliases[name := value] else aliases, names[1..], value)
  }

  function Flushed(p: Parse): Parse {
    if p.current == [] then p
    else
      var value := Join(Words(p.description), " ");
      Parse(if value != "" then WithAliases(p.aliases, p.current, value) else p.aliases, [], "", false, 0)
  }

  function Complete(p: Parse): Parse {
    if p.current != [] && p.started && p.depth <= 0 then Flushed(p) else p
  }

  function KeyOf(text: string): string { Trim(Before(text, '=')) }

  function ValueOf(text: string): string { if After(text, '=').Some? then Trim(After(text, '=').value) else "" }

  predicate IsInclude(p: Parse, text: string) {
    p.current == [] && After(text, '=').Some? && EqualFold(KeyOf(text), "IFILE")
  }

  /** A line that is no include, without its comment and outer white space. */
  function TextRead(p: Parse, text: string): Parse {
    Complete(
      if p.current != [] then
        p.(description := p.description + " " + text, started := true, depth := p.depth + Delta(text))
      else if After(text, '=').None? then p
      else
        var q := p.(current := SplitOn(KeyOf(text), ','));
        var value := ValueOf(text);
        if value == "" then q
        else q.(description := p.description + value, started := true, depth := p.depth + Delta(value)))
  }

  function TextOf(line: string): string { Trim(StripFrom(None, line)) }

  /** The lines that say something, without comments and outer white space. */
  function Contents(lines: seq<string>): seq<string> {
    if lines == [] then []
    else (if TextOf(lines[0]) == "" then [] else [TextOf(lines[0])]) + Contents(lines[1..])
  }

  // ---- files that include files ----

  /** The files by absolute path, and what an include path in a file resolves to. */
  datatype World = World(files: map<string, seq<string>>, resolve: (string, string) -> string)

  const TOO_DEEP := "Oracle TNS include depth exceeds 8 files"
  const UNREADABLE := "Failed to read Oracle TNS file"

  /** strings.Trim with both quotes as the cutset. */
  function TrimQuotes(s: string): string
    decreases |s|
  {
    if s != "" && (s[0] == '"' || s[0] == '\'') then TrimQuotes(s[1..])
    else if s != "" && (s[|s| - 1] == '"' || s[|s| - 1] == '\'') then TrimQuotes(s[..|s| - 1])
    else s
  }

  lemma Fewer(files: set<string>, visited: set<string>, more: set<string>)
    requires visited <= more
    ensures |files - more| <= |files - visited|
    ensures forall x | x in files && x !in visited && x in more :: |files - more| < |files - visited|
  {
    CardinalityOfSubset(files - more, files - visited);
    forall x | x in files && x !in visited && x in more
      ensures |files - more| < |files - visited|
    {
      CardinalityOfSubset(files - more, files - visited - {x});
    }
  }

  lemma {:induction false} CardinalityOfSubset(a: set<string>, b: set<string>)
    requires a <= b
    ensures |a| <= |b|
  {
    if a != {} {
      var x :| x in a;
      CardinalityOfSubset(a - {x}, b - {x});
    }
  }

  /** readOracleTNSAliases: the aliases of a file, and the files visited. The recursion ends because
      every file opened is a new one; the depth limit is not needed for that. */
  function ReadFile(w: World, path: string, visited: set<string>, depth: nat)
    : (r: Result<(map<string, string>, set<string>)>)
    ensures r.Ok? ==> visited <= r.value.1
    decreases |w.files.Keys - visited|, 0
  {
    if depth > 8 then Err(TOO_DEEP)
    else if path in visited then Ok((map[], visited))
    else if path !in w.files then Err(UNREADABLE)
    else
      Fewer(w.files.Keys, visited, visited + {path});
      var r := ReadTexts(w, path, Contents(w.files[path]), START, visited + {path}, depth);
      if r.Err? then Err(r.error) else Ok((Flushed(r.value.0).aliases, r.value.1))
  }

  function ReadTexts(w: World, path: string, texts: seq<string>, p: Parse, visited: set<string>, depth: nat)
    : (r: Result<(Parse, set<string>)>)
    ensures r.Ok? ==> visited <= r.value.1
    decreases |w.files.Keys - visited|, |texts|
  {
    if texts == [] then Ok((p, visited))
    else if IsInclude(p, texts[0]) then
      var included := ReadFile(w, w.resolve(path, TrimQuotes(ValueOf(texts[0]))), visited, depth + 1);
      if included.Err? then Err(included.error)
      else
        Fewer(w.files.Keys, visited, included.value.1);
        ReadTexts(w, path, texts[1..], p.(aliases := p.aliases + included.value.0), included.value.1, depth)
    else ReadTexts(w, path, texts[1..], TextRead(p, texts[0]), visited, depth)
  }

  ghost predicate Distinct(s: seq<string>) { forall i, j | 0 <= i < j < |s| :: s[i] != s[j] }

  lemma ContentsStep(lines: seq<string>, i: nat)
    requires i <= |lines|
    ensures lines[0..] == lines && Contents(lines[|lines|..]) == []
    ensures i < |lines| ==>
        Contents(lines[i..]) == (if TextOf(lines[i]) == "" then [] else [TextOf(lines[i])]) + Contents(lines[i + 1..])
  {
    hide TextOf;
    assert i < |lines| ==> lines[i..][1..] == lines[i + 1..];
  }

  /** What is left to read of a file. */
  ghost function Remaining(w: World, path: string, lines: seq<string>, i: nat, p: Parse, visited: set<string>,
      depth: nat)
    : Result<(Parse, set<string>)>
    requires i <= |lines|
  {
    ReadTexts(w, path, Contents(lines[i..]), p, visited, depth)
  }

  lemma RemainingStep(w: World, path: string, lines: seq<string>, i: nat, p: Parse, visited: set<string>, depth: nat)
    requires i < |lines|
    ensures var text := TextOf(lines[i]); var all := Remaining(w, path, lines, i, p, visited, depth);
      && (text == "" ==> all == Remaining(w, path, lines, i + 1, p, visited, depth))
      && (text != "" && !IsInclude(p, text) ==> all == Remaining(w, path, lines, i + 1, TextRead(p, text), visited,
          depth))
      && (text != "" && IsInclude(p, text) ==>
            var included := ReadFile(w, w.resolve(path, TrimQuotes(ValueOf(text))), visited, depth + 1);
            all == if included.Err? then Err(included.error)
                   else Remaining(w, path, lines, i + 1, p.(aliases := p.aliases + included.value.0),
                       included.value.1, depth))
  {
    hide TextOf, IsInclude, TextRead, ValueOf, TrimQuotes, ReadFile;
    ContentsStep(lines, i);
    var rest := Contents(lines[i + 1..]);
    assert [] + rest == rest && ([TextOf(lines[i])] + rest)[1..] == rest;
  }

  lemma RemainingEnds(w: World, path: string, lines: seq<string>, p: Parse, visited: set<string>, depth: nat)
    ensures Remaining(w, path, lines, 0, p, visited, depth) == ReadTexts(w, path, Contents(lines), p, visited, depth)
    ensures Remaining(w, path, lines, |lines|, p, visited, depth) == Ok((p, visited))
  {
    hide TextOf, IsInclude, TextRead;
    ContentsStep(lines, 0);
    ContentsStep(lines, |lines|);
  }

  /** The reader with its visited map, which the recursive calls share. */
  class Reader {
    const world: World
    var visited: set<string>
    /** The files whose lines were read, in order. */
    ghost var bodies: seq<string>

    constructor (world: World)
      ensures this.world == world && visited == {} && bodies == [] && Valid()
    {
      this.world := world;
      visited, bodies := {}, [];
    }

    ghost predicate Valid()
      reads this
    {
      Distinct(bodies) && forall x :: x in bodies ==> x in visited
    }

    method Flush(p: Parse) returns (r: Parse)
      ensures r == Flushed(p)
    {
      hide Words, Join;
      if p.current == [] {
        return p;
      }
      var value := Join(Words(p.description), " ");
      var aliases := p.aliases;
      if value != "" {
        var names := p.current;
        while names != []
          invariant WithAliases(p.aliases, p.current, value) == WithAliases(aliases, names, value)
          decreases |names|
        {
          var name := Upper(Trim(names[0]));
          if name != "" {
            aliases := aliases[name := value];
          }
          names := names[1..];
        }
      }
      return Parse(aliases, [], "", false, 0);
    }

    /** The lines of one entry: everything in the loop's body but the includes. */
    method ReadText(p: Parse, text: string) returns (r: Parse)
      requires !IsInclude(p, text)
      ensures r == TextRead(p, text)
    {
      hide Flushed, DeltaFrom, KeyOf, ValueOf, SplitOn, Trim, EqualFold;
      r := p;
      if p.current == [] {
        if After(text, '=').Some? {
          var value := ValueOf(text);
          r := r.(current := SplitOn(KeyOf(text), ','));
          if value != "" {
            var delta := ParenthesisDelta(value);
            r := r.(started := true, description := r.description + value, depth := r.depth + delta);
          }
        }
      } else {
        var delta := ParenthesisDelta(text);
        r := r.(description := r.description + " " + text, started := true, depth := r.depth + delta);
      }
      if r.current != [] && r.started && r.depth <= 0 {
        r := Flush(r);
      }
    }

    /** Every file body is read at most once, however the includes are linked. */
    method ReadAliases(path: string, depth: nat) returns (r: Result<map<string, string>>)
      requires Valid()
      modifies this
      ensures Valid() && old(visited) <= visited && old(bodies) <= bodies
      ensures var spec := ReadFile(world, path, old(visited), depth);
        if spec.Ok? then r == Ok(spec.value.0) && visited == spec.value.1 else r == Err(spec.error)
      decreases |world.files.Keys - visited|
    {
      hide Remaining, TextRead, Flushed, TextOf, ReadTexts, KeyOf, ValueOf, TrimQuotes, StripFrom, Trim, Contents;
      if depth > 8 {
        return Err(TOO_DEEP);
      }
      if path in visited {
        return Ok(map[]);
      }
      if path !in world.files {
        visited := visited + {path};
        return Err(UNREADABLE);
      }
      Fewer(world.files.Keys, visited, visited + {path});
      ghost var before := visited;
      visited := visited + {path};
      bodies := bodies + [path];
      var lines := world.files[path];
      var p := START;
      RemainingEnds(world, path, lines, p, visited, depth);
      for i := 0 to |lines|
        invariant Valid() && before + {path} <= visited && old(bodies) <= bodies
        invariant ReadTexts(world, path, Contents(lines), START, before + {path}, depth)
               == Remaining(world, path, lines, i, p, visited, depth)
      {
        RemainingStep(world, path, lines, i, p, visited, depth);
        var line := StripComment(lines[i]);
        var text := Trim(line);
        assert text == TextOf(lines[i]) by {
          TextIs(lines[i]);
        }
        if text == "" {
          continue;
        }
        if p.current == [] && After(text, '=').Some? && EqualFold(KeyOf(text), "IFILE") {
          Fewer(world.files.Keys, before, visited);
          Fewer(world.files.Keys, before, before + {path});
          var included := ReadAliases(world.resolve(path, TrimQuotes(ValueOf(text))), depth + 1);
          if included.Err? {
            return Err(included.error);
          }
          p := p.(aliases := p.aliases + included.value);
        } else {
          p := ReadText(p, text);
        }
      }
      RemainingEnds(world, path, lines, p, visited, depth);
      p := Flush(p);
      return Ok(p.aliases);
    }
  }

  lemma TextIs(line: string)
    ensures TextOf(line) == Trim(StripFrom(None, line))
  {
  }
}
