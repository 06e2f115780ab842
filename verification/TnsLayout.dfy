/** What the tnsnames.ora reader makes of a file does not depend on how its entries are laid out. */
module TnsLayout {
  import opened Text
  import opened Tns

  // ---- entries ----

  function AllWords(texts: seq<string>): seq<string> {
    if texts == [] then [] else Words(texts[0]) + AllWords(texts[1..])
  }

  predicate Closed(text: string) { RunQuote(None, text) == None }

  function DepthOf(words: seq<string>): int { Delta(Concat(words)) }

  /** A descriptor: no quote is left open, and the parentheses close with the last word and no sooner,
      wherever outside quotes one looks. */
  ghost predicate Descriptor(words: seq<string>) {
    && words != [] && Closed(Concat(words)) && DepthOf(words) <= 0
    && forall k | 0 < k < |words| && Closed(Concat(words[..k])) :: DepthOf(words[..k]) > 0
  }

  /** The texts after the alias: the value on its line, if there is one, and the lines that follow. */
  function Chunks(texts: seq<string>): seq<string>
    requires texts != []
  {
    (if ValueOf(texts[0]) == "" then [] else [ValueOf(texts[0])]) + texts[1..]
  }

  /** Lines that define one entry: comments and blank lines aside, `key =` and then the words of a
      descriptor, broken over lines anywhere outside quotes. */
  ghost predicate Entry(lines: seq<string>, key: string, words: seq<string>) {
    var texts := Contents(lines);
    && texts != [] && After(texts[0], '=').Some? && KeyOf(texts[0]) == key && !EqualFold(key, "IFILE")
    && Descriptor(words) && AllWords(Chunks(texts)) == words
    && forall i | 0 <= i < |Chunks(texts)| :: Closed(Chunks(texts)[i])
  }

  /** The aliases after an entry. */
  function Defined(aliases: map<string, string>, key: string, words: seq<string>): map<string, string> {
    WithAliases(aliases, SplitOn(key, ','), Join(words, " "))
  }

  // ---- reading one entry ----

  lemma DeltaAppend(a: seq<string>, text: string)
    requires Closed(Concat(a)) && Closed(text)
    ensures Closed(Concat(a + Words(text))) && DepthOf(a + Words(text)) == DepthOf(a) + Delta(text)
  {
    ConcatAppend(a, Words(text));
    DeltaConcat(None, Concat(a), Concat(Words(text)));
    DeltaOfWords(text);
  }

  lemma {:induction false} WordsAre(word: string, s: string)
    requires forall i | 0 <= i < |word| :: !IsSpace(word[i])
    ensures forall i | 0 <= i < |WordsFrom(word, s)| :: WordsFrom(word, s)[i] != ""
    decreases |s|
  {
    if s != "" {
      if IsSpace(s[0]) {
        WordsAre("", s[1..]);
      } else {
        WordsAre(word + [s[0]], s[1..]);
      }
    }
  }

  lemma JoinNotEmpty(words: seq<string>)
    requires words != [] && words[0] != ""
    ensures Join(words, " ") != ""
  {
  }

  /** The state inside an entry of which the first words were read. */
  ghost predicate Inside(p: Parse, done: seq<string>) {
    && p.current != [] && Words(p.description) == done && Closed(Concat(done)) && p.depth == DepthOf(done)
    && (p.started <==> done != [])
  }

  function Finished(p: Parse, names: seq<string>, words: seq<string>): Parse {
    Parse(WithAliases(p.aliases, names, Join(words, " ")), [], "", false, 0)
  }

  /** One more chunk: the entry goes on, or it is complete and the aliases are defined. */
  lemma ChunkRead(p: Parse, q: Parse, done: seq<string>, chunk: string, words: seq<string>)
    requires p.current != [] && Closed(Concat(done)) && p.depth == DepthOf(done)
    requires Closed(chunk) && Words(chunk) != [] && done + Words(chunk) <= words && Descriptor(words)
    requires q == Parse(p.aliases, p.current, q.description, true, p.depth + Delta(chunk))
        && Words(q.description) == done + Words(chunk)
    ensures done + Words(chunk) == words ==> Complete(q) == Finished(p, p.current, words)
    ensures done + Words(chunk) != words ==> Complete(q) == q && Inside(q, done + Words(chunk))
  {
    hide Words, Concat, Delta, Join, WithAliases;
    DeltaAppend(done, chunk);
    var now := done + Words(chunk);
    if now == words {
      WordsAre("", q.description);
      assert Words(q.description) == WordsFrom("", q.description) by {
        WordsIs(q.description);
      }
      JoinNotEmpty(words);
    } else {
      assert now == words[..|now|] && 0 < |now| < |words|;
    }
  }

  lemma WordsIs(s: string)
    ensures Words(s) == WordsFrom("", s)
  {
  }

  lemma {:induction false} ChunksRead(w: World, path: string, chunks: seq<string>, rest: seq<string>, p: Parse,
      done: seq<string>, words: seq<string>, visited: set<string>, depth: nat)
    requires Inside(p, done) && Descriptor(words) && done + AllWords(chunks) == words && done != words
    requires forall i | 0 <= i < |chunks| :: Closed(chunks[i]) && Words(chunks[i]) != []
    ensures ReadTexts(w, path, chunks + rest, p, visited, depth)
         == ReadTexts(w, path, rest, Finished(p, p.current, words), visited, depth)
    decreases |chunks|
  {
    hide Words, Descriptor, Closed, Concat, Delta, Complete, Flushed, Finished;
    assert done + AllWords([]) == done;
    if chunks != [] {
      var chunk := chunks[0];
      var texts := chunks + rest;
      assert texts[0] == chunk && texts[1..] == chunks[1..] + rest;
      var q := p.(description := p.description + " " + chunk, started := true, depth := p.depth + Delta(chunk));
      DescriptionGrows(p.description, chunk);
      var now := done + Words(chunk);
      assert now + AllWords(chunks[1..]) == words;
      ChunkRead(p, q, done, chunk, words);
      assert TextRead(p, chunk) == Complete(q);
      if now == words {
        NoMoreChunks(chunks[1..], now, words);
      } else {
        ChunksRead(w, path, chunks[1..], rest, q, now, words, visited, depth);
        AfterIs(p, q, words);
      }
    }
  }

  lemma DescriptionGrows(description: string, chunk: string)
    ensures Words(description + " " + chunk) == Words(description) + Words(chunk)
  {
    WordsConcat("", description, chunk);
  }

  lemma AfterIs(p: Parse, q: Parse, words: seq<string>)
    requires q.aliases == p.aliases
    ensures Finished(q, q.current, words) == Finished(p, q.current, words)
  {
  }

  lemma ChunksSay(chunks: seq<string>)
    requires forall i | 0 <= i < |chunks| :: Words(chunks[i]) != []
    ensures chunks != [] ==> AllWords(chunks) != []
  {
    if chunks != [] {
      assert Words(chunks[0]) != [];
    }
  }

  lemma NoMoreChunks(chunks: seq<string>, now: seq<string>, words: seq<string>)
    requires now + AllWords(chunks) == words && now == words
    requires forall i | 0 <= i < |chunks| :: Words(chunks[i]) != []
    ensures chunks == []
  {
    hide AllWords;
    ChunksSay(chunks);
    assert |now + AllWords(chunks)| == |now| + |AllWords(chunks)|;
  }

  lemma {:induction false} ContentsAre(lines: seq<string>)
    ensures forall i | 0 <= i < |Contents(lines)| ::
        Contents(lines)[i] != "" && Trim(Contents(lines)[i]) == Contents(lines)[i]
  {
    hide Trim, TextOf;
    if lines != [] {
      ContentsAre(lines[1..]);
      TextIs(lines[0]);
      TrimTwice(StripFrom(None, lines[0]));
    }
  }

  lemma TextHasWords(text: string)
    requires Trim(text) == text && text != ""
    ensures Words(text) != []
  {
    var _ := TrimSplits(text);
    assert !IsSpace(text[0]);
    WordsOfText("", text);
  }

  lemma SplitHasPieces(key: string)
    ensures SplitOn(key, ',') != []
  {
  }

  /** Reading the lines of an entry defines its aliases as its words, joined by single spaces; comments,
      blank lines and the places of the line breaks leave no trace. */
  lemma EntryRead(w: World, path: string, lines: seq<string>, rest: seq<string>, key: string, words: seq<string>,
      aliases: map<string, string>, visited: set<string>, depth: nat)
    requires Entry(lines, key, words)
    ensures ReadTexts(w, path, Contents(lines) + rest, START.(aliases := aliases), visited, depth)
         == ReadTexts(w, path, rest, START.(aliases := Defined(aliases, key, words)), visited, depth)
  {
    hide Words, Descriptor, Closed, Concat, Delta, Complete, Flushed, Contents, KeyOf, ValueOf, SplitOn, AllWords,
      ReadTexts;
    var texts := Contents(lines);
    var p := START.(aliases := aliases);
    var text, value := texts[0], ValueOf(texts[0]);
    ContentsAre(lines);
    ChunksHaveWords(texts);
    SplitHasPieces(key);
    EmptyWords();
    var started := p.(current := SplitOn(key, ','));
    assert Defined(aliases, key, words) == Finished(started, started.current, words).aliases;
    assert START.(aliases := Defined(aliases, key, words)) == Finished(started, started.current, words);
    FirstText(w, path, texts, rest, p, visited, depth);
    if value == "" {
      assert Chunks(texts) == texts[1..];
      assert Complete(started) == started by {
        NotComplete(started);
      }
      assert [] + AllWords(texts[1..]) == words;
      DescriptorNotEmpty(words);
      ChunksRead(w, path, texts[1..], rest, started, [], words, visited, depth);
    } else {
      var q := started.(description := p.description + value, started := true, depth := p.depth + Delta(value));
      assert Chunks(texts)[0] == value && Chunks(texts)[1..] == texts[1..];
      assert q.description == value;
      AllWordsStep(Chunks(texts));
      assert [] + Words(value) == Words(value);
      ChunkRead(started, q, [], value, words);
      forall i | 0 <= i < |texts[1..]|
        ensures Closed(texts[1..][i]) && Words(texts[1..][i]) != []
      {
        assert Chunks(texts)[i + 1] == texts[1..][i];
      }
      if Words(value) == words {
        NoMoreChunks(texts[1..], words, words);
        assert texts[1..] + rest == rest;
      } else {
        ChunksRead(w, path, texts[1..], rest, q, Words(value), words, visited, depth);
        AfterIs(started, q, words);
      }
    }
  }

  lemma AllWordsStep(chunks: seq<string>)
    requires chunks != []
    ensures AllWords(chunks) == Words(chunks[0]) + AllWords(chunks[1..])
  {
  }

  lemma DescriptorNotEmpty(words: seq<string>)
    requires Descriptor(words)
    ensures words != []
  {
  }

  lemma NotComplete(p: Parse)
    requires !p.started
    ensures Complete(p) == p
  {
  }

  lemma EmptyWords()
    ensures Words("") == [] && Concat([]) == "" && Delta("") == 0 && Closed("") && AllWords([]) == []
  {
  }

  /** The line with the alias. */
  lemma FirstText(w: World, path: string, texts: seq<string>, rest: seq<string>, p: Parse, visited: set<string>,
      depth: nat)
    requires texts != [] && p.current == [] && After(texts[0], '=').Some? && !EqualFold(KeyOf(texts[0]), "IFILE")
    ensures ReadTexts(w, path, texts + rest, p, visited, depth)
         == ReadTexts(w, path, texts[1..] + rest, TextRead(p, texts[0]), visited, depth)
  {
    hide TextRead, KeyOf;
    assert (texts + rest)[0] == texts[0] && (texts + rest)[1..] == texts[1..] + rest;
  }

  lemma ChunksHaveWords(texts: seq<string>)
    requires texts != [] && forall i | 0 <= i < |texts| :: texts[i] != "" && Trim(texts[i]) == texts[i]
    ensures forall i | 0 <= i < |Chunks(texts)| :: Words(Chunks(texts)[i]) != []
    ensures forall i | 1 <= i < |texts| :: Words(texts[i]) != []
  {
    hide Words, Trim;
    forall i | 0 <= i < |texts|
      ensures Words(texts[i]) != []
    {
      TextHasWords(texts[i]);
    }
    if ValueOf(texts[0]) != "" {
      TrimTwice(After(texts[0], '=').value);
      TextHasWords(ValueOf(texts[0]));
    }
  }

  // ---- whole files ----

  function Lines(blocks: seq<seq<string>>): seq<string> {
    if blocks == [] then [] else blocks[0] + Lines(blocks[1..])
  }

  /** The aliases after entries in order: an entry redefines the names of earlier ones. */
  function DefinedAll(aliases: map<string, string>, entries: seq<(string, seq<string>)>): map<string, string>
    decreases |entries|
  {
    if entries == [] then aliases else DefinedAll(Defined(aliases, entries[0].0, entries[0].1), entries[1..])
  }

  ghost predicate Entries(blocks: seq<seq<string>>, entries: seq<(string, seq<string>)>) {
    |blocks| == |entries| && forall i | 0 <= i < |blocks| :: Entry(blocks[i], entries[i].0, entries[i].1)
  }

  lemma {:induction false} ContentsConcat(a: seq<string>, b: seq<string>)
    ensures Contents(a + b) == Contents(a) + Contents(b)
  {
    hide TextOf;
    if a == [] {
      assert a + b == b;
    } else {
      assert (a + b)[1..] == a[1..] + b;
      ContentsConcat(a[1..], b);
    }
  }

  lemma {:induction false} EntriesRead(w: World, path: string, blocks: seq<seq<string>>,
      entries: seq<(string, seq<string>)>, aliases: map<string, string>, visited: set<string>, depth: nat)
    requires Entries(blocks, entries)
    ensures ReadTexts(w, path, Contents(Lines(blocks)), START.(aliases := aliases), visited, depth)
         == Ok((START.(aliases := DefinedAll(aliases, entries)), visited))
    decreases |blocks|
  {
    hide Entry, Contents, Defined, TextRead, IsInclude;
    if blocks == [] {
      ContentsStep([], 0);
    } else {
      var rest := Contents(Lines(blocks[1..]));
      ContentsConcat(blocks[0], Lines(blocks[1..]));
      EntryRead(w, path, blocks[0], rest, entries[0].0, entries[0].1, aliases, visited, depth);
      EntriesRead(w, path, blocks[1..], entries[1..], Defined(aliases, entries[0].0, entries[0].1), visited, depth);
    }
  }

  /** A file of entries gives the aliases that they define, in order. */
  lemma FileRead(w: World, path: string, blocks: seq<seq<string>>, entries: seq<(string, seq<string>)>,
      visited: set<string>, depth: nat)
    requires Entries(blocks, entries) && depth <= 8 && path !in visited && path in w.files
        && w.files[path] == Lines(blocks)
    ensures ReadFile(w, path, visited, depth) == Ok((DefinedAll(map[], entries), visited + {path}))
  {
    hide Entries, Lines, DefinedAll, ReadTexts, Contents;
    EntriesRead(w, path, blocks, entries, map[], visited + {path}, depth);
    assert START.(aliases := map[]) == START;
  }

  // ---- files that include each other ----

  /** What a file says: definitions, and the files that it includes. */
  datatype Item = Define(key: string, words: seq<string>) | Include(target: string)

  /** The lines of one item; an include is a single line besides comments and blank lines. */
  ghost predicate ItemLines(lines: seq<string>, item: Item) {
    match item
    case Define(key, words) => Entry(lines, key, words)
    case Include(target) =>
      var texts := Contents(lines);
      |texts| == 1 && IsInclude(START, texts[0]) && TrimQuotes(ValueOf(texts[0])) == target
  }

  ghost predicate Says(blocks: seq<seq<string>>, items: seq<Item>) {
    |blocks| == |items| && forall i | 0 <= i < |blocks| :: ItemLines(blocks[i], items[i])
  }

  /** Two files that are the same text, or that say the same in two layouts. */
  ghost predicate SameFile(a: seq<string>, b: seq<string>) {
    a == b || exists one: seq<seq<string>>, other: seq<seq<string>>, items: seq<Item> ::
      a == Lines(one) && b == Lines(other) && Says(one, items) && Says(other, items)
  }

  ghost predicate SameFiles(a: map<string, seq<string>>, b: map<string, seq<string>>) {
    a.Keys == b.Keys && forall path | path in a :: SameFile(a[path], b[path])
  }

  /** Layout independence, for any set of files that include each other, cycles too: if each file says the
      same in the one set as in the other, however laid out and commented, then reading any file gives the
      same aliases, visits the same files, or fails with the same error. */
  lemma {:induction false} LayoutIndependence(v: World, w: World, path: string, visited: set<string>, depth: nat)
    requires w.resolve == v.resolve && SameFiles(v.files, w.files)
    ensures ReadFile(v, path, visited, depth) == ReadFile(w, path, visited, depth)
    decreases |v.files.Keys - visited|, 0
  {
    hide ReadTexts, SameFile, Lines, Flushed, Contents;
    if depth <= 8 && path !in visited && path in v.files {
      var now := visited + {path};
      Fewer(v.files.Keys, visited, now);
      if v.files[path] == w.files[path] {
        SameTexts(v, w, path, Contents(v.files[path]), START, now, depth);
      } else {
        var one, other, items := Layouts(v.files[path], w.files[path]);
        SameBlocks(v, w, path, one, other, items, map[], now, depth);
        assert START.(aliases := map[]) == START;
      }
    }
  }

  lemma Layouts(a: seq<string>, b: seq<string>) returns (one: seq<seq<string>>, other: seq<seq<string>>,
      items: seq<Item>)
    requires SameFile(a, b) && a != b
    ensures a == Lines(one) && b == Lines(other) && Says(one, items) && Says(other, items)
  {
    one, other, items :| a == Lines(one) && b == Lines(other) && Says(one, items) && Says(other, items);
  }

  lemma {:induction false} SameTexts(v: World, w: World, path: string, texts: seq<string>, p: Parse,
      visited: set<string>, depth: nat)
    requires w.resolve == v.resolve && SameFiles(v.files, w.files)
    ensures ReadTexts(v, path, texts, p, visited, depth) == ReadTexts(w, path, texts, p, visited, depth)
    decreases |v.files.Keys - visited|, |texts|
  {
    hide SameFiles, ReadFile, IsInclude, TextRead, TrimQuotes, ValueOf;
    if texts != [] {
      if IsInclude(p, texts[0]) {
        var target := v.resolve(path, TrimQuotes(ValueOf(texts[0])));
        LayoutIndependence(v, w, target, visited, depth + 1);
        var included := ReadFile(v, target, visited, depth + 1);
        if included.Ok? {
          Fewer(v.files.Keys, visited, included.value.1);
          SameTexts(v, w, path, texts[1..], p.(aliases := p.aliases + included.value.0), included.value.1, depth);
        }
      } else {
        SameTexts(v, w, path, texts[1..], TextRead(p, texts[0]), visited, depth);
      }
    }
  }

  lemma IncludeRead(w: World, path: string, lines: seq<string>, rest: seq<string>, target: string,
      aliases: map<string, string>, visited: set<string>, depth: nat)
    requires ItemLines(lines, Include(target))
    ensures var included := ReadFile(w, w.resolve(path, target), visited, depth + 1);
      ReadTexts(w, path, Contents(lines) + rest, START.(aliases := aliases), visited, depth) ==
        if included.Err? then Err(included.error)
        else ReadTexts(w, path, rest, START.(aliases := aliases + included.value.0), included.value.1, depth)
  {
    hide Contents, ReadFile, TrimQuotes, ValueOf, KeyOf;
    var texts := Contents(lines) + rest;
    assert texts[0] == Contents(lines)[0] && texts[1..] == rest;
  }

  lemma {:induction false} SameBlocks(v: World, w: World, path: string, one: seq<seq<string>>, other: seq<seq<string>>,
      items: seq<Item>, aliases: map<string, string>, visited: set<string>, depth: nat)
    requires w.resolve == v.resolve && SameFiles(v.files, w.files) && Says(one, items) && Says(other, items)
    ensures ReadTexts(v, path, Contents(Lines(one)), START.(aliases := aliases), visited, depth)
         == ReadTexts(w, path, Contents(Lines(other)), START.(aliases := aliases), visited, depth)
    decreases |v.files.Keys - visited|, |items|
  {
    hide SameFiles, ReadFile, ReadTexts, Contents, Entry, Defined;
    if items == [] {
      NothingRead(v, path, aliases, visited, depth);
      NothingRead(w, path, aliases, visited, depth);
      assert one == [] && other == [];
    } else {
      var left, right := Contents(Lines(one[1..])), Contents(Lines(other[1..]));
      ContentsConcat(one[0], Lines(one[1..]));
      ContentsConcat(other[0], Lines(other[1..]));
      match items[0]
      case Define(key, words) =>
        EntryRead(v, path, one[0], left, key, words, aliases, visited, depth);
        EntryRead(w, path, other[0], right, key, words, aliases, visited, depth);
        SameBlocks(v, w, path, one[1..], other[1..], items[1..], Defined(aliases, key, words), visited, depth);
      case Include(target) =>
        IncludeRead(v, path, one[0], left, target, aliases, visited, depth);
        IncludeRead(w, path, other[0], right, target, aliases, visited, depth);
        LayoutIndependence(v, w, v.resolve(path, target), visited, depth + 1);
        var included := ReadFile(v, v.resolve(path, target), visited, depth + 1);
        if included.Ok? {
          Fewer(v.files.Keys, visited, included.value.1);
          SameBlocks(v, w, path, one[1..], other[1..], items[1..], aliases + included.value.0, included.value.1, depth);
        }
    }
  }

  lemma NothingRead(w: World, path: string, aliases: map<string, string>, visited: set<string>, depth: nat)
    ensures ReadTexts(w, path, Contents(Lines([])), START.(aliases := aliases), visited, depth)
         == Ok((START.(aliases := aliases), visited))
  {
  }

  // ---- later definitions win ----

  predicate Names(key: string, name: string) {
    exists i :: 0 <= i < |SplitOn(key, ',')| && Upper(Trim(SplitOn(key, ',')[i])) == name
  }

  lemma {:induction false} WithAliasesAt(aliases: map<string, string>, names: seq<string>, value: string, name: string)
    requires name != ""
    ensures var after := WithAliases(aliases, names, value);
      if exists i :: 0 <= i < |names| && Upper(Trim(names[i])) == name then name in after && after[name] == value
      else (name in after <==> name in aliases) && (name in aliases ==> after[name] == aliases[name])
    decreases |names|
  {
    hide Trim, Upper;
    if names != [] {
      var first := Upper(Trim(names[0]));
      var next := if first != "" then aliases[first := value] else aliases;
      WithAliasesAt(next, names[1..], value, name);
      if exists i :: 0 <= i < |names| && Upper(Trim(names[i])) == name {
        var i :| 0 <= i < |names| && Upper(Trim(names[i])) == name;
        if i > 0 {
          assert Upper(Trim(names[1..][i - 1])) == name;
        }
      } else {
        assert first != name;
        assert forall i | 0 <= i < |names[1..]| :: names[1..][i] == names[i + 1];
      }
    }
  }

  /** A name stands for the words of the last entry that defines it. */
  lemma {:induction false} LaterWins(aliases: map<string, string>, entries: seq<(string, seq<string>)>, i: nat,
      name: string)
    requires i < |entries| && name != "" && Names(entries[i].0, name)
    requires forall j | i < j < |entries| :: !Names(entries[j].0, name)
    ensures name in DefinedAll(aliases, entries) && DefinedAll(aliases, entries)[name] == Join(entries[i].1, " ")
    decreases |entries|
  {
    hide Names;
    var next := Defined(aliases, entries[0].0, entries[0].1);
    if i == 0 {
      NamedIs(aliases, entries[0].0, entries[0].1, name);
      NotRedefined(next, entries[1..], name);
    } else {
      LaterWins(next, entries[1..], i - 1, name);
    }
  }

  lemma NamedIs(aliases: map<string, string>, key: string, words: seq<string>, name: string)
    requires name != ""
    ensures var after := Defined(aliases, key, words);
      if Names(key, name) then name in after && after[name] == Join(words, " ")
      else (name in after <==> name in aliases) && (name in aliases ==> after[name] == aliases[name])
  {
    WithAliasesAt(aliases, SplitOn(key, ','), Join(words, " "), name);
  }

  lemma {:induction false} NotRedefined(aliases: map<string, string>, entries: seq<(string, seq<string>)>, name: string)
    requires name in aliases && name != "" && forall j | 0 <= j < |entries| :: !Names(entries[j].0, name)
    ensures name in DefinedAll(aliases, entries) && DefinedAll(aliases, entries)[name] == aliases[name]
    decreases |entries|
  {
    hide Names, Defined;
    if entries != [] {
      NamedIs(aliases, entries[0].0, entries[0].1, name);
      NotRedefined(Defined(aliases, entries[0].0, entries[0].1), entries[1..], name);
    }
  }

  // ---- the depth limit ----

  /** Up to eight files, the depth limit is never the reason of a failure: cycles do not count. */
  lemma {:induction false} LimitNotReached(w: World, path: string, visited: set<string>, depth: nat)
    requires depth + |w.files.Keys - visited| <= 8
    ensures ReadFile(w, path, visited, depth) != Err(TOO_DEEP)
    decreases |w.files.Keys - visited|, 0
  {
    hide Flushed, Contents;
    if path !in visited && path in w.files {
      Fewer(w.files.Keys, visited, visited + {path});
      LimitNotReachedIn(w, path, Contents(w.files[path]), START, visited + {path}, depth);
    }
    assert TOO_DEEP != UNREADABLE by {
      assert TOO_DEEP[0] == 'O' && UNREADABLE[0] == 'F';
    }
  }

  lemma {:induction false} LimitNotReachedIn(w: World, path: string, texts: seq<string>, p: Parse,
      visited: set<string>, depth: nat)
    requires depth + 1 + |w.files.Keys - visited| <= 8
    ensures ReadTexts(w, path, texts, p, visited, depth) != Err(TOO_DEEP)
    decreases |w.files.Keys - visited|, |texts|
  {
    hide TextRead, IsInclude;
    if texts != [] {
      if IsInclude(p, texts[0]) {
        var target := w.resolve(path, TrimQuotes(ValueOf(texts[0])));
        LimitNotReached(w, target, visited, depth + 1);
        var included := ReadFile(w, target, visited, depth + 1);
        if included.Ok? {
          Fewer(w.files.Keys, visited, included.value.1);
          LimitNotReachedIn(w, path, texts[1..], p.(aliases := p.aliases + included.value.0), included.value.1, depth);
        }
      } else {
        LimitNotReachedIn(w, path, texts[1..], TextRead(p, texts[0]), visited, depth);
      }
    }
  }
}
