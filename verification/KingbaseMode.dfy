/** What a rewritten Kingbase keyword string means: which fields it has and which mode is read back. */
module KingbaseMode {
  import opened KingbaseDsn
  import opened Text
  import Url = KingbaseUrl

  // ---- the field of a mode ----

  /** The splitter does not stop inside the mode; the mode is written without quotes. */
  predicate OneValue(mode: string) { Through(Gap, mode) }

  /** The mode is one value, and nothing at its end is trimmed. */
  predicate Fits(mode: string) { OneValue(mode) && (mode != "" ==> !IsSpace(mode[|mode| - 1])) }

  /** Where the splitter is after the mode, a space ends the field. */
  predicate Finished(mode: string) { Run(Gap, mode) == Bare || Run(Gap, mode) == AfterQuote }

  lemma {:induction false} KeyRuns(s: string)
    requires '=' !in s
    ensures Run(Key, s) == Key && Through(Key, s)
  {
    if s != "" {
      KeyRuns(s[1..]);
    }
  }

  /** A key, `=` and a value that starts at once: where the splitter is after it. */
  lemma KeyValueRuns(key: string, value: string)
    requires '=' !in key && value != ""
    ensures Run(Key, key + "=" + value) == Run(Next(Gap, value[0]), value[1..])
    ensures Through(Key, key + "=" + value) == Through(Next(Gap, value[0]), value[1..])
  {
    KeyRuns(key);
    assert key + "=" + value == key + ("=" + value);
    ThroughConcat(Key, key, "=" + value);
    assert ("=" + value)[1..] == value;
  }

  lemma ModeFieldRuns(mode: string)
    ensures Through(Key, ModeField(mode)) == OneValue(mode) && Run(Key, ModeField(mode)) == Run(Gap, mode)
  {
    hide Run, Through;
    var key := "sslmode";
    KeyRuns(key);
    assert ModeField(mode) == key + ("=" + mode);
    ThroughConcat(Key, key, "=" + mode);
    EqualsRuns(mode);
  }

  lemma EqualsRuns(mode: string)
    ensures Through(Key, "=" + mode) == Through(Gap, mode) && Run(Key, "=" + mode) == Run(Gap, mode)
  {
    assert ("=" + mode)[1..] == mode;
  }

  /** Trimming the field trims the mode at its end. */
  lemma ModeFieldTrims(mode: string) returns (rest: string)
    ensures Trim(ModeField(mode)) == ModeField(rest) && Trim(rest) == Trim(mode)
    ensures rest == mode <==> (mode != "" ==> !IsSpace(mode[|mode| - 1]))
  {
    hide Trim;
    var field := ModeField(mode);
    var lead := TrimSplits(field);
    assert field[0] == 's' && field[7] == '=';
    assert lead == 0;
    var k := |Trim(field)|;
    assert k >= 8;
    rest := mode[..k - 8];
    assert field[..k] == ModeField(rest);
    assert forall i | k - 8 <= i < |mode| :: mode[i] == field[i + 8];
    TrimDropsTrailing(mode, k - 8);
    assert mode != "" ==> mode[|mode| - 1] == field[|field| - 1];
    assert mode[..|mode|] == mode;
    assert k == |field| || IsSpace(field[|field| - 1]);
    assert field[k - 1] == Trim(field)[k - 1];
  }

  lemma FitsIsText(mode: string)
    ensures FieldText(ModeField(mode)) <==> Fits(mode)
  {
    hide Trim, Through, ModeField;
    ModeFieldRuns(mode);
    var rest := ModeFieldTrims(mode);
    ModeFieldInjective(rest, mode);
  }

  lemma ModeFieldInjective(a: string, b: string)
    ensures ModeField(a) == ModeField(b) ==> a == b
  {
    assert a == ModeField(a)[8..] && b == ModeField(b)[8..];
  }

  // ---- what is read from it ----

  lemma OneValueReads(mode: string)
    requires OneValue(mode)
    ensures var fields := Fields(ModeField(mode));
      |fields| == 1 && IsModeField(fields[0]) && FieldMode(fields[0]) == Some(Lower(UnquoteValue(mode)))
  {
    hide Trim, Through, Run, End, EqualFold, OneValue;
    var field := ModeField(mode);
    var rest := ModeFieldTrims(mode);
    ModeFieldRuns(mode);
    EndIsThrough(Key, field);
    FieldsStep(field, 0);
    assert field[0] == 's' && field[0..] == field && field[0..|field|] == field && field[|field|..] == "";
    FieldsStep(field, 7);
    assert Fields(field) == [Trim(field)] + Fields("");
    NoFields();
    ModeFieldReads(rest);
  }

  lemma ModeFieldReads(mode: string)
    ensures IsModeField(ModeField(mode)) && FieldMode(ModeField(mode)) == Some(Lower(UnquoteValue(mode)))
  {
    hide Trim;
    var key := "sslmode";
    assert ModeField(mode) == key + "=" + mode;
    TrimFixed(key);
    CutAt(key, '=', mode);
  }

  lemma {:induction false} FieldsBounded(s: string)
    ensures forall i | 0 <= i < |Fields(s)| :: |Fields(s)[i]| <= |s|
    decreases |s|
  {
    hide Trim;
    if s != "" {
      if IsNativeSpace(s[0]) {
        FieldsBounded(s[1..]);
      } else {
        var end := End(Key, s);
        StartTakes(s);
        TrimShorter(s[..end]);
        FieldsBounded(s[end..]);
      }
    }
  }

  lemma TrimShorter(s: string)
    ensures |Trim(s)| <= |s|
  {
    var _ := TrimSplits(s);
  }

  lemma BrokenFieldsBounded(s: string)
    requires s != "" && !IsNativeSpace(s[0]) && !Through(Key, s)
    ensures forall i | 0 <= i < |Fields(s)| :: |Fields(s)[i]| < |s|
  {
    hide Trim, Through;
    var end := End(Key, s);
    StartTakes(s);
    EndIsThrough(Key, s);
    TrimShorter(s[..end]);
    FieldsBounded(s[end..]);
  }

  lemma ModeIsShorter(field: string)
    requires FieldMode(field).Some?
    ensures |FieldMode(field).value| + 8 <= |field|
  {
    hide Trim;
    var key, raw := Before(field, '='), After(field, '=').value;
    assert |Upper(Trim(key))| == |Upper("sslmode")|;
    TrimShorter(key);
    TrimShorter(raw);
    var v := Trim(raw);
    TrimShorter(if |v| >= 2 && v[0] == '\'' && v[|v| - 1] == '\'' then v[1..|v| - 1] else v);
  }

  lemma {:induction false} LastModeIsShorter(fields: seq<string>, n: nat)
    requires forall i | 0 <= i < |fields| :: |fields[i]| < n
    ensures LastMode(fields).Some? ==> |LastMode(fields).value| + 8 < n
    decreases |fields|
  {
    hide FieldMode;
    if fields != [] {
      if FieldMode(fields[|fields| - 1]).Some? {
        ModeIsShorter(fields[|fields| - 1]);
      } else {
        LastModeIsShorter(fields[..|fields| - 1], n);
      }
    }
  }

  /** The mode field on its own, for every mode: it reads as the mode written exactly if the mode is one
      value that is its own unquoted lower-case text. */
  lemma ModeReadsBack(mode: string)
    ensures OneValue(mode) ==> LastMode(Fields(ModeField(mode))) == Some(Lower(UnquoteValue(mode)))
    ensures LastMode(Fields(ModeField(mode))) == Some(mode) <==> OneValue(mode) && Lower(UnquoteValue(mode)) == mode
  {
    hide Fields, UnquoteValue, FieldMode, IsModeField, OneValue, Through;
    if OneValue(mode) {
      OneValueReads(mode);
    } else {
      ModeFieldRuns(mode);
      var field := ModeField(mode);
      assert |field| == |mode| + 8 && field[0] == 's';
      BrokenFieldsBounded(field);
      LastModeIsShorter(Fields(field), |field|);
    }
  }

  // ---- the kept fields ----

  lemma {:induction false} KeptAre(fields: seq<string>)
    ensures forall i | 0 <= i < |Kept(fields)| :: Kept(fields)[i] in fields && !IsModeField(Kept(fields)[i])
  {
    hide IsModeField;
    if fields != [] {
      KeptAre(fields[1..]);
    }
  }

  lemma KeptTexts(value: string)
    ensures forall i | 0 <= i < |Kept(Fields(value))| :: FieldText(Kept(Fields(value))[i])
  {
    hide IsModeField, FieldText, Fields, Kept;
    FieldsAreTexts(value);
    KeptAre(Fields(value));
  }

  lemma {:induction false} KeptConcat(a: seq<string>, b: seq<string>)
    ensures Kept(a + b) == Kept(a) + Kept(b)
  {
    hide IsModeField;
    if a == [] {
      assert a + b == b;
    } else {
      assert (a + b)[1..] == a[1..] + b;
      KeptConcat(a[1..], b);
    }
  }

  lemma {:induction false} NothingDropped(fields: seq<string>)
    requires forall i | 0 <= i < |fields| :: !IsModeField(fields[i])
    ensures Kept(fields) == fields && LastMode(fields) == None
    decreases |fields|
  {
    hide IsModeField;
    if fields != [] {
      NothingDropped(fields[1..]);
      assert [fields[0]] + fields[1..] == fields;
      NothingDropped(fields[..|fields| - 1]);
    }
  }

  lemma {:induction false} LastModeConcat(a: seq<string>, b: seq<string>)
    ensures LastMode(a + b) == if LastMode(b).Some? then LastMode(b) else LastMode(a)
    decreases |b|
  {
    hide FieldMode;
    if b == [] {
      assert a + b == a;
    } else {
      assert (a + b)[..|a + b| - 1] == a + b[..|b| - 1];
      LastModeConcat(a, b[..|b| - 1]);
    }
  }

  ghost predicate AllWellFormed(fields: seq<string>) { forall i | 0 <= i < |fields| :: WellFormed(fields[i]) }

  /** Well-formed fields before a text do not change how the text splits. */
  lemma {:induction false} JoinedBefore(fields: seq<string>, last: string)
    requires AllWellFormed(fields) && forall i | 0 <= i < |fields| :: FieldText(fields[i])
    ensures Fields(Join(fields + [last], " ")) == fields + Fields(last)
    decreases |fields|
  {
    hide FieldText, WellFormed, Fields;
    var all := fields + [last];
    if fields == [] {
      assert all == [last];
    } else {
      assert all[1..] == fields[1..] + [last];
      assert AllWellFormed(fields[1..]);
      JoinedBefore(fields[1..], last);
      FieldsOfJoined(fields[0], Join(all[1..], " "));
      assert [fields[0]] + (fields[1..] + Fields(last)) == fields + Fields(last);
    }
  }

  lemma {:induction false} OneNotWellFormed(kept: seq<string>, last: string)
    requires (forall i | 0 <= i < |kept| :: FieldText(kept[i]) && kept[i] != "") && !AllWellFormed(kept)
    requires last != "" && !IsSpace(last[0])
    ensures Fields(Join(kept + [last], " ")) != kept + [last]
    decreases |kept|
  {
    hide FieldText, WellFormed, Fields;
    var all := kept + [last];
    var rest := Join(all[1..], " ");
    assert all[1..] == kept[1..] + [last];
    assert Join(all, " ") == kept[0] + " " + rest;
    if WellFormed(kept[0]) {
      assert forall i | 0 <= i < |kept[1..]| :: kept[1..][i] == kept[i + 1];
      assert !AllWellFormed(kept[1..]);
      OneNotWellFormed(kept[1..], last);
      FieldsOfJoined(kept[0], rest);
      assert ([kept[0]] + Fields(rest))[1..] == Fields(rest);
    } else {
      assert all[1..][0] == if |kept| > 1 then kept[1] else last;
      if |kept| > 1 {
        TextStarts(kept[1]);
      }
      FieldGrows(kept[0], rest);
    }
  }

  lemma TextStarts(field: string)
    requires FieldText(field) && field != ""
    ensures !IsSpace(field[0])
  {
    NonSpaceEnds(field);
  }

  lemma JoinEnds(kept: seq<string>, last: string) returns (before: string)
    ensures Join(kept + [last], " ") == before + last
  {
    if kept == [] {
      before := "";
      assert [] + [last] == [last];
    } else {
      var b := JoinEnds(kept[1..], last);
      before := kept[0] + " " + b;
      assert (kept + [last])[1..] == kept[1..] + [last];
      assert before + last == kept[0] + " " + (b + last);
    }
  }

  // ---- rewriting ----

  /** For every keyword string and every mode: the rewritten string splits into the kept fields,
      unchanged and in order, and the new mode, exactly if every kept field is well formed and the mode
      fits into its field. */
  lemma RewriteSplits(value: string, mode: string)
    ensures var kept := Kept(Fields(value));
      Fields(RewriteKeyword(value, mode)) == kept + [ModeField(mode)] <==> AllWellFormed(kept) && Fits(mode)
  {
    hide FieldText, WellFormed, Fields, Kept, Join, Fits, ModeField, AllWellFormed;
    var kept := Kept(Fields(value));
    var last := ModeField(mode);
    var r := RewriteKeyword(value, mode);
    KeptTexts(value);
    FitsIsText(mode);
    FieldsAreTexts(r);
    assert (kept + [last])[|kept|] == last;
    if Fits(mode) {
      FittingModeSplits(kept, mode);
    }
  }

  lemma FittingModeSplits(kept: seq<string>, mode: string)
    requires Fits(mode) && forall i | 0 <= i < |kept| :: FieldText(kept[i])
    ensures Fields(Join(kept + [ModeField(mode)], " ")) == kept + [ModeField(mode)] <==> AllWellFormed(kept)
  {
    hide FieldText, WellFormed, Fields, Join, Fits;
    var last := ModeField(mode);
    FitsIsText(mode);
    FitsEnds(mode);
    if AllWellFormed(kept) {
      JoinedBefore(kept, last);
      FieldsOfText(last);
    } else if "" in kept {
      var before := JoinEnds(kept, last);
      var r := before + last;
      assert r[|r| - 1] == last[|last| - 1];
      FieldsNotEmpty(r);
      var i :| 0 <= i < |kept| && kept[i] == "";
      assert (kept + [last])[i] == "";
    } else {
      OneNotWellFormed(kept, last);
    }
  }

  lemma FitsEnds(mode: string)
    requires Fits(mode)
    ensures var field := ModeField(mode); field != "" && !IsSpace(field[0]) && !IsSpace(field[|field| - 1])
  {
    hide OneValue;
    assert mode == "" ==> ModeField(mode) == "sslmode=";
  }

  /** What is rewritten as a keyword string is read as one: its first kept field does not start as a URL. */
  predicate StaysKeyword(value: string) {
    var kept := Kept(Fields(value));
    !Url.IsUrl(value) && !(kept != [] && Url.IsUrl(kept[0]))
  }

  lemma RewriteStaysKeyword(value: string, mode: string)
    requires !Url.IsUrl(value)
    ensures StaysKeyword(value) <==> !Url.IsUrl(RewriteKeyword(value, mode))
  {
    hide Fields, Kept, Url.IsUrl;
    var kept := Kept(Fields(value));
    var r := RewriteKeyword(value, mode);
    Url.UrlPrefix(r);
    if kept == [] {
      assert [] + [ModeField(mode)] == [ModeField(mode)];
      assert r == ModeField(mode);
      NotTheScheme(r);
    } else {
      assert (kept + [ModeField(mode)])[0] == kept[0];
      assert kept[0] + " " <= r;
      Url.UrlPrefix(kept[0]);
      SchemeHasNoSpace(kept[0], r);
      PrefixIsUrl(kept[0], r);
    }
  }

  lemma PrefixIsUrl(field: string, s: string)
    requires field + " " <= s
    ensures Url.IsUrl(field) ==> Url.IsUrl(s)
  {
    assert forall i | 0 <= i < |field| :: s[i] == (field + " ")[i];
    assert Lower(field) <= Lower(s);
  }

  lemma NotTheScheme(s: string)
    requires "sslmode=" <= s
    ensures !Url.IsUrl(s)
  {
    assert Lower(s)[0] == 's';
  }

  lemma SchemeHasNoSpace(field: string, s: string)
    requires field + " " <= s
    ensures !Url.IsUrl(field) ==> !Url.IsUrl(s)
  {
    var n := |Url.SCHEME|;
    if |field| >= n {
      assert Lower(s)[..n] == Lower(field)[..n];
    } else {
      assert s[|field|] == ' ';
      assert |s| >= n ==> Lower(s)[|field|] != Url.SCHEME[|field|];
    }
  }

  lemma RewriteFields(value: string, mode: string)
    requires AllWellFormed(Kept(Fields(value)))
    ensures Fields(RewriteKeyword(value, mode)) == Kept(Fields(value)) + Fields(ModeField(mode))
  {
    hide FieldText, Fields, Kept, Join, AllWellFormed;
    KeptTexts(value);
    JoinedBefore(Kept(Fields(value)), ModeField(mode));
  }

  /** For a keyword string whose kept fields are well formed and every mode: reading after rewriting gives
      the mode written exactly if the mode is one value that is its own unquoted lower-case text; one value
      reads as its unquoted lower-case text. */
  lemma RewriteReadsBack(value: string, mode: string)
    requires StaysKeyword(value) && AllWellFormed(Kept(Fields(value)))
    ensures OneValue(mode) ==> Mode(Rewrite(value, mode)) == Some(Lower(UnquoteValue(mode)))
    ensures Mode(Rewrite(value, mode)) == Some(mode) <==> OneValue(mode) && Lower(UnquoteValue(mode)) == mode
  {
    hide Fields, Kept, FieldMode, Url.IsUrl, AllWellFormed, OneValue, ModeField, Join, UnquoteValue, IsModeField;
    RewriteStaysKeyword(value, mode);
    RewriteFields(value, mode);
    ModeReadsBack(mode);
    KeptAre(Fields(value));
    NothingDropped(Kept(Fields(value)));
    LastModeConcat(Kept(Fields(value)), Fields(ModeField(mode)));
  }

  /** Of two rewrites only the last one counts, exactly if every field that the first mode splits into
      names the mode; so in particular if it is one value. */
  lemma RewriteTwice(value: string, m: string, n: string)
    requires StaysKeyword(value) && AllWellFormed(Kept(Fields(value)))
    ensures Rewrite(Rewrite(value, m), n) == Rewrite(value, n) <==> Kept(Fields(ModeField(m))) == []
    ensures OneValue(m) ==> Kept(Fields(ModeField(m))) == []
  {
    hide Fields, Url.IsUrl, AllWellFormed, OneValue, ModeField, Join, IsModeField, StaysKeyword, Kept;
    StaysKeywordIs(value);
    RewriteStaysKeyword(value, m);
    RewriteFields(value, m);
    var kept, more := Kept(Fields(value)), Kept(Fields(ModeField(m)));
    KeptAre(Fields(value));
    NothingDropped(kept);
    KeptConcat(kept, Fields(ModeField(m)));
    JoinLonger(kept, more, ModeField(n));
    if OneValue(m) {
      OneValueReads(m);
      OneDropped(Fields(ModeField(m)));
    }
    assert kept + [] == kept;
  }

  lemma StaysKeywordIs(value: string)
    requires StaysKeyword(value)
    ensures !Url.IsUrl(value)
  {
  }

  lemma OneDropped(fields: seq<string>)
    requires |fields| == 1 && IsModeField(fields[0])
    ensures Kept(fields) == []
  {
    hide IsModeField;
  }

  lemma {:induction false} JoinLonger(a: seq<string>, more: seq<string>, last: string)
    ensures more != [] ==> |Join(a + more + [last], " ")| > |Join(a + [last], " ")|
    decreases |a|
  {
    if a != [] {
      JoinLonger(a[1..], more, last);
      assert (a + more + [last])[1..] == a[1..] + more + [last] && (a + [last])[1..] == a[1..] + [last];
    } else if more != [] {
      JoinAtLeast(more[1..], last);
      assert (a + more + [last])[0] == more[0] && (a + more + [last])[1..] == more[1..] + [last];
      assert a + [last] == [last];
    }
  }

  lemma {:induction false} JoinAtLeast(more: seq<string>, last: string)
    ensures |Join(more + [last], " ")| >= |last|
    decreases |more|
  {
    if more == [] {
      assert more + [last] == [last];
    } else {
      JoinAtLeast(more[1..], last);
      assert (more + [last])[1..] == more[1..] + [last];
    }
  }

  // ---- a field that is not well formed ----

  lemma {:induction false} QuotedRuns(s: string)
    requires '\'' !in s && '\\' !in s
    ensures Run(Quoted, s) == Quoted && Through(Quoted, s)
  {
    if s != "" {
      QuotedRuns(s[1..]);
    }
  }

  lemma UnclosedField(key: string, text: string)
    requires key != "" && '=' !in key && !IsSpace(key[0]) && !EqualFold(Trim(key), "sslmode")
    requires '\'' !in text && '\\' !in text && text != "" && !IsSpace(text[|text| - 1])
    ensures var field := key + "=" + ("'" + text);
      Fields(field) == [field] && !WellFormed(field) && !IsModeField(field)
  {
    hide Run, Through, Trim, EqualFold, Fields;
    var field := key + "=" + ("'" + text);
    KeyValueRuns(key, "'" + text);
    assert ("'" + text)[1..] == text;
    QuotedRuns(text);
    TrimFixed(field);
    FieldsOfText(field);
    CutAt(key, '=', "'" + text);
  }

  /** An unclosed quote swallows the mode: the rewritten string is one field, and no mode is found. */
  lemma UnclosedQuoteHidesMode(key: string, text: string, mode: string)
    requires key != "" && '=' !in key && !IsSpace(key[0]) && !EqualFold(Trim(key), "sslmode") && key[0] != 'k'
        && key[0] != 'K'
    requires '\'' !in text && '\\' !in text && text != "" && !IsSpace(text[|text| - 1])
    requires '\'' !in mode && '\\' !in mode && (mode != "" ==> !IsSpace(mode[|mode| - 1]))
    ensures var value := key + "=" + ("'" + text); var after := Rewrite(value, mode);
      !WellFormed(value) && Fields(value) == [value] && Fields(after) == [after] && Mode(after) == None
  {
    hide Trim, Url.IsUrl, Fields, WellFormed, EqualFold, IsModeField, Join, ModeField;
    var value := key + "=" + ("'" + text);
    var longer := text + " " + ModeField(mode);
    UnclosedField(key, text);
    LongerText(text, mode);
    UnclosedField(key, longer);
    var after := key + "=" + ("'" + longer);
    assert value + " " + ModeField(mode) == after;
    NotAUrl(value);
    NotAUrl(after);
    RewriteOne(value, mode);
    assert Rewrite(value, mode) == after;
    assert [after][..0] == [];
    assert FieldMode(after) == None;
    assert LastMode([after]) == None;
    assert Mode(after) == None;
  }

  lemma LongerText(text: string, mode: string)
    requires '\'' !in text && '\\' !in text
    requires '\'' !in mode && '\\' !in mode && (mode != "" ==> !IsSpace(mode[|mode| - 1]))
    ensures var longer := text + " " + ModeField(mode);
      '\'' !in longer && '\\' !in longer && longer != "" && !IsSpace(longer[|longer| - 1])
  {
    var longer := text + " " + ModeField(mode);
    assert mode != "" ==> longer[|longer| - 1] == mode[|mode| - 1];
    assert mode == "" ==> longer[|longer| - 1] == '=';
  }

  lemma RewriteOne(value: string, mode: string)
    requires Fields(value) == [value] && !IsModeField(value) && !Url.IsUrl(value)
    ensures Rewrite(value, mode) == value + " " + ModeField(mode)
  {
    hide Fields, Url.IsUrl, IsModeField, ModeField;
    assert Kept([value]) == [value];
    assert [value] + [ModeField(mode)] == [value, ModeField(mode)];
    assert [value, ModeField(mode)][1..] == [ModeField(mode)];
    assert Join([ModeField(mode)], " ") == ModeField(mode);
    assert RewriteKeyword(value, mode) == Join([value, ModeField(mode)], " ");
  }

  lemma NotAUrl(s: string)
    requires s != "" && s[0] != 'k' && s[0] != 'K'
    ensures !Url.IsUrl(s)
  {
    assert Lower(s)[0] == LowerChar(s[0]);
  }
}
