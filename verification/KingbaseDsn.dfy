/** Kingbase connection strings in keyword form: splitting them into fields, rewriting and reading
    sslmode, and printing a connection string from its parts. */
module KingbaseDsn {
  import opened Text
  import Url = KingbaseUrl

  predicate IsNativeSpace(c: char) { c == ' ' || c == '\t' || c == '\n' || c == '\r' || c == 12 as char }

  // ---- fields ----

  /** Where in a field the splitter is: in the key, between `=` and the value, in a bare or a quoted
      value, after a backslash there, or after the closing quote. */
  datatype Place = Key | Gap | Bare | BareEscape | Quoted | QuotedEscape | AfterQuote

  function Next(p: Place, c: char): Place {
    match p
    case Key => if c == '=' then Gap else Key
    case Gap => if IsNativeSpace(c) then Gap else if c == '\'' then Quoted else if c == '\\' then BareEscape else Bare
    case Bare => if c == '\\' then BareEscape else Bare
    case BareEscape => Bare
    case Quoted => if c == '\\' then QuotedEscape else if c == '\'' then AfterQuote else Quoted
    case QuotedEscape => Quoted
    case AfterQuote => AfterQuote
  }

  predicate Ends(p: Place, c: char) { (p == Bare || p == AfterQuote) && IsNativeSpace(c) }

  /** How many characters the field takes from here. */
  function End(p: Place, s: string): (n: nat)
    ensures n <= |s|
    decreases |s|
  {
    if s == "" || Ends(p, s[0]) then 0 else 1 + End(Next(p, s[0]), s[1..])
  }

  function Fields(s: string): seq<string>
    decreases |s|
  {
    if s == "" then []
    else if IsNativeSpace(s[0]) then Fields(s[1..])
    else
      var end := End(Key, s);
      assert end > 0;
      [Trim(s[..end])] + Fields(s[end..])
  }

  /** Where the field ends in the whole text. */
  function EndAt(p: Place, value: string, index: nat): (n: nat)
    requires index <= |value|
    ensures index <= n <= |value|
  {
    index + End(p, value[index..])
  }

  lemma EndStep(p: Place, value: string, index: nat)
    requires index <= |value|
    ensures EndAt(p, value, index) == if index == |value| || Ends(p, value[index]) then index
        else EndAt(Next(p, value[index]), value, index + 1)
  {
    if index < |value| {
      assert value[index..][1..] == value[index + 1..];
    }
  }

  lemma FieldsStep(value: string, index: nat)
    requires index < |value|
    ensures value[0..] == value && Fields(value[|value|..]) == []
    ensures IsNativeSpace(value[index]) ==> Fields(value[index..]) == Fields(value[index + 1..])
    ensures !IsNativeSpace(value[index]) ==>
      var end := EndAt(Key, value, index);
      index < end && Fields(value[index..]) == [Trim(value[index..end])] + Fields(value[end..])
  {
    hide Trim;
    var s := value[index..];
    assert s[1..] == value[index + 1..];
    var end := End(Key, s);
    assert s[..end] == value[index..index + end] && s[end..] == value[index + end..];
  }

  method SplitFields(value: string) returns (fields: seq<string>)
    ensures fields == Fields(value)
  {
    hide Fields, EndAt, Trim;
    fields := [];
    var index: nat := 0;
    if value != "" {
      FieldsStep(value, 0);
    } else {
      NoFields();
      return;
    }
    while index < |value|
      invariant index <= |value| && Fields(value) == fields + Fields(value[index..])
    {
      while index < |value| && IsNativeSpace(value[index])
        invariant index <= |value| && Fields(value) == fields + Fields(value[index..])
      {
        FieldsStep(value, index);
        index := index + 1;
      }
      if index >= |value| {
        break;
      }
      var start := index;
      FieldsStep(value, start);
      while index < |value| && value[index] != '='
        invariant start <= index <= |value| && EndAt(Key, value, start) == EndAt(Key, value, index)
      {
        EndStep(Key, value, index);
        index := index + 1;
      }
      if index >= |value| {
        EndStep(Key, value, index);
        assert value[start..|value|] == value[start..];
        fields := fields + [Trim(value[start..])];
        break;
      }
      EndStep(Key, value, index);
      index := index + 1;
      index := SkipValue(value, index);
      fields := fields + [Trim(value[start..index])];
    }
  }

  lemma NoFields()
    ensures Fields("") == []
  {
  }

  /** The part of the loop that follows the `=`. */
  method SkipValue(value: string, start: nat) returns (index: nat)
    requires start <= |value|
    ensures index == EndAt(Gap, value, start)
  {
    hide EndAt;
    index := start;
    while index < |value| && IsNativeSpace(value[index])
      invariant index <= |value| && EndAt(Gap, value, start) == EndAt(Gap, value, index)
    {
      EndStep(Gap, value, index);
      index := index + 1;
    }
    var quoted := index < |value| && value[index] == '\'';
    EndStep(Gap, value, index);
    EndStep(Bare, value, index);
    if quoted {
      index := index + 1;
    }
    while index < |value|
      invariant index <= |value| && EndAt(Gap, value, start) == EndAt(if quoted then Quoted else Bare, value, index)
    {
      EndStep(if quoted then Quoted else Bare, value, index);
      if value[index] == '\\' && index + 1 < |value| {
        EndStep(if quoted then QuotedEscape else BareEscape, value, index + 1);
        index := index + 2;
        continue;
      }
      if value[index] == '\\' {
        EndStep(if quoted then QuotedEscape else BareEscape, value, index + 1);
        EndStep(if quoted then Quoted else Bare, value, index + 1);
      }
      if quoted {
        if value[index] == '\'' {
          index := index + 1;
          EndStep(AfterQuote, value, index);
          break;
        }
      } else if IsNativeSpace(value[index]) {
        EndStep(AfterQuote, value, index);
        break;
      }
      index := index + 1;
    }
    EndStep(if quoted then Quoted else Bare, value, index);
    EndStep(AfterQuote, value, index);
    while index < |value| && !IsNativeSpace(value[index])
      invariant index <= |value| && EndAt(Gap, value, start) == EndAt(AfterQuote, value, index)
    {
      EndStep(AfterQuote, value, index);
      index := index + 1;
    }
    EndStep(AfterQuote, value, index);
  }

  // ---- what the splitter does to the text of a field ----

  function Run(p: Place, s: string): Place
    decreases |s|
  {
    if s == "" then p else Run(Next(p, s[0]), s[1..])
  }

  /** The field does not end inside the text. */
  predicate Through(p: Place, s: string)
    decreases |s|
  {
    s != "" ==> !Ends(p, s[0]) && Through(Next(p, s[0]), s[1..])
  }

  lemma {:induction false} ThroughConcat(p: Place, a: string, b: string)
    ensures Run(p, a + b) == Run(Run(p, a), b)
    ensures Through(p, a + b) <==> Through(p, a) && Through(Run(p, a), b)
    ensures Through(p, a) ==> End(p, a + b) == |a| + End(Run(p, a), b)
    decreases |a|
  {
    if a == "" {
      assert a + b == b;
    } else {
      assert (a + b)[1..] == a[1..] + b;
      ThroughConcat(Next(p, a[0]), a[1..], b);
    }
  }

  lemma {:induction false} EndIsThrough(p: Place, s: string)
    ensures Through(p, s[..End(p, s)]) && (End(p, s) == |s| <==> Through(p, s))
    ensures End(p, s) < |s| ==> Ends(Run(p, s[..End(p, s)]), s[End(p, s)])
    decreases |s|
  {
    if s != "" && !Ends(p, s[0]) {
      EndIsThrough(Next(p, s[0]), s[1..]);
      assert s[..End(p, s)][1..] == s[1..][..End(p, s) - 1];
    }
  }

  /** A field is well formed when it has a value that is finished: the key is followed by `=`, the value
      is not empty, a quote is closed, and no backslash is left dangling. */
  predicate WellFormed(field: string) {
    var p := Run(Key, field);
    p == Bare || p == AfterQuote
  }

  /** The text of one field: trimmed, and the splitter does not stop in it. */
  predicate FieldText(field: string) { Trim(field) == field && Through(Key, field) }

  lemma NonSpaceEnds(s: string)
    requires Trim(s) == s && s != ""
    ensures !IsSpace(s[0]) && !IsSpace(s[|s| - 1])
  {
    var _ := TrimSplits(s);
  }

  lemma {:induction false} SpacesInKey(s: string)
    requires forall i | 0 <= i < |s| :: IsSpace(s[i])
    ensures Run(Key, s) == Key && Through(Key, s)
  {
    if s != "" {
      SpacesInKey(s[1..]);
    }
  }

  lemma InThree(s: string, i: nat, j: nat)
    requires i <= j <= |s|
    ensures s == s[..i] + (s[i..j] + s[j..])
  {
  }

  lemma TrimmedThrough(s: string)
    requires Through(Key, s)
    ensures FieldText(Trim(s))
  {
    hide Trim, Through, Run;
    var lead := TrimSplits(s);
    TrimTwice(s);
    var field := Trim(s);
    var before, after := s[..lead], s[lead + |field|..];
    InThree(s, lead, lead + |field|);
    ThroughConcat(Key, before, field + after);
    SpacesInKey(before);
    ThroughConcat(Key, field, after);
  }

  lemma {:induction false} FieldsAreTexts(s: string)
    ensures forall i | 0 <= i < |Fields(s)| :: FieldText(Fields(s)[i])
    decreases |s|
  {
    hide FieldText, Trim, End;
    if s != "" {
      if IsNativeSpace(s[0]) {
        FieldsAreTexts(s[1..]);
      } else {
        var end := End(Key, s);
        assert end > 0 by {
          StartTakes(s);
        }
        EndIsThrough(Key, s);
        TrimmedThrough(s[..end]);
        FieldsAreTexts(s[end..]);
      }
    }
  }

  lemma StartTakes(s: string)
    requires s != ""
    ensures End(Key, s) > 0
  {
  }

  lemma FieldsOfText(field: string)
    requires FieldText(field) && field != ""
    ensures Fields(field) == [field]
  {
    hide Trim, Through, End;
    NonSpaceEnds(field);
    EndIsThrough(Key, field);
    assert field[..|field|] == field && field[|field|..] == "";
  }

  lemma FieldsOfJoined(field: string, rest: string)
    requires FieldText(field) && WellFormed(field)
    ensures field != "" && Fields(field + " " + rest) == [field] + Fields(rest)
  {
    hide Trim, Through, End, Run;
    EmptyIsNotWellFormed();
    NonSpaceEnds(field);
    var s := field + " " + rest;
    assert s == field + (" " + rest);
    ThroughConcat(Key, field, " " + rest);
    EndsHere(Run(Key, field), " " + rest);
    assert s[..|field|] == field && s[|field|..] == " " + rest && (" " + rest)[1..] == rest;
    FieldsStep(s, 0);
    assert s[0..|field|] == field;
    FieldsStep(s, |field|);
    assert s[|field| + 1..] == rest;
  }

  lemma EmptyIsNotWellFormed()
    ensures !WellFormed("")
  {
  }

  lemma EndsHere(p: Place, s: string)
    requires s != "" && Ends(p, s[0])
    ensures End(p, s) == 0
  {
  }

  /** Well-formed fields, joined, split into just themselves; the last one need not be well formed. */
  lemma {:induction false} JoinedFields(fields: seq<string>)
    requires fields != [] && (forall i | 0 <= i < |fields| :: FieldText(fields[i]) && fields[i] != "")
    requires forall i | 0 <= i < |fields| - 1 :: WellFormed(fields[i])
    ensures Fields(Join(fields, " ")) == fields
    decreases |fields|
  {
    hide FieldText, WellFormed, Fields;
    if |fields| == 1 {
      FieldsOfText(fields[0]);
    } else {
      JoinedFields(fields[1..]);
      FieldsOfJoined(fields[0], Join(fields[1..], " "));
    }
  }

  /** A field that is not well formed takes the start of what follows it. */
  lemma FieldGrows(field: string, rest: string)
    requires FieldText(field) && field != "" && !WellFormed(field) && rest != "" && !IsSpace(rest[0])
    ensures var s := field + " " + rest; Fields(s) != [] && Fields(s)[0] != field
  {
    hide Trim, Through, Run;
    NonSpaceEnds(field);
    var s := field + " " + rest;
    assert s == field + (" " + rest);
    ThroughConcat(Key, field, " " + rest);
    assert (" " + rest)[1..] == rest;
    assert End(Run(Key, field), " " + rest) >= 2;
    var end := End(Key, s);
    var piece := s[..end];
    var lead := TrimSplits(piece);
    assert piece[0] == field[0] && piece[|field| + 1] == rest[0];
    assert lead == 0;
    assert |Trim(piece)| >= |field| + 2;
  }

  /** A text that does not end with white space has no empty field. */
  lemma {:induction false} FieldsNotEmpty(s: string)
    requires s != "" && !IsSpace(s[|s| - 1])
    ensures forall i | 0 <= i < |Fields(s)| :: Fields(s)[i] != ""
    decreases |s|
  {
    hide Trim;
    if IsNativeSpace(s[0]) {
      assert s[1..][|s| - 2] == s[|s| - 1];
      FieldsNotEmpty(s[1..]);
    } else {
      var end := End(Key, s);
      StartTakes(s);
      EndIsThrough(Key, s);
      if end < |s| {
        HasEquals(Key, s[..end]);
        NotAllSpace(s[..end], '=');
        assert s[end..][|s| - end - 1] == s[|s| - 1];
        FieldsNotEmpty(s[end..]);
      } else {
        assert s[..end] == s && s[end..] == "";
        NotAllSpace(s, s[|s| - 1]);
      }
    }
  }

  lemma {:induction false} HasEquals(p: Place, s: string)
    requires p == Key && Run(p, s) != Key
    ensures '=' in s
  {
    if s[0] != '=' {
      HasEquals(p, s[1..]);
    }
  }

  lemma NotAllSpace(s: string, c: char)
    requires c in s && !IsSpace(c)
    ensures Trim(s) != ""
  {
    var _ := TrimSplits(s);
  }

  // ---- rewriting ----

  predicate IsModeField(field: string) {
    After(field, '=').Some? && EqualFold(Trim(Before(field, '=')), "sslmode")
  }

  /** The fields that a rewrite keeps. */
  function Kept(fields: seq<string>): seq<string> {
    if fields == [] then []
    else (if IsModeField(fields[0]) then [] else [fields[0]]) + Kept(fields[1..])
  }

  lemma KeptStep(fields: seq<string>, i: nat)
    requires i <= |fields|
    ensures fields[0..] == fields && Kept(fields[|fields|..]) == []
    ensures i < |fields| ==>
        Kept(fields[i..]) == (if IsModeField(fields[i]) then [] else [fields[i]]) + Kept(fields[i + 1..])
  {
    hide IsModeField;
    assert i < |fields| ==> fields[i..][1..] == fields[i + 1..];
  }

  function ModeField(mode: string): string { "sslmode=" + mode }

  function RewriteKeyword(value: string, mode: string): string {
    Join(Kept(Fields(value)) + [ModeField(mode)], " ")
  }

  function Rewrite(value: string, mode: string): string {
    if Url.IsUrl(value) then Url.Print(Url.Rewritten(Url.Parts(value), mode)) else RewriteKeyword(value, mode)
  }

  method RewriteSSLMode(value: string, sslMode: string) returns (r: string)
    ensures r == Rewrite(value, sslMode)
  {
    hide Url.IsUrl, Url.Print, Url.Rewritten, Url.Parts, Fields, IsModeField, Join, Kept;
    if Url.IsUrl(value) {
      r := Url.RewriteUrl(value, sslMode);
      return;
    }
    var fields := SplitFields(value);
    var result: seq<string> := [];
    KeptStep(fields, |fields|);
    for i := 0 to |fields|
      invariant Kept(fields) == result + Kept(fields[i..])
    {
      KeptStep(fields, i);
      if IsModeField(fields[i]) {
        continue;
      }
      result := result + [fields[i]];
    }
    assert result == Kept(fields);
    result := result + ["sslmode=" + sslMode];
    r := Join(result, " ");
  }

  // ---- reading ----

  function UnquoteValue(value: string): string {
    var v := Trim(value);
    Trim(if |v| >= 2 && v[0] == '\'' && v[|v| - 1] == '\'' then v[1..|v| - 1] else v)
  }

  function FieldMode(field: string): Option<string> {
    if IsModeField(field) then Some(Lower(UnquoteValue(After(field, '=').value))) else None
  }

  function LastMode(fields: seq<string>): Option<string> {
    if fields == [] then None
    else if FieldMode(fields[|fields| - 1]).Some? then FieldMode(fields[|fields| - 1])
    else LastMode(fields[..|fields| - 1])
  }

  function Mode(value: string): Option<string> {
    if Url.IsUrl(value) then Url.Mode(value) else LastMode(Fields(value))
  }

  method ReadSSLMode(value: string) returns (sslMode: string, found: bool)
    ensures Mode(value) == if found then Some(sslMode) else None
  {
    hide Url.IsUrl, Url.Mode, Fields, FieldMode;
    if Url.IsUrl(value) {
      sslMode, found := Url.ReadUrlMode(value);
      return;
    }
    sslMode, found := "", false;
    var fields := SplitFields(value);
    for i := 0 to |fields|
      invariant LastMode(fields[..i]) == if found then Some(sslMode) else None
    {
      assert fields[..i + 1][..i] == fields[..i];
      var mode := FieldMode(fields[i]);
      if mode.None? {
        continue;
      }
      sslMode, found := mode.value, true;
    }
    assert fields[..|fields|] == fields;
  }
}
