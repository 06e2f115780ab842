/** Building a Kingbase connection string: the mode asked for, the parts, and what is read back. */
module KingbaseBuild {
  import opened Text
  import opened KingbaseDsn
  import opened KingbaseMode

  function ReplaceAll(s: string, c: char, r: string): string {
    if s == "" then "" else (if s[0] == c then r else [s[0]]) + ReplaceAll(s[1..], c, r)
  }

  function QuoteValue(value: string): string {
    "'" + ReplaceAll(ReplaceAll(value, '\\', "\\\\"), '\'', "\\'") + "'"
  }

  datatype ConnectParams = ConnectParams(
    connectionString: string, ssl: bool, host: string, port: int, username: string, password: string, database: string,
    caCertPath: string, clientCertPath: string, clientKeyPath: string, urlParams: string)

  const JDBC_SCHEME := "jdbc:kingbase8://"

  predicate IsJdbcUrl(value: string) { JDBC_SCHEME <= Lower(Trim(value)) }

  /** The connection string that the user gave, if it is used instead of the separate parameters. */
  function Native(cp: ConnectParams): Option<string> {
    var value := Trim(cp.connectionString);
    if value != "" && !IsJdbcUrl(value) then Some(value) else None
  }

  predicate IsSafeKey(key: string) {
    Trim(key) != "" && forall i | 0 <= i < |Trim(key)| :: var c := Trim(key)[i]; c == '_' || IsLetter(c) || IsDigit(c)
  }

  /** strings.FieldsFunc at `&` and `;`: the pieces that are not empty. */
  function Pairs(piece: string, s: string): seq<string>
    decreases |s|
  {
    if s == "" then (if piece == "" then [] else [piece])
    else if s[0] == '&' || s[0] == ';' then (if piece == "" then [] else [piece]) + Pairs("", s[1..])
    else Pairs(piece + [s[0]], s[1..])
  }

  function ExtraPart(pair: string): Option<string> {
    var key, value := Before(pair, '='), After(pair, '=');
    if value.Some? && IsSafeKey(key) && !EqualFold(Trim(key), "sslmode") then
      Some(Trim(key) + "=" + QuoteValue(Trim(value.value)))
    else None
  }

  function ExtraParts(pairs: seq<string>): seq<string> {
    if pairs == [] then []
    else (if ExtraPart(pairs[0]).Some? then [ExtraPart(pairs[0]).value] else []) + ExtraParts(pairs[1..])
  }

  function Port(cp: ConnectParams): nat { if cp.port <= 0 then 54321 else cp.port }

  function Optional(key: string, value: string): seq<string> {
    if value != "" then [key + "=" + QuoteValue(value)] else []
  }

  function FirstParts(cp: ConnectParams): seq<string> {
    ["host" + "=" + QuoteValue(cp.host), "port" + "=" + Decimal(Port(cp)), "user" + "=" + QuoteValue(cp.username),
     "password" + "=" + QuoteValue(cp.password), "dbname" + "=" + QuoteValue(cp.database)]
  }

  function LastParts(cp: ConnectParams): seq<string> {
    ["connect_timeout" + "=" + "15"]
    + Optional("sslrootcert", cp.caCertPath) + Optional("sslcert", cp.clientCertPath)
    + Optional("sslkey", cp.clientKeyPath)
    + ExtraParts(Pairs("", cp.urlParams))
  }

  function Parts(cp: ConnectParams, sslMode: string): seq<string> {
    FirstParts(cp) + [ModeField(sslMode)] + LastParts(cp)
  }

  function Dsn(cp: ConnectParams, sslMode: string): string {
    if Native(cp).Some? then Rewrite(Native(cp).value, sslMode) else Join(Parts(cp, sslMode), " ")
  }

  // ---- the mode asked for ----

  function ParamMode(pair: string): Option<string> {
    if IsModeField(pair) then Some(Lower(Trim(After(pair, '=').value))) else None
  }

  /** The value of the last URL parameter that is called sslmode, or nothing. */
  function LastParamMode(pairs: seq<string>): string {
    if pairs == [] then ""
    else if ParamMode(pairs[|pairs| - 1]).Some? then ParamMode(pairs[|pairs| - 1]).value
    else LastParamMode(pairs[..|pairs| - 1])
  }

  function EffectiveMode(cp: ConnectParams): string {
    if Native(cp).Some? then
      var mode := Mode(Native(cp).value);
      if mode.Some? && mode.value != "" then mode.value else "prefer"
    else if LastParamMode(Pairs("", cp.urlParams)) != "" then LastParamMode(Pairs("", cp.urlParams))
    else if cp.ssl then "verify-full"
    else "prefer"
  }

  /** The mode that is written: `prefer` is tried as `require`. */
  function WrittenMode(cp: ConnectParams): string {
    if EffectiveMode(cp) == "prefer" then "require" else EffectiveMode(cp)
  }

  method EffectiveSSLMode(cp: ConnectParams) returns (sslMode: string)
    ensures sslMode == EffectiveMode(cp)
  {
    hide IsModeField, Pairs, Mode, ParamMode, Native;
    var value := Native(cp);
    if value.Some? {
      var found: bool;
      sslMode, found := ReadSSLMode(value.value);
      if !(found && sslMode != "") {
        sslMode := "prefer";
      }
      return;
    }
    sslMode := "";
    var pairs := Pairs("", cp.urlParams);
    for i := 0 to |pairs|
      invariant sslMode == LastParamMode(pairs[..i])
    {
      assert pairs[..i + 1][..i] == pairs[..i];
      if ParamMode(pairs[i]).Some? {
        sslMode := ParamMode(pairs[i]).value;
      }
    }
    assert pairs[..|pairs|] == pairs;
    if sslMode == "" {
      sslMode := if cp.ssl then "verify-full" else "prefer";
    }
  }

  lemma ExtraStep(pairs: seq<string>, i: nat)
    requires i <= |pairs|
    ensures pairs[0..] == pairs && ExtraParts(pairs[|pairs|..]) == []
    ensures i < |pairs| ==>
      ExtraParts(pairs[i..]) == (if ExtraPart(pairs[i]).Some? then [ExtraPart(pairs[i]).value] else [])
          + ExtraParts(pairs[i + 1..])
  {
    hide ExtraPart;
    assert i < |pairs| ==> pairs[i..][1..] == pairs[i + 1..];
  }

  /** The loop over the URL parameters. */
  method AppendExtraParts(fixed: seq<string>, pairs: seq<string>) returns (parts: seq<string>)
    ensures parts == fixed + ExtraParts(pairs)
  {
    hide ExtraPart, ExtraParts;
    parts := fixed;
    ExtraStep(pairs, |pairs|);
    for i := 0 to |pairs|
      invariant fixed + ExtraParts(pairs) == parts + ExtraParts(pairs[i..])
    {
      ExtraStep(pairs, i);
      var part := ExtraPart(pairs[i]);
      if part.Some? {
        parts := parts + [part.value];
      }
    }
  }

  method BuildDSN(cp: ConnectParams) returns (r: string)
    ensures r == Dsn(cp, WrittenMode(cp))
  {
    hide EffectiveMode, Dsn;
    var sslMode := EffectiveSSLMode(cp);
    if sslMode == "prefer" {
      sslMode := "require";
    }
    r := BuildDSNWithSSLMode(cp, sslMode);
  }

  method BuildDSNWithSSLMode(cp: ConnectParams, sslMode: string) returns (r: string)
    ensures r == Dsn(cp, sslMode)
  {
    hide QuoteValue, Decimal, ExtraParts, Pairs, Join, Native, Rewrite;
    if Native(cp).Some? {
      r := RewriteSSLMode(Native(cp).value, sslMode);
      return;
    }
    var port := cp.port;
    if port <= 0 {
      port := 54321;
    }
    var parts := [
      "host" + "=" + QuoteValue(cp.host),
      "port" + "=" + Decimal(port),
      "user" + "=" + QuoteValue(cp.username),
      "password" + "=" + QuoteValue(cp.password),
      "dbname" + "=" + QuoteValue(cp.database),
      "sslmode=" + sslMode,
      "connect_timeout" + "=" + "15"];
    assert parts == FirstParts(cp) + [ModeField(sslMode)] + ["connect_timeout" + "=" + "15"];
    hide FirstParts;
    if cp.caCertPath != "" {
      parts := parts + ["sslrootcert" + "=" + QuoteValue(cp.caCertPath)];
    }
    if cp.clientCertPath != "" {
      parts := parts + ["sslcert" + "=" + QuoteValue(cp.clientCertPath)];
    }
    if cp.clientKeyPath != "" {
      parts := parts + ["sslkey" + "=" + QuoteValue(cp.clientKeyPath)];
    }
    parts := AppendExtraParts(parts, Pairs("", cp.urlParams));
    assert parts == Parts(cp, sslMode);
    r := Join(parts, " ");
  }

  // ---- every part is one field ----

  /** A part other than the mode: one well-formed field. */
  predicate OtherPart(part: string) { FieldText(part) && WellFormed(part) && FieldMode(part) == None }

  /** QuoteValue without the opening quote. */
  function Escaped(value: string): string {
    ReplaceAll(ReplaceAll(value, '\\', "\\\\"), '\'', "\\'") + "'"
  }

  lemma EscapedShape(value: string)
    ensures value == "" ==> Escaped(value) == "'"
    ensures value != "" ==>
      Escaped(value) == (if value[0] == '\\' then "\\\\" else if value[0] == '\'' then "\\'" else [value[0]])
          + Escaped(value[1..])
  {
    if value != "" {
      var inner := ReplaceAll(value, '\\', "\\\\");
      var rest := ReplaceAll(value[1..], '\\', "\\\\");
      if value[0] == '\\' {
        assert inner == "\\\\" + rest && inner[1..] == "\\" + rest && inner[1..][1..] == rest;
        assert ReplaceAll("\\" + rest, '\'', "\\'") == "\\" + ReplaceAll(rest, '\'', "\\'");
        assert ReplaceAll(inner, '\'', "\\'") == "\\" + ReplaceAll("\\" + rest, '\'', "\\'");
      } else {
        assert inner == [value[0]] + rest && inner[1..] == rest;
      }
    }
  }

  /** The quoted text of a value never leaves the quotes. */
  lemma {:induction false} EscapedRuns(value: string)
    ensures var e := Escaped(value);
      Run(Quoted, e) == AfterQuote && Through(Quoted, e) && e != "" && e[|e| - 1] == '\''
  {
    hide Escaped;
    EscapedShape(value);
    var e := Escaped(value);
    if value == "" {
      assert e[1..] == "";
    } else {
      var tail := Escaped(value[1..]);
      EscapedRuns(value[1..]);
      if value[0] == '\\' || value[0] == '\'' {
        assert e[1..] == [value[0]] + tail && e[1..][1..] == tail;
      } else {
        assert e[1..] == tail;
      }
    }
  }

  /** A key that is a word. */
  predicate Word(key: string) {
    key != "" && forall i | 0 <= i < |key| :: key[i] == '_' || IsLetter(key[i]) || IsDigit(key[i])
  }

  lemma QuotedPart(key: string, value: string)
    requires Word(key) && !EqualFold(key, "sslmode")
    ensures OtherPart(key + "=" + QuoteValue(value))
  {
    hide Run, Through, Trim, EqualFold, ReplaceAll;
    var q := QuoteValue(value);
    EscapedRuns(value);
    var e := Escaped(value);
    assert q == "'" + e && q[1..] == e;
    PartIs(key, q);
  }

  lemma PartIs(key: string, text: string)
    requires Word(key) && !EqualFold(key, "sslmode") && text != "" && !IsSpace(text[|text| - 1])
    ensures var part := key + "=" + text;
      && Trim(part) == part && FieldMode(part) == None
      && Run(Key, part) == Run(Next(Gap, text[0]), text[1..])
      && Through(Key, part) == Through(Next(Gap, text[0]), text[1..])
  {
    hide Run, Through, Trim, EqualFold;
    var part := key + "=" + text;
    KeyValueRuns(key, text);
    TrimFixed(part);
    TrimFixed(key);
    CutAt(key, '=', text);
  }

  lemma {:induction false} DigitsRun(n: nat)
    ensures var d := Decimal(n); d != "" && forall i | 0 <= i < |d| :: IsDigit(d[i])
  {
    if n >= 10 {
      DigitsRun(n / 10);
    }
  }

  lemma NumberPart(key: string, text: string)
    requires Word(key) && !EqualFold(key, "sslmode") && text != "" && forall i | 0 <= i < |text| :: IsDigit(text[i])
    ensures OtherPart(key + "=" + text)
  {
    hide Run, Through, Trim, EqualFold;
    PlainRuns(text[1..]);
    PartIs(key, text);
  }

  lemma {:induction false} PlainRuns(s: string)
    requires forall i | 0 <= i < |s| :: !IsNativeSpace(s[i]) && s[i] != '\\'
    ensures Run(Bare, s) == Bare && Through(Bare, s)
  {
    if s != "" {
      PlainRuns(s[1..]);
    }
  }

  lemma NotMode(key: string)
    requires |key| != 7
    ensures !EqualFold(key, "sslmode")
  {
    assert |Upper(key)| == |key|;
  }

  lemma NotCalledMode()
    ensures !EqualFold("sslcert", "sslmode")
  {
    assert Upper("sslcert")[3] == 'C' && Upper("sslmode")[3] == 'M';
  }

  ghost predicate OtherParts(parts: seq<string>) { forall i | 0 <= i < |parts| :: OtherPart(parts[i]) }

  lemma {:induction false} ExtraPartsAre(pairs: seq<string>)
    ensures OtherParts(ExtraParts(pairs))
  {
    hide OtherPart, ExtraPart;
    if pairs != [] {
      ExtraPartsAre(pairs[1..]);
      if ExtraPart(pairs[0]).Some? {
        ExtraPartIs(pairs[0]);
      }
    }
  }

  lemma ExtraPartIs(pair: string)
    requires ExtraPart(pair).Some?
    ensures OtherPart(ExtraPart(pair).value)
  {
    hide OtherPart, QuoteValue, EqualFold, Trim;
    QuotedPart(Trim(Before(pair, '=')), Trim(After(pair, '=').value));
  }

  lemma FirstPartsAre(cp: ConnectParams)
    ensures OtherParts(FirstParts(cp))
  {
    hide OtherPart, QuoteValue, EqualFold, Decimal;
    NotMode("host");
    NotMode("port");
    NotMode("user");
    NotMode("password");
    NotMode("dbname");
    QuotedPart("host", cp.host);
    DigitsRun(Port(cp));
    NumberPart("port", Decimal(Port(cp)));
    QuotedPart("user", cp.username);
    QuotedPart("password", cp.password);
    QuotedPart("dbname", cp.database);
  }

  lemma OptionalIs(key: string, value: string)
    requires Word(key) && !EqualFold(key, "sslmode")
    ensures OtherParts(Optional(key, value))
  {
    hide OtherPart, QuoteValue, EqualFold;
    QuotedPart(key, value);
  }

  lemma LastPartsAre(cp: ConnectParams)
    ensures OtherParts(LastParts(cp))
  {
    hide OtherPart, EqualFold, Optional, ExtraParts;
    NotMode("connect_timeout");
    NumberPart("connect_timeout", "15");
    NotMode("sslrootcert");
    OptionalIs("sslrootcert", cp.caCertPath);
    NotCalledMode();
    OptionalIs("sslcert", cp.clientCertPath);
    NotMode("sslkey");
    OptionalIs("sslkey", cp.clientKeyPath);
    ExtraPartsAre(Pairs("", cp.urlParams));
  }

  lemma {:induction false} LastModeSkips(parts: seq<string>, others: seq<string>)
    requires OtherParts(others)
    ensures LastMode(parts + others) == LastMode(parts)
    decreases |others|
  {
    hide FieldMode, FieldText, WellFormed;
    if others == [] {
      assert parts + others == parts;
    } else {
      var all := parts + others;
      assert OtherPart(others[|others| - 1]);
      assert all[..|all| - 1] == parts + others[..|others| - 1];
      LastModeSkips(parts, others[..|others| - 1]);
    }
  }

  lemma OtherPartsAre(parts: seq<string>)
    requires OtherParts(parts)
    ensures AllWellFormed(parts) && forall i | 0 <= i < |parts| :: FieldText(parts[i]) && parts[i] != ""
  {
    hide FieldText, WellFormed, FieldMode;
    EmptyIsNotWellFormed();
    assert forall i | 0 <= i < |parts| :: OtherPart(parts[i]);
  }

  /** A list of parts that ends with a text, printed as one text. */
  lemma {:induction false} JoinTail(first: seq<string>, last: seq<string>)
    requires last != []
    ensures Join(first + last, " ") == Join(first + [Join(last, " ")], " ")
    decreases |first|
  {
    if first == [] {
      assert [] + last == last && [] + [Join(last, " ")] == [Join(last, " ")];
    } else {
      JoinTail(first[1..], last);
      assert (first + last)[1..] == first[1..] + last
        && (first + [Join(last, " ")])[1..] == first[1..] + [Join(last, " ")];
    }
  }

  /** Whatever the other values hold, they stay out of it: only the mode and what follows it is split. */
  lemma FieldsFromMode(cp: ConnectParams, sslMode: string)
    ensures var last := Join(LastParts(cp), " "); last != "" && last[0] == 'c'
    ensures Fields(Join(LastParts(cp), " ")) == LastParts(cp)
    ensures Fields(Join(Parts(cp, sslMode), " ")) == FirstParts(cp)
        + Fields(ModeField(sslMode) + " " + Join(LastParts(cp), " "))
  {
    hide FirstParts, FieldText, WellFormed, FieldMode, Fields, Join, ModeField, AllWellFormed;
    var first, mode, last := FirstParts(cp), ModeField(sslMode), LastParts(cp);
    FirstPartsAre(cp);
    OtherPartsAre(first);
    LastPartsAre(cp);
    OtherPartsAre(last);
    LastPartsStart(cp);
    hide LastParts;
    AllParts(last);
    JoinedFields(last);
    assert first + [mode] + last == first + ([mode] + last);
    JoinTail(first, [mode] + last);
    JoinCons(mode, last);
    JoinedBefore(first, Join([mode] + last, " "));
  }

  lemma AllParts(parts: seq<string>)
    requires AllWellFormed(parts)
    ensures forall i | 0 <= i < |parts| - 1 :: WellFormed(parts[i])
  {
    hide WellFormed;
  }

  lemma LastPartsStart(cp: ConnectParams)
    ensures LastParts(cp) != [] && LastParts(cp)[0] == "connect_timeout" + "=" + "15"
    ensures var last := Join(LastParts(cp), " "); last != "" && last[0] == 'c'
  {
    hide ExtraParts, Optional;
    var last := LastParts(cp);
    assert last[0] == "connect_timeout" + "=" + "15";
    assert last[0] <= Join(last, " ");
  }

  lemma JoinCons(part: string, parts: seq<string>)
    requires parts != []
    ensures Join([part] + parts, " ") == part + " " + Join(parts, " ")
  {
    assert ([part] + parts)[1..] == parts;
  }

  /** Whatever quotes, backslashes and spaces the other values hold and for every mode: the connection
      string printed from the parameters splits into exactly the parts printed, if and only if the mode
      fits into its field and is finished there. Then the unquoted mode is read from it. */
  lemma BuiltReadsBack(cp: ConnectParams, sslMode: string)
    ensures var dsn := Join(Parts(cp, sslMode), " ");
      && (Fields(dsn) == Parts(cp, sslMode) <==> Fits(sslMode) && Finished(sslMode))
      && (Fits(sslMode) && Finished(sslMode) ==> Mode(dsn) == Some(Lower(UnquoteValue(sslMode))))
  {
    hide FirstParts, LastParts, FieldText, WellFormed, FieldMode, Fields, Join, Fits, Finished, ModeField, Url.IsUrl,
      UnquoteValue;
    var first, field, last := FirstParts(cp), ModeField(sslMode), LastParts(cp);
    var rest := Join(last, " ");
    FieldsFromMode(cp, sslMode);
    FitsIsText(sslMode);
    FinishedIs(sslMode);
    if Fits(sslMode) && Finished(sslMode) {
      FieldsOfJoined(field, rest);
      assert first + ([field] + last) == first + [field] + last;
      FirstPartsAre(cp);
      LastPartsAre(cp);
      BuiltIsNoUrl(cp, sslMode);
      LastModeSkips(first + [field], last);
      assert (first + [field])[|first|] == field;
      ModeFieldReads(sslMode);
    } else if Fits(sslMode) {
      ModeFieldIsText(sslMode);
      FieldGrows(field, rest);
      assert (first + [field] + last)[|first|] == field;
      assert (first + Fields(field + " " + rest))[|first|] == Fields(field + " " + rest)[0];
    } else {
      FieldsAreTexts(Join(Parts(cp, sslMode), " "));
      assert (first + [field] + last)[|first|] == field;
    }
  }

  lemma FinishedIs(mode: string)
    ensures WellFormed(ModeField(mode)) <==> Finished(mode)
  {
    hide Run, Through;
    ModeFieldRuns(mode);
  }

  lemma ModeFieldIsText(mode: string)
    ensures ModeField(mode) != ""
  {
  }

  /** A mode with a field after it is printed as that field. */
  lemma ModeWithField(cp: ConnectParams, a: string, b: string)
    requires Fits(a) && Finished(a) && FieldText(b) && WellFormed(b)
    ensures Fields(Join(Parts(cp, a + " " + b), " ")) == FirstParts(cp) + [ModeField(a), b] + LastParts(cp)
  {
    hide FirstParts, LastParts, FieldText, WellFormed, Fields, Join, Fits, Finished, ModeField;
    var rest := Join(LastParts(cp), " ");
    FieldsFromMode(cp, a + " " + b);
    ModeFieldConcat(a, b, rest);
    FitsIsText(a);
    FinishedIs(a);
    FieldsOfJoined(ModeField(a), b + " " + rest);
    FieldsOfJoined(b, rest);
    assert FirstParts(cp) + ([ModeField(a)] + ([b] + LastParts(cp)))
        == FirstParts(cp) + [ModeField(a), b] + LastParts(cp);
  }

  lemma ModeFieldConcat(a: string, b: string, rest: string)
    ensures ModeField(a + " " + b) + " " + rest == ModeField(a) + " " + (b + " " + rest)
  {
  }

  lemma BuiltIsNoUrl(cp: ConnectParams, sslMode: string)
    ensures !Url.IsUrl(Join(Parts(cp, sslMode), " "))
  {
    hide QuoteValue, Url.IsUrl, LastParts, Decimal;
    var parts := Parts(cp, sslMode);
    assert parts[0] == "host" + "=" + QuoteValue(cp.host) && parts[0][0] == 'h';
    NotAUrl(Join(parts, " "));
  }

  // ---- the mode asked for and the mode read ----

  /** Lower-case text without white space at its ends, as every mode asked for is. */
  predicate Normal(mode: string) { Lower(mode) == mode && Trim(mode) == mode }

  lemma LowerTwice(s: string)
    ensures Lower(Lower(s)) == Lower(s)
  {
  }

  lemma LowerKeepsSpace(s: string)
    requires Trim(s) == s
    ensures Normal(Lower(s))
  {
    LowerTwice(s);
    var r := Lower(s);
    var _ := TrimSplits(s);
    assert s != "" ==> !IsSpace(LowerChar(s[0])) && !IsSpace(LowerChar(s[|s| - 1]));
    TrimFixed(r);
  }

  lemma LastParamModeIsNormal(pairs: seq<string>)
    ensures Normal(LastParamMode(pairs))
    decreases |pairs|
  {
    hide ParamMode, Normal;
    if pairs == [] {
      NormalWords();
    } else if ParamMode(pairs[|pairs| - 1]).Some? {
      ParamModeIsNormal(pairs[|pairs| - 1]);
    } else {
      LastParamModeIsNormal(pairs[..|pairs| - 1]);
    }
  }

  lemma ParamModeIsNormal(pair: string)
    requires ParamMode(pair).Some?
    ensures Normal(ParamMode(pair).value)
  {
    hide Normal, Trim;
    var raw := After(pair, '=').value;
    TrimTwice(raw);
    LowerKeepsSpace(Trim(raw));
  }

  lemma FieldModeIsNormal(field: string)
    requires FieldMode(field).Some?
    ensures Normal(FieldMode(field).value)
  {
    hide Normal, Trim, UnquoteValue;
    var raw := After(field, '=').value;
    UnquoteIsTrimmed(raw);
    LowerKeepsSpace(UnquoteValue(raw));
  }

  lemma NormalWords()
    ensures Normal("") && Normal("prefer") && Normal("require") && Normal("verify-full")
  {
  }

  lemma UnquoteIsTrimmed(value: string)
    ensures Trim(UnquoteValue(value)) == UnquoteValue(value)
  {
    hide Trim;
    var v := Trim(value);
    TrimTwice(if |v| >= 2 && v[0] == '\'' && v[|v| - 1] == '\'' then v[1..|v| - 1] else v);
  }

  lemma {:induction false} LastModeIsNormal(fields: seq<string>)
    requires LastMode(fields).Some?
    ensures Normal(LastMode(fields).value)
    decreases |fields|
  {
    hide Normal, FieldMode;
    if FieldMode(fields[|fields| - 1]).Some? {
      FieldModeIsNormal(fields[|fields| - 1]);
    } else {
      LastModeIsNormal(fields[..|fields| - 1]);
    }
  }

  lemma {:induction false} LastPairModeIsNormal(pairs: seq<string>)
    requires Url.LastMode(pairs).Some?
    ensures Normal(Url.LastMode(pairs).value)
    decreases |pairs|
  {
    hide Normal, Trim, Url.QueryUnescape, Url.NamesSSLMode;
    if Url.PairMode(pairs[|pairs| - 1]).Some? {
      var raw := After(pairs[|pairs| - 1], '=').value;
      var decoded := Url.QueryUnescape(raw);
      var text := if decoded.Some? then decoded.value else raw;
      TrimTwice(text);
      LowerKeepsSpace(Trim(text));
    } else {
      LastPairModeIsNormal(pairs[..|pairs| - 1]);
    }
  }

  lemma WrittenModeIsNormal(cp: ConnectParams)
    ensures Normal(WrittenMode(cp)) && WrittenMode(cp) != ""
  {
    hide Normal, Pairs, LastParamMode, Fields, Url.IsUrl, Url.PairsRead, LastMode, Native, Url.LastMode;
    NormalWords();
    if Native(cp).Some? {
      var value := Native(cp).value;
      if Mode(value).Some? {
        if Url.IsUrl(value) {
          LastPairModeIsNormal(Url.PairsRead(value));
        } else {
          LastModeIsNormal(Fields(value));
        }
      }
    } else {
      LastParamModeIsNormal(Pairs("", cp.urlParams));
    }
  }

  lemma NormalFits(mode: string)
    requires Normal(mode)
    ensures Fits(mode) <==> OneValue(mode)
  {
    hide OneValue;
    var _ := TrimSplits(mode);
  }

  lemma UnquotedIsLower(mode: string)
    requires Normal(mode)
    ensures Lower(UnquoteValue(mode)) == UnquoteValue(mode)
  {
    hide Trim;
    assert forall i | 0 <= i < |mode| :: LowerChar(mode[i]) == mode[i];
    var n := |mode|;
    var v := if n >= 2 && mode[0] == '\'' && mode[n - 1] == '\'' then mode[1..n - 1] else mode;
    var lead := TrimSplits(v);
    assert forall i | 0 <= i < |v| :: v[i] in mode;
    assert forall i | 0 <= i < |Trim(v)| :: Trim(v)[i] == v[lead + i];
  }

  /** For all connection parameters without a connection string: the mode asked for is one part of the
      result if and only if it is one finished value; then it is read back without its quotes. */
  lemma AskedIsRead(cp: ConnectParams)
    requires Native(cp) == None
    ensures var m := WrittenMode(cp); var dsn := Dsn(cp, m);
      && (Fields(dsn) == Parts(cp, m) <==> OneValue(m) && Finished(m))
      && (OneValue(m) && Finished(m) ==> Mode(dsn) == Some(UnquoteValue(m)))
  {
    hide WrittenMode, Normal, Fields, Parts, Join, Mode, Native, UnquoteValue, OneValue, Finished, Fits;
    var m := WrittenMode(cp);
    WrittenModeIsNormal(cp);
    NormalFits(m);
    UnquotedIsLower(m);
    BuiltReadsBack(cp, m);
  }

  /** For all parameters with a connection string in keyword form whose kept fields are well formed: the
      mode asked for is read back if and only if it is one value and not in quotes. */
  lemma AskedIsReadNative(cp: ConnectParams)
    requires Native(cp).Some? && StaysKeyword(Native(cp).value) && AllWellFormed(Kept(Fields(Native(cp).value)))
    ensures var m := WrittenMode(cp); Mode(Dsn(cp, m)) == Some(m) <==> OneValue(m) && UnquoteValue(m) == m
  {
    hide WrittenMode, Normal, Fields, Kept, Mode, Native, UnquoteValue, OneValue, StaysKeyword, AllWellFormed, Rewrite;
    var m := WrittenMode(cp);
    WrittenModeIsNormal(cp);
    UnquotedIsLower(m);
    RewriteReadsBack(Native(cp).value, m);
  }

  /** In URL form it is read back always. */
  lemma AskedIsReadUrl(cp: ConnectParams)
    requires Native(cp).Some? && Url.IsUrl(Native(cp).value) && Url.Bytes(WrittenMode(cp))
    ensures Mode(Dsn(cp, WrittenMode(cp))) == Some(WrittenMode(cp))
  {
    hide WrittenMode, Url.IsUrl, Native, Url.Print, Url.Rewritten, Url.Parts, Url.Mode;
    var m := WrittenMode(cp);
    WrittenModeIsNormal(cp);
    Url.RewriteReadsBack(Native(cp).value, m);
    Url.RewriteIsUrl(Native(cp).value, m);
  }

  /** URL parameters that give the mode and nothing else. */
  lemma OnlyMode(cp: ConnectParams, mode: string)
    requires Native(cp) == None && cp.urlParams == ModeField(mode)
    requires Normal(mode) && mode != "" && mode != "prefer" && '&' !in mode && ';' !in mode
    ensures WrittenMode(cp) == mode
  {
    hide Native, Pairs, ParamMode, Normal;
    var pair := ModeField(mode);
    assert forall i | 8 <= i < |pair| :: pair[i] in mode;
    PlainPair("", pair);
    assert "" + pair == pair;
    ParamModeReads(mode);
    assert [pair][..0] == [];
  }

  lemma ParamModeReads(mode: string)
    requires Normal(mode)
    ensures ParamMode(ModeField(mode)) == Some(mode)
  {
    hide IsModeField, Trim;
    ModeFieldReads(mode);
    SSLModeCut(mode);
  }

  lemma SSLModeCut(mode: string)
    ensures After(ModeField(mode), '=') == Some(mode)
  {
    CutAt("sslmode", '=', mode);
    assert "sslmode" + "=" + mode == ModeField(mode);
  }

  /** The condition fails for parameters that a user can give: this mode brings a second host. */
  lemma ModeBringsHost(cp: ConnectParams)
    requires Native(cp) == None && cp.urlParams == "sslmode=disable host=x"
    ensures WrittenMode(cp) == "disable" + " " + "host=x"
    ensures Fields(Dsn(cp, WrittenMode(cp))) == FirstParts(cp) + [ModeField("disable"), "host=x"] + LastParts(cp)
  {
    hide FirstParts, LastParts, Fields, Join, WrittenMode, Fits, Finished, FieldText, WellFormed, Native, Parts, Normal;
    BringingMode();
    BringingParts();
    OnlyMode(cp, "disable" + " " + "host=x");
    ModeWithField(cp, "disable", "host=x");
  }

  lemma BringingMode()
    ensures var mode := "disable" + " " + "host=x";
      && ModeField(mode) == "sslmode=disable host=x"
      && Normal(mode) && mode != "prefer" && '&' !in mode && ';' !in mode
  {
    hide Trim;
    TrimFixed("disable" + " " + "host=x");
  }

  lemma {:induction false} PlainPair(piece: string, s: string)
    requires '&' !in s && ';' !in s && piece + s != ""
    ensures Pairs(piece, s) == [piece + s]
    decreases |s|
  {
    if s == "" {
      assert piece + s == piece;
    } else {
      PlainPair(piece + [s[0]], s[1..]);
      assert piece + [s[0]] + s[1..] == piece + s;
    }
  }

  lemma BringingParts()
    ensures Fits("disable") && Finished("disable") && FieldText("host=x") && WellFormed("host=x")
  {
    hide Trim, Run, Through;
    var mode, part := "disable", "host=x";
    PlainRuns("isable");
    PlainRuns("");
    assert mode[1..] == "isable";
    GapStep(mode);
    TrimFixed(part);
    assert part == "host" + "=" + "x" && "x"[1..] == "";
    KeyValueRuns("host", "x");
  }

  lemma GapStep(s: string)
    requires s != ""
    ensures Run(Gap, s) == Run(Next(Gap, s[0]), s[1..]) && Through(Gap, s) == Through(Next(Gap, s[0]), s[1..])
  {
  }

  /** A quoted mode in a connection string is written back without its quotes, and only its first word is
      read again. */
  lemma QuotesAreLost(cp: ConnectParams)
    requires Native(cp) == Some(ModeField("'a b'"))
    ensures WrittenMode(cp) == "a b" && Dsn(cp, "a b") == ModeField("a b") && Mode(ModeField("a b")) == Some("a")
  {
    hide Native, Fields, IsModeField, UnquoteValue, Url.IsUrl, ModeField, Rewrite, Mode;
    QuotedModeIsRead();
    QuotedModeIsWritten();
    TwoFieldsRead();
  }

  lemma QuotedModeIsRead()
    ensures Mode(ModeField("'a b'")) == Some("a b")
  {
    hide Fields, FieldMode, UnquoteValue, Url.IsUrl;
    var value := ModeField("'a b'");
    NotAUrl(value);
    QuotedModeFields();
    ModeFieldReads("'a b'");
    UnquoteAB();
    assert [value][..0] == [];
  }

  lemma QuotedModeIsWritten()
    ensures Rewrite(ModeField("'a b'"), "a b") == ModeField("a b")
  {
    hide Fields, IsModeField, UnquoteValue, Url.IsUrl;
    var value := ModeField("'a b'");
    NotAUrl(value);
    QuotedModeFields();
    ModeFieldReads("'a b'");
    OneDropped([value]);
    assert [] + [ModeField("a b")] == [ModeField("a b")];
  }

  lemma TwoFieldsRead()
    ensures Mode(ModeField("a b")) == Some("a")
  {
    hide Fields, FieldMode, IsModeField, UnquoteValue, Url.IsUrl;
    NotAUrl(ModeField("a b"));
    TwoFields();
    ModeFieldReads("a");
    UnquoteAB();
    SecondIsNoMode(ModeField("a"), "b");
  }

  lemma SecondIsNoMode(first: string, second: string)
    requires FieldMode(first).Some? && !IsModeField(second)
    ensures LastMode([first, second]) == FieldMode(first)
  {
    hide IsModeField;
    assert [first, second][..1] == [first];
  }

  lemma QuotedModeFields()
    ensures Fields(ModeField("'a b'")) == [ModeField("'a b'")]
  {
    hide Trim, Run, Through, Fields;
    var mode := "'a b'";
    GapStep(mode);
    assert mode[1..] == "a b" + "'" && "'"[1..] == "";
    QuotedRuns("a b");
    ThroughConcat(Quoted, "a b", "'");
    QuoteStep();
    FitsIsText(mode);
    ModeFieldIsText(mode);
    FieldsOfText(ModeField(mode));
  }

  lemma QuoteStep()
    ensures Through(Quoted, "'") && Run(Quoted, "'") == AfterQuote
  {
    assert "'"[1..] == "";
  }

  lemma UnquoteAB()
    ensures Lower(UnquoteValue("'a b'")) == "a b" && Lower(UnquoteValue("a")) == "a"
  {
    hide Trim;
    TrimFixed("'a b'");
    assert "'a b'"[1..4] == "a b";
    TrimFixed("a b");
    TrimFixed("a");
  }

  lemma TwoFields()
    ensures Fields(ModeField("a b")) == [ModeField("a"), "b"] && !IsModeField("b")
  {
    hide Trim, Run, Through, Fields;
    var mode := "a";
    GapStep(mode);
    PlainRuns("");
    assert mode[1..] == "";
    FitsIsText(mode);
    FinishedIs(mode);
    TrimFixed("b");
    KeyRuns("b");
    FieldsOfText("b");
    assert ModeField("a") + " " + "b" == ModeField("a b");
    FieldsOfJoined(ModeField("a"), "b");
    CutAt("b", '=', "");
  }
}
