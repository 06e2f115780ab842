/** A Kingbase connection string read as keys and values, and the TLS mode that each choice of parameters
    asks for. */
module KingbaseFields {
  import opened Text
  import opened KingbaseDsn
  import opened KingbaseMode
  import opened KingbaseBuild
  import Url = KingbaseUrl

  // ---- a reader of fields ----

  /** The characters of a value in quotes, up to the closing quote; a backslash takes the next one as it is. */
  function Unescape(s: string): string
    decreases |s|
  {
    if s == "" || s[0] == '\'' then ""
    else if s[0] == '\\' && |s| > 1 then [s[1]] + Unescape(s[2..])
    else [s[0]] + Unescape(s[1..])
  }

  datatype Entry = Entry(key: string, value: string)

  /** The key before the `=`, and the value behind it, in quotes or as it is. */
  function EntryOf(field: string): Entry {
    var value := After(field, '=');
    Entry(Before(field, '='),
          if value.None? then ""
          else if value.value != "" && value.value[0] == '\'' then Unescape(value.value[1..])
          else value.value)
  }

  function Entries(fields: seq<string>): (r: seq<Entry>)
    ensures |r| == |fields| && forall i | 0 <= i < |r| :: r[i] == EntryOf(fields[i])
  {
    seq(|fields|, i requires 0 <= i < |fields| => EntryOf(fields[i]))
  }

  lemma {:induction false} EscapedReads(value: string)
    ensures Unescape(Escaped(value)) == value
  {
    hide Escaped;
    EscapedShape(value);
    if value != "" {
      EscapedReads(value[1..]);
      var e, tail := Escaped(value), Escaped(value[1..]);
      if value[0] == '\\' || value[0] == '\'' {
        assert e[0] == '\\' && e[1] == value[0] && e[2..] == tail;
      } else {
        assert e[0] == value[0] && e[1..] == tail;
      }
      assert [value[0]] + value[1..] == value;
    }
  }

  /** A value printed in quotes is read as that value, whatever it holds. */
  lemma QuotedEntry(key: string, value: string)
    requires '=' !in key
    ensures EntryOf(key + "=" + QuoteValue(value)) == Entry(key, value)
  {
    hide ReplaceAll;
    CutAt(key, '=', QuoteValue(value));
    EscapedReads(value);
    var e := Escaped(value);
    assert QuoteValue(value) == "'" + e && ("'" + e)[1..] == e;
  }

  lemma BareEntry(key: string, value: string)
    requires '=' !in key && (value != "" ==> value[0] != '\'')
    ensures EntryOf(key + "=" + value) == Entry(key, value)
  {
    CutAt(key, '=', value);
  }

  /** The number that digits stand for. */
  function Number(digits: string): nat {
    if digits == "" then 0
    else
      var c := digits[|digits| - 1];
      10 * Number(digits[..|digits| - 1]) + if '0' <= c <= '9' then c as int - '0' as int else 0
  }

  lemma {:induction false} DecimalReads(n: nat)
    ensures Number(Decimal(n)) == n && (forall i | 0 <= i < |Decimal(n)| :: '0' <= Decimal(n)[i] <= '9')
        && Decimal(n) != ""
  {
    var d := Decimal(n);
    LastDigit(n % 10);
    if n >= 10 {
      DecimalReads(n / 10);
      assert d[..|d| - 1] == Decimal(n / 10) && d[|d| - 1] == "0123456789"[n % 10];
    } else {
      assert d[..0] == "";
    }
  }

  lemma LastDigit(k: nat)
    requires k < 10
    ensures '0' <= "0123456789"[k] <= '9' && "0123456789"[k] as int - '0' as int == k
  {
  }

  // ---- what the parameters say ----

  predicate WordChar(c: char) { 'a' <= c <= 'z' || 'A' <= c <= 'Z' || '0' <= c <= '9' || c == '_' }

  /** A URL parameter that is passed on: its key is a word other than sslmode. */
  predicate PassedOn(pair: string) {
    && After(pair, '=').Some?
    && (var key := Trim(Before(pair, '='));
        key != "" && (forall i | 0 <= i < |key| :: WordChar(key[i])) && Lower(key) != "sslmode")
  }

  function Extras(pairs: seq<string>): seq<Entry> {
    if pairs == [] then []
    else
      (if PassedOn(pairs[0]) then [Entry(Trim(Before(pairs[0], '=')), Trim(After(pairs[0], '=').value))] else [])
      + Extras(pairs[1..])
  }

  function IfGiven(key: string, value: string): seq<Entry> { if value == "" then [] else [Entry(key, value)] }

  /** Every field but the mode and the port, in order. */
  function HeadEntries(cp: ConnectParams): seq<Entry> {
    [Entry("host", cp.host), Entry("port", Decimal(if cp.port > 0 then cp.port else 54321)), Entry("user", cp.username),
     Entry("password", cp.password), Entry("dbname", cp.database)]
  }

  function TailEntries(cp: ConnectParams): seq<Entry> {
    [Entry("connect_timeout", "15")] + IfGiven("sslrootcert", cp.caCertPath) + IfGiven("sslcert", cp.clientCertPath)
    + IfGiven("sslkey", cp.clientKeyPath) + Extras(Pairs("", cp.urlParams))
  }

  lemma EntriesConcat(a: seq<string>, b: seq<string>)
    ensures Entries(a + b) == Entries(a) + Entries(b)
  {
    hide EntryOf;
  }

  lemma FirstEntries(cp: ConnectParams)
    ensures Entries(FirstParts(cp)) == HeadEntries(cp)
  {
    hide QuoteValue, EntryOf, Decimal;
    QuotedEntry("host", cp.host);
    PortEntry(Port(cp));
    QuotedEntry("user", cp.username);
    QuotedEntry("password", cp.password);
    QuotedEntry("dbname", cp.database);
  }

  lemma PortEntry(n: nat)
    ensures EntryOf("port" + "=" + Decimal(n)) == Entry("port", Decimal(n))
  {
    DecimalReads(n);
    BareEntry("port", Decimal(n));
  }

  lemma OptionalEntries(key: string, value: string)
    requires '=' !in key
    ensures Entries(Optional(key, value)) == IfGiven(key, value)
  {
    hide QuoteValue, EntryOf;
    if value != "" {
      QuotedEntry(key, value);
    }
  }

  lemma SafeIsPassedOn(pair: string)
    ensures ExtraPart(pair).Some? <==> PassedOn(pair)
    ensures PassedOn(pair) ==>
      EntryOf(ExtraPart(pair).value) == Entry(Trim(Before(pair, '=')), Trim(After(pair, '=').value))
  {
    hide Trim, QuoteValue, EntryOf;
    var key := Trim(Before(pair, '='));
    CaseFold(key);
    if PassedOn(pair) {
      assert '=' !in key;
      QuotedEntry(key, Trim(After(pair, '=').value));
    }
  }

  lemma CaseFold(key: string)
    ensures EqualFold(key, "sslmode") <==> Lower(key) == "sslmode"
  {
    var word := "sslmode";
    if |key| == 7 {
      forall i | 0 <= i < 7 ensures UpperChar(key[i]) == Upper(word)[i] <==> LowerChar(key[i]) == word[i] {
        assert Upper(word)[i] == UpperChar(word[i]);
      }
      assert Upper(key) == Upper(word) ==> forall i | 0 <= i < 7 :: Upper(key)[i] == Upper(word)[i];
      assert Lower(key) == word ==> forall i | 0 <= i < 7 :: Lower(key)[i] == word[i];
      if Lower(key) == word {
        assert forall i | 0 <= i < 7 :: Upper(key)[i] == Upper(word)[i];
      }
    } else {
      assert |Upper(key)| != |Upper(word)| && |Lower(key)| != |word|;
    }
  }

  lemma {:induction false} ExtraEntries(pairs: seq<string>)
    ensures Entries(ExtraParts(pairs)) == Extras(pairs)
  {
    hide ExtraPart, PassedOn, EntryOf, Trim;
    if pairs != [] {
      ExtraEntries(pairs[1..]);
      SafeIsPassedOn(pairs[0]);
      var head := if ExtraPart(pairs[0]).Some? then [ExtraPart(pairs[0]).value] else [];
      EntriesConcat(head, ExtraParts(pairs[1..]));
    }
  }

  lemma LastEntries(cp: ConnectParams)
    ensures Entries(LastParts(cp)) == TailEntries(cp)
  {
    hide Optional, EntryOf, ExtraParts, Extras, Pairs, IfGiven;
    BareEntry("connect_timeout", "15");
    OptionalEntries("sslrootcert", cp.caCertPath);
    OptionalEntries("sslcert", cp.clientCertPath);
    OptionalEntries("sslkey", cp.clientKeyPath);
    var pairs := Pairs("", cp.urlParams);
    ExtraEntries(pairs);
    var a := ["connect_timeout" + "=" + "15"];
    var b, c, d := Optional("sslrootcert", cp.caCertPath), Optional("sslcert", cp.clientCertPath),
        Optional("sslkey", cp.clientKeyPath);
    EntriesConcat(a, b);
    EntriesConcat(a + b, c);
    EntriesConcat(a + b + c, d);
    EntriesConcat(a + b + c + d, ExtraParts(pairs));
  }

  /** For every mode that is one finished value, and whatever the other values hold: the fields of the printed
      string are, in order, host, port, user, password, database, mode and timeout, the certificate paths
      that are given and the URL parameters that are passed on, each with exactly its value. */
  lemma EntriesReadBack(cp: ConnectParams, sslMode: string)
    requires Fits(sslMode) && Finished(sslMode)
    ensures var fields := Fields(Join(Parts(cp, sslMode), " "));
      && Entries(fields) == HeadEntries(cp) + [EntryOf("sslmode=" + sslMode)] + TailEntries(cp)
      && (sslMode[0] != '\'' ==> EntryOf("sslmode=" + sslMode) == Entry("sslmode", sslMode))
      && Number(EntryOf(fields[1]).value) == if cp.port > 0 then cp.port else 54321
  {
    hide FirstParts, LastParts, Fields, Join, Fits, Finished, EntryOf, HeadEntries, TailEntries;
    BuiltReadsBack(cp, sslMode);
    FirstEntries(cp);
    LastEntries(cp);
    EntriesConcat(FirstParts(cp) + [ModeField(sslMode)], LastParts(cp));
    EntriesConcat(FirstParts(cp), [ModeField(sslMode)]);
    FinishedIsNotEmpty(sslMode);
    if sslMode[0] != '\'' {
      ModeEntry(sslMode);
    }
    var fields := Fields(Join(Parts(cp, sslMode), " "));
    FiveFirst(cp);
    assert Entries(fields)[1] == HeadEntries(cp)[1] == EntryOf(fields[1]);
    PortIs(cp, fields);
  }

  lemma FiveFirst(cp: ConnectParams)
    ensures |HeadEntries(cp)| == 5
  {
  }

  lemma PortIs(cp: ConnectParams, fields: seq<string>)
    requires |fields| > 1 && HeadEntries(cp)[1] == EntryOf(fields[1])
    ensures Number(EntryOf(fields[1]).value) == if cp.port > 0 then cp.port else 54321
  {
    hide Decimal, EntryOf;
    DecimalReads(if cp.port > 0 then cp.port else 54321);
  }

  lemma ModeEntry(sslMode: string)
    requires sslMode != "" && sslMode[0] != '\''
    ensures EntryOf("sslmode=" + sslMode) == Entry("sslmode", sslMode)
  {
    BareEntry("sslmode", sslMode);
    assert "sslmode" + "=" + sslMode == "sslmode=" + sslMode;
  }

  lemma FinishedIsNotEmpty(mode: string)
    requires Finished(mode)
    ensures mode != ""
  {
  }

  // ---- which mode is asked for ----

  /** A URL parameter called sslmode, in any letter case and with any white space around. */
  predicate GivesMode(pair: string) { After(pair, '=').Some? && Lower(Trim(Before(pair, '='))) == "sslmode" }

  lemma GivesModeIs(pair: string)
    ensures IsModeField(pair) <==> GivesMode(pair)
  {
    hide Trim;
    CaseFold(Trim(Before(pair, '=')));
  }

  /** The URL parameters are what stands between `&` and `;`. */
  lemma {:induction false} PairsCut(piece: string, s: string, separator: char, rest: string)
    requires '&' !in s && ';' !in s && (separator == '&' || separator == ';')
    ensures Pairs(piece, s + [separator] + rest) == (if piece + s == "" then [] else [piece + s]) + Pairs("", rest)
    ensures Pairs(piece, s) == if piece + s == "" then [] else [piece + s]
    decreases |s|
  {
    var text := s + [separator] + rest;
    if s == "" {
      assert piece + s == piece && text[0] == separator && text[1..] == rest;
    } else {
      assert text[0] == s[0] && text[1..] == s[1..] + [separator] + rest;
      PairsCut(piece + [s[0]], s[1..], separator, rest);
      assert piece + [s[0]] + s[1..] == piece + s;
    }
  }

  /** The connection string counts unless it is blank or starts with the JDBC scheme, in any letter case. */
  lemma NativeIs(cp: ConnectParams)
    ensures var value := Trim(cp.connectionString);
      Native(cp) ==
        if value == "" || (|value| >= 17 && Lower(value[..17]) == "jdbc:kingbase8://") then None else Some(value)
  {
    hide Trim;
    var value := Trim(cp.connectionString);
    TrimTwice(cp.connectionString);
    if |value| >= 17 {
      assert Lower(value)[..17] == Lower(value[..17]);
    }
  }

  lemma {:induction false} NoModeGiven(pairs: seq<string>)
    requires forall i | 0 <= i < |pairs| :: !GivesMode(pairs[i])
    ensures LastParamMode(pairs) == ""
    decreases |pairs|
  {
    hide GivesMode, IsModeField;
    if pairs != [] {
      GivesModeIs(pairs[|pairs| - 1]);
      NoModeGiven(pairs[..|pairs| - 1]);
    }
  }

  lemma {:induction false} LastGivenCounts(pairs: seq<string>, k: nat)
    requires k < |pairs| && GivesMode(pairs[k]) && forall i | k < i < |pairs| :: !GivesMode(pairs[i])
    ensures LastParamMode(pairs) == Lower(Trim(After(pairs[k], '=').value))
    decreases |pairs|
  {
    hide GivesMode, IsModeField, Trim;
    var n := |pairs| - 1;
    GivesModeIs(pairs[n]);
    if k < n {
      LastGivenCounts(pairs[..n], k);
    }
  }

  /** Without a connection string and without an sslmode parameter: a connection that asks for TLS verifies
      the server's certificate, and one that does not still requires TLS at first. */
  lemma ModeByDefault(cp: ConnectParams)
    requires Native(cp) == None
    requires forall i | 0 <= i < |Pairs("", cp.urlParams)| :: !GivesMode(Pairs("", cp.urlParams)[i])
    ensures WrittenMode(cp) == if cp.ssl then "verify-full" else "require"
    ensures Mode(Dsn(cp, WrittenMode(cp))) == Some(if cp.ssl then "verify-full" else "require")
  {
    hide Pairs, GivesMode, LastParamMode, Native, Parts, Join, Fields, Mode, UnquoteValue, OneValue, Finished;
    NoModeGiven(Pairs("", cp.urlParams));
    DefaultModesFit();
    WordsDiffer();
    AskedIsRead(cp);
  }

  lemma WordsDiffer()
    ensures "verify-full" != "prefer" && "" != "prefer" && "verify-full" != "" && "prefer" != ""
  {
  }

  lemma DefaultModesFit()
    ensures OneValue("verify-full") && Finished("verify-full") && UnquoteValue("verify-full") == "verify-full"
    ensures OneValue("require") && Finished("require") && UnquoteValue("require") == "require"
  {
    PlainModeFits("verify-full");
    PlainModeFits("require");
  }

  lemma PlainModeFits(mode: string)
    requires mode != "" && forall i | 0 <= i < |mode| :: !IsSpace(mode[i]) && mode[i] != '\\' && mode[i] != '\''
    ensures OneValue(mode) && Finished(mode) && UnquoteValue(mode) == mode
  {
    hide Run, Through, Trim;
    GapStep(mode);
    PlainRuns(mode[1..]);
    TrimFixed(mode);
  }

  /** With sslmode parameters the last one counts, in lower case and without outer white space; `prefer` is
      written as `require`, and an empty one as if there were none. */
  lemma ModeByParameter(cp: ConnectParams, k: nat)
    requires Native(cp) == None
    requires var pairs := Pairs("", cp.urlParams);
      k < |pairs| && GivesMode(pairs[k]) && forall i | k < i < |pairs| :: !GivesMode(pairs[i])
    ensures var v := Lower(Trim(After(Pairs("", cp.urlParams)[k], '=').value));
      WrittenMode(cp) ==
        if v == "" then (if cp.ssl then "verify-full" else "require") else if v == "prefer" then "require" else v
  {
    hide Pairs, GivesMode, LastParamMode, Native, Trim;
    LastGivenCounts(Pairs("", cp.urlParams), k);
    WordsDiffer();
  }

  /** With a connection string its own mode counts, again with `require` for `prefer` and for none. */
  lemma ModeByString(cp: ConnectParams)
    requires Native(cp).Some?
    ensures var m := Mode(Native(cp).value);
      WrittenMode(cp) == if m.None? || m.value == "" || m.value == "prefer" then "require" else m.value
  {
    hide Mode, Native;
    WordsDiffer();
  }

  // ---- how fields are told apart ----

  predicate White(c: char) { c == ' ' || c == '\t' || c == '\n' || c == '\r' || c == 12 as char }

  /** Each of the five white space characters ends a finished field, and any number may come before one. */
  lemma WhiteSeparates(c: char, field: string, rest: string)
    requires White(c) && FieldText(field) && WellFormed(field)
    ensures Fields(field + [c] + rest) == [field] + Fields(rest) && Fields([c] + rest) == Fields(rest)
  {
    hide Trim, Through, End, Run;
    EmptyIsNotWellFormed();
    NonSpaceEnds(field);
    var s := field + [c] + rest;
    assert s == field + ([c] + rest);
    ThroughConcat(Key, field, [c] + rest);
    EndsHere(Run(Key, field), [c] + rest);
    assert s[..|field|] == field && s[|field|..] == [c] + rest && ([c] + rest)[1..] == rest;
    FieldsStep(s, 0);
    assert s[0..|field|] == field;
    FieldsStep(s, |field|);
    assert s[|field| + 1..] == rest;
    FieldsStep([c] + rest, 0);
  }

  /** A character that a bare value can hold anywhere. */
  predicate BareChar(c: char) { !White(c) && c != '\'' && c != '\\' }

  /** White space between the `=` and the value belongs to the field. */
  lemma {:induction false} GapStays(gap: string, value: string)
    requires (forall i | 0 <= i < |gap| :: White(gap[i])) && value != "" && BareChar(value[0])
    ensures Run(Gap, gap + value) == Run(Bare, value[1..]) && Through(Gap, gap + value) == Through(Bare, value[1..])
    decreases |gap|
  {
    if gap == "" {
      assert gap + value == value;
    } else {
      assert (gap + value)[1..] == gap[1..] + value;
      GapStays(gap[1..], value);
    }
  }

  /** A backslash in a bare value takes the next character into it, also white space. */
  lemma EscapeStays(a: string, c: char, b: string)
    requires (forall i | 0 <= i < |a| :: BareChar(a[i])) && (forall i | 0 <= i < |b| :: BareChar(b[i]))
    ensures var v := a + ("\\" + ([c] + b)); Run(Bare, v) == Bare && Through(Bare, v)
  {
    hide Run, Through;
    PlainRuns(a);
    PlainRuns(b);
    var tail := [c] + b;
    ThroughConcat(Bare, a, "\\" + tail);
    EscapeStep(tail);
    assert tail[1..] == b;
  }

  lemma EscapeStep(tail: string)
    requires tail != ""
    ensures Run(Bare, "\\" + tail) == Run(Bare, tail[1..]) && Through(Bare, "\\" + tail) == Through(Bare, tail[1..])
  {
    assert ("\\" + tail)[1..] == tail;
  }

  /** So a key with such a value is one field, white space and all. */
  lemma EscapedField(key: string, gap: string, a: string, c: char, b: string)
    requires key != "" && '=' !in key && !IsSpace(key[0]) && (forall i | 0 <= i < |gap| :: White(gap[i]))
    requires a != "" && (forall i | 0 <= i < |a| :: BareChar(a[i]))
    requires b != "" && (forall i | 0 <= i < |b| :: BareChar(b[i])) && !IsSpace(b[|b| - 1])
    ensures var field := key + ("=" + (gap + (a + ("\\" + ([c] + b))))); Fields(field) == [field] && WellFormed(field)
  {
    hide Run, Through, Trim, Fields;
    var v := a + ("\\" + ([c] + b));
    var field := key + ("=" + (gap + v));
    KeyRuns(key);
    ThroughConcat(Key, key, "=" + (gap + v));
    EqualsRuns(gap + v);
    assert v[0] == a[0];
    GapStays(gap, v);
    assert v[1..] == a[1..] + ("\\" + ([c] + b));
    EscapeStays(a[1..], c, b);
    assert field[0] == key[0] && field[|field| - 1] == b[|b| - 1];
    TrimFixed(field);
    FieldsOfText(field);
  }
}
