/** Overriding the database of a Xugu data source name: `key=value` segments between semicolons, where
    a single-quoted value may hold semicolons and doubled quotes. */
module XuguDsn {
  import opened Text
  import opened XuguSplit

  const SEGMENTS := Lexis('\'', false, ';')

  /** Nothing in the text matters to the scanner. */
  predicate Plain(s: string) { forall i | 0 <= i < |s| :: s[i] != ';' && s[i] != '\'' }

  function Encode(value: string): string {
    if Plain(value) then value
    else "'" + Doubled(value, '\'') + "'"
  }

  predicate IsDatabase(segment: string) {
    var separator := IndexByte(segment, '=');
    separator >= 0 && EqualFold(Trim(segment[..separator]), "DB")
  }

  function OverrideSegment(segment: string, database: string): string {
    if IsDatabase(segment) then segment[..IndexByte(segment, '=') + 1] + Encode(database) else segment
  }

  function OverrideAll(segments: seq<string>, database: string): (r: seq<string>)
    ensures |r| == |segments|
    ensures forall i | 0 <= i < |r| :: r[i] == OverrideSegment(segments[i], database)
  {
    seq(|segments|, i requires 0 <= i < |segments| => OverrideSegment(segments[i], database))
  }

  function Override(dsn: string, database: string): string {
    Join(OverrideAll(Split(SEGMENTS, TOP, dsn), database), ";")
  }

  method OverrideDSNDatabase(dsn: string, database: string) returns (result: string)
    ensures result == Override(dsn, database)
  {
    hide SplitFrom, Split, OverrideSegment, OverrideAll, Join;
    result := "";
    var segmentStart: nat, index: nat := 0, 0;
    var inQuotes := false;
    SplitEnds(SEGMENTS, TOP, dsn, 0);
    while index < |dsn|
      invariant segmentStart <= index <= |dsn|
      invariant Override(dsn, database) == result
        + Join(OverrideAll(SplitFrom(SEGMENTS, Scan(inQuotes, 0), dsn, segmentStart, index), database), ";")
    {
      SplitStep(SEGMENTS, Scan(inQuotes, 0), dsn, segmentStart, index);
      match dsn[index] {
        case '\'' =>
          if inQuotes && index + 1 < |dsn| && dsn[index + 1] == '\'' {
            SplitStep(SEGMENTS, Scan(false, 0), dsn, segmentStart, index + 1);
            index := index + 1;
          } else {
            inQuotes := !inQuotes;
          }
        case ';' =>
          if !inQuotes {
            OverrideFirst(result, dsn[segmentStart..index], SplitFrom(SEGMENTS, TOP, dsn, index + 1, index + 1),
                database);
            result := result + OverrideSegment(dsn[segmentStart..index], database);
            result := result + ";";
            segmentStart := index + 1;
          }
        case _ =>
      }
      index := index + 1;
    }
    SplitEnds(SEGMENTS, Scan(inQuotes, 0), dsn, segmentStart);
    OverrideOne(dsn[segmentStart..], database);
    result := result + OverrideSegment(dsn[segmentStart..], database);
  }

  lemma OverrideFirst(result: string, segment: string, rest: seq<string>, database: string)
    requires rest != []
    ensures result + Join(OverrideAll([segment] + rest, database), ";")
         == result + OverrideSegment(segment, database) + ";" + Join(OverrideAll(rest, database), ";")
  {
    hide OverrideSegment;
    assert OverrideAll([segment] + rest, database)[1..] == OverrideAll(rest, database);
  }

  lemma OverrideOne(segment: string, database: string)
    ensures Join(OverrideAll([segment], database), ";") == OverrideSegment(segment, database)
  {
  }

  /** The characters that a value stands for: quotes go, a doubled quote inside quotes is one quote. */
  function Decode(quoted: bool, s: string): string
    decreases |s|
  {
    if s == "" then ""
    else if s[0] != '\'' then [s[0]] + Decode(quoted, s[1..])
    else if !quoted then Decode(true, s[1..])
    else if |s| > 1 && s[1] == '\'' then "'" + Decode(true, s[2..])
    else Decode(false, s[1..])
  }

  lemma {:induction false} DoubledDecodes(value: string)
    ensures var d := Doubled(value, '\'') + "'";
      && Decode(true, d) == value
      && Whole(SEGMENTS, Scan(true, 0), d) && Run(SEGMENTS, Scan(true, 0), d) == TOP
  {
    var d := Doubled(value, '\'') + "'";
    if value == "" {
      assert d == "'" && d[1..] == "";
    } else {
      DoubledDecodes(value[1..]);
      var rest := Doubled(value[1..], '\'') + "'";
      if value[0] == '\'' {
        assert d == "''" + rest && d[1..] == "'" + rest && d[1..][1..] == rest && d[2..] == rest;
      } else {
        assert d == [value[0]] + rest && d[1..] == rest;
      }
    }
  }

  lemma {:induction false} PlainDecodes(s: string)
    requires Plain(s)
    ensures Decode(false, s) == s && Whole(SEGMENTS, TOP, s) && Run(SEGMENTS, TOP, s) == TOP
  {
    if s != "" {
      assert forall i | 0 <= i < |s[1..]| :: s[1..][i] == s[i + 1];
      PlainDecodes(s[1..]);
      assert [s[0]] + s[1..] == s;
    }
  }

  /** An encoded value stands for the value, and is one closed piece of a segment, whatever it holds. */
  lemma EncodeDecodes(value: string)
    ensures Decode(false, Encode(value)) == value
    ensures Whole(SEGMENTS, TOP, Encode(value)) && Run(SEGMENTS, TOP, Encode(value)) == TOP
  {
    if Plain(value) {
      PlainDecodes(value);
    } else {
      DoubledDecodes(value);
      var d := Doubled(value, '\'') + "'";
      assert Encode(value) == "'" + d && ("'" + d)[1..] == d;
    }
  }

  lemma KeyIsPlain(segment: string)
    requires IsDatabase(segment)
    ensures Plain(segment[..IndexByte(segment, '=') + 1])
  {
    var key := segment[..IndexByte(segment, '=')];
    var lead := TrimSplits(key);
    var t := Trim(key);
    assert Upper(t) == Upper("DB") && |Upper("DB")| == 2;
    assert UpperChar(t[0]) == 'D' && UpperChar(t[1]) == 'B';
    forall i | 0 <= i < |key|
      ensures key[i] != ';' && key[i] != '\''
    {
      if lead <= i < lead + |t| {
        assert key[i] == t[i - lead];
      }
    }
  }

  lemma OverrideSegmentScans(segment: string, database: string)
    requires Whole(SEGMENTS, TOP, segment)
    ensures var s := OverrideSegment(segment, database);
      Whole(SEGMENTS, TOP, s) && (Run(SEGMENTS, TOP, segment) == TOP ==> Run(SEGMENTS, TOP, s) == TOP)
  {
    hide Whole, Run, Encode, IndexByte;
    if IsDatabase(segment) {
      var key := segment[..IndexByte(segment, '=') + 1];
      KeyIsPlain(segment);
      PlainDecodes(key);
      EncodeDecodes(database);
      WholeConcat(SEGMENTS, TOP, key, Encode(database));
      RunConcat(SEGMENTS, TOP, key, Encode(database));
    }
  }

  /** The key of an overridden segment stays, so the segment is still a database segment. */
  lemma OverrideSegmentKey(segment: string, database: string)
    requires IsDatabase(segment)
    ensures var s := OverrideSegment(segment, database); var separator := IndexByte(segment, '=');
      IsDatabase(s) && IndexByte(s, '=') == separator && s[..separator + 1] == segment[..separator + 1]
      && s[separator + 1..] == Encode(database)
  {
    hide Encode;
    var s := OverrideSegment(segment, database);
    var separator := IndexByte(segment, '=');
    IndexByteIsFirst(segment, '=');
    IndexByteIsFirst(s, '=');
    assert forall i | 0 <= i <= separator :: s[i] == segment[i];
    assert s[..separator] == segment[..separator];
  }

  /** The overridden name has the segments of the original one, overridden, and no others. */
  lemma OverrideKeepsSegments(dsn: string, database: string)
    ensures Split(SEGMENTS, TOP, Override(dsn, database)) == OverrideAll(Split(SEGMENTS, TOP, dsn), database)
  {
    hide OverrideSegment, Split, Whole, Run;
    var segments := Split(SEGMENTS, TOP, dsn);
    var overridden := OverrideAll(segments, database);
    SplitListable(SEGMENTS, TOP, dsn);
    ListableWith(SEGMENTS, segments);
    forall i | 0 <= i < |segments|
      ensures Whole(SEGMENTS, TOP, overridden[i])
      ensures i < |segments| - 1 ==> Run(SEGMENTS, TOP, overridden[i]) == TOP
    {
      OverrideSegmentScans(segments[i], database);
    }
    JoinThenSplit(SEGMENTS, overridden);
  }

  function ValueOf(segment: string): string { Decode(false, segment[IndexByte(segment, '=') + 1..]) }

  // ---- which segments, in the words of the format ----

  predicate White(s: string) {
    forall i | 0 <= i < |s| ::
      s[i] == ' ' || s[i] == '\t' || s[i] == '\n' || s[i] == '\r' || s[i] == 11 as char || s[i] == 12 as char
  }

  predicate NamesDatabase(key: string) { key == "DB" || key == "Db" || key == "dB" || key == "db" }

  /** White space, DB in any letter case, white space, `=` and the value. */
  ghost predicate DatabaseText(segment: string, lead: string, key: string, tail: string, value: string) {
    White(lead) && NamesDatabase(key) && White(tail) && segment == lead + key + tail + "=" + value
  }

  ghost predicate DatabaseSegment(segment: string) {
    exists lead, key, tail, value :: DatabaseText(segment, lead, key, tail, value)
  }

  /** How a database name is written: in quotes, with doubled quotes, if it has a semicolon or a quote. */
  predicate Written(text: string, value: string) {
    text == if ';' !in value && '\'' !in value then value else "'" + Doubled(value, '\'') + "'"
  }

  lemma TextIsDatabase(segment: string, lead: string, key: string, tail: string, value: string)
    requires DatabaseText(segment, lead, key, tail, value)
    ensures IsDatabase(segment) && IndexByte(segment, '=') == |lead| + |key| + |tail|
    ensures segment[..IndexByte(segment, '=')] == lead + key + tail
  {
    hide Trim;
    var name := lead + key + tail;
    KeyHasNoEquals(lead, key, tail);
    CutAt(name, '=', value);
    IndexByteIsFirst(segment, '=');
    assert segment[|name|] == '=' && forall k | 0 <= k < |name| :: segment[k] == name[k];
    assert segment[..|name|] == name;
    TrimmedKey(lead, key, tail);
    assert Upper(key) == "DB" == Upper("DB");
  }

  lemma KeyHasNoEquals(lead: string, key: string, tail: string)
    requires White(lead) && NamesDatabase(key) && White(tail)
    ensures Without(lead + key + tail, '=')
  {
  }

  lemma TrimmedKey(lead: string, key: string, tail: string)
    requires White(lead) && NamesDatabase(key) && White(tail)
    ensures Trim(lead + key + tail) == key
  {
    hide Trim;
    assert lead + key + tail == lead + (key + tail);
    TrimSkips(lead, key + tail);
    TrimDropsTrailing(key + tail, |key|);
    assert (key + tail)[..|key|] == key;
    TrimFixed(key);
  }

  lemma DatabaseIsText(segment: string) returns (lead: string, key: string, tail: string, value: string)
    requires IsDatabase(segment)
    ensures DatabaseText(segment, lead, key, tail, value)
  {
    hide Trim;
    var separator := IndexByte(segment, '=');
    var name := segment[..separator];
    var n := TrimSplits(name);
    key := Trim(name);
    lead, tail, value := name[..n], name[n + |key|..], segment[separator + 1..];
    assert Upper("DB") == "DB";
    SpellsDatabase(key);
    assert name == lead + key + tail;
    assert segment == name + "=" + value;
    assert White(lead) && White(tail);
  }

  lemma SpellsDatabase(key: string)
    requires Upper(key) == "DB"
    ensures NamesDatabase(key)
  {
    assert |key| == 2 && UpperChar(key[0]) == 'D' && UpperChar(key[1]) == 'B';
    assert key == [key[0], key[1]];
    assert key == "DB" || key == "Db" || key == "dB" || key == "db";
  }

  /** A segment is overridden exactly if its key is DB, in any letter case and with any white space around;
      then only its value changes. */
  lemma SegmentIsOverridden(segment: string, database: string)
    ensures IsDatabase(segment) <==> DatabaseSegment(segment)
    ensures !DatabaseSegment(segment) ==> OverrideSegment(segment, database) == segment
    ensures forall lead, key, tail, value | DatabaseText(segment, lead, key, tail, value) ::
        exists text | Written(text, database) :: DatabaseText(OverrideSegment(segment, database), lead, key, tail, text)
  {
    hide IndexByte, Trim;
    if IsDatabase(segment) {
      var lead, key, tail, value := DatabaseIsText(segment);
      assert DatabaseText(segment, lead, key, tail, value);
    }
    forall lead, key, tail, value | DatabaseText(segment, lead, key, tail, value)
      ensures IsDatabase(segment)
      ensures exists text | Written(text, database) :: DatabaseText(OverrideSegment(segment, database), lead, key,
          tail, text)
    {
      TextIsDatabase(segment, lead, key, tail, value);
      EncodeIsWritten(database);
      var separator := IndexByte(segment, '=');
      assert segment[..separator + 1] == lead + key + tail + "=";
      assert DatabaseText(OverrideSegment(segment, database), lead, key, tail, Encode(database));
    }
  }

  lemma EncodeIsWritten(value: string)
    ensures Written(Encode(value), value)
  {
  }

  /** For every data source name and database: read again with the same lexer, there are as many
      segments as before; one whose key is not DB is unchanged; one whose key is keeps its key, and its value
      is written as, and stands for, exactly the new database, even if that holds semicolons or quotes. */
  lemma OverrideReadsBack(dsn: string, database: string, i: nat)
    requires i < |Split(SEGMENTS, TOP, dsn)|
    ensures var before := Split(SEGMENTS, TOP, dsn); var after := Split(SEGMENTS, TOP, Override(dsn, database));
      && |after| == |before|
      && (!DatabaseSegment(before[i]) ==> after[i] == before[i])
      && (DatabaseSegment(before[i]) ==> ValueOf(after[i]) == database)
      && (forall lead, key, tail, value | DatabaseText(before[i], lead, key, tail, value) ::
            exists text | Written(text, database) :: DatabaseText(after[i], lead, key, tail, text))
  {
    hide Split, Decode, Encode, DatabaseText, Written, IsDatabase;
    var segment := Split(SEGMENTS, TOP, dsn)[i];
    OverrideKeepsSegments(dsn, database);
    SegmentIsOverridden(segment, database);
    if IsDatabase(segment) {
      OverrideSegmentKey(segment, database);
      EncodeDecodes(database);
    }
  }

  /** Of two overrides only the last one counts. */
  lemma OverrideTwice(dsn: string, x: string, y: string)
    ensures Override(Override(dsn, x), y) == Override(dsn, y)
  {
    hide Split, OverrideSegment;
    var segments := Split(SEGMENTS, TOP, dsn);
    OverrideKeepsSegments(dsn, x);
    forall i | 0 <= i < |segments|
      ensures OverrideSegment(OverrideSegment(segments[i], x), y) == OverrideSegment(segments[i], y)
    {
      OverrideSegmentTwice(segments[i], x, y);
    }
    assert OverrideAll(OverrideAll(segments, x), y) == OverrideAll(segments, y);
  }

  lemma OverrideSegmentTwice(segment: string, x: string, y: string)
    ensures OverrideSegment(OverrideSegment(segment, x), y) == OverrideSegment(segment, y)
  {
    hide Encode, IndexByte;
    if IsDatabase(segment) {
      OverrideSegmentKey(segment, x);
    }
  }

  /** An override that finds no database segment changes nothing. */
  lemma OverrideNothing(dsn: string, database: string)
    requires forall i | 0 <= i < |Split(SEGMENTS, TOP, dsn)| :: !DatabaseSegment(Split(SEGMENTS, TOP, dsn)[i])
    ensures Override(dsn, database) == dsn
  {
    hide IsDatabase, Split, DatabaseSegment;
    forall i | 0 <= i < |Split(SEGMENTS, TOP, dsn)|
      ensures OverrideSegment(Split(SEGMENTS, TOP, dsn)[i], database) == Split(SEGMENTS, TOP, dsn)[i]
    {
      SegmentIsOverridden(Split(SEGMENTS, TOP, dsn)[i], database);
    }
    assert OverrideAll(Split(SEGMENTS, TOP, dsn), database) == Split(SEGMENTS, TOP, dsn);
    SplitJoin(SEGMENTS, TOP, dsn);
  }
}
