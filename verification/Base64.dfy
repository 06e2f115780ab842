/** Base 64, as section 4 of RFC 4648 defines it, and PHP's strict decoding of it. */
module Base64 {
  import opened Text

  type Byte = b: int | 0 <= b < 256

  type Sextet = n: int | 0 <= n < 64

  function Digit(n: Sextet): char {
    if n < 26 then (n + 'A' as int) as char
    else if n < 52 then (n - 26 + 'a' as int) as char
    else if n < 62 then (n - 52 + '0' as int) as char
    else if n == 62 then '+'
    else '/'
  }

  function Value(c: char): Option<Sextet> {
    if 'A' <= c <= 'Z' then Some(c as int - 'A' as int)
    else if 'a' <= c <= 'z' then Some(c as int - 'a' as int + 26)
    else if '0' <= c <= '9' then Some(c as int - '0' as int + 52)
    else if c == '+' then Some(62)
    else if c == '/' then Some(63)
    else None
  }

  lemma ValueOfDigit(n: Sextet)
    ensures Value(Digit(n)) == Some(n) && Digit(n) != '=' && Digit(n) != '\n' && !IsSpace(Digit(n))
  {
  }

  // ---- groups of three bytes and four digits ----

  function Sextet1(a: Byte): Sextet { a / 4 }

  function Sextet2(a: Byte, b: Byte): Sextet { a % 4 * 16 + b / 16 }

  function Sextet3(b: Byte, c: Byte): Sextet { b % 16 * 4 + c / 64 }

  function Sextet4(c: Byte): Sextet { c % 64 }

  function Byte1(p: Sextet, q: Sextet): Byte { (p as int) * 4 + q as int / 16 }

  function Byte2(q: Sextet, r: Sextet): Byte { (q as int) % 16 * 16 + r as int / 4 }

  function Byte3(r: Sextet, s: Sextet): Byte { (r as int) % 4 * 64 + s as int }

  lemma GroupPacks(a: Byte, b: Byte, c: Byte)
    ensures Byte1(Sextet1(a), Sextet2(a, b)) == a
    ensures Byte2(Sextet2(a, b), Sextet3(b, c)) == b
    ensures Byte3(Sextet3(b, c), Sextet4(c)) == c
  {
  }

  /** The last group is filled with zero bits. */
  function Sextets(data: seq<Byte>): seq<Sextet> {
    if |data| == 0 then []
    else if |data| == 1 then [Sextet1(data[0]), Sextet2(data[0], 0)]
    else if |data| == 2 then [Sextet1(data[0]), Sextet2(data[0], data[1]), Sextet3(data[1], 0)]
    else
      [Sextet1(data[0]), Sextet2(data[0], data[1]), Sextet3(data[1], data[2]), Sextet4(data[2])] + Sextets(data[3..])
  }

  function Pack(s: seq<Sextet>): seq<Byte> {
    if |s| < 2 then []
    else if |s| == 2 then [Byte1(s[0], s[1])]
    else if |s| == 3 then [Byte1(s[0], s[1]), Byte2(s[1], s[2])]
    else [Byte1(s[0], s[1]), Byte2(s[1], s[2]), Byte3(s[2], s[3])] + Pack(s[4..])
  }

  lemma {:induction false} SextetsPack(data: seq<Byte>)
    ensures Pack(Sextets(data)) == data
  {
    hide Sextets, Pack;
    if |data| < 3 {
      LastGroupPacks(data);
    } else {
      var a, b, c := data[0], data[1], data[2];
      GroupPacks(a, b, c);
      SextetsPack(data[3..]);
      GroupSextets(data);
      PackGroup(Sextet1(a), Sextet2(a, b), Sextet3(b, c), Sextet4(c), Sextets(data[3..]));
      assert [a, b, c] + data[3..] == data;
    }
  }

  lemma LastGroupPacks(data: seq<Byte>)
    requires |data| < 3
    ensures Pack(Sextets(data)) == data
  {
    if |data| == 1 {
      OnePacks(data[0]);
      assert data == [data[0]];
    } else if |data| == 2 {
      TwoPack(data[0], data[1]);
      assert data == [data[0], data[1]];
    }
  }

  lemma OnePacks(a: Byte)
    ensures Pack(Sextets([a])) == [a]
  {
    hide Sextet1, Sextet2, Sextet3, Sextet4, Byte1, Byte2, Byte3;
    GroupPacks(a, 0, 0);
    assert Sextets([a]) == [Sextet1(a), Sextet2(a, 0)];
  }

  lemma TwoPack(a: Byte, b: Byte)
    ensures Pack(Sextets([a, b])) == [a, b]
  {
    hide Sextet1, Sextet2, Sextet3, Sextet4, Byte1, Byte2, Byte3;
    GroupPacks(a, b, 0);
    assert Sextets([a, b]) == [Sextet1(a), Sextet2(a, b), Sextet3(b, 0)];
  }

  lemma GroupSextets(data: seq<Byte>)
    requires |data| >= 3
    ensures Sextets(data) == [Sextet1(data[0]), Sextet2(data[0], data[1]), Sextet3(data[1], data[2]), Sextet4(data[2])]
      + Sextets(data[3..])
  {
  }

  lemma {:induction false} SextetsLength(data: seq<Byte>)
    ensures |Sextets(data)| % 4 == (if |data| % 3 == 0 then 0 else |data| % 3 + 1)
  {
    hide Sextet1, Sextet2, Sextet3, Sextet4;
    if |data| > 2 {
      SextetsLength(data[3..]);
      assert |Sextets(data)| == 4 + |Sextets(data[3..])|;
    }
  }

  lemma PackGroup(p: Sextet, q: Sextet, r: Sextet, s: Sextet, rest: seq<Sextet>)
    ensures Pack([p, q, r, s] + rest) == [Byte1(p, q), Byte2(q, r), Byte3(r, s)] + Pack(rest)
  {
    hide Byte1, Byte2, Byte3;
    assert ([p, q, r, s] + rest)[4..] == rest;
  }

  // ---- encoding ----

  function Digits(s: seq<Sextet>): string {
    if s == [] then "" else [Digit(s[0])] + Digits(s[1..])
  }

  function Padding(n: nat): string {
    if n % 3 == 1 then "==" else if n % 3 == 2 then "=" else ""
  }

  function Encode(data: seq<Byte>): string { Digits(Sextets(data)) + Padding(|data|) }

  // ---- strict decoding ----

  datatype Scanned = Failed | Scanned(sextets: seq<Sextet>, padding: nat)

  /** White space is skipped; a character outside the alphabet, or a digit after padding, is a failure. */
  function ScanFrom(s: string, padding: nat): Scanned
    decreases |s|
  {
    if s == "" then Scanned([], padding)
    else if s[0] == '=' then ScanFrom(s[1..], padding + 1)
    else if s[0] == ' ' || s[0] == '\t' || s[0] == '\n' || s[0] == '\r' then ScanFrom(s[1..], padding)
    else if Value(s[0]).None? || padding > 0 then Failed
    else
      var rest := ScanFrom(s[1..], padding);
      if rest.Failed? then Failed else Scanned([Value(s[0]).value] + rest.sextets, rest.padding)
  }

  function Decode(s: string): Option<seq<Byte>> {
    var r := ScanFrom(s, 0);
    if r.Failed? || |r.sextets| % 4 == 1 then None
    else if r.padding > 0 && (r.padding > 2 || (|r.sextets| + r.padding) % 4 != 0) then None
    else Some(Pack(r.sextets))
  }

  lemma {:induction false} DigitsScan(s: seq<Sextet>, n: nat)
    ensures ScanFrom(Digits(s) + Padding(n), 0) == Scanned(s, |Padding(n)|)
    ensures forall i | 0 <= i < |Digits(s)| :: Digits(s)[i] != '\n'
  {
    var pad := Padding(n);
    if s == [] {
      assert Digits(s) + pad == pad;
      if pad == "==" {
        assert pad[1..] == "=" && "="[1..] == "";
      } else if pad == "=" {
        assert pad[1..] == "";
      }
    } else {
      DigitsScan(s[1..], n);
      ValueOfDigit(s[0]);
      assert (Digits(s) + pad)[1..] == Digits(s[1..]) + pad;
      assert [s[0]] + s[1..] == s;
    }
  }

  /** Decoding undoes encoding for every sequence of bytes. */
  lemma DecodeEncode(data: seq<Byte>)
    ensures Decode(Encode(data)) == Some(data)
  {
    hide Sextets, Pack, Digits, ScanFrom;
    SextetsPack(data);
    SextetsLength(data);
    DigitsScan(Sextets(data), |data|);
  }

  /** An encoded chunk is one line of text, and not an empty one. */
  lemma EncodeIsOneLine(data: seq<Byte>)
    requires data != []
    ensures Encode(data) != "" && Without(Encode(data), '\n')
  {
    hide Digits;
    SextetsLength(data);
    DigitsScan(Sextets(data), |data|);
    SomeDigits(Sextets(data));
  }

  lemma SomeDigits(s: seq<Sextet>)
    ensures s != [] ==> Digits(s) != ""
  {
  }

  // ---- the code in the words of the standard ----

  lemma CapitalDigit(n: Sextet)
    requires n < 26
    ensures Digit(n) == "ABCDEFGHIJKLMNOPQRSTUVWXYZ"[n]
  {
  }

  lemma SmallDigit(n: Sextet)
    requires 26 <= n < 52
    ensures Digit(n) == "abcdefghijklmnopqrstuvwxyz"[n - 26]
  {
  }

  /** The sixty-four digits: capitals, small letters, decimal digits, plus and slash. */
  lemma DigitIs(n: Sextet)
    ensures n < 26 ==> Digit(n) == "ABCDEFGHIJKLMNOPQRSTUVWXYZ"[n]
    ensures 26 <= n < 52 ==> Digit(n) == "abcdefghijklmnopqrstuvwxyz"[n - 26]
    ensures 52 <= n < 62 ==> Digit(n) == "0123456789"[n - 52]
    ensures Digit(62) == '+' && Digit(63) == '/'
  {
    if n < 26 {
      CapitalDigit(n);
    } else if n < 52 {
      SmallDigit(n);
    }
  }

  /** Three bytes are 24 bits, most significant first, written as four digits of six bits each. */
  lemma EncodeGroup(a: Byte, b: Byte, c: Byte, rest: seq<Byte>) returns (p: Sextet, q: Sextet, r: Sextet, s: Sextet)
    ensures Encode([a, b, c] + rest) == [Digit(p), Digit(q), Digit(r), Digit(s)] + Encode(rest)
    ensures 262144 * (p as int) + 4096 * (q as int) + 64 * (r as int) + s as int
         == 65536 * (a as int) + 256 * (b as int) + c as int
  {
    hide Digit, Sextet1, Sextet2, Sextet3, Sextet4;
    var data := [a, b, c] + rest;
    assert data[3..] == rest;
    p, q, r, s := Sextet1(a), Sextet2(a, b), Sextet3(b, c), Sextet4(c);
    GroupDigits(a, b, c);
    GroupSextets(data);
    FourDigits(p, q, r, s, Sextets(rest));
    assert Padding(|data|) == Padding(|rest|);
  }

  lemma GroupDigits(a: Byte, b: Byte, c: Byte)
    ensures 262144 * (Sextet1(a) as int) + 4096 * (Sextet2(a, b) as int) + 64 * (Sextet3(b, c) as int)
        + Sextet4(c) as int
         == 65536 * (a as int) + 256 * (b as int) + c as int
  {
  }

  lemma DigitsCons(p: Sextet, rest: seq<Sextet>)
    ensures Digits([p] + rest) == [Digit(p)] + Digits(rest)
  {
    hide Digit;
    assert ([p] + rest)[1..] == rest;
  }

  lemma FourDigits(p: Sextet, q: Sextet, r: Sextet, s: Sextet, rest: seq<Sextet>)
    ensures Digits([p, q, r, s] + rest) == [Digit(p), Digit(q), Digit(r), Digit(s)] + Digits(rest)
  {
    hide Digit, Digits;
    DigitsCons(p, [q, r, s] + rest);
    DigitsCons(q, [r, s] + rest);
    DigitsCons(r, [s] + rest);
    DigitsCons(s, rest);
    assert [p, q, r, s] + rest == [p] + ([q, r, s] + rest);
    assert [q, r, s] + rest == [q] + ([r, s] + rest) && [r, s] + rest == [r] + ([s] + rest);
  }

  /** One or two bytes at the end are filled with zero bits and marked by equals signs. */
  lemma EncodeEnd(a: Byte, b: Byte) returns (p: Sextet, q: Sextet, x: Sextet, y: Sextet, z: Sextet)
    ensures Encode([]) == ""
    ensures Encode([a]) == [Digit(p), Digit(q)] + "==" && 64 * (p as int) + q as int == 16 * (a as int)
    ensures Encode([a, b]) == [Digit(x), Digit(y), Digit(z)] + "="
    ensures 4096 * (x as int) + 64 * (y as int) + z as int == 4 * (256 * (a as int) + b as int)
  {
    hide Digit, Digits, Sextet1, Sextet2, Sextet3, Sextet4;
    NoDigits();
    p, q := Sextet1(a), Sextet2(a, 0);
    x, y, z := Sextet1(a), Sextet2(a, b), Sextet3(b, 0);
    GroupDigits(a, 0, 0);
    GroupDigits(a, b, 0);
    ZeroDigits();
    DigitsCons(q, []);
    DigitsCons(p, [q]);
    DigitsCons(z, []);
    DigitsCons(y, [z]);
    DigitsCons(x, [y, z]);
    assert [q] + [] == [q] && [p] + [q] == [p, q] && [z] + [] == [z] && [y] + [z] == [y, z]
        && [x] + [y, z] == [x, y, z];
    assert Sextets([a]) == [p, q] && Sextets([a, b]) == [x, y, z];
    assert [Digit(p)] + ([Digit(q)] + "") == [Digit(p), Digit(q)];
    assert [Digit(x)] + ([Digit(y)] + ([Digit(z)] + "")) == [Digit(x), Digit(y), Digit(z)];
  }

  lemma NoDigits()
    ensures Encode([]) == "" && Digits([]) == ""
  {
  }

  lemma ZeroDigits()
    ensures Sextet3(0, 0) == 0 && Sextet4(0) == 0
  {
  }

  // ---- what strict decoding accepts ----

  predicate InAlphabet(c: char) { 'A' <= c <= 'Z' || 'a' <= c <= 'z' || '0' <= c <= '9' || c == '+' || c == '/' }

  predicate Blank(c: char) { c == ' ' || c == '\t' || c == '\n' || c == '\r' }

  lemma {:induction false} ScanSkips(a: string, c: char, b: string, padding: nat)
    requires Blank(c)
    ensures ScanFrom(a + [c] + b, padding) == ScanFrom(a + b, padding)
    decreases |a|
  {
    if a == "" {
      assert a + [c] + b == [c] + b && ([c] + b)[1..] == b && a + b == b;
    } else {
      var s := a + [c] + b;
      assert s[0] == a[0] && s[1..] == a[1..] + [c] + b && (a + b)[1..] == a[1..] + b;
      ScanSkips(a[1..], c, b, padding);
      ScanSkips(a[1..], c, b, padding + 1);
    }
  }

  /** White space makes no difference, wherever it stands. */
  lemma DecodeSkips(a: string, c: char, b: string)
    requires Blank(c)
    ensures Decode(a + [c] + b) == Decode(a + b)
  {
    hide ScanFrom;
    ScanSkips(a, c, b, 0);
  }

  lemma {:induction false} ScanRejects(a: string, c: char, b: string, padding: nat)
    requires !InAlphabet(c) && c != '=' && !Blank(c)
    ensures ScanFrom(a + [c] + b, padding) == Failed
    decreases |a|
  {
    var s := a + [c] + b;
    if a == "" {
      assert s[0] == c;
    } else {
      assert s[0] == a[0] && s[1..] == a[1..] + [c] + b;
      ScanRejects(a[1..], c, b, padding);
      ScanRejects(a[1..], c, b, padding + 1);
    }
  }

  /** Any other character makes the text undecodable. */
  lemma DecodeRejects(a: string, c: char, b: string)
    requires !InAlphabet(c) && c != '=' && !Blank(c)
    ensures Decode(a + [c] + b) == None
  {
    hide ScanFrom;
    ScanRejects(a, c, b, 0);
  }

  lemma {:induction false} ScanAfterPadding(a: string, padding: nat, c: char, b: string)
    requires padding > 0 && InAlphabet(c)
    ensures ScanFrom(a + [c] + b, padding) == Failed
    decreases |a|
  {
    var s := a + [c] + b;
    if a == "" {
      assert s[0] == c;
    } else {
      assert s[0] == a[0] && s[1..] == a[1..] + [c] + b;
      ScanAfterPadding(a[1..], padding, c, b);
      ScanAfterPadding(a[1..], padding + 1, c, b);
    }
  }

  lemma {:induction false} ScanMisplaced(a: string, between: string, c: char, b: string, padding: nat)
    requires InAlphabet(c)
    ensures ScanFrom(a + ("=" + (between + [c] + b)), padding) == Failed
    decreases |a|
  {
    var s := a + ("=" + (between + [c] + b));
    if a == "" {
      assert s[0] == '=' && s[1..] == between + [c] + b;
      ScanAfterPadding(between, padding + 1, c, b);
    } else {
      assert s[0] == a[0] && s[1..] == a[1..] + ("=" + (between + [c] + b));
      ScanMisplaced(a[1..], between, c, b, padding);
      ScanMisplaced(a[1..], between, c, b, padding + 1);
    }
  }

  /** So does a digit behind an equals sign. */
  lemma DigitAfterPadding(a: string, between: string, c: char, b: string)
    requires InAlphabet(c)
    ensures Decode(a + ("=" + (between + [c] + b))) == None
  {
    hide ScanFrom;
    ScanMisplaced(a, between, c, b, 0);
  }

  function Equals(k: nat): string { if k == 0 then "" else "=" + Equals(k - 1) }

  lemma {:induction false} EqualsScan(k: nat, padding: nat)
    ensures ScanFrom(Equals(k), padding) == Scanned([], padding + k)
  {
    if k > 0 {
      EqualsScan(k - 1, padding + 1);
      assert Equals(k)[1..] == Equals(k - 1);
    }
  }

  lemma {:induction false} DigitsThenEquals(s: seq<Sextet>, k: nat)
    ensures ScanFrom(Digits(s) + Equals(k), 0) == Scanned(s, k)
  {
    if s == [] {
      EqualsScan(k, 0);
      assert "" + Equals(k) == Equals(k);
    } else {
      DigitsThenEquals(s[1..], k);
      ValueOfDigit(s[0]);
      var text := Digits(s) + Equals(k);
      assert text[0] == Digit(s[0]) && text[1..] == Digits(s[1..]) + Equals(k);
      assert [s[0]] + s[1..] == s;
    }
  }

  /** Equals signs may be left out; if there are any, one or two must fill a group of four; and a single digit
      in the last group is an error. */
  lemma PaddingRule(s: seq<Sextet>, k: nat)
    ensures Decode(Digits(s) + Equals(k)).Some? <==>
      |s| % 4 != 1 && (k == 0 || (k <= 2 && (|s| + k) % 4 == 0))
  {
    hide ScanFrom, Digits, Equals;
    DigitsThenEquals(s, k);
  }
}
