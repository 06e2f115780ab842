/** The text of a Kingbase URL's query, in literals: the escaping, and the pairs that a rewrite keeps. */
module KingbaseUrlText {
  import opened Text
  import opened KingbaseUrl
  import Fields = KingbaseFields

  const UPPER_DIGITS := "0123456789ABCDEF"
  const LOWER_DIGITS := "0123456789abcdef"

  predicate Stands(c: char) {
    'a' <= c <= 'z' || 'A' <= c <= 'Z' || '0' <= c <= '9' || c == '-' || c == '_' || c == '.' || c == '~'
  }

  lemma DigitReads(n: nat)
    requires n < 16
    ensures Unhex(UPPER_DIGITS[n]) == Some(n) && Unhex(LOWER_DIGITS[n]) == Some(n)
  {
  }

  /** Only the twenty-two digits count. */
  lemma DigitsAre(c: char)
    ensures Unhex(c).Some? ==> exists n: nat | n < 16 :: c == UPPER_DIGITS[n] || c == LOWER_DIGITS[n]
  {
    if Unhex(c).Some? {
      var n := Unhex(c).value;
      assert n < 16 && (c == UPPER_DIGITS[n] || c == LOWER_DIGITS[n]);
    }
  }

  lemma ByteIs(c: char, hi: nat, lo: nat)
    requires hi < 16 && lo < 16 && c as int == 16 * hi + lo
    ensures EscapeByte(c)
         == if Stands(c) then [c] else if c == ' ' then "+" else ['%', UPPER_DIGITS[hi], UPPER_DIGITS[lo]]
  {
    assert c as int / 16 % 16 == hi && c as int % 16 == lo;
  }

  /** Letters, digits and the four marks stand for themselves, a plus sign for a blank, and every other byte is
      written as a percent sign and two capital digits. */
  lemma EscapeIs(c: char, hi: nat, lo: nat, rest: string)
    requires hi < 16 && lo < 16 && c as int == 16 * hi + lo
    ensures QueryEscape([c] + rest)
         == (if Stands(c) then [c] else if c == ' ' then "+" else ['%', UPPER_DIGITS[hi], UPPER_DIGITS[lo]])
            + QueryEscape(rest)
  {
    hide EscapeByte, Stands;
    ByteIs(c, hi, lo);
    assert ([c] + rest)[1..] == rest;
  }

  /** A percent sign and two digits, in either letter case, stand for the byte with that number. */
  lemma PercentReads(h: char, l: char, hi: nat, lo: nat, rest: string)
    requires hi < 16 && lo < 16
    requires h == UPPER_DIGITS[hi] || h == LOWER_DIGITS[hi]
    requires l == UPPER_DIGITS[lo] || l == LOWER_DIGITS[lo]
    requires QueryUnescape(rest).Some?
    ensures QueryUnescape("%" + ([h, l] + rest)) == Some([(16 * hi + lo) as char] + QueryUnescape(rest).value)
  {
    hide Unhex;
    DigitReads(hi);
    DigitReads(lo);
    var s := "%" + ([h, l] + rest);
    assert s[1] == h && s[2] == l && s[3..] == rest;
  }

  /** Every other character stands for itself, a plus sign for a blank. */
  lemma PlainReads(c: char, rest: string)
    requires c != '%' && QueryUnescape(rest).Some?
    ensures QueryUnescape([c] + rest) == Some([if c == '+' then ' ' else c] + QueryUnescape(rest).value)
  {
    assert ([c] + rest)[1..] == rest;
  }

  /** A percent sign without two digits behind it, wherever it stands, makes the text unreadable. */
  lemma {:induction false} BrokenIsRefused(a: string, rest: string)
    requires Without(a, '%')
    requires |rest| < 2 || Unhex(rest[0]).None? || Unhex(rest[1]).None?
    ensures QueryUnescape(a + ("%" + rest)) == None
    decreases |a|
  {
    hide Unhex;
    var s := a + ("%" + rest);
    if a == "" {
      assert s == "%" + rest && (|rest| >= 2 ==> s[1] == rest[0] && s[2] == rest[1]);
    } else {
      assert s[1..] == a[1..] + ("%" + rest);
      BrokenIsRefused(a[1..], rest);
    }
  }

  // ---- the pairs kept ----

  /** The pair names the mode: its key, unescaped, is `sslmode` in any letter case. */
  predicate IsModePair(pair: string) {
    var key := QueryUnescape(Before(pair, '='));
    key.Some? && Lower(key.value) == "sslmode"
  }

  lemma ModePairsAre(pair: string)
    ensures NamesSSLMode(Before(pair, '=')) == IsModePair(pair)
  {
    hide QueryUnescape, EqualFold, Lower;
    var key := QueryUnescape(Before(pair, '='));
    if key.Some? {
      Fields.CaseFold(key.value);
    }
  }


  /** Of the pairs of a query the empty ones and those that name the mode go. */
  lemma KeptOne(pair: string)
    ensures Kept([pair]) == if pair == "" || IsModePair(pair) then [] else [pair]
  {
    hide IsModePair, NamesSSLMode;
    ModePairsAre(pair);
    assert [pair][1..] == [] && Kept([]) == [];
  }

  /** Each pair goes or stays on its own, and the order stays. */
  lemma {:induction false} KeptConcat(a: seq<string>, b: seq<string>)
    ensures Kept(a + b) == Kept(a) + Kept(b)
  {
    hide Dropped;
    if a == [] {
      assert a + b == b;
    } else {
      assert (a + b)[1..] == a[1..] + b;
      KeptConcat(a[1..], b);
    }
  }
}
