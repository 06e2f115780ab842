/** Byte-string helpers shared by the models of the Go and PHP sources. A `string` stands for the
    bytes of the source text; only ASCII white space and ASCII letters are folded or trimmed. */
module Text {
  datatype Option<+T> = None | Some(value: T)
  datatype Result<+T> = Ok(value: T) | Err(error: string)

  predicate IsSpace(c: char) {
    c == ' ' || c == '\t' || c == '\n' || c == '\r' || c == 11 as char || c == 12 as char
  }

  predicate IsDigit(c: char) { '0' <= c <= '9' }

  predicate IsLetter(c: char) { 'a' <= c <= 'z' || 'A' <= c <= 'Z' }

  function TrimLeft(s: string): string {
    if s != [] && IsSpace(s[0]) then TrimLeft(s[1..]) else s
  }

  function TrimRight(s: string): string {
    if s != [] && IsSpace(s[|s| - 1]) then TrimRight(s[..|s| - 1]) else s
  }

  function Trim(s: string): string {
    if s != [] && IsSpace(s[0]) then Trim(s[1..]) else TrimRight(s)
  }

  lemma {:induction false} TrimLeftSplits(s: string)
    ensures |TrimLeft(s)| <= |s| && TrimLeft(s) == s[|s| - |TrimLeft(s)|..]
    ensures forall i | 0 <= i < |s| - |TrimLeft(s)| :: IsSpace(s[i])
    ensures TrimLeft(s) == [] || !IsSpace(TrimLeft(s)[0])
  {
    if s != [] && IsSpace(s[0]) {
      TrimLeftSplits(s[1..]);
      assert forall i | 1 <= i < |s| :: s[i] == s[1..][i - 1];
    }
  }

  lemma {:induction false} TrimRightSplits(s: string)
    ensures |TrimRight(s)| <= |s| && TrimRight(s) == s[..|TrimRight(s)|]
    ensures forall i | |TrimRight(s)| <= i < |s| :: IsSpace(s[i])
    ensures TrimRight(s) == [] || !IsSpace(TrimRight(s)[|TrimRight(s)| - 1])
  {
    if s != [] && IsSpace(s[|s| - 1]) {
      TrimRightSplits(s[..|s| - 1]);
    }
  }

  /** Trimming cuts one block out of the text: white space, the result, white space. */
  lemma {:induction false} TrimSplits(s: string) returns (lead: nat)
    ensures lead + |Trim(s)| <= |s| && Trim(s) == s[lead..lead + |Trim(s)|]
    ensures forall i | 0 <= i < lead || lead + |Trim(s)| <= i < |s| :: IsSpace(s[i])
    ensures lead == |s| - |TrimLeft(s)|
    ensures Trim(s) == [] || (!IsSpace(Trim(s)[0]) && !IsSpace(Trim(s)[|Trim(s)| - 1]))
  {
    if s != [] && IsSpace(s[0]) {
      lead := TrimSplits(s[1..]);
      lead := lead + 1;
      assert forall i | 1 <= i < |s| :: s[i] == s[1..][i - 1];
    } else {
      lead := 0;
      TrimRightSplits(s);
    }
  }

  /** A text that neither starts nor ends with white space is its own trim. */
  lemma TrimFixed(s: string)
    requires s == [] || (!IsSpace(s[0]) && !IsSpace(s[|s| - 1]))
    ensures Trim(s) == s
  {
  }

  lemma {:induction false} TrimAllSpace(s: string)
    requires forall i | 0 <= i < |s| :: IsSpace(s[i])
    ensures Trim(s) == ""
  {
    if s != [] {
      TrimAllSpace(s[1..]);
    }
  }

  /** White space at the end makes no difference. */
  lemma {:induction false} TrimDropsTrailing(s: string, n: nat)
    requires n <= |s| && forall i | n <= i < |s| :: IsSpace(s[i])
    ensures Trim(s[..n]) == Trim(s)
    decreases |s|
  {
    if n == 0 {
      TrimAllSpace(s);
      TrimAllSpace(s[..0]);
    } else if IsSpace(s[0]) {
      assert s[..n][1..] == s[1..][..n - 1];
      TrimDropsTrailing(s[1..], n - 1);
    } else {
      TrimRightDropsTrailing(s, n);
    }
  }

  lemma {:induction false} TrimRightDropsTrailing(s: string, n: nat)
    requires n <= |s| && forall i | n <= i < |s| :: IsSpace(s[i])
    ensures TrimRight(s[..n]) == TrimRight(s)
    decreases |s|
  {
    if n < |s| {
      assert s[..|s| - 1][..n] == s[..n];
      TrimRightDropsTrailing(s[..|s| - 1], n);
    } else {
      assert s[..n] == s;
    }
  }

  /** White space at the start makes no difference either. */
  lemma {:induction false} TrimSkips(gap: string, s: string)
    requires forall i | 0 <= i < |gap| :: IsSpace(gap[i])
    ensures Trim(gap + s) == Trim(s)
  {
    if gap == "" {
      assert gap + s == s;
    } else {
      assert (gap + s)[1..] == gap[1..] + s;
      TrimSkips(gap[1..], s);
    }
  }

  lemma TrimTwice(s: string)
    ensures Trim(Trim(s)) == Trim(s)
  {
    var _ := TrimSplits(s);
    TrimFixed(Trim(s));
  }

  function UpperChar(c: char): char {
    if 'a' <= c <= 'z' then (c as int - 32) as char else c
  }

  function Upper(s: string): (r: string)
    ensures |r| == |s|
    ensures forall i | 0 <= i < |s| :: r[i] == UpperChar(s[i])
  {
    seq(|s|, i requires 0 <= i < |s| => UpperChar(s[i]))
  }

  predicate EqualFold(a: string, b: string) { Upper(a) == Upper(b) }

  function Join(parts: seq<string>, separator: string): string {
    if |parts| == 0 then ""
    else if |parts| == 1 then parts[0]
    else parts[0] + separator + Join(parts[1..], separator)
  }

  /** Doubles every occurrence of the quote `q`. */
  function Doubled(s: string, q: char): string {
    if s == [] then [] else (if s[0] == q then [q, q] else [s[0]]) + Doubled(s[1..], q)
  }

  lemma SliceOfSlice(s: string, a: nat, b: nat, i: nat, j: nat)
    requires a <= b <= |s| && i <= j <= b - a
    ensures s[a..b][i..j] == s[a + i..a + j] == s[i + a..j + a]
  {
    var x, y := s[a..b][i..j], s[a + i..a + j];
    assert |x| == |y| && forall k | 0 <= k < |x| :: x[k] == y[k];
  }

  function IndexByte(s: string, c: char): (r: int)
    ensures -1 <= r < |s| && (r >= 0 ==> s[r] == c)
  {
    if s == "" then -1
    else if s[0] == c then 0
    else var r := IndexByte(s[1..], c); if r < 0 then -1 else r + 1
  }

  predicate Without(s: string, c: char) { forall i | 0 <= i < |s| :: s[i] != c }

  /** There is none before the one found, and none at all if none was found. */
  lemma {:induction false} IndexByteIsFirst(s: string, c: char)
    ensures forall i | 0 <= i < (if IndexByte(s, c) < 0 then |s| else IndexByte(s, c)) :: s[i] != c
  {
    if s != "" && s[0] != c {
      IndexByteIsFirst(s[1..], c);
      assert forall i | 1 <= i < |s| :: s[i] == s[1..][i - 1];
    }
  }

  /** strings.Cut at a byte: what comes before it, and what comes after it if it is there. */
  function Before(s: string, c: char): string {
    if IndexByte(s, c) < 0 then s else s[..IndexByte(s, c)]
  }

  function After(s: string, c: char): Option<string> {
    if IndexByte(s, c) < 0 then None else Some(s[IndexByte(s, c) + 1..])
  }

  lemma BeforeIsWithout(s: string, c: char)
    ensures Without(Before(s, c), c)
  {
    IndexByteIsFirst(s, c);
  }

  lemma CutAt(a: string, c: char, b: string)
    requires Without(a, c)
    ensures Before(a, c) == a && After(a, c) == None
    ensures Before(a + [c] + b, c) == a && After(a + [c] + b, c) == Some(b)
  {
    var s := a + [c] + b;
    IndexByteIsFirst(s, c);
    var i := IndexByte(s, c);
    assert s[|a|] == c && forall k | 0 <= k < |a| :: s[k] == a[k];
    assert i == |a|;
    assert s[i + 1..] == b;
  }

  /** strings.Split at a byte. */
  function SplitOn(s: string, c: char): (r: seq<string>)
    ensures r != []
    decreases |s|
  {
    if IndexByte(s, c) < 0 then [s] else [Before(s, c)] + SplitOn(After(s, c).value, c)
  }

  lemma {:induction false} PiecesWithout(s: string, c: char)
    ensures forall i | 0 <= i < |SplitOn(s, c)| :: Without(SplitOn(s, c)[i], c)
    decreases |s|
  {
    hide Without, Before;
    BeforeIsWithout(s, c);
    if IndexByte(s, c) >= 0 {
      PiecesWithout(After(s, c).value, c);
    } else {
      assert Before(s, c) == s by {
        NothingCut(s, c);
      }
    }
  }

  lemma NothingCut(s: string, c: char)
    requires IndexByte(s, c) < 0
    ensures Before(s, c) == s
  {
  }

  function LowerChar(c: char): char {
    if 'A' <= c <= 'Z' then (c as int + 32) as char else c
  }

  function Lower(s: string): (r: string)
    ensures |r| == |s|
    ensures forall i | 0 <= i < |s| :: r[i] == LowerChar(s[i])
  {
    seq(|s|, i requires 0 <= i < |s| => LowerChar(s[i]))
  }

  function Decimal(n: nat): string {
    if n < 10 then ["0123456789"[n]] else Decimal(n / 10) + ["0123456789"[n % 10]]
  }

  lemma {:induction false} DecimalInjective(m: nat, n: nat)
    requires Decimal(m) == Decimal(n)
    ensures m == n
  {
    var a, b := Decimal(m), Decimal(n);
    assert a[|a| - 1] == "0123456789"[m % 10] && b[|b| - 1] == "0123456789"[n % 10];
    DecimalNotEmpty(m / 10);
    DecimalNotEmpty(n / 10);
    if m >= 10 && n >= 10 {
      assert Decimal(m / 10) == a[..|a| - 1] == b[..|b| - 1] == Decimal(n / 10);
      DecimalInjective(m / 10, n / 10);
    }
  }

  lemma DecimalNotEmpty(n: nat)
    ensures Decimal(n) != []
  {
  }

  /** The letters and their cases. */
  lemma LetterCases(i: nat)
    requires i < 26
    ensures var lower, upper := "abcdefghijklmnopqrstuvwxyz"[i], "ABCDEFGHIJKLMNOPQRSTUVWXYZ"[i];
      UpperChar(lower) == UpperChar(upper) == upper && LowerChar(upper) == LowerChar(lower) == lower
  {
  }
}
