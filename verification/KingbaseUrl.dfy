/** The sslmode of a Kingbase connection string in URL form: rewriting it and reading it back. */
module KingbaseUrl {
  import opened Text

  const SCHEME := "kingbase://"

  predicate IsUrl(value: string) { SCHEME <= Lower(value) }

  // ---- net/url's query escaping ----

  predicate Unreserved(c: char) { IsLetter(c) || IsDigit(c) || c == '-' || c == '_' || c == '.' || c == '~' }

  function Hex(n: nat): char
    requires n < 16
  {
    "0123456789ABCDEF"[n]
  }

  function Unhex(c: char): Option<nat> {
    if '0' <= c <= '9' then Some(c as int - '0' as int)
    else if 'A' <= c <= 'F' then Some(c as int - 'A' as int + 10)
    else if 'a' <= c <= 'f' then Some(c as int - 'a' as int + 10)
    else None
  }

  function EscapeByte(c: char): (r: string)
    ensures forall i | 0 <= i < |r| :: Unreserved(r[i]) || r[i] == '+' || r[i] == '%'
  {
    if Unreserved(c) then [c]
    else if c == ' ' then "+"
    else ['%', Hex(c as int / 16 % 16), Hex(c as int % 16)]
  }

  function QueryEscape(s: string): (r: string)
    ensures forall i | 0 <= i < |r| :: Unreserved(r[i]) || r[i] == '+' || r[i] == '%'
  {
    if s == "" then "" else EscapeByte(s[0]) + QueryEscape(s[1..])
  }

  function QueryUnescape(s: string): Option<string>
    decreases |s|
  {
    if s == "" then Some("")
    else if s[0] == '%' then
      if |s| < 3 || Unhex(s[1]).None? || Unhex(s[2]).None? then None
      else Prepend((16 * Unhex(s[1]).value + Unhex(s[2]).value) as char, QueryUnescape(s[3..]))
    else Prepend(if s[0] == '+' then ' ' else s[0], QueryUnescape(s[1..]))
  }

  function Prepend(c: char, s: Option<string>): Option<string> {
    if s.Some? then Some([c] + s.value) else None
  }

  predicate Bytes(s: string) { forall i | 0 <= i < |s| :: s[i] as int < 256 }

  lemma UnhexHex(n: nat)
    requires n < 16
    ensures Unhex(Hex(n)) == Some(n)
  {
  }

  /** Escaping is undone by unescaping, for every string of bytes. */
  lemma {:induction false} EscapeUnescapes(s: string)
    requires Bytes(s)
    ensures QueryUnescape(QueryEscape(s)) == Some(s)
  {
    hide Hex, Unhex;
    if s != "" {
      var c, rest := s[0], QueryEscape(s[1..]);
      EscapeUnescapes(s[1..]);
      UnhexHex(c as int / 16 % 16);
      UnhexHex(c as int % 16);
      var e := EscapeByte(c);
      assert (e + rest)[|e|..] == rest && (e + rest)[0] == e[0];
      assert [c] + s[1..] == s;
      if !Unreserved(c) && c != ' ' {
        assert (e + rest)[1] == e[1] && (e + rest)[2] == e[2];
        assert 16 * (c as int / 16 % 16) + c as int % 16 == c as int;
      }
    }
  }

  // ---- splitting ----

  lemma {:induction false} SplitOnJoin(parts: seq<string>, c: char)
    requires parts != [] && forall i | 0 <= i < |parts| :: Without(parts[i], c)
    ensures SplitOn(Join(parts, [c]), c) == parts
    decreases |parts|
  {
    if |parts| == 1 {
      CutAt(parts[0], c, "");
    } else {
      SplitOnJoin(parts[1..], c);
      CutAt(parts[0], c, Join(parts[1..], [c]));
      assert Join(parts, [c]) == parts[0] + [c] + Join(parts[1..], [c]);
    }
  }

  lemma {:induction false} SplitOnWithout(s: string, c: char, d: char)
    requires Without(s, d)
    ensures forall i | 0 <= i < |SplitOn(s, c)| :: Without(SplitOn(s, c)[i], d)
    decreases |s|
  {
    if IndexByte(s, c) >= 0 {
      SplitOnWithout(After(s, c).value, c, d);
    }
  }

  lemma {:induction false} JoinWithout(parts: seq<string>, c: char, d: char)
    requires c != d && forall i | 0 <= i < |parts| :: Without(parts[i], d)
    ensures Without(Join(parts, [c]), d)
    decreases |parts|
  {
    if |parts| > 1 {
      JoinWithout(parts[1..], c, d);
    }
  }

  // ---- rewriting ----

  predicate NamesSSLMode(key: string) {
    QueryUnescape(key).Some? && EqualFold(QueryUnescape(key).value, "sslmode")
  }

  /** The pairs of a query that a rewrite keeps. */
  function Kept(pairs: seq<string>): seq<string> {
    if pairs == [] then []
    else (if Dropped(pairs[0]) then [] else [pairs[0]]) + Kept(pairs[1..])
  }

  predicate Dropped(pair: string) { NamesSSLMode(Before(pair, '=')) || pair == "" }

  lemma {:induction false} KeptAre(pairs: seq<string>)
    ensures forall i | 0 <= i < |Kept(pairs)| :: Kept(pairs)[i] in pairs && !Dropped(Kept(pairs)[i])
  {
    hide Dropped;
    if pairs != [] {
      KeptAre(pairs[1..]);
    }
  }

  lemma KeptStep(pairs: seq<string>, i: nat)
    requires i <= |pairs|
    ensures pairs[0..] == pairs && Kept(pairs[|pairs|..]) == [] == Kept([])
    ensures i < |pairs| ==> Kept(pairs[i..]) == (if Dropped(pairs[i]) then [] else [pairs[i]]) + Kept(pairs[i + 1..])
  {
    hide Dropped;
    assert i < |pairs| ==> pairs[i..][1..] == pairs[i + 1..];
  }

  /** A URL in parts: everything before the query, the pairs of the query, and the fragment. */
  datatype Url = Url(base: string, pairs: seq<string>, fragment: Option<string>)

  /** How the rewriter takes a URL apart: the fragment is cut off first. */
  function Parts(value: string): Url {
    var baseAndQuery := Before(value, '#');
    var query := After(baseAndQuery, '?');
    Url(Before(baseAndQuery, '?'), if query.Some? then SplitOn(query.value, '&') else [], After(value, '#'))
  }

  function Print(u: Url): string {
    u.base + "?" + Join(u.pairs, "&") + (if u.fragment.Some? then "#" + u.fragment.value else "")
  }

  function ModePair(mode: string): string { "sslmode=" + QueryEscape(mode) }

  function Rewritten(u: Url, mode: string): Url { u.(pairs := Kept(u.pairs) + [ModePair(mode)]) }

  method RewriteUrl(value: string, sslMode: string) returns (result: string)
    requires IsUrl(value)
    ensures result == Print(Rewritten(Parts(value), sslMode))
  {
    hide Before, After, SplitOn, Kept, QueryUnescape, EqualFold, Join;
    var baseAndQuery, fragment := Before(value, '#'), After(value, '#');
    var base, query := Before(baseAndQuery, '?'), After(baseAndQuery, '?');
    var pairs: seq<string> := [];
    KeptStep([], 0);
    if query.Some? {
      var all := SplitOn(query.value, '&');
      KeptStep(all, |all|);
      for i := 0 to |all|
        invariant Kept(all) == pairs + Kept(all[i..])
      {
        KeptStep(all, i);
        var key := QueryUnescape(Before(all[i], '='));
        if key.Some? && EqualFold(key.value, "sslmode") {
          continue;
        }
        if all[i] != "" {
          pairs := pairs + [all[i]];
        }
      }
    }
    assert pairs == Kept(Parts(value).pairs);
    pairs := pairs + ["sslmode=" + QueryEscape(sslMode)];
    assert pairs == Rewritten(Parts(value), sslMode).pairs;
    result := base + "?" + Join(pairs, "&");
    if fragment.Some? {
      result := result + ("#" + fragment.value);
    }
    assert fragment.None? ==> result + "" == result;
  }

  // ---- reading ----

  function PairMode(pair: string): Option<string> {
    var raw := After(pair, '=');
    if raw.None? || !NamesSSLMode(Before(pair, '=')) then None
    else
      var decoded := QueryUnescape(raw.value);
      Some(Lower(Trim(if decoded.Some? then decoded.value else raw.value)))
  }

  /** The last pair that names the mode counts. */
  function LastMode(pairs: seq<string>): Option<string> {
    if pairs == [] then None
    else if PairMode(pairs[|pairs| - 1]).Some? then PairMode(pairs[|pairs| - 1])
    else LastMode(pairs[..|pairs| - 1])
  }

  /** How the reader finds the pairs: the query is cut off first, then the fragment. */
  function PairsRead(value: string): seq<string> {
    var query := After(value, '?');
    if query.None? then [] else SplitOn(Before(query.value, '#'), '&')
  }

  function Mode(value: string): Option<string> { LastMode(PairsRead(value)) }

  method ReadUrlMode(value: string) returns (sslMode: string, found: bool)
    requires IsUrl(value)
    ensures Mode(value) == if found then Some(sslMode) else None
  {
    hide PairMode;
    sslMode, found := "", false;
    var query := After(value, '?');
    if query.None? {
      return;
    }
    var pairs := SplitOn(Before(query.value, '#'), '&');
    for i := 0 to |pairs|
      invariant LastMode(pairs[..i]) == if found then Some(sslMode) else None
    {
      assert pairs[..i + 1][..i] == pairs[..i];
      var mode := PairMode(pairs[i]);
      if mode.None? {
        continue;
      }
      sslMode, found := mode.value, true;
    }
    assert pairs[..|pairs|] == pairs;
  }

  // ---- what rewriting means ----

  /** A URL in parts that prints and reads back. */
  ghost predicate Separate(u: Url) {
    && Without(u.base, '#') && Without(u.base, '?')
    && u.pairs != [] && forall i | 0 <= i < |u.pairs| :: Without(u.pairs[i], '&') && Without(u.pairs[i], '#')
  }

  lemma PrintedIs(u: Url)
    requires Separate(u)
    ensures Parts(Print(u)) == u && PairsRead(Print(u)) == u.pairs
  {
    hide Join, SplitOn, Before, After, Without;
    var query := Join(u.pairs, "&");
    var head := u.base + "?" + query;
    JoinWithout(u.pairs, '&', '#');
    SplitOnJoin(u.pairs, '&');
    HeadWithout(u.base, query);
    CutAt(u.base, '?', query);
    if u.fragment.Some? {
      var fragment := u.fragment.value;
      Regroup(u.base, query, fragment);
      CutAt(head, '#', fragment);
      CutAt(query, '#', fragment);
      CutAt(u.base, '?', query + "#" + fragment);
    } else {
      CutAt(head, '#', "");
      CutAt(query, '#', "");
      assert Print(u) == head;
    }
  }

  lemma Regroup(base: string, query: string, fragment: string)
    ensures base + "?" + query + ("#" + fragment) == (base + "?" + query) + "#" + fragment
    ensures base + "?" + query + ("#" + fragment) == base + "?" + (query + "#" + fragment)
  {
  }

  lemma HeadWithout(base: string, query: string)
    requires Without(base, '#') && Without(query, '#')
    ensures Without(base + "?" + query, '#')
  {
  }

  lemma ModePairIs(mode: string)
    ensures var pair := ModePair(mode);
      && Without(pair, '&') && Without(pair, '#')
      && Before(pair, '=') == "sslmode" && After(pair, '=') == Some(QueryEscape(mode))
  {
    hide Before, After, QueryEscape;
    var key := "sslmode";
    assert Without(key, '=') && Without("sslmode=", '&') && Without("sslmode=", '#');
    CutAt(key, '=', QueryEscape(mode));
    assert key + "=" == "sslmode=";
  }

  lemma {:induction false} UnescapePlain(s: string)
    requires Without(s, '%') && Without(s, '+')
    ensures QueryUnescape(s) == Some(s)
  {
    if s != "" {
      UnescapePlain(s[1..]);
      assert [s[0]] + s[1..] == s;
    }
  }

  lemma SSLModeIsNamed()
    ensures NamesSSLMode("sslmode")
  {
    hide QueryUnescape;
    UnescapePlain("sslmode");
  }

  lemma PartsWithout(value: string)
    ensures var u := Parts(value);
      && Without(u.base, '#') && Without(u.base, '?')
      && forall i | 0 <= i < |u.pairs| :: Without(u.pairs[i], '&') && Without(u.pairs[i], '#')
  {
    hide SplitOn;
    var baseAndQuery := Before(value, '#');
    BeforeIsWithout(value, '#');
    BeforeIsWithout(baseAndQuery, '?');
    var query := After(baseAndQuery, '?');
    if query.Some? {
      PiecesWithout(query.value, '&');
      SplitOnWithout(query.value, '&', '#');
    }
  }

  lemma RewrittenIsSeparate(value: string, mode: string)
    ensures Separate(Rewritten(Parts(value), mode))
  {
    hide Dropped, Parts, Without, ModePair;
    var u := Parts(value);
    PartsWithout(value);
    ModePairIs(mode);
    KeptAre(u.pairs);
  }

  /** For every URL: after rewriting, base and fragment are the same, and the query consists of the
      pairs kept, unchanged and in order, and the new mode; the reader, which takes the URL apart in
      another order, sees the same pairs. */
  lemma RewriteKeepsTheRest(value: string, mode: string)
    ensures var after := Print(Rewritten(Parts(value), mode));
      && Parts(after) == Url(Parts(value).base, Kept(Parts(value).pairs) + [ModePair(mode)], Parts(value).fragment)
      && PairsRead(after) == Parts(after).pairs
  {
    hide Kept, SplitOn;
    RewrittenIsSeparate(value, mode);
    PrintedIs(Rewritten(Parts(value), mode));
  }

  /** Reading the mode of a rewritten URL gives the mode written, up to case and outer white space. */
  lemma RewriteReadsBack(value: string, mode: string)
    requires Bytes(mode)
    ensures Mode(Print(Rewritten(Parts(value), mode))) == Some(Lower(Trim(mode)))
  {
    hide Kept, SplitOn, NamesSSLMode, Print, Parts, Before, After;
    RewriteKeepsTheRest(value, mode);
    ModePairIs(mode);
    SSLModeIsNamed();
    EscapeUnescapes(mode);
  }

  lemma {:induction false} KeptAgain(pairs: seq<string>, mode: string)
    ensures Kept(Kept(pairs) + [ModePair(mode)]) == Kept(pairs)
  {
    hide NamesSSLMode, Before, ModePair;
    if pairs == [] {
      ModePairIs(mode);
      SSLModeIsNamed();
    } else {
      KeptAgain(pairs[1..], mode);
      if Kept(pairs) != Kept(pairs[1..]) {
        assert Kept(pairs) == [pairs[0]] + Kept(pairs[1..]);
        assert (Kept(pairs) + [ModePair(mode)])[1..] == Kept(pairs[1..]) + [ModePair(mode)];
      }
    }
  }

  /** Of two rewrites only the last one counts. */
  lemma RewriteTwice(value: string, m: string, n: string)
    ensures var once := Print(Rewritten(Parts(value), m));
      Print(Rewritten(Parts(once), n)) == Print(Rewritten(Parts(value), n))
  {
    hide Kept, Parts, Print;
    RewriteKeepsTheRest(value, m);
    KeptAgain(Parts(value).pairs, m);
  }

  lemma UrlPrefix(value: string)
    ensures IsUrl(value) <==> |value| >= 11 && Lower(value[..11]) == "kingbase://"
    ensures IsUrl(value) ==> Without(value[..|SCHEME|], '#') && Without(value[..|SCHEME|], '?')
  {
    if |value| >= |SCHEME| {
      var prefix := value[..|SCHEME|];
      assert Lower(value)[..|SCHEME|] == Lower(prefix);
      if Lower(prefix) == SCHEME {
        forall i | 0 <= i < |prefix|
          ensures prefix[i] != '#' && prefix[i] != '?'
        {
          assert LowerChar(prefix[i]) == SCHEME[i];
        }
      }
    }
  }

  lemma BeforeKeepsPrefix(s: string, n: nat, c: char)
    requires n <= |s| && Without(s[..n], c)
    ensures |Before(s, c)| >= n && Before(s, c)[..n] == s[..n]
  {
    assert forall i | 0 <= i < n :: s[i] == s[..n][i];
  }

  /** A rewritten URL is still in URL form. */
  lemma RewriteIsUrl(value: string, mode: string)
    requires IsUrl(value)
    ensures IsUrl(Print(Rewritten(Parts(value), mode)))
  {
    hide Kept, SplitOn, Join, Before, After, Without, IsUrl, Lower;
    var n := |SCHEME|;
    UrlPrefix(value);
    BeforeKeepsPrefix(value, n, '#');
    BeforeKeepsPrefix(Before(value, '#'), n, '?');
    var after := Print(Rewritten(Parts(value), mode));
    assert after[..n] == Parts(value).base[..n];
    UrlPrefix(after);
  }
}
