/** The nested rewrite: what it replaces is a list of disjoint select lists of the statement. */
module OracleSplice {
  import opened Text
  import opened SqlLexer
  import opened OracleSelect

  /** In the statement that is the text `[at, until)` the bytes `[lo, hi)` are replaced by `text`. */
  datatype Edit = Edit(at: nat, until: nat, lo: nat, hi: nat, text: string)

  predicate Ordered(edits: seq<Edit>, last: nat, end: nat) {
    if edits == [] then last <= end
    else last <= edits[0].lo <= edits[0].hi && Ordered(edits[1..], edits[0].hi, end)
  }

  /** `s[last..]` with the edits applied; every other byte is kept, in order. */
  function Apply(s: string, last: nat, edits: seq<Edit>): string
    requires Ordered(edits, last, |s|)
    decreases |edits|
  {
    if edits == [] then s[last..]
    else
      OrderedWithin(edits[1..], edits[0].hi, |s|);
      s[last..edits[0].lo] + edits[0].text + Apply(s, edits[0].hi, edits[1..])
  }

  lemma {:induction false} OrderedWithin(edits: seq<Edit>, last: nat, end: nat)
    requires Ordered(edits, last, end)
    ensures last <= end
    ensures forall i | 0 <= i < |edits| :: last <= edits[i].lo <= edits[i].hi <= end
    ensures forall i, j | 0 <= i < j < |edits| :: edits[i].hi <= edits[j].lo
  {
    if edits != [] {
      OrderedWithin(edits[1..], edits[0].hi, end);
      assert forall i | 1 <= i < |edits| :: edits[i] == edits[1..][i - 1];
    }
  }

  function ShiftedEdit(e: Edit, delta: nat): Edit {
    Edit(e.at + delta, e.until + delta, e.lo + delta, e.hi + delta, e.text)
  }

  function Shifted(edits: seq<Edit>, delta: nat): (r: seq<Edit>)
    ensures |r| == |edits|
    ensures forall i | 0 <= i < |edits| :: r[i] == ShiftedEdit(edits[i], delta)
  {
    seq(|edits|, i requires 0 <= i < |edits| => ShiftedEdit(edits[i], delta))
  }

  // ---- which edits ----

  function SelectAfterComments(inner: string): bool {
    StartsWithKeyword(TrimLeadingSQLComments(inner), "select")
  }

  const MAX_DEPTH := 8

  /** The edits of one statement at a nesting depth. Past the depth cap there are none, and a
      statement with an unmatched parenthesis gets none either. The text of a nested call is
      strictly shorter, so this ends whatever the cap. */
  function SelectEdits(s: string, load: Loader, depth: nat): Result<seq<Edit>>
    decreases |s|, |s| + 1
  {
    if depth > MAX_DEPTH then Ok([])
    else
      match RewriteDirect(s, load)
      case Err(e) => Err(e)
      case Ok(direct) =>
        if direct.handled then Ok(if direct.changed then DirectEdit(s, load) else [])
        else
          match NestedEdits(s, load, depth, 0)
          case Err(e) => Err(e)
          case Ok(None) => Ok([])
          case Ok(Some(edits)) => Ok(edits)
  }

  function DirectEdit(s: string, load: Loader): seq<Edit> {
    match ParseSelect(s)
    case None => []
    case Some(p) =>
      match NewItems(s[p.listAt..p.fromAt], p.ref, load)
      case Ok(Some(items)) => [Edit(0, |s|, p.listAt, p.fromAt, Join(items, ", ") + " ")]
      case _ => []
  }

  /** The edits from position `pos` on, a position the scan of the whole text visits; none as soon
      as a parenthesis is unmatched. */
  function NestedEdits(s: string, load: Loader, depth: nat, pos: nat): Result<Option<seq<Edit>>>
    requires pos <= |s|
    decreases |s|, |s| - pos
  {
    if pos == |s| then Ok(Some([]))
    else if At(s, 0, pos).mode != Code || s[pos] != '(' then NestedEdits(s, load, depth, pos + 1)
    else
      var end := MatchingParen(s, pos);
      if end == -1 then Ok(None)
      else
        match InnerEdits(s, load, depth, pos, end)
        case Err(e) => Err(e)
        case Ok(edits) =>
          match NestedEdits(s, load, depth, end + 1)
          case Err(e) => Err(e)
          case Ok(None) => Ok(None)
          case Ok(Some(rest)) => Ok(Some(Shifted(edits, pos + 1) + rest))
  }

  /** The edits of the parenthesis `[open, end]`, as positions inside it. */
  function InnerEdits(s: string, load: Loader, depth: nat, open: nat, end: nat): Result<seq<Edit>>
    requires open < end < |s|
    decreases |s|, 0
  {
    var inner := s[open + 1..end];
    if SelectAfterComments(inner) then SelectEdits(inner, load, depth + 1) else Ok([])
  }

  // ---- where the edits are ----

  /** The text `[at, until)` is a place for a statement: it is the whole text, or the inside of a parenthesis that
      the lexer meets in code, so not of one in a literal or a comment. */
  ghost predicate Place(s: string, at: nat, until: nat) {
    && at <= until <= |s|
    && ((at == 0 && until == |s|)
        || (0 < at && At(s, 0, at - 1).mode == Code && s[at - 1] == '(' && MatchingParen(s, at - 1) == until))
  }

  /** The statement in the place, with the edit applied. */
  function Edited(s: string, e: Edit): string
    requires e.at <= e.lo <= e.hi <= e.until <= |s|
  {
    s[e.at..e.lo] + e.text + s[e.hi..e.until]
  }

  /** The edit replaces the text that the reader of one statement takes for the select list of the
      statement in its place, and is what rewriting that statement on its own does. */
  ghost predicate ReplacesSelectList(s: string, load: Loader, e: Edit) {
    && Place(s, e.at, e.until)
    && e.at <= e.lo <= e.hi <= e.until
    && RewriteDirect(s[e.at..e.until], load) == Ok(Direct(Edited(s, e), true, true))
    && ParseSelect(s[e.at..e.until]).Some?
    && e.lo == e.at + ParseSelect(s[e.at..e.until]).value.listAt
    && e.hi == e.at + ParseSelect(s[e.at..e.until]).value.fromAt
  }

  ghost predicate GoodEdits(s: string, load: Loader, edits: seq<Edit>, from: nat) {
    && Ordered(edits, from, |s|)
    && forall e | e in edits :: ReplacesSelectList(s, load, e)
  }

  lemma {:induction false} OrderedConcat(a: seq<Edit>, b: seq<Edit>, last: nat, mid: nat, end: nat)
    requires Ordered(a, last, mid) && Ordered(b, mid, end) && mid <= end
    ensures Ordered(a + b, last, end)
  {
    if a == [] {
      assert a + b == b;
    } else {
      OrderedConcat(a[1..], b, a[0].hi, mid, end);
      assert (a + b)[1..] == a[1..] + b;
    }
  }

  lemma {:induction false} OrderedShifted(a: seq<Edit>, last: nat, end: nat, delta: nat, from: nat)
    requires Ordered(a, last, end) && from <= last + delta
    ensures Ordered(Shifted(a, delta), from, end + delta)
  {
    if a != [] {
      OrderedShifted(a[1..], a[0].hi, end, delta, a[0].hi + delta);
      assert Shifted(a, delta)[1..] == Shifted(a[1..], delta);
    }
  }

  lemma WidenOrdered(edits: seq<Edit>, last: nat, from: nat, end: nat)
    requires Ordered(edits, last, end) && from <= last
    ensures Ordered(edits, from, end)
  {
    OrderedWithin(edits, last, end);
  }

  /** The inside of a parenthesis is scanned as the text around it is. */
  lemma ScanInside(s: string, open: nat, q: nat, p: nat)
    requires open < |s| && s[open] == '(' && At(s, 0, open).mode == Code && MatchingParen(s, open) != -1
    requires var inner := s[open + 1..MatchingParen(s, open)]; q <= p < |inner|
    ensures var inner := s[open + 1..MatchingParen(s, open)];
      && At(inner, 0, p).mode == At(s, 0, open + 1 + p).mode
      && At(inner, q, p) == At(s, open + 1 + q, open + 1 + p)
  {
    hide StepMode, StepDepth, MatchingParen;
    var a, end := open + 1, MatchingParen(s, open);
    assert At(s, 0, a).mode == Code by {
      AfterOpen(s, 0, open);
    }
    RestartMode(s, 0, a, a + p);
    Cut(s, a, end, a + p);
    Shift(s[..end], a, a, a + p);
    Cut(s, a + q, end, a + p);
    Shift(s[..end], a, a + q, a + p);
    assert s[..end][a..] == s[a..end];
  }

  lemma AfterOpen(s: string, a: nat, open: nat)
    requires a <= open < |s| && s[open] == '(' && At(s, a, open).mode == Code
    ensures At(s, a, open + 1).mode == Code
  {
  }

  lemma MatchInside(s: string, open: nat, q: nat)
    requires open < |s| && s[open] == '(' && At(s, 0, open).mode == Code && MatchingParen(s, open) != -1
    requires var inner := s[open + 1..MatchingParen(s, open)];
      q < |inner| && inner[q] == '(' && MatchingParen(inner, q) != -1
    ensures var inner := s[open + 1..MatchingParen(s, open)];
      MatchingParen(s, open + 1 + q) == open + 1 + MatchingParen(inner, q)
  {
    hide At;
    var a, end := open + 1, MatchingParen(s, open);
    var inner := s[a..end];
    var r := MatchingParen(inner, q);
    forall p | q <= p < |inner| ensures CloseHit(inner, q, p) == CloseHit(s, a + q, a + p) {
      ScanInside(s, open, q, p);
    }
    var inOuter := a + q;
    forall p | inOuter <= p < a + r ensures !CloseHit(s, inOuter, p) {
      assert !CloseHit(inner, q, p - a);
      assert CloseHit(inner, q, p - a) == CloseHit(s, a + q, a + (p - a));
    }
    FirstCloseIs(s, inOuter, inOuter, a + r);
  }

  /** A place inside a parenthesis is a place of the whole text. */
  lemma PlaceInside(s: string, open: nat, at: nat, until: nat)
    requires open < |s| && s[open] == '(' && At(s, 0, open).mode == Code && MatchingParen(s, open) != -1
    requires Place(s[open + 1..MatchingParen(s, open)], at, until)
    ensures Place(s, open + 1 + at, open + 1 + until)
  {
    hide At, MatchingParen;
    var inner := s[open + 1..MatchingParen(s, open)];
    if 0 < at {
      ScanInside(s, open, at - 1, at - 1);
      MatchInside(s, open, at - 1);
    } else {
      assert until == |inner|;
    }
  }

  lemma ReplacesShifted(s: string, load: Loader, edits: seq<Edit>, open: nat)
    requires open < |s| && s[open] == '(' && At(s, 0, open).mode == Code && MatchingParen(s, open) != -1
    requires forall e | e in edits :: ReplacesSelectList(s[open + 1..MatchingParen(s, open)], load, e)
    ensures forall e | e in Shifted(edits, open + 1) :: ReplacesSelectList(s, load, e)
  {
    hide ReplacesSelectList, MatchingParen, At;
    forall e | e in Shifted(edits, open + 1) ensures ReplacesSelectList(s, load, e) {
      var i :| 0 <= i < |edits| && e == Shifted(edits, open + 1)[i];
      assert edits[i] in edits;
      ReplacesInside(s, load, edits[i], open);
    }
  }

  lemma ReplacesInside(s: string, load: Loader, f: Edit, open: nat)
    requires open < |s| && s[open] == '(' && At(s, 0, open).mode == Code && MatchingParen(s, open) != -1
    requires ReplacesSelectList(s[open + 1..MatchingParen(s, open)], load, f)
    ensures ReplacesSelectList(s, load, ShiftedEdit(f, open + 1))
  {
    hide ParseSelect, Place, MatchingParen, At, RewriteDirect;
    var end := MatchingParen(s, open);
    var inner := s[open + 1..end];
    PlaceBounds(inner, f.at, f.until);
    PlaceInside(s, open, f.at, f.until);
    SliceOfSlice(s, open + 1, end, f.at, f.until);
    SliceOfSlice(s, open + 1, end, f.at, f.lo);
    SliceOfSlice(s, open + 1, end, f.hi, f.until);
  }

  lemma PlaceBounds(s: string, at: nat, until: nat)
    requires Place(s, at, until)
    ensures at <= until <= |s|
  {
  }

  lemma DirectEditIs(s: string, load: Loader)
    requires RewriteDirect(s, load).Ok? && RewriteDirect(s, load).value.changed
    ensures |DirectEdit(s, load)| == 1 && GoodEdits(s, load, DirectEdit(s, load), 0)
    ensures RewriteDirect(s, load).value.text == Apply(s, 0, DirectEdit(s, load))
  {
    hide ParseSelect, NewItems;
    var p := ParseSelect(s).value;
    var e := DirectEdit(s, load)[0];
    assert DirectEdit(s, load) == [e] && [e][1..] == [];
    assert s[0..|s|] == s;
    assert Place(s, 0, |s|);
    assert Ordered([e][1..], e.hi, |s|);
    forall f | f in DirectEdit(s, load) ensures ReplacesSelectList(s, load, f) {
      assert f == e;
      assert Edited(s, e) == RewriteDirect(s, load).value.text by {
        assert s[0..p.listAt] == s[..p.listAt] && s[p.fromAt..|s|] == s[p.fromAt..];
      }
    }
    assert s[0..p.listAt] == s[..p.listAt];
    assert s[..p.listAt] + (Join(NewItems(s[p.listAt..p.fromAt], p.ref, load).value.value, ", ") + " ") + s[p.fromAt..]
        == RewriteDirect(s, load).value.text;
  }

  /** Splice safety, first half: the edits lie in the text in order, do not overlap, and each one
      replaces what is read as the select list of the text or of a parenthesis in its code. */
  lemma {:induction false} EditsReplaceLists(s: string, load: Loader, depth: nat)
    requires SelectEdits(s, load, depth).Ok?
    ensures GoodEdits(s, load, SelectEdits(s, load, depth).value, 0)
    decreases |s|, |s| + 1
  {
    hide RewriteDirect, DirectEdit, ReplacesSelectList;
    if depth <= MAX_DEPTH {
      var direct := RewriteDirect(s, load).value;
      if direct.handled {
        if direct.changed {
          DirectEditIs(s, load);
        }
      } else if NestedEdits(s, load, depth, 0).value.Some? {
        NestedAreSelectLists(s, load, depth, 0);
      }
    }
  }

  lemma {:induction false} NestedAreSelectLists(s: string, load: Loader, depth: nat, pos: nat)
    requires pos <= |s| && NestedEdits(s, load, depth, pos).Ok? && NestedEdits(s, load, depth, pos).value.Some?
    ensures GoodEdits(s, load, NestedEdits(s, load, depth, pos).value.value, pos)
    decreases |s|, |s| - pos
  {
    hide SelectEdits, SelectAfterComments, ReplacesSelectList, At, MatchingParen;
    if pos < |s| {
      if At(s, 0, pos).mode != Code || s[pos] != '(' {
        NestedAreSelectLists(s, load, depth, pos + 1);
        WidenOrdered(NestedEdits(s, load, depth, pos + 1).value.value, pos + 1, pos, |s|);
      } else {
        var end := MatchingParen(s, pos);
        var edits := InnerEdits(s, load, depth, pos, end).value;
        InnerAreSelectLists(s, load, depth, pos, end);
        var rest := NestedEdits(s, load, depth, end + 1).value.value;
        NestedAreSelectLists(s, load, depth, end + 1);
        WidenOrdered(rest, end + 1, end, |s|);
        OrderedShifted(edits, 0, end - pos - 1, pos + 1, pos);
        OrderedConcat(Shifted(edits, pos + 1), rest, pos, end, |s|);
        ReplacesShifted(s, load, edits, pos);
      }
    }
  }

  lemma {:induction false} InnerAreSelectLists(s: string, load: Loader, depth: nat, open: nat, end: nat)
    requires open < end < |s| && InnerEdits(s, load, depth, open, end).Ok?
    ensures GoodEdits(s[open + 1..end], load, InnerEdits(s, load, depth, open, end).value, 0)
    decreases |s|, 0
  {
    hide SelectEdits, SelectAfterComments;
    if SelectAfterComments(s[open + 1..end]) {
      EditsReplaceLists(s[open + 1..end], load, depth + 1);
    }
  }

  // ---- the rewrite applies exactly these edits ----

  /** Applying the edits of a parenthesis and then the rest is writing the text before it, the
      edited inside, and the rest. */
  lemma {:induction false} ApplyInner(s: string, last: nat, open: nat, end: nat, edits: seq<Edit>, from: nat,
      rest: seq<Edit>)
    requires last <= open + 1 + from <= end < |s|
    requires Ordered(edits, from, end - open - 1) && Ordered(rest, end, |s|)
    ensures Ordered(Shifted(edits, open + 1) + rest, last, |s|)
    ensures Apply(s, last, Shifted(edits, open + 1) + rest)
         == s[last..open + 1 + from] + Apply(s[open + 1..end], from, edits) + Apply(s, end, rest)
    decreases |edits|
  {
    hide Shifted, Apply;
    if edits == [] {
      assert Shifted(edits, open + 1) + rest == rest;
      ApplyInnerNone(s, last, open, end, edits, from, rest);
    } else {
      var hi := edits[0].hi;
      assert hi <= end - open - 1 by {
        OrderedWithin(edits[1..], hi, end - open - 1);
      }
      ApplyInner(s, hi + open + 1, open, end, edits[1..], hi, rest);
      ShiftedCons(edits, open + 1, rest);
      ApplyInnerCons(s, last, open, end, edits, from, Shifted(edits[1..], open + 1) + rest, Apply(s, end, rest));
    }
  }

  lemma ApplyInnerNone(s: string, last: nat, open: nat, end: nat, edits: seq<Edit>, from: nat, rest: seq<Edit>)
    requires last <= open + 1 + from <= end < |s| && Ordered(rest, end, |s|) && edits == []
    ensures Ordered(rest, last, |s|)
    ensures Apply(s, last, rest)
         == s[last..open + 1 + from] + Apply(s[open + 1..end], from, edits) + Apply(s, end, rest)
  {
    ApplyFrom(s, last, end, rest);
    assert s[last..open + 1 + from] + s[open + 1..end][from..] == s[last..end];
  }

  lemma ShiftedCons(edits: seq<Edit>, delta: nat, rest: seq<Edit>)
    requires edits != []
    ensures Shifted(edits, delta) + rest
         == [ShiftedEdit(edits[0], delta)] + (Shifted(edits[1..], delta) + rest)
  {
  }

  lemma ApplyInnerCons(s: string, last: nat, open: nat, end: nat, edits: seq<Edit>, from: nat, more: seq<Edit>,
      after: string)
    requires edits != [] && last <= open + 1 + from && open < end < |s|
    requires Ordered(edits, from, end - open - 1) && edits[0].hi <= end - open - 1
    requires Ordered(more, edits[0].hi + open + 1, |s|)
    requires var hi := edits[0].hi;
      Apply(s, hi + open + 1, more) == s[hi + open + 1..open + 1 + hi] + Apply(s[open + 1..end], hi, edits[1..]) + after
    ensures var all := [ShiftedEdit(edits[0], open + 1)] + more;
      && Ordered(all, last, |s|)
      && Apply(s, last, all) == s[last..open + 1 + from] + Apply(s[open + 1..end], from, edits) + after
  {
    hide Apply;
    var lo, hi := edits[0].lo, edits[0].hi;
    ApplyUnfold(s, last, ShiftedEdit(edits[0], open + 1), more);
    ApplyUnfold(s[open + 1..end], from, edits[0], edits[1..]);
    assert [edits[0]] + edits[1..] == edits;
    var inside := Apply(s[open + 1..end], hi, edits[1..]);
    var before, kept := s[last..open + 1 + from], s[open + 1..end][from..lo];
    assert s[last..lo + open + 1] == before + kept by {
      SliceOfSlice(s, open + 1, end, from, lo);
    }
    RegroupEdit(before, kept, edits[0].text, inside, after);
    assert s[hi + open + 1..open + 1 + hi] == "";
  }

  lemma ApplyUnfold(s: string, last: nat, e: Edit, more: seq<Edit>)
    requires last <= e.lo <= e.hi && Ordered(more, e.hi, |s|)
    ensures e.hi <= |s| && Ordered([e] + more, last, |s|)
    ensures Apply(s, last, [e] + more) == s[last..e.lo] + e.text + Apply(s, e.hi, more)
  {
    OrderedWithin(more, e.hi, |s|);
    assert ([e] + more)[1..] == more;
  }

  lemma RegroupEdit(before: string, kept: string, text: string, inside: string, after: string)
    ensures (before + kept) + text + ("" + inside + after) == before + (kept + text + inside) + after
  {
  }

  /** Text before the first edit is copied. */
  lemma ApplyFrom(s: string, last: nat, mid: nat, edits: seq<Edit>)
    requires last <= mid <= |s| && Ordered(edits, mid, |s|)
    ensures Ordered(edits, last, |s|)
    ensures Apply(s, last, edits) == s[last..mid] + Apply(s, mid, edits)
  {
    hide Apply;
    if edits == [] {
      ApplyNone(s, last);
      ApplyNone(s, mid);
      assert s[last..] == s[last..mid] + s[mid..];
    } else {
      var e, more := edits[0], edits[1..];
      assert [e] + more == edits;
      ApplyUnfold(s, last, e, more);
      ApplyUnfold(s, mid, e, more);
      assert s[last..e.lo] == s[last..mid] + s[mid..e.lo];
      RegroupFrom(s[last..mid], s[mid..e.lo], e.text, Apply(s, e.hi, more));
    }
  }

  lemma ApplyNone(s: string, last: nat)
    requires last <= |s|
    ensures Apply(s, last, []) == s[last..]
  {
  }

  lemma RegroupFrom(before: string, kept: string, text: string, after: string)
    ensures (before + kept) + text + after == before + (kept + text + after)
  {
  }

  /** A rewritten text and whether it differs from the one given. */
  datatype Rewrite = Rewrite(text: string, changed: bool)

  ghost predicate IsEditOf(r: Result<Rewrite>, s: string, edits: Result<seq<Edit>>) {
    match (r, edits)
    case (Err(e), Err(f)) => e == f
    case (Ok(rewrite), Ok(list)) =>
      && Ordered(list, 0, |s|)
      && rewrite.text == Apply(s, 0, list)
      && rewrite.changed == (list != [])
    case _ => false
  }

  ghost function NestedResult(edits: Result<Option<seq<Edit>>>): Result<seq<Edit>> {
    match edits
    case Err(e) => Err(e)
    case Ok(None) => Ok([])
    case Ok(Some(list)) => Ok(list)
  }

  method RewriteSelectDepth(sqlText: string, load: Loader, depth: nat) returns (r: Result<Rewrite>)
    ensures IsEditOf(r, sqlText, SelectEdits(sqlText, load, depth))
    decreases |sqlText|, 1
  {
    hide RewriteDirect, DirectEdit, GoodEdits, NestedEdits;
    assert Apply(sqlText, 0, []) == sqlText;
    if depth > MAX_DEPTH {
      return Ok(Rewrite(sqlText, false));
    }
    var direct := RewriteDirect(sqlText, load);
    if direct.Err? {
      return Err(direct.error);
    }
    if direct.value.handled {
      DirectIsEdit(sqlText, load);
      return Ok(Rewrite(direct.value.text, direct.value.changed));
    }
    r := RewriteNestedSelects(sqlText, load, depth);
  }

  lemma DirectIsEdit(s: string, load: Loader)
    requires RewriteDirect(s, load).Ok? && RewriteDirect(s, load).value.handled
    ensures var direct := RewriteDirect(s, load).value;
      IsEditOf(Ok(Rewrite(direct.text, direct.changed)), s, Ok(if direct.changed then DirectEdit(s, load) else []))
  {
    hide ParseSelect, NewItems, DirectEdit;
    if RewriteDirect(s, load).value.changed {
      DirectEditIs(s, load);
    } else {
      assert Apply(s, 0, []) == s;
    }
  }

  /** What the loop still has to do, when it stands at `pos` with `builder` written up to `last`:
      the edits it has not met yet give the rest of the result. */
  ghost predicate Continues(s: string, all: Result<Option<seq<Edit>>>, todo: Result<Option<seq<Edit>>>,
                            builder: string, changed: bool, last: nat)
    requires last <= |s|
  {
    match (all, todo)
    case (Err(e), Err(f)) => e == f
    case (Ok(None), Ok(None)) => true
    case (Ok(Some(edits)), Ok(Some(rest))) =>
      && Ordered(edits, 0, |s|) && Ordered(rest, last, |s|)
      && Apply(s, 0, edits) == builder + Apply(s, last, rest)
      && (edits != []) == (changed || rest != [])
    case _ => false
  }

  /** Positions that do not open a parenthesis in code add no edit. */
  lemma {:induction false} NestedSkip(s: string, load: Loader, depth: nat, pos: nat, to: nat)
    requires pos <= to <= |s|
    requires forall q | pos <= q < to :: !(At(s, 0, q).mode == Code && s[q] == '(')
    ensures NestedEdits(s, load, depth, pos) == NestedEdits(s, load, depth, to)
    decreases |s| - pos
  {
    hide At, SelectEdits, InnerEdits;
    if pos < to {
      NestedSkip(s, load, depth, pos + 1, to);
    }
  }

  lemma SkipLexemeNested(s: string, load: Loader, depth: nat, pos: nat, end: nat)
    requires pos <= end < |s| && IsLexeme(s, pos, end) && At(s, 0, pos).mode == Code && s[pos] != '('
    ensures NestedEdits(s, load, depth, pos) == NestedEdits(s, load, depth, end + 1)
    ensures end + 1 < |s| ==> At(s, 0, end + 1).mode == Code
  {
    hide NestedEdits;
    AfterLexeme(s, 0, pos, end, StepDepth(At(s, 0, pos), s[pos]));
    forall q | pos <= q < end + 1 ensures !(At(s, 0, q).mode == Code && s[q] == '(') {
      if q > pos {
        LexemeInScan(s, 0, pos, end, q);
      }
    }
    NestedSkip(s, load, depth, pos, end + 1);
  }

  lemma Regroup(a: string, b: string, c: string, d: string)
    ensures a + (b + c + d) == (a + b + c) + d
  {
  }

  lemma ContinuesInner(s: string, load: Loader, depth: nat, pos: nat, all: Result<Option<seq<Edit>>>,
                       builder: string, changed: bool, last: nat)
    requires last <= pos < |s| && At(s, 0, pos).mode == Code && s[pos] == '(' && MatchingParen(s, pos) != -1
    requires Continues(s, all, NestedEdits(s, load, depth, pos), builder, changed, last)
    requires InnerEdits(s, load, depth, pos, MatchingParen(s, pos)).Ok?
    ensures var end := MatchingParen(s, pos);
      var edits := InnerEdits(s, load, depth, pos, end).value;
      var todo := NestedEdits(s, load, depth, end + 1);
      && Ordered(edits, 0, end - pos - 1)
      && if edits == [] then Continues(s, all, todo, builder, changed, last)
         else Continues(s, all, todo, builder + s[last..pos + 1] + Apply(s[pos + 1..end], 0, edits), true, end)
  {
    hide At, SelectEdits, MatchingParen, ReplacesSelectList, InnerEdits, Apply;
    var end := MatchingParen(s, pos);
    var edits := InnerEdits(s, load, depth, pos, end).value;
    InnerAreSelectLists(s, load, depth, pos, end);
    var todo := NestedEdits(s, load, depth, end + 1);
    if todo.Ok? && todo.value.Some? {
      var rest := todo.value.value;
      NestedAreSelectLists(s, load, depth, end + 1);
      WidenOrdered(rest, end + 1, end, |s|);
      WidenOrdered(rest, end + 1, last, |s|);
      if edits == [] {
        assert Shifted(edits, pos + 1) + rest == rest;
      } else {
        ApplyInner(s, last, pos, end, edits, 0, rest);
        Regroup(builder, s[last..pos + 1], Apply(s[pos + 1..end], 0, edits), Apply(s, end, rest));
      }
    }
  }

  method RewriteNestedSelects(sqlText: string, load: Loader, depth: nat) returns (r: Result<Rewrite>)
    ensures IsEditOf(r, sqlText, NestedResult(NestedEdits(sqlText, load, depth, 0)))
    decreases |sqlText|, 0
  {
    hide SelectEdits, At, MatchingParen, StartsWithKeyword, TrimLeadingSQLComments, GoodEdits;
    var builder := "";
    var changed := false;
    var last := 0;
    var pos := 0;
    ghost var all := NestedEdits(sqlText, load, depth, 0);
    Begins(sqlText, load, depth);
    while pos < |sqlText|
      invariant last <= pos <= |sqlText|
      invariant pos < |sqlText| ==> At(sqlText, 0, pos).mode == Code
      invariant !changed ==> builder == "" && last == 0
      invariant Continues(sqlText, all, NestedEdits(sqlText, load, depth, pos), builder, changed, last)
    {
      if sqlText[pos] == '(' {
        var end := FindMatchingSQLParen(sqlText, pos);
        if end < 0 {
          assert Apply(sqlText, 0, []) == sqlText;
          return Ok(Rewrite(sqlText, false));
        }
        var inner := sqlText[pos + 1..end];
        var comments := TrimLeadingComments(inner);
        if StartsWithKeyword(comments, "select") {
          var nested := RewriteSelectDepth(inner, load, depth + 1);
          if nested.Err? {
            return Err(nested.error);
          }
          ContinuesInner(sqlText, load, depth, pos, all, builder, changed, last);
          if nested.value.changed {
            builder := builder + sqlText[last..pos + 1] + nested.value.text;
            last := end;
            changed := true;
          }
        } else {
          ContinuesInner(sqlText, load, depth, pos, all, builder, changed, last);
        }
        MatchRestoresDepth(sqlText, 0, pos);
        pos := end + 1;
      } else {
        var end := SkipLexeme(sqlText, pos);
        SkipLexemeNested(sqlText, load, depth, pos, end);
        pos := end + 1;
      }
    }
    if !changed {
      assert sqlText[0..] == sqlText;
      return Ok(Rewrite(sqlText, false));
    }
    return Ok(Rewrite(builder + sqlText[last..], true));
  }

  lemma Begins(s: string, load: Loader, depth: nat)
    ensures Continues(s, NestedEdits(s, load, depth, 0), NestedEdits(s, load, depth, 0), "", false, 0)
    ensures At(s, 0, 0).mode == Code
  {
    hide SelectEdits, NestedEdits;
    var edits := NestedEdits(s, load, depth, 0);
    if edits.Ok? && edits.value.Some? {
      NestedAreSelectLists(s, load, depth, 0);
    }
  }

  /** Splice safety, second half: an unchanged statement is returned as it was given. */
  lemma UnchangedIsIdentical(r: Result<Rewrite>, s: string, load: Loader, depth: nat)
    requires IsEditOf(r, s, SelectEdits(s, load, depth)) && r.Ok? && !r.value.changed
    ensures r.value.text == s
  {
    assert s[0..] == s;
  }
}
