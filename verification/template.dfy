/**
 * Placeholder tokens in spreadsheet cells, as both versions of the filler find them:
 * `{{name}}` where the name is a non-empty run of allowed characters, found left to right
 * without overlap (`re.finditer` / `re.findall` with a lazy name group; since no allowed
 * character is `}`, the lazy group ends at the first character outside the set).
 * Also the left-to-right rebuild of a text in which some of the tokens found are replaced.
 */
module Template {

  import opened Wrappers
  import opened Text

  /** The name characters: `[A-Z0-9_]` now, `[A-Z0-9_ ./\-%()]` in the older version. */
  datatype Charset = Current | Legacy

  predicate InName(cs: Charset, c: char) {
    || IsUpper(c) || IsDigit(c) || c == '_'
    || (cs == Legacy && (c == ' ' || c == '.' || c == '/' || c == '-' || c == '%' || c == '(' || c == ')'))
  }

  /** `{{name}}` with a non-empty name of allowed characters. */
  predicate IsToken(cs: Charset, t: string) {
    && |t| >= 5
    && t[0] == '{' && t[1] == '{' && t[|t| - 2] == '}' && t[|t| - 1] == '}'
    && forall k :: 2 <= k < |t| - 2 ==> InName(cs, t[k])
  }

  /** Length of the run of name characters at position `i`. */
  function NameRun(cs: Charset, s: string, i: nat): (n: nat)
    requires i <= |s|
    ensures i + n <= |s|
    ensures forall k :: i <= k < i + n ==> InName(cs, s[k])
    ensures i + n < |s| ==> !InName(cs, s[i + n])
    decreases |s| - i
  {
    if i < |s| && InName(cs, s[i]) then 1 + NameRun(cs, s, i + 1) else 0
  }

  /** Where the token starting at `i` ends, if a token starts there. */
  function TokenEnd(cs: Charset, s: string, i: nat): (r: Option<nat>)
    requires i <= |s|
    ensures r.Some? ==> i + 5 <= r.value <= |s| && IsToken(cs, s[i..r.value])
  {
    if i + 2 <= |s| && s[i] == '{' && s[i + 1] == '{' then
      var n := NameRun(cs, s, i + 2);
      if n > 0 && i + n + 4 <= |s| && s[i + 2 + n] == '}' && s[i + 3 + n] == '}' then
        var t := s[i..i + n + 4];
        assert forall k :: 2 <= k < n + 2 ==> t[k] == s[i + k];
        Some(i + n + 4)
      else None
    else None
  }

  /** Every token that starts at `i` is the one `TokenEnd` finds: a name cannot contain `}`. */
  lemma TokenEndComplete(cs: Charset, s: string, i: nat, j: nat)
    requires i <= j <= |s| && IsToken(cs, s[i..j])
    ensures TokenEnd(cs, s, i) == Some(j)
  {
    var t := s[i..j];
    assert s[i] == t[0] && s[i + 1] == t[1];
    var n := NameRun(cs, s, i + 2);
    forall k | i + 2 <= k < j - 2
      ensures InName(cs, s[k])
    {
      assert s[k] == t[k - i];
    }
    if i + 2 + n < j - 2 {
      assert false;
    }
    assert s[j - 2] == t[|t| - 2];
    if i + 2 + n > j - 2 {
      assert false;
    }
    assert s[j - 2] == t[|t| - 2] && s[j - 1] == t[|t| - 1];
  }

  datatype Span = Span(start: nat, end: nat)

  /** The tokens found from position `i` on, left to right, each search resuming after the last token. */
  function ScanFrom(cs: Charset, s: string, i: nat): seq<Span>
    requires i <= |s|
    decreases |s| - i
  {
    if i == |s| then []
    else match TokenEnd(cs, s, i)
      case Some(e) => [Span(i, e)] + ScanFrom(cs, s, e)
      case None => ScanFrom(cs, s, i + 1)
  }

  function Scan(cs: Charset, s: string): seq<Span> {
    ScanFrom(cs, s, 0)
  }

  /** Spans from `pos` on, in order, without overlap and inside `s`. */
  predicate Placed(s: string, spans: seq<Span>, pos: nat) {
    && pos <= |s|
    && (forall k :: 0 <= k < |spans| ==> spans[k].start <= spans[k].end <= |s|)
    && (spans != [] ==> pos <= spans[0].start)
    && (forall k :: 0 <= k < |spans| - 1 ==> spans[k].end <= spans[k + 1].start)
  }

  /** Some span covers position `p`. */
  predicate Covers(spans: seq<Span>, p: nat) {
    exists k :: 0 <= k < |spans| && spans[k].start <= p < spans[k].end
  }

  /**
   * What the scan finds: tokens, in order and without overlap, and no token starts at a
   * position that no found token covers.
   */
  lemma {:induction false} ScanFromSpec(cs: Charset, s: string, i: nat)
    requires i <= |s|
    ensures var spans := ScanFrom(cs, s, i);
      && Placed(s, spans, i)
      && (forall k :: 0 <= k < |spans| ==> TokenEnd(cs, s, spans[k].start) == Some(spans[k].end))
    decreases |s| - i
  {
    if i < |s| {
      var r := TokenEnd(cs, s, i);
      ScanFromStep(cs, s, i);
      if r.Some? {
        ScanFromSpec(cs, s, r.value);
        var rest := ScanFrom(cs, s, r.value);
        assert forall k :: 0 < k < |rest| + 1 ==> ScanFrom(cs, s, i)[k] == rest[k - 1];
      } else {
        ScanFromSpec(cs, s, i + 1);
      }
    }
  }

  /** The found token that covers position `p`, where a token starts. */
  lemma {:induction false} ScanFromMisses(cs: Charset, s: string, i: nat, p: nat) returns (k: nat)
    requires i <= p < |s| && TokenEnd(cs, s, p).Some?
    ensures k < |ScanFrom(cs, s, i)| && ScanFrom(cs, s, i)[k].start <= p < ScanFrom(cs, s, i)[k].end
    decreases |s| - i
  {
    var r := TokenEnd(cs, s, i);
    ScanFromStep(cs, s, i);
    if r.Some? {
      var rest := ScanFrom(cs, s, r.value);
      if p < r.value {
        k := 0;
      } else {
        var j := ScanFromMisses(cs, s, r.value, p);
        assert ScanFrom(cs, s, i)[j + 1] == rest[j];
        k := j + 1;
      }
    } else {
      assert p != i;
      k := ScanFromMisses(cs, s, i + 1, p);
    }
  }

  lemma ScanFromStep(cs: Charset, s: string, i: nat)
    requires i < |s|
    ensures TokenEnd(cs, s, i).Some? ==>
      (i < TokenEnd(cs, s, i).value <= |s|
       && ScanFrom(cs, s, i) == [Span(i, TokenEnd(cs, s, i).value)] + ScanFrom(cs, s, TokenEnd(cs, s, i).value))
    ensures TokenEnd(cs, s, i).None? ==> ScanFrom(cs, s, i) == ScanFrom(cs, s, i + 1)
  {
  }

  /** `re.finditer` over the whole text: tokens in order, and no token left out. */
  lemma ScanSpec(cs: Charset, s: string, p: nat)
    ensures Placed(s, Scan(cs, s), 0)
    ensures forall k :: 0 <= k < |Scan(cs, s)| ==> IsToken(cs, s[Scan(cs, s)[k].start..Scan(cs, s)[k].end])
    ensures p < |s| && TokenEnd(cs, s, p).Some? ==> Covers(Scan(cs, s), p)
  {
    ScanFromSpec(cs, s, 0);
    if p < |s| && TokenEnd(cs, s, p).Some? {
      var k := ScanFromMisses(cs, s, 0, p);
    }
  }

  /** The cell is exactly one token (`is_single_full_match`) exactly when the whole text is a token. */
  lemma WholeToken(cs: Charset, s: string)
    ensures (|Scan(cs, s)| == 1 && Scan(cs, s)[0] == Span(0, |s|)) <==> IsToken(cs, s)
  {
    if IsToken(cs, s) {
      assert s[0..|s|] == s;
      TokenEndComplete(cs, s, 0, |s|);
      assert Scan(cs, s) == [Span(0, |s|)] + ScanFrom(cs, s, |s|);
    }
    if |Scan(cs, s)| == 1 && Scan(cs, s)[0] == Span(0, |s|) {
      ScanFromSpec(cs, s, 0);
      assert s[0..|s|] == s;
    }
  }

  /** A text without `{{` has no token. */
  lemma {:induction false} NoBraces(cs: Charset, s: string, i: nat)
    requires i <= |s| && forall k :: i <= k < |s| - 1 ==> !(s[k] == '{' && s[k + 1] == '{')
    ensures ScanFrom(cs, s, i) == []
    decreases |s| - i
  {
    if i < |s| {
      NoBraces(cs, s, i + 1);
    }
  }

  /** The text that stands for a span: the replacement, or the token itself when there is none. */
  function Piece(s: string, sp: Span, rep: Option<string>): string
    requires sp.start <= sp.end <= |s|
  {
    match rep
    case Some(t) => t
    case None => s[sp.start..sp.end]
  }

  lemma PlacedTail(s: string, spans: seq<Span>, pos: nat)
    requires Placed(s, spans, pos) && spans != []
    ensures Placed(s, spans[1..], spans[0].end)
  {
  }

  /**
   * The left-to-right rebuild from `pos`: the text between spans kept, each span replaced by
   * its piece, and nothing inserted looked at again.
   */
  function Rebuild(s: string, spans: seq<Span>, reps: seq<Option<string>>, pos: nat): string
    requires Placed(s, spans, pos) && |reps| == |spans|
    decreases |spans|
  {
    if spans == [] then s[pos..]
    else
      PlacedTail(s, spans, pos);
      s[pos..spans[0].start] + Piece(s, spans[0], reps[0]) + Rebuild(s, spans[1..], reps[1..], spans[0].end)
  }

  /** Starting the rebuild later only drops the untouched text in between. */
  lemma RebuildShift(s: string, spans: seq<Span>, reps: seq<Option<string>>, pos: nat, pos': nat)
    requires Placed(s, spans, pos) && |reps| == |spans| && pos <= pos'
    requires if spans == [] then pos' <= |s| else pos' <= spans[0].start
    ensures Placed(s, spans, pos')
    ensures Rebuild(s, spans, reps, pos) == s[pos..pos'] + Rebuild(s, spans, reps, pos')
  {
    if spans == [] {
      SliceSplit(s, pos, pos');
    } else {
      var st := spans[0].start;
      RebuildUnfold(s, spans, reps, pos);
      RebuildUnfold(s, spans, reps, pos');
      var tail := Piece(s, spans[0], reps[0]) + Rebuild(s, spans[1..], reps[1..], spans[0].end);
      SliceSplit3(s, pos, pos', st);
      AppendAssoc(s[pos..pos'], s[pos'..st], tail);
    }
  }

  lemma SliceSplit(s: string, a: nat, b: nat)
    requires a <= b <= |s|
    ensures s[a..] == s[a..b] + s[b..]
  {
  }

  lemma SliceSplit3(s: string, a: nat, b: nat, c: nat)
    requires a <= b <= c <= |s|
    ensures s[a..c] == s[a..b] + s[b..c]
  {
  }

  /** One step of the rebuild, for a non-empty list of spans. */
  lemma RebuildUnfold(s: string, spans: seq<Span>, reps: seq<Option<string>>, pos: nat)
    requires Placed(s, spans, pos) && |reps| == |spans| && spans != []
    ensures Placed(s, spans[1..], spans[0].end)
    ensures Rebuild(s, spans, reps, pos)
      == s[pos..spans[0].start] + (Piece(s, spans[0], reps[0]) + Rebuild(s, spans[1..], reps[1..], spans[0].end))
  {
    PlacedTail(s, spans, pos);
  }

  /** The rebuild from the first span: its piece, the text up to `lo`, and the rest from `lo`. */
  lemma RebuildCons(s: string, sps: seq<Span>, rs: seq<Option<string>>, lo: nat)
    requires sps != [] && Placed(s, sps, sps[0].start) && |rs| == |sps|
    requires sps[0].end <= lo <= |s| && (|sps| > 1 ==> lo <= sps[1].start)
    ensures Placed(s, sps[1..], lo)
    ensures Rebuild(s, sps, rs, sps[0].start)
      == Piece(s, sps[0], rs[0]) + (s[sps[0].end..lo] + Rebuild(s, sps[1..], rs[1..], lo))
  {
    RebuildUnfold(s, sps, rs, sps[0].start);
    RebuildShift(s, sps[1..], rs[1..], sps[0].end, lo);
    assert s[sps[0].start..sps[0].start] == [];
  }

  /** With nothing to replace, the rebuild is the text itself. */
  lemma {:induction false} RebuildKeeps(s: string, spans: seq<Span>, reps: seq<Option<string>>, pos: nat)
    requires Placed(s, spans, pos) && |reps| == |spans|
    requires forall k :: 0 <= k < |reps| ==> reps[k].None?
    ensures Rebuild(s, spans, reps, pos) == s[pos..]
    decreases |spans|
  {
    if spans != [] {
      PlacedTail(s, spans, pos);
      RebuildKeeps(s, spans[1..], reps[1..], spans[0].end);
      assert s[pos..] == s[pos..spans[0].start] + s[spans[0].start..spans[0].end] + s[spans[0].end..];
    }
  }

  /** Number of spans that get a replacement. */
  function CountSome(reps: seq<Option<string>>): (n: nat)
    ensures n <= |reps|
  {
    if reps == [] then 0 else (if reps[0].Some? then 1 else 0) + CountSome(reps[1..])
  }

  lemma {:induction false} CountAll(reps: seq<Option<string>>)
    requires forall k :: 0 <= k < |reps| ==> reps[k].Some?
    ensures CountSome(reps) == |reps|
  {
    if reps != [] {
      CountAll(reps[1..]);
    }
  }

  lemma {:induction false} CountNone(reps: seq<Option<string>>)
    ensures CountSome(reps) == 0 <==> forall k :: 0 <= k < |reps| ==> reps[k].None?
  {
    if reps != [] {
      CountNone(reps[1..]);
      assert forall k :: 1 <= k < |reps| ==> reps[k] == reps[1..][k - 1];
    }
  }
}
