/**
 * The current version's placeholder document and cell substitution
 * (`gerar_json_com_chaves_placeholder` and the cell loop of
 * `preencher_excel_novo_com_placeholders` in processar.py).
 * A string cell that is exactly one token takes the document's value itself, type and all;
 * in any other string cell the tokens found in the original text are replaced from right to
 * left, so the spans found stay valid and inserted text is never scanned again.
 */
module TemplateFill {

  import opened Wrappers
  import opened Json
  import opened Text
  import opened Assoc
  import opened Template
  import P = Placeholder

  /** `f"{{{{{k}}}}}"` */
  function Braced(k: string): string {
    "{{" + k + "}}"
  }

  lemma BracedInjective(a: string, b: string)
    requires Braced(a) == Braced(b)
    ensures a == b
  {
    assert a == Braced(a)[2..|Braced(a)| - 2];
    assert b == Braced(b)[2..|Braced(b)| - 2];
  }

  /** The placeholder document: every key `k` becomes `{{k}}`; values and order are kept. */
  function Wrap(d: Dict<Scalar>): (r: Dict<Scalar>)
    ensures |r| == |d| && forall i :: 0 <= i < |d| ==> r[i] == (Braced(d[i].0), d[i].1)
  {
    if d == [] then [] else [(Braced(d[0].0), d[0].1)] + Wrap(d[1..])
  }

  /** `gerar_json_com_chaves_placeholder`: no document is produced from an empty one. */
  function PlaceholderDoc(d: Dict<Scalar>): Option<Dict<Scalar>> {
    if d == [] then None else Some(Wrap(d))
  }

  /** Looking up `{{k}}` in the wrapped document finds what `k` holds in the original one. */
  lemma {:induction false} WrapGet(d: Dict<Scalar>, k: string)
    ensures Get(Wrap(d), Braced(k)) == Get(d, k)
  {
    if d != [] {
      if d[0].0 != k {
        if Braced(d[0].0) == Braced(k) {
          BracedInjective(d[0].0, k);
        }
        assert Wrap(d)[1..] == Wrap(d[1..]);
        WrapGet(d[1..], k);
      }
    }
  }

  /** Wrapping keeps keys distinct. */
  lemma WrapDict(d: Dict<Scalar>)
    requires IsDict(d)
    ensures IsDict(Wrap(d))
  {
    var w := Wrap(d);
    forall i, j | 0 <= i < j < |w|
      ensures Keys(w)[i] != Keys(w)[j]
    {
      assert Keys(d)[i] != Keys(d)[j];
      if Braced(d[i].0) == Braced(d[j].0) {
        BracedInjective(d[i].0, d[j].0);
      }
    }
  }

  lemma PlaceholderDocSpec(d: Dict<Scalar>, k: string)
    requires IsDict(d)
    ensures PlaceholderDoc(d).None? <==> d == []
    ensures PlaceholderDoc(d).Some? ==> IsDict(PlaceholderDoc(d).value) && |PlaceholderDoc(d).value| == |d|
    ensures PlaceholderDoc(d).Some? ==> Get(PlaceholderDoc(d).value, Braced(k)) == Get(d, k)
  {
    if d != [] {
      WrapDict(d);
      WrapGet(d, k);
    }
  }

  /** The text spliced in for a value: `str(v)`, or nothing for None. */
  function SpliceText(v: Scalar): string {
    if v.Null? then "" else PyStr(v)
  }

  /** What replaces the token text `t`: its value's text, `N/A` when absent and enabled, or nothing. */
  function Replacement(doc: Dict<Scalar>, na: bool, t: string): Option<string> {
    match Get(doc, t)
    case Some(v) => Some(SpliceText(v))
    case None => if na then Some("N/A") else None
  }

  function Replacements(doc: Dict<Scalar>, na: bool, s: string, spans: seq<Span>): (r: seq<Option<string>>)
    requires forall k :: 0 <= k < |spans| ==> spans[k].start <= spans[k].end <= |s|
    ensures |r| == |spans|
    ensures forall k :: 0 <= k < |spans| ==> r[k] == Replacement(doc, na, s[spans[k].start..spans[k].end])
  {
    seq(|spans|, k requires 0 <= k < |spans| => Replacement(doc, na, s[spans[k].start..spans[k].end]))
  }

  /** A cell's new value and the substitutions counted for it. */
  datatype Filled = Filled(cell: Scalar, count: nat)

  /** One cell of the sheet loop. */
  function FillCell(cell: Scalar, doc: Dict<Scalar>, na: bool): Filled {
    if !cell.Str? || cell.s == [] then Filled(cell, 0)
    else
      var s := cell.s;
      var spans := Scan(Current, s);
      if spans == [] then Filled(cell, 0)
      else if |spans| == 1 && spans[0] == Span(0, |s|) then
        match Get(doc, s)
        case Some(v) => Filled(v, 1)
        case None => if na then Filled(Str("N/A"), 1) else Filled(cell, 0)
      else
        ScanSpec(Current, s, 0);
        var reps := Replacements(doc, na, s, spans);
        if CountSome(reps) > 0 then Filled(Str(Rebuild(s, spans, reps, 0)), CountSome(reps)) else Filled(cell, 0)
  }

  /** Where the untouched text before span `k` ends. */
  function Lo(s: string, spans: seq<Span>, k: nat): nat
    requires k <= |spans|
  {
    if k < |spans| then spans[k].start else |s|
  }

  lemma PlacedFrom(s: string, spans: seq<Span>, k: nat)
    requires Placed(s, spans, 0) && k <= |spans|
    ensures Placed(s, spans[k..], Lo(s, spans, k)) && Lo(s, spans, k) <= |s|
    ensures k > 0 ==> spans[k - 1].end <= Lo(s, spans, k)
  {
  }

  /** Splicing span `k - 1` into a text already rebuilt from span `k` on. */
  lemma SpliceStep(s: string, spans: seq<Span>, reps: seq<Option<string>>, k: nat, cur: string)
    requires Placed(s, spans, 0) && |reps| == |spans| && 0 < k <= |spans|
    requires Placed(s, spans[k..], Lo(s, spans, k))
    requires cur == s[..Lo(s, spans, k)] + Rebuild(s, spans[k..], reps[k..], Lo(s, spans, k))
    ensures Placed(s, spans[k - 1..], Lo(s, spans, k - 1))
    ensures var sp := spans[k - 1];
      var next := s[..Lo(s, spans, k - 1)] + Rebuild(s, spans[k - 1..], reps[k - 1..], Lo(s, spans, k - 1));
      && sp.end <= |cur|
      && (reps[k - 1].Some? ==> cur[..sp.start] + reps[k - 1].value + cur[sp.end..] == next)
      && (reps[k - 1].None? ==> cur == next)
  {
    PlacedFrom(s, spans, k - 1);
    var sp := spans[k - 1];
    var lo := Lo(s, spans, k);
    var rest := Rebuild(s, spans[k..], reps[k..], lo);
    RebuildHead(s, spans, reps, k);
    Slices(s, rest, sp.start, sp.end, lo);
    var piece := Piece(s, sp, reps[k - 1]);
    AppendAssoc(s[..sp.start], piece, s[sp.end..lo] + rest);
  }

  /** Cutting `s[..lo] + rest` before `lo` leaves plain slices of `s`. */
  lemma Slices(s: string, rest: string, st: nat, en: nat, lo: nat)
    requires st <= en <= lo <= |s|
    ensures (s[..lo] + rest)[..st] == s[..st]
    ensures (s[..lo] + rest)[en..] == s[en..lo] + rest
    ensures s[..lo] + rest == s[..st] + (s[st..en] + (s[en..lo] + rest))
  {
    assert s[..lo] == s[..st] + s[st..en] + s[en..lo];
  }

  /** The rebuild from span `k - 1` is its piece, the untouched text up to span `k`, and the rest. */
  lemma RebuildHead(s: string, spans: seq<Span>, reps: seq<Option<string>>, k: nat)
    requires Placed(s, spans, 0) && |reps| == |spans| && 0 < k <= |spans|
    ensures Placed(s, spans[k - 1..], spans[k - 1].start) && Placed(s, spans[k..], Lo(s, spans, k))
    ensures Rebuild(s, spans[k - 1..], reps[k - 1..], spans[k - 1].start)
      == Piece(s, spans[k - 1], reps[k - 1])
        + (s[spans[k - 1].end..Lo(s, spans, k)] + Rebuild(s, spans[k..], reps[k..], Lo(s, spans, k)))
  {
    PlacedFrom(s, spans, k - 1);
    PlacedFrom(s, spans, k);
    assert spans[k - 1..][1..] == spans[k..] && reps[k - 1..][1..] == reps[k..];
    RebuildCons(s, spans[k - 1..], reps[k - 1..], Lo(s, spans, k));
  }

  lemma CountStep(reps: seq<Option<string>>, k: nat)
    requires 0 < k <= |reps|
    ensures CountSome(reps[k - 1..]) == (if reps[k - 1].Some? then 1 else 0) + CountSome(reps[k..])
  {
    assert reps[k - 1..][1..] == reps[k..];
  }

  /**
   * The right-to-left splice of the cell loop: it builds the same text as the left-to-right
   * rebuild, and counts one substitution per token replaced.
   */
  method Splice(s: string, spans: seq<Span>, doc: Dict<Scalar>, na: bool) returns (cur: string, n: nat)
    requires Placed(s, spans, 0)
    ensures cur == Rebuild(s, spans, Replacements(doc, na, s, spans), 0)
    ensures n == CountSome(Replacements(doc, na, s, spans))
  {
    ghost var reps := Replacements(doc, na, s, spans);
    cur, n := s, 0;
    var k := |spans|;
    assert s[..|s|] == s && s[|s|..] == [];
    while k > 0
      invariant 0 <= k <= |spans|
      invariant Placed(s, spans[k..], Lo(s, spans, k))
      invariant cur == s[..Lo(s, spans, k)] + Rebuild(s, spans[k..], reps[k..], Lo(s, spans, k))
      invariant n == CountSome(reps[k..])
    {
      SpliceStep(s, spans, reps, k, cur);
      CountStep(reps, k);
      k := k - 1;
      var sp := spans[k];
      var value := Get(doc, s[sp.start..sp.end]);
      if value.Some? {
        cur := cur[..sp.start] + SpliceText(value.value) + cur[sp.end..];
        n := n + 1;
      } else if na {
        cur := cur[..sp.start] + "N/A" + cur[sp.end..];
        n := n + 1;
      }
    }
    PlacedFrom(s, spans, 0);
    RebuildShift(s, spans, reps, 0, Lo(s, spans, 0));
  }

  /** The cell loop's body for one cell. */
  method SubstituteCell(cell: Scalar, doc: Dict<Scalar>, na: bool) returns (r: Filled)
    ensures r == FillCell(cell, doc, na)
  {
    if !cell.Str? || cell.s == [] {
      return Filled(cell, 0);
    }
    var s := cell.s;
    var spans := Scan(Current, s);
    if spans == [] {
      return Filled(cell, 0);
    }
    if |spans| == 1 && spans[0] == Span(0, |s|) {
      var value := Get(doc, s);
      if value.Some? {
        r := Filled(value.value, 1);
      } else if na {
        r := Filled(Str("N/A"), 1);
      } else {
        r := Filled(cell, 0);
      }
      return;
    }
    ScanSpec(Current, s, 0);
    var text, n := Splice(s, spans, doc, na);
    if n > 0 {
      r := Filled(Str(text), n);
    } else {
      r := Filled(cell, 0);
    }
  }

  /** A cell that is exactly one token takes the document's value itself, or `N/A`. */
  lemma FillWhole(s: string, doc: Dict<Scalar>, na: bool)
    requires IsToken(Current, s)
    ensures HasKey(doc, s) ==> FillCell(Str(s), doc, na) == Filled(Get(doc, s).value, 1)
    ensures !HasKey(doc, s) && na ==> FillCell(Str(s), doc, na) == Filled(Str("N/A"), 1)
    ensures !HasKey(doc, s) && !na ==> FillCell(Str(s), doc, na) == Filled(Str(s), 0)
  {
    WholeToken(Current, s);
  }

  /** Cells that are not strings, and strings without `{{`, are left as they are. */
  lemma FillUntouched(cell: Scalar, doc: Dict<Scalar>, na: bool)
    requires cell.Str? ==> forall k :: 0 <= k < |cell.s| - 1 ==> !(cell.s[k] == '{' && cell.s[k + 1] == '{')
    ensures FillCell(cell, doc, na) == Filled(cell, 0)
  {
    if cell.Str? {
      NoBraces(Current, cell.s, 0);
    }
  }

  /**
   * In a cell with other text around its tokens, the count is the number of tokens replaced;
   * with `N/A` enabled that is every token, and with nothing to replace the cell is kept.
   */
  lemma FillCount(s: string, doc: Dict<Scalar>, na: bool)
    requires !IsToken(Current, s)
    ensures FillCell(Str(s), doc, na).count <= |Scan(Current, s)|
    ensures na ==> FillCell(Str(s), doc, na).count == |Scan(Current, s)|
    ensures FillCell(Str(s), doc, na).count == 0 ==> FillCell(Str(s), doc, na).cell == Str(s)
  {
    WholeToken(Current, s);
    var spans := Scan(Current, s);
    ScanSpec(Current, s, 0);
    if s != [] && spans != [] {
      var reps := Replacements(doc, na, s, spans);
      if na {
        CountAll(reps);
      }
    }
  }

  /** A key of the normalised document, placed alone in a cell as `{{key}}`, brings its value back. */
  lemma WrappedWholeCell(d: Dict<Scalar>, k: string, na: bool)
    requires k != [] && P.AllTokenChars(k) && HasKey(d, k)
    ensures FillCell(Str(Braced(k)), Wrap(d), na) == Filled(Get(d, k).value, 1)
  {
    var t := Braced(k);
    forall i | 2 <= i < |t| - 2
      ensures InName(Current, t[i])
    {
      assert t[i] == k[i - 2];
    }
    WrapGet(d, k);
    FillWhole(t, Wrap(d), na);
  }
}
