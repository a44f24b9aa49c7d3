/**
 * The older version's cell substitution (the cell loop of `preencher_excel_novo_com_placeholders`
 * in testedeprocessar.py). Token names may also hold space, `.`, `/`, `-`, `%`, `(` and `)`.
 * A cell that is exactly one token takes the value itself; in any other string cell each name
 * found, in order and repeats included, has every occurrence of its token replaced in the
 * working text with `str.replace`, so text inserted for one name is searched again for the
 * next names, and each name found counts as a substitution even when nothing is left to replace.
 */
module LegacyFill {

  import opened Wrappers
  import opened Json
  import opened Text
  import opened Assoc
  import opened Template
  import F = TemplateFill

  /** `re.findall`: the names inside the tokens found, in order, repeats included. */
  function Names(s: string): (r: seq<string>)
    ensures |r| == |Scan(Legacy, s)|
  {
    ScanSpec(Legacy, s, 0);
    var spans := Scan(Legacy, s);
    seq(|spans|, k requires 0 <= k < |spans| => s[spans[k].start + 2..spans[k].end - 2])
  }

  /** One name of the loop over a mixed cell. */
  function ReplaceStep(doc: Dict<Scalar>, na: bool, acc: (string, nat), name: string): (string, nat) {
    var token := F.Braced(name);
    match Get(doc, token)
    case Some(v) => (ReplaceAll(acc.0, token, F.SpliceText(v)), acc.1 + 1)
    case None => if na then (ReplaceAll(acc.0, token, "N/A"), acc.1 + 1) else acc
  }

  /** The working text and the count after the loop over `names`. */
  function ReplaceNames(doc: Dict<Scalar>, na: bool, text: string, names: seq<string>): (string, nat)
    decreases |names|
  {
    if names == [] then (text, 0)
    else ReplaceStep(doc, na, ReplaceNames(doc, na, text, names[..|names| - 1]), names[|names| - 1])
  }

  /** One cell of the sheet loop. */
  function FillCell(cell: Scalar, doc: Dict<Scalar>, na: bool): F.Filled {
    if !cell.Str? then F.Filled(cell, 0)
    else
      var s := cell.s;
      var names := Names(s);
      if names == [] then F.Filled(cell, 0)
      else if |names| == 1 && s == F.Braced(names[0]) then
        match Get(doc, s)
        case Some(v) => F.Filled(v, 1)
        case None => if na then F.Filled(Str("N/A"), 1) else F.Filled(cell, 0)
      else
        var (text, n) := ReplaceNames(doc, na, s, names);
        F.Filled(if text != s then Str(text) else cell, n)
  }

  /** The cell loop's body for one cell. */
  method SubstituteCell(cell: Scalar, doc: Dict<Scalar>, na: bool) returns (r: F.Filled)
    ensures r == FillCell(cell, doc, na)
  {
    if !cell.Str? {
      return F.Filled(cell, 0);
    }
    var s := cell.s;
    var names := Names(s);
    if names == [] {
      return F.Filled(cell, 0);
    }
    if |names| == 1 && s == F.Braced(names[0]) {
      var value := Get(doc, s);
      if value.Some? {
        r := F.Filled(value.value, 1);
      } else if na {
        r := F.Filled(Str("N/A"), 1);
      } else {
        r := F.Filled(cell, 0);
      }
      return;
    }
    var text, n := ReplaceLoop(doc, na, s, names);
    r := F.Filled(if text != s then Str(text) else cell, n);
  }

  /** The loop over the names found in a mixed cell. */
  method ReplaceLoop(doc: Dict<Scalar>, na: bool, s: string, names: seq<string>) returns (text: string, n: nat)
    ensures (text, n) == ReplaceNames(doc, na, s, names)
  {
    text, n := s, 0;
    for i := 0 to |names|
      invariant (text, n) == ReplaceNames(doc, na, s, names[..i])
    {
      assert names[..i + 1][..i] == names[..i];
      var token := F.Braced(names[i]);
      var value := Get(doc, token);
      if value.Some? {
        text := ReplaceAll(text, token, F.SpliceText(value.value));
        n := n + 1;
      } else if na {
        text := ReplaceAll(text, token, "N/A");
        n := n + 1;
      }
    }
    assert names[..|names|] == names;
  }

  /** The token text is the braced name. */
  lemma NameBraced(s: string, k: nat)
    requires k < |Scan(Legacy, s)|
    ensures var sp := Scan(Legacy, s)[k];
      sp.start + 4 <= sp.end <= |s| && s[sp.start..sp.end] == F.Braced(Names(s)[k])
  {
    ScanSpec(Legacy, s, 0);
    var sp := Scan(Legacy, s)[k];
    var t := s[sp.start..sp.end];
    assert Names(s)[k] == t[2..|t| - 2];
    assert t == t[..2] + t[2..|t| - 2] + t[|t| - 2..];
    assert t[..2] == "{{" && t[|t| - 2..] == "}}";
  }

  /** A cell that is exactly one token takes the document's value itself, or `N/A`. */
  lemma FillWhole(s: string, doc: Dict<Scalar>, na: bool)
    requires IsToken(Legacy, s)
    ensures HasKey(doc, s) ==> FillCell(Str(s), doc, na) == F.Filled(Get(doc, s).value, 1)
    ensures !HasKey(doc, s) && na ==> FillCell(Str(s), doc, na) == F.Filled(Str("N/A"), 1)
    ensures !HasKey(doc, s) && !na ==> FillCell(Str(s), doc, na) == F.Filled(Str(s), 0)
  {
    WholeToken(Legacy, s);
    NameBraced(s, 0);
    assert s[0..|s|] == s;
  }

  /** Each name found counts once, found in the document or not, when `N/A` is enabled. */
  lemma {:induction false} CountNames(doc: Dict<Scalar>, na: bool, text: string, names: seq<string>)
    ensures ReplaceNames(doc, na, text, names).1 <= |names|
    ensures na ==> ReplaceNames(doc, na, text, names).1 == |names|
    decreases |names|
  {
    if names != [] {
      CountNames(doc, na, text, names[..|names| - 1]);
    }
  }

  /** Without `N/A` and with no name in the document, the text is kept and nothing is counted. */
  lemma {:induction false} NothingFound(doc: Dict<Scalar>, text: string, names: seq<string>)
    requires forall k :: 0 <= k < |names| ==> !HasKey(doc, F.Braced(names[k]))
    ensures ReplaceNames(doc, false, text, names) == (text, 0)
    decreases |names|
  {
    if names != [] {
      NothingFound(doc, text, names[..|names| - 1]);
    }
  }

  /** A loop that counts nothing leaves the working text as it was. */
  lemma {:induction false} ZeroCountKeepsText(doc: Dict<Scalar>, na: bool, text: string, names: seq<string>)
    ensures ReplaceNames(doc, na, text, names).1 == 0 ==> ReplaceNames(doc, na, text, names).0 == text
    decreases |names|
  {
    if names != [] {
      ZeroCountKeepsText(doc, na, text, names[..|names| - 1]);
    }
  }

  /** A cell counted as not substituted is left as it was. */
  lemma NoCountNoChange(cell: Scalar, doc: Dict<Scalar>, na: bool)
    ensures FillCell(cell, doc, na).count == 0 ==> FillCell(cell, doc, na).cell == cell
  {
    if cell.Str? {
      ZeroCountKeepsText(doc, na, cell.s, Names(cell.s));
    }
  }

  /** Text replaced for the first name is searched again for the second name. */
  lemma ResubstitutesInserted()
    ensures var doc := [("{{A}}", Str("{{B}}")), ("{{B}}", Str("b"))];
      ReplaceNames(doc, true, "{{A}}{{B}}", ["A", "B"]) == ("bb", 2)
  {
    var doc := [("{{A}}", Str("{{B}}")), ("{{B}}", Str("b"))];
    var names := ["A", "B"];
    assert names[..1] == ["A"] && names[..0] == [];
    assert F.Braced("A") == "{{A}}" && F.Braced("B") == "{{B}}";
    assert Get(doc, "{{A}}") == Some(Str("{{B}}"));
    assert Get(doc, "{{B}}") == Some(Str("b"));
    ReplaceFirst();
    ReplaceSecond();
  }

  lemma ReplaceFirst()
    ensures ReplaceAll("{{A}}{{B}}", "{{A}}", "{{B}}") == "{{B}}{{B}}"
  {
    ReplaceWhole("{{A}}", "{{B}}", "{{B}}");
  }

  lemma ReplaceSecond()
    ensures ReplaceAll("{{B}}{{B}}", "{{B}}", "b") == "bb"
  {
    ReplaceWhole("{{B}}", "b", "{{B}}");
    ReplaceWhole("{{B}}", "b", "");
    assert "{{B}}{{B}}"[5..] == "{{B}}";
  }

  /** `(pat + rest).replace(pat, rep)` when `rest` holds no further occurrence. */
  lemma ReplaceWhole(pat: string, rep: string, rest: string)
    requires pat == "{{A}}" || pat == "{{B}}"
    requires rest == [] || rest == "{{B}}"
    ensures ReplaceAll(pat + rest, pat, rep) == rep + ReplaceAll(rest, pat, rep)
  {
    assert (pat + rest)[..|pat|] == pat;
    assert (pat + rest)[|pat|..] == rest;
  }
  /** A key of the wrapped document, placed alone in a cell as `{{key}}`, brings its value back. */
  lemma WrappedWholeCell(d: Dict<Scalar>, k: string, na: bool)
    requires k != [] && (forall i :: 0 <= i < |k| ==> InName(Legacy, k[i])) && HasKey(d, k)
    ensures FillCell(Str(F.Braced(k)), F.Wrap(d), na) == F.Filled(Get(d, k).value, 1)
  {
    BracedToken(k);
    F.WrapGet(d, k);
    FillWhole(F.Braced(k), F.Wrap(d), na);
  }

  /** A name of the older character set, in braces, is a token. */
  lemma BracedToken(k: string)
    requires k != [] && forall i :: 0 <= i < |k| ==> InName(Legacy, k[i])
    ensures IsToken(Legacy, F.Braced(k))
  {
    var t := F.Braced(k);
    forall i | 2 <= i < |t| - 2
      ensures InName(Legacy, t[i])
    {
      assert t[i] == k[i - 2];
    }
  }

  /**
   * Where the two versions part: a name with a space is a token only for the older version,
   * which fills the cell, while the current version leaves it as it is.
   */
  lemma SpacedName(v: Scalar, na: bool)
    ensures FillCell(Str("{{A B}}"), [("{{A B}}", v)], na) == F.Filled(v, 1)
    ensures F.FillCell(Str("{{A B}}"), [("{{A B}}", v)], na) == F.Filled(Str("{{A B}}"), 0)
  {
    var s := "{{A B}}";
    var doc := [("{{A B}}", v)];
    assert IsToken(Legacy, s);
    FillWhole(s, doc, na);
    assert HasKey(doc, s);
    NoCurrentToken();
  }

  lemma NoCurrentToken()
    ensures Scan(Current, "{{A B}}") == []
  {
    var s := "{{A B}}";
    assert NameRun(Current, s, 3) == 0;
    assert NameRun(Current, s, 2) == 1;
    assert TokenEnd(Current, s, 0).None?;
    assert ScanFrom(Current, s, 6) == [];
    assert ScanFrom(Current, s, 5) == [];
    assert ScanFrom(Current, s, 4) == [];
    assert ScanFrom(Current, s, 3) == [];
    assert ScanFrom(Current, s, 2) == [];
    assert ScanFrom(Current, s, 1) == [];
  }
}
