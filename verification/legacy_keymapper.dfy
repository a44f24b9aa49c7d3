/**
 * `normalizar_chaves_json` and `gerenciar_chave_nao_mapeada_interativamente` of
 * testedeprocessar.py, the older key normaliser. Against the current one it differs in:
 *
 *  - the order of resolution: the exact mapping entry and the wildcards are looked up before
 *    the skip flag is consulted, and once "automatic" is on both lookups are bypassed;
 *  - the wildcards are tried in mapping order, not by specificity;
 *  - the dialog: an empty option counts as option 3, and a typed name that differs from the key
 *    is written into the in-memory mapping even when saving it failed;
 *  - the encoder: fixed character replacements, no trimming of `_`, no fallback for an
 *    empty token, and the final deletion step can bring `__` back.
 *
 * The operator's answers and the mapping file's state are inputs, as in `KeyMapper`.
 */
module LegacyKeyMapper {

  import opened Wrappers
  import opened Json
  import opened Text
  import opened Assoc
  import opened Wildcard
  import opened Collision
  import P = Placeholder
  import K = KeyMapper

  /** The fixed replacements of the encoder, in the order they are applied. */
  const Substitutions: seq<(string, string)> :=
    [(" ", "_"), ("/", "_"), ("-", "_"), ("(", ""), (")", ""), ("%", "PERC"), (".", "_"), (":", ""), ("*", "ITEM")]

  /** Every pattern is one character that is not a token character. */
  predicate SingleCharPatterns(subs: seq<(string, string)>) {
    forall i :: 0 <= i < |subs| ==> |subs[i].0| == 1 && !P.IsTokenChar(subs[i].0[0])
  }

  lemma SubstitutionsShape()
    ensures SingleCharPatterns(Substitutions)
  {
  }

  /** The replacements applied one after the other, each with `str.replace`. */
  function ApplyAll(s: string, subs: seq<(string, string)>): string
    requires SingleCharPatterns(subs)
    decreases |subs|
  {
    if subs == [] then s else ApplyAll(ReplaceAll(s, subs[0].0, subs[0].1), subs[1..])
  }

  /** `re.sub(r'[^A-Z0-9_]', '', s)`: every character outside `A-Z`, `0-9`, `_` is deleted. */
  function KeepTokenChars(s: string): (r: string)
    ensures P.AllTokenChars(r) && |r| <= |s|
    ensures P.AllTokenChars(s) ==> r == s
    decreases |s|
  {
    if s == [] then []
    else if P.IsTokenChar(s[0]) then (assert s == [s[0]] + s[1..]; [s[0]] + KeepTokenChars(s[1..]))
    else KeepTokenChars(s[1..])
  }

  /** The token for a display name: upper-case, replace, collapse `__`, delete the rest. */
  function Encode(name: string): (t: string)
    ensures P.AllTokenChars(t)
  {
    SubstitutionsShape();
    KeepTokenChars(P.Collapse(ApplyAll(Upper(name), Substitutions)))
  }

  /** The encoding steps as the source runs them: the replacement loop, then the `__` loop. */
  method EncodeName(name: string) returns (token: string)
    ensures token == Encode(name)
  {
    SubstitutionsShape();
    var s := Upper(name);
    var i := 0;
    while i < |Substitutions|
      invariant i <= |Substitutions|
      invariant ApplyAll(s, Substitutions[i..]) == ApplyAll(Upper(name), Substitutions)
    {
      assert Substitutions[i..][1..] == Substitutions[i + 1..];
      s := ReplaceAll(s, Substitutions[i].0, Substitutions[i].1);
      i := i + 1;
    }
    assert Substitutions[i..] == [];
    ghost var target := P.Collapse(s);
    while Contains(s, "__")
      invariant P.Collapse(s) == target
      decreases |s|
    {
      P.ReplaceKeepsCollapse(s);
      P.ReplaceShrinks(s);
      s := ReplaceAll(s, "__", "_");
    }
    P.ContainsDouble(s);
    P.CollapseNoDoubleId(s);
    token := KeepTokenChars(s);
  }

  /** Replacing a one-character pattern that does not occur changes nothing. */
  lemma {:induction false} ReplaceMissing(s: string, pat: string, rep: string)
    requires |pat| == 1 && pat[0] !in s
    ensures ReplaceAll(s, pat, rep) == s
    decreases |s|
  {
    if |s| >= 1 {
      assert s[..1] != pat by {
        assert s[..1][0] == s[0] && s[0] in s;
      }
      assert pat[0] !in s[1..] by {
        assert forall c :: c in s[1..] ==> c in s;
      }
      ReplaceMissing(s[1..], pat, rep);
      assert s == [s[0]] + s[1..];
    }
  }

  /** On a text of token characters the replacements change nothing. */
  lemma {:induction false} ApplyAllTokens(t: string, subs: seq<(string, string)>)
    requires SingleCharPatterns(subs) && P.AllTokenChars(t)
    ensures ApplyAll(t, subs) == t
    decreases |subs|
  {
    if subs != [] {
      assert subs[0].0[0] !in t by {
        forall i | 0 <= i < |t|
          ensures t[i] != subs[0].0[0]
        {
        }
      }
      ReplaceMissing(t, subs[0].0, subs[0].1);
      assert SingleCharPatterns(subs[1..]) by {
        assert forall i :: 0 <= i < |subs| - 1 ==> subs[1..][i] == subs[i + 1];
      }
      ApplyAllTokens(t, subs[1..]);
    }
  }

  /** A token over `A-Z`, `0-9`, `_` without `__` encodes to itself. */
  lemma EncodeFixes(t: string)
    requires P.AllTokenChars(t) && P.NoDouble(t)
    ensures Encode(t) == t
  {
    P.StripTokenId(t);
    SubstitutionsShape();
    ApplyAllTokens(t, Substitutions);
    P.CollapseNoDoubleId(t);
  }

  /**
   * Deleting characters comes last, so it can join two underscores and leave one at either
   * end: `_#_` encodes to `__`, where the current encoder gives the empty token.
   */
  lemma DoubleUnderscoreExample()
    ensures Encode("_#_") == "__"
    ensures P.Encode("_#_") == ""
  {
    var s := "_#_";
    UpperHash();
    SubstitutionsShape();
    ApplyAllHash();
    CollapseHash();
    KeepHash();
    CurrentHash();
  }

  lemma UpperHash()
    ensures Upper("_#_") == "_#_"
  {
    var s := "_#_";
    assert forall i :: 0 <= i < 3 ==> !IsLower(s[i]);
  }

  /** None of the replacement patterns occurs in `_#_`. */
  lemma ApplyAllHash()
    ensures SingleCharPatterns(Substitutions)
    ensures ApplyAll("_#_", Substitutions) == "_#_"
  {
    SubstitutionsShape();
    var s := "_#_";
    forall i | 0 <= i < |Substitutions|
      ensures Substitutions[i].0[0] !in s
    {
    }
    ApplyAllMissing(s, Substitutions);
  }

  lemma CollapseHash()
    ensures P.Collapse("_#_") == "_#_"
  {
    var s := "_#_";
    assert s[1..] == "#_" && s[1..][1..] == "_";
    assert P.Collapse("_") == "_";
    assert P.Collapse("#_") == "#_";
  }

  lemma KeepHash()
    ensures KeepTokenChars("_#_") == "__"
  {
    var s := "_#_";
    assert s[1..] == "#_" && s[1..][1..] == "_" && s[1..][1..][1..] == [];
    assert KeepTokenChars("_") == "_";
    assert !P.IsTokenChar('#');
    assert KeepTokenChars("#_") == "_";
  }

  lemma CurrentHash()
    ensures P.Encode("_#_") == ""
  {
    UpperHash();
    StripHash();
    SubRunsHash();
    CollapseTriple();
    StripLone();
  }

  lemma StripHash()
    ensures Strip("_#_") == "_#_"
  {
    var s := "_#_";
    assert !IsSpace(s[0]) && !IsSpace(s[2]);
  }

  lemma SubRunsHash()
    ensures P.SubRuns("_#_") == "___"
  {
    var s := "_#_";
    SubRunsUnderOther(s);
  }

  /** `_`, one character outside the token set, `_`: each character becomes one `_`. */
  lemma SubRunsUnderOther(s: string)
    requires |s| == 3 && s[0] == '_' && !P.IsTokenChar(s[1]) && s[2] == '_'
    ensures P.SubRuns(s) == [s[0], s[0], s[0]]
  {
    var t := s[1..];
    var u := t[1..];
    SubRunsTokenHead(u);
    SubRunsLoneOther(t);
    SubRunsTokenHead(s);
  }

  /** A token character is kept as it is. */
  lemma SubRunsTokenHead(s: string)
    requires s != [] && P.IsTokenChar(s[0])
    ensures P.SubRuns(s) == [s[0]] + P.SubRuns(s[1..])
  {
  }

  /** One character outside the token set followed by a token character becomes `_`. */
  lemma SubRunsLoneOther(s: string)
    requires |s| >= 2 && !P.IsTokenChar(s[0]) && P.IsTokenChar(s[1])
    ensures P.SubRuns(s) == "_" + P.SubRuns(s[1..])
  {
  }

  lemma CollapseTriple()
    ensures P.Collapse("___") == "_"
  {
    var s := "___";
    assert s[1..] == "__" && s[1..][1..] == "_";
  }

  lemma StripLone()
    ensures StripChar("_", '_') == ""
  {
    var s := "_";
    assert s[1..] == [];
  }

  lemma {:induction false} ApplyAllMissing(s: string, subs: seq<(string, string)>)
    requires SingleCharPatterns(subs)
    requires forall i :: 0 <= i < |subs| ==> subs[i].0[0] !in s
    ensures ApplyAll(s, subs) == s
    decreases |subs|
  {
    if subs != [] {
      ReplaceMissing(s, subs[0].0, subs[0].1);
      assert forall i :: 0 <= i < |subs| - 1 ==> subs[1..][i] == subs[i + 1];
      ApplyAllMissing(s, subs[1..]);
    }
  }

  /** The empty name gives the empty token, which the older version stores as it is. */
  lemma EmptyNameExample()
    ensures Encode("") == ""
  {
    SubstitutionsShape();
    ApplyAllMissing("", Substitutions);
  }

  /** One dialog's outcome: the name chosen, whether the file holds it, and the two global choices. */
  datatype Answer = Answer(name: string, saved: bool, skipAll: bool, autoAll: bool)

  function KeepKey(key: string): Answer {
    Answer(key, false, false, false)
  }

  /** The save step; a file that already holds the name counts as saved. */
  function Save(name: string, p: K.Prompt, auto: bool): (a: Answer)
    ensures a.name == name && a.autoAll == auto && !a.skipAll
    ensures a.saved <==> name != "" && (p.onFile == Some(name) || p.saveOk)
  {
    if name == "" then Answer(name, false, false, auto)
    else if p.onFile == Some(name) then Answer(name, true, false, auto)
    else Answer(name, p.saveOk, false, auto)
  }

  /** The older dialog: an empty option is option 3. */
  function Ask(key: string, p: K.Prompt): Answer {
    match p.option
    case NoReply => KeepKey(key)
    case Typed(t) =>
      var choice := Strip(t);
      if K.IsOption(choice, '1') || K.IsOption(choice, '2') then
        var typed := if p.name.Typed? then Strip(p.name.text) else "";
        if typed != "" then Save(typed, p, false) else KeepKey(key)
      else if choice == [] || K.IsOption(choice, '3') then Save(K.Derived(key), p, true)
      else if K.IsOption(choice, '4') then Answer(key, false, true, false)
      else KeepKey(key)
  }

  lemma AskCases(key: string, p: K.Prompt)
    ensures var a := Ask(key, p);
      || a == KeepKey(key)
      || (p.option.Typed? && a == Answer(key, false, true, false))
      || (p.option.Typed? && a == Save(K.Derived(key), p, true))
      || (p.option.Typed? && p.name.Typed? && Strip(p.name.text) != "" && a == Save(Strip(p.name.text), p, false))
    ensures p.option.NoReply? ==> Ask(key, p) == KeepKey(key)
  {
    match p.option
    case NoReply =>
    case Typed(t) =>
      var choice := Strip(t);
      if K.IsOption(choice, '1') || K.IsOption(choice, '2') {
        var typed := if p.name.Typed? then Strip(p.name.text) else "";
        assert Ask(key, p) == if typed != "" then Save(typed, p, false) else KeepKey(key);
      } else if choice == [] || K.IsOption(choice, '3') {
        assert Ask(key, p) == Save(K.Derived(key), p, true);
      } else if K.IsOption(choice, '4') {
        assert Ask(key, p) == Answer(key, false, true, false);
      } else {
        assert Ask(key, p) == KeepKey(key);
      }
  }

  /**
   * What the older dialog can decide: cancelling keeps the key; "skip all" keeps the key and
   * saves nothing; "automatic" uses the derived name; any other name is the one typed; and a
   * name counts as saved only when it is non-empty and the file held it or the save succeeded.
   */
  lemma AskOutcomes(key: string, p: K.Prompt)
    ensures var a := Ask(key, p);
      && (p.option.NoReply? ==> a == KeepKey(key))
      && (a.skipAll ==> a == Answer(key, false, true, false))
      && (a.autoAll ==> a.name == K.Derived(key) && !a.skipAll)
      && (a.name == key || a.autoAll || (p.name.Typed? && a.name == Strip(p.name.text) && a.name != ""))
      && (a.saved ==> a.name != "" && (p.onFile == Some(a.name) || p.saveOk))
  {
    AskCases(key, p);
  }

  /** An empty option text starts automatic mode here; the current dialog keeps the key instead. */
  lemma EmptyOptionDiffers(key: string, p: K.Prompt)
    requires p.option == K.Typed("")
    ensures Ask(key, p).autoAll && Ask(key, p).name == K.Derived(key)
    ensures K.Ask(key, p) == K.KeepKey(key)
  {
    assert Strip("") == "";
  }

  /**
   * The caller's bookkeeping after a dialog: the choices are recorded, and a non-empty name is
   * written into the mapping when it was saved, or when it differs from the key and the
   * operator did not choose "skip all".
   */
  function AfterAnswer(st: K.Session, key: string, a: Answer): (s: K.Session)
    ensures s.out == st.out && s.asked == st.asked + 1
  {
    var mirror := a.name != "" && (a.saved || (a.name != key && !a.skipAll));
    st.(mapping := if mirror then Put(st.mapping, key, a.name) else st.mapping,
        skip := st.skip || a.skipAll, auto := st.auto || a.autoAll, asked := st.asked + 1)
  }

  /** The dialog for a key no lookup resolved. */
  function Unresolved(ops: seq<K.Prompt>, st: K.Session, key: string): (r: (string, K.Session))
    ensures r.1.out == st.out
  {
    var a := Ask(key, K.PromptAt(ops, st.asked));
    (a.name, AfterAnswer(st, key, a))
  }

  /**
   * The older resolution order: the exact entry unless "automatic" is on, then the wildcards
   * (in mapping order) unless "automatic" is on, then the derived name for a key the mapping
   * lacks in automatic mode, then the raw key while skipping, then the dialog for a key the
   * mapping lacks; a key the mapping has, in automatic mode, keeps its raw name.
   */
  function Resolve(ws: seq<string>, ops: seq<K.Prompt>, st: K.Session, key: string): (r: (string, K.Session))
    ensures r.1.out == st.out
  {
    if HasKey(st.mapping, key) && !st.auto then (Get(st.mapping, key).value, st)
    else
      var wn := if st.auto then "" else K.WildcardResult(st.mapping, ws, key);
      if wn != "" then (wn, st)
      else if st.auto && !HasKey(st.mapping, key) then
        (K.Derived(key), st.(mapping := Put(st.mapping, key, K.Derived(key))))
      else if st.skip then (key, st)
      else if !HasKey(st.mapping, key) then Unresolved(ops, st, key)
      else (key, st)
  }

  /**
   * How one key is resolved: a mapped key keeps its mapped name even while skipping, unless
   * automatic mode is on, where it keeps its raw key; outside automatic mode an unmapped key
   * that a wildcard resolves takes the wildcard's name, even while skipping, and changes nothing; in automatic mode a key the mapping lacks
   * takes the derived name, which the mapping learns; outside it, a key that no lookup resolves
   * keeps its raw name while skipping and otherwise goes to the dialog; the mapping at most
   * learns the name for this key, at its end; the two choices are never withdrawn; at most one
   * dialog opens.
   */
  lemma ResolveFacts(ws: seq<string>, ops: seq<K.Prompt>, st: K.Session, key: string)
    ensures var r := Resolve(ws, ops, st, key);
      && (HasKey(st.mapping, key) && !st.auto ==> r == (Get(st.mapping, key).value, st))
      && (HasKey(st.mapping, key) && st.auto ==> r == (key, st))
      && (!st.auto && !HasKey(st.mapping, key) && K.WildcardResult(st.mapping, ws, key) != "" ==>
            r == (K.WildcardResult(st.mapping, ws, key), st))
      && (r.1.mapping == st.mapping || (!HasKey(st.mapping, key) && r.1.mapping == st.mapping + [(key, r.0)]))
      && (st.skip ==> r.1.skip) && (st.auto ==> r.1.auto)
      && (r.1.asked == st.asked || r.1.asked == st.asked + 1)
      && (r.1.asked != st.asked ==> !st.skip && !st.auto && !HasKey(st.mapping, key))
      && (st.auto && !HasKey(st.mapping, key) ==>
            r == (K.Derived(key), st.(mapping := st.mapping + [(key, K.Derived(key))])))
      && (!st.auto && st.skip && !HasKey(st.mapping, key) && K.WildcardResult(st.mapping, ws, key) == "" ==>
            r == (key, st))
      && (!st.auto && !st.skip && !HasKey(st.mapping, key) && K.WildcardResult(st.mapping, ws, key) == "" ==>
            var a := Ask(key, K.PromptAt(ops, st.asked));
            r.0 == a.name && r.1.asked == st.asked + 1
            && r.1.skip == a.skipAll && r.1.auto == a.autoAll
            && r.1.mapping == (if a.name != "" && (a.saved || (a.name != key && !a.skipAll))
                               then st.mapping + [(key, a.name)] else st.mapping))
  {
    if !HasKey(st.mapping, key) {
      if st.auto {
        PutFresh(st.mapping, key, K.Derived(key));
      } else if !st.skip && K.WildcardResult(st.mapping, ws, key) == "" {
        var a := Ask(key, K.PromptAt(ops, st.asked));
        PutFresh(st.mapping, key, a.name);
      }
    }
  }

  /** The token for a name in `out`: the encoding, or its first free `_DUPLICADO_<n>` form. */
  function PlacedKey(out: Dict<Scalar>, name: string): (k: string)
    ensures P.AllTokenChars(k) && !HasKey(out, k)
  {
    var t := Encode(name);
    if HasKey(out, t) then
      DupChars(t, FirstFree(Keys(out), t));
      Dup(t, FirstFree(Keys(out), t))
    else t
  }

  lemma DupChars(t: string, n: nat)
    requires P.AllTokenChars(t)
    ensures P.AllTokenChars(Dup(t, n))
  {
    var d := NatToString(n);
    var k := Dup(t, n);
    assert k == t + Marker + d;
    assert forall i :: 0 <= i < |t| ==> k[i] == t[i];
    assert forall i :: 0 <= i < |Marker| ==> k[|t| + i] == Marker[i];
    assert forall i :: 0 <= i < |d| ==> k[|t| + |Marker| + i] == d[i];
  }

  /**
   * Where a display name is stored: under its encoding when that is free (even when it is
   * empty, as there is no fallback), otherwise under the encoding's first free `_DUPLICADO_<n>`.
   */
  lemma PlacedKeyCases(out: Dict<Scalar>, name: string)
    ensures var t := Encode(name);
      && (!HasKey(out, t) ==> PlacedKey(out, name) == t)
      && (HasKey(out, t) ==> PlacedKey(out, name) == Dup(t, FirstFree(Keys(out), t)))
  {
  }

  function Place(out: Dict<Scalar>, name: string, v: Scalar): Dict<Scalar> {
    Put(out, PlacedKey(out, name), v)
  }

  function Step(ws: seq<string>, ops: seq<K.Prompt>, st: K.Session, e: (string, Scalar)): K.Session {
    var r := Resolve(ws, ops, st, e.0);
    r.1.(out := Place(r.1.out, r.0, e.1))
  }

  function Run(ws: seq<string>, ops: seq<K.Prompt>, st: K.Session, flat: Dict<Scalar>): K.Session
    decreases |flat|
  {
    if flat == [] then st
    else Step(ws, ops, Run(ws, ops, st, flat[..|flat| - 1]), flat[|flat| - 1])
  }

  /** The wildcard keys in the order the older version tries them: mapping order. */
  function Wildcards(mapping: Dict<string>): seq<string> {
    K.StarKeys(Keys(mapping))
  }

  function NormalizeSpec(flat: Dict<Scalar>, mapping: Dict<string>, skip0: bool, ops: seq<K.Prompt>): (Dict<Scalar>, Dict<string>, bool) {
    if flat == [] then ([], mapping, skip0)
    else
      var st := Run(Wildcards(mapping), ops, K.Session([], mapping, skip0, false, 0), flat);
      (st.out, st.mapping, st.skip)
  }

  /** The older normaliser's loop over the flattened entries. */
  method Normalize(flat: Dict<Scalar>, mapping: Dict<string>, skip0: bool, ops: seq<K.Prompt>)
    returns (out: Dict<Scalar>, mapped: Dict<string>, skip: bool)
    ensures (out, mapped, skip) == NormalizeSpec(flat, mapping, skip0, ops)
  {
    if flat == [] {
      return [], mapping, skip0;
    }
    var ws := Wildcards(mapping);
    var st := K.Session([], mapping, skip0, false, 0);
    var i := 0;
    while i < |flat|
      invariant i <= |flat|
      invariant st == Run(ws, ops, K.Session([], mapping, skip0, false, 0), flat[..i])
    {
      var name, next := Choose(ws, ops, st, flat[i].0);
      var placed := PlaceEntry(next.out, name, flat[i].1);
      RunSnoc(ws, ops, K.Session([], mapping, skip0, false, 0), flat, i);
      st := next.(out := placed);
      i := i + 1;
    }
    assert flat[..i] == flat;
    return st.out, st.mapping, st.skip;
  }

  lemma RunSnoc(ws: seq<string>, ops: seq<K.Prompt>, st: K.Session, flat: Dict<Scalar>, i: nat)
    requires i < |flat|
    ensures Run(ws, ops, st, flat[..i + 1]) == Step(ws, ops, Run(ws, ops, st, flat[..i]), flat[i])
  {
    assert flat[..i + 1][..i] == flat[..i];
  }

  /** The older choice of a display name for one key. */
  method Choose(ws: seq<string>, ops: seq<K.Prompt>, st: K.Session, key: string) returns (name: string, next: K.Session)
    ensures (name, next) == Resolve(ws, ops, st, key)
  {
    if HasKey(st.mapping, key) && !st.auto {
      return Get(st.mapping, key).value, st;
    }
    var wn := "";
    if !st.auto {
      wn := K.FindWildcard(st.mapping, ws, key);
    }
    if wn != "" {
      name, next := wn, st;
    } else if st.auto && !HasKey(st.mapping, key) {
      name := K.Derived(key);
      next := st.(mapping := Put(st.mapping, key, name));
    } else if st.skip {
      name, next := key, st;
    } else if !HasKey(st.mapping, key) {
      var r := Unresolved(ops, st, key);
      name, next := r.0, r.1;
    } else {
      name, next := key, st;
    }
  }

  /** Storing one value: the encoder's loops and the collision counter, with no fallback. */
  method PlaceEntry(out: Dict<Scalar>, name: string, v: Scalar) returns (result: Dict<Scalar>)
    ensures result == Place(out, name, v)
  {
    var token := EncodeName(name);
    if HasKey(out, token) {
      var n := FindFree(Keys(out), token);
      token := Dup(token, n);
    }
    result := Put(out, token, v);
  }

  /** What the older output may hold: distinct keys over `A-Z`, `0-9`, `_` (possibly empty). */
  predicate ValidOut(out: Dict<Scalar>) {
    IsDict(out) && forall i :: 0 <= i < |out| ==> P.AllTokenChars(out[i].0)
  }

  lemma AppendValid(out: Dict<Scalar>, k: string, v: Scalar)
    requires ValidOut(out) && P.AllTokenChars(k) && !HasKey(out, k)
    ensures ValidOut(out + [(k, v)])
  {
    KeysAppend(out, [(k, v)]);
    assert Keys([(k, v)]) == [k];
    var ks := Keys(out + [(k, v)]);
    assert ks == Keys(out) + [k];
    assert Distinct(ks);
  }

  lemma StepOut(ws: seq<string>, ops: seq<K.Prompt>, st: K.Session, e: (string, Scalar))
    ensures Values(Step(ws, ops, st, e).out) == Values(st.out) + [e.1]
    ensures ValidOut(st.out) ==> ValidOut(Step(ws, ops, st, e).out)
  {
    var name := Resolve(ws, ops, st, e.0).0;
    var k := PlacedKey(st.out, name);
    PutFresh(st.out, k, e.1);
    K.ValuesSnoc(st.out, (k, e.1));
    if ValidOut(st.out) {
      AppendValid(st.out, k, e.1);
    }
  }

  /** Over a run of entries every value is kept, in order, under distinct token-character keys. */
  lemma {:induction false} RunOut(ws: seq<string>, ops: seq<K.Prompt>, st: K.Session, flat: Dict<Scalar>)
    requires ValidOut(st.out)
    ensures ValidOut(Run(ws, ops, st, flat).out)
    ensures Values(Run(ws, ops, st, flat).out) == Values(st.out) + Values(flat)
    decreases |flat|
  {
    if flat != [] {
      var init := flat[..|flat| - 1];
      var e := flat[|flat| - 1];
      RunOut(ws, ops, st, init);
      StepOut(ws, ops, Run(ws, ops, st, init), e);
      K.ValuesInit(flat);
      AppendAssoc(Values(st.out), Values(init), [e.1]);
    }
  }

  /** Over a run of entries the mapping only grows at its end and the two choices stay on. */
  lemma {:induction false} RunState(ws: seq<string>, ops: seq<K.Prompt>, st: K.Session, flat: Dict<Scalar>)
    ensures st.mapping <= Run(ws, ops, st, flat).mapping
    ensures st.skip ==> Run(ws, ops, st, flat).skip
    ensures st.auto ==> Run(ws, ops, st, flat).auto
    ensures st.asked <= Run(ws, ops, st, flat).asked <= st.asked + |flat|
    decreases |flat|
  {
    if flat != [] {
      RunState(ws, ops, st, flat[..|flat| - 1]);
      ResolveFacts(ws, ops, Run(ws, ops, st, flat[..|flat| - 1]), flat[|flat| - 1].0);
    }
  }

  /**
   * The older normaliser also keeps every value, in order, under distinct keys made of
   * `A-Z`, `0-9` and `_`; its mapping extends the one it was given; skipping stays on.
   */
  lemma NormalizeKeeps(flat: Dict<Scalar>, mapping: Dict<string>, skip0: bool, ops: seq<K.Prompt>)
    ensures var (out, mapped, skip) := NormalizeSpec(flat, mapping, skip0, ops);
      && ValidOut(out)
      && Values(out) == Values(flat)
      && mapping <= mapped
      && (skip0 ==> skip)
  {
    if flat != [] {
      var st0 := K.Session([], mapping, skip0, false, 0);
      RunOut(Wildcards(mapping), ops, st0, flat);
      RunState(Wildcards(mapping), ops, st0, flat);
    }
  }

  /**
   * A typed name that differs from the key enters the in-memory mapping even when the save
   * fails; the current version writes it only after a successful save.
   */
  lemma UnsavedNameMirrored(ws: seq<string>, ops: seq<K.Prompt>, st: K.Session, key: string, typed: string)
    requires !st.skip && !st.auto && !HasKey(st.mapping, key)
    requires K.WildcardResult(st.mapping, ws, key) == ""
    requires st.asked < |ops|
    requires ops[st.asked] == K.Prompt(K.Typed("2"), K.Typed(typed), None, false)
    requires Strip(typed) == typed && typed != "" && typed != key
    ensures Resolve(ws, ops, st, key).1.mapping == st.mapping + [(key, typed)]
    ensures K.Resolve(ws, ops, st, key).1.mapping == st.mapping
  {
    var p := ops[st.asked];
    assert Strip("2") == "2" by {
      assert !IsSpace('2');
    }
    assert K.IsOption("2", '2');
    assert Ask(key, p) == Answer(typed, false, false, false);
    PutFresh(st.mapping, key, typed);
    assert K.Ask(key, p) == K.Decision(typed, false, false, false, false);
  }

  /** While skipping, a mapped key keeps its mapped name here; the current version uses the raw key. */
  lemma MappedKeyWhileSkipping(ws: seq<string>, ops: seq<K.Prompt>, st: K.Session, key: string)
    requires st.skip && !st.auto && HasKey(st.mapping, key)
    ensures Resolve(ws, ops, st, key) == (Get(st.mapping, key).value, st)
    ensures K.Resolve(ws, ops, st, key) == (key, st)
  {
  }
}
