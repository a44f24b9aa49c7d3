/**
 * `normalizar_chaves_json` and `gerenciar_chave_nao_mapeada_interativamente` of processar.py.
 * Each key of the flattened extraction is given a display name and then a template token:
 *
 *  - once the operator has chosen "skip all" (or the caller started skipping), the raw key;
 *  - a key present in the mapping: its mapped name;
 *  - otherwise the first wildcard key of the mapping (most specific first) that matches,
 *    with its name's `*` replaced by the captured digits;
 *  - when that leaves no name: the derived name `key.replace("_", " ").title()` if the operator
 *    chose "automatic" earlier (it is also written into the mapping), else the operator is asked.
 *
 * The name is then encoded (`Placeholder.Encode`), replaced by `CHAVE_INVALIDA_GERADA_<n>` when
 * nothing is left, and moved to `<token>_DUPLICADO_<n>` when the token is already taken.
 * The operator's dialog answers and the mapping file's state are inputs: a `Prompt` per dialog.
 */
module KeyMapper {

  import opened Wrappers
  import opened Json
  import opened Text
  import opened Assoc
  import opened Wildcard
  import opened Collision
  import opened Placeholder
  import opened Specificity

  /** One text dialog: cancelled, or the text typed. */
  datatype Reply = NoReply | Typed(text: string)

  /**
   * What one interactive round meets: the option typed, the name typed when the option asks
   * for one, the value the mapping file holds for the key (if any), and whether saving succeeds.
   */
  datatype Prompt = Prompt(option: Reply, name: Reply, onFile: Option<string>, saveOk: bool)

  /** Once the answers run out, every dialog is cancelled (no window also reads as cancelled). */
  const Cancelled := Prompt(NoReply, NoReply, None, false)

  function PromptAt(ops: seq<Prompt>, i: nat): Prompt {
    if i < |ops| then ops[i] else Cancelled
  }

  /** `key.replace("_", " ").title()`, the name offered by option 3 and used automatically after it. */
  function Derived(key: string): string {
    Title(ReplaceAll(key, "_", " "))
  }

  /**
   * The outcome of one dialog: the name to use, whether the mapping file now holds it,
   * the "skip all" and "automatic" choices, and whether the name is written into the
   * in-memory mapping.
   */
  datatype Decision = Decision(name: string, saved: bool, skipAll: bool, autoAll: bool, remember: bool)

  function KeepKey(key: string): Decision {
    Decision(key, false, false, false, false)
  }

  /** The save step: a name equal to the file's value counts as saved without touching memory. */
  function Save(name: string, p: Prompt, auto: bool): (d: Decision)
    ensures d.name == name && d.autoAll == auto && !d.skipAll
    ensures d.remember ==> d.saved
    ensures d.remember <==> name != "" && p.onFile != Some(name) && p.saveOk
    ensures d.saved <==> name != "" && (p.onFile == Some(name) || p.saveOk)
  {
    if name == "" then Decision(name, false, false, auto, false)
    else if p.onFile == Some(name) then Decision(name, true, false, auto, false)
    else Decision(name, p.saveOk, false, auto, p.saveOk)
  }

  /** `choice == "<c>"` for a one-character option text. */
  predicate IsOption(choice: string, c: char) {
    |choice| == 1 && choice[0] == c
  }

  /** The interactive dialog for a key that neither the mapping nor a wildcard resolves. */
  function Ask(key: string, p: Prompt): Decision {
    match p.option
    case NoReply => KeepKey(key)
    case Typed(t) =>
      var choice := Strip(t);
      if IsOption(choice, '1') || IsOption(choice, '2') then
        var typed := if p.name.Typed? then Strip(p.name.text) else "";
        if typed != "" then Save(typed, p, false) else KeepKey(key)
      else if IsOption(choice, '3') then Save(Derived(key), p, true)
      else if IsOption(choice, '4') then Decision(key, false, true, false, false)
      else KeepKey(key)
  }

  /**
   * What the dialog can decide: a cancelled dialog keeps the key; "skip all" keeps the key and
   * saves nothing; "automatic" uses the derived name; any other name is the one typed, stripped
   * and non-empty; the name counts as saved only when the file already held it or the save
   * succeeded; and the in-memory mapping learns a typed or derived name exactly when the file
   * did not already hold it and the save succeeded.
   */
  lemma AskOutcomes(key: string, p: Prompt)
    ensures var d := Ask(key, p);
      && (p.option.NoReply? ==> d == KeepKey(key))
      && (d.skipAll ==> d == Decision(key, false, true, false, false))
      && (d.autoAll ==> d.name == Derived(key) && !d.skipAll)
      && (d.remember ==> d.saved && d.name != "" && p.onFile != Some(d.name))
      && (d.name == key || d.autoAll || (p.name.Typed? && d.name == Strip(p.name.text) && d.name != ""))
      && (d.saved ==> p.onFile == Some(d.name) || p.saveOk)
      && (p.option.Typed? && IsOption(Strip(p.option.text), '3') ==>
            d.name == Derived(key) && d.autoAll
            && (d.remember <==> Derived(key) != "" && p.onFile != Some(Derived(key)) && p.saveOk))
      && (p.option.Typed? && (IsOption(Strip(p.option.text), '1') || IsOption(Strip(p.option.text), '2'))
          && p.name.Typed? && Strip(p.name.text) != "" ==>
            d.name == Strip(p.name.text) && !d.autoAll
            && (d.remember <==> p.onFile != Some(d.name) && p.saveOk))
  {
    AskCases(key, p);
  }

  /** The four shapes a dialog's outcome can take. */
  lemma AskCases(key: string, p: Prompt)
    ensures var d := Ask(key, p);
      || d == KeepKey(key)
      || (p.option.Typed? && d == Decision(key, false, true, false, false))
      || (p.option.Typed? && d == Save(Derived(key), p, true))
      || (p.option.Typed? && p.name.Typed? && Strip(p.name.text) != "" && d == Save(Strip(p.name.text), p, false))
    ensures p.option.NoReply? ==> Ask(key, p) == KeepKey(key)
  {
    match p.option
    case NoReply =>
    case Typed(t) =>
      var choice := Strip(t);
      if IsOption(choice, '1') || IsOption(choice, '2') {
        var typed := if p.name.Typed? then Strip(p.name.text) else "";
        assert Ask(key, p) == if typed != "" then Save(typed, p, false) else KeepKey(key);
      } else if IsOption(choice, '3') {
        assert Ask(key, p) == Save(Derived(key), p, true);
      } else if IsOption(choice, '4') {
        assert Ask(key, p) == Decision(key, false, true, false, false);
      } else {
        assert Ask(key, p) == KeepKey(key);
      }
  }

  /** The normaliser's running state. `asked` counts the dialogs opened so far. */
  datatype Session = Session(out: Dict<Scalar>, mapping: Dict<string>, skip: bool, auto: bool, asked: nat)

  /** The mapping keys with a `*`, in mapping order. */
  function StarKeys(ks: seq<string>): (r: seq<string>)
    ensures forall k :: k in r <==> k in ks && '*' in k
  {
    if ks == [] then [] else (if '*' in ks[0] then [ks[0]] else []) + StarKeys(ks[1..])
  }

  /** The wildcard keys in the order they are tried: most underscores first, then longest. */
  function Wildcards(mapping: Dict<string>): seq<string> {
    SortBySpecificity(StarKeys(Keys(mapping)))
  }

  /** Index of the first wildcard at or after `i` that matches `key`. */
  function FirstMatchFrom(ws: seq<string>, key: string, i: nat): (r: Option<nat>)
    requires i <= |ws|
    ensures r.Some? ==> i <= r.value < |ws| && Match(ws[r.value], key).Some?
    ensures r.Some? ==> forall j :: i <= j < r.value ==> Match(ws[j], key).None?
    ensures r.None? ==> forall j :: i <= j < |ws| ==> Match(ws[j], key).None?
    decreases |ws| - i
  {
    if i == |ws| then None
    else if Match(ws[i], key).Some? then Some(i)
    else FirstMatchFrom(ws, key, i + 1)
  }

  /** The name a matching wildcard gives: its mapped name, with `*` replaced by the first capture. */
  function WildcardName(mapping: Dict<string>, w: string, caps: seq<string>): string {
    var name := Get(mapping, w).GetOr("");
    if '*' in name && caps != [] then ReplaceStar(name, caps[0]) else name
  }

  /** The wildcard loop's result; the empty name when no wildcard matches. */
  function WildcardResult(mapping: Dict<string>, ws: seq<string>, key: string): string {
    match FirstMatchFrom(ws, key, 0)
    case None => ""
    case Some(i) => WildcardName(mapping, ws[i], Match(ws[i], key).value)
  }

  /** The display name chosen for one key, and the session after choosing it. */
  function Resolve(ws: seq<string>, ops: seq<Prompt>, st: Session, key: string): (r: (string, Session))
    ensures r.1.out == st.out
  {
    if st.skip then (key, st)
    else if HasKey(st.mapping, key) then (Get(st.mapping, key).value, st)
    else
      var wn := WildcardResult(st.mapping, ws, key);
      if wn != "" then (wn, st) else Unresolved(ops, st, key)
  }

  /** A key nothing resolves: the derived name in automatic mode, otherwise the dialog. */
  function Unresolved(ops: seq<Prompt>, st: Session, key: string): (r: (string, Session))
    ensures r.1.out == st.out
  {
    if st.auto then
      (Derived(key), st.(mapping := Put(st.mapping, key, Derived(key))))
    else
      var d := Ask(key, PromptAt(ops, st.asked));
      (d.name, AfterDialog(st, key, d))
  }

  /** The session after a dialog: its choices are recorded and one more dialog is counted. */
  function AfterDialog(st: Session, key: string, d: Decision): (s: Session)
    ensures s.out == st.out && s.asked == st.asked + 1
  {
    st.(mapping := if d.remember then Put(st.mapping, key, d.name) else st.mapping,
        skip := d.skipAll, auto := d.autoAll, asked := st.asked + 1)
  }

  /**
   * How one key is resolved: skipping uses the raw key and changes nothing; a mapped key uses
   * its mapped name and changes nothing; an unmapped key that a wildcard resolves uses the name
   * the wildcard gives and changes nothing; otherwise the mapping at most learns the chosen name
   * for this key, at its end; the skip and automatic choices are never withdrawn; a key that
   * neither the mapping nor a wildcard resolves takes, in automatic mode, the derived name, which
   * the mapping learns, and otherwise goes to the dialog; and a dialog opens only for such a key.
   */
  lemma ResolveFacts(ws: seq<string>, ops: seq<Prompt>, st: Session, key: string)
    ensures var r := Resolve(ws, ops, st, key);
      && (st.skip ==> r == (key, st))
      && (!st.skip && HasKey(st.mapping, key) ==> r == (Get(st.mapping, key).value, st))
      && (!st.skip && !HasKey(st.mapping, key) && WildcardResult(st.mapping, ws, key) != "" ==>
            r == (WildcardResult(st.mapping, ws, key), st))
      && (r.1.mapping == st.mapping || (!HasKey(st.mapping, key) && r.1.mapping == st.mapping + [(key, r.0)]))
      && (st.skip ==> r.1.skip) && (st.auto ==> r.1.auto)
      && (r.1.asked == st.asked || r.1.asked == st.asked + 1)
      && (r.1.asked != st.asked ==>
            !st.skip && !st.auto && !HasKey(st.mapping, key) && WildcardResult(st.mapping, ws, key) == "")
      && (!st.skip && st.auto && !HasKey(st.mapping, key) && WildcardResult(st.mapping, ws, key) == "" ==>
            r == (Derived(key), st.(mapping := st.mapping + [(key, Derived(key))])))
      && (!st.skip && !st.auto && !HasKey(st.mapping, key) && WildcardResult(st.mapping, ws, key) == "" ==>
            var d := Ask(key, PromptAt(ops, st.asked));
            r.0 == d.name && r.1.asked == st.asked + 1
            && r.1.skip == d.skipAll && r.1.auto == d.autoAll
            && r.1.mapping == (if d.remember then st.mapping + [(key, d.name)] else st.mapping))
  {
    if !st.skip && !HasKey(st.mapping, key) && WildcardResult(st.mapping, ws, key) == "" {
      if st.auto {
        PutFresh(st.mapping, key, Derived(key));
      } else {
        PutFresh(st.mapping, key, Ask(key, PromptAt(ops, st.asked)).name);
      }
    }
  }

  /** The token a display name gets in `out`: never empty, canonical, and not yet a key of `out`. */
  function PlacedKey(out: Dict<Scalar>, name: string): (k: string)
    ensures k != "" && Canonical(k) && !HasKey(out, k)
  {
    EncodeCanonical(name);
    var t0 := Encode(name);
    var t := if t0 == "" then InvalidKey(|out|) else t0;
    if HasKey(out, t) then
      DupCanonical(t, FirstFree(Keys(out), t));
      Dup(t, FirstFree(Keys(out), t))
    else t
  }

  /**
   * Where a display name is stored: under its encoding when that is free, under the encoding's
   * first free `_DUPLICADO_<n>` form when it is taken, and, when the encoding leaves nothing,
   * under `CHAVE_INVALIDA_GERADA_<n>` with `n` the number of entries stored so far (or that
   * key's first free `_DUPLICADO_<n>` form).
   */
  lemma PlacedKeyCases(out: Dict<Scalar>, name: string)
    ensures var t := Encode(name); var f := InvalidKey(|out|);
      && (t != "" && !HasKey(out, t) ==> PlacedKey(out, name) == t)
      && (t != "" && HasKey(out, t) ==> PlacedKey(out, name) == Dup(t, FirstFree(Keys(out), t)))
      && (t == "" && !HasKey(out, f) ==> PlacedKey(out, name) == f)
      && (t == "" && HasKey(out, f) ==> PlacedKey(out, name) == Dup(f, FirstFree(Keys(out), f)))
  {
  }

  function Place(out: Dict<Scalar>, name: string, v: Scalar): Dict<Scalar> {
    Put(out, PlacedKey(out, name), v)
  }

  function Step(ws: seq<string>, ops: seq<Prompt>, st: Session, e: (string, Scalar)): Session {
    var r := Resolve(ws, ops, st, e.0);
    r.1.(out := Place(r.1.out, r.0, e.1))
  }

  /** The session after the entries of `flat`, in order. */
  function Run(ws: seq<string>, ops: seq<Prompt>, st: Session, flat: Dict<Scalar>): Session
    decreases |flat|
  {
    if flat == [] then st
    else Step(ws, ops, Run(ws, ops, st, flat[..|flat| - 1]), flat[|flat| - 1])
  }

  /** `normalizar_chaves_json`: the tokenised dict, the mapping as updated in memory, and the skip flag. */
  function NormalizeSpec(flat: Dict<Scalar>, mapping: Dict<string>, skip0: bool, ops: seq<Prompt>): (Dict<Scalar>, Dict<string>, bool) {
    if flat == [] then ([], mapping, skip0)
    else
      var st := Run(Wildcards(mapping), ops, Session([], mapping, skip0, false, 0), flat);
      (st.out, st.mapping, st.skip)
  }

  /** The normaliser's loop over the flattened entries. */
  method Normalize(flat: Dict<Scalar>, mapping: Dict<string>, skip0: bool, ops: seq<Prompt>)
    returns (out: Dict<Scalar>, mapped: Dict<string>, skip: bool)
    ensures (out, mapped, skip) == NormalizeSpec(flat, mapping, skip0, ops)
  {
    if flat == [] {
      return [], mapping, skip0;
    }
    var ws := Wildcards(mapping);
    var st := Session([], mapping, skip0, false, 0);
    var i := 0;
    while i < |flat|
      invariant i <= |flat|
      invariant st == Run(ws, ops, Session([], mapping, skip0, false, 0), flat[..i])
    {
      var name, next := Choose(ws, ops, st, flat[i].0);
      var placed := PlaceEntry(next.out, name, flat[i].1);
      RunSnoc(ws, ops, Session([], mapping, skip0, false, 0), flat, i);
      st := next.(out := placed);
      i := i + 1;
    }
    assert flat[..i] == flat;
    return st.out, st.mapping, st.skip;
  }

  lemma RunSnoc(ws: seq<string>, ops: seq<Prompt>, st: Session, flat: Dict<Scalar>, i: nat)
    requires i < |flat|
    ensures Run(ws, ops, st, flat[..i + 1]) == Step(ws, ops, Run(ws, ops, st, flat[..i]), flat[i])
  {
    assert flat[..i + 1][..i] == flat[..i];
  }

  /** The wildcard loop: the first wildcard, most specific first, that matches the key names it. */
  method FindWildcard(mapping: Dict<string>, ws: seq<string>, key: string) returns (name: string)
    ensures name == WildcardResult(mapping, ws, key)
  {
    name := "";
    var j := 0;
    while j < |ws|
      invariant j <= |ws|
      invariant FirstMatchFrom(ws, key, 0) == FirstMatchFrom(ws, key, j)
    {
      var m := Match(ws[j], key);
      if m.Some? {
        name := WildcardName(mapping, ws[j], m.value);
        return;
      }
      j := j + 1;
    }
  }

  /** The reading of one key's display name in `normalizar_chaves_json`. */
  method Choose(ws: seq<string>, ops: seq<Prompt>, st: Session, key: string) returns (name: string, next: Session)
    ensures (name, next) == Resolve(ws, ops, st, key)
  {
    if st.skip {
      name, next := key, st;
    } else if HasKey(st.mapping, key) {
      name, next := Get(st.mapping, key).value, st;
    } else {
      var wn := FindWildcard(st.mapping, ws, key);
      if wn != "" {
        name, next := wn, st;
      } else {
        var r := Unresolved(ops, st, key);
        name, next := r.0, r.1;
      }
    }
  }

  /**
   * Storing one value: the `__` loop of the encoder, the fallback for an empty token and the
   * collision counter.
   */
  method PlaceEntry(out: Dict<Scalar>, name: string, v: Scalar) returns (result: Dict<Scalar>)
    ensures result == Place(out, name, v)
  {
    var token := EncodeName(name);
    if token == "" {
      token := InvalidKey(|out|);
    }
    if HasKey(out, token) {
      var n := FindFree(Keys(out), token);
      token := Dup(token, n);
    }
    result := Put(out, token, v);
  }

  /** What the output may hold: a dict whose keys are non-empty canonical tokens. */
  predicate ValidOut(out: Dict<Scalar>) {
    IsDict(out) && forall i :: 0 <= i < |out| ==> out[i].0 != "" && Canonical(out[i].0)
  }

  /** Placing a value appends it under a fresh token. */
  lemma PlaceAppends(out: Dict<Scalar>, name: string, v: Scalar)
    ensures Place(out, name, v) == out + [(PlacedKey(out, name), v)]
  {
    PutFresh(out, PlacedKey(out, name), v);
  }

  lemma PlaceKeepsValid(out: Dict<Scalar>, name: string, v: Scalar)
    requires ValidOut(out)
    ensures ValidOut(Place(out, name, v))
  {
    PlaceAppends(out, name, v);
    AppendValid(out, PlacedKey(out, name), v);
  }

  lemma AppendValid(out: Dict<Scalar>, k: string, v: Scalar)
    requires ValidOut(out) && k != "" && Canonical(k) && !HasKey(out, k)
    ensures ValidOut(out + [(k, v)])
  {
    KeysAppend(out, [(k, v)]);
    assert Keys([(k, v)]) == [k];
    var ks := Keys(out + [(k, v)]);
    assert ks == Keys(out) + [k];
    assert Distinct(ks);
  }

  /** One step appends the entry's value and keeps the output valid. */
  lemma StepOut(ws: seq<string>, ops: seq<Prompt>, st: Session, e: (string, Scalar))
    ensures Values(Step(ws, ops, st, e).out) == Values(st.out) + [e.1]
    ensures st.out <= Step(ws, ops, st, e).out
    ensures ValidOut(st.out) ==> ValidOut(Step(ws, ops, st, e).out)
  {
    var name := Resolve(ws, ops, st, e.0).0;
    PlaceAppends(st.out, name, e.1);
    ValuesSnoc(st.out, (PlacedKey(st.out, name), e.1));
    if ValidOut(st.out) {
      PlaceKeepsValid(st.out, name, e.1);
    }
  }

  /** Over a run of entries, the output stays valid and only grows at its end. */
  lemma {:induction false} RunOut(ws: seq<string>, ops: seq<Prompt>, st: Session, flat: Dict<Scalar>)
    requires ValidOut(st.out)
    ensures ValidOut(Run(ws, ops, st, flat).out)
    ensures st.out <= Run(ws, ops, st, flat).out
    decreases |flat|
  {
    if flat != [] {
      var init := flat[..|flat| - 1];
      RunOut(ws, ops, st, init);
      StepOut(ws, ops, Run(ws, ops, st, init), flat[|flat| - 1]);
    }
  }

  /** Over a run of entries, every value is kept, in order, each under its own token. */
  lemma {:induction false} RunValues(ws: seq<string>, ops: seq<Prompt>, st: Session, flat: Dict<Scalar>)
    ensures Values(Run(ws, ops, st, flat).out) == Values(st.out) + Values(flat)
    decreases |flat|
  {
    if flat != [] {
      var init := flat[..|flat| - 1];
      var e := flat[|flat| - 1];
      RunValues(ws, ops, st, init);
      StepOut(ws, ops, Run(ws, ops, st, init), e);
      ValuesInit(flat);
      AppendAssoc(Values(st.out), Values(init), [e.1]);
    }
  }

  lemma ValuesInit<V>(d: Dict<V>)
    requires d != []
    ensures Values(d) == Values(d[..|d| - 1]) + [d[|d| - 1].1]
  {
  }

  lemma ValuesSnoc<V>(d: Dict<V>, x: (string, V))
    ensures Values(d + [x]) == Values(d) + [x.1]
  {
  }

  /**
   * Over a run of entries, the mapping only grows at its end, the skip and automatic
   * choices are never withdrawn, and at most one dialog is opened per entry.
   */
  lemma {:induction false} RunState(ws: seq<string>, ops: seq<Prompt>, st: Session, flat: Dict<Scalar>)
    ensures st.mapping <= Run(ws, ops, st, flat).mapping
    ensures st.skip ==> Run(ws, ops, st, flat).skip
    ensures st.auto ==> Run(ws, ops, st, flat).auto
    ensures st.asked <= Run(ws, ops, st, flat).asked <= st.asked + |flat|
    decreases |flat|
  {
    if flat != [] {
      RunState(ws, ops, st, flat[..|flat| - 1]);
      ResolveFacts(ws, ops, Run(ws, ops, st, flat[..|flat| - 1]), flat[|flat| - 1].0);
    }
  }

  /**
   * The normaliser keeps every value of the flattened extraction, in order, each under a
   * distinct, non-empty token made of `A-Z`, `0-9` and single `_`; the in-memory mapping it
   * returns extends the one it was given; skipping, once on, stays on.
   */
  lemma NormalizeKeeps(flat: Dict<Scalar>, mapping: Dict<string>, skip0: bool, ops: seq<Prompt>)
    ensures var (out, mapped, skip) := NormalizeSpec(flat, mapping, skip0, ops);
      && ValidOut(out)
      && Values(out) == Values(flat)
      && mapping <= mapped
      && (skip0 ==> skip)
  {
    if flat != [] {
      var st0 := Session([], mapping, skip0, false, 0);
      RunOut(Wildcards(mapping), ops, st0, flat);
      RunValues(Wildcards(mapping), ops, st0, flat);
      RunState(Wildcards(mapping), ops, st0, flat);
    }
  }

  /** Placing every entry under its raw key, as the normaliser does while skipping. */
  function PlaceRaw(out: Dict<Scalar>, flat: Dict<Scalar>): Dict<Scalar>
    decreases |flat|
  {
    if flat == [] then out
    else var o := PlaceRaw(out, flat[..|flat| - 1]); Place(o, flat[|flat| - 1].0, flat[|flat| - 1].1)
  }

  /** While skipping, each key is encoded as it is, no dialog opens and the mapping is left alone. */
  lemma {:induction false} SkipUsesRawKeys(ws: seq<string>, ops: seq<Prompt>, st: Session, flat: Dict<Scalar>)
    requires st.skip
    ensures Run(ws, ops, st, flat) == st.(out := PlaceRaw(st.out, flat))
    decreases |flat|
  {
    if flat != [] {
      SkipUsesRawKeys(ws, ops, st, flat[..|flat| - 1]);
    }
  }

  /**
   * The wildcard that is used is a most specific one: no other matching wildcard key of the
   * mapping has more underscores, or as many and more characters.
   */
  lemma MostSpecificWildcard(mapping: Dict<string>, key: string, w: string)
    requires w in StarKeys(Keys(mapping)) && Match(w, key).Some?
    ensures FirstMatchFrom(Wildcards(mapping), key, 0).Some?
    ensures !RankBelow(Wildcards(mapping)[FirstMatchFrom(Wildcards(mapping), key, 0).value], w)
  {
    var ws := Wildcards(mapping);
    SortedBySpecificity(StarKeys(Keys(mapping)));
    assert w in multiset(ws);
    var j :| 0 <= j < |ws| && ws[j] == w;
    var i := FirstMatchFrom(ws, key, 0).value;
    assert i <= j;
    if i < j {
      assert !RankBelow(ws[i], ws[j]);
    }
  }

  /**
   * A key that the mapping does not hold, matched by the mapping's only wildcard `w`, is stored
   * under the wildcard's name with its `*` replaced by the first captured digit run.
   */
  lemma WildcardNameUsed(w: string, n: string, key: string, v: Scalar, ops: seq<Prompt>)
    requires '*' in w && key != w && Match(w, key).Some? && Match(w, key).value != []
    requires '*' in n && Canonical(ReplaceStar(n, Match(w, key).value[0])) && ReplaceStar(n, Match(w, key).value[0]) != ""
    ensures NormalizeSpec([(key, v)], [(w, n)], false, ops) == ([(ReplaceStar(n, Match(w, key).value[0]), v)], [(w, n)], false)
  {
    var mapping := [(w, n)];
    var name := ReplaceStar(n, Match(w, key).value[0]);
    assert Keys(mapping) == [w];
    assert StarKeys([w]) == [w];
    assert [w][..0] == [];
    assert SortBySpecificity([w]) == Insert([], w) == [w];
    var ws := Wildcards(mapping);
    assert FirstMatchFrom(ws, key, 0) == Some(0);
    assert Get(mapping, w) == Some(n);
    assert WildcardResult(mapping, ws, key) == name;
    var st0 := Session([], mapping, false, false, 0);
    assert !HasKey(mapping, key);
    assert Resolve(ws, ops, st0, key) == (name, st0);
    EncodeFixes(name);
    assert PlacedKey([], name) == name;
    var flat := [(key, v)];
    assert flat[..0] == [];
    assert Run(ws, ops, st0, flat) == Step(ws, ops, st0, (key, v));
  }

  /** So the normaliser stores `item_3_valor` under `ITEM_3_VALOR` given the wildcard `item_*_valor`. */
  lemma WildcardExample()
    ensures NormalizeSpec([("item_3_valor", Int(5))], [("item_*_valor", "ITEM_*_VALOR")], false, [])
         == ([("ITEM_3_VALOR", Int(5))], [("item_*_valor", "ITEM_*_VALOR")], false)
  {
    MatchExample();
    ReplaceExample();
    CanonicalExample();
    WildcardNameUsed("item_*_valor", "ITEM_*_VALOR", "item_3_valor", Int(5), []);
  }

  /** A key the mapping holds is stored under its mapped name, and nothing else changes. */
  lemma StepMapped(ws: seq<string>, ops: seq<Prompt>, st: Session, k: string, v: Scalar)
    requires !st.skip && HasKey(st.mapping, k)
    ensures Step(ws, ops, st, (k, v)) == st.(out := Place(st.out, Get(st.mapping, k).value, v))
  {
    ResolveFacts(ws, ops, st, k);
  }

  /** A name that is already a free token is stored under itself. */
  lemma PlaceToken(out: Dict<Scalar>, x: string, v: Scalar)
    requires x != "" && Canonical(x) && !HasKey(out, x)
    ensures Place(out, x, v) == out + [(x, v)]
  {
    EncodeFixes(x);
    PutFresh(out, x, v);
  }

  /** A name whose token is taken is stored under the first free `_DUPLICADO_<n>`. */
  lemma PlaceTaken(out: Dict<Scalar>, x: string, v: Scalar)
    requires x != "" && Canonical(x) && HasKey(out, x)
    ensures Place(out, x, v) == out + [(Dup(x, FirstFree(Keys(out), x)), v)]
  {
    EncodeFixes(x);
    PlaceAppends(out, x, v);
  }
}
