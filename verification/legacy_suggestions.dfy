/**
 * `gerar_mapeamento_sugestao` of testedeprocessar.py, the older version of the mapping
 * suggestion. It splits keys the same way as the current version (the regular expression
 * differs only in leaving the `_` out of the suffix group), but it proposes a wildcard for
 * EVERY indexed key, even one that no other key shares, builds the wildcard differently
 * (`prefix_*_part`, then strips `_` from both ends), names with `nome_legivel` (no strip,
 * `Src` becomes `SRC`) and keeps the first key's name for a wildcard.
 */
module LegacySuggestions {

  import opened Wrappers
  import opened Json
  import opened Text
  import opened Assoc
  import S = Suggestions

  /** `nome_legivel` */
  function Legible(k: string): string {
    ReplaceAll(ReplaceAll(Title(ReplaceAll(k, "_", " ")), "Cpf Cnpj", "CPF/CNPJ"), "Src", "SRC")
  }

  /** Group 3 of `^(.*?)_([0-9]+)(?:_(.*))?$`: the suffix without its leading `_`, or empty. */
  function SuffixPart(ix: S.Indexed): string {
    if ix.suffix == [] then [] else ix.suffix[1..]
  }

  /** The wildcard of a split key: `prefix_*` and `_part` when there is a part, stripped of `_`. */
  function Pattern(ix: S.Indexed): (w: string)
    ensures '*' in w
  {
    var part := SuffixPart(ix);
    var raw := ix.prefix + "_*" + (if part != [] then "_" + part else []);
    assert raw[|ix.prefix| + 1] == '*';
    StripKeepsStar(raw, |ix.prefix| + 1);
    StripChar(raw, '_')
  }

  /** Stripping `_` from both ends never removes a `*`. */
  lemma StripKeepsStar(s: string, i: nat)
    requires i < |s| && s[i] == '*'
    ensures '*' in StripChar(s, '_')
  {
    var l := TrimLeft(s, x => x == '_');
    var d := |s| - |l|;
    assert d <= i;
    assert l[i - d] == '*';
    var r := TrimRight(l, x => x == '_');
    assert |r| > i - d;
    assert r[i - d] == '*';
  }

  /** The name proposed for a wildcard, from the first key that has it. */
  function Label(ix: S.Indexed): (r: string)
    ensures S.EndsWith(r, S.ItemTag)
  {
    var part := SuffixPart(ix);
    var r := Legible(ix.prefix) + (if part != [] then " - " + Legible(part) else "") + S.ItemTag;
    assert r[|r| - |S.ItemTag|..] == S.ItemTag;
    r
  }

  function PatternOf(k: string): Option<string> {
    match S.SplitIndexed(k)
    case None => None
    case Some(ix) => Some(Pattern(ix))
  }

  function NameOf(k: string): Option<string> {
    match S.SplitIndexed(k)
    case None => None
    case Some(ix) => Some(Label(ix))
  }

  /** One step of the first loop: an indexed key proposes its wildcard unless it is there already. */
  function Propose(sug: Dict<string>, k: string): Dict<string> {
    match S.SplitIndexed(k)
    case None => sug
    case Some(ix) => if HasKey(sug, Pattern(ix)) then sug else Put(sug, Pattern(ix), Label(ix))
  }

  /** `sugestoes` after the first loop. */
  function Proposals(keys: seq<string>): Dict<string>
    decreases |keys|
  {
    if keys == [] then [] else Propose(Proposals(keys[..|keys| - 1]), keys[|keys| - 1])
  }

  /** The wildcard of each key, in key order. */
  function Patterns(keys: seq<string>): (r: seq<Option<string>>)
    ensures |r| == |keys|
  {
    seq(|keys|, i requires 0 <= i < |keys| => PatternOf(keys[i]))
  }

  /** The position of the first wildcard equal to `w`, if any. */
  function FirstWith(pats: seq<Option<string>>, w: string): (r: Option<nat>)
    ensures r.Some? ==> r.value < |pats| && pats[r.value] == Some(w)
    ensures r.Some? ==> forall j :: 0 <= j < r.value ==> pats[j] != Some(w)
    ensures r.None? ==> forall j :: 0 <= j < |pats| ==> pats[j] != Some(w)
    decreases |pats|
  {
    if pats == [] then None
    else
      var init := pats[..|pats| - 1];
      assert forall j :: 0 <= j < |init| ==> init[j] == pats[j];
      match FirstWith(init, w)
      case Some(i) => Some(i)
      case None => if pats[|pats| - 1] == Some(w) then Some(|pats| - 1) else None
  }

  lemma ProposeGet(s: Dict<string>, k: string, w: string)
    ensures Get(Propose(s, k), w)
      == if PatternOf(k) == Some(w) && !HasKey(s, w) then NameOf(k) else Get(s, w)
  {
    match S.SplitIndexed(k)
    case None =>
    case Some(ix) =>
      if !HasKey(s, Pattern(ix)) {
        GetPut(s, Pattern(ix), Label(ix), w);
      }
  }

  lemma ProposeDict(s: Dict<string>, k: string)
    requires IsDict(s)
    ensures IsDict(Propose(s, k))
  {
    match S.SplitIndexed(k)
    case None =>
    case Some(ix) =>
      if !HasKey(s, Pattern(ix)) {
        PutKeepsDict(s, Pattern(ix), Label(ix));
      }
  }

  /**
   * The first loop names the wildcard `w` after the first key that has it, and proposes it
   * exactly when some key has it: a single key is enough.
   */
  lemma {:induction false} ProposalsGet(keys: seq<string>, w: string)
    ensures Get(Proposals(keys), w) == match FirstWith(Patterns(keys), w)
      case None => None
      case Some(i) => NameOf(keys[i])
    decreases |keys|
  {
    if keys != [] {
      var init := keys[..|keys| - 1];
      var last := keys[|keys| - 1];
      ProposalsGet(init, w);
      ProposeGet(Proposals(init), last, w);
      assert Proposals(keys) == Propose(Proposals(init), last);
      PatternsInit(keys);
      match FirstWith(Patterns(init), w)
      case Some(i) =>
        assert init[i] == keys[i];
      case None =>
    }
  }

  lemma PatternsInit(keys: seq<string>)
    requires keys != []
    ensures Patterns(keys)[..|keys| - 1] == Patterns(keys[..|keys| - 1])
    ensures Patterns(keys)[|keys| - 1] == PatternOf(keys[|keys| - 1])
  {
  }

  lemma {:induction false} ProposalsDict(keys: seq<string>)
    ensures IsDict(Proposals(keys))
    decreases |keys|
  {
    if keys != [] {
      ProposalsDict(keys[..|keys| - 1]);
      ProposeDict(Proposals(keys[..|keys| - 1]), keys[|keys| - 1]);
    }
  }

  /** Every key of the first loop's result is the wildcard of some key, named `... (Item *)`. */
  lemma ProposalsSpec(keys: seq<string>, w: string)
    ensures HasKey(Proposals(keys), w) <==> exists i :: 0 <= i < |keys| && PatternOf(keys[i]) == Some(w)
    ensures HasKey(Proposals(keys), w) ==> S.EndsWith(Get(Proposals(keys), w).value, S.ItemTag)
  {
    ProposalsGet(keys, w);
    var pats := Patterns(keys);
    match FirstWith(pats, w)
    case None =>
      forall i | 0 <= i < |keys|
        ensures PatternOf(keys[i]) != Some(w)
      {
        assert pats[i] == PatternOf(keys[i]);
      }
    case Some(i) =>
      assert pats[i] == PatternOf(keys[i]);
      assert S.SplitIndexed(keys[i]).Some?;
  }

  /** The first loop. */
  method ProposeAll(keys: seq<string>) returns (sug: Dict<string>)
    ensures sug == Proposals(keys)
  {
    sug := [];
    for i := 0 to |keys|
      invariant sug == Proposals(keys[..i])
    {
      assert keys[..i + 1][..i] == keys[..i];
      var ix := S.SplitIndexed(keys[i]);
      if ix.Some? {
        var w := Pattern(ix.value);
        if !HasKey(sug, w) {
          sug := Put(sug, w, Label(ix.value));
        }
      }
    }
    assert keys[..|keys|] == keys;
  }

  /** The suggestions for a flattened document; none for an empty one. */
  function Suggest(flat: Dict<Scalar>): Dict<string> {
    if flat == [] then []
    else
      var keys := Keys(flat);
      S.AddUncovered(Proposals(keys), keys, Legible)
  }

  /** `gerar_mapeamento_sugestao` without its log lines. */
  method SuggestMapping(flat: Dict<Scalar>) returns (sug: Dict<string>)
    ensures sug == Suggest(flat)
  {
    if flat == [] {
      return [];
    }
    var keys := Keys(flat);
    sug := ProposeAll(keys);
    sug := S.AddUncoveredKeys(sug, keys, Legible);
  }

  /**
   * The suggestions: the proposed wildcards come first, one for each wildcard some key has;
   * after them only input keys, each with its legible name; no key twice; and every input key
   * is suggested itself or fully matched by a suggested wildcard.
   */
  lemma SuggestShape(flat: Dict<Scalar>, p: string)
    ensures var keys := Keys(flat);
      var w := Proposals(keys);
      var r := Suggest(flat);
      && IsDict(r)
      && (flat != [] ==> |w| <= |r| && r[..|w|] == w)
      && (HasKey(w, p) <==> exists i :: 0 <= i < |keys| && PatternOf(keys[i]) == Some(p))
      && (HasKey(w, p) ==> S.EndsWith(Get(w, p).value, S.ItemTag))
      && (flat != [] ==> forall i :: |w| <= i < |r| ==> r[i].0 in keys && r[i].1 == Legible(r[i].0))
      && (forall k :: k in keys ==> HasKey(r, k) || S.CoveredBy(Keys(r), k))
  {
    var keys := Keys(flat);
    ProposalsSpec(keys, p);
    ProposalsDict(keys);
    if flat != [] {
      S.AddUncoveredSpec(Proposals(keys), keys, Legible);
    }
  }

  /** The proposals for a single indexed key: its wildcard, named after it. */
  lemma LoneProposals(k: string)
    requires S.SplitIndexed(k).Some?
    ensures Proposals([k]) == [(PatternOf(k).value, NameOf(k).value)]
  {
    var none: Dict<string> := [];
    assert [k][..0] == [];
    assert Proposals([k]) == Propose(none, k);
  }

  /**
   * Where the two versions part: a key with an index that no other key shares gets a wildcard
   * suggestion from the older version, and none from the current one.
   */
  lemma LoneIndexedKey(k: string, v: Scalar)
    requires S.SplitIndexed(k).Some?
    ensures |Suggest([(k, v)])| >= 1 && Suggest([(k, v)])[0] == (PatternOf(k).value, NameOf(k).value)
    ensures S.Suggest([(k, v)]) == [(k, S.Format(k))] && !HasKey(S.Suggest([(k, v)]), S.PatternOf(k).value)
  {
    var keys := Keys([(k, v)]);
    assert keys == [k];
    LoneProposals(k);
    S.AddUncoveredSpec(Proposals(keys), keys, Legible);
    S.LoneIndexedKey(k, v);
  }
}
