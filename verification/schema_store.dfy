/**
 * The extraction schema of processar.py: `carregar_schema_extracao` keeps the blocks of the
 * schema file that name a `str` `json_chave` and a positive `int` `particao` (a bool counts as
 * an int, as `isinstance` has it), and `gerar_particoes_dinamicamente` groups the kept block
 * names by `particao`, in declaration order, dropping the numbers no block uses.
 */
module Schema {

  import opened Wrappers
  import opened Json
  import opened Assoc

  /** The `particao` of a block, when it is a Python int. */
  function PartOf(b: Json): Option<int> {
    if !b.Obj? then None
    else match Get<Json>(b.fields, "particao")
      case Some(Leaf(v)) => AsPyInt(v)
      case _ => None
  }

  /** The `particao` of a block when it is a positive int, else 0. */
  function Positive(b: Json): nat {
    match PartOf(b)
    case Some(p) => if p > 0 then p else 0
    case None => 0
  }

  /** A block the validation keeps: a dict with a `str` `json_chave` and an `int` `particao` above 0. */
  predicate ValidBlock(b: Json) {
    && b.Obj?
    && (match Get<Json>(b.fields, "json_chave") case Some(Leaf(Str(_))) => true case _ => false)
    && Positive(b) > 0
  }

  /** `BLOCO_CONFIG_VALIDADO` after the loop over the schema's blocks. */
  function Validated(raw: Dict<Json>): Dict<Json>
    decreases |raw|
  {
    if raw == [] then []
    else
      var acc := Validated(raw[..|raw| - 1]);
      var e := raw[|raw| - 1];
      if ValidBlock(e.1) then Put(acc, e.0, e.1) else acc
  }

  /** A key of `d + e` takes its value from `d` when `d` has it. */
  lemma {:induction false} GetAppend<V>(d: Dict<V>, e: Dict<V>, k: string)
    ensures Get(d + e, k) == if HasKey(d, k) then Get(d, k) else Get(e, k)
    decreases |d|
  {
    if d != [] {
      assert (d + e)[0] == d[0];
      assert (d + e)[1..] == d[1..] + e;
      KeysHead(d);
      GetAppend(d[1..], e, k);
    } else {
      assert d + e == e;
    }
  }

  lemma KeysInit<V>(d: Dict<V>)
    requires d != []
    ensures Keys(d) == Keys(d[..|d| - 1]) + [d[|d| - 1].0]
  {
  }

  /** With distinct names, a block is kept exactly when it is valid, and it is kept unchanged. */
  lemma {:induction false} ValidatedGet(raw: Dict<Json>, k: string)
    requires IsDict(raw)
    ensures Get(Validated(raw), k)
      == if HasKey(raw, k) && ValidBlock(Get(raw, k).value) then Get(raw, k) else None
    decreases |raw|
  {
    if raw != [] {
      var init := raw[..|raw| - 1];
      var e := raw[|raw| - 1];
      assert raw == init + [e];
      KeysInit(raw);
      assert IsDict(init);
      ValidatedGet(init, k);
      GetAppend(init, [e], k);
      if ValidBlock(e.1) {
        GetPut(Validated(init), e.0, e.1, k);
      }
      if k == e.0 {
        assert !HasKey(init, k);
      }
    }
  }

  /** Every kept block is valid, and only names of the schema are kept. */
  lemma {:induction false} ValidatedValid(raw: Dict<Json>, k: string)
    ensures HasKey(Validated(raw), k) ==> HasKey(raw, k) && ValidBlock(Get(Validated(raw), k).value)
    decreases |raw|
  {
    if raw != [] {
      var init := raw[..|raw| - 1];
      var e := raw[|raw| - 1];
      KeysInit(raw);
      ValidatedValid(init, k);
      if ValidBlock(e.1) {
        GetPut(Validated(init), e.0, e.1, k);
      }
    }
  }

  lemma {:induction false} ValidatedDict(raw: Dict<Json>)
    ensures IsDict(Validated(raw))
    decreases |raw|
  {
    if raw != [] {
      ValidatedDict(raw[..|raw| - 1]);
      PutKeepsDict(Validated(raw[..|raw| - 1]), raw[|raw| - 1].0, raw[|raw| - 1].1);
    }
  }

  /** Keys other than `json_chave` and `particao` never decide whether a block is kept. */
  lemma OptionalKeysIgnored(fields: Dict<Json>, extra: Dict<Json>)
    requires !HasKey(extra, "json_chave") && !HasKey(extra, "particao")
    ensures ValidBlock(Obj(fields + extra)) == ValidBlock(Obj(fields))
  {
    GetAppend(fields, extra, "json_chave");
    GetAppend(fields, extra, "particao");
    if HasKey(extra, "particao") {
      assert false;
    }
    assert Get(fields + extra, "particao") == Get(fields, "particao");
    assert PartOf(Obj(fields + extra)) == PartOf(Obj(fields));
  }

  lemma ValidatedStep(raw: Dict<Json>, i: nat)
    requires i < |raw|
    ensures Validated(raw[..i + 1])
      == if ValidBlock(raw[i].1) then Put(Validated(raw[..i]), raw[i].0, raw[i].1) else Validated(raw[..i])
  {
    assert raw[..i + 1][..i] == raw[..i];
  }

  /** `schema_geral_valido` after the loop: no block was dropped. */
  predicate AllValid(raw: Dict<Json>)
    decreases |raw|
  {
    raw == [] || (AllValid(raw[..|raw| - 1]) && ValidBlock(raw[|raw| - 1].1))
  }

  lemma {:induction false} AllValidIff(raw: Dict<Json>)
    ensures AllValid(raw) <==> forall j :: 0 <= j < |raw| ==> ValidBlock(raw[j].1)
    decreases |raw|
  {
    if raw != [] {
      var init := raw[..|raw| - 1];
      AllValidIff(init);
      assert forall j :: 0 <= j < |init| ==> init[j] == raw[j];
    }
  }

  /** The validation loop: the kept blocks, and whether every block was kept. */
  method ValidateBlocks(raw: Dict<Json>) returns (valid: Dict<Json>, allValid: bool)
    ensures valid == Validated(raw)
    ensures allValid == AllValid(raw)
  {
    valid, allValid := [], true;
    for i := 0 to |raw|
      invariant valid == Validated(raw[..i])
      invariant allValid == AllValid(raw[..i])
    {
      ValidatedStep(raw, i);
      assert raw[..i + 1][..i] == raw[..i];
      if ValidBlock(raw[i].1) {
        valid := Put(valid, raw[i].0, raw[i].1);
      } else {
        allValid := false;
      }
    }
    assert raw[..|raw|] == raw;
  }

  /** The largest positive `particao`, or 0 when no block has one. */
  function MaxPart(config: Dict<Json>): (m: nat)
    ensures forall i :: 0 <= i < |config| ==> Positive(config[i].1) <= m
    decreases |config|
  {
    if config == [] then 0
    else
      var m := MaxPart(config[..|config| - 1]);
      var p := Positive(config[|config| - 1].1);
      if p > m then p else m
  }

  /** A positive maximum is the `particao` of some block. */
  lemma {:induction false} MaxPartWitness(config: Dict<Json>) returns (i: nat)
    requires MaxPart(config) > 0
    ensures i < |config| && Positive(config[i].1) == MaxPart(config)
    decreases |config|
  {
    var init := config[..|config| - 1];
    if Positive(config[|config| - 1].1) > MaxPart(init) {
      i := |config| - 1;
    } else {
      i := MaxPartWitness(init);
    }
  }

  /** The names of the blocks with `particao` `p`, in declaration order. */
  function Group(config: Dict<Json>, p: nat): seq<string>
    decreases |config|
  {
    if config == [] then []
    else
      var e := config[|config| - 1];
      Group(config[..|config| - 1], p) + (if p > 0 && Positive(e.1) == p then [e.0] else [])
  }

  lemma {:induction false} GroupSpec(config: Dict<Json>, p: nat, n: string)
    ensures n in Group(config, p) <==> p > 0 && exists i :: 0 <= i < |config| && config[i].0 == n && Positive(config[i].1) == p
    decreases |config|
  {
    if config != [] {
      var init := config[..|config| - 1];
      GroupSpec(init, p, n);
      if p > 0 && n in Group(config, p) && n !in Group(init, p) {
        assert config[|config| - 1].0 == n;
      }
      if p > 0 && exists i :: 0 <= i < |config| && config[i].0 == n && Positive(config[i].1) == p {
        var i :| 0 <= i < |config| && config[i].0 == n && Positive(config[i].1) == p;
        if i < |config| - 1 {
          assert init[i] == config[i];
        }
      }
    }
  }

  /** The group of each `particao`. */
  function GroupOf(config: Dict<Json>): nat -> seq<string> {
    (p: nat) => Group(config, p)
  }

  /** The non-empty lists among `groups(1)` to `groups(hi)`, in that order. */
  function Kept(groups: nat -> seq<string>, hi: nat): seq<seq<string>>
    decreases hi
  {
    if hi == 0 then []
    else Kept(groups, hi - 1) + (if groups(hi) == [] then [] else [groups(hi)])
  }

  /** The argument of each list `Kept` keeps. */
  function KeptAt(groups: nat -> seq<string>, hi: nat): seq<nat>
    decreases hi
  {
    if hi == 0 then []
    else KeptAt(groups, hi - 1) + (if groups(hi) == [] then [] else [hi])
  }

  /** The non-empty groups for `particao` 1 to `hi`, in that order. */
  function Collect(config: Dict<Json>, hi: nat): seq<seq<string>> {
    Kept(GroupOf(config), hi)
  }

  /** The `particao` of each group `Collect` keeps. */
  function Numbers(config: Dict<Json>, hi: nat): seq<nat> {
    KeptAt(GroupOf(config), hi)
  }

  /**
   * The groups kept are exactly the non-empty ones for 1 to `hi`, each once, in increasing
   * order of `particao`.
   */
  lemma CollectSpec(config: Dict<Json>, hi: nat)
    ensures |Numbers(config, hi)| == |Collect(config, hi)|
    ensures forall g :: 0 <= g < |Collect(config, hi)| ==>
      1 <= Numbers(config, hi)[g] <= hi && Collect(config, hi)[g] == Group(config, Numbers(config, hi)[g]) != []
    ensures forall g, h :: 0 <= g < h < |Numbers(config, hi)| ==> Numbers(config, hi)[g] < Numbers(config, hi)[h]
    ensures forall p :: 1 <= p <= hi && Group(config, p) != [] ==> p in Numbers(config, hi)
  {
    var groups := GroupOf(config);
    KeptSpec(groups, hi);
    KeptSorted(groups, hi);
    forall p | 1 <= p <= hi && Group(config, p) != []
      ensures p in Numbers(config, hi)
    {
      assert groups(p) == Group(config, p);
      KeptCovers(groups, hi, p);
    }
  }

  /** List `g` kept is `groups` of the `g`-th argument kept, and is non-empty. */
  lemma {:induction false} KeptSpec(groups: nat -> seq<string>, hi: nat)
    ensures |KeptAt(groups, hi)| == |Kept(groups, hi)|
    ensures forall g :: 0 <= g < |Kept(groups, hi)| ==>
      1 <= KeptAt(groups, hi)[g] <= hi && Kept(groups, hi)[g] == groups(KeptAt(groups, hi)[g]) != []
    decreases hi
  {
    if hi > 0 {
      KeptSpec(groups, hi - 1);
    }
  }

  /** The arguments kept increase strictly and do not exceed `hi`. */
  lemma {:induction false} KeptSorted(groups: nat -> seq<string>, hi: nat)
    ensures forall g :: 0 <= g < |KeptAt(groups, hi)| ==> KeptAt(groups, hi)[g] <= hi
    ensures forall g, h :: 0 <= g < h < |KeptAt(groups, hi)| ==> KeptAt(groups, hi)[g] < KeptAt(groups, hi)[h]
    decreases hi
  {
    if hi > 0 {
      KeptSorted(groups, hi - 1);
    }
  }

  /** Every argument from 1 to `hi` with a non-empty list is kept. */
  lemma {:induction false} KeptCovers(groups: nat -> seq<string>, hi: nat, p: nat)
    requires 1 <= p <= hi && groups(p) != []
    ensures p in KeptAt(groups, hi)
    decreases hi
  {
    if p < hi {
      KeptCovers(groups, hi - 1, p);
    }
  }

  /** `LISTA_DE_NOMES_BLOCOS_PARTICIONADA` after `gerar_particoes_dinamicamente`. */
  function Partitions(config: Dict<Json>): seq<seq<string>> {
    if config == [] then []
    else if MaxPart(config) == 0 then [Keys(config)]
    else Collect(config, MaxPart(config))
  }

  /**
   * A non-empty configuration always yields groups, so the function's failure branch cannot be
   * taken; every group is non-empty; with no positive `particao` all blocks form one group; and
   * otherwise the groups are the blocks of each `particao` in use, in increasing order, and
   * every block with a positive `particao` is in one of them.
   */
  lemma PartitionsSpec(config: Dict<Json>)
    ensures config != [] <==> Partitions(config) != []
    ensures forall g :: 0 <= g < |Partitions(config)| ==> Partitions(config)[g] != []
    ensures config != [] && MaxPart(config) == 0 ==> Partitions(config) == [Keys(config)]
    ensures MaxPart(config) > 0 ==>
      && Partitions(config) == Collect(config, MaxPart(config))
      && |Numbers(config, MaxPart(config))| == |Partitions(config)|
      && (forall g :: 0 <= g < |Partitions(config)| ==>
            Partitions(config)[g] == Group(config, Numbers(config, MaxPart(config))[g]))
      && (forall g, h :: 0 <= g < h < |Partitions(config)| ==>
            Numbers(config, MaxPart(config))[g] < Numbers(config, MaxPart(config))[h])
    ensures forall i :: 0 <= i < |config| && Positive(config[i].1) > 0 ==>
      exists g :: 0 <= g < |Partitions(config)| && config[i].0 in Partitions(config)[g]
  {
    var m := MaxPart(config);
    if config != [] && m == 0 {
      assert Keys(config) != [];
    }
    if m > 0 {
      CollectSpec(config, m);
      var w := MaxPartWitness(config);
      GroupSpec(config, m, config[w].0);
      assert Group(config, m) != [];
      assert m in Numbers(config, m);
      forall i | 0 <= i < |config| && Positive(config[i].1) > 0
        ensures exists g :: 0 <= g < |Partitions(config)| && config[i].0 in Partitions(config)[g]
      {
        var p := Positive(config[i].1);
        GroupSpec(config, p, config[i].0);
        assert p in Numbers(config, m);
        var g :| 0 <= g < |Numbers(config, m)| && Numbers(config, m)[g] == p;
        assert config[i].0 in Partitions(config)[g];
      }
    }
  }

  /** In a validated configuration every block has a positive `particao`, so every block is grouped. */
  lemma ValidatedGrouped(raw: Dict<Json>, i: nat)
    requires i < |Validated(raw)|
    ensures exists g :: 0 <= g < |Partitions(Validated(raw))| && Validated(raw)[i].0 in Partitions(Validated(raw))[g]
  {
    var config := Validated(raw);
    var k := config[i].0;
    assert HasKey(config, k);
    ValidatedValid(raw, k);
    ValidatedDict(raw);
    GetAt(config, i);
    PartitionsSpec(config);
  }

  /** In a dict, the value found for the key of entry `i` is that entry's value. */
  lemma {:induction false} GetAt<V>(d: Dict<V>, i: nat)
    requires IsDict(d) && i < |d|
    ensures Get(d, d[i].0) == Some(d[i].1)
    decreases i
  {
    if i > 0 {
      KeysHead(d);
      assert d[0].0 != d[i].0;
      assert d[1..][i - 1] == d[i];
      GetAt(d[1..], i - 1);
    }
  }

  /** The loop that finds the largest positive `particao`. */
  method LargestPart(config: Dict<Json>) returns (maxp: nat)
    ensures maxp == MaxPart(config)
  {
    maxp := 0;
    for i := 0 to |config|
      invariant maxp == MaxPart(config[..i])
    {
      assert config[..i + 1][..i] == config[..i];
      var p := PartOf(config[i].1);
      if p.Some? && p.value > 0 && p.value > maxp {
        maxp := p.value;
      }
    }
    assert config[..|config|] == config;
  }

  /** The loop that appends each block name to the list of its `particao`. */
  method GroupNames(config: Dict<Json>, maxp: nat) returns (lists: seq<seq<string>>)
    ensures |lists| == maxp
    ensures forall q :: 0 <= q < maxp ==> lists[q] == Group(config, q + 1)
  {
    lists := seq(maxp, _ => []);
    for i := 0 to |config|
      invariant |lists| == maxp
      invariant forall q :: 0 <= q < maxp ==> lists[q] == Group(config[..i], q + 1)
    {
      assert config[..i + 1][..i] == config[..i];
      var p := PartOf(config[i].1);
      if p.Some? && 1 <= p.value <= maxp {
        lists := lists[p.value - 1 := lists[p.value - 1] + [config[i].0]];
      }
    }
    assert config[..|config|] == config;
  }

  /** The comprehension that drops the empty lists. */
  method DropEmpty(config: Dict<Json>, lists: seq<seq<string>>) returns (kept: seq<seq<string>>)
    requires forall q :: 0 <= q < |lists| ==> lists[q] == Group(config, q + 1)
    ensures kept == Collect(config, |lists|)
  {
    kept := [];
    for q := 0 to |lists|
      invariant kept == Collect(config, q)
    {
      if lists[q] != [] {
        kept := kept + [lists[q]];
      }
    }
  }

  /** The configuration and its partitions, the two module-level globals of processar.py. */
  class SchemaStore {
    var config: Dict<Json>
    var partitions: seq<seq<string>>

    constructor()
      ensures config == [] && partitions == []
    {
      config := [];
      partitions := [];
    }

    /**
     * `carregar_schema_extracao` after the file is read: a root that is not a dict fails and
     * keeps the old configuration; otherwise the valid blocks are kept, and the load fails only
     * when a non-empty schema has none.
     */
    method Load(raw: Json) returns (ok: bool)
      modifies this
      ensures !raw.Obj? ==> !ok && config == old(config)
      ensures raw.Obj? ==> config == Validated(raw.fields) && (ok <==> config != [] || raw.fields == [])
      ensures partitions == old(partitions)
    {
      if !raw.Obj? {
        return false;
      }
      var valid, allValid := ValidateBlocks(raw.fields);
      config := valid;
      ok := !(config == [] && raw.fields != []);
    }

    /** `gerar_particoes_dinamicamente`: it always succeeds. */
    method GeneratePartitions() returns (ok: bool)
      modifies this
      ensures ok && partitions == Partitions(config) && config == old(config)
    {
      if config == [] {
        partitions := [];
        return true;
      }
      var maxp := LargestPart(config);
      if maxp == 0 {
        partitions := [Keys(config)];
        return true;
      }
      var lists := GroupNames(config, maxp);
      partitions := DropEmpty(config, lists);
      PartitionsSpec(config);
      ok := !(partitions == [] && config != []);
    }
  }
}
