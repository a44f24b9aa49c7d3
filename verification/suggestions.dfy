/**
 * `gerar_mapeamento_sugestao` of processar.py: from the flattened keys it proposes a mapping
 * file. Keys of the shape `prefix_<digits>[_suffix]` are grouped by the wildcard
 * `prefix_*[_suffix]`; a wildcard is proposed for every group of two or more keys; then every
 * key that no proposed wildcard fully matches gets a title-cased name of its own.
 * The final sort only orders the log lines; the dict returned keeps insertion order.
 */
module Suggestions {

  import opened Wrappers
  import opened Json
  import opened Text
  import opened Assoc
  import opened Wildcard

  /** The three groups of `^(.*?)_(\d+)(_.*)?$`; `suffix` is empty or starts with `_`. */
  datatype Indexed = Indexed(prefix: string, digits: string, suffix: string)

  /** `s[i]` can be the `_` before the index: a digit run follows, then the end of the key or `_`. */
  predicate SplitsAt(s: string, i: nat) {
    i < |s| && s[i] == '_' && exists j | i + 1 < j <= |s| :: DigitsThenEnd(s, i, j)
  }

  /** `s[i + 1..j]` is a non-empty digit run that ends the key or is followed by `_`. */
  predicate DigitsThenEnd(s: string, i: nat, j: nat) {
    i + 1 < j <= |s| && IsDigits(s[i + 1..j]) && (j == |s| || s[j] == '_')
  }

  /** Length of the digit run after position `i`. */
  function RunAfter(s: string, i: nat): (n: nat)
    requires i < |s|
    ensures i + 1 + n <= |s|
  {
    DigitRun(s[i + 1..])
  }

  /** The greedy test the regex engine makes at `i`: the longest digit run, then the end or `_`. */
  predicate EndsIndex(s: string, i: nat)
    requires i < |s|
  {
    var n := RunAfter(s, i);
    s[i] == '_' && n > 0 && (i + 1 + n == |s| || s[i + 1 + n] == '_')
  }

  lemma SplitsAtIff(s: string, i: nat)
    requires i < |s|
    ensures SplitsAt(s, i) <==> EndsIndex(s, i)
  {
    var t := s[i + 1..];
    var n := DigitRun(t);
    if SplitsAt(s, i) {
      var j: nat :| i + 1 < j <= |s| && DigitsThenEnd(s, i, j);
      var d := s[i + 1..j];
      assert IsDigits(d);
      forall k | 0 <= k < |d|
        ensures IsDigit(t[k])
      {
        assert t[k] == d[k];
      }
      DigitRunCovers(t, |d|);
      assert j < |s| ==> t[|d|] == '_';
      assert n == |d|;
    }
    if EndsIndex(s, i) {
      DigitsAfter(s, i);
    }
  }

  lemma DigitsAfter(s: string, i: nat)
    requires i < |s| && EndsIndex(s, i)
    ensures SplitsAt(s, i)
  {
    var t := s[i + 1..];
    var n := DigitRun(t);
    assert n > 0;
    var j := i + 1 + n;
    var d := s[i + 1..j];
    assert d == t[..n];
    forall k | 0 <= k < |d|
      ensures IsDigit(d[k])
    {
      assert d[k] == t[k];
    }
    assert IsDigits(d);
    assert j == |s| || s[j] == '_';
    assert DigitsThenEnd(s, i, j);
  }

  /** The first split at or after `i`. */
  function SplitFrom(s: string, i: nat): Option<Indexed>
    requires i <= |s|
    decreases |s| - i
  {
    if i == |s| then None
    else if EndsIndex(s, i) then
      var n := RunAfter(s, i);
      Some(Indexed(s[..i], s[i + 1..i + 1 + n], s[i + 1 + n..]))
    else SplitFrom(s, i + 1)
  }

  /** `re.match(r"^(.*?)_(\d+)(_.*)?$", s)` with ASCII digits: the lazy prefix takes the first split. */
  function SplitIndexed(s: string): Option<Indexed> {
    SplitFrom(s, 0)
  }

  lemma {:induction false} SplitFromSpec(s: string, i: nat)
    requires i <= |s| && forall k :: 0 <= k < i ==> !SplitsAt(s, k)
    ensures var r := SplitFrom(s, i);
      && (r.Some? ==> SplitShape(s, r.value))
      && (r.None? ==> forall k :: 0 <= k < |s| ==> !SplitsAt(s, k))
    decreases |s| - i
  {
    if i < |s| {
      SplitsAtIff(s, i);
      if EndsIndex(s, i) {
        SplitHere(s, i);
      } else {
        SplitFromSpec(s, i + 1);
      }
    }
  }

  /**
   * `s == prefix + "_" + digits + suffix` with a non-empty digit run and a suffix that is empty
   * or starts with `_`, split at the leftmost position where such a split exists.
   */
  ghost predicate SplitShape(s: string, ix: Indexed) {
    && s == ix.prefix + "_" + ix.digits + ix.suffix
    && IsDigits(ix.digits)
    && (ix.suffix == [] || ix.suffix[0] == '_')
    && SplitsAt(s, |ix.prefix|)
    && forall k :: 0 <= k < |ix.prefix| ==> !SplitsAt(s, k)
  }

  lemma SplitHere(s: string, i: nat)
    requires i < |s| && EndsIndex(s, i) && forall k :: 0 <= k < i ==> !SplitsAt(s, k)
    ensures SplitFrom(s, i).Some? && SplitShape(s, SplitFrom(s, i).value)
  {
    var n := RunAfter(s, i);
    var t := s[i + 1..];
    var ix := Indexed(s[..i], s[i + 1..i + 1 + n], s[i + 1 + n..]);
    assert SplitFrom(s, i) == Some(ix);
    assert forall k :: 0 <= k < n ==> ix.digits[k] == t[k];
    assert s == s[..i] + [s[i]] + s[i + 1..i + 1 + n] + s[i + 1 + n..];
    DigitsAfter(s, i);
  }

  /** The regex finds the leftmost split, and `None` only when the key has no split at all. */
  lemma SplitIndexedSpec(s: string)
    ensures var r := SplitIndexed(s);
      && (r.Some? ==> SplitShape(s, r.value))
      && (r.None? ==> forall k :: 0 <= k < |s| ==> !SplitsAt(s, k))
  {
    SplitFromSpec(s, 0);
  }

  /** `f"{prefixo}_*{sufixo}"` for a key that has an index. */
  function PatternOf(s: string): Option<string> {
    match SplitIndexed(s)
    case None => None
    case Some(ix) => Some(ix.prefix + "_*" + ix.suffix)
  }

  /** The wildcard of a key is never the key itself: the index has digits where the pattern has `*`. */
  lemma PatternNotKey(s: string)
    requires PatternOf(s).Some?
    ensures PatternOf(s).value != s
  {
    SplitIndexedSpec(s);
    var ix := SplitIndexed(s).value;
    var p := ix.prefix + "_*" + ix.suffix;
    var at := |ix.prefix| + 1;
    assert p[at] == '*';
    if |p| == |s| {
      assert |ix.digits| == 1;
      assert s[at] == ix.digits[0];
    }
  }

  /** `formatar_nome_sugerido` */
  function Format(k: string): string {
    Strip(ReplaceAll(ReplaceAll(ReplaceAll(Title(ReplaceAll(k, "_", " ")), "Cpf Cnpj", "CPF/CNPJ"), "Src", "SCR"), "Id ", "ID "))
  }

  lemma {:induction false} ReplaceDrops(s: string, pat: string, rep: string)
    requires |pat| == 1 && pat[0] !in rep
    ensures pat[0] !in ReplaceAll(s, pat, rep)
    decreases |s|
  {
    if |s| >= 1 {
      ReplaceDrops(s[1..], pat, rep);
      if s[..1] != pat {
        assert s[0] != pat[0] by {
          assert s[..1] == [s[0]];
        }
      }
    }
  }

  lemma {:induction false} ReplaceNoNew(s: string, pat: string, rep: string, c: char)
    requires pat != [] && c !in s && c !in rep
    ensures c !in ReplaceAll(s, pat, rep)
    decreases |s|
  {
    if |s| >= |pat| {
      if s[..|pat|] == pat {
        ReplaceNoNew(s[|pat|..], pat, rep, c);
      } else {
        ReplaceNoNew(s[1..], pat, rep, c);
      }
    }
  }

  lemma TitleAbsent(s: string)
    requires '_' !in s
    ensures '_' !in Title(s)
  {
    var t := Title(s);
    forall i | 0 <= i < |t|
      ensures t[i] != '_'
    {
      assert s[i] != '_';
    }
  }

  /** A suggested name has no underscore: they all became spaces and no replacement brings one back. */
  lemma FormatNoUnderscore(k: string)
    ensures '_' !in Format(k)
  {
    var a := Title(ReplaceAll(k, "_", " "));
    SpacedTitle(k);
    var d := ReplaceAll(ReplaceAll(ReplaceAll(a, "Cpf Cnpj", "CPF/CNPJ"), "Src", "SCR"), "Id ", "ID ");
    FixupsAbsent(a);
    StripAbsent(d);
  }

  lemma SpacedTitle(k: string)
    ensures '_' !in Title(ReplaceAll(k, "_", " "))
  {
    ReplaceDrops(k, "_", " ");
    TitleAbsent(ReplaceAll(k, "_", " "));
  }

  lemma FixupsAbsent(a: string)
    requires '_' !in a
    ensures '_' !in ReplaceAll(ReplaceAll(ReplaceAll(a, "Cpf Cnpj", "CPF/CNPJ"), "Src", "SCR"), "Id ", "ID ")
  {
    assert '_' !in "CPF/CNPJ" && '_' !in "SCR" && '_' !in "ID ";
    var b := ReplaceAll(a, "Cpf Cnpj", "CPF/CNPJ");
    ReplaceNoNew(a, "Cpf Cnpj", "CPF/CNPJ", '_');
    var c := ReplaceAll(b, "Src", "SCR");
    ReplaceNoNew(b, "Src", "SCR", '_');
    ReplaceNoNew(c, "Id ", "ID ", '_');
  }

  lemma StripAbsent(d: string)
    requires '_' !in d
    ensures '_' !in Strip(d)
  {
    var l := TrimLeft(d, IsSpace);
    assert forall x :: x in l ==> x in d;
    var r := TrimRight(l, IsSpace);
    assert forall x :: x in r ==> x in l;
  }

  const ItemTag := " (Item *)"

  predicate EndsWith(s: string, t: string) {
    |t| <= |s| && s[|s| - |t|..] == t
  }

  /** The name proposed for a wildcard, built from the first key of its group. */
  function Label(ix: Indexed): (r: string)
    ensures EndsWith(r, ItemTag)
  {
    var suffix := TrimLeft(ix.suffix, c => c == '_');
    var r := Format(ix.prefix) + (if suffix != [] then " - " + Format(suffix) else "") + ItemTag;
    assert r[|r| - |ItemTag|..] == ItemTag;
    r
  }

  /** The keys whose wildcard is `p`, in order. */
  function WithPattern(keys: seq<string>, p: string): (r: seq<string>)
    ensures |r| <= |keys|
    ensures forall x :: x in r ==> x in keys && PatternOf(x) == Some(p)
    decreases |keys|
  {
    if keys == [] then []
    else
      var last := keys[|keys| - 1];
      WithPattern(keys[..|keys| - 1], p) + (if PatternOf(last) == Some(p) then [last] else [])
  }

  /** One step of the grouping loop: an indexed key is appended to its wildcard's list. */
  function Group(g: Dict<seq<string>>, k: string): Dict<seq<string>> {
    match PatternOf(k)
    case None => g
    case Some(p) => Put(g, p, Get(g, p).GetOr([]) + [k])
  }

  /** `potential_wildcards` after the grouping loop. */
  function Groups(keys: seq<string>): Dict<seq<string>>
    decreases |keys|
  {
    if keys == [] then [] else Group(Groups(keys[..|keys| - 1]), keys[|keys| - 1])
  }

  /** Each wildcard's list holds exactly the keys with that wildcard, in key order. */
  lemma {:induction false} GroupsSpec(keys: seq<string>, p: string)
    ensures Get(Groups(keys), p) == if WithPattern(keys, p) == [] then None else Some(WithPattern(keys, p))
    decreases |keys|
  {
    if keys != [] {
      var init := keys[..|keys| - 1];
      var last := keys[|keys| - 1];
      GroupsSpec(init, p);
      var g := Groups(init);
      GroupStep(g, last, p);
      assert Groups(keys) == Group(g, last);
      var w := WithPattern(init, p);
      if PatternOf(last) == Some(p) {
        assert Get(g, p).GetOr([]) == w;
        assert WithPattern(keys, p) == w + [last];
      } else {
        assert WithPattern(keys, p) == w;
      }
    }
  }

  lemma GroupStep(g: Dict<seq<string>>, k: string, p: string)
    ensures Get(Group(g, k), p) == if PatternOf(k) == Some(p) then Some(Get(g, p).GetOr([]) + [k]) else Get(g, p)
  {
    match PatternOf(k)
    case None =>
    case Some(q) =>
      GetPut(g, q, Get(g, q).GetOr([]) + [k], p);
  }

  /** No wildcard is listed twice. */
  lemma {:induction false} GroupsDict(keys: seq<string>)
    ensures IsDict(Groups(keys))
    decreases |keys|
  {
    if keys != [] {
      var g := Groups(keys[..|keys| - 1]);
      GroupsDict(keys[..|keys| - 1]);
      match PatternOf(keys[|keys| - 1])
      case None =>
      case Some(q) =>
        PutKeepsDict(g, q, Get(g, q).GetOr([]) + [keys[|keys| - 1]]);
    }
  }

  /** The grouping loop. */
  method CollectGroups(keys: seq<string>) returns (g: Dict<seq<string>>)
    ensures g == Groups(keys)
  {
    g := [];
    for i := 0 to |keys|
      invariant g == Groups(keys[..i])
    {
      assert keys[..i + 1][..i] == keys[..i];
      var pattern := PatternOf(keys[i]);
      if pattern.Some? {
        var members := Get(g, pattern.value).GetOr([]);
        g := Put(g, pattern.value, members + [keys[i]]);
      }
    }
    assert keys[..|keys|] == keys;
  }

  /** One step of the proposal loop: a group of two or more keys proposes its wildcard. */
  function Propose(sug: Dict<string>, e: (string, seq<string>)): Dict<string> {
    if |e.1| > 1 then
      match SplitIndexed(e.1[0])
      case Some(ix) => Put(sug, e.0, Label(ix))
      case None => sug
    else sug
  }

  /** `sugestoes` after the proposal loop. */
  function Proposals(g: Dict<seq<string>>): Dict<string>
    decreases |g|
  {
    if g == [] then [] else Propose(Proposals(g[..|g| - 1]), g[|g| - 1])
  }

  /** Every listed wildcard has a non-empty list whose first key carries that wildcard. */
  ghost predicate GroupsHeaded(g: Dict<seq<string>>) {
    forall p :: HasKey(g, p) ==> Get(g, p).value != [] && PatternOf(Get(g, p).value[0]) == Some(p)
  }

  lemma GetSnoc<V>(d: Dict<V>, x: (string, V), k: string)
    requires !HasKey(d, x.0)
    ensures Get(d + [x], k) == if k == x.0 then Some(x.1) else Get(d, k)
  {
    PutFresh(d, x.0, x.1);
    GetPut(d, x.0, x.1, k);
  }

  lemma DictInit<V>(d: Dict<V>)
    requires IsDict(d) && d != []
    ensures IsDict(d[..|d| - 1]) && !HasKey(d[..|d| - 1], d[|d| - 1].0)
    ensures d == d[..|d| - 1] + [d[|d| - 1]]
  {
    var init := d[..|d| - 1];
    assert forall i :: 0 <= i < |init| ==> Keys(init)[i] == Keys(d)[i];
  }

  /**
   * The proposal loop proposes exactly the wildcards whose list has two or more keys, each
   * named after the first key of its list, with a name ending in ` (Item *)`.
   */
  lemma {:induction false} ProposalsSpec(g: Dict<seq<string>>)
    requires IsDict(g) && GroupsHeaded(g)
    ensures forall p :: HasKey(Proposals(g), p) <==> HasKey(g, p) && |Get(g, p).value| > 1
    ensures forall p :: HasKey(Proposals(g), p) ==> EndsWith(Get(Proposals(g), p).value, ItemTag)
    ensures forall p :: HasKey(Proposals(g), p) ==>
      SplitIndexed(Get(g, p).value[0]).Some?
      && Get(Proposals(g), p).value == Label(SplitIndexed(Get(g, p).value[0]).value)
    ensures IsDict(Proposals(g))
    decreases |g|
  {
    if g != [] {
      var init := g[..|g| - 1];
      var e := g[|g| - 1];
      InitHeaded(g);
      ProposalsSpec(init);
      var s := Proposals(init);
      assert Proposals(g) == Propose(s, e);
      forall p
        ensures HasKey(Proposals(g), p) <==> HasKey(g, p) && |Get(g, p).value| > 1
        ensures HasKey(Proposals(g), p) ==> EndsWith(Get(Proposals(g), p).value, ItemTag)
        ensures HasKey(Proposals(g), p) ==>
          SplitIndexed(Get(g, p).value[0]).Some?
          && Get(Proposals(g), p).value == Label(SplitIndexed(Get(g, p).value[0]).value)
      {
        GetSnoc(init, e, p);
        ProposeHas(s, e, p);
        if p != e.0 {
          ProposeGet(s, e, p);
        } else if |e.1| > 1 {
          ProposeName(s, e);
        }
      }
      ProposeDict(s, e);
    }
  }

  /** Dropping the last group keeps the others as they were; the last one is new and headed. */
  lemma InitHeaded(g: Dict<seq<string>>)
    requires IsDict(g) && GroupsHeaded(g) && g != []
    ensures IsDict(g[..|g| - 1]) && GroupsHeaded(g[..|g| - 1])
    ensures !HasKey(g[..|g| - 1], g[|g| - 1].0) && g == g[..|g| - 1] + [g[|g| - 1]]
    ensures |g[|g| - 1].1| > 1 ==> SplitIndexed(g[|g| - 1].1[0]).Some?
  {
    var init := g[..|g| - 1];
    var e := g[|g| - 1];
    DictInit(g);
    forall p | HasKey(init, p)
      ensures Get(init, p) == Get(g, p)
    {
      GetSnoc(init, e, p);
    }
    GetSnoc(init, e, e.0);
    KeysAppend(init, [e]);
    assert Keys([e]) == [e.0];
    assert HasKey(g, e.0);
  }

  /** A group of two or more keys sets its wildcard's name. */
  lemma ProposeIsPut(s: Dict<string>, e: (string, seq<string>))
    requires |e.1| > 1 && SplitIndexed(e.1[0]).Some?
    ensures Propose(s, e) == Put(s, e.0, Label(SplitIndexed(e.1[0]).value))
  {
  }

  /** One proposal step adds the group's wildcard exactly when it has two or more keys. */
  lemma ProposeHas(s: Dict<string>, e: (string, seq<string>), p: string)
    requires |e.1| > 1 ==> SplitIndexed(e.1[0]).Some?
    ensures HasKey(Propose(s, e), p) <==> HasKey(s, p) || (p == e.0 && |e.1| > 1)
  {
    if |e.1| > 1 {
      ProposeIsPut(s, e);
      HasKeyPut(s, e.0, Label(SplitIndexed(e.1[0]).value), p);
    }
  }

  /** One proposal step leaves the other wildcards' names alone. */
  lemma ProposeGet(s: Dict<string>, e: (string, seq<string>), p: string)
    requires p != e.0
    ensures Get(Propose(s, e), p) == Get(s, p)
  {
    if |e.1| > 1 && SplitIndexed(e.1[0]).Some? {
      ProposeIsPut(s, e);
      GetPut(s, e.0, Label(SplitIndexed(e.1[0]).value), p);
    }
  }

  /** The name a proposal step gives is the label of the group's first key. */
  lemma ProposeName(s: Dict<string>, e: (string, seq<string>))
    requires |e.1| > 1 && SplitIndexed(e.1[0]).Some?
    ensures Get(Propose(s, e), e.0) == Some(Label(SplitIndexed(e.1[0]).value))
  {
    ProposeIsPut(s, e);
    GetPut(s, e.0, Label(SplitIndexed(e.1[0]).value), e.0);
  }

  lemma ProposeDict(s: Dict<string>, e: (string, seq<string>))
    requires IsDict(s)
    ensures IsDict(Propose(s, e))
  {
    if |e.1| > 1 && SplitIndexed(e.1[0]).Some? {
      PutKeepsDict(s, e.0, Label(SplitIndexed(e.1[0]).value));
    }
  }

  /** The proposal loop. */
  method ProposeAll(g: Dict<seq<string>>) returns (sug: Dict<string>)
    ensures sug == Proposals(g)
  {
    sug := [];
    for i := 0 to |g|
      invariant sug == Proposals(g[..i])
    {
      assert g[..i + 1][..i] == g[..i];
      if |g[i].1| > 1 {
        var ix := SplitIndexed(g[i].1[0]);
        if ix.Some? {
          sug := Put(sug, g[i].0, Label(ix.value));
        }
      }
    }
    assert g[..|g|] == g;
  }

  /** Some wildcard among `ws` fully matches `k`. */
  predicate CoveredBy(ws: seq<string>, k: string) {
    exists i :: 0 <= i < |ws| && '*' in ws[i] && Match(ws[i], k).Some?
  }

  /**
   * The coverage loop, shared with the older version (which names keys differently): a key
   * that no wildcard among the suggestions so far matches, and that is not a suggestion yet,
   * gets `name(key)`.
   */
  function AddUncovered(sug: Dict<string>, keys: seq<string>, name: string -> string): Dict<string>
    decreases |keys|
  {
    if keys == [] then sug
    else
      var s := AddUncovered(sug, keys[..|keys| - 1], name);
      var k := keys[|keys| - 1];
      if !CoveredBy(Keys(s), k) && !HasKey(s, k) then Put(s, k, name(k)) else s
  }

  lemma CoveredGrows(ws: seq<string>, more: seq<string>, k: string)
    requires CoveredBy(ws, k)
    ensures CoveredBy(ws + more, k)
  {
    var i :| 0 <= i < |ws| && '*' in ws[i] && Match(ws[i], k).Some?;
    assert (ws + more)[i] == ws[i];
  }

  /**
   * The coverage loop keeps what it was given as a prefix, only appends input keys named by
   * `name`, and leaves every input key either suggested itself or matched by a wildcard.
   */
  lemma {:induction false} AddUncoveredSpec(sug: Dict<string>, keys: seq<string>, name: string -> string)
    ensures var r := AddUncovered(sug, keys, name);
      && |sug| <= |r| && r[..|sug|] == sug
      && (forall i :: |sug| <= i < |r| ==> r[i].0 in keys && r[i].1 == name(r[i].0))
      && (forall k :: k in keys ==> HasKey(r, k) || CoveredBy(Keys(r), k))
      && (IsDict(sug) ==> IsDict(r))
    decreases |keys|
  {
    if keys != [] {
      var init := keys[..|keys| - 1];
      var k := keys[|keys| - 1];
      AddUncoveredSpec(sug, init, name);
      var s := AddUncovered(sug, init, name);
      assert forall x :: x in keys <==> x in init || x == k;
      if !CoveredBy(Keys(s), k) && !HasKey(s, k) {
        PutFresh(s, k, name(k));
        KeysAppend(s, [(k, name(k))]);
        assert Keys([(k, name(k))]) == [k];
        forall x | x in init && !HasKey(s, x)
          ensures CoveredBy(Keys(s + [(k, name(k))]), x)
        {
          CoveredGrows(Keys(s), [k], x);
        }
        assert (s + [(k, name(k))])[..|sug|] == s[..|sug|];
        if IsDict(sug) {
          PutKeepsDict(s, k, name(k));
        }
      }
    }
  }

  /** The inner loop over the suggestions so far, stopping at the first wildcard that matches. */
  method IsCovered(ws: seq<string>, k: string) returns (covered: bool)
    ensures covered == CoveredBy(ws, k)
  {
    var i := 0;
    while i < |ws|
      invariant i <= |ws|
      invariant forall j :: 0 <= j < i ==> !('*' in ws[j] && Match(ws[j], k).Some?)
    {
      if '*' in ws[i] && Match(ws[i], k).Some? {
        return true;
      }
      i := i + 1;
    }
    return false;
  }

  /** The coverage loop. */
  method AddUncoveredKeys(sug: Dict<string>, keys: seq<string>, name: string -> string) returns (r: Dict<string>)
    ensures r == AddUncovered(sug, keys, name)
  {
    r := sug;
    for i := 0 to |keys|
      invariant r == AddUncovered(sug, keys[..i], name)
    {
      assert keys[..i + 1][..i] == keys[..i];
      var covered := IsCovered(Keys(r), keys[i]);
      if !covered && !HasKey(r, keys[i]) {
        r := Put(r, keys[i], name(keys[i]));
      }
    }
    assert keys[..|keys|] == keys;
  }

  /** The suggestions for a flattened document; none for an empty one. */
  function Suggest(flat: Dict<Scalar>): Dict<string> {
    if flat == [] then []
    else
      var keys := Keys(flat);
      AddUncovered(Proposals(Groups(keys)), keys, Format)
  }

  /** `gerar_mapeamento_sugestao` without its log lines. */
  method SuggestMapping(flat: Dict<Scalar>) returns (sug: Dict<string>)
    ensures sug == Suggest(flat)
  {
    if flat == [] {
      return [];
    }
    var keys := Keys(flat);
    var groups := CollectGroups(keys);
    sug := ProposeAll(groups);
    sug := AddUncoveredKeys(sug, keys, Format);
  }

  lemma GroupsAreHeaded(keys: seq<string>)
    ensures IsDict(Groups(keys)) && GroupsHeaded(Groups(keys))
  {
    GroupsDict(keys);
    forall p | HasKey(Groups(keys), p)
      ensures Get(Groups(keys), p).value != [] && PatternOf(Get(Groups(keys), p).value[0]) == Some(p)
    {
      GroupsSpec(keys, p);
      assert WithPattern(keys, p)[0] in WithPattern(keys, p);
    }
  }

  /** The wildcards proposed are exactly those that two or more keys share, each named `... (Item *)`. */
  lemma WildcardsProposed(keys: seq<string>)
    ensures forall p :: HasKey(Proposals(Groups(keys)), p) <==> |WithPattern(keys, p)| >= 2
    ensures forall p :: HasKey(Proposals(Groups(keys)), p) ==> EndsWith(Get(Proposals(Groups(keys)), p).value, ItemTag)
    ensures IsDict(Proposals(Groups(keys)))
  {
    GroupsAreHeaded(keys);
    ProposalsSpec(Groups(keys));
    forall p
      ensures HasKey(Groups(keys), p) && |Get(Groups(keys), p).value| > 1 <==> |WithPattern(keys, p)| >= 2
    {
      GroupsSpec(keys, p);
    }
  }

  /**
   * The suggestions: the proposed wildcards come first, exactly those that two or more keys
   * share; after them only input keys, each with its formatted name; no key twice; and every
   * input key is suggested itself or fully matched by a suggested wildcard.
   */
  lemma SuggestShape(flat: Dict<Scalar>)
    ensures var keys := Keys(flat);
      var w := Proposals(Groups(keys));
      var r := Suggest(flat);
      && IsDict(r)
      && |w| <= |r| && r[..|w|] == w
      && (forall p :: HasKey(w, p) <==> |WithPattern(keys, p)| >= 2)
      && (forall p :: HasKey(w, p) ==> EndsWith(Get(w, p).value, ItemTag))
      && (forall i :: |w| <= i < |r| ==> r[i].0 in keys && r[i].1 == Format(r[i].0))
      && (forall k :: k in keys ==> HasKey(r, k) || CoveredBy(Keys(r), k))
  {
    var keys := Keys(flat);
    WildcardsProposed(keys);
    if flat != [] {
      AddUncoveredSpec(Proposals(Groups(keys)), keys, Format);
    }
  }

  /** A key whose wildcard no other key shares gets no wildcard suggestion, only its own name. */
  lemma LoneIndexedKey(k: string, v: Scalar)
    requires PatternOf(k).Some?
    ensures Suggest([(k, v)]) == [(k, Format(k))]
    ensures !HasKey(Suggest([(k, v)]), PatternOf(k).value)
  {
    var keys := Keys([(k, v)]);
    assert keys == [k];
    var w := LoneProposals(k);
    var none: Dict<string> := [];
    assert AddUncovered(none, keys[..0], Format) == none;
    assert !CoveredBy(Keys(none), k) && !HasKey(none, k);
    assert AddUncovered(none, keys, Format) == Put(none, k, Format(k));
    PatternNotKey(k);
  }

  lemma LoneProposals(k: string) returns (w: Dict<string>)
    ensures w == Proposals(Groups([k])) && w == []
  {
    var p := PatternOf(k);
    var empty: Dict<seq<string>> := [];
    assert [k][..0] == [];
    assert Groups([k]) == Group(empty, k);
    var g := Group(empty, k);
    if p.Some? {
      assert g == Put(empty, p.value, Get(empty, p.value).GetOr([]) + [k]);
      var members: seq<string> := Get(empty, p.value).GetOr([]);
      assert members == [];
      assert members + [k] == [k];
      assert g == Put(empty, p.value, [k]);
      assert g == [(p.value, [k])];
      assert Proposals(g) == Propose(Proposals(g[..0]), g[0]);
    } else {
      assert g == [];
    }
    w := Proposals(g);
  }
}
