/**
 * A Python dict with string keys, as a sequence of entries in insertion order.
 * `Put` is `d[k] = v` (an existing key keeps its position), `Update` is `d.update(e)`.
 */
module Assoc {

  import opened Wrappers

  type Dict<V> = seq<(string, V)>

  function Keys<V>(d: Dict<V>): (ks: seq<string>)
    ensures |ks| == |d| && forall i :: 0 <= i < |d| ==> ks[i] == d[i].0
  {
    seq(|d|, i requires 0 <= i < |d| => d[i].0)
  }

  function Values<V>(d: Dict<V>): (vs: seq<V>)
    ensures |vs| == |d| && forall i :: 0 <= i < |d| ==> vs[i] == d[i].1
  {
    seq(|d|, i requires 0 <= i < |d| => d[i].1)
  }

  lemma KeysAppend<V>(d: Dict<V>, e: Dict<V>)
    ensures Keys(d + e) == Keys(d) + Keys(e)
  {
  }

  predicate HasKey<V>(d: Dict<V>, k: string) {
    k in Keys(d)
  }

  predicate Distinct(ks: seq<string>) {
    forall i, j :: 0 <= i < j < |ks| ==> ks[i] != ks[j]
  }

  /** A dict: no key twice. */
  predicate IsDict<V>(d: Dict<V>) {
    Distinct(Keys(d))
  }

  /** `d.get(k)` */
  function Get<V>(d: Dict<V>, k: string): (r: Option<V>)
    ensures r.Some? <==> HasKey(d, k)
  {
    if d == [] then None
    else if d[0].0 == k then Some(d[0].1)
    else (KeysHead(d); Get(d[1..], k))
  }

  /** `d[k] = v` */
  function Put<V>(d: Dict<V>, k: string, v: V): (r: Dict<V>)
    ensures Keys(r) == if HasKey(d, k) then Keys(d) else Keys(d) + [k]
  {
    if d == [] then (assert Keys([(k, v)]) == [k]; [(k, v)])
    else if d[0].0 == k then (KeysHead(d); KeysCons((k, v), d[1..]); [(k, v)] + d[1..])
    else (KeysHead(d); KeysCons(d[0], Put(d[1..], k, v)); [d[0]] + Put(d[1..], k, v))
  }

  lemma HasKeyPut<V>(d: Dict<V>, k: string, v: V, p: string)
    ensures HasKey(Put(d, k, v), p) <==> HasKey(d, p) || p == k
  {
  }

  lemma KeysCons<V>(x: (string, V), d: Dict<V>)
    ensures Keys([x] + d) == [x.0] + Keys(d)
  {
  }

  lemma KeysHead<V>(d: Dict<V>)
    requires d != []
    ensures Keys(d) == [d[0].0] + Keys(d[1..])
  {
    KeysCons(d[0], d[1..]);
    assert [d[0]] + d[1..] == d;
  }

  /** `d.update(e)` */
  function Update<V>(d: Dict<V>, e: Dict<V>): Dict<V>
    decreases |e|
  {
    if e == [] then d else Update(Put(d, e[0].0, e[0].1), e[1..])
  }

  lemma {:induction false} GetPut<V>(d: Dict<V>, k: string, v: V, k': string)
    ensures Get(Put(d, k, v), k') == if k' == k then Some(v) else Get(d, k')
  {
    if d != [] && d[0].0 != k {
      GetPut(d[1..], k, v, k');
    }
  }

  lemma PutKeepsDict<V>(d: Dict<V>, k: string, v: V)
    requires IsDict(d)
    ensures IsDict(Put(d, k, v))
  {
  }

  lemma {:induction false} UpdateKeepsDict<V>(d: Dict<V>, e: Dict<V>)
    requires IsDict(d)
    ensures IsDict(Update(d, e))
    decreases |e|
  {
    if e != [] {
      PutKeepsDict(d, e[0].0, e[0].1);
      UpdateKeepsDict(Put(d, e[0].0, e[0].1), e[1..]);
    }
  }

  /** After `d.update(e)`, a key takes its value from `e` when `e` has it, and keeps its old value otherwise. */
  lemma {:induction false} GetUpdate<V>(d: Dict<V>, e: Dict<V>, k: string)
    requires IsDict(e)
    ensures Get(Update(d, e), k) == if HasKey(e, k) then Get(e, k) else Get(d, k)
    decreases |e|
  {
    if e != [] {
      assert Keys(e) == [e[0].0] + Keys(e[1..]);
      GetUpdate(Put(d, e[0].0, e[0].1), e[1..], k);
      GetPut(d, e[0].0, e[0].1, k);
      if k == e[0].0 {
        assert !HasKey(e[1..], k);
      }
    }
  }

  /** The keys of `more` that are not in `ks`, in `more`'s order, each at its first occurrence. */
  function NewKeys(ks: seq<string>, more: seq<string>): seq<string>
    decreases |more|
  {
    if more == [] then []
    else if more[0] in ks then NewKeys(ks, more[1..])
    else [more[0]] + NewKeys(ks + [more[0]], more[1..])
  }

  /** `NewKeys` holds each key of `more` that `ks` lacks, once, and nothing else. */
  lemma {:induction false} NewKeysSpec(ks: seq<string>, more: seq<string>)
    ensures forall k :: k in NewKeys(ks, more) <==> k in more && k !in ks
    ensures Distinct(NewKeys(ks, more))
    decreases |more|
  {
    if more != [] {
      var x := more[0];
      assert more == [x] + more[1..];
      if x in ks {
        NewKeysSpec(ks, more[1..]);
      } else {
        var rest := NewKeys(ks + [x], more[1..]);
        NewKeysSpec(ks + [x], more[1..]);
        assert x !in rest;
        assert NewKeys(ks, more) == [x] + rest;
      }
    }
  }

  /** `d.update(e)` keeps the keys of `d` in place and appends the new keys of `e` in `e`'s order. */
  lemma UpdateKeys<V>(d: Dict<V>, e: Dict<V>)
    ensures Keys(Update(d, e)) == Keys(d) + NewKeys(Keys(d), Keys(e))
    ensures Keys(d) <= Keys(Update(d, e))
    ensures forall k :: HasKey(Update(d, e), k) <==> HasKey(d, k) || HasKey(e, k)
  {
    UpdateKeyOrder(d, e);
    UpdateHasKey(d, e);
  }

  lemma {:induction false} UpdateHasKey<V>(d: Dict<V>, e: Dict<V>)
    ensures Keys(d) <= Keys(Update(d, e))
    ensures forall k :: HasKey(Update(d, e), k) <==> HasKey(d, k) || HasKey(e, k)
    decreases |e|
  {
    if e != [] {
      assert Keys(e) == [e[0].0] + Keys(e[1..]);
      UpdateHasKey(Put(d, e[0].0, e[0].1), e[1..]);
    }
  }

  lemma {:induction false} UpdateKeyOrder<V>(d: Dict<V>, e: Dict<V>)
    ensures Keys(Update(d, e)) == Keys(d) + NewKeys(Keys(d), Keys(e))
    decreases |e|
  {
    if e == [] {
      assert Keys(e) == [];
    } else {
      var d' := Put(d, e[0].0, e[0].1);
      KeysHead(e);
      UpdateKeyOrder(d', e[1..]);
      assert Update(d, e) == Update(d', e[1..]);
      NewKeysStep(Keys(d), Keys(d'), e[0].0, Keys(e[1..]), Keys(Update(d, e)));
    }
  }

  /** One step of `update`: setting key `k` and then adding the keys of `more` adds the keys of `[k] + more`. */
  lemma NewKeysStep(ks: seq<string>, ks': seq<string>, k: string, more: seq<string>, r: seq<string>)
    requires ks' == if k in ks then ks else ks + [k]
    requires r == ks' + NewKeys(ks', more)
    ensures r == ks + NewKeys(ks, [k] + more)
  {
    NewKeysCons(ks, k, more);
    if k !in ks {
      var added := NewKeys(ks + [k], more);
      assert NewKeys(ks, [k] + more) == [k] + added;
      assert r == (ks + [k]) + added;
      assert (ks + [k]) + added == ks + ([k] + added);
    }
  }

  lemma NewKeysCons(ks: seq<string>, k: string, more: seq<string>)
    ensures k in ks ==> NewKeys(ks, [k] + more) == NewKeys(ks, more)
    ensures k !in ks ==> NewKeys(ks, [k] + more) == [k] + NewKeys(ks + [k], more)
  {
    assert ([k] + more)[0] == k && ([k] + more)[1..] == more;
  }

  /** Setting a key the dict does not have appends the entry. */
  lemma {:induction false} PutFresh<V>(d: Dict<V>, k: string, v: V)
    requires !HasKey(d, k)
    ensures Put(d, k, v) == d + [(k, v)]
  {
    if d != [] {
      KeysHead(d);
      assert d[0].0 != k && !HasKey(d[1..], k);
      PutFresh(d[1..], k, v);
      assert Put(d, k, v) == [d[0]] + Put(d[1..], k, v);
      ConsAppend(d, (k, v));
    } else {
      assert Put(d, k, v) == [(k, v)];
    }
  }

  /** Updating with a dict whose keys are all new appends its entries in order. */
  lemma {:induction false} UpdateFresh<V>(d: Dict<V>, e: Dict<V>)
    requires IsDict(e)
    requires forall k :: HasKey(e, k) ==> !HasKey(d, k)
    ensures Update(d, e) == d + e
    decreases |e|
  {
    if e != [] {
      assert HasKey(e, e[0].0);
      PutFresh(d, e[0].0, e[0].1);
      assert Put(d, e[0].0, e[0].1) == d + [e[0]];
      FreshTail(d, e);
      UpdateFresh(d + [e[0]], e[1..]);
      assert Update(d, e) == Update(d + [e[0]], e[1..]);
      SplitHead(d, e);
    } else {
      assert Update(d, e) == d;
    }
  }

  lemma ConsAppend<T>(d: seq<T>, x: T)
    requires d != []
    ensures [d[0]] + (d[1..] + [x]) == d + [x]
  {
    assert [d[0]] + d[1..] == d;
  }

  lemma SplitHead<T>(d: seq<T>, e: seq<T>)
    requires e != []
    ensures d + [e[0]] + e[1..] == d + e
  {
    assert [e[0]] + e[1..] == e;
  }

  lemma FreshTail<V>(d: Dict<V>, e: Dict<V>)
    requires e != [] && IsDict(e)
    requires forall k :: HasKey(e, k) ==> !HasKey(d, k)
    ensures IsDict(e[1..])
    ensures forall k :: HasKey(e[1..], k) ==> !HasKey(d + [e[0]], k)
  {
    KeysHead(e);
    DistinctTail(Keys(e));
    assert Keys(e)[1..] == Keys(e[1..]) && Keys(e)[0] == e[0].0;
    KeysAppend(d, [e[0]]);
    assert Keys([e[0]]) == [e[0].0];
    forall k | HasKey(e[1..], k)
      ensures !HasKey(d + [e[0]], k)
    {
      assert k in Keys(e);
      assert k != e[0].0 && !HasKey(d, k);
      assert Keys(d + [e[0]]) == Keys(d) + [e[0].0];
    }
  }

  lemma DistinctTail(ks: seq<string>)
    requires ks != [] && Distinct(ks)
    ensures Distinct(ks[1..]) && ks[0] !in ks[1..]
  {
  }
}
