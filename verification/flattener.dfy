/**
 * `achatar_json` of processar.py: a nested JSON value becomes one dict from path keys to
 * scalars. Dict keys are joined with `_`, list items are numbered from 1, a list of scalars
 * collapses into one `", "`-joined string, and an empty list or a scalar without a path adds
 * nothing. Each nested result is merged with `dict.update`, so a later path overwrites an
 * earlier equal one in place.
 */
module Flattener {

  import opened Json
  import opened Text
  import opened Assoc
  import opened Wildcard

  /** Key for a list of scalars that sits at the root, where there is no path. */
  const RootScalarListKey := "lista_simples_na_raiz"

  /** `f"{prefixo_pai}_{chave}" if prefixo_pai else chave` */
  function FieldPrefix(prefix: string, key: string): string {
    if prefix != "" then prefix + "_" + key else key
  }

  /** `f"{prefixo_pai}_{i+1}"`, also when the prefix is empty. */
  function ItemPrefix(prefix: string, i: nat): string {
    prefix + "_" + NatToString(i + 1)
  }

  predicate AllScalars(items: seq<Json>) {
    forall i :: 0 <= i < |items| ==> items[i].Leaf?
  }

  /** `', '.join(map(str, items))` */
  function JoinScalars(items: seq<Json>): string
    requires AllScalars(items)
  {
    Join(seq(|items|, i requires 0 <= i < |items| => PyStr(items[i].v)), ", ")
  }

  function Width(j: Json): nat {
    match j
    case Leaf(_) => 0
    case Arr(items) => |items|
    case Obj(fields) => |fields|
  }

  function Flatten(j: Json, prefix: string): Dict<Scalar>
    decreases j, Width(j) + 1
  {
    match j
    case Leaf(v) => if prefix != "" then [(prefix, v)] else []
    case Arr(items) =>
      if items == [] then []
      else if AllScalars(items) then
        [(if prefix != "" then prefix else RootScalarListKey, Str(JoinScalars(items)))]
      else FlattenItems(j, prefix, |items|)
    case Obj(fields) => FlattenFields(j, prefix, |fields|)
  }

  /** The dict built from the first `n` entries of object `j`. */
  function FlattenFields(j: Json, prefix: string, n: nat): Dict<Scalar>
    requires j.Obj? && n <= |j.fields|
    decreases j, n
  {
    if n == 0 then []
    else
      assert j.fields[n - 1] in j.fields;
      Update(FlattenFields(j, prefix, n - 1), Flatten(j.fields[n - 1].1, FieldPrefix(prefix, j.fields[n - 1].0)))
  }

  /** The dict built from the first `n` items of list `j`. */
  function FlattenItems(j: Json, prefix: string, n: nat): Dict<Scalar>
    requires j.Arr? && n <= |j.items|
    decreases j, n
  {
    if n == 0 then []
    else
      assert j.items[n - 1] in j.items;
      Update(FlattenItems(j, prefix, n - 1), Flatten(j.items[n - 1], ItemPrefix(prefix, n - 1)))
  }

  /** A key lies under a path when it is the path itself or continues it after a `_`. */
  predicate Under(k: string, prefix: string) {
    k == prefix || StartsWith(k, prefix + "_")
  }

  /** No key is empty, and below a non-empty path every key lies under that path. */
  lemma {:induction false} FlattenKeysUnder(j: Json, prefix: string)
    ensures IsDict(Flatten(j, prefix))
    ensures forall k :: HasKey(Flatten(j, prefix), k) ==> k != "" && (prefix != "" ==> Under(k, prefix))
    decreases j, Width(j) + 1
  {
    match j
    case Leaf(_) =>
    case Arr(items) =>
      if items != [] && !AllScalars(items) {
        FlattenItemsKeysUnder(j, prefix, |items|);
      }
    case Obj(fields) =>
      FlattenFieldsKeysUnder(j, prefix, |fields|);
  }

  lemma {:induction false} FlattenFieldsKeysUnder(j: Json, prefix: string, n: nat)
    requires j.Obj? && n <= |j.fields|
    ensures IsDict(FlattenFields(j, prefix, n))
    ensures forall k :: HasKey(FlattenFields(j, prefix, n), k) ==> k != "" && (prefix != "" ==> Under(k, prefix))
    decreases j, n
  {
    if n > 0 {
      var (key, child) := j.fields[n - 1];
      assert j.fields[n - 1] in j.fields;
      var acc := FlattenFields(j, prefix, n - 1);
      var sub := Flatten(child, FieldPrefix(prefix, key));
      FlattenFieldsKeysUnder(j, prefix, n - 1);
      FlattenKeysUnder(child, FieldPrefix(prefix, key));
      UpdateKeepsDict(acc, sub);
      UpdateUnder(acc, sub, prefix, key);
    } else {
      assert |FlattenFields(j, prefix, 0)| == 0;
    }
  }

  lemma {:induction false} FlattenItemsKeysUnder(j: Json, prefix: string, n: nat)
    requires j.Arr? && n <= |j.items|
    ensures IsDict(FlattenItems(j, prefix, n))
    ensures forall k :: HasKey(FlattenItems(j, prefix, n), k) ==> k != "" && (prefix != "" ==> Under(k, prefix))
    decreases j, n
  {
    if n > 0 {
      var child := j.items[n - 1];
      assert child in j.items;
      var acc := FlattenItems(j, prefix, n - 1);
      var sub := Flatten(child, ItemPrefix(prefix, n - 1));
      FlattenItemsKeysUnder(j, prefix, n - 1);
      FlattenKeysUnder(child, ItemPrefix(prefix, n - 1));
      UpdateKeepsDict(acc, sub);
      UpdateUnder(acc, sub, prefix, NatToString(n));
    } else {
      assert |FlattenItems(j, prefix, 0)| == 0;
    }
  }

  /** Merging keys under `prefix_x` into keys under `prefix` leaves every key under `prefix`. */
  lemma UpdateUnder(acc: Dict<Scalar>, sub: Dict<Scalar>, prefix: string, x: string)
    requires forall k :: HasKey(acc, k) ==> k != "" && (prefix != "" ==> Under(k, prefix))
    requires forall k :: HasKey(sub, k) ==> k != "" && (prefix != "" ==> Under(k, prefix + "_" + x))
    ensures forall k :: HasKey(Update(acc, sub), k) ==> k != "" && (prefix != "" ==> Under(k, prefix))
  {
    UpdateKeys(acc, sub);
    forall k | HasKey(sub, k) && prefix != ""
      ensures Under(k, prefix)
    {
      UnderExtension(k, prefix, x);
    }
  }

  /** A key under `prefix_x` is under `prefix`. */
  lemma UnderExtension(k: string, prefix: string, x: string)
    requires Under(k, prefix + "_" + x)
    ensures Under(k, prefix)
  {
    assert (prefix + "_" + x)[..|prefix + "_"|] == prefix + "_";
    assert k[..|prefix + "_" + x|][..|prefix + "_"|] == k[..|prefix + "_"|];
  }

  /** A key under `prefix_x` reads `prefix`, `_`, `x`, then nothing or a `_`. */
  lemma UnderSplit(k: string, prefix: string, x: string)
    requires Under(k, prefix + "_" + x)
    ensures |prefix| + 1 + |x| <= |k|
    ensures k[|prefix| + 1..] == x + k[|prefix| + 1 + |x|..]
    ensures var r := k[|prefix| + 1 + |x|..]; r == [] || r[0] == '_'
  {
    var n := |prefix| + 1 + |x|;
    assert k[..n] == prefix + "_" + x by {
      if k != prefix + "_" + x {
        assert k[..n + 1][..n] == k[..n];
      }
    }
    assert k[|prefix| + 1..] == k[|prefix| + 1..n] + k[n..];
    assert k[|prefix| + 1..n] == (prefix + "_" + x)[|prefix| + 1..];
    if k != prefix + "_" + x {
      assert k[n] == k[..n + 1][n];
    }
  }

  /** The digit run at the start of a digit string followed by nothing or a `_` is that digit string. */
  lemma {:induction false} DigitRunOfDigits(x: string, rx: string)
    requires forall i :: 0 <= i < |x| ==> '0' <= x[i] <= '9'
    requires rx == [] || rx[0] == '_'
    ensures DigitRun(x + rx) == |x|
    decreases |x|
  {
    if x != [] {
      assert (x + rx)[1..] == x[1..] + rx;
      DigitRunOfDigits(x[1..], rx);
    }
  }

  /** Two digit strings each followed by nothing or a `_` cannot start the same text unless they are equal. */
  lemma DigitPrefixUnique(x: string, rx: string, y: string, ry: string)
    requires forall i :: 0 <= i < |x| ==> '0' <= x[i] <= '9'
    requires forall i :: 0 <= i < |y| ==> '0' <= y[i] <= '9'
    requires (rx == [] || rx[0] == '_') && (ry == [] || ry[0] == '_')
    requires x + rx == y + ry
    ensures x == y
  {
    DigitRunOfDigits(x, rx);
    DigitRunOfDigits(y, ry);
    assert x == (x + rx)[..|x|];
    assert y == (y + ry)[..|y|];
  }

  /** Keys under `prefix_<a>` and `prefix_<b>` (decimal numbers) are never shared unless `a == b`. */
  lemma NumberedApart(k: string, prefix: string, a: nat, b: nat)
    requires Under(k, prefix + "_" + NatToString(a)) && Under(k, prefix + "_" + NatToString(b))
    ensures a == b
  {
    var da, db := NatToString(a), NatToString(b);
    UnderSplit(k, prefix, da);
    UnderSplit(k, prefix, db);
    DigitPrefixUnique(da, k[|prefix| + 1 + |da|..], db, k[|prefix| + 1 + |db|..]);
    NatToStringInjective(a, b);
  }

  /** Item paths of different list positions never share a key. */
  lemma ItemsApart(k: string, prefix: string, a: nat, b: nat)
    requires Under(k, ItemPrefix(prefix, a)) && Under(k, ItemPrefix(prefix, b))
    ensures a == b
  {
    NumberedApart(k, prefix, a + 1, b + 1);
  }

  /** No key built from the first `m` items lies under the path of a later item. */
  lemma {:induction false} FlattenItemsBefore(j: Json, prefix: string, m: nat)
    requires j.Arr? && m <= |j.items|
    ensures forall k, t :: HasKey(FlattenItems(j, prefix, m), k) && m <= t ==> !Under(k, ItemPrefix(prefix, t))
    decreases m
  {
    if m > 0 {
      var child := j.items[m - 1];
      var acc := FlattenItems(j, prefix, m - 1);
      var sub := Flatten(child, ItemPrefix(prefix, m - 1));
      FlattenItemsBefore(j, prefix, m - 1);
      FlattenKeysUnder(child, ItemPrefix(prefix, m - 1));
      UpdateKeys(acc, sub);
      forall k, t | HasKey(sub, k) && m <= t && Under(k, ItemPrefix(prefix, t))
        ensures false
      {
        ItemsApart(k, prefix, m - 1, t);
      }
    }
  }

  /**
   * Items of one list never overwrite each other: each item's entries are appended, in order,
   * after those of the items before it.
   */
  lemma {:induction false} FlattenItemsAppend(j: Json, prefix: string, n: nat)
    requires j.Arr? && 0 < n <= |j.items|
    ensures FlattenItems(j, prefix, n) == FlattenItems(j, prefix, n - 1) + Flatten(j.items[n - 1], ItemPrefix(prefix, n - 1))
  {
    var acc := FlattenItems(j, prefix, n - 1);
    var child := j.items[n - 1];
    var sub := Flatten(child, ItemPrefix(prefix, n - 1));
    FlattenItemsBefore(j, prefix, n - 1);
    FlattenKeysUnder(child, ItemPrefix(prefix, n - 1));
    UpdateFresh(acc, sub);
  }

  predicate FlatFields(fields: seq<(string, Json)>) {
    (forall i :: 0 <= i < |fields| ==> fields[i].0 != "" && fields[i].1.Leaf?)
    && forall i, j :: 0 <= i < j < |fields| ==> fields[i].0 != fields[j].0
  }

  function LeafEntries(fields: seq<(string, Json)>): (d: Dict<Scalar>)
    requires forall i :: 0 <= i < |fields| ==> fields[i].1.Leaf?
    ensures |d| == |fields| && forall i :: 0 <= i < |d| ==> d[i] == (fields[i].0, fields[i].1.v)
  {
    seq(|fields|, i requires 0 <= i < |fields| => (fields[i].0, fields[i].1.v))
  }

  lemma {:induction false} FlatFieldsPrefix(fields: seq<(string, Json)>, n: nat)
    requires FlatFields(fields) && n <= |fields|
    ensures FlattenFields(Obj(fields), "", n) == LeafEntries(fields[..n])
  {
    if n > 0 {
      FlatFieldsPrefix(fields, n - 1);
      var acc := FlattenFields(Obj(fields), "", n - 1);
      var k := fields[n - 1].0;
      var v := fields[n - 1].1.v;
      assert Flatten(fields[n - 1].1, FieldPrefix("", k)) == [(k, v)];
      assert FlattenFields(Obj(fields), "", n) == Update(acc, [(k, v)]);
      LeafEntriesLack(fields, n - 1);
      PutFresh(acc, k, v);
      UpdateOne(acc, k, v);
      assert Update(acc, [(k, v)]) == acc + [(k, v)];
      LeafEntriesSnoc(fields, n - 1);
    } else {
      assert |LeafEntries(fields[..0])| == 0;
    }
  }

  /** The key of a field of a flat object is not among the entries of the fields before it. */
  lemma LeafEntriesLack(fields: seq<(string, Json)>, n: nat)
    requires FlatFields(fields) && n < |fields|
    ensures !HasKey(LeafEntries(fields[..n]), fields[n].0)
  {
    var acc := LeafEntries(fields[..n]);
    assert forall i :: 0 <= i < |acc| ==> acc[i].0 == fields[i].0 != fields[n].0;
  }

  lemma LeafEntriesSnoc(fields: seq<(string, Json)>, n: nat)
    requires FlatFields(fields) && n < |fields|
    ensures LeafEntries(fields[..n + 1]) == LeafEntries(fields[..n]) + [(fields[n].0, fields[n].1.v)]
  {
  }

  /** An already flat object with distinct non-empty keys comes out as the same entries in the same order. */
  lemma FlatObjectUnchanged(fields: seq<(string, Json)>)
    requires FlatFields(fields)
    ensures Flatten(Obj(fields), "") == LeafEntries(fields)
  {
    FlatFieldsPrefix(fields, |fields|);
    assert fields[..|fields|] == fields;
  }

  lemma UpdateOne(d: Dict<Scalar>, k: string, v: Scalar)
    ensures Update(d, [(k, v)]) == Put(d, k, v)
  {
    assert Update(d, [(k, v)]) == Update(Put(d, k, v), []);
  }

  /** An object with one scalar entry below a non-empty path flattens to that one joined key. */
  lemma OneFieldObject(key: string, v: Scalar, prefix: string)
    requires prefix != ""
    ensures Flatten(Obj([(key, Leaf(v))]), prefix) == [(prefix + "_" + key, v)]
  {
    var j := Obj([(key, Leaf(v))]);
    assert j.fields[0].1 == Leaf(v);
    assert FlattenFields(j, prefix, 1) == Update([], [(prefix + "_" + key, v)]);
    UpdateOne([], prefix + "_" + key, v);
  }

  /** Two scalar entries below a non-empty path flatten to the two joined keys, in order. */
  lemma TwoFieldObject(k1: string, v1: Scalar, k2: string, v2: Scalar, prefix: string)
    requires prefix != "" && k1 != k2
    ensures Flatten(Obj([(k1, Leaf(v1)), (k2, Leaf(v2))]), prefix) == [(prefix + "_" + k1, v1), (prefix + "_" + k2, v2)]
  {
    var j := Obj([(k1, Leaf(v1)), (k2, Leaf(v2))]);
    var e1, e2 := (prefix + "_" + k1, v1), (prefix + "_" + k2, v2);
    assert j.fields[0].1 == Leaf(v1) && j.fields[1].1 == Leaf(v2);
    assert FlattenFields(j, prefix, 1) == Update([], [e1]);
    UpdateOne([], e1.0, e1.1);
    assert FlattenFields(j, prefix, 2) == Update([e1], [e2]);
    UpdateOne([e1], e2.0, e2.1);
    assert e1.0 != e2.0 by {
      assert e1.0[|prefix| + 1..] == k1 && e2.0[|prefix| + 1..] == k2;
    }
    assert Put([e1], e2.0, e2.1) == [e1, e2];
  }

  /** A list holding a scalar and a one-entry object, below a non-empty path. */
  lemma ScalarThenObjectList(v: Scalar, key: string, w: Scalar, prefix: string)
    requires prefix != ""
    ensures Flatten(Arr([Leaf(v), Obj([(key, Leaf(w))])]), prefix) == [(prefix + "_1", v), (prefix + "_2_" + key, w)]
  {
    var inner := Obj([(key, Leaf(w))]);
    var list := Arr([Leaf(v), inner]);
    var e1, e2 := (prefix + "_1", v), (prefix + "_2_" + key, w);
    assert NatToString(1) == "1" && NatToString(2) == "2";
    assert ItemPrefix(prefix, 0) == e1.0;
    assert ItemPrefix(prefix, 1) == prefix + "_2";
    OneFieldObject(key, w, prefix + "_2");
    assert prefix + "_2" + "_" + key == e2.0;
    assert !list.items[1].Leaf?;
    assert list.items[0] == Leaf(v) && list.items[1] == inner;
    assert FlattenItems(list, prefix, 1) == Update([], [e1]);
    UpdateOne([], e1.0, e1.1);
    assert FlattenItems(list, prefix, 2) == Update([e1], [e2]);
    UpdateOne([e1], e2.0, e2.1);
    assert e1.0 != e2.0 by {
      assert e1.0[|prefix| + 1] == '1' && e2.0[|prefix| + 1] == '2';
    }
    assert Put([e1], e2.0, e2.1) == [e1, e2];
  }

  /** A root object with two entries is the update of the first entry's dict by the second's. */
  lemma TwoEntryRoot(k1: string, a: Json, k2: string, b: Json)
    ensures Flatten(Obj([(k1, a), (k2, b)]), "") == Update(Update([], Flatten(a, k1)), Flatten(b, k2))
  {
    var root := Obj([(k1, a), (k2, b)]);
    assert root.fields[0] == (k1, a) && root.fields[1] == (k2, b);
    assert FieldPrefix("", k1) == k1 && FieldPrefix("", k2) == k2;
    assert Flatten(root, "") == FlattenFields(root, "", 2);
    assert FlattenFields(root, "", 0) == [];
    assert FlattenFields(root, "", 1) == Update([], Flatten(a, k1));
    assert FlattenFields(root, "", 2) == Update(FlattenFields(root, "", 1), Flatten(b, k2));
  }

  lemma UpdateFreshPair(d1: Dict<Scalar>, d2: Dict<Scalar>)
    requires Distinct(Keys(d1 + d2))
    ensures Update(Update([], d1), d2) == d1 + d2
  {
    KeysAppend(d1, d2);
    var ks := Keys(d1 + d2);
    assert Keys(d1) == ks[..|d1|];
    assert Keys(d2) == ks[|d1|..];
    assert IsDict(d1);
    assert IsDict(d2);
    forall k | HasKey(d2, k)
      ensures !HasKey(d1, k)
    {
      var j :| 0 <= j < |d2| && Keys(d2)[j] == k;
      assert ks[|d1| + j] == k;
      assert forall i :: 0 <= i < |d1| ==> ks[i] != k;
    }
    UpdateFresh([], d1);
    assert [] + d1 == d1;
    var u := Update([], d1);
    assert u == d1;
    UpdateFresh(d1, d2);
    assert Update(u, d2) == d1 + d2;
  }

  /**
   * The shape of the module's unit test: an object of two scalars and a list holding a scalar
   * and a one-entry object flatten to four path keys, in document order.
   */
  lemma NestedShape(k1: string, a1: string, v1: Scalar, a2: string, v2: Scalar,
                    k2: string, x: Scalar, b: string, w: Scalar)
    requires k1 != "" && k2 != "" && a1 != a2
    requires Distinct([k1 + "_" + a1, k1 + "_" + a2, k2 + "_1", k2 + "_2_" + b])
    ensures Flatten(Obj([(k1, Obj([(a1, Leaf(v1)), (a2, Leaf(v2))])),
                         (k2, Arr([Leaf(x), Obj([(b, Leaf(w))])]))]), "")
         == [(k1 + "_" + a1, v1), (k1 + "_" + a2, v2), (k2 + "_1", x), (k2 + "_2_" + b, w)]
  {
    var obj := Obj([(a1, Leaf(v1)), (a2, Leaf(v2))]);
    var list := Arr([Leaf(x), Obj([(b, Leaf(w))])]);
    var d1 := [(k1 + "_" + a1, v1), (k1 + "_" + a2, v2)];
    var d2 := [(k2 + "_1", x), (k2 + "_2_" + b, w)];
    assert Flatten(obj, k1) == d1 by {
      TwoFieldObject(a1, v1, a2, v2, k1);
    }
    assert Flatten(list, k2) == d2 by {
      ScalarThenObjectList(x, b, w, k2);
    }
    assert Keys(d1 + d2) == [k1 + "_" + a1, k1 + "_" + a2, k2 + "_1", k2 + "_2_" + b];
    TwoEntryRootFresh(k1, obj, k2, list);
    assert d1 + d2 == [(k1 + "_" + a1, v1), (k1 + "_" + a2, v2), (k2 + "_1", x), (k2 + "_2_" + b, w)];
  }

  /** A root object of two entries whose dicts share no key flattens to the first dict followed by the second. */
  lemma TwoEntryRootFresh(k1: string, a: Json, k2: string, b: Json)
    requires Distinct(Keys(Flatten(a, k1) + Flatten(b, k2)))
    ensures Flatten(Obj([(k1, a), (k2, b)]), "") == Flatten(a, k1) + Flatten(b, k2)
  {
    TwoEntryRoot(k1, a, k2, b);
    UpdateFreshPair(Flatten(a, k1), Flatten(b, k2));
  }

  /** The nested document of the module's unit test flattens to the four path keys it expects. */
  lemma FlattenNestedExample()
    ensures Flatten(Obj([("key1", Obj([("subkey1", Leaf(Str("value1"))), ("subkey2", Leaf(Str("value2")))])),
                         ("key2", Arr([Leaf(Str("item1")), Obj([("subitem1", Leaf(Str("value3")))])]))]), "")
         == [("key1_subkey1", Str("value1")), ("key1_subkey2", Str("value2")),
             ("key2_1", Str("item1")), ("key2_2_subitem1", Str("value3"))]
  {
    var ks := ["key1_subkey1", "key1_subkey2", "key2_1", "key2_2_subitem1"];
    assert ks[0][5] == 's' && ks[2][5] == '1' && ks[3][5] == '2';
    assert ks[0][11] == '1' && ks[1][11] == '2';
    assert "key1" + "_" + "subkey1" == ks[0] && "key1" + "_" + "subkey2" == ks[1];
    assert "key2" + "_1" == ks[2] && "key2" + "_2_" + "subitem1" == ks[3];
    assert [("key1_subkey1", Str("value1")), ("key1_subkey2", Str("value2")),
             ("key2_1", Str("item1")), ("key2_2_subitem1", Str("value3"))]
        == [("key1" + "_" + "subkey1", Str("value1")), ("key1" + "_" + "subkey2", Str("value2")),
            ("key2" + "_1", Str("item1")), ("key2" + "_2_" + "subitem1", Str("value3"))];
    NestedShape("key1", "subkey1", Str("value1"), "subkey2", Str("value2"), "key2", Str("item1"), "subitem1", Str("value3"));
  }

  /** A list of scalars collapses into one `", "`-joined string under its path. */
  lemma FlattenScalarListExample()
    ensures Flatten(Obj([("a", Arr([Leaf(Int(1)), Leaf(Bool(true)), Leaf(Str("x"))]))]), "")
         == [("a", Str("1, True, x"))]
  {
    var items := [Leaf(Int(1)), Leaf(Bool(true)), Leaf(Str("x"))];
    var root := Obj([("a", Arr(items))]);
    assert NatToString(1) == "1";
    assert seq(|items|, i requires 0 <= i < |items| => PyStr(items[i].v)) == ["1", "True", "x"];
    assert Join(["1", "True", "x"], ", ") == "1, True, x";
    assert Flatten(Arr(items), "a") == [("a", Str("1, True, x"))];
    assert root.fields[0].1 == Arr(items);
    assert FlattenFields(root, "", 1) == Update([], [("a", Str("1, True, x"))]);
    UpdateOne([], "a", Str("1, True, x"));
  }

  /** A list of containers at the root has no path, yet its items still get `_1`, `_2`, ... */
  lemma FlattenRootListExample()
    ensures Flatten(Arr([Obj([("a", Leaf(Int(1)))]), Leaf(Null)]), "") == [("_1_a", Int(1)), ("_2", Null)]
  {
    var list := Arr([Obj([("a", Leaf(Int(1)))]), Leaf(Null)]);
    assert !list.items[0].Leaf?;
    assert NatToString(1) == "1" && NatToString(2) == "2";
    assert ItemPrefix("", 0) == "_1";
    assert ItemPrefix("", 1) == "_2";
    OneFieldObject("a", Int(1), "_1");
    assert "_1" + "_" + "a" == "_1_a";
    assert FlattenItems(list, "", 1) == Update([], [("_1_a", Int(1))]);
    UpdateOne([], "_1_a", Int(1));
    assert FlattenItems(list, "", 2) == Update([("_1_a", Int(1))], [("_2", Null)]);
    UpdateOne([("_1_a", Int(1))], "_2", Null);
    assert Put([("_1_a", Int(1))], "_2", Null) == [("_1_a", Int(1)), ("_2", Null)];
  }

  /** Two different paths that join to the same key collide, and the later value overwrites the earlier one. */
  lemma FlattenCollisionExample()
    ensures Flatten(Obj([("a_b", Leaf(Int(1))), ("a", Obj([("b", Leaf(Int(2)))]))]), "") == [("a_b", Int(2))]
  {
    var inner := Obj([("b", Leaf(Int(2)))]);
    var root := Obj([("a_b", Leaf(Int(1))), ("a", inner)]);
    assert root.fields[0].1 == Leaf(Int(1)) && root.fields[1].1 == inner;
    assert FlattenFields(root, "", 1) == Update([], [("a_b", Int(1))]);
    UpdateOne([], "a_b", Int(1));
    OneFieldObject("b", Int(2), "a");
    assert "a" + "_" + "b" == "a_b";
    assert FlattenFields(root, "", 2) == Update([("a_b", Int(1))], [("a_b", Int(2))]);
    UpdateOne([("a_b", Int(1))], "a_b", Int(2));
  }
}
