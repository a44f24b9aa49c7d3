/**
 * `achatar_json` of testedeprocessar.py, the older variant of the flattener. It differs from
 * the current one in two places: list items are numbered from 0, and an empty list is not
 * dropped but stored as the text `"[]"`. At the root, its fallback keys are
 * `lista_raiz_vazia` and `lista_raiz_simples`.
 */
module LegacyFlattener {

  import opened Json
  import opened Text
  import opened Assoc
  import F = Flattener

  const RootEmptyListKey := "lista_raiz_vazia"
  const RootScalarListKey := "lista_raiz_simples"

  /** `f"{prefixo_pai}_{i}"` */
  function ItemPrefix(prefix: string, i: nat): string {
    prefix + "_" + NatToString(i)
  }

  function Flatten(j: Json, prefix: string): Dict<Scalar>
    decreases j, F.Width(j) + 1
  {
    match j
    case Leaf(v) => if prefix != "" then [(prefix, v)] else []
    case Arr(items) =>
      if items == [] then [(if prefix != "" then prefix else RootEmptyListKey, Str("[]"))]
      else if !F.AllScalars(items) then FlattenItems(j, prefix, |items|)
      else [(if prefix != "" then prefix else RootScalarListKey, Str(F.JoinScalars(items)))]
    case Obj(fields) => FlattenFields(j, prefix, |fields|)
  }

  function FlattenFields(j: Json, prefix: string, n: nat): Dict<Scalar>
    requires j.Obj? && n <= |j.fields|
    decreases j, n
  {
    if n == 0 then []
    else
      assert j.fields[n - 1] in j.fields;
      Update(FlattenFields(j, prefix, n - 1), Flatten(j.fields[n - 1].1, F.FieldPrefix(prefix, j.fields[n - 1].0)))
  }

  function FlattenItems(j: Json, prefix: string, n: nat): Dict<Scalar>
    requires j.Arr? && n <= |j.items|
    decreases j, n
  {
    if n == 0 then []
    else
      assert j.items[n - 1] in j.items;
      Update(FlattenItems(j, prefix, n - 1), Flatten(j.items[n - 1], ItemPrefix(prefix, n - 1)))
  }

  /** No key is empty, and below a non-empty path every key lies under that path. */
  lemma {:induction false} FlattenKeysUnder(j: Json, prefix: string)
    ensures IsDict(Flatten(j, prefix))
    ensures forall k :: HasKey(Flatten(j, prefix), k) ==> k != "" && (prefix != "" ==> F.Under(k, prefix))
    decreases j, F.Width(j) + 1
  {
    match j
    case Leaf(_) =>
    case Arr(items) =>
      if items != [] && !F.AllScalars(items) {
        FlattenItemsKeysUnder(j, prefix, |items|);
      }
    case Obj(fields) =>
      FlattenFieldsKeysUnder(j, prefix, |fields|);
  }

  lemma {:induction false} FlattenFieldsKeysUnder(j: Json, prefix: string, n: nat)
    requires j.Obj? && n <= |j.fields|
    ensures IsDict(FlattenFields(j, prefix, n))
    ensures forall k :: HasKey(FlattenFields(j, prefix, n), k) ==> k != "" && (prefix != "" ==> F.Under(k, prefix))
    decreases j, n
  {
    if n > 0 {
      var (key, child) := j.fields[n - 1];
      assert j.fields[n - 1] in j.fields;
      var acc := FlattenFields(j, prefix, n - 1);
      var sub := Flatten(child, F.FieldPrefix(prefix, key));
      FlattenFieldsKeysUnder(j, prefix, n - 1);
      FlattenKeysUnder(child, F.FieldPrefix(prefix, key));
      UpdateKeepsDict(acc, sub);
      F.UpdateUnder(acc, sub, prefix, key);
    } else {
      assert |FlattenFields(j, prefix, 0)| == 0;
    }
  }

  lemma {:induction false} FlattenItemsKeysUnder(j: Json, prefix: string, n: nat)
    requires j.Arr? && n <= |j.items|
    ensures IsDict(FlattenItems(j, prefix, n))
    ensures forall k :: HasKey(FlattenItems(j, prefix, n), k) ==> k != "" && (prefix != "" ==> F.Under(k, prefix))
    decreases j, n
  {
    if n > 0 {
      var child := j.items[n - 1];
      assert child in j.items;
      var acc := FlattenItems(j, prefix, n - 1);
      var sub := Flatten(child, ItemPrefix(prefix, n - 1));
      FlattenItemsKeysUnder(j, prefix, n - 1);
      FlattenKeysUnder(child, ItemPrefix(prefix, n - 1));
      UpdateKeepsDict(acc, sub);
      F.UpdateUnder(acc, sub, prefix, NatToString(n - 1));
    } else {
      assert |FlattenItems(j, prefix, 0)| == 0;
    }
  }

  /** No key built from the first `m` items lies under the path of a later item. */
  lemma {:induction false} FlattenItemsBefore(j: Json, prefix: string, m: nat)
    requires j.Arr? && m <= |j.items|
    ensures forall k, t :: HasKey(FlattenItems(j, prefix, m), k) && m <= t ==> !F.Under(k, ItemPrefix(prefix, t))
    decreases m
  {
    if m > 0 {
      var child := j.items[m - 1];
      var acc := FlattenItems(j, prefix, m - 1);
      var sub := Flatten(child, ItemPrefix(prefix, m - 1));
      FlattenItemsBefore(j, prefix, m - 1);
      FlattenKeysUnder(child, ItemPrefix(prefix, m - 1));
      UpdateKeys(acc, sub);
      forall k, t | HasKey(sub, k) && m <= t && F.Under(k, ItemPrefix(prefix, t))
        ensures false
      {
        F.NumberedApart(k, prefix, m - 1, t);
      }
    }
  }

  /** As in the current version, items of one list never overwrite each other. */
  lemma {:induction false} FlattenItemsAppend(j: Json, prefix: string, n: nat)
    requires j.Arr? && 0 < n <= |j.items|
    ensures FlattenItems(j, prefix, n) == FlattenItems(j, prefix, n - 1) + Flatten(j.items[n - 1], ItemPrefix(prefix, n - 1))
  {
    var acc := FlattenItems(j, prefix, n - 1);
    var child := j.items[n - 1];
    var sub := Flatten(child, ItemPrefix(prefix, n - 1));
    FlattenItemsBefore(j, prefix, n - 1);
    FlattenKeysUnder(child, ItemPrefix(prefix, n - 1));
    UpdateFresh(acc, sub);
  }

  /** A value with no list anywhere in it. */
  predicate NoLists(j: Json)
    decreases j
  {
    match j
    case Leaf(_) => true
    case Arr(_) => false
    case Obj(fields) => forall i :: 0 <= i < |fields| ==> (assert fields[i] in fields; NoLists(fields[i].1))
  }

  /** On values without lists the two versions of the flattener give the same dict. */
  lemma {:induction false} AgreesWithoutLists(j: Json, prefix: string)
    requires NoLists(j)
    ensures Flatten(j, prefix) == F.Flatten(j, prefix)
    decreases j, F.Width(j) + 1
  {
    if j.Obj? {
      FieldsAgreeWithoutLists(j, prefix, |j.fields|);
    }
  }

  lemma {:induction false} FieldsAgreeWithoutLists(j: Json, prefix: string, n: nat)
    requires j.Obj? && n <= |j.fields| && NoLists(j)
    ensures FlattenFields(j, prefix, n) == F.FlattenFields(j, prefix, n)
    decreases j, n
  {
    if n > 0 {
      assert j.fields[n - 1] in j.fields;
      FieldsAgreeWithoutLists(j, prefix, n - 1);
      var (key, child) := j.fields[n - 1];
      assert NoLists(child);
      AgreesWithoutLists(child, F.FieldPrefix(prefix, key));
      assert FlattenFields(j, prefix, n) == Update(FlattenFields(j, prefix, n - 1), Flatten(child, F.FieldPrefix(prefix, key)));
      assert F.FlattenFields(j, prefix, n) == Update(F.FlattenFields(j, prefix, n - 1), F.Flatten(child, F.FieldPrefix(prefix, key)));
    } else {
      assert FlattenFields(j, prefix, 0) == [] == F.FlattenFields(j, prefix, 0);
    }
  }

  /** An empty list is kept as the text `"[]"`, where the current version drops it. */
  lemma EmptyListKept(prefix: string)
    requires prefix != ""
    ensures Flatten(Arr([]), prefix) == [(prefix, Str("[]"))]
    ensures F.Flatten(Arr([]), prefix) == []
  {
  }

  /** The same one-item list of objects is numbered `_0` here and `_1` in the current version. */
  lemma ItemNumberingExample()
    ensures Flatten(Arr([Obj([("b", Leaf(Int(7)))])]), "a") == [("a_0_b", Int(7))]
    ensures F.Flatten(Arr([Obj([("b", Leaf(Int(7)))])]), "a") == [("a_1_b", Int(7))]
  {
    var inner := Obj([("b", Leaf(Int(7)))]);
    var list := Arr([inner]);
    assert !list.items[0].Leaf?;
    assert NatToString(0) == "0" && NatToString(1) == "1";
    assert ItemPrefix("a", 0) == "a_0" && F.ItemPrefix("a", 0) == "a_1";
    assert inner.fields[0].1 == Leaf(Int(7));
    assert F.FieldPrefix("a_0", "b") == "a_0_b";
    assert Flatten(Leaf(Int(7)), "a_0_b") == [("a_0_b", Int(7))];
    assert FlattenFields(inner, "a_0", 1) == Update([], [("a_0_b", Int(7))]);
    F.UpdateOne([], "a_0_b", Int(7));
    assert FlattenItems(list, "a", 1) == Update([], [("a_0_b", Int(7))]);
    F.OneFieldObject("b", Int(7), "a_1");
    assert "a_1" + "_" + "b" == "a_1_b";
    assert F.FlattenItems(list, "a", 1) == Update([], [("a_1_b", Int(7))]);
  }
}
