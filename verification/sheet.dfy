/**
 * The sheet loop of the Excel filler, in both versions (`preencher_excel_novo_com_placeholders`):
 * with an empty data document the template is kept as it is; otherwise every cell of the
 * selected sheet, row by row, goes through the version's cell substitution, and the
 * substitutions of all cells are added up.
 */
module Sheet {

  import opened Json
  import opened Assoc
  import F = TemplateFill
  import L = LegacyFill
  import T = Template

  /** processar.py or testedeprocessar.py. */
  datatype Version = Current | Legacy

  /** The version's substitution for one cell. */
  function FillCell(ver: Version, cell: Scalar, doc: Dict<Scalar>, na: bool): F.Filled {
    match ver
    case Current => F.FillCell(cell, doc, na)
    case Legacy => L.FillCell(cell, doc, na)
  }

  /** Row `i` of a sheet. */
  function Row(a: array2<Scalar>, i: nat): (r: seq<Scalar>)
    requires i < a.Length0
    reads a
    ensures |r| == a.Length1
    ensures forall j :: 0 <= j < a.Length1 ==> r[j] == a[i, j]
  {
    seq(a.Length1, j requires 0 <= j < a.Length1 reads a => a[i, j])
  }

  /** The cells of a sheet, row by row. */
  function Cells(a: array2<Scalar>): (r: seq<seq<Scalar>>)
    reads a
    ensures |r| == a.Length0
    ensures forall i :: 0 <= i < a.Length0 ==> r[i] == Row(a, i)
  {
    seq(a.Length0, i requires 0 <= i < a.Length0 reads a => Row(a, i))
  }

  /** Substitutions counted over a row. */
  function RowCount(ver: Version, row: seq<Scalar>, doc: Dict<Scalar>, na: bool): nat
    decreases |row|
  {
    if row == [] then 0
    else RowCount(ver, row[..|row| - 1], doc, na) + FillCell(ver, row[|row| - 1], doc, na).count
  }

  /** Substitutions counted over a sheet. */
  function GridCount(ver: Version, rows: seq<seq<Scalar>>, doc: Dict<Scalar>, na: bool): nat
    decreases |rows|
  {
    if rows == [] then 0
    else GridCount(ver, rows[..|rows| - 1], doc, na) + RowCount(ver, rows[|rows| - 1], doc, na)
  }

  /** A cell counted as not substituted is left as it was, in both versions. */
  lemma NoCountNoChange(ver: Version, cell: Scalar, doc: Dict<Scalar>, na: bool)
    ensures FillCell(ver, cell, doc, na).count == 0 ==> FillCell(ver, cell, doc, na).cell == cell
  {
    match ver
    case Current =>
      if cell.Str? && cell.s != [] && !T.IsToken(T.Current, cell.s) {
        F.FillCount(cell.s, doc, na);
      } else if cell.Str? && cell.s != [] {
        F.FillWhole(cell.s, doc, na);
      }
    case Legacy => L.NoCountNoChange(cell, doc, na);
  }

  /** A row that counts nothing is left as it was. */
  lemma {:induction false} ZeroRow(ver: Version, row: seq<Scalar>, doc: Dict<Scalar>, na: bool)
    requires RowCount(ver, row, doc, na) == 0
    ensures forall j :: 0 <= j < |row| ==> FillCell(ver, row[j], doc, na).cell == row[j]
    decreases |row|
  {
    if row != [] {
      var init := row[..|row| - 1];
      ZeroRow(ver, init, doc, na);
      NoCountNoChange(ver, row[|row| - 1], doc, na);
      forall j | 0 <= j < |row| - 1
        ensures FillCell(ver, row[j], doc, na).cell == row[j]
      {
        assert row[j] == init[j];
      }
    }
  }

  /** A sheet that counts nothing is left as it was. */
  lemma {:induction false} ZeroGrid(ver: Version, rows: seq<seq<Scalar>>, doc: Dict<Scalar>, na: bool)
    requires GridCount(ver, rows, doc, na) == 0
    ensures forall i, j :: 0 <= i < |rows| && 0 <= j < |rows[i]| ==> FillCell(ver, rows[i][j], doc, na).cell == rows[i][j]
    decreases |rows|
  {
    if rows != [] {
      var init := rows[..|rows| - 1];
      ZeroGrid(ver, init, doc, na);
      ZeroRow(ver, rows[|rows| - 1], doc, na);
      forall i, j | 0 <= i < |rows| - 1 && 0 <= j < |rows[i]|
        ensures FillCell(ver, rows[i][j], doc, na).cell == rows[i][j]
      {
        assert rows[i] == init[i];
      }
    }
  }

  /** The version's cell substitution. */
  method SubstituteCell(ver: Version, cell: Scalar, doc: Dict<Scalar>, na: bool) returns (r: F.Filled)
    ensures r == FillCell(ver, cell, doc, na)
  {
    match ver
    case Current => r := F.SubstituteCell(cell, doc, na);
    case Legacy => r := L.SubstituteCell(cell, doc, na);
  }

  /** One cell of the sheet, substituted in place. */
  method FillAt(ver: Version, sheet: array2<Scalar>, i: nat, j: nat, doc: Dict<Scalar>, na: bool) returns (c: nat)
    requires i < sheet.Length0 && j < sheet.Length1
    modifies sheet
    ensures sheet[i, j] == FillCell(ver, old(sheet[i, j]), doc, na).cell
    ensures c == FillCell(ver, old(sheet[i, j]), doc, na).count
    ensures forall i', j' :: 0 <= i' < sheet.Length0 && 0 <= j' < sheet.Length1 && (i' != i || j' != j) ==>
      sheet[i', j'] == old(sheet[i', j'])
  {
    var f := SubstituteCell(ver, sheet[i, j], doc, na);
    sheet[i, j] := f.cell;
    c := f.count;
  }

  /** The cell loop over row `i`, which holds `orig`; the other rows are left as they are. */
  method FillRow(ver: Version, sheet: array2<Scalar>, i: nat, ghost orig: seq<Scalar>, doc: Dict<Scalar>, na: bool) returns (n: nat)
    requires i < sheet.Length0 && |orig| == sheet.Length1
    requires forall j :: 0 <= j < sheet.Length1 ==> sheet[i, j] == orig[j]
    modifies sheet
    ensures n == RowCount(ver, orig, doc, na)
    ensures forall j :: 0 <= j < sheet.Length1 ==> sheet[i, j] == FillCell(ver, orig[j], doc, na).cell
    ensures forall i', j :: 0 <= i' < sheet.Length0 && i' != i && 0 <= j < sheet.Length1 ==>
      sheet[i', j] == old(sheet[i', j])
  {
    n := 0;
    for j := 0 to sheet.Length1
      invariant n == RowCount(ver, orig[..j], doc, na)
      invariant forall j' :: 0 <= j' < j ==> sheet[i, j'] == FillCell(ver, orig[j'], doc, na).cell
      invariant forall j' :: j <= j' < sheet.Length1 ==> sheet[i, j'] == orig[j']
      invariant forall i', j' :: 0 <= i' < sheet.Length0 && i' != i && 0 <= j' < sheet.Length1 ==>
        sheet[i', j'] == old(sheet[i', j'])
    {
      assert orig[..j + 1][..j] == orig[..j];
      var c := FillAt(ver, sheet, i, j, doc, na);
      n := n + c;
    }
    assert orig[..sheet.Length1] == orig;
  }

  /** The row loop over a sheet with a non-empty document. */
  method FillRows(ver: Version, sheet: array2<Scalar>, doc: Dict<Scalar>, na: bool) returns (total: nat)
    modifies sheet
    ensures total == GridCount(ver, old(Cells(sheet)), doc, na)
    ensures forall i, j :: 0 <= i < sheet.Length0 && 0 <= j < sheet.Length1 ==>
      sheet[i, j] == FillCell(ver, old(sheet[i, j]), doc, na).cell
  {
    total := 0;
    ghost var orig := Cells(sheet);
    for i := 0 to sheet.Length0
      invariant total == GridCount(ver, orig[..i], doc, na)
      invariant forall i', j :: 0 <= i' < i && 0 <= j < sheet.Length1 ==>
        sheet[i', j] == FillCell(ver, orig[i'][j], doc, na).cell
      invariant forall i', j :: i <= i' < sheet.Length0 && 0 <= j < sheet.Length1 ==> sheet[i', j] == orig[i'][j]
    {
      var n := FillRow(ver, sheet, i, orig[i], doc, na);
      total := total + n;
      assert orig[..i + 1][..i] == orig[..i];
    }
    assert orig[..sheet.Length0] == orig;
  }

  /**
   * The sheet loop. An empty document leaves the sheet as it is; otherwise every cell becomes
   * its substitution and the total is the count over the sheet. A total of zero (the "nothing
   * substituted" warning) means the sheet is unchanged.
   */
  method FillSheet(ver: Version, sheet: array2<Scalar>, doc: Dict<Scalar>, na: bool) returns (total: nat)
    modifies sheet
    ensures doc == [] ==> total == 0
    ensures doc != [] ==> total == GridCount(ver, old(Cells(sheet)), doc, na)
    ensures doc != [] ==> forall i, j :: 0 <= i < sheet.Length0 && 0 <= j < sheet.Length1 ==>
      sheet[i, j] == FillCell(ver, old(sheet[i, j]), doc, na).cell
    ensures total == 0 ==> forall i, j :: 0 <= i < sheet.Length0 && 0 <= j < sheet.Length1 ==>
      sheet[i, j] == old(sheet[i, j])
  {
    if doc == [] {
      return 0;
    }
    ghost var orig := Cells(sheet);
    total := FillRows(ver, sheet, doc, na);
    if total == 0 {
      ZeroGrid(ver, orig, doc, na);
      forall i, j | 0 <= i < sheet.Length0 && 0 <= j < sheet.Length1
        ensures sheet[i, j] == old(sheet[i, j])
      {
        assert orig[i][j] == old(sheet[i, j]);
      }
    }
  }
}
