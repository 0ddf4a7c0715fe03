/** The roster sheet: the rows the register reads and writes, the grid of cells the
    spreadsheet holds (a header row, then one row per record, atendimentos.py:27-29),
    how the records are read back from that grid (atendimentos.py:21-24), and the
    lookup of the first record carrying an identifier (atendimentos.py:35, :39). */
module Roster {
  import opened Options

  /** One record: the columns MATRICULA, NOME, SETOR, DIVISÃO and ATENDIMENTO. An
      empty `atendimento` means the employee has not been attended yet. */
  datatype Row = Row(matricula: int, nome: string, setor: string, divisao: string, atendimento: string)

  /** A spreadsheet cell as the sheet reports it: a number or a text. */
  datatype Cell = Num(n: int) | Text(s: string)

  const Header: seq<Cell> :=
    [Text("MATRICULA"), Text("NOME"), Text("SETOR"), Text("DIVIS\U{C3}O"), Text("ATENDIMENTO")]

  /** The column of ATENDIMENTO in the header and in every row. */
  const StampColumn: nat := 4

  predicate Attended(r: Row) {
    r.atendimento != ""
  }

  // ---------------------------------------------------------------- the lookup

  /** `k` is the first position, in table order, whose MATRICULA is `id`. */
  predicate IsFirst(rows: seq<Row>, id: int, k: int) {
    && 0 <= k < |rows|
    && rows[k].matricula == id
    && forall j :: 0 <= j < k ==> rows[j].matricula != id
  }

  /** `df.index[df["MATRICULA"] == id][0]`, guarded by the membership test that
      precedes it: the first row with that identifier, or `None` if there is none. */
  function FirstIndex(rows: seq<Row>, id: int): (r: Option<nat>)
    ensures r.None? <==> forall j :: 0 <= j < |rows| ==> rows[j].matricula != id
    ensures r.Some? ==> IsFirst(rows, id, r.value)
  {
    if rows == [] then None
    else if rows[0].matricula == id then Some(0)
    else match FirstIndex(rows[1..], id)
      case None => None
      case Some(k) => Some(k + 1)
  }

  /** The first match is the only position with the `IsFirst` property. */
  lemma FirstIsUnique(rows: seq<Row>, id: int, k: int, k': int)
    requires IsFirst(rows, id, k) && IsFirst(rows, id, k')
    ensures k == k'
  {
  }

  /** Rewriting a record's ATENDIMENTO leaves every identifier where it was, so the
      lookup finds the same row afterwards. */
  lemma FirstIndexAfterStamp(rows: seq<Row>, id: int, k: int, stamp: string, id': int)
    requires 0 <= k < |rows|
    ensures FirstIndex(rows[k := rows[k].(atendimento := stamp)], id') == FirstIndex(rows, id')
  {
    var rows' := rows[k := rows[k].(atendimento := stamp)];
    assert forall j :: 0 <= j < |rows| ==> rows'[j].matricula == rows[j].matricula;
    match FirstIndex(rows, id')
    case None =>
    case Some(i) =>
      assert IsFirst(rows', id', i);
      FirstIsUnique(rows', id', i, FirstIndex(rows', id').value);
  }

  // --------------------------------------------- the lookup as the source has it

  /** What reading the MATRICULA column of the loaded table yields. */
  datatype ColumnRead = KeyError | Column(first: Option<nat>)

  /** Lines 35 and 39 exactly as written. The table is built from the sheet's records;
      built from no records at all it has no columns, so reading its MATRICULA column
      raises KeyError instead of reporting an unknown identifier. */
  function LookupAsWritten(rows: seq<Row>, id: int): (r: ColumnRead)
    ensures r == KeyError <==> rows == []
    ensures r.Column? ==> r.first == FirstIndex(rows, id)
  {
    if rows == [] then KeyError else Column(FirstIndex(rows, id))
  }

  /** On a roster with only its header row the lookup as written raises, although the
      identifier is unknown and the corrected lookup reports exactly that. */
  lemma EmptyRosterRaises(id: int)
    ensures LookupAsWritten([], id) == KeyError
    ensures FirstIndex([], id) == None
  {
  }

  /** On every other roster the two lookups agree. */
  lemma LookupAgrees(rows: seq<Row>, id: int)
    requires rows != []
    ensures LookupAsWritten(rows, id) == Column(FirstIndex(rows, id))
  {
  }

  // ------------------------------------------------------- the grid of cells

  function EncodeRow(r: Row): (cells: seq<Cell>)
    ensures |cells| == |Header|
  {
    [Num(r.matricula), Text(r.nome), Text(r.setor), Text(r.divisao), Text(r.atendimento)]
  }

  function DecodeRow(cells: seq<Cell>): Option<Row> {
    if |cells| == 5 && cells[0].Num? && cells[1].Text? && cells[2].Text?
       && cells[3].Text? && cells[4].Text?
    then Some(Row(cells[0].n, cells[1].s, cells[2].s, cells[3].s, cells[4].s))
    else None
  }

  function EncodeRows(rows: seq<Row>): (g: seq<seq<Cell>>)
    ensures |g| == |rows|
    ensures forall i :: 0 <= i < |rows| ==> g[i] == EncodeRow(rows[i])
  {
    if rows == [] then [] else [EncodeRow(rows[0])] + EncodeRows(rows[1..])
  }

  function DecodeRows(g: seq<seq<Cell>>): Option<seq<Row>> {
    if g == [] then Some([])
    else match (DecodeRow(g[0]), DecodeRows(g[1..]))
      case (Some(r), Some(rest)) => Some([r] + rest)
      case _ => None
  }

  /** What `salvar_base` writes over the whole sheet: the header row, then every
      record in table order. */
  function Encode(rows: seq<Row>): (g: seq<seq<Cell>>)
    ensures |g| == |rows| + 1 && g[0] == Header
    ensures forall i :: 0 <= i < |rows| ==> g[i + 1] == EncodeRow(rows[i])
  {
    [Header] + EncodeRows(rows)
  }

  /** What `carregar_base` reads from the sheet: the records under a header with the
      five columns, or `None` for a sheet this model does not describe. */
  function Decode(g: seq<seq<Cell>>): Option<seq<Row>> {
    if g != [] && g[0] == Header then DecodeRows(g[1..]) else None
  }

  lemma {:induction false} DecodeRowsEncodeRows(rows: seq<Row>)
    ensures DecodeRows(EncodeRows(rows)) == Some(rows)
  {
    if rows != [] {
      var g := EncodeRows(rows);
      assert g[1..] == EncodeRows(rows[1..]);
      DecodeRowsEncodeRows(rows[1..]);
      assert [rows[0]] + rows[1..] == rows;
    }
  }

  lemma {:induction false} EncodeRowsDecodeRows(g: seq<seq<Cell>>)
    requires DecodeRows(g).Some?
    ensures EncodeRows(DecodeRows(g).value) == g
  {
    if g != [] {
      EncodeRowsDecodeRows(g[1..]);
      var rows := DecodeRows(g).value;
      assert rows[1..] == DecodeRows(g[1..]).value;
      assert EncodeRow(rows[0]) == g[0];
    }
  }

  /** Reading back what was written gives the same records in the same order. */
  lemma DecodeEncode(rows: seq<Row>)
    ensures Decode(Encode(rows)) == Some(rows)
  {
    assert Encode(rows)[1..] == EncodeRows(rows);
    DecodeRowsEncodeRows(rows);
  }

  /** Writing back what was read, unchanged, reproduces the sheet cell for cell. */
  lemma EncodeDecode(g: seq<seq<Cell>>)
    requires Decode(g).Some?
    ensures Encode(Decode(g).value) == g
  {
    EncodeRowsDecodeRows(g[1..]);
  }

  /** Two grids of the same shape and the positions of the cells where they differ. */
  predicate SameShape(g: seq<seq<Cell>>, h: seq<seq<Cell>>) {
    |g| == |h| && forall i :: 0 <= i < |g| ==> |g[i]| == |h[i]|
  }

  function ChangedCells(g: seq<seq<Cell>>, h: seq<seq<Cell>>): set<(nat, nat)>
    requires SameShape(g, h)
  {
    set i: nat, j: nat | i < |g| && j < |g[i]| && g[i][j] != h[i][j] :: (i, j)
  }

  /** Stamping one record changes exactly one cell of the sheet: that record's
      ATENDIMENTO, on the row below the header that holds it. */
  lemma StampChangesOneCell(rows: seq<Row>, k: nat, stamp: string)
    requires k < |rows| && rows[k].atendimento != stamp
    ensures SameShape(Encode(rows), Encode(rows[k := rows[k].(atendimento := stamp)]))
    ensures ChangedCells(Encode(rows), Encode(rows[k := rows[k].(atendimento := stamp)]))
            == {(k + 1, StampColumn)}
  {
    var rows' := rows[k := rows[k].(atendimento := stamp)];
    var g, h := Encode(rows), Encode(rows');
    assert forall i :: 1 <= i < |g| ==> g[i] == EncodeRow(rows[i - 1]) && h[i] == EncodeRow(rows'[i - 1]);
    assert forall i :: 0 <= i < |g| && i != k + 1 ==> g[i] == h[i];
    assert (k + 1, StampColumn) in ChangedCells(g, h) by {
      assert g[k + 1][StampColumn] == Text(rows[k].atendimento);
      assert h[k + 1][StampColumn] == Text(stamp);
    }
  }
}
