/** The attendance register, `registrar_atendimento` (atendimentos.py:32-53), and the
    button handler that feeds it (atendimentos.py:176-184). The shared spreadsheet is
    the `cells` field of a `Worksheet`; the messages the page shows are the returned
    outcome; the wall clock is read by the caller and passed in. */
module Attendance {
  import opened Options
  import opened Stamp
  import opened Entry
  import opened Roster

  /** What a registration reports: an unknown identifier, a record stamped before
      (with the stamp it already had), or a record stamped now (with the new stamp). */
  datatype Outcome =
    | NotFound
    | AlreadyRegistered(nome: string, setor: string, divisao: string, stamp: string)
    | Registered(nome: string, setor: string, divisao: string, stamp: string)

  /** What the button handler does with the typed text: warn that it is blank, say that
      only digits are accepted, or report the registration it ran. */
  datatype Response = Warned | Rejected | Processed(outcome: Outcome)

  /** The registration on values: the outcome, and the records as they stand afterwards. */
  function Registration(rows: seq<Row>, id: int, now: Clock): (result: (Outcome, seq<Row>))
    requires ValidClock(now)
    ensures result.0 == NotFound <==> forall j :: 0 <= j < |rows| ==> rows[j].matricula != id
    ensures result.0 == NotFound ==> result.1 == rows
    ensures forall k :: IsFirst(rows, id, k) && Attended(rows[k]) ==>
      result == (AlreadyRegistered(rows[k].nome, rows[k].setor, rows[k].divisao, rows[k].atendimento), rows)
    ensures forall k :: IsFirst(rows, id, k) && !Attended(rows[k]) ==>
      result == (Registered(rows[k].nome, rows[k].setor, rows[k].divisao, Format(now)),
                 rows[k := rows[k].(atendimento := Format(now))])
  {
    match FirstIndex(rows, id)
    case None => (NotFound, rows)
    case Some(k) =>
      var row := rows[k];
      if Attended(row) then
        (AlreadyRegistered(row.nome, row.setor, row.divisao, row.atendimento), rows)
      else
        var stamp := Format(now);
        (Registered(row.nome, row.setor, row.divisao, stamp), rows[k := row.(atendimento := stamp)])
  }

  /** A second registration of the same identifier, at any later reading of the clock,
      changes nothing and reports the stamp the first one left. */
  lemma RegistrationIdempotent(rows: seq<Row>, id: int, first: Clock, second: Clock)
    requires ValidClock(first) && ValidClock(second)
    ensures var (o1, rows1) := Registration(rows, id, first);
            var (o2, rows2) := Registration(rows1, id, second);
            && rows2 == rows1
            && (o1 == NotFound ==> o2 == NotFound)
            && (o1 != NotFound ==> o2 == AlreadyRegistered(o1.nome, o1.setor, o1.divisao, o1.stamp))
  {
    var (o1, rows1) := Registration(rows, id, first);
    match FirstIndex(rows, id)
    case None =>
    case Some(k) =>
      if !Attended(rows[k]) {
        FirstIndexAfterStamp(rows, id, k, Format(first), id);
        assert IsFirst(rows1, id, k);
      }
  }

  /** A registration that stamps a record changes exactly one cell of the sheet, and the
      stamp it reports is a well-formed stamp of the clock reading it was given. */
  lemma RegistrationWritesOneCell(rows: seq<Row>, id: int, now: Clock)
    requires ValidClock(now)
    requires Registration(rows, id, now).0.Registered?
    ensures FirstIndex(rows, id).Some?
    ensures var k := FirstIndex(rows, id).value;
            var (o, rows') := Registration(rows, id, now);
            && SameShape(Encode(rows), Encode(rows'))
            && ChangedCells(Encode(rows), Encode(rows')) == {(k + 1, StampColumn)}
            && Parse(o.stamp) == Some(now)
  {
    var k := FirstIndex(rows, id).value;
    StampChangesOneCell(rows, k, Format(now));
    ParseFormat(now);
  }

  /** Three presses on a one-record roster: Ana (1001), not yet attended, is stamped
      at 09:30 on 2025-01-15; pressing 1001 again at 10:00 reports the 09:30 stamp;
      the unknown 9999 is not found and leaves the roster as it was. */
  lemma ExampleScenario()
    ensures var ana := Row(1001, "Ana", "Retail", "North", "");
            var now := Clock(2025, 1, 15, 9, 30, 0);
            var stamped := Row(1001, "Ana", "Retail", "North", "2025-01-15 09:30:00");
            && Registration([ana], 1001, now)
               == (Registered("Ana", "Retail", "North", "2025-01-15 09:30:00"), [stamped])
            && Registration([stamped], 1001, Clock(2025, 1, 15, 10, 0, 0))
               == (AlreadyRegistered("Ana", "Retail", "North", "2025-01-15 09:30:00"), [stamped])
            && Registration([ana], 9999, now) == (NotFound, [ana])
  {
    var ana := Row(1001, "Ana", "Retail", "North", "");
    var stamped := Row(1001, "Ana", "Retail", "North", "2025-01-15 09:30:00");
    var now := Clock(2025, 1, 15, 9, 30, 0);
    ExampleStamp();
    assert IsFirst([ana], 1001, 0);
    assert [ana][0 := ana.(atendimento := Format(now))] == [stamped];
    assert IsFirst([stamped], 1001, 0);
  }

  /** The spreadsheet the page reads and overwrites. */
  class Worksheet {
    /** The cells of the sheet, row by row, the header first. */
    var cells: seq<seq<Cell>>
    /** How many times the whole sheet has been cleared and rewritten. */
    ghost var overwrites: nat

    /** The sheet holds the five-column header and one well-formed row per record. */
    ghost predicate Valid()
      reads this
    {
      Decode(cells).Some?
    }

    ghost function Rows(): seq<Row>
      reads this
      requires Valid()
    {
      Decode(cells).value
    }

    /** A sheet provisioned with a roster. */
    constructor (roster: seq<Row>)
      ensures Valid() && Rows() == roster
      ensures cells == Encode(roster) && overwrites == 0
    {
      cells := Encode(roster);
      overwrites := 0;
      DecodeEncode(roster);
    }

    /** `carregar_base`: a snapshot of every record, in sheet order. */
    method Load() returns (rows: seq<Row>)
      requires Valid()
      ensures Encode(rows) == cells
      ensures rows == Rows()
    {
      rows := Decode(cells).value;
      EncodeDecode(cells);
    }

    /** `salvar_base`: clears the sheet and writes the header row and every record. */
    method Save(rows: seq<Row>)
      modifies this
      ensures cells == Encode(rows) && overwrites == old(overwrites) + 1
      ensures Valid() && Rows() == rows
    {
      cells := Encode(rows);
      overwrites := overwrites + 1;
      DecodeEncode(rows);
    }

    /** `registrar_atendimento`: looks the identifier up, reports a record stamped
        before, and otherwise stamps the record with `now` and rewrites the sheet. The
        sheet is rewritten exactly when a record is stamped. */
    method Register(matricula: int, now: Clock) returns (o: Outcome)
      requires Valid() && ValidClock(now)
      modifies this
      ensures Valid()
      ensures (o, Rows()) == Registration(old(Rows()), matricula, now)
      ensures !o.Registered? ==> cells == old(cells) && overwrites == old(overwrites)
      ensures o.Registered? ==> overwrites == old(overwrites) + 1
    {
      var df := Load();
      var found := FirstIndex(df, matricula);
      if found.None? {
        return NotFound;
      }
      var idx := found.value;
      var row := df[idx];
      if Attended(row) {
        return AlreadyRegistered(row.nome, row.setor, row.divisao, row.atendimento);
      }
      var dataHora := Format(now);
      df := df[idx := row.(atendimento := dataHora)];
      Save(df);
      o := Registered(row.nome, row.setor, row.divisao, dataHora);
    }

    /** The "Registrar Atendimento" button: blank input is warned about, input that is
        not an integer is rejected, and only an integer reaches the register. */
    method Submit(raw: string, now: Clock) returns (r: Response)
      requires Valid() && ValidClock(now)
      modifies this
      ensures Valid()
      ensures Classify(raw) == Blank ==> r == Warned
      ensures Classify(raw) == NotANumber ==> r == Rejected
      ensures !Classify(raw).Number? ==> cells == old(cells) && overwrites == old(overwrites)
      ensures Classify(raw).Number? ==>
        r.Processed? && (r.outcome, Rows()) == Registration(old(Rows()), Classify(raw).matricula, now)
      ensures Classify(raw).Number? ==>
        overwrites == old(overwrites) + (if r.outcome.Registered? then 1 else 0)
    {
      if Strip(raw) != [] {
        match ParseInt(raw)
        case Some(matricula) =>
          var o := Register(matricula, now);
          r := Processed(o);
        case None =>
          r := Rejected;
      } else {
        r := Warned;
      }
    }
  }

  /** Two presses of the button with the same identifier: the first is an ordinary
      registration, the second reports the stamp the first wrote and leaves the sheet,
      and the rewrite count, as the first left them. */
  method RegisterTwice(sheet: Worksheet, matricula: int, first: Clock, second: Clock)
    returns (o1: Outcome, o2: Outcome)
    requires sheet.Valid() && ValidClock(first) && ValidClock(second)
    modifies sheet
    ensures sheet.Valid()
    ensures o1 == NotFound ==> o2 == NotFound
    ensures o1 != NotFound ==> o2 == AlreadyRegistered(o1.nome, o1.setor, o1.divisao, o1.stamp)
    ensures (o1, sheet.Rows()) == Registration(old(sheet.Rows()), matricula, first)
    ensures sheet.overwrites == old(sheet.overwrites) + (if o1.Registered? then 1 else 0)
  {
    ghost var rows0 := sheet.Rows();
    o1 := sheet.Register(matricula, first);
    o2 := sheet.Register(matricula, second);
    RegistrationIdempotent(rows0, matricula, first, second);
  }
}
