# Attendance register — a Dafny model

The system is a small internal web form where employees register that they were
attended. An employee types their registration number (MATRICULA). The page loads
the whole roster from a shared spreadsheet and finds the first record with that
number. If the record's ATENDIMENTO cell already holds a stamp, the page reports it.
Otherwise the page writes the current time as `YYYY-MM-DD HH:MM:SS` into that cell
and rewrites the whole sheet: the header row, then every record.

This project models that routine (`registrar_atendimento`), the load and save of the
sheet (`carregar_base`, `salvar_base`), the timestamp pattern, and the check the
button applies to the typed text before it registers anything. It proves:

- an unknown identifier changes nothing;
- the first matching row is the one acted on;
- a record stamped before is reported with its existing stamp, and nothing is saved;
- otherwise exactly one cell of the sheet changes, and it is that record's ATENDIMENTO;
- a second registration is a no-op that reports the first stamp;
- the stamp has the fixed 19-character shape and reads back to the clock it came from;
- writing the sheet and reading it back are inverse;
- the typed text splits into blank, not-a-number, or the integer that reaches the
  register.

Modules:

- `Options`: the `Option` datatype.
- `Decimal`: ASCII digit strings, their values, the canonical and the zero-padded
  rendering.
- `Stamp`: the clock reading, `Format` (strftime `%Y-%m-%d %H:%M:%S`) and its inverse
  `Parse`.
- `Entry`: Python's `str.strip()` and base-10 `int()`, which trim different sets of
  whitespace, and the handler's three-way decision `Classify`.
- `Roster`: the record, the grid of cells, header-plus-rows `Encode`/`Decode`, the
  first-match lookup, and the lookup as the source writes it.
- `Attendance`: the outcome, the registration on values (`Registration`), and the
  `Worksheet` class. The class holds the sheet's cells and has `Load`, `Save`,
  `Register` and `Submit` (the button).

The wall clock is read by the caller and passed in as a `Clock`. The spreadsheet is
the `cells` field. A ghost counter `overwrites` records every full rewrite of the
sheet, so "nothing is saved" can be stated. The messages the page shows are returned
as `Outcome` and `Response` values.

## Model

| member | source | states |
|---|---|---|
| `Roster.FirstIndex` | atendimentos.py:35-39 | The lookup returns nothing exactly when no row has the identifier. Otherwise it returns the first row, in table order, with that identifier. |
| `Roster.FirstIndexAfterStamp` | atendimentos.py:39-50 | Writing a stamp into a row leaves every identifier in place, so the lookup finds the same row afterwards. |
| `Roster.LookupAsWritten` | atendimentos.py:33-39 | The lookup as written raises KeyError exactly when the roster has no records. Otherwise it yields the first match. |
| `Roster.EmptyRosterRaises` | atendimentos.py:33-37 | On a roster with only the header, the lookup as written raises, while the corrected lookup reports "not found". |
| `Roster.LookupAgrees` | atendimentos.py:35-39 | On any non-empty roster, the lookup as written and the corrected lookup agree. |
| `Roster.Encode` | atendimentos.py:27-29 | The saved sheet is the header row followed by every record, in table order, one sheet row per record. |
| `Roster.DecodeEncode` | atendimentos.py:21-29 | Reading back a saved sheet gives the same records in the same order. |
| `Roster.EncodeDecode` | atendimentos.py:21-29 | Saving a freshly loaded table unchanged reproduces the sheet cell for cell. |
| `Roster.StampChangesOneCell` | atendimentos.py:49-51 | Stamping record k with a new value changes exactly one cell of the saved sheet: row k+1 (below the header), column ATENDIMENTO. |
| `Stamp.Format` | atendimentos.py:49 | The stamp is 19 characters long. It has `-` at positions 4 and 7, a space at 10, `:` at 13 and 16, and a decimal digit everywhere else. |
| `Stamp.ParseFormat` | atendimentos.py:49 | Every clock reading can be read back from its stamp, so different readings give different stamps. |
| `Stamp.FormatParse` | atendimentos.py:49 | Every string of the stamp's shape that denotes a valid reading is the stamp of that reading. |
| `Stamp.ExampleStamp` | atendimentos.py:49 | The reading 2025-01-15 09:30:00 is stamped "2025-01-15 09:30:00". |
| `Entry.SkipForward` | atendimentos.py:177-179 | The scan from a position stops at the first non-blank, or at the end, and passes only blanks. |
| `Entry.SkipBackward` | atendimentos.py:177-179 | The scan back from a position stops just after the last non-blank, or at the start, and passes only blanks. |
| `Entry.TrimEmpty` | atendimentos.py:177-179 | Trimming is empty exactly when every character is blank. The same trimming serves `strip()`, which removes every `str.isspace` character, and `int()`, which keeps U+001C to U+001F. |
| `Entry.TrimShape` | atendimentos.py:177-179 | Trimming gives a contiguous slice of the input, starting at the first non-blank, with only blanks after it. Unless empty, it starts and ends with a non-blank. |
| `Entry.TrimPadded` | atendimentos.py:177-179 | Trimming removes exactly the blanks around a word. |
| `Entry.ParseInt` | atendimentos.py:179 | `int()` succeeds only on input that is not all whitespace. |
| `Entry.ParseSignedShape` | atendimentos.py:179 | Once the ends are trimmed, text is read exactly when it is an optional sign followed by digits with single underscores between digits. It is read as the value of those digits, negated after a minus. |
| `Entry.ParseIntShape` | atendimentos.py:179 | `int()` succeeds exactly when the input, after trimming the whitespace `int()` ignores, is an optional sign followed by digits with single underscores between digits. The value it returns is those digits' value, negated after a minus. On every other input it raises. |
| `Entry.ParseIntDigitPart` | atendimentos.py:179 | An optional sign and a run of digits with single underscores between digits, with whitespace `int()` ignores around them, read as the value of the digits, negated after a minus. |
| `Entry.ParseIntLeadingZeros` | atendimentos.py:179 | When the trimmed input is a sign, zeros and a canonical rendering, the zeros do not change the integer. |
| `Entry.ParseIntUnderscore` | atendimentos.py:179 | When the trimmed input is a sign and two runs of digits joined by one underscore, the underscore is ignored. |
| `Entry.ParseIntShowInt` | atendimentos.py:179 | `int()` reads back every integer as `str()` prints it, with whitespace it ignores around it. |
| `Entry.Classify` | atendimentos.py:177-184 | The input is Blank exactly when it is all whitespace. It is NotANumber exactly when it is not blank and `int()` fails. Otherwise it is the integer `int()` returns. |
| `Entry.ClassifyShowInt` | atendimentos.py:177-180 | Every integer, typed as `str()` prints it and with whitespace `int()` ignores around it, reaches the register as that same integer. |
| `Entry.NonDigitRejected` | atendimentos.py:177-182 | Non-blank input is NotANumber if it holds, anywhere, a character that is not a digit, `_`, a sign or whitespace `int()` ignores. |
| `Entry.InnerSpaceRejected` | atendimentos.py:177-182 | Non-blank input is NotANumber when whitespace `int()` ignores stands between two other characters. |
| `Entry.InnerSpaceExample` | atendimentos.py:177-182 | "12 34" is NotANumber. |
| `Entry.ScannerSeparatorRejected` | atendimentos.py:177-182 | "1001" followed by the separator U+001D passes the blank test but is NotANumber, because `int()` does not strip that character. |
| `Attendance.Registration` | atendimentos.py:32-53 | The outcome is NotFound exactly when no row has the identifier, and then the rows are unchanged. If the first matching row is already stamped, the outcome reports its name, sector, division and existing stamp, and the rows are unchanged. Otherwise the outcome reports them with the new stamp, and only that row's ATENDIMENTO changes. |
| `Attendance.RegistrationIdempotent` | atendimentos.py:43-51 | A second registration of the same identifier, at any later clock reading, leaves the rows as they are. It reports AlreadyRegistered with the first call's stamp, or NotFound again. |
| `Attendance.RegistrationWritesOneCell` | atendimentos.py:49-51 | A registration that stamps changes exactly one cell of the saved sheet. The stamp it reports parses back to the clock reading. |
| `Attendance.ExampleScenario` | atendimentos.py:32-53 | Ana (1001) registered at 2025-01-15 09:30:00 gets that stamp. Registering 1001 again reports it unchanged. Registering 9999 is NotFound, and the roster is unchanged. |
| `Attendance.Worksheet.Load` | atendimentos.py:21-24 | The snapshot is the records whose encoding is exactly the sheet's cells. |
| `Attendance.Worksheet.Save` | atendimentos.py:27-29 | The sheet becomes header plus the given records, and one full rewrite is counted. |
| `Attendance.Worksheet.Register` | atendimentos.py:32-53 | The outcome and the new records are those of `Registration` on the old records. The sheet is untouched, and no rewrite happens, unless a record was stamped. A stamp costs exactly one rewrite. |
| `Attendance.Worksheet.Submit` | atendimentos.py:176-184 | Blank input is warned about and non-numeric input is rejected; both leave the sheet untouched. Integer input runs the register with that integer and gets its outcome and new records. The sheet is rewritten once exactly when that register stamps a record. |
| `Attendance.RegisterTwice` | atendimentos.py:43-51 | Two presses with the same identifier: the first has the outcome and records of `Registration`. The second reports the stamp the first wrote (or NotFound again). The sheet ends as the first press left it, rewritten once if the first press stamped and never otherwise. |

## Left out

- Page layout, CSS and the `st.error`/`st.info`/`st.success`/`st.warning` messages (atendimentos.py:86-200) are not modelled. The outcome of each call is returned as a value instead.
- Google Sheets credentials and transport (atendimentos.py:10-17) are not modelled. The sheet is an in-memory field, and `worksheet.clear()` followed by `worksheet.update(...)` is one assignment. Failures of the remote store, which the source lets propagate, are not modelled.
- The manager report `exibir_relatorio` (atendimentos.py:56-83) is not modelled: it relies on pandas date parsing, the current date and a floating-point mean. The password gate around it (atendimentos.py:8, :190-195) is left out with it.
- Concurrency is not modelled. The read-check-write in `registrar_atendimento` is not atomic: two users registering the same identifier at once can both see an empty cell, and the later full rewrite wins. The model is single-threaded and documents this race rather than fixing it.
- The ATENDIMENTO cell is modelled as a string, empty meaning "not attended". pandas truthiness of NaN or a numeric 0 in that cell is not modelled.
- `Attendance.Worksheet.Load`: the sheet is modelled with exactly the five columns MATRICULA, NOME, SETOR, DIVISÃO and ATENDIMENTO, in that order, with a numeric MATRICULA and text elsewhere. Extra columns, other column orders, and text cells that the spreadsheet reader turns into numbers are outside the model. For such sheets `Valid()` does not hold.
- `Attendance.Worksheet.Save`: the header written is the fixed five-column header. The source writes the loaded table's own column names, which are the same on every sheet the model describes.
- `Stamp.ValidClock`: years below 1000 are excluded. `datetime.now()` does not return them, and strftime's padding of such years depends on the platform. The clock reading is local time and is passed in; time zones are not modelled.
- `Entry.ParseInt`: Python's `int()` also accepts non-ASCII decimal digits, and CPython refuses strings longer than its integer-string digit limit. Neither is modelled; the model accepts ASCII digits only, with no length limit.
- `Attendance.Worksheet.Submit`: the `except ValueError` at atendimentos.py:181 also surrounds the call to `registrar_atendimento`. A ValueError raised inside the register would be shown as "digits only". The modelled register raises nothing.

## Findings

| source | as written | input that shows it | evidently intended | confidence | as-written member | corrected member |
|---|---|---|---|---|---|---|
| atendimentos.py:33-37 | The roster is built as `pd.DataFrame(worksheet.get_all_records())`, then `df["MATRICULA"]` is read. A sheet holding only its header gives no records, and a DataFrame built from no records has no columns, so the read raises KeyError. | A sheet with only the header row, and any identifier | Report "Matrícula não encontrada" (NotFound) and change nothing | medium; not executed | `Roster.LookupAsWritten`, `Roster.EmptyRosterRaises` | `Roster.FirstIndex`, `Attendance.Registration` |
