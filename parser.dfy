/**
 * The table pipeline of parser.py (`parse_pdf` after pdfplumber has
 * extracted the tables): each page's tables are resolved against the saved
 * column binding, their data rows become transaction records, and the
 * records are returned in page, table and row order.
 */
module Parser {
  import opened Wrappers
  import opened Text
  import opened Categories
  import Dates
  import opened Numerals
  import opened Columns
  import Totals

  /** A cell as pdfplumber gives it: its text, or `None` for a missing cell. */
  type Cell = Option<string>
  type Row = seq<Cell>
  type Table = seq<Row>

  /** One emitted transaction; `currency` and `details` are absent keys when `None`. */
  datatype Record = Record(date: string, description: string, amount: Option<nat>, category: string,
                           currency: Option<string>, details: Option<string>)

  /** The exception that escapes `parse_pdf`: `table[1][i]` runs off a second header row shorter than the first. */
  datatype ParseError = SecondHeaderRowTooShort

  // ---------------------------------------------------------------------
  // Header-like and transaction-like rows (the two inner helpers).
  // ---------------------------------------------------------------------

  /** The text of a cell, a missing cell reading as the empty string. */
  function CellText(c: Cell): string {
    if c.Some? then c.value else ""
  }

  /** The texts of a row joined by single spaces and lower-cased. */
  function RowText(row: Row): string {
    Lower(JoinWithSpace(seq(|row|, i requires 0 <= i < |row| => CellText(row[i]))))
  }

  predicate IsDateSeparator(c: char) {
    c == '.' || c == '/' || c == '-'
  }

  /** `\d{2}[./-]\d{2}[./-]\d{2,4}` matches at `i` (a search needs only its first two year digits). */
  predicate DateShapeAt(t: string, i: int) {
    0 <= i && i + 8 <= |t| && IsDigit(t[i]) && IsDigit(t[i + 1]) && IsDateSeparator(t[i + 2])
    && IsDigit(t[i + 3]) && IsDigit(t[i + 4]) && IsDateSeparator(t[i + 5]) && IsDigit(t[i + 6]) && IsDigit(t[i + 7])
  }

  predicate DateShaped(t: string) {
    exists i :: 0 <= i < |t| && DateShapeAt(t, i)
  }

  /** `looks_like_headers`: a non-empty row with no date shape, no ₸ and no numeral. */
  predicate LooksLikeHeaders(row: Row) {
    |row| > 0 && !DateShaped(RowText(row)) && Tenge !in RowText(row) && FirstNumeral(RowText(row), true).None?
  }

  /** `looks_like_transaction`: a non-empty row with a date shape, a ₸ or a numeral. */
  predicate LooksLikeTransaction(row: Row) {
    |row| > 0 && (DateShaped(RowText(row)) || Tenge in RowText(row) || FirstNumeral(RowText(row), true).Some?)
  }

  /**
   * Every non-empty row is exactly one of header-like and transaction-like,
   * the empty row neither; since the numeral pattern matches any digit, a
   * row is transaction-like exactly when its text holds a digit or a ₸.
   */
  lemma HeaderOrTransaction(row: Row)
    ensures |row| == 0 ==> !LooksLikeHeaders(row) && !LooksLikeTransaction(row)
    ensures |row| > 0 ==> (LooksLikeHeaders(row) <==> !LooksLikeTransaction(row))
    ensures LooksLikeTransaction(row) <==> |row| > 0 && (HasDigit(RowText(row)) || Tenge in RowText(row))
  {
    var t := RowText(row);
    NumeralIffDigit(t, true);
    if DateShaped(t) {
      var i :| 0 <= i < |t| && DateShapeAt(t, i);
      assert IsDigit(t[i]);
    }
  }

  // ---------------------------------------------------------------------
  // Header cells and the binding of a table.
  // ---------------------------------------------------------------------

  /** A one-line header cell: newlines become spaces, then stripped and lower-cased; a missing or empty cell is `""`. */
  function HeaderText(h: Cell): (r: string)
    ensures Clean(r) && '\n' !in r
  {
    if h.Some? && h.value != "" then CleanHeader(h.value) else ""
  }

  /** A two-line header cell: both texts joined by a space, newlines become spaces, then stripped and lower-cased. */
  function MergedHeaderText(h1: Cell, h2: Cell): string {
    CleanHeader(CellText(h1) + " " + CellText(h2))
  }

  /** Newlines become spaces, then the text is stripped and lower-cased: a clean one-line text. */
  function CleanHeader(s: string): (r: string)
    ensures Clean(r) && '\n' !in r
  {
    var t := ReplaceAll(s, '\n', ' ');
    assert '\n' !in t by {
      assert forall i :: 0 <= i < |t| ==> t[i] != '\n';
    }
    StripKeeps(t, '\n');
    LowerNoNewline(Strip(t));
    LowerStripClean(t);
    Lower(Strip(t))
  }

  /** The merged texts of two equally long header rows, column by column. */
  function Merge(first: Row, second: Row): (r: seq<string>)
    requires |first| == |second|
    ensures |r| == |first|
  {
    if |first| == 0 then []
    else Merge(first[..|first| - 1], second[..|first| - 1]) + [MergedHeaderText(first[|first| - 1], second[|first| - 1])]
  }

  /** The merged header texts, or `None` where `table[1][i]` raises on a shorter second row. */
  function MergedHeaders(first: Row, second: Row): Option<seq<string>> {
    if |second| < |first| then None else Some(Merge(first, second[..|first|]))
  }

  /** The `combined` loop: merge the two header rows cell by cell, failing on the first missing cell. */
  method MergeHeaderRows(first: Row, second: Row) returns (r: Option<seq<string>>)
    ensures r == MergedHeaders(first, second)
  {
    var combined: seq<string> := [];
    for i := 0 to |first|
      invariant i <= |second|
      invariant combined == Merge(first[..i], second[..i])
    {
      if i >= |second| {
        return None;
      }
      assert first[..i + 1][..i] == first[..i] && second[..i + 1][..i] == second[..i];
      combined := combined + [MergedHeaderText(first[i], second[i])];
    }
    assert first[..|first|] == first && second[..|first|][..|first|] == second[..|first|];
    return Some(combined);
  }

  /** The texts of a one-line header, cell by cell. */
  function HeaderTexts(row: Row): (r: seq<string>)
    ensures forall i :: 0 <= i < |r| ==> Clean(r[i]) && '\n' !in r[i]
  {
    seq(|row|, i requires 0 <= i < |row| => HeaderText(row[i]))
  }

  /** The second row is header-like too, so the header spans two rows. */
  predicate TwoLineHeader(table: Table) {
    |table| > 1 && LooksLikeHeaders(table[1])
  }

  /** The header texts of a table: merged from two rows, or the first row's alone. */
  function HeaderCells(table: Table): (r: Option<seq<string>>)
    requires |table| > 0
    ensures r.Some? ==> forall i :: 0 <= i < |r.value| ==> Clean(r.value[i]) && '\n' !in r.value[i]
  {
    if TwoLineHeader(table) then
      var first, second := table[0], table[1];
      assert MergedHeaders(first, second).Some? ==>
               forall i :: 0 <= i < |first| ==> MergedHeaders(first, second).value[i] == MergedHeaderText(first[i], second[i]) by {
        if |second| >= |first| {
          forall i | 0 <= i < |first| {
            MergedHeaderAt(first, second[..|first|], i);
          }
        }
      }
      MergedHeaders(first, second)
    else Some(HeaderTexts(table[0]))
  }

  /** The rows after the header: two rows are skipped for a two-line header, one otherwise. */
  function DataRows(table: Table): Table
    requires |table| > 0
  {
    if TwoLineHeader(table) then table[2..] else table[1..]
  }

  predicate AnyNonEmpty(headers: seq<string>) {
    exists i :: 0 <= i < |headers| && headers[i] != ""
  }

  /** What to do with a table: skip it, or read these rows with this binding. */
  datatype Plan = Skip | Use(rows: Table, binding: Binding)

  /** The plan for a table and the saved binding after it. */
  datatype Resolution = Resolution(plan: Plan, saved: Option<Binding>)

  /** How a table is read, given the binding saved from earlier tables. */
  function Resolve(table: Table, saved: Option<Binding>): Result<Resolution, ParseError> {
    if |table| == 0 || |table[0]| == 0 then Success(Resolution(Skip, saved))
    else if LooksLikeTransaction(table[0]) && saved.Some? then Success(Resolution(Use(table, saved.value), saved))
    else match HeaderCells(table)
      case None => Failure(SecondHeaderRowTooShort)
      case Some(headers) =>
        if AnyNonEmpty(headers) then
          var b := BindingOf(headers, ParserPriority);
          Success(Resolution(Use(DataRows(table), b), Some(b)))
        else if saved.None? then Success(Resolution(Skip, None))
        else Success(Resolution(Use(DataRows(table), saved.value), saved))
  }

  // ---------------------------------------------------------------------
  // Amounts and records.
  // ---------------------------------------------------------------------

  /**
   * The amount rule: drop ₸, take the first numeral, drop spaces and
   * no-break spaces; with both `,` and `.` drop the commas, with `,` alone
   * read it as the decimal point; then `round(abs(float(...)))`.
   */
  function ParseAmount(cell: string): Option<nat> {
    match FirstNumeral(RemoveAll(cell, Tenge), true)
    case None => None
    case Some(numeral) => RoundedFloat(NormalizeNumeral(numeral))
  }

  /** The numeral with spaces and no-break spaces dropped and its separators normalized. */
  function NormalizeNumeral(numeral: string): string {
    var compact := RemoveAll(RemoveAll(numeral, ' '), NBSP);
    if ',' in compact && '.' in compact then RemoveAll(compact, ',')
    else if ',' in compact then ReplaceAll(compact, ',', '.')
    else compact
  }

  function Max3(a: nat, b: nat, c: nat): nat {
    if a >= b && a >= c then a else if b >= c then b else c
  }

  /** The cell of `role` when it is bound, inside the row and a non-empty string. */
  function PresentCell(row: Row, b: Binding, role: Role): Option<string> {
    if role in b && b[role] < |row| && row[b[role]].Some? && row[b[role]].value != ""
    then Some(row[b[role]].value) else None
  }

  /** The record a data row yields, or `None` when the row is skipped. */
  function RowRecord(row: Row, b: Binding, rules: seq<Category>): Option<Record>
    requires Complete(b)
  {
    var iDate, iDesc, iAmount := b[Columns.Date], b[Description], b[Amount];
    if |row| <= Max3(iDate, iDesc, iAmount) then None
    else if row[iDate].None? || row[iDesc].None? || row[iAmount].None? then None
    else
      var desc := row[iDesc].value;
      var details := PresentCell(row, b, Details);
      var fullText := if details.Some? then desc + " " + details.value else desc;
      Some(Record(Dates.NormalizeDate(row[iDate].value), Strip(desc), ParseAmount(row[iAmount].value),
                  Categorize(Strip(fullText), rules), PresentCell(row, b, Currency), details))
  }

  /** What each row yields, in row order. */
  function Outcomes(rows: Table, b: Binding, rules: seq<Category>): seq<Option<Record>>
    requires Complete(b)
  {
    seq(|rows|, i requires 0 <= i < |rows| => RowRecord(rows[i], b, rules))
  }

  /** The records of the rows, in row order. */
  function RowsRecords(rows: Table, b: Binding, rules: seq<Category>): seq<Record>
    requires Complete(b)
  {
    Somes(Outcomes(rows, b, rules))
  }

  method CollectRecords(rows: Table, b: Binding, rules: seq<Category>) returns (records: seq<Record>)
    requires Complete(b)
    ensures records == RowsRecords(rows, b, rules)
  {
    ghost var outs := Outcomes(rows, b, rules);
    records := [];
    for i := 0 to |rows|
      invariant records == Somes(outs[..i])
    {
      var r := RowRecord(rows[i], b, rules);
      assert r == outs[i];
      SomesPrefix(outs, i);
      if r.Some? {
        records := records + [r.value];
      }
    }
    assert outs[..|rows|] == outs;
  }

  // ---------------------------------------------------------------------
  // Tables, pages and the document.
  // ---------------------------------------------------------------------

  /** The records a table yields and the saved binding after it. */
  function TableStep(table: Table, saved: Option<Binding>, rules: seq<Category>)
    : Result<(seq<Record>, Option<Binding>), ParseError>
  {
    match Resolve(table, saved)
    case Failure(e) => Failure(e)
    case Success(res) =>
      var records := if res.plan.Use? && Complete(res.plan.binding)
                     then RowsRecords(res.plan.rows, res.plan.binding, rules) else [];
      Success((records, res.saved))
  }

  /** The records so far and the binding saved so far. */
  datatype State = State(records: seq<Record>, saved: Option<Binding>)

  /** The walk over the tables in order, carrying the saved binding. */
  function Run(tables: seq<Table>, rules: seq<Category>): Result<State, ParseError> {
    if |tables| == 0 then Success(State([], None))
    else match Run(tables[..|tables| - 1], rules)
      case Failure(e) => Failure(e)
      case Success(st) => Then(st, TableStep(tables[|tables| - 1], st.saved, rules))
  }

  /** The walk after one more table: its records appended and its binding saved, or its exception. */
  function Then(st: State, step: Result<(seq<Record>, Option<Binding>), ParseError>): Result<State, ParseError> {
    match step
    case Failure(e) => Failure(e)
    case Success(out) => Success(State(st.records + out.0, out.1))
  }

  /** The tables of all pages, page by page. */
  function AllTables(pages: seq<seq<Table>>): seq<Table> {
    if |pages| == 0 then [] else AllTables(pages[..|pages| - 1]) + pages[|pages| - 1]
  }

  /** `parse_pdf`'s result: the records, or the exception that escaped. */
  function Parse(pages: seq<seq<Table>>, rules: seq<Category>): Result<seq<Record>, ParseError> {
    match Run(AllTables(pages), rules)
    case Success(st) => Success(st.records)
    case Failure(e) => Failure(e)
  }

  /** The binding part of the loop body: how the table is read and what is saved after it. */
  method ResolveTable(table: Table, saved: Option<Binding>) returns (res: Result<Resolution, ParseError>)
    ensures res == Resolve(table, saved)
  {
    if |table| == 0 || |table[0]| == 0 {
      return Success(Resolution(Skip, saved));
    }
    if LooksLikeTransaction(table[0]) && saved.Some? {
      return Success(Resolution(Use(table, saved.value), saved));
    }
    var headers: seq<string>;
    var dataRows: Table;
    if |table| > 1 && LooksLikeHeaders(table[1]) {
      var merged := MergeHeaderRows(table[0], table[1]);
      if merged.None? {
        return Failure(SecondHeaderRowTooShort);
      }
      headers, dataRows := merged.value, table[2..];
    } else {
      headers, dataRows := HeaderTexts(table[0]), table[1..];
    }
    if AnyNonEmpty(headers) {
      var binding, found := BindColumns(headers, ParserPriority);
      return Success(Resolution(Use(dataRows, binding), Some(binding)));
    } else if saved.None? {
      return Success(Resolution(Skip, None));
    } else {
      return Success(Resolution(Use(dataRows, saved.value), saved));
    }
  }

  /** One table of the loop body: resolve its binding, then collect its records. */
  method ProcessTable(table: Table, saved: Option<Binding>, rules: seq<Category>)
    returns (out: Result<(seq<Record>, Option<Binding>), ParseError>)
    ensures out == TableStep(table, saved, rules)
  {
    var res := ResolveTable(table, saved);
    if res.Failure? {
      return Failure(res.error);
    }
    var plan := res.value.plan;
    if plan.Skip? || !Complete(plan.binding) {
      return Success(([], res.value.saved));
    }
    var records := CollectRecords(plan.rows, plan.binding, rules);
    return Success((records, res.value.saved));
  }

  /** A failed walk stays failed whatever tables follow. */
  lemma {:induction false} RunFailurePersists(tables: seq<Table>, k: nat, rules: seq<Category>)
    requires k <= |tables| && Run(tables[..k], rules).Failure?
    ensures Run(tables, rules) == Run(tables[..k], rules)
    decreases |tables| - k
  {
    if k < |tables| {
      assert tables[..k + 1][..k] == tables[..k];
      RunFailurePersists(tables, k + 1, rules);
    } else {
      assert tables[..k] == tables;
    }
  }

  /** The tables of the first `p` pages come first among all tables. */
  lemma {:induction false} AllTablesPrefix(pages: seq<seq<Table>>, p: nat)
    requires p <= |pages|
    ensures AllTables(pages[..p]) <= AllTables(pages)
    decreases |pages| - p
  {
    if p < |pages| {
      assert pages[..p + 1][..p] == pages[..p];
      AllTablesPrefix(pages, p + 1);
    } else {
      assert pages[..p] == pages;
    }
  }

  /** One more table extends the walk by that table's step. */
  lemma RunExtends(done: seq<Table>, tables: seq<Table>, t: nat, st: State, rules: seq<Category>)
    requires t < |tables| && Run(done + tables[..t], rules) == Success(st)
    ensures Run(done + tables[..t + 1], rules) == Then(st, TableStep(tables[t], st.saved, rules))
  {
    var seen := done + tables[..t + 1];
    assert seen[..|seen| - 1] == done + tables[..t] && seen[|seen| - 1] == tables[t];
    RunLast(seen, rules);
  }

  /** The walk over a non-empty run of tables is its last step after the walk over the others. */
  lemma RunLast(seen: seq<Table>, rules: seq<Category>)
    requires |seen| > 0 && Run(seen[..|seen| - 1], rules).Success?
    ensures var st := Run(seen[..|seen| - 1], rules).value;
            Run(seen, rules) == Then(st, TableStep(seen[|seen| - 1], st.saved, rules))
  {
  }

  /** A failure within page `p` is the failure of the whole document. */
  lemma FailureEndsDocument(pages: seq<seq<Table>>, p: nat, t: nat, rules: seq<Category>)
    requires p < |pages| && t < |pages[p]|
    requires Run(AllTables(pages[..p]) + pages[p][..t + 1], rules).Failure?
    ensures Run(AllTables(pages), rules) == Run(AllTables(pages[..p]) + pages[p][..t + 1], rules)
  {
    var seen := AllTables(pages[..p]) + pages[p][..t + 1];
    AllTablesPrefix(pages, p + 1);
    assert pages[..p + 1][..p] == pages[..p];
    assert AllTables(pages[..p + 1]) == AllTables(pages[..p]) + pages[p];
    assert seen <= AllTables(pages[..p + 1]);
    assert AllTables(pages)[..|seen|] == seen;
    RunFailurePersists(AllTables(pages), |seen|, rules);
  }

  /**
   * `parse_pdf` on tables already extracted page by page: the records of
   * the walk, or the `IndexError` of a too-short second header row.
   */
  method ParsePdf(pages: seq<seq<Table>>, rules: seq<Category>)
    returns (result: Result<seq<Record>, ParseError>, totals: map<string, nat>)
    ensures result == Parse(pages, rules)
    ensures result.Success? ==>
              forall c :: c in totals <==> Totals.HasAmountIn(Totals.EntriesOf(result.value, AmountEntry), c)
    ensures result.Success? ==>
              forall c :: c in totals ==> totals[c] == Totals.CategorySum(Totals.EntriesOf(result.value, AmountEntry), c)
  {
    totals := map[];
    var rows: seq<Record> := [];
    var saved: Option<Binding> := None;
    ghost var done: seq<Table> := [];
    for p := 0 to |pages|
      invariant done == AllTables(pages[..p])
      invariant Run(done, rules) == Success(State(rows, saved))
    {
      var tables := pages[p];
      assert done + tables[..0] == done;
      for t := 0 to |tables|
        invariant Run(done + tables[..t], rules) == Success(State(rows, saved))
      {
        var out := ProcessTable(tables[t], saved, rules);
        RunExtends(done, tables, t, State(rows, saved), rules);
        if out.Failure? {
          FailureEndsDocument(pages, p, t, rules);
          return Failure(out.error), totals;
        }
        rows, saved := rows + out.value.0, out.value.1;
      }
      assert tables[..|tables|] == tables;
      assert pages[..p + 1][..p] == pages[..p];
      done := done + tables;
    }
    assert pages[..|pages|] == pages;
    totals := Totals.SumByCategory(Totals.EntriesOf(rows, AmountEntry));
    return Success(rows), totals;
  }

  // ---------------------------------------------------------------------
  // Per-category totals.
  // ---------------------------------------------------------------------

  /** What the totals loop reads of a record: `r["category"]` and `r.get("amount")`. */
  function AmountEntry(r: Record): Totals.Entry {
    (r.category, r.amount)
  }

  // ---------------------------------------------------------------------
  // Properties of the pipeline.
  // ---------------------------------------------------------------------

  /** Each merged header is the text of its two cells. */
  lemma {:induction false} MergedHeaderAt(first: Row, second: Row, i: nat)
    requires |first| == |second| && i < |first|
    ensures Merge(first, second)[i] == MergedHeaderText(first[i], second[i])
    decreases |first|
  {
    var n := |first| - 1;
    var m := Merge(first[..n], second[..n]);
    assert Merge(first, second) == m + [MergedHeaderText(first[n], second[n])];
    if i < n {
      MergedHeaderAt(first[..n], second[..n], i);
      assert m[i] == MergedHeaderText(first[..n][i], second[..n][i]);
      assert first[..n][i] == first[i] && second[..n][i] == second[i];
    }
  }

  /**
   * How the header of a table that is not a continuation is read: the
   * header cells are merged from two rows and two rows are skipped when the
   * second row is header-like (failing when it is shorter than the first),
   * otherwise the first row alone gives them and one row is skipped.
   */
  lemma HeaderRows(table: Table, saved: Option<Binding>, i: nat)
    requires |table| > 0 && |table[0]| > 0 && !(LooksLikeTransaction(table[0]) && saved.Some?)
    ensures Resolve(table, saved).Failure? <==> TwoLineHeader(table) && |table[1]| < |table[0]|
    ensures TwoLineHeader(table) && |table[1]| >= |table[0]| && i < |table[0]| ==>
              HeaderCells(table).Some? && |HeaderCells(table).value| == |table[0]|
              && HeaderCells(table).value[i] == MergedHeaderText(table[0][i], table[1][i])
    ensures !TwoLineHeader(table) && i < |table[0]| ==>
              HeaderCells(table).Some? && HeaderCells(table).value[i] == HeaderText(table[0][i])
    ensures Resolve(table, saved).Success? && Resolve(table, saved).value.plan.Use? ==>
              Resolve(table, saved).value.plan.rows == (if TwoLineHeader(table) then table[2..] else table[1..])
  {
    if TwoLineHeader(table) && |table[1]| >= |table[0]| && i < |table[0]| {
      var second := table[1][..|table[0]|];
      MergedHeaderAt(table[0], second, i);
      assert second[i] == table[1][i];
    }
  }

  /**
   * Any non-empty header cell replaces the saved binding by the binding of
   * the headers, complete or not; all-empty headers keep the saved one, or
   * skip the table when none is saved.
   */
  lemma HeadersReplaceBinding(table: Table, saved: Option<Binding>, headers: seq<string>, rules: seq<Category>)
    requires |table| > 0 && |table[0]| > 0 && !(LooksLikeTransaction(table[0]) && saved.Some?)
    requires HeaderCells(table) == Some(headers)
    ensures AnyNonEmpty(headers) ==>
              Resolve(table, saved) == Success(Resolution(Use(DataRows(table), BindingOf(headers, ParserPriority)),
                                                          Some(BindingOf(headers, ParserPriority))))
    ensures !AnyNonEmpty(headers) && saved.None? ==>
              Resolve(table, saved) == Success(Resolution(Skip, None)) && TableStep(table, saved, rules) == Success(([], None))
    ensures !AnyNonEmpty(headers) && saved.Some? ==>
              Resolve(table, saved) == Success(Resolution(Use(DataRows(table), saved.value), saved))
  {
  }

  /**
   * A continuation table: with a binding saved and a transaction-like first
   * row, every row of the table is read with the saved binding, which stays
   * saved; the walk's records grow by exactly those rows' records.
   */
  lemma ContinuationTable(tables: seq<Table>, table: Table, rules: seq<Category>)
    requires Run(tables, rules).Success? && Run(tables, rules).value.saved.Some?
    requires |table| > 0 && LooksLikeTransaction(table[0])
    ensures var st := Run(tables, rules).value;
            var b := st.saved.value;
            Run(tables + [table], rules)
              == Success(State(st.records + (if Complete(b) then RowsRecords(table, b, rules) else []), Some(b)))
  {
    assert (tables + [table])[..|tables|] == tables;
  }

  /**
   * A table yields records only when it is non-empty, its first row is
   * non-empty and the binding it is read with has date, description and
   * amount; empty tables leave the saved binding as it was.
   */
  lemma RecordsNeedCompleteBinding(table: Table, saved: Option<Binding>, rules: seq<Category>)
    ensures |table| == 0 || |table[0]| == 0 ==> TableStep(table, saved, rules) == Success(([], saved))
    ensures TableStep(table, saved, rules).Success? && |TableStep(table, saved, rules).value.0| > 0 ==>
              |table| > 0 && |table[0]| > 0 && Resolve(table, saved).value.plan.Use?
              && Complete(Resolve(table, saved).value.plan.binding)
  {
  }

  /**
   * A row yields a record exactly when it reaches past the date,
   * description and amount columns and those three cells are present; the
   * record's description is the stripped description cell, its category
   * that of the stripped description and details, and currency and details
   * are present exactly when bound, inside the row and non-empty.
   */
  lemma RowRecordFields(row: Row, b: Binding, rules: seq<Category>)
    requires Complete(b)
    ensures RowRecord(row, b, rules).Some? <==>
              b[Columns.Date] < |row| && b[Description] < |row| && b[Amount] < |row|
              && row[b[Columns.Date]].Some? && row[b[Description]].Some? && row[b[Amount]].Some?
    ensures RowRecord(row, b, rules).Some? ==>
              var r := RowRecord(row, b, rules).value;
              var desc := row[b[Description]].value;
              && r.date == Dates.NormalizeDate(row[b[Columns.Date]].value)
              && r.description == Strip(desc)
              && r.amount == ParseAmount(row[b[Amount]].value)
              && r.category == Categorize(Strip(if r.details.Some? then desc + " " + r.details.value else desc), rules)
              && (r.currency.Some? <==> Currency in b && b[Currency] < |row| && row[b[Currency]].Some? && row[b[Currency]].value != "")
              && (r.details.Some? <==> Details in b && b[Details] < |row| && row[b[Details]].Some? && row[b[Details]].value != "")
              && (r.currency.Some? ==> r.currency.value == row[b[Currency]].value)
              && (r.details.Some? ==> r.details.value == row[b[Details]].value)
  {
  }

  lemma OutcomeAt(rows: Table, b: Binding, rules: seq<Category>, i: nat)
    requires Complete(b)
    requires i < |rows|
    ensures |Outcomes(rows, b, rules)| == |rows| && Outcomes(rows, b, rules)[i] == RowRecord(rows[i], b, rules)
  {
  }

  lemma OutcomesLength(rows: Table, b: Binding, rules: seq<Category>)
    requires Complete(b)
    ensures |Outcomes(rows, b, rules)| == |rows|
  {
  }

  /** Reading two runs of rows one after the other keeps their records in row order. */
  lemma RowsRecordsAppend(a: Table, c: Table, b: Binding, rules: seq<Category>)
    requires Complete(b)
    ensures RowsRecords(a + c, b, rules) == RowsRecords(a, b, rules) + RowsRecords(c, b, rules)
  {
    OutcomesAppend(a, c, b, rules);
    SomesAppend(Outcomes(a, b, rules), Outcomes(c, b, rules));
  }

  lemma OutcomesAppend(a: Table, c: Table, b: Binding, rules: seq<Category>)
    requires Complete(b)
    ensures Outcomes(a + c, b, rules) == Outcomes(a, b, rules) + Outcomes(c, b, rules)
  {
    var l, r := Outcomes(a + c, b, rules), Outcomes(a, b, rules) + Outcomes(c, b, rules);
    OutcomesLength(a + c, b, rules);
    OutcomesLength(a, b, rules);
    OutcomesLength(c, b, rules);
    assert |l| == |r|;
    forall i | 0 <= i < |a + c|
      ensures l[i] == r[i]
    {
      OutcomeAt(a + c, b, rules, i);
      if i < |a| {
        OutcomeAt(a, b, rules, i);
        assert (a + c)[i] == a[i];
      } else {
        OutcomeAt(c, b, rules, i - |a|);
        assert (a + c)[i] == c[i - |a|];
      }
    }
  }

  /** Every record of a table comes from one of its rows. */
  lemma RecordsFromRows(rows: Table, b: Binding, rules: seq<Category>, r: Record)
    requires Complete(b) && r in RowsRecords(rows, b, rules)
    ensures exists i :: 0 <= i < |rows| && RowRecord(rows[i], b, rules) == Some(r)
  {
    SomesFrom(Outcomes(rows, b, rules), r);
  }

  /**
   * Table order: a successful walk over some tables is also successful over
   * every prefix of them, and the prefix's records come first.
   */
  lemma {:induction false} RunPrefix(tables: seq<Table>, k: nat, rules: seq<Category>)
    requires k <= |tables| && Run(tables, rules).Success?
    ensures Run(tables[..k], rules).Success?
    ensures Run(tables[..k], rules).value.records <= Run(tables, rules).value.records
    decreases |tables| - k
  {
    if k == |tables| {
      assert tables[..k] == tables;
    } else {
      var n := |tables| - 1;
      assert tables[..n][..k] == tables[..k];
      RunPrefix(tables[..n], k, rules);
    }
  }

  /** Page order: the tables of the first pages are the first tables of the document. */
  lemma PagesInOrder(pages: seq<seq<Table>>, p: nat, rules: seq<Category>)
    requires p <= |pages| && Parse(pages, rules).Success?
    ensures Parse(pages[..p], rules).Success?
    ensures Parse(pages[..p], rules).value <= Parse(pages, rules).value
  {
    AllTablesPrefix(pages, p);
    var all := AllTables(pages);
    var k := |AllTables(pages[..p])|;
    assert all[..k] == AllTables(pages[..p]);
    RunPrefix(all, k, rules);
  }

  /** A cell with no digit has no amount. */
  lemma NoDigitNoAmount(cell: string)
    requires !HasDigit(cell)
    ensures ParseAmount(cell) == None
  {
    var t := RemoveAll(cell, Tenge);
    RemoveKeepsDigits(cell, Tenge);
    NumeralIffDigit(t, true);
    assert FirstNumeral(t, true) == None;
  }

  /** A digit string, with or without a leading `-`, is the amount of its digits: the source takes `abs`. */
  lemma DigitsAmount(sign: string, ds: string)
    requires |ds| > 0 && AllDigits(ds) && (sign == "" || sign == "-")
    ensures ParseAmount(sign + ds) == Some(NumberValue(ds))
  {
    var s := sign + ds;
    PlainChars(s, sign, ds);
    RemoveAbsent(s, Tenge);
    RemoveAbsent(s, ' ');
    RemoveAbsent(s, NBSP);
    WholeMatch(s, true);
    assert NormalizeNumeral(s) == s;
    WholeDecimal(s, sign, ds);
    assert RoundHalfEven(Decimal(sign == "-", ds, "")) == NumberValue(ds);
  }

  /**
   * A tab between digits is taken into the numeral by `\s` but is not one of
   * the blanks dropped before `float()`, which refuses it: no amount.
   */
  lemma TabInsideNoAmount(a: string, b: string)
    requires |a| > 0 && |b| > 0 && AllDigits(a) && AllDigits(b)
    ensures ParseAmount(a + "\t" + b) == None
  {
    var s := a + "\t" + b;
    TabChars(s, a, b);
    RemoveAbsent(s, Tenge);
    RemoveAbsent(s, ' ');
    RemoveAbsent(s, NBSP);
    WholeMatch(s, true);
    assert NormalizeNumeral(s) == s;
    StripNoop(s);
    BlankRefused(s, |a|);
  }

  /** Digits, a tab and digits: digits at both ends, pattern characters inside, and ₸, blanks, commas and points absent. */
  lemma TabChars(s: string, a: string, b: string)
    requires |a| > 0 && |b| > 0 && AllDigits(a) && AllDigits(b) && s == a + "\t" + b
    ensures IsDigit(s[0]) && IsDigit(s[|s| - 1]) && s[|a|] == '\t'
    ensures forall j :: 1 <= j < |s| ==> InTail(s[j], true)
    ensures Tenge !in s && ' ' !in s && NBSP !in s && ',' !in s && '.' !in s
  {
    assert s[0] == a[0] && s[|s| - 1] == b[|b| - 1];
    assert forall j :: 0 <= j < |s| ==> IsDigit(s[j]) || j == |a| by {
      forall j | 0 <= j < |s| ensures IsDigit(s[j]) || j == |a| {
        if j < |a| {
          assert s[j] == a[j];
        } else if j > |a| {
          assert s[j] == b[j - |a| - 1];
        }
      }
    }
  }

  /** A digit string after an optional `-` holds no ₸, space, no-break space, comma or point. */
  lemma PlainChars(s: string, sign: string, ds: string)
    requires |ds| > 0 && AllDigits(ds) && (sign == "" || sign == "-") && s == sign + ds
    ensures forall j :: 0 <= j < |s| ==> IsDigit(s[j]) || (j == 0 && s[j] == '-')
    ensures IsDigit(s[0]) || (s[0] == '-' && |s| > 1 && IsDigit(s[1]))
    ensures Tenge !in s && ' ' !in s && NBSP !in s && ',' !in s && '.' !in s
  {
    assert forall j :: 0 <= j < |s| ==> IsDigit(s[j]) || (j == 0 && s[j] == '-') by {
      forall j | 0 <= j < |s| ensures IsDigit(s[j]) || (j == 0 && s[j] == '-') {
        if sign == "-" && j > 0 {
          assert s[j] == ds[j - 1];
        }
      }
    }
    if sign == "-" {
      assert s[1] == ds[0];
    }
  }

  /** A grouped amount with a decimal comma and a trailing ₸ rounds to the nearest whole tenge. */
  lemma GroupedAmountExample()
    ensures ParseAmount("1 234,56 \U{20B8}") == Some(1235)
  {
    var a, g, f := "1", "234", "56";
    assert "1 234,56 \U{20B8}" == a + " " + g + "," + f + " " + [Tenge];
    assert "1234.56" == a + g + "." + f;
    GroupedAmount(a, g, f);
    HalfUpExample();
  }

  /** `a g,f ₸`, digit groups with a space, a decimal comma and the currency sign, is read as `ag.f`. */
  lemma GroupedAmount(a: string, g: string, f: string)
    requires |a| > 0 && AllDigits(a) && AllDigits(g) && AllDigits(f)
    ensures ParseAmount(a + " " + g + "," + f + " " + [Tenge]) == RoundedFloat(a + g + "." + f)
  {
    var grouped := a + " " + g + "," + f + " ";
    assert a + " " + g + "," + f + " " + [Tenge] == grouped + [Tenge];
    GroupedChars(grouped, a, g, f);
    RemoveAllAppend(grouped, [Tenge], Tenge);
    RemoveAbsent(grouped, Tenge);
    assert RemoveAll([Tenge], Tenge) == [];
    assert grouped + [] == grouped;
    WholeMatch(grouped, true);
    GroupedCommaNormalized(a, g, f);
  }

  /** The characters of `a g,f `: a digit first, then digits, a comma and spaces; no ₸. */
  lemma GroupedChars(s: string, a: string, g: string, f: string)
    requires |a| > 0 && AllDigits(a) && AllDigits(g) && AllDigits(f)
    requires s == a + " " + g + "," + f + " "
    ensures IsDigit(s[0]) && forall j :: 1 <= j < |s| ==> InTail(s[j], true)
    ensures Tenge !in s
  {
    assert s[0] == a[0];
    forall j | 0 <= j < |s|
      ensures IsDigit(s[j]) || s[j] == ' ' || s[j] == ','
    {
      var p, q := |a| + 1, |a| + 1 + |g| + 1;
      if j < |a| {
        assert s[j] == a[j];
      } else if p <= j < p + |g| {
        assert s[j] == g[j - p];
      } else if q <= j < q + |f| {
        assert s[j] == f[j - q];
      }
    }
  }

  /**
   * Digit groups separated by a space, a decimal comma and a trailing
   * space lose their spaces, and the comma becomes the point.
   */
  lemma GroupedCommaNormalized(a: string, g: string, f: string)
    requires AllDigits(a) && AllDigits(g) && AllDigits(f)
    ensures NormalizeNumeral(a + " " + g + "," + f + " ") == a + g + "." + f
  {
    var tail := g + "," + f;
    assert a + " " + g + "," + f + " " == a + " " + tail + " ";
    DigitsLack(a, ' ');
    DigitsLack(g, ' ');
    DigitsLack(f, ' ');
    SpacedRemoved(a, tail);
    var compact := a + g + "," + f;
    assert a + tail == compact;
    DigitsLack(a, NBSP);
    DigitsLack(g, NBSP);
    DigitsLack(f, NBSP);
    RemoveAbsent(compact, NBSP);
    DigitsLack(a, '.');
    DigitsLack(g, '.');
    DigitsLack(f, '.');
    assert compact[|a + g|] == ',';
    ReplaceCommaPoint(a + g, f);
  }

  /** The one comma between two comma-free pieces becomes the point. */
  lemma ReplaceCommaPoint(x: string, y: string)
    requires ',' !in x && ',' !in y
    ensures ReplaceAll(x + "," + y, ',', '.') == x + "." + y
  {
    var l, r := ReplaceAll(x + "," + y, ',', '.'), x + "." + y;
    forall i | 0 <= i < |r|
      ensures l[i] == r[i]
    {
      if i < |x| {
        assert (x + "," + y)[i] == x[i];
      } else if i > |x| {
        assert (x + "," + y)[i] == y[i - |x| - 1];
      }
    }
  }

  /** A thousands comma before a decimal point is dropped. */
  lemma ThousandsCommaNormalized(w: string, g: string, f: string)
    requires AllDigits(w) && AllDigits(g) && AllDigits(f)
    ensures NormalizeNumeral(w + "," + g + "." + f) == w + g + "." + f
  {
    var s := w + "," + g + "." + f;
    var rest := g + "." + f;
    assert s == w + [','] + rest;
    NoSpacesCompact(w, g, f);
    assert s[|w|] == ',' && s[|w| + 1 + |g|] == '.';
    DigitsLack(w, ',');
    DigitsLack(g, ',');
    DigitsLack(f, ',');
    assert ',' !in rest;
    RemoveOne(w, rest, ',');
    assert w + rest == w + g + "." + f;
  }

  /** `w,g.f`: the comma is a thousands separator and the amount is read as `wg.f`. */
  lemma ThousandsAmount(w: string, g: string, f: string)
    requires |w| > 0 && AllDigits(w) && AllDigits(g) && AllDigits(f)
    ensures ParseAmount(w + "," + g + "." + f) == RoundedFloat(w + g + "." + f)
  {
    var s := w + "," + g + "." + f;
    SeparatedChars(s, w, g, f);
    RemoveAbsent(s, Tenge);
    WholeMatch(s, true);
    ThousandsCommaNormalized(w, g, f);
  }

  /** The characters of `w,g.f`: a digit first, then digits and the two separators; no ₸ and no space. */
  lemma SeparatedChars(s: string, w: string, g: string, f: string)
    requires |w| > 0 && AllDigits(w) && AllDigits(g) && AllDigits(f)
    requires s == w + "," + g + "." + f
    ensures IsDigit(s[0]) && forall j :: 1 <= j < |s| ==> IsDigit(s[j]) || s[j] == ',' || s[j] == '.'
    ensures Tenge !in s && ' ' !in s
    ensures s[|w|] == ',' && s[|w| + 1 + |g|] == '.'
  {
    assert s[0] == w[0];
    forall j | 0 <= j < |s|
      ensures IsDigit(s[j]) || s[j] == ',' || s[j] == '.'
    {
      var p, q := |w| + 1, |w| + 1 + |g| + 1;
      if j < |w| {
        assert s[j] == w[j];
      } else if p <= j < p + |g| {
        assert s[j] == g[j - p];
      } else if q <= j < q + |f| {
        assert s[j] == f[j - q];
      }
    }
  }

  /** Digit groups with separators hold no space and no no-break space. */
  lemma NoSpacesCompact(w: string, g: string, f: string)
    requires AllDigits(w) && AllDigits(g) && AllDigits(f)
    ensures RemoveAll(RemoveAll(w + "," + g + "." + f, ' '), NBSP) == w + "," + g + "." + f
  {
    var s := w + "," + g + "." + f;
    DigitsLack(w, ' ');
    DigitsLack(g, ' ');
    DigitsLack(f, ' ');
    RemoveAbsent(s, ' ');
    DigitsLack(w, NBSP);
    DigitsLack(g, NBSP);
    DigitsLack(f, NBSP);
    RemoveAbsent(s, NBSP);
  }

  /** Two space-free pieces, each followed by a space, lose exactly their spaces. */
  lemma SpacedRemoved(a: string, b: string)
    requires ' ' !in a && ' ' !in b
    ensures RemoveAll(a + " " + b + " ", ' ') == a + b
  {
    RemoveAllAppend(a + " " + b, " ", ' ');
    RemoveAllAppend(a + " ", b, ' ');
    RemoveAllAppend(a, " ", ' ');
    RemoveAbsent(a, ' ');
    RemoveAbsent(b, ' ');
    assert RemoveAll(" ", ' ') == "";
  }

  /** A negative amount with a decimal point loses its sign and is rounded. */
  lemma NegativeAmountExample()
    ensures ParseAmount("-45.20") == Some(45)
  {
    var sign, w, f := "-", "45", "20";
    assert "-45.20" == sign + w + "." + f;
    PointAmount(sign, w, f);
    HalfDownExample();
  }

  /** A `whole.fraction` numeral after an optional `-` is read by `float()` unchanged. */
  lemma PointAmount(sign: string, w: string, f: string)
    requires |w| > 0 && AllDigits(w) && AllDigits(f) && (sign == "" || sign == "-")
    ensures ParseAmount(sign + w + "." + f) == RoundedFloat(sign + w + "." + f)
  {
    var s := sign + w + "." + f;
    PointChars(s, sign, w, f);
    RemoveAbsent(s, Tenge);
    WholeMatch(s, true);
    RemoveAbsent(s, ' ');
    RemoveAbsent(s, NBSP);
  }

  /** The characters of `sign + w + "." + f`: a leading `-`, then digits and one point. */
  lemma PointChars(s: string, sign: string, w: string, f: string)
    requires |w| > 0 && AllDigits(w) && AllDigits(f) && (sign == "" || sign == "-")
    requires s == sign + w + "." + f
    ensures forall j :: 0 <= j < |s| ==> IsDigit(s[j]) || s[j] == '.' || (j == 0 && s[j] == '-')
    ensures IsDigit(s[0]) || (s[0] == '-' && |s| > 1 && IsDigit(s[1]))
    ensures Tenge !in s && ' ' !in s && NBSP !in s && ',' !in s
  {
    var o := |sign|;
    assert s[o] == w[0];
    forall j | 0 <= j < |s|
      ensures IsDigit(s[j]) || s[j] == '.' || (j == 0 && s[j] == '-')
    {
      if j < o {
        assert s[j] == '-';
      } else if j < o + |w| {
        assert s[j] == w[j - o];
      } else if j > o + |w| {
        assert s[j] == f[j - o - |w| - 1];
      }
    }
  }

  lemma HalfUpExample()
    ensures RoundedFloat("1234.56") == Some(1235)
  {
    var s, w, f := "1234.56", "1234", "56";
    assert s == "" + w + "." + f;
    PointDecimal(s, "", w, f);
    assert f[0] == '5' && f[1..] == "6";
    RoundsUp(Decimal(false, w, f));
    Value1234();
  }

  lemma Value1234()
    ensures NumberValue("1234") == 1234
  {
    assert "1234"[..3] == "123" && "123"[..2] == "12" && "12"[..1] == "1";
  }

  lemma Value45()
    ensures NumberValue("45") == 45
  {
    assert "45"[..1] == "4";
  }

  lemma HalfDownExample()
    ensures RoundedFloat("-45.20") == Some(45)
  {
    var s, sign, w, f := "-45.20", "-", "45", "20";
    assert s == sign + w + "." + f;
    PointDecimal(s, sign, w, f);
    RoundsDown(Decimal(true, w, f));
    Value45();
  }

  /** Text without digits has no amount. */
  lemma TextAmountExample()
    ensures ParseAmount("not a number") == None
  {
    NoDigitNoAmount("not a number");
  }
}
