/**
 * The table pipeline of backup.py (`parse_pdf` after camelot has read the
 * tables): the column binding is taken once, from the first table whose
 * first row carries a known label, and every later table is read whole
 * with it; a row whose lookup fails is skipped on its own.
 */
module Backup {
  import opened Wrappers
  import opened Text
  import opened Categories
  import Dates
  import opened Numerals
  import opened Columns
  import Totals
  import Parser

  /** A row of a table's DataFrame after `fillna("")`: every cell is a string. */
  type Row = seq<string>
  /** The DataFrame of one table, row by row. */
  type Frame = seq<Row>

  /** One emitted transaction; `currency` is an absent key when `None`. */
  datatype Record = Record(date: string, description: Option<string>, details: Option<string>,
                           amount: Option<nat>, category: string, currency: Option<string>)

  /** The header texts of a first row: each cell stripped and lower-cased. */
  function HeaderTexts(row: Row): (r: seq<string>)
    ensures forall i :: 0 <= i < |r| ==> Clean(r[i])
  {
    assert forall i :: 0 <= i < |row| ==> Clean(Lower(Strip(row[i]))) by {
      forall i | 0 <= i < |row| {
        LowerStripClean(row[i]);
      }
    }
    seq(|row|, i requires 0 <= i < |row| => Lower(Strip(row[i])))
  }

  /**
   * The stricter amount rule: drop ₸ and spaces, take the first match of
   * `[+-]?\d[\d,.]*`, turn every `,` into `.`, then `round(abs(float(...)))`.
   */
  function ParseAmount(cell: string): Option<nat> {
    match FirstNumeral(RemoveAll(RemoveAll(cell, Tenge), ' '), false)
    case None => None
    case Some(numeral) => RoundedFloat(ReplaceAll(numeral, ',', '.'))
  }

  /** The present, non-empty parts in order (what filtering out falsy values keeps). */
  function Truthy(parts: seq<Option<string>>): (r: seq<string>)
    ensures forall k :: 0 <= k < |r| ==> r[k] != ""
  {
    if |parts| == 0 then []
    else
      var last := parts[|parts| - 1];
      Truthy(parts[..|parts| - 1]) + if last.Some? && last.value != "" then [last.value] else []
  }

  /** A non-empty string stripped, the empty string `None`. */
  function StrippedOrNone(s: string): Option<string> {
    if s != "" then Some(Strip(s)) else None
  }

  /** The row's details cell, stripped, or `""` when the role is unbound or past the row's end. */
  function DetailsText(row: Row, b: Binding): string {
    if Details in b && b[Details] < |row| then Strip(row[b[Details]]) else ""
  }

  /** The row's currency cell, stripped, when bound, inside the row and non-empty. */
  function CurrencyOf(row: Row, b: Binding): Option<string> {
    if Currency in b && b[Currency] < |row| && row[b[Currency]] != "" then Some(Strip(row[b[Currency]])) else None
  }

  /**
   * The record of a data row, or `None` when it is skipped: the binding
   * lacks date, description or amount, or one of those cells lies past the
   * row's end (the `KeyError` the row's `try` swallows).
   */
  function RowRecord(row: Row, b: Binding, rules: seq<Category>): Option<Record> {
    if !Complete(b) then None
    else if b[Columns.Date] >= |row| || b[Description] >= |row| || b[Amount] >= |row| then None
    else
      var description := StrippedOrNone(row[b[Description]]);
      var details := StrippedOrNone(DetailsText(row, b));
      Some(Record(Dates.NormalizeDate(row[b[Columns.Date]]), description, details, ParseAmount(row[b[Amount]]),
                  Categorize(JoinWithSpace(Truthy([description, details])), rules), CurrencyOf(row, b)))
  }

  /** What each row yields, in row order. */
  function Outcomes(rows: Frame, b: Binding, rules: seq<Category>): seq<Option<Record>>
  {
    seq(|rows|, i requires 0 <= i < |rows| => RowRecord(rows[i], b, rules))
  }

  /** The records of the rows, in row order. */
  function RowsRecords(rows: Frame, b: Binding, rules: seq<Category>): seq<Record> {
    Somes(Outcomes(rows, b, rules))
  }

  method CollectRecords(rows: Frame, b: Binding, rules: seq<Category>) returns (records: seq<Record>)
    ensures records == RowsRecords(rows, b, rules)
  {
    ghost var outs := Outcomes(rows, b, rules);
    records := [];
    for i := 0 to |rows|
      invariant records == Somes(outs[..i])
    {
      var r := RowRecord(rows[i], b, rules);
      assert r == outs[i];
      SomesPrefix(outs, i);
      if r.Some? {
        records := records + [r.value];
      }
    }
    assert outs[..|rows|] == outs;
  }

  /** `df.empty`: no rows, or no columns. */
  predicate EmptyFrame(frame: Frame) {
    |frame| == 0 || |frame[0]| == 0
  }

  /**
   * What a table yields and the binding after it: while no binding is
   * held, the first row is the header, and a table with no known label is
   * skipped; once a binding is held, the whole table is data.
   */
  function FrameStep(frame: Frame, saved: Binding, rules: seq<Category>): (seq<Record>, Binding) {
    if EmptyFrame(frame) then ([], saved)
    else if saved == map[] then
      var b := BindingOf(HeaderTexts(frame[0]), BackupPriority);
      if b == map[] then ([], b) else (RowsRecords(frame[1..], b, rules), b)
    else (RowsRecords(frame, saved, rules), saved)
  }

  /** The records so far and the binding held so far. */
  datatype State = State(records: seq<Record>, saved: Binding)

  /** The walk over the tables in order, carrying the binding. */
  function Run(frames: seq<Frame>, rules: seq<Category>): State {
    if |frames| == 0 then State([], map[])
    else
      var st := Run(frames[..|frames| - 1], rules);
      var out := FrameStep(frames[|frames| - 1], st.saved, rules);
      State(st.records + out.0, out.1)
  }

  /** `parse_pdf` on the tables camelot found: the records, table by table and row by row. */
  method ParsePdf(frames: seq<Frame>, rules: seq<Category>) returns (rows: seq<Record>, totals: map<string, nat>)
    ensures rows == Run(frames, rules).records
    ensures forall c :: c in totals <==> Totals.HasAmountIn(Totals.EntriesOf(rows, AmountEntry), c)
    ensures forall c :: c in totals ==> totals[c] == Totals.CategorySum(Totals.EntriesOf(rows, AmountEntry), c)
  {
    rows := [];
    var saved: Binding := map[];
    for t := 0 to |frames|
      invariant Run(frames[..t], rules) == State(rows, saved)
    {
      assert frames[..t + 1][..t] == frames[..t];
      var frame := frames[t];
      if |frame| == 0 || |frame[0]| == 0 {
        continue;
      }
      var dataRows: Frame;
      if saved == map[] {
        var headers := HeaderTexts(frame[0]);
        var found;
        saved, found := BindColumns(headers, BackupPriority);
        FoundIffBound(headers, BackupPriority);
        if !found {
          continue;
        }
        dataRows := frame[1..];
      } else {
        dataRows := frame;
      }
      var records := CollectRecords(dataRows, saved, rules);
      rows := rows + records;
    }
    assert frames[..|frames|] == frames;
    totals := Totals.SumByCategory(Totals.EntriesOf(rows, AmountEntry));
  }

  /** What the totals loop reads of a record: its category and its amount, possibly `None`. */
  function AmountEntry(r: Record): Totals.Entry {
    (r.category, r.amount)
  }

  // ---------------------------------------------------------------------
  // Properties of the pipeline.
  // ---------------------------------------------------------------------

  /** Once a binding is held it is never replaced: every later table keeps it. */
  lemma {:induction false} BindingHeld(frames: seq<Frame>, k: nat, rules: seq<Category>)
    requires k <= |frames| && Run(frames[..k], rules).saved != map[]
    ensures Run(frames, rules).saved == Run(frames[..k], rules).saved
    decreases |frames| - k
  {
    if k == |frames| {
      assert frames[..k] == frames;
    } else {
      var n := |frames| - 1;
      assert frames[..n][..k] == frames[..k];
      BindingHeld(frames[..n], k, rules);
    }
  }

  /**
   * While no binding is held, a non-empty table's first row is its header:
   * the table binds exactly when some header cell carries a known label,
   * and then its remaining rows are read with the new binding; otherwise it
   * is skipped and nothing is held.
   */
  lemma FirstLabelledFrame(frame: Frame, rules: seq<Category>)
    requires !EmptyFrame(frame)
    ensures FrameStep(frame, map[], rules).1 == BindingOf(HeaderTexts(frame[0]), BackupPriority)
    ensures (exists i :: 0 <= i < |frame[0]| && RoleOf(HeaderTexts(frame[0])[i], BackupPriority).Some?)
            <==> FrameStep(frame, map[], rules).1 != map[]
    ensures FrameStep(frame, map[], rules).1 != map[] ==>
              FrameStep(frame, map[], rules).0 == RowsRecords(frame[1..], FrameStep(frame, map[], rules).1, rules)
    ensures FrameStep(frame, map[], rules).1 == map[] ==> FrameStep(frame, map[], rules).0 == []
  {
    var headers := HeaderTexts(frame[0]);
    FoundIffBound(headers, BackupPriority);
    assert FrameStep(frame, map[], rules).1 == BindingOf(headers, BackupPriority);
  }

  /** With a binding held, a table is read whole, first row included, and the binding is kept. */
  lemma HeldBindingReadsWhole(frame: Frame, saved: Binding, rules: seq<Category>)
    requires saved != map[]
    ensures FrameStep(frame, saved, rules) == (if EmptyFrame(frame) then [] else RowsRecords(frame, saved, rules), saved)
  {
  }

  /** A binding without date, description or amount yields no record from any rows. */
  lemma IncompleteBindingSkipsAll(rows: Frame, b: Binding, rules: seq<Category>)
    requires !Complete(b)
    ensures RowsRecords(rows, b, rules) == []
  {
    SomesOfNones(Outcomes(rows, b, rules));
  }

  lemma OutcomeAt(rows: Frame, b: Binding, rules: seq<Category>, i: nat)
    requires i < |rows|
    ensures |Outcomes(rows, b, rules)| == |rows| && Outcomes(rows, b, rules)[i] == RowRecord(rows[i], b, rules)
  {
  }

  lemma OutcomesLength(rows: Frame, b: Binding, rules: seq<Category>)
    ensures |Outcomes(rows, b, rules)| == |rows|
  {
  }

  /** Reading two runs of rows one after the other keeps their records in row order. */
  lemma RowsRecordsAppend(a: Frame, c: Frame, b: Binding, rules: seq<Category>)
    ensures RowsRecords(a + c, b, rules) == RowsRecords(a, b, rules) + RowsRecords(c, b, rules)
  {
    OutcomesAppend(a, c, b, rules);
    SomesAppend(Outcomes(a, b, rules), Outcomes(c, b, rules));
  }

  lemma OutcomesAppend(a: Frame, c: Frame, b: Binding, rules: seq<Category>)
    ensures Outcomes(a + c, b, rules) == Outcomes(a, b, rules) + Outcomes(c, b, rules)
  {
    var l, r := Outcomes(a + c, b, rules), Outcomes(a, b, rules) + Outcomes(c, b, rules);
    OutcomesLength(a + c, b, rules);
    OutcomesLength(a, b, rules);
    OutcomesLength(c, b, rules);
    assert |l| == |r|;
    forall i | 0 <= i < |a + c|
      ensures l[i] == r[i]
    {
      OutcomeAt(a + c, b, rules, i);
      if i < |a| {
        OutcomeAt(a, b, rules, i);
        assert (a + c)[i] == a[i];
      } else {
        OutcomeAt(c, b, rules, i - |a|);
        assert (a + c)[i] == c[i - |a|];
      }
    }
  }

  /** A row that fails is skipped on its own: the rows around it yield what they yield without it. */
  lemma SkippedRowAlone(before: Frame, row: Row, after: Frame, b: Binding, rules: seq<Category>)
    requires RowRecord(row, b, rules).None?
    ensures RowsRecords(before + [row] + after, b, rules) == RowsRecords(before, b, rules) + RowsRecords(after, b, rules)
  {
    RowsRecordsAppend(before + [row], after, b, rules);
    RowsRecordsAppend(before, [row], b, rules);
    SomesOfNones(Outcomes([row], b, rules));
  }

  /**
   * A row yields a record exactly when the binding is complete and the
   * row reaches its date, description and amount columns; the description
   * and details are stripped or `None` when empty, the category is taken
   * over the non-empty ones joined by a space, and the currency is the
   * stripped currency cell when bound, inside the row and non-empty.
   */
  lemma RowRecordFields(row: Row, b: Binding, rules: seq<Category>)
    ensures RowRecord(row, b, rules).Some? <==>
              Complete(b) && b[Columns.Date] < |row| && b[Description] < |row| && b[Amount] < |row|
    ensures RowRecord(row, b, rules).Some? ==>
              var r := RowRecord(row, b, rules).value;
              var desc := row[b[Description]];
              && r.date == Dates.NormalizeDate(row[b[Columns.Date]])
              && r.amount == ParseAmount(row[b[Amount]])
              && (r.description == None <==> desc == "")
              && (r.description.Some? ==> r.description.value == Strip(desc))
              && (r.details.Some? <==> Details in b && b[Details] < |row| && Strip(row[b[Details]]) != "")
              && (r.details.Some? ==> r.details.value == Strip(row[b[Details]]))
              && r.category == Categorize(JoinWithSpace(Truthy([r.description, r.details])), rules)
              && (r.currency.Some? <==> Currency in b && b[Currency] < |row| && row[b[Currency]] != "")
              && (r.currency.Some? ==> r.currency.value == Strip(row[b[Currency]]))
  {
    if RowRecord(row, b, rules).Some? {
      var d := DetailsText(row, b);
      if d != "" {
        StripIdempotent(row[b[Details]]);
      }
    }
  }

  /** The category text holds exactly the present, non-empty parts, in order. */
  lemma TruthyParts(description: Option<string>, details: Option<string>)
    ensures Truthy([description, details])
            == (if description.Some? && description.value != "" then [description.value] else [])
               + (if details.Some? && details.value != "" then [details.value] else [])
  {
    assert [description, details][..1] == [description];
    assert [description][..0] == [];
    assert Truthy([description]) == Truthy([]) + (if description.Some? && description.value != "" then [description.value] else []);
  }

  /** Table order: the records of the first tables come first. */
  lemma {:induction false} RunPrefix(frames: seq<Frame>, k: nat, rules: seq<Category>)
    requires k <= |frames|
    ensures Run(frames[..k], rules).records <= Run(frames, rules).records
    decreases |frames| - k
  {
    if k == |frames| {
      assert frames[..k] == frames;
    } else {
      var n := |frames| - 1;
      assert frames[..n][..k] == frames[..k];
      RunPrefix(frames[..n], k, rules);
    }
  }

  /** A numeral with two separators, whatever they are, has no amount, since `,` became `.`. */
  lemma TwoSeparatorsNoAmount(cell: string, numeral: string, i: nat, j: nat)
    requires FirstNumeral(RemoveAll(RemoveAll(cell, Tenge), ' '), false) == Some(numeral)
    requires i < j < |numeral| && numeral[i] in {',', '.'} && numeral[j] in {',', '.'}
    ensures ParseAmount(cell) == None
  {
    var m := ReplaceAll(numeral, ',', '.');
    var last := |numeral| - 1;
    assert 2 <= j <= last;
    assert InTail(numeral[last], false);
    NumeralCharNotSpace(m[0]);
    NumeralCharNotSpace(m[last]);
    assert m[i] == '.' && m[j] == '.';
    TwoPointsNoFloat(m, i, j);
  }

  /** A digit string, with or without a leading `-`, is the amount of its digits. */
  lemma DigitsAmount(sign: string, ds: string)
    requires |ds| > 0 && AllDigits(ds) && (sign == "" || sign == "-")
    ensures ParseAmount(sign + ds) == Some(NumberValue(ds))
  {
    var s := sign + ds;
    Parser.PlainChars(s, sign, ds);
    RemoveAbsent(s, Tenge);
    RemoveAbsent(s, ' ');
    assert RemoveAll(RemoveAll(s, Tenge), ' ') == s;
    WholeMatch(s, false);
    NoCommaUnchanged(s);
    assert ParseAmount(s) == RoundedFloat(s);
    WholeDecimal(s, sign, ds);
  }

  lemma NoCommaUnchanged(s: string)
    requires ',' !in s
    ensures ReplaceAll(s, ',', '.') == s
  {
  }

  /** backup.py reads `"1,234.56"` as a numeral with two points, so it has no amount. */
  lemma StrictSeparatorExample()
    ensures ParseAmount("1,234.56") == None
  {
    var w, g, f := "1", "234", "56";
    assert "1,234.56" == w + "," + g + "." + f;
    SeparatorsNoAmount(w, g, f);
  }

  /** `w,g.f` has two separators once `,` is `.`: not a float, so no amount. */
  lemma SeparatorsNoAmount(w: string, g: string, f: string)
    requires |w| > 0 && AllDigits(w) && AllDigits(g) && AllDigits(f)
    ensures ParseAmount(w + "," + g + "." + f) == None
  {
    var s := w + "," + g + "." + f;
    Parser.SeparatedChars(s, w, g, f);
    RemoveAbsent(s, Tenge);
    RemoveAbsent(s, ' ');
    WholeMatch(s, false);
    TwoSeparatorsNoAmount(s, s, |w|, |w| + 1 + |g|);
  }

  /** parser.py reads the comma of `"1,234.56"` as a thousands separator and rounds to 1235. */
  lemma LenientSeparatorExample()
    ensures Parser.ParseAmount("1,234.56") == Some(1235)
  {
    var w, g, f := "1", "234", "56";
    assert "1,234.56" == w + "," + g + "." + f;
    assert "1234.56" == w + g + "." + f;
    Parser.ThousandsAmount(w, g, f);
    Parser.HalfUpExample();
  }
}
