/**
 * A two-page statement read by the parser.py pipeline: page one holds a
 * table with a header row and one transaction, page two a headerless
 * table whose rows are read with the binding page one saved.
 */
module StatementExample {
  import opened Wrappers
  import opened Text
  import opened Categories
  import Dates
  import opened Columns
  import opened Parser

  const HeaderRow: Row := [Some("Date"), Some("Description"), Some("Amount")]
  const CoffeeRow: Row := [Some("01.02.2023"), Some("Coffee Shop"), Some("-500")]
  const SalaryRow: Row := [Some("02.02.2023"), Some("Salary"), Some("100000")]

  /** The extracted tables, page by page. */
  const Pages: seq<seq<Table>> := [[[HeaderRow, CoffeeRow]], [[SalaryRow]]]

  const ExampleHeaders: seq<string> := ["date", "description", "amount"]
  const ExampleBinding: Binding := map[Columns.Date := 0, Description := 1, Amount := 2]

  const Coffee: Record := Record("01.02.2023", "Coffee Shop", Some(500), Uncategorized, None, None)
  const Salary: Record := Record("02.02.2023", "Salary", Some(100000), Uncategorized, None, None)

  /** The two records share the page-one binding: amounts without sign, dates as written. */
  lemma TwoPageStatement()
    ensures Parse(Pages, []) == Success([Coffee, Salary])
    ensures Run(AllTables(Pages), []) == Success(State([Coffee, Salary], Some(ExampleBinding)))
  {
    FirstPage();
    SecondPage();
    assert [Coffee] + [Salary] == [Coffee, Salary];
    TwoPages(Pages, [HeaderRow, CoffeeRow], [SalaryRow], [], Some(ExampleBinding), [Coffee], [Salary]);
  }

  /** Two pages of one table each: the second table sees the binding the first saved. */
  lemma TwoPages(pages: seq<seq<Table>>, t1: Table, t2: Table, rules: seq<Category>, saved: Option<Binding>,
                 r1: seq<Record>, r2: seq<Record>)
    requires pages == [[t1], [t2]]
    requires TableStep(t1, None, rules) == Success((r1, saved))
    requires TableStep(t2, saved, rules) == Success((r2, saved))
    ensures Run(AllTables(pages), rules) == Success(State(r1 + r2, saved))
    ensures Parse(pages, rules) == Success(r1 + r2)
  {
    TwoPageTables(t1, t2);
    var tables := [t1, t2];
    assert [t1][..0] == [] && [t1][0] == t1;
    assert [] + r1 == r1;
    assert Run([t1], rules) == Success(State(r1, saved));
    assert tables[..1] == [t1] && tables[1] == t2;
  }

  lemma TwoPageTables(t1: Table, t2: Table)
    ensures AllTables([[t1], [t2]]) == [t1, t2]
  {
    var pages := [[t1], [t2]];
    assert pages[..1] == [[t1]] && [[t1]][..0] == [];
    assert AllTables([[t1]]) == [] + [t1];
  }

  /** Page one: the header row binds date, description and amount; the next row is the one record. */
  lemma FirstPage()
    ensures TableStep([HeaderRow, CoffeeRow], None, []) == Success(([Coffee], Some(ExampleBinding)))
  {
    LeadingDigitRow(CoffeeRow);
    ExampleHeaderTexts();
    ExampleBindingOf();
    CoffeeRecord();
    HeaderThenRow(HeaderRow, CoffeeRow, ExampleHeaders, ExampleBinding, Coffee);
  }

  /** A one-line header followed by one data row, with no binding saved before. */
  lemma HeaderThenRow(header: Row, row: Row, headers: seq<string>, b: Binding, rec: Record)
    requires |header| > 0 && !LooksLikeHeaders(row)
    requires HeaderTexts(header) == headers && |headers| > 0 && headers[0] != ""
    requires BindingOf(headers, ParserPriority) == b && Complete(b) && RowRecord(row, b, []) == Some(rec)
    ensures TableStep([header, row], None, []) == Success(([rec], Some(b)))
  {
    HeaderResolves(header, row, headers);
    OneRowRecords(row, b, rec);
  }

  lemma HeaderResolves(header: Row, row: Row, headers: seq<string>)
    requires |header| > 0 && !LooksLikeHeaders(row)
    requires HeaderTexts(header) == headers && |headers| > 0 && headers[0] != ""
    ensures var b := BindingOf(headers, ParserPriority);
            Resolve([header, row], None) == Success(Resolution(Use([row], b), Some(b)))
  {
    OneLineHeader(header, row);
    assert AnyNonEmpty(headers);
    HeaderTableResolves([header, row], headers);
  }

  /** A header row followed by a row that is not header-like: a one-line header. */
  lemma OneLineHeader(header: Row, row: Row)
    requires !LooksLikeHeaders(row)
    ensures HeaderCells([header, row]) == Some(HeaderTexts(header)) && DataRows([header, row]) == [row]
  {
    var table := [header, row];
    assert table[0] == header && table[1] == row && !TwoLineHeader(table);
    assert table[1..] == [row];
  }

  /** With no binding saved, non-empty header cells are bound and saved. */
  lemma HeaderTableResolves(table: Table, headers: seq<string>)
    requires |table| > 0 && |table[0]| > 0 && HeaderCells(table) == Some(headers) && AnyNonEmpty(headers)
    ensures var b := BindingOf(headers, ParserPriority);
            Resolve(table, None) == Success(Resolution(Use(DataRows(table), b), Some(b)))
  {
  }

  /** Page two: a transaction-like first row, so the whole table is read with the saved binding. */
  lemma SecondPage()
    ensures TableStep([SalaryRow], Some(ExampleBinding), []) == Success(([Salary], Some(ExampleBinding)))
  {
    LeadingDigitRow(SalaryRow);
    SalaryRecord();
    ContinuationRow(SalaryRow, ExampleBinding, Salary);
  }

  /** A one-row table whose row is transaction-like, read with a saved complete binding. */
  lemma ContinuationRow(row: Row, b: Binding, rec: Record)
    requires |row| > 0 && LooksLikeTransaction(row) && Complete(b) && RowRecord(row, b, []) == Some(rec)
    ensures TableStep([row], Some(b), []) == Success(([rec], Some(b)))
  {
    assert Resolve([row], Some(b)) == Success(Resolution(Use([row], b), Some(b)));
    OneRowRecords(row, b, rec);
  }

  lemma OneRowRecords(row: Row, b: Binding, rec: Record)
    requires Complete(b) && RowRecord(row, b, []) == Some(rec)
    ensures RowsRecords([row], b, []) == [rec]
  {
    assert Outcomes([row], b, []) == [] + [Some(rec)];
    SomesSnoc([], Some(rec));
  }


  /** A row whose first cell starts with a digit is transaction-like. */
  lemma LeadingDigitRow(row: Row)
    requires |row| > 0 && row[0].Some? && |row[0].value| > 0 && IsDigit(row[0].value[0])
    ensures LooksLikeTransaction(row) && !LooksLikeHeaders(row)
  {
    var parts := seq(|row|, i requires 0 <= i < |row| => CellText(row[i]));
    JoinFirst(parts);
    assert RowText(row)[0] == row[0].value[0];
    HeaderOrTransaction(row);
  }

  /** A space-join starts with the first part's first character. */
  lemma {:induction false} JoinFirst(parts: seq<string>)
    requires |parts| > 0 && |parts[0]| > 0
    ensures |JoinWithSpace(parts)| > 0 && JoinWithSpace(parts)[0] == parts[0][0]
    decreases |parts|
  {
    if |parts| > 1 {
      var n := |parts| - 1;
      assert parts[..n][0] == parts[0];
      JoinFirst(parts[..n]);
    }
  }

  /** The header row's cells, flattened, stripped and lower-cased. */
  lemma ExampleHeaderTexts()
    ensures HeaderTexts(HeaderRow) == ExampleHeaders
  {
    PlainHeader("Date", "date");
    PlainHeader("Description", "description");
    PlainHeader("Amount", "amount");
    ThreeHeaders(HeaderRow, ExampleHeaders);
  }

  lemma ThreeHeaders(row: Row, texts: seq<string>)
    requires |row| == 3 && |texts| == 3
    requires HeaderText(row[0]) == texts[0] && HeaderText(row[1]) == texts[1] && HeaderText(row[2]) == texts[2]
    ensures HeaderTexts(row) == texts
  {
    var hs := HeaderTexts(row);
    assert hs[0] == texts[0] && hs[1] == texts[1] && hs[2] == texts[2];
  }

  /** A one-line cell without surrounding whitespace is read as its lower-case form. */
  lemma PlainHeader(h: string, lowered: string)
    requires |h| > 0 && '\n' !in h && !IsWhitespace(h[0]) && !IsWhitespace(h[|h| - 1]) && Lower(h) == lowered
    ensures HeaderText(Some(h)) == lowered
  {
    assert ReplaceAll(h, '\n', ' ') == h;
    StripNoop(h);
  }

  /** Each example header gets the role its label names, in parser.py's priority. */
  lemma ExampleRoles()
    ensures RoleOf("date", ParserPriority) == Some(Columns.Date)
    ensures RoleOf("description", ParserPriority) == Some(Description)
    ensures RoleOf("amount", ParserPriority) == Some(Amount)
  {
    DateLabelled();
    DescriptionLabelled();
    AmountLabelled();
  }

  lemma DateLabelTexts()
    ensures Lower(Labels(Columns.Date)[0]) == "\U{434}\U{430}\U{442}\U{430}"
    ensures Lower(Labels(Columns.Date)[1]) == "date"
  {
  }

  lemma DescriptionLabelTexts()
    ensures Lower(Labels(Description)[0])[0] == '\U{43E}'
    ensures Lower(Labels(Description)[1]) == "description"
    ensures Lower(Labels(Description)[2])[0] == '\U{43E}'
    ensures Lower(Labels(Description)[3])[1] == 'p'
  {
  }

  lemma AmountLabelText()
    ensures Lower(Labels(Amount)[1]) == "amount"
  {
  }

  lemma DateLabelled()
    ensures Labelled("date", Columns.Date)
  {
    DateLabelTexts();
    ContainsSelf("date");
  }

  lemma DescriptionLabelled()
    ensures !Labelled("description", Columns.Date) && Labelled("description", Description)
  {
    DescriptionNotDate();
    DescriptionLabelTexts();
    ContainsSelf("description");
  }

  lemma DescriptionNotDate()
    ensures !Labelled("description", Columns.Date)
  {
    DateLabelTexts();
    DescriptionLacksCyrillic();
    DescriptionLacksLatin();
  }

  lemma DescriptionLacksCyrillic()
    ensures !Contains("description", "\U{434}\U{430}\U{442}\U{430}")
  {
    DescriptionLacks();
    AbsentCharNotContained("description", "\U{434}\U{430}\U{442}\U{430}", 0);
  }

  lemma DescriptionLacksLatin()
    ensures !Contains("description", "date")
  {
    DescriptionLacks();
    AbsentCharNotContained("description", "date", 1);
  }

  lemma DescriptionLacks()
    ensures '\U{434}' !in "description" && 'a' !in "description"
  {
  }

  lemma AmountLacks()
    ensures '\U{434}' !in "amount" && 'd' !in "amount" && '\U{43E}' !in "amount" && 'p' !in "amount"
  {
  }

  lemma AmountLabelled()
    ensures !Labelled("amount", Columns.Date) && !Labelled("amount", Description) && Labelled("amount", Amount)
  {
    AmountNotDate();
    AmountNotDescription();
    AmountLabelText();
    ContainsSelf("amount");
  }

  lemma AmountNotDate()
    ensures !Labelled("amount", Columns.Date)
  {
    DateLabelTexts();
    AmountLacks();
    AbsentCharNotContained("amount", "\U{434}\U{430}\U{442}\U{430}", 0);
    AbsentCharNotContained("amount", "date", 0);
  }

  lemma AmountNotDescription()
    ensures !Labelled("amount", Description)
  {
    DescriptionLabelTexts();
    AmountLacks();
    var ls := Labels(Description);
    AbsentCharNotContained("amount", Lower(ls[0]), 0);
    AbsentCharNotContained("amount", Lower(ls[1]), 0);
    AbsentCharNotContained("amount", Lower(ls[2]), 0);
    AbsentCharNotContained("amount", Lower(ls[3]), 1);
  }

  /** The example headers get date, description and amount, in that order. */
  lemma ExampleRolesSeq()
    ensures RolesOf(ExampleHeaders, ParserPriority) == [Some(Columns.Date), Some(Description), Some(Amount)]
  {
    ExampleRoles();
    ThreeRoles(ExampleHeaders, ParserPriority, [Some(Columns.Date), Some(Description), Some(Amount)]);
  }

  lemma ThreeRoles(headers: seq<string>, priority: seq<Role>, roles: seq<Option<Role>>)
    requires |headers| == 3 && |roles| == 3
    requires RoleOf(headers[0], priority) == roles[0]
    requires RoleOf(headers[1], priority) == roles[1]
    requires RoleOf(headers[2], priority) == roles[2]
    ensures RolesOf(headers, priority) == roles
  {
    var rs := RolesOf(headers, priority);
    SameThree(rs, roles);
  }

  /** Two sequences of three elements that agree at each position are equal. */
  lemma SameThree<T>(xs: seq<T>, ys: seq<T>)
    requires |xs| == 3 && |ys| == 3 && xs[0] == ys[0] && xs[1] == ys[1] && xs[2] == ys[2]
    ensures xs == ys
  {
    assert forall i :: 0 <= i < 3 ==> xs[i] == ys[i];
  }

  /** The example headers bind date to column 0, description to 1, amount to 2, and nothing else. */
  lemma ExampleBindingOf()
    ensures BindingOf(ExampleHeaders, ParserPriority) == ExampleBinding
  {
    ExampleRolesSeq();
    ExampleBind();
  }

  lemma ExampleBind()
    ensures Bind([Some(Columns.Date), Some(Description), Some(Amount)]) == ExampleBinding
  {
    var roles := [Some(Columns.Date), Some(Description), Some(Amount)];
    assert roles[..2] == [Some(Columns.Date), Some(Description)];
    assert roles[..2][..1] == [Some(Columns.Date)];
    assert roles[..2][..1][..0] == [];
  }

  /** A three-cell row read with the example binding and no category rules. */
  lemma ExampleRowRecord(row: Row, date: string, desc: string, amount: string)
    requires row == [Some(date), Some(desc), Some(amount)]
    ensures RowRecord(row, ExampleBinding, [])
            == Some(Record(Dates.NormalizeDate(date), Strip(desc), ParseAmount(amount), Uncategorized, None, None))
  {
    assert Details !in ExampleBinding && Currency !in ExampleBinding;
  }

  /** The record of the page-one transaction. */
  lemma CoffeeRecord()
    ensures RowRecord(CoffeeRow, ExampleBinding, []) == Some(Coffee)
  {
    ExampleRowRecord(CoffeeRow, "01.02.2023", "Coffee Shop", "-500");
    CoffeeFields();
  }

  lemma CoffeeFields()
    ensures Dates.NormalizeDate("01.02.2023") == "01.02.2023"
    ensures Strip("Coffee Shop") == "Coffee Shop"
    ensures ParseAmount("-500") == Some(500)
  {
    CoffeeDate();
    StripNoop("Coffee Shop");
    CoffeeAmount();
  }

  lemma CoffeeDate()
    ensures Dates.NormalizeDate("01.02.2023") == "01.02.2023"
  {
    FebruaryDate(1, "01.02.2023");
  }

  lemma CoffeeAmount()
    ensures ParseAmount("-500") == Some(500)
  {
    CoffeeDigits();
    DigitsAmount("-", "500");
  }

  lemma CoffeeDigits()
    ensures NumberValue("500") == 500 && "-" + "500" == "-500"
  {
    assert "500"[..2] == "50" && "50"[..1] == "5";
  }

  /** The record of the page-two transaction. */
  lemma SalaryRecord()
    ensures RowRecord(SalaryRow, ExampleBinding, []) == Some(Salary)
  {
    ExampleRowRecord(SalaryRow, "02.02.2023", "Salary", "100000");
    SalaryFields();
  }

  lemma SalaryFields()
    ensures Dates.NormalizeDate("02.02.2023") == "02.02.2023"
    ensures Strip("Salary") == "Salary"
    ensures ParseAmount("100000") == Some(100000)
  {
    SalaryDate();
    StripNoop("Salary");
    SalaryAmount();
  }

  lemma SalaryDate()
    ensures Dates.NormalizeDate("02.02.2023") == "02.02.2023"
  {
    FebruaryDate(2, "02.02.2023");
  }

  lemma SalaryAmount()
    ensures ParseAmount("100000") == Some(100000)
  {
    SalaryDigits();
    DigitsAmount("", "100000");
  }

  lemma SalaryDigits()
    ensures NumberValue("100000") == 100000 && "" + "100000" == "100000"
  {
    assert "100000"[..5] == "10000" && "10000"[..4] == "1000" && "1000"[..3] == "100";
    assert "100"[..2] == "10" && "10"[..1] == "1";
  }

  /** A date written with one-digit day and month is read by `%d.%m.%Y` and rendered zero-padded. */
  lemma OneDigitDate()
    ensures Dates.NormalizeDate("1.2.2023") == "01.02.2023"
  {
    var d := Dates.Date(1, 2, 2023);
    OneDigitRead("1.2.2023", d);
    FebruaryText(1, "01.02.2023");
    Dates.NormalizeFirstFormat("1.2.2023", d);
  }

  lemma OneDigitRead(s: string, d: Dates.Date)
    requires s == "1.2.2023" && d == Dates.Date(1, 2, 2023)
    ensures Strip(s) == s && Dates.Strptime(s, Dates.Formats[0]) == Some(d)
  {
    var day, month, year := "1", "2", "2023";
    assert s == day + ['.'] + month + ['.'] + year;
    OneDigitFieldsRead(d);
    Dates.StrptimeReadsFields(Dates.Formats[0], day, month, year, d);
    StripNoop(s);
  }

  lemma OneDigitFieldsRead(d: Dates.Date)
    requires d == Dates.Date(1, 2, 2023)
    ensures AllDigits("1") && AllDigits("2")
    ensures Dates.DayField("1") == Some(d.day) && Dates.MonthField("2") == Some(d.month)
    ensures Dates.YearField("2023") == Some(d.year)
  {
    Dates.OneDigitFields('1');
    Dates.OneDigitFields('2');
    assert "2023"[..3] == "202" && "202"[..2] == "20" && "20"[..1] == "2";
  }

  /** A February 2023 date written `DD.MM.YYYY` is unchanged by normalisation. */
  lemma FebruaryDate(day: nat, text: string)
    requires (day == 1 && text == "01.02.2023") || (day == 2 && text == "02.02.2023")
    ensures Dates.NormalizeDate(text) == text
  {
    var d := Dates.Date(day, 2, 2023);
    FebruaryText(day, text);
    Dates.RenderRoundTrip(d);
  }

  lemma FebruaryText(day: nat, text: string)
    requires (day == 1 && text == "01.02.2023") || (day == 2 && text == "02.02.2023")
    ensures Dates.ValidDate(Dates.Date(day, 2, 2023)) && Dates.Render(Dates.Date(day, 2, 2023)) == text
  {
    FebruaryRender(day);
    DigitChars();
    if day == 1 {
      FebruaryFirst();
    } else {
      FebruarySecond();
    }
  }

  lemma FebruaryFirst()
    ensures ['0', '1'] + "." + ['0', '2'] + "." + "2023" == "01.02.2023"
  {
  }

  lemma FebruarySecond()
    ensures ['0', '2'] + "." + ['0', '2'] + "." + "2023" == "02.02.2023"
  {
  }

  lemma DigitChars()
    ensures Dates.DigitChar(0) == '0' && Dates.DigitChar(1) == '1' && Dates.DigitChar(2) == '2'
  {
  }

  lemma FebruaryRender(day: nat)
    requires 1 <= day <= 9
    ensures Dates.ValidDate(Dates.Date(day, 2, 2023))
    ensures Dates.Render(Dates.Date(day, 2, 2023))
            == [Dates.DigitChar(0), Dates.DigitChar(day)] + "." + [Dates.DigitChar(0), Dates.DigitChar(2)] + "." + "2023"
  {
    assert Dates.ValidDate(Dates.Date(day, 2, 2023));
    SmallPadded(day);
    SmallPadded(2);
    YearPadded();
  }

  lemma SmallPadded(n: nat)
    requires 1 <= n <= 9
    ensures Dates.Padded(n, 2) == [Dates.DigitChar(0), Dates.DigitChar(n)]
  {
    assert n / 10 == 0 && n % 10 == n;
    assert Dates.Padded(0, 0) == "";
    assert Dates.Padded(0, 1) == [Dates.DigitChar(0)];
    assert Dates.Padded(n, 2) == Dates.Padded(0, 1) + [Dates.DigitChar(n)];
  }

  lemma YearPadded()
    ensures Dates.Padded(2023, 4) == "2023"
  {
    assert Dates.Padded(2, 1) == Dates.Padded(0, 0) + [Dates.DigitChar(2)];
    assert Dates.Padded(20, 2) == Dates.Padded(2, 1) + [Dates.DigitChar(0)];
    assert Dates.Padded(202, 3) == Dates.Padded(20, 2) + [Dates.DigitChar(2)];
    assert Dates.Padded(2023, 4) == Dates.Padded(202, 3) + [Dates.DigitChar(3)];
  }
}
