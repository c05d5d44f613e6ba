# bank-analyzer: the statement-table pipeline in Dafny

bank-analyzer reads bank-statement PDFs and turns the transaction tables
found in them into records: a date, a description, an amount, a category
and, optionally, a currency and details. There are two variants of this
pipeline, `parse_pdf` in parser.py and an older `parse_pdf` in backup.py.
This project models both of them, starting from the point where the PDF
library has already produced the tables.

- **parser.py** gets its tables page by page from pdfplumber. Cells are
  optional strings. Each table does one of the following:
  - binds columns from a one-line or two-line header;
  - reuses the binding saved from earlier tables, when its first row looks
    like a transaction;
  - is skipped.

  A second header row shorter than the first raises `IndexError`, and that
  error ends the whole run. The model represents it as a `Failure`.
- **backup.py** gets a flat list of tables from camelot. Every cell is a
  string.
  - The binding is taken once, from the first table whose first row
    carries a known label. After that it never changes.
  - Every later table is read whole.
  - A row whose lookup raises is skipped on its own.

The two variants also differ in how a record is built. Each difference is
modelled as written:
- Role priority inside a header cell (backup.py:68-77).
- The amount rule: parser.py:156-165 against backup.py:114-122.
- Empty descriptions. parser.py keeps `desc.strip()`, possibly `""`
  (parser.py:179). backup.py stores `None` (backup.py:128).
- Details:
  - parser.py keeps the raw cell and adds the `details` key only when the
    cell is non-empty (parser.py:188-191).
  - backup.py strips the cell and always has the key, possibly `None`
    (backup.py:124-133).
- The category text:
  - parser.py categorises the stripped `desc + " " + details`, with the
    details only when non-empty (parser.py:171-174).
  - backup.py joins the non-empty stripped parts with a space
    (backup.py:136).
- Currency: kept raw in parser.py (parser.py:187), stripped in backup.py
  (backup.py:142).

Modules:

| module | models |
|---|---|
| `Wrappers` | `Option`, `Result` and `Somes` (the present values of a sequence of options). |
| `Text` | The Python string operations the pipeline uses: `str.isspace`, `strip`, `lower` (ASCII, Latin-1 and Cyrillic capitals), `replace`, substring `in`, and `" ".join`. |
| `Categories` | `categorize` (parser.py:19-24, identical in backup.py:21-26). |
| `Dates` | `normalize_date` (parser.py:26-43, identical in backup.py:28-43). `strptime` is modelled per format as a three-field split with a calendar check. |
| `Numerals` | The leftmost, greedy match of the numeral pattern. Python's `float()` on the strings that can reach it. `round()` as round-half-to-even on an exact decimal. |
| `Columns` | `column_map`, and the chain of `if`/`elif` that gives each header cell at most one role. The binding loop takes the role priority as a parameter, because the two files use different priorities. |
| `Totals` | The per-category totals loop. |
| `Parser` | parser.py's pipeline. |
| `Backup` | backup.py's pipeline. |
| `StatementExample` | A two-page statement worked through the parser.py pipeline. It shows the binding being saved on page one and reused for a headerless table on page two. |

Bindings:
- A **binding** (the source's "saved indices") is a `map<Role, nat>`. A
  role that is not bound is missing from the map, where the source stores
  `None`.
- In parser.py the saved binding is an `Option<Binding>`. `Some(map[])` is
  a real state: the header cells are non-empty but none of them matched a
  label.
- In backup.py the saved binding is a plain map. "Nothing saved" is the
  empty map.

The imperative parts of both `parse_pdf` bodies are methods:
- the table loop;
- the row loop;
- the header-merging loop;
- the binding loop;
- the totals loop.

Each of these methods is proved against a function that specifies it. The
properties are proved about those functions as lemmas.

Facts about the code that the model keeps as written:
- The sentinel for an uncategorised record is `"Без категории"` (parser.py:24).
- parser.py skips a row in two cases only:
  - it does not reach the largest of the date, description and amount
    indices (parser.py:146);
  - one of those three cells is `None` (parser.py:152-153).

  A required cell holding the empty string is kept.
- backup.py keeps such a row too. Its description is then `None`
  (backup.py:128).
- In parser.py, any header with a non-empty cell replaces the saved binding,
  even when no cell got a role (parser.py:108-128).
- `round()` rounds half to even. `"1 234,56 ₸"` is not a tie, and its amount
  is 1235 (`Parser.GroupedAmountExample`).

## Model

| member | source | states |
|---|---|---|
| Categories.Categorize | parser.py:19-24 | The result is the name of the first rule, in rule order, with a keyword that occurs in the text, ignoring case. If no rule matches, the result is `"Без категории"`. backup.py:21-26 is the same function. |
| Categories.CategorizeRange | parser.py:21-24 | The result is always one of the rule names or the sentinel. |
| Categories.CategorizeIgnoresCase | parser.py:20 | Lower-casing the text first does not change the category. |
| Categories.CategorizeExamples | parser.py:19-24 | `"Payment to GROCERY STORE"` with rule `Groceries: [grocery]` is `"Groceries"`. `"xyz"` is the sentinel. |
| Dates.Strptime | parser.py:31 | A date `strptime` accepts is a valid Gregorian date with year 1..9999. |
| Dates.StrptimeReadsFields | parser.py:29-31 | A format with a literal separator reads any tokens its fields accept: a day of one or two digits (or a space and a digit), a month of one or two digits, a four-digit year. |
| Dates.OneDigitFields | parser.py:29-31 | A digit 1..9 alone is a `%d` token and a `%m` token worth that digit. |
| Dates.NormalizeFirstFormat | parser.py:29-32 | A stripped string that `%d.%m.%Y` reads normalises to the `DD.MM.YYYY` rendering of its date. |
| Dates.FirstFormat | parser.py:29-34 | The result is the date of some format that parses the string, or `None` exactly when no format parses it. |
| Dates.StrptimeOwnFormat | parser.py:29-31 | Every valid date written in any of the six formats parses back to that date under the same format. |
| Dates.EarlierFormatsFail | parser.py:29-34 | No format tried earlier parses a date written in a later format, so the format that wrote it is the one that matches. |
| Dates.YearIsNoDay | parser.py:29 | A year-first date is never read by the day-first format with the same separator. |
| Dates.DigitsOnly | parser.py:36 | The result holds only digits and is no longer than the input. An all-digit input is kept whole. An input without a digit gives `""`. |
| Dates.DigitsOnlyAppend | parser.py:36 | Removing non-digits distributes over concatenation. With `Dates.DigitsOnly` this fixes the result: the input's digits, in order. |
| Dates.NormalizeDate | parser.py:26-43 | The result is either a `DD.MM.YYYY` rendering or exactly the stripped input. |
| Dates.RenderIsRendered | parser.py:32 | The rendering of a valid date has the `DD.MM.YYYY` shape. |
| Dates.NormalizeSupportedFormat | parser.py:29-32 | A valid date written in any supported format normalises to its `DD.MM.YYYY` rendering. |
| Dates.RenderRoundTrip | parser.py:26-43 | A `DD.MM.YYYY` rendering normalises to itself. |
| Dates.NormalizeIdempotent | parser.py:26-43 | Normalising twice gives the same result as normalising once. |
| Dates.EightDigitFallback | parser.py:36-42 | When no format matches and exactly eight digits remain, the result is the `DDMMYYYY` date when that is valid, and the stripped input otherwise. |
| Dates.UnparsedIsStripped | parser.py:36-43 | When no format matches and the digit count is not eight, the result is the stripped input. |
| Numerals.FirstNumeral | parser.py:157 | A match starts with a digit, or with a sign followed by a digit. Every later character is in the repeated class, which includes whitespace in parser.py and excludes it in backup.py. |
| Numerals.FirstNumeralAt | parser.py:157-160 | The match taken is a substring of the input. It starts at the leftmost position where the pattern can begin. It ends at the end of the input or at the first character outside the repeated class, so the repetition is greedy. |
| Numerals.NumeralIffDigit | parser.py:157-158 | There is a match exactly when the string contains a digit. |
| Numerals.WholeMatch | parser.py:157 | A string that is itself a numeral is its own first match. |
| Numerals.ToFloat | parser.py:165 | A string `float()` accepts reads as a well-formed decimal. |
| Numerals.FloatShape | parser.py:165 | The converse: an accepted string, once stripped, is exactly an optional sign, the whole digits, an optional point and the fraction digits. A missing point means no fraction. |
| Numerals.BlankRefused | parser.py:165 | A string with whitespace inside its stripped form is refused. |
| Numerals.PointDecimal | parser.py:165 | `-?whole.fraction`, with digits on at least one side of the point, reads as exactly that decimal. |
| Numerals.WholeDecimal | parser.py:165 | `-?digits` reads as that whole number. |
| Numerals.TwoPointsNoFloat | backup.py:119-122 | A numeral with two decimal points is not a float. |
| Numerals.RoundHalfEven | parser.py:165 | The result is the whole part or the whole part plus one. It is the nearer of the two, and on a tie it is the even one. |
| Numerals.RoundsDown | parser.py:165 | A fraction starting below 5 rounds down. |
| Numerals.RoundsUp | parser.py:165 | A fraction above one half rounds up. |
| Columns.RoleOf | parser.py:111-121 | A header cell gets the first role, in priority order, whose labels occur in it. It gets none when no role's labels occur. |
| Columns.BindingOf | parser.py:110-128 | Every bound index points at a cell with that role. No later cell has that role, so the last cell wins. Every role some cell has is bound. |
| Columns.BindingStep | parser.py:111-121 | Going from one cell to the next updates the binding of that cell's role only. |
| Columns.BindColumns | backup.py:64-84 | The loop computes the binding of the headers. `found` holds exactly when some cell got a role. |
| Columns.FoundIffBound | backup.py:85-89 | Some cell has a role exactly when the binding is non-empty. |
| Columns.BindingInjective | parser.py:111-121 | Two different roles are never bound to the same column. |
| Columns.PriorityDiffers | backup.py:68-77 | A cell with both an amount label and a description label (and no date label) is a description in parser.py and an amount in backup.py. |
| Totals.SumByCategory | parser.py:196-200 | A category gets a total exactly when one of its entries has an amount. Its total is the sum of its non-`None` amounts. backup.py:150-153 is the same loop. |
| Totals.CategorySumAppend | parser.py:198-200 | The sum over two runs of entries is the sum of the two sums. |
| Totals.NoAmountSumsToZero | parser.py:199 | A category with no amount sums to zero. |
| Parser.HeaderOrTransaction | parser.py:49-60 | An empty row is neither header-like nor transaction-like. A non-empty row is exactly one of them. A row is transaction-like exactly when it is non-empty and its joined text has a digit or `₸`. |
| Parser.MergeHeaderRows | parser.py:96-102 | The loop computes the merged header texts, or `None` when the second row is shorter than the first. |
| Parser.MergedHeaderAt | parser.py:98-101 | Merged cell `i` is the stripped, lower-cased `row1[i] + " " + row2[i]`. |
| Parser.HeaderText | parser.py:105 | A header text has no surrounding whitespace, no upper-case letter and no newline. |
| Parser.CleanHeader | parser.py:101-105 | Turning newlines into spaces, then stripping and lower-casing, gives a text with no surrounding whitespace, no upper-case letter and no newline. |
| Parser.HeaderTexts | parser.py:105 | The headers of a one-line header row hold no surrounding whitespace, no upper-case letter and no newline. |
| Parser.HeaderCells | parser.py:96-106 | The header texts of a table, one-line or merged, hold no surrounding whitespace, no upper-case letter and no newline. |
| Parser.HeaderRows | parser.py:96-106 | The table fails exactly when a header-like second row is shorter than the first. Otherwise the header cells are either the merged texts, with two rows skipped, or the first row's texts, with one row skipped. |
| Parser.HeadersReplaceBinding | parser.py:108-138 | If any header cell is non-empty, the headers' binding replaces the saved one, even when it is incomplete. All-empty headers reuse the saved binding. When none is saved they skip the table, which then yields no records whatever the category rules. |
| Parser.ContinuationTable | parser.py:87-94 | With a binding saved and a transaction-like first row, every row of the table, the first included, is read with the saved binding. The saved binding stays unchanged. |
| Parser.RecordsNeedCompleteBinding | parser.py:82-143 | Empty tables and tables with an empty first row yield nothing and keep the saved binding. A table yields records only when its binding has date, description and amount. |
| Parser.RowRecordFields | parser.py:145-193 | A row yields a record exactly when it reaches past the three required columns and those cells are present. The record's fields are: the date, normalised; the description, stripped; the amount; the category, of the stripped description plus details; currency and details as raw cells, present exactly when bound, inside the row and non-empty. |
| Parser.CollectRecords | parser.py:145-193 | The row loop yields the records of the rows that yield one, in row order. |
| Parser.RowsRecordsAppend | parser.py:145-193 | The records of two runs of rows read one after the other are the first run's records followed by the second's. |
| Parser.RecordsFromRows | parser.py:145-193 | Every record comes from some row of the table. |
| Parser.ResolveTable | parser.py:82-139 | The resolution code computes how a table is read: skip it, or read these rows with this binding. It also computes the new saved binding, or the failure. |
| Parser.ProcessTable | parser.py:82-193 | One table's processing yields its records and the new saved binding, or the failure. |
| Parser.RunExtends | parser.py:80-193 | Each further table extends the walk by exactly that table's step, with the binding saved so far. |
| Parser.RunFailurePersists | parser.py:98-100 | Once the walk has failed, no later table changes its result. |
| Parser.FailureEndsDocument | parser.py:98-100 | A failure inside any page is the result of the whole document. |
| Parser.ParsePdf | parser.py:63-200 | The nested page and table loops compute the walk's result over all tables. On success, the totals are those of the records' amounts, per category. |
| Parser.RunPrefix | parser.py:80-193 | When the walk succeeds, the records of a prefix of the tables are a prefix of all the records. |
| Parser.PagesInOrder | parser.py:63-193 | The records of the first pages come first, in page order. |
| Parser.NoDigitNoAmount | parser.py:157-169 | A cell without a digit has no amount. |
| Parser.TabInsideNoAmount | parser.py:157-165 | Digits, a tab and digits have no amount. The pattern's `\s` takes the tab into the numeral. Only spaces and no-break spaces are removed, so `float()` refuses the numeral. |
| Parser.TextAmountExample | parser.py:157-169 | `"not a number"` has no amount. |
| Parser.DigitsAmount | parser.py:156-165 | `-?digits` has as its amount the value of the digits, so the sign is dropped. |
| Parser.PointAmount | parser.py:156-165 | `-?w.f` passes through normalisation unchanged and is rounded as `float()` reads it. |
| Parser.GroupedCommaNormalized | parser.py:160-164 | `a g,f ` (space grouping, decimal comma) normalises to `ag.f`. |
| Parser.GroupedAmount | parser.py:156-165 | `a g,f ₸` has the amount of `ag.f`. |
| Parser.GroupedAmountExample | parser.py:156-165 | `"1 234,56 ₸"` has amount 1235. |
| Parser.ThousandsCommaNormalized | parser.py:160-162 | `w,g.f` (comma grouping, decimal point) normalises to `wg.f`. |
| Parser.ThousandsAmount | parser.py:156-165 | `w,g.f` has the amount of `wg.f`. |
| Parser.NegativeAmountExample | parser.py:156-165 | `"-45.20"` has amount 45. |
| Parser.HalfUpExample | parser.py:165 | `1234.56` rounds to 1235. |
| Parser.HalfDownExample | parser.py:165 | `-45.20` rounds to magnitude 45. |
| Backup.HeaderTexts | backup.py:66 | The header texts hold no surrounding whitespace and no upper-case letter. |
| Backup.FirstLabelledFrame | backup.py:64-89 | While nothing is saved, the first row's binding becomes the saved binding. It is non-empty exactly when some cell has a known label. The remaining rows are read with it, and a table without a label yields nothing. |
| Backup.BindingHeld | backup.py:64-92 | Once a binding is saved, no later table changes it. |
| Backup.HeldBindingReadsWhole | backup.py:90-92 | With a binding saved, every non-empty table is read whole, its first row included. |
| Backup.IncompleteBindingSkipsAll | backup.py:103-104 | A binding lacking date, description or amount skips every row. |
| Backup.RowRecordFields | backup.py:106-144 | A row yields a record exactly when the binding is complete and the row reaches the required columns. The fields are: the date, normalised; the description and details, stripped, or `None` when empty; the category, of their non-empty parts joined by a space; the currency, stripped, present exactly when bound, inside the row and non-empty. |
| Backup.TruthyParts | backup.py:136 | The category text is built from exactly the present, non-empty parts, in order. |
| Backup.SkippedRowAlone | backup.py:145-147 | A row that raises is skipped on its own: the rows around it yield the same records as without it. |
| Backup.RowsRecordsAppend | backup.py:94-147 | The records of two runs of rows are the first run's records followed by the second's. |
| Backup.CollectRecords | backup.py:94-147 | The row loop yields the records of the rows that yield one, in row order. |
| Backup.ParsePdf | backup.py:57-153 | The table loop, with binding by `found` flag and reuse, computes the walk's records. The totals are those of the records' amounts, per category. |
| Backup.RunPrefix | backup.py:57-147 | The records of a prefix of the tables are a prefix of all the records. |
| Backup.DigitsAmount | backup.py:114-120 | `-?digits` has as its amount the value of the digits. |
| Backup.NoCommaUnchanged | backup.py:119 | A numeral without a comma is unchanged by the comma rule. |
| Backup.TwoSeparatorsNoAmount | backup.py:114-122 | A first match with two separators, of either kind, has no amount. |
| Backup.SeparatorsNoAmount | backup.py:114-122 | `w,g.f` has no amount. |
| Backup.StrictSeparatorExample | backup.py:114-122 | `"1,234.56"` has no amount. |
| Backup.LenientSeparatorExample | parser.py:160-165 | parser.py reads the same `"1,234.56"` as 1235. |
| StatementExample.TwoPageStatement | parser.py:80-193 | A header table followed by a headerless page-two table yields both records. The second table uses the binding saved from the first. |
| StatementExample.OneDigitDate | parser.py:26-32 | `"1.2.2023"` normalises to `"01.02.2023"`. |
| StatementExample.TwoPages | parser.py:87-94 | For two one-table pages, when the first table's binding carries over to the second, the records are concatenated. |

## Left out

- PDF table extraction is not modelled: pdfplumber's `extract_tables` with its table settings (parser.py:62-74) and camelot's `read_pdf` with its lattice-to-stream fallback (backup.py:50-53). The tables they produce are the models' input.
- All `print` logging, `load_categories` (reading rules from a JSON file) and the CSV write (backup.py:160-162) are I/O and are not modelled. The category rules are an input sequence, in the dictionary's iteration order.
- analyzer.py and dashboard.py are not part of this model. They are pandas, Excel and Streamlit glue around `parse_pdf`.
- Totals.SumByCategory: the totals are exact naturals, while the source adds them up in a float `defaultdict`. The source only prints them, and `parse_pdf` returns the rows alone. The model returns the printed totals as a second out-parameter of `Parser.ParsePdf` and `Backup.ParsePdf`.
- Numerals.ToFloat: IEEE double precision is not modelled.
  - The model reads the decimal exactly.
  - A numeral with very many digits can round differently in the source.
  - A numeral so long that `float` gives `inf` makes `round` raise `OverflowError`. In parser.py that escapes `parse_pdf`; in backup.py only the row is skipped. The model gives the exact integer instead.
  - Exponents, underscores and `inf`/`nan` are not modelled, because they cannot occur in a numeral the pattern matches.
- Text.IsDigit: only ASCII digits count. Python's `\d`, `float()` and `strptime` also accept other Unicode decimal digits.
- Text.LowerChar: `str.lower` is modelled for ASCII, the Latin-1 capitals and the Cyrillic capitals U+0400-U+042F only.
- Dates.Strptime: this is a simplified matcher.
  - `%d` and `%m` take one or two digits (`%d` also a space and one digit).
  - `%Y` takes exactly four digits.
  - A space in the format matches one whitespace run.
  - Other `strptime` leniencies are not modelled.
  - The matcher assumes the stripped input that `normalize_date` always passes it.
- Dates.NormalizeDate: years below 1000 are rendered zero-padded to four digits. The platform's `%Y` output for such years may not be padded.
- Parser.RowRecord: a row that is `None` is not modelled, because rows in the model are always sequences.
- Backup.RowRecord: past the row's end, a pandas `Series` lookup raises `KeyError`. The model treats it as a skipped row, consistent with the row's `try`. Other pandas indexing behaviour and `fillna` on non-string cells are not modelled: every cell is a string.
- Concurrency: there is none in the source.
