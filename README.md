# Invoice maker, modelled in Dafny

`invoicemaker.py` is a small desktop tool. It reads an order spreadsheet with one row per customer delivery. It holds a catalog of products with integer rates in an SQLite table. For every row it writes a plain-text invoice. The viewer window can then save all invoices as one PDF, or send them to the default printer as a text file.

This project models the logic of that tool and proves properties of it. It has eight modules of its own, plus two helper modules (`Wrappers`, `Seqs`):

- **Text** (`text.dfy`): the Python string operations the program relies on, written on `seq<char>`. These are `str.strip`, `in` on strings, `split`, `join`, `str(int)` and `int(str)`. A first-occurrence search stands behind `in` and `split`, and zero padding behind `strftime`.
- **Dates** (`dates.dfy`): calendar dates and `strftime("%d-%m-%Y")`, with its inverse.
- **Catalog** (`catalog.dfy`): the `products` table and the "Manage Products" window.
  - `ProductTable` is a class whose `rows` field is changed in place by `Insert`, `DeleteNamed` and `UpdateRate`. These mirror `add_product_to_db`, `delete_product_from_db` and `update_product_in_db`.
  - `ManageWindow` holds the table and the listbox lines. Its methods follow `refresh_product_list`, `add_product`, `delete_product` and `update_product`. Dialog answers and the listbox's active line are parameters.
- **Sheets** (`sheets.dfy`): the sheet as `pd.read_excel` hands it over, and the required-column check.
- **Invoices** (`invoices.dfy`): the invoice builder of `upload_file`. It is written two ways:
  - the loops as methods (`Upload`, `BuildRowInvoice`, `ProductLines`, `AddLine`);
  - the specification functions they are proved against (`Process`, `RowInvoice`, `RowItems`, `InvoiceText`).
- **PdfLayout** (`pdflayout.dfy`): `save_all_as_pdf`, as the sequence of drawing calls it makes. `NewPage` is `add_page`, `Heading` is the bold label `multi_cell`, and `Cell` is a `cell` that ends the line. The methods `SaveAllAsPdf`, `DrawInvoice` and `FinishInvoice` keep the source's loops and its `invoice_count` counter. They are proved equal to the function `Layout`.
- **PrintStream** (`printstream.dfy`): the bytes `select_printer_and_print` writes to its temporary file. Each invoice is written in UTF-8, followed by `"\n" + 83 dashes + "\n\n"`.
- **Pipeline** (`pipeline.dfy`): links the builder to the PDF saver. It proves when a successful upload can always be saved.

Behaviour of the code that the model keeps:

- Names match only by exact string equality, both in the column check and in the product loop. There is no case or whitespace folding.
- The catalog has no uniqueness constraint. Delete and update act on every row with the given name.
- The "Update" button ignores the selected entry's name. It sets the new rate on the rows named by the newly typed, stripped name, and changes no name.
- A quantity cell is tested with `> 0` before `int()` truncates it. A quantity of 0.5 therefore gives the line `name: 0 x rate = 0`.
- The grand total line is never drawn in the PDF. Its branch only changes the font.
- A label line is cut at its first colon. The text after a second colon is dropped.
- Any line that merely contains a label word counts as a label line, e.g. a product called "Address Book".
- The rule between the two invoices of a page is 100 dashes, while the print separator has 83.
- `df.empty` holds when the sheet has no rows or no columns.

## Model

| member | source | states |
|---|---|---|
| Text.IsSpace | invoicemaker.py:174 | `str.isspace` on one code point: the characters `strip()` removes, stated for strips by TrimLeft, TrimRight and Strip |
| Text.IsIntSpace | invoicemaker.py:229 | the whitespace `int()` skips: that of `str.isspace` without U+001C to U+001F; ParseIntLeadingSeparator and ParseIntTrailingSeparator state the difference |
| Text.TrimLeft | invoicemaker.py:174 | the result is a suffix of the input, everything dropped is whitespace, and it does not start with whitespace |
| Text.TrimRight | invoicemaker.py:174 | the result is a prefix of the input, everything dropped is whitespace, and it does not end with whitespace |
| Text.Strip | invoicemaker.py:174 | `str.strip()`: the result is a piece of the input with only whitespace cut away before and after it, and the piece neither starts nor ends with whitespace |
| Text.CutParts | invoicemaker.py:174 | a prefix of a suffix, with only whitespace cut from either side, is a whitespace cut of the whole |
| Text.StripUnchanged | invoicemaker.py:183 | a string without leading or trailing whitespace is its own strip |
| Text.StripIdempotent | invoicemaker.py:174 | stripping twice is stripping once |
| Text.IntTrimLeft | invoicemaker.py:229 | the result is a suffix of the input, everything dropped is whitespace `int()` skips, and it does not start with such whitespace |
| Text.IntTrimRight | invoicemaker.py:229 | the result is a prefix of the input, everything dropped is whitespace `int()` skips, and it does not end with such whitespace |
| Text.IntStrip | invoicemaker.py:229 | the text `int()` parses: a piece of the input with only whitespace `int()` skips cut away before and after it, neither starting nor ending with such whitespace |
| Text.IntCutParts | invoicemaker.py:229 | a prefix of a suffix, with only skipped whitespace cut from either side, is such a cut of the whole |
| Text.IntStripUnchanged | invoicemaker.py:229 | a text without skipped whitespace at either end is parsed as it stands |
| Text.StripTrailingSpace | invoicemaker.py:174 | stripping text followed by whitespace gives the text, when the text has no whitespace at either end |
| Text.FindFrom | invoicemaker.py:176 | the index found is the first occurrence at or after the start; `None` means no occurrence there |
| Text.Find | invoicemaker.py:176 | `Some(i)` is the first occurrence of the pattern; `None` means it occurs nowhere |
| Text.ContainsAt | invoicemaker.py:176 | a pattern occurring at any index makes `pat in s` true |
| Text.ContainsFirst | invoicemaker.py:176 | when a pattern is found, its first character is in the string |
| Text.ContainsInContext | invoicemaker.py:176 | a pattern found in `a` is found in `a + b` and in `b + a` |
| Text.BeforeFirst | invoicemaker.py:239 | `s.split(sep)[0]` is a prefix of `s`, shorter than `s` exactly when `sep` occurs in it; it then ends where the first occurrence of `sep` starts |
| Text.Contains | invoicemaker.py:176 | `pat in s`: a search for the first occurrence succeeds; ContainsAt, ContainsFirst and ContainsInContext state its properties |
| Text.Join | invoicemaker.py:103 | `sep.join(parts)`: the parts with one separator between neighbours; JoinAppend, JoinContainsPart and SplitJoin state its properties |
| Text.JoinAppend | invoicemaker.py:103 | joining two non-empty lists puts exactly one separator between the two joins |
| Text.JoinContainsPart | invoicemaker.py:77 | every part occurs in the joined string |
| Text.NoSeparatorBefore | invoicemaker.py:174 | a prefix with no occurrence of the separator does not contain it |
| Text.SplitCons | invoicemaker.py:174 | a separator-free piece, the separator and the pieces of the rest join back to the string |
| Text.Split | invoicemaker.py:174 | `split` gives at least one piece, no piece holds the separator, and joining the pieces gives back the string |
| Text.SplitWhole | invoicemaker.py:181 | the separator does not occur iff the only piece is the whole string; when it occurs there are at least two pieces |
| Text.SplitFirst | invoicemaker.py:181 | the first piece ends at the first separator |
| Text.SplitJoin | invoicemaker.py:174 | splitting a join gives back the parts when no part contains the separator |
| Text.NatToString | invoicemaker.py:95 | `str(n)` is a non-empty run of digits that denotes `n` and has no leading zero |
| Text.NatToStringWidth | invoicemaker.py:85 | a number below `10^w` prints in at most `w` digits |
| Text.IntToString | invoicemaker.py:95 | `str(i)` is the digits of `i` for non-negative `i` and a minus sign before the digits of `-i` otherwise; it starts and ends with a non-space character |
| Text.IntToStringOneLine | invoicemaker.py:95 | a printed integer contains no newline |
| Text.GroupsValue | invoicemaker.py:229 | a value is produced exactly for digit groups, with single underscores between digits, of at most 4300 digits (underscores not counted) |
| Text.ParseIntRoundTrip | invoicemaker.py:229 | `int(str(i)) == i` for every integer `i` of at most 4300 digits, and `ValueError` beyond (where `str(i)` itself raises too) |
| Text.ParseNatural | invoicemaker.py:229 | the digits of a natural number parse back to it, up to the digit limit; beyond it `int()` raises |
| Text.ParseNegative | invoicemaker.py:250 | a minus sign followed by the digits of `n` parses to `-n`, up to the digit limit; beyond it `int()` raises |
| Text.ParseMinus | invoicemaker.py:250 | a minus sign before a text ending in a digit gives the negated value of that text, or `ValueError` when it has none |
| Text.SignedMinus | invoicemaker.py:250 | a stripped text starting with a minus sign has the negated value of the rest, or none |
| Text.ParseMinusDigits | invoicemaker.py:250 | a minus sign before a digit part parses to the negated value |
| Text.ParseIntDigitLimit | invoicemaker.py:229 | every run of more than 4300 digits makes `int()` raise `ValueError` |
| Text.ParsePlain | invoicemaker.py:229 | a text without skipped whitespace at its ends is read by its sign and digits alone |
| Text.SignedDigits | invoicemaker.py:229 | unsigned digits are read as their value up to the digit limit, and refused beyond it |
| Text.SignedBadStart | invoicemaker.py:229 | a text starting with neither sign nor digit is refused |
| Text.SignedBadEnd | invoicemaker.py:229 | a text not ending in a digit is refused |
| Text.ParseIntLeadingSeparator | invoicemaker.py:229 | for every text `s` and every U+001C to U+001F character `c`: `int(c + s)` raises `ValueError`, although `strip()` would remove `c` |
| Text.ParseIntTrailingSeparator | invoicemaker.py:229 | for every text `s` and every such `c`: `int(s + c)` raises `ValueError` |
| Text.IntStripKeepsFirst | invoicemaker.py:229 | a first character `int()` does not skip starts the parsed text |
| Text.IntStripKeepsLast | invoicemaker.py:229 | a last character `int()` does not skip ends the parsed text |
| Text.DigitsAreGroups | invoicemaker.py:229 | plain digits are digit groups with no underscore to drop |
| Text.ParseInt | invoicemaker.py:229 | `int(s)` in base 10: the whitespace `int()` skips, an optional sign and digit groups of at most 4300 digits, `None` where Python raises `ValueError`; its behaviour is stated by the lemmas below |
| Text.DropUnderscoresAppend | invoicemaker.py:229 | removing underscores works part by part |
| Text.DropUnderscoresJoin | invoicemaker.py:229 | an underscore between two parts vanishes when underscores are removed |
| Text.GroupsJoined | invoicemaker.py:229 | two digit parts joined directly or by one underscore form a digit part |
| Text.GroupsJoinedBy | invoicemaker.py:229 | the same, for one joining text that is empty or one underscore |
| Text.GroupsUnderscore | invoicemaker.py:229 | for all digit parts `a` and `b`: `a_b` has the same value as `ab` (`int("1_000") == 1000`), and has one exactly when their digits number at most 4300 |
| Text.GroupsLeadingZero | invoicemaker.py:229 | for every digit part: a leading zero does not change its value, but counts towards the digit limit, so it is refused exactly when the part already has 4300 digits |
| Text.DoubleUnderscoreRefused | invoicemaker.py:229 | a text with two underscores in a row is no digit part |
| Text.ParseIntDoubleUnderscore | invoicemaker.py:229 | for all texts `a` and `b`: `int(a + "__" + b)` raises `ValueError` |
| Text.ParseIntUnderscorePair | invoicemaker.py:229 | `int()` raises `ValueError` on every text that has underscores at two neighbouring positions |
| Text.SignedDoubleUnderscore | invoicemaker.py:229 | a stripped text with two underscores in a row has no value, with or without a leading sign |
| Text.IntStripDoubleUnderscore | invoicemaker.py:229 | the text `int()` parses from a text with two neighbouring underscores has no value |
| Text.IntStripKeepsPair | invoicemaker.py:229 | two neighbouring characters that `int()` does not skip stay side by side in the text it parses |
| Text.ParseIntSpacedSign | invoicemaker.py:250 | for every sign followed by whitespace, after leading whitespace only: `int()` raises `ValueError`, whatever follows |
| Text.ParseIntSpacedSignAt | invoicemaker.py:250 | the same refusal, for a sign at a given index |
| Text.IntStripFromSign | invoicemaker.py:250 | before such a sign, `int()` either reaches the sign and its whitespace, or stops at a separator control it does not skip |
| Text.IntCutKeeps | invoicemaker.py:250 | a character `int()` does not skip lies inside the text it parses, at the same place |
| Text.SignedSpacedSign | invoicemaker.py:250 | a sign followed by whitespace or by nothing has no value |
| Text.ZeroPadded | invoicemaker.py:85 | zero-padding gives `max(width, digits)` characters, all digits, with the same value |
| Text.LeadingZero | invoicemaker.py:85 | a leading zero keeps a digit string all digits and keeps its value |
| Text.Repeat | invoicemaker.py:194 | `c * n` is `n` copies of `c` |
| Dates.FormatDate | invoicemaker.py:85 | `strftime("%d-%m-%Y")` is ten characters: two digits, a dash, two digits, a dash, four digits |
| Dates.FormatDateRoundTrip | invoicemaker.py:85 | parsing the formatted date gives back the date |
| Dates.FormatDateInjective | invoicemaker.py:85 | two different delivery dates never print alike |
| Catalog.WithoutName | invoicemaker.py:45 | after `DELETE ... WHERE name=?`, a row remains iff it was present and has a different name |
| Catalog.WithoutNameAppend | invoicemaker.py:45 | deleting works part by part, so the remaining rows keep their order |
| Catalog.WithoutUnknownName | invoicemaker.py:45 | deleting a name no row has leaves the table unchanged |
| Catalog.WithRate | invoicemaker.py:53 | after `UPDATE ... WHERE name=?`, every name is kept, rows with that name get the new rate, and all other rows are unchanged |
| Catalog.UpdateUnknownName | invoicemaker.py:53 | updating a name no row has leaves the table unchanged |
| Catalog.UpdateTwice | invoicemaker.py:53 | of two updates under one name, the second rate is what remains |
| Catalog.Entry | invoicemaker.py:223 | the listbox text `f"{name} - {rate}"` of one product; EntryNameRoundTrip states what reading it back gives |
| Catalog.EntryName | invoicemaker.py:239 | `entry.split(" - ")[0]`: by Text.BeforeFirst, the entry up to the first `" - "` |
| Catalog.ListableName | invoicemaker.py:239 | the names the listbox gives back intact: no `" - "` inside and no `" -"` at the end, by EntryNameRoundTrip |
| Catalog.ActiveEntry | invoicemaker.py:237 | `listbox.get(ACTIVE)` is `""` for an empty listbox and otherwise one of its lines |
| Catalog.Entries | invoicemaker.py:219-223 | the listbox holds one `"{name} - {rate}"` line per row, in row order |
| Catalog.EarlySeparator | invoicemaker.py:239 | a `" - "` in an entry that starts before the entry's own separator means the name is not listable |
| Catalog.SeparatorInName | invoicemaker.py:239 | the entry of a name that is not listable has a `" - "` that starts inside the name |
| Catalog.EntryNameRoundTrip | invoicemaker.py:223-239 | `entry.split(" - ")[0]` gives back the product's name iff the name contains no `" - "` and does not end in `" -"` |
| Catalog.EntryNameCutsAtSeparator | invoicemaker.py:239-240 | the product "A - B" is listed as "A - B - 5", and delete then targets the name "A" |
| Catalog.ActiveEntryEmpty | invoicemaker.py:237-238 | `listbox.get(ACTIVE)` is empty, so the button does nothing, iff the table is empty |
| Catalog.ProductTable.constructor | invoicemaker.py:11-22 | a newly created table has no rows |
| Catalog.ProductTable.Insert | invoicemaker.py:34-39 | the row is appended when the rate fits an SQLite INTEGER; otherwise the table is unchanged and the call reports failure |
| Catalog.ProductTable.DeleteNamed | invoicemaker.py:42-47 | the new rows are `WithoutName` of the old rows |
| Catalog.ProductTable.UpdateRate | invoicemaker.py:50-55 | the new rows are `WithRate` of the old rows when the rate fits; otherwise nothing changes |
| Catalog.ManageWindow.constructor | invoicemaker.py:219-223 | the window shows the table's rows, and the table is untouched |
| Catalog.ManageWindow.Refresh | invoicemaker.py:219-223 | afterwards the listbox shows exactly the table |
| Catalog.Answered | invoicemaker.py:227 | the `if product_name:` test on a dialog answer: neither cancelled nor empty; ManageWindow.AddProduct states both outcomes |
| Catalog.ManageWindow.AddProduct | invoicemaker.py:225-234 | every outcome of the add button. A cancelled or empty name does nothing. A cancelled rate escapes as an exception. A rate `int()` rejects shows the error box. Otherwise the stripped name is appended with the rate, and the message shows the raw name. Only a success refreshes the listbox to show the table; any other outcome leaves it as it was, so a listbox another Manage Products window made stale stays stale |
| Catalog.ManageWindow.DeleteProduct | invoicemaker.py:236-242 | with no active entry nothing happens; otherwise every row named by the entry's text before `" - "` is deleted, and the message names it. The entry is read from this window's listbox, current or stale; only a deletion refreshes it |
| Catalog.ManageWindow.UpdateProduct | invoicemaker.py:244-255 | every outcome of the update button, in the source's order: active entry, rate answer, `int()`, name answer, range. On success the new rate is set on the rows with the newly typed stripped name and the listbox is refreshed; otherwise the listbox is left as it was, current or stale |
| Sheets.CellAt | invoicemaker.py:83-84 | `row[column]`, with a column the row lacks read as an empty (NaN) cell |
| Sheets.Shown | invoicemaker.py:101 | the text a cell puts into an invoice through an f-string: `nan` for a NaN cell, `NaT` for a NaT cell |
| Sheets.IsEmpty | invoicemaker.py:71 | `df.empty`: no rows or no columns; ProcessOutcomes states that it is checked first |
| Sheets.RequiredColumns | invoicemaker.py:74 | the required list has `3 + n` entries for `n` products: "Customer Name", "Address", "Delivery Date", then each product name in catalog order |
| Sheets.AllPresent | invoicemaker.py:75 | `all(col in df.columns ...)`: by MissingColumnsExact, true exactly when no required column is missing |
| Sheets.ProductNames | invoicemaker.py:74 | the product names, one per catalog row, in catalog order |
| Sheets.Absent | invoicemaker.py:76 | a column is listed as missing iff it is required and not a sheet column |
| Sheets.AbsentAppend | invoicemaker.py:76 | the missing list keeps the order of the required list |
| Sheets.MissingColumns | invoicemaker.py:75 | `missing_cols` for the sheet's columns and the catalog; MissingColumnsExact states what it lists and in which order |
| Sheets.MissingColumnsExact | invoicemaker.py:74-77 | the check passes iff nothing is missing; the missing list names exactly the absent required columns, fixed columns first, then products in catalog order |
| Sheets.MissingMessage | invoicemaker.py:77 | the error message mentions every missing column |
| Invoices.Amount | invoicemaker.py:94 | `int(order_quantity * product_rate)` of one line; AppendItem and RowItemsCountAndTotal state how it adds to the grand total |
| Invoices.LineText | invoicemaker.py:95 | `f"{product_name}: {order_quantity} x {product_rate} = {total_amount}"`; Pipeline.ItemLineShape states it is one line with a colon |
| Invoices.InvoiceText | invoicemaker.py:99-104 | the invoice text as lines 99-104 build it; InvoiceTextJoin states it is TextLines joined by newlines |
| Invoices.TextLines | invoicemaker.py:99-104 | the invoice's lines top to bottom, with one empty line for no items; InvoiceTextLines states the saver reads them back |
| Invoices.Collect | invoicemaker.py:79-107 | the values of all steps or the first error; CollectOk, CollectErr and CollectPrefixErr state it |
| Invoices.Build | invoicemaker.py:79-107 | the row loop's result; BuildOk and BuildErr state it is all or nothing |
| Invoices.Process | invoicemaker.py:68-109 | what `upload_file` computes; ProcessOutcomes states each branch, and Upload is proved to compute it |
| Invoices.RowItems | invoicemaker.py:91-96 | a failing row fails with a quantity error for that row; a row has at most one item per catalog product |
| Invoices.LineTexts | invoicemaker.py:95 | one text line per item |
| Invoices.InvoiceTextJoin | invoicemaker.py:99-104 | the invoice text is its lines joined by newlines, with a final newline |
| Invoices.InvoiceTextStripped | invoicemaker.py:99-104 | stripping the invoice removes exactly its final newline |
| Invoices.TextLinesOneLine | invoicemaker.py:99-104 | no invoice line breaks when no field and no item line does |
| Invoices.InvoiceTextLines | invoicemaker.py:99-104 | stripping the invoice and splitting it at newlines gives back exactly its lines, when the fields are single lines |
| Invoices.RowInvoice | invoicemaker.py:82-107 | a row fails only with a bad date or a bad quantity on that row |
| Invoices.RowResults | invoicemaker.py:82 | one result per row, in row order, each numbered by its position |
| Invoices.RowItemsAppend | invoicemaker.py:91-96 | the product loop over a split catalog is the loop over each part, chained: lines come in catalog order, and the first unreadable cell fails the row |
| Invoices.Filled | invoicemaker.py:92 | `product_name in row and pd.notna(row[product_name])`; RowItemsSingle and RowItemsMembers state its effect on a row's lines |
| Invoices.Unreadable | invoicemaker.py:92 | a filled cell that is not a number, where `row[product_name] > 0` raises `TypeError`; RowItemsOk states that exactly these make a row fail |
| Invoices.Ordered | invoicemaker.py:92 | a filled number cell above 0; RowItemsMembers states that exactly these products get a line |
| Invoices.ItemOf | invoicemaker.py:93-95 | the line of an ordered product, its quantity truncated by `int()`; FractionalQuantity and RowItemsSingle state it |
| Invoices.ItemFor | invoicemaker.py:92-96 | what one pass of the product loop adds: nothing, one line, or the `TypeError`; RowItemsSingle and AddLine state it |
| Invoices.Total | invoicemaker.py:96 | `grand_total`, the sum of the line amounts; AppendItem and RowItemsCountAndTotal state it |
| Invoices.RowItemsSingle | invoicemaker.py:92-95 | one product gives its line when its cell is a number above 0, fails on a filled non-number cell, and gives nothing otherwise |
| Invoices.RowItemsOk | invoicemaker.py:92 | a row's items exist iff no filled product cell is a non-number |
| Invoices.RowItemsMembers | invoicemaker.py:91-95 | the items are exactly the lines of the ordered products |
| Invoices.RowItemsCountAndTotal | invoicemaker.py:89-98 | there is one line per ordered product, and the grand total equals the sum of truncated quantity times rate over them, which is 0 for none |
| Invoices.FractionalQuantity | invoicemaker.py:92-95 | a quantity strictly between 0 and 1 still gives a line, `name: 0 x rate = 0` |
| Invoices.CollectOk | invoicemaker.py:82-107 | a run succeeds iff every step does, and then holds every step's value in order |
| Invoices.CollectErr | invoicemaker.py:82-107 | a failing run reports the error of its first failing step |
| Invoices.CollectPrefixErr | invoicemaker.py:82-107 | once a prefix fails, the whole run fails with that error |
| Invoices.BuildOk | invoicemaker.py:79-107 | all or nothing: the batch succeeds iff every row does, and then holds one invoice per row, in row order |
| Invoices.BuildErr | invoicemaker.py:79-112 | a failing batch fails with the error of its first failing row |
| Invoices.ProcessOutcomes | invoicemaker.py:71-107 | an empty sheet is refused before any column check; then missing columns are refused with the full list; then the batch runs; success yields as many invoices as rows |
| Invoices.RowItemsNext | invoicemaker.py:91-96 | one step of the product loop, case by case |
| Invoices.AppendItem | invoicemaker.py:95-96 | appending an item appends its line and adds its amount to the total |
| Invoices.ProductLines | invoicemaker.py:88-96 | the loop's lines and grand total are those of `RowItems`, or the loop stops with its error |
| Invoices.ScanStep | invoicemaker.py:91-96 | one loop pass keeps the loop invariant, or the row's result is the pass's error |
| Invoices.AddLine | invoicemaker.py:92-96 | an ordered product appends its line and adds its amount; a filled non-number fails; anything else changes nothing |
| Invoices.BuildRowInvoice | invoicemaker.py:83-107 | the row loop body computes `RowInvoice` |
| Invoices.Upload | invoicemaker.py:68-109 | the whole upload computes `Process` |
| PdfLayout.IsLabelLine | invoicemaker.py:176 | `any(label in line for label in [...])` over the four labels; LineKinds states what it decides |
| PdfLayout.InvoiceLines | invoicemaker.py:174 | `invoice.strip().split('\n')`; Invoices.InvoiceTextLines states what it gives for a built invoice |
| PdfLayout.InvoiceLayout | invoicemaker.py:174-186 | the line loop over one invoice; InvoiceLayoutOk states when it succeeds, and DrawInvoice is proved to compute it |
| PdfLayout.AfterInvoice | invoicemaker.py:189-194 | a new page when the page holds two invoices, a blank line and the rule otherwise; FinishInvoice is proved to follow it |
| PdfLayout.Assemble | invoicemaker.py:166-194 | the first page, then each invoice in place; AssembleOk, AssembleErr and AssembleEnd state it |
| PdfLayout.Layout | invoicemaker.py:164-194 | a produced document starts with the first page; PageCount, DocumentEnd, LayoutOk and LayoutErr state the rest |
| PdfLayout.LineLayout | invoicemaker.py:176-186 | a line's calls never start a page, and a failing line fails with its own text and invoice number |
| PdfLayout.LineResults | invoicemaker.py:175 | one result per line, in order |
| PdfLayout.Drawn | invoicemaker.py:172 | one result per invoice, the `i`-th being the layout of the `i`-th invoice |
| PdfLayout.Placed | invoicemaker.py:188-194 | invoice `i` is followed by what a page holding `i % 2 + 1` invoices gets |
| PdfLayout.LineKinds | invoicemaker.py:176-186 | a line fails iff it is a label line, not the grand total, and has no colon; the grand total line draws nothing; any other line is drawn verbatim |
| PdfLayout.LabelFields | invoicemaker.py:181-183 | a label line with one colon is drawn as a bold label (the text before the colon) and the stripped value |
| PdfLayout.LabelValueCut | invoicemaker.py:183 | text after a second colon is dropped |
| PdfLayout.GrandTotalProductVanishes | invoicemaker.py:177-178 | a line whose product name mentions "Grand Total" draws nothing |
| PdfLayout.InvoiceLayoutOk | invoicemaker.py:174-186 | an invoice draws iff each of its lines does |
| PdfLayout.PagesAppend | invoicemaker.py:166-191 | the pages of a concatenation are the sum of the parts' pages |
| PdfLayout.PagesNone | invoicemaker.py:176-186 | calls without `add_page` start no page |
| PdfLayout.LinesStartNoPage | invoicemaker.py:175-186 | the line loop never starts a page |
| PdfLayout.InvoiceStartsNoPage | invoicemaker.py:174-186 | drawing an invoice never starts a page |
| PdfLayout.PlacedPages | invoicemaker.py:188-194 | the invoice loop starts one page for every second invoice |
| PdfLayout.PageCount | invoicemaker.py:166-194 | `n` invoices take `1 + n / 2` pages |
| PdfLayout.AssembleEnd | invoicemaker.py:188-194 | the document ends with a rule after an odd number of invoices and with a new page after an even number |
| PdfLayout.DocumentEnd | invoicemaker.py:188-194 | the same, for the document of a list of invoices |
| PdfLayout.AssembleOk | invoicemaker.py:172-194 | the document is produced iff every invoice draws |
| PdfLayout.LayoutOk | invoicemaker.py:172-194 | the PDF is produced iff every invoice, numbered by position, draws |
| PdfLayout.AssembleErr | invoicemaker.py:172-199 | a failed document reports the error of the first invoice that fails |
| PdfLayout.LayoutErr | invoicemaker.py:172-199 | the save fails with the error of the first invoice that cannot be drawn, and all earlier ones draw |
| PdfLayout.AssembleStart | invoicemaker.py:166 | before the loop, the document is the first page |
| PdfLayout.AssembleDone | invoicemaker.py:172 | after all invoices, the document so far is the whole document |
| PdfLayout.AssembleStep | invoicemaker.py:172-194 | drawing invoice `n` appends its calls and what follows it on its page |
| PdfLayout.AssembleStepErr | invoicemaker.py:172-199 | an invoice that cannot be drawn fails the save with its error |
| PdfLayout.DrawInvoice | invoicemaker.py:174-186 | the line loop computes `InvoiceLayout` |
| PdfLayout.FinishInvoice | invoicemaker.py:188-194 | the counter goes to `(n + 1) % 2`; the second invoice of a page gets a new page, the first a blank line and the rule |
| PdfLayout.SaveAllAsPdf | invoicemaker.py:164-194 | the save computes `Layout` |
| PrintStream.EncodeChar | invoicemaker.py:209 | the UTF-8 bytes of a code point: length 1 to 4 by code-point range, the matching lead byte, and continuation bytes after it |
| PrintStream.EncodeCharRoundTrip | invoicemaker.py:209 | one character's bytes decode back to it |
| PrintStream.Encode | invoicemaker.py:209 | the encoding has at least one byte per character |
| PrintStream.EncodeSingle | invoicemaker.py:209 | a single character encodes as its own EncodeChar bytes; with EncodeAppend this fixes every byte of an encoding |
| PrintStream.EncodeAppend | invoicemaker.py:208-209 | encoding distributes over concatenation |
| PrintStream.EncodeAscii | invoicemaker.py:210 | text below U+0080 encodes byte for character |
| PrintStream.SeparatorBytes | invoicemaker.py:210 | the separator is 86 bytes: a newline, 83 dashes, two newlines |
| PrintStream.StreamText | invoicemaker.py:208-210 | each invoice followed by the separator, in order; StreamPiece, StreamTextLength and StreamEnds state its shape |
| PrintStream.StreamBytes | invoicemaker.py:208-210 | each invoice's bytes followed by the separator's; StreamBytesEncode states it is the encoded StreamText, and PrintInvoices is proved to write it |
| PrintStream.StreamBytesEncode | invoicemaker.py:208-210 | writing invoice by invoice equals encoding the whole stream text at once |
| PrintStream.StreamTextAppend | invoicemaker.py:208-210 | the stream of a batch split in two is the two streams in order |
| PrintStream.StreamTextLength | invoicemaker.py:208-210 | the stream has every invoice character plus 86 separator characters per invoice |
| PrintStream.StreamPiece | invoicemaker.py:208-210 | invoice `i` appears verbatim at its offset, followed by the separator, and the next invoice starts right after it |
| PrintStream.StreamTextNext | invoicemaker.py:208-210 | the stream through invoice `i` is the stream before it, the invoice and a separator |
| PrintStream.StreamTextSplit | invoicemaker.py:208-210 | the stream is its part before a point followed by its part after it |
| PrintStream.StreamEnds | invoicemaker.py:208-210 | the stream is empty iff there are no invoices, and otherwise ends with the separator |
| PrintStream.PrintInvoices | invoicemaker.py:203-210 | the `if printer_name:` test: an empty name writes nothing; otherwise the file holds exactly `StreamBytes` |
| Pipeline.DateOneLine | invoicemaker.py:85 | a formatted date contains no newline |
| Pipeline.ItemLineShape | invoicemaker.py:95 | an item line is one line and contains a colon |
| Pipeline.LineDraws | invoicemaker.py:176-183 | an empty line, or a line with a colon, draws without error |
| Pipeline.TextLinesColons | invoicemaker.py:99-104 | every invoice line is empty or contains a colon when the item lines do |
| Pipeline.LinesDraw | invoicemaker.py:174-186 | an invoice built from single-line fields draws without error |
| Pipeline.RowInvoiceDraws | invoicemaker.py:83-107 | the invoice a row yields draws without error when its customer, its address and the product names are single lines |
| Pipeline.ItemTextAt | invoicemaker.py:95 | the `j`-th item line is the text of the `j`-th item |
| Pipeline.UploadSavesAsPdf | invoicemaker.py:79-109 | every batch the upload hands to the viewer lays out without error, with `1 + n / 2` `add_page` calls for `n` rows, unless some field holds a line break; FPDF's automatic page breaks and its Latin-1 failures are outside the layout model |

## Left out

- The tkinter user interface is not modelled: the windows, scrollable text boxes, buttons, the loading label and every file and input dialog. Dialog answers, the active listbox line and the default printer's name are parameters. With no file chosen the source does nothing; that case is not modelled.
- `pd.read_excel` and `iterrows` are not modelled. A sheet is its column headers and rows that map headers to cells.
  - A NaN or NaT cell is `Missing`, and keeps which of the two it is, since an f-string prints `nan` or `NaT`.
  - Numbers are exact `real`s. IEEE floats, `inf` and NaN arithmetic are left out.
  - A cell's printed form (`str()` of a float or timestamp) is taken as given.
  - Duplicate headers are not modelled.
  - Headers are taken as text. pandas gives a numeric or date header cell a non-string column label, which never equals a product name, so the source reports such a column missing; the model compares the header's text and accepts it.
- The error text that Python exceptions put in the upload's message box is not reproduced. A failing row gives `BadDate` or `BadQuantity` instead.
- The catalog is read once per upload, as one snapshot, while the source re-reads it for every row. Nothing else changes the table during an upload.
- The sqlite connection handling is not modelled: connect, commit, close, the file on disk and `AUTOINCREMENT` ids. `SELECT` has no `ORDER BY`; the model assumes insertion order.
- FPDF is not modelled. That covers fonts and font changes, cell sizes, the automatic page break (margin 15), Latin-1 encoding failures and writing the file. Only the sequence of page, heading and cell calls is kept. The success and error message boxes are left out as well.
- `win32print`, `tempfile` and `os.startfile` (handing the file to the spooler) are not modelled. `PrintInvoices` returns the bytes of the file.
- PrintStream.PrintInvoices: with no default printer at all, `GetDefaultPrinter` raises before anything is written; the model only has the name it returns, and the empty-name branch is the source's `if printer_name:` test.
- Text.ParseInt: does not accept the non-ASCII Unicode digits that Python's `int()` also accepts.
- Text.ParseInt: the 4300-digit limit is the default of Python 3.11 and later (`sys.set_int_max_str_digits` is not modelled); earlier versions have no limit.
- Text.IntToString: `str()`'s own 4300-digit limit is not modelled. Every integer the program prints stays far below it: rates are 64-bit, and quantities are truncated floats below 2^1024.
- Text.IsSpace: follows Python's `str.isspace` table for the code points it lists; no Unicode database is consulted.
- PrintStream.EncodeChar: Dafny characters are Unicode scalar values, so lone surrogates, which Python refuses to encode, cannot occur.
- Catalog.ProductTable.Insert: an `int` outside the 64-bit range, which `sqlite3` refuses with `OverflowError`, is modelled as a failed call that leaves the table unchanged.
- Catalog.ManageWindow.AddProduct: an exception that escapes a button handler is the single outcome `Uncaught`.
- Catalog.ManageWindow.UpdateProduct: an exception that escapes a button handler is the single outcome `Uncaught`.
- The viewer window (`show_all_invoices`) is not modelled beyond the list of invoice strings it receives.
