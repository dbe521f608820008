/** The invoice builder: for each sheet row, the line items of the ordered
    products (in catalog order), their grand total and the invoice text;
    for the whole sheet, one invoice per row or a single failure. */
module Invoices {
  import opened Wrappers
  import opened Text
  import opened Dates
  import opened Catalog
  import opened Sheets
  import opened Seqs

  /** Why an upload produced no invoices. The row errors stand for the
      Python exceptions a bad cell raises: the message box shows their text,
      which the model does not reproduce. */
  datatype UploadError =
    | EmptySheet                            // "The selected Excel file is empty."
    | ColumnsMissing(columns: seq<string>)  // the missing-columns ValueError
    | BadDate(row: nat)                     // the date cell has no `strftime`
    | BadQuantity(row: nat, product: string) // a text or date cell compared with 0

  datatype LineItem = LineItem(product: string, quantity: int, rate: int)

  /** `int(order_quantity * product_rate)`. */
  function Amount(item: LineItem): int {
    item.quantity * item.rate
  }

  /** `f"{product_name}: {order_quantity} x {product_rate} = {total_amount}"`. */
  function LineText(item: LineItem): string {
    item.product + ": " + IntToString(item.quantity) + " x " + IntToString(item.rate)
    + " = " + IntToString(Amount(item))
  }

  /** The product's column is a sheet column and its cell on this row is not NaN. */
  predicate Filled(p: Product, columns: seq<string>, row: Row) {
    p.name in columns && !CellAt(row, p.name).Missing?
  }

  /** A filled cell that is not a number: `cell > 0` raises `TypeError`. */
  predicate Unreadable(p: Product, columns: seq<string>, row: Row) {
    Filled(p, columns, row) && !CellAt(row, p.name).Number?
  }

  /** The product is on this row's invoice: its cell holds a number above 0. */
  predicate Ordered(p: Product, columns: seq<string>, row: Row) {
    Filled(p, columns, row) && CellAt(row, p.name).Number? && CellAt(row, p.name).value > 0.0
  }

  /** The line of an ordered product: the quantity truncated by `int()`
      (after the test against 0), times the catalog rate. */
  function ItemOf(p: Product, columns: seq<string>, row: Row): LineItem
    requires Ordered(p, columns, row)
  {
    LineItem(p.name, CellAt(row, p.name).value.Floor, p.rate)
  }

  /** One step of the product loop. */
  function ItemFor(p: Product, columns: seq<string>, row: Row, index: nat): Result<seq<LineItem>, UploadError> {
    if !Filled(p, columns, row) then Ok([])
    else
      match CellAt(row, p.name)
      case Number(v, _) => if v > 0.0 then Ok([LineItem(p.name, v.Floor, p.rate)]) else Ok([])
      case _ => Err(BadQuantity(index, p.name))
  }

  /** The line items of one row: the product loop over the catalog, in catalog order. */
  function RowItems(catalog: seq<Product>, columns: seq<string>, row: Row, index: nat): (r: Result<seq<LineItem>, UploadError>)
    decreases |catalog|
    ensures r.Err? ==> r.error.BadQuantity? && r.error.row == index
    ensures r.Ok? ==> |r.value| <= |catalog|
  {
    if catalog == [] then Ok([])
    else Chain(RowItems(catalog[..|catalog| - 1], columns, row, index), ItemFor(catalog[|catalog| - 1], columns, row, index))
  }

  /** The sum the loop accumulates in `grand_total`. */
  function Total(items: seq<LineItem>): int {
    if items == [] then 0 else Total(items[..|items| - 1]) + Amount(items[|items| - 1])
  }

  function LineTexts(items: seq<LineItem>): (lines: seq<string>)
    ensures |lines| == |items|
  {
    if items == [] then [] else LineTexts(items[..|items| - 1]) + [LineText(items[|items| - 1])]
  }

  /** The text of one invoice: date, blank line, customer and address, blank
      line, the item lines, blank line, grand total. */
  function InvoiceText(date: string, customer: string, address: string, lines: seq<string>, total: int): string {
    ("Delivery Date: " + date) + "\n" + "\n"
    + ("Customer Name: " + customer) + "\n" + ("Address: " + address) + "\n" + "\n"
    + Join(lines, "\n") + "\n" + "\n" + ("Grand Total: " + IntToString(total)) + "\n"
  }

  /** The lines of an invoice, top to bottom. An invoice without items
      keeps one empty line where the items would be, since joining no
      lines gives the empty string. */
  function TextLines(date: string, customer: string, address: string, lines: seq<string>, total: int): seq<string> {
    ["Delivery Date: " + date, "", "Customer Name: " + customer, "Address: " + address, ""]
    + (if lines == [] then [""] else lines)
    + ["", "Grand Total: " + IntToString(total)]
  }

  /** The invoice text is its lines, each ending in a newline. */
  lemma InvoiceTextJoin(date: string, customer: string, address: string, lines: seq<string>, total: int)
    ensures InvoiceText(date, customer, address, lines, total) == Join(TextLines(date, customer, address, lines, total), "\n") + "\n"
  {
    var n := "\n";
    var d, c, a := "Delivery Date: " + date, "Customer Name: " + customer, "Address: " + address;
    var g := "Grand Total: " + IntToString(total);
    var head := [d, "", c, a, ""];
    var body := if lines == [] then [""] else lines;
    var tail := ["", g];
    assert TextLines(date, customer, address, lines, total) == head + body + tail;
    assert Join(body, n) == Join(lines, n);
    assert Join(tail, n) == "" + n + g;
    assert head[4..] == [""] && head[3..] == [a, ""] && head[2..] == [c, a, ""] && head[1..] == ["", c, a, ""];
    assert Join(head[3..], n) == a + n + "";
    assert Join(head[2..], n) == c + n + (a + n + "");
    assert Join(head[1..], n) == "" + n + (c + n + (a + n + ""));
    assert Join(head, n) == d + n + ("" + n + (c + n + (a + n + "")));
    JoinAppend(head, body, n);
    JoinAppend(head + body, tail, n);
    assert Join(head + body + tail, n) + n == Join(head, n) + n + Join(body, n) + n + Join(tail, n) + n;
    Regroup(d, c, a, Join(lines, n), g, n);
  }

  lemma Regroup(d: string, c: string, a: string, l: string, g: string, n: string)
    ensures d + n + n + c + n + a + n + n + l + n + n + g + n
         == (d + n + ("" + n + (c + n + (a + n + "")))) + n + l + n + ("" + n + g) + n
  {
    assert "" + n == n && a + n + "" == a + n;
  }

  /** Stripping the invoice text removes exactly its final newline. */
  lemma InvoiceTextStripped(date: string, customer: string, address: string, lines: seq<string>, total: int)
    ensures Strip(InvoiceText(date, customer, address, lines, total)) == Join(TextLines(date, customer, address, lines, total), "\n")
  {
    var all := TextLines(date, customer, address, lines, total);
    var grand := "Grand Total: " + IntToString(total);
    InvoiceTextJoin(date, customer, address, lines, total);
    var t := Join(all, "\n");
    JoinAppend(all[..|all| - 1], [grand], "\n");
    assert all[..|all| - 1] + [grand] == all;
    assert t[|t| - 1] == IntToString(total)[|IntToString(total)| - 1];
    JoinAppend([all[0]], all[1..], "\n");
    assert [all[0]] + all[1..] == all;
    assert t[0] == 'D';
    StripTrailingSpace(t, "\n");
  }

  /** No line of the invoice breaks when no field does. */
  lemma TextLinesOneLine(date: string, customer: string, address: string, lines: seq<string>, total: int)
    requires '\n' !in date && '\n' !in customer && '\n' !in address
    requires forall k :: 0 <= k < |lines| ==> '\n' !in lines[k]
    ensures forall k :: 0 <= k < |TextLines(date, customer, address, lines, total)| ==>
              '\n' !in TextLines(date, customer, address, lines, total)[k]
  {
    var all := TextLines(date, customer, address, lines, total);
    var grand := "Grand Total: " + IntToString(total);
    IntToStringOneLine(total);
    var head := ["Delivery Date: " + date, "", "Customer Name: " + customer, "Address: " + address, ""];
    var body := if lines == [] then [""] else lines;
    assert all == head + body + ["", grand];
    assert forall k :: 0 <= k < |head| ==> '\n' !in head[k];
    assert forall k :: 0 <= k < |body| ==> '\n' !in body[k];
    assert '\n' !in grand;
    forall k | 0 <= k < |all|
      ensures '\n' !in all[k]
    {
      if k < |head| {
        assert all[k] == head[k];
      } else if k < |head| + |body| {
        assert all[k] == body[k - |head|];
      } else {
        assert all[k] == "" || all[k] == grand;
      }
    }
  }

  /** When no field breaks a line, stripping the invoice text and splitting
      it at newlines (what the PDF saver does) gives back exactly its lines. */
  lemma InvoiceTextLines(date: string, customer: string, address: string, lines: seq<string>, total: int)
    requires '\n' !in date && '\n' !in customer && '\n' !in address
    requires forall k :: 0 <= k < |lines| ==> '\n' !in lines[k]
    ensures Split(Strip(InvoiceText(date, customer, address, lines, total)), '\n') == TextLines(date, customer, address, lines, total)
  {
    InvoiceTextStripped(date, customer, address, lines, total);
    TextLinesOneLine(date, customer, address, lines, total);
    SplitJoin(TextLines(date, customer, address, lines, total), '\n');
  }

  /** One row's invoice: the date must be a timestamp, and every filled
      product cell a number. */
  function RowInvoice(catalog: seq<Product>, columns: seq<string>, row: Row, index: nat): (r: Result<string, UploadError>)
    ensures r.Err? ==> r.error == BadDate(index) || (r.error.BadQuantity? && r.error.row == index)
  {
    match CellAt(row, "Delivery Date")
    case Stamp(d, _) =>
      (match RowItems(catalog, columns, row, index)
       case Err(e) => Err(e)
       case Ok(items) =>
         Ok(InvoiceText(FormatDate(d), Shown(CellAt(row, "Customer Name")), Shown(CellAt(row, "Address")),
                        LineTexts(items), Total(items))))
    case _ => Err(BadDate(index))
  }

  /** The per-row results, in row order, each row numbered by its position. */
  function RowResults(catalog: seq<Product>, columns: seq<string>, rows: seq<Row>): (results: seq<Result<string, UploadError>>)
    ensures |results| == |rows|
    ensures forall i :: 0 <= i < |rows| ==> results[i] == RowInvoice(catalog, columns, rows[i], i)
  {
    seq(|rows|, i requires 0 <= i < |rows| => RowInvoice(catalog, columns, rows[i], i))
  }

  /** A run of one-shot steps: the values of all of them, or the error of
      the first that fails. */
  function Collect<T>(results: seq<Result<T, UploadError>>): Result<seq<T>, UploadError>
    decreases |results|
  {
    if results == [] then Ok([])
    else
      match Collect(results[..|results| - 1])
      case Err(e) => Err(e)
      case Ok(values) =>
        match results[|results| - 1]
        case Err(e) => Err(e)
        case Ok(v) => Ok(values + [v])
  }

  /** The invoice of each row, in row order; the first failing row fails the batch. */
  function Build(catalog: seq<Product>, columns: seq<string>, rows: seq<Row>): Result<seq<string>, UploadError> {
    Collect(RowResults(catalog, columns, rows))
  }

  /** What `upload_file` computes from a sheet and the catalog. */
  function Process(sheet: Sheet, catalog: seq<Product>): Result<seq<string>, UploadError> {
    if IsEmpty(sheet) then Err(EmptySheet)
    else if !AllPresent(sheet.columns, catalog) then Err(ColumnsMissing(MissingColumns(sheet.columns, catalog)))
    else Build(catalog, sheet.columns, sheet.rows)
  }

  // ---------------------------------------------------------------------
  // Line selection, truncation and the grand total

  /** The product loop over a catalog split in two is the loop over the
      first part followed by the loop over the second: lines come out in
      catalog order, and an unreadable cell fails the row at the first one. */
  lemma {:induction false} RowItemsAppend(a: seq<Product>, b: seq<Product>, columns: seq<string>, row: Row, index: nat)
    ensures RowItems(a + b, columns, row, index) == Chain(RowItems(a, columns, row, index), RowItems(b, columns, row, index))
    decreases |b|
  {
    if b == [] {
      assert a + b == a;
      ChainOk(RowItems(a, columns, row, index));
    } else {
      var b' := b[..|b| - 1];
      var p := b[|b| - 1];
      assert (a + b)[..|a + b| - 1] == a + b';
      assert (a + b)[|a + b| - 1] == p;
      RowItemsAppend(a, b', columns, row, index);
      ChainAssoc(RowItems(a, columns, row, index), RowItems(b', columns, row, index), ItemFor(p, columns, row, index));
    }
  }

  /** One product: an ordered product gives its line, an unreadable cell
      fails the row, and a NaN, zero or negative cell (or a product with no
      column) gives no line. */
  lemma RowItemsSingle(p: Product, columns: seq<string>, row: Row, index: nat)
    ensures Ordered(p, columns, row) ==> RowItems([p], columns, row, index) == Ok([ItemOf(p, columns, row)])
    ensures Unreadable(p, columns, row) ==> RowItems([p], columns, row, index) == Err(BadQuantity(index, p.name))
    ensures !Ordered(p, columns, row) && !Unreadable(p, columns, row) ==> RowItems([p], columns, row, index) == Ok([])
  {
    assert [p][..0] == [];
    if Ordered(p, columns, row) {
      assert [] + [ItemOf(p, columns, row)] == [ItemOf(p, columns, row)];
    } else if !Unreadable(p, columns, row) {
      var none: seq<LineItem> := [];
      assert none + none == none;
    }
  }

  /** A row's items exist exactly when no filled product cell is unreadable. */
  lemma {:induction false} RowItemsOk(catalog: seq<Product>, columns: seq<string>, row: Row, index: nat)
    ensures RowItems(catalog, columns, row, index).Ok? <==>
            forall k :: 0 <= k < |catalog| ==> !Unreadable(catalog[k], columns, row)
    decreases |catalog|
  {
    if catalog != [] {
      var c' := catalog[..|catalog| - 1];
      RowItemsOk(c', columns, row, index);
      assert forall k :: 0 <= k < |c'| ==> c'[k] == catalog[k];
    }
  }

  /** The items are exactly the ordered products' lines: every item comes
      from an ordered product, and every ordered product has its item. */
  lemma {:induction false} RowItemsMembers(catalog: seq<Product>, columns: seq<string>, row: Row, index: nat, items: seq<LineItem>)
    requires RowItems(catalog, columns, row, index) == Ok(items)
    ensures forall it :: it in items <==>
              exists k :: 0 <= k < |catalog| && Ordered(catalog[k], columns, row) && it == ItemOf(catalog[k], columns, row)
    decreases |catalog|
  {
    if catalog != [] {
      var c' := catalog[..|catalog| - 1];
      var p := catalog[|catalog| - 1];
      var items' := RowItems(c', columns, row, index).value;
      RowItemsMembers(c', columns, row, index, items');
      assert forall k :: 0 <= k < |c'| ==> c'[k] == catalog[k];
      if Ordered(p, columns, row) {
        assert items == items' + [ItemOf(p, columns, row)];
      } else {
        assert items == items';
      }
    }
  }

  /** How many catalog products are ordered on the row. */
  function CountOrdered(catalog: seq<Product>, columns: seq<string>, row: Row): nat {
    if catalog == [] then 0
    else CountOrdered(catalog[..|catalog| - 1], columns, row) + (if Ordered(catalog[|catalog| - 1], columns, row) then 1 else 0)
  }

  /** The grand total read straight off the row: truncated quantity times
      rate, summed over the ordered products. */
  function CatalogSum(catalog: seq<Product>, columns: seq<string>, row: Row): int {
    if catalog == [] then 0
    else
      var p := catalog[|catalog| - 1];
      CatalogSum(catalog[..|catalog| - 1], columns, row)
      + (if Ordered(p, columns, row) then CellAt(row, p.name).value.Floor * p.rate else 0)
  }

  /** One line per ordered product, and the grand total is the sum of the
      line amounts, which is the catalog sum (0 when nothing is ordered). */
  lemma {:induction false} RowItemsCountAndTotal(catalog: seq<Product>, columns: seq<string>, row: Row, index: nat, items: seq<LineItem>)
    requires RowItems(catalog, columns, row, index) == Ok(items)
    ensures |items| == CountOrdered(catalog, columns, row)
    ensures Total(items) == CatalogSum(catalog, columns, row)
    decreases |catalog|
  {
    if catalog != [] {
      var c' := catalog[..|catalog| - 1];
      var p := catalog[|catalog| - 1];
      var items' := RowItems(c', columns, row, index).value;
      RowItemsCountAndTotal(c', columns, row, index, items');
      if Ordered(p, columns, row) {
        assert items == items' + [ItemOf(p, columns, row)];
        assert items[..|items| - 1] == items';
      } else {
        assert items == items';
      }
    }
  }

  /** Truncation comes after the test against 0: a quantity strictly
      between 0 and 1 still gives a line, with quantity and amount 0. */
  lemma FractionalQuantity(p: Product, columns: seq<string>, row: Row, index: nat)
    requires Filled(p, columns, row) && CellAt(row, p.name).Number?
    requires 0.0 < CellAt(row, p.name).value < 1.0
    ensures RowItems([p], columns, row, index) == Ok([LineItem(p.name, 0, p.rate)])
    ensures LineText(LineItem(p.name, 0, p.rate)) == p.name + ": 0 x " + IntToString(p.rate) + " = 0"
  {
    RowItemsSingle(p, columns, row, index);
    assert IntToString(0) == "0";
  }

  // ---------------------------------------------------------------------
  // The batch

  /** Success side of all-or-nothing: the run succeeds exactly when every
      step does, and then holds every step's value, in order. */
  lemma {:induction false} CollectOk<T>(results: seq<Result<T, UploadError>>)
    ensures Collect(results).Ok? <==> forall i :: 0 <= i < |results| ==> results[i].Ok?
    ensures Collect(results).Ok? ==>
              |Collect(results).value| == |results| &&
              forall i :: 0 <= i < |results| ==> results[i] == Ok(Collect(results).value[i])
    decreases |results|
  {
    if results != [] {
      var r' := results[..|results| - 1];
      CollectOk(r');
      assert forall i :: 0 <= i < |r'| ==> r'[i] == results[i];
    }
  }

  /** Failure side of all-or-nothing: a failing run fails with the error of
      its first failing step. */
  lemma {:induction false} CollectErr<T>(results: seq<Result<T, UploadError>>) returns (i: nat)
    requires Collect(results).Err?
    ensures i < |results| && results[i] == Err(Collect(results).error)
    ensures forall j :: 0 <= j < i ==> results[j].Ok?
    decreases |results|
  {
    var r' := results[..|results| - 1];
    assert forall j :: 0 <= j < |r'| ==> r'[j] == results[j];
    if Collect(r').Err? {
      i := CollectErr(r');
    } else {
      CollectOk(r');
      i := |results| - 1;
    }
  }

  /** A failed prefix fails the whole run with the same error. */
  lemma {:induction false} CollectPrefixErr<T>(results: seq<Result<T, UploadError>>, i: nat)
    requires i <= |results| && Collect(results[..i]).Err?
    ensures Collect(results) == Collect(results[..i])
    decreases |results| - i
  {
    if i == |results| {
      assert results[..i] == results;
    } else {
      var p := results[..i + 1];
      assert p[..|p| - 1] == results[..i];
      CollectPrefixErr(results, i + 1);
    }
  }

  /** All or nothing: the batch succeeds exactly when every row does, and
      then yields one invoice per row, in row order, each that row's invoice. */
  lemma BuildOk(catalog: seq<Product>, columns: seq<string>, rows: seq<Row>)
    ensures Build(catalog, columns, rows).Ok? <==>
            forall i :: 0 <= i < |rows| ==> RowInvoice(catalog, columns, rows[i], i).Ok?
    ensures Build(catalog, columns, rows).Ok? ==>
            |Build(catalog, columns, rows).value| == |rows| &&
            forall i :: 0 <= i < |rows| ==> RowInvoice(catalog, columns, rows[i], i) == Ok(Build(catalog, columns, rows).value[i])
  {
    CollectOk(RowResults(catalog, columns, rows));
  }

  /** All or nothing: a failing batch fails with the error of its first
      failing row, and no invoice comes out. */
  lemma BuildErr(catalog: seq<Product>, columns: seq<string>, rows: seq<Row>) returns (i: nat)
    requires Build(catalog, columns, rows).Err?
    ensures i < |rows| && RowInvoice(catalog, columns, rows[i], i) == Err(Build(catalog, columns, rows).error)
    ensures forall j :: 0 <= j < i ==> RowInvoice(catalog, columns, rows[j], j).Ok?
  {
    i := CollectErr(RowResults(catalog, columns, rows));
  }

  /** The upload's outcomes: an empty sheet is refused before any column is
      checked; otherwise a sheet lacking a required column is refused with
      the list of all missing ones; otherwise the batch runs, one invoice per row. */
  lemma ProcessOutcomes(sheet: Sheet, catalog: seq<Product>)
    ensures Process(sheet, catalog) == Err(EmptySheet) <==> IsEmpty(sheet)
    ensures !IsEmpty(sheet) && MissingColumns(sheet.columns, catalog) != [] ==>
              Process(sheet, catalog) == Err(ColumnsMissing(MissingColumns(sheet.columns, catalog)))
    ensures !IsEmpty(sheet) && MissingColumns(sheet.columns, catalog) == [] ==>
              Process(sheet, catalog) == Build(catalog, sheet.columns, sheet.rows)
    ensures Process(sheet, catalog).Ok? ==> |Process(sheet, catalog).value| == |sheet.rows| > 0
  {
    MissingColumnsExact(sheet.columns, catalog);
    if !IsEmpty(sheet) && AllPresent(sheet.columns, catalog) {
      BuildOk(catalog, sheet.columns, sheet.rows);
      if Build(catalog, sheet.columns, sheet.rows).Err? {
        var i := BuildErr(catalog, sheet.columns, sheet.rows);
      }
    }
  }

  /** One step of the product loop, case by case. */
  lemma RowItemsNext(catalog: seq<Product>, i: nat, columns: seq<string>, row: Row, index: nat, items: seq<LineItem>)
    requires i < |catalog| && RowItems(catalog[..i], columns, row, index) == Ok(items)
    ensures Ordered(catalog[i], columns, row) ==>
              RowItems(catalog[..i + 1], columns, row, index) == Ok(items + [ItemOf(catalog[i], columns, row)])
    ensures Unreadable(catalog[i], columns, row) ==>
              RowItems(catalog, columns, row, index) == Err(BadQuantity(index, catalog[i].name))
    ensures !Ordered(catalog[i], columns, row) && !Unreadable(catalog[i], columns, row) ==>
              RowItems(catalog[..i + 1], columns, row, index) == Ok(items)
  {
    assert catalog[..i + 1][..i] == catalog[..i];
    if Unreadable(catalog[i], columns, row) {
      RowItemsAppend(catalog[..i + 1], catalog[i + 1..], columns, row, index);
      assert catalog[..i + 1] + catalog[i + 1..] == catalog;
    } else if !Ordered(catalog[i], columns, row) {
      assert items + [] == items;
    }
  }

  /** Appending an item appends its line and adds its amount. */
  lemma AppendItem(items: seq<LineItem>, item: LineItem)
    ensures LineTexts(items + [item]) == LineTexts(items) + [LineText(item)]
    ensures Total(items + [item]) == Total(items) + Amount(item)
  {
    assert (items + [item])[..|items|] == items;
  }

  // ---------------------------------------------------------------------
  // The loops of `upload_file`

  /** The item lines and the grand total of a row's items. */
  function Summary(items: Result<seq<LineItem>, UploadError>): Result<(seq<string>, int), UploadError> {
    match items
    case Err(e) => Err(e)
    case Ok(xs) => Ok((LineTexts(xs), Total(xs)))
  }

  /** The product loop of one row: appends a line and adds to the grand
      total for every ordered product, in catalog order, and stops at the
      first unreadable cell. */
  method ProductLines(catalog: seq<Product>, columns: seq<string>, row: Row, index: nat)
    returns (r: Result<(seq<string>, int), UploadError>)
    ensures r == Summary(RowItems(catalog, columns, row, index))
  {
    var lines: seq<string> := [];
    var grandTotal := 0;
    var i := 0;
    while i < |catalog|
      invariant 0 <= i <= |catalog|
      invariant RowItems(catalog[..i], columns, row, index).Ok?
      invariant lines == LineTexts(RowItems(catalog[..i], columns, row, index).value)
      invariant grandTotal == Total(RowItems(catalog[..i], columns, row, index).value)
    {
      var next := AddLine(catalog[i], columns, row, index, lines, grandTotal);
      ScanStep(catalog, i, columns, row, index, lines, grandTotal, next);
      if next.Err? {
        return Err(next.error);
      }
      lines, grandTotal := next.value.0, next.value.1;
      i := i + 1;
    }
    assert catalog[..i] == catalog;
    r := Ok((lines, grandTotal));
  }

  /** What one pass of the product loop does to the lines and total so far:
      a failing pass fails the whole row, any other extends the prefix by one product. */
  lemma ScanStep(catalog: seq<Product>, i: nat, columns: seq<string>, row: Row, index: nat,
                 lines: seq<string>, grandTotal: int, next: Result<(seq<string>, int), UploadError>)
    requires i < |catalog| && RowItems(catalog[..i], columns, row, index).Ok?
    requires lines == LineTexts(RowItems(catalog[..i], columns, row, index).value)
    requires grandTotal == Total(RowItems(catalog[..i], columns, row, index).value)
    requires Unreadable(catalog[i], columns, row) <==> next.Err?
    requires next.Err? ==> next.error == BadQuantity(index, catalog[i].name)
    requires Ordered(catalog[i], columns, row) ==>
               next.Ok? && next.value.0 == lines + [LineText(ItemOf(catalog[i], columns, row))]
               && next.value.1 == grandTotal + Amount(ItemOf(catalog[i], columns, row))
    requires !Ordered(catalog[i], columns, row) && !Unreadable(catalog[i], columns, row) ==>
               next.Ok? && next.value.0 == lines && next.value.1 == grandTotal
    ensures next.Err? ==> RowItems(catalog, columns, row, index) == Err(next.error)
    ensures next.Ok? ==> RowItems(catalog[..i + 1], columns, row, index).Ok?
    ensures next.Ok? ==> next.value.0 == LineTexts(RowItems(catalog[..i + 1], columns, row, index).value)
    ensures next.Ok? ==> next.value.1 == Total(RowItems(catalog[..i + 1], columns, row, index).value)
  {
    var items := RowItems(catalog[..i], columns, row, index).value;
    RowItemsNext(catalog, i, columns, row, index, items);
    if Ordered(catalog[i], columns, row) {
      var item := ItemOf(catalog[i], columns, row);
      AppendItem(items, item);
      assert RowItems(catalog[..i + 1], columns, row, index) == Ok(items + [item]);
      assert next.value.0 == LineTexts(items + [item]);
      assert next.value.1 == Total(items + [item]);
    } else if !Unreadable(catalog[i], columns, row) {
      assert RowItems(catalog[..i + 1], columns, row, index) == Ok(items);
    }
  }

  /** One pass of the product loop: an ordered product adds its line and
      its amount, an unreadable cell stops the row, anything else is skipped. */
  method AddLine(p: Product, columns: seq<string>, row: Row, index: nat, lines: seq<string>, grandTotal: int)
    returns (r: Result<(seq<string>, int), UploadError>)
    ensures Unreadable(p, columns, row) <==> r.Err?
    ensures r.Err? ==> r.error == BadQuantity(index, p.name)
    ensures Ordered(p, columns, row) ==>
              r.Ok? && r.value.0 == lines + [LineText(ItemOf(p, columns, row))]
              && r.value.1 == grandTotal + Amount(ItemOf(p, columns, row))
    ensures !Ordered(p, columns, row) && !Unreadable(p, columns, row) ==>
              r.Ok? && r.value.0 == lines && r.value.1 == grandTotal
  {
    var cell := CellAt(row, p.name);
    if p.name in columns && !cell.Missing? {
      if !cell.Number? {
        return Err(BadQuantity(index, p.name));
      }
      if cell.value > 0.0 {
        var item := LineItem(p.name, cell.value.Floor, p.rate);
        return Ok((lines + [LineText(item)], grandTotal + item.quantity * item.rate));
      }
    }
    r := Ok((lines, grandTotal));
  }

  /** The body of the row loop: reads the customer, address and date, then
      runs the product loop. */
  method BuildRowInvoice(catalog: seq<Product>, columns: seq<string>, row: Row, index: nat)
    returns (r: Result<string, UploadError>)
    ensures r == RowInvoice(catalog, columns, row, index)
  {
    var customer := Shown(CellAt(row, "Customer Name"));
    var address := Shown(CellAt(row, "Address"));
    var dateCell := CellAt(row, "Delivery Date");
    if !dateCell.Stamp? {
      return Err(BadDate(index));
    }
    var date := FormatDate(dateCell.date);
    var body := ProductLines(catalog, columns, row, index);
    if body.Err? {
      return Err(body.error);
    }
    var (lines, grandTotal) := body.value;
    r := Ok(InvoiceText(date, customer, address, lines, grandTotal));
  }

  /** `upload_file` from reading the sheet to the list of invoices handed
      to the viewer: the empty check, the column check, then the row loop. */
  method Upload(sheet: Sheet, catalog: seq<Product>) returns (r: Result<seq<string>, UploadError>)
    ensures r == Process(sheet, catalog)
  {
    if IsEmpty(sheet) {
      return Err(EmptySheet);
    }
    if !AllPresent(sheet.columns, catalog) {
      return Err(ColumnsMissing(MissingColumns(sheet.columns, catalog)));
    }
    var rows := sheet.rows;
    ghost var results := RowResults(catalog, sheet.columns, rows);
    var invoices: seq<string> := [];
    var i := 0;
    while i < |rows|
      invariant 0 <= i <= |rows|
      invariant Collect(results[..i]) == Ok(invoices)
    {
      TakeNext(results, i);
      var text := BuildRowInvoice(catalog, sheet.columns, rows[i], i);
      if text.Err? {
        CollectPrefixErr(results, i + 1);
        return Err(text.error);
      }
      invoices := invoices + [text.value];
      i := i + 1;
    }
    TakeAll(results);
    r := Ok(invoices);
  }
}
