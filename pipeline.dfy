/** From the upload to the PDF: the invoices `upload_file` builds are the
    ones "Save as PDF" lays out, so what the builder writes decides whether
    the saver can stop on a label line with no colon. */
module Pipeline {
  import opened Wrappers
  import opened Text
  import opened Dates
  import opened Catalog
  import opened Sheets
  import opened Invoices
  import opened PdfLayout

  /** No text that reaches an invoice holds a line break: no product name,
      and on no row the customer or the address. */
  predicate SingleLineFields(sheet: Sheet, catalog: seq<Product>) {
    && (forall k :: 0 <= k < |catalog| ==> '\n' !in catalog[k].name)
    && (forall i :: 0 <= i < |sheet.rows| ==> '\n' !in Shown(CellAt(sheet.rows[i], "Customer Name")))
    && (forall i :: 0 <= i < |sheet.rows| ==> '\n' !in Shown(CellAt(sheet.rows[i], "Address")))
  }

  /** A formatted date is digits and dashes. */
  lemma DateOneLine(d: CalendarDate)
    ensures '\n' !in FormatDate(d)
  {
    var s := FormatDate(d);
    forall k | 0 <= k < |s| ensures s[k] != '\n' {
      if k < 2 {
        assert s[..2][k] == s[k];
      } else if 2 < k < 5 {
        assert s[3..5][k - 3] == s[k];
      } else if 5 < k {
        assert s[6..][k - 6] == s[k];
      }
    }
  }

  /** An item line is one line, and it holds a colon right after the product name. */
  lemma ItemLineShape(item: LineItem)
    requires '\n' !in item.product
    ensures '\n' !in LineText(item) && ':' in LineText(item)
  {
    IntToStringOneLine(item.quantity);
    IntToStringOneLine(item.rate);
    IntToStringOneLine(Amount(item));
    var t := LineText(item);
    assert t[|item.product|] == ':';
  }

  /** An empty line is no label line, and a line with a colon splits in
      two: either way the line draws without error. */
  lemma LineDraws(line: string, number: nat)
    requires line == "" || ':' in line
    ensures LineLayout(line, number).Ok?
  {
    LineKinds(line, number);
    if line == "" && IsLabelLine(line) {
      if Contains(line, "Delivery Date") {
        ContainsFirst(line, "Delivery Date");
      } else if Contains(line, "Customer Name") {
        ContainsFirst(line, "Customer Name");
      } else if Contains(line, "Address") {
        ContainsFirst(line, "Address");
      } else {
        ContainsFirst(line, "Grand Total");
      }
    }
  }

  /** Each line of the invoice layout is empty or holds a colon, when the item lines do. */
  lemma TextLinesColons(date: string, customer: string, address: string, lines: seq<string>, total: int)
    requires forall k :: 0 <= k < |lines| ==> ':' in lines[k]
    ensures var all := TextLines(date, customer, address, lines, total);
            forall k :: 0 <= k < |all| ==> all[k] == "" || ':' in all[k]
  {
    var all := TextLines(date, customer, address, lines, total);
    var d, c, a := "Delivery Date: " + date, "Customer Name: " + customer, "Address: " + address;
    var g := "Grand Total: " + IntToString(total);
    assert d[13] == ':' && c[13] == ':' && a[7] == ':' && g[11] == ':';
    var head := [d, "", c, a, ""];
    var body := if lines == [] then [""] else lines;
    assert all == head + body + ["", g];
    forall k | 0 <= k < |all|
      ensures all[k] == "" || ':' in all[k]
    {
      if k < |head| {
        assert all[k] == head[k];
      } else if k < |head| + |body| {
        assert all[k] == body[k - |head|];
      } else {
        assert all[k] == "" || all[k] == g;
      }
    }
  }

  /** A built invoice whose fields are single lines draws without error. */
  lemma LinesDraw(date: string, customer: string, address: string, lines: seq<string>, total: int, number: nat)
    requires '\n' !in date && '\n' !in customer && '\n' !in address
    requires forall k :: 0 <= k < |lines| ==> '\n' !in lines[k] && ':' in lines[k]
    ensures InvoiceLayout(InvoiceText(date, customer, address, lines, total), number).Ok?
  {
    var text := InvoiceText(date, customer, address, lines, total);
    InvoiceTextLines(date, customer, address, lines, total);
    TextLinesColons(date, customer, address, lines, total);
    var all := InvoiceLines(text);
    forall k | 0 <= k < |all|
      ensures LineLayout(all[k], number).Ok?
    {
      LineDraws(all[k], number);
    }
    InvoiceLayoutOk(text, number);
  }

  /** The invoice a row yields draws without error when its fields are single lines. */
  lemma RowInvoiceDraws(catalog: seq<Product>, columns: seq<string>, row: Row, index: nat, number: nat)
    requires RowInvoice(catalog, columns, row, index).Ok?
    requires forall k :: 0 <= k < |catalog| ==> '\n' !in catalog[k].name
    requires '\n' !in Shown(CellAt(row, "Customer Name")) && '\n' !in Shown(CellAt(row, "Address"))
    ensures InvoiceLayout(RowInvoice(catalog, columns, row, index).value, number).Ok?
  {
    var d := CellAt(row, "Delivery Date").date;
    var items := RowItems(catalog, columns, row, index).value;
    var lines := LineTexts(items);
    RowItemsMembers(catalog, columns, row, index, items);
    DateOneLine(d);
    forall j | 0 <= j < |lines|
      ensures '\n' !in lines[j] && ':' in lines[j]
    {
      ItemTextAt(items, j);
      assert items[j] in items;
      ItemLineShape(items[j]);
    }
    var customer, address := Shown(CellAt(row, "Customer Name")), Shown(CellAt(row, "Address"));
    assert RowInvoice(catalog, columns, row, index).value
        == InvoiceText(FormatDate(d), customer, address, lines, Total(items));
    LinesDraw(FormatDate(d), customer, address, lines, Total(items), number);
  }

  /** The `j`-th item line is the text of the `j`-th item. */
  lemma {:induction false} ItemTextAt(items: seq<LineItem>, j: nat)
    requires j < |items|
    ensures LineTexts(items)[j] == LineText(items[j])
    decreases |items|
  {
    if j < |items| - 1 {
      ItemTextAt(items[..|items| - 1], j);
    }
  }

  /** Every batch the upload hands to the viewer can be saved as a PDF when
      no field that reaches an invoice holds a line break, and the document
      then has `1 + n / 2` pages for `n` sheet rows. */
  lemma UploadSavesAsPdf(sheet: Sheet, catalog: seq<Product>)
    requires Process(sheet, catalog).Ok? && SingleLineFields(sheet, catalog)
    ensures Layout(Process(sheet, catalog).value).Ok?
    ensures Pages(Layout(Process(sheet, catalog).value).value) == 1 + |sheet.rows| / 2
  {
    var invoices := Process(sheet, catalog).value;
    ProcessOutcomes(sheet, catalog);
    BuildOk(catalog, sheet.columns, sheet.rows);
    forall i | 0 <= i < |invoices|
      ensures InvoiceLayout(invoices[i], i).Ok?
    {
      RowInvoiceDraws(catalog, sheet.columns, sheet.rows[i], i, i);
    }
    LayoutOk(invoices);
    PageCount(invoices);
  }
}
