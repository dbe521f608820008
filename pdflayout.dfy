/** The "Save as PDF" action of the invoice viewer, as the sequence of
    drawing calls it makes on the document: every invoice is stripped and
    cut into lines, label lines become a bold label and a value, other lines
    are copied, and after every second invoice a new page starts, after the
    others a blank line and a dashed rule. */
module PdfLayout {
  import opened Wrappers
  import opened Text

  /** One drawing call on the document; font changes are not recorded. */
  datatype Instr =
    | NewPage               // `pdf.add_page()`
    | Heading(text: string) // a bold `multi_cell`: the label of a field
    | Cell(text: string)    // a regular `cell` that ends the line

  /** `line.split(":")[1]` on a label line without a colon raises
      `IndexError`; the save stops and nothing is written. */
  datatype PdfError = NoColon(invoice: nat, line: string)

  const InvoicesPerPage: nat := 2

  /** The dashed rule drawn between the two invoices of a page. */
  const Rule: string := Repeat('-', 100)

  /** A line mentioning one of the four field labels anywhere in it (a
      product named "Address Book" makes its line a label line too). */
  predicate IsLabelLine(line: string) {
    || Contains(line, "Delivery Date")
    || Contains(line, "Customer Name")
    || Contains(line, "Address")
    || Contains(line, "Grand Total")
  }

  /** The calls for one line of an invoice: a "Grand Total" line only
      changes the font, another label line gives its text before the first
      colon as a bold label and its text between the first and second colon,
      stripped, as the value; any other line is drawn as it is. */
  function LineLayout(line: string, invoice: nat): (r: Result<seq<Instr>, PdfError>)
    ensures r.Err? ==> r.error == NoColon(invoice, line)
    ensures r.Ok? ==> NewPage !in r.value
  {
    if IsLabelLine(line) then
      if Contains(line, "Grand Total") then Ok([])
      else
        var fields := Split(line, ':');
        if |fields| < 2 then Err(NoColon(invoice, line))
        else Ok([Heading(fields[0]), Cell(Strip(fields[1]))])
    else Ok([Cell(line)])
  }

  /** The calls for each line of an invoice, in order. */
  function LineResults(lines: seq<string>, invoice: nat): (rs: seq<Result<seq<Instr>, PdfError>>)
    ensures |rs| == |lines|
    ensures forall k :: 0 <= k < |lines| ==> rs[k] == LineLayout(lines[k], invoice)
  {
    seq(|lines|, k requires 0 <= k < |lines| => LineLayout(lines[k], invoice))
  }

  /** `invoice.strip().split('\n')`. */
  function InvoiceLines(invoice: string): seq<string> {
    Split(Strip(invoice), '\n')
  }

  /** The line loop over one invoice, stopping at the first label line
      without a colon. */
  function InvoiceLayout(invoice: string, number: nat): Result<seq<Instr>, PdfError> {
    Concat(LineResults(InvoiceLines(invoice), number))
  }

  /** What follows an invoice, given how many invoices the current page
      holds once it is drawn. */
  function AfterInvoice(count: nat): seq<Instr> {
    if count == InvoicesPerPage then [NewPage] else [Cell(""), Cell(Rule)]
  }

  /** The calls for each invoice, in order. */
  function Drawn(invoices: seq<string>): (drawn: seq<Result<seq<Instr>, PdfError>>)
    ensures |drawn| == |invoices|
    ensures forall i :: 0 <= i < |invoices| ==> drawn[i] == InvoiceLayout(invoices[i], i)
  {
    seq(|invoices|, i requires 0 <= i < |invoices| => InvoiceLayout(invoices[i], i))
  }

  /** Each invoice's calls followed by what comes after it: invoice `i`
      (counting from 0) is the `i % 2 + 1`-th of its page. */
  function Placed(drawn: seq<Result<seq<Instr>, PdfError>>): (placed: seq<Result<seq<Instr>, PdfError>>)
    ensures |placed| == |drawn|
    ensures forall i :: 0 <= i < |drawn| ==> placed[i] == Chain(drawn[i], Ok(AfterInvoice(i % 2 + 1)))
  {
    seq(|drawn|, i requires 0 <= i < |drawn| => Chain(drawn[i], Ok(AfterInvoice(i % 2 + 1))))
  }

  /** The invoice loop over the invoices' calls: a first page, then each
      invoice in place, stopping at the first that fails. */
  function Assemble(drawn: seq<Result<seq<Instr>, PdfError>>): Result<seq<Instr>, PdfError> {
    Chain(Ok([NewPage]), Concat(Placed(drawn)))
  }

  /** The whole document. */
  function Layout(invoices: seq<string>): (r: Result<seq<Instr>, PdfError>)
    ensures r.Ok? ==> |r.value| >= 1 && r.value[0] == NewPage
  {
    Assemble(Drawn(invoices))
  }

  /** The number of pages a run of calls starts. */
  function Pages(instrs: seq<Instr>): nat
    decreases |instrs|
  {
    if instrs == [] then 0
    else Pages(instrs[..|instrs| - 1]) + (if instrs[|instrs| - 1] == NewPage then 1 else 0)
  }

  // ---------------------------------------------------------------------
  // Lines

  /** The three kinds of line, and when a line stops the save: exactly when
      it is a label line other than the grand total and has no colon. */
  lemma LineKinds(line: string, invoice: nat)
    ensures LineLayout(line, invoice).Err? <==>
              IsLabelLine(line) && !Contains(line, "Grand Total") && ':' !in line
    ensures Contains(line, "Grand Total") ==> LineLayout(line, invoice) == Ok([])
    ensures !IsLabelLine(line) ==> LineLayout(line, invoice) == Ok([Cell(line)])
  {
    SplitWhole(line, ':');
  }

  /** A label line is cut at its first colon: the label is the text
      before it and the value the text after it, stripped. */
  lemma LabelFields(key: string, value: string, invoice: nat)
    requires ':' !in key && ':' !in value
    requires IsLabelLine(key + ":" + value) && !Contains(key + ":" + value, "Grand Total")
    ensures LineLayout(key + ":" + value, invoice) == Ok([Heading(key), Cell(Strip(value))])
  {
    SplitFirst(key, value, ':');
    SplitWhole(value, ':');
  }

  /** The value ends at the second colon: anything after it is not drawn. */
  lemma LabelValueCut(key: string, value: string, rest: string, invoice: nat)
    requires ':' !in key && ':' !in value
    requires IsLabelLine(key + ":" + value + ":" + rest) && !Contains(key + ":" + value + ":" + rest, "Grand Total")
    ensures LineLayout(key + ":" + value + ":" + rest, invoice) == Ok([Heading(key), Cell(Strip(value))])
  {
    assert key + ":" + value + ":" + rest == key + [':'] + (value + [':'] + rest);
    SplitFirst(key, value + [':'] + rest, ':');
    SplitFirst(value, rest, ':');
  }

  /** A product whose name mentions the grand total vanishes from the PDF. */
  lemma GrandTotalProductVanishes(name: string, tail: string, invoice: nat)
    requires Contains(name, "Grand Total")
    ensures LineLayout(name + tail, invoice) == Ok([])
  {
    ContainsInContext(name, tail, "Grand Total");
    LineKinds(name + tail, invoice);
  }

  /** An invoice is drawn whole or stops at its first failing line. */
  lemma InvoiceLayoutOk(invoice: string, number: nat)
    ensures var lines := InvoiceLines(invoice);
            InvoiceLayout(invoice, number).Ok? <==> forall k :: 0 <= k < |lines| ==> LineLayout(lines[k], number).Ok?
  {
    ConcatOk(LineResults(InvoiceLines(invoice), number));
  }

  // ---------------------------------------------------------------------
  // Pages

  lemma {:induction false} PagesAppend(a: seq<Instr>, b: seq<Instr>)
    ensures Pages(a + b) == Pages(a) + Pages(b)
    decreases |b|
  {
    if b == [] {
      assert a + b == a;
    } else {
      assert (a + b)[..|a + b| - 1] == a + b[..|b| - 1];
      PagesAppend(a, b[..|b| - 1]);
    }
  }

  lemma {:induction false} PagesNone(instrs: seq<Instr>)
    requires NewPage !in instrs
    ensures Pages(instrs) == 0
    decreases |instrs|
  {
    if instrs != [] {
      assert instrs[..|instrs| - 1] + [instrs[|instrs| - 1]] == instrs;
      PagesNone(instrs[..|instrs| - 1]);
    }
  }

  /** Lines never start pages. */
  lemma {:induction false} LinesStartNoPage(rs: seq<Result<seq<Instr>, PdfError>>)
    requires Concat(rs).Ok?
    requires forall k :: 0 <= k < |rs| ==> rs[k].Ok? ==> NewPage !in rs[k].value
    ensures NewPage !in Concat(rs).value
    decreases |rs|
  {
    if rs != [] {
      LinesStartNoPage(rs[..|rs| - 1]);
    }
  }

  lemma InvoiceStartsNoPage(invoice: string, number: nat)
    requires InvoiceLayout(invoice, number).Ok?
    ensures NewPage !in InvoiceLayout(invoice, number).value
  {
    LinesStartNoPage(LineResults(InvoiceLines(invoice), number));
  }

  /** Every second invoice ends its page. */
  lemma {:induction false} PlacedPages(drawn: seq<Result<seq<Instr>, PdfError>>)
    requires Concat(Placed(drawn)).Ok?
    requires forall i :: 0 <= i < |drawn| ==> drawn[i].Ok? ==> NewPage !in drawn[i].value
    ensures Pages(Concat(Placed(drawn)).value) == |drawn| / 2
    decreases |drawn|
  {
    if drawn != [] {
      var i := |drawn| - 1;
      var init := drawn[..i];
      assert Placed(drawn)[..i] == Placed(init);
      PlacedPages(init);
      var after := AfterInvoice(i % 2 + 1);
      ConcatOk(Placed(drawn));
      PagesNone(drawn[i].value);
      PagesAppend(drawn[i].value, after);
      PagesAppend(Concat(Placed(init)).value, drawn[i].value + after);
      if i % 2 == 1 {
        assert after == [NewPage] && after[..0] == [];
      } else {
        PagesNone(after);
      }
    }
  }

  /** Two invoices to a page: `n` invoices take `1 + n / 2` pages, the last
      of them blank when `n` is even and not 0. */
  lemma PageCount(invoices: seq<string>)
    requires Layout(invoices).Ok?
    ensures Pages(Layout(invoices).value) == 1 + |invoices| / 2
  {
    var drawn := Drawn(invoices);
    forall i | 0 <= i < |drawn| && drawn[i].Ok?
      ensures NewPage !in drawn[i].value
    {
      InvoiceStartsNoPage(invoices[i], i);
    }
    PlacedPages(drawn);
    PagesAppend([NewPage], Concat(Placed(drawn)).value);
    assert Pages([NewPage]) == 1 by {
      assert [NewPage][..0] == [];
    }
  }

  /** How a document of `n` invoices ends: with a rule after an odd number
      of them, with a fresh (blank) page after an even number. */
  predicate EndsAfter(doc: seq<Instr>, n: nat) {
    |doc| >= 2 &&
    if n % 2 == 0 then doc[|doc| - 1] == NewPage else doc[|doc| - 2..] == [Cell(""), Cell(Rule)]
  }

  lemma AssembleEnd(drawn: seq<Result<seq<Instr>, PdfError>>)
    requires Assemble(drawn).Ok? && drawn != []
    ensures EndsAfter(Assemble(drawn).value, |drawn|)
  {
    var placed := Placed(drawn);
    var i := |drawn| - 1;
    var after := AfterInvoice(i % 2 + 1);
    ConcatOk(placed);
    assert placed[i].value == drawn[i].value + after;
    var x := [NewPage] + Concat(placed[..i]).value + drawn[i].value;
    assert Assemble(drawn).value == x + after;
    if |drawn| % 2 == 0 {
      assert after == [NewPage];
    } else {
      assert after == [Cell(""), Cell(Rule)];
      assert (x + after)[|x|..] == after;
    }
  }

  /** The last invoice is followed by a rule when it is alone on its page,
      and by a new, blank page when it completes one. */
  lemma DocumentEnd(invoices: seq<string>)
    requires Layout(invoices).Ok? && invoices != []
    ensures EndsAfter(Layout(invoices).value, |invoices|)
  {
    var drawn := Drawn(invoices);
    AssembleEnd(drawn);
  }

  // ---------------------------------------------------------------------
  // The batch

  lemma AssembleOk(drawn: seq<Result<seq<Instr>, PdfError>>)
    ensures Assemble(drawn).Ok? <==> forall i :: 0 <= i < |drawn| ==> drawn[i].Ok?
  {
    var placed := Placed(drawn);
    ConcatOk(placed);
    assert forall i :: 0 <= i < |drawn| ==> (placed[i].Ok? <==> drawn[i].Ok?);
  }

  /** The PDF is written only if every invoice can be drawn; otherwise the
      save fails with the error of the first invoice that cannot. */
  lemma LayoutOk(invoices: seq<string>)
    ensures Layout(invoices).Ok? <==> forall i :: 0 <= i < |invoices| ==> InvoiceLayout(invoices[i], i).Ok?
  {
    var drawn := Drawn(invoices);
    AssembleOk(drawn);
    assert forall i :: 0 <= i < |invoices| ==> drawn[i] == InvoiceLayout(invoices[i], i);
  }

  lemma AssembleErr(drawn: seq<Result<seq<Instr>, PdfError>>) returns (i: nat)
    requires Assemble(drawn).Err?
    ensures i < |drawn| && drawn[i] == Err(Assemble(drawn).error)
    ensures forall j :: 0 <= j < i ==> drawn[j].Ok?
  {
    var placed := Placed(drawn);
    i := ConcatErr(placed);
  }

  lemma LayoutErr(invoices: seq<string>) returns (i: nat)
    requires Layout(invoices).Err?
    ensures i < |invoices| && InvoiceLayout(invoices[i], i) == Err(Layout(invoices).error)
    ensures forall j :: 0 <= j < i ==> InvoiceLayout(invoices[j], j).Ok?
  {
    var drawn := Drawn(invoices);
    i := AssembleErr(drawn);
    assert forall j :: 0 <= j < |invoices| ==> drawn[j] == InvoiceLayout(invoices[j], j);
  }

  // ---------------------------------------------------------------------
  // The loops of `save_all_as_pdf`

  /** The document after the first `n` invoices. */
  function AssembledSoFar(drawn: seq<Result<seq<Instr>, PdfError>>, n: nat): Result<seq<Instr>, PdfError>
    requires n <= |drawn|
  {
    Chain(Ok([NewPage]), Concat(Placed(drawn)[..n]))
  }

  lemma AssembleStart(drawn: seq<Result<seq<Instr>, PdfError>>)
    ensures AssembledSoFar(drawn, 0) == Ok([NewPage])
  {
    assert Placed(drawn)[..0] == [] && [NewPage] + [] == [NewPage];
  }

  lemma AssembleDone(drawn: seq<Result<seq<Instr>, PdfError>>)
    ensures AssembledSoFar(drawn, |drawn|) == Assemble(drawn)
  {
    assert Placed(drawn)[..|drawn|] == Placed(drawn);
  }

  /** Drawing invoice `n` appends its calls and what follows it. */
  lemma AssembleStep(drawn: seq<Result<seq<Instr>, PdfError>>, n: nat, pdf: seq<Instr>)
    requires n < |drawn| && AssembledSoFar(drawn, n) == Ok(pdf) && drawn[n].Ok?
    ensures AssembledSoFar(drawn, n + 1) == Ok(pdf + drawn[n].value + AfterInvoice(n % 2 + 1))
  {
    var placed := Placed(drawn);
    assert placed[..n + 1][..n] == placed[..n];
    assert placed[n] == Ok(drawn[n].value + AfterInvoice(n % 2 + 1));
    var sofar := Concat(placed[..n]).value;
    assert Concat(placed[..n + 1]) == Chain(Concat(placed[..n]), placed[n]);
    assert pdf == [NewPage] + sofar;
    assert [NewPage] + (sofar + (drawn[n].value + AfterInvoice(n % 2 + 1)))
        == pdf + drawn[n].value + AfterInvoice(n % 2 + 1);
  }

  /** An invoice that cannot be drawn stops the save with its error. */
  lemma AssembleStepErr(drawn: seq<Result<seq<Instr>, PdfError>>, n: nat, pdf: seq<Instr>)
    requires n < |drawn| && AssembledSoFar(drawn, n) == Ok(pdf) && drawn[n].Err?
    ensures Assemble(drawn) == Err(drawn[n].error)
  {
    var placed := Placed(drawn);
    assert placed[..n + 1][..n] == placed[..n];
    ConcatPrefixErr(placed, n + 1);
  }

  /** The line loop for one invoice. */
  method DrawInvoice(invoice: string, number: nat) returns (r: Result<seq<Instr>, PdfError>)
    ensures r == InvoiceLayout(invoice, number)
  {
    var lines := InvoiceLines(invoice);
    ghost var rs := LineResults(lines, number);
    var drawn: seq<Instr> := [];
    assert rs[..0] == [];
    var j := 0;
    while j < |lines|
      invariant 0 <= j <= |lines|
      invariant Concat(rs[..j]) == Ok(drawn)
    {
      var line := LineLayout(lines[j], number);
      if line.Err? {
        ConcatStepErr(rs, j);
        return Err(line.error);
      }
      ConcatStep(rs, j, drawn);
      drawn := drawn + line.value;
      j := j + 1;
    }
    assert rs[..j] == rs;
    r := Ok(drawn);
  }

  /** The bookkeeping after an invoice is drawn: the count of invoices on
      the current page goes up, and a full page is closed with a new one
      (the count starting again at 0), a half-full page gets a blank line
      and the rule. */
  method FinishInvoice(pdf: seq<Instr>, invoiceCount: nat, drawn: seq<Instr>, ghost n: nat)
    returns (pdf': seq<Instr>, invoiceCount': nat)
    requires invoiceCount == n % 2
    ensures invoiceCount' == (n + 1) % 2
    ensures pdf' == pdf + drawn + AfterInvoice(n % 2 + 1)
  {
    pdf' := pdf + drawn;
    invoiceCount' := invoiceCount + 1;
    if invoiceCount' == InvoicesPerPage {
      invoiceCount' := 0;
      pdf' := pdf' + [NewPage];
    } else {
      pdf' := pdf' + [Cell(""), Cell(Rule)];
    }
  }

  /** `save_all_as_pdf` from the first page to the last call before the
      document is written out. */
  method SaveAllAsPdf(invoices: seq<string>) returns (r: Result<seq<Instr>, PdfError>)
    ensures r == Layout(invoices)
  {
    ghost var drawn := Drawn(invoices);
    var pdf: seq<Instr> := [NewPage];
    var invoiceCount: nat := 0;
    var n := 0;
    AssembleStart(drawn);
    while n < |invoices|
      invariant 0 <= n <= |invoices|
      invariant invoiceCount == n % 2
      invariant AssembledSoFar(drawn, n) == Ok(pdf)
    {
      var d := DrawInvoice(invoices[n], n);
      if d.Err? {
        AssembleStepErr(drawn, n, pdf);
        return Err(d.error);
      }
      AssembleStep(drawn, n, pdf);
      pdf, invoiceCount := FinishInvoice(pdf, invoiceCount, d.value, n);
      n := n + 1;
    }
    AssembleDone(drawn);
    r := Ok(pdf);
  }
}
