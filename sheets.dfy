/** The order sheet as `pd.read_excel` hands it over (column headers and
    rows of cells) and the check that it holds every column the invoices
    need. */
module Sheets {
  import opened Wrappers
  import opened Text
  import opened Dates
  import opened Catalog

  /** The two empty values: NaN in a numeric or text column, NaT in a
      datetime column. */
  datatype Blank = NaN | NaT

  /** One cell of the sheet. */
  datatype Cell =
    | Missing(blank: Blank)                      // `pd.notna` is false
    | Number(value: real, printed: string)       // an int or float; `printed` is its `str()`
    | Str(text: string)                          // a text cell
    | Stamp(date: CalendarDate, printed: string) // a timestamp; `printed` is its `str()`

  /** A row maps a column header to its cell; a header the map leaves out
      stands for an empty (NaN) cell. */
  type Row = map<string, Cell>

  datatype Sheet = Sheet(columns: seq<string>, rows: seq<Row>)

  /** `row[column]` for a column of the sheet. */
  function CellAt(row: Row, column: string): Cell {
    if column in row then row[column] else Missing(NaN)
  }

  /** `f"{cell}"`: how a cell appears inside an invoice's text. */
  function Shown(c: Cell): string {
    match c
    case Missing(NaN) => "nan"
    case Missing(NaT) => "NaT"
    case Number(_, printed) => printed
    case Str(text) => text
    case Stamp(_, printed) => printed
  }

  /** `df.empty`: the frame has no rows or no columns. */
  predicate IsEmpty(sheet: Sheet) {
    |sheet.rows| == 0 || |sheet.columns| == 0
  }

  const FixedColumns: seq<string> := ["Customer Name", "Address", "Delivery Date"]

  function ProductNames(catalog: seq<Product>): (names: seq<string>)
    ensures |names| == |catalog|
    ensures forall k :: 0 <= k < |catalog| ==> names[k] == catalog[k].name
  {
    if catalog == [] then [] else [catalog[0].name] + ProductNames(catalog[1..])
  }

  /** The columns an upload needs: the three fixed ones, then one per
      catalog product, in catalog order. */
  function RequiredColumns(catalog: seq<Product>): (required: seq<string>)
    ensures |required| == 3 + |catalog|
    ensures required[0] == "Customer Name" && required[1] == "Address" && required[2] == "Delivery Date"
    ensures forall k :: 0 <= k < |catalog| ==> required[3 + k] == catalog[k].name
  {
    FixedColumns + ProductNames(catalog)
  }

  /** `[col for col in required if col not in columns]`. */
  function Absent(required: seq<string>, columns: seq<string>): (missing: seq<string>)
    ensures |missing| <= |required|
    ensures forall c :: c in missing <==> c in required && c !in columns
  {
    if required == [] then []
    else (if required[0] in columns then [] else [required[0]]) + Absent(required[1..], columns)
  }

  /** The absent columns of a concatenation are those of each part, in
      order: the missing list keeps the order of the required list. */
  lemma {:induction false} AbsentAppend(a: seq<string>, b: seq<string>, columns: seq<string>)
    ensures Absent(a + b, columns) == Absent(a, columns) + Absent(b, columns)
    decreases |a|
  {
    if a == [] {
      assert a + b == b;
    } else {
      assert (a + b)[0] == a[0];
      assert (a + b)[1..] == a[1..] + b;
      AbsentAppend(a[1..], b, columns);
    }
  }

  function MissingColumns(columns: seq<string>, catalog: seq<Product>): seq<string> {
    Absent(RequiredColumns(catalog), columns)
  }

  /** `all(col in df.columns for col in required_columns)`. */
  predicate AllPresent(columns: seq<string>, catalog: seq<Product>) {
    forall c :: c in RequiredColumns(catalog) ==> c in columns
  }

  /** The check fails exactly when some required column is missing, and
      the missing list then names every one of them: the fixed columns
      first, then the product columns in catalog order. */
  lemma MissingColumnsExact(columns: seq<string>, catalog: seq<Product>)
    ensures AllPresent(columns, catalog) <==> MissingColumns(columns, catalog) == []
    ensures forall c :: c in MissingColumns(columns, catalog) <==>
                        c in RequiredColumns(catalog) && c !in columns
    ensures MissingColumns(columns, catalog) ==
            Absent(FixedColumns, columns) + Absent(ProductNames(catalog), columns)
  {
    AbsentAppend(FixedColumns, ProductNames(catalog), columns);
    var m := MissingColumns(columns, catalog);
    if m != [] {
      assert m[0] in m;
    }
  }

  /** The text of the `ValueError` for missing columns. */
  function MissingMessage(missing: seq<string>): (msg: string)
    ensures forall k :: 0 <= k < |missing| ==> Contains(msg, missing[k])
  {
    var msg := "Excel file is missing the following columns: " + Join(missing, ", ");
    assert forall k :: 0 <= k < |missing| ==> Contains(msg, missing[k]) by {
      forall k | 0 <= k < |missing| ensures Contains(msg, missing[k]) {
        JoinContainsPart(missing, ", ", k);
        ContainsInContext(Join(missing, ", "), "Excel file is missing the following columns: ", missing[k]);
      }
    }
    msg
  }

  const EmptyMessage: string := "The selected Excel file is empty."
}
