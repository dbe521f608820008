/** The product catalog: the `products` table of (name, rate) rows, the
    three statements that change it, and the "Manage Products" window whose
    listbox shows it and whose buttons drive those statements. */
module Catalog {
  import opened Wrappers
  import opened Text

  /** One row of the `products` table. */
  datatype Product = Product(name: string, rate: int)

  /** The range of an SQLite INTEGER: Python's `sqlite3` refuses to bind a
      larger or smaller `int` and raises `OverflowError`. */
  const Int64Min: int := -0x8000_0000_0000_0000
  const Int64Max: int := 0x7fff_ffff_ffff_ffff

  predicate FitsInteger(v: int) {
    Int64Min <= v <= Int64Max
  }

  /** The rows `DELETE FROM products WHERE name=?` leaves: every row whose
      name differs from `name`, in their old order. */
  function WithoutName(rows: seq<Product>, name: string): (r: seq<Product>)
    ensures |r| <= |rows|
    ensures forall p :: p in r <==> p in rows && p.name != name
  {
    if rows == [] then []
    else (if rows[0].name == name then [] else [rows[0]]) + WithoutName(rows[1..], name)
  }

  /** Deleting from a table split in two deletes from each part: the rows
      that remain keep their relative order. */
  lemma {:induction false} WithoutNameAppend(a: seq<Product>, b: seq<Product>, name: string)
    ensures WithoutName(a + b, name) == WithoutName(a, name) + WithoutName(b, name)
    decreases |a|
  {
    if a == [] {
      assert a + b == b;
    } else {
      assert (a + b)[0] == a[0];
      assert (a + b)[1..] == a[1..] + b;
      WithoutNameAppend(a[1..], b, name);
    }
  }

  /** Deleting a name no row has changes nothing. */
  lemma {:induction false} WithoutUnknownName(rows: seq<Product>, name: string)
    requires forall k :: 0 <= k < |rows| ==> rows[k].name != name
    ensures WithoutName(rows, name) == rows
    decreases |rows|
  {
    if rows != [] {
      WithoutUnknownName(rows[1..], name);
    }
  }

  /** The rows `UPDATE products SET rate=? WHERE name=?` leaves: each row
      named `name` gets the new rate, every other row is as it was. */
  function WithRate(rows: seq<Product>, name: string, rate: int): (r: seq<Product>)
    ensures |r| == |rows|
    ensures forall k :: 0 <= k < |rows| ==> r[k].name == rows[k].name
    ensures forall k :: 0 <= k < |rows| && rows[k].name == name ==> r[k].rate == rate
    ensures forall k :: 0 <= k < |rows| && rows[k].name != name ==> r[k] == rows[k]
  {
    if rows == [] then []
    else [if rows[0].name == name then Product(name, rate) else rows[0]] + WithRate(rows[1..], name, rate)
  }

  /** Updating a name no row has changes nothing. */
  lemma UpdateUnknownName(rows: seq<Product>, name: string, rate: int)
    requires forall k :: 0 <= k < |rows| ==> rows[k].name != name
    ensures WithRate(rows, name, rate) == rows
  {
    var r := WithRate(rows, name, rate);
    assert forall k :: 0 <= k < |rows| ==> r[k] == rows[k];
  }

  /** Updating twice under one name leaves the second rate. */
  lemma UpdateTwice(rows: seq<Product>, name: string, rate1: int, rate2: int)
    ensures WithRate(WithRate(rows, name, rate1), name, rate2) == WithRate(rows, name, rate2)
  {
    var r1 := WithRate(WithRate(rows, name, rate1), name, rate2);
    var r2 := WithRate(rows, name, rate2);
    forall k | 0 <= k < |rows| ensures r1[k] == r2[k] {
    }
  }

  /** The listbox line of a product: `f"{name} - {rate}"`. */
  function Entry(p: Product): string {
    p.name + " - " + IntToString(p.rate)
  }

  /** What `refresh_product_list` puts in the listbox: one entry per row, in row order. */
  function Entries(rows: seq<Product>): (r: seq<string>)
    ensures |r| == |rows| && forall k :: 0 <= k < |rows| ==> r[k] == Entry(rows[k])
  {
    if rows == [] then [] else [Entry(rows[0])] + Entries(rows[1..])
  }

  /** The name the Delete and Update buttons read off a listbox entry:
      `entry.split(" - ")[0]`. */
  function EntryName(entry: string): string {
    BeforeFirst(entry, " - ")
  }

  /** A name the listbox gives back intact: it holds no `" - "` and does
      not end in `" -"` (which would run into the separator). */
  predicate ListableName(name: string) {
    !Contains(name, " - ") && !(|name| >= 2 && name[|name| - 2..] == " -")
  }

  /** A separator found in an entry before its own separator betrays a
      name that is not listable. */
  lemma EarlySeparator(n: string, rest: string, k: nat)
    requires k < |n| && OccursAt(n + " - " + rest, " - ", k)
    ensures !ListableName(n)
  {
    var e := n + " - " + rest;
    assert e[k..k + 3] == " - ";
    assert e[k] == ' ' && e[k + 1] == '-' && e[|n|] == ' ';
    if k + 3 <= |n| {
      assert n[k..k + 3] == e[k..k + 3];
      ContainsAt(n, " - ", k);
    } else {
      assert k == |n| - 2 && n[k] == ' ' && n[k + 1] == '-';
      assert n[|n| - 2..] == [n[k], n[k + 1]];
    }
  }

  /** A name that is not listable puts a separator into its entry before
      the entry's own separator. */
  lemma SeparatorInName(n: string, rest: string) returns (k: nat)
    requires !ListableName(n)
    ensures k < |n| && OccursAt(n + " - " + rest, " - ", k)
  {
    var e := n + " - " + rest;
    if Contains(n, " - ") {
      k := Find(n, " - ").value;
      assert e[k..k + 3] == n[k..k + 3];
    } else {
      k := |n| - 2;
      assert e[k..k + 3] == n[|n| - 2..] + " ";
    }
  }

  /** The listbox round trip: the name read off a product's entry is the
      product's name exactly when that name is listable. */
  lemma EntryNameRoundTrip(p: Product)
    ensures EntryName(Entry(p)) == p.name <==> ListableName(p.name)
  {
    var n := p.name;
    var rest := IntToString(p.rate);
    var e := Entry(p);
    assert e == n + " - " + rest;
    assert e[|n|..|n| + 3] == " - ";
    assert OccursAt(e, " - ", |n|);
    var k := Find(e, " - ").value;
    assert EntryName(e) == e[..k];
    if ListableName(n) {
      if k < |n| {
        EarlySeparator(n, rest, k);
      }
      assert k == |n|;
      assert e[..k] == n;
    } else {
      var j := SeparatorInName(n, rest);
      assert k <= j;
      assert |e[..k]| != |n|;
    }
  }

  /** A product named "A - B" is listed as "A - B - 5", and Delete then
      removes the rows named "A", not the row named "A - B". */
  lemma EntryNameCutsAtSeparator()
    ensures EntryName(Entry(Product("A - B", 5))) == "A"
  {
    var e := Entry(Product("A - B", 5));
    assert IntToString(5) == "5";
    assert e == "A - B - 5";
    assert OccursAt(e, " - ", 1);
    assert e[0] == 'A';
    assert !OccursAt(e, " - ", 0);
  }

  /** The text of the listbox line `listbox.get(tk.ACTIVE)` returns: the
      active line, clamped to the list, or `""` when the list is empty. */
  function ActiveEntry(listbox: seq<string>, active: nat): (r: string)
    ensures listbox == [] ==> r == ""
    ensures listbox != [] ==> r in listbox
  {
    if |listbox| == 0 then ""
    else if active < |listbox| then listbox[active]
    else listbox[|listbox| - 1]
  }

  /** Every listbox entry is non-empty, so a button finds nothing selected
      only when the table is empty. */
  lemma ActiveEntryEmpty(rows: seq<Product>, active: nat)
    ensures ActiveEntry(Entries(rows), active) == "" <==> rows == []
  {
    var lb := Entries(rows);
    if rows != [] {
      var i := if active < |lb| then active else |lb| - 1;
      assert |Entry(rows[i])| >= 3;
    }
  }

  /** The `products` table: its rows in insertion order (the order the
      model assumes for `SELECT name, rate FROM products`, which has no
      ORDER BY). */
  class ProductTable {
    var rows: seq<Product>

    /** `initialize_db` on a new database file: an empty table. */
    constructor ()
      ensures rows == []
    {
      rows := [];
    }

    /** `add_product_to_db`: appends one row; a rate outside the SQLite
        INTEGER range raises before anything is written. */
    method Insert(name: string, rate: int) returns (ok: bool)
      modifies this
      ensures ok == FitsInteger(rate)
      ensures rows == if ok then old(rows) + [Product(name, rate)] else old(rows)
    {
      ok := FitsInteger(rate);
      if ok {
        rows := rows + [Product(name, rate)];
      }
    }

    /** `delete_product_from_db`: removes every row with exactly this name. */
    method DeleteNamed(name: string)
      modifies this
      ensures rows == WithoutName(old(rows), name)
    {
      rows := WithoutName(rows, name);
    }

    /** `update_product_in_db`: sets the rate of every row with exactly this
        name; a rate outside the SQLite INTEGER range raises first. */
    method UpdateRate(name: string, rate: int) returns (ok: bool)
      modifies this
      ensures ok == FitsInteger(rate)
      ensures rows == if ok then WithRate(old(rows), name, rate) else old(rows)
    {
      ok := FitsInteger(rate);
      if ok {
        rows := WithRate(rows, name, rate);
      }
    }
  }

  /** What a button press of the manage window ends in: nothing, an
      information box, an error box, or an exception that escapes the
      handler (Tk reports it; the window stays). */
  datatype Outcome = NoAction | Info(message: string) | ErrorBox(message: string) | Uncaught

  const InvalidRateMessage: string := "Invalid rate entered. Please enter a numeric value."

  /** Python's truth test on a dialog answer: `askstring` returns `None`
      when cancelled, and `""` is false as well. */
  predicate Answered(answer: Option<string>) {
    answer.Some? && answer.value != ""
  }

  /** The "Manage Products" window: the table and the listbox that shows it.
      Dialog answers and the listbox's active line are parameters. Every
      click of "Manage Products" opens another window over the same table,
      and a handler refreshes only its own listbox, so a window's listbox
      may be stale; the handlers do not need it to be current. */
  class ManageWindow {
    const table: ProductTable
    var listbox: seq<string>

    /** The listbox shows the table, one entry per row. */
    ghost predicate Valid()
      reads this, table
    {
      listbox == Entries(table.rows)
    }

    /** `manage_products`: opens the window and fills the listbox. */
    constructor (table: ProductTable)
      ensures this.table == table && Valid()
      ensures table.rows == old(table.rows)
    {
      this.table := table;
      listbox := Entries(table.rows);
    }

    /** `refresh_product_list`: clears the listbox and lists every row. */
    method Refresh()
      modifies this
      ensures Valid()
    {
      listbox := Entries(table.rows);
    }

    /** `add_product`: asks for a name and a rate, then inserts the
        stripped name. The truth test is on the unstripped answer, so an
        answer of blanks inserts a product with the empty name. */
    method AddProduct(nameAnswer: Option<string>, rateAnswer: Option<string>) returns (o: Outcome)
      modifies this, table
      ensures o.Info? ==> Valid()
      ensures !o.Info? ==> listbox == old(listbox) && (old(Valid()) ==> Valid())
      ensures !Answered(nameAnswer) ==> o == NoAction && table.rows == old(table.rows)
      ensures Answered(nameAnswer) && rateAnswer.None? ==> o == Uncaught && table.rows == old(table.rows)
      ensures Answered(nameAnswer) && rateAnswer.Some? && ParseInt(rateAnswer.value).None? ==>
                o == ErrorBox(InvalidRateMessage) && table.rows == old(table.rows)
      ensures Answered(nameAnswer) && rateAnswer.Some? && ParseInt(rateAnswer.value).Some? ==>
                var rate := ParseInt(rateAnswer.value).value;
                if FitsInteger(rate) then
                  && table.rows == old(table.rows) + [Product(Strip(nameAnswer.value), rate)]
                  && o == Info("Product '" + nameAnswer.value + "' added with rate " + IntToString(rate))
                else o == Uncaught && table.rows == old(table.rows)
    {
      if !Answered(nameAnswer) {
        return NoAction;
      }
      var name := nameAnswer.value;
      if rateAnswer.None? {
        return Uncaught;
      }
      var parsed := ParseInt(rateAnswer.value);
      if parsed.None? {
        return ErrorBox(InvalidRateMessage);
      }
      var rate := parsed.value;
      var ok := table.Insert(Strip(name), rate);
      if !ok {
        return Uncaught;
      }
      Refresh();
      o := Info("Product '" + name + "' added with rate " + IntToString(rate));
    }

    /** `delete_product`: deletes every row named as the active entry's
        text before its first `" - "`. */
    method DeleteProduct(active: nat) returns (o: Outcome)
      modifies this, table
      ensures o.Info? ==> Valid()
      ensures !o.Info? ==> listbox == old(listbox) && (old(Valid()) ==> Valid())
      ensures var selected := old(ActiveEntry(listbox, active));
              if selected == "" then o == NoAction && table.rows == old(table.rows)
              else
                && table.rows == WithoutName(old(table.rows), EntryName(selected))
                && o == Info("Product '" + EntryName(selected) + "' deleted.")
    {
      var selected := ActiveEntry(listbox, active);
      if selected == "" {
        return NoAction;
      }
      var name := EntryName(selected);
      table.DeleteNamed(name);
      Refresh();
      o := Info("Product '" + name + "' deleted.");
    }

    /** `update_product`: needs an active entry, but then asks for a name
        and a rate and sets that rate on the rows with the newly typed
        (stripped) name; the active entry's own name is discarded. The rate
        answer is converted before the name answer is stripped, so a
        cancelled rate dialog escapes as a `TypeError` and a cancelled name
        dialog as an `AttributeError`. */
    method UpdateProduct(active: nat, nameAnswer: Option<string>, rateAnswer: Option<string>)
      returns (o: Outcome)
      modifies this, table
      ensures o.Info? ==> Valid()
      ensures !o.Info? ==> listbox == old(listbox) && (old(Valid()) ==> Valid())
      ensures old(ActiveEntry(listbox, active)) == "" ==> o == NoAction && table.rows == old(table.rows)
      ensures old(ActiveEntry(listbox, active)) != "" ==>
                if rateAnswer.None? then o == Uncaught && table.rows == old(table.rows)
                else if ParseInt(rateAnswer.value).None? then
                  o == ErrorBox(InvalidRateMessage) && table.rows == old(table.rows)
                else if nameAnswer.None? || !FitsInteger(ParseInt(rateAnswer.value).value) then
                  o == Uncaught && table.rows == old(table.rows)
                else
                  var rate := ParseInt(rateAnswer.value).value;
                  && table.rows == WithRate(old(table.rows), Strip(nameAnswer.value), rate)
                  && o == Info("Rate for '" + nameAnswer.value + "' updated to " + IntToString(rate) + ".")
    {
      var selected := ActiveEntry(listbox, active);
      if selected == "" {
        return NoAction;
      }
      if rateAnswer.None? {
        return Uncaught;
      }
      var parsed := ParseInt(rateAnswer.value);
      if parsed.None? {
        return ErrorBox(InvalidRateMessage);
      }
      if nameAnswer.None? {
        return Uncaught;
      }
      var name := nameAnswer.value;
      var rate := parsed.value;
      var ok := table.UpdateRate(Strip(name), rate);
      if !ok {
        return Uncaught;
      }
      Refresh();
      o := Info("Rate for '" + name + "' updated to " + IntToString(rate) + ".");
    }
  }
}
