/** `load_data_from_csv`: turning CSV rows with heterogeneous headers into
    canonical records. Reading the file and splitting it into rows is left
    to the caller; a row arrives as a map from header name to cell text,
    with a header the file lacks simply absent from the map. */
module Loader {
  import opened Wrappers
  import opened Records
  import opened Seqs

  type Row = map<string, string>

  /** The accepted headers for each canonical field, in the order tried. */
  const ProductAliases: seq<string> := ["Product", "product", "Product_name", "product_name", "Name", "name"]
  const PriceAliases: seq<string> := ["Price", "price"]
  const StoreAliases: seq<string> := ["Store", "store", "Shop", "shop", "Website", "website"]
  const CategoryAliases: seq<string> := ["Category", "category", "Type", "type"]

  const DefaultCategory: string := "Uncategorized"

  /** `row.get(key)` is truthy: the header is present and its cell is not empty. */
  predicate Filled(row: Row, key: string) {
    key in row && row[key] != ""
  }

  /** `aliases[i]` is the first alias whose cell is filled. */
  ghost predicate FirstFilled(row: Row, aliases: seq<string>, i: int) {
    0 <= i < |aliases| && Filled(row, aliases[i])
    && forall j :: 0 <= j < i ==> !Filled(row, aliases[j])
  }

  /** The chain `row.get(a0) or row.get(a1) or ...`: the cell of the first
      filled alias, or the empty string when none is filled (Python then
      yields `None` or `""`, which the loader treats alike). */
  function Resolve(row: Row, aliases: seq<string>): (r: string)
    ensures r == "" <==> forall i :: 0 <= i < |aliases| ==> !Filled(row, aliases[i])
    ensures r != "" ==> exists i :: FirstFilled(row, aliases, i) && r == row[aliases[i]]
    decreases |aliases|
  {
    if |aliases| == 0 then
      ""
    else if Filled(row, aliases[0]) then
      assert FirstFilled(row, aliases, 0);
      row[aliases[0]]
    else
      var r := Resolve(row, aliases[1..]);
      assert r != "" ==> exists i :: FirstFilled(row, aliases, i) && r == row[aliases[i]] by {
        if r != "" {
          var k :| FirstFilled(row, aliases[1..], k) && r == row[aliases[1..][k]];
          assert FirstFilled(row, aliases, k + 1);
        }
      }
      assert (forall i :: 0 <= i < |aliases| ==> !Filled(row, aliases[i]))
        <==> (forall i :: 0 <= i < |aliases[1..]| ==> !Filled(row, aliases[1..][i])) by {
        if forall i :: 0 <= i < |aliases[1..]| ==> !Filled(row, aliases[1..][i]) {
          forall i | 0 <= i < |aliases|
            ensures !Filled(row, aliases[i])
          {
            if i > 0 {
              assert aliases[i] == aliases[1..][i - 1];
            }
          }
        }
      }
      r
  }

  /** Whatever the other aliases hold, the first filled alias decides the
      value of a field. */
  lemma ResolveFirstFilled(row: Row, aliases: seq<string>, i: int)
    requires FirstFilled(row, aliases, i)
    ensures Resolve(row, aliases) == row[aliases[i]]
  {
    var r := Resolve(row, aliases);
    assert r != "";
    var j :| FirstFilled(row, aliases, j) && r == row[aliases[j]];
    assert j == i;
  }

  /** The category column with its fallback. */
  function CategoryOf(row: Row): (r: string)
    ensures r != ""
    ensures Resolve(row, CategoryAliases) != "" ==> r == Resolve(row, CategoryAliases)
    ensures Resolve(row, CategoryAliases) == "" ==> r == DefaultCategory
  {
    var c := Resolve(row, CategoryAliases);
    if c != "" then c else DefaultCategory
  }

  /** One iteration of the loader's loop. A row yields a record exactly when
      its product, price and store resolve to non-empty text and the price
      text parses; the record then carries the resolved values. `parse`
      stands for Python's `float`, `None` meaning it raised. */
  function NormalizeRow(row: Row, parse: string -> Option<Price>): (r: Option<Record>)
    ensures r.Some? <==>
      && Resolve(row, ProductAliases) != ""
      && Resolve(row, PriceAliases) != ""
      && Resolve(row, StoreAliases) != ""
      && parse(Resolve(row, PriceAliases)).Some?
    ensures r.Some? ==>
      && r.value.product == Resolve(row, ProductAliases)
      && Some(r.value.price) == parse(Resolve(row, PriceAliases))
      && r.value.store == Resolve(row, StoreAliases)
      && r.value.category == CategoryOf(row)
    ensures r.Some? ==> Loaded(r.value)
  {
    var product := Resolve(row, ProductAliases);
    var price := Resolve(row, PriceAliases);
    var store := Resolve(row, StoreAliases);
    var category := CategoryOf(row);
    if product != "" && price != "" && store != "" then
      match parse(price)
      case None => None
      case Some(p) => Some(Record(product, p, store, category))
    else
      None
  }

  /** The loader over all rows: the records of the rows that normalise, in
      row order. */
  function LoadRows(rows: seq<Row>, parse: string -> Option<Price>): (r: seq<Record>)
    ensures |r| <= |rows|
    ensures forall i :: 0 <= i < |r| ==> Loaded(r[i])
    ensures forall x :: x in r ==> exists i :: 0 <= i < |rows| && NormalizeRow(rows[i], parse) == Some(x)
    ensures forall i :: 0 <= i < |rows| && NormalizeRow(rows[i], parse).Some? ==> NormalizeRow(rows[i], parse).value in r
  {
    var r := Collect(row => NormalizeRow(row, parse), rows);
    assert forall i :: 0 <= i < |r| ==> Loaded(r[i]) by {
      forall i | 0 <= i < |r|
        ensures Loaded(r[i])
      {
        assert r[i] in r;
        var k :| 0 <= k < |rows| && NormalizeRow(rows[k], parse) == Some(r[i]);
      }
    }
    r
  }

  /** Loading rows in two batches gives the two batches' records in order:
      the loader never reorders. */
  lemma LoadRowsAppend(a: seq<Row>, b: seq<Row>, parse: string -> Option<Price>)
    ensures LoadRows(a + b, parse) == LoadRows(a, parse) + LoadRows(b, parse)
  {
    CollectAppend(row => NormalizeRow(row, parse), a, b);
  }

  /** A single row contributes its record, or nothing. */
  lemma LoadRowsSingle(row: Row, parse: string -> Option<Price>)
    ensures NormalizeRow(row, parse).None? ==> LoadRows([row], parse) == []
    ensures NormalizeRow(row, parse).Some? ==> LoadRows([row], parse) == [NormalizeRow(row, parse).value]
  {
    assert [row][1..] == [];
  }

  /** `load_data_from_csv` as written: one pass over the rows, appending each
      record that normalises. */
  method LoadData(rows: seq<Row>, parse: string -> Option<Price>) returns (data: seq<Record>)
    ensures data == LoadRows(rows, parse)
    ensures forall i :: 0 <= i < |data| ==> Loaded(data[i])
  {
    data := CollectLoop(row => NormalizeRow(row, parse), rows);
  }
}
