/** Concrete scenarios: the sample records of the demonstration driver and
    a few rows through the loader. */
module Examples {
  import opened Wrappers
  import opened Text
  import opened Records
  import opened Loader
  import opened Queries
  import opened Sorting
  import opened Seqs

  const MilkA := Record("Milk", 45.0, "Store A", "Dairy")
  const MilkB := Record("Milk", 50.0, "Store B", "Dairy")
  const BreadA := Record("Bread", 30.0, "Store A", "Bakery")
  const BreadB := Record("Bread", 25.0, "Store B", "Bakery")
  const BreadC := Record("Bread", 28.0, "Store C", "Bakery")
  const EggsA := Record("Eggs", 60.0, "Store A", "Groceries")
  const EggsB := Record("Eggs", 55.0, "Store B", "Groceries")
  const ChickenM := Record("Chicken", 120.0, "Market", "Meat")
  const ChickenS := Record("Chicken", 130.0, "Supermart", "Meat")

  const Sample: seq<Record> := [MilkA, MilkB, BreadA, BreadB, BreadC, EggsA, EggsB, ChickenM, ChickenS]

  /** The cheapest milk of the sample is the 45.0 one at Store A. */
  lemma SampleCheapestMilk()
    ensures FindCheapestByProduct("Milk", Sample) == Some(MilkA)
  {
    assert Lower("Milk") == "milk";
    assert Lower("Bread") != "milk" by { assert Lower("Bread")[0] == 'b'; }
    assert Lower("Eggs") != "milk" by { assert Lower("Eggs")[0] == 'e'; }
    assert Lower("Chicken") != "milk" by { assert Lower("Chicken")[0] == 'c'; }
    forall y | y in Sample && Lower(y.product) == Lower("Milk") && y != MilkA
      ensures MilkA.price < y.price
    {
      assert y == MilkB;
    }
    CheapestByProductStrictWinner("Milk", Sample, MilkA);
  }

  /** Upper-case and lower-case queries agree on the sample. */
  lemma SampleMilkIgnoresCase()
    ensures FindCheapestByProduct("MILK", Sample) == FindCheapestByProduct("milk", Sample)
  {
    assert Lower("MILK") == "milk";
    assert Lower("milk") == "milk";
    CheapestByProductIgnoresCase("MILK", "milk", Sample);
  }

  /** The cheapest item overall is the bread at Store B. */
  lemma SampleCheapestOverall()
    ensures FindCheapestOverall(Sample) == Some(BreadB)
  {
    forall y | y in Sample && y != BreadB
      ensures BreadB.price < y.price
    {
    }
    CheapestOverallStrictWinner(Sample, BreadB);
  }

  /** The cheapest bread of the sample is the 25.0 one at Store B. */
  lemma SampleCheapestBread()
    ensures FindCheapestByProduct("Bread", Sample) == Some(BreadB)
  {
    assert Lower("Bread") == "bread";
    assert Lower("Milk") != "bread" by { assert Lower("Milk")[0] == 'm'; }
    assert Lower("Eggs") != "bread" by { assert Lower("Eggs")[0] == 'e'; }
    assert Lower("Chicken") != "bread" by { assert Lower("Chicken")[0] == 'c'; }
    forall y | y in Sample && Lower(y.product) == Lower("Bread") && y != BreadB
      ensures BreadB.price < y.price
    {
      assert y == BreadA || y == BreadC;
    }
    CheapestByProductStrictWinner("Bread", Sample, BreadB);
  }

  lemma BakeryMatches()
    ensures CategoryMatches("Bakery", BreadA) && CategoryMatches("Bakery", BreadB) && CategoryMatches("Bakery", BreadC)
    ensures !CategoryMatches("Bakery", MilkA) && !CategoryMatches("Bakery", MilkB)
    ensures !CategoryMatches("Bakery", EggsA) && !CategoryMatches("Bakery", EggsB)
    ensures !CategoryMatches("Bakery", ChickenM) && !CategoryMatches("Bakery", ChickenS)
  {
    assert Lower("Bakery") == "bakery";
    assert Lower("Dairy") == "dairy";
    assert Lower("Groceries") == "groceries";
    assert Lower("Meat") == "meat";
    assert Contains("bakery", "bakery");
    assert !Contains("dairy", "bakery");
    assert !Contains("meat", "bakery");
    assert !Contains("eries", "bakery");
    assert !Contains("ceries", "bakery") by {
      assert "ceries"[..6] != "bakery" by { assert "ceries"[..6][0] == 'c'; }
      assert "ceries"[1..] == "eries";
    }
    assert !Contains("oceries", "bakery") by {
      assert "oceries"[..6] != "bakery" by { assert "oceries"[..6][0] == 'o'; }
      assert "oceries"[1..] == "ceries";
    }
    assert !Contains("roceries", "bakery") by {
      assert "roceries"[..6] != "bakery" by { assert "roceries"[..6][0] == 'r'; }
      assert "roceries"[1..] == "oceries";
    }
    assert !Contains("groceries", "bakery") by {
      assert "groceries"[..6] != "bakery" by { assert "groceries"[..6][0] == 'g'; }
      assert "groceries"[1..] == "roceries";
    }
  }

  /** The `Bakery` category of the sample holds the three breads, in order. */
  lemma SampleBakery()
    ensures FilterByCategory("Bakery", Sample) == [BreadA, BreadB, BreadC]
  {
    BakeryMatches();
    var p := x => CategoryMatches("Bakery", x);
    var front := [MilkA, MilkB];
    var middle := [BreadA, BreadB, BreadC];
    var back := [EggsA, EggsB, ChickenM, ChickenS];
    assert Sample == front + middle + back;
    FilterKeepsMiddle(p, front, middle, back);
  }

  lemma SampleByPriceFacts(r: seq<Record>)
    requires r == [BreadB, BreadC, BreadA, MilkA, MilkB, EggsB, EggsA, ChickenM, ChickenS]
    ensures Sorted("price", r)
    ensures DistinctKeys("price", r) && DistinctKeys("price", Sample)
  {
  }

  lemma ReorderBlocks<T>(m: seq<T>, bs: seq<T>, bs': seq<T>, es: seq<T>, es': seq<T>, c: seq<T>)
    requires multiset(bs) == multiset(bs') && multiset(es) == multiset(es')
    ensures multiset(bs + m + es + c) == multiset(m + bs' + es' + c)
  {
  }

  lemma SampleByPricePermutation(r: seq<Record>)
    requires r == [BreadB, BreadC, BreadA, MilkA, MilkB, EggsB, EggsA, ChickenM, ChickenS]
    ensures multiset(r) == multiset(Sample)
  {
    var m, c := [MilkA, MilkB], [ChickenM, ChickenS];
    var bs, bs' := [BreadB, BreadC, BreadA], [BreadA, BreadB, BreadC];
    var es, es' := [EggsB, EggsA], [EggsA, EggsB];
    assert r == bs + m + es + c;
    assert Sample == m + bs' + es' + c;
    assert multiset(bs) == multiset(bs');
    assert multiset(es) == multiset(es');
    ReorderBlocks(m, bs, bs', es, es', c);
  }

  /** The sample sorted by price, as the driver lists it. */
  lemma SampleSortedByPrice()
    ensures SortData(Sample, "price") == [BreadB, BreadC, BreadA, MilkA, MilkB, EggsB, EggsA, ChickenM, ChickenS]
  {
    var r := [BreadB, BreadC, BreadA, MilkA, MilkB, EggsB, EggsA, ChickenM, ChickenS];
    SampleByPriceFacts(r);
    SampleByPricePermutation(r);
    SortDistinctKeys(Sample, "price", r);
  }

  const TeaRow: Row := map["Name" := "Tea", "Price" := "19.99", "Shop" := "CornerShop"]

  lemma TeaRowResolves()
    ensures Resolve(TeaRow, ProductAliases) == "Tea"
    ensures Resolve(TeaRow, PriceAliases) == "19.99"
    ensures Resolve(TeaRow, StoreAliases) == "CornerShop"
    ensures CategoryOf(TeaRow) == "Uncategorized"
  {
    assert FirstFilled(TeaRow, ProductAliases, 4);
    ResolveFirstFilled(TeaRow, ProductAliases, 4);
    assert FirstFilled(TeaRow, PriceAliases, 0);
    ResolveFirstFilled(TeaRow, PriceAliases, 0);
    assert FirstFilled(TeaRow, StoreAliases, 2);
    ResolveFirstFilled(TeaRow, StoreAliases, 2);
    assert forall i :: 0 <= i < |CategoryAliases| ==> !Filled(TeaRow, CategoryAliases[i]);
  }

  /** A CSV with header `Name,Price,Shop` and the row `Tea,19.99,CornerShop`
      loads as one record with the default category. */
  lemma LoadTeaRow(parse: string -> Option<Price>)
    requires parse("19.99") == Some(19.99)
    ensures LoadRows([TeaRow], parse) == [Record("Tea", 19.99, "CornerShop", "Uncategorized")]
  {
    TeaRowResolves();
    assert NormalizeRow(TeaRow, parse) == Some(Record("Tea", 19.99, "CornerShop", "Uncategorized"));
    LoadRowsSingle(TeaRow, parse);
  }

  /** A price that does not parse drops the row. */
  lemma UnparsablePriceIsDropped(parse: string -> Option<Price>)
    requires parse("N/A") == None
    ensures var row := map["Product" := "Tea", "Price" := "N/A", "Store" := "CornerShop"];
            LoadRows([row], parse) == []
  {
    var row := map["Product" := "Tea", "Price" := "N/A", "Store" := "CornerShop"];
    LoadRowsSingle(row, parse);
  }

  /** A row without any store column is dropped, whatever the price. */
  lemma MissingStoreIsDropped(parse: string -> Option<Price>)
    ensures var row := map["Product" := "Tea", "Price" := "19.99"];
            LoadRows([row], parse) == []
  {
    var row := map["Product" := "Tea", "Price" := "19.99"];
    LoadRowsSingle(row, parse);
  }

  /** An empty `Category` cell falls through to the `Type` column, and an
      empty `Product` cell to `product`. */
  lemma AliasFallThrough(parse: string -> Option<Price>)
    requires parse("3") == Some(3.0)
    ensures var row := map["Product" := "", "product" := "Tea", "Price" := "3", "Store" := "S",
                           "Category" := "", "Type" := "Drinks"];
            NormalizeRow(row, parse) == Some(Record("Tea", 3.0, "S", "Drinks"))
  {
    var row := map["Product" := "", "product" := "Tea", "Price" := "3", "Store" := "S",
                    "Category" := "", "Type" := "Drinks"];
    assert FirstFilled(row, ProductAliases, 1);
    ResolveFirstFilled(row, ProductAliases, 1);
    assert FirstFilled(row, PriceAliases, 0);
    ResolveFirstFilled(row, PriceAliases, 0);
    assert FirstFilled(row, StoreAliases, 0);
    ResolveFirstFilled(row, StoreAliases, 0);
    assert FirstFilled(row, CategoryAliases, 2);
    ResolveFirstFilled(row, CategoryAliases, 2);
  }
}
