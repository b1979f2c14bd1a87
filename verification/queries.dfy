/** The three selection queries: `find_cheapest_overall`,
    `find_cheapest_by_product` and `filter_by_category`. */
module Queries {
  import opened Wrappers
  import opened Text
  import opened Records
  import opened Seqs

  /** Position `i` holds the first record satisfying `p` whose price is
      minimal among the records satisfying `p`: the element Python's
      `min(..., key=price)` returns when run over those records. */
  ghost predicate IsFirstCheapest(s: seq<Record>, p: Record -> bool, i: int) {
    && 0 <= i < |s|
    && p(s[i])
    && (forall j :: 0 <= j < |s| && p(s[j]) ==> s[i].price <= s[j].price)
    && (forall j :: 0 <= j < i && p(s[j]) ==> s[i].price < s[j].price)
  }

  /** At most one position is the first cheapest one. */
  lemma FirstCheapestUnique(s: seq<Record>, p: Record -> bool, i: int, j: int)
    requires IsFirstCheapest(s, p, i) && IsFirstCheapest(s, p, j)
    ensures i == j
  {
  }

  /** The position of the first cheapest record satisfying `p`, or `None`
      when no record does. */
  function CheapestIndex(s: seq<Record>, p: Record -> bool): (r: Option<nat>)
    ensures r.None? <==> forall j :: 0 <= j < |s| ==> !p(s[j])
    ensures r.Some? ==> IsFirstCheapest(s, p, r.value)
    decreases |s|
  {
    if |s| == 0 then
      None
    else
      var rest := CheapestIndex(s[1..], p);
      assert forall j :: 1 <= j < |s| ==> s[j] == s[1..][j - 1];
      if rest.None? then
        if p(s[0]) then Some(0) else None
      else if p(s[0]) && s[0].price <= s[rest.value + 1].price then
        Some(0)
      else
        Some(rest.value + 1)
  }

  /** CPython's `min(s, key=price)` as it runs: keep the first element and
      replace it only by a strictly cheaper one. */
  method MinByPrice(s: seq<Record>) returns (best: nat)
    requires |s| > 0
    ensures best < |s|
    ensures forall j :: 0 <= j < |s| ==> s[best].price <= s[j].price
    ensures forall j :: 0 <= j < best ==> s[best].price < s[j].price
  {
    best := 0;
    var k := 1;
    while k < |s|
      invariant 1 <= k <= |s|
      invariant best < k
      invariant forall j :: 0 <= j < k ==> s[best].price <= s[j].price
      invariant forall j :: 0 <= j < best ==> s[best].price < s[j].price
    {
      if s[k].price < s[best].price {
        best := k;
      }
      k := k + 1;
    }
  }

  /** The first cheapest record satisfying `p`, as a value. */
  function CheapestWhere(s: seq<Record>, p: Record -> bool): (r: Option<Record>)
    ensures r.None? <==> forall j :: 0 <= j < |s| ==> !p(s[j])
    ensures r.Some? ==> exists i :: IsFirstCheapest(s, p, i) && s[i] == r.value
  {
    match CheapestIndex(s, p)
    case None => None
    case Some(i) => Some(s[i])
  }

  /** How the first cheapest record of `s` follows from that of its tail:
      the head wins when it qualifies and is no dearer. */
  lemma CheapestWhereStep(s: seq<Record>, p: Record -> bool)
    requires |s| > 0
    ensures var c := CheapestWhere(s[1..], p);
            CheapestWhere(s, p) == if p(s[0]) && (c.None? || s[0].price <= c.value.price) then Some(s[0]) else c
  {
  }

  /** Taking the cheapest of the records satisfying `p` is taking the
      cheapest of the list filtered by `p`. */
  lemma {:induction false} CheapestWhereIsCheapestOfFilter(s: seq<Record>, p: Record -> bool)
    ensures CheapestWhere(s, p) == CheapestWhere(Filter(p, s), AnyRecord)
    decreases |s|
  {
    if |s| > 0 {
      CheapestWhereStep(s, p);
      CheapestWhereIsCheapestOfFilter(s[1..], p);
      var m := Filter(p, s[1..]);
      if p(s[0]) {
        assert Filter(p, s) == [s[0]] + m;
        CheapestWhereStep([s[0]] + m, AnyRecord);
        assert ([s[0]] + m)[1..] == m;
      }
    }
  }

  predicate AnyRecord(x: Record) {
    true
  }

  /** `find_cheapest_overall`: `None` for no data, otherwise the first record
      of minimal price. */
  function FindCheapestOverall(data: seq<Record>): (r: Option<Record>)
    ensures r.None? <==> |data| == 0
    ensures r.Some? ==> r.value in data && forall x :: x in data ==> r.value.price <= x.price
    ensures r.Some? ==> exists i :: 0 <= i < |data| && data[i] == r.value
                                    && forall j :: 0 <= j < i ==> r.value.price < data[j].price
  {
    if |data| == 0 then
      None
    else
      assert AnyRecord(data[0]);
      CheapestWhere(data, AnyRecord)
  }

  /** A record strictly cheaper than every other record is the answer. */
  lemma CheapestOverallStrictWinner(data: seq<Record>, x: Record)
    requires x in data
    requires forall y :: y in data && y != x ==> x.price < y.price
    ensures FindCheapestOverall(data) == Some(x)
  {
  }

  /** The loop form of `min` picks the record `find_cheapest_overall` returns. */
  method CheapestOverall(data: seq<Record>) returns (r: Option<Record>)
    ensures r == FindCheapestOverall(data)
    ensures r.Some? ==> r.value in data
  {
    if |data| == 0 {
      return None;
    }
    var best := MinByPrice(data);
    assert AnyRecord(data[0]);
    FirstCheapestUnique(data, AnyRecord, best, CheapestIndex(data, AnyRecord).value);
    r := Some(data[best]);
  }

  /** `item["product"].lower() == product_name.lower()`, with the query
      already lower-cased. */
  predicate NameIs(lowered: string, x: Record) {
    Lower(x.product) == lowered
  }

  /** The match test of `find_cheapest_by_product` for one query. */
  function NameMatches(name: string): Record -> bool {
    x => NameIs(Lower(name), x)
  }

  /** `find_cheapest_by_product`: among the records whose product equals the
      query ignoring case, the first of minimal price; `None` when there is
      no such record. */
  function FindCheapestByProduct(name: string, data: seq<Record>): (r: Option<Record>)
    ensures r.None? <==> forall x :: x in data ==> Lower(x.product) != Lower(name)
    ensures r.Some? ==> r.value in data && Lower(r.value.product) == Lower(name)
    ensures r.Some? ==> forall x :: x in data && Lower(x.product) == Lower(name) ==> r.value.price <= x.price
    ensures r.Some? ==> exists i :: 0 <= i < |data| && data[i] == r.value
                                    && forall j :: 0 <= j < i && Lower(data[j].product) == Lower(name) ==> r.value.price < data[j].price
  {
    CheapestWhere(data, NameMatches(name))
  }

  /** A matching record strictly cheaper than every other match is the
      answer. */
  lemma CheapestByProductStrictWinner(name: string, data: seq<Record>, x: Record)
    requires x in data && Lower(x.product) == Lower(name)
    requires forall y :: y in data && Lower(y.product) == Lower(name) && y != x ==> x.price < y.price
    ensures FindCheapestByProduct(name, data) == Some(x)
  {
  }

  /** The answer depends on the query only through its lower-cased form, so
      `"MILK"` and `"milk"` are the same query. */
  lemma CheapestByProductIgnoresCase(a: string, b: string, data: seq<Record>)
    requires Lower(a) == Lower(b)
    ensures FindCheapestByProduct(a, data) == FindCheapestByProduct(b, data)
  {
  }

  /** Lower-casing the query before asking changes nothing. */
  lemma CheapestByProductPreLowered(name: string, data: seq<Record>)
    ensures FindCheapestByProduct(Lower(name), data) == FindCheapestByProduct(name, data)
  {
    LowerIdempotent(name);
    CheapestByProductIgnoresCase(Lower(name), name, data);
  }

  /** The source's two steps, collect the matches and then take their
      minimum, give what `FindCheapestByProduct` computes. */
  lemma CheapestByProductIsMinOfMatches(name: string, data: seq<Record>)
    ensures FindCheapestByProduct(name, data) == FindCheapestOverall(Filter(NameMatches(name), data))
  {
    CheapestWhereIsCheapestOfFilter(data, NameMatches(name));
  }

  /** The category test of `filter_by_category`: the category is not empty
      and contains the query, both lower-cased. */
  predicate CategoryMatches(query: string, x: Record) {
    x.category != "" && Contains(Lower(x.category), Lower(query))
  }

  /** `filter_by_category`: exactly the records whose category contains the
      query ignoring case, in their original order, each as often as in the
      input. */
  function FilterByCategory(query: string, data: seq<Record>): (r: seq<Record>)
    ensures forall x :: x in r ==> x.category != "" && Contains(Lower(x.category), Lower(query))
    ensures forall x :: multiset(r)[x] ==
                        (if x.category != "" && Contains(Lower(x.category), Lower(query)) then multiset(data)[x] else 0)
    ensures SubsequenceOf(r, data)
  {
    Filter(x => CategoryMatches(query, x), data)
  }

  /** Filtering two batches of records gives the two batches' matches in order. */
  lemma FilterByCategoryAppend(query: string, a: seq<Record>, b: seq<Record>)
    ensures FilterByCategory(query, a + b) == FilterByCategory(query, a) + FilterByCategory(query, b)
  {
    FilterAppend(x => CategoryMatches(query, x), a, b);
  }
}
