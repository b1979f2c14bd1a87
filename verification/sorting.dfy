/** `sort_data`: Python's stable `sorted` over records, keyed either by price
    or by the lower-cased text of a named field. */
module Sorting {
  import opened Text
  import opened Records

  /** A sort key: a price, or a lower-cased text. One call of `SortData`
      produces only one kind, so how the two kinds compare with each other
      never matters; prices are put first to make the order total. */
  datatype Key = PriceKey(p: Price) | TextKey(t: string)

  predicate KeyLe(a: Key, b: Key) {
    match (a, b)
    case (PriceKey(x), PriceKey(y)) => x <= y
    case (TextKey(s), TextKey(t)) => StrLe(s, t)
    case (PriceKey(_), TextKey(_)) => true
    case (TextKey(_), PriceKey(_)) => false
  }

  lemma KeyLeTotal(a: Key, b: Key)
    ensures KeyLe(a, b) || KeyLe(b, a)
  {
    if a.TextKey? && b.TextKey? {
      StrLeTotal(a.t, b.t);
    }
  }

  lemma KeyLeAntisymmetric(a: Key, b: Key)
    requires KeyLe(a, b) && KeyLe(b, a)
    ensures a == b
  {
    if a.TextKey? && b.TextKey? {
      StrLeAntisymmetric(a.t, b.t);
    }
  }

  lemma KeyLeTransitive(a: Key, b: Key, c: Key)
    requires KeyLe(a, b) && KeyLe(b, c)
    ensures KeyLe(a, c)
  {
    if a.TextKey? && b.TextKey? && c.TextKey? {
      StrLeTransitive(a.t, b.t, c.t);
    }
  }

  /** `item.get(by, "")` for a text field: a record has the keys product,
      price, store and category, and any other name is missing. */
  function FieldText(field: string, x: Record): string {
    if field == "product" then x.product
    else if field == "store" then x.store
    else if field == "category" then x.category
    else ""
  }

  /** The key `sort_data` sorts by. */
  function SortKey(field: string, x: Record): Key {
    if field == "price" then PriceKey(x.price) else TextKey(Lower(FieldText(field, x)))
  }

  ghost predicate Sorted(field: string, s: seq<Record>) {
    forall i, j :: 0 <= i < j < |s| ==> KeyLe(SortKey(field, s[i]), SortKey(field, s[j]))
  }

  /** The records of `s` whose key is `k`, in their order in `s`. */
  function WithKey(field: string, k: Key, s: seq<Record>): seq<Record>
    decreases |s|
  {
    if |s| == 0 then []
    else if SortKey(field, s[0]) == k then [s[0]] + WithKey(field, k, s[1..])
    else WithKey(field, k, s[1..])
  }

  /** `r` keeps the relative order of every group of records with equal keys
      in `s`: the meaning of a stable sort. */
  ghost predicate StableWith(field: string, r: seq<Record>, s: seq<Record>) {
    forall k :: WithKey(field, k, r) == WithKey(field, k, s)
  }

  /** Puts `x` before the first record whose key is not below its own. */
  function Insert(field: string, x: Record, s: seq<Record>): (r: seq<Record>)
    ensures multiset(r) == multiset(s) + multiset{x}
    decreases |s|
  {
    if |s| == 0 then
      [x]
    else if KeyLe(SortKey(field, x), SortKey(field, s[0])) then
      [x] + s
    else
      assert s == [s[0]] + s[1..];
      [s[0]] + Insert(field, x, s[1..])
  }

  lemma {:induction false} InsertSorted(field: string, x: Record, s: seq<Record>)
    requires Sorted(field, s)
    ensures Sorted(field, Insert(field, x, s))
    decreases |s|
  {
    if |s| > 0 {
      var kx := SortKey(field, x);
      if KeyLe(kx, SortKey(field, s[0])) {
        forall j | 0 <= j < |s|
          ensures KeyLe(kx, SortKey(field, s[j]))
        {
          if j > 0 {
            KeyLeTransitive(kx, SortKey(field, s[0]), SortKey(field, s[j]));
          }
        }
      } else {
        KeyLeTotal(kx, SortKey(field, s[0]));
        var t := Insert(field, x, s[1..]);
        InsertSorted(field, x, s[1..]);
        var r := [s[0]] + t;
        assert multiset(t) == multiset(s[1..]) + multiset{x};
        forall j | 0 <= j < |t|
          ensures KeyLe(SortKey(field, s[0]), SortKey(field, t[j]))
        {
          assert t[j] in multiset(t);
          if t[j] != x {
            assert t[j] in s[1..];
            var m :| 0 <= m < |s[1..]| && s[1..][m] == t[j];
            assert s[m + 1] == t[j];
          }
        }
      }
    }
  }

  lemma {:induction false} WithKeyAppend(field: string, k: Key, a: seq<Record>, b: seq<Record>)
    ensures WithKey(field, k, a + b) == WithKey(field, k, a) + WithKey(field, k, b)
    decreases |a|
  {
    if |a| == 0 {
      assert a + b == b;
    } else {
      assert (a + b)[1..] == a[1..] + b;
      WithKeyAppend(field, k, a[1..], b);
    }
  }

  /** Inserting into a sorted sequence places `x` ahead of every record with
      the same key. */
  lemma {:induction false} InsertWithKey(field: string, k: Key, x: Record, s: seq<Record>)
    requires Sorted(field, s)
    ensures WithKey(field, k, Insert(field, x, s))
         == if SortKey(field, x) == k then [x] + WithKey(field, k, s) else WithKey(field, k, s)
    decreases |s|
  {
    if |s| == 0 {
      assert WithKey(field, k, [x]) == if SortKey(field, x) == k then [x] else [];
    } else if KeyLe(SortKey(field, x), SortKey(field, s[0])) {
      WithKeyAppend(field, k, [x], s);
    } else {
      InsertWithKey(field, k, x, s[1..]);
      KeyLeTotal(SortKey(field, x), SortKey(field, s[0]));
      var t := Insert(field, x, s[1..]);
      assert ([s[0]] + t)[1..] == t;
    }
  }

  /** Python's `sorted`: a stable insertion sort. */
  function InsertionSort(field: string, s: seq<Record>): (r: seq<Record>)
    ensures multiset(r) == multiset(s)
    ensures Sorted(field, r)
    ensures StableWith(field, r, s)
    decreases |s|
  {
    if |s| == 0 then
      []
    else
      assert s == [s[0]] + s[1..];
      var t := InsertionSort(field, s[1..]);
      InsertSorted(field, s[0], t);
      forall k ensures WithKey(field, k, Insert(field, s[0], t)) == WithKey(field, k, s) {
        InsertWithKey(field, k, s[0], t);
      }
      Insert(field, s[0], t)
  }

  lemma {:induction false} WithKeyMembers(field: string, k: Key, s: seq<Record>)
    ensures forall y :: y in WithKey(field, k, s) <==> y in s && SortKey(field, y) == k
    decreases |s|
  {
    if |s| > 0 {
      WithKeyMembers(field, k, s[1..]);
      assert s == [s[0]] + s[1..];
    }
  }

  /** Agreeing on every key group, two sequences are both empty or both not. */
  lemma StableKeepsEmptiness(field: string, a: seq<Record>, b: seq<Record>)
    requires StableWith(field, a, b)
    ensures |a| == 0 <==> |b| == 0
  {
    if |a| > 0 {
      var k := SortKey(field, a[0]);
      assert WithKey(field, k, a) != [];
      assert WithKey(field, k, b) != [];
    }
    if |b| > 0 {
      var k := SortKey(field, b[0]);
      assert WithKey(field, k, b) != [];
      assert WithKey(field, k, a) != [];
    }
  }

  /** Two sorted sequences that agree on every group of equal keys are equal:
      sortedness and stability leave no freedom in the result. */
  lemma {:induction false} SortedStableUnique(field: string, a: seq<Record>, b: seq<Record>)
    requires Sorted(field, a) && Sorted(field, b)
    requires StableWith(field, a, b)
    ensures a == b
    decreases |a| + |b|
  {
    StableKeepsEmptiness(field, a, b);
    if |a| > 0 {
      var ka := SortKey(field, a[0]);
      var kb := SortKey(field, b[0]);
      HeadKeyIsLeast(field, a, b);
      HeadKeyIsLeast(field, b, a);
      KeyLeAntisymmetric(ka, kb);
      assert WithKey(field, ka, a) == [a[0]] + WithKey(field, ka, a[1..]);
      assert WithKey(field, ka, b) == [b[0]] + WithKey(field, ka, b[1..]);
      assert WithKey(field, ka, a) == WithKey(field, ka, b);
      assert WithKey(field, ka, a)[0] == a[0];
      assert WithKey(field, ka, b)[0] == b[0];
      forall k
        ensures WithKey(field, k, a[1..]) == WithKey(field, k, b[1..])
      {
        assert WithKey(field, k, a) == WithKey(field, k, b);
        if k == ka {
          assert ([a[0]] + WithKey(field, ka, a[1..]))[1..] == WithKey(field, ka, a[1..]);
          assert ([b[0]] + WithKey(field, ka, b[1..]))[1..] == WithKey(field, ka, b[1..]);
        }
      }
      SortedStableUnique(field, a[1..], b[1..]);
      assert a == [a[0]] + a[1..];
      assert b == [b[0]] + b[1..];
    }
  }

  /** In a sorted `b` that agrees with `a` on every key group, no key is below
      the key of `b`'s head, in particular not the key of `a`'s head. */
  lemma HeadKeyIsLeast(field: string, a: seq<Record>, b: seq<Record>)
    requires |a| > 0 && |b| > 0
    requires Sorted(field, b)
    requires StableWith(field, a, b)
    ensures KeyLe(SortKey(field, b[0]), SortKey(field, a[0]))
  {
    var ka := SortKey(field, a[0]);
    assert WithKey(field, ka, a) == [a[0]] + WithKey(field, ka, a[1..]);
    WithKeyMembers(field, ka, b);
    var y := WithKey(field, ka, b)[0];
    assert y in WithKey(field, ka, b);
    var m :| 0 <= m < |b| && b[m] == y;
    if m > 0 {
      assert KeyLe(SortKey(field, b[0]), SortKey(field, b[m]));
    } else {
      KeyLeTotal(ka, ka);
    }
  }

  /** `sort_data(data, by="price")`: the input's records rearranged so that the keys
      ascend, with records of equal key in their input order. With `by ==
      "price"` the prices ascend; otherwise the lower-cased field texts ascend
      in code-point order, a missing field counting as the empty text. */
  function SortData(data: seq<Record>, field: string := "price"): (r: seq<Record>)
    ensures multiset(r) == multiset(data)
    ensures field == "price" ==> forall i, j :: 0 <= i < j < |r| ==> r[i].price <= r[j].price
    ensures field != "price" ==>
      forall i, j :: 0 <= i < j < |r| ==> StrLe(Lower(FieldText(field, r[i])), Lower(FieldText(field, r[j])))
    ensures StableWith(field, r, data)
  {
    var r := InsertionSort(field, data);
    assert forall i, j :: 0 <= i < j < |r| ==> KeyLe(SortKey(field, r[i]), SortKey(field, r[j]));
    r
  }

  /** Any sorted, stable rearrangement of `data` is what `SortData` returns;
      in particular Python's own stable sort returns it. */
  lemma SortDataUnique(data: seq<Record>, field: string, r: seq<Record>)
    requires Sorted(field, r) && StableWith(field, r, data)
    ensures r == SortData(data, field)
  {
    SortedStableUnique(field, r, SortData(data, field));
  }

  /** Sorting sorted data changes nothing. */
  lemma SortDataIdempotent(data: seq<Record>, field: string)
    ensures SortData(SortData(data, field), field) == SortData(data, field)
  {
    var t := SortData(data, field);
    SortDataUnique(t, field, t);
  }

  /** Sorting by a field a record does not have keeps the input order. */
  lemma SortByMissingFieldKeepsOrder(data: seq<Record>, field: string)
    requires field !in {"price", "product", "store", "category"}
    ensures SortData(data, field) == data
  {
    assert forall x :: SortKey(field, x) == TextKey("");
    SortDataUnique(data, field, data);
  }

  /** No two records of `s` share a key. */
  ghost predicate DistinctKeys(field: string, s: seq<Record>) {
    forall i, j :: 0 <= i < j < |s| ==> SortKey(field, s[i]) != SortKey(field, s[j])
  }

  lemma {:induction false} WithKeyAbsent(field: string, k: Key, s: seq<Record>)
    requires forall i :: 0 <= i < |s| ==> SortKey(field, s[i]) != k
    ensures WithKey(field, k, s) == []
    decreases |s|
  {
    if |s| > 0 {
      WithKeyAbsent(field, k, s[1..]);
    }
  }

  lemma {:induction false} WithKeyDistinct(field: string, k: Key, s: seq<Record>)
    requires DistinctKeys(field, s)
    ensures |WithKey(field, k, s)| <= 1
    decreases |s|
  {
    if |s| > 0 {
      WithKeyDistinct(field, k, s[1..]);
      if SortKey(field, s[0]) == k {
        assert forall i :: 0 <= i < |s[1..]| ==> SortKey(field, s[1..][i]) != k by {
          forall i | 0 <= i < |s[1..]|
            ensures SortKey(field, s[1..][i]) != k
          {
            assert s[1..][i] == s[i + 1];
          }
        }
        WithKeyAbsent(field, k, s[1..]);
      }
    }
  }

  /** A key group holds each record of that key as often as the whole
      sequence does, and nothing else. */
  lemma {:induction false} WithKeyMultiset(field: string, k: Key, s: seq<Record>)
    ensures forall y :: multiset(WithKey(field, k, s))[y]
                     == if SortKey(field, y) == k then multiset(s)[y] else 0
    decreases |s|
  {
    if |s| > 0 {
      WithKeyMultiset(field, k, s[1..]);
      assert s == [s[0]] + s[1..];
    }
  }

  /** A sequence with the same elements as one of length at most one is
      that sequence. */
  lemma ShortSameMultiset(a: seq<Record>, b: seq<Record>)
    requires |b| <= 1
    requires multiset(a) == multiset(b)
    ensures a == b
  {
    assert |a| == |multiset(a)| && |b| == |multiset(b)|;
    if |a| == 1 {
      assert a[0] in multiset(b);
    }
  }

  /** A rearrangement of data without shared keys agrees with it on every key
      group. */
  lemma WithKeyOfPermutation(field: string, k: Key, data: seq<Record>, r: seq<Record>)
    requires multiset(r) == multiset(data)
    requires DistinctKeys(field, data)
    ensures WithKey(field, k, r) == WithKey(field, k, data)
  {
    var a, b := WithKey(field, k, r), WithKey(field, k, data);
    WithKeyDistinct(field, k, data);
    WithKeyMultiset(field, k, r);
    WithKeyMultiset(field, k, data);
    forall y
      ensures multiset(a)[y] == multiset(b)[y]
    {
      assert multiset(r)[y] == multiset(data)[y];
    }
    assert multiset(a) == multiset(b);
    ShortSameMultiset(a, b);
  }

  /** When no two records share a key, stability is automatic: any sorted
      rearrangement of the records is the result of `SortData`. */
  lemma SortDistinctKeys(data: seq<Record>, field: string, r: seq<Record>)
    requires multiset(r) == multiset(data)
    requires DistinctKeys(field, data)
    requires Sorted(field, r)
    ensures r == SortData(data, field)
  {
    forall k
      ensures WithKey(field, k, r) == WithKey(field, k, data)
    {
      WithKeyOfPermutation(field, k, data, r);
    }
    SortDataUnique(data, field, r);
  }
}
