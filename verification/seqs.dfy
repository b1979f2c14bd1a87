/** Order-preserving selection from a sequence: the category filter's list
    comprehension with an `if` clause, and the loader's append loop that keeps
    only the rows that normalise. */
module Seqs {
  import opened Wrappers

  /** `a` is obtained from `b` by deleting elements, keeping the rest in order. */
  ghost predicate SubsequenceOf<T>(a: seq<T>, b: seq<T>)
    decreases |b|
  {
    if |a| == 0 then true
    else if |b| == 0 then false
    else (a[0] == b[0] && SubsequenceOf(a[1..], b[1..])) || SubsequenceOf(a, b[1..])
  }

  /** `[x for x in s if p(x)]`. The result keeps, in order, exactly the
      elements that satisfy `p`, each as often as it occurs in `s`. */
  function Filter<T(!new)>(p: T -> bool, s: seq<T>): (r: seq<T>)
    ensures forall i :: 0 <= i < |r| ==> p(r[i])
    ensures forall x :: multiset(r)[x] == if p(x) then multiset(s)[x] else 0
    ensures SubsequenceOf(r, s)
    decreases |s|
  {
    if |s| == 0 then
      []
    else
      assert s == [s[0]] + s[1..];
      var rest := Filter(p, s[1..]);
      if p(s[0]) then
        assert ([s[0]] + rest)[1..] == rest;
        [s[0]] + rest
      else
        rest
  }

  /** Selection distributes over concatenation: what is kept from the front
      of a sequence comes before what is kept from its back. */
  lemma {:induction false} FilterAppend<T(!new)>(p: T -> bool, a: seq<T>, b: seq<T>)
    ensures Filter(p, a + b) == Filter(p, a) + Filter(p, b)
    decreases |a|
  {
    if |a| > 0 {
      assert (a + b)[0] == a[0];
      assert (a + b)[1..] == a[1..] + b;
      FilterAppend(p, a[1..], b);
    } else {
      assert a + b == b;
    }
  }

  lemma {:induction false} FilterNone<T(!new)>(p: T -> bool, s: seq<T>)
    requires forall i :: 0 <= i < |s| ==> !p(s[i])
    ensures Filter(p, s) == []
    decreases |s|
  {
    if |s| > 0 {
      FilterNone(p, s[1..]);
    }
  }

  lemma {:induction false} FilterAll<T(!new)>(p: T -> bool, s: seq<T>)
    requires forall i :: 0 <= i < |s| ==> p(s[i])
    ensures Filter(p, s) == s
    decreases |s|
  {
    if |s| > 0 {
      FilterAll(p, s[1..]);
      assert s == [s[0]] + s[1..];
    }
  }

  /** Filtering a sequence whose middle part alone qualifies yields that part. */
  lemma FilterKeepsMiddle<T(!new)>(p: T -> bool, front: seq<T>, middle: seq<T>, back: seq<T>)
    requires forall i :: 0 <= i < |front| ==> !p(front[i])
    requires forall i :: 0 <= i < |middle| ==> p(middle[i])
    requires forall i :: 0 <= i < |back| ==> !p(back[i])
    ensures Filter(p, front + middle + back) == middle
  {
    FilterAppend(p, front + middle, back);
    FilterAppend(p, front, middle);
    FilterNone(p, front);
    FilterAll(p, middle);
    FilterNone(p, back);
  }

  /** The shape of the loader's append loop, stated as a value: the present
      results of `f`, in the order of their arguments. */
  function Collect<A, B>(f: A -> Option<B>, s: seq<A>): (r: seq<B>)
    ensures |r| <= |s|
    ensures forall y :: y in r ==> exists i :: 0 <= i < |s| && f(s[i]) == Some(y)
    ensures forall i :: 0 <= i < |s| && f(s[i]).Some? ==> f(s[i]).value in r
    decreases |s|
  {
    if |s| == 0 then
      []
    else
      var rest := Collect(f, s[1..]);
      var r := match f(s[0])
        case None => rest
        case Some(y) => [y] + rest;
      assert forall y :: y in r ==> exists i :: 0 <= i < |s| && f(s[i]) == Some(y) by {
        forall y | y in r
          ensures exists i :: 0 <= i < |s| && f(s[i]) == Some(y)
        {
          if f(s[0]) != Some(y) {
            var k :| 0 <= k < |s[1..]| && f(s[1..][k]) == Some(y);
            assert s[1..][k] == s[k + 1];
          }
        }
      }
      assert forall i :: 0 <= i < |s| && f(s[i]).Some? ==> f(s[i]).value in r by {
        forall i | 0 <= i < |s| && f(s[i]).Some?
          ensures f(s[i]).value in r
        {
          if i > 0 {
            assert s[i] == s[1..][i - 1];
          }
        }
      }
      r
  }

  /** Collecting distributes over concatenation: nothing is reordered. */
  lemma {:induction false} CollectAppend<A, B>(f: A -> Option<B>, a: seq<A>, b: seq<A>)
    ensures Collect(f, a + b) == Collect(f, a) + Collect(f, b)
    decreases |a|
  {
    if |a| == 0 {
      assert a + b == b;
    } else {
      assert (a + b)[0] == a[0];
      assert (a + b)[1..] == a[1..] + b;
      CollectAppend(f, a[1..], b);
    }
  }

  /** The loader's append loop itself: one pass, appending each present
      result. */
  method CollectLoop<A, B>(f: A -> Option<B>, s: seq<A>) returns (r: seq<B>)
    ensures r == Collect(f, s)
  {
    r := [];
    var k := 0;
    while k < |s|
      invariant 0 <= k <= |s|
      invariant r == Collect(f, s[..k])
    {
      assert s[..k + 1] == s[..k] + [s[k]];
      CollectAppend(f, s[..k], [s[k]]);
      assert [s[k]][1..] == [];
      var y := f(s[k]);
      if y.Some? {
        r := r + [y.value];
      }
      k := k + 1;
    }
    assert s[..k] == s;
  }
}
