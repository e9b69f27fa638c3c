// percentile of src/python/xrdp_vnc_bench.py: the nearest-rank percentile, over
// real numbers.

module Percentile {
  import opened Wrappers

  // ----- sorted -----

  function Insert(v: real, s: seq<real>): seq<real> {
    if s == [] || v <= s[0] then [v] + s else [s[0]] + Insert(v, s[1..])
  }

  function Sorted(s: seq<real>): (r: seq<real>)
    ensures |r| == |s|
  {
    if s == [] then [] else InsertSize(s[0], Sorted(s[1..])); Insert(s[0], Sorted(s[1..]))
  }

  predicate Ordered(s: seq<real>) {
    forall i, j :: 0 <= i < j < |s| ==> s[i] <= s[j]
  }

  lemma InsertSize(v: real, s: seq<real>)
    ensures |Insert(v, s)| == |s| + 1
  {
  }

  lemma {:induction false} InsertAdds(v: real, s: seq<real>)
    ensures multiset(Insert(v, s)) == multiset{v} + multiset(s)
  {
    if s != [] && v > s[0] {
      InsertAdds(v, s[1..]);
      assert s == [s[0]] + s[1..];
    }
  }

  lemma {:induction false} InsertOrders(v: real, s: seq<real>)
    requires Ordered(s)
    ensures Ordered(Insert(v, s))
    ensures Insert(v, s) != [] && (Insert(v, s)[0] == v || (s != [] && Insert(v, s)[0] == s[0]))
  {
    if s != [] && v > s[0] {
      var r := Insert(v, s[1..]);
      InsertOrders(v, s[1..]);
      InsertSize(v, s[1..]);
      assert s[0] <= r[0];
    }
  }

  lemma {:induction false} SortedOrders(s: seq<real>)
    ensures Ordered(Sorted(s)) && multiset(Sorted(s)) == multiset(s)
  {
    if s != [] {
      SortedOrders(s[1..]);
      InsertOrders(s[0], Sorted(s[1..]));
      InsertAdds(s[0], Sorted(s[1..]));
      assert s == [s[0]] + s[1..];
    }
  }

  // Two ordered sequences of the same values are the same sequence.
  lemma {:induction false} OrderIsUnique(a: seq<real>, b: seq<real>)
    requires Ordered(a) && Ordered(b) && multiset(a) == multiset(b)
    ensures a == b
  {
    SameSize(a, b);
    if a != [] {
      HeadsAgree(a, b);
      Tail(a);
      Tail(b);
      OrderIsUnique(a[1..], b[1..]);
    }
  }

  lemma HeadsAgree(a: seq<real>, b: seq<real>)
    requires Ordered(a) && Ordered(b) && multiset(a) == multiset(b) && a != [] && b != []
    ensures a[0] == b[0]
  {
    SameMembers(a, b, a[0]);
    SameMembers(b, a, b[0]);
    FirstIsLeast(a, b[0]);
    FirstIsLeast(b, a[0]);
  }

  lemma Tail(s: seq<real>)
    requires s != []
    ensures multiset(s[1..]) == multiset(s) - multiset{s[0]} && s == [s[0]] + s[1..]
  {
    assert s == [s[0]] + s[1..];
  }

  lemma SameMembers(a: seq<real>, b: seq<real>, v: real)
    requires multiset(a) == multiset(b) && v in a
    ensures v in b
  {
    assert v in multiset(a);
  }

  lemma FirstIsLeast(s: seq<real>, v: real)
    requires Ordered(s) && v in s
    ensures s[0] <= v
  {
  }

  lemma SameSize(a: seq<real>, b: seq<real>)
    requires multiset(a) == multiset(b)
    ensures |a| == |b|
  {
    assert |multiset(a)| == |a| && |multiset(b)| == |b|;
  }

  // ----- nearest rank -----

  function Ceil(x: real): int { -((-x).Floor) }

  // The index taken: max(1, ceil(x)) - 1, but at most n - 1.
  function RankIndex(n: nat, x: real): (i: nat)
    requires n > 0
    ensures i < n
  {
    var rank := if Ceil(x) > 1 then Ceil(x) else 1;
    if n - 1 < rank - 1 then n - 1 else rank - 1
  }

  // n * f, by recursion, so that the proofs stay linear.
  function Times(n: nat, f: real): real {
    if n == 0 then 0.0 else Times(n - 1, f) + f
  }

  lemma {:induction false} TimesIsProduct(n: nat, f: real)
    ensures Times(n, f) == n as real * f
  {
    if n > 0 {
      TimesIsProduct(n - 1, f);
      OneMore((n - 1) as real, f);
      assert n as real == (n - 1) as real + 1.0;
    }
  }

  lemma OneMore(k: real, f: real)
    ensures (k + 1.0) * f == k * f + f
  {
  }

  lemma {:induction false} TimesGrows(n: nat, f: real, g: real)
    requires f <= g
    ensures Times(n, f) <= Times(n, g) && (n > 0 && f > 0.0 ==> Times(n, f) > 0.0) && Times(n, 1.0) == n as real
  {
    if n > 0 { TimesGrows(n - 1, f, g); }
  }

  // None is the ValueError of an empty list.
  function Percentile(values: seq<real>, fraction: real): Option<real> {
    if values == [] then None
    else Some(Sorted(values)[RankIndex(|values|, Times(|values|, fraction))])
  }

  function AtMost(values: seq<real>, v: real): nat {
    if values == [] then 0 else (if values[0] <= v then 1 else 0) + AtMost(values[1..], v)
  }

  lemma {:induction false} InsertKeepsCount(x: real, s: seq<real>, v: real)
    ensures AtMost(Insert(x, s), v) == (if x <= v then 1 else 0) + AtMost(s, v)
  {
    if s != [] && x > s[0] {
      InsertKeepsCount(x, s[1..], v);
      assert ([s[0]] + Insert(x, s[1..]))[1..] == Insert(x, s[1..]);
    } else {
      assert ([x] + s)[1..] == s;
    }
  }

  lemma {:induction false} SortedKeepsCount(s: seq<real>, v: real)
    ensures AtMost(Sorted(s), v) == AtMost(s, v)
  {
    if s != [] {
      SortedKeepsCount(s[1..], v);
      InsertKeepsCount(s[0], Sorted(s[1..]), v);
    }
  }

  // In an ordered sequence the values at or below v come first.
  lemma {:induction false} OrderedCount(s: seq<real>, v: real, i: nat)
    requires Ordered(s) && i < |s|
    ensures s[i] <= v <==> AtMost(s, v) >= i + 1
  {
    if i > 0 {
      OrderedCount(s[1..], v, i - 1);
    } else if s[0] > v {
      NoneAtMost(s, v);
    }
  }

  lemma {:induction false} NoneAtMost(s: seq<real>, v: real)
    requires forall i :: 0 <= i < |s| ==> s[i] > v
    ensures AtMost(s, v) == 0
  {
    if s != [] { NoneAtMost(s[1..], v); }
  }

  lemma CeilIsLeast(x: real, k: int)
    ensures Ceil(x) <= k <==> x <= k as real
  {
  }

  lemma RankAt(values: seq<real>, x: real, w: real)
    requires values != [] && 0.0 < x <= |values| as real
    ensures var v := Sorted(values)[RankIndex(|values|, x)];
            && v in values
            && AtMost(values, v) as real >= x
            && (AtMost(values, w) as real >= x ==> v <= w)
  {
    var s := Sorted(values);
    SortedOrders(values);
    CeilIsLeast(x, |values|);
    CeilIsLeast(x, 0);
    var i := RankIndex(|values|, x);
    assert i == Ceil(x) - 1;
    assert s[i] in multiset(values);
    OrderedCount(s, s[i], i);
    SortedKeepsCount(values, s[i]);
    CeilIsLeast(x, AtMost(values, s[i]));
    OrderedCount(s, w, i);
    SortedKeepsCount(values, w);
    CeilIsLeast(x, AtMost(values, w));
  }

  // The nearest rank: a value of the list with at least n * f values at or below
  // it, and the least such value.
  lemma NearestRank(values: seq<real>, f: real, w: real)
    requires values != [] && 0.0 < f <= 1.0
    ensures var v := Percentile(values, f).value;
            && v in values
            && AtMost(values, v) as real >= Times(|values|, f)
            && (AtMost(values, w) as real >= Times(|values|, f) ==> v <= w)
  {
    TimesGrows(|values|, f, 1.0);
    RankAt(values, Times(|values|, f), w);
  }

  // Only the collection of values matters, not their order.
  lemma OrderDoesNotMatter(a: seq<real>, b: seq<real>, f: real)
    requires multiset(a) == multiset(b)
    ensures Percentile(a, f) == Percentile(b, f)
  {
    SortedOrders(a);
    SortedOrders(b);
    OrderIsUnique(Sorted(a), Sorted(b));
    SameSize(a, b);
  }

  lemma RankGrows(n: nat, x: real, y: real)
    requires n > 0 && x <= y
    ensures RankIndex(n, x) <= RankIndex(n, y)
  {
    CeilIsLeast(x, Ceil(y));
    CeilIsLeast(y, Ceil(y));
  }

  // A larger fraction never gives a smaller value; any fraction will do.
  lemma MonotoneInFraction(values: seq<real>, f: real, g: real)
    requires values != [] && f <= g
    ensures Percentile(values, f).value <= Percentile(values, g).value
  {
    SortedOrders(values);
    TimesGrows(|values|, f, g);
    RankGrows(|values|, Times(|values|, f), Times(|values|, g));
  }
}
