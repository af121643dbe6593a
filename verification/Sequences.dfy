/** Filtering, summing and stable sorting of sequences: the array idioms
    (`filter`, `reduce`, `sort`) the modelled code is written with. */
module Sequences {

  datatype Option<+T> = None | Some(value: T)

  function Min(a: int, b: int): int { if a < b then a else b }
  function Max(a: int, b: int): int { if a < b then b else a }

  function Filter<T(!new)>(keep: T -> bool, s: seq<T>): (r: seq<T>)
    ensures |r| <= |s|
    ensures forall x :: x in r <==> x in s && keep(x)
  {
    if s == [] then []
    else if keep(s[0]) then [s[0]] + Filter(keep, s[1..])
    else Filter(keep, s[1..])
  }

  function Map<A, B>(f: A -> B, s: seq<A>): (r: seq<B>)
    ensures |r| == |s| && forall i :: 0 <= i < |s| ==> r[i] == f(s[i])
  {
    seq(|s|, i requires 0 <= i < |s| => f(s[i]))
  }

  function Sum<T>(weight: T -> int, s: seq<T>): int {
    if s == [] then 0 else weight(s[0]) + Sum(weight, s[1..])
  }

  ghost predicate NoDup<T>(s: seq<T>) {
    forall i, j :: 0 <= i < j < |s| ==> s[i] != s[j]
  }

  lemma NoDupConcat<T>(a: seq<T>, b: seq<T>)
    requires NoDup(a) && NoDup(b) && forall x :: x in a ==> x !in b
    ensures NoDup(a + b)
  {
    forall i, j | 0 <= i < j < |a + b| ensures (a + b)[i] != (a + b)[j] {
      if i < |a| <= j {
        assert (a + b)[i] in a && (a + b)[j] in b;
      }
    }
  }

  // ----- Filter ---------------------------------------------------------

  lemma FilterAppend<T(!new)>(keep: T -> bool, a: seq<T>, b: seq<T>)
    ensures Filter(keep, a + b) == Filter(keep, a) + Filter(keep, b)
  {
    if a == [] {
      assert a + b == b;
    } else {
      assert (a + b)[1..] == a[1..] + b;
      FilterAppend(keep, a[1..], b);
    }
  }

  lemma FilterNoDup<T(!new)>(keep: T -> bool, s: seq<T>)
    requires NoDup(s)
    ensures NoDup(Filter(keep, s))
  {
    if s != [] {
      FilterNoDup(keep, s[1..]);
      assert s[0] !in s[1..];
    }
  }

  lemma FilterEq<T(!new)>(p: T -> bool, q: T -> bool, s: seq<T>)
    requires forall x :: x in s ==> p(x) == q(x)
    ensures Filter(p, s) == Filter(q, s)
  {
    if s != [] {
      FilterEq(p, q, s[1..]);
    }
  }

  // ----- Sum ------------------------------------------------------------

  lemma SumAppend<T>(weight: T -> int, a: seq<T>, b: seq<T>)
    ensures Sum(weight, a + b) == Sum(weight, a) + Sum(weight, b)
  {
    if a == [] {
      assert a + b == b;
    } else {
      assert (a + b)[1..] == a[1..] + b;
      SumAppend(weight, a[1..], b);
    }
  }

  lemma SumLe<T>(f: T -> int, g: T -> int, s: seq<T>)
    requires forall x :: x in s ==> f(x) <= g(x)
    ensures Sum(f, s) <= Sum(g, s)
  {
    if s != [] {
      SumLe(f, g, s[1..]);
    }
  }

  lemma SumEq<T>(f: T -> int, g: T -> int, s: seq<T>)
    requires forall x :: x in s ==> f(x) == g(x)
    ensures Sum(f, s) == Sum(g, s)
  {
    SumLe(f, g, s);
    SumLe(g, f, s);
  }

  lemma SumNonNegative<T>(f: T -> int, s: seq<T>)
    requires forall x :: x in s ==> f(x) >= 0
    ensures Sum(f, s) >= 0
  {
    if s != [] {
      SumNonNegative(f, s[1..]);
    }
  }

  /** Summing over the kept elements is summing a weight that vanishes elsewhere. */
  lemma SumFilter<T(!new)>(weight: T -> int, keep: T -> bool, gated: T -> int, s: seq<T>)
    requires forall x :: x in s ==> gated(x) == if keep(x) then weight(x) else 0
    ensures Sum(weight, Filter(keep, s)) == Sum(gated, s)
  {
    if s != [] {
      SumFilter(weight, keep, gated, s[1..]);
    }
  }

  lemma SumAdd<T>(f: T -> int, g: T -> int, h: T -> int, s: seq<T>)
    requires forall x :: x in s ==> h(x) == f(x) + g(x)
    ensures Sum(h, s) == Sum(f, s) + Sum(g, s)
  {
    if s != [] {
      SumAdd(f, g, h, s[1..]);
    }
  }

  lemma SumRemove<T>(weight: T -> int, s: seq<T>, i: nat)
    requires i < |s|
    ensures Sum(weight, s) == weight(s[i]) + Sum(weight, s[..i] + s[i + 1..])
  {
    assert Sum(weight, s[i..]) == weight(s[i]) + Sum(weight, s[i + 1..]) by {
      assert s[i..][1..] == s[i + 1..];
    }
    hide Sum;
    assert s == s[..i] + s[i..];
    SumAppend(weight, s[..i], s[i..]);
    SumAppend(weight, s[..i], s[i + 1..]);
  }

  lemma MultisetRemove<T>(s: seq<T>, i: nat)
    requires i < |s|
    ensures multiset(s[..i] + s[i + 1..]) == multiset(s) - multiset{s[i]}
  {
    assert s == s[..i] + [s[i]] + s[i + 1..];
  }

  lemma RestPermutes<T>(a: seq<T>, b: seq<T>, i: nat)
    requires a != [] && i < |b| && b[i] == a[0] && multiset(a) == multiset(b)
    ensures multiset(a[1..]) == multiset(b[..i] + b[i + 1..])
  {
    MultisetRemove(a, 0);
    MultisetRemove(b, i);
    assert a[..0] + a[1..] == a[1..];
  }

  /** A sum does not depend on the order of its terms. */
  lemma SumPermutation<T>(weight: T -> int, a: seq<T>, b: seq<T>)
    requires multiset(a) == multiset(b)
    ensures Sum(weight, a) == Sum(weight, b)
  {
    if a == [] {
      assert |multiset(b)| == 0;
    } else {
      assert Sum(weight, a) == weight(a[0]) + Sum(weight, a[1..]);
      hide Sum;
      var i := FindFirst(a, b);
      RestPermutes(a, b, i);
      SumPermutation(weight, a[1..], b[..i] + b[i + 1..]);
      SumRemove(weight, b, i);
    }
  }

  lemma FindFirst<T>(a: seq<T>, b: seq<T>) returns (i: nat)
    requires a != [] && multiset(a) == multiset(b)
    ensures i < |b| && b[i] == a[0]
  {
    assert a[0] in multiset(a);
    assert a[0] in b;
    i :| 0 <= i < |b| && b[i] == a[0];
  }

  /** Distinct terms drawn from a list sum to no more than the whole list. */
  lemma SumSubset<T>(weight: T -> int, a: seq<T>, b: seq<T>)
    requires NoDup(a) && forall x :: x in a ==> x in b
    requires forall x :: x in b ==> weight(x) >= 0
    ensures Sum(weight, a) <= Sum(weight, b)
  {
    if a == [] {
      SumNonNegative(weight, b);
    } else {
      assert a[0] in b;
      var i :| 0 <= i < |b| && b[i] == a[0];
      var rest := b[..i] + b[i + 1..];
      forall x | x in a[1..] ensures x in rest {
        KeptByRemoval(b, i, x);
      }
      SumSubset(weight, a[1..], rest);
      SumRemove(weight, b, i);
    }
  }

  lemma KeptByRemoval<T>(b: seq<T>, i: nat, x: T)
    requires i < |b| && x in b && x != b[i]
    ensures x in b[..i] + b[i + 1..]
  {
    var j :| 0 <= j < |b| && b[j] == x;
    assert x == if j < i then b[..i][j] else b[i + 1..][j - i - 1];
  }

  /** A weight that vanishes away from `x` sums to its value there. */
  lemma SumSingle<T>(weight: T -> int, s: seq<T>, x: T)
    requires NoDup(s) && x in s
    requires forall y :: y in s && y != x ==> weight(y) == 0
    ensures Sum(weight, s) == weight(x)
  {
    if s[0] == x {
      SumZero(weight, s[1..]);
    } else {
      SumSingle(weight, s[1..], x);
    }
  }

  lemma SumZero<T>(weight: T -> int, s: seq<T>)
    requires forall y :: y in s ==> weight(y) == 0
    ensures Sum(weight, s) == 0
  {
    if s != [] {
      SumZero(weight, s[1..]);
    }
  }

  // ----- Stable descending sort ----------------------------------------

  /** Array.prototype.sort with the comparator `(a, b) => key(b) - key(a)`:
      descending by key, equal keys left in their original order. */
  function SortDesc<T>(key: T -> int, s: seq<T>): (r: seq<T>)
    ensures |r| == |s|
  {
    if s == [] then [] else InsertDesc(key, s[0], SortDesc(key, s[1..]))
  }

  function InsertDesc<T>(key: T -> int, x: T, s: seq<T>): (r: seq<T>)
    ensures |r| == |s| + 1
  {
    if s == [] || key(x) >= key(s[0]) then [x] + s
    else [s[0]] + InsertDesc(key, x, s[1..])
  }

  ghost predicate Descending<T>(key: T -> int, s: seq<T>) {
    forall i, j :: 0 <= i <= j < |s| ==> key(s[i]) >= key(s[j])
  }

  lemma InsertDescPermutes<T>(key: T -> int, x: T, s: seq<T>)
    ensures multiset(InsertDesc(key, x, s)) == multiset{x} + multiset(s)
  {
    if s == [] || key(x) >= key(s[0]) {
    } else {
      InsertDescPermutes(key, x, s[1..]);
      assert s == [s[0]] + s[1..];
    }
  }

  lemma InsertDescending<T>(key: T -> int, x: T, s: seq<T>)
    requires Descending(key, s)
    ensures Descending(key, InsertDesc(key, x, s))
    ensures InsertDesc(key, x, s)[0] == x || (s != [] && InsertDesc(key, x, s)[0] == s[0])
  {
    if s == [] || key(x) >= key(s[0]) {
    } else {
      InsertDescending(key, x, s[1..]);
      DescendingCons(key, s[0], InsertDesc(key, x, s[1..]));
    }
  }

  lemma DescendingCons<T>(key: T -> int, x: T, s: seq<T>)
    requires Descending(key, s) && (s != [] ==> key(x) >= key(s[0]))
    ensures Descending(key, [x] + s)
  {
  }

  lemma SortDescIs<T(!new)>(key: T -> int, s: seq<T>)
    ensures Descending(key, SortDesc(key, s))
    ensures multiset(SortDesc(key, s)) == multiset(s)
    ensures forall x :: x in SortDesc(key, s) <==> x in s
  {
    if s != [] {
      SortDescIs(key, s[1..]);
      InsertDescending(key, s[0], SortDesc(key, s[1..]));
      InsertDescPermutes(key, s[0], SortDesc(key, s[1..]));
      assert s == [s[0]] + s[1..];
    }
    forall x ensures x in SortDesc(key, s) <==> x in s {
      assert x in SortDesc(key, s) <==> x in multiset(SortDesc(key, s));
    }
  }

  lemma InsertDescStable<T(!new)>(key: T -> int, x: T, s: seq<T>, at: T -> bool, k: int)
    requires Descending(key, s)
    requires forall y :: at(y) <==> key(y) == k
    ensures Filter(at, InsertDesc(key, x, s)) == Filter(at, [x] + s)
  {
    if s == [] || key(x) >= key(s[0]) {
    } else {
      InsertDescStable(key, x, s[1..], at, k);
      assert ([x] + s)[1..] == s && ([x] + s[1..])[1..] == s[1..];
      var t := InsertDesc(key, x, s[1..]);
      assert ([s[0]] + t)[1..] == t;
    }
  }

  /** Stability: the elements of any one key come out in the order they went in. */
  lemma SortDescStable<T(!new)>(key: T -> int, s: seq<T>, at: T -> bool, k: int)
    requires forall y :: at(y) <==> key(y) == k
    ensures Filter(at, SortDesc(key, s)) == Filter(at, s)
  {
    if s != [] {
      SortDescStable(key, s[1..], at, k);
      SortDescIs(key, s[1..]);
      InsertDescStable(key, s[0], SortDesc(key, s[1..]), at, k);
      assert ([s[0]] + SortDesc(key, s[1..]))[1..] == SortDesc(key, s[1..]);
    }
  }

  /** The head of a stable descending sort is the first of the greatest elements. */
  lemma SortFirst<T(!new)>(key: T -> int, s: seq<T>)
    requires s != [] && NoDup(s)
    ensures var g := SortDesc(key, s)[0];
            exists i :: 0 <= i < |s| && s[i] == g
              && (forall j :: 0 <= j < |s| ==> key(s[j]) <= key(g))
              && (forall j :: 0 <= j < i ==> key(s[j]) < key(g))
  {
    var r := SortDesc(key, s);
    var k := key(r[0]);
    var at := x => key(x) == k;
    SortDescIs(key, s);
    SortDescStable(key, s, at, k);
    assert Filter(at, r)[0] == r[0];
    var i := FilterFirst(at, s);
    forall j | 0 <= j < |s| ensures key(s[j]) <= k {
      assert s[j] in r;
    }
  }

  lemma FilterFirst<T(!new)>(keep: T -> bool, s: seq<T>) returns (i: nat)
    requires Filter(keep, s) != []
    ensures i < |s| && s[i] == Filter(keep, s)[0]
    ensures forall j :: 0 <= j < i ==> !keep(s[j])
  {
    if keep(s[0]) {
      i := 0;
    } else {
      var n := FilterFirst(keep, s[1..]);
      i := n + 1;
    }
  }

  lemma NoDupPermutation<T>(a: seq<T>, b: seq<T>)
    requires multiset(a) == multiset(b) && NoDup(a)
    ensures NoDup(b)
  {
    forall i, j | 0 <= i < j < |b| ensures b[i] != b[j] {
      if b[i] == b[j] {
        TwiceCount(b, i, j);
        NoDupCount(a, b[i]);
      }
    }
  }

  lemma TwiceCount<T>(b: seq<T>, i: nat, j: nat)
    requires i < j < |b| && b[i] == b[j]
    ensures multiset(b)[b[i]] >= 2
  {
    assert b == b[..i] + [b[i]] + b[i + 1..j] + [b[j]] + b[j + 1..];
  }

  lemma NoDupCount<T>(a: seq<T>, x: T)
    requires NoDup(a)
    ensures multiset(a)[x] <= 1
  {
    if a != [] {
      assert a == [a[0]] + a[1..];
      NoDupCount(a[1..], x);
      if x == a[0] { assert x !in a[1..]; }
    }
  }

  // ----- Taking the best few -----------------------------------------------------------

  lemma SumSnoc<T>(weight: T -> int, s: seq<T>)
    requires s != []
    ensures Sum(weight, s) == Sum(weight, s[..|s| - 1]) + weight(s[|s| - 1])
  {
    assert s == s[..|s| - 1] + [s[|s| - 1]];
    SumAppend(weight, s[..|s| - 1], [s[|s| - 1]]);
  }

  lemma SumPrefixSnoc<T>(weight: T -> int, s: seq<T>, k: nat)
    requires k < |s|
    ensures Sum(weight, s[..k + 1]) == Sum(weight, s[..k]) + weight(s[k])
  {
    assert s[..k + 1][..k] == s[..k];
    SumSnoc(weight, s[..k + 1]);
  }

  lemma FilterSnoc<T(!new)>(keep: T -> bool, s: seq<T>)
    requires s != []
    ensures |Filter(keep, s)| == |Filter(keep, s[..|s| - 1])| + if keep(s[|s| - 1]) then 1 else 0
  {
    var front, last := s[..|s| - 1], s[|s| - 1];
    FilterOne(keep, last);
    FilterAppend(keep, front, [last]);
    hide Filter;
    assert s == front + [last];
  }

  lemma FilterOne<T(!new)>(keep: T -> bool, x: T)
    ensures |Filter(keep, [x])| == if keep(x) then 1 else 0
  {
    assert [x][1..] == [];
  }

  /** Of a list in descending order, no choice of k elements outweighs the first k. */
  lemma {:induction false} PrefixBeatsPick<T(!new)>(weight: T -> int, keep: T -> bool, kept: T -> int, s: seq<T>)
    requires Descending(weight, s)
    requires forall x :: kept(x) == if keep(x) then weight(x) else 0
    ensures Sum(kept, s) <= Sum(weight, s[..|Filter(keep, s)|])
    decreases |s|
  {
    hide Filter, Sum;
    if s == [] {
      NoneKept(weight, keep, kept);
    } else {
      var n := |s| - 1;
      var before := s[..n];
      PrefixBeatsPick(weight, keep, kept, before);
      SumSnoc(kept, s);
      FilterSnoc(keep, s);
      var k := |Filter(keep, before)|;
      assert before[..k] == s[..k];
      if keep(s[n]) {
        SumPrefixSnoc(weight, s, k);
        assert weight(s[k]) >= weight(s[n]);
      }
    }
  }

  lemma NoneKept<T(!new)>(weight: T -> int, keep: T -> bool, kept: T -> int)
    ensures Filter<T>(keep, []) == [] && Sum<T>(kept, []) == 0 == Sum<T>(weight, [])
  {
  }

  lemma PrefixGrows<T>(weight: T -> int, s: seq<T>, k: nat, n: nat)
    requires k <= n <= |s| && forall i :: 0 <= i < |s| ==> weight(s[i]) >= 0
    ensures Sum(weight, s[..k]) <= Sum(weight, s[..n])
  {
    if k < n {
      SumPrefixSnoc(weight, s, n - 1);
      PrefixGrows(weight, s, k, n - 1);
    }
  }

  lemma PickBounded<T(!new)>(pick: set<T>, keep: T -> bool, s: seq<T>)
    requires NoDup(s) && forall x :: keep(x) ==> x in pick
    ensures |Filter(keep, s)| <= |pick|
  {
    if s != [] {
      var x, rest := s[0], s[1..];
      if keep(x) {
        var others := y => keep(y) && y != x;
        PickBounded(pick - {x}, others, rest);
        FilterEq(keep, others, rest);
      } else {
        PickBounded(pick, keep, rest);
      }
    }
  }
}
