/** Counting, grouping and splitting over a dataset seen through a column of
    keys: `col[i]` is what the split or the measure reads of record `xs[i]`. */
module Stats {

  /** The number of positions whose key is `k`. */
  function Count<K(==)>(col: seq<K>, k: K): (n: nat)
    ensures n <= |col|
    ensures n == 0 <==> k !in col
    ensures n == |col| <==> forall i :: 0 <= i < |col| ==> col[i] == k
  {
    if |col| == 0 then 0
    else (if col[0] == k then 1 else 0) + Count(col[1..], k)
  }

  /** The fraction of positions whose key is `k`: `len([...]) / len(S)`. */
  function Share<K(==)>(col: seq<K>, k: K): (p: real)
    requires |col| > 0
    ensures 0.0 <= p <= 1.0
    ensures p == 0.0 <==> k !in col
    ensures p == 1.0 <==> forall i :: 0 <= i < |col| ==> col[i] == k
  {
    var n, d := Count(col, k) as real, |col| as real;
    DivBounds(n, d);
    n / d
  }

  lemma DivBounds(n: real, d: real)
    requires 0.0 <= n <= d && d > 0.0
    ensures 0.0 <= n / d <= 1.0
  {
  }

  lemma AddFractions(a: real, b: real, d: real)
    requires d > 0.0
    ensures a / d + b / d == (a + b) / d
  {
  }

  predicate NoDup<K(==)>(s: seq<K>)
  {
    forall i, j :: 0 <= i < j < |s| ==> s[i] != s[j]
  }

  /** The distinct keys of `col`, each once, in order of first occurrence.
      This fixes the iteration order of the `set(...)` the learner loops over. */
  function Distinct<K(==)>(col: seq<K>): (r: seq<K>)
    ensures forall j :: 0 <= j < |r| ==> r[j] in col
    ensures forall i :: 0 <= i < |col| ==> col[i] in r
    ensures NoDup(r)
  {
    if |col| == 0 then []
    else
      var d := Distinct(col[..|col| - 1]);
      assert col == col[..|col| - 1] + [col[|col| - 1]];
      if col[|col| - 1] in d then d else d + [col[|col| - 1]]
  }

  /** `[x for x in xs if key(x) == k]`, where `col` lists the keys of `xs`. */
  function Where<T, K(==)>(xs: seq<T>, col: seq<K>, k: K): (r: seq<T>)
    requires |xs| == |col|
    ensures |r| == Count(col, k)
    ensures forall j :: 0 <= j < |r| ==> r[j] in xs
    ensures forall j :: 0 <= j < |r| ==> exists i :: 0 <= i < |xs| && col[i] == k && xs[i] == r[j]
    ensures |xs| == 1 ==> r == (if col[0] == k then xs else [])
  {
    if |xs| == 0 then []
    else
      var rest := Where(xs[1..], col[1..], k);
      assert forall i :: 1 <= i < |xs| ==> xs[i] == xs[1..][i - 1] && col[i] == col[1..][i - 1];
      WhereConsOrigin(xs, col, k, rest);
      (if col[0] == k then [xs[0]] else []) + rest
  }

  /** Selection keeps the rows in their order: selecting from a
      concatenation concatenates the selections. With the one-row case of
      `Where`'s contract, the selection is the in-order subsequence of the
      rows whose key is `k`. */
  lemma {:induction false} WhereAppend<T, K>(xs: seq<T>, ys: seq<T>, cx: seq<K>, cy: seq<K>, k: K)
    requires |xs| == |cx| && |ys| == |cy|
    ensures Where(xs + ys, cx + cy, k) == Where(xs, cx, k) + Where(ys, cy, k)
  {
    if |xs| == 0 {
      assert xs + ys == ys && cx + cy == cy;
    } else {
      assert (xs + ys)[0] == xs[0] && (xs + ys)[1..] == xs[1..] + ys;
      assert (cx + cy)[0] == cx[0] && (cx + cy)[1..] == cx[1..] + cy;
      WhereAppend(xs[1..], ys, cx[1..], cy, k);
    }
  }

  /** Every row whose key is `k` is selected. */
  lemma {:induction false} WhereKeeps<T, K>(xs: seq<T>, col: seq<K>, k: K, i: nat)
    requires |xs| == |col| && i < |xs| && col[i] == k
    ensures xs[i] in Where(xs, col, k)
  {
    if i > 0 {
      WhereKeeps(xs[1..], col[1..], k, i - 1);
    }
  }

  lemma WhereConsOrigin<T, K>(xs: seq<T>, col: seq<K>, k: K, rest: seq<T>)
    requires |xs| == |col| > 0
    requires forall j :: 0 <= j < |rest| ==> exists i :: 0 <= i < |xs[1..]| && col[1..][i] == k && xs[1..][i] == rest[j]
    ensures var r := (if col[0] == k then [xs[0]] else []) + rest;
      forall j :: 0 <= j < |r| ==> exists i :: 0 <= i < |xs| && col[i] == k && xs[i] == r[j]
  {
    var head := if col[0] == k then [xs[0]] else [];
    var r := head + rest;
    forall j | 0 <= j < |r| ensures exists i :: 0 <= i < |xs| && col[i] == k && xs[i] == r[j] {
      if j < |head| {
        assert col[0] == k && xs[0] == r[j];
      } else {
        var i :| 0 <= i < |xs[1..]| && col[1..][i] == k && xs[1..][i] == rest[j - |head|];
        assert col[i + 1] == k && xs[i + 1] == r[j];
      }
    }
  }

  /** The multiset union of the groups `Where(xs, col, k)` for `k` in `vs`. */
  function Union<T, K(==)>(xs: seq<T>, col: seq<K>, vs: seq<K>): multiset<T>
    requires |xs| == |col|
  {
    if |vs| == 0 then multiset{}
    else multiset(Where(xs, col, vs[0])) + Union(xs, col, vs[1..])
  }

  /** The sum of the shares of the keys in `vs`. */
  function SumShares<K(==)>(col: seq<K>, vs: seq<K>): real
    requires |col| > 0
  {
    if |vs| == 0 then 0.0 else Share(col, vs[0]) + SumShares(col, vs[1..])
  }

  /** The contribution of one element to a union: itself once per key in `vs`
      that matches its own key `c`. */
  function Hits<T, K(==)>(x: T, c: K, vs: seq<K>): multiset<T>
  {
    if |vs| == 0 then multiset{}
    else (if vs[0] == c then multiset{x} else multiset{}) + Hits(x, c, vs[1..])
  }

  lemma {:induction false} HitsOnce<T, K>(x: T, c: K, vs: seq<K>)
    requires NoDup(vs)
    ensures c in vs ==> Hits(x, c, vs) == multiset{x}
    ensures c !in vs ==> Hits(x, c, vs) == multiset{}
  {
    if |vs| > 0 {
      assert NoDup(vs[1..]) by {
        forall i, j | 0 <= i < j < |vs[1..]| ensures vs[1..][i] != vs[1..][j] {
          assert vs[1..][i] == vs[i + 1] && vs[1..][j] == vs[j + 1];
        }
      }
      HitsOnce(x, c, vs[1..]);
      if vs[0] == c {
        assert c !in vs[1..] by {
          forall j | 0 <= j < |vs[1..]| ensures vs[1..][j] != c {
            assert vs[1..][j] == vs[j + 1];
          }
        }
      } else {
        assert c in vs ==> c in vs[1..];
      }
    }
  }

  lemma {:induction false} UnionEmpty<T, K>(col: seq<K>, vs: seq<K>)
    requires |col| == 0
    ensures Union<T, K>([], col, vs) == multiset{}
  {
    if |vs| > 0 {
      UnionEmpty<T, K>(col, vs[1..]);
    }
  }

  /** Peeling the first element off every group at once. */
  lemma {:induction false} UnionCons<T, K>(xs: seq<T>, col: seq<K>, vs: seq<K>)
    requires |xs| == |col| > 0
    ensures Union(xs, col, vs) == Hits(xs[0], col[0], vs) + Union(xs[1..], col[1..], vs)
  {
    if |vs| > 0 {
      UnionCons(xs, col, vs[1..]);
    }
  }

  /** Grouping by every distinct key loses and duplicates nothing: the groups
      `Where(xs, col, k)` for the keys `k` in `vs` partition `xs`. */
  lemma {:induction false} GroupsPartition<T, K>(xs: seq<T>, col: seq<K>, vs: seq<K>)
    requires |xs| == |col|
    requires NoDup(vs)
    requires forall i :: 0 <= i < |col| ==> col[i] in vs
    ensures Union(xs, col, vs) == multiset(xs)
  {
    if |xs| == 0 {
      UnionEmpty<T, K>(col, vs);
    } else {
      var x, c := xs[0], col[0];
      UnionCons(xs, col, vs);
      assert c in vs;
      HitsOnce(x, c, vs);
      TailIn(col, vs);
      GroupsPartition(xs[1..], col[1..], vs);
      assert [x] + xs[1..] == xs;
      assert multiset(xs) == multiset{x} + multiset(xs[1..]);
    }
  }

  lemma TailIn<K>(col: seq<K>, vs: seq<K>)
    requires |col| > 0
    requires forall i :: 0 <= i < |col| ==> col[i] in vs
    ensures forall i :: 0 <= i < |col[1..]| ==> col[1..][i] in vs
  {
    forall i | 0 <= i < |col[1..]| ensures col[1..][i] in vs {
      assert col[1..][i] == col[i + 1];
    }
  }

  /** The sum of the counts of the keys in `vs`. */
  function SumCounts<K(==)>(col: seq<K>, vs: seq<K>): nat
  {
    if |vs| == 0 then 0 else Count(col, vs[0]) + SumCounts(col, vs[1..])
  }

  lemma {:induction false} UnionSize<T, K>(xs: seq<T>, col: seq<K>, vs: seq<K>)
    requires |xs| == |col|
    ensures |Union(xs, col, vs)| == SumCounts(col, vs)
  {
    if |vs| > 0 {
      UnionSize(xs, col, vs[1..]);
    }
  }

  lemma {:induction false} SharesAreRatio<K>(col: seq<K>, vs: seq<K>)
    requires |col| > 0
    ensures SumShares(col, vs) == SumCounts(col, vs) as real / |col| as real
  {
    if |vs| > 0 {
      SharesAreRatio(col, vs[1..]);
      AddFractions(Count(col, vs[0]) as real, SumCounts(col, vs[1..]) as real, |col| as real);
    }
  }

  /** The weights `percent(S, A, V)` sum to one over any list of values `V`
      that names every observed value once, such as the distinct ones. */
  lemma SharesSumToOne<K>(col: seq<K>, vs: seq<K>)
    requires |col| > 0
    requires NoDup(vs)
    requires forall i :: 0 <= i < |col| ==> col[i] in vs
    ensures SumShares(col, vs) == 1.0
  {
    UnionSize(col, col, vs);
    GroupsPartition(col, col, vs);
    assert |multiset(col)| == |col|;
    assert SumCounts(col, vs) == |col|;
    SharesAreRatio(col, vs);
    WholeRatio(|col| as real);
  }

  lemma WholeRatio(d: real)
    requires d > 0.0
    ensures d / d == 1.0
  {
  }

  /** `s` is an interleaving of `a` and `b`: every element of `s` is taken,
      in order, from the front of exactly one of them. */
  predicate Interleaves<T(==)>(s: seq<T>, a: seq<T>, b: seq<T>)
    decreases |s|
  {
    if |s| == 0 then |a| == 0 && |b| == 0
    else
      || (|a| > 0 && a[0] == s[0] && Interleaves(s[1..], a[1..], b))
      || (|b| > 0 && b[0] == s[0] && Interleaves(s[1..], a, b[1..]))
  }

  lemma {:induction false} InterleavesCounts<T>(s: seq<T>, a: seq<T>, b: seq<T>)
    requires Interleaves(s, a, b)
    ensures multiset(s) == multiset(a) + multiset(b)
    ensures |s| == |a| + |b|
    decreases |s|
  {
    if |s| > 0 {
      assert s == [s[0]] + s[1..];
      if |a| > 0 && a[0] == s[0] && Interleaves(s[1..], a[1..], b) {
        InterleavesCounts(s[1..], a[1..], b);
        assert a == [a[0]] + a[1..];
      } else {
        InterleavesCounts(s[1..], a, b[1..]);
        assert b == [b[0]] + b[1..];
      }
    }
  }

  /** Splitting on a boolean column keeps every element exactly once, on the
      side its flag names, each side in the original order. */
  lemma {:induction false} SplitPartition<T>(xs: seq<T>, flags: seq<bool>)
    requires |xs| == |flags|
    ensures Interleaves(xs, Where(xs, flags, true), Where(xs, flags, false))
    ensures multiset(xs) == multiset(Where(xs, flags, true)) + multiset(Where(xs, flags, false))
    ensures |xs| == |Where(xs, flags, true)| + |Where(xs, flags, false)|
  {
    var a, b := Where(xs, flags, true), Where(xs, flags, false);
    if |xs| > 0 {
      SplitPartition(xs[1..], flags[1..]);
      var a', b' := Where(xs[1..], flags[1..], true), Where(xs[1..], flags[1..], false);
      if flags[0] {
        assert a == [xs[0]] + a' && b == b';
        assert a[1..] == a';
      } else {
        assert a == a' && b == [xs[0]] + b';
        assert b[1..] == b';
      }
    }
    InterleavesCounts(xs, Where(xs, flags, true), Where(xs, flags, false));
  }

  /** A constant column has a single distinct value. */
  lemma DistinctConstant<K>(col: seq<K>)
    requires |col| > 0
    requires forall i :: 0 <= i < |col| ==> col[i] == col[0]
    ensures Distinct(col) == [col[0]]
  {
    var r := Distinct(col);
    assert col[0] in r;
    assert forall j :: 0 <= j < |r| ==> r[j] == col[0];
  }

  /** Selecting on the value every row has keeps every row. */
  lemma {:induction false} WhereAll<T, K>(xs: seq<T>, col: seq<K>, k: K)
    requires |xs| == |col|
    requires forall i :: 0 <= i < |col| ==> col[i] == k
    ensures Where(xs, col, k) == xs
  {
    if |xs| > 0 {
      WhereAll(xs[1..], col[1..], k);
    }
  }

  /** `vs` with position `i` taken out. */
  function Without<T>(vs: seq<T>, i: nat): (r: seq<T>)
    requires i < |vs|
    ensures |r| == |vs| - 1
    ensures forall j :: 0 <= j < |r| ==> r[j] == (if j < i then vs[j] else vs[j + 1])
    ensures multiset(r) == multiset(vs) - multiset{vs[i]}
  {
    assert vs == vs[..i] + [vs[i]] + vs[i + 1..];
    vs[..i] + vs[i + 1..]
  }

  /** Taking out a later position keeps the head in front. */
  lemma WithoutTail<T>(vs: seq<T>, i: nat)
    requires 0 < i < |vs|
    ensures Without(vs, i) == [vs[0]] + Without(vs[1..], i - 1)
  {
    var r, t := Without(vs, i), [vs[0]] + Without(vs[1..], i - 1);
    assert forall j :: 0 <= j < |r| ==> r[j] == t[j];
  }

  /** Two duplicate-free lists with the same elements hold each element once:
      they are the same multiset, whatever their order. */
  lemma {:induction false} SameElements<T>(vs: seq<T>, ws: seq<T>)
    requires NoDup(vs) && NoDup(ws)
    requires forall x :: x in vs <==> x in ws
    ensures multiset(vs) == multiset(ws)
  {
    forall x ensures multiset(vs)[x] == multiset(ws)[x] {
      NoDupOnce(vs, x);
      NoDupOnce(ws, x);
    }
  }

  lemma {:induction false} NoDupOnce<T>(vs: seq<T>, x: T)
    requires NoDup(vs)
    ensures multiset(vs)[x] == if x in vs then 1 else 0
  {
    if |vs| > 0 {
      assert vs == [vs[0]] + vs[1..];
      assert NoDup(vs[1..]) by {
        forall i, j | 0 <= i < j < |vs[1..]| ensures vs[1..][i] != vs[1..][j] {
          assert vs[1..][i] == vs[i + 1] && vs[1..][j] == vs[j + 1];
        }
      }
      NoDupOnce(vs[1..], x);
      assert vs[0] !in vs[1..] by {
        forall j | 0 <= j < |vs[1..]| ensures vs[1..][j] != vs[0] {
          assert vs[1..][j] == vs[j + 1];
        }
      }
    }
  }

  /** `f(vs[0]) + f(vs[1]) + ...`. */
  function SumOver<K>(vs: seq<K>, f: K -> real): real
  {
    if |vs| == 0 then 0.0 else f(vs[0]) + SumOver(vs[1..], f)
  }

  /** Any one term can be taken out of a sum, wherever it stands. */
  lemma {:induction false} SumWithout<K>(vs: seq<K>, i: nat, f: K -> real)
    requires i < |vs|
    ensures SumOver(vs, f) == f(vs[i]) + SumOver(Without(vs, i), f)
  {
    if i == 0 {
      assert Without(vs, 0) == vs[1..];
    } else {
      SumWithout(vs[1..], i - 1, f);
      WithoutTail(vs, i);
      var rest := Without(vs, i);
      assert rest[0] == vs[0] && rest[1..] == Without(vs[1..], i - 1);
    }
  }

  /** A sum does not depend on the order of its terms. */
  lemma {:induction false} SumPermute<K>(vs: seq<K>, ws: seq<K>, f: K -> real)
    requires multiset(vs) == multiset(ws)
    ensures SumOver(vs, f) == SumOver(ws, f)
  {
    if |vs| == 0 {
      assert |ws| == |multiset(ws)| == 0;
    } else {
      assert vs[0] in multiset(ws);
      var i :| 0 <= i < |ws| && ws[i] == vs[0];
      SumWithout(ws, i, f);
      assert vs == [vs[0]] + vs[1..];
      SumPermute(vs[1..], Without(ws, i), f);
    }
  }
}
