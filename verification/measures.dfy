/** The statistics the learner scores splits with: `percent`, the entropy `H`
    and the information `Gain`. The base-2 logarithm is not modelled: the
    entropy of a mixed proportion `p` (0 < p < 1), that is
    -p*log2(p) - (1-p)*log2(1-p), is the parameter `ent`. */
module Measures {
  import opened Results
  import opened Values
  import opened Features
  import opened Stats

  /** The fraction of the records of a non-empty `S` whose `D` equals `v`. */
  function Proportion(S: seq<Record>, D: string, v: Value): (p: real)
    requires |S| > 0 && AllHave(S, D)
    ensures 0.0 <= p <= 1.0
    ensures p == 1.0 <==> forall X :: X in S ==> PyEq(Get(X, D), v)
    ensures p == 0.0 <==> forall X :: X in S ==> !PyEq(Get(X, D), v)
  {
    var col := Labels(S, D);
    assert (forall i :: 0 <= i < |col| ==> col[i] == KeyOf(v)) <==> (forall X :: X in S ==> PyEq(Get(X, D), v)) by {
      if forall i :: 0 <= i < |col| ==> col[i] == KeyOf(v) {
        forall X | X in S ensures PyEq(Get(X, D), v) {
          var i :| 0 <= i < |S| && S[i] == X;
        }
      }
    }
    assert KeyOf(v) in col <==> exists X :: X in S && PyEq(Get(X, D), v) by {
      if KeyOf(v) in col {
        var i :| 0 <= i < |col| && col[i] == KeyOf(v);
        assert S[i] in S && PyEq(Get(S[i], D), v);
      }
    }
    Share(col, KeyOf(v))
  }

  /** `percent(S, D, v)`: how many records have `X[D] == v`, over `len(S)`.
      An empty `S` is the division by zero, a record without `D` the KeyError. */
  function Percent(S: seq<Record>, D: string, v: Value): (r: Result<real, Error>)
    ensures r.Ok? <==> |S| > 0 && AllHave(S, D)
    ensures |S| == 0 ==> r == Err(EmptyDataset)
    ensures !AllHave(S, D) ==> r == Err(MissingAttribute(D))
    ensures r.Ok? ==> 0.0 <= r.value <= 1.0
    ensures r.Ok? ==> r.value == |Where(S, Labels(S, D), KeyOf(v))| as real / |S| as real
    ensures r.Ok? ==> (r.value == 1.0 <==> forall X :: X in S ==> PyEq(Get(X, D), v))
    ensures r.Ok? ==> (r.value == 0.0 <==> forall X :: X in S ==> !PyEq(Get(X, D), v))
  {
    if !AllHave(S, D) then Err(MissingAttribute(D))
    else if |S| == 0 then Err(EmptyDataset)
    else Ok(Proportion(S, D, v))
  }

  /** Binary entropy of a proportion, with the pure cases short-circuited. */
  function EntropyOf(p: real, ent: real -> real): real
  {
    if p == 0.0 || 1.0 - p == 0.0 then 0.0 else ent(p)
  }

  /** The entropy of the target `D` over a non-empty `S`. */
  function Entropy(S: seq<Record>, D: string, ent: real -> real): real
    requires |S| > 0 && AllHave(S, D)
  {
    EntropyOf(Proportion(S, D, Bool(true)), ent)
  }

  /** `H(S, D)`: zero on a pure dataset, `ent(p)` on a mixed one. */
  function H(S: seq<Record>, D: string, ent: real -> real): (r: Result<real, Error>)
    ensures r.Ok? <==> |S| > 0 && AllHave(S, D)
    ensures r.Ok? && (Unanimous(S, D, true) || Unanimous(S, D, false)) ==> r.value == 0.0
    ensures r.Ok? && !Unanimous(S, D, true) && !Unanimous(S, D, false)
      ==> r.value == ent(Proportion(S, D, Bool(true)))
  {
    var p :- Percent(S, D, Bool(true));
    Ok(EntropyOf(p, ent))
  }

  /** A group of records picked out of `S` still carries every attribute all
      of `S` carries. */
  lemma GroupHas<K>(S: seq<Record>, col: seq<K>, k: K, D: string)
    requires |S| == |col| && AllHave(S, D)
    ensures AllHave(Where(S, col, k), D)
  {
    var g := Where(S, col, k);
    forall X | X in g ensures Has(X, D) {
      var j :| 0 <= j < |g| && g[j] == X;
      var i :| 0 <= i < |S| && col[i] == k && S[i] == g[j];
      assert S[i] in S;
    }
  }

  /** A group's entropy scaled by its weight. Kept as a function of its own so
      that the solver sees the product only where a proof unfolds it. */
  function Weighted(p: real, e: real): real
  {
    p * e
  }

  /** The weighted entropy left after splitting `S` into the groups of the
      keys `vs`: the sum of `percent(S, A, V) * H([X for X in S if X[A] == V], D)`. */
  function Remainder(S: seq<Record>, D: string, col: seq<Key>, vs: seq<Key>, ent: real -> real): (r: real)
    requires |S| == |col| && AllHave(S, D)
    requires forall j :: 0 <= j < |vs| ==> vs[j] in col
    ensures PureGroups(S, D, col, vs, ent) ==> r == 0.0
  {
    if |vs| == 0 then 0.0
    else
      var group := Where(S, col, vs[0]);
      var e := Entropy(group, D, ent);
      PureGroupsTail(S, D, col, vs, ent);
      var rest := Remainder(S, D, col, vs[1..], ent);
      assert Weighted(Share(col, vs[0]), 0.0) == 0.0;
      Weighted(Share(col, vs[0]), e) + rest
  }

  lemma PureGroupsTail(S: seq<Record>, D: string, col: seq<Key>, vs: seq<Key>, ent: real -> real)
    requires |S| == |col| && AllHave(S, D)
    requires forall j :: 0 <= j < |vs| ==> vs[j] in col
    requires |vs| > 0
    ensures forall j :: 0 <= j < |vs[1..]| ==> vs[1..][j] in col
    ensures |Where(S, col, vs[0])| > 0 && AllHave(Where(S, col, vs[0]), D)
    ensures PureGroups(S, D, col, vs, ent) ==>
      Entropy(Where(S, col, vs[0]), D, ent) == 0.0 && PureGroups(S, D, col, vs[1..], ent)
  {
    var group := Where(S, col, vs[0]);
    GroupHas(S, col, vs[0], D);
    HIsEntropy(group, D, ent);
    assert forall j :: 0 <= j < |vs[1..]| ==> vs[1..][j] == vs[j + 1];
  }

  /** Every group of `vs` has zero entropy. */
  predicate PureGroups(S: seq<Record>, D: string, col: seq<Key>, vs: seq<Key>, ent: real -> real)
    requires |S| == |col|
  {
    forall j :: 0 <= j < |vs| ==> H(Where(S, col, vs[j]), D, ent) == Ok(0.0)
  }

  /** The weighted entropy of the one group of key `k`. */
  function GroupTerm(S: seq<Record>, D: string, col: seq<Key>, k: Key, ent: real -> real): real
    requires |S| == |col| && AllHave(S, D) && k in col
  {
    GroupHas(S, col, k, D);
    Weighted(Share(col, k), Entropy(Where(S, col, k), D, ent))
  }

  /** The weighted entropy of each group, as a function of its key. */
  function GroupTerms(S: seq<Record>, D: string, col: seq<Key>, ent: real -> real): Key -> real
    requires |S| == |col| && AllHave(S, D)
  {
    k => if k in col then GroupTerm(S, D, col, k, ent) else 0.0
  }

  /** `Remainder` is the sum of the groups' weighted entropies. */
  lemma {:induction false} RemainderIsSum(S: seq<Record>, D: string, col: seq<Key>, vs: seq<Key>, ent: real -> real)
    requires |S| == |col| && AllHave(S, D)
    requires forall j :: 0 <= j < |vs| ==> vs[j] in col
    ensures Remainder(S, D, col, vs, ent) == SumOver(vs, GroupTerms(S, D, col, ent))
  {
    if |vs| > 0 {
      assert forall j :: 0 <= j < |vs[1..]| ==> vs[1..][j] == vs[j + 1];
      RemainderIsSum(S, D, col, vs[1..], ent);
    }
  }

  /** The weighted entropy does not depend on the order of the keys: the
      same keys, each as often, in any order give the same `Remainder`. */
  lemma RemainderPermute(S: seq<Record>, D: string, col: seq<Key>, vs: seq<Key>, ws: seq<Key>, ent: real -> real)
    requires |S| == |col| && AllHave(S, D)
    requires forall j :: 0 <= j < |vs| ==> vs[j] in col
    requires multiset(vs) == multiset(ws)
    ensures forall j :: 0 <= j < |ws| ==> ws[j] in col
    ensures Remainder(S, D, col, vs, ent) == Remainder(S, D, col, ws, ent)
  {
    assert forall j :: 0 <= j < |ws| ==> ws[j] in col by {
      forall j | 0 <= j < |ws| ensures ws[j] in col {
        assert ws[j] in multiset(vs);
      }
    }
    RemainderIsSum(S, D, col, vs, ent);
    RemainderIsSum(S, D, col, ws, ent);
    SumPermute(vs, ws, GroupTerms(S, D, col, ent));
  }

  /** `Gain(S, D, f)`: the entropy of `S` less the weighted entropy of its
      groups by the distinct values of `f`. */
  function Gain(S: seq<Record>, D: string, f: Feature, ent: real -> real): (r: Result<real, Error>)
    ensures r.Ok? <==> |S| > 0 && AllHave(S, D) && Column(S, f).Ok?
  {
    var h :- H(S, D, ent);
    var vals :- Column(S, f);
    var col := KeysOf(vals);
    Ok(h - Remainder(S, D, col, Distinct(col), ent))
  }

  /** The groups `Gain` weighs partition `S` (nothing lost, nothing counted
      twice), each is non-empty and holds exactly the records with that value
      of `f`, and their weights sum to one. */
  lemma GainWeighsAPartition(S: seq<Record>, D: string, f: Feature, ent: real -> real)
    requires |S| > 0 && AllHave(S, D) && Column(S, f).Ok?
    ensures Column(S, f).Ok?
    ensures var col := KeysOf(Column(S, f).value);
      && Union(S, col, Distinct(col)) == multiset(S)
      && SumShares(col, Distinct(col)) == 1.0
      && (forall j :: 0 <= j < |Distinct(col)| ==> |Where(S, col, Distinct(col)[j])| > 0)
      && (forall i :: 0 <= i < |S| ==> S[i] in Where(S, col, KeyOf(Column(S, f).value[i])))
  {
    var vals := Column(S, f).value;
    var col := KeysOf(vals);
    var vs := Distinct(col);
    assert Union(S, col, vs) == multiset(S) by {
      GroupsPartition(S, col, vs);
    }
    assert SumShares(col, vs) == 1.0 by {
      SharesSumToOne(col, vs);
    }
    assert forall j :: 0 <= j < |vs| ==> |Where(S, col, vs[j])| > 0 by {
      forall j | 0 <= j < |vs| ensures |Where(S, col, vs[j])| > 0 {
        assert vs[j] in col;
      }
    }
    assert forall i :: 0 <= i < |S| ==> S[i] in Where(S, col, KeyOf(vals[i])) by {
      forall i | 0 <= i < |S| ensures S[i] in Where(S, col, KeyOf(vals[i])) {
        assert col[i] == KeyOf(vals[i]);
        WhereKeeps(S, col, col[i], i);
      }
    }
  }

  /** A group of a pure dataset is pure with the same verdict. */
  lemma GroupEntropyZero(S: seq<Record>, D: string, col: seq<Key>, k: Key, verdict: bool, ent: real -> real)
    requires |S| == |col| && AllHave(S, D) && k in col
    requires Unanimous(S, D, verdict)
    ensures AllHave(Where(S, col, k), D) && |Where(S, col, k)| > 0
    ensures Entropy(Where(S, col, k), D, ent) == 0.0
  {
    var g := Where(S, col, k);
    GroupHas(S, col, k, D);
    assert forall X :: X in g ==> X in S by {
      forall X | X in g ensures X in S {
        var j :| 0 <= j < |g| && g[j] == X;
        var i :| 0 <= i < |S| && col[i] == k && S[i] == g[j];
      }
    }
  }

  lemma {:induction false} RemainderPure(S: seq<Record>, D: string, col: seq<Key>, vs: seq<Key>, verdict: bool, ent: real -> real)
    requires |S| == |col| && AllHave(S, D)
    requires forall j :: 0 <= j < |vs| ==> vs[j] in col
    requires Unanimous(S, D, verdict)
    ensures Remainder(S, D, col, vs, ent) == 0.0
  {
    if |vs| > 0 {
      RemainderPure(S, D, col, vs[1..], verdict, ent);
      GroupEntropyZero(S, D, col, vs[0], verdict, ent);
      assert Weighted(Share(col, vs[0]), 0.0) == 0.0;
    }
  }

  /** Splitting a pure dataset gains nothing, whatever the split. */
  lemma PureSplitGainsNothing(S: seq<Record>, D: string, f: Feature, verdict: bool, ent: real -> real)
    requires |S| > 0 && AllHave(S, D) && Column(S, f).Ok?
    requires Unanimous(S, D, verdict)
    ensures Gain(S, D, f, ent).value == 0.0
  {
    GainValue(S, D, f, ent);
    var col := KeysOf(Column(S, f).value);
    assert |S| > 0 && AllHave(S, D) && |col| == |S|;
    RemainderPure(S, D, col, Distinct(col), verdict, ent);
    PureEntropyZero(S, D, verdict, ent);
  }

  lemma PureEntropyZero(S: seq<Record>, D: string, verdict: bool, ent: real -> real)
    requires |S| > 0 && AllHave(S, D)
    requires Unanimous(S, D, verdict)
    ensures H(S, D, ent) == Ok(0.0)
  {
    if !verdict {
      assert forall X :: X in S ==> !Positive(X, D);
    }
  }

  /** Unfolds `Gain` on a dataset where it is defined, for the proofs that
      follow. */
  lemma GainValue(S: seq<Record>, D: string, f: Feature, ent: real -> real)
    requires |S| > 0 && AllHave(S, D) && Column(S, f).Ok?
    ensures H(S, D, ent).Ok? && Column(S, f).Ok? && Gain(S, D, f, ent).Ok?
    ensures var col := KeysOf(Column(S, f).value);
      Gain(S, D, f, ent).value == H(S, D, ent).value - Remainder(S, D, col, Distinct(col), ent)
  {
  }

  /** Python iterates `set(X[A] for X in S)` in an order of its own; the
      model visits the values in order of first occurrence. Any order of the
      distinct values, each visited once, gives the same `Gain`. */
  lemma GainOrderFree(S: seq<Record>, D: string, f: Feature, ws: seq<Key>, ent: real -> real)
    requires |S| > 0 && AllHave(S, D) && Column(S, f).Ok?
    requires NoDup(ws)
    requires forall k :: k in ws <==> k in KeysOf(Column(S, f).value)
    ensures Gain(S, D, f, ent).Ok? && H(S, D, ent).Ok?
    ensures forall j :: 0 <= j < |ws| ==> ws[j] in KeysOf(Column(S, f).value)
    ensures Gain(S, D, f, ent).value == H(S, D, ent).value - Remainder(S, D, KeysOf(Column(S, f).value), ws, ent)
  {
    var col := KeysOf(Column(S, f).value);
    var vs := Distinct(col);
    GainValue(S, D, f, ent);
    assert forall k :: k in vs <==> k in ws by {
      forall k ensures k in vs <==> k in ws {
        if k in vs {
          var j :| 0 <= j < |vs| && vs[j] == k;
        }
        if k in col {
          var i :| 0 <= i < |col| && col[i] == k;
        }
      }
    }
    SameElements(vs, ws);
    RemainderPermute(S, D, col, vs, ws, ent);
  }

  /** For a stored attribute, the weight `Gain` gives the group of value `v` is
      `percent(S, A, v)`. */
  lemma WeightIsPercent(S: seq<Record>, a: string, v: Value)
    requires |S| > 0 && AllHave(S, a)
    ensures Column(S, Attr(a)).Ok? && Percent(S, a, v).Ok?
    ensures Share(KeysOf(Column(S, Attr(a)).value), KeyOf(v)) == Percent(S, a, v).value
  {
    assert Column(S, Attr(a)).Ok? by {
      forall i | 0 <= i < |S| ensures FeatureValue(S[i], Attr(a)).Ok? {
        assert S[i] in S;
      }
    }
    var vals := Column(S, Attr(a)).value;
    assert KeysOf(vals) == Labels(S, a) by {
      forall i | 0 <= i < |S| ensures KeysOf(vals)[i] == Labels(S, a)[i] {
        assert FeatureValue(S[i], Attr(a)) == Ok(vals[i]);
      }
    }
    assert Percent(S, a, v) == Ok(Proportion(S, a, v));
  }

  /** When every label is `True` or `False` (as Python compares them),
      `percent(S, D, True) + percent(S, D, False) == 1`. */
  lemma PercentComplement(S: seq<Record>, D: string)
    requires |S| > 0 && AllHave(S, D)
    requires forall X :: X in S ==> PyEq(Get(X, D), Bool(true)) || PyEq(Get(X, D), Bool(false))
    ensures Percent(S, D, Bool(true)).Ok? && Percent(S, D, Bool(false)).Ok?
    ensures Percent(S, D, Bool(true)).value + Percent(S, D, Bool(false)).value == 1.0
  {
    var col := Labels(S, D);
    var vs := [KeyOf(Bool(true)), KeyOf(Bool(false))];
    assert SumShares(col, vs) == 1.0 by {
      assert forall i :: 0 <= i < |col| ==> col[i] in vs by {
        forall i | 0 <= i < |col| ensures col[i] in vs {
          assert S[i] in S;
        }
      }
      UnionSize(col, col, vs);
      GroupsPartition(col, col, vs);
      assert |multiset(col)| == |col|;
      SharesAreRatio(col, vs);
      WholeRatio(|col| as real);
    }
    assert SumShares(col, vs) == Share(col, vs[0]) + Share(col, vs[1]) by {
      var tail := vs[1..];
      assert tail == [vs[1]] && tail[1..] == [];
      assert SumShares(col, tail[1..]) == 0.0;
      assert SumShares(col, tail) == Share(col, vs[1]) + SumShares(col, tail[1..]);
      assert SumShares(col, vs) == Share(col, vs[0]) + SumShares(col, tail);
    }
    assert Percent(S, D, Bool(true)).value == Share(col, vs[0]);
    assert Percent(S, D, Bool(false)).value == Share(col, vs[1]);
  }

  /** A test on which every record agrees splits nothing off and gains nothing. */
  lemma ConstantTestGainsNothing(S: seq<Record>, D: string, f: Feature, ent: real -> real)
    requires |S| > 0 && AllHave(S, D) && Column(S, f).Ok?
    requires forall i :: 0 <= i < |S| ==> KeyOf(Column(S, f).value[i]) == KeyOf(Column(S, f).value[0])
    ensures Gain(S, D, f, ent).value == 0.0
  {
    GainValue(S, D, f, ent);
    var vals := Column(S, f).value;
    var col := KeysOf(vals);
    ConstantKeys(vals);
    RemainderConstant(S, D, col, ent);
    HIsEntropy(S, D, ent);
    assert Remainder(S, D, col, Distinct(col), ent) == H(S, D, ent).value;
  }

  lemma ConstantKeys(vals: seq<Value>)
    requires |vals| > 0
    requires forall i :: 0 <= i < |vals| ==> KeyOf(vals[i]) == KeyOf(vals[0])
    ensures forall i :: 0 <= i < |KeysOf(vals)| ==> KeysOf(vals)[i] == KeysOf(vals)[0]
  {
  }

  /** One group holding all of `S` leaves the entropy of `S` itself. */
  lemma RemainderConstant(S: seq<Record>, D: string, col: seq<Key>, ent: real -> real)
    requires |S| == |col| > 0 && AllHave(S, D)
    requires forall i :: 0 <= i < |col| ==> col[i] == col[0]
    ensures Remainder(S, D, col, Distinct(col), ent) == Entropy(S, D, ent)
  {
    var k := col[0];
    DistinctConstant(col);
    WhereAll(S, col, k);
    RemainderOfOne(S, D, col, k, ent);
    assert Share(col, k) == 1.0;
    assert Weighted(1.0, Entropy(S, D, ent)) == Entropy(S, D, ent);
  }

  lemma HIsEntropy(S: seq<Record>, D: string, ent: real -> real)
    requires |S| > 0 && AllHave(S, D)
    ensures H(S, D, ent) == Ok(Entropy(S, D, ent))
  {
  }

  lemma RemainderOfOne(S: seq<Record>, D: string, col: seq<Key>, k: Key, ent: real -> real)
    requires |S| == |col| && AllHave(S, D) && k in col
    ensures Remainder(S, D, col, [k], ent) == Weighted(Share(col, k), Entropy(Where(S, col, k), D, ent))
  {
    var vs := [k];
    assert vs[0] == k && vs[1..] == [];
  }
}
