/** Choosing the split at one node of the tree: the candidate attributes, the
    tests derived from each, their gains, and the arg-max over those gains. */
module Split {
  import opened Results
  import opened Values
  import opened Features
  import opened Stats

  /** Attribute names the learner reserves for its own synthetic tests. */
  predicate Synthetic(a: string)
  {
    |a| >= 4 && a[..4] == "_id3"
  }

  /** `[attr for attr in S[0] if attr != D and not attr.startswith('_id3')]`. */
  function CandidateAttrs(names: seq<string>, D: string): (r: seq<string>)
    ensures forall a :: a in r <==> a in names && a != D && !Synthetic(a)
    ensures |names| == 1 ==> r == (if names[0] != D && !Synthetic(names[0]) then names else [])
  {
    if |names| == 0 then []
    else
      var rest := CandidateAttrs(names[1..], D);
      assert names == [names[0]] + names[1..];
      if names[0] != D && !Synthetic(names[0]) then [names[0]] + rest else rest
  }

  /** The filter keeps the keys in their order in `S[0]`: filtering a
      concatenation concatenates the filtered parts. */
  lemma {:induction false} CandidateAttrsAppend(a: seq<string>, b: seq<string>, D: string)
    ensures CandidateAttrs(a + b, D) == CandidateAttrs(a, D) + CandidateAttrs(b, D)
  {
    if |a| == 0 {
      assert a + b == b;
    } else {
      assert (a + b)[0] == a[0] && (a + b)[1..] == a[1..] + b;
      CandidateAttrsAppend(a[1..], b, D);
    }
  }

  /** `c` is the magnitude of attribute `a` in some record of `S`. */
  predicate Observed(S: seq<Record>, a: string, c: real)
  {
    exists i :: 0 <= i < |S| && Has(S[i], a) && Numeric(Get(S[i], a)) == Some(c)
  }

  function Magnitudes(vals: seq<Value>): (r: seq<real>)
    requires forall i :: 0 <= i < |vals| ==> Numeric(vals[i]).Some?
    ensures |r| == |vals|
    ensures forall i :: 0 <= i < |vals| ==> r[i] == Numeric(vals[i]).value
  {
    seq(|vals|, i requires 0 <= i < |vals| => Numeric(vals[i]).value)
  }

  /** The tests `X[a] >= value` for every distinct value of a numeric
      attribute `a` observed in `S`, in order of first occurrence. A record
      without `a` is a KeyError; a string among the values a TypeError, since
      it is compared with a number whatever the iteration order. */
  function Thresholds(S: seq<Record>, a: string): (r: Result<seq<Feature>, Error>)
    ensures r.Ok? <==> forall i :: 0 <= i < |S| ==> Has(S[i], a) && Numeric(Get(S[i], a)).Some?
    ensures r.Ok? ==> forall j :: 0 <= j < |r.value| ==>
      r.value[j].AtLeast? && r.value[j].name == a && Observed(S, a, r.value[j].cutoff)
    ensures r.Ok? ==> NoDup(r.value)
    ensures r.Err? ==> r.error in {MissingAttribute(a), Incomparable(a)}
  {
    var vals :- Column(S, Attr(a));
    if exists i :: 0 <= i < |vals| && Numeric(vals[i]).None? then Err(Incomparable(a))
    else
      var cuts := Distinct(Magnitudes(vals));
      CutsObserved(S, a, vals);
      Ok(seq(|cuts|, j requires 0 <= j < |cuts| => AtLeast(a, cuts[j])))
  }

  lemma CutsObserved(S: seq<Record>, a: string, vals: seq<Value>)
    requires Column(S, Attr(a)) == Ok(vals)
    requires forall i :: 0 <= i < |vals| ==> Numeric(vals[i]).Some?
    ensures forall j :: 0 <= j < |Distinct(Magnitudes(vals))| ==> Observed(S, a, Distinct(Magnitudes(vals))[j])
  {
    var cuts := Distinct(Magnitudes(vals));
    forall j | 0 <= j < |cuts| ensures Observed(S, a, cuts[j]) {
      var i :| 0 <= i < |vals| && Magnitudes(vals)[i] == cuts[j];
      assert FeatureValue(S[i], Attr(a)) == Ok(vals[i]);
    }
  }

  /** Every value observed for a numeric attribute yields a threshold test. */
  lemma ThresholdsCover(S: seq<Record>, a: string)
    requires Thresholds(S, a).Ok?
    ensures forall i :: 0 <= i < |S| ==> AtLeast(a, Numeric(Get(S[i], a)).value) in Thresholds(S, a).value
  {
    var vals := Column(S, Attr(a)).value;
    var cuts := Distinct(Magnitudes(vals));
    var tests := Thresholds(S, a).value;
    forall i | 0 <= i < |S| ensures AtLeast(a, Numeric(Get(S[i], a)).value) in tests {
      var c := Magnitudes(vals)[i];
      assert c in cuts;
      var j :| 0 <= j < |cuts| && cuts[j] == c;
      assert tests[j] == AtLeast(a, c);
    }
  }

  /** The tests the learner scores for attribute `a`: thresholds when
      `S[0][a]` is an int or a float, otherwise the attribute itself. */
  predicate IsTest(S: seq<Record>, a: string, f: Feature)
  {
    && |S| > 0
    && Has(S[0], a)
    && if IsNumberType(Get(S[0], a)) then f.AtLeast? && f.name == a && Observed(S, a, f.cutoff)
       else f == Attr(a)
  }

  /** The tests for attribute `a`. The learner reads `S[0][a]` to choose
      between thresholds and the attribute itself. */
  function AttrTests(S: seq<Record>, a: string): (r: Result<seq<Feature>, Error>)
    ensures r.Ok? <==>
      && |S| > 0 && Has(S[0], a)
      && (IsNumberType(Get(S[0], a)) ==> forall i :: 0 <= i < |S| ==> Has(S[i], a) && Numeric(Get(S[i], a)).Some?)
    ensures r.Ok? ==> forall f :: f in r.value <==> IsTest(S, a, f)
  {
    if |S| == 0 then Err(EmptyDataset)
    else if !Has(S[0], a) then Err(MissingAttribute(a))
    else if IsNumberType(Get(S[0], a)) then
      var r := Thresholds(S, a);
      assert r.Ok? ==> forall f :: IsTest(S, a, f) ==> f in r.value by {
        if r.Ok? {
          ThresholdsCover(S, a);
          forall f | IsTest(S, a, f) ensures f in r.value {
            var i :| 0 <= i < |S| && Has(S[i], a) && Numeric(Get(S[i], a)) == Some(f.cutoff);
          }
        }
      }
      r
    else Ok([Attr(a)])
  }

  /** A scored test. */
  datatype Candidate = Candidate(feature: Feature, gain: real)

  function FeaturesOf(cs: seq<Candidate>): seq<Feature>
  {
    seq(|cs|, i requires 0 <= i < |cs| => cs[i].feature)
  }

  function GainsOf(cs: seq<Candidate>): seq<real>
  {
    seq(|cs|, i requires 0 <= i < |cs| => cs[i].gain)
  }

  /** The score of every test in `fs`, in order; the first error stops it.
      The learner scores with `Gain(S, D, f)`; any scorer will do here. */
  function ScoreAll(fs: seq<Feature>, score: Feature -> Result<real, Error>): (r: Result<seq<Candidate>, Error>)
    ensures r.Ok? <==> forall i :: 0 <= i < |fs| ==> score(fs[i]).Ok?
    ensures r.Ok? ==> FeaturesOf(r.value) == fs
    ensures r.Ok? ==> forall i :: 0 <= i < |r.value| ==> score(r.value[i].feature) == Ok(r.value[i].gain)
  {
    if |fs| == 0 then Ok([])
    else
      assert forall i :: 1 <= i < |fs| ==> fs[i] == fs[1..][i - 1];
      var g :- score(fs[0]);
      var rest :- ScoreAll(fs[1..], score);
      var r := [Candidate(fs[0], g)] + rest;
      assert FeaturesOf(r) == [fs[0]] + FeaturesOf(rest);
      assert fs == [fs[0]] + fs[1..];
      Ok(r)
  }

  /** The tests of the attributes `attrs`, attribute by attribute in the
      order of `attrs`, and each attribute's tests in their own order. */
  function AllTests(S: seq<Record>, attrs: seq<string>): (r: Result<seq<Feature>, Error>)
    ensures r.Ok? <==> forall j :: 0 <= j < |attrs| ==> AttrTests(S, attrs[j]).Ok?
  {
    if |attrs| == 0 then Ok([])
    else
      assert forall j :: 1 <= j < |attrs| ==> attrs[j] == attrs[1..][j - 1];
      var fs :- AttrTests(S, attrs[0]);
      var rest :- AllTests(S, attrs[1..]);
      Ok(fs + rest)
  }

  /** Every test of every candidate attribute, scored, in the order the
      learner visits them: attribute by attribute, thresholds in order. */
  function Evaluate(S: seq<Record>, attrs: seq<string>, score: Feature -> Result<real, Error>): (r: Result<seq<Candidate>, Error>)
    ensures r.Ok? ==> AllTests(S, attrs).Ok? && FeaturesOf(r.value) == AllTests(S, attrs).value
    ensures r.Ok? ==> forall i :: 0 <= i < |r.value| ==> score(r.value[i].feature) == Ok(r.value[i].gain)
    ensures AllTests(S, attrs).Ok? && (forall f :: f in AllTests(S, attrs).value ==> score(f).Ok?) ==> r.Ok?
  {
    if |attrs| == 0 then Ok([])
    else
      var fs :- AttrTests(S, attrs[0]);
      var here :- ScoreAll(fs, score);
      var rest :- Evaluate(S, attrs[1..], score);
      FeaturesOfAppend(here, rest);
      Ok(here + rest)
  }

  /** The tests scored are exactly the tests of the candidate attributes:
      each non-numeric attribute itself, and `attr >= value` for each value a
      numeric attribute takes in `S`. */
  lemma {:induction false} EvaluatesEveryTest(S: seq<Record>, attrs: seq<string>, score: Feature -> Result<real, Error>)
    requires Evaluate(S, attrs, score).Ok?
    ensures forall f :: f in FeaturesOf(Evaluate(S, attrs, score).value) <==> f.name in attrs && IsTest(S, f.name, f)
  {
    if |attrs| > 0 {
      EvaluateUnfold(S, attrs, score);
      EvaluatesEveryTest(S, attrs[1..], score);
      var here := AttrTests(S, attrs[0]).value;
      var rest := FeaturesOf(Evaluate(S, attrs[1..], score).value);
      assert attrs == [attrs[0]] + attrs[1..];
      forall f: Feature ensures f in here + rest <==> f.name in attrs && IsTest(S, f.name, f) {
        assert f in here <==> IsTest(S, attrs[0], f);
        assert IsTest(S, attrs[0], f) ==> f.name == attrs[0];
      }
    }
  }

  lemma EvaluateUnfold(S: seq<Record>, attrs: seq<string>, score: Feature -> Result<real, Error>)
    requires |attrs| > 0
    requires Evaluate(S, attrs, score).Ok?
    ensures AttrTests(S, attrs[0]).Ok? && Evaluate(S, attrs[1..], score).Ok?
    ensures FeaturesOf(Evaluate(S, attrs, score).value)
         == AttrTests(S, attrs[0]).value + FeaturesOf(Evaluate(S, attrs[1..], score).value)
  {
    var here, rest := EvaluateCons(S, attrs, score);
    FeaturesOfAppend(here, rest);
  }

  lemma EvaluateCons(S: seq<Record>, attrs: seq<string>, score: Feature -> Result<real, Error>)
      returns (here: seq<Candidate>, rest: seq<Candidate>)
    requires |attrs| > 0
    requires Evaluate(S, attrs, score).Ok?
    ensures AttrTests(S, attrs[0]).Ok? && ScoreAll(AttrTests(S, attrs[0]).value, score) == Ok(here)
    ensures Evaluate(S, attrs[1..], score) == Ok(rest)
    ensures Evaluate(S, attrs, score).value == here + rest
  {
    here := ScoreAll(AttrTests(S, attrs[0]).value, score).value;
    rest := Evaluate(S, attrs[1..], score).value;
  }

  lemma FeaturesOfAppend(a: seq<Candidate>, b: seq<Candidate>)
    ensures FeaturesOf(a + b) == FeaturesOf(a) + FeaturesOf(b)
  {
  }

  /** The index the learner's loop settles on: it starts from the sentinel
      gain -1 and replaces the best only on a strictly greater gain. */
  function ArgMax(gains: seq<real>): (r: Option<nat>)
    ensures r.Some? ==> r.value < |gains| && gains[r.value] > -1.0
    ensures r.Some? ==> forall j :: 0 <= j < |gains| ==> gains[j] <= gains[r.value]
    ensures r.Some? ==> forall j :: 0 <= j < r.value ==> gains[j] < gains[r.value]
    ensures r.None? <==> forall j :: 0 <= j < |gains| ==> gains[j] <= -1.0
  {
    if |gains| == 0 then None
    else
      var prev := ArgMax(gains[..|gains| - 1]);
      var best := if prev.Some? then gains[prev.value] else -1.0;
      if gains[|gains| - 1] > best then Some(|gains| - 1) else prev
  }

  /** Some test is chosen iff some scored gain is above the sentinel. */
  lemma ArgMaxExists(cands: seq<Candidate>)
    ensures ArgMax(GainsOf(cands)).Some? <==> exists i :: 0 <= i < |cands| && cands[i].gain > -1.0
  {
    var gains := GainsOf(cands);
    if exists i :: 0 <= i < |cands| && cands[i].gain > -1.0 {
      var i :| 0 <= i < |cands| && cands[i].gain > -1.0;
      assert gains[i] > -1.0;
    }
  }

  /** A scored test never outscores the one `ArgMax` picks. */
  lemma ArgMaxDominates(cands: seq<Candidate>, k: nat, score: Feature -> Result<real, Error>, f: Feature)
    requires forall i :: 0 <= i < |cands| ==> score(cands[i].feature) == Ok(cands[i].gain)
    requires ArgMax(GainsOf(cands)) == Some(k)
    requires f in FeaturesOf(cands)
    ensures score(f).Ok? && score(f).value <= cands[k].gain
  {
    var i :| 0 <= i < |cands| && FeaturesOf(cands)[i] == f;
    assert GainsOf(cands)[i] <= GainsOf(cands)[k];
  }
}
