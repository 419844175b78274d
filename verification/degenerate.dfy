/** Two records that agree on every attribute but disagree on the label.
    The learner cannot separate them, yet it still splits: every test gains
    nothing, the first one scored beats the sentinel -1, and the test holds
    for both records. */
module Degenerate {
  import opened Results
  import opened Values
  import opened Features
  import opened Stats
  import opened Measures
  import opened Split
  import opened Id3

  const Yes: Record := [Field("c", Int(1)), Field("play", Bool(true))]
  const No: Record := [Field("c", Int(1)), Field("play", Bool(false))]

  lemma PairFields()
    ensures Lookup(Yes, "c") == Some(Int(1)) && Lookup(No, "c") == Some(Int(1))
    ensures Lookup(Yes, "play") == Some(Bool(true)) && Lookup(No, "play") == Some(Bool(false))
    ensures Names(Yes) == ["c", "play"]
  {
    assert Yes[1..] == [Field("play", Bool(true))] && No[1..] == [Field("play", Bool(false))];
    assert Yes[1..][1..] == [];
    assert "c" != "play";
  }

  /** As written, the learner splits the pair on `c >= 1` and its true side
      is the pair itself, so `ID3(leftS, D)` is called again on the very same
      records: the recursion makes no progress and goes on until CPython's
      recursion limit raises RecursionError. */
  lemma ContradictoryPairSplitsOnItself(ent: real -> real)
    ensures SelectSplit([Yes, No], "play", ent).Ok?
    ensures var c := SelectSplit([Yes, No], "play", ent).value;
      c.best.feature == AtLeast("c", 1.0) && c.best.gain == 0.0
      && Where([Yes, No], c.flags, true) == [Yes, No]
  {
    PairSelect(ent);
    var S := [Yes, No];
    assert Where(S, [true, true], true) == S;
  }

  lemma PairSelect(ent: real -> real)
    ensures SelectSplit([Yes, No], "play", ent) == Ok(Choice(Candidate(AtLeast("c", 1.0), 0.0), [true, true]))
  {
    var S := [Yes, No];
    var cands := [Candidate(AtLeast("c", 1.0), 0.0)];
    PairCandidates(ent);
    ArgMaxOfOne(cands);
    PairFlags();
  }

  lemma ArgMaxOfOne(cands: seq<Candidate>)
    requires |cands| == 1 && cands[0].gain > -1.0
    ensures ArgMax(GainsOf(cands)) == Some(0)
  {
    assert GainsOf(cands)[..0] == [];
  }

  lemma PairAttrs()
    ensures CandidateAttrs(Names(Yes), "play") == ["c"]
  {
    PairFields();
    var names := ["c", "play"];
    assert names[1..] == ["play"] && names[1..][1..] == [];
    assert !Synthetic("c");
    assert CandidateAttrs(names[1..], "play") == [];
  }

  lemma PairTests()
    ensures AttrTests([Yes, No], "c") == Ok([AtLeast("c", 1.0)])
  {
    PairFields();
    var S := [Yes, No];
    PairThresholds();
    assert S[0] == Yes && Get(Yes, "c") == Int(1);
  }

  lemma PairThresholds()
    ensures Thresholds([Yes, No], "c") == Ok([AtLeast("c", 1.0)])
  {
    PairFields();
    PairColumnOf(Attr("c"), Int(1));
    var vals := [Int(1), Int(1)];
    forall i | 0 <= i < |vals| ensures Numeric(vals[i]) == Some(1.0) {
      assert vals[i] == Int(1);
    }
    assert Magnitudes(vals) == [1.0, 1.0];
    DistinctConstant([1.0, 1.0]);
    var tests := seq(1, j requires 0 <= j < 1 => AtLeast("c", [1.0][j]));
    assert tests == [AtLeast("c", 1.0)];
  }

  lemma PairColumn()
    ensures Column([Yes, No], AtLeast("c", 1.0)) == Ok([Bool(true), Bool(true)])
  {
    PairFields();
    PairColumnOf(AtLeast("c", 1.0), Bool(true));
  }

  lemma PairColumnOf(f: Feature, v: Value)
    requires FeatureValue(Yes, f) == Ok(v) && FeatureValue(No, f) == Ok(v)
    ensures Column([Yes, No], f) == Ok([v, v])
  {
    var S := [Yes, No];
    assert S[0] == Yes && S[1..] == [No];
    assert [No][0] == No && [No][1..] == [];
    assert Column([], f) == Ok([]);
    assert [v] + [] == [v];
    assert Column([No], f) == Ok([v]);
    assert [v] + [v] == [v, v];
  }

  lemma PairFlags()
    ensures Flags([Yes, No], AtLeast("c", 1.0)) == Ok([true, true])
  {
    PairColumn();
    var vals := [Bool(true), Bool(true)];
    assert seq(|vals|, i requires 0 <= i < |vals| => Truthy(vals[i])) == [true, true];
  }

  lemma PairGain(ent: real -> real)
    ensures Gain([Yes, No], "play", AtLeast("c", 1.0), ent) == Ok(0.0)
  {
    var S := [Yes, No];
    var f := AtLeast("c", 1.0);
    PairColumn();
    PairLabelled();
    assert Gain(S, "play", f, ent).Ok?;
    var vals := Column(S, f).value;
    assert vals == [Bool(true), Bool(true)];
    forall i | 0 <= i < |S| ensures KeyOf(vals[i]) == KeyOf(vals[0]) {
      assert vals[i] == Bool(true);
    }
    ConstantTestGainsNothing(S, "play", f, ent);
  }

  lemma PairCandidates(ent: real -> real)
    ensures Candidates([Yes, No], "play", ent) == Ok([Candidate(AtLeast("c", 1.0), 0.0)])
  {
    var S := [Yes, No];
    var f := AtLeast("c", 1.0);
    var score := Scorer(S, "play", ent);
    PairAttrs();
    PairTests();
    PairGain(ent);
    assert score(f) == Ok(0.0);
    ScoreOne(f, score);
    EvaluateOne(S, "c", score);
  }

  lemma ScoreOne(f: Feature, score: Feature -> Result<real, Error>)
    requires score(f).Ok?
    ensures ScoreAll([f], score) == Ok([Candidate(f, score(f).value)])
  {
    assert [f][0] == f && [f][1..] == [];
    assert ScoreAll([], score) == Ok([]);
    assert [Candidate(f, score(f).value)] + [] == [Candidate(f, score(f).value)];
  }

  lemma EvaluateOne(S: seq<Record>, a: string, score: Feature -> Result<real, Error>)
    requires AttrTests(S, a).Ok? && ScoreAll(AttrTests(S, a).value, score).Ok?
    ensures Evaluate(S, [a], score) == ScoreAll(AttrTests(S, a).value, score)
  {
    assert [a][0] == a && [a][1..] == [];
    assert Evaluate(S, [], score) == Ok([]);
    assert ScoreAll(AttrTests(S, a).value, score).value + [] == ScoreAll(AttrTests(S, a).value, score).value;
  }

  lemma PairIsMixed()
    ensures Positive(Yes, "play") && !Positive(No, "play")
  {
    PairFields();
  }

  lemma PairLabelled()
    ensures AllHave([Yes, No], "play")
  {
    PairFields();
    var S := [Yes, No];
    assert forall X :: X in S ==> X == Yes || X == No;
  }

  lemma PairPurity()
    ensures Percent([Yes, No], "play", Bool(true)).Ok?
    ensures Percent([Yes, No], "play", Bool(true)).value != 1.0
    ensures Percent([Yes, No], "play", Bool(true)).value != 0.0
  {
    var S := [Yes, No];
    PairIsMixed();
    assert S[0] == Yes && S[1] == No;
    PairLabelled();
    assert !PyEq(Get(No, "play"), Bool(true)) && PyEq(Get(Yes, "play"), Bool(true));
  }

  /** The learner as modelled refuses that split instead. */
  lemma ContradictoryPairIsRefused(ent: real -> real)
    ensures ID3([Yes, No], "play", ent) == Err(DegenerateSplit)
  {
    var S := [Yes, No];
    PairSelect(ent);
    assert Where(S, [true, true], false) == [];
    assert ChooseSplit(S, "play", ent) == Err(DegenerateSplit);
    PairPurity();
  }
}
