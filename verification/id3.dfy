/** The tree builder: `ID3(S, D)` and what its trees mean. */
module Id3 {
  import opened Results
  import opened Values
  import opened Features
  import opened Stats
  import opened Measures
  import opened Split

  /** A leaf states the verdict on the target (`D` or `"Not " + D`); a node
      holds its test, the gain that won it, the subtree of the records that
      pass the test and the subtree of those that fail it. */
  datatype Tree =
    | Leaf(positive: bool)
    | Node(test: Feature, gain: real, left: Tree, right: Tree)

  /** Route a record from the root to a leaf; None if a test cannot be read. */
  function Classify(t: Tree, X: Record): Option<bool>
  {
    match t
    case Leaf(b) => Some(b)
    case Node(f, _, l, r) =>
      match FeatureValue(X, f)
      case Err(_) => None
      case Ok(v) => if Truthy(v) then Classify(l, X) else Classify(r, X)
  }

  function LeafCount(t: Tree): nat
  {
    match t
    case Leaf(_) => 1
    case Node(_, _, l, r) => LeafCount(l) + LeafCount(r)
  }

  /** The learner scores every test by its information gain on `S`. */
  function Scorer(S: seq<Record>, D: string, ent: real -> real): Feature -> Result<real, Error>
  {
    f => Gain(S, D, f, ent)
  }

  /** The split chosen at a node: the winning candidate and, for each record,
      whether it passes the winner's test. */
  datatype Choice = Choice(best: Candidate, flags: seq<bool>)

  /** Every test of every candidate attribute of `S[0]`, scored by gain on `S`. */
  function Candidates(S: seq<Record>, D: string, ent: real -> real): (r: Result<seq<Candidate>, Error>)
    requires |S| > 0
    ensures r.Ok? ==> AllTests(S, CandidateAttrs(Names(S[0]), D)).Ok?
    ensures r.Ok? ==> FeaturesOf(r.value) == AllTests(S, CandidateAttrs(Names(S[0]), D)).value
    ensures r.Ok? ==> forall i :: 0 <= i < |r.value| ==> Gain(S, D, r.value[i].feature, ent) == Ok(r.value[i].gain)
    ensures var tests := AllTests(S, CandidateAttrs(Names(S[0]), D));
      tests.Ok? && (forall f :: f in tests.value ==> Gain(S, D, f, ent).Ok?) ==> r.Ok?
  {
    Evaluate(S, CandidateAttrs(Names(S[0]), D), Scorer(S, D, ent))
  }

  /** The learner's own choice: the first test of greatest gain above the
      sentinel -1, and the side of every record. Nothing checks that both
      sides are non-empty. A test that was scored could be read on every
      record, so reading it again to split cannot fail. */
  function SelectSplit(S: seq<Record>, D: string, ent: real -> real): (r: Result<Choice, Error>)
    ensures r.Ok? ==> |S| > 0 && Flags(S, r.value.best.feature) == Ok(r.value.flags)
    ensures r.Ok? ==> |r.value.flags| == |S|
  {
    if |S| == 0 then Err(EmptyDataset)
    else
      var cands :- Candidates(S, D, ent);
      match ArgMax(GainsOf(cands))
      case None => Err(NoSplit)
      case Some(k) =>
        var f := cands[k].feature;
        assert Gain(S, D, f, ent).Ok?;
        Ok(Choice(cands[k], Flags(S, f).value))
  }

  /** `SelectSplit`, refusing a split that leaves a side empty. With every
      record on the true side the learner would recurse on `S` itself; with
      every record on the false side the true side's `percent` divides by zero. */
  function ChooseSplit(S: seq<Record>, D: string, ent: real -> real): (r: Result<Choice, Error>)
    ensures r.Ok? ==> SelectSplit(S, D, ent) == r
    ensures r.Ok? ==> |Where(S, r.value.flags, true)| > 0 && |Where(S, r.value.flags, false)| > 0
    ensures SelectSplit(S, D, ent).Ok? ==>
      var flags := SelectSplit(S, D, ent).value.flags;
      (r.Ok? <==> |Where(S, flags, true)| > 0 && |Where(S, flags, false)| > 0)
  {
    var choice :- SelectSplit(S, D, ent);
    if |Where(S, choice.flags, false)| == 0 then Err(DegenerateSplit)
    else if |Where(S, choice.flags, true)| == 0 then Err(EmptyDataset)
    else Ok(choice)
  }

  /** `ID3(S, D)`. A pure `S` gives a leaf; otherwise `S` is split on the
      chosen test and both halves are built in turn, true side first. */
  function ID3(S: seq<Record>, D: string, ent: real -> real): (r: Result<Tree, Error>)
    ensures r.Ok? ==> |S| > 0 && AllHave(S, D)
    ensures r == Ok(Leaf(true)) <==> |S| > 0 && AllHave(S, D) && Unanimous(S, D, true)
    ensures r == Ok(Leaf(false)) <==> |S| > 0 && AllHave(S, D) && Unanimous(S, D, false)
    ensures r.Ok? && r.value.Node? ==> !Unanimous(S, D, true) && !Unanimous(S, D, false)
    decreases |S|
  {
    var purity :- Percent(S, D, Bool(true));
    if purity == 1.0 then Ok(Leaf(true))
    else if purity == 0.0 then Ok(Leaf(false))
    else
      var choice :- ChooseSplit(S, D, ent);
      SplitPartition(S, choice.flags);
      var left :- ID3(Where(S, choice.flags, true), D, ent);
      var right :- ID3(Where(S, choice.flags, false), D, ent);
      Ok(Node(choice.best.feature, choice.best.gain, left, right))
  }

  /** How a node came about: the split chosen for `S` and the two subtrees
      built from its sides. */
  lemma NodeShape(S: seq<Record>, D: string, ent: real -> real) returns (c: Choice)
    requires ID3(S, D, ent).Ok? && ID3(S, D, ent).value.Node?
    ensures |S| > 0 && AllHave(S, D)
    ensures ChooseSplit(S, D, ent) == Ok(c)
    ensures ID3(S, D, ent).value.test == c.best.feature
    ensures ID3(S, D, ent).value.gain == c.best.gain
    ensures ID3(Where(S, c.flags, true), D, ent) == Ok(ID3(S, D, ent).value.left)
    ensures ID3(Where(S, c.flags, false), D, ent) == Ok(ID3(S, D, ent).value.right)
  {
    var purity := Percent(S, D, Bool(true));
    assert purity.Ok? && purity.value != 1.0 && purity.value != 0.0;
    assert ChooseSplit(S, D, ent).Ok?;
    c := ChooseSplit(S, D, ent).value;
    var L := ID3(Where(S, c.flags, true), D, ent);
    var R := ID3(Where(S, c.flags, false), D, ent);
    assert L.Ok? && R.Ok?;
    assert ID3(S, D, ent) == Ok(Node(c.best.feature, c.best.gain, L.value, R.value));
  }

  /** The tree fits its training set: every record of `S`, routed from the
      root, reaches a leaf whose verdict is its own label `X[D] == True`. */
  lemma {:induction false} TreeFitsTrainingSet(S: seq<Record>, D: string, ent: real -> real)
    requires ID3(S, D, ent).Ok?
    ensures forall X :: X in S ==> Classify(ID3(S, D, ent).value, X) == Some(Positive(X, D))
    decreases |S|
  {
    var t := ID3(S, D, ent).value;
    if t.Node? {
      var c := NodeShape(S, D, ent);
      var f, flags := c.best.feature, c.flags;
      var L, R := Where(S, flags, true), Where(S, flags, false);
      SplitPartition(S, flags);
      TreeFitsTrainingSet(L, D, ent);
      TreeFitsTrainingSet(R, D, ent);
      forall X | X in S ensures Classify(t, X) == Some(Positive(X, D)) {
        var i :| 0 <= i < |S| && S[i] == X;
        assert FeatureValue(X, f).Ok? && flags[i] == Truthy(FeatureValue(X, f).value);
        if flags[i] {
          WhereKeeps(S, flags, true, i);
        } else {
          WhereKeeps(S, flags, false, i);
        }
      }
    } else {
      assert Unanimous(S, D, t.positive);
    }
  }

  /** The test the learner picks is a best one: it is a test of a candidate
      attribute, no test of any candidate attribute has a greater gain, its
      gain beats the sentinel -1, and among the scored tests it is the first
      one of that gain. */
  lemma SplitIsBest(S: seq<Record>, D: string, ent: real -> real)
    requires SelectSplit(S, D, ent).Ok?
    ensures |S| > 0 && Candidates(S, D, ent).Ok?
    ensures var best := SelectSplit(S, D, ent).value.best;
      && best.feature.name in CandidateAttrs(Names(S[0]), D)
      && IsTest(S, best.feature.name, best.feature)
      && Gain(S, D, best.feature, ent) == Ok(best.gain)
      && best.gain > -1.0
    ensures var best := SelectSplit(S, D, ent).value.best;
      forall f: Feature :: f.name in CandidateAttrs(Names(S[0]), D) && IsTest(S, f.name, f) ==>
        Gain(S, D, f, ent).Ok? && Gain(S, D, f, ent).value <= best.gain
    ensures var best := SelectSplit(S, D, ent).value.best;
      var cands := Candidates(S, D, ent).value;
      exists k :: 0 <= k < |cands| && cands[k] == best && forall j :: 0 <= j < k ==> cands[j].gain < best.gain
  {
    var cands := Candidates(S, D, ent).value;
    var k := ArgMax(GainsOf(cands)).value;
    var best := SelectSplit(S, D, ent).value.best;
    assert best == cands[k];
    forall j | 0 <= j < k ensures cands[j].gain < best.gain {
      assert GainsOf(cands)[j] < GainsOf(cands)[k];
    }
    BestAmongTests(S, D, ent, cands, k);
  }

  lemma BestAmongTests(S: seq<Record>, D: string, ent: real -> real, cands: seq<Candidate>, k: nat)
    requires |S| > 0 && Candidates(S, D, ent) == Ok(cands)
    requires ArgMax(GainsOf(cands)) == Some(k)
    ensures k < |cands|
    ensures cands[k].feature.name in CandidateAttrs(Names(S[0]), D)
    ensures IsTest(S, cands[k].feature.name, cands[k].feature)
    ensures forall f: Feature :: f.name in CandidateAttrs(Names(S[0]), D) && IsTest(S, f.name, f) ==>
      Gain(S, D, f, ent).Ok? && Gain(S, D, f, ent).value <= cands[k].gain
  {
    var attrs := CandidateAttrs(Names(S[0]), D);
    var score := Scorer(S, D, ent);
    EvaluatesEveryTest(S, attrs, score);
    assert FeaturesOf(cands)[k] == cands[k].feature;
    forall f: Feature | f.name in attrs && IsTest(S, f.name, f)
      ensures Gain(S, D, f, ent).Ok? && Gain(S, D, f, ent).value <= cands[k].gain
    {
      ArgMaxDominates(cands, k, score, f);
      assert score(f) == Gain(S, D, f, ent);
    }
  }

  /** With no test to score, or none scoring above the sentinel -1, the
      learner has no split attribute and stops with `NoSplit`. */
  lemma NothingBeatsSentinel(S: seq<Record>, D: string, ent: real -> real)
    requires |S| > 0 && Candidates(S, D, ent).Ok?
    requires forall i :: 0 <= i < |Candidates(S, D, ent).value| ==> Candidates(S, D, ent).value[i].gain <= -1.0
    ensures SelectSplit(S, D, ent) == Err(NoSplit)
  {
    var cands := Candidates(S, D, ent).value;
    assert forall j :: 0 <= j < |GainsOf(cands)| ==> GainsOf(cands)[j] <= -1.0;
  }

  /** The learner picks a split exactly when some scored test gains more
      than the sentinel -1: any such gain sets `split_attr`. */
  lemma SelectSplitSucceeds(S: seq<Record>, D: string, ent: real -> real)
    requires |S| > 0 && Candidates(S, D, ent).Ok?
    ensures SelectSplit(S, D, ent).Ok? <==>
      exists i :: 0 <= i < |Candidates(S, D, ent).value| && Candidates(S, D, ent).value[i].gain > -1.0
  {
    var cands := Candidates(S, D, ent).value;
    assert SelectSplit(S, D, ent).Ok? <==> ArgMax(GainsOf(cands)).Some?;
    ArgMaxExists(cands);
  }

  /** On a mixed `S` whose split is accepted and whose two sides are both
      learnt, the learner returns the node of that split over those two
      subtrees: `[split_attr, split_gain, left, right]`. */
  lemma NodeFromSides(S: seq<Record>, D: string, ent: real -> real)
    requires |S| > 0 && AllHave(S, D) && !Unanimous(S, D, true) && !Unanimous(S, D, false)
    requires ChooseSplit(S, D, ent).Ok?
    requires ID3(Where(S, ChooseSplit(S, D, ent).value.flags, true), D, ent).Ok?
    requires ID3(Where(S, ChooseSplit(S, D, ent).value.flags, false), D, ent).Ok?
    ensures var c := ChooseSplit(S, D, ent).value;
      ID3(S, D, ent) == Ok(Node(c.best.feature, c.best.gain,
        ID3(Where(S, c.flags, true), D, ent).value, ID3(Where(S, c.flags, false), D, ent).value))
  {
    var p := Percent(S, D, Bool(true));
    assert p.Ok?;
    assert p.value != 1.0 by {
      var X :| X in S && !Positive(X, D);
    }
    assert p.value != 0.0 by {
      var X :| X in S && Positive(X, D);
    }
  }

  /** A node splits its records as `leftS` and `rightS` do: the left subtree
      is learnt from the records whose test holds, the right one from those
      whose test fails, both in their original order and together exactly `S`;
      and the node's test is the learner's choice for `S`. */
  lemma NodeSides(S: seq<Record>, D: string, ent: real -> real)
    requires ID3(S, D, ent).Ok? && ID3(S, D, ent).value.Node?
    ensures var t := ID3(S, D, ent).value;
      && SelectSplit(S, D, ent).Ok?
      && t.test == SelectSplit(S, D, ent).value.best.feature
      && t.gain == SelectSplit(S, D, ent).value.best.gain
    ensures var t := ID3(S, D, ent).value;
      && Interleaves(S, Passing(S, t.test), Failing(S, t.test))
      && |Passing(S, t.test)| + |Failing(S, t.test)| == |S|
      && |Passing(S, t.test)| > 0 && |Failing(S, t.test)| > 0
    ensures var t := ID3(S, D, ent).value;
      && ID3(Passing(S, t.test), D, ent) == Ok(t.left)
      && ID3(Failing(S, t.test), D, ent) == Ok(t.right)
  {
    var c := NodeShape(S, D, ent);
    FlagsSelect(S, c.best.feature, c.flags);
    SplitPartition(S, c.flags);
    InterleavesCounts(S, Passing(S, c.best.feature), Failing(S, c.best.feature));
  }

  /** The two sides of a node, as learnt: each strictly smaller than `S`. */
  lemma NodeStep(S: seq<Record>, D: string, ent: real -> real) returns (P: seq<Record>, F: seq<Record>)
    requires ID3(S, D, ent).Ok? && ID3(S, D, ent).value.Node?
    ensures |P| + |F| == |S| && |P| < |S| && |F| < |S|
    ensures ID3(P, D, ent) == Ok(ID3(S, D, ent).value.left)
    ensures ID3(F, D, ent) == Ok(ID3(S, D, ent).value.right)
  {
    var t := ID3(S, D, ent).value;
    NodeSides(S, D, ent);
    P, F := Passing(S, t.test), Failing(S, t.test);
  }

  /** A tree never has more leaves than its training set has records. */
  lemma {:induction false} LeavesAtMostRecords(S: seq<Record>, D: string, ent: real -> real)
    requires ID3(S, D, ent).Ok?
    ensures LeafCount(ID3(S, D, ent).value) <= |S|
    decreases |S|
  {
    if ID3(S, D, ent).value.Node? {
      var P, F := NodeStep(S, D, ent);
      LeavesAtMostRecords(P, D, ent);
      LeavesAtMostRecords(F, D, ent);
    }
  }

  /** One labelled record is learnt as the leaf of its own label. */
  lemma SingletonIsLeaf(X: Record, D: string, ent: real -> real)
    requires Has(X, D)
    ensures ID3([X], D, ent) == Ok(Leaf(Positive(X, D)))
  {
    assert forall Y :: Y in [X] ==> Y == X;
  }
}
