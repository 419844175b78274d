/** What a split reads of a record: a stored attribute, or the boolean
    `X[attr] >= cutoff` that the learner derives from a numeric attribute. */
module Features {
  import opened Results
  import opened Values
  import opened Stats

  /** `Attr(a)` reads `X[a]`. `AtLeast(a, c)` is the synthetic attribute the
      learner names `_id3{a}>={c}`, computed here on demand instead of being
      written into the record. */
  datatype Feature = Attr(name: string) | AtLeast(name: string, cutoff: real)

  /** `X[f]`, with the KeyError and TypeError of the learner as errors. */
  function FeatureValue(X: Record, f: Feature): (r: Result<Value, Error>)
    ensures r.Ok? <==> Has(X, f.name) && (f.AtLeast? ==> Numeric(Get(X, f.name)).Some?)
    ensures f.Attr? && r.Ok? ==> r.value == Get(X, f.name)
    ensures f.AtLeast? && r.Ok? ==> r.value == Bool(Numeric(Get(X, f.name)).value >= f.cutoff)
  {
    if !Has(X, f.name) then Err(MissingAttribute(f.name))
    else
      match f
      case Attr(_) => Ok(Get(X, f.name))
      case AtLeast(_, c) =>
        match Numeric(Get(X, f.name))
        case None => Err(Incomparable(f.name))
        case Some(n) => Ok(Bool(n >= c))
  }

  /** `[X[f] for X in S]`: stops at the first record that cannot be read. */
  function Column(S: seq<Record>, f: Feature): (r: Result<seq<Value>, Error>)
    ensures r.Ok? <==> forall i :: 0 <= i < |S| ==> FeatureValue(S[i], f).Ok?
    ensures r.Ok? ==> |r.value| == |S|
    ensures r.Ok? ==> forall i :: 0 <= i < |S| ==> FeatureValue(S[i], f) == Ok(r.value[i])
    ensures r.Err? ==> exists i :: 0 <= i < |S| && FeatureValue(S[i], f) == Err(r.error)
  {
    if |S| == 0 then Ok([])
    else
      var v :- FeatureValue(S[0], f);
      var rest :- Column(S[1..], f);
      assert forall i :: 1 <= i < |S| ==> S[i] == S[1..][i - 1];
      Ok([v] + rest)
  }

  /** The keys Python's `==` compares, for a column of values. */
  function KeysOf(vals: seq<Value>): (r: seq<Key>)
    ensures |r| == |vals|
    ensures forall i :: 0 <= i < |vals| ==> r[i] == KeyOf(vals[i])
  {
    seq(|vals|, i requires 0 <= i < |vals| => KeyOf(vals[i]))
  }

  /** The keys of attribute `a` across a dataset in which every record has it. */
  function Labels(S: seq<Record>, a: string): (r: seq<Key>)
    requires AllHave(S, a)
    ensures |r| == |S|
    ensures forall i :: 0 <= i < |S| ==> r[i] == KeyOf(Get(S[i], a))
  {
    seq(|S|, i requires 0 <= i < |S| => KeyOf(Get(S[i], a)))
  }

  /** Which side of the split each record goes to: `if X[split_attr]`. */
  function Flags(S: seq<Record>, f: Feature): (r: Result<seq<bool>, Error>)
    ensures r.Ok? <==> Column(S, f).Ok?
    ensures r.Ok? ==> |r.value| == |S|
    ensures r.Ok? ==> forall i :: 0 <= i < |S| ==>
      FeatureValue(S[i], f).Ok? && r.value[i] == Truthy(FeatureValue(S[i], f).value)
  {
    var vals :- Column(S, f);
    Ok(seq(|vals|, i requires 0 <= i < |vals| => Truthy(vals[i])))
  }

  /** `[X for X in S if X[f]]`: the records whose test value is truthy, in order. */
  function Passing(S: seq<Record>, f: Feature): (r: seq<Record>)
    ensures |r| <= |S|
    ensures forall i :: 0 <= i < |r| ==> r[i] in S && FeatureValue(r[i], f).Ok? && Truthy(FeatureValue(r[i], f).value)
  {
    if |S| == 0 then []
    else
      var v := FeatureValue(S[0], f);
      (if v.Ok? && Truthy(v.value) then [S[0]] else []) + Passing(S[1..], f)
  }

  /** `[X for X in S if not X[f]]`: the records whose test value is falsy, in order. */
  function Failing(S: seq<Record>, f: Feature): (r: seq<Record>)
    ensures |r| <= |S|
    ensures forall i :: 0 <= i < |r| ==> r[i] in S && FeatureValue(r[i], f).Ok? && !Truthy(FeatureValue(r[i], f).value)
  {
    if |S| == 0 then []
    else
      var v := FeatureValue(S[0], f);
      (if v.Ok? && !Truthy(v.value) then [S[0]] else []) + Failing(S[1..], f)
  }

  /** Selecting by the flags of `f` is filtering by the truth of `f`. */
  lemma {:induction false} FlagsSelect(S: seq<Record>, f: Feature, flags: seq<bool>)
    requires Flags(S, f) == Ok(flags)
    ensures Where(S, flags, true) == Passing(S, f)
    ensures Where(S, flags, false) == Failing(S, f)
  {
    if |S| > 0 {
      var v := FeatureValue(S[0], f);
      assert v.Ok? && flags[0] == Truthy(v.value);
      assert forall i :: 1 <= i < |S| ==> S[i] == S[1..][i - 1];
      assert Flags(S[1..], f).Ok?;
      assert Flags(S[1..], f).value == flags[1..];
      FlagsSelect(S[1..], f, flags[1..]);
      assert Where(S, flags, true) == (if flags[0] then [S[0]] else []) + Where(S[1..], flags[1..], true);
      assert Where(S, flags, false) == (if !flags[0] then [S[0]] else []) + Where(S[1..], flags[1..], false);
    }
  }
}
