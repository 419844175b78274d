/** The source stores each threshold test in the records themselves, under
    the name `_id3{attr}>={value}`, before it scores the test. When the target
    `D` carries such a name, that write replaces the labels the learner goes
    on to read. The rest of the model reads a threshold test without writing
    it (`Features.AtLeast`), so the labels stay as given; this module models
    the write as the source performs it. */
module Collision {
  import opened Results
  import opened Values
  import opened Features
  import opened Id3

  /** Python's `X[k] = v` on an insertion-ordered dict: an existing key keeps
      its place and takes the new value, a new key goes last. */
  function Put(X: Record, k: string, v: Value): (r: Record)
    ensures Lookup(r, k) == Some(v)
    ensures forall n :: n != k ==> Lookup(r, n) == Lookup(X, n)
    ensures Has(X, k) ==> Names(r) == Names(X)
    ensures !Has(X, k) ==> Names(r) == Names(X) + [k]
  {
    if |X| == 0 then [Field(k, v)]
    else if X[0].name == k then [Field(k, v)] + X[1..]
    else
      var rest := Put(X[1..], k, v);
      assert ([X[0]] + rest)[1..] == rest;
      [X[0]] + rest
  }

  /** `for X in S: X[fake] = X[attr] >= cutoff`, stopping at the first record
      whose `X[attr]` is missing or cannot be compared with a number. */
  function Stamp(S: seq<Record>, attr: string, cutoff: real, fake: string): (r: Result<seq<Record>, Error>)
    ensures r.Ok? <==> Column(S, AtLeast(attr, cutoff)).Ok?
    ensures r.Ok? ==> |r.value| == |S|
    ensures r.Ok? ==> forall i :: 0 <= i < |S| ==>
      r.value[i] == Put(S[i], fake, FeatureValue(S[i], AtLeast(attr, cutoff)).value)
  {
    if |S| == 0 then Ok([])
    else
      var v :- FeatureValue(S[0], AtLeast(attr, cutoff));
      var rest :- Stamp(S[1..], attr, cutoff, fake);
      assert forall i :: 1 <= i < |S| ==> S[i] == S[1..][i - 1];
      Ok([Put(S[0], fake, v)] + rest)
  }

  const Label := "_id3c>=1"
  const First: Record := [Field("c", Int(1)), Field(Label, Bool(false))]
  const Second: Record := [Field("c", Int(0)), Field(Label, Bool(true))]

  lemma PairFields()
    ensures Lookup(First, "c") == Some(Int(1)) && Lookup(Second, "c") == Some(Int(0))
    ensures Lookup(First, Label) == Some(Bool(false)) && Lookup(Second, Label) == Some(Bool(true))
  {
    assert First[1..] == [Field(Label, Bool(false))] && Second[1..] == [Field(Label, Bool(true))];
    assert "c" != Label;
  }

  lemma PairStamp()
    ensures Stamp([First, Second], "c", 1.0, Label)
      == Ok([Put(First, Label, Bool(true)), Put(Second, Label, Bool(false))])
  {
    PairFields();
    var S := [First, Second];
    var f := AtLeast("c", 1.0);
    assert FeatureValue(First, f) == Ok(Bool(true));
    assert FeatureValue(Second, f) == Ok(Bool(false));
    assert Column(S, f).Ok? by {
      forall i | 0 <= i < |S| ensures FeatureValue(S[i], f).Ok? {
        assert S[i] == First || S[i] == Second;
      }
    }
    var T := Stamp(S, "c", 1.0, Label).value;
    assert T[0] == Put(First, Label, Bool(true));
    assert T[1] == Put(Second, Label, Bool(false));
    assert T == [T[0], T[1]];
  }

  /** As written: scoring `c >= 1` on `[First, Second]` with target `Label`
      writes `c >= 1` under the name `Label`, which flips both labels. The
      true side of that test is then the stamped `First` alone, learnt as the
      positive leaf, although `First` is a negative example. */
  lemma StampFlipsLabels(ent: real -> real)
    ensures Stamp([First, Second], "c", 1.0, Label).Ok?
    ensures var T := Stamp([First, Second], "c", 1.0, Label).value;
      && !Positive(First, Label) && Positive(T[0], Label)
      && Positive(Second, Label) && !Positive(T[1], Label)
      && Passing(T, Attr(Label)) == [T[0]]
      && ID3([T[0]], Label, ent) == Ok(Leaf(true))
  {
    PairStamp();
    StampedLabels();
    StampedPassing();
    SingletonIsLeaf(Put(First, Label, Bool(true)), Label, ent);
  }

  lemma StampedLabels()
    ensures !Positive(First, Label) && Positive(Put(First, Label, Bool(true)), Label)
    ensures Positive(Second, Label) && !Positive(Put(Second, Label, Bool(false)), Label)
  {
    PairFields();
  }

  lemma StampedPassing()
    ensures var T := [Put(First, Label, Bool(true)), Put(Second, Label, Bool(false))];
      Passing(T, Attr(Label)) == [T[0]]
  {
    StampedLabels();
    var T := [Put(First, Label, Bool(true)), Put(Second, Label, Bool(false))];
    assert T[1..] == [T[1]] && [T[1]][1..] == [];
    assert Passing([T[1]], Attr(Label)) == [];
  }
}
