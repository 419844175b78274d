/** Attribute values and records as the learner sees them: Python dicts mapping
    attribute names to bool, int, float or str values. */
module Values {
  import opened Results

  /** One attribute value, tagged by its Python type. Floats are exact reals. */
  datatype Value = Bool(b: bool) | Int(i: int) | Real(r: real) | Str(s: string)

  /** What Python's `==` and `set` see of a value: bools, ints and floats
      compare by magnitude (`True == 1 == 1.0`), strings by contents, and a
      number never equals a string. */
  datatype Key = Num(n: real) | Text(t: string)

  function KeyOf(v: Value): Key
  {
    match v
    case Bool(b) => Num(if b then 1.0 else 0.0)
    case Int(i) => Num(i as real)
    case Real(r) => Num(r)
    case Str(s) => Text(s)
  }

  /** Python's `a == b` on two attribute values. */
  predicate PyEq(a: Value, b: Value)
  {
    KeyOf(a) == KeyOf(b)
  }

  /** Python truthiness, as used by `if X[split_attr]`. */
  predicate Truthy(v: Value)
  {
    match v
    case Bool(b) => b
    case Int(i) => i != 0
    case Real(r) => r != 0.0
    case Str(s) => s != ""
  }

  /** `type(v) == int or type(v) == float`; a bool is neither. */
  predicate IsNumberType(v: Value)
  {
    v.Int? || v.Real?
  }

  /** The magnitude Python's `>=` compares, or None where comparing with a
      number raises TypeError. */
  function Numeric(v: Value): Option<real>
  {
    match v
    case Bool(b) => Some(if b then 1.0 else 0.0)
    case Int(i) => Some(i as real)
    case Real(r) => Some(r)
    case Str(_) => None
  }

  /** A record is an insertion-ordered dict: a list of named fields. */
  datatype Field = Field(name: string, value: Value)
  type Record = seq<Field>

  /** The keys of a record, in insertion order (`for attr in X`). */
  function Names(X: Record): seq<string>
  {
    if |X| == 0 then [] else [X[0].name] + Names(X[1..])
  }

  /** `X[k]`, or None where Python raises KeyError. */
  function Lookup(X: Record, k: string): (r: Option<Value>)
    ensures r.Some? <==> k in Names(X)
  {
    if |X| == 0 then None
    else if X[0].name == k then Some(X[0].value)
    else Lookup(X[1..], k)
  }

  predicate Has(X: Record, k: string)
  {
    Lookup(X, k).Some?
  }

  function Get(X: Record, k: string): Value
    requires Has(X, k)
  {
    Lookup(X, k).value
  }

  /** Every record of the dataset carries attribute `k`. */
  predicate AllHave(S: seq<Record>, k: string)
  {
    forall X :: X in S ==> Has(X, k)
  }

  /** `X[D] == True`: the record is a positive example of the target `D`. */
  predicate Positive(X: Record, D: string)
  {
    Has(X, D) && PyEq(Get(X, D), Bool(true))
  }

  /** Every record of the dataset is positive (`verdict`) or every record is
      negative (`!verdict`): the dataset is pure. */
  predicate Unanimous(S: seq<Record>, D: string, verdict: bool)
  {
    forall X :: X in S ==> Positive(X, D) == verdict
  }

  /** Why a computation stops. `EmptyDataset` is the ZeroDivisionError of
      `percent` on an empty list; `MissingAttribute` a KeyError; `Incomparable`
      the TypeError of `>=` between a number and a string; `NoSplit` the
      `split_attr = None` case; `DegenerateSplit` a split that keeps every
      record on the true side, where the learner calls itself on the same
      records until CPython's recursion limit raises RecursionError. */
  datatype Error =
    | EmptyDataset
    | MissingAttribute(attr: string)
    | Incomparable(attr: string)
    | NoSplit
    | DegenerateSplit
}
