/** JSON-shaped values as Python's `json.loads` produces them, and the parts of
    Python's object semantics the diagram pipeline relies on: dict lookup and
    assignment, truthiness, hashability, `==` between scalars, `for x in v`,
    and the exceptions these raise. */
module Json {
  import opened Wrappers
  import Text

  /** A decoded JSON value. `JNum` is a number written with a fraction or an
      exponent, which Python decodes to a float; integers decode to `JInt`.
      An object keeps its members in insertion order, as a Python dict does. */
  datatype Value =
    | JNull
    | JBool(b: bool)
    | JInt(i: int)
    | JNum(r: real)
    | JStr(s: string)
    | JArr(items: seq<Value>)
    | JObj(members: Members)

  type Members = seq<(string, Value)>

  /** The Python exceptions the modelled code can raise and does not catch. */
  datatype PyError = KeyError(key: string) | TypeError | AttributeError | IndexError

  /** Position of the first member named `k`, or `|ms|` when there is none. */
  function KeyIndex(ms: Members, k: string): (r: nat)
    ensures r <= |ms|
    ensures r < |ms| ==> ms[r].0 == k
    ensures forall j :: 0 <= j < r ==> ms[j].0 != k
    decreases |ms|
  {
    if ms == [] then 0 else if ms[0].0 == k then 0 else 1 + KeyIndex(ms[1..], k)
  }

  /** `k in d`. */
  predicate Has(ms: Members, k: string) {
    KeyIndex(ms, k) < |ms|
  }

  /** `d.get(k)`: the value stored under `k`, if any. */
  function Find(ms: Members, k: string): (r: Option<Value>)
    ensures r.Some? <==> exists j :: 0 <= j < |ms| && ms[j].0 == k
    ensures r.Some? <==> Has(ms, k)
  {
    var j := KeyIndex(ms, k);
    if j < |ms| then Some(ms[j].1) else None
  }

  /** `d.get(k, default)`. */
  function GetOr(ms: Members, k: string, default: Value): Value {
    Find(ms, k).ValueOr(default)
  }

  /** `d[k] = v`: replaces the value in place when `k` is present, and appends
      a new last member otherwise. */
  function Put(ms: Members, k: string, v: Value): (r: Members)
    ensures Find(r, k) == Some(v)
    ensures forall k' :: k' != k ==> Find(r, k') == Find(ms, k')
    ensures Find(ms, k) == Some(v) ==> r == ms
    ensures Has(ms, k) ==> |r| == |ms| && forall j :: 0 <= j < |ms| ==> r[j].0 == ms[j].0
    ensures !Has(ms, k) ==> r == ms + [(k, v)]
  {
    PutFacts(ms, k, v);
    Store(ms, k, v)
  }

  function Store(ms: Members, k: string, v: Value): Members {
    var j := KeyIndex(ms, k);
    if j < |ms| then ms[j := (k, v)] else ms + [(k, v)]
  }

  lemma PutFacts(ms: Members, k: string, v: Value)
    ensures Find(Store(ms, k, v), k) == Some(v)
    ensures forall k' :: k' != k ==> Find(Store(ms, k, v), k') == Find(ms, k')
  {
    var r := Store(ms, k, v);
    var j := KeyIndex(ms, k);
    var i := KeyIndex(r, k);
    assert forall t :: 0 <= t < j ==> r[t] == ms[t];
    assert j < |r| && r[j] == (k, v);
    assert i == j;
    assert r[j] == (k, v);
    forall k' | k' != k ensures Find(r, k') == Find(ms, k') {
      var a := KeyIndex(ms, k');
      if a < |ms| {
        assert r[a] == ms[a];
      }
    }
  }

  /** When the first member named `k` is at position `j`, `d[k]` reads it. */
  lemma FindAt(ms: Members, k: string, j: nat)
    requires j < |ms| && ms[j].0 == k
    requires forall i :: 0 <= i < j ==> ms[i].0 != k
    ensures Find(ms, k) == Some(ms[j].1)
  {
    assert KeyIndex(ms, k) == j;
  }

  /** Python truthiness: `None`, `False`, zero, and empty strings, lists and
      dicts are false; everything else is true. */
  predicate Truthy(v: Value) {
    match v
    case JNull => false
    case JBool(b) => b
    case JInt(i) => i != 0
    case JNum(r) => r != 0.0
    case JStr(s) => s != []
    case JArr(xs) => xs != []
    case JObj(ms) => ms != []
  }

  /** Values that can be put in a Python `set`: lists and dicts cannot. */
  predicate Hashable(v: Value) {
    !v.JArr? && !v.JObj?
  }

  /** Python's `isinstance(v, int)`, which also holds of `True` and `False`. */
  predicate IsPyInt(v: Value) {
    v.JInt? || v.JBool?
  }

  predicate IsNumber(v: Value) {
    v.JBool? || v.JInt? || v.JNum?
  }

  function NumberValue(v: Value): real
    requires IsNumber(v)
  {
    match v
    case JBool(b) => if b then 1.0 else 0.0
    case JInt(i) => i as real
    case JNum(r) => r
  }

  /** Python `a == b` on hashable values: numbers compare by value across
      bool, int and float; strings compare only with strings; `None` only with
      `None`. A `set` membership test uses exactly this. */
  predicate PyEq(a: Value, b: Value) {
    || (a.JNull? && b.JNull?)
    || (a.JStr? && b.JStr? && a.s == b.s)
    || (IsNumber(a) && IsNumber(b) && NumberValue(a) == NumberValue(b))
  }

  /** `x in s` for a Python set `s` holding the elements of `xs`. */
  predicate PyIn(x: Value, xs: seq<Value>) {
    exists i :: 0 <= i < |xs| && PyEq(x, xs[i])
  }

  lemma PyEqSymmetric(a: Value, b: Value)
    requires PyEq(a, b)
    ensures PyEq(b, a)
  {
  }

  /** `v.strip()` when `v` is a string; every other value is left as it is. */
  function TrimIfStr(v: Value): (r: Value)
    ensures r.JStr? <==> v.JStr?
    ensures !v.JStr? ==> r == v
    ensures r.JStr? ==> Text.IsTrimmed(r.s)
    ensures Hashable(r) == Hashable(v)
  {
    if v.JStr? then JStr(Text.Trim(v.s)) else v
  }

  /** Trimming string fields keeps equal values equal. */
  lemma PyEqTrimmed(a: Value, b: Value)
    requires PyEq(a, b)
    ensures PyEq(TrimIfStr(a), TrimIfStr(b))
  {
  }

  lemma TrimIfStrIdempotent(v: Value)
    ensures TrimIfStr(TrimIfStr(v)) == TrimIfStr(v)
  {
  }

  /** `(d.get(k) or "").strip()`: the stripped text stored under `k`, or "" when
      the stored value is false; raises when it is a true non-string. */
  function StrippedText(ms: Members, k: string): (t: Result<string, PyError>)
    ensures t.Failure? <==> Truthy(GetOr(ms, k, JNull)) && !GetOr(ms, k, JNull).JStr?
    ensures t.Failure? ==> t.error == AttributeError
    ensures t.Success? ==> Text.IsTrimmed(t.value)
  {
    var v := GetOr(ms, k, JNull);
    if !Truthy(v) then Success("")
    else if v.JStr? then Success(Text.Trim(v.s))
    else Failure(AttributeError)
  }

  /** `v[k]` with a string key: a dict without `k` raises `KeyError`, and a
      value of any other type is not subscriptable by a string. */
  function Subscript(v: Value, k: string): (r: Result<Value, PyError>)
    ensures r.Success? <==> v.JObj? && Has(v.members, k)
    ensures r.Success? ==> Find(v.members, k) == Some(r.value)
    ensures r.Failure? ==> r.error == if v.JObj? then KeyError(k) else TypeError
  {
    if !v.JObj? then Failure(TypeError)
    else match Find(v.members, k)
      case Some(x) => Success(x)
      case None => Failure(KeyError(k))
  }

  /** `for x in v`: a list yields its items, a string its characters, a dict
      its keys; `None`, booleans and numbers are not iterable. */
  function Iterate(v: Value): (r: Result<seq<Value>, PyError>)
    ensures r.Failure? <==> v.JNull? || IsNumber(v)
    ensures r.Failure? ==> r.error == TypeError
    ensures v.JArr? ==> r == Success(v.items)
    ensures v.JStr? ==> r.Success? && |r.value| == |v.s|
    ensures v.JObj? ==> r.Success? && |r.value| == |v.members|
    ensures r.Success? && !v.JArr? ==> forall x :: x in r.value ==> x.JStr?
  {
    match v
    case JArr(xs) => Success(xs)
    case JStr(s) => Success(seq(|s|, i requires 0 <= i < |s| => JStr([s[i]])))
    case JObj(ms) => Success(seq(|ms|, i requires 0 <= i < |ms| => JStr(ms[i].0)))
    case _ => Failure(TypeError)
  }
}
