/** The result tree a GraphQL reply decodes to, and the path operations the
    depaginator performs on it: walking a path one subscript at a time
    and replacing whatever sits at the end of a path. */
module Json {
  import opened Wrappers

  datatype Value =
    | Null
    | Bool(b: bool)
    | Int(n: int)
    | Str(s: string)
    | Object(fields: map<string, Value>)
    | Array(items: seq<Value>)

  /** One subscript: a key of an object, or a position in an array. */
  datatype Step = Field(key: string) | Index(i: nat)

  type Path = seq<Step>

  /** The child of `v` one step down, or None where the step names no member
      or position of `v` (the source raises a key, index or type error there). */
  function Child(v: Value, step: Step): Option<Value>
  {
    match step
    case Field(k) => if v.Object? && k in v.fields then Some(v.fields[k]) else None
    case Index(i) => if v.Array? && i < |v.items| then Some(v.items[i]) else None
  }

  /** `v` with the child at `step` replaced by `c`; `v` itself when there is no such child. */
  function WithChild(v: Value, step: Step, c: Value): Value
  {
    match step
    case Field(k) => if v.Object? && k in v.fields then Object(v.fields[k := c]) else v
    case Index(i) => if v.Array? && i < |v.items| then Array(v.items[i := c]) else v
  }

  /** Walks `p` from `v`, one subscript per step. */
  function Get(v: Value, p: Path): Option<Value>
    decreases |p|
  {
    if |p| == 0 then Some(v)
    else match Child(v, p[0])
      case None => None
      case Some(c) => Get(c, p[1..])
  }

  /** Replaces the value at the end of `p` by `w`, as an in-place assignment
      through the references met along `p` would. */
  function Put(v: Value, p: Path, w: Value): (r: Value)
    ensures Get(v, p).Some? ==> Get(r, p) == Some(w)
    ensures Get(v, p).None? ==> r == v
    decreases |p|
  {
    if |p| == 0 then w
    else match Child(v, p[0])
      case None => v
      case Some(c) => WithChild(v, p[0], Put(c, p[1..], w))
  }

  /** The member of an object under one key, or None. */
  function Member(v: Value, key: string): Option<Value>
  {
    Child(v, Field(key))
  }

  /** Whether a decoded JSON value counts as true: false, null, zero and
      empty strings, objects and arrays count as false. */
  predicate Truthy(v: Value)
  {
    match v
    case Null => false
    case Bool(b) => b
    case Int(n) => n != 0
    case Str(s) => |s| > 0
    case Object(m) => |m| > 0
    case Array(a) => |a| > 0
  }

  /** The length of an array, string or object; other values have none. */
  function Len(v: Value): Option<nat>
  {
    match v
    case Array(a) => Some(|a|)
    case Str(s) => Some(|s|)
    case Object(m) => Some(|m|)
    case _ => None
  }

  /** A value counts as true exactly when it is non-empty (arrays, strings,
      objects), true (booleans) or non-zero (integers); null never does. */
  lemma TruthyMeansNonEmpty(v: Value)
    ensures Len(v).Some? ==> (Truthy(v) <==> Len(v).value > 0)
    ensures v.Bool? ==> (Truthy(v) <==> v.b)
    ensures v.Int? ==> (Truthy(v) <==> v.n != 0)
    ensures v.Null? ==> !Truthy(v)
  {
  }

  /** Neither path is a prefix of the other, so they lead to separate subtrees. */
  predicate Apart(p: Path, q: Path)
  {
    !(p <= q) && !(q <= p)
  }

  lemma ChildWithChildSame(v: Value, s: Step, c: Value)
    requires Child(v, s).Some?
    ensures Child(WithChild(v, s, c), s) == Some(c)
  {
  }

  lemma ChildWithChildOther(v: Value, s: Step, t: Step, c: Value)
    requires Child(v, s).Some?
    requires s != t
    ensures Child(WithChild(v, s, c), t) == Child(v, t)
  {
  }

  /** Walking `p + q` is walking `p` and then `q` from where `p` ends. */
  lemma {:induction false} GetAppend(v: Value, p: Path, q: Path)
    ensures Get(v, p + q) == (match Get(v, p) case None => None case Some(u) => Get(u, q))
    decreases |p|
  {
    if |p| == 0 {
      assert p + q == q;
    } else {
      assert (p + q)[0] == p[0];
      assert (p + q)[1..] == p[1..] + q;
      match Child(v, p[0])
      case None =>
      case Some(c) =>
        GetAppend(c, p[1..], q);
    }
  }

  /** A path resolves only when each of its prefixes does: the walk stops
      with an error at the first step that names nothing. */
  lemma GetPrefix(v: Value, p: Path, q: Path)
    requires q <= p
    requires Get(v, p).Some?
    ensures Get(v, q).Some?
  {
    assert p == q + p[|q|..];
    GetAppend(v, q, p[|q|..]);
  }

  /** Replacing the value at `p` leaves every subtree apart from `p` as it was. */
  lemma {:induction false} GetPutApart(v: Value, p: Path, q: Path, w: Value)
    requires Apart(p, q)
    ensures Get(Put(v, p, w), q) == Get(v, q)
    decreases |p|
  {
    assert |p| > 0 && |q| > 0;
    match Child(v, p[0])
    case None =>
    case Some(c) =>
      var c' := Put(c, p[1..], w);
      if p[0] == q[0] {
        ChildWithChildSame(v, p[0], c');
        assert p == [p[0]] + p[1..] && q == [q[0]] + q[1..];
        GetPutApart(c, p[1..], q[1..], w);
      } else {
        ChildWithChildOther(v, p[0], q[0], c');
      }
  }

  /** Below the replaced position, the tree is the new value's. */
  lemma GetPutBelow(v: Value, p: Path, s: Path, w: Value)
    requires Get(v, p).Some?
    ensures Get(Put(v, p, w), p + s) == Get(w, s)
  {
    GetAppend(Put(v, p, w), p, s);
  }
}
