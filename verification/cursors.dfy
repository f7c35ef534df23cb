/** Cursor specifications: where in a result tree a paginated collection
    sits, and which cursors paginate collections inside each of its nodes.
    A spec is either a bare path list or a `{"path": ..., "next": ...}`
    dict; the depaginator reads every spec through `Normalize`, which turns
    the shorthand into the dict form. */
module Cursors {
  import opened Wrappers
  import opened Json

  datatype CursorSpec =
    | Bare(steps: Path)
    | Spec(path: Path, next: Nested)

  /** The `next` key of a dict spec: absent (or None), or a nested cursor table. */
  datatype Nested = NoNext | Next(table: seq<Entry>)

  /** One item of a cursor table: a cursor variable's name and its spec. */
  datatype Entry = Entry(name: string, spec: CursorSpec)

  /** The cursor table, in dict iteration order. */
  type CursorTable = seq<Entry>

  /** Wraps a bare path list as `{"path": list}`; a dict spec is kept as it is. */
  function Normalize(s: CursorSpec): (r: CursorSpec)
    ensures r.Spec?
    ensures s.Bare? ==> r.path == s.steps && r.next.NoNext?
    ensures s.Spec? ==> r == s
  {
    match s
    case Bare(p) => Spec(p, NoNext)
    case Spec(_, _) => s
  }

  /** The path of a spec, once normalised. */
  function PathOf(s: CursorSpec): Path
  {
    Normalize(s).path
  }

  /** The nested cursor table of a spec, once normalised, if it has one. */
  function NextOf(s: CursorSpec): Option<CursorTable>
  {
    match Normalize(s).next
    case NoNext => None
    case Next(t) => Some(t)
  }

  /** A spec in dict form all the way down. */
  predicate Canonical(s: CursorSpec)
    decreases s
  {
    s.Spec? &&
    (s.next.Next? ==> forall i :: 0 <= i < |s.next.table| ==> Canonical(s.next.table[i].spec))
  }

  /** Normalises a spec and, recursively, every spec of its nested table. */
  function Canon(s: CursorSpec): (r: CursorSpec)
    ensures Canonical(r)
    ensures r.path == PathOf(s)
    ensures r.next.Next? <==> NextOf(s).Some?
    decreases s
  {
    match s
    case Bare(p) => Spec(p, NoNext)
    case Spec(p, NoNext) => s
    case Spec(p, Next(t)) =>
      Spec(p, Next(seq(|t|, i requires 0 <= i < |t| => Entry(t[i].name, Canon(t[i].spec)))))
  }

  /** `Canon` applied to every entry of a table; the names and their order are kept. */
  function CanonTable(t: CursorTable): (r: CursorTable)
    ensures |r| == |t|
    ensures forall i :: 0 <= i < |t| ==> r[i].name == t[i].name && Canonical(r[i].spec)
  {
    seq(|t|, i requires 0 <= i < |t| => Entry(t[i].name, Canon(t[i].spec)))
  }

  /** The nested table of a normalised spec is the normalised nested table. */
  lemma CanonNext(s: CursorSpec)
    requires NextOf(s).Some?
    ensures Canon(s).next == Next(CanonTable(NextOf(s).value))
  {
  }

  /** A table is normalised when each of its specs is. */
  lemma CanonTableCons(t: CursorTable)
    requires |t| > 0
    ensures CanonTable(t) == [Entry(t[0].name, Canon(t[0].spec))] + CanonTable(t[1..])
  {
  }

  /** Normalising is idempotent at one level. */
  lemma NormalizeIdempotent(s: CursorSpec)
    ensures Normalize(Normalize(s)) == Normalize(s)
    ensures PathOf(Normalize(s)) == PathOf(s) && NextOf(Normalize(s)) == NextOf(s)
  {
  }

  /** A spec already in dict form all the way down is left as it is. */
  lemma {:induction false} CanonFixesCanonical(s: CursorSpec)
    requires Canonical(s)
    ensures Canon(s) == s
    decreases s
  {
    match s
    case Spec(p, NoNext) =>
    case Spec(p, Next(t)) =>
      forall i | 0 <= i < |t|
        ensures Canon(t[i].spec) == t[i].spec
      {
        CanonFixesCanonical(t[i].spec);
      }
      assert Canon(s).next.table == t;
  }

  /** Normalising twice is normalising once, for specs and for tables. */
  lemma CanonIdempotent(s: CursorSpec)
    ensures Canon(Canon(s)) == Canon(s)
  {
  }

  lemma CanonTableIdempotent(t: CursorTable)
    ensures CanonTable(CanonTable(t)) == CanonTable(t)
  {
    var c := CanonTable(t);
    forall i | 0 <= i < |c|
      ensures Canon(c[i].spec) == c[i].spec
    {
      CanonFixesCanonical(c[i].spec);
    }
  }

  /** The bare list `p` and the dict `{"path": p}` normalise to the same spec. */
  lemma BareIsShorthand(p: Path)
    ensures Canon(Bare(p)) == Canon(Spec(p, NoNext))
    ensures PathOf(Bare(p)) == PathOf(Spec(p, NoNext)) && NextOf(Bare(p)) == NextOf(Spec(p, NoNext))
  {
  }
}
