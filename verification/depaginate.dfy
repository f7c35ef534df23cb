/** The recursive depagination of `graphql`: fetch the first page, then for
    every cursor of the table strip the paginated object's `pageInfo`, follow
    `endCursor` while `hasNextPage` holds and append the later pages' `nodes`,
    and, on a call whose own page was the last one, depaginate the nested
    cursors inside every node and weld their `nodes` back in.

    Every executor call consumes one unit of `fuel`: the source loops for as
    long as the server reports further pages. */
module Depaginate {
  import opened Wrappers
  import opened Json
  import opened Cursors
  import opened Transport

  /** The state the cursor loop carries from one cursor to the next: the
      tree being merged into, and the variables, which keep every cursor
      value set by an earlier cursor. */
  datatype Progress = Progress(data: Value, vars: Vars)

  /** Where the paginated object of a spec sits: the spec's path, below
      `prev` when `prev` is non-empty. */
  function CurrentPath(prev: Path, spec: CursorSpec): Path
  {
    if |prev| > 0 then prev + PathOf(spec) else PathOf(spec)
  }

  /** The base of the node paths: `prev` itself when non-empty (the spec's
      own path is not appended), `current` at the top level. */
  function NodeBase(prev: Path, current: Path): Path
  {
    if |prev| > 0 then prev else current
  }

  /** The path of node `i` of the collection whose node base is `base`. */
  function NodePath(base: Path, i: nat): Path
  {
    base + [Field("nodes"), Index(i)]
  }

  function Lookup(v: Value, p: Path): Result<Value, Error>
  {
    Get(v, p).ToResult(LookupError)
  }

  function Subscript(v: Value, key: string): Result<Value, Error>
  {
    Member(v, key).ToResult(LookupError)
  }

  /** Removes the `pageInfo` field of an object: the page info, and the object without it. */
  function PopPageInfo(obj: Value): (r: Result<(Value, Value), Error>)
    ensures r.Success? <==> Member(obj, "pageInfo").Some?
    ensures r.Failure? ==> r.error == LookupError
    ensures r.Success? ==>
              && r.value.0 == obj.fields["pageInfo"]
              && r.value.1.Object?
              && r.value.1.fields.Keys == obj.fields.Keys - {"pageInfo"}
              && forall k :: k in r.value.1.fields ==> r.value.1.fields[k] == obj.fields[k]
  {
    var info :- Subscript(obj, "pageInfo");
    Success((info, Object(obj.fields - {"pageInfo"})))
  }

  /** One query: one executor call with `vars`, then the depagination of
      every cursor of the table, if there is one. A successful answer needs
      a first response. */
  function Graphql(exec: Executor, cursors: Option<CursorTable>, prev: Path, vars: Vars, fuel: nat): (r: Result<Value, Error>)
    ensures r.Success? ==> fuel > 0 && exec(vars).Success?
    decreases fuel, 0, 0
  {
    if fuel == 0 then Failure(OutOfFuel)
    else
      var data :- exec(vars);
      match cursors
      case None => Success(data)
      case Some(table) => DepaginateTable(exec, table, prev, vars, data, fuel - 1)
  }

  /** The loop over the cursor table, in table order, each cursor seeing the
      tree and the variables the earlier ones left. Below the top level
      (`prev` non-empty) it changes the tree only below `prev`. */
  function DepaginateTable(exec: Executor, table: CursorTable, prev: Path, vars: Vars, data: Value, fuel: nat): (r: Result<Value, Error>)
    ensures r.Success? && |prev| > 0 ==> forall q :: Apart(prev, q) ==> Get(r.value, q) == Get(data, q)
    decreases fuel, 5, |table|
  {
    if |table| == 0 then Success(data)
    else
      var step :- DepaginateCursor(exec, table[0], prev, vars, data, fuel);
      DepaginateTable(exec, table[1..], prev, step.vars, step.data, fuel)
  }

  /** One iteration of the cursor loop: locate the paginated object, pop its
      `pageInfo`, then follow the next page when there is one, otherwise
      finish the last page. The step changes the tree only below the node
      base (the paginated object at the top level, `prev` further down), and
      the only variable it may change is the cursor's own. */
  function DepaginateCursor(exec: Executor, entry: Entry, prev: Path, vars: Vars, data: Value, fuel: nat): (r: Result<Progress, Error>)
    ensures r.Success? ==>
              forall q :: Apart(NodeBase(prev, CurrentPath(prev, entry.spec)), q) ==> Get(r.value.data, q) == Get(data, q)
    ensures r.Success? ==>
              && r.value.vars.Keys <= vars.Keys + {entry.name}
              && forall k :: k in vars && k != entry.name ==> k in r.value.vars && r.value.vars[k] == vars[k]
    decreases fuel, 4, 0
  {
    var current := CurrentPath(prev, entry.spec);
    var base := NodeBase(prev, current);
    assert current == base + current[|base|..];
    ApartExtend(base, current[|base|..]);
    var obj :- Lookup(data, current);
    var popped :- PopPageInfo(obj);
    var more :- Subscript(popped.0, "hasNextPage");
    if Truthy(more) then FollowNextPage(exec, entry, prev, vars, data, popped.0, popped.1, fuel)
    else FinishLastPage(exec, entry, prev, vars, data, popped.1, fuel)
  }

  /** The page at `current` reports a next page: the query is re-run for
      this cursor alone with the cursor variable set to `endCursor`, and the
      object, without its page info (`rest`), gets its own nodes followed by
      the nodes of the depaginated follow-up. Only the paginated object
      changes, and the cursor variable stays set. */
  function FollowNextPage(exec: Executor, entry: Entry, prev: Path, vars: Vars, data: Value, info: Value, rest: Value, fuel: nat): (r: Result<Progress, Error>)
    ensures r.Success? ==>
              forall q :: Apart(CurrentPath(prev, entry.spec), q) ==> Get(r.value.data, q) == Get(data, q)
    ensures r.Success? ==> Member(info, "endCursor").Some? && r.value.vars == vars[entry.name := Member(info, "endCursor").value]
    ensures r.Success? ==> Member(rest, "nodes").Some? && rest.fields["nodes"].Array?
    decreases fuel, 3, 0
  {
    var current := CurrentPath(prev, entry.spec);
    var cursor :- Subscript(info, "endCursor");
    var vars' := vars[entry.name := cursor];
    var next :- Graphql(exec, Some([entry]), prev, vars', fuel);
    var nextObj :- Lookup(next, current);
    var own :- Subscript(rest, "nodes");
    var later :- Subscript(nextObj, "nodes");
    if !own.Array? || !later.Array? then Failure(LookupError)
    else
      var merged := Object(rest.fields["nodes" := Array(own.items + later.items)]);
      PutKeepsApart(data, current, merged);
      Success(Progress(Put(data, current, merged), vars'))
  }

  /** The page at `current` is the last one: the object is replaced by
      `rest`, the object without its page info, and when the spec has a
      nested table every node is visited. The tree changes only below the
      node base, and the variables are kept. */
  function FinishLastPage(exec: Executor, entry: Entry, prev: Path, vars: Vars, data: Value, rest: Value, fuel: nat): (r: Result<Progress, Error>)
    ensures r.Success? ==>
              forall q :: Apart(NodeBase(prev, CurrentPath(prev, entry.spec)), q) ==> Get(r.value.data, q) == Get(data, q)
    ensures r.Success? ==> r.value.vars == vars
    decreases fuel, 3, 0
  {
    var current := CurrentPath(prev, entry.spec);
    var base := NodeBase(prev, current);
    var stripped := Put(data, current, rest);
    assert current == base + current[|base|..];
    ApartExtend(base, current[|base|..]);
    PutKeepsApart(data, current, rest);
    match NextOf(entry.spec)
    case None => Success(Progress(stripped, vars))
    case Some(nested) =>
      var nodes :- Subscript(rest, "nodes");
      var count :- Len(nodes).ToResult(LookupError);
      var data' :- FanOut(exec, nested, base, 0, count, vars, stripped, fuel);
      Success(Progress(data', vars))
  }

  /** The loop over nodes `i`, `i + 1`, ..., `count - 1` of a collection, in order. */
  function FanOut(exec: Executor, nested: CursorTable, base: Path, i: nat, count: nat, vars: Vars, data: Value, fuel: nat): (r: Result<Value, Error>)
    ensures r.Success? ==> forall q :: Apart(base, q) ==> Get(r.value, q) == Get(data, q)
    decreases fuel, 2, count - i
  {
    if i >= count then Success(data)
    else
      var data' :- VisitNode(exec, nested, NodePath(base, i), vars, data, fuel);
      ApartExtend(base, [Field("nodes"), Index(i)]);
      FanOut(exec, nested, base, i + 1, count, vars, data', fuel)
  }

  /** One node: skip it when no nested cursor needs work, otherwise
      depaginate the nested table below the node and weld the result in. */
  function VisitNode(exec: Executor, nested: CursorTable, nodePath: Path, vars: Vars, data: Value, fuel: nat): (r: Result<Value, Error>)
    ensures r.Success? ==> forall q :: Apart(nodePath, q) ==> Get(r.value, q) == Get(data, q)
    decreases fuel, 1, 0
  {
    var node :- Lookup(data, nodePath);
    var required :- CallRequired(nested, node);
    if !required then Success(data)
    else
      var next :- Graphql(exec, Some(nested), nodePath, vars, fuel);
      Weld(nested, nodePath, data, next)
  }

  /** The `hasNextPage` flag of a nested cursor's collection at a node, if
      the collection and its page info are there. */
  function NestedMore(e: Entry, node: Value): Option<Value>
  {
    var page :- Get(node, PathOf(e.spec));
    var info :- Member(page, "pageInfo");
    Member(info, "hasNextPage")
  }

  /** A nested cursor needs a request at a node when its collection there has
      a further page, or when it has a nested table of its own. */
  predicate NeedsWork(e: Entry, node: Value)
  {
    match NestedMore(e, node)
    case None => false
    case Some(more) => Truthy(more) || NextOf(e.spec).Some?
  }

  /** The flag a nested cursor reads at a node is what walking the spec's
      path and then `pageInfo`, `hasNextPage` from the node finds. */
  lemma NestedMoreWalksPath(e: Entry, node: Value)
    ensures NestedMore(e, node) == Get(node, PathOf(e.spec) + [Field("pageInfo"), Field("hasNextPage")])
  {
    var path := PathOf(e.spec);
    GetAppend(node, path, [Field("pageInfo"), Field("hasNextPage")]);
    if Get(node, path).Some? {
      var page := Get(node, path).value;
      assert Get(page, [Field("pageInfo"), Field("hasNextPage")])
             == (match Member(page, "pageInfo") case None => None case Some(info) => Get(info, [Field("hasNextPage")]));
    }
  }

  /** The pre-check over the nested table: every nested cursor is resolved at
      the node (so a missing one is an error even when an earlier one already
      asked for a request), and a request is required when any needs work. */
  function CallRequired(nested: CursorTable, node: Value): (r: Result<bool, Error>)
    ensures r.Success? <==> forall j :: 0 <= j < |nested| ==> NestedMore(nested[j], node).Some?
    ensures r.Failure? ==> r.error == LookupError
    ensures r.Success? ==> (r.value <==> exists j :: 0 <= j < |nested| && NeedsWork(nested[j], node))
    decreases |nested|
  {
    if |nested| == 0 then Success(false)
    else
      var more :- NestedMore(nested[0], node).ToResult(LookupError);
      var later :- CallRequired(nested[1..], node);
      Success(Truthy(more) || NextOf(nested[0].spec).Some? || later)
  }

  /** Where nested cursor `e` finds its collection below the node at `nodePath`. */
  function JoinPath(nodePath: Path, e: Entry): Path
  {
    nodePath + PathOf(e.spec)
  }

  /** A weld at `join` can be made: the tree has an object there, and the
      nested result has an object with `nodes` there. */
  predicate Weldable(data: Value, join: Path, next: Value)
  {
    && Get(data, join).Some? && Get(data, join).value.Object?
    && Get(next, join).Some? && Member(Get(next, join).value, "nodes").Some?
  }

  /** The object at `join` with its `nodes` taken from the nested result and
      every other field kept. */
  function Welded(data: Value, join: Path, next: Value): Value
    requires Weldable(data, join, next)
  {
    Object(Get(data, join).value.fields["nodes" := Member(Get(next, join).value, "nodes").value])
  }

  /** The nested cursors' collections lie in separate subtrees of a node. */
  predicate SeparateCollections(nested: CursorTable)
  {
    forall i, j :: 0 <= i < j < |nested| ==> Apart(PathOf(nested[i].spec), PathOf(nested[j].spec))
  }

  /** Replaces the `nodes` of the object at `join` by those of the nested
      result at the same path. */
  function WeldOne(data: Value, join: Path, next: Value): (r: Result<Value, Error>)
    ensures r.Success? <==> Weldable(data, join, next)
    ensures r.Failure? ==> r.error == LookupError
    ensures r.Success? ==> Get(r.value, join) == Some(Welded(data, join, next))
    ensures r.Success? ==> forall q :: Apart(join, q) ==> Get(r.value, q) == Get(data, q)
  {
    var target :- Lookup(data, join);
    var source :- Lookup(next, join);
    var nodes :- Subscript(source, "nodes");
    if !target.Object? then Failure(LookupError)
    else
      var welded := Object(target.fields["nodes" := nodes]);
      PutKeepsApart(data, join, welded);
      Success(Put(data, join, welded))
  }

  /** The weld loop: one `WeldOne` per nested cursor, in table order. It
      fails only with a lookup error and changes nothing outside the join
      paths (`WeldContents` says what it puts at them). */
  function Weld(nested: CursorTable, nodePath: Path, data: Value, next: Value): (r: Result<Value, Error>)
    ensures r.Failure? ==> r.error == LookupError
    ensures r.Success? ==>
              forall q :: (forall j :: 0 <= j < |nested| ==> Apart(JoinPath(nodePath, nested[j]), q)) ==>
                Get(r.value, q) == Get(data, q)
    ensures r.Success? ==> forall q :: Apart(nodePath, q) ==> Get(r.value, q) == Get(data, q)
    decreases |nested|
  {
    if |nested| == 0 then Success(data)
    else
      var data' :- WeldOne(data, JoinPath(nodePath, nested[0]), next);
      ApartExtend(nodePath, PathOf(nested[0].spec));
      Weld(nested[1..], nodePath, data', next)
  }

  /** When the nested collections are separate, the weld succeeds exactly
      when every join can be welded. */
  lemma {:induction false} WeldSucceeds(nested: CursorTable, nodePath: Path, data: Value, next: Value)
    requires SeparateCollections(nested)
    ensures Weld(nested, nodePath, data, next).Success? <==>
            forall j :: 0 <= j < |nested| ==> Weldable(data, JoinPath(nodePath, nested[j]), next)
    decreases |nested|
  {
    if |nested| > 0 {
      var step := WeldOne(data, JoinPath(nodePath, nested[0]), next);
      if step.Success? {
        SeparateJoins(nodePath, nested);
        WeldSucceeds(nested[1..], nodePath, step.value, next);
        WeldableKept(nested, nodePath, data, step.value, next);
      }
    }
  }

  /** A tree that agrees with `data` apart from the first join path can be
      welded at the later join paths exactly when `data` can. */
  lemma WeldableKept(nested: CursorTable, nodePath: Path, data: Value, data': Value, next: Value)
    requires |nested| > 0 && SeparateCollections(nested)
    requires forall q :: Apart(JoinPath(nodePath, nested[0]), q) ==> Get(data', q) == Get(data, q)
    ensures (forall j :: 0 <= j < |nested[1..]| ==> Weldable(data', JoinPath(nodePath, nested[1..][j]), next))
            <==> (forall j :: 1 <= j < |nested| ==> Weldable(data, JoinPath(nodePath, nested[j]), next))
  {
    SeparateJoins(nodePath, nested);
    forall j | 1 <= j < |nested|
      ensures Weldable(data', JoinPath(nodePath, nested[1..][j - 1]), next) == Weldable(data, JoinPath(nodePath, nested[j]), next)
    {
      assert nested[1..][j - 1] == nested[j];
      assert Get(data', JoinPath(nodePath, nested[j])) == Get(data, JoinPath(nodePath, nested[j]));
    }
  }

  /** When the nested collections are separate and the weld succeeds, every
      join path holds its object with the nested result's `nodes` and its
      other fields kept. */
  lemma {:induction false} WeldContents(nested: CursorTable, nodePath: Path, data: Value, next: Value)
    requires SeparateCollections(nested)
    requires Weld(nested, nodePath, data, next).Success?
    ensures forall j :: 0 <= j < |nested| ==>
              && Weldable(data, JoinPath(nodePath, nested[j]), next)
              && Get(Weld(nested, nodePath, data, next).value, JoinPath(nodePath, nested[j]))
                 == Some(Welded(data, JoinPath(nodePath, nested[j]), next))
    decreases |nested|
  {
    forall j | 0 <= j < |nested|
      ensures Weldable(data, JoinPath(nodePath, nested[j]), next)
      ensures Get(Weld(nested, nodePath, data, next).value, JoinPath(nodePath, nested[j]))
              == Some(Welded(data, JoinPath(nodePath, nested[j]), next))
    {
      WeldContentsAt(nested, nodePath, data, next, j);
    }
  }

  /** `WeldContents` at one join path: the weld of the rest of the table
      leaves the first join path alone, and the first weld leaves the later
      ones as they were. */
  lemma {:induction false} WeldContentsAt(nested: CursorTable, nodePath: Path, data: Value, next: Value, j: nat)
    requires SeparateCollections(nested)
    requires Weld(nested, nodePath, data, next).Success?
    requires j < |nested|
    ensures Weldable(data, JoinPath(nodePath, nested[j]), next)
    ensures Get(Weld(nested, nodePath, data, next).value, JoinPath(nodePath, nested[j]))
            == Some(Welded(data, JoinPath(nodePath, nested[j]), next))
    decreases j
  {
    if j == 0 {
      WeldHeadContents(nested, nodePath, data, next);
    } else {
      var join := JoinPath(nodePath, nested[j]);
      var data' := WeldOne(data, JoinPath(nodePath, nested[0]), next).value;
      SeparateJoins(nodePath, nested);
      assert nested[1..][j - 1] == nested[j];
      WeldContentsAt(nested[1..], nodePath, data', next, j - 1);
      assert Weld(nested, nodePath, data, next) == Weld(nested[1..], nodePath, data', next);
      assert Get(data', join) == Get(data, join);
    }
  }

  /** The first join path holds its welded object once the whole weld is done:
      the later welds happen apart from it. */
  lemma WeldHeadContents(nested: CursorTable, nodePath: Path, data: Value, next: Value)
    requires |nested| > 0 && SeparateCollections(nested)
    requires Weld(nested, nodePath, data, next).Success?
    ensures Weldable(data, JoinPath(nodePath, nested[0]), next)
    ensures Get(Weld(nested, nodePath, data, next).value, JoinPath(nodePath, nested[0]))
            == Some(Welded(data, JoinPath(nodePath, nested[0]), next))
  {
    var join := JoinPath(nodePath, nested[0]);
    var data' := WeldOne(data, join, next).value;
    var tail := nested[1..];
    SeparateJoins(nodePath, nested);
    assert forall j :: 0 <= j < |tail| ==> Apart(JoinPath(nodePath, tail[j]), join) by {
      forall j | 0 <= j < |tail| ensures Apart(JoinPath(nodePath, tail[j]), join) {
        assert tail[j] == nested[j + 1];
      }
    }
    assert Get(Weld(tail, nodePath, data', next).value, join) == Get(data', join);
  }

  /** Separate collections have apart join paths, and the tail of the table
      keeps its collections separate. */
  lemma SeparateJoins(nodePath: Path, nested: CursorTable)
    requires |nested| > 0 && SeparateCollections(nested)
    ensures SeparateCollections(nested[1..])
    ensures forall j :: 1 <= j < |nested| ==> Apart(JoinPath(nodePath, nested[0]), JoinPath(nodePath, nested[j]))
  {
    forall j | 1 <= j < |nested|
      ensures Apart(JoinPath(nodePath, nested[0]), JoinPath(nodePath, nested[j]))
    {
      ApartBelow(nodePath, PathOf(nested[0].spec), PathOf(nested[j].spec));
    }
  }

  /** Paths apart stay apart below a common prefix. */
  lemma ApartBelow(p: Path, a: Path, b: Path)
    requires Apart(a, b)
    ensures Apart(p + a, p + b)
  {
    PrefixCancel(p, a, b);
    PrefixCancel(p, b, a);
  }

  /** A common prefix can be cancelled from a prefix relation. */
  lemma PrefixCancel(p: Path, a: Path, b: Path)
    ensures p + a <= p + b ==> a <= b
  {
    if p + a <= p + b {
      forall k | 0 <= k < |a|
        ensures a[k] == b[k]
      {
        assert a[k] == (p + a)[|p| + k] == (p + b)[|p| + k] == b[k];
      }
    }
  }

  /** A path apart from `p` is apart from everything below `p`. */
  lemma ApartExtend(p: Path, s: Path)
    ensures forall q :: Apart(p, q) ==> Apart(p + s, q)
  {
  }

  lemma PutKeepsApart(v: Value, p: Path, w: Value)
    ensures forall q :: Apart(p, q) ==> Get(Put(v, p, w), q) == Get(v, q)
  {
    forall q | Apart(p, q)
      ensures Get(Put(v, p, w), q) == Get(v, q)
    {
      GetPutApart(v, p, q, w);
    }
  }
}
