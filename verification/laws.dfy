/** Properties of one depagination step: what the first request decides,
    how paths compose, what happens to the paginated object, when a
    follow-up request is made, and when a node is skipped. */
module DepaginationLaws {
  import opened Wrappers
  import opened Json
  import opened Cursors
  import opened Transport
  import opened Depaginate

  /** The `pageInfo` of the object at `current`, if both exist. */
  function PageInfoAt(data: Value, current: Path): Option<Value>
  {
    var obj :- Get(data, current);
    Member(obj, "pageInfo")
  }

  /** Without a cursor table (absent, or empty) the answer is the first
      response itself: nothing is fetched after it and nothing is changed. */
  lemma PassThrough(exec: Executor, cursors: Option<CursorTable>, prev: Path, vars: Vars, fuel: nat)
    requires fuel > 0
    requires cursors.None? || cursors == Some([])
    ensures Graphql(exec, cursors, prev, vars, fuel) == exec(vars)
  {
  }

  /** The first request is made with the caller's variables, and its error is
      the answer, unchanged. */
  lemma FirstErrorPropagates(exec: Executor, cursors: Option<CursorTable>, prev: Path, vars: Vars, fuel: nat)
    requires fuel > 0
    requires exec(vars).Failure?
    ensures Graphql(exec, cursors, prev, vars, fuel) == Failure(exec(vars).error)
  {
  }

  /** The paginated object sits at `prev + path` (just `path` at the top
      level); a node sits below the paginated object exactly when `prev` or
      the spec's own path is empty, since below the top level the node path
      is built from `prev` alone. */
  lemma PathComposition(prev: Path, spec: CursorSpec, i: nat)
    ensures CurrentPath(prev, spec) == prev + PathOf(spec)
    ensures var current := CurrentPath(prev, spec);
            NodePath(NodeBase(prev, current), i) == current + [Field("nodes"), Index(i)]
            <==> |prev| == 0 || |PathOf(spec)| == 0
  {
  }

  /** On the last page of a cursor without a nested table, the step only
      pops `pageInfo`: the object keeps every other field, the rest of the
      tree and the variables are unchanged, and no request is made (the
      answer is the same whatever the executor). */
  lemma LastPageOnlyStrips(exec: Executor, other: Executor, entry: Entry, prev: Path, vars: Vars, data: Value, fuel: nat)
    requires var current := CurrentPath(prev, entry.spec);
             && PageInfoAt(data, current).Some?
             && Member(PageInfoAt(data, current).value, "hasNextPage").Some?
             && !Truthy(Member(PageInfoAt(data, current).value, "hasNextPage").value)
    requires NextOf(entry.spec).None?
    ensures var current := CurrentPath(prev, entry.spec);
            var r := DepaginateCursor(exec, entry, prev, vars, data, fuel);
            && r.Success?
            && r.value.vars == vars
            && Get(r.value.data, current) == Some(Object(Get(data, current).value.fields - {"pageInfo"}))
            && (forall q :: Apart(current, q) ==> Get(r.value.data, q) == Get(data, q))
            && r == DepaginateCursor(other, entry, prev, vars, data, fuel)
  {
    var current := CurrentPath(prev, entry.spec);
    var obj := Get(data, current).value;
    var popped := PopPageInfo(obj);
    assert popped.value.1 == Object(obj.fields - {"pageInfo"});
    PutKeepsApart(data, current, popped.value.1);
  }

  /** When the page reports a next page, one follow-up request is made with
      the caller's variables plus the cursor set to `endCursor`; its error is
      the step's error, unchanged; on success the object's `nodes` are this
      page's nodes followed by the nodes of the depaginated follow-up, in that
      order, `pageInfo` is gone, every other field and the rest of the tree
      are untouched (this page's nodes get no nested depagination), and the
      cursor stays set for the cursors after this one. */
  lemma NextPageFollowed(exec: Executor, entry: Entry, prev: Path, vars: Vars, data: Value, fuel: nat, end: Value)
    requires var current := CurrentPath(prev, entry.spec);
             && PageInfoAt(data, current).Some?
             && Member(PageInfoAt(data, current).value, "hasNextPage").Some?
             && Truthy(Member(PageInfoAt(data, current).value, "hasNextPage").value)
             && Member(PageInfoAt(data, current).value, "endCursor") == Some(end)
    ensures var current := CurrentPath(prev, entry.spec);
            var vars' := vars[entry.name := end];
            var next := Graphql(exec, Some([entry]), prev, vars', fuel);
            var r := DepaginateCursor(exec, entry, prev, vars, data, fuel);
            && (fuel > 0 && exec(vars').Failure? ==> r == Failure(exec(vars').error))
            && (next.Failure? ==> r == Failure(next.error))
            && (r.Success? ==>
                  var obj := Get(data, current).value;
                  && next.Success?
                  && r.value.vars == vars'
                  && obj.fields["nodes"].Array?
                  && Get(next.value, current + [Field("nodes")]).Some?
                  && Get(next.value, current + [Field("nodes")]).value.Array?
                  && Get(r.value.data, current) ==
                     Some(Object((obj.fields - {"pageInfo"})["nodes" :=
                       Array(obj.fields["nodes"].items + Get(next.value, current + [Field("nodes")]).value.items)]))
                  && (forall q :: Apart(current, q) ==> Get(r.value.data, q) == Get(data, q)))
  {
    var current := CurrentPath(prev, entry.spec);
    var vars' := vars[entry.name := end];
    var next := Graphql(exec, Some([entry]), prev, vars', fuel);
    var r := DepaginateCursor(exec, entry, prev, vars, data, fuel);
    var obj := Get(data, current).value;
    var popped := PopPageInfo(obj);
    var rest := popped.value.1;
    assert rest == Object(obj.fields - {"pageInfo"});
    assert r == FollowNextPage(exec, entry, prev, vars, data, popped.value.0, rest, fuel);
    if r.Success? {
      assert next.Success?;
      GetAppend(next.value, current, [Field("nodes")]);
      var own := rest.fields["nodes"];
      var later := Get(next.value, current + [Field("nodes")]).value;
      var merged := Object(rest.fields["nodes" := Array(own.items + later.items)]);
      assert r.value.data == Put(data, current, merged);
      PutKeepsApart(data, current, merged);
    }
  }

  /** A node is skipped, with no request and no change, when no nested
      cursor has a further page or a nested table of its own; otherwise a
      request is made for it with the caller's variables. */
  lemma NodeSkippedIffNoWork(exec: Executor, other: Executor, nested: CursorTable, nodePath: Path, vars: Vars, data: Value, fuel: nat)
    requires Get(data, nodePath).Some?
    requires forall j :: 0 <= j < |nested| ==> NestedMore(nested[j], Get(data, nodePath).value).Some?
    ensures var node := Get(data, nodePath).value;
            (forall j :: 0 <= j < |nested| ==> !NeedsWork(nested[j], node)) ==>
              VisitNode(exec, nested, nodePath, vars, data, fuel) == Success(data) ==
              VisitNode(other, nested, nodePath, vars, data, fuel)
    ensures var node := Get(data, nodePath).value;
            (exists j :: 0 <= j < |nested| && NeedsWork(nested[j], node)) && fuel > 0 && exec(vars).Failure? ==>
              VisitNode(exec, nested, nodePath, vars, data, fuel) == Failure(exec(vars).error)
  {
  }

  /** The cursor value set for a cursor that had a next page is still set for
      every later cursor of the same table. */
  lemma LaterCursorsSeeEarlierCursor(exec: Executor, first: Entry, later: CursorTable, prev: Path, vars: Vars, data: Value, fuel: nat, end: Value)
    requires var current := CurrentPath(prev, first.spec);
             && PageInfoAt(data, current).Some?
             && Member(PageInfoAt(data, current).value, "hasNextPage").Some?
             && Truthy(Member(PageInfoAt(data, current).value, "hasNextPage").value)
             && Member(PageInfoAt(data, current).value, "endCursor") == Some(end)
    requires DepaginateCursor(exec, first, prev, vars, data, fuel).Success?
    ensures var step := DepaginateCursor(exec, first, prev, vars, data, fuel).value;
            DepaginateTable(exec, [first] + later, prev, vars, data, fuel) ==
            DepaginateTable(exec, later, prev, vars[first.name := end], step.data, fuel)
  {
  }

  /** When a follow-up page fails, the whole request fails with the same
      error and no tree. */
  lemma SecondPageErrorPropagates(exec: Executor, entry: Entry, vars: Vars, fuel: nat, end: Value)
    requires fuel > 1
    requires exec(vars).Success?
    requires var current := CurrentPath([], entry.spec);
             && PageInfoAt(exec(vars).value, current).Some?
             && Member(PageInfoAt(exec(vars).value, current).value, "hasNextPage").Some?
             && Truthy(Member(PageInfoAt(exec(vars).value, current).value, "hasNextPage").value)
             && Member(PageInfoAt(exec(vars).value, current).value, "endCursor") == Some(end)
    requires exec(vars[entry.name := end]).Failure?
    ensures Graphql(exec, Some([entry]), [], vars, fuel) == Failure(exec(vars[entry.name := end]).error)
  {
    NextPageFollowed(exec, entry, [], vars, exec(vars).value, fuel - 1, end);
  }

  /** On the last page of a top-level cursor with a nested table, the nodes
      are visited in order: when the first node needs work, a request for it
      is made with the caller's variables (not with this cursor advanced). */
  lemma NestedRequestOnLastPage(exec: Executor, entry: Entry, vars: Vars, data: Value, fuel: nat, nested: CursorTable)
    requires var current := CurrentPath([], entry.spec);
             && PageInfoAt(data, current).Some?
             && Member(PageInfoAt(data, current).value, "hasNextPage").Some?
             && !Truthy(Member(PageInfoAt(data, current).value, "hasNextPage").value)
             && "nodes" in Get(data, current).value.fields
             && Get(data, current).value.fields["nodes"].Array?
             && |Get(data, current).value.fields["nodes"].items| > 0
    requires NextOf(entry.spec) == Some(nested)
    requires var first := Get(data, CurrentPath([], entry.spec)).value.fields["nodes"].items[0];
             && (forall j :: 0 <= j < |nested| ==> NestedMore(nested[j], first).Some?)
             && (exists j :: 0 <= j < |nested| && NeedsWork(nested[j], first))
    requires fuel > 0 && exec(vars).Failure?
    ensures DepaginateCursor(exec, entry, [], vars, data, fuel) == Failure(exec(vars).error)
  {
    var current := CurrentPath([], entry.spec);
    var obj := Get(data, current).value;
    var rest := PopPageInfo(obj).value.1;
    var stripped := Put(data, current, rest);
    var nodePath := NodePath(NodeBase([], current), 0);
    GetPutBelow(data, current, [Field("nodes"), Index(0)], rest);
    var first := obj.fields["nodes"].items[0];
    assert Get(stripped, nodePath) == Some(first);
    var required := CallRequired(nested, first);
    assert required == Success(true);
    assert VisitNode(exec, nested, nodePath, vars, stripped, fuel) == Failure(exec(vars).error);
    var count := |obj.fields["nodes"].items|;
    assert FanOut(exec, nested, NodeBase([], current), 0, count, vars, stripped, fuel) == Failure(exec(vars).error);
  }

  /** After a node's nested table is depaginated, the weld replaces only the
      `nodes` of each nested collection, taking them from the nested result:
      every nested collection's other fields, `pageInfo` included, the node's
      fields outside its nested collections, and everything outside the node
      stay as they were. */
  lemma WeldReplacesOnlyNodes(exec: Executor, nested: CursorTable, nodePath: Path, vars: Vars, data: Value, fuel: nat)
    requires SeparateCollections(nested)
    requires Get(data, nodePath).Some?
    requires exists j :: 0 <= j < |nested| && NeedsWork(nested[j], Get(data, nodePath).value)
    requires VisitNode(exec, nested, nodePath, vars, data, fuel).Success?
    ensures var next := Graphql(exec, Some(nested), nodePath, vars, fuel);
            var r := VisitNode(exec, nested, nodePath, vars, data, fuel).value;
            && next.Success?
            && (forall j :: 0 <= j < |nested| ==>
                  && Weldable(data, JoinPath(nodePath, nested[j]), next.value)
                  && Get(r, JoinPath(nodePath, nested[j])) == Some(Welded(data, JoinPath(nodePath, nested[j]), next.value)))
            && (forall q :: (forall j :: 0 <= j < |nested| ==> Apart(JoinPath(nodePath, nested[j]), q)) ==>
                  Get(r, q) == Get(data, q))
  {
    var node := Get(data, nodePath).value;
    assert CallRequired(nested, node) == Success(true);
    WeldContents(nested, nodePath, data, Graphql(exec, Some(nested), nodePath, vars, fuel).value);
  }

  /** A node the pre-check passes over: it answers that no request is needed. */
  predicate Idle(nested: CursorTable, node: Value)
  {
    CallRequired(nested, node) == Success(false)
  }

  /** A node is idle exactly when every nested cursor's collection and page
      info resolve there and no nested cursor needs work. */
  lemma IdleMeansNoWork(nested: CursorTable, node: Value)
    ensures Idle(nested, node) <==>
              && (forall j :: 0 <= j < |nested| ==> NestedMore(nested[j], node).Some?)
              && (forall j :: 0 <= j < |nested| ==> !NeedsWork(nested[j], node))
  {
  }

  /** A run of idle nodes is passed over: the fan-out from the first of
      them goes on from the node after the run, with the same tree. */
  lemma {:induction false} IdleRunPassed(exec: Executor, nested: CursorTable, base: Path, i: nat, k: nat, count: nat, vars: Vars, data: Value, fuel: nat)
    requires i <= k <= count
    requires forall m :: i <= m < k ==> Get(data, NodePath(base, m)).Some? && Idle(nested, Get(data, NodePath(base, m)).value)
    ensures FanOut(exec, nested, base, i, count, vars, data, fuel) == FanOut(exec, nested, base, k, count, vars, data, fuel)
    decreases k - i
  {
    if i < k {
      IdleNodePassed(exec, nested, base, i, count, vars, data, fuel);
      IdleRunPassed(exec, nested, base, i + 1, k, count, vars, data, fuel);
    }
  }

  /** When every remaining node is idle, the fan-out makes no request and
      changes nothing: the answer is the tree itself, whatever the executor. */
  lemma IdleNodesCostNothing(exec: Executor, other: Executor, nested: CursorTable, base: Path, i: nat, count: nat, vars: Vars, data: Value, fuel: nat)
    requires i <= count
    requires forall k :: i <= k < count ==> Get(data, NodePath(base, k)).Some? && Idle(nested, Get(data, NodePath(base, k)).value)
    ensures FanOut(exec, nested, base, i, count, vars, data, fuel) == Success(data) == FanOut(other, nested, base, i, count, vars, data, fuel)
  {
    IdleRunPassed(exec, nested, base, i, count, count, vars, data, fuel);
    IdleRunPassed(other, nested, base, i, count, count, vars, data, fuel);
  }

  /** A node that needs work gets a request with the caller's variables:
      when that request fails, the fan-out from this node fails with its error. */
  lemma BusyNodeRequested(exec: Executor, nested: CursorTable, base: Path, k: nat, count: nat, vars: Vars, data: Value, fuel: nat)
    requires k < count
    requires Get(data, NodePath(base, k)).Some?
    requires forall j :: 0 <= j < |nested| ==> NestedMore(nested[j], Get(data, NodePath(base, k)).value).Some?
    requires exists j :: 0 <= j < |nested| && NeedsWork(nested[j], Get(data, NodePath(base, k)).value)
    requires fuel > 0 && exec(vars).Failure?
    ensures FanOut(exec, nested, base, k, count, vars, data, fuel) == Failure(exec(vars).error)
  {
    var node := Get(data, NodePath(base, k)).value;
    assert CallRequired(nested, node) == Success(true);
    assert VisitNode(exec, nested, NodePath(base, k), vars, data, fuel) == Failure(exec(vars).error);
  }

  /** An idle node is passed over: the fan-out goes on with the next node
      and the same tree. */
  lemma IdleNodePassed(exec: Executor, nested: CursorTable, base: Path, i: nat, count: nat, vars: Vars, data: Value, fuel: nat)
    requires i < count
    requires Get(data, NodePath(base, i)).Some? && Idle(nested, Get(data, NodePath(base, i)).value)
    ensures FanOut(exec, nested, base, i, count, vars, data, fuel) == FanOut(exec, nested, base, i + 1, count, vars, data, fuel)
  {
    var node := Get(data, NodePath(base, i)).value;
    assert CallRequired(nested, node) == Success(false);
    assert VisitNode(exec, nested, NodePath(base, i), vars, data, fuel) == Success(data);
  }

  /** Idle nodes before the first node that needs work are passed over, so
      that node's request, with the caller's variables, is the first one made:
      when it fails, the fan-out fails with its error. */
  lemma FirstBusyNodeRequested(exec: Executor, nested: CursorTable, base: Path, i: nat, k: nat, count: nat, vars: Vars, data: Value, fuel: nat)
    requires i <= k < count
    requires forall m :: i <= m < k ==> Get(data, NodePath(base, m)).Some? && Idle(nested, Get(data, NodePath(base, m)).value)
    requires Get(data, NodePath(base, k)).Some?
    requires forall j :: 0 <= j < |nested| ==> NestedMore(nested[j], Get(data, NodePath(base, k)).value).Some?
    requires exists j :: 0 <= j < |nested| && NeedsWork(nested[j], Get(data, NodePath(base, k)).value)
    requires fuel > 0 && exec(vars).Failure?
    ensures FanOut(exec, nested, base, i, count, vars, data, fuel) == Failure(exec(vars).error)
  {
    IdleRunPassed(exec, nested, base, i, k, count, vars, data, fuel);
    BusyNodeRequested(exec, nested, base, k, count, vars, data, fuel);
  }

  /** A nested query, made for one node, answers the node's first response
      changed only below the node: every path apart from `prev` resolves as
      in that response. */
  lemma NestedQueryStaysInNode(exec: Executor, nested: CursorTable, prev: Path, vars: Vars, fuel: nat)
    requires |prev| > 0
    requires Graphql(exec, Some(nested), prev, vars, fuel).Success?
    ensures exec(vars).Success?
    ensures forall q :: Apart(prev, q) ==> Get(Graphql(exec, Some(nested), prev, vars, fuel).value, q) == Get(exec(vars).value, q)
  {
  }

  /** Without a usable token the production executor sends nothing, and the
      whole query fails with the token error whatever the cursor table. */
  lemma NoTokenNoQuery(token: Option<string>, post: Vars -> Reply, cursors: Option<CursorTable>, prev: Path, vars: Vars, fuel: nat)
    requires fuel > 0
    requires token.None? || |token.value| == 0
    ensures Graphql(Production(token, post), cursors, prev, vars, fuel) == Failure(TokenError)
  {
  }

  /** Two top-level cursors on separate collections do not interfere: after
      the whole loop, the first collection's subtree is exactly what its own
      step produced. */
  lemma TopLevelCursorsDoNotInterfere(exec: Executor, e1: Entry, e2: Entry, vars: Vars, data: Value, fuel: nat)
    requires Apart(PathOf(e1.spec), PathOf(e2.spec))
    requires DepaginateTable(exec, [e1, e2], [], vars, data, fuel).Success?
    ensures var s1 := DepaginateCursor(exec, e1, [], vars, data, fuel);
            && s1.Success?
            && forall q :: PathOf(e1.spec) <= q ==>
                 Get(DepaginateTable(exec, [e1, e2], [], vars, data, fuel).value, q) == Get(s1.value.data, q)
  {
    var s1 := DepaginateCursor(exec, e1, [], vars, data, fuel);
    assert [e1, e2][0] == e1 && [e1, e2][1..] == [e2];
    assert s1.Success?;
    var s2 := DepaginateCursor(exec, e2, [], s1.value.vars, s1.value.data, fuel);
    assert [e2][1..] == [];
    assert DepaginateTable(exec, [e1, e2], [], vars, data, fuel)
        == DepaginateTable(exec, [e2], [], s1.value.vars, s1.value.data, fuel);
    assert s2.Success?;
    assert DepaginateTable(exec, [e2], [], s1.value.vars, s1.value.data, fuel) == Success(s2.value.data);
    var p1 := PathOf(e1.spec);
    forall q | p1 <= q
      ensures Get(s2.value.data, q) == Get(s1.value.data, q)
    {
      assert q == p1 + q[|p1|..];
      ApartExtend(p1, q[|p1|..]);
      assert Apart(PathOf(e2.spec), q);
    }
  }
}
