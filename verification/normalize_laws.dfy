/** Shorthand specs change nothing: the depaginator reads every spec through
    `Normalize`, so two cursor tables that normalise to the same table give
    the same answer, and a bare path list behaves as its `{"path": ...}` dict. */
module NormalizationLaws {
  import opened Wrappers
  import opened Json
  import opened Cursors
  import opened Transport
  import opened Depaginate

  /** Two specs that normalise alike have the same path, and nested tables
      that normalise alike. */
  lemma SameCanonSpec(s1: CursorSpec, s2: CursorSpec)
    requires Canon(s1) == Canon(s2)
    ensures PathOf(s1) == PathOf(s2)
    ensures NextOf(s1).Some? <==> NextOf(s2).Some?
    ensures NextOf(s1).Some? ==> CanonTable(NextOf(s1).value) == CanonTable(NextOf(s2).value)
  {
    if NextOf(s1).Some? {
      CanonNext(s1);
      CanonNext(s2);
    }
  }

  lemma SameCanonTable(t1: CursorTable, t2: CursorTable)
    requires CanonTable(t1) == CanonTable(t2)
    requires |t1| > 0
    ensures |t2| > 0
    ensures t1[0].name == t2[0].name && Canon(t1[0].spec) == Canon(t2[0].spec)
    ensures CanonTable(t1[1..]) == CanonTable(t2[1..])
  {
    assert |CanonTable(t1)| == |t1|;
    assert CanonTable(t1)[0] == CanonTable(t2)[0];
    CanonTableCons(t1);
    CanonTableCons(t2);
  }

  lemma {:induction false} CallRequiredRespectsCanon(n1: CursorTable, n2: CursorTable, node: Value)
    requires CanonTable(n1) == CanonTable(n2)
    ensures CallRequired(n1, node) == CallRequired(n2, node)
    decreases |n1|
  {
    if |n1| > 0 {
      SameCanonTable(n1, n2);
      SameCanonSpec(n1[0].spec, n2[0].spec);
      CallRequiredRespectsCanon(n1[1..], n2[1..], node);
    } else {
      assert |CanonTable(n2)| == 0;
    }
  }

  lemma {:induction false} WeldRespectsCanon(n1: CursorTable, n2: CursorTable, nodePath: Path, data: Value, next: Value)
    requires CanonTable(n1) == CanonTable(n2)
    ensures Weld(n1, nodePath, data, next) == Weld(n2, nodePath, data, next)
    decreases |n1|
  {
    if |n1| > 0 {
      SameCanonTable(n1, n2);
      SameCanonSpec(n1[0].spec, n2[0].spec);
      assert JoinPath(nodePath, n1[0]) == JoinPath(nodePath, n2[0]);
      var step := WeldOne(data, JoinPath(nodePath, n1[0]), next);
      if step.Success? {
        WeldRespectsCanon(n1[1..], n2[1..], nodePath, step.value, next);
        assert Weld(n1, nodePath, data, next) == Weld(n1[1..], nodePath, step.value, next);
      }
    } else {
      assert |CanonTable(n2)| == 0;
    }
  }

  /** The request with table `c1` and with table `c2` agree when the tables
      normalise alike. */
  lemma {:induction false} GraphqlRespectsCanon(exec: Executor, c1: Option<CursorTable>, c2: Option<CursorTable>, prev: Path, vars: Vars, fuel: nat)
    requires c1.None? <==> c2.None?
    requires c1.Some? ==> CanonTable(c1.value) == CanonTable(c2.value)
    ensures Graphql(exec, c1, prev, vars, fuel) == Graphql(exec, c2, prev, vars, fuel)
    decreases fuel, 0, 0
  {
    if fuel > 0 && exec(vars).Success? && c1.Some? {
      TableRespectsCanon(exec, c1.value, c2.value, prev, vars, exec(vars).value, fuel - 1);
    }
  }

  lemma {:induction false} TableRespectsCanon(exec: Executor, t1: CursorTable, t2: CursorTable, prev: Path, vars: Vars, data: Value, fuel: nat)
    requires CanonTable(t1) == CanonTable(t2)
    ensures DepaginateTable(exec, t1, prev, vars, data, fuel) == DepaginateTable(exec, t2, prev, vars, data, fuel)
    decreases fuel, 5, |t1|
  {
    if |t1| > 0 {
      SameCanonTable(t1, t2);
      CursorRespectsCanon(exec, t1[0], t2[0], prev, vars, data, fuel);
      var step := DepaginateCursor(exec, t1[0], prev, vars, data, fuel);
      if step.Success? {
        TableRespectsCanon(exec, t1[1..], t2[1..], prev, step.value.vars, step.value.data, fuel);
      }
    } else {
      assert |CanonTable(t2)| == 0;
    }
  }

  lemma {:induction false} CursorRespectsCanon(exec: Executor, e1: Entry, e2: Entry, prev: Path, vars: Vars, data: Value, fuel: nat)
    requires e1.name == e2.name && Canon(e1.spec) == Canon(e2.spec)
    ensures DepaginateCursor(exec, e1, prev, vars, data, fuel) == DepaginateCursor(exec, e2, prev, vars, data, fuel)
    decreases fuel, 4, 0
  {
    SameCanonSpec(e1.spec, e2.spec);
    var obj := Get(data, CurrentPath(prev, e1.spec));
    if obj.Some? && PopPageInfo(obj.value).Success? {
      var popped := PopPageInfo(obj.value).value;
      FollowRespectsCanon(exec, e1, e2, prev, vars, data, popped.0, popped.1, fuel);
      LastPageRespectsCanon(exec, e1, e2, prev, vars, data, popped.1, fuel);
    }
    CursorDeterminedByBranches(exec, e1, e2, prev, vars, data, fuel);
  }

  /** A cursor step depends on the entry only through its path and the two
      branches it may take. */
  lemma CursorDeterminedByBranches(exec: Executor, e1: Entry, e2: Entry, prev: Path, vars: Vars, data: Value, fuel: nat)
    requires PathOf(e1.spec) == PathOf(e2.spec)
    requires var obj := Get(data, CurrentPath(prev, e1.spec));
             obj.Some? && PopPageInfo(obj.value).Success? ==>
               var popped := PopPageInfo(obj.value).value;
               && FollowNextPage(exec, e1, prev, vars, data, popped.0, popped.1, fuel)
                  == FollowNextPage(exec, e2, prev, vars, data, popped.0, popped.1, fuel)
               && FinishLastPage(exec, e1, prev, vars, data, popped.1, fuel)
                  == FinishLastPage(exec, e2, prev, vars, data, popped.1, fuel)
    ensures DepaginateCursor(exec, e1, prev, vars, data, fuel) == DepaginateCursor(exec, e2, prev, vars, data, fuel)
  {
  }

  /** One-entry tables of entries that normalise alike normalise alike. */
  lemma SingletonCanon(e1: Entry, e2: Entry)
    requires e1.name == e2.name && Canon(e1.spec) == Canon(e2.spec)
    ensures CanonTable([e1]) == CanonTable([e2])
  {
    assert CanonTable([e1])[0] == CanonTable([e2])[0];
  }

  /** The branch of a cursor step that follows a next page. */
  lemma {:induction false} FollowRespectsCanon(exec: Executor, e1: Entry, e2: Entry, prev: Path, vars: Vars, data: Value, info: Value, rest: Value, fuel: nat)
    requires e1.name == e2.name && Canon(e1.spec) == Canon(e2.spec)
    requires PathOf(e1.spec) == PathOf(e2.spec)
    ensures FollowNextPage(exec, e1, prev, vars, data, info, rest, fuel) == FollowNextPage(exec, e2, prev, vars, data, info, rest, fuel)
    decreases fuel, 3, 0
  {
    var cursor := Member(info, "endCursor");
    if cursor.Some? {
      SingletonCanon(e1, e2);
      GraphqlRespectsCanon(exec, Some([e1]), Some([e2]), prev, vars[e1.name := cursor.value], fuel);
    }
    FollowDeterminedByNext(exec, e1, e2, prev, vars, data, info, rest, fuel);
  }

  /** Following a next page depends on the entry only through its name, its
      path and the follow-up request's answer. */
  lemma FollowDeterminedByNext(exec: Executor, e1: Entry, e2: Entry, prev: Path, vars: Vars, data: Value, info: Value, rest: Value, fuel: nat)
    requires e1.name == e2.name && PathOf(e1.spec) == PathOf(e2.spec)
    requires Member(info, "endCursor").Some? ==>
               var vars' := vars[e1.name := Member(info, "endCursor").value];
               Graphql(exec, Some([e1]), prev, vars', fuel) == Graphql(exec, Some([e2]), prev, vars', fuel)
    ensures FollowNextPage(exec, e1, prev, vars, data, info, rest, fuel) == FollowNextPage(exec, e2, prev, vars, data, info, rest, fuel)
  {
  }

  /** The branch of a cursor step on a last page. */
  lemma {:induction false} LastPageRespectsCanon(exec: Executor, e1: Entry, e2: Entry, prev: Path, vars: Vars, data: Value, rest: Value, fuel: nat)
    requires e1.name == e2.name && Canon(e1.spec) == Canon(e2.spec)
    requires PathOf(e1.spec) == PathOf(e2.spec)
    requires NextOf(e1.spec).Some? <==> NextOf(e2.spec).Some?
    requires NextOf(e1.spec).Some? ==> CanonTable(NextOf(e1.spec).value) == CanonTable(NextOf(e2.spec).value)
    ensures FinishLastPage(exec, e1, prev, vars, data, rest, fuel) == FinishLastPage(exec, e2, prev, vars, data, rest, fuel)
    decreases fuel, 3, 0
  {
    var current := CurrentPath(prev, e1.spec);
    if NextOf(e1.spec).Some? {
      var nodes := Member(rest, "nodes");
      if nodes.Some? && Len(nodes.value).Some? {
        FanOutRespectsCanon(exec, NextOf(e1.spec).value, NextOf(e2.spec).value, NodeBase(prev, current),
                            0, Len(nodes.value).value, vars, Put(data, current, rest), fuel);
      }
    }
  }

  lemma {:induction false} FanOutRespectsCanon(exec: Executor, n1: CursorTable, n2: CursorTable, base: Path, i: nat, count: nat, vars: Vars, data: Value, fuel: nat)
    requires CanonTable(n1) == CanonTable(n2)
    ensures FanOut(exec, n1, base, i, count, vars, data, fuel) == FanOut(exec, n2, base, i, count, vars, data, fuel)
    decreases fuel, 2, count - i
  {
    if i < count {
      VisitRespectsCanon(exec, n1, n2, NodePath(base, i), vars, data, fuel);
      var r := VisitNode(exec, n1, NodePath(base, i), vars, data, fuel);
      if r.Success? {
        FanOutRespectsCanon(exec, n1, n2, base, i + 1, count, vars, r.value, fuel);
      }
    }
  }

  lemma {:induction false} VisitRespectsCanon(exec: Executor, n1: CursorTable, n2: CursorTable, nodePath: Path, vars: Vars, data: Value, fuel: nat)
    requires CanonTable(n1) == CanonTable(n2)
    ensures VisitNode(exec, n1, nodePath, vars, data, fuel) == VisitNode(exec, n2, nodePath, vars, data, fuel)
    decreases fuel, 1, 0
  {
    var node := Get(data, nodePath);
    if node.Some? {
      CallRequiredRespectsCanon(n1, n2, node.value);
      GraphqlRespectsCanon(exec, Some(n1), Some(n2), nodePath, vars, fuel);
      var next := Graphql(exec, Some(n1), nodePath, vars, fuel);
      if next.Success? {
        WeldRespectsCanon(n1, n2, nodePath, data, next.value);
      }
    }
  }

  /** Normalising the whole table up front, as a pure function, gives the
      same answer as the lazy, spec-by-spec normalisation of the loop. */
  lemma NormalizationInvariant(exec: Executor, t: CursorTable, prev: Path, vars: Vars, fuel: nat)
    ensures Graphql(exec, Some(t), prev, vars, fuel) == Graphql(exec, Some(CanonTable(t)), prev, vars, fuel)
  {
    CanonTableIdempotent(t);
    GraphqlRespectsCanon(exec, Some(t), Some(CanonTable(t)), prev, vars, fuel);
  }

  /** A bare path list and the dict holding it as its `path` give identical results. */
  lemma BareAndDictAgree(exec: Executor, name: string, p: Path, prev: Path, vars: Vars, fuel: nat)
    ensures Graphql(exec, Some([Entry(name, Bare(p))]), prev, vars, fuel)
         == Graphql(exec, Some([Entry(name, Spec(p, NoNext))]), prev, vars, fuel)
  {
    BareIsShorthand(p);
    assert CanonTable([Entry(name, Bare(p))]) == CanonTable([Entry(name, Spec(p, NoNext))]);
    GraphqlRespectsCanon(exec, Some([Entry(name, Bare(p))]), Some([Entry(name, Spec(p, NoNext))]), prev, vars, fuel);
  }
}
