/** The concatenation law: following one cursor through a chain of pages
    yields the first page's tree with the paginated object's `nodes` replaced
    by every page's nodes, in fetch order, and its `pageInfo` removed. */
module PageChain {
  import opened Wrappers
  import opened Json
  import opened Cursors
  import opened Transport
  import opened Depaginate
  import opened DepaginationLaws

  /** The `nodes` list of the object at `current`, or nothing. */
  function NodesAt(page: Value, current: Path): seq<Value>
  {
    match Get(page, current + [Field("nodes")])
    case Some(Array(items)) => items
    case _ => []
  }

  /** Every page's nodes, in the order the pages are listed. */
  function AllNodes(pages: seq<Value>, current: Path): seq<Value>
    decreases |pages|
  {
    if |pages| == 0 then [] else NodesAt(pages[0], current) + AllNodes(pages[1..], current)
  }

  /** `page` has at `current` an object with a `nodes` list and a `pageInfo`
      saying whether a further page exists. */
  predicate WellFormedPage(page: Value, current: Path)
  {
    && Get(page, current).Some?
    && Get(page, current).value.Object?
    && "nodes" in Get(page, current).value.fields
    && Get(page, current).value.fields["nodes"].Array?
    && PageInfoAt(page, current).Some?
    && Member(PageInfoAt(page, current).value, "hasNextPage").Some?
  }

  predicate HasNextPage(page: Value, current: Path)
    requires WellFormedPage(page, current)
  {
    Truthy(Member(PageInfoAt(page, current).value, "hasNextPage").value)
  }

  /** `pages` is what the server answers for cursor `name`: the first page
      for `vars`, and each later page for the variables with `name` set to
      the previous page's `endCursor`; every page but the last reports a
      further page. */
  ghost predicate Chain(exec: Executor, name: string, current: Path, vars: Vars, pages: seq<Value>)
    decreases |pages|
  {
    && |pages| > 0
    && exec(vars) == Success(pages[0])
    && WellFormedPage(pages[0], current)
    && if |pages| == 1 then !HasNextPage(pages[0], current)
       else
         && HasNextPage(pages[0], current)
         && Member(PageInfoAt(pages[0], current).value, "endCursor").Some?
         && Chain(exec, name, current,
                  vars[name := Member(PageInfoAt(pages[0], current).value, "endCursor").value], pages[1..])
  }

  /** The merged object: the first page's object without `pageInfo`, holding all nodes. */
  function Merged(pages: seq<Value>, current: Path): Value
    requires |pages| > 0 && WellFormedPage(pages[0], current)
  {
    Object((Get(pages[0], current).value.fields - {"pageInfo"})["nodes" := Array(AllNodes(pages, current))])
  }

  lemma NodesAtWellFormed(page: Value, current: Path)
    requires WellFormedPage(page, current)
    ensures NodesAt(page, current) == Get(page, current).value.fields["nodes"].items
  {
    GetAppend(page, current, [Field("nodes")]);
  }

  /** The `endCursor` of the first page, which the second request carries. */
  function NextCursor(pages: seq<Value>, current: Path): Value
    requires |pages| > 0 && PageInfoAt(pages[0], current).Some?
    requires Member(PageInfoAt(pages[0], current).value, "endCursor").Some?
  {
    Member(PageInfoAt(pages[0], current).value, "endCursor").value
  }

  /** A cursor without a nested table, followed through any chain of pages
      within the fuel, answers the first page with the merged object in place. */
  lemma {:induction false} ConcatenationLaw(exec: Executor, entry: Entry, prev: Path, vars: Vars, pages: seq<Value>, fuel: nat)
    requires NextOf(entry.spec).None?
    requires Chain(exec, entry.name, CurrentPath(prev, entry.spec), vars, pages)
    requires fuel >= |pages|
    ensures var current := CurrentPath(prev, entry.spec);
            Graphql(exec, Some([entry]), prev, vars, fuel) == Success(Put(pages[0], current, Merged(pages, current)))
    decreases |pages|
  {
    if |pages| == 1 {
      ConcatenationOnePage(exec, entry, prev, vars, pages, fuel);
    } else {
      var current := CurrentPath(prev, entry.spec);
      ConcatenationLaw(exec, entry, prev, vars[entry.name := NextCursor(pages, current)], pages[1..], fuel - 1);
      assert pages[1..][0] == pages[1];
      ConcatenationStep(exec, entry, prev, vars, pages, fuel);
    }
  }

  /** A chain of one page: the page's object only loses its `pageInfo`. */
  lemma ConcatenationOnePage(exec: Executor, entry: Entry, prev: Path, vars: Vars, pages: seq<Value>, fuel: nat)
    requires NextOf(entry.spec).None?
    requires Chain(exec, entry.name, CurrentPath(prev, entry.spec), vars, pages)
    requires |pages| == 1 && fuel >= 1
    ensures var current := CurrentPath(prev, entry.spec);
            Graphql(exec, Some([entry]), prev, vars, fuel) == Success(Put(pages[0], current, Merged(pages, current)))
  {
    var current := CurrentPath(prev, entry.spec);
    var page := pages[0];
    var obj := Get(page, current).value;
    NodesAtWellFormed(page, current);
    assert [entry][1..] == [];
    LastPageOnlyStrips(exec, exec, entry, prev, vars, page, fuel - 1);
    var r := DepaginateCursor(exec, entry, prev, vars, page, fuel - 1);
    assert AllNodes(pages, current) == obj.fields["nodes"].items;
    assert Merged(pages, current) == Object(obj.fields - {"pageInfo"});
    assert r.value.data == Put(page, current, Object(obj.fields - {"pageInfo"})) by {
      var popped := PopPageInfo(obj);
      assert popped.value.1 == Object(obj.fields - {"pageInfo"});
    }
    assert DepaginateTable(exec, [entry], prev, vars, page, fuel - 1) == Success(r.value.data);
  }

  /** One more page in front of a chain: its nodes come first, followed by
      the merged nodes of the rest of the chain. */
  lemma ConcatenationStep(exec: Executor, entry: Entry, prev: Path, vars: Vars, pages: seq<Value>, fuel: nat)
    requires NextOf(entry.spec).None?
    requires Chain(exec, entry.name, CurrentPath(prev, entry.spec), vars, pages)
    requires |pages| > 1 && fuel >= |pages|
    requires WellFormedPage(pages[1], CurrentPath(prev, entry.spec))
    requires var current := CurrentPath(prev, entry.spec);
             Graphql(exec, Some([entry]), prev, vars[entry.name := NextCursor(pages, current)], fuel - 1)
             == Success(Put(pages[1], current, Merged(pages[1..], current)))
    ensures var current := CurrentPath(prev, entry.spec);
            Graphql(exec, Some([entry]), prev, vars, fuel) == Success(Put(pages[0], current, Merged(pages, current)))
  {
    var current := CurrentPath(prev, entry.spec);
    var page := pages[0];
    var obj := Get(page, current).value;
    NodesAtWellFormed(page, current);
    assert [entry][1..] == [];
    var end := NextCursor(pages, current);
    var vars' := vars[entry.name := end];
    var next := Graphql(exec, Some([entry]), prev, vars', fuel - 1);
    assert Get(next.value, current) == Some(Merged(pages[1..], current));
    GetAppend(next.value, current, [Field("nodes")]);
    assert Get(next.value, current + [Field("nodes")]) == Some(Array(AllNodes(pages[1..], current)));
    NextPageFollowed(exec, entry, prev, vars, page, fuel - 1, end);
    var r := DepaginateCursor(exec, entry, prev, vars, page, fuel - 1);
    var popped := PopPageInfo(obj);
    var rest := popped.value.1;
    assert rest == Object(obj.fields - {"pageInfo"});
    var merged := Object(rest.fields["nodes" := Array(obj.fields["nodes"].items + AllNodes(pages[1..], current))]);
    assert merged == Merged(pages, current);
    assert r == Success(Progress(Put(page, current, merged), vars'));
    assert DepaginateTable(exec, [entry], prev, vars, page, fuel - 1) == Success(r.value.data);
  }

  /** The worked example: a first page with two items and a next cursor
      `c1`, and a second page with one item, merge into one list of three
      items with no `pageInfo`. */
  function Item(id: int): Value
  {
    Object(map["id" := Int(id)])
  }

  function ItemsPage(more: bool, end: Value, nodes: seq<Value>): Value
  {
    Object(map["items" := Object(map[
      "pageInfo" := Object(map["hasNextPage" := Bool(more), "endCursor" := end]),
      "nodes" := Array(nodes)])])
  }

  function FirstPage(): Value
  {
    ItemsPage(true, Str("c1"), [Item(1), Item(2)])
  }

  function SecondPage(): Value
  {
    ItemsPage(false, Null, [Item(3)])
  }

  /** A server answering `SecondPage` for cursor `c1` and `FirstPage` otherwise. */
  function ExampleServer(vars: Vars): Result<Value, Error>
  {
    if "cursor" in vars && vars["cursor"] == Str("c1") then Success(SecondPage()) else Success(FirstPage())
  }

  lemma ExampleIsChain()
    ensures Chain(ExampleServer, "cursor", [Field("items")], map[], [FirstPage(), SecondPage()])
  {
    var current := [Field("items")];
    var v1: Vars := map[];
    var v2: Vars := map["cursor" := Str("c1")];
    assert v1["cursor" := Str("c1")] == v2;
    assert WellFormedPage(SecondPage(), current);
    assert WellFormedPage(FirstPage(), current);
    assert Chain(ExampleServer, "cursor", current, v2, [SecondPage()]);
    assert [FirstPage(), SecondPage()][1..] == [SecondPage()];
  }

  lemma ExampleMerged()
    ensures Put(FirstPage(), [Field("items")], Merged([FirstPage(), SecondPage()], [Field("items")]))
            == Object(map["items" := Object(map["nodes" := Array([Item(1), Item(2), Item(3)])])])
  {
    var current := [Field("items")];
    var p1 := FirstPage();
    var p2 := SecondPage();
    NodesAtWellFormed(p1, current);
    NodesAtWellFormed(p2, current);
    assert [p2][1..] == [];
    assert AllNodes([p2], current) == [Item(3)];
    assert [p1, p2][1..] == [p2];
    assert AllNodes([p1, p2], current) == [Item(1), Item(2)] + [Item(3)];
    assert [Item(1), Item(2)] + [Item(3)] == [Item(1), Item(2), Item(3)];
    var fields1 := p1.fields["items"].fields;
    assert Get(p1, current) == Some(p1.fields["items"]);
    assert fields1 - {"pageInfo"} == map["nodes" := Array([Item(1), Item(2)])];
    assert (fields1 - {"pageInfo"})["nodes" := Array([Item(1), Item(2), Item(3)])]
        == map["nodes" := Array([Item(1), Item(2), Item(3)])];
    var merged := Merged([p1, p2], current);
    assert merged == Object(map["nodes" := Array([Item(1), Item(2), Item(3)])]);
    assert p1.fields["items" := merged] == map["items" := merged];
  }

  /** Two pages of one cursor merge into one list of three items, with no `pageInfo` left. */
  lemma TwoPageExample(fuel: nat)
    requires fuel >= 2
    ensures Graphql(ExampleServer, Some([Entry("cursor", Spec([Field("items")], NoNext))]), [], map[], fuel)
            == Success(Object(map["items" := Object(map["nodes" := Array([Item(1), Item(2), Item(3)])])]))
  {
    ExampleIsChain();
    ConcatenationLaw(ExampleServer, Entry("cursor", Spec([Field("items")], NoNext)), [], map[], [FirstPage(), SecondPage()], fuel);
    ExampleMerged();
  }
}
