# Depagination of GitHub GraphQL queries, in Dafny

This project models the depagination core of `graphql` in
`src/githubgql.py`. One GraphQL query is run and then, for every cursor
of a cursor table, the pages of each paginated collection are followed
and merged into one result tree. The model covers:

- the cursor specs, which may be bare path lists or
  `{"path": ..., "next": ...}` dicts, and their normalisation;
- path resolution (`current_path`, and the node paths of the nested fan-out);
- the page loop: `pageInfo` is popped and, while `hasNextPage` holds, the
  query is re-run with the cursor variable set to `endCursor`, and the
  `nodes` are appended;
- the nested fan-out over the nodes, with its pre-check that skips nodes
  needing no request;
- the weld of nested `nodes` back into the tree.

The HTTP request is an abstract executor, `Vars -> Result<Value, Error>`.
Its three exceptions (`TokenError`, `HTTPError`, `GraphQLError`) are error
variants that propagate unchanged, because the source has no `try`.
`Transport.Respond` models the order of the checks the request makes
(token first, then status, then `errors`, then `data`), with the HTTP
round trip as a parameter.

Layout:

- `wrappers.dfy`: `Option` and `Result`, usable with `:-`.
- `json.dfy`: the result tree `Value`, and paths of field and index steps
  with `Get` (walk a path) and `Put` (assign at the end of a path), plus
  their laws.
- `cursors.dfy`: `CursorSpec`, `Entry`, `CursorTable`, one-level
  `Normalize`, and deep `Canon`/`CanonTable`.
- `transport.dfy`: errors, variables, the executor type and `Respond`.
- `depaginate.dfy`: `Graphql`, `DepaginateTable`, `DepaginateCursor` (with
  its two branches `FollowNextPage` and `FinishLastPage`), `FanOut`, `VisitNode`, `CallRequired`, `WeldOne`, `Weld`. These are
  mutually recursive on `fuel` (one unit per executor call).
- `laws.dfy`, `chain.dfy`, `normalize_laws.dfy`: the properties.

Behaviour kept as the code has it:

- Only the call whose own page reports no further page fans out (line 165).
  In a chain of pages, only the last page's nodes get nested
  depagination. `DepaginationLaws.NextPageFollowed` states that this
  page's nodes are carried over verbatim.
- Below the top level, a node path is `prev_path + ["nodes", i]`, without
  the spec's own path (lines 167-172). `DepaginationLaws.PathComposition`
  states when this differs from `current_path + ["nodes", i]`.
- The follow-up request gets `{c: spec}`, including the spec's `next`
  table (line 158).
- A cursor value set by one cursor stays set for the later cursors of the
  same loop (line 157).
- The weld copies only `nodes` (line 212). Nested collections therefore
  keep their `pageInfo`, and skipped nodes keep it as well. This holds even
  though the comment at lines 105-106 says `pageInfo` is removed from the
  result.
- Normalisation is lazy. A spec is wrapped when the loop reaches it
  (lines 143-146, 185-188). `NormalizationLaws.NormalizationInvariant`
  proves that normalising the whole table up front gives the same answer.

## Model

| member | source | states |
|---|---|---|
| Json.Put | src/githubgql.py:207-212 | assigning at the end of a path that resolves makes that path resolve to the new value; a path that does not resolve leaves the tree unchanged |
| Json.GetAppend | src/githubgql.py:147-153 | walking `prev_path + path` is walking `prev_path` and then `path` from where it ends |
| Json.GetPrefix | src/githubgql.py:151-153 | a path resolves only when every prefix of it resolves: the walk fails at the first step that names nothing |
| Json.TruthyMeansNonEmpty | src/githubgql.py:156 | a flag counts as true exactly when it is `true`, a non-zero number, or a non-empty string, list or object; `null` never does |
| Json.GetPutApart | src/githubgql.py:207-212 | an assignment at one path leaves every path apart from it (neither a prefix of the other) resolving as before |
| Cursors.Normalize | src/githubgql.py:143-146 | a bare list becomes a dict spec with that path and no nested table; a dict spec is unchanged |
| Cursors.CanonIdempotent | src/githubgql.py:185-188 | normalising a spec and all its nested specs twice is the same as once |
| Cursors.CanonTableIdempotent | src/githubgql.py:141-146 | normalising a whole cursor table is idempotent |
| Cursors.CanonFixesCanonical | src/githubgql.py:143-146 | a spec already in dict form at every level is left unchanged by normalisation |
| Transport.Respond | src/githubgql.py:112-136 | a request succeeds exactly when the token is non-empty, the status is 200, and the body is an object with `data` and without `errors`; the answer is then `data`; a missing or empty token gives `TokenError`; with a token, a non-200 status gives `HTTPError` with that status and body; with status 200, an `errors` member gives `GraphQLError` with its value; a body with neither `errors` nor `data` is a lookup error |
| Depaginate.Graphql | src/githubgql.py:107-141 | an answer exists only when the first request, made with the caller's variables, succeeded |
| Depaginate.DepaginateTable | src/githubgql.py:141-213 | below the top level (a non-empty `prev_path`), the whole cursor loop changes nothing apart from `prev_path` |
| Depaginate.DepaginateCursor | src/githubgql.py:147-212 | one cursor step changes the tree only below the paginated object at the top level, and only below `prev_path` further down; every other variable keeps its value, and at most the cursor's own variable is added |
| Depaginate.FollowNextPage | src/githubgql.py:156-162 | a follow-up succeeds only when the page info has `endCursor` and the object has a `nodes` list; the variables are then the caller's with the cursor set to `endCursor`, and nothing apart from the paginated object changes |
| Depaginate.FinishLastPage | src/githubgql.py:165-212 | the last page's step keeps the variables unchanged and changes nothing outside the node base |
| Depaginate.PopPageInfo | src/githubgql.py:155 | popping succeeds exactly when the object has `pageInfo`; it returns that value and the object without that key, with every other field unchanged |
| Depaginate.CallRequired | src/githubgql.py:183-198 | the pre-check succeeds exactly when every nested cursor's `pageInfo.hasNextPage` resolves at the node; it answers true exactly when some nested cursor has a further page or a nested table of its own |
| Depaginate.NestedMoreWalksPath | src/githubgql.py:189-194 | the flag a nested cursor reads at a node is what walking its path, then `pageInfo` and `hasNextPage`, from the node finds |
| Depaginate.WeldOne | src/githubgql.py:204-212 | one weld succeeds exactly when the tree has an object at the join path and the nested result has a value with `nodes` there; that object then has its `nodes` replaced by the nested result's, all its other fields (`pageInfo` included) kept, and the tree apart from the join path unchanged; otherwise it is a lookup error |
| Depaginate.Weld | src/githubgql.py:204-212 | welding a node's nested cursors fails only with a lookup error; it changes nothing apart from all the join paths, and nothing outside the node's subtree |
| Depaginate.WeldSucceeds | src/githubgql.py:204-212 | when the nested collections are separate, the weld succeeds exactly when every join path can be welded |
| Depaginate.WeldContents | src/githubgql.py:204-212 | when the nested collections are separate and the weld succeeds, every join path holds its original object with `nodes` taken from the nested result and every other field kept |
| Depaginate.WeldContentsAt | src/githubgql.py:204-212 | the same at one join path: when the nested collections are separate and the weld succeeds, join path `j` could be welded and holds its original object with `nodes` taken from the nested result |
| Depaginate.VisitNode | src/githubgql.py:179-212 | visiting one node changes nothing outside that node's subtree |
| Depaginate.FanOut | src/githubgql.py:166-172 | the fan-out over the nodes changes nothing outside the subtree of the node base |
| DepaginationLaws.PassThrough | src/githubgql.py:139-141 | with no cursor table, or an empty one, the answer is exactly the first executor response |
| DepaginationLaws.FirstErrorPropagates | src/githubgql.py:128-135 | an error from the first request is the answer, unchanged |
| DepaginationLaws.PathComposition | src/githubgql.py:147-172 | the paginated object is at `prev_path + path`; node `i` is at `current_path + ["nodes", i]` exactly when `prev_path` or the spec's path is empty |
| DepaginationLaws.LastPageOnlyStrips | src/githubgql.py:155-165 | on a last page without a nested table, the step succeeds, removes only `pageInfo` from the object, leaves the rest of the tree and the variables unchanged, and makes no request |
| DepaginationLaws.NextPageFollowed | src/githubgql.py:155-162 | when `hasNextPage` holds, the follow-up request uses the variables with the cursor set to `endCursor`, and its error propagates unchanged; on success `nodes` is this page's nodes followed by the follow-up's merged nodes, `pageInfo` is gone, other fields and the rest of the tree are unchanged, and the cursor stays set |
| DepaginationLaws.IdleMeansNoWork | src/githubgql.py:183-198 | the pre-check answers that no request is needed exactly when every nested cursor's flag resolves at the node and none has a further page or a nested table |
| DepaginationLaws.IdleRunPassed | src/githubgql.py:166-199 | a run of nodes needing no request is passed over: the fan-out goes on after the run with the same tree |
| DepaginationLaws.IdleNodesCostNothing | src/githubgql.py:166-199 | when no remaining node needs a request, the fan-out returns the tree unchanged, whatever the executor answers |
| DepaginationLaws.FirstBusyNodeRequested | src/githubgql.py:166-201 | nodes before the first node that needs work are passed over, and that node's request goes out with the caller's variables: an executor failing there makes the fan-out fail with that error |
| DepaginationLaws.NodeSkippedIffNoWork | src/githubgql.py:183-201 | a node is skipped, with no request and no change, when no nested cursor has a further page or a nested table; otherwise a request is made for it with the caller's variables |
| DepaginationLaws.LaterCursorsSeeEarlierCursor | src/githubgql.py:157-158 | after a cursor that followed a next page, the later cursors of the table run with that cursor's variable set |
| DepaginationLaws.SecondPageErrorPropagates | src/githubgql.py:156-158 | if the second-page request fails, the whole request fails with the identical error and no tree |
| DepaginationLaws.NestedRequestOnLastPage | src/githubgql.py:165-201 | on the last page of a top-level cursor with a nested table, a first node that needs work triggers a request with the caller's variables |
| DepaginationLaws.WeldReplacesOnlyNodes | src/githubgql.py:200-212 | for any nested table whose collections are separate, after a node's nested request, every nested collection's `nodes` come from the nested result; its other fields, `pageInfo` included, and every path apart from all the nested collections are unchanged |
| DepaginationLaws.NestedQueryStaysInNode | src/githubgql.py:147-213 | a nested query made for one node answers its first response changed only below that node |
| DepaginationLaws.NoTokenNoQuery | src/githubgql.py:115-122 | with the production executor and no usable token, the whole call fails with `TokenError`, whatever the cursor table |
| DepaginationLaws.TopLevelCursorsDoNotInterfere | src/githubgql.py:141-213 | for two top-level cursors on separate collections, the first collection's subtree in the final tree is exactly what its own step produced |
| PageChain.ConcatenationLaw | src/githubgql.py:155-162 | for a cursor without a nested table, following it through any chain of pages within the fuel gives the first page's tree, with the object's `nodes` equal to all pages' nodes concatenated in fetch order and its `pageInfo` removed |
| PageChain.ConcatenationOnePage | src/githubgql.py:155-165 | a chain of one page leaves that page's tree with only `pageInfo` removed from the object |
| PageChain.ConcatenationStep | src/githubgql.py:155-162 | a page in front of a chain contributes its own nodes first, followed by the merged nodes of the rest |
| PageChain.TwoPageExample | src/githubgql.py:155-162 | a two-item first page with cursor `c1` and a one-item second page merge into one three-item list with no `pageInfo` |
| NormalizationLaws.GraphqlRespectsCanon | src/githubgql.py:141-147 | two cursor tables that normalise to the same table give the same answer |
| NormalizationLaws.NormalizationInvariant | src/githubgql.py:143-146 | normalising the whole table up front gives the same answer as the lazy normalisation |
| NormalizationLaws.BareAndDictAgree | src/githubgql.py:143-146 | a bare path list and `{"path": list}` give identical results |

## Left out

- The `PROJECTS` and `COLUMNS` tables (src/githubgql.py:8-38) are static data with no logic.
- The environment lookups for the URL and the token, header construction, `query.strip()`, `json.dumps`, `requests.post` and `reply.json()` are I/O and library calls. The executor is a parameter, and `Transport.Respond` takes the HTTP round trip as a function.
- Termination of the page loop depends on the server. Each executor call consumes one unit of `fuel`, and running out gives `OutOfFuel`. The source has no such bound, so a chain longer than the fuel is not modelled. Python's own recursion limit is not modelled either.
- The in-place rewrite of the caller's cursor table by normalisation is not modelled; normalisation is a pure function. The answers do not depend on it (`NormalizationLaws`).
- KeyError, IndexError, TypeError and AttributeError from a tree that does not have the shape the specs describe are all one `LookupError` variant.
- Python behaviour outside JSON-shaped paths is not modelled: integer subscripts into strings, negative indices, and `extend` with a non-list argument are all `LookupError` here.
- Object key order is not modelled: objects are maps.
- Call counts are not modelled as a log. A call with variables `v` is stated as "an executor failing at `v` makes the answer fail with that error". "No call" is stated as "the answer is the same for every executor".
- The three-level example in the comment at src/githubgql.py:52-93 (issues, pull requests, timeline items) is not stated as a concrete lemma. Its parts are covered by `TopLevelCursorsDoNotInterfere` (issues and pull requests do not touch each other), `NextPageFollowed`, `NodeSkippedIffNoWork` and `WeldReplacesOnlyNodes`.
- Query variables named `query`, `cursors` or `prev_path` clash with the function's own parameters in the source. Variables are a plain map here.
- The executor is a pure function of the variables. A server whose answer changes between calls cannot be expressed. In the model, the re-fetch of a node at line 201, which reuses the caller's variables, always sees the same first response. The weld by index at lines 204-212 therefore always pairs a node with its own nested result.
- PageChain.ConcatenationLaw: stated only for a cursor without a nested table. With one, the last page's nodes are also fanned out, so the merged tree depends on the nested answers (`NestedRequestOnLastPage`, `FirstBusyNodeRequested` and `WeldReplacesOnlyNodes` cover that part).
- Depaginate.WeldSucceeds: stated only for nested collections whose paths are apart. When one nested path is a prefix of another, a later weld can overwrite an earlier one; the model computes the result, but no law states it.
- Depaginate.WeldContents: stated only for nested collections whose paths are apart, for the reason above.
- Depaginate.WeldContentsAt: stated only for nested collections whose paths are apart, for the reason above.
- DepaginationLaws.WeldReplacesOnlyNodes: stated only for nested collections whose paths are apart, for the reason above.
