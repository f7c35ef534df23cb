/** The boundary the depaginator calls outward: one query with one set of
    variables, answered by a result tree or an error. */
module Transport {
  import opened Wrappers
  import opened Json

  /** Everything that can abort a depagination. The first three are the
      exception classes the request raises; `LookupError` stands for the
      KeyError, IndexError, TypeError or AttributeError raised when a tree
      does not have the shape a cursor spec says it has; `OutOfFuel` is the
      model's bound on the number of chained requests. */
  datatype Error =
    | TokenError
    | HTTPError(status: int, body: Value)
    | GraphQLError(errors: Value)
    | LookupError
    | OutOfFuel

  /** The query variables, by name. */
  type Vars = map<string, Value>

  /** One request for the fixed query: the variables in, the reply's `data` or an error out. */
  type Executor = Vars -> Result<Value, Error>

  /** What the server answers to one POST: a status code and the decoded JSON body. */
  datatype Reply = Reply(status: int, body: Value)

  /** One request: the token is checked before anything is sent, then the
      status code, then the body's `errors`, and the body's `data` is the
      answer. `post` stands for the HTTP round trip. */
  function Respond(token: Option<string>, post: Vars -> Reply, vars: Vars): (r: Result<Value, Error>)
    ensures r.Success? <==>
              && token.Some? && |token.value| > 0
              && post(vars).status == 200
              && post(vars).body.Object?
              && "errors" !in post(vars).body.fields
              && "data" in post(vars).body.fields
    ensures r.Success? ==> r.value == post(vars).body.fields["data"]
    ensures (token.None? || |token.value| == 0) ==> r == Failure(TokenError)
    ensures r.Failure? && r.error.HTTPError? ==> r.error.status == post(vars).status && r.error.status != 200
    ensures token.Some? && |token.value| > 0 && post(vars).status != 200 ==>
              r == Failure(HTTPError(post(vars).status, post(vars).body))
    ensures token.Some? && |token.value| > 0 && post(vars).status == 200 &&
            post(vars).body.Object? && "errors" in post(vars).body.fields ==>
              r == Failure(GraphQLError(post(vars).body.fields["errors"]))
    ensures token.Some? && |token.value| > 0 && post(vars).status == 200 &&
            !(post(vars).body.Object? && ("errors" in post(vars).body.fields || "data" in post(vars).body.fields)) ==>
              r == Failure(LookupError)
  {
    if token.None? || |token.value| == 0 then Failure(TokenError)
    else
      var reply := post(vars);
      if reply.status != 200 then Failure(HTTPError(reply.status, reply.body))
      else match reply.body
        case Object(m) =>
          if "errors" in m then Failure(GraphQLError(m["errors"]))
          else if "data" in m then Success(m["data"])
          else Failure(LookupError)
        case _ => Failure(LookupError)
  }

  /** The executor the depaginator uses in production: `Respond` with a fixed token and transport. */
  function Production(token: Option<string>, post: Vars -> Reply): Executor
  {
    vars => Respond(token, post, vars)
  }

  /** Without a usable token no request is sent: the answer does not depend on the transport. */
  lemma TokenCheckedFirst(token: Option<string>, post1: Vars -> Reply, post2: Vars -> Reply, vars: Vars)
    requires token.None? || |token.value| == 0
    ensures Respond(token, post1, vars) == Respond(token, post2, vars) == Failure(TokenError)
  {
  }
}
