/**
  The typed object graph the parser produces (models.go). Slices become
  sequences, `map[string][]T` becomes a Dafny map, a `*Response` that may be
  nil becomes an `Option<Response>`. Values fetched through `$ref` are copies:
  nothing changes them after they are built, so sharing is not observable.
 */
module Models {
  import opened Outcomes
  import opened Nodes

  /** One step operation; `parameters` is the entries of its parameter map. */
  datatype Step = Step(operation: string, parameters: Entries)

  /** One check of a condition; parameters as for a step. */
  datatype Check = Check(name: string, parameters: Entries)

  datatype Filter = Filter(source: string, target: string, steps: seq<Step>)

  /** At most one of `any`, `all` or `source` with `checks` is meant to be set. */
  datatype Condition = Condition(any: seq<Condition>, all: seq<Condition>, source: string, checks: seq<Check>)

  /** `headers` is a Go map; the empty map stands for the nil map. */
  datatype Response = Response(status: int, format: string, headers: map<string, seq<string>>, body: string)

  datatype Endpoint = Endpoint(
    description: string,
    host: string,
    httpMethod: string,
    path: string,
    bodyFormat: string,
    filters: seq<Filter>,
    conditions: seq<Condition>,
    endpoints: seq<Endpoint>,
    response: Option<Response>)

  /** Four independent namespaces; a response definition is a single value, the others are lists. */
  datatype Definitions = Definitions(
    steps: map<string, seq<Step>>,
    filters: map<string, seq<Filter>>,
    conditions: map<string, seq<Condition>>,
    responses: map<string, Response>)

  datatype Spec = Spec(definitions: Definitions, endpoints: seq<Endpoint>)

  /** The registry `createEmpty` starts from. */
  const EmptyDefinitions := Definitions(map[], map[], map[], map[])

  /**
    Exactly one of the three condition shapes is set, at every level: a
    non-empty `any`, a non-empty `all`, or a non-empty `source` (whose
    `checks` may be empty).
   */
  predicate WellShaped(c: Condition)
  {
    if c.any != [] then
      c.all == [] && c.source == "" && c.checks == [] && forall d :: d in c.any ==> WellShaped(d)
    else if c.all != [] then
      c.source == "" && c.checks == [] && forall d :: d in c.all ==> WellShaped(d)
    else
      c.source != ""
  }

  predicate AllWellShaped(cs: seq<Condition>)
  {
    forall c :: c in cs ==> WellShaped(c)
  }

  /**
    Every endpoint of the tree has sub-endpoints or a response, and all its
    conditions are well shaped.
   */
  predicate Complete(e: Endpoint)
  {
    && (e.endpoints != [] || e.response.Some?)
    && AllWellShaped(e.conditions)
    && forall sub :: sub in e.endpoints ==> Complete(sub)
  }
}
