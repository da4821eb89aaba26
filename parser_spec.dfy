/**
  What each builder of parser.go computes, as functions of the registry
  value and the decoded tree. Every builder returns its first error at once.
  Loops that append to a list or fill a map are written with the list or
  map built so far as an argument, in the order the source visits the items.
 */
module ParserSpec {
  import opened Outcomes
  import opened Nodes
  import opened Models
  import opened Accessors

  // ---------------------------------------------------------------------------
  // Registry lookups (get*ByReference)

  function GetStepsByReference(defs: Definitions, refName: string): (r: Result<seq<Step>>)
    ensures r.Success? <==> refName in defs.steps
    ensures r.Success? ==> r.value == defs.steps[refName]
    ensures r.Failure? ==> r.error == UnknownDefinition("steps", refName)
  {
    if refName in defs.steps then Success(defs.steps[refName])
    else Failure(UnknownDefinition("steps", refName))
  }

  function GetFiltersByReference(defs: Definitions, refName: string): (r: Result<seq<Filter>>)
    ensures r.Success? <==> refName in defs.filters
    ensures r.Success? ==> r.value == defs.filters[refName]
    ensures r.Failure? ==> r.error == UnknownDefinition("filters", refName)
  {
    if refName in defs.filters then Success(defs.filters[refName])
    else Failure(UnknownDefinition("filters", refName))
  }

  function GetConditionsByReference(defs: Definitions, refName: string): (r: Result<seq<Condition>>)
    ensures r.Success? <==> refName in defs.conditions
    ensures r.Success? ==> r.value == defs.conditions[refName]
    ensures r.Failure? ==> r.error == UnknownDefinition("conditions", refName)
  {
    if refName in defs.conditions then Success(defs.conditions[refName])
    else Failure(UnknownDefinition("conditions", refName))
  }

  function GetResponseByReference(defs: Definitions, refName: string): (r: Result<Response>)
    ensures r.Success? <==> refName in defs.responses
    ensures r.Success? ==> r.value == defs.responses[refName]
    ensures r.Failure? ==> r.error == UnknownDefinition("responses", refName)
  {
    if refName in defs.responses then Success(defs.responses[refName])
    else Failure(UnknownDefinition("responses", refName))
  }

  // ---------------------------------------------------------------------------
  // Steps

  /** Parameters of a step or a check: a mapping as it is, any other value under "value". */
  function ParamsOf(v: Node): Entries
  {
    if v.Map? then v.entries else [("value", v)]
  }

  /** createSteps: a `$ref` to a step group, or one step per key of the item. */
  function StepsOf(defs: Definitions, item: Entries): (r: Result<seq<Step>>)
    ensures |item| > 1 ==> r == Failure(ObjectMustHaveSingleKey)
    ensures |item| <= 1 && Lookup(item, "$ref").Some? ==>
      r == if Lookup(item, "$ref").value.Str? then GetStepsByReference(defs, Lookup(item, "$ref").value.s)
           else Failure(InvalidInput)
    ensures |item| <= 1 && "$ref" !in Keys(item) ==>
      && r.Success?
      && |r.value| == |item|
      && forall i :: 0 <= i < |item| ==> r.value[i] == Step(item[i].0, ParamsOf(item[i].1))
  {
    if |item| > 1 then Failure(ObjectMustHaveSingleKey)
    else
      var refName :- ExtractString(item, "$ref");
      if refName.Some? then GetStepsByReference(defs, refName.value)
      else Success(seq(|item|, i requires 0 <= i < |item| => Step(item[i].0, ParamsOf(item[i].1))))
  }

  /**
    The loop of fillStepsItems (and the one in createFilters): each item must
    be an object, and its expansion is appended to `steps`.
   */
  function AppendStepItems(defs: Definitions, steps: seq<Step>, items: seq<Node>): Result<seq<Step>>
    decreases items
  {
    if items == [] then Success(steps)
    else if !items[0].Map? then Failure(InvalidInput)
    else
      var more :- StepsOf(defs, items[0].entries);
      AppendStepItems(defs, steps + more, items[1..])
  }

  /** fillStepsItems: an empty list of items is refused. */
  function StepItems(defs: Definitions, steps: seq<Step>, items: seq<Node>): Result<seq<Step>>
  {
    if |items| == 0 then Failure(InvalidInput) else AppendStepItems(defs, steps, items)
  }

  // ---------------------------------------------------------------------------
  // Filters

  /** createFilters: a `$ref` to a filter group, or exactly one inline filter. */
  function FiltersOf(defs: Definitions, item: Entries): Result<seq<Filter>>
  {
    var refName :- ExtractString(item, "$ref");
    if refName.Some? then GetFiltersByReference(defs, refName.value)
    else
      var fields :- FilledStrings(item, ["source", "target"], ["", ""]);
      if fields[0] == "" then Failure(InvalidInput)
      else
        var rSteps :- ExtractSliceOfAny(item, "steps");
        var steps :- if rSteps.Some? then AppendStepItems(defs, [], rSteps.value) else Success([]);
        Success([Filter(fields[0], fields[1], steps)])
  }

  function AppendFilterItems(defs: Definitions, filters: seq<Filter>, items: seq<Node>): Result<seq<Filter>>
    decreases items
  {
    if items == [] then Success(filters)
    else if !items[0].Map? then Failure(InvalidInput)
    else
      var more :- FiltersOf(defs, items[0].entries);
      AppendFilterItems(defs, filters + more, items[1..])
  }

  /** fillFiltersItems */
  function FilterItems(defs: Definitions, filters: seq<Filter>, items: seq<Node>): Result<seq<Filter>>
  {
    if |items| == 0 then Failure(InvalidInput) else AppendFilterItems(defs, filters, items)
  }

  // ---------------------------------------------------------------------------
  // Checks and conditions

  /** The loop of createChecks: every item an object with exactly one key, giving one check. */
  function CheckItems(checks: seq<Check>, items: seq<Node>): Result<seq<Check>>
    decreases items
  {
    if items == [] then Success(checks)
    else if !items[0].Map? then Failure(InvalidInput)
    else if |items[0].entries| != 1 then Failure(ObjectMustHaveSingleKey)
    else
      var entry := items[0].entries[0];
      CheckItems(checks + [Check(entry.0, ParamsOf(entry.1))], items[1..])
  }

  /** createConditions: the probes `$ref`, `any`, `all`, then `source` with `checks`. */
  function ConditionsOf(defs: Definitions, item: Entries): Result<seq<Condition>>
    decreases EntriesSize(item), 2
  {
    var refName :- ExtractString(item, "$ref");
    if refName.Some? then GetConditionsByReference(defs, refName.value)
    else
      var anyItems :- ExtractSliceOfAny(item, "any");
      if anyItems.Some? then
        var nested :- ConditionItems(defs, [], anyItems.value);
        Success([Condition(nested, [], "", [])])
      else
        var allItems :- ExtractSliceOfAny(item, "all");
        if allItems.Some? then
          var nested :- ConditionItems(defs, [], allItems.value);
          Success([Condition([], nested, "", [])])
        else
          var source :- FillString("", item, "source");
          if source == "" then Failure(InvalidInput)
          else
            var rChecks :- ExtractSliceOfAny(item, "checks");
            if rChecks.None? then Failure(InvalidInput)
            else
              var checks :- CheckItems([], rChecks.value);
              Success([Condition([], [], source, checks)])
  }

  /** fillConditionsItems */
  function ConditionItems(defs: Definitions, conditions: seq<Condition>, items: seq<Node>): Result<seq<Condition>>
    decreases ItemsSize(items), 1
  {
    if |items| == 0 then Failure(InvalidInput) else AppendConditionItems(defs, conditions, items)
  }

  function AppendConditionItems(defs: Definitions, conditions: seq<Condition>, items: seq<Node>): Result<seq<Condition>>
    decreases ItemsSize(items), 0
  {
    if items == [] then Success(conditions)
    else if !items[0].Map? then Failure(InvalidInput)
    else
      assert ItemsSize(items) == 1 + EntriesSize(items[0].entries) + ItemsSize(items[1..]);
      var more :- ConditionsOf(defs, items[0].entries);
      AppendConditionItems(defs, conditions + more, items[1..])
  }

  // ---------------------------------------------------------------------------
  // Responses

  /** The inner header loop: `headerValue.(string)` panics on a non-string. */
  function HeaderValues(values: seq<string>, items: seq<Node>): Result<seq<string>>
    decreases items
  {
    if items == [] then Success(values)
    else if !items[0].Str? then Failure(Panic)
    else HeaderValues(values + [items[0].s], items[1..])
  }

  /** The outer header loop, visiting the header mapping in its entry order. */
  function HeadersOf(headers: map<string, seq<string>>, entries: Entries): Result<map<string, seq<string>>>
    decreases entries
  {
    if entries == [] then Success(headers)
    else if !entries[0].1.List? then Failure(InvalidInput)
    else
      var values :- HeaderValues([], entries[0].1.items);
      HeadersOf(headers[entries[0].0 := values], entries[1..])
  }

  /**
    createResponse: the headers are checked and built, but the built map is
    never stored, so the response keeps nil headers.
   */
  function ResponseOf(defs: Definitions, item: Entries): Result<Response>
  {
    var refName :- ExtractString(item, "$ref");
    if refName.Some? then GetResponseByReference(defs, refName.value)
    else
      var fields :- FilledStrings(item, ["format", "body"], ["", ""]);
      var status :- FillInt(0, item, "status");
      var rHeaders :- ExtractStringMap(item, "headers");
      var headers :- if rHeaders.Some? then HeadersOf(map[], rHeaders.value) else Success(map[]);
      Success(Response(status, fields[0], map[], fields[1]))
  }

  // ---------------------------------------------------------------------------
  // Endpoints

  const EndpointFields: seq<string> := ["description", "host", "method", "path", "bodyFormat"]

  /** createEndpoint */
  function EndpointOf(defs: Definitions, item: Entries): Result<Endpoint>
    decreases EntriesSize(item), 1
  {
    var fields :- FilledStrings(item, EndpointFields, ["", "", "", "", ""]);
    var rFilters :- ExtractSliceOfAny(item, "filters");
    var filters :- if rFilters.Some? then FilterItems(defs, [], rFilters.value) else Success([]);
    var rConditions :- ExtractSliceOfAny(item, "conditions");
    var conditions :- if rConditions.Some? then ConditionItems(defs, [], rConditions.value) else Success([]);
    var rEndpoints :- ExtractSliceOfAny(item, "endpoints");
    var endpoints :- if rEndpoints.Some? then EndpointItems(defs, [], rEndpoints.value) else Success([]);
    var rResponse :- ExtractStringMap(item, "response");
    var response :-
      if rResponse.Some? then
        var r :- ResponseOf(defs, rResponse.value);
        Success(Some(r))
      else Success(None);
    if |endpoints| == 0 && response.None? then Failure(InvalidInput)
    else Success(Endpoint(fields[0], fields[1], fields[2], fields[3], fields[4],
                          filters, conditions, endpoints, response))
  }

  /** fillEndpoints: one endpoint per item, appended in order (an empty list is allowed). */
  function EndpointItems(defs: Definitions, endpoints: seq<Endpoint>, items: seq<Node>): Result<seq<Endpoint>>
    decreases ItemsSize(items), 0
  {
    if items == [] then Success(endpoints)
    else if !items[0].Map? then Failure(InvalidInput)
    else
      assert ItemsSize(items) == 1 + EntriesSize(items[0].entries) + ItemsSize(items[1..]);
      var e :- EndpointOf(defs, items[0].entries);
      EndpointItems(defs, endpoints + [e], items[1..])
  }

  // ---------------------------------------------------------------------------
  // Definitions, filled namespace by namespace

  /** The body of the fillStepsMap loop for one definition. */
  function StepsDefinition(defs: Definitions, raw: Node): Result<seq<Step>>
  {
    if raw.List? then StepItems(defs, [], raw.items) else Failure(InvalidInput)
  }

  function FiltersDefinition(defs: Definitions, raw: Node): Result<seq<Filter>>
  {
    if raw.List? then FilterItems(defs, [], raw.items) else Failure(InvalidInput)
  }

  function ConditionsDefinition(defs: Definitions, raw: Node): Result<seq<Condition>>
  {
    if raw.List? then ConditionItems(defs, [], raw.items) else Failure(InvalidInput)
  }

  function ResponseDefinition(defs: Definitions, raw: Node): Result<Response>
  {
    if raw.Map? then ResponseOf(defs, raw.entries) else Failure(InvalidInput)
  }

  /**
    fillStepsMap, visiting the names in `order`. Each definition is built
    against the registry as filled so far, then stored under its name.
   */
  function StepsMapOf(defs: Definitions, rSteps: Entries, order: seq<string>): Result<Definitions>
    requires KeysIn(order, rSteps)
    decreases order
  {
    if order == [] then Success(defs)
    else
      var list :- StepsDefinition(defs, Lookup(rSteps, order[0]).value);
      StepsMapOf(defs.(steps := defs.steps[order[0] := list]), rSteps, order[1..])
  }

  function FiltersMapOf(defs: Definitions, rFilters: Entries, order: seq<string>): Result<Definitions>
    requires KeysIn(order, rFilters)
    decreases order
  {
    if order == [] then Success(defs)
    else
      var list :- FiltersDefinition(defs, Lookup(rFilters, order[0]).value);
      FiltersMapOf(defs.(filters := defs.filters[order[0] := list]), rFilters, order[1..])
  }

  function ConditionsMapOf(defs: Definitions, rConditions: Entries, order: seq<string>): Result<Definitions>
    requires KeysIn(order, rConditions)
    decreases order
  {
    if order == [] then Success(defs)
    else
      var list :- ConditionsDefinition(defs, Lookup(rConditions, order[0]).value);
      ConditionsMapOf(defs.(conditions := defs.conditions[order[0] := list]), rConditions, order[1..])
  }

  function ResponsesMapOf(defs: Definitions, rResponses: Entries, order: seq<string>): Result<Definitions>
    requires KeysIn(order, rResponses)
    decreases order
  {
    if order == [] then Success(defs)
    else
      var response :- ResponseDefinition(defs, Lookup(rResponses, order[0]).value);
      ResponsesMapOf(defs.(responses := defs.responses[order[0] := response]), rResponses, order[1..])
  }

  /** The order in which Go happens to visit each definitions namespace. */
  datatype KeyOrders = KeyOrders(steps: seq<string>, filters: seq<string>, conditions: seq<string>, responses: seq<string>)

  /** `order` visits every key of the namespace `name` of `rDefs` once, when that namespace is a mapping. */
  ghost predicate OrderFor(rDefs: Entries, name: string, order: seq<string>)
  {
    match Lookup(rDefs, name)
    case Some(Map(entries)) => KeyOrder(order, entries)
    case _ => true
  }

  ghost predicate OrdersFor(rDefs: Entries, orders: KeyOrders)
  {
    && OrderFor(rDefs, "steps", orders.steps)
    && OrderFor(rDefs, "filters", orders.filters)
    && OrderFor(rDefs, "conditions", orders.conditions)
    && OrderFor(rDefs, "responses", orders.responses)
  }

  /** The steps part of fillDefinitions: absent leaves the registry as it is. */
  function StepsPhase(defs: Definitions, rDefs: Entries, order: seq<string>): Result<Definitions>
    requires OrderFor(rDefs, "steps", order)
  {
    var rSteps :- ExtractStringMap(rDefs, "steps");
    if rSteps.Some? then StepsMapOf(defs, rSteps.value, order) else Success(defs)
  }

  function FiltersPhase(defs: Definitions, rDefs: Entries, order: seq<string>): Result<Definitions>
    requires OrderFor(rDefs, "filters", order)
  {
    var rFilters :- ExtractStringMap(rDefs, "filters");
    if rFilters.Some? then FiltersMapOf(defs, rFilters.value, order) else Success(defs)
  }

  function ConditionsPhase(defs: Definitions, rDefs: Entries, order: seq<string>): Result<Definitions>
    requires OrderFor(rDefs, "conditions", order)
  {
    var rConditions :- ExtractStringMap(rDefs, "conditions");
    if rConditions.Some? then ConditionsMapOf(defs, rConditions.value, order) else Success(defs)
  }

  function ResponsesPhase(defs: Definitions, rDefs: Entries, order: seq<string>): Result<Definitions>
    requires OrderFor(rDefs, "responses", order)
  {
    var rResponses :- ExtractStringMap(rDefs, "responses");
    if rResponses.Some? then ResponsesMapOf(defs, rResponses.value, order) else Success(defs)
  }

  /** fillDefinitions: steps, then filters, then conditions, then responses. */
  function DefinitionsOf(defs: Definitions, rDefs: Entries, orders: KeyOrders): Result<Definitions>
    requires OrdersFor(rDefs, orders)
  {
    var d1 :- StepsPhase(defs, rDefs, orders.steps);
    var d2 :- FiltersPhase(d1, rDefs, orders.filters);
    var d3 :- ConditionsPhase(d2, rDefs, orders.conditions);
    ResponsesPhase(d3, rDefs, orders.responses)
  }

  /** The orders fit the definitions block of the document, if it has one. */
  ghost predicate IterationOrders(root: Node, orders: KeyOrders)
  {
    root.Map? ==>
      match Lookup(root.entries, "definitions")
      case Some(Map(rDefs)) => OrdersFor(rDefs, orders)
      case _ => true
  }

  /** Parse after decoding, with fillSpec: definitions first, then endpoints. */
  function SpecOf(root: Node, orders: KeyOrders): Result<Spec>
    requires IterationOrders(root, orders)
  {
    if !root.Map? then Failure(InvalidInput)
    else
      var rDefs :- ExtractStringMap(root.entries, "definitions");
      var defs :- if rDefs.Some? then DefinitionsOf(EmptyDefinitions, rDefs.value, orders) else Success(EmptyDefinitions);
      var rEndpoints :- ExtractSliceOfAny(root.entries, "endpoints");
      var endpoints :- if rEndpoints.Some? then EndpointItems(defs, [], rEndpoints.value) else Success([]);
      Success(Spec(defs, endpoints))
  }
}
