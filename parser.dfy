/**
  The parser as the source runs it: loops that append to lists and fill
  targets, and a registry whose four maps are written in place while the
  definitions are read. Every method is proved to compute what the
  functions of ParserSpec say.
 */
module Parser {
  import opened Outcomes
  import opened Nodes
  import opened Models
  import opened Accessors
  import opened ParserSpec

  /** fillStrings: writes each present string field into its target. */
  method FillStrings(input: Entries, names: seq<string>, targets: seq<string>) returns (r: Result<seq<string>>)
    requires |names| == |targets|
    ensures r == FilledStrings(input, names, targets)
  {
    var values := targets;
    for i := 0 to |names|
      invariant |values| == |targets|
      invariant forall j :: 0 <= j < i ==>
        StringOrAbsent(input, names[j]) && values[j] == StringOr(input, names[j], targets[j])
      invariant forall j :: i <= j < |targets| ==> values[j] == targets[j]
    {
      var value :- FillString(values[i], input, names[i]);
      values := values[i := value];
    }
    assert FilledStrings(input, names, targets).value == values;
    return Success(values);
  }

  /** createSteps */
  method CreateSteps(defs: Definitions, rStepItem: Entries) returns (r: Result<seq<Step>>)
    ensures r == StepsOf(defs, rStepItem)
  {
    if |rStepItem| > 1 {
      return Failure(ObjectMustHaveSingleKey);
    }
    var refName :- ExtractString(rStepItem, "$ref");
    if refName.Some? {
      return GetStepsByReference(defs, refName.value);
    }
    var steps: seq<Step> := [];
    for i := 0 to |rStepItem|
      invariant steps == seq(i, j requires 0 <= j < i => Step(rStepItem[j].0, ParamsOf(rStepItem[j].1)))
    {
      steps := steps + [Step(rStepItem[i].0, ParamsOf(rStepItem[i].1))];
    }
    return Success(steps);
  }

  /** fillStepsItems, with fillStepsItem as its loop body. */
  method FillStepsItems(defs: Definitions, steps: seq<Step>, rStepItems: seq<Node>) returns (r: Result<seq<Step>>)
    ensures r == StepItems(defs, steps, rStepItems)
  {
    if |rStepItems| == 0 {
      return Failure(InvalidInput);
    }
    var acc := steps;
    for i := 0 to |rStepItems|
      invariant AppendStepItems(defs, acc, rStepItems[i..]) == AppendStepItems(defs, steps, rStepItems)
    {
      assert rStepItems[i..][1..] == rStepItems[i + 1..];
      if !rStepItems[i].Map? {
        return Failure(InvalidInput);
      }
      var newSteps :- CreateSteps(defs, rStepItems[i].entries);
      acc := acc + newSteps;
    }
    return Success(acc);
  }

  /** createFilters */
  method CreateFilters(defs: Definitions, rFilterItem: Entries) returns (r: Result<seq<Filter>>)
    ensures r == FiltersOf(defs, rFilterItem)
  {
    var refName :- ExtractString(rFilterItem, "$ref");
    if refName.Some? {
      return GetFiltersByReference(defs, refName.value);
    }
    var fields :- FillStrings(rFilterItem, ["source", "target"], ["", ""]);
    if fields[0] == "" {
      return Failure(InvalidInput);
    }
    var rSteps :- ExtractSliceOfAny(rFilterItem, "steps");
    var steps: seq<Step> := [];
    if rSteps.Some? {
      var items := rSteps.value;
      for i := 0 to |items|
        invariant AppendStepItems(defs, steps, items[i..]) == AppendStepItems(defs, [], items)
      {
        assert items[i..][1..] == items[i + 1..];
        if !items[i].Map? {
          return Failure(InvalidInput);
        }
        var more :- CreateSteps(defs, items[i].entries);
        steps := steps + more;
      }
    }
    return Success([Filter(fields[0], fields[1], steps)]);
  }

  /** fillFiltersItems, with fillFiltersItem as its loop body. */
  method FillFiltersItems(defs: Definitions, filters: seq<Filter>, rFilterItems: seq<Node>) returns (r: Result<seq<Filter>>)
    ensures r == FilterItems(defs, filters, rFilterItems)
  {
    if |rFilterItems| == 0 {
      return Failure(InvalidInput);
    }
    var acc := filters;
    for i := 0 to |rFilterItems|
      invariant AppendFilterItems(defs, acc, rFilterItems[i..]) == AppendFilterItems(defs, filters, rFilterItems)
    {
      assert rFilterItems[i..][1..] == rFilterItems[i + 1..];
      if !rFilterItems[i].Map? {
        return Failure(InvalidInput);
      }
      var newFilters :- CreateFilters(defs, rFilterItems[i].entries);
      acc := acc + newFilters;
    }
    return Success(acc);
  }

  /** createChecks: the range over a check's map visits its one key. */
  method CreateChecks(rChecks: seq<Node>) returns (r: Result<seq<Check>>)
    ensures r == CheckItems([], rChecks)
  {
    var checks: seq<Check> := [];
    for i := 0 to |rChecks|
      invariant CheckItems(checks, rChecks[i..]) == CheckItems([], rChecks)
    {
      assert rChecks[i..][1..] == rChecks[i + 1..];
      if !rChecks[i].Map? {
        return Failure(InvalidInput);
      }
      var rCheckMap := rChecks[i].entries;
      if |rCheckMap| != 1 {
        return Failure(ObjectMustHaveSingleKey);
      }
      checks := checks + [Check(rCheckMap[0].0, ParamsOf(rCheckMap[0].1))];
    }
    return Success(checks);
  }

  /** createConditions */
  method CreateConditions(defs: Definitions, rConditionItem: Entries) returns (r: Result<seq<Condition>>)
    ensures r == ConditionsOf(defs, rConditionItem)
    decreases EntriesSize(rConditionItem), 2
  {
    var refName :- ExtractString(rConditionItem, "$ref");
    if refName.Some? {
      return GetConditionsByReference(defs, refName.value);
    }
    var sliceAny :- ExtractSliceOfAny(rConditionItem, "any");
    if sliceAny.Some? {
      var nested :- FillConditionsItems(defs, [], sliceAny.value);
      return Success([Condition(nested, [], "", [])]);
    }
    var sliceAll :- ExtractSliceOfAny(rConditionItem, "all");
    if sliceAll.Some? {
      var nested :- FillConditionsItems(defs, [], sliceAll.value);
      return Success([Condition([], nested, "", [])]);
    }
    var source :- FillString("", rConditionItem, "source");
    if source == "" {
      return Failure(InvalidInput);
    }
    var rChecks :- ExtractSliceOfAny(rConditionItem, "checks");
    if rChecks.None? {
      return Failure(InvalidInput);
    }
    var checks :- CreateChecks(rChecks.value);
    return Success([Condition([], [], source, checks)]);
  }

  /** fillConditionsItems, with fillConditionsItem as its loop body. */
  method FillConditionsItems(defs: Definitions, conditions: seq<Condition>, rConditionItems: seq<Node>)
    returns (r: Result<seq<Condition>>)
    ensures r == ConditionItems(defs, conditions, rConditionItems)
    decreases ItemsSize(rConditionItems), 1
  {
    if |rConditionItems| == 0 {
      return Failure(InvalidInput);
    }
    var acc := conditions;
    for i := 0 to |rConditionItems|
      invariant AppendConditionItems(defs, acc, rConditionItems[i..])
             == AppendConditionItems(defs, conditions, rConditionItems)
    {
      assert rConditionItems[i..][1..] == rConditionItems[i + 1..];
      if !rConditionItems[i].Map? {
        return Failure(InvalidInput);
      }
      ItemSizeBound(rConditionItems, i);
      var newConditions :- CreateConditions(defs, rConditionItems[i].entries);
      acc := acc + newConditions;
    }
    return Success(acc);
  }

  /** createResponse: builds the header map, then returns a response without it. */
  method CreateResponse(defs: Definitions, rResponse: Entries) returns (r: Result<Response>)
    ensures r == ResponseOf(defs, rResponse)
  {
    var refName :- ExtractString(rResponse, "$ref");
    if refName.Some? {
      return GetResponseByReference(defs, refName.value);
    }
    var fields :- FillStrings(rResponse, ["format", "body"], ["", ""]);
    var status :- FillInt(0, rResponse, "status");
    var rHeaders :- ExtractStringMap(rResponse, "headers");
    if rHeaders.Some? {
      var entries := rHeaders.value;
      var headers: map<string, seq<string>> := map[];
      for i := 0 to |entries|
        invariant HeadersOf(headers, entries[i..]) == HeadersOf(map[], entries)
      {
        assert entries[i..][1..] == entries[i + 1..];
        var headerName, headerValues := entries[i].0, entries[i].1;
        var before := headers;
        headers := headers[headerName := []];
        if !headerValues.List? {
          return Failure(InvalidInput);
        }
        var items := headerValues.items;
        var values: seq<string> := [];
        for j := 0 to |items|
          invariant HeaderValues(values, items[j..]) == HeaderValues([], items)
          invariant headers == before[headerName := values]
        {
          assert items[j..][1..] == items[j + 1..];
          if !items[j].Str? {
            return Failure(Panic);
          }
          values := values + [items[j].s];
          headers := headers[headerName := values];
        }
      }
    }
    return Success(Response(status, fields[0], map[], fields[1]));
  }

  /** createEndpoint */
  method CreateEndpoint(defs: Definitions, rEndpoint: Entries) returns (r: Result<Endpoint>)
    ensures r == EndpointOf(defs, rEndpoint)
    decreases EntriesSize(rEndpoint), 1
  {
    var fields :- FillStrings(rEndpoint, EndpointFields, ["", "", "", "", ""]);
    var rFilterItems :- ExtractSliceOfAny(rEndpoint, "filters");
    var filters: seq<Filter> := [];
    if rFilterItems.Some? {
      filters :- FillFiltersItems(defs, filters, rFilterItems.value);
    }
    var rConditionItems :- ExtractSliceOfAny(rEndpoint, "conditions");
    var conditions: seq<Condition> := [];
    if rConditionItems.Some? {
      conditions :- FillConditionsItems(defs, conditions, rConditionItems.value);
    }
    var rEndpointItems :- ExtractSliceOfAny(rEndpoint, "endpoints");
    var endpoints: seq<Endpoint> := [];
    if rEndpointItems.Some? {
      endpoints :- FillEndpoints(defs, endpoints, rEndpointItems.value);
    }
    var rResponse :- ExtractStringMap(rEndpoint, "response");
    var response: Option<Response> := None;
    if rResponse.Some? {
      var built :- CreateResponse(defs, rResponse.value);
      response := Some(built);
    }
    if |endpoints| == 0 && response.None? {
      return Failure(InvalidInput);
    }
    return Success(Endpoint(fields[0], fields[1], fields[2], fields[3], fields[4],
                            filters, conditions, endpoints, response));
  }

  /** fillEndpoints */
  method FillEndpoints(defs: Definitions, endpoints: seq<Endpoint>, rEndpoints: seq<Node>) returns (r: Result<seq<Endpoint>>)
    ensures r == EndpointItems(defs, endpoints, rEndpoints)
    decreases ItemsSize(rEndpoints), 0
  {
    var acc := endpoints;
    for i := 0 to |rEndpoints|
      invariant EndpointItems(defs, acc, rEndpoints[i..]) == EndpointItems(defs, endpoints, rEndpoints)
    {
      assert rEndpoints[i..][1..] == rEndpoints[i + 1..];
      if !rEndpoints[i].Map? {
        return Failure(InvalidInput);
      }
      ItemSizeBound(rEndpoints, i);
      var endpoint :- CreateEndpoint(defs, rEndpoints[i].entries);
      acc := acc + [endpoint];
    }
    return Success(acc);
  }

  /**
    The `*Definitions` the parser fills: four maps written in place while
    later definitions are built against them.
   */
  class Registry {
    var steps: map<string, seq<Step>>
    var filters: map<string, seq<Filter>>
    var conditions: map<string, seq<Condition>>
    var responses: map<string, Response>

    function Value(): Definitions
      reads this
    {
      Definitions(steps, filters, conditions, responses)
    }

    /** The registry of createEmpty. */
    constructor ()
      ensures Value() == EmptyDefinitions
    {
      steps, filters, conditions, responses := map[], map[], map[], map[];
    }

    /** fillStepsMap, visiting the names in `order`. */
    method FillStepsMap(rSteps: Entries, order: seq<string>) returns (err: Option<ParseError>)
      requires KeyOrder(order, rSteps)
      modifies this`steps
      ensures err.None? ==> StepsMapOf(old(Value()), rSteps, order) == Success(Value())
      ensures err.Some? ==> StepsMapOf(old(Value()), rSteps, order) == Failure(err.value)
    {
      for i := 0 to |order|
        invariant KeysIn(order[i..], rSteps)
        invariant StepsMapOf(Value(), rSteps, order[i..]) == StepsMapOf(old(Value()), rSteps, order)
      {
        assert order[i..][1..] == order[i + 1..];
        var stepName := order[i];
        var rStepItems := Lookup(rSteps, stepName).value;
        if !rStepItems.List? {
          return Some(InvalidInput);
        }
        var stepsList := FillStepsItems(Value(), [], rStepItems.items);
        if stepsList.Failure? {
          return Some(stepsList.error);
        }
        steps := steps[stepName := stepsList.value];
      }
      return None;
    }

    /** fillFiltersMap */
    method FillFiltersMap(rFilters: Entries, order: seq<string>) returns (err: Option<ParseError>)
      requires KeyOrder(order, rFilters)
      modifies this`filters
      ensures err.None? ==> FiltersMapOf(old(Value()), rFilters, order) == Success(Value())
      ensures err.Some? ==> FiltersMapOf(old(Value()), rFilters, order) == Failure(err.value)
    {
      for i := 0 to |order|
        invariant KeysIn(order[i..], rFilters)
        invariant FiltersMapOf(Value(), rFilters, order[i..]) == FiltersMapOf(old(Value()), rFilters, order)
      {
        assert order[i..][1..] == order[i + 1..];
        var filterName := order[i];
        var rFilterItems := Lookup(rFilters, filterName).value;
        if !rFilterItems.List? {
          return Some(InvalidInput);
        }
        var filtersList := FillFiltersItems(Value(), [], rFilterItems.items);
        if filtersList.Failure? {
          return Some(filtersList.error);
        }
        filters := filters[filterName := filtersList.value];
      }
      return None;
    }

    /** fillConditionsMap */
    method FillConditionsMap(rConditions: Entries, order: seq<string>) returns (err: Option<ParseError>)
      requires KeyOrder(order, rConditions)
      modifies this`conditions
      ensures err.None? ==> ConditionsMapOf(old(Value()), rConditions, order) == Success(Value())
      ensures err.Some? ==> ConditionsMapOf(old(Value()), rConditions, order) == Failure(err.value)
    {
      for i := 0 to |order|
        invariant KeysIn(order[i..], rConditions)
        invariant ConditionsMapOf(Value(), rConditions, order[i..]) == ConditionsMapOf(old(Value()), rConditions, order)
      {
        assert order[i..][1..] == order[i + 1..];
        var conditionName := order[i];
        var rConditionItems := Lookup(rConditions, conditionName).value;
        if !rConditionItems.List? {
          return Some(InvalidInput);
        }
        var conditionsList := FillConditionsItems(Value(), [], rConditionItems.items);
        if conditionsList.Failure? {
          return Some(conditionsList.error);
        }
        conditions := conditions[conditionName := conditionsList.value];
      }
      return None;
    }

    /** fillResponsesMap, with fillResponseItem as its loop body. */
    method FillResponsesMap(rResponses: Entries, order: seq<string>) returns (err: Option<ParseError>)
      requires KeyOrder(order, rResponses)
      modifies this`responses
      ensures err.None? ==> ResponsesMapOf(old(Value()), rResponses, order) == Success(Value())
      ensures err.Some? ==> ResponsesMapOf(old(Value()), rResponses, order) == Failure(err.value)
    {
      for i := 0 to |order|
        invariant KeysIn(order[i..], rResponses)
        invariant ResponsesMapOf(Value(), rResponses, order[i..]) == ResponsesMapOf(old(Value()), rResponses, order)
      {
        assert order[i..][1..] == order[i + 1..];
        var responseName := order[i];
        var rResponse := Lookup(rResponses, responseName).value;
        if !rResponse.Map? {
          return Some(InvalidInput);
        }
        var response := CreateResponse(Value(), rResponse.entries);
        if response.Failure? {
          return Some(response.error);
        }
        responses := responses[responseName := response.value];
      }
      return None;
    }

    /** fillDefinitions: steps, then filters, then conditions, then responses. */
    method FillDefinitions(rDefinitions: Entries, orders: KeyOrders) returns (err: Option<ParseError>)
      requires OrdersFor(rDefinitions, orders)
      modifies this
      ensures err.None? ==> DefinitionsOf(old(Value()), rDefinitions, orders) == Success(Value())
      ensures err.Some? ==> DefinitionsOf(old(Value()), rDefinitions, orders) == Failure(err.value)
    {
      var rSteps := ExtractStringMap(rDefinitions, "steps");
      if rSteps.Failure? {
        return Some(rSteps.error);
      }
      if rSteps.value.Some? {
        err := FillStepsMap(rSteps.value.value, orders.steps);
        if err.Some? {
          return;
        }
      }
      ghost var d1 := Value();

      var rFilters := ExtractStringMap(rDefinitions, "filters");
      if rFilters.Failure? {
        return Some(rFilters.error);
      }
      if rFilters.value.Some? {
        err := FillFiltersMap(rFilters.value.value, orders.filters);
        if err.Some? {
          return;
        }
      }
      ghost var d2 := Value();

      var rConditions := ExtractStringMap(rDefinitions, "conditions");
      if rConditions.Failure? {
        return Some(rConditions.error);
      }
      if rConditions.value.Some? {
        err := FillConditionsMap(rConditions.value.value, orders.conditions);
        if err.Some? {
          return;
        }
      }
      ghost var d3 := Value();

      var rResponses := ExtractStringMap(rDefinitions, "responses");
      if rResponses.Failure? {
        return Some(rResponses.error);
      }
      if rResponses.value.Some? {
        err := FillResponsesMap(rResponses.value.value, orders.responses);
        if err.Some? {
          return;
        }
      }
      return None;
    }
  }

  /** fillSpec: the definitions into the registry, then the top-level endpoints against it. */
  method FillSpec(registry: Registry, rSpec: Entries, orders: KeyOrders) returns (r: Result<seq<Endpoint>>)
    requires IterationOrders(Map(rSpec), orders)
    requires registry.Value() == EmptyDefinitions
    modifies registry
    ensures r.Success? ==> SpecOf(Map(rSpec), orders) == Success(Spec(registry.Value(), r.value))
    ensures r.Failure? ==> SpecOf(Map(rSpec), orders) == Failure(r.error)
  {
    var rSpecDefinitions :- ExtractStringMap(rSpec, "definitions");
    if rSpecDefinitions.Some? {
      var err := registry.FillDefinitions(rSpecDefinitions.value, orders);
      if err.Some? {
        return Failure(err.value);
      }
    }
    var rSpecEndpoints :- ExtractSliceOfAny(rSpec, "endpoints");
    var endpoints: seq<Endpoint> := [];
    if rSpecEndpoints.Some? {
      endpoints :- FillEndpoints(registry.Value(), endpoints, rSpecEndpoints.value);
    }
    return Success(endpoints);
  }

  /** Parse, from the decoded document onwards: the root must be an object. */
  method Parse(root: Node, orders: KeyOrders) returns (r: Result<Spec>)
    requires IterationOrders(root, orders)
    ensures r == SpecOf(root, orders)
  {
    if !root.Map? {
      return Failure(InvalidInput);
    }
    var registry := new Registry();
    var endpoints :- FillSpec(registry, root.entries, orders);
    return Success(Spec(registry.Value(), endpoints));
  }
}
