/**
  Shapes the parser's output always has: every condition has exactly one
  of its three forms, every endpoint has sub-endpoints or a response, every
  filter has a source, and the registry only ever holds such values.
 */
module Invariants {
  import opened Outcomes
  import opened Nodes
  import opened Models
  import opened Accessors
  import opened ParserSpec
  import opened BuilderFacts

  predicate SourcesSet(filters: seq<Filter>)
  {
    forall f :: f in filters ==> f.source != ""
  }

  /**
    What the registry holds once anything is stored in it: non-empty filter
    lists whose filters have a source, non-empty well-shaped condition
    lists, and responses with nil headers.
   */
  predicate RegistryInvariant(defs: Definitions)
  {
    && (forall name :: name in defs.filters ==> defs.filters[name] != [] && SourcesSet(defs.filters[name]))
    && (forall name :: name in defs.conditions ==>
          defs.conditions[name] != [] && AllWellShaped(defs.conditions[name]))
    && (forall name :: name in defs.responses ==> defs.responses[name].headers == map[])
  }

  lemma EmptyRegistryInvariant()
    ensures RegistryInvariant(EmptyDefinitions)
  {
  }

  // ---------------------------------------------------------------------------
  // Builders keep the invariant

  /** Every list of filters the builders produce is non-empty and each filter has a source. */
  lemma {:induction false} FilterItemsSourced(defs: Definitions, filters: seq<Filter>, items: seq<Node>)
    requires RegistryInvariant(defs)
    requires SourcesSet(filters)
    ensures AppendFilterItems(defs, filters, items).Success? ==>
      && |AppendFilterItems(defs, filters, items).value| >= |filters| + |items|
      && SourcesSet(AppendFilterItems(defs, filters, items).value)
    ensures FilterItems(defs, filters, items).Success? ==>
      && FilterItems(defs, filters, items).value != []
      && SourcesSet(FilterItems(defs, filters, items).value)
    decreases items
  {
    if items != [] && items[0].Map? {
      var first := FiltersOf(defs, items[0].entries);
      if first.Success? {
        FiltersOfCases(defs, items[0].entries);
        assert first.value != [] && SourcesSet(first.value);
        FilterItemsSourced(defs, filters + first.value, items[1..]);
      }
    }
  }

  /**
    Condition lists produced by the builders are non-empty and well shaped,
    at every level of nesting: `any` and `all` never hold an empty list, and
    a leaf always has a source.
   */
  lemma {:induction false} ConditionsOfShaped(defs: Definitions, item: Entries)
    requires RegistryInvariant(defs)
    ensures ConditionsOf(defs, item).Success? ==>
      ConditionsOf(defs, item).value != [] && AllWellShaped(ConditionsOf(defs, item).value)
    decreases EntriesSize(item), 2
  {
    var anyItems := ExtractSliceOfAny(item, "any");
    if anyItems.Success? && anyItems.value.Some? {
      ConditionItemsShaped(defs, [], anyItems.value.value);
    }
    var allItems := ExtractSliceOfAny(item, "all");
    if allItems.Success? && allItems.value.Some? {
      ConditionItemsShaped(defs, [], allItems.value.value);
    }
  }

  lemma {:induction false} ConditionItemsShaped(defs: Definitions, conditions: seq<Condition>, items: seq<Node>)
    requires RegistryInvariant(defs)
    requires AllWellShaped(conditions)
    ensures ConditionItems(defs, conditions, items).Success? ==>
      && |ConditionItems(defs, conditions, items).value| > |conditions|
      && AllWellShaped(ConditionItems(defs, conditions, items).value)
    decreases ItemsSize(items), 1
  {
    AppendConditionItemsShaped(defs, conditions, items);
  }

  lemma {:induction false} AppendConditionItemsShaped(defs: Definitions, conditions: seq<Condition>, items: seq<Node>)
    requires RegistryInvariant(defs)
    requires AllWellShaped(conditions)
    ensures AppendConditionItems(defs, conditions, items).Success? ==>
      && |AppendConditionItems(defs, conditions, items).value| >= |conditions| + |items|
      && AllWellShaped(AppendConditionItems(defs, conditions, items).value)
    decreases ItemsSize(items), 0
  {
    if items != [] && items[0].Map? {
      assert ItemsSize(items) == 1 + EntriesSize(items[0].entries) + ItemsSize(items[1..]);
      ConditionsOfShaped(defs, items[0].entries);
      var first := ConditionsOf(defs, items[0].entries);
      if first.Success? {
        AppendConditionItemsShaped(defs, conditions + first.value, items[1..]);
      }
    }
  }

  /**
    Every endpoint the builders produce is complete: it and each of its
    sub-endpoints has sub-endpoints or a response, and well-shaped conditions.
   */
  lemma {:induction false} EndpointOfComplete(defs: Definitions, item: Entries)
    requires RegistryInvariant(defs)
    ensures EndpointOf(defs, item).Success? ==> Complete(EndpointOf(defs, item).value)
    decreases EntriesSize(item), 1
  {
    var rConditions := ExtractSliceOfAny(item, "conditions");
    if rConditions.Success? && rConditions.value.Some? {
      ConditionItemsShaped(defs, [], rConditions.value.value);
    }
    var rEndpoints := ExtractSliceOfAny(item, "endpoints");
    if rEndpoints.Success? && rEndpoints.value.Some? {
      EndpointItemsComplete(defs, [], rEndpoints.value.value);
    }
  }

  lemma {:induction false} EndpointItemsComplete(defs: Definitions, endpoints: seq<Endpoint>, items: seq<Node>)
    requires RegistryInvariant(defs)
    requires forall e :: e in endpoints ==> Complete(e)
    ensures EndpointItems(defs, endpoints, items).Success? ==>
      forall e :: e in EndpointItems(defs, endpoints, items).value ==> Complete(e)
    decreases ItemsSize(items), 0
  {
    if items != [] && items[0].Map? {
      assert ItemsSize(items) == 1 + EntriesSize(items[0].entries) + ItemsSize(items[1..]);
      EndpointOfComplete(defs, items[0].entries);
      var first := EndpointOf(defs, items[0].entries);
      if first.Success? {
        EndpointItemsComplete(defs, endpoints + [first.value], items[1..]);
      }
    }
  }

  // ---------------------------------------------------------------------------
  // Filling the registry, namespace by namespace

  /** fillStepsMap writes the steps namespace only and registers every name it visits. */
  lemma {:induction false} StepsMapFrame(defs: Definitions, rSteps: Entries, order: seq<string>)
    requires KeysIn(order, rSteps)
    ensures StepsMapOf(defs, rSteps, order).Success? ==>
      var d := StepsMapOf(defs, rSteps, order).value;
      && d.filters == defs.filters && d.conditions == defs.conditions && d.responses == defs.responses
      && d.steps.Keys == defs.steps.Keys + set k | k in order
    decreases order
  {
    if order != [] {
      var list := StepsDefinition(defs, Lookup(rSteps, order[0]).value);
      if list.Success? {
        var next := defs.(steps := defs.steps[order[0] := list.value]);
        StepsMapFrame(next, rSteps, order[1..]);
        assert (set k | k in order) == {order[0]} + set k | k in order[1..];
      }
    }
  }

  /** fillFiltersMap writes the filters namespace only and registers every name it visits. */
  lemma {:induction false} FiltersMapFrame(defs: Definitions, rFilters: Entries, order: seq<string>)
    requires KeysIn(order, rFilters)
    ensures FiltersMapOf(defs, rFilters, order).Success? ==>
      var d := FiltersMapOf(defs, rFilters, order).value;
      && d.steps == defs.steps && d.conditions == defs.conditions && d.responses == defs.responses
      && d.filters.Keys == defs.filters.Keys + set k | k in order
    decreases order
  {
    if order != [] {
      var list := FiltersDefinition(defs, Lookup(rFilters, order[0]).value);
      if list.Success? {
        var next := defs.(filters := defs.filters[order[0] := list.value]);
        FiltersMapFrame(next, rFilters, order[1..]);
        assert (set k | k in order) == {order[0]} + set k | k in order[1..];
      }
    }
  }

  /** fillFiltersMap keeps the registry invariant. */
  lemma {:induction false} FiltersMapKeeps(defs: Definitions, rFilters: Entries, order: seq<string>)
    requires KeysIn(order, rFilters)
    requires RegistryInvariant(defs)
    ensures FiltersMapOf(defs, rFilters, order).Success? ==> RegistryInvariant(FiltersMapOf(defs, rFilters, order).value)
    decreases order
  {
    if order != [] {
      var raw := Lookup(rFilters, order[0]).value;
      var list := FiltersDefinition(defs, raw);
      if list.Success? {
        FilterItemsSourced(defs, [], raw.items);
        var next := defs.(filters := defs.filters[order[0] := list.value]);
        FiltersMapKeeps(next, rFilters, order[1..]);
      }
    }
  }

  /** fillConditionsMap writes the conditions namespace only and registers every name it visits. */
  lemma {:induction false} ConditionsMapFrame(defs: Definitions, rConditions: Entries, order: seq<string>)
    requires KeysIn(order, rConditions)
    ensures ConditionsMapOf(defs, rConditions, order).Success? ==>
      var d := ConditionsMapOf(defs, rConditions, order).value;
      && d.steps == defs.steps && d.filters == defs.filters && d.responses == defs.responses
      && d.conditions.Keys == defs.conditions.Keys + set k | k in order
    decreases order
  {
    if order != [] {
      var list := ConditionsDefinition(defs, Lookup(rConditions, order[0]).value);
      if list.Success? {
        var next := defs.(conditions := defs.conditions[order[0] := list.value]);
        ConditionsMapFrame(next, rConditions, order[1..]);
        assert (set k | k in order) == {order[0]} + set k | k in order[1..];
      }
    }
  }

  /** fillConditionsMap keeps the registry invariant. */
  lemma {:induction false} ConditionsMapKeeps(defs: Definitions, rConditions: Entries, order: seq<string>)
    requires KeysIn(order, rConditions)
    requires RegistryInvariant(defs)
    ensures ConditionsMapOf(defs, rConditions, order).Success? ==> RegistryInvariant(ConditionsMapOf(defs, rConditions, order).value)
    decreases order
  {
    if order != [] {
      var raw := Lookup(rConditions, order[0]).value;
      var list := ConditionsDefinition(defs, raw);
      if list.Success? {
        ConditionItemsShaped(defs, [], raw.items);
        var next := defs.(conditions := defs.conditions[order[0] := list.value]);
        ConditionsMapKeeps(next, rConditions, order[1..]);
      }
    }
  }

  /** fillResponsesMap writes the responses namespace only and registers every name it visits. */
  lemma {:induction false} ResponsesMapFrame(defs: Definitions, rResponses: Entries, order: seq<string>)
    requires KeysIn(order, rResponses)
    ensures ResponsesMapOf(defs, rResponses, order).Success? ==>
      var d := ResponsesMapOf(defs, rResponses, order).value;
      && d.steps == defs.steps && d.filters == defs.filters && d.conditions == defs.conditions
      && d.responses.Keys == defs.responses.Keys + set k | k in order
    decreases order
  {
    if order != [] {
      var response := ResponseDefinition(defs, Lookup(rResponses, order[0]).value);
      if response.Success? {
        var next := defs.(responses := defs.responses[order[0] := response.value]);
        ResponsesMapFrame(next, rResponses, order[1..]);
        assert (set k | k in order) == {order[0]} + set k | k in order[1..];
      }
    }
  }

  /** fillResponsesMap keeps the registry invariant. */
  lemma {:induction false} ResponsesMapKeeps(defs: Definitions, rResponses: Entries, order: seq<string>)
    requires KeysIn(order, rResponses)
    requires RegistryInvariant(defs)
    ensures ResponsesMapOf(defs, rResponses, order).Success? ==> RegistryInvariant(ResponsesMapOf(defs, rResponses, order).value)
    decreases order
  {
    if order != [] {
      var raw := Lookup(rResponses, order[0]).value;
      var response := ResponseDefinition(defs, raw);
      if response.Success? {
        ResponseOfCases(defs, raw.entries);
        var next := defs.(responses := defs.responses[order[0] := response.value]);
        ResponsesMapKeeps(next, rResponses, order[1..]);
      }
    }
  }

  /** The steps part of fillDefinitions: only that namespace grows, by every name the document defines there. */
  lemma StepsPhaseEffect(defs: Definitions, rDefs: Entries, order: seq<string>)
    requires OrderFor(rDefs, "steps", order)
    requires RegistryInvariant(defs)
    ensures StepsPhase(defs, rDefs, order).Success? ==>
      var d := StepsPhase(defs, rDefs, order).value;
      && RegistryInvariant(d)
      && d.filters == defs.filters
      && d.conditions == defs.conditions
      && d.responses == defs.responses
      && defs.steps.Keys <= d.steps.Keys
      && (MapAt(rDefs, "steps").Some? ==> Keys(MapAt(rDefs, "steps").value) <= d.steps.Keys)
  {
    var rSteps := ExtractStringMap(rDefs, "steps");
    if rSteps.Success? && rSteps.value.Some? {
      StepsMapFrame(defs, rSteps.value.value, order);
    }
  }

  /** The filters part of fillDefinitions: only that namespace grows, by every name the document defines there. */
  lemma FiltersPhaseEffect(defs: Definitions, rDefs: Entries, order: seq<string>)
    requires OrderFor(rDefs, "filters", order)
    requires RegistryInvariant(defs)
    ensures FiltersPhase(defs, rDefs, order).Success? ==>
      var d := FiltersPhase(defs, rDefs, order).value;
      && RegistryInvariant(d)
      && d.steps == defs.steps
      && d.conditions == defs.conditions
      && d.responses == defs.responses
      && defs.filters.Keys <= d.filters.Keys
      && (MapAt(rDefs, "filters").Some? ==> Keys(MapAt(rDefs, "filters").value) <= d.filters.Keys)
  {
    var rFilters := ExtractStringMap(rDefs, "filters");
    if rFilters.Success? && rFilters.value.Some? {
      FiltersMapFrame(defs, rFilters.value.value, order);
      FiltersMapKeeps(defs, rFilters.value.value, order);
    }
  }

  /** The conditions part of fillDefinitions: only that namespace grows, by every name the document defines there. */
  lemma ConditionsPhaseEffect(defs: Definitions, rDefs: Entries, order: seq<string>)
    requires OrderFor(rDefs, "conditions", order)
    requires RegistryInvariant(defs)
    ensures ConditionsPhase(defs, rDefs, order).Success? ==>
      var d := ConditionsPhase(defs, rDefs, order).value;
      && RegistryInvariant(d)
      && d.steps == defs.steps
      && d.filters == defs.filters
      && d.responses == defs.responses
      && defs.conditions.Keys <= d.conditions.Keys
      && (MapAt(rDefs, "conditions").Some? ==> Keys(MapAt(rDefs, "conditions").value) <= d.conditions.Keys)
  {
    var rConditions := ExtractStringMap(rDefs, "conditions");
    if rConditions.Success? && rConditions.value.Some? {
      ConditionsMapFrame(defs, rConditions.value.value, order);
      ConditionsMapKeeps(defs, rConditions.value.value, order);
    }
  }

  /** The responses part of fillDefinitions: only that namespace grows, by every name the document defines there. */
  lemma ResponsesPhaseEffect(defs: Definitions, rDefs: Entries, order: seq<string>)
    requires OrderFor(rDefs, "responses", order)
    requires RegistryInvariant(defs)
    ensures ResponsesPhase(defs, rDefs, order).Success? ==>
      var d := ResponsesPhase(defs, rDefs, order).value;
      && RegistryInvariant(d)
      && d.steps == defs.steps
      && d.filters == defs.filters
      && d.conditions == defs.conditions
      && defs.responses.Keys <= d.responses.Keys
      && (MapAt(rDefs, "responses").Some? ==> Keys(MapAt(rDefs, "responses").value) <= d.responses.Keys)
  {
    var rResponses := ExtractStringMap(rDefs, "responses");
    if rResponses.Success? && rResponses.value.Some? {
      ResponsesMapFrame(defs, rResponses.value.value, order);
      ResponsesMapKeeps(defs, rResponses.value.value, order);
    }
  }

  /**
    fillDefinitions keeps the invariant and registers every name of every
    namespace the document defines.
   */
  lemma DefinitionsOfEffect(defs: Definitions, rDefs: Entries, orders: KeyOrders)
    requires OrdersFor(rDefs, orders)
    requires RegistryInvariant(defs)
    ensures DefinitionsOf(defs, rDefs, orders).Success? ==>
      var d := DefinitionsOf(defs, rDefs, orders).value;
      && RegistryInvariant(d)
      && (MapAt(rDefs, "steps").Some? ==> Keys(MapAt(rDefs, "steps").value) <= d.steps.Keys)
      && (MapAt(rDefs, "filters").Some? ==> Keys(MapAt(rDefs, "filters").value) <= d.filters.Keys)
      && (MapAt(rDefs, "conditions").Some? ==> Keys(MapAt(rDefs, "conditions").value) <= d.conditions.Keys)
      && (MapAt(rDefs, "responses").Some? ==> Keys(MapAt(rDefs, "responses").value) <= d.responses.Keys)
  {
    StepsPhaseEffect(defs, rDefs, orders.steps);
    var d1 := StepsPhase(defs, rDefs, orders.steps);
    if d1.Success? {
      FiltersPhaseEffect(d1.value, rDefs, orders.filters);
      var d2 := FiltersPhase(d1.value, rDefs, orders.filters);
      if d2.Success? {
        ConditionsPhaseEffect(d2.value, rDefs, orders.conditions);
        var d3 := ConditionsPhase(d2.value, rDefs, orders.conditions);
        if d3.Success? {
          ResponsesPhaseEffect(d3.value, rDefs, orders.responses);
        }
      }
    }
  }

  /**
    A parsed document: its registry satisfies the invariant, every endpoint
    is complete, and the endpoints are built, one per item and in order,
    against the registry as it stands once every definition is in.
   */
  lemma SpecOfGuarantees(root: Node, orders: KeyOrders)
    requires IterationOrders(root, orders)
    ensures SpecOf(root, orders).Success? ==>
      var spec := SpecOf(root, orders).value;
      && RegistryInvariant(spec.definitions)
      && (forall e :: e in spec.endpoints ==> Complete(e))
      && root.Map?
      && (if ListAt(root.entries, "endpoints").Some? then
            EndpointExpansions(spec.definitions, ListAt(root.entries, "endpoints").value) == Success(spec.endpoints)
          else spec.endpoints == [])
  {
    if root.Map? {
      var rDefs := ExtractStringMap(root.entries, "definitions");
      if rDefs.Success? && rDefs.value.Some? {
        DefinitionsOfEffect(EmptyDefinitions, rDefs.value.value, orders);
      }
      var defs := if rDefs.Success? && rDefs.value.Some? then DefinitionsOf(EmptyDefinitions, rDefs.value.value, orders)
                  else Success(EmptyDefinitions);
      if rDefs.Success? && defs.Success? && ListAt(root.entries, "endpoints").Some? {
        var xs := ListAt(root.entries, "endpoints").value;
        EndpointItemsComplete(defs.value, [], xs);
        EndpointItemsSplice(defs.value, [], xs);
        var built := EndpointExpansions(defs.value, xs);
        if built.Success? {
          assert [] + built.value == built.value;
        }
      }
    }
  }
}
