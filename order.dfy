/**
  Go visits a definitions map in an unspecified order, and a definition is
  built against the registry as filled so far. When no definition refers
  to its own namespace (filters may still refer to steps, which are all in
  before any filter is built), the order does not matter: whether the
  registry fills, and what it then holds, are the same for every order.
  Which error is reported when several definitions are broken may still
  depend on the order.
 */
module OrderIndependence {
  import opened Outcomes
  import opened Nodes
  import opened Models
  import opened Accessors
  import opened ParserSpec

  // ---------------------------------------------------------------------------
  // Definitions that do not refer to their own namespace

  /** No item of a definition list is a `$ref`. */
  predicate NoRefItems(raw: Node)
  {
    raw.List? ==> forall i :: 0 <= i < |raw.items| ==> raw.items[i].Map? ==> "$ref" !in Keys(raw.items[i].entries)
  }

  /** A condition without `$ref`, at any depth of `any` and `all`. */
  predicate ConditionRefFree(item: Entries)
    decreases EntriesSize(item), 1
  {
    && "$ref" !in Keys(item)
    && (var any := ExtractSliceOfAny(item, "any");
        any.Success? && any.value.Some? ==> ConditionItemsRefFree(any.value.value))
    && (var all := ExtractSliceOfAny(item, "all");
        all.Success? && all.value.Some? ==> ConditionItemsRefFree(all.value.value))
  }

  predicate ConditionItemsRefFree(items: seq<Node>)
    decreases ItemsSize(items), 0
  {
    if items == [] then true
    else if !items[0].Map? then true
    else
      assert ItemsSize(items) == 1 + EntriesSize(items[0].entries) + ItemsSize(items[1..]);
      ConditionRefFree(items[0].entries) && ConditionItemsRefFree(items[1..])
  }

  predicate ConditionListRefFree(raw: Node)
  {
    raw.List? ==> ConditionItemsRefFree(raw.items)
  }

  /** A response definition that is not a `$ref`. */
  predicate NoRefMap(raw: Node)
  {
    raw.Map? ==> "$ref" !in Keys(raw.entries)
  }

  /** Overriding one more name first, or last, gives the same map when the later ones do not hold it. */
  lemma UnionUpdate<V>(m: map<string, V>, k: string, v: V, t: map<string, V>)
    requires k !in t
    ensures m[k := v] + t == m + t[k := v]
  {
  }

  lemma RestDistinct(order: seq<string>)
    requires order != [] && Distinct(order)
    ensures Distinct(order[1..]) && order[0] !in order[1..]
  {
    var rest := order[1..];
    forall i, j | 0 <= i < j < |rest| ensures rest[i] != rest[j] {
      assert rest[i] == order[i + 1] && rest[j] == order[j + 1];
    }
    forall j | 0 <= j < |rest| ensures rest[j] != order[0] {
      assert rest[j] == order[j + 1];
    }
  }

  // ---------------------------------------------------------------------------
  // Such definitions do not read their own namespace

  /** Steps read the registry only through `$ref`. */
  lemma {:induction false} RefFreeStepItemsFrame(d1: Definitions, d2: Definitions, steps: seq<Step>, items: seq<Node>)
    requires forall i :: 0 <= i < |items| ==> items[i].Map? ==> "$ref" !in Keys(items[i].entries)
    ensures AppendStepItems(d1, steps, items) == AppendStepItems(d2, steps, items)
    decreases items
  {
    if items != [] && items[0].Map? {
      var first := StepsOf(d1, items[0].entries);
      assert first == StepsOf(d2, items[0].entries);
      if first.Success? {
        RefFreeStepItemsFrame(d1, d2, steps + first.value, items[1..]);
      }
    }
  }

  /** Steps, `$ref` or not, read the steps namespace only. */
  lemma {:induction false} StepItemsFrame(d1: Definitions, d2: Definitions, steps: seq<Step>, items: seq<Node>)
    requires d1.steps == d2.steps
    ensures AppendStepItems(d1, steps, items) == AppendStepItems(d2, steps, items)
    decreases items
  {
    if items != [] && items[0].Map? {
      var first := StepsOf(d1, items[0].entries);
      assert first == StepsOf(d2, items[0].entries);
      if first.Success? {
        StepItemsFrame(d1, d2, steps + first.value, items[1..]);
      }
    }
  }

  /** Filters without `$ref` read the steps namespace only. */
  lemma {:induction false} RefFreeFilterItemsFrame(d1: Definitions, d2: Definitions, filters: seq<Filter>, items: seq<Node>)
    requires d1.steps == d2.steps
    requires forall i :: 0 <= i < |items| ==> items[i].Map? ==> "$ref" !in Keys(items[i].entries)
    ensures AppendFilterItems(d1, filters, items) == AppendFilterItems(d2, filters, items)
    decreases items
  {
    if items != [] && items[0].Map? {
      var rSteps := ExtractSliceOfAny(items[0].entries, "steps");
      if rSteps.Success? && rSteps.value.Some? {
        StepItemsFrame(d1, d2, [], rSteps.value.value);
      }
      var first := FiltersOf(d1, items[0].entries);
      assert first == FiltersOf(d2, items[0].entries);
      if first.Success? {
        RefFreeFilterItemsFrame(d1, d2, filters + first.value, items[1..]);
      }
    }
  }

  /** Conditions without `$ref` at any depth do not read the registry at all. */
  lemma {:induction false} RefFreeConditionsFrame(d1: Definitions, d2: Definitions, item: Entries)
    requires ConditionRefFree(item)
    ensures ConditionsOf(d1, item) == ConditionsOf(d2, item)
    decreases EntriesSize(item), 2
  {
    var any := ExtractSliceOfAny(item, "any");
    if any.Success? && any.value.Some? {
      RefFreeConditionItemsFrame(d1, d2, [], any.value.value);
    }
    var all := ExtractSliceOfAny(item, "all");
    if all.Success? && all.value.Some? {
      RefFreeConditionItemsFrame(d1, d2, [], all.value.value);
    }
  }

  lemma {:induction false} RefFreeConditionItemsFrame(d1: Definitions, d2: Definitions, conditions: seq<Condition>, items: seq<Node>)
    requires ConditionItemsRefFree(items)
    ensures AppendConditionItems(d1, conditions, items) == AppendConditionItems(d2, conditions, items)
    ensures ConditionItems(d1, conditions, items) == ConditionItems(d2, conditions, items)
    decreases ItemsSize(items), 1
  {
    if items != [] && items[0].Map? {
      assert ItemsSize(items) == 1 + EntriesSize(items[0].entries) + ItemsSize(items[1..]);
      RefFreeConditionsFrame(d1, d2, items[0].entries);
      var first := ConditionsOf(d1, items[0].entries);
      if first.Success? {
        RefFreeConditionItemsFrame(d1, d2, conditions + first.value, items[1..]);
      }
    }
  }

  lemma StepsDefinitionFrame(d1: Definitions, d2: Definitions, raw: Node)
    requires NoRefItems(raw)
    ensures StepsDefinition(d1, raw) == StepsDefinition(d2, raw)
  {
    if raw.List? {
      RefFreeStepItemsFrame(d1, d2, [], raw.items);
    }
  }

  lemma FiltersDefinitionFrame(d1: Definitions, d2: Definitions, raw: Node)
    requires d1.steps == d2.steps
    requires NoRefItems(raw)
    ensures FiltersDefinition(d1, raw) == FiltersDefinition(d2, raw)
  {
    if raw.List? {
      RefFreeFilterItemsFrame(d1, d2, [], raw.items);
    }
  }

  lemma ConditionsDefinitionFrame(d1: Definitions, d2: Definitions, raw: Node)
    requires ConditionListRefFree(raw)
    ensures ConditionsDefinition(d1, raw) == ConditionsDefinition(d2, raw)
  {
    if raw.List? {
      RefFreeConditionItemsFrame(d1, d2, [], raw.items);
    }
  }

  lemma ResponseDefinitionFrame(d1: Definitions, d2: Definitions, raw: Node)
    requires NoRefMap(raw)
    ensures ResponseDefinition(d1, raw) == ResponseDefinition(d2, raw)
  {
  }

  // ---------------------------------------------------------------------------
  // The steps namespace

  /** Every steps definition of the document is free of references to its own namespace. */
  predicate StepsRefFree(rDefs: Entries)
  {
    MapAt(rDefs, "steps").Some? ==>
      forall k :: k in Keys(MapAt(rDefs, "steps").value) ==> NoRefItems(Lookup(MapAt(rDefs, "steps").value, k).value)
  }

  /** Every definition visited in `order` builds against `defs`. */
  predicate StepsBuild(defs: Definitions, rSteps: Entries, order: seq<string>)
    requires KeysIn(order, rSteps)
  {
    forall k :: k in order ==> StepsDefinition(defs, Lookup(rSteps, k).value).Success?
  }

  /** What fillStepsMap stores: every visited name bound to its definition built against `defs`. */
  function StepsTable(defs: Definitions, rSteps: Entries, order: seq<string>): map<string, seq<Step>>
    requires KeysIn(order, rSteps)
    requires StepsBuild(defs, rSteps, order)
  {
    map k | k in order :: StepsDefinition(defs, Lookup(rSteps, k).value).value
  }

  lemma StepsTableCons(defs: Definitions, rSteps: Entries, order: seq<string>)
    requires order != [] && KeysIn(order, rSteps)
    requires StepsBuild(defs, rSteps, order)
    ensures StepsBuild(defs, rSteps, order[1..])
    ensures StepsTable(defs, rSteps, order) ==
      StepsTable(defs, rSteps, order[1..])[order[0] := StepsDefinition(defs, Lookup(rSteps, order[0]).value).value]
  {
  }

  /** The table does not depend on the steps namespace it is built against. */
  lemma StepsTableFrame(d1: Definitions, d2: Definitions, rSteps: Entries, order: seq<string>)
    requires KeysIn(order, rSteps)
    requires forall k :: k in order ==> NoRefItems(Lookup(rSteps, k).value)
    ensures StepsBuild(d1, rSteps, order) <==> StepsBuild(d2, rSteps, order)
    ensures StepsBuild(d1, rSteps, order) ==> StepsTable(d1, rSteps, order) == StepsTable(d2, rSteps, order)
  {
    forall k | k in order
      ensures StepsDefinition(d1, Lookup(rSteps, k).value) == StepsDefinition(d2, Lookup(rSteps, k).value)
    {
      StepsDefinitionFrame(d1, d2, Lookup(rSteps, k).value);
    }
  }

  /**
    fillStepsMap in closed form: it succeeds exactly when every visited
    definition builds against the registry it started from, and then adds
    them all to it.
   */
  lemma {:induction false} StepsMapClosedForm(defs: Definitions, rSteps: Entries, order: seq<string>)
    requires KeysIn(order, rSteps)
    requires Distinct(order)
    requires forall k :: k in order ==> NoRefItems(Lookup(rSteps, k).value)
    ensures StepsMapOf(defs, rSteps, order).Success? <==> StepsBuild(defs, rSteps, order)
    ensures StepsMapOf(defs, rSteps, order).Success? ==>
      StepsMapOf(defs, rSteps, order).value == defs.(steps := defs.steps + StepsTable(defs, rSteps, order))
    decreases order
  {
    if order == [] {
      assert defs.steps + StepsTable(defs, rSteps, order) == defs.steps;
    } else {
      var first := StepsDefinition(defs, Lookup(rSteps, order[0]).value);
      if first.Success? {
        var next := defs.(steps := defs.steps[order[0] := first.value]);
        var rest := order[1..];
        RestDistinct(order);
        StepsTableFrame(next, defs, rSteps, rest);
        StepsMapClosedForm(next, rSteps, rest);
        if StepsBuild(defs, rSteps, order) {
          StepsTableCons(defs, rSteps, order);
          UnionUpdate(defs.steps, order[0], first.value, StepsTable(defs, rSteps, rest));
        }
      }
    }
  }

  /** Two visiting orders of the same steps mapping fill the registry alike. */
  lemma StepsMapOrderIndependent(defs: Definitions, rSteps: Entries, order1: seq<string>, order2: seq<string>)
    requires KeyOrder(order1, rSteps) && KeyOrder(order2, rSteps)
    requires forall k :: k in Keys(rSteps) ==> NoRefItems(Lookup(rSteps, k).value)
    ensures StepsMapOf(defs, rSteps, order1).Success? <==> StepsMapOf(defs, rSteps, order2).Success?
    ensures StepsMapOf(defs, rSteps, order1).Success? ==> StepsMapOf(defs, rSteps, order1).value == StepsMapOf(defs, rSteps, order2).value
  {
    StepsMapClosedForm(defs, rSteps, order1);
    StepsMapClosedForm(defs, rSteps, order2);
    if StepsMapOf(defs, rSteps, order1).Success? {
      assert StepsTable(defs, rSteps, order1) == StepsTable(defs, rSteps, order2);
    }
  }

  lemma StepsPhaseOrderIndependent(defs: Definitions, rDefs: Entries, order1: seq<string>, order2: seq<string>)
    requires OrderFor(rDefs, "steps", order1) && OrderFor(rDefs, "steps", order2)
    requires StepsRefFree(rDefs)
    ensures StepsPhase(defs, rDefs, order1).Success? <==> StepsPhase(defs, rDefs, order2).Success?
    ensures StepsPhase(defs, rDefs, order1).Success? ==> StepsPhase(defs, rDefs, order1).value == StepsPhase(defs, rDefs, order2).value
  {
    if MapAt(rDefs, "steps").Some? {
      StepsMapOrderIndependent(defs, MapAt(rDefs, "steps").value, order1, order2);
    }
  }

  // ---------------------------------------------------------------------------
  // The filters namespace

  /** Every filters definition of the document is free of references to its own namespace. */
  predicate FiltersRefFree(rDefs: Entries)
  {
    MapAt(rDefs, "filters").Some? ==>
      forall k :: k in Keys(MapAt(rDefs, "filters").value) ==> NoRefItems(Lookup(MapAt(rDefs, "filters").value, k).value)
  }

  /** Every definition visited in `order` builds against `defs`. */
  predicate FiltersBuild(defs: Definitions, rFilters: Entries, order: seq<string>)
    requires KeysIn(order, rFilters)
  {
    forall k :: k in order ==> FiltersDefinition(defs, Lookup(rFilters, k).value).Success?
  }

  /** What fillFiltersMap stores: every visited name bound to its definition built against `defs`. */
  function FiltersTable(defs: Definitions, rFilters: Entries, order: seq<string>): map<string, seq<Filter>>
    requires KeysIn(order, rFilters)
    requires FiltersBuild(defs, rFilters, order)
  {
    map k | k in order :: FiltersDefinition(defs, Lookup(rFilters, k).value).value
  }

  lemma FiltersTableCons(defs: Definitions, rFilters: Entries, order: seq<string>)
    requires order != [] && KeysIn(order, rFilters)
    requires FiltersBuild(defs, rFilters, order)
    ensures FiltersBuild(defs, rFilters, order[1..])
    ensures FiltersTable(defs, rFilters, order) ==
      FiltersTable(defs, rFilters, order[1..])[order[0] := FiltersDefinition(defs, Lookup(rFilters, order[0]).value).value]
  {
  }

  /** The table does not depend on the filters namespace it is built against. */
  lemma FiltersTableFrame(d1: Definitions, d2: Definitions, rFilters: Entries, order: seq<string>)
    requires KeysIn(order, rFilters)
    requires d1.steps == d2.steps
    requires forall k :: k in order ==> NoRefItems(Lookup(rFilters, k).value)
    ensures FiltersBuild(d1, rFilters, order) <==> FiltersBuild(d2, rFilters, order)
    ensures FiltersBuild(d1, rFilters, order) ==> FiltersTable(d1, rFilters, order) == FiltersTable(d2, rFilters, order)
  {
    forall k | k in order
      ensures FiltersDefinition(d1, Lookup(rFilters, k).value) == FiltersDefinition(d2, Lookup(rFilters, k).value)
    {
      FiltersDefinitionFrame(d1, d2, Lookup(rFilters, k).value);
    }
  }

  /**
    fillFiltersMap in closed form: it succeeds exactly when every visited
    definition builds against the registry it started from, and then adds
    them all to it.
   */
  lemma {:induction false} FiltersMapClosedForm(defs: Definitions, rFilters: Entries, order: seq<string>)
    requires KeysIn(order, rFilters)
    requires Distinct(order)
    requires forall k :: k in order ==> NoRefItems(Lookup(rFilters, k).value)
    ensures FiltersMapOf(defs, rFilters, order).Success? <==> FiltersBuild(defs, rFilters, order)
    ensures FiltersMapOf(defs, rFilters, order).Success? ==>
      FiltersMapOf(defs, rFilters, order).value == defs.(filters := defs.filters + FiltersTable(defs, rFilters, order))
    decreases order
  {
    if order == [] {
      assert defs.filters + FiltersTable(defs, rFilters, order) == defs.filters;
    } else {
      var first := FiltersDefinition(defs, Lookup(rFilters, order[0]).value);
      if first.Success? {
        var next := defs.(filters := defs.filters[order[0] := first.value]);
        var rest := order[1..];
        RestDistinct(order);
        FiltersTableFrame(next, defs, rFilters, rest);
        FiltersMapClosedForm(next, rFilters, rest);
        if FiltersBuild(defs, rFilters, order) {
          FiltersTableCons(defs, rFilters, order);
          UnionUpdate(defs.filters, order[0], first.value, FiltersTable(defs, rFilters, rest));
        }
      }
    }
  }

  /** Two visiting orders of the same filters mapping fill the registry alike. */
  lemma FiltersMapOrderIndependent(defs: Definitions, rFilters: Entries, order1: seq<string>, order2: seq<string>)
    requires KeyOrder(order1, rFilters) && KeyOrder(order2, rFilters)
    requires forall k :: k in Keys(rFilters) ==> NoRefItems(Lookup(rFilters, k).value)
    ensures FiltersMapOf(defs, rFilters, order1).Success? <==> FiltersMapOf(defs, rFilters, order2).Success?
    ensures FiltersMapOf(defs, rFilters, order1).Success? ==> FiltersMapOf(defs, rFilters, order1).value == FiltersMapOf(defs, rFilters, order2).value
  {
    FiltersMapClosedForm(defs, rFilters, order1);
    FiltersMapClosedForm(defs, rFilters, order2);
    if FiltersMapOf(defs, rFilters, order1).Success? {
      assert FiltersTable(defs, rFilters, order1) == FiltersTable(defs, rFilters, order2);
    }
  }

  lemma FiltersPhaseOrderIndependent(defs: Definitions, rDefs: Entries, order1: seq<string>, order2: seq<string>)
    requires OrderFor(rDefs, "filters", order1) && OrderFor(rDefs, "filters", order2)
    requires FiltersRefFree(rDefs)
    ensures FiltersPhase(defs, rDefs, order1).Success? <==> FiltersPhase(defs, rDefs, order2).Success?
    ensures FiltersPhase(defs, rDefs, order1).Success? ==> FiltersPhase(defs, rDefs, order1).value == FiltersPhase(defs, rDefs, order2).value
  {
    if MapAt(rDefs, "filters").Some? {
      FiltersMapOrderIndependent(defs, MapAt(rDefs, "filters").value, order1, order2);
    }
  }

  // ---------------------------------------------------------------------------
  // The conditions namespace

  /** Every conditions definition of the document is free of references to its own namespace. */
  predicate ConditionsRefFree(rDefs: Entries)
  {
    MapAt(rDefs, "conditions").Some? ==>
      forall k :: k in Keys(MapAt(rDefs, "conditions").value) ==> ConditionListRefFree(Lookup(MapAt(rDefs, "conditions").value, k).value)
  }

  /** Every definition visited in `order` builds against `defs`. */
  predicate ConditionsBuild(defs: Definitions, rConditions: Entries, order: seq<string>)
    requires KeysIn(order, rConditions)
  {
    forall k :: k in order ==> ConditionsDefinition(defs, Lookup(rConditions, k).value).Success?
  }

  /** What fillConditionsMap stores: every visited name bound to its definition built against `defs`. */
  function ConditionsTable(defs: Definitions, rConditions: Entries, order: seq<string>): map<string, seq<Condition>>
    requires KeysIn(order, rConditions)
    requires ConditionsBuild(defs, rConditions, order)
  {
    map k | k in order :: ConditionsDefinition(defs, Lookup(rConditions, k).value).value
  }

  lemma ConditionsTableCons(defs: Definitions, rConditions: Entries, order: seq<string>)
    requires order != [] && KeysIn(order, rConditions)
    requires ConditionsBuild(defs, rConditions, order)
    ensures ConditionsBuild(defs, rConditions, order[1..])
    ensures ConditionsTable(defs, rConditions, order) ==
      ConditionsTable(defs, rConditions, order[1..])[order[0] := ConditionsDefinition(defs, Lookup(rConditions, order[0]).value).value]
  {
  }

  /** The table does not depend on the conditions namespace it is built against. */
  lemma ConditionsTableFrame(d1: Definitions, d2: Definitions, rConditions: Entries, order: seq<string>)
    requires KeysIn(order, rConditions)
    requires forall k :: k in order ==> ConditionListRefFree(Lookup(rConditions, k).value)
    ensures ConditionsBuild(d1, rConditions, order) <==> ConditionsBuild(d2, rConditions, order)
    ensures ConditionsBuild(d1, rConditions, order) ==> ConditionsTable(d1, rConditions, order) == ConditionsTable(d2, rConditions, order)
  {
    forall k | k in order
      ensures ConditionsDefinition(d1, Lookup(rConditions, k).value) == ConditionsDefinition(d2, Lookup(rConditions, k).value)
    {
      ConditionsDefinitionFrame(d1, d2, Lookup(rConditions, k).value);
    }
  }

  /**
    fillConditionsMap in closed form: it succeeds exactly when every visited
    definition builds against the registry it started from, and then adds
    them all to it.
   */
  lemma {:induction false} ConditionsMapClosedForm(defs: Definitions, rConditions: Entries, order: seq<string>)
    requires KeysIn(order, rConditions)
    requires Distinct(order)
    requires forall k :: k in order ==> ConditionListRefFree(Lookup(rConditions, k).value)
    ensures ConditionsMapOf(defs, rConditions, order).Success? <==> ConditionsBuild(defs, rConditions, order)
    ensures ConditionsMapOf(defs, rConditions, order).Success? ==>
      ConditionsMapOf(defs, rConditions, order).value == defs.(conditions := defs.conditions + ConditionsTable(defs, rConditions, order))
    decreases order
  {
    if order == [] {
      assert defs.conditions + ConditionsTable(defs, rConditions, order) == defs.conditions;
    } else {
      var first := ConditionsDefinition(defs, Lookup(rConditions, order[0]).value);
      if first.Success? {
        var next := defs.(conditions := defs.conditions[order[0] := first.value]);
        var rest := order[1..];
        RestDistinct(order);
        ConditionsTableFrame(next, defs, rConditions, rest);
        ConditionsMapClosedForm(next, rConditions, rest);
        if ConditionsBuild(defs, rConditions, order) {
          ConditionsTableCons(defs, rConditions, order);
          UnionUpdate(defs.conditions, order[0], first.value, ConditionsTable(defs, rConditions, rest));
        }
      }
    }
  }

  /** Two visiting orders of the same conditions mapping fill the registry alike. */
  lemma ConditionsMapOrderIndependent(defs: Definitions, rConditions: Entries, order1: seq<string>, order2: seq<string>)
    requires KeyOrder(order1, rConditions) && KeyOrder(order2, rConditions)
    requires forall k :: k in Keys(rConditions) ==> ConditionListRefFree(Lookup(rConditions, k).value)
    ensures ConditionsMapOf(defs, rConditions, order1).Success? <==> ConditionsMapOf(defs, rConditions, order2).Success?
    ensures ConditionsMapOf(defs, rConditions, order1).Success? ==> ConditionsMapOf(defs, rConditions, order1).value == ConditionsMapOf(defs, rConditions, order2).value
  {
    ConditionsMapClosedForm(defs, rConditions, order1);
    ConditionsMapClosedForm(defs, rConditions, order2);
    if ConditionsMapOf(defs, rConditions, order1).Success? {
      assert ConditionsTable(defs, rConditions, order1) == ConditionsTable(defs, rConditions, order2);
    }
  }

  lemma ConditionsPhaseOrderIndependent(defs: Definitions, rDefs: Entries, order1: seq<string>, order2: seq<string>)
    requires OrderFor(rDefs, "conditions", order1) && OrderFor(rDefs, "conditions", order2)
    requires ConditionsRefFree(rDefs)
    ensures ConditionsPhase(defs, rDefs, order1).Success? <==> ConditionsPhase(defs, rDefs, order2).Success?
    ensures ConditionsPhase(defs, rDefs, order1).Success? ==> ConditionsPhase(defs, rDefs, order1).value == ConditionsPhase(defs, rDefs, order2).value
  {
    if MapAt(rDefs, "conditions").Some? {
      ConditionsMapOrderIndependent(defs, MapAt(rDefs, "conditions").value, order1, order2);
    }
  }

  // ---------------------------------------------------------------------------
  // The responses namespace

  /** Every responses definition of the document is free of references to its own namespace. */
  predicate ResponsesRefFree(rDefs: Entries)
  {
    MapAt(rDefs, "responses").Some? ==>
      forall k :: k in Keys(MapAt(rDefs, "responses").value) ==> NoRefMap(Lookup(MapAt(rDefs, "responses").value, k).value)
  }

  /** Every definition visited in `order` builds against `defs`. */
  predicate ResponsesBuild(defs: Definitions, rResponses: Entries, order: seq<string>)
    requires KeysIn(order, rResponses)
  {
    forall k :: k in order ==> ResponseDefinition(defs, Lookup(rResponses, k).value).Success?
  }

  /** What fillResponsesMap stores: every visited name bound to its definition built against `defs`. */
  function ResponsesTable(defs: Definitions, rResponses: Entries, order: seq<string>): map<string, Response>
    requires KeysIn(order, rResponses)
    requires ResponsesBuild(defs, rResponses, order)
  {
    map k | k in order :: ResponseDefinition(defs, Lookup(rResponses, k).value).value
  }

  lemma ResponsesTableCons(defs: Definitions, rResponses: Entries, order: seq<string>)
    requires order != [] && KeysIn(order, rResponses)
    requires ResponsesBuild(defs, rResponses, order)
    ensures ResponsesBuild(defs, rResponses, order[1..])
    ensures ResponsesTable(defs, rResponses, order) ==
      ResponsesTable(defs, rResponses, order[1..])[order[0] := ResponseDefinition(defs, Lookup(rResponses, order[0]).value).value]
  {
  }

  /** The table does not depend on the responses namespace it is built against. */
  lemma ResponsesTableFrame(d1: Definitions, d2: Definitions, rResponses: Entries, order: seq<string>)
    requires KeysIn(order, rResponses)
    requires forall k :: k in order ==> NoRefMap(Lookup(rResponses, k).value)
    ensures ResponsesBuild(d1, rResponses, order) <==> ResponsesBuild(d2, rResponses, order)
    ensures ResponsesBuild(d1, rResponses, order) ==> ResponsesTable(d1, rResponses, order) == ResponsesTable(d2, rResponses, order)
  {
    forall k | k in order
      ensures ResponseDefinition(d1, Lookup(rResponses, k).value) == ResponseDefinition(d2, Lookup(rResponses, k).value)
    {
      ResponseDefinitionFrame(d1, d2, Lookup(rResponses, k).value);
    }
  }

  /**
    fillResponsesMap in closed form: it succeeds exactly when every visited
    definition builds against the registry it started from, and then adds
    them all to it.
   */
  lemma {:induction false} ResponsesMapClosedForm(defs: Definitions, rResponses: Entries, order: seq<string>)
    requires KeysIn(order, rResponses)
    requires Distinct(order)
    requires forall k :: k in order ==> NoRefMap(Lookup(rResponses, k).value)
    ensures ResponsesMapOf(defs, rResponses, order).Success? <==> ResponsesBuild(defs, rResponses, order)
    ensures ResponsesMapOf(defs, rResponses, order).Success? ==>
      ResponsesMapOf(defs, rResponses, order).value == defs.(responses := defs.responses + ResponsesTable(defs, rResponses, order))
    decreases order
  {
    if order == [] {
      assert defs.responses + ResponsesTable(defs, rResponses, order) == defs.responses;
    } else {
      var first := ResponseDefinition(defs, Lookup(rResponses, order[0]).value);
      if first.Success? {
        var next := defs.(responses := defs.responses[order[0] := first.value]);
        var rest := order[1..];
        RestDistinct(order);
        ResponsesTableFrame(next, defs, rResponses, rest);
        ResponsesMapClosedForm(next, rResponses, rest);
        if ResponsesBuild(defs, rResponses, order) {
          ResponsesTableCons(defs, rResponses, order);
          UnionUpdate(defs.responses, order[0], first.value, ResponsesTable(defs, rResponses, rest));
        }
      }
    }
  }

  /** Two visiting orders of the same responses mapping fill the registry alike. */
  lemma ResponsesMapOrderIndependent(defs: Definitions, rResponses: Entries, order1: seq<string>, order2: seq<string>)
    requires KeyOrder(order1, rResponses) && KeyOrder(order2, rResponses)
    requires forall k :: k in Keys(rResponses) ==> NoRefMap(Lookup(rResponses, k).value)
    ensures ResponsesMapOf(defs, rResponses, order1).Success? <==> ResponsesMapOf(defs, rResponses, order2).Success?
    ensures ResponsesMapOf(defs, rResponses, order1).Success? ==> ResponsesMapOf(defs, rResponses, order1).value == ResponsesMapOf(defs, rResponses, order2).value
  {
    ResponsesMapClosedForm(defs, rResponses, order1);
    ResponsesMapClosedForm(defs, rResponses, order2);
    if ResponsesMapOf(defs, rResponses, order1).Success? {
      assert ResponsesTable(defs, rResponses, order1) == ResponsesTable(defs, rResponses, order2);
    }
  }

  lemma ResponsesPhaseOrderIndependent(defs: Definitions, rDefs: Entries, order1: seq<string>, order2: seq<string>)
    requires OrderFor(rDefs, "responses", order1) && OrderFor(rDefs, "responses", order2)
    requires ResponsesRefFree(rDefs)
    ensures ResponsesPhase(defs, rDefs, order1).Success? <==> ResponsesPhase(defs, rDefs, order2).Success?
    ensures ResponsesPhase(defs, rDefs, order1).Success? ==> ResponsesPhase(defs, rDefs, order1).value == ResponsesPhase(defs, rDefs, order2).value
  {
    if MapAt(rDefs, "responses").Some? {
      ResponsesMapOrderIndependent(defs, MapAt(rDefs, "responses").value, order1, order2);
    }
  }

  // ---------------------------------------------------------------------------
  // The whole document

  /** No definition refers to its own namespace. */
  predicate NoSelfReference(rDefs: Entries)
  {
    StepsRefFree(rDefs) && FiltersRefFree(rDefs) && ConditionsRefFree(rDefs) && ResponsesRefFree(rDefs)
  }

  /** fillDefinitions fills the registry alike in every visiting order. */
  lemma DefinitionsOrderIndependent(defs: Definitions, rDefs: Entries, orders1: KeyOrders, orders2: KeyOrders)
    requires OrdersFor(rDefs, orders1) && OrdersFor(rDefs, orders2)
    requires NoSelfReference(rDefs)
    ensures DefinitionsOf(defs, rDefs, orders1).Success? <==> DefinitionsOf(defs, rDefs, orders2).Success?
    ensures DefinitionsOf(defs, rDefs, orders1).Success? ==>
      DefinitionsOf(defs, rDefs, orders1).value == DefinitionsOf(defs, rDefs, orders2).value
  {
    StepsPhaseOrderIndependent(defs, rDefs, orders1.steps, orders2.steps);
    var d1 := StepsPhase(defs, rDefs, orders1.steps);
    if d1.Success? {
      FiltersPhaseOrderIndependent(d1.value, rDefs, orders1.filters, orders2.filters);
      var d2 := FiltersPhase(d1.value, rDefs, orders1.filters);
      if d2.Success? {
        ConditionsPhaseOrderIndependent(d2.value, rDefs, orders1.conditions, orders2.conditions);
        var d3 := ConditionsPhase(d2.value, rDefs, orders1.conditions);
        if d3.Success? {
          ResponsesPhaseOrderIndependent(d3.value, rDefs, orders1.responses, orders2.responses);
        }
      }
    }
  }

  /**
    Parsing a document whose definitions do not refer to their own
    namespace gives the same specification, or fails, whatever order Go
    visits the definitions maps in.
   */
  lemma SpecOrderIndependent(root: Node, orders1: KeyOrders, orders2: KeyOrders)
    requires IterationOrders(root, orders1) && IterationOrders(root, orders2)
    requires root.Map? && MapAt(root.entries, "definitions").Some? ==>
      NoSelfReference(MapAt(root.entries, "definitions").value)
    ensures SpecOf(root, orders1).Success? <==> SpecOf(root, orders2).Success?
    ensures SpecOf(root, orders1).Success? ==> SpecOf(root, orders1).value == SpecOf(root, orders2).value
  {
    if root.Map? && MapAt(root.entries, "definitions").Some? {
      DefinitionsOrderIndependent(EmptyDefinitions, MapAt(root.entries, "definitions").value, orders1, orders2);
    }
  }
}
