/**
  What each builder promises, stated against the input document: the cases
  of each probe-ordered grammar, and for every list filler a head-recursive
  reference definition that the accumulating loop is proved to agree with.
 */
module BuilderFacts {
  import opened Outcomes
  import opened Nodes
  import opened Models
  import opened Accessors
  import opened ParserSpec

  /** `prefix` followed by the list that `r` holds; a failure is passed on unchanged. */
  function Prepend<T>(prefix: seq<T>, r: Result<seq<T>>): Result<seq<T>>
  {
    if r.Success? then Success(prefix + r.value) else r
  }

  // ---------------------------------------------------------------------------
  // Steps

  /** Each item's expansion, concatenated in input order. */
  function StepExpansions(defs: Definitions, items: seq<Node>): (r: Result<seq<Step>>)
    ensures r.Success? ==> forall i :: 0 <= i < |items| ==> items[i].Map?
  {
    if items == [] then Success([])
    else if !items[0].Map? then Failure(InvalidInput)
    else
      var first :- StepsOf(defs, items[0].entries);
      var rest :- StepExpansions(defs, items[1..]);
      Success(first + rest)
  }

  /**
    fillStepsItems: an empty list is refused; otherwise the steps after the
    call are the steps before it followed by each item's expansion.
   */
  lemma {:induction false} StepItemsSplice(defs: Definitions, steps: seq<Step>, items: seq<Node>)
    ensures AppendStepItems(defs, steps, items) == Prepend(steps, StepExpansions(defs, items))
    ensures StepItems(defs, steps, items) ==
      if items == [] then Failure(InvalidInput) else Prepend(steps, StepExpansions(defs, items))
    decreases items
  {
    if items == [] {
      assert steps + [] == steps;
    } else if items[0].Map? {
      var first := StepsOf(defs, items[0].entries);
      if first.Success? {
        StepItemsSplice(defs, steps + first.value, items[1..]);
        var rest := StepExpansions(defs, items[1..]);
        if rest.Success? {
          assert steps + first.value + rest.value == steps + (first.value + rest.value);
        }
      }
    }
  }

  // ---------------------------------------------------------------------------
  // Filters

  /**
    createFilters: a `$ref` decides alone, whatever else the item holds;
    otherwise the item is one filter with a non-empty source, an optional
    target, and the expansions of its optional steps in order, and it builds
    exactly when those fields have these shapes.
   */
  lemma FiltersOfCases(defs: Definitions, item: Entries)
    ensures Lookup(item, "$ref").Some? ==>
      FiltersOf(defs, item) ==
        if Lookup(item, "$ref").value.Str? then GetFiltersByReference(defs, Lookup(item, "$ref").value.s)
        else Failure(InvalidInput)
    ensures "$ref" !in Keys(item) && StringOr(item, "source", "") == "" ==> FiltersOf(defs, item).Failure?
    ensures "$ref" !in Keys(item) ==>
      (FiltersOf(defs, item).Success? <==>
        && StringOrAbsent(item, "source")
        && StringOrAbsent(item, "target")
        && StringOr(item, "source", "") != ""
        && (Lookup(item, "steps").None? ||
            (Lookup(item, "steps").value.List? && StepExpansions(defs, Lookup(item, "steps").value.items).Success?)))
    ensures "$ref" !in Keys(item) && FiltersOf(defs, item).Success? ==>
      var fs := FiltersOf(defs, item).value;
      && |fs| == 1
      && fs[0].source == StringOr(item, "source", "") != ""
      && fs[0].target == StringOr(item, "target", "")
      && if ListAt(item, "steps").Some? then StepExpansions(defs, ListAt(item, "steps").value) == Success(fs[0].steps)
         else fs[0].steps == []
  {
    if ListAt(item, "steps").Some? {
      var xs := ListAt(item, "steps").value;
      StepItemsSplice(defs, [], xs);
      if StepExpansions(defs, xs).Success? {
        assert [] + StepExpansions(defs, xs).value == StepExpansions(defs, xs).value;
      }
    }
  }

  function FilterExpansions(defs: Definitions, items: seq<Node>): (r: Result<seq<Filter>>)
    ensures r.Success? ==> forall i :: 0 <= i < |items| ==> items[i].Map?
  {
    if items == [] then Success([])
    else if !items[0].Map? then Failure(InvalidInput)
    else
      var first :- FiltersOf(defs, items[0].entries);
      var rest :- FilterExpansions(defs, items[1..]);
      Success(first + rest)
  }

  /** fillFiltersItems: as for steps. */
  lemma {:induction false} FilterItemsSplice(defs: Definitions, filters: seq<Filter>, items: seq<Node>)
    ensures AppendFilterItems(defs, filters, items) == Prepend(filters, FilterExpansions(defs, items))
    ensures FilterItems(defs, filters, items) ==
      if items == [] then Failure(InvalidInput) else Prepend(filters, FilterExpansions(defs, items))
    decreases items
  {
    if items == [] {
      assert filters + [] == filters;
    } else if items[0].Map? {
      var first := FiltersOf(defs, items[0].entries);
      if first.Success? {
        FilterItemsSplice(defs, filters + first.value, items[1..]);
        var rest := FilterExpansions(defs, items[1..]);
        if rest.Success? {
          assert filters + first.value + rest.value == filters + (first.value + rest.value);
        }
      }
    }
  }

  // ---------------------------------------------------------------------------
  // Checks and conditions

  /**
    createChecks: it succeeds exactly when every item is an object with one
    key, and then yields one check per item, in input order.
   */
  lemma {:induction false} CheckItemsContents(checks: seq<Check>, items: seq<Node>)
    ensures CheckItems(checks, items).Success? <==>
      forall i :: 0 <= i < |items| ==> items[i].Map? && |items[i].entries| == 1
    ensures CheckItems(checks, items).Failure? ==>
      CheckItems(checks, items).error in {InvalidInput, ObjectMustHaveSingleKey}
    ensures CheckItems(checks, items).Success? ==>
      && |CheckItems(checks, items).value| == |checks| + |items|
      && CheckItems(checks, items).value[..|checks|] == checks
      && forall i :: 0 <= i < |items| ==>
           CheckItems(checks, items).value[|checks| + i]
             == Check(items[i].entries[0].0, ParamsOf(items[i].entries[0].1))
    decreases items
  {
    if items != [] && items[0].Map? && |items[0].entries| == 1 {
      var entry := items[0].entries[0];
      var next := checks + [Check(entry.0, ParamsOf(entry.1))];
      CheckItemsContents(next, items[1..]);
      assert forall i :: 1 <= i < |items| ==> items[1..][i - 1] == items[i];
      var r := CheckItems(checks, items);
      if r.Success? {
        forall i | 0 <= i < |items|
          ensures r.value[|checks| + i] == Check(items[i].entries[0].0, ParamsOf(items[i].entries[0].1))
        {
          if i > 0 {
            assert r.value[|next| + (i - 1)] == r.value[|checks| + i];
          }
        }
        assert r.value[..|checks|] == r.value[..|next|][..|checks|];
      }
    }
  }

  /**
    createConditions, probe by probe: `$ref` decides alone; then `any`, then
    `all`, each yielding one condition around the nested list (or invalid
    input when the field is there but not a list); then the leaf
    form, which needs a non-empty `source` and a `checks` list (possibly
    empty). Any inline form yields exactly one condition.
   */
  lemma ConditionsOfCases(defs: Definitions, item: Entries)
    ensures Lookup(item, "$ref").Some? ==>
      ConditionsOf(defs, item) ==
        if Lookup(item, "$ref").value.Str? then GetConditionsByReference(defs, Lookup(item, "$ref").value.s)
        else Failure(InvalidInput)
    ensures "$ref" !in Keys(item) && Lookup(item, "any").Some? && !Lookup(item, "any").value.List? ==>
      ConditionsOf(defs, item) == Failure(InvalidInput)
    ensures "$ref" !in Keys(item) && "any" !in Keys(item) && Lookup(item, "all").Some? && !Lookup(item, "all").value.List? ==>
      ConditionsOf(defs, item) == Failure(InvalidInput)
    ensures "$ref" !in Keys(item) && Lookup(item, "any").Some? && Lookup(item, "any").value.List? ==>
      var nested := ConditionItems(defs, [], Lookup(item, "any").value.items);
      ConditionsOf(defs, item) ==
        if nested.Success? then Success([Condition(nested.value, [], "", [])]) else Failure(nested.error)
    ensures "$ref" !in Keys(item) && "any" !in Keys(item) && Lookup(item, "all").Some? && Lookup(item, "all").value.List? ==>
      var nested := ConditionItems(defs, [], Lookup(item, "all").value.items);
      ConditionsOf(defs, item) ==
        if nested.Success? then Success([Condition([], nested.value, "", [])]) else Failure(nested.error)
    ensures "$ref" !in Keys(item) && "any" !in Keys(item) && "all" !in Keys(item) ==>
      (ConditionsOf(defs, item).Success? <==>
        && StringOrAbsent(item, "source")
        && StringOr(item, "source", "") != ""
        && Lookup(item, "checks").Some?
        && Lookup(item, "checks").value.List?
        && CheckItems([], Lookup(item, "checks").value.items).Success?)
    ensures "$ref" !in Keys(item) && "any" !in Keys(item) && "all" !in Keys(item) && ConditionsOf(defs, item).Success? ==>
      ConditionsOf(defs, item).value ==
        [Condition([], [], StringOr(item, "source", ""), CheckItems([], Lookup(item, "checks").value.items).value)]
    ensures "$ref" !in Keys(item) && ConditionsOf(defs, item).Success? ==> |ConditionsOf(defs, item).value| == 1
  {
  }

  function ConditionExpansions(defs: Definitions, items: seq<Node>): (r: Result<seq<Condition>>)
    ensures r.Success? ==> forall i :: 0 <= i < |items| ==> items[i].Map?
  {
    if items == [] then Success([])
    else if !items[0].Map? then Failure(InvalidInput)
    else
      var first :- ConditionsOf(defs, items[0].entries);
      var rest :- ConditionExpansions(defs, items[1..]);
      Success(first + rest)
  }

  /** fillConditionsItems: as for steps. */
  lemma {:induction false} ConditionItemsSplice(defs: Definitions, conditions: seq<Condition>, items: seq<Node>)
    ensures AppendConditionItems(defs, conditions, items) == Prepend(conditions, ConditionExpansions(defs, items))
    ensures ConditionItems(defs, conditions, items) ==
      if items == [] then Failure(InvalidInput) else Prepend(conditions, ConditionExpansions(defs, items))
    decreases items
  {
    if items == [] {
      assert conditions + [] == conditions;
    } else if items[0].Map? {
      var first := ConditionsOf(defs, items[0].entries);
      if first.Success? {
        ConditionItemsSplice(defs, conditions + first.value, items[1..]);
        var rest := ConditionExpansions(defs, items[1..]);
        if rest.Success? {
          assert conditions + first.value + rest.value == conditions + (first.value + rest.value);
        }
      }
    }
  }

  // ---------------------------------------------------------------------------
  // Responses

  /** Every header value is a list of strings. */
  predicate HeaderListsOfStrings(entries: Entries)
  {
    forall i :: 0 <= i < |entries| ==>
      entries[i].1.List? && forall j :: 0 <= j < |entries[i].1.items| ==> entries[i].1.items[j].Str?
  }

  /** The inner header loop: a non-string element panics, otherwise the strings are appended in order. */
  lemma {:induction false} HeaderValuesOutcome(values: seq<string>, items: seq<Node>)
    ensures HeaderValues(values, items).Success? <==> forall i :: 0 <= i < |items| ==> items[i].Str?
    ensures HeaderValues(values, items).Failure? ==> HeaderValues(values, items).error == Panic
    ensures HeaderValues(values, items).Success? ==>
      && |HeaderValues(values, items).value| == |values| + |items|
      && HeaderValues(values, items).value[..|values|] == values
      && forall i :: 0 <= i < |items| ==> HeaderValues(values, items).value[|values| + i] == items[i].s
    decreases items
  {
    if items != [] && items[0].Str? {
      var next := values + [items[0].s];
      HeaderValuesOutcome(next, items[1..]);
      assert forall i :: 1 <= i < |items| ==> items[1..][i - 1] == items[i];
      var r := HeaderValues(values, items);
      if r.Success? {
        forall i | 0 <= i < |items|
          ensures r.value[|values| + i] == items[i].s
        {
          if i > 0 {
            assert r.value[|next| + (i - 1)] == r.value[|values| + i];
          }
        }
        assert r.value[..|values|] == r.value[..|next|][..|values|];
      }
    }
  }

  /**
    The outer header loop: a value that is not a list is invalid input, a
    list element that is not a string panics.
   */
  lemma {:induction false} HeadersOfOutcome(headers: map<string, seq<string>>, entries: Entries)
    ensures HeadersOf(headers, entries).Success? <==> HeaderListsOfStrings(entries)
    ensures HeadersOf(headers, entries).Failure? ==> HeadersOf(headers, entries).error in {InvalidInput, Panic}
    decreases entries
  {
    if entries != [] && entries[0].1.List? {
      HeaderValuesOutcome([], entries[0].1.items);
      var values := HeaderValues([], entries[0].1.items);
      if values.Success? {
        HeadersOfOutcome(headers[entries[0].0 := values.value], entries[1..]);
        assert forall i :: 1 <= i < |entries| ==> entries[1..][i - 1] == entries[i];
      }
    }
  }

  /**
    createResponse: `$ref` decides alone; otherwise the response is built
    from `status`, `format` and `body` (0 and "" when absent), its header
    mapping is checked, and its headers stay nil.
   */
  lemma ResponseOfCases(defs: Definitions, item: Entries)
    ensures Lookup(item, "$ref").Some? ==>
      ResponseOf(defs, item) ==
        if Lookup(item, "$ref").value.Str? then GetResponseByReference(defs, Lookup(item, "$ref").value.s)
        else Failure(InvalidInput)
    ensures "$ref" !in Keys(item) ==>
      (ResponseOf(defs, item).Success? <==>
        && StringOrAbsent(item, "format")
        && StringOrAbsent(item, "body")
        && (Lookup(item, "status").None? || Lookup(item, "status").value.Int?)
        && (Lookup(item, "headers").None? ||
            (Lookup(item, "headers").value.Map? && HeaderListsOfStrings(Lookup(item, "headers").value.entries))))
    ensures "$ref" !in Keys(item) && ResponseOf(defs, item).Success? ==>
      var resp := ResponseOf(defs, item).value;
      && resp.format == StringOr(item, "format", "")
      && resp.body == StringOr(item, "body", "")
      && resp.headers == map[]
      && resp.status == if Lookup(item, "status").Some? then Lookup(item, "status").value.i else 0
  {
    if MapAt(item, "headers").Some? {
      HeadersOfOutcome(map[], MapAt(item, "headers").value);
    }
  }

  // ---------------------------------------------------------------------------
  // Endpoints

  /**
    createEndpoint: the five strings are copied (or left ""), each nested
    list is built from its field when present and empty otherwise, and an
    endpoint without sub-endpoints and without a response is refused; that
    is the only refusal once every field has the right shape.
   */
  lemma EndpointOfCases(defs: Definitions, item: Entries)
    ensures EndpointOf(defs, item).Success? ==>
      var e := EndpointOf(defs, item).value;
      && e.description == StringOr(item, "description", "")
      && e.host == StringOr(item, "host", "")
      && e.httpMethod == StringOr(item, "method", "")
      && e.path == StringOr(item, "path", "")
      && e.bodyFormat == StringOr(item, "bodyFormat", "")
      && (e.endpoints != [] || e.response.Some?)
      && (if ListAt(item, "filters").Some? then FilterItems(defs, [], ListAt(item, "filters").value) == Success(e.filters)
          else e.filters == [])
      && (if ListAt(item, "conditions").Some? then ConditionItems(defs, [], ListAt(item, "conditions").value) == Success(e.conditions)
          else e.conditions == [])
      && (if ListAt(item, "endpoints").Some? then EndpointItems(defs, [], ListAt(item, "endpoints").value) == Success(e.endpoints)
          else e.endpoints == [])
      && (if MapAt(item, "response").Some? then
            e.response.Some? && ResponseOf(defs, MapAt(item, "response").value) == Success(e.response.value)
          else e.response.None?)
    ensures Lookup(item, "response").None? && Lookup(item, "endpoints") in {None, Some(List([]))} ==>
      EndpointOf(defs, item).Failure?
    ensures EndpointOf(defs, item).Success? <==>
      && (forall i :: 0 <= i < |EndpointFields| ==> StringOrAbsent(item, EndpointFields[i]))
      && (Lookup(item, "filters").None? ||
          (Lookup(item, "filters").value.List? && FilterItems(defs, [], Lookup(item, "filters").value.items).Success?))
      && (Lookup(item, "conditions").None? ||
          (Lookup(item, "conditions").value.List? && ConditionItems(defs, [], Lookup(item, "conditions").value.items).Success?))
      && (Lookup(item, "endpoints").None? ||
          (Lookup(item, "endpoints").value.List? && EndpointItems(defs, [], Lookup(item, "endpoints").value.items).Success?))
      && (Lookup(item, "response").None? ||
          (Lookup(item, "response").value.Map? && ResponseOf(defs, Lookup(item, "response").value.entries).Success?))
      && ((ListAt(item, "endpoints").Some? && ListAt(item, "endpoints").value != []) || MapAt(item, "response").Some?)
  {
    EndpointOfFields(defs, item);
    EndpointOfSucceeds(defs, item);
  }

  /** What a built endpoint holds, field by field. */
  lemma EndpointOfFields(defs: Definitions, item: Entries)
    ensures EndpointOf(defs, item).Success? ==>
      var e := EndpointOf(defs, item).value;
      && e.description == StringOr(item, "description", "")
      && e.host == StringOr(item, "host", "")
      && e.httpMethod == StringOr(item, "method", "")
      && e.path == StringOr(item, "path", "")
      && e.bodyFormat == StringOr(item, "bodyFormat", "")
      && (e.endpoints != [] || e.response.Some?)
      && (if ListAt(item, "filters").Some? then FilterItems(defs, [], ListAt(item, "filters").value) == Success(e.filters)
          else e.filters == [])
      && (if ListAt(item, "conditions").Some? then ConditionItems(defs, [], ListAt(item, "conditions").value) == Success(e.conditions)
          else e.conditions == [])
      && (if ListAt(item, "endpoints").Some? then EndpointItems(defs, [], ListAt(item, "endpoints").value) == Success(e.endpoints)
          else e.endpoints == [])
      && (if MapAt(item, "response").Some? then
            e.response.Some? && ResponseOf(defs, MapAt(item, "response").value) == Success(e.response.value)
          else e.response.None?)
  {
    EndpointOfFieldsSteps(defs, item);
    EndpointOfSucceedsSteps(defs, item);
  }

  /** The endpoint createEndpoint builds, read off the extractors' results. */
  lemma EndpointOfFieldsSteps(defs: Definitions, item: Entries)
    ensures EndpointOf(defs, item).Success? ==>
      var fields := FilledStrings(item, EndpointFields, ["", "", "", "", ""]);
      var rFilters := ExtractSliceOfAny(item, "filters");
      var rConditions := ExtractSliceOfAny(item, "conditions");
      var rEndpoints := ExtractSliceOfAny(item, "endpoints");
      var rResponse := ExtractStringMap(item, "response");
      && fields.Success? && rFilters.Success? && rConditions.Success? && rEndpoints.Success? && rResponse.Success?
      && (rFilters.value.Some? ==> FilterItems(defs, [], rFilters.value.value).Success?)
      && (rConditions.value.Some? ==> ConditionItems(defs, [], rConditions.value.value).Success?)
      && (rEndpoints.value.Some? ==> EndpointItems(defs, [], rEndpoints.value.value).Success?)
      && (rResponse.value.Some? ==> ResponseOf(defs, rResponse.value.value).Success?)
      && EndpointOf(defs, item).value ==
           Endpoint(fields.value[0], fields.value[1], fields.value[2], fields.value[3], fields.value[4],
             if rFilters.value.Some? then FilterItems(defs, [], rFilters.value.value).value else [],
             if rConditions.value.Some? then ConditionItems(defs, [], rConditions.value.value).value else [],
             if rEndpoints.value.Some? then EndpointItems(defs, [], rEndpoints.value.value).value else [],
             if rResponse.value.Some? then Some(ResponseOf(defs, rResponse.value.value).value) else None)
  {
  }

  /** When createEndpoint succeeds: every field has its shape, and there is something to serve. */
  lemma EndpointOfSucceeds(defs: Definitions, item: Entries)
    ensures Lookup(item, "response").None? && Lookup(item, "endpoints") in {None, Some(List([]))} ==>
      EndpointOf(defs, item).Failure?
    ensures EndpointOf(defs, item).Success? <==>
      && (forall i :: 0 <= i < |EndpointFields| ==> StringOrAbsent(item, EndpointFields[i]))
      && (Lookup(item, "filters").None? ||
          (Lookup(item, "filters").value.List? && FilterItems(defs, [], Lookup(item, "filters").value.items).Success?))
      && (Lookup(item, "conditions").None? ||
          (Lookup(item, "conditions").value.List? && ConditionItems(defs, [], Lookup(item, "conditions").value.items).Success?))
      && (Lookup(item, "endpoints").None? ||
          (Lookup(item, "endpoints").value.List? && EndpointItems(defs, [], Lookup(item, "endpoints").value.items).Success?))
      && (Lookup(item, "response").None? ||
          (Lookup(item, "response").value.Map? && ResponseOf(defs, Lookup(item, "response").value.entries).Success?))
      && ((ListAt(item, "endpoints").Some? && ListAt(item, "endpoints").value != []) || MapAt(item, "response").Some?)
  {
    EndpointOfSucceedsSteps(defs, item);
    if ListAt(item, "endpoints").Some? {
      var xs := ListAt(item, "endpoints").value;
      EndpointItemsSplice(defs, [], xs);
      EndpointExpansionsContents(defs, xs);
    }
  }

  /** The success condition of createEndpoint, read off the extractors' results. */
  lemma EndpointOfSucceedsSteps(defs: Definitions, item: Entries)
    ensures
      var rFilters := ExtractSliceOfAny(item, "filters");
      var rConditions := ExtractSliceOfAny(item, "conditions");
      var rEndpoints := ExtractSliceOfAny(item, "endpoints");
      var rResponse := ExtractStringMap(item, "response");
      EndpointOf(defs, item).Success? <==>
        && FilledStrings(item, EndpointFields, ["", "", "", "", ""]).Success?
        && rFilters.Success? && (rFilters.value.Some? ==> FilterItems(defs, [], rFilters.value.value).Success?)
        && rConditions.Success? && (rConditions.value.Some? ==> ConditionItems(defs, [], rConditions.value.value).Success?)
        && rEndpoints.Success? && (rEndpoints.value.Some? ==> EndpointItems(defs, [], rEndpoints.value.value).Success?)
        && rResponse.Success? && (rResponse.value.Some? ==> ResponseOf(defs, rResponse.value.value).Success?)
        && ((rEndpoints.value.Some? && EndpointItems(defs, [], rEndpoints.value.value).value != []) || rResponse.value.Some?)
  {
  }

  /** One endpoint per item, in input order. */
  function EndpointExpansions(defs: Definitions, items: seq<Node>): Result<seq<Endpoint>>
  {
    if items == [] then Success([])
    else if !items[0].Map? then Failure(InvalidInput)
    else
      var first :- EndpointOf(defs, items[0].entries);
      var rest :- EndpointExpansions(defs, items[1..]);
      Success([first] + rest)
  }

  /**
    The reference list succeeds exactly when every item is an object that
    makes an endpoint, and then holds those endpoints, one per item.
   */
  lemma {:induction false} EndpointExpansionsContents(defs: Definitions, items: seq<Node>)
    ensures EndpointExpansions(defs, items).Success? <==>
      forall i :: 0 <= i < |items| ==> items[i].Map? && EndpointOf(defs, items[i].entries).Success?
    ensures EndpointExpansions(defs, items).Success? ==>
      && |EndpointExpansions(defs, items).value| == |items|
      && forall i :: 0 <= i < |items| ==> EndpointOf(defs, items[i].entries) == Success(EndpointExpansions(defs, items).value[i])
  {
    EndpointExpansionsSucceed(defs, items);
    EndpointExpansionsValues(defs, items);
  }

  /** The reference list succeeds exactly when every item is an object that makes an endpoint. */
  lemma {:induction false} EndpointExpansionsSucceed(defs: Definitions, items: seq<Node>)
    ensures EndpointExpansions(defs, items).Success? <==>
      forall i :: 0 <= i < |items| ==> items[i].Map? && EndpointOf(defs, items[i].entries).Success?
  {
    if items != [] && items[0].Map? && EndpointOf(defs, items[0].entries).Success? {
      EndpointExpansionsSucceed(defs, items[1..]);
      assert EndpointExpansions(defs, items).Success? <==> EndpointExpansions(defs, items[1..]).Success?;
      forall i | 1 <= i < |items|
        ensures items[1..][i - 1] == items[i]
      {
      }
    }
  }

  /** A successful reference list holds, item by item, the endpoint each object makes. */
  lemma {:induction false} EndpointExpansionsValues(defs: Definitions, items: seq<Node>)
    ensures EndpointExpansions(defs, items).Success? ==>
      && |EndpointExpansions(defs, items).value| == |items|
      && forall i :: 0 <= i < |items| ==>
           items[i].Map? && EndpointOf(defs, items[i].entries) == Success(EndpointExpansions(defs, items).value[i])
  {
    if items != [] && items[0].Map? && EndpointOf(defs, items[0].entries).Success? {
      EndpointExpansionsValues(defs, items[1..]);
      assert forall i :: 1 <= i < |items| ==> items[1..][i - 1] == items[i];
    }
  }

  /** fillEndpoints: the endpoints before the call, followed by one per item. */
  lemma {:induction false} EndpointItemsSplice(defs: Definitions, endpoints: seq<Endpoint>, items: seq<Node>)
    ensures EndpointItems(defs, endpoints, items) == Prepend(endpoints, EndpointExpansions(defs, items))
    decreases items
  {
    if items == [] {
      assert endpoints + [] == endpoints;
    } else if items[0].Map? {
      var first := EndpointOf(defs, items[0].entries);
      if first.Success? {
        EndpointItemsSplice(defs, endpoints + [first.value], items[1..]);
        var rest := EndpointExpansions(defs, items[1..]);
        if rest.Success? {
          assert endpoints + [first.value] + rest.value == endpoints + ([first.value] + rest.value);
        }
      }
    }
  }
}
