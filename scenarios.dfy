/**
  Concrete documents and what the parser makes of them, including the
  boundary cases where the code's behaviour is easy to misread.
 */
module Scenarios {
  import opened Outcomes
  import opened Nodes
  import opened Models
  import opened Accessors
  import opened ParserSpec
  import BuilderFacts

  const NoOrders := KeyOrders([], [], [], [])

  const SingleResponse: Entries := [("status", Int(200)), ("body", Str("ok"))]
  const SingleEndpoint: Entries := [("path", Str("/x")), ("method", Str("GET")), ("response", Map(SingleResponse))]
  const SingleEndpointRoot := Map([("endpoints", List([Map(SingleEndpoint)]))])

  /** The inline response: status and body are read, the missing format stays empty. */
  lemma SingleResponseBuilt()
    ensures ResponseOf(EmptyDefinitions, SingleResponse) == Success(Response(200, "", map[], "ok"))
  {
    assert Keys(SingleResponse) == {"status", "body"};
    assert Lookup(SingleResponse, "$ref") == None && Lookup(SingleResponse, "headers") == None;
    assert Lookup(SingleResponse, "format") == None && Lookup(SingleResponse, "body") == Some(Str("ok"));
    var strings := FilledStrings(SingleResponse, ["format", "body"], ["", ""]).value;
    assert strings == ["", "ok"];
    assert Lookup(SingleResponse, "status") == Some(Int(200));
  }

  /** The endpoint takes its path and method and the response above. */
  lemma SingleEndpointBuilt()
    ensures EndpointOf(EmptyDefinitions, SingleEndpoint) ==
      Success(Endpoint("", "", "GET", "/x", "", [], [], [], Some(Response(200, "", map[], "ok"))))
  {
    SingleResponseBuilt();
    assert SingleEndpoint[1..][1..] == [("response", Map(SingleResponse))];
    assert Keys(SingleEndpoint[1..][1..]) == {"response"};
    assert Keys(SingleEndpoint[1..]) == {"method", "response"};
    assert Keys(SingleEndpoint) == {"path", "method", "response"};
    assert Lookup(SingleEndpoint, "description") == None && Lookup(SingleEndpoint, "host") == None;
    assert Lookup(SingleEndpoint, "method") == Some(Str("GET")) && Lookup(SingleEndpoint, "path") == Some(Str("/x"));
    assert Lookup(SingleEndpoint, "bodyFormat") == None;
    var fields := FilledStrings(SingleEndpoint, EndpointFields, ["", "", "", "", ""]).value;
    assert fields == ["", "", "GET", "/x", ""];
    assert Lookup(SingleEndpoint, "filters") == None && Lookup(SingleEndpoint, "conditions") == None;
    assert Lookup(SingleEndpoint, "endpoints") == None;
    assert Lookup(SingleEndpoint[1..][1..], "response") == Some(Map(SingleResponse));
    assert Lookup(SingleEndpoint, "response") == Some(Map(SingleResponse));
    BuilderFacts.EndpointOfSucceeds(EmptyDefinitions, SingleEndpoint);
    BuilderFacts.EndpointOfFields(EmptyDefinitions, SingleEndpoint);
  }

  /** A single endpoint with a path, a method and an inline response. */
  lemma SingleEndpointDocument()
    ensures IterationOrders(SingleEndpointRoot, NoOrders)
    ensures SpecOf(SingleEndpointRoot, NoOrders) ==
      Success(Spec(EmptyDefinitions,
        [Endpoint("", "", "GET", "/x", "", [], [], [], Some(Response(200, "", map[], "ok")))]))
  {
    SingleEndpointBuilt();
    var defs := EmptyDefinitions;
    var e := Endpoint("", "", "GET", "/x", "", [], [], [], Some(Response(200, "", map[], "ok")));
    var items := [Map(SingleEndpoint)];
    assert items[1..] == [] && [] + [e] == [e];
    assert EndpointItems(defs, [], items) == EndpointItems(defs, [e], []);
    assert Lookup(SingleEndpointRoot.entries, "definitions") == None;
    assert Lookup(SingleEndpointRoot.entries, "endpoints") == Some(List(items));
  }

  const IsAdminItem: Entries := [("source", Str("role")), ("checks", List([Map([("equals", Str("admin"))])]))]
  const IsAdminConditions: Entries := [("isAdmin", List([Map(IsAdminItem)]))]
  const IsAdminEndpoint: Entries :=
    [("conditions", List([Map([("$ref", Str("isAdmin"))])])), ("response", Map([]))]
  const IsAdminRoot := Map([
    ("definitions", Map([("conditions", Map(IsAdminConditions))])),
    ("endpoints", List([Map(IsAdminEndpoint)]))])
  const IsAdminOrders := KeyOrders([], [], ["isAdmin"], [])
  const IsAdmin := [Condition([], [], "role", [Check("equals", [("value", Str("admin"))])])]

  /** The definitions block registers the one leaf condition under "isAdmin". */
  lemma IsAdminDefinitions()
    ensures Lookup(IsAdminRoot.entries, "definitions") == Some(Map([("conditions", Map(IsAdminConditions))]))
    ensures IterationOrders(IsAdminRoot, IsAdminOrders)
    ensures DefinitionsOf(EmptyDefinitions, [("conditions", Map(IsAdminConditions))], IsAdminOrders) ==
      Success(Definitions(map[], map[], map["isAdmin" := IsAdmin], map[]))
  {
    var rDefs: Entries := [("conditions", Map(IsAdminConditions))];
    assert Keys(IsAdminConditions) == {"isAdmin"};
    assert KeyOrder(["isAdmin"], IsAdminConditions);
    assert Lookup(IsAdminRoot.entries, "definitions") == Some(Map(rDefs));
    assert Lookup(rDefs, "conditions") == Some(Map(IsAdminConditions));
    var checkItems := [Map([("equals", Str("admin"))])];
    assert checkItems[1..] == [] && checkItems[0].entries[0] == ("equals", Str("admin"));
    assert [] + [Check("equals", [("value", Str("admin"))])] == IsAdmin[0].checks;
    assert CheckItems([], checkItems) == Success(IsAdmin[0].checks);
    assert Keys(IsAdminItem) == {"source", "checks"};
    assert Lookup(IsAdminItem, "$ref") == None && Lookup(IsAdminItem, "any") == None && Lookup(IsAdminItem, "all") == None;
    assert Lookup(IsAdminItem, "source") == Some(Str("role")) && Lookup(IsAdminItem, "checks") == Some(List(checkItems));
    assert ConditionsOf(EmptyDefinitions, IsAdminItem) == Success(IsAdmin);
    var defItems := [Map(IsAdminItem)];
    assert defItems[1..] == [] && [] + IsAdmin == IsAdmin;
    assert AppendConditionItems(EmptyDefinitions, [], defItems) == AppendConditionItems(EmptyDefinitions, IsAdmin, []);
    assert ConditionsDefinition(EmptyDefinitions, List(defItems)) == Success(IsAdmin);
    assert Keys(rDefs) == {"conditions"};
    assert Lookup(rDefs, "steps") == None && Lookup(rDefs, "filters") == None && Lookup(rDefs, "responses") == None;
  }

  /** When none of the named fields is present, every target keeps its value. */
  lemma {:induction false} AbsentFieldsKept(input: Entries, names: seq<string>, values: seq<string>)
    requires |names| == |values|
    requires forall i :: 0 <= i < |names| ==> names[i] !in Keys(input)
    ensures FilledStrings(input, names, values) == Success(values)
  {
    if names != [] {
      assert forall i :: 0 <= i < |names| - 1 ==> names[1..][i] == names[i + 1];
      AbsentFieldsKept(input, names[1..], values[1..]);
      assert FillString(values[0], input, names[0]) == Success(values[0]);
      assert [values[0]] + values[1..] == values;
    }
  }

  /** The list `[{$ref: isAdmin}]` expands to the stored conditions. */
  lemma IsAdminReference(defs: Definitions)
    requires defs.conditions == map["isAdmin" := IsAdmin]
    ensures ConditionItems(defs, [], [Map([("$ref", Str("isAdmin"))])]) == Success(IsAdmin)
  {
    var refItem: Entries := [("$ref", Str("isAdmin"))];
    assert ConditionsOf(defs, refItem) == Success(IsAdmin);
    var refItems := [Map(refItem)];
    assert refItems[1..] == [] && [] + IsAdmin == IsAdmin;
    assert AppendConditionItems(defs, [], refItems) == AppendConditionItems(defs, IsAdmin, []);
  }

  /** The endpoint's condition `$ref: isAdmin` resolves to the stored list, and `response: {}` counts. */
  lemma IsAdminEndpointBuilt()
    ensures EndpointOf(Definitions(map[], map[], map["isAdmin" := IsAdmin], map[]), IsAdminEndpoint) ==
      Success(Endpoint("", "", "", "", "", [], IsAdmin, [], Some(Response(0, "", map[], ""))))
  {
    var defs := Definitions(map[], map[], map["isAdmin" := IsAdmin], map[]);
    var refItems := [Map([("$ref", Str("isAdmin"))])];
    IsAdminReference(defs);
    assert ResponseOf(defs, []) == Success(Response(0, "", map[], ""));
    assert Keys(IsAdminEndpoint) == {"conditions", "response"};
    assert Lookup(IsAdminEndpoint, "conditions") == Some(List(refItems));
    assert Lookup(IsAdminEndpoint, "response") == Some(Map([]));
    assert Lookup(IsAdminEndpoint, "filters") == None && Lookup(IsAdminEndpoint, "endpoints") == None;
    AbsentFieldsKept(IsAdminEndpoint, EndpointFields, ["", "", "", "", ""]);
    assert ExtractSliceOfAny(IsAdminEndpoint, "filters") == Success(None);
    assert ExtractSliceOfAny(IsAdminEndpoint, "conditions") == Success(Some(refItems));
    assert ExtractSliceOfAny(IsAdminEndpoint, "endpoints") == Success(None);
    assert ExtractStringMap(IsAdminEndpoint, "response") == Success(Some([]));
  }

  /** An endpoint condition `$ref: isAdmin` resolves to the stored leaf condition. */
  lemma ConditionReferenceDocument()
    ensures IterationOrders(IsAdminRoot, IsAdminOrders)
    ensures SpecOf(IsAdminRoot, IsAdminOrders) ==
      Success(Spec(
        Definitions(map[], map[], map["isAdmin" := IsAdmin], map[]),
        [Endpoint("", "", "", "", "", [], IsAdmin, [], Some(Response(0, "", map[], "")))]))
  {
    IsAdminDefinitions();
    IsAdminEndpointBuilt();
    var defs := Definitions(map[], map[], map["isAdmin" := IsAdmin], map[]);
    var e := Endpoint("", "", "", "", "", [], IsAdmin, [], Some(Response(0, "", map[], "")));
    var items := [Map(IsAdminEndpoint)];
    assert items[1..] == [] && [] + [e] == [e];
    assert EndpointItems(defs, [], items) == EndpointItems(defs, [e], []);
    assert Lookup(IsAdminRoot.entries, "endpoints") == Some(List(items));
  }

  /** A step whose value is not a mapping keeps it under "value". */
  lemma BareStepValue(defs: Definitions)
    ensures StepsOf(defs, [("uppercase", Null)]) == Success([Step("uppercase", [("value", Null)])])
  {
    var item: Entries := [("uppercase", Null)];
    assert Keys(item) == {"uppercase"};
    var steps := StepsOf(defs, item).value;
    assert steps[0] == Step("uppercase", [("value", Null)]);
    assert steps == [Step("uppercase", [("value", Null)])];
  }

  /** An empty step item yields no step at all. */
  lemma EmptyStepItem(defs: Definitions)
    ensures StepsOf(defs, []) == Success([])
  {
  }

  /** A `$ref` to a name that is not registered is an unknown definition of that namespace. */
  lemma UnknownStepReference()
    ensures StepsOf(EmptyDefinitions, [("$ref", Str("missing"))]) == Failure(UnknownDefinition("steps", "missing"))
  {
  }

  /** With both `any` and `all`, only `any` is used. */
  lemma AnyBeforeAll(defs: Definitions)
    ensures
      var leaf1 := Map([("source", Str("a")), ("checks", List([]))]);
      var leaf2 := Map([("source", Str("b")), ("checks", List([]))]);
      ConditionsOf(defs, [("all", List([leaf2])), ("any", List([leaf1]))]) ==
        Success([Condition([Condition([], [], "a", [])], [], "", [])])
  {
    var leaf1: Entries := [("source", Str("a")), ("checks", List([]))];
    var items := [Map(leaf1)];
    var c := Condition([], [], "a", []);
    assert ConditionsOf(defs, leaf1) == Success([c]);
    assert items[1..] == [];
    assert [] + [c] == [c];
    assert AppendConditionItems(defs, [], items) == AppendConditionItems(defs, [c], []);
    assert ConditionItems(defs, [], items) == Success([c]);
    var leaf2: Entries := [("source", Str("b")), ("checks", List([]))];
    var item: Entries := [("all", List([Map(leaf2)])), ("any", List(items))];
    assert Lookup(item, "$ref") == None;
    assert Lookup(item, "any") == Some(List(items));
    assert ExtractSliceOfAny(item, "any") == Success(Some(items));
  }

  /** A leaf condition with an empty `checks` list is accepted. */
  lemma EmptyChecksAccepted(defs: Definitions)
    ensures ConditionsOf(defs, [("source", Str("role")), ("checks", List([]))]) ==
      Success([Condition([], [], "role", [])])
  {
  }

  /** A leaf condition without `checks` is refused. */
  lemma MissingChecksRefused(defs: Definitions)
    ensures ConditionsOf(defs, [("source", Str("role"))]) == Failure(InvalidInput)
  {
  }

  /** `any: []` is refused, as every empty list of conditions is. */
  lemma EmptyAnyRefused(defs: Definitions)
    ensures ConditionsOf(defs, [("any", List([]))]) == Failure(InvalidInput)
  {
  }

  /** A filter with an empty `steps` list is valid. */
  lemma FilterWithoutSteps(defs: Definitions)
    ensures FiltersOf(defs, [("source", Str("a")), ("target", Str("b")), ("steps", List([]))]) ==
      Success([Filter("a", "b", [])])
  {
  }

  /** An endpoint with `endpoints: []` and no response is refused. */
  lemma EmptyEndpointsWithoutResponse(defs: Definitions)
    ensures EndpointOf(defs, [("endpoints", List([]))]) == Failure(InvalidInput)
  {
  }

  /** An empty `response` mapping is a response. */
  lemma EmptyResponseCounts(defs: Definitions)
    ensures EndpointOf(defs, [("endpoints", List([])), ("response", Map([]))]) ==
      Success(Endpoint("", "", "", "", "", [], [], [], Some(Response(0, "", map[], ""))))
  {
    var item: Entries := [("endpoints", List([])), ("response", Map([]))];
    assert Keys(item) == {"endpoints", "response"};
    assert Lookup(item, "endpoints") == Some(List([])) && Lookup(item, "response") == Some(Map([]));
    AbsentFieldsKept(item, EndpointFields, ["", "", "", "", ""]);
    assert ResponseOf(defs, []) == Success(Response(0, "", map[], ""));
    BuilderFacts.EndpointOfSucceedsSteps(defs, item);
    BuilderFacts.EndpointOfFieldsSteps(defs, item);
  }

  /** An endpoint's `filters: []` is refused, though leaving `filters` out is fine. */
  lemma EmptyEndpointFiltersRefused(defs: Definitions)
    ensures EndpointOf(defs, [("filters", List([])), ("response", Map([]))]) == Failure(InvalidInput)
  {
  }

  /** Valid headers are checked, then dropped. */
  lemma HeadersDropped(defs: Definitions)
    ensures ResponseOf(defs, [("headers", Map([("X-Id", List([Str("1")]))]))]) ==
      Success(Response(0, "", map[], ""))
  {
  }

  /** A header value that is not a list is invalid input; a list element that is not a string panics. */
  lemma HeaderShapes(defs: Definitions)
    ensures ResponseOf(defs, [("headers", Map([("X-Id", Str("1"))]))]) == Failure(InvalidInput)
    ensures ResponseOf(defs, [("headers", Map([("X-Id", List([Int(1)]))]))]) == Failure(Panic)
  {
  }

  const SiblingConditions: Entries := [
    ("a", List([Map([("$ref", Str("b"))])])),
    ("b", List([Map([("source", Str("x")), ("checks", List([]))])]))]
  const SiblingRoot := Map([("definitions", Map([("conditions", Map(SiblingConditions))]))])
  const SiblingFirst := KeyOrders([], [], ["b", "a"], [])
  const SiblingLast := KeyOrders([], [], ["a", "b"], [])

  /** Both visiting orders of the sibling conditions are orders of its keys. */
  lemma SiblingKeyOrders()
    ensures KeyOrder(["b", "a"], SiblingConditions) && KeyOrder(["a", "b"], SiblingConditions)
  {
    assert Keys(SiblingConditions) == {"a", "b"};
  }

  /** The definitions block of the sibling document, with its key orders. */
  lemma SiblingShape()
    ensures Lookup(SiblingRoot.entries, "definitions") == Some(Map([("conditions", Map(SiblingConditions))]))
    ensures Lookup(SiblingRoot.entries, "endpoints") == None
    ensures IterationOrders(SiblingRoot, SiblingFirst) && IterationOrders(SiblingRoot, SiblingLast)
  {
    var rDefs: Entries := [("conditions", Map(SiblingConditions))];
    SiblingKeyOrders();
    assert Lookup(SiblingRoot.entries, "definitions") == Some(Map(rDefs));
    assert Keys(rDefs) == {"conditions"};
    assert Lookup(rDefs, "conditions") == Some(Map(SiblingConditions));
    assert OrdersFor(rDefs, SiblingFirst) && OrdersFor(rDefs, SiblingLast);
  }

  /** Visiting "b" first stores it, and then "a" finds it. */
  lemma SiblingFirstSucceeds()
    ensures ConditionsMapOf(EmptyDefinitions, SiblingConditions, ["b", "a"]) ==
      Success(EmptyDefinitions.(conditions := map["b" := [Condition([], [], "x", [])], "a" := [Condition([], [], "x", [])]]))
  {
    var refItem: Entries := [("$ref", Str("b"))];
    var leafItem: Entries := [("source", Str("x")), ("checks", List([]))];
    assert Lookup(SiblingConditions, "a").value == List([Map(refItem)]);
    assert Lookup(SiblingConditions, "b").value == List([Map(leafItem)]);
    var leaf := [Condition([], [], "x", [])];
    assert Keys(leafItem) == {"source", "checks"};
    assert Lookup(leafItem, "$ref") == None && Lookup(leafItem, "any") == None && Lookup(leafItem, "all") == None;
    assert Lookup(leafItem, "checks") == Some(List([]));
    assert ConditionsOf(EmptyDefinitions, leafItem) == Success(leaf);
    assert [Map(leafItem)][1..] == [] && [] + leaf == leaf;
    assert AppendConditionItems(EmptyDefinitions, [], [Map(leafItem)]) == AppendConditionItems(EmptyDefinitions, leaf, []);
    assert ConditionsDefinition(EmptyDefinitions, List([Map(leafItem)])) == Success(leaf);
    var withB := EmptyDefinitions.(conditions := map["b" := leaf]);
    assert ConditionsOf(withB, refItem) == Success(leaf);
    assert [Map(refItem)][1..] == [];
    assert AppendConditionItems(withB, [], [Map(refItem)]) == AppendConditionItems(withB, leaf, []);
    assert ConditionsDefinition(withB, List([Map(refItem)])) == Success(leaf);
  }

  /** Visiting "a" first: "b" is not registered yet. */
  lemma SiblingLastFails()
    ensures ConditionsMapOf(EmptyDefinitions, SiblingConditions, ["a", "b"]) ==
      Failure(UnknownDefinition("conditions", "b"))
  {
    var refItem: Entries := [("$ref", Str("b"))];
    assert Lookup(SiblingConditions, "a").value == List([Map(refItem)]);
    assert ConditionsOf(EmptyDefinitions, refItem) == Failure(UnknownDefinition("conditions", "b"));
    assert ConditionsDefinition(EmptyDefinitions, List([Map(refItem)])) == Failure(UnknownDefinition("conditions", "b"));
  }

  /**
    A condition defined as a `$ref` to a sibling condition: the document
    parses when Go happens to visit the sibling first, and fails otherwise.
   */
  lemma SiblingReferenceDependsOnOrder()
    ensures IterationOrders(SiblingRoot, SiblingFirst) && IterationOrders(SiblingRoot, SiblingLast)
    ensures SpecOf(SiblingRoot, SiblingFirst).Success?
    ensures SpecOf(SiblingRoot, SiblingLast) == Failure(UnknownDefinition("conditions", "b"))
  {
    SiblingShape();
    SiblingFirstSucceeds();
    SiblingLastFails();
    var rDefs: Entries := [("conditions", Map(SiblingConditions))];
    assert Keys(rDefs) == {"conditions"};
    assert Lookup(rDefs, "steps") == None && Lookup(rDefs, "filters") == None && Lookup(rDefs, "responses") == None;
    assert DefinitionsOf(EmptyDefinitions, rDefs, SiblingFirst).Success?;
    assert DefinitionsOf(EmptyDefinitions, rDefs, SiblingLast) == Failure(UnknownDefinition("conditions", "b"));
  }
}
