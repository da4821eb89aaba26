# mockspec parser, modelled in Dafny

This project models the parser of the mockspec Go package (`parser.go`) and the
types it builds (`models.go`). The parser turns an already-decoded YAML
document (a tree of maps, lists, strings, ints and other scalars) into a typed
`Spec`: a registry of named definitions (step groups, filters, conditions and
responses) and a tree of endpoints. Any `$ref` in the document is resolved
against that registry. Every failure is an early return.

Layout, one module per file:

- `outcomes.dfy`, module `Outcomes`: the error kinds and `Result`/`Option`. The
  kinds are invalid input, "object must have a single key", unknown definition
  (with its namespace and name), and `Panic`. `Panic` stands for the unchecked
  `headerValue.(string)` type assertion.
- `nodes.dfy`, module `Nodes`: the decoded tree `Node`, its size (which drives
  termination of the mutual recursion), key lookup, and `KeyOrder`, the orders
  in which Go's `range` may visit a map.
- `models.dfy`, module `Models`: `Spec`, `Definitions`, `Endpoint`, `Step`,
  `Filter`, `Condition`, `Check` and `Response` as datatypes. Also the shape
  predicates `WellShaped` (a condition is exactly one of any / all /
  source+checks) and `Complete` (an endpoint has sub-endpoints or a response).
- `accessors.dfy`, module `Accessors`: `extractString`, `extractInt`,
  `extractStringMap`, `extractSliceOfAny`, `fillString`, `fillInt` and
  `fillStrings`.
- `parser_spec.dfy`, module `ParserSpec`: the parser as functions. Each builder
  and each `fill*` loop is a function of the registry built so far. Every loop
  over a definitions map takes the visiting order as an explicit parameter
  (`KeyOrders`), because Go's map order is unspecified and the code is
  sensitive to it.
- `parser.dfy`, module `Parser`: the parser as the code writes it.
  - `for` loops append to the slices built so far.
  - A `Registry` class holds the four definition maps. `fillStepsMap` and its
    three siblings update those maps in place.
  - Each method is proved equal to its function in `ParserSpec`.
- `builder_facts.dfy`, module `BuilderFacts`: what each builder promises. This
  covers the probe order, the error conditions, and the outputs. Each list
  filler's result is the old list followed by every item's expansion, in
  order.
- `invariants.dfy`, module `Invariants`: an invariant the registry keeps
  through every phase, and what a successful parse guarantees.
  - The invariant: stored filters have a source, stored conditions are well
    shaped and non-empty, and stored responses have no headers.
  - A successful parse: every endpoint is complete, and each phase of
    `fillDefinitions` touches only its own namespace.
- `order.dfy`, module `OrderIndependence`: if no definition refers to its own
  namespace, the outcome does not depend on Go's map order.
- `scenarios.dfy`, module `Scenarios`: concrete documents. These include a
  sibling `$ref` that parses in one visiting order and fails in the other.

Some behaviours of the code are easy to misread; the model keeps them as the
code has them:

- A leaf condition with `checks: []` is accepted and has no checks. A reader
  might expect `checks` to be required non-empty; the code only requires the
  field to be present (parser.go:432-436).
- On an endpoint, `filters: []` or `conditions: []` is an error, because the
  list fillers reject empty lists. Leaving the field out is fine.
- `response: {}` counts as a response, so an endpoint with only `response: {}`
  is valid. `endpoints: []` without a response is an error.
- `Response.headers` is never set by the parser. The header map is built and
  checked, then dropped, so every parsed response has no headers.
- An endpoint reads five string fields: description, host, method, path and
  bodyFormat (parser.go:523-529).
- Error kinds are those of the code: invalid input, single key, unknown
  definition. A non-string header element panics.

## Model

The functions of `ParserSpec` that have no row of their own (`FiltersOf`,
`ConditionsOf`, `CheckItems`, `ResponseOf`, `HeadersOf`, `EndpointOf`,
`StepItems` and the other list fillers, `ParamsOf`, the `*MapOf` and `*Phase`
functions, `DefinitionsOf` and `SpecOf`) are covered by the row of the `Parser`
method proved equal to them and by the `BuilderFacts`, `Invariants` and
`OrderIndependence` lemmas stated about them.

| member | source | states |
|---|---|---|
| Nodes.Lookup | parser.go:618-622 | a field is found exactly when its name is one of the map's keys, and its value is smaller than the map |
| Nodes.LookupFirst | parser.go:619 | the value found is the one stored under the name: that of the first entry carrying it |
| Nodes.KeysHold | parser.go:619 | a name is a key exactly when some entry carries it |
| Nodes.LookupStoredEntry | parser.go:619 | in a mapping with distinct keys, as every Go map has, each stored entry is exactly what the lookup returns |
| Nodes.DistinctKeysCount | parser.go:317-319 | in a mapping with distinct keys, the number of entries (what the single-key checks count) is the number of keys |
| Accessors.ExtractString | parser.go:618-630 | an absent field is "not present" with no error; a string is returned; any other value, null included, is invalid input |
| Accessors.ExtractInt | parser.go:632-644 | an absent field is not present; a decoded int is returned; anything else is invalid input |
| Accessors.ExtractStringMap | parser.go:683-695 | an absent field is not present; a mapping is returned, and it is smaller than its parent; anything else is invalid input |
| Accessors.ExtractSliceOfAny | parser.go:697-709 | an absent field is not present; a sequence is returned, and an empty one still counts as present; anything else is invalid input |
| Accessors.FillString | parser.go:646-658 | the target becomes the string stored under the name, or keeps its old value when the field is absent; a non-string is invalid input |
| Accessors.FillInt | parser.go:669-681 | the target becomes the stored int, or keeps its old value when the field is absent; a non-int is invalid input |
| Accessors.FilledStrings | parser.go:660-667 | it fails (with invalid input) exactly when some named field holds a non-string; otherwise each target is that field's string or its old value |
| Parser.FillStrings | parser.go:660-667 | the loop over the named targets computes `FilledStrings` |
| ParserSpec.GetStepsByReference | parser.go:582-589 | returns exactly the stored step list, or unknown definition ("steps", name) when the name is not registered |
| ParserSpec.GetFiltersByReference | parser.go:591-598 | returns exactly the stored filter list, or unknown definition ("filters", name) |
| ParserSpec.GetConditionsByReference | parser.go:600-607 | returns exactly the stored condition list, or unknown definition ("conditions", name) |
| ParserSpec.GetResponseByReference | parser.go:609-616 | returns exactly the stored response, or unknown definition ("responses", name) |
| ParserSpec.StepsOf | parser.go:313-345 | more than one key is the single-key error; a `$ref` gives the stored steps, or invalid input if it is not a string; otherwise one step per key, in order, with a map value kept as the parameters and any other value wrapped under "value" (so `{}` gives no steps) |
| Parser.CreateSteps | parser.go:313-345 | the method's loop over the keys returns exactly `StepsOf` |
| Parser.FillStepsItems | parser.go:152-179 | the loop returns the old steps followed by each item's expansion; an empty list or a non-object item is invalid input |
| BuilderFacts.StepExpansions | parser.go:152-168 | if every item expands, then every item was an object |
| BuilderFacts.StepItemsSplice | parser.go:152-179 | the list after the call is the old list followed by the concatenated expansions of the items, in input order; an empty item list is invalid input |
| Parser.CreateFilters | parser.go:347-388 | the method returns exactly `FiltersOf` |
| BuilderFacts.FiltersOfCases | parser.go:347-388 | a `$ref` short-circuits to the stored list, and other keys are ignored; without it, an inline filter builds exactly when `source` is a non-empty string, `target` is absent or a string (it is optional), and `steps` is absent or a list whose items all expand (an empty list included); an empty or missing source is an error; an inline filter is exactly one filter whose steps are the spliced expansions of its `steps` list (none when absent) |
| Parser.FillFiltersItems | parser.go:197-224 | the loop returns the old filters followed by each item's expansion; empty list or non-object item is invalid input |
| BuilderFacts.FilterExpansions | parser.go:197-213 | if every item expands, then every item was an object |
| BuilderFacts.FilterItemsSplice | parser.go:197-224 | the list after the call is the old list followed by the items' expansions, in order; an empty list is invalid input |
| Parser.CreateChecks | parser.go:445-473 | the loop returns exactly `CheckItems` from the empty list |
| BuilderFacts.CheckItemsContents | parser.go:445-473 | it succeeds exactly when every item is an object with exactly one key; a failure is invalid input or the single-key error; on success there is one check per item, in input order, named by its key with the parameters wrapped as for steps |
| Parser.CreateConditions | parser.go:390-443 | the method returns exactly `ConditionsOf` |
| BuilderFacts.ConditionsOfCases | parser.go:390-443 | the probes are tried in the order `$ref`, `any`, `all`, then source+checks; `$ref` gives the stored list; `any`/`all` give one condition holding the nested list, and are invalid input when present but not a list; the leaf form succeeds exactly when source is a non-empty string and checks is a list of valid checks (an empty list included); every inline form is exactly one condition |
| Parser.FillConditionsItems | parser.go:242-269 | the loop returns the old conditions followed by each item's expansion; empty list or non-object item is invalid input |
| BuilderFacts.ConditionExpansions | parser.go:242-258 | if every item expands, then every item was an object |
| BuilderFacts.ConditionItemsSplice | parser.go:242-269 | the list after the call is the old list followed by the items' expansions, in order; an empty list is invalid input |
| Parser.CreateResponse | parser.go:475-518 | the method, with its loops over headers and their values, returns exactly `ResponseOf` |
| BuilderFacts.HeaderValuesOutcome | parser.go:510-513 | the values loop succeeds exactly when every element is a string, and otherwise panics; on success the collected values are the strings in order |
| BuilderFacts.HeadersOfOutcome | parser.go:497-515 | the header loop succeeds exactly when every header value is a list of strings; a failure is invalid input (not a list) or a panic (a non-string element) |
| BuilderFacts.ResponseOfCases | parser.go:475-518 | `$ref` gives the stored response; otherwise it succeeds exactly when format/body are strings or absent, status is an int or absent, and headers are absent or lists of strings; missing fields stay 0 and "", and headers are always empty |
| Parser.CreateEndpoint | parser.go:520-580 | the method returns exactly `EndpointOf` |
| BuilderFacts.EndpointOfCases | parser.go:520-580 | a built endpoint takes its five strings, its filters, conditions, sub-endpoints and response from the matching fields; with neither a response nor a non-empty `endpoints` it fails; conversely an endpoint builds exactly when its five strings are absent or strings, `filters`, `conditions` and `endpoints` are absent or lists that build, `response` is absent or a mapping that builds, and there is a non-empty `endpoints` list or a `response` mapping (`response: {}` included) |
| BuilderFacts.EndpointOfFields | parser.go:520-580 | a built endpoint takes its five strings (or "") and its filters, conditions, sub-endpoints and response from the matching fields, and has sub-endpoints or a response |
| BuilderFacts.EndpointOfSucceeds | parser.go:520-580 | an endpoint builds exactly when every field has its shape and builds, and there is a non-empty `endpoints` list or a `response` mapping; with neither it fails |
| Parser.FillEndpoints | parser.go:298-311 | the loop returns the old endpoints followed by one endpoint per item; a non-object item is invalid input; an empty list is allowed |
| BuilderFacts.EndpointExpansionsContents | parser.go:298-311 | the expansion succeeds exactly when every item is an object that builds, and then holds one endpoint per item in order |
| BuilderFacts.EndpointExpansionsSucceed | parser.go:298-311 | the expansion succeeds exactly when every item is an object that builds an endpoint |
| BuilderFacts.EndpointExpansionsValues | parser.go:298-311 | a successful expansion has one entry per item, and entry i is the endpoint item i builds |
| BuilderFacts.EndpointItemsSplice | parser.go:298-311 | the list after the call is the old list followed by the expansion of the items |
| Parser.Registry.constructor | parser.go:54-64 | a new registry holds four empty namespaces |
| Parser.Registry.FillStepsMap | parser.go:136-150 | visiting the names in the given order, each definition must be a list and is stored under its name; the new state is `StepsMapOf` of the old one, and a failure returns its error |
| Parser.Registry.FillFiltersMap | parser.go:181-195 | the same for filters, with the new state `FiltersMapOf` of the old one |
| Parser.Registry.FillConditionsMap | parser.go:226-240 | the same for conditions, with the new state `ConditionsMapOf` of the old one |
| Parser.Registry.FillResponsesMap | parser.go:271-296 | each response definition must be a mapping and is stored under its name; the new state is `ResponsesMapOf` of the old one |
| Parser.Registry.FillDefinitions | parser.go:90-134 | steps, then filters, then conditions, then responses are filled; the new state is `DefinitionsOf` of the old one, and a failure returns its error |
| Parser.FillSpec | parser.go:66-88 | all definitions are filled before any endpoint is built; the endpoints and the filled registry are what `SpecOf` gives |
| Parser.Parse | parser.go:34-52 | the root must be a mapping, else invalid input; the result is exactly `SpecOf` of the document |
| Invariants.EmptyRegistryInvariant | parser.go:54-64 | the empty registry satisfies the registry invariant |
| Invariants.FilterItemsSourced | parser.go:197-224 | a filter list that builds is non-empty, holds at least one filter per item, and every filter has a non-empty source |
| Invariants.ConditionsOfShaped | parser.go:390-443 | every condition built is well shaped (exactly one of any, all, source+checks) at every depth, and the list is non-empty |
| Invariants.ConditionItemsShaped | parser.go:242-258 | a condition list that builds grows the old list and is well shaped throughout |
| Invariants.AppendConditionItemsShaped | parser.go:246-258 | appending the expansions of condition items adds at least one condition per item and keeps every condition well shaped |
| Invariants.EndpointOfComplete | parser.go:520-580 | every endpoint built is complete at every depth: it has sub-endpoints or a response, and its conditions are well shaped |
| Invariants.EndpointItemsComplete | parser.go:298-311 | appending built endpoints keeps every endpoint of the list complete |
| Invariants.StepsMapFrame | parser.go:136-150 | filling steps changes only the steps namespace, and afterwards it holds the old names plus every visited one |
| Invariants.FiltersMapFrame | parser.go:181-195 | filling filters changes only the filters namespace, which gains every visited name |
| Invariants.FiltersMapKeeps | parser.go:181-195 | filling filters keeps the registry invariant |
| Invariants.ConditionsMapFrame | parser.go:226-240 | filling conditions changes only the conditions namespace, which gains every visited name |
| Invariants.ConditionsMapKeeps | parser.go:226-240 | filling conditions keeps the registry invariant |
| Invariants.ResponsesMapFrame | parser.go:271-285 | filling responses changes only the responses namespace, which gains every visited name |
| Invariants.ResponsesMapKeeps | parser.go:271-296 | filling responses keeps the registry invariant |
| Invariants.StepsPhaseEffect | parser.go:93-100 | the steps phase keeps the invariant, leaves the other namespaces alone, keeps every name already there and registers every steps definition of the document |
| Invariants.FiltersPhaseEffect | parser.go:102-109 | the filters phase keeps the invariant, leaves the other namespaces alone and registers every filters definition |
| Invariants.ConditionsPhaseEffect | parser.go:111-118 | the conditions phase keeps the invariant, leaves the other namespaces alone and registers every conditions definition |
| Invariants.ResponsesPhaseEffect | parser.go:120-127 | the responses phase keeps the invariant, leaves the other namespaces alone and registers every responses definition |
| Invariants.DefinitionsOfEffect | parser.go:90-134 | filling definitions keeps the invariant and registers every definition of every namespace of the document |
| Invariants.SpecOfGuarantees | parser.go:34-88 | a successful parse has a mapping root, a registry satisfying the invariant, and complete endpoints; those endpoints are the expansion of `endpoints` against the fully filled registry |
| OrderIndependence.UnionUpdate | parser.go:146 | storing one more name before or after a batch that does not hold it gives the same map |
| OrderIndependence.RestDistinct | parser.go:137 | the rest of a visiting order has no repeats and does not revisit its first name |
| OrderIndependence.RefFreeStepItemsFrame | parser.go:152-179 | a step list without `$ref` builds the same against any registry |
| OrderIndependence.StepItemsFrame | parser.go:152-179 | a step list builds the same against registries with the same steps namespace |
| OrderIndependence.RefFreeFilterItemsFrame | parser.go:197-224 | a filter list without `$ref` builds the same against registries with the same steps namespace |
| OrderIndependence.RefFreeConditionsFrame | parser.go:390-443 | a condition without `$ref` at any depth builds the same against any registry |
| OrderIndependence.RefFreeConditionItemsFrame | parser.go:242-269 | a condition list without `$ref` at any depth builds the same against any registry |
| OrderIndependence.StepsDefinitionFrame | parser.go:137-146 | a reference-free steps definition builds the same against any registry |
| OrderIndependence.FiltersDefinitionFrame | parser.go:182-191 | a reference-free filters definition builds the same against registries that agree on steps |
| OrderIndependence.ConditionsDefinitionFrame | parser.go:227-236 | a reference-free conditions definition builds the same against any registry |
| OrderIndependence.ResponseDefinitionFrame | parser.go:272-281 | a response definition without `$ref` builds the same against any registry |
| OrderIndependence.StepsTableCons | parser.go:137-146 | the table of built steps definitions over an order is its first name's definition added to the table of the rest |
| OrderIndependence.StepsTableFrame | parser.go:137-146 | the table of reference-free steps definitions does not depend on the registry it is built against |
| OrderIndependence.StepsMapClosedForm | parser.go:136-150 | filling steps succeeds exactly when every visited definition builds against the starting registry, and then adds them all to it |
| OrderIndependence.StepsMapOrderIndependent | parser.go:136-150 | two visiting orders of a reference-free steps map both succeed or both fail, and give the same registry |
| OrderIndependence.StepsPhaseOrderIndependent | parser.go:93-100 | the same for the steps phase of `fillDefinitions` |
| OrderIndependence.FiltersTableCons | parser.go:182-191 | the table of built filters definitions over an order is its first name's definition added to the table of the rest |
| OrderIndependence.FiltersTableFrame | parser.go:182-191 | the table of reference-free filters definitions depends only on the steps namespace |
| OrderIndependence.FiltersMapClosedForm | parser.go:181-195 | filling filters succeeds exactly when every visited definition builds against the starting registry, and then adds them all |
| OrderIndependence.FiltersMapOrderIndependent | parser.go:181-195 | two visiting orders of a filters map without filter references give the same outcome and registry |
| OrderIndependence.FiltersPhaseOrderIndependent | parser.go:102-109 | the same for the filters phase |
| OrderIndependence.ConditionsTableCons | parser.go:227-236 | the table of built conditions definitions over an order is its first name's definition added to the table of the rest |
| OrderIndependence.ConditionsTableFrame | parser.go:227-236 | the table of reference-free conditions definitions does not depend on the registry |
| OrderIndependence.ConditionsMapClosedForm | parser.go:226-240 | filling conditions succeeds exactly when every visited definition builds against the starting registry, and then adds them all |
| OrderIndependence.ConditionsMapOrderIndependent | parser.go:226-240 | two visiting orders of a reference-free conditions map give the same outcome and registry |
| OrderIndependence.ConditionsPhaseOrderIndependent | parser.go:111-118 | the same for the conditions phase |
| OrderIndependence.ResponsesTableCons | parser.go:272-281 | the table of built responses over an order is its first name's response added to the table of the rest |
| OrderIndependence.ResponsesTableFrame | parser.go:272-281 | the table of responses without `$ref` does not depend on the registry |
| OrderIndependence.ResponsesMapClosedForm | parser.go:271-285 | filling responses succeeds exactly when every visited response builds against the starting registry, and then adds them all |
| OrderIndependence.ResponsesMapOrderIndependent | parser.go:271-285 | two visiting orders of a responses map without `$ref` give the same outcome and registry |
| OrderIndependence.ResponsesPhaseOrderIndependent | parser.go:120-127 | the same for the responses phase |
| OrderIndependence.DefinitionsOrderIndependent | parser.go:90-134 | when no definition refers to its own namespace, `fillDefinitions` succeeds in every visiting order or in none, and fills the registry alike |
| OrderIndependence.SpecOrderIndependent | parser.go:34-88 | for such a document, the parse succeeds in every visiting order or in none, and gives the same specification |
| Scenarios.SingleResponseBuilt | parser.go:475-518 | `{status: 200, body: ok}` builds status 200, body "ok", empty format and no headers |
| Scenarios.SingleEndpointBuilt | parser.go:520-580 | an endpoint with path, method and an inline response takes those fields and leaves the rest empty |
| Scenarios.SingleEndpointDocument | parser.go:34-88 | a document with one such endpoint and no definitions parses to that endpoint and an empty registry |
| Scenarios.IsAdminDefinitions | parser.go:90-134 | a conditions definition `isAdmin` (source role, one `equals` check) is registered as one leaf condition |
| Scenarios.AbsentFieldsKept | parser.go:660-667 | when no named field is present, every target keeps its value |
| Scenarios.IsAdminReference | parser.go:242-269 | the list `[{$ref: isAdmin}]` expands to the stored conditions |
| Scenarios.IsAdminEndpointBuilt | parser.go:520-580 | an endpoint whose condition is `$ref: isAdmin` gets the stored condition, and `response: {}` counts as a response |
| Scenarios.ConditionReferenceDocument | parser.go:66-134 | the whole document resolves the endpoint's reference against the registry filled first |
| Scenarios.BareStepValue | parser.go:334-340 | a step whose value is not a mapping keeps it under "value" |
| Scenarios.EmptyStepItem | parser.go:328-343 | `{}` yields no step |
| Scenarios.UnknownStepReference | parser.go:582-589 | a `$ref` to an unregistered step group is an unknown steps definition |
| Scenarios.AnyBeforeAll | parser.go:401-421 | with both `any` and `all`, only `any` is used |
| Scenarios.EmptyChecksAccepted | parser.go:423-442 | a leaf condition with `checks: []` is accepted with no checks |
| Scenarios.MissingChecksRefused | parser.go:432-436 | a leaf condition without `checks` is invalid input |
| Scenarios.EmptyAnyRefused | parser.go:242-245 | `any: []` is invalid input |
| Scenarios.FilterWithoutSteps | parser.go:347-388 | a filter with `steps: []` is valid and has no steps |
| Scenarios.EmptyEndpointsWithoutResponse | parser.go:575-577 | `endpoints: []` without a response is invalid input |
| Scenarios.EmptyResponseCounts | parser.go:564-577 | `response: {}` is a response, so the endpoint is valid |
| Scenarios.EmptyEndpointFiltersRefused | parser.go:533-541 | an endpoint with `filters: []` is invalid input |
| Scenarios.HeadersDropped | parser.go:497-517 | valid headers are checked and then dropped |
| Scenarios.HeaderShapes | parser.go:505-513 | a header value that is not a list is invalid input, and a non-string element panics |
| Scenarios.SiblingShape | parser.go:90-134 | the sibling document's definitions block and its two visiting orders |
| Scenarios.SiblingFirstSucceeds | parser.go:226-240 | visiting `b` before `a` registers both, with `a` the copy of `b` |
| Scenarios.SiblingLastFails | parser.go:226-240 | visiting `a` before `b` fails with unknown definition ("conditions", "b") |
| Scenarios.SiblingReferenceDependsOnOrder | parser.go:66-134 | a condition that refers to a sibling condition parses in one of Go's visiting orders and fails in the other |

## Left out

- `ParseFromFile` (parser.go:22-29) is file I/O. It is not part of this model.
- The YAML decoding in `Parse` (parser.go:36-39) is a foreign library. The model starts from the decoded `Node` tree and keeps only the check that the root is a mapping.
- Error message text and `fmt.Errorf` wrapping (parser.go:13-19) are not modelled. The model keeps the error kinds only, plus the namespace and name of an unknown definition.
- Go's `int` width is not modelled: `status` is an unbounded integer, since the decoder hands over an already-sized `int`.
- Accessors.FilledStrings: which of several mistyped fields `fillStrings` reports first depends on Go's map order. Every such error is invalid input, so the model visits the fields in a fixed order.
- BuilderFacts.HeadersOfOutcome: when one header is not a list and another has a non-string element, which one is hit first depends on map order. The model visits headers in document order, so this lemma only says the error is one of the two kinds.
- OrderIndependence.SpecOrderIndependent: only success and the resulting value are order-independent. When several definitions fail, which error is reported may depend on the order.
- Duplicate keys: a `Map` node stands for a Go map only when its keys are distinct (`Nodes.DistinctKeys`), and nothing in the model requires it. On a node with a repeated key, the lookup takes the first entry, and the single-key checks of `StepsOf` and `CheckItems` count entries rather than keys. Such nodes are outside what the decoder can produce; for the others, `Nodes.DistinctKeysCount` makes the two counts agree.
- Aliasing is not modelled: a `$ref` hands back the registry's own slice or `*Response`. Nothing mutates these after construction, so value semantics are faithful.
- Runtime meaning described only in comments is not modelled: response formats and content types, filter target write-back, and condition evaluation. The parser never checks any of these.
- There are no recursion-depth limits or cycle detection, as in the code. A `$ref` only sees entries already written, so cycles cannot form.
- A Go panic is modelled as the `Panic` outcome and ends the parse like an error. Recovery is not modelled.
