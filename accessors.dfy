/**
  Typed field accessors over a decoded mapping (parser.go:618-709). A field
  that is absent is "not present" and never an error; a field of the
  expected shape yields its value; a field of any other shape, nil
  included, is an invalid-input error.
 */
module Accessors {
  import opened Outcomes
  import opened Nodes

  /** The field is absent or holds a string. */
  predicate StringOrAbsent(input: Entries, name: string)
  {
    Lookup(input, name).None? || Lookup(input, name).value.Str?
  }

  /** The string stored under `name`, or `default` when the field is absent. */
  function StringOr(input: Entries, name: string, default: string): string
  {
    match Lookup(input, name)
    case Some(Str(s)) => s
    case _ => default
  }

  /** extractString: (value, ok, err) as a result holding an optional string. */
  function ExtractString(input: Entries, name: string): (r: Result<Option<string>>)
    ensures r.Success? <==> StringOrAbsent(input, name)
    ensures r.Failure? ==> r.error == InvalidInput
    ensures r.Success? ==> (r.value.None? <==> Lookup(input, name).None?)
    ensures r.Success? && r.value.Some? ==> Lookup(input, name) == Some(Str(r.value.value))
  {
    match Lookup(input, name)
    case None => Success(None)
    case Some(Str(s)) => Success(Some(s))
    case Some(_) => Failure(InvalidInput)
  }

  /** extractInt: only a decoded Go `int` is accepted. */
  function ExtractInt(input: Entries, name: string): (r: Result<Option<int>>)
    ensures r.Success? <==> (Lookup(input, name).None? || Lookup(input, name).value.Int?)
    ensures r.Failure? ==> r.error == InvalidInput
    ensures r.Success? ==> (r.value.None? <==> Lookup(input, name).None?)
    ensures r.Success? && r.value.Some? ==> Lookup(input, name) == Some(Int(r.value.value))
  {
    match Lookup(input, name)
    case None => Success(None)
    case Some(Int(i)) => Success(Some(i))
    case Some(_) => Failure(InvalidInput)
  }

  /** extractStringMap: the entries of a nested mapping; they are strictly smaller than `input`. */
  function ExtractStringMap(input: Entries, name: string): (r: Result<Option<Entries>>)
    ensures r.Success? <==> (Lookup(input, name).None? || Lookup(input, name).value.Map?)
    ensures r.Failure? ==> r.error == InvalidInput
    ensures r.Success? ==> (r.value.None? <==> Lookup(input, name).None?)
    ensures r.Success? && r.value.Some? ==>
      Lookup(input, name) == Some(Map(r.value.value)) && EntriesSize(r.value.value) < EntriesSize(input)
  {
    match Lookup(input, name)
    case None => Success(None)
    case Some(Map(entries)) => Success(Some(entries))
    case Some(_) => Failure(InvalidInput)
  }

  /** extractSliceOfAny: the items of a nested sequence (an empty one is still present). */
  function ExtractSliceOfAny(input: Entries, name: string): (r: Result<Option<seq<Node>>>)
    ensures r.Success? <==> (Lookup(input, name).None? || Lookup(input, name).value.List?)
    ensures r.Failure? ==> r.error == InvalidInput
    ensures r.Success? ==> (r.value.None? <==> Lookup(input, name).None?)
    ensures r.Success? && r.value.Some? ==>
      Lookup(input, name) == Some(List(r.value.value)) && ItemsSize(r.value.value) < EntriesSize(input)
  {
    match Lookup(input, name)
    case None => Success(None)
    case Some(List(items)) => Success(Some(items))
    case Some(_) => Failure(InvalidInput)
  }

  /**
    fillString: the new value of `*target`. An absent field leaves the
    target as it was.
   */
  function FillString(target: string, input: Entries, name: string): (r: Result<string>)
    ensures r.Success? <==> StringOrAbsent(input, name)
    ensures r.Failure? ==> r.error == InvalidInput
    ensures r.Success? ==> r.value == StringOr(input, name, target)
  {
    var value :- ExtractString(input, name);
    if value.Some? then Success(value.value) else Success(target)
  }

  /** fillInt: the new value of `*target`; an absent field leaves it as it was. */
  function FillInt(target: int, input: Entries, name: string): (r: Result<int>)
    ensures r.Success? <==> (Lookup(input, name).None? || Lookup(input, name).value.Int?)
    ensures r.Failure? ==> r.error == InvalidInput
    ensures r.Success? && Lookup(input, name).None? ==> r.value == target
    ensures r.Success? && Lookup(input, name).Some? ==> Lookup(input, name) == Some(Int(r.value))
  {
    var value :- ExtractInt(input, name);
    if value.Some? then Success(value.value) else Success(target)
  }

  /**
    fillStrings: the new values of the targets bound to `names`. It fails
    exactly when one of the fields holds something other than a string; as
    every such failure is the same invalid-input error, the order in which
    Go visits the targets cannot be observed.
   */
  function FilledStrings(input: Entries, names: seq<string>, values: seq<string>): (r: Result<seq<string>>)
    requires |names| == |values|
    ensures r.Success? <==> forall i :: 0 <= i < |names| ==> StringOrAbsent(input, names[i])
    ensures r.Failure? ==> r.error == InvalidInput
    ensures r.Success? ==>
      && |r.value| == |values|
      && forall i :: 0 <= i < |names| ==> r.value[i] == StringOr(input, names[i], values[i])
  {
    if names == [] then Success([])
    else
      var first :- FillString(values[0], input, names[0]);
      var rest :- FilledStrings(input, names[1..], values[1..]);
      assert forall i :: 1 <= i < |names| ==> names[1..][i - 1] == names[i];
      Success([first] + rest)
  }
}
