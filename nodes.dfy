/**
  The generic document tree the YAML decoder hands to the parser: a mapping
  (`map[string]any`), a sequence (`[]any`), a string, a Go `int`, nil, or any
  other value (another scalar type, or a mapping whose keys are not all
  strings). A `Map` node lists its entries in some order; its keys are
  distinct, as those of a Go map are, and that listing order is the order in
  which the model visits a map wherever the parser ranges over one that is
  not a definitions namespace.
 */
module Nodes {
  import opened Outcomes

  type Entries = seq<(string, Node)>

  datatype Node =
    | Map(entries: Entries)
    | List(items: seq<Node>)
    | Str(s: string)
    | Int(i: int)
    | Null
    | Other

  /** Number of constructors in a tree; every recursive builder decreases it. */
  function Size(n: Node): nat
  {
    match n
    case Map(entries) => 1 + EntriesSize(entries)
    case List(items) => 1 + ItemsSize(items)
    case _ => 1
  }

  function EntriesSize(entries: Entries): nat
  {
    if entries == [] then 0
    else
      var e := entries[0];
      assert e decreases to e.1;
      Size(e.1) + EntriesSize(entries[1..])
  }

  function ItemsSize(items: seq<Node>): nat
  {
    if items == [] then 0 else Size(items[0]) + ItemsSize(items[1..])
  }

  /** The key set of a mapping node. */
  function Keys(entries: Entries): set<string>
  {
    if entries == [] then {} else {entries[0].0} + Keys(entries[1..])
  }

  /** `input[name]`: the value stored under `name`, if any. */
  function Lookup(input: Entries, name: string): (r: Option<Node>)
    ensures r.Some? <==> name in Keys(input)
    ensures r.Some? ==> Size(r.value) <= EntriesSize(input)
  {
    if input == [] then None
    else if input[0].0 == name then Some(input[0].1)
    else Lookup(input[1..], name)
  }

  /**
    `Lookup` returns the value stored under `name`: that of the first entry
    with this name (the only one, when the keys are distinct).
   */
  lemma {:induction false} LookupFirst(input: Entries, name: string)
    requires Lookup(input, name).Some?
    ensures (name, Lookup(input, name).value) in input
    ensures exists i :: 0 <= i < |input| && input[i] == (name, Lookup(input, name).value) && name !in Keys(input[..i])
  {
    if input[0].0 == name {
      assert input[..0] == [];
      assert input[0] == (name, Lookup(input, name).value);
    } else {
      LookupFirst(input[1..], name);
      var rest := input[1..];
      var i :| 0 <= i < |rest| && rest[i] == (name, Lookup(rest, name).value) && name !in Keys(rest[..i]);
      var prefix := input[..i + 1];
      assert prefix[0] == input[0] && prefix[1..] == rest[..i];
      assert input[i + 1] == rest[i];
    }
  }

  /** The keys of a mapping are distinct, as those of a Go map are. */
  predicate DistinctKeys(input: Entries)
  {
    forall i, j :: 0 <= i < j < |input| ==> input[i].0 != input[j].0
  }

  /** A name is a key exactly when some entry carries it. */
  lemma {:induction false} KeysHold(input: Entries, name: string)
    ensures name in Keys(input) <==> exists i :: 0 <= i < |input| && input[i].0 == name
  {
    if input != [] {
      KeysHold(input[1..], name);
      if name in Keys(input[1..]) {
        var i :| 0 <= i < |input| - 1 && input[1..][i].0 == name;
        assert input[i + 1].0 == name;
      }
      if exists i :: 0 <= i < |input| && input[i].0 == name {
        var i :| 0 <= i < |input| && input[i].0 == name;
        if i > 0 {
          assert input[1..][i - 1].0 == name;
        }
      }
    }
  }

  /** With distinct keys, every stored entry is the one `Lookup` finds. */
  lemma {:induction false} LookupStoredEntry(input: Entries, name: string, v: Node)
    requires DistinctKeys(input)
    requires (name, v) in input
    ensures Lookup(input, name) == Some(v)
  {
    var k :| 0 <= k < |input| && input[k] == (name, v);
    if k > 0 {
      assert input[0].0 != input[k].0;
      assert input[1..][k - 1] == (name, v);
      LookupStoredEntry(input[1..], name, v);
    }
  }

  /** With distinct keys, a mapping has as many keys as entries. */
  lemma {:induction false} DistinctKeysCount(input: Entries)
    requires DistinctKeys(input)
    ensures |Keys(input)| == |input|
  {
    if input != [] {
      DistinctKeysCount(input[1..]);
      KeysHold(input[1..], input[0].0);
      assert input[0].0 !in Keys(input[1..]);
    }
  }

  /** The items of the sequence stored under `name`, if that is what is stored there. */
  function ListAt(input: Entries, name: string): Option<seq<Node>>
  {
    match Lookup(input, name)
    case Some(List(items)) => Some(items)
    case _ => None
  }

  /** The entries of the mapping stored under `name`, if that is what is stored there. */
  function MapAt(input: Entries, name: string): Option<Entries>
  {
    match Lookup(input, name)
    case Some(Map(entries)) => Some(entries)
    case _ => None
  }

  /** Every element of a sequence is no larger than the whole sequence. */
  lemma {:induction false} ItemSizeBound(items: seq<Node>, i: nat)
    requires i < |items|
    ensures Size(items[i]) <= ItemsSize(items)
  {
    if i > 0 {
      ItemSizeBound(items[1..], i - 1);
    }
  }

  predicate Distinct(order: seq<string>)
  {
    forall i, j :: 0 <= i < j < |order| ==> order[i] != order[j]
  }

  /** Every name of `order` is a key of the mapping. */
  predicate KeysIn(order: seq<string>, entries: Entries)
  {
    forall k :: k in order ==> k in Keys(entries)
  }

  /**
    `order` is one of the orders in which Go's `for ... range` may visit the
    mapping: every key exactly once.
   */
  ghost predicate KeyOrder(order: seq<string>, entries: Entries)
  {
    && |order| == |entries|
    && Distinct(order)
    && forall k :: k in order <==> k in Keys(entries)
  }
}
