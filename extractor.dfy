/** `parse_keys`: walking a field template over a document and building the amendment tree. */
module Extractor {
  import opened Values
  import opened SpecDocument
  import opened FieldTemplate

  /** The calls `parse_keys` can make without raising.  The failure excluded here is a list
      template whose member is itself a list template over a non-empty array element: that member
      yields a list of objects, which `dict.update` rejects (unless every object happens to have
      exactly two keys). */
  ghost predicate Fits(t: Template, spec: Value)
    decreases t
  {
    match t
    case Leaf(_) => true
    case Selector(keys, sub) =>
      forall k :: k in keys && Contains(spec, k) ==> Fits(sub, At(spec, k))
    case Group(fields) =>
      forall i :: 0 <= i < |fields| ==>
        if Contains(spec, fields[i].0) then Fits(fields[i].1, At(spec, fields[i].0))
        else fields[i].0 == Wildcard ==> forall p :: Contains(spec, p) ==> Fits(fields[i].1, At(spec, p))
    case Members(items) =>
      forall i :: 0 <= i < |items| ==>
        if !IsArray(spec) then Fits(items[i], spec)
        else forall e :: e in Elements(spec) ==> Fits(items[i], e) && MergesInto(items[i], e)
  }

  /** The result of `parse_keys(item, node)` can be passed to `dict.update`: it is a dict or an
      empty list. */
  predicate MergesInto(item: Template, node: Value)
  {
    item.Members? ==> Elements(node) == []
  }

  /** The sub-template of a wildcard can be applied to every key of `spec`. */
  ghost predicate WildcardReady(sub: Template, spec: Value)
  {
    forall p :: Contains(spec, p) ==> Fits(sub, At(spec, p))
  }

  /** A wildcard pair that `spec` does not name is ready for every key of `spec`. */
  lemma WildcardReadyOf(t: Template, i: nat, spec: Value)
    requires t.Group? && i < |t.fields| && Fits(t, spec)
    requires t.fields[i].0 == Wildcard && !Contains(spec, Wildcard)
    ensures WildcardReady(t.fields[i].1, spec)
  {
    // unfolds `Fits` for the group once, at pair `i`
  }

  /** The members of a list template can all be applied to `node` and merged. */
  ghost predicate UnionReady(items: seq<Template>, node: Value)
  {
    forall j :: 0 <= j < |items| ==> Fits(items[j], node) && MergesInto(items[j], node)
  }

  /** The bindings `dict.update` takes from a result of `parse_keys`. */
  function EntriesOf(v: Value): Entries
  {
    if v.Dict? then v.entries else []
  }

  /** `parsed[key] = value` guarded by `if value:` */
  function PutIfTruthy(parsed: Entries, key: string, value: Value): Entries
  {
    if Truthy(value) then Put(parsed, key, value) else parsed
  }

  /** A string template `f`: `{f: placeholder}`. */
  function LeafEntry(f: string, spec: Value): Value
  {
    if Contains(spec, f) then
      var valueDict := [(Original, Raw(At(spec, f))), (Override, Str(""))];
      var placeholder := if IsArray(At(spec, f)) then Put(valueDict, Override, List([Str("")])) else valueDict;
      Dict([(f, Dict(placeholder))])
    else
      Dict([(f, Dict([(Override, Str(""))]))])
  }

  /** `parse_keys(t, spec)`, with `show` standing for Python's `str` on document nodes. */
  function Extraction(t: Template, spec: Value, show: Value -> string): (r: Value)
    requires Fits(t, spec)
    ensures r.Dict? || r.List?
    ensures r.List? <==> t.Members? && IsArray(spec)
    ensures r.List? ==> |r.items| == |Elements(spec)|
    decreases t, 3, 0
  {
    match t
    case Leaf(f) => LeafEntry(f, spec)
    case Selector(keys, _) => Dict(SelectFold(t, spec, show, |keys|))
    case Group(fields) => Dict(GroupFold(t, spec, show, |fields|))
    case Members(items) =>
      if !IsArray(spec) then Dict(UnionFold(t, spec, show, |items|))
      else List(seq(|Elements(spec)|, j requires 0 <= j < |Elements(spec)| => ElementObject(t, Elements(spec)[j], show)))
  }

  /** The selector loop after its first `n` keys. */
  function SelectFold(t: Template, spec: Value, show: Value -> string, n: nat): Entries
    requires t.Selector? && n <= |t.keys| && Fits(t, spec)
    decreases t, 0, n
  {
    if n == 0 then []
    else
      var parsed := SelectFold(t, spec, show, n - 1);
      var key := t.keys[n - 1];
      if !Contains(spec, key) then parsed
      else
        assert key in t.keys;
        PutIfTruthy(parsed, key, Extraction(t.sub, At(spec, key), show))
  }

  /** The loop over a group's `(key, sub-template)` pairs after its first `n` pairs. */
  function GroupFold(t: Template, spec: Value, show: Value -> string, n: nat): Entries
    requires t.Group? && n <= |t.fields| && Fits(t, spec)
    decreases t, 1, n
  {
    if n == 0 then []
    else
      var parsed := GroupFold(t, spec, show, n - 1);
      var (key, val) := t.fields[n - 1];
      assert val < t;
      if Contains(spec, key) then PutIfTruthy(parsed, key, Extraction(val, At(spec, key), show))
      else if key == Wildcard then
        WildcardReadyOf(t, n - 1, spec);
        WildcardFold(t, n - 1, spec, show, parsed, |Props(spec)|)
      else parsed
  }

  /** The inner loop of the wildcard pair `t.fields[i]` over the first `m` keys of `spec`,
      starting from the bindings `parsed` made so far. */
  function WildcardFold(t: Template, i: nat, spec: Value, show: Value -> string, parsed: Entries, m: nat): Entries
    requires t.Group? && i < |t.fields| && WildcardReady(t.fields[i].1, spec)
    requires t.fields[i].0 == Wildcard && !Contains(spec, Wildcard)
    requires m <= |Props(spec)|
    decreases t, 0, m
  {
    if m == 0 then parsed
    else
      var acc := WildcardFold(t, i, spec, show, parsed, m - 1);
      var prop := Props(spec)[m - 1];
      assert prop in Props(spec);
      PutIfTruthy(acc, prop, Extraction(t.fields[i].1, At(spec, prop), show))
  }

  /** The `parsed.update(parse_keys(item, node))` loop after the first `m` members. */
  function UnionFold(t: Template, node: Value, show: Value -> string, m: nat): Entries
    requires t.Members? && m <= |t.items| && UnionReady(t.items, node)
    decreases t, 0, m
  {
    if m == 0 then []
    else UpdateWith(UnionFold(t, node, show, m - 1), EntriesOf(Extraction(t.items[m - 1], node, show)))
  }

  /** `{k: str(e[k]) for k in keys if k not in claimed}`, where `keys` are keys of `e`; its keys
      and values are given by `SnapshotAt`. */
  function Snapshots(e: Value, keys: seq<string>, claimed: seq<string>, show: Value -> string): Entries
    requires forall i :: 0 <= i < |keys| ==> Contains(e, keys[i])
  {
    if keys == [] then []
    else
      var acc := Snapshots(e, keys[..|keys| - 1], claimed, show);
      var k := keys[|keys| - 1];
      if k in claimed then acc else Put(acc, k, Str(show(At(e, k))))
  }

  /** The object a list template builds for one array element: the element's other keys as
      string snapshots, then the members' results over them. */
  function ElementObject(t: Template, e: Value, show: Value -> string): Value
    requires t.Members? && UnionReady(t.items, e)
    decreases t, 1, 0
  {
    var parsed := UnionFold(t, e, show, |t.items|);
    Dict(UpdateWith(Snapshots(e, Props(e), KeysOf(parsed), show), parsed))
  }

  /** `parse_keys` as the source runs it: loops that fill a local dict or list. */
  method ParseKeys(t: Template, spec: Value, show: Value -> string) returns (r: Value)
    requires Fits(t, spec)
    ensures r == Extraction(t, spec, show)
    decreases t, 3
  {
    match t
    case Leaf(f) =>
      r := LeafEntry(f, spec);
    case Selector(_, _) =>
      var parsed := SelectKeys(t, spec, show);
      r := Dict(parsed);
    case Group(_) =>
      var parsed := GroupKeys(t, spec, show);
      r := Dict(parsed);
    case Members(_) =>
      if !IsArray(spec) {
        var parsed := MergeMembers(t, spec, show);
        r := Dict(parsed);
      } else {
        ElementsReady(t, spec);
        var parsedItems := EachElement(t, spec, show);
        r := List(parsedItems);
      }
  }

  /** The `__keys__` loop of `parse_keys`. */
  method SelectKeys(t: Template, spec: Value, show: Value -> string) returns (parsed: Entries)
    requires t.Selector? && Fits(t, spec)
    ensures parsed == SelectFold(t, spec, show, |t.keys|)
    decreases t, 0
  {
    parsed := [];
    for n := 0 to |t.keys|
      invariant parsed == SelectFold(t, spec, show, n)
    {
      var key := t.keys[n];
      if !Contains(spec, key) {
        continue;
      }
      assert key in t.keys;
      var value := ParseKeys(t.sub, At(spec, key), show);
      if Truthy(value) {
        parsed := Put(parsed, key, value);
      }
    }
  }

  /** The loop of `parse_keys` over the pairs of a plain mapping template. */
  method GroupKeys(t: Template, spec: Value, show: Value -> string) returns (parsed: Entries)
    requires t.Group? && Fits(t, spec)
    ensures parsed == GroupFold(t, spec, show, |t.fields|)
    decreases t, 1
  {
    parsed := [];
    for n := 0 to |t.fields|
      invariant parsed == GroupFold(t, spec, show, n)
    {
      var (key, val) := t.fields[n];
      if Contains(spec, key) {
        var value := ParseKeys(val, At(spec, key), show);
        if Truthy(value) {
          parsed := Put(parsed, key, value);
        }
      } else if key == Wildcard {
        WildcardReadyOf(t, n, spec);
        parsed := EachProp(t, n, spec, show, parsed);
      }
    }
  }

  /** The wildcard's inner loop `for prop in spec`. */
  method EachProp(t: Template, i: nat, spec: Value, show: Value -> string, parsed0: Entries) returns (parsed: Entries)
    requires t.Group? && i < |t.fields| && WildcardReady(t.fields[i].1, spec)
    requires t.fields[i].0 == Wildcard && !Contains(spec, Wildcard)
    ensures parsed == WildcardFold(t, i, spec, show, parsed0, |Props(spec)|)
    decreases t, 0
  {
    parsed := parsed0;
    var props := Props(spec);
    var val := t.fields[i].1;
    assert val < t;
    for m := 0 to |props|
      invariant parsed == WildcardFold(t, i, spec, show, parsed0, m)
    {
      var prop := props[m];
      assert Contains(spec, prop) by { assert prop in props; }
      var value := ParseKeys(val, At(spec, prop), show);
      if Truthy(value) {
        parsed := Put(parsed, prop, value);
      }
    }
  }

  /** The `parsed.update(parse_keys(item, node))` loop over the members of a list template. */
  method MergeMembers(t: Template, node: Value, show: Value -> string) returns (parsed: Entries)
    requires t.Members? && UnionReady(t.items, node)
    ensures parsed == UnionFold(t, node, show, |t.items|)
    decreases t, 0
  {
    parsed := [];
    for m := 0 to |t.items|
      invariant parsed == UnionFold(t, node, show, m)
    {
      var value := ParseKeys(t.items[m], node, show);
      parsed := UpdateWith(parsed, EntriesOf(value));
    }
  }

  /** The members of a list template fitting an array position can be merged over each element. */
  lemma ElementsReady(t: Template, spec: Value)
    requires t.Members? && IsArray(spec) && Fits(t, spec)
    ensures forall e :: e in Elements(spec) ==> UnionReady(t.items, e)
  {
    // unfolds `Fits` for the list template over an array
  }

  /** The loop of a list template over the elements of an array position. */
  method EachElement(t: Template, spec: Value, show: Value -> string) returns (parsedItems: seq<Value>)
    requires t.Members? && IsArray(spec) && forall e :: e in Elements(spec) ==> UnionReady(t.items, e)
    ensures |parsedItems| == |Elements(spec)|
    ensures forall j :: 0 <= j < |parsedItems| ==>
      UnionReady(t.items, Elements(spec)[j]) && parsedItems[j] == ElementObject(t, Elements(spec)[j], show)
    decreases t, 2
  {
    var elements := Elements(spec);
    parsedItems := [];
    for n := 0 to |elements|
      invariant |parsedItems| == n
      invariant forall j :: 0 <= j < n ==>
        UnionReady(t.items, elements[j]) && parsedItems[j] == ElementObject(t, elements[j], show)
    {
      var subItem := elements[n];
      assert subItem in elements;
      var obj := BuildElement(t, subItem, show);
      parsedItems := parsedItems + [obj];
    }
  }

  /** The body of that loop for one element `sub_item`. */
  method BuildElement(t: Template, e: Value, show: Value -> string) returns (obj: Value)
    requires t.Members? && UnionReady(t.items, e)
    ensures obj == ElementObject(t, e, show)
    decreases t, 1
  {
    var parsed := MergeMembers(t, e, show);
    var allItems := Snapshots(e, Props(e), KeysOf(parsed), show);
    allItems := UpdateWith(allItems, parsed);
    obj := Dict(allItems);
  }
}
