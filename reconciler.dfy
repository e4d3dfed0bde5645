/** `get_prev_amendments`: carrying the overrides of a previous amendment tree into a freshly
    extracted one. */
module Reconciler {
  import opened Values
  import opened FieldTemplate

  /** The calls `get_prev_amendments(curr, prev)` can make without raising: `curr` is a dict, and
      for every binding of `curr` the previous tree supports `in`; when it has the key it is a dict,
      its value under the key is a dict where the current value is a placeholder, and the two
      values can be reconciled where the current value is any other dict. */
  predicate Reconcilable(curr: Value, prev: Value)
    decreases curr, 1
  {
    curr.Dict? &&
    forall i :: 0 <= i < |curr.entries| ==> EntryReady(curr.entries[i].0, curr.entries[i].1, prev)
  }

  /** One iteration of the loop with `key, curr_value` can run without raising. */
  predicate EntryReady(key: string, value: Value, prev: Value)
    decreases value, 2
  {
    && Iterable(prev)
    && (IsIn(key, prev) ==>
          && prev.Dict?
          && (value.Dict? ==>
                if Override in KeysOf(value.entries) then Lookup(prev.entries, key).Dict?
                else Reconcilable(value, Lookup(prev.entries, key))))
  }

  /** A placeholder of the current tree with the override of the previous one: the current
      `__original` when it is truthy, then the previous `__override` or `""`; its keys and values
      are given by `RefreshedPlaceholder`. */
  function Refreshed(placeholder: Entries, previous: Entries): Entries
  {
    var originalValue := Get(placeholder, Original, Null);
    var slot := if Truthy(originalValue) then Put([], Original, originalValue) else [];
    Put(slot, Override, Get(previous, Override, Str("")))
  }

  /** The value `merged[key]` gets for the current binding `key: value`. */
  function Amended(key: string, value: Value, prev: Value): Value
    requires EntryReady(key, value, prev)
    decreases value, 2
  {
    if !IsIn(key, prev) then value
    else if !value.Dict? then Lookup(prev.entries, key)
    else if Override in KeysOf(value.entries) then Dict(Refreshed(value.entries, Lookup(prev.entries, key).entries))
    else Dict(UpdateWith([], Reconciled(value, Lookup(prev.entries, key))))
  }

  /** The loop over `curr.items()` after its first `n` bindings. */
  function MergeFold(curr: Value, prev: Value, n: nat): (merged: Entries)
    requires Reconcilable(curr, prev) && n <= |curr.entries|
    ensures forall k :: k in KeysOf(merged) <==> exists i :: 0 <= i < n && curr.entries[i].0 == k
    decreases curr, 0, n
  {
    if n == 0 then []
    else
      var (key, value) := curr.entries[n - 1];
      assert EntryReady(key, value, prev);
      Put(MergeFold(curr, prev, n - 1), key, Amended(key, value, prev))
  }

  /** `get_prev_amendments(curr, prev)`: the merged tree binds exactly the keys of `curr`. */
  function Reconciled(curr: Value, prev: Value): (merged: Entries)
    requires Reconcilable(curr, prev)
    ensures forall k :: k in KeysOf(merged) <==> k in KeysOf(curr.entries)
    decreases curr, 1, 0
  {
    MergeFold(curr, prev, |curr.entries|)
  }

  /** `get_prev_amendments` as the source runs it, filling `merged` binding by binding. */
  method GetPrevAmendments(curr: Value, prev: Value) returns (merged: Entries)
    requires Reconcilable(curr, prev)
    ensures merged == Reconciled(curr, prev)
    decreases curr
  {
    merged := [];
    for n := 0 to |curr.entries|
      invariant merged == MergeFold(curr, prev, n)
    {
      var (key, currValue) := curr.entries[n];
      assert EntryReady(key, currValue, prev);
      if !IsIn(key, prev) {
        merged := Put(merged, key, currValue);
        continue;
      }
      if !currValue.Dict? {
        merged := Put(merged, key, Lookup(prev.entries, key));
        continue;
      }
      var slot: Entries := [];
      if Override in KeysOf(currValue.entries) {
        var originalValue := Get(currValue.entries, Original, Null);
        if Truthy(originalValue) {
          slot := Put(slot, Original, originalValue);
        }
        slot := Put(slot, Override, Get(Lookup(prev.entries, key).entries, Override, Str("")));
      } else {
        var sub := GetPrevAmendments(currValue, Lookup(prev.entries, key));
        slot := UpdateWith(slot, sub);
      }
      merged := Put(merged, key, Dict(slot));
    }
  }
}
