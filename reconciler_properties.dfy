/** What `get_prev_amendments` promises: the new tree has the keys of the current one at every
    dict it reconciles, non-dict values are taken from the previous tree, and the overrides of
    the previous tree survive wherever the two trees still agree on a placeholder. */
module ReconcilerProperties {
  import opened Values
  import opened FieldTemplate
  import opened Reconciler

  datatype Option<T> = None | Some(value: T)

  // ---------------------------------------------------------------- the merge as one update

  /** The bindings of `curr`, each with the value `merged[key]` gets for it. */
  ghost function AmendedEntries(curr: Value, prev: Value): Entries
    requires Reconcilable(curr, prev)
  {
    seq(|curr.entries|, i requires 0 <= i < |curr.entries| =>
      (curr.entries[i].0, Amended(curr.entries[i].0, curr.entries[i].1, prev)))
  }

  lemma {:induction false} MergeFoldIsUpdate(curr: Value, prev: Value, n: nat)
    requires Reconcilable(curr, prev) && n <= |curr.entries|
    ensures MergeFold(curr, prev, n) == UpdateWith([], AmendedEntries(curr, prev)[..n])
  {
    if n > 0 {
      MergeFoldIsUpdate(curr, prev, n - 1);
      var amended := AmendedEntries(curr, prev);
      PrefixStep(amended, n);
    }
  }

  /** `merged` is `{}` updated with the bindings of `curr`, each with its amended value. */
  lemma ReconciledIsUpdate(curr: Value, prev: Value)
    requires Reconcilable(curr, prev)
    ensures Reconciled(curr, prev) == UpdateWith([], AmendedEntries(curr, prev))
    ensures KeysOf(AmendedEntries(curr, prev)) == KeysOf(curr.entries)
  {
    var amended := AmendedEntries(curr, prev);
    MergeFoldIsUpdate(curr, prev, |curr.entries|);
    PrefixWhole(amended);
  }

  // ---------------------------------------------------------------- the merged keys and values

  /** `merged` has exactly the keys of `curr`, and in `curr`'s order: the key set of the new
      amendment tree always follows the current template, whatever the previous tree held (the
      values at non-dict keys come from the previous tree, see `ReconciledLookup`). */
  lemma ReconciledKeys(curr: Value, prev: Value)
    requires Reconcilable(curr, prev)
    ensures forall k :: k in KeysOf(Reconciled(curr, prev)) <==> k in KeysOf(curr.entries)
    ensures Distinct(KeysOf(curr.entries)) ==> KeysOf(Reconciled(curr, prev)) == KeysOf(curr.entries)
  {
    ReconciledIsUpdate(curr, prev);
    if Distinct(KeysOf(curr.entries)) {
      UpdateEmpty(AmendedEntries(curr, prev));
    }
  }

  /** Each key of `merged` holds what its binding in `curr` turns into: the current value for a
      key the previous tree lacks; the previous value when the current one is not a dict; a
      refreshed placeholder when it is a placeholder; otherwise the two sub-trees reconciled. */
  lemma ReconciledLookup(curr: Value, prev: Value, k: string)
    requires Reconcilable(curr, prev) && k in KeysOf(curr.entries)
    ensures EntryReady(k, Lookup(curr.entries, k), prev)
    ensures k in KeysOf(Reconciled(curr, prev))
    ensures var v := Lookup(curr.entries, k);
      var r := Lookup(Reconciled(curr, prev), k);
      && (!IsIn(k, prev) ==> r == v)
      && (IsIn(k, prev) && !v.Dict? ==> r == Lookup(prev.entries, k))
      && (IsIn(k, prev) && v.Dict? && Override in KeysOf(v.entries) ==>
            r == Dict(Refreshed(v.entries, Lookup(prev.entries, k).entries)))
      && (IsIn(k, prev) && v.Dict? && Override !in KeysOf(v.entries) ==>
            Reconcilable(v, Lookup(prev.entries, k)) &&
            r == Dict(UpdateWith([], Reconciled(v, Lookup(prev.entries, k)))))
  {
    ReconciledIsUpdate(curr, prev);
    var amended := AmendedEntries(curr, prev);
    var j := LastBinding(curr.entries, k);
    assert EntryReady(k, curr.entries[j].1, prev);
    LookupUnshadowed(amended, j, k);
  }

  /** A refreshed placeholder has the shape `parse_keys` gives placeholders: the current
      `__original` when it is truthy, and the previous tree's `__override`, or `""` if it had none. */
  lemma RefreshedPlaceholder(placeholder: Entries, previous: Entries)
    ensures var r := Refreshed(placeholder, previous);
      var originalValue := Get(placeholder, Original, Null);
      && KeysOf(r) == (if Truthy(originalValue) then [Original, Override] else [Override])
      && (Truthy(originalValue) ==> Lookup(r, Original) == originalValue)
      && Lookup(r, Override) == Get(previous, Override, Str(""))
  {
    var originalValue := Get(placeholder, Original, Null);
    if Truthy(originalValue) {
      assert KeysOf([(Original, originalValue)]) == [Original];
    } else {
      assert KeysOf([(Override, Get(previous, Override, Str("")))]) == [Override];
    }
  }

  // ---------------------------------------------------------------- a first run

  /** Without previous amendments (`prev` is `{}`) the current tree is returned unchanged. */
  lemma FirstRun(curr: Value)
    requires curr.Dict? && Distinct(KeysOf(curr.entries))
    ensures Reconcilable(curr, Dict([]))
    ensures Reconciled(curr, Dict([])) == curr.entries
  {
    forall i | 0 <= i < |curr.entries|
      ensures EntryReady(curr.entries[i].0, curr.entries[i].1, Dict([]))
    {
    }
    ReconciledIsUpdate(curr, Dict([]));
    assert AmendedEntries(curr, Dict([])) == curr.entries;
    UpdateEmpty(curr.entries);
  }

  // ---------------------------------------------------------------- overrides survive

  /** `tree[p0][p1]...` when every step is a dict holding the key. */
  function Follow(v: Value, path: seq<string>): Option<Value>
    decreases |path|
  {
    if path == [] then Some(v)
    else if v.Dict? && path[0] in KeysOf(v.entries) then Follow(Lookup(v.entries, path[0]), path[1..])
    else None
  }

  /** `path` leads through the current tree and every dict passed on the way (below the root) is
      an ordinary sub-tree, not a placeholder. */
  predicate Descends(curr: Value, path: seq<string>)
    decreases |path|
  {
    path == [] ||
    (curr.Dict? && path[0] in KeysOf(curr.entries) &&
      var next := Lookup(curr.entries, path[0]);
      (|path| > 1 ==> next.Dict? && Override !in KeysOf(next.entries) && Descends(next, path[1..])))
  }

  /** Following a non-empty path depends only on the keys and values of the first dict. */
  lemma FollowSameBindings(a: Entries, b: Entries, path: seq<string>)
    requires path != []
    requires forall k :: k in KeysOf(a) <==> k in KeysOf(b)
    requires forall k :: k in KeysOf(a) ==> Lookup(a, k) == Lookup(b, k)
    ensures Follow(Dict(a), path) == Follow(Dict(b), path)
  {
    // unfolds `Follow` once; the first step is a `Lookup` in each dict
  }

  /** An amendment survives regeneration: when the current tree has a placeholder at `path` and
      the previous tree has a dict there, the new tree has, at `path`, the current placeholder with
      the previous tree's `__override`. */
  lemma {:induction false} AmendmentSurvives(curr: Value, prev: Value, path: seq<string>)
    requires Reconcilable(curr, prev) && path != [] && Descends(curr, path)
    requires Follow(curr, path).Some? && Follow(curr, path).value.Dict?
    requires Override in KeysOf(Follow(curr, path).value.entries)
    requires Follow(prev, path).Some? && Follow(prev, path).value.Dict?
    ensures Follow(Dict(Reconciled(curr, prev)), path) ==
      Some(Dict(Refreshed(Follow(curr, path).value.entries, Follow(prev, path).value.entries)))
    decreases |path|
  {
    var k := path[0];
    var rest := path[1..];
    var v := Lookup(curr.entries, k);
    assert Follow(curr, path) == Follow(v, rest);
    assert prev.Dict? && k in KeysOf(prev.entries);
    var pk := Lookup(prev.entries, k);
    assert Follow(prev, path) == Follow(pk, rest);
    ReconciledLookup(curr, prev, k);
    var r := Reconciled(curr, prev);
    assert IsIn(k, prev);
    assert Follow(Dict(r), path) == Follow(Lookup(r, k), rest);
    if |path| > 1 {
      assert v.Dict? && Override !in KeysOf(v.entries) && Descends(v, rest);
      assert Reconcilable(v, pk);
      AmendmentSurvives(v, pk, rest);
      var sub := Reconciled(v, pk);
      FollowSameBindings(UpdateWith([], sub), sub, rest);
    }
  }
}
