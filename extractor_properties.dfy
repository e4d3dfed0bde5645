/** What `parse_keys` promises about the amendment tree it builds. */
module ExtractorProperties {
  import opened Values
  import opened SpecDocument
  import opened FieldTemplate
  import opened Extractor

  /** A string leaf yields a one-key dict `{f: placeholder}`.  The placeholder always has an
      override slot, `[""]` over an array and `""` otherwise; it has an original snapshot
      exactly when the document has `f`, and then that snapshot is the raw value. */
  lemma LeafPlaceholder(f: string, spec: Value, show: Value -> string)
    ensures var r := Extraction(Leaf(f), spec, show);
      && r.Dict? && KeysOf(r.entries) == [f]
      && var p := Lookup(r.entries, f);
      && p.Dict?
      && KeysOf(p.entries) == (if Contains(spec, f) then [Original, Override] else [Override])
      && (Contains(spec, f) ==> Lookup(p.entries, Original) == Raw(At(spec, f)))
      && Lookup(p.entries, Override) ==
           (if Contains(spec, f) && IsArray(At(spec, f)) then List([Str("")]) else Str(""))
  {
    if Contains(spec, f) {
      var valueDict := [(Original, Raw(At(spec, f))), (Override, Str(""))];
      assert KeysOf(valueDict) == [Original, Override];
      assert Lookup(valueDict, Original) == Raw(At(spec, f));
    } else {
      assert KeysOf([(Override, Str(""))]) == [Override];
    }
    assert KeysOf(Extraction(Leaf(f), spec, show).entries) == [f];
  }

  /** An array leaf never gets the scalar override slot `""`. */
  lemma ArrayLeafOverride(f: string, spec: Value, show: Value -> string)
    requires Contains(spec, f) && IsArray(At(spec, f))
    ensures var r := Extraction(Leaf(f), spec, show);
      && r.Dict? && f in KeysOf(r.entries)
      && var p := Lookup(r.entries, f);
      && p.Dict? && Override in KeysOf(p.entries) && Lookup(p.entries, Override) != Str("")
  {
    LeafPlaceholder(f, spec, show);
  }

  // ---------------------------------------------------------------- key selectors

  lemma {:induction false} SelectFoldFacts(t: Template, spec: Value, show: Value -> string, n: nat)
    requires t.Selector? && n <= |t.keys| && Fits(t, spec)
    ensures forall k :: k in KeysOf(SelectFold(t, spec, show, n)) <==>
      k in t.keys[..n] && Contains(spec, k) && Truthy(Extraction(t.sub, At(spec, k), show))
    ensures forall k :: k in KeysOf(SelectFold(t, spec, show, n)) ==>
      k in t.keys && Contains(spec, k) && Lookup(SelectFold(t, spec, show, n), k) == Extraction(t.sub, At(spec, k), show)
  {
    if n > 0 {
      SelectFoldFacts(t, spec, show, n - 1);
      PrefixStep(t.keys, n);
    }
  }

  /** A `__keys__` selector emits exactly the listed keys that the document has and whose
      extraction with `__include__` is non-empty, each bound to that extraction. */
  lemma SelectorResult(t: Template, spec: Value, show: Value -> string)
    requires t.Selector? && Fits(t, spec)
    ensures var r := Extraction(t, spec, show);
      && r.Dict?
      && (forall k :: k in KeysOf(r.entries) <==>
            k in t.keys && Contains(spec, k) && Truthy(Extraction(t.sub, At(spec, k), show)))
      && (forall k :: k in KeysOf(r.entries) ==>
            k in t.keys && Contains(spec, k) && Lookup(r.entries, k) == Extraction(t.sub, At(spec, k), show))
  {
    SelectFoldFacts(t, spec, show, |t.keys|);
    PrefixWhole(t.keys);
  }

  // ---------------------------------------------------------------- groups and the wildcard

  /** The pair `t.fields[i]` may bind document key `k`: it is the pair named `k`, or it is the
      wildcard pair and `*` is not itself a key of the document. */
  predicate Chooses(t: Template, spec: Value, i: nat, k: string)
    requires t.Group? && i < |t.fields|
  {
    t.fields[i].0 == k || (t.fields[i].0 == Wildcard && !Contains(spec, Wildcard))
  }

  /** Every binding made by the first `n` pairs is a document key bound to the non-empty
      extraction of a pair that may bind it. */
  ghost predicate GroupSound(t: Template, spec: Value, show: Value -> string, parsed: Entries, n: nat)
    requires t.Group? && n <= |t.fields| && Fits(t, spec)
  {
    forall k :: k in KeysOf(parsed) ==>
      && Contains(spec, k)
      && Truthy(Lookup(parsed, k))
      && exists i :: 0 <= i < n && Chooses(t, spec, i, k) && Lookup(parsed, k) == Extraction(t.fields[i].1, At(spec, k), show)
  }

  /** Every document key that one of the first `n` pairs extracts to something non-empty is bound:
      the pair's own key when the document has it, every document key for the wildcard pair when
      `*` is not a document key. */
  ghost predicate GroupComplete(t: Template, spec: Value, show: Value -> string, parsed: Entries, n: nat)
    requires t.Group? && n <= |t.fields| && Fits(t, spec)
  {
    && (forall i ::
          (0 <= i < n && Contains(spec, t.fields[i].0) && Truthy(Extraction(t.fields[i].1, At(spec, t.fields[i].0), show)))
          ==> t.fields[i].0 in KeysOf(parsed))
    && (forall i, p ::
          (0 <= i < n && t.fields[i].0 == Wildcard && !Contains(spec, Wildcard) && Contains(spec, p) &&
           Truthy(Extraction(t.fields[i].1, At(spec, p), show)))
          ==> p in KeysOf(parsed))
  }

  /** Binding `key` to the extraction of a pair that may bind it keeps the bindings sound. */
  lemma PutSound(t: Template, spec: Value, show: Value -> string, parsed: Entries, n: nat, j: nat, key: string)
    requires t.Group? && j < n <= |t.fields| && Fits(t, spec)
    requires GroupSound(t, spec, show, parsed, n)
    requires Contains(spec, key) && Chooses(t, spec, j, key)
    ensures var v := Extraction(t.fields[j].1, At(spec, key), show);
      && GroupSound(t, spec, show, PutIfTruthy(parsed, key, v), n)
      && (forall k :: k in KeysOf(parsed) ==> k in KeysOf(PutIfTruthy(parsed, key, v)))
      && (Truthy(v) ==> key in KeysOf(PutIfTruthy(parsed, key, v)))
  {
    var v := Extraction(t.fields[j].1, At(spec, key), show);
    var next := PutIfTruthy(parsed, key, v);
    forall k | k in KeysOf(next)
      ensures Contains(spec, k) && Truthy(Lookup(next, k))
      ensures exists i :: 0 <= i < n && Chooses(t, spec, i, k) && Lookup(next, k) == Extraction(t.fields[i].1, At(spec, k), show)
    {
      if Truthy(v) && k == key {
        assert Lookup(next, k) == Extraction(t.fields[j].1, At(spec, k), show);
      } else {
        assert Lookup(next, k) == Lookup(parsed, k);
      }
    }
  }

  /** Soundness for a prefix of the pairs carries over to a longer prefix. */
  lemma SoundWeaken(t: Template, spec: Value, show: Value -> string, parsed: Entries, n: nat, n': nat)
    requires t.Group? && n <= n' <= |t.fields| && Fits(t, spec)
    requires GroupSound(t, spec, show, parsed, n)
    ensures GroupSound(t, spec, show, parsed, n')
  {
    forall k | k in KeysOf(parsed)
      ensures exists i :: 0 <= i < n' && Chooses(t, spec, i, k) && Lookup(parsed, k) == Extraction(t.fields[i].1, At(spec, k), show)
    {
      var i :| 0 <= i < n && Chooses(t, spec, i, k) && Lookup(parsed, k) == Extraction(t.fields[i].1, At(spec, k), show);
    }
  }

  lemma {:induction false} WildcardFoldKeeps(t: Template, i: nat, spec: Value, show: Value -> string, parsed: Entries, m: nat, k: string)
    requires t.Group? && i < |t.fields| && WildcardReady(t.fields[i].1, spec)
    requires t.fields[i].0 == Wildcard && !Contains(spec, Wildcard)
    requires m <= |Props(spec)| && k in KeysOf(parsed)
    ensures k in KeysOf(WildcardFold(t, i, spec, show, parsed, m))
  {
    if m > 0 {
      WildcardFoldKeeps(t, i, spec, show, parsed, m - 1, k);
      var prop := Props(spec)[m - 1];
      assert prop in Props(spec);
      var acc := WildcardFold(t, i, spec, show, parsed, m - 1);
      var v := Extraction(t.fields[i].1, At(spec, prop), show);
      assert WildcardFold(t, i, spec, show, parsed, m) == PutIfTruthy(acc, prop, v);
    }
  }

  lemma {:induction false} WildcardFoldSound(t: Template, i: nat, spec: Value, show: Value -> string, parsed: Entries, m: nat)
    requires t.Group? && i < |t.fields| && Fits(t, spec)
    requires t.fields[i].0 == Wildcard && !Contains(spec, Wildcard)
    requires m <= |Props(spec)|
    requires GroupSound(t, spec, show, parsed, i + 1)
    ensures GroupSound(t, spec, show, WildcardFold(t, i, spec, show, parsed, m), i + 1)
  {
    WildcardReadyOf(t, i, spec);
    if m > 0 {
      WildcardFoldSound(t, i, spec, show, parsed, m - 1);
      var prop := Props(spec)[m - 1];
      assert prop in Props(spec);
      var acc := WildcardFold(t, i, spec, show, parsed, m - 1);
      var v := Extraction(t.fields[i].1, At(spec, prop), show);
      assert WildcardFold(t, i, spec, show, parsed, m) == PutIfTruthy(acc, prop, v);
      PutSound(t, spec, show, acc, i + 1, i, prop);
    }
  }

  lemma {:induction false} GroupFoldSound(t: Template, spec: Value, show: Value -> string, n: nat)
    requires t.Group? && n <= |t.fields| && Fits(t, spec)
    ensures GroupSound(t, spec, show, GroupFold(t, spec, show, n), n)
  {
    if n > 0 {
      GroupFoldSound(t, spec, show, n - 1);
      var parsed := GroupFold(t, spec, show, n - 1);
      var key := t.fields[n - 1].0;
      SoundWeaken(t, spec, show, parsed, n - 1, n);
      if Contains(spec, key) {
        PutSound(t, spec, show, parsed, n, n - 1, key);
      } else if key == Wildcard {
        WildcardFoldSound(t, n - 1, spec, show, parsed, |Props(spec)|);
      }
    }
  }

  lemma {:induction false} GroupFoldKeeps(t: Template, spec: Value, show: Value -> string, j: nat, n: nat, k: string)
    requires t.Group? && j <= n <= |t.fields| && Fits(t, spec)
    requires k in KeysOf(GroupFold(t, spec, show, j))
    ensures k in KeysOf(GroupFold(t, spec, show, n))
  {
    if j < n {
      GroupFoldKeeps(t, spec, show, j, n - 1, k);
      var key := t.fields[n - 1].0;
      if !Contains(spec, key) && key == Wildcard {
        WildcardReadyOf(t, n - 1, spec);
        WildcardFoldKeeps(t, n - 1, spec, show, GroupFold(t, spec, show, n - 1), |Props(spec)|, k);
      }
    }
  }

  /** One round of the group loop for a pair whose name the document has. */
  lemma GroupFoldNamedStep(t: Template, spec: Value, show: Value -> string, i: nat)
    requires t.Group? && i < |t.fields| && Fits(t, spec) && Contains(spec, t.fields[i].0)
    ensures GroupFold(t, spec, show, i + 1) ==
      PutIfTruthy(GroupFold(t, spec, show, i), t.fields[i].0, Extraction(t.fields[i].1, At(spec, t.fields[i].0), show))
  {
    // unfolds `GroupFold` at `i + 1` and `Chooses` for a named pair
  }

  /** A pair named by a document key binds that key when its extraction is non-empty. */
  lemma GroupFoldNamed(t: Template, spec: Value, show: Value -> string, n: nat, i: nat)
    requires t.Group? && i < n <= |t.fields| && Fits(t, spec)
    requires Contains(spec, t.fields[i].0) && Truthy(Extraction(t.fields[i].1, At(spec, t.fields[i].0), show))
    ensures t.fields[i].0 in KeysOf(GroupFold(t, spec, show, n))
  {
    GroupFoldChosen(t, spec, show, i, t.fields[i].0);
    GroupFoldKeeps(t, spec, show, i + 1, n, t.fields[i].0);
  }

  lemma GroupFoldWildStep(t: Template, spec: Value, show: Value -> string, i: nat)
    requires t.Group? && i < |t.fields| && Fits(t, spec)
    requires t.fields[i].0 == Wildcard && !Contains(spec, Wildcard)
    ensures WildcardReady(t.fields[i].1, spec)
    ensures GroupFold(t, spec, show, i + 1) == WildcardFold(t, i, spec, show, GroupFold(t, spec, show, i), |Props(spec)|)
  {
    WildcardReadyOf(t, i, spec);
  }

  lemma GroupFoldWild(t: Template, spec: Value, show: Value -> string, n: nat, i: nat, p: string)
    requires t.Group? && i < n <= |t.fields| && Fits(t, spec)
    requires t.fields[i].0 == Wildcard && !Contains(spec, Wildcard)
    requires Contains(spec, p) && Truthy(Extraction(t.fields[i].1, At(spec, p), show))
    ensures p in KeysOf(GroupFold(t, spec, show, n))
  {
    GroupFoldChosen(t, spec, show, i, p);
    GroupFoldKeeps(t, spec, show, i + 1, n, p);
  }

  lemma GroupFoldComplete(t: Template, spec: Value, show: Value -> string, n: nat)
    requires t.Group? && n <= |t.fields| && Fits(t, spec)
    ensures GroupComplete(t, spec, show, GroupFold(t, spec, show, n), n)
  {
    forall i | 0 <= i < n && Contains(spec, t.fields[i].0) && Truthy(Extraction(t.fields[i].1, At(spec, t.fields[i].0), show))
      ensures t.fields[i].0 in KeysOf(GroupFold(t, spec, show, n))
    {
      GroupFoldNamed(t, spec, show, n, i);
    }
    forall i, p | 0 <= i < n && t.fields[i].0 == Wildcard && !Contains(spec, Wildcard) && Contains(spec, p) &&
                  Truthy(Extraction(t.fields[i].1, At(spec, p), show))
      ensures p in KeysOf(GroupFold(t, spec, show, n))
    {
      GroupFoldWild(t, spec, show, n, i, p);
    }
  }

  /** Pair `i` is the last of the first `n` pairs that may bind document key `k` and extracts it
      to something non-empty. */
  ghost predicate LastChooser(t: Template, spec: Value, show: Value -> string, i: nat, k: string, n: nat)
    requires t.Group? && n <= |t.fields| && Fits(t, spec)
  {
    && i < n && Contains(spec, k) && Chooses(t, spec, i, k)
    && Truthy(Extraction(t.fields[i].1, At(spec, k), show))
    && forall i' :: i < i' < n && Chooses(t, spec, i', k) ==> !Truthy(Extraction(t.fields[i'].1, At(spec, k), show))
  }

  /** The wildcard loop binds a key it visits with a non-empty extraction to that extraction. */
  lemma {:induction false} WildcardFoldLast(t: Template, i: nat, spec: Value, show: Value -> string, parsed: Entries, m: nat, j: nat)
    requires t.Group? && i < |t.fields| && WildcardReady(t.fields[i].1, spec)
    requires t.fields[i].0 == Wildcard && !Contains(spec, Wildcard)
    requires j < m <= |Props(spec)|
    requires Truthy(Extraction(t.fields[i].1, At(spec, Props(spec)[j]), show))
    ensures var w := WildcardFold(t, i, spec, show, parsed, m);
      Props(spec)[j] in KeysOf(w) && Lookup(w, Props(spec)[j]) == Extraction(t.fields[i].1, At(spec, Props(spec)[j]), show)
  {
    var acc := WildcardFold(t, i, spec, show, parsed, m - 1);
    var prop := Props(spec)[m - 1];
    assert prop in Props(spec);
    var v := Extraction(t.fields[i].1, At(spec, prop), show);
    assert WildcardFold(t, i, spec, show, parsed, m) == PutIfTruthy(acc, prop, v);
    if prop != Props(spec)[j] {
      WildcardFoldLast(t, i, spec, show, parsed, m - 1, j);
    }
  }

  /** A guarded put that cannot bind `k` to something new leaves `k`'s binding alone. */
  lemma PutIfTruthyKeeps(parsed: Entries, key: string, value: Value, k: string)
    requires k in KeysOf(parsed) && (key == k ==> !Truthy(value))
    ensures k in KeysOf(PutIfTruthy(parsed, key, value)) && Lookup(PutIfTruthy(parsed, key, value), k) == Lookup(parsed, k)
  {
    // follows from the contracts of `Put`
  }

  /** One round of the wildcard loop. */
  lemma WildcardFoldStep(t: Template, i: nat, spec: Value, show: Value -> string, parsed: Entries, m: nat)
    requires t.Group? && i < |t.fields| && WildcardReady(t.fields[i].1, spec)
    requires t.fields[i].0 == Wildcard && !Contains(spec, Wildcard)
    requires 0 < m <= |Props(spec)|
    ensures Contains(spec, Props(spec)[m - 1])
    ensures WildcardFold(t, i, spec, show, parsed, m) ==
      PutIfTruthy(WildcardFold(t, i, spec, show, parsed, m - 1), Props(spec)[m - 1],
                  Extraction(t.fields[i].1, At(spec, Props(spec)[m - 1]), show))
  {
    assert Props(spec)[m - 1] in Props(spec);
  }

  /** The guarded put `if value: parsed[key] = value` for each pair in order. */
  function PutsIfTruthy(parsed: Entries, pairs: Entries): Entries
  {
    if pairs == [] then parsed
    else PutIfTruthy(PutsIfTruthy(parsed, pairs[..|pairs| - 1]), pairs[|pairs| - 1].0, pairs[|pairs| - 1].1)
  }

  /** Guarded puts that never bind `k` to something non-empty leave `k`'s binding alone. */
  lemma {:induction false} PutsSkip(parsed: Entries, pairs: Entries, k: string)
    requires k in KeysOf(parsed)
    requires forall j :: 0 <= j < |pairs| && pairs[j].0 == k ==> !Truthy(pairs[j].1)
    ensures k in KeysOf(PutsIfTruthy(parsed, pairs)) && Lookup(PutsIfTruthy(parsed, pairs), k) == Lookup(parsed, k)
  {
    if pairs != [] {
      var init := pairs[..|pairs| - 1];
      assert forall j :: 0 <= j < |init| ==> init[j] == pairs[j];
      PutsSkip(parsed, init, k);
      PutIfTruthyKeeps(PutsIfTruthy(parsed, init), pairs[|pairs| - 1].0, pairs[|pairs| - 1].1, k);
    }
  }

  /** The pairs the wildcard loop puts: each document key with the wildcard's extraction at it. */
  ghost function WildPairs(t: Template, i: nat, spec: Value, show: Value -> string): Entries
    requires t.Group? && i < |t.fields| && WildcardReady(t.fields[i].1, spec)
  {
    seq(|Props(spec)|, j requires 0 <= j < |Props(spec)| =>
      (Props(spec)[j], Extraction(t.fields[i].1, At(spec, Props(spec)[j]), show)))
  }

  lemma {:induction false} WildcardFoldIsPuts(t: Template, i: nat, spec: Value, show: Value -> string, parsed: Entries, m: nat)
    requires t.Group? && i < |t.fields| && WildcardReady(t.fields[i].1, spec)
    requires t.fields[i].0 == Wildcard && !Contains(spec, Wildcard)
    requires m <= |Props(spec)|
    ensures WildcardFold(t, i, spec, show, parsed, m) == PutsIfTruthy(parsed, WildPairs(t, i, spec, show)[..m])
  {
    if m > 0 {
      WildcardFoldIsPuts(t, i, spec, show, parsed, m - 1);
      PrefixStep(WildPairs(t, i, spec, show), m);
      WildcardFoldStep(t, i, spec, show, parsed, m);
    }
  }

  /** The wildcard loop leaves alone a bound key whose extraction is empty. */
  lemma WildcardFoldSkips(t: Template, i: nat, spec: Value, show: Value -> string, parsed: Entries, m: nat, k: string)
    requires t.Group? && i < |t.fields| && WildcardReady(t.fields[i].1, spec)
    requires t.fields[i].0 == Wildcard && !Contains(spec, Wildcard)
    requires m <= |Props(spec)| && Contains(spec, k) && k in KeysOf(parsed)
    requires !Truthy(Extraction(t.fields[i].1, At(spec, k), show))
    ensures k in KeysOf(WildcardFold(t, i, spec, show, parsed, m))
    ensures Lookup(WildcardFold(t, i, spec, show, parsed, m), k) == Lookup(parsed, k)
  {
    var pairs := WildPairs(t, i, spec, show)[..m];
    WildcardFoldIsPuts(t, i, spec, show, parsed, m);
    PutsSkip(parsed, pairs, k);
  }

  /** The pair `t.fields[i]` binds a key it may bind, and extracts to something non-empty, to
      that extraction. */
  lemma GroupFoldChosen(t: Template, spec: Value, show: Value -> string, i: nat, k: string)
    requires t.Group? && i < |t.fields| && Fits(t, spec)
    requires Contains(spec, k) && Chooses(t, spec, i, k) && Truthy(Extraction(t.fields[i].1, At(spec, k), show))
    ensures var parsed := GroupFold(t, spec, show, i + 1);
      k in KeysOf(parsed) && Lookup(parsed, k) == Extraction(t.fields[i].1, At(spec, k), show)
  {
    if Contains(spec, t.fields[i].0) {
      assert t.fields[i].0 == k;
      GroupFoldNamedStep(t, spec, show, i);
    } else {
      GroupFoldWildStep(t, spec, show, i);
      assert k in Props(spec);
      var j := IndexOf(Props(spec), k);
      WildcardFoldLast(t, i, spec, show, GroupFold(t, spec, show, i), |Props(spec)|, j);
    }
  }

  /** The pair `t.fields[n - 1]` leaves a bound key alone when it cannot bind it to something
      non-empty. */
  lemma GroupFoldPasses(t: Template, spec: Value, show: Value -> string, n: nat, k: string)
    requires t.Group? && 0 < n <= |t.fields| && Fits(t, spec)
    requires Contains(spec, k) && k in KeysOf(GroupFold(t, spec, show, n - 1))
    requires Chooses(t, spec, n - 1, k) ==> !Truthy(Extraction(t.fields[n - 1].1, At(spec, k), show))
    ensures var parsed := GroupFold(t, spec, show, n);
      k in KeysOf(parsed) && Lookup(parsed, k) == Lookup(GroupFold(t, spec, show, n - 1), k)
  {
    var last := n - 1;
    var key := t.fields[last].0;
    var prev := GroupFold(t, spec, show, last);
    if Contains(spec, key) {
      GroupFoldNamedStep(t, spec, show, last);
      PutIfTruthyKeeps(prev, key, Extraction(t.fields[last].1, At(spec, key), show), k);
    } else if key == Wildcard {
      GroupFoldWildStep(t, spec, show, last);
      WildcardFoldSkips(t, last, spec, show, prev, |Props(spec)|, k);
    } else {
      assert GroupFold(t, spec, show, n) == prev;
    }
  }

  /** After the first `n` pairs, a key holds the extraction of the last pair that may bind it and
      extracts it to something non-empty: a later pair overwrites an earlier one. */
  lemma {:induction false} GroupFoldLast(t: Template, spec: Value, show: Value -> string, n: nat, i: nat, k: string)
    requires t.Group? && n <= |t.fields| && Fits(t, spec)
    requires LastChooser(t, spec, show, i, k, n)
    ensures var parsed := GroupFold(t, spec, show, n);
      k in KeysOf(parsed) && Lookup(parsed, k) == Extraction(t.fields[i].1, At(spec, k), show)
  {
    if n == i + 1 {
      GroupFoldChosen(t, spec, show, i, k);
    } else {
      assert LastChooser(t, spec, show, i, k, n - 1);
      GroupFoldLast(t, spec, show, n - 1, i, k);
      GroupFoldPasses(t, spec, show, n, k);
    }
  }

  /** A plain mapping template binds only keys the document has, never to an empty result, each
      to the extraction of its own pair or of the wildcard pair (the latter only when `*` is not
      a document key), and it binds every key one of those pairs extracts to something non-empty. */
  lemma GroupResult(t: Template, spec: Value, show: Value -> string)
    requires t.Group? && Fits(t, spec)
    ensures var r := Extraction(t, spec, show);
      && r.Dict?
      && GroupSound(t, spec, show, r.entries, |t.fields|)
      && GroupComplete(t, spec, show, r.entries, |t.fields|)
      && forall i: nat, k :: LastChooser(t, spec, show, i, k, |t.fields|) ==>
           k in KeysOf(r.entries) && Lookup(r.entries, k) == Extraction(t.fields[i].1, At(spec, k), show)
  {
    GroupFoldSound(t, spec, show, |t.fields|);
    GroupFoldComplete(t, spec, show, |t.fields|);
    forall i: nat, k | LastChooser(t, spec, show, i, k, |t.fields|)
      ensures var parsed := GroupFold(t, spec, show, |t.fields|);
        k in KeysOf(parsed) && Lookup(parsed, k) == Extraction(t.fields[i].1, At(spec, k), show)
    {
      GroupFoldLast(t, spec, show, |t.fields|, i, k);
    }
  }

  // ---------------------------------------------------------------- list templates

  /** The bindings each member of a list template hands to `dict.update` over `node`. */
  ghost function MemberParts(t: Template, node: Value, show: Value -> string): seq<Entries>
    requires t.Members? && UnionReady(t.items, node)
  {
    seq(|t.items|, j requires 0 <= j < |t.items| => EntriesOf(Extraction(t.items[j], node, show)))
  }

  lemma {:induction false} UnionFoldIsUnion(t: Template, node: Value, show: Value -> string, m: nat)
    requires t.Members? && m <= |t.items| && UnionReady(t.items, node)
    ensures UnionFold(t, node, show, m) == Union(MemberParts(t, node, show)[..m])
  {
    if m > 0 {
      UnionFoldIsUnion(t, node, show, m - 1);
      var parts := MemberParts(t, node, show);
      PrefixStep(parts, m);
    }
  }

  /** Over a non-array node every member of a list template yields a dict, and those dicts are
      the parts merged. */
  lemma MemberResults(t: Template, spec: Value, show: Value -> string)
    requires t.Members? && Fits(t, spec) && !IsArray(spec)
    ensures UnionReady(t.items, spec)
    ensures var parts := MemberParts(t, spec, show);
      && |parts| == |t.items|
      && forall j :: 0 <= j < |parts| ==>
           Extraction(t.items[j], spec, show).Dict? && parts[j] == Extraction(t.items[j], spec, show).entries
  {
    // unfolds `Fits` and `MemberParts` over a non-array node
  }

  /** A list template over a non-array position: every member yields a dict, and the result is
      the union of those dicts in member order (see `UnionKeys` and `UnionLaterWins` for the keys
      and values of a union). */
  lemma ListOverObject(t: Template, spec: Value, show: Value -> string)
    requires t.Members? && Fits(t, spec) && !IsArray(spec)
    ensures UnionReady(t.items, spec)
    ensures var parts := MemberParts(t, spec, show);
      && |parts| == |t.items|
      && (forall j :: 0 <= j < |parts| ==>
            Extraction(t.items[j], spec, show).Dict? && parts[j] == Extraction(t.items[j], spec, show).entries)
      && Extraction(t, spec, show) == Dict(Union(parts))
  {
    MemberResults(t, spec, show);
    var parts := MemberParts(t, spec, show);
    assert Extraction(t, spec, show) == Dict(UnionFold(t, spec, show, |t.items|));
    UnionFoldIsUnion(t, spec, show, |t.items|);
    PrefixWhole(parts);
  }

  lemma {:induction false} SnapshotAt(e: Value, keys: seq<string>, claimed: seq<string>, show: Value -> string, k: string)
    requires forall i :: 0 <= i < |keys| ==> Contains(e, keys[i])
    ensures k in KeysOf(Snapshots(e, keys, claimed, show)) <==> k in keys && k !in claimed
    ensures k in KeysOf(Snapshots(e, keys, claimed, show)) ==>
      Contains(e, k) && Lookup(Snapshots(e, keys, claimed, show), k) == Str(show(At(e, k)))
  {
    if keys != [] {
      var init := keys[..|keys| - 1];
      var key := keys[|keys| - 1];
      SnapshotAt(e, init, claimed, show, k);
      SplitLast(keys);
      var acc := Snapshots(e, init, claimed, show);
      if key !in claimed {
        var next := Put(acc, key, Str(show(At(e, key))));
        if k != key {
          assert k in KeysOf(next) <==> k in KeysOf(acc);
          if k in KeysOf(acc) {
            assert Lookup(next, k) == Lookup(acc, k);
          }
        }
      }
    }
  }

  /** `o` is the object a list template builds for the array element `e`: it binds the element's
      keys and the keys the members bind; a key the members bind holds the value their merged
      results give it, and any other key of the element holds the string form of its value. */
  ghost predicate BuiltFrom(t: Template, e: Value, show: Value -> string, o: Value)
    requires t.Members? && UnionReady(t.items, e)
  {
    var claimed := Union(MemberParts(t, e, show));
    && o.Dict?
    && (forall k :: k in KeysOf(o.entries) <==> Contains(e, k) || k in KeysOf(claimed))
    && (forall k :: k in KeysOf(claimed) ==> Lookup(o.entries, k) == Lookup(claimed, k))
    && (forall k :: Contains(e, k) && k !in KeysOf(claimed) ==> Lookup(o.entries, k) == Str(show(At(e, k))))
  }

  /** The object built for one array element is built from it as `BuiltFrom` describes. */
  lemma ElementObjectFacts(t: Template, e: Value, show: Value -> string)
    requires t.Members? && UnionReady(t.items, e)
    ensures BuiltFrom(t, e, show, ElementObject(t, e, show))
  {
    var claimed := UnionFold(t, e, show, |t.items|);
    UnionFoldIsUnion(t, e, show, |t.items|);
    PrefixWhole(MemberParts(t, e, show));
    var snapshots := Snapshots(e, Props(e), KeysOf(claimed), show);
    forall k
      ensures k in KeysOf(snapshots) <==> k in Props(e) && k !in KeysOf(claimed)
      ensures k in KeysOf(snapshots) ==> Contains(e, k) && Lookup(snapshots, k) == Str(show(At(e, k)))
    {
      SnapshotAt(e, Props(e), KeysOf(claimed), show, k);
    }
  }

  /** A list template over an array position gives one object per element, in the array's order,
      each built from its element. */
  lemma ListOverArray(t: Template, spec: Value, show: Value -> string)
    requires t.Members? && Fits(t, spec) && IsArray(spec)
    ensures var r := Extraction(t, spec, show);
      && r.List?
      && |r.items| == |Elements(spec)|
      && forall j :: 0 <= j < |r.items| ==>
           UnionReady(t.items, Elements(spec)[j]) && BuiltFrom(t, Elements(spec)[j], show, r.items[j])
  {
    var r := Extraction(t, spec, show);
    forall j | 0 <= j < |r.items|
      ensures UnionReady(t.items, Elements(spec)[j]) && BuiltFrom(t, Elements(spec)[j], show, r.items[j])
    {
      ElementObjectFacts(t, Elements(spec)[j], show);
    }
  }
}
