/** Python data as loaded from YAML or built by the amendment code: `None`, booleans,
    integers, strings, lists and insertion-ordered dicts with string keys. */
module Values {

  datatype Value =
    | Null
    | Bool(b: bool)
    | Num(n: int)
    | Str(s: string)
    | List(items: seq<Value>)
    | Dict(entries: seq<(string, Value)>)

  /** The bindings of a dict in insertion order. */
  type Entries = seq<(string, Value)>

  /** The keys of a dict in iteration order (`for k in d`). */
  function KeysOf(d: Entries): (ks: seq<string>)
    ensures |ks| == |d|
    ensures forall i :: 0 <= i < |d| ==> ks[i] == d[i].0
  {
    seq(|d|, i requires 0 <= i < |d| => d[i].0)
  }

  /** `d[k]`.  The last binding of `k` is read; a dict built with `Put` has one binding per key. */
  function Lookup(d: Entries, k: string): Value
    requires k in KeysOf(d)
  {
    if d[|d| - 1].0 == k then d[|d| - 1].1 else Lookup(d[..|d| - 1], k)
  }

  /** The first `n` elements of `s` are the first `n - 1` and then element `n - 1`. */
  lemma PrefixStep<T>(s: seq<T>, n: nat)
    requires 0 < n <= |s|
    ensures s[..n] == s[..n - 1] + [s[n - 1]]
    ensures s[..n][..n - 1] == s[..n - 1]
    ensures forall x :: x in s[..n] <==> x in s[..n - 1] || x == s[n - 1]
  {
  }

  /** An element of a non-empty sequence is in its front part or is its last element. */
  lemma SplitLast<T>(s: seq<T>)
    requires s != []
    ensures forall x :: x in s <==> x in s[..|s| - 1] || x == s[|s| - 1]
  {
    assert s == s[..|s| - 1] + [s[|s| - 1]];
  }

  /** A position at which an element of `s` occurs. */
  lemma IndexOf<T>(s: seq<T>, x: T) returns (j: nat)
    requires x in s
    ensures j < |s| && s[j] == x
  {
    j :| 0 <= j < |s| && s[j] == x;
  }

  lemma PrefixWhole<T>(s: seq<T>)
    ensures s[..|s|] == s
  {
  }

  /** The keys of a real Python dict: no key occurs twice. */
  predicate Distinct(ks: seq<string>)
  {
    forall i, j :: 0 <= i < j < |ks| ==> ks[i] != ks[j]
  }

  /** `Lookup` reads the last binding of the key. */
  lemma {:induction false} LastBinding(d: Entries, k: string) returns (j: nat)
    requires k in KeysOf(d)
    ensures j < |d| && d[j].0 == k && d[j].1 == Lookup(d, k)
    ensures forall j' :: j < j' < |d| ==> d[j'].0 != k
  {
    if d[|d| - 1].0 == k {
      j := |d| - 1;
    } else {
      var init := d[..|d| - 1];
      assert k in KeysOf(init) by {
        var i :| 0 <= i < |d| && KeysOf(d)[i] == k;
        assert KeysOf(init)[i] == k;
      }
      j := LastBinding(init, k);
    }
  }

  /** A binding no later binding shadows is the one `Lookup` reads. */
  lemma {:induction false} LookupUnshadowed(d: Entries, j: nat, k: string)
    requires j < |d| && d[j].0 == k
    requires forall j' :: j < j' < |d| ==> d[j'].0 != k
    ensures k in KeysOf(d) && Lookup(d, k) == d[j].1
  {
    assert KeysOf(d)[j] == k;
    if j < |d| - 1 {
      var init := d[..|d| - 1];
      assert init[j] == d[j];
      assert forall j' :: j < j' < |init| ==> init[j'] == d[j'];
      LookupUnshadowed(init, j, k);
    }
  }

  /** `d.get(k, default)` */
  function Get(d: Entries, k: string, default: Value): Value
  {
    if k in KeysOf(d) then Lookup(d, k) else default
  }

  /** `d[k] = v`: a new key goes to the end, an existing key keeps its place. */
  function Put(d: Entries, k: string, v: Value): (r: Entries)
    ensures KeysOf(r) == if k in KeysOf(d) then KeysOf(d) else KeysOf(d) + [k]
    ensures Lookup(r, k) == v
    ensures forall k' :: k' in KeysOf(d) && k' != k ==> Lookup(r, k') == Lookup(d, k')
  {
    if k !in KeysOf(d) then
      var r := d + [(k, v)];
      assert r[..|r| - 1] == d;
      r
    else if d[|d| - 1].0 == k then
      var r := d[..|d| - 1] + [(k, v)];
      assert r[..|r| - 1] == d[..|d| - 1];
      r
    else
      var r := Put(d[..|d| - 1], k, v) + [d[|d| - 1]];
      assert r[..|r| - 1] == Put(d[..|d| - 1], k, v);
      r
  }

  /** `d.update(e)`: the bindings of `e` are put into `d` one after another, in order. */
  function UpdateWith(d: Entries, e: Entries): (r: Entries)
    ensures forall k :: k in KeysOf(r) <==> k in KeysOf(d) || k in KeysOf(e)
    ensures forall k :: k in KeysOf(e) ==> Lookup(r, k) == Lookup(e, k)
    ensures forall k :: k in KeysOf(d) && k !in KeysOf(e) ==> Lookup(r, k) == Lookup(d, k)
  {
    if e == [] then d
    else
      var init := e[..|e| - 1];
      var (k, v) := e[|e| - 1];
      assert KeysOf(e) == KeysOf(init) + [k];
      Put(UpdateWith(d, init), k, v)
  }

  /** Copying a dict into an empty one (`{}.update(e)`) gives back the same dict. */
  lemma {:induction false} UpdateEmpty(e: Entries)
    requires Distinct(KeysOf(e))
    ensures UpdateWith([], e) == e
  {
    if e != [] {
      var init := e[..|e| - 1];
      var last := e[|e| - 1];
      forall i, j | 0 <= i < j < |init|
        ensures KeysOf(init)[i] != KeysOf(init)[j]
      {
        assert KeysOf(e)[i] != KeysOf(e)[j];
      }
      UpdateEmpty(init);
      forall i | 0 <= i < |init|
        ensures KeysOf(init)[i] != last.0
      {
        assert KeysOf(e)[i] != KeysOf(e)[|e| - 1];
      }
      assert init + [last] == e;
    }
  }

  /** Successive `update` calls on an empty dict, with the bindings of `parts` in order. */
  function Union(parts: seq<Entries>): Entries
  {
    if parts == [] then [] else UpdateWith(Union(parts[..|parts| - 1]), parts[|parts| - 1])
  }

  /** The union binds exactly the keys some part binds. */
  lemma {:induction false} UnionKeys(parts: seq<Entries>)
    ensures forall k :: k in KeysOf(Union(parts)) <==> exists j :: 0 <= j < |parts| && k in KeysOf(parts[j])
  {
    if parts != [] {
      var init := parts[..|parts| - 1];
      UnionKeys(init);
      forall k | k in KeysOf(Union(parts)) && k !in KeysOf(parts[|parts| - 1])
        ensures exists j :: 0 <= j < |parts| && k in KeysOf(parts[j])
      {
        var j :| 0 <= j < |init| && k in KeysOf(init[j]);
        assert parts[j] == init[j];
      }
      forall k, j | 0 <= j < |parts| - 1 && k in KeysOf(parts[j])
        ensures k in KeysOf(Union(parts))
      {
        assert init[j] == parts[j];
      }
    }
  }

  /** A key of the union holds the value of the last part that binds it. */
  lemma {:induction false} UnionLaterWins(parts: seq<Entries>, j: nat, k: string)
    requires j < |parts| && k in KeysOf(parts[j])
    requires forall j' :: j < j' < |parts| ==> k !in KeysOf(parts[j'])
    ensures k in KeysOf(Union(parts)) && Lookup(Union(parts), k) == Lookup(parts[j], k)
  {
    var init := parts[..|parts| - 1];
    if j < |parts| - 1 {
      assert init[j] == parts[j];
      assert forall j' :: j < j' < |init| ==> init[j'] == parts[j'];
      UnionLaterWins(init, j, k);
    }
  }

  /** Python truthiness: `None`, `False`, `0` and empty strings, lists and dicts are false. */
  predicate Truthy(v: Value)
  {
    match v
    case Null => false
    case Bool(b) => b
    case Num(n) => n != 0
    case Str(s) => s != ""
    case List(items) => items != []
    case Dict(entries) => entries != []
  }

  /** Whether Python's `k in v` is defined (it raises `TypeError` on `None`, booleans and numbers). */
  predicate Iterable(v: Value)
  {
    v.Str? || v.List? || v.Dict?
  }

  /** `k in s` on strings: `k` occurs in `s` as a contiguous substring. */
  predicate IsSubstring(k: string, s: string)
    decreases |s|
  {
    k <= s || (s != [] && IsSubstring(k, s[1..]))
  }

  /** Python's `k in v` for a string `k`: key of a dict, element of a list, substring of a string. */
  predicate IsIn(k: string, v: Value)
    requires Iterable(v)
  {
    match v
    case Dict(entries) => k in KeysOf(entries)
    case List(items) => Str(k) in items
    case Str(s) => IsSubstring(k, s)
  }
}
