# oawriter amendment templates in Dafny

oawriter keeps OpenAPI specification documents for a fleet of services. To let people correct
those documents, it extracts the fields named in a *field template* into an editable
*amendment tree*. In that tree every selected field becomes an override placeholder: the
`__original` value taken from the document, and an empty `__override` slot. When the template is
regenerated, the overrides people have already written are carried into the new tree. This
project models both steps from `oawriter/template/__init__.py`:

- `parse_keys(field_template, spec)` walks the template over a document.
  - A string template is a leaf and becomes a placeholder. Its override is `[""]` when the
    document value is an array.
  - A mapping with `__keys__` applies its `__include__` sub-template to each listed key of the
    document.
  - Any other mapping applies each sub-template to the document key of the same name. The key
    `*` applies its sub-template to every key of the document, unless the document itself has
    a key `*`; then it applies only to that key, like any other name.
  - A list of templates merges the members' results. Over an array it builds one object per
    element: the element's unclaimed keys are kept as strings, and the members' results are
    laid over them.
- `get_prev_amendments(curr, prev)` rebuilds the new tree key by key.
  - A key the previous tree lacks keeps its current value.
  - A non-dict value is taken from the previous tree.
  - A placeholder keeps the current `__original` when it is truthy, and takes the previous
    `__override`.
  - Any other dict is reconciled recursively.

Modules:

- `Values` holds the Python data: `None`, booleans, integers, strings, lists and insertion-ordered
  dicts. It also defines `d[k] = v`, `d.get`, `d.update`, truthiness and the `in` operator.
- `SpecDocument` holds the document operations the code uses: `in`, `[]`, `_is_array()`,
  iteration and `_raw()`.
- `FieldTemplate` holds the four template shapes and the placeholder keys.
- `Extractor` holds `parse_keys` twice. Once it is a specification function, `Extraction`, built
  from one fold per loop. Once it is a set of methods whose loops follow the source; each method
  is proved equal to its fold.
- `ExtractorProperties` proves what the amendment tree holds for each template shape.
- `Reconciler` holds `get_prev_amendments` the same way: a specification function `Reconciled`,
  and the method `GetPrevAmendments` with the source's loop.
- `ReconcilerProperties` proves the key set, the per-key values and the survival of overrides.

Python's `str(node)` on a document node is the parameter `show`; the model does not interpret it.
Calls for which the source raises are excluded by preconditions:

- `Fits` for `parse_keys`. A list template nested in a list template over an array, applied to
  a non-empty array element, produces a list of objects. `dict.update` rejects that list, unless
  every object in it has exactly two keys. The crashes that come from iterating a node that is
  not a mapping are not excluded (see "Left out").
- `Reconcilable` for `get_prev_amendments`. Python's `in` fails on `None` and numbers, and `.get`
  or `[]` fail on a non-dict previous value. This precondition describes exactly the calls that
  do not raise.

## Model

| member | source | states |
|---|---|---|
| Extractor.Extraction | oawriter/template/__init__.py:33-101 | The result of `parse_keys` is a dict, or a list exactly when a list template meets an array; the list then has one entry per element of the array. |
| Extractor.ParseKeys | oawriter/template/__init__.py:33-101 | Running the source's branches and loops gives exactly `Extraction`. |
| Extractor.SelectKeys | oawriter/template/__init__.py:57-65 | The `__keys__` loop gives the selector fold over all listed keys. |
| Extractor.GroupKeys | oawriter/template/__init__.py:66-81 | The loop over a mapping template's items gives the group fold over all pairs. |
| Extractor.EachProp | oawriter/template/__init__.py:74-79 | The inner loop for `*` over the document's keys gives the wildcard fold, starting from the bindings made before it. |
| Extractor.MergeMembers | oawriter/template/__init__.py:84-88 | The `parsed.update(parse_keys(item, spec))` loop gives the union fold over all members. |
| Extractor.EachElement | oawriter/template/__init__.py:89-101 | The loop over an array builds one object per element, in order, each equal to `ElementObject` for that element. |
| Extractor.BuildElement | oawriter/template/__init__.py:91-99 | One element's object is the members' union laid over the string snapshots of the element's unclaimed keys. |
| ExtractorProperties.LeafPlaceholder | oawriter/template/__init__.py:35-54 | A leaf `f` gives `{f: placeholder}`. When `f` is in the document, the placeholder's keys are `__original` then `__override`, and `__original` is the raw value. When `f` is absent, the only key is `__override`. `__override` is `[""]` for an array value and `""` otherwise. |
| ExtractorProperties.ArrayLeafOverride | oawriter/template/__init__.py:45-46 | A leaf over an array value never gets the scalar override `""`. |
| ExtractorProperties.SelectorResult | oawriter/template/__init__.py:57-65 | A `__keys__` mapping binds exactly the listed keys present in the document whose sub-result is truthy. Each such key holds the `__include__` extraction at that key. |
| ExtractorProperties.GroupResult | oawriter/template/__init__.py:66-81 | Every key of a group's result is present in the document and chosen by one of the template's pairs, by name or by `*` when the document has no key `*`. Its value is truthy and is the extraction of one such pair. Conversely, every document key that a pair chooses with a truthy result is bound. A later pair wins: such a key holds the extraction of the last pair that chooses it with a truthy result. |
| ExtractorProperties.GroupFoldLast | oawriter/template/__init__.py:67-79 | After the first `n` pairs, a key holds the extraction of the last of those pairs that chooses it with a truthy result, so a later named pair or `*` overwrites an earlier one. |
| ExtractorProperties.ListOverObject | oawriter/template/__init__.py:83-88 | Over a non-array node, a list template gives the ordered union of its members' dicts. |
| Values.UnionKeys | oawriter/template/__init__.py:86-87 | A union binds exactly the keys that some part binds. |
| Values.UnionLaterWins | oawriter/template/__init__.py:86-87 | A key of a union holds the value from the last part that binds it. |
| ExtractorProperties.SnapshotAt | oawriter/template/__init__.py:96 | The snapshot comprehension binds exactly the listed keys of the element that are not claimed, each to `str` of the element's value at that key. |
| ExtractorProperties.ElementObjectFacts | oawriter/template/__init__.py:91-99 | An element's object binds the element's keys together with the keys of the union of the members' dicts. Those keys hold their value in that union, and every other key holds `str` of the element's value. |
| ExtractorProperties.ListOverArray | oawriter/template/__init__.py:89-101 | Over an array, a list template gives one object per element, in the array's order. Object `j` binds the keys of element `j` and the keys of the union of the members' dicts over it. The members' keys hold their value in that union, and every other key holds `str` of the element's value. |
| Values.Put | oawriter/template/__init__.py:65 | `d[k] = v` appends a new key or keeps the place of an existing one. It binds `k` to `v` and leaves the other keys unchanged. |
| Values.UpdateWith | oawriter/template/__init__.py:97 | `d.update(e)` binds the keys of `d` and of `e`. `e`'s values win, and the keys only in `d` keep their values. |
| Values.UpdateEmpty | oawriter/template/__init__.py:129-131 | Copying a dict with distinct keys into `{}` gives back the same dict. |
| Reconciler.MergeFold | oawriter/template/__init__.py:107-131 | After the first `n` bindings of `curr`, `merged` binds exactly the keys among those bindings. |
| Reconciler.Reconciled | oawriter/template/__init__.py:104-133 | `get_prev_amendments` returns a tree that binds exactly the keys of `curr`. |
| Reconciler.GetPrevAmendments | oawriter/template/__init__.py:104-133 | Running the source's loop, with its `continue`s and recursion, gives exactly `Reconciled`. |
| ReconcilerProperties.ReconciledIsUpdate | oawriter/template/__init__.py:105-131 | `merged` is `{}` updated with `curr`'s bindings, each with its amended value, so the bindings keep `curr`'s keys and order. |
| ReconcilerProperties.ReconciledKeys | oawriter/template/__init__.py:105-109 | The merged tree binds exactly the keys of `curr`, in `curr`'s order, whatever `prev` holds. |
| ReconcilerProperties.ReconciledLookup | oawriter/template/__init__.py:107-131 | For each key: the current value when `prev` lacks the key; the previous value when the current one is not a dict; the refreshed placeholder when it holds `__override`; otherwise the recursive reconciliation of the two sub-trees. |
| ReconcilerProperties.RefreshedPlaceholder | oawriter/template/__init__.py:120-126 | A refreshed placeholder has `__original` exactly when the current one is truthy, and then the current value. Its `__override` is the previous `__override`, or `""` when the previous placeholder has none. |
| ReconcilerProperties.FirstRun | oawriter/template/__init__.py:104-133 | With no previous amendments (`prev == {}`), the merge always succeeds and returns the current tree unchanged. |
| ReconcilerProperties.AmendmentSurvives | oawriter/template/__init__.py:104-133 | Take a placeholder reached in `curr` through ordinary sub-trees, where `prev` has a dict at the same path. The merged tree has, at that path, the current placeholder with the previous tree's `__override`. |

## Left out

- `create_new_template`, `generate_from_template` and `make_template_parser` are not modelled.
  They copy files, read and write YAML, stamp backups with the time and parse command-line
  arguments.
- `oawriter/generate/__init__.py` and `oawriter/merge/__init__.py` are not modelled. They loop
  over files, and applying overrides and merging documents happen in calls into the `oaspec`
  library, whose source is not part of this model. The command-line wiring in
  `oawriter/__init__.py` is not modelled either.
- The `oaspec` document library is not modelled. Its nodes are represented by their data, which
  is the least a model needs in order to state anything about them.
  - `in` means "is a key of a mapping node".
  - Iterating a mapping gives its keys, and the list-template loop over an array gives its
    elements.
  - Every other iteration of a node yields nothing. This covers `for prop in spec` for `*`, and
    the keys of an array element in the snapshot comprehension.
  - `_raw()` is the identity.
- `str(node)` is the uninterpreted parameter `show`.
- Floating-point numbers are not modelled: `Value` has integers only. Only truthiness depends on
  numbers, and zero is false either way.
- `deepcopy` is the identity, because `Value` is immutable and aliasing cannot be observed.
- Some template shapes are not representable.
  - A `__keys__` mapping without `__include__` reads `__include__` only for a listed key the
    document has (line 62), raising `KeyError` there. When no listed key is in the document it
    returns `{}`; the model cannot represent this non-raising case, since a `Selector` always has
    a sub-template.
  - A `__keys__` value that is a string is iterated character by character, and one that is a
    mapping is iterated by its keys. The model represents the string as a `Selector` over the
    list of its characters, and the mapping as a `Selector` over its keys. A number or `None`
    there raises `TypeError`.
  - A template that is neither a string, a mapping nor a list makes `parse_keys` return `None`.
  - A `Group` with a `__keys__` pair stands for no Python template: such a mapping is always
    dispatched as a selector (line 57).
- Extractor.Extraction: the calls that raise are excluded by the precondition `Fits` rather
  than modelled as errors, except the crashes that come from iterating a node that is not a
  mapping. For `*` over a non-empty array (lines 75-76), the model binds nothing. For an array
  element that is itself a non-empty array or a string (line 96), it takes no snapshots. In both
  places the source indexes the node by what it iterated and would usually raise.
- Extractor.Extraction: `Fits` also excludes every merge of a nested list result by
  `dict.update`. Python accepts one whose objects all have exactly two keys, binding each first
  key to its second key; this case is not modelled.
- Reconciler.Reconciled: the calls that raise are excluded by the precondition `Reconcilable`
  rather than modelled as errors.
- ReconcilerProperties.ReconciledKeys: the equality of the key sequences assumes that `curr` has
  no repeated keys, which Python dicts guarantee. The key-set statement holds without it.
- ReconcilerProperties.FirstRun: assumes that `curr` has no repeated keys, which Python dicts
  guarantee.
- ReconcilerProperties.AmendmentSurvives: only covers placeholders reached through ordinary
  sub-trees. Lists are not reconciled. A list value present in both trees is taken whole from
  the previous tree (lines 116-118), so snapshots inside such lists are not refreshed. The
  source's list branch is commented out. The model follows the code
  here, not the stated aim that the merged tree has exactly the new tree's shape.
