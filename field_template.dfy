/** The field template (the `fields` entry of the template file) and the vocabulary of the
    amendment trees built from it. */
module FieldTemplate {

  /** The shapes `parse_keys` dispatches on.  A mapping that holds `__keys__` is always a
      `Selector`; a `Group` with a `__keys__` pair stands for no Python template, and the model
      treats such a pair as an ordinary field name. */
  datatype Template =
    | Leaf(field: string)                             // a field name
    | Selector(keys: seq<string>, sub: Template)      // a mapping with `__keys__` and `__include__`
    | Group(fields: seq<(string, Template)>)          // any other mapping, in its order
    | Members(items: seq<Template>)                   // a list of templates

  /** The group key that stands for every key of the document position. */
  const Wildcard := "*"

  /** Keys of an override placeholder. */
  const Original := "__original"
  const Override := "__override"
}
