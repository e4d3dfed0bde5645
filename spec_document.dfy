/** The parsed specification document as the amendment code sees it.  The parser behind it is
    not part of this model; a document node is represented by the data it holds, and the six
    operations the code uses are given here. */
module SpecDocument {
  import opened Values

  /** `key in node`: only a mapping node has keys. */
  predicate Contains(node: Value, key: string)
  {
    node.Dict? && key in KeysOf(node.entries)
  }

  /** `node[key]` */
  function At(node: Value, key: string): Value
    requires Contains(node, key)
  {
    Lookup(node.entries, key)
  }

  /** `node._is_array()` */
  predicate IsArray(node: Value)
  {
    node.List?
  }

  /** `for item in node` over an array node. */
  function Elements(node: Value): seq<Value>
  {
    if node.List? then node.items else []
  }

  /** `for key in node` over a mapping node; any other node yields no keys. */
  function Props(node: Value): (keys: seq<string>)
    ensures forall k :: k in keys <==> Contains(node, k)
  {
    if node.Dict? then KeysOf(node.entries) else []
  }

  /** `node._raw()`: the plain data behind the node. */
  function Raw(node: Value): Value
  {
    node
  }
}
