/** Query plans as decoded JSON, and the canonical text that is hashed into a fingerprint. */
module PlanJson {
  import opened Strings

  // A decoded number, identified with the text that formatting it yields: float formatting
  // gives different numbers different texts over these characters.
  predicate NumberChar(c: char) {
    '0' <= c <= '9' || c == '+' || c == '-' || c == '.' || c == 'e'
  }

  type NumText = t: string | t != "" && forall i :: 0 <= i < |t| ==> NumberChar(t[i]) witness "0"

  datatype Json =
    | Null
    | Bool(b: bool)
    | Num(text: NumText)
    | Str(s: string)
    | Arr(items: seq<Json>)
    | Obj(fields: map<string, Json>)

  type Node = v: Json | v.Obj? witness Obj(map[])

  const CANONICAL_KEYS: set<string> := {
    "select_id", "table_name", "access_type", "key", "key_length", "ref", "used_key_parts",
    "used_columns", "attached_condition", "using_index", "using_index_for_group_by",
    "using_filesort", "using_temporary_table", "index_condition",
    "rows_produced_per_join_is_estimated"
  }

  const NESTED_KEYS: seq<string> := [
    "table", "nested_loop", "query_specifications", "ordering_operation", "grouping_operation",
    "duplicates_removal", "windowing"
  ]

  predicate Wrapped(raw: Node) {
    "query_block" in raw.fields && raw.fields["query_block"].Obj?
  }

  // The plan proper lives under query_block when that is an object.
  function Root(raw: Node): Node {
    if Wrapped(raw) then raw.fields["query_block"] else raw
  }

  ghost function LeafKeys(node: Node): (ks: seq<string>)
    ensures forall k :: k in ks <==> k in node.fields && k in CANONICAL_KEYS
  {
    InOrder(node.fields.Keys * CANONICAL_KEYS)
  }

  // The canonical text of a node: its canonical fields in key order, then its children in the
  // fixed order of NESTED_KEYS.
  ghost function Canonical(node: Node): string
    decreases node, 2
  {
    "{" + Leaves(node, LeafKeys(node)) + Children(node, NESTED_KEYS) + "}"
  }

  ghost function Leaves(node: Node, keys: seq<string>): string
    requires forall k :: k in keys ==> k in node.fields
  {
    if keys == [] then ""
    else
      Leaf(node, keys[0]) + (if |keys| > 1 then "," else "") + Leaves(node, keys[1..])
  }

  ghost function Leaf(node: Node, k: string): string
    requires k in node.fields
  {
    k + "=" + AnyText(node.fields[k])
  }

  ghost function Children(node: Node, keys: seq<string>): string
    decreases node, 1, keys
  {
    if keys == [] then ""
    else
      var k := keys[0];
      (if k in node.fields then "|" + k + ":" + ChildText(node.fields[k]) else "") + Children(node, keys[1..])
  }

  ghost function ChildText(v: Json): string
    decreases v, 3
  {
    match v
    case Obj(_) => Canonical(v)
    case Arr(items) => "[" + ItemTexts(items) + "]"
    case _ => AnyText(v)
  }

  ghost function ItemTexts(items: seq<Json>): string
    decreases items
  {
    if items == [] then ""
    else ItemText(items[0]) + (if |items| > 1 then "," else "") + ItemTexts(items[1..])
  }

  ghost function ItemText(v: Json): string
    decreases v, 3
  {
    if v.Obj? then Canonical(v) else AnyText(v)
  }

  ghost function AnyText(v: Json): string
    decreases v, 0
  {
    match v
    case Null => "null"
    case Bool(b) => if b then "true" else "false"
    case Num(t) => t
    case Str(s) => "\"" + s + "\""
    case Arr(items) => "[" + AnyTexts(items) + "]"
    case Obj(_) => GoText(v)
  }

  ghost function AnyTexts(items: seq<Json>): string
    decreases items
  {
    if items == [] then ""
    else AnyText(items[0]) + (if |items| > 1 then "," else "") + AnyTexts(items[1..])
  }

  // What formatting a value with %v prints: maps sorted by key, no quotes, space separated.
  function GoText(v: Json): string
    decreases v, 0
  {
    match v
    case Null => "<nil>"
    case Bool(b) => if b then "true" else "false"
    case Num(t) => t
    case Str(s) => s
    case Arr(items) => "[" + GoTexts(items) + "]"
    case Obj(fields) => "map[" + GoFields(v, InOrder(fields.Keys)) + "]"
  }

  function GoTexts(items: seq<Json>): string
    decreases items
  {
    if items == [] then ""
    else GoText(items[0]) + (if |items| > 1 then " " else "") + GoTexts(items[1..])
  }

  function GoFields(v: Node, keys: seq<string>): string
    requires forall k :: k in keys ==> k in v.fields
    decreases v, 0, keys
  {
    if keys == [] then ""
    else
      keys[0] + ":" + GoText(v.fields[keys[0]]) + (if |keys| > 1 then " " else "") + GoFields(v, keys[1..])
  }
}
