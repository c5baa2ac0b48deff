/** The canonical printer, written step by step into a string builder. */
module PlanPrinter {
  import opened Sorting
  import opened Strings
  import opened PlanJson

  class Builder {
    var text: string

    constructor ()
      ensures text == ""
    {
      text := "";
    }

    method Write(s: string)
      modifies this
      ensures text == old(text) + s
    {
      text := text + s;
    }
  }

  // The canonical keys that a node has, in the order of a map iteration.
  method CollectKeys(node: Node) returns (keys: seq<string>)
    ensures multiset(keys) == multiset(node.fields.Keys * CANONICAL_KEYS)
  {
    keys := [];
    var rest := node.fields.Keys;
    while rest != {}
      invariant rest <= node.fields.Keys
      invariant multiset(keys) == multiset((node.fields.Keys - rest) * CANONICAL_KEYS)
      decreases |rest|
    {
      var k :| k in rest;
      rest := rest - {k};
      if k in CANONICAL_KEYS {
        keys := keys + [k];
      }
    }
  }

  // The comma before the i-th of n parts.
  function CommaBefore(i: nat, n: nat): string {
    if 0 < i < n then "," else ""
  }

  method Canonicalise(sb: Builder, node: Node)
    modifies sb
    ensures sb.text == old(sb.text) + Canonical(node)
    decreases node, 2
  {
    hide Leaves, Children, LeafKeys;
    var keys := SortedKeys(node);
    sb.Write("{");
    WriteLeaves(sb, node, keys);
    WriteChildren(sb, node);
    sb.Write("}");
  }

  method SortedKeys(node: Node) returns (keys: seq<string>)
    ensures keys == LeafKeys(node)
  {
    keys := CollectKeys(node);
    SortingGivesInOrder(keys, node.fields.Keys * CANONICAL_KEYS);
    keys := StableSort(Less, keys);
  }

  method WriteLeaves(sb: Builder, node: Node, keys: seq<string>)
    requires forall k :: k in keys ==> k in node.fields
    modifies sb
    ensures sb.text == old(sb.text) + Leaves(node, keys)
    decreases node, 1
  {
    hide Leaves, AnyText;
    assert keys[0..] == keys;
    for i := 0 to |keys|
      invariant sb.text + (CommaBefore(i, |keys|) + Leaves(node, keys[i..])) == old(sb.text) + Leaves(node, keys)
    {
      LeavesStep(sb.text, node, keys, i);
      if i > 0 {
        sb.Write(",");
      }
      sb.Write(keys[i]);
      sb.Write("=");
      WriteAny(sb, node.fields[keys[i]]);
    }
    assert keys[|keys|..] == [];
    LeavesEnd(node);
  }

  lemma {:induction false} LeavesEnd(node: Node)
    ensures Leaves(node, []) == ""
  {
  }

  lemma {:induction false} LeavesStep(text: string, node: Node, keys: seq<string>, i: nat)
    requires i < |keys| && forall k :: k in keys ==> k in node.fields
    ensures text + (CommaBefore(i, |keys|) + Leaves(node, keys[i..])) ==
            text + CommaBefore(i, |keys|) + keys[i] + "=" + AnyText(node.fields[keys[i]])
            + (CommaBefore(i + 1, |keys|) + Leaves(node, keys[i + 1..]))
  {
    hide AnyText;
    assert keys[i..][1..] == keys[i + 1..];
    var c, k, v, r := CommaBefore(i, |keys|), keys[i], AnyText(node.fields[keys[i]]), Leaves(node, keys[i + 1..]);
    assert Leaves(node, keys[i..]) == k + "=" + v + CommaBefore(i + 1, |keys|) + r;
    assert text + c + (k + "=" + v) == text + c + k + "=" + v;
  }

  method WriteChildren(sb: Builder, node: Node)
    modifies sb
    ensures sb.text == old(sb.text) + Children(node, NESTED_KEYS)
    decreases node, 1
  {
    hide Children, ChildText;
    assert NESTED_KEYS[0..] == NESTED_KEYS;
    for i := 0 to |NESTED_KEYS|
      invariant sb.text + Children(node, NESTED_KEYS[i..]) == old(sb.text) + Children(node, NESTED_KEYS)
    {
      var k := NESTED_KEYS[i];
      ChildrenStep(sb.text, node, NESTED_KEYS, i);
      if k !in node.fields {
        continue;
      }
      sb.Write("|");
      sb.Write(k);
      sb.Write(":");
      WriteChild(sb, node.fields[k]);
    }
    assert NESTED_KEYS[|NESTED_KEYS|..] == [];
    ChildrenEnd(node);
  }

  lemma {:induction false} ChildrenEnd(node: Node)
    ensures Children(node, []) == ""
  {
  }

  lemma {:induction false} ChildrenStep(text: string, node: Node, keys: seq<string>, i: nat)
    requires i < |keys|
    ensures text + Children(node, keys[i..]) ==
            if keys[i] in node.fields
            then text + "|" + keys[i] + ":" + ChildText(node.fields[keys[i]]) + Children(node, keys[i + 1..])
            else text + Children(node, keys[i + 1..])
  {
    hide ChildText;
    assert keys[i..][1..] == keys[i + 1..];
    if keys[i] in node.fields {
      var k, c, r := keys[i], ChildText(node.fields[keys[i]]), Children(node, keys[i + 1..]);
      assert Children(node, keys[i..]) == "|" + k + ":" + c + r;
      assert text + ("|" + k + ":" + c + r) == text + "|" + k + ":" + c + r;
    }
  }

  method WriteChild(sb: Builder, v: Json)
    modifies sb
    ensures sb.text == old(sb.text) + ChildText(v)
    decreases v, 3
  {
    hide Canonical, ItemTexts, AnyText;
    match v
    case Obj(_) => Canonicalise(sb, v);
    case Arr(items) =>
      sb.Write("[");
      WriteItems(sb, items);
      sb.Write("]");
    case _ => WriteAny(sb, v);
  }

  method WriteItems(sb: Builder, items: seq<Json>)
    modifies sb
    ensures sb.text == old(sb.text) + ItemTexts(items)
    decreases items
  {
    hide Canonical, ItemTexts, AnyText;
    assert items[0..] == items;
    for i := 0 to |items|
      invariant sb.text + (CommaBefore(i, |items|) + ItemTexts(items[i..])) == old(sb.text) + ItemTexts(items)
    {
      ItemsStep(sb.text, items, i);
      if i > 0 {
        sb.Write(",");
      }
      if items[i].Obj? {
        Canonicalise(sb, items[i]);
      } else {
        WriteAny(sb, items[i]);
      }
    }
    assert items[|items|..] == [];
    ItemsEnd();
  }

  lemma ItemsEnd()
    ensures ItemTexts([]) == "" && AnyTexts([]) == ""
  {
  }

  lemma ItemsStep(text: string, items: seq<Json>, i: nat)
    requires i < |items|
    ensures text + (CommaBefore(i, |items|) + ItemTexts(items[i..])) ==
            text + CommaBefore(i, |items|) + ItemText(items[i])
              + (CommaBefore(i + 1, |items|) + ItemTexts(items[i + 1..]))
  {
    hide ItemText;
    assert items[i..][1..] == items[i + 1..];
  }

  method WriteAny(sb: Builder, v: Json)
    modifies sb
    ensures sb.text == old(sb.text) + AnyText(v)
    decreases v, 0
  {
    hide AnyTexts;
    match v
    case Null => sb.Write("null");
    case Str(s) =>
      sb.Write("\"");
      sb.Write(s);
      sb.Write("\"");
      assert old(sb.text) + "\"" + s + "\"" == old(sb.text) + ("\"" + s + "\"");
    case Bool(b) => sb.Write(if b then "true" else "false");
    case Arr(items) =>
      sb.Write("[");
      WriteAnys(sb, items);
      sb.Write("]");
    case Num(_) => sb.Write(GoText(v));
    case Obj(_) => sb.Write(GoText(v));
  }

  method WriteAnys(sb: Builder, items: seq<Json>)
    modifies sb
    ensures sb.text == old(sb.text) + AnyTexts(items)
    decreases items
  {
    hide AnyTexts, AnyText;
    assert items[0..] == items;
    for i := 0 to |items|
      invariant sb.text + (CommaBefore(i, |items|) + AnyTexts(items[i..])) == old(sb.text) + AnyTexts(items)
    {
      AnysStep(sb.text, items, i);
      if i > 0 {
        sb.Write(",");
      }
      WriteAny(sb, items[i]);
    }
    assert items[|items|..] == [];
    ItemsEnd();
  }

  lemma AnysStep(text: string, items: seq<Json>, i: nat)
    requires i < |items|
    ensures text + (CommaBefore(i, |items|) + AnyTexts(items[i..])) ==
            text + CommaBefore(i, |items|) + AnyText(items[i])
              + (CommaBefore(i + 1, |items|) + AnyTexts(items[i + 1..]))
  {
    hide AnyText;
    assert items[i..][1..] == items[i + 1..];
  }
}
