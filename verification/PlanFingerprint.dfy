/** The plan fingerprint: what equal fingerprints say about two plans, and on which inputs. */
module PlanFingerprint {
  import opened Sorting
  import opened Strings
  import opened PlanJson
  import opened PlanReadability

  // The hash function is a parameter; collision-freeness is stated where it is used.
  ghost function PlanHash(hash: string -> string, raw: Node): string {
    hash(Canonical(Root(raw)))
  }

  ghost predicate Injective(hash: string -> string) {
    forall a, b :: hash(a) == hash(b) ==> a == b
  }

  // Equal skeletons print equal texts, on every plan: cost, rows and all other fields are
  // never printed.

  lemma {:induction false} SameText(p: Node, q: Node)
    requires SamePlan(p, q)
    ensures Canonical(p) == Canonical(q)
    decreases p, 1
  {
    hide SameChildAt;
    forall k ensures k in p.fields.Keys * CANONICAL_KEYS <==> k in q.fields.Keys * CANONICAL_KEYS {
      assert k in CANONICAL_KEYS ==> SameField(p, q, k);
    }
    assert p.fields.Keys * CANONICAL_KEYS == q.fields.Keys * CANONICAL_KEYS;
    forall k | k in LeafKeys(p) ensures SameField(p, q, k) {}
    SameLeaves(p, q, LeafKeys(p));
    forall k | k in NESTED_KEYS ensures SameChildAt(p, q, k) {}
    SameChildren(p, q, NESTED_KEYS);
  }

  lemma {:induction false} SameLeaves(p: Node, q: Node, ks: seq<string>)
    requires forall k :: k in ks ==> k in p.fields && k in q.fields && SameField(p, q, k)
    ensures Leaves(p, ks) == Leaves(q, ks)
  {
    if ks == [] {
    } else {
      assert SameField(p, q, ks[0]);
      SameLeaves(p, q, ks[1..]);
    }
  }

  lemma {:induction false} SameChildren(p: Node, q: Node, ks: seq<string>)
    requires forall k :: k in ks ==> SameChildAt(p, q, k)
    ensures Children(p, ks) == Children(q, ks)
    decreases p, 0, ks
  {
    hide SameChild, ChildText;
    if ks == [] {
    } else {
      assert SameChildAt(p, q, ks[0]);
      SameChildren(p, q, ks[1..]);
      if ks[0] in p.fields {
        SameChildText(p.fields[ks[0]], q.fields[ks[0]]);
      }
    }
  }

  lemma {:induction false} SameChildText(v: Json, w: Json)
    requires SameChild(v, w)
    ensures ChildText(v) == ChildText(w)
    decreases v, 2
  {
    hide SamePlan, Canonical, AnyText;
    if v.Obj? && w.Obj? {
      SameText(v, w);
    } else if v.Arr? && w.Arr? {
      SameItemTexts(v.items, w.items);
    }
  }

  lemma {:induction false} SameItemTexts(v: seq<Json>, w: seq<Json>)
    requires |v| == |w| && forall i :: 0 <= i < |v| ==> SameItem(v[i], w[i])
    ensures ItemTexts(v) == ItemTexts(w)
    decreases v
  {
    hide SamePlan, Canonical, AnyText;
    if v == [] {
    } else {
      assert SameItem(v[0], w[0]);
      if v[0].Obj? && w[0].Obj? {
        SameText(v[0], w[0]);
      }
      SameItemTexts(v[1..], w[1..]);
    }
  }

  // The claim that plans print the same text iff every canonical field and the tree shape
  // agree, over all plans a source may send.
  ghost predicate Faithful(d: Domain) {
    forall p: Node, q: Node :: PlainPlan(d, p) && PlainPlan(d, q) ==>
      (Canonical(p) == Canonical(q) <==> SamePlan(p, q))
  }

  // It holds, over every set of characters, exactly when leaf values are never objects and no
  // string can hold a quote together with a comma or with the opening of a nested child.
  lemma FaithfulIff(d: Domain)
    ensures Faithful(d) <==>
            && !d.objects
            && ('"' in d.chars ==> ',' !in d.chars && forall k :: k in NESTED_KEYS ==> !Spelled(d, "|" + k + ":"))
  {
    hide SamePlan, Canonical, PlainPlan, Spelled;
    if Readable(d) {
      forall p: Node, q: Node | PlainPlan(d, p) && PlainPlan(d, q)
        ensures Canonical(p) == Canonical(q) <==> SamePlan(p, q)
      {
        CanonicalIff(d, p, q);
      }
    } else {
      var p, q := Unfaithful(d);
    }
  }

  lemma {:induction false} CanonicalIff(d: Domain, p: Node, q: Node)
    requires Readable(d) && PlainPlan(d, p) && PlainPlan(d, q)
    ensures Canonical(p) == Canonical(q) <==> SamePlan(p, q)
  {
    if SamePlan(p, q) {
      SameText(p, q);
    }
    if Canonical(p) == Canonical(q) {
      ReadPlan(d, p, q, "", "");
    }
  }

  function OneField(k: string, v: Json): Node {
    Obj(map[k := v])
  }

  lemma {:induction false} OneFieldText(v: Json)
    ensures Canonical(OneField("key", v)) == "{key=" + AnyText(v) + "}"
  {
    var p := OneField("key", v);
    hide AnyText, Leaves, Children;
    assert p.fields.Keys * CANONICAL_KEYS == {"key"};
    OneInOrder("key");
    OneLeaf(p, "key");
    NoneOf(p, NESTED_KEYS);
    assert "{" + ("key=" + AnyText(v)) + "" + "}" == "{key=" + AnyText(v) + "}";
  }

  lemma {:induction false} OneLeaf(p: Node, k: string)
    requires k in p.fields
    ensures Leaves(p, [k]) == k + "=" + AnyText(p.fields[k])
  {
    hide AnyText;
    assert [k][1..] == [];
    assert Leaves(p, [k][1..]) == "";
  }

  lemma OneInOrder(k: string)
    ensures InOrder({k}) == [k]
  {
    assert {k} - {k} == {};
  }

  lemma {:induction false} NoneOf(p: Node, ks: seq<string>)
    requires forall k :: k in ks ==> k !in p.fields
    ensures Children(p, ks) == ""
  {
    if ks == [] {
    } else {
      NoneOf(p, ks[1..]);
    }
  }

  // Otherwise two plans with different skeletons share a fingerprint: a quoted comma reads as
  // the boundary between two strings, a quoted opening as a child, and an object's text does
  // not show its nesting.
  lemma Unfaithful(d: Domain) returns (p: Node, q: Node)
    requires !Readable(d)
    ensures PlainPlan(d, p) && PlainPlan(d, q)
    ensures Canonical(p) == Canonical(q) && !SamePlan(p, q)
  {
    hide Canonical, Plain, PlainPlan, Spelled;
    if d.objects {
      var v, w := ObjectClash(d);
      p, q := FieldClash(d, v, w);
    } else if ',' in d.chars {
      var v, w := QuoteClash(d);
      p, q := FieldClash(d, v, w);
    } else {
      var k :| k in NESTED_KEYS && Spelled(d, Opening(k));
      p, q := ChildClash(d, k);
    }
  }

  lemma FieldClash(d: Domain, v: Json, w: Json) returns (p: Node, q: Node)
    requires v != w && Plain(d, v) && Plain(d, w) && AnyText(v) == AnyText(w)
    ensures PlainPlan(d, p) && PlainPlan(d, q)
    ensures Canonical(p) == Canonical(q) && !SamePlan(p, q)
  {
    hide Canonical, Plain, PlainPlan;
    p, q := OneField("key", v), OneField("key", w);
    PlainOneField(d, v);
    PlainOneField(d, w);
    OneFieldText(v);
    OneFieldText(w);
    assert p.fields["key"] == v && q.fields["key"] == w;
    assert !SameField(p, q, "key");
  }

  // An empty key and an empty child print like a key that spells out both.
  lemma ChildClash(d: Domain, k: string) returns (p: Node, q: Node)
    requires '"' in d.chars && k in NESTED_KEYS && Spelled(d, Opening(k))
    ensures PlainPlan(d, p) && PlainPlan(d, q)
    ensures Canonical(p) == Canonical(q) && !SamePlan(p, q)
  {
    hide Canonical, Plain, PlainPlan, Spelled, SamePlan;
    var s := Quoted(k);
    p, q := Beside(k), OneField("key", Str(s));
    PlainBeside(d, k);
    PlainOneField(d, Str(s));
    OneFieldText(Str(s));
    ChildBesideKey(k);
    QuotedText(k);
    DifferentKeys(k);
  }

  function Beside(k: string): Node {
    Obj(map["key" := Str(""), k := Str("")])
  }

  function Quoted(k: string): string {
    "\"" + Opening(k) + "\""
  }

  lemma QuotedText(k: string)
    ensures "{key=" + AnyText(Str(Quoted(k))) + "}" == "{key=\"\"|" + k + ":\"\"}"
  {
    var s := Quoted(k);
    assert AnyText(Str(s)) == "\"" + s + "\"";
    assert "{key=" + ("\"" + s + "\"") + "}" == "{key=\"\"|" + k + ":\"\"}";
  }

  lemma DifferentKeys(k: string)
    requires k in NESTED_KEYS
    ensures !SamePlan(Beside(k), OneField("key", Str(Quoted(k))))
  {
    NestedIsNotCanonical(k);
    hide SameChildAt;
    var p, q := Beside(k), OneField("key", Str(Quoted(k)));
    assert p.fields["key"] == Str("") && q.fields["key"] == Str(Quoted(k)) && Quoted(k) != "";
    assert !SameField(p, q, "key");
  }

  lemma {:induction false} PlainBeside(d: Domain, k: string)
    requires '"' in d.chars && k in NESTED_KEYS && Spelled(d, Opening(k))
    ensures PlainPlan(d, Beside(k)) && Plain(d, Str(Quoted(k)))
  {
    NestedIsNotCanonical(k);
    assert Plain(d, Str(""));
  }

  lemma NestedIsNotCanonical(k: string)
    requires k in NESTED_KEYS
    ensures k !in CANONICAL_KEYS && "key" in CANONICAL_KEYS && "key" !in NESTED_KEYS && k != "key"
  {
  }

  lemma ChildBesideKey(k: string)
    requires k in NESTED_KEYS
    ensures Canonical(Beside(k)) == "{key=\"\"|" + k + ":\"\"}"
  {
    hide Leaves, Children, LeafKeys;
    var p := Beside(k);
    LeafBesideChild(k);
    NestedIsNotCanonical(k);
    OnlyChild(p, k, NESTED_KEYS);
    assert "{" + ("key" + "=" + "\"\"") + ("|" + k + ":" + "\"\"") + "}" == "{key=\"\"|" + k + ":\"\"}";
  }

  lemma LeafBesideChild(k: string)
    requires k in NESTED_KEYS
    ensures LeafKeys(Beside(k)) == ["key"] && Leaves(Beside(k), ["key"]) == "key" + "=" + "\"\""
  {
    hide Leaves;
    NestedIsNotCanonical(k);
    assert Beside(k).fields.Keys * CANONICAL_KEYS == {"key"};
    OneInOrder("key");
    OneLeaf(Beside(k), "key");
    assert AnyText(Str("")) == "\"" + "" + "\"";
  }

  lemma {:induction false} OnlyChild(p: Node, k: string, ks: seq<string>)
    requires k in ks && Distinct(ks) && k in p.fields && p.fields[k] == Str("")
    requires forall j :: j in ks && j != k ==> j !in p.fields
    ensures Children(p, ks) == "|" + k + ":" + "\"\""
  {
    if ks[0] == k {
      NoneOf(p, ks[1..]);
    } else {
      OnlyChild(p, k, ks[1..]);
    }
  }

  lemma {:induction false} PlainOneField(d: Domain, v: Json)
    requires Plain(d, v)
    ensures PlainPlan(d, OneField("key", v))
  {
    assert "key" !in NESTED_KEYS;
  }

  lemma QuoteClash(d: Domain) returns (v: Json, w: Json)
    requires ',' in d.chars && '"' in d.chars
    ensures v != w && Plain(d, v) && Plain(d, w)
    ensures AnyText(v) == AnyText(w)
  {
    v, w := Arr([Str(""), Str("")]), Arr([Str("\",\"")]);
    assert |v.items| != |w.items| && Spelled(d, "\",\"");
    assert Plain(d, v.items[0]) && Plain(d, v.items[1]) && Plain(d, w.items[0]);
    assert AnyTexts([Str("")]) == "\"\"";
    assert v.items[1..] == [Str("")];
    assert AnyTexts(v.items) == "\"\"" + "," + "\"\"";
    assert AnyTexts(w.items) == "\"" + "\",\"" + "\"";
  }

  lemma ObjectClash(d: Domain) returns (v: Json, w: Json)
    requires d.objects
    ensures v != w && Plain(d, v) && Plain(d, w)
    ensures AnyText(v) == AnyText(w)
  {
    OneInOrder("");
    v, w := Obj(map["" := Arr([])]), Obj(map["" := Arr([Str("")])]);
    assert v.fields[""] != w.fields[""];
    assert v.fields.Keys == {""} == w.fields.Keys;
    assert GoTexts([Str("")]) == "";
    assert GoText(Arr([])) == "[" + "" + "]" == GoText(Arr([Str("")]));
    assert GoFields(v, [""]) == "" + ":" + "[]" + "" + GoFields(v, []);
    assert GoFields(w, [""]) == "" + ":" + "[]" + "" + GoFields(w, []);
  }

  // Through a collision-free hash, the fingerprint answers whether the plan changed.
  lemma {:induction false} HashTellsPlansApart(hash: string -> string, d: Domain, p: Node, q: Node)
    requires Injective(hash) && Readable(d) && PlainPlan(d, Root(p)) && PlainPlan(d, Root(q))
    ensures PlanHash(hash, p) == PlanHash(hash, q) <==> SamePlan(Root(p), Root(q))
  {
    CanonicalIff(d, Root(p), Root(q));
  }
}
