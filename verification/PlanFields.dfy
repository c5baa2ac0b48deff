/** Which fields of a plan its canonical text shows, each by its own name. */
module PlanFields {
  import opened Strings
  import opened PlanJson
  import opened PlanReadability
  import opened PlanFingerprint

  // Over the readable domain two texts are equal exactly if the plans agree on the presence and
  // the value of each of fifteen fields, and hold agreeing children under each of seven names.
  lemma {:induction false} TextShowsFields(d: Domain, p: Node, q: Node)
    requires Readable(d) && PlainPlan(d, p) && PlainPlan(d, q)
    ensures Canonical(p) == Canonical(q) <==>
            && (forall k :: k in {"select_id", "table_name", "access_type", "key", "key_length", "ref",
                                  "used_key_parts", "used_columns", "attached_condition", "using_index",
                                  "using_index_for_group_by", "using_filesort", "using_temporary_table",
                                  "index_condition", "rows_produced_per_join_is_estimated"} ==>
                  (k in p.fields <==> k in q.fields) && (k in p.fields ==> p.fields[k] == q.fields[k]))
            && (forall k :: k in {"table", "nested_loop", "query_specifications", "ordering_operation",
                                  "grouping_operation", "duplicates_removal", "windowing"} ==>
                  (k in p.fields <==> k in q.fields) && (k in p.fields ==> Agree(p.fields[k], q.fields[k])))
  {
    CanonicalIff(d, p, q);
    forall k | k in NESTED_KEYS && k in p.fields && k in q.fields
      ensures SameChild(p.fields[k], q.fields[k]) <==> Agree(p.fields[k], q.fields[k])
    {
      SameChildIff(d, p.fields[k], q.fields[k]);
    }
    SkeletonIff(p, q);
    KeysByName();
    hide Readable, PlainPlan, Canonical, SamePlan, SameChild, Agree;
  }

  // Two plans with equal texts, two lists of as many items that are such plans or equal, or two
  // equal values.
  ghost predicate Agree(v: Json, w: Json) {
    if v.Obj? && w.Obj? then Canonical(v) == Canonical(w)
    else if v.Arr? && w.Arr? then
      && |v.items| == |w.items|
      && forall i :: 0 <= i < |v.items| ==> ItemsAgree(v.items[i], w.items[i])
    else v == w
  }

  ghost predicate ItemsAgree(v: Json, w: Json) {
    if v.Obj? && w.Obj? then Canonical(v) == Canonical(w) else v == w
  }

  lemma {:induction false} SameChildIff(d: Domain, v: Json, w: Json)
    requires Readable(d) && PlainChild(d, v) && PlainChild(d, w)
    ensures SameChild(v, w) <==> Agree(v, w)
  {
    hide Readable, PlainPlan, Plain, SamePlan, Canonical;
    if v.Obj? && w.Obj? {
      CanonicalIff(d, v, w);
    } else if v.Arr? && w.Arr? && |v.items| == |w.items| {
      forall i | 0 <= i < |v.items| ensures SameItem(v.items[i], w.items[i]) <==> ItemsAgree(v.items[i], w.items[i]) {
        if v.items[i].Obj? && w.items[i].Obj? {
          CanonicalIff(d, v.items[i], w.items[i]);
        }
      }
    }
  }

  lemma {:induction false} SkeletonIff(p: Node, q: Node)
    ensures SamePlan(p, q) <==>
            && (forall k :: k in CANONICAL_KEYS ==>
                  (k in p.fields <==> k in q.fields) && (k in p.fields ==> p.fields[k] == q.fields[k]))
            && (forall k :: k in NESTED_KEYS ==>
                  (k in p.fields <==> k in q.fields) && (k in p.fields ==> SameChild(p.fields[k], q.fields[k])))
  {
    hide SameChild;
    assert SamePlan(p, q) <==>
           && (forall k :: k in CANONICAL_KEYS ==> SameField(p, q, k))
           && (forall i :: 0 <= i < |NESTED_KEYS| ==> SameChildAt(p, q, NESTED_KEYS[i]));
    hide SamePlan;
    forall k | k in CANONICAL_KEYS
      ensures SameField(p, q, k) <==>
              (k in p.fields <==> k in q.fields) && (k in p.fields ==> p.fields[k] == q.fields[k])
    {
    }
  }

  lemma KeysByName()
    ensures CANONICAL_KEYS == {"select_id", "table_name", "access_type", "key", "key_length", "ref",
                               "used_key_parts", "used_columns", "attached_condition", "using_index",
                               "using_index_for_group_by", "using_filesort", "using_temporary_table",
                               "index_condition", "rows_produced_per_join_is_estimated"}
    ensures forall k :: k in NESTED_KEYS <==>
              (k in {"table", "nested_loop", "query_specifications", "ordering_operation",
                     "grouping_operation", "duplicates_removal", "windowing"})
  {
  }

  // No other field has any part in it: giving it any value, or none, leaves the text as it is.
  lemma {:induction false} OtherFieldsAreHidden(p: Node, k: string, v: Json)
    requires k !in {"select_id", "table_name", "access_type", "key", "key_length", "ref",
                    "used_key_parts", "used_columns", "attached_condition", "using_index",
                    "using_index_for_group_by", "using_filesort", "using_temporary_table",
                    "index_condition", "rows_produced_per_join_is_estimated"}
    requires k !in {"table", "nested_loop", "query_specifications", "ordering_operation",
                    "grouping_operation", "duplicates_removal", "windowing"}
    ensures Canonical(Obj(p.fields[k := v])) == Canonical(p) == Canonical(Obj(p.fields - {k}))
  {
    KeysByName();
    assert k !in CANONICAL_KEYS && k !in NESTED_KEYS;
    SameShownFields(p, Obj(p.fields[k := v]));
    SameShownFields(p, Obj(p.fields - {k}));
  }

  lemma {:induction false} SameShownFields(p: Node, q: Node)
    requires forall k :: k in CANONICAL_KEYS || k in NESTED_KEYS ==> SameField(p, q, k)
    ensures Canonical(p) == Canonical(q)
  {
    hide Leaves, Children;
    assert forall k :: k in CANONICAL_KEYS ==> SameField(p, q, k);
    assert p.fields.Keys * CANONICAL_KEYS == q.fields.Keys * CANONICAL_KEYS;
    SameLeaves(p, q, LeafKeys(p));
    EqualChildren(p, q, NESTED_KEYS);
  }

  lemma {:induction false} EqualChildren(p: Node, q: Node, ks: seq<string>)
    requires forall k :: k in ks ==> SameField(p, q, k)
    ensures Children(p, ks) == Children(q, ks)
  {
    hide ChildText;
    if ks == [] {
    } else {
      assert SameField(p, q, ks[0]);
      EqualChildren(p, q, ks[1..]);
    }
  }

  // How the texts are put together: fields in alphabetical order, whatever their values, a list
  // of children in its own order, and an object that is a value as %v prints a map.

  lemma {:induction false} TextOfPair(j: string, k: string, v: Json, w: Json)
    requires j in CANONICAL_KEYS && k in CANONICAL_KEYS && Less(j, k)
    ensures Canonical(Obj(map[j := v, k := w])) == "{" + (j + "=" + AnyText(v) + "," + (k + "=" + AnyText(w))) + "}"
  {
    var p := Obj(map[j := v, k := w]);
    PairInOrder(j, k);
    assert p.fields.Keys * CANONICAL_KEYS == {j, k};
    hide AnyText;
    assert [j, k][1..] == [k];
    OneLeaf(p, k);
    LessIsTotal();
    assert p.fields[j] == v && p.fields[k] == w;
    NoneNested(p);
    hide Leaf, Less, InOrder;
    var leaves := j + "=" + AnyText(v) + "," + (k + "=" + AnyText(w));
    assert Leaves(p, [j, k]) == leaves;
    assert "{" + leaves + "" + "}" == "{" + leaves + "}";
  }

  lemma {:induction false} NoneNested(p: Node)
    requires forall k :: k in p.fields ==> k in CANONICAL_KEYS
    ensures Children(p, NESTED_KEYS) == ""
  {
    forall k | k in NESTED_KEYS ensures k !in p.fields {
      NestedIsNotCanonical(k);
    }
    NoneOf(p, NESTED_KEYS);
  }

  lemma {:induction false} PairInOrder(j: string, k: string)
    requires Less(j, k)
    ensures InOrder({j, k}) == [j, k] && j != k
  {
    LessIsTotal();
    InOrderHead({j, k});
    OneInOrder(k);
    hide Less;
    assert !Less(k, j);
    assert {j, k} - {j} == {k};
  }

  lemma {:induction false} ListText(p: Node, v: Json)
    requires !v.Obj?
    ensures ChildText(Arr([p, v])) == "[" + (Canonical(p) + "," + AnyText(v)) + "]"
  {
    hide Canonical, AnyText;
    assert [p, v][1..] == [v] && [v][1..] == [];
    assert ItemTexts([]) == "";
    assert ItemTexts([v]) == AnyText(v);
    assert ItemTexts([p, v]) == Canonical(p) + "," + AnyText(v);
  }

  lemma {:induction false} ObjectText(j: string, k: string, v: Json, w: Json)
    requires Less(j, k)
    ensures GoText(Null) == "<nil>"
    ensures GoText(Arr([v, w])) == "[" + (GoText(v) + " " + GoText(w)) + "]"
    ensures GoText(Obj(map[j := v, k := w])) == "map[" + (j + ":" + GoText(v) + " " + (k + ":" + GoText(w))) + "]"
  {
    PairTexts(v, w);
    var p := Obj(map[j := v, k := w]);
    PairInOrder(j, k);
    assert p.fields.Keys == {j, k};
    PairFields(p, j, k);
  }

  lemma {:induction false} PairTexts(v: Json, w: Json)
    ensures GoTexts([v, w]) == GoText(v) + " " + GoText(w)
  {
    hide GoText;
    assert [v, w][1..] == [w] && [w][1..] == [];
    assert GoTexts([]) == "";
    assert GoTexts([w]) == GoText(w);
  }

  lemma {:induction false} PairFields(p: Node, j: string, k: string)
    requires j in p.fields && k in p.fields
    ensures GoFields(p, [j, k]) == j + ":" + GoText(p.fields[j]) + " " + (k + ":" + GoText(p.fields[k]))
  {
    hide GoText;
    assert [j, k][1..] == [k] && [k][1..] == [];
    assert GoFields(p, []) == "";
    assert GoFields(p, [k]) == k + ":" + GoText(p.fields[k]);
  }
}
