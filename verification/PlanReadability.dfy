/** When a canonical text determines the plan: the printer is uniquely readable exactly when no
    leaf value is an object and no string can hold a quote together with what may follow one. */
module PlanReadability {
  import opened Sorting
  import opened Strings
  import opened PlanJson

  // Two plans with the same skeleton: every canonical field agrees at every node, and the tree
  // under the nested keys has the same shape. Nothing else is compared.
  ghost predicate SamePlan(p: Node, q: Node)
    decreases p, 1
  {
    && (forall k :: k in CANONICAL_KEYS ==> SameField(p, q, k))
    && (forall i :: 0 <= i < |NESTED_KEYS| ==> SameChildAt(p, q, NESTED_KEYS[i]))
  }

  ghost predicate SameField(p: Node, q: Node, k: string) {
    && (k in p.fields <==> k in q.fields)
    && (k in p.fields ==> p.fields[k] == q.fields[k])
  }

  ghost predicate SameChildAt(p: Node, q: Node, k: string)
    decreases p, 0
  {
    && (k in p.fields <==> k in q.fields)
    && (k in p.fields ==> SameChild(p.fields[k], q.fields[k]))
  }

  ghost predicate SameChild(v: Json, w: Json)
    decreases v, 2
  {
    if v.Obj? && w.Obj? then SamePlan(v, w)
    else if v.Arr? && w.Arr? then
      |v.items| == |w.items| && forall i :: 0 <= i < |v.items| ==> SameItem(v.items[i], w.items[i])
    else v == w
  }

  ghost predicate SameItem(v: Json, w: Json)
    decreases v, 2
  {
    if v.Obj? && w.Obj? then SamePlan(v, w) else v == w
  }

  // The plans a source may send: the characters its strings may hold, and whether a leaf value
  // may be an object.
  datatype Domain = Domain(chars: iset<char>, objects: bool)

  ghost predicate Spelled(d: Domain, s: string) {
    forall i :: 0 <= i < |s| ==> s[i] in d.chars
  }

  // What introduces a nested child.
  function Opening(k: string): string {
    "|" + k + ":"
  }

  // A string that holds a quote can be taken for two only if it also holds a comma or the
  // opening of some child.
  ghost predicate Readable(d: Domain) {
    && !d.objects
    && ('"' in d.chars ==> ',' !in d.chars && forall k :: k in NESTED_KEYS ==> !Spelled(d, Opening(k)))
  }

  ghost predicate Plain(d: Domain, v: Json) {
    match v
    case Obj(fields) => d.objects && forall k :: k in fields ==> Spelled(d, k) && Plain(d, fields[k])
    case Str(s) => Spelled(d, s)
    case Arr(items) => forall i :: 0 <= i < |items| ==> Plain(d, items[i])
    case _ => true
  }

  ghost predicate PlainPlan(d: Domain, p: Node)
    decreases p, 1
  {
    && (forall k :: k in p.fields && k in CANONICAL_KEYS ==> Plain(d, p.fields[k]))
    && (forall k :: k in p.fields && k in NESTED_KEYS ==> PlainChild(d, p.fields[k]))
  }

  ghost predicate PlainChild(d: Domain, v: Json)
    decreases v, 2
  {
    match v
    case Obj(_) => PlainPlan(d, v)
    case Arr(items) => forall i :: 0 <= i < |items| ==> PlainItem(d, items[i])
    case _ => Plain(d, v)
  }

  ghost predicate PlainItem(d: Domain, v: Json)
    decreases v, 2
  {
    if v.Obj? then PlainPlan(d, v) else Plain(d, v)
  }

  // What may follow a value: closing brackets, and then a comma, a child or nothing.
  ghost predicate Stops(r: string) {
    || r == "" || r[0] == ','
    || ((r[0] == ']' || r[0] == '}') && Stops(r[1..]))
    || exists k :: k in NESTED_KEYS && Opening(k) <= r
  }

  lemma {:induction false} StopsAtDelimiter(r: string)
    requires Stops(r) && r != ""
    ensures r[0] in {',', '|', ']', '}'} && !NumberChar(r[0])
  {
  }

  lemma {:induction false} StopsAfterCloser(r: string)
    requires Stops(r)
    ensures Stops("]" + r) && Stops("}" + r)
  {
    assert ("]" + r)[1..] == r && ("}" + r)[1..] == r;
  }

  lemma {:induction false} StopsAtChild(k: string, s: string)
    requires k in NESTED_KEYS
    ensures Stops("|" + (k + [':'] + s))
  {
    var r := "|" + (k + [':'] + s);
    assert r == Opening(k) + s;
    assert Opening(k) <= r;
  }

  lemma {:induction false} NumberEnds(a: NumText, b: NumText, r: string, t: string)
    requires Stops(r) && Stops(t) && a + r == b + t
    ensures a == b && r == t
  {
    hide Stops, NumberChar;
    if r != "" {
      StopsAtDelimiter(r);
    }
    if t != "" {
      StopsAtDelimiter(t);
    }
    var whole := a + r;
    assert forall i :: 0 <= i < |a| ==> whole[i] == a[i];
    assert forall i :: 0 <= i < |b| ==> whole[i] == b[i];
    assert whole[|a|..] == r && whole[|b|..] == t;
    assert |a| == |b|;
    assert a == whole[..|a|] && b == whole[..|b|];
  }

  lemma SameSuffix(a: string, r: string, t: string)
    requires a + r == a + t
    ensures r == t
  {
    assert r == (a + r)[|a|..] && t == (a + t)[|a|..];
  }

  function Comma<T>(v: seq<T>): string {
    if |v| > 1 then "," else ""
  }

  // How a comma-separated text splits after its head, and how the remainder begins.
  lemma SplitHead<T>(head: string, v: seq<T>, rest: string, r: string)
    requires v != [] && r != "" && (|v| == 1 ==> rest == "")
    ensures head + Comma(v) + rest + r == head + (Comma(v) + (rest + r))
    ensures var tail := Comma(v) + (rest + r);
            tail != "" && tail[0] == if |v| > 1 then ',' else r[0]
  {
  }

  lemma {:induction false} CommaStops<T>(v: seq<T>, rest: string, r: string)
    requires Stops(r) && (|v| <= 1 ==> rest == "")
    ensures Stops(Comma(v) + (rest + r))
  {
    if |v| <= 1 {
      assert Comma(v) + (rest + r) == r;
    }
  }

  // The first character tells the kinds of values apart.
  function Kind(c: char): int {
    if c == '{' then 0 else if c == '[' then 1 else if c == '"' then 2 else if c == 'n' then 3
    else if c == 't' then 4 else if c == 'f' then 5 else if NumberChar(c) then 6 else 7
  }

  function KindOf(v: Json): int {
    match v
    case Obj(_) => 0
    case Arr(_) => 1
    case Str(_) => 2
    case Null => 3
    case Bool(b) => if b then 4 else 5
    case Num(_) => 6
  }

  lemma {:induction false} AnyTextStarts(v: Json, r: string)
    requires !v.Obj?
    ensures AnyText(v) + r != "" && Kind((AnyText(v) + r)[0]) == KindOf(v)
    ensures (AnyText(v) + r)[0] != ']' && (AnyText(v) + r)[0] != '{'
  {
    match v
    case Null => assert AnyText(v)[0] == 'n';
    case Bool(b) => assert AnyText(v)[0] == if b then 't' else 'f';
    case Num(t) => assert AnyText(v)[0] == t[0];
    case Str(s) => assert AnyText(v)[0] == '"';
    case Arr(items) => assert AnyText(v)[0] == '[';
  }

  lemma {:induction false} ReadAny(d: Domain, v: Json, w: Json, r: string, t: string)
    requires Readable(d)
    requires Plain(d, v) && Plain(d, w) && Stops(r) && Stops(t)
    requires AnyText(v) + r == AnyText(w) + t
    ensures v == w && r == t
    decreases v, 1
  {
    assert !d.objects;
    hide Kind, NumberChar, Stops, AnyTexts, Readable;
    AnyTextStarts(v, r);
    AnyTextStarts(w, t);
    match v
    case Null => SameSuffix("null", r, t);
    case Bool(b) => SameSuffix(AnyText(v), r, t);
    case Num(a) => NumberEnds(a, w.text, r, t);
    case Str(s) => ReadQuoted(d, s, w.s, r, t);
    case Arr(items) =>
      SplitBrackets(AnyTexts(items), r);
      SplitBrackets(AnyTexts(w.items), t);
      SameSuffix("[", AnyTexts(items) + ("]" + r), AnyTexts(w.items) + ("]" + t));
      StopsAfterCloser(r);
      StopsAfterCloser(t);
      ReadAnys(d, items, w.items, "]" + r, "]" + t);
      SameSuffix("]", r, t);
  }

  lemma SplitBrackets(inner: string, r: string)
    ensures "[" + inner + "]" + r == "[" + (inner + ("]" + r))
  {
  }

  lemma {:induction false} ReadQuoted(d: Domain, a: string, b: string, r: string, t: string)
    requires Readable(d) && Spelled(d, a) && Spelled(d, b) && Stops(r) && Stops(t)
    requires "\"" + a + "\"" + r == "\"" + b + "\"" + t
    ensures a == b && r == t
  {
    hide Stops, Readable, Spelled;
    assert "\"" + a + "\"" + r == "\"" + (a + ['"'] + r);
    assert "\"" + b + "\"" + t == "\"" + (b + ['"'] + t);
    SameSuffix("\"", a + ['"'] + r, b + ['"'] + t);
    if |a| < |b| {
      NoLongerString(d, a, b, r, t);
    } else if |b| < |a| {
      NoLongerString(d, b, a, t, r);
    } else {
      assert a == (a + ['"'] + r)[..|a|] && b == (b + ['"'] + t)[..|b|];
      assert r == (a + ['"'] + r)[|a| + 1..] && t == (b + ['"'] + t)[|b| + 1..];
    }
  }

  // A string that runs past the closing quote of another would hold that quote and, before its
  // own, the comma or child that followed it.
  lemma {:induction false} NoLongerString(d: Domain, a: string, b: string, r: string, t: string)
    requires Readable(d) && Spelled(d, b) && Stops(r) && |a| < |b| && a + ['"'] + r == b + ['"'] + t
    ensures false
  {
    hide Stops, Readable;
    var whole, m := a + ['"'] + r, b[|a| + 1..];
    assert whole[|a|] == '"' && b[|a|] == whole[|a|];
    assert r == whole[|a| + 1..] == m + ['"'] + t;
    NoEscape(d, m, t);
  }

  lemma {:induction false} NoEscape(d: Domain, m: string, t: string)
    requires Readable(d) && '"' in d.chars && Spelled(d, m) && Stops(m + ['"'] + t)
    ensures false
  {
    var r := m + ['"'] + t;
    assert m != "" ==> r[0] == m[0];
    if k :| k in NESTED_KEYS && Opening(k) <= r {
      OpeningFits(d, k, m, t);
      assert false;
    } else {
      assert r[1..] == m[1..] + ['"'] + t;
      NoEscape(d, m[1..], t);
    }
  }

  lemma OpeningFits(d: Domain, k: string, m: string, t: string)
    requires k in NESTED_KEYS && Spelled(d, m) && Opening(k) <= m + ['"'] + t
    ensures Spelled(d, Opening(k))
  {
    OpeningIsUnquoted(k);
    var r := m + ['"'] + t;
    assert forall i :: 0 <= i < |Opening(k)| ==> Opening(k)[i] == r[i];
    assert r[|m|] == '"';
  }

  lemma OpeningIsUnquoted(k: string)
    requires k in NESTED_KEYS
    ensures '"' !in Opening(k) && Opening(k)[0] == '|'
  {
  }

  ghost predicate ClosesList(r: string) {
    r != "" && r[0] == ']' && Stops(r)
  }

  lemma {:induction false} ReadAnys(d: Domain, v: seq<Json>, w: seq<Json>, r: string, t: string)
    requires Readable(d)
    requires forall i :: 0 <= i < |v| ==> Plain(d, v[i])
    requires forall i :: 0 <= i < |w| ==> Plain(d, w[i])
    requires ClosesList(r) && ClosesList(t) && AnyTexts(v) + r == AnyTexts(w) + t
    ensures v == w && r == t
    decreases v
  {
    SplitAnys(v, r);
    SplitAnys(w, t);
    if v == [] || w == [] {
    } else {
      ReadAny(d, v[0], w[0], RestOfAnys(v, r), RestOfAnys(w, t));
      SameSuffix(Comma(v), AnyTexts(v[1..]) + r, AnyTexts(w[1..]) + t);
      ReadAnys(d, v[1..], w[1..], r, t);
      assert v == [v[0]] + v[1..] && w == [w[0]] + w[1..];
    }
  }

  ghost function RestOfAnys(v: seq<Json>, r: string): string
    requires v != []
  {
    Comma(v) + (AnyTexts(v[1..]) + r)
  }

  lemma {:induction false} SplitAnys(v: seq<Json>, r: string)
    requires ClosesList(r) && (v != [] ==> !v[0].Obj?)
    ensures if v == [] then AnyTexts(v) + r == r
            else
              && AnyTexts(v) + r == AnyText(v[0]) + RestOfAnys(v, r)
              && (AnyTexts(v) + r)[0] != ']'
              && RestOfAnys(v, r) != "" && RestOfAnys(v, r)[0] == (if |v| > 1 then ',' else ']')
              && Stops(RestOfAnys(v, r))
  {
    hide AnyText, Kind, KindOf, NumberChar, Stops;
    if v != [] {
      CommaStops(v, AnyTexts(v[1..]), r);
      SplitHead(AnyText(v[0]), v, AnyTexts(v[1..]), r);
      AnyTextStarts(v[0], RestOfAnys(v, r));
    }
  }

  // The canonical fields of a node

  predicate Name(k: string) {
    k != "" && '=' !in k && ':' !in k && k[0] != '|' && k[0] != '}'
  }

  lemma KeysAreNames()
    ensures forall k :: k in CANONICAL_KEYS || k in NESTED_KEYS ==> Name(k)
  {
    hide Name;
    NamesA();
    NamesB();
    NamesC();
    NamesD();
    NamesE();
    NamesF();
    NamesG();
  }

  lemma NamesA()
    ensures Name("select_id") && Name("table_name") && Name("access_type") && Name("key") && Name("key_length")
  {
  }

  lemma NamesB()
    ensures Name("ref") && Name("used_key_parts") && Name("used_columns") && Name("attached_condition")
  {
  }

  lemma NamesC()
    ensures Name("using_index") && Name("using_index_for_group_by") && Name("using_filesort")
  {
  }

  lemma NamesD()
    ensures Name("using_temporary_table") && Name("index_condition") && Name("table")
  {
  }

  lemma NamesE()
    ensures Name("rows_produced_per_join_is_estimated") && Name("nested_loop")
  {
  }

  lemma NamesF()
    ensures Name("query_specifications") && Name("ordering_operation")
  {
  }

  lemma NamesG()
    ensures Name("grouping_operation") && Name("duplicates_removal") && Name("windowing")
  {
  }

  ghost predicate AfterLeaves(r: string) {
    r != "" && (r[0] == '|' || r[0] == '}') && Stops(r)
  }

  ghost function RestOfLeaves(p: Node, ks: seq<string>, r: string): string
    requires ks != [] && forall k :: k in ks ==> k in p.fields
  {
    Comma(ks) + (Leaves(p, ks[1..]) + r)
  }

  lemma {:induction false} SplitLeaves(p: Node, ks: seq<string>, r: string)
    requires AfterLeaves(r)
    requires forall k :: k in ks ==> k in p.fields && Name(k)
    ensures var text := Leaves(p, ks) + r;
            if ks == [] then text == r
            else
              && text == ks[0] + ['='] + (AnyText(p.fields[ks[0]]) + RestOfLeaves(p, ks, r))
              && text[0] != '|' && text[0] != '}'
              && RestOfLeaves(p, ks, r) != "" && RestOfLeaves(p, ks, r)[0] == (if |ks| > 1 then ',' else r[0])
              && Stops(RestOfLeaves(p, ks, r))
  {
    hide AnyText, NumberChar, Stops;
    if ks != [] {
      SplitHead(Leaf(p, ks[0]), ks, Leaves(p, ks[1..]), r);
      SplitName(ks[0], AnyText(p.fields[ks[0]]), RestOfLeaves(p, ks, r));
      CommaStops(ks, Leaves(p, ks[1..]), r);
    }
  }

  lemma SplitName(k: string, value: string, r: string)
    requires k != ""
    ensures k + "=" + value + r == k + ['='] + (value + r) && (k + "=" + value + r)[0] == k[0]
  {
  }

  lemma {:induction false} ReadLeaves(d: Domain, p: Node, ks: seq<string>, q: Node, js: seq<string>, r: string,
      t: string)
    requires Readable(d)
    requires AfterLeaves(r) && AfterLeaves(t)
    requires forall k :: k in ks ==> k in p.fields && Name(k) && Plain(d, p.fields[k])
    requires forall k :: k in js ==> k in q.fields && Name(k) && Plain(d, q.fields[k])
    requires Leaves(p, ks) + r == Leaves(q, js) + t
    ensures ks == js && r == t
    ensures forall k :: k in ks ==> p.fields[k] == q.fields[k]
    decreases ks
  {
    hide AnyText, Leaves, Plain, Readable, Stops;
    SplitLeaves(p, ks, r);
    SplitLeaves(q, js, t);
    if ks == [] || js == [] {
    } else {
      NameEnds(ks[0], js[0], '=', AnyText(p.fields[ks[0]]) + RestOfLeaves(p, ks, r),
               AnyText(q.fields[js[0]]) + RestOfLeaves(q, js, t));
      ReadAny(d, p.fields[ks[0]], q.fields[js[0]], RestOfLeaves(p, ks, r), RestOfLeaves(q, js, t));
      assert |ks| > 1 <==> |js| > 1;
      SameSuffix(Comma(ks), Leaves(p, ks[1..]) + r, Leaves(q, js[1..]) + t);
      ReadLeaves(d, p, ks[1..], q, js[1..], r, t);
      assert ks == [ks[0]] + ks[1..] && js == [js[0]] + js[1..];
    }
  }

  // The nested children of a node

  ghost function ChildrenText(p: Node, ks: seq<string>, r: string): string {
    Children(p, ks) + "}" + r
  }

  // Either no listed child is present, or the text opens with the name of the first that is.
  lemma {:induction false} ChildrenStart(p: Node, ks: seq<string>, r: string) returns (k: string, s: string)
    ensures var text := ChildrenText(p, ks, r);
            || (text == "}" + r && forall k :: k in ks ==> k !in p.fields)
            || (k in ks && text == "|" + (k + [':'] + s))
  {
    hide ChildText, Children, ChildrenText;
    k, s := "", "";
    if ks == [] {
      NoChildren(p, r);
    } else {
      SplitChildren(p, ks, r);
      if ks[0] in p.fields {
        k, s := ks[0], ChildText(p.fields[ks[0]]) + ChildrenText(p, ks[1..], r);
      } else {
        k, s := ChildrenStart(p, ks[1..], r);
      }
    }
  }

  lemma NoChildren(p: Node, r: string)
    ensures ChildrenText(p, [], r) == "}" + r
  {
  }

  lemma SplitChildren(p: Node, ks: seq<string>, r: string)
    requires ks != []
    ensures ChildrenText(p, ks, r) ==
            if ks[0] in p.fields
            then "|" + (ks[0] + [':'] + (ChildText(p.fields[ks[0]]) + ChildrenText(p, ks[1..], r)))
            else ChildrenText(p, ks[1..], r)
  {
    hide ChildText;
    if ks[0] in p.fields {
      var c, rest := ChildText(p.fields[ks[0]]), Children(p, ks[1..]);
      assert Children(p, ks) == "|" + ks[0] + ":" + c + rest;
      assert "|" + ks[0] + ":" + c + rest + "}" + r == "|" + (ks[0] + [':'] + (c + (rest + "}" + r)));
    }
  }

  // A child that only one of the plans has would put its name at the head of one text only.
  lemma LoneChild(p: Node, q: Node, ks: seq<string>, r: string, t: string)
    requires ks != [] && forall k :: k in ks ==> Name(k)
    requires forall i :: 0 < i < |ks| ==> ks[i] != ks[0]
    requires ChildrenText(p, ks, r) == ChildrenText(q, ks, t)
    ensures ks[0] in p.fields ==> ks[0] in q.fields
  {
    hide ChildText, Children;
    if ks[0] in p.fields && ks[0] !in q.fields {
      SplitChildren(p, ks, r);
      SplitChildren(q, ks, t);
      var k, s := ChildrenStart(q, ks[1..], t);
      var own := ChildText(p.fields[ks[0]]) + ChildrenText(p, ks[1..], r);
      assert ChildrenText(p, ks, r)[0] == '|';
      SameSuffix("|", ks[0] + [':'] + own, k + [':'] + s);
      assert Name(ks[0]) && (k in ks[1..] ==> k in ks && Name(k));
      NameEnds(ks[0], k, ':', own, s);
      assert false;
    }
  }

  lemma {:induction false} ReadChildren(d: Domain, p: Node, q: Node, ks: seq<string>, r: string, t: string)
    requires Readable(d)
    requires Distinct(ks) && (forall k :: k in ks ==> Name(k) && k in NESTED_KEYS) && Stops(r) && Stops(t)
    requires forall k :: k in ks && k in p.fields ==> PlainChild(d, p.fields[k])
    requires forall k :: k in ks && k in q.fields ==> PlainChild(d, q.fields[k])
    requires ChildrenText(p, ks, r) == ChildrenText(q, ks, t)
    ensures r == t && forall k :: k in ks ==> SameChildAt(p, q, k)
    decreases p, 0, ks
  {
    hide ChildText, Children, SameChild, PlainChild, Stops, Readable;
    if ks == [] {
      NoChildren(p, r);
      NoChildren(q, t);
      SameSuffix("}", r, t);
    } else {
      var k := ks[0];
      LoneChild(p, q, ks, r, t);
      LoneChild(q, p, ks, t, r);
      SplitChildren(p, ks, r);
      SplitChildren(q, ks, t);
      var r', t' := ChildrenText(p, ks[1..], r), ChildrenText(q, ks[1..], t);
      if k in p.fields {
        assert "|" + (k + [':'] + (ChildText(p.fields[k]) + r')) == "|" + k + ":" + (ChildText(p.fields[k]) + r');
        assert "|" + (k + [':'] + (ChildText(q.fields[k]) + t')) == "|" + k + ":" + (ChildText(q.fields[k]) + t');
        SameSuffix("|" + k + ":", ChildText(p.fields[k]) + r', ChildText(q.fields[k]) + t');
        ChildrenStop(p, ks[1..], r);
        ChildrenStop(q, ks[1..], t);
        ReadChild(d, p.fields[k], q.fields[k], r', t');
      }
      ReadChildren(d, p, q, ks[1..], r, t);
      assert forall k :: k in ks ==> k == ks[0] || k in ks[1..];
    }
  }

  lemma {:induction false} ChildrenStop(p: Node, ks: seq<string>, r: string)
    requires Stops(r) && forall k :: k in ks ==> k in NESTED_KEYS
    ensures AfterLeaves(ChildrenText(p, ks, r)) && Stops(ChildrenText(p, ks, r))
  {
    hide ChildText, Children, Stops;
    var k, s := ChildrenStart(p, ks, r);
    StopsAfterCloser(r);
    if k in ks {
      StopsAtChild(k, s);
    }
  }

  lemma {:induction false} CanonicalStarts(p: Node)
    ensures Canonical(p) != "" && Canonical(p)[0] == '{'
  {
    hide Leaves, Children, LeafKeys;
    assert Canonical(p) == "{" + Leaves(p, LeafKeys(p)) + Children(p, NESTED_KEYS) + "}";
  }

  lemma {:induction false} ChildStarts(v: Json, r: string)
    ensures ChildText(v) + r != "" && Kind((ChildText(v) + r)[0]) == KindOf(v)
  {
    match v
    case Obj(_) => CanonicalStarts(v);
    case Arr(_) => assert ChildText(v)[0] == '[';
    case _ => AnyTextStarts(v, r);
  }

  lemma {:induction false} ReadChild(d: Domain, v: Json, w: Json, r: string, t: string)
    requires Readable(d)
    requires PlainChild(d, v) && PlainChild(d, w) && Stops(r) && Stops(t)
    requires ChildText(v) + r == ChildText(w) + t
    ensures SameChild(v, w) && r == t
    decreases v, 2
  {
    hide Kind, NumberChar, Stops, AnyText, Canonical, ItemTexts, SamePlan, PlainPlan, Readable;
    ChildStarts(v, r);
    ChildStarts(w, t);
    match v
    case Obj(_) => ReadPlan(d, v, w, r, t);
    case Arr(items) =>
      SplitBrackets(ItemTexts(items), r);
      SplitBrackets(ItemTexts(w.items), t);
      SameSuffix("[", ItemTexts(items) + ("]" + r), ItemTexts(w.items) + ("]" + t));
      StopsAfterCloser(r);
      StopsAfterCloser(t);
      ReadItems(d, items, w.items, "]" + r, "]" + t);
      SameSuffix("]", r, t);
    case _ => ReadAny(d, v, w, r, t);
  }

  lemma {:induction false} ItemStarts(v: Json, r: string)
    ensures ItemText(v) + r != "" && Kind((ItemText(v) + r)[0]) == KindOf(v) && (ItemText(v) + r)[0] != ']'
  {
    if v.Obj? {
      CanonicalStarts(v);
    } else {
      AnyTextStarts(v, r);
    }
  }

  lemma {:induction false} ReadItem(d: Domain, v: Json, w: Json, r: string, t: string)
    requires Readable(d)
    requires PlainItem(d, v) && PlainItem(d, w) && Stops(r) && Stops(t)
    requires ItemText(v) + r == ItemText(w) + t
    ensures SameItem(v, w) && r == t
    decreases v, 2
  {
    hide Kind, NumberChar, Stops, AnyText, Canonical, SamePlan, PlainPlan, Readable;
    ItemStarts(v, r);
    ItemStarts(w, t);
    if v.Obj? {
      ReadPlan(d, v, w, r, t);
    } else {
      ReadAny(d, v, w, r, t);
    }
  }

  ghost function RestOfItems(v: seq<Json>, r: string): string
    requires v != []
  {
    Comma(v) + (ItemTexts(v[1..]) + r)
  }

  lemma {:induction false} SplitItems(v: seq<Json>, r: string)
    requires ClosesList(r)
    ensures if v == [] then ItemTexts(v) + r == r
            else
              && ItemTexts(v) + r == ItemText(v[0]) + RestOfItems(v, r)
              && (ItemTexts(v) + r)[0] != ']'
              && RestOfItems(v, r) != "" && RestOfItems(v, r)[0] == (if |v| > 1 then ',' else ']')
              && Stops(RestOfItems(v, r))
  {
    hide ItemText, Kind, KindOf, NumberChar, Stops;
    if v != [] {
      CommaStops(v, ItemTexts(v[1..]), r);
      SplitHead(ItemText(v[0]), v, ItemTexts(v[1..]), r);
      ItemStarts(v[0], RestOfItems(v, r));
    }
  }

  lemma {:induction false} ReadItems(d: Domain, v: seq<Json>, w: seq<Json>, r: string, t: string)
    requires Readable(d)
    requires forall i :: 0 <= i < |v| ==> PlainItem(d, v[i])
    requires forall i :: 0 <= i < |w| ==> PlainItem(d, w[i])
    requires ClosesList(r) && ClosesList(t) && ItemTexts(v) + r == ItemTexts(w) + t
    ensures |v| == |w| && r == t
    ensures forall i :: 0 <= i < |v| ==> SameItem(v[i], w[i])
    decreases v
  {
    hide ItemText, PlainItem, SameItem;
    SplitItems(v, r);
    SplitItems(w, t);
    if v == [] || w == [] {
    } else {
      ReadItem(d, v[0], w[0], RestOfItems(v, r), RestOfItems(w, t));
      SameSuffix(Comma(v), ItemTexts(v[1..]) + r, ItemTexts(w[1..]) + t);
      ReadItems(d, v[1..], w[1..], r, t);
    }
  }

  lemma {:induction false} ReadPlan(d: Domain, p: Node, q: Node, r: string, t: string)
    requires Readable(d)
    requires PlainPlan(d, p) && PlainPlan(d, q) && Stops(r) && Stops(t)
    requires Canonical(p) + r == Canonical(q) + t
    ensures SamePlan(p, q) && r == t
    decreases p, 1
  {
    hide Leaves, Children, LeafKeys, PlainChild, Plain, SameChildAt, ChildrenText, Stops, Readable;
    KeysAreNames();
    SplitPlan(p, r);
    SplitPlan(q, t);
    var r', t' := ChildrenText(p, NESTED_KEYS, r), ChildrenText(q, NESTED_KEYS, t);
    SameSuffix("{", Leaves(p, LeafKeys(p)) + r', Leaves(q, LeafKeys(q)) + t');
    ReadLeaves(d, p, LeafKeys(p), q, LeafKeys(q), r', t');
    ReadChildren(d, p, q, NESTED_KEYS, r, t);
  }

  lemma {:induction false} SplitPlan(p: Node, r: string)
    requires Stops(r)
    ensures Canonical(p) + r == "{" + (Leaves(p, LeafKeys(p)) + ChildrenText(p, NESTED_KEYS, r))
    ensures AfterLeaves(ChildrenText(p, NESTED_KEYS, r))
  {
    hide Leaves, Children, LeafKeys, Stops;
    ChildrenStop(p, NESTED_KEYS, r);
    var leaves, children := Leaves(p, LeafKeys(p)), Children(p, NESTED_KEYS);
    assert "{" + leaves + children + "}" + r == "{" + (leaves + (children + "}" + r));
  }
}
