/** What the red flags of a plan mean: one for every place in the plan tree that meets the
    flag's condition, and for nothing else. */
module PlanPlaces {
  import opened Decimals
  import opened Signed
  import opened Sorting
  import opened Strings
  import opened PlanJson
  import opened PlanFlags

  // From a plan node to one nested in it: a sub-block, or an object in one of the two lists.
  datatype Step = Block(key: string) | Item(key: string, index: nat)

  ghost predicate HasChild(p: Node, s: Step) {
    match s
    case Block(k) => IsBlock(k) && k in p.fields && p.fields[k].Obj?
    case Item(k, i) =>
      && IsList(k) && k in p.fields && p.fields[k].Arr?
      && i < |p.fields[k].items| && p.fields[k].items[i].Obj?
  }

  predicate IsBlock(k: string) {
    k == "ordering_operation" || k == "grouping_operation" || k == "duplicates_removal" || k == "windowing"
  }

  predicate IsList(k: string) {
    k == "nested_loop" || k == "query_specifications"
  }

  ghost function Child(p: Node, s: Step): (c: Node)
    requires HasChild(p, s)
    ensures c < p
  {
    match s
    case Block(k) => p.fields[k]
    case Item(k, i) => p.fields[k].items[i]
  }

  function Name(s: Step): string {
    match s
    case Block(k) => k
    case Item(k, i) => k + "[" + Dec(i) + "]"
  }

  // A place is the way to it from the root.
  type Place = seq<Step>

  ghost predicate Leads(p: Node, at: Place)
    decreases |at|
  {
    at == [] || (HasChild(p, at[0]) && Leads(Child(p, at[0]), at[1..]))
  }

  ghost function NodeAt(p: Node, at: Place): Node
    requires Leads(p, at)
    decreases |at|
  {
    if at == [] then p else NodeAt(Child(p, at[0]), at[1..])
  }

  function PathOf(at: Place): string {
    if at == [] then "" else "." + Name(at[0]) + PathOf(at[1..])
  }

  // The conditions

  predicate OwnCondition(node: Node, kind: FlagKind) {
    match kind
    case Filesort => IsTrue(node, "using_filesort")
    case TempTable => IsTrue(node, "using_temporary_table")
    case _ => false
  }

  predicate TableCondition(read: Reading, t: Node, kind: FlagKind) {
    var scanned, produced := NumField(read, t, "rows_examined_per_scan"), NumField(read, t, "rows_produced_per_join");
    match kind
    case FullScan => IsText(t, "access_type", "ALL") && scanned >= FULL_SCAN_ROW_THRESHOLD
    case BigScan => produced > 0 && scanned >= AsInt64(produced * SCAN_PRODUCED_RATIO_THRESHOLD)
    case _ => OwnCondition(t, kind)
  }

  ghost predicate RaisedBy(read: Reading, x: string, node: Node, f: RedFlag) {
    || (f.nodePath == x && OwnCondition(node, f.kind))
    || (HasTable(node) && f.nodePath == x + ".table" && TableCondition(read, node.fields["table"], f.kind))
  }

  // Some place in the plan raises f.
  ghost predicate Raised(read: Reading, path: string, p: Node, f: RedFlag) {
    exists at: Place :: Leads(p, at) && RaisedBy(read, path + PathOf(at), NodeAt(p, at), f)
  }

  // Membership, one level at a time

  lemma TableMembers(read: Reading, x: string, t: Node, f: RedFlag)
    ensures f in TableFlags(read, x, t) <==> f.nodePath == x && TableCondition(read, t, f.kind)
    ensures f in OwnFlags(x, t) <==> f.nodePath == x && OwnCondition(t, f.kind)
  {
    hide AsInt64;
  }

  ghost predicate InBlock(read: Reading, path: string, p: Node, k: string, f: RedFlag) {
    k in p.fields && p.fields[k].Obj? && f in WalkFlags(read, path + "." + k, p.fields[k])
  }

  lemma {:induction false} BlockMembers(read: Reading, path: string, p: Node, ks: seq<string>, f: RedFlag)
    ensures f in BlockFlags(read, path, p, ks) <==> exists i :: 0 <= i < |ks| && InBlock(read, path, p, ks[i], f)
  {
    hide WalkFlags;
    if ks == [] {
    } else {
      BlockMembers(read, path, p, ks[1..], f);
      assert forall i :: 0 < i < |ks| ==> ks[i] == ks[1..][i - 1];
      if i :| 0 <= i < |ks[1..]| && InBlock(read, path, p, ks[1..][i], f) {
        assert ks[i + 1] == ks[1..][i];
      }
    }
  }

  ghost predicate InItem(read: Reading, path: string, items: seq<Json>, i: nat, f: RedFlag)
    requires i < |items|
  {
    items[i].Obj? && f in WalkFlags(read, path + "[" + Dec(i) + "]", items[i])
  }

  lemma {:induction false} ItemMembers(read: Reading, path: string, items: seq<Json>, n: nat, f: RedFlag)
    requires n <= |items|
    ensures f in ItemFlags(read, path, items, n) <==> exists i :: 0 <= i < n && InItem(read, path, items, i, f)
  {
    hide WalkFlags;
    if n == 0 {
    } else {
      ItemMembers(read, path, items, n - 1, f);
      ItemMember(read, path, items, n, f);
      hide InItem, ItemFlags;
    }
  }

  lemma {:induction false} ItemMember(read: Reading, path: string, items: seq<Json>, n: nat, f: RedFlag)
    requires 0 < n <= |items|
    ensures f in ItemFlags(read, path, items, n) <==>
            f in ItemFlags(read, path, items, n - 1) || InItem(read, path, items, n - 1, f)
  {
    hide WalkFlags;
  }

  ghost predicate InChild(read: Reading, path: string, p: Node, s: Step, f: RedFlag) {
    HasChild(p, s) && f in WalkFlags(read, path + "." + Name(s), Child(p, s))
  }

  lemma BlocksByName()
    ensures forall k :: k in SUB_BLOCKS <==> IsBlock(k)
  {
    assert SUB_BLOCKS[0] == "ordering_operation" && SUB_BLOCKS[1] == "grouping_operation";
    assert SUB_BLOCKS[2] == "duplicates_removal" && SUB_BLOCKS[3] == "windowing";
  }

  lemma {:induction false} BlocksRaise(read: Reading, path: string, p: Node, f: RedFlag)
    ensures f in BlockFlags(read, path, p, SUB_BLOCKS) <==> exists k :: InChild(read, path, p, Block(k), f)
  {
    hide WalkFlags;
    BlockMembers(read, path, p, SUB_BLOCKS, f);
    BlocksByName();
    if k :| InChild(read, path, p, Block(k), f) {
      var i :| 0 <= i < |SUB_BLOCKS| && SUB_BLOCKS[i] == k;
      assert InBlock(read, path, p, SUB_BLOCKS[i], f);
    }
    if i :| 0 <= i < |SUB_BLOCKS| && InBlock(read, path, p, SUB_BLOCKS[i], f) {
      assert InChild(read, path, p, Block(SUB_BLOCKS[i]), f);
    }
  }

  lemma {:induction false} ListRaises(read: Reading, path: string, p: Node, k: string, f: RedFlag)
    requires IsList(k)
    ensures f in ListFlags(read, path, p, k) <==> exists i: nat :: InChild(read, path, p, Item(k, i), f)
  {
    hide WalkFlags, ItemFlags;
    if k in p.fields && p.fields[k].Arr? {
      var items := p.fields[k].items;
      ItemMembers(read, path + "." + k, items, |items|, f);
      forall i: nat | i < |items|
        ensures InItem(read, path + "." + k, items, i, f) <==> InChild(read, path, p, Item(k, i), f)
      {
        assert path + "." + k + "[" + Dec(i) + "]" == path + "." + Name(Item(k, i));
      }
    }
  }

  lemma {:induction false} WalkRaisesOneLevel(read: Reading, path: string, p: Node, f: RedFlag)
    ensures f in WalkFlags(read, path, p) <==>
            RaisedBy(read, path, p, f) || exists s :: InChild(read, path, p, s, f)
  {
    BlocksRaise(read, path, p, f);
    ListRaises(read, path, p, "nested_loop", f);
    ListRaises(read, path, p, "query_specifications", f);
    TableMembers(read, path, p, f);
    if HasTable(p) {
      TableMembers(read, path + ".table", p.fields["table"], f);
    }
    hide WalkFlags, BlockFlags, ListFlags, TableFlags, OwnFlags, TableCondition, OwnCondition;
    if s :| InChild(read, path, p, s, f) {
      match s {
        case Block(k) => assert InChild(read, path, p, Block(k), f);
        case Item(k, i) => assert InChild(read, path, p, Item(k, i), f);
      }
    }
  }

  // A flag is in the list exactly if some place in the plan, reached through sub-blocks and
  // lists, sits at its path and meets its condition.
  lemma {:induction false} WalkRaises(read: Reading, path: string, p: Node, f: RedFlag)
    ensures f in WalkFlags(read, path, p) <==> Raised(read, path, p, f)
    decreases p
  {
    hide WalkFlags, RaisedBy, HasChild, Child, Name;
    WalkRaisesOneLevel(read, path, p, f);
    if f in WalkFlags(read, path, p) {
      if RaisedBy(read, path, p, f) {
        RaisedHere(read, path, p, f);
      } else {
        var s :| InChild(read, path, p, s, f);
        WalkRaises(read, path + "." + Name(s), Child(p, s), f);
        RaisedBelow(read, path, p, s, f);
      }
    }
    if at: Place :| Leads(p, at) && RaisedBy(read, path + PathOf(at), NodeAt(p, at), f) {
      if at == [] {
        assert path + PathOf(at) == path;
      } else {
        var s := at[0];
        RaisedByChild(read, path, p, at, f);
        WalkRaises(read, path + "." + Name(s), Child(p, s), f);
        assert InChild(read, path, p, s, f);
      }
    }
  }

  lemma {:induction false} RaisedByChild(read: Reading, path: string, p: Node, at: Place, f: RedFlag)
    requires at != [] && Leads(p, at) && RaisedBy(read, path + PathOf(at), NodeAt(p, at), f)
    ensures HasChild(p, at[0]) && Raised(read, path + "." + Name(at[0]), Child(p, at[0]), f)
  {
    hide RaisedBy, HasChild, Child, Name;
    assert path + ("." + Name(at[0]) + PathOf(at[1..])) == path + "." + Name(at[0]) + PathOf(at[1..]);
  }

  lemma RaisedHere(read: Reading, path: string, p: Node, f: RedFlag)
    requires RaisedBy(read, path, p, f)
    ensures Raised(read, path, p, f)
  {
    hide RaisedBy;
    var at: Place := [];
    assert path + PathOf(at) == path;
    assert Leads(p, at) && RaisedBy(read, path + PathOf(at), NodeAt(p, at), f);
  }

  lemma RaisedBelow(read: Reading, path: string, p: Node, s: Step, f: RedFlag)
    requires HasChild(p, s) && Raised(read, path + "." + Name(s), Child(p, s), f)
    ensures Raised(read, path, p, f)
  {
    hide RaisedBy, HasChild, Child, Name;
    var rest: Place :| Leads(Child(p, s), rest)
      && RaisedBy(read, path + "." + Name(s) + PathOf(rest), NodeAt(Child(p, s), rest), f);
    var at := [s] + rest;
    hide PathOf, Leads, NodeAt;
    assert path + "." + Name(s) + PathOf(rest) == path + ("." + Name(s) + PathOf(rest));
    assert Leads(p, at) && RaisedBy(read, path + PathOf(at), NodeAt(p, at), f);
  }

  // Paths tell places apart

  // What may follow the name of a step in a path.
  predicate Tail(r: string) {
    r == "" || r[0] == '.'
  }

  lemma SameHead(a: string, b: string, r: string, t: string)
    requires '.' !in a && '.' !in b && Tail(r) && Tail(t) && a + r == b + t
    ensures a == b && r == t
  {
    var whole := a + r;
    assert forall i :: 0 <= i < |a| ==> whole[i] == a[i];
    assert forall i :: 0 <= i < |b| ==> whole[i] == b[i];
    assert r != "" ==> whole[|a|] == '.';
    assert t != "" ==> whole[|b|] == '.';
    assert |a| == |b|;
    assert a == whole[..|a|] && b == whole[..|b|] && r == whole[|a|..] && t == whole[|b|..];
  }

  predicate IsKey(s: Step) {
    if s.Block? then IsBlock(s.key) else IsList(s.key)
  }

  lemma NameIsPlain(s: Step)
    requires IsKey(s)
    ensures '.' !in Name(s) && Name(s) != "" && '[' !in s.key
    ensures s.Item? <==> '[' in Name(s)
  {
    hide Dec;
    KeyIsPlain(s.key);
    if s.Item? {
      assert Name(s)[|s.key|] == '[';
    }
  }

  lemma KeyIsPlain(k: string)
    requires IsBlock(k) || IsList(k)
    ensures '.' !in k && '[' !in k && k != "" && k != "table"
  {
    if IsBlock(k) {
      BlockIsPlain(k);
    }
  }

  lemma BlockIsPlain(k: string)
    requires IsBlock(k)
    ensures '.' !in k && '[' !in k && k != "" && k != "table"
  {
  }

  lemma NameIsInjective(s: Step, t: Step)
    requires IsKey(s) && IsKey(t) && Name(s) == Name(t)
    ensures s == t
  {
    NameIsPlain(s);
    NameIsPlain(t);
    if s.Item? && t.Item? {
      var m, n := Dec(s.index), Dec(t.index);
      assert Name(s) == s.key + ['['] + (m + [']'] + "") && Name(t) == t.key + ['['] + (n + [']'] + "");
      NameEnds(s.key, t.key, '[', m + [']'] + "", n + [']'] + "");
      NameEnds(m, n, ']', "", "");
      DecIsInjective(s.index, t.index);
    }
  }

  lemma {:induction false} PathIsTail(at: Place)
    ensures Tail(PathOf(at))
  {
  }

  lemma {:induction false} PathIsInjective(a: Place, b: Place)
    requires (forall s :: s in a ==> IsKey(s)) && (forall s :: s in b ==> IsKey(s)) && PathOf(a) == PathOf(b)
    ensures a == b
  {
    hide Name, IsKey;
    if a == [] || b == [] {
    } else {
      var r, t := PathOf(a[1..]), PathOf(b[1..]);
      NameIsPlain(a[0]);
      NameIsPlain(b[0]);
      PathIsTail(a[1..]);
      PathIsTail(b[1..]);
      assert Name(a[0]) + r == PathOf(a)[1..] && Name(b[0]) + t == PathOf(b)[1..];
      SameHead(Name(a[0]), Name(b[0]), r, t);
      NameIsInjective(a[0], b[0]);
      PathIsInjective(a[1..], b[1..]);
      assert a == [a[0]] + a[1..] && b == [b[0]] + b[1..];
    }
  }

  lemma {:induction false} LeadsByKeys(p: Node, at: Place)
    requires Leads(p, at)
    ensures forall s :: s in at ==> IsKey(s)
    decreases |at|
  {
    if at == [] {
    } else {
      LeadsByKeys(Child(p, at[0]), at[1..]);
      assert at == [at[0]] + at[1..];
    }
  }

  // No flag occurs twice

  // A flag at the given path or below it.
  ghost predicate Below(path: string, f: RedFlag) {
    path <= f.nodePath && Tail(f.nodePath[|path|..])
  }

  lemma {:induction false} FlagsAreBelow(read: Reading, path: string, p: Node, f: RedFlag)
    requires f in WalkFlags(read, path, p)
    ensures Below(path, f)
  {
    hide WalkFlags, TableCondition, OwnCondition, Leads, NodeAt, PathOf;
    WalkRaises(read, path, p, f);
    var at: Place :| Leads(p, at) && RaisedBy(read, path + PathOf(at), NodeAt(p, at), f);
    PathIsTail(at);
    if f.nodePath == path + PathOf(at) {
      IsBelow(path, PathOf(at), f);
    } else {
      assert path + PathOf(at) + ".table" == path + (PathOf(at) + ".table");
      IsBelow(path, PathOf(at) + ".table", f);
    }
  }

  lemma IsBelow(path: string, r: string, f: RedFlag)
    requires Tail(r) && f.nodePath == path + r
    ensures Below(path, f)
  {
    assert f.nodePath[|path|..] == r;
  }

  // The flag sits under the step of that name.
  ghost predicate Under(path: string, name: string, f: RedFlag) {
    Below(path + "." + name, f)
  }

  lemma OneHead(path: string, a: string, b: string, f: RedFlag)
    requires '.' !in a && '.' !in b && Under(path, a, f) && Under(path, b, f)
    ensures a == b
  {
    var x, y := path + "." + a, path + "." + b;
    var r, t := f.nodePath[|x|..], f.nodePath[|y|..];
    assert f.nodePath == x + r && f.nodePath == y + t;
    assert a + r == f.nodePath[|path| + 1..] && b + t == f.nodePath[|path| + 1..];
    SameHead(a, b, r, t);
  }

  lemma DistinctConcat(a: seq<RedFlag>, b: seq<RedFlag>)
    requires Distinct(a) && Distinct(b) && forall f :: f in a ==> f !in b
    ensures Distinct(a + b)
  {
    var all := a + b;
    forall i, j | 0 <= i < j < |all| ensures all[i] != all[j] {
      if i < |a| <= j {
        assert a[i] in a && b[j - |a|] in b;
      }
    }
  }

  lemma {:induction false} WalkIsDistinct(read: Reading, path: string, p: Node)
    ensures Distinct(WalkFlags(read, path, p))
    decreases p, 1
  {
    BlocksAreDistinct(read, path, p, SUB_BLOCKS);
    ListIsDistinct(read, path, p, "nested_loop");
    ListIsDistinct(read, path, p, "query_specifications");
    OwnIsDistinct(read, path, p);
    var table := if HasTable(p) then TableFlags(read, path + ".table", p.fields["table"]) else [];
    if HasTable(p) {
      OwnIsDistinct(read, path + ".table", p.fields["table"]);
    }
    var own, blocks := OwnFlags(path, p), BlockFlags(read, path, p, SUB_BLOCKS);
    var loop, specs := ListFlags(read, path, p, "nested_loop"), ListFlags(read, path, p, "query_specifications");
    assert WalkFlags(read, path, p) == table + own + blocks + loop + specs;
    PartsAreApart(read, path, p, table, own, blocks, loop, specs);
    hide WalkFlags, BlockFlags, ListFlags, TableFlags, OwnFlags, Distinct;
    DistinctConcat(table, own);
    DistinctConcat(table + own, blocks);
    DistinctConcat(table + own + blocks, loop);
    DistinctConcat(table + own + blocks + loop, specs);
  }

  lemma OwnIsDistinct(read: Reading, x: string, t: Node)
    ensures Distinct(OwnFlags(x, t)) && Distinct(TableFlags(read, x, t))
  {
    hide AsInt64;
  }

  ghost predicate Apart(a: seq<RedFlag>, b: seq<RedFlag>) {
    forall f :: f in a ==> f !in b
  }

  lemma {:induction false} PartsAreApart(read: Reading, path: string, p: Node, table: seq<RedFlag>, own: seq<RedFlag>,
                      blocks: seq<RedFlag>, loop: seq<RedFlag>, specs: seq<RedFlag>)
    requires table == if HasTable(p) then TableFlags(read, path + ".table", p.fields["table"]) else []
    requires own == OwnFlags(path, p) && blocks == BlockFlags(read, path, p, SUB_BLOCKS)
    requires loop == ListFlags(read, path, p, "nested_loop")
             && specs == ListFlags(read, path, p, "query_specifications")
    ensures Apart(table, own) && Apart(table + own, blocks)
    ensures Apart(table + own + blocks, loop) && Apart(table + own + blocks + loop, specs)
  {
    hide BlockFlags, ListFlags, OwnFlags, TableFlags;
    forall f: RedFlag
      ensures f in table ==> Mark(path, f) == 't'
      ensures f in own ==> Mark(path, f) == ' '
      ensures f in blocks ==> Mark(path, f) in {'o', 'g', 'd', 'w'}
      ensures f in loop ==> Mark(path, f) == 'n'
      ensures f in specs ==> Mark(path, f) == 'q'
    {
      PartsAreMarked(read, path, p, f);
    }
  }

  // The letter that the path of a flag goes on with, if it does.
  ghost function Mark(path: string, f: RedFlag): char {
    if |f.nodePath| > |path| + 1 then f.nodePath[|path| + 1] else ' '
  }

  lemma {:induction false} PartsAreMarked(read: Reading, path: string, p: Node, f: RedFlag)
    ensures HasTable(p) && f in TableFlags(read, path + ".table", p.fields["table"]) ==> Mark(path, f) == 't'
    ensures f in OwnFlags(path, p) ==> Mark(path, f) == ' '
    ensures f in BlockFlags(read, path, p, SUB_BLOCKS) ==> Mark(path, f) in {'o', 'g', 'd', 'w'}
    ensures f in ListFlags(read, path, p, "nested_loop") ==> Mark(path, f) == 'n'
    ensures f in ListFlags(read, path, p, "query_specifications") ==> Mark(path, f) == 'q'
  {
    hide BlockFlags, ListFlags;
    TableIsMarked(read, path, p, f);
    if f in BlockFlags(read, path, p, SUB_BLOCKS) {
      BlocksAreMarked(read, path, p, f);
    }
    if f in ListFlags(read, path, p, "nested_loop") {
      ListIsMarked(read, path, p, "nested_loop", f);
    }
    if f in ListFlags(read, path, p, "query_specifications") {
      ListIsMarked(read, path, p, "query_specifications", f);
    }
  }

  lemma TableIsMarked(read: Reading, path: string, p: Node, f: RedFlag)
    ensures HasTable(p) && f in TableFlags(read, path + ".table", p.fields["table"]) ==> Mark(path, f) == 't'
    ensures f in OwnFlags(path, p) ==> Mark(path, f) == ' '
  {
    hide TableFlags, OwnFlags, TableCondition, OwnCondition;
    TableMembers(read, path, p, f);
    if HasTable(p) {
      TableMembers(read, path + ".table", p.fields["table"], f);
    }
  }

  lemma {:induction false} BlocksAreMarked(read: Reading, path: string, p: Node, f: RedFlag)
    requires f in BlockFlags(read, path, p, SUB_BLOCKS)
    ensures Mark(path, f) in {'o', 'g', 'd', 'w'}
  {
    BlocksRaise(read, path, p, f);
    hide BlockFlags, WalkFlags, Mark;
    var k :| InChild(read, path, p, Block(k), f);
    ChildIsMarked(read, path, p, Block(k), f);
  }

  lemma {:induction false} ListIsMarked(read: Reading, path: string, p: Node, k: string, f: RedFlag)
    requires IsList(k) && f in ListFlags(read, path, p, k)
    ensures Mark(path, f) == k[0]
  {
    ListRaises(read, path, p, k, f);
    hide ListFlags, WalkFlags, Mark;
    var i: nat :| InChild(read, path, p, Item(k, i), f);
    ChildIsMarked(read, path, p, Item(k, i), f);
  }

  lemma ChildIsMarked(read: Reading, path: string, p: Node, s: Step, f: RedFlag)
    requires InChild(read, path, p, s, f)
    ensures IsKey(s) && s.key != "" && Mark(path, f) == s.key[0] && Under(path, Name(s), f)
  {
    hide WalkFlags, Tail;
    KeyIsPlain(s.key);
    FlagsAreBelow(read, path + "." + Name(s), Child(p, s), f);
    var x := path + "." + Name(s);
    assert x[|path| + 1] == s.key[0];
    assert f.nodePath[|path| + 1] == f.nodePath[..|x|][|path| + 1];
  }

  lemma {:induction false} BlocksAreDistinct(read: Reading, path: string, p: Node, ks: seq<string>)
    requires Distinct(ks) && forall k :: k in ks ==> '.' !in k
    ensures Distinct(BlockFlags(read, path, p, ks))
    decreases p, 0, ks
  {
    hide WalkFlags, Under;
    if ks == [] {
    } else {
      BlocksAreDistinct(read, path, p, ks[1..]);
      if ks[0] in p.fields && p.fields[ks[0]].Obj? {
        var child := p.fields[ks[0]];
        WalkIsDistinct(read, path + "." + ks[0], child);
        forall f | f in WalkFlags(read, path + "." + ks[0], child) ensures f !in BlockFlags(read, path, p, ks[1..]) {
          if f in BlockFlags(read, path, p, ks[1..]) {
            BlockMembers(read, path, p, ks[1..], f);
            var i :| 0 <= i < |ks[1..]| && InBlock(read, path, p, ks[1..][i], f);
            BlockIsUnder(read, path, p, ks[0], f);
            BlockIsUnder(read, path, p, ks[1..][i], f);
            OneHead(path, ks[0], ks[i + 1], f);
            assert false;
          }
        }
        DistinctConcat(WalkFlags(read, path + "." + ks[0], child), BlockFlags(read, path, p, ks[1..]));
      }
    }
  }

  lemma BlockIsUnder(read: Reading, path: string, p: Node, k: string, f: RedFlag)
    requires InBlock(read, path, p, k, f)
    ensures Under(path, k, f)
  {
    FlagsAreBelow(read, path + "." + k, p.fields[k], f);
  }

  lemma {:induction false} ListIsDistinct(read: Reading, path: string, p: Node, k: string)
    ensures Distinct(ListFlags(read, path, p, k))
    decreases p, 0
  {
    hide ItemFlags;
    if k in p.fields && p.fields[k].Arr? {
      ItemsAreDistinct(read, path + "." + k, p.fields[k].items, |p.fields[k].items|);
    }
  }

  lemma {:induction false} ItemsAreDistinct(read: Reading, path: string, items: seq<Json>, n: nat)
    requires n <= |items|
    ensures Distinct(ItemFlags(read, path, items, n))
    decreases items, 0, n
  {
    hide WalkFlags;
    if n == 0 {
    } else {
      ItemsAreDistinct(read, path, items, n - 1);
      if items[n - 1].Obj? {
        var last := WalkFlags(read, path + "[" + Dec(n - 1) + "]", items[n - 1]);
        WalkIsDistinct(read, path + "[" + Dec(n - 1) + "]", items[n - 1]);
        forall f | f in ItemFlags(read, path, items, n - 1) ensures f !in last {
          if f in last {
            ItemMembers(read, path, items, n - 1, f);
            var i :| 0 <= i < n - 1 && InItem(read, path, items, i, f);
            ItemIsIndexed(read, path, items, i, f);
            ItemIsIndexed(read, path, items, n - 1, f);
            OneIndex(path, i, n - 1, f);
            assert false;
          }
        }
        DistinctConcat(ItemFlags(read, path, items, n - 1), last);
      }
    }
  }

  ghost predicate Indexed(path: string, i: nat, f: RedFlag) {
    exists r :: f.nodePath == path + "[" + (Dec(i) + [']'] + r)
  }

  lemma ItemIsIndexed(read: Reading, path: string, items: seq<Json>, i: nat, f: RedFlag)
    requires i < |items| && InItem(read, path, items, i, f)
    ensures Indexed(path, i, f)
  {
    hide WalkFlags, Dec;
    var x := path + "[" + Dec(i) + "]";
    FlagsAreBelow(read, x, items[i], f);
    var r := f.nodePath[|x|..];
    assert f.nodePath == x + r;
    assert x + r == path + "[" + (Dec(i) + [']'] + r);
  }

  lemma OneIndex(path: string, i: nat, j: nat, f: RedFlag)
    requires Indexed(path, i, f) && Indexed(path, j, f)
    ensures i == j
  {
    hide Dec;
    var r :| f.nodePath == path + "[" + (Dec(i) + [']'] + r);
    var t :| f.nodePath == path + "[" + (Dec(j) + [']'] + t);
    assert f.nodePath[|path| + 1..] == Dec(i) + [']'] + r == Dec(j) + [']'] + t;
    NameEnds(Dec(i), Dec(j), ']', r, t);
    DecIsInjective(i, j);
  }

  // Together: each place raises each of its flags once, and that is all there is.
  lemma {:induction false} WalkRaisesOnce(read: Reading, path: string, p: Node, f: RedFlag)
    ensures multiset(WalkFlags(read, path, p))[f] == if Raised(read, path, p, f) then 1 else 0
  {
    WalkRaises(read, path, p, f);
    WalkIsDistinct(read, path, p);
    hide WalkFlags, Raised;
    var fs := WalkFlags(read, path, p);
    if f in fs {
      var i :| 0 <= i < |fs| && fs[i] == f;
      OnlyPlace(fs, i);
    } else {
      assert f !in multiset(fs);
    }
  }
}
