/** The red flags of a plan, told from the fields of its nodes alone. */
module PlanConditions {
  import opened Decimals
  import opened Signed
  import opened PlanJson
  import opened PlanFlags
  import opened PlanPlaces

  // The path of a place is that of no table.
  lemma {:induction false} TableIsNoPlace(a: Place, b: Place)
    requires (forall s :: s in a ==> IsKey(s)) && (forall s :: s in b ==> IsKey(s))
    ensures PathOf(a) != PathOf(b) + ".table"
  {
    if a == [] {
    } else if b == [] {
      NotJustTable(a);
    } else {
      TableIsNoPlace(a[1..], b[1..]);
      SameFirst(a, b);
    }
  }

  lemma {:induction false} NotJustTable(a: Place)
    requires a != [] && IsKey(a[0])
    ensures PathOf(a) != ".table"
  {
    NotJust(a, "table");
    hide PathOf, Name;
    assert ".table" == "." + "table";
  }

  lemma {:induction false} NotJust(a: Place, name: string)
    requires a != [] && IsKey(a[0]) && '.' !in name && Name(a[0]) != name
    ensures PathOf(a) != "." + name
  {
    Stripped(a, "");
    PathIsTail(a[1..]);
    NameIsPlain(a[0]);
    hide PathOf, Name;
    assert PathOf(a) + "" == PathOf(a) && PathOf(a[1..]) + "" == PathOf(a[1..]) && name + "" == name;
    FirstNames(Name(a[0]), name, PathOf(a[1..]), "");
  }

  lemma {:induction false} SameFirst(a: Place, b: Place)
    requires a != [] && b != [] && IsKey(a[0]) && IsKey(b[0])
    ensures PathOf(a) == PathOf(b) + ".table" ==> PathOf(a[1..]) == PathOf(b[1..]) + ".table"
  {
    Stripped(a, "");
    Stripped(b, ".table");
    PathIsTail(a[1..]);
    PathIsTail(b[1..]);
    NameIsPlain(a[0]);
    NameIsPlain(b[0]);
    hide PathOf, Name;
    assert PathOf(a) + "" == PathOf(a) && PathOf(a[1..]) + "" == PathOf(a[1..]);
    FirstNames(Name(a[0]), Name(b[0]), PathOf(a[1..]), PathOf(b[1..]) + ".table");
  }

  lemma {:induction false} Stripped(at: Place, r: string)
    requires at != []
    ensures PathOf(at) + r == "." + (Name(at[0]) + (PathOf(at[1..]) + r))
  {
    hide Name;
  }

  lemma FirstNames(a: string, b: string, r: string, t: string)
    requires '.' !in a && '.' !in b && Tail(r) && Tail(t)
    ensures "." + (a + r) == "." + (b + t) ==> a == b && r == t
  {
    assert a + r == ("." + (a + r))[1..] && b + t == ("." + (b + t))[1..];
    if a + r == b + t {
      SameHead(a, b, r, t);
    }
  }

  // Every flag sits at the path of a place or of its table, and the path tells which.
  lemma {:induction false} FlagHasPlace(read: Reading, raw: Node, f: RedFlag)
    requires f in WalkFlags(read, RootLabel(raw), Root(raw))
    ensures exists at: Place :: Leads(Root(raw), at) &&
              (f.nodePath == RootLabel(raw) + PathOf(at) || f.nodePath == RootLabel(raw) + PathOf(at) + ".table")
  {
    hide WalkFlags, Leads, NodeAt, PathOf;
    WalkRaises(read, RootLabel(raw), Root(raw), f);
  }

  lemma {:induction false} RaisedAt(read: Reading, raw: Node, at: Place, kind: FlagKind)
    requires Leads(Root(raw), at)
    ensures var flags, node, y := WalkFlags(read, RootLabel(raw), Root(raw)), NodeAt(Root(raw), at),
                                  RootLabel(raw) + PathOf(at);
            && (RedFlag(y, kind) in flags <==> OwnCondition(node, kind))
            && (RedFlag(y + ".table", kind) in flags <==>
                HasTable(node) && TableCondition(read, node.fields["table"], kind))
  {
    var x, root := RootLabel(raw), Root(raw);
    var y := x + PathOf(at);
    WalkRaises(read, x, root, RedFlag(y, kind));
    WalkRaises(read, x, root, RedFlag(y + ".table", kind));
    LeadsByKeys(root, at);
    forall b: Place | Leads(root, b)
      ensures x + PathOf(b) == y ==> b == at
      ensures x + PathOf(b) != y + ".table" && x + PathOf(b) + ".table" != y
      ensures x + PathOf(b) + ".table" == y + ".table" ==> b == at
    {
      LeadsByKeys(root, b);
      TableIsNoPlace(b, at);
      TableIsNoPlace(at, b);
      SamePath(x, at, b);
    }
    hide WalkFlags, Leads, NodeAt, PathOf, OwnCondition, TableCondition, HasTable, RootLabel, Root;
  }

  lemma {:induction false} SamePath(x: string, a: Place, b: Place)
    requires (forall s :: s in a ==> IsKey(s)) && (forall s :: s in b ==> IsKey(s))
    ensures x + PathOf(a) == x + PathOf(b) ==> a == b
    ensures x + PathOf(a) + ".table" == x + PathOf(b) + ".table" ==> a == b
    ensures x + PathOf(a) == x + PathOf(b) + ".table" ==> PathOf(a) == PathOf(b) + ".table"
    ensures x + PathOf(b) == x + PathOf(a) + ".table" ==> PathOf(b) == PathOf(a) + ".table"
  {
    hide PathOf, IsKey;
    var p, q := PathOf(a), PathOf(b);
    assert (x + p)[|x|..] == p && (x + q)[|x|..] == q;
    assert (x + p + ".table")[|x|..] == p + ".table" && (x + q + ".table")[|x|..] == q + ".table";
    assert (p + ".table")[..|p|] == p && (q + ".table")[..|q|] == q;
    assert |p + ".table"| == |q + ".table"| ==> |p| == |q|;
    if p == q {
      PathIsInjective(a, b);
    }
  }

  // A plan node is flagged for a filesort or a temporary table if and only if it has the field
  // and the field is true; scans are not flagged there.
  lemma {:induction false} FlagsAtNode(read: Reading, raw: Node, at: Place)
    requires Leads(Root(raw), at)
    ensures var flags, node, y := WalkFlags(read, RootLabel(raw), Root(raw)), NodeAt(Root(raw), at),
                                  RootLabel(raw) + PathOf(at);
            && (RedFlag(y, Filesort) in flags <==>
                "using_filesort" in node.fields && node.fields["using_filesort"] == Bool(true))
            && (RedFlag(y, TempTable) in flags <==>
                "using_temporary_table" in node.fields && node.fields["using_temporary_table"] == Bool(true))
            && RedFlag(y, FullScan) !in flags && RedFlag(y, BigScan) !in flags
  {
    RaisedAt(read, raw, at, Filesort);
    RaisedAt(read, raw, at, TempTable);
    RaisedAt(read, raw, at, FullScan);
    RaisedAt(read, raw, at, BigScan);
    hide WalkFlags, Leads, NodeAt, PathOf, RootLabel, Root;
  }

  // So is the table of a node.
  lemma {:induction false} SpillsAtTable(read: Reading, raw: Node, at: Place, t: Node)
    requires Leads(Root(raw), at)
    requires "table" in NodeAt(Root(raw), at).fields && NodeAt(Root(raw), at).fields["table"] == t
    ensures var flags, y := WalkFlags(read, RootLabel(raw), Root(raw)), RootLabel(raw) + PathOf(at) + ".table";
            && (RedFlag(y, Filesort) in flags <==>
                "using_filesort" in t.fields && t.fields["using_filesort"] == Bool(true))
            && (RedFlag(y, TempTable) in flags <==>
                "using_temporary_table" in t.fields && t.fields["using_temporary_table"] == Bool(true))
  {
    RaisedAt(read, raw, at, Filesort);
    RaisedAt(read, raw, at, TempTable);
    hide WalkFlags, Leads, NodeAt, PathOf, RootLabel, Root;
  }

  // Besides, a table is flagged for a full scan of a thousand rows or more, and for a scan that
  // reads at least a hundred times what it produces.
  lemma {:induction false} ScansAtTable(read: Reading, raw: Node, at: Place, t: Node)
    requires Leads(Root(raw), at)
    requires "table" in NodeAt(Root(raw), at).fields && NodeAt(Root(raw), at).fields["table"] == t
    ensures var flags, y := WalkFlags(read, RootLabel(raw), Root(raw)), RootLabel(raw) + PathOf(at) + ".table";
            && (RedFlag(y, FullScan) in flags <==>
                && "access_type" in t.fields && t.fields["access_type"] == Str("ALL")
                && "rows_examined_per_scan" in t.fields && read(t.fields["rows_examined_per_scan"]) >= 1000)
            && (RedFlag(y, BigScan) in flags <==>
                && "rows_produced_per_join" in t.fields && read(t.fields["rows_produced_per_join"]) > 0
                && (if "rows_examined_per_scan" in t.fields then read(t.fields["rows_examined_per_scan"]) else 0)
                   >= AsInt64(read(t.fields["rows_produced_per_join"]) * 100))
  {
    RaisedAt(read, raw, at, FullScan);
    RaisedAt(read, raw, at, BigScan);
    hide WalkFlags, Leads, NodeAt, PathOf, RootLabel, Root, AsInt64;
  }

  // A node without a table that is an object has no flag at that path.
  lemma {:induction false} NoTableNoFlag(read: Reading, raw: Node, at: Place, kind: FlagKind)
    requires Leads(Root(raw), at)
    requires "table" !in NodeAt(Root(raw), at).fields || !NodeAt(Root(raw), at).fields["table"].Obj?
    ensures RedFlag(RootLabel(raw) + PathOf(at) + ".table", kind) !in WalkFlags(read, RootLabel(raw), Root(raw))
  {
    RaisedAt(read, raw, at, kind);
    hide WalkFlags, Leads, NodeAt, PathOf, RootLabel, Root;
  }

  // In particular a plan with both fields absent or not true, at every node and its table, has
  // no flag of either kind.
  lemma {:induction false} NoSpills(read: Reading, raw: Node, f: RedFlag)
    requires forall at: Place, k: string ::
               Leads(Root(raw), at) && (k == "using_filesort" || k == "using_temporary_table") ==>
                 var node := NodeAt(Root(raw), at);
                 && (k in node.fields ==> node.fields[k] != Bool(true))
                 && ("table" in node.fields && node.fields["table"].Obj? && k in node.fields["table"].fields ==>
                       node.fields["table"].fields[k] != Bool(true))
    requires f.kind == Filesort || f.kind == TempTable
    ensures f !in WalkFlags(read, RootLabel(raw), Root(raw))
  {
    hide WalkFlags, Leads, NodeAt, PathOf, RootLabel, Root;
    if f in WalkFlags(read, RootLabel(raw), Root(raw)) {
      FlagHasPlace(read, raw, f);
      var at: Place :| Leads(Root(raw), at) &&
        (f.nodePath == RootLabel(raw) + PathOf(at) || f.nodePath == RootLabel(raw) + PathOf(at) + ".table");
      RaisedAt(read, raw, at, f.kind);
    }
  }

  // The places themselves: the four sub-blocks and the objects in the two lists, each under its
  // own name.
  lemma {:induction false} StepsAre(p: Node, at: Place)
    ensures Leads(p, at) <==>
            || at == []
            || (exists k: string, rest: Place ::
                  && at == [Block(k)] + rest && k in p.fields && p.fields[k].Obj?
                  && k in {"ordering_operation", "grouping_operation", "duplicates_removal", "windowing"}
                  && Leads(p.fields[k], rest))
            || (exists k: string, i: nat, rest: Place ::
                  && at == [Item(k, i)] + rest && k in p.fields && p.fields[k].Arr?
                  && k in {"nested_loop", "query_specifications"}
                  && i < |p.fields[k].items| && p.fields[k].items[i].Obj?
                  && Leads(p.fields[k].items[i], rest))
  {
    if at != [] {
      assert at == [at[0]] + at[1..];
      match at[0] {
        case Block(k) => assert at == [Block(k)] + at[1..];
        case Item(k, i) => assert at == [Item(k, i)] + at[1..];
      }
    }
  }

  // Each step has its own piece of the path, and leads to its own node.
  lemma {:induction false} PathsAre(p: Node, k: string, i: nat, rest: Place)
    ensures PathOf([]) == "" && NodeAt(p, []) == p
    ensures PathOf([Block(k)] + rest) == "." + k + PathOf(rest)
    ensures PathOf([Item(k, i)] + rest) == "." + (k + "[" + Dec(i) + "]") + PathOf(rest)
    ensures Leads(p, [Block(k)] + rest) ==> NodeAt(p, [Block(k)] + rest) == NodeAt(p.fields[k], rest)
    ensures Leads(p, [Item(k, i)] + rest) ==> NodeAt(p, [Item(k, i)] + rest) == NodeAt(p.fields[k].items[i], rest)
  {
    assert ([Block(k)] + rest)[1..] == rest && ([Item(k, i)] + rest)[1..] == rest;
  }

  // The order of the list: the flags of the node's table, its own, those of its sub-blocks and
  // then of its lists.
  lemma {:induction false} FlagsInOrder(read: Reading, x: string, p: Node)
    ensures WalkFlags(read, x, p) ==
            (if "table" in p.fields && p.fields["table"].Obj?
             then TableFlags(read, x + ".table", p.fields["table"]) else [])
            + OwnFlags(x, p)
            + FlagsUnder(read, x, p, "ordering_operation") + FlagsUnder(read, x, p, "grouping_operation")
            + FlagsUnder(read, x, p, "duplicates_removal") + FlagsUnder(read, x, p, "windowing")
            + ListFlags(read, x, p, "nested_loop") + ListFlags(read, x, p, "query_specifications")
  {
    FourBlocks(read, x, p);
    hide TableFlags, OwnFlags, ListFlags, BlockFlags, FlagsUnder;
  }

  function FlagsUnder(read: Reading, x: string, p: Node, k: string): seq<RedFlag> {
    if k in p.fields && p.fields[k].Obj? then WalkFlags(read, x + "." + k, p.fields[k]) else []
  }

  lemma {:induction false} FourBlocks(read: Reading, x: string, p: Node)
    ensures BlockFlags(read, x, p, SUB_BLOCKS) ==
            FlagsUnder(read, x, p, "ordering_operation") + FlagsUnder(read, x, p, "grouping_operation")
            + FlagsUnder(read, x, p, "duplicates_removal") + FlagsUnder(read, x, p, "windowing")
  {
    FourOf(read, x, p, "ordering_operation", "grouping_operation", "duplicates_removal", "windowing");
    hide BlockFlags, FlagsUnder;
  }

  lemma {:induction false} FourOf(read: Reading, x: string, p: Node, a: string, b: string, c: string, d: string)
    ensures BlockFlags(read, x, p, [a, b, c, d]) ==
            FlagsUnder(read, x, p, a) + FlagsUnder(read, x, p, b)
            + FlagsUnder(read, x, p, c) + FlagsUnder(read, x, p, d)
  {
    FirstOf(read, x, p, [a, b, c, d], [b, c, d]);
    FirstOf(read, x, p, [b, c, d], [c, d]);
    FirstOf(read, x, p, [c, d], [d]);
    FirstOf(read, x, p, [d], []);
    assert BlockFlags(read, x, p, []) == [];
    hide *;
    Regroup(FlagsUnder(read, x, p, a), FlagsUnder(read, x, p, b), FlagsUnder(read, x, p, c),
            FlagsUnder(read, x, p, d));
  }

  lemma Regroup(a: seq<RedFlag>, b: seq<RedFlag>, c: seq<RedFlag>, d: seq<RedFlag>)
    ensures a + (b + (c + (d + []))) == a + b + c + d
  {
  }

  lemma {:induction false} FirstOf(read: Reading, x: string, p: Node, ks: seq<string>, rest: seq<string>)
    requires ks != [] && ks[1..] == rest
    ensures BlockFlags(read, x, p, ks) == FlagsUnder(read, x, p, ks[0]) + BlockFlags(read, x, p, rest)
  {
    hide WalkFlags;
  }

  // At a table scans come before spills, each kind in its own order.
  lemma TableFlagsInOrder(read: Reading, x: string, t: Node, i: nat, j: nat)
    requires i < j < |TableFlags(read, x, t)|
    ensures match (TableFlags(read, x, t)[i].kind, TableFlags(read, x, t)[j].kind)
            case (FullScan, k) => k != FullScan
            case (BigScan, k) => k == Filesort || k == TempTable
            case (Filesort, k) => k == TempTable
            case (TempTable, _) => false
  {
    hide AsInt64;
  }
}
