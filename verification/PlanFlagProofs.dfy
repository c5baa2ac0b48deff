/** What a fingerprint says about the red flags: everything about filesorts and temporary
    tables, nothing about scans. */
module PlanFlagProofs {
  import opened Sorting
  import opened Decimals
  import opened Signed
  import opened PlanJson
  import opened PlanReadability
  import opened PlanFingerprint
  import opened PlanFlags

  predicate Spills(f: RedFlag) {
    f.kind == Filesort || f.kind == TempTable
  }

  // The spill flags among fs, in order.
  function SpillsOf(fs: seq<RedFlag>): seq<RedFlag> {
    Filter(Spills, fs)
  }

  lemma SpillsConcat(a: seq<RedFlag>, b: seq<RedFlag>)
    ensures SpillsOf(a + b) == SpillsOf(a) + SpillsOf(b)
  {
    FilterConcat(Spills, a, b);
  }

  lemma {:induction false} SameSpills(read: Reading, path: string, p: Node, q: Node)
    requires SamePlan(p, q)
    ensures SpillsOf(WalkFlags(read, path, p)) == SpillsOf(WalkFlags(read, path, q))
    decreases p, 1
  {
    hide SamePlan, SpillsOf, BlockFlags, ListFlags, TableFlags, OwnFlags;
    SameOwn(path, p, q);
    SameTableSpills(read, path, p, q);
    SameNested(p, q);
    SameBlocks(read, path, p, q, SUB_BLOCKS);
    SameList(read, path, p, q, "nested_loop");
    SameList(read, path, p, q, "query_specifications");
    SplitWalk(read, path, p);
    SplitWalk(read, path, q);
  }

  ghost function TablePart(read: Reading, path: string, p: Node): seq<RedFlag> {
    if HasTable(p) then TableFlags(read, path + ".table", p.fields["table"]) else []
  }

  lemma {:induction false} SplitWalk(read: Reading, path: string, p: Node)
    ensures SpillsOf(WalkFlags(read, path, p)) ==
            SpillsOf(TablePart(read, path, p)) + SpillsOf(OwnFlags(path, p)) +
            SpillsOf(BlockFlags(read, path, p, SUB_BLOCKS)) +
            SpillsOf(ListFlags(read, path, p, "nested_loop")) +
            SpillsOf(ListFlags(read, path, p, "query_specifications"))
  {
    hide SpillsOf, BlockFlags, ListFlags, TableFlags, OwnFlags;
    var a, b, c := TablePart(read, path, p), OwnFlags(path, p), BlockFlags(read, path, p, SUB_BLOCKS);
    var d, e := ListFlags(read, path, p, "nested_loop"), ListFlags(read, path, p, "query_specifications");
    assert WalkFlags(read, path, p) == a + b + c + d + e;
    SpillsConcat(a, b);
    SpillsConcat(a + b, c);
    SpillsConcat(a + b + c, d);
    SpillsConcat(a + b + c + d, e);
  }

  lemma {:induction false} SameOwn(path: string, p: Node, q: Node)
    requires SamePlan(p, q)
    ensures OwnFlags(path, p) == OwnFlags(path, q)
  {
    hide SameChildAt;
    assert SameField(p, q, "using_filesort") && SameField(p, q, "using_temporary_table");
  }

  lemma {:induction false} SameNested(p: Node, q: Node)
    requires SamePlan(p, q)
    ensures forall k :: k in NESTED_KEYS ==> SameChildAt(p, q, k)
  {
    hide SameChildAt, SameField;
  }

  // Corresponding children are of one kind and agree piece by piece.
  lemma {:induction false} ChildCases(p: Node, q: Node, k: string)
    requires SameChildAt(p, q, k)
    ensures k in p.fields <==> k in q.fields
    ensures k in p.fields ==>
              var v, w := p.fields[k], q.fields[k];
              && (v.Obj? <==> w.Obj?) && (v.Arr? <==> w.Arr?)
              && (v.Obj? ==> SamePlan(v, w))
              && (v.Arr? ==>
                    |v.items| == |w.items| && forall i :: 0 <= i < |v.items| ==> SameItem(v.items[i], w.items[i]))
  {
    hide SamePlan, SameItem;
    if k in p.fields {
      assert SameChild(p.fields[k], q.fields[k]);
      if p.fields[k].Arr? && q.fields[k].Arr? {
      } else if p.fields[k].Obj? && q.fields[k].Obj? {
      } else {
        assert p.fields[k] == q.fields[k];
      }
    }
  }

  lemma {:induction false} ItemCases(v: Json, w: Json)
    requires SameItem(v, w)
    ensures (v.Obj? <==> w.Obj?) && (v.Obj? ==> SamePlan(v, w))
  {
    hide SamePlan;
  }

  lemma {:induction false} SameTableSpills(read: Reading, path: string, p: Node, q: Node)
    requires SamePlan(p, q)
    ensures SpillsOf(TablePart(read, path, p)) == SpillsOf(TablePart(read, path, q))
  {
    SameNested(p, q);
    assert "table" in NESTED_KEYS;
    ChildCases(p, q, "table");
    hide SamePlan, SameChildAt, SameChild, TableFlags, SpillsOf;
    if HasTable(p) {
      var t, u := p.fields["table"], q.fields["table"];
      SameOwn(path + ".table", t, u);
      TableSpills(read, path + ".table", t);
      TableSpills(read, path + ".table", u);
    }
  }

  lemma TableSpills(read: Reading, path: string, t: Node)
    ensures SpillsOf(TableFlags(read, path, t)) == OwnFlags(path, t)
  {
    var scanned, produced := NumField(read, t, "rows_examined_per_scan"), NumField(read, t, "rows_produced_per_join");
    var full := IsText(t, "access_type", "ALL") && scanned >= FULL_SCAN_ROW_THRESHOLD;
    var big := produced > 0 && scanned >= AsInt64(produced * SCAN_PRODUCED_RATIO_THRESHOLD);
    assert TableFlags(read, path, t) == When(full, path, FullScan) + When(big, path, BigScan) + OwnFlags(path, t);
    OnlySpills(path, full, big, IsTrue(t, "using_filesort"), IsTrue(t, "using_temporary_table"));
  }

  lemma OnlySpills(path: string, full: bool, big: bool, sort: bool, temp: bool)
    ensures SpillsOf(When(full, path, FullScan) + When(big, path, BigScan) +
                     (When(sort, path, Filesort) + When(temp, path, TempTable))) ==
            When(sort, path, Filesort) + When(temp, path, TempTable)
  {
    var a, b, c, d := When(full, path, FullScan), When(big, path, BigScan), When(sort, path, Filesort),
      When(temp, path, TempTable);
    WhenSpills(full, path, FullScan);
    WhenSpills(big, path, BigScan);
    WhenSpills(sort, path, Filesort);
    WhenSpills(temp, path, TempTable);
    hide SpillsOf, When;
    SpillsConcat(a + b, c + d);
    SpillsConcat(a, b);
    SpillsConcat(c, d);
  }

  lemma WhenSpills(b: bool, path: string, kind: FlagKind)
    ensures SpillsOf(When(b, path, kind)) == if kind == Filesort || kind == TempTable then When(b, path, kind) else []
  {
    if b {
      FilterOne(Spills, RedFlag(path, kind));
    }
  }

  lemma {:induction false} SameBlocks(read: Reading, path: string, p: Node, q: Node, ks: seq<string>)
    requires forall k :: k in ks ==> k in NESTED_KEYS
    requires forall k :: k in NESTED_KEYS ==> SameChildAt(p, q, k)
    ensures SpillsOf(BlockFlags(read, path, p, ks)) == SpillsOf(BlockFlags(read, path, q, ks))
    decreases p, 0, ks
  {
    hide SpillsOf, SamePlan, SameChildAt, SameItem, WalkFlags;
    if ks == [] {
    } else {
      var k := ks[0];
      ChildCases(p, q, k);
      SameBlocks(read, path, p, q, ks[1..]);
      if k in p.fields && p.fields[k].Obj? {
        SameSpills(read, path + "." + k, p.fields[k], q.fields[k]);
        SpillsConcat(WalkFlags(read, path + "." + k, p.fields[k]), BlockFlags(read, path, p, ks[1..]));
        SpillsConcat(WalkFlags(read, path + "." + k, q.fields[k]), BlockFlags(read, path, q, ks[1..]));
      } else {
        assert [] + BlockFlags(read, path, p, ks[1..]) == BlockFlags(read, path, p, ks[1..]);
        assert [] + BlockFlags(read, path, q, ks[1..]) == BlockFlags(read, path, q, ks[1..]);
      }
    }
  }

  lemma {:induction false} SameList(read: Reading, path: string, p: Node, q: Node, k: string)
    requires k in NESTED_KEYS
    requires forall k :: k in NESTED_KEYS ==> SameChildAt(p, q, k)
    ensures SpillsOf(ListFlags(read, path, p, k)) == SpillsOf(ListFlags(read, path, q, k))
    decreases p, 0
  {
    hide SpillsOf, SamePlan, SameChildAt, SameItem, ItemFlags;
    ChildCases(p, q, k);
    if k in p.fields && p.fields[k].Arr? {
      SameItemFlags(read, path + "." + k, p.fields[k].items, q.fields[k].items, |p.fields[k].items|);
    }
  }

  lemma {:induction false} SameItemFlags(read: Reading, path: string, v: seq<Json>, w: seq<Json>, n: nat)
    requires n <= |v| == |w| && forall i :: 0 <= i < |v| ==> SameItem(v[i], w[i])
    ensures SpillsOf(ItemFlags(read, path, v, n)) == SpillsOf(ItemFlags(read, path, w, n))
    decreases v, 0, n
  {
    hide SpillsOf, SamePlan, SameChildAt, SameItem, WalkFlags;
    if n == 0 {
    } else {
      ItemCases(v[n - 1], w[n - 1]);
      SameItemFlags(read, path, v, w, n - 1);
      if v[n - 1].Obj? {
        var at := path + "[" + Dec(n - 1) + "]";
        SameSpills(read, at, v[n - 1], w[n - 1]);
        SpillsConcat(ItemFlags(read, path, v, n - 1), WalkFlags(read, at, v[n - 1]));
        SpillsConcat(ItemFlags(read, path, w, n - 1), WalkFlags(read, at, w[n - 1]));
      } else {
        assert ItemFlags(read, path, v, n - 1) + [] == ItemFlags(read, path, v, n - 1);
        assert ItemFlags(read, path, w, n - 1) + [] == ItemFlags(read, path, w, n - 1);
      }
    }
  }

  // The label of a walk is just a prefix of every path.

  function Relabel(a: string, fs: seq<RedFlag>): seq<RedFlag> {
    seq(|fs|, i requires 0 <= i < |fs| => RedFlag(a + fs[i].nodePath, fs[i].kind))
  }

  lemma RelabelConcat(a: string, f: seq<RedFlag>, g: seq<RedFlag>)
    ensures Relabel(a, f + g) == Relabel(a, f) + Relabel(a, g)
  {
  }

  lemma {:induction false} RelabelWalk(read: Reading, a: string, x: string, p: Node)
    ensures WalkFlags(read, a + x, p) == Relabel(a, WalkFlags(read, x, p))
    decreases p, 1
  {
    assert (a + x) + ".table" == a + (x + ".table");
    assert TablePart(read, a + x, p) == Relabel(a, TablePart(read, x, p));
    assert OwnFlags(a + x, p) == Relabel(a, OwnFlags(x, p));
    hide Relabel, BlockFlags, ListFlags, TableFlags, OwnFlags;
    RelabelBlocks(read, a, x, p, SUB_BLOCKS);
    RelabelList(read, a, x, p, "nested_loop");
    RelabelList(read, a, x, p, "query_specifications");
    var f, g, h := TablePart(read, x, p), OwnFlags(x, p), BlockFlags(read, x, p, SUB_BLOCKS);
    var k, l := ListFlags(read, x, p, "nested_loop"), ListFlags(read, x, p, "query_specifications");
    assert WalkFlags(read, x, p) == f + g + h + k + l;
    RelabelConcat(a, f, g);
    RelabelConcat(a, f + g, h);
    RelabelConcat(a, f + g + h, k);
    RelabelConcat(a, f + g + h + k, l);
  }

  lemma {:induction false} RelabelBlocks(read: Reading, a: string, x: string, p: Node, ks: seq<string>)
    ensures BlockFlags(read, a + x, p, ks) == Relabel(a, BlockFlags(read, x, p, ks))
    decreases p, 0, ks
  {
    hide WalkFlags;
    if ks == [] {
    } else {
      RelabelBlocks(read, a, x, p, ks[1..]);
      if ks[0] in p.fields && p.fields[ks[0]].Obj? {
        assert (a + x) + "." + ks[0] == a + (x + "." + ks[0]);
        RelabelWalk(read, a, x + "." + ks[0], p.fields[ks[0]]);
        RelabelConcat(a, WalkFlags(read, x + "." + ks[0], p.fields[ks[0]]), BlockFlags(read, x, p, ks[1..]));
      }
    }
  }

  lemma {:induction false} RelabelList(read: Reading, a: string, x: string, p: Node, k: string)
    ensures ListFlags(read, a + x, p, k) == Relabel(a, ListFlags(read, x, p, k))
    decreases p, 0
  {
    hide ItemFlags;
    if k in p.fields && p.fields[k].Arr? {
      assert (a + x) + "." + k == a + (x + "." + k);
      RelabelItems(read, a, x + "." + k, p.fields[k].items, |p.fields[k].items|);
    }
  }

  lemma {:induction false} RelabelItems(read: Reading, a: string, x: string, v: seq<Json>, n: nat)
    requires n <= |v|
    ensures ItemFlags(read, a + x, v, n) == Relabel(a, ItemFlags(read, x, v, n))
    decreases v, 0, n
  {
    hide WalkFlags;
    if n == 0 {
    } else {
      RelabelItems(read, a, x, v, n - 1);
      if v[n - 1].Obj? {
        var at := x + "[" + Dec(n - 1) + "]";
        assert (a + x) + "[" + Dec(n - 1) + "]" == a + at;
        RelabelWalk(read, a, at, v[n - 1]);
        RelabelConcat(a, ItemFlags(read, x, v, n - 1), WalkFlags(read, at, v[n - 1]));
      }
    }
  }

  lemma {:induction false} RelabelSpills(a: string, fs: seq<RedFlag>)
    ensures SpillsOf(Relabel(a, fs)) == Relabel(a, SpillsOf(fs))
  {
    if fs == [] {
    } else {
      var n := |fs| - 1;
      RelabelSpills(a, fs[..n]);
      assert Relabel(a, fs)[..n] == Relabel(a, fs[..n]);
    }
  }

  // Equal fingerprints give equal spill flags, at the same paths and in the same order, when
  // both plans come wrapped in a query block or neither does. The label at the head of every
  // path is not part of the fingerprint, so across that difference they agree only if empty.
  lemma {:induction false} FingerprintFixesSpills(read: Reading, d: Domain, p: Node, q: Node)
    requires Readable(d) && PlainPlan(d, Root(p)) && PlainPlan(d, Root(q))
    requires Canonical(Root(p)) == Canonical(Root(q))
    ensures var f, g := SpillsOf(WalkFlags(read, RootLabel(p), Root(p))),
            SpillsOf(WalkFlags(read, RootLabel(q), Root(q)));
            && |f| == |g|
            && (f == g <==> f == [] || (Wrapped(p) <==> Wrapped(q)))
  {
    CanonicalIff(d, Root(p), Root(q));
    hide Canonical, SamePlan, WalkFlags, SpillsOf, PlainPlan;
    SameSpills(read, "", Root(p), Root(q));
    var spills := SpillsOf(WalkFlags(read, "", Root(p)));
    LabelledSpills(read, RootLabel(p), Root(p));
    LabelledSpills(read, RootLabel(q), Root(q));
    if spills != [] {
      assert Relabel(RootLabel(p), spills)[0].nodePath[0] == RootLabel(p)[0];
      assert Relabel(RootLabel(q), spills)[0].nodePath[0] == RootLabel(q)[0];
    }
  }

  lemma {:induction false} LabelledSpills(read: Reading, a: string, p: Node)
    ensures SpillsOf(WalkFlags(read, a, p)) == Relabel(a, SpillsOf(WalkFlags(read, "", p)))
  {
    assert a + "" == a;
    RelabelWalk(read, a, "", p);
    RelabelSpills(a, WalkFlags(read, "", p));
  }

  // Scan flags rest on row counts, which the fingerprint leaves out on purpose.
  lemma FingerprintLeavesScansOpen(read: Reading, few: Json, many: Json)
    requires read(few) < FULL_SCAN_ROW_THRESHOLD <= read(many)
    ensures exists p: Node, q: Node :: SamePlan(p, q) && WalkFlags(read, "", p) != WalkFlags(read, "", q)
  {
    SameScan(few, many);
    ScanFlags(read, few);
    ScanFlags(read, many);
    var p, q := OneField("table", Scan(few)), OneField("table", Scan(many));
    OnlyTable(read, Scan(few));
    OnlyTable(read, Scan(many));
    hide *;
    SameUnderTable(Scan(few), Scan(many));
    assert SamePlan(p, q) && WalkFlags(read, "", p) != WalkFlags(read, "", q);
  }

  lemma ScanFlags(read: Reading, rows: Json)
    ensures TableFlags(read, ".table", Scan(rows)) ==
            if read(rows) >= FULL_SCAN_ROW_THRESHOLD then [RedFlag(".table", FullScan)] else []
  {
  }

  function Scan(rows: Json): Node {
    Obj(map["access_type" := Str("ALL"), "rows_examined_per_scan" := rows])
  }

  lemma SameScan(few: Json, many: Json)
    ensures SamePlan(Scan(few), Scan(many))
  {
    hide SameChild;
    assert "rows_examined_per_scan" !in CANONICAL_KEYS;
    assert "rows_examined_per_scan" !in NESTED_KEYS && "access_type" !in NESTED_KEYS;
  }

  lemma {:induction false} SameUnderTable(t: Node, u: Node)
    requires SamePlan(t, u)
    ensures SamePlan(OneField("table", t), OneField("table", u))
  {
    assert "table" !in CANONICAL_KEYS;
    assert SameChild(t, u);
  }

  lemma OnlyTable(read: Reading, t: Node)
    ensures WalkFlags(read, "", OneField("table", t)) == TableFlags(read, ".table", t)
  {
    hide TableFlags, ItemFlags;
    NoBlocks(read, "", OneField("table", t), SUB_BLOCKS);
    assert "" + ".table" == ".table";
  }

  lemma {:induction false} NoBlocks(read: Reading, path: string, p: Node, ks: seq<string>)
    requires forall k :: k in ks ==> k !in p.fields
    ensures BlockFlags(read, path, p, ks) == []
  {
    if ks == [] {
    } else {
      NoBlocks(read, path, p, ks[1..]);
    }
  }
}
