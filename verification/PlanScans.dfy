/** When plans with one fingerprint raise the same flags, scans included. */
module PlanScans {
  import opened Decimals
  import opened PlanJson
  import opened PlanReadability
  import opened PlanFingerprint
  import opened PlanFlags
  import opened PlanFlagProofs
  import opened PlanPlaces

  // The two threshold tests, which look at row counts.
  ghost predicate SameTests(read: Reading, t: Node, u: Node) {
    && (TableCondition(read, t, FullScan) <==> TableCondition(read, u, FullScan))
    && (TableCondition(read, t, BigScan) <==> TableCondition(read, u, BigScan))
  }

  // Every table of p has a counterpart in q at which they agree.
  ghost predicate SameScans(read: Reading, p: Node, q: Node) {
    forall at: Place :: Leads(p, at) ==> Leads(q, at) && SameTableTests(read, NodeAt(p, at), NodeAt(q, at))
  }

  ghost predicate SameTableTests(read: Reading, p: Node, q: Node) {
    HasTable(p) ==> HasTable(q) && SameTests(read, p.fields["table"], q.fields["table"])
  }

  // Plans with one skeleton correspond place by place.
  lemma {:induction false} SamePlaces(p: Node, q: Node, at: Place)
    requires SamePlan(p, q)
    ensures Leads(p, at) <==> Leads(q, at)
    ensures Leads(p, at) ==> SamePlan(NodeAt(p, at), NodeAt(q, at))
    decreases |at|
  {
    hide SamePlan, HasChild, Child;
    if at == [] {
    } else {
      SameStep(p, q, at[0]);
      if HasChild(p, at[0]) {
        SamePlaces(Child(p, at[0]), Child(q, at[0]), at[1..]);
      }
    }
  }

  lemma {:induction false} SameStep(p: Node, q: Node, s: Step)
    requires SamePlan(p, q)
    ensures HasChild(p, s) <==> HasChild(q, s)
    ensures HasChild(p, s) ==> SamePlan(Child(p, s), Child(q, s))
  {
    SameNested(p, q);
    hide SamePlan, SameChildAt, SameItem;
    if s.key in NESTED_KEYS {
      ChildCases(p, q, s.key);
      if s.Item? && s.key in p.fields && p.fields[s.key].Arr? && s.index < |p.fields[s.key].items| {
        ItemCases(p.fields[s.key].items[s.index], q.fields[s.key].items[s.index]);
      }
    } else {
      NestedKeys(s);
    }
  }

  lemma NestedKeys(s: Step)
    ensures IsKey(s) ==> s.key in NESTED_KEYS
  {
  }

  lemma {:induction false} SameTables(p: Node, q: Node)
    requires SamePlan(p, q)
    ensures HasTable(p) <==> HasTable(q)
    ensures HasTable(p) ==> SamePlan(p.fields["table"], q.fields["table"])
  {
    SameNested(p, q);
    assert "table" in NESTED_KEYS;
    ChildCases(p, q, "table");
    hide SamePlan, SameChildAt;
  }

  // Agreement gives equal flags.

  lemma ScansBelow(read: Reading, p: Node, q: Node, s: Step)
    requires SameScans(read, p, q) && HasChild(p, s) && HasChild(q, s)
    ensures SameScans(read, Child(p, s), Child(q, s))
  {
    hide HasChild, Child, SameTableTests;
    forall at: Place | Leads(Child(p, s), at)
      ensures Leads(Child(q, s), at) && SameTableTests(read, NodeAt(Child(p, s), at), NodeAt(Child(q, s), at))
    {
      assert Leads(q, [s] + at) && SameTableTests(read, NodeAt(p, [s] + at), NodeAt(q, [s] + at));
      assert ([s] + at)[1..] == at;
    }
  }

  lemma {:induction false} SameFlags(read: Reading, path: string, p: Node, q: Node)
    requires SamePlan(p, q) && SameScans(read, p, q)
    ensures WalkFlags(read, path, p) == WalkFlags(read, path, q)
    decreases p, 1
  {
    SameOwn(path, p, q);
    SameTables(p, q);
    if HasTable(p) {
      assert Leads(p, []) && Leads(q, []) && SameTableTests(read, NodeAt(p, []), NodeAt(q, []));
    }
    hide SamePlan, SameScans, BlockFlags, ListFlags, TableFlags, OwnFlags;
    BlocksByName();
    SameBlockFlags(read, path, p, q, SUB_BLOCKS);
    SameListFlags(read, path, p, q, "nested_loop");
    SameListFlags(read, path, p, q, "query_specifications");
  }

  lemma {:induction false} SameBlockFlags(read: Reading, path: string, p: Node, q: Node, ks: seq<string>)
    requires SamePlan(p, q) && SameScans(read, p, q) && forall k :: k in ks ==> IsBlock(k)
    ensures BlockFlags(read, path, p, ks) == BlockFlags(read, path, q, ks)
    decreases p, 0, ks
  {
    hide SamePlan, SameScans, WalkFlags;
    if ks == [] {
    } else {
      SameBlockFlags(read, path, p, q, ks[1..]);
      var s := Block(ks[0]);
      SameStep(p, q, s);
      if HasChild(p, s) {
        ScansBelow(read, p, q, s);
        SameFlags(read, path + "." + ks[0], Child(p, s), Child(q, s));
      }
    }
  }

  lemma {:induction false} SameListFlags(read: Reading, path: string, p: Node, q: Node, k: string)
    requires SamePlan(p, q) && SameScans(read, p, q) && IsList(k)
    ensures ListFlags(read, path, p, k) == ListFlags(read, path, q, k)
    decreases p, 0
  {
    SameNested(p, q);
    hide SamePlan, SameScans, ItemFlags, SameChildAt, SameItem;
    NestedKeys(Item(k, 0));
    ChildCases(p, q, k);
    if k in p.fields && p.fields[k].Arr? {
      forall i: nat | i < |p.fields[k].items| && p.fields[k].items[i].Obj?
        ensures q.fields[k].items[i].Obj?
        ensures SamePlan(p.fields[k].items[i], q.fields[k].items[i])
                && SameScans(read, p.fields[k].items[i], q.fields[k].items[i])
      {
        SameStep(p, q, Item(k, i));
        ScansBelow(read, p, q, Item(k, i));
      }
      forall i: nat | i < |p.fields[k].items| ensures p.fields[k].items[i].Obj? <==> q.fields[k].items[i].Obj? {
        SameStep(p, q, Item(k, i));
      }
      SameItemLists(read, path + "." + k, p.fields[k].items, q.fields[k].items, |p.fields[k].items|);
    }
  }

  lemma {:induction false} SameItemLists(read: Reading, path: string, v: seq<Json>, w: seq<Json>, n: nat)
    requires n <= |v| == |w|
    requires forall i :: 0 <= i < |v| ==> (v[i].Obj? <==> w[i].Obj?)
    requires forall i :: 0 <= i < |v| && v[i].Obj? ==> SamePlan(v[i], w[i]) && SameScans(read, v[i], w[i])
    ensures ItemFlags(read, path, v, n) == ItemFlags(read, path, w, n)
    decreases v, 0, n
  {
    hide SamePlan, SameScans, WalkFlags;
    if n == 0 {
    } else {
      SameItemLists(read, path, v, w, n - 1);
      if v[n - 1].Obj? {
        SameFlags(read, path + "[" + Dec(n - 1) + "]", v[n - 1], w[n - 1]);
      }
    }
  }

  // Equal flags give agreement: the flag of a table's place is raised by no other place.

  ghost function TableFlag(path: string, at: Place, kind: FlagKind): RedFlag {
    RedFlag(path + PathOf(at) + ".table", kind)
  }

  lemma {:induction false} TableFlagMeans(read: Reading, path: string, p: Node, at: Place, kind: FlagKind)
    requires Leads(p, at) && (kind == FullScan || kind == BigScan)
    ensures TableFlag(path, at, kind) in WalkFlags(read, path, p) <==>
            HasTable(NodeAt(p, at)) && TableCondition(read, NodeAt(p, at).fields["table"], kind)
  {
    var f := TableFlag(path, at, kind);
    WalkRaises(read, path, p, f);
    hide WalkFlags, Leads, NodeAt, PathOf, IsKey;
    if b: Place :| Leads(p, b) && RaisedBy(read, path + PathOf(b), NodeAt(p, b), f) {
      assert path + PathOf(b) + ".table" == path + PathOf(at) + ".table";
      SamePrefix(path, PathOf(b), PathOf(at));
      LeadsByKeys(p, at);
      LeadsByKeys(p, b);
      PathIsInjective(b, at);
    }
    if HasTable(NodeAt(p, at)) && TableCondition(read, NodeAt(p, at).fields["table"], kind) {
      assert Leads(p, at) && RaisedBy(read, path + PathOf(at), NodeAt(p, at), f);
    }
  }

  lemma SamePrefix(path: string, a: string, b: string)
    requires path + a + ".table" == path + b + ".table"
    ensures a == b
  {
    assert |a| == |b|;
    assert a == (path + a + ".table")[|path|..|path| + |a|] && b == (path + b + ".table")[|path|..|path| + |b|];
  }

  lemma {:induction false} EqualFlagsAgree(read: Reading, path: string, p: Node, q: Node)
    requires SamePlan(p, q)
    requires WalkFlags(read, path, p) == WalkFlags(read, path, q)
    ensures SameScans(read, p, q)
  {
    hide WalkFlags, TableCondition, PathOf, Leads, NodeAt, SamePlan;
    forall at: Place | Leads(p, at) ensures Leads(q, at) && SameTableTests(read, NodeAt(p, at), NodeAt(q, at)) {
      SamePlaces(p, q, at);
      SameTables(NodeAt(p, at), NodeAt(q, at));
      TableFlagMeans(read, path, p, at, FullScan);
      TableFlagMeans(read, path, q, at, FullScan);
      TableFlagMeans(read, path, p, at, BigScan);
      TableFlagMeans(read, path, q, at, BigScan);
    }
  }

  // So for plans with one skeleton the full flag lists are equal exactly if both threshold
  // tests agree at every table.
  lemma {:induction false} SameFlagsIff(read: Reading, path: string, p: Node, q: Node)
    requires SamePlan(p, q)
    ensures WalkFlags(read, path, p) == WalkFlags(read, path, q) <==> SameScans(read, p, q)
  {
    hide SamePlan, SameScans, WalkFlags;
    if SameScans(read, p, q) {
      SameFlags(read, path, p, q);
    }
    if WalkFlags(read, path, p) == WalkFlags(read, path, q) {
      EqualFlagsAgree(read, path, p, q);
    }
  }

  // For plans with one fingerprint they must also be wrapped alike, or raise nothing at all.
  lemma {:induction false} FingerprintFixesFlagsIff(read: Reading, d: Domain, p: Node, q: Node)
    requires Readable(d) && PlainPlan(d, Root(p)) && PlainPlan(d, Root(q))
    requires Canonical(Root(p)) == Canonical(Root(q))
    ensures var f, g := WalkFlags(read, RootLabel(p), Root(p)), WalkFlags(read, RootLabel(q), Root(q));
            f == g <==> SameScans(read, Root(p), Root(q)) && (f == [] || (Wrapped(p) <==> Wrapped(q)))
  {
    hide Canonical, SamePlan, SameScans, WalkFlags, PlainPlan, Readable;
    CanonicalIff(d, Root(p), Root(q));
    SameFlagsIff(read, "", Root(p), Root(q));
    SameFlagsIff(read, RootLabel(p), Root(p), Root(q));
    LabelledFlags(read, RootLabel(p), Root(p));
    LabelledFlags(read, RootLabel(q), Root(q));
    var f, g := WalkFlags(read, RootLabel(p), Root(p)), WalkFlags(read, RootLabel(q), Root(q));
    if f == g && f != [] {
      assert f[0].nodePath[0] == RootLabel(p)[0] && g[0].nodePath[0] == RootLabel(q)[0];
    }
  }

  lemma {:induction false} LabelledFlags(read: Reading, a: string, p: Node)
    ensures WalkFlags(read, a, p) == Relabel(a, WalkFlags(read, "", p))
  {
    assert a + "" == a;
    RelabelWalk(read, a, "", p);
  }

  // One plan with a filesort, wrapped in a query block and not: one fingerprint, but the flags
  // carry different paths.
  lemma WrappingChangesFlags(read: Reading)
    ensures var p := OneField("using_filesort", Bool(true));
            var q := OneField("query_block", p);
            && Root(p) == Root(q) == p && Wrapped(q) && !Wrapped(p)
            && SpillsOf(WalkFlags(read, RootLabel(p), Root(p))) == [RedFlag("(root)", Filesort)]
            && SpillsOf(WalkFlags(read, RootLabel(q), Root(q))) == [RedFlag("query_block", Filesort)]
  {
    OnlyFilesort(read, "(root)");
    OnlyFilesort(read, "query_block");
    hide WalkFlags, SpillsOf;
  }

  lemma {:induction false} OnlyFilesort(read: Reading, path: string)
    ensures SpillsOf(WalkFlags(read, path, OneField("using_filesort", Bool(true)))) == [RedFlag(path, Filesort)]
  {
    var p := OneField("using_filesort", Bool(true));
    hide TableFlags, ItemFlags, BlockFlags, SpillsOf;
    NoBlocks(read, path, p, SUB_BLOCKS);
    assert WalkFlags(read, path, p) == When(true, path, Filesort);
    WhenSpills(true, path, Filesort);
  }
}
