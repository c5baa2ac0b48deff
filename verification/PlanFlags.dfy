/** The red flags of a plan: full scans, bad scan ratios, filesorts and temporary tables, each
    with the path of the plan node it was seen at. */
module PlanFlags {
  import opened Decimals
  import opened Signed
  import opened PlanJson

  datatype FlagKind = FullScan | BigScan | Filesort | TempTable

  datatype RedFlag = RedFlag(nodePath: string, kind: FlagKind)

  const FULL_SCAN_ROW_THRESHOLD := 1000
  const SCAN_PRODUCED_RATIO_THRESHOLD := 100

  // How a present value reads as a 64-bit integer: numbers are truncated, strings are parsed,
  // and everything else reads as 0.
  type Reading = Json -> Int64

  function NumField(read: Reading, node: Node, k: string): Int64 {
    if k in node.fields then read(node.fields[k]) else 0
  }

  predicate IsTrue(node: Node, k: string) {
    k in node.fields && node.fields[k] == Bool(true)
  }

  predicate IsText(node: Node, k: string, s: string) {
    k in node.fields && node.fields[k] == Str(s)
  }

  function When(b: bool, path: string, kind: FlagKind): seq<RedFlag> {
    if b then [RedFlag(path, kind)] else []
  }

  function TableFlags(read: Reading, path: string, t: Node): seq<RedFlag> {
    var scanned, produced := NumField(read, t, "rows_examined_per_scan"), NumField(read, t, "rows_produced_per_join");
    When(IsText(t, "access_type", "ALL") && scanned >= FULL_SCAN_ROW_THRESHOLD, path, FullScan)
    + When(produced > 0 && scanned >= AsInt64(produced * SCAN_PRODUCED_RATIO_THRESHOLD), path, BigScan)
    + OwnFlags(path, t)
  }

  function OwnFlags(path: string, node: Node): seq<RedFlag> {
    When(IsTrue(node, "using_filesort"), path, Filesort)
    + When(IsTrue(node, "using_temporary_table"), path, TempTable)
  }

  const SUB_BLOCKS := ["ordering_operation", "grouping_operation", "duplicates_removal", "windowing"]

  predicate HasTable(node: Node) {
    "table" in node.fields && node.fields["table"].Obj?
  }

  function WalkFlags(read: Reading, path: string, node: Node): seq<RedFlag>
    decreases node, 1
  {
    (if HasTable(node) then TableFlags(read, path + ".table", node.fields["table"]) else [])
    + OwnFlags(path, node)
    + BlockFlags(read, path, node, SUB_BLOCKS)
    + ListFlags(read, path, node, "nested_loop")
    + ListFlags(read, path, node, "query_specifications")
  }

  function BlockFlags(read: Reading, path: string, node: Node, ks: seq<string>): seq<RedFlag>
    decreases node, 0, ks
  {
    if ks == [] then []
    else
      (if ks[0] in node.fields && node.fields[ks[0]].Obj?
       then WalkFlags(read, path + "." + ks[0], node.fields[ks[0]]) else [])
      + BlockFlags(read, path, node, ks[1..])
  }

  function ListFlags(read: Reading, path: string, node: Node, k: string): seq<RedFlag>
    decreases node, 0
  {
    if k in node.fields && node.fields[k].Arr?
    then ItemFlags(read, path + "." + k, node.fields[k].items, |node.fields[k].items|) else []
  }

  function ItemFlags(read: Reading, path: string, items: seq<Json>, n: nat): seq<RedFlag>
    requires n <= |items|
    decreases items, 0, n
  {
    if n == 0 then []
    else
      ItemFlags(read, path, items, n - 1)
      + if items[n - 1].Obj? then WalkFlags(read, path + "[" + Dec(n - 1) + "]", items[n - 1]) else []
  }

  // The flag list that all calls of one walk share.
  class FlagList {
    var flags: seq<RedFlag>

    constructor ()
      ensures flags == []
    {
      flags := [];
    }

    method Append(path: string, kind: FlagKind)
      modifies this
      ensures flags == old(flags) + [RedFlag(path, kind)]
    {
      flags := flags + [RedFlag(path, kind)];
    }
  }

  method DescribeTable(read: Reading, path: string, t: Node, out: FlagList)
    modifies out
    ensures out.flags == old(out.flags) + TableFlags(read, path, t)
  {
    var access := if "access_type" in t.fields && t.fields["access_type"].Str? then t.fields["access_type"].s else "";
    var rowsScan := NumField(read, t, "rows_examined_per_scan");
    var rowsProd := NumField(read, t, "rows_produced_per_join");
    if access == "ALL" && rowsScan >= FULL_SCAN_ROW_THRESHOLD {
      out.Append(path, FullScan);
    }
    if rowsProd > 0 && rowsScan >= AsInt64(rowsProd * SCAN_PRODUCED_RATIO_THRESHOLD) {
      out.Append(path, BigScan);
    }
    AppendOwn(path, t, out);
  }

  method AppendOwn(path: string, node: Node, out: FlagList)
    modifies out
    ensures out.flags == old(out.flags) + OwnFlags(path, node)
  {
    if IsTrue(node, "using_filesort") {
      out.Append(path, Filesort);
    }
    if IsTrue(node, "using_temporary_table") {
      out.Append(path, TempTable);
    }
  }

  method WalkNode(read: Reading, path: string, node: Node, out: FlagList)
    modifies out
    ensures out.flags == old(out.flags) + WalkFlags(read, path, node)
    decreases node, 1
  {
    hide TableFlags, OwnFlags, BlockFlags, ListFlags;
    if HasTable(node) {
      DescribeTable(read, path + ".table", node.fields["table"], out);
    }
    AppendOwn(path, node, out);
    WalkBlocks(read, path, node, out);
    WalkList(read, path, node, "nested_loop", out);
    WalkList(read, path, node, "query_specifications", out);
  }

  method WalkBlocks(read: Reading, path: string, node: Node, out: FlagList)
    modifies out
    ensures out.flags == old(out.flags) + BlockFlags(read, path, node, SUB_BLOCKS)
    decreases node, 0
  {
    hide WalkFlags;
    assert SUB_BLOCKS[0..] == SUB_BLOCKS;
    for i := 0 to |SUB_BLOCKS|
      invariant out.flags + BlockFlags(read, path, node, SUB_BLOCKS[i..]) ==
                old(out.flags) + BlockFlags(read, path, node, SUB_BLOCKS)
    {
      var k := SUB_BLOCKS[i];
      assert SUB_BLOCKS[i..][1..] == SUB_BLOCKS[i + 1..];
      if k in node.fields && node.fields[k].Obj? {
        WalkNode(read, path + "." + k, node.fields[k], out);
      }
    }
  }

  method WalkList(read: Reading, path: string, node: Node, k: string, out: FlagList)
    modifies out
    ensures out.flags == old(out.flags) + ListFlags(read, path, node, k)
    decreases node, 0
  {
    hide WalkFlags;
    if k in node.fields && node.fields[k].Arr? {
      var items := node.fields[k].items;
      for i := 0 to |items|
        invariant out.flags == old(out.flags) + ItemFlags(read, path + "." + k, items, i)
      {
        if items[i].Obj? {
          WalkNode(read, path + "." + k + "[" + Dec(i) + "]", items[i], out);
        }
      }
    }
  }

  function RootLabel(raw: Node): string {
    if Wrapped(raw) then "query_block" else "(root)"
  }

  method AnalyzePlan(read: Reading, raw: Node) returns (flags: seq<RedFlag>)
    ensures flags == WalkFlags(read, RootLabel(raw), Root(raw))
    ensures "query_block" in raw.fields && raw.fields["query_block"].Obj? ==>
              flags == WalkFlags(read, "query_block", raw.fields["query_block"])
    ensures !("query_block" in raw.fields && raw.fields["query_block"].Obj?) ==>
              flags == WalkFlags(read, "(root)", raw)
  {
    var out := new FlagList();
    if Wrapped(raw) {
      WalkNode(read, "query_block", raw.fields["query_block"], out);
    } else {
      WalkNode(read, "(root)", raw, out);
    }
    flags := out.flags;
  }
}
