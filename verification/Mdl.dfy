/** Metadata-lock queues: per table, who holds and who waits, oldest first. */
module Mdl {
  import opened Sorting

  datatype MetadataLock = MetadataLock(
    objectType: string, objectSchema: string, objectName: string,
    lockType: string, duration: string, lockStatus: string,
    pid: nat, threadId: nat, user: string, host: string, timeSeconds: int, info: string)

  datatype MDLEntry = MDLEntry(
    pid: nat, threadId: nat, user: string, host: string,
    lockType: string, lockDuration: string, lockStatus: string, waitSeconds: int, query: string)

  datatype MDLQueue = MDLQueue(
    schema: string, name: string, granted: seq<MDLEntry>, pending: seq<MDLEntry>, byLockType: map<string, nat>)

  function Entry(ml: MetadataLock): MDLEntry {
    MDLEntry(ml.pid, ml.threadId, ml.user, ml.host, ml.lockType, ml.duration, ml.lockStatus, ml.timeSeconds, ml.info)
  }

  predicate Relevant(ml: MetadataLock) {
    ml.objectType == "TABLE" && ml.objectName != ""
  }

  function Key(schema: string, name: string): string {
    schema + "." + name
  }

  function KeyOf(ml: MetadataLock): string {
    Key(ml.objectSchema, ml.objectName)
  }

  function Bump(counts: map<string, nat>, t: string): map<string, nat> {
    counts[t := (if t in counts then counts[t] else 0) + 1]
  }

  // What one row does to its queue. Other statuses neither hold nor wait.
  function Put(q: MDLQueue, ml: MetadataLock): MDLQueue {
    if ml.lockStatus == "GRANTED" then q.(granted := q.granted + [Entry(ml)])
    else if ml.lockStatus == "PENDING" then
      q.(pending := q.pending + [Entry(ml)], byLockType := Bump(q.byLockType, ml.lockType))
    else q
  }

  function Group(rows: seq<MetadataLock>): map<string, MDLQueue> {
    if rows == [] then map[]
    else
      var n := |rows| - 1;
      var grouped, ml := Group(rows[..n]), rows[n];
      if !Relevant(ml) then grouped
      else
        var k := KeyOf(ml);
        var q := if k in grouped then grouped[k] else MDLQueue(ml.objectSchema, ml.objectName, [], [], map[]);
        grouped[k := Put(q, ml)]
  }

  predicate Longer(a: MDLEntry, b: MDLEntry) {
    a.waitSeconds > b.waitSeconds
  }

  function OldestPending(q: MDLQueue): int {
    if q.pending != [] then q.pending[0].waitSeconds else 0
  }

  predicate Busier(a: MDLQueue, b: MDLQueue) {
    if |a.pending| != |b.pending| then |a.pending| > |b.pending| else OldestPending(a) > OldestPending(b)
  }

  // Both lists oldest first.
  function Settled(q: MDLQueue): MDLQueue {
    q.(granted := StableSort(Longer, q.granted), pending := StableSort(Longer, q.pending))
  }

  function SettledQueues(grouped: map<string, MDLQueue>, keys: seq<string>): seq<MDLQueue>
    requires forall k :: k in keys ==> k in grouped
  {
    seq(|keys|, i requires 0 <= i < |keys| => assert keys[i] in keys; Settled(grouped[keys[i]]))
  }

  ghost predicate Lists(keys: seq<string>, grouped: map<string, MDLQueue>) {
    Distinct(keys) && forall k :: k in keys <==> k in grouped
  }

  // The settled queues of all groups, busiest table first; ties stand in the order in which
  // the map happened to be iterated.
  ghost predicate IsBreakdown(rows: seq<MetadataLock>, tables: seq<MDLQueue>) {
    exists keys: seq<string> ::
      Lists(keys, Group(rows)) && tables == StableSort(Busier, SettledQueues(Group(rows), keys))
  }

  method BuildMDL(rows: seq<MetadataLock>) returns (tables: seq<MDLQueue>)
    ensures IsBreakdown(rows, tables)
  {
    var grouped: map<string, MDLQueue> := map[];
    for i := 0 to |rows|
      invariant grouped == Group(rows[..i])
    {
      var ml := rows[i];
      assert rows[..i + 1][..i] == rows[..i];
      if !Relevant(ml) {
        continue;
      }
      var key := KeyOf(ml);
      if key !in grouped {
        grouped := grouped[key := MDLQueue(ml.objectSchema, ml.objectName, [], [], map[])];
      }
      grouped := grouped[key := Put(grouped[key], ml)];
    }
    assert rows[..|rows|] == rows;

    tables := [];
    var rest := grouped.Keys;
    ghost var keys: seq<string> := [];
    while rest != {}
      invariant rest <= grouped.Keys && Distinct(keys)
      invariant forall k :: k in keys <==> k in grouped && k !in rest
      invariant tables == SettledQueues(grouped, keys)
      decreases rest
    {
      var k :| k in rest;
      rest := rest - {k};
      keys := keys + [k];
      tables := tables + [Settled(grouped[k])];
    }
    tables := StableSort(Busier, tables);
    assert Lists(keys, Group(rows));
  }

  // What the rows with a given property and status list, in row order.
  function Listed(here: MetadataLock -> bool, rows: seq<MetadataLock>, status: string): seq<MDLEntry> {
    if rows == [] then []
    else
      var n := |rows| - 1;
      Listed(here, rows[..n], status) +
      if Relevant(rows[n]) && here(rows[n]) && rows[n].lockStatus == status then [Entry(rows[n])] else []
  }

  function WithKey(k: string): MetadataLock -> bool {
    (ml: MetadataLock) => KeyOf(ml) == k
  }

  function OnTable(schema: string, name: string): MetadataLock -> bool {
    (ml: MetadataLock) => ml.objectSchema == schema && ml.objectName == name
  }

  function OfType(t: string): MDLEntry -> bool {
    (e: MDLEntry) => e.lockType == t
  }

  ghost predicate CountsTypes(counts: map<string, nat>, pending: seq<MDLEntry>) {
    forall t :: (if t in counts then counts[t] else 0) == |Filter(OfType(t), pending)|
  }

  ghost predicate HasRow(rows: seq<MetadataLock>, schema: string, name: string) {
    exists i :: 0 <= i < |rows| && Relevant(rows[i]) && rows[i].objectSchema == schema && rows[i].objectName == name
  }

  // A group holds exactly the rows of its key, whatever table they belong to, and takes its
  // name from one of them.
  ghost predicate GroupHolds(rows: seq<MetadataLock>, k: string, q: MDLQueue) {
    && q.granted == Listed(WithKey(k), rows, "GRANTED")
    && q.pending == Listed(WithKey(k), rows, "PENDING")
    && CountsTypes(q.byLockType, q.pending)
    && Key(q.schema, q.name) == k && HasRow(rows, q.schema, q.name)
  }

  lemma {:induction false} GroupAt(rows: seq<MetadataLock>, k: string)
    ensures k in Group(rows) <==> exists i :: 0 <= i < |rows| && Relevant(rows[i]) && KeyOf(rows[i]) == k
    ensures k in Group(rows) ==> GroupHolds(rows, k, Group(rows)[k])
    ensures k !in Group(rows) ==> Listed(WithKey(k), rows, "GRANTED") == [] == Listed(WithKey(k), rows, "PENDING")
  {
    hide CountsTypes, HasRow;
    if rows == [] {
    } else {
      var n := |rows| - 1;
      var init, ml := rows[..n], rows[n];
      GroupAt(init, k);
      assert rows == init + [ml];
      assert rows[n] == ml;
      if Relevant(ml) && KeyOf(ml) == k {
        var q := if k in Group(init) then Group(init)[k] else MDLQueue(ml.objectSchema, ml.objectName, [], [], map[]);
        assert Group(rows)[k] == Put(q, ml);
        NoCounts();
        GroupGrows(init, k, q, ml);
      } else if k in Group(init) {
        HasRowGrows(init, ml, Group(init)[k].schema, Group(init)[k].name);
      }
    }
  }

  // One more row of its key, as the first or a later one.
  lemma {:induction false} GroupGrows(init: seq<MetadataLock>, k: string, q: MDLQueue, ml: MetadataLock)
    requires Relevant(ml) && KeyOf(ml) == k
    requires q.granted == Listed(WithKey(k), init, "GRANTED") && q.pending == Listed(WithKey(k), init, "PENDING")
    requires CountsTypes(q.byLockType, q.pending) && Key(q.schema, q.name) == k
    requires HasRow(init, q.schema, q.name) || (q.schema == ml.objectSchema && q.name == ml.objectName)
    ensures GroupHolds(init + [ml], k, Put(q, ml))
  {
    hide CountsTypes, HasRow;
    var rows := init + [ml];
    assert rows[..|init|] == init && rows[|init|] == ml;
    BumpCounts(q.byLockType, q.pending, Entry(ml));
    HasRowGrows(init, ml, q.schema, q.name);
  }

  lemma NoCounts()
    ensures CountsTypes(map[], [])
  {
  }

  lemma HasRowGrows(init: seq<MetadataLock>, ml: MetadataLock, schema: string, name: string)
    ensures HasRow(init, schema, name) ==> HasRow(init + [ml], schema, name)
    ensures Relevant(ml) ==> HasRow(init + [ml], ml.objectSchema, ml.objectName)
  {
    var rows := init + [ml];
    if HasRow(init, schema, name) {
      var i :| 0 <= i < |init| && Relevant(init[i]) && init[i].objectSchema == schema && init[i].objectName == name;
      assert rows[i] == init[i];
    }
    assert rows[|init|] == ml;
  }

  lemma BumpCounts(counts: map<string, nat>, pending: seq<MDLEntry>, e: MDLEntry)
    requires CountsTypes(counts, pending)
    ensures CountsTypes(Bump(counts, e.lockType), pending + [e])
  {
    var bumped := Bump(counts, e.lockType);
    forall t ensures (if t in bumped then bumped[t] else 0) == |Filter(OfType(t), pending + [e])| {
      FilterConcat(OfType(t), pending, [e]);
      FilterOne(OfType(t), e);
      assert (if t in counts then counts[t] else 0) == |Filter(OfType(t), pending)|;
    }
  }

  // The tables of a snapshot do not share a key.
  ghost predicate KeysApart(rows: seq<MetadataLock>) {
    forall a, b :: a in rows && b in rows && Relevant(a) && Relevant(b) && KeyOf(a) == KeyOf(b) ==>
      a.objectSchema == b.objectSchema && a.objectName == b.objectName
  }

  lemma {:induction false} KeyIsTable(rows: seq<MetadataLock>, all: seq<MetadataLock>, schema: string, name: string,
      status: string)
    requires KeysApart(all) && HasRow(all, schema, name) && forall ml :: ml in rows ==> ml in all
    ensures Listed(WithKey(Key(schema, name)), rows, status) == Listed(OnTable(schema, name), rows, status)
  {
    if rows == [] {
    } else {
      KeyIsTable(rows[..|rows| - 1], all, schema, name, status);
      var i :| 0 <= i < |all| && Relevant(all[i]) && all[i].objectSchema == schema && all[i].objectName == name;
      assert all[i] in all && rows[|rows| - 1] in all;
    }
  }

  // The queue of a table: all of its granted and pending rows and nothing else, each list
  // sorted with the longest wait first and ties in row order, the pending ones counted by type.
  ghost predicate QueueOf(rows: seq<MetadataLock>, q: MDLQueue) {
    && HasRow(rows, q.schema, q.name)
    && q.granted == StableSort(Longer, Listed(OnTable(q.schema, q.name), rows, "GRANTED"))
    && q.pending == StableSort(Longer, Listed(OnTable(q.schema, q.name), rows, "PENDING"))
    && CountsTypes(q.byLockType, q.pending)
  }

  lemma {:induction false} SettledMember(rows: seq<MetadataLock>, tables: seq<MDLQueue>, q: MDLQueue)
    requires IsBreakdown(rows, tables)
    ensures multiset(tables)[q] ==
            if Key(q.schema, q.name) in Group(rows) && q == Settled(Group(rows)[Key(q.schema, q.name)]) then 1 else 0
  {
    var grouped := Group(rows);
    var keys: seq<string> :| Lists(keys, grouped) && tables == StableSort(Busier, SettledQueues(grouped, keys));
    StableSortSorts(Busier, SettledQueues(grouped, keys));
    var queues := SettledQueues(grouped, keys);
    forall i | 0 <= i < |keys| ensures Key(queues[i].schema, queues[i].name) == keys[i] && keys[i] in grouped {
      assert keys[i] in keys;
      GroupAt(rows, keys[i]);
    }
    hide Group, Settled, GroupHolds, IsBreakdown, StableSort;
    CountOnce(queues, keys, q);
  }

  lemma {:induction false} CountOnce(queues: seq<MDLQueue>, keys: seq<string>, q: MDLQueue)
    requires |queues| == |keys| && Distinct(keys)
    requires forall i :: 0 <= i < |keys| ==> Key(queues[i].schema, queues[i].name) == keys[i]
    ensures multiset(queues)[q] == if exists i :: 0 <= i < |keys| && queues[i] == q then 1 else 0
  {
    hide Key;
    if keys == [] {
    } else {
      var n := |keys| - 1;
      assert queues == queues[..n] + [queues[n]];
      CountOnce(queues[..n], keys[..n], q);
      assert queues[n] == q ==> q !in queues[..n];
    }
  }

  ghost predicate HasQueue(tables: seq<MDLQueue>, schema: string, name: string) {
    exists q :: q in tables && q.schema == schema && q.name == name
  }

  // Every table with a row has a queue of its own.
  ghost predicate HaveQueues(rows: seq<MetadataLock>, tables: seq<MDLQueue>) {
    forall schema, name :: HasRow(rows, schema, name) ==> HasQueue(tables, schema, name)
  }

  // Each queue of the breakdown is the queue of its table, and each table with a row has
  // exactly one, provided the tables' keys differ.
  lemma BreakdownIsByTable(rows: seq<MetadataLock>, tables: seq<MDLQueue>)
    requires IsBreakdown(rows, tables) && KeysApart(rows)
    ensures forall q :: q in tables ==> QueueOf(rows, q) && multiset(tables)[q] == 1
    ensures HaveQueues(rows, tables)
    ensures forall q, r :: q in tables && r in tables && q.schema == r.schema && q.name == r.name ==> q == r
  {
    hide IsBreakdown, QueueOf, Settled, Group, KeysApart, HasRow;
    forall q | q in tables ensures QueueOf(rows, q) && multiset(tables)[q] == 1 {
      assert multiset(tables)[q] > 0;
      SettledMember(rows, tables, q);
      SettledIsQueueOf(rows, Key(q.schema, q.name));
    }
    forall schema, name | HasRow(rows, schema, name) ensures HasQueue(tables, schema, name) {
      var q := TableHasQueue(rows, tables, schema, name);
    }
    forall q, r | q in tables && r in tables && q.schema == r.schema && q.name == r.name ensures q == r {
      assert multiset(tables)[q] > 0 && multiset(tables)[r] > 0;
      SettledMember(rows, tables, q);
      SettledMember(rows, tables, r);
    }
  }

  lemma TableHasQueue(rows: seq<MetadataLock>, tables: seq<MDLQueue>, schema: string, name: string)
      returns (q: MDLQueue)
    requires IsBreakdown(rows, tables) && KeysApart(rows) && HasRow(rows, schema, name)
    ensures q in tables && q.schema == schema && q.name == name
  {
    var i :| 0 <= i < |rows| && Relevant(rows[i]) && rows[i].objectSchema == schema && rows[i].objectName == name;
    assert KeyOf(rows[i]) == Key(schema, name);
    GroupAt(rows, Key(schema, name));
    q := Settled(Group(rows)[Key(schema, name)]);
    var j :| 0 <= j < |rows| && Relevant(rows[j]) && rows[j].objectSchema == q.schema && rows[j].objectName == q.name;
    assert rows[i] in rows && rows[j] in rows && KeyOf(rows[j]) == Key(q.schema, q.name);
    assert q.schema == schema && q.name == name;
    SettledMember(rows, tables, q);
    assert q in multiset(tables);
  }

  lemma {:induction false} SettledIsQueueOf(rows: seq<MetadataLock>, k: string)
    requires KeysApart(rows) && k in Group(rows)
    ensures QueueOf(rows, Settled(Group(rows)[k]))
  {
    GroupAt(rows, k);
    var q := Group(rows)[k];
    KeyIsTable(rows, rows, q.schema, q.name, "GRANTED");
    KeyIsTable(rows, rows, q.schema, q.name, "PENDING");
    SettledCounts(q);
  }

  lemma SettledCounts(q: MDLQueue)
    requires CountsTypes(q.byLockType, q.pending)
    ensures CountsTypes(Settled(q).byLockType, Settled(q).pending)
  {
    forall t ensures |Filter(OfType(t), StableSort(Longer, q.pending))| == |Filter(OfType(t), q.pending)| {
      StableSortSorts(Longer, q.pending);
      FilterCount(OfType(t), StableSort(Longer, q.pending), q.pending);
    }
  }

  lemma {:induction false} FilterCount<T(!new)>(keep: T -> bool, s: seq<T>, t: seq<T>)
    requires multiset(s) == multiset(t)
    ensures |Filter(keep, s)| == |Filter(keep, t)|
  {
    forall x ensures multiset(Filter(keep, s))[x] == multiset(Filter(keep, t))[x] {
      FilterCounts(keep, s, x);
      FilterCounts(keep, t, x);
    }
    assert multiset(Filter(keep, s)) == multiset(Filter(keep, t));
    assert |multiset(Filter(keep, s))| == |Filter(keep, s)| && |multiset(Filter(keep, t))| == |Filter(keep, t)|;
  }

  lemma {:induction false} FilterCounts<T(!new)>(keep: T -> bool, s: seq<T>, x: T)
    ensures multiset(Filter(keep, s))[x] == if keep(x) then multiset(s)[x] else 0
  {
    if s == [] {
    } else {
      FilterCounts(keep, s[..|s| - 1], x);
      assert s == s[..|s| - 1] + [s[|s| - 1]];
    }
  }

  // The table with most waiters comes first, among equals the one with the oldest waiter.
  lemma BusiestFirst(rows: seq<MetadataLock>, tables: seq<MDLQueue>, i: nat, j: nat)
    requires IsBreakdown(rows, tables) && i < j < |tables|
    ensures |tables[i].pending| >= |tables[j].pending|
    ensures |tables[i].pending| == |tables[j].pending| ==> OldestPending(tables[i]) >= OldestPending(tables[j])
  {
    var keys: seq<string> :| Lists(keys, Group(rows)) && tables == StableSort(Busier, SettledQueues(Group(rows), keys));
    StableSortSorts(Busier, SettledQueues(Group(rows), keys));
    assert !Busier(tables[j], tables[i]);
  }

  // The counts by type add up to the number of waiters.

  ghost function Total(counts: map<string, nat>): nat {
    if counts == map[] then 0
    else
      var t :| t in counts;
      counts[t] + Total(counts - {t})
  }

  lemma {:induction false} TypesAddUp(counts: map<string, nat>, pending: seq<MDLEntry>)
    requires CountsTypes(counts, pending)
    ensures Total(counts) == |pending|
    decreases |counts|
  {
    if counts == map[] {
      if pending != [] {
        FilterHolds(OfType(pending[0].lockType), pending, pending[0]);
      }
    } else {
      var t :| t in counts && Total(counts) == counts[t] + Total(counts - {t});
      var others := Filter(NotOfType(t), pending);
      FilterSplits(OfType(t), NotOfType(t), pending);
      forall u ensures (if u in counts - {t} then (counts - {t})[u] else 0) == |Filter(OfType(u), others)| {
        assert (if u in counts then counts[u] else 0) == |Filter(OfType(u), pending)|;
        TypesAmong(u, t, pending);
      }
      TypesAddUp(counts - {t}, others);
    }
  }

  lemma {:induction false} ByLockTypeAddsUp(rows: seq<MetadataLock>, tables: seq<MDLQueue>, q: MDLQueue)
    requires IsBreakdown(rows, tables) && q in tables
    ensures CountsTypes(q.byLockType, q.pending) && Total(q.byLockType) == |q.pending|
  {
    assert q in multiset(tables);
    SettledMember(rows, tables, q);
    hide IsBreakdown, CountsTypes, Settled;
    GroupAt(rows, Key(q.schema, q.name));
    SettledCounts(Group(rows)[Key(q.schema, q.name)]);
    TypesAddUp(q.byLockType, q.pending);
  }

  function NotOfType(t: string): MDLEntry -> bool {
    (e: MDLEntry) => e.lockType != t
  }

  lemma {:induction false} TypesAmong(u: string, t: string, pending: seq<MDLEntry>)
    ensures Filter(OfType(u), Filter(NotOfType(t), pending)) == if u == t then [] else Filter(OfType(u), pending)
  {
    if pending == [] {
    } else {
      var n := |pending| - 1;
      TypesAmong(u, t, pending[..n]);
      hide Filter;
      FilterLast(NotOfType(t), pending);
      FilterLast(OfType(u), pending);
      FilterConcat(OfType(u), Filter(NotOfType(t), pending[..n]), [pending[n]]);
      FilterOne(OfType(u), pending[n]);
    }
  }

  lemma {:induction false} FilterSplits<T>(keep: T -> bool, drop: T -> bool, s: seq<T>)
    requires forall i :: 0 <= i < |s| ==> drop(s[i]) == !keep(s[i])
    ensures |Filter(keep, s)| + |Filter(drop, s)| == |s|
  {
    if s == [] {
    } else {
      FilterSplits(keep, drop, s[..|s| - 1]);
    }
  }

  // With keys that clash, some table has no queue of its own; so the breakdown is by table
  // exactly when the keys differ.
  lemma ByTableIffKeysApart(rows: seq<MetadataLock>, tables: seq<MDLQueue>)
    requires IsBreakdown(rows, tables)
    ensures KeysApart(rows) <==>
            HaveQueues(rows, tables)
  {
    if KeysApart(rows) {
      BreakdownIsByTable(rows, tables);
    }
    if HaveQueues(rows, tables) {
      forall a, b | a in rows && b in rows && Relevant(a) && Relevant(b) && KeyOf(a) == KeyOf(b)
        ensures a.objectSchema == b.objectSchema && a.objectName == b.objectName
      {
        assert HasRow(rows, a.objectSchema, a.objectName) && HasRow(rows, b.objectSchema, b.objectName);
        assert HasQueue(tables, a.objectSchema, a.objectName) && HasQueue(tables, b.objectSchema, b.objectName);
        var q :| q in tables && q.schema == a.objectSchema && q.name == a.objectName;
        var r :| r in tables && r.schema == b.objectSchema && r.name == b.objectName;
        assert multiset(tables)[q] > 0 && multiset(tables)[r] > 0;
        SettledMember(rows, tables, q);
        SettledMember(rows, tables, r);
      }
    }
  }

  // Two tables that share a key share a queue, filed under the one seen first.
  lemma KeysClash(rows: seq<MetadataLock>, tables: seq<MDLQueue>, wait: MetadataLock)
    requires wait.objectType == "TABLE" && wait.lockStatus == "PENDING"
    requires rows == [wait.(objectSchema := "a", objectName := "b.c"), wait.(objectSchema := "a.b", objectName := "c")]
    requires IsBreakdown(rows, tables)
    ensures HasRow(rows, "a.b", "c") && !HasQueue(tables, "a.b", "c")
  {
    hide Group, Settled, StableSort, IsBreakdown;
    assert rows[1] == wait.(objectSchema := "a.b", objectName := "c");
    assert "a" + "." + "b.c" == "a.b" + "." + "c";
    TwoGrouped(rows);
    SettledNames(rows, Key("a.b", "c"));
    if q :| q in tables && q.schema == "a.b" && q.name == "c" {
      assert q in multiset(tables);
      SettledMember(rows, tables, q);
      assert false;
    }
  }

  lemma {:induction false} SettledNames(rows: seq<MetadataLock>, k: string)
    requires k in Group(rows)
    ensures Settled(Group(rows)[k]).schema == Group(rows)[k].schema
            && Settled(Group(rows)[k]).name == Group(rows)[k].name
  {
  }

  lemma {:induction false} TwoGrouped(rows: seq<MetadataLock>)
    requires |rows| == 2 && Relevant(rows[0]) && Relevant(rows[1]) && KeyOf(rows[0]) == KeyOf(rows[1])
    ensures var k := KeyOf(rows[0]);
            && k in Group(rows)
            && Group(rows)[k].schema == rows[0].objectSchema && Group(rows)[k].name == rows[0].objectName
  {
    assert rows[..1][..0] == [];
    assert Group(rows[..1][..0]) == map[];
  }

  // Keys differ for all tables, whatever their names, exactly when no schema continues another
  // one after a dot.
  ghost predicate Continues(schemas: iset<string>) {
    exists s, t :: s in schemas && t in schemas && s + "." <= t
  }

  lemma KeyInjectiveIff(schemas: iset<string>)
    ensures !Continues(schemas) <==>
            forall s, m, t, n :: s in schemas && t in schemas && Key(s, m) == Key(t, n) ==> s == t && m == n
  {
    if !Continues(schemas) {
      forall s, m, t, n | s in schemas && t in schemas && Key(s, m) == Key(t, n) ensures s == t && m == n {
        if |s| <= |t| {
          SplitKey(s, m, t, n);
        } else {
          SplitKey(t, n, s, m);
        }
      }
    } else {
      var s, t :| s in schemas && t in schemas && s + "." <= t;
      var rest := t[|s| + 1..];
      assert t == s + "." + rest;
      assert Key(s, rest + ".x") == Key(t, "x");
      assert |s| != |t|;
    }
  }

  // So no snapshot whose schema names are free of dots has a clash.
  lemma DotFreeSchemasKeepApart(rows: seq<MetadataLock>)
    requires forall ml :: ml in rows ==> '.' !in ml.objectSchema
    ensures KeysApart(rows)
  {
    var schemas := iset s: string | '.' !in s;
    forall s, t ensures s + "." <= t ==> '.' in t {
      ContinuedHasDot(s, t);
    }
    KeyInjectiveIff(schemas);
  }

  lemma ContinuedHasDot(s: string, t: string)
    ensures s + "." <= t ==> '.' in t
  {
    if s + "." <= t {
      assert t[|s|] == (s + ".")[|s|];
    }
  }

  // Where keys agree, the shorter schema is continued by the other, or both parts agree.
  lemma SplitKey(s: string, m: string, t: string, n: string)
    requires Key(s, m) == Key(t, n) && |s| <= |t|
    ensures (s == t && m == n) || s + "." <= t
  {
    var whole := Key(s, m);
    assert s == whole[..|s|] && t == whole[..|t|] && whole[|s|] == '.';
    if |s| == |t| {
      assert m == whole[|s| + 1..] && n == whole[|t| + 1..];
    } else {
      assert t[|s|] == whole[|s|];
      assert s + "." == t[..|s| + 1];
    }
  }

  function WaitedFor(w: int): MDLEntry -> bool {
    (e: MDLEntry) => e.waitSeconds == w
  }

  // The entries of a queue are the rows of its table that hold or wait, each told field by
  // field, and every such row is in the queue of its table.
  lemma {:induction false} EntriesAreRows(rows: seq<MetadataLock>, tables: seq<MDLQueue>, q: MDLQueue, e: MDLEntry)
    requires IsBreakdown(rows, tables) && KeysApart(rows) && q in tables
    ensures e in q.pending <==>
            exists i :: && 0 <= i < |rows| && rows[i].objectType == "TABLE" && rows[i].objectName != ""
                        && rows[i].objectSchema == q.schema && rows[i].objectName == q.name
                        && rows[i].lockStatus == "PENDING" && e.lockStatus == "PENDING" && IsEntryOf(e, rows[i])
    ensures e in q.granted <==>
            exists i :: && 0 <= i < |rows| && rows[i].objectType == "TABLE" && rows[i].objectName != ""
                        && rows[i].objectSchema == q.schema && rows[i].objectName == q.name
                        && rows[i].lockStatus == "GRANTED" && e.lockStatus == "GRANTED" && IsEntryOf(e, rows[i])
  {
    BreakdownIsByTable(rows, tables);
    var here := OnTable(q.schema, q.name);
    ListedHolds(here, rows, "PENDING", e);
    ListedHolds(here, rows, "GRANTED", e);
    SettledOrder(Listed(here, rows, "PENDING"), 0);
    SettledOrder(Listed(here, rows, "GRANTED"), 0);
    SameElements(q.pending, Listed(here, rows, "PENDING"), e);
    SameElements(q.granted, Listed(here, rows, "GRANTED"), e);
    hide IsBreakdown, Listed, StableSort, Filter, KeysApart;
  }

  ghost predicate IsEntryOf(e: MDLEntry, ml: MetadataLock) {
    && e.pid == ml.pid && e.threadId == ml.threadId && e.user == ml.user && e.host == ml.host
    && e.lockType == ml.lockType && e.lockDuration == ml.duration && e.lockStatus == ml.lockStatus
    && e.waitSeconds == ml.timeSeconds && e.query == ml.info
  }

  lemma {:induction false} ListedHolds(here: MetadataLock -> bool, rows: seq<MetadataLock>, status: string, e: MDLEntry)
    ensures e in Listed(here, rows, status) <==>
            exists i :: && 0 <= i < |rows| && rows[i].objectType == "TABLE" && rows[i].objectName != ""
                        && here(rows[i]) && rows[i].lockStatus == status && IsEntryOf(e, rows[i])
  {
    if rows == [] {
    } else {
      var n := |rows| - 1;
      ListedHolds(here, rows[..n], status, e);
      assert forall i :: 0 <= i < n ==> rows[..n][i] == rows[i];
    }
  }

  // A settled list is a stable descending arrangement of what it was given.
  lemma {:induction false} SettledOrder(listed: seq<MDLEntry>, w: int)
    ensures var s := StableSort(Longer, listed);
            && multiset(s) == multiset(listed)
            && (forall i, j :: 0 <= i < j < |s| ==> s[i].waitSeconds >= s[j].waitSeconds)
            && Filter(WaitedFor(w), s) == Filter(WaitedFor(w), listed)
  {
    StableSortSorts(Longer, listed);
    StableSortIsStable(Longer, WaitedFor(w), listed);
    var s := StableSort(Longer, listed);
    forall i, j | 0 <= i < j < |s| ensures s[i].waitSeconds >= s[j].waitSeconds {
      assert !Longer(s[j], s[i]);
    }
  }

  // Queries

  // The queue of a table, or nil.
  method Find(tables: seq<MDLQueue>, schema: string, name: string) returns (found: bool, i: nat)
    ensures found ==> i < |tables| && tables[i].schema == schema && tables[i].name == name
    ensures !found ==> forall q :: q in tables ==> q.schema != schema || q.name != name
  {
    found := false;
    i := 0;
    while i < |tables|
      invariant i <= |tables|
      invariant forall q :: q in tables[..i] ==> q.schema != schema || q.name != name
    {
      if tables[i].schema == schema && tables[i].name == name {
        found := true;
        return;
      }
      assert tables[..i + 1] == tables[..i] + [tables[i]];
      i := i + 1;
    }
    assert tables[..|tables|] == tables;
  }

  // The index of a pid's first pending entry.
  ghost predicate FirstPending(q: MDLQueue, pid: nat, i: nat) {
    i < |q.pending| && q.pending[i].pid == pid && forall j :: 0 <= j < i ==> q.pending[j].pid != pid
  }

  ghost predicate IsPending(q: MDLQueue, pid: nat) {
    exists i :: 0 <= i < |q.pending| && q.pending[i].pid == pid
  }

  method PositionOf(q: MDLQueue, pid: nat) returns (rank: nat, total: nat, ok: bool)
    ensures total == |q.pending| && (ok <==> IsPending(q, pid))
    ensures if ok then rank >= 1 && FirstPending(q, pid, rank - 1) else rank == 0
  {
    total := |q.pending|;
    for i := 0 to |q.pending|
      invariant forall j :: 0 <= j < i ==> q.pending[j].pid != pid
    {
      if q.pending[i].pid == pid {
        return i + 1, total, true;
      }
    }
    return 0, total, false;
  }

  // Both lists of every queue stand by waiting time, the longest first.
  lemma OldestFirst(rows: seq<MetadataLock>, tables: seq<MDLQueue>, q: MDLQueue, i: nat, j: nat)
    requires IsBreakdown(rows, tables) && q in tables && i < j
    ensures j < |q.pending| ==> q.pending[i].waitSeconds >= q.pending[j].waitSeconds
    ensures j < |q.granted| ==> q.granted[i].waitSeconds >= q.granted[j].waitSeconds
  {
    hide IsBreakdown, Group, StableSort;
    assert q in multiset(tables);
    SettledMember(rows, tables, q);
    SettledOrder(Group(rows)[Key(q.schema, q.name)].pending, 0);
    SettledOrder(Group(rows)[Key(q.schema, q.name)].granted, 0);
  }

  // Nobody behind a waiter has waited strictly longer, in any queue of any breakdown.
  lemma RankIsFair(rows: seq<MetadataLock>, tables: seq<MDLQueue>, q: MDLQueue, pid: nat, i: nat, j: nat)
    requires IsBreakdown(rows, tables) && q in tables && FirstPending(q, pid, i) && i <= j < |q.pending|
    ensures q.pending[j].waitSeconds <= q.pending[i].waitSeconds
  {
    if i < j {
      OldestFirst(rows, tables, q, i, j);
    }
  }

  // Whether a holder stands in the way of a waiter, going by the compatibility table, which is
  // given; a thread never blocks itself.
  predicate Blocks(conflicts: (string, string) -> bool, waiter: MDLEntry, holder: MDLEntry) {
    && !(holder.pid == waiter.pid || (waiter.threadId != 0 && holder.threadId == waiter.threadId))
    && conflicts(waiter.lockType, holder.lockType)
  }

  function Blocking(conflicts: (string, string) -> bool, waiter: MDLEntry): MDLEntry -> bool {
    (holder: MDLEntry) => Blocks(conflicts, waiter, holder)
  }

  // Who is in the way: a holder in conflict that is neither the same process nor the same
  // thread, as far as the thread is known.
  lemma {:induction false} BlockersAre(conflicts: (string, string) -> bool, waiter: MDLEntry,
      granted: seq<MDLEntry>, holder: MDLEntry)
    ensures holder in Filter(Blocking(conflicts, waiter), granted) <==>
            && holder in granted && conflicts(waiter.lockType, holder.lockType)
            && holder.pid != waiter.pid && (waiter.threadId == 0 || holder.threadId != waiter.threadId)
  {
    FilterHolds(Blocking(conflicts, waiter), granted, holder);
  }

  method BlockersOf(q: MDLQueue, conflicts: (string, string) -> bool, pid: nat) returns (out: seq<MDLEntry>)
    ensures !IsPending(q, pid) ==> out == []
    ensures forall i: nat :: FirstPending(q, pid, i) ==>
              out == if q.pending[i].lockType == "" then [] else Filter(Blocking(conflicts, q.pending[i]), q.granted)
  {
    var requested, threadId := "", 0;
    ghost var at := |q.pending|;
    for i := 0 to |q.pending|
      invariant forall j :: 0 <= j < i ==> q.pending[j].pid != pid
      invariant requested == "" && at == |q.pending|
    {
      if q.pending[i].pid == pid {
        requested := q.pending[i].lockType;
        threadId := q.pending[i].threadId;
        at := i;
        assert FirstPending(q, pid, at);
        break;
      }
    }
    assert if at < |q.pending| then FirstPending(q, pid, at)
             && requested == q.pending[at].lockType && threadId == q.pending[at].threadId
           else requested == "" && !IsPending(q, pid);
    out := [];
    if requested == "" {
      return;
    }
    ghost var blocks := Blocking(conflicts, q.pending[at]);
    for i := 0 to |q.granted|
      invariant out == Filter(blocks, q.granted[..i])
    {
      var h := q.granted[i];
      assert q.granted[..i + 1][..i] == q.granted[..i];
      if h.pid == pid || (threadId != 0 && h.threadId == threadId) {
        continue;
      }
      if conflicts(requested, h.lockType) {
        out := out + [h];
      }
    }
    assert q.granted[..|q.granted|] == q.granted;
  }
}
