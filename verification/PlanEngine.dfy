/** The explain engine: one cached plan per digest and a log of plan flips. */
module PlanEngine {
  import opened Sorting
  import opened PlanJson
  import opened PlanReadability
  import opened PlanFingerprint
  import opened PlanFlags
  import opened PlanPrinter

  type Digest = string
  type Time = int

  // What the database and the JSON decoder answer.
  datatype Fetch<T> = Failed | Fetched(value: T)

  datatype Example = Example(sqlText: string, schema: string)

  datatype FlipEvent = FlipEvent(digest: Digest, priorHash: string, newHash: string, time: Time)

  datatype PlanEntry = PlanEntry(hash: string, flags: seq<RedFlag>, example: Example, updatedAt: Time)

  datatype Outcome =
    | Error
    | Skipped
    | Ran(hash: string, flags: seq<RedFlag>, flipped: bool, priorHash: string, fromCache: bool)

  // One successful look at a digest's plan.
  datatype Observation = Observation(digest: Digest, plan: Node, hash: string, time: Time)

  function SeenOf(seen: seq<Observation>, d: Digest): seq<Observation> {
    Filter((o: Observation) => o.digest == d, seen)
  }

  function FlipsOf(flips: seq<FlipEvent>, d: Digest): seq<FlipEvent> {
    Filter((f: FlipEvent) => f.digest == d, flips)
  }

  // The adjacent pairs of observations of one digest whose hashes differ.
  function Changes(seen: seq<Observation>): seq<FlipEvent> {
    if |seen| < 2 then []
    else
      var n := |seen| - 1;
      Changes(seen[..n]) +
      if seen[n - 1].hash == seen[n].hash then []
      else [FlipEvent(seen[n].digest, seen[n - 1].hash, seen[n].hash, seen[n].time)]
  }

  // The log holds, for every digest, exactly the changes between its successive observations,
  // and the cache holds its latest one.
  ghost predicate Consistent(cache: map<Digest, PlanEntry>, flips: seq<FlipEvent>, seen: seq<Observation>) {
    forall d: Digest :: ConsistentFor(cache, flips, seen, d)
  }

  ghost predicate ConsistentFor(cache: map<Digest, PlanEntry>, flips: seq<FlipEvent>, seen: seq<Observation>,
                                d: Digest) {
    && FlipsOf(flips, d) == Changes(SeenOf(seen, d))
    && (d in cache <==> SeenOf(seen, d) != [])
    && (d in cache ==> SeenOf(seen, d) != [] && cache[d].hash == SeenOf(seen, d)[|SeenOf(seen, d)| - 1].hash)
  }

  // The event that a new look at a digest adds to the log, judged by the cache alone.
  function NewFlip(cache: map<Digest, PlanEntry>, d: Digest, hash: string, now: Time): seq<FlipEvent> {
    if d in cache && cache[d].hash != hash then [FlipEvent(d, cache[d].hash, hash, now)] else []
  }

  lemma StaysConsistent(cache: map<Digest, PlanEntry>, flips: seq<FlipEvent>, seen: seq<Observation>,
                        o: Observation, entry: PlanEntry)
    requires Consistent(cache, flips, seen) && entry.hash == o.hash
    ensures Consistent(cache[o.digest := entry], flips + NewFlip(cache, o.digest, o.hash, o.time), seen + [o])
  {
    hide ConsistentFor, NewFlip;
    var cache', flips', seen' := cache[o.digest := entry], flips + NewFlip(cache, o.digest, o.hash, o.time), seen + [o];
    forall d: Digest ensures ConsistentFor(cache', flips', seen', d) {
      StaysConsistentFor(cache, flips, seen, o, entry, d);
    }
  }

  lemma StaysConsistentFor(cache: map<Digest, PlanEntry>, flips: seq<FlipEvent>, seen: seq<Observation>,
                           o: Observation, entry: PlanEntry, d: Digest)
    requires ConsistentFor(cache, flips, seen, d) && entry.hash == o.hash
    ensures ConsistentFor(cache[o.digest := entry], flips + NewFlip(cache, o.digest, o.hash, o.time), seen + [o], d)
  {
    hide FlipsOf, SeenOf, Changes;
    MoreSeen(seen, o, d);
    MoreFlips(flips, NewFlip(cache, o.digest, o.hash, o.time), d);
    if d == o.digest {
      ChangesGrow(SeenOf(seen, d), o);
    }
  }

  lemma MoreSeen(seen: seq<Observation>, o: Observation, d: Digest)
    ensures SeenOf(seen + [o], d) == if o.digest == d then SeenOf(seen, d) + [o] else SeenOf(seen, d)
  {
    var f := (x: Observation) => x.digest == d;
    FilterConcat(f, seen, [o]);
    FilterOne(f, o);
  }

  lemma MoreFlips(flips: seq<FlipEvent>, fs: seq<FlipEvent>, d: Digest)
    requires |fs| <= 1
    ensures FlipsOf(flips + fs, d) == if fs != [] && fs[0].digest == d then FlipsOf(flips, d) + fs
            else FlipsOf(flips, d)
  {
    var f := (x: FlipEvent) => x.digest == d;
    FilterConcat(f, flips, fs);
    if fs != [] {
      assert fs == [fs[0]];
      FilterOne(f, fs[0]);
    }
  }

  lemma {:induction false} ChangesGrow(seen: seq<Observation>, o: Observation)
    ensures Changes(seen + [o]) ==
            if seen == [] || seen[|seen| - 1].hash == o.hash then Changes(seen)
            else Changes(seen) + [FlipEvent(o.digest, seen[|seen| - 1].hash, o.hash, o.time)]
  {
    assert (seen + [o])[..|seen|] == seen;
  }

  class Engine {
    const hash: string -> string
    const read: Reading
    var cache: map<Digest, PlanEntry>
    var flips: seq<FlipEvent>
    ghost var seen: seq<Observation>

    ghost predicate Valid()
      reads this
    {
      && (forall o :: o in seen ==> o.hash == PlanHash(hash, o.plan))
      && Consistent(cache, flips, seen)
    }

    constructor (hash: string -> string, read: Reading)
      ensures Valid() && flips == [] && cache == map[] && seen == []
      ensures this.hash == hash && this.read == read
    {
      this.hash, this.read := hash, read;
      cache, flips, seen := map[], [], [];
    }

    method HashPlan(plan: Node) returns (h: string)
      ensures h == PlanHash(hash, plan)
      ensures "query_block" in plan.fields && plan.fields["query_block"].Obj? ==>
                h == hash(Canonical(plan.fields["query_block"]))
      ensures !("query_block" in plan.fields && plan.fields["query_block"].Obj?) ==> h == hash(Canonical(plan))
    {
      var sb := new Builder();
      Canonicalise(sb, Root(plan));
      assert "" + Canonical(Root(plan)) == Canonical(Root(plan));
      h := hash(sb.text);
    }

    // safeVerb says whether the example's statement is a SELECT; plan is the decoded answer of
    // EXPLAIN.
    method Run(digest: Digest, example: Fetch<Example>, safeVerb: bool, plan: Fetch<Node>, now: Time)
      returns (res: Outcome)
      requires Valid()
      modifies this
      ensures Valid()
      ensures res.Ran? <==> digest != "" && example.Fetched? && example.value.sqlText != "" && safeVerb && plan.Fetched?
      ensures res.Skipped? <==> digest != "" && example.Fetched? && (example.value.sqlText == "" || !safeVerb)
      ensures !res.Ran? ==> unchanged(this)
      ensures res.Ran? ==>
                && res.hash == PlanHash(hash, plan.value)
                && res.flags == WalkFlags(read, RootLabel(plan.value), Root(plan.value))
                && seen == old(seen) + [Observation(digest, plan.value, res.hash, now)]
                && (res.fromCache <==> digest in old(cache) && old(cache[digest].hash) == res.hash)
                && (res.flipped <==> digest in old(cache) && old(cache[digest].hash) != res.hash)
                && res.priorHash == if digest in old(cache) then old(cache)[digest].hash else ""
      ensures res.Ran? && res.fromCache ==>
                cache == old(cache)[digest := old(cache[digest]).(updatedAt := now)]
      ensures res.Ran? && !res.fromCache ==>
                cache == old(cache)[digest := PlanEntry(res.hash, res.flags, example.value, now)]
      ensures res.Ran? && res.flipped ==> flips == old(flips) + [FlipEvent(digest, res.priorHash, res.hash, now)]
      ensures res.Ran? && !res.flipped ==> flips == old(flips)
    {
      hide Canonical, WalkFlags, Consistent;
      if digest == "" {
        return Error;
      }
      if example.Failed? {
        return Error;
      }
      if example.value.sqlText == "" {
        return Skipped;
      }
      if !safeVerb {
        return Skipped;
      }
      if plan.Failed? {
        return Error;
      }
      var flags := AnalyzePlan(read, plan.value);
      var h := HashPlan(plan.value);
      ghost var o := Observation(digest, plan.value, h, now);
      seen := seen + [o];

      if digest in cache && cache[digest].hash == h {
        res := Ran(h, flags, false, h, true);
        StaysConsistent(cache, flips, old(seen), o, cache[digest].(updatedAt := now));
        assert flips + [] == flips;
        cache := cache[digest := cache[digest].(updatedAt := now)];
        return;
      }
      res := Ran(h, flags, false, "", false);
      var entry := PlanEntry(h, flags, example.value, now);
      StaysConsistent(cache, flips, old(seen), o, entry);
      if digest in cache && cache[digest].hash != h {
        res := Ran(h, flags, true, cache[digest].hash, false);
        flips := flips + [FlipEvent(digest, cache[digest].hash, h, now)];
      } else {
        assert flips + [] == flips;
      }
      cache := cache[digest := entry];
    }
  }

  // The events of one digest form a path: each starts at the hash where the one before ended,
  // the first starts at the first hash seen and the last ends at the last.
  lemma {:induction false} ChangesLink(seen: seq<Observation>)
    requires seen != []
    ensures var es := Changes(seen);
            && (es == [] ==> seen[0].hash == seen[|seen| - 1].hash)
            && (es != [] ==> es[0].priorHash == seen[0].hash && es[|es| - 1].newHash == seen[|seen| - 1].hash)
            && (forall i :: 0 <= i < |es| ==> es[i].priorHash != es[i].newHash)
            && (forall i :: 0 < i < |es| ==> es[i].priorHash == es[i - 1].newHash)
  {
    if |seen| <= 1 {
    } else {
      ChangesLink(seen[..|seen| - 1]);
      ChangesOf(seen);
      hide Changes;
    }
  }

  // One event for each observation whose hash differs from the one before it.
  lemma {:induction false} ChangesAre(seen: seq<Observation>, e: FlipEvent)
    ensures e in Changes(seen) <==>
            exists i :: && 0 < i < |seen| && seen[i - 1].hash != seen[i].hash
                        && e == FlipEvent(seen[i].digest, seen[i - 1].hash, seen[i].hash, seen[i].time)
  {
    if |seen| < 2 {
    } else {
      var n := |seen| - 1;
      ChangesAre(seen[..n], e);
      ChangesOf(seen);
      hide Changes;
      assert forall i :: 0 <= i < n ==> seen[..n][i] == seen[i];
    }
  }

  lemma {:induction false} ChangesOf(seen: seq<Observation>)
    requires |seen| > 1
    ensures var n := |seen| - 1;
            Changes(seen) ==
            if seen[n - 1].hash == seen[n].hash then Changes(seen[..n])
            else Changes(seen[..n]) + [FlipEvent(seen[n].digest, seen[n - 1].hash, seen[n].hash, seen[n].time)]
  {
  }

  // The same pairs judged by the plans themselves: those where the skeleton changed.
  ghost function SkeletonChanges(seen: seq<Observation>): seq<FlipEvent> {
    if |seen| < 2 then []
    else
      var n := |seen| - 1;
      SkeletonChanges(seen[..n]) +
      if SamePlan(Root(seen[n - 1].plan), Root(seen[n].plan)) then []
      else [FlipEvent(seen[n].digest, seen[n - 1].hash, seen[n].hash, seen[n].time)]
  }

  ghost predicate Hashed(hash: string -> string, d: Domain, seen: seq<Observation>) {
    forall i :: 0 <= i < |seen| ==> PlainPlan(d, Root(seen[i].plan)) && seen[i].hash == PlanHash(hash, seen[i].plan)
  }

  // On the readable domain a flip is logged exactly where a digest's skeleton changed.
  lemma {:induction false} FlipsAreSkeletonChanges(hash: string -> string, d: Domain, seen: seq<Observation>)
    requires Injective(hash) && Readable(d) && Hashed(hash, d, seen)
    ensures Changes(seen) == SkeletonChanges(seen)
  {
    hide Canonical, SamePlan, PlainPlan;
    if |seen| < 2 {
    } else {
      var n := |seen| - 1;
      FlipsAreSkeletonChanges(hash, d, seen[..n]);
      HashTellsPlansApart(hash, d, seen[n - 1].plan, seen[n].plan);
    }
  }
}
