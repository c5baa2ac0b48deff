/** The fixed-capacity ring buffer, the sink around it, and the capacity it is given. */
module Rings {
  import opened Sorting

  // Times and durations in nanoseconds.
  type Time = int
  type Duration = int

  // Wall-clock readings; the zero time of a collector that has never polled is not one.
  type Instant = t: Time | t > 0 witness 1
  const NEVER: Time := 0

  // What a bounded log keeps of an unbounded one: the newest n items.
  function Newest<T>(n: nat, s: seq<T>): seq<T> {
    if |s| <= n then s else s[|s| - n..]
  }

  // What a buffer shows that is written at head next and, once full, wraps around.
  ghost function Shown<T>(all: seq<T>, head: nat, full: bool): seq<T>
    requires head <= |all|
  {
    if full then all[head..] + all[..head] else all[..head]
  }

  lemma Overwrite<T>(all: seq<T>, head: nat, full: bool, log: seq<T>, v: T)
    requires head < |all| && Shown(all, head, full) == Newest(|all|, log) && (full <==> |log| >= |all|)
    ensures head + 1 < |all| ==> Shown(all[head := v], head + 1, full) == Newest(|all|, log + [v])
    ensures head + 1 == |all| ==> Shown(all[head := v], 0, true) == Newest(|all|, log + [v]) && |log + [v]| >= |all|
    ensures head + 1 < |all| ==> (full <==> |log + [v]| >= |all|)
  {
    var after := all[head := v];
    if full {
      hide Newest;
      assert after[head + 1..] + after[..head + 1] == (all[head..] + all[..head])[1..] + [v];
      assert head + 1 == |all| ==> after[0..] + after[..0] == after[head + 1..] + after[..head + 1];
    } else {
      assert after[..head + 1] == all[..head] + [v];
      assert head + 1 == |all| ==> after[0..] + after[..0] == after[..head + 1];
    }
  }

  class RingBuffer<T(0)> {
    const buf: array<T>
    var head: nat
    var full: bool
    // Everything appended since the buffer was created or reset.
    ghost var log: seq<T>

    // Oldest first.
    ghost function Retained(): seq<T>
      requires head <= buf.Length
      reads this, buf
    {
      Shown(buf[..], head, full)
    }

    ghost predicate Valid()
      reads this, buf
    {
      && head < buf.Length
      && Retained() == Newest(buf.Length, log)
      && (full <==> |log| >= buf.Length)
    }

    constructor (capacity: int)
      ensures Valid() && log == [] && fresh(buf)
      ensures buf.Length == if capacity < 1 then 1 else capacity
    {
      var n := if capacity < 1 then 1 else capacity;
      buf := new T[n];
      head, full, log := 0, false, [];
    }

    method Len() returns (n: nat)
      requires Valid()
      ensures n == |Newest(buf.Length, log)| && n <= buf.Length
    {
      if full {
        return buf.Length;
      }
      return head;
    }

    method Append(v: T)
      requires Valid()
      modifies this, buf
      ensures Valid() && log == old(log) + [v]
    {
      hide Shown, Newest;
      Overwrite(buf[..], head, full, log, v);
      ghost var all, h := buf[..], head;
      buf[head] := v;
      assert buf[..] == all[h := v];
      head := head + 1;
      log := log + [v];
      if head == buf.Length {
        head := 0;
        full := true;
      }
    }

    // The iterator, run to its end: items come out oldest first.
    method All() returns (items: seq<T>)
      requires Valid()
      ensures items == Newest(buf.Length, log)
    {
      var n := Len();
      items := [];
      if n == 0 {
        return;
      }
      var start := 0;
      if full {
        start := head;
      }
      for i := 0 to n
        invariant items == Retained()[..i]
      {
        WrapIndex(start, i, buf.Length);
        items := items + [buf[(start + i) % buf.Length]];
      }
    }

    method NewestItem() returns (v: T, ok: bool)
      requires Valid()
      ensures ok <==> log != []
      ensures ok ==> v == log[|log| - 1]
    {
      var n := Len();
      if n == 0 {
        v := *;
        return v, false;
      }
      var idx := head - 1;
      if idx < 0 {
        idx := buf.Length - 1;
      }
      assert Retained()[n - 1] == buf[idx];
      return buf[idx], true;
    }

    method Reset()
      requires Valid()
      modifies this
      ensures Valid() && log == []
    {
      head := 0;
      full := false;
      log := [];
    }
  }

  lemma WrapIndex(start: nat, i: nat, n: nat)
    requires start < n && i < n
    ensures (start + i) % n == if start + i < n then start + i else start + i - n
  {
    if start + i >= n {
      assert (start + i) % n == (start + i - n) % n;
    }
  }

  // The samples whose time is not before the start of the window; a window of zero means all.
  function InWindow<T>(timeOf: T -> Time, now: Time, window: Duration, s: seq<T>): seq<T> {
    if window > 0 then Filter(Since(timeOf, now - window), s) else s
  }

  function Since<T>(timeOf: T -> Time, cutoff: Time): T -> bool {
    v => timeOf(v) >= cutoff
  }

  lemma {:induction false} WindowHolds<T>(timeOf: T -> Time, now: Time, window: Duration, s: seq<T>, v: T)
    ensures v in InWindow(timeOf, now, window, s) <==> v in s && (window <= 0 || timeOf(v) >= now - window)
  {
    FilterHolds(Since(timeOf, now - window), s, v);
  }

  class RingSink<T(0)> {
    const ring: RingBuffer<T>
    const timeOf: T -> Time

    ghost predicate Valid()
      reads this, ring, ring.buf
    {
      ring.Valid()
    }

    constructor (capacity: int, timeOf: T -> Time)
      ensures Valid() && ring.log == [] && fresh(ring) && fresh(ring.buf) && this.timeOf == timeOf
      ensures ring.buf.Length == if capacity < 1 then 1 else capacity
    {
      ring := new RingBuffer(capacity);
      this.timeOf := timeOf;
    }

    method Append(v: T)
      requires Valid()
      modifies ring, ring.buf
      ensures Valid() && ring.log == old(ring.log) + [v]
    {
      ring.Append(v);
    }

    method Range(now: Time, window: Duration) returns (out: seq<T>)
      requires Valid()
      ensures out == InWindow(timeOf, now, window, Newest(ring.buf.Length, ring.log))
    {
      var cutoff := 0;
      if window > 0 {
        cutoff := now - window;
      }
      out := [];
      var all := ring.All();
      ghost var keep := Since(timeOf, now - window);
      for i := 0 to |all|
        invariant out == if window > 0 then Filter(keep, all[..i]) else all[..i]
      {
        assert all[..i + 1][..i] == all[..i];
        if window > 0 && timeOf(all[i]) < cutoff {
          continue;
        }
        out := out + [all[i]];
      }
      assert all[..|all|] == all;
    }
  }

  // The window is documented as ending now, but nothing cuts samples from later off: the
  // answer is the documented one exactly when no retained sample is from the future.

  function Within<T>(timeOf: T -> Time, from: Time, to: Time): T -> bool {
    v => from <= timeOf(v) <= to
  }

  lemma {:induction false} WindowEndsNowIff<T>(timeOf: T -> Time, now: Time, window: Duration, s: seq<T>)
    requires window > 0
    ensures InWindow(timeOf, now, window, s) == Filter(Within(timeOf, now - window, now), s) <==>
            forall i :: 0 <= i < |s| ==> timeOf(s[i]) <= now
  {
    var since, within := Since(timeOf, now - window), Within(timeOf, now - window, now);
    if i :| 0 <= i < |s| && timeOf(s[i]) > now {
      FilterHolds(since, s, s[i]);
      FilterHolds(within, s, s[i]);
    } else {
      FilterAgrees(since, within, s);
    }
  }

  // A sample taken a moment after now is part of the answer, whatever the window.
  lemma FutureSampleAnswered(now: Time, window: Duration)
    requires window > 0
    ensures InWindow(Itself, now, window, [now + 1]) == [now + 1]
    ensures Filter(Within(Itself, now - window, now), [now + 1]) == []
  {
    AllInWindow(now, window, [now + 1]);
    var within := Within(Itself, now - window, now);
    assert !within(now + 1);
    FilterNone(within, [now + 1]);
  }

  lemma {:induction false} FilterAgrees<T>(keep: T -> bool, same: T -> bool, s: seq<T>)
    requires forall i :: 0 <= i < |s| ==> keep(s[i]) == same(s[i])
    ensures Filter(keep, s) == Filter(same, s)
  {
    if s == [] {
    } else {
      FilterAgrees(keep, same, s[..|s| - 1]);
    }
  }

  // Capacity sizing

  const DEFAULT_POLL_INTERVAL: Duration := 10_000_000_000
  const DEFAULT_WINDOW: Duration := 3_600_000_000_000

  method Sizing(pollInterval: Duration, window: Duration) returns (poll: Duration, win: Duration, sampleCap: int)
    ensures poll == if pollInterval <= 0 then 10_000_000_000 else pollInterval
    ensures win == if window <= 0 then 3_600_000_000_000 else window
    ensures sampleCap == Capacity(win, poll)
    ensures sampleCap >= 8 && sampleCap * poll > win
    ensures sampleCap > 8 ==> (sampleCap - 1) * poll <= win
  {
    poll, win := pollInterval, window;
    if poll <= 0 {
      poll := DEFAULT_POLL_INTERVAL;
    }
    if win <= 0 {
      win := DEFAULT_WINDOW;
    }
    sampleCap := win / poll + 1;
    if sampleCap < 8 {
      sampleCap := 8;
    }
    Longer(sampleCap, poll, win, sampleCap);
  }

  function Capacity(window: Duration, poll: Duration): nat
    requires window > 0 && poll > 0
  {
    if window / poll + 1 < 8 then 8 else window / poll + 1
  }

  ghost predicate Spaced<T>(timeOf: T -> Time, poll: Duration, log: seq<T>) {
    forall i :: 0 < i < |log| ==> timeOf(log[i]) >= timeOf(log[i - 1]) + poll
  }

  lemma {:induction false} Gap<T>(timeOf: T -> Time, poll: Duration, log: seq<T>, i: nat, j: nat)
    requires Spaced(timeOf, poll, log) && i <= j < |log|
    ensures timeOf(log[j]) >= timeOf(log[i]) + (j - i) * poll
    decreases j - i
  {
    if i == j {
    } else {
      Gap(timeOf, poll, log, i, j - 1);
      assert (j - i) * poll == (j - 1 - i) * poll + poll;
    }
  }

  lemma {:induction false} FilterNone<T>(keep: T -> bool, s: seq<T>)
    requires forall i :: 0 <= i < |s| ==> !keep(s[i])
    ensures Filter(keep, s) == []
  {
    if s == [] {
    } else {
      FilterNone(keep, s[..|s| - 1]);
    }
  }

  // A ring of that capacity answers every window query exactly as an unbounded log would.
  lemma NothingInWindowIsLost<T>(timeOf: T -> Time, poll: Duration, window: Duration, log: seq<T>, now: Time,
      w: Duration)
    requires poll > 0 && 0 < w <= window
    requires Spaced(timeOf, poll, log) && (log != [] ==> timeOf(log[|log| - 1]) <= now)
    ensures InWindow(timeOf, now, w, Newest(Capacity(window, poll), log)) == InWindow(timeOf, now, w, log)
  {
    var cap := Capacity(window, poll);
    if |log| > cap {
      var k := |log| - cap;
      var keep := Since(timeOf, now - w);
      forall i | 0 <= i < k ensures !keep(log[..k][i]) {
        Gap(timeOf, poll, log, i, |log| - 1);
        Longer(cap, poll, window, |log| - 1 - i);
      }
      FilterNone(keep, log[..k]);
      FilterConcat(keep, log[..k], log[k..]);
      assert log == log[..k] + log[k..];
    }
  }

  lemma Longer(cap: nat, poll: Duration, window: Duration, n: nat)
    requires poll > 0 && window > 0 && cap == Capacity(window, poll) && n >= cap
    ensures n * poll > window
  {
    var q := window / poll;
    assert window == q * poll + window % poll && window % poll < poll;
    assert (q + 1) * poll == q * poll + poll;
    assert n * poll >= (q + 1) * poll by { Monotone(q + 1, n, poll); }
  }

  lemma Monotone(a: nat, b: nat, p: nat)
    requires a <= b
    ensures a * p <= b * p
  {
  }

  // And no smaller one would do: the one sample that it overwrites can still be in the window.
  lemma SmallerRingLoses(poll: Duration, window: Duration, cap: nat) returns (log: seq<Time>)
    requires poll > 0 && window > 0 && cap <= window / poll
    ensures Spaced(Itself, poll, log) && log != []
    ensures var now := log[|log| - 1];
            InWindow(Itself, now, window, Newest(cap, log)) != InWindow(Itself, now, window, log)
  {
    log := seq(cap + 1, i => i * poll);
    var now := log[cap];
    assert now <= window by {
      assert window == (window / poll) * poll + window % poll;
      Monotone(cap, window / poll, poll);
    }
    forall i | 0 < i < |log| ensures Itself(log[i]) >= Itself(log[i - 1]) + poll {
      assert i * poll == (i - 1) * poll + poll;
    }
    forall i | 0 <= i < |log| ensures log[i] >= now - window {
      Monotone(0, i, poll);
    }
    AllInWindow(now, window, log);
    AllInWindow(now, window, Newest(cap, log));
  }

  function Itself(t: Time): Time {
    t
  }

  lemma AllInWindow(now: Time, window: Duration, s: seq<Time>)
    requires window > 0 && forall i :: 0 <= i < |s| ==> s[i] >= now - window
    ensures InWindow(Itself, now, window, s) == s
  {
    var since := Since(Itself, now - window);
    forall i | 0 <= i < |s| ensures since(s[i]) {
      assert Itself(s[i]) == s[i];
    }
    FilterAll(since, s);
  }

  lemma {:induction false} FilterAll<T>(keep: T -> bool, s: seq<T>)
    requires forall i :: 0 <= i < |s| ==> keep(s[i])
    ensures Filter(keep, s) == s
  {
    if s == [] {
    } else {
      FilterAll(keep, s[..|s| - 1]);
      assert s == s[..|s| - 1] + [s[|s| - 1]];
    }
  }
}
