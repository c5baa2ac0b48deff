/** Printing a transaction's age and reading it back. */
module Durations {
  import opened Decimals
  import opened Signed

  // Durations are signed 64-bit nanoseconds.
  const SECOND: Int64 := 1_000_000_000
  const MINUTE: Int64 := 60 * SECOND
  const HOUR: Int64 := 60 * MINUTE

  // The largest power of two up to n.
  function Binade(n: nat): (b: nat)
    requires n > 0
    ensures b <= n < 2 * b
  {
    if n == 1 then 1 else 2 * Binade(n / 2)
  }

  const TWO53: nat := 0x20_0000_0000_0000

  // Seconds are computed as the float64 sum of a whole number and a fraction. It comes out as
  // the next whole number when the fraction is within half a unit in the last place of one;
  // the unit is a 2^52th of the binade of the whole number, and a tie goes up.
  predicate Carries(whole: nat, nanos: nat)
    requires nanos < SECOND
  {
    whole > 0 && (SECOND - nanos) * TWO53 <= SECOND * Binade(whole)
  }

  function Magnitude(d: nat): nat {
    d / SECOND + if Carries(d / SECOND, d % SECOND) then 1 else 0
  }

  // The conversion of that sum to a whole number truncates toward zero.
  function Seconds(d: Int64): int {
    if d >= 0 then Magnitude(d) else -(Magnitude(-(d as int)) as int)
  }

  function SignedDec(n: int): string {
    if n >= 0 then Dec(n) else "-" + Dec(-n)
  }

  function FormatDuration(d: Int64): string {
    var totalSeconds := Seconds(d);
    if totalSeconds < 60 then SignedDec(totalSeconds) + "s"
    else
      var minutes, seconds := totalSeconds / 60, totalSeconds % 60;
      if minutes < 60 then Dec(minutes) + "m" + Dec(seconds) + "s"
      else Dec(minutes / 60) + "h" + Dec(minutes % 60) + "m"
  }

  // Reading

  function DigitValue(c: char): nat
    requires IsDigit(c)
  {
    c as int - '0' as int
  }

  // How many digits a text starts with.
  function Leading(s: string): (n: nat)
    ensures n <= |s| && forall i :: 0 <= i < n ==> IsDigit(s[i])
    ensures n < |s| ==> !IsDigit(s[n])
  {
    if s == "" || !IsDigit(s[0]) then 0 else 1 + Leading(s[1..])
  }

  function Value(s: string): nat
    requires forall i :: 0 <= i < |s| ==> IsDigit(s[i])
  {
    if s == "" then 0 else 10 * Value(s[..|s| - 1]) + DigitValue(s[|s| - 1])
  }

  function Unit(c: char): (u: Int64)
  {
    if c == 'h' then HOUR else if c == 'm' then MINUTE else if c == 's' then SECOND else 0
  }

  // Any malformed text reads as zero, however much of it was well formed.
  function Parsed(s: string, total: Int64): Int64
    decreases |s|
  {
    if s == "" then total
    else
      var j := Leading(s);
      if j == 0 || j >= |s| || Value(s[..j]) > MAX64 || Unit(s[j]) == 0 then 0
      else Parsed(s[j + 1..], AsInt64(total + AsInt64(Value(s[..j]) * Unit(s[j]))))
  }

  method ParseDuration(s: string) returns (d: Int64)
    ensures d == Parsed(s, 0)
  {
    hide AsInt64, Value, Parsed, Leading;
    var total: Int64 := 0;
    var i := 0;
    assert s[0..] == s;
    while i < |s|
      invariant i <= |s| && Parsed(s[i..], total) == Parsed(s, 0)
      decreases |s| - i
    {
      var j := ScanDigits(s, i);
      ParsedStep(s, i, j, total);
      if j == i {
        return 0;
      }
      var num := Value(s[i..j]);
      if num > MAX64 {
        return 0;
      }
      if j >= |s| {
        return 0;
      }
      match s[j] {
        case 'h' => total := AsInt64(total + AsInt64(num * HOUR));
        case 'm' => total := AsInt64(total + AsInt64(num * MINUTE));
        case 's' => total := AsInt64(total + AsInt64(num * SECOND));
        case _ => return 0;
      }
      i := j + 1;
    }
    assert s[i..] == "";
    ParsedEnd(total);
    d := total;
  }

  // The inner loop: the end of the digits that start at i.
  method ScanDigits(s: string, i: nat) returns (j: nat)
    requires i < |s|
    ensures i <= j <= |s| && (forall k :: i <= k < j ==> IsDigit(s[k])) && Leading(s[i..]) == j - i
  {
    j := i;
    while j < |s| && IsDigit(s[j])
      invariant i <= j <= |s| && forall k :: i <= k < j ==> IsDigit(s[k])
      invariant Leading(s[i..]) == j - i + Leading(s[j..])
    {
      assert s[j..][1..] == s[j + 1..];
      j := j + 1;
    }
  }

  lemma {:induction false} ParsedStep(s: string, i: nat, j: nat, total: Int64)
    requires i < |s| && i <= j <= |s| && (forall k :: i <= k < j ==> IsDigit(s[k])) && Leading(s[i..]) == j - i
    ensures Parsed(s[i..], total) ==
            if j == i || Value(s[i..j]) > MAX64 || j >= |s| || Unit(s[j]) == 0 then 0
            else Parsed(s[j + 1..], AsInt64(total + AsInt64(Value(s[i..j]) * Unit(s[j]))))
  {
    hide AsInt64, Value, Leading;
    assert s[i..][..j - i] == s[i..j];
    assert j < |s| ==> s[i..][j - i] == s[j] && s[i..][j - i + 1..] == s[j + 1..];
  }

  // Round trip

  lemma {:induction false} ValueOfDec(n: nat)
    ensures Value(Dec(n)) == n
  {
    if n >= 10 {
      ValueOfDec(n / 10);
      assert Dec(n)[..|Dec(n)| - 1] == Dec(n / 10);
    } else {
      assert Dec(n)[..0] == "";
    }
  }

  lemma {:induction false} LeadingOf(s: string, c: char, r: string)
    requires (forall i :: 0 <= i < |s| ==> IsDigit(s[i])) && !IsDigit(c)
    ensures Leading(s + [c] + r) == |s|
  {
    if s != "" {
      LeadingOf(s[1..], c, r);
      assert (s + [c] + r)[1..] == s[1..] + [c] + r;
    } else {
      assert s + [c] + r == [c] + r;
    }
  }

  // One printed number with its unit is read off the front.
  lemma {:induction false} ReadOne(n: nat, c: char, r: string, total: Int64)
    requires c in {'h', 'm', 's'} && n <= MAX64 && MIN64 <= n * Unit(c) <= MAX64
             && MIN64 <= total + n * Unit(c) <= MAX64
    ensures Parsed(Dec(n) + [c] + r, total) == Parsed(r, total + n * Unit(c))
  {
    hide AsInt64, Parsed, Leading, Value, Dec;
    var s := Dec(n) + [c] + r;
    LeadingOf(Dec(n), c, r);
    ValueOfDec(n);
    InRange(n * Unit(c));
    InRange(total + n * Unit(c));
    hide *;
    FrontOf(Dec(n), c, r);
    ReadStep(s, |Dec(n)|, total);
  }

  lemma FrontOf(s: string, c: char, r: string)
    ensures var t := s + [c] + r; t[..|s|] == s && t[|s|] == c && t[|s| + 1..] == r
  {
  }

  lemma ReadStep(s: string, j: nat, total: Int64)
    requires s != "" && Leading(s) == j && 0 < j < |s| && Unit(s[j]) != 0 && Value(s[..j]) <= MAX64
    ensures Parsed(s, total) == Parsed(s[j + 1..], AsInt64(total + AsInt64(Value(s[..j]) * Unit(s[j]))))
  {
  }

  // What is read: hours, minutes and seconds, and nothing else. A text that does not start with
  // a digit, ends in one or has another character after its digits reads as zero.
  lemma {:induction false} ReadsUnits(h: nat, m: nat, s: nat)
    requires (h * 3600 + m * 60 + s) * 1_000_000_000 <= 0x7FFF_FFFF_FFFF_FFFF
    ensures Parsed(Dec(h) + ['h'] + (Dec(m) + ['m'] + (Dec(s) + ['s'])), 0)
         == (h * 3600 + m * 60 + s) * 1_000_000_000
  {
    hide Parsed, Dec;
    assert Dec(s) + ['s'] == Dec(s) + ['s'] + "";
    ReadOne(h, 'h', Dec(m) + ['m'] + (Dec(s) + ['s'] + ""), 0);
    ReadOne(m, 'm', Dec(s) + ['s'] + "", h * HOUR);
    ReadOne(s, 's', "", h * HOUR + m * MINUTE);
    ParsedEnd(h * HOUR + m * MINUTE + s * SECOND);
  }

  lemma {:induction false} ReadsNothingElse(n: nat, c: char, r: string, total: Int64)
    ensures Parsed(Dec(n), total) == 0
    ensures !('0' <= c <= '9') ==> Parsed([c] + r, total) == 0
    ensures !('0' <= c <= '9') && c != 'h' && c != 'm' && c != 's' ==> Parsed(Dec(n) + [c] + r, total) == 0
  {
    if !IsDigit(c) {
      LeadingOf(Dec(n), c, r);
    }
  }

  // What survives: whole seconds below an hour, whole minutes from an hour up, nothing below
  // zero.
  function Rounded(d: Int64): Int64 {
    if d < 0 then 0
    else if d < HOUR then d / SECOND * SECOND
    else d / MINUTE * MINUTE
  }

  // The float64 sum has carried into the next minute.
  predicate RoundsUp(d: Int64) {
    d >= 0 && Carries(d / SECOND, d % SECOND) && (d / SECOND + 1) % 60 == 0
  }

  // Reading a printed duration gives it rounded down, or the next minute if the sum carried
  // into it.
  lemma RoundTrip(d: Int64)
    ensures Parsed(FormatDuration(d), 0) == Rounded(d) + if RoundsUp(d) then MINUTE else 0
  {
    var t := Seconds(d);
    RoundedSeconds(d);
    hide Parsed, Dec, Rounded, RoundsUp;
    if t < 0 {
      hide Seconds;
      NegativeForm(t);
    } else if t < 60 {
      hide Seconds;
      ShortForm(t);
    } else if t / 60 < 60 {
      hide Seconds;
      MinuteForm(t / 60, t % 60);
    } else {
      hide Seconds;
      HourForm(t / 60 / 60, t / 60 % 60);
    }
  }

  // The text: whole seconds, rounded toward zero except where the sum carries, split into the
  // units; seconds are left out from an hour up.
  lemma TextIs(d: Int64) returns (carry: nat)
    ensures carry <= 1 && (carry == 1 ==> d <= -16_777_216_000_000_000 || 16_777_216_000_000_000 <= d)
    ensures d >= 0 ==>
              var t := d / 1_000_000_000 + carry;
              FormatDuration(d) == if t < 60 then Dec(t) + "s"
                                   else if t < 3600 then Dec(t / 60) + "m" + Dec(t % 60) + "s"
                                   else Dec(t / 3600) + "h" + Dec(t / 60 % 60) + "m"
    ensures d < 0 ==>
              var t := -(d as int) / 1_000_000_000 + carry;
              FormatDuration(d) == if t == 0 then "0s" else "-" + Dec(t) + "s"
  {
    var n: nat := if d >= 0 then d else -(d as int);
    carry := if Carries(n / SECOND, n % SECOND) then 1 else 0;
    CarriesFrom(n / SECOND, n % SECOND);
    hide Carries;
    assert n == n / SECOND * SECOND + n % SECOND;
    Thirds(n / SECOND + carry);
    assert Dec(0) == "0";
    hide Dec;
  }

  lemma Thirds(t: nat)
    ensures t / 60 / 60 == t / 3600 && (t / 60 < 60 <==> t < 3600)
  {
  }

  // The sum carries only from 2^24 seconds on, and does so there.
  lemma CarriesFrom(whole: nat, nanos: nat)
    requires nanos < 1_000_000_000
    ensures Carries(whole, nanos) ==> whole >= 16_777_216
    ensures Carries(16_777_216, 999_999_999)
  {
    BinadeOfPower(24);
    PowersAre();
    hide Power;
    assert (SECOND - nanos) * TWO53 >= TWO53;
    if Carries(whole, nanos) && whole < 16_777_216 {
      SmallBinade(whole, 24);
    }
  }

  lemma PowersAre()
    ensures Power(24) == 16_777_216 && Power(23) == 8_388_608
  {
    assert Power(6) == 64 && Power(12) == 4096 && Power(18) == 262_144;
  }

  function Power(k: nat): nat {
    if k == 0 then 1 else 2 * Power(k - 1)
  }

  lemma {:induction false} SmallBinade(n: nat, k: nat)
    requires 0 < n < Power(k)
    ensures k > 0 && Binade(n) <= Power(k - 1)
  {
    if n == 1 {
    } else {
      SmallBinade(n / 2, k - 1);
    }
  }

  lemma {:induction false} BinadeOfPower(k: nat)
    ensures Power(k) > 0 && Binade(Power(k)) == Power(k)
  {
    if k == 0 {
    } else {
      BinadeOfPower(k - 1);
    }
  }

  // What is printed, before it is split into units.
  lemma RoundedSeconds(d: Int64)
    ensures var t, r := Seconds(d), Rounded(d) + if RoundsUp(d) then MINUTE else 0;
            && r == (if t < 0 || d < 0 then 0 else if t < 3600 then t * SECOND else t / 60 * MINUTE)
            && r <= MAX64 && (d < 0 ==> t <= 0)
  {
    if d >= 0 {
      var s, n := d / SECOND, d % SECOND;
      assert d == s * SECOND + n;
      Minutes(d);
    }
  }

  lemma Minutes(d: nat)
    ensures d / MINUTE == d / SECOND / 60 && (d < HOUR <==> d / SECOND < 3600)
  {
    var s := d / SECOND;
    assert d == s * SECOND + d % SECOND;
    assert s == (s / 60) * 60 + s % 60;
  }

  lemma NegativeForm(t: int)
    requires t < 0
    ensures Parsed(SignedDec(t) + "s", 0) == 0
  {
    var s := SignedDec(t) + "s";
    assert s[0] == '-';
    assert Leading(s) == 0;
  }

  lemma {:induction false} ParsedEnd(total: Int64)
    ensures Parsed("", total) == total
  {
  }

  lemma {:induction false} ShortForm(s: nat)
    requires s < 60
    ensures Parsed(Dec(s) + "s", 0) == s * SECOND
  {
    hide Parsed, Dec;
    ParsedEnd(s * SECOND);
    assert Dec(s) + "s" == Dec(s) + ['s'] + "";
    ReadOne(s, 's', "", 0);
  }

  lemma {:induction false} MinuteForm(m: nat, s: nat)
    requires m < 60 && s < 60
    ensures Parsed(Dec(m) + "m" + Dec(s) + "s", 0) == m * MINUTE + s * SECOND
  {
    hide Parsed, Dec;
    ParsedEnd(m * MINUTE + s * SECOND);
    assert Dec(m) + "m" + Dec(s) + "s" == Dec(m) + ['m'] + (Dec(s) + ['s'] + "");
    ReadOne(m, 'm', Dec(s) + ['s'] + "", 0);
    ReadOne(s, 's', "", m * MINUTE);
  }

  lemma {:induction false} HourForm(h: nat, m: nat)
    requires m < 60 && h * HOUR + m * MINUTE <= MAX64
    ensures Parsed(Dec(h) + "h" + Dec(m) + "m", 0) == h * HOUR + m * MINUTE
  {
    hide Parsed, Dec;
    ParsedEnd(h * HOUR + m * MINUTE);
    assert Dec(h) + "h" + Dec(m) + "m" == Dec(h) + ['h'] + (Dec(m) + ['m'] + "");
    ReadOne(h, 'h', Dec(m) + ['m'] + "", 0);
    ReadOne(m, 'm', "", h * HOUR);
  }

  // So the pair is monotone, errs by less than a minute, and errs upward exactly where the sum
  // carried into the next minute.
  lemma RoundTripIsMonotone(d: Int64, e: Int64)
    requires d <= e
    ensures Parsed(FormatDuration(d), 0) <= Parsed(FormatDuration(e), 0)
    ensures d >= 0 ==> d - MINUTE < Parsed(FormatDuration(d), 0) < d + MINUTE
    ensures d >= 0 ==> (Parsed(FormatDuration(d), 0) <= d <==> !RoundsUp(d))
  {
    RoundTrip(d);
    RoundTrip(e);
    hide *;
    RoundedGrows(d, e);
  }

  lemma RoundedGrows(d: Int64, e: Int64)
    requires d <= e
    ensures Rounded(d) + (if RoundsUp(d) then MINUTE else 0) <= Rounded(e) + if RoundsUp(e) then MINUTE else 0
    ensures d >= 0 ==> Rounded(d) <= d < Rounded(d) + MINUTE
    ensures RoundsUp(d) ==> d < Rounded(d) + MINUTE < d + MINUTE
  {
    RoundedSeconds(d);
    RoundedSeconds(e);
    if d >= 0 {
      PrintedGrows(Magnitude(d), Magnitude(e));
      Floors(d, d, SECOND);
      Floors(d, d, MINUTE);
      if RoundsUp(d) {
        CarriedMinute(d);
      }
    }
  }

  lemma PrintedGrows(t: nat, u: nat)
    requires t <= u
    ensures (if t < 3600 then t * SECOND else t / 60 * MINUTE) <= if u < 3600 then u * SECOND else u / 60 * MINUTE
  {
    Floors(t, u, 60);
  }

  lemma CarriedMinute(d: nat)
    requires (d / SECOND + 1) % 60 == 0
    ensures d / MINUTE * MINUTE + MINUTE == (d / SECOND + 1) * SECOND
    ensures d < (d / SECOND + 1) * SECOND < d + MINUTE
  {
    Minutes(d);
    Floors(d, d, SECOND);
  }

  // One nanosecond short of 5004 hours and a minute reads back as that minute.
  lemma RoundsUpSomewhere()
    ensures var d := 18_014_459_999_999_999; RoundsUp(d) && Parsed(FormatDuration(d), 0) == d + 1
  {
    var d := 18_014_459_999_999_999;
    RoundTrip(d);
    hide *;
    RoundsUpThere(d);
  }

  lemma RoundsUpThere(d: Int64)
    requires d == 18_014_459_999_999_999 && Carries(18_014_459, 999_999_999)
    ensures RoundsUp(d) && Rounded(d) == d + 1 - MINUTE
  {
    hide Carries;
    assert d / SECOND == 18_014_459 && d % SECOND == 999_999_999;
  }

  lemma Floors(d: nat, e: nat, unit: nat)
    requires unit > 0 && d <= e
    ensures d / unit * unit <= e / unit * unit
    ensures d / unit * unit <= d < d / unit * unit + unit
  {
    var a, b := d / unit, e / unit;
    assert d == a * unit + d % unit && e == b * unit + e % unit;
    if a <= b {
      Multiples(a, b, unit);
    } else {
      Multiples(b + 1, a, unit);
    }
  }

  lemma Multiples(a: nat, b: nat, unit: nat)
    requires a <= b
    ensures a * unit <= b * unit && (a - 1) * unit == a * unit - unit
  {
    assert (b - a) * unit == b * unit - a * unit && (b - a) * unit >= 0;
  }
}
