/** The timekeeper: fixed-point conversion of cycles, and how far it drifts. */
module Time {
  import Bits

  const NSEC_PER_SEC: nat := 1_000_000_000
  const SHIFT_FACTOR: nat := 0x100_0000           // 1 << 24
  const U32: nat := 0x1_0000_0000
  const U64: nat := 0x1_0000_0000_0000_0000

  function Times(a: nat, b: nat): nat { a * b }

  // NSEC_PER_SEC << 24
  function Scaled(): nat { NSEC_PER_SEC * SHIFT_FACTOR }

  // The quotient, cut to 32 bits.
  function Mult(freq: nat): nat
    requires freq > 0
  {
    Scaled() / freq % U32
  }

  // The product is taken in 64 bits.
  function Convert(delta: nat, mult: nat): (ns: nat)
    ensures ns < 0x100_0000_0000
  {
    Times(delta, mult) % U64 / SHIFT_FACTOR
  }

  // A counter reading, and the difference of two as the code takes it.
  function Reading(t: nat): nat { t % U64 }

  function WrappingSub(a: nat, b: nat): nat
    requires a < U64 && b < U64
  {
    (a + U64 - b) % U64
  }

  lemma ModShift(a: nat, b: nat, m: nat)
    requires 0 < m && a <= b && b - a < m
    ensures (b % m + m - a % m) % m == b - a
  {
    Shift(a, b, m, a / m, a % m, b / m, b % m);
  }

  lemma Shift(a: nat, b: nat, m: nat, qa: nat, ra: nat, qb: nat, rb: nat)
    requires 0 < m && a <= b && b - a < m && a == qa * m + ra && b == qb * m + rb && ra < m && rb < m
    ensures (rb + m - ra) % m == b - a
  {
    assert (qb - qa) * m == qb * m - qa * m;
    OneOrNone(qb - qa, m, b - a + ra - rb);
    Bits.DivUnique(rb + m - ra, m, if qb == qa then 1 else 0, b - a);
  }

  lemma OneOrNone(k: int, m: nat, x: int)
    requires k * m == x && 0 < x + m && x < 2 * m
    ensures (k == 0 && x == 0) || (k == 1 && x == m)
  {
    if k > 1 { Bits.MulMono(2, k, m); }
    if k < 0 { Bits.MulMono(k, -1, m); }
  }

  // Across a wrap of the counter the difference is still the number of cycles that have passed.
  lemma WrapsRight(a: nat, b: nat)
    requires a <= b && b - a < U64
    ensures WrappingSub(Reading(b), Reading(a)) == b - a
  {
    ModShift(a, b, U64);
  }

  // ----- drift -----

  function Sum(deltas: seq<nat>): nat {
    if deltas == [] then 0 else Sum(deltas[..|deltas| - 1]) + deltas[|deltas| - 1]
  }

  // The nanoseconds that updates after the given numbers of cycles add.
  function Elapsed(mult: nat, deltas: seq<nat>): nat {
    if deltas == [] then 0 else Elapsed(mult, deltas[..|deltas| - 1]) + Convert(deltas[|deltas| - 1], mult)
  }

  // The product of each update fits a machine word.
  ghost predicate NoWrap(mult: nat, deltas: seq<nat>) {
    forall i :: 0 <= i < |deltas| ==> Times(deltas[i], mult) < U64
  }

  lemma OneRounding(delta: nat, mult: nat)
    ensures var (x, q) := (Times(delta, mult), Convert(delta, mult));
            q * SHIFT_FACTOR <= x && (x < U64 ==> x <= q * SHIFT_FACTOR + SHIFT_FACTOR - 1)
  {
    WordBound(Times(delta, mult));
  }

  lemma WordBound(x: nat)
    ensures var r := x % U64; r <= x && (x < U64 ==> r == x) && r / SHIFT_FACTOR * SHIFT_FACTOR <= r < r / SHIFT_FACTOR * SHIFT_FACTOR + SHIFT_FACTOR
  {
  }

  // No update gains on what the multiplier makes of the cycles, and one whose product does not wrap loses less
  // than a nanosecond of it.
  lemma {:induction false} Rounding(mult: nat, deltas: seq<nat>)
    ensures Elapsed(mult, deltas) * SHIFT_FACTOR <= Times(Sum(deltas), mult)
    ensures NoWrap(mult, deltas) ==> Times(Sum(deltas), mult) <= (Elapsed(mult, deltas) + |deltas|) * SHIFT_FACTOR - |deltas|
    decreases |deltas|
  {
    if deltas != [] {
      var before, d := deltas[..|deltas| - 1], deltas[|deltas| - 1];
      Rounding(mult, before);
      assert Times(Sum(deltas), mult) == Times(Sum(before), mult) + Times(d, mult);
      OneRounding(d, mult);
      assert NoWrap(mult, deltas) ==> NoWrap(mult, before) && Times(d, mult) < U64;
    }
  }

  // Never fast, and after n updates over D cycles slow by less than n + D / 2^24 nanoseconds, that is
  // D * 10^9 / freq - elapsed < n + D / 2^24, multiplied out.
  predicate Keeps(freq: nat, d: nat, n: nat, t: nat) {
    NotAhead(freq, d, t) && (n > 0 ==> NotBehind(freq, d, n, t))
  }

  predicate NotAhead(freq: nat, d: nat, t: nat) {
    Times(t, freq) <= Times(d, NSEC_PER_SEC)
  }

  predicate NotBehind(freq: nat, d: nat, n: nat, t: nat) {
    Times(d, Scaled()) - Times(t * SHIFT_FACTOR, freq) < Times(n * SHIFT_FACTOR + d, freq)
  }

  predicate Within(freq: nat, deltas: seq<nat>)
    requires freq > 0
  {
    Keeps(freq, Sum(deltas), |deltas|, Elapsed(Mult(freq), deltas))
  }

  lemma MultFits(freq: nat)
    requires freq > 0
    ensures Times(Mult(freq), freq) <= Scaled()
    ensures freq > 3906250 <==> Scaled() / freq < U32
    ensures freq > 3906250 ==> Scaled() < Times(Mult(freq) + 1, freq)
  {
    var q := Scaled() / freq;
    assert Scaled() == q * freq + Scaled() % freq;
    Bits.MulMono(Mult(freq), q, freq);
    assert 3906250 * U32 == Scaled();
    assert (q + 1) * freq == q * freq + freq;
    if freq > 3906250 {
      if q >= U32 { Bits.MulMono(U32, q, freq); }
    } else {
      QuotientAtLeast(Scaled(), freq, U32);
    }
  }

  lemma QuotientAtLeast(w: nat, d: nat, k: nat)
    requires d > 0 && k * d <= w
    ensures w / d >= k
  {
    var q := w / d;
    assert w == q * d + w % d && (q + 1) * d == q * d + d;
    if q < k { Bits.MulMono(q + 1, k, d); }
  }

  lemma NeverFast(freq: nat, deltas: seq<nat>)
    requires freq > 0
    ensures NotAhead(freq, Sum(deltas), Elapsed(Mult(freq), deltas))
  {
    Rounding(Mult(freq), deltas);
    MultFits(freq);
    Scale(Sum(deltas), Mult(freq), Elapsed(Mult(freq), deltas), freq);
  }

  lemma Scale(d: nat, m: nat, t: nat, freq: nat)
    requires t * SHIFT_FACTOR <= Times(d, m) && Times(m, freq) <= Scaled()
    ensures NotAhead(freq, d, t)
  {
    Bits.MulMono(t * SHIFT_FACTOR, Times(d, m), freq);
    Bits.MulMono(Times(m, freq), Scaled(), d);
    Swap(d, m, freq);
    Swap(t, SHIFT_FACTOR, freq);
    Swap(NSEC_PER_SEC, SHIFT_FACTOR, d);
    assert Times(t, freq) * SHIFT_FACTOR <= Times(d, NSEC_PER_SEC) * SHIFT_FACTOR;
  }

  lemma Swap(a: nat, b: nat, c: nat)
    ensures a * b * c == Times(b, c) * a == Times(a, c) * b
  {
  }

  // When neither the multiplier nor a product is cut, the clock keeps within the bound.
  lemma NotSlow(freq: nat, deltas: seq<nat>)
    requires freq > 3906250 && NoWrap(Mult(freq), deltas)
    ensures Within(freq, deltas)
  {
    var m, d, n, t := Mult(freq), Sum(deltas), |deltas|, Elapsed(Mult(freq), deltas);
    NeverFast(freq, deltas);
    if n > 0 {
      Rounding(m, deltas);
      MultFits(freq);
      Bits.MulMono(Times(d, m) + n, (t + n) * SHIFT_FACTOR, freq);
      Bits.MulMono(Scaled(), Times(m + 1, freq), d);
      Slack(d, m, n, t, freq);
    }
  }

  lemma Slack(d: nat, m: nat, n: nat, t: nat, freq: nat)
    requires n > 0 && freq > 0
    requires (Times(d, m) + n) * freq <= ((t + n) * SHIFT_FACTOR) * freq
    requires Scaled() * d <= Times(m + 1, freq) * d
    ensures NotBehind(freq, d, n, t)
  {
    assert Times(m + 1, freq) * d == Times(d, m) * freq + d * freq;
    assert (Times(d, m) + n) * freq == Times(d, m) * freq + n * freq;
    assert ((t + n) * SHIFT_FACTOR) * freq == Times(t * SHIFT_FACTOR, freq) + n * SHIFT_FACTOR * freq;
    assert Times(n * SHIFT_FACTOR + d, freq) == n * SHIFT_FACTOR * freq + d * freq;
    Bits.MulMono(1, n, freq);
  }

  lemma TooSlow(freq: nat)
    requires 0 < freq <= 3906250
    ensures NoWrap(Mult(freq), [1]) && !Within(freq, [1])
  {
    var q, m := Scaled() / freq, Mult(freq);
    var t := Convert(1, m);
    assert [1][..0] == [] && Sum([1]) == 1 && Elapsed(m, [1]) == t;
    MultFits(freq);
    assert q >= U32 && m <= q - U32;
    Bits.MulMono(m, q - U32, freq);
    assert Scaled() == q * freq + Scaled() % freq;
    assert (q - U32) * freq == q * freq - U32 * freq;
    Bits.MulMono(t * SHIFT_FACTOR, m, freq);
    Bits.MulMono(SHIFT_FACTOR + 1, U32 - 1, freq);
    assert Times(SHIFT_FACTOR + 1, freq) <= (U32 - 1) * freq;
    assert U32 * freq == (U32 - 1) * freq + freq;
  }

  // The bound holds over all runs without a wrap exactly for counters faster than 3906250 Hz: for a slower one the
  // multiplier does not fit its 32 bits, and a single cycle breaks the bound.
  lemma BoundIffFast(freq: nat)
    requires freq > 0
    ensures (forall deltas :: NoWrap(Mult(freq), deltas) ==> Within(freq, deltas)) <==> freq > 3906250
  {
    if freq > 3906250 {
      forall deltas | NoWrap(Mult(freq), deltas) ensures Within(freq, deltas) { NotSlow(freq, deltas); }
    } else {
      TooSlow(freq);
    }
  }

  // A gap so long that the product wraps breaks the bound, and no other gap does: over about eighteen minutes at
  // any frequency. A multiplier of 2 leaves open the last 2^24 gaps that a counter can show.
  lemma GapIff(freq: nat, delta: nat)
    requires freq > 3906250 && delta < U64 && (Mult(freq) == 2 ==> delta <= U64 - SHIFT_FACTOR)
    ensures Within(freq, [delta]) <==> Times(delta, Mult(freq)) < U64
  {
    if Times(delta, Mult(freq)) < U64 {
      NotSlow(freq, [delta]);
    } else {
      if Mult(freq) <= 1 { Bits.MulMono(Mult(freq), 1, delta); }
      WrapLoses(freq, delta);
    }
  }

  lemma WrapLoses(freq: nat, delta: nat)
    requires freq > 0 && Mult(freq) >= 2 && delta < U64 && Times(delta, Mult(freq)) >= U64
    requires Mult(freq) == 2 ==> delta <= U64 - SHIFT_FACTOR
    ensures !Within(freq, [delta])
  {
    var m := Mult(freq);
    var t := Convert(delta, m);
    assert [delta][..0] == [] && Sum([delta]) == delta && Elapsed(m, [delta]) == t;
    MultFits(freq);
    var lost := LostByWrap(delta, m);
    Bits.MulMono(SHIFT_FACTOR + delta, lost, freq);
    Bits.MulMono(Times(m, freq), Scaled(), delta);
    Bits.MulMono(t * SHIFT_FACTOR + lost, Times(delta, m), freq);
    Swap(delta, m, freq);
    assert (t * SHIFT_FACTOR + lost) * freq == Times(t * SHIFT_FACTOR, freq) + lost * freq;
  }

  // What a product past 64 bits loses, in units of 2^-24 ns, is more than the bound allows for one update.
  lemma LostByWrap(delta: nat, m: nat) returns (lost: nat)
    requires m >= 2 && delta < U64 && Times(delta, m) >= U64 && (m == 2 ==> delta <= U64 - SHIFT_FACTOR)
    ensures SHIFT_FACTOR + delta <= lost && Convert(delta, m) * SHIFT_FACTOR + lost <= Times(delta, m)
  {
    var k := Times(delta, m) / U64;
    lost := k * U64;
    assert Times(delta, m) == lost + Times(delta, m) % U64;
    assert k >= 1;
    if m > 2 {
      Bits.MulMono(3, m, delta);
      assert 3 * delta < (k + 1) * U64;
    }
  }

  // ----- the timekeeper -----

  datatype Clock = Clock(cycleLast: nat, mult: nat, nsec: nat, sec: int)

  function Total(c: Clock): int { c.sec * NSEC_PER_SEC + c.nsec }

  function Start(freq: nat, cycles: nat): Clock
    requires freq > 0
  {
    Clock(cycles, Mult(freq), 0, 0)
  }

  function Update(c: Clock, now: nat): Clock
    requires c.cycleLast < U64 && now < U64
  {
    var nsec := (c.nsec + Convert(WrappingSub(now, c.cycleLast), c.mult)) % U64;
    c.(cycleLast := now, nsec := nsec % NSEC_PER_SEC, sec := c.sec + nsec / NSEC_PER_SEC)
  }

  // The clock after updates at the given true cycle counts.
  function Updates(c: Clock, times: seq<nat>): (r: Clock)
    requires c.cycleLast < U64
    ensures r.cycleLast < U64
  {
    if times == [] then c else Update(Updates(c, times[..|times| - 1]), Reading(times[|times| - 1]))
  }

  // The last of the times, and the cycles between one and the next.
  function Last(start: nat, times: seq<nat>): nat {
    if times == [] then start else times[|times| - 1]
  }

  ghost predicate Regular(start: nat, times: seq<nat>) {
    times == [] || (Regular(start, times[..|times| - 1]) && 0 <= Last(start, times) - Last(start, times[..|times| - 1]) < U64)
  }

  function Deltas(start: nat, times: seq<nat>): seq<nat>
    requires Regular(start, times)
  {
    if times == [] then []
    else Deltas(start, times[..|times| - 1]) + [Last(start, times) - Last(start, times[..|times| - 1])]
  }

  // However the counter wraps, the clock shows what the cycles since the start convert to, with the
  // nanoseconds below one second.
  lemma {:induction false} ClockRuns(freq: nat, start: nat, times: seq<nat>)
    requires freq > 0 && Regular(start, times)
    ensures var (c, ds) := (Updates(Start(freq, Reading(start)), times), Deltas(start, times));
            && c.nsec < NSEC_PER_SEC && c.cycleLast == Reading(Last(start, times)) && c.mult == Mult(freq)
            && Total(c) == Elapsed(Mult(freq), ds) && |ds| == |times| && Sum(ds) == Last(start, times) - start
    decreases |times|
  {
    if times != [] {
      var before := times[..|times| - 1];
      ClockRuns(freq, start, before);
      WrapsRight(Last(start, before), Last(start, times));
      var c := Updates(Start(freq, Reading(start)), before);
      var ds, d := Deltas(start, before), Last(start, times) - Last(start, before);
      assert Deltas(start, times)[..|ds|] == ds;
      UpdateNormalises(c, Reading(Last(start, times)));
    }
  }

  // So over any run the clock is never ahead of the counter; and in a run whose products fit their 64 bits it is
  // behind by less than one nanosecond for each update and one for every 2^24 cycles.
  lemma ClockDrift(freq: nat, start: nat, times: seq<nat>)
    requires freq > 3906250 && Regular(start, times)
    ensures var (total, cycles) := (Total(Updates(Start(freq, Reading(start)), times)), Last(start, times) - start);
            && 0 <= total && 0 <= cycles && NotAhead(freq, cycles, total)
            && (NoWrap(Mult(freq), Deltas(start, times)) ==> Keeps(freq, cycles, |times|, total))
  {
    ClockRuns(freq, start, times);
    NeverFast(freq, Deltas(start, times));
    if NoWrap(Mult(freq), Deltas(start, times)) { NotSlow(freq, Deltas(start, times)); }
  }

  class Timekeeper {
    var cycleLast: nat
    var mult: nat
    var xtimeNsec: nat
    var xtimeSec: int

    function View(): Clock
      reads this
    {
      Clock(cycleLast, mult, xtimeNsec, xtimeSec)
    }

    constructor (freq: nat, cycles: nat)
      requires freq > 0
      ensures View() == Start(freq, cycles)
    {
      mult := Mult(freq);
      cycleLast, xtimeNsec, xtimeSec := cycles, 0, 0;
    }

    method UpdateWallTime(now: nat)
      requires cycleLast < U64 && now < U64
      modifies this
      ensures View() == Update(old(View()), now)
    {
      var delta := WrappingSub(now, cycleLast);
      var deltaNs := Convert(delta, mult);
      xtimeNsec := (xtimeNsec + deltaNs) % U64;
      ghost var all := xtimeNsec;
      while xtimeNsec >= NSEC_PER_SEC
        invariant xtimeSec >= old(xtimeSec) && all == (xtimeSec - old(xtimeSec)) * NSEC_PER_SEC + xtimeNsec
        invariant mult == old(mult)
      {
        xtimeNsec := xtimeNsec - NSEC_PER_SEC;
        xtimeSec := xtimeSec + 1;
      }
      Bits.DivUnique(all, NSEC_PER_SEC, xtimeSec - old(xtimeSec), xtimeNsec);
      cycleLast := now;
    }
  }

  // Whatever was stored, an update brings the nanoseconds below one second; it adds exactly the converted cycles
  // unless the nanoseconds stored, which need not be below one second, are near the end of their 64 bits.
  lemma UpdateNormalises(c: Clock, now: nat)
    requires c.cycleLast < U64 && now < U64 && c.nsec < U64
    ensures Update(c, now).nsec < NSEC_PER_SEC
    ensures var ns := Convert(WrappingSub(now, c.cycleLast), c.mult);
            Total(Update(c, now)) == Total(c) + ns <==> c.nsec + ns < U64
  {
    var all := c.nsec + Convert(WrappingSub(now, c.cycleLast), c.mult);
    var nsec := all % U64;
    assert nsec == (nsec / NSEC_PER_SEC) * NSEC_PER_SEC + nsec % NSEC_PER_SEC;
    assert nsec == if all < U64 then all else all - U64 by { Bits.DivUnique(all, U64, if all < U64 then 0 else 1, if all < U64 then all else all - U64); }
  }

  // ----- time values -----

  datatype Timespec = Timespec(sec: int, nsec: int)

  function FromNs(ns: nat): Timespec {
    Timespec(ns / NSEC_PER_SEC, ns % NSEC_PER_SEC)
  }

  // A cast to u64.
  function Word(n: int): (w: nat)
    ensures w < U64
  {
    n % U64
  }

  function ToNs(ts: Timespec): nat {
    (Word(Word(ts.sec) * NSEC_PER_SEC) + Word(ts.nsec)) % U64
  }

  // Nanoseconds survive the way to a time value and back; a time value survives exactly when it is not negative,
  // its nanoseconds make no second, and its nanoseconds altogether fit 64 bits.
  lemma TimespecRoundTrip(ns: nat, ts: Timespec)
    requires ns < U64
    ensures FromNs(ns).sec >= 0 && 0 <= FromNs(ns).nsec < NSEC_PER_SEC && ToNs(FromNs(ns)) == ns
    ensures FromNs(ToNs(ts)) == ts <==> ts.sec >= 0 && 0 <= ts.nsec < NSEC_PER_SEC && ts.sec * NSEC_PER_SEC + ts.nsec < U64
  {
    assert ns == (ns / NSEC_PER_SEC) * NSEC_PER_SEC + ns % NSEC_PER_SEC;
    var x := ToNs(ts);
    assert x == (x / NSEC_PER_SEC) * NSEC_PER_SEC + x % NSEC_PER_SEC;
    ToNsExact(FromNs(ns));
    if ts.sec >= 0 && 0 <= ts.nsec < NSEC_PER_SEC && ts.sec * NSEC_PER_SEC + ts.nsec < U64 {
      ToNsExact(ts);
      Bits.DivUnique(x, NSEC_PER_SEC, ts.sec, ts.nsec);
    }
  }

  lemma ToNsExact(ts: Timespec)
    requires ts.sec >= 0 && ts.nsec >= 0 && ts.sec * NSEC_PER_SEC + ts.nsec < U64
    ensures ToNs(ts) == ts.sec * NSEC_PER_SEC + ts.nsec
  {
    assert Word(ts.sec) == ts.sec && Word(ts.nsec) == ts.nsec;
  }
}
