/** The token bucket (over real numbers) and the chunked writes that pay it. */
module Throttle {

  function Min(a: real, b: real): real { if a <= b then a else b }

  function Max(a: real, b: real): real { if a >= b then a else b }

  const MIN_BURST: real := 32768.0
  const MIN_CHUNK: real := 4096.0

  function BurstFor(rate: real): real { Max(rate / 4.0, MIN_BURST) }

  /** The bucket at a fixed rate. tokens may be negative: debt. */
  datatype Bucket = Bucket(rate: real, burst: real, tokens: real, last: real)

  predicate Live(b: Bucket) { b.rate > 0.0 && b.burst >= 0.0 && b.tokens <= b.burst }

  /** The bucket after a call for n bytes that arrives at time now. */
  function Charge(b: Bucket, n: int, now: real): Bucket {
    b.(tokens := Min(b.burst, b.tokens + (now - b.last) * b.rate) - n as real, last := now)
  }

  /** How long the caller that left the bucket like this has to sleep. */
  function Delay(b: Bucket): real
    requires b.rate > 0.0
  {
    if b.tokens < 0.0 then -b.tokens / b.rate else 0.0
  }

  /** The caller that left the bucket like this is released at time r: at once,
      or when its debt is repaid. */
  predicate ReleasedAt(b: Bucket, r: real) {
    if b.tokens < 0.0 then (r - b.last) * b.rate == -b.tokens else r == b.last
  }

  lemma DelayRepays(b: Bucket)
    requires b.rate > 0.0
    ensures ReleasedAt(b, b.last + Delay(b))
  {
    DebtRepaid(-b.tokens, b.rate);
  }

  class Limiter {
    var rate: real
    var burst: real
    var tokens: real
    var last: real

    function State(): Bucket
      reads this
    {
      Bucket(rate, burst, tokens, last)
    }

    /** NewLimiter for a positive rate: a full bucket. */
    constructor (rate: int, now: real)
      requires rate > 0
      ensures State() == Bucket(rate as real, BurstFor(rate as real), BurstFor(rate as real), now)
      ensures Live(State())
    {
      this.rate, this.burst := rate as real, BurstFor(rate as real);
      this.tokens, this.last := BurstFor(rate as real), now;
    }

    /** SetRate: a rate of zero or less switches the limit off. */
    method SetRate(r: int)
      modifies this
      ensures r <= 0 ==> State() == old(State()).(rate := 0.0)
      ensures r > 0 ==> State() == old(State()).(rate := r as real, burst := BurstFor(r as real),
                                                 tokens := Min(old(tokens), BurstFor(r as real)))
      ensures r > 0 ==> Live(State())
    {
      if r <= 0 {
        rate := 0.0;
        return;
      }
      rate := r as real;
      burst := Max(rate / 4.0, MIN_BURST);
      tokens := Min(tokens, burst);
    }

    /** ChunkSize in whole bytes; zero means no limit. What it promises is
        QuarterSecond below. */
    method ChunkSize() returns (c: int)
      ensures c == if rate <= 0.0 then 0 else ChunkOf(burst)
    {
      if rate <= 0.0 {
        return 0;
      }
      return Max(burst, MIN_CHUNK).Floor;
    }

    /** Wait: pay for n bytes now and return how long to sleep. */
    method Wait(n: int, now: real) returns (delay: real)
      modifies this
      ensures n <= 0 || old(rate) <= 0.0 ==> State() == old(State()) && delay == 0.0
      ensures n > 0 && old(rate) > 0.0 ==>
                && State() == Charge(old(State()), n, now) && delay == Delay(State())
                && ReleasedAt(State(), now + delay)
    {
      delay := 0.0;
      if n <= 0 || rate <= 0.0 {
        return;
      }
      tokens := Min(burst, tokens + (now - last) * rate);
      last := now;
      tokens := tokens - n as real;
      if tokens < 0.0 {
        delay := -tokens / rate;
      }
      DelayRepays(State());
    }
  }

  // ---- How long a chunk sleeps -------------------------------------------------------------------

  function ChunkOf(burst: real): (c: int)
    ensures c as real <= Max(burst, MIN_CHUNK) < c as real + 1.0
  {
    var m := Max(burst, MIN_CHUNK);
    FloorBounds(m);
    m.Floor
  }

  lemma FloorBounds(x: real)
    ensures x.Floor as real <= x < x.Floor as real + 1.0
  {
  }

  /** Earlier debt is repaid by now. */
  predicate RepaidBy(b: Bucket, now: real) {
    now >= b.last && b.tokens + (now - b.last) * b.rate >= 0.0
  }

  /** A limiter at this rate, with no debt left at time now. */
  predicate Rested(b: Bucket, rate: real, now: real) {
    b.rate == rate && b.burst == BurstFor(rate) && Live(b) && RepaidBy(b, now)
  }

  lemma DivMonotone(a: real, b: real, r: real)
    requires r > 0.0
    ensures a <= b <==> a / r <= b / r
  {
    DebtRepaid(a, r);
    DebtRepaid(b, r);
    MulMonotone(a / r, b / r, r);
  }

  /** Without earlier debt, one chunk sleeps at most the time it takes at the
      rate. */
  lemma ChunkSleeps(b: Bucket, rate: real, now: real)
    requires rate > 0.0 && Rested(b, rate, now)
    ensures Delay(Charge(b, ChunkOf(b.burst), now)) <= ChunkOf(b.burst) as real / rate
  {
    var c := ChunkOf(b.burst);
    var b' := Charge(b, c, now);
    assert -b'.tokens <= c as real;
    DivMonotone(-b'.tokens, c as real, rate);
    DivMonotone(0.0, c as real, rate);
  }

  /** "About a quarter second" holds if and only if the rate is at least 128 KiB a
      second; below that the minimum burst of 32 KiB takes longer. */
  lemma QuarterSecond(rate: real)
    requires rate > 0.0
    ensures (forall b: Bucket, now: real | Rested(b, rate, now) ::
               Delay(Charge(b, ChunkOf(b.burst), now)) <= 0.25)
            <==> rate >= 131072.0
  {
    var c := ChunkOf(BurstFor(rate));
    DivMonotone(c as real, rate / 4.0, rate);
    QuarterOf(rate);
    if rate >= 131072.0 {
      forall b: Bucket, now: real | Rested(b, rate, now)
        ensures Delay(Charge(b, ChunkOf(b.burst), now)) <= 0.25
      {
        ChunkSleeps(b, rate, now);
      }
    } else {
      var b := Bucket(rate, BurstFor(rate), 0.0, 0.0);
      assert Rested(b, rate, 0.0);
      assert Charge(b, c, 0.0).tokens == -(c as real);
      assert c == 32768;
    }
  }

  lemma QuarterOf(rate: real)
    requires rate > 0.0
    ensures rate / 4.0 / rate == 0.25
  {
    var q := rate / 4.0 / rate;
    DebtRepaid(rate / 4.0, rate);
    assert q * rate == rate / 4.0 == 0.25 * rate;
    MulMonotone(q, 0.25, rate);
    MulMonotone(0.25, q, rate);
  }

  // ---- The window bound ------------------------------------------------------------------------

  datatype Call = Call(now: real, n: int)

  predicate Charged(bs: seq<Bucket>, calls: seq<Call>, k: int) {
    0 <= k < |calls| && k + 1 < |bs| && bs[k + 1] == Charge(bs[k], calls[k].n, calls[k].now)
  }

  /** bs are the states of a limiter at a fixed rate, calls the calls between
      them: those that reach the bucket (n > 0), in order of arrival. */
  predicate History(bs: seq<Bucket>, calls: seq<Call>) {
    && |bs| == |calls| + 1 && Live(bs[0])
    && (forall k | 0 <= k < |calls| :: Charged(bs, calls, k))
    && (forall k | 0 <= k < |calls| :: calls[k].n > 0)
    && (forall k | 0 <= k < |calls| :: calls[k].now >= bs[k].last)
  }

  function Total(calls: seq<Call>): int {
    if calls == [] then 0 else Total(calls[..|calls| - 1]) + calls[|calls| - 1].n
  }

  /** Bytes paid for, less what the passage of time has earned. */
  function Level(b: Bucket): real { b.last * b.rate - b.tokens }

  lemma DebtRepaid(t: real, r: real)
    requires r > 0.0
    ensures (t / r) * r == t
  {
  }

  lemma Spread(a: real, b: real, r: real)
    ensures (a + b) * r == a * r + b * r
    ensures (a - b) * r == a * r - b * r && r * (a - b) == a * r - b * r
  {
  }

  lemma ChargeRaises(b: Bucket, n: int, now: real)
    requires Live(b) && n > 0
    ensures Live(Charge(b, n, now)) && Charge(b, n, now).rate == b.rate && Charge(b, n, now).burst == b.burst
    ensures Level(Charge(b, n, now)) >= Level(b) + n as real
  {
    Spread(now, b.last, b.rate);
  }

  predicate Ahead(bi: Bucket, bj: Bucket, total: int) {
    && Live(bi) && Live(bj) && bi.rate == bj.rate && bi.burst == bj.burst && bi.last <= bj.last
    && total >= 0 && Level(bj) >= Level(bi) + total as real
  }

  lemma AheadMore(bi: Bucket, b: Bucket, total: int, n: int, now: real)
    requires Ahead(bi, b, total) && n > 0 && now >= b.last
    ensures Ahead(bi, Charge(b, n, now), total + n)
  {
    ChargeRaises(b, n, now);
  }

  lemma {:induction false} LiveHistory(bs: seq<Bucket>, calls: seq<Call>, i: nat)
    requires History(bs, calls) && i < |bs|
    ensures Live(bs[i])
  {
    if i > 0 {
      LiveHistory(bs, calls, i - 1);
      assert Charged(bs, calls, i - 1);
      ChargeRaises(bs[i - 1], calls[i - 1].n, calls[i - 1].now);
    }
  }

  lemma {:induction false} LevelGrows(bs: seq<Bucket>, calls: seq<Call>, i: nat, j: nat)
    requires History(bs, calls) && i <= j < |bs|
    ensures Ahead(bs[i], bs[j], Total(calls[i..j]))
    decreases j
  {
    if i == j {
      LiveHistory(bs, calls, i);
      assert calls[i..j] == [];
    } else {
      LevelGrows(bs, calls, i, j - 1);
      assert Charged(bs, calls, j - 1);
      AheadMore(bs[i], bs[j - 1], Total(calls[i..j - 1]), calls[j - 1].n, calls[j - 1].now);
      assert calls[i..j][..j - 1 - i] == calls[i..j - 1];
    }
  }

  lemma MulMonotone(a: real, b: real, r: real)
    requires r > 0.0
    ensures a <= b <==> a * r <= b * r
  {
  }

  lemma Linear(xi: real, xj: real, li: real, lj: real, yi: real, yj: real, burst: real, total: real)
    requires xi == Max(li, yi) && xj == Max(lj, yj) && yi <= yj
    requires total >= 0.0 && lj >= li + total && xi <= li + burst
    ensures xi <= xj && total <= burst + (xj - xi)
  {
  }

  /** Two release times in bytes at the given rate. */
  lemma ScaledRelease(b: Bucket, r: real, x: real, y: real)
    requires Live(b) && ReleasedAt(b, r) && x == r * b.rate && y == b.last * b.rate
    ensures x == Max(y - b.tokens, y) && x <= y - b.tokens + b.burst
  {
    if b.tokens < 0.0 {
      Repaid(r, b.last, b.rate, -b.tokens, x, y);
    }
  }

  lemma Repaid(r: real, last: real, rate: real, debt: real, x: real, y: real)
    requires (r - last) * rate == debt && x == r * rate && y == last * rate
    ensures x == y + debt
  {
    Spread(r, last, rate);
  }

  lemma ScaleOrder(ti: real, tj: real, rate: real, yi: real, yj: real)
    requires rate > 0.0 && yi == ti * rate && yj == tj * rate
    ensures ti <= tj <==> yi <= yj
  {
    MulMonotone(ti, tj, rate);
  }

  lemma Unscale(ri: real, rj: real, rate: real, xi: real, xj: real)
    requires xi == ri * rate && xj == rj * rate
    ensures rate * (rj - ri) == xj - xi
  {
    Spread(rj, ri, rate);
  }

  lemma WindowArithmetic(bi: Bucket, bj: Bucket, ri: real, rj: real, total: int)
    requires Ahead(bi, bj, total) && ReleasedAt(bi, ri) && ReleasedAt(bj, rj)
    ensures ri <= rj && total as real <= bi.burst + bi.rate * (rj - ri)
  {
    var xi, yi, xj, yj := ri * bi.rate, bi.last * bi.rate, rj * bj.rate, bj.last * bj.rate;
    ScaledRelease(bi, ri, xi, yi);
    ScaledRelease(bj, rj, xj, yj);
    ScaleOrder(bi.last, bj.last, bi.rate, yi, yj);
    Linear(xi, xj, yi - bi.tokens, yj - bj.tokens, yi, yj, bi.burst, total as real);
    ScaleOrder(ri, rj, bi.rate, xi, xj);
    Unscale(ri, rj, bi.rate, xi, xj);
  }

  /** Token bucket window bound: for any two calls i and j, i before j (0 is the
      state before the first call), callers are released in order, and the
      bytes of the calls after i up to j are at most the burst plus the rate
      times the time between their releases. */
  lemma WindowBound(bs: seq<Bucket>, calls: seq<Call>, i: nat, j: nat, ri: real, rj: real)
    requires History(bs, calls) && i <= j < |bs| && ReleasedAt(bs[i], ri) && ReleasedAt(bs[j], rj)
    ensures ri <= rj
    ensures Total(calls[i..j]) as real <= bs[i].burst + bs[i].rate * (rj - ri)
  {
    LevelGrows(bs, calls, i, j);
    WindowArithmetic(bs[i], bs[j], ri, rj, Total(calls[i..j]));
  }

  // ---- Chunked writes ------------------------------------------------------------------------------

  function Sum(ns: seq<nat>): nat {
    if ns == [] then 0 else Sum(ns[..|ns| - 1]) + ns[|ns| - 1]
  }

  /** throttledFile.chunk: the smallest positive chunk size that is below n. */
  method Chunk(limits: seq<nat>, n: nat) returns (c: nat)
    ensures c <= n && (n > 0 ==> c > 0)
    ensures forall i | 0 <= i < |limits| && limits[i] > 0 :: c <= limits[i]
    ensures c == n || c in limits
  {
    c := n;
    for i := 0 to |limits|
      invariant c <= n && (n > 0 ==> c > 0)
      invariant forall j | 0 <= j < i && limits[j] > 0 :: c <= limits[j]
      invariant c == n || c in limits
    {
      if limits[i] > 0 && limits[i] < c {
        c := limits[i];
      }
    }
  }

  /** What the backend says to one piece: how much it took, and whether it also
      returned an error. Taking less than offered is an error for any io.Writer. */
  datatype Answer = Answer(taken: nat, error: bool)

  /** throttledFile.Write. The backend receives exactly a prefix of p, all of it
      unless it failed; no piece exceeds a limiter's chunk, every byte was paid
      for first, and what is paid beyond that is at most part of one piece. */
  method Write(p: string, limits: seq<nat>, answer: nat -> Answer)
    returns (total: nat, failed: bool, ghost received: string, ghost paid: seq<nat>)
    ensures total <= |p| && received == p[..total]
    ensures !failed ==> total == |p| && Sum(paid) == total
    ensures failed ==> paid != [] && Sum(paid[..|paid| - 1]) <= total <= Sum(paid) <= |p|
    ensures forall k, i | 0 <= k < |paid| && 0 <= i < |limits| && limits[i] > 0 :: paid[k] <= limits[i]
  {
    total, failed := 0, false;
    received, paid := "", [];
    var k := 0;
    while total < |p| && !failed
      invariant total <= |p| && received == p[..total]
      invariant !failed ==> Sum(paid) == total
      invariant failed ==> paid != [] && Sum(paid[..|paid| - 1]) <= total <= Sum(paid) <= |p|
      invariant forall j, i | 0 <= j < |paid| && 0 <= i < |limits| && limits[i] > 0 :: paid[j] <= limits[i]
      decreases |p| - total, if failed then 0 else 1
    {
      var c := Chunk(limits, |p| - total);
      ghost var paid' := paid + [c];
      assert paid'[..|paid|] == paid;
      paid := paid';
      var a := answer(k);
      k := k + 1;
      var n := if a.taken < c then a.taken else c;
      failed := a.error || n < c;
      received := received + p[total..total + n];
      total := total + n;
    }
  }
}
