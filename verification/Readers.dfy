/** Two streaming readers of the audit log that keep only a window in memory,
    and the simple query they must agree with: filter, reverse, slice. */
module Readers {
  import opened Text

  function Matches<T>(log: seq<T>, p: T -> bool): seq<T> {
    if log == [] then []
    else
      var init, last := Matches(log[..|log| - 1], p), log[|log| - 1];
      if p(last) then init + [last] else init
  }

  function Reverse<T>(s: seq<T>): (r: seq<T>)
    ensures |r| == |s|
    ensures forall i | 0 <= i < |s| :: r[i] == s[|s| - 1 - i]
  {
    seq(|s|, i requires 0 <= i < |s| => s[|s| - 1 - i])
  }

  function Least(a: int, b: int): int { if a <= b then a else b }

  function Clamp(a: int, n: nat): nat { if a < 0 then 0 else if a > n then n else a }

  /** s[lo..hi], cut to what exists. */
  function Slice<T>(s: seq<T>, lo: int, hi: int): seq<T> {
    var a, b := Clamp(lo, |s|), Clamp(hi, |s|);
    if a <= b then s[a..b] else []
  }

  /** Matches, newest first. */
  function Newest<T>(log: seq<T>, p: T -> bool): seq<T> { Reverse(Matches(log, p)) }

  lemma MatchesSnoc<T>(log: seq<T>, p: T -> bool, n: nat)
    requires n < |log|
    ensures Matches(log[..n + 1], p) == Matches(log[..n], p) + (if p(log[n]) then [log[n]] else [])
  {
    assert log[..n + 1][..n] == log[..n];
  }

  lemma {:induction false} MatchesPrefix<T>(log: seq<T>, p: T -> bool, n: nat)
    requires n <= |log|
    ensures Matches(log[..n], p) <= Matches(log, p)
    decreases |log| - n
  {
    if n == |log| {
      assert log[..n] == log;
    } else {
      MatchesSnoc(log, p, n);
      MatchesPrefix(log, p, n + 1);
    }
  }

  // ---- The ring buffer -----------------------------------------------------------------------

  /** The ring holds the newest limit of ms, the oldest of them at next. */
  predicate RingHolds<T(==)>(ring: seq<T>, next: nat, limit: nat, ms: seq<T>) {
    && 0 < limit && |ring| == Least(|ms|, limit)
    && (|ring| < limit ==> next == 0 && ring == ms)
    && (|ring| == limit ==> next < limit && forall i | 0 <= i < limit ::
          ring[i] == ms[|ms| - limit + (if i >= next then i - next else i - next + limit)])
  }

  lemma RingGrows<T>(ring: seq<T>, next: nat, limit: nat, ms: seq<T>, e: T)
    requires RingHolds(ring, next, limit, ms) && |ring| < limit
    ensures RingHolds(ring + [e], next, limit, ms + [e])
  {
  }

  function Wrap(next: nat, limit: nat): nat { if next + 1 == limit then 0 else next + 1 }

  lemma WrapIsModulo(next: nat, limit: nat)
    requires next < limit
    ensures (next + 1) % limit == Wrap(next, limit)
  {
  }

  lemma RingTurns<T>(ring: seq<T>, next: nat, limit: nat, ms: seq<T>, e: T)
    requires RingHolds(ring, next, limit, ms) && |ring| == limit
    ensures RingHolds(ring[next := e], Wrap(next, limit), limit, ms + [e])
  {
  }

  lemma ModuloOnce(k: nat, n: nat)
    requires k < 2 * n
    ensures k % n == if k >= n then k - n else k
  {
  }

  lemma RingRead<T>(ring: seq<T>, next: nat, limit: nat, ms: seq<T>, i: nat)
    requires RingHolds(ring, next, limit, ms) && i < |ring|
    ensures ring[(next + |ring| - 1 - i) % |ring|] == Reverse(ms)[i]
  {
    ModuloOnce(next + |ring| - 1 - i, |ring|);
  }

  /** Every line fits the scanner's buffer. */
  predicate AllFit<T(!new)>(log: seq<T>, fits: T -> bool) {
    forall i | 0 <= i < |log| :: fits(log[i])
  }

  /** readRecentAuditEvents: memory does not grow with the log. A line that does
      not fit the scanner makes the whole query an error. */
  method ReadRecent<T(==, !new)>(log: seq<T>, fits: T -> bool, p: T -> bool, requested: int)
      returns (r: Option<seq<T>>)
    ensures r.Some? <==> AllFit(log, fits)
    ensures r.Some? ==> r.value == Slice(Newest(log, p), 0, if requested <= 0 then 50 else requested)
  {
    var limit := if requested <= 0 then 50 else requested;
    var ring: seq<T>, next: nat := [], 0;
    ghost var ms: seq<T> := [];
    assert log[..0] == [];
    for n := 0 to |log|
      invariant ms == Matches(log[..n], p)
      invariant RingHolds(ring, next, limit, ms)
      invariant forall i | 0 <= i < n :: fits(log[i])
    {
      if !fits(log[n]) {
        return None;
      }
      MatchesSnoc(log, p, n);
      if p(log[n]) {
        if |ring| < limit {
          RingGrows(ring, next, limit, ms, log[n]);
          ring := ring + [log[n]];
        } else {
          RingTurns(ring, next, limit, ms, log[n]);
          WrapIsModulo(next, limit);
          ring := ring[next := log[n]];
          next := (next + 1) % limit;
        }
        ms := ms + [log[n]];
      }
    }
    assert log[..|log|] == log;
    var events: seq<T> := [];
    for i := 0 to |ring|
      invariant |events| == i
      invariant forall j | 0 <= j < i :: events[j] == Reverse(ms)[j]
    {
      RingRead(ring, next, limit, ms, i);
      events := events + [ring[(next + |ring| - 1 - i) % |ring|]];
    }
    return Some(events);
  }

  // ---- The page window -------------------------------------------------------------------------

  /** First pass of handleAudit: count. */
  method CountMatches<T(!new)>(log: seq<T>, fits: T -> bool, p: T -> bool) returns (r: Option<nat>)
    ensures r.Some? <==> AllFit(log, fits)
    ensures r.Some? ==> r.value == |Matches(log, p)|
  {
    var total := 0;
    assert log[..0] == [];
    for n := 0 to |log|
      invariant total == |Matches(log[..n], p)|
      invariant forall i | 0 <= i < n :: fits(log[i])
    {
      if !fits(log[n]) {
        return None;
      }
      MatchesSnoc(log, p, n);
      if p(log[n]) {
        total := total + 1;
      }
    }
    assert log[..|log|] == log;
    return Some(total);
  }

  lemma SliceSnoc<T>(s: seq<T>, e: T, lo: nat, hi: nat)
    ensures Slice(s + [e], lo, hi) == Slice(s, lo, hi) + (if lo <= |s| < hi then [e] else [])
  {
  }

  /** What comes after hi does not matter. */
  lemma SliceOfPrefix<T>(s: seq<T>, all: seq<T>, lo: nat, hi: nat)
    requires s <= all && |s| >= hi
    ensures Slice(all, lo, hi) == Slice(s, lo, hi)
  {
  }

  /** Second pass: matches lo up to hi in file order, stopping at hi. */
  method CollectWindow<T>(log: seq<T>, p: T -> bool, lo: nat, hi: nat) returns (window: seq<T>)
    ensures window == Slice(Matches(log, p), lo, hi)
  {
    window := [];
    var idx, n := 0, 0;
    assert log[..0] == [];
    while n < |log|
      invariant 0 <= n <= |log|
      invariant idx == |Matches(log[..n], p)|
      invariant window == Slice(Matches(log[..n], p), lo, hi)
    {
      MatchesSnoc(log, p, n);
      MatchesPrefix(log, p, n + 1);
      if p(log[n]) {
        SliceSnoc(Matches(log[..n], p), log[n], lo, hi);
        if lo <= idx < hi {
          window := window + [log[n]];
        }
        idx := idx + 1;
        if idx >= hi {
          SliceOfPrefix(Matches(log[..n + 1], p), Matches(log, p), lo, hi);
          return;
        }
      }
      n := n + 1;
    }
    assert log[..n] == log;
  }

  /** The ends swapped up to i, the middle as it was. */
  predicate Swapped<T(==)>(window: seq<T>, r: seq<T>, i: int, j: int) {
    && |r| == |window| && 0 <= i && i + j == |window| - 1
    && (forall k | 0 <= k < |window| && i <= k <= j :: r[k] == window[k])
    && (forall k | 0 <= k < |window| && !(i <= k <= j) :: r[k] == window[|window| - 1 - k])
  }

  lemma SwapEnds<T>(window: seq<T>, r: seq<T>, i: int, j: int)
    requires Swapped(window, r, i, j) && i < j
    ensures Swapped(window, r[i := r[j]][j := r[i]], i + 1, j - 1)
  {
  }

  /** The swap loop at the end of handleAudit. */
  method ReverseWindow<T(==)>(window: seq<T>) returns (r: seq<T>)
    ensures r == Reverse(window)
  {
    r := window;
    var i, j := 0, |window| - 1;
    while i < j
      invariant i <= j + 1 && Swapped(window, r, i, j)
    {
      SwapEnds(window, r, i, j);
      r := r[i := r[j]][j := r[i]];
      i, j := i + 1, j - 1;
    }
    forall k | 0 <= k < |window| ensures r[k] == window[|window| - 1 - k] {
      assert i <= k <= j ==> |window| - 1 - k == k;
    }
  }

  function PageLimit(requested: int): (r: int)
    ensures 1 <= r <= 1000
  {
    if requested < 1 then 1 else if requested > 1000 then 1000 else requested
  }

  function PageNumber(requested: int): (r: int)
    ensures r >= 1
  {
    if requested < 1 then 1 else requested
  }

  const TWO63 := 0x8000_0000_0000_0000

  /** An int after arithmetic that may overflow. */
  function Int64(x: int): int { (x + TWO63) % (2 * TWO63) - TWO63 }

  /** The window handleAudit computes for a page that begins at start, in 64-bit
      arithmetic, before the bounds below zero are cut. */
  function WindowLo(total: int, start: int, limit: int): int { Int64(Int64(total - Int64(start)) - limit) }

  function WindowHi(total: int, start: int): int { Int64(total - Int64(start)) }

  function AtLeastZero(a: int): nat { if a < 0 then 0 else a }

  /** The start of the page does not overflow, or it overflows to a place where
      the window is empty, as it should be. */
  predicate PageFits(total: nat, start: nat, limit: nat) {
    || start < TWO63
    || total == 0
    || var s := Int64(start); s >= total || (s < 0 && (s + limit <= 0 || total - s >= TWO63))
  }

  datatype Page<T> = Page(events: seq<T>, total: nat)

  /** The page handleAudit returns, and the total it reports. The page is the slice
      of the newest matches that was asked for if and only if PageFits. A log has
      fewer matches than an int can count. */
  method AuditPage<T(==, !new)>(log: seq<T>, fits: T -> bool, p: T -> bool, pageArg: int, limitArg: int)
      returns (r: Option<Page<T>>)
    requires |Matches(log, p)| < TWO63
    ensures r.Some? <==> AllFit(log, fits)
    ensures r.Some? ==> r.value.total == |Matches(log, p)|
    ensures r.Some? ==>
              var start, limit := PageStart(PageNumber(pageArg), PageLimit(limitArg)), PageLimit(limitArg);
              r.value.events == Slice(Newest(log, p), start, start + limit) <==> PageFits(r.value.total, start, limit)
  {
    var page, limit := PageNumber(pageArg), PageLimit(limitArg);
    var counted := CountMatches(log, fits, p);
    if counted.None? {
      return None;
    }
    var total := counted.value;
    var start := Int64(PageStart(page, limit));
    var hi := Int64(total - start);
    var lo := Int64(hi - limit);
    var window := CollectWindow(log, p, AtLeastZero(lo), AtLeastZero(hi));
    var events := ReverseWindow(window);
    WindowIsPage(Matches(log, p), PageStart(page, limit), limit);
    return Some(Page(events, total));
  }

  /** Where a page starts, if nothing overflows. */
  function PageStart(page: int, limit: int): nat
    requires page >= 1 && limit >= 1
  {
    (page - 1) * limit
  }

  lemma WrapFits(x: int)
    ensures -TWO63 <= x < TWO63 ==> Int64(x) == x
    ensures TWO63 <= x < 3 * TWO63 ==> Int64(x) == x - 2 * TWO63
    ensures -3 * TWO63 <= x < -TWO63 ==> Int64(x) == x + 2 * TWO63
    ensures -TWO63 <= Int64(x) < TWO63
  {
  }

  /** Without overflow of the start the window is the plain one; only the lower end
      may still overflow, and then the window is empty. */
  lemma WindowBounds(total: nat, start: int, limit: nat)
    requires 0 <= start < TWO63 && total < TWO63 && 1 <= limit <= 1000
    ensures WindowHi(total, start) == total - start
    ensures WindowLo(total, start, limit) == total - start - limit || total - start < 0
  {
    WrapFits(start);
    WrapFits(total - start);
    WrapFits(total - start - limit);
  }

  /** The window counted from the oldest, reversed, is the page counted from the
      newest. */
  lemma WindowFrom<T>(ms: seq<T>, start: nat, limit: nat, lo: int, hi: int)
    requires hi == |ms| - start && limit >= 1 && (lo == hi - limit || hi < 0)
    ensures Reverse(Slice(ms, AtLeastZero(lo), AtLeastZero(hi))) == Slice(Reverse(ms), start, start + limit)
  {
    if hi <= 0 {
      assert Slice(ms, AtLeastZero(lo), AtLeastZero(hi)) == [];
    }
  }

  /** A start that wrapped below zero: the upper end lies behind the newest match,
      or has wrapped too. */
  lemma BoundsBelow(total: nat, start: int, limit: nat)
    requires -TWO63 <= start < 0 && total < TWO63 && 1 <= limit <= 1000
    ensures total - start < TWO63 ==>
              WindowHi(total, start) == total - start && WindowLo(total, start, limit) == total - start - limit
    ensures total - start >= TWO63 ==> WindowHi(total, start) < 0
  {
    WrapFits(start);
    WrapFits(total - start);
    WrapFits(total - start - limit);
  }

  lemma WindowBelow<T>(ms: seq<T>, start: int, limit: nat)
    requires -TWO63 <= start < 0 && |ms| < TWO63 && 1 <= limit <= 1000
    ensures Slice(ms, AtLeastZero(WindowLo(|ms|, start, limit)), AtLeastZero(WindowHi(|ms|, start))) == []
            <==> |ms| == 0 || start + limit <= 0 || |ms| - start >= TWO63
  {
    BoundsBelow(|ms|, start, limit);
  }

  /** The window is the page asked for if and only if PageFits. */
  lemma WindowIsPage<T>(ms: seq<T>, start: nat, limit: nat)
    requires |ms| < TWO63 && 1 <= limit <= 1000
    ensures Reverse(Slice(ms, AtLeastZero(WindowLo(|ms|, start, limit)), AtLeastZero(WindowHi(|ms|, start)))) ==
            Slice(Reverse(ms), start, start + limit)
            <==> PageFits(|ms|, start, limit)
  {
    var s := Int64(start);
    WrapFits(start);
    WrapFits(s);
    assert WindowLo(|ms|, start, limit) == WindowLo(|ms|, s, limit) && WindowHi(|ms|, start) == WindowHi(|ms|, s);
    if s >= 0 {
      WindowBounds(|ms|, s, limit);
      WindowFrom(ms, s, limit, WindowLo(|ms|, s, limit), WindowHi(|ms|, s));
      SliceIsEmpty(Reverse(ms), s, limit);
    } else {
      WindowBelow(ms, s, limit);
      ReverseIsEmpty(Slice(ms, AtLeastZero(WindowLo(|ms|, s, limit)), AtLeastZero(WindowHi(|ms|, s))));
    }
    SliceIsEmpty(Reverse(ms), start, limit);
  }

  lemma SliceIsEmpty<T>(s: seq<T>, start: nat, limit: nat)
    requires limit >= 1
    ensures Slice(s, start, start + limit) == [] <==> start >= |s|
  {
  }

  lemma ReverseIsEmpty<T>(s: seq<T>)
    ensures Reverse(s) == [] <==> s == []
  {
  }

  /** A page number whose start overflows to zero shows page 1 again. */
  lemma HugePageIsPageOne(total: nat)
    ensures PageFits(total, PageStart(2305843009213693953, 8), 8) <==> total == 0
    ensures WindowLo(total, PageStart(2305843009213693953, 8), 8) == WindowLo(total, 0, 8)
    ensures WindowHi(total, PageStart(2305843009213693953, 8)) == WindowHi(total, 0)
  {
    assert PageStart(2305843009213693953, 8) == 2 * TWO63;
    assert Int64(2 * TWO63) == Int64(0) == 0;
  }

  /** Pages 1 to n put together. */
  function Pages<T>(s: seq<T>, limit: nat, n: nat): seq<T> {
    if n == 0 then [] else Pages(s, limit, n - 1) + Slice(s, (n - 1) * limit, n * limit)
  }

  lemma {:induction false} PagesArePrefix<T>(s: seq<T>, limit: nat, n: nat)
    ensures Pages(s, limit, n) == s[..Clamp(n * limit, |s|)]
  {
    if n > 0 {
      PagesArePrefix(s, limit, n - 1);
      assert n * limit == (n - 1) * limit + limit;
      assert (n - 1) * limit >= 0;
    }
  }

  /** Turning pages until they are empty shows every match once, newest first. */
  lemma PagesCoverAll<T>(log: seq<T>, p: T -> bool, limit: nat, n: nat)
    requires n * limit >= |Matches(log, p)|
    ensures Pages(Newest(log, p), limit, n) == Newest(log, p)
  {
    PagesArePrefix(Newest(log, p), limit, n);
  }

  /** The recent-events reader shows what the first page shows. */
  lemma RecentIsFirstPage<T>(log: seq<T>, p: T -> bool, limit: nat)
    ensures Slice(Newest(log, p), 0, limit) == Pages(Newest(log, p), limit, 1)
  {
  }
}
