/**
 * Event-time windows: `rlink/src/core/window.rs` and `rlink/src/functions/window/mod.rs`.
 *
 * The facts at the end of the module are the ones that the late-record check and the drop
 * rule of the reduce operator rest on, although neither of those files states them.
 */
module Windows {
  import opened Prelude

  datatype Window = TimeWindow(start: nat, end: nat)

  /** Rust's `%`: the remainder has the sign of the dividend. */
  function Rem(a: int, b: int): int
    requires b > 0
  {
    if a >= 0 then a % b else -((-a) % b)
  }

  function WindowStartWithOffset(timestamp: nat, offset: int, windowSize: nat): int
    requires windowSize > 0
  {
    timestamp - Rem(timestamp - offset + windowSize, windowSize)
  }

  datatype SlidingWindows = SlidingWindows(size: nat, slide: nat, offset: int) {
    ghost predicate Valid() {
      0 < size && 0 < slide && 0 - slide < offset < slide
    }

    /** No gap between consecutive windows, so every timestamp lies in one. */
    ghost predicate Gapless() {
      Valid() && slide <= size
    }
  }

  /** `SlidingEventTimeWindows::new`; the source panics on every other parameter. */
  function NewSlidingWindows(size: nat, slide: nat, offset: int): (r: Outcome<SlidingWindows>)
    ensures r.Done? <==> 0 < size && 0 - slide < offset < slide
    ensures r.Done? ==> r.value.Valid()
  {
    if (if offset < 0 then -offset else offset) >= slide || size <= 0 then Panic
    else Done(SlidingWindows(size, slide, offset))
  }

  function LastStart(w: SlidingWindows, timestamp: nat): nat
    requires w.Valid()
  {
    var last := WindowStartWithOffset(timestamp, w.offset, w.slide);
    if last < 0 then 0 else last
  }

  /** The windows from `start` downwards that still contain the timestamp, earliest first. */
  function WindowsFrom(w: SlidingWindows, timestamp: nat, start: int): seq<Window>
    requires w.Valid()
    decreases if start > timestamp - w.size then start - (timestamp - w.size) else 0
  {
    if start <= timestamp - w.size then []
    else
      WindowsFrom(w, timestamp, start - w.slide) +
      (if start >= 0 then [TimeWindow(start, start + w.size)] else [])
  }

  function Assigned(w: SlidingWindows, timestamp: nat): seq<Window>
    requires w.Valid()
  {
    WindowsFrom(w, timestamp, LastStart(w, timestamp))
  }

  function StartOf(x: Window): int { x.start }

  // ----- the loop of `assign_windows`

  lemma WindowsFromStep(w: SlidingWindows, timestamp: nat, start: int)
    requires w.Valid() && start > timestamp - w.size
    ensures forall x :: x in WindowsFrom(w, timestamp, start) <==>
      x in WindowsFrom(w, timestamp, start - w.slide) || (start >= 0 && x == TimeWindow(start, start + w.size))
  {
  }

  /** The loop: starts go down, so the windows come out in descending order. */
  method CollectWindows(w: SlidingWindows, timestamp: nat, lastStart: int) returns (windows: seq<Window>)
    requires w.Valid()
    ensures forall x :: x in windows <==> x in WindowsFrom(w, timestamp, lastStart)
    ensures DistinctKeys(windows, StartOf)
  {
    windows := [];
    var start := lastStart;
    while start > timestamp - w.size
      invariant forall x :: x in WindowsFrom(w, timestamp, lastStart) <==>
                            x in WindowsFrom(w, timestamp, start) || x in windows
      invariant forall i, j | 0 <= i < j < |windows| :: windows[j].start < windows[i].start
      invariant forall i | 0 <= i < |windows| :: start < windows[i].start
      decreases start - (timestamp - w.size)
    {
      WindowsFromStep(w, timestamp, start);
      if start >= 0 {
        windows := windows + [TimeWindow(start, start + w.size)];
      }
      start := start - w.slide;
    }
  }

  method AssignWindows(w: SlidingWindows, timestamp: nat) returns (windows: seq<Window>)
    requires w.Valid()
    ensures windows == Assigned(w, timestamp)
  {
    var lastStart := WindowStartWithOffset(timestamp, w.offset, w.slide);
    if lastStart < 0 {
      lastStart := 0;
    }
    windows := CollectWindows(w, timestamp, lastStart);
    WindowsFromSorted(w, timestamp, lastStart);
    windows := SortBy(windows, StartOf);
    StrictlySortedUnique(windows, Assigned(w, timestamp), StartOf);
  }

  // ----- modular arithmetic

  lemma MultipleHasNoRemainder(k: int, m: int)
    requires m > 0
    ensures (m * k) % m == 0
  {
    var q, r := (m * k) / m, (m * k) % m;
    assert m * k == m * q + r;
    assert m * (k - q) == r;
    assert k - q >= 1 ==> m * (k - q) >= m;
    assert k - q <= -1 ==> m * (k - q) <= -m;
  }

  lemma CongruenceSubtracts(a: int, b: int, m: int)
    requires m > 0 && a % m == 0 && b % m == 0
    ensures (a - b) % m == 0 && (a + b) % m == 0
  {
    var p, q := a / m, b / m;
    assert a == m * p && b == m * q;
    assert a - b == m * (p - q);
    assert a + b == m * (p + q);
    MultipleHasNoRemainder(p - q, m);
    MultipleHasNoRemainder(p + q, m);
  }

  lemma SmallMultipleIsZero(d: int, m: int)
    requires m > 0 && 0 <= d < m && d % m == 0
    ensures d == 0
  {
  }

  // ----- exactness

  /** The start before clamping: aligned with the offset, at or before the timestamp, less than a slide away. */
  lemma AlignedStart(w: SlidingWindows, timestamp: nat)
    requires w.Valid()
    ensures var s := WindowStartWithOffset(timestamp, w.offset, w.slide);
            timestamp - w.slide < s <= timestamp && (s - w.offset) % w.slide == 0
  {
    var m := w.slide;
    var d := timestamp - w.offset + m;
    assert d > 0;
    var q, r := d / m, d % m;
    assert d == m * q + r;
    var s := WindowStartWithOffset(timestamp, w.offset, m);
    assert s == timestamp - r;
    assert s - w.offset == m * q - m == m * (q - 1);
    MultipleHasNoRemainder(q - 1, m);
  }

  lemma {:induction false} WindowsFromSorted(w: SlidingWindows, timestamp: nat, start: int)
    requires w.Valid()
    ensures StrictlySortedBy(WindowsFrom(w, timestamp, start), StartOf)
    ensures forall x | x in WindowsFrom(w, timestamp, start) :: x.start <= start && x.end == x.start + w.size
    decreases if start > timestamp - w.size then start - (timestamp - w.size) else 0
  {
    if start > timestamp - w.size {
      WindowsFromSorted(w, timestamp, start - w.slide);
    }
  }

  /** One slide down changes no divisibility. */
  lemma StepKeepsCongruence(d: int, slide: int)
    requires slide > 0
    ensures d % slide == 0 <==> (d - slide) % slide == 0
  {
    MultipleHasNoRemainder(1, slide);
    assert slide % slide == 0;
    if d % slide == 0 {
      CongruenceSubtracts(d, slide, slide);
    }
    if (d - slide) % slide == 0 {
      CongruenceSubtracts(d - slide, slide, slide);
    }
  }

  /** At most `start`, a whole number of slides away from it. */
  predicate OnStep(start: int, s: int, slide: int)
    requires slide > 0
  {
    s <= start && (start - s) % slide == 0
  }

  /** Between a start and the next one down there is no third. */
  lemma NextStep(start: int, s: int, slide: int)
    requires slide > 0
    ensures OnStep(start, s, slide) <==> s == start || OnStep(start - slide, s, slide)
  {
    var d := start - s;
    StepKeepsCongruence(d, slide);
    assert start - slide - s == d - slide;
    if 0 <= d < slide && d % slide == 0 {
      SmallMultipleIsZero(d, slide);
    }
  }

  lemma {:induction false} WindowsFromMembers(w: SlidingWindows, timestamp: nat, start: int, s: nat)
    requires w.Valid()
    ensures TimeWindow(s, s + w.size) in WindowsFrom(w, timestamp, start)
            <==> timestamp - w.size < s && OnStep(start, s, w.slide)
    decreases if start > timestamp - w.size then start - (timestamp - w.size) else 0
  {
    if start > timestamp - w.size {
      WindowsFromStep(w, timestamp, start);
      WindowsFromMembers(w, timestamp, start - w.slide, s);
      NextStep(start, s, w.slide);
    }
  }

  /**
   * `assign_windows` is exact. If the aligned start is not negative it returns, in increasing
   * order and without repeats, all and only the windows of the right size whose start is
   * non-negative, congruent to the offset and which contain the timestamp. Otherwise only
   * [0, size) can be returned, and it is returned exactly when it contains the timestamp.
   */
  lemma AssignedExact(w: SlidingWindows, timestamp: nat)
    requires w.Valid()
    ensures StrictlySortedBy(Assigned(w, timestamp), StartOf)
    ensures forall x :: x in Assigned(w, timestamp) <==>
      && x.end == x.start + w.size
      && x.start <= timestamp < x.end
      && (if WindowStartWithOffset(timestamp, w.offset, w.slide) >= 0
          then (x.start - w.offset) % w.slide == 0
          else x.start == 0)
  {
    var last := WindowStartWithOffset(timestamp, w.offset, w.slide);
    AlignedStart(w, timestamp);
    WindowsFromSorted(w, timestamp, LastStart(w, timestamp));
    forall x: Window
      ensures x in Assigned(w, timestamp) <==>
        && x.end == x.start + w.size
        && x.start <= timestamp < x.end
        && (if last >= 0 then (x.start - w.offset) % w.slide == 0 else x.start == 0)
    {
      if x.end == x.start + w.size {
        WindowsFromMembers(w, timestamp, LastStart(w, timestamp), x.start);
        if last >= 0 {
          SameClass(w, timestamp, last, x.start);
        }
      }
    }
  }

  /** Among the starts up to the timestamp, being congruent to the offset and to the last start agree. */
  lemma SameClass(w: SlidingWindows, timestamp: nat, last: int, s: int)
    requires w.Valid()
    requires timestamp - w.slide < last <= timestamp && (last - w.offset) % w.slide == 0
    ensures s <= last && (last - s) % w.slide == 0 <==> s <= timestamp && (s - w.offset) % w.slide == 0
  {
    if (last - s) % w.slide == 0 {
      CongruenceSubtracts(last - w.offset, last - s, w.slide);
      assert (last - w.offset) - (last - s) == s - w.offset;
    }
    if (s - w.offset) % w.slide == 0 {
      CongruenceSubtracts(last - w.offset, s - w.offset, w.slide);
      assert (last - w.offset) - (s - w.offset) == last - s;
      CongruenceSubtracts(s - w.offset, last - w.offset, w.slide);
      assert (s - w.offset) - (last - w.offset) == s - last;
      if last < s <= timestamp {
        SmallMultipleIsZero(s - last, w.slide);
      }
    }
  }

  // ----- what the reduce operator relies on

  lemma EveryTimestampHasAWindow(w: SlidingWindows, timestamp: nat)
    requires w.Gapless()
    ensures Assigned(w, timestamp) != []
    ensures var ws := Assigned(w, timestamp); ws[|ws| - 1].start == LastStart(w, timestamp)
  {
    AlignedStart(w, timestamp);
  }

  function FirstStart(w: SlidingWindows, timestamp: nat): (s: nat)
    requires w.Gapless()
  {
    EveryTimestampHasAWindow(w, timestamp);
    Assigned(w, timestamp)[0].start
  }

  lemma AlignedStartMonotone(w: SlidingWindows, t0: nat, t1: nat)
    requires w.Valid() && t0 <= t1
    ensures WindowStartWithOffset(t0, w.offset, w.slide) <= WindowStartWithOffset(t1, w.offset, w.slide)
  {
    var s0 := WindowStartWithOffset(t0, w.offset, w.slide);
    var s1 := WindowStartWithOffset(t1, w.offset, w.slide);
    AlignedStart(w, t0);
    AlignedStart(w, t1);
    CongruenceSubtracts(s0 - w.offset, s1 - w.offset, w.slide);
    assert (s0 - w.offset) - (s1 - w.offset) == s0 - s1;
    if s1 < s0 {
      SmallMultipleIsZero(s0 - s1, w.slide);
    }
  }

  /** The earliest open window of a later timestamp is never earlier. */
  lemma FirstStartMonotone(w: SlidingWindows, t0: nat, t1: nat)
    requires w.Gapless() && t0 <= t1
    ensures FirstStart(w, t0) <= FirstStart(w, t1)
  {
    AssignedExact(w, t0);
    AssignedExact(w, t1);
    EveryTimestampHasAWindow(w, t0);
    EveryTimestampHasAWindow(w, t1);
    AlignedStartMonotone(w, t0, t1);
    var f0, f1 := Assigned(w, t0)[0], Assigned(w, t1)[0];
    assert f0 in Assigned(w, t0) && f1 in Assigned(w, t1);
    if f1.start <= t0 && WindowStartWithOffset(t0, w.offset, w.slide) >= 0 {
      assert f1 in Assigned(w, t0);
    }
  }

  /** A record at or after the watermark passes the late-record check of the reduce operator. */
  lemma OnTimeIsAccepted(w: SlidingWindows, timestamp: nat, watermark: nat)
    requires w.Gapless() && watermark <= timestamp
    ensures LastStart(w, timestamp) >= FirstStart(w, watermark)
  {
    EveryTimestampHasAWindow(w, watermark);
    AssignedExact(w, watermark);
    AlignedStartMonotone(w, watermark, timestamp);
  }

  /**
   * The late-record check against the drop rule: a record whose last window starts at or
   * after `limit` has no window that ends at or before it.
   */
  lemma AcceptedWindowOutlivesLimit(w: SlidingWindows, timestamp: nat, limit: nat, x: Window)
    requires w.Valid() && LastStart(w, timestamp) >= limit
    requires x in Assigned(w, timestamp)
    ensures x.end > limit
  {
    AlignedStart(w, timestamp);
    AssignedExact(w, timestamp);
  }

  lemma FirstStartOfZero(w: SlidingWindows)
    requires w.Gapless()
    ensures FirstStart(w, 0) == 0
  {
    AssignedExact(w, 0);
    EveryTimestampHasAWindow(w, 0);
    assert Assigned(w, 0)[0] in Assigned(w, 0);
  }

  /** A window ending a full size before the watermark has ended before the watermark's first window. */
  lemma FirstStartIsWithinOneSize(w: SlidingWindows, timestamp: nat)
    requires w.Gapless()
    ensures timestamp - w.size < FirstStart(w, timestamp) <= timestamp
  {
    AssignedExact(w, timestamp);
    EveryTimestampHasAWindow(w, timestamp);
    assert Assigned(w, timestamp)[0] in Assigned(w, timestamp);
  }
}
