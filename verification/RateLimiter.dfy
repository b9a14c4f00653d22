// The per-key sliding-window limiter of router.py. A caller reads the clock before it takes the
// lock, so the readings of a key may be processed out of order.
module RateLimiter {

  predicate NonDecreasing(times: seq<real>) {
    forall i, j :: 0 <= i < j < |times| ==> times[i] <= times[j]
  }

  /** How many of the times lie in the closed interval from lo to hi. */
  function CountIn(times: seq<real>, lo: real, hi: real): (n: nat)
    ensures n <= |times|
  {
    if times == [] then 0
    else
      var last := times[|times| - 1];
      CountIn(times[..|times| - 1], lo, hi) + if lo <= last <= hi then 1 else 0
  }

  // ---------------------------------------------------------------- one key

  /** The eviction loop looks at the front only. */
  function Evicted(dq: seq<real>, cutoff: real): (kept: seq<real>)
    ensures kept != [] ==> cutoff <= kept[0]
  {
    if dq != [] && dq[0] < cutoff then Evicted(dq[1..], cutoff) else dq
  }

  /** A key's deque after its clock readings, in the order they are processed. */
  function DequeAfter(maxCalls: int, window: real, readings: seq<real>): seq<real> {
    if readings == [] then []
    else
      var now := readings[|readings| - 1];
      var dq := Evicted(DequeAfter(maxCalls, window, readings[..|readings| - 1]), now - window);
      if |dq| < maxCalls then dq + [now] else dq
  }

  /** The decision on a reading after the given ones. */
  predicate Admits(maxCalls: int, window: real, readings: seq<real>, now: real) {
    |Evicted(DequeAfter(maxCalls, window, readings), now - window)| < maxCalls
  }

  /** The allowed calls among a key's readings, in order. */
  function AllowedCalls(maxCalls: int, window: real, readings: seq<real>): seq<real> {
    if readings == [] then []
    else
      var front, now := readings[..|readings| - 1], readings[|readings| - 1];
      AllowedCalls(maxCalls, window, front) + if Admits(maxCalls, window, front, now) then [now] else []
  }

  lemma NoReadings(maxCalls: int, window: real)
    ensures DequeAfter(maxCalls, window, []) == [] && AllowedCalls(maxCalls, window, []) == []
    ensures forall lo, hi :: CountIn([], lo, hi) == 0
  {
  }

  /** One more reading. */
  lemma Unfold(maxCalls: int, window: real, readings: seq<real>, now: real)
    ensures var dq := Evicted(DequeAfter(maxCalls, window, readings), now - window);
      && DequeAfter(maxCalls, window, readings + [now]) == (if |dq| < maxCalls then dq + [now] else dq)
      && AllowedCalls(maxCalls, window, readings + [now]) == AllowedCalls(maxCalls, window, readings)
        + (if |dq| < maxCalls then [now] else [])
  {
    assert (readings + [now])[..|readings|] == readings;
  }

  // ---------------------------------------------------------------- the window bound

  lemma {:induction false} CountInAppend(times: seq<real>, more: seq<real>, lo: real, hi: real)
    ensures CountIn(times + more, lo, hi) == CountIn(times, lo, hi) + CountIn(more, lo, hi)
  {
    if more == [] {
      assert times + more == times;
    } else {
      CountInAppend(times, more[..|more| - 1], lo, hi);
      assert (times + more)[..|times + more| - 1] == times + more[..|more| - 1];
    }
  }

  lemma CountInOne(time: real, lo: real, hi: real)
    ensures CountIn([time], lo, hi) == if lo <= time <= hi then 1 else 0
  {
  }

  lemma {:induction false} NoneIn(times: seq<real>, lo: real, hi: real)
    requires forall i :: 0 <= i < |times| ==> !(lo <= times[i] <= hi)
    ensures CountIn(times, lo, hi) == 0
  {
    if times != [] {
      NoneIn(times[..|times| - 1], lo, hi);
    }
  }

  lemma {:induction false} AllIn(times: seq<real>, lo: real, hi: real)
    requires forall i :: 0 <= i < |times| ==> lo <= times[i] <= hi
    ensures CountIn(times, lo, hi) == |times|
  {
    if times != [] {
      AllIn(times[..|times| - 1], lo, hi);
    }
  }

  lemma {:induction false} EvictionSpares(dq: seq<real>, cutoff: real, lo: real, hi: real)
    requires cutoff <= lo
    ensures CountIn(Evicted(dq, cutoff), lo, hi) == CountIn(dq, lo, hi)
  {
    if dq != [] && dq[0] < cutoff {
      EvictionSpares(dq[1..], cutoff, lo, hi);
      CountInAppend([dq[0]], dq[1..], lo, hi);
      assert [dq[0]] + dq[1..] == dq;
      NoneIn([dq[0]], lo, hi);
    }
  }

  /** As long as no reading is more than a window past lo, no allowed call from lo on is evicted. */
  lemma {:induction false} DequeKeepsWindow(maxCalls: int, window: real, readings: seq<real>, lo: real, hi: real)
    requires forall i :: 0 <= i < |readings| ==> readings[i] - window <= lo
    ensures CountIn(DequeAfter(maxCalls, window, readings), lo, hi)
      == CountIn(AllowedCalls(maxCalls, window, readings), lo, hi)
  {
    hide DequeAfter, AllowedCalls, Evicted, CountIn;
    NoReadings(maxCalls, window);
    if readings != [] {
      var front, now := readings[..|readings| - 1], readings[|readings| - 1];
      var dq, all := DequeAfter(maxCalls, window, front), AllowedCalls(maxCalls, window, front);
      DequeKeepsWindow(maxCalls, window, front, lo, hi);
      Unfold(maxCalls, window, front, now);
      EvictionSpares(dq, now - window, lo, hi);
      CountInAppend(Evicted(dq, now - window), [now], lo, hi);
      CountInAppend(all, [now], lo, hi);
      assert readings == front + [now] && all + [] == all;
    }
  }

  predicate Bounded(maxCalls: int, window: real, readings: seq<real>, t: real) {
    CountIn(AllowedCalls(maxCalls, window, readings), t, t + window) <= if maxCalls > 0 then maxCalls else 0
  }

  /** No reading beyond the interval from t is processed before a reading inside it. */
  predicate NotOvertaken(readings: seq<real>, window: real, t: real) {
    forall i, j :: 0 <= i < j < |readings| && t <= readings[j] <= t + window ==> readings[i] <= t + window
  }

  /** The bound: a closed interval of the window's length that is not overtaken holds at most
      maxCalls allowed calls. */
  lemma {:induction false} WindowBound(maxCalls: int, window: real, readings: seq<real>, t: real)
    requires NotOvertaken(readings, window, t)
    ensures Bounded(maxCalls, window, readings, t)
  {
    hide DequeAfter, AllowedCalls, Evicted, CountIn;
    NoReadings(maxCalls, window);
    if readings != [] {
      var front, now := readings[..|readings| - 1], readings[|readings| - 1];
      var all, dq := AllowedCalls(maxCalls, window, front), DequeAfter(maxCalls, window, front);
      WindowBound(maxCalls, window, front, t);
      Unfold(maxCalls, window, front, now);
      CountInAppend(all, [now], t, t + window);
      CountInOne(now, t, t + window);
      assert readings == front + [now] && all + [] == all;
      if t <= now <= t + window {
        DequeKeepsWindow(maxCalls, window, front, t, t + window);
        EvictionSpares(dq, now - window, t, t + window);
      }
    }
  }

  /** On readings processed in clock order every closed interval of the window's length is bounded. */
  lemma {:induction false} OrderedWindowBound(maxCalls: int, window: real, readings: seq<real>, t: real)
    requires NonDecreasing(readings)
    ensures Bounded(maxCalls, window, readings, t)
  {
    WindowBound(maxCalls, window, readings, t);
  }

  /** The deque holds readings, in their order. */
  lemma {:induction false} DequeOfOrdered(maxCalls: int, window: real, readings: seq<real>)
    requires NonDecreasing(readings)
    ensures var dq := DequeAfter(maxCalls, window, readings);
      NonDecreasing(dq) && forall i :: 0 <= i < |dq| ==> dq[i] <= readings[|readings| - 1]
  {
    hide DequeAfter, Evicted;
    NoReadings(maxCalls, window);
    if readings != [] {
      var front, now := readings[..|readings| - 1], readings[|readings| - 1];
      DequeOfOrdered(maxCalls, window, front);
      Unfold(maxCalls, window, front, now);
      EvictedIsSuffix(DequeAfter(maxCalls, window, front), now - window);
      assert readings == front + [now];
    }
  }

  lemma {:induction false} EvictedIsSuffix(dq: seq<real>, cutoff: real)
    ensures var kept := Evicted(dq, cutoff);
      |kept| <= |dq| && kept == dq[|dq| - |kept|..]
  {
    if dq != [] && dq[0] < cutoff {
      EvictedIsSuffix(dq[1..], cutoff);
    }
  }

  /** In clock order a call is rejected exactly when the closed window ending now is full. */
  lemma {:induction false} RejectedIffFull(maxCalls: nat, window: real, readings: seq<real>, now: real)
    requires NonDecreasing(readings + [now])
    ensures !Admits(maxCalls, window, readings, now)
      <==> CountIn(AllowedCalls(maxCalls, window, readings), now - window, now) == maxCalls
  {
    var dq, cutoff := DequeAfter(maxCalls, window, readings), now - window;
    hide DequeAfter, AllowedCalls, Evicted, CountIn;
    OrderedFront(readings, now);
    DequeOfOrdered(maxCalls, window, readings);
    DequeKeepsWindow(maxCalls, window, readings, cutoff, now);
    EvictionSpares(dq, cutoff, cutoff, now);
    EvictedIsSuffix(dq, cutoff);
    FrontAtLeast(Evicted(dq, cutoff), dq, cutoff);
    forall x | x in dq ensures x <= now {
      var i :| 0 <= i < |dq| && dq[i] == x;
      assert readings != [] by { NoReadings(maxCalls, window); }
      assert dq[i] <= readings[|readings| - 1] <= now;
    }
    AllIn(Evicted(dq, cutoff), cutoff, now);
    OrderedWindowBound(maxCalls, window, readings, cutoff);
  }

  lemma FrontAtLeast(kept: seq<real>, dq: seq<real>, cutoff: real)
    requires NonDecreasing(dq) && |kept| <= |dq| && kept == dq[|dq| - |kept|..]
    requires kept != [] ==> cutoff <= kept[0]
    ensures forall i :: 0 <= i < |kept| ==> cutoff <= kept[i] && kept[i] in dq
  {
  }

  lemma OrderedFront(readings: seq<real>, now: real)
    requires NonDecreasing(readings + [now])
    ensures NonDecreasing(readings) && forall i :: 0 <= i < |readings| ==> readings[i] <= now
  {
    assert forall i :: 0 <= i < |readings| ==> readings[i] == (readings + [now])[i];
    assert (readings + [now])[|readings|] == now;
  }

  // ---------------------------------------------------------------- out of clock order

  function Burst(n: nat, at: real): seq<real> {
    if n == 0 then [] else Burst(n - 1, at) + [at]
  }

  lemma {:induction false} BurstAllowed(maxCalls: nat, window: real, n: nat, at: real)
    requires n <= maxCalls && window >= 0.0
    ensures var calls := Burst(n, at);
      && |calls| == n && (forall i :: 0 <= i < n ==> calls[i] == at)
      && DequeAfter(maxCalls, window, calls) == calls && AllowedCalls(maxCalls, window, calls) == calls
  {
    hide DequeAfter, AllowedCalls, Evicted;
    NoReadings(maxCalls, window);
    if n > 0 {
      BurstAllowed(maxCalls, window, n - 1, at);
      Unfold(maxCalls, window, Burst(n - 1, at), at);
      NoneEvicted(Burst(n - 1, at), at - window);
    }
  }

  lemma NoneEvicted(dq: seq<real>, cutoff: real)
    requires dq != [] ==> cutoff <= dq[0]
    ensures Evicted(dq, cutoff) == dq
  {
  }

  lemma {:induction false} AllEvicted(dq: seq<real>, cutoff: real)
    requires forall i :: 0 <= i < |dq| ==> dq[i] < cutoff
    ensures Evicted(dq, cutoff) == []
  {
    if dq != [] {
      AllEvicted(dq[1..], cutoff);
    }
  }

  /** A late reading breaks the bound: a full window of calls at 0, a reading beyond the window that
      evicts them all, and a reading from inside the window are all allowed. */
  lemma {:induction false} LateReadingBreaksBound(maxCalls: nat, window: real, beyond: real, late: real)
    requires maxCalls >= 2 && 0.0 <= late <= window < beyond
    ensures var readings := Burst(maxCalls, 0.0) + [beyond, late];
      CountIn(AllowedCalls(maxCalls, window, readings), 0.0, window) == maxCalls + 1
  {
    hide DequeAfter, AllowedCalls, Evicted, CountIn, Burst;
    var burst := Burst(maxCalls, 0.0);
    BurstAllowed(maxCalls, window, maxCalls, 0.0);
    Unfold(maxCalls, window, burst, beyond);
    AllEvicted(burst, beyond - window);
    assert [] + [beyond] == [beyond];
    Unfold(maxCalls, window, burst + [beyond], late);
    NoneEvicted([beyond], late - window);
    AllIn(burst, 0.0, window);
    CountInAppend(burst, [beyond], 0.0, window);
    CountInAppend(burst + [beyond], [late], 0.0, window);
    CountInOne(beyond, 0.0, window);
    CountInOne(late, 0.0, window);
    assert burst + [beyond, late] == burst + [beyond] + [late];
  }

  /** A late reading can also be rejected although the window ending at it is empty. */
  lemma {:induction false} LateReadingRejected(maxCalls: nat, window: real, early: real, late: real)
    requires window >= 0.0 && late < early
    ensures var readings := Burst(maxCalls, early);
      && !Admits(maxCalls, window, readings, late)
      && CountIn(AllowedCalls(maxCalls, window, readings), late - window, late) == 0
  {
    hide DequeAfter, AllowedCalls, Evicted, CountIn, Burst;
    BurstAllowed(maxCalls, window, maxCalls, early);
    NoneEvicted(Burst(maxCalls, early), late - window);
    NoneIn(Burst(maxCalls, early), late - window, late);
  }

  /** Each allowed call of a limiter of one comes more than a window after all before it. */
  lemma {:induction false} OneCallSpacing(window: real, readings: seq<real>)
    requires window >= 0.0
    ensures var all := AllowedCalls(1, window, readings);
      && DequeAfter(1, window, readings) == (if all == [] then [] else [all[|all| - 1]])
      && forall i, j :: 0 <= i < j < |all| ==> all[i] + window < all[j]
  {
    hide DequeAfter, AllowedCalls, Evicted;
    NoReadings(1, window);
    if readings != [] {
      var front, now := readings[..|readings| - 1], readings[|readings| - 1];
      OneCallSpacing(window, front);
      Unfold(1, window, front, now);
      EvictedOfOne(DequeAfter(1, window, front), now - window);
      assert readings == front + [now];
    }
  }

  lemma EvictedOfOne(dq: seq<real>, cutoff: real)
    requires |dq| <= 1
    ensures Evicted(dq, cutoff) == if dq != [] && dq[0] < cutoff then [] else dq
  {
  }

  lemma {:induction false} SpacedCount(times: seq<real>, window: real, t: real)
    requires forall i, j :: 0 <= i < j < |times| ==> times[i] + window < times[j]
    ensures CountIn(times, t, t + window) <= 1
  {
    if times != [] {
      var front, last := times[..|times| - 1], times[|times| - 1];
      SpacedCount(front, window, t);
      if t <= last <= t + window {
        NoneIn(front, t, t + window);
      }
    }
  }

  lemma {:induction false} NoneAllowed(maxCalls: int, window: real, readings: seq<real>)
    requires maxCalls <= 0
    ensures AllowedCalls(maxCalls, window, readings) == []
  {
    if readings != [] {
      NoneAllowed(maxCalls, window, readings[..|readings| - 1]);
    }
  }

  /** Exactly which limiters keep the bound whatever the order of the readings: those of at most
      one call. All others need what WindowBound asks. */
  lemma {:induction false} BoundInAnyOrderIff(maxCalls: int, window: real)
    requires window >= 0.0
    ensures (forall readings, t :: Bounded(maxCalls, window, readings, t)) <==> maxCalls <= 1
  {
    hide AllowedCalls, CountIn, Burst;
    if maxCalls > 1 {
      LateReadingBreaksBound(maxCalls, window, window + 1.0, window);
      assert 0.0 + window == window;
      assert !Bounded(maxCalls, window, Burst(maxCalls, 0.0) + [window + 1.0, window], 0.0);
    } else {
      forall readings, t ensures Bounded(maxCalls, window, readings, t) {
        FewCallsBounded(maxCalls, window, readings, t);
      }
    }
  }

  lemma {:induction false} FewCallsBounded(maxCalls: int, window: real, readings: seq<real>, t: real)
    requires window >= 0.0 && maxCalls <= 1
    ensures Bounded(maxCalls, window, readings, t)
  {
    if maxCalls == 1 {
      OneCallSpacing(window, readings);
      SpacedCount(AllowedCalls(1, window, readings), window, t);
    } else {
      NoneAllowed(maxCalls, window, readings);
    }
  }

  // ---------------------------------------------------------------- all keys

  class SlidingWindowLimiter {
    const maxCalls: int
    const window: real
    var windows: map<string, seq<real>>
    /** Every clock reading made so far, per key, in the order they were processed. */
    ghost var readings: map<string, seq<real>>

    ghost function Readings(key: string): seq<real>
      reads this
    {
      if key in readings then readings[key] else []
    }

    ghost function Allowed(key: string): seq<real>
      reads this
    {
      AllowedCalls(maxCalls, window, Readings(key))
    }

    function Deque(key: string): seq<real>
      reads this
    {
      if key in windows then windows[key] else []
    }

    ghost predicate Valid()
      reads this
    {
      forall key :: Deque(key) == DequeAfter(maxCalls, window, Readings(key))
    }

    constructor (maxCalls: int, window: real)
      ensures Valid() && this.maxCalls == maxCalls && this.window == window
      ensures forall key :: Readings(key) == []
    {
      this.maxCalls, this.window := maxCalls, window;
      windows := map[];
      readings := map[];
    }

    /** is_allowed, for a reading taken at any time before the call: an allowed call joins its key's
        allowed calls, other keys are untouched, and when the key's readings have come in clock
        order the answer is whether its window ending now has room. */
    method IsAllowed(key: string, now: real) returns (ok: bool)
      requires Valid()
      modifies this
      ensures Valid()
      ensures Readings(key) == old(Readings(key)) + [now]
      ensures Allowed(key) == if ok then old(Allowed(key)) + [now] else old(Allowed(key))
      ensures forall other :: other != key ==> Readings(other) == old(Readings(other))
      ensures maxCalls >= 0 && NonDecreasing(Readings(key)) ==>
        (ok <==> CountIn(old(Allowed(key)), now - window, now) != maxCalls)
    {
      hide DequeAfter, AllowedCalls, CountIn, NonDecreasing, Evicted;
      ghost var was := Readings(key);
      var dq := Evict(Deque(key), now - window);
      ok := |dq| < maxCalls;
      Unfold(maxCalls, window, was, now);
      if ok {
        dq := dq + [now];
      }
      windows := windows[key := dq];
      readings := readings[key := was + [now]];
      if maxCalls >= 0 && NonDecreasing(was + [now]) {
        RejectedIffFull(maxCalls, window, was, now);
      }
      forall k ensures Deque(k) == DequeAfter(maxCalls, window, Readings(k)) {
        if k != key {
          assert Deque(k) == old(Deque(k)) && Readings(k) == old(Readings(k));
        }
      }
    }

    method Evict(given: seq<real>, cutoff: real) returns (dq: seq<real>)
      ensures dq == Evicted(given, cutoff)
    {
      dq := given;
      while dq != [] && dq[0] < cutoff
        invariant Evicted(dq, cutoff) == Evicted(given, cutoff)
        decreases |dq|
      {
        dq := dq[1..];
      }
    }
  }
}
