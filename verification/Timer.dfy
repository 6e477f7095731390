/** The drift-free millisecond timer (variorum_timers.c).

    A firing time is `startms + step * interval`.  `step` and `interval` are 32-bit, so the product
    wraps at 2^32 before it is added to the 64-bit start time.  The wrap is written out below, and the
    catch-up loop is analysed both inside and outside the range where it does not matter.
 */
module Timer {
  import opened Arithmetic

  const U32: nat := 0x1_0000_0000
  const U64: nat := 0x1_0000_0000_0000_0000

  type uint32 = x: int | 0 <= x < 0x1_0000_0000
  type uint64 = x: int | 0 <= x < 0x1_0000_0000_0000_0000

  /** A count of milliseconds since the epoch; 2^32 more of them do not reach 2^64. */
  type startTime = x: int | 0 <= x <= 0x1_0000_0000_0000_0000 - 0x1_0000_0000

  /** The fields of `struct mstimer`, as a value. */
  datatype State = State(startms: startTime, step: uint32, interval: uint32, nextms: uint64)

  /** What a 32-bit unsigned product keeps of its value. */
  function Wrap(x: nat): uint32 {
    x % U32
  }

  /** `startms + step * interval` as C computes it: a 32-bit product, then a 64-bit sum. */
  function NextFire(startms: startTime, step: uint32, interval: uint32): uint64 {
    startms + Wrap(step * interval)
  }

  /** The timer stands on its grid: the product has not wrapped. */
  predicate OnGrid(t: State) {
    && t.step * t.interval < U32
    && t.nextms == t.startms + t.step * t.interval
  }

  /** The state whose step is `s`, reached by the code's arithmetic. */
  function At(t: State, s: uint32): State {
    t.(step := s, nextms := NextFire(t.startms, s, t.interval))
  }

  /** The firing time is the one the code's arithmetic gives for the step, wrapped or not. */
  predicate Consistent(t: State) {
    At(t, t.step) == t
  }

  lemma OnGridConsistent(t: State)
    requires OnGrid(t)
    ensures Consistent(t)
  {
  }

  /** One execution of the catch-up loop's body. */
  function Advance(t: State): State {
    At(t, Wrap(t.step + 1))
  }

  function AdvanceN(t: State, n: nat): State {
    if n == 0 then t else Advance(AdvanceN(t, n - 1))
  }

  /** The loop `while (nextms <= now)` entered in state `t` ends after exactly `n` passes. */
  ghost predicate StopsAfter(t: State, now: uint64, n: nat) {
    && AdvanceN(t, n).nextms > now
    && forall m: nat :: m < n ==> AdvanceN(t, m).nextms <= now
  }

  /** The loop `while (nextms <= now)` entered in state `t` ends. */
  ghost predicate Ends(t: State, now: uint64) {
    exists n: nat :: AdvanceN(t, n).nextms > now
  }

  // ----- one call ------------------------------------------------------------------------------

  /** Index of the first grid point after `now`. */
  function FirstAfter(startms: nat, interval: nat, now: nat): nat
    requires interval > 0 && now >= startms
  {
    (now - startms) / interval + 1
  }

  /** What a caller can check before the call: the firing time the call must move to does not wrap. */
  predicate InBound(t: State, now: uint64) {
    if now >= t.nextms then
      t.interval > 0 && now >= t.startms && FirstAfter(t.startms, t.interval, now) * t.interval < U32
    else
      (t.step + 1) * t.interval < U32 && t.step + 1 < U32
  }

  /** The bound in terms of the delay alone. */
  lemma DelayBound(t: State, now: uint64)
    requires OnGrid(t) && t.interval >= 1 && now >= t.nextms
    requires now - t.startms < U32 - t.interval
    ensures InBound(t, now)
  {
    DivBounds(now - t.startms, t.interval);
  }

  /** Passes through the catch-up loop, one for each interval that has gone by. */
  function Passes(t: State, now: uint64): nat
    requires t.interval > 0 && now >= t.nextms
  {
    (now - t.nextms) / t.interval + 1
  }

  /** Effect of one call made at time `now`: the new state, the count returned and the milliseconds
      slept. */
  function Call(t: State, now: uint64): (r: (State, nat, nat))
    requires OnGrid(t) && InBound(t, now)
    ensures OnGrid(r.0) && r.0.startms == t.startms && r.0.interval == t.interval
  {
    if now >= t.nextms then
      var k := FirstAfter(t.startms, t.interval, now);
      CatchUpPoint(t, now);
      (At(t, k), k - t.step, 0)
    else
      SleepPoint(t);
      (At(t, t.step + 1), 0, t.nextms - now)
  }

  lemma CatchUpPoint(t: State, now: uint64)
    requires OnGrid(t) && now >= t.nextms && InBound(t, now)
    ensures t.interval > 0 && now >= t.startms
    ensures var k := FirstAfter(t.startms, t.interval, now);
            && t.step < k < U32
            && k - t.step == Passes(t, now)
            && OnGrid(At(t, k))
            && At(t, k).nextms - t.interval <= now < At(t, k).nextms
  {
    hide NextFire, Passes;
    FirstAfterFacts(t, now);
    var k := FirstAfter(t.startms, t.interval, now);
    NoWrap(t, now, k);
    SubTimes(k, 1, t.interval);
  }

  lemma SleepPoint(t: State)
    requires OnGrid(t) && (t.step + 1) * t.interval < U32 && t.step + 1 < U32
    ensures OnGrid(At(t, t.step + 1))
    ensures At(t, t.step + 1).nextms == t.nextms + t.interval
  {
    hide NextFire;
    AddTimes(t.step, 1, t.interval);
    AtNoWrap(t, t.step + 1, (t.step + 1) * t.interval);
  }

  lemma AtNoWrap(t: State, s: uint32, p: nat)
    requires p == s * t.interval && p < U32
    ensures At(t, s).nextms == t.startms + p
  {
  }

  /** A catch-up call moves to the smallest grid point after `now` and reports the intervals gone by;
      any other call sleeps until the firing time and moves one interval past it.  Either way the
      next firing time is in the future. */
  lemma CallEffect(t: State, now: uint64)
    requires OnGrid(t) && InBound(t, now)
    ensures var (u, cadd, slept) := Call(t, now);
            && u.nextms > now
            && u.step == t.step + (if now >= t.nextms then cadd else 1)
            && (now >= t.nextms ==> u.nextms - t.interval <= now && cadd == Passes(t, now) && slept == 0)
            && (now < t.nextms ==> u.nextms == t.nextms + t.interval && cadd == 0 && now + slept == t.nextms)
  {
    hide NextFire, Passes, FirstAfter, OnGrid;
    if now >= t.nextms {
      CatchUpPoint(t, now);
    } else {
      SleepPoint(t);
    }
  }

  lemma FirstAfterFacts(t: State, now: uint64)
    requires OnGrid(t) && now >= t.nextms && t.interval > 0
    ensures var k := FirstAfter(t.startms, t.interval, now);
            && t.step < k
            && k <= k * t.interval
            && t.startms + (k - 1) * t.interval <= now < t.startms + k * t.interval
            && k - t.step == Passes(t, now)
  {
    GridFacts(now - t.startms, t.interval, t.step, t.step * t.interval);
  }

  lemma GridFacts(d: nat, i: nat, s: nat, si: nat)
    requires i > 0 && si == s * i && si <= d
    ensures s < d / i + 1 <= (d / i + 1) * i
    ensures (d / i) * i <= d < (d / i + 1) * i
    ensures d / i + 1 - s == (d - si) / i + 1
  {
    DivBounds(d, i);
    MulLess(s, d / i + 1, i);
    MulMono(1, i, d / i + 1);
    SubTimes(d / i, s, i);
    DivUnique(d - si, i, d / i - s);
  }

  /** Up to the first grid point after `now` no product wraps, and no earlier point is after `now`. */
  lemma NoWrap(t: State, now: uint64, s: nat)
    requires OnGrid(t) && now >= t.nextms && InBound(t, now)
    requires s <= FirstAfter(t.startms, t.interval, now)
    ensures s < U32
    ensures At(t, s).nextms == t.startms + s * t.interval
    ensures s < FirstAfter(t.startms, t.interval, now) <==> At(t, s).nextms <= now
  {
    FirstAfterFacts(t, now);
    var k := FirstAfter(t.startms, t.interval, now);
    MulMono(s, k, t.interval);
    if s < k { MulMono(s, k - 1, t.interval); }
    assert 0 <= s * t.interval by { MulMono(0, s, t.interval); }
  }

  /** What one call does in any state, wrapped product or not: a catch-up call makes the passes of the
      loop until the firing time is past `now`; any other call sleeps and makes one. */
  ghost predicate Effect(t: State, now: uint64, u: State, cadd: nat, slept: nat) {
    if now >= t.nextms then
      StopsAfter(t, now, cadd) && u == AdvanceN(t, cadd) && slept == 0
    else
      u == Advance(t) && cadd == 0 && slept == t.nextms - now
  }

  class MsTimer {
    var startms: startTime
    var step: uint32
    var interval: uint32
    var nextms: uint64

    function Value(): State
      reads this
    {
      State(startms, step, interval, nextms)
    }

    /** `init_msTimer`. */
    constructor (now: startTime, msInterval: uint32)
      ensures Value() == State(now, 1, msInterval, now + msInterval)
      ensures OnGrid(Value()) && Consistent(Value())
    {
      startms, step, interval := now, 1, msInterval;
      nextms := NextFire(now, 1, msInterval);
    }

    /** `timer_sleep` called when the clock reads `now`; `slept` is the sleep it asks for.  All that is
        required is that the catch-up loop ends at all. */
    method TimerSleep(now: uint64) returns (cadd: nat, slept: nat)
      requires now >= nextms ==> Ends(Value(), now)
      modifies this
      ensures Effect(old(Value()), now, Value(), cadd, slept)
      ensures OnGrid(old(Value())) && InBound(old(Value()), now) ==> (Value(), cadd, slept) == Call(old(Value()), now)
    {
      hide NextFire, FirstAfter, Passes, OnGrid, InBound;
      ghost var t := Value();
      cadd, slept := 0, 0;
      if now >= nextms {
        ghost var n: nat :| AdvanceN(t, n).nextms > now;
        while nextms <= now
          invariant cadd <= n && Value() == AdvanceN(t, cadd)
          invariant forall m: nat :: m < cadd ==> AdvanceN(t, m).nextms <= now
          decreases n - cadd
        {
          cadd := cadd + 1;
          step := Wrap(step + 1);
          nextms := NextFire(startms, step, interval);
        }
      } else {
        slept := nextms - now;
        step := Wrap(step + 1);
        nextms := NextFire(startms, step, interval);
      }
      if OnGrid(t) && InBound(t, now) {
        EffectIsCall(t, now, Value(), cadd, slept);
      }
    }
  }

  /** Inside the bound the effect is the one described above. */
  lemma EffectIsCall(t: State, now: uint64, u: State, cadd: nat, slept: nat)
    requires OnGrid(t) && InBound(t, now) && Effect(t, now, u, cadd, slept)
    ensures (u, cadd, slept) == Call(t, now)
  {
    hide Call, OnGrid, InBound, StopsAfter, Advance, AdvanceN;
    if now >= t.nextms {
      CatchUpIsCall(t, now, cadd);
    } else {
      SleepIsCall(t, now);
    }
  }

  lemma SleepIsCall(t: State, now: uint64)
    requires OnGrid(t) && InBound(t, now) && now < t.nextms
    ensures (Advance(t), 0, t.nextms - now) == Call(t, now)
  {
    assert t.step + 1 < U32 && Wrap(t.step + 1) == t.step + 1;
    hide NextFire, OnGrid, Wrap, InBound;
  }

  lemma CatchUpIsCall(t: State, now: uint64, cadd: nat)
    requires OnGrid(t) && InBound(t, now) && now >= t.nextms && StopsAfter(t, now, cadd)
    ensures (AdvanceN(t, cadd), cadd, 0) == Call(t, now)
  {
    hide NextFire, FirstAfter, Passes, OnGrid, InBound, StopsAfter, AdvanceN;
    CatchUpPoint(t, now);
    StopsInBound(t, now);
    StopsOnce(t, now, cadd, Passes(t, now));
    PassInBound(t, now, Passes(t, now));
  }

  lemma StopsOnce(t: State, now: uint64, n: nat, k: nat)
    requires StopsAfter(t, now, n) && StopsAfter(t, now, k)
    ensures n == k
  {
  }

  // ----- runs: no drift ------------------------------------------------------------------------

  predicate RunInBound(t: State, nows: seq<uint64>)
    requires OnGrid(t)
    decreases |nows|
  {
    nows == [] || (InBound(t, nows[0]) && RunInBound(Call(t, nows[0]).0, nows[1..]))
  }

  /** The state after calls made at the given clock readings, which need not increase. */
  function RunState(t: State, nows: seq<uint64>): State
    requires OnGrid(t) && RunInBound(t, nows)
    decreases |nows|
  {
    if nows == [] then t else RunState(Call(t, nows[0]).0, nows[1..])
  }

  /** Sum of all counts returned by catch-up calls. */
  function CaughtUp(t: State, nows: seq<uint64>): nat
    requires OnGrid(t) && RunInBound(t, nows)
    decreases |nows|
  {
    if nows == [] then 0 else
      var r := Call(t, nows[0]);
      r.1 + CaughtUp(r.0, nows[1..])
  }

  /** Number of calls that slept. */
  function Sleeps(t: State, nows: seq<uint64>): nat
    requires OnGrid(t) && RunInBound(t, nows)
    decreases |nows|
  {
    if nows == [] then 0 else
      (if nows[0] < t.nextms then 1 else 0) + Sleeps(Call(t, nows[0]).0, nows[1..])
  }

  /** Over any run every elapsed interval is accounted for once, either by a sleep or in a returned
      count, and the next firing time never leaves the grid laid down at the start. */
  lemma {:induction false} NoDrift(t: State, nows: seq<uint64>)
    requires OnGrid(t) && RunInBound(t, nows)
    ensures var u := RunState(t, nows);
            && u.startms == t.startms && u.interval == t.interval
            && u.nextms == t.startms + u.step * t.interval
            && u.step - t.step == CaughtUp(t, nows) + Sleeps(t, nows)
    decreases |nows|
  {
    if nows != [] {
      CallEffect(t, nows[0]);
      NoDrift(Call(t, nows[0]).0, nows[1..]);
    }
  }

  /** A catch-up call forgets the past: two timers with the same start and interval, driven by any
      two histories of calls, are in the same state after a catch-up call at the same time. */
  lemma HistoryIndependent(t: State, u: State, past: seq<uint64>, other: seq<uint64>, now: uint64)
    requires OnGrid(t) && OnGrid(u) && t.startms == u.startms && t.interval == u.interval
    requires RunInBound(t, past) && RunInBound(u, other)
    requires RunState(t, past).nextms <= now && RunState(u, other).nextms <= now
    requires OnGrid(RunState(t, past)) && InBound(RunState(t, past), now)
    requires OnGrid(RunState(u, other)) && InBound(RunState(u, other), now)
    ensures Call(RunState(t, past), now).0 == Call(RunState(u, other), now).0
  {
    NoDrift(t, past);
    NoDrift(u, other);
    CatchUpForgets(RunState(t, past), RunState(u, other), now);
  }

  lemma CatchUpForgets(t: State, u: State, now: uint64)
    requires OnGrid(t) && OnGrid(u) && t.startms == u.startms && t.interval == u.interval
    requires t.nextms <= now && u.nextms <= now && InBound(t, now) && InBound(u, now)
    ensures Call(t, now).0 == Call(u, now).0
  {
    NoWrap(t, now, FirstAfter(t.startms, t.interval, now));
  }

  /** The count fits the `int` it is returned in for every interval of at least 2 ms; for 1 ms exactly
      when the call is less than 2^31 - 1 ms late. */
  lemma CountFitsInt(t: State, now: uint64)
    requires OnGrid(t) && InBound(t, now)
    ensures Call(t, now).1 < 0x8000_0000 <==> t.interval != 1 || now < t.nextms || now - t.nextms < 0x7FFF_FFFF
  {
    hide NextFire, OnGrid, InBound, FirstAfter, Passes;
    if now >= t.nextms {
      CatchUpPoint(t, now);
      if t.interval == 1 { PassesOfOne(t, now); } else { PassesOfMore(t, now); }
    }
  }

  lemma PassesOfOne(t: State, now: uint64)
    requires t.interval == 1 && now >= t.nextms
    ensures Passes(t, now) == now - t.nextms + 1
  {
  }

  lemma PassesOfMore(t: State, now: uint64)
    requires OnGrid(t) && InBound(t, now) && t.interval >= 2 && now >= t.nextms
    ensures FirstAfter(t.startms, t.interval, now) < 0x8000_0000
  {
    MulMono(2, t.interval, FirstAfter(t.startms, t.interval, now));
    hide OnGrid, FirstAfter;
  }

  // ----- every state of a timer ----------------------------------------------------------------

  lemma AdvanceConsistent(t: State, n: nat)
    requires Consistent(t)
    ensures var u := AdvanceN(t, n); Consistent(u) && u.startms == t.startms && u.interval == t.interval
  {
    AdvanceNClosed(t, n);
    hide NextFire, AdvanceN;
  }

  /** Any call keeps the firing time consistent with the step, also one whose product wraps. */
  lemma KeepsConsistent(t: State, now: uint64, u: State, cadd: nat, slept: nat)
    requires Consistent(t) && Effect(t, now, u, cadd, slept)
    ensures Consistent(u) && u.startms == t.startms && u.interval == t.interval
  {
    AdvanceConsistent(t, cadd);
    AdvanceConsistent(t, 1);
    assert AdvanceN(t, 1) == Advance(t) by { assert AdvanceN(t, 0) == t; }
    hide NextFire, Advance, AdvanceN, StopsAfter, Consistent;
  }

  ghost predicate Called(t: State, now: uint64, u: State) {
    exists cadd: nat, slept: nat :: Effect(t, now, u, cadd, slept)
  }

  /** A history of a timer: it starts at step 1 and changes only by calls, at any times. */
  ghost predicate History(states: seq<State>, nows: seq<uint64>) {
    && |states| == |nows| + 1
    && states[0] == At(states[0], 1)
    && forall i :: 0 <= i < |nows| ==> Called(states[i], nows[i], states[i + 1])
  }

  /** The theorems about consistent states are about every state a timer can be in. */
  lemma {:induction false} AlwaysConsistent(states: seq<State>, nows: seq<uint64>, i: nat)
    requires History(states, nows) && i < |states|
    ensures Consistent(states[i])
  {
    if i > 0 {
      AlwaysConsistent(states, nows, i - 1);
      assert Called(states[i - 1], nows[i - 1], states[i]);
      var cadd: nat, slept: nat :| Effect(states[i - 1], nows[i - 1], states[i], cadd, slept);
      KeepsConsistent(states[i - 1], nows[i - 1], states[i], cadd, slept);
    }
  }

  /** A sleeping call moves one interval on exactly inside the bound; outside it the product wraps and
      the firing time goes back. */
  lemma SleepExact(t: State, now: uint64)
    requires OnGrid(t) && now < t.nextms && t.interval >= 1
    ensures InBound(t, now) <==> Advance(t).nextms == t.nextms + t.interval
    ensures !InBound(t, now) ==> Advance(t).nextms < t.nextms
  {
    OnGridConsistent(t);
    SleepFires(t);
    hide Wrap, Advance, Consistent;
    NextProduct(t.step, t.interval);
    WrapOnce(t.nextms - t.startms, t.interval);
  }

  lemma SleepFires(t: State)
    requires Consistent(t)
    ensures t.nextms >= t.startms
    ensures Advance(t).nextms == t.startms + Wrap(t.nextms - t.startms + t.interval)
  {
    assert AdvanceN(t, 1) == Advance(t) by { assert AdvanceN(t, 0) == t; }
    hide *;
    Fires(t, 1);
  }

  lemma WrapOnce(a: uint32, b: uint32)
    ensures Wrap(a + b) == if a + b < U32 then a + b else a + b - U32
  {
  }

  lemma NextProduct(s: uint32, i: uint32)
    requires i >= 1 && s * i < U32
    ensures (s + 1) * i == s * i + i && 1 * i == i && s * i >= s
    ensures (s + 1) * i < U32 ==> s + 1 < U32
  {
    AddTimes(s, 1, i);
    MulMono(1, i, s);
  }

  /** So a timer that only ever sleeps leaves its grid by itself: with an interval of 500 ms this call,
      made 49.7 days after the start, puts the next firing time 204 ms after the start. */
  lemma SleepLeavesGrid(now: uint64)
    requires now < 4294967000
    ensures var t, u := State(0, 8589934, 500, 4294967000), State(0, 8589935, 500, 204);
            OnGrid(t) && Effect(t, now, u, 0, t.nextms - now) && Consistent(u) && !OnGrid(u)
  {
  }

  // ----- the catch-up loop in every state ------------------------------------------------------

  /** It ends there on the first grid point after `now`. */
  ghost predicate StopsAtFirstAfter(t: State, now: uint64, n: nat) {
    && t.interval > 0 && now >= t.startms
    && StopsAfter(t, now, n)
    && AdvanceN(t, n).nextms == t.startms + FirstAfter(t.startms, t.interval, now) * t.interval
  }

  lemma {:induction false} AdvanceNClosed(t: State, n: nat)
    requires Consistent(t)
    ensures AdvanceN(t, n) == At(t, Wrap(t.step + n))
  {
    hide NextFire;
    if n > 0 {
      AdvanceNClosed(t, n - 1);
      StepMod(t.step + n - 1);
    }
  }

  lemma StepMod(a: nat)
    ensures Wrap(Wrap(a) + 1) == Wrap(a + 1)
  {
  }

  lemma WrapSum(a: nat, b: nat)
    ensures Wrap(Wrap(a) + b) == Wrap(a + b)
  {
  }

  lemma WrapTimes(a: nat, b: nat)
    ensures Wrap(a) * b >= 0 && a * b >= 0 && Wrap(Wrap(a) * b) == Wrap(a * b)
  {
    var q := a / U32;
    DivBounds(a, U32);
    AddTimes(q * U32, Wrap(a), b);
    assert (q * U32) * b == (q * b) * U32;
    WrapMultiple(Wrap(a) * b, q * b);
  }

  lemma WrapMultiple(a: nat, k: nat)
    ensures Wrap(a + k * U32) == Wrap(a)
  {
  }

  /** The firing time after `n` passes: the old one and `n` intervals, up to a wrap past the start. */
  lemma Fires(t: State, n: nat)
    requires Consistent(t)
    ensures t.nextms >= t.startms && n * t.interval >= 0
    ensures AdvanceN(t, n).nextms == t.startms + Wrap(t.nextms - t.startms + n * t.interval)
  {
    AdvanceNClosed(t, n);
    FireProduct(t.step, n, t.interval);
    hide Wrap, AdvanceN;
  }

  lemma FireProduct(s: nat, n: nat, i: nat)
    ensures s * i >= 0 && n * i >= 0 && Wrap(s + n) * i >= 0
    ensures Wrap(Wrap(s + n) * i) == Wrap(Wrap(s * i) + n * i)
  {
    WrapTimes(s + n, i);
    AddTimes(s, n, i);
    MulMono(0, s, i);
    MulMono(0, n, i);
    WrapSum(s * i, n * i);
    hide Wrap;
  }

  /** Inside the bound, pass `m` stands at step + m, and the guard holds until the first grid point. */
  lemma PassInBound(t: State, now: uint64, m: nat)
    requires OnGrid(t) && now >= t.nextms && InBound(t, now)
    requires m <= FirstAfter(t.startms, t.interval, now) - t.step
    ensures t.step + m < U32 && AdvanceN(t, m) == At(t, t.step + m)
  {
    hide NextFire, AdvanceN;
    OnGridConsistent(t);
    NoWrap(t, now, t.step + m);
    AdvanceNClosed(t, m);
    hide FirstAfter, InBound, OnGrid;
  }

  /** While the products on the way do not wrap, the loop ends on the first point after `now` of the
      grid through the old firing time. */
  lemma CatchUpLands(t: State, now: uint64)
    requires Consistent(t) && now >= t.nextms && t.interval >= 1
    requires t.nextms - t.startms + Passes(t, now) * t.interval < U32
    ensures StopsAfter(t, now, Passes(t, now))
    ensures AdvanceN(t, Passes(t, now)).nextms == t.nextms + Passes(t, now) * t.interval
  {
    var p, d := Passes(t, now), now - t.nextms;
    forall m: nat | m < p
      ensures AdvanceN(t, m).nextms <= now
    {
      PassProduct(d, t.interval, m);
      PassProduct(d, t.interval, p);
      LandsAt(t, m);
    }
    PassProduct(d, t.interval, p);
    LandsAt(t, p);
    hide AdvanceN, NextFire, Consistent, Passes;
  }

  lemma LandsAt(t: State, m: nat)
    requires Consistent(t) && t.nextms >= t.startms && m * t.interval >= 0 && t.nextms - t.startms + m * t.interval < U32
    ensures AdvanceN(t, m).nextms == t.nextms + m * t.interval
  {
    hide AdvanceN, Consistent;
    Fires(t, m);
  }

  lemma PassProduct(d: nat, i: nat, m: nat)
    requires i > 0 && m <= d / i + 1
    ensures 0 <= m * i <= (d / i + 1) * i <= d + i
    ensures if m <= d / i then m * i <= d else m * i > d
  {
    DivBounds(d, i);
    AddTimes(d / i, 1, i);
    MulMono(0, m, i);
    MulMono(m, d / i + 1, i);
    if m <= d / i { MulMono(m, d / i, i); }
  }

  /** The firing time is a whole number of intervals past the start. */
  predicate Aligned(t: State)
    requires t.interval > 0
  {
    t.nextms >= t.startms && (t.nextms - t.startms) % t.interval == 0
  }

  lemma AlignedPasses(t: State, now: uint64)
    requires t.interval > 0 && now >= t.nextms && Aligned(t)
    ensures t.nextms - t.startms + Passes(t, now) * t.interval == FirstAfter(t.startms, t.interval, now) * t.interval
  {
    var d := t.nextms - t.startms;
    var c := WholeQuotient(d, t.interval);
    var q, k := FloorOf(now - t.nextms, t.interval), FloorOf(now - t.startms, t.interval);
    hide FloorOf;
    ShiftedQuotient(d, now - t.startms, t.interval, c, q, k);
  }

  function FloorOf(a: nat, i: nat): (q: nat)
    requires i > 0
    ensures q == a / i && q * i <= a < q * i + i
  {
    DivBounds(a, i);
    a / i
  }

  lemma WholeQuotient(d: nat, i: nat) returns (c: nat)
    requires i > 0 && d % i == 0
    ensures d == c * i
  {
    c := d / i;
  }

  lemma ShiftedQuotient(d: nat, e: nat, i: nat, c: nat, q: nat, k: nat)
    requires i > 0 && d == c * i && d <= e
    requires k * i <= e < k * i + i && q * i <= e - d < q * i + i
    ensures d + (q + 1) * i == (k + 1) * i
  {
    AddTimes(q, c, i);
    AddTimes(k, 1, i);
    AddTimes(q + c, 1, i);
    MulLess(k, q + c + 1, i);
    MulLess(q + c, k + 1, i);
    AddTimes(q + 1, c, i);
  }

  /** In every state whose firing time is on the grid the loop ends on the first grid point after `now`
      exactly when that point's 32-bit product does not wrap; it then took `Passes` passes. */
  lemma CatchUpExact(t: State, now: uint64)
    requires Consistent(t) && now >= t.nextms && t.interval >= 1 && Aligned(t)
    ensures InBound(t, now) <==> exists n: nat :: StopsAtFirstAfter(t, now, n)
    ensures InBound(t, now) ==> StopsAtFirstAfter(t, now, Passes(t, now))
  {
    hide NextFire, FirstAfter, Passes, AdvanceN, StopsAfter, Consistent, Aligned, InBound;
    if InBound(t, now) {
      StopsAligned(t, now);
    }
    forall n: nat | StopsAtFirstAfter(t, now, n)
      ensures InBound(t, now)
    {
      FiresBelowWrap(t, n);
      InBoundFromPoint(t, now);
    }
  }

  lemma StopsAligned(t: State, now: uint64)
    requires Consistent(t) && now >= t.nextms && t.interval >= 1 && Aligned(t) && InBound(t, now)
    ensures StopsAtFirstAfter(t, now, Passes(t, now))
  {
    hide NextFire, FirstAfter, Passes, AdvanceN, StopsAfter, Consistent;
    AlignedPasses(t, now);
    CatchUpLands(t, now);
  }

  lemma InBoundFromPoint(t: State, now: uint64)
    requires now >= t.nextms && t.interval >= 1 && now >= t.startms
    requires FirstAfter(t.startms, t.interval, now) * t.interval < U32
    ensures InBound(t, now)
  {
  }

  /** A timer that has left its grid does not come back to it: while the delay is below 2^32 less the
      interval, the loop ends on the shifted grid, and on the first true grid point exactly when the old
      firing time was a true grid point. */
  lemma CatchUpShifted(t: State, now: uint64)
    requires Consistent(t) && now >= t.nextms && t.interval >= 1
    requires now - t.startms < U32 - t.interval
    ensures t.nextms >= t.startms && StopsAfter(t, now, Passes(t, now))
    ensures AdvanceN(t, Passes(t, now)).nextms == t.nextms + Passes(t, now) * t.interval
    ensures (exists n: nat :: StopsAtFirstAfter(t, now, n)) <==> Aligned(t)
  {
    Fires(t, 0);
    var p, k := Passes(t, now), FirstAfter(t.startms, t.interval, now);
    DivBounds(now - t.nextms, t.interval);
    AddTimes((now - t.nextms) / t.interval, 1, t.interval);
    CatchUpLands(t, now);
    if Aligned(t) {
      AlignedPasses(t, now);
      assert StopsAtFirstAfter(t, now, p);
    }
    forall n: nat | StopsAtFirstAfter(t, now, n)
      ensures Aligned(t)
    {
      StopsOnce(t, now, n, p);
      DifferenceIsMultiple(t.nextms - t.startms, p, k, t.interval);
    }
  }

  lemma DifferenceIsMultiple(d: nat, p: nat, k: nat, i: nat)
    requires i > 0 && d + p * i == k * i
    ensures d % i == 0
  {
    SubTimes(k, p, i);
    MulMono(p, k, i);
    DivModUnique(d, i, k - p, 0);
  }

  /** Whatever the loop does, the firing time stays less than 2^32 past the start. */
  lemma FiresBelowWrap(t: State, n: nat)
    requires Consistent(t)
    ensures AdvanceN(t, n).nextms < t.startms + U32
  {
    AdvanceNClosed(t, n);
  }

  lemma StopsInBound(t: State, now: uint64)
    requires OnGrid(t) && now >= t.nextms && t.interval >= 1 && InBound(t, now)
    ensures StopsAtFirstAfter(t, now, Passes(t, now))
  {
    OnGridConsistent(t);
    DivModUnique(t.nextms - t.startms, t.interval, t.step, 0);
    CatchUpExact(t, now);
  }

  // ----- histories under a clock that does not go back -----------------------------------------

  /** The earliest reading after a call made at `now`: a sleep lasts at least as long as asked. */
  function ClockAfter(t: State, now: uint64): uint64 {
    if now < t.nextms then t.nextms else now
  }

  /** A history in which no reading is before the end of the call before it. */
  ghost predicate Steady(states: seq<State>, nows: seq<uint64>) {
    && History(states, nows)
    && forall i :: 0 < i < |nows| ==> ClockAfter(states[i - 1], nows[i - 1]) <= nows[i]
  }

  /** No product that does not wrap reaches a grid point after `clock`. */
  predicate Spent(t: State, clock: uint64) {
    t.interval > 0 && clock >= t.startms && FirstAfter(t.startms, t.interval, clock) * t.interval >= U32
  }

  /** What every state of such a history is: on its grid, or past the last product. */
  ghost predicate OnGridOrSpent(t: State, clock: uint64) {
    OnGrid(t) || Spent(t, clock)
  }

  lemma StaysSpent(t: State, clock: uint64, later: uint64)
    requires Spent(t, clock) && clock <= later
    ensures Spent(t, later) && (later >= t.nextms ==> !InBound(t, later))
  {
    DivMono(clock - t.startms, later - t.startms, t.interval);
    MulMono(FirstAfter(t.startms, t.interval, clock), FirstAfter(t.startms, t.interval, later), t.interval);
  }

  lemma DivMono(a: nat, b: nat, c: nat)
    requires c > 0 && a <= b
    ensures a / c <= b / c
  {
    DivBounds(a, c);
    DivBounds(b, c);
    AddTimes(b / c, 1, c);
    MulLess(a / c, b / c + 1, c);
  }

  /** A call outside the bound spends the timer. */
  lemma LeavingSpends(t: State, now: uint64)
    requires OnGrid(t) && t.interval >= 1 && !InBound(t, now)
    ensures Spent(t, ClockAfter(t, now))
  {
    if now < t.nextms {
      NextProduct(t.step, t.interval);
      DivModUnique(t.nextms - t.startms, t.interval, t.step, 0);
    }
  }

  lemma SpentStep(t: State, now: uint64, u: State, cadd: nat, slept: nat)
    requires Consistent(t) && t.interval >= 1 && Effect(t, now, u, cadd, slept) && OnGridOrSpent(t, now)
    ensures u.interval == t.interval && OnGridOrSpent(u, ClockAfter(t, now))
  {
    hide OnGrid, InBound, Spent, Consistent, Advance, AdvanceN, StopsAfter;
    KeepsConsistent(t, now, u, cadd, slept);
    if OnGrid(t) && InBound(t, now) {
      EffectIsCall(t, now, u, cadd, slept);
    } else {
      if OnGrid(t) { LeavingSpends(t, now); } else { StaysSpent(t, now, ClockAfter(t, now)); }
      SpentIsShared(t, u, ClockAfter(t, now));
    }
  }

  lemma SpentIsShared(t: State, u: State, clock: uint64)
    requires Spent(t, clock) && u.startms == t.startms && u.interval == t.interval
    ensures Spent(u, clock)
  {
  }

  lemma {:induction false} AlwaysOnGridOrSpent(states: seq<State>, nows: seq<uint64>, i: nat)
    requires Steady(states, nows) && i < |nows| && states[0].interval >= 1
    ensures Consistent(states[i]) && states[i].interval == states[0].interval && OnGridOrSpent(states[i], nows[i])
  {
    AlwaysConsistent(states, nows, i);
    if i == 0 {
      StartsOnGrid(states[0]);
    } else {
      AlwaysOnGridOrSpent(states, nows, i - 1);
      var t, now := states[i - 1], nows[i - 1];
      assert Called(t, now, states[i]);
      var cadd: nat, slept: nat :| Effect(t, now, states[i], cadd, slept);
      SpentStep(t, now, states[i], cadd, slept);
      if !OnGrid(states[i]) { StaysSpent(states[i], ClockAfter(t, now), nows[i]); }
    }
  }

  lemma StartsOnGrid(t: State)
    requires t == At(t, 1)
    ensures OnGrid(t)
  {
    assert 1 * t.interval == t.interval;
  }

  /** In every such history a catch-up call ends on the first grid point after its reading if and only if
      that point's product does not wrap; outside the bound it ends off the grid, if it ends at all. */
  lemma CatchUpInHistory(states: seq<State>, nows: seq<uint64>, i: nat)
    requires Steady(states, nows) && i < |nows| && states[0].interval >= 1 && nows[i] >= states[i].nextms
    ensures (exists n: nat :: StopsAtFirstAfter(states[i], nows[i], n)) <==> InBound(states[i], nows[i])
    ensures !InBound(states[i], nows[i]) ==>
              forall n: nat :: StopsAfter(states[i], nows[i], n) ==> !OnGridPoint(AdvanceN(states[i], n))
  {
    var t, now := states[i], nows[i];
    AlwaysOnGridOrSpent(states, nows, i);
    hide History, OnGrid, AdvanceN, StopsAfter, Consistent;
    if OnGrid(t) {
      OnGridAligned(t);
      CatchUpExact(t, now);
    } else {
      StaysSpent(t, now, now);
    }
    if !InBound(t, now) {
      forall n: nat | StopsAfter(t, now, n)
        ensures !OnGridPoint(AdvanceN(t, n)) && !StopsAtFirstAfter(t, now, n)
      {
        EndsOffGrid(t, now, n);
      }
    }
  }

  lemma OnGridAligned(t: State)
    requires OnGrid(t) && t.interval > 0
    ensures Aligned(t)
  {
    DivModUnique(t.nextms - t.startms, t.interval, t.step, 0);
  }

  predicate OnGridPoint(t: State) {
    t.interval > 0 && Aligned(t)
  }

  /** Outside the bound a catch-up call from any reachable state cannot end on a grid point: the points
      after `now` are out of the product's reach. */
  lemma EndsOffGrid(t: State, now: uint64, n: nat)
    requires Consistent(t) && now >= t.nextms && t.interval >= 1 && !InBound(t, now) && StopsAfter(t, now, n)
    ensures !OnGridPoint(AdvanceN(t, n)) && !StopsAtFirstAfter(t, now, n)
  {
    Fires(t, 0);
    FiresBelowWrap(t, n);
    AdvanceConsistent(t, n);
    var u := AdvanceN(t, n);
    hide AdvanceN, Consistent;
    if OnGridPoint(u) {
      PointAfter(u.nextms - t.startms, now - t.startms, t.interval);
    }
  }

  /** A multiple above `d` is not below the first one. */
  lemma PointAfter(f: nat, d: nat, i: nat)
    requires i > 0 && f > d && f % i == 0
    ensures (d / i + 1) * i <= f
  {
    var c := WholeQuotient(f, i);
    DivBounds(d, i);
    MulLess(d / i, c, i);
    MulMono(d / i + 1, c, i);
  }

  /** With an interval that is a power of two a spent timer's loop does not end at all. */
  lemma SpentPowerOfTwo(t: State, now: uint64)
    requires Consistent(t) && now >= t.nextms && Spent(t, now) && TwoPart(t.interval) == t.interval
    ensures !Ends(t, now)
  {
    CatchUpTerminates(t, now);
    PowerDivides(t.interval);
    LastPoint(now - t.startms, t.interval);
    hide TwoPart, Ends;
  }

  lemma PowerDivides(i: uint32)
    requires i > 0 && TwoPart(i) == i
    ensures U32 % i == 0
  {
    var p, q, odd, m := Split32(i);
    hide TwoPart;
    DivModUnique(U32, i, q, 0);
  }

  lemma LastPoint(d: nat, i: uint32)
    requires i > 0 && U32 % i == 0 && (d / i + 1) * i >= U32
    ensures d >= U32 - i
  {
    var c := WholeQuotient(U32, i);
    DivBounds(d, i);
    AddTimes(d / i, 1, i);
  }

  /** A sleep cut short is enough to break this: after one such call, with an interval of 3000000 s, a
      catch-up inside the bound ends off the grid. */
  lemma CutShort()
    ensures var t, u := State(0, 1, 3000000000, 3000000000), State(0, 2, 3000000000, 1705032704);
            && t == At(t, 1) && Effect(t, 0, u, 0, 3000000000) && InBound(u, 1705032704)
            && StopsAfter(u, 1705032704, 2) && !StopsAtFirstAfter(u, 1705032704, 2)
  {
    var u := State(0, 2, 3000000000, 1705032704);
    assert AdvanceN(u, 0) == u;
    assert AdvanceN(u, 1) == State(0, 3, 3000000000, 410065408);
    assert AdvanceN(u, 2) == State(0, 4, 3000000000, 3410065408);
  }

  /** The largest power of two dividing a positive interval. */
  function TwoPart(interval: nat): (p: nat)
    requires interval > 0
    ensures 0 < p <= interval
  {
    if interval % 2 == 1 then 1 else 2 * TwoPart(interval / 2)
  }

  function Pow2(m: nat): (p: nat)
    ensures p > 0
  {
    if m == 0 then 1 else 2 * Pow2(m - 1)
  }

  lemma {:induction false} TwoPartSplit(interval: nat) returns (v: nat, odd: nat)
    requires interval > 0
    ensures TwoPart(interval) == Pow2(v) && interval == Pow2(v) * odd && odd % 2 == 1
  {
    if interval % 2 == 1 {
      v, odd := 0, interval;
    } else {
      v, odd := TwoPartSplit(interval / 2);
      v := v + 1;
    }
  }

  lemma {:induction false} Pow2Add(a: nat, b: nat)
    ensures Pow2(a + b) == Pow2(a) * Pow2(b)
  {
    if a > 0 { Pow2Add(a - 1, b); }
  }

  /** An odd number reaches every residue modulo a power of two, in particular -1. */
  lemma {:induction false} OddReachesMinusOne(odd: nat, m: nat) returns (j: nat, e: nat)
    requires odd % 2 == 1
    ensures j < Pow2(m) && j * odd == e * Pow2(m) - 1 && e > 0
  {
    if m == 0 {
      j, e := 0, 1;
    } else {
      var j0, e0 := OddReachesMinusOne(odd, m - 1);
      j, e := LiftResidue(odd, Pow2(m - 1), j0, e0);
    }
  }

  lemma LiftResidue(odd: nat, h: nat, j0: nat, e0: nat) returns (j: nat, e: nat)
    requires odd % 2 == 1 && j0 < h && j0 * odd == e0 * h - 1 && e0 > 0
    ensures j < 2 * h && j * odd == e * (2 * h) - 1 && e > 0
  {
    if e0 % 2 == 0 {
      j, e := j0, e0 / 2;
      Twice(e, h);
    } else {
      j, e := j0 + h, (e0 + odd) / 2;
      Twice(e, h);
      AddBoth(j0, e0, h, odd);
    }
  }

  lemma AddBoth(j0: nat, e0: nat, h: nat, odd: nat)
    ensures (j0 + h) * odd - (e0 + odd) * h == j0 * odd - e0 * h
  {
    AddTimes(j0, h, odd);
    AddTimes(e0, odd, h);
  }

  lemma Twice(e: nat, h: nat)
    ensures e * (2 * h) == (2 * e) * h
  {
  }

  lemma Pow2Values()
    ensures Pow2(32) == U32
  {
    assert Pow2(8) == 256;
    Pow2Add(8, 8);
    Pow2Add(16, 16);
  }

  lemma {:induction false} Pow2Monotone(a: nat, b: nat)
    requires a <= b
    ensures Pow2(a) <= Pow2(b)
  {
    if a < b { Pow2Monotone(a, b - 1); }
  }

  /** The powers of two in play: the interval's own part `p` and the 2^32 / p residues above it. */
  lemma Split32(interval: uint32) returns (p: nat, q: nat, odd: nat, m: nat)
    requires interval > 0
    ensures p == TwoPart(interval) && interval == p * odd && odd % 2 == 1
    ensures q == Pow2(m) <= U32 && p > 0 && p * q == U32
  {
    var v, o := TwoPartSplit(interval);
    Pow2Values();
    if v > 32 { Pow2Monotone(33, v); }
    Pow2Add(v, 32 - v);
    Pow2Monotone(32 - v, 32);
    p, q, odd, m := Pow2(v), Pow2(32 - v), o, 32 - v;
  }

  /** Every product is a multiple of `p`, so at most 2^32 - p. */
  lemma ProductAtMost(s: uint32, interval: uint32)
    requires interval > 0
    ensures Wrap(s * interval) <= U32 - TwoPart(interval)
  {
    var p, q, odd, m := Split32(interval);
    MulAssoc(s, p, odd);
    ModOfMultiple(s * odd, p, q);
    MulMono((s * odd) % q, q - 1, p);
    SubTimes(q, 1, p);
  }

  /** Some step reaches 2^32 - p. */
  lemma ProductReaches(interval: uint32) returns (j: uint32)
    requires interval > 0
    ensures Wrap(j * interval) == U32 - TwoPart(interval)
  {
    var p, q, odd, m := Split32(interval);
    var j0, e := OddReachesMinusOne(odd, m);
    j := j0;
    MulAssoc(j, p, odd);
    ModOfMultiple(j * odd, p, q);
    MinusOneMod(e, q);
    SubTimes(q, 1, p);
  }

  lemma MinusOneMod(e: nat, q: nat)
    requires e > 0 && q > 0
    ensures e * q - 1 >= 0 && (e * q - 1) % q == q - 1
  {
    SubTimes(e, 1, q);
    assert q * (e - 1) == e * q - q;
    MulMono(1, e, q);
    DivModUnique(e * q - 1, q, e - 1, q - 1);
  }

  /** Exactly when the catch-up loop ends at all.  The 32-bit product takes only multiples of the
      interval's power-of-two part and takes all of them, so the loop ends if and only if the delay
      is below the largest of those.  From 2^32 ms (49.7 days) after the start it never ends. */
  lemma CatchUpTerminates(t: State, now: uint64)
    requires Consistent(t) && now >= t.nextms && t.interval >= 1
    ensures Ends(t, now) <==> now - t.startms < U32 - TwoPart(t.interval)
    ensures now - t.startms >= U32 ==> !Ends(t, now)
  {
    hide NextFire, TwoPart, Consistent, AdvanceN;
    forall n: nat
      ensures AdvanceN(t, n).nextms <= t.startms + U32 - TwoPart(t.interval)
    {
      FiresAtMost(t, n);
    }
    var n := FiresAt(t);
  }

  lemma FiresAtMost(t: State, n: nat)
    requires Consistent(t) && t.interval > 0
    ensures AdvanceN(t, n).nextms <= t.startms + U32 - TwoPart(t.interval)
  {
    hide TwoPart;
    AdvanceNClosed(t, n);
    ProductAtMost(Wrap(t.step + n), t.interval);
  }

  lemma FiresAt(t: State) returns (n: nat)
    requires Consistent(t) && t.interval > 0
    ensures AdvanceN(t, n).nextms == t.startms + U32 - TwoPart(t.interval)
  {
    hide TwoPart, AdvanceN;
    var j := ProductReaches(t.interval);
    n := StepReaches(t, j);
  }

  /** The 32-bit step comes round to every value. */
  lemma StepReaches(t: State, j: uint32) returns (n: nat)
    requires Consistent(t)
    ensures AdvanceN(t, n) == At(t, j)
  {
    hide *;
    n := WrapReaches(t.step, j);
    AdvanceNClosed(t, n);
  }

  lemma WrapReaches(s: uint32, j: uint32) returns (n: nat)
    ensures Wrap(s + n) == j
  {
    n := if j >= s then j - s else j + U32 - s;
  }

  /** A zero interval never gets past its start. */
  lemma ZeroIntervalNeverEnds(t: State, now: uint64, n: nat)
    requires Consistent(t) && now >= t.nextms && t.interval == 0
    ensures AdvanceN(t, n).nextms <= now
  {
    AdvanceNClosed(t, n);
  }

  // ----- the clock and the sleep request -------------------------------------------------------

  /** `now_ms`: seconds and nanoseconds to milliseconds, rounding half up. */
  function NowMs(sec: nat, nsec: nat): nat
    requires nsec < 1_000_000_000
  {
    sec * 1000 + (nsec + 500_000) / 1_000_000
  }

  /** The reading is the nearest millisecond, also where it carries into the next second, and
      never goes back when the clock does not. */
  lemma NowMsNearest(sec: nat, nsec: nat, sec': nat, nsec': nat)
    requires nsec < 1_000_000_000 && nsec' < 1_000_000_000
    ensures var t := sec * 1_000_000_000 + nsec;
            t - 500_000 < NowMs(sec, nsec) * 1_000_000 <= t + 500_000
    ensures sec * 1_000_000_000 + nsec <= sec' * 1_000_000_000 + nsec' ==> NowMs(sec, nsec) <= NowMs(sec', nsec')
  {
  }

  /** `sleep_ms`: the `timeval` handed to select, with C's truncating operators (`ms` is positive at
      the only call). */
  function SleepRequest(ms: nat): (int, int) {
    (ms / 1000, (ms % 1000) * 1000)
  }

  /** A sleeping call asks for a well-formed interval that ends exactly at the firing time. */
  lemma SleepEndsOnTime(t: State, now: uint64)
    requires OnGrid(t) && InBound(t, now) && now < t.nextms
    ensures var (sec, usec) := SleepRequest(Call(t, now).2);
            && 0 <= usec < 1_000_000
            && now * 1000 + sec * 1_000_000 + usec == t.nextms * 1000
  {
  }
}
