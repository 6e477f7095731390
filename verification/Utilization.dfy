/** CPU and memory utilization over successive windows (variorum_get_utilization_json in variorum.c).

    Every call compares the counters of /proc/stat with those the previous call left in globals.
    Counters are 64-bit and their differences wrap around; percentages are taken over the reals.
 */
module Utilization {
  import opened CText
  import opened Options
  import opened ProcFiles

  /** Subtraction of two 64-bit words. */
  function Minus(a: U64Word, b: U64Word): U64Word {
    if b <= a then a - b else a - b + U64
  }

  // ----- one call ------------------------------------------------------------------------------

  /** A percentage; a window of length 0 has none, as the division by 0 gives no number. */
  datatype Util = NoNumber | Percent(value: real)

  function Share(part: U64Word, whole: U64Word): Util {
    if whole == 0 then NoNumber else Percent(part as real / whole as real * 100.0)
  }

  function Rest(part: U64Word, whole: U64Word): Util {
    if whole == 0 then NoNumber else Percent((1.0 - part as real / whole as real) * 100.0)
  }

  datatype Report = Report(total: Util, user: Util, system: Util, memory: Util)

  /** What a call meets: the two checks of the library around it and the two files, absent when they
      cannot be opened. */
  datatype Input = Input(entered: bool, line: Option<string>, mem: Option<string>, exited: bool)

  /** The globals: the counters last read, and whether a call has already succeeded. */
  datatype State = State(last: Counters, started: bool)

  /** The report for the window from `last` to `c`. */
  function Window(last: Counters, c: Counters, mem: Mem): Report {
    var whole := Minus(c.sum, last.sum);
    Report(Rest(Minus(c.idle, last.idle), whole), Share(Minus(c.user, last.user), whole),
           Share(Minus(c.system, last.system), whole), Rest(mem.free, mem.total))
  }

  const ZEROS := Report(Percent(0.0), Percent(0.0), Percent(0.0), Percent(0.0))

  /** The counters kept of a line. */
  function Reading(line: string): Counters {
    Read(Fields(Cut(line)))
  }

  /** The memory figures of a call that has read a line. */
  function Memory(line: string, info: string): Mem {
    MemOf(MemLines(info), |Fields(Cut(line))|)
  }

  /** What a call delivers, if it delivers anything. */
  function Delivered(s: State, x: Input): Option<Report> {
    if !x.entered || x.line.None? || x.mem.None? then None
    else if s.started then Some(Window(s.last, Reading(x.line.value), Memory(x.line.value, x.mem.value)))
    else Some(ZEROS)
  }

  /** The globals after a call: the counters are kept as soon as they have been read. */
  function Next(s: State, x: Input): State {
    if !x.entered || x.line.None? then s
    else State(Reading(x.line.value), s.started || x.mem.Some?)
  }

  class Monitor {
    var lastSum: U64Word
    var lastUser: U64Word
    var lastSys: U64Word
    var lastIdle: U64Word
    var state: bool

    constructor ()
      ensures Globals() == State(Counters(0, 0, 0, 0), false)
    {
      lastSum, lastUser, lastSys, lastIdle, state := 0, 0, 0, 0, false;
    }

    function Globals(): State
      reads this
    {
      State(Counters(lastSum, lastUser, lastSys, lastIdle), state)
    }

    /** variorum_get_utilization_json. */
    method GetUtilization(x: Input) returns (err: int, report: Option<Report>)
      modifies this
      ensures Globals() == Next(old(Globals()), x)
      ensures report == Delivered(old(Globals()), x)
      ensures err == if report.Some? && x.exited then 0 else -1
    {
      if !x.entered { return -1, None; }
      if x.line.None? { return -1, None; }
      var c, i := ReadLine(x.line.value);
      var total, user, sys := Percent(0.0), Percent(0.0), Percent(0.0);
      if state {
        var whole := Minus(c.sum, lastSum);
        user := Share(Minus(c.user, lastUser), whole);
        sys := Share(Minus(c.system, lastSys), whole);
        total := Rest(Minus(c.idle, lastIdle), whole);
      }
      lastUser, lastSum, lastSys, lastIdle := c.user, c.sum, c.system, c.idle;
      if x.mem.None? { return -1, None; }
      var m := ReadMem(x.mem.value, i);
      var memory := if state then Rest(m.free, m.total) else Percent(0.0);
      report := Some(Report(total, user, sys, memory));
      state := true;
      err := if x.exited then 0 else -1;
    }
  }

  // ----- the shares of one window --------------------------------------------------------------

  /** Every number of the line has grown or stayed. */
  predicate Monotone(f: seq<U64Word>, g: seq<U64Word>) {
    |f| == |g| && forall i :: 0 <= i < |f| ==> f[i] <= g[i]
  }

  /** The sum of the first `n` numbers. */
  function Lead(f: seq<U64Word>, n: nat): nat {
    if n == 0 || f == [] then 0 else f[0] + Lead(f[1..], n - 1)
  }

  lemma {:induction false} LeadGrowth(f: seq<U64Word>, g: seq<U64Word>, n: nat)
    requires Monotone(f, g)
    ensures Lead(g, n) - Lead(f, n) <= Sum(g) - Sum(f)
    decreases |f|
  {
    if f != [] { LeadGrowth(f[1..], g[1..], if n == 0 then 0 else n - 1); }
  }

  /** The five numbers a report names. */
  function Named(f: seq<U64Word>): nat {
    Field(f, 0) + Field(f, 1) + Field(f, 2) + Field(f, 3) + Field(f, 4)
  }

  lemma LeadFive(f: seq<U64Word>)
    ensures Lead(f, 5) == Named(f)
  {
    LeadLast(f, 0);
    LeadLast(f, 1);
    LeadLast(f, 2);
    LeadLast(f, 3);
    LeadLast(f, 4);
    hide Lead;
  }

  lemma {:induction false} LeadLast(f: seq<U64Word>, n: nat)
    ensures Lead(f, 0) == 0 && Lead(f, n + 1) == Lead(f, n) + Field(f, n)
    decreases |f|
  {
    if f != [] && n > 0 { LeadLast(f[1..], n - 1); }
  }

  /** What the five contribute to the growth of the sum. */
  lemma NamedGrowth(f: seq<U64Word>, g: seq<U64Word>)
    requires Monotone(f, g)
    ensures Named(g) - Named(f) <= Sum(g) - Sum(f)
  {
    LeadFive(f);
    LeadFive(g);
    LeadGrowth(f, g, 5);
  }

  /** `u` is `part` out of `whole`, in per cent. */
  predicate IsShare(u: Util, part: int, whole: int) {
    u.Percent? && u.value * whole as real == 100.0 * part as real
  }

  /** What the `i`th number of the line has gained. */
  function Gain(f: seq<U64Word>, g: seq<U64Word>, i: nat): int
    requires i < |f| && i < |g|
  {
    g[i] as int - f[i] as int
  }

  /** What a report says of two readings of the line: in per cent of the growth of the sum of all
      numbers, user is the growth of the first two, system that of the third, and the total what the
      fourth and the fifth leave.  The memory figure is what the free part leaves of the total. */
  predicate Shows(r: Report, f: seq<U64Word>, g: seq<U64Word>, mem: Mem)
    requires 5 <= |f| && 5 <= |g|
  {
    var growth := Sum(g) - Sum(f);
    && IsShare(r.user, Gain(f, g, 0) + Gain(f, g, 1), growth)
    && IsShare(r.system, Gain(f, g, 2), growth)
    && IsShare(r.total, growth - Gain(f, g, 3) - Gain(f, g, 4), growth)
    && (if mem.total == 0 then r.memory == NoNumber else IsShare(r.memory, mem.total - mem.free, mem.total))
  }

  lemma ShareIs(part: U64Word, whole: U64Word)
    requires whole > 0
    ensures IsShare(Share(part, whole), part, whole) && IsShare(Rest(part, whole), whole - part, whole)
  {
    var share := part as real / whole as real;
    assert share * whole as real == part as real;
    assert share * 100.0 * whole as real == 100.0 * (share * whole as real);
    assert (1.0 - share) * 100.0 * whole as real == 100.0 * (whole as real - share * whole as real);
  }

  /** Whatever has wrapped around before, a window shows the shares of what the line's numbers gained. */
  lemma WindowShows(f: seq<U64Word>, g: seq<U64Word>, mem: Mem)
    requires Monotone(f, g) && 5 <= |f| && 0 < Sum(g) - Sum(f) < 0x1_0000_0000_0000_0000
    ensures Shows(Window(Read(f), Read(g), mem), f, g, mem)
  {
    hide Window, Read, Minus, Share, Rest, IsShare, Sum, Monotone, Gain;
    var last, c := Read(f), Read(g);
    var whole := Minus(c.sum, last.sum);
    WindowParts(f, g);
    FiveParts(f, g);
    WindowIs(last, c, mem);
    ShareIs(Minus(c.idle, last.idle), whole);
    ShareIs(Minus(c.user, last.user), whole);
    ShareIs(Minus(c.system, last.system), whole);
    if mem.total > 0 { ShareIs(mem.free, mem.total); }
  }

  lemma WindowIs(last: Counters, c: Counters, mem: Mem)
    ensures var r, whole := Window(last, c, mem), Minus(c.sum, last.sum);
            && r.total == Rest(Minus(c.idle, last.idle), whole)
            && r.user == Share(Minus(c.user, last.user), whole)
            && r.system == Share(Minus(c.system, last.system), whole)
            && r.memory == Rest(mem.free, mem.total) && (mem.total == 0 ==> r.memory == NoNumber)
  {
  }

  lemma FiveParts(f: seq<U64Word>, g: seq<U64Word>)
    requires Monotone(f, g) && 5 <= |f| && 0 < Sum(g) - Sum(f) < U64
    ensures var last, c := Read(f), Read(g);
            && Minus(c.user, last.user) == Gain(f, g, 0) + Gain(f, g, 1)
            && Minus(c.system, last.system) == Gain(f, g, 2)
            && Minus(c.idle, last.idle) == Gain(f, g, 3) + Gain(f, g, 4)
  {
    NamedGrowth(f, g);
    hide Sum, Plus;
    MinusPairs(f[0], f[1], g[0], g[1]);
    MinusPairs(f[3], f[4], g[3], g[4]);
  }

  /** Numbers a line does not have count as 0. */
  lemma MissingAreZero(f: seq<U64Word>)
    requires |f| < 5
    ensures Read(f + [0]) == Read(f)
  {
    assert (f + [0])[..|f|] == f && (f + [0])[..|f| + 1] == f + [0];
    SumSplit(f + [0], |f|);
    hide Sum;
  }

  /** A call after one that succeeded, on files as the kernel prints them: it shows the shares of what
      the numbers printed gained, and the memory figures printed under their names. */
  lemma ReportFromText(s: State, f: seq<U64Word>, g: seq<U64Word>, entries: seq<Entry>, t: nat, u: nat)
    requires Printed(f) && Printed(g)
    requires Monotone(f, g) && 5 <= |f| && 0 < Sum(g) - Sum(f) < 0x1_0000_0000_0000_0000
    requires LastNamed(entries, t, "MemTotal") && LastNamed(entries, u, "MemFree")
    ensures var info := InfoText(entries);
            var first := Input(true, Some(StatLine(f)), Some(info), true);
            var second := Input(true, Some(StatLine(g)), Some(info), true);
            var r := Delivered(Next(s, first), second);
            r.Some? && Shows(r.value, f, g, Mem(entries[t].value, entries[u].value))
  {
    PrintedRead(f);
    PrintedRead(g);
    FiguresRead(entries, |g|, t, u);
    hide *;
    var mem := Mem(entries[t].value, entries[u].value);
    SecondCall(s, f, g, InfoText(entries), mem);
    WindowShows(f, g, mem);
  }

  /** The numbers of a line that the buffer holds and the scanner does not saturate. */
  predicate Printed(f: seq<U64Word>) {
    f != [] && (forall v :: v in f ==> v < I64) && |StatLine(f)| <= 100
  }

  lemma PrintedRead(f: seq<U64Word>)
    requires Printed(f)
    ensures Fields(Cut(StatLine(f))) == f
  {
    LineReadExactly(f);
  }

  lemma SecondCall(s: State, f: seq<U64Word>, g: seq<U64Word>, info: string, mem: Mem)
    requires Fields(Cut(StatLine(f))) == f && Fields(Cut(StatLine(g))) == g && MemOf(MemLines(info), |g|) == mem
    ensures Delivered(Next(s, Input(true, Some(StatLine(f)), Some(info), true)),
                      Input(true, Some(StatLine(g)), Some(info), true))
            == Some(Window(Read(f), Read(g), mem))
  {
    hide Window, Read, Fields, Cut, StatLine, MemOf, MemLines;
  }

  /** With counters that do not go back and a sum that grows by less than 2^64, whatever has wrapped
      around before, a window's shares are percentages and user and system together are at most the
      total. */
  lemma WindowBounds(f: seq<U64Word>, g: seq<U64Word>, mem: Mem)
    requires Monotone(f, g) && 0 < Sum(g) - Sum(f) < 0x1_0000_0000_0000_0000
    ensures var r := Window(Read(f), Read(g), mem);
            && r.total.Percent? && r.user.Percent? && r.system.Percent?
            && 0.0 <= r.user.value && 0.0 <= r.system.value
            && r.user.value + r.system.value <= r.total.value <= 100.0
  {
    WindowParts(f, g);
    var last, c := Read(f), Read(g);
    SharesFit(Minus(c.idle, last.idle) as real, Minus(c.user, last.user) as real,
              Minus(c.system, last.system) as real, Minus(c.sum, last.sum) as real);
    hide Read, Minus;
  }

  lemma WindowParts(f: seq<U64Word>, g: seq<U64Word>)
    requires Monotone(f, g) && 0 < Sum(g) - Sum(f) < U64
    ensures var last, c := Read(f), Read(g);
            && Minus(c.sum, last.sum) == Sum(g) - Sum(f) > 0
            && Minus(c.idle, last.idle) + Minus(c.user, last.user) + Minus(c.system, last.system) <= Sum(g) - Sum(f)
  {
    NamedGrowth(f, g);
    FieldsGrow(f, g);
    SumNotNegative(f);
    SumNotNegative(g);
    MinusWrapped(Sum(f), Sum(g));
    MinusPairs(Field(f, 0), Field(f, 1), Field(g, 0), Field(g, 1));
    MinusPairs(Field(f, 3), Field(f, 4), Field(g, 3), Field(g, 4));
    hide Monotone, Field, Sum, Plus;
  }

  lemma {:induction false} SumNotNegative(f: seq<U64Word>)
    ensures Sum(f) >= 0
  {
    if f != [] { SumNotNegative(f[1..]); }
  }

  /** The difference of two wrapped numbers is their true difference while that is below 2^64. */
  lemma MinusWrapped(a: nat, b: nat)
    requires 0 <= b - a < U64
    ensures Minus(b % U64, a % U64) == b - a
  {
  }

  lemma MinusPairs(a: U64Word, b: U64Word, c: U64Word, d: U64Word)
    requires a <= c && b <= d && c + d - a - b < U64
    ensures Minus(Plus(c, d), Plus(a, b)) == c + d - a - b
  {
  }

  lemma FieldsGrow(f: seq<U64Word>, g: seq<U64Word>)
    requires Monotone(f, g)
    ensures forall i: nat :: Field(f, i) <= Field(g, i)
  {
  }

  lemma SharesFit(idle: real, user: real, sys: real, whole: real)
    requires 0.0 <= idle && 0.0 <= user && 0.0 <= sys && 0.0 < whole && idle + user + sys <= whole
    ensures 0.0 <= user / whole * 100.0 && 0.0 <= sys / whole * 100.0
    ensures user / whole * 100.0 + sys / whole * 100.0 <= (1.0 - idle / whole) * 100.0 <= 100.0
  {
    var i, u, s := idle / whole, user / whole, sys / whole;
    assert i * whole == idle && u * whole == user && s * whole == sys;
    CancelFactor(0.0, i, whole);
    CancelFactor(0.0, u, whole);
    CancelFactor(0.0, s, whole);
    assert (i + u + s) * whole == i * whole + u * whole + s * whole;
    CancelFactor(i + u + s, 1.0, whole);
  }

  lemma CancelFactor(a: real, b: real, c: real)
    requires 0.0 < c && a * c <= b * c
    ensures a <= b
  {
    if b < a { PositiveProduct(a - b, c); }
  }

  lemma PositiveProduct(a: real, b: real)
    requires 0.0 < a && 0.0 < b
    ensures 0.0 < a * b
  {
  }

  /** Whatever the counters do, the total never exceeds 100; it is negative exactly when the idle
      counters, as 64-bit words, moved further than the sum. */
  lemma TotalRange(last: Counters, c: Counters, mem: Mem)
    requires c.sum != last.sum
    ensures var total := Window(last, c, mem).total;
            && total.Percent? && total.value <= 100.0
            && (0.0 <= total.value <==> Minus(c.idle, last.idle) <= Minus(c.sum, last.sum))
  {
    ShareRange(Minus(c.idle, last.idle) as real, Minus(c.sum, last.sum) as real);
  }

  lemma ShareRange(part: real, whole: real)
    requires 0.0 <= part && 0.0 < whole
    ensures (1.0 - part / whole) * 100.0 <= 100.0
    ensures 0.0 <= (1.0 - part / whole) * 100.0 <==> part <= whole
  {
    var share := part / whole;
    assert share * whole == part;
    assert 1.0 * whole == whole;
    CancelFactor(0.0, share, whole);
    if part <= whole {
      CancelFactor(share, 1.0, whole);
    } else {
      LargerShare(share, whole);
    }
  }

  lemma LargerShare(share: real, whole: real)
    requires 0.0 < whole < share * whole
    ensures 1.0 < share
  {
  }

  /** The kernel's iowait may go back.  One tick of iowait lost while two are gained elsewhere makes the
      total hugely negative. */
  lemma IowaitGoesBack()
    ensures var total := Window(Read([10, 0, 0, 10, 1]), Read([12, 0, 0, 10, 0]), Mem(1, 1)).total;
            total.Percent? && total.value < -1000000.0
  {
    var f: seq<U64Word>, g: seq<U64Word> := [10, 0, 0, 10, 1], [12, 0, 0, 10, 0];
    assert Sum(f) == 21 && Sum(g) == 22 by {
      assert f[1..] == [0, 0, 10, 1] && g[1..] == [0, 0, 10, 0];
      assert f[1..][1..] == [0, 10, 1] && g[1..][1..] == [0, 10, 0];
      assert f[1..][1..][1..] == [10, 1] && g[1..][1..][1..] == [10, 0];
      assert f[1..][1..][1..][1..] == [1] && g[1..][1..][1..][1..] == [0];
    }
  }

  // ----- runs ----------------------------------------------------------------------------------

  function RunFrom(s: State, xs: seq<Input>): State
    decreases |xs|
  {
    if xs == [] then s else RunFrom(Next(s, xs[0]), xs[1..])
  }

  /** The call reads counters. */
  predicate Reads(x: Input) {
    x.entered && x.line.Some?
  }

  /** Whenever counters are read, their sum is larger than at the previous reading. */
  predicate SumGrows(s: State, xs: seq<Input>)
    decreases |xs|
  {
    xs != [] ==> (Reads(xs[0]) ==> s.last.sum < Reading(xs[0].line.value).sum) && SumGrows(Next(s, xs[0]), xs[1..])
  }

  /** The three utilizations of a report. */
  datatype Part = Total | User | System

  function UtilOf(r: Report, p: Part): Util {
    match p
    case Total => r.total
    case User => r.user
    case System => r.system
  }

  /** The ticks spent up to a reading: busy, in user mode, in system mode. */
  function Ticks(c: Counters, p: Part): int {
    match p
    case Total => c.sum - c.idle
    case User => c.user
    case System => c.system
  }

  /** The counter behind a utilization went back. */
  predicate WentBack(last: Counters, c: Counters, p: Part) {
    match p
    case Total => c.idle < last.idle
    case User => c.user < last.user
    case System => c.system < last.system
  }

  /** What a wrap-around of its counter adds to a utilization's ticks. */
  function WrapTicks(p: Part): int {
    if p == Total then -0x1_0000_0000_0000_0000 else 0x1_0000_0000_0000_0000
  }

  /** A report of a real window, not of the zeros before the first success. */
  predicate Reports(s: State, x: Input) {
    s.started && Delivered(s, x).Some?
  }

  /** A utilization weighted by the length of its window. */
  function Weighted(u: Util, length: int): real {
    match u
    case Percent(value) => value * length as real
    case NoNumber => 0.0
  }

  /** What a call's report contributes to a run. */
  function Weight(s: State, x: Input, p: Part): real {
    if Reports(s, x)
    then Weighted(UtilOf(Delivered(s, x).value, p), Reading(x.line.value).sum - s.last.sum)
    else 0.0
  }

  function Reported(s: State, xs: seq<Input>, p: Part): real
    decreases |xs|
  {
    if xs == [] then 0.0 else Weight(s, xs[0], p) + Reported(Next(s, xs[0]), xs[1..], p)
  }

  /** The ticks of a window that was read but not reported: the call failed afterwards, or no call had
      succeeded yet. */
  function MissedBy(s: State, x: Input, p: Part): int {
    if Reads(x) && !Reports(s, x) then Ticks(Reading(x.line.value), p) - Ticks(s.last, p) else 0
  }

  function Missed(s: State, xs: seq<Input>, p: Part): int
    decreases |xs|
  {
    if xs == [] then 0 else MissedBy(s, xs[0], p) + Missed(Next(s, xs[0]), xs[1..], p)
  }

  /** A reported window over which the utilization's counter went back. */
  function DropsAt(s: State, x: Input, p: Part): nat {
    if Reports(s, x) && WentBack(s.last, Reading(x.line.value), p) then 1 else 0
  }

  function Drops(s: State, xs: seq<Input>, p: Part): nat
    decreases |xs|
  {
    if xs == [] then 0 else DropsAt(s, xs[0], p) + Drops(Next(s, xs[0]), xs[1..], p)
  }

  /** Conservation over any run, with failing calls anywhere, for each of the three utilizations: what
      was reported, weighted by window length, and the missed windows add up to the ticks between the
      first and the last reading, but for one wrap-around for each drop of the counter. */
  lemma {:induction false} WindowsConserved(s: State, xs: seq<Input>, p: Part)
    requires SumGrows(s, xs)
    ensures Reported(s, xs, p) + 100.0 * Missed(s, xs, p) as real
            == 100.0 * (Ticks(RunFrom(s, xs).last, p) - Ticks(s.last, p) + WrapTicks(p) * Drops(s, xs, p)) as real
    decreases |xs|
  {
    if xs != [] {
      WindowConserved(s, xs[0], p);
      Distributes(WrapTicks(p), DropsAt(s, xs[0], p), Drops(Next(s, xs[0]), xs[1..], p));
      hide Weight, MissedBy, DropsAt, Next, Reads, Reading, Ticks, WrapTicks;
      WindowsConserved(Next(s, xs[0]), xs[1..], p);
    }
  }

  lemma Distributes(a: int, b: int, c: int)
    ensures a * (b + c) == a * b + a * c
  {
  }

  lemma WindowConserved(s: State, x: Input, p: Part)
    requires Reads(x) ==> s.last.sum < Reading(x.line.value).sum
    ensures Weight(s, x, p) + 100.0 * MissedBy(s, x, p) as real
            == 100.0 * (Ticks(Next(s, x).last, p) - Ticks(s.last, p) + WrapTicks(p) * DropsAt(s, x, p)) as real
  {
    hide Window, Reading, Memory, Weighted, UtilOf, Ticks, WrapTicks, WentBack;
    assert WrapTicks(p) * 0 == 0 && WrapTicks(p) * 1 == WrapTicks(p);
    if Reports(s, x) {
      WindowWeight(s.last, Reading(x.line.value), Memory(x.line.value, x.mem.value), p);
    }
  }

  lemma WindowWeight(last: Counters, c: Counters, mem: Mem, p: Part)
    requires last.sum < c.sum
    ensures Weighted(UtilOf(Window(last, c, mem), p), c.sum - last.sum)
            == 100.0 * (Ticks(c, p) - Ticks(last, p) + if WentBack(last, c, p) then WrapTicks(p) else 0) as real
  {
    var whole := Minus(c.sum, last.sum);
    assert whole == c.sum - last.sum;
    ShareWeight(Minus(c.idle, last.idle), whole);
    ShareWeight(Minus(c.user, last.user), whole);
    ShareWeight(Minus(c.system, last.system), whole);
    WindowIs(last, c, mem);
    hide Share, Rest, Weighted, Window;
  }

  lemma ShareWeight(part: U64Word, whole: U64Word)
    requires whole > 0
    ensures Weighted(Share(part, whole), whole) == 100.0 * part as real
    ensures Weighted(Rest(part, whole), whole) == 100.0 * (whole - part) as real
  {
    ShareIs(part, whole);
  }

  /** The call gets its two files and so delivers a report. */
  predicate Delivers(x: Input) {
    x.entered && x.line.Some? && x.mem.Some?
  }

  /** Of all calls since the monitor was new, the first that delivers shows four zeros; every later one
      that delivers shows the window since the last reading, whether or not that reading was reported. */
  lemma {:induction false} ZerosOnce(s: State, xs: seq<Input>, x: Input)
    requires !s.started && Delivers(x)
    ensures var now := RunFrom(s, xs);
            if forall y :: y in xs ==> !Delivers(y)
            then Delivered(now, x) == Some(Report(Percent(0.0), Percent(0.0), Percent(0.0), Percent(0.0)))
            else Delivered(now, x) == Some(Window(now.last, Reading(x.line.value), Memory(x.line.value, x.mem.value)))
  {
    StartedExactly(s, xs);
    hide RunFrom, Window, Reading, Memory;
  }

  lemma {:induction false} StartedExactly(s: State, xs: seq<Input>)
    ensures RunFrom(s, xs).started <==> s.started || exists x :: x in xs && Delivers(x)
    decreases |xs|
  {
    if xs != [] {
      var rest := xs[1..];
      hide Reading;
      StartedExactly(Next(s, xs[0]), rest);
      assert xs[0] in xs && forall x :: x in rest ==> x in xs;
      assert forall x :: x in xs ==> x == xs[0] || x in rest;
    }
  }

  /** Every call of the run succeeds. */
  predicate AllDeliver(xs: seq<Input>) {
    forall x :: x in xs ==> Delivers(x)
  }

  lemma {:induction false} NothingMissed(s: State, xs: seq<Input>, p: Part)
    requires s.started && AllDeliver(xs)
    ensures Missed(s, xs, p) == 0
    decreases |xs|
  {
    if xs != [] {
      assert xs[0] in xs;
      NothingMissed(Next(s, xs[0]), xs[1..], p);
    }
  }

  lemma {:induction false} SumHasGrown(s: State, xs: seq<Input>)
    requires SumGrows(s, xs) && AllDeliver(xs)
    ensures s.last.sum + |xs| <= RunFrom(s, xs).last.sum
    decreases |xs|
  {
    if xs != [] {
      assert xs[0] in xs;
      hide Read;
      SumHasGrown(Next(s, xs[0]), xs[1..]);
    }
  }

  /** Over a run of successful calls the reported values of a utilization, weighted by window length,
      equal the one computed once over the whole span, weighted by its length, exactly when its counter
      dropped no more often than the span shows. */
  lemma Telescopes(s: State, xs: seq<Input>, mem: Mem, p: Part)
    requires s.started && SumGrows(s, xs) && AllDeliver(xs) && xs != []
    ensures var c := RunFrom(s, xs).last;
            Reported(s, xs, p) == Weighted(UtilOf(Window(s.last, c, mem), p), c.sum - s.last.sum)
            <==> Drops(s, xs, p) == if WentBack(s.last, c, p) then 1 else 0
  {
    hide Window, Reading, Memory, Weighted, UtilOf, Ticks, WentBack;
    var c := RunFrom(s, xs).last;
    WindowsConserved(s, xs, p);
    NothingMissed(s, xs, p);
    SumHasGrown(s, xs);
    WindowWeight(s.last, c, mem, p);
    hide RunFrom, Reported, Missed, Drops, SumGrows, AllDeliver;
  }
}
