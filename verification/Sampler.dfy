/** The energy sampler of Power9.c: a detached thread that accumulates power under a mutex, started
    and stopped by alternate calls of the energy functions.

    Calls are made by one thread at a time.  A run is any interleaving of the caller's and the
    sampler's atomic steps in which a stopped sampler has exited before the next start.
 */
module Sampler {
  import opened Options

  const U64: nat := 0x1_0000_0000_0000_0000
  const INTERVAL: nat := 250

  type uint64 = x: int | 0 <= x < 0x1_0000_0000_0000_0000

  datatype Holder = Free | ByCaller | BySampler

  /** The next step of the energy call in progress. */
  datatype CallerPc =
    | Idle
    | StartZero    // active_sampling is 1; interval and accumulator are set next
    | StartCreate  // the mutex is initialised and the thread created next
    | StopLock     // active_sampling is 0; the mutex is locked next
    | StopReport
    | StopUnlock

  /** The next step of the sampler thread. */
  datatype SamplerPc =
    | Absent       // not created yet, or exited
    | Opening      // opens the sensor file
    | Check        // back from timer_sleep, tests active_sampling
    | WantLock
    | Measure      // holds the mutex, reads the block
    | Commit(sample: uint64)
    | Unlock

  /** What a stop call reported, and the samples committed since the last start at that moment. */
  datatype Report = Report(energy: uint64, samples: seq<uint64>)

  /** `active`, `acc` and `holder` are the shared variables.  `samples` records what was committed
      since the last start, `atStop` how many of those came before the last stop. */
  datatype State = State(
    active: bool, acc: uint64, holder: Holder, caller: CallerPc, sampler: SamplerPc,
    samples: seq<uint64>, atStop: nat, reports: seq<Report>)

  const INIT := State(false, 0, Free, Idle, Absent, [], 0, [])

  datatype Action =
    | CallerStep
    | SamplerStep
    | OpenFails            // the sampler cannot open the sensor file
    | Sample(v: uint64)    // take_measurement returns v

  predicate Enabled(s: State, a: Action) {
    match a
    case CallerStep =>
      && (s.caller.Idle? && !s.active ==> s.sampler.Absent?)
      && (s.caller.StopLock? ==> s.holder.Free?)
    case SamplerStep =>
      && !s.sampler.Absent? && !s.sampler.Measure?
      && (s.sampler.WantLock? ==> s.holder.Free?)
    case OpenFails => s.sampler.Opening?
    case Sample(v) => s.sampler.Measure?
  }

  function CallerDo(s: State): State {
    match s.caller
    case Idle =>
      if !s.active then s.(active := true, caller := StartZero)
      else s.(active := false, atStop := |s.samples|, caller := StopLock)
    case StartZero => s.(acc := 0, samples := [], atStop := 0, caller := StartCreate)
    case StartCreate => s.(holder := Free, sampler := Opening, caller := Idle)
    case StopLock => s.(holder := ByCaller, caller := StopReport)
    case StopReport => s.(reports := s.reports + [Report(s.acc, s.samples)], caller := StopUnlock)
    case StopUnlock => s.(holder := Free, caller := Idle)
  }

  function SamplerDo(s: State): State {
    match s.sampler
    case Opening => s.(sampler := Check)
    case Check => s.(sampler := if s.active then WantLock else Absent)
    case WantLock => s.(holder := BySampler, sampler := Measure)
    case Commit(v) => s.(acc := Add(s.acc, v), samples := s.samples + [v], sampler := Unlock)
    case Unlock => s.(holder := Free, sampler := Check)
    case Absent => s
    case Measure => s
  }

  function Do(s: State, a: Action): State
    requires Enabled(s, a)
  {
    match a
    case CallerStep => CallerDo(s)
    case SamplerStep => SamplerDo(s)
    case OpenFails => s.(sampler := Absent)
    case Sample(v) => s.(sampler := Commit(v))
  }

  function Run(acts: seq<Action>): Option<State> {
    if acts == [] then Some(INIT) else
      var before := Run(acts[..|acts| - 1]);
      if before.Some? && Enabled(before.value, acts[|acts| - 1])
      then Some(Do(before.value, acts[|acts| - 1]))
      else None
  }

  // ----- energy arithmetic ---------------------------------------------------------------------

  /** `energy_acc += sample * interval` in 64-bit arithmetic. */
  function Add(acc: uint64, v: uint64): uint64 {
    (acc + (v * INTERVAL) % U64) % U64
  }

  function Sum(samples: seq<uint64>): nat {
    if samples == [] then 0 else Sum(samples[..|samples| - 1]) + samples[|samples| - 1]
  }

  /** Interval times the sum of the samples, modulo 2^64. */
  function Energy(samples: seq<uint64>): uint64 {
    (INTERVAL * Sum(samples)) % U64
  }

  lemma EnergyAdds(samples: seq<uint64>, v: uint64)
    ensures Energy(samples + [v]) == Add(Energy(samples), v)
  {
    assert (samples + [v])[..|samples + [v]| - 1] == samples;
    AddMod(INTERVAL * Sum(samples), v * INTERVAL);
  }

  lemma AddMod(a: nat, b: nat)
    ensures (a + b) % U64 == (a % U64 + b % U64) % U64
  {
  }

  // ----- the invariant -------------------------------------------------------------------------

  predicate InCriticalSection(p: SamplerPc) {
    p.Measure? || p.Commit? || p.Unlock?
  }

  /** The mutex is held by whoever is between its lock and its unlock. */
  predicate Exclusion(s: State) {
    && (s.holder.BySampler? <==> InCriticalSection(s.sampler))
    && (s.holder.ByCaller? <==> s.caller.StopReport? || s.caller.StopUnlock?)
  }

  predicate Session(s: State) {
    && (s.caller.StartZero? || s.caller.StartCreate? ==> s.active && s.sampler.Absent?)
    && (s.caller.StopLock? || s.caller.StopReport? || s.caller.StopUnlock? ==> !s.active)
    && (s.active && !s.caller.StartZero? ==> s.atStop <= |s.samples|)
  }

  /** After a stop at most one more sample is committed, and none once the sampler has passed it. */
  predicate AtMostOneMore(s: State) {
    !s.active || s.caller.StartZero? ==>
      && s.atStop <= |s.samples| <= s.atStop + 1
      && (|s.samples| == s.atStop + 1 ==> s.sampler.Unlock? || s.sampler.Check? || s.sampler.Absent?)
  }

  /** Every report is the energy of the samples committed when it was made. */
  predicate ReportsOk(s: State) {
    forall r :: 0 <= r < |s.reports| ==> s.reports[r].energy == Energy(s.reports[r].samples)
  }

  predicate Inv(s: State) {
    && s.acc == Energy(s.samples)
    && Exclusion(s) && Session(s) && AtMostOneMore(s) && ReportsOk(s)
  }

  lemma KeepsInv(s: State, a: Action)
    requires Inv(s) && Enabled(s, a)
    ensures Inv(Do(s, a))
  {
    hide Energy, Add;
    if a.SamplerStep? && s.sampler.Commit? {
      EnergyAdds(s.samples, s.sampler.sample);
    }
    NoEnergy();
  }

  lemma NoEnergy()
    ensures Energy([]) == 0
  {
  }

  /** After every run the accumulator is the energy of the samples committed since the last start, and
      every stop call has reported such an energy. */
  lemma {:induction false} Always(acts: seq<Action>)
    requires Run(acts).Some?
    ensures Inv(Run(acts).value)
  {
    hide Inv, Do, Enabled;
    if acts == [] {
      InitInv();
    } else {
      Always(acts[..|acts| - 1]);
      KeepsInv(Run(acts[..|acts| - 1]).value, acts[|acts| - 1]);
    }
  }

  lemma InitInv()
    ensures Inv(INIT)
  {
  }

  // ----- the energy in numbers -----------------------------------------------------------------

  lemma {:induction false} SumOfEqual(samples: seq<uint64>, v: uint64)
    requires forall x :: x in samples ==> x == v
    ensures Sum(samples) == |samples| * v
  {
    if samples != [] {
      var init := samples[..|samples| - 1];
      assert samples[|samples| - 1] in samples && forall x :: x in init ==> x in samples;
      SumOfEqual(init, v);
      assert |samples| * v == (|samples| - 1) * v + v;
    }
  }

  lemma EnergyOfEqual(samples: seq<uint64>, v: uint64)
    requires forall x :: x in samples ==> x == v
    ensures Energy(samples) == (250 * (|samples| * v)) % 0x1_0000_0000_0000_0000
  {
    SumOfEqual(samples, v);
    hide Sum;
  }

  /** Under a constant power of `v` watts: after every run that has committed `n` samples since the last
      start the accumulator is 250 n v modulo 2^64, and so is every report of `n` samples. */
  lemma ConstantPower(acts: seq<Action>, v: uint64)
    requires Run(acts).Some?
    ensures var s := Run(acts).value;
            && ((forall x :: x in s.samples ==> x == v) ==>
                  s.acc == (250 * (|s.samples| * v)) % 0x1_0000_0000_0000_0000)
            && forall r :: r in s.reports && (forall x :: x in r.samples ==> x == v) ==>
                 r.energy == (250 * (|r.samples| * v)) % 0x1_0000_0000_0000_0000
  {
    Always(acts);
    hide Run, Energy, Exclusion, Session, AtMostOneMore;
    var s := Run(acts).value;
    if forall x :: x in s.samples ==> x == v { EnergyOfEqual(s.samples, v); }
    forall r | r in s.reports && (forall x :: x in r.samples ==> x == v)
      ensures r.energy == (250 * (|r.samples| * v)) % 0x1_0000_0000_0000_0000
    {
      EnergyOfEqual(r.samples, v);
    }
  }

  /** Every commit of `v` raises the accumulator by 250 v modulo 2^64, a start clears it, and no other
      step of the caller or the sampler changes it. */
  lemma CommitRaises(acts: seq<Action>, a: Action)
    requires Run(acts).Some? && Enabled(Run(acts).value, a)
    ensures Run(acts + [a]).Some?
    ensures var s, t := Run(acts).value, Run(acts + [a]).value;
            if a.SamplerStep? && s.sampler.Commit?
            then t.acc == (s.acc + 250 * s.sampler.sample) % 0x1_0000_0000_0000_0000
                 && t.samples == s.samples + [s.sampler.sample]
            else if a.CallerStep? && s.caller.StartZero? then t.acc == 0 && t.samples == []
            else t.acc == s.acc && t.samples == s.samples
  {
    assert (acts + [a])[..|acts + [a]| - 1] == acts;
    StepRaises(Run(acts).value, a);
    hide Do, Enabled;
  }

  lemma StepRaises(s: State, a: Action)
    requires Enabled(s, a)
    ensures var t := Do(s, a);
            if a.SamplerStep? && s.sampler.Commit?
            then t.acc == (s.acc + 250 * s.sampler.sample) % 0x1_0000_0000_0000_0000
                 && t.samples == s.samples + [s.sampler.sample]
            else if a.CallerStep? && s.caller.StartZero? then t.acc == 0 && t.samples == []
            else t.acc == s.acc && t.samples == s.samples
  {
    if a.SamplerStep? && s.sampler.Commit? { AddNumbers(s.acc, s.sampler.sample); }
    hide Add;
  }

  lemma AddNumbers(acc: uint64, v: uint64)
    ensures Add(acc, v) == (acc + 250 * v) % 0x1_0000_0000_0000_0000
  {
    AddMod(acc, v * INTERVAL);
  }

  /** A report of one more sample `v` is higher by 250 v modulo 2^64. */
  lemma ReportRaises(acts: seq<Action>, i: nat, j: nat, v: uint64)
    requires Run(acts).Some? && i < |Run(acts).value.reports| && j < |Run(acts).value.reports|
    requires Run(acts).value.reports[j].samples == Run(acts).value.reports[i].samples + [v]
    ensures var r := Run(acts).value.reports; r[j].energy == (r[i].energy + 250 * v) % 0x1_0000_0000_0000_0000
  {
    Always(acts);
    hide Run, Energy, Add;
    var r := Run(acts).value.reports;
    EnergyAdds(r[i].samples, v);
    AddNumbers(r[i].energy, v);
  }

  // ----- a stop and what follows it ------------------------------------------------------------

  /** No call is waiting in vain: while the mutex keeps a stop call out, the sampler can go on. */
  lemma StopIsNotBlocked(acts: seq<Action>)
    requires Run(acts).Some?
    requires var s := Run(acts).value; s.caller.StopLock? && !Enabled(s, CallerStep)
    ensures var s := Run(acts).value; Enabled(s, SamplerStep) || Enabled(s, Sample(0))
  {
    Always(acts);
  }

  /** `more` can happen from `s` and contains no start. */
  predicate NoStart(s: State, more: seq<Action>)
    decreases |more|
  {
    more == [] ||
    (Enabled(s, more[0]) && !(more[0].CallerStep? && s.caller.Idle? && !s.active) && NoStart(Do(s, more[0]), more[1..]))
  }

  function Continue(s: State, more: seq<Action>): State
    requires NoStart(s, more)
    decreases |more|
  {
    if more == [] then s else Continue(Do(s, more[0]), more[1..])
  }

  /** Reports the stop call in progress, or the last one, has made. */
  function Made(c: CallerPc): nat {
    if c.StopLock? || c.StopReport? then 0 else 1
  }

  /** From the moment a stop clears the flag until the next start at most one more sample is
      committed, the samples already committed stay, and the stop makes one report, taken somewhere on
      the way. */
  lemma {:induction false} AfterStop(s: State, more: seq<Action>)
    requires Inv(s) && !s.active && NoStart(s, more)
    ensures var t := Continue(s, more);
            && Inv(t) && !t.active && t.atStop == s.atStop
            && s.samples <= t.samples && |t.samples| <= s.atStop + 1
            && s.reports <= t.reports && |t.reports| + Made(s.caller) == |s.reports| + Made(t.caller)
            && forall r :: |s.reports| <= r < |t.reports| ==>
                 s.samples <= t.reports[r].samples <= t.samples
    decreases |more|
  {
    if more != [] {
      KeepsInv(s, more[0]);
      hide Energy, Add, Inv;
      AfterStopStep(s, more[0]);
      AfterStop(Do(s, more[0]), more[1..]);
      hide Continue, NoStart, Do;
    }
  }

  lemma AfterStopStep(s: State, a: Action)
    requires Inv(s) && !s.active && Enabled(s, a) && !(a.CallerStep? && s.caller.Idle?)
    ensures var t := Do(s, a);
            && !t.active && t.atStop == s.atStop && s.samples <= t.samples
            && |t.reports| + Made(s.caller) == |s.reports| + Made(t.caller)
            && (t.reports == s.reports || t.reports == s.reports + [Report(s.acc, s.samples)])
  {
  }

  /** A stop call made at the end of any run: when it has returned it has reported the energy of the
      samples committed before the call, or of those and the one late sample; and once the sampler has
      exited the accumulator is the energy of one of these two as well. */
  lemma StopReportsPrefix(acts: seq<Action>, more: seq<Action>)
    requires Run(acts).Some? && Run(acts).value.caller.Idle? && Run(acts).value.active
    requires NoStart(Do(Run(acts).value, CallerStep), more)
    ensures var s := Run(acts).value;
            var t := Continue(Do(s, CallerStep), more);
            && s.samples <= t.samples && |t.samples| <= |s.samples| + 1
            && t.acc == Energy(t.samples)
            && (t.caller.Idle? ==>
                  && |t.reports| == |s.reports| + 1
                  && t.reports[|s.reports|].energy in {Energy(s.samples), Energy(t.samples)})
  {
    Always(acts);
    var s := Run(acts).value;
    KeepsInv(s, CallerStep);
    hide Energy, Add, NoStart;
    AfterStop(Do(s, CallerStep), more);
    var t := Continue(Do(s, CallerStep), more);
    if t.caller.Idle? {
      var r := t.reports[|s.reports|];
      assert ReportsOk(t);
      Between(s.samples, r.samples, t.samples);
    }
  }

  lemma Between(a: seq<uint64>, b: seq<uint64>, c: seq<uint64>)
    requires a <= b <= c && |c| <= |a| + 1
    ensures b == a || b == c
  {
    if |b| == |a| { assert b == a; } else { assert b == c; }
  }

  /** A sampler on its way out without another commit. */
  predicate Leaving(p: SamplerPc) {
    p.Unlock? || p.Check? || p.Opening? || p.Absent?
  }

  lemma {:induction false} LeavesQuietly(s: State, more: seq<Action>)
    requires Inv(s) && !s.active && Leaving(s.sampler) && NoStart(s, more)
    ensures Continue(s, more).samples == s.samples
    decreases |more|
  {
    if more != [] {
      KeepsInv(s, more[0]);
      LeavingStep(s, more[0]);
      hide Inv, Do, Leaving;
      LeavesQuietly(Do(s, more[0]), more[1..]);
    }
  }

  lemma LeavingStep(s: State, a: Action)
    requires Inv(s) && !s.active && Leaving(s.sampler) && Enabled(s, a) && !(a.CallerStep? && s.caller.Idle?)
    ensures !Do(s, a).active && Leaving(Do(s, a).sampler) && Do(s, a).samples == s.samples
  {
  }

  /** A sampler that is past its test commits before it exits. */
  lemma {:induction false} CommitsFirst(s: State, more: seq<Action>)
    requires Inv(s) && !s.active && !Leaving(s.sampler) && NoStart(s, more)
    requires Continue(s, more).sampler.Absent?
    ensures |Continue(s, more).samples| == |s.samples| + 1
    decreases |more|
  {
    assert more != [];
    KeepsInv(s, more[0]);
    CommitStep(s, more[0]);
    var t := Do(s, more[0]);
    hide Inv, Do, Leaving;
    if Leaving(t.sampler) {
      LeavesQuietly(t, more[1..]);
    } else {
      CommitsFirst(t, more[1..]);
    }
  }

  lemma CommitStep(s: State, a: Action)
    requires Inv(s) && !s.active && !Leaving(s.sampler) && Enabled(s, a) && !(a.CallerStep? && s.caller.Idle?)
    ensures !Do(s, a).active
    ensures |Do(s, a).samples| == |s.samples| + if Leaving(Do(s, a).sampler) then 1 else 0
  {
  }

  /** Whether a stop misses a sample is decided when it holds the mutex: its report covers everything the
      sampler ever commits if and only if the sampler is not waiting for the mutex at that moment. */
  lemma ReportCompleteExactly(acts: seq<Action>, more: seq<Action>)
    requires Run(acts).Some? && Run(acts).value.caller.StopReport? && NoStart(Run(acts).value, more)
    requires Continue(Run(acts).value, more).sampler.Absent?
    ensures var s, t := Run(acts).value, Continue(Run(acts).value, more);
            && (t.samples == s.samples <==> !s.sampler.WantLock?)
            && (!t.caller.StopReport? ==>
                  |t.reports| == |s.reports| + 1 && t.reports[|s.reports|] == Report(s.acc, s.samples))
  {
    Always(acts);
    var s := Run(acts).value;
    ReportsNow(s, more);
    if s.sampler.WantLock? {
      CommitsFirst(s, more);
    } else {
      LeavesQuietly(s, more);
    }
  }

  /** The report is made of what is there when the mutex is held, and no other is made before the next
      start. */
  lemma {:induction false} ReportsNow(s: State, more: seq<Action>)
    requires Inv(s) && !s.active && s.caller.StopReport? && NoStart(s, more)
    ensures var t := Continue(s, more);
            if t.caller.StopReport? then t.reports == s.reports
            else t.reports == s.reports + [Report(s.acc, s.samples)]
    decreases |more|
  {
    if more != [] {
      KeepsInv(s, more[0]);
      var t := Do(s, more[0]);
      ReportStep(s, more[0]);
      hide Inv, Do;
      if t.caller.StopReport? { ReportsNow(t, more[1..]); } else { NoMoreReports(t, more[1..]); }
    }
  }

  lemma ReportStep(s: State, a: Action)
    requires Inv(s) && !s.active && s.caller.StopReport? && Enabled(s, a)
    ensures var t := Do(s, a);
            && !t.active
            && if t.caller.StopReport? then t.reports == s.reports && t.acc == s.acc && t.samples == s.samples
               else t.caller.StopUnlock? && t.reports == s.reports + [Report(s.acc, s.samples)]
  {
  }

  lemma {:induction false} NoMoreReports(s: State, more: seq<Action>)
    requires !s.active && (s.caller.StopUnlock? || s.caller.Idle?) && NoStart(s, more)
    ensures Continue(s, more).reports == s.reports && !Continue(s, more).caller.StopReport?
    decreases |more|
  {
    if more != [] { NoMoreReports(Do(s, more[0]), more[1..]); }
  }

  /** A started sampler that has found the flag set and is about to lock. */
  lemma Started() returns (acts: seq<Action>)
    ensures Run(acts) == Some(State(true, 0, Free, Idle, WantLock, [], 0, []))
  {
    acts := Then([], CallerStep, INIT.(active := true, caller := StartZero));
    hide Run;
    acts := Then(acts, CallerStep, Run(acts).value.(caller := StartCreate));
    acts := Then(acts, CallerStep, Run(acts).value.(sampler := Opening, caller := Idle));
    acts := Then(acts, SamplerStep, Run(acts).value.(sampler := Check));
    acts := Then(acts, SamplerStep, Run(acts).value.(sampler := WantLock));
  }

  /** ... which a whole stop call overtakes. */
  lemma Overtaken() returns (acts: seq<Action>)
    ensures Run(acts) == Some(State(false, 0, Free, Idle, WantLock, [], 0, [Report(0, [])]))
  {
    hide Run;
    acts := Started();
    acts := Then(acts, CallerStep, Run(acts).value.(active := false, caller := StopLock));
    acts := Then(acts, CallerStep, Run(acts).value.(holder := ByCaller, caller := StopReport));
    acts := Then(acts, CallerStep, Run(acts).value.(reports := [Report(0, [])], caller := StopUnlock));
    acts := Then(acts, CallerStep, Run(acts).value.(holder := Free, caller := Idle));
  }

  /** Such a run: the late sample reaches the accumulator and no report. */
  lemma LateSampleUnreported(v: uint64) returns (acts: seq<Action>)
    ensures Run(acts) == Some(State(false, (250 * v) % 0x1_0000_0000_0000_0000, Free, Idle, Absent, [v], 0, [Report(0, [])]))
  {
    AddNumbers(0, v);
    hide Run, Add;
    acts := Overtaken();
    acts := Then(acts, SamplerStep, Run(acts).value.(holder := BySampler, sampler := Measure));
    acts := Then(acts, Sample(v), Run(acts).value.(sampler := Commit(v)));
    acts := Then(acts, SamplerStep, Run(acts).value.(acc := Add(0, v), samples := [v], sampler := Unlock));
    acts := Then(acts, SamplerStep, Run(acts).value.(holder := Free, sampler := Check));
    acts := Then(acts, SamplerStep, Run(acts).value.(sampler := Absent));
  }

  lemma Then(acts: seq<Action>, a: Action, t: State) returns (longer: seq<Action>)
    requires Run(acts).Some? && Enabled(Run(acts).value, a) && Do(Run(acts).value, a) == t
    ensures longer == acts + [a] && Run(longer) == Some(t)
  {
    longer := acts + [a];
    assert longer[..|longer| - 1] == acts;
  }

  // ----- failed reads --------------------------------------------------------------------------

  /** What take_measurement returns, as an unsigned value, when the block could not be read. */
  const FAILED: uint64 := 0xFFFF_FFFF_FFFF_FFFF

  function Failures(samples: seq<uint64>): nat {
    if samples == [] then 0 else
      Failures(samples[..|samples| - 1]) + if samples[|samples| - 1] == FAILED then 1 else 0
  }

  function GoodSum(samples: seq<uint64>): nat {
    if samples == [] then 0 else
      GoodSum(samples[..|samples| - 1]) + if samples[|samples| - 1] == FAILED then 0 else samples[|samples| - 1]
  }

  lemma {:induction false} SumSplits(samples: seq<uint64>)
    ensures Sum(samples) == GoodSum(samples) + Failures(samples) * (U64 - 1)
  {
    if samples != [] { SumSplits(samples[..|samples| - 1]); }
  }

  /** The return value is not checked, so every failed read takes one interval off the energy of the
      successful ones; the accumulator is right exactly when the reads that failed weigh nothing
      modulo 2^64. */
  lemma FailedReadsSubtract(samples: seq<uint64>)
    ensures Energy(samples) == (250 * GoodSum(samples) - 250 * Failures(samples)) % 0x1_0000_0000_0000_0000
    ensures Energy(samples) == (250 * GoodSum(samples)) % 0x1_0000_0000_0000_0000
            <==> (250 * Failures(samples)) % 0x1_0000_0000_0000_0000 == 0
  {
    SumSplits(samples);
    var g, f := GoodSum(samples), Failures(samples);
    assert INTERVAL * Sum(samples) == (INTERVAL * g - INTERVAL * f) + (INTERVAL * f) * U64;
    AddMultiple(INTERVAL * g - INTERVAL * f, INTERVAL * f);
    SubMod(INTERVAL * g, INTERVAL * f);
  }

  lemma AddMultiple(a: int, k: nat)
    ensures (a + k * U64) % U64 == a % U64
  {
  }

  lemma SubMod(a: nat, b: nat)
    ensures (a - b) % U64 == a % U64 <==> b % U64 == 0
  {
  }
}
