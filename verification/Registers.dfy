/** Bit fields of 64-bit model-specific registers (config_architecture.h, counters_features.c,
    misc_features.c, clocks_features.c).

    Registers are arrays of 64-bit words indexed by thread or socket.  The field layout of the
    performance-counter registers is that of Intel SDM Volume 3B, chapter 18.
 */
module Registers {
  import opened Options

  // ----- MASK_RANGE and MASK_VAL ---------------------------------------------------------------

  /** A mask from bit m down to bit n.  The full range 63..0 is not usable: the shift by 64 it would
      need is undefined. */
  function MaskRange(m: bv64, n: bv64): bv64
    requires n <= m < 64 && m - n < 63
  {
    ((1 << (m - n + 1)) - 1) << n
  }

  function MaskVal(x: bv64, m: bv64, n: bv64): bv64
    requires n <= m < 64 && m - n < 63
  {
    (x & MaskRange(m, n)) >> n
  }

  // ----- fixed counters ------------------------------------------------------------------------

  /** `struct fixed_counter`: for each thread the requested fields and the staged counter value. */
  class FixedCounter {
    var request: seq<Request>
    var value: seq<bv64>

    constructor (nthreads: nat)
      ensures |request| == |value| == nthreads
    {
      request := seq(nthreads, _ => Request(0, 0, 0, 0));
      value := seq(nthreads, _ => 0);
    }
  }

  datatype Request = Request(enable: bv64, ringLevel: bv64, anyThread: bv64, pmi: bv64)

  /** The fields fit their widths. */
  predicate Fits(r: Request) {
    r.enable <= 1 && r.ringLevel <= 3 && r.anyThread <= 1 && r.pmi <= 1
  }

  const GLOBAL_MASK: bv64 := 0x7_0000_0000
  const FIXED_MASK: bv64 := 0xFFF

  /** Bits 34:32, one enable bit for each counter. */
  function EnableBits(r0: Request, r1: Request, r2: Request): bv64 {
    (r0.enable << 32) | (r1.enable << 33) | (r2.enable << 34)
  }

  /** A 4-bit control group: ring level in bits 1:0, any-thread in bit 2, PMI in bit 3. */
  function Group(r: Request): bv64 {
    r.ringLevel | (r.anyThread << 2) | (r.pmi << 3)
  }

  function ControlBits(r0: Request, r1: Request, r2: Request): bv64 {
    Group(r0) | (Group(r1) << 4) | (Group(r2) << 8)
  }

  /** The bits outside a mask. */
  function Outside(x: bv64, mask: bv64): bv64 {
    x & !mask
  }

  /** One simultaneous update of all the bits under a mask. */
  function Update(x: bv64, mask: bv64, bits: bv64): bv64 {
    Outside(x, mask) | bits
  }

  predicate Within(bits: bv64, mask: bv64) {
    bits & mask == bits
  }

  lemma OutsideUpdate(x: bv64, mask: bv64, bits: bv64)
    ensures Outside(Update(x, mask, bits & mask), mask) == Outside(x, mask)
  {
  }

  /** Whatever an update wrote under the mask is gone after the next. */
  lemma Overwritten(x: bv64, mask: bv64, b: bv64, c: bv64)
    requires Within(b, mask)
    ensures Update(Update(x, mask, b), mask, c) == Update(x, mask, c)
  {
    hide Outside;
    OutsideUpdate(x, mask, b);
  }

  /** What the three enable steps do to the global control register, one after the other. */
  function GlobalSteps(x: bv64, r0: Request, r1: Request, r2: Request): bv64 {
    var a := (x & !(1 << 32)) | (r0.enable << 32);
    var b := (a & !(1 << 33)) | (r1.enable << 33);
    (b & !(1 << 34)) | (r2.enable << 34)
  }

  /** What the nine control steps do to the fixed-counter control register, one after the other. */
  function FixedSteps(x: bv64, r0: Request, r1: Request, r2: Request): bv64 {
    var x := (x & !(3 << 0)) | (r0.ringLevel << 0);
    var x := (x & !(1 << 2)) | (r0.anyThread << 2);
    var x := (x & !(1 << 3)) | (r0.pmi << 3);
    var x := (x & !(3 << 4)) | (r1.ringLevel << 4);
    var x := (x & !(1 << 6)) | (r1.anyThread << 6);
    var x := (x & !(1 << 7)) | (r1.pmi << 7);
    var x := (x & !(3 << 8)) | (r2.ringLevel << 8);
    var x := (x & !(1 << 10)) | (r2.anyThread << 10);
    (x & !(1 << 11)) | (r2.pmi << 11)
  }

  /** The twelve read-modify-writes together are one field update of each register. */
  lemma GlobalStepsAreUpdate(x: bv64, r0: Request, r1: Request, r2: Request)
    requires Fits(r0) && Fits(r1) && Fits(r2)
    ensures GlobalSteps(x, r0, r1, r2) == Update(x, GLOBAL_MASK, EnableBits(r0, r1, r2))
  {
  }

  lemma FixedStepsAreUpdate(x: bv64, r0: Request, r1: Request, r2: Request)
    requires Fits(r0) && Fits(r1) && Fits(r2)
    ensures FixedSteps(x, r0, r1, r2) == Update(x, FIXED_MASK, ControlBits(r0, r1, r2))
  {
  }

  /** The three enable bits of the global control register. */
  predicate GlobalShows(y: bv64, r0: Request, r1: Request, r2: Request) {
    (y >> 32) & 1 == r0.enable && (y >> 33) & 1 == r1.enable && (y >> 34) & 1 == r2.enable
  }

  /** The three 4-bit groups of the fixed-counter control register. */
  predicate ControlShows(y: bv64, r0: Request, r1: Request, r2: Request) {
    && y & 3 == r0.ringLevel && (y >> 2) & 1 == r0.anyThread && (y >> 3) & 1 == r0.pmi
    && (y >> 4) & 3 == r1.ringLevel && (y >> 6) & 1 == r1.anyThread && (y >> 7) & 1 == r1.pmi
    && (y >> 8) & 3 == r2.ringLevel && (y >> 10) & 1 == r2.anyThread && (y >> 11) & 1 == r2.pmi
  }

  /** After an update the bits outside the mask are as before and the fields hold the request. */
  lemma GlobalFields(x: bv64, r0: Request, r1: Request, r2: Request)
    requires Fits(r0) && Fits(r1) && Fits(r2)
    ensures var y := Update(x, GLOBAL_MASK, EnableBits(r0, r1, r2));
            Outside(y, GLOBAL_MASK) == Outside(x, GLOBAL_MASK) && GlobalShows(y, r0, r1, r2)
  {
  }

  lemma ControlFields(x: bv64, r0: Request, r1: Request, r2: Request)
    requires Fits(r0) && Fits(r1) && Fits(r2)
    ensures var y := Update(x, FIXED_MASK, ControlBits(r0, r1, r2));
            Outside(y, FIXED_MASK) == Outside(x, FIXED_MASK) && ControlShows(y, r0, r1, r2)
  {
  }

  // ----- programming the fixed counters --------------------------------------------------------

  /** Distinct objects, with one element for each thread. */
  predicate Separate(c0: FixedCounter, c1: FixedCounter, c2: FixedCounter, nthreads: nat,
                     perfGlobalCtrl: array<bv64>, fixedCtrCtrl: array<bv64>)
    reads c0, c1, c2
  {
    && c0 != c1 && c0 != c2 && c1 != c2 && perfGlobalCtrl != fixedCtrCtrl
    && |c0.request| == |c1.request| == |c2.request| == nthreads
    && |c0.value| == |c1.value| == |c2.value| == nthreads
    && perfGlobalCtrl.Length == fixedCtrCtrl.Length == nthreads
  }

  /** Both registers of the first `n` threads hold the requests, those of the others are unchanged. */
  predicate Programmed(global: seq<bv64>, fixed: seq<bv64>, global0: seq<bv64>, fixed0: seq<bv64>,
                       r0: seq<Request>, r1: seq<Request>, r2: seq<Request>, n: nat)
  {
    && |global| == |fixed| == |global0| == |fixed0| == |r0| == |r1| == |r2|
    && (forall i :: 0 <= i < |global| ==> global[i] == if i < n then GlobalSteps(global0[i], r0[i], r1[i], r2[i]) else global0[i])
    && (forall i :: 0 <= i < |fixed| ==> fixed[i] == if i < n then FixedSteps(fixed0[i], r0[i], r1[i], r2[i]) else fixed0[i])
  }

  predicate AllZero(value: seq<bv64>, n: nat) {
    forall i :: 0 <= i < |value| && i < n ==> value[i] == 0
  }

  /** set_fixed_counter_ctrl, on the two control registers of every thread as read into the batch; the
      counters themselves are zeroed in their own batch, which is not written back. */
  method SetFixedCounterCtrl(c0: FixedCounter, c1: FixedCounter, c2: FixedCounter, nthreads: nat,
                             perfGlobalCtrl: array<bv64>, fixedCtrCtrl: array<bv64>)
    requires Separate(c0, c1, c2, nthreads, perfGlobalCtrl, fixedCtrCtrl)
    modifies c0`value, c1`value, c2`value, perfGlobalCtrl, fixedCtrCtrl
    ensures Separate(c0, c1, c2, nthreads, perfGlobalCtrl, fixedCtrCtrl)
    ensures Programmed(perfGlobalCtrl[..], fixedCtrCtrl[..], old(perfGlobalCtrl[..]), old(fixedCtrCtrl[..]),
                       c0.request, c1.request, c2.request, nthreads)
    ensures forall i :: 0 <= i < nthreads ==> c0.value[i] == c1.value[i] == c2.value[i] == 0
  {
    hide GlobalSteps, FixedSteps, Programmed;
    ghost var global0, fixed0 := perfGlobalCtrl[..], fixedCtrCtrl[..];
    ghost var r0, r1, r2 := c0.request, c1.request, c2.request;
    NoneProgrammed(global0, fixed0, r0, r1, r2);
    for i := 0 to nthreads
      invariant Separate(c0, c1, c2, nthreads, perfGlobalCtrl, fixedCtrCtrl)
      invariant Programmed(perfGlobalCtrl[..], fixedCtrCtrl[..], global0, fixed0, r0, r1, r2, i)
      invariant AllZero(c0.value, i) && AllZero(c1.value, i) && AllZero(c2.value, i)
    {
      c0.value, c1.value, c2.value := c0.value[i := 0], c1.value[i := 0], c2.value[i := 0];
      ghost var global, fixed := perfGlobalCtrl[..], fixedCtrCtrl[..];
      ProgramThread(i, c0.request[i], c1.request[i], c2.request[i], perfGlobalCtrl, fixedCtrCtrl);
      ProgrammedNext(global, fixed, global0, fixed0, r0, r1, r2, i);
    }
  }

  lemma NoneProgrammed(global: seq<bv64>, fixed: seq<bv64>, r0: seq<Request>, r1: seq<Request>, r2: seq<Request>)
    requires |global| == |fixed| == |r0| == |r1| == |r2|
    ensures Programmed(global, fixed, global, fixed, r0, r1, r2, 0)
  {
  }

  lemma ProgrammedNext(global: seq<bv64>, fixed: seq<bv64>, global0: seq<bv64>, fixed0: seq<bv64>,
                       r0: seq<Request>, r1: seq<Request>, r2: seq<Request>, n: nat)
    requires Programmed(global, fixed, global0, fixed0, r0, r1, r2, n) && n < |r0|
    ensures n < |r1| && n < |r2| && n < |global| && n < |fixed|
    ensures Programmed(global[n := GlobalSteps(global[n], r0[n], r1[n], r2[n])],
                       fixed[n := FixedSteps(fixed[n], r0[n], r1[n], r2[n])], global0, fixed0, r0, r1, r2, n + 1)
  {
    hide GlobalSteps, FixedSteps;
  }

  /** The twelve read-modify-writes on the two registers of one thread. */
  method ProgramThread(i: nat, r0: Request, r1: Request, r2: Request,
                       perfGlobalCtrl: array<bv64>, fixedCtrCtrl: array<bv64>)
    requires i < perfGlobalCtrl.Length && i < fixedCtrCtrl.Length && perfGlobalCtrl != fixedCtrCtrl
    modifies perfGlobalCtrl, fixedCtrCtrl
    ensures perfGlobalCtrl[..] == old(perfGlobalCtrl[..])[i := GlobalSteps(old(perfGlobalCtrl[i]), r0, r1, r2)]
    ensures fixedCtrCtrl[..] == old(fixedCtrCtrl[..])[i := FixedSteps(old(fixedCtrCtrl[i]), r0, r1, r2)]
  {
    hide GlobalSteps, FixedSteps;
    perfGlobalCtrl[i] := SetEnables(perfGlobalCtrl[i], r0, r1, r2);
    fixedCtrCtrl[i] := SetControls(fixedCtrCtrl[i], r0, r1, r2);
  }

  method SetEnables(x: bv64, r0: Request, r1: Request, r2: Request) returns (y: bv64)
    ensures y == GlobalSteps(x, r0, r1, r2)
  {
    y := (x & !(1 << 32)) | (r0.enable << 32);
    y := (y & !(1 << 33)) | (r1.enable << 33);
    y := (y & !(1 << 34)) | (r2.enable << 34);
  }

  method SetControls(x: bv64, r0: Request, r1: Request, r2: Request) returns (y: bv64)
    ensures y == FixedSteps(x, r0, r1, r2)
  {
    y := (x & !(3 << 0)) | (r0.ringLevel << 0);
    y := (y & !(1 << 2)) | (r0.anyThread << 2);
    y := (y & !(1 << 3)) | (r0.pmi << 3);
    y := (y & !(3 << 4)) | (r1.ringLevel << 4);
    y := (y & !(1 << 6)) | (r1.anyThread << 6);
    y := (y & !(1 << 7)) | (r1.pmi << 7);
    y := (y & !(3 << 8)) | (r2.ringLevel << 8);
    y := (y & !(1 << 10)) | (r2.anyThread << 10);
    y := (y & !(1 << 11)) | (r2.pmi << 11);
  }

  // ----- enabling and disabling the fixed counters ---------------------------------------------

  /** Count at every ring level, for any thread, without interrupt. */
  const COUNT_ALL := Request(1, 3, 1, 0)

  /** The same fields with the counter off. */
  const COUNT_OFF := Request(0, 3, 1, 0)

  function ToAll(r: Request, nthreads: nat): seq<Request> {
    seq(nthreads, _ => r)
  }

  predicate AllRequest(c0: FixedCounter, c1: FixedCounter, c2: FixedCounter, r: Request, n: nat)
    requires n <= |c0.request| && n <= |c1.request| && n <= |c2.request|
    reads c0, c1, c2
  {
    forall i :: 0 <= i < n ==> c0.request[i] == c1.request[i] == c2.request[i] == r
  }

  /** The loop that enable_fixed_counters and disable_fixed_counters share. */
  method RequestAll(c0: FixedCounter, c1: FixedCounter, c2: FixedCounter, nthreads: nat, r: Request)
    requires c0 != c1 && c0 != c2 && c1 != c2
    requires |c0.request| == |c1.request| == |c2.request| == nthreads
    modifies c0`request, c1`request, c2`request
    ensures c0.request == c1.request == c2.request == ToAll(r, nthreads)
  {
    for i := 0 to nthreads
      invariant |c0.request| == |c1.request| == |c2.request| == nthreads
      invariant AllRequest(c0, c1, c2, r, i)
    {
      c0.request, c1.request, c2.request := c0.request[i := r], c1.request[i := r], c2.request[i := r];
    }
  }

  method EnableFixedCounters(c0: FixedCounter, c1: FixedCounter, c2: FixedCounter, nthreads: nat,
                             perfGlobalCtrl: array<bv64>, fixedCtrCtrl: array<bv64>)
    requires Separate(c0, c1, c2, nthreads, perfGlobalCtrl, fixedCtrCtrl)
    modifies c0, c1, c2, perfGlobalCtrl, fixedCtrCtrl
    ensures Separate(c0, c1, c2, nthreads, perfGlobalCtrl, fixedCtrCtrl)
    ensures ProgrammedAll(perfGlobalCtrl[..], fixedCtrCtrl[..], old(perfGlobalCtrl[..]), old(fixedCtrCtrl[..]),
                          COUNT_ALL, nthreads)
    ensures AllSwitched(perfGlobalCtrl[..], fixedCtrCtrl[..], old(perfGlobalCtrl[..]), old(fixedCtrCtrl[..]), 7)
  {
    hide Programmed, GlobalSteps, FixedSteps, AllSwitched;
    RequestAll(c0, c1, c2, nthreads, COUNT_ALL);
    SetFixedCounterCtrl(c0, c1, c2, nthreads, perfGlobalCtrl, fixedCtrCtrl);
    CountersSwitched(perfGlobalCtrl[..], fixedCtrCtrl[..], old(perfGlobalCtrl[..]), old(fixedCtrCtrl[..]), nthreads);
  }

  method DisableFixedCounters(c0: FixedCounter, c1: FixedCounter, c2: FixedCounter, nthreads: nat,
                              perfGlobalCtrl: array<bv64>, fixedCtrCtrl: array<bv64>)
    requires Separate(c0, c1, c2, nthreads, perfGlobalCtrl, fixedCtrCtrl)
    modifies c0, c1, c2, perfGlobalCtrl, fixedCtrCtrl
    ensures Separate(c0, c1, c2, nthreads, perfGlobalCtrl, fixedCtrCtrl)
    ensures ProgrammedAll(perfGlobalCtrl[..], fixedCtrCtrl[..], old(perfGlobalCtrl[..]), old(fixedCtrCtrl[..]),
                          COUNT_OFF, nthreads)
    ensures AllSwitched(perfGlobalCtrl[..], fixedCtrCtrl[..], old(perfGlobalCtrl[..]), old(fixedCtrCtrl[..]), 0)
  {
    hide Programmed, GlobalSteps, FixedSteps, AllSwitched;
    RequestAll(c0, c1, c2, nthreads, COUNT_OFF);
    SetFixedCounterCtrl(c0, c1, c2, nthreads, perfGlobalCtrl, fixedCtrCtrl);
    CountersSwitched(perfGlobalCtrl[..], fixedCtrCtrl[..], old(perfGlobalCtrl[..]), old(fixedCtrCtrl[..]), nthreads);
  }

  /** One thread's registers with the three counters on or off: the enable bits of all three are `bits`,
      each 4-bit control group is 7, that is both ring levels and any thread without interrupt, and all
      other bits are old. */
  predicate Switched(global: bv64, fixed: bv64, global0: bv64, fixed0: bv64, bits: bv64) {
    && (global >> 32) & 7 == bits && global & 0xFFFF_FFF8_FFFF_FFFF == global0 & 0xFFFF_FFF8_FFFF_FFFF
    && fixed & 0xFFF == 0x777 && fixed & 0xFFFF_FFFF_FFFF_F000 == fixed0 & 0xFFFF_FFFF_FFFF_F000
  }

  predicate AllSwitched(global: seq<bv64>, fixed: seq<bv64>, global0: seq<bv64>, fixed0: seq<bv64>, bits: bv64) {
    && |global| == |fixed| == |global0| == |fixed0|
    && forall i :: 0 <= i < |global| ==> Switched(global[i], fixed[i], global0[i], fixed0[i], bits)
  }

  /** In numbers, after enabling every thread has all three counters on, after disabling all three off. */
  lemma CountersSwitched(global: seq<bv64>, fixed: seq<bv64>, global0: seq<bv64>, fixed0: seq<bv64>, nthreads: nat)
    ensures ProgrammedAll(global, fixed, global0, fixed0, COUNT_ALL, nthreads) ==>
              AllSwitched(global, fixed, global0, fixed0, 7)
    ensures ProgrammedAll(global, fixed, global0, fixed0, COUNT_OFF, nthreads) ==>
              AllSwitched(global, fixed, global0, fixed0, 0)
  {
    hide GlobalSteps, FixedSteps, Switched;
    forall x, y
      ensures Switched(GlobalSteps(x, COUNT_ALL, COUNT_ALL, COUNT_ALL), FixedSteps(y, COUNT_ALL, COUNT_ALL, COUNT_ALL), x, y, 7)
      ensures Switched(GlobalSteps(x, COUNT_OFF, COUNT_OFF, COUNT_OFF), FixedSteps(y, COUNT_OFF, COUNT_OFF, COUNT_OFF), x, y, 0)
    {
      SwitchedOn(x, y);
      SwitchedOff(x, y);
    }
  }

  lemma SwitchedOn(x: bv64, y: bv64)
    ensures Switched(GlobalSteps(x, COUNT_ALL, COUNT_ALL, COUNT_ALL), FixedSteps(y, COUNT_ALL, COUNT_ALL, COUNT_ALL), x, y, 7)
  {
  }

  lemma SwitchedOff(x: bv64, y: bv64)
    ensures Switched(GlobalSteps(x, COUNT_OFF, COUNT_OFF, COUNT_OFF), FixedSteps(y, COUNT_OFF, COUNT_OFF, COUNT_OFF), x, y, 0)
  {
  }

  /** Disabling and enabling again restores both registers of exactly the threads that had all three
      counters on. */
  lemma OffThenOn(global: seq<bv64>, fixed: seq<bv64>, global1: seq<bv64>, fixed1: seq<bv64>,
                  global0: seq<bv64>, fixed0: seq<bv64>, i: nat)
    requires AllSwitched(global1, fixed1, global0, fixed0, 0) && AllSwitched(global, fixed, global1, fixed1, 7)
    requires i < |global|
    ensures global[i] == global0[i] && fixed[i] == fixed0[i]
            <==> (global0[i] >> 32) & 7 == 7 && fixed0[i] & 0xFFF == 0x777
  {
    hide Switched;
    assert Switched(global[i], fixed[i], global1[i], fixed1[i], 7);
    assert Switched(global1[i], fixed1[i], global0[i], fixed0[i], 0);
    RestoredExactly(global[i], fixed[i], global1[i], fixed1[i], global0[i], fixed0[i]);
  }

  lemma RestoredExactly(x2: bv64, y2: bv64, x1: bv64, y1: bv64, x0: bv64, y0: bv64)
    requires Switched(x1, y1, x0, y0, 0) && Switched(x2, y2, x1, y1, 7)
    ensures x2 == x0 && y2 == y0 <==> (x0 >> 32) & 7 == 7 && y0 & 0xFFF == 0x777
  {
    GlobalParts(x2, x0);
    FixedParts(y2, y0);
  }

  lemma GlobalParts(x: bv64, y: bv64)
    ensures x == y <==> (x >> 32) & 7 == (y >> 32) & 7 && x & 0xFFFF_FFF8_FFFF_FFFF == y & 0xFFFF_FFF8_FFFF_FFFF
  {
  }

  lemma FixedParts(x: bv64, y: bv64)
    ensures x == y <==> x & 0xFFF == y & 0xFFF && x & 0xFFFF_FFFF_FFFF_F000 == y & 0xFFFF_FFFF_FFFF_F000
  {
  }

  /** Every thread's registers hold the same request for all three counters. */
  predicate ProgrammedAll(global: seq<bv64>, fixed: seq<bv64>, global0: seq<bv64>, fixed0: seq<bv64>,
                          r: Request, nthreads: nat)
  {
    Programmed(global, fixed, global0, fixed0, ToAll(r, nthreads), ToAll(r, nthreads), ToAll(r, nthreads), nthreads)
  }

  /** The fields of a thread hold its requests and the other bits are old. */
  predicate Holds(global: bv64, fixed: bv64, global0: bv64, fixed0: bv64, r0: Request, r1: Request, r2: Request) {
    && Outside(global, GLOBAL_MASK) == Outside(global0, GLOBAL_MASK)
    && Outside(fixed, FIXED_MASK) == Outside(fixed0, FIXED_MASK)
    && GlobalShows(global, r0, r1, r2) && ControlShows(fixed, r0, r1, r2)
  }

  /** What software reads back: on every thread the fields hold the requests and the other bits are
      unchanged if and only if the requests fit their fields; wider values spill over. */
  lemma ReadsBack(global: seq<bv64>, fixed: seq<bv64>, global0: seq<bv64>, fixed0: seq<bv64>, r0: seq<Request>,
                  r1: seq<Request>, r2: seq<Request>, i: nat)
    requires Programmed(global, fixed, global0, fixed0, r0, r1, r2, |r0|) && i < |r0|
    ensures Holds(global[i], fixed[i], global0[i], fixed0[i], r0[i], r1[i], r2[i])
            <==> Fits(r0[i]) && Fits(r1[i]) && Fits(r2[i])
  {
    hide Fits, Holds, GlobalSteps, FixedSteps;
    if Fits(r0[i]) && Fits(r1[i]) && Fits(r2[i]) {
      FittingHolds(global0[i], fixed0[i], r0[i], r1[i], r2[i]);
    } else if Holds(global[i], fixed[i], global0[i], fixed0[i], r0[i], r1[i], r2[i]) {
      HeldFits(global[i], fixed[i], global0[i], fixed0[i], r0[i], r1[i], r2[i]);
    }
  }

  lemma FittingHolds(x: bv64, y: bv64, r0: Request, r1: Request, r2: Request)
    requires Fits(r0) && Fits(r1) && Fits(r2)
    ensures Holds(GlobalSteps(x, r0, r1, r2), FixedSteps(y, r0, r1, r2), x, y, r0, r1, r2)
  {
    hide Fits, Update, EnableBits, ControlBits, GlobalShows, ControlShows, Outside, GlobalSteps, FixedSteps;
    GlobalStepsAreUpdate(x, r0, r1, r2);
    FixedStepsAreUpdate(y, r0, r1, r2);
    GlobalFields(x, r0, r1, r2);
    ControlFields(y, r0, r1, r2);
  }

  /** A field of one or two bits cannot show more. */
  lemma HeldFits(global: bv64, fixed: bv64, global0: bv64, fixed0: bv64, r0: Request, r1: Request, r2: Request)
    requires Holds(global, fixed, global0, fixed0, r0, r1, r2)
    ensures Fits(r0) && Fits(r1) && Fits(r2)
  {
    hide Outside;
    AtMostOne(global >> 32);
    AtMostOne(global >> 33);
    AtMostOne(global >> 34);
    AtMostOne(fixed >> 2);
    AtMostOne(fixed >> 3);
    AtMostOne(fixed >> 6);
    AtMostOne(fixed >> 7);
    AtMostOne(fixed >> 10);
    AtMostOne(fixed >> 11);
    AtMostThree(fixed);
    AtMostThree(fixed >> 4);
    AtMostThree(fixed >> 8);
  }

  lemma AtMostOne(x: bv64)
    ensures x & 1 <= 1
  {
  }

  lemma AtMostThree(x: bv64)
    ensures x & 3 <= 3
  {
  }

  /** A second programming erases all trace of the first. */
  lemma LastRequestWins(global: seq<bv64>, fixed: seq<bv64>, global1: seq<bv64>, fixed1: seq<bv64>,
                        global0: seq<bv64>, fixed0: seq<bv64>, r: Request, s: Request, nthreads: nat)
    requires Fits(r) && Fits(s)
    requires ProgrammedAll(global1, fixed1, global0, fixed0, r, nthreads)
    requires ProgrammedAll(global, fixed, global1, fixed1, s, nthreads)
    ensures ProgrammedAll(global, fixed, global0, fixed0, s, nthreads)
    ensures r == s ==> global == global1 && fixed == fixed1
  {
    hide Fits, GlobalSteps, FixedSteps;
    forall i | 0 <= i < |global|
      ensures global[i] == GlobalSteps(global0[i], s, s, s) && fixed[i] == FixedSteps(fixed0[i], s, s, s)
    {
      GlobalOverwritten(global0[i], r, s);
      FixedOverwritten(fixed0[i], r, s);
    }
  }

  lemma GlobalOverwritten(x: bv64, r: Request, s: Request)
    requires Fits(r) && Fits(s)
    ensures GlobalSteps(GlobalSteps(x, r, r, r), s, s, s) == GlobalSteps(x, s, s, s)
  {
    assert Within(EnableBits(r, r, r), GLOBAL_MASK);
    hide EnableBits, Within, Update, GlobalSteps;
    GlobalStepsAreUpdate(x, r, r, r);
    GlobalStepsAreUpdate(GlobalSteps(x, r, r, r), s, s, s);
    GlobalStepsAreUpdate(x, s, s, s);
    Overwritten(x, GLOBAL_MASK, EnableBits(r, r, r), EnableBits(s, s, s));
  }

  lemma FixedOverwritten(x: bv64, r: Request, s: Request)
    requires Fits(r) && Fits(s)
    ensures FixedSteps(FixedSteps(x, r, r, r), s, s, s) == FixedSteps(x, s, s, s)
  {
    assert Within(ControlBits(r, r, r), FIXED_MASK);
    hide ControlBits, Within, Update, FixedSteps;
    FixedStepsAreUpdate(x, r, r, r);
    FixedStepsAreUpdate(FixedSteps(x, r, r, r), s, s, s);
    FixedStepsAreUpdate(x, s, s, s);
    Overwritten(x, FIXED_MASK, ControlBits(r, r, r), ControlBits(s, s, s));
  }

  // ----- turbo ---------------------------------------------------------------------------------

  /** The mask of a register's disable bit. */
  function TurboMask(bit: bv64): (mask: bv64)
    requires bit < 63
    ensures OneBit(mask)
  {
    1 << bit
  }

  ghost predicate OneBit(mask: bv64) {
    mask != 0 && mask & (mask - 1) == 0
  }

  predicate TurboDisabled(x: bv64, mask: bv64) {
    x == x | mask
  }

  /** The register after its disable bit has been set or cleared. */
  function TurboWord(x: bv64, mask: bv64, disable: bool): bv64 {
    if disable then x | mask else Outside(x, mask)
  }

  /** The driver's return codes for each socket: 0 is success. */
  datatype Driver = Driver(read: seq<int>, write: seq<int>)

  /** The code with which the turn of socket `i` ends; a register already right is not written. */
  function TurnCode(x: bv64, mask: bv64, disable: bool, d: Driver, i: nat): int
    requires i < |d.read| && i < |d.write|
  {
    if d.read[i] != 0 then d.read[i]
    else if TurboDisabled(x, mask) != disable then d.write[i]
    else 0
  }

  /** The first `n` sockets succeeded and are updated, the others are untouched. */
  predicate Updated(regs: seq<bv64>, regs0: seq<bv64>, mask: bv64, disable: bool, d: Driver, n: nat)
    requires |d.read| == |d.write| == |regs0|
  {
    && n <= |regs| == |regs0|
    && (forall i :: 0 <= i < n ==> TurnCode(regs0[i], mask, disable, d, i) == 0
                                   && regs[i] == TurboWord(regs0[i], mask, disable))
    && (forall i :: n <= i < |regs| ==> regs[i] == regs0[i])
  }

  /** The run ended at socket `stop`: with its error code, or past the last socket with 0. */
  predicate Ended(ret: int, regs: seq<bv64>, regs0: seq<bv64>, mask: bv64, disable: bool, d: Driver, stop: nat)
    requires |d.read| == |d.write| == |regs0|
  {
    && Updated(regs, regs0, mask, disable, d, stop)
    && ret == (if stop < |regs| then TurnCode(regs0[stop], mask, disable, d, stop) else 0)
    && (ret == 0 <==> stop == |regs|)
  }

  /** A register already right is not changed by the update that is skipped. */
  lemma TurboWordStays(x: bv64, mask: bv64, disable: bool)
    requires OneBit(mask) && TurboDisabled(x, mask) == disable
    ensures TurboWord(x, mask, disable) == x
  {
    if !disable {
      ClearOrSet(x, mask);
      hide *;
      if BitClear(x, mask) {
        ClearStays(x, mask);
      } else {
        SetIsDisabled(x, mask);
      }
    }
  }

  predicate BitClear(x: bv64, mask: bv64) {
    x & mask == 0
  }

  predicate BitSet(x: bv64, mask: bv64) {
    x & mask == mask
  }

  lemma ClearOrSet(x: bv64, mask: bv64)
    requires OneBit(mask)
    ensures BitClear(x, mask) || BitSet(x, mask)
  {
  }

  lemma ClearStays(x: bv64, mask: bv64)
    requires BitClear(x, mask)
    ensures TurboWord(x, mask, false) == x
  {
  }

  lemma SetIsDisabled(x: bv64, mask: bv64)
    requires BitSet(x, mask)
    ensures TurboDisabled(x, mask)
  {
  }

  /** set_turbo_on: clears the disable bit socket by socket and stops at the first error. */
  method SetTurboOn(regs: array<bv64>, bit: bv64, d: Driver) returns (ret: int, ghost stop: nat)
    requires bit < 63 && |d.read| == |d.write| == regs.Length
    modifies regs
    ensures Ended(ret, regs[..], old(regs[..]), TurboMask(bit), false, d, stop)
  {
    hide TurboWord, OneBit;
    ret := 0;
    var mask := TurboMask(bit);
    ghost var regs0 := regs[..];
    for socket := 0 to regs.Length
      invariant ret == 0 && Updated(regs[..], regs0, mask, false, d, socket)
    {
      ret := d.read[socket];
      if ret != 0 { return ret, socket; }
      var value := regs[socket];
      if TurboDisabled(value, mask) {
        ret := d.write[socket];
        if ret == 0 { regs[socket] := TurboWord(value, mask, false); }
      } else {
        TurboWordStays(value, mask, false);
      }
      if ret != 0 { return ret, socket; }
    }
    stop := regs.Length;
  }

  /** set_turbo_off: sets the disable bit socket by socket and stops at the first error. */
  method SetTurboOff(regs: array<bv64>, bit: bv64, d: Driver) returns (ret: int, ghost stop: nat)
    requires bit < 63 && |d.read| == |d.write| == regs.Length
    modifies regs
    ensures Ended(ret, regs[..], old(regs[..]), TurboMask(bit), true, d, stop)
  {
    hide TurboWord, OneBit;
    ret := 0;
    var mask := TurboMask(bit);
    ghost var regs0 := regs[..];
    for socket := 0 to regs.Length
      invariant ret == 0 && Updated(regs[..], regs0, mask, true, d, socket)
    {
      ret := d.read[socket];
      if ret != 0 { return ret, socket; }
      var value := regs[socket];
      if !TurboDisabled(value, mask) {
        ret := d.write[socket];
        if ret == 0 { regs[socket] := TurboWord(value, mask, true); }
      } else {
        TurboWordStays(value, mask, true);
      }
      if ret != 0 { return ret, socket; }
    }
    stop := regs.Length;
  }

  /** print_turbo_status: what is printed for the sockets read before the first error. */
  method PrintTurboStatus(regs: array<bv64>, bit: bv64, d: Driver) returns (ret: int, disabled: seq<bool>)
    requires bit < 63 && |d.read| == regs.Length
    ensures |disabled| <= regs.Length
    ensures forall i :: 0 <= i < |disabled| ==> d.read[i] == 0 && disabled[i] == TurboDisabled(regs[i], TurboMask(bit))
    ensures ret == if |disabled| < regs.Length then d.read[|disabled|] else 0
    ensures ret == 0 <==> |disabled| == regs.Length
  {
    ret, disabled := 0, [];
    var mask := TurboMask(bit);
    for socket := 0 to regs.Length
      invariant ret == 0 && |disabled| == socket
      invariant forall i :: 0 <= i < socket ==> d.read[i] == 0 && disabled[i] == TurboDisabled(regs[i], mask)
    {
      ret := d.read[socket];
      if ret != 0 { return; }
      disabled := disabled + [TurboDisabled(regs[socket], mask)];
    }
  }

  /** The update sets the disable bit as asked and leaves every other bit alone. */
  lemma TurboWordMeaning(x: bv64, mask: bv64, disable: bool)
    requires mask != 0
    ensures Outside(TurboWord(x, mask, disable), mask) == Outside(x, mask)
    ensures TurboDisabled(TurboWord(x, mask, disable), mask) == disable
  {
    ClearedMeaning(x, mask);
    SetMeaning(x, mask);
    SetDisables(x, mask);
    hide Outside, TurboDisabled;
  }

  lemma ClearedMeaning(x: bv64, mask: bv64)
    requires mask != 0
    ensures Outside(Outside(x, mask), mask) == Outside(x, mask) && !TurboDisabled(Outside(x, mask), mask)
  {
    assert (Outside(x, mask) | mask) & mask == mask && Outside(x, mask) & mask == 0;
  }

  lemma SetMeaning(x: bv64, mask: bv64)
    ensures Outside(x | mask, mask) == Outside(x, mask)
  {
    assert (x | mask) & !mask == (x & !mask) | (mask & !mask);
    assert mask & !mask == 0;
  }

  lemma SetDisables(x: bv64, mask: bv64)
    ensures TurboDisabled(x | mask, mask)
  {
  }

  /** Bit `k` of `y` is set or clear as asked if it is bit number `bit`, and as in `x` otherwise. */
  predicate BitShows(y: bv64, x: bv64, bit: bv64, k: bv64, on: bool)
    requires k < 64
  {
    y & (1 << k) == if k == bit then (if on then 1 << k else 0) else x & (1 << k)
  }

  /** Bit by bit: afterwards the disable bit is set or clear as asked, every other bit is as before, and
      the test asks for that bit. */
  lemma TurboBits(x: bv64, bit: bv64, k: bv64, disable: bool)
    requires bit < 63 && k < 64
    ensures BitShows(TurboWord(x, TurboMask(bit), disable), x, bit, k, disable)
    ensures TurboDisabled(x, TurboMask(bit)) <==> BitSet(x, 1 << bit)
  {
    hide Outside, BitShows, OneBit, TurboDisabled;
    SetShows(x, bit, k);
    ClearedShows(x, bit, k);
    TestedBit(x, bit);
  }

  lemma SetShows(x: bv64, bit: bv64, k: bv64)
    requires bit < 63 && k < 64
    ensures BitShows(x | (1 << bit), x, bit, k, true)
  {
    if k != bit { MasksApart(bit, k); }
    OrMasked(x, 1 << bit, 1 << k);
    OrZero(x & (1 << k));
  }

  lemma ClearedShows(x: bv64, bit: bv64, k: bv64)
    requires bit < 63 && k < 64
    ensures BitShows(Outside(x, 1 << bit), x, bit, k, false)
  {
    hide Outside, Apart;
    if k == bit {
      OutsideOwn(x, 1 << bit);
    } else {
      MasksApart(bit, k);
      OutsideMasked(x, 1 << bit, 1 << k);
    }
  }

  lemma TestedBit(x: bv64, bit: bv64)
    requires bit < 63
    ensures TurboDisabled(x, 1 << bit) <==> BitSet(x, 1 << bit)
  {
    if TurboDisabled(x, 1 << bit) {
      OrMasked(x, 1 << bit, 1 << bit);
    } else if BitSet(x, 1 << bit) {
      SetIsDisabled(x, 1 << bit);
    }
  }

  predicate Apart(b: bv64, m: bv64) {
    b & m == 0
  }

  lemma MasksApart(bit: bv64, k: bv64)
    requires bit < 64 && k < 64 && k != bit
    ensures Apart(1 << bit, 1 << k)
  {
  }

  lemma OrMasked(x: bv64, b: bv64, m: bv64)
    ensures (x | b) & m == (x & m) | (b & m) && (x | b) & b == b
  {
  }

  lemma OutsideMasked(x: bv64, b: bv64, m: bv64)
    requires Apart(b, m)
    ensures Outside(x, b) & m == x & m
  {
  }

  lemma OutsideOwn(x: bv64, b: bv64)
    ensures Outside(x, b) & b == 0
  {
  }

  lemma OrZero(x: bv64)
    ensures x | 0 == x
  {
  }

  /** The run ends at the first socket whose read fails, or whose bit is not as asked and whose write fails,
      with the driver's code for that call.  The sockets before it are as asked, in the disable bit and no
      other; it and those after it are as they were. */
  lemma WhereTurboEnds(ret: int, regs: seq<bv64>, regs0: seq<bv64>, bit: bv64, k: bv64, disable: bool, d: Driver,
                       stop: nat)
    requires bit < 63 && k < 64 && |d.read| == |d.write| == |regs0|
    requires Ended(ret, regs, regs0, TurboMask(bit), disable, d, stop)
    ensures stop <= |regs| == |regs0|
    ensures forall i :: 0 <= i < stop ==>
              && d.read[i] == 0 && (BitSet(regs0[i], 1 << bit) != disable ==> d.write[i] == 0)
              && BitShows(regs[i], regs0[i], bit, k, disable)
    ensures if stop == |regs| then ret == 0
            else
              && ret == (if d.read[stop] != 0 then d.read[stop] else d.write[stop]) != 0
              && (d.read[stop] == 0 ==> BitSet(regs0[stop], 1 << bit) != disable)
    ensures forall i :: stop <= i < |regs| ==> regs[i] == regs0[i]
  {
    hide TurboWord, TurboDisabled, OneBit, BitShows, BitSet, TurboMask;
    forall i | 0 <= i < stop
      ensures d.read[i] == 0 && (BitSet(regs0[i], 1 << bit) != disable ==> d.write[i] == 0)
      ensures BitShows(regs[i], regs0[i], bit, k, disable)
    {
      assert TurnCode(regs0[i], TurboMask(bit), disable, d, i) == 0;
      TurboBits(regs0[i], bit, k, disable);
    }
    if stop < |regs0| { TurboBits(regs0[stop], bit, k, disable); }
  }

  /** After a successful run every socket is as asked, so another run needs no write: if the reads
      succeed it returns 0 and changes nothing, whatever the driver would answer to a write. */
  lemma TurboAgain(regs: seq<bv64>, regs0: seq<bv64>, regs2: seq<bv64>, mask: bv64, disable: bool, d: Driver, d2: Driver,
                   ret: int, stop: nat)
    requires OneBit(mask) && |d.read| == |d.write| == |regs0| == |d2.read| == |d2.write|
    requires Ended(0, regs, regs0, mask, disable, d, |regs0|)
    requires Ended(ret, regs2, regs, mask, disable, d2, stop)
    requires forall i :: 0 <= i < |regs| ==> d2.read[i] == 0
    ensures ret == 0 && regs2 == regs
    ensures forall i :: 0 <= i < |regs| ==> TurboDisabled(regs[i], mask) == disable
  {
    hide TurboWord, TurboDisabled;
    forall i | 0 <= i < |regs|
      ensures TurboDisabled(regs[i], mask) == disable && TurboWord(regs[i], mask, disable) == regs[i]
    {
      TurboWordMeaning(regs0[i], mask, disable);
      TurboWordStays(regs[i], mask, disable);
    }
  }

  /** Turning turbo off and then on again restores every socket on which it was on. */
  lemma TurboOffThenOn(regs: seq<bv64>, regs1: seq<bv64>, regs2: seq<bv64>, mask: bv64, d1: Driver, d2: Driver)
    requires OneBit(mask) && |d1.read| == |d1.write| == |regs| == |d2.read| == |d2.write|
    requires Ended(0, regs1, regs, mask, true, d1, |regs|) && Ended(0, regs2, regs1, mask, false, d2, |regs|)
    ensures forall i :: 0 <= i < |regs| && !TurboDisabled(regs[i], mask) ==> regs2[i] == regs[i]
  {
    hide TurboWord, TurboDisabled, OneBit;
    forall i | 0 <= i < |regs| && !TurboDisabled(regs[i], mask)
      ensures regs2[i] == regs[i]
    {
      TurboWordStays(regs[i], mask, false);
      ClearAfterSet(regs[i], mask);
    }
  }

  lemma ClearAfterSet(x: bv64, mask: bv64)
    ensures TurboWord(TurboWord(x, mask, true), mask, false) == TurboWord(x, mask, false)
  {
    SetMeaning(x, mask);
    hide Outside, TurboDisabled;
  }

  // ----- general-purpose counters --------------------------------------------------------------

  /** Event select layout: cmask in 31:24, flags in 23:16, umask in 15:8, event in 7:0. */
  function Pack(cmask: bv64, flags: bv64, umask: bv64, eventsel: bv64): bv64 {
    (cmask << 24) | (flags << 16) | (umask << 8) | eventsel
  }

  /** set_pmc_ctrl_flags: selects a counter by its number, counted from 1; a number outside 1..8
      selects none.  The storage has a row for each counter the processor offers. */
  method SetPmcCtrlFlags(evtsel: array2<bv64>, cmask: bv64, flags: bv64, umask: bv64, eventsel: bv64,
                         pmcnum: int, thread: nat)
    requires evtsel.Length0 <= 8 && thread < evtsel.Length1
    requires 1 <= pmcnum <= 8 ==> pmcnum <= evtsel.Length0
    modifies evtsel
    ensures forall c, t :: 0 <= c < evtsel.Length0 && 0 <= t < evtsel.Length1 ==>
              evtsel[c, t] == if c == pmcnum - 1 && t == thread then Pack(cmask, flags, umask, eventsel) else old(evtsel[c, t])
  {
    hide Pack;
    var packed := Pack(cmask, flags, umask, eventsel);
    if pmcnum == 8 {
      evtsel[7, thread] := packed;
    } else if pmcnum == 7 {
      evtsel[6, thread] := packed;
    } else if pmcnum == 6 {
      evtsel[5, thread] := packed;
    } else if pmcnum == 5 {
      evtsel[4, thread] := packed;
    } else if pmcnum == 4 {
      evtsel[3, thread] := packed;
    } else if pmcnum == 3 {
      evtsel[2, thread] := packed;
    } else if pmcnum == 2 {
      evtsel[1, thread] := packed;
    } else if pmcnum == 1 {
      evtsel[0, thread] := packed;
    }
  }

  /** set_all_pmc_ctrl: every thread's register of the selected counter, and nothing else. */
  method SetAllPmcCtrl(evtsel: array2<bv64>, cmask: bv64, flags: bv64, umask: bv64, eventsel: bv64, pmcnum: int)
    requires evtsel.Length0 <= 8
    requires 1 <= pmcnum <= 8 ==> pmcnum <= evtsel.Length0
    modifies evtsel
    ensures forall c, t :: 0 <= c < evtsel.Length0 && 0 <= t < evtsel.Length1 ==>
              evtsel[c, t] == if c == pmcnum - 1 then Pack(cmask, flags, umask, eventsel) else old(evtsel[c, t])
  {
    hide Pack;
    for i := 0 to evtsel.Length1
      invariant forall c, t :: 0 <= c < evtsel.Length0 && 0 <= t < evtsel.Length1 ==>
                  evtsel[c, t] == if c == pmcnum - 1 && t < i then Pack(cmask, flags, umask, eventsel) else old(evtsel[c, t])
    {
      SetPmcCtrlFlags(evtsel, cmask, flags, umask, eventsel, pmcnum, i);
    }
  }

  /** The four fields of an event select register, read with MASK_VAL. */
  function Unpack(x: bv64): (bv64, bv64, bv64, bv64) {
    (MaskVal(x, 31, 24), MaskVal(x, 23, 16), MaskVal(x, 15, 8), MaskVal(x, 7, 0))
  }

  /** Reading the fields back gives what was packed exactly when each of them fits a byte. */
  lemma PackRoundTrip(cmask: bv64, flags: bv64, umask: bv64, eventsel: bv64)
    ensures Unpack(Pack(cmask, flags, umask, eventsel)) == (cmask, flags, umask, eventsel)
            <==> cmask < 256 && flags < 256 && umask < 256 && eventsel < 256
  {
    var x := Pack(cmask, flags, umask, eventsel);
    MaskFields(x);
    FieldsAreBytes(x);
    if cmask < 256 && flags < 256 && umask < 256 && eventsel < 256 {
      PackedFields(cmask, flags, umask, eventsel);
    }
    hide Pack, MaskVal, MaskRange;
  }

  /** The masks of the four bytes. */
  lemma MaskFields(x: bv64)
    ensures Unpack(x) == ((x & 0xFF000000) >> 24, (x & 0xFF0000) >> 16, (x & 0xFF00) >> 8, x & 0xFF)
  {
    assert MaskRange(31, 24) == 0xFF000000;
    assert MaskRange(23, 16) == 0xFF0000;
    assert MaskRange(15, 8) == 0xFF00;
    assert MaskRange(7, 0) == 0xFF;
  }

  lemma FieldsAreBytes(x: bv64)
    ensures (x & 0xFF000000) >> 24 < 256 && (x & 0xFF0000) >> 16 < 256 && (x & 0xFF00) >> 8 < 256 && x & 0xFF < 256
  {
  }

  lemma PackedFields(cmask: bv64, flags: bv64, umask: bv64, eventsel: bv64)
    requires cmask < 256 && flags < 256 && umask < 256 && eventsel < 256
    ensures var x := Pack(cmask, flags, umask, eventsel);
            && (x & 0xFF000000) >> 24 == cmask && (x & 0xFF0000) >> 16 == flags
            && (x & 0xFF00) >> 8 == umask && x & 0xFF == eventsel
  {
  }

  // ----- frequency caps ------------------------------------------------------------------------

  datatype Domain = SOCKET | CORE | OTHER

  /** The storage after a cap of `n` words: the first call makes it fit, and `inside` says whether the words
      of a later one do. */
  predicate Capped(words: seq<bv64>, before: Option<seq<bv64>>, n: nat, word: bv64, inside: bool) {
    && |words| == (if before.Some? then |before.value| else n)
    && (inside <==> n <= |words|)
    && forall i :: 0 <= i < |words| ==> words[i] == if i < n then word else before.value[i]
  }

  /** Whole hundreds of MHz, truncated toward zero. */
  function Hundreds(mhz: int): int {
    if mhz >= 0 then mhz / 100 else -(-mhz / 100)
  }

  /** The product is of 32-bit integers. */
  predicate ProductFits(mhz: int) {
    -0x8000_0000 <= Hundreds(mhz) * 256 < 0x8000_0000
  }

  /** The word cap_p_state stores for a frequency in MHz; a negative product is sign-extended. */
  function PState(mhz: int): bv64
    requires ProductFits(mhz)
  {
    if mhz >= 0 then (Hundreds(mhz) as bv64) * 256 else 0 - ((-Hundreds(mhz)) as bv64) * 256
  }

  /** The static storage of cap_p_state: allocated by the first call, for that call's domain. */
  class PerfControl {
    var perfCtl: array?<bv64>

    constructor ()
      ensures perfCtl == null
    {
      perfCtl := null;
    }

    /** cap_p_state: one word for each socket or for each thread.  A later call that needs more room than
        the first one allocated writes past the storage, `inside` being false; what that does to other
        memory is undefined. */
    method CapPState(mhz: int, domain: Domain, nsockets: nat, nthreads: nat) returns (inside: bool)
      requires ProductFits(mhz)
      modifies this, perfCtl
      ensures perfCtl != null
      ensures if old(perfCtl) == null then fresh(perfCtl) else perfCtl == old(perfCtl)
      ensures var before := if old(perfCtl) == null then None else Some(old(perfCtl[..]));
              && (domain.SOCKET? ==> Capped(perfCtl[..], before, nsockets, PState(mhz), inside))
              && (domain.CORE? ==> Capped(perfCtl[..], before, nthreads, PState(mhz), inside))
              && (domain.OTHER? ==> Capped(perfCtl[..], before, 0, PState(mhz), inside))
    {
      hide PState, ProductFits;
      if perfCtl == null {
        match domain
        case SOCKET => perfCtl := new bv64[nsockets];
        case CORE => perfCtl := new bv64[nthreads];
        case OTHER => perfCtl := new bv64[0];
      }
      inside := true;
      match domain
      case SOCKET =>
        inside := SetWords(perfCtl, nsockets, mhz);
      case CORE =>
        inside := SetWords(perfCtl, nthreads, mhz);
      case OTHER =>
    }
  }

  /** The loop of either domain, up to the end of the storage. */
  method SetWords(perfCtl: array<bv64>, n: nat, mhz: int) returns (inside: bool)
    requires ProductFits(mhz)
    modifies perfCtl
    ensures inside <==> n <= perfCtl.Length
    ensures forall i :: 0 <= i < perfCtl.Length ==> perfCtl[i] == if i < n then PState(mhz) else old(perfCtl[i])
  {
    hide PState, ProductFits;
    for i := 0 to n
      invariant i <= perfCtl.Length
      invariant forall k :: 0 <= k < perfCtl.Length ==> perfCtl[k] == if k < i then PState(mhz) else old(perfCtl[k])
    {
      if i == perfCtl.Length { return false; }
      perfCtl[i] := PState(mhz);
    }
    inside := true;
  }

  /** The field from which the clock printers show a frequency, in units of 100 MHz. */
  function Ratio(x: bv64): bv64 {
    MaskVal(x, 15, 8)
  }

  /** The word holds the whole hundreds of the request, so that the greatest multiple of 100 not above
      it is shown, exactly when the request is below 25600 MHz: the field has 8 bits. */
  lemma CapDecodes(mhz: nat)
    requires ProductFits(mhz)
    ensures Ratio(PState(mhz)) == (mhz / 100) as bv64 <==> mhz < 25600
  {
    var q := RequestWord(mhz);
    hide Ratio, PState, Hundreds, ProductFits;
    RatioBounded(q);
    RatioField(q as bv64);
    RatioFits(q);
    HundredsBelow(mhz);
  }

  /** For a negative request the field shows 256 less its whole hundreds, modulo 256: some frequency that
      is not negative. */
  lemma NegativeDecodes(mhz: int)
    requires ProductFits(mhz) && mhz < 0
    ensures Ratio(PState(mhz)) == (256 - ((-mhz / 100) as bv64 & 0xFF)) & 0xFF
  {
    var q := NegatedWord(mhz);
    hide Ratio, PState, Hundreds, ProductFits;
    NegatedField(q as bv64);
  }

  /** After a cap every word it covers shows the request; what it does not cover is as before. */
  lemma CapShown(words: seq<bv64>, before: Option<seq<bv64>>, n: nat, mhz: nat, inside: bool, i: nat)
    requires mhz < 25600 && Capped(words, before, n, PState(mhz), inside) && i < |words|
    ensures before.None? ==> |words| == n && inside
    ensures before.Some? ==> |words| == |before.value| && (inside <==> n <= |before.value|)
    ensures i < n ==> Ratio(words[i]) == (mhz / 100) as bv64
    ensures i >= n ==> before.Some? && words[i] == before.value[i]
  {
    hide PState, Ratio;
    CapDecodes(mhz);
  }

  /** Below 25600 MHz nothing but that field is written. */
  lemma OnlyTheField(mhz: nat)
    requires mhz < 25600
    ensures PState(mhz) & 0xFFFF_FFFF_FFFF_00FF == 0
  {
    var q := RequestWord(mhz);
    hide PState, Hundreds, ProductFits;
    RatioFits(q);
    FieldOnly(q as bv64);
  }

  lemma FieldOnly(q: bv64)
    requires q < 256
    ensures (q * 256) & 0xFFFF_FFFF_FFFF_00FF == 0
  {
  }

  lemma NegatedWord(mhz: int) returns (q: nat)
    requires ProductFits(mhz) && mhz < 0
    ensures q == -mhz / 100 && q <= 0x80_0000 && PState(mhz) == 0 - (q as bv64) * 256
  {
    q := -mhz / 100;
  }

  lemma NegatedField(q: bv64)
    ensures Ratio(0 - q * 256) == (256 - (q & 0xFF)) & 0xFF
  {
    assert MaskRange(15, 8) == 0xFF00;
  }

  lemma RequestWord(mhz: nat) returns (q: nat)
    requires ProductFits(mhz)
    ensures q == mhz / 100 && q < 0x80_0000 && PState(mhz) == (q as bv64) * 256
  {
    q := mhz / 100;
  }

  lemma HundredsBelow(mhz: nat)
    ensures mhz / 100 < 256 <==> mhz < 25600
  {
  }

  lemma RatioField(q: bv64)
    requires q < 0x100_0000
    ensures Ratio(q * 256) == q <==> q < 256
  {
    assert MaskRange(15, 8) == 0xFF00;
  }

  lemma RatioFits(q: nat)
    requires q < 0x80_0000
    ensures q as bv64 < 256 <==> q < 256
  {
  }

  lemma RatioBounded(q: nat)
    requires q < 0x80_0000
    ensures q as bv64 < 0x100_0000
  {
  }
}
