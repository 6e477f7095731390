/** Topology guards and the map from (socket, core, thread) to logical threads
    (config_architecture.c and clocks_features.c). */
module Topology {
  import opened Arithmetic

  datatype Result<T> = Ok(value: T) | Exit

  datatype Topology = Topology(nsockets: nat, ncores: nat, nthreads: nat)

  /** The counts a program can work with. */
  predicate Even(t: Topology) {
    && t.nsockets > 0 && t.ncores > 0 && t.nthreads > 0
    && t.ncores % t.nsockets == 0 && t.nthreads % t.ncores == 0
  }

  function CoresPerSocket(t: Topology): nat
    requires t.nsockets > 0
  {
    t.ncores / t.nsockets
  }

  function ThreadsPerCore(t: Topology): nat
    requires t.ncores > 0
  {
    t.nthreads / t.ncores
  }

  /** variorum_get_topology on what hwloc reports: a count, 0 for none, -1 for several levels.  It
      goes on exactly when all counts are there and divide evenly, and exits otherwise. */
  method GetTopology(sockets: int, cores: int, threads: int) returns (r: Result<Topology>)
    requires sockets >= -1 && cores >= -1 && threads >= -1
    ensures r.Ok? <==> sockets > 0 && cores > 0 && threads > 0 && cores % sockets == 0 && threads % cores == 0
    ensures r.Ok? ==> r.value == Topology(sockets, cores, threads) && Even(r.value)
  {
    if sockets == -1 { return Exit; }
    if sockets == 0 { return Exit; }
    if cores == -1 { return Exit; }
    if cores == 0 { return Exit; }
    if threads == -1 { return Exit; }
    if threads == 0 { return Exit; }
    if cores % sockets != 0 { return Exit; }
    if threads % cores != 0 { return Exit; }
    return Ok(Topology(sockets, cores, threads));
  }

  // ----- the index map -------------------------------------------------------------------------

  /** `(k * nsockets * (ncores / nsockets)) + (i * (ncores / nsockets)) + j` */
  function Index(t: Topology, i: nat, j: nat, k: nat): nat
    requires t.nsockets > 0
  {
    k * t.nsockets * CoresPerSocket(t) + i * CoresPerSocket(t) + j
  }

  predicate InRange(t: Topology, i: nat, j: nat, k: nat)
    requires t.nsockets > 0 && t.ncores > 0
  {
    i < t.nsockets && j < CoresPerSocket(t) && k < ThreadsPerCore(t)
  }

  /** `core_freq_index`. */
  function CoreIndex(t: Topology, i: nat, j: nat): nat
    requires t.nsockets > 0
  {
    i * CoresPerSocket(t) + j
  }

  lemma Products(t: Topology)
    requires Even(t)
    ensures t.nsockets * CoresPerSocket(t) == t.ncores && CoresPerSocket(t) > 0
    ensures ThreadsPerCore(t) * t.ncores == t.nthreads && ThreadsPerCore(t) > 0
  {
    DivBounds(t.ncores, t.nsockets);
    DivBounds(t.nthreads, t.ncores);
  }

  lemma Positive(t: Topology)
    requires Even(t)
    ensures CoresPerSocket(t) > 0 && ThreadsPerCore(t) > 0
  {
    Products(t);
  }

  /** Two-digit numbers: `a * base + b` with `b < base` stays below `n * base` for `a < n`, and the
      digits can be read off again. */
  lemma Digits(a: nat, b: nat, base: nat, n: nat)
    requires a < n && b < base
    ensures a * base + b < n * base
    ensures (a * base + b) / base == a && (a * base + b) % base == b
  {
    MulMono(a + 1, n, base);
    AddTimes(a, 1, base);
    DivModUnique(a * base + b, base, a, b);
  }

  lemma IndexDigits(t: Topology, i: nat, j: nat, k: nat)
    requires Even(t) && InRange(t, i, j, k)
    ensures CoreIndex(t, i, j) < t.ncores
    ensures CoreIndex(t, i, j) / CoresPerSocket(t) == i && CoreIndex(t, i, j) % CoresPerSocket(t) == j
    ensures Index(t, i, j, k) == k * t.ncores + CoreIndex(t, i, j) < t.nthreads
    ensures Index(t, i, j, k) / t.ncores == k && Index(t, i, j, k) % t.ncores == CoreIndex(t, i, j)
  {
    Products(t);
    assert k * t.nsockets * CoresPerSocket(t) == k * t.ncores;
    Digits(i, j, CoresPerSocket(t), t.nsockets);
    Digits(k, CoreIndex(t, i, j), t.ncores, ThreadsPerCore(t));
  }

  // ----- the loop nest over all threads --------------------------------------------------------

  /** Where the nest comes to thread k of core j of socket i. */
  function Turn(t: Topology, i: nat, j: nat, k: nat): nat
    requires t.nsockets > 0 && t.ncores > 0
  {
    CoreIndex(t, i, j) * ThreadsPerCore(t) + k
  }

  function DivMod(a: nat, base: nat): (nat, nat)
    requires base > 0
  {
    (a / base, a % base)
  }

  /** The logical thread visited at turn `p`. */
  function VisitedAt(t: Topology, p: nat): nat
    requires Even(t)
  {
    Positive(t);
    var (core, k) := DivMod(p, ThreadsPerCore(t));
    var (i, j) := DivMod(core, CoresPerSocket(t));
    Index(t, i, j, k)
  }

  lemma TurnVisits(t: Topology, i: nat, j: nat, k: nat)
    requires Even(t) && InRange(t, i, j, k)
    ensures VisitedAt(t, Turn(t, i, j, k)) == Index(t, i, j, k)
  {
    Products(t);
    IndexDigits(t, i, j, k);
    Digits(CoreIndex(t, i, j), k, ThreadsPerCore(t), t.ncores);
  }

  /** At turn `p` the nest is at thread `p % ThreadsPerCore` of core `p / ThreadsPerCore`. */
  lemma VisitDigits(t: Topology, p: nat)
    requires Even(t) && p < t.nthreads
    ensures var v := VisitedAt(t, p);
            && v < t.nthreads
            && v / t.ncores == p % ThreadsPerCore(t) && v % t.ncores == p / ThreadsPerCore(t)
  {
    Products(t);
    var core, k := p / ThreadsPerCore(t), p % ThreadsPerCore(t);
    DivBounds(p, ThreadsPerCore(t));
    MulLess(core, t.ncores, ThreadsPerCore(t));
    DivBounds(core, CoresPerSocket(t));
    MulLess(core / CoresPerSocket(t), t.nsockets, CoresPerSocket(t));
    IndexDigits(t, core / CoresPerSocket(t), core % CoresPerSocket(t), k);
  }

  /** The turn at which thread `v` is visited. */
  lemma TurnOf(t: Topology, v: nat) returns (p: nat)
    requires Even(t) && v < t.nthreads
    ensures p < t.nthreads && VisitedAt(t, p) == v
  {
    Products(t);
    var k, core := v / t.ncores, v % t.ncores;
    DivBounds(v, t.ncores);
    MulLess(k, ThreadsPerCore(t), t.ncores);
    Digits(core, k, ThreadsPerCore(t), t.ncores);
    p := core * ThreadsPerCore(t) + k;
    VisitDigits(t, p);
    SameDigits(VisitedAt(t, p), v, t.ncores);
  }

  lemma SameDigits(a: nat, b: nat, base: nat)
    requires base > 0 && a / base == b / base && a % base == b % base
    ensures a == b
  {
  }

  /** A list that holds every number below `n` exactly once. */
  predicate EachOnce(s: seq<nat>, n: nat) {
    && |s| == n
    && (forall p :: 0 <= p < n ==> s[p] < n)
    && (forall p, q :: 0 <= p < q < n ==> s[p] != s[q])
    && (forall v :: 0 <= v < n ==> v in s)
  }

  lemma VisitsEachOnce(t: Topology, s: seq<nat>)
    requires Even(t) && |s| == t.nthreads
    requires forall p :: 0 <= p < |s| ==> s[p] == VisitedAt(t, p)
    ensures EachOnce(s, t.nthreads)
  {
    hide VisitedAt;
    Products(t);
    forall p | 0 <= p < |s|
      ensures s[p] < t.nthreads
      ensures s[p] / t.ncores == p % ThreadsPerCore(t) && s[p] % t.ncores == p / ThreadsPerCore(t)
    {
      VisitDigits(t, p);
    }
    forall p, q | 0 <= p < q < |s|
      ensures s[p] != s[q]
    {
      if s[p] == s[q] { SameDigits(p, q, ThreadsPerCore(t)); }
    }
    forall v | 0 <= v < t.nthreads
      ensures v in s
    {
      var p := TurnOf(t, v);
      assert s[p] == v;
    }
  }

  /** The per-core nest visits every logical thread exactly once and stays in bounds. */
  method CoreNest(t: Topology) returns (visits: seq<nat>)
    requires Even(t)
    ensures EachOnce(visits, t.nthreads)
  {
    hide VisitedAt, CoreIndex;
    visits := [];
    Products(t);
    var cores, threads := t.ncores / t.nsockets, t.nthreads / t.ncores;
    var i := 0;
    TurnStart(t);
    while i < t.nsockets
      invariant i <= t.nsockets && |visits| == Turn(t, i, 0, 0)
      invariant forall p :: 0 <= p < |visits| ==> visits[p] == VisitedAt(t, p)
    {
      var j := 0;
      while j < cores
        invariant j <= cores && |visits| == Turn(t, i, j, 0)
        invariant forall p :: 0 <= p < |visits| ==> visits[p] == VisitedAt(t, p)
      {
        var k := 0;
        while k < threads
          invariant k <= threads && |visits| == Turn(t, i, j, k)
          invariant forall p :: 0 <= p < |visits| ==> visits[p] == VisitedAt(t, p)
        {
          var idx := k * t.nsockets * (t.ncores / t.nsockets) + i * (t.ncores / t.nsockets) + j;
          TurnVisits(t, i, j, k);
          visits := visits + [idx];
          k := k + 1;
        }
        TurnCarries(t, i, j);
        j := j + 1;
      }
      TurnCarriesSocket(t, i);
      i := i + 1;
    }
    VisitsEachOnce(t, visits);
  }

  lemma TurnStart(t: Topology)
    requires Even(t)
    ensures Turn(t, 0, 0, 0) == 0 && Turn(t, t.nsockets, 0, 0) == t.nthreads
  {
    Products(t);
    assert t.ncores * ThreadsPerCore(t) == ThreadsPerCore(t) * t.ncores;
  }

  lemma TurnCarries(t: Topology, i: nat, j: nat)
    requires Even(t)
    ensures Turn(t, i, j, ThreadsPerCore(t)) == Turn(t, i, j + 1, 0)
  {
    AddTimes(CoreIndex(t, i, j), 1, ThreadsPerCore(t));
  }

  lemma TurnCarriesSocket(t: Topology, i: nat)
    requires Even(t)
    ensures Turn(t, i, CoresPerSocket(t), 0) == Turn(t, i + 1, 0, 0)
  {
    AddTimes(i, 1, CoresPerSocket(t));
  }

  /** The per-socket nest visits one thread of each socket, the first thread of its first core. */
  method SocketNest(t: Topology) returns (visits: seq<nat>)
    requires Even(t)
    ensures |visits| == t.nsockets
    ensures forall i :: 0 <= i < |visits| ==>
              && visits[i] == Index(t, i, 0, 0) < t.nthreads
              && (visits[i] % t.ncores) / CoresPerSocket(t) == i
  {
    visits := [];
    Products(t);
    var cores, threads := t.ncores / t.nsockets, t.nthreads / t.ncores;
    for i := 0 to t.nsockets
      invariant |visits| == i
      invariant forall s :: 0 <= s < i ==>
                  && visits[s] == Index(t, s, 0, 0) < t.nthreads
                  && (visits[s] % t.ncores) / CoresPerSocket(t) == s
    {
      var j := 0;
      while j < cores
        invariant j == 0 || j == cores
        invariant |visits| == if j == 0 then i else i + 1
        invariant forall s :: 0 <= s < |visits| ==>
                    && visits[s] == Index(t, s, 0, 0) < t.nthreads
                    && (visits[s] % t.ncores) / CoresPerSocket(t) == s
      {
        var k := 0;
        while k < threads
          invariant k == 0 || k == threads
          invariant |visits| == if k == 0 then i else i + 1
          invariant forall s :: 0 <= s < |visits| ==>
                      && visits[s] == Index(t, s, 0, 0) < t.nthreads
                      && (visits[s] % t.ncores) / CoresPerSocket(t) == s
        {
          IndexDigits(t, i, j, k);
          visits := visits + [k * t.nsockets * (t.ncores / t.nsockets) + i * (t.ncores / t.nsockets) + j];
          k := k + t.nthreads / t.ncores;
        }
        j := j + t.ncores / t.nsockets;
      }
    }
  }

  // ----- average frequencies -------------------------------------------------------------------

  /** A floating-point number that may be infinite or not a number, in which case there is no value. */
  datatype Float = NoNumber | Number(value: real)

  function Plus(a: Float, b: Float): Float {
    if a.Number? && b.Number? then Number(a.value + b.value) else NoNumber
  }

  function Over(a: Float, b: real): Float
    requires b != 0.0
  {
    if a.Number? then Number(a.value / b) else NoNumber
  }

  /** The frequency of one logical thread: `max_non_turbo_ratio * (aperf / mperf)`, over the reals; no
      value for a counter that has not ticked. */
  function ThreadFreq(ratio: real, aperf: seq<real>, mperf: seq<real>, idx: nat): Float
    requires idx < |aperf| == |mperf|
  {
    if mperf[idx] == 0.0 then NoNumber else Number(ratio * (aperf[idx] / mperf[idx]))
  }

  /** What the loop reads: one pair of counters for every logical thread. */
  predicate CountersOk(t: Topology, aperf: seq<real>, mperf: seq<real>) {
    |aperf| == |mperf| == t.nthreads
  }

  /** Sum over the first `n` hardware threads of a core, which are `ncores` apart. */
  function CoreSum(t: Topology, ratio: real, aperf: seq<real>, mperf: seq<real>, core: nat, n: nat): Float
    requires Even(t) && CountersOk(t, aperf, mperf) && core < t.ncores && n <= ThreadsPerCore(t)
  {
    if n == 0 then Number(0.0) else
      ThreadInBounds(t, core, n - 1);
      Plus(CoreSum(t, ratio, aperf, mperf, core, n - 1), ThreadFreq(ratio, aperf, mperf, (n - 1) * t.ncores + core))
  }

  lemma ThreadInBounds(t: Topology, core: nat, k: nat)
    requires Even(t) && core < t.ncores && k < ThreadsPerCore(t)
    ensures k * t.ncores + core < t.nthreads
  {
    Products(t);
    Digits(k, core, t.ncores, ThreadsPerCore(t));
  }

  /** The value get_clocks_data_json stores for a core. */
  function CoreFreq(t: Topology, ratio: real, aperf: seq<real>, mperf: seq<real>, core: nat): Float
    requires Even(t) && CountersOk(t, aperf, mperf) && core < t.ncores
  {
    Over(CoreSum(t, ratio, aperf, mperf, core, ThreadsPerCore(t)), 2.0)
  }

  /** Sum of the first `n` core values of socket `i`. */
  function SocketSum(t: Topology, ratio: real, aperf: seq<real>, mperf: seq<real>, i: nat, n: nat): Float
    requires Even(t) && CountersOk(t, aperf, mperf) && i < t.nsockets && n <= CoresPerSocket(t)
  {
    if n == 0 then Number(0.0) else
      CoreInBounds(t, i, n - 1);
      Plus(SocketSum(t, ratio, aperf, mperf, i, n - 1), CoreFreq(t, ratio, aperf, mperf, CoreIndex(t, i, n - 1)))
  }

  /** Cores are numbered socket by socket. */
  function SocketOf(t: Topology, core: nat): nat
    requires Even(t)
  {
    Positive(t);
    core / (t.ncores / t.nsockets)
  }

  lemma CoreInBounds(t: Topology, i: nat, j: nat)
    requires Even(t) && i < t.nsockets && j < CoresPerSocket(t)
    ensures CoreIndex(t, i, j) < t.ncores && SocketOf(t, CoreIndex(t, i, j)) == i
  {
    Products(t);
    IndexDigits(t, i, j, 0);
  }

  function SocketAverage(t: Topology, ratio: real, aperf: seq<real>, mperf: seq<real>, i: nat): Float
    requires Even(t) && CountersOk(t, aperf, mperf) && i < t.nsockets
  {
    Positive(t);
    Over(SocketSum(t, ratio, aperf, mperf, i, CoresPerSocket(t)), CoresPerSocket(t) as real)
  }

  /** get_clocks_data_json: the nest adds every thread's frequency to its own core's entry, in place,
      and each core's value to its own socket's average. */
  method GetClocksData(t: Topology, ratio: real, aperf: seq<real>, mperf: seq<real>)
      returns (freqs: array<Float>, averages: seq<Float>)
    requires Even(t) && CountersOk(t, aperf, mperf)
    ensures freqs.Length == t.ncores
    ensures forall c :: 0 <= c < t.ncores ==> freqs[c] == CoreFreq(t, ratio, aperf, mperf, c)
    ensures |averages| == t.nsockets
    ensures forall i :: 0 <= i < t.nsockets ==>
              averages[i] == SocketAverage(t, ratio, aperf, mperf, i)
  {
    hide Index;
    Products(t);
    var cores := t.ncores / t.nsockets;
    freqs := new Float[t.ncores](_ => Number(0.0));
    averages := [];
    for i := 0 to t.nsockets
      invariant |averages| == i
      invariant forall c :: 0 <= c < CoreIndex(t, i, 0) && c < t.ncores ==> freqs[c] == CoreFreq(t, ratio, aperf, mperf, c)
      invariant forall c :: CoreIndex(t, i, 0) <= c < t.ncores ==> freqs[c] == Number(0.0)
      invariant forall s :: 0 <= s < i ==>
                  averages[s] == SocketAverage(t, ratio, aperf, mperf, s)
    {
      var average := Number(0.0);
      for j := 0 to cores
        invariant average == SocketSum(t, ratio, aperf, mperf, i, j)
        invariant forall c :: 0 <= c < CoreIndex(t, i, j) && c < t.ncores ==> freqs[c] == CoreFreq(t, ratio, aperf, mperf, c)
        invariant forall c :: CoreIndex(t, i, j) <= c < t.ncores ==> freqs[c] == Number(0.0)
      {
        var core := i * (t.ncores / t.nsockets) + j;
        CoreInBounds(t, i, j);
        AddThreads(t, ratio, aperf, mperf, i, j, freqs);
        freqs[core] := Over(freqs[core], 2.0);
        average := Plus(average, freqs[core]);
      }
      AddTimes(i, 1, CoresPerSocket(t));
      averages := averages + [Over(average, cores as real)];
    }
    assert CoreIndex(t, t.nsockets, 0) == t.ncores;
  }

  lemma CoreSumStarts(t: Topology, ratio: real, aperf: seq<real>, mperf: seq<real>, core: nat)
    requires Even(t) && CountersOk(t, aperf, mperf) && core < t.ncores
    ensures CoreSum(t, ratio, aperf, mperf, core, 0) == Number(0.0)
    ensures t.nsockets > 0 && t.ncores > 0
  {
  }

  lemma CoreSumGoesOn(t: Topology, ratio: real, aperf: seq<real>, mperf: seq<real>, core: nat, k: nat)
    requires Even(t) && CountersOk(t, aperf, mperf) && core < t.ncores && k < ThreadsPerCore(t)
    ensures var idx := k * t.ncores + core;
            && idx < |aperf| == |mperf|
            && CoreSum(t, ratio, aperf, mperf, core, k + 1)
               == Plus(CoreSum(t, ratio, aperf, mperf, core, k), ThreadFreq(ratio, aperf, mperf, idx))
  {
    ThreadInBounds(t, core, k);
    hide ThreadFreq, Plus;
  }

  /** The innermost loop, over the threads of one core. */
  method AddThreads(t: Topology, ratio: real, aperf: seq<real>, mperf: seq<real>, i: nat, j: nat, freqs: array<Float>)
    requires Even(t) && CountersOk(t, aperf, mperf) && InRange(t, i, j, 0)
    requires freqs.Length == t.ncores && CoreIndex(t, i, j) < t.ncores && freqs[CoreIndex(t, i, j)] == Number(0.0)
    modifies freqs
    ensures var c := CoreIndex(t, i, j);
            freqs[..] == old(freqs[..])[c := CoreSum(t, ratio, aperf, mperf, c, ThreadsPerCore(t))]
  {
    hide CoreSum, ThreadFreq, Plus, CountersOk, Even;
    var core := i * (t.ncores / t.nsockets) + j;
    CoreSumStarts(t, ratio, aperf, mperf, core);
    for k := 0 to t.nthreads / t.ncores
      invariant freqs[..] == old(freqs[..])[core := CoreSum(t, ratio, aperf, mperf, core, k)]
    {
      IndexDigits(t, i, j, k);
      var idx := k * t.nsockets * (t.ncores / t.nsockets) + i * (t.ncores / t.nsockets) + j;
      CoreSumGoesOn(t, ratio, aperf, mperf, core, k);
      freqs[core] := Plus(freqs[core], ThreadFreq(ratio, aperf, mperf, idx));
    }
  }

  // ----- the frequencies in numbers ------------------------------------------------------------

  function Total(xs: seq<real>): real {
    if xs == [] then 0.0 else Total(xs[..|xs| - 1]) + xs[|xs| - 1]
  }

  lemma {:induction false} TotalScales(q: real, xs: seq<real>, ys: seq<real>)
    requires |xs| == |ys| && forall k :: 0 <= k < |xs| ==> ys[k] == q * xs[k]
    ensures Total(ys) == q * Total(xs)
  {
    if xs != [] {
      var n := |xs| - 1;
      TotalScales(q, xs[..n], ys[..n]);
      RatioAdds(q, Total(xs[..n]), xs[n]);
    }
  }

  lemma RatioAdds(q: real, a: real, b: real)
    ensures q * (a + b) == q * a + q * b
  {
  }

  lemma Multiplied(q: real, a: real, b: real)
    requires a == b
    ensures q * a == q * b
  {
  }

  lemma DividedTimes(a: real, b: real)
    requires b != 0.0
    ensures a / b * b == a
  {
  }

  lemma SameFactor(a: real, b: real, c: real)
    requires c != 0.0 && a * c == b * c
    ensures a == b
  {
    assert (a - b) * c == 0.0;
  }

  /** The thread's counters have ticked, and their quotient is `r`. */
  predicate Ticked(aperf: seq<real>, mperf: seq<real>, idx: nat, r: real) {
    idx < |aperf| == |mperf| && mperf[idx] != 0.0 && aperf[idx] == r * mperf[idx]
  }

  /** A thread's frequency times its mperf is the ratio times its aperf. */
  lemma ThreadExactly(ratio: real, aperf: seq<real>, mperf: seq<real>, idx: nat)
    requires idx < |aperf| == |mperf| && mperf[idx] != 0.0
    ensures var f := ThreadFreq(ratio, aperf, mperf, idx); f.Number? && f.value * mperf[idx] == ratio * aperf[idx]
  {
    RatioTimes(ratio, aperf[idx], mperf[idx]);
  }

  lemma RatioTimes(ratio: real, a: real, m: real)
    requires m != 0.0
    ensures ratio * (a / m) * m == ratio * a
  {
    var q := a / m;
    DividedTimes(a, m);
    Multiplied(ratio, q * m, a);
  }

  lemma TickedFreq(ratio: real, aperf: seq<real>, mperf: seq<real>, idx: nat, r: real)
    requires Ticked(aperf, mperf, idx, r)
    ensures ThreadFreq(ratio, aperf, mperf, idx) == Number(ratio * r)
  {
    DividedTimes(aperf[idx], mperf[idx]);
    SameFactor(aperf[idx] / mperf[idx], r, mperf[idx]);
  }

  /** If thread `k` of a core, the one numbered `k * ncores + core`, shows the quotient `r[k]`, the core's
      entry is the ratio times half the sum of the quotients. */
  lemma CoreFreqIs(t: Topology, ratio: real, aperf: seq<real>, mperf: seq<real>, core: nat, r: seq<real>)
    requires Even(t) && CountersOk(t, aperf, mperf) && core < t.ncores && |r| == t.nthreads / t.ncores
    requires forall k :: 0 <= k < |r| ==> Ticked(aperf, mperf, k * t.ncores + core, r[k])
    ensures CoreFreq(t, ratio, aperf, mperf, core) == Number(ratio * Total(r) / 2.0)
  {
    var values := seq(|r|, k requires 0 <= k < |r| => ratio * r[k]);
    hide CoreSum, Total, Ticked, ThreadFreq;
    forall k | 0 <= k < |r|
      ensures ThreadIs(t, ratio, aperf, mperf, k * t.ncores + core, values[k])
    {
      ThreadInBounds(t, core, k);
      TickedFreq(ratio, aperf, mperf, k * t.ncores + core, r[k]);
    }
    TotalScales(ratio, r, values);
    CoreSumIs(t, ratio, aperf, mperf, core, values, |r|);
    assert values[..|r|] == values;
  }

  /** The frequency of a logical thread is `v`. */
  predicate ThreadIs(t: Topology, ratio: real, aperf: seq<real>, mperf: seq<real>, idx: nat, v: real)
    requires CountersOk(t, aperf, mperf)
  {
    idx < t.nthreads && ThreadFreq(ratio, aperf, mperf, idx) == Number(v)
  }

  lemma {:induction false} CoreSumIs(t: Topology, ratio: real, aperf: seq<real>, mperf: seq<real>, core: nat,
                                     v: seq<real>, n: nat)
    requires Even(t) && CountersOk(t, aperf, mperf) && core < t.ncores && n <= |v| == ThreadsPerCore(t)
    requires forall k :: 0 <= k < |v| ==> ThreadIs(t, ratio, aperf, mperf, k * t.ncores + core, v[k])
    ensures CoreSum(t, ratio, aperf, mperf, core, n) == Number(Total(v[..n]))
  {
    if n > 0 {
      CoreSumIs(t, ratio, aperf, mperf, core, v, n - 1);
      assert ThreadIs(t, ratio, aperf, mperf, (n - 1) * t.ncores + core, v[n - 1]);
      assert v[..n][..n - 1] == v[..n - 1];
      hide ThreadFreq;
    }
  }

  /** If core `j` of socket `i`, the one numbered `i * (ncores / nsockets) + j`, has the entry `f[j]`, the
      socket's average times its number of cores is the sum of these entries. */
  lemma SocketAverageIs(t: Topology, ratio: real, aperf: seq<real>, mperf: seq<real>, i: nat, f: seq<real>)
    requires Even(t) && CountersOk(t, aperf, mperf) && i < t.nsockets && |f| == t.ncores / t.nsockets
    requires forall j :: 0 <= j < |f| ==> CoreIs(t, ratio, aperf, mperf, i * (t.ncores / t.nsockets) + j, f[j])
    ensures var average := SocketAverage(t, ratio, aperf, mperf, i);
            average.Number? && average.value * (t.ncores / t.nsockets) as real == Total(f)
  {
    hide SocketSum, Total, CoreIs;
    Positive(t);
    SocketSumIs(t, ratio, aperf, mperf, i, f, |f|);
    assert f[..|f|] == f;
    DividedTimes(Total(f), |f| as real);
  }

  /** The entry of a core is `f`. */
  predicate CoreIs(t: Topology, ratio: real, aperf: seq<real>, mperf: seq<real>, core: nat, f: real)
    requires Even(t) && CountersOk(t, aperf, mperf)
  {
    core < t.ncores && CoreFreq(t, ratio, aperf, mperf, core) == Number(f)
  }

  lemma {:induction false} SocketSumIs(t: Topology, ratio: real, aperf: seq<real>, mperf: seq<real>, i: nat,
                                       f: seq<real>, n: nat)
    requires Even(t) && CountersOk(t, aperf, mperf) && i < t.nsockets && n <= |f| == CoresPerSocket(t)
    requires forall j :: 0 <= j < |f| ==> CoreIs(t, ratio, aperf, mperf, i * CoresPerSocket(t) + j, f[j])
    ensures SocketSum(t, ratio, aperf, mperf, i, n) == Number(Total(f[..n]))
  {
    if n > 0 {
      SocketSumIs(t, ratio, aperf, mperf, i, f, n - 1);
      assert CoreIs(t, ratio, aperf, mperf, i * CoresPerSocket(t) + (n - 1), f[n - 1]);
      assert f[..n][..n - 1] == f[..n - 1];
      hide CoreFreq;
    }
  }

  function Times(r: real, n: nat): seq<real> {
    seq(n, _ => r)
  }

  lemma {:induction false} TotalOfEqual(r: real, n: nat)
    ensures Total(Times(r, n)) == r * n as real
  {
    if n > 0 {
      TotalOfEqual(r, n - 1);
      assert Times(r, n)[..n - 1] == Times(r, n - 1);
      RatioAdds(r, (n - 1) as real, 1.0);
    }
  }

  /** All threads run at `r` times the base frequency. */
  predicate AllTicked(t: Topology, aperf: seq<real>, mperf: seq<real>, r: real) {
    forall idx :: 0 <= idx < t.nthreads ==> Ticked(aperf, mperf, idx, r)
  }

  /** On a machine whose threads all run at `r` times the base frequency, every core's entry and every
      socket's average is the ratio times `r`, times half the number of threads of a core. */
  lemma SameClock(t: Topology, ratio: real, aperf: seq<real>, mperf: seq<real>, r: real)
    requires Even(t) && CountersOk(t, aperf, mperf) && AllTicked(t, aperf, mperf, r)
    ensures var f := ratio * (r * (t.nthreads / t.ncores) as real) / 2.0;
            && (forall c :: 0 <= c < t.ncores ==> CoreFreq(t, ratio, aperf, mperf, c) == Number(f))
            && forall i :: 0 <= i < t.nsockets ==> SocketAverage(t, ratio, aperf, mperf, i) == Number(f)
  {
    hide CoreFreq, SocketAverage, AllTicked;
    ghost var f := ratio * (r * (t.nthreads / t.ncores) as real) / 2.0;
    forall c | 0 <= c < t.ncores
      ensures CoreFreq(t, ratio, aperf, mperf, c) == Number(f)
    {
      SameClockCore(t, ratio, aperf, mperf, r, c);
    }
    forall i | 0 <= i < t.nsockets
      ensures SocketAverage(t, ratio, aperf, mperf, i) == Number(f)
    {
      SameSocket(t, ratio, aperf, mperf, i, f);
    }
  }

  lemma SameClockCore(t: Topology, ratio: real, aperf: seq<real>, mperf: seq<real>, r: real, core: nat)
    requires Even(t) && CountersOk(t, aperf, mperf) && core < t.ncores && AllTicked(t, aperf, mperf, r)
    ensures CoreFreq(t, ratio, aperf, mperf, core) == Number(ratio * (r * (t.nthreads / t.ncores) as real) / 2.0)
  {
    hide CoreFreq, Ticked, Total;
    ghost var n := ThreadsPerCore(t);
    forall k | 0 <= k < n
      ensures Ticked(aperf, mperf, k * t.ncores + core, Times(r, n)[k])
    {
      ThreadInBounds(t, core, k);
    }
    CoreFreqIs(t, ratio, aperf, mperf, core, Times(r, n));
    TotalOfEqual(r, n);
  }

  /** If every core of a socket has the entry `f`, the average is `f`. */
  lemma SameSocket(t: Topology, ratio: real, aperf: seq<real>, mperf: seq<real>, i: nat, f: real)
    requires Even(t) && CountersOk(t, aperf, mperf) && i < t.nsockets
    requires forall c :: 0 <= c < t.ncores && SocketOf(t, c) == i ==> CoreFreq(t, ratio, aperf, mperf, c) == Number(f)
    ensures SocketAverage(t, ratio, aperf, mperf, i) == Number(f)
  {
    hide CoreFreq, SocketAverage, Total;
    ghost var n := CoresPerSocket(t);
    Positive(t);
    forall j | 0 <= j < n
      ensures CoreIs(t, ratio, aperf, mperf, i * n + j, Times(f, n)[j])
    {
      CoreInBounds(t, i, j);
    }
    SocketAverageIs(t, ratio, aperf, mperf, i, Times(f, n));
    TotalOfEqual(f, n);
    SameFactor(SocketAverage(t, ratio, aperf, mperf, i).value, f, n as real);
  }

  function Scaled(q: real, f: Float): Float {
    if f.Number? then Number(q * f.value) else NoNumber
  }

  /** Core entries scale with the ratio, also where there is no value. */
  lemma CoreScales(t: Topology, q: real, ratio: real, aperf: seq<real>, mperf: seq<real>, core: nat)
    requires Even(t) && CountersOk(t, aperf, mperf) && core < t.ncores
    ensures CoreFreq(t, q * ratio, aperf, mperf, core) == Scaled(q, CoreFreq(t, ratio, aperf, mperf, core))
  {
    hide CoreSum, Scaled, Over;
    CoreSumScales(t, q, ratio, aperf, mperf, core, ThreadsPerCore(t));
    ScaledOver(q, CoreSum(t, ratio, aperf, mperf, core, ThreadsPerCore(t)), 2.0);
  }

  /** So do the averages. */
  lemma SocketScales(t: Topology, q: real, ratio: real, aperf: seq<real>, mperf: seq<real>, i: nat)
    requires Even(t) && CountersOk(t, aperf, mperf) && i < t.nsockets
    ensures SocketAverage(t, q * ratio, aperf, mperf, i) == Scaled(q, SocketAverage(t, ratio, aperf, mperf, i))
  {
    hide SocketSum, Scaled, Over;
    Positive(t);
    SocketSumScales(t, q, ratio, aperf, mperf, i, CoresPerSocket(t));
    ScaledOver(q, SocketSum(t, ratio, aperf, mperf, i, CoresPerSocket(t)), CoresPerSocket(t) as real);
  }

  lemma ScaledOver(q: real, f: Float, b: real)
    requires b != 0.0
    ensures Over(Scaled(q, f), b) == Scaled(q, Over(f, b))
  {
    if f.Number? {
      RatioTimes(q, f.value, b);
      DividedTimes(q * f.value, b);
      SameFactor(q * f.value / b, q * (f.value / b), b);
    }
  }

  lemma ScaledPlus(q: real, f: Float, g: Float)
    ensures Plus(Scaled(q, f), Scaled(q, g)) == Scaled(q, Plus(f, g))
  {
    if f.Number? && g.Number? { RatioAdds(q, f.value, g.value); }
  }

  lemma {:induction false} CoreSumScales(t: Topology, q: real, ratio: real, aperf: seq<real>, mperf: seq<real>,
                                         core: nat, n: nat)
    requires Even(t) && CountersOk(t, aperf, mperf) && core < t.ncores && n <= ThreadsPerCore(t)
    ensures CoreSum(t, q * ratio, aperf, mperf, core, n) == Scaled(q, CoreSum(t, ratio, aperf, mperf, core, n))
  {
    if n > 0 {
      CoreSumScales(t, q, ratio, aperf, mperf, core, n - 1);
      ThreadInBounds(t, core, n - 1);
      var idx := (n - 1) * t.ncores + core;
      ThreadScales(q, ratio, aperf, mperf, idx);
      ScaledPlus(q, CoreSum(t, ratio, aperf, mperf, core, n - 1), ThreadFreq(ratio, aperf, mperf, idx));
      hide ThreadFreq, Plus, Scaled, Even, CountersOk;
    } else {
      assert q * 0.0 == 0.0;
    }
  }

  lemma ThreadScales(q: real, ratio: real, aperf: seq<real>, mperf: seq<real>, idx: nat)
    requires idx < |aperf| == |mperf|
    ensures ThreadFreq(q * ratio, aperf, mperf, idx) == Scaled(q, ThreadFreq(ratio, aperf, mperf, idx))
  {
    if mperf[idx] != 0.0 { Associative(q, ratio, aperf[idx] / mperf[idx]); }
  }

  lemma Associative(a: real, b: real, c: real)
    ensures a * b * c == a * (b * c)
  {
  }

  lemma {:induction false} SocketSumScales(t: Topology, q: real, ratio: real, aperf: seq<real>, mperf: seq<real>,
                                           i: nat, n: nat)
    requires Even(t) && CountersOk(t, aperf, mperf) && i < t.nsockets && n <= CoresPerSocket(t)
    ensures SocketSum(t, q * ratio, aperf, mperf, i, n) == Scaled(q, SocketSum(t, ratio, aperf, mperf, i, n))
  {
    if n > 0 {
      SocketSumScales(t, q, ratio, aperf, mperf, i, n - 1);
      CoreInBounds(t, i, n - 1);
      var core := CoreIndex(t, i, n - 1);
      CoreScales(t, q, ratio, aperf, mperf, core);
      ScaledPlus(q, SocketSum(t, ratio, aperf, mperf, i, n - 1), CoreFreq(t, ratio, aperf, mperf, core));
      hide CoreFreq, Plus, Scaled, CoreIndex;
    } else {
      assert q * 0.0 == 0.0;
    }
  }

  /** A core has no value exactly if one of its threads has not ticked. */
  lemma {:induction false} NoValueExactly(t: Topology, ratio: real, aperf: seq<real>, mperf: seq<real>, core: nat, n: nat)
    requires Even(t) && CountersOk(t, aperf, mperf) && core < t.ncores && n <= ThreadsPerCore(t)
    ensures CoreSum(t, ratio, aperf, mperf, core, n) == NoNumber <==> exists k :: 0 <= k < n && Stopped(t, mperf, core, k)
  {
    if n > 0 {
      NoValueExactly(t, ratio, aperf, mperf, core, n - 1);
      ThreadInBounds(t, core, n - 1);
      assert ThreadFreq(ratio, aperf, mperf, (n - 1) * t.ncores + core) == NoNumber <==> Stopped(t, mperf, core, n - 1);
      hide Stopped, ThreadFreq;
    }
  }

  /** A socket has no average exactly if one of its cores has no value. */
  lemma {:induction false} NoAverageExactly(t: Topology, ratio: real, aperf: seq<real>, mperf: seq<real>, i: nat, n: nat)
    requires Even(t) && CountersOk(t, aperf, mperf) && i < t.nsockets && n <= CoresPerSocket(t)
    ensures SocketSum(t, ratio, aperf, mperf, i, n) == NoNumber
            <==> exists j :: 0 <= j < n && NoEntry(t, ratio, aperf, mperf, CoreIndex(t, i, j))
  {
    if n > 0 {
      NoAverageExactly(t, ratio, aperf, mperf, i, n - 1);
      CoreInBounds(t, i, n - 1);
      assert CoreFreq(t, ratio, aperf, mperf, CoreIndex(t, i, n - 1)) == NoNumber
             <==> NoEntry(t, ratio, aperf, mperf, CoreIndex(t, i, n - 1));
      hide CoreFreq, NoEntry;
    }
  }

  predicate NoEntry(t: Topology, ratio: real, aperf: seq<real>, mperf: seq<real>, core: nat)
    requires Even(t) && CountersOk(t, aperf, mperf)
  {
    core < t.ncores && CoreFreq(t, ratio, aperf, mperf, core) == NoNumber
  }

  /** Thread `k` of the core shows an mperf of 0. */
  predicate Stopped(t: Topology, mperf: seq<real>, core: nat, k: nat) {
    k * t.ncores + core < |mperf| && mperf[k * t.ncores + core] == 0.0
  }

  /** The division by 2 makes this the mean over the core's threads exactly on cores with two threads,
      apart from a sum of 0. */
  lemma MeanExactly(t: Topology, ratio: real, aperf: seq<real>, mperf: seq<real>, core: nat)
    requires Even(t) && CountersOk(t, aperf, mperf) && core < t.ncores
    ensures var sum := CoreSum(t, ratio, aperf, mperf, core, ThreadsPerCore(t));
            ThreadsPerCore(t) > 0
            && (CoreFreq(t, ratio, aperf, mperf, core) == Over(sum, ThreadsPerCore(t) as real)
                <==> ThreadsPerCore(t) == 2 || sum == Number(0.0) || sum == NoNumber)
  {
    Positive(t);
    var sum := CoreSum(t, ratio, aperf, mperf, core, ThreadsPerCore(t));
    if sum.Number? {
      HalfIsMean(sum.value, ThreadsPerCore(t));
    }
  }

  lemma HalfIsMean(sum: real, n: nat)
    requires n > 0
    ensures sum / 2.0 == sum / n as real <==> n == 2 || sum == 0.0
  {
    var q := sum / n as real;
    assert q * n as real == sum;
    if sum / 2.0 == q {
      assert q * 2.0 == sum;
      assert q * (n as real - 2.0) == 0.0;
    }
  }
}
