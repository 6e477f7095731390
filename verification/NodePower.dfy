/** The node's power report: AMD CPU sockets, AMD GPUs and the dispatch over platforms (epyc.c,
    amd_gpu_power_features.c, variorum.c).

    The JSON object of the node is a record with a map from socket numbers to socket objects; the keys
    "socket_<i>" and "GPU_<d>" are their numbers.  Both management libraries are parameters.
 */
module NodePower {
  import opened Arithmetic
  import opened Options

  datatype SocketObject = SocketObject(cpuWatts: Option<real>, memWatts: Option<real>, gpu: Option<map<nat, real>>)

  datatype NodeObject = NodeObject(sockets: map<nat, SocketObject>, nodeWatts: Option<real>, gpusPerSocket: Option<nat>)

  const EMPTY_SOCKET := SocketObject(None, None, None)

  /** The answer for a socket: return code (0 is success) and milliwatts. */
  datatype CpuReading = CpuReading(ret: int, milliwatts: nat)

  // ----- CPU sockets ---------------------------------------------------------------------------

  function CpuWatts(r: CpuReading): real {
    r.milliwatts as real / 1000.0
  }

  /** Watts of the first `n` sockets. */
  function CpuTotal(rs: seq<CpuReading>, n: nat): real
    requires n <= |rs|
  {
    if n == 0 then 0.0 else CpuTotal(rs, n - 1) + CpuWatts(rs[n - 1])
  }

  /** Each of the first `n` sockets gets a new object. */
  function CpuSockets(sockets: map<nat, SocketObject>, rs: seq<CpuReading>, n: nat): map<nat, SocketObject>
    requires n <= |rs|
  {
    if n == 0 then sockets
    else CpuSockets(sockets, rs, n - 1)[n - 1 := SocketObject(Some(CpuWatts(rs[n - 1])), Some(-1.0), None)]
  }

  /** How many sockets are read before the first failure. */
  function ReadBefore(rs: seq<CpuReading>): (n: nat)
    ensures n <= |rs| && (forall i :: 0 <= i < n ==> rs[i].ret == 0) && (n < |rs| ==> rs[n].ret != 0)
  {
    if rs == [] || rs[0].ret != 0 then 0 else 1 + ReadBefore(rs[1..])
  }

  lemma {:induction false} ReadBeforeIs(rs: seq<CpuReading>, n: nat)
    requires n <= |rs| && (forall i :: 0 <= i < n ==> rs[i].ret == 0) && (n < |rs| ==> rs[n].ret != 0)
    ensures ReadBefore(rs) == n
  {
    if n > 0 { ReadBeforeIs(rs[1..], n - 1); }
  }

  /** The node after the CPU platform's turn: at a failure the socket's object is left empty and the
      node's total is not set. */
  function AfterCpu(node: NodeObject, rs: seq<CpuReading>): NodeObject {
    var n := ReadBefore(rs);
    var sockets := CpuSockets(node.sockets, rs, n);
    if n < |rs| then node.(sockets := sockets[n := EMPTY_SOCKET])
    else node.(sockets := sockets, nodeWatts := Some(CpuTotal(rs, n)))
  }

  function CpuCode(rs: seq<CpuReading>): int {
    var n := ReadBefore(rs);
    if n < |rs| then rs[n].ret else 0
  }

  // ----- GPUs ----------------------------------------------------------------------------------

  /** The variable that holds a device's microwatts is not reset: a failed read leaves the previous
      device's value, and 0 at the start. */
  function Microwatts(devs: seq<Option<nat>>, d: nat): nat
    requires d < |devs|
  {
    match devs[d]
    case Some(value) => value
    case None => if d == 0 then 0 else Microwatts(devs, d - 1)
  }

  /** Whole watts. */
  function GpuWatts(devs: seq<Option<nat>>, d: nat): real
    requires d < |devs|
  {
    (Microwatts(devs, d) / 1000000) as real
  }

  /** Watts of the devices from `lo` up to `hi`. */
  function GpuTotal(devs: seq<Option<nat>>, lo: nat, hi: nat): real
    requires lo <= hi <= |devs|
  {
    if lo == hi then 0.0 else GpuTotal(devs, lo, hi - 1) + GpuWatts(devs, hi - 1)
  }

  /** The object of the devices from `lo` up to `hi`. */
  function GpuObject(devs: seq<Option<nat>>, lo: nat, hi: nat): map<nat, real>
    requires lo <= hi <= |devs|
  {
    map d: nat | lo <= d < hi :: GpuWatts(devs, d)
  }

  lemma NoGpus(devs: seq<Option<nat>>)
    ensures GpuTotal(devs, 0, 0) == 0.0
  {
  }

  function SocketAt(sockets: map<nat, SocketObject>, c: nat): SocketObject {
    if c in sockets then sockets[c] else EMPTY_SOCKET
  }

  /** The first `n` sockets with the objects of their own devices, `per` to a socket. */
  function GpuSockets(sockets: map<nat, SocketObject>, devs: seq<Option<nat>>, per: nat, n: nat): map<nat, SocketObject>
    requires n * per <= |devs|
  {
    if n == 0 then sockets
    else
      MulMono(n - 1, n, per);
      var before := GpuSockets(sockets, devs, per, n - 1);
      before[n - 1 := SocketAt(before, n - 1).(gpu := Some(GpuObject(devs, (n - 1) * per, n * per)))]
  }

  /** How many devices each socket is given; together they are at most all of them. */
  function PerSocket(ndevices: nat, nsockets: nat): (per: nat)
    requires nsockets > 0
    ensures nsockets * per <= ndevices
  {
    DivBounds(ndevices, nsockets);
    ndevices / nsockets
  }

  /** The node after the GPU platform's turn: its total is updated only if it is already there. */
  function AfterGpu(node: NodeObject, devs: seq<Option<nat>>, nsockets: nat): NodeObject
    requires nsockets > 0
  {
    var per := PerSocket(|devs|, nsockets);
    NodeObject(GpuSockets(node.sockets, devs, per, nsockets),
               match node.nodeWatts
               case Some(watts) => Some(watts + GpuTotal(devs, 0, nsockets * per))
               case None => None,
               Some(per))
  }

  // ----- dispatch ------------------------------------------------------------------------------

  /** A platform of the build and what its library answers; a GPU library that cannot be initialized or
      cannot count its devices answers nothing. */
  datatype Platform =
    | Unsupported
    | AmdCpu(readings: seq<CpuReading>)
    | AmdGpu(devices: Option<seq<Option<nat>>>, nsockets: nat)

  predicate HasSockets(p: Platform) {
    p.AmdGpu? ==> p.nsockets > 0
  }

  function Turn(node: NodeObject, p: Platform): NodeObject
    requires HasSockets(p)
  {
    match p
    case Unsupported => node
    case AmdCpu(rs) => AfterCpu(node, rs)
    case AmdGpu(None, _) => node
    case AmdGpu(Some(devs), nsockets) => AfterGpu(node, devs, nsockets)
  }

  /** How a turn ends: the loop goes on, the call fails, or the whole process exits. */
  datatype End = GoesOn | Fails | Exits

  function EndOf(p: Platform): End {
    match p
    case Unsupported => GoesOn
    case AmdCpu(rs) => if CpuCode(rs) == 0 then GoesOn else Fails
    case AmdGpu(None, _) => Exits
    case AmdGpu(Some(_), _) => GoesOn
  }

  /** The node after the platforms' turns, in order, up to and including the first that does not go on. */
  function AfterAll(node: NodeObject, ps: seq<Platform>): NodeObject
    requires forall p :: p in ps ==> HasSockets(p)
    decreases |ps|
  {
    if ps == [] then node
    else if EndOf(ps[0]) != GoesOn then Turn(node, ps[0])
    else AfterAll(Turn(node, ps[0]), ps[1..])
  }

  /** How the loop ends: like the first turn that does not go on. */
  function EndOfAll(ps: seq<Platform>): End {
    if ps == [] then GoesOn else if EndOf(ps[0]) != GoesOn then EndOf(ps[0]) else EndOfAll(ps[1..])
  }

  /** The report being built. */
  class Report {
    var node: NodeObject

    constructor ()
      ensures node == NodeObject(map[], None, None)
    {
      node := NodeObject(map[], None, None);
    }

    /** amd_cpu_epyc_get_power_json. */
    method AddCpu(rs: seq<CpuReading>) returns (ret: int)
      modifies this
      ensures node == AfterCpu(old(node), rs) && ret == CpuCode(rs)
    {
      var nodePower := 0.0;
      for i := 0 to |rs|
        invariant forall k :: 0 <= k < i ==> rs[k].ret == 0
        invariant nodePower == CpuTotal(rs, i)
        invariant node == old(node).(sockets := CpuSockets(old(node).sockets, rs, i))
      {
        node := node.(sockets := node.sockets[i := EMPTY_SOCKET]);
        if rs[i].ret != 0 {
          ReadBeforeIs(rs, i);
          return rs[i].ret;
        }
        var socket := SocketObject(Some(CpuWatts(rs[i])), Some(-1.0), None);
        node := node.(sockets := node.sockets[i := socket]);
        nodePower := nodePower + CpuWatts(rs[i]);
      }
      ReadBeforeIs(rs, |rs|);
      node := node.(nodeWatts := Some(nodePower));
      ret := 0;
    }

    /** get_json_power_data, once the library is initialized and has counted its devices. */
    method AddGpus(devs: seq<Option<nat>>, nsockets: nat)
      requires nsockets > 0
      modifies this
      ensures node == AfterGpu(old(node), devs, nsockets)
    {
      hide GpuObject, GpuTotal;
      var per := PerSocket(|devs|, nsockets);
      NoGpus(devs);
      node := node.(gpusPerSocket := Some(per));
      var microwatts: nat, total := 0, 0.0;
      for c := 0 to nsockets
        invariant c * per <= |devs|
        invariant microwatts == if c * per == 0 then 0 else Microwatts(devs, c * per - 1)
        invariant total == GpuTotal(devs, 0, c * per)
        invariant node == old(node).(sockets := GpuSockets(old(node).sockets, devs, per, c), gpusPerSocket := Some(per))
      {
        MulMono(c + 1, nsockets, per);
        AddTimes(c, 1, per);
        var socket := SocketAt(node.sockets, c);
        var gpu: map<nat, real>;
        gpu, microwatts, total := ReadGpus(devs, c * per, (c + 1) * per, microwatts, total);
        node := node.(sockets := node.sockets[c := socket.(gpu := Some(gpu))]);
      }
      match node.nodeWatts {
        case Some(watts) => node := node.(nodeWatts := Some(watts + total));
        case None =>
      }
    }

    /** get_json_power_data: without its library the process exits. */
    method GetJsonPowerData(devices: Option<seq<Option<nat>>>, nsockets: nat) returns (exited: bool)
      requires nsockets > 0
      modifies this
      ensures exited <==> devices == None
      ensures node == Turn(old(node), AmdGpu(devices, nsockets))
    {
      match devices {
        case None => exited := true;
        case Some(devs) =>
          AddGpus(devs, nsockets);
          exited := false;
      }
    }

    /** The inner loop, over one socket's devices. */
    method ReadGpus(devs: seq<Option<nat>>, lo: nat, hi: nat, microwatts0: nat, total0: real)
      returns (gpu: map<nat, real>, microwatts: nat, total: real)
      requires lo <= hi <= |devs|
      requires microwatts0 == (if lo == 0 then 0 else Microwatts(devs, lo - 1)) && total0 == GpuTotal(devs, 0, lo)
      ensures microwatts == if hi == 0 then 0 else Microwatts(devs, hi - 1)
      ensures total == GpuTotal(devs, 0, hi) && gpu == GpuObject(devs, lo, hi)
    {
      gpu, microwatts, total := map[], microwatts0, total0;
      for d := lo to hi
        invariant microwatts == if d == 0 then 0 else Microwatts(devs, d - 1)
        invariant total == GpuTotal(devs, 0, d) && gpu == GpuObject(devs, lo, d)
      {
        match devs[d] {
          case Some(value) => microwatts := value;
          case None =>
        }
        var watts := (microwatts / 1000000) as real;
        gpu := gpu[d := watts];
        total := total + watts;
      }
    }

    /** The loop over platforms of variorum_get_power_json: `GoesOn` is a return of 0, `Fails` one of -1. */
    method GetPower(ps: seq<Platform>) returns (end: End)
      requires forall p :: p in ps ==> HasSockets(p)
      modifies this
      ensures node == AfterAll(old(node), ps)
      ensures end == EndOfAll(ps)
    {
      for i := 0 to |ps|
        invariant EndOfAll(ps[i..]) == EndOfAll(ps)
        invariant AfterAll(node, ps[i..]) == AfterAll(old(node), ps)
      {
        assert ps[i..][0] == ps[i] && ps[i..][1..] == ps[i + 1..];
        match ps[i] {
          case Unsupported =>
          case AmdCpu(rs) =>
            var err := AddCpu(rs);
            if err != 0 { return Fails; }
          case AmdGpu(devices, nsockets) =>
            assert HasSockets(ps[i]) by { assert ps[i] in ps; }
            var exited := GetJsonPowerData(devices, nsockets);
            if exited { return Exits; }
        }
      }
      end := GoesOn;
    }
  }

  // ----- which devices are reported where ------------------------------------------------------

  /** The devices listed under socket `c`. */
  predicate ListedUnder(d: nat, c: nat, per: nat) {
    c * per <= d < (c + 1) * per
  }

  /** A device is listed under one socket at most. */
  lemma ListedOnce(d: nat, c: nat, e: nat, per: nat)
    requires ListedUnder(d, c, per) && ListedUnder(d, e, per)
    ensures c == e
  {
    AddTimes(c, 1, per);
    AddTimes(e, 1, per);
    DivUnique(d, per, c);
    DivUnique(d, per, e);
  }

  /** The device is among those that are shared out. */
  predicate Listed(d: nat, ndevices: nat, nsockets: nat)
    requires nsockets > 0
  {
    d < nsockets * PerSocket(ndevices, nsockets)
  }

  /** Exactly the first nsockets * (devices / nsockets) devices are listed under some socket. */
  lemma ListedRange(d: nat, ndevices: nat, nsockets: nat)
    requires nsockets > 0
    ensures (exists c: nat :: c < nsockets && ListedUnder(d, c, PerSocket(ndevices, nsockets))) <==> Listed(d, ndevices, nsockets)
  {
    var per := PerSocket(ndevices, nsockets);
    if d < nsockets * per {
      var c := d / per;
      DivBounds(d, per);
      AddTimes(c, 1, per);
      MulLess(c, nsockets, per);
      assert ListedUnder(d, c, per);
    } else {
      forall c: nat | c < nsockets
        ensures !ListedUnder(d, c, per)
      {
        MulMono(c + 1, nsockets, per);
      }
    }
  }

  /** All devices are reported exactly when they divide evenly among the sockets. */
  lemma AllListed(ndevices: nat, nsockets: nat)
    requires nsockets > 0
    ensures (forall d: nat :: d < ndevices ==> Listed(d, ndevices, nsockets)) <==> ndevices % nsockets == 0
  {
    if ndevices % nsockets != 0 {
      assert !Listed(nsockets * PerSocket(ndevices, nsockets), ndevices, nsockets);
    }
  }

  // ----- what the report holds -----------------------------------------------------------------

  lemma {:induction false} CpuSocketsAt(sockets: map<nat, SocketObject>, rs: seq<CpuReading>, n: nat, c: nat)
    requires n <= |rs|
    ensures SocketAt(CpuSockets(sockets, rs, n), c)
            == if c < n then SocketObject(Some(CpuWatts(rs[c])), Some(-1.0), None) else SocketAt(sockets, c)
  {
    if n > 0 { CpuSocketsAt(sockets, rs, n - 1, c); }
  }

  lemma {:induction false} GpuSocketsAt(sockets: map<nat, SocketObject>, devs: seq<Option<nat>>, per: nat, n: nat, c: nat)
    requires n * per <= |devs|
    ensures c < n ==> c * per <= (c + 1) * per <= |devs|
    ensures SocketAt(GpuSockets(sockets, devs, per, n), c)
            == if c < n then SocketAt(sockets, c).(gpu := Some(GpuObject(devs, c * per, (c + 1) * per)))
               else SocketAt(sockets, c)
  {
    if n > 0 {
      MulMono(n - 1, n, per);
      hide GpuObject;
      GpuSocketsAt(sockets, devs, per, n - 1, c);
      if c == n - 1 {
        assert (c + 1) * per == n * per;
      }
    }
  }

  lemma {:induction false} GpuTotalSplit(devs: seq<Option<nat>>, lo: nat, mid: nat, hi: nat)
    requires lo <= mid <= hi <= |devs|
    ensures GpuTotal(devs, lo, hi) == GpuTotal(devs, lo, mid) + GpuTotal(devs, mid, hi)
    decreases hi
  {
    if mid < hi { GpuTotalSplit(devs, lo, mid, hi - 1); }
  }

  /** Watts listed under the first `n` sockets, socket by socket. */
  function ListedTotal(devs: seq<Option<nat>>, per: nat, n: nat): real
    requires n * per <= |devs|
  {
    if n == 0 then 0.0
    else
      MulMono(n - 1, n, per);
      ListedTotal(devs, per, n - 1) + GpuTotal(devs, (n - 1) * per, n * per)
  }

  lemma {:induction false} ListedTotalIs(devs: seq<Option<nat>>, per: nat, n: nat)
    requires n * per <= |devs|
    ensures ListedTotal(devs, per, n) == GpuTotal(devs, 0, n * per)
  {
    if n > 0 {
      MulMono(n - 1, n, per);
      ListedTotalIs(devs, per, n - 1);
      GpuTotalSplit(devs, 0, (n - 1) * per, n * per);
      hide GpuTotal;
    }
  }

  /** The platforms that have the feature. */
  function Supported(ps: seq<Platform>): seq<Platform> {
    if ps == [] then [] else if ps[0].Unsupported? then Supported(ps[1..]) else [ps[0]] + Supported(ps[1..])
  }

  lemma {:induction false} UnsupportedDoNotMatter(node: NodeObject, ps: seq<Platform>)
    requires forall p :: p in ps ==> HasSockets(p)
    ensures forall p :: p in Supported(ps) ==> HasSockets(p)
    ensures AfterAll(node, ps) == AfterAll(node, Supported(ps))
    decreases |ps|
  {
    if ps != [] {
      hide HasSockets, Turn, EndOf;
      if ps[0].Unsupported? {
        assert Turn(node, ps[0]) == node && EndOf(ps[0]) == GoesOn by { UnsupportedTurn(node); }
        UnsupportedDoNotMatter(node, ps[1..]);
      } else {
        assert ps[0] in ps;
        UnsupportedDoNotMatter(Turn(node, ps[0]), ps[1..]);
        assert ([ps[0]] + Supported(ps[1..]))[1..] == Supported(ps[1..]);
      }
    }
  }

  lemma UnsupportedTurn(node: NodeObject)
    ensures HasSockets(Unsupported) && Turn(node, Unsupported) == node && EndOf(Unsupported) == GoesOn
  {
  }

  /** A build with an AMD CPU and, after it, AMD GPUs, whatever else is unsupported. */
  predicate CpuThenGpu(ps: seq<Platform>, rs: seq<CpuReading>, devs: seq<Option<nat>>, nsockets: nat) {
    nsockets > 0 && Supported(ps) == [AmdCpu(rs), AmdGpu(Some(devs), nsockets)]
  }

  lemma TwoTurns(node: NodeObject, ps: seq<Platform>, p: Platform, q: Platform)
    requires forall x :: x in ps ==> HasSockets(x)
    requires Supported(ps) == [p, q] && EndOf(p) == GoesOn
    ensures HasSockets(p) && HasSockets(q)
    ensures AfterAll(node, ps) == Turn(Turn(node, p), q)
  {
    hide Supported, HasSockets, Turn, EndOf;
    UnsupportedDoNotMatter(node, ps);
    assert p in [p, q] && q in [p, q];
    assert [p, q][1..] == [q];
    LastTurn(Turn(node, p), q);
  }

  lemma LastTurn(node: NodeObject, p: Platform)
    requires HasSockets(p)
    ensures AfterAll(node, [p]) == Turn(node, p)
  {
    hide HasSockets, Turn, EndOf;
    assert [p][1..] == [];
  }

  /** Conservation: if all sockets are read, the node's watts are those of all CPU sockets plus those of
      the devices listed under the GPU sockets. */
  lemma PowerAddsUp(node: NodeObject, ps: seq<Platform>, rs: seq<CpuReading>, devs: seq<Option<nat>>, nsockets: nat)
    requires forall p :: p in ps ==> HasSockets(p)
    requires CpuThenGpu(ps, rs, devs, nsockets) && CpuCode(rs) == 0
    ensures AfterAll(node, ps).nodeWatts == Some(CpuTotal(rs, |rs|) + ListedTotal(devs, PerSocket(|devs|, nsockets), nsockets))
    ensures 1000.0 * CpuTotal(rs, |rs|) == Milliwatts(rs) as real
  {
    CpuTotalIs(rs, |rs|);
    assert rs[..|rs|] == rs;
    hide Milliwatts;
    hide AfterAll, AfterCpu, AfterGpu, PerSocket, ListedTotal, CpuTotal, CpuCode, Supported;
    TwoTurns(node, ps, AmdCpu(rs), AmdGpu(Some(devs), nsockets));
    CpuSets(node, rs);
    GpuAdds(AfterCpu(node, rs), devs, nsockets);
  }

  function Milliwatts(rs: seq<CpuReading>): nat {
    if rs == [] then 0 else Milliwatts(rs[..|rs| - 1]) + rs[|rs| - 1].milliwatts
  }

  lemma {:induction false} CpuTotalIs(rs: seq<CpuReading>, n: nat)
    requires n <= |rs|
    ensures 1000.0 * CpuTotal(rs, n) == Milliwatts(rs[..n]) as real
  {
    if n > 0 {
      CpuTotalIs(rs, n - 1);
      assert rs[..n][..n - 1] == rs[..n - 1];
    }
  }

  lemma CpuSets(node: NodeObject, rs: seq<CpuReading>)
    requires CpuCode(rs) == 0
    ensures AfterCpu(node, rs).nodeWatts == Some(CpuTotal(rs, |rs|))
  {
    hide CpuTotal, CpuSockets;
  }

  lemma GpuAdds(node: NodeObject, devs: seq<Option<nat>>, nsockets: nat)
    requires nsockets > 0 && node.nodeWatts.Some?
    ensures AfterGpu(node, devs, nsockets).nodeWatts
            == Some(node.nodeWatts.value + ListedTotal(devs, PerSocket(|devs|, nsockets), nsockets))
  {
    hide ListedTotal, GpuTotal, GpuSockets;
    ListedTotalIs(devs, PerSocket(|devs|, nsockets), nsockets);
  }

  /** Every socket of that report shows its own CPU watts, a thousandth of its milliwatts, no memory watts
      (-1), and exactly its own range of devices, the same number for every socket. */
  lemma SocketsShowTheirOwn(node: NodeObject, ps: seq<Platform>, rs: seq<CpuReading>, devs: seq<Option<nat>>,
                            nsockets: nat, c: nat)
    requires forall p :: p in ps ==> HasSockets(p)
    requires CpuThenGpu(ps, rs, devs, nsockets) && CpuCode(rs) == 0
    ensures AfterAll(node, ps).gpusPerSocket == Some(|devs| / nsockets)
    ensures c < |rs| ==>
              var socket := SocketAt(AfterAll(node, ps).sockets, c);
              && socket.cpuWatts.Some? && 1000.0 * socket.cpuWatts.value == rs[c].milliwatts as real
              && socket.memWatts == Some(-1.0)
    ensures var per := |devs| / nsockets;
            c < nsockets ==> c * per <= (c + 1) * per <= |devs|
                             && ShowsDevices(SocketAt(AfterAll(node, ps).sockets, c), devs, c * per, (c + 1) * per)
  {
    hide *;
    BothTurns(node, ps, rs, devs, nsockets);
    var per, mid := PerSocket(|devs|, nsockets), AfterCpu(node, rs);
    if c < |rs| { CpuShown(node, rs, c); }
    AfterGpuIs(mid, devs, nsockets);
    GpuSocketsAt(mid.sockets, devs, per, nsockets, c);
    PerSocketIs(|devs|, nsockets);
    if c < nsockets { RangeShown(SocketAt(mid.sockets, c), devs, c * per, (c + 1) * per); }
  }

  lemma BothTurns(node: NodeObject, ps: seq<Platform>, rs: seq<CpuReading>, devs: seq<Option<nat>>, nsockets: nat)
    requires forall p :: p in ps ==> HasSockets(p)
    requires CpuThenGpu(ps, rs, devs, nsockets) && CpuCode(rs) == 0
    ensures nsockets > 0 && AfterAll(node, ps) == AfterGpu(AfterCpu(node, rs), devs, nsockets)
  {
    hide AfterAll, AfterCpu, AfterGpu, CpuCode, Supported;
    TwoTurns(node, ps, AmdCpu(rs), AmdGpu(Some(devs), nsockets));
  }

  lemma AfterGpuIs(node: NodeObject, devs: seq<Option<nat>>, nsockets: nat)
    requires nsockets > 0
    ensures var after, per := AfterGpu(node, devs, nsockets), PerSocket(|devs|, nsockets);
            after.sockets == GpuSockets(node.sockets, devs, per, nsockets) && after.gpusPerSocket == Some(per)
  {
    hide GpuSockets, PerSocket;
  }

  lemma PerSocketIs(ndevices: nat, nsockets: nat)
    requires nsockets > 0
    ensures PerSocket(ndevices, nsockets) == ndevices / nsockets
  {
  }

  lemma CpuShown(node: NodeObject, rs: seq<CpuReading>, c: nat)
    requires CpuCode(rs) == 0 && c < |rs|
    ensures var socket := SocketAt(AfterCpu(node, rs).sockets, c);
            && socket.cpuWatts.Some? && 1000.0 * socket.cpuWatts.value == rs[c].milliwatts as real
            && socket.memWatts == Some(-1.0)
  {
    CpuSocketsAt(node.sockets, rs, |rs|, c);
    hide CpuSockets, SocketAt, CpuTotal;
  }

  /** The socket lists exactly the devices from `lo` up to `hi`, each that could be read with the whole
      watts it drew. */
  ghost predicate ShowsDevices(socket: SocketObject, devs: seq<Option<nat>>, lo: nat, hi: nat)
    requires lo <= hi <= |devs|
  {
    && socket.gpu.Some?
    && (forall d: nat :: d in socket.gpu.value <==> lo <= d < hi)
    && forall d :: lo <= d < hi && devs[d].Some? ==> IsWholeWatts(socket.gpu.value[d], devs[d].value)
  }

  /** `w` is the greatest whole number of watts in so many microwatts. */
  predicate IsWholeWatts(w: real, microwatts: nat) {
    w == w.Floor as real && 1000000.0 * w <= microwatts as real < 1000000.0 * w + 1000000.0
  }

  lemma RangeShown(socket: SocketObject, devs: seq<Option<nat>>, lo: nat, hi: nat)
    requires lo <= hi <= |devs|
    ensures ShowsDevices(socket.(gpu := Some(GpuObject(devs, lo, hi))), devs, lo, hi)
  {
    forall d | lo <= d < hi && devs[d].Some?
      ensures IsWholeWatts(GpuWatts(devs, d), devs[d].value)
    {
      WholeWatts(devs[d].value);
    }
    hide GpuWatts, IsWholeWatts;
  }

  lemma WholeWatts(microwatts: nat)
    ensures IsWholeWatts((microwatts / 1000000) as real, microwatts)
  {
  }

  /** The order matters: a CPU platform after the GPUs discards their objects and their watts. */
  lemma GpuThenCpuLosesGpus(node: NodeObject, ps: seq<Platform>, rs: seq<CpuReading>, devs: seq<Option<nat>>,
                            nsockets: nat, c: nat)
    requires forall p :: p in ps ==> HasSockets(p)
    requires nsockets > 0 && Supported(ps) == [AmdGpu(Some(devs), nsockets), AmdCpu(rs)] && CpuCode(rs) == 0
    ensures AfterAll(node, ps).nodeWatts == Some(CpuTotal(rs, |rs|))
    ensures c < |rs| ==> SocketAt(AfterAll(node, ps).sockets, c).gpu == None
  {
    hide AfterAll, CpuSockets, GpuSockets, GpuTotal, CpuTotal, Supported, SocketAt;
    TwoTurns(node, ps, AmdGpu(Some(devs), nsockets), AmdCpu(rs));
    CpuSocketsAt(AfterGpu(node, devs, nsockets).sockets, rs, |rs|, c);
  }

  /** The platform's turn goes on to the next: all sockets are read, or there is a GPU library. */
  predicate Passes(p: Platform) {
    match p
    case Unsupported => true
    case AmdCpu(rs) => forall r :: r in rs ==> r.ret == 0
    case AmdGpu(devices, _) => devices.Some?
  }

  lemma PassesExactly(p: Platform)
    ensures Passes(p) <==> EndOf(p) == GoesOn
    ensures !Passes(p) ==> EndOf(p) == if p.AmdCpu? then Fails else Exits
  {
    match p
    case AmdCpu(rs) =>
      var n := ReadBefore(rs);
      if n < |rs| {
        assert rs[n] in rs;
      } else {
        assert forall r :: r in rs ==> exists i :: 0 <= i < n && rs[i] == r;
      }
      hide ReadBefore;
    case _ =>
  }

  /** The call goes on to its end if all platforms do.  Otherwise the first that does not decides: after a
      CPU platform the call fails, after a GPU platform the process exits, and no later platform has a
      turn. */
  lemma {:induction false} FirstToStop(node: NodeObject, ps: seq<Platform>, i: nat)
    requires forall p :: p in ps ==> HasSockets(p)
    requires i <= |ps| && (forall k :: 0 <= k < i ==> Passes(ps[k])) && (i < |ps| ==> !Passes(ps[i]))
    ensures forall p :: p in ps[..Through(i, ps)] ==> HasSockets(p)
    ensures EndOfAll(ps) == if i == |ps| then GoesOn else if ps[i].AmdCpu? then Fails else Exits
    ensures AfterAll(node, ps) == AfterAll(node, ps[..Through(i, ps)])
    decreases |ps|
  {
    hide HasSockets, Turn, EndOf, Passes;
    if i == |ps| {
      assert ps[..i] == ps;
      if ps != [] {
        PassesExactly(ps[0]);
        assert ps[0] in ps;
        FirstToStop(Turn(node, ps[0]), ps[1..], i - 1);
      }
    } else {
      PassesExactly(ps[0]);
      assert ps[0] in ps;
      if i > 0 {
        FirstToStop(Turn(node, ps[0]), ps[1..], i - 1);
        assert ps[..i + 1][1..] == ps[1..][..i];
      } else {
        assert ps[..1][0] == ps[0];
      }
    }
  }

  /** The turns up to and including that of platform `i`. */
  function Through(i: nat, ps: seq<Platform>): (n: nat)
    ensures n <= |ps|
  {
    if i < |ps| then i + 1 else |ps|
  }

  /** When a socket cannot be read, the node's total is left as it was and later sockets are not touched. */
  lemma CpuFailure(node: NodeObject, rs: seq<CpuReading>, c: nat)
    requires CpuCode(rs) != 0
    ensures ReadBefore(rs) < |rs| && CpuCode(rs) == rs[ReadBefore(rs)].ret
    ensures AfterCpu(node, rs).nodeWatts == node.nodeWatts
    ensures c == ReadBefore(rs) ==> SocketAt(AfterCpu(node, rs).sockets, c) == EMPTY_SOCKET
    ensures c > ReadBefore(rs) ==> SocketAt(AfterCpu(node, rs).sockets, c) == SocketAt(node.sockets, c)
  {
    CpuSocketsAt(node.sockets, rs, ReadBefore(rs), c);
    hide CpuSockets, CpuTotal;
  }

  /** What a device that could be read drew, in whole watts; nothing for one that could not. */
  function OwnWatts(devs: seq<Option<nat>>, d: nat): real
    requires d < |devs|
  {
    match devs[d]
    case Some(value) => (value / 1000000) as real
    case None => 0.0
  }

  function OwnTotal(devs: seq<Option<nat>>, n: nat): real
    requires n <= |devs|
  {
    if n == 0 then 0.0 else OwnTotal(devs, n - 1) + OwnWatts(devs, n - 1)
  }

  /** A device that cannot be read repeats the last reading of less than one watt, or none. */
  predicate Silent(devs: seq<Option<nat>>, d: nat)
    requires d < |devs|
  {
    devs[d].None? ==> Microwatts(devs, d) < 1000000
  }

  /** The total is that of the devices that could be read if and only if every other device repeats less
      than one watt; otherwise it is too large. */
  lemma {:induction false} TotalUndistorted(devs: seq<Option<nat>>, n: nat)
    requires n <= |devs|
    ensures OwnTotal(devs, n) <= GpuTotal(devs, 0, n)
    ensures GpuTotal(devs, 0, n) == OwnTotal(devs, n) <==> forall d :: 0 <= d < n ==> Silent(devs, d)
  {
    if n > 0 {
      TotalUndistorted(devs, n - 1);
      OneUndistorted(devs, n - 1);
      hide GpuWatts, OwnWatts, Silent;
    }
  }

  lemma OneUndistorted(devs: seq<Option<nat>>, d: nat)
    requires d < |devs|
    ensures OwnWatts(devs, d) <= GpuWatts(devs, d)
    ensures GpuWatts(devs, d) == OwnWatts(devs, d) <==> Silent(devs, d)
  {
    if devs[d].None? { hide Microwatts; }
  }

  /** A failed device repeats the last device that could be read before it, and counts its watts again. */
  lemma {:induction false} FailedDeviceRepeats(devs: seq<Option<nat>>, d: nat, e: nat)
    requires e <= d < |devs| && devs[e].Some? && forall k :: e < k <= d ==> devs[k].None?
    ensures GpuWatts(devs, d) == (devs[e].value / 1000000) as real
    ensures GpuTotal(devs, e, d + 1) == (d + 1 - e) as real * GpuWatts(devs, e)
  {
    if e < d {
      FailedDeviceRepeats(devs, d - 1, e);
      assert (d + 1 - e) as real == (d - e) as real + 1.0;
    } else {
      assert GpuTotal(devs, e, e) == 0.0;
    }
  }
}
