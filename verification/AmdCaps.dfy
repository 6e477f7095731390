/** Power caps of AMD EPYC sockets (epyc.c).

    The management library is a parameter: for every socket the return codes and values of its three
    calls.  Caps are in milliwatts; `int` and `uint32_t` are 32 bits wide and convert by wrapping.
 */
module AmdCaps {
  import opened Arithmetic

  const U32: int := 0x1_0000_0000
  const I32: int := 0x8000_0000

  type Word = x: int | 0 <= x < U32
  type Int = x: int | -I32 <= x < I32

  function ToInt(w: Word): Int {
    if w < I32 then w else w - U32
  }

  function ToWord(i: Int): Word {
    if 0 <= i then i else i + U32
  }

  lemma ConversionsInvert(w: Word, i: Int)
    ensures ToInt(w) == i <==> w == ToWord(i)
  {
  }

  type ErrorCode = x: int | x != 0 witness 1

  /** The library's error code for missing permissions, whatever it is; 0 is success. */
  const PERMISSION: ErrorCode

  /** What the library answers for a socket: the maximum cap, the outcome of a set, the cap read back. */
  datatype Socket = Socket(maxRet: int, max: Word, setRet: int, getRet: int, readBack: Word)

  /** The request after the maximum of one socket has been queried. */
  function ClampOne(cap: Int, s: Socket): Int {
    if s.maxRet == 0 && cap > ToInt(s.max) then ToInt(s.max) else cap
  }

  /** The request after the first `n` sockets: it is overwritten, so a clamp stays for later sockets. */
  function Clamp(cap: Int, d: seq<Socket>, n: nat): Int
    requires n <= |d|
  {
    if n == 0 then cap else ClampOne(Clamp(cap, d, n - 1), d[n - 1])
  }

  lemma ClampNone(cap: Int, d: seq<Socket>)
    ensures Clamp(cap, d, 0) == cap
  {
  }

  lemma ClampNext(cap: Int, d: seq<Socket>, n: nat)
    requires n < |d|
    ensures Clamp(cap, d, n + 1) == ClampOne(Clamp(cap, d, n), d[n])
  {
  }

  /** The word written to socket `i`. */
  function Written(cap: Int, d: seq<Socket>, i: nat): Word
    requires i < |d|
  {
    ToWord(Clamp(cap, d, i + 1))
  }

  function SetCode(s: Socket): int {
    if s.setRet == PERMISSION then -1 else s.setRet
  }

  /** The code with which a socket's turn ends: setting, reading back and comparing. */
  function TurnCode(cap: Int, s: Socket): int {
    if s.setRet != 0 then SetCode(s)
    else if s.getRet != 0 then s.getRet
    else if cap != ToInt(s.readBack) then -1
    else 0
  }

  /** The first `n` sockets hold their caps, the others what they held before. */
  predicate Prefix(caps: seq<Word>, caps0: seq<Word>, cap: Int, d: seq<Socket>, n: nat) {
    && n <= |caps| == |caps0| == |d|
    && (forall i :: 0 <= i < n ==> caps[i] == Written(cap, d, i))
    && (forall i :: n <= i < |caps| ==> caps[i] == caps0[i])
  }

  /** Half the node's watts, in milliwatts; the division truncates toward zero. */
  function HalfNode(watts: Int): int {
    (if 0 <= watts then watts / 2 else -(-(watts as int) / 2)) * 1000
  }

  /** Where and how a verified run ends: all turns before `stop` succeeded; the turn at `stop`, if there
      is one, failed, and wrote its cap unless it was the set that failed. */
  predicate Verified(ret: int, caps: seq<Word>, caps0: seq<Word>, cap: Int, d: seq<Socket>, stop: nat) {
    && stop <= |d|
    && (forall i :: 0 <= i < stop ==> TurnCode(Clamp(cap, d, i + 1), d[i]) == 0)
    && ret == (if stop < |d| then TurnCode(Clamp(cap, d, stop + 1), d[stop]) else 0)
    && (ret == 0 <==> stop == |d|)
    && Prefix(caps, caps0, cap, d, if stop < |d| && d[stop].setRet == 0 then stop + 1 else stop)
  }

  /** amd_cpu_epyc_set_and_verify_best_effort_node_power_limit. */
  method SetAndVerifyNodeLimit(watts: Int, d: seq<Socket>, caps: array<Word>) returns (ret: int, ghost stop: nat)
    requires -I32 <= HalfNode(watts) < I32 && caps.Length == |d|
    modifies caps
    ensures Verified(ret, caps[..], old(caps[..]), HalfNode(watts), d, stop)
  {
    hide HalfNode, Clamp, ToWord, ToInt;
    var cap: Int := HalfNode(watts);
    ClampNone(cap, d);
    for i := 0 to |d|
      invariant cap == Clamp(HalfNode(watts), d, i)
      invariant forall k :: 0 <= k < i ==> TurnCode(Clamp(HalfNode(watts), d, k + 1), d[k]) == 0
      invariant Prefix(caps[..], old(caps[..]), HalfNode(watts), d, i)
    {
      ClampNext(HalfNode(watts), d, i);
      if d[i].maxRet == 0 && cap > ToInt(d[i].max) {
        cap := ToInt(d[i].max);
      }
      ret := d[i].setRet;
      if ret != 0 {
        stop := i;
        if ret == PERMISSION { return -1, i; }
        return;
      }
      caps[i] := ToWord(cap);
      ret := d[i].getRet;
      if ret != 0 { return ret, i; }
      if cap != ToInt(d[i].readBack) { return -1, i; }
    }
    return 0, |d|;
  }

  /** How a run without verification ends: only a failing set stops it. */
  predicate Unverified(ret: int, caps: seq<Word>, caps0: seq<Word>, cap: Int, d: seq<Socket>, stop: nat) {
    && stop <= |d|
    && (forall i :: 0 <= i < stop ==> d[i].setRet == 0)
    && ret == (if stop < |d| then SetCode(d[stop]) else 0)
    && (ret == 0 <==> stop == |d|)
    && Prefix(caps, caps0, cap, d, stop)
  }

  /** amd_cpu_epyc_set_socket_power_limit. */
  method SetSocketLimit(watts: Int, d: seq<Socket>, caps: array<Word>) returns (ret: int, ghost stop: nat)
    requires -I32 <= watts * 1000 < I32 && caps.Length == |d|
    modifies caps
    ensures Unverified(ret, caps[..], old(caps[..]), watts * 1000, d, stop)
  {
    var cap: Int := watts * 1000;
    for i := 0 to |d|
      invariant cap == Clamp(watts * 1000, d, i)
      invariant forall k :: 0 <= k < i ==> d[k].setRet == 0
      invariant Prefix(caps[..], old(caps[..]), watts * 1000, d, i)
    {
      if d[i].maxRet == 0 && cap > ToInt(d[i].max) {
        cap := ToInt(d[i].max);
      }
      ret := d[i].setRet;
      if ret != 0 {
        stop := i;
        if ret == PERMISSION { return -1, i; }
        return;
      }
      caps[i] := ToWord(cap);
    }
    return 0, |d|;
  }

  // ----- what the caps are ---------------------------------------------------------------------

  /** The bounds in force for socket `n - 1`: the request and every maximum answered up to it. */
  predicate BelowAll(x: int, cap: Int, d: seq<Socket>, n: nat)
    requires n <= |d|
  {
    x <= cap && forall k :: 0 <= k < n && d[k].maxRet == 0 ==> x <= ToInt(d[k].max)
  }

  /** The cap is the minimum of the request and the maxima answered so far, the greatest value below
      all of them. */
  lemma {:induction false} ClampIsMinimum(cap: Int, d: seq<Socket>, n: nat, x: int)
    requires n <= |d|
    ensures x <= Clamp(cap, d, n) <==> BelowAll(x, cap, d, n)
  {
    if n > 0 { ClampIsMinimum(cap, d, n - 1, x); }
  }

  /** Caps never rise from a socket to a later one. */
  lemma {:induction false} NonIncreasing(cap: Int, d: seq<Socket>, i: nat, j: nat)
    requires i <= j <= |d|
    ensures Clamp(cap, d, j) <= Clamp(cap, d, i) <= cap
  {
    ClampIsMinimum(cap, d, j, Clamp(cap, d, j));
    ClampIsMinimum(cap, d, i, Clamp(cap, d, j));
    ClampIsMinimum(cap, d, i, Clamp(cap, d, i));
    hide Clamp;
  }

  /** The clamp is sticky: a socket gets the cap it would get alone exactly when no earlier socket
      answered a maximum below that. */
  lemma OwnCap(cap: Int, d: seq<Socket>, i: nat)
    requires i < |d|
    ensures Clamp(cap, d, i + 1) == ClampOne(cap, d[i])
            <==> forall k :: 0 <= k < i && d[k].maxRet == 0 ==> ClampOne(cap, d[i]) <= ToInt(d[k].max)
  {
    ClampIsMinimum(cap, d, i + 1, ClampOne(cap, d[i]));
    ClampIsMinimum(cap, d, i + 1, Clamp(cap, d, i + 1));
    hide Clamp;
  }

  /** The node's request is halved toward zero, whatever its sign: twice the half differs from it by less
      than 2 W, on the side of zero. */
  lemma HalvedTowardZero(watts: Int)
    ensures var milliwatts := HalfNode(watts);
            var left := watts - 2 * (milliwatts / 1000);
            milliwatts % 1000 == 0 && if watts >= 0 then 0 <= left <= 1 else -1 <= left <= 0
  {
    if watts < 0 { assert HalfNode(watts) == -(-(watts as int) / 2) * 1000; }
  }

  /** Socket `i` takes its cap and reads it back. */
  predicate Succeeds(cap: Int, d: seq<Socket>, i: nat)
    requires i < |d|
  {
    d[i].setRet == 0 && d[i].getRet == 0 && d[i].readBack == Written(cap, d, i)
  }

  /** The run ends at the first socket that does not, with the code of the call that failed there: -1 for a
      missing permission or a different cap read back.  That socket is written unless its set failed. */
  lemma WhereItEnds(ret: int, caps: seq<Word>, caps0: seq<Word>, cap: Int, d: seq<Socket>, stop: nat)
    requires Verified(ret, caps, caps0, cap, d, stop)
    ensures stop <= |d| == |caps| == |caps0| && forall i :: 0 <= i < stop ==> Succeeds(cap, d, i)
    ensures if stop == |d| then ret == 0
            else
              var s := d[stop];
              && !Succeeds(cap, d, stop)
              && ret == if s.setRet == PERMISSION || (s.setRet == 0 && s.getRet == 0) then -1
                        else if s.setRet != 0 then s.setRet
                        else s.getRet
    ensures forall i :: 0 <= i < |d| ==>
              caps[i] == if i < stop || (i == stop && d[i].setRet == 0) then Written(cap, d, i) else caps0[i]
  {
    hide Clamp;
    forall i | 0 <= i < |d| && i <= stop
      ensures Succeeds(cap, d, i) <==> TurnCode(Clamp(cap, d, i + 1), d[i]) == 0
    {
      ConversionsInvert(d[i].readBack, Clamp(cap, d, i + 1));
    }
    hide ToWord, ToInt;
  }

  /** Without reading back it ends at the first socket whose set fails. */
  lemma WhereSettingEnds(ret: int, caps: seq<Word>, caps0: seq<Word>, cap: Int, d: seq<Socket>, stop: nat)
    requires Unverified(ret, caps, caps0, cap, d, stop)
    ensures stop <= |d| == |caps| == |caps0| && forall i :: 0 <= i < stop ==> d[i].setRet == 0
    ensures if stop == |d| then ret == 0 
            else d[stop].setRet != 0 && ret == if d[stop].setRet == PERMISSION then -1 else d[stop].setRet
    ensures forall i :: 0 <= i < |d| ==> caps[i] == if i < stop then Written(cap, d, i) else caps0[i]
  {
    hide Clamp, ToWord;
  }

  /** A return of 0 means that every socket was written and read back the very word written. */
  lemma SuccessMeansReadBack(caps: seq<Word>, caps0: seq<Word>, cap: Int, d: seq<Socket>, stop: nat, i: nat)
    requires Verified(0, caps, caps0, cap, d, stop) && i < |d|
    ensures caps[i] == Written(cap, d, i) == d[i].readBack
    ensures d[i].setRet == 0 && d[i].getRet == 0
  {
    ConversionsInvert(d[i].readBack, Clamp(cap, d, i + 1));
    hide Clamp, ToWord, ToInt;
    assert TurnCode(Clamp(cap, d, i + 1), d[i]) == 0;
  }

  /** A failure leaves every later socket as it was. */
  lemma FailureLeavesLaterSockets(ret: int, caps: seq<Word>, caps0: seq<Word>, cap: Int, d: seq<Socket>, stop: nat, i: nat)
    requires Verified(ret, caps, caps0, cap, d, stop) && stop < i < |d|
    ensures ret != 0 && caps[i] == caps0[i]
  {
    hide Clamp, TurnCode;
  }

  /** Maxima are words, but the request is compared and overwritten as an int.  A socket is written more
      than was requested if and only if a maximum of 2^31 or more was answered for it or before it. */
  lemma WrittenAboveRequest(cap: Int, d: seq<Socket>, i: nat)
    requires 0 <= cap && i < |d|
    ensures Written(cap, d, i) > cap <==> exists k :: 0 <= k <= i && d[k].maxRet == 0 && d[k].max >= I32
  {
    NonIncreasing(cap, d, 0, i + 1);
    ClampIsMinimum(cap, d, i + 1, 0);
    hide Clamp;
  }

  // ----- the node's budget ---------------------------------------------------------------------

  /** Sum of the words written to the first `n` sockets. */
  function Total(cap: Int, d: seq<Socket>, n: nat): nat
    requires n <= |d|
  {
    if n == 0 then 0 else Total(cap, d, n - 1) + Written(cap, d, n - 1)
  }

  /** Maxima that fit an `int`. */
  predicate SmallMaxima(d: seq<Socket>) {
    forall s :: s in d ==> s.max < I32
  }

  /** Every socket is written at most the request. */
  lemma {:induction false} TotalBound(cap: Int, d: seq<Socket>, n: nat)
    requires 0 <= cap && SmallMaxima(d) && n <= |d|
    ensures Total(cap, d, n) <= n * cap
  {
    if n > 0 {
      TotalBound(cap, d, n - 1);
      NonIncreasing(cap, d, 0, n);
      ClampIsMinimum(cap, d, n, 0);
      AddTimes(n - 1, 1, cap);
      hide Clamp;
    }
  }

  /** A socket with no lower maximum. */
  const UNBOUNDED := Socket(0, I32 - 1, 0, 0, 0)

  lemma {:induction false} UnboundedTotal(cap: Int, d: seq<Socket>, n: nat)
    requires 0 <= cap && n <= |d| && forall s :: s in d ==> s == UNBOUNDED
    ensures Clamp(cap, d, n) == cap && Total(cap, d, n) == n * cap
  {
    if n > 0 {
      UnboundedTotal(cap, d, n - 1);
      assert d[n - 1] in d;
      assert Clamp(cap, d, n) == ClampOne(cap, UNBOUNDED);
      AddTimes(n - 1, 1, cap);
    }
  }

  /** On a node with `n` sockets the caps stay within the node's request, whatever maxima below 2^31 are
      answered, exactly when `n` halves of it do. */
  lemma NodeBudget(watts: Int, n: nat)
    requires 0 <= watts && HalfNode(watts) < I32
    ensures (forall d: seq<Socket> :: SmallMaxima(d) && |d| == n ==> Total(HalfNode(watts), d, n) <= watts * 1000)
            <==> n * (watts / 2) <= watts
  {
    var cap: Int := HalfNode(watts);
    assert n * cap == n * (watts / 2) * 1000 by { MulAssoc(n, watts / 2, 1000); }
    if n * (watts / 2) <= watts {
      forall d: seq<Socket> | SmallMaxima(d) && |d| == n
        ensures Total(cap, d, n) <= watts * 1000
      {
        TotalBound(cap, d, n);
      }
    } else {
      var d := seq(n, _ => UNBOUNDED);
      UnboundedTotal(cap, d, n);
      assert SmallMaxima(d);
    }
  }

  /** With a maximum that does not fit an int the total is lost at the first socket: whatever maxima are
      answered, the budget is kept on a node without sockets only. */
  lemma NodeBudgetAnyMaxima(watts: Int, n: nat)
    requires 0 <= watts && HalfNode(watts) < I32
    ensures (forall d: seq<Socket> :: |d| == n ==> Total(HalfNode(watts), d, n) <= watts * 1000) <==> n == 0
  {
    if n == 0 {
      assert forall d: seq<Socket> :: Total(HalfNode(watts), d, 0) == 0;
    } else {
      var d := seq(n, _ => OVERSIZED);
      OversizedTotal(HalfNode(watts), d, n);
      assert |d| == n;
    }
  }

  /** A socket whose maximum reads as -1. */
  const OVERSIZED := Socket(0, U32 - 1, 0, 0, 0)

  lemma {:induction false} OversizedTotal(cap: Int, d: seq<Socket>, n: nat)
    requires 0 <= cap && 0 < n <= |d| && forall s :: s in d ==> s == OVERSIZED
    ensures Clamp(cap, d, n) == -1 && Total(cap, d, n) >= U32 - 1
  {
    assert d[n - 1] in d;
    assert Clamp(cap, d, n) == ClampOne(Clamp(cap, d, n - 1), OVERSIZED);
    if n > 1 {
      OversizedTotal(cap, d, n - 1);
    } else {
      ClampNone(cap, d);
    }
  }

  /** So two sockets never exceed the request, and three do for every even request above 0. */
  lemma TwoSocketsAtMost(watts: Int, n: nat)
    requires 0 <= watts
    ensures n <= 2 ==> n * (watts / 2) <= watts
    ensures n > 2 && watts % 2 == 0 && watts > 0 ==> n * (watts / 2) > watts
  {
    if n <= 2 {
      MulMono(n, 2, watts / 2);
    } else {
      MulMono(3, n, watts / 2);
    }
  }
}
