/** The power-cap controller loop of power_wrapper_dynamic.c.

    Every fifth poll moves the socket cap by 5 W, down from the requested cap and up again from 30 W.
    The run has a closed form, and it stays at or below the requested cap only for requests above 30 W.
 */
module PowerCapController {
  import opened Arithmetic

  /** The loop's variables: the current cap, the direction of the next move and the poll counter. */
  datatype State = State(watts: int, pollDir: int, pollNum: nat)

  /** The state in which the loop is entered. */
  function Start(cap: int): State {
    State(cap, 5, 1)
  }

  /** The direction chosen at a move; the floor test comes second and wins. */
  function Direction(cap: int, watts: int, pollDir: int): int {
    var d := if watts >= cap then -5 else pollDir;
    if watts <= 30 then 5 else d
  }

  function Poll(cap: int, s: State): State {
    if s.pollNum % 5 == 0 then
      var d := Direction(cap, s.watts, s.pollDir);
      State(s.watts + d, d, s.pollNum + 1)
    else
      s.(pollNum := s.pollNum + 1)
  }

  /** The state after `k` passes of the loop. */
  function After(cap: int, k: nat): State {
    if k == 0 then Start(cap) else Poll(cap, After(cap, k - 1))
  }

  class Controller {
    const wattCap: int
    var watts: int
    var pollDir: int
    var pollNum: nat

    function Value(): State
      reads this
    {
      State(watts, pollDir, pollNum)
    }

    constructor (cap: int)
      ensures wattCap == cap && Value() == Start(cap)
    {
      wattCap, watts, pollDir, pollNum := cap, cap, 5, 1;
    }

    /** `polls` passes of the loop; `caps` lists the limits sent to the sockets, the first one before
        the loop is entered. */
    method Run(polls: nat) returns (caps: seq<int>)
      requires Value() == Start(wattCap)
      modifies this
      ensures Value() == After(wattCap, polls)
      ensures |caps| == polls / 5 + 1
      ensures forall u: nat :: u < |caps| ==> caps[u] == After(wattCap, 5 * u).watts
    {
      caps := [watts];
      var k := 0;
      while k < polls
        invariant k <= polls
        invariant Value() == After(wattCap, k) && pollNum == k + 1
        invariant |caps| == k / 5 + 1
        invariant forall u: nat :: u < |caps| ==> caps[u] == After(wattCap, 5 * u).watts
      {
        if pollNum % 5 == 0 {
          if watts >= wattCap {
            pollDir := -5;
          }
          if watts <= 30 {
            pollDir := 5;
          }
          watts := watts + pollDir;
          caps := caps + [watts];
        }
        pollNum := pollNum + 1;
        k := k + 1;
      }
    }
  }

  // ----- requests above 30 W: a triangle wave --------------------------------------------------

  /** Number of 5 W moves from the cap down to the first value not above 30 W. */
  function Depth(cap: int): nat
    requires cap > 30
  {
    (cap - 30 + 4) / 5
  }

  /** The triangle wave 0, 1, ..., n, n - 1, ..., 0 of period 2n. */
  function Triangle(u: nat, n: nat): nat
    requires n > 0
  {
    var m := u % (2 * n);
    if m <= n then m else 2 * n - m
  }

  /** The cap and the stored direction after `u` moves from a request above 30 W. */
  function HighWatts(cap: int, u: nat): int
    requires cap > 30
  {
    cap - 5 * Triangle(u, Depth(cap))
  }

  function HighDirection(cap: int, u: nat): int
    requires cap > 30
  {
    if 1 <= u % (2 * Depth(cap)) <= Depth(cap) then -5 else 5
  }

  lemma HighMove(cap: int, u: nat)
    requires cap > 30
    ensures HighDirection(cap, u + 1) == Direction(cap, HighWatts(cap, u), HighDirection(cap, u))
    ensures HighWatts(cap, u + 1) == HighWatts(cap, u) + HighDirection(cap, u + 1)
  {
    NextDivMod(u, 2 * Depth(cap));
  }

  lemma HighStart(cap: int)
    requires cap > 30
    ensures HighWatts(cap, 0) == cap && HighDirection(cap, 0) == 5
  {
  }

  /** After `k` passes the cap has moved `k / 5` times along the wave, and the stored direction is
      that of the last move. */
  lemma {:induction false} TriangleWave(cap: int, k: nat)
    requires cap > 30
    ensures After(cap, k) == State(HighWatts(cap, k / 5), HighDirection(cap, k / 5), k + 1)
  {
    hide HighWatts, HighDirection, Direction;
    if k == 0 {
      HighStart(cap);
    } else {
      TriangleWave(cap, k - 1);
      HighMove(cap, (k - 1) / 5);
    }
  }

  /** The cap stays in steps of 5 W between 25 W (not reached) and the request. */
  lemma StaysInRange(cap: int, k: nat)
    requires cap > 30
    ensures var w := After(cap, k).watts;
            25 < w <= cap && (cap - w) % 5 == 0
  {
    TriangleWave(cap, k);
  }

  /** It is back at the request after every full period. */
  lemma ReturnsToCap(cap: int, periods: nat)
    requires cap > 30
    ensures After(cap, 5 * (periods * (2 * Depth(cap)))).watts == cap
  {
    var n := Depth(cap);
    var u := periods * (2 * n);
    assert u >= 0;
    DivModUnique(u, 2 * n, periods, 0);
    AtPeriod(cap, u);
  }

  lemma AtPeriod(cap: int, u: nat)
    requires cap > 30 && u % (2 * Depth(cap)) == 0
    ensures After(cap, 5 * u).watts == cap
  {
    TriangleWave(cap, 5 * u);
  }

  // ----- requests up to 30 W -------------------------------------------------------------------

  /** Number of moves a low request is raised before the cap first exceeds 30 W. */
  function Rise(cap: int): nat
    requires cap <= 30
  {
    (30 - cap) / 5 + 1
  }

  /** The cap after `u` moves from a low request: up past 30 W, then alternating around 30 W. */
  function LowWatts(cap: int, u: nat): int
    requires cap <= 30
  {
    var n := Rise(cap);
    cap + 5 * (if u <= n then u else n - (u - n) % 2)
  }

  lemma LowStart(cap: int)
    requires cap <= 30
    ensures LowWatts(cap, 0) == cap
  {
  }

  lemma LowMove(cap: int, u: nat, pollDir: int)
    requires cap <= 30
    ensures cap <= LowWatts(cap, u) <= 35
    ensures LowWatts(cap, u + 1) == LowWatts(cap, u) + Direction(cap, LowWatts(cap, u), pollDir)
  {
    var n := Rise(cap);
    assert 30 < cap + 5 * n <= 35;
    if u >= n { NextDivMod(u - n, 2); }
  }

  /** A low request is raised past 30 W and then alternates around 30 W for ever. */
  lemma {:induction false} LowRequest(cap: int, k: nat)
    requires cap <= 30
    ensures After(cap, k).pollNum == k + 1
    ensures cap <= After(cap, k).watts == LowWatts(cap, k / 5) <= 35
  {
    hide LowWatts, Direction, Rise;
    LowMove(cap, k / 5, 5);
    if k == 0 {
      LowStart(cap);
    } else {
      LowRequest(cap, k - 1);
      LowMove(cap, (k - 1) / 5, After(cap, k - 1).pollDir);
    }
  }

  /** The controller keeps to the requested cap in every run exactly when the request is above 30 W;
      a request of 30 W or less is exceeded at the first move. */
  lemma KeepsToRequest(cap: int)
    ensures (forall k: nat :: After(cap, k).watts <= cap) <==> cap > 30
  {
    if cap > 30 {
      forall k: nat
        ensures After(cap, k).watts <= cap
      {
        StaysInRange(cap, k);
      }
    } else {
      LowRequest(cap, 5);
      assert After(cap, 5).watts == cap + 5;
    }
  }
}
