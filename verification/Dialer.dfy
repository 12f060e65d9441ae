/**
 * `newTunnel` of `connpool/dialer.go`: a random start, then the creators in cyclic order until
 * one succeeds, at most `DIAL_RETRY` times each. `int` is 64 bits wide and wraps. What the
 * network does is a parameter: the result of attempt number `k` when made on creator `i`.
 */
module Dialer {
  import opened Prelude

  const DIAL_RETRY: nat := 2
  const MAX_INT: int := 0x7fff_ffff_ffff_ffff

  /** Two's complement in 64 bits. */
  function Int64(x: int): int {
    var m := x % 0x1_0000_0000_0000_0000;
    if m <= MAX_INT then m else m - 0x1_0000_0000_0000_0000
  }

  /** A tunnel, named by a number. */
  type Tunnel = nat

  type Network = (nat, nat) -> Option<Tunnel>

  datatype Outcome = Done | ErrNoCreator | ErrDial

  /** The creator asked by attempt number `k`. */
  function Turn(n: nat, start: nat, k: nat): nat
    requires n > 0
  {
    (start + k) % n
  }

  function Result(net: Network, n: nat, start: nat, k: nat): Option<Tunnel>
    requires n > 0
  {
    net(Turn(n, start, k), k)
  }

  /** How often creator `j` comes up in `len` attempts. */
  function Times(n: nat, start: nat, len: nat, j: nat): nat
    requires n > 0
  {
    if len == 0 then 0 else
    Times(n, start, len - 1, j) + if Turn(n, start, len - 1) == j then 1 else 0
  }

  lemma {:induction false} TimesAppend(n: nat, start: nat, a: nat, b: nat, j: nat)
    requires n > 0
    ensures Times(n, start, a + b, j) == Times(n, start, a, j) + Times(n, start + a, b, j)
  {
    if b > 0 {
      TimesAppend(n, start, a, b - 1, j);
      assert Turn(n, start, a + b - 1) == Turn(n, start + a, b - 1);
    }
  }

  lemma NoSmallMultiple(n: int, d: int)
    requires -n < n * d < n
    ensures d == 0
  {
  }

  lemma TurnRepeats(n: nat, start: nat)
    requires n > 0
    ensures Turn(n, start, n) == Turn(n, start, 0)
  {
    var q, r := start / n, start % n;
    var q', r' := (start + n) / n, (start + n) % n;
    assert start == n * q + r;
    assert start + n == n * q' + r';
    assert n * (q' - q - 1) == n * q' - n * q - n;
    NoSmallMultiple(n, q' - q - 1);
  }

  lemma {:induction false} TimesFromZero(n: nat, len: nat, j: nat)
    requires 0 < n && len <= n && j < n
    ensures Times(n, 0, len, j) == if j < len then 1 else 0
  {
    if len > 0 {
      TimesFromZero(n, len - 1, j);
      assert Turn(n, 0, len - 1) == len - 1;
    }
  }

  /** Any `n` attempts in a row ask every creator once. */
  lemma {:induction false} OncePerRound(n: nat, start: nat, j: nat)
    requires 0 < n && j < n
    ensures Times(n, start, n, j) == 1
  {
    if start == 0 {
      TimesFromZero(n, n, j);
    } else {
      OncePerRound(n, start - 1, j);
      TimesAppend(n, start - 1, 1, n, j);
      TurnRepeats(n, start - 1);
      assert Times(n, start - 1, 0, j) == 0;
      assert Times(n, start - 1, 1, j) == if Turn(n, start - 1, 0) == j then 1 else 0;
    }
  }

  /** A full dial asks every creator exactly `DIAL_RETRY` times, from any start. */
  lemma EachRetried(n: nat, start: nat, j: nat)
    requires 0 < n && j < n
    ensures Times(n, start, DIAL_RETRY * n, j) == DIAL_RETRY
  {
    OncePerRound(n, start, j);
    OncePerRound(n, start + n, j);
    TimesAppend(n, start, n, n, j);
  }

  /** How many of the first `len` attempts were failures of creator `j`. */
  function Failures(net: Network, n: nat, start: nat, len: nat, j: nat): nat
    requires n > 0
  {
    if len == 0 then 0 else
    Failures(net, n, start, len - 1, j)
    + if Turn(n, start, len - 1) == j && Result(net, n, start, len - 1).None? then 1 else 0
  }

  lemma {:induction false} AllFailed(net: Network, n: nat, start: nat, len: nat, j: nat)
    requires n > 0 && forall k :: 0 <= k < len ==> Result(net, n, start, k).None?
    ensures Failures(net, n, start, len, j) == Times(n, start, len, j)
  {
    if len > 0 {
      AllFailed(net, n, start, len - 1, j);
    }
  }

  lemma {:induction false} FailuresAtMost(net: Network, n: nat, start: nat, len: nat, j: nat)
    requires n > 0
    ensures Failures(net, n, start, len, j) <= Times(n, start, len, j)
    ensures forall k :: 0 <= k < len && Turn(n, start, k) == j && Result(net, n, start, k).Some?
                        ==> Failures(net, n, start, len, j) < Times(n, start, len, j)
  {
    if len > 0 {
      FailuresAtMost(net, n, start, len - 1, j);
    }
  }

  /** The loop bound wrapped round. */
  predicate Overflows(n: nat, start: nat) {
    start + DIAL_RETRY * n > MAX_INT
  }

  /** The sum wraps below the start exactly when it leaves the range, and then the loop is empty. */
  lemma WrapsBelow(n: nat, start: nat)
    requires 0 < n <= MAX_INT && start <= MAX_INT
    ensures Overflows(n, start) ==> Int64(start + Int64(DIAL_RETRY * n)) < start
    ensures !Overflows(n, start) ==> Int64(start + Int64(DIAL_RETRY * n)) == start + DIAL_RETRY * n
  {
  }

  /** The dial failed: nothing was left untried, and every creator was asked to its limit. */
  ghost predicate Exhausted(net: Network, n: nat, start: nat)
    requires n > 0
  {
    && !Overflows(n, start)
    && forall j :: 0 <= j < n ==> Failures(net, n, start, DIAL_RETRY * n, j) == DIAL_RETRY
  }

  /** Every creator failing to its limit is the same as every attempt failing. */
  lemma ExhaustedMeansAllFailed(net: Network, n: nat, start: nat)
    requires n > 0 && !Overflows(n, start)
    ensures Exhausted(net, n, start)
       <==> forall k :: 0 <= k < DIAL_RETRY * n ==> Result(net, n, start, k).None?
  {
    var len := DIAL_RETRY * n;
    forall j | 0 <= j < n
      ensures Times(n, start, len, j) == DIAL_RETRY
    {
      EachRetried(n, start, j);
    }
    if forall k :: 0 <= k < len ==> Result(net, n, start, k).None? {
      forall j | 0 <= j < n
        ensures Failures(net, n, start, len, j) == DIAL_RETRY
      {
        AllFailed(net, n, start, len, j);
      }
    } else {
      var k :| 0 <= k < len && Result(net, n, start, k).Some?;
      FailuresAtMost(net, n, start, len, Turn(n, start, k));
    }
  }

  /** The dial loop on its own: `tried` lists the creators asked, in order. */
  method Dial(net: Network, n: nat, start: nat) returns (tun: Option<Tunnel>, failed: bool, tried: seq<nat>)
    requires 0 < n <= MAX_INT && start <= MAX_INT
    ensures forall k :: 0 <= k < |tried| ==> tried[k] == Turn(n, start, k)
    ensures |tried| <= DIAL_RETRY * n
    ensures failed <==> Exhausted(net, n, start)
    ensures failed ==> |tried| == DIAL_RETRY * n
    ensures tried == [] <==> Overflows(n, start)
    ensures tun.None? <==> failed || Overflows(n, start)
    ensures tun.Some? ==> |tried| > 0 && tun == Result(net, n, start, |tried| - 1)
    ensures tun.Some? ==> forall k :: 0 <= k < |tried| - 1 ==> Result(net, n, start, k).None?
  {
    tun, failed, tried := None, false, [];
    WrapsBelow(n, start);
    var end := Int64(start + Int64(DIAL_RETRY * n));
    var i := start;
    while i < end
      invariant start <= i && |tried| == i - start
      invariant i <= end || tried == []
      invariant forall k :: 0 <= k < |tried| ==> tried[k] == Turn(n, start, k)
      invariant forall k :: 0 <= k < |tried| ==> Result(net, n, start, k).None?
      invariant tun.None? && failed == (tried != [])
    {
      var orig := i % n;
      assert orig == Turn(n, start, i - start);
      tried := tried + [orig];
      tun := net(orig, i - start);
      failed := tun.None?;
      if failed {
        i := i + 1;
        continue;
      }
      break;
    }
    if !Overflows(n, start) {
      ExhaustedMeansAllFailed(net, n, start);
      if tun.Some? {
        assert Result(net, n, start, |tried| - 1).Some?;
      }
    }
  }

  /** A creator, named by a number. */
  type Creator = nat

  /** What the network does when attempt number k is made on the creator whose turn it is. */
  function Asked(net: Network, creators: seq<Creator>, start: nat, k: nat): (r: Option<Tunnel>)
    requires creators != []
    ensures r == Result(Through(net, creators), |creators|, start, k)
  {
    net(creators[(start + k) % |creators|], k)
  }

  /** What the network does when the i-th of these creators is asked. */
  function Through(net: Network, creators: seq<Creator>): Network {
    (i: nat, k: nat) => if i < |creators| then net(creators[i], k) else None
  }

  /** Every creator failing to its limit, said of these creators. */
  lemma AllAskedFailed(net: Network, creators: seq<Creator>, start: nat)
    requires creators != [] && !Overflows(|creators|, start)
    ensures Exhausted(Through(net, creators), |creators|, start)
       <==> forall k :: 0 <= k < DIAL_RETRY * |creators| ==> Asked(net, creators, start, k).None?
  {
    ExhaustedMeansAllFailed(Through(net, creators), |creators|, start);
    assert forall k: nat :: Asked(net, creators, start, k) == Result(Through(net, creators), |creators|, start, k);
  }

  /** `tunpool` may hold the nil tunnel, here `None`. */
  class Dialer {
    var creators: seq<Creator>
    var tunpool: set<Option<Tunnel>>

    constructor ()
      ensures creators == [] && tunpool == {}
    {
      creators, tunpool := [], {};
    }

    method AddDialerCreator(orig: Creator)
      modifies this`creators
      ensures creators == old(creators) + [orig]
    {
      creators := creators + [orig];
    }

    /**
     * An error is reported only without creators or after every one failed to its limit;
     * otherwise the pool gains one tunnel, which is the nil tunnel exactly when the loop bound
     * overflowed and nothing was dialled.
     */
    method NewTunnel(create: bool, net: Network, start: nat) returns (err: Outcome, tried: seq<nat>)
      requires |creators| <= MAX_INT && start <= MAX_INT
      modifies this`tunpool
      ensures create && old(tunpool) != {} ==> err == Done && tried == [] && tunpool == old(tunpool)
      ensures err == ErrNoCreator <==> !(create && old(tunpool) != {}) && creators == []
      ensures err == ErrDial <==>
                && !(create && old(tunpool) != {}) && creators != [] && !Overflows(|creators|, start)
                && forall k :: 0 <= k < DIAL_RETRY * |creators| ==> Asked(net, creators, start, k).None?
      ensures err != Done ==> tunpool == old(tunpool)
      ensures err == ErrNoCreator ==> tried == []
      ensures err == ErrDial ==> |tried| == DIAL_RETRY * |creators|
      ensures err == Done && !(create && old(tunpool) != {}) ==>
                var n := |creators|;
                && n > 0
                && (Overflows(n, start) ==> tried == [] && tunpool == old(tunpool) + {None})
                && (!Overflows(n, start) ==>
                      && 0 < |tried| <= DIAL_RETRY * n
                      && net(creators[(start + |tried| - 1) % n], |tried| - 1).Some?
                      && (forall k :: 0 <= k < |tried| - 1 ==> Asked(net, creators, start, k).None?)
                      && tunpool == old(tunpool) + {net(creators[(start + |tried| - 1) % n], |tried| - 1)})
      ensures forall k :: 0 <= k < |tried| ==> creators != [] && tried[k] == (start + k) % |creators|
    {
      tried := [];
      if create && tunpool != {} {
        return Done, tried;
      }
      if |creators| == 0 {
        return ErrNoCreator, tried;
      }
      var tun, failed;
      tun, failed, tried := Dial(Through(net, creators), |creators|, start);
      if !Overflows(|creators|, start) {
        AllAskedFailed(net, creators, start);
      }
      if failed {
        return ErrDial, tried;
      }
      tunpool := tunpool + {tun};
      err := Done;
    }
  }
}
