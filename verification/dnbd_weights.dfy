// The servers of the block driver: their smoothed round trip times, the weights computed
// from them, and the choice of a server by a random byte.

module ServerWeights {
  import opened Arithmetic

  const SERVERS_MAX: nat := 8
  const SRTT_BETA: nat := 990
  const SRTT_BETA_BASE: nat := 1000
  const SRTT_UNIT: nat := 1024
  const WEIGHT_NORMAL: nat := 255
  const WEIGHT_FACTOR: nat := 0x10_0000

  datatype ServerState = Stalled | Inactive | Active

  datatype Server = Server(id: nat, state: ServerState, srtt: nat, weight: nat, lastRx: nat, lastTx: nat)

  // A time of zero counts as one.
  function Time(s: Server): (t: nat)
    ensures t > 0
  {
    if s.srtt == 0 then 1 else s.srtt
  }

  // A server that has not answered for too long is stalled.
  function Checked(s: Server, timeout: nat): Server {
    if s.state.Active? && s.lastTx > s.lastRx + timeout then s.(state := Stalled) else s
  }

  function CheckedAll(list: seq<Server>, timeout: nat): (r: seq<Server>)
    ensures |r| == |list| && forall i :: 0 <= i < |list| ==> r[i] == Checked(list[i], timeout)
  {
    seq(|list|, i requires 0 <= i < |list| => Checked(list[i], timeout))
  }

  // Sums over the active servers among the first n ---------------------------------------

  function Count(list: seq<Server>, n: nat): nat
    requires n <= |list|
  {
    if n == 0 then 0 else Count(list, n - 1) + if list[n - 1].state.Active? then 1 else 0
  }

  function Factors(list: seq<Server>, n: nat): nat
    requires n <= |list|
  {
    if n == 0 then 0
    else Factors(list, n - 1) + if list[n - 1].state.Active? then WEIGHT_FACTOR / Time(list[n - 1]) else 0
  }

  function Times(list: seq<Server>, n: nat): nat
    requires n <= |list|
  {
    if n == 0 then 0 else Times(list, n - 1) + if list[n - 1].state.Active? then Time(list[n - 1]) else 0
  }

  function Weights(list: seq<Server>, n: nat): nat
    requires n <= |list|
  {
    if n == 0 then 0 else Weights(list, n - 1) + if list[n - 1].state.Active? then list[n - 1].weight else 0
  }

  predicate Summed(list: seq<Server>, n: nat, count: nat, factors: nat, times: nat) {
    n <= |list| && count == Count(list, n) && factors == Factors(list, n) && times == Times(list, n)
  }

  lemma SummedStep(list: seq<Server>, n: nat, count: nat, factors: nat, times: nat)
    requires n < |list| && Summed(list, n, count, factors, times)
    ensures if list[n].state.Active?
      then Summed(list, n + 1, count + 1, factors + WEIGHT_FACTOR / Time(list[n]), times + Time(list[n]))
      else Summed(list, n + 1, count, factors, times)
  {
  }

  // The weight of a server
  function WeightOf(time: nat, factors: nat, count: nat): nat
    requires time > 0 && count > 0
  {
    if time * factors > 0 then WEIGHT_NORMAL * WEIGHT_FACTOR / (time * factors) else WEIGHT_NORMAL / count
  }

  function Weighed(s: Server, factors: nat, count: nat): Server
    requires count > 0
  {
    if s.state.Active? then s.(weight := WeightOf(Time(s), factors, count)) else s
  }

  // The list after a round of weighing: nothing is weighed when no server is active.
  ghost predicate IsWeighing(before: seq<Server>, after: seq<Server>, timeout: nat) {
    var list := CheckedAll(before, timeout);
    var count, factors := Count(list, |list|), Factors(list, |list|);
    && |after| == |before|
    && if count == 0 then after == list
       else forall i :: 0 <= i < |list| ==> after[i] == Weighed(list[i], factors, count)
  }

  // A round of weighing stalls exactly the active servers that were sent something more than
  // the timeout after they last answered; otherwise only weights of active servers change.
  lemma StalledIff(before: seq<Server>, after: seq<Server>, timeout: nat, i: nat)
    requires IsWeighing(before, after, timeout) && i < |before|
    ensures var s, t := before[i], after[i];
      && (t.state == Stalled <==> s.state == Stalled || (s.state == Active && s.lastTx > s.lastRx + timeout))
      && (t.state == Inactive <==> s.state == Inactive)
      && t == s.(state := t.state, weight := t.weight)
      && (t.state != Active ==> t.weight == s.weight)
  {
    assert CheckedAll(before, timeout)[i] == Checked(before[i], timeout);
  }

  // The average of the times of the active servers lies between any bounds of them.
  lemma AverageBetween(list: seq<Server>, lo: nat, hi: nat)
    requires Count(list, |list|) > 0
    requires forall i :: 0 <= i < |list| && list[i].state.Active? ==>
      lo <= (if list[i].srtt == 0 then 1 else list[i].srtt) <= hi
    ensures lo <= Times(list, |list|) / Count(list, |list|) <= hi
  {
    TimesBetween(list, |list|, lo, hi);
    Quotient(Times(list, |list|), Count(list, |list|), lo, hi);
  }

  lemma Quotient(a: nat, n: nat, lo: nat, hi: nat)
    requires n > 0 && n * lo <= a <= n * hi
    ensures lo <= a / n <= hi
  {
    Division(a, n);
    CancelLess(n, lo, a / n + 1);
    assert n * (hi + 1) == n * hi + n;
    CancelLess(n, a / n, hi + 1);
  }

  lemma {:induction false} TimesBetween(list: seq<Server>, n: nat, lo: nat, hi: nat)
    requires n <= |list|
    requires forall i :: 0 <= i < n && list[i].state.Active? ==> lo <= Time(list[i]) <= hi
    ensures Count(list, n) * lo <= Times(list, n) <= Count(list, n) * hi
  {
    if n > 0 {
      TimesBetween(list, n - 1, lo, hi);
      var c := Count(list, n - 1);
      assert (c + 1) * lo == c * lo + lo && (c + 1) * hi == c * hi + hi;
    }
  }

  // Each weight is the share of its server, up to rounding.
  lemma WeightShare(time: nat, factors: nat, count: nat)
    requires time > 0 && factors > 0 && count > 0
    ensures var w, f := WeightOf(time, factors, count), WEIGHT_FACTOR / time;
      WEIGHT_NORMAL * f < factors * (w + 1) && factors * w < WEIGHT_NORMAL * (f + 1)
  {
    var p, all := time * factors, WEIGHT_NORMAL * WEIGHT_FACTOR;
    var w, f := all / p, WEIGHT_FACTOR / time;
    ProductPositive(time, factors);
    Division(all, p);
    Division(WEIGHT_FACTOR, time);
    // time * factors * w <= all < time * factors * (w + 1), and the same for f
    assert time * (WEIGHT_NORMAL * f) == WEIGHT_NORMAL * (time * f);
    assert time * (factors * (w + 1)) == p * (w + 1);
    assert time * (factors * w) == p * w;
    assert time * (WEIGHT_NORMAL * (f + 1)) == WEIGHT_NORMAL * (time * (f + 1));
    CancelLess(time, WEIGHT_NORMAL * f, factors * (w + 1));
    CancelLess(time, factors * w, WEIGHT_NORMAL * (f + 1));
  }

  lemma ProductPositive(a: nat, b: nat)
    requires a > 0 && b > 0
    ensures a * b > 0
  {
  }

  lemma Division(a: nat, d: nat)
    requires d > 0
    ensures d * (a / d) <= a < d * (a / d + 1)
  {
  }

  lemma CancelLess(t: nat, a: nat, b: nat)
    requires t > 0 && t * a < t * b
    ensures a < b
  {
    if a >= b {
      MulMonotone(t, b, a);
    }
  }

  // The sums of the shares
  lemma {:induction false} WeightsBounds(list: seq<Server>, factors: nat, count: nat, n: nat)
    requires n <= |list| && factors > 0 && count > 0
    requires forall i :: 0 <= i < n && list[i].state.Active? ==>
      list[i].weight == WeightOf(Time(list[i]), factors, count)
    ensures WEIGHT_NORMAL * Factors(list, n) <= factors * (Weights(list, n) + Count(list, n))
    ensures factors * Weights(list, n) <= WEIGHT_NORMAL * (Factors(list, n) + Count(list, n))
    ensures Count(list, n) > 0 ==>
      && WEIGHT_NORMAL * Factors(list, n) < factors * (Weights(list, n) + Count(list, n))
      && factors * Weights(list, n) < WEIGHT_NORMAL * (Factors(list, n) + Count(list, n))
  {
    if n > 0 {
      WeightsBounds(list, factors, count, n - 1);
      if list[n - 1].state.Active? {
        var s := list[n - 1];
        WeightShare(Time(s), factors, count);
        AddShare(factors, Weights(list, n - 1), Count(list, n - 1), s.weight);
      }
    }
  }

  lemma AddShare(factors: nat, k: nat, p: nat, w: nat)
    ensures factors * ((k + w) + (p + 1)) == factors * (k + p) + factors * (w + 1)
    ensures factors * (k + w) == factors * k + factors * w
  {
  }

  // When every time is so long that its factor is zero, all get the same weight.
  lemma {:induction false} EqualWeights(list: seq<Server>, count: nat, n: nat)
    requires n <= |list| && count > 0
    requires forall i :: 0 <= i < n && list[i].state.Active? ==> list[i].weight == WEIGHT_NORMAL / count
    ensures Weights(list, n) == Count(list, n) * (WEIGHT_NORMAL / count)
  {
    if n > 0 {
      EqualWeights(list, count, n - 1);
      var c := Count(list, n - 1);
      assert (c + 1) * (WEIGHT_NORMAL / count) == c * (WEIGHT_NORMAL / count) + WEIGHT_NORMAL / count;
    }
  }

  lemma {:induction false} WeighedSums(list: seq<Server>, after: seq<Server>, factors: nat, count: nat, n: nat)
    requires n <= |list| == |after| && count > 0
    requires forall i :: 0 <= i < |list| ==> after[i] == Weighed(list[i], factors, count)
    ensures Count(after, n) == Count(list, n) && Factors(after, n) == Factors(list, n)
    ensures Times(after, n) == Times(list, n)
  {
    if n > 0 {
      WeighedSums(list, after, factors, count, n - 1);
    }
  }

  // The weights of n active servers add up to 255, less than n below it, and above it by no
  // more than the factors lose by rounding.
  lemma WeighingBounds(before: seq<Server>, after: seq<Server>, timeout: nat)
    requires IsWeighing(before, after, timeout) && Count(after, |after|) > 0
    ensures var n, w, sum := Count(after, |after|), Factors(after, |after|), Weights(after, |after|);
      && WEIGHT_NORMAL < sum + n
      && (w > 0 ==> w * sum < WEIGHT_NORMAL * (w + n))
      && (w == 0 ==> sum <= WEIGHT_NORMAL)
  {
    var list := CheckedAll(before, timeout);
    var n, w, sum := Count(list, |list|), Factors(list, |list|), Weights(after, |after|);
    if n == 0 {
      assert false;
    }
    WeighedSums(list, after, w, n, |list|);
    if w > 0 {
      WeightsBounds(after, w, n, |after|);
      CancelLess(w, WEIGHT_NORMAL, sum + n);
    } else {
      forall i | 0 <= i < |after| && after[i].state.Active? ensures after[i].weight == WEIGHT_NORMAL / n {
        assert after[i] == Weighed(list[i], w, n);
      }
      EqualWeights(after, n, |after|);
      Division(WEIGHT_NORMAL, n);
      assert n * (WEIGHT_NORMAL / n + 1) == n * (WEIGHT_NORMAL / n) + n;
    }
  }

  // The choice of a server ----------------------------------------------------------------

  // The random byte falls into the range of the i-th server.
  predicate Picks(list: seq<Server>, i: nat, rnd: int)
    requires i < |list|
  {
    Weights(list, i) <= rnd < Weights(list, i + 1)
  }

  function Min(a: int, b: int): int {
    if a < b then a else b
  }

  lemma {:induction false} WeightsMonotone(list: seq<Server>, m: nat, n: nat)
    requires m <= n <= |list|
    ensures Weights(list, m) <= Weights(list, n)
  {
    if m < n {
      WeightsMonotone(list, m, n - 1);
    }
  }

  lemma PicksOne(list: seq<Server>, i: nat, j: nat, rnd: int)
    requires i < |list| && j < |list| && Picks(list, i, rnd) && Picks(list, j, rnd)
    ensures i == j && list[i].state.Active?
  {
    if i < j {
      WeightsMonotone(list, i + 1, j);
    } else if j < i {
      WeightsMonotone(list, j + 1, i);
    }
  }

  function Interval(a: int, b: int): set<int>
    decreases b - a
  {
    if a >= b then {} else Interval(a, b - 1) + {b - 1}
  }

  lemma {:induction false} IntervalSize(a: int, b: int)
    ensures |Interval(a, b)| == if a <= b then b - a else 0
    ensures forall r :: r in Interval(a, b) <==> a <= r < b
    decreases b - a
  {
    if a < b {
      IntervalSize(a, b - 1);
    }
  }

  // So many of the 256 bytes choose the i-th server.
  lemma BytesOfServer(list: seq<Server>, i: nat)
    requires i < |list|
    ensures |set r: int | 0 <= r < 256 && Picks(list, i, r)|
         == Min(Weights(list, i + 1), 256) - Min(Weights(list, i), 256)
  {
    var a, b := Min(Weights(list, i), 256), Min(Weights(list, i + 1), 256);
    IntervalSize(a, b);
    assert (set r: int | 0 <= r < 256 && Picks(list, i, r)) == Interval(a, b);
  }

  // The random byte is above all ranges.
  predicate PicksNone(list: seq<Server>, rnd: int) {
    rnd >= Weights(list, |list|)
  }

  // So many of the 256 bytes choose none.
  lemma BytesOfNone(list: seq<Server>)
    ensures |set r: int | 0 <= r < 256 && PicksNone(list, r)| == 256 - Min(Weights(list, |list|), 256)
    ensures (exists r: int :: 0 <= r < 256 && PicksNone(list, r)) <==> Weights(list, |list|) < 256
  {
    var sum := Min(Weights(list, |list|), 256);
    IntervalSize(sum, 256);
    assert (set r: int | 0 <= r < 256 && PicksNone(list, r)) == Interval(sum, 256);
    assert Weights(list, |list|) < 256 ==> PicksNone(list, 255);
  }

  // After weighing, at most as many bytes as there are active servers choose none.
  lemma BytesWithoutServer(before: seq<Server>, after: seq<Server>, timeout: nat)
    requires IsWeighing(before, after, timeout) && Count(after, |after|) > 0
    ensures |set r: int | 0 <= r < 256 && PicksNone(after, r)| <= Count(after, |after|)
  {
    WeighingBounds(before, after, timeout);
    BytesOfNone(after);
  }

  // The weights that active servers will get
  function DueWeights(list: seq<Server>, factors: nat, count: nat, n: nat): nat
    requires n <= |list| && count > 0
  {
    if n == 0 then 0
    else DueWeights(list, factors, count, n - 1)
         + if list[n - 1].state.Active? then WeightOf(Time(list[n - 1]), factors, count) else 0
  }

  lemma {:induction false} WeightsAreDue(list: seq<Server>, after: seq<Server>, factors: nat, count: nat, n: nat)
    requires n <= |list| == |after| && count > 0
    requires forall i :: 0 <= i < |list| ==> after[i] == Weighed(list[i], factors, count)
    ensures Weights(after, n) == DueWeights(list, factors, count, n)
  {
    if n > 0 {
      WeightsAreDue(list, after, factors, count, n - 1);
    }
  }

  lemma {:induction false} NoActiveNoWeight(list: seq<Server>, n: nat)
    requires n <= |list| && Count(list, n) == 0
    ensures Weights(list, n) == 0
  {
    if n > 0 {
      NoActiveNoWeight(list, n - 1);
    }
  }

  // Whether a byte is left without a server, by what is known before the weighing: none is
  // if and only if the due weights reach 256.
  lemma NoByteLeftIff(before: seq<Server>, after: seq<Server>, timeout: nat)
    requires IsWeighing(before, after, timeout)
    ensures var list := CheckedAll(before, timeout);
      var n, w := Count(list, |list|), Factors(list, |list|);
      (forall r: int :: 0 <= r < 256 ==> !PicksNone(after, r)) <==> n > 0 && DueWeights(list, w, n, |list|) >= 256
  {
    var list := CheckedAll(before, timeout);
    var n, w := Count(list, |list|), Factors(list, |list|);
    BytesOfNone(after);
    if n > 0 {
      WeightsAreDue(list, after, w, n, |list|);
    } else {
      NoActiveNoWeight(list, |list|);
    }
  }

  // With factors of 255 and more on average, and when all are zero, byte 255 is left.
  lemma LastByteLeft(before: seq<Server>, after: seq<Server>, timeout: nat)
    requires IsWeighing(before, after, timeout)
    ensures var n, w := Count(after, |after|), Factors(after, |after|);
      w == 0 || w >= WEIGHT_NORMAL * n ==> PicksNone(after, 255)
  {
    var n, w, sum := Count(after, |after|), Factors(after, |after|), Weights(after, |after|);
    if n == 0 {
      NoActiveNoWeight(after, |after|);
    } else {
      WeighingBounds(before, after, timeout);
      if w >= WEIGHT_NORMAL * n {
        assert WEIGHT_NORMAL * (w + n) <= w * 256;
        CancelLess(w, sum, 256);
      }
    }
  }

  // One active server with the smallest time: it gets weight 255, and byte 255 chooses none.
  lemma OneServerLeavesByte(s: Server, after: seq<Server>)
    requires s.state.Active? && s.srtt == 1 && s.lastTx <= s.lastRx
    requires IsWeighing([s], after, 0)
    ensures after == [s.(weight := 255)] && PicksNone(after, 255)
  {
    var list := CheckedAll([s], 0);
    assert list == [s];
    assert Count(list, 1) == 1 && Factors(list, 1) == WEIGHT_FACTOR;
    assert after[0] == Weighed(s, WEIGHT_FACTOR, 1);
    assert Weights(after, 1) == 255;
  }

  lemma SumOfTwo(list: seq<Server>, n: nat)
    requires n == |list| == 2 && list[0].state.Active? && list[1].state.Active?
    ensures Weights(list, n) == list[0].weight + list[1].weight
  {
    assert Weights(list, n - 1) == Weights(list, n - 2) + list[0].weight;
  }

  // Two servers that both need 200000 units get 133 each: no byte is left, and the second
  // server loses ten.
  lemma TwoServersLeaveNone(s: Server, t: Server, after: seq<Server>, r: int)
    requires s.state.Active? && s.srtt == 200000 && s.lastTx <= s.lastRx
    requires t.state.Active? && t.srtt == 200000 && t.lastTx <= t.lastRx
    requires IsWeighing([s, t], after, 0) && 0 <= r < 256
    ensures after == [s.(weight := 133), t.(weight := 133)] && !PicksNone(after, r)
  {
    var list := CheckedAll([s, t], 0);
    assert list == [s, t];
    assert Count(list, 1) == 1 && Factors(list, 1) == 5;
    assert Count(list, 2) == 2 && Factors(list, 2) == 10;
    assert after[0] == Weighed(s, 10, 2) && after[1] == Weighed(t, 10, 2);
    SumOfTwo(after, |after|);
  }

  // The smoothed time ------------------------------------------------------------------------

  function Smoothed(srtt: nat, rtt: nat): nat {
    (SRTT_BETA * srtt + (SRTT_BETA_BASE - SRTT_BETA) * rtt * SRTT_UNIT) / SRTT_BETA_BASE
  }

  function Clamped(rtt: nat, min: nat, max: nat): nat {
    if rtt > max then max else if rtt < min then min else rtt
  }

  // The new value lies between the old one and the sample.
  lemma SmoothedBetween(srtt: nat, rtt: nat)
    ensures Min(srtt, rtt * SRTT_UNIT) <= Smoothed(srtt, rtt)
    ensures Smoothed(srtt, rtt) <= srtt || Smoothed(srtt, rtt) <= rtt * SRTT_UNIT
  {
  }

  // It is 990 parts of the old value and 10 parts of the sample, of 1000, rounded down.
  lemma SmoothedWeighs(srtt: nat, rtt: nat)
    ensures 1000 * Smoothed(srtt, rtt) <= 990 * srtt + 10 * (1024 * rtt) < 1000 * (Smoothed(srtt, rtt) + 1)
  {
  }

  // The sample itself where it is allowed, else the nearest value that is.
  lemma ClampedNearest(rtt: nat, min: nat, max: nat)
    requires min <= max
    ensures min <= Clamped(rtt, min, max) <= max
    ensures min <= rtt <= max ==> Clamped(rtt, min, max) == rtt
    ensures rtt < min ==> Clamped(rtt, min, max) == min
    ensures rtt > max ==> Clamped(rtt, min, max) == max
  {
  }

  class Servers {
    const serverlist: array<Server>
    var asrtt: nat
    var count: nat
    const timeoutMin: nat
    const timeoutMax: nat
    const timeoutStalled: nat

    predicate Valid()
      reads serverlist
    {
      && serverlist.Length == SERVERS_MAX && 1 <= timeoutMin <= timeoutMax
      && forall i :: 0 <= i < SERVERS_MAX && !serverlist[i].state.Inactive? ==>
           serverlist[i].id == i + 1 && InRange(serverlist[i].srtt, timeoutMax)
    }

    // hz is the number of timer ticks per second.
    constructor (hz: nat)
      requires hz >= 4
      ensures Valid() && fresh(serverlist)
      ensures forall i :: 0 <= i < SERVERS_MAX ==> serverlist[i].state.Inactive?
    {
      serverlist := new Server[SERVERS_MAX](_ => Server(0, Inactive, 0, 0, 0, 0));
      asrtt, count := 0, 0;
      timeoutMin, timeoutMax, timeoutStalled := 1, hz / 4, 5 * hz;
    }

    // A heartbeat of a server activates it; the result is false if there is nothing to do.
    method SetServerId(id: int, now: nat) returns (activated: bool)
      requires Valid()
      modifies this, serverlist
      ensures Valid()
      ensures activated <==> 0 < id <= SERVERS_MAX && !old(serverlist[id - 1]).state.Active?
      ensures activated ==>
        var s := old(serverlist[id - 1]);
        serverlist[id - 1] ==
          if s.state.Stalled? then s.(state := Active) else Server(id, Active, timeoutMin, 0, now, now)
      ensures count == old(count) + if activated && old(serverlist[id - 1]).state.Inactive? then 1 else 0
      ensures asrtt == old(asrtt)
      ensures forall i :: 0 <= i < SERVERS_MAX && (i != id - 1 || !activated) ==> serverlist[i] == old(serverlist[i])
    {
      if id <= 0 || id > SERVERS_MAX {
        return false;
      }
      match serverlist[id - 1].state
      case Inactive =>
        serverlist[id - 1] := Server(id, Active, timeoutMin, 0, now, now);
        count := count + 1;
        return true;
      case Active =>
        return false;
      case Stalled =>
        serverlist[id - 1] := serverlist[id - 1].(state := Active);
        return true;
    }

    method Rtt(id: int, rtt: nat)
      requires Valid()
      modifies serverlist
      ensures Valid()
      ensures 0 < id <= SERVERS_MAX ==>
        var s := old(serverlist[id - 1]);
        serverlist[id - 1] == s.(srtt := Smoothed(s.srtt, Clamped(rtt, timeoutMin, timeoutMax)))
      ensures forall i :: 0 <= i < SERVERS_MAX && i != id - 1 ==> serverlist[i] == old(serverlist[i])
    {
      if id <= 0 || id > SERVERS_MAX {
        return;
      }
      var t := rtt;
      if t > timeoutMax {
        t := timeoutMax;
      } else if t < timeoutMin {
        t := timeoutMin;
      }
      var s := serverlist[id - 1];
      StaysInRange(s.srtt, t, timeoutMax);
      serverlist[id - 1] := s.(srtt :=
        (SRTT_BETA * s.srtt + (SRTT_BETA_BASE - SRTT_BETA) * t * SRTT_UNIT) / SRTT_BETA_BASE);
    }

    // Stalled servers are found and the sums built in a first pass, the weights assigned in
    // a second one.
    method Weigh()
      requires Valid()
      modifies this, serverlist
      ensures Valid() && IsWeighing(old(serverlist[..]), serverlist[..], timeoutStalled)
      ensures var list := serverlist[..];
        asrtt == if Count(list, |list|) > 0 then Times(list, |list|) / Count(list, |list|) else old(asrtt)
    {
      var servers, factors, times := Sums();
      if servers == 0 {
        return;
      }
      asrtt := times / servers;
      ghost var list := serverlist[..];
      Assign(servers, factors);
      WeighedSums(list, serverlist[..], factors, servers, |list|);
    }

    method Assign(servers: nat, factors: nat)
      requires Valid() && servers > 0
      modifies serverlist
      ensures Valid()
      ensures forall i :: 0 <= i < SERVERS_MAX ==> serverlist[i] == Weighed(old(serverlist[i]), factors, servers)
    {
      var i := 0;
      while i < SERVERS_MAX
        invariant 0 <= i <= SERVERS_MAX && Valid()
        invariant forall j :: 0 <= j < i ==> serverlist[j] == Weighed(old(serverlist[j]), factors, servers)
        invariant forall j :: i <= j < SERVERS_MAX ==> serverlist[j] == old(serverlist[j])
      {
        if serverlist[i].state == Active {
          var s := serverlist[i];
          var srtt := if s.srtt != 0 then s.srtt else 1;
          var prod := srtt * factors;
          serverlist[i] := s.(weight :=
            if prod > 0 then WEIGHT_NORMAL * WEIGHT_FACTOR / prod else WEIGHT_NORMAL / servers);
        }
        i := i + 1;
      }
    }

    method Sums() returns (servers: nat, factors: nat, times: nat)
      requires Valid()
      modifies serverlist
      ensures Valid() && serverlist[..] == CheckedAll(old(serverlist[..]), timeoutStalled)
      ensures var list := serverlist[..];
        servers == Count(list, |list|) && factors == Factors(list, |list|) && times == Times(list, |list|)
    {
      servers, factors, times := 0, 0, 0;
      ghost var before := serverlist[..];
      ghost var list := CheckedAll(before, timeoutStalled);
      var i := 0;
      while i < serverlist.Length
        invariant 0 <= i <= |list| && Valid()
        invariant Summed(list, i, servers, factors, times)
        invariant forall j :: 0 <= j < i ==> serverlist[j] == list[j]
        invariant forall j :: i <= j < |list| ==> serverlist[j] == before[j]
      {
        var counted := CheckServer(i);
        SummedStep(list, i, servers, factors, times);
        if counted {
          var s := serverlist[i];
          var srtt := if s.srtt != 0 then s.srtt else 1;
          factors := factors + WEIGHT_FACTOR / srtt;
          times := times + srtt;
          servers := servers + 1;
        }
        i := i + 1;
      }
      assert serverlist[..] == list;
    }

    // A silent server is stalled; the result is true if the server takes part.
    method CheckServer(i: nat) returns (counted: bool)
      requires Valid() && i < serverlist.Length
      modifies serverlist
      ensures Valid() && counted == serverlist[i].state.Active?
      ensures serverlist[i] == Checked(old(serverlist[i]), timeoutStalled)
      ensures forall j :: 0 <= j < serverlist.Length && j != i ==> serverlist[j] == old(serverlist[j])
    {
      var s := serverlist[i];
      if s.state != Active {
        return false;
      }
      if s.lastTx > s.lastRx + timeoutStalled {
        serverlist[i] := s.(state := Stalled);
        return false;
      }
      return true;
    }

    // The server whose range holds the random byte; none has the id 0.
    method NextServer(rnd: nat) returns (id: nat)
      requires Valid() && rnd < 256
      ensures id == 0 <==> PicksNone(serverlist[..], rnd)
      ensures id <= SERVERS_MAX
      ensures id > 0 ==> serverlist[id - 1].state.Active? && Picks(serverlist[..], id - 1, rnd)
    {
      var i, sum := 0, 0;
      ghost var list := serverlist[..];
      while i < serverlist.Length
        invariant 0 <= i <= |list| && sum == Weights(list, i) && sum <= rnd
      {
        var s := serverlist[i];
        if s.state == Active {
          sum := sum + s.weight;
          if sum > rnd {
            WeightsMonotone(list, i + 1, |list|);
            return s.id;
          }
        }
        i := i + 1;
      }
      return 0;
    }
  }

  // Once activated, a time stays positive and below the bound.
  predicate InRange(srtt: nat, max: nat) {
    1 <= srtt <= max * SRTT_UNIT
  }

  lemma StaysInRange(srtt: nat, rtt: nat, max: nat)
    requires 1 <= rtt <= max
    ensures InRange(srtt, max) ==> InRange(Smoothed(srtt, rtt), max)
  {
    SmoothedBetween(srtt, rtt);
  }
}
