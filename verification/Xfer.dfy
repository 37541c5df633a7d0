/**
 The transfer size chooser of the audio pump: given up to four windows with a
 priority and linear costs, it picks a multiple of the packet size.
 */
module Xfer {
  import opened Multiples

  datatype Bound = Bound(lower: nat, upper: nat, prio: nat, underCost: nat, overCost: nat) {
    /** What the source asserts of each window, with costs that make every miss count. */
    ghost predicate Valid() {
      lower <= upper && prio < INT_MAX && underCost > 0 && overCost > 0
    }
  }

  const INT_MAX: int := 0x7FFF_FFFF

  function Max(a: int, b: int): int {
    if a < b then b else a
  }

  function Min(a: int, b: int): int {
    if a < b then a else b
  }

  // ---- what a transfer costs -----------------------------------------------------------

  predicate Meets(b: Bound, x: int) {
    b.lower <= x <= b.upper
  }

  function Miss(b: Bound, x: int): int {
    if x < b.lower then (b.lower - x) * b.underCost
    else if x > b.upper then (x - b.upper) * b.overCost
    else 0
  }

  /** The summed cost of all misses. */
  function Cost(bs: seq<Bound>, x: int): int {
    if bs == [] then 0 else Cost(bs[..|bs| - 1], x) + Miss(bs[|bs| - 1], x)
  }

  /** The priority number of the most important bound that is missed. */
  function Prio(bs: seq<Bound>, x: int): int {
    if bs == [] then INT_MAX
    else
      var p := Prio(bs[..|bs| - 1], x);
      var b := bs[|bs| - 1];
      if Meets(b, x) then p else Min(p, b.prio)
  }

  ghost predicate MeetsAll(bs: seq<Bound>, x: int) {
    forall i :: 0 <= i < |bs| ==> Meets(bs[i], x)
  }

  /** `x` is a whole number of packets. */
  ghost predicate Packets(x: int, interval: int)
    requires interval > 0
  {
    x >= 0 && x % interval == 0
  }

  /** The order BestXfer maximises: importance of what is missed, then cost, then size. */
  ghost predicate AtLeast(bs: seq<Bound>, x: int, y: int) {
    || Prio(bs, x) > Prio(bs, y)
    || (Prio(bs, x) == Prio(bs, y) && Cost(bs, x) < Cost(bs, y))
    || (Prio(bs, x) == Prio(bs, y) && Cost(bs, x) == Cost(bs, y) && x >= y)
  }

  /** The best transfer of all: nothing missed and largest, or else best in the order. */
  ghost predicate Optimal(bs: seq<Bound>, interval: int, x: int)
    requires interval > 0
  {
    && Packets(x, interval)
    && (forall y :: Packets(y, interval) && MeetsAll(bs, y) ==> MeetsAll(bs, x) && y <= x)
    && ((forall y :: Packets(y, interval) ==> !MeetsAll(bs, y)) ==>
          forall y :: Packets(y, interval) ==> AtLeast(bs, x, y))
  }

  ghost predicate AllValid(bs: seq<Bound>) {
    forall i :: 0 <= i < |bs| ==> bs[i].Valid()
  }

  ghost function MinUpper(bs: seq<Bound>): nat
    requires bs != []
  {
    if |bs| == 1 then bs[0].upper else Min(MinUpper(bs[..|bs| - 1]), bs[|bs| - 1].upper)
  }

  ghost function MaxLower(bs: seq<Bound>): nat
    requires bs != []
  {
    if |bs| == 1 then bs[0].lower else Max(MaxLower(bs[..|bs| - 1]), bs[|bs| - 1].lower)
  }

  lemma {:induction false} UpperLower(bs: seq<Bound>)
    requires bs != []
    ensures forall i :: 0 <= i < |bs| ==> MinUpper(bs) <= bs[i].upper && bs[i].lower <= MaxLower(bs)
    ensures exists i :: 0 <= i < |bs| && MinUpper(bs) == bs[i].upper
    ensures exists i :: 0 <= i < |bs| && MaxLower(bs) == bs[i].lower
  {
    var k := |bs| - 1;
    var init := bs[..k];
    if k > 0 {
      UpperLower(init);
      var i :| 0 <= i < |init| && MinUpper(init) == init[i].upper;
      var j :| 0 <= j < |init| && MaxLower(init) == init[j].lower;
      assert bs[i] == init[i] && bs[j] == init[j];
      assert forall n :: 0 <= n < k ==> bs[n] == init[n];
    }
    assert bs[k].upper >= MinUpper(bs) && bs[k].lower <= MaxLower(bs);
  }

  lemma MeetsAllBetween(bs: seq<Bound>, x: int)
    requires bs != []
    ensures MeetsAll(bs, x) <==> MaxLower(bs) <= x <= MinUpper(bs)
  {
    UpperLower(bs);
  }

  // ---- what the costs are ----------------------------------------------------------------

  /**
   What one window costs: nothing inside it, for every record below it `underCost` more, and for every record above
   it `overCost` more.
   */
  lemma CostSlope(b: Bound, x: int)
    requires b.lower <= b.upper
    ensures b.lower <= x <= b.upper ==> Cost([b], x) == 0
    ensures x <= b.lower ==> Cost([b], x - 1) == Cost([b], x) + b.underCost
    ensures x >= b.upper ==> Cost([b], x + 1) == Cost([b], x) + b.overCost
  {
    CostOne(b, x);
    CostOne(b, x - 1);
    CostOne(b, x + 1);
  }

  lemma CostOne(b: Bound, x: int)
    ensures Cost([b], x) == (if x < b.lower then (b.lower - x) * b.underCost
                             else if x > b.upper then (x - b.upper) * b.overCost else 0)
    ensures Prio([b], x) == if b.lower <= x <= b.upper || b.prio > INT_MAX then INT_MAX else b.prio
  {
    assert [b][..0] == [] && Cost([], x) == 0 && Prio([], x) == INT_MAX;
  }

  /** Costs of several windows add up, and the most important one that is missed counts. */
  lemma {:induction false} CostAppend(a: seq<Bound>, b: seq<Bound>, x: int)
    ensures Cost(a + b, x) == Cost(a, x) + Cost(b, x)
    ensures Prio(a + b, x) == if Prio(a, x) < Prio(b, x) then Prio(a, x) else Prio(b, x)
    decreases |b|
  {
    PrioBelow(a, x);
    if b == [] {
      assert a + b == a;
    } else {
      var k := |b| - 1;
      assert (a + b)[..|a + b| - 1] == a + b[..k] && (a + b)[|a + b| - 1] == b[k];
      CostAppend(a, b[..k], x);
    }
  }

  lemma {:induction false} PrioBelow(bs: seq<Bound>, x: int)
    ensures Prio(bs, x) <= INT_MAX
  {
    if bs != [] {
      PrioBelow(bs[..|bs| - 1], x);
    }
  }

  /** What a chosen transfer has over any other multiple of the packet size. */
  lemma OptimalMeans(bs: seq<Bound>, interval: int, x: int, y: int)
    requires interval > 0 && AllValid(bs) && Optimal(bs, interval, x) && y >= 0 && y % interval == 0
    ensures x >= 0 && x % interval == 0
    ensures Cost(bs, y) == 0 ==> Cost(bs, x) == 0 && y <= x
    ensures Cost(bs, x) > 0 ==> Prio(bs, y) <= Prio(bs, x)
    ensures Cost(bs, x) > 0 && Prio(bs, y) == Prio(bs, x) ==> Cost(bs, x) <= Cost(bs, y)
    ensures Cost(bs, x) > 0 && Prio(bs, y) == Prio(bs, x) && Cost(bs, x) == Cost(bs, y) ==> y <= x
  {
    CostPrio(bs, x);
    CostPrio(bs, y);
    assert Packets(y, interval);
  }

  // ---- comparing transfers ----------------------------------------------------------------

  lemma MissNonNegative(b: Bound, x: int)
    requires b.Valid()
    ensures Miss(b, x) >= 0
    ensures Miss(b, x) > 0 <==> !Meets(b, x)
  {
    if x < b.lower {
      Positive(b.lower - x, b.underCost);
    } else if x > b.upper {
      Positive(x - b.upper, b.overCost);
    }
  }

  lemma Positive(a: int, b: int)
    requires a > 0 && b > 0
    ensures a * b > 0
  {
  }

  lemma Grows(a: int, b: int, c: int)
    requires a < b && c > 0
    ensures a * c < b * c
  {
  }

  lemma {:induction false} CostPrio(bs: seq<Bound>, x: int)
    requires AllValid(bs)
    ensures Cost(bs, x) >= 0
    ensures Cost(bs, x) > 0 <==> !MeetsAll(bs, x)
    ensures Prio(bs, x) < INT_MAX <==> !MeetsAll(bs, x)
    ensures Prio(bs, x) <= INT_MAX
  {
    if bs != [] {
      var k := |bs| - 1;
      var init := bs[..k];
      assert forall n :: 0 <= n < k ==> bs[n] == init[n];
      CostPrio(init, x);
      MissNonNegative(bs[k], x);
      assert MeetsAll(bs, x) <==> MeetsAll(init, x) && Meets(bs[k], x);
    }
  }

  /** Left of every upper edge, a smaller transfer misses the same bounds by more. */
  lemma {:induction false} ShorterIsWorse(bs: seq<Bound>, y: int, x: int)
    requires AllValid(bs) && y < x
    requires forall i :: 0 <= i < |bs| ==> x <= bs[i].upper
    ensures Prio(bs, y) <= Prio(bs, x)
    ensures Cost(bs, x) <= Cost(bs, y)
    ensures !MeetsAll(bs, x) ==> Cost(bs, x) < Cost(bs, y)
  {
    if bs != [] {
      var k := |bs| - 1;
      var init, b := bs[..k], bs[k];
      assert forall n :: 0 <= n < k ==> bs[n] == init[n];
      ShorterIsWorse(init, y, x);
      MissNonNegative(b, x);
      MissNonNegative(b, y);
      if x < b.lower {
        Grows(b.lower - x, b.lower - y, b.underCost);
      }
      assert MeetsAll(bs, x) <==> MeetsAll(init, x) && Meets(b, x);
    }
  }

  /** Right of every lower edge, a larger transfer misses the same bounds by more. */
  lemma {:induction false} LongerIsWorse(bs: seq<Bound>, y: int, x: int)
    requires AllValid(bs) && x < y
    requires forall i :: 0 <= i < |bs| ==> bs[i].lower <= x
    ensures Prio(bs, y) <= Prio(bs, x)
    ensures Cost(bs, x) <= Cost(bs, y)
    ensures !MeetsAll(bs, x) ==> Cost(bs, x) < Cost(bs, y)
  {
    if bs != [] {
      var k := |bs| - 1;
      var init, b := bs[..k], bs[k];
      assert forall n :: 0 <= n < k ==> bs[n] == init[n];
      LongerIsWorse(init, y, x);
      MissNonNegative(b, x);
      MissNonNegative(b, y);
      if x > b.upper {
        Grows(x - b.upper, y - b.upper, b.overCost);
      }
      assert MeetsAll(bs, x) <==> MeetsAll(init, x) && Meets(b, x);
    }
  }

  lemma AtLeastTrans(bs: seq<Bound>, x: int, y: int, z: int)
    requires AtLeast(bs, x, y) && AtLeast(bs, y, z)
    ensures AtLeast(bs, x, z)
  {
  }

  // ---- rounding to packets ----------------------------------------------------------------

  lemma RoundDown(x: nat, interval: int, y: int)
    requires interval > 0
    ensures var r := (x / interval) * interval;
            r <= x && Packets(r, interval) && (Packets(y, interval) && y <= x ==> y <= r)
  {
    var q := x / interval;
    Multiple(q, interval);
    assert x == q * interval + x % interval;
    if Packets(y, interval) && y <= x {
      NextMultiple(q * interval, y, interval);
    }
  }

  lemma RoundUp(x: nat, interval: int, y: int)
    requires interval > 0
    ensures var r := ((x + interval - 1) / interval) * interval;
            x <= r && Packets(r, interval) && (Packets(y, interval) && x <= y ==> r <= y)
  {
    var z := x + interval - 1;
    var q := z / interval;
    Multiple(q, interval);
    assert z == q * interval + z % interval;
    if Packets(y, interval) && x <= y {
      NextMultiple(y, q * interval, interval);
    }
  }

  lemma PacketsApart(a: int, b: int, interval: int)
    requires interval > 0 && Packets(a, interval) && Packets(b, interval)
    ensures a < b ==> a + interval <= b
  {
    NextMultiple(a, b, interval);
  }

  lemma NextPacket(a: int, interval: int)
    requires interval > 0 && Packets(a, interval)
    ensures Packets(a + interval, interval)
  {
    var q := a / interval;
    assert a == q * interval;
    assert a + interval == (q + 1) * interval;
    Multiple(q + 1, interval);
  }

  // ---- the search ---------------------------------------------------------------------------

  /** Summed miss cost and most important missed priority of one candidate. */
  method Price(bs: seq<Bound>, x: int) returns (cost: int, prio: int)
    ensures cost == Cost(bs, x) && prio == Prio(bs, x)
  {
    cost, prio := 0, INT_MAX;
    var i := 0;
    while i < |bs|
      invariant 0 <= i <= |bs|
      invariant cost == Cost(bs[..i], x) && prio == Prio(bs[..i], x)
    {
      var b := bs[i];
      assert bs[..i + 1][..i] == bs[..i] && bs[..i + 1][i] == b;
      if x < b.lower {
        if prio > b.prio {
          prio := b.prio;
        }
        cost := cost + (b.lower - x) * b.underCost;
      } else if x > b.upper {
        if prio > b.prio {
          prio := b.prio;
        }
        cost := cost + (x - b.upper) * b.overCost;
      }
      i := i + 1;
    }
    assert bs[..i] == bs;
  }

  /** The narrowest upper and lower edges. */
  method Edges(bs: seq<Bound>) returns (minu: nat, maxl: nat)
    ensures bs != [] ==> minu == MinUpper(bs) && maxl == MaxLower(bs)
    ensures bs == [] ==> minu == maxl == 0
  {
    minu, maxl := 0, 0;
    var i := 0;
    while i < |bs|
      invariant 0 <= i <= |bs|
      invariant i > 0 ==> minu == MinUpper(bs[..i]) && maxl == MaxLower(bs[..i])
      invariant i == 0 ==> minu == maxl == 0
    {
      assert bs[..i + 1][..i] == bs[..i] && bs[..i + 1][i] == bs[i];
      if i == 0 || bs[i].upper < minu {
        minu := bs[i].upper;
      }
      if i == 0 || bs[i].lower > maxl {
        maxl := bs[i].lower;
      }
      i := i + 1;
    }
    assert bs[..i] == bs;
  }

  /** The largest transfer that misses nothing, or else the best compromise. */
  method BestXfer(bs: seq<Bound>, interval: nat) returns (best: nat)
    requires bs != [] && AllValid(bs) && interval > 0
    ensures Optimal(bs, interval, best)
  {
    hide *;
    var minu, maxl := Edges(bs);
    RoundDown(minu, interval, 0);
    RoundUp(maxl, interval, 0);
    minu := (minu / interval) * interval;
    maxl := ((maxl + interval - 1) / interval) * interval;
    if minu >= maxl {
      FitsAll(bs, interval, minu);
      return minu;
    }
    Unfit(bs, interval, minu, maxl);
    best := 0;
    var bestCost, bestPrio := INT_MAX, INT_MAX;
    var tryMe := minu;
    NoneYet(bs, interval, minu);
    while tryMe <= maxl
      invariant minu <= tryMe && Packets(tryMe, interval)
      invariant tryMe > minu ==> Packets(best, interval) && bestCost == Cost(bs, best) && bestPrio == Prio(bs, best)
      invariant BestUpTo(bs, interval, minu, tryMe, best)
      decreases maxl - tryMe
    {
      var cost, prio := Price(bs, tryMe);
      CostPrio(bs, tryMe);
      assert cost != 0;
      assert prio != INT_MAX;
      ghost var before := best;
      if tryMe == minu || prio > bestPrio || (prio == bestPrio && cost <= bestCost) {
        best, bestPrio, bestCost := tryMe, prio, cost;
      }
      KeepBest(bs, interval, minu, tryMe, before, best);
      tryMe := tryMe + interval;
    }
    Beyond(bs, interval, minu, maxl, tryMe, best);
  }

  /** The best of the packet multiples from `minu` up to but not including `end`. */
  ghost predicate BestUpTo(bs: seq<Bound>, interval: int, minu: nat, end: nat, best: nat)
    requires interval > 0
  {
    end > minu ==> best < end && forall y :: Packets(y, interval) && minu <= y < end ==> AtLeast(bs, best, y)
  }

  lemma FitsAll(bs: seq<Bound>, interval: int, minu: nat)
    requires bs != [] && AllValid(bs) && interval > 0
    requires minu == (MinUpper(bs) / interval) * interval
    requires minu >= ((MaxLower(bs) + interval - 1) / interval) * interval
    ensures Optimal(bs, interval, minu)
  {
    RoundDown(MinUpper(bs), interval, 0);
    RoundUp(MaxLower(bs), interval, 0);
    MeetsAllBetween(bs, minu);
    forall y | Packets(y, interval) && MeetsAll(bs, y)
      ensures y <= minu
    {
      MeetsAllBetween(bs, y);
      RoundDown(MinUpper(bs), interval, y);
    }
  }

  lemma Unfit(bs: seq<Bound>, interval: int, minu: nat, maxl: nat)
    requires bs != [] && AllValid(bs) && interval > 0
    requires minu == (MinUpper(bs) / interval) * interval
    requires maxl == ((MaxLower(bs) + interval - 1) / interval) * interval
    requires minu < maxl
    ensures forall y :: Packets(y, interval) ==> !MeetsAll(bs, y)
  {
    forall y | Packets(y, interval)
      ensures !MeetsAll(bs, y)
    {
      MeetsAllBetween(bs, y);
      RoundDown(MinUpper(bs), interval, y);
      RoundUp(MaxLower(bs), interval, y);
    }
  }

  lemma NoneYet(bs: seq<Bound>, interval: int, minu: nat)
    requires interval > 0
    ensures BestUpTo(bs, interval, minu, minu, 0)
  {
  }

  /** One candidate: the better of the two is at least as good as all that came before. */
  lemma KeepBest(bs: seq<Bound>, interval: int, minu: nat, tryMe: nat, before: nat, best: nat)
    requires interval > 0 && minu <= tryMe && Packets(tryMe, interval)
    requires BestUpTo(bs, interval, minu, tryMe, before)
    requires best == tryMe || (tryMe > minu && best == before)
    requires tryMe > minu ==>
               (best == tryMe <==> Prio(bs, tryMe) > Prio(bs, before)
                                   || (Prio(bs, tryMe) == Prio(bs, before) && Cost(bs, tryMe) <= Cost(bs, before)))
    ensures Packets(tryMe + interval, interval)
    ensures BestUpTo(bs, interval, minu, tryMe + interval, best)
  {
    NextPacket(tryMe, interval);
    hide Cost, Prio, Packets;
    forall y | Packets(y, interval) && minu <= y < tryMe + interval
      ensures AtLeast(bs, best, y)
    {
      PacketsApart(tryMe, y, interval);
      if y < tryMe {
        AtLeastTrans(bs, best, before, y);
      }
    }
  }

  /** What lies outside the scanned range is worse than one of its ends. */
  lemma Beyond(bs: seq<Bound>, interval: int, minu: nat, maxl: nat, end: nat, best: nat)
    requires bs != [] && AllValid(bs) && interval > 0
    requires minu == (MinUpper(bs) / interval) * interval
    requires maxl == ((MaxLower(bs) + interval - 1) / interval) * interval
    requires minu < maxl < end && Packets(best, interval)
    requires BestUpTo(bs, interval, minu, end, best)
    ensures Optimal(bs, interval, best)
  {
    hide Cost, Prio;
    Unfit(bs, interval, minu, maxl);
    UpperLower(bs);
    RoundDown(MinUpper(bs), interval, 0);
    RoundUp(MaxLower(bs), interval, 0);
    forall y | Packets(y, interval)
      ensures AtLeast(bs, best, y)
    {
      if y < minu {
        ShorterIsWorse(bs, y, minu);
        AtLeastTrans(bs, best, minu, y);
      } else if y > maxl {
        LongerIsWorse(bs, y, maxl);
        AtLeastTrans(bs, best, maxl, y);
      }
    }
  }

  /** The specification leaves no choice: two optimal transfers are the same. */
  lemma OptimalUnique(bs: seq<Bound>, interval: int, x: int, y: int)
    requires interval > 0 && Optimal(bs, interval, x) && Optimal(bs, interval, y)
    ensures x == y
  {
    if MeetsAll(bs, x) || MeetsAll(bs, y) {
      assert MeetsAll(bs, x) && MeetsAll(bs, y);
    } else {
      assert AtLeast(bs, x, y) && AtLeast(bs, y, x);
    }
  }
}
