/**
 Fill levels and packet size of the audio pump, as ConfigureEndpoints derives them,
 and the transfer windows that follow from them.
 */
module PumpConfig {
  import opened Multiples
  import opened Options
  import opened Xfer

  /** What the pump asks of an endpoint: its clock, packet size, and output buffer size (0: no limit). */
  datatype Endpoint = Endpoint(hasClock: bool, packet: nat, outbuf: nat)

  datatype Config = Config(
    bottomAsync: bool, topAsync: bool, packet: nat,
    bottomOutMin: nat, bottomOutMax: nat, bottomInMax: nat,
    topOutMin: nat, topOutMax: nat, topInMax: nat)

  const WRAP: int := 0x1_0000_0000
  const MAXSAMPS: int := WRAP - 1

  /** Unsigned subtraction of the machine. */
  function Sub32(a: nat, b: nat): nat {
    (a - b) % WRAP
  }

  // ---- windows -------------------------------------------------------------------------

  /** How much must be taken off an input queue, and how much is there. */
  function InBound(clocked: bool, queued: nat, max: nat, packet: nat, prio: nat): Bound {
    Bound(if clocked && queued > max then queued - max else 0,
          if !clocked && 0 < queued < packet then packet else queued,
          prio, 1, 2)
  }

  /** How much an output queue needs, and how much it may still take. */
  function OutBound(needed: bool, queued: nat, min: nat, max: nat, prio: nat): Bound {
    Bound(if needed && queued < min then min - queued else 0,
          if queued < max then max - queued else 0,
          prio, 2, 1)
  }

  /** Some whole number of packets lies in the window. */
  ghost predicate HasPackets(b: Bound, packet: nat)
    requires packet > 0
  {
    exists x :: Packets(x, packet) && Meets(b, x)
  }

  lemma WideHasPackets(b: Bound, packet: nat)
    requires packet > 0 && b.lower <= b.upper
    requires b.lower == 0 || b.upper - b.lower >= packet - 1
    ensures HasPackets(b, packet)
  {
    RoundUp(b.lower, packet, 0);
    RoundDown(b.upper, packet, 0);
    if b.lower == 0 {
      Multiple(0, packet);
      assert Packets(0, packet) && Meets(b, 0);
    } else {
      var r := ((b.lower + packet - 1) / packet) * packet;
      assert b.lower + packet - 1 == ((b.lower + packet - 1) / packet) * packet + (b.lower + packet - 1) % packet;
      assert Packets(r, packet) && Meets(b, r);
    }
  }

  /** A clocked input window has room for a packet at every fill level exactly if it is a packet wide. */
  lemma InWindowExact(max: nat, packet: nat, prio: nat)
    requires packet > 0
    ensures (forall queued: nat :: HasPackets(InBound(true, queued, max, packet, prio), packet)) <==> max >= packet - 1
  {
    if max >= packet - 1 {
      forall queued: nat
        ensures HasPackets(InBound(true, queued, max, packet, prio), packet)
      {
        WideHasPackets(InBound(true, queued, max, packet, prio), packet);
      }
    } else {
      // At max + 1 queued, the window is 1 .. max + 1, short of the first packet.
      var b := InBound(true, max + 1, max, packet, prio);
      if HasPackets(b, packet) {
        var x :| Packets(x, packet) && Meets(b, x);
        Multiple(0, packet);
        NextMultiple(0, x, packet);
      }
    }
  }

  // ---- choosing the levels ------------------------------------------------------------------

  /** Halve until it fits. */
  function Halved(size: nat, limit: nat): nat {
    if size <= limit then size else Halved(size / 2, limit)
  }

  /** The halving ends just below the limit, and at a whole sample if there is room for one. */
  lemma {:induction false} HalvedFits(size: nat, limit: nat)
    ensures Halved(size, limit) <= limit && Halved(size, limit) <= size
    ensures Halved(size, limit) > 0 <==> size > 0 && limit > 0
    ensures size > limit ==> 2 * Halved(size, limit) + 1 > limit
  {
    if size > limit {
      HalvedFits(size / 2, limit);
    }
  }

  function AsyncMax(e: Endpoint, other: Endpoint): nat {
    Max(if e.hasClock then e.packet else 0, if other.hasClock then other.packet else 0)
  }

  /** A configured time in samples, 0 if not configured, at least twice the packet size. */
  function Samples(ms: nat, rate: nat, maxPacket: nat): (n: nat)
    ensures n > 0 <==> ms > 0
    ensures ms > 0 ==> n >= 2 * maxPacket
  {
    if ms == 0 then 0 else Max(Max((ms * rate) / 1000, 1), 2 * maxPacket)
  }

  function OutMin(e: Endpoint, maxPacket: nat, configMin: nat): int {
    if !e.hasClock then 0
    else
      var wanted := Max(if configMin > 0 then configMin else maxPacket * 2, e.packet);
      if e.outbuf > 0 then Min(wanted, e.outbuf - e.packet) else wanted
  }

  function OutMax(e: Endpoint, maxPacket: nat, configMin: nat, configWindow: nat): int {
    if !e.hasClock then (if e.outbuf > 0 then e.outbuf else MAXSAMPS)
    else
      var min := OutMin(e, maxPacket, configMin);
      var wanted := min + Max(if configWindow > 0 then configWindow else min, maxPacket * 2);
      if e.outbuf > 0 then Min(wanted, e.outbuf) else wanted
  }

  /** What every clocked endpoint is promised about its output levels. */
  ghost predicate ClockedLevels(e: Endpoint, maxPacket: nat, min: nat, max: nat) {
    && 2 * maxPacket <= min <= max
    && e.packet <= max - min
    && (e.outbuf > 0 ==> max <= e.outbuf)
    && (e.outbuf == 0 ==> max - min >= 2 * maxPacket)
  }

  /** The buffer of a clocked endpoint holds four of the largest packets. */
  predicate Roomy(e: Endpoint, maxPacket: nat) {
    e.hasClock && e.outbuf > 0 ==> 4 * maxPacket <= e.outbuf
  }

  /** Output minimum and maximum of one endpoint. */
  method OutputLevels(e: Endpoint, maxPacket: nat, configMin: nat, configWindow: nat) returns (min: nat, max: nat)
    requires (e.hasClock ==> e.packet <= maxPacket) && Roomy(e, maxPacket)
    requires configMin > 0 ==> configMin >= 2 * maxPacket
    ensures min == OutMin(e, maxPacket, configMin) && max == OutMax(e, maxPacket, configMin, configWindow)
    ensures e.hasClock ==> ClockedLevels(e, maxPacket, min, max)
  {
    min := 0;
    if e.hasClock {
      min := if configMin > 0 then configMin else maxPacket * 2;
      if min < e.packet {
        min := e.packet;
      }
      if e.outbuf > 0 && min > e.outbuf - e.packet {
        min := e.outbuf - e.packet;
      }
      var n := if configWindow > 0 then configWindow else min;
      if n < maxPacket * 2 {
        n := maxPacket * 2;
      }
      max := min + n;
      if e.outbuf > 0 && max > e.outbuf {
        max := e.outbuf;
        assert max - min >= e.packet;
      }
    } else {
      max := if e.outbuf > 0 then e.outbuf else MAXSAMPS;
    }
  }

  /** The widest packet that half of every clocked minimum and window can hold. */
  function PacketLimit(c: Config): nat
    requires c.bottomOutMin <= c.bottomOutMax && c.topOutMin <= c.topOutMax && (c.bottomAsync || c.topAsync)
  {
    var b := Min(c.bottomOutMin / 2, (c.bottomOutMax - c.bottomOutMin) / 2);
    var t := Min(c.topOutMin / 2, (c.topOutMax - c.topOutMin) / 2);
    if !c.topAsync then b else if !c.bottomAsync then t else Min(b, t)
  }

  function FirstPacket(bottom: Endpoint, top: Endpoint): nat {
    if !bottom.hasClock || (top.hasClock && top.packet < bottom.packet) then top.packet else bottom.packet
  }

  /** What a configuration promises, for any two endpoints it accepts. */
  ghost predicate Configured(bottom: Endpoint, top: Endpoint, c: Config) {
    && c.bottomAsync == bottom.hasClock && c.topAsync == top.hasClock
    && (c.bottomAsync || c.topAsync)
    && (c.bottomAsync ==> ClockedLevels(bottom, AsyncMax(bottom, top), c.bottomOutMin, c.bottomOutMax))
    && (c.topAsync ==> ClockedLevels(top, AsyncMax(bottom, top), c.topOutMin, c.topOutMax))
    && (!c.bottomAsync ==> c.bottomOutMin == 0) && (!c.topAsync ==> c.topOutMin == 0)
    && c.bottomOutMin <= c.bottomOutMax && c.topOutMin <= c.topOutMax
    && c.bottomInMax == c.bottomOutMax - c.bottomOutMin
    && c.topInMax == Sub32(c.topOutMax, c.bottomOutMin)
    && c.packet == Halved(FirstPacket(bottom, top), PacketLimit(c))
  }

  /** The levels of a configuration are those chosen for these settings. */
  ghost predicate LevelsOf(bottom: Endpoint, top: Endpoint, rate: nat, outMinMs: nat, windowMs: nat, c: Config) {
    var m := AsyncMax(bottom, top);
    var configMin, configWindow := Samples(outMinMs, rate, m), Samples(windowMs, rate, m);
    && c.bottomOutMin == OutMin(bottom, m, configMin) && c.topOutMin == OutMin(top, m, configMin)
    && c.bottomOutMax == OutMax(bottom, m, configMin, configWindow)
    && c.topOutMax == OutMax(top, m, configMin, configWindow)
  }

  /** Configured times: none, or as many samples as that is, but two of the largest packets at least. */
  lemma SamplesAre(ms: nat, rate: nat, maxPacket: nat)
    requires maxPacket > 0
    ensures Samples(ms, rate, maxPacket)
         == if ms == 0 then 0 else if ms * rate / 1000 >= 2 * maxPacket then ms * rate / 1000 else 2 * maxPacket
  {
  }

  /**
   The output levels of an endpoint.  A clocked one has the configured minimum, or two of the largest packets, as far
   as its buffer leaves room for a packet above it, and a window of the configured size, or as large as the minimum,
   as far as the buffer goes.
   */
  lemma LevelsAre(e: Endpoint, maxPacket: nat, configMin: nat, configWindow: nat)
    requires (e.hasClock ==> e.packet <= maxPacket) && Roomy(e, maxPacket)
    requires (configMin > 0 ==> configMin >= 2 * maxPacket) && (configWindow > 0 ==> configWindow >= 2 * maxPacket)
    ensures var min, max := OutMin(e, maxPacket, configMin), OutMax(e, maxPacket, configMin, configWindow);
      if e.hasClock then
        var wanted := if configMin > 0 then configMin else 2 * maxPacket;
        var window := if configWindow > 0 then configWindow else min;
        && min == (if e.outbuf > 0 && wanted > e.outbuf - e.packet then e.outbuf - e.packet else wanted)
        && max == (if e.outbuf > 0 && min + window > e.outbuf then e.outbuf else min + window)
      else min == 0 && max == if e.outbuf > 0 then e.outbuf else 0xFFFF_FFFF
  {
  }

  /** Halving again and again, and no longer than it must. */
  lemma {:induction false} HalvedIs(size: nat, limit: nat) returns (sizes: seq<nat>)
    ensures sizes != [] && sizes[0] == size && sizes[|sizes| - 1] == Halved(size, limit) <= limit
    ensures forall i, j :: 0 <= i < j < |sizes| && j == i + 1 ==> sizes[j] == sizes[i] / 2
    ensures forall i :: 0 <= i < |sizes| - 1 ==> sizes[i] > limit
    decreases size
  {
    sizes := [size];
    if size > limit {
      var more := HalvedIs(size / 2, limit);
      sizes := sizes + more;
    }
  }

  /**
   The packet size is that of the clocked endpoint with the smaller packets, halved until two of it fit into every
   clocked minimum and window; half as often would not do.
   */
  lemma PacketIs(bottom: Endpoint, top: Endpoint, c: Config) returns (sizes: seq<nat>)
    requires Configured(bottom, top, c)
    ensures sizes != [] && c.packet == sizes[|sizes| - 1]
    ensures forall i, j :: 0 <= i < j < |sizes| && j == i + 1 ==> sizes[j] == sizes[i] / 2
    ensures (bottom.hasClock ==> sizes[0] <= bottom.packet) && (top.hasClock ==> sizes[0] <= top.packet)
    ensures (bottom.hasClock && sizes[0] == bottom.packet) || (top.hasClock && sizes[0] == top.packet)
    ensures forall i :: 0 <= i < |sizes| ==> (i == |sizes| - 1 <==>
      && (bottom.hasClock ==> 2 * sizes[i] <= c.bottomOutMin && 2 * sizes[i] <= c.bottomOutMax - c.bottomOutMin)
      && (top.hasClock ==> 2 * sizes[i] <= c.topOutMin && 2 * sizes[i] <= c.topOutMax - c.topOutMin))
  {
    hide PacketLimit, Halved, ClockedLevels;
    sizes := HalvedIs(FirstPacket(bottom, top), PacketLimit(c));
    forall i | 0 <= i < |sizes|
      ensures i == |sizes| - 1 <==>
        && (bottom.hasClock ==> 2 * sizes[i] <= c.bottomOutMin && 2 * sizes[i] <= c.bottomOutMax - c.bottomOutMin)
        && (top.hasClock ==> 2 * sizes[i] <= c.topOutMin && 2 * sizes[i] <= c.topOutMax - c.topOutMin)
    {
      LimitIs(c, sizes[i]);
    }
  }

  lemma LimitIs(c: Config, size: nat)
    requires c.bottomOutMin <= c.bottomOutMax && c.topOutMin <= c.topOutMax && (c.bottomAsync || c.topAsync)
    ensures size <= PacketLimit(c) <==>
      && (c.bottomAsync ==> 2 * size <= c.bottomOutMin && 2 * size <= c.bottomOutMax - c.bottomOutMin)
      && (c.topAsync ==> 2 * size <= c.topOutMin && 2 * size <= c.topOutMax - c.topOutMin)
  {
  }

  /** Halves the packet size until half of every clocked minimum and window can hold it. */
  method FitPacket(c: Config, first: nat) returns (size: nat)
    requires c.bottomOutMin <= c.bottomOutMax && c.topOutMin <= c.topOutMax && (c.bottomAsync || c.topAsync)
    ensures size == Halved(first, PacketLimit(c))
  {
    size := first;
    while !((!c.bottomAsync || size <= c.bottomOutMin / 2) && (!c.topAsync || size <= c.topOutMin / 2)
            && (!c.bottomAsync || size <= (c.bottomOutMax - c.bottomOutMin) / 2)
            && (!c.topAsync || size <= (c.topOutMax - c.topOutMin) / 2))
      invariant Halved(size, PacketLimit(c)) == Halved(first, PacketLimit(c))
      decreases size
    {
      size := size / 2;
    }
  }

  /** ConfigureEndpoints for endpoints whose formats agree, the packet size not being fixed. */
  method ConfigureEndpoints(bottom: Endpoint, top: Endpoint, rate: nat, outMinMs: nat, windowMs: nat)
    returns (r: Option<Config>)
    ensures r.Some? <==>
              && (bottom.hasClock || top.hasClock)
              && Roomy(bottom, AsyncMax(bottom, top)) && Roomy(top, AsyncMax(bottom, top))
    ensures r.Some? ==> Configured(bottom, top, r.value) && LevelsOf(bottom, top, rate, outMinMs, windowMs, r.value)
  {
    hide Halved, PacketLimit, OutMin, OutMax, Samples;
    if !bottom.hasClock && !top.hasClock {
      return None;
    }
    var maxPacket := 0;
    if bottom.hasClock && bottom.packet > maxPacket {
      maxPacket := bottom.packet;
    }
    if top.hasClock && top.packet > maxPacket {
      maxPacket := top.packet;
    }
    if bottom.hasClock && bottom.outbuf > 0 && 4 * maxPacket > bottom.outbuf {
      return None;
    }
    if top.hasClock && top.outbuf > 0 && 4 * maxPacket > top.outbuf {
      return None;
    }
    var configMin, configWindow := Samples(outMinMs, rate, maxPacket), Samples(windowMs, rate, maxPacket);
    var bmin, bmax := OutputLevels(bottom, maxPacket, configMin, configWindow);
    var tmin, tmax := OutputLevels(top, maxPacket, configMin, configWindow);
    Unclocked(bottom, maxPacket, configMin, configWindow);
    Unclocked(top, maxPacket, configMin, configWindow);
    var c := Config(bottom.hasClock, top.hasClock, 0, bmin, bmax, bmax - bmin, tmin, tmax, Sub32(tmax, bmin));
    var size := FitPacket(c, FirstPacket(bottom, top));
    LimitIgnoresPacket(c, size);
    r := Some(c.(packet := size));
  }

  lemma Unclocked(e: Endpoint, maxPacket: nat, configMin: nat, configWindow: nat)
    ensures !e.hasClock ==> OutMin(e, maxPacket, configMin) == 0 <= OutMax(e, maxPacket, configMin, configWindow)
  {
  }

  lemma LimitIgnoresPacket(c: Config, size: nat)
    requires c.bottomOutMin <= c.bottomOutMax && c.topOutMin <= c.topOutMax && (c.bottomAsync || c.topAsync)
    ensures PacketLimit(c.(packet := size)) == PacketLimit(c)
  {
  }

  /** The packet size comes out positive exactly when every clocked window has room for two samples. */
  lemma PacketPositive(bottom: Endpoint, top: Endpoint, c: Config)
    requires Configured(bottom, top, c)
    requires (bottom.hasClock ==> bottom.packet > 0) && (top.hasClock ==> top.packet > 0)
    ensures c.packet > 0 <==>
              && (c.bottomAsync ==> c.bottomOutMax - c.bottomOutMin >= 2)
              && (c.topAsync ==> c.topOutMax - c.topOutMin >= 2)
    ensures (bottom.hasClock ==> bottom.packet >= 2) && (top.hasClock ==> top.packet >= 2) ==> c.packet > 0
  {
    HalvedFits(FirstPacket(bottom, top), PacketLimit(c));
  }

  /** An endpoint whose one-record packets fit only once between the configured minimum and its buffer's end. */
  predicate Cramped(e: Endpoint, outMin: nat) {
    e.hasClock && e.packet == 1 && e.outbuf > 0 && outMin >= e.outbuf - 1
  }

  /** Before the call: which endpoints and settings make the packet size vanish. */
  lemma PacketVanishes(bottom: Endpoint, top: Endpoint, rate: nat, outMinMs: nat, windowMs: nat, c: Config)
    requires Configured(bottom, top, c) && LevelsOf(bottom, top, rate, outMinMs, windowMs, c)
    requires Roomy(bottom, AsyncMax(bottom, top)) && Roomy(top, AsyncMax(bottom, top))
    requires (bottom.hasClock ==> bottom.packet > 0) && (top.hasClock ==> top.packet > 0)
    ensures var outMin := Samples(outMinMs, rate, AsyncMax(bottom, top));
      c.packet == 0 <==> Cramped(bottom, outMin) || Cramped(top, outMin)
  {
    PacketPositive(bottom, top, c);
  }

  /** One-sample packets in a full buffer can be halved away: the transfer size is then 0. */
  lemma PacketCanVanish()
    ensures var e, quiet := Endpoint(true, 1, 4), Endpoint(false, 1, 0);
            exists c :: Configured(e, quiet, c) && LevelsOf(e, quiet, 8000, 1, 0, c) && c.packet == 0
  {
    var e, quiet := Endpoint(true, 1, 4), Endpoint(false, 1, 0);
    var c := Config(true, false, 0, 3, 4, 1, 0, MAXSAMPS, Sub32(MAXSAMPS, 3));
    assert PacketLimit(c) == 0 && Halved(1, 0) == 0;
    assert Samples(1, 8000, 1) == 8 && Samples(0, 8000, 1) == 0;
    assert Configured(e, quiet, c) && LevelsOf(e, quiet, 8000, 1, 0, c);
  }

  /** At every fill level, the bottom input window and both output windows hold a whole packet. */
  lemma WindowsHavePackets(bottom: Endpoint, top: Endpoint, c: Config, queued: nat, prio: nat)
    requires Configured(bottom, top, c) && c.packet > 0
    ensures HasPackets(InBound(c.bottomAsync, queued, c.bottomInMax, c.packet, prio), c.packet)
    ensures HasPackets(OutBound(c.bottomAsync, queued, c.bottomOutMin, c.bottomOutMax, prio), c.packet)
    ensures HasPackets(OutBound(c.topAsync, queued, c.topOutMin, c.topOutMax, prio), c.packet)
  {
    HalvedFits(FirstPacket(bottom, top), PacketLimit(c));
    WideHasPackets(InBound(c.bottomAsync, queued, c.bottomInMax, c.packet, prio), c.packet);
    WideHasPackets(OutBound(c.bottomAsync, queued, c.bottomOutMin, c.bottomOutMax, prio), c.packet);
    WideHasPackets(OutBound(c.topAsync, queued, c.topOutMin, c.topOutMax, prio), c.packet);
  }

  /** Whether the top input maximum, as these endpoints and settings make it, is a packet less one or more. */
  ghost predicate TopRoom(bottom: Endpoint, top: Endpoint, rate: nat, outMinMs: nat, windowMs: nat) {
    var m := AsyncMax(bottom, top);
    var configMin, configWindow := Samples(outMinMs, rate, m), Samples(windowMs, rate, m);
    var bmin, bmax := OutMin(bottom, m, configMin), OutMax(bottom, m, configMin, configWindow);
    var tmin, tmax := OutMin(top, m, configMin), OutMax(top, m, configMin, configWindow);
    && 0 <= bmin <= bmax && 0 <= tmin <= tmax && (bottom.hasClock || top.hasClock)
    && var levels := Config(bottom.hasClock, top.hasClock, 0, bmin, bmax, bmax - bmin, tmin, tmax, Sub32(tmax, bmin));
       levels.topInMax >= Halved(FirstPacket(bottom, top), PacketLimit(levels)) - 1
  }

  /** Before the call: exactly then the window of a clocked top endpoint holds a packet at every level. */
  lemma TopWindowExact(bottom: Endpoint, top: Endpoint, rate: nat, outMinMs: nat, windowMs: nat, c: Config, prio: nat)
    requires Configured(bottom, top, c) && LevelsOf(bottom, top, rate, outMinMs, windowMs, c) && c.packet > 0
    ensures (forall queued: nat :: HasPackets(InBound(true, queued, c.topInMax, c.packet, prio), c.packet))
       <==> TopRoom(bottom, top, rate, outMinMs, windowMs)
  {
    hide Samples, OutMin, OutMax, Halved, PacketLimit, HasPackets, Sub32, FirstPacket;
    InWindowExact(c.topInMax, c.packet, prio);
    LimitIgnoresPacket(c, 0);
    assert c.(packet := 0) == Config(bottom.hasClock, top.hasClock, 0, c.bottomOutMin, c.bottomOutMax,
                                     c.bottomOutMax - c.bottomOutMin, c.topOutMin, c.topOutMax, c.topInMax);
  }

  /** What an output minimum is wanted to be, before a buffer limits it. */
  function Wanted(outMinMs: nat, rate: nat, maxPacket: nat): nat {
    var configMin := Samples(outMinMs, rate, maxPacket);
    if configMin > 0 then configMin else 2 * maxPacket
  }

  /** The top endpoint's buffer ends within a packet above the bottom output minimum. */
  predicate Crowded(bottom: Endpoint, top: Endpoint, wanted: nat, packet: nat) {
    && bottom.hasClock && top.outbuf > 0
    && var min := if bottom.outbuf > 0 then Min(wanted, bottom.outbuf - bottom.packet) else wanted;
       min <= top.outbuf < min + packet - 1
  }

  /**
   In short: the window of a clocked top endpoint is too narrow exactly if its buffer is crowded so.  A buffer
   smaller than the bottom minimum is not: the difference wraps around, and the window is as good as unlimited.
   */
  lemma TopWindowCrowded(bottom: Endpoint, top: Endpoint, rate: nat, outMinMs: nat, windowMs: nat, c: Config, prio: nat)
    requires Configured(bottom, top, c) && LevelsOf(bottom, top, rate, outMinMs, windowMs, c) && c.packet > 0
    requires Roomy(bottom, AsyncMax(bottom, top)) && Roomy(top, AsyncMax(bottom, top))
    requires top.hasClock && c.bottomOutMin < WRAP && c.topOutMax < WRAP
    ensures (forall queued: nat :: HasPackets(InBound(true, queued, c.topInMax, c.packet, prio), c.packet))
       <==> !Crowded(bottom, top, Wanted(outMinMs, rate, AsyncMax(bottom, top)), c.packet)
  {
    hide Halved, PacketLimit, HasPackets, Sub32, FirstPacket;
    InWindowExact(c.topInMax, c.packet, prio);
    HalvedFits(FirstPacket(bottom, top), PacketLimit(c));
    LimitTop(c);
    Difference(c.topOutMax, c.bottomOutMin);
  }

  lemma Difference(a: nat, b: nat)
    requires a < WRAP && b < WRAP
    ensures Sub32(a, b) == if b <= a then a - b else WRAP - (b - a)
  {
  }

  lemma LimitTop(c: Config)
    requires c.bottomOutMin <= c.bottomOutMax && c.topOutMin <= c.topOutMax && c.topAsync
    ensures 2 * PacketLimit(c) <= c.topOutMin && 2 * PacketLimit(c) <= c.topOutMax - c.topOutMin
  {
  }

  /**
   The top input window is measured against the bottom output minimum. With both endpoints
   clocked it can shrink to nothing, and then holds no packet at some fill levels.
   */
  lemma TopWindowCanVanish()
    ensures var bottom, top := Endpoint(true, 10, 0), Endpoint(true, 10, 40);
            exists c :: Configured(bottom, top, c) && LevelsOf(bottom, top, 8000, 5, 0, c)
                        && c.topInMax == 0 && c.packet == 5
                        && !HasPackets(InBound(true, 1, c.topInMax, c.packet, 1), c.packet)
  {
    var bottom, top := Endpoint(true, 10, 0), Endpoint(true, 10, 40);
    var c := Config(true, true, 5, 40, 80, 40, 30, 40, 0);
    assert PacketLimit(c) == 5;
    assert Halved(10, 5) == 5;
    assert Samples(5, 8000, 10) == 40 && Samples(0, 8000, 10) == 0;
    assert Configured(bottom, top, c) && LevelsOf(bottom, top, 8000, 5, 0, c);
    var b := InBound(true, 1, 0, 5, 1);
    assert b.lower == 1 && b.upper == 1;
  }
}
