/**
 One step of the audio pump between two endpoints: it picks a transfer size from the
 four queue levels, sheds what cannot be kept, moves the records both ways, and pads
 outputs that are too low. Loops, remove-on-exhaust endpoints and filters are not modelled.
 */
module Pump {
  import opened Xfer
  import opened PumpCopy
  import opened PumpConfig

  /** Queue levels of one endpoint as the pump tracks them. */
  datatype Levels = Levels(input: nat, output: nat)

  /** Loss counters of one endpoint. */
  datatype Losses = Losses(inDrop: nat, inPad: nat, inFail: nat, outDrop: nat, outPad: nat, outFail: nat)

  // ---- the plan of a step ------------------------------------------------------------------

  /** Which endpoints tolerate loss: their windows give way first. */
  datatype LossMode = LossMode(bottom: bool, top: bool)

  function PrioOf(tolerates: bool): nat {
    if tolerates then 2 else 1
  }

  /** The windows of the direction from the `source` input to the `sink` output. */
  function Windows(c: Config, up: bool, source: nat, sink: nat, mode: LossMode): seq<Bound> {
    if up then
      [InBound(c.bottomAsync, source, c.bottomInMax, c.packet, PrioOf(mode.bottom)),
       OutBound(c.topAsync && (c.bottomAsync || source > 0), sink, c.topOutMin, c.topOutMax, PrioOf(mode.top))]
    else
      [InBound(c.topAsync, source, c.topInMax, c.packet, PrioOf(mode.top)),
       OutBound(c.bottomAsync && (c.topAsync || source > 0), sink, c.bottomOutMin, c.bottomOutMax, PrioOf(mode.bottom))]
  }

  function Bounds(c: Config, up: bool, down: bool, bottom: Levels, top: Levels, mode: LossMode): seq<Bound> {
    (if up then Windows(c, true, bottom.input, top.output, mode) else [])
    + (if down then Windows(c, false, top.input, bottom.output, mode) else [])
  }

  /** Configurations that can run: a packet size, and windows that are not inside out. */
  ghost predicate Runnable(c: Config) {
    c.packet > 0 && c.bottomOutMin <= c.bottomOutMax && c.topOutMin <= c.topOutMax
  }

  lemma BoundsValid(c: Config, up: bool, down: bool, bottom: Levels, top: Levels, mode: LossMode)
    requires Runnable(c)
    ensures AllValid(Bounds(c, up, down, bottom, top, mode))
    ensures up || down ==> Bounds(c, up, down, bottom, top, mode) != []
  {
  }

  /** How much of the input is taken for a transfer of `n`, and how much is thrown away first. */
  function InTake(queued: nat, n: nat): nat {
    Min(n, queued)
  }

  function InExcess(clocked: bool, queued: nat, max: nat, n: nat): nat {
    if clocked && n <= queued && queued - n > max then queued - n - max else 0
  }

  /** How much of a transfer of `n` the output has room for. */
  function OutRoom(queued: nat, max: nat, n: nat): nat {
    if queued + n <= max then n else if queued > max then 0 else max - queued
  }

  // ---- what a good plan means ----------------------------------------------------------------

  /**
   Loss is confined to the tolerant endpoint: if some transfer satisfies both windows of an
   endpoint that does not tolerate loss, the chosen one satisfies them too.
   */
  lemma LossConfined(bs: seq<Bound>, packet: nat, n: nat, prio: nat)
    requires packet > 0 && AllValid(bs) && Optimal(bs, packet, n)
    requires exists x :: Packets(x, packet) && forall i :: 0 <= i < |bs| && bs[i].prio <= prio ==> Meets(bs[i], x)
    ensures forall i :: 0 <= i < |bs| && bs[i].prio <= prio ==> Meets(bs[i], n)
  {
    var x :| Packets(x, packet) && forall i :: 0 <= i < |bs| && bs[i].prio <= prio ==> Meets(bs[i], x);
    PrioIs(bs, x);
    PrioIs(bs, n);
    if !MeetsAll(bs, n) {
      assert forall y :: Packets(y, packet) ==> !MeetsAll(bs, y);
      assert AtLeast(bs, n, x);
      assert prio < Prio(bs, x) <= Prio(bs, n);
    }
  }

  lemma {:induction false} PrioIs(bs: seq<Bound>, x: int)
    ensures forall i :: 0 <= i < |bs| && !Meets(bs[i], x) ==> Prio(bs, x) <= bs[i].prio
    ensures Prio(bs, x) == INT_MAX || exists i :: 0 <= i < |bs| && !Meets(bs[i], x) && Prio(bs, x) == bs[i].prio
  {
    if bs != [] {
      var k := |bs| - 1;
      PrioIs(bs[..k], x);
      assert forall i :: 0 <= i < k ==> bs[..k][i] == bs[i];
    }
  }

  /** With loss allowed at the top only, the bottom windows are met whenever some packet multiple meets them. */
  lemma BottomIsSafe(c: Config, bottom: Levels, top: Levels, n: nat, x: nat)
    requires Runnable(c)
    requires var bs := Bounds(c, true, true, bottom, top, LossMode(false, true));
             Optimal(bs, c.packet, n) && Packets(x, c.packet) && Meets(bs[0], x) && Meets(bs[3], x)
    ensures var bs := Bounds(c, true, true, bottom, top, LossMode(false, true)); Meets(bs[0], n) && Meets(bs[3], n)
  {
    var bs := Bounds(c, true, true, bottom, top, LossMode(false, true));
    BoundsValid(c, true, true, bottom, top, LossMode(false, true));
    assert bs[1].prio == 2 && bs[2].prio == 2;
    LossConfined(bs, c.packet, n, 1);
  }

  // ---- what a plan is charged for ------------------------------------------------------------

  /** Records of an input lost by a transfer of `n`: one for each left over, two for each that is not there. */
  ghost function InLoss(clocked: bool, queued: nat, max: nat, packet: nat, n: int): int {
    var there := if !clocked && 0 < queued < packet then packet else queued;
    (if clocked && queued - n > max then queued - n - max else 0) + (if n > there then 2 * (n - there) else 0)
  }

  /** Records of an output lost: two for each short of the minimum, one for each above the maximum. */
  ghost function OutLoss(needed: bool, queued: nat, min: nat, max: nat, n: int): int {
    (if needed && queued + n < min then 2 * (min - queued - n) else 0)
    + (if queued >= max then (if n > 0 then n else 0) else if queued + n > max then queued + n - max else 0)
  }

  ghost function BottomLoss(c: Config, up: bool, down: bool, b: Levels, t: Levels, n: int): int {
    (if up then InLoss(c.bottomAsync, b.input, c.bottomInMax, c.packet, n) else 0)
    + (if down then OutLoss(c.bottomAsync && (c.topAsync || t.input > 0), b.output, c.bottomOutMin, c.bottomOutMax, n) else 0)
  }

  ghost function TopLoss(c: Config, up: bool, down: bool, b: Levels, t: Levels, n: int): int {
    (if up then OutLoss(c.topAsync && (c.bottomAsync || b.input > 0), t.output, c.topOutMin, c.topOutMax, n) else 0)
    + (if down then InLoss(c.topAsync, t.input, c.topInMax, c.packet, n) else 0)
  }

  /** The windows charge a transfer with these losses, and rank it by whether an endpoint that tolerates none has any. */
  lemma Priced(c: Config, up: bool, down: bool, b: Levels, t: Levels, mode: LossMode, n: nat)
    requires Runnable(c)
    ensures var bs := Bounds(c, up, down, b, t, mode);
      var bottom, top := BottomLoss(c, up, down, b, t, n), TopLoss(c, up, down, b, t, n);
      && Cost(bs, n) == bottom + top
      && Prio(bs, n) == (if (bottom > 0 && !mode.bottom) || (top > 0 && !mode.top) then 1
                         else if bottom > 0 || top > 0 then 2 else INT_MAX)
  {
    PricedOneWay(c, true, b.input, t.output, mode, n);
    PricedOneWay(c, false, t.input, b.output, mode, n);
    var ups, downs := Windows(c, true, b.input, t.output, mode), Windows(c, false, t.input, b.output, mode);
    CostAppend(if up then ups else [], if down then downs else [], n);
  }

  lemma PricedOneWay(c: Config, up: bool, source: nat, sink: nat, mode: LossMode, n: nat)
    requires Runnable(c)
    ensures var bs := Windows(c, up, source, sink, mode);
      var i := if up then InLoss(c.bottomAsync, source, c.bottomInMax, c.packet, n)
               else InLoss(c.topAsync, source, c.topInMax, c.packet, n);
      var o := if up then OutLoss(c.topAsync && (c.bottomAsync || source > 0), sink, c.topOutMin, c.topOutMax, n)
               else OutLoss(c.bottomAsync && (c.topAsync || source > 0), sink, c.bottomOutMin, c.bottomOutMax, n);
      var tolerant, other := if up then mode.bottom else mode.top, if up then mode.top else mode.bottom;
      && Cost(bs, n) == i + o && i >= 0 && o >= 0
      && Prio(bs, n) == (if (i > 0 && !tolerant) || (o > 0 && !other) then 1 else if i > 0 || o > 0 then 2 else INT_MAX)
  {
    hide InBound, OutBound, InLoss, OutLoss, Cost, Prio;
    var bs := Windows(c, up, source, sink, mode);
    assert bs == [bs[0]] + [bs[1]];
    CostAppend([bs[0]], [bs[1]], n);
    if up {
      PricedIn(c.bottomAsync, source, c.bottomInMax, c.packet, PrioOf(mode.bottom), n);
      PricedOut(c.topAsync && (c.bottomAsync || source > 0), sink, c.topOutMin, c.topOutMax, PrioOf(mode.top), n);
    } else {
      PricedIn(c.topAsync, source, c.topInMax, c.packet, PrioOf(mode.top), n);
      PricedOut(c.bottomAsync && (c.topAsync || source > 0), sink, c.bottomOutMin, c.bottomOutMax, PrioOf(mode.bottom), n);
    }
  }

  lemma PricedIn(clocked: bool, queued: nat, max: nat, packet: nat, prio: nat, n: nat)
    requires prio <= 2
    ensures var bs, lost := [InBound(clocked, queued, max, packet, prio)], InLoss(clocked, queued, max, packet, n);
      Cost(bs, n) == lost >= 0 && Prio(bs, n) == if lost > 0 then prio else INT_MAX
  {
    CostOne(InBound(clocked, queued, max, packet, prio), n);
  }

  lemma PricedOut(needed: bool, queued: nat, min: nat, max: nat, prio: nat, n: nat)
    requires prio <= 2 && min <= max
    ensures var bs, lost := [OutBound(needed, queued, min, max, prio)], OutLoss(needed, queued, min, max, n);
      Cost(bs, n) == lost >= 0 && Prio(bs, n) == if lost > 0 then prio else INT_MAX
  {
    CostOne(OutBound(needed, queued, min, max, prio), n);
  }

  /**
   What the chosen transfer is, in records: if some multiple of the packet size loses nothing, it is the largest of
   those; if not, no other spares an endpoint that tolerates no loss which this one does not spare, and of those that
   do alike none loses less, or as little while being larger.
   */
  lemma LeastLoss(c: Config, up: bool, down: bool, b: Levels, t: Levels, mode: LossMode, n: nat, y: nat)
    requires Runnable(c) && (up || down)
    requires Optimal(Bounds(c, up, down, b, t, mode), c.packet, n) && y % c.packet == 0
    ensures n % c.packet == 0
    ensures var lost := BottomLoss(c, up, down, b, t, n) + TopLoss(c, up, down, b, t, n);
      var other := BottomLoss(c, up, down, b, t, y) + TopLoss(c, up, down, b, t, y);
      var hurts := (BottomLoss(c, up, down, b, t, n) > 0 && !mode.bottom) || (TopLoss(c, up, down, b, t, n) > 0 && !mode.top);
      var spares := !((BottomLoss(c, up, down, b, t, y) > 0 && !mode.bottom) || (TopLoss(c, up, down, b, t, y) > 0 && !mode.top));
      && (other == 0 ==> lost == 0 && y <= n)
      && (hurts ==> !spares)
      && (hurts == !spares && lost > 0 ==> lost < other || (lost == other && y <= n))
  {
    hide Optimal, Bounds, Cost, Prio, BottomLoss, TopLoss;
    BoundsValid(c, up, down, b, t, mode);
    OptimalMeans(Bounds(c, up, down, b, t, mode), c.packet, n, y);
    Priced(c, up, down, b, t, mode, n);
    Priced(c, up, down, b, t, mode, y);
    LossNonNegative(c, up, down, b, t, n);
    LossNonNegative(c, up, down, b, t, y);
  }

  lemma LossNonNegative(c: Config, up: bool, down: bool, b: Levels, t: Levels, n: nat)
    ensures BottomLoss(c, up, down, b, t, n) >= 0 && TopLoss(c, up, down, b, t, n) >= 0
  {
  }

  // ---- one direction of a step --------------------------------------------------------------

  /** What one direction of a step did: `taken` records came off the source, `accepted` went to the sink. */
  datatype Flow = Flow(n: nat, clocked: bool, source: nat, inMax: nat, sink: nat, outMin: nat, outMax: nat,
                       taken: nat, accepted: nat)
  {
    predicate Sound() {
      taken <= InTake(source, n) && accepted <= OutRoom(sink, outMax, n)
    }

    /** Both endpoints gave all that was asked of them. */
    predicate Full() {
      taken == InTake(source, n) && accepted == OutRoom(sink, outMax, n)
    }

    function InDrop(): nat {
      InExcess(clocked, source, inMax, n)
    }

    /** The counter also counts what was above the maximum before the step. */
    function OutDrop(): nat {
      if sink + n > outMax then sink + n - outMax else 0
    }

    function OutPad(): nat {
      if sink + accepted < outMin then outMin - (sink + accepted) else 0
    }

    function SourceAfter(): int {
      source - InDrop() - taken
    }

    function SinkAfter(): int {
      sink + accepted + OutPad()
    }
  }

  /** The counters of an endpoint that was source of `i` and sink of `o`, where these were pumped. */
  function Counted(l: Losses, source: bool, i: Flow, sink: bool, o: Flow): Losses
    requires i.Sound() && o.Sound()
  {
    Losses(
      l.inDrop + (if source then i.InDrop() else 0),
      l.inPad + (if source then i.n - i.taken else 0),
      l.inFail + (if source then InTake(i.source, i.n) - i.taken else 0),
      l.outDrop + (if sink then o.OutDrop() else 0),
      l.outPad + (if sink then o.OutPad() else 0),
      l.outFail + (if sink then OutRoom(o.sink, o.outMax, o.n) - o.accepted else 0))
  }

  /**
   The books of one direction, in records: `taken` and `accepted` are what moved, and the changes of the six counters
   are what they are called.  With `exact` the endpoints gave all that was asked of them.
   */
  ghost predicate Booked(clocked: bool, n: nat, source: nat, inMax: nat, source1: int, sink: nat, outMin: nat, outMax: nat,
                         sink1: int, taken: nat, accepted: nat, was: Losses, now: Losses, other: Losses, counted: Losses,
                         exact: bool)
  {
    && source == source1 + taken + (now.inDrop - was.inDrop)
    && now.inDrop - was.inDrop == (if clocked && source >= n && source - n > inMax then source - n - inMax else 0)
    && n == taken + (now.inPad - was.inPad)
    && (if n <= source then n else source) == taken + (now.inFail - was.inFail)
    && sink1 == sink + accepted + (counted.outPad - other.outPad)
    && counted.outPad - other.outPad == (if sink + accepted < outMin then outMin - sink - accepted else 0)
    && counted.outDrop - other.outDrop == (if sink + n > outMax then sink + n - outMax else 0)
    && (if sink > outMax then 0 else if sink + n > outMax then outMax - sink else n)
       == accepted + (counted.outFail - other.outFail)
    && (exact ==> now.inFail == was.inFail && counted.outFail == other.outFail)
  }

  /** Levels after any step: outputs between their minimum and what they were or may be, inputs not above theirs. */
  lemma FlowBounded(f: Flow)
    requires f.Sound() && f.outMin <= f.outMax
    ensures f.outMin <= f.SinkAfter() <= Max(f.sink, f.outMax)
    ensures 0 <= f.SourceAfter() <= f.source
    ensures f.clocked ==> f.SourceAfter() <= f.inMax + (InTake(f.source, f.n) - f.taken)
    ensures f.clocked && f.Full() ==> f.SourceAfter() <= f.inMax
  {
  }

  /** A direction whose windows are both met, between endpoints that give all they are asked for, loses nothing. */
  lemma FlowLossless(f: Flow, packet: nat, p: nat, q: nat)
    requires f.Full() && f.clocked && f.sink <= f.outMax && f.outMin <= f.outMax
    requires Meets(InBound(true, f.source, f.inMax, packet, p), f.n)
    requires Meets(OutBound(true, f.sink, f.outMin, f.outMax, q), f.n)
    ensures f.InDrop() == 0 == f.OutDrop() == f.OutPad()
    ensures f.taken == f.n == f.accepted == InTake(f.source, f.n) == OutRoom(f.sink, f.outMax, f.n)
    ensures f.SourceAfter() == f.source - f.n && f.SinkAfter() == f.sink + f.n
  {
  }

  // ---- the pump -------------------------------------------------------------------------------

  class SoundIoPump {
    const bottom: SoundIo
    const top: SoundIo
    const config: Config
    const pumpUp: bool
    const pumpDown: bool
    var mode: LossMode
    var bottomQs: Levels
    var topQs: Levels
    var bottomLoss: Losses
    var topLoss: Losses
    /** What the endpoints last reported themselves. */
    ghost var bottomReport: Levels
    ghost var topReport: Levels
    /** The last records seen in each direction, for padding. */
    var bottomIn: Record
    var bottomOut: Record
    var topIn: Record
    var topOut: Record

    ghost predicate Valid()
    {
      bottom != top && Runnable(config) && (pumpUp || pumpDown)
    }

    /** Output levels never drift above what was reported or configured. */
    ghost predicate Tracked()
      reads this
    {
      && (pumpUp ==> topQs.output <= Max(topReport.output, config.topOutMax))
      && (pumpDown ==> bottomQs.output <= Max(bottomReport.output, config.bottomOutMax))
    }

    /** What every step leaves behind: outputs filled to their minimum, inputs drained to their maximum. */
    ghost predicate InBounds()
      reads this
    {
      && Tracked()
      && (pumpUp ==> config.topOutMin <= topQs.output)
      && (pumpDown ==> config.bottomOutMin <= bottomQs.output)
      && (pumpUp && config.bottomAsync && bottom.honours && top.honours ==> bottomQs.input <= config.bottomInMax)
      && (pumpDown && config.topAsync && bottom.honours && top.honours ==> topQs.input <= config.topInMax)
    }

    constructor (bottom: SoundIo, top: SoundIo, config: Config, pumpUp: bool, pumpDown: bool)
      requires bottom != top && Runnable(config) && (pumpUp || pumpDown)
      ensures Valid() && Tracked() && mode == LossMode(true, true)
      ensures this.bottom == bottom && this.top == top && this.config == config
      ensures this.pumpUp == pumpUp && this.pumpDown == pumpDown
    {
      this.bottom, this.top, this.config := bottom, top, config;
      this.pumpUp, this.pumpDown := pumpUp, pumpDown;
      mode := LossMode(true, true);
      bottomQs, topQs := Levels(0, 0), Levels(0, 0);
      bottomReport, topReport := Levels(0, 0), Levels(0, 0);
      bottomLoss, topLoss := Losses(0, 0, 0, 0, 0, 0), Losses(0, 0, 0, 0, 0, 0);
      bottomIn, bottomOut, topIn, topOut := [], [], [], [];
    }

    /** At least one endpoint must tolerate loss; asking for neither aborts the program. */
    method SetLossMode(atBottom: bool, atTop: bool)
      requires atBottom || atTop
      modifies this`mode
      ensures mode == LossMode(atBottom, atTop)
    {
      mode := LossMode(atBottom, atTop);
    }

    /** The levels a step works on: reported by the endpoint that woke it, asked of one without a clock. */
    function BottomSeen(fromBottom: bool, state: Levels, other: Levels): Levels
      reads this
    {
      if fromBottom then state else if !config.bottomAsync then other else bottomQs
    }

    function TopSeen(fromBottom: bool, state: Levels, other: Levels): Levels
      reads this
    {
      if !fromBottom then state else if !config.topAsync then other else topQs
    }

    /**
     One step, woken by one endpoint. Returns the levels it worked on, the transfer size, what
     each direction did, and the records each sink was given from its source.
     */
    method AsyncProcess(fromBottom: bool, state: Levels, other: Levels)
      returns (b: Levels, t: Levels, n: nat, ghost up: Flow, ghost down: Flow,
               ghost movedUp: seq<Record>, ghost movedDown: seq<Record>)
      requires Valid() && Tracked() && (if fromBottom then config.bottomAsync else config.topAsync)
      requires BottomSeen(fromBottom, state, other).input <= |bottom.inQ|
      requires TopSeen(fromBottom, state, other).input <= |top.inQ|
      modifies this`bottomQs, this`topQs, this`bottomLoss, this`topLoss, this`bottomReport, this`topReport
      modifies this`bottomIn, this`bottomOut, this`topIn, this`topOut
      modifies bottom`inQ, bottom`outQ, bottom`obuf, bottom`dry, bottom`full, bottom.obuf, top`inQ, top`outQ, top`dry, top`full, top`obuf, top.obuf
      ensures InBounds()
      ensures b == if fromBottom then state else if !config.bottomAsync then other else old(bottomQs)
      ensures t == if !fromBottom then state else if !config.topAsync then other else old(topQs)
      ensures bottomReport == (if fromBottom then state else if !config.bottomAsync then other else old(bottomReport))
      ensures topReport == (if !fromBottom then state else if !config.topAsync then other else old(topReport))
      ensures Optimal(Bounds(config, pumpUp, pumpDown, b, t, mode), config.packet, n)
      ensures LevelsAfter(b, t, n, up, down)
      ensures pumpUp && bottomLoss.inFail > old(bottomLoss).inFail ==> bottom.dry
      ensures pumpUp && topLoss.outFail > old(topLoss).outFail ==> top.full
      ensures pumpDown && topLoss.inFail > old(topLoss).inFail ==> top.dry
      ensures pumpDown && bottomLoss.outFail > old(bottomLoss).outFail ==> bottom.full
      ensures bottomLoss == Counted(old(bottomLoss), pumpUp, up, pumpDown, down)
      ensures topLoss == Counted(old(topLoss), pumpDown, down, pumpUp, up)
      ensures pumpUp ==> Booked(config.bottomAsync, n, b.input, config.bottomInMax, bottomQs.input,
                                t.output, config.topOutMin, config.topOutMax, topQs.output, up.taken, up.accepted,
                                old(bottomLoss), bottomLoss, old(topLoss), topLoss, bottom.honours && top.honours)
      ensures pumpDown ==> Booked(config.topAsync, n, t.input, config.topInMax, topQs.input,
                                  b.output, config.bottomOutMin, config.bottomOutMax, bottomQs.output, down.taken, down.accepted,
                                  old(topLoss), topLoss, old(bottomLoss), bottomLoss, bottom.honours && top.honours)
      ensures !pumpUp ==> bottomQs.input == b.input && topQs.output == t.output
      ensures !pumpDown ==> topQs.input == t.input && bottomQs.output == b.output
      ensures pumpUp ==> Moved(old(bottom.inQ), bottom.inQ, old(bottomIn), old(top.outQ), top.outQ,
                              up, movedUp, old(topOut), bottom.honours && top.honours)
      ensures pumpDown ==> Moved(old(top.inQ), top.inQ, old(topIn), old(bottom.outQ), bottom.outQ,
                                down, movedDown, old(bottomOut), bottom.honours && top.honours)
      ensures pumpUp ==> topOut == Lately(movedUp, old(topOut))
      ensures pumpDown ==> bottomOut == Lately(movedDown, old(bottomOut))
      ensures !pumpUp ==> bottom.inQ == old(bottom.inQ) && top.outQ == old(top.outQ)
      ensures !pumpDown ==> top.inQ == old(top.inQ) && bottom.outQ == old(bottom.outQ)
    {
      hide *;
      ghost var bl, tl := bottomLoss, topLoss;
      SeenLevels(fromBottom, state, other);
      SeenTracked(fromBottom, state, other);
      b, t := BottomSeen(fromBottom, state, other), TopSeen(fromBottom, state, other);
      bottomReport := if fromBottom then state else if !config.bottomAsync then other else bottomReport;
      topReport := if !fromBottom then state else if !config.topAsync then other else topReport;
      n, up, down, movedUp, movedDown := Exchange(b, t);
      BoundsAfter(up, down, b, t, n);
      Balance(b, t, n, up, down, bl, tl);
    }

    lemma SeenLevels(fromBottom: bool, state: Levels, other: Levels)
      ensures BottomSeen(fromBottom, state, other) == if fromBottom then state else if !config.bottomAsync then other else bottomQs
      ensures TopSeen(fromBottom, state, other) == if !fromBottom then state else if !config.topAsync then other else topQs
    {
    }

    lemma Balance(b: Levels, t: Levels, n: nat, up: Flow, down: Flow, bl: Losses, tl: Losses)
      requires LevelsAfter(b, t, n, up, down)
      requires bottomLoss == Counted(bl, pumpUp, up, pumpDown, down) && topLoss == Counted(tl, pumpDown, down, pumpUp, up)
      requires (pumpUp ==> Blamed(up, bottom.dry, top.full)) && (pumpDown ==> Blamed(down, top.dry, bottom.full))
      ensures pumpUp && bottomLoss.inFail > bl.inFail ==> bottom.dry
      ensures pumpUp && topLoss.outFail > tl.outFail ==> top.full
      ensures pumpDown && topLoss.inFail > tl.inFail ==> top.dry
      ensures pumpDown && bottomLoss.outFail > bl.outFail ==> bottom.full
      ensures pumpUp ==> Booked(config.bottomAsync, n, b.input, config.bottomInMax, bottomQs.input,
                                t.output, config.topOutMin, config.topOutMax, topQs.output, up.taken, up.accepted,
                                bl, bottomLoss, tl, topLoss, bottom.honours && top.honours)
      ensures pumpDown ==> Booked(config.topAsync, n, t.input, config.topInMax, topQs.input,
                                  b.output, config.bottomOutMin, config.bottomOutMax, bottomQs.output, down.taken, down.accepted,
                                  tl, topLoss, bl, bottomLoss, bottom.honours && top.honours)
      ensures !pumpUp ==> bottomQs.input == b.input && topQs.output == t.output
      ensures !pumpDown ==> topQs.input == t.input && bottomQs.output == b.output
    {
    }

    /** The tracked levels, and the flows they follow from. */
    ghost predicate LevelsAfter(b: Levels, t: Levels, n: nat, up: Flow, down: Flow)
      reads this
    {
      && up == UpFlow(config, b, t, n).(taken := up.taken, accepted := up.accepted) && up.Sound()
      && down == DownFlow(config, b, t, n).(taken := down.taken, accepted := down.accepted) && down.Sound()
      && (bottom.honours && top.honours ==> (pumpUp ==> up.Full()) && (pumpDown ==> down.Full()))
      && bottomQs == Levels(if pumpUp then up.SourceAfter() else b.input, if pumpDown then down.SinkAfter() else b.output)
      && topQs == Levels(if pumpDown then down.SourceAfter() else t.input, if pumpUp then up.SinkAfter() else t.output)
    }

    /** The transfer size for these levels. */
    method Plan(b: Levels, t: Levels) returns (n: nat)
      requires Valid()
      ensures Optimal(Bounds(config, pumpUp, pumpDown, b, t, mode), config.packet, n)
    {
      hide Optimal, AllValid, Bounds;
      var bs := Bounds(config, pumpUp, pumpDown, b, t, mode);
      BoundsValid(config, pumpUp, pumpDown, b, t, mode);
      n := BestXfer(bs, config.packet);
    }

    /** The step once the levels are known. */
    method Exchange(b: Levels, t: Levels)
      returns (n: nat, ghost up: Flow, ghost down: Flow, ghost movedUp: seq<Record>, ghost movedDown: seq<Record>)
      requires Valid() && b.input <= |bottom.inQ| && t.input <= |top.inQ|
      modifies this`bottomQs, this`topQs, this`bottomLoss, this`topLoss
      modifies this`bottomIn, this`bottomOut, this`topIn, this`topOut
      modifies bottom`inQ, bottom`outQ, bottom`obuf, bottom`dry, bottom`full, bottom.obuf, top`inQ, top`outQ, top`dry, top`full, top`obuf, top.obuf
      ensures Optimal(Bounds(config, pumpUp, pumpDown, b, t, mode), config.packet, n)
      ensures LevelsAfter(b, t, n, up, down)
      ensures pumpUp ==> Blamed(up, bottom.dry, top.full)
      ensures pumpDown ==> Blamed(down, top.dry, bottom.full)
      ensures bottomLoss == Counted(old(bottomLoss), pumpUp, up, pumpDown, down)
      ensures topLoss == Counted(old(topLoss), pumpDown, down, pumpUp, up)
      ensures pumpUp ==> Moved(old(bottom.inQ), bottom.inQ, old(bottomIn), old(top.outQ), top.outQ,
                              up, movedUp, old(topOut), bottom.honours && top.honours)
      ensures pumpDown ==> Moved(old(top.inQ), top.inQ, old(topIn), old(bottom.outQ), bottom.outQ,
                                down, movedDown, old(bottomOut), bottom.honours && top.honours)
      ensures pumpUp ==> topOut == Lately(movedUp, old(topOut))
      ensures pumpDown ==> bottomOut == Lately(movedDown, old(bottomOut))
      ensures !pumpUp ==> bottom.inQ == old(bottom.inQ) && top.outQ == old(top.outQ)
      ensures !pumpDown ==> top.inQ == old(top.inQ) && bottom.outQ == old(bottom.outQ)
    {
      hide Optimal, AllValid, Bounds, Moved, Counted, InTake, InExcess, OutRoom, UpFlow, DownFlow, Lately, Runnable, Blamed;
      n := Plan(b, t);
      var bws := new WorkingState(bottom, bottomIn, bottomOut);
      var tws := new WorkingState(top, topIn, topOut);
      bottomQs, topQs, bottomLoss, topLoss, up, down, movedUp, movedDown :=
        MoveBoth(config, pumpUp, pumpDown, bws, tws, b, t, bottomLoss, topLoss, n);
      bottomIn, bottomOut, topIn, topOut := bws.inSilence, bws.outSilence, tws.inSilence, tws.outSilence;
    }

    lemma SeenTracked(fromBottom: bool, state: Levels, other: Levels)
      requires Valid() && Tracked()
      ensures Runnable(config) && config.packet > 0 && bottom != top && (pumpUp || pumpDown)
      ensures pumpUp ==>
                TopSeen(fromBottom, state, other).output
                <= Max((if !fromBottom then state else if !config.topAsync then other else topReport).output, config.topOutMax)
      ensures pumpDown ==>
                BottomSeen(fromBottom, state, other).output
                <= Max((if fromBottom then state else if !config.bottomAsync then other else bottomReport).output,
                       config.bottomOutMax)
    {
    }

    lemma BoundsAfter(up: Flow, down: Flow, b: Levels, t: Levels, n: nat)
      requires Runnable(config) && LevelsAfter(b, t, n, up, down)
      requires pumpUp ==> t.output <= Max(topReport.output, config.topOutMax)
      requires pumpDown ==> b.output <= Max(bottomReport.output, config.bottomOutMax)
      ensures InBounds()
    {
      FlowBounded(up);
      FlowBounded(down);
    }
  }

  /** The flow of a direction before anything has moved. */
  function UpFlow(c: Config, b: Levels, t: Levels, n: nat): Flow {
    Flow(n, c.bottomAsync, b.input, c.bottomInMax, t.output, c.topOutMin, c.topOutMax, 0, 0)
  }

  function DownFlow(c: Config, b: Levels, t: Levels, n: nat): Flow {
    Flow(n, c.topAsync, t.input, c.topInMax, b.output, c.bottomOutMin, c.bottomOutMax, 0, 0)
  }

  /** The moving part of a step: shed, copy down, copy up, pad, count. */
  method MoveBoth(c: Config, pumpUp: bool, pumpDown: bool, bws: WorkingState, tws: WorkingState,
                  b: Levels, t: Levels, bl: Losses, tl: Losses, n: nat)
    returns (b': Levels, t': Levels, bl': Losses, tl': Losses,
             ghost up: Flow, ghost down: Flow, ghost movedUp: seq<Record>, ghost movedDown: seq<Record>)
    requires Fresh(bws) && Fresh(tws) && bws != tws && bws.siop != tws.siop
    requires b.input <= |bws.siop.inQ| && t.input <= |tws.siop.inQ|
    modifies bws, tws, bws.siop`inQ, bws.siop`outQ, bws.siop`obuf, bws.siop`dry, bws.siop`full, bws.siop.obuf
    modifies tws.siop`inQ, tws.siop`outQ, tws.siop`obuf, tws.siop`dry, tws.siop`full, tws.siop.obuf
    ensures up == UpFlow(c, b, t, n).(taken := up.taken, accepted := up.accepted) && up.Sound()
    ensures down == DownFlow(c, b, t, n).(taken := down.taken, accepted := down.accepted) && down.Sound()
    ensures bws.siop.honours && tws.siop.honours ==> (pumpUp ==> up.Full()) && (pumpDown ==> down.Full())
    ensures pumpUp ==> Blamed(up, bws.siop.dry, tws.siop.full)
    ensures pumpDown ==> Blamed(down, tws.siop.dry, bws.siop.full)
    ensures b' == Levels(if pumpUp then up.SourceAfter() else b.input, if pumpDown then down.SinkAfter() else b.output)
    ensures t' == Levels(if pumpDown then down.SourceAfter() else t.input, if pumpUp then up.SinkAfter() else t.output)
    ensures bl' == Counted(bl, pumpUp, up, pumpDown, down)
    ensures tl' == Counted(tl, pumpDown, down, pumpUp, up)
    ensures pumpUp ==> Moved(old(bws.siop.inQ), bws.siop.inQ, old(bws.inSilence), old(tws.siop.outQ), tws.siop.outQ,
                              up, movedUp, old(tws.outSilence), bws.siop.honours && tws.siop.honours)
    ensures pumpDown ==> Moved(old(tws.siop.inQ), tws.siop.inQ, old(tws.inSilence), old(bws.siop.outQ), bws.siop.outQ,
                                down, movedDown, old(bws.outSilence), bws.siop.honours && tws.siop.honours)
    ensures pumpUp ==> tws.outSilence == Lately(movedUp, old(tws.outSilence))
    ensures pumpDown ==> bws.outSilence == Lately(movedDown, old(bws.outSilence))
    ensures !pumpUp ==> bws.siop.inQ == old(bws.siop.inQ) && tws.siop.outQ == old(tws.siop.outQ)
    ensures !pumpDown ==> tws.siop.inQ == old(tws.siop.inQ) && bws.siop.outQ == old(bws.siop.outQ)
  {
    hide *;
    FlowFields(c, b, t, n);
    ghost var bq, tq, bo, to := bws.siop.inQ, tws.siop.inQ, bws.siop.outQ, tws.siop.outQ;
    var x;
    ghost var bq1, tq1, cUp, cDown;
    x, bq1, tq1, movedUp, cUp, movedDown, cDown := ExchangeBoth(c, pumpUp, pumpDown, bws, tws, b, t, n);
    ghost var bo1, to1 := bws.siop.outQ, tws.siop.outQ;
    var bTaken, bGiven := x.bInXfer - bws.inXfer, x.bOutXfer - bws.outXfer;
    var tTaken, tGiven := x.tInXfer - tws.inXfer, x.tOutXfer - tws.outXfer;
    up := UpFlow(c, b, t, n).(taken := bTaken, accepted := tGiven);
    down := DownFlow(c, b, t, n).(taken := tTaken, accepted := bGiven);
    b' := Levels(x.bIn - bTaken, b.output + bGiven);
    t' := Levels(x.tIn - tTaken, t.output + tGiven);

    ghost var dryUp, fullUp, dryDown, fullDown := bws.siop.dry, tws.siop.full, tws.siop.dry, bws.siop.full;
    ghost var tPadded, bPadded;
    var tPad;
    tPad, tPadded := Pad(pumpUp, tws.siop, tws.outSilence, t'.output, c.topOutMin);
    t' := t'.(output := t'.output + tPad);
    var bPad;
    bPad, bPadded := Pad(pumpDown, bws.siop, bws.outSilence, b'.output, c.bottomOutMin);
    b' := b'.(output := b'.output + bPad);

    bl' := Losses(bl.inDrop + x.bInDrop, bl.inPad + bws.inSilencePad, bl.inFail + bws.inXfer,
                  bl.outDrop + x.bOutDrop, bl.outPad + bPad, bl.outFail + bws.outXfer);
    tl' := Losses(tl.inDrop + x.tInDrop, tl.inPad + tws.inSilencePad, tl.inFail + tws.inXfer,
                  tl.outDrop + x.tOutDrop, tl.outPad + tPad, tl.outFail + tws.outXfer);
    ghost var honours := bws.siop.honours && tws.siop.honours;
    BlamedMore(up, dryUp, fullUp, bws.siop.dry, tws.siop.full);
    BlamedMore(down, dryDown, fullDown, tws.siop.dry, bws.siop.full);
    Tally(pumpUp, up, x.bIn, x.bInDrop, x.tOutDrop, x.bInXfer, x.tOutXfer, bws.inSilencePad, tPad, tPadded,
          bq, bq1, bws.siop.inQ, old(bws.inSilence), to, to1, tws.siop.outQ, movedUp, old(tws.outSilence), cUp, honours,
          dryUp, fullUp);
    Tally(pumpDown, down, x.tIn, x.tInDrop, x.bOutDrop, x.tInXfer, x.bOutXfer, tws.inSilencePad, bPad, bPadded,
          tq, tq1, tws.siop.inQ, old(tws.inSilence), bo, bo1, bws.siop.outQ, movedDown, old(bws.outSilence), cDown, honours,
          dryDown, fullDown);
    CountedIs(bl, pumpUp, up, pumpDown, down);
    CountedIs(tl, pumpDown, down, pumpUp, up);
  }

  lemma BlamedMore(f: Flow, dry: bool, full: bool, dry': bool, full': bool)
    requires (dry ==> dry') && (full ==> full')
    ensures Blamed(f, dry, full) ==> Blamed(f, dry', full')
  {
  }

  /** The numbers of a step before its copies: levels left, what was shed, and what is to be moved. */
  datatype Expected = Expected(bIn: nat, bInDrop: nat, bOutDrop: nat, bInXfer: nat, bOutXfer: nat,
                               tIn: nat, tInDrop: nat, tOutDrop: nat, tInXfer: nat, tOutXfer: nat)

  /** Shed in both directions, then copy down and up. */
  method ExchangeBoth(c: Config, pumpUp: bool, pumpDown: bool, bws: WorkingState, tws: WorkingState, b: Levels, t: Levels, n: nat)
    returns (x: Expected, ghost bq1: seq<Record>, ghost tq1: seq<Record>,
             ghost movedUp: seq<Record>, ghost cUp: nat, ghost movedDown: seq<Record>, ghost cDown: nat)
    requires Fresh(bws) && Fresh(tws) && bws != tws && bws.siop != tws.siop
    requires b.input <= |bws.siop.inQ| && t.input <= |tws.siop.inQ|
    modifies bws, tws, bws.siop`inQ, bws.siop`outQ, bws.siop`obuf, bws.siop`dry, bws.siop`full, bws.siop.obuf
    modifies tws.siop`inQ, tws.siop`outQ, tws.siop`obuf, tws.siop`dry, tws.siop`full, tws.siop.obuf
    ensures Begun(pumpUp, UpFlow(c, b, t, n), x.bIn, x.bInDrop, x.tOutDrop, x.bInXfer, x.tOutXfer)
    ensures Begun(pumpDown, DownFlow(c, b, t, n), x.tIn, x.tInDrop, x.bOutDrop, x.tInXfer, x.bOutXfer)
    ensures x.bInXfer <= x.bIn && x.tInXfer <= x.tIn
    ensures x.bInDrop <= |old(bws.siop.inQ)| && bq1 == old(bws.siop.inQ)[x.bInDrop..]
    ensures x.tInDrop <= |old(tws.siop.inQ)| && tq1 == old(tws.siop.inQ)[x.tInDrop..]
    ensures bws.inXfer <= x.bInXfer && bws.outXfer <= x.bOutXfer && tws.inXfer <= x.tInXfer && tws.outXfer <= x.tOutXfer
    ensures CopyDone(pumpUp && n > 0, n, x.bInXfer, x.tOutXfer, x.bInXfer - bws.inXfer, x.tOutXfer - tws.outXfer,
                     bws.inSilencePad, bq1, bws.siop.inQ, old(bws.inSilence), old(tws.siop.outQ), tws.siop.outQ,
                     movedUp, cUp, bws.siop.honours && tws.siop.honours, bws.siop.dry, tws.siop.full)
    ensures CopyDone(pumpDown && n > 0, n, x.tInXfer, x.bOutXfer, x.tInXfer - tws.inXfer, x.bOutXfer - bws.outXfer,
                     tws.inSilencePad, tq1, tws.siop.inQ, old(tws.inSilence), old(bws.siop.outQ), bws.siop.outQ,
                     movedDown, cDown, bws.siop.honours && tws.siop.honours, tws.siop.dry, bws.siop.full)
    ensures tws.outSilence == Lately(movedUp, old(tws.outSilence))
    ensures bws.outSilence == Lately(movedDown, old(bws.outSilence))
  {
    hide *;
    StartFresh(bws, tws);
    var upFlow, downFlow := UpFlow(c, b, t, n), DownFlow(c, b, t, n);
    FlowFields(c, b, t, n);
    var bIn, bInDrop, tOutDrop := Begin(pumpUp, bws, tws, upFlow);
    var tIn, tInDrop, bOutDrop := Begin(pumpDown, tws, bws, downFlow);
    x := Expected(bIn, bInDrop, bOutDrop, bws.inXfer, bws.outXfer, tIn, tInDrop, tOutDrop, tws.inXfer, tws.outXfer);
    bq1, tq1 := bws.siop.inQ, tws.siop.inQ;
    BegunFacts(pumpUp, upFlow, bIn, bInDrop, tOutDrop, x.bInXfer, x.tOutXfer);
    BegunFacts(pumpDown, downFlow, tIn, tInDrop, bOutDrop, x.tInXfer, x.bOutXfer);
    movedDown, cDown := Cross(pumpDown && n > 0, bws, tws, n);
    movedUp, cUp := Cross(pumpUp && n > 0, tws, bws, n);
  }

  /** What was not taken or accepted in full, an endpoint did not give when asked. */
  ghost predicate Blamed(f: Flow, dry: bool, full: bool) {
    (f.taken < InTake(f.source, f.n) ==> dry) && (f.accepted < OutRoom(f.sink, f.outMax, f.n) ==> full)
  }

  /** How a direction begins: what is shed, and how much is then to be moved. */
  ghost predicate Begun(active: bool, f: Flow, level: nat, inDrop: nat, outDrop: nat, inXfer: nat, outXfer: nat) {
    if active then
      && inXfer == InTake(f.source, f.n) && outXfer == OutRoom(f.sink, f.outMax, f.n)
      && inDrop == f.InDrop() && level == f.source - inDrop && inXfer <= level && outDrop == f.OutDrop()
    else inXfer == 0 == outXfer && inDrop == 0 == outDrop && level == f.source
  }

  lemma BegunFacts(active: bool, f: Flow, level: nat, inDrop: nat, outDrop: nat, inXfer: nat, outXfer: nat)
    requires Begun(active, f, level, inDrop, outDrop, inXfer, outXfer)
    ensures inXfer <= level
  {
  }

  /** How a copy went, in numbers and in records. */
  ghost predicate CopyDone(active: bool, n: nat, inXfer: nat, outXfer: nat, taken: nat, accepted: nat, pads: nat,
                           source: seq<Record>, source1: seq<Record>, silence: Record,
                           sink: seq<Record>, sink1: seq<Record>, done: seq<Record>, c: nat, honours: bool,
                           dry: bool, full: bool)
  {
    && CopyCounted(active, n, inXfer, outXfer, taken, accepted, pads, honours, dry, full)
    && c <= taken <= |source| && (active && honours ==> c == Min(taken, accepted))
    && source1 == source[taken..] && sink1 == sink + done && |done| == accepted
    && Yields(source, silence, done, c)
  }

  ghost predicate CopyCounted(active: bool, n: nat, inXfer: nat, outXfer: nat, taken: nat, accepted: nat, pads: nat,
                              honours: bool, dry: bool, full: bool)
  {
    && taken <= inXfer && accepted <= outXfer
    && (active && taken < Min(n, inXfer) ==> dry) && (active && accepted < Min(n, outXfer) ==> full)
    && (if active then taken <= n && accepted <= n && pads == n - taken else taken == 0 == accepted == pads)
    && (active && honours ==> taken == Min(n, inXfer) && accepted == Min(n, outXfer))
  }

  /** Begun, copied and padded, a direction is a sound flow, with these counters and these queues. */
  lemma Tally(active: bool, f: Flow, level: nat, inDrop: nat, outDrop: nat, inXfer: nat, outXfer: nat, pads: nat,
              outPad: nat, padded: nat, source0: seq<Record>, source: seq<Record>, source1: seq<Record>, silence: Record,
              sink0: seq<Record>, sink: seq<Record>, sink1: seq<Record>, moved: seq<Record>, lastOut: Record,
              c: nat, honours: bool, dry: bool, full: bool)
    requires Begun(active, f.(taken := 0, accepted := 0), level, inDrop, outDrop, inXfer, outXfer)
    requires inDrop <= |source0| && source == source0[inDrop..]
    requires CopyDone(active && f.n > 0, f.n, inXfer, outXfer, f.taken, f.accepted, pads,
                      source, source1, silence, sink0, sink, moved, c, honours, dry, full)
    requires outPad == (if active && f.sink + f.accepted < f.outMin then f.outMin - (f.sink + f.accepted) else 0)
    requires sink1 == sink + Repeat(Lately(moved, lastOut), padded) && padded <= outPad && (honours ==> padded == outPad)
    ensures f.Sound() && (active && honours ==> f.Full()) && (active ==> Blamed(f, dry, full))
    ensures active ==>
              && level - f.taken == f.SourceAfter() && f.sink + f.accepted + outPad == f.SinkAfter()
              && inDrop == f.InDrop() && outDrop == f.OutDrop() && outPad == f.OutPad()
              && pads == f.n - f.taken && inXfer - f.taken == InTake(f.source, f.n) - f.taken
              && outXfer - f.accepted == OutRoom(f.sink, f.outMax, f.n) - f.accepted
              && Moved(source0, source1, silence, sink0, sink1, f, moved, lastOut, honours)
    ensures !active ==>
              && level - f.taken == f.source && f.sink + f.accepted + outPad == f.sink
              && inDrop == 0 == outDrop == outPad == pads && inXfer - f.taken == 0 == outXfer - f.accepted
              && source1 == source0 && sink1 == sink0
  {
    hide Yields, Moved, Lately, Repeat, Begun, CopyCounted, Blamed, InExcess, InTake, OutRoom;
    TallyCounts(active, f, level, inDrop, outDrop, inXfer, outXfer, pads, outPad, honours, dry, full);
    if active {
      TallyMoved(f, source0, source1, silence, sink0, sink1, moved, lastOut, c, padded, honours);
    } else {
      assert source0[0..] == source0;
      assert sink + Repeat(Lately(moved, lastOut), padded) == sink;
    }
  }

  lemma TallyCounts(active: bool, f: Flow, level: nat, inDrop: nat, outDrop: nat, inXfer: nat, outXfer: nat, pads: nat,
                    outPad: nat, honours: bool, dry: bool, full: bool)
    requires Begun(active, f.(taken := 0, accepted := 0), level, inDrop, outDrop, inXfer, outXfer)
    requires CopyCounted(active && f.n > 0, f.n, inXfer, outXfer, f.taken, f.accepted, pads, honours, dry, full)
    requires outPad == (if active && f.sink + f.accepted < f.outMin then f.outMin - (f.sink + f.accepted) else 0)
    ensures f.Sound() && (active && honours ==> f.Full()) && (active ==> Blamed(f, dry, full))
    ensures active ==>
              && level - f.taken == f.SourceAfter() && f.sink + f.accepted + outPad == f.SinkAfter()
              && inDrop == f.InDrop() && outDrop == f.OutDrop() && outPad == f.OutPad()
              && pads == f.n - f.taken && inXfer == InTake(f.source, f.n) && outXfer == OutRoom(f.sink, f.outMax, f.n)
    ensures !active ==>
              && level == f.source && f.taken == 0 == f.accepted && inDrop == 0 == outDrop == outPad == pads
              && inXfer == 0 == outXfer
  {
  }

  lemma TallyMoved(f: Flow, source0: seq<Record>, source1: seq<Record>, silence: Record, sink0: seq<Record>, sink1: seq<Record>,
                   moved: seq<Record>, lastOut: Record, c: nat, padded: nat, honours: bool)
    requires f.InDrop() + f.taken <= |source0| && source1 == source0[f.InDrop()..][f.taken..]
    requires |moved| == f.accepted && c <= f.taken && Yields(source0[f.InDrop()..], silence, moved, c)
    requires sink1 == sink0 + moved + Repeat(Lately(moved, lastOut), padded) && padded <= f.OutPad()
    requires honours ==> c == Min(f.taken, f.accepted) && padded == f.OutPad()
    ensures Moved(source0, source1, silence, sink0, sink1, f, moved, lastOut, honours)
  {
    hide Yields;
    assert source0[f.InDrop()..][f.taken..] == source0[f.InDrop() + f.taken..];
  }

  /** A working state at the start of a step. */
  ghost predicate Fresh(ws: WorkingState)
    reads ws
  {
    ws.inBuf == [] && ws.inXfer == 0 == ws.inSilencePad && ws.outSize == 0 == ws.outUsed && ws.outXfer == 0
  }

  lemma StartFresh(bws: WorkingState, tws: WorkingState)
    requires Fresh(bws) && Fresh(tws)
    ensures bws.inBuf == tws.inBuf == [] && bws.inXfer == tws.inXfer == bws.outXfer == tws.outXfer == 0
    ensures bws.outSize == tws.outSize == bws.outUsed == tws.outUsed == 0 == bws.inSilencePad == tws.inSilencePad
  {
  }

  lemma FlowFields(c: Config, b: Levels, t: Levels, n: nat)
    ensures var f := UpFlow(c, b, t, n);
            && f.n == n && f.taken == 0 == f.accepted && f.source == b.input && f.sink == t.output
            && f.clocked == c.bottomAsync && f.inMax == c.bottomInMax && f.outMin == c.topOutMin && f.outMax == c.topOutMax
    ensures var f := DownFlow(c, b, t, n);
            && f.n == n && f.taken == 0 == f.accepted && f.source == t.input && f.sink == b.output
            && f.clocked == c.topAsync && f.inMax == c.topInMax && f.outMin == c.bottomOutMin && f.outMax == c.bottomOutMax
  {
  }

  lemma CountedIs(l: Losses, source: bool, i: Flow, sink: bool, o: Flow)
    requires i.Sound() && o.Sound()
    ensures var r := Counted(l, source, i, sink, o);
            && r.inDrop == l.inDrop + (if source then i.InDrop() else 0)
            && r.inPad == l.inPad + (if source then i.n - i.taken else 0)
            && r.inFail == l.inFail + (if source then InTake(i.source, i.n) - i.taken else 0)
            && r.outDrop == l.outDrop + (if sink then o.OutDrop() else 0)
            && r.outPad == l.outPad + (if sink then o.OutPad() else 0)
            && r.outFail == l.outFail + (if sink then OutRoom(o.sink, o.outMax, o.n) - o.accepted else 0)
  {
  }

  /** Sheds what cannot be kept in one direction and sets how much is to be transferred. */
  method Begin(active: bool, sw: WorkingState, dw: WorkingState, f: Flow) returns (level: nat, inDrop: nat, outDrop: nat)
    requires sw.siop != dw.siop && f.source <= |sw.siop.inQ| && sw.inXfer == 0 == dw.outXfer && sw.inBuf == []
    modifies sw.siop`inQ, sw`inXfer, dw`outXfer
    ensures sw.ValidIn()
    ensures Begun(active, f, level, inDrop, outDrop, sw.inXfer, dw.outXfer)
    ensures inDrop <= |old(sw.siop.inQ)| && sw.siop.inQ == old(sw.siop.inQ)[inDrop..]
  {
    level, inDrop, outDrop := f.source, 0, 0;
    if active {
      var xfer;
      xfer, level, inDrop := TrimInput(sw.siop, f.clocked, f.source, f.inMax, f.n);
      sw.inXfer := xfer;
      xfer, outDrop := TrimOutput(f.sink, f.outMax, f.n);
      dw.outXfer := xfer;
    }
  }

  /** The copy of one direction, if there is anything to copy. */
  method Cross(active: bool, dw: WorkingState, sw: WorkingState, n: nat) returns (ghost done: seq<Record>, ghost c: nat)
    requires dw != sw && dw.siop != sw.siop && sw.ValidIn() && dw.outSize == 0 == dw.outUsed && sw.inBuf == []
    requires active ==> n > 0
    requires sw.inSilencePad == 0
    modifies dw`outSize, dw`outUsed, dw`outXfer, dw`outDrop, dw`outSilence, dw.siop`outQ, dw.siop`obuf, dw.siop`full, dw.siop.obuf
    modifies sw`inBuf, sw`inXfer, sw`inSilence, sw`inSilencePad, sw.siop`inQ, sw.siop`dry
    ensures dw.outSize == 0 == dw.outUsed && sw.inXfer <= old(sw.inXfer) && dw.outXfer <= old(dw.outXfer)
    ensures CopyDone(active, n, old(sw.inXfer), old(dw.outXfer), old(sw.inXfer) - sw.inXfer, old(dw.outXfer) - dw.outXfer,
                     sw.inSilencePad, old(sw.siop.inQ), sw.siop.inQ, old(sw.inSilence), old(dw.siop.outQ), dw.siop.outQ,
                     done, c, sw.siop.honours && dw.siop.honours, sw.siop.dry, dw.siop.full)
    ensures dw.outSilence == Lately(done, old(dw.outSilence))
  {
    done, c := [], 0;
    if active {
      var drop;
      assert dw.siop.obuf[..0] == [];
      drop, done, c := CopyCross(dw, sw, n);
      assert dw.Accepted() == dw.siop.outQ;
    }
  }

  /** Pads an output that is below its minimum; the tracked level counts all of the padding. */
  method Pad(active: bool, io: SoundIo, silence: Record, level: nat, min: nat)
    returns (pad: nat, ghost padded: nat)
    modifies io`obuf, io`outQ, io`full
    ensures pad == if active && level < min then min - level else 0
    ensures io.outQ == old(io.outQ) + Repeat(silence, padded) && padded <= pad && (io.honours ==> padded == pad)
    ensures (padded < pad ==> io.full) && (old(io.full) ==> io.full)
  {
    pad, padded := 0, 0;
    if active && level < min {
      pad := min - level;
      var left := OutputSilence(io, silence, pad);
      padded := pad - left;
    }
  }

  /**
   What one direction did to the queues themselves: the source lost the excess and then what
   was taken; the sink got `moved`, which is those records in order, and then only padding,
   which repeats the last record the sink was ever given, `lastOut` if there was none in this step.
   */
  ghost predicate Moved(source0: seq<Record>, source1: seq<Record>, silence: Record,
                        sink0: seq<Record>, sink1: seq<Record>, f: Flow, moved: seq<Record>, lastOut: Record, exact: bool)
  {
    && f.InDrop() + f.taken <= |source0|
    && source1 == source0[f.InDrop() + f.taken..]
    && |moved| == f.accepted
    && (exists c :: 0 <= c <= f.taken && Yields(source0[f.InDrop()..], silence, moved, c) && (exact ==> c == Min(f.taken, f.accepted)))
    && (exists k :: 0 <= k <= f.OutPad() && sink1 == sink0 + moved + Repeat(Lately(moved, lastOut), k)
                    && (exact ==> k == f.OutPad()))
  }

  /** Sheds the part of an input queue that is above its maximum even after the transfer. */
  method TrimInput(io: SoundIo, clocked: bool, queued: nat, max: nat, n: nat) returns (xfer: nat, level: nat, drop: nat)
    requires queued <= |io.inQ|
    modifies io`inQ
    ensures xfer == InTake(queued, n) && drop == InExcess(clocked, queued, max, n) && level == queued - drop
    ensures drop <= |old(io.inQ)| && io.inQ == old(io.inQ)[drop..] && xfer <= level <= |io.inQ|
  {
    xfer, level, drop := n, queued, 0;
    if n > queued {
      xfer := queued;
    } else if clocked && queued - n > max {
      drop := queued - n - max;
      io.DequeueIBuf(drop);
      level := queued - drop;
    }
  }

  /** Limits an output transfer to the maximum level. */
  method TrimOutput(queued: nat, max: nat, n: nat) returns (xfer: nat, drop: nat)
    ensures xfer == OutRoom(queued, max, n)
    ensures drop == if queued + n > max then queued + n - max else 0
  {
    xfer, drop := n, 0;
    if queued + n > max {
      drop := queued + n - max;
      xfer := if drop > xfer then 0 else xfer - drop;
    }
  }

  /** Repeats the last output record; what the endpoint has no room for is returned. */
  method OutputSilence(io: SoundIo, silence: Record, nsamps: nat) returns (left: nat)
    modifies io`obuf, io`outQ, io`full
    ensures left <= nsamps && io.outQ == old(io.outQ) + Repeat(silence, nsamps - left)
    ensures io.honours ==> left == 0
    ensures (left > 0 ==> io.full) && (old(io.full) ==> io.full)
  {
    left := nsamps;
    while left > 0
      invariant 0 <= left <= nsamps && io.outQ == old(io.outQ) + Repeat(silence, nsamps - left)
      invariant old(io.full) ==> io.full
    {
      var rem := io.GetOBuf(left);
      if rem == 0 {
        return;
      }
      PadWith(io.obuf, 0, silence, rem);
      assert io.obuf[..rem] == Repeat(silence, rem);
      io.QueueOBuf(rem);
      left := left - rem;
    }
  }

  /**
   A step in which the four windows share a packet multiple loses nothing at all: no counter
   of either endpoint moves, and all four levels change by exactly the transfer.
   */
  lemma LossFreeStep(c: Config, b: Levels, t: Levels, mode: LossMode, n: nat, x: int, up: Flow, down: Flow, bl: Losses, tl: Losses)
    requires Runnable(c) && c.bottomAsync && c.topAsync
    requires b.output <= c.bottomOutMax && t.output <= c.topOutMax
    requires Packets(x, c.packet) && MeetsAll(Bounds(c, true, true, b, t, mode), x)
    requires Optimal(Bounds(c, true, true, b, t, mode), c.packet, n)
    requires up == UpFlow(c, b, t, n).(taken := up.taken, accepted := up.accepted) && up.Full()
    requires down == DownFlow(c, b, t, n).(taken := down.taken, accepted := down.accepted) && down.Full()
    ensures x <= n
    ensures Counted(bl, true, up, true, down) == bl && Counted(tl, true, down, true, up) == tl
    ensures up.SourceAfter() == b.input - n && down.SinkAfter() == b.output + n
    ensures down.SourceAfter() == t.input - n && up.SinkAfter() == t.output + n
    ensures up.taken == n == up.accepted && down.taken == n == down.accepted
  {
    var bs := Bounds(c, true, true, b, t, mode);
    assert bs[0] == InBound(true, b.input, c.bottomInMax, c.packet, PrioOf(mode.bottom));
    assert bs[1] == OutBound(true, t.output, c.topOutMin, c.topOutMax, PrioOf(mode.top));
    assert bs[2] == InBound(true, t.input, c.topInMax, c.packet, PrioOf(mode.top));
    assert bs[3] == OutBound(true, b.output, c.bottomOutMin, c.bottomOutMax, PrioOf(mode.bottom));
    assert MeetsAll(bs, n) && x <= n;
    FlowLossless(up, c.packet, PrioOf(mode.bottom), PrioOf(mode.top));
    FlowLossless(down, c.packet, PrioOf(mode.top), PrioOf(mode.bottom));
  }

  /** In such a direction the sink gets exactly the next records of the source, and nothing else. */
  lemma MovedExactly(source0: seq<Record>, source1: seq<Record>, silence: Record,
                     sink0: seq<Record>, sink1: seq<Record>, f: Flow, moved: seq<Record>,
                     lastOut: Record)
    requires Moved(source0, source1, silence, sink0, sink1, f, moved, lastOut, true)
    requires f.InDrop() == 0 == f.OutPad() && f.taken == f.accepted == f.n
    ensures f.n <= |source0| && sink1 == sink0 + source0[..f.n] && source1 == source0[f.n..]
  {
    assert source0[0..] == source0;
    var c :| 0 <= c <= f.taken && Yields(source0, silence, moved, c) && c == Min(f.taken, f.accepted);
    YieldsExact(source0, silence, moved, c);
  }

  lemma {:induction false} YieldsExact(q: seq<Record>, silence: Record, out: seq<Record>, c: nat)
    requires Yields(q, silence, out, c)
    ensures c <= |out| && c <= |q|
    ensures c == |out| ==> out == q[..c]
    decreases |out|
  {
    if out != [] {
      var last, init := out[|out| - 1], out[..|out| - 1];
      assert out == init + [last];
      if c > 0 && last == q[c - 1] && Yields(q, silence, init, c - 1) {
        YieldsExact(q, silence, init, c - 1);
      } else {
        YieldsExact(q, silence, init, c);
      }
    }
  }
}
