/**
 * The presumptive call setup and caller ID machine of libhfp/hfp.cpp.  Events
 * from the audio gateway, answers to commands and two timers drive one update
 * routine; `Step` says what each event does, the class does it in place.
 */
module CallSetup {
  import opened Options

  /** A parsed +CLIP or +CCWA result. */
  type Caller = string

  const TIMEOUT_RING := 5000
  const TIMEOUT_RING_CCWA := 20000
  const TIMEOUT_DIAL := 20000
  const TIMEOUT_CLIP := 250

  // ---------------------------------------------------------------------
  // The machine on values
  // ---------------------------------------------------------------------

  /** What is known about the caller: nothing asked yet, ring held back for caller ID, or settled. */
  datatype Phase = Unknown | Waiting | Final(caller: Option<Caller>)

  /** Indicator numbers as negotiated in the handshake. */
  datatype Inums = Inums(call: int, setup: int, service: int)

  /**
   * `shown` is what notifications have told the client about the call state, `rung` how many rings it was
   * told of, and `rings` how many RING and +CCWA results arrived.
   */
  datatype Call = Call(connected: bool, inums: Inums, clipEnabled: bool,
                       setup: int, presumed: bool, active: bool, phase: Phase,
                       shownSetup: int, shownActive: bool, rung: nat, rings: nat)

  datatype Ring = NoRing | Incoming | CallWaiting

  datatype Event =
    | RingEvent
    | ClipEvent(caller: Option<Caller>)
    | CcwaEvent(caller: Option<Caller>)
    | IndicatorEvent(indnum: int, val: int)
    | DialOk
    | ClearOk
    | SetupTimeout
    | ClipTimeout
    | Established(inums: Inums, clipEnabled: bool)
    | Lost

  predicate Outgoing(setup: int) { setup == 2 || setup == 3 }

  /** An incomplete call in the other direction has gone: what was known of its caller is void. */
  predicate Turned(setup: int, val: int) {
    setup != 0 && ((val == 1 && setup != 1) || (Outgoing(val) && !Outgoing(setup)))
  }

  function Disconnected(c: Call): Call {
    Call(false, Inums(0, 0, 0), false, 0, false, false, Unknown, 0, false, c.rung, c.rings)
  }

  function NextPhase(phase: Phase, val: int, ring: Ring, caller: Option<Caller>, enabled: bool): Phase {
    if val == 0 then Unknown
    else if caller.Some? then Final(caller)
    else if phase.Final? then phase
    else if Outgoing(val) then Final(None)
    else if phase.Unknown? && !ring.NoRing? then (if enabled then Waiting else Final(None))
    else phase
  }

  function Update(c: Call, val: int, ring: Ring, caller: Option<Caller>, timeout: nat): Call {
    if !(0 <= val <= 3) then Disconnected(c)
    else
      var before := if Turned(c.setup, val) then Unknown else c.phase;
      var phase := NextPhase(before, val, ring, caller, c.clipEnabled);
      var active := if ring.Incoming? then false else if ring.CallWaiting? then true else c.active;
      var announce := phase.Final? && (before.Waiting? || !ring.NoRing?) && val == 1;
      Call(c.connected, c.inums, c.clipEnabled,
           val,
           c.connected && timeout > 0 && (c.presumed || c.setup != val),
           active,
           phase,
           if c.connected && c.setup != val then val else c.shownSetup,
           if c.connected && active != c.active then active else c.shownActive,
           if c.connected && announce then c.rung + 1 else c.rung,
           c.rings)
  }

  function Indicated(c: Call, indnum: int, val: int): Call {
    if indnum == 0 || !c.connected then c
    else if indnum == c.inums.call then
      var told := if (val != 0) != c.active then c.(active := val != 0, shownActive := val != 0) else c;
      if told.active && !c.active && c.presumed then Update(told, 0, NoRing, None, 0) else told
    else if indnum == c.inums.setup then
      if val == 1 then c else Update(c, val, NoRing, None, 0)
    else if indnum == c.inums.service && val == 0 then
      Update(c.(active := false), 0, NoRing, None, 0)
    else c
  }

  function Step(c: Call, e: Event): Call {
    match e
    case RingEvent => Update(c.(rings := c.rings + 1), 1, Incoming, None, TIMEOUT_RING)
    case ClipEvent(caller) => Update(c, 1, NoRing, caller, TIMEOUT_RING)
    case CcwaEvent(caller) => Update(c.(rings := c.rings + 1), 1, CallWaiting, caller, TIMEOUT_RING_CCWA)
    case IndicatorEvent(indnum, val) => Indicated(c, indnum, val)
    case DialOk => if c.setup > 1 && !c.active then c else Update(c, 2, NoRing, None, TIMEOUT_DIAL)
    case ClearOk => Update(c, 0, NoRing, None, 0)
    case SetupTimeout => Update(c, 0, NoRing, None, 0)
    case ClipTimeout => Update(c.(phase := Final(None)), 1, Incoming, None, TIMEOUT_RING)
    case Established(inums, clipEnabled) =>
      c.(connected := true, inums := inums, clipEnabled := clipEnabled, shownSetup := 0)
    case Lost => Disconnected(c)
  }

  /** Timers go off only when they are set; everything else needs a connection. */
  predicate Possible(c: Call, e: Event) {
    && (c.connected <==> !e.Established?)
    && (e.SetupTimeout? ==> c.presumed)
    && (e.ClipTimeout? ==> c.phase.Waiting?)
  }

  lemma NothingTold(c: Call)
    ensures Disconnected(Update(c, 0, NoRing, None, 0)) == Disconnected(c)
  {
  }

  // ---------------------------------------------------------------------
  // What every run keeps
  // ---------------------------------------------------------------------

  predicate Good(c: Call) {
    && 0 <= c.setup <= 3
    && (c.presumed ==> c.connected && c.setup != 0)
    && (c.phase.Waiting? ==> c.setup == 1)
    && (c.setup == 0 ==> c.phase.Unknown?)
    && (Outgoing(c.setup) ==> c.phase.Final?)
    && (!c.connected ==> c.setup == 0 && !c.active && !c.shownActive)
    && (c.connected ==> c.shownSetup == c.setup)
  }

  function Pending(c: Call): nat { if c.phase.Waiting? then 1 else 0 }

  /** Rings told to the client, and the one held back, never outnumber those that arrived. */
  predicate RingsCovered(c: Call) { c.rung + Pending(c) <= c.rings }

  lemma UpdateGood(c: Call, val: int, ring: Ring, caller: Option<Caller>, timeout: nat)
    requires Good(c) && c.connected
    requires val == 0 ==> timeout == 0
    requires val != 1 ==> ring.NoRing?
    ensures Good(Update(c, val, ring, caller, timeout))
    ensures var d := Update(c, val, ring, caller, timeout);
      d.rings == c.rings && d.rung + Pending(d) <= c.rung + Pending(c) + if ring.NoRing? then 0 else 1
  {
  }

  lemma StepGood(c: Call, e: Event)
    requires Good(c) && Possible(c, e)
    ensures Good(Step(c, e))
    ensures RingsCovered(c) ==> RingsCovered(Step(c, e))
  {
    hide Update;
    match e
    case RingEvent => UpdateGood(c.(rings := c.rings + 1), 1, Incoming, None, TIMEOUT_RING);
    case ClipEvent(caller) => UpdateGood(c, 1, NoRing, caller, TIMEOUT_RING);
    case CcwaEvent(caller) => UpdateGood(c.(rings := c.rings + 1), 1, CallWaiting, caller, TIMEOUT_RING_CCWA);
    case DialOk => UpdateGood(c, 2, NoRing, None, TIMEOUT_DIAL);
    case ClearOk => UpdateGood(c, 0, NoRing, None, 0);
    case SetupTimeout => UpdateGood(c, 0, NoRing, None, 0);
    case ClipTimeout => UpdateGood(c.(phase := Final(None)), 1, Incoming, None, TIMEOUT_RING);
    case Established(_, _) =>
    case Lost =>
    case IndicatorEvent(_, val) =>
      UpdateGood(c, val, NoRing, None, 0);
      UpdateGood(c.(active := val != 0, shownActive := val != 0), 0, NoRing, None, 0);
      UpdateGood(c.(active := false), 0, NoRing, None, 0);
  }

  function Run(c: Call, es: seq<Event>): Call
    decreases |es|
  {
    if es == [] then c else Run(Step(c, es[0]), es[1..])
  }

  predicate Legal(c: Call, es: seq<Event>)
    decreases |es|
  {
    es == [] || (Possible(c, es[0]) && Legal(Step(c, es[0]), es[1..]))
  }

  lemma {:induction false} EveryRun(c: Call, es: seq<Event>)
    requires Good(c) && RingsCovered(c) && Legal(c, es)
    ensures Good(Run(c, es)) && RingsCovered(Run(c, es))
    decreases |es|
  {
    if es != [] {
      StepGood(c, es[0]);
      EveryRun(Step(c, es[0]), es[1..]);
    }
  }

  // ---- what each event does, field by field ---------------------------------------------------

  /** The call setup indicator says where an incomplete call stands; that one is coming in is left to RING and +CCWA. */
  lemma SetupIndicated(c: Call, val: int)
    requires Good(c) && c.connected && c.inums.setup != 0 && c.inums.setup != c.inums.call
    ensures var d := Step(c, IndicatorEvent(c.inums.setup, val));
      if val == 0 then d == c.(setup := 0, shownSetup := 0, presumed := false, phase := Unknown)
      else if val == 1 then d == c
      else if val == 2 || val == 3 then
        d == c.(setup := val, shownSetup := val, presumed := false,
                phase := if c.setup == 2 || c.setup == 3 then c.phase else Final(None))
      else !d.connected && d.setup == 0 && !d.presumed && !d.active && d.phase == Unknown && d.rung == c.rung
  {
  }

  /** The call indicator says whether a call is established; one that is supersedes what was presumed of its setup. */
  lemma CallIndicated(c: Call, val: int)
    requires Good(c) && c.connected && c.inums.call != 0
    ensures var d := Step(c, IndicatorEvent(c.inums.call, val));
      if c.active <==> val != 0 then d == c
      else if val != 0 && c.presumed then
        d == c.(active := true, shownActive := true, setup := 0, shownSetup := 0, presumed := false, phase := Unknown)
      else d == c.(active := val != 0, shownActive := val != 0)
  {
  }

  /** Without service there is no call; other indicators are not about calls. */
  lemma OtherIndicated(c: Call, indnum: int, val: int)
    requires Good(c) && c.connected && (indnum == 0 || (indnum != c.inums.call && indnum != c.inums.setup))
    ensures var d := Step(c, IndicatorEvent(indnum, val));
      if indnum != 0 && indnum == c.inums.service && val == 0 then
        d == c.(active := false, setup := 0, shownSetup := 0, presumed := false, phase := Unknown)
      else d == c
  {
  }

  /**
   * RING and +CCWA: a call is coming in, without or beside an established one.  What was known of an outgoing one's
   * party is void; the ring is held back if caller ID is on and nothing is known, and told if something is, or is not
   * going to be.
   */
  lemma Ringing(c: Call, caller: Option<Caller>, beside: bool)
    requires Good(c) && c.connected && (caller.Some? ==> beside)
    ensures var d := Step(c, if beside then CcwaEvent(caller) else RingEvent);
      var phase := if caller.Some? then Final(caller)
                   else if c.setup == 1 && !c.phase.Unknown? then c.phase
                   else if c.clipEnabled then Waiting else Final(None);
      d == c.(rings := c.rings + 1, setup := 1, shownSetup := 1, presumed := c.presumed || c.setup != 1,
              active := beside, shownActive := if c.active == beside then c.shownActive else beside,
              phase := phase, rung := if phase.Waiting? then c.rung else c.rung + 1)
  {
  }

  /** +CLIP: the caller of the incoming call is known, and a ring held back for it is told. */
  lemma ClipTaken(c: Call, caller: Option<Caller>)
    requires Good(c) && c.connected
    ensures var d := Step(c, ClipEvent(caller));
      d == c.(setup := 1, shownSetup := 1, presumed := c.presumed || c.setup != 1,
              phase := if caller.Some? then Final(caller) else if c.setup == 1 then c.phase else Unknown,
              rung := if caller.Some? && c.phase.Waiting? then c.rung + 1 else c.rung)
  {
  }

  /** A dial command was accepted: a call is going out, unless one is known to be, with none established. */
  lemma Dialled(c: Call)
    requires Good(c) && c.connected
    ensures var d := Step(c, DialOk);
      if (c.setup == 2 || c.setup == 3) && !c.active then d == c
      else d == c.(setup := 2, shownSetup := 2, presumed := c.presumed || c.setup != 2,
                   phase := if c.setup == 2 || c.setup == 3 then c.phase else Final(None))
  {
  }

  /** An answer or hang up command was accepted, or what was presumed was not confirmed in time. */
  lemma Cleared(c: Call)
    requires Good(c) && c.connected
    ensures var d := c.(setup := 0, shownSetup := 0, presumed := false, phase := Unknown);
      Step(c, ClearOk) == d && Step(c, SetupTimeout) == d
  {
  }

  /** Caller ID did not come in time: the ring is told without. */
  lemma ClipMissed(c: Call)
    requires Good(c) && Possible(c, ClipTimeout)
    ensures Step(c, ClipTimeout)
         == c.(phase := Final(None), rung := c.rung + 1, active := false, shownActive := if c.active then false else c.shownActive)
  {
  }

  lemma ConnectedOrLost(c: Call, inums: Inums, clipEnabled: bool)
    requires Good(c)
    ensures Step(c, Established(inums, clipEnabled))
         == c.(connected := true, inums := inums, clipEnabled := clipEnabled, shownSetup := 0)
    ensures Step(c, Lost) == Call(false, Inums(0, 0, 0), false, 0, false, false, Unknown, 0, false, c.rung, c.rings)
  {
  }

  /** A held back ring is told exactly once while the call is still coming in, or the call is gone untold. */
  lemma LeavesWaiting(c: Call, e: Event)
    requires Good(c) && Possible(c, e) && c.phase.Waiting?
    ensures var d := Step(c, e);
      if d.phase.Waiting? then d.setup == 1 && d.rung == c.rung
      else if d.setup == 1 then d.rung == c.rung + 1
      else d.rung == c.rung
    ensures Step(c, ClipTimeout).rung == c.rung + 1
  {
    hide Update;
    UpdateFinal(c.(phase := Final(None)), TIMEOUT_RING);
    match e
    case RingEvent => UpdateWaiting(c.(rings := c.rings + 1), 1, Incoming, None, TIMEOUT_RING);
    case ClipEvent(caller) => UpdateWaiting(c, 1, NoRing, caller, TIMEOUT_RING);
    case CcwaEvent(caller) => UpdateWaiting(c.(rings := c.rings + 1), 1, CallWaiting, caller, TIMEOUT_RING_CCWA);
    case DialOk => UpdateWaiting(c, 2, NoRing, None, TIMEOUT_DIAL);
    case ClearOk => UpdateWaiting(c, 0, NoRing, None, 0);
    case SetupTimeout => UpdateWaiting(c, 0, NoRing, None, 0);
    case ClipTimeout =>
    case Established(_, _) =>
    case Lost =>
    case IndicatorEvent(_, val) =>
      UpdateWaiting(c, val, NoRing, None, 0);
      UpdateWaiting(c.(active := val != 0, shownActive := val != 0), 0, NoRing, None, 0);
      UpdateWaiting(c.(active := false), 0, NoRing, None, 0);
  }

  lemma UpdateWaiting(c: Call, val: int, ring: Ring, caller: Option<Caller>, timeout: nat)
    requires c.connected && c.setup == 1 && c.phase.Waiting?
    requires val != 1 ==> ring.NoRing?
    ensures var d := Update(c, val, ring, caller, timeout);
      if d.phase.Waiting? then d.setup == 1 && d.rung == c.rung
      else if d.setup == 1 then d.rung == c.rung + 1
      else d.rung == c.rung
  {
  }

  lemma UpdateFinal(c: Call, timeout: nat)
    requires c.connected && c.setup == 1 && c.phase.Final?
    ensures var d := Update(c, 1, Incoming, None, timeout);
      d.setup == 1 && d.phase.Final? && d.rung == c.rung + 1
  {
  }

  /** A ring is told at once or held back for the caller ID, and it is held back only while that is awaited. */
  lemma RingAnswered(c: Call, e: Event)
    requires Good(c) && c.connected && (e.RingEvent? || e.CcwaEvent?)
    ensures var d := Step(c, e);
      && d.setup == 1
      && (d.phase.Waiting? ==> d.rung == c.rung)
      && (!d.phase.Waiting? ==> d.rung == c.rung + 1)
      && (d.phase.Waiting? <==>
            (e == RingEvent || e == CcwaEvent(None))
            && (c.phase.Waiting? || (c.clipEnabled && (c.phase.Unknown? || c.setup != 1))))
  {
  }

  /** The client's idea of an active call goes wrong in exactly one way: service is lost during the call. */
  lemma ShownActive(c: Call, e: Event)
    requires Good(c) && Possible(c, e) && c.shownActive == c.active
    ensures Step(c, e).shownActive == Step(c, e).active
       <==> !(c.active && LosesService(c, e))
  {
  }

  predicate LosesService(c: Call, e: Event) {
    && e.IndicatorEvent?
    && e.indnum != 0 && e.indnum != c.inums.call && e.indnum != c.inums.setup
    && e.indnum == c.inums.service && e.val == 0
  }

  /**
   * A second call announced during a first leaves the first marked active, and with its caller ID is told at
   * once.  A ring held back for the caller ID and then told leaves the first call marked active exactly if it
   * is not told by the timer running down: that tells it as if there were no first call.
   */
  lemma CallWaitingKept(c: Call, caller: Option<Caller>)
    requires Good(c) && c.connected
    ensures var d := Step(c, CcwaEvent(caller));
      d.active && (caller.Some? ==> d.phase == Final(caller) && d.rung == c.rung + 1)
  {
  }

  lemma HeldRingTold(c: Call, e: Event)
    requires Good(c) && Possible(c, e) && c.phase.Waiting? && c.active
    requires Step(c, e).rung == c.rung + 1
    ensures Step(c, e).active <==> !e.ClipTimeout?
  {
  }

  const IDLE := Call(false, Inums(0, 0, 0), false, 0, false, false, Unknown, 0, false, 0, 0)

  /** A call, a second one without caller ID, and the timer: the first call is marked ended. */
  lemma CallMarkedEnded()
    ensures var es := [Established(Inums(1, 2, 3), true), IndicatorEvent(1, 1), CcwaEvent(None), ClipTimeout];
      Legal(IDLE, es) && Run(IDLE, es[..3]).active && !Run(IDLE, es).active && Run(IDLE, es).connected
  {
    var es := [Established(Inums(1, 2, 3), true), IndicatorEvent(1, 1), CcwaEvent(None), ClipTimeout];
    RunsOf(IDLE, es[0], es[1], es[2], [es[3]]);
    RunsOf(IDLE, es[0], es[1], es[2], []);
    assert es == [es[0], es[1], es[2]] + [es[3]] && es[..3] == [es[0], es[1], es[2]] + [];
    var c := Step(Step(Step(IDLE, es[0]), es[1]), es[2]);
    assert c.active && c.phase.Waiting?;
  }

  /** A call, and service lost during it: the client has not been told that the call is over. */
  lemma CallEndUntold()
    ensures var es := [Established(Inums(1, 2, 3), true), IndicatorEvent(1, 1), IndicatorEvent(3, 0)];
      var c := Run(IDLE, es);
      Legal(IDLE, es) && c.connected && c.shownActive && !c.active
  {
    var es := [Established(Inums(1, 2, 3), true), IndicatorEvent(1, 1), IndicatorEvent(3, 0)];
    RunsOf(IDLE, es[0], es[1], es[2], []);
    assert es == [es[0], es[1], es[2]] + [];
  }

  lemma RunsOf(c: Call, a: Event, b: Event, d: Event, more: seq<Event>)
    ensures var last := Step(Step(Step(c, a), b), d);
      && Run(c, [a, b, d] + more) == Run(last, more)
      && (Legal(c, [a, b, d] + more) <==>
            Possible(c, a) && Possible(Step(c, a), b) && Possible(Step(Step(c, a), b), d) && Legal(last, more))
  {
    var es := [a, b, d] + more;
    assert es[1..] == [b, d] + more && es[1..][1..] == [d] + more && es[1..][1..][1..] == more;
    var c1 := Step(c, a);
    var c2 := Step(c1, b);
    assert Run(c, es) == Run(c1, es[1..]) == Run(c2, es[1..][1..]) == Run(Step(c2, d), more);
    assert Legal(c, es) <==> Possible(c, a) && Legal(c1, es[1..]);
    assert Legal(c1, es[1..]) <==> Possible(c1, b) && Legal(c2, es[1..][1..]);
    assert Legal(c2, es[1..][1..]) <==> Possible(c2, d) && Legal(Step(c2, d), more);
  }

  // ---------------------------------------------------------------------
  // The session's fields
  // ---------------------------------------------------------------------

  datatype ClipState = CLIP_UNKNOWN | CLIP_WAITING | CLIP_FINAL

  function RingKind(ring: int): Ring {
    if ring == 0 then NoRing else if ring == 1 then Incoming else CallWaiting
  }

  class HfpSession {
    var connected: bool
    var inums: Inums
    var clipEnabled: bool
    var stateCallsetup: int
    var stateCall: bool
    var callsetupPresumed: bool
    var clipState: ClipState
    var clipValue: Option<Caller>
    /** Remaining time a timer was set to, if it is set. */
    var timer: Option<nat>
    var clipTimer: Option<nat>
    ghost var shownSetup: int
    ghost var shownActive: bool
    ghost var rung: nat
    ghost var rings: nat

    ghost function View(): Call
      reads this
    {
      var phase := match clipState
        case CLIP_UNKNOWN => Unknown
        case CLIP_WAITING => Waiting
        case CLIP_FINAL => Final(clipValue);
      Call(connected, inums, clipEnabled, stateCallsetup, callsetupPresumed, stateCall, phase,
           shownSetup, shownActive, rung, rings)
    }

    /** The caller ID state and its timer agree. */
    ghost predicate ClipValid()
      reads this`clipState, this`clipValue, this`clipTimer
    {
      && clipTimer == (if clipState == CLIP_WAITING then Some(TIMEOUT_CLIP) else None)
      && (clipValue.Some? ==> clipState == CLIP_FINAL)
    }

    ghost predicate Valid()
      reads this
    {
      && Good(View())
      && RingsCovered(View())
      && ClipValid()
      && (timer.Some? <==> callsetupPresumed)
    }

    constructor ()
      ensures Valid() && !connected
    {
      connected, inums, clipEnabled := false, Inums(0, 0, 0), false;
      stateCallsetup, stateCall, callsetupPresumed := 0, false, false;
      clipState, clipValue := CLIP_UNKNOWN, None;
      timer, clipTimer := None, None;
      shownSetup, shownActive, rung, rings := 0, false, 0, 0;
    }

    method ClearClip()
      requires ClipValid()
      modifies this`clipTimer, this`clipValue, this`clipState
      ensures ClipValid() && clipState == CLIP_UNKNOWN
    {
      if clipState == CLIP_WAITING {
        clipTimer := None;
      }
      if clipValue.Some? {
        assert clipState == CLIP_FINAL;
        clipValue := None;
      }
      clipState := CLIP_UNKNOWN;
    }

    method Presume(val: int, timeoutMs: nat)
      requires timer.Some? ==> callsetupPresumed
      modifies this`timer, this`callsetupPresumed
      ensures callsetupPresumed == (connected && timeoutMs > 0 && (old(callsetupPresumed) || stateCallsetup != val))
      ensures timer == if callsetupPresumed then Some(timeoutMs) else None
    {
      if callsetupPresumed {
        timer := None;
      }
      if connected && timeoutMs > 0 && (callsetupPresumed || stateCallsetup != val) {
        callsetupPresumed := true;
        timer := Some(timeoutMs);
      } else {
        callsetupPresumed := false;
      }
    }

    /** The caller ID part of an incoming call. */
    method NoteIncoming(ring: int, clip: Option<Caller>) returns (updWc: bool, doRing: bool)
      requires ClipValid() && 0 <= ring <= 2
      modifies this`clipState, this`clipValue, this`clipTimer
      ensures ClipValid()
      ensures View().phase == NextPhase(old(View()).phase, 1, RingKind(ring), clip, clipEnabled)
      ensures doRing == (old(clipState) == CLIP_WAITING && clip.Some?)
    {
      updWc, doRing := false, false;
      match clipState {
        case CLIP_UNKNOWN =>
          assert clipValue.None?;
          if clip.Some? {
            clipValue := clip;
            clipState := CLIP_FINAL;
          } else if ring != 0 {
            if clipEnabled {
              clipTimer := Some(TIMEOUT_CLIP);
              clipState := CLIP_WAITING;
            } else {
              clipState := CLIP_FINAL;
            }
          }
        case CLIP_WAITING =>
          assert clipValue.None?;
          if clip.Some? {
            clipValue := clip;
            clipState := CLIP_FINAL;
            clipTimer := None;
            doRing := true;
          }
        case CLIP_FINAL =>
          if clip.Some? && clipValue != clip {
            clipValue := clip;
            updWc := true;
          }
      }
    }

    /** Rings also say whether a call was already there. */
    method NoteRing(ring: int) returns (updAc: bool)
      requires 0 <= ring <= 2
      modifies this`stateCall
      ensures stateCall == if ring == 1 then false else if ring == 2 then true else old(stateCall)
      ensures updAc == (stateCall != old(stateCall))
    {
      updAc := false;
      if ring == 1 && stateCall {
        stateCall := false;
        updAc := true;
      } else if ring == 2 && !stateCall {
        stateCall := true;
        updAc := true;
      }
    }

    method NoteOutgoing(clip: Option<Caller>) returns (updWc: bool)
      requires ClipValid() && clipState != CLIP_WAITING
      modifies this`clipState, this`clipValue
      ensures ClipValid()
      ensures View().phase == NextPhase(old(View()).phase, 2, NoRing, clip, clipEnabled)
    {
      updWc := false;
      if clipState != CLIP_FINAL {
        assert clipValue.None?;
        clipState := CLIP_FINAL;
      }
      if clip.Some? && clipValue != clip {
        clipValue := clip;
        updWc := true;
      }
    }

    /** What cb_NotifyCall tells the client. */
    method NotifyCall(updAc: bool, updWc: bool, doRing: bool)
      modifies this`shownActive, this`shownSetup, this`rung
      ensures shownActive == if updAc then stateCall else old(shownActive)
      ensures shownSetup == if updWc then stateCallsetup else old(shownSetup)
      ensures rung == if doRing then old(rung) + 1 else old(rung)
    {
      if updAc {
        shownActive := stateCall;
      }
      if updWc {
        shownSetup := stateCallsetup;
      }
      if doRing {
        rung := rung + 1;
      }
    }

    /** What the update relies on; the source's assertions never fail under it. */
    ghost predicate Ready()
      reads this
    {
      && ClipValid()
      && (timer.Some? ==> callsetupPresumed)
      && 0 <= stateCallsetup <= 3
      && (clipState == CLIP_WAITING ==> stateCallsetup == 1)
      && (connected ==> shownSetup == stateCallsetup)
    }

    method UpdateCallSetup(val: int, ring: int, clip: Option<Caller>, timeoutMs: nat)
      requires Ready() && 0 <= ring <= 2
      requires val == 0 ==> clip.None? && timeoutMs == 0
      requires val != 1 ==> ring == 0
      modifies this
      ensures ClipValid() && (timer.Some? <==> callsetupPresumed)
      ensures callsetupPresumed ==> timer == Some(timeoutMs)
      ensures View() == Update(old(View()), val, RingKind(ring), clip, timeoutMs)
      decreases if 0 <= val <= 3 then 0 else 2
    {
      hide Update, NextPhase, Turned, Good, ClipValid, RingsCovered;
      Presume(val, timeoutMs);
      if !(0 <= val <= 3) {
        Disconnect();
        Refused(old(View()), val, clip, timeoutMs);
        return;
      }
      Settle(old(View()), val, ring, clip, timeoutMs);
    }

    /** Everything behind the presumption, for a call setup value that makes sense. */
    method Settle(ghost c: Call, val: int, ring: int, clip: Option<Caller>, ghost timeoutMs: nat)
      requires 0 <= val <= 3 && 0 <= ring <= 2 && (val != 1 ==> ring == 0)
      requires ClipValid() && (clipState == CLIP_WAITING ==> stateCallsetup == 1)
      requires connected ==> shownSetup == stateCallsetup
      requires View() == c.(presumed := View().presumed)
      requires View().presumed == (c.connected && timeoutMs > 0 && (c.presumed || c.setup != val))
      modifies this`clipState, this`clipValue, this`clipTimer, this`stateCall
      modifies this`stateCallsetup, this`shownActive, this`shownSetup, this`rung
      ensures ClipValid()
      ensures View() == Update(c, val, RingKind(ring), clip, timeoutMs)
    {
      hide Update, NextPhase, Turned, ClipValid;
      var updAc, updWc, doRing := NoteSetup(val, ring, clip);
      Announce(val, updAc, updWc, doRing);
      Settled(c, View(), val, RingKind(ring), clip, timeoutMs);
    }

    static lemma Refused(c: Call, val: int, clip: Option<Caller>, timeout: nat)
      requires !(0 <= val <= 3)
      ensures Update(c, val, NoRing, clip, timeout) == Disconnected(c)
    {
    }

    /** The parts put together. */
    static lemma Settled(c: Call, d: Call, val: int, ring: Ring, clip: Option<Caller>, timeout: nat)
      requires 0 <= val <= 3 && (val != 1 ==> ring.NoRing?)
      requires d.connected == c.connected && d.inums == c.inums && d.clipEnabled == c.clipEnabled
      requires d.setup == val && d.rings == c.rings
      requires d.presumed == (c.connected && timeout > 0 && (c.presumed || c.setup != val))
      requires d.active == if ring.Incoming? then false else if ring.CallWaiting? then true else c.active
      requires d.phase == NextPhase(if Turned(c.setup, val) then Unknown else c.phase, val, ring, clip, c.clipEnabled)
      requires d.shownSetup == if c.connected && c.setup != val then val else c.shownSetup
      requires d.shownActive == if c.connected && d.active != c.active then d.active else c.shownActive
      requires d.rung == c.rung +
        if c.connected && val == 1 && d.phase.Final?
           && ((!Turned(c.setup, val) && c.phase.Waiting?) || !ring.NoRing?) then 1 else 0
      ensures d == Update(c, val, ring, clip, timeout)
    {
    }

    /** The caller ID and ringing part, by direction of the call. */
    method NoteSetup(val: int, ring: int, clip: Option<Caller>) returns (updAc: bool, updWc: bool, doRing: bool)
      requires 0 <= val <= 3 && 0 <= ring <= 2
      requires ClipValid() && (clipState == CLIP_WAITING ==> stateCallsetup == 1)
      requires val != 1 ==> ring == 0
      modifies this`clipState, this`clipValue, this`clipTimer, this`stateCall
      ensures ClipValid()
      ensures var c, d := old(View()), View();
        var before := if Turned(c.setup, val) then Unknown else c.phase;
        && d.phase == NextPhase(before, val, RingKind(ring), clip, c.clipEnabled)
        && (doRing <==> d.phase.Final? && (before.Waiting? || ring != 0) && val == 1)
      ensures stateCall == if ring == 1 then false else if ring == 2 then true else old(stateCall)
      ensures updAc == (stateCall != old(stateCall))
    {
      updAc, updWc, doRing := false, false, false;
      if val == 0 {
        ClearClip();
      } else if val == 1 {
        updAc, updWc, doRing := UpdateIncoming(ring, clip);
      } else {
        updWc := UpdateOutgoing(val, clip);
      }
    }

    method UpdateIncoming(ring: int, clip: Option<Caller>) returns (updAc: bool, updWc: bool, doRing: bool)
      requires ClipValid() && 0 <= ring <= 2
      modifies this`clipState, this`clipValue, this`clipTimer, this`stateCall
      ensures ClipValid()
      ensures var c, d := old(View()), View();
        var before := if Turned(c.setup, 1) then Unknown else c.phase;
        && d.phase == NextPhase(before, 1, RingKind(ring), clip, c.clipEnabled)
        && (doRing <==> d.phase.Final? && (before.Waiting? || ring != 0))
      ensures stateCall == if ring == 1 then false else if ring == 2 then true else old(stateCall)
      ensures updAc == (stateCall != old(stateCall))
    {
      if stateCallsetup != 0 && stateCallsetup != 1 {
        ClearClip();
      }
      updWc, doRing := NoteIncoming(ring, clip);
      updAc := NoteRing(ring);
      if ring != 0 && !doRing {
        doRing := clipState == CLIP_FINAL;
      }
    }

    method UpdateOutgoing(ghost val: int, clip: Option<Caller>) returns (updWc: bool)
      requires Outgoing(val) && ClipValid() && (clipState == CLIP_WAITING ==> stateCallsetup == 1)
      modifies this`clipState, this`clipValue, this`clipTimer
      ensures ClipValid()
      ensures var c := old(View());
        View().phase == NextPhase(if Turned(c.setup, val) then Unknown else c.phase, val, NoRing, clip, c.clipEnabled)
    {
      if stateCallsetup != 0 && stateCallsetup != 2 && stateCallsetup != 3 {
        ClearClip();
      }
      updWc := NoteOutgoing(clip);
    }

    /** Settles the new call setup value and tells the client what changed. */
    method Announce(val: int, updAc: bool, updWc: bool, doRing: bool)
      requires connected ==> shownSetup == stateCallsetup
      modifies this`stateCallsetup, this`shownActive, this`shownSetup, this`rung
      ensures stateCallsetup == val
      ensures shownSetup == if connected && val != old(stateCallsetup) then val else old(shownSetup)
      ensures shownActive == if connected && updAc then stateCall else old(shownActive)
      ensures rung == if connected && doRing then old(rung) + 1 else old(rung)
    {
      var wc := updWc;
      if val != stateCallsetup {
        stateCallsetup := val;
        wc := true;
      }
      if connected && (updAc || wc || doRing) {
        NotifyCall(updAc, wc, doRing);
      }
    }

    /** Losing the connection forgets the call state; the client learns of it as a connection change. */
    method Disconnect()
      requires Ready()
      modifies this
      ensures ClipValid() && timer.None? && !callsetupPresumed
      ensures View() == Disconnected(old(View()))
      decreases 1
    {
      connected := false;
      clipEnabled := false;
      inums := Inums(0, 0, 0);
      stateCall := false;
      shownActive, shownSetup := false, 0;
      UpdateCallSetup(0, 0, None, 0);
    }

    // ---- events -------------------------------------------------------------

    /** The handshake is over: indicator numbers are known and caller ID may have been switched on. */
    method Connect(inums: Inums, clipEnabled: bool)
      requires Valid() && !connected
      modifies this
      ensures Valid()
      ensures View() == Step(old(View()), Established(inums, clipEnabled))
    {
      connected := true;
      this.inums := inums;
      this.clipEnabled := clipEnabled;
      shownSetup := 0;
    }

    method ResponseRing()
      requires Valid() && connected
      modifies this
      ensures Valid() && View() == Step(old(View()), RingEvent)
      ensures callsetupPresumed ==> timer == Some(TIMEOUT_RING)
    {
      hide Update;
      StepGood(View(), RingEvent);
      rings := rings + 1;
      UpdateCallSetup(1, 1, None, TIMEOUT_RING);
    }

    method ResponseClip(caller: Option<Caller>)
      requires Valid() && connected
      modifies this
      ensures Valid() && View() == Step(old(View()), ClipEvent(caller))
      ensures callsetupPresumed ==> timer == Some(TIMEOUT_RING)
    {
      hide Update;
      StepGood(View(), ClipEvent(caller));
      UpdateCallSetup(1, 0, caller, TIMEOUT_RING);
    }

    method ResponseCcwa(caller: Option<Caller>)
      requires Valid() && connected
      modifies this
      ensures Valid() && View() == Step(old(View()), CcwaEvent(caller))
      ensures callsetupPresumed ==> timer == Some(TIMEOUT_RING_CCWA)
    {
      hide Update;
      StepGood(View(), CcwaEvent(caller));
      rings := rings + 1;
      UpdateCallSetup(1, 2, caller, TIMEOUT_RING_CCWA);
    }

    /** In the middle of this routine a client callback may disconnect; everywhere else a callback comes last. */
    method UpdateIndicator(indnum: int, val: int)
      requires Valid()
      modifies this
      ensures Valid()
      ensures || View() == Step(old(View()), IndicatorEvent(indnum, val))
              || (&& old(connected) && indnum != 0 && indnum == old(inums.call) && old(stateCall) != (val != 0)
                  && View() == Disconnected(Step(old(View()), IndicatorEvent(indnum, val))))
    {
      hide Update;
      if indnum == 0 || !connected {
        return;
      }
      StepGood(View(), IndicatorEvent(indnum, val));
      if indnum == inums.call {
        var newstate := val != 0;
        if newstate != stateCall {
          stateCall := newstate;
          NotifyCall(true, false, false);
          var hangUp := *;
          if hangUp {
            NothingTold(View());
            Disconnect();
          }
          if connected && newstate && callsetupPresumed {
            UpdateCallSetup(0, 0, None, 0);
          }
        }
        return;
      }
      if indnum == inums.setup {
        if val != 1 {
          UpdateCallSetup(val, 0, None, 0);
        }
        return;
      }
      if indnum == inums.service && val == 0 {
        timer := None;
        stateCall := false;
        UpdateCallSetup(0, 0, None, 0);
      }
    }

    /** A dial command was accepted. */
    method AtdOk()
      requires Valid() && connected
      modifies this
      ensures Valid() && View() == Step(old(View()), DialOk)
      ensures callsetupPresumed ==> timer == Some(TIMEOUT_DIAL) || timer == old(timer)
    {
      hide Update;
      StepGood(View(), DialOk);
      if !(stateCallsetup > 1 && !stateCall) {
        UpdateCallSetup(2, 0, None, TIMEOUT_DIAL);
      }
    }

    /** An answer or hang up command was accepted. */
    method ClearCallSetupOk()
      requires Valid() && connected
      modifies this
      ensures Valid() && View() == Step(old(View()), ClearOk)
    {
      hide Update;
      StepGood(View(), ClearOk);
      UpdateCallSetup(0, 0, None, 0);
    }

    /** The set timer has run down; all that the source asserts here holds. */
    method Timeout()
      requires Valid() && timer.Some?
      modifies this
      ensures Valid() && View() == Step(old(View()), SetupTimeout)
    {
      hide Update;
      StepGood(View(), SetupTimeout);
      timer := None;
      assert connected && callsetupPresumed && stateCallsetup != 0;
      UpdateCallSetup(0, 0, None, 0);
    }

    method ClipTimerExpired()
      requires Valid() && clipTimer.Some?
      modifies this
      ensures Valid() && View() == Step(old(View()), ClipTimeout)
      ensures callsetupPresumed ==> timer == Some(TIMEOUT_RING)
    {
      hide Update;
      StepGood(View(), ClipTimeout);
      clipTimer := None;
      assert connected && clipState == CLIP_WAITING;
      clipState := CLIP_FINAL;
      UpdateCallSetup(1, 1, None, TIMEOUT_RING);
    }
  }
}
