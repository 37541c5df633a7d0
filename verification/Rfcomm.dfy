/**
 * The life cycle of RFCOMM sessions and the service's two reconnect lists,
 * from libhfp/rfcomm.cpp, and what the hub of libhfp/bt.cpp does to them when it
 * stops.  System calls, the SDP helper and client callbacks are choices the
 * environment makes.
 */
module Rfcomm {
  import opened Lists
  import opened Options

  datatype RfcommState = RFC_Disconnected | RFC_SdpLookupChannel | RFC_Connecting | RFC_Connected

  /**
   * What becomes of a lookup handed to the SDP helper queue.  If the helper is idle its request is written at
   * once, and a write that fails stops every service and calls the lookup back before the submission returns.
   */
  datatype Submission = Refused | Queued | WriteFails

  const ECONNRESET := 104
  const TIMEOUT_LOOKUP := 30000
  const TIMEOUT_CONNECT := 15000

  /** The life cycle of a session. */
  predicate Edge(a: RfcommState, b: RfcommState) {
    match a
    case RFC_Disconnected => b == RFC_SdpLookupChannel || b == RFC_Connected
    case RFC_SdpLookupChannel => b == RFC_Connecting || b == RFC_Disconnected
    case RFC_Connecting => b == RFC_Connected || b == RFC_Disconnected
    case RFC_Connected => b == RFC_Disconnected
  }

  /** A history of states that follows the life cycle and ends in `last`. */
  ghost predicate Follows(history: seq<RfcommState>, last: RfcommState) {
    && history != [] && history[|history| - 1] == last
    && forall i :: 0 < i < |history| ==> Edge(history[i - 1], history[i])
  }

  lemma FollowsOn(history: seq<RfcommState>, last: RfcommState, next: RfcommState)
    requires Follows(history, last) && Edge(last, next)
    ensures Follows(history + [next], next)
  {
  }

  /** A history that has moved on from connected has seen the disconnection first. */
  lemma FollowsNext(was: seq<RfcommState>, history: seq<RfcommState>, last: RfcommState)
    requires Follows(was, RFC_Connected) && Follows(history, last) && was <= history
    requires was != history || last != RFC_Connected
    ensures was + [RFC_Disconnected] <= history
  {
    assert history[|was| - 1] == RFC_Connected && Edge(history[|was| - 1], history[|was|]);
  }

  /** Which list, if any, a session's link is on. */
  ghost predicate Once<T>(a: seq<T>, b: seq<T>, c: seq<T>) {
    && Unique(a) && Unique(b) && Unique(c)
    && Elements(a) !! Elements(b) !! Elements(c)
  }

  ghost function All<T>(a: seq<T>, b: seq<T>, c: seq<T>): set<T> {
    Elements(a) + Elements(b) + Elements(c)
  }

  lemma OnceWithout<T>(a: seq<T>, b: seq<T>, c: seq<T>, t: T)
    requires Once(a, b, c)
    ensures Once(Splice(a, t, []), Splice(b, t, []), Splice(c, t, []))
    ensures All(Splice(a, t, []), Splice(b, t, []), Splice(c, t, [])) == All(a, b, c) - {t}
    ensures Elements(Splice(a, t, [])) == Elements(a) - {t}
    ensures |Splice(a, t, [])| <= |a| && |Splice(b, t, [])| <= |b| && |Splice(c, t, [])| <= |c|
  {
    SpliceShorter(a, t);
    SpliceShorter(b, t);
    SpliceShorter(c, t);
    SpliceOut(a, t);
    SpliceOut(b, t);
    SpliceOut(c, t);
  }

  class RfcommService {
    /** The timers exist, which is while the hub is started. */
    var started: bool
    const autoreconnectTimeout: nat
    var later: seq<RfcommSession>
    var now: seq<RfcommSession>
    /** The local list AutoReconnectTimeout works off; callbacks can unlink from it too. */
    var retrying: seq<RfcommSession>
    var laterSet: bool
    var nowSet: bool
    var laterTimer: Option<nat>
    var nowTimer: Option<nat>
    var sessions: set<RfcommSession>
    /** An assertion of the source has failed: the program has ended. */
    var failed: bool
    /** The session whose lookup has been answered, but that has not been told. */
    ghost var inHand: RfcommSession?
    /** Every lookup submitted for a session of this service while the hub was started. */
    ghost var submissions: seq<Submission>
    /** Whose lookups those were. */
    ghost var asked: seq<RfcommSession>
    /** Sessions taken off the list being retried before their turn. */
    ghost var skipped: set<RfcommSession>

    ghost function Listed(): set<RfcommSession>
      reads this`retrying, this`later, this`now
    {
      All(retrying, later, now)
    }

    predicate IsListed(s: RfcommSession)
      reads this`retrying, this`later, this`now
      ensures IsListed(s) == (s in Listed())
    {
      s in retrying || s in later || s in now
    }

    ghost predicate ListsOk()
      reads this`retrying, this`later, this`now, this`sessions
    {
      && Once(retrying, later, now)
      && Listed() <= sessions
    }

    /** A flag says that its timer is armed, and a timer is armed only for a list with something on it. */
    ghost predicate FlagsOk()
      reads this`laterSet, this`nowSet, this`laterTimer, this`nowTimer, this`started, this`later, this`now
    {
      && (laterSet <==> laterTimer.Some?)
      && (nowSet <==> nowTimer.Some?)
      && (laterSet ==> started && later != [])
      && (nowSet <==> started && now != [])
      && (nowTimer.Some? ==> nowTimer.value == 0)
      && (laterTimer.Some? ==> laterTimer.value == 0 || laterTimer.value == autoreconnectTimeout)
    }

    /** Outside a retry the delayed list's timer is armed whenever it should be. */
    ghost predicate Exact()
      reads this`started, this`later, this`laterSet
    {
      started && later != [] ==> laterSet
    }

    ghost predicate OthersOk(but: set<RfcommSession>)
      reads this`retrying, this`later, this`now, this`sessions, this`inHand, sessions
    {
      forall s <- sessions - but ::
        s.Ok() && s.svc == this && (s in Listed() <==> s.Wants()) && (s.InHand() <==> s == inHand)
    }

    /** What every operation keeps, even in the middle of a retry. */
    ghost predicate Consistent()
      reads this, sessions
    {
      ListsOk() && FlagsOk() && OthersOk({}) && Standing()
    }

    /** No assertion has failed, and no lookup has been called back from within its own submission. */
    ghost predicate Standing()
      reads this`failed, this`submissions, this`inHand, this`started, this`sessions
    {
      && !failed && WriteFails !in submissions
      && (inHand != null ==> !started && inHand in sessions)
    }

    ghost predicate Valid()
      reads this, sessions
    {
      Consistent() && Exact() && retrying == [] && inHand == null
    }

    /**
     * What a step leaves alone: the sessions, the references others hold and the list being retried, but for
     * sessions taken off it.  Only the sessions in `tried` have made an attempt to reconnect.
     */
    twostate predicate Kept(tried: set<RfcommSession>)
      reads this, sessions
    {
      && KeptAlike()
      && (forall s <- sessions :: s.external == old(s.external) && s.tries == old(s.tries) + One(s in tried))
    }

    /** The same, with one reference to `one` given back. */
    twostate predicate KeptBy(one: RfcommSession)
      reads this, sessions
    {
      && KeptAlike()
      && (forall s <- sessions :: s.external == old(s.external) - One(s == one) && s.tries == old(s.tries))
    }

    twostate predicate KeptAlike()
      reads this, sessions
    {
      && Consistent()
      && sessions == old(sessions)
      && started == old(started)
      && old(submissions) <= submissions && old(asked) <= asked
      && (laterTimer.None? || laterTimer == old(laterTimer) || laterTimer == Some(autoreconnectTimeout))
      && inHand == old(inHand)
      && (old(Exact()) ==> Exact())
      && |retrying| <= old(|retrying|)
      && Elements(retrying) <= old(Elements(retrying)) <= Elements(retrying) + skipped
      && old(skipped) <= skipped
      && (forall s <- sessions :: old(s.history) <= s.history && old(s.notices) <= s.notices)
    }

    /**
     * The exact condition for everything else that is claimed: no lookup's own write has failed.  While an answer
     * is in hand there is one more, that its session is not disconnected.
     */
    twostate predicate Went(tried: set<RfcommSession>)
      reads this, sessions
    {
      && inHand == old(inHand) && old(asked) <= asked
      && (failed ==> WriteFails in submissions || inHand != null)
      && (WriteFails in submissions ==> failed)
      && (failed || Kept(tried))
    }

    /** Once the hub has stopped no lookup is submitted any more, and what is disconnected stays so. */
    twostate predicate Quiet()
      reads this, sessions
    {
      old(started) ||
      (&& (WriteFails in submissions ==> old(WriteFails in submissions))
       && (!failed ==> sessions == old(sessions) && forall s <- sessions ::
             && (old(s.state) == RFC_Disconnected ==> s.state == RFC_Disconnected)
             && (s.queued ==> old(s.queued))))
    }

    constructor (timeout: nat)
      ensures Valid() && sessions == {} && !started && autoreconnectTimeout == timeout
    {
      autoreconnectTimeout := timeout;
      started, laterSet, nowSet := false, false, false;
      laterTimer, nowTimer := None, None;
      later, now, retrying := [], [], [];
      sessions, skipped := {}, {};
      failed, inHand, submissions, asked := false, null, [], [];
    }

    method AddAutoReconnect(s: RfcommSession, atOnce: bool)
      requires ListsOk() && FlagsOk()
      requires s in sessions && s !in Listed() && s.state == RFC_Disconnected
      modifies this
      ensures ListsOk() && FlagsOk() && Listed() == old(Listed()) + {s}
      ensures unchanged(this`sessions, this`started, this`retrying, this`skipped, this`failed, this`inHand, this`submissions, this`asked)
      ensures later == if atOnce then old(later) else old(later) + [s]
      ensures now == if atOnce then old(now) + [s] else old(now)
      ensures old(Exact()) ==> Exact()
      ensures laterTimer == old(laterTimer) || laterTimer == Some(autoreconnectTimeout)
      ensures old(laterSet) ==> laterTimer == old(laterTimer)
      ensures started && !atOnce && !old(laterSet) ==> laterTimer == Some(autoreconnectTimeout)
    {
      if atOnce {
        if started && !nowSet {
          nowSet := true;
          nowTimer := Some(0);
        }
        UniqueSnoc(now, s);
        now := now + [s];
      } else {
        if started && !laterSet {
          laterSet := true;
          laterTimer := Some(autoreconnectTimeout);
        }
        UniqueSnoc(later, s);
        later := later + [s];
      }
    }

    method RemoveAutoReconnect(s: RfcommSession)
      requires ListsOk() && FlagsOk() && s in Listed()
      modifies this
      ensures ListsOk() && FlagsOk() && Listed() == old(Listed()) - {s}
      ensures unchanged(this`sessions, this`started, this`failed, this`inHand, this`submissions, this`asked)
      ensures |retrying| <= |old(retrying)|
      ensures Elements(retrying) == old(Elements(retrying)) - {s}
      ensures skipped == old(skipped) + (old(Elements(retrying)) * {s})
      ensures laterTimer == old(laterTimer) || laterTimer == None
      ensures old(Exact()) ==> Exact()
    {
      hide Once, All, Splice;
      OnceWithout(retrying, later, now, s);
      skipped := skipped + Elements(retrying) * {s};
      retrying := Splice(retrying, s, []);
      later := Splice(later, s, []);
      now := Splice(now, s, []);
      if started && later == [] && laterSet {
        laterSet := false;
        laterTimer := None;
      }
      if started && now == [] && nowSet {
        nowSet := false;
        nowTimer := None;
      }
    }

    // ---- the service's own events ---------------------------------------------

    method Start()
      requires Valid() && !started
      modifies this
      ensures Valid() && started && unchanged(this`sessions, this`later, this`now)
      ensures laterTimer == if later == [] then None else Some(0)
    {
      started := true;
      if later != [] && !laterSet {
        laterSet := true;
        laterTimer := Some(0);
      }
      if now != [] && !nowSet {
        nowSet := true;
        nowTimer := Some(0);
      }
    }

    method Stop()
      requires ListsOk() && FlagsOk()
      modifies this`started, this`laterSet, this`laterTimer, this`nowSet, this`nowTimer
      ensures ListsOk() && FlagsOk() && !started && laterTimer.None? && nowTimer.None?
      ensures old(Valid()) ==> Valid()
    {
      laterSet, laterTimer := false, None;
      nowSet, nowTimer := false, None;
      started := false;
    }

    method SessionFactory() returns (s: RfcommSession)
      requires Valid()
      modifies this`sessions
      ensures Valid() && fresh(s) && s.svc == this && s.external == 1 && s.history == [RFC_Disconnected]
      ensures sessions == old(sessions) + {s}
    {
      s := new RfcommSession(this);
      sessions := sessions + {s};
    }

    /** Somebody connects to us: the device's session is found or made, offered the socket, and let go of. */
    method RfcommListenNotify(found: RfcommSession?) returns (s: RfcommSession)
      requires Valid() && (found != null ==> found in sessions)
      modifies this, sessions
      ensures failed <==> WriteFails in submissions
      ensures if found != null then s == found && sessions == old(sessions)
              else fresh(s) && sessions == old(sessions) + {s}
      ensures !failed ==> Valid() && s.external == if found != null then old(found.external) else 0
      ensures !failed && found == null ==> [RFC_Disconnected, RFC_Connected] <= s.history
      ensures !failed && found != null && old(found.state) == RFC_Disconnected ==> old(found.history) + [RFC_Connected] <= s.history
    {
      if found != null {
        s := found;
        s.Get();
      } else {
        s := SessionFactory();
      }
      var ok := s.RfcommAccept();
      if !failed {
        s.Put();
      }
    }

    /** One session off the list being retried, back on the delayed list, and tried. */
    method RetryFirst()
      requires Consistent() && retrying != [] && inHand == null
      modifies this, sessions
      ensures failed <==> WriteFails in submissions
      ensures sessions == old(sessions)
      ensures !failed ==> Consistent() && started == old(started) && |retrying| < |old(retrying)| && inHand == null
      ensures !failed ==> var s := old(retrying[0]);
        && (forall t <- sessions :: t.tries == old(t.tries) + One(t == s))
        && s !in Elements(retrying)
        && Elements(retrying) <= old(Elements(retrying)) <= Elements(retrying) + skipped + {s}
      ensures !failed ==> old(skipped) <= skipped
      ensures !failed ==> laterTimer.None? || laterTimer == old(laterTimer) || laterTimer == Some(autoreconnectTimeout)
      ensures old(asked) + [old(retrying[0])] <= asked
    {
      var s := retrying[0];
      Move();
      var submission := *;
      var ok := s.AutoReconnect(submission);
    }

    method Move()
      requires Consistent() && retrying != []
      modifies this
      ensures Consistent() && unchanged(this`sessions, this`started, this`skipped, this`inHand, this`submissions, this`asked)
      ensures Elements(retrying) == old(Elements(retrying)) - {old(retrying[0])}
      ensures retrying == old(retrying)[1..] && later == old(later) + [old(retrying)[0]] && now == old(now)
      ensures Listed() == old(Listed()) && laterTimer == old(laterTimer)
    {
      var s := retrying[0];
      assert retrying == [s] + retrying[1..];
      UniqueCons(s, retrying[1..]);
      UniqueSnoc(later, s);
      retrying := retrying[1..];
      later := later + [s];
    }

    /**
     * A reconnect timer has run down: every session on its list is moved to the delayed list and tried once,
     * unless it was taken off before its turn.  Whatever the attempts and the client do meanwhile, the lists
     * and timers end up in order, exactly unless the write of a lookup's request fails.
     */
    method AutoReconnectTimeout(delayed: bool)
      requires Valid() && started
      requires if delayed then laterTimer.Some? else nowTimer.Some?
      modifies this, sessions
      ensures failed <==> WriteFails in submissions
      ensures old(asked) <= asked
      ensures !failed ==> Valid() && sessions == old(sessions) && started
      ensures !failed ==> forall s <- sessions ::
        if s in old(Elements(if delayed then later else now))
        then (s.tries == old(s.tries) + 1 && s in asked[|old(asked)|..]) || (s in skipped && s.tries == old(s.tries))
        else s.tries == old(s.tries)
      ensures !failed && later != [] && (delayed || old(laterTimer).None?) ==> laterTimer == Some(autoreconnectTimeout)
    {
      hide Once, All, ListsOk, FlagsOk, Exact;
      ghost var all := Elements(if delayed then later else now);
      Take(delayed);
      while retrying != []
        invariant Consistent() && sessions == old(sessions) && started && inHand == null
        invariant Elements(retrying) <= all && old(asked) <= asked
        invariant forall s <- sessions :: Attempts(s, all)
        invariant delayed || old(laterTimer).None? ==> laterTimer.None? || laterTimer == Some(autoreconnectTimeout)
        decreases |retrying|
      {
        assert retrying[0] in Elements(retrying);
        ghost var asked0, s := asked, retrying[0];
        RetryFirst();
        if failed {
          return;
        }
        AskedMore(old(asked), asked0, asked, s);
      }
      Rearm();
    }

    /** What is still to be retried will be after the usual delay. */
    method Rearm()
      requires Consistent() && started && retrying == [] && inHand == null
      modifies this`laterSet, this`laterTimer
      ensures Valid()
      ensures laterTimer == if later != [] && old(laterTimer).None? then Some(autoreconnectTimeout) else old(laterTimer)
    {
      if later != [] && !laterSet {
        laterSet := true;
        laterTimer := Some(autoreconnectTimeout);
      }
    }

    /**
     * Everything stops, for one reason or another: the timers go, lookups still queued are told so, and every
     * session is disconnected, with all the callbacks that makes.  All of this is in order exactly unless an
     * answer was in hand: its session still refers to a task that is off the queue.
     */
    method InvoluntaryStop(answered: RfcommSession?)
      requires Valid() && started
      requires answered != null ==> answered in sessions && answered.Awaiting()
      modifies this, sessions
      ensures failed <==> answered != null
      ensures !failed ==> Valid() && !started && laterTimer.None? && nowTimer.None?
      ensures !failed ==> sessions == old(sessions) && forall s <- sessions ::
        && s.state == RFC_Disconnected && s.external == old(s.external) && s.tries == old(s.tries)
        && old(s.history) <= s.history
    {
      Stop();
      if answered != null {
        answered.queued := false;
        inHand := answered;
      }
      TellLookups();
      if !failed {
        DisconnectAll();
      }
    }

    method TellLookups()
      requires Consistent() && !started
      modifies this, sessions
      ensures Went({}) && Quiet()
      ensures !failed ==> forall s <- sessions :: !s.queued
    {
      var left := sessions;
      while left != {}
        invariant left <= sessions && Kept({}) && Quiet()
        invariant forall s <- sessions - left :: !s.queued
        decreases |left|
      {
        var s :| s in left;
        left := left - {s};
        if s.queued {
          s.RfcommSdpLookupChannelComplete(ECONNRESET, false, false);
          if failed {
            return;
          }
        }
      }
    }

    method DisconnectAll()
      requires Consistent() && !started
      modifies this, sessions
      ensures Went({}) && Quiet()
      ensures !failed ==> inHand == null && forall s <- sessions :: s.state == RFC_Disconnected
    {
      var left := sessions;
      while left != {}
        invariant left <= sessions && Kept({}) && Quiet()
        invariant forall s <- sessions - left :: s.state == RFC_Disconnected
        decreases |left|
      {
        var s :| s in left;
        left := left - {s};
        s.Disconnect(true, false);
        if failed {
          return;
        }
      }
      NoneInHand();
    }

    lemma NoneInHand()
      requires Consistent() && forall s <- sessions :: s.state == RFC_Disconnected
      ensures inHand == null
    {
      assert forall s <- sessions - {} :: !s.InHand() && s != inHand;
      assert forall s <- sessions :: s in sessions - {};
    }

    static lemma AskedMore(a: seq<RfcommSession>, b: seq<RfcommSession>, c: seq<RfcommSession>, s: RfcommSession)
      requires a <= b && b + [s] <= c
      ensures a <= c && s in c[|a|..] && forall t <- b[|a|..] :: t in c[|a|..]
    {
      assert c[|a|..][|b| - |a|] == (b + [s])[|b|];
      assert forall i :: 0 <= i < |b| - |a| ==> c[|a|..][i] == b[|a|..][i];
    }

    twostate predicate Attempts(s: RfcommSession, all: set<RfcommSession>)
      reads this, s
    {
      && old(asked) <= asked
      && if s !in all || s in Elements(retrying) then s.tries == old(s.tries)
         else (s.tries == old(s.tries) + 1 && s in asked[|old(asked)|..]) || (s in skipped && s.tries == old(s.tries))
    }

    method Take(delayed: bool)
      requires Valid() && started
      requires if delayed then laterTimer.Some? else nowTimer.Some?
      modifies this
      ensures Consistent() && unchanged(this`sessions, this`started, this`inHand, this`submissions, this`asked)
      ensures skipped == {} && retrying == old(if delayed then later else now)
      ensures laterTimer == if delayed then None else old(laterTimer)
    {
      skipped := {};
      if delayed {
        assert laterSet;
        laterSet, laterTimer := false, None;
        retrying, later := later, [];
      } else {
        assert nowSet;
        nowSet, nowTimer := false, None;
        retrying, now := now, [];
      }
    }
  }

  class RfcommSession {
    const svc: RfcommService
    var state: RfcommState
    var sdpTask: bool
    /** Whether that task is on the hub's queue. */
    var queued: bool
    var notifier: bool
    var sock: bool
    var inbound: bool
    var dcVoluntary: bool
    var autoreconnect: bool
    var opTimeout: Option<nat>
    var refs: nat
    /** Of these, those that clients have taken, and those that the library itself holds from elsewhere. */
    var clients: nat
    ghost var external: nat
    /** Attempts to reconnect made by the service. */
    ghost var tries: nat
    /** How often the client was told of a change of the connection. */
    ghost var notices: nat
    /** Every state this session has been in. */
    ghost var history: seq<RfcommState>

    ghost predicate Wants()
      reads this
    {
      autoreconnect && state == RFC_Disconnected
    }

    ghost predicate Ok()
      reads this
    {
      && refs == external + clients + One(state != RFC_Disconnected) + One(autoreconnect)
      && Follows(history, state)
      && (sdpTask <==> state == RFC_SdpLookupChannel)
      && (queued ==> sdpTask)
      && (sock <==> state == RFC_Connecting || state == RFC_Connected)
      && (notifier ==> sock)
      && (opTimeout.Some? ==> state != RFC_Disconnected)
    }

    /** The answer to its lookup is there, but it has not been told. */
    predicate InHand()
      reads this
    {
      sdpTask && !queued
    }

    constructor (svc: RfcommService)
      ensures Ok() && !Wants() && !InHand() && history == [RFC_Disconnected] && this.svc == svc && refs == external == 1
    {
      this.svc := svc;
      state := RFC_Disconnected;
      sdpTask, queued, notifier, sock := false, false, false, false;
      inbound, dcVoluntary, autoreconnect := false, false, false;
      opTimeout := None;
      refs, external, clients, tries, notices := 1, 1, 0, 0, 0;
      history := [RFC_Disconnected];
    }

    /** The service is in order but for this session. */
    ghost predicate Aside()
      reads this, svc, svc.sessions
    {
      && this in svc.sessions
      && svc.ListsOk() && svc.FlagsOk() && svc.OthersOk({this}) && svc.Standing()
      && (InHand() <==> this == svc.inHand)
    }

    /** And its list entry is as it should be. */
    ghost predicate AlmostIn()
      reads this, svc, svc.sessions
    {
      Aside() && (this in svc.Listed() <==> Wants())
    }

    /** A reference taken by somebody else. */
    method Get()
      requires svc.Consistent() && this in svc.sessions
      modifies this`refs, this`external
      ensures svc.Consistent() && external == old(external) + 1
    {
      refs := refs + 1;
      external := external + 1;
    }

    method Put()
      requires svc.Consistent() && this in svc.sessions && external > 0
      modifies this`refs, this`external
      ensures svc.Consistent() && external == old(external) - 1
    {
      assert refs > 0;
      refs := refs - 1;
      external := external - 1;
    }

    /** A client takes a reference, or lets go of one. */
    method Hold()
      requires svc.Consistent() && this in svc.sessions
      modifies this`refs, this`clients
      ensures svc.Kept({}) && svc.Quiet() && clients == old(clients) + 1
    {
      refs := refs + 1;
      clients := clients + 1;
    }

    method Drop()
      requires svc.Consistent() && this in svc.sessions && clients > 0
      modifies this`refs, this`clients
      ensures svc.Kept({}) && svc.Quiet() && clients == old(clients) - 1
    {
      refs := refs - 1;
      clients := clients - 1;
    }

    /** Nobody's session: then it is disconnected, off every list and holds nothing, as its destructor asserts. */
    lemma Unreferenced()
      requires svc.Consistent() && this in svc.sessions
      ensures refs == 0 ==>
        state == RFC_Disconnected && !sdpTask && !notifier && !sock && opTimeout.None? && this !in svc.Listed()
    {
    }

    /** Turned on for a disconnected session, it is to be tried at once. */
    method SetAutoReconnect(enable: bool)
      requires svc.Consistent() && this in svc.sessions
      modifies this, svc
      ensures svc.Kept({}) && svc.Quiet() && autoreconnect == enable && state == old(state)
      ensures enable && !old(autoreconnect) && state == RFC_Disconnected ==> svc.now == old(svc.now) + [this]
      ensures enable == old(autoreconnect) ==> unchanged(this) && unchanged(svc)
    {
      if enable && !autoreconnect {
        TurnOn();
      } else if !enable && autoreconnect {
        TurnOff();
      }
    }

    method TurnOn()
      requires svc.Consistent() && this in svc.sessions && !autoreconnect
      modifies this, svc
      ensures svc.Kept({}) && svc.Quiet() && autoreconnect && state == old(state)
      ensures svc.now == old(svc.now) + if state == RFC_Disconnected then [this] else []
    {
      hide Once, All, Follows, RfcommService.ListsOk, RfcommService.FlagsOk, RfcommService.Exact;
      refs := refs + 1;
      autoreconnect := true;
      if state == RFC_Disconnected {
        svc.AddAutoReconnect(this, true);
      }
    }

    method TurnOff()
      requires svc.Consistent() && this in svc.sessions && autoreconnect
      modifies this, svc
      ensures svc.Kept({}) && svc.Quiet() && !autoreconnect && state == old(state)
    {
      hide Once, All, Follows, RfcommService.ListsOk, RfcommService.FlagsOk, RfcommService.Exact;
      Forgo();
      if state == RFC_Disconnected {
        svc.RemoveAutoReconnect(this);
      }
    }

    /** The switch is off, and the reference that went with it is returned. */
    method Forgo()
      requires svc.Consistent() && this in svc.sessions && autoreconnect
      modifies this`autoreconnect, this`refs
      ensures Aside() && Ok() && !autoreconnect && (this in svc.Listed() <==> state == RFC_Disconnected)
    {
      hide Once, All, Follows, RfcommService.ListsOk, RfcommService.FlagsOk, RfcommService.Exact;
      autoreconnect := false;
      refs := refs - 1;
    }

    // ---- connecting -----------------------------------------------------------

    /** What becomes of a submission; a hub that is not started refuses it. */
    function Outcome(submission: Submission): Submission
      reads svc`started
    {
      if svc.started then submission else Refused
    }

    /**
     * Submits a lookup.  A lookup that is called back from within its own submission finds the session not yet
     * waiting for it: the assertion in RfcommSdpLookupChannelComplete fails exactly then.
     */
    method RfcommSdpLookupChannel(submission: Submission) returns (ok: bool)
      requires svc.Consistent() && this in svc.sessions && state == RFC_Disconnected
      modifies this, svc
      ensures svc.submissions == old(svc.submissions) + [if old(svc.started) then submission else Refused]
      ensures svc.asked == old(svc.asked) + [this] && svc.sessions == old(svc.sessions)
      ensures svc.Went({}) && svc.Quiet() && (svc.failed <==> old(svc.started) && submission.WriteFails?)
      ensures ok <==> old(svc.started) && submission.Queued?
      ensures autoreconnect == old(autoreconnect)
      ensures state == if ok then RFC_SdpLookupChannel else RFC_Disconnected
      ensures history == old(history) + if ok then [RFC_SdpLookupChannel] else []
    {
      hide Once, All, Follows, RfcommService.ListsOk, RfcommService.FlagsOk, RfcommService.Exact;
      var outcome := Outcome(submission);
      svc.submissions, svc.asked := svc.submissions + [outcome], svc.asked + [this];
      match outcome {
        case Refused => ok := false;
        case Queued =>
          EnterLookup();
          ok := true;
        case WriteFails =>
          svc.Stop();
          svc.failed := !Awaiting();
          ok := false;
      }
    }

    /** What the completion of a lookup asserts first. */
    predicate Awaiting()
      reads this
    {
      sdpTask && state == RFC_SdpLookupChannel
    }

    method EnterLookup()
      requires Aside() && Ok() && state == RFC_Disconnected && (this in svc.Listed() <==> autoreconnect)
      modifies this, svc
      ensures svc.Kept({}) && autoreconnect == old(autoreconnect)
      ensures svc.submissions == old(svc.submissions) && svc.asked == old(svc.asked)
      ensures state == RFC_SdpLookupChannel
      ensures history == old(history) + [RFC_SdpLookupChannel]
    {
      Ask();
      Unlist();
    }

    method Ask()
      requires Aside() && Ok() && state == RFC_Disconnected
      modifies this
      ensures Aside() && Ok() && state == RFC_SdpLookupChannel
      ensures autoreconnect == old(autoreconnect) && external == old(external) && tries == old(tries) && notices == old(notices)
      ensures history == old(history) + [RFC_SdpLookupChannel]
    {
      hide Once, All, Follows, RfcommService.ListsOk, RfcommService.FlagsOk, RfcommService.Exact;
      refs := refs + 1;
      FollowsOn(history, state, RFC_SdpLookupChannel);
      state := RFC_SdpLookupChannel;
      history := history + [state];
      sdpTask, queued := true, true;
    }

    /** The overload clients use: look the channel up first. */
    method RfcommConnect(submission: Submission) returns (ok: bool)
      requires svc.Consistent() && this in svc.sessions
      modifies this, svc
      ensures svc.Went({}) && svc.Quiet() && svc.sessions == old(svc.sessions) && autoreconnect == old(autoreconnect)
      ensures svc.asked == old(svc.asked) + if old(state) == RFC_Disconnected then [this] else []
      ensures ok <==> old(state) == RFC_Disconnected && old(svc.started) && submission.Queued?
      ensures svc.failed <==> old(state) == RFC_Disconnected && old(svc.started) && submission.WriteFails?
      ensures state == if ok then RFC_SdpLookupChannel else old(state)
      ensures ok ==> opTimeout == Some(TIMEOUT_LOOKUP)
      ensures history == old(history) + if ok then [RFC_SdpLookupChannel] else []
    {
      hide Once, All, Follows, RfcommService.ListsOk, RfcommService.FlagsOk, RfcommService.Exact;
      if state != RFC_Disconnected {
        return false;
      }
      ok := RfcommSdpLookupChannel(submission);
      if ok {
        opTimeout := Some(TIMEOUT_LOOKUP);
      }
    }

    // ---- disconnecting --------------------------------------------------------

    /** What __Disconnect asserts about what the session holds, but that its lookup is queued. */
    ghost predicate Closing()
      reads this, svc, svc.sessions
    {
      && AlmostIn()
      && refs == external + clients + One(state != RFC_Disconnected) + One(autoreconnect)
      && Follows(history, state)
      && (sdpTask ==> state == RFC_SdpLookupChannel)
      && (queued ==> sdpTask)
      && (if state == RFC_Connected then sock else sock ==> state == RFC_Connecting)
      && (notifier ==> sock)
      && (opTimeout.Some? ==> state != RFC_Disconnected)
    }

    /** A disconnect, whatever it makes clients do, however deep the callbacks go. */
    method Disconnect(reason: bool, voluntary: bool)
      requires Closing()
      modifies svc, svc.sessions
      ensures svc.Went({}) && svc.Quiet() && svc.sessions == old(svc.sessions)
      ensures !svc.failed ==>
        if old(state) == RFC_Disconnected then history == old(history)
        else old(history) + [RFC_Disconnected] <= history
      ensures !svc.failed && (!reason || !old(svc.started)) ==> state == RFC_Disconnected
      ensures old(InHand()) ==> svc.failed
      ensures reason && old(state) != RFC_Disconnected && old(state) != RFC_Connected && !svc.failed ==> notices > old(notices)
    {
      var depth: nat := *;
      DisconnectWithin(reason, voluntary, depth);
    }

    /** Clients with commands pending are called back first; a disconnect with a reason reaches the client at the end. */
    method DisconnectWithin(reason: bool, voluntary: bool, depth: nat)
      requires Closing()
      modifies svc, svc.sessions
      ensures svc.Went({}) && svc.Quiet() && svc.sessions == old(svc.sessions)
      ensures !svc.failed ==>
        if old(state) == RFC_Disconnected then history == old(history)
        else old(history) + [RFC_Disconnected] <= history
      ensures !svc.failed && (!reason || !old(svc.started)) ==> state == RFC_Disconnected
      ensures old(InHand()) ==> svc.failed
      ensures reason && old(state) != RFC_Disconnected && old(state) != RFC_Connected && !svc.failed ==> notices > old(notices)
      decreases depth, 5
    {
      hide Once, All, Follows, RfcommService.ListsOk, RfcommService.FlagsOk, RfcommService.Exact;
      var connected := state == RFC_Connected;
      if connected {
        DropCommands(depth);
        if svc.failed {
          return;
        }
      }
      if state != RFC_Disconnected {
        Close(reason, voluntary, depth);
      }
      if connected && !svc.failed {
        FollowsNext(old(history), history, state);
      }
    }

    /** The commands still queued are aborted: that calls back the clients waiting for them. */
    method DropCommands(depth: nat)
      requires Closing() && state == RFC_Connected
      modifies svc, svc.sessions
      ensures svc.Went({}) && svc.Quiet() && svc.sessions == old(svc.sessions)
      ensures !svc.failed ==> Closing()
      decreases depth, 2
    {
      hide Once, All, Follows, RfcommService.ListsOk, RfcommService.FlagsOk, RfcommService.Exact;
      CallbackWithin(depth);
    }

    method Close(reason: bool, voluntary: bool, depth: nat)
      requires Closing() && state != RFC_Disconnected
      modifies svc, svc.sessions
      ensures svc.Went({}) && svc.Quiet() && svc.sessions == old(svc.sessions)
      ensures !svc.failed ==> old(history) + [RFC_Disconnected] <= history
      ensures !svc.failed && (!reason || !old(svc.started)) ==> state == RFC_Disconnected
      ensures old(InHand()) ==> svc.failed
      ensures reason && !svc.failed ==> notices > old(notices)
      decreases depth, 4
    {
      hide Once, All, Follows, RfcommService.ListsOk, RfcommService.FlagsOk, RfcommService.Exact;
      LetGo(voluntary);
      if !svc.failed {
        if reason {
          TellClosed(depth);
        } else {
          Put();
        }
      }
    }

    /** The client is told, and what was held for that is let go of. */
    method TellClosed(depth: nat)
      requires svc.Consistent() && this in svc.sessions && external > 0
      modifies svc, svc.sessions
      ensures svc.inHand == old(svc.inHand) && svc.sessions == old(svc.sessions) && svc.Quiet()
      ensures (svc.failed ==> WriteFails in svc.submissions || svc.inHand != null)
      ensures WriteFails in svc.submissions ==> svc.failed
      ensures old(svc.asked) <= svc.asked
      ensures !svc.failed ==> svc.KeptBy(this) && notices > old(notices)
      decreases depth, 3
    {
      hide Once, All, Follows, RfcommService.ListsOk, RfcommService.FlagsOk, RfcommService.Exact;
      Notify(depth);
      if !svc.failed {
        Put();
      }
    }

    /** Releases what is held, if that can be; closed then, and held until the client has been told. */
    method LetGo(voluntary: bool)
      requires Closing() && state != RFC_Disconnected
      modifies this, svc
      ensures svc.failed <==> old(InHand())
      ensures svc.submissions == old(svc.submissions) && svc.inHand == old(svc.inHand) && svc.asked == old(svc.asked)
      ensures svc.sessions == old(svc.sessions)
      ensures !svc.failed ==>
        && svc.Consistent() && svc.Quiet() && svc.started == old(svc.started)
        && state == RFC_Disconnected && history == old(history) + [RFC_Disconnected]
        && external == old(external) + 1 && tries == old(tries) && notices == old(notices)
        && (old(svc.Exact()) ==> svc.Exact())
        && svc.retrying == old(svc.retrying) && svc.skipped == old(svc.skipped)
        && (svc.laterTimer == old(svc.laterTimer) || svc.laterTimer == Some(svc.autoreconnectTimeout))
    {
      hide Once, All, Follows, RfcommService.ListsOk, RfcommService.FlagsOk, RfcommService.Exact;
      var stands := Release();
      if stands {
        CloseAndHold(voluntary);
      } else {
        svc.failed := true;
      }
    }

    /** Nothing is held any more. */
    ghost predicate Released()
      reads this, svc, svc.sessions
    {
      && AlmostIn()
      && refs == external + clients + One(state != RFC_Disconnected) + One(autoreconnect)
      && Follows(history, state)
      && !sdpTask && !queued && !sock && !notifier && opTimeout.None?
    }

    /** Closed, and held until the client has been told. */
    method CloseAndHold(voluntary: bool)
      requires Released() && state != RFC_Disconnected
      modifies this, svc
      ensures svc.Consistent() && svc.Quiet() && svc.sessions == old(svc.sessions) && svc.started == old(svc.started)
      ensures state == RFC_Disconnected && history == old(history) + [RFC_Disconnected]
      ensures external == old(external) + 1 && tries == old(tries) && notices == old(notices)
      ensures old(svc.Exact()) ==> svc.Exact()
      ensures svc.submissions == old(svc.submissions) && svc.inHand == old(svc.inHand) && svc.asked == old(svc.asked)
      ensures svc.retrying == old(svc.retrying) && svc.skipped == old(svc.skipped)
        && (svc.laterTimer == old(svc.laterTimer) || svc.laterTimer == Some(svc.autoreconnectTimeout))
    {
      hide Once, All, Follows, RfcommService.ListsOk, RfcommService.FlagsOk, RfcommService.Exact;
      CloseAll(voluntary);
      external := external + 1;
    }

    method CloseAll(voluntary: bool)
      requires Released() && state != RFC_Disconnected
      modifies this, svc
      ensures svc.sessions == old(svc.sessions) && svc.started == old(svc.started)
      ensures AlmostIn() && state == RFC_Disconnected && autoreconnect == old(autoreconnect)
      ensures dcVoluntary == voluntary
      ensures refs == old(refs) && external == old(external) && clients == old(clients)
      ensures Follows(history, state) && history == old(history) + [RFC_Disconnected]
      ensures !sdpTask && !queued && !sock && !notifier && opTimeout.None?
      ensures old(svc.Exact()) ==> svc.Exact()
      ensures svc.submissions == old(svc.submissions) && svc.inHand == old(svc.inHand) && svc.asked == old(svc.asked)
      ensures svc.retrying == old(svc.retrying) && svc.skipped == old(svc.skipped)
        && (svc.laterTimer == old(svc.laterTimer) || svc.laterTimer == Some(svc.autoreconnectTimeout)) && tries == old(tries) && notices == old(notices)
      ensures svc.later == old(svc.later) + if autoreconnect then [this] else []
    {
      hide Once, All, Follows, RfcommService.ListsOk, RfcommService.FlagsOk, RfcommService.Exact;
      dcVoluntary := voluntary;
      FollowsOn(history, state, RFC_Disconnected);
      state := RFC_Disconnected;
      history := history + [state];
      if autoreconnect {
        svc.AddAutoReconnect(this, false);
      }
    }

    /**
     * Lets go of whatever the session holds; each can only be held in the states asserted.  A lookup is cancelled,
     * which asserts that it is queued.
     */
    method Release() returns (stands: bool)
      requires sdpTask ==> state == RFC_SdpLookupChannel
      requires sock ==> state == RFC_Connecting || state == RFC_Connected
      requires notifier ==> sock
      modifies this`opTimeout, this`notifier, this`sock, this`sdpTask, this`queued
      ensures stands <==> !old(InHand())
      ensures stands ==> !sdpTask && !queued && !sock && !notifier && opTimeout.None?
      ensures !stands ==> state == RFC_SdpLookupChannel
    {
      opTimeout := None;
      if notifier {
        assert state != RFC_SdpLookupChannel && sock;
        notifier := false;
      }
      if sock {
        assert state != RFC_SdpLookupChannel;
        sock := false;
      }
      if sdpTask {
        assert state == RFC_SdpLookupChannel;
        if !queued {
          return false;
        }
        sdpTask := false;
      }
      queued := false;
      stands := true;
    }

    /** A client callback may make any number of calls on any sessions, some of which call clients back again. */
    method Callback()
      requires svc.Consistent() && this in svc.sessions
      modifies svc, svc.sessions
      ensures svc.Went({}) && svc.Quiet() && svc.sessions == old(svc.sessions)
    {
      var depth: nat := *;
      CallbackWithin(depth);
    }

    /** The client is told that the connection has changed. */
    method Notify(depth: nat)
      requires svc.Consistent() && this in svc.sessions
      modifies svc, svc.sessions
      ensures svc.Went({}) && svc.Quiet() && svc.sessions == old(svc.sessions)
      ensures !svc.failed ==> notices > old(notices)
      decreases depth, 2
    {
      Noted();
      CallbackWithin(depth);
    }

    method Noted()
      requires svc.Consistent() && this in svc.sessions
      modifies this`notices
      ensures svc.Kept({}) && svc.Quiet() && notices == old(notices) + 1
    {
      notices := notices + 1;
    }

    method CallbackWithin(depth: nat)
      requires svc.Consistent() && this in svc.sessions
      modifies svc, svc.sessions
      ensures svc.Went({}) && svc.Quiet() && svc.sessions == old(svc.sessions)
      decreases depth, 1
    {
      var calls: nat := *;
      while calls > 0
        invariant svc.Kept({}) && svc.Quiet()
      {
        CallOnce(depth);
        if svc.failed {
          return;
        }
        calls := calls - 1;
      }
    }

    /** One call on some session; at depth 0 one that calls nobody back. */
    method CallOnce(depth: nat)
      requires svc.Consistent() && this in svc.sessions
      modifies svc, svc.sessions
      ensures svc.Went({}) && svc.Quiet() && svc.sessions == old(svc.sessions)
      decreases depth, 0
    {
      var s: RfcommSession :| s in svc.sessions;
      var choice: nat :| choice <= 5;
      if choice == 0 {
        s.SetAutoReconnect(true);
      } else if choice == 1 {
        s.SetAutoReconnect(false);
      } else if choice == 2 {
        var submission := *;
        var ok := s.RfcommConnect(submission);
      } else if choice == 3 {
        s.Hold();
      } else if choice == 4 {
        if s.clients > 0 {
          s.Drop();
        }
      } else if depth > 0 {
        s.DisconnectWithin(false, true, depth - 1);
      }
    }

    // ---- connection progress --------------------------------------------------

    /** The session is up: the profile may start its handshake or give up, then the client may be told. */
    method NotifyConnected()
      requires svc.Consistent() && this in svc.sessions && state == RFC_Connected
      modifies svc, svc.sessions
      ensures svc.Went({}) && svc.sessions == old(svc.sessions)
    {
      hide Once, All, Follows, RfcommService.ListsOk, RfcommService.FlagsOk, RfcommService.Exact;
      notifier := true;
      var giveUp, tell := *, *;
      if giveUp {
        Disconnect(true, false);
      } else if tell {
        Callback();
      }
    }

    method Connected()
      requires svc.Consistent() && this in svc.sessions && state == RFC_Connecting
      modifies this
      ensures svc.Kept({}) && state == RFC_Connected
      ensures history == old(history) + [RFC_Connected]
    {
      hide Once, All, Follows, RfcommService.ListsOk, RfcommService.FlagsOk, RfcommService.Exact;
      opTimeout := None;
      notifier := false;
      FollowsOn(history, state, RFC_Connected);
      state := RFC_Connected;
      history := history + [state];
    }

    /** The connection attempt has ended, well or badly. */
    method RfcommConnectNotify(sockerr: bool)
      requires svc.Consistent() && this in svc.sessions && state == RFC_Connecting
      modifies svc, svc.sessions
      ensures svc.Went({}) && svc.sessions == old(svc.sessions)
      ensures !svc.failed ==> old(history) + [RFC_Connected] <= history
      ensures !svc.failed && sockerr ==> old(history) + [RFC_Connected, RFC_Disconnected] <= history
    {
      Connected();
      if sockerr {
        Disconnect(true, false);
      } else {
        NotifyConnected();
      }
    }

    /** The socket is there: the attempt is under way or already over. */
    method StartConnecting(pending: bool)
      requires Aside() && state == RFC_Disconnected && Follows(history, RFC_SdpLookupChannel)
      requires refs == external + clients + One(autoreconnect)
      requires !sdpTask && !queued && !sock && !notifier && opTimeout.None?
      modifies svc, svc.sessions
      ensures svc.Went({}) && svc.sessions == old(svc.sessions)
      ensures !svc.failed ==> old(history) + [RFC_Connecting] <= history
      ensures pending ==> !svc.failed && state == RFC_Connecting && notifier && opTimeout == Some(TIMEOUT_CONNECT)
    {
      Entering(pending);
      if !pending {
        var sockerr := *;
        RfcommConnectNotify(sockerr);
      }
    }

    method Entering(pending: bool)
      requires Aside() && state == RFC_Disconnected && Follows(history, RFC_SdpLookupChannel)
      requires refs == external + clients + One(autoreconnect)
      requires !sdpTask && !queued && !sock && !notifier && opTimeout.None?
      modifies this, svc
      ensures svc.Kept({}) && state == RFC_Connecting && external == old(external)
      ensures !inbound && notifier == pending && opTimeout == if pending then Some(TIMEOUT_CONNECT) else None
      ensures history == old(history) + [RFC_Connecting]
    {
      hide Once, All, Follows, RfcommService.ListsOk, RfcommService.FlagsOk, RfcommService.Exact;
      Reach(pending);
      LeaveList();
    }

    /** The session takes the socket of its own attempt. */
    method Reach(pending: bool)
      requires Aside() && state == RFC_Disconnected && Follows(history, RFC_SdpLookupChannel)
      requires refs == external + clients + One(autoreconnect) && !sdpTask && !queued
      modifies this
      ensures Aside() && Ok() && state == RFC_Connecting
      ensures !inbound && notifier == pending && opTimeout == if pending then Some(TIMEOUT_CONNECT) else None
      ensures autoreconnect == old(autoreconnect) && external == old(external) && tries == old(tries) && notices == old(notices)
      ensures history == old(history) + [RFC_Connecting]
    {
      hide Once, All, Follows, RfcommService.ListsOk, RfcommService.FlagsOk, RfcommService.Exact;
      TakeSocket(pending);
      FollowsOn(history, RFC_SdpLookupChannel, RFC_Connecting);
      refs, state, history := refs + 1, RFC_Connecting, history + [RFC_Connecting];
    }

    method TakeSocket(pending: bool)
      modifies this`opTimeout, this`notifier, this`inbound, this`sock
      ensures !inbound && sock && notifier == pending && opTimeout == if pending then Some(TIMEOUT_CONNECT) else None
    {
      opTimeout := if pending then Some(TIMEOUT_CONNECT) else None;
      notifier := pending;
      inbound := false;
      sock := true;
    }

    method LeaveList()
      requires Aside() && Ok() && !Wants()
      modifies svc
      ensures svc.Kept({})
    {
      hide Once, All, Follows, RfcommService.ListsOk, RfcommService.FlagsOk, RfcommService.Exact;
      if svc.IsListed(this) {
        svc.RemoveAutoReconnect(this);
      }
    }

    /**
     * The SDP helper answered; `started` says whether a socket could then be had, and `pending` whether connecting
     * takes time.  The lookup's own reference is dropped at the end; a connection attempt that
     * could be started took another.
     */
    method RfcommSdpLookupChannelComplete(errno: int, started: bool, pending: bool)
      requires svc.Consistent() && this in svc.sessions && Awaiting() && queued
      modifies svc, svc.sessions
      ensures svc.Went({}) && svc.sessions == old(svc.sessions)
      ensures !svc.failed ==>
        old(history) + [if errno == 0 && started then RFC_Connecting else RFC_Disconnected] <= history
      ensures !svc.failed && (errno != 0 || !started) ==> notices > old(notices)
      ensures errno != 0 ==> svc.Quiet()
      ensures errno != 0 && !svc.failed && !old(svc.started) ==> state == RFC_Disconnected
    {
      hide Once, All, Follows, RfcommService.ListsOk, RfcommService.FlagsOk, RfcommService.Exact;
      opTimeout := None;
      inbound := false;
      sdpTask, queued := false, false;
      if errno != 0 {
        Disconnect(true, false);
      } else {
        ConnectFound(started, pending);
      }
    }

    /**
     * The helper's answer to this session's lookup arrives.  The next request is written before the session is
     * told; if there is one and its write fails, everything stops with the answer in hand, and an assertion fails.
     */
    method SdpAnswered(errno: int, nextFails: bool, started: bool, pending: bool)
      requires svc.Valid() && svc.started && this in svc.sessions && Awaiting()
      modifies svc, svc.sessions
      ensures svc.failed <==> nextFails || WriteFails in svc.submissions
      ensures !svc.failed ==> svc.Valid() && svc.Kept({})
      ensures !svc.failed ==>
        old(history) + [if errno == 0 && started then RFC_Connecting else RFC_Disconnected] <= history
    {
      if nextFails {
        svc.InvoluntaryStop(this);
      } else {
        RfcommSdpLookupChannelComplete(errno, started, pending);
      }
    }

    /** The lookup found a channel. */
    method ConnectFound(started: bool, pending: bool)
      requires Closing() && state == RFC_SdpLookupChannel
      requires !sdpTask && !queued && opTimeout.None?
      modifies svc, svc.sessions
      ensures svc.Went({}) && svc.sessions == old(svc.sessions)
      ensures !svc.failed ==> old(history) + [if started then RFC_Connecting else RFC_Disconnected] <= history
      ensures !svc.failed && !started ==> notices > old(notices)
    {
      hide Once, All, Follows, RfcommService.ListsOk, RfcommService.FlagsOk, RfcommService.Exact;
      if started {
        Proceed(pending);
      } else {
        // The state is as it was before the attempt.
        Disconnect(true, false);
      }
    }

    method Proceed(pending: bool)
      requires Closing() && state == RFC_SdpLookupChannel
      requires !sdpTask && !queued && opTimeout.None?
      modifies svc, svc.sessions
      ensures svc.Went({}) && svc.sessions == old(svc.sessions)
      ensures !svc.failed ==> old(history) + [RFC_Connecting] <= history
    {
      hide Once, All, Follows, RfcommService.ListsOk, RfcommService.FlagsOk, RfcommService.Exact;
      state := RFC_Disconnected;
      external := external + 1;
      StartConnecting(pending);
      if !svc.failed {
        Put();
      }
    }

    /** An inbound connection is taken only by a session that is doing nothing. */
    method RfcommAccept() returns (ok: bool)
      requires svc.Consistent() && this in svc.sessions
      modifies svc, svc.sessions
      ensures svc.Went({}) && svc.sessions == old(svc.sessions)
      ensures ok == (old(state) == RFC_Disconnected)
      ensures !svc.failed ==> if ok then old(history) + [RFC_Connected] <= history else history == old(history)
    {
      if state != RFC_Disconnected {
        return false;
      }
      Accepted();
      NotifyConnected();
      ok := true;
    }

    method Accepted()
      requires svc.Consistent() && this in svc.sessions && state == RFC_Disconnected
      modifies this, svc
      ensures svc.Kept({}) && state == RFC_Connected && inbound
      ensures history == old(history) + [RFC_Connected]
    {
      Occupy();
      Unlist();
    }

    /** The session takes the socket of an inbound connection. */
    method Occupy()
      requires svc.Consistent() && this in svc.sessions && state == RFC_Disconnected
      modifies this
      ensures Aside() && Ok() && state == RFC_Connected && inbound
      ensures autoreconnect == old(autoreconnect) && external == old(external) && tries == old(tries) && notices == old(notices)
      ensures history == old(history) + [RFC_Connected]
    {
      hide Once, All, Follows, RfcommService.ListsOk, RfcommService.FlagsOk, RfcommService.Exact;
      sock := true;
      inbound := true;
      FollowsOn(history, state, RFC_Connected);
      state := RFC_Connected;
      history := history + [state];
      refs := refs + 1;
    }

    /** A session that has just stopped being idle is not to be retried. */
    method Unlist()
      requires Aside() && Ok() && !Wants() && (this in svc.Listed() <==> autoreconnect)
      modifies svc
      ensures svc.Kept({}) && svc.submissions == old(svc.submissions) && svc.asked == old(svc.asked)
    {
      hide Once, All, Follows, RfcommService.ListsOk, RfcommService.FlagsOk, RfcommService.Exact;
      if autoreconnect {
        svc.RemoveAutoReconnect(this);
      }
    }

    method RfcommOperationTimeout()
      requires svc.Consistent() && this in svc.sessions && opTimeout.Some?
      modifies svc, svc.sessions
      ensures svc.Went({}) && svc.sessions == old(svc.sessions)
      ensures !svc.failed ==> old(history) + [RFC_Disconnected] <= history
    {
      assert state != RFC_Disconnected;
      Disconnect(true, false);
    }

    method AutoReconnect(submission: Submission) returns (ok: bool)
      requires svc.Consistent() && this in svc.sessions && state == RFC_Disconnected
      modifies svc, svc.sessions
      ensures svc.Went({this}) && svc.sessions == old(svc.sessions)
      ensures old(svc.asked) + [this] <= svc.asked
      ensures ok <==> old(svc.started) && submission.Queued?
      ensures ok && !svc.failed ==> notices > old(notices) && old(history) + [RFC_SdpLookupChannel] <= history
    {
      tries := tries + 1;
      ok := RfcommConnect(submission);
      if ok {
        var depth: nat := *;
        Notify(depth);
      }
    }
  }
}
