/**
 The dispatcher as a state machine over the value model of its heap, and what every
 run of it looks like from outside: a map from timer to absolute deadline.
 */
module TimerMachine {
  import opened Lists
  import opened TimerForest

  // ---- the machine ---------------------------------------------------------------------------

  /** Set and Cancel come from clients, Run from the event loop, Fire takes one timer off the run list. */
  datatype Event<T> = Set(timer: T, msec: nat) | Cancel(timer: T) | Run(ms: nat) | Fire

  datatype State<T> = State(heap: Forest<T>, runlist: seq<T>)

  ghost function Unlinked<T>(s: State<T>, t: T): State<T> {
    if t in s.runlist then s.(runlist := Splice(s.runlist, t, []))
    else if Has(s.heap, t) > 0 then s.(heap := Remove(s.heap, t))
    else s
  }

  /** A run of timers starts with an empty run list; firing needs a timer to fire. */
  ghost predicate Enabled<T>(s: State<T>, e: Event<T>) {
    match e
    case Run(_) => s.runlist == []
    case Fire => s.runlist != []
    case _ => true
  }

  ghost function Step<T>(s: State<T>, e: Event<T>): State<T>
    requires |s.heap| <= 1 && Enabled(s, e)
  {
    match e
    case Set(t, msec) =>
      var u := Unlinked(s, t);
      RemoveLength(s.heap, t);
      u.(heap := Add(u.heap, t, msec))
    case Cancel(t) => Unlinked(s, t)
    case Run(ms) => State(Settle(Expire(s.heap, ms).kept), Names(Expire(s.heap, ms).fired))
    case Fire => s.(runlist := s.runlist[1..])
  }

  /** What a client knows: the time that has passed, and when each pending timer is due. */
  datatype View<T> = View(clock: nat, due: map<T, int>)

  ghost function ViewStep<T>(v: View<T>, e: Event<T>, fired: seq<T>): View<T> {
    match e
    case Set(t, msec) => v.(due := v.due[t := v.clock + msec])
    case Cancel(t) => v.(due := v.due - {t})
    case Run(ms) => v.(clock := v.clock + ms)
    case Fire => v.(due := v.due - Elements(fired))
  }

  /**
   The heap holds the pending timers that have not been moved to the run list, each
   with its deadline as root path sum; the run list holds timers that are due.
   */
  ghost predicate Agrees<T>(s: State<T>, v: View<T>) {
    && |s.heap| <= 1
    && Unique(s.runlist)
    && Elements(s.runlist) <= v.due.Keys
    && Represents(s.heap, v.clock, v.due - Elements(s.runlist))
    && (forall t <- v.due :: if t in Elements(s.runlist) then v.due[t] <= v.clock else v.clock <= v.due[t])
  }

  /** The heap below the run list stands for the times left. */
  lemma AgreesLeft<T>(s: State<T>, v: View<T>) returns (m: map<T, int>)
    requires Agrees(s, v)
    ensures m == map t | t in v.due && t !in Elements(s.runlist) :: v.due[t] - v.clock
    ensures Represents(s.heap, 0, m)
  {
    var armed := v.due - Elements(s.runlist);
    RepresentsShift(s.heap, v.clock, -(v.clock as int), armed);
    m := map t | t in armed :: armed[t] - v.clock;
    assert (map t | t in armed :: armed[t] + -(v.clock as int)) == m;
  }

  lemma AgreesBack<T>(s: State<T>, v: View<T>, m: map<T, int>)
    requires Represents(s.heap, 0, m)
    requires m == map t | t in v.due && t !in Elements(s.runlist) :: v.due[t] - v.clock
    ensures Represents(s.heap, v.clock, v.due - Elements(s.runlist))
  {
    RepresentsShift(s.heap, 0, v.clock, m);
    assert (map t | t in m :: m[t] + v.clock) == v.due - Elements(s.runlist);
  }

  lemma CancelAgrees<T>(s: State<T>, v: View<T>, t: T)
    requires Agrees(s, v)
    ensures Agrees(Unlinked(s, t), v.(due := v.due - {t}))
  {
    hide Represents, Has, At, Remove, Splice, Unique;
    var s', v' := Unlinked(s, t), v.(due := v.due - {t});
    var m := AgreesLeft(s, v);
    SpliceOut(s.runlist, t);
    if t in s.runlist {
      AgreesBack(s', v', m);
    } else if t in m {
      RepresentsPathSum(s.heap, 0, m, t);
      RemoveModel(s.heap, t, m);
      AgreesBack(s', v', m - {t});
    } else {
      RepresentsAbsent(s.heap, 0, m, t);
      AgreesBack(s', v', m);
    }
  }

  lemma SetAgrees<T>(s: State<T>, v: View<T>, t: T, msec: nat)
    requires Agrees(s, v)
    ensures Agrees(Step(s, Set(t, msec)), v.(due := v.due[t := v.clock + msec]))
  {
    hide Represents, Has, At, Remove, Splice, Unique, Add, Nodes;
    var u, w := Unlinked(s, t), v.(due := v.due - {t});
    CancelAgrees(s, v, t);
    var m := AgreesLeft(u, w);
    AddModel(u.heap, t, msec, m);
    AgreesBack(Step(s, Set(t, msec)), v.(due := v.due[t := v.clock + msec]), m[t := msec]);
  }

  lemma RunAgrees<T>(s: State<T>, v: View<T>, ms: nat)
    requires Agrees(s, v) && s.runlist == []
    ensures Agrees(Step(s, Run(ms)), v.(clock := v.clock + ms))
    ensures forall t <- v.due :: t in Step(s, Run(ms)).runlist <==> v.due[t] <= v.clock + ms
  {
    hide Represents, Expire, Settle, Has, At;
    var s', v' := Step(s, Run(ms)), v.(clock := v.clock + ms);
    var m := AgreesLeft(s, v);
    RunKeeps(s.heap, ms, m);
    RunFires(s.heap, ms, m);
    assert m.Keys == v.due.Keys;
    assert forall t <- v.due :: t in s'.runlist <==> m[t] <= ms;
    AgreesBack(s', v', After(m, ms));
  }

  lemma FireAgrees<T>(s: State<T>, v: View<T>)
    requires Agrees(s, v) && s.runlist != []
    ensures v.due[s.runlist[0]] <= v.clock
    ensures Agrees(Step(s, Fire), v.(due := v.due - {s.runlist[0]}))
  {
    hide Represents;
    var t, tail := s.runlist[0], s.runlist[1..];
    assert s.runlist == [t] + tail;
    UniqueCons(t, tail);
    assert t in Elements(s.runlist);
    assert v.due - {t} - Elements(tail) == v.due - Elements(s.runlist);
  }

  // ---- all runs ------------------------------------------------------------------------------

  /** A run from the idle dispatcher; every event is enabled where it happens. */
  ghost predicate Legal<T>(events: seq<Event<T>>)
    decreases |events|, 0
  {
    events == [] ||
    (Legal(events[..|events| - 1]) && Enabled(Exec(events[..|events| - 1]), events[|events| - 1]))
  }

  ghost function Exec<T>(events: seq<Event<T>>): (s: State<T>)
    requires Legal(events)
    ensures |s.heap| <= 1
    decreases |events|, 1
  {
    if events == [] then State([], [])
    else
      var s := Exec(events[..|events| - 1]);
      var e := events[|events| - 1];
      RemoveLengths(s.heap);
      Step(s, e)
  }

  lemma RemoveLengths<T>(f: Forest<T>)
    ensures forall t :: |Remove(f, t)| <= |f|
  {
    forall t
      ensures |Remove(f, t)| <= |f|
    {
      RemoveLength(f, t);
    }
  }

  /** The same run as the client sees it: deadlines set, cancelled, and fired. */
  ghost function Observe<T>(events: seq<Event<T>>): View<T>
    requires Legal(events)
    decreases |events|, 2
  {
    if events == [] then View(0, map[])
    else
      var before := events[..|events| - 1];
      ViewStep(Observe(before), events[|events| - 1], Front(Exec(before).runlist))
  }

  function Front<T>(s: seq<T>): seq<T> {
    if s == [] then [] else s[..1]
  }

  lemma StepAgrees<T>(s: State<T>, v: View<T>, e: Event<T>)
    requires Agrees(s, v) && Enabled(s, e)
    ensures Agrees(Step(s, e), ViewStep(v, e, Front(s.runlist)))
  {
    hide Agrees, Step, Unlinked, Represents, Expire, Settle, Names, Elements;
    AgreesHead(s, v);
    match e
    case Set(t, msec) => SetAgrees(s, v, t, msec);
    case Cancel(t) => CancelAgrees(s, v, t);
      StepCancel(s, t);
    case Run(ms) => RunAgrees(s, v, ms);
    case Fire =>
      FireAgrees(s, v);
      FrontOne(s.runlist);
  }

  lemma FrontOne<T>(s: seq<T>)
    requires s != []
    ensures Elements(Front(s)) == {s[0]}
  {
  }

  lemma StepCancel<T>(s: State<T>, t: T)
    requires |s.heap| <= 1
    ensures Step(s, Cancel(t)) == Unlinked(s, t)
  {
  }

  lemma AgreesHead<T>(s: State<T>, v: View<T>)
    requires Agrees(s, v)
    ensures |s.heap| <= 1
    ensures forall t <- s.runlist :: t in v.due && v.due[t] <= v.clock
  {
    assert forall t <- s.runlist :: t in Elements(s.runlist);
  }

  /**
   Over every run the heap and the run list are the map of deadlines, and every timer that
   fires is one that is due: it was set, not cancelled since, and its whole timeout has passed.
   */
  lemma {:induction false} EveryRun<T>(events: seq<Event<T>>)
    requires Legal(events)
    ensures Agrees(Exec(events), Observe(events))
    ensures forall t <- Exec(events).runlist :: t in Observe(events).due && Observe(events).due[t] <= Observe(events).clock
    decreases |events|
  {
    if events != [] {
      var before, e := events[..|events| - 1], events[|events| - 1];
      EveryRun(before);
      hide Agrees, Step, ViewStep;
      StepAgrees(Exec(before), Observe(before), e);
    }
    AgreesHead(Exec(events), Observe(events));
  }

  /** The timeout last set on each timer. */
  ghost function LastSet<T>(events: seq<Event<T>>): map<T, nat>
    decreases |events|
  {
    if events == [] then map[]
    else
      var before := LastSet(events[..|events| - 1]);
      match events[|events| - 1]
      case Set(t, msec) => before[t := msec]
      case _ => before
  }

  /** No timer is ever further from being due than the timeout last set on it. */
  lemma {:induction false} LeftBounded<T>(events: seq<Event<T>>)
    requires Legal(events)
    ensures forall t <- Observe(events).due ::
      t in LastSet(events) && Observe(events).due[t] <= Observe(events).clock + LastSet(events)[t]
    decreases |events|
  {
    if events != [] {
      LeftBounded(events[..|events| - 1]);
    }
  }

  /** So the times left in the heap, and with them all sums of deltas on a path, are at most the longest timeout set. */
  lemma HeapBounded<T>(events: seq<Event<T>>, longest: nat) returns (m: map<T, int>)
    requires Legal(events) && forall t <- LastSet(events) :: LastSet(events)[t] <= longest
    ensures Represents(Exec(events).heap, 0, m) && forall t <- m :: m[t] <= longest
  {
    EveryRun(events);
    LeftBounded(events);
    m := AgreesLeft(Exec(events), Observe(events));
  }

  /** Nothing is late: once `ms` have been run, the run list is exactly what is due by then. */
  lemma NothingLate<T>(events: seq<Event<T>>, ms: nat)
    requires Legal(events) && Enabled(Exec(events), Run(ms))
    ensures var v := Observe(events);
            forall t <- v.due :: t in Step(Exec(events), Run(ms)).runlist <==> v.due[t] <= v.clock + ms
  {
    EveryRun(events);
    RunAgrees(Exec(events), Observe(events), ms);
  }
}
