/**
 * The SDP helper process queue of libhfp/bt.cpp: requests go one at a time
 * through a pipe to a helper process, and a request in flight can be
 * cancelled.  Both ends of the pipes are part of the model.
 */
module Sdp {
  import opened Lists

  const ECONNRESET := 104

  /** What travels through the pipes: the question and, when complete, the answer. */
  datatype SdpTaskParams = SdpTaskParams(bdaddr: int, svclass: int, complete: bool, errno: int, channel: int)

  /** The answer is to this question. */
  predicate Answers(question: SdpTaskParams, answer: SdpTaskParams) {
    answer.complete && answer.bdaddr == question.bdaddr && answer.svclass == question.svclass
  }

  class SdpTask {
    var params: SdpTaskParams
    /** How often the submitter was called back, and whether it cancelled, since the last submission. */
    ghost var calls: nat
    ghost var cancelled: bool

    constructor (bdaddr: int, svclass: int)
    {
      params := SdpTaskParams(bdaddr, svclass, false, 0, 0);
      calls, cancelled := 0, false;
    }
  }

  class SdpAsyncTaskHandler {
    var running: bool
    var tasks: seq<SdpTask>
    var currentAborted: bool
    /** The request pipe, what the helper is working on, and the response pipe. */
    var rqpipe: seq<SdpTaskParams>
    var working: seq<SdpTaskParams>
    var rspipe: seq<SdpTaskParams>
    /** The task whose request is outstanding, and every task ever submitted. */
    ghost var asked: SdpTask?
    ghost var known: set<SdpTask>

    /** Requests sent and not yet answered. */
    ghost function Outstanding(): seq<SdpTaskParams>
      reads this
    {
      rqpipe + working + rspipe
    }

    /** A task waits, was called back once, or was cancelled and never called. */
    ghost predicate TasksOk(but: set<SdpTask>)
      reads this, known
    {
      && Unique(tasks)
      && Elements(tasks) <= known - but
      && (forall t <- known - but ::
            if t in Elements(tasks) then t.calls == 0 && !t.cancelled
            else (t.calls == 1 && !t.cancelled) || (t.calls == 0 && t.cancelled))
    }

    /** One request at most is outstanding: the first task's, or that of one cancelled while it was. */
    ghost predicate PipesOk()
      reads this, tasks
    {
      && (|Outstanding()| == if tasks != [] || currentAborted then 1 else 0)
      && (forall p <- rspipe :: p.complete)
      && (tasks != [] && !currentAborted ==>
            && asked == tasks[0]
            && Outstanding()[0].bdaddr == asked.params.bdaddr
            && Outstanding()[0].svclass == asked.params.svclass)
    }

    ghost predicate Valid()
      reads this, tasks, known
    {
      && TasksOk({})
      && (if running then PipesOk() else tasks == [] && Outstanding() == [])
    }

    constructor ()
      ensures Valid() && !running && !currentAborted && known == {}
    {
      running, tasks, currentAborted := false, [], false;
      rqpipe, working, rspipe := [], [], [];
      asked, known := null, {};
    }

    /** The source asserts that no request is thought to be in flight. */
    method SdpCreateThread(forked: bool) returns (ok: bool)
      requires Valid() && !running && !currentAborted
      modifies this`running
      ensures Valid() && running == ok == forked
    {
      running := forked;
      ok := forked;
    }

    // ---- the helper's side --------------------------------------------------

    method HelperRead()
      requires Valid() && running && rqpipe != [] && working == []
      modifies this`rqpipe, this`working
      ensures Valid() && working == [old(rqpipe)[0]] && rqpipe == old(rqpipe)[1..]
    {
      assert rqpipe == [rqpipe[0]];
      working := [rqpipe[0]];
      rqpipe := rqpipe[1..];
    }

    /** The helper answers the question it is working on, one way or another. */
    method HelperWrite(errno: int, channel: int)
      requires Valid() && running && working != []
      modifies this`working, this`rspipe
      ensures Valid() && working == [] && |rspipe| == 1
      ensures rspipe[0] == old(working)[0].(complete := true, errno := errno, channel := channel)
    {
      assert rqpipe == [] && rspipe == [] && working == [working[0]];
      rspipe := rspipe + [working[0].(complete := true, errno := errno, channel := channel)];
      working := [];
    }

    // ---- the queue ------------------------------------------------------------

    /** Takes a task off the queue; if its request was outstanding the answer will be thrown away. */
    method SdpCancel(t: SdpTask, ghost but: set<SdpTask> := {})
      requires t in Elements(tasks) && TasksOk(but)
      requires running ==> PipesOk()
      modifies this`tasks, this`currentAborted, t`cancelled
      ensures TasksOk(but) && (running ==> PipesOk())
      ensures t.cancelled && tasks == Splice(old(tasks), t, []) && |tasks| == |old(tasks)| - 1
      ensures forall i :: 0 <= i < |old(tasks)| && old(tasks)[i] == t ==> tasks == old(tasks)[..i] + old(tasks)[i + 1..]
      ensures Elements(tasks) == old(Elements(tasks)) - {t}
      ensures currentAborted <==> old(currentAborted) || t == old(tasks)[0]
    {
      SpliceOut(tasks, t);
      SpliceShorter(tasks, t);
      forall i | 0 <= i < |tasks| && tasks[i] == t
        ensures Splice(tasks, t, []) == tasks[..i] + tasks[i + 1..]
      {
        SpliceAt(tasks, i);
      }
      if t == tasks[0] {
        currentAborted := true;
      }
      tasks := Splice(tasks, t, []);
      t.cancelled := true;
    }

    method Enqueue(t: SdpTask)
      requires TasksOk({t}) && t !in Elements(tasks) && t.calls == 0 && !t.cancelled
      modifies this`tasks, this`known
      ensures TasksOk({}) && tasks == old(tasks) + [t] && known == old(known) + {t}
    {
      UniqueSnoc(tasks, t);
      known := known + {t};
      tasks := tasks + [t];
    }

    method TellFirst(ghost but: set<SdpTask>)
      requires tasks != [] && TasksOk(but)
      modifies this`tasks, tasks[0]
      ensures TasksOk(but) && tasks == old(tasks)[1..]
      ensures var t := old(tasks)[0];
        && t !in Elements(tasks) && Elements(tasks) == old(Elements(tasks)) - {t}
        && t.calls == 1 && t.params == old(t.params).(complete := true, errno := ECONNRESET)
    {
      var t := tasks[0];
      assert tasks == [t] + tasks[1..];
      UniqueCons(t, tasks[1..]);
      assert t in Elements(tasks);
      tasks := tasks[1..];
      t.params := t.params.(complete := true, errno := ECONNRESET);
      t.calls := t.calls + 1;
    }

    // ---- requests -----------------------------------------------------------

    /**
     * Everything stops.  Tasks still queued are told so; then every session is disconnected, and cancels what it
     * has submitted and not been told about.  That is nothing, but for a task whose answer is in hand: it is off
     * the queue already, which the assertion in SdpCancel rejects.
     */
    method InvoluntaryStop(cancels: seq<seq<int>>, inHand: SdpTask?) returns (stands: bool)
      requires running && TasksOk(Hand(inHand)) && Hand(inHand) !! Elements(tasks)
      modifies this, known - Hand(inHand)
      ensures !running && tasks == [] && Outstanding() == [] && known == old(known)
      ensures TasksOk(Hand(inHand))
      ensures currentAborted <==> LeavesAborted(|old(tasks)|, cancels)
      ensures old(tasks) != [] ==> Told(old(tasks)[0])
      ensures forall i :: 0 <= i < |old(tasks)| ==>
        if Lives(|old(tasks)|, cancels, i) then Told(old(tasks)[i]) else old(tasks)[i].cancelled
      ensures stands <==> inHand == null
    {
      SdpShutdown(cancels, Hand(inHand));
      stands := inHand == null || inHand in tasks;
    }

    /** Writes the first task's request; `written` says whether the pipe took it.  If not, everything stops. */
    method SdpNextQueue(written: bool, cancels: seq<seq<int>>, inHand: SdpTask? := null) returns (stands: bool)
      requires running && !currentAborted && tasks != [] && Outstanding() == []
      requires TasksOk(Hand(inHand)) && Hand(inHand) !! Elements(tasks)
      modifies this, known - Hand(inHand)
      ensures TasksOk(Hand(inHand)) && known == old(known) && running == written
      ensures if running then PipesOk() && tasks == old(tasks) && !currentAborted else tasks == [] && Outstanding() == []
      ensures running ==> forall t <- known - Hand(inHand) :: t.calls == old(t.calls) && t.params == old(t.params)
      ensures running ==> rqpipe == [tasks[0].params] && working == rspipe == []
      ensures !running ==> Told(old(tasks)[0])
      ensures stands <==> written || inHand == null
    {
      if written {
        rqpipe := [tasks[0].params];
        asked := tasks[0];
        stands := true;
      } else {
        stands := InvoluntaryStop(cancels, inHand);
      }
    }

    /** If the write of its own request fails, a task is called back before its submission returns. */
    method SdpQueue(t: SdpTask, written: bool, cancels: seq<seq<int>>) returns (ok: bool)
      requires Valid() && t !in tasks
      modifies this, known, t
      ensures Valid() && ok == old(running)
      ensures ok ==> known == old(known) + {t}
      ensures ok ==> running == (written || old(tasks != [] || currentAborted))
      ensures ok && running ==> tasks == old(tasks) + [t] && t.calls == 0
      ensures ok && running ==> if old(tasks == [] && !currentAborted) then rqpipe == [t.params] && working == [] else
        unchanged(this`rqpipe) && unchanged(this`working) && unchanged(this`rspipe)
      ensures ok && running ==> currentAborted == old(currentAborted)
      ensures ok && !running ==> Told(t)
      ensures !ok ==> unchanged(this) && t.calls == old(t.calls)
    {
      if !running {
        return false;
      }
      var wasIdle := tasks == [] && !currentAborted;
      t.calls, t.cancelled := 0, false;
      Enqueue(t);
      if wasIdle {
        assert tasks == [t];
        var stands := SdpNextQueue(written, cancels);
      }
      ok := true;
    }

    /**
     * The helper is gone: every task left is told so, once.  In each callback the client may cancel any tasks
     * that have not been told yet: `cancels[k]` holds, for the k-th callback, positions in the queue, one after
     * the other; positions out of range stand for none.
     */
    method SdpShutdown(cancels: seq<seq<int>>, ghost but: set<SdpTask> := {})
      requires TasksOk(but)
      modifies this, known - but
      ensures !running && tasks == [] && Outstanding() == [] && known == old(known)
      ensures TasksOk(but)
      ensures currentAborted <==> LeavesAborted(|old(tasks)|, cancels)
      ensures old(tasks) != [] ==> Told(old(tasks)[0])
      ensures forall i :: 0 <= i < |old(tasks)| ==>
        if Lives(|old(tasks)|, cancels, i) then Told(old(tasks)[i]) else old(tasks)[i].cancelled
      ensures cancels == [] ==> forall i :: 0 <= i < |old(tasks)| ==> Told(old(tasks)[i])
      ensures forall t <- known - but ::
        if t in old(Elements(tasks)) then t.cancelled || Told(t)
        else t.calls == old(t.calls) && t.params == old(t.params)
    {
      hide Lives, LeavesAborted, AllFated;
      NoneCancelled(|tasks|);
      rqpipe, working, rspipe := [], [], [];
      running := false;
      currentAborted := false;
      ghost var all, n := tasks, |tasks|;
      ghost var lives := seq(n, i requires 0 <= i < n => Lives(n, cancels, i));
      var left := cancels;
      ghost var at := seq(|tasks|, i => i);
      AtStart(lives, left);
      while tasks != []
        invariant TasksOk(but) && !running && known == old(known) && Outstanding() == []
        invariant Elements(tasks) <= Elements(all)
        invariant LeavesAborted(|all|, cancels) <==> currentAborted || LeavesAborted(|tasks|, left)
        invariant AllFated(all, at, left, lives)
        invariant forall t <- known - but :: t !in Elements(all) ==> t.calls == old(t.calls) && t.params == old(t.params)
        decreases |tasks|
      {
        at := TurnFated(left, all, at, lives, but);
        left := Rest(left);
      }
      AtEnd(all, at, left, lives);
    }

    lemma AtStart(lives: seq<bool>, cancels: seq<seq<int>>)
      requires |lives| == |tasks| && forall i :: 0 <= i < |tasks| ==> lives[i] == Lives(|tasks|, cancels, i)
      ensures AllFated(tasks, seq(|tasks|, i => i), cancels, lives)
    {
    }

    lemma AtEnd(all: seq<SdpTask>, at: seq<int>, left: seq<seq<int>>, lives: seq<bool>)
      requires tasks == [] && AllFated(all, at, left, lives)
      ensures |all| == |lives| && forall i :: 0 <= i < |all| ==> if lives[i] then Told(all[i]) else all[i].cancelled
      ensures !LeavesAborted(|tasks|, left)
    {
    }

    /** Every task of `all` is at its place, and its fate is told already or still to be decided. */
    ghost predicate AllFated(all: seq<SdpTask>, at: seq<int>, left: seq<seq<int>>, lives: seq<bool>)
      reads this`tasks, all
    {
      && |all| == |at| == |lives|
      && (forall i :: 0 <= i < |all| ==> At(tasks, at[i], all[i]))
      && (forall i :: 0 <= i < |all| ==> Fated(all[i], at[i], |tasks|, left, lives[i]))
    }

    method TurnFated(left: seq<seq<int>>, ghost all: seq<SdpTask>, ghost at: seq<int>, ghost lives: seq<bool>,
                     ghost but: set<SdpTask>)
      returns (ghost now: seq<int>)
      requires tasks != [] && TasksOk(but) && !running && AllFated(all, at, left, lives)
      requires Elements(tasks) <= Elements(all) <= known - but
      modifies this`tasks, this`currentAborted, known - but
      ensures TasksOk(but) && Elements(tasks) <= old(Elements(tasks)) && |tasks| < |old(tasks)|
      ensures AllFated(all, now, Rest(left), lives)
      ensures currentAborted || LeavesAborted(|tasks|, Rest(left))
         <==> old(currentAborted) || LeavesAborted(|old(tasks)|, left)
      ensures forall t <- known - but :: t !in Elements(all) ==> t.calls == old(t.calls) && t.params == old(t.params)
    {
      hide Lives, Where, Remaining, HitsFirst, First, Rest, LeavesAborted;
      ghost var n := |tasks|;
      TurnDecides(n, left);
      assert forall i :: 0 <= i < |at| && at[i] > 0 ==> Decided(n, left, at[i]);
      now := seq(|at|, i requires 0 <= i < |at| => if at[i] <= 0 then -1 else Where(n - 1, First(left), at[i] - 1));
      assert forall i :: 0 <= i < |all| ==> all[i] in Elements(all);
      assert forall j :: 0 <= j < n ==> tasks[j] in Elements(tasks);
      Turn(First(left), but);
    }

    /** One turn of that: the first task is told, and from its callback the client cancels tasks at these positions. */
    method Turn(positions: seq<int>, ghost but: set<SdpTask>)
      requires tasks != [] && TasksOk(but) && !running
      modifies this`tasks, this`currentAborted, known - but
      ensures TasksOk(but) && Elements(tasks) <= old(Elements(tasks))
      ensures |tasks| == Remaining(|old(tasks)| - 1, positions)
      ensures currentAborted <==> old(currentAborted) || HitsFirst(|old(tasks)| - 1, positions)
      ensures Told(old(tasks)[0]) && At(tasks, -1, old(tasks)[0])
      ensures forall i :: 0 < i < |old(tasks)| ==> At(tasks, Where(|old(tasks)| - 1, positions, i - 1), old(tasks)[i])
      ensures forall t <- known - but :: t != old(tasks)[0] ==>
        && t.calls == old(t.calls) && t.params == old(t.params)
        && (t.cancelled <==> old(t.cancelled) || (t in old(Elements(tasks)) && t !in Elements(tasks)))
    {
      assert tasks[0] in Elements(tasks);
      ghost var was := tasks;
      TellFirst(but);
      CancelSome(positions, but);
      assert forall i :: 0 < i < |was| ==> was[i] == was[1..][i - 1];
    }

    /** Where a task stands when some callbacks have been made: told, cancelled, or at `at` of the `n` still queued. */
    static ghost predicate Fated(t: SdpTask, at: int, n: nat, left: seq<seq<int>>, lives: bool)
      reads t
    {
      if at < 0 then if lives then Told(t) else t.cancelled
      else at < n && (lives <==> Lives(n, left, at))
    }

    static ghost predicate Told(t: SdpTask)
      reads t
    {
      t.calls == 1 && !t.cancelled && t.params.complete && t.params.errno == ECONNRESET
    }

    /** What a callback does during a shutdown: it cancels tasks at these positions, one after the other. */
    method CancelSome(positions: seq<int>, ghost but: set<SdpTask>)
      requires TasksOk(but) && !running
      modifies this`tasks, this`currentAborted, known - but
      ensures TasksOk(but) && Elements(tasks) <= old(Elements(tasks))
      ensures |tasks| == Remaining(|old(tasks)|, positions)
      ensures currentAborted <==> old(currentAborted) || HitsFirst(|old(tasks)|, positions)
      ensures forall t <- known - but ::
        && t.calls == old(t.calls) && t.params == old(t.params)
        && (t.cancelled <==> old(t.cancelled) || (t in old(Elements(tasks)) && t !in Elements(tasks)))
      ensures forall i :: 0 <= i < |old(tasks)| ==> At(tasks, Where(|old(tasks)|, positions, i), old(tasks)[i])
    {
      hide Splice;
      var k := 0;
      ghost var at := seq(|tasks|, i => i);
      while k < |positions|
        invariant k <= |positions| && |at| == |old(tasks)|
        invariant forall i :: 0 <= i < |at| ==> At(tasks, at[i], old(tasks)[i])
        invariant forall i :: 0 <= i < |at| ==>
          Where(|old(tasks)|, positions, i) == if at[i] < 0 then -1 else Where(|tasks|, positions[k..], at[i])
        invariant TasksOk(but) && Elements(tasks) <= old(Elements(tasks))
        invariant Remaining(|tasks|, positions[k..]) == Remaining(|old(tasks)|, positions)
        invariant currentAborted || HitsFirst(|tasks|, positions[k..])
             <==> old(currentAborted) || HitsFirst(|old(tasks)|, positions)
        invariant forall t <- known - but ::
          && t.calls == old(t.calls) && t.params == old(t.params)
          && (t.cancelled <==> old(t.cancelled) || (t in old(Elements(tasks)) && t !in Elements(tasks)))
      {
        assert positions[k..][1..] == positions[k + 1..];
        at := CancelAt(positions[k], at, but);
        k := k + 1;
      }
    }

    /**
     * A response arrives, or the helper has died.  A response to a cancelled request is thrown away; any other
     * goes to the first task, whose question it answers, and only that task is called back.  It is called back
     * after the next request has been written.  If there is one and its write fails, everything stops with the
     * answer in hand, and an assertion fails.
     */
    method SdpDataReady(dead: bool, written: bool, cancels: seq<seq<int>>) returns (stands: bool)
      requires Valid() && running && (dead || rspipe != [])
      modifies this, known
      ensures known == old(known)
      ensures stands <==> dead || old(currentAborted) || |old(tasks)| == 1 || written
      ensures stands ==> Valid()
      ensures stands && dead ==> !running
      ensures dead ==> forall i :: 0 <= i < |old(tasks)| ==>
        if Lives(|old(tasks)|, cancels, i) then Told(old(tasks)[i]) else old(tasks)[i].cancelled
      ensures stands && !dead ==> running == (written || (if old(currentAborted) then old(tasks) == [] else |old(tasks)| == 1))
      ensures stands && !dead && running ==> tasks == if old(currentAborted) then old(tasks) else old(tasks)[1..]
      ensures stands && !dead && running ==> !currentAborted
      ensures stands && !dead && !old(currentAborted) ==>
        var t := old(tasks)[0];
        && t.calls == 1 && !t.cancelled && t.params == old(rspipe)[0]
        && t.params.complete && t.params.bdaddr == old(t.params.bdaddr) && t.params.svclass == old(t.params.svclass)
      ensures stands && !dead && running ==> forall t <- known ::
        t.calls == old(t.calls) || (!old(currentAborted) && t == old(tasks)[0])
      ensures !stands ==> !running && old(tasks)[0].calls == 0 && Told(old(tasks)[1])
    {
      stands := true;
      if dead {
        stands := InvoluntaryStop(cancels, null);
        return;
      }
      var response := rspipe[0];
      assert Outstanding() == [response];
      rspipe := rspipe[1..];
      if currentAborted {
        currentAborted := false;
        if tasks != [] {
          stands := SdpNextQueue(written, cancels);
        }
      } else {
        var t := tasks[0];
        assert t in Elements(tasks);
        TakeAnswer(response);
        if tasks != [] {
          stands := SdpNextQueue(written, cancels, t);
        }
        if stands {
          t.calls := t.calls + 1;
        }
      }
    }

    method TakeAnswer(response: SdpTaskParams)
      requires tasks != [] && TasksOk({}) && Answers(tasks[0].params, response)
      modifies this`tasks, tasks[0]
      ensures tasks == old(tasks)[1..]
      ensures var t := old(tasks)[0];
        && TasksOk({t}) && t in known && t !in Elements(tasks)
        && t.params == response && t.calls == 0 && !t.cancelled
    {
      var t := tasks[0];
      assert tasks == [t] + tasks[1..];
      UniqueCons(t, tasks[1..]);
      assert t in Elements(tasks);
      tasks := tasks[1..];
      t.params := response;
    }

    /** The task at this position, if it is one; `at` are places in the queue, and `now` where they have moved to. */
    method CancelAt(i: int, ghost at: seq<int>, ghost but: set<SdpTask>) returns (ghost now: seq<int>)
      requires TasksOk(but) && !running
      modifies this`tasks, this`currentAborted, known - but
      ensures TasksOk(but) && Elements(tasks) <= old(Elements(tasks))
      ensures |tasks| == if 0 <= i < |old(tasks)| then |old(tasks)| - 1 else |old(tasks)|
      ensures currentAborted <==> old(currentAborted) || (i == 0 && old(tasks) != [])
      ensures |now| == |at|
      ensures !(0 <= i < |old(tasks)|) ==> now == at
      ensures 0 <= i < |old(tasks)| ==> forall j :: 0 <= j < |at| ==>
        (now[j] == if at[j] < 0 || at[j] == i then -1 else if at[j] > i then at[j] - 1 else at[j])
      ensures forall j, t :: 0 <= j < |at| && At(old(tasks), at[j], t) ==> At(tasks, now[j], t)
      ensures forall t <- known - but ::
        && t.calls == old(t.calls) && t.params == old(t.params)
        && (t.cancelled <==> old(t.cancelled) || (t in old(Elements(tasks)) && t !in Elements(tasks)))
    {
      now := at;
      if 0 <= i < |tasks| {
        assert tasks[i] in Elements(tasks);
        IndexOfFirst(i);
        ghost var was := tasks;
        SdpCancel(tasks[i], but);
        AtMoved(was, i, tasks);
        now := seq(|at|, j requires 0 <= j < |at| => if at[j] < 0 || at[j] == i then -1 else if at[j] > i then at[j] - 1 else at[j]);
      }
    }

    static ghost predicate At(tasks: seq<SdpTask>, j: int, t: SdpTask) {
      if j < 0 then t !in Elements(tasks) else j < |tasks| && tasks[j] == t
    }

    static lemma AtMoved(was: seq<SdpTask>, i: nat, now: seq<SdpTask>)
      requires Unique(was) && i < |was| && now == was[..i] + was[i + 1..]
      ensures forall j, t :: At(was, j, t) ==> At(now, if j < 0 || j == i then -1 else if j > i then j - 1 else j, t)
    {
    }

    lemma IndexOfFirst(i: nat)
      requires Unique(tasks) && i < |tasks|
      ensures tasks[i] == tasks[0] <==> i == 0
    {
    }
  }

  /** The answered task, if there is one. */
  ghost function Hand(inHand: SdpTask?): set<SdpTask> { if inHand == null then {} else {inHand} }

  predicate InRange(i: int, n: nat) { 0 <= i < n }

  /** How many of `n` tasks are left when those at these positions are cancelled one after the other. */
  function Remaining(n: nat, positions: seq<int>): (m: nat)
    ensures m <= n
    decreases |positions|
  {
    if positions == [] then n else Remaining(if InRange(positions[0], n) then n - 1 else n, positions[1..])
  }

  /** Where the one at `i` is then, or -1 if it was cancelled. */
  function Where(n: nat, positions: seq<int>, i: nat): (j: int)
    decreases |positions|
  {
    if positions == [] then i
    else if !InRange(positions[0], n) then Where(n, positions[1..], i)
    else if positions[0] == i then -1
    else Where(n - 1, positions[1..], if positions[0] < i then i - 1 else i)
  }

  lemma {:induction false} WhereInRange(n: nat, positions: seq<int>, i: nat)
    requires i < n
    ensures -1 <= Where(n, positions, i) < Remaining(n, positions)
    decreases |positions|
  {
    if positions != [] && positions[0] != i {
      if InRange(positions[0], n) {
        WhereInRange(n - 1, positions[1..], if positions[0] < i then i - 1 else i);
      } else {
        WhereInRange(n, positions[1..], i);
      }
    }
  }

  /** Whether, of `n` tasks told in turn, the one at `i` is told: nobody cancels it before. */
  predicate Lives(n: nat, cancels: seq<seq<int>>, i: nat)
    requires i < n
    decreases n
  {
    i == 0 || cancels == []
    || (WhereInRange(n - 1, cancels[0], i - 1);
        var j := Where(n - 1, cancels[0], i - 1);
        j >= 0 && Lives(Remaining(n - 1, cancels[0]), cancels[1..], j))
  }

  function First(cancels: seq<seq<int>>): seq<int> { if cancels == [] then [] else cancels[0] }

  function Rest(cancels: seq<seq<int>>): seq<seq<int>> { if cancels == [] then [] else cancels[1..] }

  /** What the first turn decides about a task at `i`, and what it leaves to the others. */
  ghost predicate Decided(n: nat, cancels: seq<seq<int>>, i: nat)
    requires 0 < i < n
  {
    var j := Where(n - 1, First(cancels), i - 1);
    if Lives(n, cancels, i) then
      0 <= j < Remaining(n - 1, First(cancels)) && Lives(Remaining(n - 1, First(cancels)), Rest(cancels), j)
    else j < 0 || (j < Remaining(n - 1, First(cancels)) && !Lives(Remaining(n - 1, First(cancels)), Rest(cancels), j))
  }

  lemma TurnDecides(n: nat, cancels: seq<seq<int>>)
    requires n > 0
    ensures LeavesAborted(n, cancels)
       <==> HitsFirst(n - 1, First(cancels)) || LeavesAborted(Remaining(n - 1, First(cancels)), Rest(cancels))
    ensures Lives(n, cancels, 0)
    ensures forall i :: 0 < i < n ==> Decided(n, cancels, i)
  {
    forall i | 0 < i < n
      ensures Decided(n, cancels, i)
    {
      LivesOn(n, cancels, i);
    }
  }

  lemma NoneLeft(cancels: seq<seq<int>>)
    ensures !LeavesAborted(0, cancels)
  {
  }

  lemma NoneCancelled(n: nat)
    ensures forall i :: 0 <= i < n ==> Lives(n, [], i)
    ensures n > 0 ==> forall cancels :: Lives(n, cancels, 0)
  {
  }

  lemma LivesOn(n: nat, cancels: seq<seq<int>>, i: nat)
    requires 0 < i < n
    ensures var j := Where(n - 1, First(cancels), i - 1);
      && j < Remaining(n - 1, First(cancels))
      && (Lives(n, cancels, i) <==> j >= 0 && Lives(Remaining(n - 1, First(cancels)), Rest(cancels), j))
  {
    WhereInRange(n - 1, First(cancels), i - 1);
  }

  /** Whether one of them is the first at its time. */
  predicate HitsFirst(n: nat, positions: seq<int>)
    decreases |positions|
  {
    positions != []
    && ((positions[0] == 0 && n > 0)
        || HitsFirst(if InRange(positions[0], n) then n - 1 else n, positions[1..]))
  }

  /** Whether, of `n` tasks told in turn, some callback cancels the task next in line. */
  predicate LeavesAborted(n: nat, cancels: seq<seq<int>>)
    decreases n
  {
    n > 0 && cancels != []
    && (HitsFirst(n - 1, cancels[0]) || LeavesAborted(Remaining(n - 1, cancels[0]), cancels[1..]))
  }

  /** That needs a callback that cancels the first of those left. */
  lemma {:induction false} AbortedByNext(n: nat, cancels: seq<seq<int>>)
    requires LeavesAborted(n, cancels)
    ensures exists positions <- cancels :: 0 in positions
    decreases n
  {
    if HitsFirst(n - 1, cancels[0]) {
      HitsByZero(n - 1, cancels[0]);
      assert cancels[0] in cancels;
    } else {
      AbortedByNext(Remaining(n - 1, cancels[0]), cancels[1..]);
      var positions :| positions in cancels[1..] && 0 in positions;
      assert positions in cancels;
    }
  }

  lemma {:induction false} HitsByZero(n: nat, positions: seq<int>)
    requires HitsFirst(n, positions)
    ensures 0 in positions
    decreases |positions|
  {
    if positions[0] != 0 || n == 0 {
      HitsByZero(if InRange(positions[0], n) then n - 1 else n, positions[1..]);
    }
  }

  /** Two lookups are waiting when the helper dies; told of the first, the client cancels the second. */
  method StaleAbort() returns (h: SdpAsyncTaskHandler)
    ensures h.Valid() && !h.running && h.currentAborted
  {
    h := new SdpAsyncTaskHandler();
    var a := new SdpTask(1, 0);
    var b := new SdpTask(2, 0);
    var ok := h.SdpCreateThread(true);
    ok := h.SdpQueue(a, true, []);
    ok := h.SdpQueue(b, true, []);
    assert h.tasks == [a, b];
    h.SdpShutdown([[0]]);
  }

  /** Two lookups, the first answered; the request of the second cannot be written. */
  method AnswerStranded() returns (h: SdpAsyncTaskHandler, a: SdpTask, stands: bool)
    ensures !stands && a.calls == 0
  {
    h := new SdpAsyncTaskHandler();
    a := new SdpTask(1, 0);
    var b := new SdpTask(2, 0);
    var ok := h.SdpCreateThread(true);
    ok := h.SdpQueue(a, true, []);
    ok := h.SdpQueue(b, true, []);
    assert h.tasks == [a, b];
    h.HelperRead();
    h.HelperWrite(0, 1);
    stands := h.SdpDataReady(false, false, []);
  }
}
