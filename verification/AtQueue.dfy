/**
 * The AT command queue of libhfp/hfp.cpp: one command is outstanding, the
 * others wait; clients hold pending-command objects that are called back.
 */
module AtQueue {
  import opened Lists
  import opened Options

  const TIMEOUT_COMMAND := 30000

  // ---------------------------------------------------------------------
  // The queue on values
  // ---------------------------------------------------------------------

  /** Commands accepted and not yet answered, the outstanding one first, and everything put on the wire. */
  datatype Queue<T> = Queue(connected: bool, commands: seq<T>, wire: seq<T>)

  /** `sends` says whether a write to the peer succeeds, should the event cause one. */
  datatype Event<T> =
    | Submit(cmd: T, top: bool, sends: bool)
    | Answer(finished: bool, sends: bool)
    | Withdraw(cmd: T)
    | Up
    | Down

  function Dropped<T>(q: Queue<T>): Queue<T> { Queue(false, [], q.wire) }

  function Started<T>(q: Queue<T>, sends: bool): Queue<T> {
    if q.commands == [] then q
    else if sends then Queue(q.connected, q.commands, q.wire + [q.commands[0]])
    else Dropped(q)
  }

  function Step<T(==)>(q: Queue<T>, e: Event<T>): Queue<T> {
    match e
    case Submit(cmd, top, sends) =>
      if !q.connected then q
      else if q.commands == [] then Started(Queue(true, [cmd], q.wire), sends)
      else if top then Queue(true, [q.commands[0], cmd] + q.commands[1..], q.wire)
      else Queue(true, q.commands + [cmd], q.wire)
    case Answer(finished, sends) =>
      if q.commands == [] || !finished then q
      else Started(Queue(q.connected, q.commands[1..], q.wire), sends)
    case Withdraw(cmd) =>
      if q.commands == [] || cmd == q.commands[0] then q
      else Queue(q.connected, [q.commands[0]] + Splice(q.commands[1..], cmd, []), q.wire)
    case Up => if q.connected then q else Queue(true, [], q.wire)
    case Down => Dropped(q)
  }

  /** Waiting behind the outstanding command. */
  function Unsent<T>(q: Queue<T>): seq<T> {
    if q.commands == [] then [] else q.commands[1..]
  }

  /** Commands in the order they are sent, past and future. */
  function Order<T>(q: Queue<T>): seq<T> { q.wire + Unsent(q) }

  /** One command at most is outstanding: the last one sent, at the head of the queue.  None goes out twice. */
  ghost predicate Good<T>(q: Queue<T>) {
    && (q.commands != [] ==> q.connected && q.wire != [] && q.wire[|q.wire| - 1] == q.commands[0])
    && Unique(Order(q))
  }

  /** A command object is submitted once. */
  predicate Possible<T(==)>(q: Queue<T>, e: Event<T>) {
    e.Submit? ==> e.cmd !in Order(q)
  }

  lemma UniqueInsert<T>(a: seq<T>, x: T, b: seq<T>)
    requires Unique(a + b) && x !in a + b
    ensures Unique(a + [x] + b)
  {
    var c, d := a + b, a + [x] + b;
    forall i, j | 0 <= i < j < |d|
      ensures d[i] != d[j]
    {
      var before := k => if k < |a| then k else k - 1;
      assert i != |a| ==> d[i] == c[before(i)];
      assert j != |a| ==> d[j] == c[before(j)];
    }
  }

  lemma UniqueBack<T>(a: seq<T>, b: seq<T>)
    requires Unique(a + b)
    ensures Unique(b) && Elements(a) !! Elements(b)
  {
    var c := a + b;
    forall i, j | 0 <= i < j < |b|
      ensures b[i] != b[j]
    {
      assert b[i] == c[|a| + i] && b[j] == c[|a| + j];
    }
    forall i, j | 0 <= i < |a| && 0 <= j < |b|
      ensures a[i] != b[j]
    {
      assert a[i] == c[i] && b[j] == c[|a| + j];
    }
  }

  lemma Withdrawn<T>(wire: seq<T>, commands: seq<T>, c: T)
    requires commands != [] && Unique(wire + commands[1..]) && c != commands[0]
    ensures var left := [commands[0]] + Splice(commands[1..], c, []);
      left != [] && Elements(left) == Elements(commands) - {c}
  {
    var tail := commands[1..];
    UniqueBack(wire, tail);
    SpliceOut(tail, c);
    UniqueCons(commands[0], tail);
    UniqueCons(commands[0], Splice(tail, c, []));
    assert commands == [commands[0]] + tail;
  }

  // ---- what each event does to the queue ------------------------------------------------------

  /** A command that finds the queue empty is written at once; otherwise it waits, at the end or behind the first. */
  lemma SubmitIs<T>(q: Queue<T>, cmd: T, top: bool, sends: bool)
    ensures var r := Step(q, Submit(cmd, top, sends));
      if !q.connected then r == q
      else if q.commands == [] && sends then r == Queue(true, [cmd], q.wire + [cmd])
      else if q.commands == [] then r == Queue(false, [], q.wire)
      else (r.connected && r.wire == q.wire
            && r.commands == if top then [q.commands[0], cmd] + q.commands[1..] else q.commands + [cmd])
  {
  }

  /** A final answer takes the first command off, and the next one is written. */
  lemma AnswerIs<T>(q: Queue<T>, finished: bool, sends: bool)
    ensures var r := Step(q, Answer(finished, sends));
      if q.commands == [] || !finished then r == q
      else if |q.commands| == 1 then r == Queue(q.connected, [], q.wire)
      else if sends then r == Queue(q.connected, q.commands[1..], q.wire + [q.commands[1]])
      else r == Queue(false, [], q.wire)
  {
  }

  /** What is called off is gone from where it waited, and nothing else is; the outstanding command cannot be. */
  lemma WithdrawIs<T>(q: Queue<T>, i: nat)
    requires Good(q) && i < |q.commands|
    ensures var r := Step(q, Withdraw(q.commands[i]));
      && r.connected == q.connected && r.wire == q.wire
      && r.commands == if i == 0 then q.commands else q.commands[..i] + q.commands[i + 1..]
  {
    if i > 0 {
      UniqueBack(q.wire, q.commands[1..]);
      SpliceAt(q.commands[1..], i - 1);
      var c := q.commands[i];
      assert q.commands[1..][i - 1] == c;
      assert c in Elements(q.commands[1..]) && q.commands[0] in Elements(q.wire);
      assert [q.commands[0]] + (q.commands[1..][..i - 1] + q.commands[1..][i..]) == q.commands[..i] + q.commands[i + 1..];
    }
  }

  /** With the connection goes the queue, and what has been written stays written. */
  lemma UpDownIs<T>(q: Queue<T>)
    ensures Step(q, Down) == Queue(false, [], q.wire)
    ensures Step(q, Up) == if q.connected then q else Queue(true, [], q.wire)
  {
  }

  /** Commands submitted, in order. */
  function Submitted<T>(es: seq<Event<T>>): seq<T> {
    if es == [] then [] else Item(es[0]) + Submitted(es[1..])
  }

  lemma SubmittedNext<T>(before: seq<T>, es: seq<Event<T>>)
    requires es != []
    ensures before + Item(es[0]) + Submitted(es[1..]) == before + Submitted(es)
  {
  }

  function Item<T>(e: Event<T>): seq<T> {
    if e.Submit? then [e.cmd] else []
  }

  lemma SubmitOrder<T>(q: Queue<T>, cmd: T, top: bool, sends: bool)
    requires Good(q)
    ensures var o := Order(Step(q, Submit(cmd, top, sends)));
      || o == Order(q)
      || (!top && o == Order(q) + [cmd])
      || (top && o == q.wire + [cmd] + Unsent(q))
  {
    if q.commands == [] {
      if q.connected {
        assert q.wire + [cmd] + [] == Order(q) + [cmd];
        assert q.wire + [] == Order(q);
      }
    } else if top {
      assert ([q.commands[0], cmd] + q.commands[1..])[1..] == [cmd] + Unsent(q);
      assert q.wire + ([cmd] + Unsent(q)) == q.wire + [cmd] + Unsent(q);
    } else {
      assert (q.commands + [cmd])[1..] == Unsent(q) + [cmd];
      assert q.wire + (Unsent(q) + [cmd]) == Order(q) + [cmd];
    }
  }

  lemma AnswerOrder<T>(q: Queue<T>, finished: bool, sends: bool)
    requires Good(q)
    ensures var o := Order(Step(q, Answer(finished, sends))); o == Order(q) || o == q.wire
  {
    if q.commands != [] && Unsent(q) != [] {
      assert q.wire + [Unsent(q)[0]] + Unsent(q)[1..] == Order(q);
    }
    assert q.wire + [] == q.wire;
  }

  lemma WithdrawOrder<T>(q: Queue<T>, cmd: T)
    requires Good(q)
    ensures var o := Order(Step(q, Withdraw(cmd)));
      o == Order(q) || o == q.wire + Splice(Unsent(q), cmd, [])
  {
  }

  /** No event reorders what is waiting, but for a submission that asks to go next. */
  lemma OrderKept<T>(q: Queue<T>, e: Event<T>)
    requires Good(q) && !(e.Submit? && e.top)
    ensures Sub(Order(Step(q, e)), Order(q) + Item(e))
  {
    hide Sub;
    var o, more := Order(q), Item(e);
    Follows(o, o, more);
    SubSelf(o + more);
    SubSelf(q.wire);
    assert q.wire + [] == q.wire;
    SubConcat(q.wire, q.wire, [], Unsent(q));
    Follows(q.wire, o, more);
    match e
    case Submit(cmd, top, sends) =>
      SubmitOrder(q, cmd, top, sends);
    case Answer(finished, sends) => AnswerOrder(q, finished, sends);
    case Withdraw(cmd) =>
      WithdrawOrder(q, cmd);
      SubSplice(Unsent(q), cmd);
      SubConcat(q.wire, q.wire, Splice(Unsent(q), cmd, []), Unsent(q));
      Follows(q.wire + Splice(Unsent(q), cmd, []), o, more);
    case Up => assert Order(Step(q, e)) == o || Order(Step(q, e)) == q.wire;
    case Down => assert Order(Step(q, e)) == q.wire;
  }

  lemma Follows<T>(a: seq<T>, b: seq<T>, c: seq<T>)
    requires a == b || Sub(a, b)
    ensures Sub(a, b + c)
  {
    SubSelf(b);
    SubConcat(a, b, [], c);
    assert a + [] == a;
  }

  /** Every event keeps one command outstanding at most and never sends one a second time. */
  lemma StepGood<T>(q: Queue<T>, e: Event<T>)
    requires Good(q) && Possible(q, e)
    ensures Good(Step(q, e))
  {
    if e.Submit? && e.top {
      SubmitOrder(q, e.cmd, true, e.sends);
      UniqueInsert(q.wire, e.cmd, Unsent(q));
    } else {
      OrderKept(q, e);
      if e.Submit? {
        assert Order(q) + [e.cmd] + [] == Order(q) + Item(e);
        UniqueInsert(Order(q), e.cmd, []);
      } else {
        assert Order(q) + Item(e) == Order(q);
      }
      SubUnique(Order(Step(q, e)), Order(q) + Item(e));
    }
  }

  function Run<T(==)>(q: Queue<T>, es: seq<Event<T>>): Queue<T>
    decreases |es|
  {
    if es == [] then q else Run(Step(q, es[0]), es[1..])
  }

  /** These commands submitted one after the other, with no write failing. */
  function Submissions<T>(cmds: seq<T>): seq<Event<T>> {
    if cmds == [] then [] else [Submit(cmds[0], false, true)] + Submissions(cmds[1..])
  }

  predicate Legal<T(==)>(q: Queue<T>, es: seq<Event<T>>)
    decreases |es|
  {
    es == [] || (Possible(q, es[0]) && Legal(Step(q, es[0]), es[1..]))
  }

  /** Over any run: one outstanding at most, nothing sent twice. */
  lemma {:induction false} EveryRun<T>(q: Queue<T>, es: seq<Event<T>>)
    requires Good(q) && Legal(q, es)
    ensures Good(Run(q, es))
    decreases |es|
  {
    if es != [] {
      StepGood(q, es[0]);
      EveryRun(Step(q, es[0]), es[1..]);
    }
  }

  /** Without submissions that ask to go next, commands go out in the order they were submitted. */
  lemma {:induction false} SubmissionOrder<T>(q: Queue<T>, es: seq<Event<T>>)
    requires Good(q) && Legal(q, es)
    requires forall e <- es :: !(e.Submit? && e.top)
    ensures Sub(Order(Run(q, es)), Order(q) + Submitted(es))
    decreases |es|
  {
    hide Step, Order, Sub, Good, Possible;
    if es == [] {
      SubSelf(Order(q));
      assert Order(q) + [] == Order(q);
    } else {
      var next, later := Step(q, es[0]), Submitted(es[1..]);
      StepGood(q, es[0]);
      SubmissionOrder(next, es[1..]);
      OrderKept(q, es[0]);
      SubSelf(later);
      SubConcat(Order(next), Order(q) + Item(es[0]), later, later);
      SubmittedNext(Order(q), es);
      SubTrans(Order(Run(q, es)), Order(next) + later, Order(q) + Submitted(es));
    }
  }

  predicate Smooth<T>(e: Event<T>) {
    (e.Submit? && !e.top && e.sends) || (e.Answer? && e.sends)
  }

  /** And while writes succeed and nothing is withdrawn, every one of them is sent or still waiting. */
  lemma {:induction false} NothingLost<T>(q: Queue<T>, es: seq<Event<T>>)
    requires Good(q) && Legal(q, es) && q.connected
    requires forall e <- es :: Smooth(e)
    ensures Run(q, es).connected && Order(Run(q, es)) == Order(q) + Submitted(es)
    decreases |es|
  {
    hide Step, Order, Sub, Good, Possible, Smooth;
    if es == [] {
      assert Order(q) + [] == Order(q);
    } else {
      var next := Step(q, es[0]);
      assert es[0] in es && forall e <- es[1..] :: e in es;
      StepGood(q, es[0]);
      SmoothStep(q, es[0]);
      NothingLost(next, es[1..]);
      SubmittedNext(Order(q), es);
    }
  }

  lemma SmoothStep<T>(q: Queue<T>, e: Event<T>)
    requires Good(q) && q.connected
    requires Smooth(e)
    ensures Step(q, e).connected && Order(Step(q, e)) == Order(q) + Item(e)
  {
    if e.Submit? {
      if q.commands != [] {
        assert (q.commands + [e.cmd])[1..] == Unsent(q) + [e.cmd];
      }
    } else if q.commands != [] && e.finished && Unsent(q) != [] {
      assert q.wire + [Unsent(q)[0]] + Unsent(q)[1..] == Order(q);
    }
  }

  // ---------------------------------------------------------------------
  // The session's queue
  // ---------------------------------------------------------------------

  datatype Outcome = Success | Rejected | Aborted

  /** A line from the peer, as far as the outstanding command is concerned. */
  datatype Reply = ReplyOk | ReplyError | ReplyOther(finished: bool)

  function Finishes(reply: Reply): bool { !reply.ReplyOther? || reply.finished }

  /** What the command's client is told. */
  function Told(reply: Reply): Outcome {
    match reply
    case ReplyOk => Success
    case ReplyError => Rejected
    case ReplyOther(_) => Aborted
  }

  class AtCommand {
    var pend: PendingCommand?

    constructor ()
      ensures pend == null
    {
      pend := null;
    }
  }

  /** The client's handle on a command, with the results it was called back with. */
  class PendingCommand {
    var cmd: AtCommand?
    /** Whether a client's callback is registered; without one a call ends the program. */
    var registered: bool
    var results: seq<Outcome>
    var discarded: bool

    constructor (cmd: AtCommand)
      requires cmd.pend == null
      modifies cmd`pend
      ensures this.cmd == cmd && cmd.pend == this && results == [] && !discarded && !registered
    {
      this.cmd := cmd;
      results, discarded, registered := [], false, false;
      new;
      cmd.pend := this;
    }
  }

  class HfpSession {
    var connected: bool
    /** The service level connection is up; only then do clients' commands get in. */
    var established: bool
    var commands: seq<AtCommand>
    var commandTimer: Option<nat>
    /** A callback was invoked that nobody had registered: the program has ended. */
    var crashed: bool
    ghost var wire: seq<AtCommand>
    ghost var issued: set<PendingCommand>
    /** Commands that are no more. */
    var deleted: set<AtCommand>

    ghost function View(): Queue<AtCommand>
      reads this
    {
      Queue(connected, commands, wire)
    }

    ghost predicate QueueOk()
      reads this
    {
      && Good(View())
      && commandTimer == (if commands != [] then Some(TIMEOUT_COMMAND) else None)
      && (established ==> connected)
    }

    function Head(): AtCommand
      requires commands != []
      reads this`commands
    {
      commands[0]
    }

    static ghost predicate Waiting(p: PendingCommand, cmds: set<AtCommand>)
      reads p, p.cmd
    {
      p.results == [] && !p.discarded && p.cmd != null && p.cmd in cmds && p.cmd.pend == p
    }

    /** A handle waits for a command still in the queue, or was called back once, or was thrown away before. */
    static ghost predicate Accounted(p: PendingCommand, cmds: set<AtCommand>)
      reads p, p.cmd
    {
      Waiting(p, cmds) || |p.results| == 1 || (p.discarded && p.results == [])
    }

    static ghost predicate Accounts(cmds: set<AtCommand>, issued: set<PendingCommand>)
      reads cmds, issued, set p <- issued :: p.cmd
    {
      && (forall p <- issued :: Accounted(p, cmds))
      && (forall c <- cmds :: c.pend != null ==> c.pend in issued && c.pend.cmd == c && Waiting(c.pend, cmds))
    }

    /**
     * The handles on these commands.  One whose command is still there waits for it, but for those on `but`,
     * which may have been called back already; all are registered, but for `deaf`.
     */
    ghost predicate Hands(cmds: set<AtCommand>, but: set<AtCommand>, deaf: PendingCommand?)
      reads this`issued, this`deleted, cmds, issued, set p <- issued :: p.cmd
    {
      && Accounts(cmds, issued)
      && deleted !! cmds
      && (deaf != null ==> deaf in issued && !deaf.registered)
      && (forall p <- issued :: p != deaf ==> p.registered)
      && (forall p <- issued ::
            if p.cmd == null then p.discarded else p.cmd in but || p.cmd in deleted || Waiting(p, cmds))
    }

    ghost predicate Core(but: set<AtCommand>)
      reads this, but, commands, issued, set p <- issued :: p.cmd
    {
      && QueueOk() && !crashed && Hands(Elements(commands), but, null)
      && (but == {} || (commands != [] && but == {commands[0]} && commands[0].pend == null))
    }

    ghost predicate Valid()
      reads this, commands, issued, set p <- issued :: p.cmd
    {
      Core({})
    }

    /** No client but `told`'s hears anything, unless the connection is gone: then the others' commands were aborted. */
    twostate predicate Quiet(told: PendingCommand?)
      reads this, issued
    {
      && old(issued) <= issued
      && forall p <- old(issued) ::
           && p.discarded == old(p.discarded)
           && (p == told || p.results == old(p.results) || (!connected && p.results == old(p.results) + [Aborted]))
    }

    /** A command object that has not been used before. */
    ghost predicate Unused(c: AtCommand)
      reads this, c
    {
      c.pend == null && c !in Order(View()) && c !in commands && c !in deleted
    }

    constructor ()
      ensures Valid() && !connected && !established && commands == [] && issued == {} && wire == [] && deleted == {}
    {
      connected, established, commands, commandTimer, crashed := false, false, [], None, false;
      wire, issued, deleted := [], {}, {};
    }

    /** Calls the client back, if it still cares. */
    method CompletePending(c: AtCommand, outcome: Outcome,
                           ghost cmds: set<AtCommand>, ghost but: set<AtCommand>, ghost deaf: PendingCommand? := null)
      requires !crashed && c in cmds && Hands(cmds, but, deaf)
      modifies c`pend, issued`results, this`crashed
      ensures crashed <==> deaf != null && old(c.pend) == deaf
      ensures !crashed ==> c.pend == null && Hands(cmds, but + {c}, deaf)
      ensures !crashed && old(c.pend) != null ==> old(c.pend).results == [outcome]
      ensures forall p <- issued :: p != old(c.pend) ==> p.results == old(p.results)
    {
      var p := c.pend;
      if p != null {
        c.pend := null;
        if !p.registered {
          crashed := true;
          return;
        }
        p.results := p.results + [outcome];
      }
    }

    /** Deletes a command; a client still waiting for it learns that it was aborted. */
    method Delete(c: AtCommand, ghost cmds: set<AtCommand>, ghost but: set<AtCommand>, ghost deaf: PendingCommand? := null)
      requires !crashed && c in cmds && Hands(cmds, but, deaf)
      modifies c`pend, issued`results, this`crashed, this`deleted
      ensures crashed <==> deaf != null && old(c.pend) == deaf
      ensures !crashed ==> c.pend == null && deleted == old(deleted) + {c} && Hands(cmds - {c}, but - {c}, deaf)
      ensures !crashed && old(c.pend) != null ==> old(c.pend).results == [Aborted]
      ensures forall p <- issued :: p != old(c.pend) ==> p.results == old(p.results)
    {
      CompletePending(c, Aborted, cmds, but, deaf);
      if !crashed {
        deleted := deleted + {c};
        assert forall p <- issued :: Waiting(p, cmds) ==> Waiting(p, cmds - {c});
      }
    }

    /** Unlinks and deletes the outstanding command. */
    method DropFirst(ghost deaf: PendingCommand? := null)
      requires !crashed && commands != [] && Unique(commands) && Hands(Elements(commands), {commands[0]}, deaf)
      modifies this`commands, this`commandTimer, this`crashed, this`deleted, Head()`pend, issued`results
      ensures crashed <==> deaf != null && old(commands[0].pend) == deaf
      ensures commands == old(commands)[1..] && Unique(commands)
      ensures !crashed ==> commandTimer.None? && Hands(Elements(commands), {}, deaf)
      ensures !crashed ==> deleted == old(deleted) + {old(commands[0])}
      ensures !crashed && old(commands[0].pend) != null ==> old(commands[0].pend).results == [Aborted]
      ensures forall p <- issued :: p != old(commands[0].pend) ==> p.results == old(p.results)
    {
      var c := commands[0];
      ghost var cmds := Elements(commands);
      assert commands == [c] + commands[1..];
      UniqueCons(c, commands[1..]);
      commands := commands[1..];
      Delete(c, cmds, {c}, deaf);
      assert cmds - {c} == Elements(commands) && {c} - {c} == {};
      commandTimer := None;
    }

    /** Losing the connection empties the queue: every client still waiting is told once. */
    method Disconnect(ghost deaf: PendingCommand? := null)
      requires !crashed && Unique(commands) && Hands(Elements(commands), {}, deaf)
      modifies this`connected, this`established, this`commands, this`commandTimer, this`crashed, this`deleted
      modifies Elements(commands)`pend, issued`results
      ensures crashed <==> deaf != null && old(Waiting(deaf, Elements(commands)))
      ensures !crashed ==> View() == Dropped(old(View())) && commandTimer.None? && !established
      ensures !crashed ==> Hands({}, {}, deaf) && old(deleted) <= deleted
      ensures !crashed ==> forall p <- issued ::
        p.results == if old(Waiting(p, Elements(commands))) then [Aborted] else old(p.results)
    {
      hide Unique;
      commandTimer := None;
      while commands != []
        invariant !crashed && Unique(commands) && Hands(Elements(commands), {}, deaf) && commandTimer.None?
        invariant old(deleted) <= deleted
        invariant forall c <- commands :: c in old(commands)
        invariant Elements(commands) <= old(Elements(commands))
        invariant deaf != null && old(Waiting(deaf, Elements(commands))) ==> Waiting(deaf, Elements(commands))
        invariant forall p <- issued ::
          p.results == if old(Waiting(p, Elements(commands))) && !Waiting(p, Elements(commands))
                       then [Aborted] else old(p.results)
        decreases |commands|
      {
        assert commands[0] in commands;
        DropFirst(deaf);
        if crashed {
          return;
        }
      }
      assert Elements(commands) == {};
      connected, established := false, false;
    }

    /** `sends` says whether the peer takes what is written, should anything be. */
    method StartCommand(sends: bool, ghost deaf: PendingCommand? := null)
      requires connected && (commands == [] ==> commandTimer.None?)
      requires !crashed && Unique(commands) && Hands(Elements(commands), {}, deaf)
      modifies this`connected, this`established, this`commands, this`commandTimer, this`crashed, this`deleted, this`wire
      modifies Elements(commands)`pend, issued`results
      ensures crashed <==> !sends && deaf != null && old(Waiting(deaf, Elements(commands)))
      ensures !crashed ==> View() == Started(old(View()), sends)
      ensures !crashed ==> commandTimer == if commands != [] then Some(TIMEOUT_COMMAND) else None
      ensures !crashed ==> if connected then established == old(established) else !established
      ensures !crashed ==> Hands(Elements(commands), {}, deaf) && Quiet(null)
      ensures !crashed && !connected ==> forall p <- issued ::
        old(Waiting(p, Elements(commands))) ==> p.results == [Aborted]
      ensures !crashed && connected ==> deleted == old(deleted) && forall c <- commands :: c.pend == old(c.pend)
    {
      if commands == [] {
        return;
      }
      if sends {
        wire := wire + [commands[0]];
        commandTimer := Some(TIMEOUT_COMMAND);
      } else {
        Disconnect(deaf);
      }
    }

    /** Adds a command to the queue; with `top` it goes next, behind the outstanding one. */
    method AddCommand(c: AtCommand, top: bool, sends: bool, ghost deaf: PendingCommand? := null) returns (ok: bool)
      requires QueueOk() && !crashed && c !in Order(View()) && c !in commands
      requires Hands(Elements(commands) + {c}, {}, deaf) && (deaf != null ==> deaf == c.pend)
      modifies this`connected, this`established, this`commands, this`commandTimer, this`crashed, this`deleted, this`wire
      modifies c`pend, Elements(commands)`pend, issued`results
      ensures crashed <==> deaf != null && (!old(connected) || (old(commands) == [] && !sends))
      ensures !crashed ==> QueueOk() && Hands(Elements(commands), {}, deaf)
      ensures !crashed ==> View() == Step(old(View()), Submit(c, top, sends))
      ensures if crashed then !ok else ok <==> connected && c in commands
      ensures !crashed && !ok && old(c.pend) != null ==> old(c.pend).results == [Aborted]
      ensures !crashed ==> Quiet(if ok then null else old(c.pend))
      ensures !crashed && ok ==> c.pend == old(c.pend)
    {
      hide Hands, Unique, Good, Started;
      if !connected {
        Refuse(c, deaf);
        return false;
      }
      if commands != [] {
        Link(c, top, sends);
        return true;
      }
      assert Elements(commands) + {c} == {c};
      SendFirst(c, top, sends, deaf);
      ok := sends;
    }

    /** A command that finds the queue empty is sent at once. */
    method SendFirst(c: AtCommand, top: bool, sends: bool, ghost deaf: PendingCommand?)
      requires QueueOk() && !crashed && connected && c !in Order(View()) && commands == []
      requires Hands({c}, {}, deaf) && (deaf != null ==> deaf == c.pend)
      modifies this`connected, this`established, this`commands, this`commandTimer, this`crashed, this`deleted, this`wire
      modifies c`pend, issued`results
      ensures crashed <==> deaf != null && !sends
      ensures !crashed ==> QueueOk() && Hands(Elements(commands), {}, deaf)
      ensures !crashed ==> View() == Step(old(View()), Submit(c, top, sends))
      ensures !crashed && !sends && old(c.pend) != null ==> old(c.pend).results == [Aborted]
      ensures !crashed ==> Quiet(if sends then null else old(c.pend))
      ensures !crashed && sends ==> c.pend == old(c.pend) && connected && commands == [c]
      ensures !crashed && !sends ==> !connected
    {
      hide Hands, Unique;
      StepGood(View(), Submit(c, top, sends));
      if c.pend != null {
        ClientWaits(c, {c}, deaf);
      }
      commands := [c];
      Single(c);
      StartCommand(sends, deaf);
    }

    static lemma Single(c: AtCommand)
      ensures Unique([c]) && Elements([c]) == {c}
    {
    }

    lemma ClientWaits(c: AtCommand, cmds: set<AtCommand>, deaf: PendingCommand?)
      requires Hands(cmds, {}, deaf) && c in cmds && c.pend != null
      ensures Waiting(c.pend, cmds) && c.pend in issued && c.pend.cmd == c
    {
    }

    /** A command that does not get into the queue is deleted. */
    method Refuse(c: AtCommand, ghost deaf: PendingCommand?)
      requires !crashed && c !in commands && Hands(Elements(commands) + {c}, {}, deaf) && (deaf != null ==> deaf == c.pend)
      modifies c`pend, issued`results, this`crashed, this`deleted
      ensures crashed <==> deaf != null
      ensures !crashed ==> Hands(Elements(commands), {}, deaf) && Quiet(old(c.pend))
      ensures !crashed && old(c.pend) != null ==> old(c.pend).results == [Aborted]
    {
      Delete(c, Elements(commands) + {c}, {}, deaf);
      assert Elements(commands) + {c} - {c} == Elements(commands) && {} - {c} == {};
    }

    /** A command that finds others in the queue waits. */
    method Link(c: AtCommand, top: bool, sends: bool)
      requires QueueOk() && connected && commands != [] && c !in Order(View()) && c !in commands
      modifies this`commands
      ensures QueueOk() && View() == Step(old(View()), Submit(c, top, sends))
      ensures c in commands && Elements(commands) == old(Elements(commands)) + {c}
    {
      hide Unique;
      StepGood(View(), Submit(c, top, sends));
      var was := commands;
      if top {
        commands := [was[0], c] + was[1..];
        assert was == [was[0]] + was[1..];
      } else {
        commands := was + [c];
      }
    }

    /**
     * Submits a client's command; the client registers its callback on the handle it gets.  Should the command's
     * own write fail, it is aborted before that, and a callback is invoked that nobody has registered.
     */
    method SubmitPending(c: AtCommand, sends: bool) returns (p: PendingCommand?)
      requires Valid() && Unused(c)
      modifies this, c`pend, Elements(commands)`pend, issued`results
      ensures crashed <==> old(established) && old(commands) == [] && !sends
      ensures !crashed ==> Valid() && (p != null <==> old(established))
      ensures !crashed && p != null ==>
        && fresh(p) && issued == old(issued) + {p} && p.registered
        && Waiting(p, Elements(commands)) && p.cmd == c
      ensures !crashed ==> View() == if old(established) then Step(old(View()), Submit(c, false, sends)) else old(View())
      ensures !crashed ==> Quiet(null)
    {
      hide Hands;
      if !established {
        return null;
      }
      p := Issue(c, {});
      var ok := AddCommand(c, false, sends, p);
      if !ok {
        return null;
      }
      Register(p, {});
    }

    method Register(p: PendingCommand, ghost but: set<AtCommand>)
      requires p in issued && Hands(Elements(commands), but, p)
      modifies p`registered
      ensures p.registered && Hands(Elements(commands), but, null)
    {
      p.registered := true;
    }

    /** A handle on a new command. */
    method Issue(c: AtCommand, ghost but: set<AtCommand>) returns (p: PendingCommand)
      requires Hands(Elements(commands), but, null) && c.pend == null && c !in commands && c !in deleted
      modifies this`issued, c`pend
      ensures fresh(p) && issued == old(issued) + {p} && c.pend == p && p.results == []
      ensures Hands(Elements(commands) + {c}, but, p) && p.cmd == c && !p.registered && !p.discarded
      ensures Waiting(p, Elements(commands) + {c})
    {
      p := new PendingCommand(c);
      issued := issued + {p};
    }

    // ---- what clients do with their handles -----------------------------------

    /** A handle still refers to its command after its callback: it may be touched exactly while that exists. */
    lemma TouchedSafely(p: PendingCommand)
      requires Valid() && p in issued && !p.discarded
      ensures p.cmd != null && (p.cmd !in deleted <==> Waiting(p, Elements(commands)))
      ensures p.cmd in deleted <==> |p.results| == 1
    {
    }

    /** A client deletes its handle; if it was waiting, it will hear nothing. */
    method Destroy(p: PendingCommand, ghost but: set<AtCommand> := {})
      requires Core(but) && p in issued && !p.discarded
      modifies this`crashed, p`cmd, p`discarded, p.cmd`pend
      ensures crashed <==> old(p.cmd) in deleted
      ensures !crashed ==> Core(but) && p.discarded && p.cmd == null && View() == old(View())
    {
      var c := p.cmd;
      if c in deleted {
        crashed := true;
        return;
      }
      assert c.pend == null || c.pend == p;
      c.pend := null;
      p.cmd := null;
      p.discarded := true;
    }

    /** Only a command that is still waiting its turn can be called off; its client is told it was aborted. */
    method Cancel(p: PendingCommand, ghost but: set<AtCommand> := {}) returns (ok: bool)
      requires Core(but) && p in issued && !p.discarded
      modifies this`commands, this`crashed, this`deleted, p.cmd`pend, issued`results
      ensures crashed <==> old(p.cmd) in old(deleted)
      ensures !crashed ==> Core(but) && old(p.cmd) in old(commands) && View() == Step(old(View()), Withdraw(old(p.cmd)))
      ensures !crashed ==> (ok <==> old(p.cmd) != old(commands)[0])
      ensures !crashed ==> p.results == if ok then [Aborted] else old(p.results)
      ensures forall q <- issued :: q != p ==> q.results == old(q.results)
      ensures !crashed && ok ==> p.cmd in deleted
      ensures forall d <- commands :: d in old(commands)
    {
      var c: AtCommand := p.cmd;
      if c in deleted {
        crashed := true;
        return false;
      }
      assert c in commands;
      if c == commands[0] {
        StepGood(View(), Withdraw(c));
        return false;
      }
      assert p == c.pend;
      ghost var cmds := Elements(commands);
      Unlink(c);
      Delete(c, cmds, but);
      assert but - {c} == but;
      ok := true;
    }

    /** Takes a command out that waits behind the first one. */
    method Unlink(c: AtCommand)
      requires QueueOk() && c in commands && c != commands[0]
      modifies this`commands
      ensures QueueOk() && View() == Step(old(View()), Withdraw(c))
      ensures Elements(commands) == old(Elements(commands)) - {c} && commands != [] && commands[0] == old(commands)[0]
      ensures forall d <- commands :: d in old(commands)
    {
      hide Splice, Unique;
      StepGood(View(), Withdraw(c));
      Withdrawn(wire, commands, c);
      ghost var cmds := Elements(commands);
      commands := [commands[0]] + Splice(commands[1..], c, []);
      assert Elements(commands) == cmds - {c};
      assert forall d <- commands :: d in Elements(commands);
    }

    /** Submitting while a command is outstanding sends nothing. */
    method Resubmit(c: AtCommand, ghost but: set<AtCommand> := {})
      requires Core(but) && established && commands != [] && Unused(c)
      modifies this`commands, this`issued, c
      ensures Core(but) && commands == old(commands) + [c]
      ensures forall p <- issued :: p in old(issued) || fresh(p)
      ensures old(issued) <= issued
      ensures View() == Step(old(View()), Submit(c, false, true))
    {
      hide Hands;
      StepGood(View(), Submit(c, false, true));
      var p := Issue(c, but);
      assert Elements(commands + [c]) == Elements(commands) + {c};
      commands := commands + [c];
      Register(p, but);
    }

    /** Nothing is written, and the outstanding command is not touched. */
    static ghost predicate Calm(es: seq<Event<AtCommand>>) {
      forall e <- es :: e.Withdraw? || (e.Submit? && !e.top && e.sends)
    }

    static ghost predicate Withdraws(es: seq<Event<AtCommand>>, c: AtCommand?) {
      exists e <- es :: e.Withdraw? && e.cmd == c
    }

    /** What handles other than `told` hear meanwhile: nothing, or of an abort that somebody has caused. */
    twostate predicate Heard(told: PendingCommand?, new es: seq<Event<AtCommand>>)
      reads this, issued
    {
      && old(issued) <= issued
      && (forall p <- old(issued) :: p.cmd == old(p.cmd) || p.cmd == null)
      && forall p <- old(issued) ::
           || p == told || p.results == old(p.results)
           || (p.results == old(p.results) + [Aborted] && (!connected || Withdraws(es, old(p.cmd))))
    }

    // ---- answers ----------------------------------------------------------------

    /** Whether a line calls a client back. */
    ghost predicate CallsBack(reply: Reply)
      reads this, commands
    {
      commands != [] && commands[0].pend != null && !reply.ReplyOther?
    }

    /**
     * A line arrives: the outstanding command takes it, and when that finishes the command the next one is sent.
     * From its callback the client may submit any number of commands, call off others that are waiting, and delete
     * handles, its own included; all that is done, `es`, before the next command is sent.
     */
    method Respond(reply: Reply, sends: bool) returns (ghost es: seq<Event<AtCommand>>)
      requires Valid()
      modifies this, Elements(commands)`pend, issued
      ensures Valid()
      ensures View() == Step(Run(old(View()), es), Answer(Finishes(reply), sends))
      ensures Calm(es) && (!old(CallsBack(reply)) ==> es == [])
      ensures View() == if reply == ReplyOther(false) then old(View()) else Step(Run(old(View()), es), Answer(true, sends))
      ensures old(commands) != [] && old(commands[0].pend) != null ==>
        match reply
        case ReplyOk => old(commands[0].pend).results == [Success]
        case ReplyError => old(commands[0].pend).results == [Rejected]
        case ReplyOther(true) => old(commands[0].pend).results == [Aborted]
        case ReplyOther(false) => old(commands[0].pend).results == []
      ensures old(commands) != [] && reply != ReplyOther(false) ==> old(commands)[0] !in commands
      ensures old(commands) == [] || reply == ReplyOther(false) ==> unchanged(this) && unchanged(issued)
      ensures Heard(if old(commands) == [] then null else old(commands[0].pend), es)
    {
      es := [];
      if commands == [] || !Finishes(reply) {
        return;
      }
      match reply {
        case ReplyOther(_) => FinishFirst(sends);
        case _ => es := Complete(Told(reply), sends);
      }
    }

    /** The outstanding command's client hears of the outcome, and the next command is sent. */
    method Complete(outcome: Outcome, sends: bool) returns (ghost es: seq<Event<AtCommand>>)
      requires Valid() && commands != []
      modifies this, Elements(commands)`pend, issued
      ensures Valid() && Calm(es) && (old(commands[0].pend) == null ==> es == [])
      ensures View() == Step(Run(old(View()), es), Answer(true, sends))
      ensures old(commands[0].pend) != null ==> old(commands[0].pend).results == [outcome]
      ensures Heard(old(commands[0].pend), es)
      ensures old(commands)[0] !in commands
    {
      hide Good, Unique, Splice, Order, Step, Run, Hands, Accounts;
      HeadFirst();
      es := Tell(outcome);
      assert forall c <- commands :: c in old(commands) || fresh(c);
      assert forall p <- issued :: p in old(issued) || fresh(p);
      FinishFirst(sends);
      OneResult();
    }

    lemma HeadFirst()
      requires Valid() && commands != []
      ensures commands[0].pend != null ==> commands[0].pend in issued
    {
      assert commands[0] in Elements(commands);
    }

    lemma OneResult()
      requires Valid()
      ensures forall p <- issued :: |p.results| <= 1
    {
    }

    /** Calls the client of the outstanding command back, and lets it act. */
    method Tell(outcome: Outcome) returns (ghost es: seq<Event<AtCommand>>)
      requires Valid() && commands != []
      modifies this`commands, this`issued, this`crashed, this`deleted, Elements(commands)`pend, issued
      ensures commands != [] && commands[0] == old(commands[0]) && commands[0].pend == null && Core({commands[0]})
      ensures View() == Run(old(View()), es) && Calm(es) && (old(commands[0].pend) == null ==> es == [])
      ensures connected
      ensures old(commands[0].pend) != null ==> old(commands[0].pend).results == [outcome]
      ensures Heard(old(commands[0].pend), es)
      ensures forall p <- issued :: p in old(issued) || fresh(p)
      ensures forall c <- commands :: c in old(commands) || fresh(c)
    {
      es := [];
      var c, p := commands[0], commands[0].pend;
      assert c in commands;
      CompletePending(c, outcome, Elements(commands), {});
      assert {} + {c} == {c};
      if p != null {
        es := ClientActs(p);
      }
    }

    /** Anything a client does from the callback of the outstanding command. */
    method ClientActs(told: PendingCommand) returns (ghost es: seq<Event<AtCommand>>)
      requires commands != [] && Core({commands[0]}) && commands[0].pend == null
      requires told in issued && !told.discarded && told.cmd == commands[0]
      modifies this`commands, this`issued, this`crashed, this`deleted, Elements(commands)`pend, issued
      ensures commands != [] && commands[0] == old(commands[0]) && commands[0].pend == null && Core({commands[0]})
      ensures View() == Run(old(View()), es) && Calm(es)
      ensures told.results == old(told.results) && Heard(told, es)
      ensures forall p <- issued :: p in old(issued) || fresh(p)
      ensures forall c <- commands :: c in old(commands) || fresh(c)
    {
      ghost var head := commands[0];
      es := [];
      var more: nat := *;
      while more > 0
        invariant commands != [] && commands[0] == head && head.pend == null && Core({head})
        invariant View() == Run(old(View()), es) && Calm(es)
        invariant told in issued && told.results == old(told.results) && Heard(told, es)
        invariant !told.discarded ==> told.cmd == head
        invariant forall p <- issued :: p in old(issued) || fresh(p)
        invariant forall c <- commands :: c in old(commands) || fresh(c)
      {
        ghost var e := ClientAct(told);
        RunMore(old(View()), es, e);
        WithdrawsMore(es, e);
        es := es + e;
        more := more - 1;
      }
    }

    static lemma RunMore(q: Queue<AtCommand>, es: seq<Event<AtCommand>>, e: seq<Event<AtCommand>>)
      requires |e| <= 1
      ensures Run(q, es + e) == if e == [] then Run(q, es) else Step(Run(q, es), e[0])
    {
      if e == [] {
        assert es + e == es;
      } else {
        assert e == [e[0]];
        RunSnoc(q, es, e[0]);
      }
    }

    static lemma WithdrawsMore(es: seq<Event<AtCommand>>, more: seq<Event<AtCommand>>)
      ensures forall c: AtCommand? :: Withdraws(es, c) || Withdraws(more, c) ==> Withdraws(es + more, c)
      ensures Calm(es) && Calm(more) ==> Calm(es + more)
    {
      forall c: AtCommand? | Withdraws(es, c) || Withdraws(more, c)
        ensures Withdraws(es + more, c)
      {
        var e :| (e in es || e in more) && e.Withdraw? && e.cmd == c;
        assert e in es + more;
      }
    }

    method SubmitAnother(ghost but: set<AtCommand>) returns (c: AtCommand)
      requires Core(but) && established && commands != []
      modifies this`commands, this`issued
      ensures fresh(c) && Core(but) && commands == old(commands) + [c]
      ensures forall p <- issued :: p in old(issued) || fresh(p)
      ensures old(issued) <= issued
      ensures View() == Step(old(View()), Submit(c, false, true))
    {
      hide Hands, Good, Unique;
      c := new AtCommand();
      Resubmit(c, but);
    }

    /** One thing that a client does from that callback. */
    method ClientAct(told: PendingCommand) returns (ghost e: seq<Event<AtCommand>>)
      requires commands != [] && Core({commands[0]}) && commands[0].pend == null
      requires told in issued && (!told.discarded ==> told.cmd == commands[0])
      modifies this`commands, this`issued, this`crashed, this`deleted, Elements(commands)`pend, issued
      ensures commands != [] && commands[0] == old(commands[0]) && commands[0].pend == null && Core({commands[0]})
      ensures |e| <= 1 && Calm(e) && View() == (if e == [] then old(View()) else Step(old(View()), e[0]))
      ensures told.results == old(told.results) && Heard(told, e) && (!told.discarded ==> told.cmd == commands[0])
      ensures connected == old(connected)
      ensures forall p <- issued :: p in old(issued) || fresh(p)
      ensures forall c <- commands :: c in old(commands) || fresh(c)
    {
      hide Good, Unique, Splice, Order;
      e := [];
      ghost var head := commands[0];
      var choice: nat, i: nat := *, *;
      if choice == 0 && established {
        var c := SubmitAnother({head});
        e := [Submit(c, false, true)];
      } else if choice == 1 && !told.discarded {
        Destroy(told, {head});
      } else if i < |commands| && commands[i].pend != null {
        var c, p := commands[i], commands[i].pend;
        assert c in commands;
        if choice == 2 {
          Destroy(p, {head});
        } else {
          var ok := Cancel(p, {head});
          e := [Withdraw(c)];
        }
      }
    }

    /** The head is answered: it goes, and the next command is sent. */
    method FinishFirst(sends: bool)
      requires commands != [] && QueueOk() && !crashed && Hands(Elements(commands), {commands[0]}, null)
      modifies this`connected, this`established, this`commands, this`commandTimer, this`crashed, this`deleted, this`wire
      modifies Elements(commands)`pend, issued`results
      ensures Valid()
      ensures View() == Step(old(View()), Answer(true, sends))
      ensures old(commands[0].pend) != null ==> old(commands[0].pend).results == [Aborted]
      ensures Quiet(old(commands[0].pend))
      ensures old(commands)[0] !in commands
    {
      StepGood(View(), Answer(true, sends));
      assert commands[0] in commands;
      HeadsUnique();
      assert forall c <- commands[1..] :: c != commands[0];
      DropFirst();
      StartCommand(sends);
    }

    lemma HeadsUnique()
      requires Good(View())
      ensures Unique(commands)
    {
      if commands != [] {
        UniqueBack(wire, commands[1..]);
        assert commands == [commands[0]] + commands[1..];
        assert commands[0] in Elements(wire);
        UniqueCons(commands[0], commands[1..]);
      }
    }

    method CommandTimeout()
      requires Valid() && commandTimer.Some?
      modifies this`connected, this`established, this`commands, this`commandTimer, this`crashed, this`deleted
      modifies Elements(commands)`pend, issued`results
      ensures Valid() && View() == Step(old(View()), Down)
      ensures forall p <- issued ::
        p.results == if old(Waiting(p, Elements(commands))) then [Aborted] else old(p.results)
    {
      StepGood(View(), Down);
      HeadsUnique();
      Disconnect();
    }

    method Connect()
      requires Valid() && !connected
      modifies this`connected
      ensures Valid() && connected && View() == Step(old(View()), Up)
    {
      StepGood(View(), Up);
      connected := true;
    }

    method Establish()
      requires Valid() && connected
      modifies this`established
      ensures Valid() && established && View() == old(View())
    {
      established := true;
    }

    /** When the queue has run empty, every handle still held has been called back exactly once. */
    lemma CalledBackOnce()
      requires Valid() && commands == []
      ensures forall p <- issued :: !p.discarded ==> |p.results| == 1
    {
    }
  }

  lemma {:induction false} RunSnoc<T>(q: Queue<T>, es: seq<Event<T>>, e: Event<T>)
    ensures Run(q, es + [e]) == Step(Run(q, es), e)
    decreases |es|
  {
    if es == [] {
      assert es + [e] == [e] && [e][1..] == [];
    } else {
      assert (es + [e])[1..] == es[1..] + [e];
      RunSnoc(Step(q, es[0]), es[1..], e);
    }
  }

  /** The first command of an idle session, and the peer does not take it. */
  method Unheard() returns (h: HfpSession)
    ensures fresh(h) && h.crashed
  {
    h := new HfpSession();
    h.Connect();
    h.Establish();
    var c := new AtCommand();
    var p := h.SubmitPending(c, false);
  }

  /** A client deletes its handle after the callback, as it should. */
  method Deleted() returns (h: HfpSession)
    ensures fresh(h) && h.crashed
  {
    hide HfpSession.Hands, HfpSession.Accounts, Good, Unique;
    h := new HfpSession();
    h.Connect();
    h.Establish();
    var c := new AtCommand();
    var p := h.SubmitPending(c, true);
    h.CommandTimeout();
    h.TouchedSafely(p);
    h.Destroy(p);
  }

  // ---------------------------------------------------------------------
  // A client that submits again from the callback of an aborted command
  // ---------------------------------------------------------------------

  /**
   * The queue after some turns of the loop that empties it when the connection goes down.  In turn `k` the first
   * command is aborted and its client submits `again(k)`, and the peer still takes what is written.
   */
  function Aborting<T(==)>(q: Queue<T>, again: nat -> seq<T>, turns: nat): Queue<T> {
    if turns == 0 then q
    else
      var now := Aborting(q, again, turns - 1);
      if now.commands == [] then now
      else Run(Queue(true, now.commands[1..], now.wire), Submissions(again(turns - 1)))
  }

  function Again<T>(again: nat -> seq<T>, turns: nat): nat {
    if turns == 0 then 0 else Again(again, turns - 1) + |again(turns - 1)|
  }

  lemma {:induction false} SubmissionsLength<T>(q: Queue<T>, cmds: seq<T>)
    requires q.connected
    ensures |Run(q, Submissions(cmds)).commands| == |q.commands| + |cmds|
    ensures Run(q, Submissions(cmds)).connected
    decreases |cmds|
  {
    if cmds != [] {
      SubmissionsLength(Step(q, Submit(cmds[0], false, true)), cmds[1..]);
    }
  }

  lemma {:induction false} AbortingLength<T>(q: Queue<T>, again: nat -> seq<T>, turns: nat)
    requires forall k: nat | k < turns :: Aborting(q, again, k).commands != []
    ensures |Aborting(q, again, turns).commands| == |q.commands| + Again(again, turns) - turns
  {
    if turns > 0 {
      AbortingLength(q, again, turns - 1);
      var now := Aborting(q, again, turns - 1);
      SubmissionsLength(Queue(true, now.commands[1..], now.wire), again(turns - 1));
    }
  }

  /** The loop ends exactly if at some turn no more has been submitted than what the turns have taken. */
  lemma {:induction false} DisconnectEnds<T>(q: Queue<T>, again: nat -> seq<T>)
    ensures (exists k: nat :: Aborting(q, again, k).commands == [])
       <==> (exists k: nat :: |q.commands| + Again(again, k) <= k)
  {
    if k: nat :| Aborting(q, again, k).commands == [] {
      var first := FirstEmpty(q, again, k);
      AbortingLength(q, again, first);
      assert |q.commands| + Again(again, first) <= first;
    }
    if k: nat :| |q.commands| + Again(again, k) <= k {
      if forall j: nat | j < k :: Aborting(q, again, j).commands != [] {
        AbortingLength(q, again, k);
        assert Aborting(q, again, k).commands == [];
      }
    }
  }

  lemma {:induction false} FirstEmpty<T>(q: Queue<T>, again: nat -> seq<T>, k: nat) returns (first: nat)
    requires Aborting(q, again, k).commands == []
    ensures Aborting(q, again, first).commands == []
    ensures forall j: nat | j < first :: Aborting(q, again, j).commands != []
  {
    if j: nat :| j < k && Aborting(q, again, j).commands == [] {
      first := FirstEmpty(q, again, j);
    } else {
      first := k;
    }
  }

  /** A client that submits one command for each that is aborted is never done. */
  lemma {:induction false} NeverDone<T>(q: Queue<T>, again: nat -> seq<T>, turns: nat)
    requires q.commands != [] && forall k: nat :: |again(k)| == 1
    ensures Aborting(q, again, turns).commands != []
  {
    if turns > 0 {
      NeverDone(q, again, turns - 1);
      var now := Aborting(q, again, turns - 1);
      SubmissionsLength(Queue(true, now.commands[1..], now.wire), again(turns - 1));
    }
  }
}
