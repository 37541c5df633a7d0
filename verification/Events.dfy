/**
 The timer half of the standalone event dispatcher: notifiers linked into a
 delta-encoded pairing heap that is spliced and updated in place.

 Every delta is a machine `uint32`, so each addition and subtraction below is also
 a proof that it does not wrap. A circular list is a `seq` field of the object that
 holds its head, and `up` says whose list a notifier is linked on.
 */
module Events {
  import opened Lists
  import opened Options
  import opened TimerForest
  import opened TimerMachine

  const LIMIT: int := 0x1_0000_0000

  newtype uint32 = x: int | 0 <= x < LIMIT
  newtype int32 = x: int | -0x8000_0000 <= x < 0x8000_0000

  /** C++ conversion of a signed timeout to the unsigned delta field. */
  function ToUnsigned(msec: int32): uint32 {
    if msec < 0 then (msec as int + LIMIT) as uint32 else msec as uint32
  }

  class TimerNotifier {
    var linked: bool
    var up: TimerNotifier?
    var children: seq<TimerNotifier>
    var msecDelta: uint32

    ghost predicate Idle()
      reads this
    {
      !linked && up == null && children == []
    }

    /** On a list by itself: a root whose children have been taken off. */
    ghost predicate Alone()
      reads this
    {
      linked && up == null && children == []
    }

    constructor ()
      ensures Idle()
    {
      linked, up, children, msecDelta := false, null, [], 0;
    }
  }

  /** The notifiers of `list`, children of `up`, are linked as the forest `f` says. */
  ghost predicate Rep(up: TimerNotifier?, list: seq<TimerNotifier>, f: Forest<TimerNotifier>)
    reads Nodes(f)
    decreases f
  {
    if f == [] then list == []
    else
      && list != []
      && list[0] == f[0].timer
      && list[0].linked
      && list[0].up == up
      && list[0].msecDelta as int == f[0].delta
      && Rep(list[0], list[0].children, f[0].kids)
      && Rep(up, list[1..], f[1..])
  }

  // ---- facts about linked forests -----------------------------------------------------

  lemma {:induction false} RepAppend(up: TimerNotifier?, l: seq<TimerNotifier>, f: Forest<TimerNotifier>,
                                     k: seq<TimerNotifier>, g: Forest<TimerNotifier>)
    requires Rep(up, l, f) && Rep(up, k, g)
    ensures Nodes(f + g) == Nodes(f) + Nodes(g)
    ensures Rep(up, l + k, f + g)
  {
    if f == [] {
      assert l + k == k && f + g == g;
    } else {
      assert (l + k)[1..] == l[1..] + k && (f + g)[1..] == f[1..] + g;
      RepAppend(up, l[1..], f[1..], k, g);
    }
  }

  lemma RepNil(up: TimerNotifier?)
    ensures Nodes<TimerNotifier>([]) == {}
    ensures Rep(up, [], [])
  {
  }

  lemma {:induction false} RepLength(up: TimerNotifier?, l: seq<TimerNotifier>, f: Forest<TimerNotifier>)
    requires Rep(up, l, f)
    ensures |l| == |f|
    ensures forall i :: 0 <= i < |l| ==> l[i] == f[i].timer && l[i] in Nodes(f) && l[i].up == up
    ensures forall i :: 0 <= i < |l| ==> f[i].delta == l[i].msecDelta as int < LIMIT
  {
    if f != [] {
      RepLength(up, l[1..], f[1..]);
    }
  }

  lemma {:induction false} RepTake(up: TimerNotifier?, l: seq<TimerNotifier>, f: Forest<TimerNotifier>, k: nat)
    requires Rep(up, l, f) && k <= |f|
    ensures |l| == |f|
    ensures Nodes(f[..k]) <= Nodes(f) && Nodes(f[k..]) <= Nodes(f)
    ensures Rep(up, l[..k], f[..k]) && Rep(up, l[k..], f[k..])
  {
    RepLength(up, l, f);
    if k > 0 {
      RepTake(up, l[1..], f[1..], k - 1);
      assert l[..k][1..] == l[1..][..k - 1] && f[..k][1..] == f[1..][..k - 1];
      assert l[k..] == l[1..][k - 1..] && f[k..] == f[1..][k - 1..];
    }
  }

  lemma {:induction false} NodesAppend<T>(f: Forest<T>, g: Forest<T>)
    ensures Nodes(f + g) == Nodes(f) + Nodes(g)
  {
    if f == [] {
      assert f + g == g;
    } else {
      assert (f + g)[1..] == f[1..] + g;
      NodesAppend(f[1..], g);
    }
  }

  /** Two parts of a forest without repetition share no node. */
  lemma DistinctAppend<T>(f: Forest<T>, g: Forest<T>)
    requires Distinct(f + g)
    ensures Distinct(f) && Distinct(g)
    ensures Nodes(f) !! Nodes(g)
    ensures Nodes(f + g) == Nodes(f) + Nodes(g)
  {
    NodesAppend(f, g);
    forall t <- Nodes(f + g)
      ensures Has(f, t) + Has(g, t) == 1
      ensures t in Nodes(f) <==> Has(f, t) == 1
      ensures t in Nodes(g) <==> Has(g, t) == 1
    {
      CountAppend(f, g, 0, t, 0);
      NodesHas(f, t);
      NodesHas(g, t);
    }
  }

  lemma DistinctKids<T>(x: Tree<T>)
    requires Distinct([x])
    ensures x.timer !in Nodes(x.kids) && Distinct(x.kids)
    ensures Nodes([x]) == {x.timer} + Nodes(x.kids)
  {
    assert [x][1..] == [];
    forall t <- Nodes([x])
      ensures One(t == x.timer) + Has(x.kids, t) == 1
      ensures t in Nodes(x.kids) <==> Has(x.kids, t) == 1
    {
      assert Has([x], t) == One(t == x.timer) + Has(x.kids, t) + Has([x][1..], t);
      NodesHas(x.kids, t);
    }
  }

  /** Forests with the same counts hold the same nodes. */
  lemma SameCounts<T>(f: Forest<T>, g: Forest<T>)
    requires forall t <- Nodes(f) + Nodes(g) :: Has(f, t) == Has(g, t)
    ensures Nodes(f) == Nodes(g)
    ensures Distinct(f) ==> Distinct(g)
  {
    forall t <- Nodes(f) + Nodes(g)
      ensures t in Nodes(f) && t in Nodes(g)
    {
      NodesHas(f, t);
      NodesHas(g, t);
    }
  }

  // ---- pairing in place -------------------------------------------------------------------

  lemma PairStepNodes<T>(h: Forest<T>, g: Forest<T>, delta: nat)
    requires |g| >= 2 && Distinct(h + g)
    ensures var h' := h + [Pair(Raise(g[0], delta), Raise(g[1], delta))];
            && Nodes(h' + g[2..]) == Nodes(h + g)
            && Distinct(h' + g[2..])
            && h' + PairPass(g[2..], delta) == h + PairPass(g, delta)
  {
    var a, b := Raise(g[0], delta), Raise(g[1], delta);
    var h' := h + [Pair(a, b)];
    forall t <- Nodes(h + g) + Nodes(h' + g[2..])
      ensures Has(h + g, t) == Has(h' + g[2..], t)
    {
      CountAppend(h, g, 0, t, 0);
      CountAppend(h', g[2..], 0, t, 0);
      CountAppend(h, [Pair(a, b)], 0, t, 0);
      PairKeepsCount(a, b, 0, t, 0);
      assert g == g[..2] + g[2..];
      CountAppend(g[..2], g[2..], 0, t, 0);
      assert RaiseAll(g[..2], delta) == [a, b];
      CountRaise(g[..2], delta, 0, t, 0);
    }
    SameCounts(h + g, h' + g[2..]);
  }

  lemma SingleStepNodes<T>(h: Forest<T>, g: Forest<T>, delta: nat)
    requires |g| == 1 && Distinct(h + g)
    ensures var h' := h + [Raise(g[0], delta)];
            && Nodes(h' + []) == Nodes(h + g)
            && Distinct(h' + [])
            && h' + PairPass([], delta) == h + PairPass(g, delta)
  {
    var h' := h + [Raise(g[0], delta)];
    assert h' + [] == h';
    assert RaiseAll(g, delta) == [Raise(g[0], delta)];
    forall t <- Nodes(h + g) + Nodes(h')
      ensures Has(h + g, t) == Has(h', t)
    {
      CountAppend(h, g, 0, t, 0);
      CountAppend(h, [Raise(g[0], delta)], 0, t, 0);
      CountRaise(g, delta, 0, t, 0);
    }
    SameCounts(h + g, h');
  }

  lemma CollectStepNodes<T>(h: Forest<T>, x: Tree<T>)
    requires h != [] && Distinct(h + [x])
    ensures var k := |h| - 1;
            && Nodes(h[..k] + [Absorb(h[k], x)]) == Nodes(h + [x])
            && Distinct(h[..k] + [Absorb(h[k], x)])
  {
    var k := |h| - 1;
    var y := Absorb(h[k], x);
    assert h + [x] == h[..k] + [h[k], x];
    forall t <- Nodes(h + [x]) + Nodes(h[..k] + [y])
      ensures Has(h + [x], t) == Has(h[..k] + [y], t)
    {
      CountAppend(h[..k], [h[k], x], 0, t, 0);
      CountAppend(h[..k], [y], 0, t, 0);
      AbsorbKeepsCount(h[k], x, 0, t, 0);
    }
    SameCounts(h + [x], h[..k] + [y]);
  }

  lemma PairAllNodes<T>(f: Forest<T>, delta: nat)
    requires f != [] && Distinct(f)
    ensures Nodes([PairAll(f, delta)]) == Nodes(f) && Distinct([PairAll(f, delta)])
  {
    forall t <- Nodes(f) + Nodes([PairAll(f, delta)])
      ensures Has(f, t) == Has([PairAll(f, delta)], t)
    {
      PairAllKeepsCount(f, delta, 0, t, 0);
    }
    SameCounts(f, [PairAll(f, delta)]);
  }

  /** Takes the first notifier off a list and adds `delta` to it. */
  method Detach(a: TimerNotifier, delta: uint32, ghost up: TimerNotifier?, ghost x: Tree<TimerNotifier>)
    requires Rep(up, [a], [x]) && Distinct([x])
    requires x.delta + delta as int < LIMIT
    modifies a`up, a`msecDelta
    ensures Nodes([Raise(x, delta as nat)]) == Nodes([x])
    ensures Rep(null, [a], [Raise(x, delta as nat)])
  {
    DistinctKids(x);
    a.up := null;
    a.msecDelta := a.msecDelta + delta;
  }

  /** Makes `b` a child of `a`, at the end or at the front of its children. */
  method Adopt(a: TimerNotifier, b: TimerNotifier, front: bool, ghost x: Tree<TimerNotifier>, ghost y: Tree<TimerNotifier>)
    requires Rep(null, [a], [x]) && Rep(null, [b], [y])
    requires Distinct([x]) && Distinct([y]) && Nodes([x]) !! Nodes([y])
    requires x.delta <= y.delta
    modifies a`children, b`up, b`msecDelta
    ensures var z := x.(kids := if front then [Lower(y, x.delta)] + x.kids else x.kids + [Lower(y, x.delta)]);
            Nodes([z]) == Nodes([x]) + Nodes([y]) && Rep(null, [a], [z])
  {
    hide *;
    OpenRoot(null, a, x);
    OpenRoot(null, b, y);
    ghost var low, before := Lower(y, x.delta), a.children;
    assert allocated(Nodes(x.kids)) && allocated(Nodes([low]));
    Hang(a, b, x.delta, y);
    a.children := if front then [b] + a.children else a.children + [b];
    if front {
      RepAppend(a, [b], [low], before, x.kids);
    } else {
      RepAppend(a, before, x.kids, [b], [low]);
    }
    CloseRoot(null, a, x.(kids := if front then [low] + x.kids else x.kids + [low]));
  }

  /** Puts the root `b` under `a`, whose delta is subtracted from its own. */
  method Hang(a: TimerNotifier, b: TimerNotifier, ghost delta: nat, ghost y: Tree<TimerNotifier>)
    requires Rep(null, [b], [y]) && Distinct([y]) && a !in Nodes([y])
    requires a.msecDelta as nat == delta <= y.delta
    modifies b`up, b`msecDelta
    ensures Nodes([Lower(y, delta)]) == Nodes([y])
    ensures Rep(a, [b], [Lower(y, delta)])
  {
    hide Rep, Nodes, Distinct;
    OpenRoot(null, b, y);
    assert allocated(Nodes(y.kids));
    b.msecDelta := b.msecDelta - a.msecDelta;
    b.up := a;
    LowerNodes(y, delta);
    CloseRoot(a, b, Lower(y, delta));
  }

  lemma OpenRoot(up: TimerNotifier?, a: TimerNotifier, x: Tree<TimerNotifier>)
    requires Rep(up, [a], [x]) && Distinct([x])
    ensures a == x.timer && a.linked && a.up == up && a.msecDelta as int == x.delta
    ensures Rep(a, a.children, x.kids) && Distinct(x.kids)
    ensures Nodes([x]) == {a} + Nodes(x.kids) && a !in Nodes(x.kids)
  {
    DistinctKids(x);
  }

  lemma CloseRoot(up: TimerNotifier?, a: TimerNotifier, x: Tree<TimerNotifier>)
    requires a == x.timer && a.linked && a.up == up && a.msecDelta as int == x.delta
    requires Rep(a, a.children, x.kids)
    ensures Nodes([x]) == {a} + Nodes(x.kids)
    ensures Rep(up, [a], [x])
  {
    assert [x][1..] == [] && [a][1..] == [];
  }

  lemma LowerNodes<T>(x: Tree<T>, delta: nat)
    requires delta <= x.delta
    ensures Nodes([Lower(x, delta)]) == Nodes([x])
  {
    assert [Lower(x, delta)][1..] == [x][1..];
  }

  /**
   Pairs the notifiers of a sibling list into one tree: left to right in twos, with
   `delta` added to each on the way, then right to left into one.
   */
  method PairTimers(siblings: seq<TimerNotifier>, delta: uint32,
                    ghost up: TimerNotifier?, ghost f: Forest<TimerNotifier>)
    returns (a: TimerNotifier)
    requires siblings != [] && Rep(up, siblings, f) && Distinct(f)
    requires forall i :: 0 <= i < |f| ==> f[i].delta + delta as int < LIMIT
    modifies Nodes(f)
    ensures Nodes([PairAll(f, delta as nat)]) == Nodes(f)
    ensures Rep(null, [a], [PairAll(f, delta as nat)])
  {
    hide *;
    var rest, sublist := siblings, [];
    ghost var g, h: Forest<TimerNotifier> := f, [];
    PairStart(up, siblings, f, delta as nat);
    while rest != []
      invariant Nodes(h) <= Nodes(f) && Nodes(g) <= Nodes(f)
      invariant Rep(up, rest, g) && Rep(null, sublist, h)
      invariant Distinct(h + g) && Nodes(h + g) == Nodes(f)
      invariant h + PairPass(g, delta as nat) == PairPass(f, delta as nat)
      invariant forall i :: 0 <= i < |g| ==> g[i].delta + delta as int < LIMIT
      decreases |rest|
    {
      var w, k;
      w, k, h := PairStep(rest, sublist, delta, up, g, h);
      sublist, rest, g := sublist + [w], rest[k..], g[k..];
      DistinctAppend(h, g);
    }
    RepLength(up, rest, g);
    assert g == [] && h == PairPass(f, delta as nat) && h + g == h;
    a := CollectTimers(sublist, h);
  }

  lemma PairStart(up: TimerNotifier?, siblings: seq<TimerNotifier>, f: Forest<TimerNotifier>, delta: nat)
    requires siblings != [] && Rep(up, siblings, f) && Distinct(f)
    ensures [] + f == f && Nodes([]) <= Nodes(f) && Rep(null, [], [])
    ensures PairPass(f, delta) != [] && PairPass<TimerNotifier>([], delta) == []
    ensures [] + PairPass(f, delta) == PairPass(f, delta)
    ensures PairAll(f, delta) == Collect(PairPass(f, delta))
    ensures Nodes([PairAll(f, delta)]) == Nodes(f)
  {
    PairAllNodes(f, delta);
    RepNil(null);
  }

  /** One step of the first pass: the leading one or two siblings go to the sublist as one tree. */
  method PairStep(rest: seq<TimerNotifier>, ghost sublist: seq<TimerNotifier>, delta: uint32,
                  ghost up: TimerNotifier?, ghost g: Forest<TimerNotifier>, ghost h: Forest<TimerNotifier>)
    returns (w: TimerNotifier, k: nat, ghost h': Forest<TimerNotifier>)
    requires rest != [] && Rep(up, rest, g) && Rep(null, sublist, h) && Distinct(h + g)
    requires forall i :: 0 <= i < |g| ==> g[i].delta + delta as int < LIMIT
    modifies Nodes(g)
    ensures 0 < k <= |rest| == |g|
    ensures Nodes(h' + g[k..]) == Nodes(h + g) && Distinct(h' + g[k..])
    ensures Nodes(h') <= Nodes(h + g) && Nodes(g[k..]) <= Nodes(h + g)
    ensures h' + PairPass(g[k..], delta as nat) == h + PairPass(g, delta as nat)
    ensures Rep(up, rest[k..], g[k..]) && Rep(null, sublist + [w], h')
  {
    hide *;
    DistinctAppend(h, g);
    RepLength(up, rest, g);
    assert allocated(Nodes(h)) && allocated(Nodes(g));
    w, k := rest[0], 1;
    if |rest| == 1 {
      assert g == [g[0]] && rest == [rest[0]] && g[1..] == [] && rest[1..] == [];
      SingleStepNodes(h, g, delta as nat);
      Detach(w, delta, up, g[0]);
      RepAppend(null, sublist, h, [w], [Raise(g[0], delta as nat)]);
      h' := h + [Raise(g[0], delta as nat)];
      RepNil(up);
    } else {
      PairStepNodes(h, g, delta as nat);
      w, k := PairTwo(rest, delta, up, g);
      ghost var p := Pair(Raise(g[0], delta as nat), Raise(g[1], delta as nat));
      RepAppend(null, sublist, h, [w], [p]);
      h' := h + [p];
    }
    DistinctAppend(h', g[k..]);
  }

  /** The two leading siblings become one tree. */
  method PairTwo(list: seq<TimerNotifier>, delta: uint32, ghost up: TimerNotifier?, ghost g: Forest<TimerNotifier>)
    returns (w: TimerNotifier, k: nat)
    requires |g| == |list| >= 2 && Rep(up, list, g) && Distinct(g)
    requires g[0].delta + delta as int < LIMIT && g[1].delta + delta as int < LIMIT
    modifies Nodes(g)
    ensures k == 2 && Nodes(g[2..]) <= Nodes(g) && Rep(up, list[2..], g[2..])
    ensures var p := Pair(Raise(g[0], delta as nat), Raise(g[1], delta as nat));
            Nodes([p]) <= Nodes(g) && Rep(null, [w], [p])
  {
    hide Rep, Nodes, Distinct, Has;
    k := 2;
    var first, second := list[0], list[1];
    ghost var x, y := Raise(g[0], delta as nat), Raise(g[1], delta as nat);
    assert g == g[..2] + g[2..] && g[..2] == [g[0]] + [g[1]];
    DistinctAppend(g[..2], g[2..]);
    DistinctAppend([g[0]], [g[1]]);
    RepTake(up, list, g, 2);
    RepTake(up, list[..2], g[..2], 1);
    assert list[..2][..1] == [first] && list[..2][1..] == [second];
    assert g[..2][..1] == [g[0]] && g[..2][1..] == [g[1]];
    assert allocated(Nodes([g[0]])) && allocated(Nodes([g[1]])) && allocated(Nodes(g[2..]));
    RepRoot(up, first, g[0]);
    RepRoot(up, second, g[1]);
    Detach(first, delta, up, g[0]);
    Detach(second, delta, up, g[1]);
    RaiseDistinct(g[0], delta as nat);
    RaiseDistinct(g[1], delta as nat);
    RepRoot(null, first, x);
    RepRoot(null, second, y);
    w := if second.msecDelta < first.msecDelta then second else first;
    if second.msecDelta < first.msecDelta {
      Adopt(second, first, false, y, x);
    } else {
      Adopt(first, second, false, x, y);
    }
  }

  lemma RepRoot(up: TimerNotifier?, a: TimerNotifier, x: Tree<TimerNotifier>)
    requires Rep(up, [a], [x])
    ensures a == x.timer && a.msecDelta as int == x.delta && a in Nodes([x])
  {
  }

  lemma RaiseDistinct<T>(x: Tree<T>, delta: nat)
    requires Distinct([x])
    ensures Distinct([Raise(x, delta)]) && Nodes([Raise(x, delta)]) == Nodes([x])
  {
    assert RaiseAll([x], delta) == [Raise(x, delta)];
    forall t <- Nodes([x]) + Nodes([Raise(x, delta)])
      ensures Has([x], t) == Has([Raise(x, delta)], t)
    {
      CountRaise([x], delta, 0, t, 0);
    }
    SameCounts([x], [Raise(x, delta)]);
  }

  /** The second pass: from the right, the smaller root takes the other as its first child. */
  method CollectTimers(list: seq<TimerNotifier>, ghost f: Forest<TimerNotifier>) returns (a: TimerNotifier)
    requires f != [] && Rep(null, list, f) && Distinct(f)
    modifies Nodes(f)
    ensures Nodes([Collect(f)]) == Nodes(f)
    ensures Rep(null, [a], [Collect(f)])
  {
    hide Rep, Nodes, Distinct, Has, Absorb;
    RepLength(null, list, f);
    var k := |list| - 1;
    a := list[k];
    ghost var x := f[k];
    RepTake(null, list, f, k);
    assert list[k..] == [a] && f[k..] == [x] && f == f[..k] + [x];
    while k > 0
      invariant 0 <= k < |f| == |list|
      invariant Nodes(f[..k]) <= Nodes(f) && Nodes([x]) <= Nodes(f)
      invariant Nodes(f[..k] + [x]) == Nodes(f) && Distinct(f[..k] + [x])
      invariant Rep(null, list[..k], f[..k]) && Rep(null, [a], [x])
      invariant x == Collect(f[k..])
    {
      CollectStepNodes(f[..k], x);
      assert f[..k][..k - 1] == f[..k - 1] && f[..k][k - 1] == f[k - 1];
      assert f[k - 1..][0] == f[k - 1] && f[k - 1..][1..] == f[k..];
      k, a := AbsorbTimer(list, k, a, f, x);
      x := Absorb(f[k], x);
      NodesAppend(f[..k], [x]);
    }
    assert f[..0] + [x] == [x] && f[0..] == f;
  }

  method AbsorbTimer(list: seq<TimerNotifier>, k: nat, a: TimerNotifier,
                     ghost f: Forest<TimerNotifier>, ghost x: Tree<TimerNotifier>)
    returns (j: nat, w: TimerNotifier)
    requires 0 < k < |f| == |list|
    requires Distinct(f[..k] + [x])
    requires Rep(null, list[..k], f[..k]) && Rep(null, [a], [x])
    modifies Nodes(f[..k]), Nodes([x])
    ensures j == k - 1
    ensures Nodes(f[..j]) <= Nodes(f[..k])
    ensures Nodes([Absorb(f[j], x)]) <= Nodes(f[..k]) + Nodes([x])
    ensures f[..k] + [x] == f[..j] + [f[j], x]
    ensures Rep(null, list[..j], f[..j]) && Rep(null, [w], [Absorb(f[j], x)])
  {
    hide Rep, Nodes, Distinct, Has;
    j := k - 1;
    var b := list[j];
    RepTake(null, list[..k], f[..k], j);
    assert list[..k][..j] == list[..j] && list[..k][j..] == [b];
    assert f[..k][..j] == f[..j] && f[..k][j..] == [f[j]];
    assert f[..k] == f[..j] + [f[j]];
    DistinctAppend(f[..k], [x]);
    DistinctAppend(f[..j], [f[j]]);
    RepRoot(null, a, x);
    RepRoot(null, b, f[j]);
    assert allocated(Nodes(f[..j])) && allocated(Nodes([f[j]])) && allocated(Nodes([x]));
    if b.msecDelta < a.msecDelta {
      Adopt(b, a, true, f[j], x);
      w := b;
    } else {
      Adopt(a, b, true, x, f[j]);
      w := a;
    }
  }

  // ---- unlinking at any depth -----------------------------------------------------------

  /** The subtree whose root holds `t`. */
  ghost function Sub<T>(f: Forest<T>, t: T): Tree<T>
    requires Has(f, t) > 0
  {
    if f[0].timer == t then f[0]
    else if Has(f[0].kids, t) > 0 then Sub(f[0].kids, t)
    else Sub(f[1..], t)
  }

  /** Every deadline of the forest is below `limit`. */
  ghost predicate Below<T>(f: Forest<T>, base: int, limit: int) {
    f == [] ||
    (base + f[0].delta < limit && Below(f[0].kids, base + f[0].delta, limit) && Below(f[1..], base, limit))
  }

  lemma {:induction false} BelowAt<T>(f: Forest<T>, base: int, limit: int)
    requires forall t <- Nodes(f), left: int :: At(f, base, t, left) > 0 ==> left < limit
    ensures Below(f, base, limit)
  {
    if f != [] {
      var kids, rest, due := f[0].kids, f[1..], base + f[0].delta;
      assert At(f, base, f[0].timer, due) > 0;
      forall t <- Nodes(kids), left: int | At(kids, due, t, left) > 0
        ensures left < limit
      {
        assert At(f, base, t, left) > 0;
      }
      BelowAt(kids, due, limit);
      forall t <- Nodes(rest), left: int | At(rest, base, t, left) > 0
        ensures left < limit
      {
        assert At(f, base, t, left) > 0;
      }
      BelowAt(rest, base, limit);
    }
  }

  lemma BelowModel<T>(f: Forest<T>, m: map<T, int>, limit: int)
    requires Represents(f, 0, m) && forall t <- m :: m[t] < limit
    ensures Below(f, 0, limit)
  {
    forall t <- Nodes(f), left: int | At(f, 0, t, left) > 0
      ensures left < limit
    {
      RepresentsPathSum(f, 0, m, t);
      if left != m[t] {
        AtTwice(f, 0, t, left, m[t]);
      }
    }
    BelowAt(f, 0, limit);
  }

  /**
   In every reachable state no path of the heap sums to more than the longest timeout set: with timeouts of 31 bits
   the 32-bit additions of a run or a removal never come near wrapping around.
   */
  lemma BelowLongest<T>(events: seq<Event<T>>, longest: nat)
    requires Legal(events) && forall t <- LastSet(events) :: LastSet(events)[t] <= longest
    ensures Below(Exec(events).heap, 0, longest + 1)
  {
    hide Exec, LastSet, Below, Represents, Legal;
    var m := HeapBounded(events, longest);
    BelowModel(Exec(events).heap, m, longest + 1);
  }

  lemma {:induction false} BelowAppend<T>(f: Forest<T>, g: Forest<T>, base: int, limit: int)
    ensures Below(f + g, base, limit) <==> Below(f, base, limit) && Below(g, base, limit)
  {
    if f == [] {
      assert f + g == g;
    } else {
      assert (f + g)[1..] == f[1..] + g;
      BelowAppend(f[1..], g, base, limit);
    }
  }

  lemma {:induction false} BelowRaise<T>(f: Forest<T>, delta: nat, limit: int)
    ensures Below(RaiseAll(f, delta), 0, limit) <==> Below(f, delta, limit)
    ensures Below(f, delta, limit) ==> forall i :: 0 <= i < |f| ==> f[i].delta + delta < limit
  {
    if f != [] {
      assert RaiseAll(f, delta)[1..] == RaiseAll(f[1..], delta);
      BelowRaise(f[1..], delta, limit);
    }
  }

  /** What is known of the subtree of a linked notifier. */
  lemma {:induction false} SubFacts(up: TimerNotifier?, l: seq<TimerNotifier>, f: Forest<TimerNotifier>,
                                    base: nat, t: TimerNotifier)
    requires Rep(up, l, f) && Has(f, t) > 0 && Distinct(f) && Below(f, base, LIMIT)
    requires up == null || up !in Nodes(f)
    ensures t in Nodes(f) && t.linked
    ensures Nodes([Sub(f, t)]) <= Nodes(f) && Distinct([Sub(f, t)])
    ensures Rep(t.up, [t], [Sub(f, t)])
    ensures Below(Sub(f, t).kids, Sub(f, t).delta, LIMIT)
    ensures t in l ==> t.up == up
    ensures t !in l ==> t.up != null && t.up in Nodes(f) && t in t.up.children
    ensures t.up == up || t.up in Nodes(f)
    ensures t.up == null || t.up !in Nodes([Sub(f, t)])
    decreases f
  {
    var x := f[0];
    assert f == [x] + f[1..];
    DistinctAppend([x], f[1..]);
    DistinctKids(x);
    RepTake(up, l, f, 1);
    assert l[..1] == [l[0]] && f[..1] == [x];
    NodesHas(f[1..], t);
    NodesHas([x], t);
    NodesHas(x.kids, t);
    RepLength(up, l, f);
    BelowLower(x.kids, base + x.delta, x.delta, LIMIT);
    if x.timer == t {
    } else if Has(x.kids, t) > 0 {
      SubFacts(l[0], l[0].children, x.kids, base + x.delta, t);
      RepLength(up, l[1..], f[1..]);
    } else {
      SubFacts(up, l[1..], f[1..], base, t);
    }
  }

  lemma {:induction false} BelowLower<T>(f: Forest<T>, base: int, lower: int, limit: int)
    requires lower <= base && Below(f, base, limit)
    ensures Below(f, lower, limit)
  {
    if f != [] {
      BelowLower(f[0].kids, base + f[0].delta, lower + f[0].delta, limit);
      BelowLower(f[1..], base, lower, limit);
    }
  }

  /** The pieces of a forest without repetition, and which of them holds `t`. */
  lemma Parts<T>(f: Forest<T>, t: T)
    requires f != [] && Distinct(f)
    ensures Distinct([f[0]]) && Distinct(f[0].kids) && Distinct(f[1..])
    ensures Nodes([f[0]]) == {f[0].timer} + Nodes(f[0].kids)
    ensures Nodes(f) == Nodes([f[0]]) + Nodes(f[1..])
    ensures f[0].timer !in Nodes(f[0].kids) && Nodes([f[0]]) !! Nodes(f[1..])
    ensures t in Nodes(f) <==> Has(f, t) > 0
    ensures t in Nodes(f[0].kids) <==> Has(f[0].kids, t) > 0
    ensures t in Nodes(f[1..]) <==> Has(f[1..], t) > 0
  {
    assert f == [f[0]] + f[1..];
    DistinctAppend([f[0]], f[1..]);
    DistinctKids(f[0]);
    NodesHas(f, t);
    NodesHas(f[0].kids, t);
    NodesHas(f[1..], t);
  }

  lemma SuccessorsNodes<T>(x: Tree<T>)
    requires Distinct([x])
    ensures Nodes(Successors(x)) == Nodes(x.kids) && Distinct(Successors(x))
  {
    DistinctKids(x);
    if x.kids != [] {
      PairAllNodes(x.kids, x.delta);
    }
  }

  twostate lemma {:induction false} OldLength(new up: TimerNotifier?, new l: seq<TimerNotifier>, f: Forest<TimerNotifier>)
    requires old(allocated(up)) && old(allocated(l)) && old(Rep(up, l, f))
    ensures |l| == |f| && forall n <- l :: n in Nodes(f) && old(n.up) == up
    decreases f
  {
    if f != [] {
      OldLength(up, l[1..], f[1..]);
    }
  }

  twostate lemma {:induction false} OldUp(new up: TimerNotifier?, new l: seq<TimerNotifier>, f: Forest<TimerNotifier>,
                                         new t: TimerNotifier)
    requires old(allocated(up)) && old(allocated(l)) && old(allocated(t))
    requires old(Rep(up, l, f)) && Has(f, t) > 0
    ensures t in Nodes(f)
    ensures t !in l ==> old(t.up) != null && old(t.up) in Nodes(f)
    decreases f
  {
    if l[0] != t {
      if Has(f[0].kids, t) > 0 {
        OldUp(l[0], old(l[0].children), f[0].kids, t);
        OldLength(l[0], old(l[0].children), f[0].kids);
      } else {
        OldUp(up, l[1..], f[1..], t);
      }
    }
  }

  /** Between the two states only the subtree of `t` and the list `t` is on have changed. */
  twostate predicate Unlinked(f: Forest<TimerNotifier>, new t: TimerNotifier, new p: TimerNotifier?,
                              new repl: seq<TimerNotifier>)
    requires Has(f, t) > 0
    reads *
  {
    && old(allocated(t)) && old(allocated(p)) && p == old(t.up)
    && (forall n <- Nodes(f) :: old(allocated(n)) && (n !in Nodes([Sub(f, t)]) && n != p ==> unchanged(n)))
    && (p != null && p in Nodes(f) ==>
          unchanged(p`linked) && unchanged(p`up) && unchanged(p`msecDelta)
          && p.children == Splice(old(p.children), t, repl))
  }

  /**
   Unlinking `t` from its own sibling list, wherever that is, with `repl` linked in its
   place: the whole forest is then linked as Remove says.
   */
  twostate lemma UnlinkRep(new up: TimerNotifier?, new l: seq<TimerNotifier>, f: Forest<TimerNotifier>,
                           new t: TimerNotifier, new p: TimerNotifier?, new repl: seq<TimerNotifier>)
    requires old(allocated(up)) && old(allocated(l))
    requires old(Rep(up, l, f)) && Distinct(f) && Has(f, t) > 0
    requires up == null || up !in Nodes(f)
    requires Unlinked(f, t, p, repl) && Rep(p, repl, Successors(Sub(f, t)))
    ensures Nodes(Remove(f, t)) <= Nodes(f)
    ensures Rep(up, if t in l then Splice(l, t, repl) else l, Remove(f, t))
    decreases f
  {
    var x, rest := f[0], f[1..];
    Parts(f, t);
    OldUp(up, l, f, t);
    OldLength(up, l[1..], rest);
    hide Nodes, Distinct, Has, PairAll;
    if x.timer == t {
      UnlinkHere(up, l, f, t, p, repl);
    } else if Has(x.kids, t) > 0 {
      SubNodes(x.kids, t);
      var kids := old(l[0].children);
      OldUp(l[0], kids, x.kids, t);
      OldLength(l[0], kids, x.kids);
      UnlinkRep(l[0], kids, x.kids, t, p, repl);
      UnlinkBelow(up, l, f, t, p, repl);
    } else {
      SubNodes(rest, t);
      OldUp(up, l[1..], rest, t);
      UnlinkRep(up, l[1..], rest, t, p, repl);
      UnlinkBeside(up, l, f, t, p, repl);
    }
  }

  twostate lemma UnlinkHere(new up: TimerNotifier?, new l: seq<TimerNotifier>, f: Forest<TimerNotifier>,
                            new t: TimerNotifier, new p: TimerNotifier?, new repl: seq<TimerNotifier>)
    requires old(allocated(up)) && old(allocated(l))
    requires old(Rep(up, l, f)) && Distinct(f) && f != [] && f[0].timer == t && Has(f, t) > 0
    requires up == null || up !in Nodes(f)
    requires Unlinked(f, t, p, repl) && Rep(p, repl, Successors(Sub(f, t)))
    ensures Nodes(Remove(f, t)) <= Nodes(f)
    ensures Rep(up, if t in l then Splice(l, t, repl) else l, Remove(f, t))
  {
    var x, rest := f[0], f[1..];
    Parts(f, t);
    OldUp(up, l, f, t);
    OldLength(up, l[1..], rest);
    hide Nodes, Distinct, Has, PairAll;
    assert Rep(up, l[1..], rest);
    RepAppend(up, repl, Successors(x), l[1..], rest);
    SuccessorsNodes(x);
  }

  twostate lemma UnlinkBelow(new up: TimerNotifier?, new l: seq<TimerNotifier>, f: Forest<TimerNotifier>,
                             new t: TimerNotifier, new p: TimerNotifier?, new repl: seq<TimerNotifier>)
    requires old(allocated(up)) && old(allocated(l)) && old(allocated(t))
    requires old(Rep(up, l, f)) && Distinct(f) && f != [] && f[0].timer != t && Has(f[0].kids, t) > 0
    requires up == null || up !in Nodes(f)
    requires Has(f, t) > 0 && Unlinked(f, t, p, repl)
    requires p in Nodes([f[0]]) && (t in old(l[0].children) <==> p == l[0])
    requires Nodes(Remove(f[0].kids, t)) <= Nodes(f[0].kids)
    requires Rep(l[0], if t in old(l[0].children) then Splice(old(l[0].children), t, repl) else old(l[0].children),
                 Remove(f[0].kids, t))
    ensures Nodes(Remove(f, t)) <= Nodes(f)
    ensures Rep(up, if t in l then Splice(l, t, repl) else l, Remove(f, t))
  {
    var x, rest := f[0], f[1..];
    Parts(f, t);
    SubNodes(x.kids, t);
    OldLength(up, l[1..], rest);
    hide Nodes, Distinct, Has, PairAll;
    assert Rep(up, l[1..], rest);
    var y := x.(kids := Remove(x.kids, t));
    assert Remove(f, t) == [y] + rest && Remove(f, t)[1..] == rest;
    NodesCons(y, rest);
  }

  twostate lemma UnlinkBeside(new up: TimerNotifier?, new l: seq<TimerNotifier>, f: Forest<TimerNotifier>,
                              new t: TimerNotifier, new p: TimerNotifier?, new repl: seq<TimerNotifier>)
    requires old(allocated(up)) && old(allocated(l))
    requires old(Rep(up, l, f)) && Distinct(f) && f != [] && f[0].timer != t && Has(f[0].kids, t) == 0
    requires up == null || up !in Nodes(f)
    requires Has(f, t) > 0 && Unlinked(f, t, p, repl)
    requires p == up || p in Nodes(f[1..])
    requires Nodes(Remove(f[1..], t)) <= Nodes(f[1..])
    requires Rep(up, if t in l[1..] then Splice(l[1..], t, repl) else l[1..], Remove(f[1..], t))
    ensures Nodes(Remove(f, t)) <= Nodes(f)
    ensures Rep(up, if t in l then Splice(l, t, repl) else l, Remove(f, t))
  {
    var x, rest := f[0], f[1..];
    assert [x][1..] == [] && [l[0]][1..] == [];
    assert old(Rep(up, [l[0]], [x]));
    Parts(f, t);
    SubNodes(rest, t);
    NodesCons(x, Remove(rest, t));
    assert Remove(f, t) == [x] + Remove(rest, t);
    var tail := if t in l[1..] then Splice(l[1..], t, repl) else l[1..];
    assert (if t in l then Splice(l, t, repl) else l) == [l[0]] + tail;
    hide *;
    assert Rep(up, [l[0]], [x]) by {
      assert forall n <- Nodes([x]) :: n !in Nodes([Sub(f, t)]) && n != p;
    }
    RepAppend(up, [l[0]], [x], tail, Remove(rest, t));
  }

  lemma NodesCons<T>(x: Tree<T>, rest: Forest<T>)
    ensures Nodes([x] + rest) == {x.timer} + Nodes(x.kids) + Nodes(rest)
  {
    assert ([x] + rest)[1..] == rest;
  }

  lemma {:induction false} SubNodes<T>(f: Forest<T>, t: T)
    requires Has(f, t) > 0
    ensures Nodes([Sub(f, t)]) <= Nodes(f)
  {
    if f[0].timer == t {
      assert [f[0]] + f[1..] == f;
      NodesCons(f[0], f[1..]);
      NodesCons(f[0], []);
      assert [f[0]] + [] == [f[0]];
    } else if Has(f[0].kids, t) > 0 {
      SubNodes(f[0].kids, t);
    } else {
      SubNodes(f[1..], t);
    }
  }

  ghost predicate AllAlone(s: set<TimerNotifier>)
    reads s
  {
    forall t <- s :: t.Alone()
  }

  ghost predicate AllIdle(s: set<TimerNotifier>)
    reads s
  {
    forall t <- s :: t.Idle()
  }

  // ---- the dispatcher ---------------------------------------------------------------------

  class IndepEventDispatcher {
    var timers: seq<TimerNotifier>
    var runlist: seq<TimerNotifier>
    ghost var known: set<TimerNotifier>
    ghost var heap: Forest<TimerNotifier>
    /** The time left to each timer that is set. */
    ghost var left: map<TimerNotifier, int>

    ghost predicate Valid()
      reads this, known
    {
      && Nodes(heap) <= known
      && HeapValid()
      && ListsValid()
    }

    ghost predicate HeapValid()
      reads this, Nodes(heap)
    {
      && |heap| <= 1
      && Rep(null, timers, heap)
      && Represents(heap, 0, left)
      && (forall t <- left :: 0 <= left[t] < LIMIT)
    }

    /** A notifier is in the heap, or alone on the run list, or idle. */
    ghost predicate ListsValid()
      reads this, known
    {
      && Unique(runlist)
      && Elements(runlist) <= known - Nodes(heap)
      && AllAlone(Elements(runlist))
      && AllIdle(known - Nodes(heap) - Elements(runlist))
    }

    constructor ()
      ensures Valid() && known == {} && left == map[] && runlist == []
    {
      timers, runlist := [], [];
      known, heap, left := {}, [], map[];
    }

    method NewTimer() returns (t: TimerNotifier)
      requires Valid()
      modifies this`known
      ensures Valid() && fresh(t) && known == old(known) + {t}
      ensures t !in left && t !in runlist
    {
      t := new TimerNotifier();
      assert t !in Nodes(heap) && t !in runlist;
      known := known + {t};
    }

    /** Links an idle notifier; its delta field holds the timeout. */
    method AddTimer(t: TimerNotifier)
      requires Valid() && t in known && t.Idle()
      modifies this`timers, this`heap, this`left, known
      ensures Valid()
      ensures heap == Add(old(heap), t, old(t.msecDelta) as nat)
      ensures left == old(left)[t := old(t.msecDelta) as int]
      ensures t.linked
    {
      hide Rep, Represents, Nodes, Has, At, Add, Unique, Elements;
      ghost var msec := t.msecDelta as nat;
      RepIsLinked(null, timers, heap);
      RepresentsNodes(heap, 0, left);
      AddModel(heap, t, msec, left);
      timers := Link(timers, t, heap);
      heap, left := Add(heap, t, msec), left[t := msec];
      RepIsLinked(null, timers, heap);
    }

    /**
     Takes a linked notifier off whatever list it is on: the heap at any depth, where
     its children are paired and take its place, or the run list.
     */
    method RemoveTimer(t: TimerNotifier)
      requires Valid() && t in known && t.linked
      modifies this`timers, this`runlist, this`heap, this`left, known
      ensures Valid() && t.Idle()
      ensures t in old(runlist) ==> heap == old(heap) && left == old(left)
      ensures t !in old(runlist) ==> t in old(left) && heap == Remove(old(heap), t)
      ensures left == old(left) - {t}
      ensures runlist == Splice(old(runlist), t, [])
      ensures |old(heap)| <= 1 && Machine() == Step(old(Machine()), Cancel(t))
    {
      Placed(t);
      SpliceOut(runlist, t);
      StepCancel(Machine(), t);
      if t in runlist {
        RemoveReady(t);
      } else {
        RemoveArmed(t);
      }
    }

    method RemoveReady(t: TimerNotifier)
      requires Valid() && t in known && t in runlist
      modifies this`runlist, known
      ensures Valid() && t.Idle() && runlist == Splice(old(runlist), t, [])
    {
      ghost var idle := Opened();
      Placed(t);
      SpliceOut(runlist, t);
      hide Rep, Represents, Nodes, Splice, Unique, Elements;
      runlist := Splice(runlist, t, []);
      t.linked := false;
      Closed(idle + {t});
    }

    method RemoveArmed(t: TimerNotifier)
      requires Valid() && t in known && t.linked && t !in runlist
      modifies this`timers, this`heap, this`left, known
      ensures Valid() && t.Idle()
      ensures heap == Remove(old(heap), t) && left == old(left) - {t}
    {
      ghost var idle := Opened();
      Placed(t);
      hide *;
      RepresentsPathSum(heap, 0, left, t);
      RemoveModel(heap, t, left);
      ghost var nodes := Nodes(heap);
      timers := Unlink(timers, t, heap);
      heap, left := Remove(heap, t), left - {t};
      IdleMore(idle, t);
      SetLess(known, nodes, Elements(runlist), t);
      Closed(idle + {t});
    }

    /**
     Moves the expired timers to the run list, level by level: the list of roots grows
     at its end with the children of each expired root while it is walked.
     */
    method RunTimers(msElapsed: uint32)
      requires Valid() && runlist == []
      modifies this`timers, this`runlist, this`heap, this`left, known
      ensures Valid()
      ensures runlist == Names(Expire(old(heap), msElapsed as nat).fired)
      ensures heap == Settle(Expire(old(heap), msElapsed as nat).kept)
      ensures left == After(old(left), msElapsed as int)
      ensures forall t <- old(left) ::
        if old(left)[t] <= msElapsed as int then t in runlist && t !in left
        else t in left && left[t] == old(left)[t] - msElapsed as int && t !in runlist
      ensures left.Keys <= old(left).Keys && forall t <- runlist :: t in old(left)
      ensures |old(heap)| <= 1 && Machine() == Step(old(Machine()), Run(msElapsed as nat))
    {
      hide *;
      ghost var idle := Opened();
      StepRun(State(heap, runlist), msElapsed as nat);
      MachineIs();
      ghost var ms := msElapsed as nat;
      ghost var sweep, later := Expire(heap, ms), After(left, ms);
      RunFacts(heap, ms, left);
      var roots, run := RunRoots(timers, msElapsed, heap);
      SplitIdle(known, Nodes(heap), Nodes(Settle(sweep.kept)), Elements(run), idle);
      timers, runlist := roots, run;
      heap, left := Settle(sweep.kept), later;
      Closed(idle);
      MachineIs();
      RunDue(old(heap), ms, old(left));
    }

    lemma MachineIs()
      ensures Machine() == State(heap, runlist)
    {
    }

    /** The dispatcher as a state of the timer machine. */
    ghost function Machine(): State<TimerNotifier>
      reads this
    {
      State(heap, runlist)
    }

    /** TimerNotifier::Set: unlink if linked, then link with the new timeout. */
    method SetTimer(t: TimerNotifier, msec: int32)
      requires Valid() && t in known
      modifies this`timers, this`runlist, this`heap, this`left, known
      ensures Valid() && t.linked
      ensures |old(heap)| <= 1 && Machine() == Step(old(Machine()), Set(t, ToUnsigned(msec) as nat))
      ensures msec >= 0 ==> left == old(left)[t := msec as int]
      ensures msec < 0 ==> left == old(left)[t := msec as int + 0x1_0000_0000]
    {
      hide Rep, Represents, Nodes, Has, At, Add, Remove, Splice, Unique, Elements, TimerNotifier.Idle;
      CancelTimer(t);
      SetDelta(t, ToUnsigned(msec));
      AddTimer(t);
    }

    method SetDelta(t: TimerNotifier, msec: uint32)
      requires Valid() && t in known && t.Idle()
      modifies t`msecDelta
      ensures Valid() && t.Idle() && t.msecDelta == msec
    {
      ghost var idle := Opened();
      Placed(t);
      hide Rep, Represents, Nodes, Unique, Elements;
      t.msecDelta := msec;
      Closed(idle);
    }

    /** TimerNotifier::Cancel. */
    method CancelTimer(t: TimerNotifier)
      requires Valid() && t in known
      modifies this`timers, this`runlist, this`heap, this`left, known
      ensures Valid() && t.Idle()
      ensures |old(heap)| <= 1 && Machine() == Step(old(Machine()), Cancel(t))
      ensures left == old(left) - {t}
    {
      Placed(t);
      if t.linked {
        RemoveTimer(t);
      }
    }

    /** Where a known notifier is. */
    lemma Placed(t: TimerNotifier)
      requires Valid() && t in known
      ensures |heap| <= 1 && (t in runlist <==> t in Elements(runlist))
      ensures !t.linked ==> t.Idle() && t !in left && t !in runlist && Has(heap, t) == 0
      ensures t.linked && t !in runlist ==> t in left && Has(heap, t) > 0
      ensures t in runlist ==> t !in left && Has(heap, t) == 0
    {
      hide Rep, Represents;
      RepIsLinked(null, timers, heap);
      RepresentsNodes(heap, 0, left);
      NodesHas(heap, t);
      if t !in Nodes(heap) && t !in runlist {
        assert t in known - Nodes(heap) - Elements(runlist);
      }
    }

    /** Takes the first notifier off the run list; its callback is the client's. */
    method FireNext() returns (t: TimerNotifier)
      requires Valid() && runlist != []
      modifies this`runlist, known
      ensures Valid() && t == old(runlist)[0] && t.Idle()
      ensures |old(heap)| <= 1 && Machine() == Step(old(Machine()), Fire)
      ensures left == old(left)
    {
      hide Rep, Represents, Nodes, Unique, Elements;
      t := runlist[0];
      assert runlist == [t] + runlist[1..];
      UniqueCons(t, runlist[1..]);
      runlist := runlist[1..];
      t.linked := false;
    }

    /**
     How long RunOnce may sleep, `elapsed` after the last run: None is for ever. Never past
     the deadline of any timer, and not shorter than the earliest one or the caller's bound needs.
     */
    method SleepTime(elapsed: nat, maxSleep: int) returns (ms: Option<nat>)
      requires Valid()
      ensures ms == None <==> left == map[] && maxSleep < 0
      ensures ms.Some? ==> forall t <- left :: ms.value <= if left[t] > elapsed then left[t] - elapsed else 0
      ensures ms.Some? && maxSleep >= 0 ==> ms.value <= maxSleep
      ensures ms.Some? ==>
                ms.value == maxSleep || exists t <- left :: ms.value == if left[t] > elapsed then left[t] - elapsed else 0
    {
      hide Rep, Represents;
      RepLength(null, timers, heap);
      Earliest(heap, left);
      if timers == [] {
        ms := if maxSleep >= 0 then Some(maxSleep) else None;
      } else {
        var root := timers[0];
        var wait := if root.msecDelta as int > elapsed then root.msecDelta as int - elapsed else 0;
        ms := Some(if maxSleep >= 0 && wait > maxSleep then maxSleep else wait);
      }
    }

    lemma Opened() returns (idle: set<TimerNotifier>)
      requires Valid()
      ensures |heap| <= 1 && Nodes(heap) <= known && Distinct(heap) && Below(heap, 0, LIMIT)
      ensures Rep(null, timers, heap) && Represents(heap, 0, left)
      ensures forall t <- left :: 0 <= left[t] < LIMIT
      ensures idle == known - Nodes(heap) - Elements(runlist) && AllIdle(idle)
      ensures Unique(runlist) && Elements(runlist) <= known - Nodes(heap) && AllAlone(Elements(runlist))
      ensures runlist == [] ==> idle == known - Nodes(heap)
    {
      RepresentsNodes(heap, 0, left);
      BelowModel(heap, left, LIMIT);
      idle := known - Nodes(heap) - Elements(runlist);
    }

    lemma Closed(idle: set<TimerNotifier>)
      requires Nodes(heap) <= known && |heap| <= 1 && Rep(null, timers, heap) && Represents(heap, 0, left)
      requires forall t <- left :: 0 <= left[t] < LIMIT
      requires Unique(runlist) && Elements(runlist) <= known - Nodes(heap) && AllAlone(Elements(runlist))
      requires idle == known - Nodes(heap) - Elements(runlist) && AllIdle(idle)
      ensures Valid()
    {
    }
  }

  lemma StepRun<T>(s: State<T>, ms: nat)
    requires |s.heap| <= 1 && s.runlist == []
    ensures Step(s, Run(ms)) == State(Settle(Expire(s.heap, ms).kept), Names(Expire(s.heap, ms).fired))
  {
  }

  lemma IdleMore(s: set<TimerNotifier>, t: TimerNotifier)
    requires AllIdle(s) && t.Idle()
    ensures AllIdle(s + {t})
  {
  }

  lemma SetLess<T>(known: set<T>, nodes: set<T>, ready: set<T>, t: T)
    requires nodes <= known && ready <= known - nodes && t in nodes
    ensures known - (nodes - {t}) - ready == known - nodes - ready + {t}
    ensures nodes - {t} <= known && ready <= known - (nodes - {t})
  {
  }

  lemma SplitIdle<T>(known: set<T>, nodes: set<T>, kept: set<T>, run: set<T>, idle: set<T>)
    requires kept <= nodes <= known && run == nodes - kept && idle == known - nodes
    ensures idle == known - kept - run && run <= known - kept
  {
  }

  /** In terms of the times left alone: what is due is ready, and all else is that much nearer. */
  lemma RunDue<T>(f: Forest<T>, ms: nat, m: map<T, int>)
    requires Represents(f, 0, m)
    ensures var later, run := After(m, ms), Names(Expire(f, ms).fired);
      && (forall t <- m :: if m[t] <= ms then t in run && t !in later else t in later && later[t] == m[t] - ms && t !in run)
      && later.Keys <= m.Keys && forall t <- run :: t in m
  {
    hide Expire, Represents, Names;
    RunFires(f, ms, m);
  }

  lemma RunFacts<T>(f: Forest<T>, ms: nat, m: map<T, int>)
    requires Represents(f, 0, m) && forall t <- m :: 0 <= m[t] < LIMIT
    ensures |Settle(Expire(f, ms).kept)| <= 1
    ensures Represents(Settle(Expire(f, ms).kept), 0, After(m, ms))
    ensures forall t <- After(m, ms) :: 0 <= After(m, ms)[t] < LIMIT
    ensures Unique(Names(Expire(f, ms).fired))
  {
    RunKeeps(f, ms, m);
    RunFires(f, ms, m);
  }

  /** The walk over the roots, and then the pairing of those that are left. */
  method RunRoots(timers: seq<TimerNotifier>, msElapsed: uint32, ghost f: Forest<TimerNotifier>)
    returns (roots: seq<TimerNotifier>, run: seq<TimerNotifier>)
    requires Rep(null, timers, f) && Distinct(f) && Below(f, 0, LIMIT)
    modifies Nodes(f)
    ensures run == Names(Expire(f, msElapsed as nat).fired)
    ensures Nodes(Settle(Expire(f, msElapsed as nat).kept)) <= Nodes(f)
    ensures Rep(null, roots, Settle(Expire(f, msElapsed as nat).kept))
    ensures Elements(run) == Nodes(f) - Nodes(Settle(Expire(f, msElapsed as nat).kept))
    ensures AllAlone(Elements(run))
  {
    hide *;
    ghost var kept;
    roots, run, kept := WalkRoots(timers, msElapsed, f);
    assert allocated(Elements(run));
    roots := SettleRoots(roots, kept);
  }

  /** More than one root left: pair them into one. */
  method SettleRoots(timers: seq<TimerNotifier>, ghost f: Forest<TimerNotifier>) returns (r: seq<TimerNotifier>)
    requires Rep(null, timers, f) && Distinct(f)
    modifies Nodes(f)
    ensures Nodes(Settle(f)) == Nodes(f)
    ensures Rep(null, r, Settle(f))
  {
    hide Rep, Nodes, Distinct, PairAll, Settle;
    RepLength(null, timers, f);
    SettleNodes(f);
    r := timers;
    if |timers| >= 2 {
      var root := PairTimers(timers, 0, null, f);
      r := [root];
    }
  }

  lemma SettleNodes<T>(f: Forest<T>)
    requires Distinct(f)
    ensures Settle(f) == if |f| <= 1 then f else [PairAll(f, 0)]
    ensures Nodes(Settle(f)) == Nodes(f)
  {
    if |f| > 1 {
      PairAllNodes(f, 0);
    }
  }

  /** The root of the heap is the timer with the least time left. */
  lemma Earliest<T>(f: Forest<T>, m: map<T, int>)
    requires |f| <= 1 && Represents(f, 0, m)
    ensures f == [] <==> m == map[]
    ensures f != [] ==> f[0].timer in m && m[f[0].timer] == f[0].delta
    ensures forall t <- m :: f != [] && f[0].delta <= m[t]
  {
    forall t <- m
      ensures f != [] && f[0].delta <= m[t]
    {
      RootIsEarliest(f, 0, t, m[t]);
    }
    if f != [] {
      RepresentsPathSum(f, 0, m, f[0].timer);
    }
  }

  lemma RepresentsNodes<T>(f: Forest<T>, base: int, m: map<T, int>)
    requires Represents(f, base, m)
    ensures Nodes(f) == m.Keys && Distinct(f)
  {
  }

  lemma {:induction false} RepIsLinked(up: TimerNotifier?, l: seq<TimerNotifier>, f: Forest<TimerNotifier>)
    requires Rep(up, l, f)
    ensures forall t <- Nodes(f) :: t.linked
    decreases f
  {
    if f != [] {
      RepIsLinked(l[0], l[0].children, f[0].kids);
      RepIsLinked(up, l[1..], f[1..]);
    }
  }

  /** The linking of AddTimer: below the root if due later than it, else above it. */
  method Link(timers: seq<TimerNotifier>, t: TimerNotifier, ghost f: Forest<TimerNotifier>)
    returns (r: seq<TimerNotifier>)
    requires |f| <= 1 && Rep(null, timers, f) && Distinct(f)
    requires t !in Nodes(f) && t.Idle()
    modifies {t} + Nodes(f)
    ensures |Add(f, t, old(t.msecDelta) as nat)| == 1
    ensures Nodes(Add(f, t, old(t.msecDelta) as nat)) == Nodes(f) + {t}
    ensures Rep(null, r, Add(f, t, old(t.msecDelta) as nat))
  {
    RepLength(null, timers, f);
    ghost var msec := t.msecDelta as nat;
    t.linked := true;
    if timers == [] {
      RepLeaf(null, t);
      return [t];
    }
    var root := timers[0];
    assert f == [f[0]] && timers == [root];
    if root.msecDelta < t.msecDelta {
      LinkBelow(root, t, f[0]);
      r := timers;
    } else {
      LinkAbove(root, t, msec, f[0]);
      r := [t];
    }
  }

  lemma RepLeaf(up: TimerNotifier?, t: TimerNotifier)
    requires t.linked && t.up == up && t.children == []
    ensures var leaf := [Node(t, t.msecDelta as nat, [])];
            Nodes(leaf) == {t} && Rep(up, [t], leaf)
  {
    var leaf := [Node(t, t.msecDelta as nat, [])];
    assert leaf[1..] == [] && [t][1..] == [];
  }

  method LinkBelow(root: TimerNotifier, t: TimerNotifier, ghost x: Tree<TimerNotifier>)
    requires Rep(null, [root], [x]) && Distinct([x])
    requires t !in Nodes([x]) && t.linked && t.up == null && t.children == []
    requires root.msecDelta < t.msecDelta
    modifies t, root
    ensures var y := x.(kids := [Node(t, old(t.msecDelta) as int - x.delta, [])] + x.kids);
            Nodes([y]) == Nodes([x]) + {t} && Rep(null, [root], [y])
  {
    DistinctKids(x);
    assert root in Nodes([x]) && allocated(Nodes(x.kids));
    t.msecDelta := t.msecDelta - root.msecDelta;
    t.up := root;
    ghost var leaf := [Node(t, t.msecDelta as nat, [])];
    RepLeaf(root, t);
    RepAppend(root, [t], leaf, root.children, x.kids);
    root.children := [t] + root.children;
  }

  method LinkAbove(root: TimerNotifier, t: TimerNotifier, ghost msec: nat, ghost x: Tree<TimerNotifier>)
    requires Rep(null, [root], [x]) && Distinct([x])
    requires t !in Nodes([x]) && t.linked && t.up == null && t.children == []
    requires t.msecDelta as nat == msec <= x.delta
    modifies t, root
    ensures var y := Node(t, msec, [Lower(x, msec)]);
            Nodes([y]) == Nodes([x]) + {t} && Rep(null, [t], [y])
  {
    DistinctKids(x);
    assert root in Nodes([x]) && allocated(Nodes(x.kids));
    root.msecDelta := root.msecDelta - t.msecDelta;
    root.up := t;
    ghost var low := [Lower(x, msec)];
    assert low[1..] == [] && Nodes(low) == Nodes([x]) && Rep(t, [root], low);
    t.children := [root];
  }

  method Unlink(timers: seq<TimerNotifier>, t: TimerNotifier, ghost f: Forest<TimerNotifier>)
    returns (r: seq<TimerNotifier>)
    requires Rep(null, timers, f) && Distinct(f) && Has(f, t) > 0 && Below(f, 0, LIMIT)
    modifies Nodes(f)
    ensures t in Nodes(f) && Nodes(Remove(f, t)) == Nodes(f) - {t}
    ensures Rep(null, r, Remove(f, t))
    ensures t.Idle()
  {
    hide Rep, Nodes, Has, Remove, Splice, Below, PairAll;
    SubFacts(null, timers, f, 0, t);
    RemoveNodes(f, t);
    ghost var x := Sub(f, t);
    SuccessorsNodes(x);
    DistinctKids(x);
    assert allocated(Nodes(f));
    var p := t.up;
    var repl := Merge(t, p, x);
    r := timers;
    assert allocated(Nodes(Successors(x)));
    if p == null {
      r := Splice(timers, t, repl);
    } else {
      p.children := Splice(p.children, t, repl);
    }
    UnlinkRep(null, timers, f, t, p, repl);
    assert allocated(Nodes(Remove(f, t)));
    t.linked, t.up, t.children := false, null, [];
  }

  /** Puts the root `a` on the list that `p` heads. */
  method Relink(a: TimerNotifier, p: TimerNotifier?, ghost x: Tree<TimerNotifier>)
    requires Rep(null, [a], [x]) && Distinct([x])
    modifies a`up
    ensures Rep(p, [a], [x])
  {
    DistinctKids(x);
    assert allocated(Nodes(x.kids));
    a.up := p;
  }

  /** What takes the place of `t`: nothing, or its children paired into one. */
  method Merge(t: TimerNotifier, p: TimerNotifier?, ghost x: Tree<TimerNotifier>) returns (repl: seq<TimerNotifier>)
    requires Rep(p, [t], [x]) && Distinct([x]) && Below(x.kids, x.delta, LIMIT)
    modifies Nodes([x]) - {t}
    ensures Rep(p, repl, Successors(x))
  {
    DistinctKids(x);
    repl := [];
    if t.children != [] {
      BelowRaise(x.kids, x.delta, LIMIT);
      PairAllNodes(x.kids, x.delta);
      assert allocated(Nodes(x.kids));
      var a := PairTimers(t.children, t.msecDelta, t, x.kids);
      assert a in Nodes(x.kids);
      Relink(a, p, PairAll(x.kids, x.delta));
      repl := [a];
    }
  }

  lemma RemoveNodes<T>(f: Forest<T>, t: T)
    requires Distinct(f) && Has(f, t) > 0
    ensures Nodes(Remove(f, t)) == Nodes(f) - {t}
  {
    forall u <- Nodes(f) + Nodes(Remove(f, t))
      ensures u in Nodes(Remove(f, t)) <==> u in Nodes(f) && u != t
    {
      RemoveCount(f, t, 0, u, 0);
      NodesHas(f, u);
      NodesHas(Remove(f, t), u);
    }
  }

  // ---- the sweep in place -----------------------------------------------------------------

  lemma SweepNodes<T>(h: Forest<T>, g: Forest<T>)
    requires g != [] && Distinct(h + g)
    ensures var g' := g[1..] + RaiseAll(g[0].kids, g[0].delta);
            && Distinct(h + g') && Nodes(h + g') == Nodes(h + g) - {g[0].timer}
  {
    var x := g[0];
    var more := RaiseAll(x.kids, x.delta);
    var g' := g[1..] + more;
    assert g == [x] + g[1..];
    forall t <- Nodes(h + g) + Nodes(h + g')
      ensures Has(h + g', t) + One(t == x.timer) == Has(h + g, t)
      ensures t in Nodes(h + g') <==> Has(h + g', t) > 0
      ensures t in Nodes(h + g) <==> Has(h + g, t) > 0
    {
      CountAppend(h, g, 0, t, 0);
      CountAppend([x], g[1..], 0, t, 0);
      CountRoot(x, 0, t, 0);
      CountAppend(h, g', 0, t, 0);
      CountAppend(g[1..], more, 0, t, 0);
      CountRaise(x.kids, x.delta, 0, t, 0);
      NodesHas(h + g, t);
      NodesHas(h + g', t);
    }
  }

  lemma RaiseStepNodes<T>(h: Forest<T>, k: Forest<T>, delta: nat)
    requires k != [] && Distinct(h + k)
    ensures var h' := h + [Raise(k[0], delta)];
            && Nodes(h' + k[1..]) == Nodes(h + k) && Distinct(h' + k[1..])
            && h' + RaiseAll(k[1..], delta) == h + RaiseAll(k, delta)
  {
    var one, h' := [Raise(k[0], delta)], h + [Raise(k[0], delta)];
    assert h' + RaiseAll(k[1..], delta) == h + RaiseAll(k, delta);
    hide Has, At, Nodes, Distinct, RaiseAll;
    forall t <- Nodes(h + k) + Nodes(h' + k[1..])
      ensures Has(h + k, t) == Has(h' + k[1..], t)
    {
      RaiseStepCount(h, k, delta, t);
    }
    SameCounts(h + k, h' + k[1..]);
  }

  lemma RaiseStepCount<T>(h: Forest<T>, k: Forest<T>, delta: nat, t: T)
    requires k != []
    ensures Has(h + k, t) == Has(h + [Raise(k[0], delta)] + k[1..], t)
  {
    hide Has, At;
    var one := [Raise(k[0], delta)];
    CountAppend(h, k, 0, t, 0);
    CountSplit(k, 0, t, 0);
    CountAppend(h + one, k[1..], 0, t, 0);
    CountAppend(h, one, 0, t, 0);
    CountRoot(k[0], 0, t, 0);
    CountRoot(one[0], 0, t, 0);
  }

  /** Takes the children off an expired root, adding its delta to each. */
  method ExpireRoot(to: TimerNotifier, ghost x: Tree<TimerNotifier>) returns (out: seq<TimerNotifier>)
    requires Rep(null, [to], [x]) && Distinct([x]) && Below(x.kids, x.delta, LIMIT)
    modifies Nodes([x])
    ensures Nodes(RaiseAll(x.kids, x.delta)) == Nodes(x.kids) && to !in Nodes(x.kids)
    ensures Rep(null, out, RaiseAll(x.kids, x.delta))
    ensures to.Alone()
  {
    hide Rep, Nodes, Distinct, Has, RaiseAll, Below;
    out := [];
    ghost var h, k: Forest<TimerNotifier> := [], x.kids;
    ExpireStart(to, x);
    assert allocated(Nodes(x.kids));
    while to.children != []
      invariant to.linked && to.up == null && to.msecDelta as int == x.delta
      invariant Rep(to, to.children, k) && Rep(null, out, h)
      invariant Distinct(h + k) && Nodes(h + k) == Nodes(x.kids)
      invariant Nodes(h) <= Nodes(x.kids) && Nodes(k) <= Nodes(x.kids)
      invariant h + RaiseAll(k, x.delta) == RaiseAll(x.kids, x.delta)
      invariant forall i :: 0 <= i < |k| ==> k[i].delta + x.delta < LIMIT
      decreases |to.children|
    {
      RepLength(to, to.children, k);
      RaiseStepNodes(h, k, x.delta);
      var c := PopChild(to, k, out, h);
      out := out + [c];
      h, k := h + [Raise(k[0], x.delta)], k[1..];
      DistinctAppend(h, k);
    }
    RepLength(to, to.children, k);
    assert k == [] && h + k == h && h + [] == h;
  }

  lemma ExpireStart(to: TimerNotifier, x: Tree<TimerNotifier>)
    requires Rep(null, [to], [x]) && Distinct([x]) && Below(x.kids, x.delta, LIMIT)
    ensures to.linked && to.up == null && to.msecDelta as int == x.delta
    ensures Rep(to, to.children, x.kids) && Rep(null, [], [])
    ensures Distinct([] + x.kids) && Nodes([] + x.kids) == Nodes(x.kids) && Nodes([]) <= Nodes(x.kids)
    ensures Nodes(x.kids) <= Nodes([x]) && to in Nodes([x]) && to !in Nodes(x.kids)
    ensures [] + RaiseAll(x.kids, x.delta) == RaiseAll(x.kids, x.delta)
    ensures RaiseAll<TimerNotifier>([], x.delta) == []
    ensures forall i :: 0 <= i < |x.kids| ==> x.kids[i].delta + x.delta < LIMIT
  {
    DistinctKids(x);
    BelowRaise(x.kids, x.delta, LIMIT);
    assert [] + x.kids == x.kids;
    RepNil(null);
    RepRoot(null, to, x);
  }

  method PopChild(to: TimerNotifier, ghost k: Forest<TimerNotifier>,
                  ghost out: seq<TimerNotifier>, ghost h: Forest<TimerNotifier>)
    returns (c: TimerNotifier)
    requires to.children != [] && Rep(to, to.children, k) && Rep(null, out, h)
    requires Distinct(h + k) && to !in Nodes(h + k)
    requires |k| > 0 ==> k[0].delta + to.msecDelta as int < LIMIT
    modifies to`children, Nodes(k)
    ensures k != [] && to.children == old(to.children)[1..]
    ensures unchanged(to`linked) && unchanged(to`up) && unchanged(to`msecDelta)
    ensures Nodes(k[1..]) <= Nodes(k) && Nodes(h + [Raise(k[0], to.msecDelta as nat)]) <= Nodes(h + k)
    ensures Rep(to, to.children, k[1..])
    ensures Rep(null, out + [c], h + [Raise(k[0], to.msecDelta as nat)])
  {
    hide Rep, Nodes, Distinct, Has;
    RepLength(to, to.children, k);
    ghost var delta := to.msecDelta as nat;
    assert k == [k[0]] + k[1..];
    RaiseStepNodes(h, k, delta);
    DistinctAppend(h, k);
    DistinctAppend([k[0]], k[1..]);
    RepTake(to, to.children, k, 1);
    assert k[..1] == [k[0]] && to.children[..1] == [to.children[0]];
    assert allocated(Nodes(h)) && allocated(Nodes([k[0]])) && allocated(Nodes(k[1..]));
    c := to.children[0];
    RepRoot(to, c, k[0]);
    to.children := to.children[1..];
    Detach(c, to.msecDelta, to, k[0]);
    RepAppend(null, out, h, [c], [Raise(k[0], delta)]);
    NodesAppend(h + [Raise(k[0], delta)], k[1..]);
  }

  lemma LowerStepNodes<T>(h: Forest<T>, g: Forest<T>, ms: nat)
    requires g != [] && ms <= g[0].delta && Distinct(h + g)
    ensures var h' := h + [Lower(g[0], ms)];
            Nodes(h' + g[1..]) == Nodes(h + g) && Distinct(h' + g[1..])
  {
    var x, y := g[0], Lower(g[0], ms);
    assert g == [x] + g[1..];
    hide At, Has, Nodes, Distinct;
    forall t <- Nodes(h + g) + Nodes(h + [y] + g[1..])
      ensures Has(h + g, t) == Has(h + [y] + g[1..], t)
    {
      CountAppend(h, g, 0, t, 0);
      CountAppend([x], g[1..], 0, t, 0);
      CountAppend(h + [y], g[1..], 0, t, 0);
      CountAppend(h, [y], 0, t, 0);
      CountRoot(x, 0, t, 0);
      CountRoot(y, 0, t, 0);
    }
    SameCounts(h + g, h + [y] + g[1..]);
  }

  lemma BelowStep<T>(g: Forest<T>, limit: int)
    requires g != [] && Below(g, 0, limit)
    ensures Below(g[1..], 0, limit) && Below(g[0].kids, g[0].delta, limit)
    ensures Below(g[1..] + RaiseAll(g[0].kids, g[0].delta), 0, limit)
  {
    BelowRaise(g[0].kids, g[0].delta, limit);
    BelowAppend(g[1..], RaiseAll(g[0].kids, g[0].delta), 0, limit);
  }

  /** Subtracts the elapsed time from a root that has not expired. */
  method LowerRoot(to: TimerNotifier, msElapsed: uint32, ghost x: Tree<TimerNotifier>)
    requires Rep(null, [to], [x]) && Distinct([x]) && msElapsed as int <= x.delta
    modifies to`msecDelta
    ensures Nodes([Lower(x, msElapsed as nat)]) == Nodes([x])
    ensures Rep(null, [to], [Lower(x, msElapsed as nat)])
  {
    DistinctKids(x);
    assert allocated(Nodes(x.kids));
    to.msecDelta := to.msecDelta - msElapsed;
  }

  /** One root of the walk: expired, it leaves its children at the end; otherwise it is kept. */
  method WalkStep(roots: seq<TimerNotifier>, i: nat, msElapsed: uint32,
                  ghost h: Forest<TimerNotifier>, ghost g: Forest<TimerNotifier>)
    returns (expired: bool, roots': seq<TimerNotifier>, ghost h': Forest<TimerNotifier>, ghost g': Forest<TimerNotifier>)
    requires i < |roots| && Rep(null, roots[..i], h) && Rep(null, roots[i..], g)
    requires Distinct(h + g) && Below(g, 0, LIMIT)
    modifies Nodes(g)
    ensures g != [] && roots[i] == g[0].timer && roots[i] in Nodes(g)
    ensures expired <==> g[0].delta <= msElapsed as int
    ensures Nodes(h') <= Nodes(h + g) && Nodes(g') <= Nodes(h + g)
    ensures expired ==>
              && h' == h && g' == g[1..] + RaiseAll(g[0].kids, g[0].delta)
              && Nodes(h' + g') == Nodes(h + g) - {roots[i]}
              && i <= |roots'| && Rep(null, roots'[..i], h') && Rep(null, roots'[i..], g')
              && roots[i].Alone()
    ensures !expired ==>
              && h' == h + [Lower(g[0], msElapsed as nat)] && g' == g[1..]
              && Nodes(h' + g') == Nodes(h + g)
              && i < |roots'| && Rep(null, roots'[..i + 1], h') && Rep(null, roots'[i + 1..], g')
    ensures Distinct(h' + g') && Below(g', 0, LIMIT)
  {
    hide *;
    var to := roots[i];
    RepLength(null, roots[i..], g);
    DistinctAppend(h, g);
    ghost var x, rest := g[0], g[1..];
    assert g == [x] + rest;
    DistinctAppend([x], rest);
    RepTake(null, roots[i..], g, 1);
    assert g[..1] == [x] && roots[i..][..1] == [to] && roots[i..][1..] == roots[i + 1..];
    RepRoot(null, to, x);
    BelowStep(g, LIMIT);
    assert allocated(Nodes(h)) && allocated(Nodes([x])) && allocated(Nodes(rest));
    expired := to.msecDelta <= msElapsed;
    if expired {
      SweepNodes(h, g);
      var out := ExpireRoot(to, x);
      h', g' := h, rest + RaiseAll(x.kids, x.delta);
      RepAppend(null, roots[i + 1..], rest, out, RaiseAll(x.kids, x.delta));
      roots' := roots[..i] + (roots[i + 1..] + out);
      assert roots'[..i] == roots[..i] && roots'[i..] == roots[i + 1..] + out;
    } else {
      LowerStepNodes(h, g, msElapsed as nat);
      LowerRoot(to, msElapsed, x);
      h', g' := h + [Lower(x, msElapsed as nat)], rest;
      RepAppend(null, roots[..i], h, [to], [Lower(x, msElapsed as nat)]);
      roots' := roots;
      assert roots[..i] + [to] == roots[..i + 1];
    }
    DistinctAppend(h', g');
  }

  /** Walks the list of roots, which grows at its end while it is walked. */
  method WalkRoots(timers: seq<TimerNotifier>, msElapsed: uint32, ghost f: Forest<TimerNotifier>)
    returns (roots: seq<TimerNotifier>, run: seq<TimerNotifier>, ghost kept: Forest<TimerNotifier>)
    requires Rep(null, timers, f) && Distinct(f) && Below(f, 0, LIMIT)
    modifies Nodes(f)
    ensures kept == Expire(f, msElapsed as nat).kept && run == Names(Expire(f, msElapsed as nat).fired)
    ensures Nodes(kept) <= Nodes(f) && Distinct(kept) && Rep(null, roots, kept)
    ensures Elements(run) == Nodes(f) - Nodes(kept)
    ensures AllAlone(Elements(run))
  {
    hide Rep, Nodes, Distinct, Has, Below, Expire, Names, Elements, Partition, Size;
    ghost var ms := msElapsed as nat;
    roots, run, kept := timers, [], [];
    var i := 0;
    ghost var g, done: seq<(TimerNotifier, int)> := f, [];
    ghost var all := Expire(f, ms);
    WalkStart(timers, f, ms);
    while i < |roots|
      invariant 0 <= i <= |roots|
      invariant Nodes(kept) <= Nodes(f) && Nodes(g) <= Nodes(f)
      invariant Partition(Nodes(f), Nodes(kept + g), Elements(run))
      invariant Rep(null, roots[..i], kept) && Rep(null, roots[i..], g)
      invariant Distinct(kept + g) && Below(g, 0, LIMIT)
      invariant all == Sweep(kept + Expire(g, ms).kept, done + Expire(g, ms).fired)
      invariant run == Names(done)
      invariant AllAlone(Elements(run))
      decreases Size(g)
    {
      var to, expired := roots[i], false;
      RepLength(null, roots[i..], g);
      NodesAppend(kept, g);
      SweepOn(g, ms, kept, done, all);
      WalkSize(g);
      ghost var root := g[0];
      ghost var nodes := Nodes(kept + g);
      PartitionParts(Nodes(f), nodes, Elements(run));
      assert Nodes(g) !! Elements(run) && allocated(Elements(run));
      expired, roots, kept, g := WalkStep(roots, i, msElapsed, kept, g);
      if expired {
        ElementsOne(run, to);
        PartitionMove(Nodes(f), nodes, Elements(run), to);
        run := run + [to];
        NamesOne(done, root.timer, root.delta);
        done := done + [(root.timer, root.delta as int)];
      } else {
        i := i + 1;
      }
    }
    RepLength(null, roots[i..], g);
    assert roots[..i] == roots && g == [] && kept + g == kept;
    PartitionParts(Nodes(f), Nodes(kept), Elements(run));
  }

  lemma WalkStart(timers: seq<TimerNotifier>, f: Forest<TimerNotifier>, ms: nat)
    ensures [] + f == f && timers[..0] == [] && timers[0..] == timers
    ensures var all := Expire(f, ms); all == Sweep([] + all.kept, [] + all.fired)
    ensures Expire<TimerNotifier>([], ms) == Sweep([], [])
    ensures Names<TimerNotifier>([]) == [] && Elements<TimerNotifier>([]) == {} && AllAlone({})
    ensures Nodes([]) <= Nodes(f) && Partition(Nodes(f), Nodes([] + f), {}) && Rep(null, [], [])
  {
    RepNil(null);
    assert [] + f == f;
  }

  ghost predicate Partition<T>(all: set<T>, a: set<T>, b: set<T>) {
    a !! b && a + b == all
  }

  lemma PartitionMove<T>(all: set<T>, a: set<T>, b: set<T>, t: T)
    requires Partition(all, a, b) && t in a
    ensures Partition(all, a - {t}, b + {t})
  {
  }

  lemma PartitionParts<T>(all: set<T>, a: set<T>, b: set<T>)
    requires Partition(all, a, b)
    ensures a <= all && b <= all && b == all - a
  {
  }

  lemma SweepOn<T>(g: Forest<T>, ms: nat, kept: Forest<T>, done: seq<(T, int)>, all: Sweep<T>)
    requires g != [] && all == Sweep(kept + Expire(g, ms).kept, done + Expire(g, ms).fired)
    ensures var x, rest := g[0], g[1..];
            if x.delta <= ms
            then var s := Expire(rest + RaiseAll(x.kids, x.delta), ms);
                 all == Sweep(kept + s.kept, done + [(x.timer, x.delta as int)] + s.fired)
            else var s := Expire(rest, ms);
                 all == Sweep(kept + [Lower(x, ms)] + s.kept, done + s.fired)
  {
  }

  lemma WalkSize<T>(g: Forest<T>)
    requires g != []
    ensures Size(g[1..]) < Size(g) && Size(g[1..] + RaiseAll(g[0].kids, g[0].delta)) < Size(g)
  {
    SizeAppend(g[1..], RaiseAll(g[0].kids, g[0].delta));
    SizeRaise(g[0].kids, g[0].delta);
  }

  lemma NamesOne<T>(a: seq<(T, int)>, t: T, left: int)
    ensures Names(a + [(t, left)]) == Names(a) + [t]
  {
  }
}
