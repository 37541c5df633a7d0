/**
 The timer heap of the event dispatcher, as a value.

 A timer node stores only the difference between its own timeout and that of its
 parent, so the time left to a timer is the sum of the deltas on its root path.
 The functions here are what the in-place methods of module Events are proved
 against; the lemmas say what they do to the multiset of (timer, time left) pairs.
 */
module TimerForest {
  import opened Options

  datatype Tree<T> = Node(timer: T, delta: nat, kids: seq<Tree<T>>)

  type Forest<T> = seq<Tree<T>>

  /** How many nodes of a forest hold `t`. */
  ghost function Has<T>(f: Forest<T>, t: T): nat {
    if f == [] then 0
    else (if f[0].timer == t then 1 else 0) + Has(f[0].kids, t) + Has(f[1..], t)
  }

  /** How many nodes hold `t` with `left` on their root path, the roots counting from `base`. */
  ghost function At<T>(f: Forest<T>, base: int, t: T, left: int): nat {
    if f == [] then 0
    else
      (if f[0].timer == t && base + f[0].delta == left then 1 else 0)
      + At(f[0].kids, base + f[0].delta, t, left)
      + At(f[1..], base, t, left)
  }

  /** The number of nodes. */
  ghost function Size<T>(f: Forest<T>): nat {
    if f == [] then 0 else 1 + Size(f[0].kids) + Size(f[1..])
  }

  function Raise<T>(x: Tree<T>, delta: nat): Tree<T> {
    x.(delta := x.delta + delta)
  }

  function Lower<T>(x: Tree<T>, delta: nat): Tree<T>
    requires delta <= x.delta
  {
    x.(delta := x.delta - delta)
  }

  function RaiseAll<T>(f: Forest<T>, delta: nat): (r: Forest<T>)
    ensures |r| == |f|
    ensures forall i :: 0 <= i < |f| ==> r[i] == Raise(f[i], delta)
  {
    if f == [] then [] else [Raise(f[0], delta)] + RaiseAll(f[1..], delta)
  }

  // ---- pairing ------------------------------------------------------------

  /** The first pass links two neighbours; the loser goes to the end of the winner's children. */
  function Pair<T>(a: Tree<T>, b: Tree<T>): Tree<T> {
    if b.delta < a.delta
    then b.(kids := b.kids + [Lower(a, b.delta)])
    else a.(kids := a.kids + [Lower(b, a.delta)])
  }

  function PairPass<T>(f: Forest<T>, delta: nat): (r: Forest<T>)
    ensures f != [] ==> r != []
  {
    if f == [] then []
    else if |f| == 1 then [Raise(f[0], delta)]
    else [Pair(Raise(f[0], delta), Raise(f[1], delta))] + PairPass(f[2..], delta)
  }

  /** The second pass folds from the right; here the loser goes to the front. */
  function Absorb<T>(b: Tree<T>, a: Tree<T>): Tree<T> {
    if b.delta < a.delta
    then b.(kids := [Lower(a, b.delta)] + b.kids)
    else a.(kids := [Lower(b, a.delta)] + a.kids)
  }

  function Collect<T>(f: Forest<T>): Tree<T>
    requires f != []
  {
    if |f| == 1 then f[0] else Absorb(f[0], Collect(f[1..]))
  }

  function PairAll<T>(f: Forest<T>, delta: nat): Tree<T>
    requires f != []
  {
    Collect(PairPass(f, delta))
  }

  // ---- the heap operations ----------------------------------------------------

  function Add<T>(f: Forest<T>, t: T, msec: nat): (r: Forest<T>)
    requires |f| <= 1
    ensures |r| == 1
  {
    if f == [] then [Node(t, msec, [])]
    else if f[0].delta < msec
    then [f[0].(kids := [Node(t, msec - f[0].delta, [])] + f[0].kids)]
    else [Node(t, msec, [Lower(f[0], msec)])]
  }

  /** What takes the place of a removed timer among its siblings. */
  function Successors<T>(x: Tree<T>): Forest<T> {
    if x.kids == [] then [] else [PairAll(x.kids, x.delta)]
  }

  ghost function Remove<T>(f: Forest<T>, t: T): Forest<T> {
    if f == [] then []
    else if f[0].timer == t then Successors(f[0]) + f[1..]
    else if Has(f[0].kids, t) > 0 then [f[0].(kids := Remove(f[0].kids, t))] + f[1..]
    else [f[0]] + Remove(f[1..], t)
  }

  datatype Sweep<T> = Sweep(kept: Forest<T>, fired: seq<(T, int)>)

  /** Walks a list of roots: an expired root hands its children to the end of the list. */
  ghost function Expire<T>(pending: Forest<T>, ms: nat): Sweep<T>
    decreases Size(pending)
  {
    if pending == [] then Sweep([], [])
    else
      var x := pending[0];
      SizeSplit(pending);
      if x.delta <= ms then
        SizeAppend(pending[1..], RaiseAll(x.kids, x.delta));
        SizeRaise(x.kids, x.delta);
        var s := Expire(pending[1..] + RaiseAll(x.kids, x.delta), ms);
        Sweep(s.kept, [(x.timer, x.delta)] + s.fired)
      else
        var s := Expire(pending[1..], ms);
        Sweep([Lower(x, ms)] + s.kept, s.fired)
  }

  function Settle<T>(f: Forest<T>): (r: Forest<T>)
    ensures |r| <= 1
  {
    if |f| <= 1 then f else [PairAll(f, 0)]
  }

  // ---- sizes, appends and shifts ------------------------------------------------

  lemma SizeSplit<T>(f: Forest<T>)
    requires f != []
    ensures Size(f) == 1 + Size(f[0].kids) + Size(f[1..])
  {
  }

  lemma {:induction false} SizeAppend<T>(f: Forest<T>, g: Forest<T>)
    ensures Size(f + g) == Size(f) + Size(g)
  {
    if f == [] {
      assert f + g == g;
    } else {
      assert (f + g)[1..] == f[1..] + g;
      SizeAppend(f[1..], g);
    }
  }

  lemma {:induction false} SizeRaise<T>(f: Forest<T>, delta: nat)
    ensures Size(RaiseAll(f, delta)) == Size(f)
  {
    if f != [] {
      assert RaiseAll(f, delta)[1..] == RaiseAll(f[1..], delta);
      SizeRaise(f[1..], delta);
    }
  }

  lemma {:induction false} CountAppend<T>(f: Forest<T>, g: Forest<T>, base: int, t: T, left: int)
    ensures At(f + g, base, t, left) == At(f, base, t, left) + At(g, base, t, left)
    ensures Has(f + g, t) == Has(f, t) + Has(g, t)
  {
    if f == [] {
      assert f + g == g;
    } else {
      assert (f + g)[1..] == f[1..] + g;
      CountAppend(f[1..], g, base, t, left);
    }
  }

  lemma CountSplit<T>(f: Forest<T>, base: int, t: T, left: int)
    requires f != []
    ensures At(f, base, t, left) == At([f[0]], base, t, left) + At(f[1..], base, t, left)
    ensures Has(f, t) == Has([f[0]], t) + Has(f[1..], t)
  {
    assert f == [f[0]] + f[1..];
    CountAppend([f[0]], f[1..], base, t, left);
  }

  lemma CountRoot<T>(x: Tree<T>, base: int, t: T, left: int)
    ensures At([x], base, t, left)
         == One(x.timer == t && base + x.delta == left) + At(x.kids, base + x.delta, t, left)
    ensures Has([x], t) == One(x.timer == t) + Has(x.kids, t)
  {
    assert [x][1..] == [];
  }

  /** Raising every root by `delta` is the same as counting from a later base. */
  lemma {:induction false} CountRaise<T>(f: Forest<T>, delta: nat, base: int, t: T, left: int)
    ensures At(RaiseAll(f, delta), base, t, left) == At(f, base + delta, t, left)
    ensures Has(RaiseAll(f, delta), t) == Has(f, t)
  {
    if f != [] {
      assert RaiseAll(f, delta)[1..] == RaiseAll(f[1..], delta);
      CountRaise(f[1..], delta, base, t, left);
    }
  }

  // ---- pairing changes no deadline ------------------------------------------------

  lemma PairKeepsCount<T>(a: Tree<T>, b: Tree<T>, base: int, t: T, left: int)
    ensures At([Pair(a, b)], base, t, left) == At([a, b], base, t, left)
    ensures Has([Pair(a, b)], t) == Has([a, b], t)
  {
    hide At, Has;
    var w, l := if b.delta < a.delta then b else a, if b.delta < a.delta then a else b;
    var low := Lower(l, w.delta);
    CountAppend([a], [b], base, t, left);
    assert [a] + [b] == [a, b];
    CountRoot(Pair(a, b), base, t, left);
    CountAppend(w.kids, [low], base + w.delta, t, left);
    CountRoot(low, base + w.delta, t, left);
    CountRoot(w, base, t, left);
    CountRoot(l, base, t, left);
  }

  lemma AbsorbKeepsCount<T>(b: Tree<T>, a: Tree<T>, base: int, t: T, left: int)
    ensures At([Absorb(b, a)], base, t, left) == At([b, a], base, t, left)
    ensures Has([Absorb(b, a)], t) == Has([b, a], t)
  {
    hide At, Has;
    var w, l := if b.delta < a.delta then b else a, if b.delta < a.delta then a else b;
    var low := Lower(l, w.delta);
    CountAppend([b], [a], base, t, left);
    assert [b] + [a] == [b, a];
    CountRoot(Absorb(b, a), base, t, left);
    CountAppend([low], w.kids, base + w.delta, t, left);
    CountRoot(low, base + w.delta, t, left);
    CountRoot(w, base, t, left);
    CountRoot(l, base, t, left);
  }

  lemma {:induction false} PairPassKeepsCount<T>(f: Forest<T>, delta: nat, base: int, t: T, left: int)
    ensures At(PairPass(f, delta), base, t, left) == At(f, base + delta, t, left)
    ensures Has(PairPass(f, delta), t) == Has(f, t)
  {
    if |f| == 1 {
      assert PairPass(f, delta) == RaiseAll(f, delta);
      CountRaise(f, delta, base, t, left);
    } else if |f| >= 2 {
      var a, b := Raise(f[0], delta), Raise(f[1], delta);
      assert RaiseAll(f[..2], delta) == [a, b];
      assert f == f[..2] + f[2..];
      PairPassKeepsCount(f[2..], delta, base, t, left);
      PairKeepsCount(a, b, base, t, left);
      CountSplit(PairPass(f, delta), base, t, left);
      CountRaise(f[..2], delta, base, t, left);
      CountAppend(f[..2], f[2..], base + delta, t, left);
    }
  }

  lemma {:induction false} CollectKeepsCount<T>(f: Forest<T>, base: int, t: T, left: int)
    requires f != []
    ensures At([Collect(f)], base, t, left) == At(f, base, t, left)
    ensures Has([Collect(f)], t) == Has(f, t)
  {
    if |f| == 1 {
      assert f == [f[0]];
    } else {
      var a := Collect(f[1..]);
      CollectKeepsCount(f[1..], base, t, left);
      AbsorbKeepsCount(f[0], a, base, t, left);
      CountSplit([f[0], a], base, t, left);
      CountSplit(f, base, t, left);
    }
  }

  /** Both passes together: one root, every timer where it was. */
  lemma PairAllKeepsCount<T>(f: Forest<T>, delta: nat, base: int, t: T, left: int)
    requires f != []
    ensures At([PairAll(f, delta)], base, t, left) == At(f, base + delta, t, left)
    ensures Has([PairAll(f, delta)], t) == Has(f, t)
  {
    PairPassKeepsCount(f, delta, base, t, left);
    CollectKeepsCount(PairPass(f, delta), base, t, left);
  }

  lemma SettleKeepsCount<T>(f: Forest<T>, base: int, t: T, left: int)
    ensures At(Settle(f), base, t, left) == At(f, base, t, left)
    ensures Has(Settle(f), t) == Has(f, t)
  {
    if |f| > 1 {
      PairAllKeepsCount(f, 0, base, t, left);
    }
  }

  // ---- what each operation does to the counts ---------------------------------------

  /** Adding a timer adds exactly that timer with exactly that timeout. */
  lemma AddCount<T>(f: Forest<T>, t: T, msec: nat, u: T, left: int)
    requires |f| <= 1
    ensures At(Add(f, t, msec), 0, u, left) == At(f, 0, u, left) + One(u == t && left == msec)
    ensures Has(Add(f, t, msec), u) == Has(f, u) + One(u == t)
  {
    if f != [] {
      assert f[1..] == [];
      if f[0].delta < msec {
        var leaf := [Node(t, msec - f[0].delta, [])];
        CountAppend(leaf, f[0].kids, f[0].delta, u, left);
        assert leaf[1..] == [];
      } else {
        assert [Lower(f[0], msec)][1..] == [];
      }
    }
  }

  lemma SuccessorsCount<T>(x: Tree<T>, base: int, u: T, left: int)
    ensures At([x], base, u, left) == One(u == x.timer && left == base + x.delta) + At(Successors(x), base, u, left)
    ensures Has([x], u) == One(u == x.timer) + Has(Successors(x), u)
  {
    if x.kids != [] {
      PairAllKeepsCount(x.kids, x.delta, base, u, left);
    }
  }

  /** The sum of the deltas on the root path of the first node that holds `t`. */
  ghost function TimeLeft<T>(f: Forest<T>, base: int, t: T): int
    requires Has(f, t) > 0
  {
    if f[0].timer == t then base + f[0].delta
    else if Has(f[0].kids, t) > 0 then TimeLeft(f[0].kids, base + f[0].delta, t)
    else TimeLeft(f[1..], base, t)
  }

  /** Removing a timer, at any depth, takes out that one node and moves no other deadline. */
  lemma {:induction false} RemoveCount<T>(f: Forest<T>, t: T, base: int, u: T, left: int)
    requires Has(f, t) > 0
    ensures At(f, base, u, left)
         == At(Remove(f, t), base, u, left) + One(u == t && left == TimeLeft(f, base, t))
    ensures Has(f, u) == Has(Remove(f, t), u) + One(u == t)
  {
    var x, rest := f[0], f[1..];
    var g := Remove(f, t);
    CountSplit(f, base, u, left);
    CountRoot(x, base, u, left);
    if x.timer == t {
      hide At, Has;
      SuccessorsCount(x, base, u, left);
      CountAppend(Successors(x), rest, base, u, left);
    } else if Has(x.kids, t) > 0 {
      hide At;
      assert g == [g[0]] + rest && g[0] == x.(kids := Remove(x.kids, t));
      RemoveCount(x.kids, t, base + x.delta, u, left);
      CountAppend([g[0]], rest, base, u, left);
      CountRoot(g[0], base, u, left);
    } else {
      assert g == [x] + Remove(rest, t);
      hide At;
      RemoveCount(rest, t, base, u, left);
      CountAppend([x], Remove(rest, t), base, u, left);
    }
  }

  /** Nothing in a forest is due before all of its roots. */
  lemma {:induction false} RootIsEarliest<T>(f: Forest<T>, base: int, t: T, left: int)
    requires At(f, base, t, left) > 0
    ensures base <= left
    ensures exists i :: 0 <= i < |f| && base + f[i].delta <= left
  {
    if f[0].timer == t && base + f[0].delta == left {
    } else if At(f[0].kids, base + f[0].delta, t, left) > 0 {
      RootIsEarliest(f[0].kids, base + f[0].delta, t, left);
    } else {
      RootIsEarliest(f[1..], base, t, left);
      var i :| 0 <= i < |f[1..]| && base + f[1..][i].delta <= left;
      assert f[i + 1] == f[1..][i];
    }
  }

  /** How often `t` was fired with the time `left` it had before the sweep. */
  ghost function FiredAt<T>(s: seq<(T, int)>, t: T, left: int): nat {
    if s == [] then 0 else One(s[0] == (t, left)) + FiredAt(s[1..], t, left)
  }

  ghost function FiredHas<T>(s: seq<(T, int)>, t: T): nat {
    if s == [] then 0 else One(s[0].0 == t) + FiredHas(s[1..], t)
  }

  /** `s` splits the timers of `pending`: fired what was due within `ms`, kept the rest, counted from `ms`. */
  ghost predicate Splits<T>(pending: Forest<T>, s: Sweep<T>, ms: nat, t: T, left: int) {
    && At(pending, 0, t, left) == At(s.kept, ms, t, left) + FiredAt(s.fired, t, left)
    && Has(pending, t) == Has(s.kept, t) + FiredHas(s.fired, t)
    && (FiredAt(s.fired, t, left) > 0 ==> left <= ms)
    && (At(s.kept, ms, t, left) > 0 ==> ms < left)
  }

  lemma FiredStep<T>(x: Tree<T>, rest: Forest<T>, s: Sweep<T>, ms: nat, t: T, left: int)
    requires x.delta <= ms && Splits(rest + RaiseAll(x.kids, x.delta), s, ms, t, left)
    ensures Splits([x] + rest, Sweep(s.kept, [(x.timer, x.delta as int)] + s.fired), ms, t, left)
  {
    hide At, Has, FiredAt, FiredHas, RaiseAll;
    CountAppend([x], rest, 0, t, left);
    CountRoot(x, 0, t, left);
    CountAppend(rest, RaiseAll(x.kids, x.delta), 0, t, left);
    CountRaise(x.kids, x.delta, 0, t, left);
    FiredCons((x.timer, x.delta as int), s.fired, t, left);
  }

  lemma KeptStep<T>(x: Tree<T>, rest: Forest<T>, s: Sweep<T>, ms: nat, t: T, left: int)
    requires ms < x.delta && Splits(rest, s, ms, t, left)
    ensures Splits([x] + rest, Sweep([Lower(x, ms)] + s.kept, s.fired), ms, t, left)
  {
    hide At, Has, FiredAt, FiredHas;
    var y := Lower(x, ms);
    CountAppend([x], rest, 0, t, left);
    CountAppend([y], s.kept, ms, t, left);
    CountRoot(x, 0, t, left);
    CountRoot(y, ms, t, left);
    if At([y], ms, t, left) > 0 {
      RootIsEarliest([y], ms, t, left);
    }
  }

  lemma {:induction false} ExpireSplits<T>(pending: Forest<T>, ms: nat, t: T, left: int)
    ensures Splits(pending, Expire(pending, ms), ms, t, left)
    decreases Size(pending)
  {
    if pending != [] {
      var x, rest := pending[0], pending[1..];
      assert pending == [x] + rest;
      SizeSplit(pending);
      if x.delta <= ms {
        var more := RaiseAll(x.kids, x.delta);
        SizeAppend(rest, more);
        SizeRaise(x.kids, x.delta);
        ExpireSplits(rest + more, ms, t, left);
        FiredStep(x, rest, Expire(rest + more, ms), ms, t, left);
      } else {
        ExpireSplits(rest, ms, t, left);
        KeptStep(x, rest, Expire(rest, ms), ms, t, left);
      }
    }
  }

  lemma FiredCons<T>(p: (T, int), s: seq<(T, int)>, t: T, left: int)
    ensures FiredAt([p] + s, t, left) == One(p == (t, left)) + FiredAt(s, t, left)
    ensures FiredHas([p] + s, t) == One(p.0 == t) + FiredHas(s, t)
  {
    assert ([p] + s)[1..] == s;
  }

  // ---- the forest as a map from timer to time left ------------------------------------------

  /** The timers of a forest. */
  ghost function Nodes<T>(f: Forest<T>): set<T> {
    if f == [] then {} else {f[0].timer} + Nodes(f[0].kids) + Nodes(f[1..])
  }

  /** Every timer is on one node only. */
  ghost predicate Distinct<T>(f: Forest<T>) {
    forall t <- Nodes(f) :: Has(f, t) == 1
  }

  /** The forest stands for `m`: each key is on one node, and its root path adds up to `m[t]`. */
  ghost predicate Represents<T>(f: Forest<T>, base: int, m: map<T, int>) {
    && Nodes(f) == m.Keys
    && Distinct(f)
    && forall t <- m :: At(f, base, t, m[t]) == 1
  }

  lemma {:induction false} NodesHas<T>(f: Forest<T>, t: T)
    ensures t in Nodes(f) <==> Has(f, t) > 0
  {
    if f != [] {
      NodesHas(f[0].kids, t);
      NodesHas(f[1..], t);
    }
  }

  lemma {:induction false} AtAtMostHas<T>(f: Forest<T>, base: int, t: T, left: int)
    ensures At(f, base, t, left) <= Has(f, t)
  {
    if f != [] {
      AtAtMostHas(f[0].kids, base + f[0].delta, t, left);
      AtAtMostHas(f[1..], base, t, left);
    }
  }

  lemma {:induction false} AtTwice<T>(f: Forest<T>, base: int, t: T, left: int, other: int)
    requires left != other
    ensures At(f, base, t, left) + At(f, base, t, other) <= Has(f, t)
  {
    if f != [] {
      AtTwice(f[0].kids, base + f[0].delta, t, left, other);
      AtTwice(f[1..], base, t, left, other);
    }
  }

  lemma {:induction false} AtTimeLeft<T>(f: Forest<T>, base: int, t: T)
    requires Has(f, t) > 0
    ensures At(f, base, t, TimeLeft(f, base, t)) > 0
  {
    if f[0].timer != t {
      if Has(f[0].kids, t) > 0 {
        AtTimeLeft(f[0].kids, base + f[0].delta, t);
      } else {
        AtTimeLeft(f[1..], base, t);
      }
    }
  }

  lemma {:induction false} AtShift<T>(f: Forest<T>, base: int, k: int, t: T, left: int)
    ensures At(f, base + k, t, left + k) == At(f, base, t, left)
  {
    if f != [] {
      AtShift(f[0].kids, base + f[0].delta, k, t, left);
      AtShift(f[1..], base, k, t, left);
    }
  }

  /** A forest stands for at most one map: the path sums. */
  lemma RepresentsPathSum<T>(f: Forest<T>, base: int, m: map<T, int>, t: T)
    requires Represents(f, base, m) && t in m
    ensures Has(f, t) == 1 && m[t] == TimeLeft(f, base, t)
  {
    NodesHas(f, t);
    AtTimeLeft(f, base, t);
    if m[t] != TimeLeft(f, base, t) {
      AtTwice(f, base, t, m[t], TimeLeft(f, base, t));
    }
  }

  lemma RepresentsAbsent<T>(f: Forest<T>, base: int, m: map<T, int>, t: T)
    requires Represents(f, base, m) && t !in m
    ensures Has(f, t) == 0
  {
    NodesHas(f, t);
  }

  /** The general way to show what a forest stands for: by its counts. */
  lemma RepresentsByCount<T>(f: Forest<T>, base: int, m: map<T, int>)
    requires forall t <- Nodes(f) + m.Keys :: Has(f, t) == One(t in m)
    requires forall t <- m :: At(f, base, t, m[t]) > 0
    ensures Represents(f, base, m)
  {
    forall t <- Nodes(f)
      ensures t in m
    {
      NodesHas(f, t);
    }
    forall t <- m
      ensures t in Nodes(f) && Has(f, t) == 1 && At(f, base, t, m[t]) == 1
    {
      NodesHas(f, t);
      AtAtMostHas(f, base, t, m[t]);
    }
  }

  lemma RepresentsShift<T>(f: Forest<T>, base: int, k: int, m: map<T, int>)
    requires Represents(f, base, m)
    ensures Represents(f, base + k, map t | t in m :: m[t] + k)
  {
    var m' := map t | t in m :: m[t] + k;
    forall t <- m'
      ensures At(f, base + k, t, m'[t]) == 1
    {
      AtShift(f, base, k, t, m[t]);
    }
  }

  /** Adding: the new timer with its timeout, and every other timer as before. */
  lemma AddModel<T>(f: Forest<T>, t: T, msec: nat, m: map<T, int>)
    requires |f| <= 1 && Represents(f, 0, m) && t !in m
    ensures Represents(Add(f, t, msec), 0, m[t := msec])
  {
    var m' := m[t := msec];
    forall u | u in Nodes(Add(f, t, msec)) + m'.Keys
      ensures Has(Add(f, t, msec), u) == One(u in m')
      ensures u in m' ==> At(Add(f, t, msec), 0, u, m'[u]) > 0
    {
      AddCount(f, t, msec, u, if u in m' then m'[u] else 0);
      if u in m {
        RepresentsPathSum(f, 0, m, u);
      } else {
        RepresentsAbsent(f, 0, m, u);
      }
    }
    RepresentsByCount(Add(f, t, msec), 0, m');
  }

  /** Removing: that timer is gone, from whatever depth, and every other time left is unchanged. */
  lemma RemoveModel<T>(f: Forest<T>, t: T, m: map<T, int>)
    requires Represents(f, 0, m) && t in m
    ensures Represents(Remove(f, t), 0, m - {t})
    ensures |Remove(f, t)| <= |f|
  {
    var m' := m - {t};
    RepresentsPathSum(f, 0, m, t);
    forall u | u in Nodes(Remove(f, t)) + m'.Keys
      ensures Has(Remove(f, t), u) == One(u in m')
      ensures u in m' ==> At(Remove(f, t), 0, u, m'[u]) > 0
    {
      RemoveCount(f, t, 0, u, if u in m then m[u] else 0);
      if u in m {
        RepresentsPathSum(f, 0, m, u);
      } else {
        RepresentsAbsent(f, 0, m, u);
      }
    }
    RepresentsByCount(Remove(f, t), 0, m');
    RemoveLength(f, t);
  }

  lemma {:induction false} RemoveLength<T>(f: Forest<T>, t: T)
    ensures |Remove(f, t)| <= |f|
  {
    if f != [] {
      RemoveLength(f[1..], t);
    }
  }

  // ---- the sweep ------------------------------------------------------------------------------

  function Names<T>(s: seq<(T, int)>): (r: seq<T>)
    ensures |r| == |s|
    ensures forall i :: 0 <= i < |s| ==> r[i] == s[i].0
  {
    if s == [] then [] else [s[0].0] + Names(s[1..])
  }

  lemma {:induction false} FiredHasIndex<T>(s: seq<(T, int)>, t: T)
    ensures FiredHas(s, t) > 0 <==> exists i :: 0 <= i < |s| && s[i].0 == t
    ensures forall i, j :: 0 <= i < j < |s| && s[i].0 == t && s[j].0 == t ==> FiredHas(s, t) >= 2
  {
    if s != [] {
      var r := s[1..];
      FiredHasIndex(r, t);
      if FiredHas(r, t) > 0 {
        var i :| 0 <= i < |r| && r[i].0 == t;
        assert s[i + 1].0 == t;
      }
      forall i, j | 0 <= i < j < |s| && s[i].0 == t && s[j].0 == t
        ensures FiredHas(s, t) >= 2
      {
        assert r[j - 1].0 == t;
        if i > 0 {
          assert r[i - 1].0 == t;
        }
      }
    }
  }

  lemma {:induction false} FiredAtIndex<T>(s: seq<(T, int)>, i: nat)
    requires i < |s|
    ensures FiredAt(s, s[i].0, s[i].1) > 0
  {
    if i > 0 {
      FiredAtIndex(s[1..], i - 1);
    }
  }

  lemma {:induction false} FiredAtMostHas<T>(s: seq<(T, int)>, t: T, left: int)
    ensures FiredAt(s, t, left) <= FiredHas(s, t)
  {
    if s != [] {
      FiredAtMostHas(s[1..], t, left);
    }
  }

  lemma FiredOnce<T>(f: Forest<T>, ms: nat, m: map<T, int>, i: nat)
    requires Represents(f, 0, m) && i < |Expire(f, ms).fired|
    ensures var p := Expire(f, ms).fired[i]; p.0 in m && p.1 == m[p.0] <= ms
  {
    var s := Expire(f, ms);
    var p := s.fired[i];
    FiredAtIndex(s.fired, i);
    ExpireSplits(f, ms, p.0, p.1);
    AtAtMostHas(f, 0, p.0, p.1);
    NodesHas(f, p.0);
    if p.1 != m[p.0] {
      AtTwice(f, 0, p.0, p.1, m[p.0]);
    }
  }

  lemma SweepCount<T>(f: Forest<T>, ms: nat, m: map<T, int>, t: T)
    requires Represents(f, 0, m)
    ensures var s := Expire(f, ms);
            && Has(Settle(s.kept), t) == One(t in m && ms < m[t])
            && FiredHas(s.fired, t) == One(t in m && m[t] <= ms)
            && (t in m && ms < m[t] ==> At(Settle(s.kept), ms, t, m[t]) > 0)
  {
    var s := Expire(f, ms);
    var left := if t in m then m[t] else 0;
    ExpireSplits(f, ms, t, left);
    SettleKeepsCount(s.kept, ms, t, left);
    FiredAtMostHas(s.fired, t, left);
    AtAtMostHas(s.kept, ms, t, left);
    if t in m {
      RepresentsPathSum(f, 0, m, t);
    } else {
      RepresentsAbsent(f, 0, m, t);
    }
  }

  /** The deadlines of `m` that are more than `ms` away. */
  ghost function Late<T>(m: map<T, int>, ms: int): map<T, int> {
    map t | t in m && ms < m[t] :: m[t]
  }

  /** The same deadlines, seen `ms` later. */
  ghost function After<T>(m: map<T, int>, ms: int): map<T, int> {
    map t | t in m && ms < m[t] :: m[t] - ms
  }

  lemma SweepKeepsLate<T>(f: Forest<T>, ms: nat, m: map<T, int>)
    requires Represents(f, 0, m)
    ensures Represents(Settle(Expire(f, ms).kept), ms, Late(m, ms))
  {
    var g, late := Settle(Expire(f, ms).kept), Late(m, ms);
    forall t | t in Nodes(g) + late.Keys
      ensures Has(g, t) == One(t in late)
      ensures t in late ==> At(g, ms, t, late[t]) > 0
    {
      SweepCount(f, ms, m, t);
    }
    RepresentsByCount(g, ms, late);
  }

  /** After `ms`, one root at most; it holds the timers with more than `ms` left, each with exactly `ms` less. */
  lemma RunKeeps<T>(f: Forest<T>, ms: nat, m: map<T, int>)
    requires Represents(f, 0, m)
    ensures |Settle(Expire(f, ms).kept)| <= 1
    ensures Represents(Settle(Expire(f, ms).kept), 0, After(m, ms))
  {
    SweepKeepsLate(f, ms, m);
    RepresentsShift(Settle(Expire(f, ms).kept), ms, -(ms as int), Late(m, ms));
    var shifted := map t | t in Late(m, ms) :: Late(m, ms)[t] + -(ms as int);
    assert shifted == After(m, ms);
  }

  /** After `ms`, the run list holds exactly the timers with at most `ms` left, each once. */
  lemma RunFires<T>(f: Forest<T>, ms: nat, m: map<T, int>)
    requires Represents(f, 0, m)
    ensures var fired := Expire(f, ms).fired;
            && (forall i :: 0 <= i < |fired| ==> fired[i].0 in m && fired[i].1 == m[fired[i].0] <= ms)
            && (forall t <- m :: m[t] <= ms <==> t in Names(fired))
            && (forall i, j :: 0 <= i < j < |fired| ==> fired[i].0 != fired[j].0)
  {
    var fired := Expire(f, ms).fired;
    forall i | 0 <= i < |fired|
      ensures fired[i].0 in m && fired[i].1 == m[fired[i].0] <= ms
    {
      FiredOnce(f, ms, m, i);
    }
    forall t <- m | m[t] <= ms
      ensures t in Names(fired)
    {
      SweepCount(f, ms, m, t);
      FiredHasIndex(fired, t);
      var i :| 0 <= i < |fired| && fired[i].0 == t;
      assert Names(fired)[i] == t;
    }
    forall i, j | 0 <= i < j < |fired|
      ensures fired[i].0 != fired[j].0
    {
      SweepCount(f, ms, m, fired[i].0);
      FiredHasIndex(fired, fired[i].0);
    }
  }

  /** `p` is on the root path of `c`. */
  ghost predicate Above<T>(f: Forest<T>, p: T, c: T) {
    f != [] &&
    ((f[0].timer == p && Has(f[0].kids, c) > 0) || Above(f[0].kids, p, c) || Above(f[1..], p, c))
  }

  lemma {:induction false} AboveHas<T>(f: Forest<T>, p: T, c: T)
    requires Above(f, p, c)
    ensures Has(f, c) > 0 && Has(f, p) > 0
  {
    if f[0].timer == p && Has(f[0].kids, c) > 0 {
    } else if Above(f[0].kids, p, c) {
      AboveHas(f[0].kids, p, c);
    } else {
      AboveHas(f[1..], p, c);
    }
  }

  lemma {:induction false} AboveAppend<T>(f: Forest<T>, g: Forest<T>, p: T, c: T)
    ensures Above(f + g, p, c) <==> Above(f, p, c) || Above(g, p, c)
  {
    if f == [] {
      assert f + g == g;
    } else {
      assert (f + g)[1..] == f[1..] + g;
      AboveAppend(f[1..], g, p, c);
    }
  }

  lemma {:induction false} AboveRaise<T>(f: Forest<T>, delta: nat, p: T, c: T)
    ensures Above(RaiseAll(f, delta), p, c) <==> Above(f, p, c)
  {
    if f != [] {
      assert RaiseAll(f, delta)[1..] == RaiseAll(f[1..], delta);
      AboveRaise(f[1..], delta, p, c);
    }
  }

  /** A timer is never run before a timer that is above it in the heap. */
  lemma {:induction false} HeapOrder<T>(pending: Forest<T>, ms: nat, p: T, c: T) returns (i: nat)
    requires Has(pending, c) == 1 && Above(pending, p, c)
    ensures var fired := Expire(pending, ms).fired;
            FiredHas(fired, c) > 0 ==>
              i < |fired| && fired[i].0 == p && forall j :: 0 <= j <= i ==> fired[j].0 != c
    decreases Size(pending)
  {
    i := 0;
    var x, rest := pending[0], pending[1..];
    SizeSplit(pending);
    if x.delta <= ms {
      var more := RaiseAll(x.kids, x.delta);
      SizeAppend(rest, more);
      SizeRaise(x.kids, x.delta);
      var s := Expire(rest + more, ms);
      assert Expire(pending, ms).fired == [(x.timer, x.delta as int)] + s.fired;
      assert c != x.timer by {
        if c == x.timer {
          if Has(x.kids, c) == 0 {
            if Above(x.kids, p, c) {
              AboveHas(x.kids, p, c);
            } else {
              AboveHas(rest, p, c);
            }
          }
        }
      }
      if x.timer != p || Has(x.kids, c) == 0 {
        CountAppend(rest, more, 0, c, 0);
        CountRaise(x.kids, x.delta, 0, c, 0);
        AboveAppend(rest, more, p, c);
        AboveRaise(x.kids, x.delta, p, c);
        var k := HeapOrder(rest + more, ms, p, c);
        i := k + 1;
      }
    } else {
      ExpireSplits(rest, ms, c, 0);
      if Above(rest, p, c) {
        AboveHas(rest, p, c);
        i := HeapOrder(rest, ms, p, c);
      } else if x.timer != p || Has(x.kids, c) == 0 {
        AboveHas(x.kids, p, c);
      }
    }
  }
}
