/** What the intrusive lists of include/libhfp/list.h do, on sequences. */
module Lists {

  /** The list with `t` replaced by `repl`: unlinking an item, or putting others in its place. */
  function Splice<T(==)>(list: seq<T>, t: T, repl: seq<T>): seq<T> {
    if list == [] then []
    else if list[0] == t then repl + list[1..]
    else [list[0]] + Splice(list[1..], t, repl)
  }

  ghost predicate Unique<T>(s: seq<T>) {
    forall i, j :: 0 <= i < j < |s| ==> s[i] != s[j]
  }

  ghost function Elements<T>(s: seq<T>): set<T> {
    set t | t in s
  }

  lemma {:induction false} SpliceOut<T>(list: seq<T>, t: T)
    requires Unique(list)
    ensures Unique(Splice(list, t, []))
    ensures Elements(Splice(list, t, [])) == Elements(list) - {t}
    ensures t !in list ==> Splice(list, t, []) == list
    ensures t in list <==> t in Elements(list)
  {
    if list != [] {
      var tail := list[1..];
      UniqueCons(list[0], tail);
      assert [list[0]] + tail == list;
      if list[0] == t {
        assert Splice(list, t, []) == tail;
      } else {
        SpliceOut(tail, t);
        UniqueCons(list[0], Splice(tail, t, []));
        assert Splice(list, t, []) == [list[0]] + Splice(tail, t, []);
      }
    }
  }

  lemma {:induction false} SpliceShorter<T>(s: seq<T>, t: T)
    ensures |Splice(s, t, [])| == if t in s then |s| - 1 else |s|
  {
    if s != [] {
      SpliceShorter(s[1..], t);
    }
  }

  lemma {:induction false} SpliceAt<T>(s: seq<T>, i: nat)
    requires i < |s| && Unique(s)
    ensures Splice(s, s[i], []) == s[..i] + s[i + 1..]
  {
    if i > 0 {
      assert forall j, k :: 0 <= j < k < |s| - 1 ==> s[1..][j] == s[j + 1] && s[1..][k] == s[k + 1];
      SpliceAt(s[1..], i - 1);
      assert s[0] != s[i];
      assert [s[0]] + (s[1..][..i - 1] + s[1..][i..]) == s[..i] + s[i + 1..];
    } else {
      assert s[..0] + s[1..] == s[1..];
    }
  }

  lemma UniqueCons<T>(x: T, s: seq<T>)
    ensures Unique([x] + s) <==> x !in Elements(s) && Unique(s)
    ensures Elements([x] + s) == {x} + Elements(s)
  {
    var r := [x] + s;
    if Unique(r) {
      forall i, j | 0 <= i < j < |s|
        ensures s[i] != s[j]
      {
        assert s[i] == r[i + 1] && s[j] == r[j + 1];
      }
      forall i | 0 <= i < |s|
        ensures s[i] != x
      {
        assert s[i] == r[i + 1] && x == r[0];
      }
    }
  }

  lemma UniqueSnoc<T>(s: seq<T>, t: T)
    requires Unique(s) && t !in Elements(s)
    ensures Unique(s + [t]) && Elements(s + [t]) == Elements(s) + {t}
  {
    assert forall x <- s :: x in Elements(s);
  }

  lemma ElementsOne<T>(s: seq<T>, t: T)
    ensures Elements(s + [t]) == Elements(s) + {t}
  {
  }

  // ---- subsequences ------------------------------------------------------------------------

  /** `a` can be had from `b` by leaving items out. */
  predicate Sub<T(==)>(a: seq<T>, b: seq<T>)
    decreases |b|
  {
    a == [] || (b != [] && ((a[0] == b[0] && Sub(a[1..], b[1..])) || Sub(a, b[1..])))
  }

  lemma {:induction false} SubSelf<T>(a: seq<T>)
    ensures Sub(a, a)
  {
    if a != [] {
      SubSelf(a[1..]);
    }
  }

  lemma {:induction false} SubLater<T>(a: seq<T>, b: seq<T>)
    requires a != [] && Sub(a, b)
    ensures Sub(a[1..], b)
    decreases |b|
  {
    if a[0] == b[0] && Sub(a[1..], b[1..]) {
      if |a| > 1 {
        assert Sub(a[1..], b[1..]);
      }
    } else {
      SubLater(a, b[1..]);
    }
  }

  lemma {:induction false} SubTrans<T>(a: seq<T>, b: seq<T>, c: seq<T>)
    requires Sub(a, b) && Sub(b, c)
    ensures Sub(a, c)
    decreases |c|
  {
    if a != [] {
      if b[0] == c[0] && Sub(b[1..], c[1..]) {
        if a[0] == b[0] && Sub(a[1..], b[1..]) {
          SubTrans(a[1..], b[1..], c[1..]);
        } else {
          SubTrans(a, b[1..], c[1..]);
        }
      } else {
        SubTrans(a, b, c[1..]);
      }
    }
  }

  lemma {:induction false} SubConcat<T>(a: seq<T>, b: seq<T>, c: seq<T>, d: seq<T>)
    requires Sub(a, b) && Sub(c, d)
    ensures Sub(a + c, b + d)
    decreases |b|
  {
    if b == [] {
      assert a + c == c && b + d == d;
    } else if a != [] && a[0] == b[0] && Sub(a[1..], b[1..]) {
      SubConcat(a[1..], b[1..], c, d);
      assert (a + c)[1..] == a[1..] + c && (b + d)[1..] == b[1..] + d;
    } else {
      SubConcat(a, b[1..], c, d);
      assert (b + d)[1..] == b[1..] + d;
    }
  }

  lemma {:induction false} SubSplice<T>(s: seq<T>, t: T)
    ensures Sub(Splice(s, t, []), s)
  {
    if s != [] {
      if s[0] == t {
        SubSelf(s[1..]);
        assert Splice(s, t, []) == s[1..];
      } else {
        SubSplice(s[1..], t);
      }
    }
  }

  /** Leaving items out of a list without repetition introduces none. */
  lemma {:induction false} SubUnique<T>(a: seq<T>, b: seq<T>)
    requires Sub(a, b) && Unique(b)
    ensures Unique(a) && Elements(a) <= Elements(b)
    decreases |b|
  {
    if a != [] {
      assert b == [b[0]] + b[1..] && a == [a[0]] + a[1..];
      UniqueCons(b[0], b[1..]);
      UniqueCons(a[0], a[1..]);
      if a[0] == b[0] && Sub(a[1..], b[1..]) {
        SubUnique(a[1..], b[1..]);
      } else {
        SubUnique(a, b[1..]);
      }
    }
  }
}
