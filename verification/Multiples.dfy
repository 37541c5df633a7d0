/** Facts about multiples of a positive number, shared by the packet arithmetic. */
module Multiples {

  lemma Multiple(q: int, interval: int)
    requires interval > 0
    ensures (q * interval) % interval == 0
    ensures q >= 0 ==> q * interval >= 0
  {
    assert q * interval == interval * q + 0;
    DivModUnique(q * interval, interval, q, 0);
  }

  lemma Steps(e: int, d: int)
    requires d > 0
    ensures e >= 1 ==> e * d >= d
    ensures e <= 0 ==> e * d <= 0
    ensures e <= -1 ==> e * d <= -d
  {
  }

  lemma DivModUnique(x: int, d: int, q: int, r: int)
    requires d > 0 && x == q * d + r && 0 <= r < d
    ensures x / d == q && x % d == r
  {
    var e, gap := q - x / d, x % d - r;
    assert e * d == gap by {
      assert x == (x / d) * d + x % d;
      assert e * d == q * d - (x / d) * d;
    }
    Steps(e, d);
  }

  /** Two multiples that differ are a whole interval apart. */
  lemma NextMultiple(a: int, b: int, interval: int)
    requires interval > 0 && a % interval == 0 && b % interval == 0
    ensures a < b ==> a + interval <= b
  {
    var p, q := a / interval, b / interval;
    assert (q - p) * interval == b - a by {
      assert a == p * interval && b == q * interval;
    }
    Steps(q - p, interval);
  }

  /** Sums and differences of multiples are multiples. */
  lemma SumMultiple(a: int, b: int, interval: int)
    requires interval > 0 && a % interval == 0 && b % interval == 0
    ensures (a + b) % interval == 0 && (a - b) % interval == 0
  {
    var m, n := a / interval, b / interval;
    assert a + b == (m + n) * interval && a - b == (m - n) * interval by {
      assert a == m * interval && b == n * interval;
    }
    Multiple(m + n, interval);
    Multiple(m - n, interval);
  }

  lemma ScaleMultiple(k: int, a: int, interval: int)
    requires interval > 0 && a % interval == 0
    ensures (k * a) % interval == 0
  {
    var m := a / interval;
    assert k * a == (k * m) * interval by {
      assert a == m * interval;
    }
    Multiple(k * m, interval);
  }
}
