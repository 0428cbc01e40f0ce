/** What the stages of the pipe sieve compute (TP0-fork/primes.c): the numbers that pass
    through each pipe, and that the first of each are exactly the primes. */
module Primes {
  /** The numbers main writes. */
  function Range(n: int): (s: seq<int>)
    ensures |s| == (if n < 2 then 0 else n - 1) && forall i :: 0 <= i < |s| ==> s[i] == i + 2
  {
    if n < 2 then [] else seq(n - 1, i => i + 2)
  }

  /** The numbers a filter lets through. */
  function Keep(xs: seq<int>, p: int): (ys: seq<int>)
    requires p > 0
    ensures |ys| <= |xs|
  {
    if xs == [] then []
    else Keep(xs[..|xs| - 1], p) + if xs[|xs| - 1] % p != 0 then [xs[|xs| - 1]] else []
  }

  lemma {:induction false} KeepIn(xs: seq<int>, p: int, x: int)
    requires p > 0
    ensures x in Keep(xs, p) <==> x in xs && x % p != 0
  {
    if xs != [] {
      var front, last := xs[..|xs| - 1], xs[|xs| - 1];
      assert xs == front + [last];
      KeepIn(front, p, x);
    }
  }

  predicate Ascending(xs: seq<int>)
  {
    forall i, j :: 0 <= i < j < |xs| ==> xs[i] < xs[j]
  }

  lemma {:induction false} KeepAscending(xs: seq<int>, p: int)
    requires p > 0 && Ascending(xs)
    ensures Ascending(Keep(xs, p))
  {
    if xs != [] {
      var front, last := xs[..|xs| - 1], xs[|xs| - 1];
      KeepAscending(front, p);
      var ys := Keep(front, p);
      forall i | 0 <= i < |ys| ensures ys[i] < last {
        KeepIn(front, p, ys[i]);
        var k :| 0 <= k < |front| && front[k] == ys[i];
      }
    }
  }

  /** A filter that has seen a prefix has let through a prefix. */
  lemma {:induction false} KeepPrefix(xs: seq<int>, ys: seq<int>, p: int)
    requires p > 0 && xs <= ys
    ensures Keep(xs, p) <= Keep(ys, p)
    decreases |ys|
  {
    if |xs| < |ys| {
      assert ys[..|ys| - 1][..|xs|] == xs;
      KeepPrefix(xs, ys[..|ys| - 1], p);
    } else {
      assert xs == ys;
    }
  }

  predicate Prime(x: int)
  {
    x >= 2 && forall d :: 2 <= d < x ==> x % d != 0
  }

  predicate NoDivisorBelow(x: int, h: int)
  {
    forall d :: 2 <= d < h ==> x % d != 0
  }

  /** The ascending list of the numbers in 2..n without a divisor below h. */
  ghost predicate Sieved(n: int, xs: seq<int>, h: int)
  {
    h >= 2 && Ascending(xs) && forall x :: x in xs <==> 2 <= x <= n && NoDivisorBelow(x, h)
  }

  lemma DividesTrans(d: int, e: int, x: int)
    requires d > 0 && e > 0 && e % d == 0 && x % e == 0
    ensures x % d == 0
  {
    assert x == (x / e) * e && e == (e / d) * d;
    assert x == ((x / e) * (e / d)) * d;
    MulMod((x / e) * (e / d), d);
  }

  lemma MulMod(q: int, d: int)
    requires d > 0
    ensures (q * d) % d == 0
  {
    var t, r := (q * d) / d, (q * d) % d;
    assert (q - t) * d == r;
    Multiple(q - t, d);
  }

  /** A multiple of d that is at least 0 and less than d is 0. */
  lemma Multiple(q: int, d: int)
    requires d > 0 && 0 <= q * d < d
    ensures q * d == 0
  {
    assert q >= 1 ==> (q - 1) * d >= 0;
    assert q <= -1 ==> (-q - 1) * d >= 0;
  }

  /** In such a list every number from h up to the head has a divisor below h. */
  lemma SmallDivisor(n: int, xs: seq<int>, h: int, d: int) returns (e: int)
    requires Sieved(n, xs, h) && xs != [] && h <= d < xs[0]
    ensures 2 <= e < h && d % e == 0
  {
    assert xs[0] in xs;
    assert d !in xs;
    assert !NoDivisorBelow(d, h);
    e :| 2 <= e < h && d % e == 0;
  }

  /** The head of such a list is the least prime not below h. */
  lemma HeadIsPrime(n: int, xs: seq<int>, h: int)
    requires Sieved(n, xs, h) && xs != []
    ensures Prime(xs[0]) && h <= xs[0] <= n
    ensures forall x :: Prime(x) && h <= x <= n ==> xs[0] <= x
  {
    var p := xs[0];
    assert p in xs;
    assert NoDivisorBelow(p, h) && p % p == 0;
    forall d | 2 <= d < p ensures p % d != 0 {
      if d >= h && p % d == 0 {
        var e := SmallDivisor(n, xs, h, d);
        DividesTrans(e, d, p);
        assert false;
      }
    }
    forall x | Prime(x) && h <= x <= n ensures p <= x {
      assert NoDivisorBelow(x, h);
      var i :| 0 <= i < |xs| && xs[i] == x;
    }
  }

  /** Taking out the head and its multiples sieves up to and including it. */
  lemma SievedStep(n: int, xs: seq<int>, h: int)
    requires Sieved(n, xs, h) && xs != [] && xs[0] > 0
    ensures Sieved(n, Keep(xs[1..], xs[0]), xs[0] + 1)
  {
    HeadIsPrime(n, xs, h);
    var p, ys := xs[0], Keep(xs[1..], xs[0]);
    KeepAscending(xs[1..], p);
    forall x ensures x in ys <==> 2 <= x <= n && NoDivisorBelow(x, p + 1) {
      KeepIn(xs[1..], p, x);
      assert xs == [p] + xs[1..];
      assert p % p == 0;
      assert NoDivisorBelow(x, p + 1) ==> NoDivisorBelow(x, h) && x % p != 0;
      if x in ys {
        assert x in xs && NoDivisorBelow(x, h);
        forall d | 2 <= d < p + 1 ensures x % d != 0 {
          if h <= d < p && x % d == 0 {
            var e := SmallDivisor(n, xs, h, d);
            DividesTrans(e, d, x);
            assert false;
          }
        }
      }
    }
  }

  // ----- the streams -----

  /** The numbers that pass through pipe k. */
  function Stream(n: int, k: nat): (s: seq<int>)
    ensures forall x :: x in s ==> x >= 2
  {
    if k == 0 then Range(n)
    else
      var s := Stream(n, k - 1);
      if s == [] then [] else
        assert s[0] in s;
        assert forall x :: x in Keep(s[1..], s[0]) ==> x in s by {
          forall x | x in Keep(s[1..], s[0]) ensures x in s {
            KeepIn(s[1..], s[0], x);
          }
        }
        Keep(s[1..], s[0])
  }

  function Head(n: int, k: nat): int
  {
    if Stream(n, k) == [] then 0 else Stream(n, k)[0]
  }

  function Heads(n: int, j: nat): (h: seq<int>)
    ensures |h| == j && forall i :: 0 <= i < j ==> h[i] == Head(n, i)
  {
    seq(j, i requires 0 <= i < j => Head(n, i))
  }

  function Bound(n: int, k: nat): int
  {
    if k == 0 then 2 else Head(n, k - 1) + 1
  }

  lemma {:induction false} StreamSieved(n: int, k: nat)
    requires forall i :: 0 <= i < k ==> Stream(n, i) != []
    ensures Sieved(n, Stream(n, k), Bound(n, k))
  {
    if k == 0 {
      var s := Range(n);
      forall x ensures x in s <==> 2 <= x <= n {
        if 2 <= x <= n {
          assert s[x - 2] == x;
        }
      }
    } else {
      StreamSieved(n, k - 1);
      assert Stream(n, k - 1)[0] in Stream(n, k - 1);
      SievedStep(n, Stream(n, k - 1), Bound(n, k - 1));
    }
  }

  /** Every stream is shorter than the one before it. */
  lemma {:induction false} StreamLength(n: int, k: nat)
    ensures |Stream(n, k)| <= if k <= |Range(n)| then |Range(n)| - k else 0
  {
    if k > 0 {
      StreamLength(n, k - 1);
    }
  }

  lemma {:induction false} PrimeIsHead(n: int, k: nat, x: int)
    requires forall i :: 0 <= i < k ==> Stream(n, i) != []
    requires Prime(x) && x <= n && x < Bound(n, k)
    ensures x in Heads(n, k)
  {
    if k > 0 {
      if x < Bound(n, k - 1) {
        PrimeIsHead(n, k - 1, x);
        var i :| 0 <= i < k - 1 && Heads(n, k - 1)[i] == x;
        assert Heads(n, k)[i] == x;
      } else {
        StreamSieved(n, k - 1);
        HeadIsPrime(n, Stream(n, k - 1), Bound(n, k - 1));
        assert Heads(n, k)[k - 1] == x;
      }
    }
  }

  /** The heads of the first streams are primes in ascending order. */
  lemma HeadsAscend(n: int, j: nat)
    requires forall i :: 0 <= i < j ==> Stream(n, i) != []
    ensures Ascending(Heads(n, j)) && forall x :: x in Heads(n, j) ==> Prime(x) && 2 <= x <= n
    decreases j
  {
    if j > 0 {
      HeadsAscend(n, j - 1);
      StreamSieved(n, j - 1);
      HeadIsPrime(n, Stream(n, j - 1), Bound(n, j - 1));
      var h, g := Heads(n, j), Heads(n, j - 1);
      assert h == g + [Head(n, j - 1)];
      assert j > 1 ==> g[j - 2] == Head(n, j - 2);
    }
  }

  /** Once a stream is empty they are all the primes up to n. */
  lemma HeadsArePrimes(n: int, j: nat)
    requires Stream(n, j) == [] && forall i :: 0 <= i < j ==> Stream(n, i) != []
    ensures Ascending(Heads(n, j))
    ensures forall x :: x in Heads(n, j) <==> Prime(x) && x <= n
  {
    HeadsAscend(n, j);
    StreamSieved(n, j);
    forall x | Prime(x) && x <= n ensures x in Heads(n, j) {
      assert x >= Bound(n, j) ==> NoDivisorBelow(x, Bound(n, j));
      PrimeIsHead(n, j, x);
    }
  }
}
