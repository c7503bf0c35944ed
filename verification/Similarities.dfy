/** The three similarities of the vector store, told by laws that leave no other function. */
module Similarities {
  import opened VectorStore

  function Zeros(n: nat): seq<real> {
    seq(n, (_: nat) => 0.0)
  }

  /** The vector with one coordinate at 1. */
  function Unit(n: nat, i: nat): seq<real> {
    seq(n, (k: nat) => if k == i then 1.0 else 0.0)
  }

  function Plus(a: seq<real>, b: seq<real>): seq<real>
    requires |a| == |b|
  {
    seq(|a|, (k: nat) requires k < |a| => a[k] + b[k])
  }

  function Minus(a: seq<real>, b: seq<real>): seq<real>
    requires |a| == |b|
  {
    seq(|a|, (k: nat) requires k < |a| => a[k] - b[k])
  }

  function Times(x: real, a: seq<real>): seq<real> {
    seq(|a|, (k: nat) requires k < |a| => x * a[k])
  }

  lemma {:induction false} DotAdds(q: seq<real>, a: seq<real>, b: seq<real>)
    requires |q| == |a| == |b|
    ensures DotProduct(q, Plus(a, b)) == DotProduct(q, a) + DotProduct(q, b)
  {
    if q != [] {
      assert Plus(a, b)[1..] == Plus(a[1..], b[1..]);
      DotAdds(q[1..], a[1..], b[1..]);
    }
  }

  lemma ScaledTail(x: real, a: seq<real>)
    requires a != []
    ensures Times(x, a)[0] == x * a[0] && Times(x, a)[1..] == Times(x, a[1..])
  {
    forall k | 0 <= k < |a| - 1 ensures Times(x, a)[1..][k] == Times(x, a[1..])[k] {
      assert a[1..][k] == a[k + 1];
    }
  }

  lemma {:induction false} DotScales(q: seq<real>, x: real, a: seq<real>)
    requires |q| == |a|
    ensures DotProduct(q, Times(x, a)) == x * DotProduct(q, a)
  {
    if q != [] {
      ScaledTail(x, a);
      DotScales(q[1..], x, a[1..]);
      Distributes(x, q[0], a[0], DotProduct(q[1..], a[1..]));
    }
  }

  lemma Distributes(x: real, q: real, a: real, rest: real)
    ensures q * (x * a) + x * rest == x * (q * a + rest)
  {
  }

  lemma {:induction false} DotZero(q: seq<real>)
    ensures DotProduct(q, Zeros(|q|)) == 0.0
  {
    if q != [] {
      assert Zeros(|q|)[1..] == Zeros(|q| - 1);
      DotZero(q[1..]);
    }
  }

  lemma {:induction false} DotUnit(q: seq<real>, i: nat)
    requires i < |q|
    ensures DotProduct(q, Unit(|q|, i)) == q[i]
  {
    var u := Unit(|q|, i);
    if i == 0 {
      assert u[1..] == Zeros(|q| - 1);
      DotZero(q[1..]);
    } else {
      assert u[1..] == Unit(|q| - 1, i - 1);
      DotUnit(q[1..], i - 1);
    }
  }

  /** The dot similarity is linear in the stored vector and reads off a coordinate at each unit vector. */
  lemma DotIsLinear(sqrt: real -> real, q: seq<real>, a: seq<real>, b: seq<real>, x: real, i: nat)
    requires |q| == |a| == |b| && i < |q|
    ensures Similarity(sqrt, Dot, q, Plus(a, b)) == Similarity(sqrt, Dot, q, a) + Similarity(sqrt, Dot, q, b)
    ensures Similarity(sqrt, Dot, q, Times(x, a)) == x * Similarity(sqrt, Dot, q, a)
    ensures Similarity(sqrt, Dot, q, Unit(|q|, i)) == q[i]
  {
    DotAdds(q, a, b);
    DotScales(q, x, a);
    DotUnit(q, i);
  }

  lemma {:induction false} GapIsDot(q: seq<real>, a: seq<real>)
    requires |q| == |a|
    ensures SquaredGap(q, a) == DotProduct(Minus(q, a), Minus(q, a))
  {
    if q != [] {
      assert Minus(q, a)[1..] == Minus(q[1..], a[1..]);
      GapIsDot(q[1..], a[1..]);
    }
  }

  /** The Euclidean similarity is the length of the difference, negated: a vector that differs in one coordinate lies at
    * that difference. */
  lemma EuclideanIsDistance(sqrt: real -> real, q: seq<real>, a: seq<real>, x: real, i: nat)
    requires |q| == |a| && i < |q| && sqrt(x * x) == x
    ensures Similarity(sqrt, Euclidean, q, a) == -sqrt(DotProduct(Minus(q, a), Minus(q, a)))
    ensures Similarity(sqrt, Euclidean, q, Minus(q, Times(x, Unit(|q|, i)))) == -x
  {
    GapIsDot(q, a);
    var u := Times(x, Unit(|q|, i));
    var e := Minus(q, u);
    GapIsDot(q, e);
    assert Minus(q, e) == u;
    DotScales(u, x, Unit(|q|, i));
    DotUnit(u, i);
    assert DotProduct(u, u) == x * x;
  }

  /** The cosine of vectors of length one is their dot product, and stretching either by a positive factor changes
    * nothing. */
  lemma CosineOfUnits(sqrt: real -> real, q: seq<real>, a: seq<real>)
    requires sqrt(1.0) == 1.0 && DotProduct(q, q) == 1.0 && DotProduct(a, a) == 1.0
    requires -1.0 <= DotProduct(q, a) <= 1.0
    ensures Similarity(sqrt, Cosine, q, a) == DotProduct(q, a)
  {
  }

  lemma CosineIgnoresLength(sqrt: real -> real, q: seq<real>, a: seq<real>, x: real)
    requires |q| == |a| && x > 0.0
    requires sqrt(x * x * DotProduct(a, a)) == x * sqrt(DotProduct(a, a))
    ensures Similarity(sqrt, Cosine, q, Times(x, a)) == Similarity(sqrt, Cosine, q, a)
  {
    hide *;
    DotScales(q, x, a);
    LengthScales(x, a);
    var d, lq, la := DotProduct(q, a), sqrt(DotProduct(q, q)), sqrt(DotProduct(a, a));
    SameRatio(x, d, lq, la);
    CosineIsRatio(sqrt, q, a, d, lq, la);
    CosineIsRatio(sqrt, q, Times(x, a), x * d, lq, x * la);
  }

  lemma CosineIsRatio(sqrt: real -> real, q: seq<real>, e: seq<real>, d: real, lq: real, le: real)
    requires d == DotProduct(q, e) && lq == sqrt(DotProduct(q, q)) && le == sqrt(DotProduct(e, e))
    ensures Similarity(sqrt, Cosine, q, e) == Ratio(d, lq, le)
  {
    hide DotProduct, Ratio;
  }

  lemma SameRatio(x: real, d: real, lq: real, la: real)
    requires x > 0.0
    ensures Ratio(x * d, lq, x * la) == Ratio(d, lq, la)
  {
    var m := lq * la;
    Reorder(x, lq, la);
    Vanishes(x, m);
    if m != 0.0 {
      Quotient(x, d, m);
      assert (x * d) / (lq * (x * la)) == d / m;
    }
  }

  lemma Vanishes(x: real, m: real)
    requires x > 0.0
    ensures x * m == 0.0 <==> m == 0.0
  {
  }

  lemma LengthScales(x: real, a: seq<real>)
    ensures DotProduct(Times(x, a), Times(x, a)) == x * x * DotProduct(a, a)
  {
    var b, n := Times(x, a), DotProduct(a, a);
    assert |b| == |a|;
    hide DotProduct, Times;
    DotScales(b, x, a);
    DotCommutes(b, a);
    DotScales(a, x, a);
    var m := DotProduct(b, a);
    assert m == x * n;
    assert DotProduct(b, b) == x * m;
    Squared(x, n);
  }

  lemma Squared(x: real, n: real)
    ensures x * (x * n) == x * x * n
  {
  }

  lemma {:induction false} DotCommutes(a: seq<real>, b: seq<real>)
    ensures DotProduct(a, b) == DotProduct(b, a)
  {
    if a != [] && b != [] {
      DotCommutes(a[1..], b[1..]);
    }
  }

  lemma Reorder(x: real, lq: real, la: real)
    ensures lq * (x * la) == x * (lq * la)
  {
  }

  lemma Quotient(x: real, d: real, m: real)
    requires x > 0.0 && m != 0.0
    ensures x * m != 0.0 && (x * d) / (x * m) == d / m
  {
    var r := d / m;
    assert r * m == d;
    assert r * (x * m) == x * d by { Shuffle(r, x, m); }
  }

  lemma Shuffle(r: real, x: real, m: real)
    ensures r * (x * m) == x * (r * m)
  {
  }
}
