/** What the dedup harness works on: the composites that a case attests, and how similar two of them are. */
module QualifierInputs {
  // engine/eval/run_qualifier_dedup.py:56-60, 87-97.

  import opened QualifierDedup
  import opened QualifierPromotion
  import opened Select

  // ---- attested composites ------------------------------------------------------------------

  /** A case attests the head and qualifier of each attribute that has both. */
  lemma {:induction false} AttestedExactlyWhen(c: Case, head: string, qualifier: string)
    ensures Key(head, qualifier) in Qualified(c) <==> head != "" && qualifier != "" && Attribute(head, qualifier) in c
  {
    if c != [] {
      var n := |c| - 1;
      AttestedExactlyWhen(c[..n], head, qualifier);
      assert c == c[..n] + [c[n]];
    }
  }

  /** The dictionary of lists holds, under a head, the qualifiers of its columns in order, all of them and nothing
      else. */
  lemma {:induction false} ListForIsTheColumns(promo: seq<Key>, head: string)
    ensures Selected(promo, (k: Key) => k.head == head, (k: Key) => k.qualifier, ListFor(promo, head))
  {
    var keep, f := (k: Key) => k.head == head, (k: Key) => k.qualifier;
    hide Selected;
    if promo == [] {
      NothingSelected(keep, f);
    } else {
      ListForIsTheColumns(promo[..|promo| - 1], head);
      SelectedLast(promo, keep, f, ListFor(promo[..|promo| - 1], head));
    }
  }

  // ---- the similarity -----------------------------------------------------------------------

  /** The product is a sum over the places, from either end. */
  lemma {:induction false} DotFromTheEnd(a: Vector, b: Vector, x: real, y: real)
    requires |a| == |b|
    ensures Dot(a + [x], b + [y]) == Dot(a, b) + x * y && Dot([], []) == 0.0
  {
    if a != [] {
      DotFromTheEnd(a[1..], b[1..], x, y);
      assert (a + [x])[1..] == a[1..] + [x] && (b + [y])[1..] == b[1..] + [y];
    }
  }

  function Times(x: real, y: real): real {
    x * y
  }

  function Square(x: real): real {
    Times(x, x)
  }

  lemma PositiveTimes(n: real, m: real)
    requires n > 0.0 && m > 0.0
    ensures Times(n, m) > 0.0
  {}

  lemma ZeroTimesZero()
    ensures Times(0.0, 0.0) == 0.0
  {}

  lemma OppositeTimes(x: real)
    ensures Times(-x, -x) == Times(x, x)
  {}

  lemma OnlyZeroHasSquareZero(x: real)
    ensures Square(x) >= 0.0 && (Square(x) == 0.0 <==> x == 0.0)
  {
    hide Times;
    if x > 0.0 {
      PositiveTimes(x, x);
    } else if x < 0.0 {
      PositiveTimes(-x, -x);
      OppositeTimes(x);
    } else {
      ZeroTimesZero();
    }
  }

  lemma SquareIsNotNegative(x: real)
    ensures x * x >= 0.0
  {}

  lemma {:induction false} NormIsNotNegative(a: Vector)
    ensures Dot(a, a) >= 0.0
  {
    if a != [] {
      NormIsNotNegative(a[1..]);
      SquareIsNotNegative(a[0]);
    }
  }

  lemma Scaled(s: real, t: real)
    requires s > 0.0 && s * t >= 0.0
    ensures t >= 0.0
  {}

  lemma Difference(u: real, v: real)
    ensures u * u - 2.0 * (u * v) + v * v >= 0.0
  {
    SquareIsNotNegative(u - v);
    assert (u - v) * (u - v) == u * u - 2.0 * (u * v) + v * v;
  }

  lemma Regrouped(x: real, y: real, p: real, a: real)
    ensures (x * p) * (x * p) == (x * x) * (p * p) && (x * p) * (y * a) == (x * y * p) * a && (y * a) * (y * a) == (y * y * a) * a
  {}

  lemma Raised(s: real, t: real, u: real)
    requires s >= 0.0 && t <= u
    ensures s * t <= s * u
  {}

  /** The mixed terms of the inequality below. */
  lemma Completed(x: real, y: real, p: real, a: real, b: real)
    requires p * p <= a * b && a > 0.0
    ensures (x * x) * b + y * y * a - 2.0 * (x * y * p) >= 0.0
  {
    var xx, m, n := x * x, x * y * p, y * y * a;
    var d := xx * b + n - 2.0 * m;
    SquareIsNotNegative(x);
    Difference(x * p, y * a);
    Regrouped(x, y, p, a);
    Raised(xx, p * p, a * b);
    assert a * d == xx * (a * b) - 2.0 * (m * a) + n * a;
    Scaled(a, d);
  }

  lemma ZeroTimes(x: real, y: real)
    requires x == 0.0 || y == 0.0
    ensures x * y == 0.0
  {}

  lemma Widened(x: real, y: real, p: real, a: real, b: real)
    requires p * p <= a * b && a >= 0.0 && b >= 0.0
    ensures (x * y + p) * (x * y + p) <= (x * x + a) * (y * y + b)
  {
    var xx, m := x * x, x * y * p;
    SquareIsNotNegative(x);
    if a == 0.0 {
      ZeroTimes(a, b);
      OnlyZeroHasSquareZero(p);
      ZeroTimes(x * y, p);
      Raised(xx, 0.0, b);
    } else {
      Completed(x, y, p, a, b);
    }
    Expanded(x, y, p, a, b);
  }

  lemma Expanded(x: real, y: real, p: real, a: real, b: real)
    ensures (x * y + p) * (x * y + p) == (x * x) * (y * y) + 2.0 * (x * y * p) + p * p
    ensures (x * x + a) * (y * y + b) == (x * x) * (y * y) + (x * x) * b + y * y * a + a * b
  {
    var z := x * y;
    assert (z + p) * (z + p) == z * z + 2.0 * (z * p) + p * p;
    assert z * z == (x * x) * (y * y);
  }

  lemma DotStep(a: Vector, b: Vector)
    requires |a| == |b| > 0
    ensures Dot(a, b) == a[0] * b[0] + Dot(a[1..], b[1..])
  {}

  lemma {:induction false} CauchySchwarz(a: Vector, b: Vector)
    requires |a| == |b|
    ensures Dot(a, b) * Dot(a, b) <= Dot(a, a) * Dot(b, b)
  {
    if a == [] {
      assert Dot(a, b) == 0.0 && Dot(a, a) == 0.0;
    } else {
      hide Dot;
      CauchySchwarz(a[1..], b[1..]);
      NormIsNotNegative(a[1..]);
      NormIsNotNegative(b[1..]);
      DotStep(a, b);
      DotStep(a, a);
      DotStep(b, b);
      Widened(a[0], b[0], Dot(a[1..], b[1..]), Dot(a[1..], a[1..]), Dot(b[1..], b[1..]));
    }
  }

  /** Square roots, as far as they are exact. */
  ghost predicate IsRoot(sqrt: real -> real) {
    forall x | x >= 0.0 :: sqrt(x) >= 0.0 && Square(sqrt(x)) == x
  }

  lemma RootOf(sqrt: real -> real, x: real)
    requires IsRoot(sqrt) && x >= 0.0
    ensures sqrt(x) >= 0.0 && Square(sqrt(x)) == x && (x == 0.0 <==> sqrt(x) == 0.0)
  {
    hide Square;
    OnlyZeroHasSquareZero(sqrt(x));
  }

  lemma LargerSquare(d: real, s: real)
    requires d > s > 0.0
    ensures Square(d) > Square(s)
  {}

  lemma SmallerSquare(d: real, s: real)
    requires s > 0.0 && Square(d) <= Square(s)
    ensures -s <= d <= s
  {
    if d > s {
      LargerSquare(d, s);
    } else if -d > s {
      OppositeTimes(d);
      LargerSquare(-d, s);
    }
  }

  lemma SquareOfTimes(n: real, m: real)
    ensures Square(Times(n, m)) == Times(Square(n), Square(m))
  {}

  lemma Quotient(d: real, s: real)
    requires s > 0.0 && -s <= d <= s
    ensures -1.0 <= d / s <= 1.0 && Times(d / s, s) == d && (d == s ==> d / s == 1.0) && (d == 0.0 ==> d / s == 0.0)
  {}

  /** With the two lengths n and m. */
  lemma OverBoth(d: real, n: real, m: real)
    requires n > 0.0 && m > 0.0 && Square(d) <= Times(Square(n), Square(m))
    ensures n * m > 0.0 && -1.0 <= d / (n * m) <= 1.0 && Times(d / (n * m), Times(n, m)) == d && (d == Square(n) && n == m ==> d / (n * m) == 1.0)
  {
    PositiveTimes(n, m);
    SquareOfTimes(n, m);
    SmallerSquare(d, Times(n, m));
    Quotient(d, Times(n, m));
  }

  /** The similarity is the product over the two lengths, within [-1, 1]; it is 0 if one vector is zero, and 1 of
      a vector and itself. */
  lemma CosineExactly(emb: Key -> Vector, sqrt: real -> real, a: Key, b: Key)
    requires IsRoot(sqrt) && |emb(a)| == |emb(b)|
    ensures var r, dot, na, nb := Cosine(emb, sqrt, a, b), Dot(emb(a), emb(b)), sqrt(Dot(emb(a), emb(a))), sqrt(Dot(emb(b), emb(b)));
      -1.0 <= r <= 1.0 && Times(r, Times(na, nb)) == dot && (na == 0.0 || nb == 0.0 ==> r == 0.0) && (emb(a) == emb(b) && na != 0.0 ==> r == 1.0)
  {
    hide Dot, IsRoot, Square, Times;
    var u, v := emb(a), emb(b);
    var d, n, m := Dot(u, v), sqrt(Dot(u, u)), sqrt(Dot(v, v));
    NormIsNotNegative(u);
    NormIsNotNegative(v);
    RootOf(sqrt, Dot(u, u));
    RootOf(sqrt, Dot(v, v));
    SquareBound(u, v);
    if n != 0.0 && m != 0.0 {
      OverBoth(d, n, m);
      assert Cosine(emb, sqrt, a, b) == d / (n * m);
    } else {
      assert Cosine(emb, sqrt, a, b) == 0.0;
      OverNothing(d, n, m);
    }
  }

  lemma OverNothing(d: real, n: real, m: real)
    requires (n == 0.0 || m == 0.0) && Square(d) <= Times(Square(n), Square(m))
    ensures d == 0.0 && Times(0.0, Times(n, m)) == 0.0
  {
    assert Times(Square(n), Square(m)) == 0.0;
    OnlyZeroHasSquareZero(d);
  }

  lemma SquareBound(a: Vector, b: Vector)
    requires |a| == |b|
    ensures Square(Dot(a, b)) <= Times(Dot(a, a), Dot(b, b))
  {
    CauchySchwarz(a, b);
  }
}
