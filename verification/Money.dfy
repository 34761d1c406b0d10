/** Storage of money in `decimal(10,2)` columns, over exact reals. */
module Money {
  import opened Sums

  /** Rounding to an integer, halves away from zero. */
  function Nearest(y: real): int {
    if y >= 0.0 then (y + 0.5).Floor else -((-y + 0.5).Floor)
  }

  function Round2(x: real): real {
    Nearest(x * 100.0) as real / 100.0
  }

  /** `a` and `b` differ by at most `bound`. */
  predicate Near(a: real, b: real, bound: real) {
    -bound <= a - b <= bound
  }

  ghost predicate WholeCents(x: real) {
    x * 100.0 == (x * 100.0).Floor as real
  }

  /** A priced quantity. */
  datatype Entry = Entry(price: real, quantity: int)

  /** The left-to-right sum of price times quantity. */
  function Total(es: seq<Entry>): real {
    if es == [] then 0.0
    else Total(es[..|es| - 1]) + es[|es| - 1].price * es[|es| - 1].quantity as real
  }

  function Quantity(es: seq<Entry>): int {
    if es == [] then 0 else Quantity(es[..|es| - 1]) + es[|es| - 1].quantity
  }

  function Rounded(es: seq<Entry>): seq<Entry> {
    seq(|es|, i requires 0 <= i < |es| => es[i].(price := Round2(es[i].price)))
  }

  /** `n` half cents. */
  function HalfCents(n: int): real {
    n as real / 200.0
  }

  lemma NearestInteger(y: real)
    ensures -0.5 <= (y + 0.5).Floor as real - y <= 0.5
    ensures y == y.Floor as real ==> (y + 0.5).Floor == y.Floor
  {
  }

  lemma NearestIsClose(y: real)
    ensures Near(Nearest(y) as real, y, 0.5)
    ensures y == y.Floor as real ==> Nearest(y) == y.Floor
  {
    if y >= 0.0 {
      NearestInteger(y);
    } else {
      NearestInteger(-y);
      if y == y.Floor as real {
        assert -y == (-(y.Floor)) as real;
      }
    }
  }

  lemma RoundingIsClose(x: real)
    ensures Near(Round2(x), x, HalfCents(1))
    ensures WholeCents(x) ==> Round2(x) == x
  {
    NearestIsClose(x * 100.0);
  }

  /** Rounding gives whole cents, at most half a cent away, and a tie goes away from zero. */
  lemma RoundingExactly(x: real)
    ensures WholeCents(Round2(x)) && Near(Round2(x), x, HalfCents(1))
    ensures x >= 0.0 ==> Round2(x) - x > -HalfCents(1)
    ensures x <= 0.0 ==> Round2(x) - x < HalfCents(1)
  {
    RoundingIsClose(x);
    IsWholeCents(Round2(x), Nearest(x * 100.0));
  }

  lemma ScaleBound(a: real, b: real, bound: real, q: real)
    requires Near(a, b, bound) && q >= 0.0
    ensures Near(a * q, b * q, bound * q)
  {
    assert (bound - (a - b)) * q >= 0.0;
    assert (bound + (a - b)) * q >= 0.0;
  }

  lemma AddBounds(a: real, b: real, x: real, c: real, d: real, y: real)
    requires Near(a, b, x) && Near(c, d, y)
    ensures Near(a + c, b + d, x + y)
  {
  }

  lemma DriftStep(a: real, b: real, p: real, q: real, m: int, n: int)
    requires Near(a, b, HalfCents(m)) && Near(p, q, HalfCents(1)) && n >= 0
    ensures Near(a + p * n as real, b + q * n as real, HalfCents(m + n))
  {
    ScaleBound(p, q, HalfCents(1), n as real);
    assert HalfCents(1) * n as real == HalfCents(n);
    assert HalfCents(m) + HalfCents(n) == HalfCents(m + n);
    AddBounds(a, b, HalfCents(m), p * n as real, q * n as real, HalfCents(n));
  }

  /** Moving each price by at most half a cent moves the sum by at most half a cent per unit sold. */
  lemma {:induction false} PricesDrift(es: seq<Entry>, rs: seq<Entry>)
    requires |rs| == |es|
    requires forall i :: 0 <= i < |es| ==>
               es[i].quantity >= 0 && rs[i].quantity == es[i].quantity && Near(rs[i].price, es[i].price, HalfCents(1))
    ensures Near(Total(rs), Total(es), HalfCents(Quantity(es)))
  {
    if es != [] {
      var n := |es| - 1;
      PricesDrift(es[..n], rs[..n]);
      DriftStep(Total(rs[..n]), Total(es[..n]), rs[n].price, es[n].price, Quantity(es[..n]), es[n].quantity);
    }
  }

  lemma RoundedWholeCents(es: seq<Entry>)
    requires forall e :: e in es ==> WholeCents(e.price)
    ensures Rounded(es) == es
  {
    forall i | 0 <= i < |es| ensures Rounded(es)[i] == es[i] {
      assert es[i] in es;
      RoundingIsClose(es[i].price);
    }
  }

  lemma ScaleOut(x: real, q: real)
    ensures x * q * 100.0 == x * 100.0 * q
  {
  }

  lemma ProductOfInts(a: int, b: int)
    ensures (a * b) as real == a as real * b as real
  {
  }

  lemma IsWholeCents(x: real, n: int)
    requires x * 100.0 == n as real
    ensures WholeCents(x)
  {
  }

  lemma CentsTimes(x: real, n: int) returns (y: real)
    requires WholeCents(x)
    ensures y == x * n as real && WholeCents(y)
  {
    var cents := (x * 100.0).Floor;
    y := x * n as real;
    ScaleOut(x, n as real);
    ProductOfInts(cents, n);
    IsWholeCents(y, cents * n);
  }

  lemma CentsPlus(x: real, y: real) returns (z: real)
    requires WholeCents(x) && WholeCents(y)
    ensures z == x + y && WholeCents(z)
  {
    z := x + y;
    IsWholeCents(z, (x * 100.0).Floor + (y * 100.0).Floor);
  }

  lemma {:induction false} TotalOfWholeCents(es: seq<Entry>)
    requires forall e :: e in es ==> WholeCents(e.price)
    ensures WholeCents(Total(es))
  {
    if es == [] {
      assert WholeCents(0.0);
    } else {
      var init, last := es[..|es| - 1], es[|es| - 1];
      assert last in es;
      assert forall e :: e in init ==> e in es;
      TotalOfWholeCents(init);
      var amount := CentsTimes(last.price, last.quantity);
      var total := CentsPlus(Total(init), amount);
      assert Total(es) == total;
    }
  }

  /**
   The stored total stays within half a cent times (1 + units sold) of the sum over the stored
   unit prices, and equals it when every price is a whole number of cents.
   */
  lemma StoredTotalBound(es: seq<Entry>)
    requires forall e :: e in es ==> e.quantity >= 0
    ensures Near(Round2(Total(es)), Total(Rounded(es)), HalfCents(1 + Quantity(es)))
    ensures (forall e :: e in es ==> WholeCents(e.price)) ==> Round2(Total(es)) == Total(Rounded(es))
  {
    forall i | 0 <= i < |es| ensures es[i].quantity >= 0 && Near(Rounded(es)[i].price, es[i].price, HalfCents(1)) {
      assert es[i] in es;
      RoundingIsClose(es[i].price);
    }
    PricesDrift(es, Rounded(es));
    RoundingIsClose(Total(es));
    if forall e :: e in es ==> WholeCents(e.price) {
      TotalOfWholeCents(es);
      RoundedWholeCents(es);
    }
  }

  /** A stored total without any items is within half a cent only when it is nothing. */
  lemma SmallestTotal(x: real)
    ensures Near(Round2(x), 0.0, HalfCents(1)) <==> Round2(x) == 0.0
  {
  }

  function Amount(e: Entry): real {
    e.price * e.quantity as real
  }

  function Amounts(es: seq<Entry>): seq<real> {
    seq(|es|, i requires 0 <= i < |es| => Amount(es[i]))
  }

  lemma {:induction false} TotalIsSum(es: seq<Entry>)
    ensures Total(es) == Sum(Amounts(es))
  {
    if es != [] {
      var n := |es| - 1;
      TotalIsSum(es[..n]);
      assert Amounts(es)[..n] == Amounts(es[..n]);
      assert Amounts(es)[n] == Amount(es[n]);
    }
  }
}
