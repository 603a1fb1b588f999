/** Places counted in groups of a fixed size: clusters of a file, rounds of a loop. */
module Scaling {
  lemma ScaledMore(cs: int, d: int)
    requires 0 < cs && 0 <= d
    ensures 0 <= d * cs && (d + 1) * cs == d * cs + cs
  {
  }

  lemma ScaledOrder(cs: int, a: int, b: int)
    requires 0 < cs && a < b
    ensures a * cs + cs <= b * cs
  {
    var d := b - a - 1;
    ScaledMore(cs, d);
    assert b * cs == a * cs + cs + d * cs;
  }

  /** The only way to split a position into cluster and byte. */
  lemma Position(cs: int, q: int, x: int, o: int)
    requires 0 < cs && 0 <= x < cs && o == q * cs + x
    ensures o / cs == q && o % cs == x
  {
    var d, y := o / cs, o % cs;
    assert o == d * cs + y && 0 <= y < cs;
    if d < q {
      ScaledOrder(cs, d, q);
    } else if q < d {
      ScaledOrder(cs, q, d);
    }
  }

  lemma Parts(cs: int, o: int)
    requires 0 < cs && 0 <= o
    ensures 0 <= o / cs && 0 <= o % cs < cs && o == o / cs * cs + o % cs
  {
  }
}
