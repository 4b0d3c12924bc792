/** Numbers: Python's int(), and the order of products and ratios. */
module Numbers {

  /** int() of a real: towards zero. */
  function Truncated(x: real): int { if x >= 0.0 then x.Floor else -(-x).Floor }

  function Times(a: real, b: real): real { a * b }

  lemma TimesOrder(x: real, y: real, k: real)
    requires k >= 0.0 && x <= y
    ensures Times(x, k) <= Times(y, k) && Times(k, x) <= Times(k, y)
  {
    assert (y - x) * k >= 0.0;
    assert (y - x) * k == y * k - x * k;
  }

  lemma TimesStrict(x: real, y: real, k: real)
    requires k > 0.0 && x < y
    ensures Times(x, k) < Times(y, k) && Times(k, x) < Times(k, y)
  {
    assert (y - x) * k > 0.0;
    assert (y - x) * k == y * k - x * k;
  }

  /** How a ratio compares with a number. */
  lemma RatioOrder(a: real, w: real, r: real)
    requires w > 0.0
    ensures a / w <= r <==> a <= Times(r, w)
    ensures a / w >= r <==> a >= Times(r, w)
  {
    var q := a / w;
    assert Times(q, w) == a;
    if q < r {
      TimesStrict(q, r, w);
    } else if q > r {
      TimesStrict(r, q, w);
    }
  }
}
