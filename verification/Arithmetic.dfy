/** Division by parts. */
module Arithmetic {
  lemma DivUnique(h: int, d: int, k: int, r: int)
    requires h == d * k + r && 0 <= r < d
    ensures h / d == k && h % d == r
  {
    var j := h / d;
    assert (k - j >= 1 ==> d * (k - j) >= d) && (k - j <= -1 ==> d * (k - j) <= -d);
    assert d * (k - j) == h % d - r;
  }

  /** Two divisions are one by the product. */
  lemma DivDiv(w: int, a: int, b: int)
    requires a > 0 && b > 0
    ensures a * b > 0 && w / a / b == w / (a * b)
    ensures w % (a * b) == a * (w / a % b) + w % a
  {
    var q := w / a;
    assert a * (b * (q / b)) == (a * b) * (q / b);
    assert w == (a * b) * (q / b) + (a * (q % b) + w % a);
    assert a * (q % b) <= a * (b - 1);
    DivUnique(w, a * b, q / b, a * (q % b) + w % a);
  }

  /** Dropping the low part commutes with masking the high part. */
  lemma DropLow(w: int, a: int, b: int)
    requires a > 0 && b > 0
    ensures a * b > 0 && w % (a * b) / a == w / a % b && w % (a * b) % a == w % a
  {
    DivDiv(w, a, b);
    DivUnique(w % (a * b), a, w / a % b, w % a);
  }

  lemma ModAdd(x: int, y: int, d: int)
    requires d > 0
    ensures (x % d + y) % d == (x + y) % d
  {
    var z := x % d + y;
    assert x + y == d * (x / d + z / d) + z % d;
    DivUnique(x + y, d, x / d + z / d, z % d);
  }

  /** A difference within the modulus names the one step that reaches it. */
  lemma WrapAround(a: int, b: int, i: int, d: int)
    requires 0 <= a < d && 0 <= b < d && 0 <= i < d
    ensures b == (a + i) % d <==> i == (b - a) % d
  {
    if a + i < d { DivUnique(a + i, d, 0, a + i); } else { DivUnique(a + i, d, 1, a + i - d); }
    if a <= b { DivUnique(b - a, d, 0, b - a); } else { DivUnique(b - a, d, -1, b - a + d); }
  }

  lemma DivAtLeast(a: int, d: int, k: int)
    requires d > 0 && a >= d * k
    ensures a / d >= k && d * (a / d) <= a
  {
    var n := a / d;
    assert n + 1 <= k ==> d * (n + 1) <= d * k;
    assert d * (n + 1) == d * n + d;
  }

  lemma MulWithin(d: int, i: int, n: int)
    requires d > 0 && 0 <= i < n
    ensures 0 <= d * i && d * i + d <= d * n
  {
    assert d * (i + 1) <= d * n;
  }
}
