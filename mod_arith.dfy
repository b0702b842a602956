/** Facts about Euclidean division that the round-robin cursor relies on. */
module ModArith {

  lemma {:induction false} MulMono(a: int, b: int, n: nat)
    requires a <= b
    ensures a * n <= b * n
    decreases n
  {
    if n > 0 {
      MulMono(a, b, n - 1);
      assert a * n == a * (n - 1) + a && b * n == b * (n - 1) + b;
    }
  }

  lemma MulStep(a: int, b: int, n: nat)
    ensures a < b ==> a * n + n <= b * n
  {
    if a < b {
      assert (a + 1) * n == a * n + n;
      MulMono(a + 1, b, n);
    }
  }

  /** Euclidean division is unique. */
  lemma DivMod(x: int, n: int, d: int, r: int)
    requires n > 0 && 0 <= r < n && x == d * n + r
    ensures x / n == d && x % n == r
  {
    var d0, r0 := x / n, x % n;
    assert x == d0 * n + r0 && 0 <= r0 < n;
    MulStep(d0, d, n);
    MulStep(d, d0, n);
  }

  lemma ModShift(y: int, q: int, n: int)
    requires n > 0
    ensures (y + q * n) % n == y % n
  {
    assert (y / n + q) * n == (y / n) * n + q * n;
    DivMod(y + q * n, n, y / n + q, y % n);
  }

  lemma ModStep(x: int, j: int, n: int)
    requires n > 0
    ensures (x % n + 1 + j) % n == (x + 1 + j) % n
  {
    assert x + 1 + j == (x % n + 1 + j) + (x / n) * n;
    ModShift(x % n + 1 + j, x / n, n);
  }

  /** Position `i` of a ring of `n` is reached `j + 1` steps after position `c`, for some `j < n`. */
  lemma StepsToReach(i: int, c: int, n: int) returns (j: nat)
    requires n > 0 && 0 <= i < n
    ensures j < n && (c + 1 + j) % n == i
  {
    var q := (i - (c + 1)) / n;
    j := (i - (c + 1)) % n;
    assert c + 1 + j == i + (-q) * n;
    ModShift(i, -q, n);
    DivMod(i, n, 0, i);
  }
}
