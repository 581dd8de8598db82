/** Facts about products, quotients and remainders. */
module Arithmetic {

  /** Number of values of a 32-bit word. */
  const WORD := 0x1_0000_0000

  predicate IsByte(c: int) { 0 <= c < 256 }

  type Byte = b: int | 0 <= b < 256

  ghost function Pow8(n: nat): nat { if n == 0 then 1 else 8 * Pow8(n - 1) }

  lemma {:induction false} MultiplesApart(d: int, w: nat)
    ensures d >= 1 ==> d * w >= w
    ensures d <= -1 ==> d * w + w <= 0
  {
    if d >= 1 {
      assert (d - 1) * w >= 0;
    } else if d <= -1 {
      assert (-d - 1) * w >= 0;
    }
  }

  /** Quotient and remainder are unique. */
  lemma {:induction false} DivIs(n: nat, y: nat, x: nat, w: nat)
    requires x < w && n == y * w + x
    ensures n / w == y && n % w == x
  {
    MultiplesApart(n / w - y, w);
    assert (n / w - y) * w == x - n % w;
  }

  lemma {:induction false} DivModOf(y: nat, x: nat, w: nat)
    requires x < w
    ensures (y * w + x) / w == y && (y * w + x) % w == x
  {
    DivIs(y * w + x, y, x, w);
  }

  lemma {:induction false} TimesMonotone(a: nat, b: nat, m: nat)
    requires a <= b
    ensures a * m <= b * m
  {
    assert (b - a) * m >= 0;
  }

  lemma {:induction false} RowIn(j: nat, w: nat, h: nat)
    requires j < h
    ensures (j + 1) * w == j * w + w <= h * w
  {
    TimesMonotone(j + 1, h, w);
  }

  /** A number of rows of equal length, counted up one by one. */
  ghost function Cells(rows: nat, w: nat): nat { if rows == 0 then 0 else Cells(rows - 1, w) + w }

  lemma {:induction false} CellsAre(rows: nat, w: nat)
    ensures Cells(rows, w) == rows * w
  {
    if rows > 0 {
      CellsAre(rows - 1, w);
      RowIn(rows - 1, w, rows);
    }
  }

  lemma {:induction false} CellsSum(a: nat, b: nat, w: nat)
    ensures Cells(a + b, w) == Cells(a, w) + Cells(b, w)
  {
    if b > 0 {
      CellsSum(a, b - 1, w);
      assert a + b - 1 == a + (b - 1);
    }
  }
}
