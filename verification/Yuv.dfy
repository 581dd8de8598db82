/**
Conversion of a bottom-up RGB bitmap into planar YUV with 4:2:0 subsampling: fixed-point lookup
tables, a vertical flip, and averages of blocks of two by two samples.
*/
module Yuv {
  import opened Arithmetic

  ghost predicate Bytes(s: seq<int>) { forall k :: 0 <= k < |s| ==> IsByte(s[k]) }

  // ---------- lookup tables ----------

  /** A table entry: a factor in thousandths times i << 8, cut to an integer. */
  function Entry(factor: int, i: int): int { factor * (256 * i) / 1000 }

  const YR := 65481
  const YG := 128553
  const YB := 24966
  const UR := 37797
  const UG := 74203
  const VG := 93786
  const VB := 18214
  const UBVR := 112000

  function Table(factor: nat): (t: seq<int>)
    ensures |t| == 256
  {
    seq(256, i requires 0 <= i < 256 => Entry(factor, i))
  }

  /** One loop of InitLookupTable. */
  method FillTable(factor: nat) returns (table: seq<int>)
    ensures table == Table(factor)
  {
    var cells := new int[256];
    for i := 0 to 256
      invariant forall k :: 0 <= k < i ==> cells[k] == Entry(factor, k)
    {
      cells[i] := factor * (256 * i) / 1000;
    }
    table := cells[..];
  }

  /** The converters of a pixel into the three components. */
  type Conversion = (int, int, int) -> int

  /** The sums of entries of three tables, shifted, are this conversion. */
  ghost predicate LumaFrom(yr: seq<int>, yg: seq<int>, yb: seq<int>, f: Conversion)
  {
    && |yr| == |yg| == |yb| == 256
    && forall r, g, b {:trigger yr[r], yg[g], yb[b]} :: IsByte(r) && IsByte(g) && IsByte(b) ==>
        f(r, g, b) == (yr[r] + yg[g] + yb[b] + 1048576) / 65536
  }

  ghost predicate CbFrom(ur: seq<int>, ug: seq<int>, ubvr: seq<int>, f: Conversion)
  {
    && |ur| == |ug| == |ubvr| == 256
    && forall r, g, b {:trigger ur[r], ug[g], ubvr[b]} :: IsByte(r) && IsByte(g) && IsByte(b) ==>
        f(r, g, b) == (-ur[r] - ug[g] + ubvr[b] + 8388608) / 65536
  }

  ghost predicate CrFrom(ubvr: seq<int>, vg: seq<int>, vb: seq<int>, f: Conversion)
  {
    && |ubvr| == |vg| == |vb| == 256
    && forall r, g, b {:trigger ubvr[r], vg[g], vb[b]} :: IsByte(r) && IsByte(g) && IsByte(b) ==>
        f(r, g, b) == (ubvr[r] - vg[g] - vb[b] + 8388608) / 65536
  }

  class Tables {
    var yr: seq<int>
    var yg: seq<int>
    var yb: seq<int>
    var ur: seq<int>
    var ug: seq<int>
    var vg: seq<int>
    var vb: seq<int>
    var ubvr: seq<int>

    /** The sums of table entries, shifted, are these conversions. */
    ghost predicate Compute(fy: Conversion, fu: Conversion, fv: Conversion)
      reads this
    {
      LumaFrom(yr, yg, yb, fy) && CbFrom(ur, ug, ubvr, fu) && CrFrom(ubvr, vg, vb, fv)
    }

    method InitLookupTable()
      modifies this
      ensures Compute(Luma, Cb, Cr)
    {
      yr := FillTable(YR);
      yg := FillTable(YG);
      yb := FillTable(YB);
      ur := FillTable(UR);
      ug := FillTable(UG);
      vg := FillTable(VG);
      vb := FillTable(VB);
      ubvr := FillTable(UBVR);
      LumaTables();
      CbTables();
      CrTables();
    }

    /** The three sums of the first loop. */
    method Components(r: int, g: int, b: int, ghost fy: Conversion, ghost fu: Conversion, ghost fv: Conversion)
      returns (y: int, u: int, v: int)
      requires Compute(fy, fu, fv) && IsByte(r) && IsByte(g) && IsByte(b)
      ensures y == fy(r, g, b) && u == fu(r, g, b) && v == fv(r, g, b)
    {
      assert fy(r, g, b) == (yr[r] + yg[g] + yb[b] + 1048576) / 65536;
      assert fu(r, g, b) == (-ur[r] - ug[g] + ubvr[b] + 8388608) / 65536;
      assert fv(r, g, b) == (ubvr[r] - vg[g] - vb[b] + 8388608) / 65536;
      y := (yr[r] + yg[g] + yb[b] + 1048576) / 65536;
      u := (-ur[r] - ug[g] + ubvr[b] + 8388608) / 65536;
      v := (ubvr[r] - vg[g] - vb[b] + 8388608) / 65536;
    }
  }

  // ---------- one pixel ----------

  function LumaSum(r: int, g: int, b: int): int { Entry(YR, r) + Entry(YG, g) + Entry(YB, b) + 1048576 }

  function CbSum(r: int, g: int, b: int): int { Entry(UBVR, b) - Entry(UR, r) - Entry(UG, g) + 8388608 }

  function CrSum(r: int, g: int, b: int): int { Entry(UBVR, r) - Entry(VG, g) - Entry(VB, b) + 8388608 }

  /** Shifts right by 16 bits; the sums are never negative. */
  function Luma(r: int, g: int, b: int): int
  {
    LumaSum(r, g, b) / 65536
  }

  function Cb(r: int, g: int, b: int): int
  {
    CbSum(r, g, b) / 65536
  }

  function Cr(r: int, g: int, b: int): int
  {
    CrSum(r, g, b) / 65536
  }

  lemma {:induction false} LumaRange(r: int, g: int, b: int)
    requires IsByte(r) && IsByte(g) && IsByte(b)
    ensures 16 <= LumaSum(r, g, b) / 65536 <= 234
  {
  }

  lemma {:induction false} CbRange(r: int, g: int, b: int)
    requires IsByte(r) && IsByte(g) && IsByte(b)
    ensures 16 <= CbSum(r, g, b) / 65536 <= 239
  {
  }

  lemma {:induction false} CrRange(r: int, g: int, b: int)
    requires IsByte(r) && IsByte(g) && IsByte(b)
    ensures 16 <= CrSum(r, g, b) / 65536 <= 239
  {
  }

  /** The sums of table entries are the components. */
  lemma {:induction false} LumaTables()
    ensures LumaFrom(Table(YR), Table(YG), Table(YB), Luma)
  {
  }

  lemma {:induction false} CbTables()
    ensures CbFrom(Table(UR), Table(UG), Table(UBVR), Cb)
  {
  }

  lemma {:induction false} CrTables()
    ensures CrFrom(Table(UBVR), Table(VG), Table(VB), Cr)
  {
  }

  /** Grey has no colour, although every table entry is cut to an integer. */
  lemma {:induction false} GreyIsNeutral(c: int)
    requires IsByte(c)
    ensures Cb(c, c, c) == 128 && Cr(c, c, c) == 128
  {
  }

  /** The components in units of 1/256000: 16 + (65.481 r + 128.553 g + 24.966 b) / 256 for luma, */
  function ExactLuma(r: int, g: int, b: int): int { 4096000 + 65481 * r + 128553 * g + 24966 * b }

  /** 128 + (112 b - 37.797 r - 74.203 g) / 256, */
  function ExactCb(r: int, g: int, b: int): int { 32768000 + 112000 * b - 37797 * r - 74203 * g }

  /** and 128 + (112 r - 93.786 g - 18.214 b) / 256. */
  function ExactCr(r: int, g: int, b: int): int { 32768000 + 112000 * r - 93786 * g - 18214 * b }

  /** The luma is the exact value rounded down, or one less where that is barely reached. */
  lemma {:induction false} LumaIsRounded(r: int, g: int, b: int)
    requires IsByte(r) && IsByte(g) && IsByte(b)
    ensures Luma(r, g, b) * 256000 <= ExactLuma(r, g, b) < (Luma(r, g, b) + 1) * 256000 + 12
  {
  }

  /** The chroma is the exact value rounded down, or one more where that is barely missed. */
  lemma {:induction false} CbIsRounded(r: int, g: int, b: int)
    requires IsByte(r) && IsByte(g) && IsByte(b)
    ensures Cb(r, g, b) * 256000 - 8 < ExactCb(r, g, b) < (Cb(r, g, b) + 1) * 256000
  {
  }

  lemma {:induction false} CrIsRounded(r: int, g: int, b: int)
    requires IsByte(r) && IsByte(g) && IsByte(b)
    ensures Cr(r, g, b) * 256000 - 8 < ExactCr(r, g, b) < (Cr(r, g, b) + 1) * 256000
  {
  }

  // ---------- planes ----------

  /** One component of a row of pixels. */
  function RowOf(row: seq<int>, f: Conversion): seq<int>
  {
    if |row| < 3 then [] else [f(row[0], row[1], row[2])] + RowOf(row[3..], f)
  }

  /** One component of a bitmap, its rows in reverse order. */
  function Plane(bmp: seq<int>, x: nat, f: Conversion): seq<int>
  {
    if x == 0 || |bmp| < 3 * x then []
    else RowOf(bmp[|bmp| - 3 * x..], f) + Plane(bmp[..|bmp| - 3 * x], x, f)
  }

  lemma {:induction false} RowOfAt(row: seq<int>, f: Conversion, j: nat)
    requires 3 * j + 2 < |row|
    ensures j < |RowOf(row, f)| && RowOf(row, f)[j] == f(row[3 * j], row[3 * j + 1], row[3 * j + 2])
    decreases j
  {
    if j > 0 { RowOfAt(row[3..], f, j - 1); }
  }

  lemma {:induction false} RowOfLength(row: seq<int>, f: Conversion, x: nat)
    requires |row| == 3 * x
    ensures |RowOf(row, f)| == x
    decreases x
  {
    if x > 0 { RowOfLength(row[3..], f, x - 1); }
  }

  lemma {:induction false} LowerRowAt(top: seq<int>, rest: seq<int>, x: nat, at: nat, j: nat)
    requires |top| == x <= at && at - x + j < |rest|
    ensures (top + rest)[at + j] == rest[at - x + j]
  {
  }

  lemma {:induction false} TopRow(bmp: seq<int>, x: nat, start: nat, f: Conversion)
    requires |bmp| == start + 3 * x && x > 0
    ensures |RowOf(bmp[start..], f)| == x
    ensures Plane(bmp, x, f) == RowOf(bmp[start..], f) + Plane(bmp[..start], x, f)
  {
    RowOfLength(bmp[start..], f, x);
  }

  function PixelAt(bmp: seq<int>, k: nat, f: Conversion): int
    requires k + 2 < |bmp|
  {
    f(bmp[k], bmp[k + 1], bmp[k + 2])
  }

  /** Sample at of the plane is converted from the pixel at k. */
  ghost predicate Converted(bmp: seq<int>, x: nat, f: Conversion, at: int, k: int)
  {
    0 <= at < |Plane(bmp, x, f)| && 0 <= k < |bmp| - 2 && Plane(bmp, x, f)[at] == PixelAt(bmp, k, f)
  }

  lemma {:induction false} TopRowAt(bmp: seq<int>, x: nat, start: nat, f: Conversion, j: nat)
    requires |bmp| == start + 3 * x && j < x
    ensures Converted(bmp, x, f, j, start + 3 * j)
  {
    TopRow(bmp, x, start, f);
    RowOfAt(bmp[start..], f, j);
  }

  lemma {:induction false} PlaneOfLast(above: seq<int>, row: seq<int>, x: nat, f: Conversion)
    requires |row| == 3 * x > 0
    ensures |RowOf(row, f)| == x && Plane(above + row, x, f) == RowOf(row, f) + Plane(above, x, f)
  {
    TopRow(above + row, x, |above|, f);
    assert (above + row)[|above|..] == row && (above + row)[..|above|] == above;
  }

  lemma {:induction false} Associated(a: seq<int>, b: seq<int>, c: seq<int>)
    ensures a + (b + c) == (a + b) + c
  {
  }

  lemma {:induction false} OneMoreRow(a: seq<int>, low: seq<int>, row: seq<int>, x: nat, f: Conversion)
    requires |row| == 3 * x > 0 && Plane(a + low, x, f) == Plane(low, x, f) + Plane(a, x, f)
    ensures |Plane(low + row, x, f)| == x + |Plane(low, x, f)|
    ensures Plane(a + (low + row), x, f) == Plane(low + row, x, f) + Plane(a, x, f)
  {
    Associated(a, low, row);
    PlaneOfLast(low, row, x, f);
    PlaneOfLast(a + low, row, x, f);
    Associated(RowOf(row, f), Plane(low, x, f), Plane(a, x, f));
  }

  /** Rows behind a bitmap come first in its plane. */
  lemma {:induction false} PlaneConcat(a: seq<int>, b: seq<int>, x: nat, pitch: nat, i: nat, f: Conversion)
    requires pitch == 3 * x > 0 && |b| == Cells(i, pitch)
    ensures |Plane(b, x, f)| == Cells(i, x) && Plane(a + b, x, f) == Plane(b, x, f) + Plane(a, x, f)
    decreases i
  {
    if i == 0 {
      assert a + b == a;
    } else {
      var start := Cells(i - 1, pitch);
      var low, row := b[..start], b[start..];
      assert b == low + row;
      PlaneConcat(a, low, x, pitch, i - 1, f);
      OneMoreRow(a, low, row, x, f);
    }
  }

  lemma {:induction false} ConvertedAbove(a: seq<int>, b: seq<int>, x: nat, pitch: nat, i: nat, f: Conversion, j: nat, k: nat)
    requires pitch == 3 * x > 0 && |b| == Cells(i, pitch) && Converted(a, x, f, j, k)
    ensures Converted(a + b, x, f, Cells(i, x) + j, k)
  {
    PlaneConcat(a, b, x, pitch, i, f);
    Second(Plane(b, x, f), Plane(a, x, f), j);
    assert PixelAt(a + b, k, f) == PixelAt(a, k, f);
  }

  lemma {:induction false} Second(p: seq<int>, q: seq<int>, j: nat)
    requires j < |q|
    ensures (p + q)[|p| + j] == q[j]
  {
  }

  /** The top row of a lies in the plane of a + b behind the rows of b. */
  lemma {:induction false} FlippedAt(bmp: seq<int>, a: seq<int>, b: seq<int>, x: nat, pitch: nat, start: nat, f: Conversion,
                                     i: nat, j: nat, at: nat, k: nat)
    requires bmp == a + b && |a| == start + pitch && |b| == Cells(i, pitch) && pitch == 3 * x && j < x
    requires at == Cells(i, x) + j && k == start + 3 * j
    ensures Converted(bmp, x, f, at, k)
  {
    TopRowAt(a, x, start, f, j);
    ConvertedAbove(a, b, x, pitch, i, f, j, k);
  }

  lemma {:induction false} SplitBehind(bmp: seq<int>, pitch: nat, up: nat, i: nat) returns (a: seq<int>, b: seq<int>)
    requires |bmp| == Cells(up + i + 1, pitch)
    ensures bmp == a + b && |a| == Cells(up, pitch) + pitch && |b| == Cells(i, pitch)
  {
    CellsSum(up + 1, i, pitch);
    a, b := bmp[..Cells(up + 1, pitch)], bmp[Cells(up + 1, pitch)..];
  }

  /** The plane is the vertically flipped conversion: its row i is row y - 1 - i of the bitmap. */
  lemma {:induction false} PlaneIsFlipped(bmp: seq<int>, x: nat, y: nat, f: Conversion, i: nat, j: nat)
    requires |bmp| == y * (x * 3) && i < y && j < x
    ensures Converted(bmp, x, f, i * x + j, (y - 1 - i) * (x * 3) + 3 * j)
  {
    CellsAre(y, x * 3);
    CellsAre(y - 1 - i, x * 3);
    CellsAre(i, x);
    var a, b := SplitBehind(bmp, x * 3, y - 1 - i, i);
    FlippedAt(bmp, a, b, x, x * 3, (y - 1 - i) * (x * 3), f, i, j, i * x + j, (y - 1 - i) * (x * 3) + 3 * j);
  }

  lemma {:induction false} PlaneLength(bmp: seq<int>, x: nat, pitch: nat, y: nat, f: Conversion)
    requires |bmp| == Cells(y, pitch) && pitch == 3 * x
    ensures |Plane(bmp, x, f)| == Cells(y, x)
    decreases y
  {
    if x == 0 {
      CellsAre(y, x);
    } else if y > 0 {
      TopRow(bmp, x, Cells(y - 1, pitch), f);
      PlaneLength(bmp[..Cells(y - 1, pitch)], x, pitch, y - 1, f);
    }
  }

  // ---------- subsampling ----------

  /** Of a block of two by two samples, rounded down. */
  function Average(a: int, b: int, c: int, d: int): int { (a + b + c + d) / 4 }

  /** Averages of the two-by-two blocks of two rows. */
  function Halves(a: seq<int>, b: seq<int>): seq<int>
    requires |a| == |b|
  {
    if |a| < 2 then [] else [Average(a[0], a[1], b[0], b[1])] + Halves(a[2..], b[2..])
  }

  function Sub(plane: seq<int>, x: nat): seq<int>
  {
    if x == 0 || |plane| < 2 * x then [] else Halves(plane[..x], plane[x..2 * x]) + Sub(plane[2 * x..], x)
  }

  lemma {:induction false} HalvesAt(a: seq<int>, b: seq<int>, j: nat)
    requires |a| == |b| && 2 * j + 1 < |a|
    ensures j < |Halves(a, b)| && Halves(a, b)[j] == Average(a[2 * j], a[2 * j + 1], b[2 * j], b[2 * j + 1])
    decreases j
  {
    if j > 0 { HalvesAt(a[2..], b[2..], j - 1); }
  }

  lemma {:induction false} HalvesLength(a: seq<int>, b: seq<int>, n: nat)
    requires |a| == |b| == 2 * n
    ensures |Halves(a, b)| == n
    decreases n
  {
    if n > 0 { HalvesLength(a[2..], b[2..], n - 1); }
  }

  lemma {:induction false} SubLength(plane: seq<int>, rows: nat, n: nat, pair: nat)
    requires |plane| == Cells(rows, pair) && pair == 4 * n
    ensures |Sub(plane, 2 * n)| == Cells(rows, n)
    decreases rows
  {
    if n == 0 {
      CellsAre(rows, n);
    } else if rows > 0 {
      HalvesLength(plane[..2 * n], plane[2 * n..4 * n], n);
      SubLength(plane[4 * n..], rows - 1, n, pair);
    }
  }

  /** The average of the block of samples with this upper left corner, in rows of x samples. */
  function BlockAverage(plane: seq<int>, k: nat, x: nat): int
    requires k + x + 1 < |plane|
  {
    Average(plane[k], plane[k + 1], plane[k + x], plane[k + x + 1])
  }

  lemma {:induction false} TopBlocks(plane: seq<int>, n: nat, pair: nat)
    requires |plane| >= pair == 4 * n > 0
    ensures Sub(plane, 2 * n) == Halves(plane[..2 * n], plane[2 * n..pair]) + Sub(plane[pair..], 2 * n)
    ensures |Halves(plane[..2 * n], plane[2 * n..pair])| == n
  {
    HalvesLength(plane[..2 * n], plane[2 * n..pair], n);
  }

  lemma {:induction false} TopBlockAt(plane: seq<int>, n: nat, pair: nat, j: nat)
    requires |plane| >= pair == 4 * n && j < n
    ensures Averaged(plane, 2 * n, j, 2 * j)
  {
    TopBlocks(plane, n, pair);
    HalvesAt(plane[..2 * n], plane[2 * n..pair], j);
  }

  /** Sample at of the small plane is the average of the block at k. */
  ghost predicate Averaged(plane: seq<int>, x: nat, at: int, k: int)
  {
    0 <= at < |Sub(plane, x)| && 0 <= k < |plane| - x - 1 && Sub(plane, x)[at] == BlockAverage(plane, k, x)
  }

  lemma {:induction false} AveragedBelow(plane: seq<int>, rest: seq<int>, n: nat, pair: nat, at: nat, k: nat)
    requires |plane| >= pair == 4 * n > 0 && rest == plane[pair..] && n <= at && pair <= k
    requires Averaged(rest, 2 * n, at - n, k - pair)
    ensures Averaged(plane, 2 * n, at, k)
  {
    TopBlocks(plane, n, pair);
    LowerRowAt(Halves(plane[..2 * n], plane[2 * n..pair]), Sub(plane[pair..], 2 * n), n, at, 0);
    BlockBehind(plane, pair, k, 2 * n);
  }

  lemma {:induction false} BlockBehind(plane: seq<int>, pair: nat, k: nat, x: nat)
    requires pair <= k && k + x + 1 < |plane|
    ensures BlockAverage(plane[pair..], k - pair, x) == BlockAverage(plane, k, x)
  {
  }

  lemma {:induction false} SubAt(plane: seq<int>, rows: nat, n: nat, pair: nat, i: nat, j: nat, at: nat, k: nat)
    requires |plane| == Cells(rows, pair) && pair == 4 * n && i < rows && j < n
    requires at == Cells(i, n) + j && k == Cells(i, pair) + 2 * j
    ensures Averaged(plane, 2 * n, at, k)
    decreases i
  {
    if i == 0 {
      TopBlockAt(plane, n, pair, j);
    } else {
      var below, rest := rows - 1, plane[pair..];
      var at', k' := Cells(i - 1, n) + j, Cells(i - 1, pair) + 2 * j;
      SubAt(rest, below, n, pair, i - 1, j, at', k');
      assert at' == at - n && k' == k - pair;
      AveragedBelow(plane, rest, n, pair, at, k);
    }
  }

  /** Every sample of the small plane, (i / 2) * (x / 2) + j / 2, is the average of the block at i * x + j. */
  lemma {:induction false} SubIsAverage(plane: seq<int>, x: nat, y: nat, i: nat, j: nat)
    requires x % 2 == 0 && y % 2 == 0 && |plane| == y * x
    requires i < y && j < x && i % 2 == 0 && j % 2 == 0
    ensures Averaged(plane, x, (i / 2) * (x / 2) + j / 2, i * x + j)
  {
    var n, rows, a := x / 2, y / 2, i / 2;
    CellsAre(rows, 4 * n);
    CellsAre(a, 4 * n);
    CellsAre(a, n);
    Doubled(rows, n, y, x);
    Doubled(a, n, i, x);
    SubAt(plane, rows, n, 4 * n, a, j / 2, a * n + j / 2, i * x + j);
  }

  lemma {:induction false} Doubled(a: nat, n: nat, i: nat, x: nat)
    requires i == 2 * a && x == 2 * n
    ensures i * x == a * (4 * n)
  {
  }

  // ---------- samples in terms of the bitmap ----------

  /** The luma s of the pixel at k: red, green and blue. */
  ghost predicate LumaSample(s: int, bmp: seq<int>, k: int)
  {
    && 0 <= k < |bmp| - 2
    && s * 256000 <= ExactLuma(bmp[k], bmp[k + 1], bmp[k + 2]) < (s + 1) * 256000 + 12
  }

  /** Sample j in row i of the luma plane, from row y - 1 - i of the bitmap. */
  lemma {:induction false} LumaSamples(bmp: seq<int>, x: nat, y: nat, i: nat, j: nat)
    requires Bytes(bmp) && |bmp| == y * (x * 3) && i < y && j < x
    ensures 0 <= i * x + j < |Plane(bmp, x, Luma)|
    ensures LumaSample(Plane(bmp, x, Luma)[i * x + j], bmp, (y - 1 - i) * (x * 3) + 3 * j)
  {
    PlaneIsFlipped(bmp, x, y, Luma, i, j);
    var k := (y - 1 - i) * (x * 3) + 3 * j;
    LumaIsRounded(bmp[k], bmp[k + 1], bmp[k + 2]);
  }

  type Exact = (int, int, int) -> int

  ghost function ExactAt(bmp: seq<int>, k: nat, e: Exact): int
    requires k + 2 < |bmp|
  {
    e(bmp[k], bmp[k + 1], bmp[k + 2])
  }

  /** The chroma s of the four pixels at k and k + 3, and at q and q + 3: a quarter of the sum, rounded down twice. */
  ghost predicate ChromaSample(s: int, bmp: seq<int>, k: int, q: int, e: Exact)
  {
    && 0 <= k < |bmp| - 5 && 0 <= q < |bmp| - 5
    && 4 * s * 256000 - 32 < ExactAt(bmp, k, e) + ExactAt(bmp, k + 3, e) + ExactAt(bmp, q, e) + ExactAt(bmp, q + 3, e)
                          < (4 * s + 7) * 256000
  }

  ghost predicate Rounds(f: Conversion, e: Exact)
  {
    forall r, g, b :: IsByte(r) && IsByte(g) && IsByte(b) ==> f(r, g, b) * 256000 - 8 < e(r, g, b) < (f(r, g, b) + 1) * 256000
  }

  lemma {:induction false} ChromaRounds()
    ensures Rounds(Cb, ExactCb) && Rounds(Cr, ExactCr)
  {
    forall r, g, b | IsByte(r) && IsByte(g) && IsByte(b)
      ensures Cb(r, g, b) * 256000 - 8 < ExactCb(r, g, b) < (Cb(r, g, b) + 1) * 256000
    {
      CbIsRounded(r, g, b);
    }
    forall r, g, b | IsByte(r) && IsByte(g) && IsByte(b)
      ensures Cr(r, g, b) * 256000 - 8 < ExactCr(r, g, b) < (Cr(r, g, b) + 1) * 256000
    {
      CrIsRounded(r, g, b);
    }
  }

  lemma {:induction false} RoundsAt(bmp: seq<int>, k: nat, f: Conversion, e: Exact)
    requires Bytes(bmp) && Rounds(f, e) && k + 2 < |bmp|
    ensures PixelAt(bmp, k, f) * 256000 - 8 < ExactAt(bmp, k, e) < (PixelAt(bmp, k, f) + 1) * 256000
  {
  }

  /** The sample of the block in rows i and i + 1 and columns j and j + 1 of a reduced plane. */
  lemma {:induction false} ChromaSamples(bmp: seq<int>, x: nat, y: nat, f: Conversion, e: Exact, i: nat, j: nat,
                                         at: int, k: int, q: int)
    requires Bytes(bmp) && Rounds(f, e) && x % 2 == 0 && y % 2 == 0 && |bmp| == y * (x * 3)
    requires i < y && j < x && i % 2 == 0 && j % 2 == 0 && at == (i / 2) * (x / 2) + j / 2
    requires k == (y - 1 - i) * (x * 3) + 3 * j && q == (y - 2 - i) * (x * 3) + 3 * j
    ensures 0 <= at < |Sub(Plane(bmp, x, f), x)| && ChromaSample(Sub(Plane(bmp, x, f), x)[at], bmp, k, q, e)
  {
    var p := i * x + j;
    BlockAveraged(bmp, x, y, f, i, j, at, p);
    NextInPair(i, y);
    NextInPair(j, x);
    BlockConverted(bmp, x, y, f, i, j, p, k, q);
    BlockSample(bmp, x, f, e, at, p, k, q);
  }

  lemma {:induction false} BlockAveraged(bmp: seq<int>, x: nat, y: nat, f: Conversion, i: nat, j: nat, at: int, p: int)
    requires x % 2 == 0 && y % 2 == 0 && |bmp| == y * (x * 3)
    requires i < y && j < x && i % 2 == 0 && j % 2 == 0 && at == (i / 2) * (x / 2) + j / 2 && p == i * x + j
    ensures Averaged(Plane(bmp, x, f), x, at, p)
  {
    PlaneSize(bmp, x, y, f);
    SubIsAverage(Plane(bmp, x, f), x, y, i, j);
  }

  lemma {:induction false} PlaneSize(bmp: seq<int>, x: nat, y: nat, f: Conversion)
    requires |bmp| == y * (x * 3)
    ensures |Plane(bmp, x, f)| == y * x
  {
    CellsAre(y, x * 3);
    CellsAre(y, x);
    PlaneLength(bmp, x, x * 3, y, f);
  }

  /** The four samples of a block. */
  lemma {:induction false} BlockConverted(bmp: seq<int>, x: nat, y: nat, f: Conversion, i: nat, j: nat, p: int, k: int, q: int)
    requires |bmp| == y * (x * 3) && i + 1 < y && j + 1 < x
    requires p == i * x + j && k == (y - 1 - i) * (x * 3) + 3 * j && q == (y - 2 - i) * (x * 3) + 3 * j
    ensures Converted(bmp, x, f, p, k) && Converted(bmp, x, f, p + 1, k + 3)
    ensures Converted(bmp, x, f, p + x, q) && Converted(bmp, x, f, p + x + 1, q + 3)
  {
    PixelConverted(bmp, x, y, f, i, j, p, k);
    PixelConverted(bmp, x, y, f, i, j + 1, p + 1, k + 3);
    RowBelow(i, x);
    PixelConverted(bmp, x, y, f, i + 1, j, p + x, q);
    PixelConverted(bmp, x, y, f, i + 1, j + 1, p + x + 1, q + 3);
  }

  lemma {:induction false} PixelConverted(bmp: seq<int>, x: nat, y: nat, f: Conversion, i: nat, j: nat, at: int, k: int)
    requires |bmp| == y * (x * 3) && i < y && j < x && at == i * x + j && k == (y - 1 - i) * (x * 3) + 3 * j
    ensures Converted(bmp, x, f, at, k)
  {
    PlaneIsFlipped(bmp, x, y, f, i, j);
  }

  lemma {:induction false} NextInPair(i: nat, y: nat)
    requires i % 2 == 0 && y % 2 == 0 && i < y
    ensures i + 1 < y
  {
  }

  lemma {:induction false} RowBelow(i: nat, x: nat)
    ensures (i + 1) * x == i * x + x
  {
  }

  lemma {:induction false} BlockSample(bmp: seq<int>, x: nat, f: Conversion, e: Exact, at: int, p: int, k: int, q: int)
    requires Bytes(bmp) && Rounds(f, e) && Averaged(Plane(bmp, x, f), x, at, p)
    requires Converted(bmp, x, f, p, k) && Converted(bmp, x, f, p + 1, k + 3)
    requires Converted(bmp, x, f, p + x, q) && Converted(bmp, x, f, p + x + 1, q + 3)
    ensures 0 <= at < |Sub(Plane(bmp, x, f), x)| && ChromaSample(Sub(Plane(bmp, x, f), x)[at], bmp, k, q, e)
  {
    RoundsAt(bmp, k, f, e);
    RoundsAt(bmp, k + 3, f, e);
    RoundsAt(bmp, q, f, e);
    RoundsAt(bmp, q + 3, f, e);
  }

  /** The output in terms of the bitmap: first the luma of every pixel, */
  lemma {:induction false} OutputLuma(bmp: seq<int>, x: nat, y: nat, behind: seq<int>, out: seq<int>, i: nat, j: nat, at: int, k: int)
    requires Bytes(bmp) && |bmp| == y * (x * 3) && i < y && j < x && out == Plane(bmp, x, Luma) + behind
    requires at == i * x + j && k == (y - 1 - i) * (x * 3) + 3 * j
    ensures 0 <= at < |out| && LumaSample(out[at], bmp, k)
  {
    LumaSamples(bmp, x, y, i, j);
  }

  /** behind it the Cb, and behind that the Cr of every block. */
  lemma {:induction false} OutputChroma(bmp: seq<int>, x: nat, y: nat, luma: seq<int>, behind: seq<int>, out: seq<int>,
                                        i: nat, j: nat, at: int, k: int, q: int)
    requires Bytes(bmp) && x % 2 == 0 && y % 2 == 0 && |bmp| == y * (x * 3)
    requires out == luma + Sub(Plane(bmp, x, Cb), x) + Sub(Plane(bmp, x, Cr), x) + behind
    requires |Sub(Plane(bmp, x, Cb), x)| == |Sub(Plane(bmp, x, Cr), x)|
    requires i < y && j < x && i % 2 == 0 && j % 2 == 0 && at == (i / 2) * (x / 2) + j / 2
    requires k == (y - 1 - i) * (x * 3) + 3 * j && q == (y - 2 - i) * (x * 3) + 3 * j
    ensures var quarter := |Sub(Plane(bmp, x, Cb), x)|;
      && 0 <= at && |luma| + at + quarter < |out|
      && ChromaSample(out[|luma| + at], bmp, k, q, ExactCb) && ChromaSample(out[|luma| + at + quarter], bmp, k, q, ExactCr)
  {
    ChromaRounds();
    ChromaSamples(bmp, x, y, Cb, ExactCb, i, j, at, k, q);
    ChromaSamples(bmp, x, y, Cr, ExactCr, i, j, at, k, q);
    InBoth(luma, Sub(Plane(bmp, x, Cb), x), Sub(Plane(bmp, x, Cr), x), behind, out, at);
  }

  lemma {:induction false} InBoth(a: seq<int>, b: seq<int>, c: seq<int>, d: seq<int>, out: seq<int>, at: nat)
    requires out == a + b + c + d && at < |b| == |c|
    ensures |a| + at + |b| < |out| && out[|a| + at] == b[at] && out[|a| + at + |b|] == c[at]
  {
  }

  // ---------- the conversion ----------

  /** The contents of the three buffers of the first loop. */
  datatype Buffers = Buffers(y: seq<int>, u: seq<int>, v: seq<int>)
  {
    ghost predicate Hold(n: nat) { n <= |y| && n <= |u| && n <= |v| }

    ghost predicate SameSizes(b: Buffers) { |y| == |b.y| && |u| == |b.u| && |v| == |b.v| }

    ghost function Write(i: nat, y': int, u': int, v': int): Buffers
      requires Hold(i + 1)
    {
      Buffers(y[i := y'], u[i := u'], v[i := v'])
    }
  }

  ghost function Contents(yuv: array<int>, uu: array<int>, vv: array<int>): Buffers
    reads yuv, uu, vv
  {
    Buffers(yuv[..], uu[..], vv[..])
  }

  /** Buffers whose first i samples are written. */
  ghost function Mixed(total: Buffers, was: Buffers, i: nat): (b: Buffers)
    requires total.Hold(i) && was.Hold(i)
    ensures b.SameSizes(was)
  {
    if i == 0 then was
    else Mixed(total, was, i - 1).Write(i - 1, total.y[i - 1], total.u[i - 1], total.v[i - 1])
  }

  lemma {:induction false} MixedParts(total: Buffers, was: Buffers, i: nat)
    requires total.Hold(i) && was.Hold(i)
    ensures Mixed(total, was, i)
         == Buffers(total.y[..i] + was.y[i..], total.u[..i] + was.u[i..], total.v[..i] + was.v[i..])
  {
    if i > 0 {
      MixedParts(total, was, i - 1);
      WriteNext(total.y, was.y, i - 1);
      WriteNext(total.u, was.u, i - 1);
      WriteNext(total.v, was.v, i - 1);
    }
  }

  lemma {:induction false} WriteNext(total: seq<int>, was: seq<int>, i: nat)
    requires i < |total| && i < |was|
    ensures (total[..i] + was[i..])[i := total[i]] == total[..i + 1] + was[i + 1..]
  {
  }

  /** What the first loop writes, and over what. */
  datatype Writing = Writing(total: Buffers, was: Buffers)
  {
    ghost predicate Room(n: nat) { total.Hold(n) && was.Hold(n) }

    ghost function After(i: nat): Buffers
      requires Room(i)
    {
      Mixed(total, was, i)
    }
  }

  /** Conversions into the three components. */
  datatype Conversions = Conversions(y: Conversion, u: Conversion, v: Conversion)

  /** The samples from at on are converted from the pixels from line on. */
  ghost predicate RowMatches(total: seq<int>, at: nat, b: seq<int>, line: nat, x: nat, f: Conversion)
  {
    && at + x <= |total| && line + 3 * x <= |b|
    && forall k :: at <= k < at + x ==> total[k] == PixelAt(b, line + 3 * (k - at), f)
  }

  ghost predicate AllMatch(total: Buffers, at: nat, b: seq<int>, line: nat, x: nat, f: Conversions)
  {
    && RowMatches(total.y, at, b, line, x, f.y)
    && RowMatches(total.u, at, b, line, x, f.u)
    && RowMatches(total.v, at, b, line, x, f.v)
  }

  /** One step of the first inner loop: the three samples of a pixel. */
  method ConvertPixel(t: Tables, bmp: seq<int>, k: nat, yuv: array<int>, uu: array<int>, vv: array<int>, i: nat,
                      ghost f: Conversions, ghost w: Writing)
    requires t.Compute(f.y, f.u, f.v) && Bytes(bmp) && yuv != uu && yuv != vv && uu != vv
    requires k + 2 < |bmp| && w.Room(i + 1)
    requires w.total.y[i] == PixelAt(bmp, k, f.y)
    requires w.total.u[i] == PixelAt(bmp, k, f.u) && w.total.v[i] == PixelAt(bmp, k, f.v)
    requires Contents(yuv, uu, vv) == w.After(i)
    modifies yuv, uu, vv
    ensures Contents(yuv, uu, vv) == w.After(i + 1)
  {
    ghost var before := Contents(yuv, uu, vv);
    assert before.SameSizes(w.was);
    var c, cb, cr := t.Components(bmp[k], bmp[k + 1], bmp[k + 2], f.y, f.u, f.v);
    yuv[i] := c;
    uu[i] := cb;
    vv[i] := cr;
    assert Contents(yuv, uu, vv) == before.Write(i, c, cb, cr);
  }

  /** One row of the first loop. */
  method ConvertRow(t: Tables, bmp: seq<int>, line: nat, x: nat, yuv: array<int>, uu: array<int>, vv: array<int>,
                    at: nat, ghost f: Conversions, ghost w: Writing)
    requires t.Compute(f.y, f.u, f.v) && Bytes(bmp) && yuv != uu && yuv != vv && uu != vv
    requires AllMatch(w.total, at, bmp, line, x, f) && w.was.Hold(at + x)
    requires Contents(yuv, uu, vv) == w.After(at)
    modifies yuv, uu, vv
    ensures Contents(yuv, uu, vv) == w.After(at + x)
  {
    var j := 0;
    while j < x
      invariant 0 <= j <= x
      invariant Contents(yuv, uu, vv) == w.After(at + j)
    {
      ConvertPixel(t, bmp, line + 3 * j, yuv, uu, vv, at + j, f, w);
      j := j + 1;
    }
  }

  lemma {:induction false} RowMatchesPlane(b: seq<int>, x: nat, pitch: nat, y: nat, f: Conversion, i: nat, line: nat)
    requires |b| == Cells(y, pitch) && pitch == 3 * x && i < y && line == Cells(y - 1 - i, pitch)
    ensures RowMatches(Plane(b, x, f), Cells(i, x), b, line, x, f)
  {
    var total, at := Plane(b, x, f), Cells(i, x);
    RowInside(b, x, pitch, y, f, i, line);
    var low, high := SplitBehind(b, pitch, y - 1 - i, i);
    forall k | at <= k < at + x ensures total[k] == PixelAt(b, line + 3 * (k - at), f) {
      FlippedAt(b, low, high, x, pitch, line, f, i, k - at, k, line + 3 * (k - at));
    }
  }

  lemma {:induction false} RowInside(b: seq<int>, x: nat, pitch: nat, y: nat, f: Conversion, i: nat, line: nat)
    requires |b| == Cells(y, pitch) && pitch == 3 * x && i < y && line == Cells(y - 1 - i, pitch)
    ensures Cells(i, x) + x <= |Plane(b, x, f)| == Cells(y, x) && line + 3 * x <= |b|
  {
    PlaneLength(b, x, pitch, y, f);
    RoomFor(i, y, x);
    RoomFor(y - 1 - i, y, pitch);
  }

  lemma {:induction false} RoomFor(i: nat, y: nat, w: nat)
    requires i < y
    ensures Cells(i, w) + w <= Cells(y, w)
  {
    CellsMonotone(i + 1, y, w);
  }

  ghost function Planes(b: seq<int>, x: nat, f: Conversions): Buffers
  {
    Buffers(Plane(b, x, f.y), Plane(b, x, f.u), Plane(b, x, f.v))
  }

  /** Row i of the planes is converted from its row of the bitmap. */
  ghost predicate LineMatches(total: Buffers, b: seq<int>, x: nat, y: nat, f: Conversions, i: nat)
  {
    i < y ==> AllMatch(total, Cells(i, x), b, Cells(y - 1 - i, 3 * x), x, f)
  }

  ghost predicate LinesMatch(total: Buffers, b: seq<int>, x: nat, y: nat, f: Conversions)
  {
    forall i: nat :: LineMatches(total, b, x, y, f, i)
  }

  lemma {:induction false} PlanesMatch(b: seq<int>, x: nat, y: nat, f: Conversions)
    requires |b| == Cells(y, 3 * x)
    ensures LinesMatch(Planes(b, x, f), b, x, y, f)
  {
    forall i: nat ensures LineMatches(Planes(b, x, f), b, x, y, f, i) {
      if i < y {
        RowMatchesPlane(b, x, 3 * x, y, f.y, i, Cells(y - 1 - i, 3 * x));
        RowMatchesPlane(b, x, 3 * x, y, f.u, i, Cells(y - 1 - i, 3 * x));
        RowMatchesPlane(b, x, 3 * x, y, f.v, i, Cells(y - 1 - i, 3 * x));
      }
    }
  }

  /** Row i of the planes. */
  method ConvertLine(t: Tables, x: nat, ghost y: nat, bmp: seq<int>, yuv: array<int>, uu: array<int>, vv: array<int>,
                     ghost i: nat, line: nat, at: nat, ghost f: Conversions, ghost w: Writing)
    requires t.Compute(f.y, f.u, f.v) && Bytes(bmp) && yuv != uu && yuv != vv && uu != vv
    requires LinesMatch(w.total, bmp, x, y, f) && i < y && line == Cells(y - 1 - i, 3 * x) && at == Cells(i, x)
    requires w.total.Hold(at) && w.was.Hold(at + x) && Contents(yuv, uu, vv) == w.After(at)
    modifies yuv, uu, vv
    ensures w.total.Hold(at + x) && Contents(yuv, uu, vv) == w.After(at + x)
  {
    assert LineMatches(w.total, bmp, x, y, f, i);
    ConvertRow(t, bmp, line, x, yuv, uu, vv, at, f, w);
  }

  /** Where the last row of the bitmap starts. */
  method LastLine(y: nat, pitch: nat) returns (line: int)
    ensures line == Cells(y, pitch) - pitch
  {
    CellsAre(y, pitch);
    line := pitch * (y - 1);
  }

  /** The first loop: the luma plane in yuv, the full chroma planes in the temporary buffers. */
  method ConvertRows(t: Tables, x: nat, y: nat, bmp: seq<int>, yuv: array<int>, uu: array<int>, vv: array<int>,
                     ghost f: Conversions, ghost w: Writing)
    requires t.Compute(f.y, f.u, f.v) && Bytes(bmp) && yuv != uu && yuv != vv && uu != vv
    requires LinesMatch(w.total, bmp, x, y, f) && w.Room(Cells(y, x)) && Contents(yuv, uu, vv) == w.was
    modifies yuv, uu, vv
    ensures Contents(yuv, uu, vv) == w.After(Cells(y, x))
  {
    var pitch := x * 3;
    var line := LastLine(y, pitch);
    var at := 0;
    ghost var left: nat := y;
    for i := 0 to y
      invariant left == y - i && line == Cells(left, pitch) - pitch && at == Cells(i, x) <= Cells(y, x)
      invariant Contents(yuv, uu, vv) == w.After(at)
    {
      left := left - 1;
      CellsMonotone(i + 1, y, x);
      ConvertLine(t, x, y, bmp, yuv, uu, vv, i, line, at, f, w);
      line := line - pitch;
      at := at + x;
    }
  }

  lemma {:induction false} CellsMonotone(a: nat, b: nat, w: nat)
    requires a <= b
    ensures Cells(a, w) <= Cells(b, w)
  {
    CellsSum(a, b - a, w);
  }

  /** The buffer of which both chroma planes, of equal size from n on, have m samples written. */
  ghost function Filled(was: seq<int>, n: nat, u: seq<int>, v: seq<int>, m: nat): (s: seq<int>)
    requires m <= |u| == |v| && n + 2 * |u| <= |was|
    ensures |s| == |was|
  {
    if m == 0 then was
    else Filled(was, n, u, v, m - 1)[n + m - 1 := u[m - 1]][n + |u| + m - 1 := v[m - 1]]
  }

  lemma {:induction false} FilledParts(was: seq<int>, n: nat, u: seq<int>, v: seq<int>, m: nat)
    requires m <= |u| == |v| && n + 2 * |u| <= |was|
    ensures Filled(was, n, u, v, m)
         == was[..n] + u[..m] + was[n + m..n + |u|] + v[..m] + was[n + |u| + m..]
  {
    if m > 0 { FilledParts(was, n, u, v, m - 1); }
  }

  /** What the second loop writes, and over what: two planes of equal size behind lo. */
  datatype Reduction = Reduction(was: seq<int>, lo: nat, u: seq<int>, v: seq<int>)
  {
    ghost predicate Fits() { |u| == |v| && lo + 2 * |u| <= |was| }

    ghost function After(m: nat): seq<int>
      requires Fits() && m <= |u|
    {
      Filled(was, lo, u, v, m)
    }

    /** Where sample m of both planes goes. */
    ghost predicate Places(m: nat, i: nat, k: nat) { i == lo + m && k == lo + |u| + m }
  }

  /** The samples from m on are averages of the blocks from p on. */
  ghost predicate BlocksMatch(small: seq<int>, m: nat, n: nat, plane: seq<int>, p: nat, x: nat)
  {
    && m + n <= |small| && p + x + 2 * n <= |plane|
    && forall k :: m <= k < m + n ==> small[k] == BlockAverage(plane, p + 2 * (k - m), x)
  }

  /** One step of the reduction: the four samples at p and behind it, for both planes. */
  method ReduceBlock(uu: seq<int>, vv: seq<int>, p: nat, x: nat, yuv: array<int>, u: nat, v: nat,
                     ghost to: Reduction, ghost m: nat)
    requires to.Fits() && m < |to.u| && to.Places(m, u, v)
    requires p + x + 1 < |uu| && p + x + 1 < |vv|
    requires to.u[m] == BlockAverage(uu, p, x) && to.v[m] == BlockAverage(vv, p, x)
    requires yuv[..] == to.After(m)
    modifies yuv
    ensures yuv[..] == to.After(m + 1)
  {
    ghost var before: seq<int> := yuv[..];
    yuv[u] := Average(uu[p], uu[p + 1], uu[p + x], uu[p + x + 1]);
    yuv[v] := Average(vv[p], vv[p + 1], vv[p + x], vv[p + x + 1]);
    assert yuv[..] == before[u := to.u[m]][v := to.v[m]];
  }

  /** The inner loop of the reduction. */
  method ReduceRow(uu: seq<int>, vv: seq<int>, p: nat, x: nat, yuv: array<int>, u: nat, v: nat,
                   ghost to: Reduction, ghost m: nat, ghost n: nat)
      returns (u': nat, v': nat)
    requires x == 2 * n && to.Fits() && to.Places(m, u, v)
    requires BlocksMatch(to.u, m, n, uu, p, x) && BlocksMatch(to.v, m, n, vv, p, x)
    requires yuv[..] == to.After(m)
    modifies yuv
    ensures to.Places(m + n, u', v') && yuv[..] == to.After(m + n)
  {
    ghost var k := 0;
    u', v' := u, v;
    var j := 0;
    while j < x
      invariant j == 2 * k && 0 <= k <= n && to.Places(m + k, u', v')
      invariant yuv[..] == to.After(m + k)
    {
      assert to.u[m + k] == BlockAverage(uu, p + j, x) && to.v[m + k] == BlockAverage(vv, p + j, x);
      ReduceBlock(uu, vv, p + j, x, yuv, u', v', to, m + k);
      u', v' := u' + 1, v' + 1;
      k := k + 1;
      j := j + 2;
    }
  }

  /** Row i of a small plane is averaged from its two rows of the large one. */
  ghost predicate PairMatches(small: seq<int>, plane: seq<int>, n: nat, rows: nat, i: nat)
  {
    i < rows ==> BlocksMatch(small, Cells(i, n), n, plane, Cells(i, 4 * n), 2 * n)
  }

  ghost predicate PairsMatch(small: seq<int>, plane: seq<int>, n: nat, rows: nat)
  {
    forall i: nat :: PairMatches(small, plane, n, rows, i)
  }

  lemma {:induction false} SubMatches(plane: seq<int>, whole: seq<int>, n: nat, rows: nat)
    requires |plane| == Cells(rows, 4 * n) <= |whole| && plane == whole[..|plane|]
    ensures PairsMatch(Sub(plane, 2 * n), whole, n, rows)
  {
    SubLength(plane, rows, n, 4 * n);
    forall i: nat ensures PairMatches(Sub(plane, 2 * n), whole, n, rows, i) {
      if i < rows { SubRowMatches(plane, whole, Sub(plane, 2 * n), n, rows, i, Cells(i, n), Cells(i, 4 * n)); }
    }
  }

  lemma {:induction false} SubRowMatches(plane: seq<int>, whole: seq<int>, small: seq<int>, n: nat, rows: nat,
                                         i: nat, at: nat, p: nat)
    requires |plane| == Cells(rows, 4 * n) <= |whole| && plane == whole[..|plane|]
    requires small == Sub(plane, 2 * n) && |small| == Cells(rows, n)
    requires i < rows && at == Cells(i, n) && p == Cells(i, 4 * n)
    ensures BlocksMatch(small, at, n, whole, p, 2 * n)
  {
    BlocksInside(rows, n, i);
    forall k | at <= k < at + n ensures small[k] == BlockAverage(whole, p + 2 * (k - at), 2 * n) {
      var q := p + 2 * (k - at);
      SubAt(plane, rows, n, 4 * n, i, k - at, k, q);
      assert BlockAverage(plane, q, 2 * n) == BlockAverage(whole, q, 2 * n);
    }
  }

  lemma {:induction false} BlocksInside(rows: nat, n: nat, i: nat)
    requires i < rows
    ensures Cells(i, n) + n <= Cells(rows, n) && Cells(i, 4 * n) + 4 * n <= Cells(rows, 4 * n)
  {
    CellsMonotone(i + 1, rows, n);
    CellsMonotone(i + 1, rows, 4 * n);
  }

  /** The sizes of a picture: halved, of its luma plane, and of a reduced plane. */
  datatype Sizes = Sizes(x: nat, y: nat, n: nat, rows: nat, size: nat, quarter: nat)
  {
    ghost predicate Right()
    {
      && x == 2 * n && y == 2 * rows
      && size == Cells(y, x) == Cells(rows, 4 * n) && quarter == Cells(rows, n)
    }
  }

  /** Rows 2a and 2a + 1, to row a. */
  method ReducePair(uu: seq<int>, vv: seq<int>, p: nat, d: Sizes, yuv: array<int>, u: nat, v: nat,
                    ghost to: Reduction, ghost a: nat)
      returns (u': nat, v': nat)
    requires d.Right() && to.Fits() && a < d.rows && p == Cells(a, 4 * d.n)
    requires PairsMatch(to.u, uu, d.n, d.rows) && PairsMatch(to.v, vv, d.n, d.rows)
    requires Cells(a, d.n) <= |to.u| && to.Places(Cells(a, d.n), u, v) && yuv[..] == to.After(Cells(a, d.n))
    modifies yuv
    ensures Cells(a + 1, d.n) <= |to.u| && to.Places(Cells(a + 1, d.n), u', v') && yuv[..] == to.After(Cells(a + 1, d.n))
  {
    assert PairMatches(to.u, uu, d.n, d.rows, a) && PairMatches(to.v, vv, d.n, d.rows, a);
    u', v' := ReduceRow(uu, vv, p, d.x, yuv, u, v, to, Cells(a, d.n), d.n);
  }

  /** The loops of the reduction: both chroma planes, one behind the other. */
  method ReducePlanes(uu: seq<int>, vv: seq<int>, d: Sizes, yuv: array<int>, ghost to: Reduction)
    requires d.Right() && to.Fits() && to.lo == d.size && |to.u| == d.quarter && to.was == yuv[..]
    requires PairsMatch(to.u, uu, d.n, d.rows) && PairsMatch(to.v, vv, d.n, d.rows)
    modifies yuv
    ensures yuv[..] == to.After(d.quarter)
  {
    ghost var a: nat := 0;
    var u: nat, v: nat, p: nat := d.size, d.size + d.quarter, 0;
    var i := 0;
    while i < d.y
      invariant i == 2 * a && a <= d.rows && p == Cells(a, 4 * d.n)
      invariant Cells(a, d.n) <= |to.u| && to.Places(Cells(a, d.n), u, v)
      invariant yuv[..] == to.After(Cells(a, d.n))
    {
      u, v := ReducePair(uu, vv, p, d, yuv, u, v, to, a);
      p := p + d.x + d.x;
      a := a + 1;
      i := i + 2;
    }
  }

  lemma {:induction false} FilledEnds(was: seq<int>, n: nat, u: seq<int>, v: seq<int>)
    requires |u| == |v| && n + 2 * |u| <= |was|
    ensures Filled(was, n, u, v, |u|) == was[..n] + u + v + was[n + 2 * |u|..]
  {
    FilledParts(was, n, u, v, |u|);
  }

  lemma {:induction false} Quarter(x: nat, y: nat, n: nat, rows: nat)
    requires x == 2 * n && y == 2 * rows
    ensures Cells(y, x) == x * y == Cells(rows, 4 * n) && Cells(rows, n) == x * y / 4 && Cells(y, 3 * x) == y * (x * 3)
  {
    CellsAre(y, x);
    CellsAre(rows, 4 * n);
    CellsAre(rows, n);
    CellsAre(y, 3 * x);
    Doubled(rows, n, y, x);
  }

  lemma {:induction false} Prefixed(plane: seq<int>, rest: seq<int>, n: nat)
    requires |plane| == n
    ensures plane == (plane + rest)[..n] && (plane + rest)[n..] == rest
  {
  }

  /** RGB2YUV420: the three planes in the buffer, and nothing behind them written. */
  method RGB2YUV420(t: Tables, x: nat, y: nat, bmp: seq<int>, yuv: array<int>, tmp1: array<int>, tmp2: array<int>)
    requires t.Compute(Luma, Cb, Cr) && Bytes(bmp) && x % 2 == 0 && y % 2 == 0
    requires yuv != tmp1 && yuv != tmp2 && tmp1 != tmp2
    requires |bmp| == y * (x * 3) && x * y <= tmp1.Length && x * y <= tmp2.Length
    requires x * y + 2 * (x * y / 4) <= yuv.Length
    modifies yuv, tmp1, tmp2
    ensures |Plane(bmp, x, Luma)| == x * y
    ensures |Sub(Plane(bmp, x, Cb), x)| == |Sub(Plane(bmp, x, Cr), x)| == x * y / 4
    ensures yuv[..] == Plane(bmp, x, Luma) + Sub(Plane(bmp, x, Cb), x) + Sub(Plane(bmp, x, Cr), x)
                     + old(yuv[x * y + 2 * (x * y / 4)..])
  {
    Quarter(x, y, x / 2, y / 2);
    Planar(t, Sizes(x, y, x / 2, y / 2, x * y, x * y / 4), bmp, yuv, tmp1, tmp2, Conversions(Luma, Cb, Cr));
  }

  /** The first half, for conversions the tables compute. */
  method ConvertAll(t: Tables, x: nat, y: nat, bmp: seq<int>, yuv: array<int>, uu: array<int>, vv: array<int>,
                    ghost f: Conversions, ghost size: nat)
    requires t.Compute(f.y, f.u, f.v) && Bytes(bmp) && |bmp| == Cells(y, 3 * x) && size == Cells(y, x)
    requires yuv != uu && yuv != vv && uu != vv && Contents(yuv, uu, vv).Hold(size)
    modifies yuv, uu, vv
    ensures |Plane(bmp, x, f.y)| == |Plane(bmp, x, f.u)| == |Plane(bmp, x, f.v)| == size
    ensures Contents(yuv, uu, vv) == Behind(Planes(bmp, x, f), old(Contents(yuv, uu, vv)), size)
  {
    PlaneLength(bmp, x, 3 * x, y, f.y);
    PlaneLength(bmp, x, 3 * x, y, f.u);
    PlaneLength(bmp, x, 3 * x, y, f.v);
    PlanesMatch(bmp, x, y, f);
    ghost var total, was := Planes(bmp, x, f), Contents(yuv, uu, vv);
    MixedEnds(total, was, size);
    ConvertRows(t, x, y, bmp, yuv, uu, vv, f, Writing(total, was));
  }

  /** The planes, with what was behind them. */
  ghost function Behind(total: Buffers, was: Buffers, size: nat): Buffers
    requires was.Hold(size)
  {
    Buffers(total.y + was.y[size..], total.u + was.u[size..], total.v + was.v[size..])
  }

  lemma {:induction false} MixedEnds(total: Buffers, was: Buffers, size: nat)
    requires |total.y| == |total.u| == |total.v| == size && was.Hold(size)
    ensures Mixed(total, was, size) == Behind(total, was, size)
  {
    MixedParts(total, was, size);
    assert total.y[..size] == total.y && total.u[..size] == total.u && total.v[..size] == total.v;
  }

  /** The second half: the reduced planes behind the luma plane. */
  method ReduceAll(d: Sizes, yuv: array<int>, uu: array<int>, vv: array<int>, ghost pu: seq<int>, ghost pv: seq<int>)
    requires d.Right() && yuv != uu && yuv != vv && |pu| == |pv| == d.size
    requires d.size <= uu.Length && d.size <= vv.Length && uu[..d.size] == pu && vv[..d.size] == pv
    requires d.size + 2 * d.quarter <= yuv.Length
    modifies yuv
    ensures |Sub(pu, d.x)| == |Sub(pv, d.x)| == d.quarter
    ensures yuv[..] == old(yuv[..d.size]) + Sub(pu, d.x) + Sub(pv, d.x) + old(yuv[d.size + 2 * d.quarter..])
  {
    SubLength(pu, d.rows, d.n, 4 * d.n);
    SubLength(pv, d.rows, d.n, 4 * d.n);
    SubMatches(pu, uu[..], d.n, d.rows);
    SubMatches(pv, vv[..], d.n, d.rows);
    ghost var was := yuv[..];
    ReducePlanes(uu[..], vv[..], d, yuv, Reduction(was, d.size, Sub(pu, d.x), Sub(pv, d.x)));
    FilledEnds(was, d.size, Sub(pu, d.x), Sub(pv, d.x));
  }

  /** Both halves. */
  method Planar(t: Tables, d: Sizes, bmp: seq<int>, yuv: array<int>, tmp1: array<int>, tmp2: array<int>,
                ghost f: Conversions)
    requires t.Compute(f.y, f.u, f.v) && Bytes(bmp) && d.Right() && |bmp| == Cells(d.y, 3 * d.x)
    requires yuv != tmp1 && yuv != tmp2 && tmp1 != tmp2
    requires d.size <= tmp1.Length && d.size <= tmp2.Length && d.size + 2 * d.quarter <= yuv.Length
    modifies yuv, tmp1, tmp2
    ensures |Plane(bmp, d.x, f.y)| == d.size
    ensures |Sub(Plane(bmp, d.x, f.u), d.x)| == |Sub(Plane(bmp, d.x, f.v), d.x)| == d.quarter
    ensures yuv[..] == Plane(bmp, d.x, f.y) + Sub(Plane(bmp, d.x, f.u), d.x) + Sub(Plane(bmp, d.x, f.v), d.x)
                     + old(yuv[d.size + 2 * d.quarter..])
  {
    ghost var was := yuv[..];
    ghost var wasU, wasV := tmp1[..], tmp2[..];
    ConvertAll(t, d.x, d.y, bmp, yuv, tmp1, tmp2, f, d.size);
    ghost var half := yuv[..];
    Prefixed(Plane(bmp, d.x, f.y), was[d.size..], d.size);
    Prefixed(Plane(bmp, d.x, f.u), wasU[d.size..], d.size);
    Prefixed(Plane(bmp, d.x, f.v), wasV[d.size..], d.size);
    assert half[d.size + 2 * d.quarter..] == half[d.size..][2 * d.quarter..] == was[d.size + 2 * d.quarter..];
    ReduceAll(d, yuv, tmp1, tmp2, Plane(bmp, d.x, f.u), Plane(bmp, d.x, f.v));
  }

  // ---------- ranges of the output ----------

  ghost predicate Within(s: seq<int>, lo: int, hi: int) { forall k :: 0 <= k < |s| ==> lo <= s[k] <= hi }

  ghost predicate Ranges(f: Conversion, lo: int, hi: int)
  {
    forall r, g, b :: IsByte(r) && IsByte(g) && IsByte(b) ==> lo <= f(r, g, b) <= hi
  }

  lemma {:induction false} RowWithin(row: seq<int>, f: Conversion, lo: int, hi: int)
    requires Bytes(row) && Ranges(f, lo, hi)
    ensures Within(RowOf(row, f), lo, hi)
  {
    if |row| >= 3 {
      RowWithin(row[3..], f, lo, hi);
      assert IsByte(row[0]) && IsByte(row[1]) && IsByte(row[2]);
    }
  }

  lemma {:induction false} PlaneWithin(bmp: seq<int>, x: nat, f: Conversion, lo: int, hi: int)
    requires Bytes(bmp) && Ranges(f, lo, hi)
    ensures Within(Plane(bmp, x, f), lo, hi)
    decreases |bmp|
  {
    if x > 0 && |bmp| >= 3 * x {
      RowWithin(bmp[|bmp| - 3 * x..], f, lo, hi);
      PlaneWithin(bmp[..|bmp| - 3 * x], x, f, lo, hi);
    }
  }

  lemma {:induction false} HalvesWithin(a: seq<int>, b: seq<int>, lo: int, hi: int)
    requires |a| == |b| && Within(a, lo, hi) && Within(b, lo, hi)
    ensures Within(Halves(a, b), lo, hi)
  {
    if |a| >= 2 { HalvesWithin(a[2..], b[2..], lo, hi); }
  }

  lemma {:induction false} SubWithin(plane: seq<int>, x: nat, lo: int, hi: int)
    requires Within(plane, lo, hi)
    ensures Within(Sub(plane, x), lo, hi)
    decreases |plane|
  {
    if x > 0 && |plane| >= 2 * x {
      HalvesWithin(plane[..x], plane[x..2 * x], lo, hi);
      SubWithin(plane[2 * x..], x, lo, hi);
    }
  }

  /** Every byte of the output lies in the range of its component. */
  lemma {:induction false} OutputRanges(bmp: seq<int>, x: nat)
    requires Bytes(bmp)
    ensures Within(Plane(bmp, x, Luma), 16, 234)
    ensures Within(Sub(Plane(bmp, x, Cb), x), 16, 239) && Within(Sub(Plane(bmp, x, Cr), x), 16, 239)
  {
    ComponentRanges();
    PlaneWithin(bmp, x, Luma, 16, 234);
    PlaneWithin(bmp, x, Cb, 16, 239);
    PlaneWithin(bmp, x, Cr, 16, 239);
    SubWithin(Plane(bmp, x, Cb), x, 16, 239);
    SubWithin(Plane(bmp, x, Cr), x, 16, 239);
  }

  lemma {:induction false} ComponentRanges()
    ensures Ranges(Luma, 16, 234) && Ranges(Cb, 16, 239) && Ranges(Cr, 16, 239)
  {
    forall r, g, b | IsByte(r) && IsByte(g) && IsByte(b) ensures 16 <= Luma(r, g, b) <= 234 { LumaRange(r, g, b); }
    forall r, g, b | IsByte(r) && IsByte(g) && IsByte(b) ensures 16 <= Cb(r, g, b) <= 239 { CbRange(r, g, b); }
    forall r, g, b | IsByte(r) && IsByte(g) && IsByte(b) ensures 16 <= Cr(r, g, b) <= 239 { CrRange(r, g, b); }
  }
}
