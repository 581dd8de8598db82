/**
The fading of the frame: the in-place four-neighbour decay, the strips the workers fade, and what
a round does to the frame when the workers' pixel writes interleave in any order.
*/
module StarfieldFade {
  import opened Arithmetic

  /** The value the decay stores for a pixel with these four neighbours. */
  function Decay(left: Byte, right: Byte, above: Byte, below: Byte): (v: Byte)
  {
    var av := (left + right + above + below) / 4;
    if av > 0 then av - 1 else 0
  }

  // ---------- the pixels one call fades ----------

  /** Index k lies inside the width x height picture that starts at base, off its border. */
  predicate Inner(k: int, base: nat, width: nat, height: nat)
  {
    width > 0 && k >= base && 1 <= (k - base) / width < height - 1 && 1 <= (k - base) % width < width - 1
  }

  lemma {:induction false} InnerBounds(k: int, base: nat, width: nat, height: nat)
    requires Inner(k, base, width, height)
    ensures base + width < k < k + width < base + width * height
  {
    var n := k - base;
    assert n == width * (n / width) + n % width;
    assert width * (n / width) >= width * 1;
    assert width * (n / width) <= width * (height - 2);
  }

  ghost predicate PixelDone(was: seq<Byte>, now: seq<Byte>, k: nat, base: nat, width: nat, height: nat)
    requires |was| == |now| && k < |was| && base + width * height <= |was|
  {
    if Inner(k, base, width, height) then
      InnerBounds(k, base, width, height);
      now[k] == Decay(now[k - 1], was[k + 1], now[k - width], was[k + width])
    else
      now[k] == was[k]
  }

  /** `now` is `was` faded: every inner pixel is the decay of its already faded left and upper
      neighbours and its not yet faded right and lower ones, and nothing else has changed. */
  ghost predicate Faded(was: seq<Byte>, now: seq<Byte>, base: nat, width: nat, height: nat)
  {
    && |was| == |now|
    && base + width * height <= |was|
    && forall k: nat :: k < |was| ==> PixelDone(was, now, k, base, width, height)
  }

  /** The description determines the faded frame. */
  lemma {:induction false} FadedUpTo(was: seq<Byte>, a: seq<Byte>, b: seq<Byte>, base: nat, width: nat, height: nat, k: nat)
    requires Faded(was, a, base, width, height) && Faded(was, b, base, width, height) && k < |was|
    ensures a[k] == b[k]
    decreases k
  {
    assert PixelDone(was, a, k, base, width, height) && PixelDone(was, b, k, base, width, height);
    if Inner(k, base, width, height) {
      InnerBounds(k, base, width, height);
      FadedUpTo(was, a, b, base, width, height, k - 1);
      FadedUpTo(was, a, b, base, width, height, k - width);
    }
  }

  lemma {:induction false} FadedUnique(was: seq<Byte>, a: seq<Byte>, b: seq<Byte>, base: nat, width: nat, height: nat)
    requires Faded(was, a, base, width, height) && Faded(was, b, base, width, height)
    ensures a == b
  {
    forall k: nat | k < |was| ensures a[k] == b[k] { FadedUpTo(was, a, b, base, width, height, k); }
  }

  /** Every inner pixel, left and above already faded, right and below not yet: a quarter of the sum of the
      four, rounded down, less one step, and 0 below that. */
  lemma {:induction false} FadedIsQuarter(was: seq<Byte>, now: seq<Byte>, base: nat, width: nat, height: nat, k: nat)
    requires Faded(was, now, base, width, height) && k < |was| && Inner(k, base, width, height)
    ensures width <= k < |was| - width
    ensures var sum := now[k - 1] as int + was[k + 1] as int + now[k - width] as int + was[k + width] as int;
            var v := now[k] as int;
            if sum < 8 then v == 0 else 4 * v + 4 <= sum < 4 * v + 8
  {
    assert PixelDone(was, now, k, base, width, height);
    InnerBounds(k, base, width, height);
  }

  /** And nothing else is written. */
  lemma {:induction false} FadedKeepsRest(was: seq<Byte>, now: seq<Byte>, base: nat, width: nat, height: nat, k: nat)
    requires Faded(was, now, base, width, height) && k < |was|
    requires width > 0 && (k < base + width || k >= base + (height - 1) * width
                           || (k - base) % width == 0 || (k - base) % width == width - 1)
    ensures now[k] == was[k]
  {
    assert PixelDone(was, now, k, base, width, height);
    if Inner(k, base, width, height) {
      InnerBefore(k, base, width, height);
      InnerBounds(k, base, width, height);
    }
  }

  /** `now` is `was` faded below index `end` and untouched from there on. */
  ghost predicate FadedTill(was: seq<Byte>, now: seq<Byte>, end: nat, base: nat, width: nat, height: nat)
  {
    && |was| == |now|
    && base + width * height <= |was|
    && (forall k: nat :: k < |was| && k < end ==> PixelDone(was, now, k, base, width, height))
    && (forall k: nat :: end <= k < |was| ==> now[k] == was[k])
  }

  lemma {:induction false} FadePixel(was: seq<Byte>, now: seq<Byte>, next: seq<Byte>, end: nat,
                                     base: nat, width: nat, height: nat)
    requires FadedTill(was, now, end, base, width, height) && Inner(end, base, width, height)
    requires 0 <= end - width && end + width < |now|
    requires next == now[end := Decay(now[end - 1], now[end + 1], now[end - width], now[end + width])]
    ensures FadedTill(was, next, end + 1, base, width, height)
  {
    InnerBounds(end, base, width, height);
    forall k: nat | k < |was| && k < end + 1 ensures PixelDone(was, next, k, base, width, height) {
      if k < end {
        assert PixelDone(was, now, k, base, width, height);
        if Inner(k, base, width, height) { InnerBounds(k, base, width, height); }
      }
    }
  }

  /** The inner loop of fade: row y, from its first pixel at base + start to its last. */
  method FadeRow(p: array<Byte>, base: nat, width: nat, height: nat, y: nat, start: nat,
                 ghost was: seq<Byte>) returns (offset: nat)
    requires 1 <= y < height - 1 && (width >= 2 ==> start == y * width)
    requires FadedTill(was, p[..], base + start, base, width, height)
    modifies p
    ensures width >= 2 ==> offset == start + width
    ensures FadedTill(was, p[..], base + offset, base, width, height)
  {
    if width >= 2 { DivModOf(y, 0, width); }
    offset := start + 1;
    var x := 1;
    while x < width - 1
      invariant x >= 1 && (width >= 2 ==> x <= width - 1)
      invariant width >= 2 ==> offset == start + x
      invariant width < 2 ==> offset == start + 1
      invariant FadedTill(was, p[..], base + offset, base, width, height)
    {
      var at := base + offset;
      assert Inner(at, base, width, height) by { DivModOf(y, x, width); }
      InnerBounds(at, base, width, height);
      var av: int := p[at - 1] as int + p[at + 1] as int + p[at - width] as int + p[at + width] as int;
      av := av / 4;
      if av > 0 {
        av := av - 1;
      }
      ghost var before := p[..];
      p[at] := av;
      FadePixel(was, before, p[..], at, base, width, height);
      offset := offset + 1;
      x := x + 1;
    }
    if width >= 2 { DivModOf(y, width - 1, width); }
    offset := offset + 1;
  }

  /** fade: raster order, in place, one pass over the picture that starts at p + base. */
  method Fade(p: array<Byte>, base: nat, width: nat, height: nat)
    requires base + width * height <= p.Length
    modifies p
    ensures Faded(old(p[..]), p[..], base, width, height)
  {
    ghost var was := p[..];
    var offset := width;
    FirstRowIsBorder(base, width, height);
    var y := 1;
    while y < height - 1
      invariant y >= 1 && (height >= 2 ==> y <= height - 1)
      invariant width >= 2 ==> offset == y * width
      invariant FadedTill(was, p[..], base + offset, base, width, height)
    {
      offset := FadeRow(p, base, width, height, y, offset, was);
      y := y + 1;
    }
    forall k: nat | k < p.Length ensures PixelDone(was, p[..], k, base, width, height) {
      if Inner(k, base, width, height) { InnerBefore(k, base, width, height); }
    }
  }

  lemma {:induction false} FirstRowIsBorder(base: nat, width: nat, height: nat)
    ensures forall k: nat :: k < base + width ==> !Inner(k, base, width, height)
  {
    forall k: nat | k < base + width ensures !Inner(k, base, width, height) {
      if Inner(k, base, width, height) { InnerBounds(k, base, width, height); }
    }
  }

  lemma {:induction false} InnerBefore(k: int, base: nat, width: nat, height: nat)
    requires Inner(k, base, width, height)
    ensures width >= 2 && height >= 3 && k < base + (height - 1) * width
  {
    var n := k - base;
    assert n == width * (n / width) + n % width;
    assert width * (n / width) <= width * (height - 2);
  }

  // ---------- the strips of the workers ----------

  /** Rows of the frame that worker id of n gets: fbp + id*xres*(yres/n - 1), and the height. */
  function StripBase(id: nat, n: nat, xres: nat, yres: nat): nat
    requires n > 0 && yres >= n
  {
    id * xres * (yres / n - 1)
  }

  function StripHeight(id: nat, n: nat, yres: nat): nat
    requires n > 0
  {
    yres / n + (if id == n - 1 then n / 2 else 1)
  }

  /** The height of the single picture that the strips together amount to. */
  function WholeHeight(n: nat, yres: nat): nat
    requires n > 0 && yres >= n
  {
    n * (yres / n - 1) + n / 2 + 1
  }

  /** Rows lo..hi-1 of the frame, without the first and the last column. */
  predicate InRows(k: nat, width: nat, lo: int, hi: int)
  {
    width > 0 && lo <= k / width < hi && 1 <= k % width < width - 1
  }

  lemma {:induction false} InnerIsRows(k: nat, row: nat, width: nat, height: nat)
    ensures Inner(k, row * width, width, height) <==> InRows(k, width, row + 1, row + height - 1)
  {
    if width > 0 {
      var y, x := k / width, k % width;
      assert k == y * width + x;
      if y >= row {
        assert k - row * width == (y - row) * width + x;
        DivModOf(y - row, x, width);
        assert k >= row * width;
      } else {
        MultiplesApart(y - row, width);
      }
    }
  }

  lemma {:induction false} StripIsRows(k: nat, id: nat, n: nat, xres: nat, yres: nat)
    requires id < n <= yres
    ensures Inner(k, StripBase(id, n, xres, yres), xres, StripHeight(id, n, yres)) <==>
            InRows(k, xres, id * (yres / n - 1) + 1, id * (yres / n - 1) + StripHeight(id, n, yres) - 1)
  {
    InnerIsRows(k, id * (yres / n - 1), xres, StripHeight(id, n, yres));
    assert id * (yres / n - 1) * xres == id * xres * (yres / n - 1);
  }

  /** The rows of one strip, in terms of g = yres/n - 1. */
  lemma {:induction false} StripRows(id: nat, n: nat, yres: nat)
    requires id < n <= yres
    ensures var g := yres / n - 1;
            && g >= 0 && id * g >= 0 && (id + 1) * g == id * g + g
            && id * g + StripHeight(id, n, yres) - 1 == (if id == n - 1 then n * g + n / 2 else (id + 1) * g + 1)
            && (id + 1) * g <= n * g
            && n * g + n / 2 + 1 <= yres
  {
    var g := yres / n - 1;
    assert n * (g + 1) <= yres;
    assert n * (g + 1) == n * g + n;
    assert (id + 1) * g == id * g + g;
    TimesMonotone(id + 1, n, g);
  }

  lemma {:induction false} RowsFit(top: nat, height: nat, xres: nat, yres: nat)
    requires top + height <= yres
    ensures top * xres + xres * height <= xres * yres
  {
    TimesMonotone(top + height, yres, xres);
    assert (top + height) * xres == top * xres + xres * height;
  }

  lemma {:induction false} BaseIsRows(id: nat, g: nat, xres: nat)
    ensures id * xres * g == id * g * xres
  {
  }

  lemma {:induction false} WholeFits(n: nat, xres: nat, yres: nat)
    requires 0 < n <= yres
    ensures xres * WholeHeight(n, yres) <= xres * yres
  {
    StripRows(0, n, yres);
    RowsFit(0, WholeHeight(n, yres), xres, yres);
  }

  /** Every strip lies inside the frame, and so does the whole picture. */
  lemma {:induction false} StripFits(id: nat, n: nat, xres: nat, yres: nat)
    requires id < n <= yres
    ensures StripBase(id, n, xres, yres) == id * (yres / n - 1) * xres
    ensures StripBase(id, n, xres, yres) + xres * StripHeight(id, n, yres) <= xres * yres
    ensures xres * WholeHeight(n, yres) <= xres * yres
  {
    WholeFits(n, xres, yres);
    StripRows(id, n, yres);
    var g := yres / n - 1;
    BaseIsRows(id, g, xres);
    RowsFit(id * g, StripHeight(id, n, yres), xres, yres);
  }

  /** No two workers write the same pixel. */
  lemma {:induction false} StripsDisjoint(k: nat, a: nat, b: nat, n: nat, xres: nat, yres: nat)
    requires a < b < n <= yres
    ensures !(Inner(k, StripBase(a, n, xres, yres), xres, StripHeight(a, n, yres))
              && Inner(k, StripBase(b, n, xres, yres), xres, StripHeight(b, n, yres)))
  {
    StripIsRows(k, a, n, xres, yres);
    StripIsRows(k, b, n, xres, yres);
    StripRows(a, n, yres);
    TimesMonotone(a + 1, b, yres / n - 1);
  }

  /** The strip that holds row y. */
  lemma {:induction false} StripOfRow(y: nat, n: nat, yres: nat) returns (id: nat)
    requires 0 < n <= yres && 1 <= y < n * (yres / n - 1) + n / 2
    ensures id < n && id * (yres / n - 1) + 1 <= y < id * (yres / n - 1) + StripHeight(id, n, yres) - 1
  {
    id := 0;
    var g := yres / n - 1;
    while id < n - 1 && (id + 1) * g + 1 <= y
      invariant id < n && id * g + 1 <= y
    {
      id := id + 1;
    }
    StripRows(id, n, yres);
  }

  /** Together the workers write exactly the inner pixels of one picture of WholeHeight rows. */
  lemma {:induction false} StripsTile(k: nat, n: nat, xres: nat, yres: nat)
    requires 0 < n <= yres
    ensures (exists id: nat :: id < n && Inner(k, StripBase(id, n, xres, yres), xres, StripHeight(id, n, yres)))
            <==> Inner(k, 0, xres, WholeHeight(n, yres))
  {
    InnerIsRows(k, 0, xres, WholeHeight(n, yres));
    forall id: nat | id < n && Inner(k, StripBase(id, n, xres, yres), xres, StripHeight(id, n, yres))
      ensures Inner(k, 0, xres, WholeHeight(n, yres))
    {
      StripIsRows(k, id, n, xres, yres);
      StripRows(id, n, yres);
    }
    if Inner(k, 0, xres, WholeHeight(n, yres)) {
      var id := StripOfRow(k / xres, n, yres);
      StripIsRows(k, id, n, xres, yres);
      assert Inner(k, StripBase(id, n, xres, yres), xres, StripHeight(id, n, yres));
    }
  }

  // ---------- fading rows ----------

  ghost predicate RowPixelDone(was: seq<Byte>, now: seq<Byte>, k: nat, width: nat, lo: nat, hi: nat)
    requires |was| == |now| && k < |was|
  {
    if InRows(k, width, lo, hi) then
      width <= k < |was| - width && now[k] == Decay(now[k - 1], was[k + 1], now[k - width], was[k + width])
    else
      now[k] == was[k]
  }

  /** `now` is `was` with rows lo..hi-1 faded. */
  ghost predicate RowsFaded(was: seq<Byte>, now: seq<Byte>, width: nat, lo: nat, hi: nat)
  {
    |was| == |now| && forall k: nat :: k < |was| ==> RowPixelDone(was, now, k, width, lo, hi)
  }

  lemma {:induction false} FadedIsRows(was: seq<Byte>, now: seq<Byte>, row: nat, width: nat, height: nat)
    requires height >= 1 && row * width + width * height <= |was|
    ensures Faded(was, now, row * width, width, height) <==> RowsFaded(was, now, width, row + 1, row + height - 1)
  {
    var base, lo, hi := row * width, row + 1, row + height - 1;
    if |was| == |now| {
      forall k: nat | k < |was|
        ensures PixelDone(was, now, k, base, width, height) <==> RowPixelDone(was, now, k, width, lo, hi)
      {
        InnerIsRows(k, row, width, height);
        if Inner(k, base, width, height) { InnerBounds(k, base, width, height); }
      }
      assert Faded(was, now, base, width, height) <==> RowsFaded(was, now, width, lo, hi);
    }
  }

  lemma {:induction false} RowOfNeighbour(k: nat, width: nat)
    requires width > 0 && 1 <= k % width < width - 1 && k >= width
    ensures (k - 1) / width == k / width && (k + 1) / width == k / width
    ensures (k - width) / width == k / width - 1 && (k + width) / width == k / width + 1
  {
    NeighbourOf(k, k / width, k % width, width);
  }

  lemma {:induction false} NeighbourOf(k: nat, y: nat, x: nat, w: nat)
    requires k == y * w + x && 1 <= x < w - 1 && k >= w
    ensures (k - 1) / w == y && (k + 1) / w == y
    ensures (k - w) / w == y - 1 && (k + w) / w == y + 1
  {
    DivIs(k - 1, y, x - 1, w);
    DivIs(k + 1, y, x + 1, w);
    assert (y + 1) * w == y * w + w && (y - 1) * w == y * w - w;
    DivIs(k + w, y + 1, x, w);
    assert y * w > 0;
    DivIs(k - w, y - 1, x, w);
  }

  /** Fading rows and then the rows right below them is fading both in one pass. */
  lemma {:induction false} FadeBelow(a: seq<Byte>, b: seq<Byte>, c: seq<Byte>, width: nat, lo: nat, mid: nat, hi: nat)
    requires RowsFaded(a, b, width, lo, mid) && RowsFaded(b, c, width, mid, hi) && lo <= mid <= hi
    ensures RowsFaded(a, c, width, lo, hi)
  {
    forall k: nat | k < |a| ensures RowPixelDone(a, c, k, width, lo, hi) {
      assert RowPixelDone(a, b, k, width, lo, mid) && RowPixelDone(b, c, k, width, mid, hi);
      if InRows(k, width, lo, hi) {
        RowOfNeighbour(k, width);
        assert RowPixelDone(b, c, k - 1, width, mid, hi);
        assert RowPixelDone(b, c, k - width, width, mid, hi);
        assert RowPixelDone(a, b, k + 1, width, lo, mid);
        assert RowPixelDone(a, b, k + width, width, lo, mid);
      }
    }
  }

  lemma {:induction false} FadeOneMore(was: seq<Byte>, before: seq<Byte>, now: seq<Byte>, width: nat, top: nat, height: nat)
    requires height >= 1 && (height == 1 ==> top == 0) && top * width + width * height <= |was|
    requires RowsFaded(was, before, width, 1, top + 1) && Faded(before, now, top * width, width, height)
    ensures RowsFaded(was, now, width, 1, top + height - 1)
  {
    FadedIsRows(before, now, top, width, height);
    if height > 1 {
      FadeBelow(was, before, now, width, 1, top + 1, top + height - 1);
    } else {
      forall k: nat | k < |was| ensures now[k] == was[k] {
        assert RowPixelDone(was, before, k, width, 1, 1) && RowPixelDone(before, now, k, width, 1, 0);
      }
    }
  }

  lemma {:induction false} WholeIsRows(was: seq<Byte>, now: seq<Byte>, n: nat, xres: nat, yres: nat)
    requires 0 < n <= yres && |was| >= xres * yres
    requires RowsFaded(was, now, xres, 1, n * (yres / n - 1) + n / 2)
    ensures Faded(was, now, 0, xres, WholeHeight(n, yres))
  {
    WholeFits(n, xres, yres);
    FadedIsRows(was, now, 0, xres, WholeHeight(n, yres));
  }

  /** The workers one after the other, in the order of their ids, fade the frame exactly as one
      call over the whole picture would. */
  method FadeStrips(frame: array<Byte>, n: nat, xres: nat, yres: nat)
    requires 0 < n <= yres && frame.Length >= xres * yres
    modifies frame
    ensures Faded(old(frame[..]), frame[..], 0, xres, WholeHeight(n, yres))
  {
    ghost var was := frame[..];
    ghost var top: nat, end: int := 0, 1;
    var id := 0;
    while id < n
      invariant id <= n && top == id * (yres / n - 1)
      invariant end == if id == n then n * (yres / n - 1) + n / 2 else top + 1
      invariant RowsFaded(was, frame[..], xres, 1, end)
    {
      ghost var before := frame[..];
      StripFits(id, n, xres, yres);
      StripRows(id, n, yres);
      Fade(frame, StripBase(id, n, xres, yres), xres, StripHeight(id, n, yres));
      FadeOneMore(was, before, frame[..], xres, top, StripHeight(id, n, yres));
      end := top + StripHeight(id, n, yres) - 1;
      top := top + (yres / n - 1);
      id := id + 1;
    }
    WholeIsRows(was, frame[..], n, xres, yres);
  }

  /** Rows a star can be drawn in, and rows the strips fade. */
  predicate StarRow(y: nat, yres: nat) { 2 < y < yres - 2 }

  predicate FadedRow(y: nat, n: nat, yres: nat)
    requires 0 < n <= yres
  {
    1 <= y < WholeHeight(n, yres) - 1
  }

  /** Every row with stars is faded exactly when the frame height leaves a small enough rest: with
      four threads, when it is a multiple of four. */
  lemma {:induction false} StarRowsAreFaded(n: nat, yres: nat)
    requires 0 < n <= yres && yres >= 6
    ensures (forall y: nat :: StarRow(y, yres) ==> FadedRow(y, n, yres)) <==> yres % n <= 2 - (n + 1) / 2
    ensures n == 4 ==> ((forall y: nat :: StarRow(y, yres) ==> FadedRow(y, n, yres)) <==> yres % 4 == 0)
  {
    var h := yres / n;
    assert yres == n * h + yres % n;
    assert n * (h - 1) == n * h - n;
    assert StarRow(yres - 3, yres);
  }

  // ---------- a round in any interleaving ----------

  /** One pixel write of a worker, on whatever the frame holds at that moment. */
  function FadeAt(f: seq<Byte>, k: nat, width: nat): (g: seq<Byte>)
    requires 0 < width <= k < |f| - width
  {
    f[k := Decay(f[k - 1], f[k + 1], f[k - width], f[k + width])]
  }

  ghost predicate Writes(ks: seq<nat>, size: nat, width: nat, height: nat)
  {
    width * height <= size && forall i :: 0 <= i < |ks| ==> Inner(ks[i], 0, width, height)
  }

  /** The frame after the workers' pixel writes ks, in the order the scheduler mixed them. */
  ghost function FadeAll(f: seq<Byte>, ks: seq<nat>, width: nat, height: nat): (g: seq<Byte>)
    requires Writes(ks, |f|, width, height)
    ensures |g| == |f|
  {
    if ks == [] then f
    else
      InnerBounds(ks[|ks| - 1], 0, width, height);
      var g := FadeAll(f, ks[..|ks| - 1], width, height);
      FadeAt(g, ks[|ks| - 1], width)
  }

  ghost predicate Below(f: seq<Byte>, m: nat) { forall k :: 0 <= k < |f| ==> f[k] <= m }

  /** Nothing outside the faded picture is lit. */
  ghost predicate DarkBorder(f: seq<Byte>, width: nat, height: nat)
  {
    forall k: nat :: k < |f| && !Inner(k, 0, width, height) ==> f[k] == 0
  }

  ghost predicate Covers(ks: seq<nat>, width: nat, height: nat)
  {
    forall k: nat :: Inner(k, 0, width, height) ==> k in ks
  }

  /** Whatever the order: brightness never grows, and a pixel once written has lost a step. */
  lemma {:induction false} WritesDim(f: seq<Byte>, ks: seq<nat>, width: nat, height: nat, m: nat)
    requires Writes(ks, |f|, width, height) && Below(f, m)
    ensures var g := FadeAll(f, ks, width, height);
            && Below(g, m)
            && (forall k: nat :: k < |f| && k in ks ==> g[k] == 0 || g[k] < m)
            && (forall k: nat :: k < |f| && k !in ks ==> g[k] == f[k])
    decreases |ks|
  {
    if ks != [] {
      var last := ks[|ks| - 1];
      var rest := ks[..|ks| - 1];
      InnerBounds(last, 0, width, height);
      WritesDim(f, rest, width, height, m);
      assert ks == rest + [last];
      DecayDims(FadeAll(f, rest, width, height), last, width, m);
    }
  }

  lemma {:induction false} DecayDims(f: seq<Byte>, k: nat, width: nat, m: nat)
    requires 0 < width <= k < |f| - width && Below(f, m)
    ensures FadeAt(f, k, width)[k] == 0 || FadeAt(f, k, width)[k] < m
  {
    assert f[k - 1] <= m && f[k + 1] <= m && f[k - width] <= m && f[k + width] <= m;
  }

  /** One round of all workers, interleaved pixel by pixel in any order, darkens a frame with a
      dark border by at least one step. */
  lemma {:induction false} RoundDims(f: seq<Byte>, ks: seq<nat>, width: nat, height: nat, m: nat)
    requires Writes(ks, |f|, width, height) && Covers(ks, width, height)
    requires Below(f, m) && DarkBorder(f, width, height)
    ensures var g := FadeAll(f, ks, width, height);
            Below(g, if m > 0 then m - 1 else 0) && DarkBorder(g, width, height)
  {
    var g := FadeAll(f, ks, width, height);
    WritesDim(f, ks, width, height, m);
    forall k: nat | k < |g| ensures g[k] == 0 || g[k] < m {
      if !Inner(k, 0, width, height) { NotWritten(k, ks, |f|, width, height); }
    }
    forall k: nat | k < |g| && !Inner(k, 0, width, height) ensures g[k] == 0 {
      NotWritten(k, ks, |f|, width, height);
    }
  }

  lemma {:induction false} NotWritten(k: nat, ks: seq<nat>, size: nat, width: nat, height: nat)
    requires Writes(ks, size, width, height) && !Inner(k, 0, width, height)
    ensures k !in ks
  {
  }

  ghost predicate AllRounds(rounds: seq<seq<nat>>, size: nat, width: nat, height: nat)
  {
    forall i :: 0 <= i < |rounds| ==> Writes(rounds[i], size, width, height) && Covers(rounds[i], width, height)
  }

  ghost function FadeRounds(f: seq<Byte>, rounds: seq<seq<nat>>, width: nat, height: nat): (g: seq<Byte>)
    requires AllRounds(rounds, |f|, width, height)
    ensures |g| == |f|
    decreases rounds
  {
    if rounds == [] then f
    else FadeRounds(FadeAll(f, rounds[0], width, height), rounds[1..], width, height)
  }

  /** A star's trail disappears: 255 rounds without drawing leave the frame black. */
  lemma {:induction false} TrailsFadeOut(f: seq<Byte>, rounds: seq<seq<nat>>, width: nat, height: nat, m: nat)
    requires AllRounds(rounds, |f|, width, height)
    requires m <= 255 && Below(f, m) && DarkBorder(f, width, height)
    ensures Below(FadeRounds(f, rounds, width, height), if m >= |rounds| then m - |rounds| else 0)
    ensures |rounds| >= 255 ==> forall k :: 0 <= k < |f| ==> FadeRounds(f, rounds, width, height)[k] == 0
    decreases rounds
  {
    if rounds != [] {
      RoundDims(f, rounds[0], width, height, m);
      TrailsFadeOut(FadeAll(f, rounds[0], width, height), rounds[1..], width, height, if m > 0 then m - 1 else 0);
    }
  }
}
