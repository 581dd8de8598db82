/**
The moving stars: projection with C's truncating division, coordinates compared as wrapped
unsigned values, a star that leaves the screen replaced by a recursive call.
*/
module StarfieldStars {
  import opened Arithmetic
  import opened StarfieldFade

  const ZMAX := 4096
  const NUMRND := 256

  datatype Star = Star(x: int, y: int, z: int, screenX: nat, screenY: nat)

  /** C's `/`: the quotient is truncated toward zero. */
  function CDiv(a: int, b: int): (q: int)
    requires b != 0
  {
    if (a >= 0) == (b > 0) then Abs(a) / Abs(b) else -(Abs(a) / Abs(b))
  }

  function Abs(a: int): nat { if a < 0 then -a else a }

  /** A signed value stored in or compared as a 32-bit unsigned one. */
  function U32(v: int): nat { v % WORD }

  function Projected(s: Star, xres: nat, yres: nat): (t: Star)
    requires s.z != 0
  {
    s.(screenX := U32(CDiv(s.x * 256, s.z) + xres / 2), screenY := U32(CDiv(s.y * 256, s.z) + yres / 2))
  }

  /** The bounds check of update_star on one projected coordinate. */
  predicate Visible(c: nat, res: nat) { !(c >= U32(res - 2)) && !(c <= 2) }

  predicate OnScreen(s: Star, xres: nat, yres: nat)
  {
    s.z > 0 && Visible(s.screenX, xres) && Visible(s.screenY, yres)
  }

  ghost predicate Table(rnd: seq<int>)
  {
    |rnd| == NUMRND && forall i :: 0 <= i < NUMRND ==> -128 <= rnd[i] <= 127
  }

  function Created(s: Star, num: nat, rnd: seq<int>): (t: Star)
    requires |rnd| == NUMRND
  {
    s.(x := rnd[num % NUMRND] * 16, y := rnd[(num + NUMRND / 2) % NUMRND] * 16, z := ZMAX)
  }

  function Pixel(z: int): Byte { (255 - CDiv(z, 24)) % 256 }

  /** What one update_star does, with the recursion worked out: a star that is still on the screen
      is drawn and moved once; any other is replaced, drawn twice on one pixel and moved twice. */
  datatype Update = Update(star: Star, num: nat, at: nat, pixel: Byte)

  function Updated(s: Star, num: nat, rnd: seq<int>, xres: nat, yres: nat): (u: Update)
    requires s.z != 0 && |rnd| == NUMRND
  {
    var p := Projected(s, xres, yres);
    Settled(p, Projected(Created(p, num, rnd), xres, yres), num, xres, yres)
  }

  /** ... given the projected star and the projected star that would replace it. */
  function Settled(p: Star, c: Star, num: nat, xres: nat, yres: nat): (u: Update)
  {
    if OnScreen(p, xres, yres) then
      Update(p.(z := p.z - 24), num, p.screenX + p.screenY * xres, Pixel(p.z))
    else
      Update(c.(z := ZMAX - 48), (num + 1) % WORD, c.screenX + c.screenY * xres, Pixel(ZMAX - 24))
  }

  // ---------- facts about fresh stars ----------

  /** A fresh star is projected to its table entry, seen from the middle of the screen. */
  lemma {:induction false} CreatedProjection(s: Star, num: nat, rnd: seq<int>, xres: nat, yres: nat)
    requires Table(rnd)
    ensures var c := Projected(Created(s, num, rnd), xres, yres);
            && c.screenX == U32(rnd[num % NUMRND] + xres / 2)
            && c.screenY == U32(rnd[(num + NUMRND / 2) % NUMRND] + yres / 2)
  {
    SixteenthOfSixteen(rnd[num % NUMRND]);
    SixteenthOfSixteen(rnd[(num + NUMRND / 2) % NUMRND]);
  }

  lemma {:induction false} SixteenthOfSixteen(r: int)
    ensures CDiv(r * 16 * 256, ZMAX) == r
  {
    assert Abs(r * 16 * 256) == Abs(r) * 4096;
  }

  /** A star with table entry r is visible when it is created. */
  predicate FreshVisible(r: int, res: nat) { Visible(U32(r + res / 2), res) }

  /** 262 is exactly the resolution from which every table entry is visible at once. */
  lemma {:induction false} FreshStarsVisible(res: nat)
    requires res < WORD
    ensures (forall r :: -128 <= r <= 127 ==> FreshVisible(r, res)) <==> res >= 262
  {
    assert res < 2 ==> !FreshVisible(0, res);
    assert 2 <= res < 262 ==> !FreshVisible(-128, res);
  }

  /** So on such a screen a replaced star is on the screen at once: no second recursion. */
  lemma {:induction false} RecursesOnce(s: Star, num: nat, rnd: seq<int>, xres: nat, yres: nat)
    requires Table(rnd) && 262 <= xres < WORD && 262 <= yres < WORD
    ensures OnScreen(Projected(Created(s, num, rnd), xres, yres), xres, yres)
  {
    CreatedProjection(s, num, rnd, xres, yres);
    FreshStarsVisible(xres);
    FreshStarsVisible(yres);
    assert FreshVisible(rnd[num % NUMRND], xres) && FreshVisible(rnd[(num + NUMRND / 2) % NUMRND], yres);
  }

  /** A pixel of the frame in a row with stars and off the outermost columns. */
  predicate StarPixel(at: nat, xres: nat, yres: nat)
  {
    xres > 0 && at < xres * yres && StarRow(at / xres, yres) && 2 < at % xres < xres - 2
  }

  lemma {:induction false} StarPixelAt(x: nat, y: nat, xres: nat, yres: nat)
    requires 2 < x < xres - 2 && StarRow(y, yres)
    ensures StarPixel(x + y * xres, xres, yres)
  {
    DivIs(x + y * xres, y, x, xres);
    TimesMonotone(y + 1, yres, xres);
    assert (y + 1) * xres == y * xres + xres;
  }

  lemma {:induction false} SettledInside(p: Star, c: Star, num: nat, xres: nat, yres: nat)
    requires 262 <= xres < WORD && 262 <= yres < WORD && OnScreen(c, xres, yres)
    ensures StarPixel(Settled(p, c, num, xres, yres).at, xres, yres)
  {
    var d := if OnScreen(p, xres, yres) then p else c;
    StarPixelAt(d.screenX, d.screenY, xres, yres);
  }

  /** Every write goes inside the frame, and even inside its inner part. */
  lemma {:induction false} DrawsInside(s: Star, num: nat, rnd: seq<int>, xres: nat, yres: nat)
    requires Table(rnd) && 262 <= xres < WORD && 262 <= yres < WORD && s.z != 0
    ensures StarPixel(Updated(s, num, rnd, xres, yres).at, xres, yres)
  {
    var p := Projected(s, xres, yres);
    RecursesOnce(p, num, rnd, xres, yres);
    SettledInside(p, Projected(Created(p, num, rnd), xres, yres), num, xres, yres);
  }

  /** With four fading threads and a frame height that is a multiple of four, what a star lights
      lies inside the faded picture, so the border stays dark. */
  lemma {:induction false} DrawingKeepsBorderDark(f: seq<Byte>, s: Star, num: nat, rnd: seq<int>, xres: nat, yres: nat)
    requires Table(rnd) && 262 <= xres < WORD && 262 <= yres < WORD && s.z != 0
    requires yres % 4 == 0 && |f| >= xres * yres && DarkBorder(f, xres, WholeHeight(4, yres))
    ensures var u := Updated(s, num, rnd, xres, yres);
            u.at < |f| && DarkBorder(f[u.at := u.pixel], xres, WholeHeight(4, yres))
  {
    var u := Updated(s, num, rnd, xres, yres);
    DrawsInside(s, num, rnd, xres, yres);
    StarRowsAreFaded(4, yres);
    assert FadedRow(u.at / xres, 4, yres);
    assert Inner(u.at, 0, xres, WholeHeight(4, yres));
  }

  // ---------- the division ----------

  /** The depths a star created by create_star runs through. */
  predicate Aligned(z: int) { z % 24 == 16 && -8 <= z <= ZMAX }

  /** ... are kept by every update, and are never 0. */
  lemma {:induction false} UpdateKeepsAligned(s: Star, num: nat, rnd: seq<int>, xres: nat, yres: nat)
    requires Aligned(s.z) && |rnd| == NUMRND
    ensures s.z != 0 && Aligned(Updated(s, num, rnd, xres, yres).star.z)
  {
    var p := Projected(s, xres, yres);
    SettledAligned(p, Projected(Created(p, num, rnd), xres, yres), num, xres, yres);
  }

  lemma {:induction false} SettledAligned(p: Star, c: Star, num: nat, xres: nat, yres: nat)
    requires Aligned(p.z)
    ensures Aligned(Settled(p, c, num, xres, yres).star.z)
  {
  }

  // ---------- initial depths ----------

  const TOP := 0x8000_0000

  /** Frame sizes for which fresh stars are visible, and the table of random numbers. */
  ghost predicate Setting(rnd: seq<int>, xres: nat, yres: nat)
  {
    Table(rnd) && 262 <= xres < TOP && 262 <= yres < TOP
  }

  /** Every star's place comes from a table entry. */
  predicate Placed(s: Star) { Abs(s.x) <= 2048 && Abs(s.y) <= 2048 }

  /** A star that is going to be divided by its depth 0: it is there, or comes there on the screen. */
  predicate Doomed(s: Star, xres: nat, yres: nat)
  {
    s.z >= 0 && s.z % 24 == 0 && (s.z == 0 || OnScreen(Projected(s.(z := 24), xres, yres), xres, yres))
  }

  lemma {:induction false} SmallerQuotient(a: nat, b: nat, c: nat)
    requires 0 < b <= c
    ensures 0 <= a / c <= a / b
  {
    var p, q := a / b, a / c;
    TimesMonotone(b, c, q);
    assert b * q <= c * q <= a < b * (p + 1);
    Cancelled(b, q, p + 1);
  }

  lemma {:induction false} Cancelled(b: nat, q: nat, p: nat)
    requires b * q < b * p
    ensures q < p
  {
    if q >= p { TimesMonotone(p, q, b); }
  }

  lemma {:induction false} SignedQuotient(a: int, b: nat)
    requires b > 0
    ensures CDiv(a, b) == if a >= 0 then Abs(a) / b else -(Abs(a) / b)
  {
  }

  /** A quotient is nearer to 0 the larger the divisor is. */
  lemma {:induction false} QuotientShrinks(a: int, b: nat, c: nat)
    requires 0 < b <= c
    ensures if a >= 0 then 0 <= CDiv(a, c) <= CDiv(a, b) else CDiv(a, b) <= CDiv(a, c) <= 0
  {
    SmallerQuotient(Abs(a), b, c);
    SignedQuotient(a, b);
    SignedQuotient(a, c);
  }

  /** Within these bounds a coordinate is visible exactly when it lies between the margins. */
  lemma {:induction false} VisibleBetween(q: int, res: nat)
    requires 262 <= res < TOP && -1000_000 <= q <= 1000_000
    ensures Visible(U32(q + res / 2), res) <==> 2 < q + res / 2 < res - 2
  {
    if q + res / 2 < 0 { assert U32(q + res / 2) == q + res / 2 + WORD; }
  }

  /** What is visible at depth b is visible farther away. */
  lemma {:induction false} VisibleFarther(a: int, b: nat, c: nat, res: nat)
    requires 24 <= b <= c && Abs(a) <= 2048 * 256 && 262 <= res < TOP
    requires Visible(U32(CDiv(a, b) + res / 2), res)
    ensures Visible(U32(CDiv(a, c) + res / 2), res)
  {
    QuotientShrinks(a, b, c);
    QuotientShrinks(a, 24, b);
    QuotientShrinks(a, 1, 24);
    VisibleBetween(CDiv(a, b), res);
    VisibleBetween(CDiv(a, c), res);
  }

  lemma {:induction false} OnScreenFarther(s: Star, z: nat, xres: nat, yres: nat)
    requires Placed(s) && 24 <= z <= s.z && 262 <= xres < TOP && 262 <= yres < TOP
    requires OnScreen(Projected(s.(z := z), xres, yres), xres, yres)
    ensures OnScreen(Projected(s, xres, yres), xres, yres)
  {
    VisibleFarther(s.x * 256, z, s.z, xres);
    VisibleFarther(s.y * 256, z, s.z, yres);
  }

  /** An update of a doomed star that does not divide by 0 only brings it nearer. */
  lemma {:induction false} DoomedStays(s: Star, num: nat, rnd: seq<int>, xres: nat, yres: nat)
    requires Setting(rnd, xres, yres) && Placed(s) && Doomed(s, xres, yres) && s.z != 0
    ensures var t := Updated(s, num, rnd, xres, yres).star;
      t.z == s.z - 24 && t.x == s.x && t.y == s.y && Doomed(t, xres, yres)
  {
    OnScreenFarther(s, 24, xres, yres);
    var t := Updated(s, num, rnd, xres, yres).star;
    assert t.z == s.z - 24;
    DoomedLikewise(s, t, xres, yres);
  }

  // ---------- what is drawn ----------

  /** A coordinate c of the middle m, for a star at distance a from the axis and depth z, times 256: the
      quotient cut towards the middle. */
  ghost predicate Seen(c: int, m: int, a: int, z: int)
  {
    (if a >= 0 then c >= m else c <= m) && Abs(c - m) * z <= Abs(a) * 256 < (Abs(c - m) + 1) * z
  }

  lemma {:induction false} SeenQuotient(c: int, m: int, a: int, z: nat, n: nat, q: nat)
    requires z > 0 && n == Abs(a) * 256 && q == n / z && (if a >= 0 then c - m == q else m - c == q)
    ensures Seen(c, m, a, z)
  {
    DivideBack(n, q, z);
    assert Abs(c - m) == q;
  }

  lemma {:induction false} DivideBack(n: nat, q: nat, z: nat)
    requires z > 0 && q == n / z
    ensures q * z <= n < (q + 1) * z
  {
    assert n == q * z + n % z;
    assert (q + 1) * z == q * z + z;
  }

  lemma {:induction false} SeenAt(a: int, z: nat, res: nat)
    requires z > 0 && 262 <= res < TOP && Abs(a) <= 2048 && Visible(U32(CDiv(a * 256, z) + res / 2), res)
    ensures Seen(U32(CDiv(a * 256, z) + res / 2), res / 2, a, z)
    ensures U32(CDiv(a * 256, z) + res / 2) < res
  {
    var n := Abs(a * 256);
    SignedQuotient(a * 256, z);
    SmallerQuotient(n, 1, z);
    var d := CDiv(a * 256, z);
    NotWrapped(d, res);
    SeenQuotient(d + res / 2, res / 2, a, z, n, n / z);
  }

  lemma {:induction false} NotWrapped(d: int, res: nat)
    requires 262 <= res < TOP && -1000_000 <= d <= 1000_000 && Visible(U32(d + res / 2), res)
    ensures U32(d + res / 2) == d + res / 2 < res
  {
    VisibleBetween(d, res);
  }

  lemma {:induction false} BrighterNearer(z: int)
    requires 0 < z <= ZMAX
    ensures 85 <= Pixel(z) <= 255 && 24 * (255 - Pixel(z)) <= z < 24 * (256 - Pixel(z))
  {
    assert CDiv(z, 24) == z / 24;
  }

  lemma {:induction false} AtPlace(at: nat, x: nat, y: nat, xres: nat)
    requires x < xres && at == x + y * xres
    ensures at % xres == x && at / xres == y
  {
    DivIs(at, y, x, xres);
  }

  /** A star on the screen is drawn where it is seen from the middle of the screen, 256 in front of it, and the
      brighter the nearer it is; it comes 24 nearer. */
  lemma {:induction false} DrawnInPerspective(s: Star, num: nat, rnd: seq<int>, xres: nat, yres: nat)
    requires Setting(rnd, xres, yres) && Placed(s) && 0 < s.z <= ZMAX && OnScreen(Projected(s, xres, yres), xres, yres)
    ensures var u := Updated(s, num, rnd, xres, yres);
      && Seen(u.at % xres, xres / 2, s.x, s.z) && Seen(u.at / xres, yres / 2, s.y, s.z)
      && 85 <= u.pixel <= 255 && 24 * (255 - u.pixel) <= s.z < 24 * (256 - u.pixel)
      && u.num == num && u.star.x == s.x && u.star.y == s.y && u.star.z == s.z - 24
  {
    var p := Projected(s, xres, yres);
    SeenAt(s.x, s.z, xres);
    SeenAt(s.y, s.z, yres);
    ShownAt(p, Projected(Created(p, num, rnd), xres, yres), num, xres, yres);
  }

  lemma {:induction false} ShownAt(p: Star, c: Star, num: nat, xres: nat, yres: nat)
    requires p.screenX < xres && 0 < p.z <= ZMAX && OnScreen(p, xres, yres)
    ensures var u := Settled(p, c, num, xres, yres);
      && u.at % xres == p.screenX && u.at / xres == p.screenY
      && 85 <= u.pixel <= 255 && 24 * (255 - u.pixel) <= p.z < 24 * (256 - u.pixel)
      && u.num == num && u.star == p.(z := p.z - 24)
  {
    BrighterNearer(p.z);
    AtPlace(p.screenX + p.screenY * xres, p.screenX, p.screenY, xres);
    SettledShown(p, c, num, xres, yres);
  }

  lemma {:induction false} SettledShown(p: Star, c: Star, num: nat, xres: nat, yres: nat)
    requires OnScreen(p, xres, yres)
    ensures Settled(p, c, num, xres, yres) == Update(p.(z := p.z - 24), num, p.screenX + p.screenY * xres, Pixel(p.z))
  {
  }

  lemma {:induction false} SettledReplaced(p: Star, c: Star, num: nat, xres: nat, yres: nat)
    requires !OnScreen(p, xres, yres)
    ensures Settled(p, c, num, xres, yres) == Update(c.(z := 4048), (num + 1) % WORD, c.screenX + c.screenY * xres, 86)
  {
  }

  /** Any other is replaced by the next one of the table, which is drawn at its place in the table, and comes
      48 nearer at once. */
  lemma {:induction false} ReplacedFromTable(s: Star, num: nat, rnd: seq<int>, xres: nat, yres: nat)
    requires Setting(rnd, xres, yres) && s.z != 0 && !OnScreen(Projected(s, xres, yres), xres, yres)
    ensures var u := Updated(s, num, rnd, xres, yres);
      && u.at % xres == rnd[num % NUMRND] + xres / 2 && u.at / xres == rnd[(num + 128) % NUMRND] + yres / 2
      && u.pixel == 86 && u.num == (num + 1) % WORD
      && u.star.x == 16 * rnd[num % NUMRND] && u.star.y == 16 * rnd[(num + 128) % NUMRND] && u.star.z == 4048
  {
    var p := Projected(s, xres, yres);
    var c := Projected(Created(p, num, rnd), xres, yres);
    CreatedProjection(p, num, rnd, xres, yres);
    RecursesOnce(p, num, rnd, xres, yres);
    ReplacedBy(p, c, num, rnd[num % NUMRND], rnd[(num + 128) % NUMRND], xres, yres);
  }

  lemma {:induction false} ReplacedBy(p: Star, c: Star, num: nat, x: int, y: int, xres: nat, yres: nat)
    requires 262 <= xres < TOP && 262 <= yres < TOP && !OnScreen(p, xres, yres) && OnScreen(c, xres, yres)
    requires -128 <= x <= 127 && -128 <= y <= 127
    requires c.screenX == U32(x + xres / 2) && c.screenY == U32(y + yres / 2)
    ensures var u := Settled(p, c, num, xres, yres);
      && u.at % xres == x + xres / 2 && u.at / xres == y + yres / 2
      && u.pixel == 86 && u.num == (num + 1) % WORD && u.star == c.(z := 4048)
  {
    NotWrapped(x, xres);
    NotWrapped(y, yres);
    AtPlace(c.screenX + c.screenY * xres, c.screenX, c.screenY, xres);
    SettledReplaced(p, c, num, xres, yres);
  }

  lemma {:induction false} SameProjection(s: Star, t: Star, xres: nat, yres: nat)
    requires s.x == t.x && s.y == t.y && s.z == t.z != 0
    ensures Projected(s, xres, yres) == Projected(t, xres, yres)
  {
  }

  lemma {:induction false} DoomedLikewise(s: Star, t: Star, xres: nat, yres: nat)
    requires t.x == s.x && t.y == s.y && t.z == s.z - 24
    ensures Doomed(t, xres, yres) <==>
      s.z >= 24 && s.z % 24 == 0 && (s.z == 24 || OnScreen(Projected(s.(z := 24), xres, yres), xres, yres))
  {
    SameProjection(s.(z := 24), t.(z := 24), xres, yres);
  }

  /** Any other star stays so: it is moved, or replaced by one that is never at depth 0. */
  lemma {:induction false} SafeStays(s: Star, num: nat, rnd: seq<int>, xres: nat, yres: nat)
    requires Setting(rnd, xres, yres) && Placed(s) && !Doomed(s, xres, yres)
    ensures s.z != 0 && Placed(Updated(s, num, rnd, xres, yres).star)
    ensures !Doomed(Updated(s, num, rnd, xres, yres).star, xres, yres)
  {
    var p := Projected(s, xres, yres);
    var u := Updated(s, num, rnd, xres, yres);
    if OnScreen(p, xres, yres) {
      SafeNearer(s, u.star, xres, yres);
    } else {
      assert u.star.z == ZMAX - 48;
    }
  }

  lemma {:induction false} SafeNearer(s: Star, t: Star, xres: nat, yres: nat)
    requires t.x == s.x && t.y == s.y && t.z == s.z - 24 && s.z > 0
    requires OnScreen(Projected(s, xres, yres), xres, yres) && !Doomed(s, xres, yres)
    ensures !Doomed(t, xres, yres)
  {
    DoomedLikewise(s, t, xres, yres);
    assert s.z == 24 ==> s.(z := 24) == s;
  }

  // ---------- the program ----------

  /** The stars, the count of created ones, and the frame. */
  datatype Sky = Sky(stars: seq<Star>, num: nat, screen: seq<Byte>)

  ghost predicate Roomy(sky: Sky, rnd: seq<int>, xres: nat, yres: nat)
  {
    Setting(rnd, xres, yres) && |sky.screen| >= xres * yres
  }

  /** No star up to this one is at depth 0. */
  ghost predicate Divisible(stars: seq<Star>, count: nat)
    requires count <= |stars|
  {
    forall i :: 0 <= i < count ==> stars[i].z != 0
  }

  /** A pass over the first stars; it is defined where no division by 0 occurs in it. */
  ghost function Pass(sky: Sky, count: nat, rnd: seq<int>, xres: nat, yres: nat): (t: Sky)
    requires Roomy(sky, rnd, xres, yres) && count <= |sky.stars| && Divisible(sky.stars, count)
    ensures Roomy(t, rnd, xres, yres) && |t.stars| == |sky.stars| && |t.screen| == |sky.screen|
    ensures forall i :: count <= i < |sky.stars| ==> t.stars[i] == sky.stars[i]
  {
    if count == 0 then sky
    else
      var t := Pass(sky, count - 1, rnd, xres, yres);
      DrawsInside(t.stars[count - 1], t.num, rnd, xres, yres);
      var u := Updated(t.stars[count - 1], t.num, rnd, xres, yres);
      Sky(t.stars[count - 1 := u.star], u.num, t.screen[u.at := u.pixel])
  }

  /** A pass updates every star once. */
  lemma {:induction false} PassUpdates(sky: Sky, count: nat, rnd: seq<int>, xres: nat, yres: nat, i: nat)
    requires Roomy(sky, rnd, xres, yres) && count <= |sky.stars| && Divisible(sky.stars, count) && i < count
    ensures Pass(sky, count, rnd, xres, yres).stars[i]
         == Updated(sky.stars[i], Pass(sky, i, rnd, xres, yres).num, rnd, xres, yres).star
  {
    if i < count - 1 { PassUpdates(sky, count - 1, rnd, xres, yres, i); }
  }

  /** Over every pass of calc_starfield the border stays dark (four threads, height 4k). */
  lemma {:induction false} PassKeepsBorderDark(sky: Sky, count: nat, rnd: seq<int>, xres: nat, yres: nat)
    requires Roomy(sky, rnd, xres, yres) && count <= |sky.stars| && Divisible(sky.stars, count)
    requires yres % 4 == 0 && DarkBorder(sky.screen, xres, WholeHeight(4, yres))
    ensures DarkBorder(Pass(sky, count, rnd, xres, yres).screen, xres, WholeHeight(4, yres))
  {
    if count > 0 {
      PassKeepsBorderDark(sky, count - 1, rnd, xres, yres);
      var t := Pass(sky, count - 1, rnd, xres, yres);
      DrawingKeepsBorderDark(t.screen, t.stars[count - 1], t.num, rnd, xres, yres);
    }
  }

  ghost predicate AllPlaced(stars: seq<Star>) { forall i :: 0 <= i < |stars| ==> Placed(stars[i]) }

  ghost predicate AllSafe(stars: seq<Star>, xres: nat, yres: nat)
  {
    forall i :: 0 <= i < |stars| ==> !Doomed(stars[i], xres, yres)
  }

  /** A whole pass keeps stars safe, and places them from the table. */
  lemma {:induction false} PassKeepsSafe(sky: Sky, rnd: seq<int>, xres: nat, yres: nat)
    requires Roomy(sky, rnd, xres, yres) && AllPlaced(sky.stars) && AllSafe(sky.stars, xres, yres)
    ensures Divisible(sky.stars, |sky.stars|)
    ensures var t := Pass(sky, |sky.stars|, rnd, xres, yres); AllPlaced(t.stars) && AllSafe(t.stars, xres, yres)
  {
    var n := |sky.stars|;
    forall i | 0 <= i < n ensures sky.stars[i].z != 0 { assert !Doomed(sky.stars[i], xres, yres); }
    var t := Pass(sky, n, rnd, xres, yres);
    forall i | 0 <= i < n ensures Placed(t.stars[i]) && !Doomed(t.stars[i], xres, yres) {
      PassUpdates(sky, n, rnd, xres, yres, i);
      SafeStays(sky.stars[i], Pass(sky, i, rnd, xres, yres).num, rnd, xres, yres);
    }
  }

  /** So many passes go by without a division by 0. */
  ghost predicate RunsSafely(sky: Sky, passes: nat, rnd: seq<int>, xres: nat, yres: nat)
    requires Roomy(sky, rnd, xres, yres)
    decreases passes
  {
    passes > 0 ==>
      && Divisible(sky.stars, |sky.stars|)
      && RunsSafely(Pass(sky, |sky.stars|, rnd, xres, yres), passes - 1, rnd, xres, yres)
  }

  lemma {:induction false} SafeRuns(sky: Sky, passes: nat, rnd: seq<int>, xres: nat, yres: nat)
    requires Roomy(sky, rnd, xres, yres) && AllPlaced(sky.stars) && AllSafe(sky.stars, xres, yres)
    ensures RunsSafely(sky, passes, rnd, xres, yres)
    decreases passes
  {
    if passes > 0 {
      PassKeepsSafe(sky, rnd, xres, yres);
      SafeRuns(Pass(sky, |sky.stars|, rnd, xres, yres), passes - 1, rnd, xres, yres);
    }
  }

  /** A doomed star 24 k deep comes to the division at depth 0 in pass k + 1, or another star does before. */
  lemma {:induction false} DoomedFails(sky: Sky, i: nat, k: nat, rnd: seq<int>, xres: nat, yres: nat)
    requires Roomy(sky, rnd, xres, yres) && i < |sky.stars| && Placed(sky.stars[i])
    requires Doomed(sky.stars[i], xres, yres) && sky.stars[i].z == 24 * k
    ensures !RunsSafely(sky, k + 1, rnd, xres, yres)
    decreases k
  {
    var n := |sky.stars|;
    if k > 0 && Divisible(sky.stars, n) {
      PassUpdates(sky, n, rnd, xres, yres, i);
      DoomedStays(sky.stars[i], Pass(sky, i, rnd, xres, yres).num, rnd, xres, yres);
      DoomedFails(Pass(sky, n, rnd, xres, yres), i, k - 1, rnd, xres, yres);
    }
  }

  /** No pass ever divides by 0 exactly when no star is doomed at the start. */
  lemma {:induction false} NeverDividesByZero(sky: Sky, rnd: seq<int>, xres: nat, yres: nat)
    requires Roomy(sky, rnd, xres, yres) && AllPlaced(sky.stars)
    ensures (forall passes: nat :: RunsSafely(sky, passes, rnd, xres, yres)) <==> AllSafe(sky.stars, xres, yres)
  {
    if AllSafe(sky.stars, xres, yres) {
      forall passes: nat ensures RunsSafely(sky, passes, rnd, xres, yres) { SafeRuns(sky, passes, rnd, xres, yres); }
    } else {
      var i :| 0 <= i < |sky.stars| && Doomed(sky.stars[i], xres, yres);
      var k := sky.stars[i].z / 24;
      DoomedFails(sky, i, k, rnd, xres, yres);
      assert !RunsSafely(sky, k + 1, rnd, xres, yres);
    }
  }

  /** Star i of init_starfield: a created star whose depth is replaced by a random one. */
  function Initial(i: nat, rnd: seq<int>): Star
    requires |rnd| == NUMRND
  {
    Created(Star(0, 0, 0, 0, 0), i, rnd).(z := (rnd[i % NUMRND] + 127) * (ZMAX / 256))
  }

  /** The first stars stand at the places of the table, at depths from 0 to 4064, or just behind the screen. */
  lemma {:induction false} InitialPlaces(i: nat, rnd: seq<int>)
    requires Table(rnd) && i < NUMRND
    ensures var s := Initial(i, rnd);
      && s.x == 16 * rnd[i] && s.y == 16 * rnd[if i < 128 then i + 128 else i - 128] && s.z == 16 * rnd[i] + 2032
      && -16 <= s.z <= 4064 && (s.z < 0 <==> rnd[i] == -128)
  {
  }

  /** Where the initial stars fail: the entry + 127 is a multiple of three, and 0 or visible at depth 24. */
  lemma {:induction false} InitialIsDoomed(i: nat, rnd: seq<int>, xres: nat, yres: nat)
    requires Setting(rnd, xres, yres)
    ensures Placed(Initial(i, rnd))
    ensures var r := rnd[i % NUMRND] + 127;
      Doomed(Initial(i, rnd), xres, yres)
      <==> r >= 0 && r % 3 == 0 && (r == 0 || OnScreen(Projected(Initial(i, rnd).(z := 24), xres, yres), xres, yres))
  {
    SixteenTimes(rnd[i % NUMRND] + 127);
  }

  lemma {:induction false} SixteenTimes(r: int)
    ensures r * 16 % 24 == 0 <==> r % 3 == 0
  {
    var q := r / 3;
    if r % 3 == 0 {
      Remainder24(r * 16, 2 * q, 0);
    } else if r % 3 == 1 {
      Remainder24(r * 16, 2 * q, 16);
    } else {
      Remainder24(r * 16, 2 * q + 1, 8);
    }
  }

  lemma {:induction false} Remainder24(n: int, q: int, e: nat)
    requires n == 24 * q + e && e < 24
    ensures n % 24 == e
  {
  }

  /** The program never divides by 0 exactly when no table entry in use dooms its star. */
  lemma {:induction false} FromInitialStars(sky: Sky, rnd: seq<int>, xres: nat, yres: nat)
    requires Roomy(sky, rnd, xres, yres) && forall i :: 0 <= i < |sky.stars| ==> sky.stars[i] == Initial(i, rnd)
    ensures (forall passes: nat :: RunsSafely(sky, passes, rnd, xres, yres))
       <==> forall i :: 0 <= i < |sky.stars| ==> !Doomed(Initial(i, rnd), xres, yres)
  {
    forall i | 0 <= i < |sky.stars| ensures Placed(sky.stars[i]) { InitialIsDoomed(i, rnd, xres, yres); }
    NeverDividesByZero(sky, rnd, xres, yres);
  }

  /** The table has the entry -127 in place 89, so that the program divides by 0 in its first pass. */
  lemma {:induction false} FirstPassDividesByZero(sky: Sky, rnd: seq<int>, xres: nat, yres: nat)
    requires Roomy(sky, rnd, xres, yres) && rnd[89] == -127 && |sky.stars| > 89 && sky.stars[89] == Initial(89, rnd)
    ensures !RunsSafely(sky, 1, rnd, xres, yres)
  {
    assert sky.stars[89].z == 0;
  }

  class Field {
    const stars: array<Star>
    const screen: array<Byte>
    const xres: nat
    const yres: nat
    const rnd: seq<int>
    var num: nat

    ghost predicate Valid()
      reads this
    {
      Setting(rnd, xres, yres) && screen.Length >= xres * yres
    }

    ghost function Contents(): Sky
      reads this, stars, screen
    {
      Sky(stars[..], num, screen[..])
    }

    /** The static variables. */
    constructor (screen: array<Byte>, count: nat, xres: nat, yres: nat, rnd: seq<int>)
      requires Setting(rnd, xres, yres) && screen.Length >= xres * yres
      ensures Valid() && this.screen == screen && this.rnd == rnd && this.xres == xres && this.yres == yres
      ensures fresh(stars) && stars.Length == count && num == 0
      ensures forall i :: 0 <= i < count ==> stars[i] == Star(0, 0, 0, 0, 0)
    {
      this.screen, this.xres, this.yres, this.rnd, num := screen, xres, yres, rnd, 0;
      stars := new Star[count](_ => Star(0, 0, 0, 0, 0));
    }

    /** The frame black. */
    method ClearScreen(size: nat)
      requires size <= screen.Length
      modifies screen
      ensures forall k :: 0 <= k < size ==> screen[k] == 0
    {
      for k := 0 to size
        invariant forall j :: 0 <= j < k ==> screen[j] == 0
      {
        screen[k] := 0;
      }
    }

    /** Every star with its random depth. */
    method InitStars()
      requires Valid() && num == 0 && stars.Length <= NUMRND
      requires forall i :: 0 <= i < stars.Length ==> stars[i] == Star(0, 0, 0, 0, 0)
      modifies stars, this
      ensures num == stars.Length && forall i :: 0 <= i < stars.Length ==> stars[i] == Initial(i, rnd)
    {
      var i := 0;
      while i < stars.Length
        invariant 0 <= i <= stars.Length && num == i
        invariant forall j :: 0 <= j < i ==> stars[j] == Initial(j, rnd)
        invariant forall j :: i <= j < stars.Length ==> stars[j] == Star(0, 0, 0, 0, 0)
      {
        CreateStar(i);
        stars[i] := stars[i].(z := (rnd[i % NUMRND] + 127) * (ZMAX / 256));
        i := i + 1;
      }
    }

    /** init_starfield. */
    method InitStarfield()
      requires Valid() && num == 0 && stars.Length <= NUMRND
      requires forall i :: 0 <= i < stars.Length ==> stars[i] == Star(0, 0, 0, 0, 0)
      modifies stars, screen, this
      ensures num == stars.Length && forall i :: 0 <= i < stars.Length ==> stars[i] == Initial(i, rnd)
      ensures forall k :: 0 <= k < xres * yres ==> screen[k] == 0
    {
      ClearScreen(xres * yres);
      InitStars();
    }

    method CreateStar(i: nat)
      requires Valid() && i < stars.Length
      modifies stars, this
      ensures stars[..] == old(stars[..])[i := Created(old(stars[i]), old(num), rnd)]
      ensures num == (old(num) + 1) % WORD
    {
      var s := stars[i];
      stars[i] := s.(x := rnd[num % NUMRND] * 16, y := rnd[(num + NUMRND / 2) % NUMRND] * 16, z := ZMAX);
      num := (num + 1) % WORD;
    }

    /** update_star, which after the recursive call goes on to draw and move the star again. */
    method UpdateStar(i: nat)
      requires Valid() && i < stars.Length && stars[i].z != 0
      modifies stars, screen, this
      ensures var u := Updated(old(stars[i]), old(num), rnd, xres, yres);
              && stars[..] == old(stars[..])[i := u.star] && num == u.num
              && u.at < screen.Length && screen[..] == old(screen[..])[u.at := u.pixel]
      decreases if OnScreen(Projected(stars[i], xres, yres), xres, yres) then 0 else 1
    {
      ghost var was, wasNum := stars[i], num;
      DrawsInside(was, wasNum, rnd, xres, yres);
      var s := stars[i];
      s := s.(screenX := U32(CDiv(s.x * 256, s.z) + xres / 2), screenY := U32(CDiv(s.y * 256, s.z) + yres / 2));
      stars[i] := s;
      if 0 >= s.z || s.screenX >= U32(xres - 2) || s.screenY >= U32(yres - 2) || s.screenX <= 2 || s.screenY <= 2 {
        CreateStar(i);
        RecursesOnce(s, wasNum, rnd, xres, yres);
        UpdateStar(i);
      }
      s := stars[i];
      screen[s.screenX + s.screenY * xres] := (255 - CDiv(s.z, 24)) % 256;
      stars[i] := s.(z := s.z - 24);
    }

    /** The loop of calc_starfield has come to star i. */
    ghost predicate Passed(sky: Sky, i: nat)
      reads this, stars, screen
    {
      && Roomy(sky, rnd, xres, yres) && Divisible(sky.stars, |sky.stars|)
      && i <= |sky.stars| == stars.Length && Contents() == Pass(sky, i, rnd, xres, yres)
    }

    /** One round of it. */
    method UpdateNext(i: nat, ghost sky: Sky)
      requires Valid() && i < stars.Length && Passed(sky, i)
      modifies stars, screen, this
      ensures Passed(sky, i + 1)
    {
      ghost var t := Pass(sky, i, rnd, xres, yres);
      assert stars[i] == t.stars[i] == sky.stars[i];
      UpdateStar(i);
    }

    /** calc_starfield, for stars that are not at depth 0. */
    method CalcStarfield()
      requires Valid() && Divisible(stars[..], stars.Length)
      modifies stars, screen, this
      ensures Roomy(old(Contents()), rnd, xres, yres)
      ensures Contents() == Pass(old(Contents()), stars.Length, rnd, xres, yres)
    {
      ghost var sky := Contents();
      var i := 0;
      while i < stars.Length
        invariant i <= stars.Length && Passed(sky, i)
      {
        UpdateNext(i, sky);
        i := i + 1;
      }
    }
  }
}
