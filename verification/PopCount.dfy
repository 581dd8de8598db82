/**
The population count of HAKMEM item 169. The masks of the formula are octal numbers, so a word is
given by its octal digits, three bits each, lowest digit first.
*/
module PopCount {
  import opened Arithmetic

  // ---------- words ----------

  function N(b: bool): nat { if b then 1 else 0 }

  /** An octal digit. */
  datatype Octal = Octal(b2: bool, b1: bool, b0: bool)
  {
    function Value(): nat { 4 * N(b2) + 2 * N(b1) + N(b0) }

    function Ones(): nat { N(b2) + N(b1) + N(b0) }

    function And(m: Octal): Octal { Octal(b2 && m.b2, b1 && m.b1, b0 && m.b0) }
  }

  const ZERO := Octal(false, false, false)
  const ONE := Octal(false, false, true)
  const THREE := Octal(false, true, true)
  const SEVEN := Octal(true, true, true)

  type Word = seq<Octal>

  function Value(w: Word): nat { if w == [] then 0 else w[0].Value() + 8 * Value(w[1..]) }

  /** Bitwise and. */
  function And(w: Word, m: Word): (v: Word)
    requires |w| == |m|
    ensures |v| == |w|
  {
    if w == [] then [] else [w[0].And(m[0])] + And(w[1..], m[1..])
  }

  function LowBit(w: Word): bool { w != [] && w[0].b0 }

  /** Shifting right by one bit. */
  function Half(w: Word): (h: Word)
    ensures |h| == |w|
  {
    if w == [] then [] else [Octal(LowBit(w[1..]), w[0].b2, w[0].b1)] + Half(w[1..])
  }

  lemma {:induction false} HalfIsHalf(w: Word)
    ensures Value(w) == 2 * Value(Half(w)) + N(LowBit(w))
    ensures Value(Half(w)) == Value(w) / 2
  {
    if w != [] { HalfIsHalf(w[1..]); }
  }

  /** The word of a number with this many octal digits. */
  function WordOf(x: nat, size: nat): (w: Word)
    ensures |w| == size
  {
    if size == 0 then [] else [DigitOf(x % 8)] + WordOf(x / 8, size - 1)
  }

  function DigitOf(d: nat): (o: Octal)
    requires d < 8
    ensures o.Value() == d
  {
    Octal(d >= 4, d == 2 || d == 3 || d == 6 || d == 7, d == 1 || d == 3 || d == 5 || d == 7)
  }

  lemma {:induction false} ValueOfWordOf(x: nat, size: nat)
    requires x < Pow8(size)
    ensures Value(WordOf(x, size)) == x
  {
    if size > 0 { ValueOfWordOf(x / 8, size - 1); }
  }

  // ---------- the count of one bits ----------

  /** Number of one bits of a number, bit by bit. */
  function OneBits(x: nat): (n: nat)
  {
    if x == 0 then 0 else x % 2 + OneBits(x / 2)
  }

  lemma {:induction false} OneBitsOfBit(y: nat, bit: bool, x: nat)
    requires x == 2 * y + N(bit)
    ensures OneBits(x) == OneBits(y) + N(bit)
  {
    assert x / 2 == y && x % 2 == N(bit);
  }

  lemma {:induction false} OneBitsOfThree(y: nat, b2: bool, b1: bool, b0: bool, y2: nat, y1: nat, x: nat)
    requires y2 == 2 * y + N(b2) && y1 == 2 * y2 + N(b1) && x == 2 * y1 + N(b0)
    ensures OneBits(x) == OneBits(y) + N(b2) + N(b1) + N(b0)
  {
    OneBitsOfBit(y, b2, y2);
    OneBitsOfBit(y2, b1, y1);
    OneBitsOfBit(y1, b0, x);
  }

  lemma {:induction false} OneBitsOfDigit(y: nat, o: Octal, x: nat)
    requires x == 8 * y + o.Value()
    ensures OneBits(x) == OneBits(y) + o.Ones()
  {
    OneBitsOfThree(y, o.b2, o.b1, o.b0, 2 * y + N(o.b2), 4 * y + 2 * N(o.b2) + N(o.b1), x);
  }

  /** The bit counts of the digits. */
  function Counts(w: Word): (cs: seq<nat>)
    ensures |cs| == |w|
  {
    if w == [] then [] else [w[0].Ones()] + Counts(w[1..])
  }

  /** The number with these digits, which may exceed 7. */
  function Sum8(cs: seq<nat>): nat { if cs == [] then 0 else cs[0] + 8 * Sum8(cs[1..]) }

  function Sum(cs: seq<nat>): nat { if cs == [] then 0 else cs[0] + Sum(cs[1..]) }

  lemma {:induction false} SumOfCounts(w: Word)
    ensures Sum(Counts(w)) == OneBits(Value(w))
  {
    if w != [] {
      SumOfCounts(w[1..]);
      OneBitsOfDigit(Value(w[1..]), w[0], Value(w));
    }
  }

  // ---------- the first line ----------

  function Repeat(o: Octal, size: nat): (w: Word)
    ensures |w| == size
  {
    if size == 0 then [] else [o] + Repeat(o, size - 1)
  }

  /** The value of x - ((x >> 1) & 033333333333) - ((x >> 2) & 011111111111). */
  function DigitCounts(x: Word): int
  {
    Value(x) - Value(And(Half(x), Repeat(THREE, |x|))) - Value(And(Half(Half(x)), Repeat(ONE, |x|)))
  }

  lemma {:induction false} AndRepeat(o: Octal, w: Word, m: Octal)
    ensures Value(And([o] + w, Repeat(m, |w| + 1))) == o.And(m).Value() + 8 * Value(And(w, Repeat(m, |w|)))
  {
    assert ([o] + w)[1..] == w && Repeat(m, |w| + 1)[1..] == Repeat(m, |w|);
  }

  lemma {:induction false} DigitCount(o: Octal, l: bool, m: bool)
    ensures o.Value() - Octal(l, o.b2, o.b1).And(THREE).Value() - Octal(m, l, o.b2).And(ONE).Value() == o.Ones()
  {
  }

  lemma {:induction false} MaskedHalf(o: Octal, up: Word)
    ensures var x := [o] + up;
      Value(And(Half(x), Repeat(THREE, |x|)))
      == Octal(LowBit(up), o.b2, o.b1).And(THREE).Value() + 8 * Value(And(Half(up), Repeat(THREE, |up|)))
  {
    var x := [o] + up;
    assert x[1..] == up;
    AndRepeat(Octal(LowBit(up), o.b2, o.b1), Half(up), THREE);
  }

  lemma {:induction false} MaskedQuarter(o: Octal, up: Word)
    ensures var x := [o] + up;
      Value(And(Half(Half(x)), Repeat(ONE, |x|)))
      == Octal(LowBit(Half(up)), LowBit(up), o.b2).And(ONE).Value() + 8 * Value(And(Half(Half(up)), Repeat(ONE, |up|)))
  {
    var x, h := [o] + up, Half(up);
    assert x[1..] == up;
    assert Half(x) == [Octal(LowBit(up), o.b2, o.b1)] + h && Half(x)[1..] == h;
    AndRepeat(Octal(LowBit(h), LowBit(up), o.b2), Half(h), ONE);
  }

  /** The bit counts of the digits are its digits: nothing is borrowed. */
  lemma {:induction false} FirstLine(x: Word)
    ensures DigitCounts(x) == Sum8(Counts(x))
  {
    if x != [] {
      var o, up := x[0], x[1..];
      assert x == [o] + up;
      FirstLine(up);
      MaskedHalf(o, up);
      MaskedQuarter(o, up);
      DigitCount(o, LowBit(up), LowBit(Half(up)));
    }
  }

  // ---------- the second line ----------

  /** Bit counts of digits, the top one of a digit below 4. */
  ghost predicate Small(cs: seq<nat>)
  {
    (forall i :: 0 <= i < |cs| ==> cs[i] <= 3) && (cs != [] ==> cs[|cs| - 1] <= 2)
  }

  /** Every count plus the one above it. */
  function Neighbours(cs: seq<nat>): (ss: seq<nat>)
    ensures |ss| == |cs|
  {
    if cs == [] then [] else [cs[0] + (if |cs| > 1 then cs[1] else 0)] + Neighbours(cs[1..])
  }

  lemma {:induction false} NeighboursValue(cs: seq<nat>)
    ensures Sum8(Neighbours(cs)) == Sum8(cs) + (if cs == [] then 0 else Sum8(cs[1..]))
  {
    if cs != [] { NeighboursValue(cs[1..]); }
  }

  ghost predicate Octals(ss: seq<nat>) { forall i :: 0 <= i < |ss| ==> ss[i] < 8 }

  lemma {:induction false} NeighboursAreOctal(cs: seq<nat>)
    requires Small(cs)
    ensures Octals(Neighbours(cs))
  {
    if |cs| > 1 { NeighboursAreOctal(cs[1..]); }
  }

  function Digits(ss: seq<nat>): (w: Word)
    requires Octals(ss)
    ensures |w| == |ss|
  {
    if ss == [] then [] else [DigitOf(ss[0])] + Digits(ss[1..])
  }

  lemma {:induction false} WordOfSum8(ss: seq<nat>)
    requires Octals(ss)
    ensures WordOf(Sum8(ss), |ss|) == Digits(ss)
  {
    if ss != [] {
      WordOfSum8(ss[1..]);
      LowDigit(ss[0], Sum8(ss[1..]), Sum8(ss));
    }
  }

  lemma {:induction false} LowDigit(d: nat, high: nat, n: nat)
    requires d < 8 && n == d + 8 * high
    ensures n % 8 == d && n / 8 == high
  {
  }

  /** The mask 030707070707: 7 and 0 by turns, 3 for the top digit. */
  function Alternate(size: nat): (w: Word)
    ensures |w| == size
  {
    if size == 0 then [] else if size == 1 then [THREE] else [SEVEN, ZERO] + Alternate(size - 2)
  }

  lemma {:induction false} AndPair(a: Octal, b: Octal, w: Word)
    ensures Value(And([a, b] + w, Alternate(|w| + 2))) == a.Value() + 64 * Value(And(w, Alternate(|w|)))
  {
    var ab, m := [a, b] + w, Alternate(|w| + 2);
    assert ab[1..] == [b] + w && ([b] + w)[1..] == w;
    assert m[1..] == [ZERO] + Alternate(|w|) && ([ZERO] + Alternate(|w|))[1..] == Alternate(|w|);
    assert Value(And([b] + w, m[1..])) == 8 * Value(And(w, Alternate(|w|)));
  }

  lemma {:induction false} NeighboursOfPair(a: nat, b: nat, cs: seq<nat>)
    ensures Neighbours([a, b] + cs) == [a + b, b + (if cs == [] then 0 else cs[0])] + Neighbours(cs)
    ensures Sum([a, b] + cs) == a + b + Sum(cs)
  {
    var all := [a, b] + cs;
    assert all[1..] == [b] + cs && ([b] + cs)[1..] == cs;
    assert all[0] == a && all[1] == b;
  }

  lemma {:induction false} DigitsOfPair(a: nat, b: nat, ss: seq<nat>)
    requires a < 8 && b < 8 && Octals(ss)
    ensures Octals([a, b] + ss) && Digits([a, b] + ss) == [DigitOf(a), DigitOf(b)] + Digits(ss)
  {
    var all := [a, b] + ss;
    assert all[1..] == [b] + ss && ([b] + ss)[1..] == ss;
    assert all[0] == a && all[1] == b;
  }

  lemma {:induction false} PairMasked(a: nat, b: nat, cs: seq<nat>)
    requires a <= 3 && b <= 3 && cs != [] && cs[0] <= 3 && Octals(Neighbours(cs))
    ensures Octals(Neighbours([a, b] + cs)) && Sum([a, b] + cs) == a + b + Sum(cs)
    ensures Value(And(Digits(Neighbours([a, b] + cs)), Alternate(|cs| + 2)))
         == a + b + 64 * Value(And(Digits(Neighbours(cs)), Alternate(|cs|)))
  {
    NeighboursOfPair(a, b, cs);
    DigitsOfPair(a + b, b + cs[0], Neighbours(cs));
    AndPair(DigitOf(a + b), DigitOf(b + cs[0]), Digits(Neighbours(cs)));
  }

  lemma {:induction false} TopMasked(cs: seq<nat>)
    requires |cs| == 1 && cs[0] <= 3
    ensures Octals(Neighbours(cs)) && Value(And(Digits(Neighbours(cs)), Alternate(|cs|))) == Sum(cs)
  {
    assert Neighbours(cs) == [cs[0]] && Alternate(|cs|) == [THREE];
    assert DigitOf(cs[0]).And(THREE) == DigitOf(cs[0]);
  }

  /** The mask keeps every second sum; modulo 63 what is left is the sum of all counts. */
  lemma {:induction false} SecondLine(cs: seq<nat>) returns (t: nat)
    requires Small(cs) && |cs| % 2 == 1
    ensures Octals(Neighbours(cs))
    ensures Value(And(Digits(Neighbours(cs)), Alternate(|cs|))) == Sum(cs) + 63 * t
  {
    if |cs| == 1 {
      TopMasked(cs);
      t := 0;
    } else {
      var rest := cs[2..];
      assert cs == [cs[0], cs[1]] + rest && Small(rest);
      t := SecondLine(rest);
      PairMasked(cs[0], cs[1], rest);
      t := Sum(rest) + 64 * t;
    }
  }

  /** ((n + (n >> 3)) & 030707070707) % 63 in 32 bits, the digits of the mask being as many as given. */
  function FoldCounts(n: nat, size: nat): nat
  {
    Value(And(WordOf((n + n / 8) % WORD, size), Alternate(size))) % 63
  }

  lemma {:induction false} FoldedSum(cs: seq<nat>)
    requires Small(cs) && |cs| % 2 == 1 && Sum(cs) < 63 && Sum8(cs) < 3 * 1073741824
    ensures FoldCounts(Sum8(cs), |cs|) == Sum(cs)
  {
    Folded(cs, Sum8(cs), |cs|);
    var t := SecondLine(cs);
    FoldOf(Sum8(cs), |cs|, Digits(Neighbours(cs)));
    Remainder63(Sum(cs), t, Value(And(Digits(Neighbours(cs)), Alternate(|cs|))));
  }

  lemma {:induction false} FoldOf(n: nat, size: nat, w: Word)
    requires |w| == size && WordOf((n + n / 8) % WORD, size) == w
    ensures FoldCounts(n, size) == Value(And(w, Alternate(size))) % 63
  {
  }

  lemma {:induction false} Folded(cs: seq<nat>, n: nat, size: nat)
    requires Small(cs) && cs != [] && n == Sum8(cs) < 3 * 1073741824 && size == |cs|
    ensures Octals(Neighbours(cs)) && WordOf((n + n / 8) % WORD, size) == Digits(Neighbours(cs))
  {
    NeighboursValue(cs);
    NeighboursAreOctal(cs);
    WordOfSum8(Neighbours(cs));
    NoCarry(n, cs[0], Sum8(cs[1..]));
  }

  lemma {:induction false} NoCarry(n: nat, low: nat, high: nat)
    requires n == low + 8 * high && low < 8 && n < 3 * 1073741824
    ensures (n + n / 8) % WORD == n + high
  {
    assert n / 8 == high;
  }

  lemma {:induction false} Remainder63(r: nat, t: nat, n: nat)
    requires r < 63 && n == r + 63 * t
    ensures n % 63 == r
  {
  }

  // ---------- the function ----------

  /** hakmem_popcount, with 32-bit arithmetic: its two lines. */
  function HakmemPopcount(x: Word): nat { FoldCounts(DigitCounts(x) % WORD, |x|) }

  /** A 32-bit word has eleven octal digits. */
  ghost predicate Bits32(x: Word) { |x| == 11 && Value(x) < WORD }

  lemma {:induction false} EveryNumberIsAWord(v: nat)
    requires v < WORD
    ensures Bits32(WordOf(v, 11)) && Value(WordOf(v, 11)) == v
  {
    Powers();
    ValueOfWordOf(v, 11);
  }

  lemma {:induction false} CountsAreSmall(x: Word)
    requires x != [] && Value(x) < 4 * Pow8(|x| - 1)
    ensures Small(Counts(x)) && Sum(Counts(x)) <= 3 * |x| - 1 && Sum8(Counts(x)) < 3 * Pow8(|x| - 1)
  {
    if |x| == 1 {
      assert Counts(x) == [x[0].Ones()] && Value(x) == x[0].Value();
    } else {
      var up := x[1..];
      CountsAreSmall(up);
      SmallStep(x[0].Ones(), Counts(up), |up|);
      assert Counts(x) == [x[0].Ones()] + Counts(up);
    }
  }

  lemma {:induction false} SmallStep(o: nat, cs: seq<nat>, n: nat)
    requires o <= 3 && cs != [] && Small(cs) && Sum(cs) <= 3 * n - 1 && n > 0 && Sum8(cs) < 3 * Pow8(n - 1)
    ensures Small([o] + cs) && Sum([o] + cs) <= 3 * (n + 1) - 1 && Sum8([o] + cs) < 3 * Pow8(n)
  {
    assert ([o] + cs)[1..] == cs;
  }

  lemma {:induction false} LinesCompose(x: Word, n: nat)
    requires DigitCounts(x) == n < WORD
    ensures HakmemPopcount(x) == FoldCounts(n, |x|)
  {
    assert n % WORD == n;
  }

  /** The two lines on a word whose top digit is below 4 and whose value fits in 32 bits. */
  lemma {:induction false} PopcountOf(x: Word)
    requires |x| % 2 == 1 && |x| < 21 && Pow8(|x| - 1) == 1073741824 && Value(x) < WORD
    ensures HakmemPopcount(x) == OneBits(Value(x))
  {
    var cs, ones := Counts(x), OneBits(Value(x));
    assert DigitCounts(x) == Sum8(cs) by { FirstLine(x); }
    assert Sum(cs) == ones by { SumOfCounts(x); }
    CountsAreSmall(x);
    LinesCompose(x, Sum8(cs));
    FoldedSum(cs);
  }

  /** For every 32-bit word the formula counts its one bits. */
  lemma {:induction false} PopcountIsOneBits(x: Word)
    requires Bits32(x)
    ensures HakmemPopcount(x) == OneBits(Value(x))
  {
    Powers();
    PopcountOf(x);
  }

  lemma {:induction false} Powers()
    ensures Pow8(11) == 8589934592 && Pow8(10) == 1073741824
  {
  }
}
