/**
Reading a ustar archive from a buffer of 512-byte blocks. Bytes are modelled as characters; the
text and number fields of a header are read within its block.
*/
module FsArchive {
  import opened FsInodes
  import opened Options

  const BLOCK := 512
  const NUL: char := 0 as char

  // ---------- fields ----------

  /** The C string at an offset of a block. */
  function CString(b: string, at: nat): string
    decreases |b| - at
  {
    if at >= |b| || b[at] == NUL then "" else [b[at]] + CString(b, at + 1)
  }

  predicate IsOctal(c: char) { '0' <= c <= '7' }

  predicate IsSpace(c: char) { c == ' ' || 9 <= c as int <= 13 }

  /** The octal digits from an offset on, after the digits read so far. */
  function Digits(b: string, at: nat, acc: nat): nat
    decreases |b| - at
  {
    if at < |b| && IsOctal(b[at]) then Digits(b, at + 1, 8 * acc + (b[at] as int - '0' as int)) else acc
  }

  /** strtol in base 8: leading blanks, a sign, digits. */
  function Strtol(b: string, at: nat): int
    decreases |b| - at
  {
    if at >= |b| then 0
    else if IsSpace(b[at]) then Strtol(b, at + 1)
    else if b[at] == '-' then 0 - Digits(b, at + 1, 0)
    else if b[at] == '+' then Digits(b, at + 1, 0)
    else Digits(b, at, 0)
  }

  /** The 32-bit int that has the same low 32 bits. */
  function Wrap(v: int): (n: int)
    ensures -0x8000_0000 <= n < 0x8000_0000
    ensures -0x8000_0000 <= v < 0x8000_0000 ==> n == v
    decreases if v < -0x8000_0000 then -v else if v >= 0x8000_0000 then v + 1 else 0
  {
    if v < -0x8000_0000 then Wrap(v + 0x1_0000_0000)
    else if v >= 0x8000_0000 then Wrap(v - 0x1_0000_0000)
    else v
  }

  lemma {:induction false} WrapIsCongruent(v: int)
    ensures (v - Wrap(v)) % 0x1_0000_0000 == 0
    decreases if v < -0x8000_0000 then -v else if v >= 0x8000_0000 then v + 1 else 0
  {
    if v < -0x8000_0000 {
      WrapIsCongruent(v + 0x1_0000_0000);
    } else if v >= 0x8000_0000 {
      WrapIsCongruent(v - 0x1_0000_0000);
    }
  }

  /** Leading blanks of a number field do not count. */
  lemma {:induction false} BlanksAreSkipped(b: string, at: nat, n: nat)
    requires at + n <= |b| && forall i :: at <= i < at + n ==> IsSpace(b[i])
    ensures Strtol(b, at) == Strtol(b, at + n)
    decreases n
  {
    if n > 0 { BlanksAreSkipped(b, at + 1, n - 1); }
  }

  /** strtol's result, saturated to 64 bits, stored in a 32-bit int. */
  function Int32(v: int): int
  {
    Wrap(if v > 0x7FFF_FFFF_FFFF_FFFF then 0x7FFF_FFFF_FFFF_FFFF
         else if v < -0x8000_0000_0000_0000 then -0x8000_0000_0000_0000 else v)
  }

  function SizeOf(b: string): int { Int32(Strtol(b, 124)) }

  predicate IsHeader(b: string) { |b| == BLOCK && b[257..262] == "ustar" }

  /** A header block together with the bytes that follow it. */
  function Decode(b: string, body: string): Header
    requires |b| == BLOCK
  {
    Header(CString(b, 0), Int32(Strtol(b, 100)), Int32(Strtol(b, 108)), Int32(Strtol(b, 116)),
           SizeOf(b), Int32(Strtol(b, 136)), b[156], CString(b, 157), body)
  }

  // ---------- the scan ----------

  /** The k-th block of the buffer. */
  function Block(buf: string, k: nat): string
    requires BLOCK * k + BLOCK <= |buf|
  {
    buf[BLOCK * k..BLOCK * k + BLOCK]
  }

  ghost predicate BlockReadable(buf: string, k: nat)
  {
    && BLOCK * k + BLOCK <= |buf|
    && (IsHeader(Block(buf, k)) ==> 0 <= SizeOf(Block(buf, k)) <= |buf| - BLOCK * k - BLOCK)
  }

  ghost predicate ReadableWithin(buf: string, k: int) { Inside(buf, k) ==> BlockReadable(buf, k) }

  /** The block looked at after block k: past a block without the magic; past a header and the
      blocks its data fill, the rest of the data being looked at again. */
  function Next(buf: string, k: nat): int
    requires BLOCK * k + BLOCK <= |buf|
  {
    if IsHeader(Block(buf, k)) then k + 1 + SizeOf(Block(buf, k)) / BLOCK else k + 1
  }

  // ---------- when the scan ends ----------

  /** A whole block of the buffer. */
  ghost predicate Inside(buf: string, k: int) { k >= 0 && BLOCK * k + BLOCK <= |buf| }

  /** The block looked at after so many turns from block k, as long as the turns stay in the buffer. */
  ghost function Visited(buf: string, k: int, turns: nat): int
    decreases turns
  {
    if turns == 0 || !Inside(buf, k) then k else Visited(buf, Next(buf, k), turns - 1)
  }

  lemma {:induction false} VisitedLater(buf: string, k: int, m: nat, n: nat)
    ensures Visited(buf, k, m + n) == Visited(buf, Visited(buf, k, m), n)
    decreases m
  {
    if m > 0 && Inside(buf, k) { VisitedLater(buf, Next(buf, k), m - 1, n); }
  }

  /** A header with a negative size that leads back into the buffer. */
  ghost predicate GoesBack(buf: string, k: int)
  {
    Inside(buf, k) && IsHeader(Block(buf, k)) && -BLOCK * (k + 1) <= SizeOf(Block(buf, k)) < 0
  }

  lemma {:induction false} GoesBackWhen(buf: string, k: nat)
    requires Inside(buf, k)
    ensures GoesBack(buf, k) <==> 0 <= Next(buf, k) <= k
  {
  }

  /** Blocks from i on lead forward, and not past k. */
  ghost predicate LeadTo(buf: string, i: int, k: nat)
    requires Inside(buf, k)
  {
    forall j: nat :: i <= j < k ==> j < Next(buf, j) <= k
  }

  lemma {:induction false} StaysBelow(buf: string, lo: nat, i: nat, k: nat, turns: nat)
    requires Inside(buf, k) && lo <= i <= k && LeadTo(buf, lo, k) && lo <= Next(buf, k) <= k
    ensures lo <= Visited(buf, i, turns) <= k
    decreases turns
  {
    if turns > 0 { StaysBelow(buf, lo, Next(buf, i), k, turns - 1); }
  }

  lemma {:induction false} Reaches(buf: string, i: nat, k: nat) returns (turns: nat)
    requires Inside(buf, k) && i <= k && LeadTo(buf, i, k)
    ensures Visited(buf, i, turns) == k
    decreases k - i
  {
    turns := 0;
    if i < k {
      turns := Reaches(buf, Next(buf, i), k);
      turns := turns + 1;
    }
  }

  lemma {:induction false} OneTurn(buf: string, i: nat, turns: nat)
    requires Inside(buf, Visited(buf, i, turns))
    ensures Visited(buf, i, turns + 1) == Next(buf, Visited(buf, i, turns))
  {
    VisitedLater(buf, i, turns, 1);
    var k := Visited(buf, i, turns);
    assert Visited(buf, k, 1) == Visited(buf, Next(buf, k), 0);
  }

  /** The scan from block i never leaves the blocks up to k. */
  ghost predicate StaysWithin(buf: string, i: nat, k: nat)
  {
    forall turns: nat :: i <= Visited(buf, i, turns) <= k
  }

  /** When no block from i on leads past block k, the scan from i stays at k or before it for ever exactly
      when k is a header whose negative size leads back into the buffer, and not before i. */
  lemma {:induction false} ScanHangs(buf: string, i: nat, k: nat)
    requires Inside(buf, k) && i <= k && LeadTo(buf, i, k)
    ensures StaysWithin(buf, i, k)
       <==> IsHeader(Block(buf, k)) && -BLOCK * (k + 1 - i) <= SizeOf(Block(buf, k)) < 0
  {
    if i <= Next(buf, k) <= k {
      forall turns: nat ensures i <= Visited(buf, i, turns) <= k { StaysBelow(buf, i, i, k, turns); }
    } else {
      var turns := Reaches(buf, i, k);
      OneTurn(buf, i, turns);
    }
  }

  /** Every block the scan comes to is looked at without going back. */
  ghost predicate NeverBack(buf: string, k: int)
  {
    forall turns: nat :: !GoesBack(buf, Visited(buf, k, turns))
  }

  lemma {:induction false} AdvancesFor(buf: string, k: int, turns: nat)
    requires Inside(buf, k) && forall n: nat :: n < turns ==> !GoesBack(buf, Visited(buf, k, n))
    ensures Inside(buf, Visited(buf, k, turns)) ==> Visited(buf, k, turns) >= k + turns
    decreases turns
  {
    if turns > 0 {
      assert !GoesBack(buf, Visited(buf, k, 0));
      GoesBackWhen(buf, k);
      var next := Next(buf, k);
      forall n: nat | n < turns - 1 ensures !GoesBack(buf, Visited(buf, next, n)) {
        assert Visited(buf, next, n) == Visited(buf, k, n + 1);
      }
      if Inside(buf, next) { AdvancesFor(buf, next, turns - 1); }
    }
  }

  /** A scan that comes to no header with such a size leaves the buffer in as many turns as there are blocks. */
  lemma {:induction false} ScanEnds(buf: string, k: nat)
    requires NeverBack(buf, k)
    ensures !Inside(buf, Visited(buf, k, |buf| / BLOCK))
  {
    if Inside(buf, k) { AdvancesFor(buf, k, |buf| / BLOCK); }
  }

  ghost predicate NeverLeaves(buf: string, k: int)
  {
    forall turns: nat :: Inside(buf, Visited(buf, k, turns))
  }

  /** Some header that leads back is looked at twice. */
  ghost predicate ComesAgain(buf: string, k: int)
  {
    exists m: nat, n: nat :: m < n && GoesBack(buf, Visited(buf, k, m)) && Visited(buf, k, m) == Visited(buf, k, n)
  }

  lemma {:induction false} StaysOutside(buf: string, k: int, m: nat, n: nat)
    requires m <= n && !Inside(buf, Visited(buf, k, m))
    ensures Visited(buf, k, n) == Visited(buf, k, m)
  {
    VisitedLater(buf, k, m, n - m);
  }

  /** What is looked at twice is looked at for ever. */
  lemma {:induction false} Repeats(buf: string, k: int, m: nat, n: nat, turns: nat)
    requires m < n && Inside(buf, Visited(buf, k, m)) && Visited(buf, k, m) == Visited(buf, k, n)
    ensures Inside(buf, Visited(buf, k, turns))
    decreases turns
  {
    if turns <= n {
      if !Inside(buf, Visited(buf, k, turns)) { StaysOutside(buf, k, turns, n); }
    } else {
      VisitedLater(buf, k, n, turns - n);
      VisitedLater(buf, k, m, turns - n);
      Repeats(buf, k, m, n, m + turns - n);
    }
  }

  lemma {:induction false} DistinctCount(vs: seq<int>, n: nat)
    requires forall i :: 0 <= i < |vs| ==> 0 <= vs[i] < n
    requires forall i, j :: 0 <= i < j < |vs| ==> vs[i] != vs[j]
    ensures |vs| <= n
    decreases n
  {
    if vs != [] {
      assert 0 <= vs[0] < n;
      if i :| 0 <= i < |vs| && vs[i] == n - 1 {
        DistinctCount(vs[..i] + vs[i + 1..], n - 1);
      } else {
        DistinctCount(vs, n - 1);
      }
    }
  }

  /** The scan never leaves the buffer exactly when it comes twice to a header with a negative size that
      leads back into the buffer. */
  lemma {:induction false} ScanNeverEnds(buf: string, k: nat)
    ensures NeverLeaves(buf, k) <==> ComesAgain(buf, k)
  {
    if ComesAgain(buf, k) {
      forall turns: nat ensures Inside(buf, Visited(buf, k, turns)) {
        var m: nat, n: nat :| m < n && GoesBack(buf, Visited(buf, k, m)) && Visited(buf, k, m) == Visited(buf, k, n);
        Repeats(buf, k, m, n, turns);
      }
    }
    if NeverLeaves(buf, k) {
      var m, n := SomeTwice(buf, k);
      assert Inside(buf, Visited(buf, k, m));
      GoesBackBetween(buf, k, m, n);
    }
  }

  lemma {:induction false} SomeTwice(buf: string, k: nat) returns (m: nat, n: nat)
    requires NeverLeaves(buf, k)
    ensures m < n && Visited(buf, k, m) == Visited(buf, k, n)
  {
    var vs := seq(|buf| / BLOCK + 1, (turns: nat) => Visited(buf, k, turns));
    if forall i, j :: 0 <= i < j < |vs| ==> vs[i] != vs[j] {
      forall i | 0 <= i < |vs| ensures 0 <= vs[i] < |buf| / BLOCK { assert Inside(buf, Visited(buf, k, i)); }
      DistinctCount(vs, |buf| / BLOCK);
      assert false;
    }
    m, n :| 0 <= m < n < |vs| && vs[m] == vs[n];
  }

  lemma {:induction false} GoesBackBetween(buf: string, k: nat, m: nat, n: nat)
    requires m < n && Inside(buf, Visited(buf, k, m)) && Visited(buf, k, m) == Visited(buf, k, n)
    ensures ComesAgain(buf, k)
  {
    var v := Visited(buf, k, m);
    VisitedLater(buf, k, m, n - m);
    if forall t: nat :: t < n - m ==> !GoesBack(buf, Visited(buf, v, t)) {
      AdvancesFor(buf, v, n - m);
      assert false;
    }
    var t: nat :| t < n - m && GoesBack(buf, Visited(buf, v, t));
    VisitedLater(buf, k, m, t);
    VisitedLater(buf, k, n, t);
    assert m + t < n + t && Visited(buf, k, m + t) == Visited(buf, k, n + t);
  }

  /** A header block whose size field reads -2000, octal for -1024. */
  function NegativeSize(): (b: string)
    ensures |b| == BLOCK
  {
    seq(124, _ => NUL) + "-2000" + seq(128, _ => NUL) + "ustar" + seq(250, _ => NUL)
  }

  lemma {:induction false} NegativeSizeIsRead()
    ensures IsHeader(NegativeSize()) && SizeOf(NegativeSize()) == -1024
  {
    var b := NegativeSize();
    assert b[257..262] == "ustar";
    assert b[124..129] == "-2000" && b[129] == NUL;
    assert b[124] == '-' && b[125] == '2' && b[126] == '0' && b[127] == '0' && b[128] == '0';
    assert Digits(b, 128, 128) == 1024;
    assert Digits(b, 126, 2) == Digits(b, 127, 16) == Digits(b, 128, 128);
    assert Digits(b, 125, 0) == Digits(b, 126, 2);
  }

  lemma {:induction false} TwoBlocks(a: string, b: string)
    requires |a| == |b| == BLOCK
    ensures Block(a + b, 0) == a && Block(a + b, 1) == b
  {
  }

  /** Behind one plain block it makes the scan go to and fro between both for ever. */
  lemma {:induction false} TwoBlocksHang(plain: string)
    requires |plain| == BLOCK && !IsHeader(plain)
    ensures NeverLeaves(plain + NegativeSize(), 0)
  {
    var buf := plain + NegativeSize();
    NegativeSizeIsRead();
    TwoBlocks(plain, NegativeSize());
    ScanHangs(buf, 0, 1);
    forall turns: nat ensures Inside(buf, Visited(buf, 0, turns)) {
      assert 0 <= Visited(buf, 0, turns) <= 1;
    }
  }

  // ---------- what is handed over ----------

  /** What the scan relies on at every block it visits from block k on: a whole block, and for a
      header a size that is not negative, with the data inside the buffer. */
  ghost predicate Readable(buf: string, len: nat, k: nat)
    decreases len - BLOCK * k
  {
    BLOCK * k < len ==> BlockReadable(buf, k) && k < Next(buf, k) && Readable(buf, len, Next(buf, k))
  }

  ghost predicate AllReadable(buf: string, k: int)
  {
    forall turns: nat :: ReadableWithin(buf, Visited(buf, k, turns))
  }

  /** In whole blocks, the scan may be relied on exactly when every block it comes to can be read. */
  lemma {:induction false} ReadableIsVisited(buf: string, k: nat)
    requires |buf| % BLOCK == 0
    ensures Readable(buf, |buf|, k) <==> AllReadable(buf, k)
    decreases |buf| - BLOCK * k
  {
    if Inside(buf, k) {
      var next := Next(buf, k);
      if k < next { ReadableIsVisited(buf, next); }
      if Readable(buf, |buf|, k) {
        forall turns: nat ensures ReadableWithin(buf, Visited(buf, k, turns)) {
          if turns > 0 { assert ReadableWithin(buf, Visited(buf, next, turns - 1)); }
        }
      }
      if AllReadable(buf, k) {
        assert ReadableWithin(buf, Visited(buf, k, 0));
        forall turns: nat ensures ReadableWithin(buf, Visited(buf, next, turns)) {
          assert Visited(buf, k, turns + 1) == Visited(buf, next, turns);
        }
      }
    }
  }

  /** The blocks that are handed to MergeFile, in order. */
  ghost function Handed(buf: string, len: nat, k: nat): (ks: seq<nat>)
    requires Readable(buf, len, k)
    decreases len - BLOCK * k
  {
    if BLOCK * k >= len then []
    else (if IsHeader(Block(buf, k)) then [k] else []) + Handed(buf, len, Next(buf, k))
  }

  ghost predicate ReadableHeader(buf: string, k: nat)
  {
    BLOCK * k + BLOCK <= |buf| && 0 <= SizeOf(Block(buf, k)) <= |buf| - BLOCK * k - BLOCK
  }

  function HeaderAt(buf: string, k: nat): Header
    requires BLOCK * k + BLOCK <= |buf| && 0 <= SizeOf(Block(buf, k)) <= |buf| - BLOCK * k - BLOCK
  {
    Decode(Block(buf, k), buf[BLOCK * k + BLOCK..BLOCK * k + BLOCK + SizeOf(Block(buf, k))])
  }

  ghost predicate HandedReadable(buf: string, ks: seq<nat>)
  {
    forall i :: 0 <= i < |ks| ==> ReadableHeader(buf, ks[i])
  }

  ghost function HeadersAt(buf: string, ks: seq<nat>): (hs: seq<Header>)
    requires HandedReadable(buf, ks)
  {
    seq(|ks|, i requires 0 <= i < |ks| => assert ReadableHeader(buf, ks[i]); HeaderAt(buf, ks[i]))
  }

  lemma {:induction false} HandedAreReadable(buf: string, len: nat, k: nat)
    requires Readable(buf, len, k)
    ensures HandedReadable(buf, Handed(buf, len, k))
    decreases len - BLOCK * k
  {
    if BLOCK * k < len { HandedAreReadable(buf, len, Next(buf, k)); }
  }

  /** The headers the scan hands over from block k on. */
  ghost function Scanned(buf: string, len: nat, k: nat): (hs: seq<Header>)
    requires Readable(buf, len, k)
  {
    HandedAreReadable(buf, len, k);
    HeadersAt(buf, Handed(buf, len, k))
  }

  lemma {:induction false} ScannedStep(buf: string, len: nat, k: nat)
    requires Readable(buf, len, k) && BLOCK * k < len
    ensures Scanned(buf, len, k) ==
            (if IsHeader(Block(buf, k)) then [HeaderAt(buf, k)] else []) + Scanned(buf, len, Next(buf, k))
  {
    HandedAreReadable(buf, len, k);
  }

  /** One turn of the scan: what it hands over, and what is left to hand over and merge. */
  lemma {:induction false} ScanTurn(buf: string, len: nat, k: nat, t: Table)
    requires Readable(buf, len, k) && BLOCK * k < len && AllNamed(Scanned(buf, len, k))
    ensures var rest := Scanned(buf, len, Next(buf, k));
            && AllNamed(rest)
            && (!IsHeader(Block(buf, k)) ==> Scanned(buf, len, k) == rest)
            && (IsHeader(Block(buf, k)) ==>
                  && Named(HeaderAt(buf, k)) && |Scanned(buf, len, k)| == |rest| + 1
                  && MergeAll(t, Scanned(buf, len, k)) ==
                     var m := Merge(t, HeaderAt(buf, k)); if Failed(m.0) then None else MergeAll(m.1, rest))
  {
    ScannedStep(buf, len, k);
    var rest := Scanned(buf, len, Next(buf, k));
    if IsHeader(Block(buf, k)) {
      var h := HeaderAt(buf, k);
      assert ([h] + rest)[0] == h && ([h] + rest)[1..] == rest;
      forall i | 0 <= i < |rest| ensures Named(rest[i]) { assert rest[i] == ([h] + rest)[i + 1]; }
    } else {
      assert [] + rest == rest;
    }
  }

  /** The position after the data of a header, rounded down to a whole block. */
  method SkipData(q: nat, size: nat) returns (p: nat)
    requires q % BLOCK == 0
    ensures p == q + BLOCK * (size / BLOCK)
  {
    p := q;
    if size != 0 {
      p := p + size;
      if p % BLOCK != 0 {
        p := p - p % BLOCK;
      }
    }
  }

  /** One turn of the scan: the block at p is skipped, or merged and skipped with its data. */
  method UntarBlock(fs: FileSystem, buf: string, p: nat, ghost k: nat) returns (q: nat, ok: bool)
    requires fs.Valid() && p == BLOCK * k && BlockReadable(buf, k)
    requires IsHeader(Block(buf, k)) ==> Named(HeaderAt(buf, k)) && fs.ninodes < fs.inodes.Length
    modifies fs`ninodes, fs.inodes
    ensures fs.Valid() && q == BLOCK * Next(buf, k)
    ensures !IsHeader(Block(buf, k)) ==> ok && fs.Contents() == old(fs.Contents()) && fs.ninodes == old(fs.ninodes)
    ensures IsHeader(Block(buf, k)) ==>
              var m := Merge(old(fs.Contents()), HeaderAt(buf, k));
              ok == !Failed(m.0) && fs.Contents() == m.1 && fs.ninodes <= old(fs.ninodes) + 1
  {
    var b := buf[p..p + BLOCK];
    q := p + BLOCK;
    if b[257..262] != "ustar" {
      return q, true;
    }
    var size := SizeOf(b);
    var h := Decode(b, buf[q..q + size]);
    assert h == HeaderAt(buf, k);
    var m := fs.MergeFile(h);
    ok := !Failed(m);
    q := SkipData(q, size);
  }

  /** Untar: the scan, merging each header as it is found; `ok` is false where the program exits. */
  method Untar(fs: FileSystem, buf: string, len: nat) returns (ok: bool)
    requires fs.Valid() && Readable(buf, len, 0)
    requires AllNamed(Scanned(buf, len, 0)) && fs.ninodes + |Scanned(buf, len, 0)| <= fs.inodes.Length
    modifies fs`ninodes, fs.inodes
    ensures fs.Valid()
    ensures ok <==> MergeAll(old(fs.Contents()), Scanned(buf, len, 0)).Some?
    ensures ok ==> MergeAll(old(fs.Contents()), Scanned(buf, len, 0)) == Some(fs.Contents())
  {
    var p: nat := 0;
    ghost var k: nat := 0;
    ghost var rest := Scanned(buf, len, 0);
    while p < len
      invariant p == BLOCK * k && Readable(buf, len, k) && fs.Valid()
      invariant rest == Scanned(buf, len, k) && AllNamed(rest) && fs.ninodes + |rest| <= fs.inodes.Length
      invariant MergeAll(old(fs.Contents()), Scanned(buf, len, 0)) == MergeAll(fs.Contents(), rest)
      decreases len - p
    {
      ScanTurn(buf, len, k, fs.Contents());
      rest := Scanned(buf, len, Next(buf, k));
      p, ok := UntarBlock(fs, buf, p, k);
      k := Next(buf, k);
      if !ok {
        return false;
      }
    }
    return true;
  }
}
