/**
The archives the scan is meant for: members of a header block, data and padding to a whole block,
then blocks that are no headers. The encoding of a header is the ustar interchange format.
*/
module FsSerialize {
  import opened FsInodes
  import opened FsArchive

  datatype Member = Member(header: string, data: string, pad: string)

  /** Blocks needed for n bytes. */
  function BlocksFor(n: nat): nat { (n + BLOCK - 1) / BLOCK }

  /** The data and the padding after it. */
  function Padded(m: Member): string { m.data + m.pad }

  ghost predicate WellFormed(m: Member)
  {
    IsHeader(m.header) && SizeOf(m.header) == |m.data| && |Padded(m)| == BLOCK * BlocksFor(|m.data|)
  }

  ghost predicate AllWellFormed(ms: seq<Member>) { forall i :: 0 <= i < |ms| ==> WellFormed(ms[i]) }

  /** Length of a member in blocks. */
  function Span(m: Member): nat { 1 + BlocksFor(|m.data|) }

  function Serialize(ms: seq<Member>): string
  {
    if ms == [] then "" else ms[0].header + (Padded(ms[0]) + Serialize(ms[1..]))
  }

  /** Whole blocks none of which is a header: the end of the archive. */
  ghost predicate Trailer(t: string)
  {
    |t| == BLOCK * BlocksFor(|t|) && forall k: nat :: BLOCK * k + BLOCK <= |t| ==> !IsHeader(Block(t, k))
  }

  /** The blocks of the members' headers, the first one at block k. */
  ghost function Positions(ms: seq<Member>, k: nat): seq<nat>
  {
    if ms == [] then [] else [k] + Positions(ms[1..], k + Span(ms[0]))
  }

  /** The last block of the data, when it is only partly data, is no header. */
  ghost predicate PlainEnd(m: Member)
    requires WellFormed(m)
  {
    BlocksFor(|m.data|) == |m.data| / BLOCK || !IsHeader(Block(Padded(m), |m.data| / BLOCK))
  }

  ghost predicate AllPlain(ms: seq<Member>)
    requires AllWellFormed(ms)
  {
    forall i :: 0 <= i < |ms| ==> PlainEnd(ms[i])
  }

  ghost function Headers(ms: seq<Member>): (hs: seq<Header>)
    requires AllWellFormed(ms)
  {
    seq(|ms|, i requires 0 <= i < |ms| => assert WellFormed(ms[i]); Decode(ms[i].header, ms[i].data))
  }

  /** From block k on, the buffer holds this text. */
  ghost predicate Holding(buf: string, k: nat, text: string)
  {
    BLOCK * k <= |buf| && buf[BLOCK * k..] == text
  }

  lemma {:induction false} HoldingRest(buf: string, k: nat, first: string, rest: string, n: nat)
    requires Holding(buf, k, first + rest) && |first| == BLOCK * n
    ensures Holding(buf, k + n, rest)
    ensures forall i: nat :: i < n ==> BLOCK * (k + i) + BLOCK <= |buf| && Block(buf, k + i) == Block(first, i)
  {
    var text := buf[BLOCK * k..];
    assert text[|first|..] == rest;
    assert buf[BLOCK * (k + n)..] == text[BLOCK * n..];
    forall i: nat | i < n ensures BLOCK * (k + i) + BLOCK <= |buf| && Block(buf, k + i) == Block(first, i) {
      assert Block(buf, k + i) == text[BLOCK * i..BLOCK * i + BLOCK];
      assert text[BLOCK * i..BLOCK * i + BLOCK] == first[BLOCK * i..BLOCK * i + BLOCK];
    }
  }

  /** Where the scan goes from the header of a member in block k that ends before block next. */
  ghost predicate ScannedMember(buf: string, k: nat, m: Member, next: nat)
    requires WellFormed(m)
  {
    && BlockReadable(buf, k) && IsHeader(Block(buf, k)) && BLOCK * next <= |buf|
    && k < Next(buf, k) && Next(buf, k) <= next
    && if BlocksFor(|m.data|) == |m.data| / BLOCK then Next(buf, k) == next
       else Next(buf, k) == next - 1 && Block(buf, next - 1) == Block(Padded(m), |m.data| / BLOCK)
  }

  lemma {:induction false} MemberScan(buf: string, k: nat, m: Member, after: string)
    requires WellFormed(m) && Holding(buf, k, m.header + (Padded(m) + after))
    ensures ScannedMember(buf, k, m, k + Span(m)) && Holding(buf, k + Span(m), after)
    ensures HeaderAt(buf, k) == Decode(m.header, m.data)
  {
    HoldingRest(buf, k, m.header, Padded(m) + after, 1);
    assert Block(m.header, 0) == m.header;
    assert Block(buf, k + 0) == m.header;
    HoldingRest(buf, k + 1, Padded(m), after, BlocksFor(|m.data|));
    DataAfterHeader(buf, k, m, after);
    var d := |m.data| / BLOCK;
    assert d < BlocksFor(|m.data|) ==> Block(buf, k + 1 + d) == Block(Padded(m), d);
  }

  lemma {:induction false} DataAfterHeader(buf: string, k: nat, m: Member, after: string)
    requires Holding(buf, k + 1, Padded(m) + after)
    ensures BLOCK * k + BLOCK + |m.data| <= |buf| && buf[BLOCK * k + BLOCK..BLOCK * k + BLOCK + |m.data|] == m.data
  {
    var text := buf[BLOCK * (k + 1)..];
    assert text[..|m.data|] == m.data;
    assert buf[BLOCK * k + BLOCK..BLOCK * k + BLOCK + |m.data|] == text[..|m.data|];
  }

  // ---------- the scan of a whole archive ----------

  lemma {:induction false} RestWellFormed(ms: seq<Member>)
    requires AllWellFormed(ms) && ms != []
    ensures WellFormed(ms[0]) && AllWellFormed(ms[1..])
    ensures AllPlain(ms) ==> PlainEnd(ms[0]) && AllPlain(ms[1..])
  {
    forall i | 0 <= i < |ms[1..]| ensures WellFormed(ms[1..][i]) && (AllPlain(ms) ==> PlainEnd(ms[1..][i])) {
      assert ms[1..][i] == ms[i + 1];
    }
  }

  lemma {:induction false} FirstMember(buf: string, k: nat, ms: seq<Member>, t: string)
    requires ms != [] && WellFormed(ms[0]) && Holding(buf, k, Serialize(ms) + t)
    ensures ScannedMember(buf, k, ms[0], k + Span(ms[0]))
    ensures Holding(buf, k + Span(ms[0]), Serialize(ms[1..]) + t)
    ensures HeaderAt(buf, k) == Decode(ms[0].header, ms[0].data)
  {
    var after := Serialize(ms[1..]) + t;
    assert Serialize(ms) + t == ms[0].header + (Padded(ms[0]) + after);
    MemberScan(buf, k, ms[0], after);
  }

  lemma {:induction false} FirstScanned(buf: string, k: nat, ms: seq<Member>, t: string, next: nat)
    requires ms != [] && WellFormed(ms[0]) && Holding(buf, k, Serialize(ms) + t) && next == k + Span(ms[0])
    ensures ScannedMember(buf, k, ms[0], next)
  {
    FirstMember(buf, k, ms, t);
  }

  /** The scan of the trailer hands over nothing. */
  lemma {:induction false} TrailerScan(buf: string, k: nat, t: string, i: nat)
    requires Trailer(t) && Holding(buf, k, t) && i <= BlocksFor(|t|)
    ensures Readable(buf, |buf|, k + i) && Handed(buf, |buf|, k + i) == []
    decreases BlocksFor(|t|) - i
  {
    if i < BlocksFor(|t|) {
      assert t == t + "";
      HoldingRest(buf, k, t, "", BlocksFor(|t|));
      assert Block(buf, k + i) == Block(t, i);
      TrailerScan(buf, k, t, i + 1);
    }
  }

  lemma {:induction false} PastMember(buf: string, k: nat, m: Member, next: nat)
    requires WellFormed(m) && ScannedMember(buf, k, m, next) && PlainEnd(m) && Readable(buf, |buf|, next)
    ensures Readable(buf, |buf|, k) && Handed(buf, |buf|, k) == [k] + Handed(buf, |buf|, next)
  {
    var q := Next(buf, k);
    if q != next {
      assert Next(buf, q) == next;
      assert Handed(buf, |buf|, q) == [] + Handed(buf, |buf|, next);
    }
  }

  lemma {:induction false} NextHolding(buf: string, k: nat, ms: seq<Member>, t: string)
    requires ms != [] && WellFormed(ms[0]) && Holding(buf, k, Serialize(ms) + t)
    ensures Holding(buf, k + Span(ms[0]), Serialize(ms[1..]) + t)
  {
    FirstMember(buf, k, ms, t);
  }

  lemma {:induction false} PastFirst(buf: string, k: nat, ms: seq<Member>, t: string, next: nat)
    requires ms != [] && WellFormed(ms[0]) && PlainEnd(ms[0]) && Holding(buf, k, Serialize(ms) + t)
    requires next == k + Span(ms[0]) && Readable(buf, |buf|, next)
    ensures Readable(buf, |buf|, k) && Handed(buf, |buf|, k) == [k] + Handed(buf, |buf|, next)
  {
    FirstScanned(buf, k, ms, t, next);
    PastMember(buf, k, ms[0], next);
  }

  lemma {:induction false} TrailerOnly(buf: string, k: nat, t: string)
    requires Trailer(t) && Holding(buf, k, Serialize([]) + t)
    ensures Readable(buf, |buf|, k) && Handed(buf, |buf|, k) == []
  {
    assert Serialize([]) + t == t;
    TrailerScan(buf, k, t, 0);
  }

  /** When no last partial block looks like a header, the scan finds exactly the members. */
  lemma {:induction false} ScanFindsMembers(buf: string, k: nat, ms: seq<Member>, t: string)
    requires AllWellFormed(ms) && AllPlain(ms) && Trailer(t) && Holding(buf, k, Serialize(ms) + t)
    ensures Readable(buf, |buf|, k) && Handed(buf, |buf|, k) == Positions(ms, k)
    decreases ms
  {
    if ms == [] {
      TrailerOnly(buf, k, t);
    } else {
      var next := k + Span(ms[0]);
      RestWellFormed(ms);
      NextHolding(buf, k, ms, t);
      ScanFindsMembers(buf, next, ms[1..], t);
      PositionsStep(ms, k, next);
      PastFirst(buf, k, ms, t, next);
    }
  }

  lemma {:induction false} PositionsStep(ms: seq<Member>, k: nat, next: nat)
    requires ms != [] && next == k + Span(ms[0])
    ensures Positions(ms, k) == [k] + Positions(ms[1..], next)
  {
  }

  lemma {:induction false} PositionsLength(ms: seq<Member>, k: nat)
    ensures |Positions(ms, k)| == |ms|
    decreases ms
  {
    if ms != [] { PositionsLength(ms[1..], k + Span(ms[0])); }
  }

  lemma {:induction false} PositionsFirst(ms: seq<Member>, k: nat)
    ensures Positions(ms, k) == [] || Positions(ms, k)[0] == k
  {
  }

  /** The headers at the members' positions are the members' headers. */
  lemma {:induction false} HeadersAtPositions(buf: string, k: nat, ms: seq<Member>, t: string, i: nat)
    requires AllWellFormed(ms) && Holding(buf, k, Serialize(ms) + t) && i < |ms|
    ensures |Positions(ms, k)| == |ms| && ReadableHeader(buf, Positions(ms, k)[i])
    ensures HeaderAt(buf, Positions(ms, k)[i]) == Decode(ms[i].header, ms[i].data)
    decreases ms
  {
    var next := k + Span(ms[0]);
    PositionsLength(ms, k);
    RestWellFormed(ms);
    if i == 0 {
      FirstHeader(buf, k, ms, t);
    } else {
      LaterPosition(ms, k, next, i);
      NextHolding(buf, k, ms, t);
      HeadersAtPositions(buf, next, ms[1..], t, i - 1);
    }
  }

  lemma {:induction false} FirstHeader(buf: string, k: nat, ms: seq<Member>, t: string)
    requires ms != [] && WellFormed(ms[0]) && Holding(buf, k, Serialize(ms) + t)
    ensures ReadableHeader(buf, k) && HeaderAt(buf, k) == Decode(ms[0].header, ms[0].data)
  {
    FirstMember(buf, k, ms, t);
  }

  lemma {:induction false} LaterPosition(ms: seq<Member>, k: nat, next: nat, i: nat)
    requires 0 < i < |ms| && next == k + Span(ms[0])
    ensures ms[i] == ms[1..][i - 1]
    ensures |Positions(ms, k)| == |ms| && |Positions(ms[1..], next)| == |ms| - 1
    ensures Positions(ms, k)[i] == Positions(ms[1..], next)[i - 1]
  {
    PositionsLength(ms, k);
    PositionsLength(ms[1..], next);
  }

  lemma {:induction false} HandedFirst(buf: string, q: nat)
    requires Readable(buf, |buf|, q) && BLOCK * q < |buf| && IsHeader(Block(buf, q))
    ensures Handed(buf, |buf|, q) != [] && Handed(buf, |buf|, q)[0] == q
  {
  }

  /** If the scan finds exactly the members, it steps from the first one to the second. */
  lemma {:induction false} NotFooled(buf: string, k: nat, m: Member, next: nat, positions: seq<nat>)
    requires WellFormed(m) && ScannedMember(buf, k, m, next) && Readable(buf, |buf|, k)
    requires Handed(buf, |buf|, k) == [k] + positions && (positions == [] || positions[0] >= next)
    ensures PlainEnd(m) && Readable(buf, |buf|, next) && Handed(buf, |buf|, next) == positions
  {
    var q := Next(buf, k);
    assert ([k] + Handed(buf, |buf|, q))[1..] == ([k] + positions)[1..];
    if q != next {
      if IsHeader(Block(buf, q)) { HandedFirst(buf, q); }
      assert Handed(buf, |buf|, q) == [] + Handed(buf, |buf|, next);
    }
  }

  lemma {:induction false} FirstNotFooled(buf: string, k: nat, ms: seq<Member>, t: string, next: nat, positions: seq<nat>)
    requires ms != [] && WellFormed(ms[0]) && Holding(buf, k, Serialize(ms) + t)
    requires next == k + Span(ms[0]) && Readable(buf, |buf|, k)
    requires Handed(buf, |buf|, k) == [k] + positions && (positions == [] || positions[0] >= next)
    ensures PlainEnd(ms[0]) && Readable(buf, |buf|, next) && Handed(buf, |buf|, next) == positions
  {
    FirstScanned(buf, k, ms, t, next);
    NotFooled(buf, k, ms[0], next, positions);
  }

  /** A last partial block that looks like a header is handed over although it is none. */
  lemma {:induction false} ScanIsFooled(buf: string, k: nat, ms: seq<Member>, t: string)
    requires AllWellFormed(ms) && Holding(buf, k, Serialize(ms) + t)
    requires Readable(buf, |buf|, k) && Handed(buf, |buf|, k) == Positions(ms, k)
    ensures AllPlain(ms)
    decreases ms
  {
    if ms != [] {
      var next := k + Span(ms[0]);
      RestWellFormed(ms);
      ScanContinues(buf, k, ms, t, next);
      NextHolding(buf, k, ms, t);
      ScanIsFooled(buf, next, ms[1..], t);
      PlainFromRest(ms);
    }
  }

  lemma {:induction false} PlainFromRest(ms: seq<Member>)
    requires AllWellFormed(ms) && ms != [] && AllWellFormed(ms[1..]) && PlainEnd(ms[0]) && AllPlain(ms[1..])
    ensures AllPlain(ms)
  {
    forall i | 0 <= i < |ms| ensures PlainEnd(ms[i]) {
      if i > 0 { assert ms[i] == ms[1..][i - 1]; }
    }
  }

  lemma {:induction false} ScanContinues(buf: string, k: nat, ms: seq<Member>, t: string, next: nat)
    requires ms != [] && WellFormed(ms[0]) && Holding(buf, k, Serialize(ms) + t) && next == k + Span(ms[0])
    requires Readable(buf, |buf|, k) && Handed(buf, |buf|, k) == Positions(ms, k)
    ensures PlainEnd(ms[0]) && Readable(buf, |buf|, next) && Handed(buf, |buf|, next) == Positions(ms[1..], next)
  {
    PositionsFirst(ms[1..], next);
    PositionsStep(ms, k, next);
    FirstNotFooled(buf, k, ms, t, next, Positions(ms[1..], next));
  }

  /** Untar hands MergeFile exactly the headers of the archive, in order, if and only if no last
      partial block of data looks like a header. */
  lemma {:induction false} ScanIsExact(ms: seq<Member>, t: string)
    requires AllWellFormed(ms) && Trailer(t)
    ensures var buf := Serialize(ms) + t;
            AllPlain(ms) <==> Readable(buf, |buf|, 0) && Handed(buf, |buf|, 0) == Positions(ms, 0)
    ensures var buf := Serialize(ms) + t;
            AllPlain(ms) ==> Readable(buf, |buf|, 0) && Scanned(buf, |buf|, 0) == Headers(ms)
  {
    var buf := Serialize(ms) + t;
    assert Holding(buf, 0, buf);
    if AllPlain(ms) {
      ScanFindsMembers(buf, 0, ms, t);
      PositionsLength(ms, 0);
      forall i: nat | i < |ms| ensures Scanned(buf, |buf|, 0)[i] == Headers(ms)[i] {
        HeadersAtPositions(buf, 0, ms, t, i);
      }
    } else if Readable(buf, |buf|, 0) && Handed(buf, |buf|, 0) == Positions(ms, 0) {
      ScanIsFooled(buf, 0, ms, t);
    }
  }

  /** Zero padding alone keeps short rests from looking like a header. */
  lemma {:induction false} ShortRestIsPlain(m: Member)
    requires WellFormed(m) && |m.data| % BLOCK < 262
    requires forall i :: 0 <= i < |m.pad| ==> m.pad[i] == NUL
    ensures PlainEnd(m)
  {
    var d := |m.data| / BLOCK;
    if BlocksFor(|m.data|) != d {
      var b := Block(Padded(m), d);
      assert b[261] == Padded(m)[BLOCK * d + 261] == NUL;
      assert b[257..262][4] == b[261] && "ustar"[4] == 'r';
    }
  }
}
