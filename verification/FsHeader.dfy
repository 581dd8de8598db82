/**
Header blocks in the ustar interchange format (pax in POSIX.1-2008, "ustar Interchange Format"):
NUL-padded text fields and zero-padded octal number fields at fixed offsets.
*/
module FsHeader {
  import opened Arithmetic
  import opened FsInodes
  import opened FsArchive
  import opened FsSerialize

  function Nuls(n: nat): (s: string) { seq(n, _ => NUL) }

  predicate NoNul(s: string) { NUL !in s }

  /** A text field of n bytes. */
  function Text(s: string, n: nat): (f: string)
    requires |s| <= n
    ensures |f| == n
  {
    s + Nuls(n - |s|)
  }

  /** v has at most n octal digits. */
  ghost predicate Fits(v: int, n: nat) { v >= 0 && (if n == 0 then v == 0 else Fits(v / 8, n - 1)) }

  function Octal(v: nat, n: nat): (f: string)
    ensures |f| == n
  {
    if n == 0 then "" else Octal(v / 8, n - 1) + ['0' + (v % 8) as char]
  }

  /** A number field: n octal digits and a NUL. */
  function Number(v: nat, n: nat): (f: string)
    ensures |f| == n + 1
  {
    Octal(v, n) + [NUL]
  }

  /** What a header needs to fit the format. */
  ghost predicate Encodable(h: Header)
  {
    && NoNul(h.name) && |h.name| < 100 && NoNul(h.linkname) && |h.linkname| < 100
    && Fits(h.mode, 7) && Fits(h.uid, 7) && Fits(h.gid, 7)
    && Fits(h.size, 11) && Fits(h.mtime, 11) && h.mtime < 0x8000_0000
    && h.size == |h.body| < 0x8000_0000
  }

  /** The header block; checksum and the fields after the magic are not read by the scan. */
  function Encode(h: Header, chksum: string, tail: string): (b: string)
    requires |h.name| <= 100 && |h.linkname| <= 100 && |chksum| == 8 && |tail| == 250
    requires h.mode >= 0 && h.uid >= 0 && h.gid >= 0 && h.size >= 0 && h.mtime >= 0
    ensures |b| == BLOCK
  {
    Text(h.name, 100) + (Number(h.mode, 7) + (Number(h.uid, 7) + (Number(h.gid, 7) + (Number(h.size, 11)
    + (Number(h.mtime, 11) + (chksum + ([h.typeflag] + (Text(h.linkname, 100) + ("ustar" + tail)))))))))
  }

  /** Field f sits at an offset of the block. */
  predicate At(b: string, at: nat, f: string) { at + |f| <= |b| && b[at..at + |f|] == f }

  lemma {:induction false} AtFirst(b: string, at: nat, f: string, rest: string)
    requires at <= |b| && b[at..] == f + rest
    ensures At(b, at, f) && b[at + |f|..] == rest
  {
    assert b[at..][..|f|] == f && b[at..][|f|..] == rest;
  }

  lemma {:induction false} EncodedFields(h: Header, chksum: string, tail: string)
    requires |h.name| <= 100 && |h.linkname| <= 100 && |chksum| == 8 && |tail| == 250
    requires h.mode >= 0 && h.uid >= 0 && h.gid >= 0 && h.size >= 0 && h.mtime >= 0
    ensures var b := Encode(h, chksum, tail);
            && At(b, 0, Text(h.name, 100)) && At(b, 100, Number(h.mode, 7)) && At(b, 108, Number(h.uid, 7))
            && At(b, 116, Number(h.gid, 7)) && At(b, 124, Number(h.size, 11)) && At(b, 136, Number(h.mtime, 11))
            && At(b, 156, [h.typeflag]) && At(b, 157, Text(h.linkname, 100)) && At(b, 257, "ustar")
  {
    var b := Encode(h, chksum, tail);
    var r9 := "ustar" + tail;
    var r8 := Text(h.linkname, 100) + r9;
    var r7 := [h.typeflag] + r8;
    var r6 := chksum + r7;
    var r5 := Number(h.mtime, 11) + r6;
    var r4 := Number(h.size, 11) + r5;
    var r3 := Number(h.gid, 7) + r4;
    var r2 := Number(h.uid, 7) + r3;
    var r1 := Number(h.mode, 7) + r2;
    assert b[0..] == b;
    AtFirst(b, 0, Text(h.name, 100), r1);
    AtFirst(b, 100, Number(h.mode, 7), r2);
    AtFirst(b, 108, Number(h.uid, 7), r3);
    AtFirst(b, 116, Number(h.gid, 7), r4);
    AtFirst(b, 124, Number(h.size, 11), r5);
    AtFirst(b, 136, Number(h.mtime, 11), r6);
    AtFirst(b, 148, chksum, r7);
    AtFirst(b, 156, [h.typeflag], r8);
    AtFirst(b, 157, Text(h.linkname, 100), r9);
    AtFirst(b, 257, "ustar", tail);
  }

  lemma {:induction false} ReadText(b: string, at: nat, s: string, n: nat)
    requires |s| < n && NoNul(s) && At(b, at, Text(s, n))
    ensures CString(b, at) == s
    decreases |s|
  {
    var f := Text(s, n);
    assert b[at] == f[0];
    if s != "" {
      assert f[1..] == Text(s[1..], n - 1);
      assert b[at + 1..at + 1 + |f[1..]|] == b[at..at + |f|][1..];
      ReadText(b, at + 1, s[1..], n - 1);
    }
  }

  lemma {:induction false} ReadDigits(b: string, at: nat, v: nat, n: nat)
    requires Fits(v, n) && At(b, at, Octal(v, n))
    ensures Digits(b, at, 0) == Digits(b, at + n, v)
    decreases n
  {
    if n > 0 {
      var f := Octal(v, n);
      assert f[..n - 1] == Octal(v / 8, n - 1);
      assert b[at..at + (n - 1)] == b[at..at + n][..n - 1];
      ReadDigits(b, at, v / 8, n - 1);
      assert b[at + n - 1] == b[at..at + n][n - 1] == f[n - 1];
      assert f[n - 1] as int - '0' as int == v % 8;
      assert 8 * (v / 8) + v % 8 == v;
    }
  }

  lemma {:induction false} ReadNumber(b: string, at: nat, v: nat, n: nat)
    requires 0 < n && Fits(v, n) && At(b, at, Number(v, n))
    ensures Strtol(b, at) == v
  {
    var f := Number(v, n);
    assert f[..n] == Octal(v, n);
    assert b[at..at + n] == b[at..at + (n + 1)][..n];
    ReadDigits(b, at, v, n);
    assert b[at + n] == b[at..at + (n + 1)][n] == NUL;
    FirstDigit(v, n);
    assert b[at] == b[at..at + n][0];
  }

  lemma {:induction false} FirstDigit(v: nat, n: nat)
    requires n > 0
    ensures IsOctal(Octal(v, n)[0])
  {
    if n > 1 { FirstDigit(v / 8, n - 1); }
  }

  lemma {:induction false} FitsBound(v: int, n: nat)
    requires Fits(v, n)
    ensures 0 <= v < Pow8(n)
  {
    if n > 0 { FitsBound(v / 8, n - 1); }
  }

  lemma {:induction false} SmallNumber(v: int)
    requires Fits(v, 7)
    ensures 0 <= v < 0x8000_0000
  {
    FitsBound(v, 7);
    assert Pow8(7) == 2097152;
  }

  /** Reading back an encoded header gives the header. */
  lemma {:induction false} DecodeEncode(h: Header, chksum: string, tail: string)
    requires Encodable(h) && |chksum| == 8 && |tail| == 250
    ensures IsHeader(Encode(h, chksum, tail)) && SizeOf(Encode(h, chksum, tail)) == |h.body|
    ensures Decode(Encode(h, chksum, tail), h.body) == h
  {
    var b := Encode(h, chksum, tail);
    EncodedFields(h, chksum, tail);
    ReadText(b, 0, h.name, 100);
    ReadText(b, 157, h.linkname, 100);
    ReadNumber(b, 100, h.mode, 7);
    ReadNumber(b, 108, h.uid, 7);
    ReadNumber(b, 116, h.gid, 7);
    ReadNumber(b, 124, h.size, 11);
    ReadNumber(b, 136, h.mtime, 11);
    SmallNumber(h.mode);
    SmallNumber(h.uid);
    SmallNumber(h.gid);
    assert b[156] == b[156..157][0];
  }

  // ---------- archives of headers ----------

  /** Checksum and trailing fields of a header block, which may be anything of the right length. */
  type Extras = f: Header -> (string, string) | forall h :: |f(h).0| == 8 && |f(h).1| == 250
    ghost witness h => (Nuls(8), Nuls(250))

  ghost function MemberOf(h: Header, extras: Extras): (m: Member)
    requires Encodable(h)
  {
    SmallNumber(h.mode);
    SmallNumber(h.uid);
    SmallNumber(h.gid);
    FitsBound(h.size, 11);
    FitsBound(h.mtime, 11);
    Member(Encode(h, extras(h).0, extras(h).1), h.body, Nuls(BLOCK * BlocksFor(|h.body|) - |h.body|))
  }

  ghost predicate AllEncodable(hs: seq<Header>) { forall i :: 0 <= i < |hs| ==> Encodable(hs[i]) }

  ghost function Members(hs: seq<Header>, extras: Extras): (ms: seq<Member>)
    requires AllEncodable(hs)
  {
    seq(|hs|, i requires 0 <= i < |hs| => assert Encodable(hs[i]); MemberOf(hs[i], extras))
  }

  lemma {:induction false} MemberOfWellFormed(h: Header, extras: Extras)
    requires Encodable(h)
    ensures WellFormed(MemberOf(h, extras))
    ensures Decode(MemberOf(h, extras).header, MemberOf(h, extras).data) == h
  {
    DecodeEncode(h, extras(h).0, extras(h).1);
  }

  /** Untar of the encoding of any list of headers whose data do not end in the likeness of a
      header finds exactly that list, data included. */
  lemma {:induction false} ArchiveRoundTrip(hs: seq<Header>, extras: Extras, t: string)
    requires AllEncodable(hs) && Trailer(t)
    ensures AllWellFormed(Members(hs, extras))
    ensures var buf := Serialize(Members(hs, extras)) + t;
            AllPlain(Members(hs, extras)) ==> Readable(buf, |buf|, 0) && Scanned(buf, |buf|, 0) == hs
  {
    var ms := Members(hs, extras);
    forall i | 0 <= i < |ms| ensures WellFormed(ms[i]) && Decode(ms[i].header, ms[i].data) == hs[i] {
      assert Encodable(hs[i]);
      MemberOfWellFormed(hs[i], extras);
    }
    ScanIsExact(ms, t);
    assert Headers(ms) == hs;
  }

  /** A file of 262 bytes that end in the magic of a header. */
  function LooksLikeHeader(): Header { Header("a", 420, 0, 0, 262, 0, '0', "", Nuls(257) + "ustar") }

  lemma {:induction false} FitsZero(n: nat)
    ensures Fits(0, n)
  {
    if n > 0 { FitsZero(n - 1); }
  }

  lemma {:induction false} LooksEncodable()
    ensures Encodable(LooksLikeHeader())
  {
    FitsZero(4);
    FitsZero(7);
    FitsZero(8);
    FitsZero(11);
    assert Fits(6, 5) && Fits(52, 6) && Fits(420, 7);
    assert Fits(4, 9) && Fits(32, 10) && Fits(262, 11);
  }

  /** Archived alone, it is not scanned as it should be. */
  lemma {:induction false} FileFoolsScan(extras: Extras, t: string)
    requires Trailer(t)
    ensures Encodable(LooksLikeHeader()) && WellFormed(MemberOf(LooksLikeHeader(), extras))
    ensures var ms := [MemberOf(LooksLikeHeader(), extras)]; var buf := Serialize(ms) + t;
            !(Readable(buf, |buf|, 0) && Handed(buf, |buf|, 0) == Positions(ms, 0))
  {
    LooksEncodable();
    var h := LooksLikeHeader();
    var m := MemberOf(h, extras);
    MemberOfWellFormed(h, extras);
    assert Block(Padded(m), 0)[257..262] == "ustar";
    assert !PlainEnd([m][0]);
    ScanIsExact([m], t);
  }
}
