/**
Saving a pixmap as a 24-bit bitmap file and loading a bitmap file into a pixmap, over the bytes of
the file. A pixmap is a block of pixels of one or two bytes, the top row first.
*/
module Bmp {
  import opened Arithmetic

  const MEMSIZE := 4 * 1024 * 1024

  // ---------- pixels ----------

  datatype Colour = Colour(r: bv8, g: bv8, b: bv8)

  /** The bytes of a pixel, for pixelsize 1 and 2. */
  datatype Pixel = One(d: bv8) | Two(d: bv8, e: bv8)

  /** fb_set_pixel. */
  function Packed(c: Colour, size: nat): Pixel
  {
    if size == 1 then One((0xe0 & c.r) | (0x1c & (c.g >> 3)) | (0x03 & (c.b >> 6)))
    else Two((0xe0 & (c.g << 2)) | (0x1f & (c.r >> 3)), 0x80 | (0x7c & (c.b >> 1)) | (0x03 & (c.g >> 6)))
  }

  /** fb_get_pixel. */
  function Unpacked(p: Pixel): Colour
  {
    match p
    case One(d) => Colour(d & 0xe0, (d & 0x1c) << 3, (d & 0x03) << 6)
    case Two(d, e) => Colour((d & 0x1f) << 3, ((e & 0x03) << 6) | ((d & 0xe0) >> 2), (e & 0x7c) << 1)
  }

  function Size(p: Pixel): nat { if p.One? then 1 else 2 }

  ghost predicate OfSize(p: seq<Pixel>, size: nat) { forall k :: 0 <= k < |p| ==> Size(p[k]) == size }

  /** The high bit of a two-byte pixel set. */
  function Marked(p: Pixel): Pixel { if p.One? then p else Two(p.d, p.e | 0x80) }

  function AllMarked(p: seq<Pixel>): (q: seq<Pixel>)
    ensures |q| == |p|
  {
    seq(|p|, k requires 0 <= k < |p| => Marked(p[k]))
  }

  /** Taking a pixel apart and packing it again sets its high bit, and changes nothing else. */
  lemma {:induction false} PackUnpacked(p: Pixel)
    ensures Packed(Unpacked(p), Size(p)) == Marked(p)
    ensures Unpacked(Marked(p)) == Unpacked(p)
  {
    match p
    case One(d) => assert (0xe0 & (d & 0xe0)) | (0x1c & (((d & 0x1c) << 3) >> 3)) | (0x03 & (((d & 0x03) << 6) >> 6)) == d;
    case Two(d, e) => RepackTwo(d, e);
  }

  lemma {:induction false} RepackTwo(d: bv8, e: bv8)
    ensures Packed(Unpacked(Two(d, e)), 2) == Two(d, e | 0x80) && Unpacked(Two(d, e | 0x80)) == Unpacked(Two(d, e))
  {
  }

  /** Where the colours lie: three bits of red, three of green and two of blue in one byte; */
  lemma {:induction false} OneByteLayout(c: Colour)
    ensures var p := Packed(c, 1); p.One? && p.d >> 5 == c.r >> 5 && (p.d >> 2) & 7 == c.g >> 5 && p.d & 3 == c.b >> 6
    ensures Unpacked(Packed(c, 1)) == Colour(c.r & 0xe0, c.g & 0xe0, c.b & 0xc0)
  {
  }

  /** five bits each in two bytes, red lowest and green across both bytes, below a high bit that is set. */
  lemma {:induction false} TwoByteLayout(c: Colour)
    ensures var p := Packed(c, 2);
      && p.Two? && p.d & 0x1f == c.r >> 3 && p.d >> 5 == (c.g >> 3) & 7
      && p.e & 3 == c.g >> 6 && (p.e >> 2) & 0x1f == c.b >> 3 && p.e & 0x80 == 0x80
  {
    LowByte(c.r, c.g);
    HighByte(c.g, c.b);
  }

  lemma {:induction false} LowByte(r: bv8, g: bv8)
    ensures var d := (0xe0 & (g << 2)) | (0x1f & (r >> 3)); d & 0x1f == r >> 3 && d >> 5 == (g >> 3) & 7
  {
  }

  lemma {:induction false} HighByte(g: bv8, b: bv8)
    ensures var e := 0x80 | (0x7c & (b >> 1)) | (0x03 & (g >> 6)); e & 3 == g >> 6 && (e >> 2) & 0x1f == b >> 3 && e & 0x80 == 0x80
  {
  }

  /** So packing and taking apart keeps the high five bits of every colour. */
  lemma {:induction false} TwoByteColour(c: Colour)
    ensures Unpacked(Packed(c, 2)) == Colour(c.r & 0xf8, c.g & 0xf8, c.b & 0xf8)
  {
    RedBack(c.r, c.g);
    GreenBack(c.r, c.g, c.b);
    BlueBack(c.g, c.b);
  }

  lemma {:induction false} RedBack(r: bv8, g: bv8)
    ensures (((0xe0 & (g << 2)) | (0x1f & (r >> 3))) & 0x1f) << 3 == r & 0xf8
  {
  }

  lemma {:induction false} GreenBack(r: bv8, g: bv8, b: bv8)
    ensures (((0x80 | (0x7c & (b >> 1)) | (0x03 & (g >> 6))) & 0x03) << 6) | ((((0xe0 & (g << 2)) | (0x1f & (r >> 3))) & 0xe0) >> 2) == g & 0xf8
  {
  }

  lemma {:induction false} BlueBack(g: bv8, b: bv8)
    ensures ((0x80 | (0x7c & (b >> 1)) | (0x03 & (g >> 6))) & 0x7c) << 1 == b & 0xf8
  {
  }

  // ---------- bytes of a file ----------

  type File = seq<bv8>

  /** What fgetc gives, as an unsigned character: EOF becomes 0xff. */
  function Fgetc(file: File, pos: nat): bv8 { if pos < |file| then file[pos] else 0xff }

  lemma {:induction false} Successor(b: bv8)
    requires b != 0xff
    ensures (b + 1) as int == b as int + 1
  {
  }

  lemma {:induction false} ByteWith(n: nat) returns (b: bv8)
    requires n < 256
    ensures b as int == n
  {
    if n == 0 {
      b := 0;
    } else {
      var c := ByteWith(n - 1);
      Successor(c);
      b := c + 1;
    }
  }

  lemma {:induction false} ByteOfNumber(n: nat)
    requires n < 256
    ensures (n as bv8) as int == n
  {
    var b := ByteWith(n);
    assert (b as int) as bv8 == b;
  }

  // ---------- header ----------

  /** A number of a header, written with its size in bytes, low byte first. */
  datatype Field = Field(size: nat, value: nat)

  function Pow256(n: nat): nat { if n == 0 then 1 else 256 * Pow256(n - 1) }

  function Bytes(v: nat, size: nat): (s: File)
    ensures |s| == size
  {
    if size == 0 then [] else [(v % 256) as bv8] + Bytes(v / 256, size - 1)
  }

  function Number(s: File): nat
  {
    if s == [] then 0 else s[0] as int + 256 * Number(s[1..])
  }

  lemma {:induction false} NumberOfBytes(v: nat, size: nat)
    requires v < Pow256(size)
    ensures Number(Bytes(v, size)) == v
  {
    if size > 0 {
      NumberOfBytes(v / 256, size - 1);
      ByteOfNumber(v % 256);
    }
  }

  /** The fwrite calls. */
  function Written(fields: seq<Field>): File
  {
    if fields == [] then [] else Bytes(fields[0].value, fields[0].size) + Written(fields[1..])
  }

  /** The number a file holds at a position, where it reaches that far. */
  function Num(file: File, pos: nat, size: nat): nat
    requires pos + size <= |file|
  {
    Number(file[pos..pos + size])
  }

  /** Where a field starts. */
  ghost function Offset(fields: seq<Field>, k: nat): nat
    requires k <= |fields|
    decreases k
  {
    if k == 0 then 0 else Offset(fields, k - 1) + fields[k - 1].size
  }

  lemma {:induction false} OffsetBehind(fields: seq<Field>, k: nat)
    requires k < |fields|
    ensures Offset(fields, k + 1) == fields[0].size + Offset(fields[1..], k)
    decreases k
  {
    if k > 0 { OffsetBehind(fields, k - 1); }
  }

  lemma {:induction false} WrittenLength(fields: seq<Field>)
    ensures |Written(fields)| == Offset(fields, |fields|)
  {
    if fields != [] {
      WrittenLength(fields[1..]);
      OffsetBehind(fields, |fields| - 1);
    }
  }

  /** What was written is read back. */
  lemma {:induction false} FieldReadsBack(fields: seq<Field>, rest: File, k: nat)
    requires k < |fields| && fields[k].value < Pow256(fields[k].size)
    ensures Offset(fields, k) + fields[k].size <= |Written(fields) + rest|
    ensures Num(Written(fields) + rest, Offset(fields, k), fields[k].size) == fields[k].value
    decreases k
  {
    var f, more := fields[0], Written(fields[1..]);
    var first := Bytes(f.value, f.size);
    if k == 0 {
      NumberOfBytes(f.value, f.size);
      assert ((first + more) + rest)[0..f.size] == first;
    } else {
      OffsetBehind(fields, k - 1);
      FieldReadsBack(fields[1..], rest, k - 1);
      NumBehind(first, more, rest, Offset(fields[1..], k - 1), fields[k].size);
    }
  }

  lemma {:induction false} NumBehind(a: File, b: File, c: File, pos: nat, size: nat)
    requires pos + size <= |b + c|
    ensures Num((a + b) + c, |a| + pos, size) == Num(b + c, pos, size)
  {
    assert ((a + b) + c)[|a| + pos..|a| + pos + size] == (b + c)[pos..pos + size];
  }

  lemma {:induction false} Regroup(a: File, b: File, c: File, d: File)
    ensures a + (b + c) + d == (a + b) + c + d
    ensures (a + (b + c) + d)[|a|..|a| + |b|] == b
  {
  }

  /** bitmap_file_header, then bitmap_info_header. */
  const DATA_OFFSET := 0x36

  /** The row size the header is computed with. */
  function RowInHeader(w: nat): nat { (w * 3) % 4 + w * 3 }

  function Header(w: nat, h: nat): seq<Field>
  {
    [Field(2, 0x4d42), Field(4, (RowInHeader(w) * h + DATA_OFFSET) % WORD), Field(2, 0), Field(2, 0),
     Field(4, DATA_OFFSET), Field(4, 0x28), Field(4, w), Field(4, h), Field(2, 1), Field(2, 24), Field(4, 0),
     Field(4, RowInHeader(w) * h % WORD), Field(4, 0x0b13), Field(4, 0x0b13), Field(4, 0), Field(4, 0)]
  }

  // ---------- saving ----------

  /** The bytes of pixels: blue, green, red. */
  function Bgr(c: Colour): File { [c.b, c.g, c.r] }

  function PixelBytes(row: seq<Pixel>): File
  {
    if row == [] then [] else Bgr(Unpacked(row[0])) + PixelBytes(row[1..])
  }

  function Padding(n: nat): (p: File)
    ensures |p| == n && forall i :: 0 <= i < n ==> p[i] == 0
  {
    if n == 0 then [] else [0x00] + Padding(n - 1)
  }

  /** The rows of w pixels, bottom row first, each with its padding. */
  function RowsBytes(p: seq<Pixel>, w: nat): File
  {
    if w == 0 || |p| < w then []
    else PixelBytes(p[|p| - w..]) + Padding(w % 4) + RowsBytes(p[..|p| - w], w)
  }

  function Saved(p: seq<Pixel>, w: nat, h: nat): File { Written(Header(w, h)) + RowsBytes(p, w) }

  lemma {:induction false} Appended(file: File, a: File, rest: File, all: File)
    requires file + (a + rest) == all
    ensures (file + a) + rest == all
  {
  }

  /** Three fputc calls. */
  method PutPixel(c: Colour, written: File) returns (file: File)
    ensures file == written + Bgr(c)
  {
    file := written + [c.b];
    file := file + [c.g];
    file := file + [c.r];
  }

  /** The colour of the pixel in column i of row j. */
  method GetPixel(pixmap: array<Pixel>, i: nat, j: nat, w: nat, ghost start: nat) returns (c: Colour)
    requires start == Cells(j, w) && start + i < pixmap.Length
    ensures c == Unpacked(pixmap[..][start + i])
  {
    CellsAre(j, w);
    c := Unpacked(pixmap[i + j * w]);
  }

  lemma {:induction false} FirstPixel(p: seq<Pixel>, at: nat, end: nat)
    requires at < end <= |p|
    ensures PixelBytes(p[at..end]) == Bgr(Unpacked(p[at])) + PixelBytes(p[at + 1..end])
  {
    assert p[at..end][1..] == p[at + 1..end];
  }

  /** The first inner loop of fb_pixmap2bmp: the pixels of row j. */
  method SavePixels(pixmap: array<Pixel>, w: nat, j: nat, written: File, ghost start: nat) returns (file: File)
    requires start == Cells(j, w) && start + w <= pixmap.Length
    ensures file == written + PixelBytes(pixmap[..][start..start + w])
  {
    file := written;
    ghost var p := pixmap[..];
    ghost var all := written + PixelBytes(p[start..start + w]);
    var i := 0;
    while i < w
      invariant 0 <= i <= w
      invariant file + PixelBytes(p[start + i..start + w]) == all
    {
      FirstPixel(p, start + i, start + w);
      var c := GetPixel(pixmap, i, j, w, start);
      Appended(file, Bgr(c), PixelBytes(p[start + i + 1..start + w]), all);
      file := PutPixel(c, file);
      i := i + 1;
    }
    assert p[start + w..start + w] == [];
  }

  /** The second inner loop. */
  method SavePadding(w: nat, written: File) returns (file: File)
    ensures file == written + Padding(w % 4)
  {
    file := written;
    var a := 0;
    while a < w % 4
      invariant 0 <= a <= w % 4
      invariant file + Padding(w % 4 - a) == written + Padding(w % 4)
    {
      Appended(file, [0x00], Padding(w % 4 - a - 1), written + Padding(w % 4));
      file := file + [0x00];
      a := a + 1;
    }
  }

  lemma {:induction false} LastRow(p: seq<Pixel>, start: nat, w: nat)
    requires start + w <= |p|
    ensures RowsBytes(p[..start + w], w) == PixelBytes(p[start..start + w]) + (Padding(w % 4) + RowsBytes(p[..start], w))
  {
    if w > 0 {
      var q := p[..start + w];
      assert q[start..] == p[start..start + w] && q[..start] == p[..start];
    } else {
      assert p[start..start + w] == [];
    }
  }

  /** One row and its padding. */
  method SaveRow(pixmap: array<Pixel>, w: nat, j: nat, written: File, ghost start: nat) returns (file: File)
    requires start == Cells(j, w) && start + w <= pixmap.Length
    ensures file + RowsBytes(pixmap[..][..start], w) == written + RowsBytes(pixmap[..][..start + w], w)
  {
    ghost var p := pixmap[..];
    LastRow(p, start, w);
    ghost var bytes, rest, all := PixelBytes(p[start..start + w]), RowsBytes(p[..start], w), written + RowsBytes(p[..start + w], w);
    Appended(written, bytes, Padding(w % 4) + rest, all);
    var row := SavePixels(pixmap, w, j, written, start);
    Appended(row, Padding(w % 4), rest, all);
    file := SavePadding(w, row);
  }

  /** The loops of fb_pixmap2bmp. */
  method SaveRows(pixmap: array<Pixel>, w: nat, h: nat, head: File) returns (file: File)
    requires pixmap.Length == Cells(h, w)
    ensures file == head + RowsBytes(pixmap[..], w)
  {
    file := head;
    ghost var p, start := pixmap[..], pixmap.Length;
    assert p[..start] == p;
    for j := h downto 0
      invariant start == Cells(j, w) <= |p|
      invariant file + RowsBytes(p[..start], w) == head + RowsBytes(p, w)
    {
      start := start - w;
      file := SaveRow(pixmap, w, j, file, start);
    }
    assert RowsBytes(p[..0], w) == [];
  }

  /** fb_pixmap2bmp: the file it writes. Its loop counters have 16 bits with a sign. */
  method Save(pixmap: array<Pixel>, w: nat, h: nat) returns (file: File)
    requires w <= 32768 && h <= 32768 && pixmap.Length == h * w
    ensures file == Saved(pixmap[..], w, h)
  {
    CellsAre(h, w);
    file := SaveRows(pixmap, w, h, Written(Header(w, h)));
  }

  // ---------- loading ----------

  /** Blue, green and red at a position. */
  function ColourAt(file: File, pos: nat): Colour
  {
    Colour(Fgetc(file, pos + 2), Fgetc(file, pos + 1), Fgetc(file, pos))
  }

  /** File bytes of so many pixels, for 24 and 32 bits per pixel. */
  function Span(n: nat, bpp: nat): nat { if bpp == 24 then 3 * n else 4 * n }

  function Row(file: File, pos: nat, n: nat, bpp: nat, size: nat): (p: seq<Pixel>)
    ensures |p| == n
    decreases n
  {
    if n == 0 then [] else [Packed(ColourAt(file, pos), size)] + Row(file, pos + Span(1, bpp), n - 1, bpp, size)
  }

  /** The pixmap of h rows of a file, the bottom row first. */
  function Image(file: File, pos: nat, w: nat, h: nat, bpp: nat, size: nat): seq<Pixel>
    decreases h
  {
    if h == 0 then []
    else Image(file, pos + Span(w, bpp) + w % 4, w, h - 1, bpp, size) + Row(file, pos, w, bpp, size)
  }

  datatype Loaded = Failed | Overflowing | Picture(w: nat, h: nat, pixels: seq<Pixel>)

  /** w * h * FB_BPP / 8 > MEMSIZE: a product of 32-bit numbers, then one of size_t. */
  predicate TooLarge(w: nat, h: nat, sizeT: nat)
    requires sizeT > 0
  {
    w * h % WORD * 8 % sizeT / 8 > MEMSIZE
  }

  /**
  What a file holds, given the memory check; Overflowing where the 16-bit loop counters do not reach
  the size of the picture.
  */
  function Loading(file: File, size: nat, tooLarge: (nat, nat) -> bool): Loaded
  {
    if |file| < DATA_OFFSET then Failed
    else
      var w, h, bpp := Num(file, 18, 4), Num(file, 22, 4), Num(file, 28, 2);
      if Num(file, 0, 2) != 0x4d42 || Num(file, 30, 4) != 0 || tooLarge(w, h) || (bpp != 24 && bpp != 32) then Failed
      else if w > 32768 || h > 32768 then Overflowing
      else Picture(w, h, Image(file, Num(file, 10, 4), w, h, bpp, size))
  }

  /** A pixmap with the first i pixels of a row stored at its start. */
  ghost function Stored(was: seq<Pixel>, start: nat, row: seq<Pixel>, i: nat): (p: seq<Pixel>)
    requires i <= |row| && start + |row| <= |was|
    ensures |p| == |was|
  {
    if i == 0 then was else Stored(was, start, row, i - 1)[start + i - 1 := row[i - 1]]
  }

  lemma {:induction false} StoredParts(was: seq<Pixel>, start: nat, row: seq<Pixel>, i: nat)
    requires i <= |row| && start + |row| <= |was|
    ensures Stored(was, start, row, i) == was[..start] + row[..i] + was[start + i..]
  {
    if i > 0 { StoredParts(was, start, row, i - 1); }
  }

  lemma {:induction false} StoredRow(was: seq<Pixel>, start: nat, row: seq<Pixel>, end: nat)
    requires start + |row| == end <= |was|
    ensures Stored(was, start, row, |row|)[start..end] == row && Stored(was, start, row, |row|)[end..] == was[end..]
  {
    StoredParts(was, start, row, |row|);
  }

  lemma {:induction false} RowAt(file: File, pos: nat, n: nat, bpp: nat, size: nat, i: nat)
    requires i < n
    ensures Row(file, pos, n, bpp, size)[i] == Packed(ColourAt(file, pos + Span(i, bpp)), size)
    decreases i
  {
    if i > 0 { RowAt(file, pos + Span(1, bpp), n - 1, bpp, size, i - 1); }
  }

  /** Storing the pixel in column i of row j. */
  method SetPixel(pixmap: array<Pixel>, i: nat, j: nat, w: nat, c: Pixel, ghost start: nat)
    requires start == Cells(j, w) && start + i < pixmap.Length
    modifies pixmap
    ensures pixmap[..] == old(pixmap[..])[start + i := c]
  {
    CellsAre(j, w);
    pixmap[i + j * w] := c;
  }

  /** Reading the pixel in column i. */
  method LoadPixel(file: File, pos: nat, bpp: nat, size: nat, ghost from: nat, ghost i: nat, ghost w: nat)
      returns (c: Pixel, next: nat)
    requires i < w && pos == from + Span(i, bpp)
    ensures next == from + Span(i + 1, bpp) && c == Row(file, from, w, bpp, size)[i]
  {
    RowAt(file, from, w, bpp, size, i);
    var b, g, r := Fgetc(file, pos), Fgetc(file, pos + 1), Fgetc(file, pos + 2);
    next := pos + 3;
    if bpp != 24 { next := next + 1; }
    c := Packed(Colour(r, g, b), size);
  }

  /** The first inner loop of bmp2fb_pixmap: the pixels of row j. */
  method LoadPixels(pixmap: array<Pixel>, file: File, pos: nat, w: nat, j: nat, bpp: nat, size: nat, ghost start: nat)
      returns (next: nat)
    requires start == Cells(j, w) && start + w <= pixmap.Length && (bpp == 24 || bpp == 32)
    modifies pixmap
    ensures next == pos + Span(w, bpp)
    ensures pixmap[..] == Stored(old(pixmap[..]), start, Row(file, pos, w, bpp, size), w)
  {
    next := pos;
    ghost var row, was := Row(file, pos, w, bpp, size), pixmap[..];
    var i := 0;
    while i < w
      invariant 0 <= i <= w && next == pos + Span(i, bpp)
      invariant pixmap[..] == Stored(was, start, row, i)
    {
      var c;
      c, next := LoadPixel(file, next, bpp, size, pos, i, w);
      SetPixel(pixmap, i, j, w, c, start);
      i := i + 1;
    }
  }

  /** With j rows left to read, what they give and the pixels from start on are the whole picture. */
  ghost predicate RowsLeft(file: File, pos: nat, w: nat, j: nat, bpp: nat, size: nat, p: seq<Pixel>, start: nat, all: seq<Pixel>)
  {
    start <= |p| && Image(file, pos, w, j, bpp, size) + p[start..] == all
  }

  /** Row j and its padding. */
  method LoadRow(pixmap: array<Pixel>, file: File, pos: nat, w: nat, j: nat, bpp: nat, size: nat,
                 ghost start: nat, ghost all: seq<Pixel>)
      returns (next: nat)
    requires start == Cells(j, w) && (bpp == 24 || bpp == 32)
    requires RowsLeft(file, pos, w, j + 1, bpp, size, pixmap[..], start + w, all)
    modifies pixmap
    ensures RowsLeft(file, next, w, j, bpp, size, pixmap[..], start, all)
  {
    ghost var was := pixmap[..];
    next := LoadPixels(pixmap, file, pos, w, j, bpp, size, start);
    StoredRow(was, start, Row(file, pos, w, bpp, size), start + w);
    Stacked(Image(file, pos + Span(w, bpp) + w % 4, w, j, bpp, size), Row(file, pos, w, bpp, size),
            was, pixmap[..], start, start + w);
    var a := 0;
    while a < w % 4
      invariant 0 <= a <= w % 4 && next == pos + Span(w, bpp) + a
    {
      next := next + 1;
      a := a + 1;
    }
  }

  /** The loops of bmp2fb_pixmap. */
  method LoadRows(pixmap: array<Pixel>, file: File, offset: nat, w: nat, h: nat, bpp: nat, size: nat)
    requires pixmap.Length == Cells(h, w) && (bpp == 24 || bpp == 32)
    modifies pixmap
    ensures pixmap[..] == Image(file, offset, w, h, bpp, size)
  {
    var pos: nat := offset;
    ghost var start, all := pixmap.Length, Image(file, offset, w, h, bpp, size);
    for j := h downto 0
      invariant start == Cells(j, w) && RowsLeft(file, pos, w, j, bpp, size, pixmap[..], start, all)
    {
      start := start - w;
      pos := LoadRow(pixmap, file, pos, w, j, bpp, size, start, all);
    }
    assert pixmap[..][0..] == pixmap[..];
  }

  lemma {:induction false} Stacked(above: seq<Pixel>, row: seq<Pixel>, was: seq<Pixel>, now: seq<Pixel>, start: nat, end: nat)
    requires start <= end <= |now| == |was| && now[start..end] == row && now[end..] == was[end..]
    ensures (above + row) + was[end..] == above + now[start..]
  {
    assert now[start..] == now[start..end] + now[end..];
  }

  /** fread of one number. */
  method Fread(file: File, pos: nat, size: nat) returns (ok: bool, value: nat)
    ensures ok <==> pos + size <= |file|
    ensures ok ==> value == Num(file, pos, size)
  {
    ok := pos + size <= |file|;
    value := if ok then Num(file, pos, size) else 0;
  }

  /** Reading bitmap_file_header. */
  method ReadFileHeader(file: File) returns (ok: bool, bfType: nat, offset: nat)
    ensures ok <==> 14 <= |file|
    ensures ok ==> bfType == Num(file, 0, 2) && offset == Num(file, 10, 4)
  {
    var skipped;
    offset := 0;
    ok, bfType := Fread(file, 0, 2);
    if ok { ok, skipped := Fread(file, 2, 4); }
    if ok { ok, skipped := Fread(file, 6, 2); }
    if ok { ok, skipped := Fread(file, 8, 2); }
    if ok { ok, offset := Fread(file, 10, 4); }
  }

  /** Reading bitmap_info_header. */
  method ReadInfoHeader(file: File) returns (ok: bool, w: nat, h: nat, bpp: nat, compression: nat)
    ensures ok <==> DATA_OFFSET <= |file|
    ensures ok ==> w == Num(file, 18, 4) && h == Num(file, 22, 4)
    ensures ok ==> bpp == Num(file, 28, 2) && compression == Num(file, 30, 4)
  {
    var skipped;
    w, h, bpp, compression := 0, 0, 0, 0;
    ok, skipped := Fread(file, 14, 4);
    if ok { ok, w := Fread(file, 18, 4); }
    if ok { ok, h := Fread(file, 22, 4); }
    if ok { ok, skipped := Fread(file, 26, 2); }
    if ok { ok, bpp := Fread(file, 28, 2); }
    if ok { ok, compression := Fread(file, 30, 4); }
    if ok { ok, skipped := Fread(file, 34, 4); }
    if ok { ok, skipped := Fread(file, 38, 4); }
    if ok { ok, skipped := Fread(file, 42, 4); }
    if ok { ok, skipped := Fread(file, 46, 4); }
    if ok { ok, skipped := Fread(file, 50, 4); }
  }

  /** Allocating and filling the pixmap. */
  method LoadPixmap(file: File, offset: nat, w: nat, h: nat, bpp: nat, size: nat) returns (pixmap: array<Pixel>)
    requires bpp == 24 || bpp == 32
    ensures fresh(pixmap) && pixmap[..] == Image(file, offset, w, h, bpp, size)
  {
    pixmap := new Pixel[h * w];
    CellsAre(h, w);
    LoadRows(pixmap, file, offset, w, h, bpp, size);
  }

  /** bmp2fb_pixmap: 0 and the picture, or 1; 2 stands for the overflow of the loop counters. */
  method Load(file: File, size: nat, tooLarge: (nat, nat) -> bool)
      returns (status: nat, w: nat, h: nat, pixmap: array<Pixel>)
    ensures status == match Loading(file, size, tooLarge) case Failed => 1 case Overflowing => 2 case Picture(_, _, _) => 0
    ensures status == 0 ==> Loading(file, size, tooLarge) == Picture(w, h, pixmap[..]) && fresh(pixmap)
  {
    w, h, pixmap := 0, 0, new Pixel[0];
    var ok, bfType, offset := ReadFileHeader(file);
    if !ok || bfType != 0x4d42 { return 1, w, h, pixmap; }
    var bpp, compression;
    ok, w, h, bpp, compression := ReadInfoHeader(file);
    if !ok || compression != 0 { return 1, w, h, pixmap; }
    if tooLarge(w, h) { return 1, w, h, pixmap; }
    if bpp != 24 && bpp != 32 { return 1, w, h, pixmap; }
    if w > 32768 || h > 32768 { return 2, w, h, pixmap; }
    pixmap := LoadPixmap(file, offset, w, h, bpp, size);
    status := 0;
  }

  // ---------- saving, then loading ----------

  lemma {:induction false} RowReadsBack(before: File, row: seq<Pixel>, rest: File, size: nat)
    requires OfSize(row, size)
    ensures |PixelBytes(row)| == Span(|row|, 24)
    ensures Row(before + PixelBytes(row) + rest, |before|, |row|, 24, size) == AllMarked(row)
    decreases |row|
  {
    if row != [] {
      var p, more := row[0], row[1..];
      var c := Unpacked(p);
      Regroup(before, Bgr(c), PixelBytes(more), rest);
      RowReadsBack(before + Bgr(c), more, rest, size);
      var file := before + PixelBytes(row) + rest;
      FirstColour(before, c, PixelBytes(more), rest);
      PackUnpacked(p);
      assert AllMarked(row) == [Marked(p)] + AllMarked(more);
    }
  }

  lemma {:induction false} FirstColour(before: File, c: Colour, a: File, rest: File)
    ensures ColourAt(before + (Bgr(c) + a) + rest, |before|) == c
  {
    var file := before + (Bgr(c) + a) + rest;
    assert file[|before|] == c.b && file[|before| + 1] == c.g && file[|before| + 2] == c.r;
  }

  lemma {:induction false} RowsReadBack(before: File, p: seq<Pixel>, w: nat, h: nat, size: nat)
    requires OfSize(p, size) && |p| == h * w
    ensures Image(before + RowsBytes(p, w), |before|, w, h, 24, size) == AllMarked(p)
    decreases h
  {
    if h > 0 {
      RowIn(h - 1, w, h);
      var start := (h - 1) * w;
      RowsReadBack(before + PixelBytes(p[start..]) + Padding(w % 4), p[..start], w, h - 1, size);
      ReadBackStep(before, p, w, h, size, start);
    }
  }

  lemma {:induction false} ReadBackStep(before: File, p: seq<Pixel>, w: nat, h: nat, size: nat, start: nat)
    requires OfSize(p, size) && |p| == start + w && h > 0
    requires var written := before + PixelBytes(p[start..]) + Padding(w % 4);
      Image(written + RowsBytes(p[..start], w), |written|, w, h - 1, 24, size) == AllMarked(p[..start])
    ensures Image(before + RowsBytes(p, w), |before|, w, h, 24, size) == AllMarked(p)
  {
    LastRowReadsBack(before, p, w, start, size);
    var written := before + PixelBytes(p[start..]) + Padding(w % 4);
    ImageStep(before + RowsBytes(p, w), |before|, |written|, w, h, size);
    MarkedSplits(p, start);
  }

  lemma {:induction false} ImageStep(file: File, pos: nat, next: nat, w: nat, h: nat, size: nat)
    requires h > 0 && next == pos + (Span(w, 24) + w % 4)
    ensures Image(file, pos, w, h, 24, size) == Image(file, next, w, h - 1, 24, size) + Row(file, pos, w, 24, size)
  {
  }

  lemma {:induction false} MarkedSplits(p: seq<Pixel>, at: nat)
    requires at <= |p|
    ensures AllMarked(p) == AllMarked(p[..at]) + AllMarked(p[at..])
  {
  }

  lemma {:induction false} LastRowReadsBack(before: File, p: seq<Pixel>, w: nat, start: nat, size: nat)
    requires OfSize(p, size) && |p| == start + w
    ensures |PixelBytes(p[start..]) + Padding(w % 4)| == Span(w, 24) + w % 4
    ensures Row(before + RowsBytes(p, w), |before|, w, 24, size) == AllMarked(p[start..])
    ensures before + RowsBytes(p, w) == (before + PixelBytes(p[start..]) + Padding(w % 4)) + RowsBytes(p[..start], w)
  {
    assert p[..start + w] == p && p[start..start + w] == p[start..];
    LastRow(p, start, w);
    var bytes, rest := PixelBytes(p[start..]), RowsBytes(p[..start], w);
    RowReadsBack(before, p[start..], Padding(w % 4) + rest, size);
    RowRegroup(before, bytes, Padding(w % 4), rest);
  }

  lemma {:induction false} RowRegroup(before: File, bytes: File, pad: File, rest: File)
    ensures before + (bytes + (pad + rest)) == before + bytes + (pad + rest) == (before + bytes + pad) + rest
  {
  }

  lemma {:induction false} HeaderOffsets(fields: seq<Field>, w: nat, h: nat)
    requires fields == Header(w, h)
    ensures Offset(fields, 4) == 10 && Offset(fields, 6) == 18 && Offset(fields, 7) == 22
    ensures Offset(fields, 9) == 28 && Offset(fields, 10) == 30 && Offset(fields, 16) == DATA_OFFSET
  {
  }

  lemma {:induction false} HeaderReadsBack(w: nat, h: nat, rest: File)
    requires w <= 32768 && h <= 32768
    ensures |Written(Header(w, h))| == DATA_OFFSET
    ensures var file := Written(Header(w, h)) + rest;
      && Num(file, 0, 2) == 0x4d42 && Num(file, 10, 4) == DATA_OFFSET && Num(file, 18, 4) == w && Num(file, 22, 4) == h
      && Num(file, 28, 2) == 24 && Num(file, 30, 4) == 0
  {
    var fields := Header(w, h);
    HeaderOffsets(fields, w, h);
    WrittenLength(fields);
    Powers();
    FieldsReadBack(fields, rest, w, h);
  }

  lemma {:induction false} FieldsReadBack(fields: seq<Field>, rest: File, w: nat, h: nat)
    requires |fields| == 16 && w < Pow256(4) && h < Pow256(4) && 0x4d42 < Pow256(2) < Pow256(4)
    requires fields[0] == Field(2, 0x4d42) && fields[4] == Field(4, DATA_OFFSET) && fields[6] == Field(4, w)
    requires fields[7] == Field(4, h) && fields[9] == Field(2, 24) && fields[10] == Field(4, 0)
    requires Offset(fields, 4) == 10 && Offset(fields, 6) == 18 && Offset(fields, 7) == 22
    requires Offset(fields, 9) == 28 && Offset(fields, 10) == 30 && |Written(fields)| == DATA_OFFSET
    ensures var file := Written(fields) + rest;
      && Num(file, 0, 2) == 0x4d42 && Num(file, 10, 4) == DATA_OFFSET && Num(file, 18, 4) == w && Num(file, 22, 4) == h
      && Num(file, 28, 2) == 24 && Num(file, 30, 4) == 0
  {
    FieldReadsBack(fields, rest, 0);
    FieldReadsBack(fields, rest, 4);
    FieldReadsBack(fields, rest, 6);
    FieldReadsBack(fields, rest, 7);
    FieldReadsBack(fields, rest, 9);
    FieldReadsBack(fields, rest, 10);
  }

  lemma {:induction false} Powers()
    ensures Pow256(2) == 0x1_0000 && Pow256(4) == WORD
  {
  }

  /**
  A saved pixmap is loaded again exactly when the memory check lets its size pass, and then pixel for
  pixel, with the high bits of two-byte pixels set.
  */
  lemma {:induction false} SaveThenLoad(p: seq<Pixel>, w: nat, h: nat, size: nat, tooLarge: (nat, nat) -> bool)
    requires w <= 32768 && h <= 32768 && |p| == h * w && OfSize(p, size)
    ensures Loading(Saved(p, w, h), size, tooLarge) == if tooLarge(w, h) then Failed else Picture(w, h, AllMarked(p))
  {
    HeaderReadsBack(w, h, RowsBytes(p, w));
    RowsReadBack(Written(Header(w, h)), p, w, h, size);
  }

  /** Loading and saving again gives the same file. */
  lemma {:induction false} SavedAgain(p: seq<Pixel>, w: nat, h: nat)
    ensures Saved(AllMarked(p), w, h) == Saved(p, w, h)
  {
    SameRows(p, w);
  }

  lemma {:induction false} SameRow(row: seq<Pixel>)
    ensures PixelBytes(AllMarked(row)) == PixelBytes(row)
  {
    if row != [] {
      PackUnpacked(row[0]);
      SameRow(row[1..]);
      assert AllMarked(row)[1..] == AllMarked(row[1..]);
    }
  }

  lemma {:induction false} RowBehind(above: seq<Pixel>, row: seq<Pixel>, w: nat)
    requires |row| == w > 0
    ensures RowsBytes(above + row, w) == PixelBytes(row) + Padding(w % 4) + RowsBytes(above, w)
  {
    assert (above + row)[|above|..] == row && (above + row)[..|above|] == above;
  }

  lemma {:induction false} SameRows(p: seq<Pixel>, w: nat)
    ensures RowsBytes(AllMarked(p), w) == RowsBytes(p, w)
    decreases |p|
  {
    if w > 0 && |p| >= w {
      var at := |p| - w;
      SameRow(p[at..]);
      SameRows(p[..at], w);
      MarkedSplits(p, at);
      RowBehind(AllMarked(p[..at]), AllMarked(p[at..]), w);
    }
  }

  /**
  The memory check: with 64-bit sizes it compares the number of pixels with 4 MiB; with 32-bit sizes
  it does so modulo 2^29, and lets some large pictures pass.
  */
  lemma {:induction false} MemoryCheck(w: nat, h: nat)
    requires w <= 32768 && h <= 32768
    ensures TooLarge(w, h, WORD * WORD) <==> w * h > 4194304
    ensures TooLarge(w, h, WORD) <==> w * h % 0x2000_0000 > 4194304
    ensures w * h <= 4194304 ==> !TooLarge(w, h, WORD)
  {
    AreaFits(w, h);
    CheckOf(w * h);
  }

  lemma {:induction false} AreaFits(w: nat, h: nat)
    requires w <= 32768 && h <= 32768
    ensures 0 <= w * h <= 32768 * 32768
  {
    TimesMonotone(0, w, h);
    TimesMonotone(w, 32768, h);
    TimesMonotone(h, 32768, 32768);
  }

  /** Up to 4 MiB of pixels, saving and loading succeeds, and gives every pixel back with its high bit set. */
  lemma {:induction false} SmallPicturesComeBack(p: seq<Pixel>, w: nat, h: nat, size: nat, sizeT: nat)
    requires w <= 32768 && h <= 32768 && |p| == h * w && OfSize(p, size) && (sizeT == WORD || sizeT == WORD * WORD)
    requires w * h <= MEMSIZE
    ensures Loading(Saved(p, w, h), size, Check(sizeT)) == Picture(w, h, AllMarked(p))
  {
    CheckPasses(w, h, sizeT);
    SaveThenLoad(p, w, h, size, Check(sizeT));
  }

  /** The memory check of a machine. */
  function Check(sizeT: nat): (nat, nat) -> bool
    requires sizeT > 0
  {
    (w: nat, h: nat) => TooLarge(w, h, sizeT)
  }

  lemma {:induction false} CheckPasses(w: nat, h: nat, sizeT: nat)
    requires w <= 32768 && h <= 32768 && w * h <= MEMSIZE && (sizeT == WORD || sizeT == WORD * WORD)
    ensures !Check(sizeT)(w, h)
  {
    MemoryCheck(w, h);
  }

  lemma {:induction false} CheckOf(n: nat)
    requires n <= 32768 * 32768
    ensures n % WORD == n && n * 8 % (WORD * WORD) / 8 == n && n * 8 % WORD / 8 == n % 0x2000_0000
  {
    assert n * 8 % WORD == 8 * (n % 0x2000_0000);
  }

  lemma {:induction false} LargePicturePasses()
    ensures 16385 * 32767 > MEMSIZE && !TooLarge(16385, 32767, WORD)
  {
  }

  // ---------- where the pixels are ----------

  lemma {:induction false} PixelBytesAt(row: seq<Pixel>, i: nat)
    requires i < |row|
    ensures |PixelBytes(row)| == 3 * |row| && PixelBytes(row)[3 * i..3 * i + 3] == Bgr(Unpacked(row[i]))
    decreases i
  {
    RowLength(row);
    RowLength(row[1..]);
    if i > 0 {
      PixelBytesAt(row[1..], i - 1);
      assert PixelBytes(row)[3..] == PixelBytes(row[1..]);
      assert PixelBytes(row)[3 * i..3 * i + 3] == PixelBytes(row)[3..][3 * (i - 1)..3 * (i - 1) + 3];
    }
  }

  /** Pixel k of row j, when `below` rows lie below it. */
  lemma {:induction false} RowsBytesAt(p: seq<Pixel>, w: nat, pitch: nat, j: nat, below: nat, i: nat, at: nat)
    requires i < w && |p| == Cells(j + below + 1, w) && pitch == 3 * w + w % 4 && at == Cells(below, pitch) + 3 * i
    ensures Cells(j, w) + i < |p| && at + 3 <= |RowsBytes(p, w)|
    ensures RowsBytes(p, w)[at..at + 3] == Bgr(Unpacked(p[Cells(j, w) + i]))
    decreases below
  {
    var start := Cells(j + below, w);
    var row, above := p[start..], p[..start];
    if below == 0 {
      LastRowBytes(p, w, start, i);
    } else {
      RowsBytesAt(above, w, pitch, j, below - 1, i, at - pitch);
      LowerRowsBytes(p, w, pitch, start, at);
    }
  }

  lemma {:induction false} LastRowBytes(p: seq<Pixel>, w: nat, start: nat, i: nat)
    requires i < w && |p| == start + w
    ensures 3 * i + 3 <= |RowsBytes(p, w)| && RowsBytes(p, w)[3 * i..3 * i + 3] == Bgr(Unpacked(p[start + i]))
  {
    var row := p[start..];
    PixelBytesAt(row, i);
    assert RowsBytes(p, w) == PixelBytes(row) + Padding(w % 4) + RowsBytes(p[..start], w);
    assert RowsBytes(p, w)[3 * i..3 * i + 3] == PixelBytes(row)[3 * i..3 * i + 3];
  }

  lemma {:induction false} LowerRowsBytes(p: seq<Pixel>, w: nat, pitch: nat, start: nat, at: nat)
    requires w > 0 && |p| == start + w && pitch == 3 * w + w % 4 && pitch <= at
    requires at - pitch + 3 <= |RowsBytes(p[..start], w)|
    ensures at + 3 <= |RowsBytes(p, w)| && RowsBytes(p, w)[at..at + 3] == RowsBytes(p[..start], w)[at - pitch..at - pitch + 3]
  {
    var first := PixelBytes(p[start..]) + Padding(w % 4);
    RowLength(p[start..]);
    assert RowsBytes(p, w) == first + RowsBytes(p[..start], w);
    SliceBehind(first, RowsBytes(p[..start], w), at, 3);
  }

  lemma {:induction false} SliceBehind(a: File, b: File, at: nat, n: nat)
    requires |a| <= at && at - |a| + n <= |b|
    ensures (a + b)[at..at + n] == b[at - |a|..at - |a| + n]
  {
  }

  /** The three bytes of the pixel in column i of row j: blue, green, red, behind the header and the rows below it. */
  lemma {:induction false} SavedPixelAt(p: seq<Pixel>, w: nat, h: nat, i: nat, j: nat, at: int)
    requires |p| == h * w && i < w && j < h && at == 54 + (h - 1 - j) * (3 * w + w % 4) + 3 * i
    ensures 0 <= j * w + i < |p| && 0 <= at && at + 3 <= |Saved(p, w, h)|
    ensures var c := Unpacked(p[j * w + i]); Saved(p, w, h)[at..at + 3] == [c.b, c.g, c.r]
  {
    var pitch, below := 3 * w + w % 4, h - 1 - j;
    CellsAre(h, w);
    CellsAre(j, w);
    CellsAre(below, pitch);
    RowsBytesAt(p, w, pitch, j, below, i, at - 54);
    HeaderOffsets(Header(w, h), w, h);
    WrittenLength(Header(w, h));
    SliceBehind(Written(Header(w, h)), RowsBytes(p, w), at, 3);
  }

  lemma {:induction false} ImageLength(file: File, pos: nat, w: nat, h: nat, bpp: nat, size: nat)
    ensures |Image(file, pos, w, h, bpp, size)| == Cells(h, w)
    decreases h
  {
    if h > 0 { ImageLength(file, pos + Span(w, bpp) + w % 4, w, h - 1, bpp, size); }
  }

  lemma {:induction false} BottomRow(file: File, pos: nat, next: nat, w: nat, h: nat, bpp: nat, size: nat, i: nat, k: nat)
    requires h > 0 && i < w && next == pos + Span(w, bpp) + w % 4 && k == Cells(h - 1, w) + i
    ensures k < |Image(file, pos, w, h, bpp, size)|
    ensures Image(file, pos, w, h, bpp, size)[k] == Packed(ColourAt(file, pos + Span(i, bpp)), size)
  {
    ImageLength(file, next, w, h - 1, bpp, size);
    RowAt(file, pos, w, bpp, size, i);
  }

  lemma {:induction false} UpperRows(file: File, pos: nat, next: nat, w: nat, h: nat, bpp: nat, size: nat, k: nat)
    requires h > 0 && next == pos + Span(w, bpp) + w % 4 && k < |Image(file, next, w, h - 1, bpp, size)|
    ensures k < |Image(file, pos, w, h, bpp, size)|
    ensures Image(file, pos, w, h, bpp, size)[k] == Image(file, next, w, h - 1, bpp, size)[k]
  {
  }

  lemma {:induction false} ImageAt(file: File, pos: nat, w: nat, h: nat, bpp: nat, size: nat, pitch: nat,
                                   j: nat, below: nat, i: nat, k: nat, at: nat)
    requires i < w && h == j + below + 1 && pitch == Span(w, bpp) + w % 4
    requires k == Cells(j, w) + i && at == pos + Cells(below, pitch) + Span(i, bpp)
    ensures k < |Image(file, pos, w, h, bpp, size)|
    ensures Image(file, pos, w, h, bpp, size)[k] == Packed(ColourAt(file, at), size)
    decreases below
  {
    if below == 0 {
      BottomRow(file, pos, pos + pitch, w, h, bpp, size, i, k);
    } else {
      ImageAt(file, pos + pitch, w, h - 1, bpp, size, pitch, j, below - 1, i, k, at);
      UpperRows(file, pos, pos + pitch, w, h, bpp, size, k);
    }
  }

  /** The pixel loaded into column i of row j: from three bytes of a row from the bottom, in groups of three or four. */
  lemma {:induction false} LoadedPixelAt(file: File, pos: nat, w: nat, h: nat, bpp: nat, size: nat, i: nat, j: nat, at: nat)
    requires (bpp == 24 || bpp == 32) && i < w && j < h
    requires at == pos + (h - 1 - j) * (bpp / 8 * w + w % 4) + bpp / 8 * i
    ensures 0 <= j * w + i < |Image(file, pos, w, h, bpp, size)|
    ensures Image(file, pos, w, h, bpp, size)[j * w + i]
         == Packed(Colour(Fgetc(file, at + 2), Fgetc(file, at + 1), Fgetc(file, at)), size)
  {
    var below, pitch := h - 1 - j, bpp / 8 * w + w % 4;
    CellsAre(j, w);
    CellsAre(below, pitch);
    ImageAt(file, pos, w, h, bpp, size, pitch, j, below, i, j * w + i, at);
  }

  // ---------- which files are loaded ----------

  /** Numbers are stored with their low byte first. */
  lemma {:induction false} NumIsLittle(file: File, pos: nat)
    requires pos + 4 <= |file|
    ensures Num(file, pos, 2) == file[pos] as int + 256 * file[pos + 1] as int
    ensures Num(file, pos, 4) == file[pos] as int + 256 * file[pos + 1] as int
                               + 65536 * file[pos + 2] as int + 16777216 * file[pos + 3] as int
  {
    LittleNumber(file[pos..pos + 2]);
    LittleNumber(file[pos..pos + 4]);
  }

  lemma {:induction false} LittleNumber(s: File)
    ensures |s| == 2 ==> Number(s) == s[0] as int + 256 * s[1] as int
    ensures |s| == 4 ==> Number(s) == s[0] as int + 256 * s[1] as int + 65536 * s[2] as int + 16777216 * s[3] as int
  {
    if |s| == 4 {
      LittleNumber(s[2..]);
      assert s[1..][1..] == s[2..];
      assert Number(s[1..]) == s[1] as int + 256 * Number(s[2..]);
    } else if |s| == 2 {
      assert s[1..][1..] == [];
      assert Number(s[1..]) == s[1] as int + 256 * Number([]);
    }
  }

  /** Loading fails exactly for a file shorter than both headers, without "BM" at its start, with compression, too
      large, or with other than 24 or 32 bits per pixel. */
  lemma {:induction false} LoadingFails(file: File, size: nat, tooLarge: (nat, nat) -> bool)
    ensures Loading(file, size, tooLarge) == Failed <==>
            || |file| < 54
            || file[0] as int != 0x42 || file[1] as int != 0x4d
            || !(file[30] as int == file[31] as int == file[32] as int == file[33] as int == 0)
            || tooLarge(Num(file, 18, 4), Num(file, 22, 4))
            || !((file[28] as int == 24 || file[28] as int == 32) && file[29] as int == 0)
  {
    if |file| >= 54 {
      NumIsLittle(file, 0);
      NumIsLittle(file, 28);
      NumIsLittle(file, 30);
    }
  }

  /** What else the header of a saved picture says: nothing reserved, an information header of 40 bytes, one plane,
      2835 pixels per meter on both axes, and no table of colours. */
  lemma {:induction false} HeaderConstants(w: nat, h: nat, rest: File)
    ensures |Written(Header(w, h))| == 54
    ensures var file := Written(Header(w, h)) + rest;
      && Num(file, 6, 2) == 0 && Num(file, 8, 2) == 0 && Num(file, 14, 4) == 40 && Num(file, 26, 2) == 1
      && Num(file, 38, 4) == 2835 && Num(file, 42, 4) == 2835 && Num(file, 46, 4) == 0 && Num(file, 50, 4) == 0
  {
    var fields := Header(w, h);
    HeaderOffsets(fields, w, h);
    ConstantOffsets(fields, w, h);
    WrittenLength(fields);
    Powers();
    ConstantsReadBack(fields, rest);
  }

  lemma {:induction false} ConstantOffsets(fields: seq<Field>, w: nat, h: nat)
    requires fields == Header(w, h)
    ensures Offset(fields, 2) == 6 && Offset(fields, 3) == 8 && Offset(fields, 5) == 14 && Offset(fields, 8) == 26
    ensures Offset(fields, 12) == 38 && Offset(fields, 13) == 42 && Offset(fields, 14) == 46 && Offset(fields, 15) == 50
  {
  }

  lemma {:induction false} ConstantsReadBack(fields: seq<Field>, rest: File)
    requires |fields| == 16 && 40 < Pow256(2) && 2835 < Pow256(2) < Pow256(4) && |Written(fields)| == 54
    requires fields[2] == Field(2, 0) && fields[3] == Field(2, 0) && fields[5] == Field(4, 40) && fields[8] == Field(2, 1)
    requires fields[12] == Field(4, 2835) && fields[13] == Field(4, 2835) && fields[14] == Field(4, 0) && fields[15] == Field(4, 0)
    requires Offset(fields, 2) == 6 && Offset(fields, 3) == 8 && Offset(fields, 5) == 14 && Offset(fields, 8) == 26
    requires Offset(fields, 12) == 38 && Offset(fields, 13) == 42 && Offset(fields, 14) == 46 && Offset(fields, 15) == 50
    ensures var file := Written(fields) + rest;
      && Num(file, 6, 2) == 0 && Num(file, 8, 2) == 0 && Num(file, 14, 4) == 40 && Num(file, 26, 2) == 1
      && Num(file, 38, 4) == 2835 && Num(file, 42, 4) == 2835 && Num(file, 46, 4) == 0 && Num(file, 50, 4) == 0
  {
    FieldReadsBack(fields, rest, 2);
    FieldReadsBack(fields, rest, 3);
    FieldReadsBack(fields, rest, 5);
    FieldReadsBack(fields, rest, 8);
    FieldReadsBack(fields, rest, 12);
    FieldReadsBack(fields, rest, 13);
    FieldReadsBack(fields, rest, 14);
    FieldReadsBack(fields, rest, 15);
  }

  // ---------- sizes ----------

  lemma {:induction false} RowsCells(p: seq<Pixel>, w: nat, h: nat, pitch: nat)
    requires |p| == Cells(h, w) && pitch == 3 * w + w % 4
    ensures |RowsBytes(p, w)| == Cells(h, pitch)
    decreases h
  {
    if w == 0 {
      CellsAre(h, pitch);
    } else if h > 0 {
      var start := Cells(h - 1, w);
      RowLength(p[start..]);
      RowsCells(p[..start], w, h - 1, pitch);
      assert RowsBytes(p, w) == PixelBytes(p[start..]) + Padding(w % 4) + RowsBytes(p[..start], w);
    }
  }

  lemma {:induction false} RowsLength(p: seq<Pixel>, w: nat, h: nat)
    requires |p| == h * w
    ensures |RowsBytes(p, w)| == h * (3 * w + w % 4)
  {
    CellsAre(h, w);
    CellsAre(h, 3 * w + w % 4);
    RowsCells(p, w, h, 3 * w + w % 4);
  }

  lemma {:induction false} RowLength(row: seq<Pixel>)
    ensures |PixelBytes(row)| == 3 * |row|
  {
    if row != [] { RowLength(row[1..]); }
  }

  /** Every written row is a multiple of four bytes long. */
  lemma {:induction false} RowsAreAligned(row: seq<Pixel>)
    ensures |PixelBytes(row) + Padding(|row| % 4)| % 4 == 0
  {
    RowLength(row);
  }

  /** The size fields of the header are right exactly for an even width, or no rows. */
  lemma {:induction false} SizeFieldsAreRight(p: seq<Pixel>, w: nat, h: nat)
    requires w <= 32768 && h <= 32768 && |p| == h * w
    ensures Header(w, h)[1].value == |Saved(p, w, h)| <==> w % 2 == 0 || h == 0
    ensures Header(w, h)[11].value == |Saved(p, w, h)| - DATA_OFFSET <==> w % 2 == 0 || h == 0
  {
    HeaderReadsBack(w, h, []);
    RowsLength(p, w, h);
    RowSizes(w, h);
  }

  lemma {:induction false} RowSizes(w: nat, h: nat)
    requires w <= 32768 && h <= 32768
    ensures RowInHeader(w) * h % WORD == RowInHeader(w) * h
    ensures (RowInHeader(w) * h + DATA_OFFSET) % WORD == RowInHeader(w) * h + DATA_OFFSET
    ensures RowInHeader(w) * h == h * (3 * w + w % 4) <==> w % 2 == 0 || h == 0
  {
    TimesMonotone(RowInHeader(w), 3 * 32768 + 3, h);
    FitsWord(RowInHeader(w) * h);
    SameProduct(RowInHeader(w), 3 * w + w % 4, h);
    OddOrEven(w);
  }

  lemma {:induction false} FitsWord(n: nat)
    requires n < WORD - DATA_OFFSET
    ensures n % WORD == n && (n + DATA_OFFSET) % WORD == n + DATA_OFFSET
  {
  }

  lemma {:induction false} RowOf(w: nat, q: nat, r: nat)
    requires 3 * w == 4 * q + r && r < 4
    ensures RowInHeader(w) == 3 * w + r
  {
  }

  lemma {:induction false} Residue(w: nat, q: nat, r: nat)
    requires w == 4 * q + r && r < 4
    ensures w % 4 == r && (w % 2 == 0 <==> r == 0 || r == 2)
  {
  }

  lemma {:induction false} OddOrEvenOf(w: nat, q: nat, r: nat)
    requires w == 4 * q + r && r < 4
    ensures RowInHeader(w) == 3 * w + r <==> r == 0 || r == 2
  {
    if r == 0 {
      RowOf(w, 3 * q, 0);
    } else if r == 1 {
      RowOf(w, 3 * q, 3);
    } else if r == 2 {
      RowOf(w, 3 * q + 1, 2);
    } else {
      RowOf(w, 3 * q + 2, 1);
    }
  }

  lemma {:induction false} OddOrEven(w: nat)
    ensures RowInHeader(w) == 3 * w + w % 4 <==> w % 2 == 0
  {
    OddOrEvenOf(w, w / 4, w % 4);
    Residue(w, w / 4, w % 4);
  }

  lemma {:induction false} SameProduct(a: nat, b: nat, h: nat)
    ensures a * h == h * b <==> a == b || h == 0
  {
    MultiplesApart(a - b, h);
    assert a * h - h * b == (a - b) * h;
  }
}
