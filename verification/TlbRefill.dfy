/** A direct-mapped cache of a partial function on pages, refilled on demand. */
module DirectMapped {
  import opened Options

  datatype Line<P, T> = Empty | Line(page: P, data: T)

  /** What a refill leaves in the slot of its page, if the function is defined there. */
  function Refill<P(==), T>(cache: seq<Line<P, T>>, slot: nat, page: P, walk: Option<T>): (c: seq<Line<P, T>>)
    requires slot < |cache|
    ensures |c| == |cache|
  {
    if walk.Some? then cache[slot := Line(page, walk.value)] else cache
  }

  function LookUp<P(==), T>(cache: seq<Line<P, T>>, slot: P -> nat, page: P): Option<T>
  {
    if slot(page) < |cache| && cache[slot(page)].Line? && cache[slot(page)].page == page
    then Some(cache[slot(page)].data) else None
  }

  /** A successful refill makes its page hit, drops the page that was in the slot, and changes nothing else. */
  lemma {:induction false} RefillHits<P, T>(cache: seq<Line<P, T>>, slot: P -> nat, page: P, walk: Option<T>, other: P)
    requires slot(page) < |cache| && walk.Some?
    ensures LookUp(Refill(cache, slot(page), page, walk), slot, other)
         == if other == page then walk else if slot(other) == slot(page) then None else LookUp(cache, slot, other)
  {
  }

  /** The refills of a run of pages. */
  ghost function Refills<P(!new), T>(cache: seq<Line<P, T>>, slot: P -> nat, walk: P -> Option<T>, pages: seq<P>): (c: seq<Line<P, T>>)
    requires forall p :: slot(p) < |cache|
    ensures |c| == |cache|
  {
    if pages == [] then cache
    else
      var n := |pages| - 1;
      Refill(Refills(cache, slot, walk, pages[..n]), slot(pages[n]), pages[n], walk(pages[n]))
  }

  /** The last page of the run that was brought into a slot. */
  ghost function Last<P, T>(slot: P -> nat, walk: P -> Option<T>, pages: seq<P>, i: nat): (last: Option<P>)
    ensures last.Some? ==> last.value in pages && slot(last.value) == i && walk(last.value).Some?
  {
    if pages == [] then None
    else
      var n := |pages| - 1;
      if slot(pages[n]) == i && walk(pages[n]).Some? then Some(pages[n]) else Last(slot, walk, pages[..n], i)
  }

  /** After any run of refills a slot holds the last page brought into it, or what it held before. */
  lemma {:induction false} RunKeepsLast<P(!new), T>(cache: seq<Line<P, T>>, slot: P -> nat, walk: P -> Option<T>, pages: seq<P>, i: nat)
    requires i < |cache| && forall p :: slot(p) < |cache|
    ensures Refills(cache, slot, walk, pages)[i]
         == match Last(slot, walk, pages, i) case None => cache[i] case Some(p) => Line(p, walk(p).value)
  {
    if pages != [] { RunKeepsLast(cache, slot, walk, pages[..|pages| - 1], i); }
  }

  /** A filled line holds the value of its own page, in the slot of that page. */
  ghost predicate Coherent<P, T>(cache: seq<Line<P, T>>, slot: P -> nat, walk: P -> Option<T>, i: nat)
    requires i < |cache|
  {
    cache[i].Line? ==> slot(cache[i].page) == i && walk(cache[i].page) == Some(cache[i].data)
  }

  /** Every run keeps coherent slots coherent, and makes the slots it fills coherent. */
  lemma {:induction false} RunIsCoherent<P(!new), T>(cache: seq<Line<P, T>>, slot: P -> nat, walk: P -> Option<T>, pages: seq<P>, i: nat)
    requires i < |cache| && forall p :: slot(p) < |cache|
    requires Coherent(cache, slot, walk, i) || Last(slot, walk, pages, i).Some?
    ensures Coherent(Refills(cache, slot, walk, pages), slot, walk, i)
  {
    RunKeepsLast(cache, slot, walk, pages, i);
  }

  /** After any run, an answer from a slot that was coherent, or was filled by the run, is the value of the function. */
  lemma {:induction false} HitsAreRight<P(!new), T>(cache: seq<Line<P, T>>, slot: P -> nat, walk: P -> Option<T>, pages: seq<P>, page: P)
    requires forall p :: slot(p) < |cache|
    requires Coherent(cache, slot, walk, slot(page)) || Last(slot, walk, pages, slot(page)).Some?
    ensures var hit := LookUp(Refills(cache, slot, walk, pages), slot, page); hit.Some? ==> hit == walk(page)
  {
    RunIsCoherent(cache, slot, walk, pages, slot(page));
  }
}

/**
Refill of the instruction and data TLBs by walking the page table in physical memory. Addresses,
table words and registers are 32-bit words.
*/
module TlbRefill {
  import opened DirectMapped
  import opened Options

  const SIZE := 128

  // ---------- addresses ----------

  function Vpn(address: bv32): bv32 { address >> 13 }

  function Page(address: bv32): bv32 { address & 0xffff_e000 }

  /** Offset in the top table, which has one word for every 16 MiB. */
  function PgdOffset(address: bv32): bv32 { (address >> 24) << 2 }

  /** Offset in a second table, which has 2048 words. */
  function PteOffset(address: bv32): bv32 { (Vpn(address) & 2047) << 2 }

  /** The two table offsets and the offset in the page determine the address. */
  lemma {:induction false} FieldsAreTheAddress(a: bv32, b: bv32)
    requires PgdOffset(a) == PgdOffset(b) && PteOffset(a) == PteOffset(b) && a & 0x1fff == b & 0x1fff
    ensures a == b
  {
  }

  /** The high eight bits select in the top table and the next eleven in a second one, a word being four bytes. */
  lemma {:induction false} AddressIsItsFields(a: bv32)
    ensures a == (PgdOffset(a) << 22) | (PteOffset(a) << 11) | (a & 0x1fff)
    ensures PgdOffset(a) & 3 == 0 && PteOffset(a) & 3 == 0 && PgdOffset(a) < 1024 && PteOffset(a) < 8192
  {
  }

  lemma {:induction false} PageAndOffset(a: bv32)
    ensures Page(a) | (a & 0x1fff) == a && Page(a) & 0x1fff == 0 && Page(a) == Vpn(a) << 13
  {
  }

  lemma {:induction false} PgdOffsetIsOfPage(a: bv32)
    ensures PgdOffset(a) == PgdOffset(Page(a))
  {
  }

  lemma {:induction false} PteOffsetIsOfPage(a: bv32)
    ensures PteOffset(a) == PteOffset(Page(a))
  {
  }

  lemma {:induction false} VpnIsOfPage(a: bv32)
    ensures Vpn(a) == Vpn(Page(a))
  {
  }

  /** Index of the slot of a page number. */
  function Slot(vpn: bv32): (i: nat)
    ensures i < SIZE
  {
    SlotFits(vpn & 127);
    (vpn & 127) as int
  }

  /** Page numbers share a slot when they agree in the low seven bits. */
  lemma {:induction false} SharedSlot(v: bv32, w: bv32)
    ensures Slot(v) == Slot(w) <==> v & 0x7f == w & 0x7f
  {
    SlotFits(v & 127);
    SlotFits(w & 127);
    if Slot(v) == Slot(w) { SameNumber(v & 127, w & 127); }
  }

  lemma {:induction false} SameNumber(v: bv32, w: bv32)
    requires v as int == w as int
    ensures v == w
  {
    assert (v as int) as bv32 == v && (w as int) as bv32 == w;
  }

  lemma {:induction false} SlotFits(s: bv32)
    requires s <= 127
    ensures s as int < SIZE
  {
  }

  // ---------- memory ----------

  /** Physical memory as the words cpu_openrisc_readl reads. */
  type Memory = bv32 -> bv32

  function Little(b0: bv8, b1: bv8, b2: bv8, b3: bv8): bv32
  {
    (b0 as bv32) | ((b1 as bv32) << 8) | ((b2 as bv32) << 16) | ((b3 as bv32) << 24)
  }

  function Swapped(data: bv32): bv32
  {
    ((data & 0x0000_00ff) << 24) | ((data & 0x0000_ff00) << 8) | ((data & 0x00ff_0000) >> 8) | ((data & 0xff00_0000) >> 24)
  }

  /** cpu_openrisc_readl: four bytes read as a little-endian word, its bytes reversed. */
  function Readl(bytes: bv32 -> bv8, a: bv32): bv32
  {
    Swapped(Little(bytes(a), bytes(a + 1), bytes(a + 2), bytes(a + 3)))
  }

  /** The words of a memory of bytes. */
  function Words(bytes: bv32 -> bv8): Memory { a => Readl(bytes, a) }

  lemma {:induction false} SwappedIsBigEndian(b0: bv8, b1: bv8, b2: bv8, b3: bv8)
    ensures Swapped(Little(b0, b1, b2, b3)) == Little(b3, b2, b1, b0)
  {
  }

  /** The word at an address, its high byte first. */
  function BigEndian(bytes: bv32 -> bv8, a: bv32): bv32 { Little(bytes(a + 3), bytes(a + 2), bytes(a + 1), bytes(a)) }

  function BigEndianWords(bytes: bv32 -> bv8): Memory { a => BigEndian(bytes, a) }

  /** Words are read with their high byte first. */
  lemma {:induction false} ReadlIsBigEndian(bytes: bv32 -> bv8, a: bv32)
    ensures Readl(bytes, a) == BigEndian(bytes, a)
  {
    SwappedIsBigEndian(bytes(a), bytes(a + 1), bytes(a + 2), bytes(a + 3));
  }

  // ---------- page tables ----------

  datatype Side = Insn | Data

  /** No page table, no page, or the translate register of the page. */
  datatype Walked = NoTable | Fault | Found(tr: bv32)

  /** The walk of both refill functions: the top table, a second table, and the page in it. */
  function Walk(mem: Memory, mmucr: bv32, side: Side, address: bv32): Walked
  {
    WalkAt(mem, mmucr, side, PgdOffset(address), PteOffset(address))
  }

  function WalkAt(mem: Memory, mmucr: bv32, side: Side, pgd: bv32, pte: bv32): Walked
  {
    if mmucr == 0 then NoTable
    else if mem(mmucr + pgd) == 0 then Fault
    else PageIn(side, mem(Page(mem(mmucr + pgd)) + pte))
  }

  function PageIn(side: Side, pte: bv32): Walked
  {
    if pte & 1 == 0 then Fault else Found(Translation(side, pte))
  }

  lemma {:induction false} ZeroIsNoPage(side: Side)
    ensures PageIn(side, 0) == Fault
  {
  }

  /** The word of the page, or 0 where there is no second table. */
  function SecondWord(mem: Memory, pointer: bv32, pteOffset: bv32): bv32
  {
    if pointer == 0 then 0 else mem(Page(pointer) + pteOffset)
  }

  lemma {:induction false} WalkReadsSecond(mem: Memory, mmucr: bv32, side: Side, pgd: bv32, pte: bv32)
    requires mmucr != 0
    ensures WalkAt(mem, mmucr, side, pgd, pte) == PageIn(side, SecondWord(mem, mem(mmucr + pgd), pte))
  {
    ZeroIsNoPage(side);
  }

  /** The frame with the bits CI, WOM, A and D, and URE, UWE, SRE and SWE or UXE and SXE. */
  function Translation(side: Side, pte: bv32): bv32
  {
    match side
    case Insn => if pte & 0x7c0 != 0 then (pte & 0xffff_e03a) | 0x0c0 else pte & 0xffff_e03a
    case Data => pte & 0xffff_e3fa
  }

  lemma {:induction false} WalkIsOfPage(mem: Memory, mmucr: bv32, side: Side, a: bv32)
    ensures Walk(mem, mmucr, side, a) == Walk(mem, mmucr, side, Page(a))
  {
    PgdOffsetIsOfPage(a);
    PteOffsetIsOfPage(a);
  }

  /** The frame is the one in the table. */
  lemma {:induction false} InsnFrameIsKept(pte: bv32)
    ensures Translation(Insn, pte) & 0xffff_e000 == pte & 0xffff_e000
  {
  }

  lemma {:induction false} DataFrameIsKept(pte: bv32)
    ensures Translation(Data, pte) & 0xffff_e000 == pte & 0xffff_e000
  {
  }

  /** An instruction page is executable when the table grants any access to it, and not otherwise. */
  lemma {:induction false} ExecuteIsAnyAccess(pte: bv32)
    ensures Translation(Insn, pte) & 0x0c0 == if pte & 0x7c0 != 0 then 0x0c0 else 0
  {
  }

  // bits of an entry of a page table
  const CI: bv32 := 0x002
  const WOM: bv32 := 0x008
  const A: bv32 := 0x010
  const D: bv32 := 0x020
  const URE: bv32 := 0x040
  const UWE: bv32 := 0x080
  const SRE: bv32 := 0x100
  const SWE: bv32 := 0x200

  /** A data page keeps its permissions and its cache bits, and nothing else below the frame. */
  lemma {:induction false} DataBitsAreKept(pte: bv32)
    ensures Translation(Data, pte) & 0x1fff == pte & (URE | UWE | SRE | SWE | D | A | WOM | CI)
  {
  }

  /** An instruction page keeps its cache bits; its two bits of execution stand where the table has read and write of
      the user. */
  lemma {:induction false} InsnBitsAreKept(pte: bv32)
    ensures Translation(Insn, pte) & 0x1f3f == pte & (D | A | WOM | CI)
  {
  }

  // ---------- the TLB as a cache ----------

  /** Match and translate registers. */
  datatype Entry = Entry(mr: bv32, tr: bv32)

  function LineOf(e: Entry): Line<bv32, bv32>
  {
    if e.mr & 1 == 0 then Empty else Line(Page(e.mr), e.tr)
  }

  function Lines(entries: seq<Entry>): (c: seq<Line<bv32, bv32>>)
    ensures |c| == |entries|
  {
    seq(|entries|, i requires 0 <= i < |entries| => LineOf(entries[i]))
  }

  function SlotOf(page: bv32): nat { Slot(Vpn(page)) }

  function Translated(w: Walked): Option<bv32> { if w.Found? then Some(w.tr) else None }

  /** Both registers of the slot are written, or nothing is. */
  function Filled(entries: seq<Entry>, address: bv32, w: Walked): seq<Entry>
    requires |entries| == SIZE
  {
    if w.Found? then entries[Slot(Vpn(address)) := Entry(Page(address) | 1, w.tr)] else entries
  }

  lemma {:induction false} MatchIsValid(page: bv32)
    ensures (page | 1) & 1 == 1
  {
  }

  lemma {:induction false} MatchIsOfPage(a: bv32)
    ensures Page(Page(a) | 1) == Page(a)
  {
  }

  lemma {:induction false} FilledLine(a: bv32, tr: bv32)
    ensures LineOf(Entry(Page(a) | 1, tr)) == Line(Page(a), tr)
  {
    MatchIsValid(Page(a));
    MatchIsOfPage(a);
  }

  lemma {:induction false} LinesUpdate(entries: seq<Entry>, i: nat, e: Entry)
    requires i < |entries|
    ensures Lines(entries[i := e]) == Lines(entries)[i := LineOf(e)]
  {
  }

  /** Filling the registers is a refill of the direct-mapped cache of the page walk. */
  lemma {:induction false} FilledIsRefill(entries: seq<Entry>, a: bv32, w: Walked)
    requires |entries| == SIZE
    ensures Lines(Filled(entries, a, w)) == Refill(Lines(entries), SlotOf(Page(a)), Page(a), Translated(w))
  {
    VpnIsOfPage(a);
    if w.Found? {
      FilledLine(a, w.tr);
      LinesUpdate(entries, Slot(Vpn(a)), Entry(Page(a) | 1, w.tr));
    }
  }

  /** Filling for the addresses of a run, with fixed page tables. */
  ghost function FilledBy(entries: seq<Entry>, mem: Memory, mmucr: bv32, side: Side, addresses: seq<bv32>): (e: seq<Entry>)
    requires |entries| == SIZE
    ensures |e| == SIZE
  {
    if addresses == [] then entries
    else
      var n := |addresses| - 1;
      Filled(FilledBy(entries, mem, mmucr, side, addresses[..n]), addresses[n], Walk(mem, mmucr, side, addresses[n]))
  }

  ghost function PageWalk(mem: Memory, mmucr: bv32, side: Side): bv32 -> Option<bv32>
  {
    page => Translated(Walk(mem, mmucr, side, page))
  }

  ghost function Pages(addresses: seq<bv32>): (p: seq<bv32>)
    ensures |p| == |addresses|
  {
    seq(|addresses|, i requires 0 <= i < |addresses| => Page(addresses[i]))
  }

  lemma {:induction false} RunIsRefills(entries: seq<Entry>, mem: Memory, mmucr: bv32, side: Side, addresses: seq<bv32>)
    requires |entries| == SIZE
    ensures Lines(FilledBy(entries, mem, mmucr, side, addresses))
         == Refills(Lines(entries), SlotOf, PageWalk(mem, mmucr, side), Pages(addresses))
  {
    if addresses != [] {
      var n := |addresses| - 1;
      var before, a := FilledBy(entries, mem, mmucr, side, addresses[..n]), addresses[n];
      RunIsRefills(entries, mem, mmucr, side, addresses[..n]);
      WalkIsOfPage(mem, mmucr, side, a);
      FilledIsRefill(before, a, Walk(mem, mmucr, side, a));
      assert Pages(addresses)[..n] == Pages(addresses[..n]);
    }
  }

  /** The frame and permissions a TLB gives an address. */
  function LookUpAddress(entries: seq<Entry>, address: bv32): Option<bv32>
  {
    LookUp(Lines(entries), SlotOf, Page(address))
  }

  /** Slot i is empty, or holds the walk of a page of its own. */
  ghost predicate SlotIsRight(entries: seq<Entry>, mem: Memory, mmucr: bv32, side: Side, i: nat)
    requires i < |entries|
  {
    Coherent(Lines(entries), SlotOf, PageWalk(mem, mmucr, side), i)
  }

  /** The run brings a page into slot i. */
  ghost predicate FillsSlot(mem: Memory, mmucr: bv32, side: Side, addresses: seq<bv32>, i: nat)
  {
    Last(SlotOf, PageWalk(mem, mmucr, side), Pages(addresses), i).Some?
  }

  /** With fixed tables, any run of refills keeps right slots right and makes the slots it fills right. */
  lemma {:induction false} RunKeepsSlots(entries: seq<Entry>, mem: Memory, mmucr: bv32, side: Side, addresses: seq<bv32>, i: nat)
    requires |entries| == SIZE && i < SIZE
    requires SlotIsRight(entries, mem, mmucr, side, i) || FillsSlot(mem, mmucr, side, addresses, i)
    ensures SlotIsRight(FilledBy(entries, mem, mmucr, side, addresses), mem, mmucr, side, i)
  {
    RunIsRefills(entries, mem, mmucr, side, addresses);
    RunIsCoherent(Lines(entries), SlotOf, PageWalk(mem, mmucr, side), Pages(addresses), i);
  }

  /** From any entries, a hit in a slot that was right before or filled by the run is the walk of the tables. */
  lemma {:induction false} HitsAreWalks(entries: seq<Entry>, mem: Memory, mmucr: bv32, side: Side, addresses: seq<bv32>, address: bv32)
    requires |entries| == SIZE
    requires SlotIsRight(entries, mem, mmucr, side, SlotOf(Page(address)))
          || FillsSlot(mem, mmucr, side, addresses, SlotOf(Page(address)))
    ensures var hit := LookUpAddress(FilledBy(entries, mem, mmucr, side, addresses), address);
      hit.Some? ==> Walk(mem, mmucr, side, address) == Found(hit.value)
  {
    RunIsRefills(entries, mem, mmucr, side, addresses);
    WalkIsOfPage(mem, mmucr, side, address);
    HitsAreRight(Lines(entries), SlotOf, PageWalk(mem, mmucr, side), Pages(addresses), Page(address));
  }

  /** In terms of bytes: such a hit is the walk of the tables in memory, whose words have their high byte first. */
  lemma {:induction false} HitsAreInMemory(entries: seq<Entry>, bytes: bv32 -> bv8, mmucr: bv32, side: Side,
                                           addresses: seq<bv32>, address: bv32)
    requires |entries| == SIZE
    requires SlotIsRight(entries, Words(bytes), mmucr, side, SlotOf(Page(address)))
          || FillsSlot(Words(bytes), mmucr, side, addresses, SlotOf(Page(address)))
    ensures var hit := LookUpAddress(FilledBy(entries, Words(bytes), mmucr, side, addresses), address);
      hit.Some? ==> Walk(BigEndianWords(bytes), mmucr, side, address) == Found(hit.value)
  {
    HitsAreWalks(entries, Words(bytes), mmucr, side, addresses, address);
    WalkOfWords(bytes, mmucr, side, PgdOffset(address), PteOffset(address));
  }

  lemma {:induction false} WalkOfWords(bytes: bv32 -> bv8, mmucr: bv32, side: Side, pgd: bv32, pte: bv32)
    ensures WalkAt(Words(bytes), mmucr, side, pgd, pte) == WalkAt(BigEndianWords(bytes), mmucr, side, pgd, pte)
  {
    var pointer := Words(bytes)(mmucr + pgd);
    WordIsBigEndian(bytes, mmucr + pgd);
    WordIsBigEndian(bytes, Page(pointer) + pte);
    SameWalk(Words(bytes), BigEndianWords(bytes), mmucr, side, pgd, pte, pointer);
  }

  lemma {:induction false} WordIsBigEndian(bytes: bv32 -> bv8, a: bv32)
    ensures Words(bytes)(a) == BigEndianWords(bytes)(a)
  {
    ReadlIsBigEndian(bytes, a);
  }

  lemma {:induction false} SameWalk(mem: Memory, same: Memory, mmucr: bv32, side: Side, pgd: bv32, pte: bv32, pointer: bv32)
    requires mem(mmucr + pgd) == same(mmucr + pgd) == pointer && mem(Page(pointer) + pte) == same(Page(pointer) + pte)
    ensures WalkAt(mem, mmucr, side, pgd, pte) == WalkAt(same, mmucr, side, pgd, pte)
  {
    if mmucr != 0 {
      WalkReadsSecond(mem, mmucr, side, pgd, pte);
      WalkReadsSecond(same, mmucr, side, pgd, pte);
      SameSecond(mem, same, pointer, pte);
    }
  }

  lemma {:induction false} SameSecond(mem: Memory, same: Memory, pointer: bv32, pte: bv32)
    requires mem(Page(pointer) + pte) == same(Page(pointer) + pte)
    ensures SecondWord(mem, pointer, pte) == SecondWord(same, pointer, pte)
  {
  }

  /** A successful refill answers its whole page, and changes the answer of no page of another slot. */
  lemma {:induction false} FillAnswers(entries: seq<Entry>, mem: Memory, mmucr: bv32, side: Side, address: bv32, other: bv32)
    requires |entries| == SIZE && Walk(mem, mmucr, side, address).Found?
    ensures LookUpAddress(Filled(entries, address, Walk(mem, mmucr, side, address)), other)
         == if Page(other) == Page(address) then Some(Walk(mem, mmucr, side, address).tr)
            else if SlotOf(Page(other)) == SlotOf(Page(address)) then None else LookUpAddress(entries, other)
  {
    var w := Walk(mem, mmucr, side, address);
    FilledIsRefill(entries, address, w);
    RefillHits(Lines(entries), SlotOf, Page(address), Translated(w), Page(other));
  }

  // ---------- the machine ----------

  /** The exceptions of the refill; NoException is 0. */
  datatype Exception = NoException | ItlbMiss | DtlbMiss | Ipf | Dpf

  function ExceptionOf(side: Side, w: Walked): Exception
  {
    match w
    case Found(_) => NoException
    case NoTable => if side == Insn then ItlbMiss else DtlbMiss
    case Fault => if side == Insn then Ipf else Dpf
  }

  /** No table gives a miss, no page in it a fault, each on its side. */
  lemma {:induction false} ExceptionsAre(mem: Memory, mmucr: bv32, side: Side, a: bv32) returns (pte: bv32)
    ensures pte == SecondWord(mem, mem(mmucr + PgdOffset(a)), PteOffset(a))
    ensures ExceptionOf(side, Walk(mem, mmucr, side, a)) ==
            if mmucr == 0 then (match side case Insn => ItlbMiss case Data => DtlbMiss)
            else if pte & 1 == 0 then (match side case Insn => Ipf case Data => Dpf)
            else NoException
  {
    pte := SecondWord(mem, mem(mmucr + PgdOffset(a)), PteOffset(a));
    if mmucr != 0 {
      WalkReadsSecond(mem, mmucr, side, PgdOffset(a), PteOffset(a));
      ExceptionOfPage(side, pte);
    }
  }

  lemma {:induction false} ExceptionOfPage(side: Side, pte: bv32)
    ensures ExceptionOf(side, PageIn(side, pte)) ==
            if pte & 1 == 0 then (match side case Insn => Ipf case Data => Dpf) else NoException
  {
  }

  class Mmu {
    var immucr: bv32
    var dmmucr: bv32
    const itlb: array<Entry>
    const dtlb: array<Entry>
    var exception: Exception
    var eear: bv32

    constructor ()
      ensures Ready() && fresh(itlb) && fresh(dtlb)
      ensures forall i :: 0 <= i < SIZE ==> itlb[i] == Entry(0, 0) && dtlb[i] == Entry(0, 0)
    {
      immucr, dmmucr, exception, eear := 0, 0, NoException, 0;
      itlb := new Entry[SIZE](i => Entry(0, 0));
      dtlb := new Entry[SIZE](i => Entry(0, 0));
    }

    ghost predicate Ready() { itlb.Length == SIZE && dtlb.Length == SIZE && itlb != dtlb }

    ghost function WalkOf(mem: Memory, rw: int, address: bv32): Walked
      reads this
    {
      if rw == 2 then Walk(mem, immucr, Insn, address) else Walk(mem, dmmucr, Data, address)
    }

    /** The second read of both refill functions: the word of the page, or 0 where there is no second table. */
    static method ReadSecond(mem: Memory, pointer: bv32, pteOffset: bv32) returns (pte: bv32)
      ensures pte == SecondWord(mem, pointer, pteOffset)
    {
      if pointer == 0 { return 0; }
      pte := mem(Page(pointer) + pteOffset);
    }

    /** Both reads. */
    static method ReadPte(mem: Memory, mmucr: bv32, pgd: bv32, pteOffset: bv32, ghost side: Side) returns (pte: bv32)
      requires mmucr != 0
      ensures WalkAt(mem, mmucr, side, pgd, pteOffset) == PageIn(side, pte)
    {
      WalkReadsSecond(mem, mmucr, side, pgd, pteOffset);
      pte := ReadSecond(mem, mem(mmucr + pgd), pteOffset);
    }

    /** The writes of both: the translate register, then the match register. */
    static method Store(tlb: array<Entry>, address: bv32, tr: bv32)
      requires tlb.Length == SIZE
      modifies tlb
      ensures tlb[..] == Filled(old(tlb[..]), address, Found(tr))
    {
      var idx := Slot(Vpn(address));
      tlb[idx] := tlb[idx].(tr := tr);
      tlb[idx] := tlb[idx].(mr := Page(address) | 1);
    }

    static method InsnTranslation(pte: bv32) returns (tr: bv32)
      ensures tr == Translation(Insn, pte)
    {
      tr := pte & 0xffff_e03a;
      if pte & 0x7c0 != 0 { tr := tr | 0x0c0; }
    }

    /** cpu_openrisc_hw_itlb_fill. */
    method HwItlbFill(mem: Memory, address: bv32) returns (e: Exception)
      requires Ready()
      modifies itlb
      ensures e == ExceptionOf(Insn, Walk(mem, immucr, Insn, address))
      ensures itlb[..] == Filled(old(itlb[..]), address, Walk(mem, immucr, Insn, address))
    {
      if immucr == 0 { return ItlbMiss; }
      var pte := ReadPte(mem, immucr, PgdOffset(address), PteOffset(address), Insn);
      if pte & 1 == 0 { return Ipf; }
      var tr := InsnTranslation(pte);
      Store(itlb, address, tr);
      return NoException;
    }

    /** cpu_openrisc_hw_dtlb_fill. */
    method HwDtlbFill(mem: Memory, address: bv32) returns (e: Exception)
      requires Ready()
      modifies dtlb
      ensures e == ExceptionOf(Data, Walk(mem, dmmucr, Data, address))
      ensures dtlb[..] == Filled(old(dtlb[..]), address, Walk(mem, dmmucr, Data, address))
    {
      if dmmucr == 0 { return DtlbMiss; }
      var pte := ReadPte(mem, dmmucr, PgdOffset(address), PteOffset(address), Data);
      if pte & 1 == 0 { return Dpf; }
      Store(dtlb, address, pte & 0xffff_e3fa);
      return NoException;
    }

    /** cpu_openrisc_raise_mmu_exception where no entry matched: 1 when an exception is recorded. */
    method RaiseNoMatch(mem: Memory, address: bv32, rw: int) returns (ret: int)
      requires Ready()
      modifies this`exception, this`eear, itlb, dtlb
      ensures itlb[..] == if rw == 2 then Filled(old(itlb[..]), address, WalkOf(mem, rw, address)) else old(itlb[..])
      ensures dtlb[..] == if rw == 2 then old(dtlb[..]) else Filled(old(dtlb[..]), address, WalkOf(mem, rw, address))
      ensures WalkOf(mem, rw, address).Found? ==> ret == 0 && exception == old(exception) && eear == old(eear)
      ensures !WalkOf(mem, rw, address).Found? ==>
        ret == 1 && eear == address && exception == ExceptionOf(if rw == 2 then Insn else Data, WalkOf(mem, rw, address))
    {
      var e;
      if rw == 2 {
        e := HwItlbFill(mem, address);
      } else {
        e := HwDtlbFill(mem, address);
      }
      if e == NoException { return 0; }
      exception := e;
      eear := address;
      return 1;
    }

    /**
    The no-match path of cpu_openrisc_handle_mmu_fault: the second lookup is made exactly when no
    exception is recorded, and gives the translation of the tables.
    */
    method HandleNoMatch(mem: Memory, address: bv32, rw: int) returns (ret: int, again: Option<bv32>)
      requires Ready()
      modifies this`exception, this`eear, itlb, dtlb
      ensures ret == (if WalkOf(mem, rw, address).Found? then 0 else 1)
      ensures again == Translated(WalkOf(mem, rw, address))
    {
      ghost var was := if rw == 2 then itlb[..] else dtlb[..];
      ret := RaiseNoMatch(mem, address, rw);
      again := None;
      if ret == 0 {
        again := LookUpAddress(if rw == 2 then itlb[..] else dtlb[..], address);
        if rw == 2 {
          FillAnswers(was, mem, immucr, Insn, address, address);
        } else {
          FillAnswers(was, mem, dmmucr, Data, address, address);
        }
      }
    }
  }
}
