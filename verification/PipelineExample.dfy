/** A small dump that goes through all the steps: fixed, packed, given a table, mapped and rebased. */
module PipelineExample {
  import opened Options
  import opened Words
  import opened ImportMetadata
  import opened Pe
  import opened Relocation
  import opened AddressFix
  import opened RelocationCollect
  import opened PackLayout
  import opened Rebase
  import opened Pipeline
  import opened Samples

  const RAN_AT: u64 := 0x1_0000

  function Dump(): bytes { Data(Wide) }

  function Top(): Header { Head(Wide) }

  lemma {:induction false} TopIs()
    ensures |Dump()| == 0x20_0010 && Top().sections == [RELOC, DATA] && HeaderEnd(Top()) == 328
    ensures Top().imageBase == 0x2_0000 && Top().sizeOfImage == 0x20_0010 && Top().fileAlignment == 8
    ensures Top().sectionAlignment == 8 && Top().importRva == 0 && Top().peOffset == 64 && SectionTable(Top()) == 248
  {
    hide Data;
  }

  lemma {:induction false} IsDumped()
    ensures Dumped(Dump(), Top())
  {
    hide Parse, Data;
    WideParses(Wide);
  }

  lemma {:induction false} HoldsPointer()
    ensures RuntimePointer(Dump(), Top(), Some(RAN_AT), 1, 0, 4) && Get(Dump(), 0x20_0008, 8) == 0
  {
    hide Get, HasData, Data;
    Eight(Wide, 0x20_0000);
    Eight(Wide, 0x20_0008);
  }

  /** The dump with its pointer fixed. */
  function Mended(): bytes
  {
    IsDumped();
    Fixed(Dump(), Top(), Some(RAN_AT))
  }

  lemma {:induction false} MendedIs()
    ensures |Mended()| == 0x20_0010 && Parse(Mended()) == Some(Top())
    ensures FilePointer(Mended(), Top(), 8, 1, 0, 4) && Get(Mended(), 0x20_0008, 8) == 0
  {
    hide Parse, Dump, Top, Get, FixSections, Dumped, Scanned, FixWord, RuntimePointer, FilePointer;
    IsDumped();
    TopIs();
    HoldsPointer();
    FixedParses(Dump(), Top(), Some(RAN_AT));
    PointerFixed(Dump(), Top(), Some(RAN_AT), 1, 0, 4);
    DumpedParts(Dump(), Top());
    DataScanned();
    FixSlotwise(Dump(), Top().sections, BasesOf(Top(), Some(RAN_AT)), 1, 1);
    NullStays(BasesOf(Top(), Some(RAN_AT)));
  }

  lemma {:induction false} DataScanned()
    ensures Scanned(Dump(), DATA)
  {
    hide Dump, Get, Scanned;
    HoldsPointer();
  }

  lemma {:induction false} NullStays(b: Bases)
    ensures FixWord(0, b) == 0
  {
  }

  // ---- Packed -------------------------------------------------------------------------------------------

  lemma {:induction false} IsPackable()
    ensures Packable(Mended(), Top())
  {
    hide Parse, Mended;
    MendedIs();
  }

  function Shrunk(): bytes
  {
    IsPackable();
    MendedIs();
    Packed(Mended(), Top())
  }

  function ShrunkHead(): Header { Moved(Mended(), Top()) }

  lemma {:induction false} RelocStaysPut()
    ensures !Moves(RELOC, 0, 0x20_0010) && NextEnd(RELOC, 0, 0x20_0010, 8) == 344
    ensures Moves(DATA, 344, 0x20_0010) && Align(344, 8) == 344
  {
    hide Align;
    AlignIsAlignUp(344, 8);
  }

  lemma {:induction false} StartsOf(ss: seq<Section>, n: nat)
    requires ss == [RELOC, DATA] && n == 0x20_0010
    ensures Start(ss, 0, 0, n, 8, 0) == 328 && Start(ss, 0, 0, n, 8, 1) == 344
  {
    hide Align, Moves, NextEnd;
    RelocStaysPut();
    ReachedLater(ss, 0, 0, n, 8, 1);
    ReachedNow(ss, 1, 344, n, 8);
    ReachedNow(ss, 0, 0, n, 8);
  }

  /** .reloc stays at 328, and .data goes from 0x200000 to right behind it. */
  lemma {:induction false} Starts()
    ensures NewStart(Mended(), Top(), 0) == 328 && NewStart(Mended(), Top(), 1) == 344
  {
    hide Start, Mended, Dump, FilePointer, Parse;
    MendedIs();
    StartsOf(Top().sections, 0x20_0010);
  }

  lemma {:induction false} ShrunkIs()
    ensures ShrunkHead().sections == [RELOC, DATA.(rawOffset := 344)] && Regular(Shrunk(), ShrunkHead())
    ensures ShrunkHead() == Top().(sections := ShrunkHead().sections)
    ensures 360 <= |Shrunk()| && FilePointer(Shrunk(), ShrunkHead(), 8, 1, 0, 4) && Get(Shrunk(), 352, 8) == 0
  {
    hide Parse, Packable, NewStart, Packed, Get, Mended, Data, FilePointer, Regular;
    IsPackable();
    MendedIs();
    Starts();
    IsDumped();
    DumpedParts(Dump(), Top());
    PackedRegular(Mended(), Top(), 0);
    PackedSection(Mended(), Top(), 0);
    PackedSection(Mended(), Top(), 1);
    PointerPackedAt(Mended(), Top(), 1, 0, 4);
    SliceTwice(Mended(), 0x20_0000, 16, 8, 8);
    SliceTwice(Shrunk(), 344, 16, 8, 8);
    GetMoved(Mended(), 0x20_0008, Shrunk(), 352, 8);
  }

  // ---- The table ----------------------------------------------------------------------------------------

  lemma {:induction false} NoImports(data: bytes, g: Header)
    requires g.importRva == 0
    ensures Spans(g, data, 8) == []
  {
  }

  lemma {:induction false} SlotsOfData(p: bytes, s: Section)
    requires 360 <= |p| && Get(p, 344, 8) == 0x2_0004 && Get(p, 352, 8) == 0 && s == DATA.(rawOffset := 344)
    ensures SectionHits(p, s, 0, 8, 0x2_0000, 0x20_0010, []) == [Entry(0x20_0000, DIR64)]
  {
    hide Get;
    SectionHitsOpen(p, s, 0, 8, 0x2_0000, 0x20_0010, []);
    SectionHitsOpen(p, s, 8, 8, 0x2_0000, 0x20_0010, []);
    SectionHitsEnd(p, s, 16, 8, 0x2_0000, 0x20_0010, []);
  }

  /** The one entry the packed file gives rise to. */
  lemma {:induction false} OneEntry()
    requires Regular(Shrunk(), ShrunkHead())
    ensures Listed(Shrunk(), ShrunkHead()) == [Entry(0x20_0000, DIR64)]
  {
    hide Regular, Shrunk, ShrunkHead, Get, Scanned, Data, Spans;
    ShrunkIs();
    var p, g, ss := Shrunk(), ShrunkHead(), ShrunkHead().sections;
    RegularParses(p, g);
    NoImports(p, g);
    PointerIs(p, g, 8, 1, 0, 4);
    SlotsOfData(p, ss[1]);
    DataHitsOpen(p, ss, 8, 0x2_0000, 0x20_0010, []);
    DataHitsOpen(p, ss[1..], 8, 0x2_0000, 0x20_0010, []);
    DataHitsEnd(p, ss[2..], 8, 0x2_0000, 0x20_0010, []);
    assert ss[1..][1..] == ss[2..];
  }

  lemma {:induction false} TwelveBytes()
    ensures TableLength(InsertAll([], [Entry(0x20_0000, DIR64)])) == 12
  {
    var e := Entry(0x20_0000, DIR64);
    assert [e][1..] == [];
    var bs := Insert([], e);
    assert bs == [Block(0x20_0000, [e])] && bs[1..] == [];
    assert InsertAll([], [e]) == bs;
    assert TableLength(bs) == BlockSize(1) + TableLength([]);
  }

  lemma {:induction false} TableIs12()
    requires Regular(Shrunk(), ShrunkHead())
    ensures |Table(Listed(Shrunk(), ShrunkHead()))| == 12
  {
    hide Regular, Shrunk, ShrunkHead, Listed, Table, InsertAll, TableBytes, TableLength, Ordered;
    OneEntry();
    TwelveBytes();
    TableOf(Listed(Shrunk(), ShrunkHead()));
    OrderedBlocks(InsertAll([], [Entry(0x20_0000, DIR64)]));
    TableBytesLength(InsertAll([], [Entry(0x20_0000, DIR64)]));
  }

  lemma {:induction false} IsFinishable()
    ensures Finishable(Dump(), Top(), Some(RAN_AT), true, 0)
  {
    hide Dumped, Regular, Table, Packable, Packed, Moved, Data, Fixed, Listed, Parse;
    IsDumped();
    MendedIs();
    IsPackable();
    ShrunkIs();
    TableIs12();
    ArrangedIsShrunk();
  }

  lemma {:induction false} ArrangedIsShrunk()
    ensures Dumped(Dump(), Top()) && Packable(Fixed(Dump(), Top(), Some(RAN_AT)), Top())
    ensures Arranged(Dump(), Top(), Some(RAN_AT), true) == Shrunk()
    ensures ArrangedHeader(Dump(), Top(), Some(RAN_AT), true) == ShrunkHead()
  {
    hide Dumped, Packable, Packed, Moved, Data, Fixed;
    IsDumped();
    IsPackable();
  }

  // ---- Mapped and rebased --------------------------------------------------------------------------------

  lemma {:induction false} FinalSections()
    requires Finishable(Dump(), Top(), Some(RAN_AT), true, 0)
    requires Regular(Shrunk(), ShrunkHead()) && Placeable(ShrunkHead(), 8, 0, |Table(Listed(Shrunk(), ShrunkHead()))|)
    ensures var es := Listed(Shrunk(), ShrunkHead());
      var ss, p := NewSections(Shrunk(), ShrunkHead(), 8, es, 0), Product(Shrunk(), ShrunkHead(), 8, es, 0);
      |ss| == 2 && Mappable(p, ss, 0x20_0010) && AllAddressesApart(ss)
  {
    hide Regular, Shrunk, ShrunkHead, Table, Product, NewSections, Finishable, Get, AlignUp, Placeable, FilePointer;
    ShrunkIs();
    TableIs12();
    NewSectionIs(Shrunk(), ShrunkHead(), 8, Listed(Shrunk(), ShrunkHead()), 0, 0);
    NewSectionIs(Shrunk(), ShrunkHead(), 8, Listed(Shrunk(), ShrunkHead()), 0, 1);
    ProductLong(Shrunk(), ShrunkHead(), 8, Listed(Shrunk(), ShrunkHead()), 0);
  }

  /** The finished file copied to the addresses of its sections, over zeros. */
  function Memory(): bytes
  {
    IsFinishable();
    ArrangedIsShrunk();
    FinishableParts(Dump(), Top(), Some(RAN_AT), true, 0);
    FinalSections();
    var es := Listed(Shrunk(), ShrunkHead());
    var ss, p := NewSections(Shrunk(), ShrunkHead(), 8, es, 0), Product(Shrunk(), ShrunkHead(), 8, es, 0);
    MapSections(p, ss, Zeros(0x20_0010))
  }

  lemma {:induction false} MemoryMapped()
    ensures Finishable(Dump(), Top(), Some(RAN_AT), true, 0)
    ensures MappedFinal(Dump(), Top(), Some(RAN_AT), true, 0, Memory())
  {
    hide Finishable, Dumped, Arranged, ArrangedHeader, Regular, Placeable, Table, Product, NewSections, Placed, Data,
      Mappable, MapSections, AllAddressesApart, Shrunk, ShrunkHead, Zeros;
    IsFinishable();
    ArrangedIsShrunk();
    FinishableParts(Dump(), Top(), Some(RAN_AT), true, 0);
    FinalSections();
    var es := Listed(Shrunk(), ShrunkHead());
    var ss, p := NewSections(Shrunk(), ShrunkHead(), 8, es, 0), Product(Shrunk(), ShrunkHead(), 8, es, 0);
    MapPlaces(p, ss, Zeros(0x20_0010));
  }

  /**
   * Everything the main result asks for can be met at once. The dump ran at 0x10000; in the packed file its
   * pointer stands at 344; mapped and rebased to 0x70000, address 0x200000 reads 0x70004.
   */
  lemma {:induction false} LoadsAt70000()
    ensures Finishable(Dump(), Top(), Some(RAN_AT), true, 0) && RuntimePointer(Dump(), Top(), Some(RAN_AT), 1, 0, 4)
    ensures ShrunkHead().sections[1].rawOffset == 344 && ShrunkHead().sections[1].va == 0x20_0000
    ensures MappedFinal(Dump(), Top(), Some(RAN_AT), true, 0, Memory())
    ensures var w := LoadedFinal(Dump(), Top(), Some(RAN_AT), true, 0, Memory(), -0x5_0000);
      0x20_0008 <= |w.buf| && Get(w.buf, 0x20_0000, 8) == 0x7_0004
  {
    hide Finishable, MappedFinal, LoadedFinal, RuntimePointer, Get, Memory, Dump, Top, ShrunkHead, FilePointer, Regular,
        Shrunk;
    TopIs();
    HoldsPointer();
    MemoryMapped();
    ShrunkIs();
    Unprotected();
    DumpLoadsAtAnyBase(Dump(), Top(), Some(RAN_AT), true, 0, Memory(), 1, 0, 4, 0x7_0000, -0x5_0000);
  }

  lemma {:induction false} Unprotected()
    requires Finishable(Dump(), Top(), Some(RAN_AT), true, 0)
    ensures !Protected(Dump(), Top(), Some(RAN_AT), true, 0, 0x20_0000)
  {
    hide Finishable, Dumped, Packable, Arranged, Shrunk, ShrunkHead, Spans, Data, Regular, FilePointer;
    ArrangedIsShrunk();
    ShrunkIs();
    NoImports(Shrunk(), ShrunkHead());
  }
}
