/** An image that packing destroys: a section lands on its headers. */
module PackLayoutExample {
  import opened Options
  import opened Words
  import opened Pe
  import opened PackLayout
  import opened Samples

  function File(): bytes { Data(Hollow) }

  function Top(): Header { Head(Hollow) }

  /** Everything the layout is told: the empty .reloc stands at 0, .data 2 MiB further on. */
  lemma {:induction false} TopIs()
    ensures |Top().sections| == 2 && Top().sections[0].rawOffset == 0 && Top().sections[0].rawSize == 0
    ensures Top().sections[1] == DATA && Top().fileAlignment == 8 && SectionTable(Top()) == 248
    ensures |File()| == 0x20_0010 && HeaderEnd(Top()) == 328 && PowerOfTwo(8)
  {
    hide Data;
  }

  lemma {:induction false} DataLands()
    ensures Ascending(Top().sections, 328, 0x20_0010) && Lands(Top().sections, 0, 0, 328, 8)
    ensures First(Top().sections, 0) == 1 && Reached(Top().sections, 0, 0, 0x20_0010, 8, 1) == 0 && Align(0, 8) == 0
  {
    hide Align;
    AlignIsAlignUp(0, 8);
    var ss := Top().sections;
    LandsOpen(ss, 0, 0, 328, 8);
    LandsOpen(ss, 1, 0, 328, 8);
    EmptyStays(ss[0], 0, 0x20_0010, 8);
    ReachedLater(ss, 0, 0, 0x20_0010, 8, 1);
    ReachedNow(ss, 1, 0, 0x20_0010, 8);
  }

  /** The bytes at 0 belong to no pointer field. */
  lemma {:induction false} FrontFree(k: nat)
    requires k < 248
    ensures !InPointer(Top().sections, 0, 0, 0x20_0010, 8, 248, k)
  {
    hide Moves, Reached;
  }

  lemma {:induction false} NoMagic(p: bytes)
    requires |p| >= 2 && p[0] == 0x04
    ensures Parse(p) == None
  {
    assert Get(p, 0, 2) == p[0] + 0x100 * Get(p, 1, 1);
  }

  /** A well-formed file, in file order and aligned, comes out with .data where "MZ" stood: it is no image any more. */
  lemma {:induction false} ImageDestroyed()
    ensures var d, h := File(), Top();
      && Parse(d) == Some(h) && h.fileAlignment == 8
      && Ascending(h.sections, HeaderEnd(h), |d|) && Lands(h.sections, 0, 0, HeaderEnd(h), h.fileAlignment)
    ensures 64 <= |File()| && 2 <= |Packed(File(), Top())| && Packed(File(), Top())[0] == 0x04
    ensures Parse(Packed(File(), Top())) == None
  {
    hide *;
    var d, h := File(), Top();
    WideParses(Hollow);
    FileIs();
    TopIs();
    DataLands();
    FrontFree(0);
    HighSectionLandsOnHeaders(d, h, 0);
    LandedByte();
    NoMagic(Packed(d, h));
  }

  lemma {:induction false} FileIs()
    ensures File() == Data(Hollow) && Top() == Head(Hollow) && 8 <= GAP
  {
  }

  lemma {:induction false} LandedByte()
    ensures |File()| == 0x20_0010 && File()[0x20_0000] == 0x04 && DATA.rawOffset == 0x20_0000 && DATA.rawSize == 16
  {
    hide Data;
    DataAt(Hollow, 0x20_0000);
  }
}
