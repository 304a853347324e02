/** A 32-bit image whose pointer should have been moved and was not. */
module AddressFixExample {
  import opened Options
  import opened Words
  import opened Pe
  import opened AddressFix
  import opened Samples

  const RAN_AT: u64 := 0x50_0000

  lemma {:induction false} HoldsPointer()
    ensures Get(Data(Narrow), 224, 4) == 0x50_0004 && Scanned(Data(Narrow), NARROW_DATA)
  {
    hide Get, HasData, Data;
    Four(Narrow, 224);
  }

  /**
   * An image the program accepts, whose .data section it scans: the slot that points to 0x500004, 4 bytes
   * into the image as it ran, should point to 0x400004, and is left alone with everything else.
   */
  lemma {:induction false} NarrowCounterexample()
    ensures var image, h, b := Data(Narrow), Head(Narrow), BasesOf(Head(Narrow), Some(RAN_AT));
      && Parse(image) == Some(h) && Reaches(b) && h.sections == [NARROW_DATA] && Scanned(image, NARROW_DATA)
      && FixSections(image, h.sections, PtrSize(false), b) == Some(image)
      && Get(image, NARROW_DATA.rawOffset, 4) == 0x50_0004 && Stale(0x50_0004, b)
      && Rebased(0x50_0004, 4, b) == 0x40_0004
  {
    hide Parse, Get, Data, HasData, FixSlot, FixRange, Scanned;
    var image, ss, b := Data(Narrow), Head(Narrow).sections, BasesOf(Head(Narrow), Some(RAN_AT));
    NarrowParses();
    HoldsPointer();
    RangeEnds(image, b);
    NarrowUnchanged(image, ss, b);
    assert ss[1..] == [];
  }

  lemma {:induction false} RangeEnds(image: bytes, b: Bases)
    requires |image| == 232
    ensures FixRange(image, 224, 232, 4, b) == Some(image)
  {
    hide Get;
    NarrowRange(image, 224, 232, b);
    assert FixRange(image, 224, 232, 4, b) == FixRange(image, 228, 232, 4, b);
    assert FixRange(image, 228, 232, 4, b) == FixRange(image, 232, 232, 4, b);
  }
}
