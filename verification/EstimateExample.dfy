/** An estimate of nothing for a table of 12 bytes. */
module EstimateExample {
  import opened Options
  import opened Words
  import opened ImportMetadata
  import opened Pe
  import opened Relocation
  import opened AddressFix
  import opened RelocationCollect
  import opened PackLayout
  import opened Rebase
  import opened Pipeline
  import opened PipelineExample
  import opened Estimate
  import opened Samples

  lemma {:induction false} SameDump(d: bytes, s: Section)
    requires s.rawSize > 0 ==> s.rawOffset + s.rawSize <= |d|
    ensures SameSlots(d, s, d, s, [])
  {
    hide Get;
  }

  lemma {:induction false} EstimatedOnIt()
    ensures EstimatedOn(Dump(), Top(), Dump(), Top(), [])
  {
    hide SameSlots, Data;
    forall i | 0 <= i < |Top().sections| ensures SameSlots(Dump(), Top().sections[i], Dump(), Top().sections[i], []) {
      SameDump(Dump(), Top().sections[i]);
    }
  }

  /** No slot of .data holds a word that counts from 0x20000. */
  lemma {:induction false} NoSlots()
    ensures |Dump()| == 0x20_0010 && SectionHits(Dump(), DATA, 0, 8, 0x2_0000, 0x20_0010, []) == []
  {
    hide Get, Data;
    Eight(Wide, 0x20_0000);
    Eight(Wide, 0x20_0008);
    SectionHitsOpen(Dump(), DATA, 0, 8, 0x2_0000, 0x20_0010, []);
    SectionHitsOpen(Dump(), DATA, 8, 8, 0x2_0000, 0x20_0010, []);
    SectionHitsEnd(Dump(), DATA, 16, 8, 0x2_0000, 0x20_0010, []);
  }

  lemma {:induction false} NoneEstimated()
    ensures Addressable(Top().sections) && DataEntries(Dump(), Top(), 8) == []
  {
    hide Get, Scanned, Data, SectionHits;
    NoSlots();
    NoImports(Dump(), Top());
    var d, ss := Dump(), Top().sections;
    DataHitsOpen(d, ss, 8, 0x2_0000, 0x20_0010, []);
    DataHitsOpen(d, ss[1..], 8, 0x2_0000, 0x20_0010, []);
    DataHitsEnd(d, ss[2..], 8, 0x2_0000, 0x20_0010, []);
    assert ss[1..][1..] == ss[2..];
  }

  /**
   * The dump's header announces 0x20000, as the file's will, while its pointer counts from 0x10000, where it
   * ran: nothing is estimated, and the finished file needs 12 bytes.
   */
  lemma {:induction false} EstimateTooSmall()
    ensures Comparable(Dump(), Top(), Some(RAN_AT), true, Dump(), Top())
    ensures TableLength(InsertAll([], DataEntries(Dump(), Top(), 8))) == 0
    ensures Finishable(Dump(), Top(), Some(RAN_AT), true, 0) && Regular(Shrunk(), ShrunkHead())
    ensures Arranged(Dump(), Top(), Some(RAN_AT), true) == Shrunk()
    ensures ArrangedHeader(Dump(), Top(), Some(RAN_AT), true) == ShrunkHead()
    ensures |Table(Listed(Shrunk(), ShrunkHead()))| == 12
  {
    hide *;
    IsComparable();
    NoneEstimated();
    NoBlocks();
    IsFinishable();
    ArrangedIsShrunk();
    ShrunkIs();
    TableIs12();
  }

  lemma {:induction false} IsComparable()
    ensures Comparable(Dump(), Top(), Some(RAN_AT), true, Dump(), Top())
  {
    hide Dumped, Packable, Regular, Arranged, ArrangedHeader, Shrunk, ShrunkHead, Spans, EstimatedOn, Fixed,
      FilePointer, Dump;
    IsDumped();
    ArrangedIsShrunk();
    ShrunkIs();
    EstimatedOnIt();
    NoImports(Dump(), Top());
    NoImports(Shrunk(), ShrunkHead());
  }

  lemma {:induction false} NoBlocks()
    ensures TableLength(InsertAll([], [])) == 0
  {
  }
}
