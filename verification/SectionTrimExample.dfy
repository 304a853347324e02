/** Tables on which trimming does harm. */
module SectionTrimExample {
  import opened Words
  import opened Sections
  import opened SectionTrim

  lemma {:induction false} KeptAbove(buf: bytes, start: nat, n: nat, m: nat)
    requires 0 < m <= n && start + 4 * m <= |buf| && buf[start + 4 * m - 4] != 0
    ensures m <= Kept(buf, start, n)
    decreases n
  {
    if m < n {
      KeptAbove(buf, start, n - 1, m);
    }
  }

  /** A buffer of zeros but for one byte. */
  function OneByteSet(n: nat, at: nat): bytes
  {
    seq(n, k requires 0 <= k < n => if k == at then 1 else 0)
  }

  lemma {:induction false} ZerosBut(n: nat, at: nat, a: nat, b: nat)
    requires at < a || b <= at
    ensures ZeroBetween(OneByteSet(n, at), a, b)
  {
  }

  function RawSection(ptr: u32, size: u32): PeSection
  {
    Sync(PeSection(RawHeader(Zeros(8), size, ptr, size, ptr, 0), [], 0, 0, 0, 0, 0))
  }

  function TwoSections(): seq<PeSection> { [RawSection(0, 0x30_0000), RawSection(0x40_0000, 0x20_0000)] }

  lemma {:induction false} TwoSectionsAre()
    ensures var ss := TwoSections();
      && |ss| == 2 && Ptr(ss, 0) == 0 && Size(ss, 0) == 0x30_0000 && Ptr(ss, 1) == 0x40_0000 && Size(ss, 1) == 0x20_0000
  {
    hide CutNul;
  }

  lemma {:induction false} TwoSectionsSized()
    ensures Gapped(TwoSections(), 0x1000) && Sized(TwoSections(), Config(0x1000, 0x200, true), 0x60_0000)
  {
    hide TwoSections, Ptr, Size;
    TwoSectionsAre();
  }

  lemma {:induction false} MisjudgedShift(buf: bytes, c: Config)
    requires c == Config(0x1000, 0x200, true)
    requires Kept(buf, 0, 0xC_0000) == 0 && Kept(buf, 0x10_0000, 0x8_0000) == 0
    ensures |TwoSections()| == 2 && IsCut(buf, TwoSections(), c, 1)
    ensures Shift(buf, TwoSections(), c, 2) == 0x50_0000 && SizeLeft(buf, TwoSections(), c, 1) == 0
  {
    hide Kept, TwoSections, Ptr, Size;
    TwoSectionsAre();
    var ss := TwoSections();
    assert PlaceOf(buf, ss, c, 0) == 0;
    assert CutOf(buf, ss, c, 0) == 0x30_0000;
    assert PlaceOf(buf, ss, c, 1) == 0x10_0000;
    assert CutOf(buf, ss, c, 1) == 0x20_0000;
  }

  /**
   * After a first cut the buffer is read at the wrong place: the second section ends in a byte that is
   * not zero, and is cut to nothing all the same.
   */
  lemma {:induction false} SecondCutMisjudged()
    ensures var ss, buf, c := TwoSections(), OneByteSet(0x60_0000, 0x5F_FFFF), Config(0x1000, 0x200, true);
      && |ss| == 2 && buf[Ptr(ss, 1) + Size(ss, 1) - 1] == 1 && Gapped(ss, c.sectionAlignment)
      && var r := Trimmed(buf, ss, 0, c, 0x60_0000);
      && r.Some? && |r.value.sections| == 2 && Size(r.value.sections, 1) == 0 && r.value.total == 0x50_0000
  {
    hide Kept, Trimmed, Gapped, Spaced, Sized, Shift, SizeLeft, TwoSections, PlaceOf, CutOf, ZeroBetween, Ptr, Size;
    var ss, buf, c := TwoSections(), OneByteSet(0x60_0000, 0x5F_FFFF), Config(0x1000, 0x200, true);
    TwoSectionsAre();
    TwoSectionsSized();
    ZerosBut(0x60_0000, 0x5F_FFFF, 0, 0x30_0000);
    ZerosBut(0x60_0000, 0x5F_FFFF, 0x10_0000, 0x30_0000);
    KeptBelow(buf, 0, 0xC_0000, 0);
    KeptBelow(buf, 0x10_0000, 0x8_0000, 0);
    MisjudgedShift(buf, c);
    GappedSpaced(buf, ss, c);
    SpacedRunEnds(buf, ss, 0, c, 0x60_0000);
    TrimBookkeeping(buf, ss, 0, c, 0x60_0000, 1);
  }

  /** The section is one byte longer than its dwords. */
  function OddSection(): seq<PeSection> { [RawSection(0, 0x30_0001)] }

  lemma {:induction false} OddSectionIs()
    ensures |OddSection()| == 1 && Ptr(OddSection(), 0) == 0 && Size(OddSection(), 0) == 0x30_0001
    ensures Gapped(OddSection(), 0x1000) && Sized(OddSection(), Config(0x1000, 0x200, true), 0x60_0000)
  {
    hide CutNul;
  }

  lemma {:induction false} OddCut(buf: bytes, c: Config)
    requires c == Config(0x1000, 0x200, true) && Kept(buf, 0, 0xC_0000) == 0
    ensures |OddSection()| == 1 && IsCut(buf, OddSection(), c, 0) && SizeLeft(buf, OddSection(), c, 0) == 0
  {
    hide Kept, OddSection, Ptr, Size;
    OddSectionIs();
    assert PlaceOf(buf, OddSection(), c, 0) == 0;
  }

  /** With nothing cut in front: the byte behind the last whole dword is not zero, and is cut off unseen. */
  lemma {:induction false} OddByteLost()
    ensures var ss, buf, c := OddSection(), OneByteSet(0x30_0001, 0x30_0000), Config(0x1000, 0x200, true);
      && |ss| == 1 && buf[Ptr(ss, 0) + Size(ss, 0) - 1] == 1
      && var r := Trimmed(buf, ss, 0, c, 0x60_0000);
      && r.Some? && |r.value.sections| == 1 && Size(r.value.sections, 0) == 0
  {
    hide Kept, Trimmed, Gapped, Spaced, Sized, Shift, SizeLeft, OddSection, PlaceOf, CutOf, ZeroBetween, Ptr, Size;
    var ss, buf, c := OddSection(), OneByteSet(0x30_0001, 0x30_0000), Config(0x1000, 0x200, true);
    OddSectionIs();
    ZerosBut(0x30_0001, 0x30_0000, 0, 0x30_0000);
    KeptBelow(buf, 0, 0xC_0000, 0);
    OddCut(buf, c);
    GappedSpaced(buf, ss, c);
    SpacedRunEnds(buf, ss, 0, c, 0x60_0000);
    TrimBookkeeping(buf, ss, 0, c, 0x60_0000, 0);
  }

  // ---- Sanitizing, creating, trimming ------------------------------------------------------------------

  /** One section of a little more than 3 MiB, as a file has it. */
  function OnDisk(): Layout
  {
    var header := RawHeader(Zeros(8), 0x30_0100, 0x1000, 0x30_0200, 0x400, MEM_READ_INITIALIZED);
    Layout([Sync(PeSection(header, [], 0, 0, 0, 0, 0))], 0x30_2000, 0x400, 1)
  }

  const PAGES := Config(0x1000, 0x200, true)

  lemma {:induction false} OnDiskLaid()
    ensures Laid(OnDisk().sections, 0x1000) && Contiguous(OnDisk().sections, 0x1000)
  {
    hide CutNul;
  }

  lemma {:induction false} SanitizedIs()
    ensures var st := Sanitized(OnDisk(), PAGES);
      && |st.sections| == 1 && st.sizeOfImage == 0x30_2000 && Mirrored(st.sections[0])
      && st.sections[0].header.va == 0x1000 == Ptr(st.sections, 0)
      && st.sections[0].header.vsize == 0x30_0100 == Size(st.sections, 0)
  {
    hide CutNul;
    FlattenedPlaces(OnDisk().sections, true, 0x1000);
  }

  lemma {:induction false} RoomForAnother()
    ensures CanCreate(Sanitized(OnDisk(), PAGES), PAGES, 0x2000)
    ensures LastRawEnd(Sanitized(OnDisk(), PAGES).sections) == 0x30_1100
  {
    hide Sanitized, CutNul;
    SanitizedIs();
    var ss := Sanitized(OnDisk(), PAGES).sections;
    assert ss[..0] == [] && RawEnd(ss[0]) == 0x30_1100;
    assert LastRawEnd(ss) == 0x30_1100;
  }

  /** The table with a section of two pages created behind it. */
  function WithNew(name: bytes): Layout
  {
    RoomForAnother();
    Created(Sanitized(OnDisk(), PAGES), PAGES, name, 0x2000)
  }

  lemma {:induction false} WithNewIs(name: bytes)
    ensures var st := WithNew(name);
      && Sound(st, PAGES) && Contiguous(st.sections, 0x1000) && |st.sections| == 2 && st.sizeOfImage == 0x30_4000
      && Ptr(st.sections, 0) == 0x1000 && Size(st.sections, 0) == 0x30_0100
      && Ptr(st.sections, 1) == 0x30_1200 && Size(st.sections, 1) == 0x2000
  {
    hide Sanitized, CutNul, LastRawEnd, Sound, Contiguous, OnDisk, CanCreate, NewSection, Laid;
    OnDiskLaid();
    SanitizeKeeps(OnDisk(), PAGES);
    SanitizedIs();
    RoomForAnother();
    var st := Sanitized(OnDisk(), PAGES);
    CreateKeeps(st, PAGES, name, 0x2000);
    NewSectionIs(st, PAGES, name, 0x2000);
  }

  lemma {:induction false} LongTailCut(buf: bytes, ss: seq<PeSection>, c: Config)
    requires |ss| == 2 && Ptr(ss, 0) == 0x1000 && Size(ss, 0) == 0x30_0100 && Size(ss, 1) == 0x2000
    requires Ptr(ss, 1) == 0x30_1200 && c == PAGES && Kept(buf, 0x1000, 0xC_0040) == 0x200
    ensures StepFits(buf, ss, c, 0x30_4000, 0) && StepFits(buf, ss, c, 0x30_4000, 1)
    ensures Shift(buf, ss, c, 0) == 0 && Shift(buf, ss, c, 1) == Shift(buf, ss, c, 2) == 0x30_0800
    ensures SizeLeft(buf, ss, c, 0) == 0x800 && SizeLeft(buf, ss, c, 1) == 0x2000
  {
    hide Kept, Ptr, Size;
    assert PlaceOf(buf, ss, c, 0) == 0x1000;
    assert CutOf(buf, ss, c, 0) == 0x30_0800;
    assert PlaceOf(buf, ss, c, 1) == 0xA00;
    assert CutOf(buf, ss, c, 1) == 0;
  }

  /**
   * The program's own order of calls: a section is sanitized, another created behind it, and the first
   * one's long zero tail cut. The new section stood at the file-aligned end and is taken up by the
   * section-aligned size, into the bytes the first one keeps.
   */
  lemma {:induction false} CreatedOverlaps(name: bytes, iat: nat)
    ensures var st, buf := WithNew(name), OneByteSet(0x30_4000, 0x17FC);
      && Sound(st, PAGES) && Contiguous(st.sections, 0x1000) && |st.sections| == 2
      && var r := Trimmed(buf, st.sections, iat, PAGES, st.sizeOfImage);
      && r.Some? && r.value.total == 0x30_0800 && |r.value.sections| == 2
      && Ptr(r.value.sections, 0) == 0x1000 && Size(r.value.sections, 0) == 0x800
      && Ptr(r.value.sections, 1) == 0xA00 && Size(r.value.sections, 1) == 0x2000
      && !Spaced(buf, st.sections, PAGES) && !RawApart(r.value.sections)
  {
    hide WithNew, Sound, Contiguous, Kept, Trimmed, Shift, SizeLeft, StepFits, PlaceOf, ZeroBetween, Spaced, CutOf, Ptr,
        Size;
    var ss, buf := WithNew(name).sections, OneByteSet(0x30_4000, 0x17FC);
    WithNewIs(name);
    ZerosBut(0x30_4000, 0x17FC, 0x1800, 0x30_1100);
    KeptBelow(buf, 0x1000, 0xC_0040, 0x200);
    KeptAbove(buf, 0x1000, 0xC_0040, 0x200);
    LongTailCut(buf, ss, PAGES);
    RunEndsIff(buf, ss, iat, PAGES, 0x30_4000);
    TrimBookkeeping(buf, ss, iat, PAGES, 0x30_4000, 0);
    TrimBookkeeping(buf, ss, iat, PAGES, 0x30_4000, 1);
    RunKeepsApartIff(buf, ss, iat, PAGES, 0x30_4000);
    Overlapping(Trimmed(buf, ss, iat, PAGES, 0x30_4000).value.sections);
  }

  lemma {:induction false} Overlapping(ss: seq<PeSection>)
    requires |ss| == 2 && Ptr(ss, 1) < Ptr(ss, 0)
    ensures !RawApart(ss)
  {
  }
}
