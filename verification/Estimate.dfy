/**
 * The size reserved for the relocation table is estimated on the memory dump; the table is printed over the
 * finished file (crates/pe/src/dumper/dump_process.rs:338-424).
 */
module Estimate {
  import opened Options
  import opened Words
  import opened ImportMetadata
  import opened Pe
  import opened Relocation
  import opened AddressFix
  import opened RelocationCollect
  import opened PackLayout
  import opened Rebase
  import opened Pipeline

  // ---- What a section contributes depends on its contents ---------------------------------------------

  /** The same kind of section at the same address, with the same raw bytes wherever they stand. */
  ghost predicate SameContents(a: bytes, s: Section, b: bytes, t: Section)
  {
    && t.name == s.name && t.va == s.va && t.rawSize == s.rawSize && t.chars == s.chars
    && (s.rawSize > 0 ==>
          && s.rawOffset + s.rawSize <= |a| && t.rawOffset + t.rawSize <= |b|
          && b[t.rawOffset..t.rawOffset + t.rawSize] == a[s.rawOffset..s.rawOffset + s.rawSize])
  }

  /** The j-th slot of the section gives rise to entry e. */
  ghost predicate Gives(data: bytes, s: Section, j: nat, base: nat, size: nat, spans: seq<Span>, e: Entry)
  {
    Collected(data, s) && HitAt(data, s, j, 8, base, size, spans, e)
  }

  /** Outside the free ranges the j-th slot of both holds the same word. */
  ghost predicate SlotAlike(a: bytes, s: Section, b: bytes, t: Section, free: seq<Span>, j: nat)
  {
    && t.rawSize == s.rawSize
    && (8 * j + 8 <= s.rawSize && !InSpans(free, s.va + 8 * j) ==>
          && s.rawOffset + s.rawSize <= |a| && t.rawOffset + t.rawSize <= |b|
          && Get(b, t.rawOffset + 8 * j, 8) == Get(a, s.rawOffset + 8 * j, 8))
  }

  /** The same kind of section at the same address, with the same words outside the free ranges. */
  ghost predicate SameSlots(a: bytes, s: Section, b: bytes, t: Section, free: seq<Span>)
  {
    && t.name == s.name && t.va == s.va && t.rawSize == s.rawSize && t.chars == s.chars
    && forall j: nat :: SlotAlike(a, s, b, t, free, j)
  }

  lemma {:induction false} Turned(a: bytes, s: Section, b: bytes, t: Section, free: seq<Span>)
    requires SameSlots(a, s, b, t, free)
    ensures SameSlots(b, t, a, s, free)
  {
    hide Get, InSpans;
    forall j: nat ensures SlotAlike(b, t, a, s, free, j) {
      assert SlotAlike(a, s, b, t, free, j);
    }
  }

  lemma {:induction false} SameKindOf(s: Section, t: Section)
    requires t.name == s.name && t.chars == s.chars
    ensures IsReloc(t) == IsReloc(s) && Executable(t) == Executable(s)
  {
  }

  lemma {:induction false} SlotsOfSame(a: bytes, s: Section, b: bytes, t: Section, free: seq<Span>)
    requires SameContents(a, s, b, t)
    ensures SameSlots(a, s, b, t, free)
  {
    hide Get, InSpans;
    forall j: nat ensures SlotAlike(a, s, b, t, free, j) {
      if 8 * j + 8 <= s.rawSize {
        SliceTwice(a, s.rawOffset, s.rawSize, 8 * j, 8);
        SliceTwice(b, t.rawOffset, t.rawSize, 8 * j, 8);
        GetMoved(b, t.rawOffset + 8 * j, a, s.rawOffset + 8 * j, 8);
      }
    }
  }

  lemma {:induction false} GivesToo(a: bytes, s: Section, b: bytes, t: Section, j: nat, base: nat, size: nat,
      spans: seq<Span>, free: seq<Span>, e: Entry)
    requires SameSlots(a, s, b, t, free) && Gives(a, s, j, base, size, spans, e) && base > 0 && !InSpans(free, e.rva)
    ensures Gives(b, t, j, base, size, spans, e)
  {
    hide Get, HasData, Uninitialized, InSpans, PointerType, IsReloc, Executable;
    assert SlotAlike(a, s, b, t, free, j);
    SameKindOf(s, t);
    StillScanned(b, t, t.rawOffset + 8 * j);
  }

  /** Moving the bytes of a section changes none of its entries; nor does what happens in ranges they are not in. */
  lemma {:induction false} GivesAlike(a: bytes, s: Section, b: bytes, t: Section, j: nat, base: nat, size: nat,
      spans: seq<Span>, free: seq<Span>, e: Entry)
    requires SameSlots(a, s, b, t, free) && base > 0 && !InSpans(free, e.rva)
    ensures Gives(a, s, j, base, size, spans, e) <==> Gives(b, t, j, base, size, spans, e)
  {
    hide Gives, SameSlots, InSpans;
    Turned(a, s, b, t, free);
    if Gives(a, s, j, base, size, spans, e) {
      GivesToo(a, s, b, t, j, base, size, spans, free, e);
    }
    if Gives(b, t, j, base, size, spans, e) {
      GivesToo(b, t, a, s, j, base, size, spans, free, e);
    }
  }

  ghost predicate GivenAt(data: bytes, ss: seq<Section>, base: nat, size: nat, spans: seq<Span>, e: Entry, i: nat,
      j: nat)
  {
    i < |ss| && Gives(data, ss[i], j, base, size, spans, e)
  }

  ghost predicate Given(data: bytes, ss: seq<Section>, base: nat, size: nat, spans: seq<Span>, e: Entry)
  {
    exists i: nat, j: nat :: GivenAt(data, ss, base, size, spans, e, i, j)
  }

  lemma {:induction false} HitsAreGiven(data: bytes, ss: seq<Section>, base: nat, size: nat, spans: seq<Span>, e: Entry)
    requires Addressable(ss)
    ensures e in DataHits(data, ss, 8, base, size, spans) <==> Given(data, ss, base, size, spans, e)
  {
    hide *;
    DataHitsAre(data, ss, 8, base, size, spans, e);
    HitInIsGiven(data, ss, base, size, spans, e);
  }

  lemma {:induction false} HitInIsGiven(data: bytes, ss: seq<Section>, base: nat, size: nat, spans: seq<Span>, e: Entry)
    ensures HitIn(data, ss, 8, base, size, spans, e) <==> Given(data, ss, base, size, spans, e)
  {
    hide Collected, HitAt;
    if HitIn(data, ss, 8, base, size, spans, e) {
      var i :| 0 <= i < |ss| && Collected(data, ss[i]) && HitFrom(data, ss[i], 0, 8, base, size, spans, e);
      var j: nat :| HitAt(data, ss[i], j, 8, base, size, spans, e);
      assert GivenAt(data, ss, base, size, spans, e, i, j);
    }
    if Given(data, ss, base, size, spans, e) {
      var i: nat, j: nat :| GivenAt(data, ss, base, size, spans, e, i, j);
      assert HitFrom(data, ss[i], 0, 8, base, size, spans, e);
    }
  }

  // ---- Through fixing and packing ---------------------------------------------------------------------

  /** The word v of the dump points into the image once it has been fixed. */
  predicate PointsAfter(v: nat, b: Bases) { b.file <= FixWord(v, b) < b.file + b.size }

  /** The slot is scanned, not protected, and points into the image once it has been fixed. */
  ghost predicate Ends(buf: bytes, h: Header, b: Bases, spans: seq<Span>, i: nat, j: nat)
  {
    && i < |h.sections| && Scanned(buf, h.sections[i]) && !IsReloc(h.sections[i])
    && 8 * j + 8 <= h.sections[i].rawSize && !InSpans(spans, h.sections[i].va + 8 * j)
    && PointsAfter(Get(buf, h.sections[i].rawOffset + 8 * j, 8), b)
  }

  lemma {:induction false} FixedScanned(buf: bytes, h: Header, runtime: Option<u64>, i: nat)
    requires Dumped(buf, h) && i < |h.sections| && Scanned(Fixed(buf, h, runtime), h.sections[i])
    ensures Scanned(buf, h.sections[i])
  {
    hide Scanned, Parse, FixSections, Slots, Dumped, Executable;
    DumpedParts(buf, h);
    FixedParses(buf, h, runtime);
    var s, data := h.sections[i], Fixed(buf, h, runtime);
    if !Scanned(buf, s) {
      forall k | s.rawOffset <= k < s.rawOffset + s.rawSize && k < |buf| ensures buf[k] == data[k] {
        WholeSlots(s.rawSize);
        FixPassedOver(buf, h.sections, BasesOf(h, runtime), i, k);
      }
      ScannedFrame(buf, data, s);
      assert false;
    }
  }

  lemma {:induction false} WholeSlots(n: nat)
    ensures n <= 8 * Slots(n)
  {
  }

  /** What the fixed file has an entry for, in terms of the dump. */
  lemma {:induction false} FixedGives(buf: bytes, h: Header, runtime: Option<u64>, spans: seq<Span>, i: nat, j: nat,
      e: Entry)
    requires Dumped(buf, h) && i < |h.sections| && h.imageBase > 0
    requires e.rva == h.sections[i].va + 8 * j && e.typ == PointerType(8)
    ensures Gives(Fixed(buf, h, runtime), h.sections[i], j, h.imageBase, h.sizeOfImage, spans, e)
       <==> Ends(buf, h, BasesOf(h, runtime), spans, i, j)
  {
    hide Parse, Get, FixSections, Slots, Dumped, Executable, HasData, InSpans, FixWord, PointerType, IsReloc, Fixed;
    DumpedParts(buf, h);
    FixedParses(buf, h, runtime);
    var s, data := h.sections[i], Fixed(buf, h, runtime);
    FixedIs(buf, h, runtime);
    if Scanned(data, s) {
      FixedScanned(buf, h, runtime, i);
    }
    if Scanned(buf, s) && 8 * j + 8 <= s.rawSize {
      WholeSlots(s.rawSize);
      FixSlotwise(buf, h.sections, BasesOf(h, runtime), i, j);
      if Get(data, s.rawOffset + 8 * j, 8) > 0 {
        StillScanned(data, s, s.rawOffset + 8 * j);
      }
    }
  }

  lemma {:induction false} FixedIs(buf: bytes, h: Header, runtime: Option<u64>)
    requires Dumped(buf, h)
    ensures FixSections(buf, h.sections, 8, BasesOf(h, runtime)) == Some(Fixed(buf, h, runtime))
  {
    hide Parse, FixSections, Dumped;
    DumpedParts(buf, h);
    FixFrame(buf, h.sections, BasesOf(h, runtime));
  }

  lemma {:induction false} PackedSame(data: bytes, h: Header, i: nat)
    requires Packable(data, h) && i < |h.sections|
    ensures 64 <= |data| && |Moved(data, h).sections| == |h.sections|
    ensures SameContents(data, h.sections[i], Packed(data, h), Moved(data, h).sections[i])
  {
    hide Packable, Packed, NewStart;
    PackableReady(data, h);
    PackedSection(data, h, i);
  }

  lemma {:induction false} ArrangedSame(buf: bytes, h: Header, runtime: Option<u64>, pack: bool, i: nat)
    requires Dumped(buf, h) && (pack ==> Packable(Fixed(buf, h, runtime), h)) && i < |h.sections|
    ensures |ArrangedHeader(buf, h, runtime, pack).sections| == |h.sections|
    ensures SameContents(Fixed(buf, h, runtime), h.sections[i], Arranged(buf, h, runtime, pack),
                         ArrangedHeader(buf, h, runtime, pack).sections[i])
  {
    hide Dumped, Fixed, Packable, Packed, Moved, Parse, SameContents, Arranged;
    ArrangedIs(buf, h, runtime, pack);
    if pack {
      PackedSame(Fixed(buf, h, runtime), h, i);
    } else {
      DumpInside(buf, h, runtime, i);
    }
  }

  lemma {:induction false} DumpInside(buf: bytes, h: Header, runtime: Option<u64>, i: nat)
    requires Dumped(buf, h) && i < |h.sections|
    ensures SameContents(Fixed(buf, h, runtime), h.sections[i], Fixed(buf, h, runtime), h.sections[i])
  {
    hide Fixed, Parse, Executable, HeaderEnd, ExtentsApart, Slots;
    FixedParses(buf, h, runtime);
    WholeSlots(h.sections[i].rawSize);
  }

  ghost predicate EndsAs(buf: bytes, h: Header, b: Bases, spans: seq<Span>, e: Entry, i: nat, j: nat)
  {
    Ends(buf, h, b, spans, i, j) && e.rva == h.sections[i].va + 8 * j && e.typ == PointerType(8)
  }

  /** The metadata of the finished file. */
  function LastSpans(buf: bytes, h: Header, runtime: Option<u64>, pack: bool): seq<Span>
    requires Dumped(buf, h) && (pack ==> Packable(Fixed(buf, h, runtime), h))
  {
    Spans(ArrangedHeader(buf, h, runtime, pack), Arranged(buf, h, runtime, pack), 8)
  }

  lemma {:induction false} ArrangedGives(buf: bytes, h: Header, runtime: Option<u64>, pack: bool, e: Entry, i: nat,
      j: nat)
    requires Dumped(buf, h) && (pack ==> Packable(Fixed(buf, h, runtime), h)) && i < |h.sections| && h.imageBase > 0
    ensures |ArrangedHeader(buf, h, runtime, pack).sections| == |h.sections|
    ensures Gives(Arranged(buf, h, runtime, pack), ArrangedHeader(buf, h, runtime, pack).sections[i], j, h.imageBase,
                  h.sizeOfImage, LastSpans(buf, h, runtime, pack), e)
       <==> EndsAs(buf, h, BasesOf(h, runtime), LastSpans(buf, h, runtime, pack), e, i, j)
  {
    hide Dumped, Fixed, Packable, Arranged, ArrangedHeader, SameContents, SameSlots, LastSpans, Ends, Gives;
    var spans := LastSpans(buf, h, runtime, pack);
    ArrangedSame(buf, h, runtime, pack, i);
    SlotsOfSame(Fixed(buf, h, runtime), h.sections[i], Arranged(buf, h, runtime, pack),
                ArrangedHeader(buf, h, runtime, pack).sections[i], []);
    GivesAlike(Fixed(buf, h, runtime), h.sections[i], Arranged(buf, h, runtime, pack),
               ArrangedHeader(buf, h, runtime, pack).sections[i], j, h.imageBase, h.sizeOfImage, spans, [], e);
    if Gives(Fixed(buf, h, runtime), h.sections[i], j, h.imageBase, h.sizeOfImage, spans, e) {
      GivenPlace(Fixed(buf, h, runtime), h.sections[i], j, h.imageBase, h.sizeOfImage, spans, e);
    }
    if e.rva == h.sections[i].va + 8 * j && e.typ == PointerType(8) {
      FixedGives(buf, h, runtime, spans, i, j, e);
    }
  }

  lemma {:induction false} GivenPlace(data: bytes, s: Section, j: nat, base: nat, size: nat, spans: seq<Span>, e: Entry)
    requires Gives(data, s, j, base, size, spans, e)
    ensures e.rva == s.va + 8 * j && e.typ == PointerType(8) && 8 * j + 8 <= s.rawSize
    ensures s.rawOffset + 8 * j + 8 <= |data| && base <= Get(data, s.rawOffset + 8 * j, 8) < base + size
  {
    hide Collected, PointerType, Get, InSpans;
  }

  /** The entries of the finished file are those of the slots that end up pointing into the image. */
  lemma {:induction false} ListedIff(buf: bytes, h: Header, runtime: Option<u64>, pack: bool, e: Entry)
    requires Dumped(buf, h) && (pack ==> Packable(Fixed(buf, h, runtime), h)) && h.imageBase > 0
    requires Regular(Arranged(buf, h, runtime, pack), ArrangedHeader(buf, h, runtime, pack))
    ensures e in Listed(Arranged(buf, h, runtime, pack), ArrangedHeader(buf, h, runtime, pack))
       <==> exists i: nat, j: nat ::
              EndsAs(buf, h, BasesOf(h, runtime), LastSpans(buf, h, runtime, pack), e, i, j)
  {
    hide Dumped, Fixed, Packable, Arranged, ArrangedHeader, Regular, LastSpans, EndsAs, Gives, DataHits, BasesOf;
    var data, g := Arranged(buf, h, runtime, pack), ArrangedHeader(buf, h, runtime, pack);
    var b, spans := BasesOf(h, runtime), LastSpans(buf, h, runtime, pack);
    ArrangedBases(buf, h, runtime, pack);
    RegularParses(data, g);
    HitsAreGiven(data, g.sections, h.imageBase, h.sizeOfImage, spans, e);
    ListedIs(buf, h, runtime, pack);
    if Given(data, g.sections, h.imageBase, h.sizeOfImage, spans, e) {
      var i: nat, j: nat :| GivenAt(data, g.sections, h.imageBase, h.sizeOfImage, spans, e, i, j);
      ArrangedGives(buf, h, runtime, pack, e, i, j);
      assert EndsAs(buf, h, b, spans, e, i, j);
    }
    if i: nat, j: nat :| EndsAs(buf, h, b, spans, e, i, j) {
      EndsInside(buf, h, b, spans, e, i, j);
      ArrangedGives(buf, h, runtime, pack, e, i, j);
      assert GivenAt(data, g.sections, h.imageBase, h.sizeOfImage, spans, e, i, j);
    }
  }

  lemma {:induction false} EndsInside(buf: bytes, h: Header, b: Bases, spans: seq<Span>, e: Entry, i: nat, j: nat)
    requires EndsAs(buf, h, b, spans, e, i, j)
    ensures i < |h.sections|
  {
    hide Scanned, PointsAfter, InSpans, Get;
  }

  lemma {:induction false} ArrangedBases(buf: bytes, h: Header, runtime: Option<u64>, pack: bool)
    requires Dumped(buf, h)
    ensures var g := ArrangedHeader(buf, h, runtime, pack);
      g.imageBase == h.imageBase && g.sizeOfImage == h.sizeOfImage && |g.sections| == |h.sections|
  {
    hide Dumped, Fixed, NewStart;
  }

  lemma {:induction false} ListedIs(buf: bytes, h: Header, runtime: Option<u64>, pack: bool)
    requires Dumped(buf, h) && (pack ==> Packable(Fixed(buf, h, runtime), h))
    requires Regular(Arranged(buf, h, runtime, pack), ArrangedHeader(buf, h, runtime, pack))
    ensures Addressable(ArrangedHeader(buf, h, runtime, pack).sections)
    ensures var g := ArrangedHeader(buf, h, runtime, pack);
      Listed(Arranged(buf, h, runtime, pack), g)
      == DataHits(Arranged(buf, h, runtime, pack), g.sections, 8, g.imageBase, g.sizeOfImage,
                  LastSpans(buf, h, runtime, pack))
  {
    hide Dumped, Fixed, Packable, Arranged, ArrangedHeader, Regular, DataHits, Spans;
    RegularParses(Arranged(buf, h, runtime, pack), ArrangedHeader(buf, h, runtime, pack));
  }

  // ---- The estimate -----------------------------------------------------------------------------------

  /**
   * The dump the estimate is made on: its sections are the file's first ones, wherever their bytes stand,
   * import metadata apart, which is rewritten in between; the file may have got more. The base its header
   * announces may be the one it runs at or the file's.
   */
  ghost predicate EstimatedOn(dump: bytes, g: Header, buf: bytes, h: Header, free: seq<Span>)
  {
    && Addressable(g.sections) && g.sizeOfImage == h.sizeOfImage && |g.sections| <= |h.sections| && g.imageBase > 0
    && forall i :: 0 <= i < |g.sections| ==> SameSlots(dump, g.sections[i], buf, h.sections[i], free)
  }

  /** A dump, the file it becomes, and the dump the estimate was made on, of which no metadata is left out later. */
  ghost predicate Comparable(buf: bytes, h: Header, runtime: Option<u64>, pack: bool, dump: bytes, g: Header)
  {
    && Dumped(buf, h) && (pack ==> Packable(Fixed(buf, h, runtime), h)) && h.imageBase > 0
    && Regular(Arranged(buf, h, runtime, pack), ArrangedHeader(buf, h, runtime, pack))
    && EstimatedOn(dump, g, buf, h, LastSpans(buf, h, runtime, pack))
    && forall y: nat :: InSpans(Spans(g, dump, 8), y) ==> InSpans(LastSpans(buf, h, runtime, pack), y)
  }

  lemma {:induction false} ComparableParts(buf: bytes, h: Header, runtime: Option<u64>, pack: bool, dump: bytes,
      g: Header)
    requires Comparable(buf, h, runtime, pack, dump, g)
    ensures Dumped(buf, h) && (pack ==> Packable(Fixed(buf, h, runtime), h)) && h.imageBase > 0
    ensures Regular(Arranged(buf, h, runtime, pack), ArrangedHeader(buf, h, runtime, pack))
    ensures EstimatedOn(dump, g, buf, h, LastSpans(buf, h, runtime, pack)) && Addressable(g.sections)
    ensures forall y: nat :: InSpans(Spans(g, dump, 8), y) ==> InSpans(LastSpans(buf, h, runtime, pack), y)
  {
    hide Dumped, Packable, Fixed, Regular, Arranged, ArrangedHeader, LastSpans, InSpans, Spans, SameSlots, Addressable;
  }

  /**
   * The j-th slot of section i ends up pointing into the image, and the estimate misses it: its word does not
   * count from the base the dump announces, or the section is none of the first n, which the dump has.
   */
  ghost predicate Missed(buf: bytes, h: Header, b: Bases, base: u64, n: nat, spans: seq<Span>, i: nat, j: nat)
  {
    && Ends(buf, h, b, spans, i, j)
    && (i < n ==> !(base <= Get(buf, h.sections[i].rawOffset + 8 * j, 8) < base + h.sizeOfImage))
  }

  /** When the dump announces the base it runs at, what is missed are words that count from the file's base only. */
  lemma {:induction false} MissedAtRuntime(buf: bytes, h: Header, b: Bases, n: nat, spans: seq<Span>, i: nat, j: nat)
    requires i < n && i < |h.sections| && b.size == h.sizeOfImage
    ensures Missed(buf, h, b, b.runtime, n, spans, i, j)
      <==>
      && Scanned(buf, h.sections[i]) && !IsReloc(h.sections[i]) && 8 * j + 8 <= h.sections[i].rawSize
      && !InSpans(spans, h.sections[i].va + 8 * j)
      && var v := Get(buf, h.sections[i].rawOffset + 8 * j, 8);
         b.file <= v < b.file + b.size && !(b.runtime <= v < b.runtime + b.size)
  {
    hide Get, InSpans, HasData, Executable, IsReloc;
  }

  /** An entry estimated on the dump stems from a slot of the first n sections that holds a runtime pointer. */
  lemma {:induction false} EstimatedSlot(dump: bytes, g: Header, buf: bytes, h: Header, more: seq<Span>, e: Entry)
    returns (i: nat, j: nat)
    requires EstimatedOn(dump, g, buf, h, more) && e in DataEntries(dump, g, 8) && !InSpans(more, e.rva)
    ensures i < |g.sections| <= |h.sections|
    ensures Gives(buf, h.sections[i], j, g.imageBase, h.sizeOfImage, Spans(g, dump, 8), e)
  {
    hide SameSlots, Gives, DataHits, Spans, InSpans, Addressable;
    HitsAreGiven(dump, g.sections, g.imageBase, h.sizeOfImage, Spans(g, dump, 8), e);
    i, j :| GivenAt(dump, g.sections, g.imageBase, h.sizeOfImage, Spans(g, dump, 8), e, i, j);
    GivesAlike(dump, g.sections[i], buf, h.sections[i], j, g.imageBase, h.sizeOfImage, Spans(g, dump, 8), more, e);
  }

  lemma {:induction false} SlotEstimated(dump: bytes, g: Header, buf: bytes, h: Header, more: seq<Span>, e: Entry,
      i: nat, j: nat)
    requires EstimatedOn(dump, g, buf, h, more) && i < |g.sections| && !InSpans(more, e.rva)
    requires Gives(buf, h.sections[i], j, g.imageBase, h.sizeOfImage, Spans(g, dump, 8), e)
    ensures e in DataEntries(dump, g, 8)
  {
    hide SameSlots, Gives, DataHits, Spans, InSpans, Addressable;
    GivesAlike(dump, g.sections[i], buf, h.sections[i], j, g.imageBase, h.sizeOfImage, Spans(g, dump, 8), more, e);
    assert GivenAt(dump, g.sections, g.imageBase, h.sizeOfImage, Spans(g, dump, 8), e, i, j);
    HitsAreGiven(dump, g.sections, g.imageBase, h.sizeOfImage, Spans(g, dump, 8), e);
  }

  ghost predicate SomeMissed(buf: bytes, h: Header, b: Bases, base: u64, n: nat, spans: seq<Span>)
  {
    exists i: nat, j: nat :: Missed(buf, h, b, base, n, spans, i, j)
  }

  /** A missed slot has an entry in the finished file that no estimated one is. */
  lemma {:induction false} MissedNotEstimated(dump: bytes, g: Header, buf: bytes, h: Header, b: Bases,
      more: seq<Span>, e: Entry, i: nat, j: nat)
    requires EstimatedOn(dump, g, buf, h, more) && AllAddressesApart(h.sections)
    requires Missed(buf, h, b, g.imageBase, |g.sections|, more, i, j)
    requires i < |h.sections| && e.rva == h.sections[i].va + 8 * j
    ensures e !in DataEntries(dump, g, 8)
  {
    hide Gives, DataEntries, Spans, Addressable, EstimatedOn, Scanned, PointsAfter, Get, InSpans, IsReloc,
      AddressesApart;
    EstimatedParts(dump, g, buf, h, more);
    if e in DataEntries(dump, g, 8) {
      var k, l := EstimatedSlot(dump, g, buf, h, more, e);
      GivenPlace(buf, h.sections[k], l, g.imageBase, h.sizeOfImage, Spans(g, dump, 8), e);
      ApartAt(h.sections, i, k);
      assert false;
    }
  }

  lemma {:induction false} ApartAt(ss: seq<Section>, i: nat, k: nat)
    requires AllAddressesApart(ss) && i < |ss| && k < |ss|
    ensures i != k ==> ss[i].va + ss[i].rawSize <= ss[k].va || ss[k].va + ss[k].rawSize <= ss[i].va
  {
    assert i < k ==> AddressesApart(ss[i], ss[k]);
    assert k < i ==> AddressesApart(ss[k], ss[i]);
  }

  lemma {:induction false} EndsGives(buf: bytes, h: Header, b: Bases, base: u64, less: seq<Span>, more: seq<Span>,
      e: Entry, i: nat, j: nat)
    requires EndsAs(buf, h, b, more, e, i, j)
    requires forall y: nat :: InSpans(less, y) ==> InSpans(more, y)
    requires base <= Get(buf, h.sections[i].rawOffset + 8 * j, 8) < base + h.sizeOfImage
    ensures Gives(buf, h.sections[i], j, base, h.sizeOfImage, less, e)
  {
    hide Get, InSpans, HasData, Executable, IsReloc, PointerType;
  }

  /**
   * The estimate is made before pointers are moved to the file's base and sections packed. It has every
   * entry of the finished file exactly if no slot is missed: none outside import metadata ends up pointing
   * into the image that did not count from the base the dump announces, or was not there yet.
   */
  lemma {:induction false} EstimateHasAllIff(buf: bytes, h: Header, runtime: Option<u64>, pack: bool, dump: bytes,
      g: Header)
    requires Comparable(buf, h, runtime, pack, dump, g)
    ensures HasAll(DataEntries(dump, g, 8),
                   Listed(Arranged(buf, h, runtime, pack), ArrangedHeader(buf, h, runtime, pack)))
       <==> !SomeMissed(buf, h, BasesOf(h, runtime), g.imageBase, |g.sections|, LastSpans(buf, h, runtime, pack))
  {
    hide *;
    ComparableParts(buf, h, runtime, pack, dump, g);
    var b, base, spans, n := BasesOf(h, runtime), g.imageBase, LastSpans(buf, h, runtime, pack), |g.sections|;
    if SomeMissed(buf, h, b, base, n, spans) {
      var e := MissedEntry(buf, h, runtime, pack, dump, g);
      NotAll(DataEntries(dump, g, 8), Listed(Arranged(buf, h, runtime, pack), ArrangedHeader(buf, h, runtime, pack)),
             e);
    } else {
      AllEstimated(buf, h, runtime, pack, dump, g);
    }
  }

  lemma {:induction false} NotAll(es: seq<Entry>, some: seq<Entry>, e: Entry)
    requires e in some && e !in es
    ensures !HasAll(es, some)
  {
  }

  lemma {:induction false} MissedEntry(buf: bytes, h: Header, runtime: Option<u64>, pack: bool, dump: bytes, g: Header)
    returns (e: Entry)
    requires Comparable(buf, h, runtime, pack, dump, g)
    requires SomeMissed(buf, h, BasesOf(h, runtime), g.imageBase, |g.sections|, LastSpans(buf, h, runtime, pack))
    ensures e in Listed(Arranged(buf, h, runtime, pack), ArrangedHeader(buf, h, runtime, pack))
    ensures e !in DataEntries(dump, g, 8)
  {
    hide Dumped, Fixed, Packable, Arranged, ArrangedHeader, Regular, LastSpans, Get, Ends, BasesOf, EstimatedOn,
      Comparable, DataEntries, Listed, Addressable, AllAddressesApart;
    ComparableParts(buf, h, runtime, pack, dump, g);
    var b, spans := BasesOf(h, runtime), LastSpans(buf, h, runtime, pack);
    var i: nat, j: nat :| Missed(buf, h, b, g.imageBase, |g.sections|, spans, i, j);
    DumpedParts(buf, h);
    SlotAddress(buf, h, b, spans, i, j);
    e := Entry(h.sections[i].va + 8 * j, PointerType(8));
    assert EndsAs(buf, h, b, spans, e, i, j);
    ListedIff(buf, h, runtime, pack, e);
    MissedNotEstimated(dump, g, buf, h, b, spans, e, i, j);
  }

  lemma {:induction false} EstimatedParts(dump: bytes, g: Header, buf: bytes, h: Header, more: seq<Span>)
    requires EstimatedOn(dump, g, buf, h, more)
    ensures Addressable(g.sections)
  {
    hide Addressable, SameSlots;
  }

  lemma {:induction false} SlotAddress(buf: bytes, h: Header, b: Bases, spans: seq<Span>, i: nat, j: nat)
    requires Ends(buf, h, b, spans, i, j) && Addressable(h.sections)
    ensures i < |h.sections| && h.sections[i].va + 8 * j < TWO32
  {
    hide Scanned, PointsAfter, Get, InSpans, IsReloc;
  }

  lemma {:induction false} AllEstimated(buf: bytes, h: Header, runtime: Option<u64>, pack: bool, dump: bytes, g: Header)
    requires Comparable(buf, h, runtime, pack, dump, g)
    requires !SomeMissed(buf, h, BasesOf(h, runtime), g.imageBase, |g.sections|, LastSpans(buf, h, runtime, pack))
    ensures Addressable(g.sections)
    ensures HasAll(DataEntries(dump, g, 8),
                   Listed(Arranged(buf, h, runtime, pack), ArrangedHeader(buf, h, runtime, pack)))
  {
    hide Dumped, Fixed, Packable, Arranged, ArrangedHeader, Regular, LastSpans, Missed, Ends, BasesOf, EstimatedOn,
      Comparable, DataEntries, Listed, Addressable, AllAddressesApart, Spans, InSpans, Gives, EndsAs;
    ComparableParts(buf, h, runtime, pack, dump, g);
    var b, base, spans, n := BasesOf(h, runtime), g.imageBase, LastSpans(buf, h, runtime, pack), |g.sections|;
    forall e | e in Listed(Arranged(buf, h, runtime, pack), ArrangedHeader(buf, h, runtime, pack))
      ensures e in DataEntries(dump, g, 8)
    {
      ListedIff(buf, h, runtime, pack, e);
      var i: nat, j: nat :| EndsAs(buf, h, b, spans, e, i, j);
      assert !Missed(buf, h, b, base, n, spans, i, j);
      EndsEstimated(buf, h, b, spans, dump, g, e, i, j);
    }
  }

  lemma {:induction false} EndsEstimated(buf: bytes, h: Header, b: Bases, more: seq<Span>, dump: bytes, g: Header,
      e: Entry, i: nat, j: nat)
    requires Dumped(buf, h) && EstimatedOn(dump, g, buf, h, more) && EndsAs(buf, h, b, more, e, i, j)
    requires forall y: nat :: InSpans(Spans(g, dump, 8), y) ==> InSpans(more, y)
    requires !Missed(buf, h, b, g.imageBase, |g.sections|, more, i, j)
    ensures Addressable(g.sections) && e in DataEntries(dump, g, 8)
  {
    hide Dumped, Get, Ends, EstimatedOn, DataEntries, Addressable, Spans, InSpans, Gives, EndsAs;
    EstimatedParts(dump, g, buf, h, more);
    EndsOf(buf, h, b, more, e, i, j);
    EndsGives(buf, h, b, g.imageBase, Spans(g, dump, 8), more, e, i, j);
    SlotEstimated(dump, g, buf, h, more, e, i, j);
  }

  lemma {:induction false} EndsOf(buf: bytes, h: Header, b: Bases, spans: seq<Span>, e: Entry, i: nat, j: nat)
    requires EndsAs(buf, h, b, spans, e, i, j)
    ensures i < |h.sections| && Ends(buf, h, b, spans, i, j) && !InSpans(spans, e.rva)
  {
    hide Scanned, PointsAfter, InSpans, Get;
  }

  /** With nothing missed the table fits what was estimated. */
  lemma {:induction false} EstimateIsEnough(buf: bytes, h: Header, runtime: Option<u64>, pack: bool, dump: bytes,
      g: Header)
    requires Comparable(buf, h, runtime, pack, dump, g)
    requires !SomeMissed(buf, h, BasesOf(h, runtime), g.imageBase, |g.sections|, LastSpans(buf, h, runtime, pack))
    ensures var es := Listed(Arranged(buf, h, runtime, pack), ArrangedHeader(buf, h, runtime, pack));
      |Table(es)| <= TableLength(InsertAll([], DataEntries(dump, g, 8)))
  {
    hide *;
    ComparableParts(buf, h, runtime, pack, dump, g);
    var data, top := Arranged(buf, h, runtime, pack), ArrangedHeader(buf, h, runtime, pack);
    var all, es := DataEntries(dump, g, 8), Listed(data, top);
    AllEstimated(buf, h, runtime, pack, dump, g);
    DataShaped(data, top, 8);
    AllListed(data, top);
    ListedDistinct(data, top);
    HasAllIs(all, es);
    DistinctPart(es, all);
    EstimateIsUpperBound(es, all);
    TableOf(es);
    TableOf(all);
    OrderedLength(InsertAll([], all));
  }

  lemma {:induction false} HasAllIs(es: seq<Entry>, some: seq<Entry>)
    requires HasAll(es, some)
    ensures forall e :: e in some ==> e in es
  {
  }

  lemma {:induction false} ListedDistinct(data: bytes, g: Header)
    requires Regular(data, g)
    ensures forall i, j :: 0 <= i < j < |Listed(data, g)| ==> Listed(data, g)[i] != Listed(data, g)[j]
  {
    hide Regular, DataEntries, InSome, IsReloc;
    DataShaped(data, g, 8);
    var es := Listed(data, g);
    forall i, j | 0 <= i < j < |es| ensures es[i] != es[j] {
      SeparateAt(es, 8, i, j);
    }
  }
}
