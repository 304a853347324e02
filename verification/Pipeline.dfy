/**
 * The rewriting steps in the program's order: fixing the dump's pointers, packing the sections, building the
 * relocation table (crates/pe/src/dumper/dump_process.rs, crates/pe/src/dumper/mapped_images.rs).
 */
module Pipeline {
  import opened Options
  import opened Words
  import opened ImportMetadata
  import opened ImportProtection
  import opened Pe
  import opened Relocation
  import opened RelocationWalk
  import opened AddressFix
  import opened RelocationCollect
  import opened RelocationTable
  import opened PackLayout
  import opened Rebase
  import CodeScan

  /** A 64-bit dump: its sections lie behind the headers and apart, in file and memory, rounded up to whole slots. */
  ghost predicate Dumped(buf: bytes, h: Header)
  {
    && Parse(buf) == Some(h) && Addressable(h.sections) && AllAddressesApart(h.sections)
    && AddressFix.Laid(h.sections, |buf|)
    && forall i :: 0 <= i < |h.sections| && h.sections[i].rawSize > 0 ==> HeaderEnd(h) <= h.sections[i].rawOffset
  }

  /** The dump after its pointers have been moved to the file's base. */
  function Fixed(buf: bytes, h: Header, runtime: Option<u64>): bytes
    requires Dumped(buf, h)
  {
    FixFrame(buf, h.sections, BasesOf(h, runtime));
    FixSections(buf, h.sections, 8, BasesOf(h, runtime)).value
  }

  // ---- Fixing ------------------------------------------------------------------------------------------

  lemma {:induction false} DumpedParts(buf: bytes, h: Header)
    requires Dumped(buf, h)
    ensures Parse(buf) == Some(h) && AddressFix.Laid(h.sections, |buf|)
    ensures Addressable(h.sections) && AllAddressesApart(h.sections)
  {
    hide Parse, AddressFix.Laid, AllAddressesApart, Addressable;
  }

  lemma {:induction false} HeadersApart(buf: bytes, h: Header, k: nat)
    requires Dumped(buf, h) && k < HeaderEnd(h)
    ensures !InDataExtent(h.sections, k)
  {
    hide Parse, Executable, AddressFix.Laid, HeaderEnd;
    forall i | 0 <= i < |h.sections| ensures !InExtent(h.sections[i], k) {
      if h.sections[i].rawSize == 0 {
        assert Slots(h.sections[i].rawSize) == 0;
      }
    }
  }

  /** Fixing leaves the headers alone. */
  lemma {:induction false} FixedParses(buf: bytes, h: Header, runtime: Option<u64>)
    requires Dumped(buf, h)
    ensures |Fixed(buf, h, runtime)| == |buf| && Parse(Fixed(buf, h, runtime)) == Some(h)
  {
    hide Parse, FixSections, Dumped;
    DumpedParts(buf, h);
    FixFrame(buf, h.sections, BasesOf(h, runtime));
    ParseEnd(buf, h);
    forall k | 0 <= k < HeaderEnd(h) ensures !InDataExtent(h.sections, k) {
      HeadersApart(buf, h, k);
    }
    ParseFrame(buf, Fixed(buf, h, runtime), h);
  }

  lemma {:induction false} ExtentsDisjoint(s: Section, t: Section)
    requires ExtentsApart(s, t)
    ensures RawDisjoint(s, t)
  {
  }

  lemma {:induction false} FixedRegular(buf: bytes, h: Header, runtime: Option<u64>)
    requires Dumped(buf, h)
    ensures Regular(Fixed(buf, h, runtime), h)
  {
    hide Parse, Fixed, HeaderEnd, ExtentsApart, RawDisjoint, AddressesApart;
    FixedParses(buf, h, runtime);
    var ss, data := h.sections, Fixed(buf, h, runtime);
    forall i | 0 <= i < |ss| ensures RawInside(ss[i], HeaderEnd(h), |data|) {
    }
    forall i, j | 0 <= i < j < |ss| ensures RawDisjoint(ss[i], ss[j]) {
      ExtentsDisjoint(ss[i], ss[j]);
    }
  }

  /** The word at offset 8 j of section i, which is scanned, held runtime base + k. */
  ghost predicate RuntimePointer(buf: bytes, h: Header, runtime: Option<u64>, i: nat, j: nat, k: nat)
  {
    && i < |h.sections| && Scanned(buf, h.sections[i]) && !IsReloc(h.sections[i])
    && 8 * j + 8 <= h.sections[i].rawSize && k < h.sizeOfImage
    && Get(buf, h.sections[i].rawOffset + 8 * j, 8) == BasesOf(h, runtime).runtime + k > 0
  }

  lemma {:induction false} FixedWord(v: nat, k: nat, b: Bases)
    requires v == b.runtime + k > 0 && k < b.size && b.file + b.size < TWO64
    ensures FixWord(v, b) == b.file + k
  {
    if b.file != b.runtime {
      ModUnique(v + b.file - b.runtime, TWO64, 0, b.file + k);
    }
  }

  /** After fixing, the slot holds the file's base + k. */
  lemma {:induction false} SlotFixed(buf: bytes, h: Header, runtime: Option<u64>, i: nat, j: nat, k: nat)
    requires Dumped(buf, h) && RuntimePointer(buf, h, runtime, i, j, k) && h.imageBase + h.sizeOfImage < TWO64
    ensures var o := h.sections[i].rawOffset + 8 * j;
      && |Fixed(buf, h, runtime)| == |buf| && o + 8 <= |buf|
      && Get(Fixed(buf, h, runtime), o, 8) == h.imageBase + k
  {
    hide Parse, Get, FixWord, FixSections, HasData, Dumped;
    DumpedParts(buf, h);
    FixSlotwise(buf, h.sections, BasesOf(h, runtime), i, j);
    FixedWord(Get(buf, h.sections[i].rawOffset + 8 * j, 8), k, BasesOf(h, runtime));
  }

  lemma {:induction false} WordNotZero(b: bytes, o: nat, w: nat)
    requires o + w <= |b| && Get(b, o, w) > 0
    ensures exists k :: o <= k < o + w && b[k] != 0
    decreases w
  {
    if w != 0 && b[o] == 0 {
      WordNotZero(b, o + 1, w - 1);
      var k :| o + 1 <= k < o + 1 + (w - 1) && b[k] != 0;
      assert o <= k < o + w;
    }
  }

  /** A slot with a non-zero word makes its section one that is scanned. */
  lemma {:induction false} StillScanned(b: bytes, s: Section, o: nat)
    requires !Executable(s) && s.rawOffset + s.rawSize <= |b|
    requires s.rawOffset <= o && o + 8 <= s.rawOffset + s.rawSize && Get(b, o, 8) > 0
    ensures Scanned(b, s)
  {
    hide Get, Executable, Uninitialized;
    WordNotZero(b, o, 8);
    var k :| o <= k < o + 8 && b[k] != 0;
    assert s.rawOffset <= k < s.rawOffset + s.rawSize && b[k] != 0;
  }

  /** A pointer of the dump is a pointer of the fixed file. */
  lemma {:induction false} PointerFixed(buf: bytes, h: Header, runtime: Option<u64>, i: nat, j: nat, k: nat)
    requires Dumped(buf, h) && RuntimePointer(buf, h, runtime, i, j, k)
    requires h.imageBase + h.sizeOfImage < TWO64 && h.imageBase + k > 0
    ensures FilePointer(Fixed(buf, h, runtime), h, 8, i, j, k)
  {
    hide *;
    RuntimeParts(buf, h, runtime, i, j, k);
    SlotFixed(buf, h, runtime, i, j, k);
    FixedParses(buf, h, runtime);
    StillScanned(Fixed(buf, h, runtime), h.sections[i], h.sections[i].rawOffset + 8 * j);
    FilePointerAt(Fixed(buf, h, runtime), h, i, j, k);
  }

  lemma {:induction false} RuntimeParts(buf: bytes, h: Header, runtime: Option<u64>, i: nat, j: nat, k: nat)
    requires RuntimePointer(buf, h, runtime, i, j, k)
    ensures i < |h.sections| && !Executable(h.sections[i]) && !IsReloc(h.sections[i]) && k < h.sizeOfImage
    ensures h.sections[i].rawOffset + h.sections[i].rawSize <= |buf| && 8 * j + 8 <= h.sections[i].rawSize
  {
    hide Get, HasData, Executable, Uninitialized, IsReloc;
  }

  lemma {:induction false} FilePointerAt(data: bytes, h: Header, i: nat, j: nat, k: nat)
    requires i < |h.sections| && Scanned(data, h.sections[i]) && !IsReloc(h.sections[i]) && k < h.sizeOfImage
    requires 8 * j + 8 <= h.sections[i].rawSize && h.sections[i].rawOffset + h.sections[i].rawSize <= |data|
    requires Get(data, h.sections[i].rawOffset + 8 * j, 8) == h.imageBase + k
    ensures FilePointer(data, h, 8, i, j, k)
  {
    hide Get, Scanned, IsReloc;
  }

  // ---- Packing -----------------------------------------------------------------------------------------

  function MovedSection(s: Section, start: nat): Section { s.(rawOffset := start % TWO32) }

  /** The header as the packed file has it: each section at its new start. */
  function Moved(data: bytes, h: Header): Header
  {
    var ss := h.sections;
    h.(sections := seq(|ss|, j requires 0 <= j < |ss| => MovedSection(ss[j], NewStart(data, h, j))))
  }

  lemma {:induction false} MovedIs(data: bytes, h: Header, j: nat)
    requires j < |h.sections| && NewStart(data, h, j) <= h.sections[j].rawOffset
    ensures Moved(data, h).sections[j] == h.sections[j].(rawOffset := NewStart(data, h, j))
  {
    hide NewStart;
    ModUnique(NewStart(data, h, j), TWO32, 0, NewStart(data, h, j));
  }

  /** An empty section stays where it is; no section moves up. */
  lemma {:induction false} StartBelow(data: bytes, h: Header, j: nat)
    requires Packable(data, h) && j < |h.sections|
    ensures NewStart(data, h, j) <= h.sections[j].rawOffset
    ensures !Nonempty(h.sections[j]) ==> NewStart(data, h, j) == h.sections[j].rawOffset
  {
    hide Packable, NewStart, Nonempty;
    if Nonempty(h.sections[j]) {
      PackingPreserves(data, h, j);
    } else {
      EmptyStart(data, h, j);
    }
  }

  lemma {:induction false} EmptyStart(data: bytes, h: Header, j: nat)
    requires j < |h.sections| && !Nonempty(h.sections[j])
    ensures NewStart(data, h, j) == h.sections[j].rawOffset
  {
    hide Align, Reached;
  }

  /** No pointer field holds byte k of section j's header but its own. */
  lemma {:induction false} OwnPointer(ss: seq<Section>, n: nat, fa: nat, table: nat, j: nat, k: nat)
    requires j < |ss| && table + j * SECTION_HEADER <= k < table + j * SECTION_HEADER + SECTION_HEADER
    requires InPointer(ss, 0, 0, n, fa, table, k)
    ensures table + j * SECTION_HEADER + 20 <= k < table + j * SECTION_HEADER + 24
    ensures Moves(ss[j], Reached(ss, 0, 0, n, fa, j), n)
  {
    hide Moves, Reached;
    var i: nat :| InPointerOf(ss, 0, 0, n, fa, table, k, i);
    assert i == j;
  }

  /** A section that does not move has no pointer field that changes. */
  lemma {:induction false} UnmovedField(data: bytes, h: Header, j: nat, k: nat)
    requires j < |h.sections| && NewStart(data, h, j) == h.sections[j].rawOffset && PowerOfTwo(h.fileAlignment)
    requires h.fileAlignment <= GAP
    requires var at := SectionTable(h) + j * SECTION_HEADER; at <= k < at + SECTION_HEADER
    ensures !InPointer(h.sections, 0, 0, |data|, h.fileAlignment, SectionTable(h), k)
  {
    hide Align, InPointer, PowerOfTwo, Reached, Moves;
    var ss, fa, n := h.sections, h.fileAlignment, |data|;
    if InPointer(ss, 0, 0, n, fa, SectionTable(h), k) {
      OwnPointer(ss, n, fa, SectionTable(h), j, k);
      MoveTarget(Reached(ss, 0, 0, n, fa, j), fa, ss[j], n);
      assert false;
    }
  }

  /** Both have a byte k, and the same. */
  predicate SameByte(p: bytes, data: bytes, k: nat) { k < |p| && k < |data| && p[k] == data[k] }

  /** The header bytes of section j other than its pointer field, and the field when it does not move, stay. */
  lemma {:induction false} RowStays(data: bytes, h: Header, full: nat, j: nat, k: nat)
    requires Packable(data, h) && full < |h.sections| && Nonempty(h.sections[full]) && j < |h.sections|
    requires var at := SectionTable(h) + j * SECTION_HEADER; at <= k < at + SECTION_HEADER
    requires var at := SectionTable(h) + j * SECTION_HEADER;
      !(at + 20 <= k < at + 24) || NewStart(data, h, j) == h.sections[j].rawOffset
    ensures 64 <= |data| && SameByte(Packed(data, h), data, k)
  {
    hide Parse, Packed, InPointer, PowerOfTwo, Nonempty, NewStart, Lands, Ascending;
    var ss, table := h.sections, SectionTable(h);
    RowInside(data, h, j);
    PackingKeepsHeaders(data, h, full, k);
    if InPointer(ss, 0, 0, |data|, h.fileAlignment, table, k) {
      OwnPointer(ss, |data|, h.fileAlignment, table, j, k);
      UnmovedField(data, h, j, k);
      assert false;
    }
  }

  lemma {:induction false} RowInside(data: bytes, h: Header, j: nat)
    requires Packable(data, h) && j < |h.sections|
    ensures SectionTable(h) + j * SECTION_HEADER + SECTION_HEADER <= HeaderEnd(h) <= |data|
  {
    hide Parse;
    ParseEnd(data, h);
  }

  /** Section j's header in the packed file. */
  lemma {:induction false} RowPacked(data: bytes, h: Header, full: nat, j: nat)
    requires Packable(data, h) && full < |h.sections| && Nonempty(h.sections[full]) && j < |h.sections|
    ensures 64 <= |data|
    ensures var p, at := Packed(data, h), SectionTable(h) + j * SECTION_HEADER;
      && at + SECTION_HEADER <= |p| && at + SECTION_HEADER <= |data|
      && SectionAt(p, at) == SectionAt(data, at).(rawOffset := NewStart(data, h, j) % TWO32)
  {
    hide Packed, Packable, NewStart, Get, CutNul, Nonempty;
    RowInside(data, h, j);
    FieldSize();
    var at := SectionTable(h) + j * SECTION_HEADER;
    RowStays(data, h, full, j, at);
    var p := Packed(data, h);
    forall k | at <= k < at + SECTION_HEADER && !(at + 20 <= k < at + 24)
      ensures SameByte(p, data, k)
    {
      RowStays(data, h, full, j, k);
    }
    RowEnds(p, data, at);
    assert p[at..at + 8] == data[at..at + 8];
    GetFrame(p, data, at + 8, 4);
    GetFrame(p, data, at + 12, 4);
    GetFrame(p, data, at + 16, 4);
    GetFrame(p, data, at + 36, 4);
    PointerPacked(data, h, full, j);
  }

  lemma {:induction false} RowEnds(p: bytes, data: bytes, at: nat)
    requires forall k :: at <= k < at + SECTION_HEADER && !(at + 20 <= k < at + 24) ==> SameByte(p, data, k)
    ensures at + SECTION_HEADER <= |p| && at + SECTION_HEADER <= |data|
    ensures forall k :: at <= k < at + SECTION_HEADER && !(at + 20 <= k < at + 24) ==> p[k] == data[k]
  {
    assert SameByte(p, data, at + SECTION_HEADER - 1);
    forall k | at <= k < at + SECTION_HEADER && !(at + 20 <= k < at + 24) ensures p[k] == data[k] {
      assert SameByte(p, data, k);
    }
  }

  lemma {:induction false} PointerPacked(data: bytes, h: Header, full: nat, j: nat)
    requires Packable(data, h) && full < |h.sections| && Nonempty(h.sections[full]) && j < |h.sections|
    ensures 64 <= |data|
    ensures var p, o := Packed(data, h), SectionTable(h) + j * SECTION_HEADER + 20;
      o + 4 <= |p| && Get(p, o, 4) == NewStart(data, h, j) % TWO32
  {
    hide Packed, Packable, NewStart, Get, CutNul, Le, At, InPointer, Nonempty;
    RowInside(data, h, j);
    FieldSize();
    RangeValues();
    StartBelow(data, h, j);
    var o := SectionTable(h) + j * SECTION_HEADER + 20;
    RowStays(data, h, full, j, o - 20);
    ModUnique(NewStart(data, h, j), TWO32, 0, NewStart(data, h, j));
    if NewStart(data, h, j) == h.sections[j].rawOffset {
      forall k | o <= k < o + 4 ensures SameByte(Packed(data, h), data, k) {
        RowStays(data, h, full, j, k);
      }
      SameWord(Packed(data, h), data, o);
      OldPointer(data, h, j);
    } else {
      PackingKeepsHeaders(data, h, j, o);
      AtLength(Packed(data, h), o, NewStart(data, h, j));
      GetLe(Packed(data, h), o, NewStart(data, h, j), 4);
    }
  }

  lemma {:induction false} AtLength(p: bytes, o: nat, v: nat)
    requires At(p, o, Le(v, 4))
    ensures o + 4 <= |p|
  {
    hide Le;
  }

  lemma {:induction false} SameWord(p: bytes, data: bytes, o: nat)
    requires forall k :: o <= k < o + 4 ==> SameByte(p, data, k)
    ensures o + 4 <= |p| && o + 4 <= |data| && Get(p, o, 4) == Get(data, o, 4)
  {
    hide Get;
    assert SameByte(p, data, o + 3);
    forall k | o <= k < o + 4 ensures p[k] == data[k] {
      assert SameByte(p, data, k);
    }
    GetFrame(p, data, o, 4);
  }

  lemma {:induction false} OldPointer(data: bytes, h: Header, j: nat)
    requires Packable(data, h) && j < |h.sections|
    ensures var o := SectionTable(h) + j * SECTION_HEADER + 20;
      o + 4 <= |data| && Get(data, o, 4) == h.sections[j].rawOffset
  {
    hide Parse, Get, Ascending, Lands, PowerOfTwo;
    RowInside(data, h, j);
    ParseEnd(data, h);
    SectionIndex(data, SectionTable(h), |h.sections|, j);
  }

  lemma {:induction false} PackedFront(data: bytes, h: Header, full: nat)
    requires Packable(data, h) && full < |h.sections| && Nonempty(h.sections[full])
    ensures 64 <= |data| && SameUpTo(data, Packed(data, h), SectionTable(h))
    ensures SectionTable(h) + SECTION_HEADER * |h.sections| <= |Packed(data, h)|
  {
    hide Packed, Parse, InPointer, PowerOfTwo, Nonempty, NewStart, Lands, Ascending;
    ParseEnd(data, h);
    PackingKeepsHeaders(data, h, full, 0);
    forall k | 0 <= k < SectionTable(h) ensures Packed(data, h)[k] == data[k] {
      FrontNoPointer(h.sections, |data|, h.fileAlignment, SectionTable(h), k);
      PackingKeepsHeaders(data, h, full, k);
    }
  }

  lemma {:induction false} FrontNoPointer(ss: seq<Section>, n: nat, fa: nat, table: nat, k: nat)
    requires k < table
    ensures !InPointer(ss, 0, 0, n, fa, table, k)
  {
    hide Moves, Reached;
  }

  /** The packed file parses to the old header with every section at its new start. */
  lemma {:induction false} PackedParses(data: bytes, h: Header, full: nat)
    requires Packable(data, h) && full < |h.sections| && Nonempty(h.sections[full])
    ensures 64 <= |data| && Parse(Packed(data, h)) == Some(Moved(data, h))
  {
    hide Packed, Packable, Parse, NewStart, SectionAt, Nonempty;
    PackableParses(data, h);
    ParseEnd(data, h);
    PackedFront(data, h, full);
    var p, table, n := Packed(data, h), SectionTable(h), |h.sections|;
    ParseTable(data, p, h);
    var got, want := SectionsAt(p, table, n), Moved(data, h).sections;
    forall j | 0 <= j < n ensures got[j] == want[j] {
      SectionIndex(p, table, n, j);
      SectionIndex(data, table, n, j);
      RowPacked(data, h, full, j);
    }
    assert got == want;
  }

  lemma {:induction false} PackedSection(data: bytes, h: Header, j: nat)
    requires Packable(data, h) && j < |h.sections|
    ensures NewStart(data, h, j) <= h.sections[j].rawOffset
    ensures Moved(data, h).sections[j] == h.sections[j].(rawOffset := NewStart(data, h, j))
    ensures h.sections[j].rawSize > 0 ==> 64 <= |data| && HeaderEnd(h) <= NewStart(data, h, j)
    ensures h.sections[j].rawSize > 0 ==>
      var p, s, start := Packed(data, h), h.sections[j], NewStart(data, h, j);
      && start + s.rawSize <= |p| && s.rawOffset + s.rawSize <= |data|
      && p[start..start + s.rawSize] == data[s.rawOffset..s.rawOffset + s.rawSize]
  {
    hide Packable, NewStart, Packed, Moved;
    StartBelow(data, h, j);
    MovedIs(data, h, j);
    if h.sections[j].rawSize > 0 {
      PackingPreserves(data, h, j);
    }
  }

  lemma {:induction false} MovedHeader(data: bytes, h: Header)
    ensures var g := Moved(data, h);
      && |g.sections| == |h.sections| && HeaderEnd(g) == HeaderEnd(h) && g.sizeOfImage == h.sizeOfImage
      && g.imageBase == h.imageBase && g.fileAlignment == h.fileAlignment
  {
  }

  /** Packing keeps a file regular. */
  lemma {:induction false} PackedRegular(data: bytes, h: Header, full: nat)
    requires Packable(data, h) && Addressable(h.sections) && AllAddressesApart(h.sections)
    requires full < |h.sections| && Nonempty(h.sections[full])
    ensures 64 <= |data| && Regular(Packed(data, h), Moved(data, h))
  {
    hide Packable, NewStart, Packed, Parse, Moved, HeaderEnd;
    PackedParses(data, h, full);
    MovedHeader(data, h);
    var p, g := Packed(data, h), Moved(data, h);
    forall i | 0 <= i < |g.sections|
      ensures g.sections[i].va == h.sections[i].va && g.sections[i].rawSize == h.sections[i].rawSize
      ensures RawInside(g.sections[i], HeaderEnd(g), |p|)
    {
      PackedSection(data, h, i);
    }
    forall i, j | 0 <= i < j < |g.sections| ensures AddressesApart(g.sections[i], g.sections[j]) {
      assert AddressesApart(h.sections[i], h.sections[j]);
    }
    forall i, j | 0 <= i < j < |g.sections| ensures RawDisjoint(g.sections[i], g.sections[j]) {
      PackedPair(data, h, i, j);
    }
  }

  lemma {:induction false} PackedPair(data: bytes, h: Header, i: nat, j: nat)
    requires Packable(data, h) && i < j < |h.sections|
    ensures RawDisjoint(Moved(data, h).sections[i], Moved(data, h).sections[j])
  {
    hide Packable, NewStart, Packed, Moved;
    PackedSection(data, h, i);
    PackedSection(data, h, j);
    if h.sections[i].rawSize > 0 && h.sections[j].rawSize > 0 {
      PackingPreserves(data, h, i);
    }
  }

  /** A pointer keeps its place in its section. */
  lemma {:induction false} PointerPackedAt(data: bytes, h: Header, i: nat, j: nat, k: nat)
    requires Packable(data, h) && FilePointer(data, h, 8, i, j, k)
    ensures 64 <= |data| && FilePointer(Packed(data, h), Moved(data, h), 8, i, j, k)
  {
    hide Packable, NewStart, Packed, Moved, Get, HasData, Executable, Uninitialized, IsReloc;
    MovedHeader(data, h);
    PackedSection(data, h, i);
    var s, start, p := h.sections[i], NewStart(data, h, i), Packed(data, h);
    SameData(data, s, p, start);
    SliceTwice(data, s.rawOffset, s.rawSize, 8 * j, 8);
    SliceTwice(p, start, s.rawSize, 8 * j, 8);
    GetMoved(data, s.rawOffset + 8 * j, p, start + 8 * j, 8);
    SameKind(s, s.(rawOffset := start));
  }

  lemma {:induction false} SameKind(s: Section, t: Section)
    requires t == s.(rawOffset := t.rawOffset)
    ensures Executable(t) == Executable(s) && Uninitialized(t) == Uninitialized(s) && IsReloc(t) == IsReloc(s)
  {
  }

  lemma {:induction false} SameData(data: bytes, s: Section, p: bytes, start: u32)
    requires s.rawOffset + s.rawSize <= |data| && start + s.rawSize <= |p|
    requires p[start..start + s.rawSize] == data[s.rawOffset..s.rawOffset + s.rawSize]
    ensures HasData(data, s) ==> HasData(p, s.(rawOffset := start))
  {
    if HasData(data, s) {
      var k :| s.rawOffset <= k < s.rawOffset + s.rawSize && data[k] != 0;
      var l := k - s.rawOffset + start;
      assert p[l] == p[start..start + s.rawSize][k - s.rawOffset]
          == data[s.rawOffset..s.rawOffset + s.rawSize][k - s.rawOffset];
    }
  }

  /** What the table of a 64-bit file is built from. */
  function Listed(data: bytes, g: Header): seq<Entry>
    requires Regular(data, g)
  {
    DataEntries(data, g, 8)
  }

  // ---- The whole run -----------------------------------------------------------------------------------

  /** The file before its table is built, packed or not. */
  function Arranged(buf: bytes, h: Header, runtime: Option<u64>, pack: bool): bytes
    requires Dumped(buf, h) && (pack ==> Packable(Fixed(buf, h, runtime), h))
  {
    FixedParses(buf, h, runtime);
    ParseEnd(Fixed(buf, h, runtime), h);
    if pack then Packed(Fixed(buf, h, runtime), h) else Fixed(buf, h, runtime)
  }

  function ArrangedHeader(buf: bytes, h: Header, runtime: Option<u64>, pack: bool): Header
    requires Dumped(buf, h)
  {
    if pack then Moved(Fixed(buf, h, runtime), h) else h
  }

  lemma {:induction false} ArrangedRegular(buf: bytes, h: Header, runtime: Option<u64>, pack: bool, idx: nat)
    requires Dumped(buf, h) && idx < |h.sections| && Nonempty(h.sections[idx])
    requires pack ==> Packable(Fixed(buf, h, runtime), h)
    ensures Regular(Arranged(buf, h, runtime, pack), ArrangedHeader(buf, h, runtime, pack))
  {
    hide Dumped, Fixed, Packable, Packed, Moved, Regular, Nonempty;
    DumpedParts(buf, h);
    FixedRegular(buf, h, runtime);
    if pack {
      PackedRegular(Fixed(buf, h, runtime), h, idx);
    }
  }

  lemma {:induction false} AllListed(data: bytes, g: Header)
    requires Regular(data, g)
    ensures Addressable(g.sections) && HasAll(Listed(data, g), DataEntries(data, g, 8))
  {
    hide Regular, DataEntries, Addressable;
    RegularParses(data, g);
  }

  /** What a caller has to see to: a dump that can be packed, if it is to be, and room for its table. */
  ghost predicate Finishable(buf: bytes, h: Header, runtime: Option<u64>, pack: bool, idx: nat)
  {
    && Dumped(buf, h) && idx < |h.sections| && Nonempty(h.sections[idx])
    && (pack ==> Packable(Fixed(buf, h, runtime), h))
    && (ArrangedRegular(buf, h, runtime, pack, idx);
        var data, g := Arranged(buf, h, runtime, pack), ArrangedHeader(buf, h, runtime, pack);
        Placeable(g, 8, idx, |Table(Listed(data, g))|))
  }

  lemma {:induction false} FinishableParts(buf: bytes, h: Header, runtime: Option<u64>, pack: bool, idx: nat)
    requires Finishable(buf, h, runtime, pack, idx)
    ensures Dumped(buf, h) && idx < |h.sections| && Nonempty(h.sections[idx])
    ensures pack ==> Packable(Fixed(buf, h, runtime), h)
    ensures var data, g := Arranged(buf, h, runtime, pack), ArrangedHeader(buf, h, runtime, pack);
      Regular(data, g) && Placeable(g, 8, idx, |Table(Listed(data, g))|)
  {
    hide Dumped, Fixed, Packable, Arranged, ArrangedHeader, Regular, Nonempty, Placeable, Table;
    assert Dumped(buf, h);
    ArrangedRegular(buf, h, runtime, pack, idx);
  }

  /** The file that is written out. */
  function Final(buf: bytes, h: Header, runtime: Option<u64>, pack: bool, idx: nat): bytes
    requires Finishable(buf, h, runtime, pack, idx)
  {
    FinishableParts(buf, h, runtime, pack, idx);
    var data, g := Arranged(buf, h, runtime, pack), ArrangedHeader(buf, h, runtime, pack);
    Product(data, g, 8, Listed(data, g), idx)
  }

  /** What the steps leave: the arranged file if there is nothing to relocate, and the finished one if there is. */
  function Rewritten(buf: bytes, h: Header, runtime: Option<u64>, pack: bool, idx: nat): bytes
    requires Finishable(buf, h, runtime, pack, idx)
  {
    FinishableParts(buf, h, runtime, pack, idx);
    var data := Arranged(buf, h, runtime, pack);
    if Listed(data, ArrangedHeader(buf, h, runtime, pack)) == [] then data else Final(buf, h, runtime, pack, idx)
  }

  /** m is the finished file as it is mapped. */
  ghost predicate MappedFinal(buf: bytes, h: Header, runtime: Option<u64>, pack: bool, idx: nat, m: bytes)
    requires Finishable(buf, h, runtime, pack, idx)
  {
    FinishableParts(buf, h, runtime, pack, idx);
    var data, g := Arranged(buf, h, runtime, pack), ArrangedHeader(buf, h, runtime, pack);
    Placed(Final(buf, h, runtime, pack, idx), NewSections(data, g, 8, Listed(data, g), idx), m)
  }

  /** The rebasing of the mapped file, led by its own directory entry. */
  function LoadedFinal(buf: bytes, h: Header, runtime: Option<u64>, pack: bool, idx: nat, m: bytes, delta: int): Walk
    requires Finishable(buf, h, runtime, pack, idx)
  {
    FinishableParts(buf, h, runtime, pack, idx);
    var data, g := Arranged(buf, h, runtime, pack), ArrangedHeader(buf, h, runtime, pack);
    Loaded(data, g, 8, Listed(data, g), idx, m, delta)
  }

  /** The slot starts in a byte of the arranged file's import metadata, which keeps it out of the table. */
  ghost predicate Protected(buf: bytes, h: Header, runtime: Option<u64>, pack: bool, idx: nat, rva: nat)
    requires Finishable(buf, h, runtime, pack, idx)
  {
    FinishableParts(buf, h, runtime, pack, idx);
    ImportByte(ArrangedHeader(buf, h, runtime, pack), Arranged(buf, h, runtime, pack), 8, rva)
  }

  lemma {:induction false} PointerArranged(buf: bytes, h: Header, runtime: Option<u64>, pack: bool, idx: nat,
      i: nat, j: nat, k: nat)
    requires Finishable(buf, h, runtime, pack, idx) && RuntimePointer(buf, h, runtime, i, j, k)
    requires h.imageBase + h.sizeOfImage < TWO64 && h.imageBase + k > 0
    ensures var data, g := Arranged(buf, h, runtime, pack), ArrangedHeader(buf, h, runtime, pack);
      && FilePointer(data, g, 8, i, j, k) && g.imageBase == h.imageBase && g.sizeOfImage == h.sizeOfImage
      && i < |g.sections| == |h.sections| && g.sections[i].va == h.sections[i].va
  {
    hide Finishable, Dumped, Fixed, Packable, Packed, Moved, RuntimePointer, FilePointer, NewStart;
    FinishableParts(buf, h, runtime, pack, idx);
    PointerFixed(buf, h, runtime, i, j, k);
    if pack {
      var data := Fixed(buf, h, runtime);
      PointerPackedAt(data, h, i, j, k);
      MovedHeader(data, h);
      PackedSectionOf(data, h, i, j, k);
    }
    PointerIs(Fixed(buf, h, runtime), h, 8, i, j, k);
  }

  lemma {:induction false} PackedSectionOf(data: bytes, h: Header, i: nat, j: nat, k: nat)
    requires Packable(data, h) && FilePointer(data, h, 8, i, j, k)
    ensures i < |h.sections| == |Moved(data, h).sections| && Moved(data, h).sections[i].va == h.sections[i].va
  {
    hide Packable, Collected, Get;
  }

  /**
   * A dump goes through the steps, packed or not, and the finished file loads at any base: mapped, and its
   * table walked with the difference between the file's base and the new one, a slot that pointed to
   * runtime base + k in the dump points to the new base + k. Left out are slots that start inside import
   * metadata, and a pointer that the file's base would turn into the null word.
   */
  lemma {:induction false} DumpLoadsAtAnyBase(buf: bytes, h: Header, runtime: Option<u64>, pack: bool, idx: nat,
      m: bytes, i: nat, j: nat, k: nat, base: u64, delta: i64)
    requires Finishable(buf, h, runtime, pack, idx) && h.imageBase + h.sizeOfImage < TWO64
    requires MappedFinal(buf, h, runtime, pack, idx, m)
    requires RuntimePointer(buf, h, runtime, i, j, k) && h.imageBase + k > 0
    requires !Protected(buf, h, runtime, pack, idx, h.sections[i].va + 8 * j)
    requires (h.imageBase - base - delta) % TWO64 == 0
    ensures var o, w := h.sections[i].va + 8 * j, LoadedFinal(buf, h, runtime, pack, idx, m, delta);
      o + 8 <= |w.buf| && Get(w.buf, o, 8) == (base + k) % TWO64
  {
    hide Finishable, Dumped, Arranged, ArrangedHeader, Regular, Placeable, Table, Loaded, FilePointer, RuntimePointer,
      Get, Spans, InSpans, ImportByte, Product, NewSections, Placed, Packable, Fixed;
    PointerIn(buf, h, runtime, i, j, k);
    FinishableParts(buf, h, runtime, pack, idx);
    PointerArranged(buf, h, runtime, pack, idx, i, j, k);
    var data, g := Arranged(buf, h, runtime, pack), ArrangedHeader(buf, h, runtime, pack);
    DataShaped(data, g, 8);
    AllListed(data, g);
    SpansAre(g, data, 8, h.sections[i].va + 8 * j);
    SlotLoads(data, g, 8, Listed(data, g), idx, m, i, j, k, base, delta);
  }

  lemma {:induction false} PointerIn(buf: bytes, h: Header, runtime: Option<u64>, i: nat, j: nat, k: nat)
    requires RuntimePointer(buf, h, runtime, i, j, k)
    ensures i < |h.sections|
  {
    hide Scanned, Get;
  }

  lemma {:induction false} RelocStays(ss: seq<Section>, ts: seq<Section>, i: nat)
    requires |ts| == |ss| && forall k :: 0 <= k < |ss| ==> ts[k].name == ss[k].name
    ensures RelocIndex(ts, i) == RelocIndex(ss, i)
    decreases |ss| - i
  {
    if i < |ss| {
      RelocStays(ss, ts, i + 1);
    }
  }

  lemma {:induction false} ArrangedReloc(buf: bytes, h: Header, runtime: Option<u64>, pack: bool)
    requires Dumped(buf, h)
    ensures RelocIndex(ArrangedHeader(buf, h, runtime, pack).sections, 0) == RelocIndex(h.sections, 0)
  {
    hide Dumped, Fixed, NewStart;
    RelocStays(h.sections, ArrangedHeader(buf, h, runtime, pack).sections, 0);
  }

  /** Neither step in front of the table makes the file longer, or takes its sums out of their words. */
  lemma {:induction false} ArrangedBounded(buf: bytes, h: Header, runtime: Option<u64>, pack: bool, idx: nat)
    requires Finishable(buf, h, runtime, pack, idx) && |buf| <= TWO32 && h.imageBase + h.sizeOfImage < TWO64
    requires Dumped(buf, h) && (pack ==> Packable(Fixed(buf, h, runtime), h))
    ensures Bounded(Arranged(buf, h, runtime, pack))
    ensures Parse(Arranged(buf, h, runtime, pack)) == Some(ArrangedHeader(buf, h, runtime, pack))
  {
    hide Dumped, Fixed, Packable, Packed, Parse, Regular, Placeable, Table, Nonempty, NewStart, Finishable;
    FinishableParts(buf, h, runtime, pack, idx);
    FixedParses(buf, h, runtime);
    RegularParses(Arranged(buf, h, runtime, pack), ArrangedHeader(buf, h, runtime, pack));
    if pack {
      PackingPreserves(Fixed(buf, h, runtime), h, idx);
      MovedHeader(Fixed(buf, h, runtime), h);
    }
  }

  lemma {:induction false} NothingFound(es: seq<Entry>)
    ensures InsertAll([], es) == [] <==> es == []
  {
    InsertAllContents([], es);
    var bs := InsertAll([], es);
    if es != [] {
      assert es[0] in multiset(Flatten(bs));
    }
  }

  /** The steps run one after the other and leave the finished file, or the arranged one if nothing is to relocate. */
  method RewriteDump(out: array<u8>, decode: CodeScan.Decoder, h: Header, runtime: Option<u64>, pack: bool,
      ghost idx: nat)
    returns (r: Outcome, image: Image)
    requires Finishable(out[..], h, runtime, pack, idx) && RelocIndex(h.sections, 0) == Some(idx)
    requires Reaches(BasesOf(h, runtime)) && h.imageBase + h.sizeOfImage < TWO64 && out.Length <= TWO32
    requires CodeScan.Sound(decode)
    modifies out
    ensures r == Done && fresh(image) && image.data == Rewritten(old(out[..]), h, runtime, pack, idx)
  {
    hide *;
    ghost var buf := out[..];
    FinishableParts(buf, h, runtime, pack, idx);
    ghost var data, g := Arranged(buf, h, runtime, pack), ArrangedHeader(buf, h, runtime, pack);
    DumpedParts(buf, h);
    ArrangedBounded(buf, h, runtime, pack, idx);
    r := FixHardcodedAddresses(out, runtime, true);
    FixSucceeds(buf, h, runtime);
    image := new Image(out[..]);
    if pack {
      r := PackSectionLayout(image, h);
      PackSucceeds(buf, h, runtime);
    }
    ArrangedIs(buf, h, runtime, pack);
    ghost var code;
    r, code := BuildRelocationTable(image, decode, true);
    NoOperands(decode, data, g, code);
    NothingFound(Listed(data, g));
    ArrangedReloc(buf, h, runtime, pack);
    RegularParses(data, g);
    TableOf(Listed(data, g));
    FinalIs(buf, h, runtime, pack, idx);
    StepWritesProduct(data, g, 8, Listed(data, g), idx, r, image.data);
  }

  lemma {:induction false} FixSucceeds(buf: bytes, h: Header, runtime: Option<u64>)
    requires Dumped(buf, h)
    ensures FixSections(buf, h.sections, PtrSize(true), BasesOf(h, runtime)) == Some(Fixed(buf, h, runtime))
  {
    hide Parse, FixSections;
    DumpedParts(buf, h);
    FixFrame(buf, h.sections, BasesOf(h, runtime));
  }

  lemma {:induction false} PackSucceeds(buf: bytes, h: Header, runtime: Option<u64>)
    requires Dumped(buf, h) && Packable(Fixed(buf, h, runtime), h)
    ensures |Fixed(buf, h, runtime)| >= 64 && h.fileAlignment != 0
  {
    hide Dumped, Fixed, Parse, Ascending, Lands;
    ParseEnd(Fixed(buf, h, runtime), h);
  }

  lemma {:induction false} ArrangedIs(buf: bytes, h: Header, runtime: Option<u64>, pack: bool)
    requires Dumped(buf, h) && (pack ==> Packable(Fixed(buf, h, runtime), h))
    ensures |Fixed(buf, h, runtime)| >= 64
    ensures Arranged(buf, h, runtime, pack)
         == if pack then Packed(Fixed(buf, h, runtime), h) else Fixed(buf, h, runtime)
  {
    hide Dumped, Fixed, Packable, Parse;
    FixedParses(buf, h, runtime);
    ParseEnd(Fixed(buf, h, runtime), h);
  }

  lemma {:induction false} NoOperands(decode: CodeScan.Decoder, data: bytes, g: Header, code: seq<CodeScan.Hit>)
    requires CodeScan.Sound(decode) && CodeHits(decode, data, g, PtrSize(true), code) && Regular(data, g)
    ensures Addressable(g.sections) && PtrSize(true) == 8
    ensures CodeEntries(code) + DataEntries(data, g, PtrSize(true)) == Listed(data, g)
  {
    hide Spans, DataEntries, CodeScan.AllHits, Parse, HeaderEnd;
  }

  lemma {:induction false} FinalIs(buf: bytes, h: Header, runtime: Option<u64>, pack: bool, idx: nat)
    requires Finishable(buf, h, runtime, pack, idx) && Dumped(buf, h)
    requires pack ==> Packable(Fixed(buf, h, runtime), h)
    requires var data, g := Arranged(buf, h, runtime, pack), ArrangedHeader(buf, h, runtime, pack);
      Regular(data, g) && Placeable(g, 8, idx, |Table(Listed(data, g))|)
    ensures var data, g := Arranged(buf, h, runtime, pack), ArrangedHeader(buf, h, runtime, pack);
      Rewritten(buf, h, runtime, pack, idx)
      == if Listed(data, g) == [] then data else Product(data, g, 8, Listed(data, g), idx)
  {
    hide Dumped, Finishable, Arranged, ArrangedHeader, Regular, Placeable, Table, Product, Packable, Fixed, Found;
  }

  /**
   * The base a program happened to run at leaves no mark: dumps of it at any two bases are finished to the
   * same file, one that gets a table or one without entries.
   */
  lemma {:induction false} FinalForgetsBase(buf: bytes, alt: bytes, h: Header, b: u64, c: u64, pack: bool, idx: nat)
    requires Finishable(buf, h, Some(b), pack, idx) && Dumped(alt, h)
    requires SameProgram(buf, alt, h.sections, BasesOf(h, Some(b)), BasesOf(h, Some(c)))
    ensures Finishable(alt, h, Some(c), pack, idx)
    ensures Final(alt, h, Some(c), pack, idx) == Final(buf, h, Some(b), pack, idx)
    ensures Rewritten(alt, h, Some(c), pack, idx) == Rewritten(buf, h, Some(b), pack, idx)
  {
    hide Dumped, SameProgram, Packable, Packed, Moved, Regular, Placeable, Table, Product, BasesOf, Nonempty, Fixed;
    FinishableParts(buf, h, Some(b), pack, idx);
    SameFixed(buf, alt, h, b, c);
    ArrangedRegular(alt, h, Some(c), pack, idx);
  }

  lemma {:induction false} SameFixed(buf: bytes, alt: bytes, h: Header, b: u64, c: u64)
    requires Dumped(buf, h) && Dumped(alt, h)
    requires SameProgram(buf, alt, h.sections, BasesOf(h, Some(b)), BasesOf(h, Some(c)))
    ensures Fixed(alt, h, Some(c)) == Fixed(buf, h, Some(b))
  {
    hide Parse, FixSections, SameProgram, BasesOf, Dumped;
    DumpedParts(buf, h);
    FixingForgetsBase(buf, alt, h.sections, BasesOf(h, Some(b)), BasesOf(h, Some(c)));
  }
}
