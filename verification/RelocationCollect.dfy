/** Which slots get a relocation entry (collect_relocation_builder in crates/pe/src/postprocess.rs). */
module RelocationCollect {
  import opened Options
  import opened Words
  import opened ImportTable
  import opened Pe
  import opened ImportMetadata
  import opened ImportDenseMetadata
  import opened Relocation
  import opened AddressFix
  import CodeScan
  import Dense = ImportDense

  /** A scanned section, the table's own apart. */
  predicate Collected(data: bytes, s: Section) { Scanned(data, s) && !IsReloc(s) }

  function PointerType(w: nat): u16 { if w == 8 then DIR64 else HIGHLOW }

  /** The slot at offset in s points into the image and does not start inside import metadata. */
  predicate Selected(data: bytes, s: Section, offset: nat, w: nat, base: nat, size: nat, spans: seq<Span>)
    requires s.rawOffset + offset + w <= |data|
  {
    base <= Get(data, s.rawOffset + offset, w) < base + size && !InSpans(spans, s.va + offset)
  }

  function SectionHits(data: bytes, s: Section, offset: nat, w: nat, base: nat, size: nat, spans: seq<Span>): seq<Entry>
    requires w > 0 && s.rawOffset + s.rawSize <= |data| && s.va + s.rawSize < TWO32
    decreases s.rawSize - offset
  {
    if offset + w > s.rawSize then []
    else
      (if Selected(data, s, offset, w, base, size, spans) then [Entry(s.va + offset, PointerType(w))] else [])
      + SectionHits(data, s, offset + w, w, base, size, spans)
  }

  /** No section's addresses leave 32 bits. */
  predicate Addressable(ss: seq<Section>)
  {
    forall i :: 0 <= i < |ss| ==> ss[i].va + ss[i].rawSize < TWO32
  }

  function DataHits(data: bytes, ss: seq<Section>, w: nat, base: nat, size: nat, spans: seq<Span>): seq<Entry>
    requires w > 0 && Addressable(ss)
  {
    if ss == [] then []
    else
      (if Collected(data, ss[0]) then SectionHits(data, ss[0], 0, w, base, size, spans) else [])
      + DataHits(data, ss[1..], w, base, size, spans)
  }

  function CodeEntries(hits: seq<CodeScan.Hit>): seq<Entry>
  {
    if hits == [] then [] else [Entry(hits[0].rva, HIGHLOW)] + CodeEntries(hits[1..])
  }

  function Areas(ss: seq<Section>): seq<CodeScan.Area>
  {
    if ss == [] then []
    else (if IsReloc(ss[0]) then [] else [CodeScan.Area(ss[0].va, ss[0].rawSize, ss[0].chars)]) + Areas(ss[1..])
  }

  /** The scan of the code refuses what starts inside import metadata. */
  function Rejects(spans: seq<Span>): u32 -> bool { (rva: u32) => InSpans(spans, rva) }

  function DataEntries(data: bytes, h: Header, w: nat): seq<Entry>
    requires w > 0 && Addressable(h.sections)
  {
    DataHits(data, h.sections, w, h.imageBase, h.sizeOfImage, Spans(h, data, w))
  }

  /** The operands the instruction-aware scan accepts with these ranges protected, which only 32-bit images have. */
  ghost predicate CodeHitsUnder(decode: CodeScan.Decoder, data: bytes, h: Header, w: nat, spans: seq<Span>,
      code: seq<CodeScan.Hit>)
    requires CodeScan.Sound(decode)
  {
    var base := h.imageBase % TWO32;
    if w == 8 then code == []
    else
      && CodeScan.Increasing(code)
      && forall x :: x in code <==>
           x in CodeScan.AllHits(decode, data, Areas(h.sections), base, CodeScan.SaturatingAdd(base, h.sizeOfImage),
                                 Rejects(spans))
  }

  ghost predicate CodeHits(decode: CodeScan.Decoder, data: bytes, h: Header, w: nat, code: seq<CodeScan.Hit>)
    requires CodeScan.Sound(decode)
  {
    CodeHitsUnder(decode, data, h, w, Spans(h, data, w), code)
  }

  /** What the sums of the scan need to stay within their words. */
  predicate Bounded(data: bytes)
  {
    |data| <= TWO32 && (Parse(data).Some? ==>
      Parse(data).value.imageBase + Parse(data).value.sizeOfImage < TWO64 && Addressable(Parse(data).value.sections))
  }

  // ---- The collection as the program runs it -----------------------------------------------------

  method CheckBytes(data: bytes, s: Section) returns (r: bool)
    ensures r == HasData(data, s)
  {
    r := false;
    if s.rawOffset + s.rawSize > |data| {
      return;
    }
    for k := s.rawOffset to s.rawOffset + s.rawSize
      invariant forall i :: s.rawOffset <= i < k ==> data[i] == 0
    {
      if data[k] != 0 {
        return true;
      }
    }
  }

  method CollectAreas(ss: seq<Section>) returns (areas: seq<CodeScan.Area>)
    ensures areas == Areas(ss)
  {
    areas := [];
    for i := 0 to |ss|
      invariant areas + Areas(ss[i..]) == Areas(ss)
    {
      assert ss[i..][0] == ss[i] && ss[i..][1..] == ss[i + 1..];
      if !IsReloc(ss[i]) {
        areas := areas + [CodeScan.Area(ss[i].va, ss[i].rawSize, ss[i].chars)];
      }
    }
  }

  /** The stride walk over one section. */
  method CollectSection(builder: RelocationTableBuilder, data: bytes, s: Section, w: nat, base: nat, size: nat,
      spans: seq<Span>)
    requires builder.Valid() && w > 0 && s.rawOffset + s.rawSize <= |data| && s.va + s.rawSize < TWO32
    modifies builder
    ensures builder.Valid()
    ensures builder.blocks == InsertAll(old(builder.blocks), SectionHits(data, s, 0, w, base, size, spans))
  {
    hide *;
    var offset := 0;
    while offset + w <= s.rawSize
      invariant builder.Valid()
      invariant InsertAll(builder.blocks, SectionHits(data, s, offset, w, base, size, spans))
             == InsertAll(old(builder.blocks), SectionHits(data, s, 0, w, base, size, spans))
      decreases s.rawSize - offset
    {
      ghost var rest := SectionHits(data, s, offset + w, w, base, size, spans);
      SectionHitsOpen(data, s, offset, w, base, size, spans);
      var selected := SelectSlot(data, s, offset, w, base, size, spans);
      if selected {
        InsertAllCons(builder.blocks, Entry(s.va + offset, PointerType(w)), rest);
        builder.AddRelocation(s.va + offset, PointerType(w));
      }
      offset := offset + w;
    }
    SectionHitsEnd(data, s, offset, w, base, size, spans);
    InsertNothing(builder.blocks);
  }

  method SelectSlot(data: bytes, s: Section, offset: nat, w: nat, base: nat, size: nat,
      spans: seq<Span>) returns (r: bool)
    requires s.rawOffset + offset + w <= |data|
    ensures r == Selected(data, s, offset, w, base, size, spans)
  {
    var addr := Get(data, s.rawOffset + offset, w);
    r := false;
    if addr >= base && addr < base + size {
      var entryRva := s.va + offset;
      if InSpans(spans, entryRva) {
        return;
      }
      r := true;
    }
  }

  lemma {:induction false} SectionHitsOpen(data: bytes, s: Section, offset: nat, w: nat, base: nat, size: nat,
      spans: seq<Span>)
    requires w > 0 && s.rawOffset + s.rawSize <= |data| && s.va + s.rawSize < TWO32 && offset + w <= s.rawSize
    ensures var rest := SectionHits(data, s, offset + w, w, base, size, spans);
      SectionHits(data, s, offset, w, base, size, spans)
      == if Selected(data, s, offset, w, base, size, spans) then [Entry(s.va + offset, PointerType(w))] + rest else rest
  {
    hide Selected;
  }

  lemma {:induction false} SectionHitsEnd(data: bytes, s: Section, offset: nat, w: nat, base: nat, size: nat,
      spans: seq<Span>)
    requires w > 0 && s.rawOffset + s.rawSize <= |data| && s.va + s.rawSize < TWO32 && offset + w > s.rawSize
    ensures SectionHits(data, s, offset, w, base, size, spans) == []
  {
  }

  method AddCodeHits(builder: RelocationTableBuilder, hits: seq<CodeScan.Hit>)
    requires builder.Valid()
    modifies builder
    ensures builder.Valid() && builder.blocks == InsertAll(old(builder.blocks), CodeEntries(hits))
  {
    hide Insert;
    for i := 0 to |hits|
      invariant builder.Valid()
      invariant InsertAll(builder.blocks, CodeEntries(hits[i..])) == InsertAll(old(builder.blocks), CodeEntries(hits))
    {
      assert hits[i..][0] == hits[i] && hits[i..][1..] == hits[i + 1..];
      InsertAllCons(builder.blocks, Entry(hits[i].rva, HIGHLOW), CodeEntries(hits[i + 1..]));
      builder.AddRelocation(hits[i].rva, HIGHLOW);
    }
    InsertNothing(builder.blocks);
  }

  lemma {:induction false} InsertAllConcat(bs: seq<Block>, a: seq<Entry>, b: seq<Entry>)
    ensures InsertAll(bs, a + b) == InsertAll(InsertAll(bs, a), b)
    decreases |a|
  {
    hide Insert;
    if a == [] {
      assert a + b == b;
    } else {
      assert (a + b)[0] == a[0] && (a + b)[1..] == a[1..] + b;
      InsertAllConcat(Insert(bs, a[0]), a[1..], b);
    }
  }

  lemma {:induction false} DataHitsOpen(data: bytes, ss: seq<Section>, w: nat, base: nat, size: nat, spans: seq<Span>)
    requires w > 0 && Addressable(ss) && ss != []
    ensures Addressable(ss[1..]) && ss[0].va + ss[0].rawSize < TWO32
    ensures var rest := DataHits(data, ss[1..], w, base, size, spans);
      DataHits(data, ss, w, base, size, spans)
      == if Collected(data, ss[0]) then SectionHits(data, ss[0], 0, w, base, size, spans) + rest else rest
  {
    hide Collected;
  }

  lemma {:induction false} DataHitsEnd(data: bytes, ss: seq<Section>, w: nat, base: nat, size: nat, spans: seq<Span>)
    requires w > 0 && ss == []
    ensures Addressable(ss) && DataHits(data, ss, w, base, size, spans) == []
  {
  }

  method ShouldCollect(data: bytes, s: Section) returns (r: bool)
    ensures r == Collected(data, s)
  {
    if Executable(s) {
      return false;
    }
    if Uninitialized(s) {
      var hasData := CheckBytes(data, s);
      if !hasData {
        return false;
      }
    }
    if IsReloc(s) {
      return false;
    }
    r := s.rawOffset + s.rawSize <= |data|;
  }

  method CollectSections(builder: RelocationTableBuilder, data: bytes, ss: seq<Section>, w: nat, base: nat,
      size: nat, spans: seq<Span>)
    requires builder.Valid() && w > 0 && Addressable(ss)
    modifies builder
    ensures builder.Valid()
    ensures builder.blocks == InsertAll(old(builder.blocks), DataHits(data, ss, w, base, size, spans))
  {
    hide *;
    for i := 0 to |ss|
      invariant builder.Valid() && Addressable(ss[i..])
      invariant InsertAll(builder.blocks, DataHits(data, ss[i..], w, base, size, spans))
             == InsertAll(old(builder.blocks), DataHits(data, ss, w, base, size, spans))
    {
      assert ss[i..][0] == ss[i] && ss[i..][1..] == ss[i + 1..];
      DataHitsOpen(data, ss[i..], w, base, size, spans);
      var collect := ShouldCollect(data, ss[i]);
      if collect {
        CollectedInside(data, ss[i]);
        InsertAllConcat(builder.blocks, SectionHits(data, ss[i], 0, w, base, size, spans),
                        DataHits(data, ss[i + 1..], w, base, size, spans));
        CollectSection(builder, data, ss[i], w, base, size, spans);
      }
    }
    DataHitsEnd(data, ss[|ss|..], w, base, size, spans);
    InsertNothing(builder.blocks);
  }

  lemma {:induction false} CollectedInside(data: bytes, s: Section)
    requires Collected(data, s)
    ensures s.rawOffset + s.rawSize <= |data|
  {
  }

  /** The builder holds the accepted operands and the selected slots; no image, no builder. */
  method CollectRelocationBuilder(decode: CodeScan.Decoder, data: bytes, is64bit: bool)
    returns (builder: RelocationTableBuilder?, ghost code: seq<CodeScan.Hit>)
    requires CodeScan.Sound(decode) && Bounded(data)
    ensures builder == null <==> Parse(data) == None
    ensures builder != null ==>
      var h := Parse(data).value;
      && fresh(builder) && builder.Valid() && CodeHits(decode, data, h, PtrSize(is64bit), code)
      && builder.blocks == InsertAll([], CodeEntries(code) + DataEntries(data, h, PtrSize(is64bit)))
  {
    hide Parse, Spans, InsertAll, DataHits, Areas, CodeScan.AllHits, InSpans;
    code := [];
    var parsed := Parse(data);
    if parsed.None? {
      return null, code;
    }
    var h := parsed.value;
    var w := PtrSize(is64bit);
    builder := new RelocationTableBuilder(h.imageBase, h.sizeOfImage);
    var spans := ImportMetadataRanges(h, data, is64bit);
    if !is64bit {
      var areas := CollectAreas(h.sections);
      var hits := CodeScan.ScanCodeRelocations(decode, data, h.imageBase % TWO32, h.sizeOfImage, areas, Rejects(spans));
      AddCodeHits(builder, hits);
      code := hits;
    } else {
      InsertNothing([]);
    }
    InsertAllConcat([], CodeEntries(code), DataEntries(data, h, w));
    CollectSections(builder, data, h.sections, w, h.imageBase, h.sizeOfImage, spans);
  }

  /** What the table over data would take; nothing for data that is no image. */
  method EstimateRelocTableSize(decode: CodeScan.Decoder, data: bytes, is64bit: bool)
    returns (size: nat, ghost code: seq<CodeScan.Hit>)
    requires CodeScan.Sound(decode) && Bounded(data)
    ensures Parse(data).None? ==> size == 0
    ensures Parse(data).Some? ==>
      var h := Parse(data).value;
      && CodeHits(decode, data, h, PtrSize(is64bit), code)
      && size == TableLength(InsertAll([], CodeEntries(code) + DataEntries(data, h, PtrSize(is64bit)))) % TWO32
  {
    hide Parse, InsertAll, DataEntries, CodeHits, TableBytes, TableLength, Bounded;
    var builder;
    builder, code := CollectRelocationBuilder(decode, data, is64bit);
    if builder == null {
      return 0, code;
    }
    var table := builder.Build();
    TableBytesLength(builder.blocks);
    size := |table| % TWO32;
  }

  // ---- Exactly the selected slots ------------------------------------------------------------------

  /** e is the entry of the j-th slot of s, which is selected. */
  ghost predicate HitAt(data: bytes, s: Section, j: nat, w: nat, base: nat, size: nat, spans: seq<Span>, e: Entry)
  {
    && w * j + w <= s.rawSize && s.rawOffset + s.rawSize <= |data|
    && Selected(data, s, w * j, w, base, size, spans)
    && e.rva == s.va + w * j && e.typ == PointerType(w)
  }

  ghost predicate HitFrom(data: bytes, s: Section, m: nat, w: nat, base: nat, size: nat, spans: seq<Span>, e: Entry)
  {
    exists j: nat :: m <= j && HitAt(data, s, j, w, base, size, spans, e)
  }

  lemma {:induction false} HitFromCons(data: bytes, s: Section, m: nat, w: nat, base: nat, size: nat,
      spans: seq<Span>, e: Entry)
    ensures HitFrom(data, s, m, w, base, size, spans, e)
        <==> HitAt(data, s, m, w, base, size, spans, e) || HitFrom(data, s, m + 1, w, base, size, spans, e)
  {
    hide HitAt;
  }

  lemma {:induction false} HitFromEnd(data: bytes, s: Section, m: nat, w: nat, base: nat, size: nat,
      spans: seq<Span>, e: Entry)
    requires w * m + w > s.rawSize
    ensures !HitFrom(data, s, m, w, base, size, spans, e)
  {
    hide Selected;
    forall j: nat | m <= j ensures !HitAt(data, s, j, w, base, size, spans, e) {
    }
  }

  lemma {:induction false} HitAtOpen(data: bytes, s: Section, m: nat, w: nat, base: nat, size: nat,
      spans: seq<Span>, e: Entry)
    requires w * m + w <= s.rawSize && s.rawOffset + s.rawSize <= |data| && s.va + s.rawSize < TWO32 && w > 0
    ensures HitAt(data, s, m, w, base, size, spans, e)
       <==> Selected(data, s, w * m, w, base, size, spans) && e == Entry(s.va + w * m, PointerType(w))
  {
    hide Selected;
  }

  lemma {:induction false} SectionHitsAre(data: bytes, s: Section, m: nat, w: nat, base: nat, size: nat,
      spans: seq<Span>, e: Entry)
    requires w > 0 && s.rawOffset + s.rawSize <= |data| && s.va + s.rawSize < TWO32
    ensures e in SectionHits(data, s, w * m, w, base, size, spans) <==> HitFrom(data, s, m, w, base, size, spans, e)
    decreases s.rawSize - w * m
  {
    hide *;
    if w * m + w > s.rawSize {
      SectionHitsEnd(data, s, w * m, w, base, size, spans);
      HitFromEnd(data, s, m, w, base, size, spans, e);
    } else {
      SectionHitsOpen(data, s, w * m, w, base, size, spans);
      SectionHitsAre(data, s, m + 1, w, base, size, spans, e);
      HitFromCons(data, s, m, w, base, size, spans, e);
      HitAtOpen(data, s, m, w, base, size, spans, e);
    }
  }

  ghost predicate HitIn(data: bytes, ss: seq<Section>, w: nat, base: nat, size: nat, spans: seq<Span>, e: Entry)
  {
    exists i :: 0 <= i < |ss| && Collected(data, ss[i]) && HitFrom(data, ss[i], 0, w, base, size, spans, e)
  }

  lemma {:induction false} HitInCons(data: bytes, ss: seq<Section>, w: nat, base: nat, size: nat, spans: seq<Span>,
      e: Entry)
    requires ss != []
    ensures HitIn(data, ss, w, base, size, spans, e)
      <==>
      || (Collected(data, ss[0]) && HitFrom(data, ss[0], 0, w, base, size, spans, e))
      || HitIn(data, ss[1..], w, base, size, spans, e)
  {
    hide Collected, HitFrom;
    if HitIn(data, ss[1..], w, base, size, spans, e) {
      var i :| 0 <= i < |ss[1..]| && Collected(data, ss[1..][i])
          && HitFrom(data, ss[1..][i], 0, w, base, size, spans, e);
      assert ss[i + 1] == ss[1..][i];
    }
    if HitIn(data, ss, w, base, size, spans, e)
        && !(Collected(data, ss[0]) && HitFrom(data, ss[0], 0, w, base, size, spans, e)) {
      var i :| 0 <= i < |ss| && Collected(data, ss[i]) && HitFrom(data, ss[i], 0, w, base, size, spans, e);
      assert ss[1..][i - 1] == ss[i];
    }
  }

  /** An entry is collected exactly if it is that of a selected slot of a collected section. */
  lemma {:induction false} DataHitsAre(data: bytes, ss: seq<Section>, w: nat, base: nat, size: nat,
      spans: seq<Span>, e: Entry)
    requires w > 0 && Addressable(ss)
    ensures e in DataHits(data, ss, w, base, size, spans) <==> HitIn(data, ss, w, base, size, spans, e)
    decreases |ss|
  {
    hide *;
    if ss == [] {
      DataHitsEnd(data, ss, w, base, size, spans);
      NotHitIn(data, ss, w, base, size, spans, e);
    } else {
      DataHitsOpen(data, ss, w, base, size, spans);
      DataHitsAre(data, ss[1..], w, base, size, spans, e);
      HitInCons(data, ss, w, base, size, spans, e);
      if Collected(data, ss[0]) {
        CollectedInside(data, ss[0]);
        SectionHitsAre(data, ss[0], 0, w, base, size, spans, e);
      }
    }
  }

  lemma {:induction false} NotHitIn(data: bytes, ss: seq<Section>, w: nat, base: nat, size: nat, spans: seq<Span>,
      e: Entry)
    requires ss == []
    ensures !HitIn(data, ss, w, base, size, spans, e)
  {
  }

  /** No entry, of code or of data, starts inside the import metadata. */
  lemma {:induction false} EntriesAvoidMetadata(decode: CodeScan.Decoder, data: bytes, h: Header, w: nat,
      code: seq<CodeScan.Hit>, e: Entry)
    requires CodeScan.Sound(decode) && (w == 4 || w == 8) && |data| <= TWO32 && Addressable(h.sections)
    requires CodeHits(decode, data, h, w, code) && e in CodeEntries(code) + DataEntries(data, h, w)
    ensures !InSpans(Spans(h, data, w), e.rva)
  {
    hide Spans, InSpans, DataHits, CodeScan.AllHits, Areas, HitIn;
    if e in DataEntries(data, h, w) {
      DataHitsAre(data, h.sections, w, h.imageBase, h.sizeOfImage, Spans(h, data, w), e);
      HitAvoids(data, h.sections, w, h.imageBase, h.sizeOfImage, Spans(h, data, w), e);
    } else {
      CodeEntryOf(code, e);
      var x :| x in code && x.rva == e.rva;
      var base: u32 := h.imageBase % TWO32;
      if w == 4 {
        CodeScan.HitsAreOperands(decode, data, Areas(h.sections), base, CodeScan.SaturatingAdd(base, h.sizeOfImage),
                                 Rejects(Spans(h, data, w)), x.rva);
      }
    }
  }

  lemma {:induction false} HitAvoids(data: bytes, ss: seq<Section>, w: nat, base: nat, size: nat, spans: seq<Span>,
      e: Entry)
    requires HitIn(data, ss, w, base, size, spans, e)
    ensures !InSpans(spans, e.rva)
  {
    hide InSpans, Collected;
  }

  lemma {:induction false} CodeEntryOf(code: seq<CodeScan.Hit>, e: Entry)
    requires e in CodeEntries(code)
    ensures exists x :: x in code && x.rva == e.rva
  {
    if e in CodeEntries(code[1..]) {
      CodeEntryOf(code[1..], e);
    } else {
      assert code[0] in code && code[0].rva == e.rva;
    }
  }

  /** A section an import section was rebuilt into keeps clear of relocation entries altogether. */
  lemma {:induction false} RebuiltImportsKeptClear(
      decode: CodeScan.Decoder, data: bytes, h: Header, raw: nat, ms: seq<Module>, w: nat, code: seq<CodeScan.Hit>,
          e: Entry)
    requires CodeScan.Sound(decode) && (w == 4 || w == 8) && |data| <= TWO32 && Addressable(h.sections)
    requires CodeHits(decode, data, h, w, code) && e in CodeEntries(code) + DataEntries(data, h, w)
    requires Mapped(h, data, SectionBytes(ms, h.importRva, w), h.importRva, raw)
    requires h.importRva > 0 && h.importRva + SectionSize(ms, w) < 0x8000_0000
    requires |ms| <= 511 && forall i :: 0 <= i < |ms| ==> WalkableModule(ms[i], w)
    ensures e.rva < h.importRva || h.importRva + SectionSize(ms, w) <= e.rva
  {
    hide *;
    SectionCovered(h, data, raw, ms, w);
    EntriesAvoidMetadata(decode, data, h, w, code, e);
    CoversExcludes(Spans(h, data, w), h.importRva, h.importRva + SectionSize(ms, w), e.rva);
  }

  /**
   * The section the dumper writes and the slots its descriptors lead to keep clear of entries too: none
   * starts in the section, none among the slots of any module.
   */
  lemma {:induction false} DumpedImportsKeptClear(decode: CodeScan.Decoder, data: bytes, h: Header, raw: nat,
      ms: seq<Module>, iatRva: nat, records: bool, w: nat, code: seq<CodeScan.Hit>, e: Entry, j: nat)
    requires CodeScan.Sound(decode) && |data| <= TWO32 && Addressable(h.sections)
    requires Rebuilt(h, data, raw, ms, iatRva, records, w) && (w == 4 || w == 8)
    requires CodeHits(decode, data, h, w, code) && e in CodeEntries(code) + DataEntries(data, h, w)
    ensures e.rva < h.importRva || h.importRva + |Dense.Section(ms, h.importRva, iatRva, records, w)| <= e.rva
    ensures j < |ms| ==>
      var first := FirstOf(ms, j, iatRva, records, w); e.rva < first || first + TableSize(ms[j], w) <= e.rva
  {
    hide *;
    RebuiltCovered(h, data, raw, ms, iatRva, records, w, j);
    EntriesAvoidMetadata(decode, data, h, w, code, e);
    var spans := Spans(h, data, w);
    CoversExcludes(spans, h.importRva, h.importRva + |Dense.Section(ms, h.importRva, iatRva, records, w)|, e.rva);
    if j < |ms| {
      CoversExcludes(spans, FirstOf(ms, j, iatRva, records, w),
                     FirstOf(ms, j, iatRva, records, w) + TableSize(ms[j], w), e.rva);
    }
  }

  lemma {:induction false} CoversExcludes(spans: seq<Span>, lo: nat, hi: nat, rva: nat)
    requires Covers(spans, lo, hi) && !InSpans(spans, rva)
    ensures rva < lo || hi <= rva
  {
    hide InSpans;
  }

  // ---- Entries name disjoint slots ------------------------------------------------------------------

  /** Entries that come in ascending order, each slot behind the one before, all between lo and hi. */
  ghost predicate Spread(es: seq<Entry>, w: nat, lo: nat, hi: nat)
  {
    && (forall k :: 0 <= k < |es| ==> es[k].typ == PointerType(w) && lo <= es[k].rva && es[k].rva + w <= hi)
    && (forall i, j :: 0 <= i < j < |es| ==> es[i].rva + w <= es[j].rva)
  }

  lemma {:induction false} SpreadCons(e: Entry, es: seq<Entry>, w: nat, lo: nat, hi: nat)
    requires Spread(es, w, lo + w, hi) && e.rva == lo && e.typ == PointerType(w) && lo + w <= hi
    ensures Spread([e] + es, w, lo, hi)
  {
  }

  lemma {:induction false} SpreadWiden(es: seq<Entry>, w: nat, lo: nat, hi: nat)
    requires Spread(es, w, lo + w, hi)
    ensures Spread(es, w, lo, hi)
  {
  }

  lemma {:induction false} SectionHitsSpread(data: bytes, s: Section, offset: nat, w: nat, base: nat, size: nat,
      spans: seq<Span>)
    requires w > 0 && s.rawOffset + s.rawSize <= |data| && s.va + s.rawSize < TWO32
    ensures Spread(SectionHits(data, s, offset, w, base, size, spans), w, s.va + offset, s.va + s.rawSize)
    decreases s.rawSize - offset
  {
    hide *;
    if offset + w > s.rawSize {
      SectionHitsEnd(data, s, offset, w, base, size, spans);
      SpreadNone(w, s.va + offset, s.va + s.rawSize);
    } else {
      SectionHitsOpen(data, s, offset, w, base, size, spans);
      SectionHitsSpread(data, s, offset + w, w, base, size, spans);
      var rest := SectionHits(data, s, offset + w, w, base, size, spans);
      assert s.va + (offset + w) == s.va + offset + w;
      SpreadWiden(rest, w, s.va + offset, s.va + s.rawSize);
      if Selected(data, s, offset, w, base, size, spans) {
        SpreadCons(Entry(s.va + offset, PointerType(w)), rest, w, s.va + offset, s.va + s.rawSize);
      }
    }
  }

  lemma {:induction false} SpreadNone(w: nat, lo: nat, hi: nat)
    ensures Spread([], w, lo, hi)
  {
  }

  /** No two slots of w bytes overlap, and each lies in the addresses of a data section other than the table's own. */
  ghost predicate Separate(es: seq<Entry>, w: nat)
  {
    forall i, j :: 0 <= i < j < |es| ==> es[i].rva + w <= es[j].rva || es[j].rva + w <= es[i].rva
  }

  ghost predicate Within(e: Entry, ss: seq<Section>, w: nat)
  {
    exists i :: 0 <= i < |ss| && !Executable(ss[i]) && !IsReloc(ss[i]) && ss[i].va <= e.rva
        && e.rva + w <= ss[i].va + ss[i].rawSize
  }

  ghost predicate AllWithin(es: seq<Entry>, ss: seq<Section>, w: nat)
  {
    forall k :: 0 <= k < |es| ==> es[k].typ == PointerType(w) && Within(es[k], ss, w)
  }

  predicate AddressesApart(s: Section, t: Section) { s.va + s.rawSize <= t.va || t.va + t.rawSize <= s.va }

  ghost predicate AllAddressesApart(ss: seq<Section>)
  {
    forall i, j :: 0 <= i < j < |ss| ==> AddressesApart(ss[i], ss[j])
  }

  lemma {:induction false} WithinMore(e: Entry, ss: seq<Section>, w: nat)
    requires ss != [] && Within(e, ss[1..], w)
    ensures Within(e, ss, w)
  {
    hide Executable, IsReloc;
    var i :| 0 <= i < |ss[1..]| && !Executable(ss[1..][i]) && !IsReloc(ss[1..][i])
      && ss[1..][i].va <= e.rva && e.rva + w <= ss[1..][i].va + ss[1..][i].rawSize;
    assert ss[i + 1] == ss[1..][i];
  }

  lemma {:induction false} WithinFirst(e: Entry, ss: seq<Section>, w: nat)
    requires ss != [] && !Executable(ss[0]) && !IsReloc(ss[0]) && ss[0].va <= e.rva
    requires e.rva + w <= ss[0].va + ss[0].rawSize
    ensures Within(e, ss, w)
  {
  }

  lemma {:induction false} WithinApart(e: Entry, s: Section, ss: seq<Section>, w: nat)
    requires Within(e, ss, w) && forall i :: 0 <= i < |ss| ==> AddressesApart(s, ss[i])
    ensures s.va + s.rawSize <= e.rva || e.rva + w <= s.va
  {
    hide Executable, IsReloc;
  }

  lemma {:induction false} SeparateConcat(a: seq<Entry>, b: seq<Entry>, w: nat, lo: nat, hi: nat)
    requires Spread(a, w, lo, hi) && Separate(b, w)
    requires forall k :: 0 <= k < |b| ==> hi <= b[k].rva || b[k].rva + w <= lo
    ensures Separate(a + b, w)
  {
  }

  lemma {:induction false} DataHitsSeparate(data: bytes, ss: seq<Section>, w: nat, base: nat, size: nat,
      spans: seq<Span>)
    requires w > 0 && Addressable(ss) && AllAddressesApart(ss)
    ensures Separate(DataHits(data, ss, w, base, size, spans), w)
    ensures AllWithin(DataHits(data, ss, w, base, size, spans), ss, w)
    decreases |ss|
  {
    hide *;
    if ss == [] {
      DataHitsEnd(data, ss, w, base, size, spans);
      NoneSeparate(ss, w);
    } else {
      ApartTail(ss);
      DataHitsOpen(data, ss, w, base, size, spans);
      var rest := DataHits(data, ss[1..], w, base, size, spans);
      DataHitsSeparate(data, ss[1..], w, base, size, spans);
      AllWithinMore(rest, ss, w);
      if Collected(data, ss[0]) {
        CollectedInside(data, ss[0]);
        SectionHitsSpread(data, ss[0], 0, w, base, size, spans);
        CollectedKind(data, ss[0]);
        RestApart(rest, ss, w);
        var first := SectionHits(data, ss[0], 0, w, base, size, spans);
        SeparateConcat(first, rest, w, ss[0].va, ss[0].va + ss[0].rawSize);
        SpreadWithin(first, ss, w);
        AllWithinConcat(first, rest, ss, w);
      }
    }
  }

  lemma {:induction false} NoneSeparate(ss: seq<Section>, w: nat)
    ensures Separate([], w) && AllWithin([], ss, w)
  {
  }

  lemma {:induction false} ApartTail(ss: seq<Section>)
    requires ss != [] && AllAddressesApart(ss)
    ensures AllAddressesApart(ss[1..]) && forall i :: 0 <= i < |ss[1..]| ==> AddressesApart(ss[0], ss[1..][i])
  {
    hide AddressesApart;
    forall i, j | 0 <= i < j < |ss[1..]| ensures AddressesApart(ss[1..][i], ss[1..][j]) {
      assert AddressesApart(ss[i + 1], ss[j + 1]);
    }
  }

  lemma {:induction false} AllWithinMore(es: seq<Entry>, ss: seq<Section>, w: nat)
    requires ss != [] && AllWithin(es, ss[1..], w)
    ensures AllWithin(es, ss, w)
  {
    hide Within;
    forall k | 0 <= k < |es| ensures Within(es[k], ss, w) {
      WithinMore(es[k], ss, w);
    }
  }

  lemma {:induction false} CollectedKind(data: bytes, s: Section)
    requires Collected(data, s)
    ensures !Executable(s) && !IsReloc(s)
  {
  }

  lemma {:induction false} RestApart(es: seq<Entry>, ss: seq<Section>, w: nat)
    requires ss != [] && AllWithin(es, ss[1..], w)
    requires forall i :: 0 <= i < |ss[1..]| ==> AddressesApart(ss[0], ss[1..][i])
    ensures forall k :: 0 <= k < |es| ==> ss[0].va + ss[0].rawSize <= es[k].rva || es[k].rva + w <= ss[0].va
  {
    hide Within, AddressesApart;
    forall k | 0 <= k < |es| ensures ss[0].va + ss[0].rawSize <= es[k].rva || es[k].rva + w <= ss[0].va {
      WithinApart(es[k], ss[0], ss[1..], w);
    }
  }

  lemma {:induction false} SpreadWithin(es: seq<Entry>, ss: seq<Section>, w: nat)
    requires ss != [] && !Executable(ss[0]) && !IsReloc(ss[0]) && Spread(es, w, ss[0].va + 0, ss[0].va + ss[0].rawSize)
    ensures AllWithin(es, ss, w)
  {
    hide Within, Executable, IsReloc;
    forall k | 0 <= k < |es| ensures Within(es[k], ss, w) {
      WithinFirst(es[k], ss, w);
    }
  }

  lemma {:induction false} AllWithinConcat(a: seq<Entry>, b: seq<Entry>, ss: seq<Section>, w: nat)
    requires AllWithin(a, ss, w) && AllWithin(b, ss, w)
    ensures AllWithin(a + b, ss, w)
  {
    hide Within;
  }

  // ---- Fewer exclusions, longer table -----------------------------------------------------------------

  lemma {:induction false} SectionHitsFewer(data: bytes, s: Section, offset: nat, w: nat, base: nat, size: nat,
      less: seq<Span>, more: seq<Span>)
    requires w > 0 && s.rawOffset + s.rawSize <= |data| && s.va + s.rawSize < TWO32
    requires forall x: nat :: InSpans(less, x) ==> InSpans(more, x)
    ensures multiset(SectionHits(data, s, offset, w, base, size, more))
        <= multiset(SectionHits(data, s, offset, w, base, size, less))
    decreases s.rawSize - offset
  {
    hide *;
    if offset + w <= s.rawSize {
      SectionHitsFewer(data, s, offset + w, w, base, size, less, more);
      SectionHitsOpen(data, s, offset, w, base, size, less);
      SectionHitsOpen(data, s, offset, w, base, size, more);
      SelectedFewer(data, s, offset, w, base, size, less, more);
      MultisetCons(Entry(s.va + offset, PointerType(w)), SectionHits(data, s, offset + w, w, base, size, more),
                   SectionHits(data, s, offset + w, w, base, size, less));
    } else {
      SectionHitsEnd(data, s, offset, w, base, size, less);
      SectionHitsEnd(data, s, offset, w, base, size, more);
    }
  }

  lemma {:induction false} SelectedFewer(data: bytes, s: Section, offset: nat, w: nat, base: nat, size: nat,
      less: seq<Span>, more: seq<Span>)
    requires s.rawOffset + offset + w <= |data|
    requires forall x: nat :: InSpans(less, x) ==> InSpans(more, x)
    ensures Selected(data, s, offset, w, base, size, more) ==> Selected(data, s, offset, w, base, size, less)
  {
    hide Get, InSpans;
  }

  lemma {:induction false} MultisetCons<T>(e: T, a: seq<T>, b: seq<T>)
    requires multiset(a) <= multiset(b)
    ensures multiset([e] + a) <= multiset([e] + b) && multiset(a) <= multiset([e] + b)
  {
    assert multiset([e] + a) == multiset{e} + multiset(a) && multiset([e] + b) == multiset{e} + multiset(b);
  }

  /** Protecting more ranges only removes entries, so a table sized before they were known is large enough. */
  lemma {:induction false} DataHitsFewer(data: bytes, ss: seq<Section>, w: nat, base: nat, size: nat,
      less: seq<Span>, more: seq<Span>)
    requires w > 0 && Addressable(ss)
    requires forall x: nat :: InSpans(less, x) ==> InSpans(more, x)
    ensures multiset(DataHits(data, ss, w, base, size, more)) <= multiset(DataHits(data, ss, w, base, size, less))
    decreases |ss|
  {
    hide SectionHits, InSpans, Collected;
    if ss != [] {
      DataHitsFewer(data, ss[1..], w, base, size, less, more);
      DataHitsOpen(data, ss, w, base, size, less);
      DataHitsOpen(data, ss, w, base, size, more);
      if Collected(data, ss[0]) {
        CollectedInside(data, ss[0]);
        SectionHitsFewer(data, ss[0], 0, w, base, size, less, more);
      }
    }
  }

  /** Protecting more ranges only takes operands away. */
  lemma {:induction false} CodeHitsFewer(decode: CodeScan.Decoder, data: bytes, areas: seq<CodeScan.Area>, base: u32,
      end: u32, less: seq<Span>, more: seq<Span>, x: CodeScan.Hit)
    requires CodeScan.Sound(decode)
    requires forall y: nat :: InSpans(less, y) ==> InSpans(more, y)
    requires x in CodeScan.AllHits(decode, data, areas, base, end, Rejects(more))
    ensures x in CodeScan.AllHits(decode, data, areas, base, end, Rejects(less))
  {
    hide CodeScan.AllHits, CodeScan.Operand, InSpans, Get;
    CodeScan.HitsAreOperands(decode, data, areas, base, end, Rejects(more), x.rva);
    CodeScan.HitsAreOperands(decode, data, areas, base, end, Rejects(less), x.rva);
  }

  lemma {:induction false} CodeEntriesAt(code: seq<CodeScan.Hit>)
    ensures |CodeEntries(code)| == |code|
    ensures forall i :: 0 <= i < |code| ==> CodeEntries(code)[i] == Entry(code[i].rva, HIGHLOW)
  {
    if code != [] {
      CodeEntriesAt(code[1..]);
    }
  }

  /** Entries without repetition among others are a part of them. */
  lemma {:induction false} DistinctPart<T>(a: seq<T>, b: seq<T>)
    requires (forall i, j :: 0 <= i < j < |a| ==> a[i] != a[j]) && forall x :: x in a ==> x in b
    ensures multiset(a) <= multiset(b)
  {
    forall x ensures multiset(a)[x] <= multiset(b)[x] {
      OccursOnce(a, x);
      if x in a {
        assert x in b && x in multiset(b);
      }
    }
  }

  lemma {:induction false} OccursOnce<T>(a: seq<T>, x: T)
    requires forall i, j :: 0 <= i < j < |a| ==> a[i] != a[j]
    ensures multiset(a)[x] <= 1 && (x !in a ==> multiset(a)[x] == 0)
  {
    if a != [] {
      var rest := a[1..];
      assert a == [a[0]] + rest;
      OccursOnce(rest, x);
      if x == a[0] {
        assert x !in rest;
      }
    }
  }

  lemma {:induction false} CodeEntriesFewer(less: seq<CodeScan.Hit>, more: seq<CodeScan.Hit>)
    requires CodeScan.Increasing(more) && forall x :: x in more ==> x in less
    ensures multiset(CodeEntries(more)) <= multiset(CodeEntries(less))
  {
    CodeEntriesAt(less);
    CodeEntriesAt(more);
    var a, b := CodeEntries(more), CodeEntries(less);
    forall e | e in a ensures e in b {
      var i :| 0 <= i < |a| && a[i] == e;
      assert more[i] in less;
      var j :| 0 <= j < |less| && less[j] == more[i];
      assert b[j] == e;
    }
    DistinctPart(a, b);
  }

  lemma {:induction false} CodeFewer(decode: CodeScan.Decoder, data: bytes, h: Header, w: nat, less: seq<Span>,
      more: seq<Span>, codeLess: seq<CodeScan.Hit>, codeMore: seq<CodeScan.Hit>)
    requires CodeScan.Sound(decode) && forall y: nat :: InSpans(less, y) ==> InSpans(more, y)
    requires CodeHitsUnder(decode, data, h, w, less, codeLess) && CodeHitsUnder(decode, data, h, w, more, codeMore)
    ensures multiset(CodeEntries(codeMore)) <= multiset(CodeEntries(codeLess))
  {
    hide CodeScan.AllHits, InSpans, Areas, Rejects, CodeScan.Increasing, CodeEntries;
    if w != 8 {
      var base: u32 := h.imageBase % TWO32;
      forall x | x in codeMore ensures x in codeLess {
        CodeHitsFewer(decode, data, Areas(h.sections), base, CodeScan.SaturatingAdd(base, h.sizeOfImage), less, more,
                      x);
      }
      CodeEntriesFewer(codeLess, codeMore);
    }
  }

  /** The table over the entries collected with these ranges protected. */
  function TableUnder(data: bytes, h: Header, w: nat, spans: seq<Span>, code: seq<CodeScan.Hit>): seq<Block>
    requires w > 0 && Addressable(h.sections)
  {
    InsertAll([], CodeEntries(code) + DataHits(data, h.sections, w, h.imageBase, h.sizeOfImage, spans))
  }

  /**
   * The size estimated from a file is enough for its table however much more metadata comes to be
   * protected, code operands included; the estimate is returned cut to 32 bits.
   */
  lemma {:induction false} EstimateCovers(decode: CodeScan.Decoder, data: bytes, h: Header, w: nat, more: seq<Span>,
      code: seq<CodeScan.Hit>, codeMore: seq<CodeScan.Hit>)
    requires CodeScan.Sound(decode) && w > 0 && Addressable(h.sections)
    requires forall y: nat :: InSpans(Spans(h, data, w), y) ==> InSpans(more, y)
    requires CodeHits(decode, data, h, w, code) && CodeHitsUnder(decode, data, h, w, more, codeMore)
    ensures Ordered(TableUnder(data, h, w, more, codeMore))
    ensures var size, estimate := |TableBytes(TableUnder(data, h, w, more, codeMore))|,
                                  TableLength(InsertAll([], CodeEntries(code) + DataEntries(data, h, w)));
      size <= estimate && (estimate < TWO32 ==> size <= estimate % TWO32)
  {
    hide Spans, InSpans, DataHits, CodeHitsUnder, InsertAll, TableBytes, TableLength, CodeEntries, Ordered;
    var less := Spans(h, data, w);
    CodeFewer(decode, data, h, w, less, more, code, codeMore);
    DataHitsFewer(data, h.sections, w, h.imageBase, h.sizeOfImage, less, more);
    var a := DataHits(data, h.sections, w, h.imageBase, h.sizeOfImage, more);
    EstimateIsUpperBound(CodeEntries(codeMore) + a, CodeEntries(code) + DataEntries(data, h, w));
    OrderedLength(InsertAll([], CodeEntries(code) + DataEntries(data, h, w)));
  }

  lemma {:induction false} OrderedLength(bs: seq<Block>)
    requires Ordered(bs)
    ensures |TableBytes(bs)| == TableLength(bs)
  {
    TableBytesLength(bs);
  }

}
