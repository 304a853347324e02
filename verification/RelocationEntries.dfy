/** What gets a relocation entry, said on the bytes of the file (crates/pe/src/postprocess.rs:380-531). */
module RelocationEntries {
  import opened Words
  import opened Pe
  import opened ImportMetadata
  import opened ImportProtection
  import opened Relocation
  import opened AddressFix
  import opened RelocationCollect
  import CodeScan

  /** Neither code nor the table's own section, and in the file. */
  ghost predicate DataSection(data: bytes, s: Section)
  {
    HoldsData(data, s) && s.name != [0x2E, 0x72, 0x65, 0x6C, 0x6F, 0x63] && s.rawOffset + s.rawSize <= |data|
  }

  /** The j-th slot of section i points into the image, does not start in import metadata, and e is its entry. */
  ghost predicate SlotEntry(data: bytes, h: Header, w: nat, i: nat, j: nat, e: Entry)
  {
    && (w == 4 || w == 8) && i < |h.sections| && DataSection(data, h.sections[i])
    && var s := h.sections[i];
       && w * j + w <= s.rawSize
       && h.imageBase <= Get(data, s.rawOffset + w * j, w) < h.imageBase + h.sizeOfImage
       && e.rva == s.va + w * j && e.typ == (if w == 8 then 10 else 3) && !ImportByte(h, data, w, e.rva)
  }

  lemma {:induction false} CollectedIff(data: bytes, s: Section)
    ensures Collected(data, s) <==> DataSection(data, s)
  {
    hide HoldsData, Scanned;
    if s.rawOffset + s.rawSize <= |data| {
      ScannedIff(data, s);
    } else {
      NotInFile(data, s);
    }
  }

  lemma {:induction false} NotInFile(data: bytes, s: Section)
    requires s.rawOffset + s.rawSize > |data|
    ensures !Scanned(data, s)
  {
    hide HasData;
  }

  lemma {:induction false} SlotIff(data: bytes, h: Header, w: nat, i: nat, j: nat, e: Entry)
    requires (w == 4 || w == 8) && i < |h.sections|
    ensures SlotEntry(data, h, w, i, j, e)
       <==> Collected(data, h.sections[i])
            && HitAt(data, h.sections[i], j, w, h.imageBase, h.sizeOfImage, Spans(h, data, w), e)
  {
    hide Get, Collected, DataSection, ImportByte, Spans, InSpans;
    CollectedIff(data, h.sections[i]);
    DataInFile(data, h.sections[i]);
    if e.rva == h.sections[i].va + w * j {
      SpansAre(h, data, w, e.rva);
    }
  }

  lemma {:induction false} DataInFile(data: bytes, s: Section)
    ensures DataSection(data, s) ==> s.rawOffset + s.rawSize <= |data|
  {
    hide HoldsData;
  }

  /**
   * The data entries are exactly those of the pointer-sized slots of data sections that point into the image
   * and do not start in a byte of the import metadata.
   */
  lemma {:induction false} DataEntriesIff(data: bytes, h: Header, w: nat, e: Entry)
    requires (w == 4 || w == 8) && Addressable(h.sections)
    ensures e in DataEntries(data, h, w) <==> exists i: nat, j: nat :: SlotEntry(data, h, w, i, j, e)
  {
    hide DataHits, Collected, HitAt, SlotEntry, Spans, Addressable;
    var spans := Spans(h, data, w);
    DataHitsAre(data, h.sections, w, h.imageBase, h.sizeOfImage, spans, e);
    if e in DataEntries(data, h, w) {
      var i :| 0 <= i < |h.sections| && Collected(data, h.sections[i])
        && HitFrom(data, h.sections[i], 0, w, h.imageBase, h.sizeOfImage, spans, e);
      var j: nat :| HitAt(data, h.sections[i], j, w, h.imageBase, h.sizeOfImage, spans, e);
      SlotIff(data, h, w, i, j, e);
    }
    if i: nat, j: nat :| SlotEntry(data, h, w, i, j, e) {
      EntrySection(data, h, w, i, j, e);
      SlotIff(data, h, w, i, j, e);
      assert HitFrom(data, h.sections[i], 0, w, h.imageBase, h.sizeOfImage, spans, e);
    }
  }

  lemma {:induction false} EntrySection(data: bytes, h: Header, w: nat, i: nat, j: nat, e: Entry)
    requires SlotEntry(data, h, w, i, j, e)
    ensures i < |h.sections|
  {
    hide DataSection, Get, ImportByte;
  }

  // ---- Code ------------------------------------------------------------------------------------------------

  /** The sweep of section i, which is not the table's, comes to an address constant at rva. */
  ghost predicate AddressInSection(decode: CodeScan.Decoder, data: bytes, ss: seq<Section>, i: nat, rva: nat)
  {
    && i < |ss| && ss[i].name != [0x2E, 0x72, 0x65, 0x6C, 0x6F, 0x63]
    && exists p: nat :: CodeScan.AddressAt(decode, data, CodeScan.Area(ss[i].va, ss[i].rawSize, ss[i].chars), p, rva)
  }

  ghost predicate CodeAddress(decode: CodeScan.Decoder, data: bytes, ss: seq<Section>, rva: nat)
  {
    exists i: nat :: AddressInSection(decode, data, ss, i, rva)
  }

  lemma {:induction false} AreaIn(areas: seq<CodeScan.Area>, decode: CodeScan.Decoder, data: bytes, rva: nat)
    requires areas != []
    ensures CodeScan.AddressIn(decode, data, areas, rva)
       <==>
       || (exists p: nat :: CodeScan.AddressAt(decode, data, areas[0], p, rva))
       || CodeScan.AddressIn(decode, data, areas[1..], rva)
  {
    hide CodeScan.AddressAt;
    if n, p: nat :| 0 <= n < |areas| && CodeScan.AddressAt(decode, data, areas[n], p, rva) {
      if n > 0 {
        assert areas[1..][n - 1] == areas[n];
      }
    }
    if n, p: nat :| 0 <= n < |areas[1..]| && CodeScan.AddressAt(decode, data, areas[1..][n], p, rva) {
      assert areas[n + 1] == areas[1..][n];
    }
  }

  lemma {:induction false} SectionNext(decode: CodeScan.Decoder, data: bytes, ss: seq<Section>, rva: nat)
    requires ss != []
    ensures CodeAddress(decode, data, ss, rva)
       <==> AddressInSection(decode, data, ss, 0, rva) || CodeAddress(decode, data, ss[1..], rva)
  {
    hide CodeScan.AddressAt;
    if i: nat :| AddressInSection(decode, data, ss, i, rva) {
      if i > 0 {
        assert ss[1..][i - 1] == ss[i];
        assert AddressInSection(decode, data, ss[1..], i - 1, rva);
      }
    }
    if i: nat :| AddressInSection(decode, data, ss[1..], i, rva) {
      assert ss[1..][i] == ss[i + 1];
      assert AddressInSection(decode, data, ss, i + 1, rva);
    }
  }

  /** The areas that are swept are the sections other than the table's, at their addresses. */
  lemma {:induction false} AreasAre(decode: CodeScan.Decoder, data: bytes, ss: seq<Section>, rva: nat)
    ensures CodeScan.AddressIn(decode, data, Areas(ss), rva) <==> CodeAddress(decode, data, ss, rva)
    decreases |ss|
  {
    hide CodeScan.AddressAt, CodeScan.AddressIn, CodeAddress;
    if ss == [] {
      NoAreas(decode, data, rva);
    } else {
      AreasAre(decode, data, ss[1..], rva);
      SectionNext(decode, data, ss, rva);
      if !IsReloc(ss[0]) {
        assert Areas(ss)[1..] == Areas(ss[1..]);
        AreaIn(Areas(ss), decode, data, rva);
      } else {
        assert Areas(ss) == [] + Areas(ss[1..]) == Areas(ss[1..]);
      }
    }
  }

  lemma {:induction false} NoAreas(decode: CodeScan.Decoder, data: bytes, rva: nat)
    ensures !CodeScan.AddressIn(decode, data, [], rva) && !CodeAddress(decode, data, [], rva)
  {
  }

  /** The end of the image as a 32-bit word, at most the last one. */
  function ImageEnd(base: u32, size: u32): u32 { if base + size < 0x1_0000_0000 then base + size else 0xFFFF_FFFF }

  /**
   * In a 32-bit file the scan names exactly the address constants of the instructions it comes to whose dword
   * points into the image and does not start in a byte of the import metadata.
   */
  lemma {:induction false} CodeNamesIff(decode: CodeScan.Decoder, data: bytes, h: Header, code: seq<CodeScan.Hit>,
      rva: u32)
    requires CodeScan.Sound(decode) && CodeHits(decode, data, h, 4, code)
    ensures CodeScan.Names(code, rva)
      <==>
      && CodeAddress(decode, data, h.sections, rva) && rva + 4 <= |data|
      && (var base: u32 := h.imageBase % 0x1_0000_0000; base <= Get(data, rva, 4) < ImageEnd(base, h.sizeOfImage))
      && !ImportByte(h, data, 4, rva)
  {
    hide CodeScan.AllHits, CodeScan.AddressIn, CodeAddress, Spans, InSpans, ImportByte, Areas, Get, CodeScan.Names,
      CodeScan.Sound;
    var base: u32 := h.imageBase % TWO32;
    var end, reject := CodeScan.SaturatingAdd(base, h.sizeOfImage), Rejects(Spans(h, data, 4));
    var hits := CodeScan.AllHits(decode, data, Areas(h.sections), base, end, reject);
    CodeScan.ScanNamesIff(decode, data, Areas(h.sections), base, end, reject, rva);
    CodeScan.SameNames(code, hits, rva);
    CodeScan.SameNames(hits, code, rva);
    AreasAre(decode, data, h.sections, rva);
    SpansAre(h, data, 4, rva);
  }
}
