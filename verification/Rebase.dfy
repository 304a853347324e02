/** From a file whose pointers count from its own base to an image that loads anywhere. */
module Rebase {
  import opened Options
  import opened Words
  import opened ImportMetadata
  import opened ImportProtection
  import opened Pe
  import opened Relocation
  import opened RelocationWalk
  import opened RelocationCodec
  import opened AddressFix
  import opened RelocationCollect
  import opened RelocationTable
  import CodeScan

  /** The raw data of both sections, if any, has no byte in common. */
  predicate RawDisjoint(s: Section, t: Section)
  {
    || s.rawSize == 0 || t.rawSize == 0
    || s.rawOffset + s.rawSize <= t.rawOffset || t.rawOffset + t.rawSize <= s.rawOffset
  }

  predicate RawInside(s: Section, lo: nat, n: nat)
  {
    s.rawSize > 0 ==> lo <= s.rawOffset && s.rawOffset + s.rawSize <= n
  }

  /** A file whose sections lie apart in file and memory, behind its headers; raw offsets and addresses may differ. */
  ghost predicate Regular(data: bytes, h: Header)
  {
    && Parse(data) == Some(h) && Addressable(h.sections) && AllAddressesApart(h.sections)
    && (forall i :: 0 <= i < |h.sections| ==> RawInside(h.sections[i], HeaderEnd(h), |data|))
    && (forall i, j :: 0 <= i < j < |h.sections| ==> RawDisjoint(h.sections[i], h.sections[j]))
  }

  /** The table over the entries es. */
  function Table(es: seq<Entry>): bytes
  {
    InsertAllContents([], es);
    TableBytes(InsertAll([], es))
  }

  /** The table of n bytes fits its section's file-aligned reservation, and the directory its entry. */
  predicate Placeable(h: Header, w: nat, idx: nat, n: nat)
  {
    && idx < |h.sections| && IsReloc(h.sections[idx]) && (w == 4 || w == 8)
    && n <= h.sections[idx].rawSize && h.fileAlignment > 0 && h.sections[idx].rawSize % h.fileAlignment == 0
    && 0 < h.sections[idx].rawSize && 0 < h.sections[idx].va
    && n + h.fileAlignment < TWO32 && h.sections[idx].va + n + h.sectionAlignment + 1 < TWO32
    && DirectoryAt(h, w) + 8 <= SectionTable(h)
  }

  /** The file with the table of es written into it. */
  function Product(data: bytes, h: Header, w: nat, es: seq<Entry>, idx: nat): bytes
    requires Regular(data, h) && Placeable(h, w, idx, |Table(es)|)
  {
    TableRoom(data, h, w, es, idx);
    Written(data, Table(es), h, idx, w)
  }

  /** The section's raw bytes stand at its address. */
  ghost predicate PlacedAt(p: bytes, s: Section, m: bytes)
  {
    s.rawOffset + s.rawSize <= |p| && At(m, s.va, p[s.rawOffset..s.rawOffset + s.rawSize])
  }

  /** m is the file as it is mapped: the raw bytes of every section that has any at its address. */
  ghost predicate Placed(p: bytes, ss: seq<Section>, m: bytes)
  {
    forall i :: 0 <= i < |ss| && ss[i].rawSize > 0 ==> PlacedAt(p, ss[i], m)
  }

  /** The product's section table, as it parses. */
  function NewSections(data: bytes, h: Header, w: nat, es: seq<Entry>, idx: nat): seq<Section>
    requires Regular(data, h) && Placeable(h, w, idx, |Table(es)|)
  {
    ProductParses(data, h, w, es, idx);
    Parse(Product(data, h, w, es, idx)).value.sections
  }

  /** The rebasing the program does on the mapped product, led by the product's own directory entry. */
  function Loaded(data: bytes, h: Header, w: nat, es: seq<Entry>, idx: nat, m: bytes, delta: int): Walk
    requires Regular(data, h) && Placeable(h, w, idx, |Table(es)|)
  {
    TableStands(data, h, w, es, idx);
    var p, d := Product(data, h, w, es, idx), DirectoryAt(h, w);
    RebaseWalk(m, U32(p, d), U32(p, d + 4), delta)
  }

  lemma {:induction false} RegularAt(data: bytes, h: Header, i: nat)
    requires Regular(data, h) && i < |h.sections| && h.sections[i].rawSize > 0
    ensures HeaderEnd(h) <= h.sections[i].rawOffset && h.sections[i].rawOffset + h.sections[i].rawSize <= |data|
    ensures h.sections[i].va + h.sections[i].rawSize < TWO32
  {
    hide Parse, HeaderEnd;
    assert RawInside(h.sections[i], HeaderEnd(h), |data|);
  }

  lemma {:induction false} TableRoom(data: bytes, h: Header, w: nat, es: seq<Entry>, idx: nat)
    requires Regular(data, h) && Placeable(h, w, idx, |Table(es)|)
    ensures Roomy(data, Table(es), h, idx, w)
    ensures h.sections[idx].rawOffset == U32(data, HeaderAt(h, idx) + 20)
    ensures h.sections[idx].va == U32(data, HeaderAt(h, idx) + 12)
    ensures AlignUp(|Table(es)|, h.fileAlignment) <= h.sections[idx].rawSize
  {
    hide Parse, Table, AlignUp, Get, Regular;
    RegularParses(data, h);
    HeaderInside(data, h, idx);
    OwnSection(data, h, idx);
    RegularAt(data, h, idx);
    ReservationHolds(|Table(es)|, h.fileAlignment, h.sections[idx].rawSize);
  }

  lemma {:induction false} RegularParses(data: bytes, h: Header)
    requires Regular(data, h)
    ensures Parse(data) == Some(h) && Addressable(h.sections) && AllAddressesApart(h.sections)
  {
    hide Parse, HeaderEnd;
  }

  /** The finished file parses to the old header but for the two sizes of the table's section. */
  lemma {:induction false} ProductParses(data: bytes, h: Header, w: nat, es: seq<Entry>, idx: nat)
    requires Regular(data, h) && Placeable(h, w, idx, |Table(es)|)
    ensures var vsize, size := AnnouncedSize(h.sections, h.sections[idx].va, |Table(es)|, h.sectionAlignment),
                               AlignUp(|Table(es)|, h.fileAlignment);
      && vsize < TWO32 && size <= h.sections[idx].rawSize
      && Parse(Product(data, h, w, es, idx)) == Some(Resized(h, idx, vsize, size))
  {
    hide Parse, Table, AlignUp, Get, Regular, Placeable, AnnouncedSize, Written, Resized;
    InPlace(h, w, idx, |Table(es)|);
    TableRoom(data, h, w, es, idx);
    Reparsed(data, Table(es), h, idx, w);
  }

  lemma {:induction false} InPlace(h: Header, w: nat, idx: nat, n: nat)
    requires Placeable(h, w, idx, n)
    ensures idx < |h.sections| && IsReloc(h.sections[idx]) && 0 < h.sections[idx].rawSize && 0 < h.sections[idx].va
    ensures DirectoryAt(h, w) + 8 <= SectionTable(h) && n <= h.sections[idx].rawSize && (w == 4 || w == 8)
  {
    hide IsReloc;
  }

  // ---- A slot's way through the table step ---------------------------------------------------------

  /** e names a slot of section i, which is not the table's. */
  ghost predicate SlotIn(h: Header, w: nat, i: nat, e: Entry)
  {
    && (w == 4 || w == 8) && i < |h.sections| && !IsReloc(h.sections[i]) && e.typ == PointerType(w)
    && h.sections[i].va <= e.rva && e.rva + w <= h.sections[i].va + h.sections[i].rawSize
  }

  ghost predicate InSome(h: Header, w: nat, e: Entry)
  {
    exists i: nat :: SlotIn(h, w, i, e)
  }

  /** Entries of the pointer type whose slots lie in sections other than the table's, no two overlapping. */
  ghost predicate Shaped(h: Header, w: nat, es: seq<Entry>)
  {
    Separate(es, w) && forall k :: 0 <= k < |es| ==> InSome(h, w, es[k])
  }

  lemma {:induction false} OwnerOf(h: Header, w: nat, es: seq<Entry>, k: nat) returns (i: nat)
    requires Shaped(h, w, es) && k < |es|
    ensures SlotIn(h, w, i, es[k])
  {
    hide SlotIn, Separate;
    assert InSome(h, w, es[k]);
    i :| SlotIn(h, w, i, es[k]);
  }

  /** The offset in the file of a slot of section i. */
  function FileOffset(h: Header, i: nat, rva: nat): int
    requires i < |h.sections|
  {
    rva - h.sections[i].va + h.sections[i].rawOffset
  }

  /** An entry's slot lies behind the headers, inside the file, and off the table's section in file and memory. */
  lemma {:induction false} SlotPlace(data: bytes, h: Header, w: nat, i: nat, e: Entry, idx: nat)
    requires Regular(data, h) && SlotIn(h, w, i, e) && idx < |h.sections| && IsReloc(h.sections[idx])
    requires h.sections[idx].rawSize > 0
    ensures var t, o := h.sections[idx], FileOffset(h, i, e.rva);
      && HeaderEnd(h) <= o && o + w <= |data|
      && (o + w <= t.rawOffset || t.rawOffset + t.rawSize <= o)
      && (e.rva + w <= t.va || t.va + t.rawSize <= e.rva)
  {
    hide Parse, IsReloc, HeaderEnd;
    var s, t := h.sections[i], h.sections[idx];
    assert RawInside(s, HeaderEnd(h), |data|);
    if i < idx {
      assert AddressesApart(s, t) && RawDisjoint(s, t);
    } else {
      assert AddressesApart(t, s) && RawDisjoint(t, s);
    }
  }

  /** Bytes behind the headers and off the table's section are none of those the table step writes. */
  lemma {:induction false} ByteKept(data: bytes, table: bytes, h: Header, w: nat, idx: nat, k: nat)
    requires Roomy(data, table, h, idx, w) && k < |data| && HeaderEnd(h) <= k
    requires var raw := U32(data, HeaderAt(h, idx) + 20); k < raw || raw + AlignUp(|table|, h.fileAlignment) <= k
    ensures |data| <= |Written(data, table, h, idx, w)| && Written(data, table, h, idx, w)[k] == data[k]
  {
    hide Parse, Get, Written, AlignUp, Fits;
    HeaderInside(data, h, idx);
    Order(data, table, h, idx, w);
    WrittenFrame(data, table, h, idx, w, k);
  }

  lemma {:induction false} WordKeptBy(data: bytes, table: bytes, h: Header, w: nat, idx: nat, o: nat)
    requires Roomy(data, table, h, idx, w) && o + w <= |data| && HeaderEnd(h) <= o
    requires var raw := U32(data, HeaderAt(h, idx) + 20); o + w <= raw || raw + AlignUp(|table|, h.fileAlignment) <= o
    ensures |data| <= |Written(data, table, h, idx, w)| && Get(Written(data, table, h, idx, w), o, w) == Get(data, o, w)
  {
    hide Roomy, Written, AlignUp, Get, U32;
    RoomyBasics(data, table, h, w, idx);
    var r := Written(data, table, h, idx, w);
    ByteKept(data, table, h, w, idx, o);
    forall k | o <= k < o + w ensures r[k] == data[k] {
      ByteKept(data, table, h, w, idx, k);
    }
    GetFrame(r, data, o, w);
  }

  lemma {:induction false} RoomyBasics(data: bytes, table: bytes, h: Header, w: nat, idx: nat)
    requires Roomy(data, table, h, idx, w)
    ensures idx < |h.sections| && HeaderAt(h, idx) + SECTION_HEADER <= |data|
    ensures Fits(data, table, h, idx, w) && FlagsAt(h) + 2 <= |data| && (w == 4 || w == 8)
  {
    hide Parse;
  }

  /** Writing the table changes no slot. */
  lemma {:induction false} SlotKept(data: bytes, h: Header, w: nat, es: seq<Entry>, idx: nat, i: nat, e: Entry)
    requires Regular(data, h) && Placeable(h, w, idx, |Table(es)|) && SlotIn(h, w, i, e)
    ensures var o := FileOffset(h, i, e.rva);
      && 0 <= o && o + w <= |data| <= |Product(data, h, w, es, idx)|
      && Get(Product(data, h, w, es, idx), o, w) == Get(data, o, w)
  {
    hide Regular, Get, Written, Table, AlignUp, SlotIn, Roomy, Fits, HeaderAt, HeaderEnd, U32, IsReloc, FileOffset,
        Placeable;
    InPlace(h, w, idx, |Table(es)|);
    OwnerIs(h, w, i, e);
    TableRoom(data, h, w, es, idx);
    SlotPlace(data, h, w, i, e, idx);
    WordKeptBy(data, Table(es), h, w, idx, FileOffset(h, i, e.rva));
  }

  lemma {:induction false} OwnerIs(h: Header, w: nat, i: nat, e: Entry)
    requires SlotIn(h, w, i, e)
    ensures i < |h.sections| && h.sections[i].rawSize > 0 && e.typ == PointerType(w)
    ensures h.sections[i].va <= e.rva && e.rva + w <= h.sections[i].va + h.sections[i].rawSize
  {
    hide IsReloc;
  }

  /** A mapped word is the file's. */
  lemma {:induction false} PlacedWord(p: bytes, s: Section, m: bytes, rva: nat, w: nat)
    requires PlacedAt(p, s, m) && s.va <= rva && rva + w <= s.va + s.rawSize
    ensures rva + w <= |m| && 0 <= rva - s.va + s.rawOffset && rva - s.va + s.rawOffset + w <= |p|
    ensures Get(m, rva, w) == Get(p, rva - s.va + s.rawOffset, w)
  {
    hide Get;
    assert s.va + (rva - s.va) == rva && s.rawOffset + (rva - s.va) == rva - s.va + s.rawOffset;
    var o, d := rva - s.va + s.rawOffset, rva - s.va;
    var raw := p[s.rawOffset..s.rawOffset + s.rawSize];
    SliceTwice(m, s.va, s.rawSize, d, w);
    SliceTwice(p, s.rawOffset, s.rawSize, d, w);
    GetMoved(m, rva, p, o, w);
  }

  /** The section table of the product differs from the file's in the table's section only. */
  lemma {:induction false} NewSectionIs(data: bytes, h: Header, w: nat, es: seq<Entry>, idx: nat, i: nat)
    requires Regular(data, h) && Placeable(h, w, idx, |Table(es)|) && i < |h.sections|
    ensures |NewSections(data, h, w, es, idx)| == |h.sections|
    ensures var s, t := h.sections[i], NewSections(data, h, w, es, idx)[i];
      && t.va == s.va && t.rawOffset == s.rawOffset && (i != idx ==> t == s)
      && (i == idx ==> t.rawSize == AlignUp(|Table(es)|, h.fileAlignment))
  {
    hide Parse, Table, AlignUp, Get, Regular, Placeable, AnnouncedSize, Product;
    InPlace(h, w, idx, |Table(es)|);
    ProductParses(data, h, w, es, idx);
  }

  /** In the mapped product a slot reads as in the file before the table step. */
  lemma {:induction false} SlotMapped(data: bytes, h: Header, w: nat, es: seq<Entry>, idx: nat, m: bytes, i: nat,
      e: Entry)
    requires Regular(data, h) && Placeable(h, w, idx, |Table(es)|) && SlotIn(h, w, i, e)
    requires Placed(Product(data, h, w, es, idx), NewSections(data, h, w, es, idx), m)
    ensures var o := FileOffset(h, i, e.rva);
      && e.rva + w <= |m| && 0 <= o && o + w <= |data| && Get(m, e.rva, w) == Get(data, o, w)
  {
    hide Regular, Get, Product, Table, SlotIn, Placeable, PlacedAt, NewSections, IsReloc;
    InPlace(h, w, idx, |Table(es)|);
    OwnerIs(h, w, i, e);
    NotTable(h, w, i, e, idx);
    NewSectionIs(data, h, w, es, idx, i);
    PlacedWord(Product(data, h, w, es, idx), h.sections[i], m, e.rva, w);
    SlotKept(data, h, w, es, idx, i, e);
  }

  lemma {:induction false} NotTable(h: Header, w: nat, i: nat, e: Entry, idx: nat)
    requires SlotIn(h, w, i, e) && idx < |h.sections| && IsReloc(h.sections[idx])
    ensures i != idx
  {
    hide IsReloc;
  }

  // ---- The product's table is readable ----------------------------------------------------------------

  lemma {:induction false} TableStands(data: bytes, h: Header, w: nat, es: seq<Entry>, idx: nat)
    requires Regular(data, h) && Placeable(h, w, idx, |Table(es)|)
    ensures At(Product(data, h, w, es, idx), h.sections[idx].rawOffset, Table(es)) && |Table(es)| < TWO32
    ensures DirectoryAt(h, w) + 8 <= |Product(data, h, w, es, idx)|
    ensures U32(Product(data, h, w, es, idx), DirectoryAt(h, w)) == h.sections[idx].va
    ensures U32(Product(data, h, w, es, idx), DirectoryAt(h, w) + 4) == |Table(es)|
  {
    hide Parse, Get, Written, Table, AlignUp, At, AnnouncedSize, Regular, Placeable, U32;
    InPlace(h, w, idx, |Table(es)|);
    TableRoom(data, h, w, es, idx);
    Reparsed(data, Table(es), h, idx, w);
    Order(data, Table(es), h, idx, w);
  }

  /** Mapping puts the table at its section's address. */
  lemma {:induction false} TableMapped(data: bytes, h: Header, w: nat, es: seq<Entry>, idx: nat, m: bytes)
    requires Regular(data, h) && Placeable(h, w, idx, |Table(es)|)
    requires Placed(Product(data, h, w, es, idx), NewSections(data, h, w, es, idx), m)
    ensures |Table(es)| == 0 || At(m, h.sections[idx].va, Table(es))
  {
    hide Parse, Product, Table, At, Regular, Placeable, NewSections, AlignUp;
    InPlace(h, w, idx, |Table(es)|);
    NewSectionIs(data, h, w, es, idx, idx);
    TableStands(data, h, w, es, idx);
    var t := NewSections(data, h, w, es, idx)[idx];
    if |Table(es)| > 0 {
      assert PlacedAt(Product(data, h, w, es, idx), t, m);
      AtInside(Product(data, h, w, es, idx), m, t, Table(es));
    }
  }

  lemma {:induction false} AtInside(p: bytes, m: bytes, t: Section, s: bytes)
    requires PlacedAt(p, t, m) && At(p, t.rawOffset, s) && |s| <= t.rawSize
    ensures At(m, t.va, s)
  {
    var raw := p[t.rawOffset..t.rawOffset + t.rawSize];
    assert raw[..|s|] == s;
    assert raw == s + raw[|s|..];
    AtSplit(m, t.va, s, raw[|s|..]);
  }

  ghost predicate PointerSlot(e: Entry, n: nat, lo: nat, hi: nat)
  {
    (e.typ == DIR64 || e.typ == HIGHLOW) && Inside(SlotOf(e), n) && Apart(SlotOf(e), lo, hi)
  }

  lemma {:induction false} EntrySlot(e: Entry, w: nat)
    requires e.typ == PointerType(w) && (w == 4 || w == 8)
    ensures SlotOf(e) == Patch(e.rva, w) && (e.typ == DIR64 || e.typ == HIGHLOW)
  {
  }

  lemma {:induction false} FoundSlot(data: bytes, h: Header, w: nat, es: seq<Entry>, idx: nat, m: bytes, k: nat)
    requires Regular(data, h) && Placeable(h, w, idx, |Table(es)|) && Shaped(h, w, es) && k < |es|
    requires Placed(Product(data, h, w, es, idx), NewSections(data, h, w, es, idx), m)
    ensures idx < |h.sections|
    ensures PointerSlot(es[k], |m|, h.sections[idx].va, h.sections[idx].va + |Table(es)|)
    ensures SlotOf(es[k]) == Patch(es[k].rva, w)
  {
    hide Regular, Table, Placeable, Shaped, IsReloc, Product, NewSections, Placed, SlotIn, FileOffset, Get, PointerType;
    InPlace(h, w, idx, |Table(es)|);
    var e := es[k];
    var i := OwnerOf(h, w, es, k);
    OwnerIs(h, w, i, e);
    EntrySlot(e, w);
    SlotMapped(data, h, w, es, idx, m, i, e);
    SlotPlace(data, h, w, i, e, idx);
  }

  /** The mapped product carries a readable table: its slots are in range, apart from each other and off the table. */
  lemma {:induction false} ProductCodable(data: bytes, h: Header, w: nat, es: seq<Entry>, idx: nat, m: bytes)
    requires Regular(data, h) && Placeable(h, w, idx, |Table(es)|) && Shaped(h, w, es) && es != []
    requires Placed(Product(data, h, w, es, idx), NewSections(data, h, w, es, idx), m)
    ensures Codable(m, h.sections[idx].va, es)
  {
    hide Table, AlignUp, InsertAll, TableBytes, Separate, At, Regular, Placeable, PointerSlot, SlotOf, InSome,
      Product, NewSections, Placed, IsReloc;
    InPlace(h, w, idx, |Table(es)|);
    var t := h.sections[idx];
    TableStands(data, h, w, es, idx);
    TableOf(es);
    TableNotEmpty(es);
    TableMapped(data, h, w, es, idx, m);
    forall k | 0 <= k < |es|
      ensures PointerSlot(es[k], |m|, t.va, t.va + |Table(es)|) && SlotOf(es[k]) == Patch(es[k].rva, w)
    {
      FoundSlot(data, h, w, es, idx, m, k);
    }
    forall i, j | 0 <= i < j < |es| ensures Disjoint(SlotOf(es[i]), SlotOf(es[j])) {
      SeparateAt(es, w, i, j);
    }
    CodableFrom(m, t.va, es, Table(es));
  }

  lemma {:induction false} SeparateAt(es: seq<Entry>, w: nat, i: nat, j: nat)
    requires Separate(es, w) && i < j < |es|
    ensures es[i].rva + w <= es[j].rva || es[j].rva + w <= es[i].rva
  {
  }

  lemma {:induction false} TableOf(es: seq<Entry>)
    ensures Ordered(InsertAll([], es))
    ensures Table(es) == TableBytes(InsertAll([], es))
  {
    hide InsertAll, TableBytes, Flatten;
    InsertAllContents([], es);
  }

  /** With an entry there is a table. */
  lemma {:induction false} TableNotEmpty(es: seq<Entry>)
    requires es != []
    ensures |Table(es)| > 0
  {
    hide InsertAll;
    InsertAllContents([], es);
    var bs := InsertAll([], es);
    assert es[0] in multiset(Flatten(bs));
    PrintedSome(bs);
  }

  lemma {:induction false} PrintedSome(bs: seq<Block>)
    requires bs != [] && Ordered(bs)
    ensures |TableBytes(bs)| > 0
  {
    OrderedBlocks(bs);
    TableBytesLength(bs);
    assert TableLength(bs) == BlockSize(|bs[0].entries|) + TableLength(bs[1..]);
  }

  lemma {:induction false} OrderedBlocks(bs: seq<Block>)
    requires Ordered(bs)
    ensures forall i :: 0 <= i < |bs| ==> BlockOk(bs[i])
  {
  }

  lemma {:induction false} CodableFrom(p: bytes, rva: nat, es: seq<Entry>, table: bytes)
    requires Ordered(InsertAll([], es)) && table == TableBytes(InsertAll([], es)) && |table| < TWO32
    requires At(p, rva, table)
    requires forall k :: 0 <= k < |es| ==> PointerSlot(es[k], |p|, rva, rva + |table|)
    requires forall i, j :: 0 <= i < j < |es| ==> Disjoint(SlotOf(es[i]), SlotOf(es[j]))
    ensures Codable(p, rva, es)
  {
    hide InsertAll, TableBytes, At, SlotOf, Apart, Inside, Disjoint, Ordered;
    forall k | 0 <= k < |es|
      ensures es[k].typ == DIR64 || es[k].typ == HIGHLOW
      ensures Inside(SlotOf(es[k]), |p|)
      ensures Apart(SlotOf(es[k]), rva, rva + |table|)
    {
      assert PointerSlot(es[k], |p|, rva, rva + |table|);
    }
  }

  /**
   * Running the table step on the file succeeds and writes exactly the product, or leaves a file without
   * entries alone.
   */
  lemma {:induction false} StepWritesProduct(data: bytes, h: Header, w: nat, es: seq<Entry>, idx: nat, r: Outcome,
      after: bytes)
    requires Regular(data, h) && Placeable(h, w, idx, |Table(es)|) && RelocIndex(h.sections, 0) == Some(idx)
    requires Parse(data) == Some(h)
    requires RelocationTable.Result(data, Table(es), es == [], h, w, r, after)
    ensures r == Done
    ensures after == if es == [] then data else Product(data, h, w, es, idx)
  {
    hide Parse, Get, Written, Table, Regular, AlignUp, RelocIndex;
    TableRoom(data, h, w, es, idx);
    RoomyBasics(data, Table(es), h, w, idx);
    OwnSection(data, h, idx);
    ModUnique(|Table(es)|, TWO32, 0, |Table(es)|);
  }

  // ---- Mapping a file ------------------------------------------------------------------------------------

  ghost predicate Mappable(p: bytes, ss: seq<Section>, n: nat)
  {
    forall i :: 0 <= i < |ss| ==> ss[i].rawOffset + ss[i].rawSize <= |p| && ss[i].va + ss[i].rawSize <= n
  }

  /** Each section's raw bytes copied to its address, one section after the other. */
  function MapSections(p: bytes, ss: seq<Section>, m: bytes): (r: bytes)
    requires Mappable(p, ss, |m|)
    ensures |r| == |m|
    decreases |ss|
  {
    if ss == [] then m
    else
      MapSections(p, ss[1..], Put(m, ss[0].va, p[ss[0].rawOffset..ss[0].rawOffset + ss[0].rawSize]))
  }

  /** Bytes at no section's address keep their value. */
  lemma {:induction false} MapFrame(p: bytes, ss: seq<Section>, m: bytes, k: nat)
    requires Mappable(p, ss, |m|) && k < |m|
    requires forall i :: 0 <= i < |ss| ==> k < ss[i].va || ss[i].va + ss[i].rawSize <= k
    ensures MapSections(p, ss, m)[k] == m[k]
    decreases |ss|
  {
    if ss != [] {
      MapFrame(p, ss[1..], Put(m, ss[0].va, p[ss[0].rawOffset..ss[0].rawOffset + ss[0].rawSize]), k);
    }
  }

  /** Sections with addresses apart all stand mapped in the end. */
  lemma {:induction false} MapPlaces(p: bytes, ss: seq<Section>, m: bytes)
    requires Mappable(p, ss, |m|) && AllAddressesApart(ss)
    ensures Placed(p, ss, MapSections(p, ss, m))
    decreases |ss|
  {
    hide PlacedAt, AddressesApart, Put;
    if ss != [] {
      ApartTail(ss);
      var next := Put(m, ss[0].va, p[ss[0].rawOffset..ss[0].rawOffset + ss[0].rawSize]);
      MapPlaces(p, ss[1..], next);
      FirstStays(p, ss, m);
      var r := MapSections(p, ss, m);
      forall i | 0 <= i < |ss| && ss[i].rawSize > 0 ensures PlacedAt(p, ss[i], r) {
        if i > 0 {
          assert PlacedAt(p, ss[1..][i - 1], MapSections(p, ss[1..], next));
        }
      }
    }
  }

  lemma {:induction false} FirstStays(p: bytes, ss: seq<Section>, m: bytes)
    requires Mappable(p, ss, |m|) && ss != []
    requires forall i :: 0 <= i < |ss[1..]| ==> AddressesApart(ss[0], ss[1..][i])
    ensures PlacedAt(p, ss[0], MapSections(p, ss, m))
  {
    hide At;
    var s, rest := ss[0], ss[1..];
    var raw := p[s.rawOffset..s.rawOffset + s.rawSize];
    var next := Put(m, s.va, raw);
    PutAt(m, s.va, raw);
    forall k | s.va <= k < s.va + |raw| ensures MapSections(p, rest, next)[k] == next[k] {
      assert forall i :: 0 <= i < |rest| ==> AddressesApart(s, rest[i]);
      MapFrame(p, rest, next, k);
    }
    AtFrame(next, MapSections(p, rest, next), s.va, raw);
  }

  /** The raw offsets, of sections that hold anything, are their addresses. */
  predicate Flat(ss: seq<Section>)
  {
    forall i :: 0 <= i < |ss| && ss[i].rawSize > 0 ==> ss[i].rawOffset == ss[i].va
  }

  /** A file whose raw offsets are its addresses is its own mapping. */
  lemma {:induction false} FlatPlaced(p: bytes, ss: seq<Section>)
    requires Flat(ss) && forall i :: 0 <= i < |ss| && ss[i].rawSize > 0 ==> ss[i].va + ss[i].rawSize <= |p|
    ensures Placed(p, ss, p)
  {
    forall i | 0 <= i < |ss| && ss[i].rawSize > 0 ensures PlacedAt(p, ss[i], p) {
    }
  }

  // ---- Loading ---------------------------------------------------------------------------------------------

  /** The directory leads the rebasing to exactly the table. */
  lemma {:induction false} DirectoryLeadsToTable(data: bytes, h: Header, w: nat, es: seq<Entry>, idx: nat, m: bytes,
      delta: int)
    requires Regular(data, h) && Placeable(h, w, idx, |Table(es)|) && es != []
    ensures Loaded(data, h, w, es, idx, m, delta)
         == if delta == 0 then Walk(m, [], 0) else Apply(m, h.sections[idx].va, |Table(es)|, delta)
  {
    hide Regular, Placeable, Table, Product, Apply, U32;
    InPlace(h, w, idx, |Table(es)|);
    TableStands(data, h, w, es, idx);
    TableNotEmpty(es);
  }

  lemma {:induction false} CodecAt(p: bytes, rva: nat, es: seq<Entry>, delta: int, n: nat)
    requires delta != 0 && Codable(p, rva, es) && n < |es|
    ensures var r, s := Apply(p, rva, |TableBytes(InsertAll([], es))|, delta), SlotOf(es[n]);
      && |r.buf| == |p| && s.at + s.width <= |p|
      && Get(r.buf, s.at, s.width) == Subtract(Get(p, s.at, s.width), s.width, delta)
  {
    hide Apply, InsertAll, TableBytes, Get, Subtract, Ordered;
    TableCodec(p, rva, es, delta);
    assert Inside(SlotOf(es[n]), |p|);
  }

  lemma {:induction false} SmallWord(b: bytes, o: nat, w: nat)
    requires o + w <= |b| && (w == 4 || w == 8)
    ensures Subtract(Get(b, o, w), w, 0) == Get(b, o, w)
  {
    GetBounds(b, o, w);
  }

  /** Loading takes the base difference off every word an entry names, as the file had it before the table step. */
  lemma {:induction false} EntryLoads(data: bytes, h: Header, w: nat, es: seq<Entry>, idx: nat, m: bytes, n: nat,
      i: nat, delta: int)
    requires Regular(data, h) && Placeable(h, w, idx, |Table(es)|) && Shaped(h, w, es)
    requires Placed(Product(data, h, w, es, idx), NewSections(data, h, w, es, idx), m)
    requires n < |es| && SlotIn(h, w, i, es[n])
    ensures var o, r := FileOffset(h, i, es[n].rva), Loaded(data, h, w, es, idx, m, delta);
      && 0 <= o && o + w <= |data| && es[n].rva + w <= |r.buf|
      && Get(r.buf, es[n].rva, w) == Subtract(Get(data, o, w), w, delta)
  {
    hide *;
    InPlace(h, w, idx, |Table(es)|);
    OwnerIs(h, w, i, es[n]);
    EntrySlot(es[n], w);
    SlotMapped(data, h, w, es, idx, m, i, es[n]);
    DirectoryLeadsToTable(data, h, w, es, idx, m, delta);
    if delta == 0 {
      SmallWord(m, es[n].rva, w);
    } else {
      ProductCodable(data, h, w, es, idx, m);
      TableOf(es);
      CodecAt(m, h.sections[idx].va, es, delta, n);
    }
  }

  /** The walk over the mapped product patches each entry's slot once, refuses none, and touches no other byte. */
  lemma {:induction false} LoadingTouchesSlotsOnly(data: bytes, h: Header, w: nat, es: seq<Entry>, idx: nat, m: bytes,
      delta: int)
    requires Regular(data, h) && Placeable(h, w, idx, |Table(es)|) && Shaped(h, w, es) && es != [] && delta != 0
    requires Placed(Product(data, h, w, es, idx), NewSections(data, h, w, es, idx), m)
    ensures var r := Loaded(data, h, w, es, idx, m, delta);
      |r.trace| == |es| && r.skipped == 0 && ChangesOnly(m, r.buf, PatchesOf(es))
  {
    hide *;
    InPlace(h, w, idx, |Table(es)|);
    ProductCodable(data, h, w, es, idx, m);
    TableOf(es);
    TableCodec(m, h.sections[idx].va, es, delta);
    DirectoryLeadsToTable(data, h, w, es, idx, m, delta);
  }

  // ---- What the collection finds -----------------------------------------------------------------------

  /** Everything the table is built from: the code operands the scan accepted, and the data slots. */
  function Found(data: bytes, h: Header, w: nat, code: seq<CodeScan.Hit>): seq<Entry>
    requires Regular(data, h) && w > 0
  {
    CodeEntries(code) + DataEntries(data, h, w)
  }

  /** Areas(ss) has a section behind each area. */
  lemma {:induction false} AreaOwner(ss: seq<Section>, n: nat) returns (i: nat)
    requires n < |Areas(ss)|
    ensures n <= i < |ss| && !IsReloc(ss[i]) && Areas(ss)[n] == CodeScan.Area(ss[i].va, ss[i].rawSize, ss[i].chars)
    decreases |ss|
  {
    hide IsReloc;
    if IsReloc(ss[0]) {
      i := AreaOwner(ss[1..], n);
      i := i + 1;
    } else if n == 0 {
      i := 0;
    } else {
      i := AreaOwner(ss[1..], n - 1);
      i := i + 1;
    }
  }

  /** Every area behind the first stems from a later section. */
  lemma {:induction false} AreasApart(ss: seq<Section>)
    requires AllAddressesApart(ss)
    ensures CodeScan.DisjointAreas(Areas(ss))
    decreases |ss|
  {
    hide IsReloc, AddressesApart;
    if ss != [] {
      ApartTail(ss);
      AreasApart(ss[1..]);
      if !IsReloc(ss[0]) {
        var rest, first := Areas(ss[1..]), CodeScan.Area(ss[0].va, ss[0].rawSize, ss[0].chars);
        forall n | 0 <= n < |rest| ensures AreasDisjoint(first, rest[n]) {
          var i := AreaOwner(ss[1..], n);
          assert AddressesApart(ss[0], ss[1..][i]);
          SameApart(ss[0], ss[1..][i]);
        }
        FirstApart(first, rest);
        assert Areas(ss) == [first] + rest;
      }
    }
  }

  predicate AreasDisjoint(a: CodeScan.Area, b: CodeScan.Area)
  {
    a.rva + a.size <= b.rva || b.rva + b.size <= a.rva
  }

  lemma {:induction false} SameApart(s: Section, t: Section)
    requires AddressesApart(s, t)
    ensures AreasDisjoint(CodeScan.Area(s.va, s.rawSize, s.chars), CodeScan.Area(t.va, t.rawSize, t.chars))
  {
  }

  lemma {:induction false} FirstApart(a: CodeScan.Area, rest: seq<CodeScan.Area>)
    requires CodeScan.DisjointAreas(rest) && forall n :: 0 <= n < |rest| ==> AreasDisjoint(a, rest[n])
    ensures CodeScan.DisjointAreas([a] + rest)
  {
    var areas := [a] + rest;
    forall i, j | 0 <= i < j < |areas|
      ensures areas[i].rva + areas[i].size <= areas[j].rva || areas[j].rva + areas[j].size <= areas[i].rva
    {
      assert areas[j] == rest[j - 1];
      if i > 0 {
        assert areas[i] == rest[i - 1];
      } else {
        assert AreasDisjoint(a, rest[j - 1]);
      }
    }
  }

  /** A code hit lies in an executable section, and carries the dword the file has at its RVA. */
  ghost predicate HitInCode(data: bytes, h: Header, x: CodeScan.Hit, i: nat)
  {
    && i < |h.sections| && Executable(h.sections[i]) && !IsReloc(h.sections[i])
    && h.sections[i].va <= x.rva && x.rva + 4 <= h.sections[i].va + h.sections[i].rawSize
    && x.rva + 4 <= |data| && x.target == Get(data, x.rva, 4)
  }

  lemma {:induction false} HitIsOperand(decode: CodeScan.Decoder, data: bytes, h: Header, code: seq<CodeScan.Hit>,
      x: CodeScan.Hit)
    requires CodeScan.Sound(decode) && CodeHits(decode, data, h, 4, code) && x in code
    ensures CodeScan.Operand(decode, data, Areas(h.sections), x.rva)
    ensures x.rva + 4 <= |data| && x.target == Get(data, x.rva, 4)
    ensures var base: u32 := h.imageBase % TWO32; base <= x.target < CodeScan.SaturatingAdd(base, h.sizeOfImage)
  {
    hide CodeScan.AllHits, CodeScan.Operand, Spans, InSpans, Areas, Get;
    var base: u32 := h.imageBase % TWO32;
    var end := CodeScan.SaturatingAdd(base, h.sizeOfImage);
    var hits := CodeScan.AllHits(decode, data, Areas(h.sections), base, end, Rejects(Spans(h, data, 4)));
    CodeScan.HitsAreOperands(decode, data, Areas(h.sections), base, end, Rejects(Spans(h, data, 4)), x.rva);
    assert x in hits;
    var k: nat :| k < |hits| && hits[k] == x;
    assert hits[k].rva == x.rva;
  }

  lemma {:induction false} HitOwner(decode: CodeScan.Decoder, data: bytes, h: Header, code: seq<CodeScan.Hit>,
      x: CodeScan.Hit) returns (i: nat)
    requires CodeScan.Sound(decode) && CodeHits(decode, data, h, 4, code) && x in code
    ensures HitInCode(data, h, x, i)
  {
    hide CodeScan.FieldFrom, CodeHits, Get, IsReloc, Areas, CodeScan.Sound;
    HitIsOperand(decode, data, h, code, x);
    var areas := Areas(h.sections);
    var n: nat :|
      n < |areas| && CodeScan.Scannable(data, areas[n]) && CodeScan.FieldFrom(decode, data, areas[n], 0, x.rva);
    CodeScan.FieldWithin(decode, data, areas[n], x.rva);
    i := AreaOwner(h.sections, n);
  }

  lemma {:induction false} CodeShaped(decode: CodeScan.Decoder, data: bytes, h: Header, code: seq<CodeScan.Hit>)
    requires CodeScan.Sound(decode) && CodeHits(decode, data, h, 4, code) && AllAddressesApart(h.sections)
    ensures Shaped(h, 4, CodeEntries(code))
  {
    hide CodeScan.AllHits, CodeScan.Operand, Spans, Areas, CodeEntries, CodeScan.Sound, InSome, AllAddressesApart;
    CodeEntriesAt(code);
    AreasApart(h.sections);
    var es := CodeEntries(code);
    forall k | 0 <= k < |es| ensures InSome(h, 4, es[k]) {
      CodeInSome(decode, data, h, code, code[k]);
    }
    forall i, j | 0 <= i < j < |es| ensures es[i].rva + 4 <= es[j].rva {
      HitIsOperand(decode, data, h, code, code[i]);
      HitIsOperand(decode, data, h, code, code[j]);
      CodeScan.OperandsDisjoint(decode, data, Areas(h.sections), code[i].rva, code[j].rva);
    }
  }

  lemma {:induction false} CodeInSome(decode: CodeScan.Decoder, data: bytes, h: Header, code: seq<CodeScan.Hit>,
      x: CodeScan.Hit)
    requires CodeScan.Sound(decode) && CodeHits(decode, data, h, 4, code) && x in code
    ensures InSome(h, 4, Entry(x.rva, HIGHLOW))
  {
    hide CodeHits, CodeScan.Sound, IsReloc, Executable, Get;
    var i := HitOwner(decode, data, h, code, x);
    assert SlotIn(h, 4, i, Entry(x.rva, HIGHLOW));
  }

  lemma {:induction false} DataShaped(data: bytes, h: Header, w: nat)
    requires Regular(data, h) && (w == 4 || w == 8)
    ensures Shaped(h, w, DataEntries(data, h, w)) && AllWithin(DataEntries(data, h, w), h.sections, w)
  {
    hide Parse, DataHits, Spans, Regular, Separate, Within, InSome;
    RegularParses(data, h);
    DataHitsSeparate(data, h.sections, w, h.imageBase, h.sizeOfImage, Spans(h, data, w));
    var es := DataEntries(data, h, w);
    forall k | 0 <= k < |es| ensures InSome(h, w, es[k]) {
      WithinSome(h, w, es[k]);
    }
  }

  lemma {:induction false} WithinSome(h: Header, w: nat, e: Entry)
    requires Within(e, h.sections, w) && e.typ == PointerType(w) && (w == 4 || w == 8)
    ensures InSome(h, w, e)
  {
    hide IsReloc, Executable;
    var i :| 0 <= i < |h.sections| && !Executable(h.sections[i]) && !IsReloc(h.sections[i])
      && h.sections[i].va <= e.rva && e.rva + w <= h.sections[i].va + h.sections[i].rawSize;
    assert SlotIn(h, w, i, e);
  }

  /** A code operand and a data slot lie in different sections. */
  lemma {:induction false} CodeOffData(decode: CodeScan.Decoder, data: bytes, h: Header, code: seq<CodeScan.Hit>,
      x: CodeScan.Hit, e: Entry)
    requires CodeScan.Sound(decode) && CodeHits(decode, data, h, 4, code) && x in code
    requires AllAddressesApart(h.sections) && Within(e, h.sections, 4)
    ensures x.rva + 4 <= e.rva || e.rva + 4 <= x.rva
  {
    hide CodeHits, CodeScan.Sound, IsReloc, Executable, Get;
    var i := HitOwner(decode, data, h, code, x);
    var j :| 0 <= j < |h.sections| && !Executable(h.sections[j]) && !IsReloc(h.sections[j])
      && h.sections[j].va <= e.rva && e.rva + 4 <= h.sections[j].va + h.sections[j].rawSize;
    if i < j {
      assert AddressesApart(h.sections[i], h.sections[j]);
    } else {
      assert AddressesApart(h.sections[j], h.sections[i]);
    }
  }

  /** Whatever the two scans find, in either width, is fit for a table. */
  lemma {:induction false} FoundShaped(decode: CodeScan.Decoder, data: bytes, h: Header, w: nat,
      code: seq<CodeScan.Hit>)
    requires Regular(data, h) && (w == 4 || w == 8) && CodeScan.Sound(decode) && CodeHits(decode, data, h, w, code)
    ensures Shaped(h, w, Found(data, h, w, code))
  {
    hide Regular, CodeScan.Sound, CodeHits, DataEntries, Shaped, AllWithin, AllAddressesApart;
    RegularParses(data, h);
    DataShaped(data, h, w);
    if w == 8 {
      NoCode(decode, data, h, code);
      assert CodeEntries([]) + DataEntries(data, h, w) == DataEntries(data, h, w);
    } else {
      CodeShaped(decode, data, h, code);
      CodeEntriesAt(code);
      var b := DataEntries(data, h, w);
      forall i, j | 0 <= i < |code| && 0 <= j < |b|
        ensures code[i].rva + 4 <= b[j].rva || b[j].rva + 4 <= code[i].rva
      {
        WithinAt(b, h.sections, j);
        CodeOffData(decode, data, h, code, code[i], b[j]);
      }
      ShapedBoth(h, CodeEntries(code), b);
    }
  }

  lemma {:induction false} WithinAt(es: seq<Entry>, ss: seq<Section>, k: nat)
    requires AllWithin(es, ss, 4) && k < |es|
    ensures Within(es[k], ss, 4)
  {
    hide Within;
  }

  lemma {:induction false} NoCode(decode: CodeScan.Decoder, data: bytes, h: Header, code: seq<CodeScan.Hit>)
    requires CodeScan.Sound(decode) && CodeHits(decode, data, h, 8, code)
    ensures code == []
  {
  }

  lemma {:induction false} ShapedBoth(h: Header, a: seq<Entry>, b: seq<Entry>)
    requires Shaped(h, 4, a) && Shaped(h, 4, b)
    requires forall i, j :: 0 <= i < |a| && 0 <= j < |b| ==> a[i].rva + 4 <= b[j].rva || b[j].rva + 4 <= a[i].rva
    ensures Shaped(h, 4, a + b)
  {
    hide InSome;
  }

  /** The j-th slot of section i holds the file's base + k, in a section the collection covers. */
  ghost predicate FilePointer(data: bytes, h: Header, w: nat, i: nat, j: nat, k: nat)
  {
    && i < |h.sections| && Collected(data, h.sections[i]) && k < h.sizeOfImage
    && w * j + w <= h.sections[i].rawSize && h.sections[i].rawOffset + h.sections[i].rawSize <= |data|
    && Get(data, h.sections[i].rawOffset + w * j, w) == h.imageBase + k
  }

  lemma {:induction false} PointerIs(data: bytes, h: Header, w: nat, i: nat, j: nat, k: nat)
    requires FilePointer(data, h, w, i, j, k)
    ensures i < |h.sections| && k < h.sizeOfImage && h.sections[i].rawOffset + w * j + w <= |data|
    ensures w * j + w <= h.sections[i].rawSize && Collected(data, h.sections[i])
    ensures Get(data, h.sections[i].rawOffset + w * j, w) == h.imageBase + k
  {
    hide Get, Collected;
  }

  /** The slot, unless metadata protects it, gets an entry. */
  lemma {:induction false} SlotFound(data: bytes, h: Header, w: nat, i: nat, j: nat, k: nat)
    requires Regular(data, h) && FilePointer(data, h, w, i, j, k) && (w == 4 || w == 8)
    requires !InSpans(Spans(h, data, w), h.sections[i].va + w * j)
    ensures h.sections[i].va + w * j < TWO32
    ensures Entry(h.sections[i].va + w * j, PointerType(w)) in DataEntries(data, h, w)
  {
    hide *;
    RegularParses(data, h);
    PointerIs(data, h, w, i, j, k);
    RegularAt(data, h, i);
    var s := h.sections[i];
    var e := Entry(s.va + w * j, PointerType(w));
    SelectedHit(data, s, j, w, h.imageBase, h.sizeOfImage, Spans(h, data, w), e);
    DataEntriesAre(data, h, w);
    HitIsIn(data, h.sections, i, j, w, h.imageBase, h.sizeOfImage, Spans(h, data, w), e);
    DataHitsAre(data, h.sections, w, h.imageBase, h.sizeOfImage, Spans(h, data, w), e);
  }

  lemma {:induction false} DataEntriesAre(data: bytes, h: Header, w: nat)
    requires w > 0 && Addressable(h.sections)
    ensures DataEntries(data, h, w) == DataHits(data, h.sections, w, h.imageBase, h.sizeOfImage, Spans(h, data, w))
  {
  }

  lemma {:induction false} SelectedHit(data: bytes, s: Section, j: nat, w: nat, base: nat, size: nat, spans: seq<Span>,
      e: Entry)
    requires w * j + w <= s.rawSize && s.rawOffset + s.rawSize <= |data| && !InSpans(spans, s.va + w * j)
    requires base <= Get(data, s.rawOffset + w * j, w) < base + size
    requires e.rva == s.va + w * j && e.typ == PointerType(w)
    ensures HitAt(data, s, j, w, base, size, spans, e)
  {
    hide Get, InSpans;
  }

  lemma {:induction false} HitIsIn(data: bytes, ss: seq<Section>, i: nat, j: nat, w: nat, base: nat, size: nat,
      spans: seq<Span>, e: Entry)
    requires i < |ss| && Collected(data, ss[i]) && HitAt(data, ss[i], j, w, base, size, spans, e)
    ensures HitIn(data, ss, w, base, size, spans, e)
  {
    hide HitAt, Collected;
    assert HitFrom(data, ss[i], 0, w, base, size, spans, e);
  }

  // ---- The main results --------------------------------------------------------------------------------

  /** Addresses wrap at the pointer's width. */
  function Modulus(w: nat): nat { if w == 8 then TWO64 else TWO32 }

  lemma {:induction false} LoadedWord(file: nat, k: nat, base: nat, delta: int, w: nat)
    requires (file - base - delta) % Modulus(w) == 0
    ensures Subtract(file + k, w, delta) == (base + k) % Modulus(w)
  {
    var n := Modulus(w);
    var q := (file - base - delta) / n;
    assert file - base - delta == n * q;
    ModUnique(file + k - delta, n, q + (base + k) / n, (base + k) % n);
  }

  ghost predicate HasAll(es: seq<Entry>, some: seq<Entry>)
  {
    forall e :: e in some ==> e in es
  }

  /** Any table that has the data slots' entries among its own moves the words they hold. */
  lemma {:induction false} SlotLoads(data: bytes, h: Header, w: nat, es: seq<Entry>, idx: nat, m: bytes,
      i: nat, j: nat, k: nat, base: nat, delta: int)
    requires w == 4 || w == 8
    requires Regular(data, h) && Placeable(h, w, idx, |Table(es)|) && Shaped(h, w, es)
    requires Addressable(h.sections) && HasAll(es, DataEntries(data, h, w))
    requires Placed(Product(data, h, w, es, idx), NewSections(data, h, w, es, idx), m)
    requires FilePointer(data, h, w, i, j, k) && !InSpans(Spans(h, data, w), h.sections[i].va + w * j)
    requires (h.imageBase - base - delta) % Modulus(w) == 0
    ensures var o, r := h.sections[i].va + w * j, Loaded(data, h, w, es, idx, m, delta);
      o + w <= |r.buf| && Get(r.buf, o, w) == (base + k) % Modulus(w)
  {
    hide *;
    InPlace(h, w, idx, |Table(es)|);
    SlotFound(data, h, w, i, j, k);
    PointerIs(data, h, w, i, j, k);
    var o := h.sections[i].va + w * j;
    var e := Entry(o, PointerType(w));
    var n := IndexOf(es, DataEntries(data, h, w), e);
    CollectedSlot(data, h, w, i, j, e);
    EntryLoads(data, h, w, es, idx, m, n, i, delta);
    OffsetOf(h, w, i, j);
    LoadedWord(h.imageBase, k, base, delta, w);
  }

  lemma {:induction false} SlotOfPointer(data: bytes, h: Header, w: nat, i: nat, j: nat, k: nat)
    requires FilePointer(data, h, w, i, j, k)
    ensures i < |h.sections| && h.sections[i].va + w * j >= 0
  {
    hide Get, Collected;
  }

  /**
   * The product loads at any base, whether its raw offsets are its addresses or not: once it is mapped
   * and its table walked with the difference between the file's base and the new one, as a word of the
   * pointer's width, a slot that held the file's base + k holds the new base + k. Left out are slots that
   * start inside import metadata.
   */
  lemma {:induction false} LoadsAtAnyBase(decode: CodeScan.Decoder, data: bytes, h: Header, w: nat,
      code: seq<CodeScan.Hit>, idx: nat, m: bytes, i: nat, j: nat, k: nat, base: u64, delta: i64)
    requires Regular(data, h) && CodeScan.Sound(decode) && (w == 4 || w == 8) && CodeHits(decode, data, h, w, code)
    requires Placeable(h, w, idx, |Table(Found(data, h, w, code))|)
    requires var es := Found(data, h, w, code);
      Placed(Product(data, h, w, es, idx), NewSections(data, h, w, es, idx), m)
    requires FilePointer(data, h, w, i, j, k) && !ImportByte(h, data, w, h.sections[i].va + w * j)
    requires (h.imageBase - base - delta) % Modulus(w) == 0
    ensures var o, r := h.sections[i].va + w * j, Loaded(data, h, w, Found(data, h, w, code), idx, m, delta);
      o + w <= |r.buf| && Get(r.buf, o, w) == (base + k) % Modulus(w)
  {
    hide *;
    SlotOfPointer(data, h, w, i, j, k);
    SpansAre(h, data, w, h.sections[i].va + w * j);
    FoundShaped(decode, data, h, w, code);
    RegularParses(data, h);
    FoundHas(data, h, w, code);
    SlotLoads(data, h, w, Found(data, h, w, code), idx, m, i, j, k, base, delta);
  }

  /** In a file whose raw offsets are its addresses every section of the product has its bytes at its address. */
  lemma {:induction false} FlatProduct(data: bytes, h: Header, w: nat, es: seq<Entry>, idx: nat)
    requires Regular(data, h) && Placeable(h, w, idx, |Table(es)|)
    requires Flat(h.sections)
    ensures var p := Product(data, h, w, es, idx); Placed(p, NewSections(data, h, w, es, idx), p)
  {
    hide Regular, Placeable, Table, Product, NewSections, Placed, AlignUp;
    var p, ss := Product(data, h, w, es, idx), NewSections(data, h, w, es, idx);
    ProductLong(data, h, w, es, idx);
    InPlace(h, w, idx, |Table(es)|);
    NewSectionIs(data, h, w, es, idx, idx);
    forall i | 0 <= i < |ss|
      ensures ss[i].rawSize > 0 ==> ss[i].rawOffset == ss[i].va && ss[i].va + ss[i].rawSize <= |p|
    {
      NewSectionIs(data, h, w, es, idx, i);
      if h.sections[i].rawSize > 0 {
        RegularAt(data, h, i);
      }
      TableRoom(data, h, w, es, idx);
    }
    FlatPlaced(p, ss);
  }

  lemma {:induction false} ProductLong(data: bytes, h: Header, w: nat, es: seq<Entry>, idx: nat)
    requires Regular(data, h) && Placeable(h, w, idx, |Table(es)|)
    ensures |data| <= |Product(data, h, w, es, idx)|
  {
    hide Regular, Placeable, Table, Written, Roomy;
    TableRoom(data, h, w, es, idx);
    WrittenKept(data, Table(es), h, idx, w);
  }

  /**
   * A file laid out as it is loaded, as the dumper leaves one that it does not
   * pack: the walk over the file itself gives every slot its new base.
   */
  lemma {:induction false} FlatLoadsAtAnyBase(decode: CodeScan.Decoder, data: bytes, h: Header, w: nat,
      code: seq<CodeScan.Hit>, idx: nat, i: nat, j: nat, k: nat, base: u64, delta: i64)
    requires Regular(data, h) && CodeScan.Sound(decode) && (w == 4 || w == 8) && CodeHits(decode, data, h, w, code)
    requires Placeable(h, w, idx, |Table(Found(data, h, w, code))|)
    requires Flat(h.sections)
    requires FilePointer(data, h, w, i, j, k) && !ImportByte(h, data, w, h.sections[i].va + w * j)
    requires (h.imageBase - base - delta) % Modulus(w) == 0
    ensures var es, o := Found(data, h, w, code), h.sections[i].va + w * j;
      var r := Loaded(data, h, w, es, idx, Product(data, h, w, es, idx), delta);
      o + w <= |r.buf| && Get(r.buf, o, w) == (base + k) % Modulus(w)
  {
    hide *;
    var es := Found(data, h, w, code);
    FlatProduct(data, h, w, es, idx);
    LoadsAtAnyBase(decode, data, h, w, code, idx, Product(data, h, w, es, idx), i, j, k, base, delta);
  }

  lemma {:induction false} IndexOf(es: seq<Entry>, some: seq<Entry>, e: Entry) returns (n: nat)
    requires HasAll(es, some) && e in some
    ensures n < |es| && es[n] == e
  {
    n :| n < |es| && es[n] == e;
  }

  lemma {:induction false} FoundHas(data: bytes, h: Header, w: nat, code: seq<CodeScan.Hit>)
    requires Regular(data, h) && w > 0
    ensures Addressable(h.sections) && HasAll(Found(data, h, w, code), DataEntries(data, h, w))
    ensures HasAll(Found(data, h, w, code), CodeEntries(code))
  {
    hide Regular, DataEntries, CodeEntries, Addressable;
    RegularParses(data, h);
  }

  lemma {:induction false} CollectedSlot(data: bytes, h: Header, w: nat, i: nat, j: nat, e: Entry)
    requires i < |h.sections| && Collected(data, h.sections[i]) && w * j + w <= h.sections[i].rawSize
    requires e.rva == h.sections[i].va + w * j && e.typ == PointerType(w) && (w == 4 || w == 8)
    ensures SlotIn(h, w, i, e)
  {
    hide Scanned, IsReloc;
  }

  lemma {:induction false} OffsetOf(h: Header, w: nat, i: nat, j: nat)
    requires i < |h.sections|
    ensures FileOffset(h, i, h.sections[i].va + w * j) == h.sections[i].rawOffset + w * j
  {
  }

  /** The scan of the code reads the file at RVAs: its sections have to stand there. */
  predicate CodeInPlace(h: Header)
  {
    forall i :: 0 <= i < |h.sections| && Executable(h.sections[i]) && h.sections[i].rawSize > 0 ==>
      h.sections[i].rawOffset == h.sections[i].va
  }

  /**
   * And so does the code of a 32-bit file: an operand the scan names pointed k bytes into the image, and
   * once the file is loaded points k bytes into it at the new base.
   */
  lemma {:induction false} OperandLoadsAtAnyBase(decode: CodeScan.Decoder, data: bytes, h: Header,
      code: seq<CodeScan.Hit>, idx: nat, m: bytes, x: CodeScan.Hit, base: u32, delta: i64)
    requires Regular(data, h) && CodeScan.Sound(decode) && CodeHits(decode, data, h, 4, code) && CodeInPlace(h)
    requires h.imageBase < TWO32 && Placeable(h, 4, idx, |Table(Found(data, h, 4, code))|)
    requires var es := Found(data, h, 4, code);
      Placed(Product(data, h, 4, es, idx), NewSections(data, h, 4, es, idx), m)
    requires x in code && (h.imageBase - base - delta) % TWO32 == 0
    ensures var k, r := x.target - h.imageBase, Loaded(data, h, 4, Found(data, h, 4, code), idx, m, delta);
      && 0 <= k < h.sizeOfImage && x.rva + 4 <= |data| && Get(data, x.rva, 4) == h.imageBase + k
      && x.rva + 4 <= |r.buf| && Get(r.buf, x.rva, 4) == (base + k) % TWO32
  {
    hide *;
    FoundShaped(decode, data, h, 4, code);
    var es, e := Found(data, h, 4, code), Entry(x.rva, HIGHLOW);
    CodeEntryIn(code, x);
    FoundHas(data, h, 4, code);
    var n := IndexOf(es, CodeEntries(code), e);
    var i := HitOwner(decode, data, h, code, x);
    HitSlot(data, h, x, i);
    TargetInside(decode, data, h, code, x);
    EntryLoads(data, h, 4, es, idx, m, n, i, delta);
    NarrowModulus();
    LoadedWord(h.imageBase, x.target - h.imageBase, base, delta, 4);
  }

  lemma {:induction false} NarrowModulus()
    ensures Modulus(4) == TWO32
  {
  }

  lemma {:induction false} CodeEntryIn(code: seq<CodeScan.Hit>, x: CodeScan.Hit)
    requires x in code
    ensures Entry(x.rva, HIGHLOW) in CodeEntries(code)
  {
    CodeEntriesAt(code);
    var k: nat :| k < |code| && code[k] == x;
    assert CodeEntries(code)[k] == Entry(x.rva, HIGHLOW);
  }

  lemma {:induction false} HitSlot(data: bytes, h: Header, x: CodeScan.Hit, i: nat)
    requires HitInCode(data, h, x, i) && CodeInPlace(h)
    ensures SlotIn(h, 4, i, Entry(x.rva, HIGHLOW)) && FileOffset(h, i, x.rva) == x.rva
    ensures x.rva + 4 <= |data| && x.target == Get(data, x.rva, 4)
  {
    hide Get, IsReloc, Executable;
  }

  lemma {:induction false} TargetInside(decode: CodeScan.Decoder, data: bytes, h: Header, code: seq<CodeScan.Hit>,
      x: CodeScan.Hit)
    requires CodeScan.Sound(decode) && CodeHits(decode, data, h, 4, code) && x in code && h.imageBase < TWO32
    ensures 0 <= x.target - h.imageBase < h.sizeOfImage
  {
    hide CodeHits, CodeScan.Sound, Get;
    HitIsOperand(decode, data, h, code, x);
    ModUnique(h.imageBase, TWO32, 0, h.imageBase);
  }
}
