/** The parsed PE header as the rewriting steps see it (crates/pe/src/header/mod.rs). */
module Pe {
  import opened Options
  import opened Words

  datatype Section = Section(name: bytes, va: u32, vsize: u32, rawOffset: u32, rawSize: u32, chars: u32)

  datatype Header = Header(
    peOffset: u32, optionalSize: u16, imageBase: u64, sizeOfImage: u32,
    sectionAlignment: u32, fileAlignment: u32, importRva: u32, sections: seq<Section>)

  /** How a rewriting step ends. */
  datatype Outcome = Done | NotAnImage | TooLarge | Panic

  /** A growable file image. */
  class Image {
    var data: bytes

    constructor (data: bytes)
      ensures this.data == data
    {
      this.data := data;
    }
  }

  predicate Executable(s: Section) { s.chars / 0x2000_0000 % 2 == 1 }

  predicate Uninitialized(s: Section) { s.chars / 0x80 % 2 == 1 }

  /** The name is ".reloc". */
  predicate IsReloc(s: Section) { s.name == [0x2E, 0x72, 0x65, 0x6C, 0x6F, 0x63] }

  const SECTION_HEADER: nat := 40

  /** The section header at offset at. */
  function SectionAt(data: bytes, at: nat): Section
    requires at + SECTION_HEADER <= |data|
  {
    Section(CutNul(data[at..at + 8]), U32(data, at + 12), U32(data, at + 8), U32(data, at + 20), U32(data, at + 16),
            U32(data, at + 36))
  }

  function SectionsAt(data: bytes, at: nat, n: nat): (r: seq<Section>)
    requires at + SECTION_HEADER * n <= |data|
    ensures |r| == n
    decreases n
  {
    if n == 0 then [] else [SectionAt(data, at)] + SectionsAt(data, at + SECTION_HEADER, n - 1)
  }

  /** The NT headers at offset nt lie in the data: their size is announced by the file header. */
  predicate HasHeaders(data: bytes, nt: nat)
  {
    && nt + 24 <= |data| && Get(data, nt, 4) == 0x4550
    && nt + 24 + Get(data, nt + 20, 2) <= |data|
    && MinOptional(data, nt) <= Get(data, nt + 20, 2)
    && Get(data, nt + 6, 2) <= 256
    && nt + 24 + Get(data, nt + 20, 2) + SECTION_HEADER * Get(data, nt + 6, 2) <= |data|
  }

  /** The smallest optional header that goes with its magic number; no size will do for an unknown one. */
  function MinOptional(data: bytes, nt: nat): nat
    requires nt + 24 <= |data|
  {
    if nt + 26 > |data| then TWO16
    else if Get(data, nt + 24, 2) == 0x20B then 112
    else if Get(data, nt + 24, 2) == 0x10B then 96
    else TWO16
  }

  /** The header record, or nothing when the data is no PE image. */
  function Parse(data: bytes): Option<Header>
  {
    if |data| < 64 || Get(data, 0, 2) != 0x5A4D || !HasHeaders(data, Get(data, 60, 4)) then None
    else Some(ParseAt(data, U32(data, 60)))
  }

  function ParseAt(data: bytes, nt: u32): Header
    requires HasHeaders(data, nt)
  {
    GetBounds(data, nt + 20, 2);
    var opt, plus := nt + 24, MinOptional(data, nt) == 112;
    var imports := if plus then 120 else 104;
    Header(nt, U16(data, nt + 20), if plus then U64(data, opt + 24) else U32(data, opt + 28), U32(data, opt + 56),
           U32(data, opt + 32), U32(data, opt + 36),
           if imports + 8 > U16(data, nt + 20) then 0 else U32(data, opt + imports),
           SectionsAt(data, opt + U16(data, nt + 20), U16(data, nt + 6)))
  }

  function SectionTable(h: Header): nat { h.peOffset + 24 + h.optionalSize }

  /** Everything the parser reads lies below this offset. */
  function HeaderEnd(h: Header): nat
  {
    var end := SectionTable(h) + SECTION_HEADER * |h.sections|;
    if end < 64 then 64 else end
  }

  predicate Holds(s: Section, rva: nat) { s.va <= rva < s.va + s.vsize }

  /** The file offset of an RVA: the first section that holds it decides. */
  function RvaToOffset(h: Header, rva: nat): Option<nat> { OffsetIn(h.sections, rva) }

  function OffsetIn(ss: seq<Section>, rva: nat): Option<nat>
  {
    if ss == [] then None
    else if Holds(ss[0], rva) then Some(rva - ss[0].va + ss[0].rawOffset)
    else OffsetIn(ss[1..], rva)
  }

  /** The i-th section maps rva to o: it holds it, and no section in front of it does. */
  ghost predicate Maps(ss: seq<Section>, i: nat, rva: nat, o: nat)
  {
    && i < |ss| && ss[i].va <= rva < ss[i].va + ss[i].vsize && o == rva - ss[i].va + ss[i].rawOffset
    && forall j :: 0 <= j < i ==> !(ss[j].va <= rva < ss[j].va + ss[j].vsize)
  }

  lemma {:induction false} OffsetIs(ss: seq<Section>, rva: nat, o: nat)
    ensures OffsetIn(ss, rva) == Some(o) <==> exists i: nat :: Maps(ss, i, rva, o)
  {
    if ss == [] {
    } else if Holds(ss[0], rva) {
      assert Maps(ss, 0, rva, rva - ss[0].va + ss[0].rawOffset);
      forall i: nat | Maps(ss, i, rva, o) ensures i == 0 {
      }
    } else {
      OffsetIs(ss[1..], rva, o);
      if i: nat :| Maps(ss[1..], i, rva, o) {
        MapsLater(ss, i, rva, o);
      }
      if i: nat :| Maps(ss, i, rva, o) {
        assert i > 0;
        forall j | 0 <= j < i - 1 ensures !(ss[1..][j].va <= rva < ss[1..][j].va + ss[1..][j].vsize) {
          assert ss[1..][j] == ss[j + 1];
        }
        assert Maps(ss[1..], i - 1, rva, o);
      }
    }
  }

  lemma {:induction false} MapsLater(ss: seq<Section>, i: nat, rva: nat, o: nat)
    requires ss != [] && !Holds(ss[0], rva) && Maps(ss[1..], i, rva, o)
    ensures Maps(ss, i + 1, rva, o)
  {
    forall j | 0 <= j < i + 1 ensures !(ss[j].va <= rva < ss[j].va + ss[j].vsize) {
      if j > 0 {
        assert ss[1..][j - 1] == ss[j];
      }
    }
  }

  /** Some byte of the section's raw data, which lies in the buffer, is not zero. */
  predicate HasData(buf: bytes, s: Section)
  {
    s.rawOffset + s.rawSize <= |buf| && exists k :: s.rawOffset <= k < s.rawOffset + s.rawSize && buf[k] != 0
  }

  /** value up to the next multiple of alignment. */
  function AlignUp(value: nat, alignment: nat): (r: nat)
    ensures value <= r
    ensures if alignment == 0 then r == value else r < value + alignment && r % alignment == 0
  {
    if alignment == 0 then value
    else
      var delta := value % alignment;
      if delta > 0 then
        var r := value + alignment - delta;
        AlignedAbove(value, alignment);
        r
      else value
  }

  lemma {:induction false} AlignedAbove(value: nat, a: nat)
    requires a > 0
    ensures (value + a - value % a) % a == 0
  {
    ModUnique(value + a - value % a, a, value / a + 1, 0);
  }

  /** Rounding v up stays within 32 bits on the way. */
  predicate Rounds(v: nat, alignment: nat)
  {
    v < TWO32 && (alignment == 0 || v % alignment == 0 || v + alignment < TWO32)
  }

  lemma {:induction false} RoundsUp(v: nat, alignment: nat)
    requires Rounds(v, alignment)
    ensures AlignUp(v, alignment) < TWO32
  {
  }

  /** Between two multiples of a there is no third that is closer. */
  lemma {:induction false} AlignUpExact(v: nat, a: nat, next: nat)
    requires a > 0 && next % a == 0 && v <= next
    ensures AlignUp(v, a) <= next
    ensures next < v + a ==> AlignUp(v, a) == next
  {
    var r := AlignUp(v, a);
    assert r == a * (r / a) && next == a * (next / a) && r < v + a;
    if r > next {
      MulGap(a, r / a, next / a);
    } else if next < v + a && r < next {
      MulGap(a, next / a, r / a);
    }
  }

  lemma {:induction false} MulGap(a: nat, x: nat, y: nat)
    requires a * x > a * y && a > 0
    ensures a * x >= a * y + a
  {
    assert x > y by {
      if x <= y {
        MulMono(a, y, x);
      }
    }
    MulMono(a, x, y + 1);
    assert a * (y + 1) == a * y + a;
  }

  lemma {:induction false} SumAligned(x: nat, y: nat, a: nat)
    requires a > 0 && x % a == 0 && y % a == 0
    ensures (x + y) % a == 0
  {
    assert x == a * (x / a) && y == a * (y / a);
    assert a * (x / a + y / a) == a * (x / a) + a * (y / a);
    ModUnique(x + y, a, x / a + y / a, 0);
  }

  /** Rounding commutes with adding a multiple. */
  lemma {:induction false} AlignShift(x: nat, v: nat, a: nat)
    requires a > 0 && x % a == 0
    ensures AlignUp(x + v, a) == x + AlignUp(v, a)
  {
    hide AlignUp;
    SumAligned(x, AlignUp(v, a), a);
    AlignUpExact(x + v, a, x + AlignUp(v, a));
  }

  /** Two buffers that agree below n. */
  ghost predicate SameUpTo(a: bytes, b: bytes, n: nat)
  {
    n <= |a| && n <= |b| && forall k :: 0 <= k < n ==> a[k] == b[k]
  }

  lemma {:induction false} WordUpTo(a: bytes, b: bytes, n: nat, o: nat, w: nat)
    requires SameUpTo(a, b, n) && o + w <= n
    ensures Get(a, o, w) == Get(b, o, w)
  {
    GetFrame(a, b, o, w);
  }

  lemma {:induction false} SectionUpTo(a: bytes, b: bytes, n: nat, at: nat)
    requires SameUpTo(a, b, n) && at + SECTION_HEADER <= n
    ensures SectionAt(a, at) == SectionAt(b, at)
  {
    hide Get;
    assert a[at..at + 8] == b[at..at + 8];
    WordUpTo(a, b, n, at + 8, 4);
    WordUpTo(a, b, n, at + 12, 4);
    WordUpTo(a, b, n, at + 16, 4);
    WordUpTo(a, b, n, at + 20, 4);
    WordUpTo(a, b, n, at + 36, 4);
  }

  lemma {:induction false} SectionsUpTo(a: bytes, b: bytes, n: nat, at: nat, count: nat)
    requires SameUpTo(a, b, n) && at + SECTION_HEADER * count <= n
    ensures SectionsAt(a, at, count) == SectionsAt(b, at, count)
    decreases count
  {
    hide SectionAt;
    if count != 0 {
      SectionUpTo(a, b, n, at);
      SectionsUpTo(a, b, n, at + SECTION_HEADER, count - 1);
    }
  }

  lemma {:induction false} HeadersUpTo(a: bytes, b: bytes, n: nat, nt: nat)
    requires SameUpTo(a, b, n) && HasHeaders(a, nt) && nt + 24 + Get(a, nt + 20, 2) <= n
    requires nt + 24 + Get(a, nt + 20, 2) + SECTION_HEADER * Get(a, nt + 6, 2) <= |b|
    ensures HasHeaders(b, nt) && MinOptional(b, nt) == MinOptional(a, nt)
    ensures Get(b, nt + 20, 2) == Get(a, nt + 20, 2) && Get(b, nt + 6, 2) == Get(a, nt + 6, 2)
  {
    hide Get;
    WordUpTo(a, b, n, nt, 4);
    WordUpTo(a, b, n, nt + 6, 2);
    WordUpTo(a, b, n, nt + 20, 2);
    WordUpTo(a, b, n, nt + 24, 2);
  }

  lemma {:induction false} ParseAtUpTo(a: bytes, b: bytes, n: nat, nt: u32)
    requires SameUpTo(a, b, n) && HasHeaders(a, nt) && HasHeaders(b, nt) && nt + 24 + Get(a, nt + 20, 2) <= n
    requires MinOptional(b, nt) == MinOptional(a, nt)
    requires Get(b, nt + 20, 2) == Get(a, nt + 20, 2) && Get(b, nt + 6, 2) == Get(a, nt + 6, 2)
    ensures ParseAt(b, nt)
         == ParseAt(a, nt).(sections := SectionsAt(b, nt + 24 + Get(a, nt + 20, 2), Get(a, nt + 6, 2)))
  {
    hide Get, SectionsAt, CutNul;
    var opt := nt + 24;
    if MinOptional(a, nt) == 112 {
      WordUpTo(a, b, n, opt + 24, 8);
    } else {
      WordUpTo(a, b, n, opt + 28, 4);
    }
    WordUpTo(a, b, n, opt + 56, 4);
    WordUpTo(a, b, n, opt + 32, 4);
    WordUpTo(a, b, n, opt + 36, 4);
    var imports := if MinOptional(a, nt) == 112 then 120 else 104;
    if imports + 8 <= Get(a, nt + 20, 2) {
      WordUpTo(a, b, n, opt + imports, 4);
    }
  }

  /** A file that agrees below the section table parses to the same header, its own section table apart. */
  lemma {:induction false} ParseTable(a: bytes, b: bytes, h: Header)
    requires Parse(a) == Some(h) && SameUpTo(a, b, SectionTable(h))
    requires SectionTable(h) + SECTION_HEADER * |h.sections| <= |b|
    ensures Parse(b) == Some(h.(sections := SectionsAt(b, SectionTable(h), |h.sections|)))
  {
    hide Get, SectionsAt, MinOptional, HasHeaders, ParseAt;
    ParseEnd(a, h);
    var n := SectionTable(h);
    WordUpTo(a, b, n, 0, 2);
    WordUpTo(a, b, n, 60, 4);
    HeadersUpTo(a, b, n, h.peOffset);
    ParseAtUpTo(a, b, n, h.peOffset);
  }

  /** The header depends on the bytes below its end only. */
  lemma {:induction false} ParseFrame(a: bytes, b: bytes, h: Header)
    requires Parse(a) == Some(h) && SameUpTo(a, b, HeaderEnd(h))
    ensures Parse(b) == Some(h)
  {
    hide Parse, SectionsAt;
    ParseEnd(a, h);
    SectionsUpTo(a, b, HeaderEnd(h), SectionTable(h), |h.sections|);
    ParseTable(a, b, h);
  }

  /** Where the parsed pieces stand. */
  lemma {:induction false} ParseEnd(a: bytes, h: Header)
    requires Parse(a) == Some(h)
    ensures 64 <= HeaderEnd(h) <= |a| && h.peOffset == Get(a, 60, 4)
    ensures HasHeaders(a, h.peOffset) && ParseAt(a, h.peOffset) == h
    ensures h.optionalSize == Get(a, h.peOffset + 20, 2) && |h.sections| == Get(a, h.peOffset + 6, 2)
    ensures SectionTable(h) + SECTION_HEADER * |h.sections| <= HeaderEnd(h)
    ensures h.sections == SectionsAt(a, SectionTable(h), |h.sections|)
    ensures 96 <= h.optionalSize
  {
    hide Get, SectionsAt, CutNul;
  }

  lemma {:induction false} SectionIndex(a: bytes, at: nat, n: nat, i: nat)
    requires at + SECTION_HEADER * n <= |a| && i < n
    ensures SectionsAt(a, at, n)[i] == SectionAt(a, at + SECTION_HEADER * i)
    decreases i
  {
    hide SectionAt;
    if i != 0 {
      SectionIndex(a, at + SECTION_HEADER, n - 1, i - 1);
    }
  }

  // ---- The headers, field by field (sections 2.3, 2.4 and 3 of the PE/COFF specification) ----------------

  /** The bytes are those of a 32-bit or 64-bit image whose headers and section table lie in the data. */
  predicate IsImage(data: bytes)
  {
    && |data| >= 64 && Get(data, 0, 2) == 0x5A4D
    && var pe := Get(data, 60, 4);
       && pe + 26 <= |data| && Get(data, pe, 4) == 0x4550
       && var magic, optional, sections := Get(data, pe + 24, 2), Get(data, pe + 20, 2), Get(data, pe + 6, 2);
          && ((magic == 0x20B && optional >= 112) || (magic == 0x10B && optional >= 96))
          && sections <= 256 && pe + 24 + optional + 40 * sections <= |data|
  }

  lemma {:induction false} ImageIff(data: bytes)
    ensures Parse(data).Some? <==> IsImage(data)
  {
    hide Get, SectionsAt, CutNul, ParseAt;
    if |data| >= 64 && Get(data, 60, 4) + 26 <= |data| {
      GetBounds(data, Get(data, 60, 4) + 20, 2);
    }
  }

  lemma {:induction false} ParsedFront(data: bytes, h: Header)
    requires Parse(data) == Some(h)
    ensures IsImage(data)
    ensures h.peOffset == Get(data, 60, 4) && h.peOffset + 24 + h.optionalSize <= |data| && 96 <= h.optionalSize
    ensures h.optionalSize == Get(data, h.peOffset + 20, 2) && |h.sections| == Get(data, h.peOffset + 6, 2)
  {
    hide Get, SectionsAt, CutNul;
    ImageIff(data);
    ParseEnd(data, h);
  }

  /** Where each field of the parsed header stands. */
  lemma {:induction false} ParsedFields(data: bytes, h: Header)
    requires Parse(data) == Some(h)
    ensures h.peOffset + 24 + h.optionalSize <= |data| && 96 <= h.optionalSize
    ensures var pe, wide := h.peOffset, Get(data, h.peOffset + 24, 2) == 0x20B;
      && (wide ==> 112 <= h.optionalSize)
      && h.imageBase == (if wide then Get(data, pe + 48, 8) else Get(data, pe + 52, 4))
      && h.sectionAlignment == Get(data, pe + 56, 4) && h.fileAlignment == Get(data, pe + 60, 4)
      && h.sizeOfImage == Get(data, pe + 80, 4)
      && h.importRva == (if wide then (if h.optionalSize >= 128 then Get(data, pe + 144, 4) else 0)
                         else (if h.optionalSize >= 112 then Get(data, pe + 128, 4) else 0))
  {
    hide Get, SectionsAt, CutNul;
    ParsedFront(data, h);
    ParseEnd(data, h);
  }

  /** Where the fields of section i stand; its name ends at the first NUL of its eight bytes. */
  lemma {:induction false} ParsedSection(data: bytes, h: Header, i: nat)
    requires Parse(data) == Some(h) && i < |h.sections|
    ensures var at, s := h.peOffset + 24 + h.optionalSize + 40 * i, h.sections[i];
      && at + 40 <= |data|
      && s.vsize == Get(data, at + 8, 4) && s.va == Get(data, at + 12, 4) && s.rawSize == Get(data, at + 16, 4)
      && s.rawOffset == Get(data, at + 20, 4) && s.chars == Get(data, at + 36, 4)
      && |s.name| <= 8 && s.name == data[at..at + |s.name|] && 0 !in s.name
      && (|s.name| < 8 ==> data[at + |s.name|] == 0)
  {
    hide Get, Parse, CutNul;
    ParseEnd(data, h);
    SectionIndex(data, SectionTable(h), |h.sections|, i);
    var at := SectionTable(h) + SECTION_HEADER * i;
    CutIs(data[at..at + 8]);
  }

  lemma {:induction false} CutIs(s: bytes)
    ensures var n := |CutNul(s)|; n <= |s| && CutNul(s) == s[..n] && 0 !in CutNul(s) && (n < |s| ==> s[n] == 0)
  {
    if s != [] && s[0] != 0 {
      CutIs(s[1..]);
    }
  }
}
