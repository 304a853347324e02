/** The section table as an object (crates/pe/src/section.rs). */
module Sections {
  import opened Words
  import opened Pe

  datatype RawHeader = RawHeader(name: bytes, vsize: u32, va: u32, rawSize: u32, rawPtr: u32, chars: u32)

  /** A section: its on-disk header and the fields that mirror it. */
  datatype PeSection = PeSection(header: RawHeader, name: bytes, va: u32, vsize: u32, rawOffset: u32, rawSize: u32,
                                 chars: u32)

  datatype Config = Config(sectionAlignment: u32, fileAlignment: u32, is64bit: bool)

  datatype Layout = Layout(sections: seq<PeSection>, sizeOfImage: u32, sizeOfHeaders: u32, numberOfSections: u16)

  const MEM_READ_INITIALIZED: u32 := 0x4000_0040

  /** The mirroring fields brought up to date. */
  function Sync(s: PeSection): PeSection
  {
    PeSection(s.header, CutNul(s.header.name), s.header.va, s.header.vsize, s.header.rawPtr, s.header.rawSize,
              s.header.chars)
  }

  predicate Mirrored(s: PeSection) { s == Sync(s) }

  function RawEnd(s: PeSection): nat { s.header.rawPtr + s.header.rawSize }

  function Has(chars: u32, flag: nat): bool
    requires flag > 0
  {
    chars / flag % 2 == 1
  }

  function Writable(chars: u32): u32 { if Has(chars, 0x8000_0000) then chars else chars + 0x8000_0000 }

  /** A name cut to eight bytes and padded with zeros. */
  function EightBytes(name: bytes): (r: bytes)
    ensures |r| == 8
  {
    if |name| >= 8 then name[..8] else name + Zeros(8 - |name|)
  }

  function Renamed(s: PeSection, name: bytes): PeSection
  {
    s.(header := s.header.(name := EightBytes(name)), name := CutNul(EightBytes(name)))
  }

  function LastRawEnd(ss: seq<PeSection>): nat
  {
    if ss == [] then 0
    else
      var rest := LastRawEnd(ss[..|ss| - 1]);
      if RawEnd(ss[|ss| - 1]) > rest then RawEnd(ss[|ss| - 1]) else rest
  }

  // ---- Creating, deleting, sanitizing ------------------------------------------------------------

  /** No sum leaves 32 bits, and there is a section to go behind. */
  predicate CanCreate(st: Layout, c: Config, vsize: u32)
  {
    && st.sections != []
    && var prev := st.sections[|st.sections| - 1];
    && Rounds(prev.va + prev.vsize, c.sectionAlignment) && Rounds(vsize, c.fileAlignment)
    && Rounds(vsize, c.sectionAlignment)
    && (forall i :: 0 <= i < |st.sections| ==> RawEnd(st.sections[i]) < TWO32)
    && Rounds(LastRawEnd(st.sections), c.fileAlignment)
    && st.sizeOfImage + AlignUp(vsize, c.sectionAlignment) < TWO32
  }

  function NewSection(st: Layout, c: Config, name: bytes, vsize: u32): PeSection
    requires CanCreate(st, c, vsize)
  {
    var prev := st.sections[|st.sections| - 1];
    RoundsUp(prev.va + prev.vsize, c.sectionAlignment);
    RoundsUp(vsize, c.fileAlignment);
    RoundsUp(LastRawEnd(st.sections), c.fileAlignment);
    var va: u32, rawSize: u32 := AlignUp(prev.va + prev.vsize, c.sectionAlignment), AlignUp(vsize, c.fileAlignment);
    var rawPtr: u32 := AlignUp(LastRawEnd(st.sections), c.fileAlignment);
    Renamed(PeSection(RawHeader(Zeros(8), vsize, va, rawSize, rawPtr, MEM_READ_INITIALIZED),
                      [], va, vsize, rawPtr, rawSize, MEM_READ_INITIALIZED), name)
  }

  function Created(st: Layout, c: Config, name: bytes, vsize: u32): Layout
    requires CanCreate(st, c, vsize)
  {
    st.(sections := st.sections + [NewSection(st, c, name, vsize)],
        sizeOfImage := st.sizeOfImage + AlignUp(vsize, c.sectionAlignment))
  }

  /** The room the deleted section leaves: up to the next one, or to the end of the image. */
  function Freed(st: Layout, d: nat): int
    requires d < |st.sections|
  {
    (if d == |st.sections| - 1 then st.sizeOfImage else st.sections[d + 1].header.rawPtr) - st.sections[d].header.rawPtr
  }

  /** The asserted index range, and no subtraction or sum that leaves 32 bits. */
  predicate CanDelete(st: Layout, c: Config, d: nat)
  {
    && 0 < d < |st.sections| && 0 <= Freed(st, d)
    && (forall k :: d < k < |st.sections| ==> Freed(st, d) <= st.sections[k].header.rawPtr)
    && Rounds(st.sections[d - 1].header.vsize + st.sections[d].header.vsize, c.sectionAlignment)
  }

  function Lowered(s: PeSection, delta: nat): PeSection
    requires delta <= s.header.rawPtr
  {
    Sync(s.(header := s.header.(rawPtr := s.header.rawPtr - delta)))
  }

  function LoweredAll(ss: seq<PeSection>, delta: nat): (r: seq<PeSection>)
    requires forall k :: 0 <= k < |ss| ==> delta <= ss[k].header.rawPtr
    ensures |r| == |ss| && forall k :: 0 <= k < |ss| ==> r[k] == Lowered(ss[k], delta)
  {
    if ss == [] then [] else [Lowered(ss[0], delta)] + LoweredAll(ss[1..], delta)
  }

  function Resized(s: PeSection, vsize: u32): PeSection { Sync(s.(header := s.header.(vsize := vsize))) }

  function MergedSize(st: Layout, c: Config, d: nat): u32
    requires CanDelete(st, c, d)
  {
    RoundsUp(st.sections[d - 1].header.vsize + st.sections[d].header.vsize, c.sectionAlignment);
    AlignUp(st.sections[d - 1].header.vsize + st.sections[d].header.vsize, c.sectionAlignment)
  }

  function Deleted(st: Layout, c: Config, d: nat): Layout
    requires CanDelete(st, c, d)
  {
    var merged := Resized(st.sections[d - 1], MergedSize(st, c, d));
    st.(sections := st.sections[..d - 1] + [merged] + LoweredAll(st.sections[d + 1..], Freed(st, d)),
        numberOfSections := if st.numberOfSections == 0 then 0 else st.numberOfSections - 1)
  }

  function Flattened(s: PeSection, is64bit: bool): PeSection
  {
    Sync(s.(header := s.header.(rawPtr := s.header.va,
                                rawSize := if Has(s.header.chars, 0x80) && !is64bit then 0 else s.header.vsize)))
  }

  function FlattenedAll(ss: seq<PeSection>, is64bit: bool): (r: seq<PeSection>)
    ensures |r| == |ss| && forall k :: 0 <= k < |ss| ==> r[k] == Flattened(ss[k], is64bit)
  {
    if ss == [] then [] else [Flattened(ss[0], is64bit)] + FlattenedAll(ss[1..], is64bit)
  }

  /** Only a first section that declares both code and initialized data becomes writable. */
  function FirstGranted(s: PeSection): PeSection
  {
    if Has(s.header.chars, 0x20) && Has(s.header.chars, 0x40)
    then Sync(s.(header := s.header.(chars := Writable(s.header.chars)))) else s
  }

  function Sanitized(st: Layout, c: Config): Layout
  {
    var ss := FlattenedAll(st.sections, c.is64bit);
    if ss == [] then st.(sections := ss)
    else st.(sections := ss[0 := FirstGranted(ss[0])], sizeOfHeaders := ss[0].header.rawPtr)
  }

  // ---- The object -----------------------------------------------------------------------------------

  class PeHeader {
    var sections: seq<PeSection>
    var sizeOfImage: u32
    var sizeOfHeaders: u32
    var numberOfSections: u16
    const sectionAlignment: u32
    const fileAlignment: u32
    const is64bit: bool

    constructor (st: Layout, c: Config)
      ensures State() == st && Conf() == c
    {
      sections, sizeOfImage, sizeOfHeaders, numberOfSections := st.sections, st.sizeOfImage, st.sizeOfHeaders,
          st.numberOfSections;
      sectionAlignment, fileAlignment, is64bit := c.sectionAlignment, c.fileAlignment, c.is64bit;
    }

    function State(): Layout
      reads this
    {
      Layout(sections, sizeOfImage, sizeOfHeaders, numberOfSections)
    }

    function Conf(): Config { Config(sectionAlignment, fileAlignment, is64bit) }

    method Rename(index: nat, name: bytes)
      requires index < |sections|
      modifies this
      ensures State() == old(State()).(sections := old(sections)[index := Renamed(old(sections)[index], name)])
    {
      var s := sections[index];
      var padded := if |name| >= 8 then name[..8] else name + Zeros(8 - |name|);
      sections := sections[index := s.(header := s.header.(name := padded), name := CutNul(padded))];
    }

    method CreateSectionIndex(name: bytes, vsize: u32) returns (index: nat)
      requires CanCreate(State(), Conf(), vsize)
      modifies this
      ensures State() == Created(old(State()), Conf(), name, vsize) && index == |old(sections)|
    {
      hide AlignUp, LastRawEnd, CutNul, EightBytes;
      ghost var st := State();
      var prev := sections[|sections| - 1];
      RoundsUp(prev.va + prev.vsize, sectionAlignment);
      RoundsUp(vsize, fileAlignment);
      var va: u32 := AlignUp(prev.va + prev.vsize, sectionAlignment);
      var rawSize: u32 := AlignUp(vsize, fileAlignment);
      var end := FindLastRawEnd();
      RoundsUp(end, fileAlignment);
      var rawOffset: u32 := AlignUp(end, fileAlignment);
      var section := PeSection(RawHeader(Zeros(8), vsize, va, rawSize, rawOffset, MEM_READ_INITIALIZED),
                               [], va, vsize, rawOffset, rawSize, MEM_READ_INITIALIZED);
      sizeOfImage := sizeOfImage + AlignUp(vsize, sectionAlignment);
      sections := sections + [section];
      index := |sections| - 1;
      Rename(index, name);
      assert sections == st.sections + [Renamed(section, name)];
    }

    method FindLastRawEnd() returns (end: nat)
      ensures end == LastRawEnd(sections)
    {
      end := 0;
      for i := 0 to |sections|
        invariant end == LastRawEnd(sections[..i])
      {
        assert sections[..i + 1][..i] == sections[..i];
        if RawEnd(sections[i]) > end {
          end := RawEnd(sections[i]);
        }
      }
      assert sections[..|sections|] == sections;
    }

    method DeleteSection(index: nat)
      requires CanDelete(State(), Conf(), index)
      modifies this
      ensures State() == Deleted(old(State()), Conf(), index)
    {
      hide AlignUp, Sync, LoweredAll, Rounds;
      ghost var before := sections;
      var next := if index == |sections| - 1 then sizeOfImage else sections[index + 1].header.rawPtr;
      var freed := next - sections[index].header.rawPtr;
      LowerFrom(index + 1, freed);
      ghost var merged := Resized(before[index - 1], MergedSize(old(State()), Conf(), index));
      MergeInto(index);
      sections := sections[..index] + sections[index + 1..];
      numberOfSections := if numberOfSections == 0 then 0 else numberOfSections - 1;
    }

    /** The deleted section's size goes to the one before it, which is then rounded up. */
    method MergeInto(index: nat)
      requires 0 < index < |sections|
      requires Rounds(sections[index - 1].header.vsize + sections[index].header.vsize, sectionAlignment)
      modifies `sections
      ensures var total := old(sections)[index - 1].header.vsize + old(sections)[index].header.vsize;
        && AlignUp(total, sectionAlignment) < TWO32
        && sections == old(sections)[index - 1 := Resized(old(sections)[index - 1], AlignUp(total, sectionAlignment))]
    {
      hide AlignUp, Sync, Rounds;
      var p := sections[index - 1];
      RoundsUp(p.header.vsize + sections[index].header.vsize, sectionAlignment);
      var merged: u32 := AlignUp(p.header.vsize + sections[index].header.vsize, sectionAlignment);
      sections := sections[index - 1 := Sync(p.(header := p.header.(vsize := merged)))];
    }

    /** The raw pointers from section i on, lowered one after the other. */
    method LowerFrom(i: nat, delta: nat)
      requires i <= |sections| && forall k :: i <= k < |sections| ==> delta <= sections[k].header.rawPtr
      modifies `sections
      ensures sections == old(sections)[..i] + LoweredAll(old(sections)[i..], delta)
    {
      hide LoweredAll, Sync;
      ghost var before := sections;
      for k := i to |sections|
        invariant |sections| == |before|
        invariant forall j :: 0 <= j < i || k <= j < |sections| ==> sections[j] == before[j]
        invariant forall j :: i <= j < k ==> sections[j] == Lowered(before[j], delta)
      {
        var s := sections[k];
        sections := sections[k := Sync(s.(header := s.header.(rawPtr := s.header.rawPtr - delta)))];
      }
    }

    method Sanitize()
      modifies this
      ensures State() == Sanitized(old(State()), Conf())
    {
      hide FlattenedAll, Sync, Has, Writable;
      ghost var before := sections;
      for k := 0 to |sections|
        invariant |sections| == |before| && sizeOfImage == old(sizeOfImage) && sizeOfHeaders == old(sizeOfHeaders)
        invariant numberOfSections == old(numberOfSections)
        invariant forall j :: k <= j < |sections| ==> sections[j] == before[j]
        invariant forall j :: 0 <= j < k ==> sections[j] == Flattened(before[j], is64bit)
      {
        var s := sections[k];
        var rawSize := if Has(s.header.chars, 0x80) && !is64bit then 0 else s.header.vsize;
        sections := sections[k := Sync(s.(header := s.header.(rawPtr := s.header.va, rawSize := rawSize)))];
      }
      assert sections == FlattenedAll(before, is64bit);
      if sections != [] {
        var first := sections[0];
        sizeOfHeaders := first.header.rawPtr;
        if Has(first.header.chars, 0x20) && Has(first.header.chars, 0x40) {
          sections := sections[0 := Sync(first.(header := first.header.(chars := Writable(first.header.chars))))];
        }
      }
    }
  }

  // ---- What every operation keeps --------------------------------------------------------------------

  function VaEnd(s: PeSection, sa: nat): nat { AlignUp(s.header.va + s.header.vsize, sa) }

  ghost predicate AllMirrored(ss: seq<PeSection>)
  {
    forall i :: 0 <= i < |ss| ==> Mirrored(ss[i])
  }

  /** Raw ranges come in table order, so no two overlap. */
  ghost predicate RawApart(ss: seq<PeSection>)
  {
    forall i, j :: 0 <= i < j < |ss| ==> RawEnd(ss[i]) <= ss[j].header.rawPtr
  }

  /** Aligned addresses, each section's aligned end no later than any following one. */
  ghost predicate Laid(ss: seq<PeSection>, sa: nat)
  {
    && sa > 0
    && (forall i :: 0 <= i < |ss| ==> ss[i].header.va % sa == 0)
    && (forall i, j :: 0 <= i < j < |ss| ==> VaEnd(ss[i], sa) <= ss[j].header.va)
  }

  /** Each section starts exactly at the aligned end of the one before: what the loader insists on. */
  ghost predicate Contiguous(ss: seq<PeSection>, sa: nat)
  {
    forall i :: 0 < i < |ss| ==> VaEnd(ss[i - 1], sa) == ss[i].header.va
  }

  ghost predicate Sound(st: Layout, c: Config)
  {
    AllMirrored(st.sections) && RawApart(st.sections) && Laid(st.sections, c.sectionAlignment)
  }

  lemma {:induction false} LastRawEndCovers(ss: seq<PeSection>, i: nat)
    requires i < |ss|
    ensures RawEnd(ss[i]) <= LastRawEnd(ss)
    decreases |ss|
  {
    if i < |ss| - 1 {
      LastRawEndCovers(ss[..|ss| - 1], i);
    }
  }

  lemma {:induction false} NewSectionIs(st: Layout, c: Config, name: bytes, vsize: u32)
    requires CanCreate(st, c, vsize)
    ensures var s, prev := NewSection(st, c, name, vsize), st.sections[|st.sections| - 1];
      && Mirrored(s) && s.header.vsize == vsize
      && s.header.va == AlignUp(prev.va + prev.vsize, c.sectionAlignment)
      && s.header.rawPtr == AlignUp(LastRawEnd(st.sections), c.fileAlignment)
      && s.header.rawSize == AlignUp(vsize, c.fileAlignment)
  {
    hide AlignUp, LastRawEnd, CutNul, EightBytes;
  }

  /** A section behind all others in file and memory. */
  lemma {:induction false} AppendKeeps(ss: seq<PeSection>, s: PeSection, sa: nat)
    requires AllMirrored(ss) && RawApart(ss) && Laid(ss, sa) && Mirrored(s) && s.header.va % sa == 0
    requires forall i :: 0 <= i < |ss| ==> RawEnd(ss[i]) <= s.header.rawPtr && VaEnd(ss[i], sa) <= s.header.va
    ensures AllMirrored(ss + [s]) && RawApart(ss + [s]) && Laid(ss + [s], sa)
  {
    hide VaEnd, RawEnd, Mirrored;
  }

  lemma {:induction false} AppendContiguous(ss: seq<PeSection>, s: PeSection, sa: nat)
    requires ss != [] && Contiguous(ss, sa) && VaEnd(ss[|ss| - 1], sa) == s.header.va
    ensures Contiguous(ss + [s], sa)
  {
    hide VaEnd;
  }

  lemma {:induction false} CreateKeeps(st: Layout, c: Config, name: bytes, vsize: u32)
    requires Sound(st, c) && CanCreate(st, c, vsize)
    ensures Sound(Created(st, c, name, vsize), c)
    ensures Contiguous(st.sections, c.sectionAlignment) ==>
        Contiguous(Created(st, c, name, vsize).sections, c.sectionAlignment)
  {
    hide AlignUp, LastRawEnd, NewSection, CanCreate, Sync, RawEnd, AllMirrored, RawApart, Contiguous;
    CanCreateParts(st, c, vsize);
    NewSectionIs(st, c, name, vsize);
    var ss, n, s := st.sections, |st.sections|, NewSection(st, c, name, vsize);
    LastMirrored(ss);
    forall i | 0 <= i < n ensures RawEnd(ss[i]) <= s.header.rawPtr && VaEnd(ss[i], c.sectionAlignment) <= s.header.va {
      LastRawEndCovers(ss, i);
      if i < n - 1 {
        LaidAt(ss, c.sectionAlignment, i, n - 1);
      }
    }
    AppendKeeps(ss, s, c.sectionAlignment);
    if Contiguous(ss, c.sectionAlignment) {
      AppendContiguous(ss, s, c.sectionAlignment);
    }
  }

  lemma {:induction false} LastMirrored(ss: seq<PeSection>)
    requires ss != [] && AllMirrored(ss)
    ensures var s := ss[|ss| - 1]; s.va == s.header.va && s.vsize == s.header.vsize
  {
  }

  lemma {:induction false} CanCreateParts(st: Layout, c: Config, vsize: u32)
    requires CanCreate(st, c, vsize)
    ensures st.sections != []
  {
  }

  /** The same ranges in file and memory. */
  predicate SamePlace(s: PeSection, t: PeSection)
  {
    && s.header.va == t.header.va && s.header.vsize == t.header.vsize
    && s.header.rawPtr == t.header.rawPtr && s.header.rawSize == t.header.rawSize
  }

  lemma {:induction false} SamePlacesKeep(ss: seq<PeSection>, r: seq<PeSection>, sa: nat)
    requires |r| == |ss| && (forall i :: 0 <= i < |ss| ==> SamePlace(ss[i], r[i])) && Laid(ss, sa) && RawApart(ss)
    ensures Laid(r, sa) && RawApart(r) && (Contiguous(ss, sa) ==> Contiguous(r, sa))
  {
    hide AlignUp;
    forall i | 0 <= i < |r| ensures VaEnd(r[i], sa) == VaEnd(ss[i], sa) && RawEnd(r[i]) == RawEnd(ss[i]) {
      assert SamePlace(ss[i], r[i]);
    }
    hide VaEnd, RawEnd;
    forall i | 0 <= i < |r| ensures r[i].header.va == ss[i].header.va && r[i].header.rawPtr == ss[i].header.rawPtr {
      assert SamePlace(ss[i], r[i]);
    }
  }

  lemma {:induction false} FlattenedPair(ss: seq<PeSection>, is64bit: bool, sa: nat, i: nat, j: nat)
    requires Laid(ss, sa) && i < j < |ss|
    ensures var r := FlattenedAll(ss, is64bit);
      RawEnd(r[i]) <= r[j].header.rawPtr && VaEnd(r[i], sa) == VaEnd(ss[i], sa) <= r[j].header.va
  {
    hide AlignUp, Has, CutNul, FlattenedAll;
    LaidAt(ss, sa, i, j);
  }

  lemma {:induction false} FlattenedPlaces(ss: seq<PeSection>, is64bit: bool, sa: nat)
    ensures var r := FlattenedAll(ss, is64bit);
      AllMirrored(r)
      && forall i | 0 <= i < |ss| :: VaEnd(r[i], sa) == VaEnd(ss[i], sa) && r[i].header.va == ss[i].header.va
  {
    hide AlignUp, Has, CutNul, FlattenedAll;
  }

  lemma {:induction false} FlattenedKeeps(ss: seq<PeSection>, is64bit: bool, sa: nat)
    requires Laid(ss, sa)
    ensures var r := FlattenedAll(ss, is64bit); AllMirrored(r) && RawApart(r) && Laid(r, sa)
    ensures Contiguous(ss, sa) ==> Contiguous(FlattenedAll(ss, is64bit), sa)
  {
    hide Flattened, FlattenedAll, RawEnd, VaEnd, AllMirrored;
    var r := FlattenedAll(ss, is64bit);
    FlattenedPlaces(ss, is64bit, sa);
    forall i, j | 0 <= i < j < |r| ensures RawEnd(r[i]) <= r[j].header.rawPtr && VaEnd(r[i], sa) <= r[j].header.va {
      FlattenedPair(ss, is64bit, sa, i, j);
    }
  }

  lemma {:induction false} GrantedPlace(s: PeSection)
    requires Mirrored(s)
    ensures Mirrored(FirstGranted(s)) && SamePlace(s, FirstGranted(s))
  {
    hide Has, CutNul;
  }

  /** Sanitizing makes the raw ranges disjoint whatever they were, and keeps the address space as it is. */
  lemma {:induction false} SanitizeKeeps(st: Layout, c: Config)
    requires Laid(st.sections, c.sectionAlignment)
    ensures Sound(Sanitized(st, c), c)
    ensures Contiguous(st.sections, c.sectionAlignment) ==> Contiguous(Sanitized(st, c).sections, c.sectionAlignment)
  {
    hide FlattenedAll, RawEnd, VaEnd, Laid, RawApart, Contiguous, Mirrored, FirstGranted;
    FlattenedKeeps(st.sections, c.is64bit, c.sectionAlignment);
    var r := FlattenedAll(st.sections, c.is64bit);
    if r != [] {
      GrantedPlace(r[0]);
      SamePlacesKeep(r, r[0 := FirstGranted(r[0])], c.sectionAlignment);
    }
  }

  // ---- Deleting ------------------------------------------------------------------------------------------

  /** The merged section ends, aligned, no later than where the deleted one's successor starts. */
  lemma {:induction false} MergedEnd(st: Layout, c: Config, d: nat)
    requires Sound(st, c) && CanDelete(st, c, d)
    ensures var p, m := st.sections[d - 1].header, MergedSize(st, c, d);
      && AlignUp(p.va + m, c.sectionAlignment) == p.va + m
      && forall j :: d < j < |st.sections| ==> p.va + m <= st.sections[j].header.va
  {
    hide AlignUp, Sync, Rounds;
    var sa, p, s := c.sectionAlignment, st.sections[d - 1].header, st.sections[d].header;
    LaidAt(st.sections, sa, d - 1, d);
    AlignShift(p.va, p.vsize + s.vsize, sa);
    AlignShift(p.va, MergedSize(st, c, d), sa);
    AlignedTwice(p.vsize + s.vsize, sa);
    forall j | d < j < |st.sections| ensures p.va + MergedSize(st, c, d) <= st.sections[j].header.va {
      LaidAt(st.sections, sa, d, j);
      AlignUpExact(p.va + (p.vsize + s.vsize), sa, st.sections[j].header.va);
    }
  }

  lemma {:induction false} AlignedTwice(v: nat, a: nat)
    requires a > 0
    ensures AlignUp(AlignUp(v, a), a) == AlignUp(v, a)
  {
    AlignUpExact(AlignUp(v, a), a, AlignUp(v, a));
  }

  lemma {:induction false} LaidAt(ss: seq<PeSection>, sa: nat, i: nat, j: nat)
    requires Laid(ss, sa) && i < j < |ss|
    ensures sa > 0 && ss[i].header.va % sa == 0 && ss[j].header.va % sa == 0
    ensures ss[i].header.va + ss[i].header.vsize <= VaEnd(ss[i], sa) <= ss[j].header.va
  {
    hide AlignUp;
  }

  /** The section that element i of the shortened table comes from. */
  function Source(i: nat, d: nat): nat { if i < d then i else i + 1 }

  lemma {:induction false} DeletedAt(st: Layout, c: Config, d: nat, i: nat)
    requires CanDelete(st, c, d) && i < |st.sections| - 1
    ensures |Deleted(st, c, d).sections| == |st.sections| - 1
    ensures var s, r := st.sections[Source(i, d)].header, Deleted(st, c, d).sections[i];
      && (AllMirrored(st.sections) ==> Mirrored(r))
      && r.header.va == s.va && r.header.rawSize == s.rawSize
      && r.header.vsize == (if i == d - 1 then MergedSize(st, c, d) else s.vsize)
      && r.header.rawPtr == (if i < d then s.rawPtr else s.rawPtr - Freed(st, d))
  {
    hide AlignUp, CutNul, LoweredAll, Rounds, MergedSize;
    var L := LoweredAll(st.sections[d + 1..], Freed(st, d));
    if i >= d {
      assert L[i - d] == Lowered(st.sections[d + 1..][i - d], Freed(st, d));
    }
  }

  lemma {:induction false} DeleteKeeps(st: Layout, c: Config, d: nat)
    requires Sound(st, c) && CanDelete(st, c, d)
    ensures Sound(Deleted(st, c, d), c)
  {
    hide AlignUp, Sync, Deleted, CanDelete, MergedSize, RawEnd;
    var r, ss, sa := Deleted(st, c, d).sections, st.sections, c.sectionAlignment;
    CanDeleteParts(st, c, d);
    forall i | 0 <= i < |ss| - 1 ensures |r| == |ss| - 1 && Mirrored(r[i]) && r[i].header.va % sa == 0 {
      DeletedAt(st, c, d, i);
    }
    forall i, j | 0 <= i < j < |ss| - 1
      ensures |r| == |ss| - 1 && RawEnd(r[i]) <= r[j].header.rawPtr && VaEnd(r[i], sa) <= r[j].header.va
    {
      DeletedPair(st, c, d, i, j);
    }
    if |ss| >= 2 {
      DeletedAt(st, c, d, 0);
    }
  }

  lemma {:induction false} CanDeleteParts(st: Layout, c: Config, d: nat)
    requires CanDelete(st, c, d)
    ensures 0 < d < |st.sections| && Freed(st, d) >= 0
    ensures d < |st.sections| - 1 ==> Freed(st, d) == st.sections[d + 1].header.rawPtr - st.sections[d].header.rawPtr
  {
    hide Rounds;
  }

  lemma {:induction false} DeletedPair(st: Layout, c: Config, d: nat, i: nat, j: nat)
    requires Sound(st, c) && CanDelete(st, c, d) && i < j < |st.sections| - 1
    ensures var r := Deleted(st, c, d).sections;
      && |r| == |st.sections| - 1
      && RawEnd(r[i]) <= r[j].header.rawPtr && VaEnd(r[i], c.sectionAlignment) <= r[j].header.va
  {
    hide *;
    SoundParts(st, c);
    DeletedAt(st, c, d, i);
    DeletedRaw(st, c, d, i, j);
    DeletedVa(st, c, d, i, j);
  }

  lemma {:induction false} SoundParts(st: Layout, c: Config)
    requires Sound(st, c)
    ensures AllMirrored(st.sections) && RawApart(st.sections) && Laid(st.sections, c.sectionAlignment)
  {
    hide AllMirrored, RawApart, Laid;
  }

  lemma {:induction false} DeletedRaw(st: Layout, c: Config, d: nat, i: nat, j: nat)
    requires RawApart(st.sections) && CanDelete(st, c, d) && i < j < |st.sections| - 1
    ensures var r := Deleted(st, c, d).sections; |r| == |st.sections| - 1 && RawEnd(r[i]) <= r[j].header.rawPtr
  {
    hide Deleted, CanDelete, MergedSize, Freed, Mirrored, AllMirrored;
    var ss := st.sections;
    CanDeleteParts(st, c, d);
    DeletedAt(st, c, d, i);
    DeletedAt(st, c, d, j);
    assert RawEnd(ss[Source(i, d)]) <= ss[Source(j, d)].header.rawPtr;
    if i < d <= j {
      assert RawEnd(ss[i]) <= ss[d].header.rawPtr;
      RawAscends(ss, d + 1, j + 1);
    }
  }

  lemma {:induction false} RawAscends(ss: seq<PeSection>, i: nat, j: nat)
    requires RawApart(ss) && i <= j < |ss|
    ensures ss[i].header.rawPtr <= ss[j].header.rawPtr
  {
    if i < j {
      assert RawEnd(ss[i]) <= ss[j].header.rawPtr;
    }
  }

  lemma {:induction false} DeletedVa(st: Layout, c: Config, d: nat, i: nat, j: nat)
    requires Sound(st, c) && CanDelete(st, c, d) && i < j < |st.sections| - 1
    ensures var r := Deleted(st, c, d).sections;
      |r| == |st.sections| - 1 && VaEnd(r[i], c.sectionAlignment) <= r[j].header.va
  {
    hide *;
    CanDeleteParts(st, c, d);
    DeletedVaEnd(st, c, d, i);
    DeletedVaStart(st, c, d, j);
    SourceOrder(i, j, d);
    DeletedVaBound(st, c, d, i, Source(j, d));
  }

  lemma {:induction false} DeletedVaStart(st: Layout, c: Config, d: nat, j: nat)
    requires CanDelete(st, c, d) && j < |st.sections| - 1
    ensures var r := Deleted(st, c, d).sections;
      |r| == |st.sections| - 1 && Source(j, d) < |st.sections| && r[j].header.va == st.sections[Source(j, d)].header.va
  {
    hide Deleted, CanDelete, MergedSize, Mirrored;
    DeletedAt(st, c, d, j);
  }

  /** Where section i of the shortened table ends, read off the table before. */
  function EndBefore(st: Layout, c: Config, d: nat, i: nat): nat
    requires CanDelete(st, c, d) && i < |st.sections| - 1
  {
    if i == d - 1 then AlignUp(st.sections[i].header.va + MergedSize(st, c, d), c.sectionAlignment)
    else VaEnd(st.sections[Source(i, d)], c.sectionAlignment)
  }

  lemma {:induction false} DeletedVaEnd(st: Layout, c: Config, d: nat, i: nat)
    requires CanDelete(st, c, d) && i < |st.sections| - 1
    ensures var r := Deleted(st, c, d).sections;
      |r| == |st.sections| - 1 && VaEnd(r[i], c.sectionAlignment) == EndBefore(st, c, d, i)
  {
    hide Deleted, CanDelete, MergedSize, Mirrored, AlignUp;
    DeletedAt(st, c, d, i);
  }

  lemma {:induction false} DeletedVaBound(st: Layout, c: Config, d: nat, i: nat, k: nat)
    requires Sound(st, c) && CanDelete(st, c, d) && i < |st.sections| - 1 && Source(i, d) < k < |st.sections|
    requires i == d - 1 ==> d < k
    ensures EndBefore(st, c, d, i) <= st.sections[k].header.va
  {
    hide CanDelete, MergedSize, AlignUp, Sound, VaEnd, Laid;
    SoundParts(st, c);
    if i == d - 1 {
      MergedEndAt(st, c, d, k);
    } else {
      LaidAt(st.sections, c.sectionAlignment, Source(i, d), k);
    }
  }

  lemma {:induction false} MergedEndAt(st: Layout, c: Config, d: nat, j: nat)
    requires Sound(st, c) && CanDelete(st, c, d) && d < j < |st.sections|
    ensures AlignUp(st.sections[d - 1].header.va + MergedSize(st, c, d), c.sectionAlignment) <= st.sections[j].header.va
  {
    hide *;
    CanDeleteParts(st, c, d);
    MergedEnd(st, c, d);
  }

  lemma {:induction false} SourceOrder(i: nat, j: nat, d: nat)
    requires i < j
    ensures i <= Source(i, d) < Source(j, d) <= j + 1
    ensures (i < d ==> Source(i, d) == i) && (i == d - 1 ==> Source(j, d) > d)
  {
  }

  /**
   * Deleting a section keeps a contiguous address space contiguous exactly if it was the last, or if
   * rounding the two merged sizes together gives the sum of rounding each.
   */
  lemma {:induction false} DeleteContiguousIff(st: Layout, c: Config, d: nat)
    requires Sound(st, c) && CanDelete(st, c, d) && Contiguous(st.sections, c.sectionAlignment)
    ensures var sa, p, s := c.sectionAlignment, st.sections[d - 1].header.vsize, st.sections[d].header.vsize;
      Contiguous(Deleted(st, c, d).sections, sa)
      <==> d == |st.sections| - 1 || AlignUp(p + s, sa) == AlignUp(p, sa) + AlignUp(s, sa)
  {
    hide AlignUp, Deleted, CanDelete, MergedSize, Sound, VaEnd;
    var r, ss, sa := Deleted(st, c, d).sections, st.sections, c.sectionAlignment;
    CanDeleteParts(st, c, d);
    DeletedAt(st, c, d, 0);
    forall i | 0 < i < |r| && i != d ensures VaEnd(r[i - 1], sa) == r[i].header.va {
      OtherSeam(st, c, d, i);
    }
    if d < |r| {
      SeamIs(st, c, d);
    }
  }

  /** Away from the deleted section the table is as contiguous as it was. */
  lemma {:induction false} OtherSeam(st: Layout, c: Config, d: nat, i: nat)
    requires CanDelete(st, c, d) && Contiguous(st.sections, c.sectionAlignment) && 0 < i < |st.sections| - 1 && i != d
    ensures var r := Deleted(st, c, d).sections;
      |r| == |st.sections| - 1 && VaEnd(r[i - 1], c.sectionAlignment) == r[i].header.va
  {
    hide AlignUp, Deleted, CanDelete, MergedSize, AllMirrored, Freed;
    CanDeleteParts(st, c, d);
    DeletedAt(st, c, d, i - 1);
    DeletedAt(st, c, d, i);
    assert VaEnd(st.sections[Source(i, d) - 1], c.sectionAlignment) == st.sections[Source(i, d)].header.va;
  }

  /** Where the merged section ends, and where its successor starts. */
  lemma {:induction false} SeamIs(st: Layout, c: Config, d: nat)
    requires Sound(st, c) && CanDelete(st, c, d) && Contiguous(st.sections, c.sectionAlignment) && d + 1 < |st.sections|
    ensures var sa, p, s, r := c.sectionAlignment, st.sections[d - 1].header, st.sections[d].header,
        Deleted(st, c, d).sections;
      && |r| == |st.sections| - 1
      && VaEnd(r[d - 1], sa) == p.va + AlignUp(p.vsize + s.vsize, sa)
      && r[d].header.va == p.va + AlignUp(p.vsize, sa) + AlignUp(s.vsize, sa)
  {
    hide AlignUp, Sync, Rounds, Deleted, AllMirrored, RawApart, Laid;
    DeletedAt(st, c, d, d - 1);
    DeletedAt(st, c, d, d);
    var sa, p, s := c.sectionAlignment, st.sections[d - 1].header, st.sections[d].header;
    MergedEnd(st, c, d);
    LaidAt(st.sections, sa, d - 1, d);
    AlignShift(p.va, p.vsize, sa);
    AlignShift(s.va, s.vsize, sa);
    assert VaEnd(st.sections[d - 1], sa) == s.va && VaEnd(st.sections[d], sa) == st.sections[d + 1].header.va;
  }

  /** A section of 0x100 bytes at page k of memory and file. */
  function PageSection(k: nat): PeSection
    requires k < 0x1000
  {
    Sync(PeSection(RawHeader(Zeros(8), 0x100, 0x1000 * k, 0x100, 0x1000 * k, MEM_READ_INITIALIZED), [], 0, 0, 0, 0, 0))
  }

  function ThreePages(): Layout { Layout([PageSection(1), PageSection(2), PageSection(3)], 0x4000, 0x1000, 3) }

  /** Three sections on consecutive pages: deleting the middle one leaves a page that belongs to none. */
  lemma {:induction false} DeleteLeavesHole()
    ensures var st, c := ThreePages(), Config(0x1000, 0x200, true);
      && Sound(st, c) && Contiguous(st.sections, 0x1000) && CanDelete(st, c, 1)
      && Sound(Deleted(st, c, 1), c) && !Contiguous(Deleted(st, c, 1).sections, 0x1000)
  {
    hide ThreePages, Sound, Contiguous, CanDelete, Deleted, AlignUp;
    var st, c := ThreePages(), Config(0x1000, 0x200, true);
    ThreePagesSound();
    DeleteKeeps(st, c, 1);
    DeleteContiguousIff(st, c, 1);
    OnePageTooFew();
  }

  lemma {:induction false} OnePageTooFew()
    ensures AlignUp(0x100 + 0x100, 0x1000) != AlignUp(0x100, 0x1000) + AlignUp(0x100, 0x1000)
    ensures |ThreePages().sections| == 3
    ensures ThreePages().sections[0].header.vsize == 0x100 == ThreePages().sections[1].header.vsize
  {
    hide CutNul;
  }

  lemma {:induction false} PageSectionIs(k: nat)
    requires k < 0x1000
    ensures var s := PageSection(k);
      && Mirrored(s) && s.header.va == 0x1000 * k == s.header.rawPtr && s.header.vsize == 0x100
      && RawEnd(s) == 0x1000 * k + 0x100
      && VaEnd(s, 0x1000) == 0x1000 * (k + 1) && s.header.va % 0x1000 == 0
  {
    hide CutNul, AlignUp;
    ModUnique(0x1000 * k, 0x1000, k, 0);
    ModUnique(0x1000 * (k + 1), 0x1000, k + 1, 0);
    AlignUpExact(0x1000 * k + 0x100, 0x1000, 0x1000 * (k + 1));
  }

  lemma {:induction false} ThreePagesSound()
    ensures var st, c := ThreePages(), Config(0x1000, 0x200, true);
      Sound(st, c) && Contiguous(st.sections, 0x1000) && CanDelete(st, c, 1)
  {
    hide PageSection, AlignUp, VaEnd, RawEnd, Mirrored;
    PageSectionIs(1);
    PageSectionIs(2);
    PageSectionIs(3);
  }

  /** A preceding size that is already aligned is enough. */
  lemma {:induction false} AlignedSizeKeepsContiguity(p: nat, s: nat, sa: nat)
    requires sa > 0 && p % sa == 0
    ensures AlignUp(p + s, sa) == AlignUp(p, sa) + AlignUp(s, sa)
  {
    AlignShift(p, s, sa);
    AlignShift(p, 0, sa);
  }

  // ---- Over whole runs -------------------------------------------------------------------------------------

  datatype Op = Create(name: bytes, vsize: u32) | Sanitize | Delete(index: nat)

  predicate Can(st: Layout, c: Config, op: Op)
  {
    match op
    case Create(_, vsize) => CanCreate(st, c, vsize)
    case Sanitize => true
    case Delete(d) => CanDelete(st, c, d)
  }

  function Do(st: Layout, c: Config, op: Op): Layout
    requires Can(st, c, op)
  {
    match op
    case Create(name, vsize) => Created(st, c, name, vsize)
    case Sanitize => Sanitized(st, c)
    case Delete(d) => Deleted(st, c, d)
  }

  predicate CanRun(st: Layout, c: Config, ops: seq<Op>)
    decreases |ops|
  {
    ops != [] ==> Can(st, c, ops[0]) && CanRun(Do(st, c, ops[0]), c, ops[1..])
  }

  function Run(st: Layout, c: Config, ops: seq<Op>): Layout
    requires CanRun(st, c, ops)
    decreases |ops|
  {
    if ops == [] then st else Run(Do(st, c, ops[0]), c, ops[1..])
  }

  /** A deletion that leaves no hole. */
  predicate Seamless(st: Layout, c: Config, op: Op)
    requires Can(st, c, op)
  {
    op.Delete? ==>
      var sa, d := c.sectionAlignment, op.index;
      d == |st.sections| - 1 ||
      AlignUp(st.sections[d - 1].header.vsize + st.sections[d].header.vsize, sa)
      == AlignUp(st.sections[d - 1].header.vsize, sa) + AlignUp(st.sections[d].header.vsize, sa)
  }

  predicate SeamlessRun(st: Layout, c: Config, ops: seq<Op>)
    requires CanRun(st, c, ops)
    decreases |ops|
  {
    ops != [] ==> Seamless(st, c, ops[0]) && SeamlessRun(Do(st, c, ops[0]), c, ops[1..])
  }

  /**
   * Whatever is created, sanitized and deleted, in whatever order: mirrors agree, no two sections overlap
   * in file or memory.
   */
  lemma {:induction false} RunKeepsSound(st: Layout, c: Config, ops: seq<Op>)
    requires Sound(st, c) && CanRun(st, c, ops)
    ensures Sound(Run(st, c, ops), c)
    decreases |ops|
  {
    hide Sound, CanCreate, CanDelete, Created, Deleted, Sanitized;
    if ops != [] {
      StepKeeps(st, c, ops[0]);
      RunKeepsSound(Do(st, c, ops[0]), c, ops[1..]);
    }
  }

  lemma {:induction false} StepKeeps(st: Layout, c: Config, op: Op)
    requires Sound(st, c) && Can(st, c, op)
    ensures Sound(Do(st, c, op), c)
    ensures Contiguous(st.sections, c.sectionAlignment) ==>
      (Contiguous(Do(st, c, op).sections, c.sectionAlignment) <==> Seamless(st, c, op))
  {
    hide AlignUp, CanCreate, CanDelete, Created, Deleted, Sanitized, Contiguous, AllMirrored, RawApart, Laid;
    match op {
      case Create(name, vsize) => CreateKeeps(st, c, name, vsize);
      case Sanitize => SanitizeKeeps(st, c);
      case Delete(d) =>
        DeleteKeeps(st, c, d);
        if Contiguous(st.sections, c.sectionAlignment) {
          DeleteContiguousIff(st, c, d);
        }
    }
  }

  /** And the address space stays contiguous over any run whose deletions leave no hole. */
  lemma {:induction false} RunKeepsContiguous(st: Layout, c: Config, ops: seq<Op>)
    requires Sound(st, c) && Contiguous(st.sections, c.sectionAlignment) && CanRun(st, c, ops)
    requires SeamlessRun(st, c, ops)
    ensures Contiguous(Run(st, c, ops).sections, c.sectionAlignment)
    decreases |ops|
  {
    hide Sound, CanCreate, CanDelete, Created, Deleted, Sanitized, Contiguous, AlignUp;
    if ops != [] {
      StepKeeps(st, c, ops[0]);
      RunKeepsContiguous(Do(st, c, ops[0]), c, ops[1..]);
    }
  }

  // ---- The operations, field by field -------------------------------------------------------------------

  lemma {:induction false} LastRawEndAttained(ss: seq<PeSection>)
    ensures LastRawEnd(ss) == 0
      || exists i :: 0 <= i < |ss| && ss[i].header.rawPtr + ss[i].header.rawSize == LastRawEnd(ss)
    decreases |ss|
  {
    if ss != [] {
      var front := ss[..|ss| - 1];
      LastRawEndAttained(front);
      if i :| 0 <= i < |front| && front[i].header.rawPtr + front[i].header.rawSize == LastRawEnd(front) {
        assert ss[i] == front[i];
      }
    }
  }

  /** r is v rounded up to a multiple of a, or v itself for no alignment. */
  predicate RoundedUp(r: nat, v: nat, a: nat) { if a == 0 then r == v else v <= r < v + a && r % a == 0 }

  /** The mirroring fields repeat the header. */
  predicate Mirrors(s: PeSection)
  {
    && s.va == s.header.va && s.vsize == s.header.vsize && s.rawOffset == s.header.rawPtr
    && s.rawSize == s.header.rawSize && s.chars == s.header.chars && s.name == CutNul(s.header.name)
  }

  /**
   * The new section is the last one: behind the one before it in memory and behind all of them in the file, rounded
   * up; readable, initialized data, under the first eight bytes of the name; the image grows by its rounded size.
   */
  lemma {:induction false} CreatedIs(st: Layout, c: Config, name: bytes, vsize: u32)
    requires CanCreate(st, c, vsize)
    ensures var r, n := Created(st, c, name, vsize), |st.sections|;
      && |r.sections| == n + 1 && r.sections[..n] == st.sections
      && r.sizeOfHeaders == st.sizeOfHeaders && r.numberOfSections == st.numberOfSections
      && st.sizeOfImage <= r.sizeOfImage && RoundedUp(r.sizeOfImage - st.sizeOfImage, vsize, c.sectionAlignment)
      && var s, prev := r.sections[n], st.sections[n - 1];
         && Mirrors(s) && s.header.vsize == vsize && s.header.chars == 0x4000_0040
         && |s.header.name| == 8
         && (forall k :: 0 <= k < 8 ==> s.header.name[k] == if k < |name| then name[k] else 0)
         && RoundedUp(s.header.va, prev.va + prev.vsize, c.sectionAlignment)
         && RoundedUp(s.header.rawSize, vsize, c.fileAlignment)
         && (forall i :: 0 <= i < n ==>
               st.sections[i].header.rawPtr + st.sections[i].header.rawSize <= s.header.rawPtr)
         && (RoundedUp(s.header.rawPtr, 0, c.fileAlignment)
             || exists i :: 0 <= i < n
                  && RoundedUp(s.header.rawPtr, st.sections[i].header.rawPtr + st.sections[i].header.rawSize,
                               c.fileAlignment))
  {
    hide LastRawEnd, CutNul;
    var ss := st.sections;
    LastRawEndAttained(ss);
    forall i | 0 <= i < |ss| ensures ss[i].header.rawPtr + ss[i].header.rawSize <= LastRawEnd(ss) {
      LastRawEndCovers(ss, i);
    }
  }

  /**
   * The section is gone; the one before it gets the sum of both sizes, rounded up; each later one comes forward in
   * the file by the distance from the deleted one to the next one, or to the end of the image.
   */
  lemma {:induction false} DeletedIs(st: Layout, c: Config, d: nat)
    requires CanDelete(st, c, d)
    ensures var r, n := Deleted(st, c, d), |st.sections|;
      var end := if d == n - 1 then st.sizeOfImage else st.sections[d + 1].header.rawPtr;
      var freed := end - st.sections[d].header.rawPtr;
      && |r.sections| == n - 1 && r.sizeOfImage == st.sizeOfImage && r.sizeOfHeaders == st.sizeOfHeaders
      && r.numberOfSections == (if st.numberOfSections == 0 then 0 else st.numberOfSections - 1)
      && r.sections[..d - 1] == st.sections[..d - 1]
      && (var s, p := r.sections[d - 1], st.sections[d - 1];
          && Mirrors(s) && s.header == p.header.(vsize := s.header.vsize)
          && RoundedUp(s.header.vsize, p.header.vsize + st.sections[d].header.vsize, c.sectionAlignment))
      && forall k :: d < k < n ==>
           && freed <= st.sections[k].header.rawPtr && Mirrors(r.sections[k - 1])
           && r.sections[k - 1].header
              == st.sections[k].header.(rawPtr := st.sections[k].header.rawPtr - freed)
  {
    hide CutNul;
    var later := st.sections[d + 1..];
    forall k | d < k < |st.sections| ensures later[k - d - 1] == st.sections[k] {
    }
  }

  /**
   * Every section's raw data starts at its address and is as long as it is in memory, uninitialized sections of a
   * 32-bit image being empty; a first section of both code and initialized data can be written; the headers end
   * where it starts.
   */
  lemma {:induction false} SanitizedIs(st: Layout, c: Config, k: nat)
    requires k < |st.sections|
    ensures var r, before := Sanitized(st, c), st.sections[k].header;
      && |r.sections| == |st.sections| && r.sizeOfImage == st.sizeOfImage && r.numberOfSections == st.numberOfSections
      && r.sizeOfHeaders == st.sections[0].header.va
      && var s := r.sections[k];
         && Mirrors(s) && s.header.name == before.name && s.header.va == before.va && s.header.vsize == before.vsize
         && s.header.rawPtr == before.va
         && s.header.rawSize == (if !c.is64bit && before.chars / 0x80 % 2 == 1 then 0 else before.vsize)
         && s.header.chars
            == if k == 0 && before.chars / 0x20 % 2 == 1 && before.chars / 0x40 % 2 == 1
                 && before.chars < 0x8000_0000
               then before.chars + 0x8000_0000 else before.chars
  {
    hide CutNul;
  }
}
