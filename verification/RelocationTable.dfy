/** Writing the base-relocation table into the image (build_relocation_table in crates/pe/src/postprocess.rs). */
module RelocationTable {
  import opened Options
  import opened Words
  import opened Pe
  import opened Relocation
  import opened RelocationCollect
  import CodeScan

  const DYNAMIC_BASE: nat := 0x40

  function WithDynamicBase(flags: u16): u16
  {
    if flags / DYNAMIC_BASE % 2 == 1 then flags else flags + DYNAMIC_BASE
  }

  /** Index of the first section named ".reloc". */
  function RelocIndex(ss: seq<Section>, i: nat): Option<nat>
    decreases |ss| - i
  {
    if i >= |ss| then None else if IsReloc(ss[i]) then Some(i) else RelocIndex(ss, i + 1)
  }

  /** The lowest section address above va. */
  function NextVa(ss: seq<Section>, va: nat): Option<nat>
  {
    if ss == [] then None
    else
      var rest := NextVa(ss[1..], va);
      if ss[0].va <= va then rest
      else if rest.None? || ss[0].va < rest.value then Some(ss[0].va)
      else rest
  }

  /** Where the fields this step rewrites stand in the file. */
  function HeaderAt(h: Header, idx: nat): nat { SectionTable(h) + SECTION_HEADER * idx }

  function DirectoryAt(h: Header, w: nat): nat { h.peOffset + 24 + (if w == 8 then 112 else 96) + 40 }

  function FlagsAt(h: Header): nat { h.peOffset + 24 + 70 }

  /** VirtualSize to announce: the table's size, or all that is needed to reach the next section. */
  function AnnouncedSize(ss: seq<Section>, va: nat, n: nat, sectionAlignment: nat): nat
  {
    var alignedEnd := AlignUp(va + n, if sectionAlignment == 0 then 1 else sectionAlignment);
    match NextVa(ss, va)
    case Some(next) => if next > alignedEnd then next - va else n
    case None => n
  }

  /** A sum that leaves 32 bits, or a directory entry that leaves the grown file, stops the program. */
  predicate Fits(data: bytes, table: bytes, h: Header, idx: nat, w: nat)
    requires idx < |h.sections| && HeaderAt(h, idx) + SECTION_HEADER <= |data|
  {
    var va, raw := U32(data, HeaderAt(h, idx) + 12), U32(data, HeaderAt(h, idx) + 20);
    && Rounds(|table|, h.fileAlignment)
    && Rounds(va + |table|, if h.sectionAlignment == 0 then 1 else h.sectionAlignment)
    && DirectoryAt(h, w) + 8 <= Max(|data|, raw + AlignUp(|table|, h.fileAlignment))
  }

  /** The file before the flags are set. */
  function BeforeFlags(data: bytes, table: bytes, h: Header, idx: nat, w: nat): (r: bytes)
    requires idx < |h.sections| && HeaderAt(h, idx) + SECTION_HEADER <= |data| && Fits(data, table, h, idx, w)
  {
    var sec := HeaderAt(h, idx);
    var va, raw := U32(data, sec + 12), U32(data, sec + 20);
    var aligned := AlignUp(|table|, h.fileAlignment);
    var a := WrittenTable(data, table, raw, aligned);
    var b := Put(a, sec + 8, Le(AnnouncedSize(h.sections, va, |table|, h.sectionAlignment), 4));
    var c := Put(b, sec + 16, Le(aligned, 4));
    var d := Put(c, DirectoryAt(h, w), Le(va, 4));
    Put(d, DirectoryAt(h, w) + 4, Le(|table|, 4))
  }

  /** The file once the table is in place. */
  function Written(data: bytes, table: bytes, h: Header, idx: nat, w: nat): bytes
    requires idx < |h.sections| && HeaderAt(h, idx) + SECTION_HEADER <= |data| && Fits(data, table, h, idx, w)
    requires FlagsAt(h) + 2 <= |data|
  {
    var e := BeforeFlags(data, table, h, idx, w);
    Put(e, FlagsAt(h), Le(WithDynamicBase(U16(e, FlagsAt(h))), 2))
  }

  /** The table at raw, zeros behind it up to the aligned size. */
  function WrittenTable(data: bytes, table: bytes, raw: nat, aligned: nat): (r: bytes)
    requires |table| <= aligned
    ensures |r| == if raw + aligned > |data| then raw + aligned else |data|
  {
    Put(Put(Grown(data, raw + aligned), raw, table), raw + |table|, Zeros(aligned - |table|))
  }

  /** Nothing to relocate and no section to hold a table both leave the file alone. */
  method BuildRelocationTable(image: Image, decode: CodeScan.Decoder, is64bit: bool) returns (r: Outcome,
      ghost code: seq<CodeScan.Hit>)
    requires CodeScan.Sound(decode) && Bounded(image.data)
    modifies image
    ensures r == NotAnImage <==> Parse(old(image.data)) == None
    ensures r == NotAnImage ==> image.data == old(image.data)
    ensures r != NotAnImage ==>
      var h, w := Parse(old(image.data)).value, PtrSize(is64bit);
      && CodeHits(decode, old(image.data), h, w, code)
      && var bs := InsertAll([], CodeEntries(code) + DataEntries(old(image.data), h, w));
      && Ordered(bs)
      && Result(old(image.data), TableBytes(bs), bs == [], h, w, r, image.data)
  {
    hide Parse, InsertAll, DataEntries, CodeHits, TableBytes, Bounded, Result, Flatten;
    var builder;
    builder, code := CollectRelocationBuilder(decode, image.data, is64bit);
    var parsed := Parse(image.data);
    if parsed.None? {
      return NotAnImage, code;
    }
    var h, w := parsed.value, PtrSize(is64bit);
    var relocCount := builder.Count();
    CountZero(builder.blocks);
    var table := builder.Build();
    r := InstallTable(image, table, relocCount, h, w);
  }

  method InstallTable(image: Image, table: bytes, relocCount: nat, h: Header, w: nat) returns (r: Outcome)
    requires Parse(image.data) == Some(h) && (w == 4 || w == 8)
    modifies image
    ensures Result(old(image.data), table, relocCount == 0, h, w, r, image.data) && r != NotAnImage
  {
    hide Parse, Written, Fits, RelocIndex;
    if relocCount == 0 {
      return Done;
    }
    var idx := RelocIndex(h.sections, 0);
    if idx.None? {
      return Done;
    }
    RelocIndexIs(h.sections, 0);
    HeaderInside(image.data, h, idx.value);
    var sec := SectionTable(h) + SECTION_HEADER * idx.value;
    var raw, va, rawSize := U32(image.data, sec + 20), U32(image.data, sec + 12), U32(image.data, sec + 16);
    if |table| % TWO32 > rawSize {
      return TooLarge;
    }
    var fits := Fits(image.data, table, h, idx.value, w);
    if !fits {
      return Panic;
    }
    WriteTable(image, table, h, idx.value, w);
    r := Done;
  }

  method WriteTable(image: Image, table: bytes, h: Header, idx: nat, w: nat)
    requires idx < |h.sections| && HeaderAt(h, idx) + SECTION_HEADER <= |image.data|
    requires Fits(image.data, table, h, idx, w)
    requires FlagsAt(h) + 2 <= |image.data|
    modifies image
    ensures image.data == Written(old(image.data), table, h, idx, w)
  {
    hide Get, Le, Put, Zeros, AlignUp, AnnouncedSize, WithDynamicBase, U16, U32;
    var sec := SectionTable(h) + SECTION_HEADER * idx;
    var raw, va := U32(image.data, sec + 20), U32(image.data, sec + 12);
    var alignedSize := AlignUp(|table|, h.fileAlignment);
    if raw + alignedSize > |image.data| {
      image.data := image.data + Zeros(raw + alignedSize - |image.data|);
    }
    image.data := Put(image.data, raw, table);
    image.data := Put(image.data, raw + |table|, Zeros(alignedSize - |table|));
    var announced := Announce(h.sections, va, |table|, h.sectionAlignment);
    image.data := Put(image.data, sec + 8, Le(announced, 4));
    image.data := Put(image.data, sec + 16, Le(alignedSize, 4));
    var directory := h.peOffset + 24 + (if w == 8 then 112 else 96) + 40;
    image.data := Put(image.data, directory, Le(va, 4));
    image.data := Put(image.data, directory + 4, Le(|table|, 4));
    var flags := h.peOffset + 24 + 70;
    image.data := Put(image.data, flags, Le(WithDynamicBase(U16(image.data, flags)), 2));
  }

  /** What the step leaves, by outcome. */
  ghost predicate Result(before: bytes, table: bytes, none: bool, h: Header, w: nat, r: Outcome, after: bytes)
    requires Parse(before) == Some(h)
  {
    var idx := RelocIndex(h.sections, 0);
    if none || idx.None? then r == Done && after == before
    else
      RelocIndexIs(h.sections, 0);
      HeaderInside(before, h, idx.value);
      if |table| % TWO32 > U32(before, HeaderAt(h, idx.value) + 16) then r == TooLarge && after == before
      else if !Fits(before, table, h, idx.value, w) then r == Panic
      else r == Done && after == Written(before, table, h, idx.value, w)
  }

  lemma {:induction false} CountZero(bs: seq<Block>)
    requires Ordered(bs)
    ensures |Flatten(bs)| == 0 <==> bs == []
  {
    if bs != [] {
      assert BlockOk(bs[0]);
    }
  }

  lemma {:induction false} RelocIndexIs(ss: seq<Section>, i: nat)
    ensures var r := RelocIndex(ss, i);
      r.Some? ==> i <= r.value < |ss| && IsReloc(ss[r.value])
    decreases |ss| - i
  {
    if i < |ss| && !IsReloc(ss[i]) {
      RelocIndexIs(ss, i + 1);
    }
  }

  /** The parser has checked that every section header, and the flags before them, lie in the file. */
  lemma {:induction false} HeaderInside(data: bytes, h: Header, idx: nat)
    requires Parse(data) == Some(h) && idx < |h.sections|
    ensures HeaderAt(h, idx) + SECTION_HEADER <= HeaderEnd(h) <= |data|
    ensures FlagsAt(h) + 2 <= SectionTable(h) <= |data|
  {
    hide Parse, Get;
    ParseEnd(data, h);
  }

  method Announce(ss: seq<Section>, va: nat, n: nat, sectionAlignment: nat) returns (size: nat)
    ensures size == AnnouncedSize(ss, va, n, sectionAlignment)
  {
    hide AlignUp;
    var alignedEnd := AlignUp(va + n, if sectionAlignment == 0 then 1 else sectionAlignment);
    var next := FindNextVa(ss, va);
    size := n;
    if next.Some? && next.value > alignedEnd {
      size := next.value - va;
    }
  }

  method FindNextVa(ss: seq<Section>, va: nat) returns (next: Option<nat>)
    ensures next == NextVa(ss, va)
  {
    next := None;
    var i: nat := |ss|;
    while i > 0
      invariant i <= |ss|
      invariant next == NextVa(ss[i..], va)
    {
      i := i - 1;
      assert ss[i..][0] == ss[i] && ss[i..][1..] == ss[i + 1..];
      if ss[i].va > va && (next.None? || ss[i].va < next.value) {
        next := Some(ss[i].va);
      }
    }
    assert ss[0..] == ss;
  }

  // ---- What the step changes, and what it does not ------------------------------------------------

  lemma {:induction false} PutAt(b: bytes, o: nat, s: bytes)
    requires o + |s| <= |b|
    ensures At(Put(b, o, s), o, s)
  {
    assert Put(b, o, s)[o..o + |s|] == s;
  }

  lemma {:induction false} PutKeeps(b: bytes, o: nat, s: bytes, p: nat, t: bytes)
    requires o + |s| <= |b| && At(b, p, t) && (p + |t| <= o || o + |s| <= p)
    ensures At(Put(b, o, s), p, t)
  {
    AtFrame(b, Put(b, o, s), p, t);
  }

  /** The raw region behind the headers, and the fields in the headers. */
  ghost predicate InTable(raw: nat, aligned: nat, k: nat) { raw <= k < raw + aligned }

  ghost predicate InFields(h: Header, idx: nat, w: nat, k: nat)
  {
    var sec := HeaderAt(h, idx);
    || sec + 8 <= k < sec + 12 || sec + 16 <= k < sec + 20
    || DirectoryAt(h, w) <= k < DirectoryAt(h, w) + 8
    || FlagsAt(h) <= k < FlagsAt(h) + 2
  }

  lemma {:induction false} WrittenTableEffect(data: bytes, table: bytes, raw: nat, aligned: nat)
    requires |table| <= aligned
    ensures var a := WrittenTable(data, table, raw, aligned);
      && At(a, raw, table) && At(a, raw + |table|, Zeros(aligned - |table|)) && |data| <= |a|
      && forall k :: 0 <= k < |data| && !InTable(raw, aligned, k) ==> a[k] == data[k]
  {
    hide At;
    var g := Grown(data, raw + aligned);
    PutAt(g, raw, table);
    PutAt(Put(g, raw, table), raw + |table|, Zeros(aligned - |table|));
    PutKeeps(Put(g, raw, table), raw + |table|, Zeros(aligned - |table|), raw, table);
  }

  /** The preconditions under which the five pieces are apart: raw data behind the headers, the directory in them. */
  ghost predicate Roomy(data: bytes, table: bytes, h: Header, idx: nat, w: nat)
  {
    && Parse(data) == Some(h) && idx < |h.sections| && (w == 4 || w == 8)
    && HeaderAt(h, idx) + SECTION_HEADER <= |data| && Fits(data, table, h, idx, w) && FlagsAt(h) + 2 <= |data|
    && DirectoryAt(h, w) + 8 <= SectionTable(h)
    && HeaderEnd(h) <= U32(data, HeaderAt(h, idx) + 20)
  }

  lemma {:induction false} Order(data: bytes, table: bytes, h: Header, idx: nat, w: nat)
    requires Roomy(data, table, h, idx, w)
    ensures FlagsAt(h) + 2 <= DirectoryAt(h, w) && DirectoryAt(h, w) + 8 <= HeaderAt(h, idx)
    ensures HeaderAt(h, idx) + 40 <= |data| && |table| < TWO32
    ensures HeaderAt(h, idx) + 40 <= HeaderEnd(h) <= U32(data, HeaderAt(h, idx) + 20)
  {
    hide Parse, U32;
    HeaderInside(data, h, idx);
  }

  /** Five writes to places apart from each other all stand at the end. */
  lemma {:induction false} FiveWrites(a: bytes, sec: nat, dir: nat, flags: nat, x: bytes, y: bytes, v: bytes,
      n: bytes, f: bytes)
    requires |x| == 4 && |y| == 4 && |v| == 4 && |n| == 4 && |f| == 2
    requires flags + 2 <= dir && dir + 8 <= sec && sec + 20 <= |a|
    ensures var r := Put(Put(Put(Put(Put(a, sec + 8, x), sec + 16, y), dir, v), dir + 4, n), flags, f);
      && |r| == |a| && At(r, sec + 8, x) && At(r, sec + 16, y) && At(r, dir, v) && At(r, dir + 4, n) && At(r, flags, f)
  {
    hide At, Put;
    var b := Put(a, sec + 8, x);
    var c := Put(b, sec + 16, y);
    var d := Put(c, dir, v);
    var e := Put(d, dir + 4, n);
    PutAt(a, sec + 8, x);
    PutAt(b, sec + 16, y);
    PutAt(c, dir, v);
    PutAt(d, dir + 4, n);
    PutAt(e, flags, f);
    PutKeeps(b, sec + 16, y, sec + 8, x);
    PutKeeps(c, dir, v, sec + 8, x);
    PutKeeps(c, dir, v, sec + 16, y);
    PutKeeps(d, dir + 4, n, sec + 8, x);
    PutKeeps(d, dir + 4, n, sec + 16, y);
    PutKeeps(d, dir + 4, n, dir, v);
    PutKeeps(e, flags, f, sec + 8, x);
    PutKeeps(e, flags, f, sec + 16, y);
    PutKeeps(e, flags, f, dir, v);
    PutKeeps(e, flags, f, dir + 4, n);
  }

  lemma {:induction false} FiveFrame(a: bytes, sec: nat, dir: nat, flags: nat, x: bytes, y: bytes, v: bytes,
      n: bytes, f: bytes, k: nat)
    requires |x| == 4 && |y| == 4 && |v| == 4 && |n| == 4 && |f| == 2
    requires flags + 2 <= dir && dir + 8 <= sec && sec + 20 <= |a| && k < |a|
    requires !(sec + 8 <= k < sec + 12) && !(sec + 16 <= k < sec + 20) && !(dir <= k < dir + 8)
    ensures Put(Put(Put(Put(a, sec + 8, x), sec + 16, y), dir, v), dir + 4, n)[k] == a[k]
    ensures !(flags <= k < flags + 2) ==>
      Put(Put(Put(Put(Put(a, sec + 8, x), sec + 16, y), dir, v), dir + 4, n), flags, f)[k] == a[k]
  {
  }

  lemma {:induction false} WrittenIs(data: bytes, table: bytes, h: Header, idx: nat, w: nat)
    requires Roomy(data, table, h, idx, w)
    ensures var e := BeforeFlags(data, table, h, idx, w);
      && |e| >= |data|
      && Written(data, table, h, idx, w) == Put(e, FlagsAt(h), Le(WithDynamicBase(U16(e, FlagsAt(h))), 2))
  {
    hide Put, Le, Parse, U32, U16, AlignUp, AnnouncedSize, WithDynamicBase;
  }

  /** Bytes outside the table's region and the four fields stay. */
  lemma {:induction false} WrittenFrame(data: bytes, table: bytes, h: Header, idx: nat, w: nat, k: nat)
    requires Roomy(data, table, h, idx, w) && k < |data|
    requires !InTable(U32(data, HeaderAt(h, idx) + 20), AlignUp(|table|, h.fileAlignment), k) && !InFields(h, idx, w, k)
    ensures |data| <= |Written(data, table, h, idx, w)| && Written(data, table, h, idx, w)[k] == data[k]
  {
    hide Put, Le, Parse, U32, U16, AlignUp, AnnouncedSize, WithDynamicBase, WrittenTable;
    var sec := HeaderAt(h, idx);
    var va, raw := U32(data, sec + 12), U32(data, sec + 20);
    var aligned := AlignUp(|table|, h.fileAlignment);
    Order(data, table, h, idx, w);
    WrittenIs(data, table, h, idx, w);
    WrittenTableEffect(data, table, raw, aligned);
    var e := BeforeFlags(data, table, h, idx, w);
    FiveFrame(WrittenTable(data, table, raw, aligned), sec, DirectoryAt(h, w), FlagsAt(h),
              Le(AnnouncedSize(h.sections, va, |table|, h.sectionAlignment), 4), Le(aligned, 4), Le(va, 4),
              Le(|table|, 4),
              Le(WithDynamicBase(U16(e, FlagsAt(h))), 2), k);
  }

  /** The flags the file had are the flags the step reads, whatever it wrote before. */
  lemma {:induction false} FlagsKept(data: bytes, table: bytes, h: Header, idx: nat, w: nat)
    requires Roomy(data, table, h, idx, w)
    ensures U16(BeforeFlags(data, table, h, idx, w), FlagsAt(h)) == U16(data, FlagsAt(h))
  {
    hide Put, Le, Parse, U32, AlignUp, AnnouncedSize, WithDynamicBase, WrittenTable, Get;
    var sec := HeaderAt(h, idx);
    var va, raw := U32(data, sec + 12), U32(data, sec + 20);
    var aligned := AlignUp(|table|, h.fileAlignment);
    Order(data, table, h, idx, w);
    WrittenTableEffect(data, table, raw, aligned);
    var e := BeforeFlags(data, table, h, idx, w);
    forall k | FlagsAt(h) <= k < FlagsAt(h) + 2 ensures e[k] == data[k] {
      FiveFrame(WrittenTable(data, table, raw, aligned), sec, DirectoryAt(h, w), FlagsAt(h),
                Le(AnnouncedSize(h.sections, va, |table|, h.sectionAlignment), 4), Le(aligned, 4), Le(va, 4),
              Le(|table|, 4),
                Le(0, 2), k);
    }
    GetFrame(e, data, FlagsAt(h), 2);
  }

  /** Where each piece stands once the step is done. */
  lemma {:induction false} WrittenPieces(data: bytes, table: bytes, h: Header, idx: nat, w: nat)
    requires Roomy(data, table, h, idx, w)
    ensures var r := Written(data, table, h, idx, w);
      var sec := HeaderAt(h, idx);
      var va, raw := U32(data, sec + 12), U32(data, sec + 20);
      var aligned := AlignUp(|table|, h.fileAlignment);
      && |data| <= |r|
      && At(r, raw, table) && At(r, raw + |table|, Zeros(aligned - |table|))
      && At(r, sec + 8, Le(AnnouncedSize(h.sections, va, |table|, h.sectionAlignment), 4))
      && At(r, sec + 16, Le(aligned, 4))
      && At(r, DirectoryAt(h, w), Le(va, 4)) && At(r, DirectoryAt(h, w) + 4, Le(|table|, 4))
      && At(r, FlagsAt(h), Le(WithDynamicBase(U16(data, FlagsAt(h))), 2))
  {
    hide *;
    Order(data, table, h, idx, w);
    FlagsKept(data, table, h, idx, w);
    WrittenIs(data, table, h, idx, w);
    BeforeFlagsIs(data, table, h, idx, w);
    var sec := HeaderAt(h, idx);
    var va, raw := U32(data, sec + 12), U32(data, sec + 20);
    var aligned := AlignUp(|table|, h.fileAlignment);
    var a := WrittenTable(data, table, raw, aligned);
    var x, y := Le(AnnouncedSize(h.sections, va, |table|, h.sectionAlignment), 4), Le(aligned, 4);
    var f := Le(WithDynamicBase(U16(data, FlagsAt(h))), 2);
    WrittenTableEffect(data, table, raw, aligned);
    FiveWrites(a, sec, DirectoryAt(h, w), FlagsAt(h), x, y, Le(va, 4), Le(|table|, 4), f);
    FiveKeep(a, sec, DirectoryAt(h, w), FlagsAt(h), x, y, Le(va, 4), Le(|table|, 4), f, raw, table);
    FiveKeep(a, sec, DirectoryAt(h, w), FlagsAt(h), x, y, Le(va, 4), Le(|table|, 4), f, raw + |table|,
             Zeros(aligned - |table|));
  }

  lemma {:induction false} BeforeFlagsIs(data: bytes, table: bytes, h: Header, idx: nat, w: nat)
    requires Roomy(data, table, h, idx, w)
    ensures var sec := HeaderAt(h, idx);
      var va, raw := U32(data, sec + 12), U32(data, sec + 20);
      var aligned := AlignUp(|table|, h.fileAlignment);
      var a := WrittenTable(data, table, raw, aligned);
      && sec + 20 <= |a| && DirectoryAt(h, w) + 8 <= |a|
      && BeforeFlags(data, table, h, idx, w)
      == Put(Put(Put(Put(a, sec + 8, Le(AnnouncedSize(h.sections, va, |table|, h.sectionAlignment), 4)),
                     sec + 16, Le(aligned, 4)), DirectoryAt(h, w), Le(va, 4)), DirectoryAt(h, w) + 4, Le(|table|, 4))
  {
    hide Put, Le, Parse, U32, AlignUp, AnnouncedSize;
  }

  lemma {:induction false} FiveKeep(a: bytes, sec: nat, dir: nat, flags: nat, x: bytes, y: bytes, v: bytes,
      n: bytes, f: bytes, o: nat, s: bytes)
    requires |x| == 4 && |y| == 4 && |v| == 4 && |n| == 4 && |f| == 2
    requires flags + 2 <= dir && dir + 8 <= sec && sec + 20 <= |a| && sec + 20 <= o && At(a, o, s)
    ensures At(Put(Put(Put(Put(Put(a, sec + 8, x), sec + 16, y), dir, v), dir + 4, n), flags, f), o, s)
  {
    hide At, Put;
    var b := Put(a, sec + 8, x);
    var c := Put(b, sec + 16, y);
    var d := Put(c, dir, v);
    PutKeeps(a, sec + 8, x, o, s);
    PutKeeps(b, sec + 16, y, o, s);
    PutKeeps(c, dir, v, o, s);
    PutKeeps(d, dir + 4, n, o, s);
    PutKeeps(Put(d, dir + 4, n), flags, f, o, s);
  }

  // ---- The announced size ---------------------------------------------------------------------------

  lemma {:induction false} NextVaAbove(ss: seq<Section>, va: nat)
    ensures NextVa(ss, va).None? <==> forall i :: 0 <= i < |ss| ==> ss[i].va <= va
    ensures NextVa(ss, va).Some? ==>
      && NextVa(ss, va).value > va && (exists i :: 0 <= i < |ss| && ss[i].va == NextVa(ss, va).value)
      && forall i :: 0 <= i < |ss| && ss[i].va > va ==> NextVa(ss, va).value <= ss[i].va
  {
    if ss != [] {
      NextVaAbove(ss[1..], va);
      assert forall i :: 1 <= i < |ss| ==> ss[i] == ss[1..][i - 1];
      assert forall i :: 0 <= i < |ss[1..]| ==> ss[1..][i] == ss[i + 1];
    }
  }

  /**
   * No hole: with a table that fits the room up to the next section, which is section-aligned, the
   * announced end of the table's section rounds up to exactly that section's address.
   */
  lemma {:induction false} NoVirtualHole(ss: seq<Section>, va: nat, n: nat, sectionAlignment: nat)
    requires sectionAlignment > 0
    requires NextVa(ss, va).Some? && NextVa(ss, va).value % sectionAlignment == 0 && va + n <= NextVa(ss, va).value
    ensures var next, size := NextVa(ss, va).value, AnnouncedSize(ss, va, n, sectionAlignment);
      n <= size && va + size <= next && AlignUp(va + size, sectionAlignment) == next
  {
    var next := NextVa(ss, va).value;
    NextVaAbove(ss, va);
    AlignUpExact(va + n, sectionAlignment, next);
    AlignUpExact(next, sectionAlignment, next);
  }

  /** A file-aligned reservation that holds the table also holds it rounded up to the file alignment. */
  lemma {:induction false} ReservationHolds(n: nat, fileAlignment: nat, rawSize: nat)
    requires fileAlignment > 0 && rawSize % fileAlignment == 0 && n <= rawSize
    ensures AlignUp(n, fileAlignment) <= rawSize
  {
    AlignUpExact(n, fileAlignment, rawSize);
  }

  // ---- The header as parsed afterwards ---------------------------------------------------------------

  /** The header with the table's section resized. */
  function Resized(h: Header, idx: nat, vsize: u32, rawSize: u32): Header
    requires idx < |h.sections|
  {
    h.(sections := h.sections[idx := h.sections[idx].(vsize := vsize, rawSize := rawSize)])
  }

  /** The headers are as they were but for the four fields. */
  ghost predicate Kept(data: bytes, r: bytes, h: Header, idx: nat, w: nat)
  {
    HeaderEnd(h) <= |data| <= |r| && forall k :: 0 <= k < HeaderEnd(h) && !InFields(h, idx, w, k) ==> r[k] == data[k]
  }

  lemma {:induction false} WrittenKept(data: bytes, table: bytes, h: Header, idx: nat, w: nat)
    requires Roomy(data, table, h, idx, w)
    ensures Kept(data, Written(data, table, h, idx, w), h, idx, w)
  {
    hide InFields, Written, Parse, AlignUp, U32;
    Order(data, table, h, idx, w);
    HeaderInside(data, h, idx);
    WrittenPieces(data, table, h, idx, w);
    forall k | 0 <= k < HeaderEnd(h) && !InFields(h, idx, w, k) ensures Written(data, table, h, idx, w)[k] == data[k] {
      WrittenFrame(data, table, h, idx, w, k);
    }
  }

  lemma {:induction false} WordKept(data: bytes, r: bytes, h: Header, idx: nat, w: nat, o: nat, n: nat)
    requires Kept(data, r, h, idx, w) && o + n <= HeaderEnd(h)
    requires forall k :: o <= k < o + n ==> !InFields(h, idx, w, k)
    ensures Get(r, o, n) == Get(data, o, n)
  {
    hide InFields;
    GetFrame(r, data, o, n);
  }

  /** A section header other than the table's. */
  lemma {:induction false} OtherKept(data: bytes, r: bytes, h: Header, idx: nat, w: nat, i: nat)
    requires Kept(data, r, h, idx, w) && i < |h.sections| && idx < |h.sections| && i != idx
    requires FlagsAt(h) + 2 <= SectionTable(h) && DirectoryAt(h, w) + 8 <= SectionTable(h)
    requires HeaderAt(h, i) + SECTION_HEADER <= HeaderEnd(h)
    ensures SectionAt(r, HeaderAt(h, i)) == SectionAt(data, HeaderAt(h, i))
  {
    hide Get, CutNul;
    var at := HeaderAt(h, i);
    assert forall k :: at <= k < at + SECTION_HEADER ==> !InFields(h, idx, w, k);
    hide InFields;
    assert r[at..at + 8] == data[at..at + 8];
    WordKept(data, r, h, idx, w, at + 8, 4);
    WordKept(data, r, h, idx, w, at + 12, 4);
    WordKept(data, r, h, idx, w, at + 16, 4);
    WordKept(data, r, h, idx, w, at + 20, 4);
    WordKept(data, r, h, idx, w, at + 36, 4);
  }

  /** The table's own section header: only the two sizes differ. */
  lemma {:induction false} OwnKept(data: bytes, r: bytes, h: Header, idx: nat, w: nat, vsize: u32, rawSize: u32)
    requires Kept(data, r, h, idx, w) && idx < |h.sections|
    requires FlagsAt(h) + 2 <= SectionTable(h) && DirectoryAt(h, w) + 8 <= SectionTable(h)
    requires HeaderAt(h, idx) + SECTION_HEADER <= HeaderEnd(h)
    requires At(r, HeaderAt(h, idx) + 8, Le(vsize, 4)) && At(r, HeaderAt(h, idx) + 16, Le(rawSize, 4))
    ensures SectionAt(r, HeaderAt(h, idx)) == SectionAt(data, HeaderAt(h, idx)).(vsize := vsize, rawSize := rawSize)
  {
    hide Get, CutNul, At, Le;
    var at := HeaderAt(h, idx);
    assert forall k :: at <= k < at + 8 || at + 12 <= k < at + 16 || at + 20 <= k < at + 40 ==> !InFields(h, idx, w, k);
    hide InFields;
    assert r[at..at + 8] == data[at..at + 8];
    RangeValues();
    GetAt(r, at + 8, vsize, 4);
    WordKept(data, r, h, idx, w, at + 12, 4);
    GetAt(r, at + 16, rawSize, 4);
    WordKept(data, r, h, idx, w, at + 20, 4);
    WordKept(data, r, h, idx, w, at + 36, 4);
  }

  lemma {:induction false} SectionsKept(data: bytes, r: bytes, h: Header, idx: nat, w: nat, vsize: u32, rawSize: u32)
    requires Parse(data) == Some(h) && Kept(data, r, h, idx, w) && idx < |h.sections|
    requires DirectoryAt(h, w) + 8 <= SectionTable(h)
    requires At(r, HeaderAt(h, idx) + 8, Le(vsize, 4)) && At(r, HeaderAt(h, idx) + 16, Le(rawSize, 4))
    ensures SectionTable(h) + SECTION_HEADER * |h.sections| <= |r|
    ensures SectionsAt(r, SectionTable(h), |h.sections|) == Resized(h, idx, vsize, rawSize).sections
  {
    hide Parse, Get, At, Le, SectionAt, InFields;
    ParseEnd(data, h);
    HeaderInside(data, h, idx);
    var got, want := SectionsAt(r, SectionTable(h), |h.sections|), Resized(h, idx, vsize, rawSize).sections;
    forall i | 0 <= i < |h.sections| ensures got[i] == want[i] {
      HeaderInside(data, h, i);
      SectionIndex(r, SectionTable(h), |h.sections|, i);
      SectionIndex(data, SectionTable(h), |h.sections|, i);
      if i == idx {
        OwnKept(data, r, h, idx, w, vsize, rawSize);
      } else {
        OtherKept(data, r, h, idx, w, i);
      }
    }
  }

  /** The words of the header the parser reads in front of the section table. */
  lemma {:induction false} FrontKept(data: bytes, r: bytes, h: Header, idx: nat, w: nat)
    requires Parse(data) == Some(h) && Kept(data, r, h, idx, w) && idx < |h.sections| && (w == 4 || w == 8)
    requires FlagsAt(h) + 2 <= DirectoryAt(h, w) && DirectoryAt(h, w) + 8 <= SectionTable(h) <= HeaderEnd(h)
    ensures forall o: nat, n: nat | o + n <= FlagsAt(h) || (FlagsAt(h) + 2 <= o && o + n <= DirectoryAt(h, w)) ::
      Get(r, o, n) == Get(data, o, n)
  {
    hide Parse, Get;
    forall o: nat, n: nat | o + n <= FlagsAt(h) || (FlagsAt(h) + 2 <= o && o + n <= DirectoryAt(h, w))
      ensures Get(r, o, n) == Get(data, o, n)
    {
      WordKept(data, r, h, idx, w, o, n);
    }
  }

  lemma {:induction false} FrontWords(data: bytes, r: bytes, h: Header, idx: nat, w: nat)
    requires Parse(data) == Some(h) && Kept(data, r, h, idx, w) && idx < |h.sections| && (w == 4 || w == 8)
    requires FlagsAt(h) + 2 <= DirectoryAt(h, w) && DirectoryAt(h, w) + 8 <= SectionTable(h) <= HeaderEnd(h)
    requires SectionTable(h) + SECTION_HEADER * |h.sections| <= |r|
    ensures var nt := h.peOffset;
      && |r| >= 64 && Get(r, 0, 2) == 0x5A4D && Get(r, 60, 4) == nt
      && HasHeaders(data, nt) && HasHeaders(r, nt) && MinOptional(r, nt) == MinOptional(data, nt)
      && U16(r, nt + 20) == U16(data, nt + 20) && U16(r, nt + 6) == U16(data, nt + 6)
      && U32(r, nt + 80) == U32(data, nt + 80) && U32(r, nt + 56) == U32(data, nt + 56)
      && U32(r, nt + 60) == U32(data, nt + 60)
      && U64(r, nt + 48) == U64(data, nt + 48) && U32(r, nt + 52) == U32(data, nt + 52)
      && U32(r, nt + 128) == U32(data, nt + 128) && U32(r, nt + 144) == U32(data, nt + 144)
  {
    hide Get, SectionsAt, Kept;
    FrontKept(data, r, h, idx, w);
    ParseEnd(data, h);
  }

  lemma {:induction false} ReparsedFrom(data: bytes, r: bytes, h: Header, idx: nat, w: nat, vsize: u32, rawSize: u32)
    requires Parse(data) == Some(h) && Kept(data, r, h, idx, w) && idx < |h.sections| && (w == 4 || w == 8)
    requires FlagsAt(h) + 2 <= DirectoryAt(h, w) && DirectoryAt(h, w) + 8 <= SectionTable(h) <= HeaderEnd(h)
    requires At(r, HeaderAt(h, idx) + 8, Le(vsize, 4)) && At(r, HeaderAt(h, idx) + 16, Le(rawSize, 4))
    ensures Parse(r) == Some(Resized(h, idx, vsize, rawSize))
  {
    hide Get, At, Le, SectionsAt, MinOptional, HasHeaders, Kept, InFields, U16, U32, U64, CutNul;
    ParseEnd(data, h);
    SectionsKept(data, r, h, idx, w, vsize, rawSize);
    FrontWords(data, r, h, idx, w);
    WordIs(r, 60);
  }

  lemma {:induction false} WordIs(b: bytes, o: nat)
    requires o + 4 <= |b|
    ensures U32(b, o) == Get(b, o, 4)
  {
  }

  /**
   * Parsing the finished file gives the old header with nothing changed but the two sizes of the
   * table's section; the directory names the table, and the image is marked relocatable.
   */
  lemma {:induction false} Reparsed(data: bytes, table: bytes, h: Header, idx: nat, w: nat)
    requires Roomy(data, table, h, idx, w)
    ensures var r := Written(data, table, h, idx, w);
      var s := h.sections[idx];
      var vsize, aligned := AnnouncedSize(h.sections, s.va, |table|, h.sectionAlignment),
          AlignUp(|table|, h.fileAlignment);
      && vsize < TWO32 && aligned < TWO32
      && Parse(r) == Some(Resized(h, idx, vsize, aligned))
      && At(r, s.rawOffset, table)
      && DirectoryAt(h, w) + 8 <= |r| && U32(r, DirectoryAt(h, w)) == s.va && U32(r, DirectoryAt(h, w) + 4) == |table|
      && FlagsAt(h) + 2 <= |r| && U16(r, FlagsAt(h)) == WithDynamicBase(U16(data, FlagsAt(h)))
      && U16(r, FlagsAt(h)) / DYNAMIC_BASE % 2 == 1
  {
    hide Parse, Get, At, Le, AlignUp, AnnouncedSize, Written, Kept, NextVa;
    Order(data, table, h, idx, w);
    HeaderInside(data, h, idx);
    OwnSection(data, h, idx);
    WrittenPieces(data, table, h, idx, w);
    WrittenKept(data, table, h, idx, w);
    SmallSizes(data, table, h, idx, w);
    var r, s := Written(data, table, h, idx, w), h.sections[idx];
    ReparsedFrom(data, r, h, idx, w, AnnouncedSize(h.sections, s.va, |table|, h.sectionAlignment),
                 AlignUp(|table|, h.fileAlignment));
    ReadBack(r, DirectoryAt(h, w), s.va);
    ReadBack(r, DirectoryAt(h, w) + 4, |table|);
    ReadBackFlags(r, FlagsAt(h), WithDynamicBase(U16(data, FlagsAt(h))));
    SetOnce(U16(data, FlagsAt(h)));
  }

  lemma {:induction false} OwnSection(data: bytes, h: Header, idx: nat)
    requires Parse(data) == Some(h) && idx < |h.sections| && HeaderAt(h, idx) + SECTION_HEADER <= |data|
    ensures h.sections[idx].va == U32(data, HeaderAt(h, idx) + 12)
    ensures h.sections[idx].rawOffset == U32(data, HeaderAt(h, idx) + 20)
    ensures h.sections[idx].rawSize == U32(data, HeaderAt(h, idx) + 16)
  {
    hide Parse, Get;
    ParseEnd(data, h);
    SectionIndex(data, SectionTable(h), |h.sections|, idx);
  }

  lemma {:induction false} SmallSizes(data: bytes, table: bytes, h: Header, idx: nat, w: nat)
    requires Roomy(data, table, h, idx, w)
    ensures AlignUp(|table|, h.fileAlignment) < TWO32
    ensures AnnouncedSize(h.sections, U32(data, HeaderAt(h, idx) + 12), |table|, h.sectionAlignment) < TWO32
  {
    hide Parse, Get, AlignUp, NextVa, Rounds, U32;
    FitsParts(data, table, h, idx, w);
    RoundsUp(|table|, h.fileAlignment);
    NextVaAbove(h.sections, U32(data, HeaderAt(h, idx) + 12));
  }

  lemma {:induction false} FitsParts(data: bytes, table: bytes, h: Header, idx: nat, w: nat)
    requires Roomy(data, table, h, idx, w)
    ensures |table| < TWO32 && Rounds(|table|, h.fileAlignment)
  {
    hide Parse, Get;
  }

  lemma {:induction false} ReadBack(r: bytes, o: nat, v: u32)
    requires At(r, o, Le(v, 4))
    ensures o + 4 <= |r| && U32(r, o) == v
  {
    RangeValues();
    GetAt(r, o, v, 4);
  }

  lemma {:induction false} ReadBackFlags(r: bytes, o: nat, v: u16)
    requires At(r, o, Le(v, 2))
    ensures o + 2 <= |r| && U16(r, o) == v
  {
    RangeValues();
    GetAt(r, o, v, 2);
  }

  lemma {:induction false} SetOnce(flags: u16)
    ensures WithDynamicBase(flags) / DYNAMIC_BASE % 2 == 1
  {
    if flags / DYNAMIC_BASE % 2 != 1 {
      assert (flags + DYNAMIC_BASE) / DYNAMIC_BASE == flags / DYNAMIC_BASE + 1;
    }
  }

  // ---- The finished file, field by field ---------------------------------------------------------------

  /** Section i is the next one in memory: no address above va is lower. */
  ghost predicate IsNext(ss: seq<Section>, va: nat, i: nat)
  {
    i < |ss| && va < ss[i].va && forall j :: 0 <= j < |ss| && va < ss[j].va ==> ss[i].va <= ss[j].va
  }

  /** The table's own size if its section is the last one in memory, or if rounding its end up leaves no hole. */
  lemma {:induction false} AnnouncedIs(ss: seq<Section>, va: nat, n: nat, sectionAlignment: nat)
    ensures (forall i :: 0 <= i < |ss| ==> ss[i].va <= va) ==> AnnouncedSize(ss, va, n, sectionAlignment) == n
    ensures forall i: nat :: IsNext(ss, va, i) ==>
      var end := if sectionAlignment == 0 then va + n else AlignUp(va + n, sectionAlignment);
      AnnouncedSize(ss, va, n, sectionAlignment) == if end < ss[i].va then ss[i].va - va else n
  {
    hide AlignUp, NextVa;
    NextVaAbove(ss, va);
    UnalignedUp(va + n);
  }

  lemma {:induction false} UnalignedUp(v: nat)
    ensures AlignUp(v, 1) == v
  {
    hide AlignUp;
    AlignUpExact(v, 1, v);
  }

  predicate NamedReloc(s: Section) { s.name == [0x2E, 0x72, 0x65, 0x6C, 0x6F, 0x63] }

  /** Section i is the first one named ".reloc". */
  ghost predicate FirstReloc(ss: seq<Section>, i: nat)
  {
    i < |ss| && NamedReloc(ss[i]) && forall k :: 0 <= k < i ==> !NamedReloc(ss[k])
  }

  lemma {:induction false} RelocIndexIff(ss: seq<Section>, i: nat, from: nat)
    requires from <= |ss| && forall k :: 0 <= k < from ==> !NamedReloc(ss[k])
    ensures RelocIndex(ss, from) == Some(i) <==> FirstReloc(ss, i)
    decreases |ss| - from
  {
    if from < |ss| && !IsReloc(ss[from]) {
      RelocIndexIff(ss, i, from + 1);
    }
  }

  /** Rounding v up to the alignment stays within 32 bits on the way. */
  predicate InWidth(v: nat, alignment: nat)
  {
    v < 0x1_0000_0000 && (alignment == 0 || v % alignment == 0 || v + alignment < 0x1_0000_0000)
  }

  lemma {:induction false} FitsIff(data: bytes, table: bytes, h: Header, i: nat, w: nat)
    requires Parse(data) == Some(h) && i < |h.sections| && HeaderAt(h, i) + SECTION_HEADER <= |data|
    ensures var s, directory := h.sections[i], h.peOffset + (if w == 8 then 176 else 160);
      var end := s.rawOffset + AlignUp(|table|, h.fileAlignment);
      Fits(data, table, h, i, w)
      <==>
      && InWidth(|table|, h.fileAlignment) && InWidth(s.va + |table|, h.sectionAlignment)
      && (directory + 8 <= |data| || directory + 8 <= end)
  {
    hide Parse, Get, AlignUp, U32, HeaderAt;
    OwnSection(data, h, i);
  }

  /**
   * How the step ends, with nothing but a finished file written: without entries, or without a section named ".reloc",
   * it is done; a table longer than that section's raw size is refused; a sum that leaves 32 bits, or a directory
   * entry that leaves the grown file, stops the program.
   */
  lemma {:induction false} OutcomeIs(before: bytes, table: bytes, none: bool, h: Header, w: nat, r: Outcome,
      after: bytes, i: nat)
    requires Parse(before) == Some(h) && Result(before, table, none, h, w, r, after) && FirstReloc(h.sections, i)
    ensures var s, directory := h.sections[i], h.peOffset + (if w == 8 then 176 else 160);
      var end := s.rawOffset + AlignUp(|table|, h.fileAlignment);
      var stops := !(InWidth(|table|, h.fileAlignment) && InWidth(s.va + |table|, h.sectionAlignment)
                     && (directory + 8 <= |before| || directory + 8 <= end));
      if none then r == Done && after == before
      else if |table| % 0x1_0000_0000 > s.rawSize then r == TooLarge && after == before
      else r == if stops then Panic else Done
  {
    hide Parse, Get, AlignUp, U32, Written, RelocIndex, InWidth, Fits, HeaderAt;
    RelocIndexIff(h.sections, i, 0);
    HeaderInside(before, h, i);
    OwnSection(before, h, i);
    FitsIff(before, table, h, i, w);
  }

  lemma {:induction false} NoTableSection(before: bytes, table: bytes, none: bool, h: Header, w: nat, r: Outcome,
      after: bytes)
    requires Parse(before) == Some(h) && Result(before, table, none, h, w, r, after)
    requires forall k :: 0 <= k < |h.sections| ==> !NamedReloc(h.sections[k])
    ensures r == Done && after == before
  {
    hide Parse, Get, U32, Written, Fits, NamedReloc;
    var idx := RelocIndex(h.sections, 0);
    if idx.Some? {
      RelocIndexIff(h.sections, idx.value, 0);
      assert false;
    }
  }

  /**
   * Where the format has them (section 2.4 of the PE/COFF specification): the sixth data directory names the
   * table, DLL characteristic 0x40 is set and the others are as they were, and the section's header has its two
   * sizes. The raw data is the table and zeros up to the file alignment.
   */
  lemma {:induction false} FinishedFields(data: bytes, table: bytes, h: Header, idx: nat, w: nat)
    requires Roomy(data, table, h, idx, w)
    ensures var r, s, optional := Written(data, table, h, idx, w), h.sections[idx], h.peOffset + 24;
      var directory, header := optional + (if w == 8 then 152 else 136), optional + h.optionalSize + 40 * idx;
      && optional + 72 <= |data| <= |r| && directory + 8 <= |r| && header + 40 <= |r|
      && Get(r, directory, 4) == s.va && Get(r, directory + 4, 4) == |table|
      && Get(r, optional + 70, 2)
         == Get(data, optional + 70, 2) + (if Get(data, optional + 70, 2) / 0x40 % 2 == 1 then 0 else 0x40)
      && Get(r, header + 16, 4) == AlignUp(|table|, h.fileAlignment)
      && At(r, s.rawOffset, table + Zeros(AlignUp(|table|, h.fileAlignment) - |table|))
      && ((forall i :: 0 <= i < |h.sections| ==> h.sections[i].va <= s.va) ==> Get(r, header + 8, 4) == |table|)
      && forall i: nat :: IsNext(h.sections, s.va, i) ==>
           var end := if h.sectionAlignment == 0 then s.va + |table| else AlignUp(s.va + |table|, h.sectionAlignment);
           Get(r, header + 8, 4) == if end < h.sections[i].va then h.sections[i].va - s.va else |table|
  {
    hide Parse, Get, At, Le, AlignUp, AnnouncedSize, Written, IsNext, Zeros, U32;
    var r, s := Written(data, table, h, idx, w), h.sections[idx];
    var header, aligned := HeaderAt(h, idx), AlignUp(|table|, h.fileAlignment);
    Order(data, table, h, idx, w);
    HeaderInside(data, h, idx);
    OwnSection(data, h, idx);
    WrittenPieces(data, table, h, idx, w);
    SmallSizes(data, table, h, idx, w);
    AnnouncedIs(h.sections, s.va, |table|, h.sectionAlignment);
    WordBack(r, header + 8, AnnouncedSize(h.sections, s.va, |table|, h.sectionAlignment));
    WordBack(r, header + 16, aligned);
    WordBack(r, DirectoryAt(h, w), s.va);
    WordBack(r, DirectoryAt(h, w) + 4, |table|);
    FlagsBack(data, r, FlagsAt(h));
    AtSplit(r, s.rawOffset, table, Zeros(aligned - |table|));
  }

  lemma {:induction false} WordBack(r: bytes, o: nat, v: u32)
    requires At(r, o, Le(v, 4))
    ensures o + 4 <= |r| && Get(r, o, 4) == v
  {
    hide Get, Le;
    ReadBack(r, o, v);
    WordIs(r, o);
  }

  lemma {:induction false} FlagsBack(data: bytes, r: bytes, o: nat)
    requires o + 2 <= |data| && At(r, o, Le(WithDynamicBase(U16(data, o)), 2))
    ensures o + 2 <= |r|
    ensures Get(r, o, 2) == Get(data, o, 2) + (if Get(data, o, 2) / 0x40 % 2 == 1 then 0 else 0x40)
  {
    hide Get, Le;
    ReadBackFlags(r, o, WithDynamicBase(U16(data, o)));
    HalfIs(r, o);
    HalfIs(data, o);
  }

  lemma {:induction false} HalfIs(b: bytes, o: nat)
    requires o + 2 <= |b|
    ensures U16(b, o) == Get(b, o, 2)
  {
  }
}
