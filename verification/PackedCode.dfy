/**
 * The code of a 32-bit file that is packed before it is scanned: the scan reads the file at RVAs
 * (crates/pe/src/dumper/dump_process.rs:416-424, crates/pe/src/code_relocations.rs).
 */
module PackedCode {
  import opened Words
  import opened ImportProtection
  import opened Pe
  import opened RelocationCollect
  import opened RelocationEntries
  import opened PackLayout
  import opened Rebase
  import opened Pipeline
  import CodeScan

  /** Section j holds something and starts more than 1 MiB behind what is laid out in front of it. */
  predicate FarBehind(h: Header, n: nat, j: nat)
    requires j < |h.sections|
  {
    && Nonempty(h.sections[j])
    && h.sections[j].rawOffset > Reached(h.sections, 0, 0, n, h.fileAlignment, j) + 0x10_0000
  }

  ghost predicate NoFarCode(h: Header, n: nat)
  {
    forall j :: 0 <= j < |h.sections| && Executable(h.sections[j]) ==> !FarBehind(h, n, j)
  }

  /** The sections that stay where they are. */
  lemma {:induction false} StaysIff(data: bytes, h: Header, j: nat)
    requires Packable(data, h) && j < |h.sections|
    ensures NewStart(data, h, j) == h.sections[j].rawOffset <==> !FarBehind(h, |data|, j)
  {
    hide Align, Parse, Moves, Reached, PowerOfTwo, Lands, Nonempty;
    var ss, n, fa := h.sections, |data|, h.fileAlignment;
    var e := Reached(ss, 0, 0, n, fa, j);
    if Nonempty(ss[j]) {
      FullMoves(ss, j, e, HeaderEnd(h), n, fa);
      if Moves(ss[j], e, n) {
        MoveTarget(e, fa, ss[j], n);
      }
    } else {
      EmptyStart(data, h, j);
    }
  }

  /** Code that stood at its addresses, where the scan reads it, does so still exactly if none of it is far behind. */
  lemma {:induction false} PackedCodeInPlaceIff(data: bytes, h: Header)
    requires Packable(data, h) && CodeInPlace(h)
    ensures CodeInPlace(Moved(data, h)) <==> NoFarCode(h, |data|)
  {
    hide Packable, NewStart, Executable, FarBehind;
    var g := Moved(data, h);
    forall j | 0 <= j < |h.sections|
      ensures Executable(g.sections[j]) == Executable(h.sections[j]) && g.sections[j].va == h.sections[j].va
      ensures g.sections[j].rawSize == h.sections[j].rawSize
      ensures g.sections[j].rawOffset == h.sections[j].rawOffset <==> !FarBehind(h, |data|, j)
      ensures FarBehind(h, |data|, j) ==> h.sections[j].rawSize > 0
    {
      StartBelow(data, h, j);
      MovedIs(data, h, j);
      SameKind(h.sections[j], g.sections[j]);
      StaysIff(data, h, j);
      FarIsFull(h, |data|, j);
    }
  }

  lemma {:induction false} FarIsFull(h: Header, n: nat, j: nat)
    requires j < |h.sections|
    ensures FarBehind(h, n, j) ==> h.sections[j].rawSize > 0
  {
    hide Reached;
  }

  // ---- The scan of the packed file --------------------------------------------------------------------

  lemma {:induction false} SameAreas(ss: seq<Section>, ts: seq<Section>)
    requires |ts| == |ss| && forall j :: 0 <= j < |ss| ==> ts[j] == ss[j].(rawOffset := ts[j].rawOffset)
    ensures Areas(ts) == Areas(ss)
  {
    if ss != [] {
      SameAreas(ss[1..], ts[1..]);
    }
  }

  lemma {:induction false} MovedAreas(data: bytes, h: Header)
    ensures Areas(Moved(data, h).sections) == Areas(h.sections)
  {
    hide NewStart;
    SameAreas(h.sections, Moved(data, h).sections);
  }

  /** The code of a section: the same bytes at the same place of both files. */
  ghost predicate SameCode(data: bytes, p: bytes, a: CodeScan.Area)
  {
    a.rva + a.size <= |data| && a.rva + a.size <= |p| && CodeScan.Code(p, a) == CodeScan.Code(data, a)
  }

  lemma {:induction false} SectionCode(data: bytes, h: Header, j: nat)
    requires Packable(data, h) && CodeInPlace(h) && NoFarCode(h, |data|)
    requires j < |h.sections| && Executable(h.sections[j]) && h.sections[j].rawSize > 0
    ensures 64 <= |data|
    ensures var s := h.sections[j]; SameCode(data, Packed(data, h), CodeScan.Area(s.va, s.rawSize, s.chars))
  {
    hide Packable, NewStart, Packed, FarBehind;
    PackedSection(data, h, j);
    StaysIff(data, h, j);
  }

  /** Every area the sweep can enter has its code where it was. */
  lemma {:induction false} AreaCode(data: bytes, h: Header, n: nat)
    requires Packable(data, h) && CodeInPlace(h) && NoFarCode(h, |data|)
    requires n < |Areas(h.sections)|
    requires var a := Areas(h.sections)[n]; CodeScan.Executable(a) && a.size != 0
    ensures 64 <= |data| && SameCode(data, Packed(data, h), Areas(h.sections)[n])
  {
    hide Packable, Packed, Areas, CodeInPlace, NoFarCode, SameCode;
    var i := AreaOwner(h.sections, n);
    SectionCode(data, h, i);
  }

  lemma {:induction false} SameFields(decode: CodeScan.Decoder, data: bytes, p: bytes, a: CodeScan.Area, rva: nat)
    requires CodeScan.Sound(decode) && SameCode(data, p, a)
    ensures CodeScan.FieldFrom(decode, p, a, 0, rva) <==> CodeScan.FieldFrom(decode, data, a, 0, rva)
  {
    hide CodeScan.Sound, CodeScan.Sweep, CodeScan.Code;
  }

  lemma {:induction false} SameDword(data: bytes, p: bytes, a: CodeScan.Area, rva: nat)
    requires SameCode(data, p, a) && a.rva <= rva && rva + 4 <= a.rva + a.size
    ensures Get(p, rva, 4) == Get(data, rva, 4)
  {
    hide Get;
    SliceTwice(p, a.rva, a.size, rva - a.rva, 4);
    SliceTwice(data, a.rva, a.size, rva - a.rva, 4);
    GetMoved(p, rva, data, rva, 4);
  }

  /** Of two files with the same code in every area, the second has the operands of the first. */
  lemma {:induction false} OperandsCarry(decode: CodeScan.Decoder, data: bytes, p: bytes, areas: seq<CodeScan.Area>,
      rva: nat)
    requires CodeScan.Sound(decode) && CodeScan.Operand(decode, data, areas, rva)
    requires forall n :: 0 <= n < |areas| && CodeScan.Scannable(data, areas[n]) ==>
      SameCode(data, p, areas[n]) && SameCode(p, data, areas[n])
    ensures CodeScan.Operand(decode, p, areas, rva)
    ensures rva + 4 <= |data| && rva + 4 <= |p| && Get(p, rva, 4) == Get(data, rva, 4)
  {
    hide CodeScan.FieldFrom, CodeScan.Sound, Get, CodeScan.Code;
    var n :| 0 <= n < |areas| && CodeScan.Scannable(data, areas[n])
      && CodeScan.FieldFrom(decode, data, areas[n], 0, rva);
    SameFields(decode, data, p, areas[n], rva);
    CodeScan.FieldWithin(decode, data, areas[n], rva);
    SameDword(data, p, areas[n], rva);
    assert CodeScan.Scannable(p, areas[n]);
  }

  /** Packing that moves no code: the scan sees the same operands, with the same dwords. */
  lemma {:induction false} OperandsKept(decode: CodeScan.Decoder, data: bytes, h: Header, rva: nat)
    requires Packable(data, h) && CodeInPlace(h) && NoFarCode(h, |data|) && CodeScan.Sound(decode)
    ensures 64 <= |data|
    ensures CodeScan.Operand(decode, Packed(data, h), Areas(Moved(data, h).sections), rva)
       <==> CodeScan.Operand(decode, data, Areas(h.sections), rva)
    ensures CodeScan.Operand(decode, data, Areas(h.sections), rva) ==>
      && rva + 4 <= |data| && rva + 4 <= |Packed(data, h)|
      && Get(Packed(data, h), rva, 4) == Get(data, rva, 4)
  {
    hide Packable, Packed, Areas, CodeInPlace, NoFarCode, CodeScan.Operand, CodeScan.Code, CodeScan.Sound, Get, Moved;
    PackableLong(data, h);
    MovedAreas(data, h);
    var p, areas := Packed(data, h), Areas(h.sections);
    forall n | 0 <= n < |areas| && CodeScan.Executable(areas[n]) && areas[n].size != 0
      ensures SameCode(data, p, areas[n]) && SameCode(p, data, areas[n])
    {
      AreaCode(data, h, n);
    }
    if CodeScan.Operand(decode, data, areas, rva) {
      OperandsCarry(decode, data, p, areas, rva);
    }
    if CodeScan.Operand(decode, p, areas, rva) {
      OperandsCarry(decode, p, data, areas, rva);
    }
  }

  lemma {:induction false} PackableLong(data: bytes, h: Header)
    requires Packable(data, h)
    ensures 64 <= |data|
  {
    hide Parse, Lands, PowerOfTwo, Ascending;
    ParseEnd(data, h);
  }

  /** No code far behind what is in front of it: a caller can see to it before the file is packed. */
  ghost predicate CodeStays(data: bytes, h: Header)
  {
    Packable(data, h) && CodeInPlace(h) && NoFarCode(h, |data|)
  }

  lemma {:induction false} OperandIsAddress(decode: CodeScan.Decoder, data: bytes, ss: seq<Section>, rva: nat)
    requires CodeScan.Sound(decode)
    ensures CodeScan.Operand(decode, data, Areas(ss), rva) <==> CodeAddress(decode, data, ss, rva)
  {
    hide CodeScan.Operand, CodeScan.AddressIn, CodeAddress, Areas, CodeScan.Sound;
    CodeScan.OperandIff(decode, data, Areas(ss), rva);
    AreasAre(decode, data, ss, rva);
  }

  /**
   * The scan of the packed file names the operands that the file had before packing and whose dwords
   * pointed into the image, those apart that start inside import metadata.
   */
  lemma {:induction false} PackedScanNames(decode: CodeScan.Decoder, data: bytes, h: Header,
      code: seq<CodeScan.Hit>, rva: u32)
    requires CodeStays(data, h) && CodeScan.Sound(decode) && 64 <= |data|
    requires CodeHits(decode, Packed(data, h), Moved(data, h), 4, code)
    ensures CodeScan.Names(code, rva)
      <==>
      && CodeAddress(decode, data, h.sections, rva) && rva + 4 <= |data|
      && (var base: u32 := h.imageBase % 0x1_0000_0000; base <= Get(data, rva, 4) < ImageEnd(base, h.sizeOfImage))
      && !ImportByte(Moved(data, h), Packed(data, h), 4, rva)
  {
    hide Packable, Packed, Areas, CodeInPlace, NoFarCode, CodeScan.Operand, CodeScan.Sound, Get, Moved, ImportByte,
      CodeAddress, CodeHits, CodeScan.Names;
    MovedHeader(data, h);
    OperandsKept(decode, data, h, rva);
    OperandIsAddress(decode, data, h.sections, rva);
    OperandIsAddress(decode, Packed(data, h), Moved(data, h).sections, rva);
    CodeNamesIff(decode, Packed(data, h), Moved(data, h), code, rva);
  }

  lemma {:induction false} Named(code: seq<CodeScan.Hit>, rva: nat) returns (x: CodeScan.Hit)
    requires CodeScan.Names(code, rva)
    ensures x in code && x.rva == rva
  {
    var k :| 0 <= k < |code| && code[k].rva == rva;
    x := code[k];
  }

  /**
   * The code of a 32-bit file is relocated through packing: an operand that pointed k bytes into the
   * image before the file was packed does so at the new base, once the packed file has got its table,
   * is mapped, and rebased.
   */
  lemma {:induction false} PackedOperandLoadsAtAnyBase(decode: CodeScan.Decoder, data: bytes, h: Header,
      code: seq<CodeScan.Hit>, idx: nat, m: bytes, rva: u32, k: nat, base: u32, delta: i64)
    requires CodeStays(data, h) && 64 <= |data| && CodeScan.Sound(decode) && h.imageBase < TWO32
    requires CodeAddress(decode, data, h.sections, rva) && rva + 4 <= |data|
    requires Get(data, rva, 4) == h.imageBase + k < ImageEnd(h.imageBase, h.sizeOfImage)
    requires !ImportByte(Moved(data, h), Packed(data, h), 4, rva)
    requires CodeHits(decode, Packed(data, h), Moved(data, h), 4, code)
    requires Regular(Packed(data, h), Moved(data, h))
    requires var p, g := Packed(data, h), Moved(data, h);
      var es := Found(p, g, 4, code);
      && Placeable(g, 4, idx, |Table(es)|) && Placed(Product(p, g, 4, es, idx), NewSections(p, g, 4, es, idx), m)
    requires (h.imageBase - base - delta) % TWO32 == 0
    ensures var p, g := Packed(data, h), Moved(data, h);
      var r := Loaded(p, g, 4, Found(p, g, 4, code), idx, m, delta);
      rva + 4 <= |r.buf| && Get(r.buf, rva, 4) == (base + k) % TWO32
  {
    hide *;
    var p, g := Packed(data, h), Moved(data, h);
    MovedHeader(data, h);
    CodeStaysParts(data, h);
    PackedCodeInPlaceIff(data, h);
    NarrowBase(h);
    PackedScanNames(decode, data, h, code, rva);
    var x := Named(code, rva);
    OperandIsAddress(decode, data, h.sections, rva);
    OperandsKept(decode, data, h, rva);
    OperandLoadsAtAnyBase(decode, p, g, code, idx, m, x, base, delta);
  }

  lemma {:induction false} CodeStaysParts(data: bytes, h: Header)
    requires CodeStays(data, h)
    ensures Packable(data, h) && CodeInPlace(h) && NoFarCode(h, |data|)
  {
    hide Packable, CodeInPlace, NoFarCode;
  }

  lemma {:induction false} NarrowBase(h: Header)
    requires h.imageBase < TWO32
    ensures h.imageBase % 0x1_0000_0000 == h.imageBase
  {
    ModUnique(h.imageBase, TWO32, 0, h.imageBase);
  }
}
