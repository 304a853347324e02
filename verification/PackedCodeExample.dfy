/** A 32-bit file whose code operand is named by the scan, until the file is packed. */
module PackedCodeExample {
  import opened Options
  import opened Words
  import opened ImportMetadata
  import opened Pe
  import opened ImportProtection
  import opened RelocationCollect
  import opened RelocationEntries
  import opened PackLayout
  import opened Rebase
  import opened Pipeline
  import opened PackedCode
  import opened Samples
  import CodeScan

  /** A decoder that knows one instruction: mov eax, [address]. */
  function Load(b: bytes): CodeScan.Insn
  {
    if |b| >= 5 && b[0] == 0xA1 then CodeScan.Insn(5, 1, 4, 0, 0, CodeScan.Next, false) else CodeScan.Invalid
  }

  lemma {:induction false} LoadSound()
    ensures CodeScan.Sound(Load)
  {
  }

  function File(): bytes { Data(Coded) }

  function Top(): Header { Head(Coded) }

  const AREA: CodeScan.Area := CodeScan.Area(0x20_0000, 16, 0x2000_0020)

  lemma {:induction false} OneArea(ss: seq<Section>)
    requires |ss| == 2 && IsReloc(ss[0]) && !IsReloc(ss[1])
    ensures Areas(ss) == [CodeScan.Area(ss[1].va, ss[1].rawSize, ss[1].chars)]
  {
    assert Areas(ss[1..]) == [CodeScan.Area(ss[1].va, ss[1].rawSize, ss[1].chars)] + Areas(ss[1..][1..]);
  }

  /** The instruction at 0x200000 loads from 0x400004, 4 bytes into the image. */
  lemma {:induction false} HasOperand()
    ensures Areas(Top().sections) == [AREA] && CodeScan.Sound(Load)
    ensures CodeScan.Operand(Load, File(), Areas(Top().sections), 0x20_0001)
    ensures Get(File(), 0x20_0001, 4) == 0x40_0004
  {
    hide Get, Data, CodeScan.Sound, CodeScan.FieldFrom, CodeScan.Code, CutNul;
    LoadSound();
    OneArea(Top().sections);
    Four(Coded, 0x20_0001);
    FirstField();
    assert CodeScan.Scannable(File(), AREA) && Areas(Top().sections)[0] == AREA;
  }

  lemma {:induction false} FirstField()
    requires CodeScan.Sound(Load)
    ensures |File()| == 0x20_0010 && CodeScan.FieldFrom(Load, File(), AREA, 0, 0x20_0001)
  {
    hide Data, CodeScan.Sound;
    var code := CodeScan.Code(File(), AREA);
    assert code[0..] == code && code[0] == File()[0x20_0000];
    DataAt(Coded, 0x20_0000);
    assert Load(code[0..]).Insn?;
    assert 0 in CodeScan.Sweep(Load, code, 0);
    assert CodeScan.FieldAt(Load, File(), AREA, 0, 0x20_0001);
  }

  lemma {:induction false} IsPackable()
    ensures Packable(File(), Top()) && CodeInPlace(Top()) && |File()| == 0x20_0010
  {
    hide Parse, Data;
    CodedParses();
  }

  /** .reloc stays at 264, and .text is more than 1 MiB behind its end. */
  lemma {:induction false} TextFar()
    ensures NewStart(File(), Top(), 0) == 264 && NewStart(File(), Top(), 1) == 280
    ensures FarBehind(Top(), |File()|, 1)
  {
    hide Align, Data;
    AlignIsAlignUp(280, 8);
    var ss, n := Top().sections, |File()|;
    assert !Moves(ss[0], 0, n) && NextEnd(ss[0], 0, n, 8) == 280;
    assert Moves(ss[1], 280, n);
    ReachedNow(ss, 0, 0, n, 8);
    ReachedLater(ss, 0, 0, n, 8, 1);
    ReachedNow(ss, 1, 280, n, 8);
  }

  lemma {:induction false} LastEndIs(ss: seq<Section>, plan: seq<Move>)
    requires |ss| == 2 && ss[0].rawSize == 16 && ss[1].rawSize == 16
    requires NewPointer(plan, 0, ss[0].rawOffset) == 264 && NewPointer(plan, 1, ss[1].rawOffset) == 280
    ensures MaxEnd(ss, plan, 0) == 296
  {
    hide NewPointer;
    assert MaxEnd(ss, plan, 2) == 0;
    assert MaxEnd(ss, plan, 1) == 296;
  }

  lemma {:induction false} TopIs()
    ensures |Top().sections| == 2 && Top().sections[0].rawSize == 16 && Top().sections[1].rawSize == 16
    ensures Top().sections[1].va == 0x20_0000 && Executable(Top().sections[1])
  {
  }

  /** The packed file ends right behind the code, at its new place. */
  lemma {:induction false} PackedLength()
    ensures 64 <= |File()| && |Packed(File(), Top())| == 296
  {
    hide *;
    IsPackable();
    TextFar();
    TopIs();
    var h, ss, n, fa := Top(), Top().sections, |File()|, Top().fileAlignment;
    PackableParses(File(), h);
    PackableReady(File(), h);
    PackedIs(File(), h);
    NewStartIs(File(), h, 0);
    NewStartIs(File(), h, 1);
    PointerIsStart(ss, 0, 0, n, fa, 0);
    PointerIsStart(ss, 0, 0, n, fa, 1);
    LastEndIs(ss, Plan(ss, 0, 0, n, fa));
    LaidStays(File(), File(), ss, 0, 0, HeaderEnd(h), fa, SectionTable(h));
    Cut(Rest(File(), ss, 0, 0, fa, SectionTable(h)), 296);
  }

  lemma {:induction false} Cut(d: bytes, n: nat)
    requires n < |d|
    ensures |Truncate(d, n)| == n
  {
  }

  lemma {:induction false} ShortFile(decode: CodeScan.Decoder, p: bytes, base: u32, end: u32, reject: u32 -> bool)
    requires CodeScan.Sound(decode) && |p| == 296
    ensures CodeScan.AllHits(decode, p, [AREA], base, end, reject) == []
  {
    hide CodeScan.Sound;
    assert !CodeScan.Scannable(p, AREA) && [AREA][1..] == [];
  }

  lemma {:induction false} NothingInside(p: bytes, h: Header, code: seq<CodeScan.Hit>)
    requires CodeScan.Sound(Load) && |p| == 296 && Areas(h.sections) == [AREA] && CodeHits(Load, p, h, 4, code)
    ensures code == []
  {
    hide CodeScan.Sound, CodeScan.AllHits, Areas, Spans;
    var base: u32 := h.imageBase % TWO32;
    var end := CodeScan.SaturatingAdd(base, h.sizeOfImage);
    ShortFile(Load, p, base, end, Rejects(Spans(h, p, 4)));
    NoneFrom(code, CodeScan.AllHits(Load, p, [AREA], base, end, Rejects(Spans(h, p, 4))));
  }

  lemma {:induction false} NoneFrom(code: seq<CodeScan.Hit>, hits: seq<CodeScan.Hit>)
    requires forall x :: x in code ==> x in hits
    ensures code != [] ==> hits != []
  {
    if code != [] {
      assert code[0] in hits;
    }
  }

  lemma {:induction false} NoImports(data: bytes, g: Header, x: nat)
    requires g.importRva == 0
    ensures !ImportByte(g, data, 4, x)
  {
  }

  lemma {:induction false} NamedBefore(code: seq<CodeScan.Hit>)
    requires CodeScan.Sound(Load) && CodeHits(Load, File(), Top(), 4, code)
    ensures CodeScan.Names(code, 0x20_0001)
  {
    hide CodeScan.Sound, CodeHits, CodeScan.Operand, CodeAddress, ImportByte, Areas, Get, Data;
    HasOperand();
    OperandIsAddress(Load, File(), Top().sections, 0x20_0001);
    NoImports(File(), Top(), 0x20_0001);
    CodeNamesIff(Load, File(), Top(), code, 0x20_0001);
    ModUnique(0x40_0000, TWO32, 0, 0x40_0000);
  }

  lemma {:induction false} NotCollected(p: bytes, s: Section)
    ensures IsReloc(s) || Executable(s) ==> !Collected(p, s)
  {
    hide HasData;
  }

  lemma {:induction false} NoData(p: bytes, g: Header)
    requires |g.sections| == 2 && IsReloc(g.sections[0]) && Executable(g.sections[1]) && Addressable(g.sections)
    ensures DataEntries(p, g, 4) == []
  {
    hide *;
    var ss, spans := g.sections, Spans(g, p, 4);
    DataEntriesAre(p, g, 4);
    assert ss[1..][1..] == ss[2..] && ss[1..][0] == ss[1] && ss[2..] == [];
    NotCollected(p, ss[0]);
    NotCollected(p, ss[1]);
    DataHitsOpen(p, ss, 4, g.imageBase, g.sizeOfImage, spans);
    DataHitsOpen(p, ss[1..], 4, g.imageBase, g.sizeOfImage, spans);
    DataHitsEnd(p, ss[2..], 4, g.imageBase, g.sizeOfImage, spans);
  }

  /**
   * A file that can be packed and whose code stands at its addresses. Before packing the scan names the
   * operand at 0x200001, which holds 0x400004. After packing it names nothing: the file is 296 bytes long,
   * and the code is not looked for where it went. The table stays empty, and the operand stale at any
   * base but the file's own.
   */
  lemma {:induction false} OperandLost(code: seq<CodeScan.Hit>, packed: seq<CodeScan.Hit>)
    requires CodeScan.Sound(Load) && 64 <= |File()|
    requires CodeHits(Load, File(), Top(), 4, code)
    requires CodeHits(Load, Packed(File(), Top()), Moved(File(), Top()), 4, packed)
    ensures Parse(File()) == Some(Top()) && Packable(File(), Top()) && CodeInPlace(Top())
    ensures Executable(Top().sections[1]) && FarBehind(Top(), |File()|, 1)
    ensures Get(File(), 0x20_0001, 4) == 0x40_0004 && CodeScan.Names(code, 0x20_0001)
    ensures var p, g := Packed(File(), Top()), Moved(File(), Top());
      && Regular(p, g) && packed == [] && Found(p, g, 4, packed) == []
      && |p| == 296 && g.sections[1].rawOffset == 280 && Get(p, 281, 4) == 0x40_0004
  {
    hide *;
    IsPackable();
    PackableParses(File(), Top());
    TextFar();
    TopIs();
    HasOperand();
    NamedBefore(code);
    PackedLength();
    MovedAreas(File(), Top());
    NothingInside(Packed(File(), Top()), Moved(File(), Top()), packed);
    LostEnd(packed);
  }

  lemma {:induction false} LostEnd(packed: seq<CodeScan.Hit>)
    requires Packable(File(), Top()) && packed == [] && 64 <= |File()| && |Packed(File(), Top())| == 296
    ensures var p, g := Packed(File(), Top()), Moved(File(), Top());
      && Regular(p, g) && Found(p, g, 4, packed) == []
      && g.sections[1].rawOffset == 280 && Get(p, 281, 4) == 0x40_0004
  {
    hide Packable, Packed, Data, Get, Areas, CodeScan.Sound, NewStart, Regular, DataEntries;
    PackedRegular(File(), Top(), 0);
    TextFar();
    MovedIs(File(), Top(), 0);
    MovedIs(File(), Top(), 1);
    PackedSection(File(), Top(), 1);
    var p, g := Packed(File(), Top()), Moved(File(), Top());
    RegularParses(p, g);
    NoData(p, g);
    SliceTwice(File(), 0x20_0000, 16, 1, 4);
    SliceTwice(p, 280, 16, 1, 4);
    GetMoved(File(), 0x20_0001, p, 281, 4);
    HasOperand();
  }
}
