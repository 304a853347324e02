/** Small images, byte by byte. */
module Samples {
  import opened Options
  import opened Words
  import opened Pe

  /**
   * Wide: 64-bit, .reloc and, 2 MiB further on, .data. Hollow: the same with an empty .reloc at raw
   * offset 0. Narrow: 32-bit, .data alone. Coded: 32-bit, .reloc and, 2 MiB further on, .text.
   */
  datatype Sample = Wide | Hollow | Narrow | Coded

  /**
   * The bytes that are not zero. In .data stands one pointer, to 0x10004 when wide and to 0x500004 when
   * narrow; .text starts with an instruction that loads from 0x400004.
   */
  function Byte(s: Sample, k: nat): u8
  {
    match s
    case Wide => WideByte(k)
    case Hollow => if k == 264 || k == 268 || k == 269 then 0 else WideByte(k)
    case Narrow => NarrowByte(k)
    case Coded => CodedByte(k)
  }

  function WideByte(k: nat): u8
  {
    match k
    case 0 => 0x4D case 1 => 0x5A case 60 => 64
    case 64 => 0x50 case 65 => 0x45 case 70 => 2 case 84 => 160
    case 88 => 0x0B case 89 => 0x02
    case 114 => 2 case 120 => 8 case 124 => 8 case 144 => 0x10 case 146 => 0x20
    case 248 => 0x2E case 249 => 0x72 case 250 => 0x65 case 251 => 0x6C case 252 => 0x6F case 253 => 0x63
    case 256 => 16 case 260 => 0x48 case 261 => 0x01 case 264 => 16 case 268 => 0x48 case 269 => 0x01 case 284 => 0x40
    case 288 => 0x2E case 289 => 0x64 case 290 => 0x61 case 291 => 0x74 case 292 => 0x61
    case 296 => 16 case 302 => 0x20 case 304 => 16 case 310 => 0x20 case 324 => 0x40
    case 0x20_0000 => 0x04 case 0x20_0002 => 0x01
    case _ => 0
  }

  function NarrowByte(k: nat): u8
  {
    match k
    case 0 => 0x4D case 1 => 0x5A case 60 => 64
    case 64 => 0x50 case 65 => 0x45 case 70 => 1 case 84 => 96
    case 88 => 0x0B case 89 => 0x01
    case 118 => 0x40 case 120 => 8 case 124 => 8 case 145 => 0x10
    case 184 => 0x2E case 185 => 0x64 case 186 => 0x61 case 187 => 0x74 case 188 => 0x61
    case 192 => 8 case 196 => 224 case 200 => 8 case 204 => 224 case 220 => 0x40
    case 224 => 0x04 case 226 => 0x50
    case _ => 0
  }

  function CodedByte(k: nat): u8
  {
    match k
    case 0 => 0x4D case 1 => 0x5A case 60 => 64
    case 64 => 0x50 case 65 => 0x45 case 70 => 2 case 84 => 96
    case 88 => 0x0B case 89 => 0x01
    case 118 => 0x40 case 120 => 8 case 124 => 8 case 144 => 0x10 case 146 => 0x20
    case 184 => 0x2E case 185 => 0x72 case 186 => 0x65 case 187 => 0x6C case 188 => 0x6F case 189 => 0x63
    case 192 => 16 case 196 => 0x08 case 197 => 0x01 case 200 => 16 case 204 => 0x08 case 205 => 0x01 case 220 => 0x40
    case 224 => 0x2E case 225 => 0x74 case 226 => 0x65 case 227 => 0x78 case 228 => 0x74
    case 232 => 16 case 238 => 0x20 case 240 => 16 case 246 => 0x20 case 260 => 0x20 case 263 => 0x20
    case 0x20_0000 => 0xA1 case 0x20_0001 => 0x04 case 0x20_0003 => 0x40
    case _ => 0
  }

  function Length(s: Sample): nat { if s == Narrow then 232 else 0x20_0010 }

  function Data(s: Sample): (d: bytes)
    ensures |d| == Length(s)
  {
    seq(Length(s), k requires 0 <= k => Byte(s, k))
  }

  const RELOC: Section := Section([0x2E, 0x72, 0x65, 0x6C, 0x6F, 0x63], 328, 16, 328, 16, 0x40)
  const DATA: Section := Section([0x2E, 0x64, 0x61, 0x74, 0x61], 0x20_0000, 16, 0x20_0000, 16, 0x40)
  const NARROW_DATA: Section := Section([0x2E, 0x64, 0x61, 0x74, 0x61], 224, 8, 224, 8, 0x40)

  const TEXT: Section := Section([0x2E, 0x74, 0x65, 0x78, 0x74], 0x20_0000, 16, 0x20_0000, 16, 0x2000_0020)

  function Head(s: Sample): Header
  {
    match s
    case Wide => Header(64, 160, 0x2_0000, 0x20_0010, 8, 8, 0, [RELOC, DATA])
    case Hollow => Header(64, 160, 0x2_0000, 0x20_0010, 8, 8, 0, [RELOC.(rawOffset := 0, rawSize := 0), DATA])
    case Narrow => Header(64, 96, 0x40_0000, 0x1000, 8, 8, 0, [NARROW_DATA])
    case Coded =>
      Header(64, 96, 0x40_0000, 0x20_0010, 8, 8, 0, [RELOC.(va := 264, rawOffset := 264), TEXT])
  }

  // ---- Reading them ------------------------------------------------------------------------------------

  lemma {:induction false} DataAt(s: Sample, k: nat)
    requires k < Length(s)
    ensures Data(s)[k] == Byte(s, k)
  {
    hide Byte;
  }

  lemma {:induction false} Two(s: Sample, o: nat)
    requires o + 2 <= Length(s)
    ensures Get(Data(s), o, 2) == Byte(s, o) + 0x100 * Byte(s, o + 1)
  {
    hide Byte, Data;
    var d := Data(s);
    DataAt(s, o);
    DataAt(s, o + 1);
    assert Get(d, o, 2) == d[o] + 0x100 * Get(d, o + 1, 1);
    assert Get(d, o + 1, 1) == d[o + 1] + 0x100 * Get(d, o + 2, 0);
  }

  lemma {:induction false} Four(s: Sample, o: nat)
    requires o + 4 <= Length(s)
    ensures Get(Data(s), o, 4)
         == Byte(s, o) + 0x100 * Byte(s, o + 1) + 0x1_0000 * Byte(s, o + 2) + 0x100_0000 * Byte(s, o + 3)
  {
    hide Byte, Get, Data;
    GetSplit(Data(s), o, 2, 2);
    Two(s, o);
    Two(s, o + 2);
    RangeValues();
  }

  lemma {:induction false} Eight(s: Sample, o: nat)
    requires o + 8 <= Length(s)
    ensures Get(Data(s), o, 8)
         == Byte(s, o) + 0x100 * Byte(s, o + 1) + 0x1_0000 * Byte(s, o + 2) + 0x100_0000 * Byte(s, o + 3)
          + 0x1_0000_0000 * (Byte(s, o + 4) + 0x100 * Byte(s, o + 5) + 0x1_0000 * Byte(s, o + 6)
                             + 0x100_0000 * Byte(s, o + 7))
  {
    hide Byte, Get, Data;
    GetSplit(Data(s), o, 4, 4);
    Four(s, o);
    Four(s, o + 4);
    RangeValues();
  }

  lemma {:induction false} CutAt(s: bytes, n: nat)
    requires n < |s| && s[n] == 0 && forall k :: 0 <= k < n ==> s[k] != 0
    ensures CutNul(s) == s[..n]
    decreases n
  {
    if n > 0 {
      CutAt(s[1..], n - 1);
      assert s[..n] == [s[0]] + s[1..][..n - 1];
    }
  }

  lemma {:induction false} NameBytes(s: Sample, at: nat)
    requires at + 8 <= Length(s)
    ensures var n := Data(s)[at..at + 8];
      && n[0] == Byte(s, at) && n[1] == Byte(s, at + 1) && n[2] == Byte(s, at + 2) && n[3] == Byte(s, at + 3)
      && n[4] == Byte(s, at + 4) && n[5] == Byte(s, at + 5) && n[6] == Byte(s, at + 6)
  {
    hide Byte, Data;
    var n := Data(s)[at..at + 8];
    forall j | 0 <= j < 8 ensures n[j] == Byte(s, at + j) {
      DataAt(s, at + j);
      assert n[j] == Data(s)[at + j];
    }
  }

  /** Five letters, and the six of .reloc. */
  lemma {:induction false} ShortName(n: bytes)
    requires |n| == 8
    requires n[0] != 0 && n[1] != 0 && n[2] != 0 && n[3] != 0 && n[4] != 0 && n[5] == 0
    ensures CutNul(n) == [n[0], n[1], n[2], n[3], n[4]]
  {
    CutAt(n, 5);
  }

  lemma {:induction false} LongName(n: bytes)
    requires |n| == 8
    requires n[0] == 0x2E && n[1] == 0x72 && n[2] == 0x65 && n[3] == 0x6C && n[4] == 0x6F && n[5] == 0x63 && n[6] == 0
    ensures CutNul(n) == [0x2E, 0x72, 0x65, 0x6C, 0x6F, 0x63]
  {
    CutAt(n, 6);
  }

  lemma {:induction false} FrontWords(s: Sample)
    ensures var d := Data(s);
      && Get(d, 0, 2) == 0x5A4D && Get(d, 60, 4) == 64 && Get(d, 64, 4) == 0x4550
      && Get(d, 120, 4) == 8 && Get(d, 124, 4) == 8
      && Get(d, 70, 2) == |Head(s).sections| && Get(d, 84, 2) == Head(s).optionalSize
      && Get(d, 144, 4) == Head(s).sizeOfImage
  {
    hide Get, Data;
    Two(s, 0);
    Four(s, 60);
    Four(s, 64);
    Two(s, 70);
    Two(s, 84);
    Four(s, 120);
    Four(s, 124);
    Four(s, 144);
  }

  lemma {:induction false} WideReloc(s: Sample)
    requires s == Wide || s == Hollow
    ensures SectionAt(Data(s), 248) == Head(s).sections[0]
  {
    hide Get, Data, CutNul;
    Four(s, 256);
    Four(s, 260);
    Four(s, 264);
    Four(s, 268);
    Four(s, 284);
    NameBytes(s, 248);
    LongName(Data(s)[248..256]);
  }

  lemma {:induction false} WideData(s: Sample)
    requires s == Wide || s == Hollow
    ensures SectionAt(Data(s), 288) == DATA
  {
    hide Get, Data, CutNul;
    Four(s, 296);
    Four(s, 300);
    Four(s, 304);
    Four(s, 308);
    Four(s, 324);
    NameBytes(s, 288);
    ShortName(Data(s)[288..296]);
  }

  lemma {:induction false} NarrowData()
    ensures SectionAt(Data(Narrow), 184) == NARROW_DATA
  {
    hide Get, Data, CutNul;
    Four(Narrow, 192);
    Four(Narrow, 196);
    Four(Narrow, 200);
    Four(Narrow, 204);
    Four(Narrow, 220);
    NameBytes(Narrow, 184);
    ShortName(Data(Narrow)[184..192]);
  }

  lemma {:induction false} WideParses(s: Sample)
    requires s == Wide || s == Hollow
    ensures Parse(Data(s)) == Some(Head(s))
  {
    hide Get, SectionAt, Byte, Data;
    FrontWords(s);
    WideWords(s);
    WideReloc(s);
    WideData(s);
    TwoSections(Data(s), 248);
  }

  lemma {:induction false} WideWords(s: Sample)
    requires s == Wide || s == Hollow
    ensures var d := Data(s); Get(d, 88, 2) == 0x20B && Get(d, 112, 8) == 0x2_0000 && Get(d, 208, 4) == 0
  {
    hide Get, Data;
    Two(s, 88);
    Eight(s, 112);
    Four(s, 208);
  }

  lemma {:induction false} TwoSections(d: bytes, at: nat)
    requires |d| >= at + 80
    ensures SectionsAt(d, at, 2) == [SectionAt(d, at), SectionAt(d, at + 40)]
  {
    hide SectionAt;
    assert SectionsAt(d, at, 2) == [SectionAt(d, at)] + SectionsAt(d, at + 40, 1);
    assert SectionsAt(d, at + 40, 1) == [SectionAt(d, at + 40)] + SectionsAt(d, at + 80, 0);
  }

  lemma {:induction false} NarrowParses()
    ensures Parse(Data(Narrow)) == Some(Head(Narrow))
  {
    hide Get, SectionAt, Byte, Data;
    FrontWords(Narrow);
    NarrowWords(Narrow);
    NarrowData();
    OneSection(Data(Narrow));
  }

  lemma {:induction false} OneSection(d: bytes)
    requires |d| >= 224
    ensures SectionsAt(d, 184, 1) == [SectionAt(d, 184)]
  {
    hide SectionAt;
    assert SectionsAt(d, 184, 1) == [SectionAt(d, 184)] + SectionsAt(d, 224, 0);
  }

  lemma {:induction false} NarrowWords(s: Sample)
    requires s == Narrow || s == Coded
    ensures var d := Data(s); Get(d, 88, 2) == 0x10B && Get(d, 116, 4) == 0x40_0000
  {
    hide Get, Data;
    Two(s, 88);
    Four(s, 116);
  }

  lemma {:induction false} CodedReloc()
    ensures SectionAt(Data(Coded), 184) == RELOC.(va := 264, rawOffset := 264)
  {
    hide Get, Data, CutNul;
    Four(Coded, 192);
    Four(Coded, 196);
    Four(Coded, 200);
    Four(Coded, 204);
    Four(Coded, 220);
    NameBytes(Coded, 184);
    LongName(Data(Coded)[184..192]);
  }

  lemma {:induction false} CodedText()
    ensures SectionAt(Data(Coded), 224) == TEXT
  {
    hide Get, Data, CutNul;
    Four(Coded, 232);
    Four(Coded, 236);
    Four(Coded, 240);
    Four(Coded, 244);
    Four(Coded, 260);
    NameBytes(Coded, 224);
    ShortName(Data(Coded)[224..232]);
  }

  lemma {:induction false} CodedParses()
    ensures Parse(Data(Coded)) == Some(Head(Coded))
  {
    hide Get, SectionAt, Byte, Data;
    FrontWords(Coded);
    NarrowWords(Coded);
    CodedReloc();
    CodedText();
    TwoSections(Data(Coded), 184);
  }
}
