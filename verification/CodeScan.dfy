/** Absolute operands inside executable sections, x86 (crates/pe/src/code_relocations.rs). */
module CodeScan {
  import opened Words

  datatype Flow = Next | Call | IndirectCall | UnconditionalBranch | ConditionalBranch | Other

  /** What the decoder reports about one instruction: its length and its constant fields. */
  datatype Insn =
    | Invalid
    | Insn(len: nat, dispOffset: nat, dispSize: nat, immOffset: nat, immSize: nat, flow: Flow, nearBranch32: bool)

  /** The instruction at the head of the given bytes. */
  type Decoder = bytes -> Insn

  datatype Area = Area(rva: u32, size: u32, chars: u32)

  datatype Hit = Hit(rva: u32, target: u32)

  /** A decoded instruction is not empty, lies in the input, and its two constants do not overlap. */
  ghost predicate Sound(decode: Decoder)
  {
    forall b: bytes :: b != [] && decode(b).Insn? ==> WellFormed(decode(b), |b|)
  }

  ghost predicate WellFormed(i: Insn, n: nat)
    requires i.Insn?
  {
    && 1 <= i.len <= n
    && (i.dispSize == 4 ==> i.dispOffset + 4 <= i.len)
    && (i.immSize == 4 ==> i.immOffset + 4 <= i.len)
    && (i.dispSize == 4 && i.immSize == 4 ==> i.dispOffset + 4 <= i.immOffset || i.immOffset + 4 <= i.dispOffset)
  }

  predicate IsRelativeBranch(i: Insn)
    requires i.Insn?
  {
    (i.flow.Call? || i.flow.IndirectCall? || i.flow.UnconditionalBranch? || i.flow.ConditionalBranch?) && i.nearBranch32
  }

  predicate Executable(a: Area) { a.chars / 0x2000_0000 % 2 == 1 }

  function SaturatingAdd(a: u32, b: u32): u32 { if a + b < TWO32 then a + b else TWO32 - 1 }

  /** Offsets of the instruction's 32-bit fields that can hold an address. */
  function Fields(i: Insn): seq<nat>
    requires i.Insn?
  {
    (if i.dispSize == 4 then [i.dispOffset] else [])
    + (if i.immSize == 4 && !IsRelativeBranch(i) then [i.immOffset] else [])
  }

  function InsnLen(i: Insn): nat { if i.Insn? then i.len else 1 }

  /** Where the sweep of the section stands after each decoded instruction or skipped byte. */
  function Sweep(decode: Decoder, code: bytes, pos: nat): (ps: seq<nat>)
    requires Sound(decode)
    decreases |code| - pos
  {
    if pos >= |code| then [] else [pos] + Sweep(decode, code, pos + InsnLen(decode(code[pos..])))
  }

  function Code(data: bytes, a: Area): bytes
    requires a.rva + a.size <= |data|
  {
    data[a.rva..a.rva + a.size]
  }

  predicate Scannable(data: bytes, a: Area)
  {
    Executable(a) && a.rva + a.size <= |data| && a.size != 0
  }

  /** The dword at rva points into [base, end) and nothing protects it. */
  predicate Accepted(data: bytes, rva: nat, base: u32, end: u32, reject: u32 -> bool)
  {
    rva + 4 <= |data| && rva < TWO32 && base <= Get(data, rva, 4) < end && !reject(rva)
  }

  function FieldHit(data: bytes, rva: nat, base: u32, end: u32, reject: u32 -> bool): seq<Hit>
  {
    if Accepted(data, rva, base, end, reject) then [Hit(rva, Get(data, rva, 4))] else []
  }

  function FieldHits(data: bytes, at: nat, fs: seq<nat>, base: u32, end: u32, reject: u32 -> bool): seq<Hit>
  {
    if fs == [] then []
    else FieldHit(data, at + fs[0], base, end, reject) + FieldHits(data, at, fs[1..], base, end, reject)
  }

  function InsnHits(decode: Decoder, data: bytes, a: Area, pos: nat, base: u32, end: u32, reject: u32 -> bool): seq<Hit>
    requires a.rva + a.size <= |data| && pos < a.size
  {
    var i := decode(Code(data, a)[pos..]);
    if i.Insn? then FieldHits(data, a.rva + pos, Fields(i), base, end, reject) else []
  }

  function AreaHits(decode: Decoder, data: bytes, a: Area, pos: nat, base: u32, end: u32, reject: u32 -> bool): seq<Hit>
    requires Sound(decode) && a.rva + a.size <= |data|
    decreases a.size - pos
  {
    if pos >= a.size then []
    else
      InsnHits(decode, data, a, pos, base, end, reject)
      + AreaHits(decode, data, a, pos + InsnLen(decode(Code(data, a)[pos..])), base, end, reject)
  }

  function AllHits(decode: Decoder, data: bytes, areas: seq<Area>, base: u32, end: u32, reject: u32 -> bool): seq<Hit>
    requires Sound(decode)
  {
    if areas == [] then []
    else
      (if Scannable(data, areas[0]) then AreaHits(decode, data, areas[0], 0, base, end, reject) else [])
      + AllHits(decode, data, areas[1..], base, end, reject)
  }

  // ---- The scan ------------------------------------------------------------------------

  method Collect(rva: nat, insn: bytes, fieldOffset: nat, base: u32, end: u32, reject: u32 -> bool, ghost data: bytes)
    returns (hits: seq<Hit>)
    requires |data| <= TWO32
    requires fieldOffset + 4 <= |insn| ==> rva + 4 <= |data| && insn[fieldOffset..fieldOffset + 4] == data[rva..rva + 4]
    ensures hits == if fieldOffset + 4 <= |insn| then FieldHit(data, rva, base, end, reject) else []
  {
    hits := [];
    if fieldOffset + 4 > |insn| {
      return;
    }
    var raw := Get(insn, fieldOffset, 4);
    GetMoved(insn, fieldOffset, data, rva, 4);
    if raw < base || raw >= end {
      return;
    }
    if reject(rva) {
      return;
    }
    hits := [Hit(rva, raw)];
  }

  /** A stretch of the section's code is the same stretch of the image. */
  lemma {:induction false} CodeSlice(data: bytes, a: Area, pos: nat, len: nat, f: nat)
    requires a.rva + a.size <= |data| && pos + len <= a.size && f + 4 <= len
    ensures Code(data, a)[pos..pos + len][f..f + 4] == data[a.rva + pos + f..a.rva + pos + f + 4]
  {
    SliceTwice(Code(data, a), pos, len, f, 4);
    SliceTwice(data, a.rva, a.size, pos + f, 4);
  }

  lemma {:induction false} FieldHitsConcat(data: bytes, at: nat, fs: seq<nat>, gs: seq<nat>, base: u32, end: u32,
      reject: u32 -> bool)
    ensures FieldHits(data, at, fs + gs, base, end, reject)
         == FieldHits(data, at, fs, base, end, reject) + FieldHits(data, at, gs, base, end, reject)
  {
    hide FieldHit;
    if fs == [] {
      assert fs + gs == gs;
    } else {
      assert (fs + gs)[1..] == fs[1..] + gs && (fs + gs)[0] == fs[0];
      FieldHitsConcat(data, at, fs[1..], gs, base, end, reject);
      Regroup(FieldHit(data, at + fs[0], base, end, reject), FieldHits(data, at, fs[1..], base, end, reject),
              FieldHits(data, at, gs, base, end, reject));
    }
  }

  lemma {:induction false} OneField(data: bytes, at: nat, f: nat, base: u32, end: u32, reject: u32 -> bool)
    ensures FieldHits(data, at, [f], base, end, reject) == FieldHit(data, at + f, base, end, reject)
  {
    hide FieldHit;
    assert [f][1..] == [];
  }

  /** What one instruction contributes. */
  method CollectInsn(data: bytes, a: Area, pos: nat, i: Insn, base: u32, end: u32, reject: u32 -> bool)
    returns (hits: seq<Hit>)
    requires a.rva + a.size <= |data| <= TWO32 && pos < a.size
    requires i.Insn? && WellFormed(i, a.size - pos)
    ensures hits == FieldHits(data, a.rva + pos, Fields(i), base, end, reject)
  {
    hide FieldHits;
    var baseIp, insn := a.rva + pos, Code(data, a)[pos..pos + i.len];
    var disp, imm: seq<Hit> := [], [];
    if i.dispSize == 4 {
      CodeSlice(data, a, pos, i.len, i.dispOffset);
      disp := CollectField(data, a, pos, insn, i.dispOffset, base, end, reject);
    }
    if i.immSize == 4 && !IsRelativeBranch(i) {
      CodeSlice(data, a, pos, i.len, i.immOffset);
      imm := CollectField(data, a, pos, insn, i.immOffset, base, end, reject);
    }
    hits := disp + imm;
    hide Code;
    FieldHitsNone(data, baseIp, base, end, reject);
    FieldHitsConcat(data, baseIp, if i.dispSize == 4 then [i.dispOffset] else [],
                    if i.immSize == 4 && !IsRelativeBranch(i) then [i.immOffset] else [], base, end, reject);
  }

  lemma {:induction false} FieldHitsNone(data: bytes, at: nat, base: u32, end: u32, reject: u32 -> bool)
    ensures FieldHits(data, at, [], base, end, reject) == []
  {
  }

  method CollectField(data: bytes, a: Area, pos: nat, insn: bytes, f: nat, base: u32, end: u32, reject: u32 -> bool)
    returns (hits: seq<Hit>)
    requires a.rva + a.size <= |data| <= TWO32 && f + 4 <= |insn| && pos + |insn| <= a.size
    requires insn[f..f + 4] == data[a.rva + pos + f..a.rva + pos + f + 4]
    ensures hits == FieldHits(data, a.rva + pos, [f], base, end, reject)
  {
    hide FieldHit, FieldHits;
    hits := Collect(a.rva + pos + f, insn, f, base, end, reject, data);
    OneField(data, a.rva + pos, f, base, end, reject);
  }

  method ScanArea(decode: Decoder, data: bytes, a: Area, base: u32, end: u32, reject: u32 -> bool)
    returns (found: seq<Hit>)
    requires Sound(decode) && a.rva + a.size <= |data| <= TWO32
    ensures found == AreaHits(decode, data, a, 0, base, end, reject)
  {
    hide InsnHits, Code;
    found := [];
    var pos := 0;
    ghost var goal := AreaHits(decode, data, a, 0, base, end, reject);
    while pos < a.size
      invariant found + AreaHits(decode, data, a, pos, base, end, reject) == goal
      decreases a.size - pos
    {
      var insn, hits := ScanInsn(decode, data, a, pos, base, end, reject);
      Regroup(found, hits, AreaHits(decode, data, a, pos + InsnLen(insn), base, end, reject));
      if insn.Invalid? {
        pos := pos + 1;
        continue;
      }
      found := found + hits;
      pos := pos + insn.len;
    }
  }

  lemma {:induction false} Regroup<T>(a: seq<T>, b: seq<T>, c: seq<T>)
    ensures a + (b + c) == (a + b) + c
    ensures b == [] ==> a + b == a
  {
  }

  lemma {:induction false} InsnSound(decode: Decoder, b: bytes)
    requires Sound(decode) && b != [] && decode(b).Insn?
    ensures WellFormed(decode(b), |b|) && decode(b).len > 0
  {
  }

  method ScanInsn(decode: Decoder, data: bytes, a: Area, pos: nat, base: u32, end: u32, reject: u32 -> bool)
    returns (insn: Insn, hits: seq<Hit>)
    requires Sound(decode) && a.rva + a.size <= |data| <= TWO32 && pos < a.size
    ensures insn == decode(Code(data, a)[pos..])
    ensures insn.Insn? ==> insn.len > 0
    ensures hits == InsnHits(decode, data, a, pos, base, end, reject)
    ensures insn.Invalid? ==> hits == []
  {
    hide FieldHits, Fields, Sound, WellFormed;
    insn, hits := decode(Code(data, a)[pos..]), [];
    if insn.Insn? {
      InsnSound(decode, Code(data, a)[pos..]);
      hits := CollectInsn(data, a, pos, insn, base, end, reject);
    }
  }

  method ScanCodeRelocations(decode: Decoder, data: bytes, imageBase: u32, imageSize: u32, areas: seq<Area>,
      reject: u32 -> bool)
    returns (found: seq<Hit>)
    requires Sound(decode) && |data| <= TWO32
    ensures Increasing(found)
    ensures var hits := AllHits(decode, data, areas, imageBase, SaturatingAdd(imageBase, imageSize), reject);
      forall h :: h in found <==> h in hits
    ensures var end := if imageBase + imageSize < 0x1_0000_0000 then imageBase + imageSize else 0xFFFF_FFFF;
      forall rva: u32 :: Names(found, rva)
        <==>
        && AddressIn(decode, data, areas, rva) && rva + 4 <= |data| && imageBase <= Get(data, rva, 4) < end
        && !reject(rva)
  {
    hide AllHits, AddressIn, Sound, Get, Names;
    var end := SaturatingAdd(imageBase, imageSize);
    found := ScanAreas(decode, data, areas, imageBase, end, reject);
    ghost var hits := found;
    HitsAreOperands(decode, data, areas, imageBase, end, reject, 0);
    found := SortByRva(found);
    found := DedupByRva(found);
    forall rva: u32
      ensures Names(found, rva)
        <==>
        && AddressIn(decode, data, areas, rva) && rva + 4 <= |data| && imageBase <= Get(data, rva, 4) < end
        && !reject(rva)
    {
      SameNames(found, hits, rva);
      SameNames(hits, found, rva);
      ScanNamesIff(decode, data, areas, imageBase, end, reject, rva);
    }
  }

  lemma {:induction false} SameNames(a: seq<Hit>, b: seq<Hit>, rva: nat)
    requires forall x :: x in a <==> x in b
    ensures Names(a, rva) ==> Names(b, rva)
  {
    if Names(a, rva) {
      var k :| 0 <= k < |a| && a[k].rva == rva;
      assert a[k] in b;
      var l :| 0 <= l < |b| && b[l] == a[k];
      assert b[l].rva == rva;
    }
  }

  method ScanAreas(decode: Decoder, data: bytes, areas: seq<Area>, base: u32, end: u32, reject: u32 -> bool)
    returns (found: seq<Hit>)
    requires Sound(decode) && |data| <= TWO32
    ensures found == AllHits(decode, data, areas, base, end, reject)
  {
    hide AreaHits;
    found := [];
    for n := 0 to |areas|
      invariant found + AllHits(decode, data, areas[n..], base, end, reject)
          == AllHits(decode, data, areas, base, end, reject)
    {
      var a := areas[n];
      ghost var rest := AllHits(decode, data, areas[n + 1..], base, end, reject);
      assert areas[n..][1..] == areas[n + 1..];
      if !Executable(a) {
        Regroup(found, [], rest);
        continue;
      }
      if a.rva + a.size > |data| || a.size == 0 {
        Regroup(found, [], rest);
        continue;
      }
      var hits := ScanArea(decode, data, a, base, end, reject);
      Regroup(found, hits, rest);
      found := found + hits;
    }
  }

  // ---- Sorting and deduplicating by RVA -------------------------------------------------

  ghost predicate Ascending(hs: seq<Hit>)
  {
    forall i, j :: 0 <= i < j < |hs| ==> hs[i].rva <= hs[j].rva
  }

  ghost predicate Increasing(hs: seq<Hit>)
  {
    forall i, j :: 0 <= i < j < |hs| ==> hs[i].rva < hs[j].rva
  }

  /** The library's unstable sort, of which only the order and the contents matter. */
  method SortByRva(hs: seq<Hit>) returns (r: seq<Hit>)
    ensures Ascending(r)
    ensures forall h :: h in r <==> h in hs
  {
    r := [];
    for i := 0 to |hs|
      invariant Ascending(r)
      invariant forall h :: h in r <==> h in hs[..i]
    {
      var k := 0;
      while k < |r| && r[k].rva <= hs[i].rva
        invariant k <= |r| && forall j :: 0 <= j < k ==> r[j].rva <= hs[i].rva
      {
        k := k + 1;
      }
      assert hs[..i + 1] == hs[..i] + [hs[i]];
      InsertKeepsOrder(r, k, hs[i]);
      r := r[..k] + [hs[i]] + r[k..];
    }
    assert hs[..|hs|] == hs;
  }

  lemma {:induction false} InsertKeepsOrder(r: seq<Hit>, k: nat, h: Hit)
    requires Ascending(r) && k <= |r|
    requires forall j :: 0 <= j < k ==> r[j].rva <= h.rva
    requires k < |r| ==> h.rva < r[k].rva
    ensures Ascending(r[..k] + [h] + r[k..])
    ensures forall g :: g in r[..k] + [h] + r[k..] <==> g in r || g == h
  {
    assert r == r[..k] + r[k..];
    var s := r[..k] + [h] + r[k..];
    forall i, j | 0 <= i < j < |s| ensures s[i].rva <= s[j].rva {
      if j > k {
        assert s[j] == r[j - 1] && r[k].rva <= r[j - 1].rva;
      }
    }
  }

  lemma {:induction false} AppendIncreasing(r: seq<Hit>, x: Hit)
    requires Increasing(r) && (r != [] ==> r[|r| - 1].rva < x.rva)
    ensures Increasing(r + [x])
  {
  }

  /** The two neighbours of a step are in order, and one hit if they share their RVA. */
  lemma {:induction false} Neighbours(hs: seq<Hit>, i: nat)
    requires Ascending(hs) && 0 < i < |hs|
    requires forall g, h :: g in hs && h in hs && g.rva == h.rva ==> g == h
    ensures hs[i - 1].rva < hs[i].rva || hs[i - 1] == hs[i]
  {
  }

  /** Keeps the first of every run of hits with the same RVA. */
  method DedupByRva(hs: seq<Hit>) returns (r: seq<Hit>)
    requires Ascending(hs)
    requires forall g, h :: g in hs && h in hs && g.rva == h.rva ==> g == h
    ensures Increasing(r)
    ensures forall h :: h in r <==> h in hs
  {
    hide Ascending;
    r := [];
    for i := 0 to |hs|
      invariant Increasing(r)
      invariant forall h :: h in r <==> h in hs[..i]
      invariant r != [] ==> i > 0 && r[|r| - 1] == hs[i - 1]
      invariant r == [] ==> i == 0
    {
      assert hs[..i + 1] == hs[..i] + [hs[i]];
      if i > 0 {
        Neighbours(hs, i);
      }
      if r == [] || r[|r| - 1].rva != hs[i].rva {
        AppendIncreasing(r, hs[i]);
        r := r + [hs[i]];
      }
    }
    assert hs[..|hs|] == hs;
  }

  // ---- What the hits are ----------------------------------------------------------------

  ghost predicate Names(hs: seq<Hit>, rva: nat)
  {
    exists k :: 0 <= k < |hs| && hs[k].rva == rva
  }

  lemma {:induction false} NamesConcat(a: seq<Hit>, b: seq<Hit>, rva: nat)
    ensures Names(a + b, rva) <==> Names(a, rva) || Names(b, rva)
  {
    if Names(a, rva) {
      var k :| 0 <= k < |a| && a[k].rva == rva;
      assert (a + b)[k] == a[k];
    }
    if Names(b, rva) {
      var k :| 0 <= k < |b| && b[k].rva == rva;
      assert (a + b)[|a| + k] == b[k];
    }
  }

  /** Every hit carries the dword that stands at its RVA. */
  ghost predicate Faithful(hs: seq<Hit>, data: bytes)
  {
    forall h :: h in hs ==> h.rva + 4 <= |data| && h.target == Get(data, h.rva, 4)
  }

  lemma {:induction false} FieldHitsAre(data: bytes, at: nat, fs: seq<nat>, base: u32, end: u32,
      reject: u32 -> bool, rva: nat)
    ensures Faithful(FieldHits(data, at, fs, base, end, reject), data)
    ensures Names(FieldHits(data, at, fs, base, end, reject), rva)
      <==> at <= rva && rva - at in fs && Accepted(data, rva, base, end, reject)
  {
    if fs != [] {
      FieldHitsAre(data, at, fs[1..], base, end, reject, rva);
      var first := FieldHit(data, at + fs[0], base, end, reject);
      NamesConcat(first, FieldHits(data, at, fs[1..], base, end, reject), rva);
      assert fs == [fs[0]] + fs[1..];
      if first != [] && rva == at + fs[0] {
        assert first[0].rva == rva;
      }
    }
  }

  /** rva is an address field of the instruction decoded at position p of the area. */
  ghost predicate FieldAt(decode: Decoder, data: bytes, a: Area, p: nat, rva: nat)
    requires a.rva + a.size <= |data|
  {
    p < a.size && a.rva + p <= rva
    && var i := decode(Code(data, a)[p..]); i.Insn? && HoldsAddress(i, rva - a.rva - p)
  }

  /** A 32-bit displacement, or a 32-bit immediate unless it is the distance a call or jump covers. */
  predicate HoldsAddress(i: Insn, f: nat)
    requires i.Insn?
  {
    || (i.dispSize == 4 && f == i.dispOffset)
    || (i.immSize == 4 && f == i.immOffset
        && !(i.nearBranch32
             && (i.flow == Call || i.flow == IndirectCall || i.flow == UnconditionalBranch
                 || i.flow == ConditionalBranch)))
  }

  lemma {:induction false} FieldsAre(i: Insn, f: nat)
    requires i.Insn?
    ensures f in Fields(i) <==> HoldsAddress(i, f)
  {
  }

  /** rva is an address field of an instruction the sweep decodes from position pos on. */
  ghost predicate FieldFrom(decode: Decoder, data: bytes, a: Area, pos: nat, rva: nat)
    requires Sound(decode) && a.rva + a.size <= |data|
  {
    exists p :: p in Sweep(decode, Code(data, a), pos) && FieldAt(decode, data, a, p, rva)
  }

  lemma {:induction false} InsnHitsAre(decode: Decoder, data: bytes, a: Area, pos: nat, base: u32, end: u32,
      reject: u32 -> bool, rva: nat)
    requires a.rva + a.size <= |data| && pos < a.size
    ensures Faithful(InsnHits(decode, data, a, pos, base, end, reject), data)
    ensures Names(InsnHits(decode, data, a, pos, base, end, reject), rva)
      <==> FieldAt(decode, data, a, pos, rva) && Accepted(data, rva, base, end, reject)
  {
    hide Accepted, Get;
    var i := decode(Code(data, a)[pos..]);
    if i.Insn? {
      FieldHitsAre(data, a.rva + pos, Fields(i), base, end, reject, rva);
      if a.rva + pos <= rva {
        FieldsAre(i, rva - a.rva - pos);
      }
    }
  }

  lemma {:induction false} FieldFromCons(decode: Decoder, data: bytes, a: Area, pos: nat, rva: nat)
    requires Sound(decode) && a.rva + a.size <= |data| && pos < a.size
    ensures FieldFrom(decode, data, a, pos, rva)
      <==>
      || FieldAt(decode, data, a, pos, rva)
      || FieldFrom(decode, data, a, pos + InsnLen(decode(Code(data, a)[pos..])), rva)
  {
    hide FieldAt;
    var code := Code(data, a);
    var next := pos + InsnLen(decode(code[pos..]));
    assert Sweep(decode, code, pos) == [pos] + Sweep(decode, code, next);
    if FieldFrom(decode, data, a, pos, rva) {
      var p :| p in Sweep(decode, code, pos) && FieldAt(decode, data, a, p, rva);
      assert p == pos || p in Sweep(decode, code, next);
    }
    if FieldAt(decode, data, a, pos, rva) {
      assert pos in Sweep(decode, code, pos);
    }
    if FieldFrom(decode, data, a, next, rva) {
      var p :| p in Sweep(decode, code, next) && FieldAt(decode, data, a, p, rva);
      assert p in Sweep(decode, code, pos);
    }
  }

  lemma {:induction false} AreaHitsAre(decode: Decoder, data: bytes, a: Area, pos: nat, base: u32, end: u32,
      reject: u32 -> bool, rva: nat)
    requires Sound(decode) && a.rva + a.size <= |data|
    ensures Faithful(AreaHits(decode, data, a, pos, base, end, reject), data)
    ensures Names(AreaHits(decode, data, a, pos, base, end, reject), rva)
      <==> FieldFrom(decode, data, a, pos, rva) && Accepted(data, rva, base, end, reject)
    decreases a.size - pos
  {
    hide InsnHits, FieldAt, Accepted;
    if pos < a.size {
      var next := pos + InsnLen(decode(Code(data, a)[pos..]));
      InsnHitsAre(decode, data, a, pos, base, end, reject, rva);
      AreaHitsAre(decode, data, a, next, base, end, reject, rva);
      NamesConcat(InsnHits(decode, data, a, pos, base, end, reject), AreaHits(decode, data, a, next, base, end, reject),
                  rva);
      FieldFromCons(decode, data, a, pos, rva);
    } else {
      SweepBounds(decode, Code(data, a), pos);
    }
  }

  /** rva is an address field of an instruction on the sweep of one of the executable areas. */
  ghost predicate Operand(decode: Decoder, data: bytes, areas: seq<Area>, rva: nat)
    requires Sound(decode)
  {
    exists n :: 0 <= n < |areas| && Scannable(data, areas[n]) && FieldFrom(decode, data, areas[n], 0, rva)
  }

  lemma {:induction false} OperandCons(decode: Decoder, data: bytes, areas: seq<Area>, rva: nat)
    requires Sound(decode) && areas != []
    ensures Operand(decode, data, areas, rva)
      <==>
      || (Scannable(data, areas[0]) && FieldFrom(decode, data, areas[0], 0, rva))
      || Operand(decode, data, areas[1..], rva)
  {
    hide FieldFrom;
    if Operand(decode, data, areas[1..], rva) {
      var n :| 0 <= n < |areas[1..]| && Scannable(data, areas[1..][n])
          && FieldFrom(decode, data, areas[1..][n], 0, rva);
      assert areas[n + 1] == areas[1..][n];
    }
    if Operand(decode, data, areas, rva) {
      var n :| 0 <= n < |areas| && Scannable(data, areas[n]) && FieldFrom(decode, data, areas[n], 0, rva);
      if n > 0 {
        assert areas[1..][n - 1] == areas[n];
      }
    }
  }

  /**
   * The scan names exactly the address fields of the resynchronising sweep over the executable areas
   * whose dword points into the image and is not protected, each with that dword as its target.
   */
  lemma {:induction false} HitsAreOperands(decode: Decoder, data: bytes, areas: seq<Area>, base: u32, end: u32,
      reject: u32 -> bool, rva: nat)
    requires Sound(decode)
    ensures Faithful(AllHits(decode, data, areas, base, end, reject), data)
    ensures Names(AllHits(decode, data, areas, base, end, reject), rva)
       <==> Operand(decode, data, areas, rva) && Accepted(data, rva, base, end, reject)
  {
    hide AreaHits, FieldFrom, Accepted, Scannable;
    if areas != [] {
      var a, rest := areas[0], areas[1..];
      HitsAreOperands(decode, data, rest, base, end, reject, rva);
      OperandCons(decode, data, areas, rva);
      if Scannable(data, a) {
        AreaFits(data, a);
        AreaHitsAre(decode, data, a, 0, base, end, reject, rva);
        NamesConcat(AreaHits(decode, data, a, 0, base, end, reject), AllHits(decode, data, rest, base, end, reject),
                    rva);
      } else {
        assert AllHits(decode, data, areas, base, end, reject) == AllHits(decode, data, rest, base, end, reject);
      }
    }
  }

  lemma {:induction false} AreaFits(data: bytes, a: Area)
    requires Scannable(data, a)
    ensures a.rva + a.size <= |data|
  {
  }

  // ---- The rule, instruction by instruction --------------------------------------------------------------

  /**
   * steps are the positions the sweep of the code comes to, p being the last: it starts at 0 and goes on behind
   * each decoded instruction, or one byte on where none can be decoded.
   */
  ghost predicate Sweeps(decode: Decoder, code: bytes, steps: seq<nat>, p: nat)
  {
    && steps != [] && steps[0] == 0 && steps[|steps| - 1] == p && (forall k :: 0 <= k < |steps| ==> steps[k] < |code|)
    && forall k :: 0 <= k < |steps| - 1 ==> StepsTo(decode, code, steps[k], steps[k + 1])
  }

  predicate StepsTo(decode: Decoder, code: bytes, p: nat, q: nat)
  {
    p < |code| && q == p + (if decode(code[p..]).Insn? then decode(code[p..]).len else 1)
  }

  ghost predicate ComesTo(decode: Decoder, code: bytes, p: nat)
  {
    exists steps: seq<nat> :: Sweeps(decode, code, steps, p)
  }

  lemma {:induction false} SweepNext(decode: Decoder, code: bytes, pos: nat, p: nat)
    requires Sound(decode) && p in Sweep(decode, code, pos)
    ensures p < |code|
    ensures var q := p + InsnLen(decode(code[p..])); q < |code| ==> q in Sweep(decode, code, pos)
    decreases |code| - pos
  {
    var next := pos + InsnLen(decode(code[pos..]));
    assert Sweep(decode, code, pos) == [pos] + Sweep(decode, code, next);
    if p != pos {
      SweepNext(decode, code, next, p);
    } else if next < |code| {
      assert next in Sweep(decode, code, next);
    }
  }

  lemma {:induction false} StepsSwept(decode: Decoder, code: bytes, steps: seq<nat>, p: nat)
    requires Sound(decode) && Sweeps(decode, code, steps, p)
    ensures p in Sweep(decode, code, 0)
    decreases |steps|
  {
    if |steps| > 1 {
      var front := steps[..|steps| - 1];
      StepsSwept(decode, code, front, steps[|steps| - 2]);
      assert StepsTo(decode, code, steps[|steps| - 2], steps[|steps| - 2 + 1]);
      SweepNext(decode, code, 0, steps[|steps| - 2]);
    }
  }

  lemma {:induction false} StepsAfter(decode: Decoder, code: bytes, pos: nat, p: nat, before: seq<nat>)
    requires Sound(decode) && p in Sweep(decode, code, pos) && pos < |code| && Sweeps(decode, code, before, pos)
    ensures ComesTo(decode, code, p)
    decreases |code| - pos
  {
    if p != pos {
      var next := pos + InsnLen(decode(code[pos..]));
      SweepBounds(decode, code, next);
      var steps := before + [next];
      forall k | 0 <= k < |steps| - 1 ensures StepsTo(decode, code, steps[k], steps[k + 1]) {
        if k < |before| - 1 {
          assert StepsTo(decode, code, before[k], before[k + 1]);
        }
      }
      StepsAfter(decode, code, next, p, steps);
    }
  }

  /** The sweep decodes exactly the positions it comes to. */
  lemma {:induction false} SweepIs(decode: Decoder, code: bytes, p: nat)
    requires Sound(decode)
    ensures p in Sweep(decode, code, 0) <==> ComesTo(decode, code, p)
  {
    if p in Sweep(decode, code, 0) {
      assert Sweeps(decode, code, [0], 0);
      StepsAfter(decode, code, 0, p, [0]);
    }
    if steps: seq<nat> :| Sweeps(decode, code, steps, p) {
      StepsSwept(decode, code, steps, p);
    }
  }

  /**
   * The sweep of area a comes to an instruction at p whose constant at rva is an address: a 32-bit displacement,
   * or a 32-bit immediate that is not the near target of a call, an indirect call or a jump.
   */
  ghost predicate AddressAt(decode: Decoder, data: bytes, a: Area, p: nat, rva: nat)
  {
    && a.chars / 0x2000_0000 % 2 == 1 && a.rva + a.size <= |data| && p < a.size
    && ComesTo(decode, data[a.rva..a.rva + a.size], p)
    && var i := decode(data[a.rva + p..a.rva + a.size]);
       && i.Insn?
       && ((i.dispSize == 4 && rva == a.rva + p + i.dispOffset)
           || (i.immSize == 4 && rva == a.rva + p + i.immOffset
               && !(i.nearBranch32
                    && (i.flow == Call || i.flow == IndirectCall || i.flow == UnconditionalBranch
                        || i.flow == ConditionalBranch))))
  }

  lemma {:induction false} AddressIff(decode: Decoder, data: bytes, a: Area, p: nat, rva: nat)
    requires Sound(decode)
    ensures AddressAt(decode, data, a, p, rva)
       <==> Scannable(data, a) && p in Sweep(decode, Code(data, a), 0) && FieldAt(decode, data, a, p, rva)
  {
    hide Sweep, ComesTo, Sound;
    if a.rva + a.size <= |data| && p < a.size {
      SweepIs(decode, Code(data, a), p);
      assert Code(data, a)[p..] == data[a.rva + p..a.rva + a.size];
    }
  }

  ghost predicate AddressIn(decode: Decoder, data: bytes, areas: seq<Area>, rva: nat)
  {
    exists n, p: nat :: 0 <= n < |areas| && AddressAt(decode, data, areas[n], p, rva)
  }

  lemma {:induction false} OperandIff(decode: Decoder, data: bytes, areas: seq<Area>, rva: nat)
    requires Sound(decode)
    ensures Operand(decode, data, areas, rva) <==> AddressIn(decode, data, areas, rva)
  {
    hide Sweep, AddressAt, Sound, FieldAt, Code;
    if Operand(decode, data, areas, rva) {
      var n :| 0 <= n < |areas| && Scannable(data, areas[n]) && FieldFrom(decode, data, areas[n], 0, rva);
      var p := FieldWitness(decode, data, areas[n], rva);
      AddressIff(decode, data, areas[n], p, rva);
    }
    if n, p: nat :| 0 <= n < |areas| && AddressAt(decode, data, areas[n], p, rva) {
      AddressIff(decode, data, areas[n], p, rva);
      AreaFits(data, areas[n]);
      assert FieldFrom(decode, data, areas[n], 0, rva);
    }
  }

  /**
   * An RVA is named exactly if it is that of an address constant of an instruction the sweep of an executable
   * section comes to, its dword points into the image, and nothing protects it.
   */
  lemma {:induction false} ScanNamesIff(decode: Decoder, data: bytes, areas: seq<Area>, base: u32, end: u32,
      reject: u32 -> bool, rva: u32)
    requires Sound(decode)
    ensures Names(AllHits(decode, data, areas, base, end, reject), rva)
       <==> AddressIn(decode, data, areas, rva) && rva + 4 <= |data| && base <= Get(data, rva, 4) < end && !reject(rva)
  {
    hide AllHits, Operand, AddressIn, Get, Sound;
    HitsAreOperands(decode, data, areas, base, end, reject, rva);
    OperandIff(decode, data, areas, rva);
  }

  // ---- The fields never overlap -----------------------------------------------------------

  lemma {:induction false} SweepBounds(decode: Decoder, code: bytes, pos: nat)
    requires Sound(decode)
    ensures forall p :: p in Sweep(decode, code, pos) ==> pos <= p < |code|
    decreases |code| - pos
  {
    if pos < |code| {
      SweepBounds(decode, code, pos + InsnLen(decode(code[pos..])));
    }
  }

  /** The sweep steps from one position to the next by the decoded length. */
  lemma {:induction false} SweepSteps(decode: Decoder, code: bytes, pos: nat, p: nat, q: nat)
    requires Sound(decode)
    requires p in Sweep(decode, code, pos) && q in Sweep(decode, code, pos) && p < q
    ensures p < |code| && p + InsnLen(decode(code[p..])) <= q
    decreases |code| - pos
  {
    var next := pos + InsnLen(decode(code[pos..]));
    SweepBounds(decode, code, next);
    if p != pos {
      SweepSteps(decode, code, next, p, q);
    }
  }

  lemma {:induction false} FieldInInsn(decode: Decoder, data: bytes, a: Area, p: nat, rva: nat)
    requires Sound(decode) && a.rva + a.size <= |data| && FieldAt(decode, data, a, p, rva)
    ensures p < a.size == |Code(data, a)|
    ensures var i := decode(Code(data, a)[p..]);
            i.Insn? && WellFormed(i, a.size - p) && InsnLen(i) == i.len && a.rva + p <= rva
            && HoldsAddress(i, rva - a.rva - p) && rva + 4 <= a.rva + p + i.len <= a.rva + a.size
  {
    assert Code(data, a)[p..] != [];
  }

  lemma {:induction false} FieldWitness(decode: Decoder, data: bytes, a: Area, rva: nat) returns (p: nat)
    requires Sound(decode) && a.rva + a.size <= |data| && FieldFrom(decode, data, a, 0, rva)
    ensures p in Sweep(decode, Code(data, a), 0) && FieldAt(decode, data, a, p, rva)
  {
    hide FieldAt, Code, Sound;
    p :| p in Sweep(decode, Code(data, a), 0) && FieldAt(decode, data, a, p, rva);
  }

  /** Two different address fields of one area are four bytes apart. */
  lemma {:induction false} AreaFieldsDisjoint(decode: Decoder, data: bytes, a: Area, x: nat, y: nat)
    requires Sound(decode) && a.rva + a.size <= |data|
    requires FieldFrom(decode, data, a, 0, x) && FieldFrom(decode, data, a, 0, y) && x < y
    ensures x + 4 <= y && a.rva <= x && y + 4 <= a.rva + a.size
  {
    hide *;
    var code := Code(data, a);
    var p := FieldWitness(decode, data, a, x);
    var q := FieldWitness(decode, data, a, y);
    FieldInInsn(decode, data, a, p, x);
    FieldInInsn(decode, data, a, q, y);
    if p != q {
      InsnsApart(decode, code, p, q, x - a.rva, y - a.rva);
    } else {
      FieldsOfOneInsn(decode(code[p..]), a.size - p, x - a.rva - p, y - a.rva - p);
    }
  }

  /** Bytes of two different instructions of the sweep: the lower instruction ends before the upper one starts. */
  lemma {:induction false} InsnsApart(decode: Decoder, code: bytes, p: nat, q: nat, x: nat, y: nat)
    requires Sound(decode) && p < |code| && q < |code| && p != q && x < y
    requires p in Sweep(decode, code, 0) && q in Sweep(decode, code, 0)
    requires p <= x && x + 4 <= p + InsnLen(decode(code[p..]))
    requires q <= y && y + 4 <= q + InsnLen(decode(code[q..]))
    ensures x + 4 <= y
  {
    if p < q {
      SweepSteps(decode, code, 0, p, q);
    } else {
      SweepSteps(decode, code, 0, q, p);
    }
  }

  lemma {:induction false} FieldsOfOneInsn(i: Insn, n: nat, f: nat, g: nat)
    requires i.Insn? && WellFormed(i, n) && HoldsAddress(i, f) && HoldsAddress(i, g) && f < g
    ensures f + 4 <= g
  {
  }

  ghost predicate DisjointAreas(areas: seq<Area>)
  {
    forall i, j :: 0 <= i < j < |areas| ==>
      areas[i].rva + areas[i].size <= areas[j].rva || areas[j].rva + areas[j].size <= areas[i].rva
  }

  /** Over disjoint sections no two relocated dwords overlap. */
  lemma {:induction false} OperandsDisjoint(decode: Decoder, data: bytes, areas: seq<Area>, x: nat, y: nat)
    requires Sound(decode) && DisjointAreas(areas)
    requires Operand(decode, data, areas, x) && Operand(decode, data, areas, y) && x < y
    ensures x + 4 <= y
  {
    var m :| 0 <= m < |areas| && Scannable(data, areas[m]) && FieldFrom(decode, data, areas[m], 0, x);
    var n :| 0 <= n < |areas| && Scannable(data, areas[n]) && FieldFrom(decode, data, areas[n], 0, y);
    if m == n {
      AreaFieldsDisjoint(decode, data, areas[m], x, y);
    } else {
      FieldWithin(decode, data, areas[m], x);
      FieldWithin(decode, data, areas[n], y);
    }
  }

  lemma {:induction false} FieldWithin(decode: Decoder, data: bytes, a: Area, rva: nat)
    requires Sound(decode) && a.rva + a.size <= |data| && FieldFrom(decode, data, a, 0, rva)
    ensures a.rva <= rva && rva + 4 <= a.rva + a.size
  {
    var p :| p in Sweep(decode, Code(data, a), 0) && FieldAt(decode, data, a, p, rva);
    FieldInInsn(decode, data, a, p, rva);
  }
}
