/** Rewriting runtime pointers to the file's image base (fix_hardcoded_addresses in crates/pe/src/postprocess.rs). */
module AddressFix {
  import opened Options
  import opened Words
  import opened Pe

  /** The base the image ran at, the base its file announces, and the image size. */
  datatype Bases = Bases(runtime: u64, file: u64, size: u32)

  /** The end of the running image is a 64-bit address; the program stops if it is not. */
  predicate Reaches(b: Bases) { b.runtime + b.size < TWO64 }

  /** The word is taken for a pointer into the running image, and the two bases differ. */
  predicate Stale(v: nat, b: Bases) { v != 0 && b.runtime <= v < b.runtime + b.size && b.file != b.runtime }

  function FixWord(v: nat, b: Bases): nat { if Stale(v, b) then (v + b.file - b.runtime) % TWO64 else v }

  /** Only 8-byte slots are ever rewritten: a 4-byte one is never read as an address. */
  function FixSlot(buf: bytes, o: nat, w: nat, b: Bases): (r: bytes)
    requires o + w <= |buf|
    ensures |r| == |buf|
  {
    if w == 8 && Stale(Get(buf, o, 8), b) then Put(buf, o, Le(FixWord(Get(buf, o, 8), b), 8)) else buf
  }

  /** The slots from o up to end; None when the last one runs past the buffer, where the program panics. */
  function FixRange(buf: bytes, o: nat, end: nat, w: nat, b: Bases): Option<bytes>
    requires w > 0
    decreases end - o
  {
    if o >= end then Some(buf)
    else if o + w > |buf| then None
    else FixRange(FixSlot(buf, o, w, b), o + w, end, w, b)
  }

  /** Not code, and not an uninitialized section that is empty in the buffer. */
  predicate Scanned(buf: bytes, s: Section)
  {
    !Executable(s) && (Uninitialized(s) ==> HasData(buf, s)) && s.rawOffset + s.rawSize <= |buf|
  }

  function FixSection(buf: bytes, s: Section, w: nat, b: Bases): Option<bytes>
    requires w > 0
  {
    if Scanned(buf, s) then FixRange(buf, s.rawOffset, s.rawOffset + s.rawSize, w, b) else Some(buf)
  }

  function FixSections(buf: bytes, ss: seq<Section>, w: nat, b: Bases): Option<bytes>
    requires w > 0
    decreases |ss|
  {
    if ss == [] then Some(buf)
    else
      match FixSection(buf, ss[0], w, b)
      case None => None
      case Some(next) => FixSections(next, ss[1..], w, b)
  }

  function BasesOf(h: Header, runtime: Option<u64>): Bases
  {
    Bases(if runtime.Some? then runtime.value else h.imageBase, h.imageBase, h.sizeOfImage)
  }

  // ---- The rewriting as the program runs it ---------------------------------------------------

  method CheckData(out: array<u8>, s: Section) returns (r: bool)
    ensures r == HasData(out[..], s)
  {
    r := false;
    if s.rawOffset + s.rawSize > out.Length {
      return;
    }
    var k := s.rawOffset;
    while k < s.rawOffset + s.rawSize
      invariant s.rawOffset <= k <= s.rawOffset + s.rawSize
      invariant forall i :: s.rawOffset <= i < k ==> out[i] == 0
    {
      if out[k] != 0 {
        assert out[..][k] != 0;
        return true;
      }
      k := k + 1;
    }
    assert forall i :: s.rawOffset <= i < k ==> out[..][i] == out[i];
  }

  lemma {:induction false} WrappingAdd(v: nat, b: Bases)
    ensures (v + (b.file - b.runtime) % TWO64) % TWO64 == (v + b.file - b.runtime) % TWO64
    ensures (b.file - b.runtime) % TWO64 == 0 <==> b.file == b.runtime
  {
    var d := b.file - b.runtime;
    var m := d % TWO64;
    assert d == TWO64 * (d / TWO64) + m;
    ModUnique(v + d, TWO64, d / TWO64 + (v + m) / TWO64, (v + m) % TWO64);
    if d < 0 {
      ModUnique(d, TWO64, -1, d + TWO64);
    } else {
      ModUnique(d, TWO64, 0, d);
    }
  }

  /** delta is the difference of the bases as a wrapped 64-bit word. */
  method TryFixAddress(out: array<u8>, o: nat, delta: u64, w: nat, b: Bases) returns (fixed: Option<u64>)
    requires o + w <= out.Length && delta == (b.file - b.runtime) % TWO64
    ensures fixed == if w == 8 && Stale(Get(out[..], o, 8), b) then Some(FixWord(Get(out[..], o, 8), b)) else None
  {
    hide Get;
    fixed := None;
    if w != 8 {
      return;
    }
    var addr := Get(out[..], o, 8);
    if addr == 0 {
      return;
    }
    WrappingAdd(addr, b);
    if b.runtime <= addr < b.runtime + b.size && delta != 0 {
      fixed := Some((addr + delta) % TWO64);
    }
  }

  method FixSectionSlots(out: array<u8>, s: Section, w: nat, delta: u64, b: Bases) returns (ok: bool)
    requires w > 0 && delta == (b.file - b.runtime) % TWO64
    modifies out
    ensures var r := FixRange(old(out[..]), s.rawOffset, s.rawOffset + s.rawSize, w, b);
      ok == r.Some? && (ok ==> out[..] == r.value)
  {
    hide Get, Le, Put, FixWord;
    ok := true;
    var o, end := s.rawOffset, s.rawOffset + s.rawSize;
    while o < end
      invariant FixRange(out[..], o, end, w, b) == FixRange(old(out[..]), s.rawOffset, end, w, b)
      decreases end - o
    {
      if o + w > out.Length {
        return false;
      }
      var fixed := TryFixAddress(out, o, delta, w, b);
      if fixed.Some? {
        CopyInto(out, o, Le(fixed.value, 8));
      }
      o := o + w;
    }
  }

  /** The header is parsed once, from the bytes as they come in. */
  method FixHardcodedAddresses(out: array<u8>, runtimeImageBase: Option<u64>, is64bit: bool) returns (r: Outcome)
    modifies out
    ensures r == NotAnImage <==> Parse(old(out[..])) == None
    ensures r != NotAnImage ==>
      var h := Parse(old(out[..])).value;
      var b := BasesOf(h, runtimeImageBase);
      var f := FixSections(old(out[..]), h.sections, PtrSize(is64bit), b);
      r == (if Reaches(b) && f.Some? then Done else Panic) && (r == Done ==> out[..] == f.value)
    ensures r == NotAnImage ==> out[..] == old(out[..])
    ensures r != NotAnImage && is64bit ==>
      var h := Parse(old(out[..])).value;
      var runtime := if runtimeImageBase.Some? then runtimeImageBase.value else h.imageBase;
      Laid(h.sections, |old(out[..])|) ==>
        && (r == Done <==> runtime + h.sizeOfImage < 0x1_0000_0000_0000_0000)
        && (r == Done ==> AllMoved(old(out[..]), out[..], h.sections, runtime, h.imageBase, h.sizeOfImage))
  {
    hide Parse, FixRange, HasData, Laid, AllMoved;
    var parsed := Parse(out[..]);
    if parsed.None? {
      return NotAnImage;
    }
    var h, w := parsed.value, PtrSize(is64bit);
    var b := BasesOf(h, runtimeImageBase);
    if is64bit && Laid(h.sections, out.Length) {
      WordsMoved(out[..], h.sections, b);
    }
    var delta: u64 := (b.file - b.runtime) % TWO64;
    if b.runtime + b.size >= TWO64 {
      return Panic;
    }
    for i := 0 to |h.sections|
      invariant FixSections(out[..], h.sections[i..], w, b) == FixSections(old(out[..]), h.sections, w, b)
    {
      var s := h.sections[i];
      assert h.sections[i..][0] == s && h.sections[i..][1..] == h.sections[i + 1..];
      if Executable(s) {
        continue;
      }
      if Uninitialized(s) {
        var hasData := CheckData(out, s);
        if !hasData {
          continue;
        }
      }
      if s.rawOffset + s.rawSize > out.Length {
        continue;
      }
      var ok := FixSectionSlots(out, s, w, delta, b);
      if !ok {
        return Panic;
      }
    }
    r := Done;
  }

  // ---- 32-bit images -----------------------------------------------------------------------------

  /** On a 32-bit image nothing changes, whatever the slots hold. */
  lemma {:induction false} NarrowUnchanged(buf: bytes, ss: seq<Section>, b: Bases)
    ensures var r := FixSections(buf, ss, 4, b); r.Some? ==> r.value == buf
    decreases |ss|
  {
    hide HasData;
    if ss != [] {
      if Scanned(buf, ss[0]) {
        NarrowRange(buf, ss[0].rawOffset, ss[0].rawOffset + ss[0].rawSize, b);
      }
      NarrowUnchanged(buf, ss[1..], b);
    }
  }

  lemma {:induction false} NarrowRange(buf: bytes, o: nat, end: nat, b: Bases)
    ensures var r := FixRange(buf, o, end, 4, b); r.Some? ==> r.value == buf
    decreases end - o
  {
    if o < end && o + 4 <= |buf| {
      NarrowRange(buf, o + 4, end, b);
    }
  }

  /** The word rebased within its own width. */
  function Rebased(v: nat, w: nat, b: Bases): nat
  {
    if Stale(v, b) then (v + b.file - b.runtime) % (if w == 8 then TWO64 else TWO32) else v
  }

  /** A slot comes out rebased exactly when it is 8 bytes wide or held no runtime pointer to begin with. */
  lemma {:induction false} RebasedIffWide(buf: bytes, o: nat, w: nat, b: Bases)
    requires (w == 4 && b.file < TWO32) || w == 8
    requires o + w <= |buf|
    ensures Get(FixSlot(buf, o, w, b), o, w) == Rebased(Get(buf, o, w), w, b) <==> w == 8 || !Stale(Get(buf, o, w), b)
  {
    hide Get;
    var v := Get(buf, o, w);
    GetBounds(buf, o, w);
    if w == 8 {
      FixSlotEffect(buf, o, b);
    } else if Stale(v, b) {
      var d := v + b.file - b.runtime;
      ModUnique(d, TWO32, if d < TWO32 then 0 else 1, if d < TWO32 then d else d - TWO32);
    }
  }

  // ---- Every slot of every scanned section ------------------------------------------------------

  /** Slots of a raw range of n bytes; the last one may run past it. */
  function Slots(n: nat): nat { (n + 7) / 8 }

  predicate InExtent(s: Section, k: nat) { s.rawOffset <= k < s.rawOffset + 8 * Slots(s.rawSize) }

  /** The whole slots of both sections have no byte in common. */
  predicate ExtentsApart(s: Section, t: Section)
  {
    s.rawOffset + 8 * Slots(s.rawSize) <= t.rawOffset || t.rawOffset + 8 * Slots(t.rawSize) <= s.rawOffset
  }

  /** All slots lie in n bytes and no two sections share one. */
  ghost predicate Laid(ss: seq<Section>, n: nat)
  {
    && (forall i :: 0 <= i < |ss| ==> ss[i].rawOffset + 8 * Slots(ss[i].rawSize) <= n)
    && (forall i, j :: 0 <= i < j < |ss| ==> ExtentsApart(ss[i], ss[j]))
  }

  lemma {:induction false} FixSlotEffect(buf: bytes, o: nat, b: Bases)
    requires o + 8 <= |buf|
    ensures Get(FixSlot(buf, o, 8, b), o, 8) == FixWord(Get(buf, o, 8), b)
    ensures forall k :: 0 <= k < |buf| && !(o <= k < o + 8) ==> FixSlot(buf, o, 8, b)[k] == buf[k]
  {
    hide Get;
    RangeValues();
    if Stale(Get(buf, o, 8), b) {
      GetPut(buf, o, FixWord(Get(buf, o, 8), b), 8);
    }
  }

  lemma {:induction false} FixRangeEffect(buf: bytes, o: nat, end: nat, n: nat, b: Bases)
    requires o + 8 * n <= |buf| && end <= o + 8 * n && (n == 0 || o + 8 * n < end + 8)
    ensures var r := FixRange(buf, o, end, 8, b);
      && r.Some? && |r.value| == |buf|
      && (forall k :: 0 <= k < |buf| && !(o <= k < o + 8 * n) ==> r.value[k] == buf[k])
      && (forall j: nat :: j < n ==> Get(r.value, o + 8 * j, 8) == FixWord(Get(buf, o + 8 * j, 8), b))
    decreases n
  {
    hide FixSlot, FixWord, Get;
    if n != 0 {
      var next := FixSlot(buf, o, 8, b);
      FixSlotEffect(buf, o, b);
      FixRangeEffect(next, o + 8, end, n - 1, b);
      var r := FixRange(next, o + 8, end, 8, b).value;
      forall j: nat | j < n ensures Get(r, o + 8 * j, 8) == FixWord(Get(buf, o + 8 * j, 8), b) {
        if j == 0 {
          GetFrame(r, next, o, 8);
        } else {
          GetFrame(next, buf, o + 8 * j, 8);
          assert o + 8 * j == o + 8 + 8 * (j - 1);
        }
      }
    }
  }

  /** One section: its slots are fixed, nothing outside them changes. */
  lemma {:induction false} FixSectionEffect(buf: bytes, s: Section, b: Bases)
    requires s.rawOffset + 8 * Slots(s.rawSize) <= |buf|
    ensures var r := FixSection(buf, s, 8, b);
      && r.Some? && |r.value| == |buf|
      && (forall k :: 0 <= k < |buf| && !InExtent(s, k) ==> r.value[k] == buf[k])
      && (Scanned(buf, s) ==> forall j: nat :: j < Slots(s.rawSize) ==>
            Get(r.value, s.rawOffset + 8 * j, 8) == FixWord(Get(buf, s.rawOffset + 8 * j, 8), b))
      && (Executable(s) ==> r.value == buf)
  {
    hide FixWord, Get, HasData;
    FixRangeEffect(buf, s.rawOffset, s.rawOffset + s.rawSize, Slots(s.rawSize), b);
  }

  /** What a section holds depends on its own bytes. */
  lemma {:induction false} ScannedFrame(a: bytes, c: bytes, s: Section)
    requires |a| == |c| && forall k :: s.rawOffset <= k < s.rawOffset + s.rawSize && k < |a| ==> a[k] == c[k]
    ensures Scanned(a, s) == Scanned(c, s)
  {
  }

  lemma {:induction false} LaidTail(ss: seq<Section>, n: nat)
    requires ss != [] && Laid(ss, n)
    ensures Laid(ss[1..], n) && ss[0].rawOffset + 8 * Slots(ss[0].rawSize) <= n
    ensures forall i :: 0 <= i < |ss[1..]| ==> ExtentsApart(ss[0], ss[1..][i])
  {
    hide ExtentsApart;
    forall i, j | 0 <= i < j < |ss[1..]| ensures ExtentsApart(ss[1..][i], ss[1..][j]) {
      assert ExtentsApart(ss[i + 1], ss[j + 1]);
    }
  }

  /** Byte k lies in a slot of a section that holds data, not code. */
  ghost predicate InDataExtent(ss: seq<Section>, k: nat)
  {
    exists i :: 0 <= i < |ss| && !Executable(ss[i]) && InExtent(ss[i], k)
  }

  /** Bytes outside the slots of data sections keep their values. */
  lemma {:induction false} FixFrame(buf: bytes, ss: seq<Section>, b: Bases)
    requires Laid(ss, |buf|)
    ensures var r := FixSections(buf, ss, 8, b);
      && r.Some? && |r.value| == |buf|
      && forall k :: 0 <= k < |buf| && !InDataExtent(ss, k) ==> r.value[k] == buf[k]
    decreases |ss|
  {
    hide FixSection, InExtent, Slots;
    if ss != [] {
      LaidTail(ss, |buf|);
      FixSectionEffect(buf, ss[0], b);
      var next := FixSection(buf, ss[0], 8, b).value;
      FixFrame(next, ss[1..], b);
      forall k | 0 <= k < |buf| && !InDataExtent(ss, k)
        ensures FixSections(buf, ss, 8, b).value[k] == buf[k]
      {
        InDataExtentCons(ss, k);
      }
    }
  }

  lemma {:induction false} InDataExtentCons(ss: seq<Section>, k: nat)
    requires ss != []
    ensures InDataExtent(ss, k) <==> (!Executable(ss[0]) && InExtent(ss[0], k)) || InDataExtent(ss[1..], k)
  {
    hide InExtent, Executable;
    if InDataExtent(ss[1..], k) {
      var i :| 0 <= i < |ss[1..]| && !Executable(ss[1..][i]) && InExtent(ss[1..][i], k);
      assert ss[i + 1] == ss[1..][i];
    }
  }

  /** Bytes of a section that shares no slot with the others are those its own pass leaves. */
  lemma {:induction false} FixApart(buf: bytes, ss: seq<Section>, b: Bases, s: Section, k: nat)
    requires Laid(ss, |buf|) && (forall i :: 0 <= i < |ss| ==> ExtentsApart(s, ss[i])) && InExtent(s, k) && k < |buf|
    ensures var r := FixSections(buf, ss, 8, b); r.Some? && |r.value| == |buf| && r.value[k] == buf[k]
  {
    FixFrame(buf, ss, b);
    assert !InDataExtent(ss, k);
  }

  /**
   * On a 64-bit image whose sections share no slot: every slot of every scanned section ends up
   * rebased if it pointed into the running image, and as it was if not.
   */
  lemma {:induction false} FixSlotwise(buf: bytes, ss: seq<Section>, b: Bases, i: nat, j: nat)
    requires Laid(ss, |buf|) && i < |ss| && Scanned(buf, ss[i]) && j < Slots(ss[i].rawSize)
    ensures var r := FixSections(buf, ss, 8, b); var o := ss[i].rawOffset + 8 * j;
      r.Some? && |r.value| == |buf| && o + 8 <= |buf| && Get(r.value, o, 8) == FixWord(Get(buf, o, 8), b)
    decreases i
  {
    hide FixWord, Get, Scanned, FixSection;
    LaidTail(ss, |buf|);
    FixSectionEffect(buf, ss[0], b);
    var next := FixSection(buf, ss[0], 8, b).value;
    FixFrame(next, ss[1..], b);
    var s, o := ss[i], ss[i].rawOffset + 8 * j;
    if i == 0 {
      var r := FixSections(next, ss[1..], 8, b).value;
      forall k | o <= k < o + 8 ensures r[k] == next[k] {
        FixApart(next, ss[1..], b, s, k);
      }
      GetFrame(r, next, o, 8);
    } else {
      assert ss[1..][i - 1] == s;
      assert ExtentsApart(ss[0], ss[1..][i - 1]);
      assert forall k: nat | InExtent(s, k) && k < |buf| :: !InExtent(ss[0], k);
      ScannedFrame(buf, next, s);
      FixSlotwise(next, ss[1..], b, i - 1, j);
      GetFrame(next, buf, o, 8);
    }
  }

  /** A section that is passed over keeps its bytes. */
  lemma {:induction false} FixPassedOver(buf: bytes, ss: seq<Section>, b: Bases, i: nat, k: nat)
    requires Laid(ss, |buf|) && i < |ss| && !Scanned(buf, ss[i]) && InExtent(ss[i], k) && k < |buf|
    ensures var r := FixSections(buf, ss, 8, b); r.Some? && |r.value| == |buf| && r.value[k] == buf[k]
    decreases i
  {
    hide FixWord, Get, Scanned;
    LaidTail(ss, |buf|);
    FixSectionEffect(buf, ss[0], b);
    var next := FixSection(buf, ss[0], 8, b).value;
    if i == 0 {
      FixApart(next, ss[1..], b, ss[0], k);
    } else {
      assert ss[1..][i - 1] == ss[i] && ExtentsApart(ss[0], ss[1..][i - 1]);
      assert forall x: nat | InExtent(ss[i], x) && x < |buf| :: !InExtent(ss[0], x);
      ScannedFrame(buf, next, ss[i]);
      FixPassedOver(next, ss[1..], b, i - 1, k);
    }
  }

  // ---- The rule, word by word --------------------------------------------------------------------------

  /** Not code; and where it is marked uninitialized, some byte of it is not zero. */
  ghost predicate HoldsData(buf: bytes, s: Section)
  {
    && s.chars / 0x2000_0000 % 2 == 0
    && (s.chars / 0x80 % 2 == 0 || exists k :: s.rawOffset <= k < s.rawOffset + s.rawSize && k < |buf| && buf[k] != 0)
  }

  /** The j-th slot of s: a word into the running image now counts from the file's base, any other is the same. */
  ghost predicate WordMoved(before: bytes, after: bytes, s: Section, j: nat, runtime: u64, file: u64, size: u32)
  {
    var o := s.rawOffset + 8 * j;
    && o + 8 <= |before| && o + 8 <= |after|
    && var v := Get(before, o, 8);
       Get(after, o, 8)
       == if v != 0 && runtime <= v < runtime + size then (v - runtime + file) % 0x1_0000_0000_0000_0000 else v
  }

  /** Byte k is in none of the eight-byte slots of a section that holds data. */
  ghost predicate OffSlots(buf: bytes, ss: seq<Section>, k: nat)
  {
    forall i :: 0 <= i < |ss| && HoldsData(buf, ss[i]) ==>
      k < ss[i].rawOffset || ss[i].rawOffset + 8 * ((ss[i].rawSize + 7) / 8) <= k
  }

  /** What the step promises of a 64-bit file: every slot of every section that holds data, and no other byte. */
  ghost predicate AllMoved(before: bytes, after: bytes, ss: seq<Section>, runtime: u64, file: u64, size: u32)
  {
    && |after| == |before|
    && (forall i, j: nat :: 0 <= i < |ss| && HoldsData(before, ss[i]) && 8 * j < ss[i].rawSize ==>
          WordMoved(before, after, ss[i], j, runtime, file, size))
    && forall k :: 0 <= k < |before| && OffSlots(before, ss, k) ==> after[k] == before[k]
  }

  lemma {:induction false} ScannedIff(buf: bytes, s: Section)
    requires s.rawOffset + s.rawSize <= |buf|
    ensures Scanned(buf, s) <==> HoldsData(buf, s)
  {
  }

  lemma {:induction false} WordRule(v: nat, b: Bases)
    requires v < TWO64
    ensures FixWord(v, b)
         == if v != 0 && b.runtime <= v < b.runtime + b.size then (v - b.runtime + b.file) % 0x1_0000_0000_0000_0000
            else v
  {
    if b.file == b.runtime {
      ModUnique(v, TWO64, 0, v);
    }
  }

  lemma {:induction false} SlotCount(n: nat, j: nat)
    ensures j < Slots(n) <==> 8 * j < n
    ensures n <= 8 * Slots(n)
  {
  }

  lemma {:induction false} LaidAt(ss: seq<Section>, n: nat, i: nat)
    requires Laid(ss, n) && i < |ss|
    ensures ss[i].rawOffset + 8 * Slots(ss[i].rawSize) <= n && ss[i].rawOffset + ss[i].rawSize <= n
  {
    hide ExtentsApart, Slots;
    SlotCount(ss[i].rawSize, 0);
  }

  lemma {:induction false} SlotMoved(buf: bytes, ss: seq<Section>, b: Bases, i: nat, j: nat)
    requires Laid(ss, |buf|) && i < |ss| && HoldsData(buf, ss[i]) && 8 * j < ss[i].rawSize
    ensures var r := FixSections(buf, ss, 8, b);
      r.Some? && WordMoved(buf, r.value, ss[i], j, b.runtime, b.file, b.size)
  {
    hide FixWord, Get, Scanned, HoldsData, FixSections, Slots, Laid;
    LaidAt(ss, |buf|, i);
    SlotCount(ss[i].rawSize, j);
    ScannedIff(buf, ss[i]);
    FixSlotwise(buf, ss, b, i, j);
    GetBounds(buf, ss[i].rawOffset + 8 * j, 8);
    WordRule(Get(buf, ss[i].rawOffset + 8 * j, 8), b);
  }

  lemma {:induction false} ByteStays(buf: bytes, ss: seq<Section>, b: Bases, k: nat)
    requires Laid(ss, |buf|) && k < |buf| && OffSlots(buf, ss, k)
    ensures var r := FixSections(buf, ss, 8, b); r.Some? && |r.value| == |buf| && r.value[k] == buf[k]
  {
    hide Scanned, HoldsData, FixSections, Laid, Executable;
    FixFrame(buf, ss, b);
    if InDataExtent(ss, k) {
      var i :| 0 <= i < |ss| && !Executable(ss[i]) && InExtent(ss[i], k);
      LaidAt(ss, |buf|, i);
      ScannedIff(buf, ss[i]);
      FixPassedOver(buf, ss, b, i, k);
    }
  }

  /**
   * Every eight-byte slot of every section that holds data, straddling last slots included: a word that
   * points into the image as it ran is moved to the file's base, modulo 2^64, and every other word, also a
   * pointer to somewhere else, keeps its value. No byte outside those slots changes.
   */
  lemma {:induction false} WordsMoved(buf: bytes, ss: seq<Section>, b: Bases)
    requires Laid(ss, |buf|)
    ensures var r := FixSections(buf, ss, 8, b);
      r.Some? && AllMoved(buf, r.value, ss, b.runtime, b.file, b.size)
  {
    hide HoldsData, FixSections, Laid, WordMoved, OffSlots;
    FixFrame(buf, ss, b);
    var r := FixSections(buf, ss, 8, b).value;
    forall i, j: nat | 0 <= i < |ss| && HoldsData(buf, ss[i]) && 8 * j < ss[i].rawSize
      ensures WordMoved(buf, r, ss[i], j, b.runtime, b.file, b.size)
    {
      SlotMoved(buf, ss, b, i, j);
    }
    forall k | 0 <= k < |buf| && OffSlots(buf, ss, k) ensures r[k] == buf[k] {
      ByteStays(buf, ss, b, k);
    }
  }

  // ---- The base a dump was taken at does not matter -------------------------------------------------

  /** The same word, or the same place of the image seen from the two bases. */
  ghost predicate Corresponds(v: nat, w: nat, b: Bases, c: Bases)
  {
    || (v == w && !Stale(v, b) && !Stale(w, c))
    || (b.runtime <= v < b.runtime + b.size && w - c.runtime == v - b.runtime && v > 0 && w > 0)
  }

  /**
   * Dumps of one program at two bases: they differ at most in pointer slots of scanned sections, and
   * correspond there.
   */
  ghost predicate SameProgram(buf: bytes, alt: bytes, ss: seq<Section>, b: Bases, c: Bases)
  {
    && |buf| == |alt| && b.file == c.file && b.size == c.size && b.file + b.size < TWO64
    && (forall k :: 0 <= k < |buf| && !InDataExtent(ss, k) ==> buf[k] == alt[k])
    && forall i :: 0 <= i < |ss| && !Executable(ss[i]) ==> SameSection(buf, alt, ss[i], b, c)
  }

  ghost predicate SameSection(buf: bytes, alt: bytes, s: Section, b: Bases, c: Bases)
  {
    && Scanned(buf, s) == Scanned(alt, s)
    && s.rawOffset + 8 * Slots(s.rawSize) <= |buf| == |alt|
    && if Scanned(buf, s)
       then forall j: nat :: j < Slots(s.rawSize) ==>
         Corresponds(Get(buf, s.rawOffset + 8 * j, 8), Get(alt, s.rawOffset + 8 * j, 8), b, c)
       else forall k :: 0 <= k < |buf| && InExtent(s, k) ==> buf[k] == alt[k]
  }

  lemma {:induction false} CorrespondingFixed(v: nat, w: nat, b: Bases, c: Bases)
    requires Corresponds(v, w, b, c) && b.file == c.file && b.size == c.size && b.file + b.size < TWO64
    ensures FixWord(v, b) == FixWord(w, c)
  {
    if !(v == w && !Stale(v, b) && !Stale(w, c)) {
      var k := v - b.runtime;
      ModUnique(v + b.file - b.runtime, TWO64, 0, b.file + k);
      ModUnique(w + c.file - c.runtime, TWO64, 0, b.file + k);
    }
  }

  lemma {:induction false} SlotHolding(s: Section, k: nat) returns (j: nat)
    requires InExtent(s, k)
    ensures j < Slots(s.rawSize) && s.rawOffset + 8 * j <= k < s.rawOffset + 8 * j + 8
  {
    j := (k - s.rawOffset) / 8;
  }

  lemma {:induction false} SameByteFixed(buf: bytes, alt: bytes, ss: seq<Section>, b: Bases, c: Bases, i: nat, k: nat)
    requires Laid(ss, |buf|) && |buf| == |alt| && i < |ss| && InExtent(ss[i], k) && k < |buf|
    requires SameSection(buf, alt, ss[i], b, c) && b.file == c.file && b.size == c.size && b.file + b.size < TWO64
    ensures var r, q := FixSections(buf, ss, 8, b), FixSections(alt, ss, 8, c);
      r.Some? && q.Some? && |r.value| == |buf| == |q.value| && r.value[k] == q.value[k]
  {
    hide Get, FixWord, Scanned, FixSections, Corresponds, InExtent, Slots, Laid;
    if Scanned(buf, ss[i]) {
      var j := SlotHolding(ss[i], k);
      var o := ss[i].rawOffset + 8 * j;
      FixSlotwise(buf, ss, b, i, j);
      FixSlotwise(alt, ss, c, i, j);
      CorrespondingFixed(Get(buf, o, 8), Get(alt, o, 8), b, c);
      GetInjective(FixSections(buf, ss, 8, b).value, FixSections(alt, ss, 8, c).value, o, 8);
    } else {
      FixPassedOver(buf, ss, b, i, k);
      FixPassedOver(alt, ss, c, i, k);
    }
  }

  /** Dumps of one program taken at different bases are fixed to the very same bytes. */
  lemma {:induction false} FixingForgetsBase(buf: bytes, alt: bytes, ss: seq<Section>, b: Bases, c: Bases)
    requires Laid(ss, |buf|) && SameProgram(buf, alt, ss, b, c)
    ensures FixSections(buf, ss, 8, b).Some? && FixSections(alt, ss, 8, c) == FixSections(buf, ss, 8, b)
  {
    hide SameSection, InExtent, Executable, FixSections, Laid;
    FixFrame(buf, ss, b);
    FixFrame(alt, ss, c);
    var r, q := FixSections(buf, ss, 8, b).value, FixSections(alt, ss, 8, c).value;
    forall k | 0 <= k < |buf| ensures r[k] == q[k] {
      if InDataExtent(ss, k) {
        var i :| 0 <= i < |ss| && !Executable(ss[i]) && InExtent(ss[i], k);
        SameByteFixed(buf, alt, ss, b, c, i, k);
      }
    }
    assert r == q;
  }
}
