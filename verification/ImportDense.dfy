/** The import section without its own address table (build_import_section_no_iat in crates/pe/src/import_table.rs). */
module ImportDense {
  import opened Words
  import opened ImportTable

  /** A module's strings stand together: its name, then its hint/name entries. */
  function Strings(m: Module): bytes { (m.name + [0]) + HintsBytes(m.thunks) }

  function Interleaved(ms: seq<Module>): bytes
  {
    if ms == [] then [] else Strings(ms[0]) + Interleaved(ms[1..])
  }

  function MinAddress(ts: seq<Thunk>): (r: nat)
    requires ts != []
    ensures exists k :: 0 <= k < |ts| && ts[k].iatAddress == r
    ensures forall k :: 0 <= k < |ts| ==> r <= ts[k].iatAddress
  {
    if |ts| == 1 then ts[0].iatAddress
    else
      var rest := MinAddress(ts[1..]);
      assert exists k :: 0 <= k < |ts[1..]| && ts[1..][k].iatAddress == rest;
      if ts[0].iatAddress <= rest then ts[0].iatAddress else rest
  }

  /** Where a descriptor's address table starts: its lowest recorded slot, or offset bytes into the original one. */
  function FirstThunk(m: Module, iatRva: nat, offset: nat, records: bool): nat
  {
    if !records then iatRva + offset else if m.thunks == [] then iatRva else MinAddress(m.thunks)
  }

  function Descs(ms: seq<Module>, nameAt: nat, iatRva: nat, offset: nat, records: bool, w: nat): bytes
  {
    if ms == [] then []
    else
      Descriptor(0, nameAt, FirstThunk(ms[0], iatRva, offset, records))
      + Descs(ms[1..], nameAt + |Strings(ms[0])|, iatRva, offset + TableSize(ms[0], w), records, w)
  }

  function SlotValues(ts: seq<Thunk>, hintAt: nat, w: nat): (r: seq<nat>)
    ensures |r| == |ts|
  {
    if ts == [] then [] else [Slot(ts[0], hintAt, w)] + SlotValues(ts[1..], hintAt + HintSize(ts[0]), w)
  }

  /** The slot values of all modules, each module's closed by a zero. */
  function OutThunks(ms: seq<Module>, nameAt: nat, w: nat): seq<nat>
  {
    if ms == [] then []
    else
      (SlotValues(ms[0].thunks, nameAt + |ms[0].name| + 1, w) + [0])
      + OutThunks(ms[1..], nameAt + |Strings(ms[0])|, w)
  }

  function Section(ms: seq<Module>, va: nat, iatRva: nat, records: bool, w: nat): bytes
  {
    Descs(ms, va + NamesAt(ms), iatRva, 0, records, w) + (Zeros(DESCRIPTOR) + Interleaved(ms))
  }

  // ---- Where things are ------------------------------------------------------------------------

  /** Slots taken by the modules ms, terminators included. */
  function SlotCount(ms: seq<Module>): nat
  {
    if ms == [] then 0 else |ms[0].thunks| + 1 + SlotCount(ms[1..])
  }

  lemma {:induction false} StringsLength(m: Module)
    ensures |Strings(m)| == |m.name| + 1 + HintsSize(m.thunks)
  {
    HintsBytesLength(m.thunks);
  }

  lemma {:induction false} DescsLength(ms: seq<Module>, nameAt: nat, iatRva: nat, offset: nat, records: bool, w: nat)
    ensures |Descs(ms, nameAt, iatRva, offset, records, w)| == DESCRIPTOR * |ms|
    decreases |ms|
  {
    hide FirstThunk, Strings, TableSize;
    if ms != [] {
      DescsLength(ms[1..], nameAt + |Strings(ms[0])|, iatRva, offset + TableSize(ms[0], w), records, w);
    }
  }

  /** The i-th descriptor. */
  lemma {:induction false} DescAt(b: bytes, o: nat, ms: seq<Module>, nameAt: nat, iatRva: nat, offset: nat,
      records: bool, w: nat, i: nat)
    requires i < |ms| && At(b, o, Descs(ms, nameAt, iatRva, offset, records, w))
    ensures At(b, o + DESCRIPTOR * i, Descriptor(0, nameAt + |Interleaved(ms[..i])|,
                                                 FirstThunk(ms[i], iatRva, offset + w * SlotCount(ms[..i]), records)))
    decreases i
  {
    hide FirstThunk, Strings, At, Descriptor;
    var d := Descriptor(0, nameAt, FirstThunk(ms[0], iatRva, offset, records));
    var rest := Descs(ms[1..], nameAt + |Strings(ms[0])|, iatRva, offset + TableSize(ms[0], w), records, w);
    DescriptorSize(0, nameAt, FirstThunk(ms[0], iatRva, offset, records));
    AtSplit(b, o, d, rest);
    if i > 0 {
      DescAt(b, o + DESCRIPTOR, ms[1..], nameAt + |Strings(ms[0])|, iatRva, offset + TableSize(ms[0], w), records, w,
             i - 1);
      PrefixCons(ms, i);
    }
  }

  lemma {:induction false} DescriptorSize(lookup: nat, name: nat, first: nat)
    ensures |Descriptor(lookup, name, first)| == DESCRIPTOR
  {
  }

  lemma {:induction false} PrefixCons(ms: seq<Module>, i: nat)
    requires 0 < i <= |ms|
    ensures SlotCount(ms[..i]) == |ms[0].thunks| + 1 + SlotCount(ms[1..][..i - 1])
    ensures Interleaved(ms[..i]) == Strings(ms[0]) + Interleaved(ms[1..][..i - 1])
  {
    hide Strings;
    assert ms[..i][1..] == ms[1..][..i - 1] && ms[..i][0] == ms[0];
  }

  /** The i-th module's strings. */
  lemma {:induction false} StringsAt(b: bytes, o: nat, ms: seq<Module>, i: nat)
    requires i < |ms| && At(b, o, Interleaved(ms))
    ensures At(b, o + |Interleaved(ms[..i])|, Strings(ms[i]))
    decreases i
  {
    hide Strings, At;
    AtSplit(b, o, Strings(ms[0]), Interleaved(ms[1..]));
    if i > 0 {
      StringsAt(b, o + |Strings(ms[0])|, ms[1..], i - 1);
      PrefixCons(ms, i);
    }
  }

  /** The k-th hint/name entry of a module's strings. */
  lemma {:induction false} HintAt(b: bytes, o: nat, ts: seq<Thunk>, k: nat)
    requires k < |ts| && At(b, o, HintsBytes(ts))
    ensures At(b, o + HintsSize(ts[..k]), HintBytes(ts[k]))
    decreases k
  {
    hide At, HintBytes;
    AtSplit(b, o, HintBytes(ts[0]), HintsBytes(ts[1..]));
    HintBytesSize(ts[0]);
    if k > 0 {
      HintAt(b, o + HintSize(ts[0]), ts[1..], k - 1);
      assert ts[..k][1..] == ts[1..][..k - 1];
    }
  }

  lemma {:induction false} HintBytesSize(t: Thunk)
    ensures |HintBytes(t)| == HintSize(t)
  {
  }

  lemma {:induction false} SlotValueAt(ts: seq<Thunk>, hintAt: nat, w: nat, k: nat)
    requires k < |ts|
    ensures SlotValues(ts, hintAt, w)[k] == Slot(ts[k], hintAt + HintsSize(ts[..k]), w)
    decreases k
  {
    hide Slot;
    if k > 0 {
      SlotValueAt(ts[1..], hintAt + HintSize(ts[0]), w, k - 1);
      assert ts[..k][1..] == ts[1..][..k - 1];
    }
  }

  /** The i-th module's slots, and its terminator, in the list of all slots. */
  lemma {:induction false} OutAt(ms: seq<Module>, nameAt: nat, w: nat, i: nat)
    requires i < |ms|
    ensures var n, out, ts := SlotCount(ms[..i]), OutThunks(ms, nameAt, w), ms[i].thunks;
      && n + |ts| < |out|
      && out[n..n + |ts|] == SlotValues(ts, nameAt + |Interleaved(ms[..i])| + |ms[i].name| + 1, w)
      && out[n + |ts|] == 0
    decreases i
  {
    hide SlotValues, Strings;
    var head := SlotValues(ms[0].thunks, nameAt + |ms[0].name| + 1, w) + [0];
    var tail := OutThunks(ms[1..], nameAt + |Strings(ms[0])|, w);
    assert OutThunks(ms, nameAt, w) == head + tail;
    if i > 0 {
      OutAt(ms[1..], nameAt + |Strings(ms[0])|, w, i - 1);
      PrefixCons(ms, i);
      var m, k := SlotCount(ms[1..][..i - 1]), |ms[i].thunks|;
    }
  }

  // ---- What a loader reads ------------------------------------------------------------------------

  /** The slots as they are written into the original address table. */
  function TableOf(out: seq<nat>, w: nat): bytes
  {
    if out == [] then [] else Le(out[0], w) + TableOf(out[1..], w)
  }

  lemma {:induction false} TableWord(b: bytes, o: nat, out: seq<nat>, w: nat, j: nat)
    requires j < |out| && At(b, o, TableOf(out, w)) && out[j] < Range(w)
    ensures o + w * j + w <= |b| && Get(b, o + w * j, w) == out[j]
    decreases j
  {
    hide Le, At;
    AtSplit(b, o, Le(out[0], w), TableOf(out[1..], w));
    if j > 0 {
      TableWord(b, o + w, out[1..], w, j - 1);
      assert w * j == w + w * (j - 1);
    } else {
      GetAt(b, o, out[0], w);
      AtEnd(b, o, Le(out[0], w));
    }
  }

  lemma {:induction false} AtEnd(b: bytes, o: nat, s: bytes)
    requires At(b, o, s)
    ensures o + |s| <= |b|
  {
  }

  /** Offset of module i's strings in the section, and of its k-th hint/name entry. */
  function NameOffset(ms: seq<Module>, i: nat): nat
    requires i <= |ms|
  {
    NamesAt(ms) + |Interleaved(ms[..i])|
  }

  function HintOffset(ms: seq<Module>, i: nat, k: nat): nat
    requires i < |ms| && k <= |ms[i].thunks|
  {
    NameOffset(ms, i) + |ms[i].name| + 1 + HintsSize(ms[i].thunks[..k])
  }

  /**
   * The i-th descriptor has no lookup table, cites its module's NUL-terminated name, and a null descriptor
   * ends the list.
   */
  lemma {:induction false} ModuleDescriptor(ms: seq<Module>, i: nat, va: nat, iatRva: nat, records: bool, w: nat)
    requires i < |ms|
    ensures var data, o := Section(ms, va, iatRva, records, w), NameOffset(ms, i);
      && At(data, DESCRIPTOR * i,
            Descriptor(0, va + o, FirstThunk(ms[i], iatRva, w * SlotCount(ms[..i]), records)))
      && At(data, DESCRIPTOR * |ms|, Zeros(DESCRIPTOR))
      && At(data, o, Strings(ms[i]))
      && At(data, o, ms[i].name + [0])
  {
    hide *;
    SectionParts(ms, va, iatRva, records, w);
    DescAt(Section(ms, va, iatRva, records, w), 0, ms, va + NamesAt(ms), iatRva, 0, records, w, i);
    StringsAt(Section(ms, va, iatRva, records, w), NamesAt(ms), ms, i);
    NameOffsetIs(ms, i);
    StringsSplit(Section(ms, va, iatRva, records, w), NameOffset(ms, i), ms[i]);
  }

  lemma {:induction false} NameOffsetIs(ms: seq<Module>, i: nat)
    requires i < |ms|
    ensures NameOffset(ms, i) == NamesAt(ms) + |Interleaved(ms[..i])|
    ensures forall k: nat | k <= |ms[i].thunks| ::
      HintOffset(ms, i, k) == NameOffset(ms, i) + |ms[i].name| + 1 + HintsSize(ms[i].thunks[..k])
  {
  }

  lemma {:induction false} StringsSplit(b: bytes, o: nat, m: Module)
    requires At(b, o, Strings(m))
    ensures At(b, o, m.name + [0]) && At(b, o + |m.name| + 1, HintsBytes(m.thunks))
  {
    AtSplit(b, o, m.name + [0], HintsBytes(m.thunks));
  }

  lemma {:induction false} SectionParts(ms: seq<Module>, va: nat, iatRva: nat, records: bool, w: nat)
    ensures var data := Section(ms, va, iatRva, records, w);
      && At(data, 0, Descs(ms, va + NamesAt(ms), iatRva, 0, records, w))
      && At(data, DESCRIPTOR * |ms|, Zeros(DESCRIPTOR))
      && At(data, NamesAt(ms), Interleaved(ms))
      && |data| == NamesAt(ms) + |Interleaved(ms)|
  {
    hide Descs, Interleaved, At;
    var data, d := Section(ms, va, iatRva, records, w), Descs(ms, va + NamesAt(ms), iatRva, 0, records, w);
    DescsLength(ms, va + NamesAt(ms), iatRva, 0, records, w);
    AtWhole(data);
    AtSplit(data, 0, d, Zeros(DESCRIPTOR) + Interleaved(ms));
    AtSplit(data, |d|, Zeros(DESCRIPTOR), Interleaved(ms));
  }

  /** A named thunk's slot value is the RVA of a zero hint followed by exactly its NUL-terminated name. */
  lemma {:induction false} ThunkSlot(ms: seq<Module>, i: nat, k: nat, va: nat, iatRva: nat, records: bool, w: nat)
    requires i < |ms| && k < |ms[i].thunks|
    ensures var data, out, t := Section(ms, va, iatRva, records, w), OutThunks(ms, va + NamesAt(ms), w),
        ms[i].thunks[k];
      var j := SlotCount(ms[..i]) + k;
      && j < |out| && out[j] == Slot(t, va + HintOffset(ms, i, k), w)
      && (t.name.Some? ==> out[j] == va + HintOffset(ms, i, k))
      && (t.name.Some? ==> At(data, HintOffset(ms, i, k), Zeros(2) + (t.name.value + [0])))
  {
    hide *;
    var data, t := Section(ms, va, iatRva, records, w), ms[i].thunks[k];
    ModuleDescriptor(ms, i, va, iatRva, records, w);
    NameOffsetIs(ms, i);
    StringsSplit(data, NameOffset(ms, i), ms[i]);
    HintAt(data, NameOffset(ms, i) + |ms[i].name| + 1, ms[i].thunks, k);
    var hints := va + NamesAt(ms) + |Interleaved(ms[..i])| + |ms[i].name| + 1;
    OutAt(ms, va + NamesAt(ms), w, i);
    SlotValueAt(ms[i].thunks, hints, w, k);
    NamedSlot(t, va + HintOffset(ms, i, k), w);
  }

  lemma {:induction false} NamedSlot(t: Thunk, hintAt: nat, w: nat)
    ensures t.name.Some? ==> Slot(t, hintAt, w) == hintAt && HintBytes(t) == Zeros(2) + (t.name.value + [0])
  {
  }

  /**
   * Dense mode, as a loader sees it once the returned slots are written over the original table: the
   * array at module i's FirstThunk holds the module's own thunks in order and then a zero.
   */
  lemma {:induction false} DenseLoaderView(ms: seq<Module>, i: nat, k: nat, va: nat, iatRva: nat, w: nat, image: bytes)
    requires (w == 4 || w == 8) && i < |ms| && k <= |ms[i].thunks|
    requires At(image, iatRva, TableOf(OutThunks(ms, va + NamesAt(ms), w), w))
    requires va + |Section(ms, va, iatRva, false, w)| < RvaBound(w)
    ensures var first, ts := FirstThunk(ms[i], iatRva, w * SlotCount(ms[..i]), false), ms[i].thunks;
      && first + w * k + w <= |image|
      && Get(image, first + w * k, w) == if k < |ts| then Slot(ts[k], va + HintOffset(ms, i, k), w) else 0
  {
    hide *;
    var out, n := OutThunks(ms, va + NamesAt(ms), w), SlotCount(ms[..i]);
    DenseFirst(ms[i], iatRva, w * n);
    OutAt(ms, va + NamesAt(ms), w, i);
    if k < |ms[i].thunks| {
      ThunkSlot(ms, i, k, va, iatRva, false, w);
      HintInSection(ms, i, k, va, iatRva, w);
      SlotBound(ms[i].thunks[k], va + HintOffset(ms, i, k), w);
    }
    TableWord(image, iatRva, out, w, n + k);
  }

  function RvaBound(w: nat): nat { if w == 8 then TWO64 else TWO32 }

  lemma {:induction false} DenseFirst(m: Module, iatRva: nat, offset: nat)
    ensures FirstThunk(m, iatRva, offset, false) == iatRva + offset
  {
  }

  lemma {:induction false} HintInSection(ms: seq<Module>, i: nat, k: nat, va: nat, iatRva: nat, w: nat)
    requires i < |ms| && k < |ms[i].thunks|
    ensures HintOffset(ms, i, k) <= |Section(ms, va, iatRva, false, w)|
  {
    hide *;
    var data := Section(ms, va, iatRva, false, w);
    ModuleDescriptor(ms, i, va, iatRva, false, w);
    NameOffsetIs(ms, i);
    StringsSplit(data, NameOffset(ms, i), ms[i]);
    HintAt(data, NameOffset(ms, i) + |ms[i].name| + 1, ms[i].thunks, k);
    AtEnd(data, HintOffset(ms, i, k), HintBytes(ms[i].thunks[k]));
  }

  lemma {:induction false} SlotBound(t: Thunk, hintAt: nat, w: nat)
    requires (w == 4 || w == 8) && hintAt < RvaBound(w)
    ensures Slot(t, hintAt, w) < Range(w)
  {
    RangeValues();
  }

  /** Records mode: the descriptor starts at the lowest recorded slot, so a contiguous run is read thunk by thunk. */
  lemma {:induction false} RecordsRun(m: Module, iatRva: nat, offset: nat, w: nat, k: nat)
    requires k < |m.thunks|
    requires forall j: nat :: j < |m.thunks| ==> m.thunks[j].iatAddress == m.thunks[0].iatAddress + w * j
    ensures FirstThunk(m, iatRva, offset, true) + w * k == m.thunks[k].iatAddress
  {
    var least := MinAddress(m.thunks);
    assert least <= m.thunks[0].iatAddress;
    var low: nat :| low < |m.thunks| && m.thunks[low].iatAddress == least;
    assert m.thunks[low].iatAddress == m.thunks[0].iatAddress + w * low;
  }
}
