/** The import-section printer (crates/pe/src/import_table.rs). */
module ImportTable {
  import opened Options
  import opened Words

  datatype Thunk = Thunk(iatAddress: u32, name: Option<bytes>, ordinal: Option<u16>)

  datatype Module = Module(name: bytes, thunks: seq<Thunk>)

  const DESCRIPTOR: nat := 20

  /** The top bit of a slot marks an import by ordinal. */
  function OrdinalFlag(w: nat): nat { if w == 8 then 0x8000_0000_0000_0000 else 0x8000_0000 }

  function Lower(s: bytes): (r: bytes)
    ensures |r| == |s|
  {
    seq(|s|, k requires 0 <= k < |s| => if 'A' as int <= s[k] <= 'Z' as int then s[k] + 32 else s[k])
  }

  // ---- The format, region by region ------------------------------------------------------

  function HintSize(t: Thunk): nat { if t.name.Some? then 2 + |t.name.value| + 1 else 0 }

  function HintsSize(ts: seq<Thunk>): nat
  {
    if ts == [] then 0 else HintSize(ts[0]) + HintsSize(ts[1..])
  }

  function TableSize(m: Module, w: nat): nat { w * (|m.thunks| + 1) }

  /** The slot of a thunk whose hint/name entry, if it has one, stands at RVA hintAt. */
  function Slot(t: Thunk, hintAt: nat, w: nat): nat
  {
    if t.name.Some? then hintAt
    else if t.ordinal.Some? then OrdinalFlag(w) + t.ordinal.value
    else 0
  }

  function SlotBytes(ts: seq<Thunk>, hintAt: nat, w: nat): bytes
  {
    if ts == [] then [] else Le(Slot(ts[0], hintAt, w), w) + SlotBytes(ts[1..], hintAt + HintSize(ts[0]), w)
  }

  /** One zero-terminated table per module. */
  function Tables(ms: seq<Module>, hintAt: nat, w: nat): bytes
  {
    if ms == [] then []
    else (SlotBytes(ms[0].thunks, hintAt, w) + Zeros(w)) + Tables(ms[1..], hintAt + HintsSize(ms[0].thunks), w)
  }

  function HintBytes(t: Thunk): bytes
  {
    if t.name.Some? then Zeros(2) + (t.name.value + [0]) else []
  }

  function HintsBytes(ts: seq<Thunk>): bytes
  {
    if ts == [] then [] else HintBytes(ts[0]) + HintsBytes(ts[1..])
  }

  function Hints(ms: seq<Module>): bytes
  {
    if ms == [] then [] else HintsBytes(ms[0].thunks) + Hints(ms[1..])
  }

  function Names(ms: seq<Module>): bytes
  {
    if ms == [] then [] else (ms[0].name + [0]) + Names(ms[1..])
  }

  function Descriptor(lookup: nat, name: nat, first: nat): bytes
  {
    Le(lookup, 4) + Zeros(8) + Le(name, 4) + Le(first, 4)
  }

  /** The descriptors of modules whose names, address tables and lookup tables start at the given RVAs. */
  function Descriptors(ms: seq<Module>, nameAt: nat, iatAt: nat, iltAt: nat, w: nat): bytes
  {
    if ms == [] then []
    else
      Descriptor(iltAt, nameAt, iatAt)
      + Descriptors(ms[1..], nameAt + |ms[0].name| + 1, iatAt + TableSize(ms[0], w), iltAt + TableSize(ms[0], w), w)
  }

  // ---- Where the regions stand -------------------------------------------------------------

  function NamesAt(ms: seq<Module>): nat { DESCRIPTOR * (|ms| + 1) }

  function HintsAt(ms: seq<Module>): nat { NamesAt(ms) + |Names(ms)| }

  function IatAt(ms: seq<Module>): nat { HintsAt(ms) + |Hints(ms)| }

  function IltAt(ms: seq<Module>, w: nat): nat { IatAt(ms) + TablesSize(ms, w) }

  function TablesSize(ms: seq<Module>, w: nat): nat
  {
    if ms == [] then 0 else TableSize(ms[0], w) + TablesSize(ms[1..], w)
  }

  function SectionSize(ms: seq<Module>, w: nat): nat { IltAt(ms, w) + TablesSize(ms, w) }

  /** The whole section at RVA va: descriptors, a null descriptor, names, hint/name entries, two tables. */
  function SectionBytes(ms: seq<Module>, va: nat, w: nat): bytes
  {
    Descriptors(ms, va + NamesAt(ms), va + IatAt(ms), va + IltAt(ms, w), w) + (Zeros(DESCRIPTOR)
    + (Names(ms) + (Hints(ms) + (Tables(ms, va + HintsAt(ms), w) + Tables(ms, va + HintsAt(ms), w)))))
  }

  lemma {:induction false} SlotBytesLength(ts: seq<Thunk>, hintAt: nat, w: nat)
    ensures |SlotBytes(ts, hintAt, w)| == w * |ts|
    decreases |ts|
  {
    if ts != [] {
      SlotBytesLength(ts[1..], hintAt + HintSize(ts[0]), w);
      assert w * |ts| == w + w * |ts[1..]|;
    }
  }

  lemma {:induction false} HintsBytesLength(ts: seq<Thunk>)
    ensures |HintsBytes(ts)| == HintsSize(ts)
  {
    if ts != [] {
      HintsBytesLength(ts[1..]);
    }
  }

  lemma {:induction false} TablesLength(ms: seq<Module>, hintAt: nat, w: nat)
    ensures |Tables(ms, hintAt, w)| == TablesSize(ms, w)
    decreases |ms|
  {
    hide SlotBytes;
    if ms != [] {
      SlotBytesLength(ms[0].thunks, hintAt, w);
      TablesLength(ms[1..], hintAt + HintsSize(ms[0].thunks), w);
      TableSizeSplit(ms[0], w);
    }
  }

  lemma {:induction false} TableSizeSplit(m: Module, w: nat)
    ensures TableSize(m, w) == w * |m.thunks| + w
  {
  }

  lemma {:induction false} DescriptorsLength(ms: seq<Module>, nameAt: nat, iatAt: nat, iltAt: nat, w: nat)
    ensures |Descriptors(ms, nameAt, iatAt, iltAt, w)| == DESCRIPTOR * |ms|
    decreases |ms|
  {
    if ms != [] {
      DescriptorsLength(ms[1..], nameAt + |ms[0].name| + 1, iatAt + TableSize(ms[0], w), iltAt + TableSize(ms[0], w),
                        w);
    }
  }

  lemma {:induction false} SectionLength(ms: seq<Module>, va: nat, w: nat)
    ensures |SectionBytes(ms, va, w)| == SectionSize(ms, w)
  {
    DescriptorsLength(ms, va + NamesAt(ms), va + IatAt(ms), va + IltAt(ms, w), w);
    TablesLength(ms, va + HintsAt(ms), w);
  }

  /** A buffer that carries the section carries each region at its place. */
  lemma {:induction false} SectionRegions(data: bytes, o: nat, ms: seq<Module>, va: nat, w: nat)
    ensures At(data, o, SectionBytes(ms, va, w)) <==>
      && At(data, o, Descriptors(ms, va + NamesAt(ms), va + IatAt(ms), va + IltAt(ms, w), w))
      && At(data, o + DESCRIPTOR * |ms|, Zeros(DESCRIPTOR))
      && At(data, o + NamesAt(ms), Names(ms))
      && At(data, o + HintsAt(ms), Hints(ms))
      && At(data, o + IatAt(ms), Tables(ms, va + HintsAt(ms), w))
      && At(data, o + IltAt(ms, w), Tables(ms, va + HintsAt(ms), w))
  {
    hide At, Descriptors, Tables, Names, Hints;
    var d := Descriptors(ms, va + NamesAt(ms), va + IatAt(ms), va + IltAt(ms, w), w);
    var t := Tables(ms, va + HintsAt(ms), w);
    DescriptorsLength(ms, va + NamesAt(ms), va + IatAt(ms), va + IltAt(ms, w), w);
    TablesLength(ms, va + HintsAt(ms), w);
    AtSix(data, o, d, Zeros(DESCRIPTOR), Names(ms), Hints(ms), t, t);
  }

  lemma {:induction false} AtSix(data: bytes, o: nat, a: bytes, b: bytes, c: bytes, d: bytes, e: bytes, f: bytes)
    ensures At(data, o, a + (b + (c + (d + (e + f))))) <==>
      && At(data, o, a) && At(data, o + |a|, b) && At(data, o + |a| + |b|, c)
      && At(data, o + |a| + |b| + |c|, d) && At(data, o + |a| + |b| + |c| + |d|, e)
      && At(data, o + |a| + |b| + |c| + |d| + |e|, f)
  {
    hide At;
    AtSplit(data, o, a, b + (c + (d + (e + f))));
    AtSplit(data, o + |a|, b, c + (d + (e + f)));
    AtSplit(data, o + |a| + |b|, c, d + (e + f));
    AtSplit(data, o + |a| + |b| + |c|, d, e + f);
    AtSplit(data, o + |a| + |b| + |c| + |d|, e, f);
  }
}
