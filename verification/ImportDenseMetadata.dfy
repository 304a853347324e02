/** The walk over the import section the dumper writes, whose slots stand in the original address table. */
module ImportDenseMetadata {
  import opened Options
  import opened Words
  import opened ImportTable
  import opened ImportReader
  import opened ImportMetadata
  import Pe
  import Dense = ImportDense

  /** Where module i's slots start, and the RVA of its first hint/name entry. */
  function FirstOf(ms: seq<Module>, i: nat, iatRva: nat, records: bool, w: nat): nat
    requires i < |ms|
  {
    Dense.FirstThunk(ms[i], iatRva, w * Dense.SlotCount(ms[..i]), records)
  }

  function HintsOf(ms: seq<Module>, i: nat, va: nat): nat
    requires i < |ms|
  {
    va + Dense.NameOffset(ms, i) + |ms[i].name| + 1
  }

  /** Module i's slots and their terminator stand in the file, where its FirstThunk leads. */
  ghost predicate SlotsStand(h: Pe.Header, data: bytes, ms: seq<Module>, i: nat, va: nat, iatRva: nat, records: bool,
      w: nat)
    requires i < |ms|
  {
    var first := FirstOf(ms, i, iatRva, records, w);
    && 0 < first < TWO32 && Pe.RvaToOffset(h, first).Some?
    && At(data, Pe.RvaToOffset(h, first).value, SlotBytes(ms[i].thunks, HintsOf(ms, i, va), w) + Zeros(w))
  }

  /** A section of that form at the import directory's RVA, within the walk's guards. */
  ghost predicate Rebuilt(h: Pe.Header, data: bytes, raw: nat, ms: seq<Module>, iatRva: nat, records: bool, w: nat)
  {
    var va, sec := h.importRva, Dense.Section(ms, h.importRva, iatRva, records, w);
    && (w == 4 || w == 8) && 0 < va && va + |sec| < 0x8000_0000 && Mapped(h, data, sec, va, raw)
    && |ms| <= 511 && (forall i :: 0 <= i < |ms| ==> WalkableModule(ms[i], w))
    && forall i :: 0 <= i < |ms| ==> SlotsStand(h, data, ms, i, va, iatRva, records, w)
  }

  // ---- One module ------------------------------------------------------------------------------------

  ghost predicate CoversDense(spans: seq<Span>, desc: nat, name: nat, first: nat, m: Module, w: nat)
  {
    && Covers(spans, desc, desc + DESCRIPTOR) && Covers(spans, name, name + |Dense.Strings(m)|)
    && Covers(spans, first, first + TableSize(m, w))
  }

  lemma {:induction false} ThreeParts(p: seq<Span>, q: seq<Span>, s: seq<Span>, desc: nat, name: nat, first: nat,
      m: Module, w: nat)
    requires Covers(p, desc, desc + DESCRIPTOR) && Covers(q, name, name + 0 + |m.name| + 1)
    requires Covers(s, first, first + TableSize(m, w))
    requires Covers(s, name + |m.name| + 1, name + |m.name| + 1 + HintsSize(m.thunks))
    ensures CoversDense(p + q + [] + s, desc, name, first, m, w)
  {
    hide Covers, TableSize, HintsSize, Dense.Strings;
    var hints := name + |m.name| + 1;
    Dense.StringsLength(m);
    assert p + q + [] == p + q;
    CoversConcat(p, q, desc, desc + DESCRIPTOR);
    CoversConcat(p + q, s, desc, desc + DESCRIPTOR);
    CoversConcat(p, q, name, hints);
    CoversConcat(p + q, s, name, hints);
    CoversConcat(p + q, s, hints, hints + HintsSize(m.thunks));
    CoversJoin(p + q + s, name, hints, hints + HintsSize(m.thunks));
    CoversConcat(p + q, s, first, first + TableSize(m, w));
  }

  lemma {:induction false} RebuiltParts(h: Pe.Header, data: bytes, raw: nat, ms: seq<Module>, iatRva: nat,
      records: bool, w: nat)
    requires Rebuilt(h, data, raw, ms, iatRva, records, w)
    ensures var va, sec := h.importRva, Dense.Section(ms, h.importRva, iatRva, records, w);
      (w == 4 || w == 8) && 0 < va && va + |sec| < 0x8000_0000 && Mapped(h, data, sec, va, raw) && |ms| <= 511
    ensures forall i :: 0 <= i < |ms| ==> WalkableModule(ms[i], w)
    ensures forall i :: 0 <= i < |ms| ==> SlotsStand(h, data, ms, i, h.importRva, iatRva, records, w)
  {
    hide Mapped, WalkableModule, SlotsStand, Dense.Section;
  }

  /** Module i's descriptor as the walk reads it: no lookup table, its name, its slots. */
  lemma {:induction false} DescriptorWords(h: Pe.Header, data: bytes, raw: nat, ms: seq<Module>, iatRva: nat,
      records: bool, w: nat, i: nat)
    requires Rebuilt(h, data, raw, ms, iatRva, records, w) && i < |ms|
    ensures var va, off := h.importRva, raw + DESCRIPTOR * i;
      && Pe.RvaToOffset(h, va + DESCRIPTOR * i) == Some(off)
      && U32At(data, off) == 0 && U32At(data, off + 12) == va + Dense.NameOffset(ms, i)
      && U32At(data, off + 16) == FirstOf(ms, i, iatRva, records, w)
  {
    hide *;
    var va, sec := h.importRva, Dense.Section(ms, h.importRva, iatRva, records, w);
    RebuiltParts(h, data, raw, ms, iatRva, records, w);
    Dense.ModuleDescriptor(ms, i, va, iatRva, records, w);
    FirstIs(h, data, ms, i, va, iatRva, records, w);
    NameInside(ms, i, va, iatRva, records, w);
    SmallConstants();
    DescriptorAt(sec, DESCRIPTOR * i, 0, va + Dense.NameOffset(ms, i), FirstOf(ms, i, iatRva, records, w));
    MappedOffset(h, data, sec, va, raw, va + DESCRIPTOR * i);
    MappedWord(h, data, sec, va, raw, DESCRIPTOR * i);
    MappedWord(h, data, sec, va, raw, DESCRIPTOR * i + 12);
    MappedWord(h, data, sec, va, raw, DESCRIPTOR * i + 16);
    var off := raw + DESCRIPTOR * i;
    assert off + 12 == raw + (DESCRIPTOR * i + 12) && off + 16 == raw + (DESCRIPTOR * i + 16);
  }

  lemma {:induction false} FirstIs(h: Pe.Header, data: bytes, ms: seq<Module>, i: nat, va: nat, iatRva: nat,
      records: bool, w: nat)
    requires i < |ms| && (forall k :: 0 <= k < |ms| ==> SlotsStand(h, data, ms, k, va, iatRva, records, w))
    ensures FirstOf(ms, i, iatRva, records, w)
         == Dense.FirstThunk(ms[i], iatRva, w * Dense.SlotCount(ms[..i]), records)
    ensures 0 < FirstOf(ms, i, iatRva, records, w) < TWO32
    ensures Pe.RvaToOffset(h, FirstOf(ms, i, iatRva, records, w)).Some?
    ensures At(data, Pe.RvaToOffset(h, FirstOf(ms, i, iatRva, records, w)).value,
               SlotBytes(ms[i].thunks, HintsOf(ms, i, va), w) + Zeros(w))
  {
    hide SlotBytes, Dense.FirstThunk, Pe.OffsetIn, At, HintsOf;
    assert SlotsStand(h, data, ms, i, va, iatRva, records, w);
  }

  lemma {:induction false} NameInside(ms: seq<Module>, i: nat, va: nat, iatRva: nat, records: bool, w: nat)
    requires i < |ms|
    ensures Dense.NameOffset(ms, i) + |Dense.Strings(ms[i])| <= |Dense.Section(ms, va, iatRva, records, w)|
    ensures 0 < Dense.NameOffset(ms, i)
  {
    hide *;
    Dense.ModuleDescriptor(ms, i, va, iatRva, records, w);
    Dense.AtEnd(Dense.Section(ms, va, iatRva, records, w), Dense.NameOffset(ms, i), Dense.Strings(ms[i]));
    NamePositive(ms, i);
  }

  lemma {:induction false} NamePositive(ms: seq<Module>, i: nat)
    requires i <= |ms|
    ensures 0 < Dense.NameOffset(ms, i)
  {
    hide Dense.Interleaved;
  }

  lemma {:induction false} ModuleCovered(h: Pe.Header, data: bytes, raw: nat, ms: seq<Module>, iatRva: nat,
      records: bool, w: nat, i: nat)
    requires Rebuilt(h, data, raw, ms, iatRva, records, w) && i < |ms|
    ensures CoversDense(DescSpan(h, data, h.importRva + DESCRIPTOR * i, raw + DESCRIPTOR * i, w),
                        h.importRva + DESCRIPTOR * i, h.importRva + Dense.NameOffset(ms, i),
                        FirstOf(ms, i, iatRva, records, w), ms[i], w)
  {
    hide *;
    var va, sec := h.importRva, Dense.Section(ms, h.importRva, iatRva, records, w);
    var m, off, name, first := ms[i], raw + DESCRIPTOR * i, va + Dense.NameOffset(ms, i),
        FirstOf(ms, i, iatRva, records, w);
    RebuiltParts(h, data, raw, ms, iatRva, records, w);
    DescriptorWords(h, data, raw, ms, iatRva, records, w, i);
    Dense.ModuleDescriptor(ms, i, va, iatRva, records, w);
    Dense.StringsSplit(sec, Dense.NameOffset(ms, i), m);
    FirstIs(h, data, ms, i, va, iatRva, records, w);
    HintsIs(ms, i, va);
    WalkableParts(m, w);
    assert name - va + 0 == Dense.NameOffset(ms, i)
        && name + |m.name| + 1 - va == Dense.NameOffset(ms, i) + |m.name| + 1;
    StringCovers(h, data, sec, va, raw, name, 0, m.name);
    TableSpansCover(h, data, sec, va, raw, first, Pe.RvaToOffset(h, first).value, m, name + |m.name| + 1, w);
    CoversOne(va + DESCRIPTOR * i, DESCRIPTOR);
    NoTable(h, data, w);
    ThreeParts([Span(va + DESCRIPTOR * i, DESCRIPTOR)], StringSpan(h, data, name, 0), TableSpans(h, data, first, w),
               va + DESCRIPTOR * i, name, first, m, w);
    DescSpanOpen(h, data, va + DESCRIPTOR * i, off, w);
  }

  lemma {:induction false} HintsIs(ms: seq<Module>, i: nat, va: nat)
    requires i < |ms|
    ensures HintsOf(ms, i, va) == va + Dense.NameOffset(ms, i) + |ms[i].name| + 1
  {
  }

  lemma {:induction false} NoTable(h: Pe.Header, data: bytes, w: nat)
    ensures TableSpans(h, data, 0, w) == []
  {
  }

  // ---- All of them -----------------------------------------------------------------------------------

  /** Descriptors, strings and slots of the modules from i on, and the null descriptor. */
  ghost predicate CoversFrom(spans: seq<Span>, va: nat, ms: seq<Module>, iatRva: nat, records: bool, w: nat, i: nat)
    requires i <= |ms|
  {
    && Covers(spans, va + DESCRIPTOR * i, va + DESCRIPTOR * (|ms| + 1))
    && Covers(spans, va + Dense.NameOffset(ms, i), va + Dense.NameOffset(ms, |ms|))
    && forall j :: i <= j < |ms| ==>
         Covers(spans, FirstOf(ms, j, iatRva, records, w), FirstOf(ms, j, iatRva, records, w) + TableSize(ms[j], w))
  }

  lemma {:induction false} PrefixEnd(ms: seq<Module>, i: nat)
    requires i < |ms|
    ensures Dense.Interleaved(ms[..i + 1]) == Dense.Interleaved(ms[..i]) + Dense.Strings(ms[i])
    decreases i
  {
    hide Dense.Strings;
    if i == 0 {
      assert ms[..1] == [ms[0]] && ms[..0] == [];
      assert ms[..1][1..] == [];
    } else {
      PrefixEnd(ms[1..], i - 1);
      Dense.PrefixCons(ms, i);
      Dense.PrefixCons(ms, i + 1);
      assert ms[1..][i - 1] == ms[i];
    }
  }

  lemma {:induction false} NextName(ms: seq<Module>, i: nat)
    requires i < |ms|
    ensures Dense.NameOffset(ms, i + 1) == Dense.NameOffset(ms, i) + |Dense.Strings(ms[i])|
  {
    hide Dense.Strings, Dense.Interleaved;
    PrefixEnd(ms, i);
  }

  lemma {:induction false} CoversNext(a: seq<Span>, b: seq<Span>, va: nat, ms: seq<Module>, iatRva: nat,
      records: bool, w: nat, i: nat)
    requires i < |ms| && CoversFrom(b, va, ms, iatRva, records, w, i + 1)
    requires CoversDense(a, va + DESCRIPTOR * i, va + Dense.NameOffset(ms, i), FirstOf(ms, i, iatRva, records, w),
                         ms[i], w)
    ensures CoversFrom(a + b, va, ms, iatRva, records, w, i)
  {
    hide Covers, Dense.NameOffset, Dense.Strings, FirstOf, TableSize;
    NextName(ms, i);
    var mid := va + DESCRIPTOR * (i + 1);
    assert mid == va + DESCRIPTOR * i + DESCRIPTOR;
    CoversBoth(a, b, va + DESCRIPTOR * i, mid, va + DESCRIPTOR * (|ms| + 1));
    CoversBoth(a, b, va + Dense.NameOffset(ms, i), va + Dense.NameOffset(ms, i + 1), va + Dense.NameOffset(ms, |ms|));
    forall j | i <= j < |ms|
      ensures Covers(a + b, FirstOf(ms, j, iatRva, records, w),
                     FirstOf(ms, j, iatRva, records, w) + TableSize(ms[j], w))
    {
      CoversConcat(a, b, FirstOf(ms, j, iatRva, records, w), FirstOf(ms, j, iatRva, records, w) + TableSize(ms[j], w));
    }
  }

  lemma {:induction false} LastDescriptor(h: Pe.Header, data: bytes, raw: nat, ms: seq<Module>, iatRva: nat,
      records: bool, w: nat)
    requires Rebuilt(h, data, raw, ms, iatRva, records, w)
    ensures Pe.RvaToOffset(h, h.importRva + DESCRIPTOR * |ms|) == Some(raw + DESCRIPTOR * |ms|)
    ensures U32At(data, raw + DESCRIPTOR * |ms| + 12) == 0
  {
    hide *;
    var va, sec, o := h.importRva, Dense.Section(ms, h.importRva, iatRva, records, w), DESCRIPTOR * |ms|;
    RebuiltParts(h, data, raw, ms, iatRva, records, w);
    Dense.SectionParts(ms, va, iatRva, records, w);
    NullAt(sec, o);
    MappedOffset(h, data, sec, va, raw, va + o);
    MappedWord(h, data, sec, va, raw, o + 12);
    assert raw + o + 12 == raw + (o + 12);
  }

  lemma {:induction false} NullAt(sec: bytes, o: nat)
    requires At(sec, o, Zeros(DESCRIPTOR))
    ensures o + 20 <= |sec| && Get(sec, o + 12, 4) == 0
  {
    assert Zeros(DESCRIPTOR) == Zeros(12) + (Zeros(4) + Zeros(4));
    AtSplit(sec, o, Zeros(12), Zeros(4) + Zeros(4));
    AtSplit(sec, o + 12, Zeros(4), Zeros(4));
    ZeroWord(sec, o + 12, 4);
  }

  lemma {:induction false} LastCovered(spans: seq<Span>, va: nat, ms: seq<Module>, iatRva: nat, records: bool, w: nat)
    requires spans == [Span(va + DESCRIPTOR * |ms|, DESCRIPTOR)]
    ensures CoversFrom(spans, va, ms, iatRva, records, w, |ms|)
  {
    hide Covers, Dense.NameOffset, FirstOf, TableSize;
    CoversOne(va + DESCRIPTOR * |ms|, DESCRIPTOR);
    assert va + DESCRIPTOR * (|ms| + 1) == va + DESCRIPTOR * |ms| + DESCRIPTOR;
    CoversNothing(spans, va + Dense.NameOffset(ms, |ms|));
  }

  lemma {:induction false} CoveredFrom(h: Pe.Header, data: bytes, raw: nat, ms: seq<Module>, iatRva: nat,
      records: bool, w: nat, i: nat)
    requires Rebuilt(h, data, raw, ms, iatRva, records, w) && i <= |ms|
    ensures CoversFrom(DescSpans(h, data, h.importRva + DESCRIPTOR * i, i, w), h.importRva, ms, iatRva, records, w, i)
    decreases |ms| - i
  {
    hide *;
    var va := h.importRva;
    RebuiltParts(h, data, raw, ms, iatRva, records, w);
    if i == |ms| {
      LastDescriptor(h, data, raw, ms, iatRva, records, w);
      DescSpansEnd(h, data, va + DESCRIPTOR * i, raw + DESCRIPTOR * i, i, w);
      LastCovered(DescSpans(h, data, va + DESCRIPTOR * i, i, w), va, ms, iatRva, records, w);
    } else {
      DescriptorWords(h, data, raw, ms, iatRva, records, w, i);
      NameInside(ms, i, va, iatRva, records, w);
      ModuleCovered(h, data, raw, ms, iatRva, records, w, i);
      CoveredFrom(h, data, raw, ms, iatRva, records, w, i + 1);
      assert va + DESCRIPTOR * (i + 1) == va + DESCRIPTOR * i + DESCRIPTOR;
      DescSpansOpen(h, data, va + DESCRIPTOR * i, raw + DESCRIPTOR * i, i, w);
      CoversNext(DescSpan(h, data, va + DESCRIPTOR * i, raw + DESCRIPTOR * i, w),
                 DescSpans(h, data, va + DESCRIPTOR * (i + 1), i + 1, w), va, ms, iatRva, records, w, i);
    }
  }

  /**
   * With its slots in the original address table, the ranges cover the whole section the dumper writes,
   * and every module's slots with their terminator.
   */
  lemma {:induction false} RebuiltCovered(h: Pe.Header, data: bytes, raw: nat, ms: seq<Module>, iatRva: nat,
      records: bool, w: nat, j: nat)
    requires Rebuilt(h, data, raw, ms, iatRva, records, w)
    ensures Covers(Spans(h, data, w), h.importRva, h.importRva + |Dense.Section(ms, h.importRva, iatRva, records, w)|)
    ensures j < |ms| ==> Covers(Spans(h, data, w), FirstOf(ms, j, iatRva, records, w),
                                FirstOf(ms, j, iatRva, records, w) + TableSize(ms[j], w))
  {
    hide *;
    var va, spans := h.importRva, Spans(h, data, w);
    RebuiltParts(h, data, raw, ms, iatRva, records, w);
    SpansOpen(h, data, w);
    CoveredFrom(h, data, raw, ms, iatRva, records, w, 0);
    assert va + DESCRIPTOR * 0 == va;
    WholeIs(ms, va, iatRva, records, w);
    CoversStart(spans, va, ms, iatRva, records, w, j);
    CoversJoin(spans, va, va + DESCRIPTOR * (|ms| + 1), va + Dense.NameOffset(ms, |ms|));
  }

  lemma {:induction false} CoversStart(spans: seq<Span>, va: nat, ms: seq<Module>, iatRva: nat, records: bool, w: nat,
      j: nat)
    requires CoversFrom(spans, va, ms, iatRva, records, w, 0)
    ensures Covers(spans, va, va + DESCRIPTOR * (|ms| + 1))
    ensures Covers(spans, va + Dense.NameOffset(ms, 0), va + Dense.NameOffset(ms, |ms|))
    ensures j < |ms| ==>
      Covers(spans, FirstOf(ms, j, iatRva, records, w), FirstOf(ms, j, iatRva, records, w) + TableSize(ms[j], w))
  {
    hide Covers, Dense.NameOffset, FirstOf, TableSize;
  }

  lemma {:induction false} WholeIs(ms: seq<Module>, va: nat, iatRva: nat, records: bool, w: nat)
    ensures Dense.NameOffset(ms, 0) == DESCRIPTOR * (|ms| + 1)
    ensures Dense.NameOffset(ms, |ms|) == |Dense.Section(ms, va, iatRva, records, w)|
  {
    hide Dense.Section, Dense.Interleaved;
    Dense.SectionParts(ms, va, iatRva, records, w);
    assert ms[..|ms|] == ms;
    assert ms[..0] == [];
    NothingInterleaved();
  }

  lemma {:induction false} NothingInterleaved()
    ensures Dense.Interleaved([]) == []
  {
  }

  // ---- Dense mode ------------------------------------------------------------------------------------

  lemma {:induction false} TableSplit(b: bytes, o: nat, out: seq<nat>, n: nat, m: nat, w: nat)
    requires n + m <= |out| && At(b, o, Dense.TableOf(out, w))
    ensures At(b, o + w * n, Dense.TableOf(out[n..n + m], w))
    decreases n + m
  {
    hide At;
    if n > 0 {
      AtSplit(b, o, Le(out[0], w), Dense.TableOf(out[1..], w));
      TableSplit(b, o + w, out[1..], n - 1, m, w);
      assert out[1..][n - 1..n - 1 + m] == out[n..n + m];
      assert w * n == w + w * (n - 1);
    } else if m > 0 {
      AtSplit(b, o, Le(out[0], w), Dense.TableOf(out[1..], w));
      TableSplit(b, o + w, out[1..], 0, m - 1, w);
      assert out[0..m] == [out[0]] + out[1..][0..m - 1];
      assert out[0..m][1..] == out[1..][0..m - 1];
      AtSplit(b, o, Le(out[0], w), Dense.TableOf(out[1..][0..m - 1], w));
    } else {
      AtSplit(b, o, [], Dense.TableOf(out, w));
      assert [] + Dense.TableOf(out, w) == Dense.TableOf(out, w);
      assert out[0..0] == [];
    }
  }

  /** A module's slot values, written out, are its printed slots. */
  lemma {:induction false} TableIsSlots(ts: seq<Thunk>, hintAt: nat, w: nat)
    ensures Dense.TableOf(Dense.SlotValues(ts, hintAt, w) + [0], w) == SlotBytes(ts, hintAt, w) + Zeros(w)
    decreases |ts|
  {
    hide Slot, Le;
    if ts == [] {
      assert Dense.SlotValues(ts, hintAt, w) + [0] == [0] && [0][1..] == [];
      ZeroIs(w);
    } else {
      var v, rest := Slot(ts[0], hintAt, w), Dense.SlotValues(ts[1..], hintAt + HintSize(ts[0]), w);
      TableIsSlots(ts[1..], hintAt + HintSize(ts[0]), w);
      assert Dense.SlotValues(ts, hintAt, w) + [0] == [v] + (rest + [0]);
      assert ([v] + (rest + [0]))[1..] == rest + [0];
    }
  }

  lemma {:induction false} ZeroIs(w: nat)
    ensures Dense.TableOf([0], w) == Zeros(w)
  {
    hide Range;
    assert [0][1..] == [];
    assert Dense.TableOf([0], w) == Le(0, w);
    forall k | 0 <= k < w ensures Le(0, w)[k] == 0 {
    }
  }

  /** The returned slots written over the original table put every module's slots where its FirstThunk leads. */
  lemma {:induction false} DenseStands(h: Pe.Header, data: bytes, ms: seq<Module>, va: nat, iatRva: nat, iatRaw: nat,
      w: nat, i: nat)
    requires w > 0 && i < |ms| && 0 < iatRva
    requires var table := Dense.TableOf(Dense.OutThunks(ms, va + NamesAt(ms), w), w);
      Mapped(h, data, table, iatRva, iatRaw) && iatRva + |table| < TWO32
    ensures SlotsStand(h, data, ms, i, va, iatRva, false, w)
  {
    hide *;
    var out, n, ts := Dense.OutThunks(ms, va + NamesAt(ms), w), Dense.SlotCount(ms[..i]), ms[i].thunks;
    var table, hintAt, first := Dense.TableOf(out, w), HintsOf(ms, i, va), FirstOf(ms, i, iatRva, false, w);
    Dense.OutAt(ms, va + NamesAt(ms), w, i);
    HintsIs(ms, i, va);
    Dense.NameOffsetIs(ms, i);
    OutSlice(out, n, ts, hintAt, w);
    TableIsSlots(ts, hintAt, w);
    AtWhole(table);
    TableSplit(table, 0, out, n, |ts| + 1, w);
    DenseFirstIs(ms, i, iatRva, w);
    var slots := SlotBytes(ts, hintAt, w) + Zeros(w);
    SlotsNotEmpty(table, w * n, ts, hintAt, w);
    MappedOffset(h, data, table, iatRva, iatRaw, first);
    MappedStands(h, data, table, iatRva, iatRaw);
    AtNested(data, iatRaw, table, w * n, slots);
    assert iatRaw + (first - iatRva) == iatRaw + w * n;
    StandsIntroduced(h, data, ms, i, va, iatRva, w, iatRaw + w * n);
  }

  lemma {:induction false} MappedStands(h: Pe.Header, data: bytes, sec: bytes, va: nat, raw: nat)
    requires Mapped(h, data, sec, va, raw)
    ensures At(data, raw, sec)
  {
  }

  lemma {:induction false} OutSlice(out: seq<nat>, n: nat, ts: seq<Thunk>, hintAt: nat, w: nat)
    requires n + |ts| < |out| && out[n..n + |ts|] == Dense.SlotValues(ts, hintAt, w) && out[n + |ts|] == 0
    ensures out[n..n + (|ts| + 1)] == Dense.SlotValues(ts, hintAt, w) + [0]
  {
    hide Dense.SlotValues;
    assert out[n..n + (|ts| + 1)] == out[n..n + |ts|] + [out[n + |ts|]];
  }

  lemma {:induction false} DenseFirstIs(ms: seq<Module>, i: nat, iatRva: nat, w: nat)
    requires i < |ms|
    ensures FirstOf(ms, i, iatRva, false, w) == iatRva + w * Dense.SlotCount(ms[..i])
  {
    hide Dense.SlotCount;
  }

  lemma {:induction false} SlotsNotEmpty(table: bytes, o: nat, ts: seq<Thunk>, hintAt: nat, w: nat)
    requires w > 0 && At(table, o, SlotBytes(ts, hintAt, w) + Zeros(w))
    ensures o < |table|
  {
    hide SlotBytes;
  }

  lemma {:induction false} StandsIntroduced(h: Pe.Header, data: bytes, ms: seq<Module>, i: nat, va: nat, iatRva: nat,
      w: nat, at: nat)
    requires i < |ms| && Pe.RvaToOffset(h, FirstOf(ms, i, iatRva, false, w)) == Some(at)
    requires 0 < FirstOf(ms, i, iatRva, false, w) < TWO32
    requires At(data, at, SlotBytes(ms[i].thunks, HintsOf(ms, i, va), w) + Zeros(w))
    ensures SlotsStand(h, data, ms, i, va, iatRva, false, w)
  {
    hide SlotBytes, FirstOf, HintsOf, Pe.OffsetIn;
  }

  /** Dense mode: the slots the printer returns, written over the original table, make the section a rebuilt one. */
  lemma {:induction false} DenseRebuilt(h: Pe.Header, data: bytes, raw: nat, ms: seq<Module>, iatRva: nat, iatRaw: nat,
      w: nat)
    requires w == 4 || w == 8
    requires var va, sec := h.importRva, Dense.Section(ms, h.importRva, iatRva, false, w);
      0 < va && va + |sec| < 0x8000_0000 && Mapped(h, data, sec, va, raw)
    requires |ms| <= 511 && forall i :: 0 <= i < |ms| ==> WalkableModule(ms[i], w)
    requires 0 < iatRva
    requires var table := Dense.TableOf(Dense.OutThunks(ms, h.importRva + NamesAt(ms), w), w);
      Mapped(h, data, table, iatRva, iatRaw) && iatRva + |table| < TWO32
    ensures Rebuilt(h, data, raw, ms, iatRva, false, w)
  {
    hide Mapped, WalkableModule, SlotsStand, Dense.Section, Dense.TableOf, Dense.OutThunks;
    forall i | 0 <= i < |ms| ensures SlotsStand(h, data, ms, i, h.importRva, iatRva, false, w) {
      DenseStands(h, data, ms, h.importRva, iatRva, iatRaw, w, i);
    }
  }
}
