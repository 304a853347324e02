/** A printed import section as the system's loader reads it (section 6.4 of the PE/COFF specification). */
module ImportLoader {
  import opened Words
  import opened ImportTable
  import opened ImportReader
  import Dense = ImportDense

  /** The slot value v imports the thunk: by the RVA of a zero hint and exactly its name, or by its ordinal. */
  ghost predicate Imports(data: bytes, va: nat, v: nat, t: Thunk, w: nat)
  {
    match t.name
    case Some(name) => va <= v < 0x8000_0000 && At(data, v - va, [0, 0] + (name + [0]))
    case None =>
      v == match t.ordinal
           case Some(n) => (if w == 8 then 0x8000_0000_0000_0000 else 0x8000_0000) + n
           case None => 0
  }

  ghost predicate SlotLoads(data: bytes, va: nat, o: nat, t: Thunk, w: nat)
  {
    o + w <= |data| && Imports(data, va, Get(data, o, w), t, w)
  }

  /** The slots from o on are those of the thunks, in order, and then a zero. */
  ghost predicate TableLoads(data: bytes, va: nat, o: nat, ts: seq<Thunk>, w: nat)
    decreases |ts|
  {
    if ts == [] then o + w <= |data| && Get(data, o, w) == 0
    else SlotLoads(data, va, o, ts[0], w) && TableLoads(data, va, o + w, ts[1..], w)
  }

  /** The descriptor at o leads to the module's NUL-terminated name and, twice, to its thunks. */
  ghost predicate DescriptorLoads(data: bytes, va: nat, o: nat, m: Module, w: nat)
  {
    && o + 20 <= |data|
    && var lookup, name, first := Get(data, o, 4), Get(data, o + 12, 4), Get(data, o + 16, 4);
       && va <= lookup && va <= name && va <= first
       && Get(data, o + 4, 4) == 0 && Get(data, o + 8, 4) == 0
       && At(data, name - va, m.name + [0])
       && TableLoads(data, va, lookup - va, m.thunks, w) && TableLoads(data, va, first - va, m.thunks, w)
  }

  ghost predicate Loads(data: bytes, va: nat, o: nat, ms: seq<Module>, w: nat)
    decreases |ms|
  {
    if ms == [] then o + 20 <= |data| && forall k :: o <= k < o + 20 ==> data[k] == 0
    else DescriptorLoads(data, va, o, ms[0], w) && Loads(data, va, o + 20, ms[1..], w)
  }

  lemma {:induction false} FirstLoads(data: bytes, va: nat, o: nat, t: Thunk, hintAt: nat, w: nat)
    requires (w == 4 || w == 8) && va <= hintAt < 0x8000_0000 && 0 < hintAt
    requires At(data, o, Le(Slot(t, hintAt, w), w)) && At(data, hintAt - va, HintBytes(t))
    ensures SlotLoads(data, va, o, t, w)
  {
    hide Le, Get, At;
    SlotBound(t, hintAt, w);
    AtInside(data, o, Le(Slot(t, hintAt, w), w));
    GetAt(data, o, Slot(t, hintAt, w), w);
    if t.name.Some? {
      assert Zeros(2) == [0, 0];
    }
  }

  lemma {:induction false} SlotBound(t: Thunk, hintAt: nat, w: nat)
    requires (w == 4 || w == 8) && hintAt < 0x8000_0000
    ensures Slot(t, hintAt, w) < Range(w)
  {
    RangeValues();
  }

  lemma {:induction false} AtInside(b: bytes, o: nat, s: bytes)
    requires At(b, o, s)
    ensures o + |s| <= |b|
  {
  }

  lemma {:induction false} SlotsLoad(data: bytes, va: nat, o: nat, ts: seq<Thunk>, hintAt: nat, w: nat)
    requires (w == 4 || w == 8) && va <= hintAt && 0 < hintAt && va + |data| < 0x8000_0000
    requires At(data, o, SlotBytes(ts, hintAt, w) + Zeros(w)) && At(data, hintAt - va, HintsBytes(ts))
    ensures TableLoads(data, va, o, ts, w)
    decreases |ts|
  {
    hide At, Get, Slot, HintBytes, SlotBytes, HintsBytes, SlotLoads, Le, HintSize;
    if ts == [] {
      EndLoads(data, o, hintAt, w);
    } else {
      SlotsCons(data, o, ts, hintAt, w);
      HintsCons(data, hintAt - va, ts);
      HintInside(data, va, hintAt, ts);
      FirstLoads(data, va, o, ts[0], hintAt, w);
      assert hintAt + HintSize(ts[0]) - va == hintAt - va + HintSize(ts[0]);
      SlotsLoad(data, va, o + w, ts[1..], hintAt + HintSize(ts[0]), w);
    }
  }

  lemma {:induction false} EndLoads(data: bytes, o: nat, hintAt: nat, w: nat)
    requires At(data, o, SlotBytes([], hintAt, w) + Zeros(w))
    ensures o + w <= |data| && Get(data, o, w) == 0
  {
    hide Get;
    assert SlotBytes([], hintAt, w) + Zeros(w) == Zeros(w);
    ZeroWord(data, o, w);
  }

  lemma {:induction false} DescriptorPrinted(data: bytes, o: nat, lookup: nat, name: nat, first: nat)
    requires At(data, o, Descriptor(lookup, name, first)) && lookup < TWO32 && name < TWO32 && first < TWO32
    ensures o + 20 <= |data| && Get(data, o, 4) == lookup && Get(data, o + 12, 4) == name
    ensures Get(data, o + 16, 4) == first && Get(data, o + 4, 4) == 0 && Get(data, o + 8, 4) == 0
  {
    hide Le, Get;
    DescriptorAt(data, o, lookup, name, first);
    AtSplit(data, o, Le(lookup, 4) + Zeros(8) + Le(name, 4), Le(first, 4));
    AtSplit(data, o, Le(lookup, 4) + Zeros(8), Le(name, 4));
    AtSplit(data, o, Le(lookup, 4), Zeros(8));
    assert Zeros(8) == Zeros(4) + Zeros(4);
    AtSplit(data, o + 4, Zeros(4), Zeros(4));
    ZeroWord(data, o + 4, 4);
    ZeroWord(data, o + 8, 4);
  }

  lemma {:induction false} NullPrinted(data: bytes, va: nat, o: nat, c: Cursors, w: nat)
    requires Stands(data, va, o, [], c, w)
    ensures Loads(data, va, o, [], w)
  {
    assert Descriptors([], c.name, c.iat, c.ilt, w) + Zeros(DESCRIPTOR) == Zeros(20);
    forall k | o <= k < o + 20 ensures data[k] == 0 {
      AtByte(data, o, Zeros(20), k - o);
    }
  }

  lemma {:induction false} StandingLoads(data: bytes, va: nat, o: nat, ms: seq<Module>, c: Cursors, w: nat)
    requires (w == 4 || w == 8) && Stands(data, va, o, ms, c, w) && va + |data| < 0x8000_0000
    ensures Loads(data, va, o, ms, w)
    decreases |ms|
  {
    hide *;
    if ms == [] {
      NullPrinted(data, va, o, c, w);
    } else {
      StandsCons(data, va, o, ms, c, w);
      StandsInside(data, va, o, ms, c, w);
      OffsetSize();
      ModuleLoads(data, va, o, ms[0], c, w);
      StandingLoads(data, va, o + 20, ms[1..], Next(c, ms[0], w), w);
      LoadsCons(data, va, o, ms, w);
    }
  }

  lemma {:induction false} OffsetSize()
    ensures DESCRIPTOR == 20
  {
  }

  lemma {:induction false} ModuleLoads(data: bytes, va: nat, o: nat, m: Module, c: Cursors, w: nat)
    requires (w == 4 || w == 8) && va + |data| < 0x8000_0000
    requires va <= c.name <= va + |data| && va <= c.hint <= va + |data| && 0 < c.hint
    requires va <= c.iat <= va + |data| && va <= c.ilt <= va + |data|
    requires At(data, o, Descriptor(c.ilt, c.name, c.iat)) && At(data, c.name - va, m.name + [0])
    requires At(data, c.hint - va, HintsBytes(m.thunks))
    requires At(data, c.iat - va, SlotBytes(m.thunks, c.hint, w) + Zeros(w))
    requires At(data, c.ilt - va, SlotBytes(m.thunks, c.hint, w) + Zeros(w))
    ensures DescriptorLoads(data, va, o, m, w)
  {
    hide At, Get, Descriptor, SlotBytes, HintsBytes, TableLoads;
    DescriptorPrinted(data, o, c.ilt, c.name, c.iat);
    SlotsLoad(data, va, c.iat - va, m.thunks, c.hint, w);
    SlotsLoad(data, va, c.ilt - va, m.thunks, c.hint, w);
  }

  lemma {:induction false} LoadsCons(data: bytes, va: nat, o: nat, ms: seq<Module>, w: nat)
    requires ms != [] && DescriptorLoads(data, va, o, ms[0], w) && Loads(data, va, o + 20, ms[1..], w)
    ensures Loads(data, va, o, ms, w)
  {
    hide DescriptorLoads;
  }

  /** A printed section imports exactly its modules, in order: both tables of each hold its thunks. */
  lemma {:induction false} PrintedLoads(ms: seq<Module>, va: nat, w: nat)
    requires (w == 4 || w == 8) && va + SectionSize(ms, w) < 0x8000_0000
    ensures Loads(SectionBytes(ms, va, w), va, 0, ms, w)
  {
    hide *;
    var data := SectionBytes(ms, va, w);
    SectionLength(ms, va, w);
    AtWhole(data);
    SectionStands(data, va, ms, w);
    StandingLoads(data, va, 0, ms, Start(ms, va, w), w);
  }

  // ---- The section without an address table of its own ---------------------------------------------------

  /** A printed slot value imports its thunk, whose hint/name entry stands in the section. */
  lemma {:induction false} ValueImports(ms: seq<Module>, i: nat, k: nat, va: nat, iatRva: nat, records: bool, w: nat)
    requires i < |ms| && k < |ms[i].thunks|
    requires va + |Dense.Section(ms, va, iatRva, records, w)| < 0x8000_0000
    ensures var data, t := Dense.Section(ms, va, iatRva, records, w), ms[i].thunks[k];
      Imports(data, va, Slot(t, va + Dense.HintOffset(ms, i, k), w), t, w)
  {
    hide Dense.Section, Dense.OutThunks, At;
    var t := ms[i].thunks[k];
    Dense.ThunkSlot(ms, i, k, va, iatRva, records, w);
    if t.name.Some? {
      assert Zeros(2) == [0, 0];
      AtInside(Dense.Section(ms, va, iatRva, records, w), Dense.HintOffset(ms, i, k), [0, 0] + (t.name.value + [0]));
    }
  }

  /** The descriptor of module i has no lookup table, leads to its name, and to its slots in the original table. */
  ghost predicate DescribesAt(data: bytes, va: nat, i: nat, m: Module, first: nat)
  {
    && 20 * i + 20 <= |data|
    && Get(data, 20 * i, 4) == 0 && Get(data, 20 * i + 4, 4) == 0 && Get(data, 20 * i + 8, 4) == 0
    && va <= Get(data, 20 * i + 12, 4) && At(data, Get(data, 20 * i + 12, 4) - va, m.name + [0])
    && Get(data, 20 * i + 16, 4) == first
  }

  lemma {:induction false} DescriptorDescribes(ms: seq<Module>, i: nat, va: nat, iatRva: nat, records: bool, w: nat)
    requires i < |ms| && va + |Dense.Section(ms, va, iatRva, records, w)| < TWO32
    requires Dense.FirstThunk(ms[i], iatRva, w * Dense.SlotCount(ms[..i]), records) < TWO32
    ensures DescribesAt(Dense.Section(ms, va, iatRva, records, w), va, i, ms[i],
                        Dense.FirstThunk(ms[i], iatRva, w * Dense.SlotCount(ms[..i]), records))
  {
    hide Dense.Section, Dense.FirstThunk, Dense.SlotCount, Dense.NameOffset, At, Get, Dense.Strings, Descriptor;
    var data := Dense.Section(ms, va, iatRva, records, w);
    Dense.ModuleDescriptor(ms, i, va, iatRva, records, w);
    OffsetSize();
    AtInside(data, Dense.NameOffset(ms, i), ms[i].name + [0]);
    DescriptorPrinted(data, 20 * i, 0, va + Dense.NameOffset(ms, i),
                      Dense.FirstThunk(ms[i], iatRva, w * Dense.SlotCount(ms[..i]), records));
  }

  /**
   * Dense mode: with the returned slots over the original table, module i's descriptor leads to its name and to
   * as many slots as come before its own, and slot k imports thunk k; behind the last one stands a zero.
   */
  lemma {:induction false} DenseImports(ms: seq<Module>, i: nat, k: nat, va: nat, iatRva: nat, w: nat, image: bytes)
    requires (w == 4 || w == 8) && i < |ms| && k <= |ms[i].thunks|
    requires At(image, iatRva, Dense.TableOf(Dense.OutThunks(ms, va + NamesAt(ms), w), w))
    requires va + |Dense.Section(ms, va, iatRva, false, w)| < 0x8000_0000 && |image| < TWO32
    ensures var data, first, ts := Dense.Section(ms, va, iatRva, false, w),
        iatRva + w * Dense.SlotCount(ms[..i]), ms[i].thunks;
      && DescribesAt(data, va, i, ms[i], first) && first + w * k + w <= |image|
      && if k < |ts| then Imports(data, va, Get(image, first + w * k, w), ts[k], w)
         else Get(image, first + w * k, w) == 0
  {
    hide *;
    BoundOk(w);
    Dense.DenseFirst(ms[i], iatRva, w * Dense.SlotCount(ms[..i]));
    Dense.DenseLoaderView(ms, i, k, va, iatRva, w, image);
    DescriptorDescribes(ms, i, va, iatRva, false, w);
    if k < |ms[i].thunks| {
      ValueImports(ms, i, k, va, iatRva, false, w);
    }
  }

  lemma {:induction false} BoundOk(w: nat)
    ensures 0x8000_0000 < Dense.RvaBound(w) && 0x8000_0000 < TWO32 < TWO64
  {
  }
}
