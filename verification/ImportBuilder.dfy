/** ImportTableBuilder (crates/pe/src/import_table.rs): two passes, one to measure and one to fill. */
module ImportBuilder {
  import opened Words
  import opened ImportTable
  import Dense = ImportDense

  /** What has been written so far, region by region. */
  datatype Parts = Parts(desc: bytes, names: bytes, hints: bytes, iat: bytes, ilt: bytes)

  /** Where the regions behind the descriptors start, and where the section ends. */
  datatype Bounds = Bounds(names: nat, hints: nat, iat: nat, ilt: nat, end: nat)

  /** The region from lo to hi starts with s and is zero behind it. */
  ghost predicate Region(data: bytes, lo: nat, hi: nat, s: bytes)
  {
    lo + |s| <= hi <= |data| && data[lo..hi] == s + Zeros(hi - lo - |s|)
  }

  ghost predicate Filled(data: bytes, b: Bounds, p: Parts)
  {
    && b.names <= b.hints <= b.iat <= b.ilt <= b.end == |data|
    && Region(data, 0, b.names, p.desc)
    && Region(data, b.names, b.hints, p.names)
    && Region(data, b.hints, b.iat, p.hints)
    && Region(data, b.iat, b.ilt, p.iat)
    && Region(data, b.ilt, b.end, p.ilt)
  }

  lemma {:induction false} RegionPut(data: bytes, lo: nat, hi: nat, a: bytes, s: bytes)
    requires Region(data, lo, hi, a) && lo + |a| + |s| <= hi
    ensures Region(Put(data, lo + |a|, s), lo, hi, a + s)
  {
    var r, t := Put(data, lo + |a|, s), (a + s) + Zeros(hi - lo - |a + s|);
    assert |r[lo..hi]| == |t|;
    forall k | 0 <= k < hi - lo ensures r[lo..hi][k] == t[k] {
      assert data[lo + k] == data[lo..hi][k] == (a + Zeros(hi - lo - |a|))[k];
    }
  }

  lemma {:induction false} RegionKeep(data: bytes, lo: nat, hi: nat, a: bytes, o: nat, s: bytes)
    requires Region(data, lo, hi, a) && o + |s| <= |data| && (o + |s| <= lo || hi <= o)
    ensures Region(Put(data, o, s), lo, hi, a)
  {
    assert Put(data, o, s)[lo..hi] == data[lo..hi];
  }

  /** Zeros behind the written part may be counted as written. */
  lemma {:induction false} RegionSkip(data: bytes, lo: nat, hi: nat, a: bytes, n: nat)
    requires Region(data, lo, hi, a) && lo + |a| + n <= hi
    ensures Region(data, lo, hi, a + Zeros(n))
  {
    assert a + Zeros(hi - lo - |a|) == (a + Zeros(n)) + Zeros(hi - lo - |a| - n);
  }

  lemma {:induction false} RegionWhole(data: bytes, lo: nat, hi: nat, a: bytes)
    requires Region(data, lo, hi, a)
    ensures At(data, lo, a)
    ensures At(data, lo + |a|, Zeros(hi - lo - |a|))
  {
    assert a == data[lo..hi][..|a|] == data[lo..lo + |a|];
    assert Zeros(hi - lo - |a|) == data[lo..hi][|a|..] == data[lo + |a|..hi];
  }

  lemma {:induction false} PutDesc(data: bytes, b: Bounds, p: Parts, s: bytes)
    requires Filled(data, b, p) && |p.desc| + |s| <= b.names
    ensures Filled(Put(data, |p.desc|, s), b, p.(desc := p.desc + s))
  {
    hide Region;
    RegionPut(data, 0, b.names, p.desc, s);
    RegionKeep(data, b.names, b.hints, p.names, |p.desc|, s);
    RegionKeep(data, b.hints, b.iat, p.hints, |p.desc|, s);
    RegionKeep(data, b.iat, b.ilt, p.iat, |p.desc|, s);
    RegionKeep(data, b.ilt, b.end, p.ilt, |p.desc|, s);
  }

  lemma {:induction false} PutName(data: bytes, b: Bounds, p: Parts, s: bytes)
    requires Filled(data, b, p) && b.names + |p.names| + |s| <= b.hints
    ensures Filled(Put(data, b.names + |p.names|, s), b, p.(names := p.names + s))
  {
    hide Region;
    var o := b.names + |p.names|;
    RegionKeep(data, 0, b.names, p.desc, o, s);
    RegionPut(data, b.names, b.hints, p.names, s);
    RegionKeep(data, b.hints, b.iat, p.hints, o, s);
    RegionKeep(data, b.iat, b.ilt, p.iat, o, s);
    RegionKeep(data, b.ilt, b.end, p.ilt, o, s);
  }

  lemma {:induction false} PutHint(data: bytes, b: Bounds, p: Parts, s: bytes)
    requires Filled(data, b, p) && b.hints + |p.hints| + |s| <= b.iat
    ensures Filled(Put(data, b.hints + |p.hints|, s), b, p.(hints := p.hints + s))
  {
    hide Region;
    var o := b.hints + |p.hints|;
    RegionKeep(data, 0, b.names, p.desc, o, s);
    RegionKeep(data, b.names, b.hints, p.names, o, s);
    RegionPut(data, b.hints, b.iat, p.hints, s);
    RegionKeep(data, b.iat, b.ilt, p.iat, o, s);
    RegionKeep(data, b.ilt, b.end, p.ilt, o, s);
  }

  lemma {:induction false} PutIat(data: bytes, b: Bounds, p: Parts, s: bytes)
    requires Filled(data, b, p) && b.iat + |p.iat| + |s| <= b.ilt
    ensures Filled(Put(data, b.iat + |p.iat|, s), b, p.(iat := p.iat + s))
  {
    hide Region;
    var o := b.iat + |p.iat|;
    RegionKeep(data, 0, b.names, p.desc, o, s);
    RegionKeep(data, b.names, b.hints, p.names, o, s);
    RegionKeep(data, b.hints, b.iat, p.hints, o, s);
    RegionPut(data, b.iat, b.ilt, p.iat, s);
    RegionKeep(data, b.ilt, b.end, p.ilt, o, s);
  }

  lemma {:induction false} PutIlt(data: bytes, b: Bounds, p: Parts, s: bytes)
    requires Filled(data, b, p) && b.ilt + |p.ilt| + |s| <= b.end
    ensures Filled(Put(data, b.ilt + |p.ilt|, s), b, p.(ilt := p.ilt + s))
  {
    hide Region;
    var o := b.ilt + |p.ilt|;
    RegionKeep(data, 0, b.names, p.desc, o, s);
    RegionKeep(data, b.names, b.hints, p.names, o, s);
    RegionKeep(data, b.hints, b.iat, p.hints, o, s);
    RegionKeep(data, b.iat, b.ilt, p.iat, o, s);
    RegionPut(data, b.ilt, b.end, p.ilt, s);
  }

  /** Terminators are left as the zeros the buffer started with. */
  lemma {:induction false} SkipNul(data: bytes, b: Bounds, p: Parts)
    requires Filled(data, b, p)
    ensures b.names + |p.names| + 1 <= b.hints ==> Filled(data, b, p.(names := p.names + Zeros(1)))
    ensures b.hints + |p.hints| + 1 <= b.iat ==> Filled(data, b, p.(hints := p.hints + Zeros(1)))
  {
    hide Region;
    if b.names + |p.names| + 1 <= b.hints {
      RegionSkip(data, b.names, b.hints, p.names, 1);
    }
    if b.hints + |p.hints| + 1 <= b.iat {
      RegionSkip(data, b.hints, b.iat, p.hints, 1);
    }
  }

  lemma {:induction false} StartFilled(b: Bounds)
    requires b.names <= b.hints <= b.iat <= b.ilt <= b.end
    ensures Filled(Zeros(b.end), b, Parts([], [], [], [], []))
  {
    assert forall lo: nat, hi: nat :: lo <= hi <= b.end ==> Zeros(b.end)[lo..hi] == [] + Zeros(hi - lo);
  }

  lemma {:induction false} FilledBounds(data: bytes, b: Bounds, p: Parts)
    requires Filled(data, b, p)
    ensures b.names <= b.hints <= b.iat <= b.ilt <= b.end == |data|
  {
  }

  // ---- Filling ---------------------------------------------------------------------------------

  /** Room for s behind each part. */
  ghost predicate Room(b: Bounds, p: Parts, names: nat, hints: nat, table: nat)
  {
    && b.names + |p.names| + names <= b.hints && b.hints + |p.hints| + hints <= b.iat
    && b.iat + |p.iat| + table <= b.ilt && b.ilt + |p.ilt| + table <= b.end
  }

  /** The hint/name entry of a named thunk: a zero hint, the name, and the NUL that is already there. */
  method WriteHint(data: array<u8>, hintCursor: nat, name: bytes, ghost b: Bounds, ghost p: Parts)
    returns (next: nat, ghost q: Parts)
    requires Filled(data[..], b, p) && Room(b, p, 0, 2 + |name| + 1, 0) && hintCursor == b.hints + |p.hints|
    modifies data
    ensures q == p.(hints := p.hints + (Zeros(2) + (name + [0]))) && next == hintCursor + (2 + |name| + 1)
    ensures Filled(data[..], b, q)
  {
    hide Filled;
    next := hintCursor;
    FilledBounds(data[..], b, p);
    PutHint(data[..], b, p, Zeros(2));
    CopyInto(data, next, Zeros(2));
    next := next + 2;
    q := p.(hints := p.hints + Zeros(2));
    PutHint(data[..], b, q, name);
    CopyInto(data, next, name);
    next := next + |name| + 1;
    q := q.(hints := q.hints + name);
    SkipNul(data[..], b, q);
    assert p.hints + Zeros(2) + name + Zeros(1) == p.hints + (Zeros(2) + (name + [0]));
    q := q.(hints := q.hints + Zeros(1));
  }

  method WriteSlot(data: array<u8>, iatCursor: nat, iltCursor: nat, slot: nat, w: nat, ghost b: Bounds, ghost p: Parts)
    returns (ghost q: Parts)
    requires Filled(data[..], b, p) && Room(b, p, 0, 0, w)
    requires iatCursor == b.iat + |p.iat| && iltCursor == b.ilt + |p.ilt|
    modifies data
    ensures q == p.(iat := p.iat + Le(slot, w), ilt := p.ilt + Le(slot, w)) && Filled(data[..], b, q)
  {
    hide Filled, Le;
    FilledBounds(data[..], b, p);
    PutIat(data[..], b, p, Le(slot, w));
    CopyInto(data, iatCursor, Le(slot, w));
    q := p.(iat := p.iat + Le(slot, w));
    PutIlt(data[..], b, q, Le(slot, w));
    CopyInto(data, iltCursor, Le(slot, w));
    q := q.(ilt := q.ilt + Le(slot, w));
  }

  /** The terminators of both tables, byte by byte. */
  method WriteTerminators(data: array<u8>, iatCursor: nat, iltCursor: nat, w: nat, ghost b: Bounds, ghost p: Parts)
    returns (ghost q: Parts)
    requires Filled(data[..], b, p) && Room(b, p, 0, 0, w)
    requires iatCursor == b.iat + |p.iat| && iltCursor == b.ilt + |p.ilt|
    modifies data
    ensures q == p.(iat := p.iat + Zeros(w), ilt := p.ilt + Zeros(w)) && Filled(data[..], b, q)
  {
    hide Filled;
    q := p;
    for k := 0 to w
      invariant q == p.(iat := p.iat + Zeros(k), ilt := p.ilt + Zeros(k)) && Filled(data[..], b, q)
    {
      FilledBounds(data[..], b, q);
      PutIat(data[..], b, q, [0]);
      CopyInto(data, iatCursor + k, [0]);
      q := q.(iat := q.iat + [0]);
      PutIlt(data[..], b, q, [0]);
      CopyInto(data, iltCursor + k, [0]);
      q := q.(ilt := q.ilt + [0]);
    }
  }

  /** What is written once the thunks ts have been added to q. */
  function AfterThunks(b: Bounds, va: nat, q: Parts, ts: seq<Thunk>, w: nat): Parts
  {
    var slots := SlotBytes(ts, va + b.hints + |q.hints|, w);
    q.(hints := q.hints + HintsBytes(ts), iat := q.iat + slots, ilt := q.ilt + slots)
  }

  /** What is written once the modules ms have been added to q. */
  function AfterModules(b: Bounds, va: nat, q: Parts, ms: seq<Module>, w: nat): Parts
  {
    var tables := Tables(ms, va + b.hints + |q.hints|, w);
    Parts(q.desc + Descriptors(ms, va + b.names + |q.names|, va + b.iat + |q.iat|, va + b.ilt + |q.ilt|, w),
          q.names + Names(ms), q.hints + Hints(ms), q.iat + tables, q.ilt + tables)
  }

  lemma {:induction false} AfterThunksCons(b: Bounds, va: nat, q: Parts, ts: seq<Thunk>, w: nat)
    requires ts != []
    ensures AfterThunks(b, va, q, ts, w)
         == AfterThunks(b, va, AfterThunks(b, va, q, ts[..1], w), ts[1..], w)
    ensures |AfterThunks(b, va, q, ts[..1], w).hints| == |q.hints| + HintSize(ts[0])
  {
    hide Slot, Le;
    var at := va + b.hints + |q.hints|;
    OneThunk(ts, at, w);
    var one, rest := SlotBytes(ts[..1], at, w), SlotBytes(ts[1..], at + HintSize(ts[0]), w);
    assert q.iat + one + rest == q.iat + (one + rest) && q.ilt + one + rest == q.ilt + (one + rest);
    assert q.hints + HintsBytes(ts[..1]) + HintsBytes(ts[1..]) == q.hints + HintsBytes(ts);
  }

  lemma {:induction false} OneThunk(ts: seq<Thunk>, at: nat, w: nat)
    requires ts != []
    ensures SlotBytes(ts[..1], at, w) == Le(Slot(ts[0], at, w), w) && HintsBytes(ts[..1]) == HintBytes(ts[0])
    ensures SlotBytes(ts, at, w) == SlotBytes(ts[..1], at, w) + SlotBytes(ts[1..], at + HintSize(ts[0]), w)
    ensures HintsBytes(ts) == HintsBytes(ts[..1]) + HintsBytes(ts[1..])
    ensures |HintsBytes(ts[..1])| == HintSize(ts[0])
  {
    hide Slot, Le;
    assert ts[..1][1..] == [] && ts[..1][0] == ts[0];
  }

  /** One thunk: its hint/name entry, if it has a name, and its slot in both tables. */
  method WriteThunk(data: array<u8>, t: Thunk, va: nat, hint: nat, iat: nat, ilt: nat, w: nat, ghost b: Bounds,
      ghost p: Parts)
    returns (next: nat, ghost q: Parts)
    requires Filled(data[..], b, p) && Room(b, p, 0, HintSize(t), w)
    requires hint == b.hints + |p.hints| && iat == b.iat + |p.iat| && ilt == b.ilt + |p.ilt|
    modifies data
    ensures next == hint + HintSize(t) && Filled(data[..], b, q)
    ensures q == AfterThunks(b, va, p, [t], w)
  {
    hide Filled, Le, SlotBytes, HintsBytes;
    next, q := hint, p;
    OneThunk([t], va + hint, w);
    assert [t][..1] == [t];
    var slot: nat := 0;
    if t.name.Some? {
      slot := va + hint;
      next, q := WriteHint(data, hint, t.name.value, b, p);
    } else {
      assert p.hints + HintBytes(t) == p.hints;
      if t.ordinal.Some? {
        slot := OrdinalFlag(w) + t.ordinal.value;
      }
    }
    q := WriteSlot(data, iat, ilt, slot, w, b, q);
  }

  /** All thunks of a module. */
  method WriteThunks(data: array<u8>, ts: seq<Thunk>, va: nat, hint: nat, iat: nat, ilt: nat, w: nat,
      ghost b: Bounds, ghost p: Parts)
    returns (hintNext: nat, iatNext: nat, iltNext: nat, ghost q: Parts)
    requires Filled(data[..], b, p) && Room(b, p, 0, HintsSize(ts), w * |ts|)
    requires hint == b.hints + |p.hints| && iat == b.iat + |p.iat| && ilt == b.ilt + |p.ilt|
    modifies data
    ensures Filled(data[..], b, q) && q == AfterThunks(b, va, p, ts, w)
    ensures hintNext == b.hints + |q.hints| && iatNext == b.iat + |q.iat| && iltNext == b.ilt + |q.ilt|
  {
    hide *;
    hintNext, iatNext, iltNext, q := hint, iat, ilt, p;
    for k := 0 to |ts|
      invariant Filled(data[..], b, q) && Room(b, q, 0, HintsSize(ts[k..]), w * |ts[k..]|)
      invariant hintNext == b.hints + |q.hints| && iatNext == b.iat + |q.iat| && iltNext == b.ilt + |q.ilt|
      invariant AfterThunks(b, va, q, ts[k..], w) == AfterThunks(b, va, p, ts, w)
    {
      assert ts[k..][1..] == ts[k + 1..] && ts[k..][0] == ts[k] && ts[k..][..1] == [ts[k]];
      RoomThunk(b, va, q, ts[k..], w);
      AfterThunksCons(b, va, q, ts[k..], w);
      hintNext, q := WriteThunk(data, ts[k], va, hintNext, iatNext, iltNext, w, b, q);
      iatNext, iltNext := iatNext + w, iltNext + w;
    }
    AfterNoThunks(b, va, q, ts[|ts|..], w);
  }

  lemma {:induction false} AfterNoThunks(b: Bounds, va: nat, q: Parts, ts: seq<Thunk>, w: nat)
    requires ts == []
    ensures AfterThunks(b, va, q, ts, w) == q
  {
  }

  /** Room for the thunks is room for the first, and behind it for the rest. */
  lemma {:induction false} RoomThunk(b: Bounds, va: nat, q: Parts, ts: seq<Thunk>, w: nat)
    requires ts != [] && Room(b, q, 0, HintsSize(ts), w * |ts|)
    ensures Room(b, q, 0, HintSize(ts[0]), w)
    ensures var r := AfterThunks(b, va, q, ts[..1], w);
      && Room(b, r, 0, HintsSize(ts[1..]), w * |ts[1..]|)
      && |r.iat| == |q.iat| + w && |r.ilt| == |q.ilt| + w
  {
    hide Slot, SlotBytes, Le, HintsBytes, HintBytes;
    OneThunk(ts, va + b.hints + |q.hints|, w);
    assert w * |ts| == w + w * |ts[1..]|;
  }

  /** One module: its name, its descriptor, its thunks in both tables, and the terminators. */
  method WriteModule(data: array<u8>, m: Module, va: nat, desc: nat, name: nat, hint: nat, iat: nat, ilt: nat, w: nat,
                     ghost b: Bounds, ghost p: Parts)
    returns (hintNext: nat, iatNext: nat, iltNext: nat, ghost q: Parts)
    requires Filled(data[..], b, p) && Room(b, p, |m.name| + 1, HintsSize(m.thunks), TableSize(m, w))
    requires |p.desc| + DESCRIPTOR <= b.names
    requires desc == |p.desc| && name == b.names + |p.names|
    requires hint == b.hints + |p.hints| && iat == b.iat + |p.iat| && ilt == b.ilt + |p.ilt|
    modifies data
    ensures Filled(data[..], b, q) && q == AfterModule(b, va, p, m, w)
    ensures hintNext == b.hints + |q.hints| && iatNext == b.iat + |q.iat| && iltNext == b.ilt + |q.ilt|
  {
    hide Filled, Slot, SlotBytes, HintsBytes, HintsSize, Le;
    RoomModule(b, va, p, m, w);
    q := WriteNameAndDescriptor(data, m.name, va, desc, name, iat, ilt, b, p);
    hintNext, iatNext, iltNext, q := WriteThunks(data, m.thunks, va, hint, iat, ilt, w, b, q);
    q := WriteTerminators(data, iatNext, iltNext, w, b, q);
    iatNext, iltNext := iatNext + w, iltNext + w;
  }

  method WriteNameAndDescriptor(data: array<u8>, dll: bytes, va: nat, desc: nat, name: nat, iat: nat, ilt: nat,
                                ghost b: Bounds, ghost p: Parts)
    returns (ghost q: Parts)
    requires Filled(data[..], b, p) && Room(b, p, |dll| + 1, 0, 0)
    requires |p.desc| + DESCRIPTOR <= b.names
    requires desc == |p.desc| && name == b.names + |p.names|
    modifies data
    ensures Filled(data[..], b, q)
    ensures q == p.(desc := p.desc + Descriptor(va + ilt, va + name, va + iat), names := p.names + (dll + [0]))
  {
    hide Filled, Le;
    FilledBounds(data[..], b, p);
    PutName(data[..], b, p, dll);
    CopyInto(data, name, dll);
    q := p.(names := p.names + dll);
    SkipNul(data[..], b, q);
    q := q.(names := q.names + Zeros(1));
    assert p.names + dll + Zeros(1) == p.names + (dll + [0]);
    q := WriteDescriptor(data, desc, va + ilt, va + name, va + iat, b, q);
  }

  /** The five fields of a descriptor, one after the other. */
  method WriteDescriptor(data: array<u8>, desc: nat, lookup: nat, name: nat, first: nat, ghost b: Bounds,
      ghost p: Parts)
    returns (ghost q: Parts)
    requires Filled(data[..], b, p) && desc == |p.desc| && |p.desc| + DESCRIPTOR <= b.names
    modifies data
    ensures Filled(data[..], b, q) && q == p.(desc := p.desc + Descriptor(lookup, name, first))
  {
    hide Filled;
    FilledBounds(data[..], b, p);
    PutDesc(data[..], b, p, Le(lookup, 4));
    CopyInto(data, desc, Le(lookup, 4));
    q := p.(desc := p.desc + Le(lookup, 4));
    PutDesc(data[..], b, q, Zeros(4));
    CopyInto(data, desc + 4, Zeros(4));
    q := q.(desc := q.desc + Zeros(4));
    PutDesc(data[..], b, q, Zeros(4));
    CopyInto(data, desc + 8, Zeros(4));
    q := q.(desc := q.desc + Zeros(4));
    PutDesc(data[..], b, q, Le(name, 4));
    CopyInto(data, desc + 12, Le(name, 4));
    q := q.(desc := q.desc + Le(name, 4));
    PutDesc(data[..], b, q, Le(first, 4));
    CopyInto(data, desc + 16, Le(first, 4));
    q := q.(desc := q.desc + Le(first, 4));
    DescriptorFields(p.desc, lookup, name, first);
  }

  lemma {:induction false} DescriptorFields(s: bytes, lookup: nat, name: nat, first: nat)
    ensures s + Le(lookup, 4) + Zeros(4) + Zeros(4) + Le(name, 4) + Le(first, 4) == s + Descriptor(lookup, name, first)
  {
    hide Le;
    assert Zeros(8) == Zeros(4) + Zeros(4);
    var a, c, d := Le(lookup, 4), Le(name, 4), Le(first, 4);
    assert s + a + Zeros(4) + Zeros(4) + c + d == s + (a + (Zeros(4) + Zeros(4)) + c + d);
  }

  function AfterModule(b: Bounds, va: nat, p: Parts, m: Module, w: nat): Parts
  {
    var d := Descriptor(va + (b.ilt + |p.ilt|), va + (b.names + |p.names|), va + (b.iat + |p.iat|));
    var q := AfterThunks(b, va, p.(desc := p.desc + d, names := p.names + (m.name + [0])), m.thunks, w);
    q.(iat := q.iat + Zeros(w), ilt := q.ilt + Zeros(w))
  }

  lemma {:induction false} RoomModule(b: Bounds, va: nat, p: Parts, m: Module, w: nat)
    requires Room(b, p, |m.name| + 1, HintsSize(m.thunks), TableSize(m, w))
    ensures Room(b, p, |m.name| + 1, 0, 0)
    ensures Room(b, p, 0, HintsSize(m.thunks), w * |m.thunks|)
    ensures var q := AfterThunks(b, va, p, m.thunks, w);
      && Room(b, q, 0, 0, w) && |q.iat| + w == |p.iat| + TableSize(m, w) && |q.ilt| + w == |p.ilt| + TableSize(m, w)
      && |q.hints| == |p.hints| + HintsSize(m.thunks)
  {
    hide HintsSize, HintsBytes, SlotBytes;
    TableSizeSplit(m, w);
    SlotBytesLength(m.thunks, va + b.hints + |p.hints|, w);
    HintsBytesLength(m.thunks);
  }

  lemma {:induction false} AfterModulesCons(b: Bounds, va: nat, p: Parts, ms: seq<Module>, w: nat)
    requires ms != []
    ensures AfterModules(b, va, p, ms, w) == AfterModules(b, va, AfterModule(b, va, p, ms[0], w), ms[1..], w)
  {
    hide SlotBytes, HintsBytes, TableSize, HintsSize, Descriptor;
    var m, q := ms[0], AfterModule(b, va, p, ms[0], w);
    AfterModuleSizes(b, va, p, m, w);
    var slots := SlotBytes(m.thunks, va + b.hints + |p.hints|, w);
    DescriptorsOpen(ms, va + b.names + |p.names|, va + b.iat + |p.iat|, va + b.ilt + |p.ilt|, w);
    var tables := Tables(ms[1..], va + b.hints + |q.hints|, w);
    Regroup(p.iat, slots, Zeros(w), tables);
    Regroup(p.ilt, slots, Zeros(w), tables);
    assert p.names + (m.name + [0]) + Names(ms[1..]) == p.names + Names(ms);
    assert p.hints + HintsBytes(m.thunks) + Hints(ms[1..]) == p.hints + Hints(ms);
  }

  lemma {:induction false} Regroup(a: bytes, x: bytes, y: bytes, z: bytes)
    ensures a + x + y + z == a + ((x + y) + z)
  {
  }

  lemma {:induction false} DescriptorsOpen(ms: seq<Module>, nameAt: nat, iatAt: nat, iltAt: nat, w: nat)
    requires ms != []
    ensures Descriptors(ms, nameAt, iatAt, iltAt, w)
         == Descriptor(iltAt, nameAt, iatAt)
          + Descriptors(ms[1..], nameAt + |ms[0].name| + 1, iatAt + TableSize(ms[0], w), iltAt + TableSize(ms[0], w), w)
  {
  }

  lemma {:induction false} AfterModuleSizes(b: Bounds, va: nat, p: Parts, m: Module, w: nat)
    ensures var q := AfterModule(b, va, p, m, w);
      && |q.desc| == |p.desc| + DESCRIPTOR && |q.names| == |p.names| + |m.name| + 1
      && |q.hints| == |p.hints| + HintsSize(m.thunks)
      && |q.iat| == |p.iat| + TableSize(m, w) && |q.ilt| == |p.ilt| + TableSize(m, w)
  {
    hide HintsSize, HintsBytes, SlotBytes;
    TableSizeSplit(m, w);
    SlotBytesLength(m.thunks, va + b.hints + |p.hints|, w);
    HintsBytesLength(m.thunks);
  }

  lemma {:induction false} AfterNoModules(b: Bounds, va: nat, p: Parts, ms: seq<Module>, w: nat)
    requires ms == []
    ensures AfterModules(b, va, p, ms, w) == p
  {
  }

  /** Room for the modules ms. */
  ghost predicate ModulesRoom(b: Bounds, p: Parts, ms: seq<Module>, w: nat)
  {
    |p.desc| + DESCRIPTOR * |ms| <= b.names && Room(b, p, |Names(ms)|, |Hints(ms)|, TablesSize(ms, w))
  }

  lemma {:induction false} ModulesRoomCons(b: Bounds, va: nat, p: Parts, ms: seq<Module>, w: nat)
    requires ms != [] && ModulesRoom(b, p, ms, w)
    ensures Room(b, p, |ms[0].name| + 1, HintsSize(ms[0].thunks), TableSize(ms[0], w))
    ensures |p.desc| + DESCRIPTOR <= b.names
    ensures ModulesRoom(b, AfterModule(b, va, p, ms[0], w), ms[1..], w)
  {
    hide HintsSize, HintsBytes, TableSize, AfterModule;
    HintsBytesLength(ms[0].thunks);
    AfterModuleSizes(b, va, p, ms[0], w);
  }

  class ImportTableBuilder {
    var modules: seq<Module>
    const is64bit: bool

    constructor (is64bit: bool)
      ensures modules == [] && this.is64bit == is64bit
    {
      modules := [];
      this.is64bit := is64bit;
    }

    method AddModule(name: bytes)
      modifies this
      ensures modules == old(modules) + [Module(Lower(name), [])]
    {
      modules := modules + [Module(Lower(name), [])];
    }

    /** Sizes of the name strings, of the hint/name entries and of one table. */
    method Measure(w: nat) returns (names: nat, hints: nat, table: nat)
      ensures names == |Names(modules)| && hints == |Hints(modules)| && table == TablesSize(modules, w)
    {
      hide TableSize, HintsBytes, HintsSize;
      names, hints, table := 0, 0, 0;
      for i := 0 to |modules|
        invariant names + |Names(modules[i..])| == |Names(modules)|
        invariant hints + |Hints(modules[i..])| == |Hints(modules)|
        invariant table + TablesSize(modules[i..], w) == TablesSize(modules, w)
      {
        assert modules[i..][1..] == modules[i + 1..];
        HintsBytesLength(modules[i].thunks);
        var size := MeasureThunks(modules[i].thunks);
        TableSizeSplit(modules[i], w);
        names, hints, table := names + |modules[i].name| + 1, hints + size, table + (|modules[i].thunks| + 1) * w;
      }
    }

    method MeasureThunks(ts: seq<Thunk>) returns (size: nat)
      ensures size == HintsSize(ts)
    {
      size := 0;
      for k := 0 to |ts|
        invariant size + HintsSize(ts[k..]) == HintsSize(ts)
      {
        assert ts[k..][1..] == ts[k + 1..];
        if ts[k].name.Some? {
          size := size + (2 + |ts[k].name.value| + 1);
        }
      }
    }

    /** The printed section, and the offsets at which its strings and its import address table start. */
    method BuildSectionData(va: u32) returns (data: bytes, stringsBase: nat, iatBase: nat)
      requires va + SectionSize(modules, PtrSize(is64bit)) < TWO32
      ensures data == SectionBytes(modules, va, PtrSize(is64bit))
      ensures stringsBase == NamesAt(modules) && iatBase == IatAt(modules)
    {
      hide Filled, SectionBytes, Zeros, AfterModules, Names, Hints, TablesSize;
      var w := PtrSize(is64bit);
      var names, hints, table := Measure(w);
      var descSize := (|modules| + 1) * DESCRIPTOR;
      stringsBase, iatBase := descSize, descSize + names + hints;
      var iltBase := iatBase + table;
      var buf := new u8[iltBase + table](_ => 0);
      ghost var b := Bounds(stringsBase, stringsBase + names, iatBase, iltBase, iltBase + table);
      FillModules(buf, modules, va, stringsBase, stringsBase + names, iatBase, iltBase, w, b);
      SectionFilled(buf[..], b, modules, va, w);
      data := buf[..];
    }

    /** The section without an address table of its own, and the slot values for the original one. */
    method BuildImportSectionNoIat(va: u32, originalIatRva: u32, ftFromRecords: bool) returns (data: bytes,
        thunks: seq<nat>)
      requires va + NamesAt(modules) + |Dense.Interleaved(modules)| <= TWO32
      requires ftFromRecords || modules == [] ||
               originalIatRva + TablesSize(modules[..|modules| - 1], PtrSize(is64bit)) < TWO32
      ensures data == Dense.Section(modules, va, originalIatRva, ftFromRecords, PtrSize(is64bit))
      ensures thunks == Dense.OutThunks(modules, va + NamesAt(modules), PtrSize(is64bit))
    {
      hide Filled, Dense.Section, Dense.OutThunks, Dense.Interleaved, AfterStrings, Zeros;
      var w := PtrSize(is64bit);
      var descSize := (|modules| + 1) * DESCRIPTOR;
      var strings := MeasureStrings();
      var buf := new u8[descSize + strings](_ => 0);
      ghost var b := TwoRegions(descSize, strings);
      thunks := FillStrings(buf, modules, va, originalIatRva, ftFromRecords, descSize, w, b);
      TwoRegionsFilled(buf[..], b, modules, va, originalIatRva, ftFromRecords, w);
      data := buf[..];
    }

    /** The sizing pass: what the names and hint/name entries of all modules take together. */
    method MeasureStrings() returns (size: nat)
      ensures size == |Dense.Interleaved(modules)|
    {
      hide HintsSize, HintsBytes, Dense.Strings;
      size := 0;
      for i := 0 to |modules|
        invariant size + |Dense.Interleaved(modules[i..])| == |Dense.Interleaved(modules)|
      {
        assert modules[i..][1..] == modules[i + 1..];
        var hints := MeasureThunks(modules[i].thunks);
        Dense.StringsLength(modules[i]);
        size := size + (|modules[i].name| + 1 + hints);
      }
    }
  }

  /** Only descriptors and strings: the regions behind them are empty. */
  function TwoRegions(descSize: nat, strings: nat): Bounds
  {
    Bounds(descSize, descSize + strings, descSize + strings, descSize + strings, descSize + strings)
  }

  /** What is written once the modules ms have been added, offset bytes into the original table. */
  function AfterStrings(b: Bounds, va: nat, q: Parts, ms: seq<Module>, iatRva: nat, offset: nat, records: bool,
      w: nat): Parts
  {
    q.(desc := q.desc + Dense.Descs(ms, va + b.names + |q.names|, iatRva, offset, records, w),
       names := q.names + Dense.Interleaved(ms))
  }

  ghost predicate StringsRoom(b: Bounds, q: Parts, ms: seq<Module>)
  {
    |q.desc| + DESCRIPTOR * |ms| <= b.names && b.names + |q.names| + |Dense.Interleaved(ms)| <= b.hints
  }

  function AfterOneStrings(b: Bounds, va: nat, q: Parts, m: Module, first: nat): Parts
  {
    q.(desc := q.desc + Descriptor(0, va + b.names + |q.names|, first), names := q.names + Dense.Strings(m))
  }

  lemma {:induction false} AfterStringsCons(b: Bounds, va: nat, q: Parts, ms: seq<Module>, iatRva: nat,
      offset: nat, records: bool, w: nat)
    requires ms != []
    ensures var r := AfterOneStrings(b, va, q, ms[0], Dense.FirstThunk(ms[0], iatRva, offset, records));
      && AfterStrings(b, va, q, ms, iatRva, offset, records, w)
      == AfterStrings(b, va, r, ms[1..], iatRva, offset + TableSize(ms[0], w), records, w)
      && |r.desc| == |q.desc| + DESCRIPTOR && |r.names| == |q.names| + |Dense.Strings(ms[0])|
  {
    hide Dense.Strings, TableSize, Dense.FirstThunk;
    var d := Descriptor(0, va + b.names + |q.names|, Dense.FirstThunk(ms[0], iatRva, offset, records));
    var rest := Dense.Descs(ms[1..], va + b.names + |q.names| + |Dense.Strings(ms[0])|, iatRva,
                            offset + TableSize(ms[0], w), records, w);
    assert q.desc + d + rest == q.desc + (d + rest);
    assert q.names + Dense.Strings(ms[0]) + Dense.Interleaved(ms[1..]) == q.names + Dense.Interleaved(ms);
  }

  lemma {:induction false} AfterNoStrings(b: Bounds, va: nat, q: Parts, ms: seq<Module>, iatRva: nat, offset: nat,
      records: bool, w: nat)
    requires ms == []
    ensures AfterStrings(b, va, q, ms, iatRva, offset, records, w) == q
  {
  }

  lemma {:induction false} StringsRoomCons(b: Bounds, q: Parts, ms: seq<Module>)
    requires ms != [] && StringsRoom(b, q, ms)
    ensures |q.desc| + DESCRIPTOR <= b.names && b.names + |q.names| + |Dense.Strings(ms[0])| <= b.hints
    ensures forall r: Parts | |r.desc| == |q.desc| + DESCRIPTOR && |r.names| == |q.names| + |Dense.Strings(ms[0])| ::
      StringsRoom(b, r, ms[1..])
  {
    hide Dense.Strings;
  }

  lemma {:induction false} OutThunksCons(ms: seq<Module>, nameAt: nat, w: nat)
    requires ms != []
    ensures Dense.OutThunks(ms, nameAt, w)
         == (Dense.SlotValues(ms[0].thunks, nameAt + |ms[0].name| + 1, w) + [0])
             + Dense.OutThunks(ms[1..], nameAt + |Dense.Strings(ms[0])|, w)
  {
  }

  lemma {:induction false} NoOutThunks(ms: seq<Module>, nameAt: nat, w: nat)
    requires ms == []
    ensures Dense.OutThunks(ms, nameAt, w) == []
  {
  }

  /** The writing pass; the cursor ends where the sizing pass said the section ends. */
  method FillStrings(data: array<u8>, ms: seq<Module>, va: nat, iatRva: nat, records: bool, start: nat, w: nat,
      ghost b: Bounds)
    returns (thunks: seq<nat>)
    requires data[..] == Zeros(b.end) && b == TwoRegions(start, |Dense.Interleaved(ms)|)
    requires start == DESCRIPTOR * |ms| + DESCRIPTOR
    modifies data
    ensures Filled(data[..], b, AfterStrings(b, va, Parts([], [], [], [], []), ms, iatRva, 0, records, w))
    ensures thunks == Dense.OutThunks(ms, va + start, w)
  {
    hide *;
    ghost var p := Parts([], [], [], [], []);
    ghost var goal := AfterStrings(b, va, p, ms, iatRva, 0, records, w);
    TwoRegionsBounds(start, |Dense.Interleaved(ms)|);
    StartFilled(b);
    StartRoom(b, p, ms);
    thunks := [];
    var cursor, desc, offset: nat := start, 0, 0;
    for i := 0 to |ms|
      invariant Filled(data[..], b, p) && StringsRoom(b, p, ms[i..])
      invariant desc == |p.desc| && cursor == b.names + |p.names|
      invariant AfterStrings(b, va, p, ms[i..], iatRva, offset, records, w) == goal
      invariant thunks + Dense.OutThunks(ms[i..], va + cursor, w) == Dense.OutThunks(ms, va + start, w)
    {
      assert ms[i..][1..] == ms[i + 1..] && ms[i..][0] == ms[i];
      StringsRoomCons(b, p, ms[i..]);
      AfterStringsCons(b, va, p, ms[i..], iatRva, offset, records, w);
      OutThunksCons(ms[i..], va + cursor, w);
      var first := FirstThunkOf(ms[i], iatRva, offset, records);
      ghost var before := thunks;
      var slots;
      cursor, slots, p := WriteStrings(data, ms[i], va, cursor, desc, first, w, b, p);
      thunks := thunks + slots + [0];
      desc, offset := desc + DESCRIPTOR, offset + TableSize(ms[i], w);
    }
    AfterNoStrings(b, va, p, ms[|ms|..], iatRva, offset, records, w);
    NoOutThunks(ms[|ms|..], va + cursor, w);
  }

  lemma {:induction false} TwoRegionsBounds(descSize: nat, strings: nat)
    ensures var b := TwoRegions(descSize, strings);
      b.names == descSize && b.hints == b.iat == b.ilt == b.end == descSize + strings
  {
  }

  lemma {:induction false} StartRoom(b: Bounds, p: Parts, ms: seq<Module>)
    requires p == Parts([], [], [], [], []) && b.names == DESCRIPTOR * |ms| + DESCRIPTOR
    requires b.hints == b.names + |Dense.Interleaved(ms)|
    ensures StringsRoom(b, p, ms)
  {
  }

  /** The lowest recorded slot, or the running offset. */
  method FirstThunkOf(m: Module, iatRva: nat, offset: nat, records: bool) returns (first: nat)
    ensures first == Dense.FirstThunk(m, iatRva, offset, records)
  {
    if !records {
      return iatRva + offset;
    }
    if m.thunks == [] {
      return iatRva;
    }
    first := m.thunks[0].iatAddress;
    for k := 1 to |m.thunks|
      invariant exists j :: 0 <= j < k && m.thunks[j].iatAddress == first
      invariant forall j :: 0 <= j < k ==> first <= m.thunks[j].iatAddress
    {
      if m.thunks[k].iatAddress < first {
        first := m.thunks[k].iatAddress;
      }
    }
  }

  /** One module: name, descriptor, hint/name entries; its slot values are handed back. */
  method WriteStrings(data: array<u8>, m: Module, va: nat, cursor: nat, desc: nat, first: nat, w: nat,
      ghost b: Bounds, ghost p: Parts)
    returns (next: nat, slots: seq<nat>, ghost q: Parts)
    requires Filled(data[..], b, p) && |p.desc| + DESCRIPTOR <= b.names
    requires b.names + |p.names| + |Dense.Strings(m)| <= b.hints
    requires desc == |p.desc| && cursor == b.names + |p.names|
    modifies data
    ensures Filled(data[..], b, q) && q == AfterOneStrings(b, va, p, m, first)
    ensures next == b.names + |q.names| == cursor + |Dense.Strings(m)|
    ensures slots == Dense.SlotValues(m.thunks, va + cursor + |m.name| + 1, w)
  {
    hide Filled, Le, Descriptor, HintsBytes, Dense.SlotValues;
    Dense.StringsLength(m);
    HintsBytesLength(m.thunks);
    FilledBounds(data[..], b, p);
    PutName(data[..], b, p, m.name);
    CopyInto(data, cursor, m.name);
    q := p.(names := p.names + m.name);
    SkipNul(data[..], b, q);
    q := q.(names := q.names + Zeros(1));
    assert p.names + m.name + Zeros(1) == p.names + (m.name + [0]);
    q := WriteDescriptor(data, desc, 0, va + cursor, first, b, q);
    next, slots, q := WriteHints(data, m.thunks, va, cursor + |m.name| + 1, w, b, q);
    assert p.names + (m.name + [0]) + HintsBytes(m.thunks) == p.names + Dense.Strings(m);
  }

  method WriteHints(data: array<u8>, ts: seq<Thunk>, va: nat, cursor: nat, w: nat, ghost b: Bounds, ghost p: Parts)
    returns (next: nat, slots: seq<nat>, ghost q: Parts)
    requires Filled(data[..], b, p) && b.names + |p.names| + HintsSize(ts) <= b.hints && cursor == b.names + |p.names|
    modifies data
    ensures Filled(data[..], b, q) && q == p.(names := p.names + HintsBytes(ts)) && next == b.names + |q.names|
    ensures slots == Dense.SlotValues(ts, va + cursor, w)
  {
    hide *;
    next, slots, q := cursor, [], p;
    for k := 0 to |ts|
      invariant Filled(data[..], b, q) && q == p.(names := q.names) && next == b.names + |q.names|
      invariant q.names + HintsBytes(ts[k..]) == p.names + HintsBytes(ts)
      invariant next + HintsSize(ts[k..]) <= b.hints
      invariant slots + Dense.SlotValues(ts[k..], va + next, w) == Dense.SlotValues(ts, va + cursor, w)
    {
      assert ts[k..][1..] == ts[k + 1..] && ts[k..][0] == ts[k];
      HintsOpen(ts[k..], va + next, w);
      ghost var before := slots;
      assert q.names + (HintBytes(ts[k]) + HintsBytes(ts[k + 1..]))
          == (q.names + HintBytes(ts[k])) + HintsBytes(ts[k + 1..]);
      var slot: nat;
      next, slot, q := WriteNamed(data, ts[k], va, next, w, b, q);
      assert before + ([slot] + Dense.SlotValues(ts[k + 1..], va + next, w))
          == (before + [slot]) + Dense.SlotValues(ts[k + 1..], va + next, w);
      slots := slots + [slot];
    }
    HintsClose(ts[|ts|..], va + next, w);
  }

  lemma {:induction false} HintsOpen(ts: seq<Thunk>, at: nat, w: nat)
    requires ts != []
    ensures HintsBytes(ts) == HintBytes(ts[0]) + HintsBytes(ts[1..]) && |HintBytes(ts[0])| == HintSize(ts[0])
    ensures HintsSize(ts) == HintSize(ts[0]) + HintsSize(ts[1..])
    ensures Dense.SlotValues(ts, at, w) == [Slot(ts[0], at, w)] + Dense.SlotValues(ts[1..], at + HintSize(ts[0]), w)
  {
  }

  lemma {:induction false} HintsClose(ts: seq<Thunk>, at: nat, w: nat)
    requires ts == []
    ensures HintsBytes(ts) == [] && Dense.SlotValues(ts, at, w) == []
  {
  }

  method WriteNamed(data: array<u8>, t: Thunk, va: nat, cursor: nat, w: nat, ghost b: Bounds, ghost p: Parts)
    returns (next: nat, slot: nat, ghost q: Parts)
    requires Filled(data[..], b, p) && b.names + |p.names| + HintSize(t) <= b.hints && cursor == b.names + |p.names|
    modifies data
    ensures Filled(data[..], b, q) && q == p.(names := p.names + HintBytes(t))
    ensures next == cursor + HintSize(t) && slot == Slot(t, va + cursor, w)
  {
    hide Filled;
    next, slot, q := cursor, 0, p;
    FilledBounds(data[..], b, p);
    if t.name.Some? {
      slot := va + cursor;
      PutName(data[..], b, q, Zeros(2));
      CopyInto(data, next, Zeros(2));
      q, next := q.(names := q.names + Zeros(2)), next + 2;
      PutName(data[..], b, q, t.name.value);
      CopyInto(data, next, t.name.value);
      q, next := q.(names := q.names + t.name.value), next + |t.name.value| + 1;
      SkipNul(data[..], b, q);
      q := q.(names := q.names + Zeros(1));
      assert p.names + Zeros(2) + t.name.value + Zeros(1) == p.names + (Zeros(2) + (t.name.value + [0]));
    } else {
      assert p.names + HintBytes(t) == p.names;
      if t.ordinal.Some? {
        slot := OrdinalFlag(w) + t.ordinal.value;
      }
    }
  }

  lemma {:induction false} TwoRegionsFilled(data: bytes, b: Bounds, ms: seq<Module>, va: nat, iatRva: nat,
      records: bool, w: nat)
    requires b == TwoRegions(NamesAt(ms), |Dense.Interleaved(ms)|)
    requires Filled(data, b, AfterStrings(b, va, Parts([], [], [], [], []), ms, iatRva, 0, records, w))
    ensures data == Dense.Section(ms, va, iatRva, records, w)
  {
    hide *;
    AfterAllStrings(b, va, ms, iatRva, records, w);
    Dense.DescsLength(ms, va + b.names, iatRva, 0, records, w);
    FilledRegions(data, b, AfterStrings(b, va, Parts([], [], [], [], []), ms, iatRva, 0, records, w));
    TwoRegionsBounds(NamesAt(ms), |Dense.Interleaved(ms)|);
    NamesAtIs(ms);
    Dense.SectionParts(ms, va, iatRva, records, w);
    SectionIs(data, ms, va, iatRva, records, w);
    WholeAt(data, Dense.Section(ms, va, iatRva, records, w));
  }

  lemma {:induction false} AfterAllStrings(b: Bounds, va: nat, ms: seq<Module>, iatRva: nat, records: bool, w: nat)
    ensures var q := AfterStrings(b, va, Parts([], [], [], [], []), ms, iatRva, 0, records, w);
      && q.desc == Dense.Descs(ms, va + b.names, iatRva, 0, records, w) && q.names == Dense.Interleaved(ms)
  {
    hide Dense.Descs, Dense.Interleaved;
  }

  lemma {:induction false} SectionIs(data: bytes, ms: seq<Module>, va: nat, iatRva: nat, records: bool, w: nat)
    requires At(data, 0, Dense.Descs(ms, va + NamesAt(ms), iatRva, 0, records, w))
    requires At(data, DESCRIPTOR * |ms|, Zeros(DESCRIPTOR)) && At(data, NamesAt(ms), Dense.Interleaved(ms))
    ensures At(data, 0, Dense.Section(ms, va, iatRva, records, w))
  {
    hide Dense.Descs, Dense.Interleaved, At;
    var d := Dense.Descs(ms, va + NamesAt(ms), iatRva, 0, records, w);
    Dense.DescsLength(ms, va + NamesAt(ms), iatRva, 0, records, w);
    AtSplit(data, |d|, Zeros(DESCRIPTOR), Dense.Interleaved(ms));
    AtSplit(data, 0, d, Zeros(DESCRIPTOR) + Dense.Interleaved(ms));
  }

  /** The second pass. */
  method FillModules(data: array<u8>, ms: seq<Module>, va: nat, names: nat, hints: nat, iat: nat, ilt: nat, w: nat,
      ghost b: Bounds)
    requires data[..] == Zeros(b.end) && b.names <= b.hints <= b.iat <= b.ilt <= b.end
    requires names == b.names && hints == b.hints && iat == b.iat && ilt == b.ilt
    requires ModulesRoom(b, Parts([], [], [], [], []), ms, w)
    modifies data
    ensures Filled(data[..], b, AfterModules(b, va, Parts([], [], [], [], []), ms, w))
  {
    hide *;
    ghost var p := Parts([], [], [], [], []);
    ghost var goal := AfterModules(b, va, p, ms, w);
    StartFilled(b);
    var desc, dll, hint, first, lookup := 0, names, hints, iat, ilt;
    for i := 0 to |ms|
      invariant Filled(data[..], b, p) && ModulesRoom(b, p, ms[i..], w)
      invariant desc == |p.desc| && dll == b.names + |p.names|
      invariant hint == b.hints + |p.hints| && first == b.iat + |p.iat| && lookup == b.ilt + |p.ilt|
      invariant AfterModules(b, va, p, ms[i..], w) == goal
    {
      assert ms[i..][1..] == ms[i + 1..] && ms[i..][0] == ms[i];
      ModulesRoomCons(b, va, p, ms[i..], w);
      AfterModulesCons(b, va, p, ms[i..], w);
      AfterModuleSizes(b, va, p, ms[i], w);
      hint, first, lookup, p := WriteModule(data, ms[i], va, desc, dll, hint, first, lookup, w, b, p);
      desc, dll := desc + DESCRIPTOR, dll + |ms[i].name| + 1;
    }
    AfterNoModules(b, va, p, ms[|ms|..], w);
  }

  /** Regions filled to the measured bounds make up the whole section. */
  lemma {:induction false} SectionFilled(data: bytes, b: Bounds, ms: seq<Module>, va: nat, w: nat)
    requires b == Bounds(NamesAt(ms), HintsAt(ms), IatAt(ms), IltAt(ms, w), SectionSize(ms, w))
    requires Filled(data, b, AfterModules(b, va, Parts([], [], [], [], []), ms, w))
    ensures data == SectionBytes(ms, va, w)
  {
    hide *;
    AfterAll(b, ms, va, w);
    DescriptorsLength(ms, va + NamesAt(ms), va + IatAt(ms), va + IltAt(ms, w), w);
    FilledRegions(data, b, AfterModules(b, va, Parts([], [], [], [], []), ms, w));
    NamesAtIs(ms);
    SectionRegions(data, 0, ms, va, w);
    SectionLength(ms, va, w);
    WholeAt(data, SectionBytes(ms, va, w));
  }

  lemma {:induction false} NamesAtIs(ms: seq<Module>)
    ensures NamesAt(ms) == DESCRIPTOR * |ms| + DESCRIPTOR
  {
  }

  lemma {:induction false} FilledRegions(data: bytes, b: Bounds, p: Parts)
    requires Filled(data, b, p)
    ensures At(data, 0, p.desc) && At(data, |p.desc|, Zeros(b.names - |p.desc|))
    ensures At(data, b.names, p.names) && At(data, b.hints, p.hints)
    ensures At(data, b.iat, p.iat) && At(data, b.ilt, p.ilt) && |data| == b.end
  {
    hide Region, At;
    assert |p.desc| <= b.names by { RegionFits(data, 0, b.names, p.desc); }
    RegionWhole(data, 0, b.names, p.desc);
    RegionWhole(data, b.names, b.hints, p.names);
    RegionWhole(data, b.hints, b.iat, p.hints);
    RegionWhole(data, b.iat, b.ilt, p.iat);
    RegionWhole(data, b.ilt, b.end, p.ilt);
  }

  lemma {:induction false} RegionFits(data: bytes, lo: nat, hi: nat, a: bytes)
    requires Region(data, lo, hi, a)
    ensures lo + |a| <= hi
  {
  }

  lemma {:induction false} AfterAll(b: Bounds, ms: seq<Module>, va: nat, w: nat)
    ensures AfterModules(b, va, Parts([], [], [], [], []), ms, w)
         == Parts(Descriptors(ms, va + b.names, va + b.iat, va + b.ilt, w), Names(ms), Hints(ms),
                  Tables(ms, va + b.hints, w), Tables(ms, va + b.hints, w))
  {
    hide Descriptors, Tables, Names, Hints;
  }

  lemma {:induction false} WholeAt(data: bytes, s: bytes)
    requires At(data, 0, s) && |data| == |s|
    ensures data == s
  {
    assert data[0..|s|] == data;
  }
}
