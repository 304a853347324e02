/** The import-table reader (crates/pe/src/original_imports.rs) and what it makes of a printed section. */
module ImportReader {
  import opened Options
  import opened Words
  import opened ImportTable

  /** A module as the reader reports it: its name and the texts of its functions. */
  datatype Import = Import(dll: bytes, functions: seq<bytes>)

  /** The bytes from offset on, up to a NUL or the end. */
  function CString(data: bytes, offset: nat): bytes
    requires offset <= |data|
    decreases |data| - offset
  {
    if offset == |data| || data[offset] == 0 then [] else [data[offset]] + CString(data, offset + 1)
  }

  function Decimal(n: nat): bytes
  {
    (if n < 10 then [] else Decimal(n / 10)) + ['0' as int + n % 10]
  }

  function OrdinalText(n: nat): bytes { ['#' as int] + Decimal(n) }

  /** The text a non-zero thunk contributes, if any. */
  function ThunkText(data: bytes, va: nat, thunk: nat, w: nat): seq<bytes>
  {
    if thunk >= OrdinalFlag(w) then [OrdinalText(thunk % TWO16)]
    else
      var hintRva := thunk % TWO32;
      if hintRva < va || hintRva - va + 2 > |data| then []
      else
        var name := CString(data, hintRva - va + 2);
        if name == [] then [] else [name]
  }

  function Thunks(data: bytes, va: nat, offset: nat, w: nat): seq<bytes>
    requires w > 0
    decreases |data| - offset
  {
    if offset + w > |data| then []
    else
      var thunk := Get(data, offset, w);
      if thunk == 0 then [] else ThunkText(data, va, thunk, w) + Thunks(data, va, offset + w, w)
  }

  /** The descriptor walk; None stands for the out-of-range slice that a name past the section provokes. */
  function Descs(data: bytes, va: nat, off: nat, w: nat): Option<seq<Import>>
    requires w > 0
    decreases |data| - off
  {
    if off + DESCRIPTOR > |data| then Some([])
    else
      var nameRva, ftRva := Get(data, off + 12, 4), Get(data, off + 16, 4);
      if nameRva == 0 || nameRva < va then Some([])
      else if nameRva - va > |data| then None
      else
        var dll := CString(data, nameRva - va);
        if dll == [] then Some([])
        else
          var functions := if ftRva >= va then Thunks(data, va, ftRva - va, w) else [];
          match Descs(data, va, off + DESCRIPTOR, w)
          case None => None
          case Some(rest) => Some((if functions == [] then [] else [Import(Lower(dll), functions)]) + rest)
  }

  // ---- The reader as the program runs it -----------------------------------------------------

  method ReadCString(data: bytes, offset: nat) returns (s: bytes)
    requires offset <= |data|
    ensures s == CString(data, offset)
  {
    var end := offset;
    while end < |data| && data[end] != 0
      invariant offset <= end <= |data|
      invariant data[offset..end] + CString(data, end) == CString(data, offset)
    {
      assert data[offset..end + 1] == data[offset..end] + [data[end]];
      end := end + 1;
    }
    s := data[offset..end];
  }

  method ReadThunks(data: bytes, va: nat, ftOffset: nat, w: nat) returns (functions: seq<bytes>)
    requires w == 4 || w == 8
    ensures functions == Thunks(data, va, ftOffset, w)
  {
    functions := [];
    var offset := ftOffset;
    while offset + w <= |data|
      invariant functions + Thunks(data, va, offset, w) == Thunks(data, va, ftOffset, w)
      decreases |data| - offset
    {
      var thunk := Get(data, offset, w);
      if thunk == 0 {
        break;
      }
      var text := ReadThunk(data, va, thunk, w);
      functions := functions + text;
      offset := offset + w;
    }
  }

  method ReadThunk(data: bytes, va: nat, thunk: nat, w: nat) returns (text: seq<bytes>)
    ensures text == ThunkText(data, va, thunk, w)
  {
    text := [];
    if thunk >= OrdinalFlag(w) {
      text := [OrdinalText(thunk % TWO16)];
    } else {
      var hintRva := thunk % TWO32;
      if hintRva >= va {
        var hintOffset := hintRva - va;
        if hintOffset + 2 <= |data| {
          var name := ReadCString(data, hintOffset + 2);
          if name != [] {
            text := [name];
          }
        }
      }
    }
  }

  /** The walk over the descriptors of the section holding the import directory. */
  method ReadImportTable(data: bytes, va: nat, importOffset: nat, w: nat) returns (result: Option<seq<Import>>)
    requires w == 4 || w == 8
    ensures result == Descs(data, va, importOffset, w)
  {
    hide Thunks, CString, Get, Lower;
    var found: seq<Import> := [];
    PrependNothing(Descs(data, va, importOffset, w));
    var off := importOffset;
    while off + DESCRIPTOR <= |data|
      invariant Descs(data, va, importOffset, w) == Prepend(found, Descs(data, va, off, w))
      decreases |data| - off
    {
      var nameRva, ftRva := Get(data, off + 12, 4), Get(data, off + 16, 4);
      if nameRva == 0 {
        break;
      }
      var dll: bytes := [];
      if nameRva >= va {
        if nameRva - va > |data| {
          return None;
        }
        dll := ReadCString(data, nameRva - va);
      }
      if dll == [] {
        break;
      }
      var functions: seq<bytes> := [];
      if ftRva >= va {
        functions := ReadThunks(data, va, ftRva - va, w);
      }
      PrependTwice(found, if functions == [] then [] else [Import(Lower(dll), functions)],
                   Descs(data, va, off + DESCRIPTOR, w));
      if functions != [] {
        found := found + [Import(Lower(dll), functions)];
      }
      off := off + DESCRIPTOR;
    }
    PrependNothing(Some(found));
    result := Some(found);
  }

  function Prepend(a: seq<Import>, r: Option<seq<Import>>): Option<seq<Import>>
  {
    if r.None? then None else Some(a + r.value)
  }

  lemma {:induction false} PrependNothing(r: Option<seq<Import>>)
    ensures Prepend([], r) == r
    ensures r.Some? ==> Prepend(r.value, Some([])) == r
  {
    if r.Some? {
      assert [] + r.value == r.value == r.value + [];
    }
  }

  lemma {:induction false} PrependTwice(a: seq<Import>, b: seq<Import>, r: Option<seq<Import>>)
    ensures Prepend(a, Prepend(b, r)) == Prepend(a + b, r)
    ensures b == [] ==> a + b == a
  {
    if r.Some? {
      assert a + (b + r.value) == (a + b) + r.value;
    }
  }

  // ---- What the reader makes of a printed section ---------------------------------------------

  /** The texts of a printed table: it ends at the first thunk that has neither name nor ordinal. */
  function Texts(ts: seq<Thunk>): seq<bytes>
  {
    if ts == [] || (ts[0].name.None? && ts[0].ordinal.None?) then []
    else Text(ts[0]) + Texts(ts[1..])
  }

  function Text(t: Thunk): seq<bytes>
  {
    if t.name.Some? then (if CutNul(t.name.value) == [] then [] else [CutNul(t.name.value)])
    else if t.ordinal.Some? then [OrdinalText(t.ordinal.value)]
    else []
  }

  /** The printed modules as read back: cut at NULs, without function-less modules, up to the first nameless one. */
  function ReadBack(ms: seq<Module>): seq<Import>
  {
    if ms == [] || CutNul(ms[0].name) == [] then []
    else
      (if Texts(ms[0].thunks) == [] then [] else [Import(Lower(CutNul(ms[0].name)), Texts(ms[0].thunks))])
      + ReadBack(ms[1..])
  }

  lemma {:induction false} CStringAt(data: bytes, o: nat, s: bytes)
    requires At(data, o, s + [0])
    ensures CString(data, o) == CutNul(s)
    decreases |s|
  {
    if s == [] {
      AtByte(data, o, s + [0], 0);
    } else {
      AtByte(data, o, s + [0], 0);
      if s[0] != 0 {
        assert s + [0] == [s[0]] + (s[1..] + [0]);
        AtSplit(data, o, [s[0]], s[1..] + [0]);
        CStringAt(data, o + 1, s[1..]);
      }
    }
  }

  /** RVAs below this bound cannot be mistaken for ordinals. */
  function RvaLimit(w: nat): nat { if w == 8 then TWO32 else 0x8000_0000 }

  lemma {:induction false} OrdinalSlot(n: u16, w: nat)
    requires w == 4 || w == 8
    ensures (OrdinalFlag(w) + n) % TWO16 == n
    ensures 0 < OrdinalFlag(w) + n < Range(w)
  {
    RangeValues();
  }

  lemma {:induction false} ThunkReadBack(data: bytes, va: nat, t: Thunk, hintAt: nat, w: nat)
    requires w == 4 || w == 8
    requires va <= hintAt && hintAt < RvaLimit(w)
    requires At(data, hintAt - va, HintBytes(t))
    ensures ThunkText(data, va, Slot(t, hintAt, w), w) == Text(t) || (t.name.None? && t.ordinal.None?)
  {
    if t.name.Some? {
      AtSplit(data, hintAt - va, Zeros(2), t.name.value + [0]);
      CStringAt(data, hintAt - va + 2, t.name.value);
    } else if t.ordinal.Some? {
      OrdinalSlot(t.ordinal.value, w);
    }
  }

  lemma {:induction false} SlotFits(t: Thunk, hintAt: nat, w: nat)
    requires w == 4 || w == 8
    requires 0 < hintAt < RvaLimit(w)
    ensures Slot(t, hintAt, w) < Range(w)
    ensures Slot(t, hintAt, w) == 0 <==> t.name.None? && t.ordinal.None?
  {
    RangeValues();
    if t.ordinal.Some? {
      OrdinalSlot(t.ordinal.value, w);
    }
  }

  lemma {:induction false} ThunksReadBack(data: bytes, va: nat, off: nat, ts: seq<Thunk>, hintAt: nat, w: nat)
    requires w == 4 || w == 8
    requires 0 < hintAt && va <= hintAt && va + |data| < RvaLimit(w)
    requires At(data, off, SlotBytes(ts, hintAt, w) + Zeros(w))
    requires At(data, hintAt - va, HintsBytes(ts))
    ensures Thunks(data, va, off, w) == Texts(ts)
    decreases |ts|
  {
    hide *;
    if ts == [] {
      NoThunks(data, va, off, hintAt, w);
    } else {
      TablesCons(data, va, off, ts, hintAt, w);
      HintInside(data, va, hintAt, ts);
      ThunksCons(data, va, off, ts, hintAt, w);
      ThunksReadBack(data, va, off + w, ts[1..], hintAt + HintSize(ts[0]), w);
    }
  }

  lemma {:induction false} HintInside(data: bytes, va: nat, hintAt: nat, ts: seq<Thunk>)
    requires va <= hintAt && At(data, hintAt - va, HintsBytes(ts))
    ensures hintAt <= va + |data|
  {
  }

  lemma {:induction false} NoThunks(data: bytes, va: nat, off: nat, hintAt: nat, w: nat)
    requires (w == 4 || w == 8) && At(data, off, SlotBytes([], hintAt, w) + Zeros(w))
    ensures Thunks(data, va, off, w) == Texts([])
  {
    assert SlotBytes([], hintAt, w) + Zeros(w) == Zeros(w);
    ZeroWord(data, off, w);
  }

  /** The first slot and its hint/name entry, and where the rest of both regions stands. */
  lemma {:induction false} TablesCons(data: bytes, va: nat, off: nat, ts: seq<Thunk>, hintAt: nat, w: nat)
    requires ts != [] && va <= hintAt
    requires At(data, off, SlotBytes(ts, hintAt, w) + Zeros(w))
    requires At(data, hintAt - va, HintsBytes(ts))
    ensures off + w <= |data| && At(data, off, Le(Slot(ts[0], hintAt, w), w))
    ensures At(data, off + w, SlotBytes(ts[1..], hintAt + HintSize(ts[0]), w) + Zeros(w))
    ensures At(data, hintAt - va, HintBytes(ts[0]))
    ensures At(data, hintAt + HintSize(ts[0]) - va, HintsBytes(ts[1..]))
  {
    hide *;
    SlotsCons(data, off, ts, hintAt, w);
    HintsCons(data, hintAt - va, ts);
  }

  lemma {:induction false} HintsCons(data: bytes, o: nat, ts: seq<Thunk>)
    requires ts != [] && At(data, o, HintsBytes(ts))
    ensures At(data, o, HintBytes(ts[0])) && At(data, o + HintSize(ts[0]), HintsBytes(ts[1..]))
  {
    AtSplit(data, o, HintBytes(ts[0]), HintsBytes(ts[1..]));
  }

  lemma {:induction false} ThunksCons(data: bytes, va: nat, off: nat, ts: seq<Thunk>, hintAt: nat, w: nat)
    requires (w == 4 || w == 8) && ts != []
    requires 0 < hintAt < RvaLimit(w) && va <= hintAt
    requires off + w <= |data| && At(data, off, Le(Slot(ts[0], hintAt, w), w))
    requires At(data, hintAt - va, HintBytes(ts[0]))
    ensures Thunks(data, va, off + w, w) == Texts(ts[1..]) ==> Thunks(data, va, off, w) == Texts(ts)
  {
    hide Thunks, Text, HintBytes, Slot, At, Le;
    FirstThunk(data, va, off, ts[0], hintAt, w);
  }

  /** One step of the reader over a printed slot. */
  lemma {:induction false} FirstThunk(data: bytes, va: nat, off: nat, t: Thunk, hintAt: nat, w: nat)
    requires w == 4 || w == 8
    requires 0 < hintAt < RvaLimit(w) && va <= hintAt
    requires off + w <= |data| && At(data, off, Le(Slot(t, hintAt, w), w))
    requires At(data, hintAt - va, HintBytes(t))
    ensures Thunks(data, va, off, w)
         == if t.name.None? && t.ordinal.None? then [] else Text(t) + Thunks(data, va, off + w, w)
  {
    hide Slot, ThunkText, Text, HintBytes, At, Get;
    SlotFits(t, hintAt, w);
    GetAt(data, off, Slot(t, hintAt, w), w);
    ThunkReadBack(data, va, t, hintAt, w);
  }

  lemma {:induction false} SlotsCons(data: bytes, off: nat, ts: seq<Thunk>, hintAt: nat, w: nat)
    requires ts != [] && At(data, off, SlotBytes(ts, hintAt, w) + Zeros(w))
    ensures off + w <= |data| && At(data, off, Le(Slot(ts[0], hintAt, w), w))
    ensures At(data, off + w, SlotBytes(ts[1..], hintAt + HintSize(ts[0]), w) + Zeros(w))
  {
    hide Slot, HintSize;
    var a, b := Le(Slot(ts[0], hintAt, w), w), SlotBytes(ts[1..], hintAt + HintSize(ts[0]), w);
    assert SlotBytes(ts, hintAt, w) + Zeros(w) == a + (b + Zeros(w));
    AtSplit(data, off, a, b + Zeros(w));
  }

  lemma {:induction false} ZeroWord(data: bytes, off: nat, w: nat)
    requires At(data, off, Zeros(w))
    ensures Get(data, off, w) == 0
    decreases w
  {
    if w != 0 {
      AtByte(data, off, Zeros(w), 0);
      assert Zeros(w) == [0] + Zeros(w - 1);
      AtSplit(data, off, [0], Zeros(w - 1));
      ZeroWord(data, off + 1, w - 1);
    }
  }

  lemma {:induction false} DescriptorAt(data: bytes, off: nat, lookup: nat, name: nat, first: nat)
    requires At(data, off, Descriptor(lookup, name, first))
    requires lookup < TWO32 && name < TWO32 && first < TWO32
    ensures off + DESCRIPTOR <= |data|
    ensures Get(data, off, 4) == lookup && Get(data, off + 12, 4) == name && Get(data, off + 16, 4) == first
  {
    hide Le;
    AtSplit(data, off, Le(lookup, 4) + Zeros(8) + Le(name, 4), Le(first, 4));
    AtSplit(data, off, Le(lookup, 4) + Zeros(8), Le(name, 4));
    AtSplit(data, off, Le(lookup, 4), Zeros(8));
    RangeValues();
    GetAt(data, off, lookup, 4);
    GetAt(data, off + 12, name, 4);
    GetAt(data, off + 16, first, 4);
  }

  lemma {:induction false} TablesTail(data: bytes, o: nat, ms: seq<Module>, hintAt: nat, w: nat)
    requires ms != [] && At(data, o, Tables(ms, hintAt, w))
    ensures At(data, o, SlotBytes(ms[0].thunks, hintAt, w) + Zeros(w))
    ensures At(data, o + TableSize(ms[0], w), Tables(ms[1..], hintAt + HintsSize(ms[0].thunks), w))
  {
    hide At, SlotBytes;
    SlotBytesLength(ms[0].thunks, hintAt, w);
    TableSizeSplit(ms[0], w);
    AtSplit(data, o, SlotBytes(ms[0].thunks, hintAt, w) + Zeros(w),
            Tables(ms[1..], hintAt + HintsSize(ms[0].thunks), w));
  }

  /** Cursors of the reader: the RVAs at which the next module's name, hints and two tables start. */
  datatype Cursors = Cursors(name: nat, hint: nat, iat: nat, ilt: nat)

  function Next(c: Cursors, m: Module, w: nat): Cursors
  {
    Cursors(c.name + |m.name| + 1, c.hint + HintsSize(m.thunks), c.iat + TableSize(m, w), c.ilt + TableSize(m, w))
  }

  /** The regions of the modules still to be read stand where the cursors say. */
  ghost predicate Stands(data: bytes, va: nat, off: nat, ms: seq<Module>, c: Cursors, w: nat)
  {
    && va <= c.name && va <= c.hint && va <= c.iat && va <= c.ilt && 0 < c.name && 0 < c.hint
    && At(data, off, Descriptors(ms, c.name, c.iat, c.ilt, w) + Zeros(DESCRIPTOR))
    && At(data, c.name - va, Names(ms))
    && At(data, c.hint - va, Hints(ms))
    && At(data, c.iat - va, Tables(ms, c.hint, w))
    && At(data, c.ilt - va, Tables(ms, c.hint, w))
  }

  lemma {:induction false} DescriptorsTail(data: bytes, off: nat, ms: seq<Module>, c: Cursors, w: nat)
    requires ms != [] && At(data, off, Descriptors(ms, c.name, c.iat, c.ilt, w) + Zeros(DESCRIPTOR))
    ensures At(data, off, Descriptor(c.ilt, c.name, c.iat))
    ensures var n := Next(c, ms[0], w);
            At(data, off + DESCRIPTOR, Descriptors(ms[1..], n.name, n.iat, n.ilt, w) + Zeros(DESCRIPTOR))
  {
    var n := Next(c, ms[0], w);
    var d, rest := Descriptor(c.ilt, c.name, c.iat), Descriptors(ms[1..], n.name, n.iat, n.ilt, w);
    assert Descriptors(ms, c.name, c.iat, c.ilt, w) == d + rest;
    assert |d| == DESCRIPTOR;
    hide Descriptor, Descriptors, At;
    assert (d + rest) + Zeros(DESCRIPTOR) == d + (rest + Zeros(DESCRIPTOR));
    AtSplit(data, off, d, rest + Zeros(DESCRIPTOR));
  }

  /** The first module's pieces, and the rest behind them. */
  lemma {:induction false} StandsCons(data: bytes, va: nat, off: nat, ms: seq<Module>, c: Cursors, w: nat)
    requires ms != [] && Stands(data, va, off, ms, c, w)
    ensures At(data, off, Descriptor(c.ilt, c.name, c.iat))
    ensures At(data, c.name - va, ms[0].name + [0])
    ensures At(data, c.hint - va, HintsBytes(ms[0].thunks))
    ensures At(data, c.iat - va, SlotBytes(ms[0].thunks, c.hint, w) + Zeros(w))
    ensures At(data, c.ilt - va, SlotBytes(ms[0].thunks, c.hint, w) + Zeros(w))
    ensures Stands(data, va, off + DESCRIPTOR, ms[1..], Next(c, ms[0], w), w)
  {
    hide At, Tables, SlotBytes, HintsBytes, Descriptors, Descriptor;
    DescriptorsTail(data, off, ms, c, w);
    AtSplit(data, c.name - va, ms[0].name + [0], Names(ms[1..]));
    AtSplit(data, c.hint - va, HintsBytes(ms[0].thunks), Hints(ms[1..]));
    HintsBytesLength(ms[0].thunks);
    TablesTail(data, c.iat - va, ms, c.hint, w);
    TablesTail(data, c.ilt - va, ms, c.hint, w);
  }

  lemma {:induction false} StandsInside(data: bytes, va: nat, off: nat, ms: seq<Module>, c: Cursors, w: nat)
    requires Stands(data, va, off, ms, c, w)
    ensures va <= c.name <= va + |data| && va <= c.hint <= va + |data|
    ensures va <= c.iat <= va + |data| && va <= c.ilt <= va + |data|
    ensures 0 < c.name && 0 < c.hint
  {
  }

  lemma {:induction false} NoDescs(data: bytes, va: nat, off: nat, c: Cursors, w: nat)
    requires w > 0 && Stands(data, va, off, [], c, w)
    ensures Descs(data, va, off, w) == Some(ReadBack([]))
  {
    assert Descriptors([], c.name, c.iat, c.ilt, w) + Zeros(DESCRIPTOR) == Zeros(12) + (Zeros(4) + Zeros(4));
    AtSplit(data, off, Zeros(12), Zeros(4) + Zeros(4));
    AtSplit(data, off + 12, Zeros(4), Zeros(4));
    ZeroWord(data, off + 12, 4);
  }

  /** One step of the reader over a printed descriptor. */
  lemma {:induction false} FirstModule(data: bytes, va: nat, off: nat, ms: seq<Module>, c: Cursors, w: nat)
    requires (w == 4 || w == 8) && ms != []
    requires Stands(data, va, off, ms, c, w) && va + |data| < RvaLimit(w)
    requires Descs(data, va, off + DESCRIPTOR, w) == Some(ReadBack(ms[1..]))
    ensures Descs(data, va, off, w) == Some(ReadBack(ms))
  {
    hide *;
    StandsCons(data, va, off, ms, c, w);
    StandsInside(data, va, off, ms, c, w);
    LimitFits(w);
    DescriptorAt(data, off, c.ilt, c.name, c.iat);
    CStringAt(data, c.name - va, ms[0].name);
    ThunksReadBack(data, va, c.iat - va, ms[0].thunks, c.hint, w);
    DescsStep(data, va, off, w, c.name, c.iat, ReadBack(ms[1..]));
    ReadBackStep(ms);
  }

  lemma {:induction false} LimitFits(w: nat)
    ensures RvaLimit(w) <= TWO32
  {
  }

  lemma {:induction false} ReadBackStep(ms: seq<Module>)
    requires ms != []
    ensures ReadBack(ms) == OneImport(CutNul(ms[0].name), Texts(ms[0].thunks), ReadBack(ms[1..]))
  {
  }

  function OneImport(dll: bytes, functions: seq<bytes>, rest: seq<Import>): seq<Import>
  {
    if dll == [] then [] else (if functions == [] then [] else [Import(Lower(dll), functions)]) + rest
  }

  lemma {:induction false} DescsStep(data: bytes, va: nat, off: nat, w: nat, name: nat, first: nat, rest: seq<Import>)
    requires w > 0 && off + DESCRIPTOR <= |data| && 0 < name && va <= name <= va + |data| && va <= first
    requires Get(data, off + 12, 4) == name && Get(data, off + 16, 4) == first
    requires Descs(data, va, off + DESCRIPTOR, w) == Some(rest)
    ensures Descs(data, va, off, w)
         == Some(OneImport(CString(data, name - va), Thunks(data, va, first - va, w), rest))
  {
    hide CString, Thunks, Get, Lower;
  }

  lemma {:induction false} DescsReadBack(data: bytes, va: nat, off: nat, ms: seq<Module>, c: Cursors, w: nat)
    requires w == 4 || w == 8
    requires Stands(data, va, off, ms, c, w) && va + |data| < RvaLimit(w)
    ensures Descs(data, va, off, w) == Some(ReadBack(ms))
    decreases |ms|
  {
    hide *;
    if ms == [] {
      NoDescs(data, va, off, c, w);
    } else {
      StandsCons(data, va, off, ms, c, w);
      DescsReadBack(data, va, off + DESCRIPTOR, ms[1..], Next(c, ms[0], w), w);
      FirstModule(data, va, off, ms, c, w);
    }
  }

  function Start(ms: seq<Module>, va: nat, w: nat): Cursors
  {
    Cursors(va + NamesAt(ms), va + HintsAt(ms), va + IatAt(ms), va + IltAt(ms, w))
  }

  lemma {:induction false} SectionStands(data: bytes, va: nat, ms: seq<Module>, w: nat)
    requires At(data, 0, SectionBytes(ms, va, w))
    ensures Stands(data, va, 0, ms, Start(ms, va, w), w)
  {
    hide *;
    var c := Start(ms, va, w);
    StartIs(ms, va, w);
    SectionRegions(data, 0, ms, va, w);
    DescriptorsLength(ms, c.name, c.iat, c.ilt, w);
    AtSplit(data, 0, Descriptors(ms, c.name, c.iat, c.ilt, w), Zeros(DESCRIPTOR));
    StandsIntro(data, va, 0, ms, c, w);
  }

  lemma {:induction false} StandsIntro(data: bytes, va: nat, off: nat, ms: seq<Module>, c: Cursors, w: nat)
    requires va <= c.name && va <= c.hint && va <= c.iat && va <= c.ilt && 0 < c.name && 0 < c.hint
    requires At(data, off, Descriptors(ms, c.name, c.iat, c.ilt, w) + Zeros(DESCRIPTOR))
    requires At(data, c.name - va, Names(ms)) && At(data, c.hint - va, Hints(ms))
    requires At(data, c.iat - va, Tables(ms, c.hint, w)) && At(data, c.ilt - va, Tables(ms, c.hint, w))
    ensures Stands(data, va, off, ms, c, w)
  {
    hide At, Descriptors, Names, Hints, Tables;
  }

  lemma {:induction false} StartIs(ms: seq<Module>, va: nat, w: nat)
    ensures var c := Start(ms, va, w);
      && c.name == va + NamesAt(ms) && c.hint == va + HintsAt(ms) && c.iat == va + IatAt(ms)
      && c.ilt == va + IltAt(ms, w)
      && 0 < c.name && 0 < c.hint
  {
  }

  /**
   * The round trip, for every list of modules: reading the printed section back yields the modules in
   * order with the texts of their functions. A section may carry anything behind the printed bytes.
   */
  lemma {:induction false} ImportRoundTrip(data: bytes, va: nat, ms: seq<Module>, w: nat)
    requires w == 4 || w == 8
    requires At(data, 0, SectionBytes(ms, va, w)) && va + |data| < RvaLimit(w)
    ensures Descs(data, va, 0, w) == Some(ReadBack(ms))
  {
    SectionStands(data, va, ms, w);
    DescsReadBack(data, va, 0, ms, Start(ms, va, w), w);
  }

  // ---- When nothing is lost ---------------------------------------------------------------------

  ghost predicate Plain(s: bytes)
  {
    s != [] && forall k :: 0 <= k < |s| ==> s[k] != 0
  }

  ghost predicate PlainThunk(t: Thunk)
  {
    if t.name.Some? then Plain(t.name.value) else t.ordinal.Some?
  }

  ghost predicate PlainModule(m: Module)
  {
    Plain(m.name) && forall k :: 0 <= k < |m.thunks| ==> PlainThunk(m.thunks[k])
  }

  function WholeText(t: Thunk): bytes
  {
    if t.name.Some? then t.name.value else if t.ordinal.Some? then OrdinalText(t.ordinal.value) else []
  }

  function WholeTexts(ts: seq<Thunk>): (r: seq<bytes>)
    ensures |r| == |ts|
  {
    if ts == [] then [] else [WholeText(ts[0])] + WholeTexts(ts[1..])
  }

  /** Every module with thunks, under its whole name, with the whole text of every thunk. */
  function Whole(ms: seq<Module>): seq<Import>
  {
    if ms == [] then []
    else (if ms[0].thunks == [] then [] else [Import(Lower(ms[0].name), WholeTexts(ms[0].thunks))]) + Whole(ms[1..])
  }

  lemma {:induction false} CutPlain(s: bytes)
    ensures |CutNul(s)| <= |s| && CutNul(s) <= s
    ensures CutNul(s) == s <==> forall k :: 0 <= k < |s| ==> s[k] != 0
    decreases |s|
  {
    if s != [] {
      CutPlain(s[1..]);
      if s[0] != 0 && CutNul(s[1..]) == s[1..] {
        forall k | 0 <= k < |s| ensures s[k] != 0 {
          assert k > 0 ==> s[k] == s[1..][k - 1];
        }
      }
      if CutNul(s) == s {
        assert s[1..] == CutNul(s)[1..] == CutNul(s[1..]);
      }
    }
  }

  lemma {:induction false} TextsPlain(ts: seq<Thunk>)
    requires forall k :: 0 <= k < |ts| ==> PlainThunk(ts[k])
    ensures Texts(ts) == WholeTexts(ts)
  {
    if ts != [] {
      assert PlainThunk(ts[0]);
      if ts[0].name.Some? {
        CutPlain(ts[0].name.value);
      }
      TextsPlain(ts[1..]);
    }
  }

  /** Named or ordinal thunks under non-empty NUL-free names lose nothing. */
  lemma {:induction false} PlainReadBack(ms: seq<Module>)
    requires forall i :: 0 <= i < |ms| ==> PlainModule(ms[i])
    ensures ReadBack(ms) == Whole(ms)
  {
    if ms != [] {
      assert PlainModule(ms[0]);
      CutPlain(ms[0].name);
      TextsPlain(ms[0].thunks);
      PlainReadBack(ms[1..]);
    }
  }

  /**
   * Modules with non-empty NUL-free names whose thunks are all named or ordinal come back in order with
   * the same functions; only modules without thunks are dropped.
   */
  lemma {:induction false} PlainRoundTrip(ms: seq<Module>, va: nat, w: nat)
    requires w == 4 || w == 8
    requires va + SectionSize(ms, w) < RvaLimit(w) && forall i :: 0 <= i < |ms| ==> PlainModule(ms[i])
    ensures Descs(SectionBytes(ms, va, w), va, 0, w) == Some(Whole(ms))
  {
    hide Descs, ReadBack, Whole, SectionBytes, SectionSize, RvaLimit, PlainModule;
    var data := SectionBytes(ms, va, w);
    AtWhole(data);
    SectionLength(ms, va, w);
    ImportRoundTrip(data, va, ms, w);
    PlainReadBack(ms);
  }

  /** Every module with thunks, under the name the builder holds. */
  function Stored(ms: seq<Module>): seq<Import>
  {
    if ms == [] then []
    else (if ms[0].thunks == [] then [] else [Import(ms[0].name, WholeTexts(ms[0].thunks))]) + Stored(ms[1..])
  }

  /** Of all bytes only the letters A to Z change, each to its small letter. */
  lemma {:induction false} LowerIs(s: bytes, k: nat)
    requires k < |s|
    ensures Lower(s)[k] == if 0x41 <= s[k] <= 0x5A then s[k] - 0x41 + 0x61 else s[k]
  {
  }

  lemma {:induction false} LowerTwice(s: bytes)
    ensures Lower(Lower(s)) == Lower(s)
  {
  }

  lemma {:induction false} LoweredStored(ms: seq<Module>, given: seq<bytes>)
    requires |given| == |ms| && forall i :: 0 <= i < |ms| ==> ms[i].name == Lower(given[i])
    ensures Whole(ms) == Stored(ms)
    decreases |ms|
  {
    hide Lower;
    if ms != [] {
      LowerTwice(given[0]);
      LoweredStored(ms[1..], given[1..]);
    }
  }

  /** Modules the builder was given under any names, which it lower-cased, come back under the names it holds. */
  lemma {:induction false} AddedRoundTrip(ms: seq<Module>, given: seq<bytes>, va: nat, w: nat)
    requires w == 4 || w == 8
    requires va + SectionSize(ms, w) < RvaLimit(w) && forall i :: 0 <= i < |ms| ==> PlainModule(ms[i])
    requires |given| == |ms| && forall i :: 0 <= i < |ms| ==> ms[i].name == Lower(given[i])
    ensures Descs(SectionBytes(ms, va, w), va, 0, w) == Some(Stored(ms))
  {
    hide *;
    PlainRoundTrip(ms, va, w);
    LoweredStored(ms, given);
  }

  // ---- Texts, character by character -----------------------------------------------------------------------

  /** The number that decimal digits stand for. */
  function Number(digits: bytes): int
  {
    if digits == [] then 0 else 10 * Number(digits[..|digits| - 1]) + digits[|digits| - 1] - 0x30
  }

  /** Digits, and no leading zero but for the number 0 itself. */
  ghost predicate IsDecimal(s: bytes)
  {
    s != [] && (forall k :: 0 <= k < |s| ==> 0x30 <= s[k] <= 0x39) && (|s| > 1 ==> s[0] != 0x30)
  }

  lemma {:induction false} DecimalIs(n: nat)
    ensures IsDecimal(Decimal(n)) && Number(Decimal(n)) == n
    ensures n > 0 ==> Decimal(n)[0] != 0x30
  {
    if n >= 10 {
      DecimalIs(n / 10);
      assert Decimal(n)[..|Decimal(n)| - 1] == Decimal(n / 10);
    } else {
      assert Decimal(n) == [0x30 + n];
      assert Decimal(n)[..0] == [];
    }
  }

  /** An ordinal import reads as "#" and the ordinal in decimal, so that different ordinals read differently. */
  lemma {:induction false} OrdinalsDiffer(m: nat, n: nat)
    ensures OrdinalText(n)[0] == 0x23 && IsDecimal(OrdinalText(n)[1..]) && Number(OrdinalText(n)[1..]) == n
    ensures OrdinalText(m) == OrdinalText(n) ==> m == n
  {
    hide Decimal, IsDecimal;
    DecimalIs(m);
    DecimalIs(n);
    assert OrdinalText(m)[1..] == Decimal(m) && OrdinalText(n)[1..] == Decimal(n);
  }

  /** A string ends at its first NUL, or with the data. */
  lemma {:induction false} CStringIs(data: bytes, offset: nat)
    requires offset <= |data|
    ensures var s := CString(data, offset);
      && offset + |s| <= |data| && s == data[offset..offset + |s|] && 0 !in s
      && (offset + |s| == |data| || data[offset + |s|] == 0)
    decreases |data| - offset
  {
    if offset < |data| && data[offset] != 0 {
      CStringIs(data, offset + 1);
    }
  }

  /**
   * What a non-zero thunk reads as: with its top bit set the ordinal in its low 16 bits; else the name two bytes
   * behind the RVA in its low 32 bits, if there is one inside the section.
   */
  lemma {:induction false} ThunkReads(data: bytes, va: nat, thunk: nat, w: nat)
    requires (w == 4 && thunk < 0x1_0000_0000) || (w == 8 && thunk < 0x1_0000_0000_0000_0000)
    ensures var r := ThunkText(data, va, thunk, w);
      var o := thunk % 0x1_0000_0000 - va + 2;
      if thunk >= (if w == 8 then 0x8000_0000_0000_0000 else 0x8000_0000) then r == [OrdinalText(thunk % 0x1_0000)]
      else if o < 2 || |data| < o then r == []
      else r == (if o == |data| || data[o] == 0 then [] else [CString(data, o)])
  {
  }

  /** The descriptor at off cites a name inside the section that is not empty. */
  predicate Named(data: bytes, va: nat, off: nat)
  {
    && off + 20 <= |data|
    && var name := Get(data, off + 12, 4); name != 0 && va <= name < va + |data| && data[name - va] != 0
  }

  /** The walk from off on comes to its k-th descriptor. */
  ghost predicate Reached(data: bytes, va: nat, off: nat, k: nat)
  {
    off + 20 * k + 20 <= |data| && forall j: nat :: j < k ==> NamedAt(data, va, off, j)
  }

  predicate NamedAt(data: bytes, va: nat, off: nat, j: nat) { Named(data, va, off + 20 * j) }

  /** The k-th descriptor is reached, and its name starts behind the end of the section. */
  ghost predicate Overruns(data: bytes, va: nat, off: nat, k: nat)
  {
    Reached(data, va, off, k) && Get(data, off + 20 * k + 12, 4) > va + |data|
  }

  ghost predicate SomeOverrun(data: bytes, va: nat, off: nat) { exists k: nat :: Overruns(data, va, off, k) }

  lemma {:induction false} ReachedNext(data: bytes, va: nat, off: nat, k: nat)
    ensures Reached(data, va, off, k + 1) <==> Named(data, va, off) && Reached(data, va, off + 20, k)
  {
    hide Named;
    var next := off + 20;
    if Reached(data, va, off, k + 1) {
      assert NamedAt(data, va, off, 0);
      forall j: nat | j < k ensures NamedAt(data, va, next, j) {
        assert NamedAt(data, va, off, j + 1);
      }
    }
    if Named(data, va, off) && Reached(data, va, next, k) {
      forall j: nat | j < k + 1 ensures NamedAt(data, va, off, j) {
        if j > 0 {
          assert NamedAt(data, va, next, j - 1);
        }
      }
    }
  }

  /** The reading stops the program exactly if the walk comes to a name that starts behind the section. */
  lemma {:induction false} StopsIff(data: bytes, va: nat, off: nat, w: nat)
    requires w > 0
    ensures Descs(data, va, off, w).None? <==> SomeOverrun(data, va, off)
    decreases |data| - off
  {
    hide Thunks, Get, Lower, Reached;
    if off + 20 <= |data| {
      StopsIff(data, va, off + 20, w);
      OverrunsNext(data, va, off);
      NamedName(data, va, off);
    } else {
      if k: nat :| Overruns(data, va, off, k) {
        ReachedInside(data, va, off, k);
        assert false;
      }
    }
  }

  lemma {:induction false} ReachedInside(data: bytes, va: nat, off: nat, k: nat)
    requires Reached(data, va, off, k)
    ensures off + 20 <= |data|
  {
  }

  lemma {:induction false} OverrunsNext(data: bytes, va: nat, off: nat)
    requires off + 20 <= |data|
    ensures SomeOverrun(data, va, off)
       <==> Get(data, off + 12, 4) > va + |data| || (Named(data, va, off) && SomeOverrun(data, va, off + 20))
  {
    hide Get, Named, Reached;
    if k: nat :| Overruns(data, va, off, k) {
      if k > 0 {
        ReachedNext(data, va, off, k - 1);
        ReachedEnd(data, va, off, k);
        assert Overruns(data, va, off + 20, k - 1);
      }
    }
    if Get(data, off + 12, 4) > va + |data| {
      ReachedFirst(data, va, off);
      assert Overruns(data, va, off, 0);
    }
    if Named(data, va, off) {
      var next := off + 20;
      if k: nat :| Overruns(data, va, next, k) {
        ReachedNext(data, va, off, k);
        ReachedEnd(data, va, off, k + 1);
        assert Overruns(data, va, off, k + 1);
      }
    }
  }

  lemma {:induction false} ReachedEnd(data: bytes, va: nat, off: nat, k: nat)
    requires Reached(data, va, off, k)
    ensures off + 20 * k + 20 <= |data|
  {
  }

  lemma {:induction false} ReachedFirst(data: bytes, va: nat, off: nat)
    requires off + 20 <= |data|
    ensures Reached(data, va, off, 0)
  {
  }

  lemma {:induction false} NamedName(data: bytes, va: nat, off: nat)
    requires off + 20 <= |data|
    ensures var name := Get(data, off + 12, 4);
      Named(data, va, off) <==> name != 0 && va <= name <= va + |data| && CString(data, name - va) != []
  {
    hide Get;
  }
}
