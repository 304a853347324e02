/** The byte ranges of the import table (import_metadata_ranges in crates/pe/src/postprocess.rs). */
module ImportMetadata {
  import opened Options
  import opened Words
  import opened ImportTable
  import opened ImportReader
  import opened Pe

  datatype Span = Span(rva: nat, len: nat)

  function U32At(data: bytes, o: nat): nat
  {
    if o + 4 <= |data| then Get(data, o, 4) else 0
  }

  /** Length of the NUL-terminated string at o, if its NUL is among the first 256 bytes. */
  function StrLen(data: bytes, o: nat, n: nat): Option<nat>
    decreases 256 - n
  {
    if o + n >= |data| || n >= 256 then None
    else if data[o + n] == 0 then Some(n)
    else StrLen(data, o, n + 1)
  }

  function StringSpan(h: Header, data: bytes, rva: nat, hint: nat): seq<Span>
  {
    match RvaToOffset(h, rva)
    case None => []
    case Some(o) => match StrLen(data, o + hint, 0)
      case None => []
      case Some(len) => [Span(rva, len + hint + 1)]
  }

  /** The strings cited by a thunk table from its k-th slot on, and the size of what the walk counts. */
  function TableWalk(h: Header, data: bytes, at: nat, k: nat, w: nat): (seq<Span>, nat)
    decreases 4096 - k
  {
    var entry := U32At(data, at);
    if k >= 4096 || entry == 0 then ([], w)
    else
      var rest := TableWalk(h, data, at + w, k + 1, w);
      (Cited(h, data, entry) + rest.0, w + rest.1)
  }

  /** Only a name entry cites a string; an ordinal has the high bit set. */
  function Cited(h: Header, data: bytes, entry: nat): seq<Span>
  {
    if entry < 0x8000_0000 then StringSpan(h, data, entry, 2) else []
  }

  function TableSpans(h: Header, data: bytes, table: nat, w: nat): seq<Span>
  {
    if table == 0 then []
    else
      match RvaToOffset(h, table)
      case None => []
      case Some(t0) =>
        var r := TableWalk(h, data, t0, 0, w);
        r.0 + [Span(table, r.1)]
  }

  /** A descriptor's own ranges: itself, its DLL name, and both tables with the names they cite. */
  function DescSpan(h: Header, data: bytes, cursor: nat, off: nat, w: nat): seq<Span>
  {
    [Span(cursor, DESCRIPTOR)] + StringSpan(h, data, U32At(data, off + 12), 0)
    + TableSpans(h, data, U32At(data, off), w) + TableSpans(h, data, U32At(data, off + 16), w)
  }

  /** The ranges found from the descriptor at cursor on, guard descriptors having been visited. */
  function DescSpans(h: Header, data: bytes, cursor: nat, guard: nat, w: nat): seq<Span>
    decreases 512 - guard
  {
    if guard >= 512 then []
    else
      match RvaToOffset(h, cursor)
      case None => []
      case Some(off) =>
        if U32At(data, off + 12) == 0 then [Span(cursor, DESCRIPTOR)]
        else DescSpan(h, data, cursor, off, w) + DescSpans(h, data, cursor + DESCRIPTOR, guard + 1, w)
  }

  function Spans(h: Header, data: bytes, w: nat): seq<Span>
  {
    if h.importRva == 0 then [] else DescSpans(h, data, h.importRva, 0, w)
  }

  predicate InSpans(spans: seq<Span>, rva: nat)
  {
    exists k :: 0 <= k < |spans| && spans[k].rva <= rva < spans[k].rva + spans[k].len
  }

  // ---- The walk as the program runs it -------------------------------------------------------

  method MeasureString(data: bytes, o: nat) returns (len: Option<nat>)
    ensures len == StrLen(data, o, 0)
  {
    var n := 0;
    while o + n < |data| && n < 256
      invariant 0 <= n <= 256
      invariant StrLen(data, o, n) == StrLen(data, o, 0)
    {
      if data[o + n] == 0 {
        return Some(n);
      }
      n := n + 1;
    }
    len := None;
  }

  method MeasureStringSpan(h: Header, data: bytes, rva: nat, hint: nat) returns (spans: seq<Span>)
    ensures spans == StringSpan(h, data, rva, hint)
  {
    spans := [];
    match RvaToOffset(h, rva) {
      case None =>
      case Some(o) =>
        var len := MeasureString(data, o + hint);
        if len.Some? {
          spans := [Span(rva, len.value + hint + 1)];
        }
    }
  }

  method WalkTable(h: Header, data: bytes, table: nat, w: nat) returns (spans: seq<Span>)
    ensures spans == TableSpans(h, data, table, w)
  {
    spans := [];
    if table == 0 {
      return;
    }
    match RvaToOffset(h, table) {
      case None =>
      case Some(t0) =>
        var size;
        spans, size := WalkSlots(h, data, t0, w);
        spans := spans + [Span(table, size)];
    }
  }

  method WalkSlots(h: Header, data: bytes, t0: nat, w: nat) returns (spans: seq<Span>, size: nat)
    ensures spans == TableWalk(h, data, t0, 0, w).0 && size == TableWalk(h, data, t0, 0, w).1
  {
    hide Cited, U32At;
    spans, size := [], 0;
    var k: nat, at: nat := 0, t0;
    ghost var goal := TableWalk(h, data, t0, 0, w);
    while true
      invariant 0 <= k <= 4096
      invariant spans + TableWalk(h, data, at, k, w).0 == goal.0
      invariant size + TableWalk(h, data, at, k, w).1 == goal.1
      decreases 4096 - k
    {
      k, size := k + 1, size + w;
      if k > 4096 {
        break;
      }
      var entry := U32At(data, at);
      if entry == 0 {
        break;
      }
      var cited := CiteEntry(h, data, entry);
      spans := spans + cited;
      at := at + w;
    }
  }

  method CiteEntry(h: Header, data: bytes, entry: nat) returns (spans: seq<Span>)
    ensures spans == Cited(h, data, entry)
  {
    spans := [];
    if entry < 0x8000_0000 {
      spans := MeasureStringSpan(h, data, entry, 2);
    }
  }

  method ImportMetadataRanges(h: Header, data: bytes, is64bit: bool) returns (ranges: seq<Span>)
    ensures ranges == Spans(h, data, PtrSize(is64bit))
  {
    ranges := [];
    if h.importRva == 0 {
      return;
    }
    ranges := WalkDescriptors(h, data, PtrSize(is64bit));
  }

  method WalkDescriptor(h: Header, data: bytes, cursor: nat, off: nat, w: nat) returns (ranges: seq<Span>)
    ensures ranges == DescSpan(h, data, cursor, off, w)
  {
    hide StringSpan, TableSpans, U32At;
    var lookup, name, first := U32At(data, off), U32At(data, off + 12), U32At(data, off + 16);
    ranges := [Span(cursor, DESCRIPTOR)];
    var dll := MeasureStringSpan(h, data, name, 0);
    ranges := ranges + dll;
    var lookups := WalkTable(h, data, lookup, w);
    var firsts := WalkTable(h, data, first, w);
    ranges := ranges + lookups + firsts;
  }

  method WalkDescriptors(h: Header, data: bytes, w: nat) returns (ranges: seq<Span>)
    ensures ranges == DescSpans(h, data, h.importRva, 0, w)
  {
    hide DescSpan, U32At, OffsetIn;
    ranges := [];
    var cursor: nat, guard: nat := h.importRva, 0;
    ghost var goal := DescSpans(h, data, h.importRva, 0, w);
    while true
      invariant 0 <= guard <= 512
      invariant ranges + DescSpans(h, data, cursor, guard, w) == goal
      decreases 513 - guard
    {
      guard := guard + 1;
      if guard > 512 {
        break;
      }
      var off := RvaToOffset(h, cursor);
      if off.None? {
        break;
      }
      if U32At(data, off.value + 12) == 0 {
        ranges := ranges + [Span(cursor, DESCRIPTOR)];
        break;
      }
      var one := WalkDescriptor(h, data, cursor, off.value, w);
      ranges := ranges + one;
      cursor := cursor + DESCRIPTOR;
    }
  }

  // ---- A rebuilt section is covered completely ---------------------------------------------------

  /** The header maps the RVAs of sec, va on, to the file range where its bytes stand. */
  ghost predicate Mapped(h: Header, data: bytes, sec: bytes, va: nat, raw: nat)
  {
    && At(data, raw, sec)
    && forall x :: va <= x < va + |sec| ==> RvaToOffset(h, x) == Some(raw + (x - va))
  }

  lemma {:induction false} MappedByte(h: Header, data: bytes, sec: bytes, va: nat, raw: nat, o: nat)
    requires Mapped(h, data, sec, va, raw) && o < |sec|
    ensures raw + o < |data| && data[raw + o] == sec[o]
  {
    AtByte(data, raw, sec, o);
  }

  lemma {:induction false} MappedOffset(h: Header, data: bytes, sec: bytes, va: nat, raw: nat, x: nat)
    requires Mapped(h, data, sec, va, raw) && va <= x < va + |sec|
    ensures RvaToOffset(h, x) == Some(raw + (x - va))
  {
  }

  lemma {:induction false} MappedWord(h: Header, data: bytes, sec: bytes, va: nat, raw: nat, o: nat)
    requires Mapped(h, data, sec, va, raw) && o + 4 <= |sec|
    ensures U32At(data, raw + o) == Get(sec, o, 4)
  {
    WordShift(data, raw, sec, o, 4);
  }

  lemma {:induction false} WordShift(data: bytes, raw: nat, sec: bytes, o: nat, w: nat)
    requires At(data, raw, sec) && o + w <= |sec|
    ensures raw + o + w <= |data| && Get(data, raw + o, w) == Get(sec, o, w)
    decreases w
  {
    if w != 0 {
      AtByte(data, raw, sec, o);
      WordShift(data, raw, sec, o + 1, w - 1);
    }
  }

  lemma {:induction false} MappedString(h: Header, data: bytes, sec: bytes, va: nat, raw: nat, o: nat, s: bytes, n: nat)
    requires Mapped(h, data, sec, va, raw) && At(sec, o, s + [0])
    requires n <= |s| <= 255 && forall k :: 0 <= k < |s| ==> s[k] != 0
    ensures StrLen(data, raw + o, n) == Some(|s|)
    decreases |s| - n
  {
    AtByte(sec, o, s + [0], n);
    MappedByte(h, data, sec, va, raw, o + n);
    if n < |s| {
      MappedString(h, data, sec, va, raw, o, s, n + 1);
    }
  }

  /** Every RVA from lo up to hi is in one of the ranges. */
  ghost predicate Covers(spans: seq<Span>, lo: nat, hi: nat)
  {
    forall x :: lo <= x < hi ==> InSpans(spans, x)
  }

  lemma {:induction false} CoversConcat(a: seq<Span>, b: seq<Span>, lo: nat, hi: nat)
    requires Covers(a, lo, hi) || Covers(b, lo, hi)
    ensures Covers(a + b, lo, hi)
  {
    forall x | lo <= x < hi ensures InSpans(a + b, x) {
      InSpansConcat(a, b, x);
    }
  }

  lemma {:induction false} InSpansConcat(a: seq<Span>, b: seq<Span>, x: nat)
    ensures InSpans(a + b, x) <==> InSpans(a, x) || InSpans(b, x)
  {
    if InSpans(a, x) {
      var k :| 0 <= k < |a| && a[k].rva <= x < a[k].rva + a[k].len;
      assert (a + b)[k] == a[k];
    }
    if InSpans(b, x) {
      var k :| 0 <= k < |b| && b[k].rva <= x < b[k].rva + b[k].len;
      assert (a + b)[|a| + k] == b[k];
    }
  }

  lemma {:induction false} CoversJoin(spans: seq<Span>, lo: nat, mid: nat, hi: nat)
    requires Covers(spans, lo, mid) && Covers(spans, mid, hi)
    ensures Covers(spans, lo, hi)
  {
  }

  lemma {:induction false} CoversOne(rva: nat, len: nat)
    ensures Covers([Span(rva, len)], rva, rva + len)
  {
    forall x | rva <= x < rva + len ensures InSpans([Span(rva, len)], x) {
      assert [Span(rva, len)][0].rva <= x;
    }
  }

  /** Names the walk can measure, and slots it does not take for the end of the table. */
  ghost predicate Short(s: bytes)
  {
    |s| <= 255 && forall k :: 0 <= k < |s| ==> s[k] != 0
  }

  ghost predicate Walkable(t: Thunk, w: nat)
  {
    if t.name.Some? then Short(t.name.value) else t.ordinal.Some? && (w == 8 ==> t.ordinal.value != 0)
  }

  ghost predicate WalkableModule(m: Module, w: nat)
  {
    Short(m.name) && |m.thunks| <= 4095 && forall k :: 0 <= k < |m.thunks| ==> Walkable(m.thunks[k], w)
  }

  lemma {:induction false} OrdinalLow(n: u16)
    ensures (OrdinalFlag(8) + n) % TWO32 == n
  {
    ModUnique(OrdinalFlag(8) + n, TWO32, 0x8000_0000, n);
  }

  lemma {:induction false} WalkableSlot(t: Thunk, hintAt: nat, w: nat)
    requires w == 4 || w == 8
    requires Walkable(t, w) && 0 < hintAt < 0x8000_0000
    ensures Slot(t, hintAt, w) < Range(w) && Slot(t, hintAt, w) > 0
    ensures w == 8 ==> Slot(t, hintAt, w) % TWO32 > 0
    ensures t.name.Some? ==> Slot(t, hintAt, w) == hintAt == hintAt % TWO32
  {
    SlotFits(t, hintAt, w);
    if t.ordinal.Some? {
      OrdinalLow(t.ordinal.value);
    }
  }

  /** The low dword of a printed slot: never zero, and the RVA itself for a named thunk. */
  lemma {:induction false} SlotLow(sec: bytes, o: nat, t: Thunk, hintAt: nat, w: nat)
    requires w == 4 || w == 8
    requires Walkable(t, w) && 0 < hintAt < 0x8000_0000
    requires o + w <= |sec| && At(sec, o, Le(Slot(t, hintAt, w), w))
    ensures o + 4 <= |sec| && Get(sec, o, 4) > 0
    ensures t.name.Some? ==> Get(sec, o, 4) == hintAt
  {
    hide Slot, At, Walkable, Get, Le, Range;
    WalkableSlot(t, hintAt, w);
    GetAt(sec, o, Slot(t, hintAt, w), w);
    if w == 8 {
      LowHalf(sec, o);
    }
  }

  lemma {:induction false} StringCovers(h: Header, data: bytes, sec: bytes, va: nat, raw: nat, rva: nat, hint: nat,
      s: bytes)
    requires Mapped(h, data, sec, va, raw) && va <= rva
    requires At(sec, rva - va + hint, s + [0]) && Short(s)
    ensures Covers(StringSpan(h, data, rva, hint), rva, rva + hint + |s| + 1)
  {
    MappedOffset(h, data, sec, va, raw, rva);
    MappedString(h, data, sec, va, raw, rva - va + hint, s, 0);
    assert raw + (rva - va) + hint == raw + (rva - va + hint);
    CoversOne(rva, |s| + hint + 1);
  }

  lemma {:induction false} WalkEnds(h: Header, data: bytes, at: nat, k: nat, w: nat)
    requires (w == 4 || w == 8) && At(data, at, Zeros(w))
    ensures TableWalk(h, data, at, k, w) == ([], w)
  {
    hide At, Get;
    ZeroHead(data, at, w);
  }

  lemma {:induction false} ZeroHead(sec: bytes, o: nat, w: nat)
    requires (w == 4 || w == 8) && At(sec, o, Zeros(w))
    ensures o + 4 <= |sec| && Get(sec, o, 4) == 0
  {
    assert Zeros(w) == Zeros(4) + Zeros(w - 4);
    AtSplit(sec, o, Zeros(4), Zeros(w - 4));
    ZeroWord(sec, o, 4);
  }

  /** One step of the walk over a printed slot, with the string it cites. */
  lemma {:induction false} WalkSlot(h: Header, data: bytes, sec: bytes, va: nat, raw: nat, at: nat, t: Thunk,
      hintAt: nat, k: nat, w: nat)
    requires w == 4 || w == 8
    requires Mapped(h, data, sec, va, raw) && Walkable(t, w) && k < 4096
    requires 0 < hintAt < 0x8000_0000 && va <= hintAt
    requires at + w <= |data| && At(data, at, Le(Slot(t, hintAt, w), w)) && At(sec, hintAt - va, HintBytes(t))
    ensures var entry, rest := U32At(data, at), TableWalk(h, data, at + w, k + 1, w);
      && TableWalk(h, data, at, k, w) == (Cited(h, data, entry) + rest.0, w + rest.1)
      && Covers(Cited(h, data, entry), hintAt, hintAt + HintSize(t))
  {
    hide Mapped, At, Get, StringSpan, Covers, Le, Slot;
    SlotLow(data, at, t, hintAt, w);
    if t.name.Some? {
      NameSplit(sec, hintAt - va, t);
      StringCovers(h, data, sec, va, raw, hintAt, 2, t.name.value);
    } else {
      CoversNothing(Cited(h, data, U32At(data, at)), hintAt);
    }
  }

  lemma {:induction false} NameSplit(sec: bytes, o: nat, t: Thunk)
    requires t.name.Some? && At(sec, o, HintBytes(t))
    ensures At(sec, o + 2, t.name.value + [0])
  {
    AtSplit(sec, o, Zeros(2), t.name.value + [0]);
  }

  lemma {:induction false} CoversNothing(spans: seq<Span>, lo: nat)
    ensures Covers(spans, lo, lo)
  {
  }

  /** The walk over a printed slot table, wherever it stands, covers the strings its slots cite. */
  lemma {:induction false} TableCovers(h: Header, data: bytes, sec: bytes, va: nat, raw: nat, at: nat,
      ts: seq<Thunk>, hintAt: nat, k: nat, w: nat)
    requires w == 4 || w == 8
    requires Mapped(h, data, sec, va, raw) && va + |sec| < 0x8000_0000
    requires 0 < hintAt && va <= hintAt && k + |ts| <= 4096
    requires forall j :: 0 <= j < |ts| ==> Walkable(ts[j], w)
    requires At(data, at, SlotBytes(ts, hintAt, w) + Zeros(w))
    requires At(sec, hintAt - va, HintsBytes(ts))
    ensures TableWalk(h, data, at, k, w).1 == w * |ts| + w
    ensures Covers(TableWalk(h, data, at, k, w).0, hintAt, hintAt + HintsSize(ts))
    decreases |ts|
  {
    hide *;
    if ts == [] {
      NoSlots(data, at, hintAt, w);
      WalkEnds(h, data, at, k, w);
      CoversNothing([], hintAt);
      NoHints();
    } else {
      var t, rest := ts[0], ts[1..];
      SlotsCons(data, at, ts, hintAt, w);
      HintsCons(sec, hintAt - va, ts);
      HintInside(sec, va, hintAt, ts);
      WalkSlot(h, data, sec, va, raw, at, t, hintAt, k, w);
      TableCovers(h, data, sec, va, raw, at + w, rest, hintAt + HintSize(t), k + 1, w);
      HintsSizeCons(ts);
      var a, b := Cited(h, data, U32At(data, at)), TableWalk(h, data, at + w, k + 1, w).0;
      var mid := hintAt + HintSize(t);
      CoversConcat(a, b, hintAt, mid);
      CoversConcat(a, b, mid, mid + HintsSize(rest));
      CoversJoin(a + b, hintAt, mid, mid + HintsSize(rest));
    }
  }

  lemma {:induction false} NoSlots(sec: bytes, o: nat, hintAt: nat, w: nat)
    requires At(sec, o, SlotBytes([], hintAt, w) + Zeros(w))
    ensures At(sec, o, Zeros(w))
  {
    assert SlotBytes([], hintAt, w) + Zeros(w) == Zeros(w);
  }

  lemma {:induction false} NoHints()
    ensures HintsSize([]) == 0
  {
  }

  lemma {:induction false} HintsSizeCons(ts: seq<Thunk>)
    requires ts != []
    ensures HintsSize(ts) == HintSize(ts[0]) + HintsSize(ts[1..])
  {
  }

  lemma {:induction false} TableSpansCover(h: Header, data: bytes, sec: bytes, va: nat, raw: nat, table: nat,
      at: nat, m: Module, hintAt: nat, w: nat)
    requires w == 4 || w == 8
    requires Mapped(h, data, sec, va, raw) && va + |sec| < 0x8000_0000
    requires 0 < hintAt && va <= hintAt && 0 < table && RvaToOffset(h, table) == Some(at) && WalkableModule(m, w)
    requires At(data, at, SlotBytes(m.thunks, hintAt, w) + Zeros(w))
    requires At(sec, hintAt - va, HintsBytes(m.thunks))
    ensures Covers(TableSpans(h, data, table, w), table, table + TableSize(m, w))
    ensures Covers(TableSpans(h, data, table, w), hintAt, hintAt + HintsSize(m.thunks))
  {
    hide *;
    WalkableParts(m, w);
    TableCovers(h, data, sec, va, raw, at, m.thunks, hintAt, 0, w);
    TableSizeSplit(m, w);
    TableSpansOpen(h, data, table, at, w);
    var r := TableWalk(h, data, at, 0, w);
    CoversOne(table, r.1);
    CoversConcat(r.0, [Span(table, r.1)], table, table + r.1);
    CoversConcat(r.0, [Span(table, r.1)], hintAt, hintAt + HintsSize(m.thunks));
  }

  /** A table inside a mapped section stands in the file, where its address leads. */
  lemma {:induction false} TableInSection(h: Header, data: bytes, sec: bytes, va: nat, raw: nat, table: nat, m: Module,
      hintAt: nat, w: nat)
    requires Mapped(h, data, sec, va, raw) && va <= table && w > 0
    requires At(sec, table - va, SlotBytes(m.thunks, hintAt, w) + Zeros(w))
    ensures RvaToOffset(h, table) == Some(raw + (table - va))
    ensures At(data, raw + (table - va), SlotBytes(m.thunks, hintAt, w) + Zeros(w))
  {
    hide SlotBytes, OffsetIn;
    AtNested(data, raw, sec, table - va, SlotBytes(m.thunks, hintAt, w) + Zeros(w));
  }

  lemma {:induction false} AtNested(data: bytes, raw: nat, sec: bytes, o: nat, s: bytes)
    requires At(data, raw, sec) && At(sec, o, s)
    ensures At(data, raw + o, s)
  {
    assert sec == (sec[..o] + s) + sec[o + |s|..];
    AtSplit(data, raw, sec[..o] + s, sec[o + |s|..]);
    AtSplit(data, raw, sec[..o], s);
  }

  lemma {:induction false} WalkableParts(m: Module, w: nat)
    requires WalkableModule(m, w)
    ensures Short(m.name) && |m.thunks| <= 4095 && forall k :: 0 <= k < |m.thunks| ==> Walkable(m.thunks[k], w)
  {
  }

  lemma {:induction false} TableSpansOpen(h: Header, data: bytes, table: nat, t0: nat, w: nat)
    requires 0 < table && RvaToOffset(h, table) == Some(t0)
    ensures TableSpans(h, data, table, w) == TableWalk(h, data, t0, 0, w).0
        + [Span(table, TableWalk(h, data, t0, 0, w).1)]
  {
  }

  /** What one module's pieces occupy, seen from its descriptor's RVA and the cursors. */
  ghost predicate CoversModule(spans: seq<Span>, desc: nat, c: Cursors, m: Module, w: nat)
  {
    && Covers(spans, desc, desc + DESCRIPTOR)
    && Covers(spans, c.name, c.name + |m.name| + 1)
    && Covers(spans, c.hint, c.hint + HintsSize(m.thunks))
    && Covers(spans, c.iat, c.iat + TableSize(m, w))
    && Covers(spans, c.ilt, c.ilt + TableSize(m, w))
  }

  /** What the pieces of all modules ms and the null descriptor behind them occupy. */
  ghost predicate CoversAll(spans: seq<Span>, desc: nat, c: Cursors, ms: seq<Module>, w: nat)
  {
    && Covers(spans, desc, desc + DESCRIPTOR * (|ms| + 1))
    && Covers(spans, c.name, c.name + |Names(ms)|)
    && Covers(spans, c.hint, c.hint + |Hints(ms)|)
    && Covers(spans, c.iat, c.iat + TablesSize(ms, w))
    && Covers(spans, c.ilt, c.ilt + TablesSize(ms, w))
  }

  lemma {:induction false} CoversModuleConcat(a: seq<Span>, b: seq<Span>, desc: nat, c: Cursors, ms: seq<Module>,
      w: nat)
    requires ms != [] && CoversModule(a, desc, c, ms[0], w)
    requires CoversAll(b, desc + DESCRIPTOR, Next(c, ms[0], w), ms[1..], w)
    ensures CoversAll(a + b, desc, c, ms, w)
  {
    hide Covers, HintsBytes, TableSize;
    var m, rest := ms[0], ms[1..];
    HintsBytesLength(m.thunks);
    CoversBoth(a, b, desc, desc + DESCRIPTOR, desc + DESCRIPTOR * (|ms| + 1));
    CoversBoth(a, b, c.name, c.name + |m.name| + 1, c.name + |Names(ms)|);
    CoversBoth(a, b, c.hint, c.hint + HintsSize(m.thunks), c.hint + |Hints(ms)|);
    CoversBoth(a, b, c.iat, c.iat + TableSize(m, w), c.iat + TablesSize(ms, w));
    CoversBoth(a, b, c.ilt, c.ilt + TableSize(m, w), c.ilt + TablesSize(ms, w));
  }

  lemma {:induction false} CoversBoth(a: seq<Span>, b: seq<Span>, lo: nat, mid: nat, hi: nat)
    requires Covers(a, lo, mid) && Covers(b, mid, hi)
    ensures Covers(a + b, lo, hi)
  {
    CoversConcat(a, b, lo, mid);
    CoversConcat(a, b, mid, hi);
    CoversJoin(a + b, lo, mid, hi);
  }

  lemma {:induction false} DescSpanCovers(h: Header, data: bytes, sec: bytes, va: nat, raw: nat, off: nat,
      ms: seq<Module>, c: Cursors, w: nat)
    requires w == 4 || w == 8
    requires Mapped(h, data, sec, va, raw) && va + |sec| < 0x8000_0000
    requires ms != [] && Stands(sec, va, off, ms, c, w) && WalkableModule(ms[0], w) && 0 < c.iat && 0 < c.ilt
    ensures off + DESCRIPTOR <= |sec| && U32At(data, raw + off + 12) == c.name && 0 < c.name
    ensures CoversModule(DescSpan(h, data, va + off, raw + off, w), va + off, c, ms[0], w)
  {
    hide *;
    var m := ms[0];
    SmallConstants();
    WalkableParts(m, w);
    StandsCons(sec, va, off, ms, c, w);
    StandsInside(sec, va, off, ms, c, w);
    DescriptorAt(sec, off, c.ilt, c.name, c.iat);
    MappedWord(h, data, sec, va, raw, off);
    MappedWord(h, data, sec, va, raw, off + 12);
    MappedWord(h, data, sec, va, raw, off + 16);
    assert raw + off + 12 == raw + (off + 12) && raw + off + 16 == raw + (off + 16);
    StringCovers(h, data, sec, va, raw, c.name, 0, m.name);
    TableInSection(h, data, sec, va, raw, c.ilt, m, c.hint, w);
    TableInSection(h, data, sec, va, raw, c.iat, m, c.hint, w);
    TableSpansCover(h, data, sec, va, raw, c.ilt, raw + (c.ilt - va), m, c.hint, w);
    TableSpansCover(h, data, sec, va, raw, c.iat, raw + (c.iat - va), m, c.hint, w);
    CoversOne(va + off, DESCRIPTOR);
    FourParts([Span(va + off, DESCRIPTOR)], StringSpan(h, data, c.name, 0), TableSpans(h, data, c.ilt, w),
              TableSpans(h, data, c.iat, w), va + off, c, m, w);
    DescSpanOpen(h, data, va + off, raw + off, w);
  }

  lemma {:induction false} SmallConstants()
    ensures DESCRIPTOR == 20 && 0x8000_0000 < TWO32
  {
  }

  lemma {:induction false} DescSpanOpen(h: Header, data: bytes, cursor: nat, off: nat, w: nat)
    ensures DescSpan(h, data, cursor, off, w)
         == [Span(cursor, DESCRIPTOR)] + StringSpan(h, data, U32At(data, off + 12), 0)
          + TableSpans(h, data, U32At(data, off), w) + TableSpans(h, data, U32At(data, off + 16), w)
  {
  }

  lemma {:induction false} FourParts(p: seq<Span>, q: seq<Span>, r: seq<Span>, s: seq<Span>, desc: nat, c: Cursors,
      m: Module, w: nat)
    requires Covers(p, desc, desc + DESCRIPTOR) && Covers(q, c.name, c.name + 0 + |m.name| + 1)
    requires Covers(r, c.ilt, c.ilt + TableSize(m, w)) && Covers(s, c.iat, c.iat + TableSize(m, w))
    requires Covers(s, c.hint, c.hint + HintsSize(m.thunks))
    ensures CoversModule(p + q + r + s, desc, c, m, w)
  {
    hide Covers, TableSize, HintsSize;
    CoversConcat(p, q, desc, desc + DESCRIPTOR);
    CoversConcat(p + q, r, desc, desc + DESCRIPTOR);
    CoversConcat(p + q + r, s, desc, desc + DESCRIPTOR);
    CoversConcat(p, q, c.name, c.name + |m.name| + 1);
    CoversConcat(p + q, r, c.name, c.name + |m.name| + 1);
    CoversConcat(p + q + r, s, c.name, c.name + |m.name| + 1);
    CoversConcat(p + q, r, c.ilt, c.ilt + TableSize(m, w));
    CoversConcat(p + q + r, s, c.ilt, c.ilt + TableSize(m, w));
    CoversConcat(p + q + r, s, c.iat, c.iat + TableSize(m, w));
    CoversConcat(p + q + r, s, c.hint, c.hint + HintsSize(m.thunks));
  }

  lemma {:induction false} DescSpansNone(h: Header, data: bytes, sec: bytes, va: nat, raw: nat, off: nat,
      c: Cursors, guard: nat, w: nat)
    requires Mapped(h, data, sec, va, raw) && Stands(sec, va, off, [], c, w) && guard < 512
    ensures CoversAll(DescSpans(h, data, va + off, guard, w), va + off, c, [], w)
  {
    hide *;
    SmallConstants();
    NullDescriptor(sec, va, off, c, w);
    MappedOffset(h, data, sec, va, raw, va + off);
    MappedWord(h, data, sec, va, raw, off + 12);
    assert raw + off + 12 == raw + (off + 12);
    DescSpansEnd(h, data, va + off, raw + off, guard, w);
    CoversOne(va + off, DESCRIPTOR);
    CoversAllNone([Span(va + off, DESCRIPTOR)], va + off, c, w);
  }

  lemma {:induction false} DescSpansEnd(h: Header, data: bytes, cursor: nat, off: nat, guard: nat, w: nat)
    requires guard < 512 && RvaToOffset(h, cursor) == Some(off) && U32At(data, off + 12) == 0
    ensures DescSpans(h, data, cursor, guard, w) == [Span(cursor, DESCRIPTOR)]
  {
    hide DescSpan, U32At, OffsetIn, RvaToOffset;
  }

  lemma {:induction false} CoversAllNone(spans: seq<Span>, desc: nat, c: Cursors, w: nat)
    requires Covers(spans, desc, desc + DESCRIPTOR)
    ensures CoversAll(spans, desc, c, [], w)
  {
    CoversNothing(spans, c.name);
    CoversNothing(spans, c.hint);
    CoversNothing(spans, c.iat);
    CoversNothing(spans, c.ilt);
  }

  lemma {:induction false} NullDescriptor(sec: bytes, va: nat, off: nat, c: Cursors, w: nat)
    requires Stands(sec, va, off, [], c, w)
    ensures off + DESCRIPTOR <= |sec| && Get(sec, off + 12, 4) == 0
  {
    assert Descriptors([], c.name, c.iat, c.ilt, w) + Zeros(DESCRIPTOR) == Zeros(12) + (Zeros(4) + Zeros(4));
    AtSplit(sec, off, Zeros(12), Zeros(4) + Zeros(4));
    AtSplit(sec, off + 12, Zeros(4), Zeros(4));
    ZeroWord(sec, off + 12, 4);
  }

  lemma {:induction false} DescSpansOpen(h: Header, data: bytes, cursor: nat, off: nat, guard: nat, w: nat)
    requires guard < 512 && RvaToOffset(h, cursor) == Some(off) && U32At(data, off + 12) > 0
    ensures DescSpans(h, data, cursor, guard, w)
         == DescSpan(h, data, cursor, off, w) + DescSpans(h, data, cursor + DESCRIPTOR, guard + 1, w)
  {
    hide DescSpan, U32At, OffsetIn, RvaToOffset;
  }

  lemma {:induction false} DescSpansCover(h: Header, data: bytes, sec: bytes, va: nat, raw: nat, off: nat,
      ms: seq<Module>, c: Cursors, guard: nat, w: nat)
    requires w == 4 || w == 8
    requires Mapped(h, data, sec, va, raw) && va + |sec| < 0x8000_0000
    requires Stands(sec, va, off, ms, c, w) && guard + |ms| < 512 && 0 < c.iat && 0 < c.ilt
    requires forall i :: 0 <= i < |ms| ==> WalkableModule(ms[i], w)
    ensures CoversAll(DescSpans(h, data, va + off, guard, w), va + off, c, ms, w)
    decreases |ms|
  {
    hide *;
    if ms == [] {
      DescSpansNone(h, data, sec, va, raw, off, c, guard, w);
    } else {
      DescSpanCovers(h, data, sec, va, raw, off, ms, c, w);
      StandsCons(sec, va, off, ms, c, w);
      NextGrows(c, ms[0], w);
      DescSpansCover(h, data, sec, va, raw, off + DESCRIPTOR, ms[1..], Next(c, ms[0], w), guard + 1, w);
      DescriptorNotEmpty();
      MappedOffset(h, data, sec, va, raw, va + off);
      DescSpansOpen(h, data, va + off, raw + off, guard, w);
      CoversModuleConcat(DescSpan(h, data, va + off, raw + off, w),
                         DescSpans(h, data, va + off + DESCRIPTOR, guard + 1, w), va + off, c, ms, w);
    }
  }

  lemma {:induction false} DescriptorNotEmpty()
    ensures DESCRIPTOR > 0
  {
  }

  lemma {:induction false} NextGrows(c: Cursors, m: Module, w: nat)
    ensures Next(c, m, w).iat >= c.iat && Next(c, m, w).ilt >= c.ilt
  {
  }

  /**
   * On any printed section within the walk's guards the ranges cover every byte of it: descriptors,
   * names, hint/name entries and both tables. The section starts at the import directory's RVA.
   */
  lemma {:induction false} SectionCovered(h: Header, data: bytes, raw: nat, ms: seq<Module>, w: nat)
    requires w == 4 || w == 8
    requires Mapped(h, data, SectionBytes(ms, h.importRva, w), h.importRva, raw)
    requires h.importRva > 0 && h.importRva + SectionSize(ms, w) < 0x8000_0000
    requires |ms| <= 511 && forall i :: 0 <= i < |ms| ==> WalkableModule(ms[i], w)
    ensures Covers(Spans(h, data, w), h.importRva, h.importRva + SectionSize(ms, w))
  {
    hide *;
    var va, c := h.importRva, Start(ms, h.importRva, w);
    var sec := SectionBytes(ms, va, w);
    SectionLength(ms, va, w);
    AtWhole(sec);
    SectionStands(sec, va, ms, w);
    StartIs(ms, va, w);
    DescSpansCover(h, data, sec, va, raw, 0, ms, c, 0, w);
    SpansOpen(h, data, w);
    WholeCovered(Spans(h, data, w), va, ms, w);
  }

  lemma {:induction false} SpansOpen(h: Header, data: bytes, w: nat)
    requires h.importRva > 0
    ensures Spans(h, data, w) == DescSpans(h, data, h.importRva, 0, w)
  {
  }

  lemma {:induction false} WholeCovered(spans: seq<Span>, va: nat, ms: seq<Module>, w: nat)
    requires CoversAll(spans, va + 0, Start(ms, va, w), ms, w)
    ensures Covers(spans, va, va + SectionSize(ms, w))
  {
    hide Covers, Names, Hints, TablesSize;
    CoversJoin(spans, va, va + NamesAt(ms), va + HintsAt(ms));
    CoversJoin(spans, va, va + HintsAt(ms), va + IatAt(ms));
    CoversJoin(spans, va, va + IatAt(ms), va + IltAt(ms, w));
    CoversJoin(spans, va, va + IltAt(ms, w), va + SectionSize(ms, w));
  }
}
