/** Which bytes the import metadata is, said byte by byte (import_metadata_ranges in crates/pe/src/postprocess.rs). */
module ImportProtection {
  import opened Options
  import opened Words
  import opened Pe
  import opened ImportMetadata

  // ---- The definition, on the bytes of the file --------------------------------------------------------

  /** The first NUL from offset o on is len bytes away, among the first 256. */
  ghost predicate NulAfter(data: bytes, o: nat, len: nat)
  {
    len < 256 && o + len < |data| && data[o + len] == 0 && forall n :: o <= n < o + len ==> data[n] != 0
  }

  /** RVA x is in the string that rva cites, behind hint bytes, or in the hint: at or before its first NUL. */
  ghost predicate StringByte(h: Header, data: bytes, rva: nat, hint: nat, x: nat)
  {
    RvaToOffset(h, rva).Some? && exists len: nat :: UpToNul(data, RvaToOffset(h, rva).value, rva, hint, len, x)
  }

  ghost predicate UpToNul(data: bytes, o: nat, rva: nat, hint: nat, len: nat, x: nat)
  {
    NulAfter(data, o + hint, len) && rva <= x <= rva + hint + len
  }

  /** The dword at o is in the file and not zero. */
  predicate Filled(data: bytes, o: nat) { o + 4 <= |data| && Get(data, o, 4) != 0 }

  /** None of the first m slots of the table at t0 has a low dword of zero. */
  ghost predicate FilledBefore(data: bytes, t0: nat, m: nat, w: nat)
  {
    forall l: nat :: l < m ==> FilledSlot(data, t0, l, w)
  }

  predicate FilledSlot(data: bytes, t0: nat, l: nat, w: nat) { Filled(data, SlotAt(t0, l, w)) }

  /** x is in the m-th slot, which comes at or before the first zero one, or in the name that slot cites. */
  ghost predicate SlotByte(h: Header, data: bytes, table: nat, t0: nat, m: nat, w: nat, x: nat)
  {
    && FilledBefore(data, t0, m, w)
    && ((m <= 4096 && SlotAt(table, m, w) <= x < SlotAt(table, m, w) + w)
        || (m < 4096 && NamedByte(h, data, SlotAt(t0, m, w), x)))
  }

  /** The slot at o is no ordinal, and x is in the hint/name entry it cites. */
  ghost predicate NamedByte(h: Header, data: bytes, o: nat, x: nat)
  {
    Filled(data, o) && Get(data, o, 4) < 0x8000_0000 && StringByte(h, data, Get(data, o, 4), 2, x)
  }

  ghost predicate TableByte(h: Header, data: bytes, table: nat, w: nat, x: nat)
  {
    table != 0 && RvaToOffset(h, table).Some?
    && exists m: nat :: SlotByte(h, data, table, RvaToOffset(h, table).value, m, w, x)
  }

  /** The k-th descriptor cites a DLL name. */
  ghost predicate CitesName(h: Header, data: bytes, k: nat)
  {
    RvaToOffset(h, h.importRva + 20 * k).Some? && Filled(data, RvaToOffset(h, h.importRva + 20 * k).value + 12)
  }

  /** The walk from descriptor g on comes to the k-th, of 512 at most: all of them are mapped and only k may be null. */
  ghost predicate Visited(h: Header, data: bytes, g: nat, k: nat)
  {
    && g <= k < 512 && RvaToOffset(h, h.importRva + 20 * k).Some?
    && forall j: nat :: g <= j < k ==> CitesName(h, data, j)
  }

  /** x is in the k-th descriptor, in the name it cites, or in one of its two tables or the names these cite. */
  ghost predicate DescriptorByte(h: Header, data: bytes, k: nat, w: nat, x: nat)
  {
    || h.importRva + 20 * k <= x < h.importRva + 20 * k + 20
    || (CitesName(h, data, k) && var off := RvaToOffset(h, h.importRva + 20 * k).value;
        || StringByte(h, data, Get(data, off + 12, 4), 0, x)
        || TableByte(h, data, Get(data, off, 4), w, x)
        || (off + 20 <= |data| && TableByte(h, data, Get(data, off + 16, 4), w, x)))
  }

  /** RVA x is a byte of the import metadata, starting from descriptor g. */
  ghost predicate ByteFrom(h: Header, data: bytes, g: nat, w: nat, x: nat)
  {
    exists k: nat :: Visited(h, data, g, k) && DescriptorByte(h, data, k, w, x)
  }

  ghost predicate ImportByte(h: Header, data: bytes, w: nat, x: nat)
  {
    h.importRva != 0 && ByteFrom(h, data, 0, w, x)
  }

  // ---- The walk finds exactly those bytes -----------------------------------------------------------------

  lemma {:induction false} StrLenIff(data: bytes, o: nat, n: nat, len: nat)
    requires forall m :: o <= m < o + n && m < |data| ==> data[m] != 0
    ensures StrLen(data, o, n) == Some(len) <==> n <= len && NulAfter(data, o, len)
    decreases 256 - n
  {
    if o + n < |data| && n < 256 && data[o + n] != 0 {
      StrLenIff(data, o, n + 1, len);
    }
  }

  lemma {:induction false} InOne(rva: nat, len: nat, x: nat)
    ensures InSpans([Span(rva, len)], x) <==> rva <= x < rva + len
  {
    assert [Span(rva, len)][0] == Span(rva, len);
  }

  lemma {:induction false} InNone(x: nat)
    ensures !InSpans([], x)
  {
  }

  lemma {:induction false} StringSpanIff(h: Header, data: bytes, rva: nat, hint: nat, x: nat)
    ensures InSpans(StringSpan(h, data, rva, hint), x) <==> StringByte(h, data, rva, hint, x)
  {
    hide OffsetIn, NulAfter, StrLen, InSpans;
    InNone(x);
    if RvaToOffset(h, rva).Some? {
      var o := RvaToOffset(h, rva).value;
      var found := StrLen(data, o + hint, 0);
      if found.Some? {
        InOne(rva, found.value + hint + 1, x);
        StrLenIff(data, o + hint, 0, found.value);
        assert UpToNul(data, o, rva, hint, found.value, x) <==> rva <= x <= rva + hint + found.value;
      }
      if StringByte(h, data, rva, hint, x) {
        var len: nat :| UpToNul(data, o, rva, hint, len, x);
        StrLenIff(data, o + hint, 0, len);
      }
    }
  }

  lemma {:induction false} CitedIff(h: Header, data: bytes, o: nat, x: nat)
    requires Filled(data, o)
    ensures InSpans(Cited(h, data, U32At(data, o)), x) <==> NamedByte(h, data, o, x)
  {
    hide StringSpan, StringByte, InSpans, Get;
    InNone(x);
    StringSpanIff(h, data, U32At(data, o), 2, x);
  }

  // ---- One table -----------------------------------------------------------------------------------------

  /** From slot k on, at offset at: how many more slots the walk counts, and which bytes their names are. */
  ghost predicate NamesFrom(h: Header, data: bytes, at: nat, k: nat, w: nat, x: nat)
  {
    exists m: nat :: NameOf(h, data, at, k, m, w, x)
  }

  ghost predicate NameOf(h: Header, data: bytes, at: nat, k: nat, m: nat, w: nat, x: nat)
  {
    FilledBefore(data, at, m, w) && k + m < 4096 && NamedByte(h, data, SlotAt(at, m, w), x)
  }

  lemma {:induction false} FilledNext(data: bytes, at: nat, m: nat, w: nat)
    ensures FilledBefore(data, at, m + 1, w) <==> Filled(data, at) && FilledBefore(data, at + w, m, w)
  {
    hide SlotAt, Filled;
    SlotNext(at, 0, w);
    if FilledBefore(data, at, m + 1, w) {
      assert FilledSlot(data, at, 0, w);
      var next := at + w;
      forall l: nat | l < m ensures FilledSlot(data, next, l, w) {
        SlotNext(at, l, w);
        assert FilledSlot(data, at, l + 1, w);
      }
    }
    if Filled(data, at) && FilledBefore(data, at + w, m, w) {
      forall l: nat | l < m + 1 ensures FilledSlot(data, at, l, w) {
        if l > 0 {
          SlotNext(at, l - 1, w);
          assert FilledSlot(data, at + w, l - 1, w);
        }
      }
    }
  }

  lemma {:induction false} NamesOpen(h: Header, data: bytes, at: nat, k: nat, w: nat, x: nat)
    ensures NamesFrom(h, data, at, k, w, x)
       <==> k < 4096 && Filled(data, at) && (NamedByte(h, data, at, x) || NamesFrom(h, data, at + w, k + 1, w, x))
  {
    hide SlotAt, Filled, NamedByte, FilledBefore;
    SlotNext(at, 0, w);
    if NamesFrom(h, data, at, k, w, x) {
      var m: nat :| NameOf(h, data, at, k, m, w, x);
      NameFilled(h, data, SlotAt(at, m, w), x);
      if m > 0 {
        FilledNext(data, at, m - 1, w);
        SlotNext(at, m - 1, w);
        assert NameOf(h, data, at + w, k + 1, m - 1, w, x);
      }
    }
    if k < 4096 && Filled(data, at) {
      if NamedByte(h, data, at, x) {
        NoneBefore(data, at, w);
        assert NameOf(h, data, at, k, 0, w, x);
      } else if NamesFrom(h, data, at + w, k + 1, w, x) {
        var m: nat :| NameOf(h, data, at + w, k + 1, m, w, x);
        FilledNext(data, at, m, w);
        SlotNext(at, m, w);
        assert NameOf(h, data, at, k, m + 1, w, x);
      }
    }
  }

  lemma {:induction false} NameFilled(h: Header, data: bytes, o: nat, x: nat)
    requires NamedByte(h, data, o, x)
    ensures Filled(data, o)
  {
    hide Get, StringByte;
  }

  lemma {:induction false} NoneBefore(data: bytes, at: nat, w: nat)
    ensures FilledBefore(data, at, 0, w)
  {
  }

  lemma {:induction false} EntryFilled(data: bytes, o: nat)
    ensures U32At(data, o) != 0 <==> Filled(data, o)
  {
    hide Get;
  }

  /** The names the walk of a table collects. */
  lemma {:induction false} WalkNames(h: Header, data: bytes, at: nat, k: nat, w: nat, x: nat)
    ensures InSpans(TableWalk(h, data, at, k, w).0, x) <==> NamesFrom(h, data, at, k, w, x)
    decreases 4096 - k
  {
    hide Cited, U32At, InSpans, NamesFrom, NamedByte, Filled;
    NamesOpen(h, data, at, k, w, x);
    EntryFilled(data, at);
    if k < 4096 && Filled(data, at) {
      WalkNames(h, data, at + w, k + 1, w, x);
      CitedIff(h, data, at, x);
      InSpansConcat(Cited(h, data, U32At(data, at)), TableWalk(h, data, at + w, k + 1, w).0, x);
    } else {
      InNone(x);
    }
  }

  /** The slots it counts: x is in the m-th from table on. */
  ghost predicate CountedFrom(data: bytes, table: nat, at: nat, k: nat, w: nat, x: nat)
  {
    exists m: nat :: CountedOf(data, table, at, k, m, w, x)
  }

  ghost predicate CountedOf(data: bytes, table: nat, at: nat, k: nat, m: nat, w: nat, x: nat)
  {
    FilledBefore(data, at, m, w) && k + m <= 4096 && SlotAt(table, m, w) <= x < SlotAt(table, m, w) + w
  }

  lemma {:induction false} CountedOpen(data: bytes, table: nat, at: nat, k: nat, w: nat, x: nat)
    requires k <= 4096
    ensures CountedFrom(data, table, at, k, w, x)
       <==>
       || table <= x < table + w
       || (k < 4096 && Filled(data, at) && CountedFrom(data, table + w, at + w, k + 1, w, x))
  {
    hide SlotAt, Filled, FilledBefore;
    SlotNext(table, 0, w);
    if CountedFrom(data, table, at, k, w, x) {
      var m: nat :| CountedOf(data, table, at, k, m, w, x);
      if m > 0 {
        FilledNext(data, at, m - 1, w);
        SlotNext(table, m - 1, w);
        assert CountedOf(data, table + w, at + w, k + 1, m - 1, w, x);
      }
    }
    if table <= x < table + w {
      NoneBefore(data, at, w);
      assert CountedOf(data, table, at, k, 0, w, x);
    }
    if k < 4096 && Filled(data, at) && CountedFrom(data, table + w, at + w, k + 1, w, x) {
      var m: nat :| CountedOf(data, table + w, at + w, k + 1, m, w, x);
      FilledNext(data, at, m, w);
      SlotNext(table, m, w);
      assert CountedOf(data, table, at, k, m + 1, w, x);
    }
  }

  /** The size of a table is that of its slots up to the first zero one. */
  lemma {:induction false} WalkCounts(h: Header, data: bytes, table: nat, at: nat, k: nat, w: nat, x: nat)
    requires k <= 4096
    ensures table <= x < table + TableWalk(h, data, at, k, w).1 <==> CountedFrom(data, table, at, k, w, x)
    ensures w <= TableWalk(h, data, at, k, w).1
    decreases 4096 - k
  {
    hide Cited, U32At, CountedFrom, Filled;
    CountedOpen(data, table, at, k, w, x);
    EntryFilled(data, at);
    if k < 4096 && Filled(data, at) {
      WalkCounts(h, data, table + w, at + w, k + 1, w, x);
    }
  }

  lemma {:induction false} TableSpansIff(h: Header, data: bytes, table: nat, w: nat, x: nat)
    ensures InSpans(TableSpans(h, data, table, w), x) <==> TableByte(h, data, table, w, x)
  {
    hide OffsetIn, InSpans, TableWalk, FilledBefore, NamedByte, SlotAt;
    InNone(x);
    if table != 0 && RvaToOffset(h, table).Some? {
      var t0 := RvaToOffset(h, table).value;
      var r := TableWalk(h, data, t0, 0, w);
      WalkNames(h, data, t0, 0, w, x);
      WalkCounts(h, data, table, t0, 0, w, x);
      InSpansConcat(r.0, [Span(table, r.1)], x);
      InOne(table, r.1, x);
      SlotsAndNames(h, data, table, t0, w, x);
    }
  }

  lemma {:induction false} SlotsAndNames(h: Header, data: bytes, table: nat, t0: nat, w: nat, x: nat)
    ensures (exists m: nat :: SlotByte(h, data, table, t0, m, w, x))
       <==> NamesFrom(h, data, t0, 0, w, x) || CountedFrom(data, table, t0, 0, w, x)
  {
    hide SlotAt, FilledBefore, NamedByte;
    if m: nat :| SlotByte(h, data, table, t0, m, w, x) {
      assert NameOf(h, data, t0, 0, m, w, x) || CountedOf(data, table, t0, 0, m, w, x);
    }
    if NamesFrom(h, data, t0, 0, w, x) {
      var m: nat :| NameOf(h, data, t0, 0, m, w, x);
      assert SlotByte(h, data, table, t0, m, w, x);
    }
    if CountedFrom(data, table, t0, 0, w, x) {
      var m: nat :| CountedOf(data, table, t0, 0, m, w, x);
      assert SlotByte(h, data, table, t0, m, w, x);
    }
  }

  // ---- All descriptors -------------------------------------------------------------------------------------

  lemma {:induction false} DescSpanIff(h: Header, data: bytes, k: nat, w: nat, x: nat)
    requires CitesName(h, data, k)
    ensures var cursor := h.importRva + 20 * k;
      InSpans(DescSpan(h, data, cursor, RvaToOffset(h, cursor).value, w), x) <==> DescriptorByte(h, data, k, w, x)
  {
    hide OffsetIn, InSpans, StringByte, TableByte, StringSpan, TableSpans, Get;
    var cursor := h.importRva + 20 * k;
    var off := RvaToOffset(h, cursor).value;
    SmallConstants();
    var p, q, r, s := [Span(cursor, 20)], StringSpan(h, data, U32At(data, off + 12), 0),
        TableSpans(h, data, U32At(data, off), w), TableSpans(h, data, U32At(data, off + 16), w);
    InSpansConcat(p + q + r, s, x);
    InSpansConcat(p + q, r, x);
    InSpansConcat(p, q, x);
    InOne(cursor, 20, x);
    StringSpanIff(h, data, U32At(data, off + 12), 0, x);
    TableSpansIff(h, data, U32At(data, off), w, x);
    TableSpansIff(h, data, U32At(data, off + 16), w, x);
    NoTableByte(h, data, w, x);
  }

  lemma {:induction false} NoTableByte(h: Header, data: bytes, w: nat, x: nat)
    ensures !TableByte(h, data, 0, w, x)
  {
  }

  /** The bytes found from descriptor g on: its own, and if it cites a name those found from the next one on. */
  lemma {:induction false} FromOpen(h: Header, data: bytes, g: nat, w: nat, x: nat)
    ensures ByteFrom(h, data, g, w, x)
       <==>
       && g < 512 && RvaToOffset(h, h.importRva + 20 * g).Some?
       && (DescriptorByte(h, data, g, w, x) || (CitesName(h, data, g) && ByteFrom(h, data, g + 1, w, x)))
  {
    hide DescriptorByte, CitesName, OffsetIn, RvaToOffset;
    if ByteFrom(h, data, g, w, x) {
      var k: nat :| Visited(h, data, g, k) && DescriptorByte(h, data, k, w, x);
      if k > g {
        assert CitesName(h, data, g);
        NameMapped(h, data, g);
        assert Visited(h, data, g + 1, k);
      }
    }
    if g < 512 && RvaToOffset(h, h.importRva + 20 * g).Some? {
      if DescriptorByte(h, data, g, w, x) {
        assert Visited(h, data, g, g);
      } else if CitesName(h, data, g) && ByteFrom(h, data, g + 1, w, x) {
        var k: nat :| Visited(h, data, g + 1, k) && DescriptorByte(h, data, k, w, x);
        assert Visited(h, data, g, k);
      }
    }
  }

  lemma {:induction false} NameMapped(h: Header, data: bytes, k: nat)
    requires CitesName(h, data, k)
    ensures RvaToOffset(h, h.importRva + 20 * k).Some?
  {
    hide OffsetIn, Filled;
  }

  lemma {:induction false} NamelessByte(h: Header, data: bytes, k: nat, w: nat, x: nat)
    requires !CitesName(h, data, k)
    ensures DescriptorByte(h, data, k, w, x) <==> h.importRva + 20 * k <= x < h.importRva + 20 * k + 20
  {
    hide OffsetIn, Filled;
  }

  lemma {:induction false} CitesIff(h: Header, data: bytes, k: nat)
    requires RvaToOffset(h, h.importRva + 20 * k).Some?
    ensures CitesName(h, data, k) <==> U32At(data, RvaToOffset(h, h.importRva + 20 * k).value + 12) != 0
  {
    hide OffsetIn, Get;
  }

  lemma {:induction false} DescSpansIff(h: Header, data: bytes, g: nat, w: nat, x: nat)
    ensures InSpans(DescSpans(h, data, h.importRva + 20 * g, g, w), x) <==> ByteFrom(h, data, g, w, x)
    decreases 512 - g
  {
    hide OffsetIn, RvaToOffset, InSpans, DescSpan, U32At, CitesName, ByteFrom, DescriptorByte;
    var cursor := h.importRva + 20 * g;
    SmallConstants();
    FromOpen(h, data, g, w, x);
    InNone(x);
    if g < 512 && RvaToOffset(h, cursor).Some? {
      var off := RvaToOffset(h, cursor).value;
      CitesIff(h, data, g);
      if CitesName(h, data, g) {
        DescSpanIff(h, data, g, w, x);
        DescSpansIff(h, data, g + 1, w, x);
        InSpansConcat(DescSpan(h, data, cursor, off, w), DescSpans(h, data, cursor + 20, g + 1, w), x);
      } else {
        NamelessByte(h, data, g, w, x);
        InOne(cursor, 20, x);
      }
    }
  }

  /**
   * An RVA is protected exactly if it is a byte of the import metadata: of a descriptor the walk comes to,
   * of a cited string up to its first NUL, hint included, or of a thunk table up to its first zero slot.
   */
  lemma {:induction false} SpansAre(h: Header, data: bytes, w: nat, x: nat)
    ensures InSpans(Spans(h, data, w), x) <==> ImportByte(h, data, w, x)
  {
    hide InSpans, DescSpans, ByteFrom;
    InNone(x);
    DescSpansIff(h, data, 0, w, x);
  }
}
