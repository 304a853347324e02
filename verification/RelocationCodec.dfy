/** What the walker makes of a table the builder printed. */
module RelocationCodec {
  import opened Words
  import opened Relocation
  import opened RelocationWalk

  /** The slots entries name; padding names none. */
  function PatchesOf(es: seq<Entry>): seq<Patch>
  {
    if es == [] then []
    else (if es[0].typ == ABSOLUTE then [] else [Patch(es[0].rva, Width(es[0].typ))]) + PatchesOf(es[1..])
  }

  ghost predicate KnownTypes(es: seq<Entry>)
  {
    forall k :: 0 <= k < |es| ==> es[k].typ == DIR64 || es[k].typ == HIGHLOW || es[k].typ == ABSOLUTE
  }

  ghost predicate OnOnePage(es: seq<Entry>, page: u32)
  {
    forall k :: 0 <= k < |es| ==> PageOf(es[k].rva) == page
  }

  lemma {:induction false} WordRoundTrip(e: Entry, page: u32)
    requires PageOf(e.rva) == page && e.typ < 16
    ensures Word(e, page) < TWO16
    ensures Word(e, page) / 0x1000 == e.typ && page + Word(e, page) % 0x1000 == e.rva
  {
  }

  lemma {:induction false} EntriesReadBack(buf: bytes, at: nat, es: seq<Entry>, end: nat, page: u32, delta: int,
      lo: nat, hi: nat)
    requires OnOnePage(es, page) && KnownTypes(es)
    requires lo <= at && at + 2 * |es| <= end <= hi <= |buf|
    requires At(buf, at, EntryBytes(es, page))
    requires AllInside(PatchesOf(es), |buf|) && AllApart(PatchesOf(es), lo, hi)
    ensures var r := Entries(buf, at, |es|, end, page, delta);
            r.trace == PatchesOf(es) && r.skipped == 0 && Agree(buf, r.buf, lo, hi)
    decreases |es|
  {
    if es != [] {
      var e := es[0];
      AtSplit(buf, at, Le(Word(e, page), 2), EntryBytes(es[1..], page));
      WordRoundTrip(e, page);
      RangeValues();
      GetAt(buf, at, Word(e, page), 2);
      EntryBytesLength(es[1..], page);
      StepReadBack(buf, page, es, delta, lo, hi);
      var s := Step(buf, page, Word(e, page), delta);
      AtFrame(buf, s.buf, at + 2, EntryBytes(es[1..], page));
      EntriesReadBack(s.buf, at + 2, es[1..], end, page, delta, lo, hi);
    }
  }

  /** The walker's step on a printed entry. */
  lemma {:induction false} StepReadBack(buf: bytes, page: u32, es: seq<Entry>, delta: int, lo: nat, hi: nat)
    requires es != [] && OnOnePage(es, page) && KnownTypes(es)
    requires AllInside(PatchesOf(es), |buf|) && AllApart(PatchesOf(es), lo, hi)
    ensures AllInside(PatchesOf(es[1..]), |buf|) && AllApart(PatchesOf(es[1..]), lo, hi)
    ensures var s := Step(buf, page, Word(es[0], page), delta);
            s.trace + PatchesOf(es[1..]) == PatchesOf(es) && s.skipped == 0 && Agree(buf, s.buf, lo, hi)
  {
    var e, rest := es[0], PatchesOf(es[1..]);
    WordRoundTrip(e, page);
    if e.typ == ABSOLUTE {
      assert PatchesOf(es) == rest;
    } else {
      assert PatchesOf(es) == [SlotOf(e)] + rest;
      SplitConditions([SlotOf(e)], rest, |buf|, lo, hi);
      assert Inside([SlotOf(e)][0], |buf|) && Apart([SlotOf(e)][0], lo, hi);
    }
  }

  lemma {:induction false} SplitConditions(ps: seq<Patch>, qs: seq<Patch>, n: nat, lo: nat, hi: nat)
    requires AllInside(ps + qs, n) && AllApart(ps + qs, lo, hi)
    ensures AllInside(ps, n) && AllApart(ps, lo, hi)
    ensures AllInside(qs, n) && AllApart(qs, lo, hi)
  {
    forall k | 0 <= k < |ps| ensures Inside(ps[k], n) && Apart(ps[k], lo, hi) {
      assert ps[k] == (ps + qs)[k];
    }
    forall k | 0 <= k < |qs| ensures Inside(qs[k], n) && Apart(qs[k], lo, hi) {
      assert qs[k] == (ps + qs)[|ps| + k];
    }
  }

  lemma {:induction false} SplitTypes(a: seq<Entry>, b: seq<Entry>)
    requires KnownTypes(a + b)
    ensures KnownTypes(a) && KnownTypes(b)
  {
    assert forall k :: 0 <= k < |a| ==> a[k] == (a + b)[k];
    assert forall k :: 0 <= k < |b| ==> b[k] == (a + b)[|a| + k];
  }

  lemma {:induction false} PatchesConcat(a: seq<Entry>, b: seq<Entry>)
    ensures PatchesOf(a + b) == PatchesOf(a) + PatchesOf(b)
  {
    if a == [] {
      assert a + b == b;
    } else {
      assert (a + b)[1..] == a[1..] + b;
      PatchesConcat(a[1..], b);
    }
  }

  lemma {:induction false} PaddingNamesNothing(b: Block)
    requires BlockOk(b)
    ensures PatchesOf(Padded(b)) == PatchesOf(b.entries)
    ensures OnOnePage(Padded(b), b.page)
    ensures KnownTypes(b.entries) ==> KnownTypes(Padded(b))
  {
    var pad := [Entry(b.page, ABSOLUTE)];
    PatchesConcat(b.entries, pad);
    assert PatchesOf(pad) == PatchesOf(pad[1..]);
  }

  lemma {:induction false} HeaderReadBack(buf: bytes, off: nat, b: Block)
    requires BlockOk(b) && BlockSize(|b.entries|) < TWO32
    requires At(buf, off, BlockBytes(b))
    ensures off + 8 <= |buf| && Get(buf, off, 4) == b.page && Get(buf, off + 4, 4) == BlockSize(|b.entries|)
    ensures At(buf, off + 8, EntryBytes(Padded(b), b.page))
  {
    var n := BlockSize(|b.entries|);
    ModUnique(n, TWO32, 0, n);
    RangeValues();
    AtSplit(buf, off, Le(b.page, 4) + Le(n, 4), EntryBytes(Padded(b), b.page));
    AtSplit(buf, off, Le(b.page, 4), Le(n, 4));
    GetAt(buf, off, b.page, 4);
    GetAt(buf, off + 4, n, 4);
  }

  /** One printed block: the walker steps over exactly its bytes and names exactly its entries. */
  lemma {:induction false} BlockReadBack(buf: bytes, off: nat, b: Block, delta: int, lo: nat, hi: nat)
    requires BlockOk(b) && KnownTypes(b.entries)
    requires At(buf, off, BlockBytes(b)) && BlockSize(|b.entries|) < TWO32
    requires lo <= off && off + |BlockBytes(b)| <= hi <= |buf|
    requires AllInside(PatchesOf(b.entries), |buf|) && AllApart(PatchesOf(b.entries), lo, hi)
    ensures HasBlock(buf, off, hi) && Get(buf, off + 4, 4) == |BlockBytes(b)|
    ensures var r := OneBlock(buf, off, hi, delta);
            r.trace == PatchesOf(b.entries) && r.skipped == 0 && Agree(buf, r.buf, lo, hi)
  {
    hide Step, Entries, EntryBytes;
    BlockLength(b);
    PaddingNamesNothing(b);
    HeaderReadBack(buf, off, b);
    EntriesReadBack(buf, off + 8, Padded(b), hi, b.page, delta, lo, hi);
  }

  lemma {:induction false} NoPatches()
    ensures PatchesOf([]) == []
  {
  }

  lemma {:induction false} TableReadBack(buf: bytes, off: nat, bs: seq<Block>, delta: int, lo: nat, hi: nat)
    requires Ordered(bs) && At(buf, off, TableBytes(bs)) && |TableBytes(bs)| < TWO32
    requires lo <= off && off + |TableBytes(bs)| == hi
    requires KnownTypes(Flatten(bs))
    requires AllInside(PatchesOf(Flatten(bs)), |buf|) && AllApart(PatchesOf(Flatten(bs)), lo, hi)
    ensures Blocks(buf, off, hi, delta).trace == PatchesOf(Flatten(bs))
    ensures Blocks(buf, off, hi, delta).skipped == 0
    decreases |bs|
  {
    hide OneBlock, BlockBytes, Get, PageOf, PatchesOf, AllInside, AllApart, KnownTypes, BlockSize;
    if bs == [] {
      NoPatches();
    } else {
      var b, rest := bs[0], bs[1..];
      PatchesConcat(b.entries, Flatten(rest));
      SplitTypes(b.entries, Flatten(rest));
      SplitConditions(PatchesOf(b.entries), PatchesOf(Flatten(rest)), |buf|, lo, hi);
      AtSplit(buf, off, BlockBytes(b), TableBytes(rest));
      BlockLength(b);
      BlockReadBack(buf, off, b, delta, lo, hi);
      var s, n := OneBlock(buf, off, hi, delta), |BlockBytes(b)|;
      AtFrame(buf, s.buf, off + n, TableBytes(rest));
      TableReadBack(s.buf, off + n, rest, delta, lo, hi);
    }
  }

  // ---- Rewriting pairwise disjoint slots --------------------------------------------

  ghost predicate PairwiseDisjoint(ps: seq<Patch>)
  {
    forall i, j :: 0 <= i < j < |ps| ==> Disjoint(ps[i], ps[j])
  }

  lemma {:induction false} DisjointSlotsOnce(buf: bytes, ps: seq<Patch>, delta: int, i: nat)
    requires AllInside(ps, |buf|) && PairwiseDisjoint(ps) && i < |ps|
    ensures Get(RewriteAll(buf, ps, delta), ps[i].at, ps[i].width)
         == Subtract(Get(buf, ps[i].at, ps[i].width), ps[i].width, delta)
    decreases |ps|
  {
    hide Rewrite, Subtract, Get;
    var p, rest := ps[0], ps[1..];
    var next := Rewrite(buf, p, delta);
    RewriteAt(buf, p, delta);
    if i == 0 {
      forall k | p.at <= k < p.at + p.width ensures RewriteAll(next, rest, delta)[k] == next[k] {
        RewriteAllFrame(next, rest, delta, k);
      }
      GetFrame(RewriteAll(next, rest, delta), next, p.at, p.width);
    } else {
      DisjointSlotsOnce(next, rest, delta, i - 1);
      GetFrame(next, buf, ps[i].at, ps[i].width);
    }
  }

  /** Disjointness does not depend on the order the slots come in. */
  lemma {:induction false} DisjointPermuted(ps: seq<Patch>, qs: seq<Patch>, n: nat)
    requires AllInside(ps, n) && PairwiseDisjoint(ps)
    requires multiset(ps) == multiset(qs)
    ensures AllInside(qs, n) && PairwiseDisjoint(qs)
  {
    forall i | 0 <= i < |qs| ensures qs[i] in ps {
      assert qs[i] in multiset(qs);
    }
    forall i, j | 0 <= i < j < |qs| ensures Disjoint(qs[i], qs[j]) {
      var a :| 0 <= a < |ps| && ps[a] == qs[i];
      var b :| 0 <= b < |ps| && ps[b] == qs[j];
      if a == b {
        TwiceIn(qs, i, j);
        OnceIn(ps, a);
      }
    }
  }

  lemma {:induction false} TwiceIn<T>(s: seq<T>, i: nat, j: nat)
    requires i < j < |s| && s[i] == s[j]
    ensures multiset(s)[s[i]] >= 2
  {
    assert s == s[..i] + [s[i]] + s[i + 1..j] + [s[j]] + s[j + 1..];
  }

  lemma {:induction false} OnceIn<T>(s: seq<T>, a: nat)
    requires a < |s| && forall b :: 0 <= b < |s| && b != a ==> s[b] != s[a]
    ensures multiset(s)[s[a]] == 1
  {
    assert s == s[..a] + [s[a]] + s[a + 1..];
    assert s[a] !in multiset(s[..a]) && s[a] !in multiset(s[a + 1..]);
  }

  lemma {:induction false} PatchesPermuted(es: seq<Entry>, fs: seq<Entry>)
    requires multiset(es) == multiset(fs)
    ensures multiset(PatchesOf(es)) == multiset(PatchesOf(fs))
    decreases |es|
  {
    if es == [] {
      assert |multiset(fs)| == 0;
    } else {
      assert es[0] in multiset(fs);
      var i :| 0 <= i < |fs| && fs[i] == es[0];
      var rest := fs[..i] + fs[i + 1..];
      RemoveFromBoth(es, fs, i);
      PatchesPermuted(es[1..], rest);
      PatchesRemove(fs, i);
      PatchesConcat([es[0]], es[1..]);
      assert es == [es[0]] + es[1..];
    }
  }

  lemma {:induction false} RemoveFromBoth<T>(a: seq<T>, b: seq<T>, i: nat)
    requires a != [] && i < |b| && b[i] == a[0] && multiset(a) == multiset(b)
    ensures multiset(a[1..]) == multiset(b[..i] + b[i + 1..])
  {
    MultisetRemove(b, i);
    assert multiset(a[1..]) + multiset{a[0]} == multiset(a) by {
      assert a == [a[0]] + a[1..];
    }
    forall e ensures multiset(a[1..])[e] == multiset(b[..i] + b[i + 1..])[e] {
      assert multiset(a)[e] == multiset(b)[e];
    }
  }

  lemma {:induction false} PatchesRemove(fs: seq<Entry>, i: nat)
    requires i < |fs|
    ensures multiset(PatchesOf(fs)) == multiset(PatchesOf(fs[..i] + fs[i + 1..])) + multiset(PatchesOf([fs[i]]))
  {
    var a, b := fs[..i], fs[i + 1..];
    PatchesConcat(a, b);
    PatchesConcat(a, [fs[i]] + b);
    PatchesConcat([fs[i]], b);
    assert a + ([fs[i]] + b) == fs;
  }

  lemma {:induction false} PatchesCount(es: seq<Entry>)
    requires forall k :: 0 <= k < |es| ==> es[k].typ != ABSOLUTE
    ensures |PatchesOf(es)| == |es|
    ensures forall k :: 0 <= k < |es| ==> PatchesOf(es)[k] == Patch(es[k].rva, Width(es[k].typ))
  {
    if es != [] {
      PatchesCount(es[1..]);
    }
  }

  ghost predicate PointerTypes(es: seq<Entry>)
  {
    forall k :: 0 <= k < |es| ==> es[k].typ == DIR64 || es[k].typ == HIGHLOW
  }

  function SlotOf(e: Entry): Patch { Patch(e.rva, Width(e.typ)) }

  /** The table of es stands at rva, its slots are in range, pairwise disjoint and off the table. */
  ghost predicate Codable(buf: bytes, rva: nat, es: seq<Entry>)
  {
    && PointerTypes(es)
    && Ordered(InsertAll([], es)) && |TableBytes(InsertAll([], es))| < TWO32
    && At(buf, rva, TableBytes(InsertAll([], es)))
    && (forall k :: 0 <= k < |es| ==> Inside(SlotOf(es[k]), |buf|))
    && (forall k :: 0 <= k < |es| ==> Apart(SlotOf(es[k]), rva, rva + |TableBytes(InsertAll([], es))|))
    && (forall i, j :: 0 <= i < j < |es| ==> Disjoint(SlotOf(es[i]), SlotOf(es[j])))
  }

  /** Every slot of es reads as if rewritten once. */
  ghost predicate EachOnce(buf: bytes, r: bytes, es: seq<Entry>, delta: int)
  {
    && |r| == |buf| && (forall k :: 0 <= k < |es| ==> Inside(SlotOf(es[k]), |buf|))
    && forall k | 0 <= k < |es| ::
         Get(r, es[k].rva, Width(es[k].typ))
         == Subtract(Get(buf, es[k].rva, Width(es[k].typ)), Width(es[k].typ), delta)
  }

  /** No byte outside the patches differs. */
  ghost predicate ChangesOnly(buf: bytes, r: bytes, ps: seq<Patch>)
  {
    |r| == |buf| && forall k :: 0 <= k < |buf| && r[k] != buf[k] ==> Touches(ps, k)
  }

  /**
   * The codec: walking the printed table of any added entries patches each of their slots once,
   * refuses none, and leaves every other byte alone.
   */
  lemma {:induction false} TableCodec(buf: bytes, rva: nat, es: seq<Entry>, delta: int)
    requires delta != 0 && Codable(buf, rva, es)
    ensures var w := Apply(buf, rva, |TableBytes(InsertAll([], es))|, delta);
      && |w.trace| == |es| && w.skipped == 0 && multiset(w.trace) == multiset(PatchesOf(es))
      && EachOnce(buf, w.buf, es, delta) && ChangesOnly(buf, w.buf, PatchesOf(es))
  {
    hide *;
    CodableParts(buf, rva, es);
    var bs := InsertAll([], es);
    var ps, n := PatchesOf(Flatten(bs)), |TableBytes(bs)|;
    PrintedPatches(buf, es);
    PatchesApart(es, rva, rva + n);
    PrintedWalk(buf, rva, bs, delta);
    PermutedRewrite(buf, es, ps, delta);
    SameChanges(buf, Apply(buf, rva, n, delta).buf, PatchesOf(es), ps);
  }

  lemma {:induction false} CodableParts(buf: bytes, rva: nat, es: seq<Entry>)
    requires Codable(buf, rva, es)
    ensures PointerTypes(es) && Ordered(InsertAll([], es))
    ensures forall i :: 0 <= i < |InsertAll([], es)| ==> BlockOk(InsertAll([], es)[i])
    ensures |TableBytes(InsertAll([], es))| < TWO32
    ensures At(buf, rva, TableBytes(InsertAll([], es)))
    ensures forall k :: 0 <= k < |es| ==> Inside(SlotOf(es[k]), |buf|)
    ensures forall k :: 0 <= k < |es| ==> Apart(SlotOf(es[k]), rva, rva + |TableBytes(InsertAll([], es))|)
    ensures forall i, j :: 0 <= i < j < |es| ==> Disjoint(SlotOf(es[i]), SlotOf(es[j]))
  {
    hide InsertAll, TableBytes, At, Inside, Apart, Disjoint, SlotOf, PointerTypes, BlockOk;
  }

  lemma {:induction false} SameChanges(buf: bytes, r: bytes, qs: seq<Patch>, ps: seq<Patch>)
    requires ChangesOnly(buf, r, ps) && multiset(ps) == multiset(qs)
    ensures ChangesOnly(buf, r, qs)
  {
    SameMembers(qs, ps);
    forall k | 0 <= k < |buf| && Touches(ps, k) ensures Touches(qs, k) {
      var i :| 0 <= i < |ps| && ps[i].at <= k < ps[i].at + ps[i].width;
      var j :| 0 <= j < |qs| && qs[j] == ps[i];
    }
  }

  lemma {:induction false} PrintedWalk(buf: bytes, rva: nat, bs: seq<Block>, delta: int)
    requires delta != 0
    requires Ordered(bs) && At(buf, rva, TableBytes(bs)) && |TableBytes(bs)| < TWO32
    requires KnownTypes(Flatten(bs)) && AllInside(PatchesOf(Flatten(bs)), |buf|)
    requires AllApart(PatchesOf(Flatten(bs)), rva, rva + |TableBytes(bs)|)
    ensures var w := Apply(buf, rva, |TableBytes(bs)|, delta); var ps := PatchesOf(Flatten(bs));
      && w.trace == ps && w.skipped == 0 && w.buf == RewriteAll(buf, ps, delta) && ChangesOnly(buf, w.buf, ps)
  {
    hide OneBlock, BlockBytes;
    var n := |TableBytes(bs)|;
    assert Apply(buf, rva, n, delta).trace == PatchesOf(Flatten(bs)) && Apply(buf, rva, n, delta).skipped == 0 by {
      TableReadBack(buf, rva, bs, delta, rva, rva + n);
    }
    WalkIsConfined(buf, rva, n, delta);
  }

  lemma {:induction false} PatchesApart(es: seq<Entry>, lo: nat, hi: nat)
    requires PointerTypes(es)
    requires forall k :: 0 <= k < |es| ==> Apart(SlotOf(es[k]), lo, hi)
    ensures AllApart(PatchesOf(Flatten(InsertAll([], es))), lo, hi)
  {
    hide Flatten, InsertAll, PatchesOf, Apart;
    var ps := PatchesOf(Flatten(InsertAll([], es)));
    Printed(es);
    PatchesCount(es);
    PatchesPermuted(es, Flatten(InsertAll([], es)));
    SameMembers(PatchesOf(es), ps);
    forall k | 0 <= k < |ps| ensures Apart(ps[k], lo, hi) {
      var i :| 0 <= i < |es| && PatchesOf(es)[i] == ps[k];
      assert Apart(SlotOf(es[i]), lo, hi);
    }
  }

  /** Rewriting the slots of es in another order still rewrites each of them once. */
  lemma {:induction false} PermutedRewrite(buf: bytes, es: seq<Entry>, ps: seq<Patch>, delta: int)
    requires AllInside(ps, |buf|) && PairwiseDisjoint(ps) && PointerTypes(es)
    requires multiset(ps) == multiset(PatchesOf(es))
    ensures EachOnce(buf, RewriteAll(buf, ps, delta), es, delta)
  {
    hide RewriteAll, PatchesOf, Subtract, Get, PairwiseDisjoint;
    var qs := PatchesOf(es);
    PatchesCount(es);
    SameMembers(qs, ps);
    forall k | 0 <= k < |es|
      ensures Inside(SlotOf(es[k]), |buf|)
      ensures Get(RewriteAll(buf, ps, delta), es[k].rva, Width(es[k].typ))
           == Subtract(Get(buf, es[k].rva, Width(es[k].typ)), Width(es[k].typ), delta)
    {
      assert qs[k] == SlotOf(es[k]);
      var i :| 0 <= i < |ps| && ps[i] == qs[k];
      DisjointSlotsOnce(buf, ps, delta, i);
    }
  }

  lemma {:induction false} PointersKnown(es: seq<Entry>, fs: seq<Entry>)
    requires PointerTypes(es) && multiset(es) == multiset(fs)
    ensures KnownTypes(fs)
  {
    SameMembers(es, fs);
    forall k | 0 <= k < |fs| ensures fs[k].typ == DIR64 || fs[k].typ == HIGHLOW {
      var i :| 0 <= i < |es| && es[i] == fs[k];
    }
  }

  lemma {:induction false} SlotsFit(es: seq<Entry>, n: nat)
    requires PointerTypes(es) && forall k :: 0 <= k < |es| ==> Inside(SlotOf(es[k]), n)
    requires forall i, j :: 0 <= i < j < |es| ==> Disjoint(SlotOf(es[i]), SlotOf(es[j]))
    ensures AllInside(PatchesOf(es), n) && PairwiseDisjoint(PatchesOf(es)) && |PatchesOf(es)| == |es|
  {
    hide PatchesOf, Inside, Disjoint;
    PatchesCount(es);
  }

  lemma {:induction false} SameSize<T>(a: seq<T>, b: seq<T>)
    requires multiset(a) == multiset(b)
    ensures |a| == |b|
  {
    assert |multiset(a)| == |a| && |multiset(b)| == |b|;
  }

  /** The printed order is a permutation of the order of addition. */
  lemma {:induction false} PrintedPatches(buf: bytes, es: seq<Entry>)
    requires PointerTypes(es)
    requires forall k :: 0 <= k < |es| ==> Inside(SlotOf(es[k]), |buf|)
    requires forall i, j :: 0 <= i < j < |es| ==> Disjoint(SlotOf(es[i]), SlotOf(es[j]))
    ensures var fs := Flatten(InsertAll([], es)); var ps := PatchesOf(fs);
      && KnownTypes(fs) && AllInside(ps, |buf|) && PairwiseDisjoint(ps)
      && multiset(ps) == multiset(PatchesOf(es)) && |ps| == |es|
  {
    hide *;
    var fs := Flatten(InsertAll([], es));
    Printed(es);
    PointersKnown(es, fs);
    SlotsFit(es, |buf|);
    PatchesPermuted(es, fs);
    DisjointPermuted(PatchesOf(es), PatchesOf(fs), |buf|);
    SameSize(PatchesOf(es), PatchesOf(fs));
  }

  /** The table prints what was added, in some order. */
  lemma {:induction false} Printed(es: seq<Entry>)
    ensures Ordered(InsertAll([], es)) && multiset(Flatten(InsertAll([], es))) == multiset(es)
  {
    hide InsertAll, Insert, BlockOk;
    InsertAllContents([], es);
    assert multiset(Flatten([])) == multiset{};
  }

  lemma {:induction false} SameMembers<T>(a: seq<T>, b: seq<T>)
    requires multiset(a) == multiset(b)
    ensures forall k :: 0 <= k < |a| ==> a[k] in b
    ensures forall k :: 0 <= k < |b| ==> b[k] in a
  {
    forall k | 0 <= k < |a| ensures a[k] in b {
      assert a[k] in multiset(a);
    }
    forall k | 0 <= k < |b| ensures b[k] in a {
      assert b[k] in multiset(b);
    }
  }
}
