/** The base-relocation table printer (crates/pe/src/relocation.rs). */
module Relocation {
  import opened Words

  const ABSOLUTE: u16 := 0
  const HIGHLOW: u16 := 3
  const DIR64: u16 := 10

  datatype Entry = Entry(rva: u32, typ: u16)

  /** One page of the ordered map from page RVA to its entries. */
  datatype Block = Block(page: u32, entries: seq<Entry>)

  function PageOf(rva: u32): u32 { rva - rva % 0x1000 }

  /** The map's keys ascend, every block is non-empty and holds only entries of its own page. */
  ghost predicate Ordered(bs: seq<Block>)
  {
    && (forall i, j :: 0 <= i < j < |bs| ==> bs[i].page < bs[j].page)
    && (forall i :: 0 <= i < |bs| ==> BlockOk(bs[i]))
  }

  ghost predicate BlockOk(b: Block)
  {
    b.entries != [] && forall k :: 0 <= k < |b.entries| ==> PageOf(b.entries[k].rva) == b.page
  }

  function Insert(bs: seq<Block>, e: Entry): seq<Block>
  {
    var p := PageOf(e.rva);
    if bs == [] || p < bs[0].page then [Block(p, [e])] + bs
    else if p == bs[0].page then [Block(p, bs[0].entries + [e])] + bs[1..]
    else [bs[0]] + Insert(bs[1..], e)
  }

  function InsertAll(bs: seq<Block>, es: seq<Entry>): seq<Block>
    decreases |es|
  {
    if es == [] then bs else InsertAll(Insert(bs, es[0]), es[1..])
  }

  /** All entries of the map, in the order the table prints them. */
  function Flatten(bs: seq<Block>): seq<Entry>
  {
    if bs == [] then [] else bs[0].entries + Flatten(bs[1..])
  }

  function Word(e: Entry, page: u32): nat
    requires page <= e.rva
  {
    (e.typ * 0x1000) % TWO16 + (e.rva - page) % 0x1000
  }

  function EntryBytes(es: seq<Entry>, page: u32): bytes
    requires forall k :: 0 <= k < |es| ==> page <= es[k].rva
  {
    if es == [] then [] else Le(Word(es[0], page), 2) + EntryBytes(es[1..], page)
  }

  /** An odd block is padded with one no-op entry. */
  function Padded(b: Block): seq<Entry>
  {
    if |b.entries| % 2 != 0 then b.entries + [Entry(b.page, ABSOLUTE)] else b.entries
  }

  function BlockSize(n: nat): nat { 8 + 2 * (n + n % 2) }

  function BlockBytes(b: Block): bytes
    requires BlockOk(b)
  {
    Le(b.page, 4) + Le(BlockSize(|b.entries|) % TWO32, 4) + EntryBytes(Padded(b), b.page)
  }

  function TableBytes(bs: seq<Block>): bytes
    requires forall i :: 0 <= i < |bs| ==> BlockOk(bs[i])
  {
    if bs == [] then [] else BlockBytes(bs[0]) + TableBytes(bs[1..])
  }

  class RelocationTableBuilder {
    var blocks: seq<Block>
    const imageBase: u64
    const imageSize: u32

    ghost predicate Valid()
      reads this
    {
      Ordered(blocks)
    }

    constructor (imageBase: u64, imageSize: u32)
      ensures Valid() && blocks == []
      ensures this.imageBase == imageBase && this.imageSize == imageSize
    {
      this.imageBase, this.imageSize := imageBase, imageSize;
      blocks := [];
    }

    method AddRelocation(rva: u32, typ: u16)
      requires Valid()
      modifies this
      ensures Valid()
      ensures blocks == Insert(old(blocks), Entry(rva, typ))
    {
      hide Insert;
      var page := rva - rva % 0x1000;
      var i := 0;
      while i < |blocks| && blocks[i].page < page
        invariant 0 <= i <= |blocks|
        invariant forall k :: 0 <= k < i ==> blocks[k].page < page
      {
        i := i + 1;
      }
      InsertOrdered(blocks, Entry(rva, typ));
      InsertAt(blocks, i, Entry(rva, typ));
      if i < |blocks| && blocks[i].page == page {
        blocks := blocks[..i] + [Block(page, blocks[i].entries + [Entry(rva, typ)])] + blocks[i + 1..];
      } else {
        blocks := blocks[..i] + [Block(page, [Entry(rva, typ)])] + blocks[i..];
      }
    }

    /** Adds an entry for every pointer-sized slot of data that points into the image. */
    method ScanAndAddRelocations(data: bytes, sectionRva: u32, is64bit: bool)
      requires Valid()
      requires imageBase + imageSize < TWO64
      requires sectionRva + |data| < TWO32
      modifies this
      ensures Valid()
      ensures blocks == InsertAll(old(blocks), StrideHits(data, 0, PtrSize(is64bit), sectionRva, imageBase, imageSize))
    {
      hide Get, Insert, InsertAll, StrideHits;
      var ptrSize := PtrSize(is64bit);
      var offset := 0;
      while offset + ptrSize <= |data|
        invariant Valid()
        invariant InsertAll(blocks, StrideHits(data, offset, ptrSize, sectionRva, imageBase, imageSize))
               == InsertAll(old(blocks), StrideHits(data, 0, ptrSize, sectionRva, imageBase, imageSize))
        decreases |data| - offset
      {
        var addr := Get(data, offset, ptrSize);
        StrideOpen(data, offset, ptrSize, sectionRva, imageBase, imageSize);
        if imageBase <= addr < imageBase + imageSize {
          var e := Entry(sectionRva + offset, if is64bit then DIR64 else HIGHLOW);
          InsertAllCons(blocks, e, StrideHits(data, offset + ptrSize, ptrSize, sectionRva, imageBase, imageSize));
          AddRelocation(sectionRva + offset, if is64bit then DIR64 else HIGHLOW);
        }
        offset := offset + ptrSize;
      }
      StrideEnd(data, offset, ptrSize, sectionRva, imageBase, imageSize);
      InsertNothing(blocks);
    }

    method Count() returns (n: nat)
      requires Valid()
      ensures n == |Flatten(blocks)|
    {
      n := 0;
      var i := 0;
      while i < |blocks|
        invariant 0 <= i <= |blocks|
        invariant n + |Flatten(blocks[i..])| == |Flatten(blocks)|
      {
        assert blocks[i..][1..] == blocks[i + 1..];
        n := n + |blocks[i].entries|;
        i := i + 1;
      }
    }

    /** The closing padding loop never runs: the blocks already end on a 4-byte boundary. */
    method Build() returns (relocData: bytes)
      requires Valid()
      ensures relocData == TableBytes(blocks)
    {
      relocData := PrintBlocks(blocks);
      TableBytesAligned(blocks);
      relocData := PadTo4(relocData);
    }
  }

  method PrintBlocks(blocks: seq<Block>) returns (data: bytes)
    requires forall i :: 0 <= i < |blocks| ==> BlockOk(blocks[i])
    ensures data == TableBytes(blocks)
  {
    hide BlockBytes, BlockOk;
    data := [];
    for i := 0 to |blocks|
      invariant data + TableBytes(blocks[i..]) == TableBytes(blocks)
    {
      assert blocks[i..][1..] == blocks[i + 1..];
      var block := PrintBlock(blocks[i]);
      data := data + block;
    }
  }

  method PadTo4(data: bytes) returns (r: bytes)
    ensures |r| % 4 == 0 && data <= r
    ensures |data| % 4 == 0 ==> r == data
  {
    r := data;
    ghost var left := (4 - |data| % 4) % 4;
    while |r| % 4 != 0
      invariant data <= r
      invariant 0 <= left && (|r| + left) % 4 == 0
      invariant |data| % 4 == 0 ==> r == data
      decreases left
    {
      r := r + [0];
      left := left - 1;
    }
  }

  method PrintBlock(b: Block) returns (data: bytes)
    requires BlockOk(b)
    ensures data == BlockBytes(b)
  {
    var entries := b.entries;
    if |entries| % 2 != 0 {
      entries := entries + [Entry(b.page, 0)];
    }
    data := Le(b.page, 4) + Le((8 + |entries| * 2) % TWO32, 4);
    var printed := PrintEntries(entries, b.page);
    data := data + printed;
  }

  method PrintEntries(entries: seq<Entry>, page: u32) returns (data: bytes)
    requires forall k :: 0 <= k < |entries| ==> page <= entries[k].rva
    ensures data == EntryBytes(entries, page)
  {
    data := [];
    for k := 0 to |entries|
      invariant data + EntryBytes(entries[k..], page) == EntryBytes(entries, page)
    {
      assert entries[k..][1..] == entries[k + 1..];
      var word := (entries[k].typ * 0x1000) % TWO16 + (entries[k].rva - page) % 0x1000;
      assert word == Word(entries[k], page);
      hide Word, Le;
      data := data + Le(word, 2);
    }
  }

  /** Entries for the pointer-sized slots from offset on that point into [base, base + size). */
  function StrideHits(data: bytes, offset: nat, w: nat, sectionRva: u32, base: u64, size: u32): seq<Entry>
    requires w == 4 || w == 8
    requires sectionRva + |data| < TWO32
    decreases |data| - offset
  {
    if offset + w > |data| then []
    else
      (if base <= Get(data, offset, w) < base + size
       then [Entry(sectionRva + offset, if w == 8 then DIR64 else HIGHLOW)] else [])
      + StrideHits(data, offset + w, w, sectionRva, base, size)
  }

  lemma {:induction false} StrideOpen(data: bytes, offset: nat, w: nat, sectionRva: u32, base: u64, size: u32)
    requires w == 4 || w == 8
    requires sectionRva + |data| < TWO32 && offset + w <= |data|
    ensures var rest := StrideHits(data, offset + w, w, sectionRva, base, size);
      StrideHits(data, offset, w, sectionRva, base, size)
      == if base <= Get(data, offset, w) < base + size
         then [Entry(sectionRva + offset, if w == 8 then DIR64 else HIGHLOW)] + rest else rest
  {
    hide Get;
  }

  lemma {:induction false} StrideEnd(data: bytes, offset: nat, w: nat, sectionRva: u32, base: u64, size: u32)
    requires w == 4 || w == 8
    requires sectionRva + |data| < TWO32 && offset + w > |data|
    ensures StrideHits(data, offset, w, sectionRva, base, size) == []
  {
  }

  lemma {:induction false} InsertNothing(bs: seq<Block>)
    ensures InsertAll(bs, []) == bs
  {
  }

  // ---- The builder is an ordered map: contents, order, size --------------------

  lemma {:induction false} OrderedCons(b: Block, bs: seq<Block>)
    requires BlockOk(b) && Ordered(bs) && (bs != [] ==> b.page < bs[0].page)
    ensures Ordered([b] + bs)
  {
    hide BlockOk;
    assert forall i :: 0 < i < |bs| ==> bs[0].page < bs[i].page;
  }

  lemma {:induction false} OrderedTail(bs: seq<Block>)
    requires bs != [] && Ordered(bs)
    ensures BlockOk(bs[0]) && Ordered(bs[1..]) && (|bs| > 1 ==> bs[0].page < bs[1].page)
  {
    hide BlockOk;
  }

  lemma {:induction false} InsertOrdered(bs: seq<Block>, e: Entry)
    requires Ordered(bs)
    ensures Ordered(Insert(bs, e))
    ensures Insert(bs, e) != []
    ensures Insert(bs, e)[0].page == if bs == [] || PageOf(e.rva) < bs[0].page then PageOf(e.rva) else bs[0].page
  {
    hide Ordered, PageOf;
    var p := PageOf(e.rva);
    NewBlock(e);
    if bs == [] || p < bs[0].page {
      OrderedCons(Block(p, [e]), bs);
    } else {
      OrderedTail(bs);
      if p == bs[0].page {
        GrownBlock(bs[0], e);
        OrderedCons(Block(p, bs[0].entries + [e]), bs[1..]);
      } else {
        InsertOrdered(bs[1..], e);
        OrderedCons(bs[0], Insert(bs[1..], e));
      }
    }
  }

  lemma {:induction false} NewBlock(e: Entry)
    ensures BlockOk(Block(PageOf(e.rva), [e]))
  {
    hide PageOf;
  }

  lemma {:induction false} GrownBlock(b: Block, e: Entry)
    requires BlockOk(b) && b.page == PageOf(e.rva)
    ensures BlockOk(Block(b.page, b.entries + [e]))
  {
    hide PageOf;
  }

  lemma {:induction false} TailParts<T>(s: seq<T>, i: nat)
    requires 0 < i <= |s|
    ensures [s[0]] + s[1..][..i - 1] == s[..i] && s[1..][i - 1..] == s[i..]
    ensures i < |s| ==> s[1..][i - 1] == s[i] && s[1..][i..] == s[i + 1..]
  {
  }

  lemma {:induction false} PrependThree<T>(a: seq<T>, b: seq<T>, c: seq<T>, d: seq<T>)
    ensures a + (b + c + d) == (a + b) + c + d
  {
  }

  /** Where the entry goes: behind the pages below its own. */
  lemma {:induction false} InsertAt(bs: seq<Block>, i: nat, e: Entry)
    requires i <= |bs|
    requires forall k :: 0 <= k < i ==> bs[k].page < PageOf(e.rva)
    requires i < |bs| ==> PageOf(e.rva) <= bs[i].page
    ensures Insert(bs, e) ==
      if i < |bs| && bs[i].page == PageOf(e.rva)
      then bs[..i] + [Block(bs[i].page, bs[i].entries + [e])] + bs[i + 1..]
      else bs[..i] + [Block(PageOf(e.rva), [e])] + bs[i..]
  {
    hide Insert, PageOf;
    InsertOpen(bs, e);
    if i > 0 {
      InsertAt(bs[1..], i - 1, e);
      TailParts(bs, i);
      if i < |bs| && bs[i].page == PageOf(e.rva) {
        PrependThree([bs[0]], bs[1..][..i - 1], [Block(bs[i].page, bs[i].entries + [e])], bs[1..][i..]);
      } else {
        PrependThree([bs[0]], bs[1..][..i - 1], [Block(PageOf(e.rva), [e])], bs[1..][i - 1..]);
      }
    } else if bs != [] {
      assert bs[..0] == [] && bs[0..] == bs;
    }
  }

  lemma {:induction false} InsertOpen(bs: seq<Block>, e: Entry)
    ensures var p := PageOf(e.rva);
      Insert(bs, e)
      == if bs == [] || p < bs[0].page then [Block(p, [e])] + bs
         else if p == bs[0].page then [Block(p, bs[0].entries + [e])] + bs[1..]
         else [bs[0]] + Insert(bs[1..], e)
  {
  }

  lemma {:induction false} InsertAllCons(bs: seq<Block>, e: Entry, es: seq<Entry>)
    ensures InsertAll(bs, [e] + es) == InsertAll(Insert(bs, e), es)
  {
    assert ([e] + es)[1..] == es;
  }

  lemma {:induction false} InsertContents(bs: seq<Block>, e: Entry)
    ensures multiset(Flatten(Insert(bs, e))) == multiset(Flatten(bs)) + multiset{e}
  {
    var p := PageOf(e.rva);
    if bs == [] || p < bs[0].page {
      assert Insert(bs, e)[1..] == bs;
    } else if p == bs[0].page {
      assert Insert(bs, e)[1..] == bs[1..];
    } else {
      InsertContents(bs[1..], e);
      assert Insert(bs, e)[1..] == Insert(bs[1..], e);
    }
  }

  /** Whatever is added is what the map holds, each entry as often as it was added. */
  lemma {:induction false} InsertAllContents(bs: seq<Block>, es: seq<Entry>)
    requires Ordered(bs)
    ensures Ordered(InsertAll(bs, es))
    ensures multiset(Flatten(InsertAll(bs, es))) == multiset(Flatten(bs)) + multiset(es)
    decreases |es|
  {
    hide Ordered, Insert, Flatten;
    if es != [] {
      InsertOrdered(bs, es[0]);
      InsertContents(bs, es[0]);
      InsertAllContents(Insert(bs, es[0]), es[1..]);
      MultisetHead(es);
    }
  }

  lemma {:induction false} MultisetHead<T>(s: seq<T>)
    requires s != []
    ensures multiset(s) == multiset{s[0]} + multiset(s[1..])
  {
    assert s == [s[0]] + s[1..];
  }

  lemma {:induction false} EntryBytesLength(es: seq<Entry>, page: u32)
    requires forall k :: 0 <= k < |es| ==> page <= es[k].rva
    ensures |EntryBytes(es, page)| == 2 * |es|
  {
    if es != [] {
      EntryBytesLength(es[1..], page);
    }
  }

  lemma {:induction false} BlockSizeEven(n: nat)
    ensures BlockSize(n) % 4 == 0
  {
    if n % 2 == 0 {
      assert n == 2 * (n / 2);
    } else {
      assert n == 2 * (n / 2) + 1;
    }
  }

  lemma {:induction false} BlockLength(b: Block)
    requires BlockOk(b)
    ensures |BlockBytes(b)| == BlockSize(|b.entries|) == 8 + 2 * |Padded(b)|
  {
    EntryBytesLength(Padded(b), b.page);
  }

  /** The table's length, read off the number of entries on each page. */
  function TableLength(bs: seq<Block>): nat
  {
    if bs == [] then 0 else BlockSize(|bs[0].entries|) + TableLength(bs[1..])
  }

  lemma {:induction false} TableBytesLength(bs: seq<Block>)
    requires forall i :: 0 <= i < |bs| ==> BlockOk(bs[i])
    ensures |TableBytes(bs)| == TableLength(bs)
  {
    if bs != [] {
      BlockLength(bs[0]);
      TableBytesLength(bs[1..]);
    }
  }

  /** Every block is a whole number of 32-bit words, so the table is. */
  lemma {:induction false} TableAligned(bs: seq<Block>)
    ensures TableLength(bs) % 4 == 0
  {
    if bs != [] {
      BlockSizeEven(|bs[0].entries|);
      TableAligned(bs[1..]);
    }
  }

  lemma {:induction false} TableBytesAligned(bs: seq<Block>)
    requires forall i :: 0 <= i < |bs| ==> BlockOk(bs[i])
    ensures |TableBytes(bs)| % 4 == 0
  {
    TableAligned(bs);
    TableBytesLength(bs);
  }

  // ---- Fewer entries never make a longer table ----------------------------------

  /** How many entries of es lie on page p. */
  function OnPage(es: seq<Entry>, p: u32): nat
  {
    if es == [] then 0 else (if PageOf(es[0].rva) == p then 1 else 0) + OnPage(es[1..], p)
  }

  lemma {:induction false} OnPageConcat(a: seq<Entry>, b: seq<Entry>, p: u32)
    ensures OnPage(a + b, p) == OnPage(a, p) + OnPage(b, p)
  {
    if a == [] {
      assert a + b == b;
    } else {
      OnPageConcat(a[1..], b, p);
      assert (a + b)[1..] == a[1..] + b;
    }
  }

  lemma {:induction false} OnPageRemove(b: seq<Entry>, i: nat, p: u32)
    requires i < |b|
    ensures OnPage(b, p) == OnPage(b[..i] + b[i + 1..], p) + (if PageOf(b[i].rva) == p then 1 else 0)
  {
    assert b == b[..i] + ([b[i]] + b[i + 1..]);
    OnPageConcat(b[..i], [b[i]] + b[i + 1..], p);
    OnPageConcat(b[..i], b[i + 1..], p);
    assert ([b[i]] + b[i + 1..])[1..] == b[i + 1..];
  }

  lemma {:induction false} MultisetRemove<T>(b: seq<T>, i: nat)
    requires i < |b|
    ensures multiset(b) == multiset(b[..i] + b[i + 1..]) + multiset{b[i]}
  {
    assert b == b[..i] + [b[i]] + b[i + 1..];
  }

  lemma {:induction false} OnPageWithin(a: seq<Entry>, b: seq<Entry>, p: u32)
    requires multiset(a) <= multiset(b)
    ensures OnPage(a, p) <= OnPage(b, p)
  {
    if a != [] {
      assert a[0] in multiset(a);
      var i :| 0 <= i < |b| && b[i] == a[0];
      var rest := b[..i] + b[i + 1..];
      MultisetRemove(b, i);
      assert multiset(a[1..]) + multiset{a[0]} == multiset(a) by {
        assert a == [a[0]] + a[1..];
      }
      forall e ensures multiset(a[1..])[e] <= multiset(rest)[e] {
        assert multiset(a)[e] <= multiset(b)[e];
      }
      OnPageWithin(a[1..], rest, p);
      OnPageRemove(b, i, p);
    }
  }

  lemma {:induction false} OnPageAll(es: seq<Entry>, p: u32)
    requires forall k :: 0 <= k < |es| ==> PageOf(es[k].rva) == p
    ensures OnPage(es, p) == |es|
  {
    if es != [] {
      OnPageAll(es[1..], p);
    }
  }

  lemma {:induction false} OnPageNone(bs: seq<Block>, p: u32)
    requires Ordered(bs)
    requires bs == [] || p < bs[0].page
    ensures OnPage(Flatten(bs), p) == 0
  {
    if bs != [] {
      OnPageNone(bs[1..], p);
      OnPageConcat(bs[0].entries, Flatten(bs[1..]), p);
      var es := bs[0].entries;
      assert forall k :: 0 <= k < |es| ==> PageOf(es[k].rva) != p;
      OnPageZero(es, p);
    }
  }

  lemma {:induction false} OnPageZero(es: seq<Entry>, p: u32)
    requires forall k :: 0 <= k < |es| ==> PageOf(es[k].rva) != p
    ensures OnPage(es, p) == 0
  {
    if es != [] {
      OnPageZero(es[1..], p);
    }
  }

  /** The first block's entries are exactly the entries on its page; the rest lie on other pages. */
  lemma {:induction false} HeadPage(bs: seq<Block>, p: u32)
    requires Ordered(bs) && bs != []
    ensures p == bs[0].page ==> OnPage(Flatten(bs), p) == |bs[0].entries|
    ensures p != bs[0].page ==> OnPage(Flatten(bs), p) == OnPage(Flatten(bs[1..]), p)
  {
    OnPageConcat(bs[0].entries, Flatten(bs[1..]), p);
    if p == bs[0].page {
      OnPageNone(bs[1..], p);
      OnPageAll(bs[0].entries, p);
    } else {
      OnPageZero(bs[0].entries, p);
    }
  }

  lemma {:induction false} LengthMonotone(a: seq<Block>, b: seq<Block>)
    requires Ordered(a) && Ordered(b)
    requires forall p: u32 :: OnPage(Flatten(a), p) <= OnPage(Flatten(b), p)
    ensures TableLength(a) <= TableLength(b)
    decreases |a| + |b|
  {
    if a != [] {
      HeadPage(a, a[0].page);
      if b == [] {
        assert OnPage(Flatten(b), a[0].page) == 0;
      } else if b[0].page < a[0].page {
        forall p: u32 ensures OnPage(Flatten(a), p) <= OnPage(Flatten(b[1..]), p) {
          HeadPage(b, p);
          if p == b[0].page {
            OnPageNone(a, p);
          }
        }
        LengthMonotone(a, b[1..]);
      } else {
        if a[0].page < b[0].page {
          OnPageNone(b, a[0].page);
        }
        HeadPage(b, a[0].page);
        forall p: u32 ensures OnPage(Flatten(a[1..]), p) <= OnPage(Flatten(b[1..]), p) {
          HeadPage(a, p);
          HeadPage(b, p);
          if p == a[0].page {
            OnPageNone(a[1..], p);
          }
        }
        LengthMonotone(a[1..], b[1..]);
      }
    }
  }

  /** A table over some of the entries, in any order, is never longer: the estimate is an upper bound. */
  lemma {:induction false} EstimateIsUpperBound(some: seq<Entry>, all: seq<Entry>)
    requires multiset(some) <= multiset(all)
    ensures Ordered(InsertAll([], some)) && Ordered(InsertAll([], all))
    ensures |TableBytes(InsertAll([], some))| <= |TableBytes(InsertAll([], all))|
  {
    var a, b := InsertAll([], some), InsertAll([], all);
    InsertAllContents([], some);
    InsertAllContents([], all);
    forall p: u32 ensures OnPage(Flatten(a), p) <= OnPage(Flatten(b), p) {
      assert multiset(Flatten(a)) == multiset(some) && multiset(Flatten(b)) == multiset(all);
      OnPageWithin(Flatten(a), Flatten(b), p);
    }
    LengthMonotone(a, b);
    TableBytesLength(a);
    TableBytesLength(b);
  }

  // ---- A printed block, field by field (section 6.6 of the PE/COFF specification) -----------------------

  lemma {:induction false} EntryPrinted(b: bytes, o: nat, es: seq<Entry>, page: u32, k: nat)
    requires (forall i :: 0 <= i < |es| ==> page <= es[i].rva) && k < |es| && At(b, o, EntryBytes(es, page))
    ensures o + 2 * k + 2 <= |b| && Get(b, o + 2 * k, 2) == Word(es[k], page) % TWO16
    decreases k
  {
    hide Le, Get, Word;
    AtSplit(b, o, Le(Word(es[0], page), 2), EntryBytes(es[1..], page));
    RangeValues();
    if k == 0 {
      GetLe(b, o, Word(es[0], page), 2);
    } else {
      EntryPrinted(b, o + 2, es[1..], page, k - 1);
    }
  }

  lemma {:induction false} WordOf(e: Entry, page: u32)
    requires PageOf(e.rva) == page && e.typ < 16
    ensures page <= e.rva && Word(e, page) % TWO16 == e.typ * 0x1000 + e.rva % 0x1000
  {
  }

  /**
   * A block is its page, its own size and one word for each entry, the type in the upper four bits and the offset
   * into the page in the lower twelve; an odd number of entries is followed by a zero word.
   */
  lemma {:induction false} BlockPrinted(b: Block, k: nat)
    requires BlockOk(b) && 2 * |b.entries| + 10 < TWO32 && k < |b.entries| && b.entries[k].typ < 16
    ensures var s, n, e := BlockBytes(b), |b.entries|, b.entries[k];
      && |s| == 8 + 2 * n + 2 * (n % 2) && Get(s, 0, 4) == b.page == e.rva - e.rva % 0x1000 && Get(s, 4, 4) == |s|
      && 8 + 2 * k + 2 <= |s| && Get(s, 8 + 2 * k, 2) == e.typ * 0x1000 + e.rva % 0x1000
      && (n % 2 == 1 ==> Get(s, 8 + 2 * n, 2) == 0)
  {
    hide Le, Get, Word, EntryBytes, At, BlockBytes;
    var s, n, es := BlockBytes(b), |b.entries|, Padded(b);
    BlockParts(b);
    BlockLength(b);
    RangeValues();
    GetAt(s, 0, b.page, 4);
    ModUnique(BlockSize(n), TWO32, 0, BlockSize(n));
    GetAt(s, 4, BlockSize(n), 4);
    EntryPrinted(s, 8, es, b.page, k);
    WordOf(b.entries[k], b.page);
    if n % 2 == 1 {
      EntryPrinted(s, 8, es, b.page, n);
      PaddingWord(b.page);
    }
  }

  lemma {:induction false} PaddingWord(page: u32)
    ensures Word(Entry(page, ABSOLUTE), page) % TWO16 == 0
  {
  }

  lemma {:induction false} BlockParts(b: Block)
    requires BlockOk(b)
    ensures forall i :: 0 <= i < |Padded(b)| ==> b.page <= Padded(b)[i].rva
    ensures var s := BlockBytes(b);
      At(s, 0, Le(b.page, 4)) && At(s, 4, Le(BlockSize(|b.entries|) % TWO32, 4))
      && At(s, 8, EntryBytes(Padded(b), b.page))
  {
    hide Le, EntryBytes, At;
    var s, x, y, z := BlockBytes(b), Le(b.page, 4), Le(BlockSize(|b.entries|) % TWO32, 4),
        EntryBytes(Padded(b), b.page);
    AtWhole(s);
    AtSplit(s, 0, x + y, z);
    AtSplit(s, 0, x, y);
  }
}
