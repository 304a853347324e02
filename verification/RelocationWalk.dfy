/** The base-relocation table walker (apply_relocations in crates/cli/src/dump_image.rs). */
module RelocationWalk {
  import opened Words
  import opened Relocation

  /** One slot the walk rewrote. */
  datatype Patch = Patch(at: nat, width: nat)

  /** What a stretch of the walk does: the buffer it leaves, the slots it rewrote in order, the entries it refused. */
  datatype Walk = Walk(buf: bytes, trace: seq<Patch>, skipped: nat)

  ghost predicate Inside(p: Patch, n: nat)
  {
    (p.width == 4 || p.width == 8) && p.at + p.width <= n
  }

  ghost predicate Apart(p: Patch, lo: nat, hi: nat)
  {
    p.at + p.width <= lo || hi <= p.at
  }

  ghost predicate AllInside(ps: seq<Patch>, n: nat)
  {
    forall i :: 0 <= i < |ps| ==> Inside(ps[i], n)
  }

  ghost predicate AllApart(ps: seq<Patch>, lo: nat, hi: nat)
  {
    forall i :: 0 <= i < |ps| ==> Apart(ps[i], lo, hi)
  }

  /** Byte k lies in one of the slots. */
  ghost predicate Touches(ps: seq<Patch>, k: nat)
  {
    exists i :: 0 <= i < |ps| && ps[i].at <= k < ps[i].at + ps[i].width
  }

  ghost predicate Disjoint(p: Patch, q: Patch)
  {
    Apart(p, q.at, q.at + q.width)
  }

  /** The slot's word minus delta, in the slot's own width, wrapping. */
  function Subtract(v: nat, w: nat, delta: int): nat
  {
    if w == 8 then (v - delta) % TWO64 else (v - delta) % TWO32
  }

  function Rewrite(buf: bytes, p: Patch, delta: int): (r: bytes)
    requires p.at + p.width <= |buf|
    ensures |r| == |buf|
  {
    Put(buf, p.at, Le(Subtract(Get(buf, p.at, p.width), p.width, delta), p.width))
  }

  function RewriteAll(buf: bytes, ps: seq<Patch>, delta: int): (r: bytes)
    requires AllInside(ps, |buf|)
    ensures |r| == |buf|
    decreases |ps|
  {
    if ps == [] then buf else RewriteAll(Rewrite(buf, ps[0], delta), ps[1..], delta)
  }

  function Width(typ: nat): nat { if typ == DIR64 then 8 else if typ == HIGHLOW then 4 else 0 }

  /** First a, then b from where a left the buffer. */
  function Then(a: Walk, b: Walk): Walk { Walk(b.buf, a.trace + b.trace, a.skipped + b.skipped) }

  /** One TypeOffset entry. */
  function Step(buf: bytes, page: nat, entry: nat, delta: int): (r: Walk)
    ensures |r.buf| == |buf|
  {
    var slot, typ := page + entry % 0x1000, entry / 0x1000;
    if Width(typ) != 0 then
      var p := Patch(slot, Width(typ));
      if slot + Width(typ) <= |buf| then Walk(Rewrite(buf, p, delta), [p], 0) else Walk(buf, [], 1)
    else Walk(buf, [], if typ == ABSOLUTE then 0 else 1)
  }

  function Entries(buf: bytes, at: nat, n: nat, end: nat, page: nat, delta: int): (r: Walk)
    ensures |r.buf| == |buf|
    decreases n
  {
    if n == 0 || at + 2 > |buf| || at >= end then Walk(buf, [], 0)
    else
      var s := Step(buf, page, Get(buf, at, 2), delta);
      Then(s, Entries(s.buf, at + 2, n - 1, end, page, delta))
  }

  /** A block header at off: it fits the table and the buffer and is no smaller than itself. */
  predicate HasBlock(buf: bytes, off: nat, end: nat)
  {
    off + 8 <= end && off + 8 <= |buf| && Get(buf, off + 4, 4) >= 8
  }

  function OneBlock(buf: bytes, off: nat, end: nat, delta: int): (r: Walk)
    requires HasBlock(buf, off, end)
    ensures |r.buf| == |buf|
  {
    Entries(buf, off + 8, (Get(buf, off + 4, 4) - 8) / 2, end, Get(buf, off, 4), delta)
  }

  function Blocks(buf: bytes, off: nat, end: nat, delta: int): (r: Walk)
    ensures |r.buf| == |buf|
    decreases |buf| - off
  {
    if !HasBlock(buf, off, end) then Walk(buf, [], 0)
    else
      var s := OneBlock(buf, off, end, delta);
      Then(s, Blocks(s.buf, off + Get(buf, off + 4, 4), end, delta))
  }

  function Apply(buf: bytes, rva: nat, size: nat, delta: int): Walk
  {
    if delta == 0 then Walk(buf, [], 0) else Blocks(buf, rva, rva + size, delta)
  }

  method ApplyEntry(out: array<u8>, page: nat, entry: nat, delta: i64)
    returns (patched: nat, skipped: nat)
    modifies out
    ensures var r := Step(old(out[..]), page, entry, delta);
            out[..] == r.buf && patched == |r.trace| && skipped == r.skipped
  {
    patched, skipped := 0, 0;
    var slot := page + entry % 0x1000;
    if entry / 0x1000 == DIR64 {
      if slot + 8 <= out.Length {
        CopyInto(out, slot, Le((Get(out[..], slot, 8) - delta) % TWO64, 8));
        patched := 1;
      } else {
        skipped := 1;
      }
    } else if entry / 0x1000 == HIGHLOW {
      if slot + 4 <= out.Length {
        CopyInto(out, slot, Le((Get(out[..], slot, 4) - delta) % TWO32, 4));
        patched := 1;
      } else {
        skipped := 1;
      }
    } else if entry / 0x1000 != ABSOLUTE {
      skipped := 1;
    }
  }

  method ApplyBlock(out: array<u8>, first: nat, entries: nat, end: nat, page: nat, delta: i64)
    returns (patched: nat, skipped: nat)
    modifies out
    ensures var r := Entries(old(out[..]), first, entries, end, page, delta);
            out[..] == r.buf && patched == |r.trace| && skipped == r.skipped
  {
    hide Step;
    patched, skipped := 0, 0;
    ghost var goal := Entries(out[..], first, entries, end, page, delta);
    var at := first;
    for i := 0 to entries
      invariant at == first + i * 2
      invariant var r := Entries(out[..], at, entries - i, end, page, delta);
                r.buf == goal.buf && patched + |r.trace| == |goal.trace| && skipped + r.skipped == goal.skipped
    {
      if at + 2 > out.Length || at >= end {
        break;
      }
      var entry := Get(out[..], at, 2);
      var p, s := ApplyEntry(out, page, entry, delta);
      patched, skipped := patched + p, skipped + s;
      at := at + 2;
    }
  }

  method ApplyRelocations(out: array<u8>, relocRva: nat, relocSize: nat, delta: i64)
    returns (patched: nat, skipped: nat)
    modifies out
    ensures var w := Apply(old(out[..]), relocRva, relocSize, delta);
            out[..] == w.buf && patched == |w.trace| && skipped == w.skipped
  {
    hide Entries, Get;
    patched, skipped := 0, 0;
    if delta == 0 {
      return;
    }
    ghost var goal := Apply(out[..], relocRva, relocSize, delta);
    var end, off := relocRva + relocSize, relocRva;
    while off + 8 <= end && off + 8 <= out.Length
      invariant var r := Blocks(out[..], off, end, delta);
                r.buf == goal.buf && patched + |r.trace| == |goal.trace| && skipped + r.skipped == goal.skipped
      decreases out.Length - off
    {
      var page := Get(out[..], off, 4);
      var blockSize := Get(out[..], off + 4, 4);
      if blockSize < 8 {
        break;
      }
      var p, s := ApplyBlock(out, off + 8, (blockSize - 8) / 2, end, page, delta);
      patched, skipped := patched + p, skipped + s;
      off := off + blockSize;
    }
  }

  /** The walk over the table a directory entry names; an empty entry names none. */
  function RebaseWalk(buf: bytes, rva: nat, size: nat, delta: int): Walk
  {
    if delta == 0 || rva == 0 || size == 0 then Walk(buf, [], 0) else Apply(buf, rva, size, delta)
  }

  method RebaseToPreferred(out: array<u8>, rva: nat, size: nat, delta: i64) returns (patched: nat, skipped: nat)
    modifies out
    ensures var w := RebaseWalk(old(out[..]), rva, size, delta);
            out[..] == w.buf && patched == |w.trace| && skipped == w.skipped
  {
    hide Apply;
    if delta == 0 {
      return 0, 0;
    }
    if rva == 0 || size == 0 {
      return 0, 0;
    }
    patched, skipped := ApplyRelocations(out, rva, size, delta);
  }

  /** Nothing is done for a file at its own base, or without a table; otherwise the whole table is walked. */
  lemma {:induction false} RebaseRule(buf: bytes, rva: nat, size: nat, delta: int)
    ensures var r := RebaseWalk(buf, rva, size, delta);
      if delta == 0 || rva == 0 || size == 0 then r.buf == buf && r.trace == [] && r.skipped == 0
      else r == Blocks(buf, rva, rva + size, delta)
  {
    hide Blocks;
  }

  // ---- Any table, however corrupt: what is written is what the trace names --------

  /** The stretch from buf rewrites exactly the slots of its trace, all inside the buffer. */
  ghost predicate Confined(buf: bytes, r: Walk, delta: int)
  {
    AllInside(r.trace, |buf|) && |r.buf| == |buf| && r.buf == RewriteAll(buf, r.trace, delta)
  }

  lemma {:induction false} RewriteAllConcat(buf: bytes, ps: seq<Patch>, qs: seq<Patch>, delta: int)
    requires AllInside(ps, |buf|) && AllInside(qs, |buf|)
    ensures RewriteAll(buf, ps + qs, delta) == RewriteAll(RewriteAll(buf, ps, delta), qs, delta)
    decreases |ps|
  {
    if ps == [] {
      assert ps + qs == qs;
    } else {
      assert (ps + qs)[1..] == ps[1..] + qs;
      RewriteAllConcat(Rewrite(buf, ps[0], delta), ps[1..], qs, delta);
    }
  }

  lemma {:induction false} ThenConfined(buf: bytes, a: Walk, b: Walk, delta: int)
    requires Confined(buf, a, delta) && Confined(a.buf, b, delta)
    ensures Confined(buf, Then(a, b), delta)
  {
    RewriteAllConcat(buf, a.trace, b.trace, delta);
  }

  lemma {:induction false} StepConfined(buf: bytes, page: nat, entry: nat, delta: int)
    ensures Confined(buf, Step(buf, page, entry, delta), delta)
  {
    var r := Step(buf, page, entry, delta);
    if r.trace != [] {
      assert RewriteAll(buf, r.trace, delta) == RewriteAll(Rewrite(buf, r.trace[0], delta), r.trace[1..], delta);
    }
  }

  lemma {:induction false} EntriesConfined(buf: bytes, at: nat, n: nat, end: nat, page: nat, delta: int)
    ensures Confined(buf, Entries(buf, at, n, end, page, delta), delta)
    decreases n
  {
    if !(n == 0 || at + 2 > |buf| || at >= end) {
      var s := Step(buf, page, Get(buf, at, 2), delta);
      StepConfined(buf, page, Get(buf, at, 2), delta);
      EntriesConfined(s.buf, at + 2, n - 1, end, page, delta);
      ThenConfined(buf, s, Entries(s.buf, at + 2, n - 1, end, page, delta), delta);
    }
  }

  lemma {:induction false} OneBlockConfined(buf: bytes, off: nat, end: nat, delta: int)
    requires HasBlock(buf, off, end)
    ensures Confined(buf, OneBlock(buf, off, end, delta), delta)
  {
    hide Entries, Confined, Get;
    EntriesConfined(buf, off + 8, (Get(buf, off + 4, 4) - 8) / 2, end, Get(buf, off, 4), delta);
  }

  lemma {:induction false} BlocksConfined(buf: bytes, off: nat, end: nat, delta: int)
    ensures Confined(buf, Blocks(buf, off, end, delta), delta)
    decreases |buf| - off
  {
    hide OneBlock, Confined, Get;
    if HasBlock(buf, off, end) {
      var size, s := Get(buf, off + 4, 4), OneBlock(buf, off, end, delta);
      OneBlockConfined(buf, off, end, delta);
      BlocksConfined(s.buf, off + size, end, delta);
      ThenConfined(buf, s, Blocks(s.buf, off + size, end, delta), delta);
    } else {
      NothingConfined(buf, delta);
    }
  }

  lemma {:induction false} NothingConfined(buf: bytes, delta: int)
    ensures Confined(buf, Walk(buf, [], 0), delta)
  {
  }

  /** Bytes outside the rewritten slots keep their values. */
  lemma {:induction false} RewriteAllFrame(buf: bytes, ps: seq<Patch>, delta: int, k: nat)
    requires AllInside(ps, |buf|)
    requires k < |buf| && !Touches(ps, k)
    ensures RewriteAll(buf, ps, delta)[k] == buf[k]
    decreases |ps|
  {
    if ps != [] {
      assert !(ps[0].at <= k < ps[0].at + ps[0].width);
      forall i | 0 <= i < |ps[1..]| ensures !(ps[1..][i].at <= k < ps[1..][i].at + ps[1..][i].width) {
        assert ps[1..][i] == ps[i + 1];
      }
      RewriteAllFrame(Rewrite(buf, ps[0], delta), ps[1..], delta, k);
    }
  }

  /**
   * For every table, also a corrupt or self-overwriting one: the walk keeps the length, rewrites
   * only whole slots inside the buffer, and touches no byte outside the slots it counts.
   */
  lemma {:induction false} WalkIsConfined(buf: bytes, rva: nat, size: nat, delta: int)
    ensures var w := Apply(buf, rva, size, delta);
            && |w.buf| == |buf|
            && AllInside(w.trace, |buf|)
            && w.buf == RewriteAll(buf, w.trace, delta)
            && forall k :: 0 <= k < |buf| && w.buf[k] != buf[k] ==> Touches(w.trace, k)
  {
    var w := Apply(buf, rva, size, delta);
    if delta != 0 {
      BlocksConfined(buf, rva, rva + size, delta);
    }
    forall k | 0 <= k < |buf| && w.buf[k] != buf[k]
      ensures Touches(w.trace, k)
    {
      if !Touches(w.trace, k) {
        RewriteAllFrame(buf, w.trace, delta, k);
      }
    }
  }

  // ---- A table whose slots avoid it is read the same whatever delta is applied ----

  ghost predicate Agree(a: bytes, b: bytes, lo: nat, hi: nat)
  {
    |a| == |b| && forall k :: lo <= k < hi && k < |a| ==> a[k] == b[k]
  }

  ghost predicate Similar(v: Walk, w: Walk, lo: nat, hi: nat)
  {
    v.trace == w.trace && v.skipped == w.skipped && Agree(v.buf, w.buf, lo, hi)
  }

  lemma {:induction false} StepSimilar(a: bytes, b: bytes, page: nat, entry: nat, d: int, e: int, lo: nat, hi: nat)
    requires Agree(a, b, lo, hi)
    requires AllApart(Step(a, page, entry, d).trace, lo, hi)
    ensures Similar(Step(a, page, entry, d), Step(b, page, entry, e), lo, hi)
  {
    var r := Step(a, page, entry, d);
    if r.trace != [] {
      assert Apart(r.trace[0], lo, hi);
    }
  }

  lemma {:induction false} ApartConcat(ps: seq<Patch>, qs: seq<Patch>, lo: nat, hi: nat)
    requires AllApart(ps + qs, lo, hi)
    ensures AllApart(ps, lo, hi) && AllApart(qs, lo, hi)
  {
    assert forall i :: 0 <= i < |ps| ==> ps[i] == (ps + qs)[i];
    assert forall i :: 0 <= i < |qs| ==> qs[i] == (ps + qs)[|ps| + i];
  }

  lemma {:induction false} EntriesSimilar(a: bytes, b: bytes, at: nat, n: nat, end: nat, page: nat, d: int, e: int,
      lo: nat)
    requires lo <= at && Agree(a, b, lo, end + 1)
    requires AllApart(Entries(a, at, n, end, page, d).trace, lo, end + 1)
    ensures Similar(Entries(a, at, n, end, page, d), Entries(b, at, n, end, page, e), lo, end + 1)
    decreases n
  {
    hide Step;
    if !(n == 0 || at + 2 > |a| || at >= end) {
      GetFrame(a, b, at, 2);
      var entry := Get(a, at, 2);
      var s, t := Step(a, page, entry, d), Step(b, page, entry, e);
      ApartConcat(s.trace, Entries(s.buf, at + 2, n - 1, end, page, d).trace, lo, end + 1);
      StepSimilar(a, b, page, entry, d, e, lo, end + 1);
      EntriesSimilar(s.buf, t.buf, at + 2, n - 1, end, page, d, e, lo);
    }
  }

  lemma {:induction false} OneBlockSimilar(a: bytes, b: bytes, off: nat, end: nat, d: int, e: int, lo: nat)
    requires lo <= off && Agree(a, b, lo, end + 1)
    requires HasBlock(a, off, end)
    requires AllApart(OneBlock(a, off, end, d).trace, lo, end + 1)
    ensures HasBlock(b, off, end) && Get(b, off + 4, 4) == Get(a, off + 4, 4)
    ensures Similar(OneBlock(a, off, end, d), OneBlock(b, off, end, e), lo, end + 1)
  {
    hide Entries, Get;
    GetFrame(a, b, off, 4);
    GetFrame(a, b, off + 4, 4);
    EntriesSimilar(a, b, off + 8, (Get(a, off + 4, 4) - 8) / 2, end, Get(a, off, 4), d, e, lo);
  }

  lemma {:induction false} BlocksSimilar(a: bytes, b: bytes, off: nat, end: nat, d: int, e: int, lo: nat)
    requires lo <= off && Agree(a, b, lo, end + 1)
    requires AllApart(Blocks(a, off, end, d).trace, lo, end + 1)
    ensures Similar(Blocks(a, off, end, d), Blocks(b, off, end, e), lo, end + 1)
    decreases |a| - off
  {
    hide OneBlock, Get;
    if HasBlock(a, off, end) {
      var s, size := OneBlock(a, off, end, d), Get(a, off + 4, 4);
      ApartConcat(s.trace, Blocks(s.buf, off + size, end, d).trace, lo, end + 1);
      OneBlockSimilar(a, b, off, end, d, e, lo);
      BlocksSimilar(s.buf, OneBlock(b, off, end, e).buf, off + size, end, d, e, lo);
    } else if off + 8 <= end && off + 8 <= |a| {
      GetFrame(a, b, off + 4, 4);
    }
  }

  // ---- Undo ---------------------------------------------------------------------------

  lemma {:induction false} ModChain(v: int, d: int, e: int, m: nat)
    requires m > 0
    ensures ((v - d) % m - e) % m == (v - d - e) % m
  {
    var q := (v - d) / m;
    assert v - d == m * q + (v - d) % m;
    var t := (v - d) % m - e;
    assert v - d - e == m * (q + t / m) + t % m by {
      assert t == m * (t / m) + t % m;
      assert m * (q + t / m) == m * q + m * (t / m);
    }
    ModUnique(v - d - e, m, q + t / m, t % m);
  }

  lemma {:induction false} SubtractTwice(v: nat, w: nat, d: int, e: int)
    ensures Subtract(Subtract(v, w, d), w, e) == Subtract(v, w, d + e)
  {
    ModChain(v, d, e, if w == 8 then TWO64 else TWO32);
  }

  /** What a rewritten slot holds, and what it leaves alone. */
  lemma {:induction false} RewriteAt(buf: bytes, p: Patch, delta: int)
    requires Inside(p, |buf|)
    ensures Get(Rewrite(buf, p, delta), p.at, p.width) == Subtract(Get(buf, p.at, p.width), p.width, delta)
    ensures forall k :: 0 <= k < |buf| && !(p.at <= k < p.at + p.width) ==> Rewrite(buf, p, delta)[k] == buf[k]
  {
    var v := Subtract(Get(buf, p.at, p.width), p.width, delta);
    RangeValues();
    GetPut(buf, p.at, v, p.width);
  }

  /** Two buffers that agree off a slot and hold the same word in it are the same buffer. */
  lemma {:induction false} SameWord(a: bytes, b: bytes, p: Patch)
    requires |a| == |b| && Inside(p, |a|)
    requires forall k :: 0 <= k < |a| && !(p.at <= k < p.at + p.width) ==> a[k] == b[k]
    requires Get(a, p.at, p.width) == Get(b, p.at, p.width)
    ensures a == b
  {
    GetInjective(a, b, p.at, p.width);
  }

  lemma {:induction false} RewritesCommute(buf: bytes, p: Patch, q: Patch, d: int, e: int)
    requires Inside(p, |buf|) && Inside(q, |buf|)
    requires p == q || Disjoint(p, q)
    ensures Rewrite(Rewrite(buf, p, d), q, e) == Rewrite(Rewrite(buf, q, e), p, d)
  {
    var a, b := Rewrite(buf, p, d), Rewrite(buf, q, e);
    if p == q {
      RewriteAt(buf, p, d);
      RewriteAt(a, p, e);
      RewriteAt(buf, p, e);
      RewriteAt(b, p, d);
      SubtractTwice(Get(buf, p.at, p.width), p.width, d, e);
      SubtractTwice(Get(buf, p.at, p.width), p.width, e, d);
      SameWord(Rewrite(a, p, e), Rewrite(b, p, d), p);
    } else {
      GetFrame(buf, a, q.at, q.width);
      GetFrame(buf, b, p.at, p.width);
      assert Rewrite(a, q, e) == Rewrite(b, p, d);
    }
  }

  lemma {:induction false} SubtractUndone(v: nat, w: nat, d: int, e: int)
    requires (d + e) % TWO64 == 0
    requires (w == 8 && v < TWO64) || (w == 4 && v < TWO32)
    ensures Subtract(v, w, d + e) == v
  {
    var q := (d + e) / TWO64;
    assert d + e == TWO64 * q;
    if w == 8 {
      ModUnique(v - (d + e), TWO64, -q, v);
    } else {
      ModUnique(v - (d + e), TWO32, -(TWO32 * q), v);
    }
  }

  lemma {:induction false} RewriteUndone(buf: bytes, p: Patch, d: int, e: int)
    requires Inside(p, |buf|)
    requires (d + e) % TWO64 == 0
    ensures Rewrite(Rewrite(buf, p, d), p, e) == buf
  {
    var a := Rewrite(buf, p, d);
    var v := Get(buf, p.at, p.width);
    RewriteAt(buf, p, d);
    RewriteAt(a, p, e);
    SubtractTwice(v, p.width, d, e);
    GetBounds(buf, p.at, p.width);
    SubtractUndone(v, p.width, d, e);
    hide Rewrite, Subtract;
    SameWord(Rewrite(a, p, e), buf, p);
  }

  ghost predicate EqualOrDisjoint(ps: seq<Patch>)
  {
    forall i, j :: 0 <= i < j < |ps| ==> ps[i] == ps[j] || Disjoint(ps[i], ps[j])
  }

  lemma {:induction false} RewriteMovesPast(buf: bytes, p: Patch, ps: seq<Patch>, d: int, e: int)
    requires Inside(p, |buf|) && AllInside(ps, |buf|)
    requires forall i :: 0 <= i < |ps| ==> p == ps[i] || Disjoint(p, ps[i])
    ensures RewriteAll(Rewrite(buf, p, d), ps, e) == Rewrite(RewriteAll(buf, ps, e), p, d)
    decreases |ps|
  {
    if ps != [] {
      RewritesCommute(buf, p, ps[0], d, e);
      RewriteMovesPast(Rewrite(buf, ps[0], e), p, ps[1..], d, e);
    }
  }

  lemma {:induction false} RewriteAllUndone(buf: bytes, ps: seq<Patch>, d: int, e: int)
    requires AllInside(ps, |buf|)
    requires EqualOrDisjoint(ps)
    requires (d + e) % TWO64 == 0
    ensures RewriteAll(RewriteAll(buf, ps, d), ps, e) == buf
  {
    if ps != [] {
      var p, rest := ps[0], ps[1..];
      RewriteMovesPast(buf, p, rest, d, d);
      var mid := RewriteAll(buf, rest, d);
      RewriteUndone(mid, p, d, e);
      RewriteAllUndone(buf, rest, d, e);
      assert RewriteAll(buf, ps, d) == Rewrite(mid, p, d);
    }
  }

  /** -delta in a 64-bit register: the most negative value is its own negation. */
  function Negate(delta: i64): i64 { if delta == -0x8000_0000_0000_0000 then delta else -delta }

  /** What the table names: the walk with a delta of 0, which rewrites every slot to itself. */
  function Named(buf: bytes, rva: nat, size: nat): Walk
  {
    Blocks(buf, rva, rva + size, 0)
  }

  lemma {:induction false} RewriteByZero(buf: bytes, p: Patch)
    requires Inside(p, |buf|)
    ensures Rewrite(buf, p, 0) == buf
  {
    var v := Get(buf, p.at, p.width);
    GetBounds(buf, p.at, p.width);
    assert Subtract(v, p.width, 0) == v;
    PutSame(buf, p.at, p.width);
  }

  lemma {:induction false} RewriteAllByZero(buf: bytes, ps: seq<Patch>)
    requires AllInside(ps, |buf|)
    ensures RewriteAll(buf, ps, 0) == buf
    decreases |ps|
  {
    if ps != [] {
      RewriteByZero(buf, ps[0]);
      RewriteAllByZero(buf, ps[1..]);
    }
  }

  lemma {:induction false} NamedKeepsBuffer(buf: bytes, rva: nat, size: nat)
    ensures Named(buf, rva, size).buf == buf
  {
    BlocksConfined(buf, rva, rva + size, 0);
    RewriteAllByZero(buf, Named(buf, rva, size).trace);
  }

  /** A walk that keeps off its own table rewrites the slots the untouched table names. */
  lemma {:induction false} TraceIsNamed(buf: bytes, cur: bytes, rva: nat, size: nat, delta: int)
    requires delta != 0
    requires Agree(buf, cur, rva, rva + size + 1)
    requires AllApart(Named(buf, rva, size).trace, rva, rva + size + 1)
    ensures Apply(cur, rva, size, delta).trace == Named(buf, rva, size).trace
    ensures Apply(cur, rva, size, delta).skipped == Named(buf, rva, size).skipped
    ensures Agree(buf, Apply(cur, rva, size, delta).buf, rva, rva + size + 1)
  {
    hide Blocks, Agree, AllApart;
    NamedKeepsBuffer(buf, rva, size);
    NamedAgrees(buf, cur, rva, size, delta);
  }

  lemma {:induction false} NamedAgrees(buf: bytes, cur: bytes, rva: nat, size: nat, delta: int)
    requires delta != 0
    requires Agree(buf, cur, rva, rva + size + 1) && AllApart(Named(buf, rva, size).trace, rva, rva + size + 1)
    ensures Similar(Named(buf, rva, size), Apply(cur, rva, size, delta), rva, rva + size + 1)
  {
    hide Blocks, Agree, AllApart, Similar;
    BlocksSimilar(buf, cur, rva, rva + size, 0, delta, rva);
  }

  /**
   * Applying delta and then -delta restores the buffer exactly, with equal counts, for every table
   * whose slots (those the untouched table names) are pairwise equal or disjoint and avoid the table.
   * The last byte read can lie one past the table's end, when an odd block size shifts the entries.
   */
  lemma {:induction false} UndoRestores(buf: bytes, rva: nat, size: nat, delta: i64)
    requires EqualOrDisjoint(Named(buf, rva, size).trace)
    requires AllApart(Named(buf, rva, size).trace, rva, rva + size + 1)
    ensures var there := Apply(buf, rva, size, delta);
            var back := Apply(there.buf, rva, size, Negate(delta));
            back.buf == buf && |back.trace| == |there.trace| && back.skipped == there.skipped
  {
    if delta != 0 {
      var there := Apply(buf, rva, size, delta);
      var e := Negate(delta);
      TraceIsNamed(buf, buf, rva, size, delta);
      TraceIsNamed(buf, there.buf, rva, size, e);
      WalkIsConfined(buf, rva, size, delta);
      WalkIsConfined(there.buf, rva, size, e);
      RewriteAllUndone(buf, there.trace, delta, e);
    }
  }

  // ---- The rule, entry by entry ------------------------------------------------------------------------

  /**
   * One entry: type 10 takes delta off the eight-byte word at its offset into the page, type 3 off the four-byte
   * one, modulo their width; one that does not fit the buffer, or has another type, is refused, and type 0 is padding.
   */
  lemma {:induction false} EntryRule(buf: bytes, page: nat, entry: u16, delta: int)
    ensures var r := Step(buf, page, entry, delta);
      var at, typ := page + entry % 0x1000, entry / 0x1000;
      if typ == 10 && at + 8 <= |buf| then
        && r.trace == [Patch(at, 8)] && r.skipped == 0 && |r.buf| == |buf|
        && Get(r.buf, at, 8) == (Get(buf, at, 8) - delta) % 0x1_0000_0000_0000_0000
        && forall k :: 0 <= k < |buf| && !(at <= k < at + 8) ==> r.buf[k] == buf[k]
      else if typ == 3 && at + 4 <= |buf| then
        && r.trace == [Patch(at, 4)] && r.skipped == 0 && |r.buf| == |buf|
        && Get(r.buf, at, 4) == (Get(buf, at, 4) - delta) % 0x1_0000_0000
        && forall k :: 0 <= k < |buf| && !(at <= k < at + 4) ==> r.buf[k] == buf[k]
      else r == Walk(buf, [], if typ == 0 then 0 else 1)
  {
    hide Get, Rewrite;
    var at := page + entry % 0x1000;
    if entry / 0x1000 == 10 && at + 8 <= |buf| {
      RewriteAt(buf, Patch(at, 8), delta);
    } else if entry / 0x1000 == 3 && at + 4 <= |buf| {
      RewriteAt(buf, Patch(at, 4), delta);
    }
  }

  /** The entry word says that p is a slot of the page, inside a buffer of n bytes. */
  predicate WordNames(word: nat, page: nat, n: nat, p: Patch)
  {
    && p.at == page + word % 0x1000 && p.at + p.width <= n
    && ((word / 0x1000 == 10 && p.width == 8) || (word / 0x1000 == 3 && p.width == 4))
  }

  /** The i-th entry of those at at names p: it starts in front of the table's end and lies in the buffer. */
  ghost predicate EntryNames(buf: bytes, at: nat, i: nat, end: nat, page: nat, p: Patch)
  {
    at + 2 * i < end && at + 2 * i + 2 <= |buf| && WordNames(Get(buf, at + 2 * i, 2), page, |buf|, p)
  }

  /** The block at off names p: by one of the entries its size has room for. */
  ghost predicate BlockNames(buf: bytes, off: nat, end: nat, p: Patch)
  {
    off + 8 <= |buf| && exists i: nat :: BlockEntryNames(buf, off, i, end, p)
  }

  ghost predicate BlockEntryNames(buf: bytes, off: nat, i: nat, end: nat, p: Patch)
    requires off + 8 <= |buf|
  {
    8 + 2 * i + 2 <= Get(buf, off + 4, 4) && EntryNames(buf, off + 8, i, end, Get(buf, off, 4), p)
  }

  /** A block header in front of the table's end and in the buffer, of a size that has room for itself. */
  predicate IsBlock(buf: bytes, off: nat, end: nat) { off + 8 <= end && off + 8 <= |buf| && Get(buf, off + 4, 4) >= 8 }

  /** The walk from off on comes to the block at last: each block's size leads to the next one. */
  ghost predicate LeadsTo(buf: bytes, offs: seq<nat>, off: nat, end: nat, last: nat)
  {
    && offs != [] && offs[0] == off && offs[|offs| - 1] == last
    && (forall k :: 0 <= k < |offs| ==> IsBlock(buf, offs[k], end))
    && forall k :: 0 <= k < |offs| - 1 ==> NextBlock(buf, offs[k], offs[k + 1])
  }

  predicate NextBlock(buf: bytes, off: nat, next: nat)
  {
    off + 8 <= |buf| && next == off + Get(buf, off + 4, 4)
  }

  /** The table of size bytes at rva names the slot p. */
  ghost predicate TableNames(buf: bytes, off: nat, end: nat, p: Patch)
  {
    exists offs: seq<nat>, last: nat :: LeadsTo(buf, offs, off, end, last) && BlockNames(buf, last, end, p)
  }

  lemma {:induction false} StepZero(buf: bytes, page: nat, word: nat, p: Patch)
    ensures var r := Step(buf, page, word, 0); r.buf == buf && (p in r.trace <==> WordNames(word, page, |buf|, p))
  {
    hide Rewrite;
    var slot := page + word % 0x1000;
    if word / 0x1000 == 10 && slot + 8 <= |buf| {
      RewriteByZero(buf, Patch(slot, 8));
    } else if word / 0x1000 == 3 && slot + 4 <= |buf| {
      RewriteByZero(buf, Patch(slot, 4));
    }
  }

  ghost predicate SomeEntry(buf: bytes, at: nat, n: nat, end: nat, page: nat, p: Patch)
  {
    exists i: nat :: i < n && EntryNames(buf, at, i, end, page, p)
  }

  lemma {:induction false} EntryNext(buf: bytes, at: nat, n: nat, end: nat, page: nat, p: Patch)
    requires n > 0
    ensures SomeEntry(buf, at, n, end, page, p)
       <==> EntryNames(buf, at, 0, end, page, p) || SomeEntry(buf, at + 2, n - 1, end, page, p)
  {
    hide WordNames, Get;
    var next := at + 2;
    if i: nat :| i < n && EntryNames(buf, at, i, end, page, p) {
      if i > 0 {
        assert EntryNames(buf, next, i - 1, end, page, p);
      }
    }
    if i: nat :| i < n - 1 && EntryNames(buf, next, i, end, page, p) {
      assert EntryNames(buf, at, i + 1, end, page, p);
    }
  }

  lemma {:induction false} EntriesZero(buf: bytes, at: nat, n: nat, end: nat, page: nat, p: Patch)
    ensures var r := Entries(buf, at, n, end, page, 0);
      r.buf == buf && (p in r.trace <==> SomeEntry(buf, at, n, end, page, p))
    decreases n
  {
    hide Step, SomeEntry, Get;
    if n == 0 || at + 2 > |buf| || at >= end {
      NoEntry(buf, at, n, end, page, p);
    } else {
      StepZero(buf, page, Get(buf, at, 2), p);
      EntriesZero(buf, at + 2, n - 1, end, page, p);
      EntryNext(buf, at, n, end, page, p);
      FirstEntry(buf, at, end, page, p);
    }
  }

  lemma {:induction false} NoEntry(buf: bytes, at: nat, n: nat, end: nat, page: nat, p: Patch)
    requires n == 0 || at + 2 > |buf| || at >= end
    ensures !SomeEntry(buf, at, n, end, page, p)
  {
    hide Get, WordNames;
  }

  lemma {:induction false} FirstEntry(buf: bytes, at: nat, end: nat, page: nat, p: Patch)
    requires at < end && at + 2 <= |buf|
    ensures EntryNames(buf, at, 0, end, page, p) <==> WordNames(Get(buf, at, 2), page, |buf|, p)
  {
    hide Get, WordNames;
  }

  lemma {:induction false} OneBlockZero(buf: bytes, off: nat, end: nat, p: Patch)
    requires HasBlock(buf, off, end)
    ensures var r := OneBlock(buf, off, end, 0); r.buf == buf && (p in r.trace <==> BlockNames(buf, off, end, p))
  {
    hide Entries, Get, EntryNames;
    var size := Get(buf, off + 4, 4);
    var n, page, first := (size - 8) / 2, Get(buf, off, 4), off + 8;
    EntriesZero(buf, first, n, end, page, p);
    if i: nat :| i < n && EntryNames(buf, first, i, end, page, p) {
      assert BlockEntryNames(buf, off, i, end, p);
    }
    if i: nat :| BlockEntryNames(buf, off, i, end, p) {
      assert i < n;
    }
  }

  lemma {:induction false} TableNext(buf: bytes, off: nat, end: nat, p: Patch)
    requires IsBlock(buf, off, end)
    ensures TableNames(buf, off, end, p)
       <==> BlockNames(buf, off, end, p) || TableNames(buf, off + Get(buf, off + 4, 4), end, p)
  {
    hide Get, BlockNames, IsBlock;
    BlockInside(buf, off, end);
    var next := off + Get(buf, off + 4, 4);
    if offs: seq<nat>, last: nat :| LeadsTo(buf, offs, off, end, last) && BlockNames(buf, last, end, p) {
      if |offs| > 1 {
        assert NextBlock(buf, offs[0], offs[0 + 1]);
        LeadsOn(buf, offs, off, end, last);
      }
    }
    if BlockNames(buf, off, end, p) {
      assert LeadsTo(buf, [off], off, end, off);
    }
    if offs: seq<nat>, last: nat :| LeadsTo(buf, offs, next, end, last) && BlockNames(buf, last, end, p) {
      LeadsFrom(buf, offs, off, next, end, last);
    }
  }

  lemma {:induction false} BlockInside(buf: bytes, off: nat, end: nat)
    requires IsBlock(buf, off, end)
    ensures off + 8 <= |buf|
  {
    hide Get;
  }

  lemma {:induction false} LeadsOn(buf: bytes, offs: seq<nat>, off: nat, end: nat, last: nat)
    requires LeadsTo(buf, offs, off, end, last) && |offs| > 1
    ensures LeadsTo(buf, offs[1..], offs[1], end, last)
  {
    hide Get, IsBlock, NextBlock;
    var rest := offs[1..];
    forall k | 0 <= k < |rest| - 1 ensures NextBlock(buf, rest[k], rest[k + 1]) {
      assert NextBlock(buf, offs[k + 1], offs[k + 1 + 1]);
    }
  }

  lemma {:induction false} LeadsFrom(buf: bytes, offs: seq<nat>, off: nat, next: nat, end: nat, last: nat)
    requires LeadsTo(buf, offs, next, end, last) && IsBlock(buf, off, end) && NextBlock(buf, off, next)
    ensures LeadsTo(buf, [off] + offs, off, end, last)
  {
    hide Get, IsBlock, NextBlock;
    var all := [off] + offs;
    forall k | 0 <= k < |all| - 1 ensures NextBlock(buf, all[k], all[k + 1]) {
      if k > 0 {
        assert NextBlock(buf, offs[k - 1], offs[k - 1 + 1]);
      }
    }
  }

  lemma {:induction false} BlocksZero(buf: bytes, off: nat, end: nat, p: Patch)
    ensures var r := Blocks(buf, off, end, 0); r.buf == buf && (p in r.trace <==> TableNames(buf, off, end, p))
    decreases |buf| - off
  {
    hide OneBlock, Get, TableNames, BlockNames;
    if HasBlock(buf, off, end) {
      OneBlockZero(buf, off, end, p);
      BlocksZero(buf, off + Get(buf, off + 4, 4), end, p);
      TableNext(buf, off, end, p);
    } else {
      NoBlock(buf, off, end, p);
    }
  }

  lemma {:induction false} NoBlock(buf: bytes, off: nat, end: nat, p: Patch)
    requires !IsBlock(buf, off, end)
    ensures !TableNames(buf, off, end, p)
  {
    hide Get, IsBlock, BlockNames;
  }

  /** The slots that a table names, however corrupt it is: those of the entries of the blocks the walk comes to. */
  lemma {:induction false} NamedIff(buf: bytes, rva: nat, size: nat, p: Patch)
    ensures p in Named(buf, rva, size).trace <==> TableNames(buf, rva, rva + size, p)
  {
    hide Blocks, TableNames;
    BlocksZero(buf, rva, rva + size, p);
  }
}
