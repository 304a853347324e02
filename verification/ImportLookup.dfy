/**
 * The slots of the original address table, rewritten in the memory dump
 * (write_iat_lookup_to_dump_buf in crates/pe/src/dumper/import_section.rs).
 */
module ImportLookup {
  import opened Options
  import opened Words
  import opened ImportTable
  import opened ImportRuns
  import opened ImportReader
  import opened ImportMetadata
  import opened ImportLoader
  import opened ImportDenseMetadata
  import Dense = ImportDense
  import Pe

  /** The dump, and the next of the printer's slot values. */
  datatype Lookup = Lookup(buf: bytes, next: nat)

  /** An ordinal goes before the printer's value. */
  function ValueOf(t: Thunk, out: seq<nat>, next: nat, w: nat): nat
  {
    if t.ordinal.Some? then OrdinalFlag(w) + t.ordinal.value else if next < |out| then out[next] else 0
  }

  /** A slot behind the end of the dump is passed over, and so is its turn. */
  function WriteSlot(l: Lookup, t: Thunk, out: seq<nat>, w: nat): (r: Lookup)
    ensures |r.buf| == |l.buf|
  {
    if t.iatAddress + w <= |l.buf|
    then Lookup(Put(l.buf, t.iatAddress, Le(ValueOf(t, out, l.next, w), w)), l.next + 1)
    else l
  }

  function WriteSlots(l: Lookup, ts: seq<Thunk>, out: seq<nat>, w: nat): (r: Lookup)
    ensures |r.buf| == |l.buf|
    decreases |ts|
  {
    if ts == [] then l else WriteSlots(WriteSlot(l, ts[0], out, w), ts[1..], out, w)
  }

  /** The last recorded slot, at least at the start of the table. */
  function Highest(ts: seq<Thunk>, start: nat): nat
    decreases |ts|
  {
    if ts == [] then start else Highest(ts[1..], Max(start, ts[0].iatAddress))
  }

  function Lowest(ts: seq<Thunk>, start: nat): nat
    decreases |ts|
  {
    if ts == [] then start else Lowest(ts[1..], Min(start, ts[0].iatAddress))
  }

  function ZeroAt(b: bytes, a: nat, w: nat): (r: bytes)
    ensures |r| == |b|
  {
    if a + w <= |b| then Put(b, a, Zeros(w)) else b
  }

  /** Slots from a on, in front of end, that no thunk owns. */
  function ZeroGaps(b: bytes, a: nat, end: nat, owned: set<nat>, w: nat): (r: bytes)
    requires w > 0
    ensures |r| == |b|
    decreases end - a
  {
    if a >= end then b else ZeroGaps(if a in owned then b else ZeroAt(b, a, w), a + w, end, owned, w)
  }

  /** The terminator's turn comes only if a zero is due. */
  function Terminate(l: Lookup, a: nat, out: seq<nat>, w: nat): (r: Lookup)
    ensures |r.buf| == |l.buf|
  {
    if l.next < |out| && out[l.next] == 0 then Lookup(ZeroAt(l.buf, a, w), l.next + 1) else l
  }

  const NO_ADDRESS: nat := 0xFFFF_FFFF

  function WriteModule(l: Lookup, m: Module, out: seq<nat>, iatRva: nat, classic: bool, owned: set<nat>, w: nat):
    (r: Lookup)
    requires w > 0
    ensures |r.buf| == |l.buf|
  {
    var written := WriteSlots(l, m.thunks, out, w);
    var low, high := Lowest(m.thunks, NO_ADDRESS), Highest(m.thunks, iatRva);
    var cleared :=
      if classic && low != NO_ADDRESS then written.(buf := ZeroGaps(written.buf, low, high, owned, w)) else written;
    Terminate(cleared, high + w, out, w)
  }

  function WriteModules(l: Lookup, ms: seq<Module>, out: seq<nat>, iatRva: nat, classic: bool, owned: set<nat>, w: nat):
    (r: Lookup)
    requires w > 0
    ensures |r.buf| == |l.buf|
    decreases |ms|
  {
    if ms == [] then l
    else
      WriteModules(WriteModule(l, ms[0], out, iatRva, classic, owned, w), ms[1..], out, iatRva, classic, owned, w)
  }

  /** The recorded addresses; only the classic path looks at them. */
  function OwnedBy(ms: seq<Module>, classic: bool): set<nat>
  {
    if !classic || ms == [] then {} else (set t | t in ms[0].thunks :: t.iatAddress) + OwnedBy(ms[1..], classic)
  }

  function LookupWritten(b: bytes, ms: seq<Module>, out: seq<nat>, iatRva: nat, classic: bool, w: nat): (r: bytes)
    requires w > 0
    ensures |r| == |b|
  {
    WriteModules(Lookup(b, 0), ms, out, iatRva, classic, OwnedBy(ms, classic), w).buf
  }

  // ---- The rewriting as the program runs it -----------------------------------------------------------

  method CollectOwned(ms: seq<Module>, classic: bool) returns (owned: set<nat>)
    ensures owned == OwnedBy(ms, classic)
  {
    owned := {};
    if classic {
      for i := 0 to |ms|
        invariant owned + OwnedBy(ms[i..], classic) == OwnedBy(ms, classic)
      {
        assert ms[i..][0] == ms[i] && ms[i..][1..] == ms[i + 1..];
        owned := owned + set t | t in ms[i].thunks :: t.iatAddress;
      }
    }
  }

  /** One module's slots, with the lowest and the highest of them. */
  method WriteThunks(buf: array<u8>, ts: seq<Thunk>, out: seq<nat>, iatRva: nat, start: nat, w: nat)
    returns (next: nat, low: nat, high: nat)
    modifies buf
    ensures var r := WriteSlots(Lookup(old(buf[..]), start), ts, out, w); buf[..] == r.buf && next == r.next
    ensures low == Lowest(ts, NO_ADDRESS) && high == Highest(ts, iatRva)
  {
    hide Le, Put;
    next, low, high := start, NO_ADDRESS, iatRva;
    for k := 0 to |ts|
      invariant WriteSlots(Lookup(buf[..], next), ts[k..], out, w)
             == WriteSlots(Lookup(old(buf[..]), start), ts, out, w)
      invariant Lowest(ts[k..], low) == Lowest(ts, NO_ADDRESS) && Highest(ts[k..], high) == Highest(ts, iatRva)
    {
      assert ts[k..][0] == ts[k] && ts[k..][1..] == ts[k + 1..];
      var a := ts[k].iatAddress;
      if a > high {
        high := a;
      }
      if a < low {
        low := a;
      }
      if a + w <= buf.Length {
        var value := if ts[k].ordinal.Some? then OrdinalFlag(w) + ts[k].ordinal.value
                     else if next < |out| then out[next] else 0;
        CopyInto(buf, a, Le(value, w));
        next := next + 1;
      }
    }
  }

  method ClearGaps(buf: array<u8>, low: nat, high: nat, owned: set<nat>, w: nat)
    requires w > 0
    modifies buf
    ensures buf[..] == ZeroGaps(old(buf[..]), low, high, owned, w)
  {
    hide Put;
    var gap := low;
    while gap < high
      invariant ZeroGaps(buf[..], gap, high, owned, w) == ZeroGaps(old(buf[..]), low, high, owned, w)
      decreases high - gap
    {
      if gap !in owned {
        if gap + w <= buf.Length {
          CopyInto(buf, gap, Zeros(w));
        }
      }
      gap := gap + w;
    }
  }

  method WriteIatLookup(buf: array<u8>, ms: seq<Module>, out: seq<nat>, iatRva: nat, classic: bool, w: nat)
    requires w > 0
    modifies buf
    ensures buf[..] == LookupWritten(old(buf[..]), ms, out, iatRva, classic, w)
  {
    hide WriteSlots, ZeroGaps, Put, OwnedBy, Lowest, Highest;
    var owned := CollectOwned(ms, classic);
    var next: nat := 0;
    for i := 0 to |ms|
      invariant WriteModules(Lookup(buf[..], next), ms[i..], out, iatRva, classic, owned, w)
             == WriteModules(Lookup(old(buf[..]), 0), ms, out, iatRva, classic, owned, w)
    {
      assert ms[i..][0] == ms[i] && ms[i..][1..] == ms[i + 1..];
      var low, high;
      next, low, high := WriteThunks(buf, ms[i].thunks, out, iatRva, next, w);
      if classic && low != NO_ADDRESS {
        ClearGaps(buf, low, high, owned, w);
      }
      if next < |out| && out[next] == 0 {
        if high + w + w <= buf.Length {
          CopyInto(buf, high + w, Zeros(w));
        }
        next := next + 1;
      }
    }
  }

  // ---- What is cleared -------------------------------------------------------------------------------

  /** Byte k is in a slot from a on, in front of end and in the buffer of n bytes, that no thunk owns. */
  ghost predicate InGap(n: nat, a: nat, end: nat, owned: set<nat>, w: nat, k: nat)
  {
    exists j: nat :: GapSlot(n, a, j, end, owned, w, k)
  }

  ghost predicate GapSlot(n: nat, a: nat, j: nat, end: nat, owned: set<nat>, w: nat, k: nat)
  {
    var s := SlotAt(a, j, w);
    s < end && s !in owned && s + w <= n && s <= k < s + w
  }

  lemma {:induction false} GapNext(n: nat, a: nat, end: nat, owned: set<nat>, w: nat, k: nat)
    requires a < end && w > 0
    ensures InGap(n, a, end, owned, w, k)
       <==> (a !in owned && a + w <= n && a <= k < a + w) || InGap(n, a + w, end, owned, w, k)
  {
    hide SlotAt;
    var next := a + w;
    SlotNext(a, 0, w);
    if j: nat :| GapSlot(n, a, j, end, owned, w, k) {
      if j > 0 {
        SlotNext(a, j - 1, w);
        assert GapSlot(n, next, j - 1, end, owned, w, k);
      }
    }
    if a !in owned && a + w <= n && a <= k < a + w {
      assert GapSlot(n, a, 0, end, owned, w, k);
    }
    if j: nat :| GapSlot(n, next, j, end, owned, w, k) {
      SlotNext(a, j, w);
      assert GapSlot(n, a, j + 1, end, owned, w, k);
    }
  }

  lemma {:induction false} NoGapBehind(n: nat, a: nat, end: nat, owned: set<nat>, w: nat, k: nat)
    requires a >= end
    ensures !InGap(n, a, end, owned, w, k)
  {
    forall j: nat ensures !GapSlot(n, a, j, end, owned, w, k) {
      MulMono(w, j, 0);
    }
  }

  /** Clearing zeroes the slots between the two ends that no thunk owns, and changes no other byte. */
  lemma {:induction false} GapsCleared(b: bytes, a: nat, end: nat, owned: set<nat>, w: nat, k: nat)
    requires w > 0 && k < |b|
    ensures ZeroGaps(b, a, end, owned, w)[k] == if InGap(|b|, a, end, owned, w, k) then 0 else b[k]
    decreases end - a
  {
    hide InGap;
    if a < end {
      GapNext(|b|, a, end, owned, w, k);
      GapsCleared(if a in owned then b else ZeroAt(b, a, w), a + w, end, owned, w, k);
    } else {
      NoGapBehind(|b|, a, end, owned, w, k);
    }
  }

  /** The ends are the lowest and the highest recorded address, or the start of the table if that is higher. */
  lemma {:induction false} EndsAre(ts: seq<Thunk>, low: nat, high: nat)
    ensures Lowest(ts, low) <= low && forall k :: 0 <= k < |ts| ==> Lowest(ts, low) <= ts[k].iatAddress
    ensures high <= Highest(ts, high) && forall k :: 0 <= k < |ts| ==> ts[k].iatAddress <= Highest(ts, high)
    ensures Lowest(ts, low) == low || exists k :: 0 <= k < |ts| && ts[k].iatAddress == Lowest(ts, low)
    ensures Highest(ts, high) == high || exists k :: 0 <= k < |ts| && ts[k].iatAddress == Highest(ts, high)
    decreases |ts|
  {
    if ts != [] {
      var rest := ts[1..];
      EndsAre(rest, Min(low, ts[0].iatAddress), Max(high, ts[0].iatAddress));
      assert forall k :: 0 <= k < |rest| ==> rest[k] == ts[k + 1];
      assert forall k :: 0 < k < |ts| ==> ts[k] == rest[k - 1];
    }
  }

  lemma {:induction false} WordKept(b: bytes, o: nat, v: nat, w: nat, k: nat)
    requires o + w <= |b| && k < |b| && !(o <= k < o + w)
    ensures Put(b, o, Le(v, w))[k] == b[k]
  {
    hide Le;
  }

  lemma {:induction false} SlotsKeep(l: Lookup, ts: seq<Thunk>, out: seq<nat>, w: nat, k: nat)
    requires k < |l.buf| && forall i :: 0 <= i < |ts| ==> !(ts[i].iatAddress <= k < ts[i].iatAddress + w)
    ensures WriteSlots(l, ts, out, w).buf[k] == l.buf[k]
    decreases |ts|
  {
    hide Put, Le, ValueOf;
    if ts != [] {
      var rest := ts[1..];
      assert forall i :: 0 <= i < |rest| ==> rest[i] == ts[i + 1];
      if ts[0].iatAddress + w <= |l.buf| {
        WordKept(l.buf, ts[0].iatAddress, ValueOf(ts[0], out, l.next, w), w, k);
      }
      SlotsKeep(WriteSlot(l, ts[0], out, w), rest, out, w, k);
    }
  }

  lemma {:induction false} TerminatorKeeps(l: Lookup, a: nat, out: seq<nat>, w: nat, k: nat)
    requires k < |l.buf| && !(a <= k < a + w)
    ensures Terminate(l, a, out, w).buf[k] == l.buf[k]
  {
  }

  /** low is the least address of the thunks, and high the greatest, or the table's start if that is higher. */
  ghost predicate Span(ts: seq<Thunk>, iatRva: nat, low: nat, high: nat)
  {
    && (forall i :: 0 <= i < |ts| ==> low <= ts[i].iatAddress <= high) && iatRva <= high
    && (exists i :: 0 <= i < |ts| && ts[i].iatAddress == low)
    && (high == iatRva || exists i :: 0 <= i < |ts| && ts[i].iatAddress == high)
  }

  lemma {:induction false} SpanIs(ts: seq<Thunk>, iatRva: nat, low: nat, high: nat)
    requires Span(ts, iatRva, low, high) && low < 0xFFFF_FFFF
    ensures Lowest(ts, 0xFFFF_FFFF) == low && Highest(ts, iatRva) == high
  {
    EndsAre(ts, 0xFFFF_FFFF, iatRva);
  }

  /**
   * One module's turn, outside its own slots and the terminator's: on the classic path the slots of its span that no
   * thunk owns are zeroed, and no other byte changes.
   */
  lemma {:induction false} ModuleClears(l: Lookup, m: Module, out: seq<nat>, iatRva: nat, classic: bool,
      owned: set<nat>, w: nat, low: nat, high: nat, k: nat)
    requires w > 0 && k < |l.buf| && Span(m.thunks, iatRva, low, high) && low < 0xFFFF_FFFF
    requires forall i :: 0 <= i < |m.thunks| ==> !(m.thunks[i].iatAddress <= k < m.thunks[i].iatAddress + w)
    requires !(high + w <= k < high + w + w)
    ensures WriteModule(l, m, out, iatRva, classic, owned, w).buf[k]
         == if classic && InGap(|l.buf|, low, high, owned, w, k) then 0 else l.buf[k]
  {
    hide WriteSlots, ZeroGaps, Terminate, InGap, Span, Lowest, Highest;
    SpanIs(m.thunks, iatRva, low, high);
    SlotsKeep(l, m.thunks, out, w, k);
    var written := WriteSlots(l, m.thunks, out, w);
    GapsCleared(written.buf, low, high, owned, w, k);
    var cleared := if classic then written.(buf := ZeroGaps(written.buf, low, high, owned, w)) else written;
    TerminatorKeeps(cleared, high + w, out, w, k);
  }

  /** On the classic path the slots with an owner are those some thunk was recorded at; on the other, none has one. */
  lemma {:induction false} OwnedIff(ms: seq<Module>, a: nat)
    ensures a in OwnedBy(ms, true)
       <==> exists i, k :: 0 <= i < |ms| && 0 <= k < |ms[i].thunks| && ms[i].thunks[k].iatAddress == a
    ensures a !in OwnedBy(ms, false)
    decreases |ms|
  {
    if ms != [] {
      var rest := ms[1..];
      OwnedIff(rest, a);
      assert forall i :: 0 <= i < |rest| ==> rest[i] == ms[i + 1];
      assert forall i :: 0 < i < |ms| ==> ms[i] == rest[i - 1];
    }
  }

  // ---- Keeping step with the printer ------------------------------------------------------------------

  ghost predicate SlotsFit(ts: seq<Thunk>, n: nat, w: nat)
  {
    forall k :: 0 <= k < |ts| ==> ts[k].iatAddress + w <= n
  }

  ghost predicate AllFit(ms: seq<Module>, n: nat, w: nat)
  {
    forall i :: 0 <= i < |ms| ==> SlotsFit(ms[i].thunks, n, w)
  }

  /** A zero is due behind each module's values. */
  ghost predicate Terminated(out: seq<nat>, at: nat, ms: seq<Module>)
    decreases |ms|
  {
    ms == [] || (var n := at + |ms[0].thunks|; n < |out| && out[n] == 0 && Terminated(out, n + 1, ms[1..]))
  }

  lemma {:induction false} SlotsStep(l: Lookup, ts: seq<Thunk>, out: seq<nat>, w: nat)
    ensures var n := WriteSlots(l, ts, out, w).next;
      l.next <= n <= l.next + |ts| && (n == l.next + |ts| <==> SlotsFit(ts, |l.buf|, w))
    decreases |ts|
  {
    hide ValueOf, Put, Le;
    if ts != [] {
      SlotsStep(WriteSlot(l, ts[0], out, w), ts[1..], out, w);
      assert ts == [ts[0]] + ts[1..];
    }
  }

  /**
   * The walk takes the printer's values in step with its modules exactly if every slot lies in the dump: a
   * slot that does not leaves its value to the next one.
   */
  lemma {:induction false} InStepIff(l: Lookup, ms: seq<Module>, out: seq<nat>, iatRva: nat, classic: bool,
      owned: set<nat>, w: nat, at: nat)
    requires w > 0 && l.next <= at && Terminated(out, at, ms)
    ensures var n := WriteModules(l, ms, out, iatRva, classic, owned, w).next;
      n <= at + Dense.SlotCount(ms) && (n == at + Dense.SlotCount(ms) <==> l.next == at && AllFit(ms, |l.buf|, w))
    decreases |ms|
  {
    hide WriteSlots, ZeroGaps, Put, SlotsFit, Lowest, Highest;
    if ms != [] {
      SlotsStep(l, ms[0].thunks, out, w);
      var r := WriteModule(l, ms[0], out, iatRva, classic, owned, w);
      InStepIff(r, ms[1..], out, iatRva, classic, owned, w, at + |ms[0].thunks| + 1);
      assert ms == [ms[0]] + ms[1..];
    }
  }

  lemma {:induction false} PrintedTerminated(ms: seq<Module>, nameAt: nat, w: nat, out: seq<nat>, at: nat)
    requires at <= |out| && out[at..] == Dense.OutThunks(ms, nameAt, w)
    ensures Terminated(out, at, ms)
    decreases |ms|
  {
    hide Dense.SlotValues, Dense.Strings;
    if ms != [] {
      var n, rest := at + |ms[0].thunks|, nameAt + |Dense.Strings(ms[0])|;
      var head := Dense.SlotValues(ms[0].thunks, nameAt + |ms[0].name| + 1, w) + [0];
      assert out[at..] == head + Dense.OutThunks(ms[1..], rest, w);
      assert out[at..][|ms[0].thunks|] == 0;
      assert out[n + 1..] == out[at..][|head|..];
      PrintedTerminated(ms[1..], rest, w, out, n + 1);
    }
  }

  // ---- One run ----------------------------------------------------------------------------------------

  /** The values the thunks get, the first of them the printer's value next. */
  function Values(ts: seq<Thunk>, out: seq<nat>, next: nat, w: nat): (r: seq<nat>)
    ensures |r| == |ts|
  {
    if ts == [] then [] else [ValueOf(ts[0], out, next, w)] + Values(ts[1..], out, next + 1, w)
  }

  ghost predicate KeptOutside(b: bytes, r: bytes, lo: nat, hi: nat)
  {
    |r| == |b| && forall k :: 0 <= k < |b| && !(lo <= k < hi) ==> r[k] == b[k]
  }

  lemma {:induction false} ContiguousTail(ts: seq<Thunk>, w: nat)
    requires Contiguous(ts, w) && |ts| > 1
    ensures Contiguous(ts[1..], w) && ts[1].iatAddress == ts[0].iatAddress + w && Last(ts[1..]) == Last(ts)
  {
    assert ts[1].iatAddress == ts[0].iatAddress + w * 1;
    forall k: nat | k < |ts[1..]| ensures ts[1..][k].iatAddress == ts[1..][0].iatAddress + w * k {
      assert ts[1..][k] == ts[k + 1];
      assert w * (k + 1) == w * k + w;
    }
  }

  lemma {:induction false} SlotPut(b: bytes, a: nat, s: bytes)
    requires a + |s| <= |b|
    ensures At(Put(b, a, s), a, s) && KeptOutside(b, Put(b, a, s), a, a + |s|)
  {
    assert Put(b, a, s)[a..a + |s|] == s;
  }

  lemma {:induction false} KeptAt(b: bytes, r: bytes, lo: nat, hi: nat, o: nat, s: bytes)
    requires KeptOutside(b, r, lo, hi) && At(b, o, s) && (o + |s| <= lo || hi <= o)
    ensures At(r, o, s)
  {
    AtFrame(b, r, o, s);
  }

  lemma {:induction false} KeptTwice(b: bytes, c: bytes, d: bytes, lo: nat, mid: nat, hi: nat)
    requires KeptOutside(b, c, lo, mid) && KeptOutside(c, d, mid, hi) && lo <= mid <= hi
    ensures KeptOutside(b, d, lo, hi)
  {
  }

  lemma {:induction false} SlotsJoin(b: bytes, c: bytes, r: bytes, a: nat, end: nat, first: bytes, rest: bytes)
    requires At(c, a, first) && KeptOutside(b, c, a, a + |first|) && a + |first| <= end
    requires At(r, a + |first|, rest) && KeptOutside(c, r, a + |first|, end)
    ensures At(r, a, first + rest) && KeptOutside(b, r, a, end)
  {
    hide At, KeptOutside;
    KeptAt(c, r, a + |first|, end, a, first);
    KeptTwice(b, c, r, a, a + |first|, end);
    AtSplit(r, a, first, rest);
  }

  lemma {:induction false} SlotsOpen(l: Lookup, ts: seq<Thunk>, out: seq<nat>, w: nat)
    requires ts != [] && ts[0].iatAddress + w <= |l.buf|
    ensures var v, a := ValueOf(ts[0], out, l.next, w), ts[0].iatAddress;
      var c := WriteSlot(l, ts[0], out, w);
      && WriteSlots(l, ts, out, w) == (if |ts| == 1 then c else WriteSlots(c, ts[1..], out, w))
      && c.next == l.next + 1 && |c.buf| == |l.buf|
      && At(c.buf, a, Le(v, w)) && KeptOutside(l.buf, c.buf, a, a + w)
  {
    hide ValueOf, Put, Le, At, KeptOutside;
    SlotPut(l.buf, ts[0].iatAddress, Le(ValueOf(ts[0], out, l.next, w), w));
  }

  lemma {:induction false} SlotsWritten(l: Lookup, ts: seq<Thunk>, out: seq<nat>, w: nat)
    requires Contiguous(ts, w) && Last(ts).iatAddress + w <= |l.buf|
    ensures var r, a := WriteSlots(l, ts, out, w), ts[0].iatAddress;
      && r.next == l.next + |ts| && At(r.buf, a, Dense.TableOf(Values(ts, out, l.next, w), w))
      && KeptOutside(l.buf, r.buf, a, a + w * |ts|)
    decreases |ts|
  {
    hide *;
    FirstBeforeLast(ts, w);
    var a, v := ts[0].iatAddress, ValueOf(ts[0], out, l.next, w);
    SlotsOpen(l, ts, out, w);
    ValuesOpen(ts, out, l.next, w);
    if |ts| == 1 {
      assert Le(v, w) + [] == Le(v, w);
    } else {
      var step := WriteSlot(l, ts[0], out, w);
      ContiguousTail(ts, w);
      SlotsWritten(step, ts[1..], out, w);
      assert w * |ts| == w + w * |ts[1..]|;
      SlotsJoin(l.buf, step.buf, WriteSlots(step, ts[1..], out, w).buf, a, a + w * |ts|, Le(v, w),
                Dense.TableOf(Values(ts[1..], out, l.next + 1, w), w));
    }
  }

  lemma {:induction false} ValuesOpen(ts: seq<Thunk>, out: seq<nat>, next: nat, w: nat)
    requires ts != []
    ensures var v, rest := ValueOf(ts[0], out, next, w), Values(ts[1..], out, next + 1, w);
      && Values(ts, out, next, w) == [v] + rest
      && Dense.TableOf(Values(ts, out, next, w), w) == Le(v, w) + Dense.TableOf(rest, w)
      && (|ts| == 1 ==> Dense.TableOf(rest, w) == [])
  {
    hide ValueOf, Le;
    var rest := Values(ts[1..], out, next + 1, w);
    assert ([ValueOf(ts[0], out, next, w)] + rest)[1..] == rest;
  }

  lemma {:induction false} HighestOf(ts: seq<Thunk>, start: nat, w: nat)
    requires Contiguous(ts, w)
    ensures Highest(ts, start) == Max(start, Last(ts).iatAddress)
    decreases |ts|
  {
    hide Contiguous;
    FirstBeforeLast(ts, w);
    if |ts| == 1 {
      assert ts[1..] == [];
    } else {
      ContiguousTail(ts, w);
      FirstBeforeLast(ts[1..], w);
      HighestOf(ts[1..], Max(start, ts[0].iatAddress), w);
    }
  }

  lemma {:induction false} LowestOf(ts: seq<Thunk>, start: nat, w: nat)
    requires Contiguous(ts, w)
    ensures Lowest(ts, start) == Min(start, ts[0].iatAddress)
    decreases |ts|
  {
    hide Contiguous;
    FirstBeforeLast(ts, w);
    if |ts| == 1 {
      assert ts[1..] == [];
    } else {
      ContiguousTail(ts, w);
      LowestOf(ts[1..], Min(start, ts[0].iatAddress), w);
    }
  }

  /** A run without a gap has nothing to clear. */
  lemma {:induction false} NoGaps(b: bytes, ts: seq<Thunk>, k: nat, owned: set<nat>, w: nat)
    requires Contiguous(ts, w) && w > 0 && k < |ts|
    requires forall t :: t in ts ==> t.iatAddress as nat in owned
    ensures ZeroGaps(b, ts[k].iatAddress, Last(ts).iatAddress, owned, w) == b
    decreases |ts| - k
  {
    hide ZeroAt;
    if k < |ts| - 1 {
      assert ts[k + 1].iatAddress == ts[k].iatAddress + w by {
        assert w * (k + 1) == w * k + w;
      }
      assert ts[k] in ts;
      NoGaps(b, ts, k + 1, owned, w);
    }
  }

  lemma {:induction false} ZeroedAt(b: bytes, a: nat, w: nat)
    requires a + w <= |b|
    ensures At(ZeroAt(b, a, w), a, Zeros(w)) && KeptOutside(b, ZeroAt(b, a, w), a, a + w)
  {
    SlotPut(b, a, Zeros(w));
  }

  /** One module: its run holds its values and a zero behind them, and nothing else has changed. */
  lemma {:induction false} ModuleWritten(l: Lookup, m: Module, out: seq<nat>, iatRva: nat, owned: set<nat>, w: nat)
    requires w > 0 && Contiguous(m.thunks, w) && iatRva <= Last(m.thunks).iatAddress
    requires Last(m.thunks).iatAddress + 2 * w <= |l.buf|
    requires forall t :: t in m.thunks ==> t.iatAddress as nat in owned
    requires var n := l.next + |m.thunks|; n < |out| && out[n] == 0
    ensures var r, a := WriteModule(l, m, out, iatRva, true, owned, w), m.thunks[0].iatAddress;
      && r.next == l.next + |m.thunks| + 1
      && At(r.buf, a, Dense.TableOf(Values(m.thunks, out, l.next, w), w) + Zeros(w))
      && KeptOutside(l.buf, r.buf, a, Last(m.thunks).iatAddress + 2 * w)
  {
    hide WriteSlots, ZeroGaps, ZeroAt, At, KeptOutside, Contiguous, Values, Zeros, Highest, Lowest;
    var ts := m.thunks;
    FirstBeforeLast(ts, w);
    var a, end, values := ts[0].iatAddress, Last(ts).iatAddress + w, Dense.TableOf(Values(ts, out, l.next, w), w);
    RunEnd(ts, w);
    SlotsWritten(l, ts, out, w);
    HighestOf(ts, iatRva, w);
    LowestOf(ts, NO_ADDRESS, w);
    var written := WriteSlots(l, ts, out, w);
    NoGaps(written.buf, ts, 0, owned, w);
    var r := ZeroAt(written.buf, end, w);
    ZeroedAt(written.buf, end, w);
    TableLength(Values(ts, out, l.next, w), w);
    KeptAt(written.buf, r, end, end + w, a, values);
    KeptTwice(l.buf, written.buf, r, a, end, end + w);
    AtSplit(r, a, values, Zeros(w));
  }

  lemma {:induction false} RunEnd(ts: seq<Thunk>, w: nat)
    requires Contiguous(ts, w)
    ensures Last(ts).iatAddress + w == ts[0].iatAddress + w * |ts|
  {
    FirstBeforeLast(ts, w);
    assert w * |ts| == w * (|ts| - 1) + w;
  }

  lemma {:induction false} TableLength(vs: seq<nat>, w: nat)
    ensures |Dense.TableOf(vs, w)| == w * |vs|
    decreases |vs|
  {
    hide Le;
    if vs != [] {
      TableLength(vs[1..], w);
      assert w * |vs| == w + w * |vs[1..]|;
    }
  }

  // ---- All runs ---------------------------------------------------------------------------------------

  /** The recorded slots lie behind the table's start, and in the dump with the slots behind them. */
  ghost predicate Recorded(ms: seq<Module>, iatRva: nat, n: nat, w: nat)
  {
    forall i :: 0 <= i < |ms| ==> RecordedRun(ms[i].thunks, iatRva, n, w)
  }

  ghost predicate RecordedRun(ts: seq<Thunk>, iatRva: nat, n: nat, w: nat)
  {
    ts != [] && iatRva <= Last(ts).iatAddress && Last(ts).iatAddress + 2 * w <= n
  }

  ghost predicate Owns(ms: seq<Module>, owned: set<nat>)
  {
    forall i, t :: 0 <= i < |ms| && t in ms[i].thunks ==> t.iatAddress as nat in owned
  }

  ghost predicate Behind(ms: seq<Module>, lo: nat)
  {
    forall i :: 0 <= i < |ms| ==> ms[i].thunks != [] && lo <= ms[i].thunks[0].iatAddress
  }

  lemma {:induction false} OwnedOwns(ms: seq<Module>)
    ensures Owns(ms, OwnedBy(ms, true))
    decreases |ms|
  {
    if ms != [] {
      OwnedOwns(ms[1..]);
      forall i, t | 0 <= i < |ms| && t in ms[i].thunks ensures t.iatAddress as nat in OwnedBy(ms, true) {
        if i > 0 {
          assert ms[1..][i - 1] == ms[i];
        }
      }
    }
  }

  /** What the induction over the modules goes on with. */
  ghost predicate Due(ms: seq<Module>, l: Lookup, out: seq<nat>, iatRva: nat, owned: set<nat>, w: nat)
  {
    Separated(ms, w) && Recorded(ms, iatRva, |l.buf|, w) && Owns(ms, owned) && Terminated(out, l.next, ms)
  }

  lemma {:induction false} FirstWritten(l: Lookup, ms: seq<Module>, out: seq<nat>, iatRva: nat, owned: set<nat>, w: nat)
    requires w > 0 && ms != [] && Due(ms, l, out, iatRva, owned, w)
    ensures var r, ts := WriteModule(l, ms[0], out, iatRva, true, owned, w), ms[0].thunks;
      && Contiguous(ts, w) && r.next == l.next + |ts| + 1 && |r.buf| == |l.buf|
      && At(r.buf, ts[0].iatAddress, Dense.TableOf(Values(ts, out, l.next, w), w) + Zeros(w))
      && KeptOutside(l.buf, r.buf, ts[0].iatAddress, Last(ts).iatAddress + 2 * w)
      && Due(ms[1..], r, out, iatRva, owned, w) && Behind(ms[1..], Last(ts).iatAddress + 2 * w)
  {
    hide WriteModule, Contiguous, At, KeptOutside, Values;
    assert Contiguous(ms[0].thunks, w) && RecordedRun(ms[0].thunks, iatRva, |l.buf|, w);
    ModuleWritten(l, ms[0], out, iatRva, owned, w);
    forall i | 0 <= i < |ms[1..]|
      ensures ms[1..][i].thunks != [] && Last(ms[0].thunks).iatAddress + 2 * w <= ms[1..][i].thunks[0].iatAddress
    {
      assert ms[1..][i] == ms[i + 1];
      ChainedRun(ms[i + 1], w);
    }
    RestDue(ms, |l.buf|, iatRva, owned, w);
  }

  lemma {:induction false} RestDue(ms: seq<Module>, n: nat, iatRva: nat, owned: set<nat>, w: nat)
    requires ms != [] && Separated(ms, w) && Recorded(ms, iatRva, n, w) && Owns(ms, owned)
    ensures Separated(ms[1..], w) && Recorded(ms[1..], iatRva, n, w) && Owns(ms[1..], owned)
  {
    hide Contiguous, RecordedRun;
    forall i, t | 0 <= i < |ms[1..]| && t in ms[1..][i].thunks ensures t.iatAddress as nat in owned {
      assert ms[1..][i] == ms[i + 1];
    }
  }

  /** Bytes in front of all runs stay. */
  lemma {:induction false} FrontKept(l: Lookup, ms: seq<Module>, out: seq<nat>, iatRva: nat, owned: set<nat>, w: nat,
      lo: nat)
    requires w > 0 && Due(ms, l, out, iatRva, owned, w) && Behind(ms, lo)
    ensures KeptOutside(l.buf, WriteModules(l, ms, out, iatRva, true, owned, w).buf, lo, |l.buf|)
    decreases |ms|
  {
    hide WriteModule, Contiguous, At, Values, Due;
    if ms != [] {
      FirstWritten(l, ms, out, iatRva, owned, w);
      FirstBeforeLast(ms[0].thunks, w);
      FrontKept(WriteModule(l, ms[0], out, iatRva, true, owned, w), ms[1..], out, iatRva, owned, w,
                Last(ms[0].thunks).iatAddress + 2 * w);
    }
  }

  /** In the end each run holds its values and a zero. */
  lemma {:induction false} RunsWritten(l: Lookup, ms: seq<Module>, out: seq<nat>, iatRva: nat, owned: set<nat>, w: nat,
      i: nat)
    requires w > 0 && Due(ms, l, out, iatRva, owned, w) && i < |ms|
    ensures var r, ts := WriteModules(l, ms, out, iatRva, true, owned, w), ms[i].thunks;
      && ts != []
      && At(r.buf, ts[0].iatAddress,
            Dense.TableOf(Values(ts, out, l.next + Dense.SlotCount(ms[..i]), w), w) + Zeros(w))
    decreases |ms|
  {
    hide WriteModule, Contiguous, At, Values, Due, KeptOutside, Behind, Zeros;
    FirstWritten(l, ms, out, iatRva, owned, w);
    var next, ts := WriteModule(l, ms[0], out, iatRva, true, owned, w), ms[0].thunks;
    FirstBeforeLast(ts, w);
    if i == 0 {
      var lo := Last(ts).iatAddress + 2 * w;
      assert ms[..0] == [];
      FrontKept(next, ms[1..], out, iatRva, owned, w, lo);
      RunEnd(ts, w);
      TableLength(Values(ts, out, l.next, w), w);
      KeptAt(next.buf, WriteModules(l, ms, out, iatRva, true, owned, w).buf, lo, |next.buf|, ts[0].iatAddress,
             Dense.TableOf(Values(ts, out, l.next, w), w) + Zeros(w));
    } else {
      RunsWritten(next, ms[1..], out, iatRva, owned, w, i - 1);
      Dense.PrefixCons(ms, i);
    }
  }

  // ---- What the loader finds --------------------------------------------------------------------------

  /** The dump with the slots of the printed section ms at va. */
  function Loadable(b: bytes, ms: seq<Module>, va: nat, iatRva: nat, w: nat): bytes
    requires w > 0
  {
    LookupWritten(b, ms, Dense.OutThunks(ms, va + NamesAt(ms), w), iatRva, true, w)
  }

  lemma {:induction false} LoadableRun(b: bytes, ms: seq<Module>, va: nat, iatRva: nat, w: nat, i: nat)
    requires w > 0 && Separated(ms, w) && Recorded(ms, iatRva, |b|, w) && i < |ms|
    ensures var out, ts := Dense.OutThunks(ms, va + NamesAt(ms), w), ms[i].thunks;
      && ts != []
      && At(Loadable(b, ms, va, iatRva, w), ts[0].iatAddress,
            Dense.TableOf(Values(ts, out, Dense.SlotCount(ms[..i]), w), w) + Zeros(w))
  {
    hide WriteModules, Dense.OutThunks, Separated, Recorded, Owns, Terminated, Values, At, OwnedBy, Zeros;
    var out := Dense.OutThunks(ms, va + NamesAt(ms), w);
    assert out[0..] == out;
    PrintedTerminated(ms, va + NamesAt(ms), w, out, 0);
    OwnedOwns(ms);
    RunsWritten(Lookup(b, 0), ms, out, iatRva, OwnedBy(ms, true), w, i);
  }

  lemma {:induction false} ValuesAt(ts: seq<Thunk>, out: seq<nat>, next: nat, w: nat, k: nat)
    requires k < |ts|
    ensures Values(ts, out, next, w)[k] == ValueOf(ts[k], out, next + k, w)
    decreases |ts|
  {
    hide ValueOf;
    if k > 0 {
      ValuesAt(ts[1..], out, next + 1, w, k - 1);
    }
  }

  /** Recorded by name and by ordinal: the printer goes by the name, the dump gets the ordinal. */
  predicate TwoWays(t: Thunk) { t.name.Some? && t.ordinal.Some? }

  /** A slot's value is that of its own import, unless it was recorded in both ways. */
  lemma {:induction false} OwnValueIff(t: Thunk, out: seq<nat>, next: nat, hintAt: nat, w: nat)
    requires (w == 4 || w == 8) && hintAt < 0x8000_0000 && next < |out| && out[next] == Slot(t, hintAt, w)
    ensures ValueOf(t, out, next, w) == Slot(t, hintAt, w) <==> !TwoWays(t)
    ensures ValueOf(t, out, next, w) < Range(w)
  {
    RangeValues();
  }

  lemma {:induction false} ImportsIff(data: bytes, va: nat, t: Thunk, out: seq<nat>, next: nat, hintAt: nat, w: nat)
    requires (w == 4 || w == 8) && hintAt < 0x8000_0000 && next < |out| && out[next] == Slot(t, hintAt, w)
    requires Imports(data, va, Slot(t, hintAt, w), t, w)
    ensures var v := ValueOf(t, out, next, w);
      && v == (match t.ordinal
               case Some(n) => (if w == 8 then 0x8000_0000_0000_0000 else 0x8000_0000) + n
               case None => Slot(t, hintAt, w))
      && (Imports(data, va, v, t, w) <==> t.name.None? || t.ordinal.None?)
  {
    hide At;
  }

  lemma {:induction false} RunWord(r: bytes, a: nat, vs: seq<nat>, w: nat, k: nat)
    requires At(r, a, Dense.TableOf(vs, w) + Zeros(w)) && k <= |vs|
    requires k < |vs| ==> vs[k] < Range(w)
    ensures a + w * k + w <= |r| && Get(r, a + w * k, w) == if k < |vs| then vs[k] else 0
  {
    hide Zeros, Get, Range;
    AtSplit(r, a, Dense.TableOf(vs, w), Zeros(w));
    TableLength(vs, w);
    if k < |vs| {
      Dense.TableWord(r, a, vs, w, k);
    } else {
      ZeroWord(r, a + w * k, w);
    }
  }

  /** Module i's k-th value is due at its turn. */
  lemma {:induction false} DueValue(ms: seq<Module>, va: nat, iatRva: nat, w: nat, i: nat, k: nat)
    requires i < |ms| && k < |ms[i].thunks|
    requires va + |Dense.Section(ms, va, iatRva, true, w)| < 0x8000_0000
    ensures var out, at := Dense.OutThunks(ms, va + NamesAt(ms), w), Dense.SlotCount(ms[..i]) + k;
      && at < |out| && out[at] == Slot(ms[i].thunks[k], va + Dense.HintOffset(ms, i, k), w)
      && va + Dense.HintOffset(ms, i, k) < 0x8000_0000
  {
    hide *;
    Dense.ThunkSlot(ms, i, k, va, iatRva, true, w);
    HintInside(ms, i, k, va, iatRva, w);
  }

  lemma {:induction false} HintInside(ms: seq<Module>, i: nat, k: nat, va: nat, iatRva: nat, w: nat)
    requires i < |ms| && k < |ms[i].thunks|
    ensures Dense.HintOffset(ms, i, k) <= |Dense.Section(ms, va, iatRva, true, w)|
  {
    hide *;
    var data := Dense.Section(ms, va, iatRva, true, w);
    Dense.ModuleDescriptor(ms, i, va, iatRva, true, w);
    Dense.NameOffsetIs(ms, i);
    Dense.StringsSplit(data, Dense.NameOffset(ms, i), ms[i]);
    Dense.HintAt(data, Dense.NameOffset(ms, i) + |ms[i].name| + 1, ms[i].thunks, k);
    Dense.AtEnd(data, Dense.HintOffset(ms, i, k), HintBytes(ms[i].thunks[k]));
  }

  lemma {:induction false} RunStart(m: Module, iatRva: nat, offset: nat, w: nat)
    requires Contiguous(m.thunks, w)
    ensures m.thunks != [] && Dense.FirstThunk(m, iatRva, offset, true) == m.thunks[0].iatAddress
  {
    hide Dense.FirstThunk;
    Dense.RecordsRun(m, iatRva, offset, w, 0);
    assert w * 0 == 0;
  }

  /**
   * The classic path, as a loader sees it: the array at a descriptor's FirstThunk ends in a zero behind the
   * module's own slots, and each of them holds the module's own import exactly if that was not recorded both
   * by name and by ordinal.
   */
  lemma {:induction false} ClassicLoaderView(b: bytes, ms: seq<Module>, va: nat, iatRva: nat, w: nat, i: nat, k: nat)
    requires (w == 4 || w == 8) && Separated(ms, w) && Recorded(ms, iatRva, |b|, w)
    requires i < |ms| && k <= |ms[i].thunks| && va + |Dense.Section(ms, va, iatRva, true, w)| < 0x8000_0000
    ensures var r, ts := Loadable(b, ms, va, iatRva, w), ms[i].thunks;
      var o := Dense.FirstThunk(ms[i], iatRva, w * Dense.SlotCount(ms[..i]), true) + w * k;
      && o + w <= |r|
      && if k == |ts| then Get(r, o, w) == 0
         else
           && Get(r, o, w) == (match ts[k].ordinal
                               case Some(n) => (if w == 8 then 0x8000_0000_0000_0000 else 0x8000_0000) + n
                               case None => Slot(ts[k], va + Dense.HintOffset(ms, i, k), w))
           && (Imports(Dense.Section(ms, va, iatRva, true, w), va, Get(r, o, w), ts[k], w)
               <==> ts[k].name.None? || ts[k].ordinal.None?)
  {
    hide *;
    var out, at, ts := Dense.OutThunks(ms, va + NamesAt(ms), w), Dense.SlotCount(ms[..i]), ms[i].thunks;
    SeparatedAt(ms, w, i);
    RunStart(ms[i], iatRva, w * at, w);
    LoadableRun(b, ms, va, iatRva, w, i);
    if k < |ts| {
      DueValue(ms, va, iatRva, w, i, k);
      OwnValueIff(ts[k], out, at + k, va + Dense.HintOffset(ms, i, k), w);
      ValuesAt(ts, out, at, w, k);
      ValueImports(ms, i, k, va, iatRva, true, w);
      ImportsIff(Dense.Section(ms, va, iatRva, true, w), va, ts[k], out, at + k, va + Dense.HintOffset(ms, i, k), w);
    }
    RunWord(Loadable(b, ms, va, iatRva, w), ts[0].iatAddress, Values(ts, out, at, w), w, k);
  }

  lemma {:induction false} SeparatedAt(ms: seq<Module>, w: nat, i: nat)
    requires Separated(ms, w) && i < |ms|
    ensures Contiguous(ms[i].thunks, w)
  {
    hide Contiguous;
  }

  /** Slots recorded behind the table's start and in the dump are so in any arrangement. */
  lemma {:induction false} NormalizedRecorded(valid: Exports, ms: seq<Module>, iatRva: nat, n: nat, w: nat, rest: nat)
    requires (w == 4 || w == 8) && OneTable(ms, w, rest)
    requires forall o :: o in Flat(ms) ==> iatRva <= o.thunk.iatAddress && o.thunk.iatAddress + 2 * w <= n
    ensures Separated(Normalized(valid, ms, w), w) && Recorded(Normalized(valid, ms, w), iatRva, n, w)
  {
    hide Normalized, Flat, Contiguous, OneTable;
    var out := Normalized(valid, ms, w);
    NormalizedSeparated(valid, ms, w, rest);
    forall i | 0 <= i < |out| ensures RecordedRun(out[i].thunks, iatRva, n, w) {
      ChainedRun(out[i], w);
      NormalizedPairs(valid, ms, w, i, Last(out[i].thunks));
    }
  }

  /**
   * Whatever was recorded: normalized, printed and written into the dump, every descriptor's array holds its
   * own imports and then a zero.
   */
  lemma {:induction false} NormalizedLoaderView(valid: Exports, recorded: seq<Module>, rest: nat, b: bytes, va: nat,
      iatRva: nat, w: nat, i: nat, k: nat)
    requires (w == 4 || w == 8) && OneTable(recorded, w, rest)
    requires forall o :: o in Flat(recorded) ==> iatRva <= o.thunk.iatAddress && o.thunk.iatAddress + 2 * w <= |b|
    requires var ms := Normalized(valid, recorded, w);
      i < |ms| && k <= |ms[i].thunks| && va + |Dense.Section(ms, va, iatRva, true, w)| < 0x8000_0000
    ensures var ms := Normalized(valid, recorded, w);
      var r, ts := Loadable(b, ms, va, iatRva, w), ms[i].thunks;
      var o := Dense.FirstThunk(ms[i], iatRva, w * Dense.SlotCount(ms[..i]), true) + w * k;
      && o + w <= |r|
      && if k == |ts| then Get(r, o, w) == 0
         else
           && Get(r, o, w) == (match ts[k].ordinal
                               case Some(n) => (if w == 8 then 0x8000_0000_0000_0000 else 0x8000_0000) + n
                               case None => Slot(ts[k], va + Dense.HintOffset(ms, i, k), w))
           && (Imports(Dense.Section(ms, va, iatRva, true, w), va, Get(r, o, w), ts[k], w)
               <==> ts[k].name.None? || ts[k].ordinal.None?)
  {
    hide *;
    NormalizedRecorded(valid, recorded, iatRva, |b|, w, rest);
    ClassicLoaderView(b, Normalized(valid, recorded, w), va, iatRva, w, i, k);
  }

  // ---- Where the metadata walk finds the runs ---------------------------------------------------------

  lemma {:induction false} SlotsPrinted(ts: seq<Thunk>, hintAt: nat, w: nat)
    ensures Dense.TableOf(Dense.SlotValues(ts, hintAt, w), w) == SlotBytes(ts, hintAt, w)
    decreases |ts|
  {
    hide Slot, Le;
    if ts != [] {
      var rest := Dense.SlotValues(ts[1..], hintAt + HintSize(ts[0]), w);
      SlotsPrinted(ts[1..], hintAt + HintSize(ts[0]), w);
      assert ([Slot(ts[0], hintAt, w)] + rest)[1..] == rest;
    }
  }

  ghost predicate OneWay(ms: seq<Module>)
  {
    forall i, t :: 0 <= i < |ms| && t in ms[i].thunks ==> !TwoWays(t)
  }

  lemma {:induction false} OneWayAt(ms: seq<Module>, i: nat, k: nat)
    requires OneWay(ms) && i < |ms| && k < |ms[i].thunks|
    ensures !TwoWays(ms[i].thunks[k])
  {
    hide TwoWays;
    assert ms[i].thunks[k] in ms[i].thunks;
  }

  /** With each import recorded in one way, a run holds exactly the printed slots. */
  lemma {:induction false} RunSlots(b: bytes, ms: seq<Module>, va: nat, iatRva: nat, w: nat, i: nat)
    requires (w == 4 || w == 8) && Separated(ms, w) && Recorded(ms, iatRva, |b|, w) && OneWay(ms)
    requires i < |ms| && va + |Dense.Section(ms, va, iatRva, true, w)| < 0x8000_0000
    ensures ms[i].thunks != []
    ensures At(Loadable(b, ms, va, iatRva, w), ms[i].thunks[0].iatAddress,
               SlotBytes(ms[i].thunks, HintsOf(ms, i, va), w) + Zeros(w))
  {
    hide *;
    var out, at, ts, hints := Dense.OutThunks(ms, va + NamesAt(ms), w), Dense.SlotCount(ms[..i]), ms[i].thunks,
      HintsOf(ms, i, va);
    LoadableRun(b, ms, va, iatRva, w, i);
    HintsIs(ms, i, va);
    Dense.NameOffsetIs(ms, i);
    forall k: nat | k < |ts| ensures Values(ts, out, at, w)[k] == Dense.SlotValues(ts, hints, w)[k] {
      DueValue(ms, va, iatRva, w, i, k);
      OneWayAt(ms, i, k);
      OwnValueIff(ts[k], out, at + k, va + Dense.HintOffset(ms, i, k), w);
      ValuesAt(ts, out, at, w, k);
      Dense.SlotValueAt(ts, hints, w, k);
    }
    assert Values(ts, out, at, w) == Dense.SlotValues(ts, hints, w);
    SlotsPrinted(ts, hints, w);
  }

  /** The file has the len bytes at rva that the dump has there. */
  ghost predicate Carried(h: Pe.Header, data: bytes, mem: bytes, rva: nat, len: nat)
  {
    && rva + len <= |mem| && Pe.RvaToOffset(h, rva).Some?
    && At(data, Pe.RvaToOffset(h, rva).value, mem[rva..rva + len])
  }

  lemma {:induction false} CarriedAt(h: Pe.Header, data: bytes, mem: bytes, rva: nat, s: bytes)
    requires At(mem, rva, s) && Carried(h, data, mem, rva, |s|)
    ensures Pe.RvaToOffset(h, rva).Some? && At(data, Pe.RvaToOffset(h, rva).value, s)
  {
  }

  lemma {:induction false} RecordsStand(h: Pe.Header, data: bytes, b: bytes, ms: seq<Module>, va: nat, iatRva: nat,
      w: nat, i: nat)
    requires (w == 4 || w == 8) && Separated(ms, w) && Recorded(ms, iatRva, |b|, w) && OneWay(ms)
    requires i < |ms| && va + |Dense.Section(ms, va, iatRva, true, w)| < 0x8000_0000
    requires ms[i].thunks != [] && 0 < ms[i].thunks[0].iatAddress
    requires Carried(h, data, Loadable(b, ms, va, iatRva, w), ms[i].thunks[0].iatAddress, TableSize(ms[i], w))
    ensures SlotsStand(h, data, ms, i, va, iatRva, true, w)
  {
    hide *;
    var first := ms[i].thunks[0].iatAddress;
    SeparatedAt(ms, w, i);
    RunStart(ms[i], iatRva, w * Dense.SlotCount(ms[..i]), w);
    FirstOfIs(ms, i, iatRva, w);
    RunSlots(b, ms, va, iatRva, w, i);
    RunSize(ms[i], HintsOf(ms, i, va), w);
    CarriedAt(h, data, Loadable(b, ms, va, iatRva, w), first,
              SlotBytes(ms[i].thunks, HintsOf(ms, i, va), w) + Zeros(w));
    StandsAt(h, data, ms, i, va, iatRva, w);
  }

  lemma {:induction false} FirstOfIs(ms: seq<Module>, i: nat, iatRva: nat, w: nat)
    requires i < |ms|
    ensures FirstOf(ms, i, iatRva, true, w)
         == Dense.FirstThunk(ms[i], iatRva, w * Dense.SlotCount(ms[..i]), true)
  {
    hide Dense.FirstThunk, Dense.SlotCount;
  }

  lemma {:induction false} RunSize(m: Module, hintAt: nat, w: nat)
    ensures |SlotBytes(m.thunks, hintAt, w) + Zeros(w)| == TableSize(m, w)
  {
    hide SlotBytes;
    SlotBytesLength(m.thunks, hintAt, w);
    TableSizeSplit(m, w);
  }

  lemma {:induction false} StandsAt(h: Pe.Header, data: bytes, ms: seq<Module>, i: nat, va: nat, iatRva: nat, w: nat)
    requires i < |ms| && 0 < FirstOf(ms, i, iatRva, true, w) < TWO32
    requires Pe.RvaToOffset(h, FirstOf(ms, i, iatRva, true, w)).Some?
    requires At(data, Pe.RvaToOffset(h, FirstOf(ms, i, iatRva, true, w)).value,
                SlotBytes(ms[i].thunks, HintsOf(ms, i, va), w) + Zeros(w))
    ensures SlotsStand(h, data, ms, i, va, iatRva, true, w)
  {
    hide SlotBytes, FirstOf, HintsOf, Pe.OffsetIn, At;
  }

  /** Records mode: a file that carries the runs of the dump is a rebuilt one, so nothing in them gets relocated. */
  lemma {:induction false} RecordsRebuilt(h: Pe.Header, data: bytes, raw: nat, b: bytes, ms: seq<Module>, iatRva: nat,
      w: nat)
    requires (w == 4 || w == 8) && Separated(ms, w) && Recorded(ms, iatRva, |b|, w) && OneWay(ms)
    requires var va, sec := h.importRva, Dense.Section(ms, h.importRva, iatRva, true, w);
      0 < va && va + |sec| < 0x8000_0000 && Mapped(h, data, sec, va, raw)
    requires |ms| <= 511 && forall i :: 0 <= i < |ms| ==> WalkableModule(ms[i], w)
    requires forall i :: 0 <= i < |ms| ==>
      && ms[i].thunks != [] && 0 < ms[i].thunks[0].iatAddress
      && Carried(h, data, Loadable(b, ms, h.importRva, iatRva, w), ms[i].thunks[0].iatAddress, TableSize(ms[i], w))
    ensures Rebuilt(h, data, raw, ms, iatRva, true, w)
  {
    hide Mapped, WalkableModule, SlotsStand, Dense.Section, Separated, Recorded, OneWay, Carried, Loadable, TableSize;
    forall i | 0 <= i < |ms| ensures SlotsStand(h, data, ms, i, h.importRva, iatRva, true, w) {
      RecordsStand(h, data, b, ms, h.importRva, iatRva, w, i);
    }
  }

  // ---- A slot outside the dump ------------------------------------------------------------------------

  function Skipping(): seq<Module>
  {
    [Module([0x61], [Thunk(100, Some([0x78]), None)]), Module([0x62], [Thunk(0, Some([0x79]), None)])]
  }

  /** The first module's slot lies behind a dump of 16 bytes: the second one's gets the first one's import. */
  lemma {:induction false} SkippedSlotShifts(v: nat, u: nat)
    requires 0 < v < TWO64
    ensures Get(LookupWritten(Zeros(16), Skipping(), [v, 0, u, 0], 0, true, 8), 0, 8) == v
  {
    hide Get, Le, OwnedBy, Put, Zeros;
    var ms, out, b, owned := Skipping(), [v, 0, u, 0], Zeros(16), OwnedBy(Skipping(), true);
    assert ms[1..] == [Module([0x62], [Thunk(0, Some([0x79]), None)])] && ms[1..][1..] == [];
    var ts, us := ms[0].thunks, ms[1].thunks;
    assert ts[1..] == [] && us[1..] == [];
    var l := Lookup(b, 0);
    assert WriteModule(l, ms[0], out, 0, true, owned, 8) == l;
    var c := Put(b, 0, Le(v, 8));
    assert WriteSlots(l, us, out, 8) == Lookup(c, 1);
    assert WriteModule(l, ms[1], out, 0, true, owned, 8) == Lookup(Put(c, 8, Zeros(8)), 2);
    RangeValues();
    GetPut(b, 0, v, 8);
    SlotPut(c, 8, Zeros(8));
    GetFrame(Put(c, 8, Zeros(8)), c, 0, 8);
  }
}
