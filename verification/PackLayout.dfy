/** Closing large gaps between sections in place (pack_section_layout in crates/pe/src/postprocess.rs). */
module PackLayout {
  import opened Options
  import opened Words
  import opened Pe

  const GAP: nat := 0x10_0000

  /** The bits of a that are not set in b. */
  function AndNot(a: nat, b: nat): nat
    decreases a
  {
    if a == 0 then 0 else (if a % 2 == 1 && b % 2 == 0 then 1 else 0) + 2 * AndNot(a / 2, b / 2)
  }

  /** The low bits masked off, as the program rounds up; it stops on alignment 0. */
  function Align(n: nat, fa: nat): nat { if fa == 0 then 0 else AndNot(n + fa - 1, fa - 1) }

  /** The file alignments for which masking rounds up. */
  predicate PowerOfTwo(n: nat)
  {
    n == 1 || (n > 1 && n % 2 == 0 && PowerOfTwo(n / 2))
  }

  lemma {:induction false} AndNotZero(a: nat)
    ensures AndNot(a, 0) == a
  {
    if a != 0 {
      AndNotZero(a / 2);
    }
  }

  lemma {:induction false} ModTwice(a: nat, g: nat)
    requires g > 0
    ensures a % (2 * g) == a % 2 + 2 * (a / 2 % g)
  {
    var q, r := a / 2 / g, a / 2 % g;
    assert a / 2 == g * q + r;
    assert a == (2 * g) * q + (a % 2 + 2 * r) by {
      Associate(2, g, q);
    }
    ModUnique(a, 2 * g, q, a % 2 + 2 * r);
  }

  /** Masking with a power of two takes the remainder off. */
  lemma {:induction false} MaskIsMod(a: nat, fa: nat)
    requires PowerOfTwo(fa)
    ensures AndNot(a, fa - 1) == a - a % fa
    decreases fa
  {
    if fa == 1 {
      AndNotZero(a);
    } else {
      var g := fa / 2;
      ModTwice(a, g);
      MaskIsMod(a / 2, g);
    }
  }

  /** For a power of two masking is rounding up.  */
  lemma {:induction false} AlignIsAlignUp(n: nat, fa: nat)
    requires PowerOfTwo(fa)
    ensures Align(n, fa) == AlignUp(n, fa)
  {
    hide AlignUp, AndNot;
    var v := n + fa - 1;
    MaskIsMod(v, fa);
    Remainder(v, fa);
    AlignUpExact(n, fa, v - v % fa);
  }

  lemma {:induction false} Remainder(v: nat, a: nat)
    requires a > 0
    ensures 0 <= v - v % a && (v - v % a) % a == 0
  {
    ModUnique(v - v % a, a, v / a, 0);
  }

  lemma {:induction false} AlignBounds(n: nat, fa: nat)
    requires PowerOfTwo(fa)
    ensures fa > 0 && n <= Align(n, fa) < n + fa && Align(n, fa) % fa == 0
  {
    hide AlignUp, Align;
    AlignIsAlignUp(n, fa);
  }

  /** len bytes of section idx go from one raw offset to another. */
  datatype Move = Move(idx: nat, from: nat, len: nat, to: nat)

  function End(s: Section): nat { s.rawOffset + s.rawSize }

  /** The section starts more than the threshold behind prev, and inside a file of n bytes. */
  predicate Far(s: Section, prev: nat, n: nat) { s.rawOffset > prev + GAP && s.rawOffset < n }

  predicate Moves(s: Section, prev: nat, n: nat) { Far(s, prev, n) && Min(End(s), n) > s.rawOffset }

  function MoveOf(s: Section, idx: nat, prev: nat, n: nat, fa: nat): Move
    requires Moves(s, prev, n)
  {
    Move(idx, s.rawOffset, Min(End(s), n) - s.rawOffset, Align(prev, fa))
  }

  /** The end of what has been laid out once s is. */
  function NextEnd(s: Section, prev: nat, n: nat, fa: nat): nat
  {
    if Moves(s, prev, n) then Align(prev, fa) + (Min(End(s), n) - s.rawOffset)
    else if Far(s, prev, n) then End(s)
    else Max(End(s), prev)
  }

  /** The moves for sections i on, everything before ending at prev. */
  function Plan(ss: seq<Section>, i: nat, prev: nat, n: nat, fa: nat): seq<Move>
    decreases |ss| - i
  {
    if i >= |ss| then []
    else
      (if Moves(ss[i], prev, n) then [MoveOf(ss[i], i, prev, n, fa)] else [])
      + Plan(ss, i + 1, NextEnd(ss[i], prev, n, fa), n, fa)
  }

  /** The bytes copied, and the section's PointerToRawData updated, if its header is in the file. */
  function ApplyMove(data: bytes, m: Move, table: nat): bytes
    requires m.from + m.len <= |data|
  {
    var d := Put(Grown(data, m.to + m.len), m.to, data[m.from..m.from + m.len]);
    var o := table + m.idx * SECTION_HEADER;
    if o + SECTION_HEADER <= |d| then Put(d, o + 20, Le(m.to, 4)) else d
  }

  function ApplyMoves(data: bytes, ms: seq<Move>, table: nat): bytes
    requires forall k :: 0 <= k < |ms| ==> ms[k].from + ms[k].len <= |data|
    decreases |ms|
  {
    if ms == [] then data
    else
      assert ms[0].from + ms[0].len <= |data|;
      var next := ApplyMove(data, ms[0], table);
      assert |next| >= |data|;
      ApplyMoves(next, ms[1..], table)
  }

  /** Where section idx starts once the moves are done. */
  function NewPointer(ms: seq<Move>, idx: nat, ptr: nat): nat
  {
    if ms == [] then ptr else if ms[0].idx == idx then ms[0].to else NewPointer(ms[1..], idx, ptr)
  }

  /** The last end of any of the sections i on. */
  function MaxEnd(ss: seq<Section>, ms: seq<Move>, i: nat): nat
    decreases |ss| - i
  {
    if i >= |ss| then 0 else Max(NewPointer(ms, i, ss[i].rawOffset) + ss[i].rawSize, MaxEnd(ss, ms, i + 1))
  }

  function Truncate(data: bytes, n: nat): bytes { if n < |data| then data[..n] else data }

  lemma {:induction false} PlanInside(ss: seq<Section>, i: nat, prev: nat, n: nat, fa: nat)
    ensures forall k :: 0 <= k < |Plan(ss, i, prev, n, fa)| ==>
      var m := Plan(ss, i, prev, n, fa)[k]; m.from + m.len <= n && i <= m.idx < |ss|
    decreases |ss| - i
  {
    hide Align;
    if i < |ss| {
      PlanInside(ss, i + 1, NextEnd(ss[i], prev, n, fa), n, fa);
    }
  }

  function Packed(data: bytes, h: Header): bytes
    requires 64 <= |data|
  {
    var plan := Plan(h.sections, 0, 0, |data|, h.fileAlignment);
    PlanInside(h.sections, 0, 0, |data|, h.fileAlignment);
    Truncate(ApplyMoves(data, plan, Get(data, 60, 4) + 24 + h.optionalSize), MaxEnd(h.sections, plan, 0))
  }

  // ---- The packing as the program runs it -----------------------------------------------------

  /** Not ok where the program stops: a move whose target cannot be rounded. */
  method PlanMoves(ss: seq<Section>, n: nat, fa: nat) returns (ok: bool, moves: seq<Move>)
    ensures ok <==> fa > 0 || Plan(ss, 0, 0, n, fa) == []
    ensures ok ==> moves == Plan(ss, 0, 0, n, fa)
  {
    hide Plan, Moves, MoveOf, NextEnd;
    ok, moves := true, [];
    var prev: nat := 0;
    for i := 0 to |ss|
      invariant ok && moves + Plan(ss, i, prev, n, fa) == Plan(ss, 0, 0, n, fa)
      invariant fa == 0 ==> moves == []
    {
      PlanOpen(ss, i, prev, n, fa);
      var move;
      ok, move, prev := PlanSection(ss[i], i, prev, n, fa);
      if !ok {
        return;
      }
      if move.Some? {
        moves := moves + [move.value];
      }
    }
    PlanEnd(ss, |ss|, prev, n, fa);
  }

  lemma {:induction false} PlanEnd(ss: seq<Section>, i: nat, prev: nat, n: nat, fa: nat)
    requires i >= |ss|
    ensures Plan(ss, i, prev, n, fa) == []
  {
  }

  /** Whether a section moves, and what has been laid out afterwards. */
  method PlanSection(s: Section, i: nat, prev: nat, n: nat, fa: nat)
    returns (ok: bool, move: Option<Move>, next: nat)
    ensures ok <==> fa > 0 || !Moves(s, prev, n)
    ensures ok ==> move == if Moves(s, prev, n) then Some(MoveOf(s, i, prev, n, fa)) else None
    ensures ok ==> next == NextEnd(s, prev, n, fa)
  {
    hide Align;
    ok, move, next := true, None, prev;
    var gap := if s.rawOffset > prev then s.rawOffset - prev else 0;
    if gap > GAP && s.rawOffset < n {
      var len := Min(End(s), n) - s.rawOffset;
      if len > 0 {
        if fa == 0 {
          ok := false;
          return;
        }
        var to := Align(prev, fa);
        move := Some(Move(i, s.rawOffset, len, to));
        next := to + len;
      } else {
        next := End(s);
      }
    } else {
      next := Max(End(s), prev);
    }
  }

  method MoveSection(image: Image, m: Move, table: nat)
    requires m.from + m.len <= |image.data|
    modifies image
    ensures image.data == ApplyMove(old(image.data), m, table)
  {
    hide Le;
    var copy := image.data[m.from..m.from + m.len];
    var needed := m.to + m.len;
    if needed > |image.data| {
      image.data := image.data + Zeros(needed - |image.data|);
    }
    image.data := Put(image.data, m.to, copy);
    var header := table + m.idx * SECTION_HEADER;
    if header + SECTION_HEADER <= |image.data| {
      image.data := Put(image.data, header + 20, Le(m.to, 4));
    }
  }

  method MoveSections(image: Image, moves: seq<Move>, table: nat)
    requires forall k :: 0 <= k < |moves| ==> moves[k].from + moves[k].len <= |image.data|
    modifies image
    ensures image.data == ApplyMoves(old(image.data), moves, table)
  {
    hide ApplyMove;
    for k := 0 to |moves|
      invariant |image.data| >= |old(image.data)|
      invariant ApplyMoves(image.data, moves[k..], table) == ApplyMoves(old(image.data), moves, table)
    {
      assert moves[k..][0] == moves[k] && moves[k..][1..] == moves[k + 1..];
      MoveGrows(image.data, moves[k], table);
      MoveSection(image, moves[k], table);
    }
  }

  lemma {:induction false} MoveGrows(data: bytes, m: Move, table: nat)
    requires m.from + m.len <= |data|
    ensures |ApplyMove(data, m, table)| >= |data|
  {
  }

  method LastEnd(ss: seq<Section>, moves: seq<Move>) returns (maxEnd: nat)
    ensures maxEnd == MaxEnd(ss, moves, 0)
  {
    hide NewPointer;
    maxEnd := 0;
    for i := 0 to |ss|
      invariant Max(maxEnd, MaxEnd(ss, moves, i)) == MaxEnd(ss, moves, 0)
    {
      var ptr := FindPointer(moves, i, ss[i].rawOffset);
      var end := ptr + ss[i].rawSize;
      if end > maxEnd {
        maxEnd := end;
      }
    }
  }

  method FindPointer(moves: seq<Move>, idx: nat, ptr: nat) returns (r: nat)
    ensures r == NewPointer(moves, idx, ptr)
  {
    for k := 0 to |moves|
      invariant NewPointer(moves[k..], idx, ptr) == NewPointer(moves, idx, ptr)
    {
      assert moves[k..][0] == moves[k] && moves[k..][1..] == moves[k + 1..];
      if moves[k].idx == idx {
        return moves[k].to;
      }
    }
    r := ptr;
  }

  /** A file too short for a DOS header is refused untouched. */
  method PackSectionLayout(image: Image, h: Header) returns (r: Outcome)
    modifies image
    ensures r == if |old(image.data)| < 64 then NotAnImage
                 else if h.fileAlignment == 0 && Plan(h.sections, 0, 0, |old(image.data)|, 0) != [] then Panic
                 else Done
    ensures image.data == if r == Done then Packed(old(image.data), h) else old(image.data)
  {
    hide Plan, ApplyMoves, MaxEnd, Get;
    if |image.data| < 64 {
      return NotAnImage;
    }
    var table := Get(image.data, 60, 4) + 24 + h.optionalSize;
    var ok, moves := PlanMoves(h.sections, |image.data|, h.fileAlignment);
    if !ok {
      return Panic;
    }
    PlanInside(h.sections, 0, 0, |image.data|, h.fileAlignment);
    MoveSections(image, moves, table);
    var maxEnd := LastEnd(h.sections, moves);
    if maxEnd < |image.data| {
      image.data := image.data[..maxEnd];
    }
    r := Done;
  }

  // ---- No byte is lost -----------------------------------------------------------------------------

  predicate Nonempty(s: Section) { s.rawSize > 0 }

  /** The raw ranges that hold anything come in ascending order, apart, inside the file and behind the headers. */
  ghost predicate Ascending(ss: seq<Section>, lo: nat, n: nat)
  {
    && (forall i :: 0 <= i < |ss| && Nonempty(ss[i]) ==> lo <= ss[i].rawOffset && End(ss[i]) <= n)
    && (forall i, j :: 0 <= i < j < |ss| && Nonempty(ss[i]) && Nonempty(ss[j]) ==> End(ss[i]) <= ss[j].rawOffset)
  }

  /** The first section that holds anything, from i on. */
  function First(ss: seq<Section>, i: nat): (f: nat)
    requires i <= |ss|
    ensures i <= f <= |ss| && (f < |ss| ==> Nonempty(ss[f])) && forall j :: i <= j < f ==> !Nonempty(ss[j])
    decreases |ss| - i
  {
    if i == |ss| || Nonempty(ss[i]) then i else First(ss, i + 1)
  }

  /** That section is far from what has been laid out, and lands below lo. */
  predicate Lands(ss: seq<Section>, i: nat, prev: nat, lo: nat, fa: nat)
    decreases |ss| - i
  {
    && i < |ss|
    && if Nonempty(ss[i]) then ss[i].rawOffset > prev + GAP && Align(prev, fa) < lo
       else Lands(ss, i + 1, Max(prev, ss[i].rawOffset), lo, fa)
  }

  /** What is still to be laid out stands in d as it did in the file. */
  ghost predicate Pending(data: bytes, d: bytes, ss: seq<Section>, i: nat)
  {
    && |d| == |data|
    && forall j :: i <= j < |ss| && Nonempty(ss[j]) && End(ss[j]) <= |data| ==>
         d[ss[j].rawOffset..End(ss[j])] == data[ss[j].rawOffset..End(ss[j])]
  }

  /** The state of the layout loop: lo bounds the headers, n is the file's size, prev the end laid out so far. */
  ghost predicate Ready(data: bytes, d: bytes, ss: seq<Section>, i: nat, prev: nat, lo: nat, fa: nat)
  {
    && i <= |ss| && Ascending(ss, lo, |data|) && Pending(data, d, ss, i)
    && PowerOfTwo(fa) && fa <= GAP && !Lands(ss, i, prev, lo, fa)
  }

  lemma {:induction false} MoveTarget(prev: nat, fa: nat, s: Section, n: nat)
    requires PowerOfTwo(fa) && fa <= GAP && Moves(s, prev, n)
    ensures fa > 0 && prev <= Align(prev, fa) < s.rawOffset && Align(prev, fa) % fa == 0
    ensures Align(prev, fa) + (Min(End(s), n) - s.rawOffset) < Min(End(s), n)
  {
    hide Align, PowerOfTwo;
    AlignBounds(prev, fa);
  }

  lemma {:induction false} AscendingAt(ss: seq<Section>, lo: nat, n: nat, i: nat)
    requires Ascending(ss, lo, n) && i < |ss| && Nonempty(ss[i])
    ensures lo <= ss[i].rawOffset && End(ss[i]) <= n
    ensures forall j :: i < j < |ss| && Nonempty(ss[j]) ==> End(ss[i]) <= ss[j].rawOffset
  {
  }

  /** Moving section i: it arrives whole, behind the headers, in front of where it was. */
  lemma {:induction false} MoveArrives(data: bytes, d: bytes, ss: seq<Section>, i: nat, prev: nat, lo: nat, fa: nat)
    requires Ready(data, d, ss, i, prev, lo, fa) && i < |ss| && Moves(ss[i], prev, |data|)
    ensures Nonempty(ss[i]) && End(ss[i]) <= |data| && Min(End(ss[i]), |data|) == End(ss[i])
    ensures var m := MoveOf(ss[i], i, prev, |data|, fa);
      && m.from == ss[i].rawOffset && m.len == ss[i].rawSize && m.from + m.len <= |d| && lo <= m.to && prev <= m.to
      && m.to + m.len < End(ss[i]) && m.to % fa == 0
      && d[m.from..m.from + m.len] == data[m.from..m.from + m.len]
  {
    hide Align;
    AscendingAt(ss, lo, |data|, i);
    MoveTarget(prev, fa, ss[i], |data|);
  }

  lemma {:induction false} MoveEffect(d: bytes, m: Move, table: nat, lo: nat)
    requires m.from + m.len <= |d| && m.to + m.len <= |d| && lo <= m.to
    requires table + m.idx * SECTION_HEADER + SECTION_HEADER <= lo <= |d|
    ensures var r, field := ApplyMove(d, m, table), table + m.idx * SECTION_HEADER + 20;
      && |r| == |d| && r[m.to..m.to + m.len] == d[m.from..m.from + m.len] && At(r, field, Le(m.to, 4))
      && forall k :: 0 <= k < |d| && !(m.to <= k < m.to + m.len) && !(field <= k < field + 4) ==> r[k] == d[k]
  {
    hide Le;
    var field := table + m.idx * SECTION_HEADER + 20;
    var e := Put(d, m.to, d[m.from..m.from + m.len]);
    assert e[m.to..m.to + m.len] == d[m.from..m.from + m.len];
    var r := ApplyMove(d, m, table);
    assert r == Put(e, field, Le(m.to, 4));
    assert r[m.to..m.to + m.len] == e[m.to..m.to + m.len];
    assert r[field..field + 4] == Le(m.to, 4);
  }

  /** The state after section i, whether it moves or not. */
  function After(d: bytes, ss: seq<Section>, i: nat, prev: nat, n: nat, fa: nat, table: nat): (r: bytes)
    requires i < |ss| && n == |d|
  {
    if Moves(ss[i], prev, n) then ApplyMove(d, MoveOf(ss[i], i, prev, n, fa), table) else d
  }

  /** One step of the layout keeps the loop's state. */
  lemma {:induction false} StepReady(data: bytes, d: bytes, ss: seq<Section>, i: nat, prev: nat, lo: nat, fa: nat,
      table: nat)
    requires Ready(data, d, ss, i, prev, lo, fa) && i < |ss| && table + |ss| * SECTION_HEADER <= lo <= |data|
    ensures prev <= NextEnd(ss[i], prev, |data|, fa)
    ensures Ready(data, After(d, ss, i, prev, |data|, fa, table), ss, i + 1, NextEnd(ss[i], prev, |data|, fa), lo, fa)
  {
    hide ApplyMove, Align, Lands, PowerOfTwo;
    LandsOpen(ss, i, prev, lo, fa);
    if Moves(ss[i], prev, |data|) {
      MoveArrives(data, d, ss, i, prev, lo, fa);
      AscendingAt(ss, lo, |data|, i);
      MoveEffect(d, MoveOf(ss[i], i, prev, |data|, fa), table, lo);
      PendingAfter(data, d, After(d, ss, i, prev, |data|, fa, table), ss, i, lo);
      LandsAbove(ss, i + 1, NextEnd(ss[i], prev, |data|, fa), lo, fa);
    } else if Nonempty(ss[i]) {
      AscendingAt(ss, lo, |data|, i);
      LandsAbove(ss, i + 1, NextEnd(ss[i], prev, |data|, fa), lo, fa);
    }
  }

  lemma {:induction false} LandsOpen(ss: seq<Section>, i: nat, prev: nat, lo: nat, fa: nat)
    requires i < |ss|
    ensures Lands(ss, i, prev, lo, fa)
         == if Nonempty(ss[i]) then ss[i].rawOffset > prev + GAP && Align(prev, fa) < lo
            else Lands(ss, i + 1, Max(prev, ss[i].rawOffset), lo, fa)
  {
  }

  /** Once the layout is behind the headers, nothing lands on them. */
  lemma {:induction false} LandsAbove(ss: seq<Section>, i: nat, prev: nat, lo: nat, fa: nat)
    requires PowerOfTwo(fa) && lo <= prev
    ensures !Lands(ss, i, prev, lo, fa)
    decreases |ss| - i
  {
    hide Align, PowerOfTwo;
    AlignBounds(prev, fa);
    if i < |ss| {
      LandsAbove(ss, i + 1, Max(prev, ss[i].rawOffset), lo, fa);
    }
  }

  /** Bytes from where section i ended on are still those of d. */
  lemma {:induction false} PendingAfter(data: bytes, d: bytes, r: bytes, ss: seq<Section>, i: nat, lo: nat)
    requires i < |ss| && Nonempty(ss[i]) && Ascending(ss, lo, |data|) && Pending(data, d, ss, i) && |r| == |d|
    requires forall k :: End(ss[i]) <= k < |d| ==> r[k] == d[k]
    ensures Pending(data, r, ss, i + 1)
  {
    forall j | i + 1 <= j < |ss| && Nonempty(ss[j]) && End(ss[j]) <= |data|
      ensures r[ss[j].rawOffset..End(ss[j])] == data[ss[j].rawOffset..End(ss[j])]
    {
      assert r[ss[j].rawOffset..End(ss[j])] == d[ss[j].rawOffset..End(ss[j])];
    }
  }

  /** What the layout from section i on makes of d. */
  function Rest(d: bytes, ss: seq<Section>, i: nat, prev: nat, fa: nat, table: nat): bytes
  {
    PlanInside(ss, i, prev, |d|, fa);
    ApplyMoves(d, Plan(ss, i, prev, |d|, fa), table)
  }

  lemma {:induction false} RestOpen(d: bytes, ss: seq<Section>, i: nat, prev: nat, fa: nat, table: nat)
    requires i < |ss| && |After(d, ss, i, prev, |d|, fa, table)| == |d|
    ensures Rest(d, ss, i, prev, fa, table)
         == Rest(After(d, ss, i, prev, |d|, fa, table), ss, i + 1, NextEnd(ss[i], prev, |d|, fa), fa, table)
  {
    hide ApplyMove, Align, NextEnd, Moves, MoveOf;
    PlanInside(ss, i, prev, |d|, fa);
    PlanInside(ss, i + 1, NextEnd(ss[i], prev, |d|, fa), |d|, fa);
    PlanOpen(ss, i, prev, |d|, fa);
  }

  lemma {:induction false} PlanOpen(ss: seq<Section>, i: nat, prev: nat, n: nat, fa: nat)
    requires i < |ss|
    ensures var rest := Plan(ss, i + 1, NextEnd(ss[i], prev, n, fa), n, fa);
      Plan(ss, i, prev, n, fa) == if Moves(ss[i], prev, n) then [MoveOf(ss[i], i, prev, n, fa)] + rest else rest
  {
    hide NextEnd, Moves, MoveOf;
  }

  lemma {:induction false} RestEnd(d: bytes, ss: seq<Section>, i: nat, prev: nat, fa: nat, table: nat)
    requires i >= |ss|
    ensures Rest(d, ss, i, prev, fa, table) == d
  {
  }

  /** Behind the headers, what has been laid out stays. */
  lemma {:induction false} LaidStays(data: bytes, d: bytes, ss: seq<Section>, i: nat, prev: nat, lo: nat, fa: nat,
      table: nat)
    requires Ready(data, d, ss, i, prev, lo, fa) && table + |ss| * SECTION_HEADER <= lo <= |data|
    ensures var r := Rest(d, ss, i, prev, fa, table);
      |r| == |d| && forall k :: lo <= k < prev && k < |d| ==> r[k] == d[k]
    decreases |ss| - i
  {
    hide *;
    ReadyBounds(data, d, ss, i, prev, lo, fa);
    if i >= |ss| {
      RestEnd(d, ss, i, prev, fa, table);
    } else {
      var next, e := After(d, ss, i, prev, |data|, fa, table), NextEnd(ss[i], prev, |data|, fa);
      StepReady(data, d, ss, i, prev, lo, fa, table);
      ReadyBounds(data, next, ss, i + 1, e, lo, fa);
      LaidStays(data, next, ss, i + 1, e, lo, fa, table);
      RestOpen(d, ss, i, prev, fa, table);
      AfterStays(data, d, ss, i, prev, lo, fa, table);
    }
  }

  lemma {:induction false} ReadyBounds(data: bytes, d: bytes, ss: seq<Section>, i: nat, prev: nat, lo: nat, fa: nat)
    requires Ready(data, d, ss, i, prev, lo, fa)
    ensures |d| == |data| && i <= |ss|
  {
  }

  /** Byte k is in the PointerToRawData field of section i. */
  predicate InOwnField(table: nat, i: nat, k: nat)
  {
    table + i * SECTION_HEADER + 20 <= k < table + i * SECTION_HEADER + 24
  }

  /** One step writes where nothing has been laid out, or the moved section's pointer field. */
  lemma {:induction false} AfterStays(data: bytes, d: bytes, ss: seq<Section>, i: nat, prev: nat, lo: nat, fa: nat,
      table: nat)
    requires Ready(data, d, ss, i, prev, lo, fa) && i < |ss| && table + |ss| * SECTION_HEADER <= lo <= |data|
    ensures |After(d, ss, i, prev, |d|, fa, table)| == |d|
    ensures forall k | 0 <= k < |d| && k < prev && !InOwnField(table, i, k) ::
      After(d, ss, i, prev, |d|, fa, table)[k] == d[k]
    ensures forall k | 0 <= k < |d| && k < lo && !InOwnField(table, i, k) ::
      After(d, ss, i, prev, |d|, fa, table)[k] == d[k]
    ensures forall k :: lo <= k < prev && k < |d| ==> After(d, ss, i, prev, |d|, fa, table)[k] == d[k]
  {
    hide ApplyMove, Align, Lands;
    if Moves(ss[i], prev, |data|) {
      MoveArrives(data, d, ss, i, prev, lo, fa);
      MoveEffect(d, MoveOf(ss[i], i, prev, |data|, fa), table, lo);
    }
  }

  // ---- Where each section ends up -----------------------------------------------------------------

  /** The end laid out when section j's turn comes. */
  function Reached(ss: seq<Section>, i: nat, prev: nat, n: nat, fa: nat, j: nat): nat
    requires i <= j <= |ss|
    decreases j - i
  {
    if i == j then prev else Reached(ss, i + 1, NextEnd(ss[i], prev, n, fa), n, fa, j)
  }

  /** Section j's new start, the layout being at section i. */
  function Start(ss: seq<Section>, i: nat, prev: nat, n: nat, fa: nat, j: nat): nat
    requires i <= j < |ss|
  {
    var e := Reached(ss, i, prev, n, fa, j);
    if Moves(ss[j], e, n) then Align(e, fa) else ss[j].rawOffset
  }

  lemma {:induction false} StartNow(ss: seq<Section>, i: nat, prev: nat, n: nat, fa: nat)
    requires i < |ss|
    ensures Start(ss, i, prev, n, fa, i) == if Moves(ss[i], prev, n) then Align(prev, fa) else ss[i].rawOffset
  {
    hide Moves, Align;
  }

  lemma {:induction false} StartLater(ss: seq<Section>, i: nat, prev: nat, n: nat, fa: nat, j: nat)
    requires i < j < |ss|
    ensures Start(ss, i, prev, n, fa, j) == Start(ss, i + 1, NextEnd(ss[i], prev, n, fa), n, fa, j)
  {
    hide Moves, Align, NextEnd;
  }

  /**
   * Every non-empty section arrives whole, behind the headers and inside the file, aligned if it moved, no
   * later than it stood.
   */
  lemma {:induction false} ContentArrives(data: bytes, d: bytes, ss: seq<Section>, i: nat, prev: nat, lo: nat,
      fa: nat, table: nat, j: nat)
    requires Ready(data, d, ss, i, prev, lo, fa) && table + |ss| * SECTION_HEADER <= lo <= |data|
    requires i <= j < |ss| && Nonempty(ss[j])
    ensures End(ss[j]) <= |data|
    ensures var r, start := Rest(d, ss, i, prev, fa, table), Start(ss, i, prev, |data|, fa, j);
      && |r| == |data| && lo <= start <= ss[j].rawOffset && start + ss[j].rawSize <= |data|
      && r[start..start + ss[j].rawSize] == data[ss[j].rawOffset..End(ss[j])]
      && (start != ss[j].rawOffset ==> start % fa == 0)
    decreases j - i
  {
    hide *;
    ReadyBounds(data, d, ss, i, prev, lo, fa);
    var next, e := After(d, ss, i, prev, |data|, fa, table), NextEnd(ss[i], prev, |data|, fa);
    StepReady(data, d, ss, i, prev, lo, fa, table);
    ReadyBounds(data, next, ss, i + 1, e, lo, fa);
    RestOpen(d, ss, i, prev, fa, table);
    if i < j {
      StartLater(ss, i, prev, |data|, fa, j);
      ContentArrives(data, next, ss, i + 1, e, lo, fa, table, j);
    } else {
      StartNow(ss, i, prev, |data|, fa);
      LaidStays(data, next, ss, i + 1, e, lo, fa, table);
      ContentNow(data, d, ss, i, prev, lo, fa, table);
    }
  }

  lemma {:induction false} ContentNow(data: bytes, d: bytes, ss: seq<Section>, i: nat, prev: nat, lo: nat, fa: nat,
      table: nat)
    requires Ready(data, d, ss, i, prev, lo, fa) && table + |ss| * SECTION_HEADER <= lo <= |data| && i < |ss|
    requires Nonempty(ss[i])
    ensures End(ss[i]) <= |data| && |After(d, ss, i, prev, |data|, fa, table)| == |data|
    ensures var start := if Moves(ss[i], prev, |data|) then Align(prev, fa) else ss[i].rawOffset;
      && lo <= start <= ss[i].rawOffset && start + ss[i].rawSize <= NextEnd(ss[i], prev, |data|, fa)
      && start + ss[i].rawSize <= |data|
      && After(d, ss, i, prev, |data|, fa, table)[start..start + ss[i].rawSize] == data[ss[i].rawOffset..End(ss[i])]
      && (start != ss[i].rawOffset ==> start % fa == 0)
  {
    hide ApplyMove, Align, Lands;
    AscendingAt(ss, lo, |data|, i);
    if Moves(ss[i], prev, |data|) {
      MoveArrives(data, d, ss, i, prev, lo, fa);
      MoveEffect(d, MoveOf(ss[i], i, prev, |data|, fa), table, lo);
    }
  }

  /** The new ranges are in the old order and apart. */
  lemma {:induction false} OrderKept(data: bytes, d: bytes, ss: seq<Section>, i: nat, prev: nat, lo: nat, fa: nat,
      table: nat, j: nat, k: nat)
    requires Ready(data, d, ss, i, prev, lo, fa) && table + |ss| * SECTION_HEADER <= lo <= |data|
    requires i <= j < k < |ss| && Nonempty(ss[j]) && Nonempty(ss[k])
    ensures Start(ss, i, prev, |data|, fa, j) + ss[j].rawSize <= Start(ss, i, prev, |data|, fa, k)
    decreases j - i
  {
    hide *;
    ReadyBounds(data, d, ss, i, prev, lo, fa);
    var next, e := After(d, ss, i, prev, |data|, fa, table), NextEnd(ss[i], prev, |data|, fa);
    StepReady(data, d, ss, i, prev, lo, fa, table);
    StartLater(ss, i, prev, |data|, fa, k);
    if i < j {
      StartLater(ss, i, prev, |data|, fa, j);
      OrderKept(data, next, ss, i + 1, e, lo, fa, table, j, k);
    } else {
      StartNow(ss, i, prev, |data|, fa);
      ContentNow(data, d, ss, i, prev, lo, fa, table);
      AscendingOf(data, d, ss, i, prev, lo, fa);
      AscendingAt(ss, lo, |data|, i);
      EndIs(ss[i]);
      StartBehind(data, next, ss, i + 1, e, lo, fa, table, k);
    }
  }

  lemma {:induction false} EndIs(s: Section)
    ensures End(s) == s.rawOffset + s.rawSize
  {
  }

  lemma {:induction false} AscendingOf(data: bytes, d: bytes, ss: seq<Section>, i: nat, prev: nat, lo: nat, fa: nat)
    requires Ready(data, d, ss, i, prev, lo, fa)
    ensures Ascending(ss, lo, |data|)
  {
  }

  /** A later section starts where it stood, or behind all that has been laid out. */
  lemma {:induction false} StartBehind(data: bytes, d: bytes, ss: seq<Section>, i: nat, prev: nat, lo: nat,
      fa: nat, table: nat, k: nat)
    requires Ready(data, d, ss, i, prev, lo, fa) && table + |ss| * SECTION_HEADER <= lo <= |data| && i <= k < |ss|
    ensures Start(ss, i, prev, |data|, fa, k) == ss[k].rawOffset || prev <= Start(ss, i, prev, |data|, fa, k)
    decreases k - i
  {
    hide *;
    ReadyBounds(data, d, ss, i, prev, lo, fa);
    if i < k {
      StepReady(data, d, ss, i, prev, lo, fa, table);
      StartLater(ss, i, prev, |data|, fa, k);
      StartBehind(data, After(d, ss, i, prev, |data|, fa, table), ss, i + 1, NextEnd(ss[i], prev, |data|, fa), lo, fa,
                  table, k);
    } else {
      StartNow(ss, i, prev, |data|, fa);
      ReadyAligns(data, d, ss, i, prev, lo, fa);
    }
  }

  lemma {:induction false} ReadyAligns(data: bytes, d: bytes, ss: seq<Section>, i: nat, prev: nat, lo: nat, fa: nat)
    requires Ready(data, d, ss, i, prev, lo, fa)
    ensures prev <= Align(prev, fa)
  {
    hide Align, PowerOfTwo, Lands, Ascending, Pending;
    AlignBounds(prev, fa);
  }

  /**
   * Section j's turn, with everything in front of it laid out up to prev: it moves, rounded up behind prev, exactly
   * if it starts more than 1 MiB behind prev and has a byte in the file of n bytes.
   */
  lemma {:induction false} TurnOf(ss: seq<Section>, n: nat, fa: nat, j: nat)
    requires j < |ss|
    ensures var s, prev := ss[j], Reached(ss, 0, 0, n, fa, j);
      var end := s.rawOffset + s.rawSize;
      var inFile := if end < n then end else n;
      var far := s.rawOffset > prev + 0x10_0000 && s.rawOffset < n;
      && Start(ss, 0, 0, n, fa, j) == (if far && s.rawOffset < inFile then Align(prev, fa) else s.rawOffset)
      && Reached(ss, 0, 0, n, fa, j + 1)
         == if far && s.rawOffset < inFile then Align(prev, fa) + (inFile - s.rawOffset)
            else if far then end
            else if prev < end then end else prev
  {
    hide Align;
    ReachedStep(ss, 0, 0, n, fa, j);
  }

  lemma {:induction false} ReachedStep(ss: seq<Section>, i: nat, prev: nat, n: nat, fa: nat, j: nat)
    requires i <= j < |ss|
    ensures Reached(ss, i, prev, n, fa, j + 1) == NextEnd(ss[j], Reached(ss, i, prev, n, fa, j), n, fa)
    decreases j - i
  {
    hide NextEnd;
    if i < j {
      ReachedStep(ss, i + 1, NextEnd(ss[i], prev, n, fa), n, fa, j);
    }
  }

  // ---- The headers --------------------------------------------------------------------------------------

  /** Byte k is in the PointerToRawData field of a section that moves. */
  ghost predicate InPointer(ss: seq<Section>, i: nat, prev: nat, n: nat, fa: nat, table: nat, k: nat)
  {
    exists j: nat :: InPointerOf(ss, i, prev, n, fa, table, k, j)
  }

  predicate InPointerOf(ss: seq<Section>, i: nat, prev: nat, n: nat, fa: nat, table: nat, k: nat, j: nat)
  {
    i <= j < |ss| && Moves(ss[j], Reached(ss, i, prev, n, fa, j), n)
    && InOwnField(table, j, k)
  }

  lemma {:induction false} InPointerLater(ss: seq<Section>, i: nat, prev: nat, n: nat, fa: nat, table: nat, k: nat)
    requires i < |ss|
    ensures InPointer(ss, i + 1, NextEnd(ss[i], prev, n, fa), n, fa, table, k) ==>
        InPointer(ss, i, prev, n, fa, table, k)
    ensures Moves(ss[i], prev, n) && InOwnField(table, i, k) ==> InPointer(ss, i, prev, n, fa, table, k)
  {
    hide Moves, NextEnd;
    var e := NextEnd(ss[i], prev, n, fa);
    if InPointer(ss, i + 1, e, n, fa, table, k) {
      var j: nat :| InPointerOf(ss, i + 1, e, n, fa, table, k, j);
      assert InPointerOf(ss, i, prev, n, fa, table, k, j);
    }
    if Moves(ss[i], prev, n) && InOwnField(table, i, k) {
      assert InPointerOf(ss, i, prev, n, fa, table, k, i);
    }
  }

  lemma {:induction false} HeadersStay(data: bytes, d: bytes, ss: seq<Section>, i: nat, prev: nat, lo: nat,
      fa: nat, table: nat, k: nat)
    requires Ready(data, d, ss, i, prev, lo, fa) && table + |ss| * SECTION_HEADER <= lo <= |data|
    requires k < lo && !InPointer(ss, i, prev, |data|, fa, table, k)
    ensures |Rest(d, ss, i, prev, fa, table)| == |data| && Rest(d, ss, i, prev, fa, table)[k] == d[k]
    decreases |ss| - i
  {
    hide *;
    ReadyBounds(data, d, ss, i, prev, lo, fa);
    LaidStays(data, d, ss, i, prev, lo, fa, table);
    if i >= |ss| {
      RestEnd(d, ss, i, prev, fa, table);
    } else {
      var next, e := After(d, ss, i, prev, |data|, fa, table), NextEnd(ss[i], prev, |data|, fa);
      StepReady(data, d, ss, i, prev, lo, fa, table);
      ReadyBounds(data, next, ss, i + 1, e, lo, fa);
      RestOpen(d, ss, i, prev, fa, table);
      InPointerLater(ss, i, prev, |data|, fa, table, k);
      HeadersStay(data, next, ss, i + 1, e, lo, fa, table, k);
      AfterStays(data, d, ss, i, prev, lo, fa, table);
      AfterUnmoved(d, ss, i, prev, fa, table);
    }
  }

  lemma {:induction false} AfterUnmoved(d: bytes, ss: seq<Section>, i: nat, prev: nat, fa: nat, table: nat)
    requires i < |ss|
    ensures !Moves(ss[i], prev, |d|) ==> After(d, ss, i, prev, |d|, fa, table) == d
  {
  }

  /** The pointer field of a section that moves holds its new start. */
  lemma {:induction false} PointerUpdated(data: bytes, d: bytes, ss: seq<Section>, i: nat, prev: nat, lo: nat,
      fa: nat, table: nat, j: nat)
    requires Ready(data, d, ss, i, prev, lo, fa) && table + |ss| * SECTION_HEADER <= lo <= |data|
    requires i <= j < |ss| && Moves(ss[j], Reached(ss, i, prev, |data|, fa, j), |data|)
    ensures At(Rest(d, ss, i, prev, fa, table), table + j * SECTION_HEADER + 20,
               Le(Start(ss, i, prev, |data|, fa, j), 4))
    decreases j - i
  {
    hide *;
    ReadyBounds(data, d, ss, i, prev, lo, fa);
    var next, e := After(d, ss, i, prev, |data|, fa, table), NextEnd(ss[i], prev, |data|, fa);
    StepReady(data, d, ss, i, prev, lo, fa, table);
    ReadyBounds(data, next, ss, i + 1, e, lo, fa);
    RestOpen(d, ss, i, prev, fa, table);
    if i < j {
      StartLater(ss, i, prev, |data|, fa, j);
      ReachedLater(ss, i, prev, |data|, fa, j);
      PointerUpdated(data, next, ss, i + 1, e, lo, fa, table, j);
    } else {
      ReachedNow(ss, i, prev, |data|, fa);
      StartNow(ss, i, prev, |data|, fa);
      PointerNow(data, d, ss, i, prev, lo, fa, table);
      LaidStays(data, next, ss, i + 1, e, lo, fa, table);
      FieldSize();
      forall k | table + i * SECTION_HEADER + 20 <= k < table + i * SECTION_HEADER + 24
        ensures k < |data| && Rest(next, ss, i + 1, e, fa, table)[k] == next[k]
      {
        FieldsApart(ss, i + 1, e, |data|, fa, table, k, i);
        HeadersStay(data, next, ss, i + 1, e, lo, fa, table, k);
      }
      AtFrame(next, Rest(next, ss, i + 1, e, fa, table), table + i * SECTION_HEADER + 20,
              Le(Start(ss, i, prev, |data|, fa, i), 4));
    }
  }

  lemma {:induction false} FieldSize()
    ensures SECTION_HEADER == 40
  {
  }

  lemma {:induction false} ReachedNow(ss: seq<Section>, i: nat, prev: nat, n: nat, fa: nat)
    requires i <= |ss|
    ensures Reached(ss, i, prev, n, fa, i) == prev
  {
  }

  lemma {:induction false} ReachedLater(ss: seq<Section>, i: nat, prev: nat, n: nat, fa: nat, j: nat)
    requires i < j <= |ss|
    ensures Reached(ss, i, prev, n, fa, j) == Reached(ss, i + 1, NextEnd(ss[i], prev, n, fa), n, fa, j)
  {
    hide NextEnd;
  }

  lemma {:induction false} FieldsApart(ss: seq<Section>, i: nat, prev: nat, n: nat, fa: nat, table: nat, k: nat, j: nat)
    requires j < i && table + j * SECTION_HEADER + 20 <= k < table + j * SECTION_HEADER + 24
    ensures !InPointer(ss, i, prev, n, fa, table, k)
  {
    hide Moves, Reached;
  }

  lemma {:induction false} PointerNow(data: bytes, d: bytes, ss: seq<Section>, i: nat, prev: nat, lo: nat, fa: nat,
      table: nat)
    requires Ready(data, d, ss, i, prev, lo, fa) && i < |ss| && table + |ss| * SECTION_HEADER <= lo <= |data|
    requires Moves(ss[i], prev, |data|)
    ensures |After(d, ss, i, prev, |data|, fa, table)| == |data|
    ensures At(After(d, ss, i, prev, |data|, fa, table), table + i * SECTION_HEADER + 20, Le(Align(prev, fa), 4))
  {
    hide ApplyMove, Align, Lands, At;
    MoveArrives(data, d, ss, i, prev, lo, fa);
    MoveEffect(d, MoveOf(ss[i], i, prev, |data|, fa), table, lo);
  }

  // ---- The end of the file -------------------------------------------------------------------------------

  lemma {:induction false} NoMoveOf(ss: seq<Section>, i: nat, prev: nat, n: nat, fa: nat, j: nat, p: nat)
    requires j < i
    ensures NewPointer(Plan(ss, i, prev, n, fa), j, p) == p
    decreases |ss| - i
  {
    hide Align, Moves, NextEnd, Plan;
    if i < |ss| {
      PlanOpen(ss, i, prev, n, fa);
      NoMoveOf(ss, i + 1, NextEnd(ss[i], prev, n, fa), n, fa, j, p);
    } else {
      PlanEnd(ss, i, prev, n, fa);
    }
  }

  /** Looking the section up among the moves gives its new start. */
  lemma {:induction false} PointerIsStart(ss: seq<Section>, i: nat, prev: nat, n: nat, fa: nat, j: nat)
    requires i <= j < |ss|
    ensures NewPointer(Plan(ss, i, prev, n, fa), j, ss[j].rawOffset) == Start(ss, i, prev, n, fa, j)
    decreases j - i
  {
    hide Align, Moves, NextEnd, Plan;
    PlanOpen(ss, i, prev, n, fa);
    var e := NextEnd(ss[i], prev, n, fa);
    if i < j {
      StartLater(ss, i, prev, n, fa, j);
      PointerIsStart(ss, i + 1, e, n, fa, j);
    } else {
      NoMoveOf(ss, i + 1, e, n, fa, j, ss[j].rawOffset);
    }
  }

  lemma {:induction false} MaxEndCovers(ss: seq<Section>, ms: seq<Move>, i: nat, j: nat)
    requires i <= j < |ss|
    ensures NewPointer(ms, j, ss[j].rawOffset) + ss[j].rawSize <= MaxEnd(ss, ms, i)
    decreases j - i
  {
    hide NewPointer;
    if i < j {
      MaxEndCovers(ss, ms, i + 1, j);
    }
  }

  /** The last end is one of the ends, or 0 without sections. */
  lemma {:induction false} MaxEndAttained(ss: seq<Section>, ms: seq<Move>, i: nat)
    requires i <= |ss|
    ensures MaxEnd(ss, ms, i) == 0
      || exists j :: i <= j < |ss| && NewPointer(ms, j, ss[j].rawOffset) + ss[j].rawSize == MaxEnd(ss, ms, i)
    decreases |ss| - i
  {
    hide NewPointer;
    if i < |ss| {
      MaxEndAttained(ss, ms, i + 1);
    }
  }

  lemma {:induction false} TruncateKeeps(r: bytes, n: nat, a: nat, b: nat)
    requires a <= b <= |r| && b <= n
    ensures b <= |Truncate(r, n)| <= |r| && Truncate(r, n)[a..b] == r[a..b]
    ensures forall k :: 0 <= k < |Truncate(r, n)| ==> Truncate(r, n)[k] == r[k]
  {
  }

  /** What a caller has to see to: sections as described, the first of them low, headers that end before them. */
  ghost predicate Packable(data: bytes, h: Header)
  {
    && Parse(data) == Some(h) && PowerOfTwo(h.fileAlignment) && h.fileAlignment <= GAP
    && Ascending(h.sections, HeaderEnd(h), |data|) && !Lands(h.sections, 0, 0, HeaderEnd(h), h.fileAlignment)
  }

  lemma {:induction false} PackableReady(data: bytes, h: Header)
    requires Packable(data, h)
    ensures 64 <= |data| && SectionTable(h) + |h.sections| * SECTION_HEADER <= HeaderEnd(h) <= |data|
    ensures Ready(data, data, h.sections, 0, 0, HeaderEnd(h), h.fileAlignment)
  {
    hide Parse, Lands;
    ParseEnd(data, h);
  }

  lemma {:induction false} PackableParses(data: bytes, h: Header)
    requires Packable(data, h)
    ensures Parse(data) == Some(h)
  {
  }

  function NewStart(data: bytes, h: Header, j: nat): nat
    requires j < |h.sections|
  {
    Start(h.sections, 0, 0, |data|, h.fileAlignment, j)
  }

  /** The packed file is the rewritten one cut behind the last section. */
  lemma {:induction false} PackedIs(data: bytes, h: Header)
    requires Parse(data) == Some(h)
    ensures 64 <= |data|
    ensures Packed(data, h) == Truncate(Rest(data, h.sections, 0, 0, h.fileAlignment, SectionTable(h)),
                                        MaxEnd(h.sections, Plan(h.sections, 0, 0, |data|, h.fileAlignment), 0))
  {
    hide Parse, Plan, ApplyMoves, MaxEnd, Truncate, Get;
    ParseEnd(data, h);
  }

  /**
   * Packing is safe: every section's bytes are found whole at its new start, which is aligned if it
   * moved, is not above the old one, lies behind the headers, and keeps sections in order and apart.
   */
  lemma {:induction false} PackingPreserves(data: bytes, h: Header, j: nat)
    requires Packable(data, h) && j < |h.sections| && Nonempty(h.sections[j])
    ensures 64 <= |data|
    ensures var p, s, start := Packed(data, h), h.sections[j], NewStart(data, h, j);
      && HeaderEnd(h) <= start <= s.rawOffset && start + s.rawSize <= |p| <= |data| && End(s) <= |data|
      && p[start..start + s.rawSize] == data[s.rawOffset..End(s)]
      && (start != s.rawOffset ==> start % h.fileAlignment == 0)
    ensures forall k | j < k < |h.sections| && Nonempty(h.sections[k]) ::
      NewStart(data, h, j) + h.sections[j].rawSize <= NewStart(data, h, k)
  {
    hide *;
    var ss, fa, table := h.sections, h.fileAlignment, SectionTable(h);
    PackableReady(data, h);
    PackableParses(data, h);
    PackedIs(data, h);
    NewStartIs(data, h, j);
    ContentArrives(data, data, ss, 0, 0, HeaderEnd(h), fa, table, j);
    PointerIsStart(ss, 0, 0, |data|, fa, j);
    var plan := Plan(ss, 0, 0, |data|, fa);
    MaxEndCovers(ss, plan, 0, j);
    TruncateKeeps(Rest(data, ss, 0, 0, fa, table), MaxEnd(ss, plan, 0), NewStart(data, h, j),
                  NewStart(data, h, j) + ss[j].rawSize);
    forall k | j < k < |ss| && Nonempty(ss[k]) ensures NewStart(data, h, j) + ss[j].rawSize <= NewStart(data, h, k) {
      NewStartIs(data, h, k);
      OrderKept(data, data, ss, 0, 0, HeaderEnd(h), fa, table, j, k);
    }
  }

  lemma {:induction false} NewStartIs(data: bytes, h: Header, j: nat)
    requires j < |h.sections|
    ensures NewStart(data, h, j) == Start(h.sections, 0, 0, |data|, h.fileAlignment, j)
  {
  }

  /** The packed file ends with its last section, wherever that is in the table. */
  lemma {:induction false} PackedEnds(data: bytes, h: Header, j: nat)
    requires Packable(data, h) && j < |h.sections| && Nonempty(h.sections[j])
    ensures 64 <= |data|
    ensures forall k :: 0 <= k < |h.sections| ==>
      NewStart(data, h, k) + h.sections[k].rawSize <= |Packed(data, h)| || |Packed(data, h)| == |data|
    ensures |Packed(data, h)| == |data|
      || exists k :: 0 <= k < |h.sections| && NewStart(data, h, k) + h.sections[k].rawSize == |Packed(data, h)|
  {
    hide *;
    var ss, n, fa, table := h.sections, |data|, h.fileAlignment, SectionTable(h);
    var plan := Plan(ss, 0, 0, n, fa);
    PackableReady(data, h);
    PackableParses(data, h);
    PackedIs(data, h);
    PackingPreserves(data, h, j);
    LaidStays(data, data, ss, 0, 0, HeaderEnd(h), fa, table);
    CutTo(Rest(data, ss, 0, 0, fa, table), MaxEnd(ss, plan, 0));
    MaxEndAttained(ss, plan, 0);
    forall k | 0 <= k < |ss|
      ensures NewStart(data, h, k) == NewPointer(plan, k, ss[k].rawOffset)
      ensures NewStart(data, h, k) + ss[k].rawSize <= MaxEnd(ss, plan, 0)
    {
      NewStartIs(data, h, k);
      PointerIsStart(ss, 0, 0, n, fa, k);
      MaxEndCovers(ss, plan, 0, k);
    }
    NonemptyIs(ss[j]);
  }

  lemma {:induction false} CutTo(r: bytes, n: nat)
    ensures |Truncate(r, n)| == if n < |r| then n else |r|
  {
  }

  lemma {:induction false} NonemptyIs(s: Section)
    ensures Nonempty(s) <==> s.rawSize > 0
  {
  }

  /** Of the headers only the PointerToRawData fields of moved sections change, and each holds the new start. */
  lemma {:induction false} PackingKeepsHeaders(data: bytes, h: Header, j: nat, k: nat)
    requires Packable(data, h) && j < |h.sections| && Nonempty(h.sections[j]) && k < HeaderEnd(h)
    ensures 64 <= |data| && HeaderEnd(h) <= |Packed(data, h)| <= |data|
    ensures !InPointer(h.sections, 0, 0, |data|, h.fileAlignment, SectionTable(h), k) ==> Packed(data, h)[k] == data[k]
    ensures NewStart(data, h, j) != h.sections[j].rawOffset ==>
      At(Packed(data, h), SectionTable(h) + j * SECTION_HEADER + 20, Le(NewStart(data, h, j), 4))
  {
    hide *;
    var ss, fa, table := h.sections, h.fileAlignment, SectionTable(h);
    PackableReady(data, h);
    PackableParses(data, h);
    PackedIs(data, h);
    NewStartIs(data, h, j);
    PackingPreserves(data, h, j);
    var r := Rest(data, ss, 0, 0, fa, table);
    LaidStays(data, data, ss, 0, 0, HeaderEnd(h), fa, table);
    PointerIsStart(ss, 0, 0, |data|, fa, j);
    var plan := Plan(ss, 0, 0, |data|, fa);
    MaxEndCovers(ss, plan, 0, j);
    TruncateKeeps(r, MaxEnd(ss, plan, 0), 0, NewStart(data, h, j) + ss[j].rawSize);
    if !InPointer(ss, 0, 0, |data|, fa, table, k) {
      HeadersStay(data, data, ss, 0, 0, HeaderEnd(h), fa, table, k);
    }
    if NewStart(data, h, j) != ss[j].rawOffset {
      MovedStart(ss, 0, 0, |data|, fa, j);
      PointerUpdated(data, data, ss, 0, 0, HeaderEnd(h), fa, table, j);
      FieldSize();
      AtShorter(r, Packed(data, h), table + j * SECTION_HEADER + 20, Le(NewStart(data, h, j), 4));
    }
  }

  lemma {:induction false} MovedStart(ss: seq<Section>, i: nat, prev: nat, n: nat, fa: nat, j: nat)
    requires i <= j < |ss| && Start(ss, i, prev, n, fa, j) != ss[j].rawOffset
    ensures Moves(ss[j], Reached(ss, i, prev, n, fa, j), n)
  {
  }

  lemma {:induction false} AtShorter(r: bytes, p: bytes, o: nat, s: bytes)
    requires At(r, o, s) && o + |s| <= |p| <= |r| && forall k :: 0 <= k < |p| ==> p[k] == r[k]
    ensures At(p, o, s)
  {
    assert p[o..o + |s|] == r[o..o + |s|];
  }

  // ---- When the layout lands on the headers ----------------------------------------------------------

  lemma {:induction false} PlanAbove(ss: seq<Section>, i: nat, prev: nat, n: nat, fa: nat)
    requires PowerOfTwo(fa)
    ensures forall k :: 0 <= k < |Plan(ss, i, prev, n, fa)| ==> Plan(ss, i, prev, n, fa)[k].to >= prev
    decreases |ss| - i
  {
    hide Align, PowerOfTwo;
    AlignBounds(prev, fa);
    if i < |ss| {
      PlanOpen(ss, i, prev, n, fa);
      PlanAbove(ss, i + 1, NextEnd(ss[i], prev, n, fa), n, fa);
    }
  }

  ghost predicate HitsBelow(plan: seq<Move>, lo: nat)
  {
    exists k :: 0 <= k < |plan| && plan[k].to < lo
  }

  /** An empty section stays where it is, and counts as laid out up to its offset. */
  lemma {:induction false} EmptyStays(s: Section, prev: nat, n: nat, fa: nat)
    requires !Nonempty(s)
    ensures !Moves(s, prev, n) && NextEnd(s, prev, n, fa) == Max(prev, s.rawOffset)
  {
  }

  /** A section with contents moves exactly if it is far, and is laid out behind lo unless it lands below. */
  lemma {:induction false} FullMoves(ss: seq<Section>, i: nat, prev: nat, lo: nat, n: nat, fa: nat)
    requires Ascending(ss, lo, n) && PowerOfTwo(fa) && i < |ss| && Nonempty(ss[i])
    ensures Moves(ss[i], prev, n) <==> ss[i].rawOffset > prev + GAP
    ensures !(Moves(ss[i], prev, n) && Align(prev, fa) < lo) ==> lo <= NextEnd(ss[i], prev, n, fa)
  {
    hide Align;
    AscendingAt(ss, lo, n, i);
  }

  lemma {:induction false} HitsIff(ss: seq<Section>, i: nat, prev: nat, lo: nat, n: nat, fa: nat)
    requires Ascending(ss, lo, n) && PowerOfTwo(fa) && i <= |ss|
    ensures HitsBelow(Plan(ss, i, prev, n, fa), lo) <==> Lands(ss, i, prev, lo, fa)
    decreases |ss| - i
  {
    hide Align, PowerOfTwo, Moves, NextEnd, Lands, Plan, Ascending;
    if i == |ss| {
      PlanEnd(ss, i, prev, n, fa);
      LandsEnd(ss, i, prev, lo, fa);
    } else {
      var e := NextEnd(ss[i], prev, n, fa);
      PlanOpen(ss, i, prev, n, fa);
      LandsOpen(ss, i, prev, lo, fa);
      if Nonempty(ss[i]) {
        FullMoves(ss, i, prev, lo, n, fa);
        PlanAbove(ss, i + 1, e, n, fa);
        if Moves(ss[i], prev, n) {
          assert Plan(ss, i, prev, n, fa)[0].to == Align(prev, fa);
        }
      } else {
        EmptyStays(ss[i], prev, n, fa);
        HitsIff(ss, i + 1, e, lo, n, fa);
      }
    }
  }

  lemma {:induction false} LandsEnd(ss: seq<Section>, i: nat, prev: nat, lo: nat, fa: nat)
    requires i >= |ss|
    ensures !Lands(ss, i, prev, lo, fa)
  {
  }

  /** What Lands says of the first section that holds anything. */
  lemma {:induction false} LandsIs(ss: seq<Section>, i: nat, prev: nat, lo: nat, n: nat, fa: nat)
    requires i <= |ss|
    ensures var f := First(ss, i);
      var p := Reached(ss, i, prev, n, fa, f);
      Lands(ss, i, prev, lo, fa) <==> f < |ss| && ss[f].rawOffset > p + GAP && Align(p, fa) < lo
    decreases |ss| - i
  {
    hide Align, NextEnd, Moves;
    if i < |ss| && !Nonempty(ss[i]) {
      EmptyStays(ss[i], prev, n, fa);
      LandsIs(ss, i + 1, NextEnd(ss[i], prev, n, fa), lo, n, fa);
    }
  }

  lemma {:induction false} OneMebibyte()
    ensures GAP == 0x10_0000
  {
  }

  /**
   * The layout starts at offset 0, not behind the headers: some section is copied over the headers
   * exactly if the first one that holds anything starts more than the threshold behind the empty ones
   * in front of it, and those end, rounded up, inside the headers.
   */
  lemma {:induction false} HeadersHitIff(ss: seq<Section>, lo: nat, n: nat, fa: nat)
    requires Ascending(ss, lo, n) && PowerOfTwo(fa)
    ensures var f := First(ss, 0);
      var p := Reached(ss, 0, 0, n, fa, f);
      HitsBelow(Plan(ss, 0, 0, n, fa), lo) <==> f < |ss| && ss[f].rawOffset > p + 0x10_0000 && Align(p, fa) < lo
  {
    hide *;
    OneMebibyte();
    HitsIff(ss, 0, 0, lo, n, fa);
    LandsIs(ss, 0, 0, lo, n, fa);
  }

  /** What the empty sections in front lay out: the greatest of their offsets. */
  lemma {:induction false} ReachedEmpty(ss: seq<Section>, i: nat, prev: nat, n: nat, fa: nat, f: nat)
    requires i <= f <= |ss| && forall j :: i <= j < f ==> !Nonempty(ss[j])
    ensures prev <= Reached(ss, i, prev, n, fa, f)
    ensures forall j :: i <= j < f ==> ss[j].rawOffset <= Reached(ss, i, prev, n, fa, f)
    ensures Reached(ss, i, prev, n, fa, f) == prev
         || exists j :: i <= j < f && ss[j].rawOffset == Reached(ss, i, prev, n, fa, f)
    decreases f - i
  {
    hide NextEnd, Moves;
    if i < f {
      EmptyStays(ss[i], prev, n, fa);
      ReachedEmpty(ss, i + 1, NextEnd(ss[i], prev, n, fa), n, fa, f);
    }
  }

  lemma {:induction false} RestSkips(d: bytes, ss: seq<Section>, i: nat, prev: nat, fa: nat, table: nat, f: nat)
    requires i <= f <= |ss| && forall j :: i <= j < f ==> !Nonempty(ss[j])
    ensures Rest(d, ss, i, prev, fa, table) == Rest(d, ss, f, Reached(ss, i, prev, |d|, fa, f), fa, table)
    decreases f - i
  {
    hide NextEnd, Moves, Rest, ApplyMove;
    if i < f {
      EmptyStays(ss[i], prev, |d|, fa);
      RestOpen(d, ss, i, prev, fa, table);
      RestSkips(d, ss, i + 1, NextEnd(ss[i], prev, |d|, fa), fa, table, f);
    }
  }

  /** What a move makes of byte k, if it is not in the moved section's pointer field. */
  lemma {:induction false} MoveFrame(d: bytes, m: Move, table: nat, k: nat)
    requires m.from + m.len <= |d| && m.to + m.len <= |d|
    ensures |ApplyMove(d, m, table)| == |d|
    ensures k < |d| && !InOwnField(table, m.idx, k) ==>
      ApplyMove(d, m, table)[k] == if m.to <= k < m.to + m.len then d[m.from + (k - m.to)] else d[k]
  {
    hide Le;
  }

  /** A move goes up front, inside the file. */
  lemma {:induction false} MoveInside(ss: seq<Section>, i: nat, prev: nat, lo: nat, n: nat, fa: nat)
    requires Ascending(ss, lo, n) && PowerOfTwo(fa) && fa <= GAP && i < |ss| && Moves(ss[i], prev, n)
    ensures var m, e := MoveOf(ss[i], i, prev, n, fa), NextEnd(ss[i], prev, n, fa);
      && m.from + m.len <= n && m.to + m.len == e <= n && prev <= m.to
      && m.len == ss[i].rawSize && m.from == ss[i].rawOffset && m.idx == i && m.to == Align(prev, fa)
  {
    hide Align, PowerOfTwo;
    MoveTarget(prev, fa, ss[i], n);
    AscendingAt(ss, lo, n, i);
  }

  /** Wherever it lands, the layout rewrites nothing it has laid out but pointer fields of sections that move. */
  lemma {:induction false} RestFrame(d: bytes, ss: seq<Section>, i: nat, prev: nat, lo: nat, fa: nat, table: nat,
      k: nat)
    requires Ascending(ss, lo, |d|) && PowerOfTwo(fa) && fa <= GAP && i <= |ss|
    requires k < prev && !InPointer(ss, i, prev, |d|, fa, table, k)
    ensures |Rest(d, ss, i, prev, fa, table)| == |d|
    ensures k < |d| ==> Rest(d, ss, i, prev, fa, table)[k] == d[k]
    decreases |ss| - i
  {
    hide *;
    if i == |ss| {
      RestEnd(d, ss, i, prev, fa, table);
    } else {
      AfterFrame(d, ss, i, prev, lo, fa, table, k);
      InPointerLater(ss, i, prev, |d|, fa, table, k);
      RestOpen(d, ss, i, prev, fa, table);
      RestFrame(After(d, ss, i, prev, |d|, fa, table), ss, i + 1, NextEnd(ss[i], prev, |d|, fa), lo, fa, table, k);
    }
  }

  lemma {:induction false} AfterFrame(d: bytes, ss: seq<Section>, i: nat, prev: nat, lo: nat, fa: nat, table: nat,
      k: nat)
    requires Ascending(ss, lo, |d|) && PowerOfTwo(fa) && fa <= GAP && i < |ss|
    requires k < prev && !InPointer(ss, i, prev, |d|, fa, table, k)
    ensures var r := After(d, ss, i, prev, |d|, fa, table); |r| == |d| && (k < |d| ==> r[k] == d[k])
    ensures prev <= NextEnd(ss[i], prev, |d|, fa)
  {
    hide Align, PowerOfTwo, InPointer, ApplyMove, Ascending;
    InPointerLater(ss, i, prev, |d|, fa, table, k);
    if Moves(ss[i], prev, |d|) {
      MoveInside(ss, i, prev, lo, |d|, fa);
      MoveFrame(d, MoveOf(ss[i], i, prev, |d|, fa), table, k);
    }
  }

  /** Section f, next to be laid out, stands at its target in the end, pointer fields apart. */
  lemma {:induction false} MovedStands(d: bytes, ss: seq<Section>, f: nat, p: nat, lo: nat, fa: nat, table: nat, k: nat)
    requires Ascending(ss, lo, |d|) && PowerOfTwo(fa) && fa <= GAP && f < |ss| && Moves(ss[f], p, |d|)
    requires k < ss[f].rawSize && !InPointer(ss, f, p, |d|, fa, table, Align(p, fa) + k)
    ensures Align(p, fa) + k < |d| == |Rest(d, ss, f, p, fa, table)| && ss[f].rawOffset + k < |d|
    ensures Rest(d, ss, f, p, fa, table)[Align(p, fa) + k] == d[ss[f].rawOffset + k]
  {
    hide Align, PowerOfTwo, InPointer, ApplyMove, Ascending, Rest, Moves, NextEnd;
    InPointerLater(ss, f, p, |d|, fa, table, Align(p, fa) + k);
    MoveInside(ss, f, p, lo, |d|, fa);
    MoveFrame(d, MoveOf(ss[f], f, p, |d|, fa), table, Align(p, fa) + k);
    RestOpen(d, ss, f, p, fa, table);
    RestFrame(After(d, ss, f, p, |d|, fa, table), ss, f + 1, NextEnd(ss[f], p, |d|, fa), lo, fa, table,
              Align(p, fa) + k);
  }

  /** The pointer fields that change do so whether the layout starts at section i or at the first full one. */
  lemma {:induction false} PointerSkips(ss: seq<Section>, i: nat, prev: nat, n: nat, fa: nat, table: nat, f: nat,
      k: nat)
    requires i <= f <= |ss| && forall j :: i <= j < f ==> !Nonempty(ss[j])
    requires !InPointer(ss, i, prev, n, fa, table, k)
    ensures !InPointer(ss, f, Reached(ss, i, prev, n, fa, f), n, fa, table, k)
    decreases f - i
  {
    hide NextEnd, Moves, InPointer;
    if i < f {
      InPointerLater(ss, i, prev, n, fa, table, k);
      PointerSkips(ss, i + 1, NextEnd(ss[i], prev, n, fa), n, fa, table, f, k);
    }
  }

  /** In that case the packed file has the section's own bytes there, the pointer fields of moved sections apart. */
  lemma {:induction false} HighSectionLandsOnHeaders(data: bytes, h: Header, k: nat)
    requires Parse(data) == Some(h) && PowerOfTwo(h.fileAlignment) && h.fileAlignment <= GAP
    requires Ascending(h.sections, HeaderEnd(h), |data|) && Lands(h.sections, 0, 0, HeaderEnd(h), h.fileAlignment)
    ensures var ss, fa, f := h.sections, h.fileAlignment, First(h.sections, 0);
      var to := Align(Reached(ss, 0, 0, |data|, fa, f), fa);
      && 64 <= |data| && f < |ss| && to < HeaderEnd(h)
      && to + ss[f].rawSize <= |Packed(data, h)| && End(ss[f]) <= |data|
      && (k < ss[f].rawSize && !InPointer(ss, 0, 0, |data|, fa, SectionTable(h), to + k) ==>
            Packed(data, h)[to + k] == data[ss[f].rawOffset + k])
  {
    hide *;
    var ss, fa, table, n := h.sections, h.fileAlignment, SectionTable(h), |data|;
    var f := First(ss, 0);
    var p := Reached(ss, 0, 0, n, fa, f);
    LandsIs(ss, 0, 0, HeaderEnd(h), n, fa);
    LandingMoves(ss, f, p, HeaderEnd(h), n, fa);
    PackedIs(data, h);
    var plan, to := Plan(ss, 0, 0, n, fa), Align(p, fa);
    StartIs(ss, n, fa, f);
    PointerIsStart(ss, 0, 0, n, fa, f);
    MaxEndCovers(ss, plan, 0, f);
    RestSkips(data, ss, 0, 0, fa, table, f);
    RestLength(data, ss, f, p, HeaderEnd(h), fa, table);
    TruncateKeeps(Rest(data, ss, 0, 0, fa, table), MaxEnd(ss, plan, 0), to, to + ss[f].rawSize);
    if k < ss[f].rawSize && !InPointer(ss, 0, 0, n, fa, table, to + k) {
      PointerSkips(ss, 0, 0, n, fa, table, f, to + k);
      MovedStands(data, ss, f, p, HeaderEnd(h), fa, table, k);
    }
  }

  lemma {:induction false} StartIs(ss: seq<Section>, n: nat, fa: nat, f: nat)
    requires f < |ss| && Moves(ss[f], Reached(ss, 0, 0, n, fa, f), n)
    ensures Start(ss, 0, 0, n, fa, f) == Align(Reached(ss, 0, 0, n, fa, f), fa)
  {
  }

  lemma {:induction false} LandingMoves(ss: seq<Section>, f: nat, p: nat, lo: nat, n: nat, fa: nat)
    requires Ascending(ss, lo, n) && PowerOfTwo(fa) && fa <= GAP && f < |ss| && Nonempty(ss[f])
    requires ss[f].rawOffset > p + GAP
    ensures Moves(ss[f], p, n) && Align(p, fa) + ss[f].rawSize <= n && End(ss[f]) <= n
  {
    hide Align, PowerOfTwo, Moves;
    AscendingAt(ss, lo, n, f);
    FullMoves(ss, f, p, lo, n, fa);
    MoveInside(ss, f, p, lo, n, fa);
  }

  lemma {:induction false} RestLength(d: bytes, ss: seq<Section>, i: nat, prev: nat, lo: nat, fa: nat, table: nat)
    requires Ascending(ss, lo, |d|) && PowerOfTwo(fa) && fa <= GAP && i <= |ss|
    ensures |Rest(d, ss, i, prev, fa, table)| == |d|
    decreases |ss| - i
  {
    hide *;
    if i == |ss| {
      RestEnd(d, ss, i, prev, fa, table);
    } else {
      AfterLength(d, ss, i, prev, lo, fa, table);
      RestOpen(d, ss, i, prev, fa, table);
      RestLength(After(d, ss, i, prev, |d|, fa, table), ss, i + 1, NextEnd(ss[i], prev, |d|, fa), lo, fa, table);
    }
  }

  lemma {:induction false} AfterLength(d: bytes, ss: seq<Section>, i: nat, prev: nat, lo: nat, fa: nat, table: nat)
    requires Ascending(ss, lo, |d|) && PowerOfTwo(fa) && fa <= GAP && i < |ss|
    ensures |After(d, ss, i, prev, |d|, fa, table)| == |d|
  {
    hide Align, PowerOfTwo, ApplyMove, Ascending;
    if Moves(ss[i], prev, |d|) {
      MoveInside(ss, i, prev, lo, |d|, fa);
      MoveFrame(d, MoveOf(ss[i], i, prev, |d|, fa), table, 0);
    }
  }
}
