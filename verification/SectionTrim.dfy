/** Cutting long zero tails off sections (trim_huge_sections in crates/pe/src/section.rs). */
module SectionTrim {
  import opened Options
  import opened Words
  import opened Pe
  import opened Sections

  const MIB: nat := 0x10_0000

  /** The j-th dword of the section at start is zero, or lies past the buffer. */
  predicate ZeroDword(buf: bytes, start: nat, j: nat)
  {
    start + 4 * j + 4 > |buf| || Get(buf, start + 4 * j, 4) == 0
  }

  /** How many of the section's n dwords stand in front of its zero tail. */
  function Kept(buf: bytes, start: nat, n: nat): (r: nat)
    ensures r <= n
  {
    if n > 0 && ZeroDword(buf, start, n - 1) then Kept(buf, start, n - 1) else n
  }

  /** The tail is there and longer than 1 MiB. */
  predicate Trims(buf: bytes, start: nat, size: nat)
  {
    size > 0 && Kept(buf, start, size / 4) < size / 4 && size - 4 * Kept(buf, start, size / 4) > MIB
  }

  function NewSize(buf: bytes, start: nat, size: nat, fa: nat): nat
  {
    if Trims(buf, start, size) then AlignUp(4 * Kept(buf, start, size / 4), fa) else size
  }

  /** By how much the file shrinks: the old size counts up to the section alignment. */
  function Delta(buf: bytes, start: nat, size: nat, c: Config): int
  {
    if !Trims(buf, start, size) then 0
    else AlignUp(size, c.sectionAlignment) - NewSize(buf, start, size, c.fileAlignment)
  }

  function Ptr(ss: seq<PeSection>, k: nat): nat
    requires k < |ss|
  {
    ss[k].header.rawPtr
  }

  function Size(ss: seq<PeSection>, k: nat): nat
    requires k < |ss|
  {
    ss[k].header.rawSize
  }

  function Shrunk(s: PeSection, size: u32): PeSection { Sync(s.(header := s.header.(rawSize := size))) }

  predicate AllAtLeast(ss: seq<PeSection>, delta: int)
  {
    forall k :: 0 <= k < |ss| ==> delta <= ss[k].header.rawPtr
  }

  function Monus(a: nat, b: nat): nat { if a < b then 0 else a - b }

  /** The section table, what has been cut off so far, and the import address table's offset. */
  datatype Trim = Trim(sections: seq<PeSection>, total: nat, iat: nat)

  /** No sum and no subtraction made in cutting section i leaves its word. */
  predicate Fits(buf: bytes, t: Trim, i: nat, c: Config, sizeOfImage: nat)
    requires i < |t.sections|
  {
    var start, size := Ptr(t.sections, i), Size(t.sections, i);
    var oldEnd, delta := start + AlignUp(size, c.sectionAlignment), Delta(buf, start, size, c);
    && Rounds(size, c.sectionAlignment) && Rounds(4 * Kept(buf, start, size / 4), c.fileAlignment)
    && 0 <= delta && t.total + delta < TWO32 && oldEnd < TWO32
    && (i + 1 < |t.sections| ==> oldEnd <= sizeOfImage)
    && AllAtLeast(t.sections[i + 1..], delta)
  }

  function Cut(buf: bytes, t: Trim, i: nat, c: Config, sizeOfImage: nat): (r: Trim)
    requires i < |t.sections| && Trims(buf, Ptr(t.sections, i), Size(t.sections, i)) && Fits(buf, t, i, c, sizeOfImage)
    ensures |r.sections| == |t.sections|
  {
    var ss, start, size := t.sections, Ptr(t.sections, i), Size(t.sections, i);
    var delta := Delta(buf, start, size, c);
    RoundsUp(4 * Kept(buf, start, size / 4), c.fileAlignment);
    Trim(ss[..i] + [Shrunk(ss[i], NewSize(buf, start, size, c.fileAlignment))] + LoweredAll(ss[i + 1..], delta),
         t.total + delta,
         if t.iat >= start + AlignUp(size, c.sectionAlignment) then Monus(t.iat, delta) else t.iat)
  }

  /** The state once section i has been dealt with, or nothing where the program stops on an overflow. */
  function TrimOne(buf: bytes, t: Trim, i: nat, c: Config, sizeOfImage: nat): (r: Option<Trim>)
    requires i < |t.sections|
    ensures r.Some? ==> |r.value.sections| == |t.sections|
  {
    if !Trims(buf, Ptr(t.sections, i), Size(t.sections, i)) then Some(t)
    else if !Fits(buf, t, i, c, sizeOfImage) then None
    else Some(Cut(buf, t, i, c, sizeOfImage))
  }

  function TrimFrom(buf: bytes, t: Trim, i: nat, c: Config, sizeOfImage: nat): Option<Trim>
    requires i <= |t.sections|
    decreases |t.sections| - i
  {
    if i == |t.sections| then Some(t)
    else
      var u := TrimOne(buf, t, i, c, sizeOfImage);
      if u.None? then None else TrimFrom(buf, u.value, i + 1, c, sizeOfImage)
  }

  // ---- The trimming as the program runs it ----------------------------------------------------------

  /** The backward scan for the last dword that is not zero. */
  method FindZeroStart(buf: bytes, start: nat, size: nat) returns (zeroStart: Option<nat>)
    ensures zeroStart == if Kept(buf, start, size / 4) < size / 4 then Some(4 * Kept(buf, start, size / 4)) else None
  {
    hide Get;
    zeroStart := None;
    var j := size / 4;
    while j > 0
      invariant 0 <= j <= size / 4
      invariant Kept(buf, start, size / 4) == Kept(buf, start, j)
      invariant zeroStart == if j < size / 4 then Some(4 * j) else None
    {
      var at := start + 4 * (j - 1);
      if at + 4 > |buf| {
        zeroStart := Some(4 * (j - 1));
        j := j - 1;
        continue;
      }
      if Get(buf, at, 4) == 0 {
        zeroStart := Some(4 * (j - 1));
      } else {
        break;
      }
      j := j - 1;
    }
  }

  /** One section; not ok where the program stops. */
  method TrimSection(pe: PeHeader, buf: bytes, i: nat, total: nat, iat: nat)
    returns (ok: bool, newTotal: nat, newIat: nat)
    requires i < |pe.sections|
    modifies pe`sections
    ensures var t := TrimOne(buf, Trim(old(pe.sections), total, iat), i, pe.Conf(), pe.sizeOfImage);
      ok == t.Some? && (ok ==> t.value == Trim(pe.sections, newTotal, newIat))
  {
    hide AlignUp, Kept, LoweredAll, Rounds, AllAtLeast;
    ghost var t := Trim(pe.sections, total, iat);
    ok, newTotal, newIat := true, total, iat;
    var start, size := pe.sections[i].header.rawPtr, pe.sections[i].header.rawSize;
    if size == 0 {
      return;
    }
    var zeroStart := FindZeroStart(buf, start, size);
    if zeroStart.None? || size - zeroStart.value <= MIB {
      return;
    }
    ok := false;
    if !Rounds(size, pe.sectionAlignment) || !Rounds(zeroStart.value, pe.fileAlignment) {
      return;
    }
    RoundsUp(zeroStart.value, pe.fileAlignment);
    var oldSize, newSize := AlignUp(size, pe.sectionAlignment), AlignUp(zeroStart.value, pe.fileAlignment);
    if oldSize < newSize || total + (oldSize - newSize) >= TWO32 || start + oldSize >= TWO32
      || (i + 1 < |pe.sections| && pe.sizeOfImage < start + oldSize)
      || !AllAtLeast(pe.sections[i + 1..], oldSize - newSize)
    {
      return;
    }
    ok := true;
    var delta := oldSize - newSize;
    newTotal := total + delta;
    pe.sections := pe.sections[i := Sync(pe.sections[i].(header := pe.sections[i].header.(rawSize := newSize)))];
    LaterStill(t.sections, pe.sections, i, delta);
    pe.LowerFrom(i + 1, delta);
    SplitAt(t.sections, Shrunk(t.sections[i], newSize), i);
    if iat >= start + oldSize {
      newIat := Monus(iat, delta);
    }
  }

  lemma {:induction false} LaterStill(ss: seq<PeSection>, r: seq<PeSection>, i: nat, delta: nat)
    requires i < |ss| == |r| && AllAtLeast(ss[i + 1..], delta) && r[i + 1..] == ss[i + 1..]
    ensures forall k :: i < k < |r| ==> delta <= r[k].header.rawPtr
  {
    forall k | i < k < |r| ensures delta <= r[k].header.rawPtr {
      assert r[k] == r[i + 1..][k - i - 1] == ss[i + 1..][k - i - 1];
    }
  }

  lemma {:induction false} SplitAt<T>(ss: seq<T>, x: T, i: nat)
    requires i < |ss|
    ensures ss[i := x][..i + 1] == ss[..i] + [x] && ss[i := x][i + 1..] == ss[i + 1..]
  {
  }

  method TrimHugeSections(pe: PeHeader, buf: bytes, iatRawAddr: nat) returns (ok: bool, totalDelta: nat, newIat: nat)
    modifies pe`sections
    ensures var t := TrimFrom(buf, Trim(old(pe.sections), 0, iatRawAddr), 0, pe.Conf(), pe.sizeOfImage);
      ok == t.Some? && (ok ==> t.value == Trim(pe.sections, totalDelta, newIat))
  {
    hide TrimOne;
    ok, totalDelta, newIat := true, 0, iatRawAddr;
    for i := 0 to |pe.sections|
      invariant |pe.sections| == |old(pe.sections)| && ok
      invariant TrimFrom(buf, Trim(pe.sections, totalDelta, newIat), i, pe.Conf(), pe.sizeOfImage)
             == TrimFrom(buf, Trim(old(pe.sections), 0, iatRawAddr), 0, pe.Conf(), pe.sizeOfImage)
    {
      ok, totalDelta, newIat := TrimSection(pe, buf, i, totalDelta, newIat);
      if !ok {
        return;
      }
    }
  }

  // ---- The bookkeeping in closed form --------------------------------------------------------------

  /** What has been cut off in front of section k: each earlier section is judged at its shifted place. */
  function Shift(buf: bytes, ss: seq<PeSection>, c: Config, k: nat): int
    requires k <= |ss|
    decreases k, 0
  {
    if k == 0 then 0 else Shift(buf, ss, c, k - 1) + CutOf(buf, ss, c, k - 1)
  }

  function PlaceOf(buf: bytes, ss: seq<PeSection>, c: Config, k: nat): nat
    requires k < |ss|
    decreases k, 1
  {
    var d := Ptr(ss, k) - Shift(buf, ss, c, k);
    if d < 0 then 0 else d
  }

  function CutOf(buf: bytes, ss: seq<PeSection>, c: Config, k: nat): int
    requires k < |ss|
    decreases k, 2
  {
    Delta(buf, PlaceOf(buf, ss, c, k), Size(ss, k), c)
  }

  predicate IsCut(buf: bytes, ss: seq<PeSection>, c: Config, k: nat)
    requires k < |ss|
  {
    Trims(buf, PlaceOf(buf, ss, c, k), Size(ss, k))
  }

  function SizeLeft(buf: bytes, ss: seq<PeSection>, c: Config, k: nat): nat
    requires k < |ss|
  {
    NewSize(buf, PlaceOf(buf, ss, c, k), Size(ss, k), c.fileAlignment)
  }

  /** The room section k takes up before the run: a section that is cut counts up to the section alignment. */
  function Span(buf: bytes, ss: seq<PeSection>, c: Config, k: nat): nat
    requires k < |ss|
  {
    if IsCut(buf, ss, c, k) then AlignUp(Size(ss, k), c.sectionAlignment) else Size(ss, k)
  }

  lemma {:induction false} SpanSplits(buf: bytes, ss: seq<PeSection>, c: Config, k: nat)
    requires k < |ss|
    ensures Span(buf, ss, c, k) == SizeLeft(buf, ss, c, k) + CutOf(buf, ss, c, k)
    ensures !IsCut(buf, ss, c, k) ==> CutOf(buf, ss, c, k) == 0
  {
    hide AlignUp, Trims, PlaceOf;
  }

  lemma {:induction false} ShiftOpen(buf: bytes, ss: seq<PeSection>, c: Config, k: nat)
    requires k < |ss|
    ensures Shift(buf, ss, c, k + 1) == Shift(buf, ss, c, k) + CutOf(buf, ss, c, k)
  {
  }

  /** The cut of section k, if it is cut at all, leaves no word. */
  ghost predicate StepFits(buf: bytes, ss: seq<PeSection>, c: Config, sizeOfImage: nat, k: nat)
    requires k < |ss|
  {
    IsCut(buf, ss, c, k) ==>
      var place, size := PlaceOf(buf, ss, c, k), Size(ss, k);
      var oldEnd, gone := place + AlignUp(size, c.sectionAlignment), Shift(buf, ss, c, k) + CutOf(buf, ss, c, k);
      && Rounds(size, c.sectionAlignment) && Rounds(4 * Kept(buf, place, size / 4), c.fileAlignment)
      && 0 <= CutOf(buf, ss, c, k) && gone < TWO32 && oldEnd < TWO32
      && (k + 1 < |ss| ==> oldEnd <= sizeOfImage)
      && forall l :: k < l < |ss| ==> gone <= Ptr(ss, l)
  }

  /** Sections before i have been dealt with, the others moved by what was cut in front of i. */
  ghost predicate Stage(buf: bytes, ss: seq<PeSection>, c: Config, t: Trim, i: nat)
  {
    && i <= |ss| == |t.sections| && t.total == Shift(buf, ss, c, i)
    && forall k :: 0 <= k < |ss| ==> StageAt(buf, ss, c, t.sections, i, k)
  }

  ghost predicate StageAt(buf: bytes, ss: seq<PeSection>, c: Config, cur: seq<PeSection>, i: nat, k: nat)
    requires i <= |ss| == |cur| && k < |ss|
  {
    && Ptr(cur, k) == Ptr(ss, k) - Shift(buf, ss, c, if k < i then k else i)
    && Size(cur, k) == (if k < i then SizeLeft(buf, ss, c, k) else Size(ss, k))
    && (k < i ==> 0 <= CutOf(buf, ss, c, k))
    && cur[k].header.va == ss[k].header.va && cur[k].header.vsize == ss[k].header.vsize
    && (Mirrored(ss[k]) ==> Mirrored(cur[k]))
  }

  lemma {:induction false} StageNow(buf: bytes, ss: seq<PeSection>, c: Config, t: Trim, i: nat)
    requires Stage(buf, ss, c, t, i) && i < |ss|
    ensures Ptr(t.sections, i) == PlaceOf(buf, ss, c, i) == Ptr(ss, i) - Shift(buf, ss, c, i)
    ensures Size(t.sections, i) == Size(ss, i) && t.total == Shift(buf, ss, c, i)
  {
    hide Shift, SizeLeft, Mirrored, CutOf;
    assert StageAt(buf, ss, c, t.sections, i, i);
  }

  lemma {:induction false} StageLater(buf: bytes, ss: seq<PeSection>, c: Config, t: Trim, i: nat, delta: int)
    requires Stage(buf, ss, c, t, i) && i < |ss|
    ensures AllAtLeast(t.sections[i + 1..], delta)
       <==> forall l :: i < l < |ss| ==> Shift(buf, ss, c, i) + delta <= Ptr(ss, l)
  {
    hide Shift, SizeLeft, Mirrored, CutOf;
    var later := t.sections[i + 1..];
    forall j | 0 <= j < |later| ensures later[j].header.rawPtr == Ptr(ss, i + 1 + j) - Shift(buf, ss, c, i) {
      assert StageAt(buf, ss, c, t.sections, i, i + 1 + j);
    }
    if AllAtLeast(later, delta) {
      forall l | i < l < |ss| ensures Shift(buf, ss, c, i) + delta <= Ptr(ss, l) {
        var j := l - i - 1;
        assert delta <= later[j].header.rawPtr && i + 1 + j == l;
      }
    }
  }

  /** The program gets past section i exactly if its cut leaves no word. */
  lemma {:induction false} StepIff(buf: bytes, ss: seq<PeSection>, c: Config, t: Trim, i: nat, sizeOfImage: nat)
    requires Stage(buf, ss, c, t, i) && i < |ss|
    ensures |t.sections| == |ss|
    ensures TrimOne(buf, t, i, c, sizeOfImage).Some? <==> StepFits(buf, ss, c, sizeOfImage, i)
  {
    hide Shift, PlaceOf, AlignUp, Kept, Rounds, Trims, Delta, AllAtLeast, StageAt;
    StageNow(buf, ss, c, t, i);
    StageLater(buf, ss, c, t, i, CutOf(buf, ss, c, i));
  }

  /** Where section k stands after section i has been dealt with. */
  lemma {:induction false} TrimOneAt(buf: bytes, t: Trim, i: nat, c: Config, sizeOfImage: nat, k: nat)
    requires i < |t.sections| && k < |t.sections| && TrimOne(buf, t, i, c, sizeOfImage).Some?
    ensures var ss, u := t.sections, TrimOne(buf, t, i, c, sizeOfImage).value;
      var r, delta := u.sections, Delta(buf, Ptr(ss, i), Size(ss, i), c);
      && 0 <= delta && u.total == t.total + delta
      && Ptr(r, k) == (if k <= i then Ptr(ss, k) else Ptr(ss, k) - delta)
      && Size(r, k) == (if k == i then NewSize(buf, Ptr(ss, i), Size(ss, i), c.fileAlignment) else Size(ss, k))
      && r[k].header.va == ss[k].header.va && r[k].header.vsize == ss[k].header.vsize
      && (Mirrored(ss[k]) ==> Mirrored(r[k]))
  {
    hide AlignUp, Kept, CutNul, Trims, LoweredAll, Rounds;
  }

  lemma {:induction false} StageStep(buf: bytes, ss: seq<PeSection>, c: Config, t: Trim, i: nat, sizeOfImage: nat)
    requires Stage(buf, ss, c, t, i) && i < |ss| == |t.sections| && TrimOne(buf, t, i, c, sizeOfImage).Some?
    ensures Stage(buf, ss, c, TrimOne(buf, t, i, c, sizeOfImage).value, i + 1)
  {
    hide Shift, PlaceOf, Mirrored, TrimOne, Delta, NewSize;
    StageNow(buf, ss, c, t, i);
    ShiftOpen(buf, ss, c, i);
    var u, next := TrimOne(buf, t, i, c, sizeOfImage).value, i + 1;
    TrimOneAt(buf, t, i, c, sizeOfImage, i);
    forall k | 0 <= k < |ss| ensures StageAt(buf, ss, c, u.sections, next, k) {
      TrimOneAt(buf, t, i, c, sizeOfImage, k);
      assert StageAt(buf, ss, c, t.sections, i, k);
    }
  }

  lemma {:induction false} TrimFromOpen(buf: bytes, t: Trim, i: nat, c: Config, sizeOfImage: nat)
    requires i < |t.sections|
    ensures var u := TrimOne(buf, t, i, c, sizeOfImage);
      TrimFrom(buf, t, i, c, sizeOfImage) == if u.None? then None else TrimFrom(buf, u.value, i + 1, c, sizeOfImage)
  {
    hide TrimOne;
  }

  lemma {:induction false} Stages(buf: bytes, ss: seq<PeSection>, c: Config, t: Trim, i: nat, sizeOfImage: nat)
    requires Stage(buf, ss, c, t, i)
    ensures |t.sections| == |ss| && i <= |ss|
    ensures var r := TrimFrom(buf, t, i, c, sizeOfImage);
      && (r.Some? <==> forall k :: i <= k < |ss| ==> StepFits(buf, ss, c, sizeOfImage, k))
      && (r.Some? ==> Stage(buf, ss, c, r.value, |ss|))
    decreases |ss| - i
  {
    hide TrimOne, Shift, CutOf, StageAt, StepFits;
    if i < |ss| {
      TrimFromOpen(buf, t, i, c, sizeOfImage);
      StepIff(buf, ss, c, t, i, sizeOfImage);
      var u := TrimOne(buf, t, i, c, sizeOfImage);
      if u.Some? {
        StageStep(buf, ss, c, t, i, sizeOfImage);
        Stages(buf, ss, c, u.value, i + 1, sizeOfImage);
      }
    }
  }

  lemma {:induction false} StageStart(buf: bytes, ss: seq<PeSection>, c: Config, iat: nat)
    ensures Stage(buf, ss, c, Trim(ss, 0, iat), 0)
  {
    hide SizeLeft, Mirrored;
  }

  /** The whole run. */
  function Trimmed(buf: bytes, ss: seq<PeSection>, iat: nat, c: Config, sizeOfImage: nat): Option<Trim>
  {
    TrimFrom(buf, Trim(ss, 0, iat), 0, c, sizeOfImage)
  }

  /** The run gets to its end exactly if no cut leaves a word; the table's offset has no part in it. */
  lemma {:induction false} RunEndsIff(buf: bytes, ss: seq<PeSection>, iat: nat, c: Config, sizeOfImage: nat)
    ensures Trimmed(buf, ss, iat, c, sizeOfImage).Some?
       <==> forall k :: 0 <= k < |ss| ==> StepFits(buf, ss, c, sizeOfImage, k)
  {
    hide StepFits, TrimFrom, Stage;
    StageStart(buf, ss, c, iat);
    Stages(buf, ss, c, Trim(ss, 0, iat), 0, sizeOfImage);
  }

  /**
   * Every run: a section's raw pointer falls by what was cut off the sections before it, none below
   * zero; the result is the sum of all cuts; addresses and mirrors stay.
   */
  lemma {:induction false} TrimBookkeeping(buf: bytes, ss: seq<PeSection>, iat: nat, c: Config, sizeOfImage: nat,
      k: nat)
    requires Trimmed(buf, ss, iat, c, sizeOfImage).Some? && k < |ss|
    ensures var t := Trimmed(buf, ss, iat, c, sizeOfImage).value;
      && |t.sections| == |ss| && t.total == Shift(buf, ss, c, |ss|)
      && Shift(buf, ss, c, k) <= Ptr(ss, k) && 0 <= CutOf(buf, ss, c, k)
      && PlaceOf(buf, ss, c, k) == Ptr(t.sections, k) == Ptr(ss, k) - Shift(buf, ss, c, k)
      && Size(t.sections, k) == SizeLeft(buf, ss, c, k)
      && t.sections[k].header.va == ss[k].header.va && t.sections[k].header.vsize == ss[k].header.vsize
      && (Mirrored(ss[k]) ==> Mirrored(t.sections[k]))
  {
    hide Shift, SizeLeft, CutOf, TrimFrom, Mirrored;
    StageStart(buf, ss, c, iat);
    Stages(buf, ss, c, Trim(ss, 0, iat), 0, sizeOfImage);
    assert StageAt(buf, ss, c, Trimmed(buf, ss, iat, c, sizeOfImage).value.sections, |ss|, k);
  }

  // ---- When ranges stay apart ------------------------------------------------------------------------

  /** Each section starts behind the room of the one before. */
  ghost predicate Spaced(buf: bytes, ss: seq<PeSection>, c: Config)
  {
    forall k :: 0 < k < |ss| ==> Ptr(ss, k - 1) + Span(buf, ss, c, k - 1) <= Ptr(ss, k)
  }

  /** Cutting section i keeps a later section apart from it exactly if that one starts behind its aligned end. */
  lemma {:induction false} CutKeepsApartIff(buf: bytes, t: Trim, i: nat, c: Config, sizeOfImage: nat, l: nat)
    requires i < l < |t.sections| && Trims(buf, Ptr(t.sections, i), Size(t.sections, i))
    requires TrimOne(buf, t, i, c, sizeOfImage).Some?
    ensures var ss, r := t.sections, TrimOne(buf, t, i, c, sizeOfImage).value.sections;
      RawEnd(r[i]) <= r[l].header.rawPtr <==> Ptr(ss, i) + AlignUp(Size(ss, i), c.sectionAlignment) <= Ptr(ss, l)
  {
    hide AlignUp, Kept, TrimOne, Trims;
    TrimOneAt(buf, t, i, c, sizeOfImage, i);
    TrimOneAt(buf, t, i, c, sizeOfImage, l);
  }

  /** Neighbours apart means all apart. */
  lemma {:induction false} NeighboursApart(ss: seq<PeSection>, i: nat, j: nat)
    requires forall k :: 0 < k < |ss| ==> RawEnd(ss[k - 1]) <= ss[k].header.rawPtr
    requires i < j < |ss|
    ensures RawEnd(ss[i]) <= ss[j].header.rawPtr
    decreases j
  {
    if i < j - 1 {
      NeighboursApart(ss, i, j - 1);
    }
  }

  /**
   * A run leaves the raw ranges in order and apart exactly if each section started behind the room of the
   * one before.
   */
  lemma {:induction false} RunKeepsApartIff(buf: bytes, ss: seq<PeSection>, iat: nat, c: Config, sizeOfImage: nat)
    requires Trimmed(buf, ss, iat, c, sizeOfImage).Some?
    ensures RawApart(Trimmed(buf, ss, iat, c, sizeOfImage).value.sections) <==> Spaced(buf, ss, c)
  {
    hide Shift, SizeLeft, CutOf, Trimmed, Mirrored, Span, PlaceOf;
    if |ss| > 0 {
      TrimBookkeeping(buf, ss, iat, c, sizeOfImage, 0);
    } else {
      EmptyRun(buf, ss, iat, c, sizeOfImage);
    }
    var r := Trimmed(buf, ss, iat, c, sizeOfImage).value.sections;
    forall k | 0 < k < |ss|
      ensures RawEnd(r[k - 1]) <= r[k].header.rawPtr <==> Ptr(ss, k - 1) + Span(buf, ss, c, k - 1) <= Ptr(ss, k)
    {
      TrimBookkeeping(buf, ss, iat, c, sizeOfImage, k - 1);
      TrimBookkeeping(buf, ss, iat, c, sizeOfImage, k);
      ShiftOpen(buf, ss, c, k - 1);
      SpanSplits(buf, ss, c, k - 1);
    }
    if Spaced(buf, ss, c) {
      forall i, j | 0 <= i < j < |r| ensures RawEnd(r[i]) <= r[j].header.rawPtr {
        NeighboursApart(r, i, j);
      }
    }
  }

  lemma {:induction false} EmptyRun(buf: bytes, ss: seq<PeSection>, iat: nat, c: Config, sizeOfImage: nat)
    requires |ss| == 0
    ensures Trimmed(buf, ss, iat, c, sizeOfImage) == Some(Trim(ss, 0, iat))
  {
  }

  lemma {:induction false} SpacedLater(buf: bytes, ss: seq<PeSection>, c: Config, k: nat, l: nat)
    requires Spaced(buf, ss, c) && k < l < |ss|
    ensures Ptr(ss, k) + Span(buf, ss, c, k) <= Ptr(ss, l)
    decreases l
  {
    hide Span;
    if k < l - 1 {
      SpacedLater(buf, ss, c, k, l - 1);
    }
  }

  // ---- Runs that get to their end ----------------------------------------------------------------------

  /** What a caller can see to: the sizes round within 32 bits and the sections lie in the image. */
  predicate Sized(ss: seq<PeSection>, c: Config, sizeOfImage: nat)
  {
    && c.fileAlignment <= MIB
    && (forall k :: 0 <= k < |ss| ==> Rounds(Size(ss, k), c.sectionAlignment) && Rounds(Size(ss, k), c.fileAlignment))
    && (forall k :: 0 <= k < |ss| ==> Ptr(ss, k) + AlignUp(Size(ss, k), c.sectionAlignment) < TWO32)
    && (forall k :: 0 < k < |ss| ==> Ptr(ss, k) <= sizeOfImage)
  }

  lemma {:induction false} CutBound(buf: bytes, ss: seq<PeSection>, c: Config, k: nat)
    requires k < |ss| && c.fileAlignment <= MIB
    ensures 0 <= CutOf(buf, ss, c, k) <= Span(buf, ss, c, k)
    ensures SizeLeft(buf, ss, c, k) <= Size(ss, k)
  {
    hide AlignUp, Kept, PlaceOf;
  }

  lemma {:induction false} ShiftBound(buf: bytes, ss: seq<PeSection>, c: Config, k: nat)
    requires c.fileAlignment <= MIB && Spaced(buf, ss, c) && k < |ss|
    ensures 0 <= Shift(buf, ss, c, k) <= Ptr(ss, k)
    ensures PlaceOf(buf, ss, c, k) == Ptr(ss, k) - Shift(buf, ss, c, k)
  {
    hide CutOf, SizeLeft, Span;
    if k > 0 {
      ShiftBound(buf, ss, c, k - 1);
      CutBound(buf, ss, c, k - 1);
      ShiftOpen(buf, ss, c, k - 1);
    }
  }

  lemma {:induction false} RoundsBelow(v: nat, w: nat, a: nat)
    requires Rounds(w, a) && v + a <= w
    ensures Rounds(v, a)
  {
  }

  /** A section that is cut keeps so little that rounding it up stays below its size. */
  lemma {:induction false} KeptRounds(buf: bytes, start: nat, size: nat, fa: nat)
    requires Trims(buf, start, size) && Rounds(size, fa) && fa <= MIB
    ensures Rounds(4 * Kept(buf, start, size / 4), fa)
  {
    hide Kept, Rounds;
    RoundsBelow(4 * Kept(buf, start, size / 4), size, fa);
  }

  /** Such a run gets to its end. */
  lemma {:induction false} SpacedRunEnds(buf: bytes, ss: seq<PeSection>, iat: nat, c: Config, sizeOfImage: nat)
    requires Spaced(buf, ss, c) && Sized(ss, c, sizeOfImage)
    ensures Trimmed(buf, ss, iat, c, sizeOfImage).Some?
  {
    hide StepFits, Trimmed, Spaced, Sized;
    forall k | 0 <= k < |ss| ensures StepFits(buf, ss, c, sizeOfImage, k) {
      SpacedFits(buf, ss, c, sizeOfImage, k);
    }
    RunEndsIff(buf, ss, iat, c, sizeOfImage);
  }

  lemma {:induction false} SpacedFits(buf: bytes, ss: seq<PeSection>, c: Config, sizeOfImage: nat, k: nat)
    requires Spaced(buf, ss, c) && Sized(ss, c, sizeOfImage) && k < |ss|
    ensures StepFits(buf, ss, c, sizeOfImage, k)
  {
    hide Shift, CutOf, PlaceOf, AlignUp, Kept, Rounds, Spaced, Trims;
    ShiftBound(buf, ss, c, k);
    CutBound(buf, ss, c, k);
    if IsCut(buf, ss, c, k) {
      KeptRounds(buf, PlaceOf(buf, ss, c, k), Size(ss, k), c.fileAlignment);
      forall l | k < l < |ss| ensures Ptr(ss, k) + AlignUp(Size(ss, k), c.sectionAlignment) <= Ptr(ss, l) {
        SpacedLater(buf, ss, c, k, l);
      }
      if k + 1 < |ss| {
        assert Ptr(ss, k + 1) <= sizeOfImage;
      }
    }
  }

  /** Each section starts no earlier than the aligned end of every one before. */
  ghost predicate Gapped(ss: seq<PeSection>, sa: nat)
  {
    forall k, l :: 0 <= k < l < |ss| ==> Ptr(ss, k) + AlignUp(Size(ss, k), sa) <= Ptr(ss, l)
  }

  /** Then ranges stay apart whatever the buffer holds. */
  lemma {:induction false} GappedSpaced(buf: bytes, ss: seq<PeSection>, c: Config)
    requires Gapped(ss, c.sectionAlignment)
    ensures Spaced(buf, ss, c)
  {
    hide IsCut, AlignUp;
  }

  /**
   * A new section goes to the file-aligned end of the raw data, not to the section-aligned one: the
   * table stays gapped exactly if that is behind every section's aligned end.
   */
  lemma {:induction false} CreatedKeepsGappedIff(st: Layout, c: Config, name: bytes, vsize: u32)
    requires CanCreate(st, c, vsize) && Gapped(st.sections, c.sectionAlignment)
    ensures Gapped(Created(st, c, name, vsize).sections, c.sectionAlignment)
       <==> forall k :: 0 <= k < |st.sections| ==>
              Ptr(st.sections, k) + AlignUp(Size(st.sections, k), c.sectionAlignment)
              <= AlignUp(LastRawEnd(st.sections), c.fileAlignment)
  {
    hide AlignUp, LastRawEnd, CanCreate, NewSection;
    NewSectionIs(st, c, name, vsize);
    var ss, n, r := st.sections, |st.sections|, Created(st, c, name, vsize).sections;
    assert Ptr(r, n) == AlignUp(LastRawEnd(ss), c.fileAlignment);
    forall k | 0 <= k < n ensures Ptr(r, k) == Ptr(ss, k) && Size(r, k) == Size(ss, k) {
    }
    hide Ptr, Size;
    if Gapped(r, c.sectionAlignment) {
      forall k | 0 <= k < n
        ensures Ptr(ss, k) + AlignUp(Size(ss, k), c.sectionAlignment) <= AlignUp(LastRawEnd(ss), c.fileAlignment)
      {
        assert Ptr(r, k) + AlignUp(Size(r, k), c.sectionAlignment) <= Ptr(r, n);
      }
    }
  }

  // ---- The import address table ------------------------------------------------------------------------

  lemma {:induction false} TrimOneIat(buf: bytes, t: Trim, i: nat, c: Config, sizeOfImage: nat)
    requires i < |t.sections| && TrimOne(buf, t, i, c, sizeOfImage).Some?
    ensures var ss, u := t.sections, TrimOne(buf, t, i, c, sizeOfImage).value;
      var start, size := Ptr(ss, i), Size(ss, i);
      && (!Trims(buf, start, size) ==> u.iat == t.iat)
      && (Trims(buf, start, size) && t.iat >= start + AlignUp(size, c.sectionAlignment) ==>
            u.iat == Monus(t.iat, Delta(buf, start, size, c)))
      && (t.iat < start + NewSize(buf, start, size, c.fileAlignment) ==> u.iat == t.iat)
  {
    hide AlignUp, Kept, LoweredAll, Rounds, AllAtLeast, Shrunk;
  }

  /** The table's offset lies in what is left of section o. */
  ghost predicate Owns(buf: bytes, ss: seq<PeSection>, c: Config, o: nat, iat: nat)
  {
    o < |ss| && Ptr(ss, o) <= iat < Ptr(ss, o) + SizeLeft(buf, ss, c, o)
  }

  lemma {:induction false} OwnerIn(buf: bytes, ss: seq<PeSection>, c: Config, o: nat, iat: nat)
    requires Owns(buf, ss, c, o, iat)
    ensures o < |ss|
  {
  }

  lemma {:induction false} IatStages(buf: bytes, ss: seq<PeSection>, c: Config, t: Trim, i: nat, o: nat, iat: nat,
      sizeOfImage: nat)
    requires Stage(buf, ss, c, t, i) && Spaced(buf, ss, c) && Owns(buf, ss, c, o, iat)
    requires o < |ss| && t.iat == iat - Shift(buf, ss, c, if o < i then o else i)
    ensures |t.sections| == |ss| && i <= |ss|
    ensures var r := TrimFrom(buf, t, i, c, sizeOfImage); r.Some? ==> r.value.iat == iat - Shift(buf, ss, c, o)
    decreases |ss| - i
  {
    hide TrimOne, Shift, CutOf, StageAt, Owns, Spaced;
    if i < |ss| {
      TrimFromOpen(buf, t, i, c, sizeOfImage);
      var u := TrimOne(buf, t, i, c, sizeOfImage);
      if u.Some? {
        StageStep(buf, ss, c, t, i, sizeOfImage);
        ShiftOpen(buf, ss, c, i);
        IatStep(buf, ss, c, t, i, o, iat, sizeOfImage);
        IatStages(buf, ss, c, u.value, i + 1, o, iat, sizeOfImage);
      }
    }
  }

  /** The room of section i in front of o, and of o in front of i, while the run is at i. */
  lemma {:induction false} IatRoom(buf: bytes, ss: seq<PeSection>, c: Config, t: Trim, i: nat, o: nat, iat: nat)
    requires Stage(buf, ss, c, t, i) && i < |ss| && i != o && Spaced(buf, ss, c) && Owns(buf, ss, c, o, iat)
    ensures o < |ss| && |t.sections| == |ss|
    ensures i < o && IsCut(buf, ss, c, i) ==>
      Ptr(t.sections, i) + AlignUp(Size(ss, i), c.sectionAlignment) <= iat - Shift(buf, ss, c, i)
    ensures o < i ==> iat - Shift(buf, ss, c, o) < Ptr(t.sections, i)
  {
    hide Shift, SizeLeft, CutOf, IsCut, AlignUp, Mirrored, Spaced;
    StageNow(buf, ss, c, t, i);
    if i < o {
      SpacedLater(buf, ss, c, i, o);
    } else {
      StagePair(buf, ss, c, t, i, o);
    }
  }

  /** Once o has been dealt with, what is left of it lies in front of the place of every later section. */
  lemma {:induction false} StagePair(buf: bytes, ss: seq<PeSection>, c: Config, t: Trim, i: nat, o: nat)
    requires Stage(buf, ss, c, t, i) && o < i < |ss| && Spaced(buf, ss, c)
    ensures Ptr(ss, o) - Shift(buf, ss, c, o) + SizeLeft(buf, ss, c, o) <= Ptr(ss, i) - Shift(buf, ss, c, i)
  {
    PlacesApart(buf, ss, c, t, i, o, i);
  }

  lemma {:induction false} PlacesApart(buf: bytes, ss: seq<PeSection>, c: Config, t: Trim, i: nat, k: nat, l: nat)
    requires Stage(buf, ss, c, t, i) && k < l <= i < |ss| && Spaced(buf, ss, c)
    ensures Ptr(ss, k) - Shift(buf, ss, c, k) + SizeLeft(buf, ss, c, k) <= Ptr(ss, l) - Shift(buf, ss, c, l)
    decreases l
  {
    hide CutOf, SizeLeft, Shift, Span, Stage;
    SpanSplits(buf, ss, c, l - 1);
    ShiftOpen(buf, ss, c, l - 1);
    assert Ptr(ss, l - 1) + Span(buf, ss, c, l - 1) <= Ptr(ss, l);
    if k < l - 1 {
      PlacesApart(buf, ss, c, t, i, k, l - 1);
    }
  }

  /** Dealing with section i moves the offset along with section o if i lies in front of o, and not at all otherwise. */
  lemma {:induction false} IatStep(buf: bytes, ss: seq<PeSection>, c: Config, t: Trim, i: nat, o: nat, iat: nat,
      sizeOfImage: nat)
    requires Stage(buf, ss, c, t, i) && i < |ss| == |t.sections| && Spaced(buf, ss, c) && Owns(buf, ss, c, o, iat)
    requires o < |ss| && t.iat == iat - Shift(buf, ss, c, if o < i then o else i)
    requires TrimOne(buf, t, i, c, sizeOfImage).Some?
    ensures TrimOne(buf, t, i, c, sizeOfImage).value.iat == t.iat - (if i < o then CutOf(buf, ss, c, i) else 0)
  {
    hide Stage, Spaced, TrimOne, Shift, AlignUp, Trims, PlaceOf;
    StageNow(buf, ss, c, t, i);
    TrimOneIat(buf, t, i, c, sizeOfImage);
    TrimOneAt(buf, t, i, c, sizeOfImage, i);
    if i != o {
      IatRoom(buf, ss, c, t, i, o, iat);
    }
  }

  /** The table keeps its offset inside its own section. */
  lemma {:induction false} TrimKeepsIat(buf: bytes, ss: seq<PeSection>, iat: nat, c: Config, sizeOfImage: nat, o: nat)
    requires Trimmed(buf, ss, iat, c, sizeOfImage).Some? && Spaced(buf, ss, c) && Owns(buf, ss, c, o, iat)
    ensures var t := Trimmed(buf, ss, iat, c, sizeOfImage).value;
      |t.sections| == |ss| && o < |ss| && t.iat - Ptr(t.sections, o) == iat - Ptr(ss, o)
  {
    hide Shift, SizeLeft, TrimFrom, Mirrored, Stage, Owns, Spaced, CutOf;
    OwnerIn(buf, ss, c, o, iat);
    StageStart(buf, ss, c, iat);
    ShiftZero(buf, ss, c);
    IatStages(buf, ss, c, Trim(ss, 0, iat), 0, o, iat, sizeOfImage);
    TrimBookkeeping(buf, ss, iat, c, sizeOfImage, o);
  }

  lemma {:induction false} ShiftZero(buf: bytes, ss: seq<PeSection>, c: Config)
    ensures Shift(buf, ss, c, 0) == 0
  {
  }

  // ---- When only zeros are cut ---------------------------------------------------------------------------

  ghost predicate ZeroBetween(buf: bytes, a: nat, b: nat)
  {
    forall k :: a <= k < b && k < |buf| ==> buf[k] == 0
  }

  lemma {:induction false} ZeroBytes(b: bytes, o: nat, w: nat)
    requires o + w <= |b| && Get(b, o, w) == 0
    ensures forall k :: o <= k < o + w ==> b[k] == 0
    decreases w
  {
    if w != 0 {
      ZeroBytes(b, o + 1, w - 1);
    }
  }

  lemma {:induction false} ZeroWordOf(b: bytes, o: nat, w: nat)
    requires o + w <= |b| && forall k :: o <= k < o + w ==> b[k] == 0
    ensures Get(b, o, w) == 0
    decreases w
  {
    if w != 0 {
      ZeroWordOf(b, o + 1, w - 1);
    }
  }

  lemma {:induction false} TailIsZero(buf: bytes, start: nat, n: nat, k: nat)
    requires start + 4 * n <= |buf| && 4 * Kept(buf, start, n) <= k < 4 * n
    ensures buf[start + k] == 0
    decreases n
  {
    hide Get;
    if k >= 4 * (n - 1) {
      ZeroBytes(buf, start + 4 * (n - 1), 4);
    } else {
      TailIsZero(buf, start, n - 1, k);
    }
  }

  /** Dwords m to n being zero, the scan goes down to m at least. */
  lemma {:induction false} KeptBelow(buf: bytes, start: nat, n: nat, m: nat)
    requires m <= n && start + 4 * n <= |buf| && ZeroBetween(buf, start + 4 * m, start + 4 * n)
    ensures Kept(buf, start, n) <= m
    decreases n
  {
    hide Get;
    if m < n {
      ZeroWordOf(buf, start + 4 * (n - 1), 4);
      KeptBelow(buf, start, n - 1, m);
    }
  }

  /** From a dword boundary on, a section is zero exactly if the scan goes that far and its last odd bytes are zero. */
  lemma {:induction false} ZeroFromIff(buf: bytes, start: nat, size: nat, m: nat)
    requires start + size <= |buf| && 4 * m <= 4 * (size / 4)
    ensures ZeroBetween(buf, start + 4 * m, start + size)
       <==> Kept(buf, start, size / 4) <= m && ZeroBetween(buf, start + 4 * (size / 4), start + size)
  {
    hide Kept;
    var n := size / 4;
    if ZeroBetween(buf, start + 4 * m, start + size) {
      KeptBelow(buf, start, n, m);
    }
    if Kept(buf, start, n) <= m && ZeroBetween(buf, start + 4 * n, start + size) {
      forall k | start + 4 * m <= k < start + size ensures buf[k] == 0 {
        if k < start + 4 * n {
          TailIsZero(buf, start, n, k - start);
        }
      }
    }
  }

  /** What is left of a cut section is whole dwords, and less than it was. */
  lemma {:induction false} LeftAligned(buf: bytes, start: nat, size: nat, fa: nat)
    requires Trims(buf, start, size) && fa % 4 == 0 && fa <= MIB
    ensures NewSize(buf, start, size, fa) % 4 == 0 && NewSize(buf, start, size, fa) <= 4 * (size / 4)
    ensures 4 * Kept(buf, start, size / 4) <= NewSize(buf, start, size, fa)
  {
    hide Kept, AlignUp;
    var kept := Kept(buf, start, size / 4);
    if fa > 0 {
      MultipleOfFour(AlignUp(4 * kept, fa), fa);
    }
  }

  lemma {:induction false} MultipleOfFour(x: nat, fa: nat)
    requires fa > 0 && fa % 4 == 0 && x % fa == 0
    ensures x % 4 == 0
  {
    var q, f := x / fa, fa / 4;
    assert x == (4 * f) * q;
    Associate(4, f, q);
    ModUnique(x, 4, f * q, 0);
  }

  /**
   * Over a run, the bytes a section loses are all zero exactly if the scan at its old place would have
   * gone as far as the one at its shifted place did, and the one to three bytes behind its last whole
   * dword, which no scan looks at, are zero.
   */
  lemma {:induction false} RunCutsOnlyZerosIff(buf: bytes, ss: seq<PeSection>, iat: nat, c: Config, sizeOfImage: nat,
      k: nat)
    requires Trimmed(buf, ss, iat, c, sizeOfImage).Some? && k < |ss| && IsCut(buf, ss, c, k)
    requires Ptr(ss, k) + Size(ss, k) <= |buf| && c.fileAlignment % 4 == 0 && c.fileAlignment <= MIB
    ensures var t, start, size := Trimmed(buf, ss, iat, c, sizeOfImage).value, Ptr(ss, k), Size(ss, k);
      && |t.sections| == |ss|
      && (ZeroBetween(buf, start + Size(t.sections, k), start + size)
          <==> 4 * Kept(buf, start, size / 4) <= SizeLeft(buf, ss, c, k)
               && ZeroBetween(buf, start + 4 * (size / 4), start + size))
  {
    hide Trimmed, Kept, Trims, NewSize, ZeroBetween, PlaceOf, Shift, CutOf;
    TrimBookkeeping(buf, ss, iat, c, sizeOfImage, k);
    LeftAligned(buf, PlaceOf(buf, ss, c, k), Size(ss, k), c.fileAlignment);
    ZeroFromIff(buf, Ptr(ss, k), Size(ss, k), SizeLeft(buf, ss, c, k) / 4);
  }

  /** With nothing cut in front of it, only the bytes behind a section's last whole dword matter. */
  lemma {:induction false} FirstCutOnlyZerosIff(buf: bytes, ss: seq<PeSection>, iat: nat, c: Config, sizeOfImage: nat,
      k: nat)
    requires Trimmed(buf, ss, iat, c, sizeOfImage).Some? && k < |ss| && IsCut(buf, ss, c, k)
    requires Ptr(ss, k) + Size(ss, k) <= |buf| && c.fileAlignment % 4 == 0 && c.fileAlignment <= MIB
    requires forall j :: 0 <= j < k ==> !IsCut(buf, ss, c, j)
    ensures var t, start, size := Trimmed(buf, ss, iat, c, sizeOfImage).value, Ptr(ss, k), Size(ss, k);
      && |t.sections| == |ss|
      && (ZeroBetween(buf, start + Size(t.sections, k), start + size)
          <==> ZeroBetween(buf, start + 4 * (size / 4), start + size))
  {
    hide Trimmed, Kept, Trims, NewSize, ZeroBetween, PlaceOf, Shift, CutOf;
    NothingCut(buf, ss, c, k);
    TrimBookkeeping(buf, ss, iat, c, sizeOfImage, k);
    RunCutsOnlyZerosIff(buf, ss, iat, c, sizeOfImage, k);
    LeftAligned(buf, PlaceOf(buf, ss, c, k), Size(ss, k), c.fileAlignment);
  }

  lemma {:induction false} NothingCut(buf: bytes, ss: seq<PeSection>, c: Config, k: nat)
    requires k <= |ss| && forall j :: 0 <= j < k ==> !IsCut(buf, ss, c, j)
    ensures Shift(buf, ss, c, k) == 0
  {
    hide IsCut, CutOf;
    if k > 0 {
      NothingCut(buf, ss, c, k - 1);
      ShiftOpen(buf, ss, c, k - 1);
      SpanSplits(buf, ss, c, k - 1);
    }
  }

  // ---- One cut, field by field ----------------------------------------------------------------------------

  /** Of the n dwords from start on, kept stand in front of the tail: its dwords are zero or not in the buffer. */
  ghost predicate TailAfter(buf: bytes, start: nat, n: nat, kept: nat)
  {
    && kept <= n && (forall j :: kept <= j < n ==> NothingAt(buf, start, j))
    && (kept > 0 ==> !NothingAt(buf, start, kept - 1))
  }

  predicate NothingAt(buf: bytes, start: nat, j: nat)
  {
    var o := start + 4 * j;
    o + 4 > |buf| || (buf[o] == 0 && buf[o + 1] == 0 && buf[o + 2] == 0 && buf[o + 3] == 0)
  }

  lemma {:induction false} NothingIff(buf: bytes, start: nat, j: nat)
    ensures NothingAt(buf, start, j) <==> ZeroDword(buf, start, j)
  {
    var o := start + 4 * j;
    if o + 4 <= |buf| {
      if Get(buf, o, 4) == 0 {
        ZeroBytes(buf, o, 4);
      }
    }
  }

  lemma {:induction false} KeptIs(buf: bytes, start: nat, n: nat, kept: nat)
    ensures TailAfter(buf, start, n, kept) <==> kept == Kept(buf, start, n)
    decreases n
  {
    hide NothingAt, ZeroDword;
    if n > 0 {
      NothingIff(buf, start, n - 1);
      if ZeroDword(buf, start, n - 1) {
        KeptIs(buf, start, n - 1, kept);
      }
    }
  }

  /** What cutting section i leaves, its zero tail starting behind kept dwords. */
  ghost predicate CutTo(t: Trim, u: Trim, i: nat, kept: nat, c: Config)
    requires i < |t.sections|
  {
    var before := t.sections[i].header;
    && |u.sections| == |t.sections| && u.sections[..i] == t.sections[..i]
    && Mirrors(u.sections[i]) && u.sections[i].header == before.(rawSize := u.sections[i].header.rawSize)
    && RoundedUp(u.sections[i].header.rawSize, 4 * kept, c.fileAlignment)
    && t.total <= u.total
    && var delta := u.total - t.total;
       && RoundedUp(delta + u.sections[i].header.rawSize, before.rawSize, c.sectionAlignment)
       && (forall k :: i < k < |t.sections| ==> LoweredBy(t.sections[k], u.sections[k], delta))
       && u.iat == if before.rawPtr + delta + u.sections[i].header.rawSize <= t.iat
                   then (if delta <= t.iat then t.iat - delta else 0) else t.iat
  }

  predicate LoweredBy(s: PeSection, r: PeSection, delta: nat)
  {
    delta <= s.header.rawPtr && Mirrors(r) && r.header == s.header.(rawPtr := s.header.rawPtr - delta)
  }

  /**
   * A section is cut exactly if its tail of zero dwords, and of bytes behind its last whole dword, is longer than
   * 1 MiB. What is kept is rounded up to the file alignment; the room it gives up counts up to the section alignment,
   * and all later sections, and a table behind it, come forward by that.
   */
  lemma {:induction false} CutRule(buf: bytes, t: Trim, i: nat, c: Config, sizeOfImage: nat, kept: nat)
    requires i < |t.sections|
    requires TailAfter(buf, t.sections[i].header.rawPtr, t.sections[i].header.rawSize / 4, kept)
    ensures var size, r := t.sections[i].header.rawSize, TrimOne(buf, t, i, c, sizeOfImage);
      if kept < size / 4 && size - 4 * kept > 0x10_0000 then r.Some? ==> CutTo(t, r.value, i, kept, c)
      else r == Some(t)
  {
    hide Kept, LoweredAll, AlignUp, CutNul, TailAfter;
    KeptIs(buf, t.sections[i].header.rawPtr, t.sections[i].header.rawSize / 4, kept);
    if Trims(buf, Ptr(t.sections, i), Size(t.sections, i)) && Fits(buf, t, i, c, sizeOfImage) {
      CutOne(buf, t, i, c, sizeOfImage, kept);
    }
  }

  lemma {:induction false} CutOne(buf: bytes, t: Trim, i: nat, c: Config, sizeOfImage: nat, kept: nat)
    requires i < |t.sections| && Trims(buf, Ptr(t.sections, i), Size(t.sections, i)) && Fits(buf, t, i, c, sizeOfImage)
    requires kept == Kept(buf, Ptr(t.sections, i), Size(t.sections, i) / 4)
    ensures CutTo(t, Cut(buf, t, i, c, sizeOfImage), i, kept, c)
  {
    hide Kept, CutNul, Rounds;
    var u := Cut(buf, t, i, c, sizeOfImage);
    var delta := Delta(buf, Ptr(t.sections, i), Size(t.sections, i), c);
    forall k | i < k < |t.sections| ensures LoweredBy(t.sections[k], u.sections[k], delta) {
      assert t.sections[i + 1..][k - i - 1] == t.sections[k];
    }
  }
}
