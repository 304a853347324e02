/** Software breakpoints as an overlay on target memory (crates/core/src/windows_debugger.rs). */
module Breakpoints {
  import opened Words

  const INT3: u8 := 0xCC

  /** How a one-byte transfer goes: the byte, no byte although the call succeeds, or a failing call. */
  datatype Io = Done | Short | Fails

  datatype Result = Ok | MemoryRead | MemoryWrite | Windows

  /** The saved original bytes, and the memory of the target where it is mapped. */
  datatype State = State(soft: map<nat, u8>, mem: map<nat, u8>)

  /** No transfer succeeds at an unmapped address. */
  function Transfer(io: Io, mem: map<nat, u8>, a: nat): Io { if a in mem then io else Fails }

  /** What the target's memory holds once every breakpoint is taken back. */
  function Overlay(st: State): map<nat, u8>
  {
    map a | a in st.mem :: if a in st.soft then st.soft[a] else st.mem[a]
  }

  /** The breakpoint is known, but the byte in memory was not seen to be INT3: it is installed anew. */
  predicate Reinstalls(st: State, a: nat, check: Io)
  {
    a in st.soft && Transfer(check, st.mem, a) != Fails && !(Transfer(check, st.mem, a) == Done && st.mem[a] == INT3)
  }

  function Install(st: State, a: nat, read: Io, write: Io, flushed: bool): (State, Result)
  {
    if Transfer(read, st.mem, a) != Done then (st, MemoryRead)
    else
      var saved := st.(soft := st.soft[a := st.mem[a]]);
      if Transfer(write, st.mem, a) != Done then (saved, MemoryWrite)
      else (saved.(mem := st.mem[a := INT3]), if flushed then Ok else Windows)
  }

  function Set(st: State, a: nat, check: Io, read: Io, write: Io, flushed: bool): (State, Result)
  {
    if a !in st.soft then Install(st, a, read, write, flushed)
    else if Transfer(check, st.mem, a) == Fails then (st, MemoryRead)
    else if !Reinstalls(st, a, check) then (st, Ok)
    else Install(st.(soft := st.soft - {a}), a, read, write, flushed)
  }

  function Reset(st: State, a: nat, write: Io, flushed: bool): (State, Result)
  {
    if Transfer(write, st.mem, a) != Done then (st, MemoryWrite)
    else (st.(mem := st.mem[a := INT3]), if flushed then Ok else Windows)
  }

  /** The saved bytes of order are written back one after the other, up to the first failing write. */
  function Restore(mem: map<nat, u8>, soft: map<nat, u8>, order: seq<nat>, writes: seq<Io>): (map<nat, u8>, Result)
    requires |writes| == |order| && forall k :: 0 <= k < |order| ==> order[k] in soft
    decreases |order|
  {
    if order == [] then (mem, Ok)
    else
      assert order[0] in soft;
      match Transfer(writes[0], mem, order[0])
      case Fails => (mem, MemoryWrite)
      case Short => Restore(mem, soft, order[1..], writes[1..])
      case Done => Restore(mem[order[0] := soft[order[0]]], soft, order[1..], writes[1..])
  }

  /** The table is emptied before anything is written back. */
  function Clear(st: State, order: seq<nat>, writes: seq<Io>): (State, Result)
    requires Lists(order, st.soft) && |writes| == |order|
  {
    var r := Restore(st.mem, st.soft, order, writes);
    (State(map[], r.0), r.1)
  }

  /** order names each known breakpoint once. */
  ghost predicate Lists(order: seq<nat>, soft: map<nat, u8>)
  {
    && (forall k :: 0 <= k < |order| ==> order[k] in soft)
    && (forall a :: a in soft ==> a in order)
    && (forall k, l :: 0 <= k < l < |order| ==> order[k] != order[l])
  }

  class Debugger {
    var softBreakpoints: map<nat, u8>
    var memory: map<nat, u8>

    constructor (memory: map<nat, u8>)
      ensures Now() == State(map[], memory)
    {
      softBreakpoints, this.memory := map[], memory;
    }

    function Now(): State
      reads this
    {
      State(softBreakpoints, memory)
    }

    /** ReadProcessMemory: nothing for a failing call, else how many bytes came and the first of them. */
    method ReadMemory(a: nat, io: Io) returns (ok: bool, n: nat, byte: u8)
      ensures ok == (Transfer(io, memory, a) != Fails)
      ensures n == (if Transfer(io, memory, a) == Done then 1 else 0)
      ensures n == 1 ==> a in memory && byte == memory[a]
      ensures n == 0 ==> byte == 0
    {
      ok, n, byte := true, 0, 0;
      if a !in memory || io.Fails? {
        return false, 0, 0;
      }
      if io.Done? {
        n, byte := 1, memory[a];
      }
    }

    method WriteMemory(a: nat, byte: u8, io: Io) returns (ok: bool, n: nat)
      modifies `memory
      ensures ok == (Transfer(io, old(memory), a) != Fails)
      ensures n == (if Transfer(io, old(memory), a) == Done then 1 else 0)
      ensures memory == if n == 1 then old(memory)[a := byte] else old(memory)
    {
      ok, n := true, 0;
      if a !in memory || io.Fails? {
        return false, 0;
      }
      if io.Done? {
        memory := memory[a := byte];
        n := 1;
      }
    }

    method SetSoftBreakpoint(a: nat, check: Io, read: Io, write: Io, flushed: bool) returns (r: Result)
      modifies this
      ensures (Now(), r) == Set(old(Now()), a, check, read, write, flushed)
    {
      if a in softBreakpoints {
        var ok, n, current := ReadMemory(a, check);
        if !ok {
          return MemoryRead;
        }
        if n == 1 && current == INT3 {
          return Ok;
        }
        softBreakpoints := softBreakpoints - {a};
      }
      var ok, n, original := ReadMemory(a, read);
      if !ok || n != 1 {
        return MemoryRead;
      }
      softBreakpoints := softBreakpoints[a := original];
      ok, n := WriteMemory(a, INT3, write);
      if !ok || n != 1 {
        return MemoryWrite;
      }
      r := if flushed then Ok else Windows;
    }

    method ResetSoftBreakpoint(a: nat, write: Io, flushed: bool) returns (r: Result)
      modifies this
      ensures (Now(), r) == Reset(old(Now()), a, write, flushed)
    {
      var ok, n := WriteMemory(a, INT3, write);
      if !ok || n != 1 {
        return MemoryWrite;
      }
      r := if flushed then Ok else Windows;
    }

    /** order is the order the table happens to hand out its entries in. */
    method ClearAllSoftBreakpoints(order: seq<nat>, writes: seq<Io>) returns (r: Result)
      requires Lists(order, softBreakpoints) && |writes| == |order|
      modifies this
      ensures (Now(), r) == Clear(old(Now()), order, writes)
    {
      var entries := softBreakpoints;
      softBreakpoints := map[];
      for k := 0 to |order|
        invariant softBreakpoints == map[] && entries == old(softBreakpoints)
        invariant Restore(memory, entries, order[k..], writes[k..]) == Restore(old(memory), entries, order, writes)
      {
        assert order[k..][0] == order[k] && order[k..][1..] == order[k + 1..];
        assert writes[k..][0] == writes[k] && writes[k..][1..] == writes[k + 1..];
        var ok, n := WriteMemory(order[k], entries[order[k]], writes[k]);
        if !ok {
          return MemoryWrite;
        }
      }
      r := Ok;
    }
  }

  // ---- What stands in memory and in the table afterwards -------------------------------------------------

  /**
   * A breakpoint that is set, or was found armed, has 0xCC in memory; one that was not known has saved the byte
   * that stood there. No operation touches another address.
   */
  lemma {:induction false} SetArms(st: State, a: nat, check: Io, read: Io, write: Io, flushed: bool)
    ensures var (after, r) := Set(st, a, check, read, write, flushed);
      && (r == Ok || r == Windows ==> a in after.soft && a in after.mem && after.mem[a] == 0xCC)
      && (a !in st.soft && r != MemoryRead ==> a in st.mem && a in after.soft && after.soft[a] == st.mem[a])
      && (r == MemoryWrite ==> after.mem == st.mem)
      && after.mem.Keys == st.mem.Keys
      && forall b :: b != a ==>
           && (b in after.soft <==> b in st.soft) && (b in st.soft ==> after.soft[b] == st.soft[b])
           && (b in st.mem ==> after.mem[b] == st.mem[b])
  {
  }

  /** How setting ends, by how the calls go: a known breakpoint is looked at first, an unknown one is not. */
  lemma {:induction false} SetEnds(st: State, a: nat, check: Io, read: Io, write: Io, flushed: bool)
    ensures var (after, r) := Set(st, a, check, read, write, flushed);
      if a in st.soft && (a !in st.mem || check == Fails) then (after, r) == (st, MemoryRead)
      else if a in st.soft && check == Done && st.mem[a] == 0xCC then (after, r) == (st, Ok)
      else if a !in st.mem || read != Done then r == MemoryRead && after == st.(soft := st.soft - {a})
      else if write != Done then r == MemoryWrite && after.soft == st.soft[a := st.mem[a]]
      else r == (if flushed then Ok else Windows) && after.soft == st.soft[a := st.mem[a]]
  {
    assert (st.soft - {a})[a := 0] == st.soft[a := 0];
    if a in st.mem {
      assert (st.soft - {a})[a := st.mem[a]] == st.soft[a := st.mem[a]];
    }
    if a !in st.soft {
      assert st.soft - {a} == st.soft;
    }
  }

  /** Re-arming puts 0xCC at the address, mapped and written, and changes nothing else in any case. */
  lemma {:induction false} ResetArms(st: State, a: nat, write: Io, flushed: bool)
    ensures var (after, r) := Reset(st, a, write, flushed);
      && after.soft == st.soft
      && if a in st.mem && write == Done
         then after.mem == st.mem[a := 0xCC] && r == (if flushed then Ok else Windows)
         else after == st && r == MemoryWrite
  {
  }

  // ---- What the operations keep ------------------------------------------------------------------------

  /** Installing at an address that has no saved byte never changes the overlay, however the transfers go. */
  lemma {:induction false} InstallKeepsOverlay(st: State, a: nat, read: Io, write: Io, flushed: bool)
    requires a !in st.soft
    ensures Overlay(Install(st, a, read, write, flushed).0) == Overlay(st)
  {
  }

  lemma {:induction false} ForgetChangesOverlayIff(st: State, a: nat)
    requires a in st.soft
    ensures Overlay(st.(soft := st.soft - {a})) == Overlay(st) <==> (a in st.mem ==> st.soft[a] == st.mem[a])
  {
    var after := Overlay(st.(soft := st.soft - {a}));
    if a in st.mem {
      assert after[a] == st.mem[a] && Overlay(st)[a] == st.soft[a];
    }
    assert after.Keys == Overlay(st).Keys;
  }

  /**
   * Setting a breakpoint, also when its read or write fails, leaves the overlay as it is, exactly unless
   * it re-installs a breakpoint whose byte in memory is not the saved one.
   */
  lemma {:induction false} SetKeepsOverlayIff(st: State, a: nat, check: Io, read: Io, write: Io, flushed: bool)
    ensures Overlay(Set(st, a, check, read, write, flushed).0) == Overlay(st)
       <==> !(Reinstalls(st, a, check) && st.soft[a] != st.mem[a])
  {
    hide Install, Overlay;
    if a !in st.soft {
      InstallKeepsOverlay(st, a, read, write, flushed);
    } else if Reinstalls(st, a, check) {
      InstallKeepsOverlay(st.(soft := st.soft - {a}), a, read, write, flushed);
      ForgetChangesOverlayIff(st, a);
    }
  }

  /** A re-installed breakpoint saves the byte in memory, so the original one is lost. */
  lemma {:induction false} ReinstallForgetsOriginal()
    ensures var st := State(map[16 := 0x55], map[16 := 0x90]);
      var after := Set(st, 16, Done, Done, Done, true).0;
      Overlay(st)[16] == 0x55 && Overlay(after)[16] == 0x90 && after.mem[16] == INT3
  {
  }

  /** Re-arming leaves the overlay as it is exactly if the breakpoint is known, or nothing new is written. */
  lemma {:induction false} ResetKeepsOverlayIff(st: State, a: nat, write: Io, flushed: bool)
    ensures Overlay(Reset(st, a, write, flushed).0) == Overlay(st)
       <==> a in st.soft || Transfer(write, st.mem, a) != Done || st.mem[a] == INT3
  {
    var after := Reset(st, a, write, flushed).0;
    if a !in st.soft && Transfer(write, st.mem, a) == Done {
      assert Overlay(after)[a] == INT3 && Overlay(st)[a] == st.mem[a];
    }
    assert after.mem.Keys == st.mem.Keys;
  }

  /** The write for a is reached and succeeds. */
  predicate Restored(mem: map<nat, u8>, order: seq<nat>, writes: seq<Io>, a: nat)
    requires |writes| == |order|
    decreases |order|
  {
    order != [] && Transfer(writes[0], mem, order[0]) != Fails &&
    ((order[0] == a && writes[0] == Done) || Restored(mem, order[1..], writes[1..], a))
  }

  lemma {:induction false} RestoreAt(mem: map<nat, u8>, soft: map<nat, u8>, order: seq<nat>, writes: seq<Io>, a: nat)
    requires |writes| == |order| && (forall k :: 0 <= k < |order| ==> order[k] in soft)
    ensures var r := Restore(mem, soft, order, writes).0;
      && r.Keys == mem.Keys
      && (Restored(mem, order, writes, a) ==> a in mem && a in soft)
      && (a in mem ==> r[a] == if Restored(mem, order, writes, a) then soft[a] else mem[a])
    decreases |order|
  {
    if order != [] {
      var b := order[0];
      assert b in soft;
      var next := if Transfer(writes[0], mem, b) == Done then mem[b := soft[b]] else mem;
      RestoreAt(next, soft, order[1..], writes[1..], a);
      SameMapping(mem, next, order[1..], writes[1..], a);
    }
  }

  /** Which writes succeed depends on what is mapped, not on the bytes. */
  lemma {:induction false} SameMapping(m: map<nat, u8>, n: map<nat, u8>, order: seq<nat>, writes: seq<Io>, a: nat)
    requires |writes| == |order| && m.Keys == n.Keys
    ensures Restored(m, order, writes, a) == Restored(n, order, writes, a)
    decreases |order|
  {
    if order != [] {
      SameMapping(m, n, order[1..], writes[1..], a);
    }
  }

  /** The k-th byte is written back: no call before it failed, it is mapped, and its own one-byte write succeeds. */
  ghost predicate WrittenBack(mem: map<nat, u8>, order: seq<nat>, writes: seq<Io>, k: nat)
    requires |writes| == |order|
  {
    && k < |order| && order[k] in mem && writes[k] == Done
    && forall j :: 0 <= j < k ==> order[j] in mem && writes[j] != Fails
  }

  lemma {:induction false} RestoredIff(mem: map<nat, u8>, order: seq<nat>, writes: seq<Io>, a: nat)
    requires |writes| == |order|
    ensures Restored(mem, order, writes, a) <==> exists k: nat :: WrittenBack(mem, order, writes, k) && order[k] == a
    decreases |order|
  {
    if order != [] {
      RestoredIff(mem, order[1..], writes[1..], a);
      if k: nat :| WrittenBack(mem, order, writes, k) && order[k] == a {
        if k > 0 {
          assert order[0] in mem && writes[0] != Fails;
          forall j | 0 <= j < k - 1 ensures order[1..][j] in mem && writes[1..][j] != Fails {
            assert order[j + 1] in mem && writes[j + 1] != Fails;
          }
          assert WrittenBack(mem, order[1..], writes[1..], k - 1);
        }
      }
      if k: nat :| WrittenBack(mem, order[1..], writes[1..], k) && order[1..][k] == a {
        if order[0] in mem && writes[0] != Fails {
          forall j | 0 <= j < k + 1 ensures order[j] in mem && writes[j] != Fails {
            if j > 0 {
              assert order[1..][j - 1] in mem && writes[1..][j - 1] != Fails;
            }
          }
          assert WrittenBack(mem, order, writes, k + 1);
        }
      }
      if order[0] == a && a in mem && writes[0] == Done {
        assert WrittenBack(mem, order, writes, 0);
      }
    }
  }

  /** Clearing forgets every breakpoint, writes back the bytes up to the first failing call, and reports that one. */
  lemma {:induction false} ClearEnds(st: State, order: seq<nat>, writes: seq<Io>, a: nat)
    requires Lists(order, st.soft) && |writes| == |order|
    ensures var (after, r) := Clear(st, order, writes);
      && after.soft == map[] && after.mem.Keys == st.mem.Keys
      && (a in st.mem ==>
            after.mem[a] == if exists k: nat :: WrittenBack(st.mem, order, writes, k) && order[k] == a
                            then (if a in st.soft then st.soft[a] else 0) else st.mem[a])
      && r == (if exists k :: 0 <= k < |order| && (order[k] !in st.mem || writes[k] == Fails) then MemoryWrite else Ok)
  {
    hide Restore, Restored, WrittenBack;
    RestoreAt(st.mem, st.soft, order, writes, a);
    RestoredIff(st.mem, order, writes, a);
    RestoreResult(st.mem, st.soft, order, writes);
  }

  lemma {:induction false} RestoreResult(mem: map<nat, u8>, soft: map<nat, u8>, order: seq<nat>, writes: seq<Io>)
    requires |writes| == |order| && (forall k :: 0 <= k < |order| ==> order[k] in soft)
    ensures Restore(mem, soft, order, writes).1
         == if exists k :: 0 <= k < |order| && (order[k] !in mem || writes[k] == Fails) then MemoryWrite else Ok
    decreases |order|
  {
    if order != [] {
      assert order[0] in soft;
      var next := if Transfer(writes[0], mem, order[0]) == Done then mem[order[0] := soft[order[0]]] else mem;
      RestoreResult(next, soft, order[1..], writes[1..]);
      assert forall k :: 0 < k < |order| ==> order[k] == order[1..][k - 1] && writes[k] == writes[1..][k - 1];
      assert forall k :: 0 <= k < |order[1..]| ==> order[1..][k] == order[k + 1] && writes[1..][k] == writes[k + 1];
    }
  }

  /**
   * Clearing empties the table first; afterwards memory itself is what the overlay was, exactly if every
   * byte whose write was not reached or did not succeed was already the original.
   */
  lemma {:induction false} ClearRestoresIff(st: State, order: seq<nat>, writes: seq<Io>)
    requires Lists(order, st.soft) && |writes| == |order|
    ensures var after := Clear(st, order, writes).0;
      && after.soft == map[] && Overlay(after) == after.mem
      && (after.mem == Overlay(st)
          <==> forall a :: a in st.soft && a in st.mem && !Restored(st.mem, order, writes, a) ==>
              st.soft[a] == st.mem[a])
  {
    hide Restore, Restored;
    var after := Clear(st, order, writes).0;
    RestoreAt(st.mem, st.soft, order, writes, 0);
    forall a | a in st.mem
      ensures Restored(st.mem, order, writes, a) ==> a in st.soft
      ensures a in after.mem && after.mem[a] == if Restored(st.mem, order, writes, a) then st.soft[a] else st.mem[a]
    {
      RestoreAt(st.mem, st.soft, order, writes, a);
    }
    if after.mem == Overlay(st) {
      forall a | a in st.soft && a in st.mem && !Restored(st.mem, order, writes, a) ensures st.soft[a] == st.mem[a] {
        assert Overlay(st)[a] == after.mem[a];
      }
    }
  }

  // ---- Over whole debugging sessions -----------------------------------------------------------------------

  datatype Op = Arm(a: nat, check: Io, read: Io, write: Io, flushed: bool) | Rearm(a: nat, write: Io, flushed: bool)

  function Do(st: State, op: Op): State
  {
    match op
    case Arm(a, check, read, write, flushed) => Set(st, a, check, read, write, flushed).0
    case Rearm(a, write, flushed) => Reset(st, a, write, flushed).0
  }

  /** Breakpoints are re-armed only where one is known, and none is re-installed over a changed byte. */
  predicate Careful(st: State, op: Op)
  {
    match op
    case Arm(a, check, _, _, _) => !(Reinstalls(st, a, check) && st.soft[a] != st.mem[a])
    case Rearm(a, _, _) => a in st.soft
  }

  function Run(st: State, ops: seq<Op>): State
    decreases |ops|
  {
    if ops == [] then st else Run(Do(st, ops[0]), ops[1..])
  }

  predicate CarefulRun(st: State, ops: seq<Op>)
    decreases |ops|
  {
    ops != [] ==> Careful(st, ops[0]) && CarefulRun(Do(st, ops[0]), ops[1..])
  }

  lemma {:induction false} RunKeepsOverlay(st: State, ops: seq<Op>)
    requires CarefulRun(st, ops)
    ensures Overlay(Run(st, ops)) == Overlay(st)
    decreases |ops|
  {
    hide Overlay, Set, Reset;
    if ops != [] {
      match ops[0] {
        case Arm(a, check, read, write, flushed) => SetKeepsOverlayIff(st, a, check, read, write, flushed);
        case Rearm(a, write, flushed) => ResetKeepsOverlayIff(st, a, write, flushed);
      }
      RunKeepsOverlay(Do(st, ops[0]), ops[1..]);
    }
  }

  /**
   * However many breakpoints are set and re-armed, with whatever failures in between: clearing them all
   * with writes that succeed leaves the target's memory exactly as it was before the first one.
   */
  lemma {:induction false} SessionLeavesNoTrace(mem: map<nat, u8>, ops: seq<Op>, order: seq<nat>, writes: seq<Io>)
    requires CarefulRun(State(map[], mem), ops)
    requires var end := Run(State(map[], mem), ops);
      && Lists(order, end.soft) && |writes| == |order|
      && forall a :: a in end.soft ==> Restored(end.mem, order, writes, a)
    ensures Clear(Run(State(map[], mem), ops), order, writes).0 == State(map[], mem)
  {
    hide Restored, Restore, Run, CarefulRun;
    var start, end := State(map[], mem), Run(State(map[], mem), ops);
    RunKeepsOverlay(start, ops);
    assert Overlay(start) == mem;
    ClearRestoresIff(end, order, writes);
  }
}
