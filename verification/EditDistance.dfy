/** Suggestions for mistyped commands (crates/cli/src/args.rs). */
module EditDistance {
  import opened Options

  // ---- What distance means: the fewest single edits ---------------------------------------------------

  datatype Edit<T> = Insert(at: nat, item: T) | Delete(at: nat) | Substitute(at: nat, item: T)

  predicate Applies<T>(s: seq<T>, e: Edit<T>)
  {
    match e
    case Insert(at, _) => at <= |s|
    case Delete(at) => at < |s|
    case Substitute(at, _) => at < |s|
  }

  function Apply<T>(s: seq<T>, e: Edit<T>): seq<T>
    requires Applies(s, e)
  {
    match e
    case Insert(at, item) => s[..at] + [item] + s[at..]
    case Delete(at) => s[..at] + s[at + 1..]
    case Substitute(at, item) => s[at := item]
  }

  /** The script es turns s into t. */
  predicate Turns<T(==)>(s: seq<T>, es: seq<Edit<T>>, t: seq<T>)
    decreases |es|
  {
    if es == [] then s == t else Applies(s, es[0]) && Turns(Apply(s, es[0]), es[1..], t)
  }

  function Min3(x: nat, y: nat, z: nat): (r: nat)
    ensures r <= x && r <= y && r <= z && (r == x || r == y || r == z)
  {
    if x <= y && x <= z then x else if y <= z then y else z
  }

  function Differ<T(==)>(x: T, y: T): nat { if x == y then 0 else 1 }

  /** The recurrence the table is filled by, on what is left of both strings from the front. */
  function Lev<T(==)>(a: seq<T>, b: seq<T>): nat
    decreases |a| + |b|
  {
    if a == [] then |b|
    else if b == [] then |a|
    else
      var i, j := |a| - 1, |b| - 1;
      Min3(Lev(a[..i], b[..j]) + Differ(a[i], b[j]), Lev(a[..i], b) + 1, Lev(a, b[..j]) + 1)
  }

  lemma {:induction false} LevSnoc<T>(a: seq<T>, x: T, b: seq<T>, y: T)
    ensures Lev(a + [x], b + [y]) == Min3(Lev(a, b) + Differ(x, y), Lev(a, b + [y]) + 1, Lev(a + [x], b) + 1)
  {
    assert (a + [x])[..|a|] == a && (b + [y])[..|b|] == b;
  }

  lemma {:induction false} Snoc<T>(s: seq<T>)
    requires s != []
    ensures s == s[..|s| - 1] + [s[|s| - 1]]
  {
  }

  /** Two strings that differ in at most one place are at most one apart from the point of view of any third. */
  lemma {:induction false} OneEditApart<T>(p: seq<T>, u: seq<T>, v: seq<T>, q: seq<T>, z: seq<T>)
    requires |u| <= 1 && |v| <= 1
    ensures Lev(p + u + q, z) <= Lev(p + v + q, z) + 1
    decreases |q| + |z|, |u| + |v|
  {
    hide Lev, Min3, Differ;
    if z == [] {
      LevNil(p + u + q);
      LevNil(p + v + q);
    } else {
      var y, e := z[..|z| - 1], z[|z| - 1];
      Snoc(z);
      OneEditApart(p, u, v, q, y);
      if q != [] {
        var r, f := q[..|q| - 1], q[|q| - 1];
        Snoc(q);
        SameEnd(p, u, r, f);
        SameEnd(p, v, r, f);
        OneEditApart(p, u, v, r, y);
        OneEditApart(p, u, v, r, z);
        LevSnoc(p + u + r, f, y, e);
        LevSnoc(p + v + r, f, y, e);
      } else {
        assert p + u + q == p + u && p + v + q == p + v;
        LastEditApart(p, u, v, y, e);
      }
    }
  }

  lemma {:induction false} SameEnd<T>(p: seq<T>, u: seq<T>, r: seq<T>, f: T)
    ensures p + u + (r + [f]) == (p + u + r) + [f]
  {
  }

  lemma {:induction false} LevNil<T>(a: seq<T>)
    ensures Lev(a, []) == |a| && Lev([], a) == |a|
  {
  }

  /** Growing either string by one costs at most one. */
  lemma {:induction false} LevGrow<T>(a: seq<T>, b: seq<T>, x: T)
    ensures Lev(a + [x], b) <= Lev(a, b) + 1 && Lev(a, b + [x]) <= Lev(a, b) + 1
  {
    LevNil(a);
    LevNil(b);
    LevNil(a + [x]);
    LevNil(b + [x]);
    if b != [] {
      Snoc(b);
      LevSnoc(a, x, b[..|b| - 1], b[|b| - 1]);
    }
    if a != [] {
      Snoc(a);
      LevSnoc(a[..|a| - 1], a[|a| - 1], b, x);
    }
  }

  /** The edit is at the very end. */
  lemma {:induction false} LastEditApart<T>(p: seq<T>, u: seq<T>, v: seq<T>, y: seq<T>, e: T)
    requires |u| <= 1 && |v| <= 1
    requires Lev(p + u, y) <= Lev(p + v, y) + 1
    ensures Lev(p + u, y + [e]) <= Lev(p + v, y + [e]) + 1
  {
    hide Lev, Min3;
    LevGrow(p + u, y, e);
    LevGrow(p, y, e);
    if v == [] {
      assert p + v == p;
      if u == [] {
        assert p + u == p;
      } else {
        assert u == [u[0]];
        LevGrow(p, y + [e], u[0]);
      }
    } else {
      assert v == [v[0]];
      LevSnoc(p, v[0], y, e);
      if u == [] {
        assert p + u == p;
      } else {
        assert u == [u[0]];
        LevGrow(p, y + [e], u[0]);
        LevGrow(p, y, u[0]);
        LevSnoc(p, u[0], y, e);
      }
    }
  }

  /** One edit changes the distance to any string by at most one. */
  lemma {:induction false} EditCosts<T>(s: seq<T>, e: Edit<T>, z: seq<T>)
    requires Applies(s, e)
    ensures Lev(s, z) <= Lev(Apply(s, e), z) + 1
  {
    hide Lev;
    match e {
      case Insert(at, item) =>
        assert s == s[..at] + [] + s[at..];
        OneEditApart(s[..at], [], [item], s[at..], z);
      case Delete(at) =>
        assert s == s[..at] + [s[at]] + s[at + 1..] && Apply(s, e) == s[..at] + [] + s[at + 1..];
        OneEditApart(s[..at], [s[at]], [], s[at + 1..], z);
      case Substitute(at, item) =>
        assert s == s[..at] + [s[at]] + s[at + 1..] && Apply(s, e) == s[..at] + [item] + s[at + 1..];
        OneEditApart(s[..at], [s[at]], [item], s[at + 1..], z);
    }
  }

  lemma {:induction false} LevSelf<T>(s: seq<T>)
    ensures Lev(s, s) == 0
  {
    if s != [] {
      LevSelf(s[..|s| - 1]);
      Snoc(s);
      LevSnoc(s[..|s| - 1], s[|s| - 1], s[..|s| - 1], s[|s| - 1]);
    }
  }

  /** No script is shorter. */
  lemma {:induction false} NoShorterScript<T>(s: seq<T>, es: seq<Edit<T>>, t: seq<T>)
    requires Turns(s, es, t)
    ensures Lev(s, t) <= |es|
    decreases |es|
  {
    hide Lev, Apply, Applies;
    if es == [] {
      LevSelf(s);
    } else {
      EditCosts(s, es[0], t);
      NoShorterScript(Apply(s, es[0]), es[1..], t);
    }
  }

  lemma {:induction false} TurnsCons<T>(s: seq<T>, e: Edit<T>, es: seq<Edit<T>>, t: seq<T>)
    requires Applies(s, e) && Turns(Apply(s, e), es, t)
    ensures Turns(s, [e] + es, t)
  {
    hide Applies, Apply;
    assert ([e] + es)[1..] == es;
  }

  /** A script also works on a string with something behind it. */
  lemma {:induction false} TurnsBefore<T>(s: seq<T>, es: seq<Edit<T>>, t: seq<T>, x: T)
    requires Turns(s, es, t)
    ensures Turns(s + [x], es, t + [x])
    decreases |es|
  {
    if es != [] {
      assert Apply(s + [x], es[0]) == Apply(s, es[0]) + [x];
      TurnsBefore(Apply(s, es[0]), es[1..], t, x);
    }
  }

  /** One more edit at the end of a script. */
  lemma {:induction false} TurnsThen<T>(s: seq<T>, es: seq<Edit<T>>, t: seq<T>, e: Edit<T>)
    requires Turns(s, es, t) && Applies(t, e)
    ensures Turns(s, es + [e], Apply(t, e))
    decreases |es|
  {
    hide Applies, Apply;
    if es == [] {
      assert [e][1..] == [];
      assert es + [e] == [e];
    } else {
      TurnsThen(Apply(s, es[0]), es[1..], t, e);
      assert (es + [e])[1..] == es[1..] + [e] && (es + [e])[0] == es[0];
    }
  }

  /** A script as short as the distance. */
  function Script<T(==)>(a: seq<T>, b: seq<T>): (es: seq<Edit<T>>)
    ensures |es| == Lev(a, b)
    decreases |a| + |b|
  {
    if a == [] && b == [] then []
    else if a == [] then
      LevNil(b);
      LevNil(b[..|b| - 1]);
      Script(a, b[..|b| - 1]) + [Insert(|b| - 1, b[|b| - 1])]
    else if b == [] then [Delete(|a| - 1)] + Script(a[..|a| - 1], b)
    else
      var i, j := |a| - 1, |b| - 1;
      if Lev(a, b) == Lev(a[..i], b[..j]) + Differ(a[i], b[j]) then
        Script(a[..i], b[..j]) + (if a[i] == b[j] then [] else [Substitute(j, b[j])])
      else if Lev(a, b) == Lev(a[..i], b) + 1 then [Delete(i)] + Script(a[..i], b)
      else Script(a, b[..j]) + [Insert(j, b[j])]
  }

  lemma {:induction false} ScriptTurns<T>(a: seq<T>, b: seq<T>)
    ensures Turns(a, Script(a, b), b)
    decreases |a| + |b|
  {
    hide Turns, Lev;
    if a == [] && b == [] {
      NothingToDo(a);
    } else if a == [] {
      ScriptTurns(a, b[..|b| - 1]);
      InsertLast(a, b, Script(a, b[..|b| - 1]));
    } else if b == [] {
      ScriptTurns(a[..|a| - 1], b);
      DeleteLast(a, b, Script(a[..|a| - 1], b));
    } else {
      var i, j := |a| - 1, |b| - 1;
      if Lev(a, b) == Lev(a[..i], b[..j]) + Differ(a[i], b[j]) {
        ScriptTurns(a[..i], b[..j]);
        ReplaceLast(a, b, Script(a[..i], b[..j]));
      } else if Lev(a, b) == Lev(a[..i], b) + 1 {
        ScriptTurns(a[..i], b);
        DeleteLast(a, b, Script(a[..i], b));
      } else {
        ScriptTurns(a, b[..j]);
        InsertLast(a, b, Script(a, b[..j]));
      }
    }
  }

  lemma {:induction false} NothingToDo<T>(a: seq<T>)
    ensures Turns(a, [], a)
  {
  }

  lemma {:induction false} InsertLast<T>(a: seq<T>, b: seq<T>, es: seq<Edit<T>>)
    requires b != [] && Turns(a, es, b[..|b| - 1])
    ensures Turns(a, es + [Insert(|b| - 1, b[|b| - 1])], b)
  {
    hide Turns;
    var t, e := b[..|b| - 1], Insert(|b| - 1, b[|b| - 1]);
    TurnsThen(a, es, t, e);
    assert Apply(t, e) == b;
  }

  lemma {:induction false} DeleteLast<T>(a: seq<T>, b: seq<T>, es: seq<Edit<T>>)
    requires a != [] && Turns(a[..|a| - 1], es, b)
    ensures Turns(a, [Delete(|a| - 1)] + es, b)
  {
    hide Turns;
    assert Apply(a, Delete(|a| - 1)) == a[..|a| - 1];
    TurnsCons(a, Delete(|a| - 1), es, b);
  }

  lemma {:induction false} ReplaceLast<T>(a: seq<T>, b: seq<T>, es: seq<Edit<T>>)
    requires a != [] && b != [] && Turns(a[..|a| - 1], es, b[..|b| - 1])
    ensures var x, y := a[|a| - 1], b[|b| - 1];
      Turns(a, es + (if x == y then [] else [Substitute(|b| - 1, y)]), b)
  {
    hide Turns;
    var x, y, t := a[|a| - 1], b[|b| - 1], b[..|b| - 1];
    Snoc(a);
    Snoc(b);
    TurnsBefore(a[..|a| - 1], es, t, x);
    if x == y {
      assert es + [] == es;
    } else {
      TurnsThen(a, es, t + [x], Substitute(|b| - 1, y));
      assert Apply(t + [x], Substitute(|b| - 1, y)) == b;
    }
  }

  /** The recurrence computes the length of a shortest edit script, for all strings. */
  lemma {:induction false} LevIsShortestScript<T>(a: seq<T>, b: seq<T>)
    ensures exists es :: Turns(a, es, b) && |es| == Lev(a, b)
    ensures forall es :: Turns(a, es, b) ==> Lev(a, b) <= |es|
  {
    ScriptTurns(a, b);
    forall es | Turns(a, es, b) ensures Lev(a, b) <= |es| {
      NoShorterScript(a, es, b);
    }
  }

  /** Strings whose lengths differ by n are at least n edits apart. */
  lemma {:induction false} LengthGap<T>(a: seq<T>, b: seq<T>)
    ensures Lev(a, b) >= |a| - |b| && Lev(a, b) >= |b| - |a|
    decreases |a| + |b|
  {
    if a != [] && b != [] {
      LengthGap(a[..|a| - 1], b[..|b| - 1]);
      LengthGap(a[..|a| - 1], b);
      LengthGap(a, b[..|b| - 1]);
    }
  }

  // ---- The two-row table ----------------------------------------------------------------------------------

  /** What the table's cell for the first i and j items holds. */
  function Cell<T(==)>(a: seq<T>, b: seq<T>, i: nat, j: nat): nat
    requires i <= |a| && j <= |b|
  {
    Lev(a[..i], b[..j])
  }

  lemma {:induction false} CellNext<T>(a: seq<T>, b: seq<T>, i: nat, j: nat)
    requires i < |a| && j < |b|
    ensures Cell(a, b, i + 1, j + 1)
         == Min3(Cell(a, b, i, j) + Differ(a[i], b[j]), Cell(a, b, i, j + 1) + 1, Cell(a, b, i + 1, j) + 1)
  {
    assert a[..i + 1] == a[..i] + [a[i]] && b[..j + 1] == b[..j] + [b[j]];
    LevSnoc(a[..i], a[i], b[..j], b[j]);
  }

  lemma {:induction false} CellEdge<T>(a: seq<T>, b: seq<T>, i: nat, j: nat)
    requires i <= |a| && j <= |b|
    ensures Cell(a, b, 0, j) == j && Cell(a, b, i, 0) == i
    ensures Cell(a, b, |a|, |b|) == Lev(a, b)
  {
    LevNil(a[..i]);
    LevNil(b[..j]);
    assert a[..|a|] == a && b[..|b|] == b;
  }

  method EditDistanceCapped(a: string, b: string, cap: nat) returns (r: nat)
    ensures r == if |a| > |b| + cap || |b| > |a| + cap then cap + 1 else Lev(a, b)
    ensures r <= cap <==> Lev(a, b) <= cap
  {
    hide Lev, Cell;
    LengthGap(a, b);
    if |a| > |b| + cap || |b| > |a| + cap {
      return cap + 1;
    }
    var prev := new nat[|b| + 1](j => j);
    var cur := new nat[|b| + 1](_ => 0);
    forall j: nat | j <= |b| ensures prev[j] == Cell(a, b, 0, j) {
      CellEdge(a, b, 0, j);
    }
    for i := 0 to |a|
      invariant prev != cur && prev.Length == cur.Length == |b| + 1 && fresh(prev) && fresh(cur)
      invariant forall j: nat :: j <= |b| ==> prev[j] == Cell(a, b, i, j)
    {
      cur[0] := i + 1;
      CellEdge(a, b, i + 1, 0);
      FillRow(a, b, i, prev, cur);
      prev, cur := cur, prev;
    }
    CellEdge(a, b, |a|, |b|);
    r := prev[|b|];
  }

  /** One row from the one above it. */
  method FillRow(a: string, b: string, i: nat, prev: array<nat>, cur: array<nat>)
    requires i < |a| && prev != cur && prev.Length == cur.Length == |b| + 1
    requires (forall j: nat :: j <= |b| ==> prev[j] == Cell(a, b, i, j)) && cur[0] == Cell(a, b, i + 1, 0)
    modifies cur
    ensures forall j: nat :: j <= |b| ==> cur[j] == Cell(a, b, i + 1, j)
  {
    hide Cell;
    for j := 0 to |b|
      invariant forall k: nat :: k <= j ==> cur[k] == Cell(a, b, i + 1, k)
    {
      CellNext(a, b, i, j);
      var sub := prev[j] + (if a[i] != b[j] then 1 else 0);
      var best := if sub <= prev[j + 1] + 1 then sub else prev[j + 1] + 1;
      cur[j + 1] := if best <= cur[j] + 1 then best else cur[j] + 1;
    }
  }

  // ---- The suggestion ------------------------------------------------------------------------------------

  const KNOWN_COMMANDS: seq<string> :=
    ["unpack", "analyze", "dump-process", "dump-image", "verify", "interactive", "version", "help"]

  function LowerAscii(s: string): string
  {
    seq(|s|, k requires 0 <= k < |s| => if 'A' <= s[k] <= 'Z' then (s[k] as int + 32) as char else s[k])
  }

  /** Leading slashes and dashes do not count. */
  function TrimPrefix(s: string): string
  {
    if s != [] && (s[0] == '/' || s[0] == '-') then TrimPrefix(s[1..]) else s
  }

  function Needle(input: string): string { LowerAscii(TrimPrefix(input)) }

  /** A prefix of three letters or more is as good as one edit. */
  function Score(needle: string, cmd: string): nat
  {
    if needle <= cmd && |needle| >= 3 then 1 else Lev(needle, cmd)
  }

  /** Some script of at most n single edits turns s into t. */
  ghost predicate WithinEdits(s: string, t: string, n: nat)
  {
    exists es: seq<Edit<char>> :: Turns(s, es, t) && |es| <= n
  }

  /** What a score means: three letters or more that a command starts with count as one edit, all else as it is. */
  lemma {:induction false} ScoreIff(needle: string, cmd: string, n: nat)
    ensures Score(needle, cmd) <= n
       <==> if |needle| >= 3 && needle <= cmd then n >= 1 else WithinEdits(needle, cmd, n)
  {
    hide Lev;
    WithinIff(needle, cmd, n);
  }

  lemma {:induction false} WithinIff(s: string, t: string, n: nat)
    ensures WithinEdits(s, t, n) <==> Lev(s, t) <= n
  {
    hide Lev, Turns;
    if Lev(s, t) <= n {
      ScriptTurns(s, t);
      assert |Script(s, t)| <= n;
    }
    if es: seq<Edit<char>> :| Turns(s, es, t) && |es| <= n {
      NoShorterScript(s, es, t);
    }
  }

  /** What is looked up: the input without the slashes and dashes in front, in lower case. */
  lemma {:induction false} NeedleIs(input: string) returns (marks: nat)
    ensures marks + |Needle(input)| == |input|
    ensures forall k :: 0 <= k < marks ==> input[k] == '/' || input[k] == '-'
    ensures marks < |input| ==> input[marks] != '/' && input[marks] != '-'
    ensures forall k :: 0 <= k < |Needle(input)| ==>
      var c := input[marks + k];
      Needle(input)[k] == if 'A' <= c <= 'Z' then (c as int + 32) as char else c
  {
    if input != [] && (input[0] == '/' || input[0] == '-') {
      marks := NeedleIs(input[1..]);
      marks := marks + 1;
    } else {
      marks := 0;
    }
  }

  /** cmd, known as number k, is at most two edits off, no other is closer, and none before it is as close. */
  ghost predicate FirstClosest(needle: string, k: nat)
  {
    && k < |KNOWN_COMMANDS| && Score(needle, KNOWN_COMMANDS[k]) <= 2
    && (forall j :: 0 <= j < |KNOWN_COMMANDS| ==> Score(needle, KNOWN_COMMANDS[k]) <= Score(needle, KNOWN_COMMANDS[j]))
    && (forall j :: 0 <= j < k ==> Score(needle, KNOWN_COMMANDS[k]) < Score(needle, KNOWN_COMMANDS[j]))
  }

  method TrimStart(s: string) returns (r: string)
    ensures r == TrimPrefix(s)
  {
    var i: nat := 0;
    while i < |s| && (s[i] == '/' || s[i] == '-')
      invariant i <= |s|
      invariant TrimPrefix(s[i..]) == TrimPrefix(s)
    {
      assert s[i..][1..] == s[i + 1..];
      i := i + 1;
    }
    r := s[i..];
  }

  method ScoreOf(needle: string, cmd: string) returns (score: nat)
    ensures score <= 2 <==> Score(needle, cmd) <= 2
    ensures score <= 2 ==> score == Score(needle, cmd)
  {
    hide Lev;
    if needle <= cmd && |needle| >= 3 {
      score := 1;
    } else {
      LengthGap(needle, cmd);
      score := EditDistanceCapped(needle, cmd, 2);
    }
  }

  method DidYouMean(input: string) returns (best: Option<string>)
    ensures best.None? <==> Needle(input) == [] || forall j :: 0 <= j < |KNOWN_COMMANDS| ==>
        Score(Needle(input), KNOWN_COMMANDS[j]) > 2
    ensures best.Some? ==> exists k: nat :: FirstClosest(Needle(input), k) && best.value == KNOWN_COMMANDS[k]
  {
    hide Score, KNOWN_COMMANDS;
    var trimmed := TrimStart(input);
    var needle := LowerAscii(trimmed);
    best := None;
    if needle == [] {
      return;
    }
    var bestScore, bestAt: nat := 3, 0;
    for k := 0 to |KNOWN_COMMANDS|
      invariant bestScore <= 3 && (best.Some? <==> bestScore <= 2)
      invariant forall j :: 0 <= j < k ==> bestScore <= Score(needle, KNOWN_COMMANDS[j])
      invariant best.Some? ==> bestAt < k && best.value == KNOWN_COMMANDS[bestAt]
      invariant best.Some? ==> bestScore == Score(needle, KNOWN_COMMANDS[bestAt])
      invariant best.Some? ==> forall j :: 0 <= j < bestAt ==> bestScore < Score(needle, KNOWN_COMMANDS[j])
    {
      var score := ScoreOf(needle, KNOWN_COMMANDS[k]);
      if score <= 2 && (best.None? || score < bestScore) {
        best, bestScore, bestAt := Some(KNOWN_COMMANDS[k]), score, k;
      }
    }
    if best.Some? {
      assert FirstClosest(needle, bestAt);
    }
  }
}
