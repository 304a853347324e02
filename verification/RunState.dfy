/** Run state driven by log lines (crates/run/src/parse.rs) and the definition of success (crates/run/src/lib.rs). */
module RunState {
  import opened Options

  datatype Phase = Identify | Launch | FindOep | LocateIat | TraceIat | Rebuild | Dump | Finished

  datatype Level = Info | Good | Warn | Fatal | Debug

  datatype Kind = Exe | Dll

  datatype LogLine = LogLine(time: string, level: Level, message: string)

  datatype State = State(phase: Option<Phase>, kind: Kind, lines: seq<LogLine>, finished: Option<bool>,
                         error: Option<string>)

  function Rank(p: Option<Phase>): nat
  {
    match p
    case None => 0
    case Some(Identify) => 1
    case Some(Launch) => 2
    case Some(FindOep) => 3
    case Some(LocateIat) => 4
    case Some(TraceIat) => 5
    case Some(Rebuild) => 6
    case Some(Dump) => 7
    case Some(Finished) => 8
  }

  const ESC: char := '\U{1b}'
  const BEL: char := '\U{7}'

  // ---- Escape sequences --------------------------------------------------------------------------------

  predicate CsiFinal(c: char) { '\U{40}' <= c <= '\U{7e}' }

  predicate OscFinal(c: char) { c == BEL || c == ESC }

  /** What stands behind the first final character. */
  function AfterCsi(s: string): (r: string)
    ensures |r| <= |s|
  {
    if s == [] then [] else if CsiFinal(s[0]) then s[1..] else AfterCsi(s[1..])
  }

  function AfterOsc(s: string): (r: string)
    ensures |r| <= |s|
  {
    if s == [] then [] else if OscFinal(s[0]) then s[1..] else AfterOsc(s[1..])
  }

  function Strip(s: string): string
    decreases |s|
  {
    if s == [] then []
    else if s[0] != ESC then [s[0]] + Strip(s[1..])
    else if |s| > 1 && s[1] == '[' then Strip(AfterCsi(s[2..]))
    else if |s| > 1 && s[1] == ']' then Strip(AfterOsc(s[2..]))
    else Strip(s[1..])
  }

  method SkipCsi(s: string, i: nat) returns (j: nat)
    requires i <= |s|
    ensures i <= j <= |s| && s[j..] == AfterCsi(s[i..])
  {
    j := i;
    while j < |s| && !CsiFinal(s[j])
      invariant i <= j <= |s| && AfterCsi(s[j..]) == AfterCsi(s[i..])
    {
      assert s[j..][1..] == s[j + 1..];
      j := j + 1;
    }
    if j < |s| {
      assert s[j..][1..] == s[j + 1..];
      j := j + 1;
    }
  }

  method SkipOsc(s: string, i: nat) returns (j: nat)
    requires i <= |s|
    ensures i <= j <= |s| && s[j..] == AfterOsc(s[i..])
  {
    j := i;
    while j < |s| && !OscFinal(s[j])
      invariant i <= j <= |s| && AfterOsc(s[j..]) == AfterOsc(s[i..])
    {
      assert s[j..][1..] == s[j + 1..];
      j := j + 1;
    }
    if j < |s| {
      assert s[j..][1..] == s[j + 1..];
      j := j + 1;
    }
  }

  method StripAnsi(s: string) returns (out: string)
    ensures out == Strip(s)
  {
    if ESC !in s {
      PlainStays(s);
      return s;
    }
    out := [];
    var i := 0;
    while i < |s|
      invariant i <= |s| && out + Strip(s[i..]) == Strip(s)
      decreases |s| - i
    {
      StripAt(s, i);
      if s[i] != ESC {
        out := out + [s[i]];
        i := i + 1;
      } else if i + 1 < |s| && s[i + 1] == '[' {
        i := SkipCsi(s, i + 2);
      } else if i + 1 < |s| && s[i + 1] == ']' {
        i := SkipOsc(s, i + 2);
      } else {
        i := i + 1;
      }
    }
  }

  lemma {:induction false} StripAt(s: string, i: nat)
    requires i < |s|
    ensures Strip(s[i..])
         == if s[i] != ESC then [s[i]] + Strip(s[i + 1..])
            else if i + 1 < |s| && s[i + 1] == '[' then Strip(AfterCsi(s[i + 2..]))
            else if i + 1 < |s| && s[i + 1] == ']' then Strip(AfterOsc(s[i + 2..]))
            else Strip(s[i + 1..])
  {
    var t := s[i..];
    assert t[0] == s[i] && t[1..] == s[i + 1..];
    if i + 1 < |s| {
      assert t[1] == s[i + 1] && t[2..] == s[i + 2..];
    }
  }

  /** Text without escapes comes out unchanged. */
  lemma {:induction false} PlainStays(s: string)
    requires ESC !in s
    ensures Strip(s) == s
  {
    if s != [] {
      PlainStays(s[1..]);
    }
  }

  /** Nothing that comes out is an escape character. */
  lemma {:induction false} StripLeavesNoEscape(s: string)
    ensures ESC !in Strip(s)
    decreases |s|
  {
    if s != [] {
      if s[0] != ESC {
        StripLeavesNoEscape(s[1..]);
      } else if |s| > 1 && s[1] == '[' {
        StripLeavesNoEscape(AfterCsi(s[2..]));
      } else if |s| > 1 && s[1] == ']' {
        StripLeavesNoEscape(AfterOsc(s[2..]));
      } else {
        StripLeavesNoEscape(s[1..]);
      }
    }
  }

  lemma {:induction false} AfterCsiIs(parameters: string, last: char, rest: string)
    requires CsiFinal(last) && forall k :: 0 <= k < |parameters| ==> !CsiFinal(parameters[k])
    ensures AfterCsi(parameters + [last] + rest) == rest
  {
    if parameters == [] {
      assert (parameters + [last] + rest)[1..] == rest;
    } else {
      assert (parameters + [last] + rest)[1..] == parameters[1..] + [last] + rest;
      AfterCsiIs(parameters[1..], last, rest);
    }
  }

  /** A control sequence ends at its first character from '@' to '~'; the text around it stays. */
  lemma {:induction false} ColourDisappears(text: string, parameters: string, last: char, rest: string)
    requires ESC !in text && '@' <= last <= '~'
    requires forall k :: 0 <= k < |parameters| ==> !('@' <= parameters[k] <= '~')
    ensures Strip(text + ['\U{1b}', '['] + (parameters + [last] + rest)) == text + Strip(rest)
  {
    var t := parameters + [last] + rest;
    if text == [] {
      var s := text + [ESC, '['] + t;
      assert s[0] == ESC && s[1] == '[' && s[2..] == t;
      AfterCsiIs(parameters, last, rest);
    } else {
      assert (text + [ESC, '['] + t)[1..] == text[1..] + [ESC, '['] + t;
      ColourDisappears(text[1..], parameters, last, rest);
    }
  }

  lemma {:induction false} AfterOscIs(title: string, last: char, rest: string)
    requires OscFinal(last) && forall k :: 0 <= k < |title| ==> !OscFinal(title[k])
    ensures AfterOsc(title + [last] + rest) == rest
  {
    if title == [] {
      assert (title + [last] + rest)[1..] == rest;
    } else {
      assert (title + [last] + rest)[1..] == title[1..] + [last] + rest;
      AfterOscIs(title[1..], last, rest);
    }
  }

  /** An operating-system command ends at its first bell or escape character. */
  lemma {:induction false} TitleDisappears(text: string, title: string, last: char, rest: string)
    requires ESC !in text && (last == '\U{7}' || last == '\U{1b}')
    requires forall k :: 0 <= k < |title| ==> title[k] != '\U{7}' && title[k] != '\U{1b}'
    ensures Strip(text + ['\U{1b}', ']'] + (title + [last] + rest)) == text + Strip(rest)
  {
    var t := title + [last] + rest;
    if text == [] {
      var s := text + [ESC, ']'] + t;
      assert s[0] == ESC && s[1] == ']' && s[2..] == t;
      AfterOscIs(title, last, rest);
    } else {
      assert (text + [ESC, ']'] + t)[1..] == text[1..] + [ESC, ']'] + t;
      TitleDisappears(text[1..], title, last, rest);
    }
  }

  // ---- Splitting a line --------------------------------------------------------------------------------

  predicate White(c: char)
  {
    || '\U{9}' <= c <= '\U{d}' || c == ' ' || c == '\U{85}' || c == '\U{a0}' || c == '\U{1680}'
        || '\U{2000}' <= c <= '\U{200a}'
    || c == '\U{2028}' || c == '\U{2029}' || c == '\U{202f}' || c == '\U{205f}' || c == '\U{3000}'
  }

  predicate Control(c: char) { c <= '\U{1f}' || '\U{7f}' <= c <= '\U{9f}' }

  function TrimStart(s: string): (r: string)
    ensures |r| <= |s| && (ESC !in s ==> ESC !in r)
  {
    if s != [] && White(s[0]) then TrimStart(s[1..]) else s
  }

  function TrimEnd(s: string, drop: set<char>): (r: string)
    ensures r <= s
  {
    if s != [] && s[|s| - 1] in drop then TrimEnd(s[..|s| - 1], drop) else s
  }

  /** Where c first occurs, or the length. */
  function Find(s: string, c: char): (n: nat)
    ensures n <= |s| && (n < |s| ==> s[n] == c) && forall k :: 0 <= k < n ==> s[k] != c
  {
    if s == [] || s[0] == c then 0 else 1 + Find(s[1..], c)
  }

  /** What stands in front of c and behind it. */
  function SplitOnce(s: string, c: char): Option<(string, string)>
  {
    var n := Find(s, c);
    if n == |s| then None else Some((s[..n], s[n + 1..]))
  }

  /** The time of day of an RFC 3339 stamp, or the stamp itself. */
  function TimeOf(stamp: string): string
  {
    match SplitOnce(stamp, 'T')
    case None => stamp
    case Some(parts) =>
      var t := TrimEnd(parts.1, {'Z'});
      t[..Find(t, '.')]
  }

  function LevelOf(tag: string): Level
  {
    if tag == "GOOD" then Good else if tag == "WARN" then Warn else if tag == "FATAL" then Fatal
    else if tag == "DEBUG" then Debug else Info
  }

  function StripBracket(s: string): Option<string>
  {
    if s != [] && s[0] == '[' then Some(s[1..]) else None
  }

  /** "[stamp] [TAG] message" in its three parts. */
  function SplitLine(raw: string): Option<LogLine>
  {
    match StripBracket(raw)
    case None => None
    case Some(a) => match SplitOnce(a, ']')
      case None => None
      case Some(stamp) => match StripBracket(TrimStart(stamp.1))
        case None => None
        case Some(b) => match SplitOnce(b, ']')
          case None => None
          case Some(tag) => Some(LogLine(TimeOf(stamp.0), LevelOf(tag.0), TrimStart(tag.1)))
  }

  lemma {:induction false} FindAt(s: string, c: char, n: nat)
    requires n < |s| && s[n] == c && forall k :: 0 <= k < n ==> s[k] != c
    ensures Find(s, c) == n
  {
  }

  lemma {:induction false} SplitAt(a: string, c: char, b: string)
    requires c !in a
    ensures SplitOnce(a + [c] + b, c) == Some((a, b))
  {
    var s := a + [c] + b;
    FindAt(s, c, |a|);
    assert s[..|a|] == a && s[|a| + 1..] == b;
  }

  lemma {:induction false} SplitLineIs(raw: string, a: string, stamp: (string, string), b: string, tag: (string,
      string))
    requires StripBracket(raw) == Some(a) && SplitOnce(a, ']') == Some(stamp)
    requires StripBracket(TrimStart(stamp.1)) == Some(b) && SplitOnce(b, ']') == Some(tag)
    ensures SplitLine(raw) == Some(LogLine(TimeOf(stamp.0), LevelOf(tag.0), TrimStart(tag.1)))
  {
    hide TimeOf, LevelOf, SplitOnce, TrimStart, StripBracket;
  }

  lemma {:induction false} TrimOneSpace(s: string)
    requires s == [] || !White(s[0])
    ensures TrimStart(" " + s) == s
  {
    assert (" " + s)[1..] == s;
  }

  lemma {:induction false} OpenBracket(s: string)
    ensures StripBracket("[" + s) == Some(s)
  {
    assert ("[" + s)[1..] == s;
  }

  /** The same while stamp and tag are still as printed. */
  lemma {:induction false} SplitStamped(stamp: string, tag: string, message: string)
    requires ']' !in stamp && ']' !in tag && (message == [] || !White(message[0]))
    ensures SplitLine("[" + (stamp + "]" + (" " + ("[" + (tag + "]" + (" " + message))))))
         == Some(LogLine(TimeOf(stamp), LevelOf(tag), message))
  {
    hide SplitLine, TimeOf, LevelOf, SplitOnce, TrimStart, StripBracket;
    var b := tag + "]" + (" " + message);
    var rest := "[" + b;
    var a := stamp + "]" + (" " + rest);
    OpenBracket(a);
    SplitAt(stamp, ']', " " + rest);
    TrimOneSpace(rest);
    OpenBracket(b);
    SplitAt(tag, ']', " " + message);
    TrimOneSpace(message);
    SplitLineIs("[" + a, a, (stamp, " " + rest), b, (tag, " " + message));
  }

  /** The parts contain no escape if the line does not. */
  lemma {:induction false} SplitKeepsClean(raw: string)
    requires ESC !in raw && SplitLine(raw).Some?
    ensures ESC !in SplitLine(raw).value.time && ESC !in SplitLine(raw).value.message
  {
    hide LevelOf, TrimStart, TrimEnd, Find;
  }

  // ---- Feeding ------------------------------------------------------------------------------------------

  /** A prefix of the message and the phase it starts. */
  const MARKERS: seq<(string, Phase)> := [
    ("Loading:", Identify), ("Themida version:", Identify),
    ("Built loader host", Launch), ("Created DLL loader host", Launch),
    ("Packed DLL located", FindOep),
    ("DLL OEP published", FindOep), ("DLL OEP taken from the shell's TLS callback array", FindOep),
    ("DLL initialisation settled", LocateIat), ("DLL path: IAT raised", LocateIat),
    ("Process created (PID:", Launch), ("ScyllaHide injected", Launch),
    ("OEP found \U{2014} letting program execute", FindOep),
    ("IAT located iat=", LocateIat), ("Letting program execute for", LocateIat),
    ("[v3-trace] Starting IAT trace", TraceIat), ("Initial OEP:", TraceIat),
    ("IAT fixed", Rebuild), ("Shrink complete", Rebuild),
    ("Dumping to:", Dump), ("Dump written successfully", Dump),
    ("Unpacked:", Finished)]

  function FirstMarker(message: string, markers: seq<(string, Phase)>): Option<Phase>
  {
    if markers == [] then None
    else if markers[0].0 <= message then Some(markers[0].1)
    else FirstMarker(message, markers[1..])
  }

  function DetectPhase(message: string): Option<Phase> { FirstMarker(message, MARKERS) }

  /** Lines that only the DLL path prints. */
  predicate DllSignal(message: string)
  {
    || "Built loader host" <= message || "Created DLL loader host" <= message || "Packed DLL located" <= message
    || "DLL OEP taken from the shell's TLS callback array" <= message || "DLL path: IAT raised" <= message
  }

  predicate Fatality(line: LogLine)
  {
    line.level == Fatal && ("Fatal error:" <= line.message || "Fatal error " <= line.message)
  }

  predicate Success(line: LogLine) { line.message == "Done." }

  predicate Printable(s: string) { exists k :: 0 <= k < |s| && !Control(s[k]) && s[k] != '\U{feff}' }

  function Advance(p: Option<Phase>, message: string): Option<Phase>
  {
    var q := DetectPhase(message);
    if q.Some? && Rank(q) > Rank(p) then q else p
  }

  function FedLine(st: State, line: LogLine): State
  {
    State(
      if Fatality(line) || Success(line) then Some(Finished) else Advance(st.phase, line.message),
      if DllSignal(line.message) then Dll else st.kind,
      st.lines + [line],
      if Fatality(line) then Some(false) else if Success(line) then Some(true) else st.finished,
      if Fatality(line) then Some(line.message) else st.error)
  }

  /** The text of a raw line: its line end cut off, its escapes removed. */
  function Cleaned(raw: string): string { Strip(TrimEnd(raw, {'\r', '\n'})) }

  function Fed(st: State, raw: string): State
  {
    if TrimEnd(raw, {'\r', '\n'}) == [] then st
    else
      match SplitLine(Cleaned(raw))
      case Some(line) => FedLine(st, line)
      case None => if Printable(Cleaned(raw)) then st.(lines := st.lines + [LogLine("", Info, Cleaned(raw))]) else st
  }

  class Run {
    var phase: Option<Phase>
    var kind: Kind
    var lines: seq<LogLine>
    var finished: Option<bool>
    var error: Option<string>

    constructor (kind: Kind)
      ensures Now() == State(None, kind, [], None, None)
    {
      phase, this.kind, lines, finished, error := None, kind, [], None, None;
    }

    function Now(): State
      reads this
    {
      State(phase, kind, lines, finished, error)
    }

    method Feed(raw: string)
      modifies this
      ensures Now() == Fed(old(Now()), raw)
    {
      hide SplitLine, Strip, DetectPhase, Printable;
      var line := TrimLineEnd(raw);
      if line == [] {
        return;
      }
      var cleaned := StripAnsi(line);
      var split := SplitLine(cleaned);
      if split.None? {
        var printable := IsPrintable(cleaned);
        if printable {
          lines := lines + [LogLine("", Info, cleaned)];
        }
        return;
      }
      FeedLine(split.value);
    }

    method FeedLine(line: LogLine)
      modifies this
      ensures Now() == FedLine(old(Now()), line)
    {
      hide DetectPhase, DllSignal, Fatality, Rank;
      var dll := SignalsDll(line.message);
      if dll {
        kind := Dll;
      }
      var newPhase := DetectPhase(line.message);
      RankPositive(newPhase);
      if newPhase.Some? {
        var advance := phase.None? || Rank(newPhase) > Rank(phase);
        if advance {
          phase := newPhase;
        }
      }
      if line.message == "Done." {
        finished, phase := Some(true), Some(Finished);
      }
      var fatal := AnnouncesFatal(line);
      if fatal {
        error, finished, phase := Some(line.message), Some(false), Some(Finished);
      }
      lines := lines + [line];
    }
  }

  lemma {:induction false} RankPositive(p: Option<Phase>)
    ensures p.Some? <==> Rank(p) > Rank(None)
  {
  }

  method SignalsDll(message: string) returns (dll: bool)
    ensures dll == DllSignal(message)
  {
    dll := false;
    if "Built loader host" <= message || "Created DLL loader host" <= message {
      dll := true;
    }
    if "Packed DLL located" <= message {
      dll := true;
    }
    if "DLL OEP taken from the shell's TLS callback array" <= message {
      dll := true;
    }
    if "DLL path: IAT raised" <= message {
      dll := true;
    }
  }

  method AnnouncesFatal(line: LogLine) returns (fatal: bool)
    ensures fatal == Fatality(line)
  {
    fatal := false;
    if line.level == Fatal {
      fatal := "Fatal error:" <= line.message || "Fatal error " <= line.message;
    }
  }

  method TrimLineEnd(raw: string) returns (line: string)
    ensures line == TrimEnd(raw, {'\r', '\n'})
  {
    var n: nat := |raw|;
    assert raw[..n] == raw;
    while n > 0 && (raw[n - 1] == '\r' || raw[n - 1] == '\n')
      invariant n <= |raw|
      invariant TrimEnd(raw[..n], {'\r', '\n'}) == TrimEnd(raw, {'\r', '\n'})
    {
      assert raw[..n][..n - 1] == raw[..n - 1];
      n := n - 1;
    }
    line := raw[..n];
  }

  method IsPrintable(s: string) returns (r: bool)
    ensures r == Printable(s)
  {
    r := false;
    for k := 0 to |s|
      invariant forall j :: 0 <= j < k ==> Control(s[j]) || s[j] == '\U{feff}'
    {
      if !Control(s[k]) && s[k] != '\U{feff}' {
        return true;
      }
    }
  }

  // ---- Over whole runs ------------------------------------------------------------------------------------

  function FedAll(st: State, raws: seq<string>): State
    decreases |raws|
  {
    if raws == [] then st else FedAll(Fed(st, raws[0]), raws[1..])
  }

  /** The tagged line a raw line is read as, if it is one. */
  function LineOf(raw: string): Option<LogLine>
  {
    if TrimEnd(raw, {'\r', '\n'}) == [] then None else SplitLine(Cleaned(raw))
  }

  predicate IsSuccess(raw: string) { LineOf(raw).Some? && Success(LineOf(raw).value) }

  predicate IsFatal(raw: string) { LineOf(raw).Some? && Fatality(LineOf(raw).value) }

  lemma {:induction false} FedIs(st: State, raw: string)
    ensures var r := Fed(st, raw);
      && r.finished == (if IsFatal(raw) then Some(false) else if IsSuccess(raw) then Some(true) else st.finished)
      && (r.error.Some? <==> IsFatal(raw) || st.error.Some?)
      && Rank(st.phase) <= Rank(r.phase)
      && (IsFatal(raw) || IsSuccess(raw) ==> r.phase == Some(Finished))
  {
    hide SplitLine, Cleaned, DetectPhase, Printable, Rank, Advance, Fatality, Success;
    if LineOf(raw).Some? {
      AdvanceKeeps(st.phase, LineOf(raw).value.message);
    }
  }

  lemma {:induction false} AdvanceKeeps(p: Option<Phase>, message: string)
    ensures Rank(p) <= Rank(Advance(p, message)) && Rank(p) <= Rank(Some(Finished))
  {
    hide DetectPhase;
  }

  /** The phase never goes back, whatever is fed. */
  lemma {:induction false} PhaseNeverDecreases(st: State, raws: seq<string>)
    ensures Rank(st.phase) <= Rank(FedAll(st, raws).phase)
    decreases |raws|
  {
    hide Fed, Rank, IsFatal, IsSuccess;
    if raws != [] {
      FedIs(st, raws[0]);
      PhaseNeverDecreases(Fed(st, raws[0]), raws[1..]);
    }
  }

  predicate AnySuccess(raws: seq<string>) { exists k :: 0 <= k < |raws| && IsSuccess(raws[k]) }

  predicate AnyFatal(raws: seq<string>) { exists k :: 0 <= k < |raws| && IsFatal(raws[k]) }

  lemma {:induction false} AnyCons(raws: seq<string>)
    requires raws != []
    ensures AnySuccess(raws) <==> IsSuccess(raws[0]) || AnySuccess(raws[1..])
    ensures AnyFatal(raws) <==> IsFatal(raws[0]) || AnyFatal(raws[1..])
  {
    hide IsSuccess, IsFatal;
    assert forall k :: 0 <= k < |raws[1..]| ==> raws[1..][k] == raws[k + 1];
    assert forall k :: 0 < k < |raws| ==> raws[k] == raws[1..][k - 1];
  }

  lemma {:induction false} FinalState(st: State, raws: seq<string>)
    ensures var r := FedAll(st, raws);
      && (r.error.Some? <==> st.error.Some? || AnyFatal(raws))
      && (!AnyFatal(raws) ==> r.finished == if AnySuccess(raws) then Some(true) else st.finished)
      && (AnyFatal(raws) || AnySuccess(raws) ==> r.phase == Some(Finished))
    decreases |raws|
  {
    hide Fed, IsFatal, IsSuccess, AnySuccess, AnyFatal;
    if raws == [] {
      NoneAny(raws);
    } else {
      AnyCons(raws);
      FedIs(st, raws[0]);
      FinalState(Fed(st, raws[0]), raws[1..]);
      PhaseNeverDecreases(Fed(st, raws[0]), raws[1..]);
    }
  }

  lemma {:induction false} NoneAny(raws: seq<string>)
    requires raws == []
    ensures !AnySuccess(raws) && !AnyFatal(raws)
  {
  }

  // ---- The definition of success --------------------------------------------------------------------------

  datatype Report = Report(exitCode: int, ok: bool, kind: Kind, phase: Option<Phase>, error: Option<string>,
                           elapsedMs: nat, logTail: seq<LogLine>)

  const LOG_TAIL_LINES: nat := 40

  function FromState(st: State, exitCode: int, elapsedMs: nat): Report
  {
    var start := if |st.lines| > LOG_TAIL_LINES then |st.lines| - LOG_TAIL_LINES else 0;
    Report(exitCode, exitCode == 0 && st.finished == Some(true) && st.error.None?, st.kind, st.phase, st.error,
           elapsedMs, st.lines[start..])
  }

  /**
   * A run is reported as a success exactly if the process exited with 0, some line said "Done.", and no
   * fatal line ever announced a fatal error, in whatever order the lines came.
   */
  lemma {:induction false} SuccessIff(kind: Kind, raws: seq<string>, exitCode: int, elapsedMs: nat)
    ensures FromState(FedAll(State(None, kind, [], None, None), raws), exitCode, elapsedMs).ok
       <==> exitCode == 0 && AnySuccess(raws) && !AnyFatal(raws)
  {
    hide FedAll, AnySuccess, AnyFatal;
    FinalState(State(None, kind, [], None, None), raws);
  }

  // ---- The rule, on the lines as they are printed ------------------------------------------------------------

  predicate AllWhite(s: string) { forall k :: 0 <= k < |s| ==> White(s[k]) }

  /** The text is "[stamp] [tag] message", with any white space behind the brackets. */
  ghost predicate Reads(text: string, stamp: string, gap: string, tag: string, space: string, message: string)
  {
    && text == "[" + (stamp + "]" + (gap + ("[" + (tag + "]" + (space + message)))))
    && ']' !in stamp && ']' !in tag && AllWhite(gap) && AllWhite(space) && (message == [] || !White(message[0]))
  }

  lemma {:induction false} TrimWhite(white: string, s: string)
    requires AllWhite(white) && (s == [] || !White(s[0]))
    ensures TrimStart(white + s) == s
    decreases |white|
  {
    if white == [] {
      assert white + s == s;
    } else {
      assert (white + s)[0] == white[0] && (white + s)[1..] == white[1..] + s;
      TrimWhite(white[1..], s);
    }
  }

  /** What is trimmed off is white, and what is left does not start white. */
  lemma {:induction false} Trimmed(s: string) returns (white: string)
    ensures AllWhite(white) && s == white + TrimStart(s) && (TrimStart(s) == [] || !White(TrimStart(s)[0]))
    decreases |s|
  {
    if s != [] && White(s[0]) {
      white := Trimmed(s[1..]);
      white := [s[0]] + white;
    } else {
      white := [];
    }
  }

  /** A text of that form is split into exactly its parts. */
  lemma {:induction false} ReadSplits(text: string, stamp: string, gap: string, tag: string, space: string,
      message: string)
    requires Reads(text, stamp, gap, tag, space, message)
    ensures SplitLine(text) == Some(LogLine(TimeOf(stamp), LevelOf(tag), message))
  {
    hide SplitLine, TimeOf, LevelOf, SplitOnce, TrimStart, StripBracket, AllWhite, White;
    var b := tag + "]" + (space + message);
    var rest := "[" + b;
    var a := stamp + "]" + (gap + rest);
    OpenBracket(a);
    SplitAt(stamp, ']', gap + rest);
    NotWhite();
    TrimWhite(gap, rest);
    OpenBracket(b);
    SplitAt(tag, ']', space + message);
    TrimWhite(space, message);
    SplitLineIs(text, a, (stamp, gap + rest), b, (tag, space + message));
  }

  lemma {:induction false} NotWhite()
    ensures !White('[')
  {
  }

  lemma {:induction false} SplitParts(s: string, c: char)
    requires SplitOnce(s, c).Some?
    ensures var p := SplitOnce(s, c).value; s == p.0 + [c] + p.1 && c !in p.0
  {
  }

  lemma {:induction false} BracketParts(s: string)
    requires StripBracket(s).Some?
    ensures s == "[" + StripBracket(s).value
  {
  }

  /** Only a text of that form is split at all. */
  lemma {:induction false} SplitReads(text: string) returns (stamp: string, gap: string, tag: string, space: string)
    requires SplitLine(text).Some?
    ensures Reads(text, stamp, gap, tag, space, SplitLine(text).value.message)
    ensures SplitLine(text).value.level == LevelOf(tag)
  {
    hide TimeOf, LevelOf, SplitOnce, TrimStart, StripBracket, AllWhite, White;
    var a := StripBracket(text).value;
    var first := SplitOnce(a, ']').value;
    var b := StripBracket(TrimStart(first.1)).value;
    var second := SplitOnce(b, ']').value;
    stamp, tag := first.0, second.0;
    BracketParts(text);
    SplitParts(a, ']');
    gap := Trimmed(first.1);
    BracketParts(TrimStart(first.1));
    SplitParts(b, ']');
    space := Trimmed(second.1);
  }

  /** The raw line, its line end and escapes removed, is a tagged one with that tag and message. */
  ghost predicate Says(raw: string, tag: string, message: string)
  {
    exists stamp, gap, space :: Reads(Cleaned(raw), stamp, gap, tag, space, message)
  }

  lemma {:induction false} SaidLine(raw: string, stamp: string, gap: string, tag: string, space: string,
      message: string)
    requires Reads(Cleaned(raw), stamp, gap, tag, space, message)
    ensures LineOf(raw) == Some(LogLine(TimeOf(stamp), LevelOf(tag), message))
    ensures TrimEnd(raw, {'\r', '\n'}) != []
  {
    hide SplitLine, TimeOf, LevelOf, TrimEnd, AllWhite, White;
    ReadSplits(Cleaned(raw), stamp, gap, tag, space, message);
  }

  lemma {:induction false} LineSaid(raw: string) returns (tag: string)
    requires LineOf(raw).Some?
    ensures Says(raw, tag, LineOf(raw).value.message) && LineOf(raw).value.level == LevelOf(tag)
  {
    hide SplitLine, LevelOf, TrimEnd, Reads, Cleaned;
    var stamp, gap, space;
    stamp, gap, tag, space := SplitReads(Cleaned(raw));
  }

  lemma {:induction false} FatalTag(tag: string)
    ensures LevelOf(tag) == Fatal <==> tag == "FATAL"
  {
  }

  ghost predicate SaysFatal(raw: string)
  {
    exists message :: Says(raw, "FATAL", message) && ("Fatal error:" <= message || "Fatal error " <= message)
  }

  ghost predicate SaysDone(raw: string) { exists tag :: Says(raw, tag, "Done.") }

  lemma {:induction false} FatalSaid(raw: string)
    ensures IsFatal(raw) <==> SaysFatal(raw)
  {
    hide LineOf, LevelOf, Reads, Cleaned;
    if IsFatal(raw) {
      var tag := LineSaid(raw);
      FatalTag(tag);
    }
    if SaysFatal(raw) {
      var message :| Says(raw, "FATAL", message) && ("Fatal error:" <= message || "Fatal error " <= message);
      var stamp, gap, space :| Reads(Cleaned(raw), stamp, gap, "FATAL", space, message);
      SaidLine(raw, stamp, gap, "FATAL", space, message);
      FatalTag("FATAL");
    }
  }

  lemma {:induction false} DoneSaid(raw: string)
    ensures IsSuccess(raw) <==> SaysDone(raw)
  {
    hide LineOf, LevelOf, Reads, Cleaned;
    if IsSuccess(raw) {
      var tag := LineSaid(raw);
    }
    if SaysDone(raw) {
      var tag :| Says(raw, tag, "Done.");
      var stamp, gap, space :| Reads(Cleaned(raw), stamp, gap, tag, space, "Done.");
      SaidLine(raw, stamp, gap, tag, space, "Done.");
    }
  }

  /**
   * A run is reported as a success exactly if the process exited with 0, some printed line says "Done.", and
   * none tagged FATAL says "Fatal error:" or "Fatal error " first.
   */
  lemma {:induction false} SuccessIffSaid(kind: Kind, raws: seq<string>, exitCode: int, elapsedMs: nat)
    ensures FromState(FedAll(State(None, kind, [], None, None), raws), exitCode, elapsedMs).ok
       <==> exitCode == 0 && (exists k :: 0 <= k < |raws| && SaysDone(raws[k]))
            && !exists k :: 0 <= k < |raws| && SaysFatal(raws[k])
  {
    hide FedAll, IsSuccess, IsFatal, SaysDone, SaysFatal, FromState;
    SuccessIff(kind, raws, exitCode, elapsedMs);
    forall k | 0 <= k < |raws|
      ensures IsSuccess(raws[k]) <==> SaysDone(raws[k])
      ensures IsFatal(raws[k]) <==> SaysFatal(raws[k])
    {
      DoneSaid(raws[k]);
      FatalSaid(raws[k]);
    }
  }

  /** A printed line in the program's own format is stored with its message, and with the level its tag names. */
  lemma {:induction false} PrintedStored(st: State, raw: string, stamp: string, gap: string, tag: string,
      space: string, message: string)
    requires Reads(Cleaned(raw), stamp, gap, tag, space, message)
    ensures var r := Fed(st, raw);
      && |r.lines| == |st.lines| + 1 && st.lines <= r.lines && r.lines[|st.lines|].message == message
      && r.lines[|st.lines|].time == TimeOf(stamp)
      && r.lines[|st.lines|].level
         == match tag
            case "GOOD" => Good
            case "WARN" => Warn
            case "FATAL" => Fatal
            case "DEBUG" => Debug
            case _ => Info
  {
    hide SplitLine, TimeOf, TrimEnd, Reads, Cleaned, DetectPhase, Printable, DllSignal;
    SaidLine(raw, stamp, gap, tag, space, message);
  }

  /**
   * A line tagged FATAL whose message announces a fatal error stores that message as the error and ends the
   * run as failed; a line with another tag, or another message, stores no error.
   */
  lemma {:induction false} FatalStored(st: State, raw: string, tag: string, message: string)
    requires Says(raw, tag, message)
    ensures var r := Fed(st, raw);
      if tag == "FATAL" && ("Fatal error:" <= message || "Fatal error " <= message)
      then r.error == Some(message) && r.finished == Some(false) && r.phase == Some(Finished)
      else r.error == st.error && r.finished == (if message == "Done." then Some(true) else st.finished)
  {
    hide SplitLine, TimeOf, LevelOf, TrimEnd, Cleaned, Reads, DetectPhase, Printable, DllSignal;
    var stamp, gap, space :| Reads(Cleaned(raw), stamp, gap, tag, space, message);
    SaidLine(raw, stamp, gap, tag, space, message);
    FatalTag(tag);
  }

  lemma {:induction false} TrimmedEnd(s: string, c: char, tail: string)
    requires (s == [] || s[|s| - 1] != c) && forall k :: 0 <= k < |tail| ==> tail[k] == c
    ensures TrimEnd(s + tail, {c}) == s
    decreases |tail|
  {
    if tail == [] {
      assert s + tail == s;
    } else {
      assert (s + tail)[|s + tail| - 1] == c && (s + tail)[..|s + tail| - 1] == s + tail[..|tail| - 1];
      TrimmedEnd(s, c, tail[..|tail| - 1]);
    }
  }

  /** Of a stamp with date, time and fraction the time is kept; a stamp without a T is kept whole. */
  lemma {:induction false} TimeKept(date: string, time: string, fraction: string)
    requires 'T' !in date && '.' !in time && (fraction == [] || fraction[|fraction| - 1] != 'Z')
    ensures TimeOf(date + ['T'] + (time + ['.'] + fraction + "Z")) == time
    ensures TimeOf(date) == date
  {
    hide TrimEnd, Find;
    var t := time + ['.'] + fraction;
    SplitAt(date, 'T', t + "Z");
    TrimmedEnd(t, 'Z', "Z");
    FindAt(t, '.', |time|);
    assert t[..|time|] == time;
    NoneFound(date, 'T');
  }

  /** A line in the program's own format splits into the time of its stamp, the level of its tag and its message. */
  lemma {:induction false} SplitPrinted(date: string, time: string, fraction: string, tag: string, message: string)
    requires 'T' !in date && '.' !in time && (fraction == [] || fraction[|fraction| - 1] != 'Z')
    requires ']' !in date && ']' !in time && ']' !in fraction && ']' !in tag && (message == [] || !White(message[0]))
    ensures var stamp := date + ['T'] + (time + ['.'] + fraction + "Z");
      var level := match tag
                   case "GOOD" => Good
                   case "WARN" => Warn
                   case "FATAL" => Fatal
                   case "DEBUG" => Debug
                   case _ => Info;
      SplitLine("[" + (stamp + "]" + (" " + ("[" + (tag + "]" + (" " + message))))))
      == Some(LogLine(time, level, message))
  {
    hide SplitLine, TimeOf, White;
    TimeKept(date, time, fraction);
    SplitStamped(date + ['T'] + (time + ['.'] + fraction + "Z"), tag, message);
  }

  lemma {:induction false} NoneFound(s: string, c: char)
    requires c !in s
    ensures Find(s, c) == |s|
  {
  }

  /** The milestones, in the order of the phases. */
  ghost predicate Milestone(message: string, p: Phase)
  {
    match p
    case Identify => "Loading:" <= message || "Themida version:" <= message
    case Launch =>
      || "Built loader host" <= message || "Created DLL loader host" <= message
      || "Process created (PID:" <= message || "ScyllaHide injected" <= message
    case FindOep =>
      || "Packed DLL located" <= message || "DLL OEP published" <= message
      || "DLL OEP taken from the shell's TLS callback array" <= message
      || "OEP found \U{2014} letting program execute" <= message
    case LocateIat =>
      || "DLL initialisation settled" <= message || "DLL path: IAT raised" <= message
      || "IAT located iat=" <= message || "Letting program execute for" <= message
    case TraceIat => "[v3-trace] Starting IAT trace" <= message || "Initial OEP:" <= message
    case Rebuild => "IAT fixed" <= message || "Shrink complete" <= message
    case Dump => "Dumping to:" <= message || "Dump written successfully" <= message
    case Finished => "Unpacked:" <= message
  }
  lemma {:induction false} MarkerIs(message: string, markers: seq<(string, Phase)>)
    ensures var r := FirstMarker(message, markers);
      && (r.Some? ==> exists i :: 0 <= i < |markers| && markers[i].0 <= message && markers[i].1 == r.value)
      && (r.None? ==> forall i :: 0 <= i < |markers| ==> !(markers[i].0 <= message))
    decreases |markers|
  {
    if markers != [] && !(markers[0].0 <= message) {
      MarkerIs(message, markers[1..]);
      assert forall i :: 0 < i < |markers| ==> markers[i] == markers[1..][i - 1];
      var r := FirstMarker(message, markers[1..]);
      if r.Some? {
        var i :| 0 <= i < |markers[1..]| && markers[1..][i].0 <= message && markers[1..][i].1 == r.value;
        assert markers[i + 1].0 <= message;
      }
    }
  }

  lemma {:induction false} EarlyMilestone(message: string, i: nat)
    requires i < 10 && MARKERS[i].0 <= message
    ensures Milestone(message, MARKERS[i].1)
  {
  }

  lemma {:induction false} LateMilestone(message: string, i: nat)
    requires 10 <= i < |MARKERS| && MARKERS[i].0 <= message
    ensures Milestone(message, MARKERS[i].1)
  {
  }

  lemma {:induction false} MarkerMilestone(message: string, i: nat)
    requires i < |MARKERS| && MARKERS[i].0 <= message
    ensures Milestone(message, MARKERS[i].1)
  {
    hide Milestone;
    if i < 10 {
      EarlyMilestone(message, i);
    } else {
      LateMilestone(message, i);
    }
  }

  lemma {:induction false} MilestoneMarker(message: string, p: Phase) returns (i: nat)
    requires Milestone(message, p)
    ensures i < |MARKERS| && MARKERS[i].0 <= message
  {
    match p {
      case Identify => i := if "Loading:" <= message then 0 else 1;
      case Launch =>
        i := if "Built loader host" <= message then 2 else if "Created DLL loader host" <= message then 3
             else if "Process created (PID:" <= message then 9 else 10;
      case FindOep =>
        i := if "Packed DLL located" <= message then 4 else if "DLL OEP published" <= message then 5
             else if "DLL OEP taken from the shell's TLS callback array" <= message then 6 else 11;
      case LocateIat =>
        i := if "DLL initialisation settled" <= message then 7 else if "DLL path: IAT raised" <= message then 8
             else if "IAT located iat=" <= message then 12 else 13;
      case TraceIat => i := if "[v3-trace] Starting IAT trace" <= message then 14 else 15;
      case Rebuild => i := if "IAT fixed" <= message then 16 else 17;
      case Dump => i := if "Dumping to:" <= message then 18 else 19;
      case Finished => i := 20;
    }
  }

  /** A line starts the phase of a milestone it is, and no phase if it is none. */
  lemma {:induction false} MilestonesStart(message: string)
    ensures DetectPhase(message).Some? ==> Milestone(message, DetectPhase(message).value)
    ensures DetectPhase(message).None? ==> forall p :: !Milestone(message, p)
  {
    hide Milestone, MARKERS;
    MarkerIs(message, MARKERS);
    var r := DetectPhase(message);
    if r.Some? {
      var i :| 0 <= i < |MARKERS| && MARKERS[i].0 <= message && MARKERS[i].1 == r.value;
      MarkerMilestone(message, i);
    } else {
      forall p ensures !Milestone(message, p) {
        if Milestone(message, p) {
          var i := MilestoneMarker(message, p);
          assert false;
        }
      }
    }
  }

  /** Of the two phases, the later one. */
  function Later(p: Option<Phase>, q: Phase): Option<Phase> { if Rank(Some(q)) > Rank(p) then Some(q) else p }

  /** The phase a message leads to: none is lost, and a milestone starts its phase unless a later one is reached. */
  ghost predicate MovesTo(before: Option<Phase>, message: string, after: Option<Phase>)
  {
    || ((forall p :: !Milestone(message, p)) && after == before)
    || exists p :: Milestone(message, p) && after == Later(before, p)
  }

  lemma {:induction false} AdvanceMoves(before: Option<Phase>, message: string)
    ensures MovesTo(before, message, Advance(before, message))
  {
    hide Milestone, DetectPhase;
    MilestonesStart(message);
    if DetectPhase(message).Some? {
      assert Advance(before, message) == Later(before, DetectPhase(message).value);
    }
  }

  /** What a tagged line does to phase and kind. */
  lemma {:induction false} MilestoneStored(st: State, raw: string, tag: string, message: string)
    requires Says(raw, tag, message)
    ensures var r := Fed(st, raw);
      && (message != "Done." && tag != "FATAL" ==> MovesTo(st.phase, message, r.phase))
      && (message == "Done." ==> r.phase == Some(Finished))
      && r.kind == if "Built loader host" <= message || "Created DLL loader host" <= message
                     || "Packed DLL located" <= message || "DLL path: IAT raised" <= message
                     || "DLL OEP taken from the shell's TLS callback array" <= message
                   then Dll else st.kind
  {
    hide SplitLine, TimeOf, LevelOf, TrimEnd, Cleaned, Reads, Printable, Advance, MovesTo;
    var stamp, gap, space :| Reads(Cleaned(raw), stamp, gap, tag, space, message);
    SaidLine(raw, stamp, gap, tag, space, message);
    FatalTag(tag);
    AdvanceMoves(st.phase, message);
  }

  /** The phase a tagged line leaves: the later one of the phase so far and the milestone's, in the order of the run. */
  lemma {:induction false} PhaseOrder()
    ensures Rank(None) < Rank(Some(Identify)) < Rank(Some(Launch)) < Rank(Some(FindOep)) < Rank(Some(LocateIat))
    ensures Rank(Some(LocateIat)) < Rank(Some(TraceIat)) < Rank(Some(Rebuild)) < Rank(Some(Dump)) < Rank(Some(Finished))
  {
  }

  /** The report keeps the last forty lines, or all of them. */
  lemma {:induction false} TailKept(st: State, exitCode: int, elapsedMs: nat)
    ensures var tail := FromState(st, exitCode, elapsedMs).logTail;
      && |tail| == (if |st.lines| < 40 then |st.lines| else 40)
      && forall k :: 0 <= k < |tail| ==> tail[k] == st.lines[|st.lines| - |tail| + k]
  {
  }

  /** A line that is not tagged is stored as it is, unless it has nothing printable. */
  lemma {:induction false} UntaggedStored(st: State, raw: string)
    requires Cleaned(raw) != [] && forall tag, message :: !Says(raw, tag, message)
    ensures var r, text := Fed(st, raw), Cleaned(raw);
      && r == st.(lines := r.lines)
      && r.lines == (if exists k :: 0 <= k < |text| && text[k] != '\U{feff}'
                            && !(text[k] <= '\U{1f}' || '\U{7f}' <= text[k] <= '\U{9f}')
                     then st.lines + [LogLine("", Info, text)] else st.lines)
  {
    hide SplitLine, Reads, Cleaned;
    StripsNothing(raw);
    if LineOf(raw).Some? {
      var tag := LineSaid(raw);
      assert false;
    }
  }

  lemma {:induction false} StripsNothing(raw: string)
    ensures Cleaned(raw) != [] ==> TrimEnd(raw, {'\r', '\n'}) != []
  {
  }

  ghost predicate Clean(lines: seq<LogLine>)
  {
    forall k :: 0 <= k < |lines| ==> ESC !in lines[k].time && ESC !in lines[k].message
  }

  lemma {:induction false} FedClean(st: State, raw: string)
    requires Clean(st.lines)
    ensures Clean(Fed(st, raw).lines) && st.lines <= Fed(st, raw).lines
  {
    hide SplitLine, Strip, DetectPhase, Printable, Fatality, Success, DllSignal;
    StripLeavesNoEscape(TrimEnd(raw, {'\r', '\n'}));
    if SplitLine(Cleaned(raw)).Some? {
      SplitKeepsClean(Cleaned(raw));
    }
  }

  /** No stored time or message ever contains an escape character, and nothing stored is dropped or changed. */
  lemma {:induction false} StoredLinesClean(st: State, raws: seq<string>)
    requires Clean(st.lines)
    ensures Clean(FedAll(st, raws).lines) && st.lines <= FedAll(st, raws).lines
    decreases |raws|
  {
    hide Fed, Clean;
    if raws != [] {
      FedClean(st, raws[0]);
      StoredLinesClean(Fed(st, raws[0]), raws[1..]);
    }
  }
}
