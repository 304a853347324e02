/** Deciding when a running image has settled (crates/cli/src/dump_image.rs). */
module StableDump {
  import opened Options
  import opened Words
  import opened Pe

  // ---- What a payload looks like before anything has touched it -------------------------------------

  /** The bytes expected at an RVA of the image. */
  datatype Payload = Payload(rva: nat, before: bytes)

  /** The section's raw data, placed at its address, backs RVA x. */
  predicate Backs(s: Section, x: nat) { s.va <= x < s.va + s.rawSize }

  /** The part of [start, end) that the section's raw data covers. */
  function Lo(s: Section, start: nat): nat { Max(start, s.va) }

  function Hi(s: Section, end: nat): nat { Min(Min(end, s.va + Max(s.vsize, s.rawSize)), s.va + s.rawSize) }

  /** The section contributes: it covers part of the range, with bytes that are all in the file. */
  predicate Contributes(s: Section, file: bytes, start: nat, end: nat)
  {
    s.rawSize != 0 && Lo(s, start) < Hi(s, end)
        && s.rawOffset + (Lo(s, start) - s.va) + (Hi(s, end) - Lo(s, start)) <= |file|
  }

  function CopySection(buf: bytes, s: Section, file: bytes, start: nat): (r: bytes)
    ensures |r| == |buf|
  {
    var end := start + |buf|;
    if !Contributes(s, file, start, end) then buf
    else
      var from := s.rawOffset + (Lo(s, start) - s.va);
      Put(buf, Lo(s, start) - start, file[from..from + (Hi(s, end) - Lo(s, start))])
  }

  function CopySections(buf: bytes, ss: seq<Section>, file: bytes, start: nat): (r: bytes)
    ensures |r| == |buf|
    decreases |ss|
  {
    if ss == [] then buf else CopySections(CopySection(buf, ss[0], file, start), ss[1..], file, start)
  }

  method PreDecryptionPayload(ss: seq<Section>, file: bytes, rva: nat, size: nat) returns (before: bytes)
    ensures before == CopySections(Zeros(size), ss, file, rva)
  {
    hide CopySection;
    var buf := new u8[size](_ => 0);
    assert buf[..] == Zeros(size);
    for i := 0 to |ss|
      invariant CopySections(buf[..], ss[i..], file, rva) == CopySections(Zeros(size), ss, file, rva)
    {
      assert ss[i..][0] == ss[i] && ss[i..][1..] == ss[i + 1..];
      CopyBacked(buf, ss[i], file, rva, rva + size);
    }
    before := buf[..];
  }

  /** The part of the range that one section covers. */
  method CopyBacked(buf: array<u8>, s: Section, file: bytes, start: nat, end: nat)
    requires end == start + buf.Length
    modifies buf
    ensures buf[..] == CopySection(old(buf[..]), s, file, start)
  {
    hide Put;
    var sVa, sEnd := s.va, s.va + Max(s.vsize, s.rawSize);
    var lo, hi := Max(start, sVa), Min(end, sEnd);
    if lo >= hi || s.rawSize == 0 {
      return;
    }
    hi := Min(hi, sVa + s.rawSize);
    if lo >= hi {
      return;
    }
    var from := s.rawOffset + (lo - sVa);
    var to := from + (hi - lo);
    if to > |file| {
      return;
    }
    CopyInto(buf, lo - start, file[from..to]);
  }

  /** What a loader would have mapped at RVA x: the file byte that backs it, or zero. */
  function LoaderByte(ss: seq<Section>, file: bytes, x: nat): u8
  {
    if ss == [] then 0
    else if Backs(ss[0], x) && ss[0].rawOffset + (x - ss[0].va) < |file| then file[ss[0].rawOffset + (x - ss[0].va)]
    else LoaderByte(ss[1..], file, x)
  }

  ghost predicate BackedApart(ss: seq<Section>, file: bytes)
  {
    && (forall i :: 0 <= i < |ss| ==> ss[i].rawOffset + ss[i].rawSize <= |file|)
    && (forall i, j, x: nat :: 0 <= i < j < |ss| && Backs(ss[i], x) ==> !Backs(ss[j], x))
  }

  lemma {:induction false} CopySectionAt(buf: bytes, s: Section, file: bytes, start: nat, k: nat)
    requires s.rawOffset + s.rawSize <= |file| && k < |buf|
    ensures CopySection(buf, s, file, start)[k]
         == if Backs(s, start + k) then file[s.rawOffset + (start + k - s.va)] else buf[k]
  {
    var end := start + |buf|;
    if Contributes(s, file, start, end) {
      var from, at, n := s.rawOffset + (Lo(s, start) - s.va), Lo(s, start) - start, Hi(s, end) - Lo(s, start);
      if at <= k < at + n {
        assert file[from..from + n][k - at] == file[from + (k - at)];
      }
    }
  }

  lemma {:induction false} BackedTail(ss: seq<Section>, file: bytes)
    requires ss != [] && BackedApart(ss, file)
    ensures BackedApart(ss[1..], file)
  {
    forall i, j, x: nat | 0 <= i < j < |ss[1..]| && Backs(ss[1..][i], x) ensures !Backs(ss[1..][j], x) {
      assert Backs(ss[i + 1], x);
    }
  }

  lemma {:induction false} UnbackedStays(buf: bytes, ss: seq<Section>, file: bytes, start: nat, k: nat)
    requires (forall i :: 0 <= i < |ss| ==> ss[i].rawOffset + ss[i].rawSize <= |file|) && k < |buf|
    requires forall i :: 0 <= i < |ss| ==> !Backs(ss[i], start + k)
    ensures CopySections(buf, ss, file, start)[k] == buf[k]
    decreases |ss|
  {
    hide CopySection, Backs;
    if ss != [] {
      CopySectionAt(buf, ss[0], file, start, k);
      UnbackedStays(CopySection(buf, ss[0], file, start), ss[1..], file, start, k);
    }
  }

  /**
   * What one section contributes to a range: the bytes of its raw data that fall into it, all of them or, if the
   * last of these is behind the end of the file, none; its size in memory does not matter.
   */
  lemma {:induction false} CopyRule(buf: bytes, s: Section, file: bytes, start: nat, k: nat)
    requires k < |buf|
    ensures var x, end := start + k, start + |buf|;
      var last := (if s.va + s.rawSize < end then s.va + s.rawSize else end) - 1;
      CopySection(buf, s, file, start)[k]
      == if s.va <= x < s.va + s.rawSize && s.rawOffset + (last - s.va) < |file|
         then file[s.rawOffset + (x - s.va)] else buf[k]
  {
    var end := start + |buf|;
    if Contributes(s, file, start, end) {
      var from, at, n := s.rawOffset + (Lo(s, start) - s.va), Lo(s, start) - start, Hi(s, end) - Lo(s, start);
      if at <= k < at + n {
        assert file[from..from + n][k - at] == file[from + (k - at)];
      }
    }
  }

  /** The interval copies agree byte for byte with the loader's view. */
  lemma {:induction false} CopiesAreLoaderView(buf: bytes, ss: seq<Section>, file: bytes, start: nat, k: nat)
    requires BackedApart(ss, file) && k < |buf| && buf[k] == 0
    ensures CopySections(buf, ss, file, start)[k] == LoaderByte(ss, file, start + k)
    decreases |ss|
  {
    hide CopySection;
    if ss != [] {
      BackedTail(ss, file);
      CopySectionAt(buf, ss[0], file, start, k);
      var next := CopySection(buf, ss[0], file, start);
      if Backs(ss[0], start + k) {
        assert forall j :: 0 <= j < |ss[1..]| ==> ss[1..][j] == ss[j + 1];
        UnbackedStays(next, ss[1..], file, start, k);
      } else {
        CopiesAreLoaderView(next, ss[1..], file, start, k);
      }
    }
  }

  /** For sections apart from each other whose raw data is in the file. */
  lemma {:induction false} PayloadIsLoaderView(ss: seq<Section>, file: bytes, rva: nat, size: nat, k: nat)
    requires BackedApart(ss, file) && k < size
    ensures CopySections(Zeros(size), ss, file, rva)[k] == LoaderByte(ss, file, rva + k)
  {
    CopiesAreLoaderView(Zeros(size), ss, file, rva, k);
  }

  // ---- Sampling until the image has settled -----------------------------------------------------------

  predicate Moved(image: bytes, p: Payload)
  {
    p.rva + |p.before| <= |image| && image[p.rva..p.rva + |p.before|] != p.before
  }

  predicate PayloadsMoved(image: bytes, expected: seq<Payload>)
  {
    forall i :: 0 <= i < |expected| ==> Moved(image, expected[i])
  }

  /** What one attempt to read the image gives, with the time since the start in milliseconds. */
  datatype Attempt = Sample(image: bytes, elapsed: nat) | Failed(error: string)

  datatype Exit = Settled | TimedOut | WentAway

  datatype Outcome = Written(image: bytes, exit: Exit) | Refused(error: string) | StillSampling

  const STABLE_TIMEOUT: nat := 30_000
  const STABLE_SAMPLES: nat := 2

  /** How many samples at the end of the history are identical. */
  function ConstantSuffix(h: seq<bytes>): nat
  {
    if |h| <= 1 then |h|
    else if h[|h| - 1] == h[|h| - 2] then ConstantSuffix(h[..|h| - 1]) + 1
    else 1
  }

  /** The first n attempts, when all of them are samples. */
  function Images(attempts: seq<Attempt>, n: nat): (h: seq<bytes>)
    requires n <= |attempts| && forall i :: 0 <= i < n ==> attempts[i].Sample?
    ensures |h| == n && forall i :: 0 <= i < n ==> h[i] == attempts[i].image
  {
    if n == 0 then [] else Images(attempts, n - 1) + [attempts[n - 1].image]
  }

  predicate AllSamples(attempts: seq<Attempt>, n: nat)
    requires n <= |attempts|
  {
    forall i :: 0 <= i < n ==> attempts[i].Sample?
  }

  /** After n samples the image is accepted. */
  predicate SettledAt(attempts: seq<Attempt>, expected: seq<Payload>, n: nat)
    requires 0 < n <= |attempts| && AllSamples(attempts, n)
  {
    PayloadsMoved(attempts[n - 1].image, expected) && ConstantSuffix(Images(attempts, n)) >= STABLE_SAMPLES
  }

  /** The loop does not stop at the n-th sample. */
  predicate GoesOn(attempts: seq<Attempt>, expected: seq<Payload>, n: nat)
    requires 0 < n <= |attempts| && AllSamples(attempts, n)
  {
    !SettledAt(attempts, expected, n) && attempts[n - 1].elapsed < STABLE_TIMEOUT
  }

  /** The loop gets past its first n attempts. */
  ghost predicate Passed(attempts: seq<Attempt>, expected: seq<Payload>, n: nat)
    requires n <= |attempts|
  {
    AllSamples(attempts, n) && forall m :: 0 < m <= n ==> GoesOn(attempts, expected, m)
  }

  lemma {:induction false} SuffixSnoc(h: seq<bytes>, x: bytes)
    ensures ConstantSuffix(h + [x]) == if h != [] && h[|h| - 1] == x then ConstantSuffix(h) + 1 else 1
  {
    assert (h + [x])[..|h|] == h;
  }

  /** The suffix is constant, and the sample in front of it, if there is one, is different. */
  lemma {:induction false} SuffixIsLongest(h: seq<bytes>)
    requires h != []
    ensures 1 <= ConstantSuffix(h) <= |h|
    ensures forall i :: |h| - ConstantSuffix(h) <= i < |h| ==> h[i] == h[|h| - 1]
    ensures ConstantSuffix(h) < |h| ==> h[|h| - 1 - ConstantSuffix(h)] != h[|h| - 1]
    decreases |h|
  {
    if |h| > 1 {
      SuffixIsLongest(h[..|h| - 1]);
    }
  }

  /** n attempts have been made, the last of which ended the loop, or all of them and it has not ended. */
  ghost predicate Ends(attempts: seq<Attempt>, expected: seq<Payload>, r: Outcome, n: nat)
  {
    && n <= |attempts|
    && match r
       case StillSampling => n == |attempts| && Passed(attempts, expected, n)
       case Refused(e) => n == 1 && attempts[0] == Failed(e)
       case Written(image, WentAway) =>
         n >= 2 && Passed(attempts, expected, n - 1) && attempts[n - 1].Failed? && image == attempts[n - 2].image
       case Written(image, exit) =>
         && n >= 1 && Passed(attempts, expected, n - 1) && AllSamples(attempts, n) && image == attempts[n - 1].image
         && (exit == Settled <==> SettledAt(attempts, expected, n))
         && (exit == TimedOut ==> attempts[n - 1].elapsed >= STABLE_TIMEOUT)
  }

  method DumpStable(attempts: seq<Attempt>, expected: seq<Payload>) returns (r: Outcome)
    ensures exists n: nat :: Ends(attempts, expected, r, n) && Stops(attempts, expected, r, n)
  {
    ghost var n;
    r, n := SampleUntilStable(attempts, expected);
    EndsStop(attempts, expected, r, n);
  }

  method SampleUntilStable(attempts: seq<Attempt>, expected: seq<Payload>) returns (r: Outcome, ghost n: nat)
    ensures Ends(attempts, expected, r, n)
  {
    hide PayloadsMoved, ConstantSuffix;
    n := 0;
    var previous: Option<bytes> := None;
    var same: nat := 0;
    for i := 0 to |attempts|
      invariant n == i && Passed(attempts, expected, n)
      invariant previous == if n == 0 then None else Some(attempts[n - 1].image)
      invariant n > 0 ==> same + 1 == ConstantSuffix(Images(attempts, n))
      invariant n == 0 ==> same == 0
    {
      n := n + 1;
      if attempts[i].Failed? {
        if previous.Some? {
          return Written(previous.value, WentAway), n;
        }
        return Refused(attempts[i].error), n;
      }
      var image := attempts[i].image;
      SuffixSnoc(Images(attempts, i), image);
      var moved := PayloadsMoved(image, expected);
      if previous.Some? {
        if previous.value == image {
          same := same + 1;
        } else {
          same := 0;
        }
      }
      previous := Some(image);
      if moved && same + 1 >= STABLE_SAMPLES {
        return Written(image, Settled), n;
      }
      if attempts[i].elapsed >= STABLE_TIMEOUT {
        return Written(image, TimedOut), n;
      }
    }
    r := StillSampling;
  }

  // ---- The rule, sample by sample ------------------------------------------------------------------------

  /** The payload's range lies in the image, and some byte of it is not the one it was before decryption. */
  ghost predicate Decrypted(image: bytes, p: Payload)
  {
    p.rva + |p.before| <= |image| && exists k :: 0 <= k < |p.before| && image[p.rva + k] != p.before[k]
  }

  /** The n-th attempt and the one before it gave the same image, in which every payload has changed. */
  ghost predicate Stable(attempts: seq<Attempt>, expected: seq<Payload>, n: nat)
  {
    && 2 <= n <= |attempts| && attempts[n - 2].Sample? && attempts[n - 1].Sample?
    && attempts[n - 2].image == attempts[n - 1].image
    && forall i :: 0 <= i < |expected| ==> Decrypted(attempts[n - 1].image, expected[i])
  }

  /** The n-th attempt gave an image that is not accepted, in less than thirty seconds. */
  ghost predicate KeepsSampling(attempts: seq<Attempt>, expected: seq<Payload>, n: nat)
  {
    && 0 < n <= |attempts| && attempts[n - 1].Sample? && !Stable(attempts, expected, n)
    && attempts[n - 1].elapsed < 30_000
  }

  /** How the loop ends: at the first attempt that is no reason to go on, which decides what is written. */
  ghost predicate Stops(attempts: seq<Attempt>, expected: seq<Payload>, r: Outcome, n: nat)
  {
    && n <= |attempts| && (forall m: nat :: 0 < m < n ==> KeepsSampling(attempts, expected, m))
    && if n == 0 then r == StillSampling && attempts == []
       else if KeepsSampling(attempts, expected, n) then r == StillSampling && n == |attempts|
       else
         match attempts[n - 1]
         case Sample(image, _) => r == Written(image, if Stable(attempts, expected, n) then Settled else TimedOut)
         case Failed(e) =>
           if n == 1 then r == Refused(e)
           else attempts[n - 2].Sample? && r == Written(attempts[n - 2].image, WentAway)
  }

  lemma {:induction false} MovedIff(image: bytes, p: Payload)
    ensures Moved(image, p) <==> Decrypted(image, p)
  {
    if p.rva + |p.before| <= |image| {
      var now := image[p.rva..p.rva + |p.before|];
      if forall k :: 0 <= k < |p.before| ==> image[p.rva + k] == p.before[k] {
        assert now == p.before;
      } else {
        var k :| 0 <= k < |p.before| && image[p.rva + k] != p.before[k];
        assert now[k] != p.before[k];
      }
    }
  }

  lemma {:induction false} SettledIff(attempts: seq<Attempt>, expected: seq<Payload>, n: nat)
    requires 0 < n <= |attempts| && AllSamples(attempts, n)
    ensures SettledAt(attempts, expected, n) <==> Stable(attempts, expected, n)
  {
    hide Moved, Decrypted;
    var h := Images(attempts, n);
    SuffixIsLongest(h);
    forall i | 0 <= i < |expected|
      ensures Moved(attempts[n - 1].image, expected[i]) <==> Decrypted(attempts[n - 1].image, expected[i])
    {
      MovedIff(attempts[n - 1].image, expected[i]);
    }
    assert h[n - 1] == attempts[n - 1].image;
    if n >= 2 {
      assert h[n - 2] == attempts[n - 2].image;
      SuffixOfTwo(h);
    }
  }

  lemma {:induction false} SuffixOfTwo(h: seq<bytes>)
    requires |h| >= 2
    ensures ConstantSuffix(h) >= 2 <==> h[|h| - 1] == h[|h| - 2]
  {
    SuffixIsLongest(h[..|h| - 1]);
  }

  lemma {:induction false} GoesOnIff(attempts: seq<Attempt>, expected: seq<Payload>, n: nat)
    requires 0 < n <= |attempts| && AllSamples(attempts, n)
    ensures GoesOn(attempts, expected, n) <==> KeepsSampling(attempts, expected, n)
  {
    hide SettledAt, Stable;
    SettledIff(attempts, expected, n);
  }

  /** The loop stops as said, over every sequence of attempts. */
  lemma {:induction false} EndsStop(attempts: seq<Attempt>, expected: seq<Payload>, r: Outcome, n: nat)
    requires Ends(attempts, expected, r, n)
    ensures Stops(attempts, expected, r, n)
  {
    hide SettledAt, Stable, GoesOn, KeepsSampling;
    forall m: nat | 0 < m <= n && AllSamples(attempts, m)
      ensures GoesOn(attempts, expected, m) <==> KeepsSampling(attempts, expected, m)
      ensures SettledAt(attempts, expected, m) <==> Stable(attempts, expected, m)
    {
      GoesOnIff(attempts, expected, m);
      SettledIff(attempts, expected, m);
    }
    LastKeeps(attempts, expected, n);
  }

  lemma {:induction false} LastKeeps(attempts: seq<Attempt>, expected: seq<Payload>, n: nat)
    requires n <= |attempts|
    ensures KeepsSampling(attempts, expected, n)
        ==> attempts[n - 1].Sample? && !Stable(attempts, expected, n) && attempts[n - 1].elapsed < STABLE_TIMEOUT
    ensures 0 < n && attempts[n - 1].Sample? && !KeepsSampling(attempts, expected, n)
        ==> Stable(attempts, expected, n) || attempts[n - 1].elapsed >= STABLE_TIMEOUT
  {
    hide Stable;
  }

  /**
   * What an accepted image is: the last two samples are identical, and every payload range lies in the image
   * and has a byte that is not the one it had before decryption.
   */
  lemma {:induction false} SettledImage(attempts: seq<Attempt>, expected: seq<Payload>, image: bytes, n: nat)
    requires Ends(attempts, expected, Written(image, Settled), n)
    ensures 2 <= n <= |attempts| && AllSamples(attempts, n)
    ensures attempts[n - 1].image == image == attempts[n - 2].image
    ensures forall i :: 0 <= i < |expected| ==>
      && expected[i].rva + |expected[i].before| <= |image|
      && exists k :: 0 <= k < |expected[i].before| && image[expected[i].rva + k] != expected[i].before[k]
  {
    hide SettledAt;
    SettledIff(attempts, expected, n);
    forall i | 0 <= i < |expected|
      ensures expected[i].rva + |expected[i].before| <= |image|
      ensures exists k :: 0 <= k < |expected[i].before| && image[expected[i].rva + k] != expected[i].before[k]
    {
      assert Decrypted(image, expected[i]);
    }
  }

  lemma {:induction false} Undecrypted(image: bytes, p: Payload)
    requires p.rva + |p.before| > |image| || image[p.rva..p.rva + |p.before|] == p.before
    ensures !Decrypted(image, p)
  {
    MovedIff(image, p);
  }

  /** A sample in which one payload range is missing or still holds its old bytes is never accepted. */
  lemma {:induction false} UndecryptedNeverSettles(attempts: seq<Attempt>, expected: seq<Payload>, image: bytes,
      n: nat, p: Payload)
    requires p in expected
    requires p.rva + |p.before| > |image| || image[p.rva..p.rva + |p.before|] == p.before
    ensures !Ends(attempts, expected, Written(image, Settled), n)
  {
    hide SettledAt, Decrypted;
    var i :| 0 <= i < |expected| && expected[i] == p;
    Undecrypted(image, p);
    if Ends(attempts, expected, Written(image, Settled), n) {
      SettledIff(attempts, expected, n);
      assert false;
    }
  }

  /** Attempt k gave the image, and the attempts made after it, at most one, gave none. */
  ghost predicate LastComplete(attempts: seq<Attempt>, image: bytes, k: nat, n: nat)
  {
    k < n <= k + 2 && n <= |attempts| && attempts[k].Sample? && attempts[k].image == image
    && forall m :: k < m < n ==> attempts[m].Failed?
  }

  /** Whatever makes the loop write, it writes the last complete sample; it fails only if the first attempt does. */
  lemma {:induction false} LastSampleWritten(attempts: seq<Attempt>, expected: seq<Payload>, r: Outcome, n: nat)
    requires Ends(attempts, expected, r, n)
    ensures n <= |attempts|
    ensures r.Written? ==> exists k: nat :: LastComplete(attempts, r.image, k, n)
    ensures r.Refused? <==> attempts != [] && attempts[0].Failed?
  {
    hide GoesOn, SettledAt;
    if r.Written? {
      var k := if r.exit == WentAway then n - 2 else n - 1;
      assert LastComplete(attempts, r.image, k, n);
    }
    if n >= 2 {
      assert Passed(attempts, expected, n - 1) || Passed(attempts, expected, n);
      assert attempts[0].Sample?;
    }
  }
}
