/** Fixed-width little-endian words and their place in byte buffers. */
module Words {

  const TWO16 := 0x1_0000
  const TWO32 := 0x1_0000_0000
  const TWO64 := 0x1_0000_0000_0000_0000

  type u8 = x: int | 0 <= x < 0x100
  type u16 = x: int | 0 <= x < TWO16
  type u32 = x: int | 0 <= x < TWO32
  type u64 = x: int | 0 <= x < TWO64
  type i64 = x: int | -0x8000_0000_0000_0000 <= x < 0x8000_0000_0000_0000

  type bytes = seq<u8>

  /** Size of a pointer, and of an import or relocation slot that holds one. */
  function PtrSize(is64bit: bool): nat { if is64bit then 8 else 4 }

  function Min(a: nat, b: nat): nat { if a < b then a else b }

  function Max(a: nat, b: nat): nat { if a < b then b else a }

  /** 256 to the power n: the number of values an n-byte word can hold. */
  function Range(n: nat): (r: nat)
    ensures r > 0
  {
    if n == 0 then 1 else 0x100 * Range(n - 1)
  }

  /** The low n bytes of v, least significant first. */
  function Le(v: nat, n: nat): (b: bytes)
    ensures |b| == n
  {
    seq(n, i requires 0 <= i => v / Range(i) % 0x100)
  }

  /** The w-byte word at offset o. */
  function Get(b: bytes, o: nat, w: nat): nat
    requires o + w <= |b|
    decreases w
  {
    if w == 0 then 0 else b[o] + 0x100 * Get(b, o + 1, w - 1)
  }

  /** A word is its bytes, the least significant first. */
  lemma {:induction false} GetIs(b: bytes, o: nat)
    ensures o + 2 <= |b| ==> Get(b, o, 2) == b[o] as int + 0x100 * b[o + 1] as int
    ensures o + 4 <= |b| ==>
      Get(b, o, 4) == b[o] as int + 0x100 * b[o + 1] as int + 0x1_0000 * b[o + 2] as int + 0x100_0000 * b[o + 3] as int
    ensures o + 8 <= |b| ==> Get(b, o, 8) == Get(b, o, 4) + 0x1_0000_0000 * Get(b, o + 4, 4)
  {
    if o + 2 <= |b| {
      GetJoin(b, o, 1, 1);
    }
    if o + 4 <= |b| {
      GetJoin(b, o, 2, 2);
      GetJoin(b, o + 2, 1, 1);
    }
    if o + 8 <= |b| {
      GetJoin(b, o, 4, 4);
    }
    RangeValues();
  }

  lemma {:induction false} GetJoin(b: bytes, o: nat, m: nat, n: nat)
    requires o + m + n <= |b|
    ensures Get(b, o, m + n) == Get(b, o, m) + Range(m) * Get(b, o + m, n)
    decreases m
  {
    if m > 0 {
      GetJoin(b, o + 1, m - 1, n);
      var rest := Get(b, o + m, n);
      assert Range(m) * rest == 0x100 * (Range(m - 1) * rest);
    }
  }

  function U16(b: bytes, o: nat): (r: u16)
    requires o + 2 <= |b|
  {
    GetBounds(b, o, 2);
    Get(b, o, 2)
  }

  function U32(b: bytes, o: nat): (r: u32)
    requires o + 4 <= |b|
  {
    GetBounds(b, o, 4);
    Get(b, o, 4)
  }

  function U64(b: bytes, o: nat): (r: u64)
    requires o + 8 <= |b|
  {
    GetBounds(b, o, 8);
    Get(b, o, 8)
  }

  /** b with s copied over it at offset o. */
  function Put(b: bytes, o: nat, s: bytes): (r: bytes)
    requires o + |s| <= |b|
    ensures |r| == |b|
  {
    seq(|b|, k requires 0 <= k < |b| => if o <= k < o + |s| then s[k - o] else b[k])
  }

  function Zeros(n: nat): (z: bytes)
    ensures |z| == n
    ensures forall k :: 0 <= k < n ==> z[k] == 0
  {
    seq(n, _ => 0)
  }

  /** b, grown with zeros to n bytes if it is shorter. */
  function Grown(b: bytes, n: nat): (r: bytes)
    ensures |r| == Max(|b|, n)
  {
    if n > |b| then b + Zeros(n - |b|) else b
  }

  /** Where slot m of a table of w-byte slots at a stands. */
  function SlotAt(a: nat, m: nat, w: nat): nat { a + w * m }

  method CopyInto(a: array<u8>, at: nat, s: bytes)
    requires at + |s| <= a.Length
    modifies a
    ensures a[..] == Put(old(a[..]), at, s)
  {
    forall k | 0 <= k < |s| {
      a[at + k] := s[k];
    }
  }

  /** s up to its first NUL. */
  function CutNul(s: bytes): bytes
  {
    if s == [] || s[0] == 0 then [] else [s[0]] + CutNul(s[1..])
  }

  /** s stands in b at offset o. */
  ghost predicate At(b: bytes, o: nat, s: bytes)
  {
    o + |s| <= |b| && b[o..o + |s|] == s
  }

  lemma {:induction false} RangeValues()
    ensures Range(2) == TWO16 && Range(4) == TWO32 && Range(8) == TWO64
  {
  }

  lemma {:induction false} ModUnique(v: int, m: nat, q: int, r: int)
    requires m > 0 && v == m * q + r && 0 <= r < m
    ensures v % m == r && v / m == q
  {
    var d := v / m - q;
    assert m * d == r - v % m by {
      assert v == m * (v / m) + v % m;
      assert m * d == m * (v / m) - m * q;
    }
    if d >= 1 {
      MulMono(m, d, 1);
    } else if d <= -1 {
      MulMono(m, -1, d);
    }
  }

  lemma {:induction false} MulMono(m: nat, a: int, b: int)
    requires a >= b
    ensures m * a >= m * b
  {
  }

  lemma {:induction false} ModSplit(v: nat, m: nat)
    requires m > 0
    ensures v % (0x100 * m) == v % 0x100 + 0x100 * ((v / 0x100) % m)
    ensures v / (0x100 * m) == v / 0x100 / m
  {
    var q, r := v / 0x100 / m, v % 0x100 + 0x100 * ((v / 0x100) % m);
    assert v / 0x100 == m * q + (v / 0x100) % m;
    assert v == (0x100 * m) * q + r by {
      assert v == 0x100 * (v / 0x100) + v % 0x100;
      assert 0x100 * (m * q) == (0x100 * m) * q;
    }
    ModUnique(v, 0x100 * m, q, r);
  }

  lemma {:induction false} GetBound(b: bytes, o: nat, w: nat)
    requires o + w <= |b|
    ensures Get(b, o, w) < Range(w)
    decreases w
  {
    if w != 0 {
      GetBound(b, o + 1, w - 1);
    }
  }

  lemma {:induction false} GetBounds(b: bytes, o: nat, w: nat)
    requires o + w <= |b|
    ensures w == 2 ==> Get(b, o, w) < TWO16
    ensures w == 4 ==> Get(b, o, w) < TWO32
    ensures w == 8 ==> Get(b, o, w) < TWO64
  {
    GetBound(b, o, w);
    RangeValues();
  }

  lemma {:induction false} LeTail(v: nat, n: nat)
    requires n > 0
    ensures Le(v, n)[0] == v % 0x100 && Le(v, n)[1..] == Le(v / 0x100, n - 1)
  {
    forall i | 0 <= i < n - 1 ensures Le(v, n)[1..][i] == Le(v / 0x100, n - 1)[i] {
      ModSplit(v, Range(i));
    }
  }

  /** Reading back an encoded value gives it truncated to the width. */
  lemma {:induction false} GetLe(b: bytes, o: nat, v: nat, n: nat)
    requires At(b, o, Le(v, n))
    ensures Get(b, o, n) == v % Range(n)
    decreases n
  {
    if n != 0 {
      LeTail(v, n);
      assert b[o] == b[o..o + n][0];
      assert b[o + 1..o + n] == b[o..o + n][1..];
      GetLe(b, o + 1, v / 0x100, n - 1);
      ModSplit(v, Range(n - 1));
    }
  }

  /** A word stored in full reads back as itself. */
  lemma {:induction false} GetAt(b: bytes, o: nat, v: nat, n: nat)
    requires At(b, o, Le(v, n)) && v < Range(n)
    ensures Get(b, o, n) == v
  {
    GetLe(b, o, v, n);
    ModUnique(v, Range(n), 0, v);
  }

  /** Reading back the word just stored. */
  lemma {:induction false} GetPut(b: bytes, o: nat, v: nat, w: nat)
    requires o + w <= |b| && v < Range(w)
    ensures Get(Put(b, o, Le(v, w)), o, w) == v
  {
    GetAt(Put(b, o, Le(v, w)), o, v, w);
  }

  /** A word depends on its own bytes only. */
  lemma {:induction false} GetFrame(b: bytes, c: bytes, o: nat, w: nat)
    requires o + w <= |b| && o + w <= |c|
    requires forall k :: o <= k < o + w ==> b[k] == c[k]
    ensures Get(b, o, w) == Get(c, o, w)
    decreases w
  {
    if w != 0 {
      GetFrame(b, c, o + 1, w - 1);
    }
  }

  /** Equal bytes read as the same word, wherever they stand. */
  lemma {:induction false} GetMoved(a: bytes, x: nat, b: bytes, y: nat, w: nat)
    requires x + w <= |a| && y + w <= |b| && a[x..x + w] == b[y..y + w]
    ensures Get(a, x, w) == Get(b, y, w)
    decreases w
  {
    if w != 0 {
      assert a[x..x + w][0] == b[y..y + w][0];
      assert a[x + 1..x + w] == a[x..x + w][1..] == b[y..y + w][1..] == b[y + 1..y + w];
      GetMoved(a, x + 1, b, y + 1, w - 1);
    }
  }

  /** w bytes, d bytes into a stretch of n. */
  lemma {:induction false} SliceTwice<T>(s: seq<T>, a: nat, n: nat, d: nat, w: nat)
    requires a + n <= |s| && d + w <= n
    ensures s[a..a + n][d..d + w] == s[a + d..a + d + w]
  {
    var l, r := s[a..a + n][d..d + w], s[a + d..a + d + w];
    forall k | 0 <= k < w ensures l[k] == r[k] {
      assert l[k] == s[a..a + n][d + k];
    }
  }

  lemma {:induction false} SlotNext(a: nat, m: nat, w: nat)
    ensures SlotAt(a, m + 1, w) == SlotAt(a + w, m, w) && SlotAt(a, 0, w) == a
  {
    assert w * (m + 1) == w * m + w;
  }

  /** Equal words are equal byte for byte. */
  lemma {:induction false} GetInjective(b: bytes, c: bytes, o: nat, w: nat)
    requires o + w <= |b| && o + w <= |c|
    requires Get(b, o, w) == Get(c, o, w)
    ensures forall k :: o <= k < o + w ==> b[k] == c[k]
    decreases w
  {
    if w != 0 {
      GetInjective(b, c, o + 1, w - 1);
    }
  }

  /** Storing the word that is there changes nothing. */
  lemma {:induction false} PutSame(b: bytes, o: nat, w: nat)
    requires o + w <= |b|
    ensures Put(b, o, Le(Get(b, o, w), w)) == b
  {
    GetBound(b, o, w);
    GetPut(b, o, Get(b, o, w), w);
    GetInjective(Put(b, o, Le(Get(b, o, w), w)), b, o, w);
  }

  lemma {:induction false} GetSplit(b: bytes, o: nat, w: nat, x: nat)
    requires o + w + x <= |b|
    ensures Get(b, o, w + x) == Get(b, o, w) + Range(w) * Get(b, o + w, x)
    decreases w
  {
    if w != 0 {
      GetSplit(b, o + 1, w - 1, x);
      var rest := Get(b, o + w, x);
      hide Get;
      Associate(0x100, Range(w - 1), rest);
    }
  }

  lemma {:induction false} Associate(a: nat, b: nat, c: nat)
    ensures a * (b * c) == (a * b) * c
  {
  }

  /** The low four bytes of an eight-byte slot. */
  lemma {:induction false} LowHalf(b: bytes, o: nat)
    requires o + 8 <= |b|
    ensures Get(b, o, 4) == Get(b, o, 8) % TWO32
  {
    GetSplit(b, o, 4, 4);
    GetBounds(b, o, 4);
    RangeValues();
    ModUnique(Get(b, o, 8), TWO32, Get(b, o + 4, 4), Get(b, o, 4));
  }

  lemma {:induction false} AtSplit(b: bytes, o: nat, s: bytes, t: bytes)
    ensures At(b, o, s + t) <==> At(b, o, s) && At(b, o + |s|, t)
  {
    var n := |s| + |t|;
    if o + n <= |b| {
      var u := b[o..o + n];
      assert u[..|s|] == b[o..o + |s|] && u[|s|..] == b[o + |s|..o + |s| + |t|];
      assert u == u[..|s|] + u[|s|..];
      assert (s + t)[..|s|] == s && (s + t)[|s|..] == t;
    }
  }

  lemma {:induction false} AtWhole(s: bytes)
    ensures At(s, 0, s)
  {
    assert s[0..|s|] == s;
  }

  lemma {:induction false} AtByte(b: bytes, o: nat, s: bytes, k: nat)
    requires At(b, o, s) && k < |s|
    ensures b[o + k] == s[k]
  {
    assert b[o..o + |s|][k] == s[k];
  }

  lemma {:induction false} AtFrame(b: bytes, c: bytes, o: nat, s: bytes)
    requires At(b, o, s) && |b| == |c|
    requires forall k :: o <= k < o + |s| ==> b[k] == c[k]
    ensures At(c, o, s)
  {
    assert c[o..o + |s|] == b[o..o + |s|];
  }
}
