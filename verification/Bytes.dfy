/** Bytes, big-endian numbers and C strings, shared by the OSC codec and the websocket framing. */
module Bytes {

  type byte = b: int | 0 <= b < 256

  datatype Option<+T> = None | Some(value: T)

  function Zeros(n: nat): (r: seq<byte>)
    ensures |r| == n && forall k :: 0 <= k < n ==> r[k] == 0
  {
    seq(n, _ => 0)
  }

  lemma Associative<T>(a: seq<T>, b: seq<T>, c: seq<T>)
    ensures a + (b + c) == a + b + c
  {
  }

  lemma PrefixGrows(a: seq<byte>, w: seq<byte>, n: nat, k: nat)
    requires n + k <= |w|
    ensures a + w[..n] + w[n..n + k] == a + w[..n + k]
  {
    assert w[..n] + w[n..n + k] == w[..n + k];
  }

  // ---- masks -----------------------------------------------------------------

  const WORD := 0x1_0000_0000

  /** `n & 3`. */
  function Low2(n: nat): (r: nat)
    ensures r < 4 && r <= n
  {
    if n < 4 then n else Low2(n - 4)
  }

  /** The 32 low bits of `n`: what survives a 32-bit mask or conversion. */
  function Low32(n: nat): (r: nat)
    ensures r < WORD && r <= n
  {
    if n < WORD then n else Low32(n - WORD)
  }

  /** `n & 3` is the remainder by four. */
  lemma {:induction false} Low2IsRemainder(n: nat)
    ensures Low2(n) == n % 4
    decreases n
  {
    if n >= 4 {
      Low2IsRemainder(n - 4);
    }
  }

  /** What is kept is the remainder by 2 to the 32nd. */
  lemma {:induction false} Low32IsRemainder(n: nat)
    ensures Low32(n) == n % WORD
    decreases n
  {
    if n >= WORD {
      Low32IsRemainder(n - WORD);
    }
  }

  lemma Low2OfSum(a: nat, b: nat)
    requires Low2(b) == 0
    ensures Low2(a + b) == Low2(a)
  {
    Low2IsRemainder(a);
    Low2IsRemainder(b);
    Low2IsRemainder(a + b);
  }

  /** `n` without its two low bits: `n & ~3`. */
  function Floor4(n: nat): (r: nat)
    ensures r == n - Low2(n)
  {
    n - Low2(n)
  }

  lemma Floor4Aligned(n: nat)
    ensures Low2(Floor4(n)) == 0
  {
    Low2IsRemainder(n);
    Low2IsRemainder(Floor4(n));
  }

  /** Rounding up stays inside a room of whole quads. */
  lemma RoundUpFits(n: nat, room: nat)
    requires n <= room && Low2(room) == 0
    ensures Floor4(n + 3) <= room
  {
    Low2IsRemainder(n + 3);
    Low2IsRemainder(room);
  }

  lemma Low2Difference(a: nat, b: nat)
    requires b <= a && Low2(a) == 0 && Low2(b) == 0
    ensures Low2(a - b) == 0
  {
    Low2IsRemainder(a);
    Low2IsRemainder(b);
    Low2IsRemainder(a - b);
  }

  lemma Floor4Monotone(a: nat, b: nat)
    requires a <= b
    ensures Floor4(a) <= Floor4(b)
  {
    Low2IsRemainder(a);
    Low2IsRemainder(b);
  }

  /** Dropping the high half does not touch the low bits. */
  lemma {:induction false} Low32Aligned(n: nat)
    requires Low2(n) == 0
    ensures Low2(Low32(n)) == 0
    decreases n
  {
    if n >= WORD {
      Low2IsRemainder(n);
      Low2IsRemainder(n - WORD);
      Low32Aligned(n - WORD);
    }
  }

  /** One to four bytes of padding lead to the next quad. */
  lemma PaddingAligns(n: nat)
    ensures Low2(n + (4 - Low2(n))) == 0 && Floor4(n + 4) == n + (4 - Low2(n))
  {
    Low2IsRemainder(n);
    Low2IsRemainder(n + 4);
    Low2IsRemainder(n + (4 - Low2(n)));
  }

  // ---- big-endian numbers ----------------------------------------------------

  function Pow256(n: nat): (r: nat)
    ensures r > 0
  {
    if n == 0 then 1 else 256 * Pow256(n - 1)
  }

  /** The `n` low bytes of `v`, most significant byte first. */
  function BigEndian(v: nat, n: nat): (r: seq<byte>)
    ensures |r| == n
    decreases v, n
  {
    if n == 0 then [] else BigEndian(v / 256, n - 1) + [v % 256]
  }

  /** The number a byte string denotes, most significant byte first. */
  function FromBigEndian(d: seq<byte>): (v: nat)
  {
    if d == [] then 0 else FromBigEndian(d[..|d| - 1]) * 256 + d[|d| - 1]
  }

  lemma {:induction false} BigEndianRoundTrip(v: nat, n: nat)
    requires v < Pow256(n)
    ensures FromBigEndian(BigEndian(v, n)) == v
    decreases n
  {
    if n > 0 {
      BigEndianRoundTrip(v / 256, n - 1);
      assert BigEndian(v, n)[..n - 1] == BigEndian(v / 256, n - 1);
    }
  }

  // ---- C strings -------------------------------------------------------------

  /** `memchr` for NUL: the first one at or after `pos`, or the end of the buffer. */
  function FindNul(d: seq<byte>, pos: nat): (e: nat)
    requires pos <= |d|
    ensures pos <= e <= |d|
    ensures forall k :: pos <= k < e ==> d[k] != 0
    ensures e < |d| ==> d[e] == 0
    decreases |d| - pos
  {
    if pos == |d| || d[pos] == 0 then pos else FindNul(d, pos + 1)
  }

  /** The characters in front of the first NUL: what a `const char *` into `s` denotes. */
  function CString(s: seq<byte>): seq<byte> {
    s[..FindNul(s, 0)]
  }

  predicate NulFree(s: seq<byte>) {
    forall k :: 0 <= k < |s| ==> s[k] != 0
  }

  /** It is the longest prefix without NUL. */
  lemma CStringIsLongest(s: seq<byte>)
    ensures CString(s) <= s && NulFree(CString(s))
    ensures |CString(s)| < |s| ==> s[|CString(s)|] == 0
  {
  }

  lemma CStringIsNulFree(s: seq<byte>)
    ensures NulFree(CString(s))
    ensures NulFree(s) ==> CString(s) == s
  {
  }

  // ---- what a buffer holds where ---------------------------------------------

  /** The bytes `x` lie in `d` from `pos` on. */
  predicate Holds(d: seq<byte>, pos: nat, x: seq<byte>) {
    pos + |x| <= |d| && forall k {:trigger x[k]} :: 0 <= k < |x| ==> d[pos + k] == x[k]
  }

  lemma HoldsBoth(d: seq<byte>, pos: nat, x: seq<byte>, y: seq<byte>)
    requires Holds(d, pos, x + y)
    ensures Holds(d, pos, x) && Holds(d, pos + |x|, y)
  {
    forall k | 0 <= k < |x| ensures d[pos + k] == x[k] {
      assert (x + y)[k] == x[k];
    }
    forall k | 0 <= k < |y| ensures d[pos + |x| + k] == y[k] {
      assert (x + y)[|x| + k] == y[k];
    }
  }

  lemma HoldsThree(d: seq<byte>, x: seq<byte>, y: seq<byte>, z: seq<byte>)
    requires d == x + y + z
    ensures Holds(d, 0, x) && Holds(d, |x|, y) && Holds(d, |x| + |y|, z)
  {
    HoldsBoth(d, 0, x + y, z);
    HoldsBoth(d, 0, x, y);
  }

  lemma HoldsSlice(d: seq<byte>, pos: nat, x: seq<byte>)
    requires Holds(d, pos, x)
    ensures d[pos..pos + |x|] == x
  {
  }

  /** A buffer that ends with the first bytes of `x`, and the rest of them. */
  lemma HoldsCompleted(d: seq<byte>, pos: nat, x: seq<byte>, n: nat)
    requires n <= |x| && Holds(d, pos, x[..n]) && pos + n == |d|
    ensures Holds(d + x[n..], pos, x)
  {
    forall k | 0 <= k < |x| ensures (d + x[n..])[pos + k] == x[k] {
      if k < n {
        assert x[..n][k] == x[k];
      } else {
        assert x[n..][k - n] == x[k];
      }
    }
  }

  // ---- byte strings back to back ---------------------------------------------

  /** The parts from the `k`-th on, joined. */
  function Flat(parts: seq<seq<byte>>, k: nat := 0): seq<byte>
    requires k <= |parts|
    decreases |parts| - k
  {
    if k == |parts| then [] else parts[k] + Flat(parts, k + 1)
  }

  lemma {:induction false} FlatGrows(parts: seq<seq<byte>>, x: seq<byte>, k: nat)
    requires k <= |parts|
    ensures Flat(parts + [x], k) == Flat(parts, k) + x
    decreases |parts| - k
  {
    if k < |parts| {
      FlatGrows(parts, x, k + 1);
      Associative(parts[k], Flat(parts, k + 1), x);
    } else {
      assert Flat(parts + [x], k + 1) == [];
    }
  }

  /** The parts from the `k`-th on lie in `d` one behind the other, from `pos` to `end`. */
  predicate Chained(d: seq<byte>, pos: nat, parts: seq<seq<byte>>, k: nat, end: nat)
    requires k <= |parts|
    decreases |parts| - k
  {
    if k == |parts| then pos == end
    else Holds(d, pos, parts[k]) && Chained(d, pos + |parts[k]|, parts, k + 1, end)
  }

  lemma {:induction false} FlatIsChained(d: seq<byte>, pos: nat, parts: seq<seq<byte>>, k: nat)
    requires k <= |parts| && Holds(d, pos, Flat(parts, k))
    ensures Chained(d, pos, parts, k, pos + |Flat(parts, k)|)
    decreases |parts| - k
  {
    if k < |parts| {
      HoldsBoth(d, pos, parts[k], Flat(parts, k + 1));
      FlatIsChained(d, pos + |parts[k]|, parts, k + 1);
    }
  }

  lemma FlatInFront(parts: seq<seq<byte>>, tail: seq<byte>)
    ensures Chained(Flat(parts) + tail, 0, parts, 0, |Flat(parts)|)
    ensures Holds(Flat(parts) + tail, |Flat(parts)|, tail)
  {
    HoldsThree(Flat(parts) + tail, [], Flat(parts), tail);
    FlatIsChained(Flat(parts) + tail, 0, parts, 0);
  }
}
