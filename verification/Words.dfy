/** Machine words: bytes, little-endian encodings and the bit operations the kernel sources use. */
module Words {

  type byte = b: int | 0 <= b < 256

  const TWO_31: int := 0x8000_0000
  const TWO_32: int := 0x1_0000_0000
  const TWO_63: int := 0x8000_0000_0000_0000
  const TWO_64: int := 0x1_0000_0000_0000_0000

  type u16 = v: int | 0 <= v < 0x1_0000
  type u32 = v: int | 0 <= v < TWO_32
  type u64 = v: int | 0 <= v < TWO_64
  type i64 = v: int | -TWO_63 <= v < TWO_63

  /** The conventional optional value. */
  datatype Option<+T> = None | Some(value: T)

  function Pow2(k: nat): (p: nat)
    ensures p > 0
  {
    if k == 0 then 1 else 2 * Pow2(k - 1)
  }

  function Pow256(n: nat): (p: nat)
    ensures p > 0
  {
    if n == 0 then 1 else 256 * Pow256(n - 1)
  }

  lemma Pow256Values()
    ensures Pow256(2) == 0x1_0000 && Pow256(4) == TWO_32 && Pow256(8) == TWO_64
  {
    assert Pow256(1) == 256;
    assert Pow256(3) == 256 * Pow256(2);
    assert Pow256(5) == 256 * Pow256(4);
    assert Pow256(6) == 256 * Pow256(5);
    assert Pow256(7) == 256 * Pow256(6);
  }

  function Zeros(n: nat): (z: seq<byte>)
    ensures |z| == n && forall i :: 0 <= i < n ==> z[i] == 0
  {
    seq(n, i => 0)
  }

  lemma {:induction false} SliceSlice(s: seq<byte>, lo: nat, hi: nat, from: nat, to: nat)
    requires lo <= hi <= |s| && from <= to <= hi - lo
    ensures s[lo..hi][from..to] == s[lo + from..lo + to]
  {
    var part := s[lo..hi];
    assert forall k :: from <= k < to ==> part[k] == s[lo + k];
    assert part[from..to] == s[lo + from..lo + to];
  }

  // ---- Little-endian numbers ----

  /** `to_le_bytes` of the low `n` bytes of `v`. */
  function LeBytes(v: nat, n: nat): (s: seq<byte>)
    ensures |s| == n
  {
    if n == 0 then [] else [v % 256] + LeBytes(v / 256, n - 1)
  }

  /** `from_le_bytes`. */
  function LeValue(s: seq<byte>): nat {
    if s == [] then 0 else s[0] + 256 * LeValue(s[1..])
  }

  lemma {:induction false} LeRoundTrip(v: nat, n: nat)
    requires v < Pow256(n)
    ensures LeValue(LeBytes(v, n)) == v
  {
    if n > 0 {
      LeRoundTrip(v / 256, n - 1);
      assert LeBytes(v, n)[1..] == LeBytes(v / 256, n - 1);
    }
  }

  lemma {:induction false} LeValueInjective(s: seq<byte>)
    ensures LeValue(s) < Pow256(|s|)
    ensures LeBytes(LeValue(s), |s|) == s
  {
    if s != [] {
      LeValueInjective(s[1..]);
      LowByte(s[0], LeValue(s[1..]));
      assert s == [s[0]] + s[1..];
    }
  }

  lemma {:induction false} LowByte(b: byte, rest: nat)
    ensures (b + 256 * rest) % 256 == b && (b + 256 * rest) / 256 == rest
  {
  }

  /** The little-endian number in `bytes[at..at + n]`. */
  function ReadLe(bytes: seq<byte>, at: nat, n: nat): (v: nat)
    requires at + n <= |bytes|
    ensures v < Pow256(n)
  {
    LeValueInjective(bytes[at..at + n]);
    LeValue(bytes[at..at + n])
  }

  lemma ReadLeAfterWrite(bytes: seq<byte>, at: nat, n: nat, v: nat)
    requires at + n <= |bytes| && v < Pow256(n)
    requires bytes[at..at + n] == LeBytes(v, n)
    ensures ReadLe(bytes, at, n) == v
  {
    LeRoundTrip(v, n);
  }

  // ---- Two's complement ----

  /** `value as i64` of a `u64`. */
  function ToSigned(v: u64): (r: i64)
    ensures (r - v) % TWO_64 == 0
  {
    if v < TWO_63 then v else v - TWO_64
  }

  /** The `i64` that wrapping arithmetic leaves of the integer `v`. */
  function WrapSigned(v: int): (r: i64)
    ensures (r - v) % TWO_64 == 0
  {
    ToSigned(v % TWO_64)
  }

  /** The value of a 32-bit field once the CPU has sign-extended it. */
  function SignExtend32(v: u32): (r: int)
    ensures -TWO_31 <= r < TWO_31 && (r - v) % TWO_32 == 0
  {
    if v < TWO_31 then v else v - TWO_32
  }

  // ---- Bitwise AND and alignment ----

  /** Bitwise `&` of two unsigned numbers. */
  function And(x: nat, y: nat): (r: nat)
    ensures r <= x
  {
    if x == 0 then 0 else (if x % 2 == 1 && y % 2 == 1 then 1 else 0) + 2 * And(x / 2, y / 2)
  }

  /** Whether bit `k` of `v` is set. */
  predicate Bit(v: nat, k: nat) {
    v / Pow2(k) % 2 == 1
  }

  ghost predicate IsPow2(a: nat) {
    exists k: nat :: a == Pow2(k)
  }

  lemma {:induction false} Pow2Monotone(j: nat, k: nat)
    requires j <= k
    ensures Pow2(j) <= Pow2(k)
  {
    if j < k {
      Pow2Monotone(j, k - 1);
    }
  }

  lemma Pow2_64()
    ensures Pow2(64) == TWO_64
  {
    assert Pow2(8) == 256;
    assert Pow2(16) == 0x1_0000 by { assert Pow2(12) == 4096; }
    assert Pow2(24) == 0x100_0000 by { assert Pow2(20) == 0x10_0000; }
    assert Pow2(32) == TWO_32 by { assert Pow2(28) == 0x1000_0000; }
    assert Pow2(40) == 0x100_0000_0000 by { assert Pow2(36) == 0x10_0000_0000; }
    assert Pow2(48) == 0x1_0000_0000_0000 by { assert Pow2(44) == 0x1000_0000_0000; }
    assert Pow2(56) == 0x100_0000_0000_0000 by { assert Pow2(52) == 0x10_0000_0000_0000; }
    assert Pow2(60) == 0x1000_0000_0000_0000;
  }

  /** A run of `w` ones keeps every bit of a number below `2^w`. */
  lemma {:induction false} AndAllOnes(x: nat, w: nat)
    requires x < Pow2(w)
    ensures And(x, Pow2(w) - 1) == x
  {
    if x > 0 {
      AndAllOnes(x / 2, w - 1);
      assert (Pow2(w) - 1) / 2 == Pow2(w - 1) - 1;
    }
  }

  lemma ModDouble(x: nat, m: nat)
    requires m > 0
    ensures x % (2 * m) == 2 * (x / 2 % m) + x % 2
  {
    var h := x / 2;
    var q, r := h / m, h % m;
    assert h == q * m + r;
    assert x == (2 * m) * q + (2 * r + x % 2) by {
      assert (2 * m) * q == 2 * (q * m);
    }
    ModUnique(x, 2 * m, q, 2 * r + x % 2);
  }

  lemma MulAtLeast(d: int, k: int)
    requires d > 0 && k >= 1
    ensures d * k >= d
  {
  }

  lemma MulStep(d: nat, i: nat, n: nat)
    requires i < n
    ensures d * i + d == d * (i + 1) <= d * n
  {
    var k := n - (i + 1);
    assert d * n == d * (i + 1) + d * k;
  }

  lemma ModUnique(x: int, d: int, q: int, r: int)
    requires d > 0 && x == d * q + r && 0 <= r < d
    ensures x % d == r && x / d == q
  {
    var q', r' := x / d, x % d;
    var k := q - q';
    assert d * k == r' - r by {
      assert x == d * q' + r';
      assert d * k == d * q - d * q';
    }
    if k >= 1 {
      MulAtLeast(d, k);
    } else if k <= -1 {
      MulAtLeast(d, -k);
    }
  }

  lemma {:induction false} AndEven(x: nat, half: nat)
    ensures And(x, 2 * half) == 2 * And(x / 2, half)
  {
  }

  /** Masking with the complement of `2^k - 1` clears the low `k` bits. */
  lemma {:induction false} AndClearsLowBits(x: nat, k: nat, w: nat)
    requires k <= w && x < Pow2(w)
    ensures Pow2(k) <= Pow2(w)
    ensures And(x, Pow2(w) - Pow2(k)) == x - x % Pow2(k)
  {
    Pow2Monotone(k, w);
    if k == 0 {
      AndAllOnes(x, w);
      assert x % 1 == 0;
    } else {
      var low, high := Pow2(k - 1), Pow2(w - 1);
      AndClearsLowBits(x / 2, k - 1, w - 1);
      AndEven(x, high - low);
      ClearDoubled(x, low);
      assert Pow2(w) - Pow2(k) == 2 * (high - low);
    }
  }

  lemma {:induction false} ClearDoubled(x: nat, m: nat)
    requires m > 0
    ensures 2 * (x / 2 - x / 2 % m) == x - x % (2 * m)
  {
    ModDouble(x, m);
  }
}
