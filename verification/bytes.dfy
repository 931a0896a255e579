/** Fixed-width unsigned integers, byte sequences and little-endian numbers. */
module Bytes {
  type byte = x: int | 0 <= x < 0x100
  type u8 = byte
  type u16 = x: int | 0 <= x < 0x1_0000
  type u32 = x: int | 0 <= x < 0x1_0000_0000
  type u64 = x: int | 0 <= x < 0x1_0000_0000_0000_0000

  datatype Option<+T> = None | Some(value: T)

  function Min(a: int, b: int): int {
    if a <= b then a else b
  }

  lemma Assoc<T>(a: seq<T>, b: seq<T>, c: seq<T>)
    ensures (a + b) + c == a + (b + c)
  {
  }

  /** The first `n` bytes of `b`, or all of them when there are fewer. */
  function Take(b: seq<byte>, n: nat): seq<byte> {
    b[..Min(n, |b|)]
  }

  /** What `Take` leaves. */
  function Beyond(b: seq<byte>, n: nat): seq<byte> {
    b[Min(n, |b|)..]
  }

  function Pow256(k: nat): (p: nat)
    ensures p >= 1
  {
    if k == 0 then 1 else 256 * Pow256(k - 1)
  }

  lemma Pow256Values()
    ensures Pow256(1) == 0x100
    ensures Pow256(2) == 0x1_0000
    ensures Pow256(4) == 0x1_0000_0000
    ensures Pow256(8) == 0x1_0000_0000_0000_0000
  {
  }

  /** The `k` low-order bytes of `n`, least significant first. */
  function ToLe(n: nat, k: nat): (b: seq<byte>)
    ensures |b| == k
  {
    if k == 0 then [] else [n % 256] + ToLe(n / 256, k - 1)
  }

  function FromLe(b: seq<byte>): (n: nat)
    ensures n < Pow256(|b|)
  {
    if b == [] then 0 else b[0] + 256 * FromLe(b[1..])
  }

  lemma {:induction false} LeRoundTrip(n: nat, k: nat)
    requires n < Pow256(k)
    ensures FromLe(ToLe(n, k)) == n
  {
    if k > 0 {
      LeRoundTrip(n / 256, k - 1);
      assert ToLe(n, k)[1..] == ToLe(n / 256, k - 1);
    }
  }

  lemma {:induction false} LeInverse(b: seq<byte>)
    ensures ToLe(FromLe(b), |b|) == b
  {
    if b != [] {
      LeInverse(b[1..]);
      var n := FromLe(b);
      assert n % 256 == b[0] && n / 256 == FromLe(b[1..]);
      assert b == [b[0]] + b[1..];
    }
  }

  /** Byte `i` is the `i`th digit of the number to base 256, the least significant being the first. */
  lemma {:induction false} LeByte(n: nat, k: nat, i: nat)
    requires i < k
    ensures ToLe(n, k)[i] == n / Pow256(i) % 256
  {
    if i > 0 {
      LeByte(n / 256, k - 1, i - 1);
      DivTwice(n, Pow256(i - 1));
    }
  }

  lemma DivTwice(n: nat, m: nat)
    requires m > 0
    ensures n / 256 / m == n / (256 * m)
  {
    var q := n / 256 / m;
    var r, t := n % 256, n / 256 % m;
    assert n == 256 * m * q + (256 * t + r);
    assert 0 <= 256 * t + r < 256 * m;
    QuotientUnique(n, 256 * m, q, 256 * t + r);
  }

  lemma QuotientUnique(n: nat, m: nat, q: int, r: int)
    requires m > 0 && n == m * q + r && 0 <= r < m
    ensures n / m == q
  {
    var p := n / m;
    assert n == m * p + n % m;
    assert m * (p - q) == r - n % m;
    assert p - q >= 1 ==> m * (p - q) >= m;
    assert p - q <= -1 ==> m * (p - q) <= 0 - m;
  }
}
