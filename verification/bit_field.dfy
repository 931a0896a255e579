/** Generated bit-field accessors over a byte array. */
module BitFields {
  import opened Bytes

  // ------------------------------------------------------ single-bit masks

  function Pow2(n: nat): (p: nat)
    ensures p >= 1
  {
    if n == 0 then 1 else 2 * Pow2(n - 1)
  }

  /** The test `v & (1 << i) == 1 << i`. */
  predicate Bit(v: nat, i: nat) {
    if i == 0 then v % 2 == 1 else Bit(v / 2, i - 1)
  }

  /** `v | (1 << i)` when `b`, `v & !(1 << i)` otherwise. */
  function WithBit(v: nat, i: nat, b: bool): nat {
    if i == 0 then v - v % 2 + (if b then 1 else 0) else v % 2 + 2 * WithBit(v / 2, i - 1, b)
  }

  lemma {:induction false} BitOfWithBit(v: nat, i: nat, b: bool, j: nat)
    ensures Bit(WithBit(v, i, b), j) == if i == j then b else Bit(v, j)
  {
    var w := WithBit(v, i, b);
    if i == 0 {
      assert w / 2 == v / 2;
    } else {
      assert w / 2 == WithBit(v / 2, i - 1, b) && w % 2 == v % 2;
      if j > 0 {
        BitOfWithBit(v / 2, i - 1, b, j - 1);
      }
    }
  }

  lemma {:induction false} WithBitBound(v: nat, i: nat, b: bool, n: nat)
    requires v < Pow2(n) && i < n
    ensures WithBit(v, i, b) < Pow2(n)
  {
    var h := Pow2(n - 1);
    assert v / 2 < h;
    if i == 0 {
      assert v - v % 2 == 2 * (v / 2);
    } else {
      WithBitBound(v / 2, i - 1, b, n - 1);
    }
  }

  /** A number below `2^n` is its low `n` bits. */
  lemma {:induction false} BitsUnique(v: nat, w: nat, n: nat)
    requires v < Pow2(n) && w < Pow2(n)
    requires forall j | 0 <= j < n :: Bit(v, j) == Bit(w, j)
    ensures v == w
  {
    if n > 0 {
      assert Bit(v, 0) == Bit(w, 0);
      forall j | 0 <= j < n - 1 ensures Bit(v / 2, j) == Bit(w / 2, j) {
        assert Bit(v, j + 1) == Bit(w, j + 1);
      }
      BitsUnique(v / 2, w / 2, n - 1);
    }
  }

  lemma {:induction false} LowBits(v: nat, n: nat, j: nat)
    requires j < n
    ensures v % Pow2(n) < Pow2(n) && Bit(v % Pow2(n), j) == Bit(v, j)
  {
    HalfMod(v, n);
    if j > 0 {
      LowBits(v / 2, n - 1, j - 1);
    }
  }

  lemma HalfMod(v: nat, n: nat)
    requires n > 0
    ensures (v % Pow2(n)) % 2 == v % 2 && (v % Pow2(n)) / 2 == (v / 2) % Pow2(n - 1)
  {
    var h := Pow2(n - 1);
    var q, r := (v / 2) / h, (v / 2) % h;
    assert v == (2 * h) * q + (2 * r + v % 2);
    ModUnique(v, 2 * h, q, 2 * r + v % 2);
  }

  lemma ModUnique(v: int, m: int, q: int, r: int)
    requires v == m * q + r && 0 <= r < m
    ensures v % m == r
  {
    var p := v / m;
    assert v == m * p + v % m;
    assert m * (p - q) == r - v % m;
    assert p - q >= 1 ==> m * (p - q) >= m;
    assert p - q <= -1 ==> m * (p - q) <= 0 - m;
  }

  // ------------------------------------------------------------ the bytes as bits

  predicate BitAt(d: seq<byte>, i: nat)
    requires i < 8 * |d|
  {
    Bit(d[i / 8], i % 8)
  }

  function WithBitAt(d: seq<byte>, i: nat, b: bool): (r: seq<byte>)
    requires i < 8 * |d|
    ensures |r| == |d|
    ensures forall j | 0 <= j < 8 * |d| :: BitAt(r, j) == if j == i then b else BitAt(d, j)
  {
    ByteRange(d[i / 8], i % 8, b);
    var r: seq<byte> := d[i / 8 := WithBit(d[i / 8], i % 8, b)];
    assert forall j | 0 <= j < 8 * |d| :: BitAt(r, j) == if j == i then b else BitAt(d, j) by {
      forall j | 0 <= j < 8 * |d| ensures BitAt(r, j) == if j == i then b else BitAt(d, j) {
        BitOfWithBit(d[i / 8], i % 8, b, j % 8);
      }
    }
    r
  }

  lemma ByteRange(v: byte, i: nat, b: bool)
    requires i < 8
    ensures WithBit(v, i, b) < 256
  {
    assert Pow2(8) == 256;
    WithBitBound(v, i, b, 8);
  }

  /** The number held in `width` bits from `offset`, least significant bit first. */
  function Number(d: seq<byte>, offset: nat, width: nat): (n: nat)
    requires offset + width <= 8 * |d|
    ensures n < Pow2(width)
    decreases width
  {
    if width == 0 then 0
    else (if BitAt(d, offset) then 1 else 0) + 2 * Number(d, offset + 1, width - 1)
  }

  lemma {:induction false} NumberBits(d: seq<byte>, offset: nat, width: nat, j: nat)
    requires offset + width <= 8 * |d| && j < width
    ensures Bit(Number(d, offset, width), j) == BitAt(d, offset + j)
    decreases width
  {
    if j > 0 {
      NumberBits(d, offset + 1, width - 1, j - 1);
    }
  }

  /** Equal bits hold equal numbers, wherever they are kept. */
  lemma NumberUnique(d: seq<byte>, offset: nat, width: nat, n: nat)
    requires offset + width <= 8 * |d| && n < Pow2(width)
    requires forall j | 0 <= j < width :: BitAt(d, offset + j) == Bit(n, j)
    ensures Number(d, offset, width) == n
  {
    forall j | 0 <= j < width ensures Bit(Number(d, offset, width), j) == Bit(n, j) {
      NumberBits(d, offset, width, j);
      assert BitAt(d, offset + j) == Bit(n, j);
    }
    BitsUnique(Number(d, offset, width), n, width);
  }

  /** One more bit on top. */
  lemma NumberExtend(d: seq<byte>, offset: nat, width: nat)
    requires offset + width < 8 * |d|
    ensures Number(d, offset, width + 1) ==
      if BitAt(d, offset + width) then WithBit(Number(d, offset, width), width, true) else Number(d, offset, width)
  {
    var n := Number(d, offset, width);
    var r := if BitAt(d, offset + width) then WithBit(n, width, true) else n;
    WithBitBound(n, width, true, width + 1);
    forall j | 0 <= j < width + 1 ensures BitAt(d, offset + j) == Bit(r, j) {
      BitOfWithBit(n, width, true, j);
      if j < width { NumberBits(d, offset, width, j); } else { HighBit(n, width); }
    }
    NumberUnique(d, offset, width + 1, r);
  }

  lemma {:induction false} HighBit(v: nat, n: nat)
    requires v < Pow2(n)
    ensures !Bit(v, n)
  {
    if n > 0 { HighBit(v / 2, n - 1); }
  }

  lemma BitInByte(d: seq<byte>, k: nat, j: nat)
    requires k < |d| && j < 8
    ensures BitAt(d, 8 * k + j) == Bit(d[k], j)
  {
    assert (8 * k + j) / 8 == k && (8 * k + j) % 8 == j;
  }

  lemma Pow2Of(width: nat)
    requires width == 8
    ensures Pow2(width) == 256
  {
    assert Pow2(8) == 256;
  }

  /** A byte is the number its eight bits hold. */
  lemma ByteNumber(d: seq<byte>, k: nat, width: nat)
    requires k < |d| && width == 8
    ensures Number(d, width * k, width) == d[k]
  {
    Pow2Of(width);
    var n := d[k];
    forall j | 0 <= j < width ensures BitAt(d, width * k + j) == Bit(n, j) { BitInByte(d, k, j); }
    NumberUnique(d, width * k, width, n);
  }

  /** `r` is `d` with `width` bits of `val` stored at `offset` and nothing else changed. */
  ghost predicate Stored(d: seq<byte>, r: seq<byte>, offset: nat, width: nat, val: nat) {
    && |r| == |d| && offset + width <= 8 * |d|
    && forall i | 0 <= i < 8 * |d| ::
      BitAt(r, i) == if offset <= i < offset + width then Bit(val, i - offset) else BitAt(d, i)
  }

  lemma StoredNumber(d: seq<byte>, r: seq<byte>, offset: nat, width: nat, val: nat)
    requires Stored(d, r, offset, width, val)
    ensures Number(r, offset, width) == val % Pow2(width)
  {
    var n := val % Pow2(width);
    forall j | 0 <= j < width ensures BitAt(r, offset + j) == Bit(n, j) {
      LowBits(val, width, j);
    }
    assert 0 <= n < Pow2(width);
    NumberUnique(r, offset, width, n);
  }

  lemma StoredElsewhere(d: seq<byte>, r: seq<byte>, offset: nat, width: nat, val: nat, o: nat, w: nat)
    requires Stored(d, r, offset, width, val) && o + w <= 8 * |d|
    requires o + w <= offset || offset + width <= o
    ensures Number(r, o, w) == Number(d, o, w)
  {
    forall j | 0 <= j < w ensures BitAt(r, o + j) == Bit(Number(d, o, w), j) {
      NumberBits(d, o, w, j);
    }
    NumberUnique(r, o, w, Number(d, o, w));
  }

  // ------------------------------------------------------------- structs of fields

  function Total(widths: seq<nat>): nat {
    if widths == [] then 0 else widths[0] + Total(widths[1..])
  }

  /** The widths of the fields before the `k`-th, summed. */
  function Offset(widths: seq<nat>, k: nat): nat
    requires k <= |widths|
  {
    if k == 0 then 0 else Offset(widths, k - 1) + widths[k - 1]
  }

  lemma {:induction false} OffsetOrder(widths: seq<nat>, k: nat, m: nat)
    requires k < m <= |widths|
    ensures Offset(widths, k) + widths[k] <= Offset(widths, m)
  {
    if k + 1 < m { OffsetOrder(widths, k, m - 1); }
  }

  lemma {:induction false} OffsetTotal(widths: seq<nat>, k: nat)
    requires k <= |widths|
    ensures Offset(widths, k) + Total(widths[k..]) == Total(widths)
  {
    if k > 0 {
      assert widths[k - 1..][1..] == widths[k..];
      OffsetTotal(widths, k - 1);
    }
  }

  /** Field widths the generator accepts: at most 64 bits each, whole bytes together. */
  predicate Layout(widths: seq<nat>, bytes: nat) {
    (forall w | w in widths :: w <= 64) && Total(widths) == 8 * bytes
  }

  lemma InRange(widths: seq<nat>, bytes: nat, k: nat)
    requires Layout(widths, bytes) && k < |widths|
    ensures widths[k] <= 64 && Offset(widths, k) + widths[k] <= 8 * bytes
  {
    OffsetTotal(widths, k + 1);
    assert widths[k] in widths;
  }

  /** The struct as the record of its field values. */
  ghost function Record(widths: seq<nat>, d: seq<byte>): (r: seq<nat>)
    requires Layout(widths, |d|)
    ensures |r| == |widths|
  {
    seq(|widths|, (k: nat) requires k < |widths| =>
      InRange(widths, |d|, k); Number(d, Offset(widths, k), widths[k]))
  }

  /** Storing a field is a record update: its value is cut to the width, every other field keeps its own. */
  lemma StoreIsRecordUpdate(widths: seq<nat>, d: seq<byte>, r: seq<byte>, k: nat, val: nat)
    requires Layout(widths, |d|) && k < |widths|
    requires Stored(d, r, Offset(widths, k), widths[k], val)
    ensures Record(widths, r) == Record(widths, d)[k := val % Pow2(widths[k])]
  {
    forall m | 0 <= m < |widths|
      ensures Record(widths, r)[m] == if m == k then val % Pow2(widths[k]) else Record(widths, d)[m]
    {
      InRange(widths, |d|, m);
      if m == k {
        StoredNumber(d, r, Offset(widths, k), widths[k], val);
      } else {
        if m < k { OffsetOrder(widths, m, k); } else { OffsetOrder(widths, k, m); }
        StoredElsewhere(d, r, Offset(widths, k), widths[k], val, Offset(widths, m), widths[m]);
      }
    }
  }

  /** Some field covers each bit. */
  lemma {:induction false} Covered(widths: seq<nat>, n: nat, i: nat) returns (k: nat)
    requires n <= |widths| && i < Offset(widths, n)
    ensures k < n && Offset(widths, k) <= i < Offset(widths, k) + widths[k]
  {
    if i < Offset(widths, n - 1) {
      k := Covered(widths, n - 1, i);
    } else {
      k := n - 1;
    }
  }

  /** The fields leave no bit over: equal records are equal bytes. */
  lemma RecordDetermines(widths: seq<nat>, d: seq<byte>, e: seq<byte>)
    requires Layout(widths, |d|) && |e| == |d| && Record(widths, d) == Record(widths, e)
    ensures d == e
  {
    assert widths[|widths|..] == [];
    OffsetTotal(widths, |widths|);
    forall i | 0 <= i < 8 * |d| ensures BitAt(d, i) == BitAt(e, i) {
      var k := Covered(widths, |widths|, i);
      InRange(widths, |d|, k);
      var o := Offset(widths, k);
      assert Record(widths, d)[k] == Record(widths, e)[k];
      NumberBits(d, o, widths[k], i - o);
      NumberBits(e, o, widths[k], i - o);
    }
    forall b | 0 <= b < |d| ensures d[b] == e[b] {
      forall j | 0 <= j < 8 ensures Bit(d[b], j) == Bit(e[b], j) {
        assert BitAt(d, 8 * b + j) == BitAt(e, 8 * b + j);
      }
      assert Pow2(8) == 256;
      BitsUnique(d[b], e[b], 8);
    }
  }

  // ------------------------------------------------------------- the generated code

  class BitStruct {
    const widths: seq<nat>
    const data: array<byte>

    ghost predicate Valid()
      reads this
    {
      Layout(widths, data.Length)
    }

    constructor (widths: seq<nat>)
      requires Layout(widths, Total(widths) / 8)
      ensures this.widths == widths && fresh(data) && Valid()
      ensures forall i | 0 <= i < data.Length :: data[i] == 0
    {
      this.widths := widths;
      data := new byte[Total(widths) / 8](_ => 0);
    }

    method GetBit(offset: nat) returns (b: bool)
      requires offset < 8 * data.Length
      ensures b == BitAt(data[..], offset)
    {
      b := Bit(data[offset / 8], offset % 8);
    }

    method SetBit(offset: nat, val: bool)
      requires offset < 8 * data.Length
      modifies data
      ensures data[..] == WithBitAt(old(data[..]), offset, val)
    {
      ByteRange(data[offset / 8], offset % 8, val);
      data[offset / 8] := WithBit(data[offset / 8], offset % 8, val);
    }

    method Get(offset: nat, width: nat) returns (val: nat)
      requires width <= 64 && offset + width <= 8 * data.Length
      ensures val == Number(data[..], offset, width)
    {
      val := 0;
      var i := 0;
      while i < width
        invariant 0 <= i <= width
        invariant val == Number(data[..], offset, i)
      {
        var b := GetBit(i + offset);
        NumberExtend(data[..], offset, i);
        if b { val := WithBit(val, i, true); }
        i := i + 1;
      }
    }

    method Set(offset: nat, width: nat, val: u64)
      requires width <= 64 && offset + width <= 8 * data.Length
      modifies data
      ensures Stored(old(data[..]), data[..], offset, width, val)
    {
      ghost var was := data[..];
      var i := 0;
      while i < width
        invariant 0 <= i <= width && |data[..]| == |was|
        invariant Stored(was, data[..], offset, i, val)
      {
        SetBit(i + offset, Bit(val, i));
        i := i + 1;
      }
    }

    method GetField(k: nat) returns (val: nat)
      requires Valid() && k < |widths|
      ensures val == Record(widths, data[..])[k]
    {
      InRange(widths, data.Length, k);
      val := Get(Offset(widths, k), widths[k]);
    }

    method SetField(k: nat, val: u64)
      requires Valid() && k < |widths|
      modifies data
      ensures Record(widths, data[..]) == old(Record(widths, data[..]))[k := val % Pow2(widths[k])]
    {
      InRange(widths, data.Length, k);
      Set(Offset(widths, k), widths[k], val);
      StoreIsRecordUpdate(widths, old(data[..]), data[..], k, val);
    }
  }
}
