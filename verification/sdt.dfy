/** The self-checksumming ACPI system description table. */
module Sdt {
  import opened Bytes

  const HEADER_LEN := 36
  const LENGTH_OFFSET := 4
  const CHECKSUM_OFFSET := 9
  const USIZE_LIMIT := 0x1_0000_0000_0000_0000

  // ------------------------------------------------------------ table contents

  function Sum(d: seq<byte>): nat {
    if d == [] then 0 else d[0] + Sum(d[1..])
  }

  /** The 8-bit accumulator of the source, which wraps at every step. */
  function WrappingFold(d: seq<byte>, acc: byte): byte {
    if d == [] then acc else WrappingFold(d[1..], (acc + d[0]) % 256)
  }

  function GenerateChecksum(d: seq<byte>): byte {
    (255 - WrappingFold(d, 0) + 1) % 256
  }

  function Checksummed(d: seq<byte>): seq<byte>
    requires |d| > CHECKSUM_OFFSET
  {
    d[CHECKSUM_OFFSET := GenerateChecksum(d[CHECKSUM_OFFSET := 0])]
  }

  function Overwrite(d: seq<byte>, offset: nat, value: seq<byte>): (r: seq<byte>)
    requires offset + |value| <= |d|
    ensures |r| == |d| && r[offset..offset + |value|] == value
    ensures forall i | 0 <= i < |d| && !(offset <= i < offset + |value|) :: r[i] == d[i]
  {
    d[..offset] + value + d[offset + |value|..]
  }

  /** A value that does not lie wholly inside the table reads as zero. */
  function Read(d: seq<byte>, offset: nat, size: nat): (v: seq<byte>)
    ensures |v| == size
  {
    if offset + size <= |d| then d[offset..offset + size] else seq(size, _ => 0)
  }

  function LengthField(d: seq<byte>): nat {
    FromLe(Read(d, LENGTH_OFFSET, 4))
  }

  // --------------------------------------------------------------- operations

  datatype Op = Append(value: seq<byte>) | Write(offset: nat, value: seq<byte>) {
    /** The bytes of the table, the checksum aside, that the operation may set. */
    predicate Touches(i: nat) {
      match this
      case Append(_) => LENGTH_OFFSET <= i < LENGTH_OFFSET + 4
      case Write(o, v) => o <= i < o + |v|
    }
  }

  function Step(d: seq<byte>, op: Op): (r: seq<byte>)
    requires |d| > CHECKSUM_OFFSET
    ensures |r| == |d| + (if op.Append? then |op.value| else 0)
  {
    match op
    case Append(v) =>
      Checksummed(Overwrite(d + v, LENGTH_OFFSET, ToLe(|d + v| % 0x1_0000_0000, 4)))
    case Write(o, v) =>
      if o + |v| > |d| then d else Checksummed(Overwrite(d, o, v))
  }

  function Run(d: seq<byte>, ops: seq<Op>): (r: seq<byte>)
    requires |d| > CHECKSUM_OFFSET
    ensures |r| >= |d|
    decreases |ops|
  {
    if ops == [] then d else Run(Step(d, ops[0]), ops[1..])
  }

  /** Every byte counts: the table sums to zero. */
  predicate Balanced(d: seq<byte>) {
    Sum(d) % 256 == 0
  }

  // ----------------------------------------------------------- the checksum

  lemma ModAdd(x: nat, y: nat)
    ensures (x % 256 + y) % 256 == (x + y) % 256
  {
  }

  lemma {:induction false} FoldIsSum(d: seq<byte>, acc: byte)
    ensures WrappingFold(d, acc) == (acc + Sum(d)) % 256
  {
    if d != [] {
      FoldIsSum(d[1..], (acc + d[0]) % 256);
      ModAdd(acc + d[0], Sum(d[1..]));
    }
  }

  lemma {:induction false} SumUpdate(d: seq<byte>, i: nat, b: byte)
    requires i < |d|
    ensures Sum(d[i := b]) == Sum(d) - d[i] + b
  {
    var e := d[i := b];
    if i == 0 {
      assert e[1..] == d[1..];
    } else {
      assert e[1..] == d[1..][i - 1 := b];
      SumUpdate(d[1..], i - 1, b);
    }
  }

  lemma Complement(n: nat, b: byte)
    ensures (n + b) % 256 == 0 <==> b == (255 - n % 256 + 1) % 256
  {
  }

  /** Of all bytes at the checksum position, exactly the one stored balances the table. */
  lemma ChecksumUnique(d: seq<byte>, b: byte)
    requires |d| > CHECKSUM_OFFSET
    ensures Balanced(d[CHECKSUM_OFFSET := b]) <==> b == Checksummed(d)[CHECKSUM_OFFSET]
  {
    var z := d[CHECKSUM_OFFSET := 0];
    FoldIsSum(z, 0);
    SumUpdate(z, CHECKSUM_OFFSET, b);
    Complement(Sum(z), b);
    assert z[CHECKSUM_OFFSET := b] == d[CHECKSUM_OFFSET := b];
  }

  lemma ChecksumBalances(d: seq<byte>)
    requires |d| > CHECKSUM_OFFSET
    ensures Balanced(Checksummed(d))
  {
    ChecksumUnique(d, Checksummed(d)[CHECKSUM_OFFSET]);
  }

  // ----------------------------------------------------------- whole runs

  /** Every sequence of appends and writes keeps the table balanced. */
  lemma {:induction false} RunBalanced(d: seq<byte>, ops: seq<Op>)
    requires |d| > CHECKSUM_OFFSET && Balanced(d)
    ensures Balanced(Run(d, ops))
    decreases |ops|
  {
    if ops != [] {
      match ops[0] {
        case Append(v) => ChecksumBalances(Overwrite(d + v, LENGTH_OFFSET, ToLe(|d + v| % 0x1_0000_0000, 4)));
        case Write(o, v) => if o + |v| <= |d| { ChecksumBalances(Overwrite(d, o, v)); }
      }
      RunBalanced(Step(d, ops[0]), ops[1..]);
    }
  }

  /** One operation leaves alone every byte it does not touch, the checksum aside. */
  lemma StepFrame(d: seq<byte>, op: Op, i: nat)
    requires |d| > CHECKSUM_OFFSET && i < |d| && i != CHECKSUM_OFFSET && !op.Touches(i)
    ensures Step(d, op)[i] == d[i]
  {
  }

  lemma {:induction false} RunFrame(d: seq<byte>, ops: seq<Op>, i: nat)
    requires |d| > CHECKSUM_OFFSET && i < |d| && i != CHECKSUM_OFFSET
    requires forall op | op in ops :: !op.Touches(i)
    ensures Run(d, ops)[i] == d[i]
    decreases |ops|
  {
    if ops != [] {
      StepFrame(d, ops[0], i);
      RunFrame(Step(d, ops[0]), ops[1..], i);
    }
  }

  /** A value is read back as last written, unless it covers the checksum byte. */
  lemma LastWriteWins(d: seq<byte>, offset: nat, value: seq<byte>, ops: seq<Op>)
    requires |d| > CHECKSUM_OFFSET && offset + |value| <= |d|
    requires !(offset <= CHECKSUM_OFFSET < offset + |value|)
    requires forall op, i | op in ops && offset <= i < offset + |value| :: !op.Touches(i)
    ensures Read(Run(Step(d, Write(offset, value)), ops), offset, |value|) == value
  {
    var e := Step(d, Write(offset, value));
    var r := Run(e, ops);
    forall i | offset <= i < offset + |value| ensures r[i] == value[i - offset] {
      RunFrame(e, ops, i);
      assert Overwrite(d, offset, value)[offset..offset + |value|][i - offset] == value[i - offset];
    }
  }

  /** A value over the checksum byte is read back exactly when it happens to balance the table. */
  lemma WriteOverChecksum(d: seq<byte>, offset: nat, value: seq<byte>)
    requires |d| > CHECKSUM_OFFSET && offset + |value| <= |d|
    requires offset <= CHECKSUM_OFFSET < offset + |value|
    ensures Read(Step(d, Write(offset, value)), offset, |value|) == value <==> Balanced(Overwrite(d, offset, value))
  {
    var e := Overwrite(d, offset, value);
    var b := e[CHECKSUM_OFFSET];
    assert b == value[CHECKSUM_OFFSET - offset] by {
      assert e[offset..offset + |value|][CHECKSUM_OFFSET - offset] == value[CHECKSUM_OFFSET - offset];
    }
    assert e[CHECKSUM_OFFSET := b] == e;
    ChecksumUnique(e, b);
    var got := Read(Checksummed(e), offset, |value|);
    assert got[CHECKSUM_OFFSET - offset] == Checksummed(e)[CHECKSUM_OFFSET];
    if Balanced(e) { assert Checksummed(e) == e; }
  }

  // -------------------------------------------------------- the length field

  predicate LengthRight(d: seq<byte>) {
    LengthField(d) == |d| % 0x1_0000_0000
  }

  lemma Le4(n: u32)
    ensures FromLe(ToLe(n, 4)) == n
  {
    Pow256Values();
    LeRoundTrip(n, 4);
  }

  /** An append leaves the length field right, whatever was there before. */
  lemma AppendSetsLength(d: seq<byte>, value: seq<byte>)
    requires |d| > CHECKSUM_OFFSET
    ensures LengthRight(Step(d, Append(value)))
  {
    var n := |d + value| % 0x1_0000_0000;
    var e := Overwrite(d + value, LENGTH_OFFSET, ToLe(n, 4));
    assert Read(Checksummed(e), LENGTH_OFFSET, 4) == Read(e, LENGTH_OFFSET, 4) == ToLe(n, 4);
    Le4(n);
  }

  /** Nothing has written over the length field since the last append. */
  predicate LengthUntouched(ops: seq<Op>) {
    ops == [] ||
    (LengthUntouched(ops[1..]) && (ops[0].Write? ==> HasAppend(ops[1..]) || forall i | 4 <= i < 8 :: !ops[0].Touches(i)))
  }

  predicate HasAppend(ops: seq<Op>) {
    ops != [] && (ops[0].Append? || HasAppend(ops[1..]))
  }

  /** Through every run the length field tracks the table, if callers keep off it. */
  lemma {:induction false} RunLength(d: seq<byte>, ops: seq<Op>)
    requires |d| > CHECKSUM_OFFSET && LengthUntouched(ops)
    requires LengthRight(d) || HasAppend(ops)
    ensures LengthRight(Run(d, ops))
    decreases |ops|
  {
    if ops != [] {
      var e := Step(d, ops[0]);
      if ops[0].Append? {
        AppendSetsLength(d, ops[0].value);
      } else if HasAppend(ops[1..]) {
      } else {
        forall i | 4 <= i < 8 ensures e[i] == d[i] { StepFrame(d, ops[0], i); }
        assert Read(e, LENGTH_OFFSET, 4) == Read(d, LENGTH_OFFSET, 4);
      }
      RunLength(e, ops[1..]);
    }
  }

  // ----------------------------------------------------------- a new table

  datatype Header = Header(signature: seq<byte>, revision: byte, oemId: seq<byte>, oemTable: seq<byte>, oemRevision: u32) {
    predicate Valid() {
      |signature| == 4 && |oemId| == 6 && |oemTable| == 8
    }
  }

  const CROS: seq<byte> := [0x43, 0x52, 0x4f, 0x53]

  function HeaderBytes(h: Header, length: u32): (d: seq<byte>)
    requires h.Valid()
    ensures |d| == HEADER_LEN
  {
    h.signature + ToLe(if length < HEADER_LEN then HEADER_LEN else length, 4) + [h.revision, 0] + h.oemId + h.oemTable
    + ToLe(h.oemRevision, 4) + CROS + ToLe(0, 4)
  }

  /** `Vec::resize` with zero. */
  function Resize(d: seq<byte>, n: nat): (r: seq<byte>)
    ensures |r| == n
  {
    if n <= |d| then d[..n] else d + seq(n - |d|, _ => 0)
  }

  function NewTable(h: Header, length: u32): seq<byte>
    requires h.Valid() && length > CHECKSUM_OFFSET
  {
    Checksummed(Resize(HeaderBytes(h, length), length))
  }

  lemma HeaderLayout(h: Header, length: u32)
    requires h.Valid()
    ensures HeaderBytes(h, length)[..4] == h.signature
    ensures HeaderBytes(h, length)[4..8] == ToLe(if length < HEADER_LEN then HEADER_LEN else length, 4)
    ensures HeaderBytes(h, length)[8] == h.revision
    ensures HeaderBytes(h, length)[10..16] == h.oemId
    ensures HeaderBytes(h, length)[16..24] == h.oemTable
    ensures HeaderBytes(h, length)[24..28] == ToLe(h.oemRevision, 4)
    ensures HeaderBytes(h, length)[28..] == CROS + ToLe(0, 4)
  {
  }

  lemma HeaderKept(h: Header, length: u32)
    requires h.Valid() && length > CHECKSUM_OFFSET
    ensures NewTable(h, length)[..4] == HeaderBytes(h, length)[..4]
    ensures Read(NewTable(h, length), LENGTH_OFFSET, 4) == HeaderBytes(h, length)[4..8]
  {
    var d, all := NewTable(h, length), HeaderBytes(h, length);
    assert forall i | 0 <= i < 8 :: d[i] == all[i];
    assert d[..4] == all[..4] && d[4..8] == all[4..8];
  }

  /** A new table is balanced, and its length field is right exactly from 36 bytes on. */
  lemma NewTableStarts(h: Header, length: u32)
    requires h.Valid() && length > CHECKSUM_OFFSET
    ensures Balanced(NewTable(h, length)) && |NewTable(h, length)| == length
    ensures LengthRight(NewTable(h, length)) <==> length >= HEADER_LEN
    ensures NewTable(h, length)[..4] == h.signature
  {
    var n := if length < HEADER_LEN then HEADER_LEN else length;
    var all := HeaderBytes(h, length);
    ChecksumBalances(Resize(all, length));
    HeaderLayout(h, length);
    HeaderKept(h, length);
    Le4(n);
  }

  /** From 36 bytes on, the header is laid out as section 5.2.6 of the ACPI Specification has it, and zeros follow. */
  lemma NewTableLayout(h: Header, length: u32)
    requires h.Valid() && length >= HEADER_LEN
    ensures NewTable(h, length)[..9] == h.signature + ToLe(length, 4) + [h.revision]
    ensures NewTable(h, length)[10..24] == h.oemId + h.oemTable
    ensures NewTable(h, length)[24..36] == ToLe(h.oemRevision, 4) + CROS + [0, 0, 0, 0]
    ensures forall i | 36 <= i < length :: NewTable(h, length)[i] == 0
  {
    var d, all := NewTable(h, length), HeaderBytes(h, length);
    assert d[..9] == all[..9] && d[10..24] == all[10..24] && d[24..36] == all[24..];
    HeaderLayout(h, length);
    HeaderSlices(all);
    FourZeros();
    Assoc(ToLe(h.oemRevision, 4), CROS, ToLe(0, 4));
  }

  lemma HeaderSlices(all: seq<byte>)
    requires |all| == HEADER_LEN
    ensures all[..9] == all[..4] + all[4..8] + [all[8]] && all[10..24] == all[10..16] + all[16..24]
    ensures all[24..] == all[24..28] + all[28..]
  {
  }

  lemma FourZeros()
    ensures ToLe(0, 4) == [0, 0, 0, 0]
  {
  }

  /** From a new table of at least 36 bytes, every run keeps both header promises. */
  lemma TableInvariant(h: Header, length: u32, ops: seq<Op>)
    requires h.Valid() && length >= HEADER_LEN
    ensures Balanced(Run(NewTable(h, length), ops))
    ensures LengthUntouched(ops) ==> LengthRight(Run(NewTable(h, length), ops))
  {
    NewTableStarts(h, length);
    RunBalanced(NewTable(h, length), ops);
    if LengthUntouched(ops) { RunLength(NewTable(h, length), ops); }
  }

  /** A checksum of zero over the whole table says that it is balanced. */
  lemma ChecksumZero(d: seq<byte>)
    ensures GenerateChecksum(d) == 0 <==> Balanced(d)
  {
    FoldIsSum(d, 0);
    Complement(Sum(d), 0);
  }

  /** What any run makes of a new table can be saved and loaded again. */
  lemma SavedLoads(h: Header, length: u32, ops: seq<Op>)
    requires h.Valid() && length > CHECKSUM_OFFSET
    ensures GenerateChecksum(Run(NewTable(h, length), ops)) == 0
  {
    NewTableStarts(h, length);
    RunBalanced(NewTable(h, length), ops);
    ChecksumZero(Run(NewTable(h, length), ops));
  }

  // ------------------------------------------------------------ the class

  /** `generate_checksum`'s fold as a loop. */
  method Checksum(d: seq<byte>) returns (c: byte)
    ensures c == GenerateChecksum(d)
  {
    var acc: byte := 0;
    var i := 0;
    while i < |d|
      invariant 0 <= i <= |d|
      invariant WrappingFold(d[i..], acc) == WrappingFold(d, 0)
    {
      assert d[i..][1..] == d[i + 1..];
      acc := (acc + d[i]) % 256;
      i := i + 1;
    }
    c := (255 - acc + 1) % 256;
  }

  class Table {
    var data: seq<byte>

    ghost predicate Valid()
      reads this
    {
      |data| > CHECKSUM_OFFSET && Balanced(data)
    }

    /** Shorter lengths stop at the checksum write, which is then out of range. */
    constructor (h: Header, length: u32)
      requires h.Valid() && length > CHECKSUM_OFFSET
      ensures Valid() && data == NewTable(h, length)
    {
      var len := if length < HEADER_LEN then HEADER_LEN else length;
      var d := h.signature;
      d := d + ToLe(len, 4);
      d := d + [h.revision, 0];
      d := d + h.oemId;
      d := d + h.oemTable;
      d := d + ToLe(h.oemRevision, 4);
      d := d + CROS;
      d := d + ToLe(0, 4);
      data := Resize(d, length);
      new;
      UpdateChecksum();
      NewTableStarts(h, length);
    }

    constructor Of(contents: seq<byte>)
      ensures data == contents
    {
      data := contents;
    }

    method UpdateChecksum()
      requires |data| > CHECKSUM_OFFSET
      modifies this
      ensures data == Checksummed(old(data)) && Valid()
    {
      ChecksumBalances(data);
      data := data[CHECKSUM_OFFSET := 0];
      var c := Checksum(data);
      data := data[CHECKSUM_OFFSET := c];
      assert data == Checksummed(old(data));
    }

    method Append(value: seq<byte>)
      requires Valid()
      modifies this
      ensures Valid() && data == Step(old(data), Op.Append(value))
    {
      data := data + value;
      WriteAt(LENGTH_OFFSET, ToLe(|data| % 0x1_0000_0000, 4));
    }

    method WriteAt(offset: nat, value: seq<byte>)
      requires |data| > CHECKSUM_OFFSET
      requires offset + |value| < USIZE_LIMIT
      modifies this
      ensures data == Step(old(data), Op.Write(offset, value))
      ensures old(Valid()) || offset + |value| <= |data| ==> Valid()
    {
      if offset + |value| > |data| { return; }
      data := Overwrite(data, offset, value);
      UpdateChecksum();
    }

    method ReadAt(offset: nat, size: nat) returns (v: seq<byte>)
      requires offset + size < USIZE_LIMIT
      ensures v == Read(data, offset, size)
    {
      if offset + size <= |data| {
        v := data[offset..offset + size];
      } else {
        v := seq(size, _ => 0);
      }
    }
  }

  /** `from_file`, given what the file holds: exactly the balanced tables are accepted, however short. */
  method FromFile(contents: seq<byte>) returns (r: Option<Table>)
    ensures r.Some? <==> Balanced(contents)
    ensures r.Some? ==> fresh(r.value) && r.value.data == contents
    ensures r.Some? && |contents| > CHECKSUM_OFFSET ==> r.value.Valid()
  {
    var checksum := Checksum(contents);
    ChecksumZero(contents);
    if checksum != 0 { return None; }
    var t := new Table.Of(contents);
    r := Some(t);
  }
}
