/**
 * ACPI machine language (sections 20.2.2 to 20.2.5 of the ACPI Specification 6.4): the byte
 * emitter of the table generator. Terms with a fixed number of operands are described by a
 * table from opcode to operand kinds, in the order in which the operands are emitted.
 */
module Aml {
  import opened Bytes

  const NAMEOP := 0x08
  const BYTEPREFIX := 0x0a
  const WORDPREFIX := 0x0b
  const DWORDPREFIX := 0x0c
  const STRINGOP := 0x0d
  const QWORDPREFIX := 0x0e
  const BUFFEROP := 0x11
  const DUALNAMEPREFIX := 0x2e
  const MULTINAMEPREFIX := 0x2f
  const ROOTCHAR := 0x5c
  const EXTOPPREFIX := 0x5b
  const FIELDOP := 0x81
  const LNOTOP := 0x92
  const ONESOP := 0xff

  datatype OperandKind = PathOf | ByteOf | WordOf | TermOf

  /** Operands of an opcode; a block is followed by a term list and carries a package length. */
  datatype Signature = Signature(operands: seq<OperandKind>, block: bool)

  /** Two-byte opcodes are written 0x5bNN (extended) and 0x92NN (inverted comparison). */
  function SignatureOf(op: nat): Option<Signature> {
    if op == NAMEOP then Some(Signature([PathOf, TermOf], false))
    else if op == 0x10 then Some(Signature([PathOf], true))                         // Scope
    else if op == 0x12 then Some(Signature([ByteOf], true))                         // Package: element count
    else if op == 0x13 then Some(Signature([], true))                               // VarPackage
    else if op == 0x14 then Some(Signature([PathOf, ByteOf], true))                 // Method: flags
    else if op == 0x5b01 then Some(Signature([PathOf, ByteOf], false))              // Mutex: sync level
    else if op == 0x5b13 then Some(Signature([TermOf, TermOf, TermOf, TermOf], false)) // CreateField
    else if op == 0x5b23 then Some(Signature([PathOf, WordOf], false))              // Acquire: timeout
    else if op == 0x5b27 then Some(Signature([PathOf], false))                      // Release
    else if op == 0x5b80 then Some(Signature([PathOf, ByteOf, TermOf, TermOf], false)) // OpRegion: space, offset, length
    else if op == 0x5b82 then Some(Signature([PathOf], true))                       // Device
    else if op == 0x5b84 then Some(Signature([PathOf, ByteOf, WordOf], true))       // PowerResource: level, order
    else if 0x60 <= op <= 0x6e then Some(Signature([], false))                      // Local0-7, Arg0-6
    else if op == 0x70 || op == 0x86 then Some(Signature([TermOf, TermOf], false))  // Store: value, name; Notify
    // Add Concat Subtract Multiply ShiftLeft ShiftRight And Nand Or Nor Xor
    else if op == 0x72 || op == 0x73 || op == 0x74 || op == 0x77 || 0x79 <= op <= 0x7f
    then Some(Signature([TermOf, TermOf, TermOf], false))
    // ConcatRes Mod Index CreateDWordField CreateQWordField ToString
    else if op == 0x84 || op == 0x85 || op == 0x88 || op == 0x8a || op == 0x8f || op == 0x9c
    then Some(Signature([TermOf, TermOf, TermOf], false))
    else if op == 0x83 || op == 0x87 || op == 0x8e || op == 0xa4                    // DeRefOf SizeOf ObjectType Return
    then Some(Signature([TermOf], false))
    else if 0x93 <= op <= 0x95 || 0x9293 <= op <= 0x9295                            // comparisons and their inverses
    then Some(Signature([TermOf, TermOf], false))
    else if op == 0x96 || op == 0x99 then Some(Signature([TermOf, TermOf], false))  // ToBuffer ToInteger
    else if op == 0x9e then Some(Signature([TermOf, TermOf, TermOf, TermOf], false)) // Mid
    else if op == 0xa0 || op == 0xa2 then Some(Signature([TermOf], true))           // If, While: predicate
    else if op == 0xa1 then Some(Signature([], true))                               // Else
    else None
  }

  datatype Path = Path(root: bool, parts: seq<seq<byte>>)

  datatype FieldEntry = Named(name: seq<byte>, bits: nat) | Reserved(bits: nat)

  datatype Term =
    | Ones
    | Integer(n: nat)
    | Text(chars: seq<byte>)
    | Reference(path: Path)
    | Buffer(data: seq<byte>)
    | FieldDecl(region: Path, flags: byte, entries: seq<FieldEntry>)
    | Node(op: nat, operands: seq<Operand>, body: seq<Term>)

  datatype Operand = OfPath(p: Path) | OfByte(b: byte) | OfWord(w: u16) | OfTerm(t: Term)

  // -------------------------------------------------------------- the emitter

  /** The narrowest of the Byte, Word, DWord and QWord forms. */
  function EmitInteger(n: nat): seq<byte> {
    if n == 0 then [0x00]
    else if n == 1 then [0x01]
    else if n <= 0xff then [BYTEPREFIX, n]
    else if n <= 0xffff then [WORDPREFIX] + ToLe(n, 2)
    else if n <= 0xffff_ffff then [DWORDPREFIX] + ToLe(n, 4)
    else [QWORDPREFIX] + ToLe(n, 8)
  }

  function Flatten(parts: seq<seq<byte>>): seq<byte> {
    if parts == [] then [] else parts[0] + Flatten(parts[1..])
  }

  function EmitPath(p: Path): seq<byte> {
    (if p.root then [ROOTCHAR] else []) +
    (if |p.parts| == 1 then [] else if |p.parts| == 2 then [DUALNAMEPREFIX] else [MULTINAMEPREFIX, |p.parts| % 256]) +
    Flatten(p.parts)
  }

  /** The number of bytes `create_pkg_length` spends on `n` bytes of data. */
  function LengthLength(n: nat): nat {
    if n < 63 then 1 else if n < 4094 then 2 else if n < 1048573 then 3 else 4
  }

  /** A length on `k` bytes: 6 bits alone, or 4 bits and `k - 1` further bytes, truncated. */
  function LengthBytes(len: nat, k: nat): seq<byte>
    requires 1 <= k <= 4
  {
    if k == 1 then [len % 256] else [(k - 1) * 64 + len % 16] + ToLe(len / 16, k - 1)
  }

  /** `create_pkg_length`: the length of `n` bytes of data, counting its own bytes when `self` holds. */
  function PkgLength(n: nat, self: bool): seq<byte> {
    LengthBytes(if self then n + LengthLength(n) else n, LengthLength(n))
  }

  function Opcode(op: nat): seq<byte> {
    if op < 256 then [op] else [(op / 256) % 256, op % 256]
  }

  function EmitEntries(es: seq<FieldEntry>): seq<byte> {
    if es == [] then []
    else
      (match es[0]
       case Named(name, bits) => name + PkgLength(bits, false)
       case Reserved(bits) => [0x00] + PkgLength(bits, false)) + EmitEntries(es[1..])
  }

  function IsBlock(op: nat): bool {
    SignatureOf(op).Some? && SignatureOf(op).value.block
  }

  function Emit(t: Term): seq<byte>
    decreases t
  {
    match t
    case Ones => [ONESOP]
    case Integer(n) => EmitInteger(n)
    case Text(s) => [STRINGOP] + s + [0x00]
    case Reference(p) => EmitPath(p)
    case Buffer(d) =>
      var inner := EmitInteger(|d|) + d;
      [BUFFEROP] + PkgLength(|inner|, true) + inner
    case FieldDecl(region, flags, entries) =>
      var inner := EmitPath(region) + [flags] + EmitEntries(entries);
      [EXTOPPREFIX, FIELDOP] + PkgLength(|inner|, true) + inner
    case Node(op, operands, body) =>
      var inner := EmitOperands(operands) + EmitAll(body);
      Opcode(op) + (if IsBlock(op) then PkgLength(|inner|, true) else []) + inner
  }

  function EmitOperands(os: seq<Operand>): seq<byte>
    decreases os
  {
    if os == [] then [] else EmitOperand(os[0]) + EmitOperands(os[1..])
  }

  function EmitOperand(o: Operand): seq<byte>
    decreases o
  {
    match o
    case OfPath(p) => EmitPath(p)
    case OfByte(b) => [b]
    case OfWord(w) => ToLe(w, 2)
    case OfTerm(t) => Emit(t)
  }

  function EmitAll(ts: seq<Term>): seq<byte>
    decreases ts
  {
    if ts == [] then [] else Emit(ts[0]) + EmitAll(ts[1..])
  }

  // ----------------------------------------------------------- the valid terms

  predicate LeadNameChar(c: byte) {
    0x41 <= c <= 0x5a || c == 0x5f
  }

  predicate NameChar(c: byte) {
    LeadNameChar(c) || 0x30 <= c <= 0x39
  }

  predicate NameSeg(s: seq<byte>) {
    |s| == 4 && LeadNameChar(s[0]) && NameChar(s[1]) && NameChar(s[2]) && NameChar(s[3])
  }

  ghost predicate ValidPath(p: Path) {
    1 <= |p.parts| <= 255 && forall i | 0 <= i < |p.parts| :: NameSeg(p.parts[i])
  }

  /** The longest package length is 2^28 - 1. */
  const MAX_PACKAGE: nat := 0x1000_0000

  ghost predicate PackageFits(n: nat) {
    n + LengthLength(n) < MAX_PACKAGE
  }

  ghost predicate ValidEntry(e: FieldEntry) {
    e.bits < MAX_PACKAGE && (e.Named? ==> NameSeg(e.name))
  }

  ghost predicate OperandIs(o: Operand, k: OperandKind) {
    match k
    case PathOf => o.OfPath?
    case ByteOf => o.OfByte?
    case WordOf => o.OfWord?
    case TermOf => o.OfTerm?
  }

  ghost predicate Valid(t: Term)
    decreases t
  {
    match t
    case Ones => true
    case Integer(n) => n < 0x1_0000_0000_0000_0000
    case Text(s) => forall i | 0 <= i < |s| :: s[i] != 0
    case Reference(p) => ValidPath(p)
    case Buffer(d) => PackageFits(|EmitInteger(|d|)| + |d|)
    case FieldDecl(region, flags, entries) =>
      && ValidPath(region)
      && (forall i | 0 <= i < |entries| :: ValidEntry(entries[i]))
      && PackageFits(|EmitPath(region)| + 1 + |EmitEntries(entries)|)
    case Node(op, operands, body) =>
      && SignatureOf(op).Some?
      && |operands| == |SignatureOf(op).value.operands|
      && (forall i | 0 <= i < |operands| ::
            OperandIs(operands[i], SignatureOf(op).value.operands[i]) && ValidOperand(operands[i]))
      && (forall i | 0 <= i < |body| :: Valid(body[i]))
      && (if IsBlock(op) then PackageFits(|EmitOperands(operands)| + |EmitAll(body)|) else body == [])
  }

  ghost predicate ValidOperand(o: Operand)
    decreases o
  {
    match o
    case OfPath(p) => ValidPath(p)
    case OfTerm(t) => Valid(t)
    case _ => true
  }

  /** What is valid has a segment in every path. */
  lemma {:induction false} ValidSegmented(t: Term)
    requires Valid(t)
    ensures Segmented(t)
    decreases t
  {
    match t
    case Node(_, operands, body) =>
      forall i | 0 <= i < |operands| ensures SegmentedOperand(operands[i]) {
        assert ValidOperand(operands[i]);
        if operands[i].OfTerm? { ValidSegmented(operands[i].t); }
      }
      forall i | 0 <= i < |body| ensures Segmented(body[i]) { ValidSegmented(body[i]); }
    case _ =>
  }

  // ------------------------------------------- the emitter on a growing vector

  class ByteVec {
    var bytes: seq<byte>

    constructor ()
      ensures bytes == []
    {
      bytes := [];
    }

    method Append(more: seq<byte>)
      modifies this
      ensures bytes == old(bytes) + more
    {
      bytes := bytes + more;
    }

    /** `insert(0, x)` for the bytes of `front`, last byte first. */
    method InsertFront(front: seq<byte>)
      modifies this
      ensures bytes == front + old(bytes)
    {
      var i := |front|;
      while i > 0
        invariant 0 <= i <= |front|
        invariant bytes == front[i..] + old(bytes)
      {
        i := i - 1;
        bytes := [front[i]] + bytes;
      }
    }
  }

  lemma BlockIs(t: Term)
    requires t.Node? && IsBlock(t.op)
    ensures var inner := EmitOperands(t.operands) + EmitAll(t.body);
            Emit(t) == Opcode(t.op) + (PkgLength(|inner|, true) + inner)
  {
    var inner := EmitOperands(t.operands) + EmitAll(t.body);
    Assoc(Opcode(t.op), PkgLength(|inner|, true), inner);
  }

  lemma FixedIs(t: Term, before: seq<byte>)
    requires t.Node? && !IsBlock(t.op)
    ensures before + Opcode(t.op) + EmitOperands(t.operands) + EmitAll(t.body) == before + Emit(t)
  {
    Join(before, Opcode(t.op), EmitOperands(t.operands), EmitAll(t.body));
  }

  lemma Join(before: seq<byte>, a: seq<byte>, b: seq<byte>, c: seq<byte>)
    ensures before + a + b + c == before + (a + [] + (b + c))
  {
    Assoc(before + a, b, c);
    Assoc(before, a, b + c);
    assert a + [] == a;
  }

  method IntegerToAmlBytes(n: nat, aml: ByteVec)
    modifies aml
    ensures aml.bytes == old(aml.bytes) + EmitInteger(n)
  {
    if n <= 1 {
      aml.Append([n]);
    } else if n <= 0xff {
      Assoc(aml.bytes, [BYTEPREFIX], [n]);
      aml.Append([BYTEPREFIX]);
      aml.Append([n]);
    } else {
      var width := if n <= 0xffff then 2 else if n <= 0xffff_ffff then 4 else 8;
      var prefix := if width == 2 then WORDPREFIX else if width == 4 then DWORDPREFIX else QWORDPREFIX;
      Assoc(aml.bytes, [prefix], ToLe(n, width));
      aml.Append([prefix]);
      aml.Append(ToLe(n, width));
    }
  }

  /** Every path has a segment; the emitter panics on one that has none. */
  ghost predicate Segmented(t: Term)
    decreases t
  {
    match t
    case Reference(p) => p.parts != []
    case FieldDecl(region, _, _) => region.parts != []
    case Node(_, operands, body) =>
      && (forall i | 0 <= i < |operands| :: SegmentedOperand(operands[i]))
      && (forall i | 0 <= i < |body| :: Segmented(body[i]))
    case _ => true
  }

  ghost predicate SegmentedOperand(o: Operand)
    decreases o
  {
    match o
    case OfPath(p) => p.parts != []
    case OfTerm(t) => Segmented(t)
    case _ => true
  }

  method PathToAmlBytes(p: Path, aml: ByteVec)
    requires p.parts != []
    modifies aml
    ensures aml.bytes == old(aml.bytes) + EmitPath(p)
  {
    var n := |p.parts|;
    if p.root { aml.Append([ROOTCHAR]); }
    if n == 2 {
      aml.Append([DUALNAMEPREFIX]);
    } else if n != 1 {
      aml.Append([MULTINAMEPREFIX]);
      aml.Append([n % 256]);
    }
    ghost var root: seq<byte> := if p.root then [ROOTCHAR] else [];
    ghost var count: seq<byte> :=
      if n == 1 then [] else if n == 2 then [DUALNAMEPREFIX] else [MULTINAMEPREFIX, n % 256];
    ghost var before := aml.bytes;
    assert before == old(aml.bytes) + (root + count);
    Assoc(old(aml.bytes), root + count, Flatten(p.parts));
    var i := 0;
    while i < n
      invariant 0 <= i <= n
      invariant aml.bytes + Flatten(p.parts[i..]) == before + Flatten(p.parts)
    {
      Assoc(aml.bytes, p.parts[i], Flatten(p.parts[i + 1..]));
      assert p.parts[i..][1..] == p.parts[i + 1..];
      aml.Append(p.parts[i]);
      i := i + 1;
    }
  }

  method EntriesToAmlBytes(es: seq<FieldEntry>, aml: ByteVec)
    modifies aml
    ensures aml.bytes == old(aml.bytes) + EmitEntries(es)
  {
    var i := 0;
    while i < |es|
      invariant 0 <= i <= |es|
      invariant aml.bytes + EmitEntries(es[i..]) == old(aml.bytes) + EmitEntries(es)
    {
      ghost var before := aml.bytes;
      aml.Append(match es[i] case Named(name, _) => name case Reserved(_) => [0x00]);
      aml.Append(PkgLength(es[i].bits, false));
      EntryAppended(es, i, before);
      i := i + 1;
    }
  }

  lemma EntryAppended(es: seq<FieldEntry>, i: nat, before: seq<byte>)
    requires i < |es|
    ensures var front := match es[i] case Named(name, _) => name case Reserved(_) => [0x00];
            before + front + PkgLength(es[i].bits, false) + EmitEntries(es[i + 1..]) == before + EmitEntries(es[i..])
  {
    var front := match es[i] case Named(name, _) => name case Reserved(_) => [0x00];
    var length := PkgLength(es[i].bits, false);
    assert es[i..][1..] == es[i + 1..];
    Assoc(before, front, length);
    Assoc(before, front + length, EmitEntries(es[i + 1..]));
  }

  /** Insert the package length of what a vector holds, and then an opcode, in front of it. */
  method InsertHeader(bytes: ByteVec, op: seq<byte>)
    modifies bytes
    ensures bytes.bytes == op + (PkgLength(|old(bytes.bytes)|, true) + old(bytes.bytes))
  {
    bytes.InsertFront(PkgLength(|bytes.bytes|, true));
    bytes.InsertFront(op);
  }

  /** The parts of a field list, built in a vector of their own. */
  method FieldToAmlBytes(t: Term, aml: ByteVec)
    requires t.FieldDecl? && Segmented(t)
    modifies aml
    ensures aml.bytes == old(aml.bytes) + Emit(t)
  {
    var bytes := new ByteVec();
    PathToAmlBytes(t.region, bytes);
    bytes.Append([t.flags]);
    EntriesToAmlBytes(t.entries, bytes);
    FieldIs(t, bytes.bytes);
    InsertHeader(bytes, [EXTOPPREFIX, FIELDOP]);
    aml.Append(bytes.bytes);
  }

  /** The data and, in front of it, its length. */
  method BufferToAmlBytes(t: Term, aml: ByteVec)
    requires t.Buffer?
    modifies aml
    ensures aml.bytes == old(aml.bytes) + Emit(t)
  {
    var bytes := new ByteVec();
    IntegerToAmlBytes(|t.data|, bytes);
    bytes.Append(t.data);
    assert bytes.bytes == EmitInteger(|t.data|) + t.data;
    BufferIs(t, bytes.bytes);
    InsertHeader(bytes, [BUFFEROP]);
    aml.Append(bytes.bytes);
  }

  lemma FieldIs(t: Term, inner: seq<byte>)
    requires t.FieldDecl? && inner == EmitPath(t.region) + [t.flags] + EmitEntries(t.entries)
    ensures Emit(t) == [EXTOPPREFIX, FIELDOP] + (PkgLength(|inner|, true) + inner)
  {
    Assoc([EXTOPPREFIX, FIELDOP], PkgLength(|inner|, true), inner);
  }

  lemma BufferIs(t: Term, inner: seq<byte>)
    requires t.Buffer? && inner == EmitInteger(|t.data|) + t.data
    ensures Emit(t) == [BUFFEROP] + (PkgLength(|inner|, true) + inner)
  {
    Assoc([BUFFEROP], PkgLength(|inner|, true), inner);
  }

  /** `to_aml_bytes`: what carries a package length is built in a vector of its own and the length inserted in front. */
  method ToAmlBytes(t: Term, aml: ByteVec)
    requires Segmented(t)
    modifies aml
    ensures aml.bytes == old(aml.bytes) + Emit(t)
    decreases t, 0
  {
    match t {
      case Ones => aml.Append([ONESOP]);
      case Integer(n) => IntegerToAmlBytes(n, aml);
      case Text(s) =>
        aml.Append([STRINGOP]);
        aml.Append(s);
        aml.Append([0x00]);
      case Reference(p) => PathToAmlBytes(p, aml);
      case Buffer(_) => BufferToAmlBytes(t, aml);
      case FieldDecl(_, _, _) => FieldToAmlBytes(t, aml);
      case Node(op, operands, body) =>
        if IsBlock(op) {
          var bytes := new ByteVec();
          OperandsToAmlBytes(operands, bytes);
          ChildrenToAmlBytes(body, bytes);
          assert bytes.bytes == EmitOperands(operands) + EmitAll(body);
          BlockIs(t);
          InsertHeader(bytes, Opcode(op));
          aml.Append(bytes.bytes);
        } else {
          FixedIs(t, aml.bytes);
          aml.Append(Opcode(op));
          OperandsToAmlBytes(operands, aml);
          ChildrenToAmlBytes(body, aml);
        }
    }
  }

  method OperandToAmlBytes(o: Operand, aml: ByteVec)
    requires SegmentedOperand(o)
    modifies aml
    ensures aml.bytes == old(aml.bytes) + EmitOperand(o)
    decreases o, 0
  {
    match o {
      case OfPath(p) => PathToAmlBytes(p, aml);
      case OfByte(b) => aml.Append([b]);
      case OfWord(w) => aml.Append(ToLe(w, 2));
      case OfTerm(t) => ToAmlBytes(t, aml);
    }
  }

  method OperandsToAmlBytes(os: seq<Operand>, aml: ByteVec)
    requires forall i | 0 <= i < |os| :: SegmentedOperand(os[i])
    modifies aml
    ensures aml.bytes == old(aml.bytes) + EmitOperands(os)
    decreases os, 1
  {
    var i := 0;
    while i < |os|
      invariant 0 <= i <= |os|
      invariant aml.bytes + EmitOperands(os[i..]) == old(aml.bytes) + EmitOperands(os)
    {
      ghost var before := aml.bytes;
      assert os[i..][1..] == os[i + 1..];
      OperandToAmlBytes(os[i], aml);
      Assoc(before, EmitOperand(os[i]), EmitOperands(os[i + 1..]));
      i := i + 1;
    }
  }

  method ChildrenToAmlBytes(ts: seq<Term>, aml: ByteVec)
    requires forall i | 0 <= i < |ts| :: Segmented(ts[i])
    modifies aml
    ensures aml.bytes == old(aml.bytes) + EmitAll(ts)
    decreases ts, 1
  {
    var i := 0;
    while i < |ts|
      invariant 0 <= i <= |ts|
      invariant aml.bytes + EmitAll(ts[i..]) == old(aml.bytes) + EmitAll(ts)
    {
      ghost var before := aml.bytes;
      assert ts[i..][1..] == ts[i + 1..];
      ToAmlBytes(ts[i], aml);
      Assoc(before, Emit(ts[i]), EmitAll(ts[i + 1..]));
      i := i + 1;
    }
  }
}
