/**
 * A parser written from the grammar of sections 20.2.2 to 20.2.5 of the ACPI Specification,
 * and the proof that it inverts the emitter.
 */
module AmlParser {
  import opened Bytes
  import opened Aml

  datatype Result<+T> = Fail | Got(value: T, rest: seq<byte>)

  // ---------------------------------------------------------------- the parser

  function ParseLe(b: seq<byte>, k: nat): Result<nat> {
    if |b| < k then Fail else Got(FromLe(b[..k]), b[k..])
  }

  /** The index of the first NUL, or the length when there is none. */
  function FindNul(b: seq<byte>, i: nat): (k: nat)
    requires i <= |b|
    ensures i <= k <= |b|
    decreases |b| - i
  {
    if i == |b| || b[i] == 0 then i else FindNul(b, i + 1)
  }

  function ParseSegs(b: seq<byte>, n: nat): Result<seq<seq<byte>>> {
    if n == 0 then Got([], b)
    else if |b| < 4 || !NameSeg(b[..4]) then Fail
    else match ParseSegs(b[4..], n - 1) case Fail => Fail case Got(ss, r) => Got([b[..4]] + ss, r)
  }

  /** How many name segments follow. */
  function ParseCount(b: seq<byte>): Result<nat> {
    if b == [] then Fail
    else if b[0] == DUALNAMEPREFIX then Got(2, b[1..])
    else if b[0] == MULTINAMEPREFIX then (if |b| < 2 then Fail else Got(b[1], b[2..]))
    else Got(1, b)
  }

  function ParseParts(b: seq<byte>): Result<seq<seq<byte>>> {
    match ParseCount(b) case Fail => Fail case Got(n, r) => ParseSegs(r, n)
  }

  function ParsePath(b: seq<byte>): Result<Path> {
    if b == [] then Fail
    else if b[0] == ROOTCHAR then match ParseParts(b[1..]) case Fail => Fail case Got(ps, r) => Got(Path(true, ps), r)
    else match ParseParts(b) case Fail => Fail case Got(ps, r) => Got(Path(false, ps), r)
  }

  predicate PathLead(c: byte) {
    c == ROOTCHAR || c == DUALNAMEPREFIX || c == MULTINAMEPREFIX || LeadNameChar(c)
  }

  /** PkgLeadByte: the top two bits count the bytes that follow, then bits 4 and 5 are zero. */
  function ParsePkgLength(b: seq<byte>): Result<nat> {
    if b == [] then Fail
    else
      var lead: int := b[0];
      var k := lead / 64;
      if k == 0 then Got(lead, b[1..])
      else if |b| < k + 1 || (lead / 16) % 4 != 0 then Fail
      else Got(lead % 16 + 16 * FromLe(b[1..k + 1]), b[k + 1..])
  }

  /** The contents of a package and what follows it; the length counts its own bytes. */
  function ParsePackage(b: seq<byte>): (r: Result<seq<byte>>)
    ensures r.Got? ==> |r.value| + |r.rest| < |b|
  {
    match ParsePkgLength(b)
    case Fail => Fail
    case Got(len, r) =>
      var k := |b| - |r|;
      if k <= 0 || len < k || len - k > |r| then Fail else Got(r[..len - k], r[len - k..])
  }

  function ParseEntries(b: seq<byte>): Option<seq<FieldEntry>> {
    if b == [] then Some([])
    else
      var name := if b[0] == 0 then Got([], b[1..])
                  else if |b| < 4 || !NameSeg(b[..4]) then Fail
                  else Got(b[..4], b[4..]);
      match name
      case Fail => None
      case Got(n, r) =>
        match ParsePkgLength(r)
        case Fail => None
        case Got(bits, r') =>
          if |r'| >= |b| then None
          else
            match ParseEntries(r')
            case None => None
            case Some(es) => Some([if n == [] then Reserved(bits) else Named(n, bits)] + es)
  }

  /** The opcode at the front of `b`. */
  function ParseOp(b: seq<byte>): Result<nat> {
    if b == [] then Fail
    else if b[0] == EXTOPPREFIX || b[0] == LNOTOP then (if |b| < 2 then Fail else Got((b[0] as int) * 256 + b[1], b[2..]))
    else Got(b[0], b[1..])
  }

  function ParseBuffer(b: seq<byte>): Result<Term> {
    match ParsePackage(b)
    case Fail => Fail
    case Got(inner, r) =>
      match ParseInteger(inner)
      case Fail => Fail
      case Got(n, data) => if |data| == n then Got(Buffer(data), r) else Fail
  }

  function ParseFieldDecl(b: seq<byte>): Result<Term> {
    match ParsePackage(b)
    case Fail => Fail
    case Got(inner, r) =>
      match ParsePath(inner)
      case Fail => Fail
      case Got(p, r') =>
        if r' == [] then Fail
        else match ParseEntries(r'[1..]) case None => Fail case Some(es) => Got(FieldDecl(p, r'[0], es), r)
  }

  function ParseInteger(b: seq<byte>): Result<nat> {
    if b == [] then Fail
    else if b[0] == 0x00 then Got(0, b[1..])
    else if b[0] == 0x01 then Got(1, b[1..])
    else if b[0] == BYTEPREFIX then ParseLe(b[1..], 1)
    else if b[0] == WORDPREFIX then ParseLe(b[1..], 2)
    else if b[0] == DWORDPREFIX then ParseLe(b[1..], 4)
    else if b[0] == QWORDPREFIX then ParseLe(b[1..], 8)
    else Fail
  }

  function ParseText(b: seq<byte>): Result<Term> {
    var k := FindNul(b, 0);
    if k == |b| then Fail else Got(Text(b[..k]), b[k + 1..])
  }

  predicate IntegerLead(c: byte) {
    c == 0x00 || c == 0x01 || c == BYTEPREFIX || c == WORDPREFIX || c == DWORDPREFIX || c == QWORDPREFIX
  }

  /** Terms without subterms; `Fail` also when the front of `b` is an opcode of the table. */
  function ParseLeaf(b: seq<byte>): Result<Term>
    requires b != []
  {
    var c := b[0];
    if c == ONESOP then Got(Ones, b[1..])
    else if IntegerLead(c) then match ParseInteger(b) case Fail => Fail case Got(n, r) => Got(Integer(n), r)
    else if c == STRINGOP then ParseText(b[1..])
    else if PathLead(c) then match ParsePath(b) case Fail => Fail case Got(p, r) => Got(Reference(p), r)
    else if c == BUFFEROP then ParseBuffer(b[1..])
    else if c == EXTOPPREFIX && |b| >= 2 && b[1] == FIELDOP then ParseFieldDecl(b[2..])
    else Fail
  }

  predicate LeafLead(b: seq<byte>)
    requires b != []
  {
    || b[0] == ONESOP || IntegerLead(b[0]) || b[0] == STRINGOP || PathLead(b[0]) || b[0] == BUFFEROP
    || (b[0] == EXTOPPREFIX && |b| >= 2 && b[1] == FIELDOP)
  }

  /** Results that consume less than they may are rejected, which never happens (`ParseEmit`). */
  function ParseTerm(b: seq<byte>): (r: Result<Term>)
    ensures r.Got? ==> |r.rest| < |b|
    decreases |b|, 0
  {
    if b == [] then Fail
    else if LeafLead(b) then
      var r := ParseLeaf(b);
      if r.Got? && |r.rest| < |b| then r else Fail
    else
      match ParseOp(b)
      case Fail => Fail
      case Got(op, r) =>
        if SignatureOf(op).None? || |r| >= |b| then Fail
        else
          var sig := SignatureOf(op).value;
          if !sig.block then
            match ParseOperands(sig.operands, r) case Fail => Fail case Got(os, r') => Got(Node(op, os, []), r')
          else
            match ParsePackage(r)
            case Fail => Fail
            case Got(inner, r') =>
              match ParseOperands(sig.operands, inner)
              case Fail => Fail
              case Got(os, rest) =>
                match ParseTerms(rest) case None => Fail case Some(ts) => Got(Node(op, os, ts), r')
  }

  function ParseOperand(k: OperandKind, b: seq<byte>): (r: Result<Operand>)
    ensures r.Got? ==> |r.rest| < |b|
    decreases |b|, 1
  {
    match k
    case PathOf =>
      (match ParsePath(b) case Fail => Fail case Got(p, r) => if |r| < |b| then Got(OfPath(p), r) else Fail)
    case ByteOf => if b == [] then Fail else Got(OfByte(b[0]), b[1..])
    case WordOf => if |b| < 2 then Fail else (Pow256Values(); Got(OfWord(FromLe(b[..2])), b[2..]))
    case TermOf => match ParseTerm(b) case Fail => Fail case Got(t, r) => Got(OfTerm(t), r)
  }

  function ParseOperands(ks: seq<OperandKind>, b: seq<byte>): (r: Result<seq<Operand>>)
    ensures r.Got? ==> |r.rest| <= |b|
    decreases |b|, 2 + |ks|
  {
    if ks == [] then Got([], b)
    else
      match ParseOperand(ks[0], b)
      case Fail => Fail
      case Got(o, r) =>
        match ParseOperands(ks[1..], r) case Fail => Fail case Got(os, r') => Got([o] + os, r')
  }

  /** A term list extends to the end of its package. */
  function ParseTerms(b: seq<byte>): Option<seq<Term>>
    decreases |b|, 1
  {
    if b == [] then Some([])
    else
      match ParseTerm(b)
      case Fail => None
      case Got(t, r) => match ParseTerms(r) case None => None case Some(ts) => Some([t] + ts)
  }

  // --------------------------------------------------------- leaves round trip

  lemma LeParse(n: nat, k: nat, tail: seq<byte>)
    requires n < Pow256(k)
    ensures ParseLe(ToLe(n, k) + tail, k) == Got(n, tail)
  {
  }

  lemma IntegerParse(n: nat, tail: seq<byte>)
    requires n < 0x1_0000_0000_0000_0000
    ensures EmitInteger(n) != [] && IntegerLead(EmitInteger(n)[0])
    ensures ParseInteger(EmitInteger(n) + tail) == Got(n, tail)
  {
    Pow256Values();
    var b := EmitInteger(n) + tail;
    if n <= 1 {
      assert b[1..] == tail;
    } else {
      var k := if n <= 0xff then 1 else if n <= 0xffff then 2 else if n <= 0xffff_ffff then 4 else 8;
      if k == 1 { assert ToLe(n, 1) == [n]; }
      assert b[1..] == ToLe(n, k) + tail;
      LeParse(n, k, tail);
    }
  }

  lemma {:induction false} FindNulIs(s: seq<byte>, b: seq<byte>, i: nat)
    requires |s| < |b| && b[..|s|] == s && b[|s|] == 0 && (forall j | 0 <= j < |s| :: s[j] != 0) && i <= |s|
    ensures FindNul(b, i) == |s|
    decreases |s| - i
  {
    if i < |s| {
      assert b[i] == s[i];
      FindNulIs(s, b, i + 1);
    }
  }

  lemma TextParse(s: seq<byte>, tail: seq<byte>)
    requires forall i | 0 <= i < |s| :: s[i] != 0
    ensures ParseText(s + [0x00] + tail) == Got(Text(s), tail)
  {
    var b := s + [0x00] + tail;
    assert b[..|s|] == s;
    FindNulIs(s, b, 0);
    assert b[|s| + 1..] == tail;
  }

  lemma {:induction false} SegsParse(parts: seq<seq<byte>>, tail: seq<byte>)
    requires forall i | 0 <= i < |parts| :: NameSeg(parts[i])
    ensures ParseSegs(Flatten(parts) + tail, |parts|) == Got(parts, tail)
  {
    if parts == [] {
      assert Flatten(parts) + tail == tail;
    } else {
      var b := Flatten(parts) + tail;
      SegsParse(parts[1..], tail);
      Assoc(parts[0], Flatten(parts[1..]), tail);
      assert b[..4] == parts[0] && b[4..] == Flatten(parts[1..]) + tail;
      assert parts == [parts[0]] + parts[1..];
    }
  }

  function Prefix(n: nat): seq<byte> {
    if n == 1 then [] else if n == 2 then [DUALNAMEPREFIX] else [MULTINAMEPREFIX, n % 256]
  }

  lemma Behind(front: seq<byte>, s: seq<byte>, tail: seq<byte>)
    ensures (front + s + tail)[|front|..] == s + tail && |front + s + tail| >= |front|
    ensures forall i | 0 <= i < |front| :: (front + s + tail)[i] == front[i]
  {
  }

  lemma PartsParse(parts: seq<seq<byte>>, tail: seq<byte>)
    requires 1 <= |parts| <= 255 && forall i | 0 <= i < |parts| :: NameSeg(parts[i])
    ensures var b := Prefix(|parts|) + Flatten(parts);
            |b| > 0 && b[0] != ROOTCHAR && PathLead(b[0]) && ParseParts(b + tail) == Got(parts, tail)
  {
    var n, s := |parts|, Flatten(parts);
    FlattenLead(parts);
    CountParse(n, s, tail);
    SegsParse(parts, tail);
  }

  lemma CountParse(n: nat, s: seq<byte>, tail: seq<byte>)
    requires 1 <= n <= 255 && |s| > 0 && LeadNameChar(s[0])
    ensures ParseCount(Prefix(n) + s + tail) == Got(n, s + tail)
  {
  }

  lemma FlattenLead(parts: seq<seq<byte>>)
    requires parts != [] && NameSeg(parts[0])
    ensures |Flatten(parts)| > 0 && LeadNameChar(Flatten(parts)[0])
  {
  }

  lemma PathParse(p: Path, tail: seq<byte>)
    requires ValidPath(p)
    ensures EmitPath(p) != [] && PathLead(EmitPath(p)[0])
    ensures ParsePath(EmitPath(p) + tail) == Got(p, tail)
  {
    PartsParse(p.parts, tail);
    var b := Prefix(|p.parts|) + Flatten(p.parts);
    PathBytes(p, b);
    if p.root { Rooted(b, tail); }
  }

  lemma PathBytes(p: Path, b: seq<byte>)
    requires b == Prefix(|p.parts|) + Flatten(p.parts)
    ensures EmitPath(p) == if p.root then [ROOTCHAR] + b else b
  {
  }

  lemma Rooted(b: seq<byte>, tail: seq<byte>)
    ensures ([ROOTCHAR] + b + tail)[0] == ROOTCHAR && ([ROOTCHAR] + b + tail)[1..] == b + tail
  {
  }

  // ------------------------------------------------------------ package lengths

  lemma LeadByte(len: nat, k: nat)
    requires 2 <= k <= 4
    ensures var lead := (k - 1) * 64 + len % 16;
            0 <= lead < 256 && lead / 64 == k - 1 && lead % 16 == len % 16 && (lead / 16) % 4 == 0
  {
  }

  lemma LengthBytesParse(len: nat, k: nat, tail: seq<byte>)
    requires 1 <= k <= 4 && (k == 1 ==> len < 64)
    ensures |LengthBytes(len, k)| == k
    ensures ParsePkgLength(LengthBytes(len, k) + tail) == Got(len, tail) <==> k == 1 || len / 16 < Pow256(k - 1)
  {
    if k == 1 { ShortLength(len, tail); } else { LongBytes(len, k, tail); }
  }

  lemma ShortLength(len: nat, tail: seq<byte>)
    requires len < 64
    ensures ParsePkgLength([len % 256] + tail) == Got(len, tail)
  {
    assert ([len] + tail)[1..] == tail;
  }

  lemma LongBytes(len: nat, k: nat, tail: seq<byte>)
    requires 2 <= k <= 4
    ensures LengthBytes(len, k) == [(k - 1) * 64 + len % 16] + ToLe(len / 16, k - 1)
    ensures ParsePkgLength(LengthBytes(len, k) + tail) == Got(len, tail) <==> len / 16 < Pow256(k - 1)
  {
    LeadByte(len, k);
    LengthDigits(len / 16, k - 1);
    LongLength(len, (k - 1) * 64 + len % 16, ToLe(len / 16, k - 1), tail);
  }

  lemma LongLength(len: nat, lead: byte, digits: seq<byte>, tail: seq<byte>)
    requires 1 <= |digits| == lead / 64 && (lead / 16) % 4 == 0 && lead % 16 == len % 16
    ensures ParsePkgLength([lead] + digits + tail) == Got(len, tail) <==> FromLe(digits) == len / 16
  {
    LengthParts(lead, digits, tail);
    Nibble(len, FromLe(digits));
  }

  lemma LengthParts(lead: byte, digits: seq<byte>, tail: seq<byte>)
    requires 1 <= |digits| == lead / 64 && (lead / 16) % 4 == 0
    ensures ParsePkgLength([lead] + digits + tail) == Got(lead % 16 + 16 * FromLe(digits), tail)
  {
    var b, k := [lead] + digits + tail, 1 + |digits|;
    assert b[k..] == tail && b[1..k] == digits;
  }

  lemma Nibble(len: nat, n: nat)
    ensures len % 16 + 16 * n == len <==> n == len / 16
  {
  }

  lemma LengthDigits(n: nat, k: nat)
    ensures FromLe(ToLe(n, k)) == n <==> n < Pow256(k)
  {
    if n < Pow256(k) { LeRoundTrip(n, k); }
  }

  /** A package length is read back, with its own bytes counted or not, exactly below 2^28. */
  lemma PkgLengthParse(n: nat, self: bool, tail: seq<byte>)
    ensures var len := if self then n + LengthLength(n) else n;
            && |PkgLength(n, self)| == LengthLength(n)
            && (ParsePkgLength(PkgLength(n, self) + tail) == Got(len, tail) <==> len < MAX_PACKAGE)
  {
    LengthBytesParse(if self then n + LengthLength(n) else n, LengthLength(n), tail);
    assert Pow256(1) == 256 && Pow256(2) == 0x1_0000 && Pow256(3) == 0x100_0000;
  }

  // ------------------------------------------------------------ shortest forms

  /** No shorter bytes read as the integer. */
  lemma IntegerShortest(n: nat, b: seq<byte>)
    requires ParseInteger(b) == Got(n, [])
    ensures |EmitInteger(n)| <= |b|
  {
    Pow256Values();
  }

  lemma {:induction false} SegsLength(b: seq<byte>, n: nat)
    requires ParseSegs(b, n).Got?
    ensures |ParseSegs(b, n).value| == n && |b| == 4 * n + |ParseSegs(b, n).rest|
  {
    if n > 0 { SegsLength(b[4..], n - 1); }
  }

  lemma {:induction false} FlattenLength(parts: seq<seq<byte>>)
    requires forall i | 0 <= i < |parts| :: NameSeg(parts[i])
    ensures |Flatten(parts)| == 4 * |parts|
  {
    if parts != [] { FlattenLength(parts[1..]); }
  }

  /** No shorter bytes read as the path. */
  lemma PathShortest(p: Path, b: seq<byte>)
    requires ValidPath(p) && ParsePath(b) == Got(p, [])
    ensures |EmitPath(p)| <= |b|
  {
    FlattenLength(p.parts);
    var c := if p.root then b[1..] else b;
    var count := ParseCount(c);
    SegsLength(count.rest, count.value);
  }

  /** What `k` bytes of package length can say. */
  function LengthLimit(k: nat): nat {
    if k == 1 then 64 else if k == 2 then 0x1000 else if k == 3 then 0x10_0000 else MAX_PACKAGE
  }

  lemma LengthRange(b: seq<byte>)
    requires ParsePkgLength(b).Got? && ParsePkgLength(b).rest == []
    ensures 1 <= |b| <= 4 && ParsePkgLength(b).value < LengthLimit(|b|)
  {
    var k := |b| - 1;
    if k > 0 {
      assert Pow256(1) == 0x100 && Pow256(2) == 0x1_0000 && Pow256(3) == 0x100_0000;
      assert FromLe(b[1..]) < Pow256(k);
      assert b[1..k + 1] == b[1..];
    }
  }

  /** No shorter package length counts itself and the same data. */
  lemma PkgLengthShortest(n: nat, b: seq<byte>)
    requires ParsePkgLength(b) == Got(n + |b|, [])
    ensures |PkgLength(n, true)| <= |b|
  {
    LengthRange(b);
    PkgLengthParse(n, true, []);
  }

  /** A field whose length just fits fewer bytes, had they to count themselves it would not. */
  predicate Wasteful(n: nat) {
    n == 63 || 4094 <= n <= 4095 || 1048573 <= n <= 1048575
  }

  /** A field's length, which does not count itself, is the shortest exactly if it is none of six. */
  lemma FieldLengthShortest(n: nat)
    ensures (forall b | ParsePkgLength(b) == Got(n, []) :: |PkgLength(n, false)| <= |b|) <==> !Wasteful(n)
  {
    PkgLengthParse(n, false, []);
    if Wasteful(n) {
      var k := if n == 63 then 1 else if n <= 4095 then 2 else 3;
      var b := LengthBytes(n, k);
      assert Pow256(1) == 0x100 && Pow256(2) == 0x1_0000;
      LengthBytesParse(n, k, []);
      assert b + [] == b;
      assert ParsePkgLength(b) == Got(n, []) && |b| < |PkgLength(n, false)|;
    } else {
      forall b | ParsePkgLength(b) == Got(n, []) ensures |PkgLength(n, false)| <= |b| { LengthRange(b); }
    }
  }

  lemma PackageParse(inner: seq<byte>, tail: seq<byte>)
    requires PackageFits(|inner|)
    ensures ParsePackage(PkgLength(|inner|, true) + inner + tail) == Got(inner, tail)
  {
    PkgLengthParse(|inner|, true, inner + tail);
    Assoc(PkgLength(|inner|, true), inner, tail);
  }

  lemma {:induction false} EntriesParse(es: seq<FieldEntry>)
    requires forall i | 0 <= i < |es| :: ValidEntry(es[i])
    ensures ParseEntries(EmitEntries(es)) == Some(es)
  {
    if es != [] {
      EntriesParse(es[1..]);
      EntryParse(es);
      assert es == [es[0]] + es[1..];
    }
  }

  lemma EntryParse(es: seq<FieldEntry>)
    requires es != [] && ValidEntry(es[0])
    requires ParseEntries(EmitEntries(es[1..])) == Some(es[1..])
    ensures ParseEntries(EmitEntries(es)) == Some([es[0]] + es[1..])
  {
    var front := if es[0].Named? then es[0].name else [0x00];
    var len, more := PkgLength(es[0].bits, false), EmitEntries(es[1..]);
    assert EmitEntries(es) == front + len + more;
    Behind(front, len, more);
    PkgLengthParse(es[0].bits, false, more);
    if es[0].Named? { Front(front, len, more); }
  }

  lemma Front(front: seq<byte>, s: seq<byte>, tail: seq<byte>)
    ensures (front + s + tail)[..|front|] == front
  {
  }

  // ----------------------------------------------------------- terms round trip

  lemma BufferParse(d: seq<byte>, tail: seq<byte>)
    requires Valid(Buffer(d))
    ensures var inner := EmitInteger(|d|) + d;
            ParseBuffer(PkgLength(|inner|, true) + inner + tail) == Got(Buffer(d), tail)
  {
    PackageParse(EmitInteger(|d|) + d, tail);
    IntegerParse(|d|, d);
  }

  lemma FieldDeclParse(region: Path, flags: byte, entries: seq<FieldEntry>, tail: seq<byte>)
    requires Valid(FieldDecl(region, flags, entries))
    ensures var inner := EmitPath(region) + [flags] + EmitEntries(entries);
            ParseFieldDecl(PkgLength(|inner|, true) + inner + tail) == Got(FieldDecl(region, flags, entries), tail)
  {
    var inner := EmitPath(region) + [flags] + EmitEntries(entries);
    PackageParse(inner, tail);
    Assoc(EmitPath(region), [flags], EmitEntries(entries));
    PathParse(region, [flags] + EmitEntries(entries));
    assert ([flags] + EmitEntries(entries))[1..] == EmitEntries(entries);
    EntriesParse(entries);
  }

  ghost predicate LeafReadsBack(t: Term, tail: seq<byte>) {
    Emit(t) != [] && LeafLead(Emit(t) + tail) && ParseLeaf(Emit(t) + tail) == Got(t, tail)
  }

  lemma TextLeaf(s: seq<byte>, tail: seq<byte>)
    requires Valid(Text(s))
    ensures LeafReadsBack(Text(s), tail)
  {
    TextParse(s, tail);
    TextBytes(s, tail);
  }

  lemma TextBytes(s: seq<byte>, tail: seq<byte>)
    ensures ([STRINGOP] + s + [0x00] + tail)[0] == STRINGOP
    ensures ([STRINGOP] + s + [0x00] + tail)[1..] == s + [0x00] + tail
  {
  }

  lemma BufferLeaf(d: seq<byte>, tail: seq<byte>)
    requires Valid(Buffer(d))
    ensures LeafReadsBack(Buffer(d), tail)
  {
    BufferParse(d, tail);
    var inner := EmitInteger(|d|) + d;
    BlockBytes([BUFFEROP], PkgLength(|inner|, true), inner, tail);
  }

  lemma FieldDeclLeaf(region: Path, flags: byte, entries: seq<FieldEntry>, tail: seq<byte>)
    requires Valid(FieldDecl(region, flags, entries))
    ensures LeafReadsBack(FieldDecl(region, flags, entries), tail)
  {
    FieldDeclParse(region, flags, entries, tail);
    var inner := EmitPath(region) + [flags] + EmitEntries(entries);
    BlockBytes([EXTOPPREFIX, FIELDOP], PkgLength(|inner|, true), inner, tail);
  }

  lemma LeafParse(t: Term, tail: seq<byte>)
    requires Valid(t) && !t.Node?
    ensures LeafReadsBack(t, tail)
  {
    match t
    case Ones => assert ([ONESOP] + tail)[1..] == tail;
    case Integer(n) => IntegerParse(n, tail);
    case Text(s) => TextLeaf(s, tail);
    case Reference(p) => PathParse(p, tail);
    case Buffer(d) => BufferLeaf(d, tail);
    case FieldDecl(region, flags, entries) => FieldDeclLeaf(region, flags, entries, tail);
  }

  lemma BlockBytes(front: seq<byte>, len: seq<byte>, inner: seq<byte>, tail: seq<byte>)
    ensures (front + len + inner + tail)[|front|..] == len + inner + tail
    ensures forall i | 0 <= i < |front| :: (front + len + inner + tail)[i] == front[i]
    ensures |front + len + inner + tail| == |front| + |len| + |inner| + |tail|
  {
  }

  lemma OpcodeParse(op: nat, rest: seq<byte>)
    requires SignatureOf(op).Some?
    ensures var b := Opcode(op) + rest;
            b != [] && !LeafLead(b) && ParseOp(b) == Got(op, rest)
  {
    var b := Opcode(op) + rest;
    assert b[|Opcode(op)|..] == rest;
  }

  /** The parser recovers every valid term and stops exactly at the bytes that follow it. */
  lemma {:induction false} ParseEmit(t: Term, tail: seq<byte>)
    requires Valid(t)
    ensures Emit(t) != [] && ParseTerm(Emit(t) + tail) == Got(t, tail)
    decreases t
  {
    if !t.Node? {
      LeafParse(t, tail);
    } else {
      var sig := SignatureOf(t.op).value;
      var inner := EmitOperands(t.operands) + EmitAll(t.body);
      if sig.block {
        OperandsParse(t.operands, sig.operands, EmitAll(t.body));
        TermsParse(t.body);
        BlockParse(t, tail);
      } else {
        OperandsParse(t.operands, sig.operands, tail);
        FixedParse(t, tail);
      }
    }
  }

  lemma Assoc4(a: seq<byte>, b: seq<byte>, c: seq<byte>, d: seq<byte>)
    ensures a + b + c + d == a + (b + c + d)
  {
  }

  lemma BlockParse(t: Term, tail: seq<byte>)
    requires t.Node? && Valid(t) && IsBlock(t.op)
    requires ParseOperands(SignatureOf(t.op).value.operands, EmitOperands(t.operands) + EmitAll(t.body))
             == Got(t.operands, EmitAll(t.body))
    requires ParseTerms(EmitAll(t.body)) == Some(t.body)
    ensures Emit(t) != [] && ParseTerm(Emit(t) + tail) == Got(t, tail)
  {
    var inner := EmitOperands(t.operands) + EmitAll(t.body);
    var rest := PkgLength(|inner|, true) + inner + tail;
    OpcodeParse(t.op, rest);
    PackageParse(inner, tail);
    Assoc4(Opcode(t.op), PkgLength(|inner|, true), inner, tail);
    ParseBlockNode(Opcode(t.op) + rest, t, rest, inner, EmitAll(t.body), tail);
  }

  lemma ParseBlockNode(b: seq<byte>, t: Term, r: seq<byte>, inner: seq<byte>, more: seq<byte>, tail: seq<byte>)
    requires b != [] && !LeafLead(b) && t.Node? && ParseOp(b) == Got(t.op, r) && |r| < |b|
    requires IsBlock(t.op) && ParsePackage(r) == Got(inner, tail)
    requires ParseOperands(SignatureOf(t.op).value.operands, inner) == Got(t.operands, more)
    requires ParseTerms(more) == Some(t.body)
    ensures ParseTerm(b) == Got(t, tail)
  {
  }

  lemma FixedParse(t: Term, tail: seq<byte>)
    requires t.Node? && Valid(t) && !IsBlock(t.op)
    requires ParseOperands(SignatureOf(t.op).value.operands, EmitOperands(t.operands) + tail) == Got(t.operands, tail)
    ensures Emit(t) != [] && ParseTerm(Emit(t) + tail) == Got(t, tail)
  {
    var rest := EmitOperands(t.operands) + tail;
    OpcodeParse(t.op, rest);
    FixedBytes(t, tail);
    ParseFixedNode(Opcode(t.op) + rest, t, rest, tail);
  }

  lemma FixedBytes(t: Term, tail: seq<byte>)
    requires t.Node? && !IsBlock(t.op) && t.body == []
    ensures Emit(t) + tail == Opcode(t.op) + (EmitOperands(t.operands) + tail)
  {
  }

  lemma ParseFixedNode(b: seq<byte>, t: Term, r: seq<byte>, tail: seq<byte>)
    requires b != [] && !LeafLead(b) && t.Node? && ParseOp(b) == Got(t.op, r) && |r| < |b|
    requires SignatureOf(t.op).Some? && !IsBlock(t.op) && t.body == []
    requires ParseOperands(SignatureOf(t.op).value.operands, r) == Got(t.operands, tail)
    ensures ParseTerm(b) == Got(t, tail)
  {
  }

  lemma {:induction false} OperandParse(o: Operand, k: OperandKind, tail: seq<byte>)
    requires OperandIs(o, k) && ValidOperand(o)
    ensures ParseOperand(k, EmitOperand(o) + tail) == Got(o, tail)
    decreases o
  {
    match o
    case OfPath(p) => PathParse(p, tail);
    case OfByte(b) => assert ([b] + tail)[1..] == tail;
    case OfWord(w) => Pow256Values(); LeParse(w, 2, tail);
    case OfTerm(t) => ParseEmit(t, tail);
  }

  lemma {:induction false} OperandsParse(os: seq<Operand>, ks: seq<OperandKind>, tail: seq<byte>)
    requires |os| == |ks| && forall i | 0 <= i < |os| :: OperandIs(os[i], ks[i]) && ValidOperand(os[i])
    ensures ParseOperands(ks, EmitOperands(os) + tail) == Got(os, tail)
    decreases os
  {
    if os == [] {
      assert EmitOperands(os) + tail == tail;
    } else {
      OperandsParse(os[1..], ks[1..], tail);
      OperandParse(os[0], ks[0], EmitOperands(os[1..]) + tail);
      Assoc(EmitOperand(os[0]), EmitOperands(os[1..]), tail);
      assert os == [os[0]] + os[1..];
    }
  }

  lemma {:induction false} TermsParse(ts: seq<Term>)
    requires forall i | 0 <= i < |ts| :: Valid(ts[i])
    ensures ParseTerms(EmitAll(ts)) == Some(ts)
    decreases ts
  {
    if ts != [] {
      TermsParse(ts[1..]);
      ParseEmit(ts[0], EmitAll(ts[1..]));
      TermsCons(ts);
    }
  }

  lemma TermsCons(ts: seq<Term>)
    requires ts != [] && ParseTerms(EmitAll(ts[1..])) == Some(ts[1..])
    requires ParseTerm(Emit(ts[0]) + EmitAll(ts[1..])) == Got(ts[0], EmitAll(ts[1..]))
    ensures ParseTerms(EmitAll(ts)) == Some(ts)
  {
    assert ts == [ts[0]] + ts[1..];
  }

  /** Hence no term's encoding is a prefix of another's. */
  lemma EmitPrefixFree(t: Term, u: Term, s: seq<byte>, r: seq<byte>)
    requires Valid(t) && Valid(u) && Emit(t) + s == Emit(u) + r
    ensures t == u && s == r
  {
    ParseEmit(t, s);
    ParseEmit(u, r);
  }

  // ---------------------------------------------------------- objects of the generator

  /** A package counts its children in one byte. */
  function Package(children: seq<Term>): Term {
    Node(0x12, [OfByte(CountByte(|children|))], children)
  }

  function CountByte(n: nat): byte {
    n % 256
  }

  /** A method keeps its argument count in three bits of its flags and its serialization in the fourth. */
  function Method(path: Path, args: byte, serialized: bool, children: seq<Term>): Term {
    Node(0x14, [OfPath(path), OfByte(Flags(args, serialized))], children)
  }

  function Flags(args: byte, serialized: bool): byte {
    args % 8 + if serialized then 8 else 0
  }

  lemma MethodFlags(args: byte, serialized: bool)
    ensures (Flags(args, serialized) % 8 == args <==> args <= 7) && (Flags(args, serialized) >= 8 <==> serialized)
  {
  }

  /** What a parser makes of an emitted term: the term, and exactly the bytes that follow. */
  ghost predicate ReadsBack(t: Term, tail: seq<byte>) {
    ParseTerm(Emit(t) + tail) == Got(t, tail)
  }

  lemma TermReadsBack(t: Term, tail: seq<byte>)
    requires Valid(t)
    ensures ReadsBack(t, tail)
  {
    ParseEmit(t, tail);
  }

  /** A package is read back with its elements, and their count is right exactly up to 255 of them. */
  lemma PackageReadsBack(children: seq<Term>, tail: seq<byte>)
    requires Valid(Package(children))
    ensures ReadsBack(Package(children), tail)
    ensures Package(children).operands[0] == OfByte(CountByte(|children|))
    ensures CountByte(|children|) == |children| <==> |children| <= 255
  {
    TermReadsBack(Package(children), tail);
    InOneByte(|children|);
  }

  lemma InOneByte(n: nat)
    ensures CountByte(n) == n <==> n <= 255
  {
  }

  /** A method is read back with its flags; the argument count in them is right exactly up to seven. */
  lemma MethodReadsBack(path: Path, args: byte, serialized: bool, children: seq<Term>, tail: seq<byte>)
    requires Valid(Method(path, args, serialized, children))
    ensures ReadsBack(Method(path, args, serialized, children), tail)
    ensures var flags := Method(path, args, serialized, children).operands[1].b;
      (flags % 8 == args <==> args <= 7) && (flags >= 8 <==> serialized)
  {
    TermReadsBack(Method(path, args, serialized, children), tail);
    MethodFlags(args, serialized);
  }

  // ------------------------------------------------------------- worked examples

  function Seg(name: string): seq<byte>
    requires |name| == 4 && forall i | 0 <= i < 4 :: name[i] as int < 256
  {
    [name[0] as int, name[1] as int, name[2] as int, name[3] as int]
  }

  /** Integers of one, two and four bytes, the least significant first. */
  lemma NumberExamples()
    ensures EmitInteger(0x86) == [0x0a, 0x86] && EmitInteger(0xf00d) == [0x0b, 0x0d, 0xf0]
    ensures EmitInteger(0xdecaf) == [0x0c, 0xaf, 0xec, 0x0d, 0x00]
  {
    assert ToLe(0xf00d, 2) == [0x0d, 0xf0];
    assert ToLe(0xdecaf, 4) == [0xaf] + ToLe(0xdec, 3) == [0xaf, 0xec] + ToLe(0xd, 2);
  }

  lemma Flat1(a: seq<byte>)
    ensures Flatten([a]) == a
  {
    assert [a][1..] == [];
  }

  lemma Flat2(a: seq<byte>, b: seq<byte>)
    ensures Flatten([a, b]) == a + b
  {
    assert [a, b][1..] == [b];
    Flat1(b);
  }

  lemma Flat3(a: seq<byte>, b: seq<byte>, c: seq<byte>)
    ensures Flatten([a, b, c]) == a + (b + c)
  {
    assert [a, b, c][1..] == [b, c];
    Flat2(b, c);
  }

  /** Paths of one, two and three segments. */
  lemma PathExamples()
    ensures EmitPath(Path(true, [Seg("_SB_")])) == [0x5c, 0x5f, 0x53, 0x42, 0x5f]
    ensures EmitPath(Path(false, [Seg("_SB_"), Seg("COM1")])) ==
            [0x2e, 0x5f, 0x53, 0x42, 0x5f, 0x43, 0x4f, 0x4d, 0x31]
    ensures EmitPath(Path(false, [Seg("_SB_"), Seg("PCI0"), Seg("_HID")])) ==
            [0x2f, 0x03, 0x5f, 0x53, 0x42, 0x5f, 0x50, 0x43, 0x49, 0x30, 0x5f, 0x48, 0x49, 0x44]
  {
    Flat1(Seg("_SB_"));
    Flat2(Seg("_SB_"), Seg("COM1"));
    Flat3(Seg("_SB_"), Seg("PCI0"), Seg("_HID"));
  }

  lemma OneOperand(o: Operand)
    ensures EmitOperands([o]) == EmitOperand(o)
  {
    assert [o][1..] == [];
  }

  lemma TwoOperands(o: Operand, q: Operand)
    ensures EmitOperands([o, q]) == EmitOperand(o) + EmitOperand(q)
  {
    assert [o, q][1..] == [q];
    OneOperand(q);
  }

  lemma OneTerm(t: Term)
    ensures EmitAll([t]) == Emit(t)
  {
    assert [t][1..] == [];
  }

  /** A package of one element, five. */
  lemma PackageExample()
    ensures Emit(Package([Integer(5)])) == [0x12, 0x04, 0x01, 0x0a, 0x05]
  {
    OneOperand(OfByte(1));
    OneTerm(Integer(5));
    assert Emit(Integer(5)) == [0x0a, 0x05];
  }

  /** A method without arguments that returns fifteen. */
  lemma MethodExample()
    ensures Emit(Method(Path(false, [Seg("_STA")]), 0, false, [Node(0xa4, [OfTerm(Integer(0xf))], [])])) ==
            [0x14, 0x09, 0x5f, 0x53, 0x54, 0x41, 0x00, 0xa4, 0x0a, 0x0f]
  {
    var p, ret := Path(false, [Seg("_STA")]), Node(0xa4, [OfTerm(Integer(0xf))], []);
    Flat1(Seg("_STA"));
    assert EmitPath(p) == [0x5f, 0x53, 0x54, 0x41];
    TwoOperands(OfPath(p), OfByte(Flags(0, false)));
    ReturnExample();
    OneTerm(ret);
  }

  lemma ReturnExample()
    ensures Emit(Node(0xa4, [OfTerm(Integer(0xf))], [])) == [0xa4, 0x0a, 0x0f]
  {
    OneOperand(OfTerm(Integer(0xf)));
    assert Emit(Integer(0xf)) == [0x0a, 0x0f];
  }
}
