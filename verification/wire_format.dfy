/**
 * The 9P wire codec: little-endian integers, u16-counted strings and vectors and
 * u32-counted data, and the derived codec of a struct, which is that of its fields
 * in declaration order.
 */
module WireFormat {
  import opened Bytes

  const MAX_STRING: nat := 0xffff
  const MAX_VECTOR: nat := 0xffff
  const MAX_DATA_LENGTH: nat := 32 * 1024 * 1024

  datatype ErrorKind = UnexpectedEof | InvalidData | InvalidInput

  /** The outcome of a decoder, with the bytes the reader still holds. */
  datatype Decoded<+T> = Done(value: T, rest: seq<byte>) | Fail(error: ErrorKind, rest: seq<byte>)

  /** What an encoder left in the writer, and whether it returned `Ok`. */
  datatype Written = Written(bytes: seq<byte>, ok: bool)

  /** Wire types; a struct is the nested pair of its fields. */
  datatype Kind = U8 | U16 | U32 | U64 | Str | Blob | Unit | Pair(fst: Kind, snd: Kind) | Vec(elem: Kind) {
    predicate IsInt() {
      U8? || U16? || U32? || U64?
    }

    function Width(): nat {
      match this
      case U8 => 1
      case U16 => 2
      case U32 => 4
      case U64 => 8
      case _ => 0
    }

    function Limit(): nat {
      match this
      case U8 => 0x100
      case U16 => 0x1_0000
      case U32 => 0x1_0000_0000
      case U64 => 0x1_0000_0000_0000_0000
      case _ => 1
    }

    function Fst(): Kind {
      if Pair? then fst else Unit
    }

    function Snd(): Kind {
      if Pair? then snd else Unit
    }

    function Elem(): Kind {
      if Vec? then elem else Unit
    }
  }

  datatype Value =
    | Num(n: nat)
    | Text(utf8: seq<byte>)
    | Data(data: seq<byte>)
    | Nothing
    | Both(fst: Value, snd: Value)
    | List(items: seq<Value>)

  // ---------------------------------------------------------------- UTF-8

  predicate Continuation(c: byte) {
    0x80 <= c <= 0xbf
  }

  /** The length of the well-formed sequence at `s[i]`, 0 if there is none (Unicode Standard, table 3-7). */
  function Utf8Lead(s: seq<byte>, i: nat): (n: nat)
    requires i < |s|
    ensures i + n <= |s|
  {
    var c, left := s[i], |s| - i;
    if c <= 0x7f then 1
    else if 0xc2 <= c <= 0xdf && left >= 2 && Continuation(s[i + 1]) then 2
    else if left >= 3 && Continuation(s[i + 2]) &&
            ((c == 0xe0 && 0xa0 <= s[i + 1] <= 0xbf) || (0xe1 <= c <= 0xec && Continuation(s[i + 1])) ||
             (c == 0xed && 0x80 <= s[i + 1] <= 0x9f) || (0xee <= c <= 0xef && Continuation(s[i + 1]))) then 3
    else if left >= 4 && Continuation(s[i + 2]) && Continuation(s[i + 3]) &&
            ((c == 0xf0 && 0x90 <= s[i + 1] <= 0xbf) || (0xf1 <= c <= 0xf3 && Continuation(s[i + 1])) ||
             (c == 0xf4 && 0x80 <= s[i + 1] <= 0x8f)) then 4
    else 0
  }

  predicate ValidUtf8From(s: seq<byte>, i: nat)
    requires i <= |s|
    decreases |s| - i
  {
    i == |s| || (Utf8Lead(s, i) > 0 && ValidUtf8From(s, i + Utf8Lead(s, i)))
  }

  predicate ValidUtf8(s: seq<byte>) {
    ValidUtf8From(s, 0)
  }

  // ------------------------------------------------------- typing and size

  ghost predicate HasKind(v: Value, k: Kind)
    decreases k
  {
    match k
    case Str => v.Text? && ValidUtf8(v.utf8)
    case Blob => v.Data?
    case Unit => v.Nothing?
    case Pair(a, b) => v.Both? && HasKind(v.fst, a) && HasKind(v.snd, b)
    case Vec(elem) => v.List? && forall i | 0 <= i < |v.items| :: HasKind(v.items[i], elem)
    case _ => v.Num? && v.n < k.Limit()
  }

  /** The lengths that survive a round trip: counts fit 16 bits and data is at most 32 MiB. */
  ghost predicate Fits(v: Value) {
    match v
    case Num(_) => true
    case Text(s) => |s| <= MAX_STRING
    case Data(d) => |d| <= MAX_DATA_LENGTH
    case Nothing => true
    case Both(a, b) => Fits(a) && Fits(b)
    case List(items) => |items| <= MAX_VECTOR && forall i | 0 <= i < |items| :: Fits(items[i])
  }

  /** The lengths the encoder accepts: counts fit 16 bits and the length of data fits 32. */
  ghost predicate Writable(v: Value) {
    match v
    case Num(_) => true
    case Text(s) => |s| <= MAX_STRING
    case Data(d) => |d| <= 0xffff_ffff
    case Nothing => true
    case Both(a, b) => Writable(a) && Writable(b)
    case List(items) => |items| <= MAX_VECTOR && forall i | 0 <= i < |items| :: Writable(items[i])
  }

  /** `byte_size`, before its truncation to 32 bits. */
  function Size(v: Value, k: Kind): nat
    decreases v
  {
    match v
    case Num(_) => k.Width()
    case Text(s) => 2 + |s|
    case Data(d) => 4 + |d|
    case Nothing => 0
    case Both(a, b) => Size(a, k.Fst()) + Size(b, k.Snd())
    case List(items) => 2 + ItemsSize(items, k.Elem())
  }

  function ItemsSize(items: seq<Value>, elem: Kind): nat
    decreases items
  {
    if items == [] then 0 else Size(items[0], elem) + ItemsSize(items[1..], elem)
  }

  // -------------------------------------------------------------- encoding

  function EncodeScalar(v: Value, width: nat): Written {
    match v
    case Num(n) => Written(ToLe(n, width), true)
    case Text(s) => if |s| > MAX_STRING then Written([], false) else Written(ToLe(|s|, 2) + s, true)
    case Data(d) => if |d| > 0xffff_ffff then Written([], false) else Written(ToLe(|d|, 4) + d, true)
    case _ => Written([], true)
  }

  function Encode(v: Value, k: Kind): Written
    decreases v
  {
    match v
    case Both(a, b) =>
      var w := Encode(a, k.Fst());
      if !w.ok then w
      else
        var w' := Encode(b, k.Snd());
        Written(w.bytes + w'.bytes, w'.ok)
    case List(items) =>
      if |items| > MAX_VECTOR then Written([], false)
      else
        var w := EncodeItems(items, k.Elem());
        Written(ToLe(|items|, 2) + w.bytes, w.ok)
    case _ => EncodeScalar(v, k.Width())
  }

  function EncodeItems(items: seq<Value>, elem: Kind): Written
    decreases items
  {
    if items == [] then Written([], true)
    else
      var w := Encode(items[0], elem);
      if !w.ok then w
      else
        var w' := EncodeItems(items[1..], elem);
        Written(w.bytes + w'.bytes, w'.ok)
  }

  // -------------------------------------------------------------- decoding

  /** `read_exact` into a `k`-byte integer; a short read drains the reader. */
  function DecodeInt(k: nat, b: seq<byte>): Decoded<nat> {
    if |b| < k then Fail(UnexpectedEof, []) else Done(FromLe(b[..k]), b[k..])
  }

  /** A string's body: `take(len).read_to_string` accepts fewer than `len` bytes. */
  function DecodeText(len: nat, b: seq<byte>): Decoded<Value> {
    if ValidUtf8(Take(b, len)) then Done(Text(Take(b, len)), Beyond(b, len))
    else Fail(InvalidData, Beyond(b, len))
  }

  function DecodeData(len: nat, b: seq<byte>): Decoded<Value> {
    if len > MAX_DATA_LENGTH then Fail(InvalidData, b)
    else if |b| < len then Fail(UnexpectedEof, [])
    else Done(Data(b[..len]), b[len..])
  }

  function DecodeScalar(k: Kind, b: seq<byte>): Decoded<Value> {
    match k
    case Str => (match DecodeInt(2, b) case Fail(e, r) => Fail(e, r) case Done(len, r) => DecodeText(len, r))
    case Blob => (match DecodeInt(4, b) case Fail(e, r) => Fail(e, r) case Done(len, r) => DecodeData(len, r))
    case Unit => Done(Nothing, b)
    case _ => (match DecodeInt(k.Width(), b) case Fail(e, r) => Fail(e, r) case Done(n, r) => Done(Num(n), r))
  }

  function Decode(k: Kind, b: seq<byte>): Decoded<Value>
    decreases k, 0, 0
  {
    match k
    case Pair(fst, snd) =>
      (match Decode(fst, b)
       case Fail(e, r) => Fail(e, r)
       case Done(x, r) =>
         match Decode(snd, r) case Fail(e, r') => Fail(e, r') case Done(y, r') => Done(Both(x, y), r'))
    case Vec(elem) =>
      (match DecodeInt(2, b)
       case Fail(e, r) => Fail(e, r)
       case Done(len, r) =>
         match DecodeItems(elem, len, r) case Fail(e, r') => Fail(e, r') case Done(vs, r') => Done(List(vs), r'))
    case _ => DecodeScalar(k, b)
  }

  function DecodeItems(elem: Kind, n: nat, b: seq<byte>): Decoded<seq<Value>>
    decreases elem, 1, n
  {
    if n == 0 then Done([], b)
    else
      match Decode(elem, b)
      case Fail(e, r) => Fail(e, r)
      case Done(v, r) =>
        match DecodeItems(elem, n - 1, r) case Fail(e, r') => Fail(e, r') case Done(vs, r') => Done([v] + vs, r')
  }

  // ------------------------------------------------------------ round trip

  lemma IntLimit(k: Kind)
    requires k.IsInt()
    ensures k.Limit() == Pow256(k.Width())
  {
    Pow256Values();
  }

  lemma IntRoundTrip(n: nat, k: Kind, tail: seq<byte>)
    requires k.IsInt() && n < k.Limit()
    ensures DecodeInt(k.Width(), ToLe(n, k.Width()) + tail) == Done(n, tail)
  {
    IntLimit(k);
    LeRoundTrip(n, k.Width());
    assert (ToLe(n, k.Width()) + tail)[..k.Width()] == ToLe(n, k.Width());
  }

  predicate Scalar(k: Kind) {
    !k.Pair? && !k.Vec?
  }

  /** Integers, strings, data and the unit. */
  lemma ScalarRoundTrip(v: Value, k: Kind, tail: seq<byte>)
    requires Scalar(k) && HasKind(v, k) && Fits(v)
    ensures var w := EncodeScalar(v, k.Width());
            w.ok && |w.bytes| == Size(v, k) && DecodeScalar(k, w.bytes + tail) == Done(v, tail)
  {
    match v
    case Num(n) => IntRoundTrip(n, k, tail);
    case Text(s) =>
      IntRoundTrip(|s|, U16, s + tail);
      Assoc(ToLe(|s|, 2), s, tail);
      assert Take(s + tail, |s|) == s && Beyond(s + tail, |s|) == tail;
    case Data(d) =>
      IntRoundTrip(|d|, U32, d + tail);
      Assoc(ToLe(|d|, 4), d, tail);
    case Nothing => assert [] + tail == tail;
  }

  ghost predicate ReadsBack(v: Value, k: Kind, tail: seq<byte>) {
    && Encode(v, k).ok && |Encode(v, k).bytes| == Size(v, k)
    && Decode(k, Encode(v, k).bytes + tail) == Done(v, tail)
  }

  lemma VecUnfold(elem: Kind, b: seq<byte>, len: nat, r: seq<byte>)
    requires DecodeInt(2, b) == Done(len, r) && DecodeItems(elem, len, r).Done?
    ensures Decode(Vec(elem), b) == Done(List(DecodeItems(elem, len, r).value), DecodeItems(elem, len, r).rest)
  {
  }

  lemma VecRoundTrip(items: seq<Value>, elem: Kind, tail: seq<byte>)
    requires |items| <= MAX_VECTOR
    requires ItemsReadBack(items, elem, tail)
    ensures ReadsBack(List(items), Vec(elem), tail)
  {
    var w := EncodeItems(items, elem).bytes;
    IntRoundTrip(|items|, U16, w + tail);
    Assoc(ToLe(|items|, 2), w, tail);
    VecUnfold(elem, ToLe(|items|, 2) + (w + tail), |items|, w + tail);
  }

  /** Whatever fits is written in full, in `Size` bytes, and read back with nothing else consumed. */
  lemma {:induction false} RoundTrip(v: Value, k: Kind, tail: seq<byte>)
    requires HasKind(v, k) && Fits(v)
    ensures ReadsBack(v, k, tail)
    decreases v
  {
    match v
    case Both(a, b) =>
      RoundTrip(b, k.snd, tail);
      RoundTrip(a, k.fst, Encode(b, k.snd).bytes + tail);
      Assoc(Encode(a, k.fst).bytes, Encode(b, k.snd).bytes, tail);
    case List(items) =>
      ItemsRoundTrip(items, k.elem, tail);
      VecRoundTrip(items, k.elem, tail);
    case _ => ScalarRoundTrip(v, k, tail);
  }

  lemma {:induction false} ItemsRoundTrip(items: seq<Value>, elem: Kind, tail: seq<byte>)
    requires forall i | 0 <= i < |items| :: HasKind(items[i], elem) && Fits(items[i])
    ensures ItemsReadBack(items, elem, tail)
    decreases items
  {
    if items != [] {
      ItemsRoundTrip(items[1..], elem, tail);
      RoundTrip(items[0], elem, EncodeItems(items[1..], elem).bytes + tail);
      ItemsCons(items, elem, tail);
    }
  }

  ghost predicate ItemsReadBack(items: seq<Value>, elem: Kind, tail: seq<byte>) {
    && EncodeItems(items, elem).ok && |EncodeItems(items, elem).bytes| == ItemsSize(items, elem)
    && DecodeItems(elem, |items|, EncodeItems(items, elem).bytes + tail) == Done(items, tail)
  }

  lemma EncodeItemsCons(v: Value, vs: seq<Value>, elem: Kind)
    requires Encode(v, elem).ok
    ensures EncodeItems([v] + vs, elem) ==
            Written(Encode(v, elem).bytes + EncodeItems(vs, elem).bytes, EncodeItems(vs, elem).ok)
  {
  }

  lemma ItemsCons(items: seq<Value>, elem: Kind, tail: seq<byte>)
    requires items != [] && ItemsReadBack(items[1..], elem, tail)
    requires ReadsBack(items[0], elem, EncodeItems(items[1..], elem).bytes + tail)
    ensures ItemsReadBack(items, elem, tail)
  {
    Assoc(Encode(items[0], elem).bytes, EncodeItems(items[1..], elem).bytes, tail);
    assert items == [items[0]] + items[1..];
  }

  // ------------------------------------------------------- data over 32 MiB

  lemma {:induction false} FitsWritable(v: Value)
    requires Fits(v)
    ensures Writable(v)
  {
    match v
    case Both(a, b) => FitsWritable(a); FitsWritable(b);
    case List(items) => forall i | 0 <= i < |items| ensures Writable(items[i]) { FitsWritable(items[i]); }
    case _ =>
  }

  /** Whatever is writable is written in full, in `Size` bytes. */
  lemma {:induction false} EncodeWritable(v: Value, k: Kind)
    requires HasKind(v, k) && Writable(v)
    ensures Encode(v, k).ok && |Encode(v, k).bytes| == Size(v, k)
    decreases v
  {
    match v
    case Both(a, b) => EncodeWritable(a, k.fst); EncodeWritable(b, k.snd);
    case List(items) => ItemsWritable(items, k.elem);
    case _ =>
  }

  lemma {:induction false} ItemsWritable(items: seq<Value>, elem: Kind)
    requires forall i | 0 <= i < |items| :: HasKind(items[i], elem) && Writable(items[i])
    ensures EncodeItems(items, elem).ok && |EncodeItems(items, elem).bytes| == ItemsSize(items, elem)
    decreases items
  {
    if items != [] {
      EncodeWritable(items[0], elem);
      ItemsWritable(items[1..], elem);
    }
  }

  ghost predicate Rejected(v: Value, k: Kind, tail: seq<byte>) {
    Decode(k, Encode(v, k).bytes + tail).Fail?
  }

  lemma ScalarRejected(v: Value, k: Kind, tail: seq<byte>)
    requires Scalar(k) && HasKind(v, k) && Writable(v) && !Fits(v)
    ensures Rejected(v, k, tail)
  {
    var d := v.data;
    IntRoundTrip(|d|, U32, d + tail);
    Assoc(ToLe(|d|, 4), d, tail);
  }

  lemma PairRejected(a: Value, b: Value, k: Kind, tail: seq<byte>)
    requires k.Pair? && Encode(a, k.fst).ok
    requires var rest := Encode(b, k.snd).bytes + tail;
      Rejected(a, k.fst, rest) || (ReadsBack(a, k.fst, rest) && Rejected(b, k.snd, tail))
    ensures Rejected(Both(a, b), k, tail)
  {
    Assoc(Encode(a, k.fst).bytes, Encode(b, k.snd).bytes, tail);
  }

  /** The decoder refuses what holds more than 32 MiB of data in one piece, though the encoder wrote it. */
  lemma {:induction false} UnfitRejected(v: Value, k: Kind, tail: seq<byte>)
    requires HasKind(v, k) && Writable(v) && !Fits(v)
    ensures Rejected(v, k, tail)
    decreases v
  {
    match v
    case Both(a, b) =>
      var rest := Encode(b, k.snd).bytes + tail;
      EncodeWritable(a, k.fst);
      if Fits(a) {
        RoundTrip(a, k.fst, rest);
        UnfitRejected(b, k.snd, tail);
      } else {
        UnfitRejected(a, k.fst, rest);
      }
      PairRejected(a, b, k, tail);
    case List(items) =>
      var w := EncodeItems(items, k.elem).bytes;
      ItemsRejected(items, k.elem, tail);
      IntRoundTrip(|items|, U16, w + tail);
      Assoc(ToLe(|items|, 2), w, tail);
    case _ => ScalarRejected(v, k, tail);
  }

  lemma {:induction false} ItemsRejected(items: seq<Value>, elem: Kind, tail: seq<byte>)
    requires forall i | 0 <= i < |items| :: HasKind(items[i], elem) && Writable(items[i])
    requires exists i | 0 <= i < |items| :: !Fits(items[i])
    ensures DecodeItems(elem, |items|, EncodeItems(items, elem).bytes + tail).Fail?
    decreases items
  {
    var rest := EncodeItems(items[1..], elem).bytes;
    EncodeWritable(items[0], elem);
    Assoc(Encode(items[0], elem).bytes, rest, tail);
    if Fits(items[0]) {
      RoundTrip(items[0], elem, rest + tail);
      assert exists i | 0 <= i < |items[1..]| :: !Fits(items[1..][i]) by {
        var i :| 0 <= i < |items| && !Fits(items[i]);
        assert items[1..][i - 1] == items[i];
      }
      ItemsRejected(items[1..], elem, tail);
    } else {
      UnfitRejected(items[0], elem, rest + tail);
    }
  }

  /** What is written is read back exactly if no piece of data in it is longer than 32 MiB. */
  lemma ReadsBackIff(v: Value, k: Kind, tail: seq<byte>)
    requires HasKind(v, k) && Writable(v)
    ensures ReadsBack(v, k, tail) <==> Fits(v)
    ensures Rejected(v, k, tail) <==> !Fits(v)
  {
    if Fits(v) { RoundTrip(v, k, tail); } else { UnfitRejected(v, k, tail); }
  }

  // ------------------------------------------------------- canonicalisation

  ghost predicate SuffixOf(r: seq<byte>, b: seq<byte>) {
    |r| <= |b| && r == b[|b| - |r|..]
  }

  lemma SuffixTrans(r: seq<byte>, m: seq<byte>, b: seq<byte>)
    requires SuffixOf(r, m) && SuffixOf(m, b)
    ensures SuffixOf(r, b)
  {
  }

  /** Well typed, re-encodable and `n` bytes long. */
  ghost predicate Canonical(v: Value, k: Kind, n: int) {
    HasKind(v, k) && Fits(v) && Size(v, k) == n
  }

  lemma CountCanonical(k: nat, b: seq<byte>)
    requires k <= |b|
    ensures FromLe(b[..k]) < Pow256(k) && SuffixOf(b[k..], b)
  {
  }

  lemma TextCanonical(b: seq<byte>)
    ensures var d := DecodeScalar(Str, b);
            SuffixOf(d.rest, b) && (d.Done? ==> Canonical(d.value, Str, |b| - |d.rest|))
  {
    if |b| >= 2 {
      Pow256Values();
      CountCanonical(2, b);
    }
  }

  lemma DataCanonical(b: seq<byte>)
    ensures var d := DecodeScalar(Blob, b);
            SuffixOf(d.rest, b) && (d.Done? ==> Canonical(d.value, Blob, |b| - |d.rest|))
  {
    if |b| >= 4 { CountCanonical(4, b); }
  }

  lemma ScalarCanonical(k: Kind, b: seq<byte>)
    requires Scalar(k)
    ensures var d := DecodeScalar(k, b);
            SuffixOf(d.rest, b) && (d.Done? ==> Canonical(d.value, k, |b| - |d.rest|))
  {
    match k
    case Str => TextCanonical(b);
    case Blob => DataCanonical(b);
    case Unit =>
    case _ =>
      IntLimit(k);
      if |b| >= k.Width() { CountCanonical(k.Width(), b); }
  }

  ghost predicate DecodesCanonically(k: Kind, b: seq<byte>) {
    && SuffixOf(Decode(k, b).rest, b)
    && (Decode(k, b).Done? ==> Canonical(Decode(k, b).value, k, |b| - |Decode(k, b).rest|))
  }

  ghost predicate ItemsDecodeCanonically(elem: Kind, n: nat, b: seq<byte>) {
    var d := DecodeItems(elem, n, b);
    SuffixOf(d.rest, b) && (d.Done? ==> |d.value| == n && EachCanonical(d.value, elem, |b| - |d.rest|))
  }

  /**
   * On arbitrary bytes a decoder only ever consumes a prefix, and a value it accepts is
   * well typed, re-encodable, and exactly as long as what was consumed.
   */
  lemma {:induction false} DecodeCanonical(k: Kind, b: seq<byte>)
    ensures DecodesCanonically(k, b)
    decreases k, 0, 0
  {
    match k
    case Pair(fst, snd) =>
      DecodeCanonical(fst, b);
      if Decode(fst, b).Done? {
        DecodeCanonical(snd, Decode(fst, b).rest);
      }
      PairCanonical(fst, snd, b);
    case Vec(elem) =>
      if |b| >= 2 {
        DecodeItemsCanonical(elem, FromLe(b[..2]), b[2..]);
      }
      VecCanonical(elem, b);
    case _ => ScalarCanonical(k, b);
  }

  lemma PairCanonical(fst: Kind, snd: Kind, b: seq<byte>)
    requires DecodesCanonically(fst, b)
    requires Decode(fst, b).Done? ==> DecodesCanonically(snd, Decode(fst, b).rest)
    ensures DecodesCanonically(Pair(fst, snd), b)
  {
    var d := Decode(fst, b);
    if d.Done? {
      var e := Decode(snd, d.rest);
      SuffixTrans(e.rest, d.rest, b);
      if e.Done? { BothCanonical(d.value, fst, |b| - |d.rest|, e.value, snd, |d.rest| - |e.rest|); }
    }
  }

  lemma BothCanonical(u: Value, fst: Kind, m: int, v: Value, snd: Kind, n: int)
    requires Canonical(u, fst, m) && Canonical(v, snd, n)
    ensures Canonical(Both(u, v), Pair(fst, snd), m + n)
  {
  }

  lemma VecCanonical(elem: Kind, b: seq<byte>)
    requires |b| >= 2 ==> ItemsDecodeCanonically(elem, FromLe(b[..2]), b[2..])
    ensures DecodesCanonically(Vec(elem), b)
  {
    if |b| >= 2 {
      Pow256Values();
      SuffixTrans(DecodeItems(elem, FromLe(b[..2]), b[2..]).rest, b[2..], b);
    }
  }

  ghost predicate EachCanonical(vs: seq<Value>, elem: Kind, n: int) {
    && ItemsSize(vs, elem) == n
    && forall i | 0 <= i < |vs| :: HasKind(vs[i], elem) && Fits(vs[i])
  }

  lemma ConsEach(v: Value, vs: seq<Value>, elem: Kind, m: int, n: int)
    requires Canonical(v, elem, m) && EachCanonical(vs, elem, n)
    ensures EachCanonical([v] + vs, elem, m + n)
  {
  }

  lemma {:induction false} DecodeItemsCanonical(elem: Kind, n: nat, b: seq<byte>)
    ensures ItemsDecodeCanonically(elem, n, b)
    decreases elem, 1, n
  {
    if n > 0 {
      DecodeCanonical(elem, b);
      if Decode(elem, b).Done? { DecodeItemsCanonical(elem, n - 1, Decode(elem, b).rest); }
      ItemsCanonicalStep(elem, n, b);
    }
  }

  lemma ItemsCanonicalStep(elem: Kind, n: nat, b: seq<byte>)
    requires n > 0 && DecodesCanonically(elem, b)
    requires Decode(elem, b).Done? ==> ItemsDecodeCanonically(elem, n - 1, Decode(elem, b).rest)
    ensures ItemsDecodeCanonically(elem, n, b)
  {
    var d := Decode(elem, b);
    if d.Done? {
      var e := DecodeItems(elem, n - 1, d.rest);
      SuffixTrans(e.rest, d.rest, b);
      if e.Done? { ConsEach(d.value, e.value, elem, |b| - |d.rest|, |d.rest| - |e.rest|); }
    }
  }

  // ------------------------------------------------------------------ structs

  /** A struct value and its type, as nested pairs. */
  function Tuple(vs: seq<Value>): Value {
    if vs == [] then Nothing else if |vs| == 1 then vs[0] else Both(vs[0], Tuple(vs[1..]))
  }

  function TupleKind(ks: seq<Kind>): Kind {
    if ks == [] then Unit else if |ks| == 1 then ks[0] else Pair(ks[0], TupleKind(ks[1..]))
  }

  lemma Tuple3(a: Value, b: Value, c: Value)
    ensures Tuple([a, b, c]) == Both(a, Both(b, c))
  {
    assert [a, b, c][1..] == [b, c];
    assert [b, c][1..] == [c];
    assert Tuple([b, c]) == Both(b, c);
  }

  lemma Tuple4(a: Value, b: Value, c: Value, d: Value)
    ensures Tuple([a, b, c, d]) == Both(a, Both(b, Both(c, d)))
  {
    assert [a, b, c, d][1..] == [b, c, d];
    Tuple3(b, c, d);
  }

  lemma TupleKind3(k: Kind, l: Kind, n: Kind)
    ensures TupleKind([k, l, n]) == Pair(k, Pair(l, n))
  {
    assert [k, l, n][1..] == [l, n];
    assert [l, n][1..] == [n];
    assert TupleKind([l, n]) == Pair(l, n);
  }

  /** The `n` fields of a struct value. */
  function Untuple(v: Value, n: nat): seq<Value> {
    if n == 0 then []
    else if n == 1 then [v]
    else if v.Both? then [v.fst] + Untuple(v.snd, n - 1)
    else [v]
  }

  ghost predicate WellTyped(vs: seq<Value>, ks: seq<Kind>) {
    |vs| == |ks| && forall i | 0 <= i < |ks| :: HasKind(vs[i], ks[i])
  }

  lemma {:induction false} TupleTyped(vs: seq<Value>, ks: seq<Kind>)
    requires WellTyped(vs, ks)
    ensures HasKind(Tuple(vs), TupleKind(ks))
  {
    if |vs| > 1 { TupleTyped(vs[1..], ks[1..]); }
  }

  lemma {:induction false} UntupleTuple(vs: seq<Value>)
    ensures Untuple(Tuple(vs), |vs|) == vs
  {
    if |vs| > 1 {
      UntupleTuple(vs[1..]);
      assert vs == [vs[0]] + vs[1..];
    } else if |vs| == 1 {
      assert vs == [vs[0]];
    }
  }

  lemma {:induction false} UntupleTyped(v: Value, ks: seq<Kind>)
    requires HasKind(v, TupleKind(ks))
    ensures WellTyped(Untuple(v, |ks|), ks) && Tuple(Untuple(v, |ks|)) == v
  {
    if |ks| > 1 {
      UntupleTyped(v.snd, ks[1..]);
      assert Untuple(v, |ks|)[1..] == Untuple(v.snd, |ks| - 1);
    }
  }

  // ------------------------------------------- when re-encoding is the identity

  /** Some string that the decoder accepted was cut short by the end of the input. */
  ghost predicate CutShort(k: Kind, b: seq<byte>)
    decreases k, 0, 0
  {
    match k
    case Str => |b| >= 2 && FromLe(b[..2]) > |b| - 2
    case Pair(fst, snd) => CutShort(fst, b) || (Decode(fst, b).Done? && CutShort(snd, Decode(fst, b).rest))
    case Vec(elem) => |b| >= 2 && ItemsCutShort(elem, FromLe(b[..2]), b[2..])
    case _ => false
  }

  ghost predicate ItemsCutShort(elem: Kind, n: nat, b: seq<byte>)
    decreases elem, 1, n
  {
    n > 0 && (CutShort(elem, b) || (Decode(elem, b).Done? && ItemsCutShort(elem, n - 1, Decode(elem, b).rest)))
  }

  ghost function Consumed(b: seq<byte>, rest: seq<byte>): seq<byte> {
    if |rest| <= |b| then b[..|b| - |rest|] else []
  }

  lemma ConcatEq(a: seq<byte>, b: seq<byte>, s: seq<byte>)
    requires |a| + |b| <= |s|
    ensures a + b == s[..|a| + |b|] <==> a == s[..|a|] && b == s[|a|..][..|b|]
  {
    if a + b == s[..|a| + |b|] {
      assert a == (a + b)[..|a|] == s[..|a|];
      assert b == (a + b)[|a|..];
    }
    if a == s[..|a|] && b == s[|a|..][..|b|] {
      assert s[..|a| + |b|] == s[..|a|] + s[|a|..][..|b|];
    }
  }

  lemma JoinConsumed(e: seq<byte>, e': seq<byte>, b: seq<byte>, r: seq<byte>, r': seq<byte>)
    requires SuffixOf(r, b) && |e| == |b| - |r|
    requires SuffixOf(r', r) && |e'| == |r| - |r'|
    ensures e + e' == Consumed(b, r') <==> e == Consumed(b, r) && e' == Consumed(r, r')
  {
    ConcatEq(e, e', b);
  }

  lemma LeUnique(n: nat, b: seq<byte>)
    requires n < Pow256(|b|)
    ensures ToLe(n, |b|) == b <==> n == FromLe(b)
  {
  }

  lemma ScalarIdentity(k: Kind, b: seq<byte>)
    requires Scalar(k) && DecodeScalar(k, b).Done?
    ensures var d := DecodeScalar(k, b);
            EncodeScalar(d.value, k.Width()).bytes == Consumed(b, d.rest) <==> !CutShort(k, b)
  {
    Pow256Values();
    match DecodeScalar(k, b).value
    case Text(s) =>
      LeUnique(|s|, b[..2]);
      ConcatEq(ToLe(|s|, 2), s, b);
    case Data(d) =>
      LeUnique(|d|, b[..4]);
      ConcatEq(ToLe(|d|, 4), d, b);
    case Num(n) => LeInverse(b[..k.Width()]);
    case _ =>
  }

  lemma ReencodeLength(k: Kind, b: seq<byte>)
    requires Decode(k, b).Done?
    ensures var d := Decode(k, b);
            Encode(d.value, k).ok && SuffixOf(d.rest, b) && |Encode(d.value, k).bytes| == |b| - |d.rest|
  {
    DecodeCanonical(k, b);
    RoundTrip(Decode(k, b).value, k, []);
  }

  lemma ItemsReencodeLength(elem: Kind, n: nat, b: seq<byte>)
    requires DecodeItems(elem, n, b).Done?
    ensures var d := DecodeItems(elem, n, b);
            |d.value| == n && EncodeItems(d.value, elem).ok &&
            SuffixOf(d.rest, b) && |EncodeItems(d.value, elem).bytes| == |b| - |d.rest|
  {
    DecodeItemsCanonical(elem, n, b);
    ItemsRoundTrip(DecodeItems(elem, n, b).value, elem, []);
  }

  /** A decoded value re-encodes to the very bytes consumed, unless a string was cut short. */
  lemma {:induction false} ReencodeIdentity(k: Kind, b: seq<byte>)
    requires Decode(k, b).Done?
    ensures var d := Decode(k, b);
            Encode(d.value, k).bytes == Consumed(b, d.rest) <==> !CutShort(k, b)
    decreases k, 0, 0
  {
    match k
    case Pair(fst, snd) =>
      ReencodeIdentity(fst, b);
      ReencodeIdentity(snd, Decode(fst, b).rest);
      PairReencodeStep(fst, snd, b);
    case Vec(elem) =>
      ItemsIdentity(elem, FromLe(b[..2]), b[2..]);
      VecIdentity(elem, b);
    case _ => ScalarIdentity(k, b);
  }

  lemma VecIdentity(elem: Kind, b: seq<byte>)
    requires Decode(Vec(elem), b).Done?
    requires var n := FromLe(b[..2]);
             var d := DecodeItems(elem, n, b[2..]);
             EncodeItems(d.value, elem).bytes == Consumed(b[2..], d.rest) <==> !ItemsCutShort(elem, n, b[2..])
    ensures var d := Decode(Vec(elem), b);
            Encode(d.value, Vec(elem)).bytes == Consumed(b, d.rest) <==> !CutShort(Vec(elem), b)
  {
    var n := FromLe(b[..2]);
    Pow256Values();
    ItemsReencodeLength(elem, n, b[2..]);
    var d := DecodeItems(elem, n, b[2..]);
    LeInverse(b[..2]);
    JoinConsumed(ToLe(n, 2), EncodeItems(d.value, elem).bytes, b, b[2..], d.rest);
  }

  lemma {:induction false} ItemsIdentity(elem: Kind, n: nat, b: seq<byte>)
    requires DecodeItems(elem, n, b).Done?
    ensures var d := DecodeItems(elem, n, b);
            EncodeItems(d.value, elem).bytes == Consumed(b, d.rest) <==> !ItemsCutShort(elem, n, b)
    decreases elem, 1, n
  {
    if n > 0 {
      ReencodeIdentity(elem, b);
      ItemsIdentity(elem, n - 1, Decode(elem, b).rest);
      ItemsReencodeStep(elem, n, b);
    }
  }

  lemma PairReencodeStep(fst: Kind, snd: Kind, b: seq<byte>)
    requires Decode(Pair(fst, snd), b).Done?
    ensures var d := Decode(fst, b);
            var d' := Decode(snd, d.rest);
            && d.Done? && d'.Done?
            && (Encode(Both(d.value, d'.value), Pair(fst, snd)).bytes == Consumed(b, d'.rest) <==>
                Encode(d.value, fst).bytes == Consumed(b, d.rest) &&
                Encode(d'.value, snd).bytes == Consumed(d.rest, d'.rest))
  {
    var d := Decode(fst, b);
    var d' := Decode(snd, d.rest);
    ReencodeLength(fst, b);
    ReencodeLength(snd, d.rest);
    EncodeBoth(d.value, fst, d'.value, snd);
    JoinConsumed(Encode(d.value, fst).bytes, Encode(d'.value, snd).bytes, b, d.rest, d'.rest);
  }

  lemma EncodeBoth(u: Value, fst: Kind, v: Value, snd: Kind)
    requires Encode(u, fst).ok && Encode(v, snd).ok
    ensures Encode(Both(u, v), Pair(fst, snd)).bytes == Encode(u, fst).bytes + Encode(v, snd).bytes
  {
  }

  lemma ItemsReencodeStep(elem: Kind, n: nat, b: seq<byte>)
    requires n > 0 && DecodeItems(elem, n, b).Done?
    ensures var d := Decode(elem, b);
            var d' := DecodeItems(elem, n - 1, d.rest);
            var e := DecodeItems(elem, n, b);
            && d.Done? && d'.Done?
            && (EncodeItems(e.value, elem).bytes == Consumed(b, e.rest) <==>
                Encode(d.value, elem).bytes == Consumed(b, d.rest) &&
                EncodeItems(d'.value, elem).bytes == Consumed(d.rest, d'.rest))
  {
    var d := Decode(elem, b);
    var d' := DecodeItems(elem, n - 1, d.rest);
    ReencodeLength(elem, b);
    ItemsReencodeLength(elem, n - 1, d.rest);
    EncodeItemsCons(d.value, d'.value, elem);
    JoinConsumed(Encode(d.value, elem).bytes, EncodeItems(d'.value, elem).bytes, b, d.rest, d'.rest);
  }

  // ------------------------------------------------- the stream-moving forms

  class Writer {
    var out: seq<byte>

    method Write(v: Value, k: Kind) returns (ok: bool)
      modifies this
      ensures out == old(out) + Encode(v, k).bytes && ok == Encode(v, k).ok
      decreases v, 0
    {
      match v {
        case Both(a, b) =>
          ok := Write(a, k.Fst());
          if ok { ok := Write(b, k.Snd()); }
        case List(items) =>
          if |items| > MAX_VECTOR { return false; }
          out := out + ToLe(|items|, 2);
          ok := WriteItems(items, k.Elem());
        case _ =>
          var w := EncodeScalar(v, k.Width());
          out, ok := out + w.bytes, w.ok;
      }
    }

    /** The element loop of `Vec<T>::encode`. */
    method WriteItems(items: seq<Value>, elem: Kind) returns (ok: bool)
      modifies this
      ensures out == old(out) + EncodeItems(items, elem).bytes && ok == EncodeItems(items, elem).ok
      decreases items, 1
    {
      ghost var all := EncodeItems(items, elem);
      var i := 0;
      while i < |items|
        invariant 0 <= i <= |items|
        invariant out + EncodeItems(items[i..], elem).bytes == old(out) + all.bytes
        invariant EncodeItems(items[i..], elem).ok == all.ok
      {
        ghost var before := out;
        assert items[i..][0] == items[i] && items[i..][1..] == items[i + 1..];
        ok := Write(items[i], elem);
        if !ok { return; }
        Assoc(before, Encode(items[i], elem).bytes, EncodeItems(items[i + 1..], elem).bytes);
        i := i + 1;
      }
      ok := true;
    }
  }

  datatype Outcome = Got(value: Value) | Error(kind: ErrorKind)

  function OutcomeOf(d: Decoded<Value>): Outcome {
    match d case Done(v, _) => Got(v) case Fail(e, _) => Error(e)
  }

  function Prepend(vs: seq<Value>, d: Decoded<seq<Value>>): Decoded<seq<Value>> {
    match d case Done(ws, r) => Done(vs + ws, r) case Fail(e, r) => Fail(e, r)
  }

  lemma PrependNone(d: Decoded<seq<Value>>)
    ensures Prepend([], d) == d
  {
    if d.Done? { assert [] + d.value == d.value; }
  }

  lemma PrependMore(vs: seq<Value>, v: Value, d: Decoded<seq<Value>>)
    ensures Prepend(vs, Prepend([v], d)) == Prepend(vs + [v], d)
  {
    if d.Done? { Assoc(vs, [v], d.value); }
  }

  class Reader {
    var rest: seq<byte>

    method Read(k: Kind) returns (o: Outcome)
      modifies this
      ensures o == OutcomeOf(Decode(k, old(rest))) && rest == Decode(k, old(rest)).rest
      decreases k, 0
    {
      match k {
        case Pair(fst, snd) =>
          o := Read(fst);
          if o.Got? {
            var a := o.value;
            o := Read(snd);
            if o.Got? { o := Got(Both(a, o.value)); }
          }
        case Vec(elem) =>
          var d := DecodeInt(2, rest);
          rest := d.rest;
          if d.Fail? { return Error(d.error); }
          var vs, e := ReadItems(elem, d.value);
          o := if e.Some? then Error(e.value) else Got(List(vs));
        case _ =>
          var d := DecodeScalar(k, rest);
          rest := d.rest;
          o := OutcomeOf(d);
      }
    }

    /** The element loop of `Vec<T>::decode`. */
    method ReadItems(elem: Kind, n: nat) returns (vs: seq<Value>, e: Option<ErrorKind>)
      modifies this
      ensures match DecodeItems(elem, n, old(rest))
              case Done(ws, r) => e == None && vs == ws && rest == r
              case Fail(err, r) => e == Some(err) && rest == r
      decreases elem, 1
    {
      vs, e := [], None;
      PrependNone(DecodeItems(elem, n, rest));
      var i := 0;
      while i < n
        invariant 0 <= i <= n
        invariant DecodeItems(elem, n, old(rest)) == Prepend(vs, DecodeItems(elem, n - i, rest))
      {
        var o := Read(elem);
        if o.Error? { return vs, Some(o.kind); }
        PrependMore(vs, o.value, DecodeItems(elem, n - i - 1, rest));
        vs := vs + [o.value];
        i := i + 1;
      }
    }
  }
}
