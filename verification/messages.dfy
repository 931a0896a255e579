/**
 * The 9P2000.L messages and their size-delimited frames. A message is its type code and
 * the values of its fields; `FieldsT` and `FieldsR` list the field types of every message
 * in declaration order.
 */
module Messages {
  import opened Bytes
  import opened WireFormat

  const TLERROR: u8 := 6
  const RLERROR: u8 := 7
  const TSTATFS: u8 := 8
  const TLOPEN: u8 := 12
  const TLCREATE: u8 := 14
  const TSYMLINK: u8 := 16
  const TMKNOD: u8 := 18
  const TRENAME: u8 := 20
  const TREADLINK: u8 := 22
  const TGETATTR: u8 := 24
  const TSETATTR: u8 := 26
  const TXATTRWALK: u8 := 30
  const TXATTRCREATE: u8 := 32
  const TREADDIR: u8 := 40
  const TFSYNC: u8 := 50
  const TLOCK: u8 := 52
  const TGETLOCK: u8 := 54
  const TLINK: u8 := 70
  const TMKDIR: u8 := 72
  const TRENAMEAT: u8 := 74
  const TUNLINKAT: u8 := 76
  const TVERSION: u8 := 100
  const TAUTH: u8 := 102
  const TATTACH: u8 := 104
  const TFLUSH: u8 := 108
  const TWALK: u8 := 110
  const TREAD: u8 := 116
  const TWRITE: u8 := 118
  const TCLUNK: u8 := 120
  const TREMOVE: u8 := 122

  const QID := TupleKind([U8, U32, U64]) // type, version, path

  function FieldsT(ty: u8): Option<seq<Kind>> {
    if ty == TSTATFS then Some([U32])                                    // fid
    else if ty == TLOPEN then Some([U32, U32])                           // fid flags
    else if ty == TLCREATE then Some([U32, Str, U32, U32, U32])          // fid name flags mode gid
    else if ty == TSYMLINK then Some([U32, Str, Str, U32])               // fid name symtgt gid
    else if ty == TMKNOD then Some([U32, Str, U32, U32, U32, U32])       // dfid name mode major minor gid
    else if ty == TRENAME then Some([U32, U32, Str])                     // fid dfid name
    else if ty == TREADLINK then Some([U32])                             // fid
    else if ty == TGETATTR then Some([U32, U64])                         // fid request_mask
    else if ty == TSETATTR then                                          // fid valid mode uid gid size, then
      Some([U32, U32, U32, U32, U32, U64, U64, U64, U64, U64])           // atime and mtime, seconds and nanoseconds
    else if ty == TXATTRWALK then Some([U32, U32, Str])                  // fid newfid name
    else if ty == TXATTRCREATE then Some([U32, Str, U64, U32])           // fid name attr_size flags
    else if ty == TREADDIR then Some([U32, U64, U32])                    // fid offset count
    else if ty == TFSYNC then Some([U32, U32])                           // fid datasync
    else if ty == TLOCK then Some([U32, U8, U32, U64, U64, U32, Str])    // fid type flags start length proc_id client_id
    else if ty == TGETLOCK then Some([U32, U8, U64, U64, U32, Str])      // fid type start length proc_id client_id
    else if ty == TLINK then Some([U32, U32, Str])                       // dfid fid name
    else if ty == TMKDIR then Some([U32, Str, U32, U32])                 // dfid name mode gid
    else if ty == TRENAMEAT then Some([U32, Str, U32, Str])              // olddirfid oldname newdirfid newname
    else if ty == TUNLINKAT then Some([U32, Str, U32])                   // dirfd name flags
    else if ty == TVERSION then Some([U32, Str])                         // msize version
    else if ty == TAUTH then Some([U32, Str, Str, U32])                  // afid uname aname n_uname
    else if ty == TATTACH then Some([U32, U32, Str, Str, U32])           // fid afid uname aname n_uname
    else if ty == TFLUSH then Some([U16])                                // oldtag
    else if ty == TWALK then Some([U32, U32, Vec(Str)])                  // fid newfid wnames
    else if ty == TREAD then Some([U32, U64, U32])                       // fid offset count
    else if ty == TWRITE then Some([U32, U64, Blob])                     // fid offset data
    else if ty == TCLUNK then Some([U32])                                // fid
    else if ty == TREMOVE then Some([U32])                               // fid
    else None
  }

  function FieldsR(ty: u8): Option<seq<Kind>> {
    if ty == RLERROR then Some([U32])                                    // ecode
    else if ty == TSTATFS + 1 then                                       // type bsize blocks bfree bavail files ffree
      Some([U32, U32, U64, U64, U64, U64, U64, U64, U32])                // fsid namelen
    else if ty == TLOPEN + 1 then Some([QID, U32])                       // qid iounit
    else if ty == TLCREATE + 1 then Some([QID, U32])                     // qid iounit
    else if ty == TSYMLINK + 1 then Some([QID])                          // qid
    else if ty == TMKNOD + 1 then Some([QID])                            // qid
    else if ty == TRENAME + 1 then Some([])
    else if ty == TREADLINK + 1 then Some([Str])                         // target
    else if ty == TGETATTR + 1 then                                      // valid qid mode uid gid nlink rdev size
      Some([U64, QID, U32, U32, U32, U64, U64, U64, U64, U64,            // blksize blocks, the seconds and nanoseconds
            U64, U64, U64, U64, U64, U64, U64, U64, U64, U64])           // of four times, gen data_version
    else if ty == TSETATTR + 1 then Some([])
    else if ty == TXATTRWALK + 1 then Some([U64])                        // size
    else if ty == TXATTRCREATE + 1 then Some([])
    else if ty == TREADDIR + 1 then Some([Blob])                         // data
    else if ty == TFSYNC + 1 then Some([])
    else if ty == TLOCK + 1 then Some([U8])                              // status
    else if ty == TGETLOCK + 1 then Some([U8, U64, U64, U32, Str])       // type start length proc_id client_id
    else if ty == TLINK + 1 then Some([])
    else if ty == TMKDIR + 1 then Some([QID])                            // qid
    else if ty == TRENAMEAT + 1 then Some([])
    else if ty == TUNLINKAT + 1 then Some([])
    else if ty == TVERSION + 1 then Some([U32, Str])                     // msize version
    else if ty == TAUTH + 1 then Some([QID])                             // aqid
    else if ty == TATTACH + 1 then Some([QID])                           // qid
    else if ty == TFLUSH + 1 then Some([])
    else if ty == TWALK + 1 then Some([Vec(QID)])                        // wqids
    else if ty == TREAD + 1 then Some([Blob])                            // data
    else if ty == TWRITE + 1 then Some([U32])                            // count
    else if ty == TCLUNK + 1 then Some([])
    else if ty == TREMOVE + 1 then Some([])
    else None
  }

  /** A T or an R message; `Typed` says that its fields are those its type code announces. */
  datatype Message = Message(ty: u8, fields: seq<Value>)

  ghost predicate Typed(m: Message, kinds: Option<seq<Kind>>) {
    kinds.Some? && WellTyped(m.fields, kinds.value)
  }

  /** A decoded T frame keeps its tag even when its body is malformed. */
  datatype Tframe = Tframe(tag: u16, msg: Parsed)
  datatype Parsed = Ok(m: Message) | Bad(e: ErrorKind)
  datatype Rframe = Rframe(tag: u16, msg: Message)

  // ---------------------------------------------------------------- framing

  const HEADER_SIZE: nat := 7 // size, type and tag

  function MessageSize(m: Message, ks: seq<Kind>): nat {
    HEADER_SIZE + Size(Tuple(m.fields), TupleKind(ks))
  }

  function Body(m: Message, ks: seq<Kind>): Written {
    Encode(Tuple(m.fields), TupleKind(ks))
  }

  function Frame(size: nat, ty: u8, tag: u16, body: seq<byte>): seq<byte> {
    ToLe(if size < 0x1_0000_0000 then size else size % 0x1_0000_0000, 4) + ([ty] + ToLe(tag, 2)) + body
  }

  function EncodeMessage(tag: u16, m: Message, ks: seq<Kind>): Written {
    Written(Frame(MessageSize(m, ks), m.ty, tag, Body(m, ks).bytes), Body(m, ks).ok)
  }

  /** What is read before the body: type, tag, the bytes the size field grants to the body, and what lies beyond. */
  datatype Header = Header(ty: u8, tag: u16, window: seq<byte>, beyond: seq<byte>)

  /** The size field as `decode` reads it; only T frames reject a size below 4, R frames wrap around. */
  function DecodeHeader(b: seq<byte>, checked: bool): Decoded<Header> {
    match DecodeInt(4, b)
    case Fail(e, r) => Fail(e, r)
    case Done(size, r) =>
      if checked && size < 4 then Fail(InvalidData, r)
      else
        var limit := if size >= 4 then size - 4 else 0x1_0000_0000 + size - 4;
        var window, beyond := Take(r, limit), Beyond(r, limit);
        if |window| < 3 then Fail(UnexpectedEof, beyond)
        else
          Pow256Values();
          Done(Header(window[0], FromLe(window[1..3]), window[3..], beyond), beyond)
  }

  function DecodeBody(ty: u8, kinds: Option<seq<Kind>>, window: seq<byte>): Decoded<Message> {
    if kinds.None? then Fail(InvalidData, window)
    else
      match Decode(TupleKind(kinds.value), window)
      case Fail(e, r) => Fail(e, r)
      case Done(v, r) => Done(Message(ty, Untuple(v, |kinds.value|)), r)
  }

  function EncodeT(f: Tframe): Written {
    match f.msg
    case Bad(_) => Written([], false)
    case Ok(m) => if FieldsT(m.ty).None? then Written([], false) else EncodeMessage(f.tag, m, FieldsT(m.ty).value)
  }

  function DecodeT(b: seq<byte>): Decoded<Tframe> {
    match DecodeHeader(b, true)
    case Fail(e, r) => Fail(e, r)
    case Done(h, _) =>
      match DecodeBody(h.ty, FieldsT(h.ty), h.window)
      case Fail(e, r) => Done(Tframe(h.tag, Bad(e)), r + h.beyond)
      case Done(m, r) => Done(Tframe(h.tag, Ok(m)), r + h.beyond)
  }

  function EncodeR(f: Rframe): Written {
    if FieldsR(f.msg.ty).None? then Written([], false) else EncodeMessage(f.tag, f.msg, FieldsR(f.msg.ty).value)
  }

  function DecodeR(b: seq<byte>): Decoded<Rframe> {
    match DecodeHeader(b, false)
    case Fail(e, r) => Fail(e, r)
    case Done(h, _) =>
      match DecodeBody(h.ty, FieldsR(h.ty), h.window)
      case Fail(e, r) => Fail(e, r + h.beyond)
      case Done(m, r) => Done(Rframe(h.tag, m), r + h.beyond)
  }

  // ------------------------------------------------------------- round trips

  /** Well typed, with strings and vectors of at most 65535, data of at most 32 MiB and a size below 2^32. */
  ghost predicate Sendable(m: Message, kinds: Option<seq<Kind>>) {
    && Typed(m, kinds)
    && Fits(Tuple(m.fields))
    && MessageSize(m, kinds.value) < 0x1_0000_0000
  }

  ghost predicate SendableT(f: Tframe) {
    f.msg.Ok? && Sendable(f.msg.m, FieldsT(f.msg.m.ty))
  }

  ghost predicate SendableR(f: Rframe) {
    Sendable(f.msg, FieldsR(f.msg.ty))
  }

  lemma BodyRoundTrip(m: Message, kinds: Option<seq<Kind>>, tail: seq<byte>)
    requires Sendable(m, kinds)
    ensures var w := Body(m, kinds.value);
            && w.ok && |w.bytes| == MessageSize(m, kinds.value) - HEADER_SIZE
            && DecodeBody(m.ty, kinds, w.bytes + tail) == Done(m, tail)
  {
    TupleTyped(m.fields, kinds.value);
    RoundTrip(Tuple(m.fields), TupleKind(kinds.value), tail);
    UntupleTuple(m.fields);
  }

  lemma Pieces(size: seq<byte>, mid: seq<byte>, body: seq<byte>, tail: seq<byte>)
    requires |size| == 4 && |mid| == 3
    ensures size + mid + body + tail == size + (mid + body + tail)
    ensures Take(mid + body + tail, 3 + |body|) == mid + body && Beyond(mid + body + tail, 3 + |body|) == tail
    ensures (mid + body)[1..3] == mid[1..3] && (mid + body)[3..] == body
  {
  }

  lemma HeaderRoundTrip(ty: u8, tag: u16, body: seq<byte>, tail: seq<byte>, checked: bool)
    requires HEADER_SIZE + |body| < 0x1_0000_0000
    ensures DecodeHeader(Frame(HEADER_SIZE + |body|, ty, tag, body) + tail, checked)
            == Done(Header(ty, tag, body, tail), tail)
  {
    var size := HEADER_SIZE + |body|;
    var mid := [ty] + ToLe(tag, 2);
    Pieces(ToLe(size, 4), mid, body, tail);
    IntRoundTrip(size, U32, mid + body + tail);
    assert mid[1..3] == ToLe(tag, 2);
    IntLimit(U16);
    LeRoundTrip(tag, 2);
  }

  lemma MessageRoundTrip(tag: u16, m: Message, kinds: Option<seq<Kind>>, tail: seq<byte>, checked: bool)
    requires Sendable(m, kinds)
    ensures var w := EncodeMessage(tag, m, kinds.value);
            && w.ok && |w.bytes| == MessageSize(m, kinds.value)
            && DecodeHeader(w.bytes + tail, checked) ==
               Done(Header(m.ty, tag, Body(m, kinds.value).bytes, tail), tail)
  {
    BodyRoundTrip(m, kinds, []);
    HeaderRoundTrip(m.ty, tag, Body(m, kinds.value).bytes, tail, checked);
  }

  /** A T frame is written in `byte_size` bytes and read back with exactly those consumed. */
  lemma RoundTripT(f: Tframe, tail: seq<byte>)
    requires SendableT(f)
    ensures EncodeT(f).ok && |EncodeT(f).bytes| == MessageSize(f.msg.m, FieldsT(f.msg.m.ty).value)
    ensures DecodeT(EncodeT(f).bytes + tail) == Done(f, tail)
  {
    var m := f.msg.m;
    MessageRoundTrip(f.tag, m, FieldsT(m.ty), tail, true);
    BodyRoundTrip(m, FieldsT(m.ty), []);
    var body := Body(m, FieldsT(m.ty).value).bytes;
    assert body + [] == body && [] + tail == tail;
  }

  /** The same for an R frame. */
  lemma RoundTripR(f: Rframe, tail: seq<byte>)
    requires SendableR(f)
    ensures EncodeR(f).ok && |EncodeR(f).bytes| == MessageSize(f.msg, FieldsR(f.msg.ty).value)
    ensures DecodeR(EncodeR(f).bytes + tail) == Done(f, tail)
  {
    var m := f.msg;
    MessageRoundTrip(f.tag, m, FieldsR(m.ty), tail, false);
    BodyRoundTrip(m, FieldsR(m.ty), []);
    var body := Body(m, FieldsR(m.ty).value).bytes;
    assert body + [] == body && [] + tail == tail;
  }

  // ------------------------------------------------------------ layout on the wire

  /** A number in little-endian order; `LeByte` says what each byte is. */
  function Le(n: nat, k: Kind): seq<byte> {
    ToLe(n, k.Width())
  }

  /** Size, type and tag. */
  function Front(size: nat, ty: u8, tag: u16): seq<byte> {
    Le(size, U32) + ([ty] + Le(tag, U16))
  }

  /** The fields one after the other, each in its own form. */
  function FieldBytes(vs: seq<Value>, ks: seq<Kind>): seq<byte>
    requires |vs| == |ks|
  {
    if vs == [] then [] else Encode(vs[0], ks[0]).bytes + FieldBytes(vs[1..], ks[1..])
  }

  lemma {:induction false} BodyLayout(vs: seq<Value>, ks: seq<Kind>)
    requires WellTyped(vs, ks) && Writable(Tuple(vs))
    ensures Encode(Tuple(vs), TupleKind(ks)).bytes == FieldBytes(vs, ks)
  {
    if |vs| == 1 {
      assert vs[1..] == [] && FieldBytes(vs[1..], ks[1..]) == [];
      assert Encode(vs[0], ks[0]).bytes + [] == Encode(vs[0], ks[0]).bytes;
    } else if |vs| > 1 {
      BodyLayout(vs[1..], ks[1..]);
      EncodeWritable(vs[0], ks[0]);
      TupleTyped(vs[1..], ks[1..]);
      EncodeWritable(Tuple(vs[1..]), TupleKind(ks[1..]));
      EncodeBoth(vs[0], ks[0], Tuple(vs[1..]), TupleKind(ks[1..]));
    }
  }

  /** A frame is its size, type and tag, and then its fields in the order of their declaration. */
  lemma FrameLayout(tag: u16, m: Message, ks: seq<Kind>)
    requires Encodable(m, Some(ks))
    ensures EncodeMessage(tag, m, ks) ==
            Written(Front(MessageSize(m, ks), m.ty, tag) + FieldBytes(m.fields, ks), true)
  {
    BodyLayout(m.fields, ks);
    BodyReadsBackIff(m, Some(ks));
  }

  lemma ThreeFields(a: Value, b: Value, c: Value, k: Kind, l: Kind, n: Kind)
    ensures FieldBytes([a, b, c], [k, l, n]) == Encode(a, k).bytes + (Encode(b, l).bytes + Encode(c, n).bytes)
  {
    assert [a, b, c][1..] == [b, c] && [k, l, n][1..] == [l, n];
    assert [b, c][1..] == [c] && [l, n][1..] == [n];
    assert [c][1..] == [] && [n][1..] == [];
    assert FieldBytes([c], [n]) == Encode(c, n).bytes + [] == Encode(c, n).bytes;
  }

  /** Strings and lists follow their count in two bytes, data theirs in four, and lists hold their items in turn. */
  lemma ValueLayout(s: seq<byte>, d: seq<byte>, v: Value, vs: seq<Value>, elem: Kind)
    requires |s| <= MAX_STRING && |d| <= 0xffff_ffff && |vs| < MAX_VECTOR && Encode(v, elem).ok
    ensures Encode(Text(s), Str).bytes == Le(|s|, U16) + s && Encode(Data(d), Blob).bytes == Le(|d|, U32) + d
    ensures Encode(List(vs), Vec(elem)).bytes == Le(|vs|, U16) + EncodeItems(vs, elem).bytes
    ensures EncodeItems([v] + vs, elem).bytes == Encode(v, elem).bytes + EncodeItems(vs, elem).bytes
  {
    EncodeItemsCons(v, vs, elem);
  }

  /** A Tread on the wire: size, type 116, tag, fid, offset, count. */
  lemma TreadLayout(tag: u16, fid: u32, offset: u64, count: u32)
    ensures EncodeT(Tframe(tag, Ok(Message(116, [Num(fid), Num(offset), Num(count)])))) ==
            Written(Front(23, 116, tag) + (Le(fid, U32) + (Le(offset, U64) + Le(count, U32))), true)
  {
    var m, ks := Message(116, [Num(fid), Num(offset), Num(count)]), [U32, U64, U32];
    ThreeFields(Num(fid), Num(offset), Num(count), U32, U64, U32);
    NumberBytes(fid, U32);
    NumberBytes(offset, U64);
    NumberBytes(count, U32);
    ThreeNumbers(fid, offset, count);
    FrameLayout(tag, m, ks);
    EncodedAs(tag, m, ks);
  }

  lemma NumberBytes(n: nat, k: Kind)
    ensures Encode(Num(n), k).bytes == Le(n, k)
  {
  }

  lemma EncodedAs(tag: u16, m: Message, ks: seq<Kind>)
    requires FieldsT(m.ty) == Some(ks)
    ensures EncodeT(Tframe(tag, Ok(m))) == EncodeMessage(tag, m, ks)
  {
  }

  lemma ThreeNumbers(a: u32, b: u64, c: u32)
    ensures var vs, ks := [Num(a), Num(b), Num(c)], [U32, U64, U32];
            WellTyped(vs, ks) && Writable(Tuple(vs)) && Size(Tuple(vs), TupleKind(ks)) == 16
  {
    var v, k := Both(Num(a), Both(Num(b), Num(c))), Pair(U32, Pair(U64, U32));
    Tuple3(Num(a), Num(b), Num(c));
    TupleKind3(U32, U64, U32);
    assert Size(v, k) == 4 + Size(v.snd, k.snd) && Size(v.snd, k.snd) == 12;
    WritablePair(Num(b), Num(c));
    WritablePair(Num(a), v.snd);
  }

  lemma WritablePair(a: Value, b: Value)
    requires Writable(a) && Writable(b)
    ensures Writable(Both(a, b))
  {
  }

  /** An Rlerror: size, type 7, tag, code. */
  lemma RlerrorLayout(tag: u16, code: u32)
    ensures EncodeR(Rframe(tag, Message(7, [Num(code)]))) ==
            Written(Front(11, 7, tag) + Le(code, U32), true)
  {
  }

  /** An Rread: size, type 117, tag, and the data after their length. */
  lemma RreadLayout(tag: u16, d: seq<byte>)
    requires 11 + |d| < 0x1_0000_0000
    ensures EncodeR(Rframe(tag, Message(117, [Data(d)]))) ==
            Written(Front(11 + |d|, 117, tag) + (Le(|d|, U32) + d), true)
  {
  }

  // ------------------------------------------------------- data over 32 MiB

  /** Well typed, with the lengths the encoder accepts and a size below 2^32. */
  ghost predicate Encodable(m: Message, kinds: Option<seq<Kind>>) {
    && Typed(m, kinds)
    && Writable(Tuple(m.fields))
    && MessageSize(m, kinds.value) < 0x1_0000_0000
  }

  lemma SendableEncodable(m: Message, kinds: Option<seq<Kind>>)
    requires Sendable(m, kinds)
    ensures Encodable(m, kinds)
  {
    FitsWritable(Tuple(m.fields));
  }

  lemma BodyReadsBackIff(m: Message, kinds: Option<seq<Kind>>)
    requires Encodable(m, kinds)
    ensures var w := Body(m, kinds.value);
            && w.ok && |w.bytes| == MessageSize(m, kinds.value) - HEADER_SIZE
            && (Fits(Tuple(m.fields)) ==> DecodeBody(m.ty, kinds, w.bytes) == Done(m, []))
            && (!Fits(Tuple(m.fields)) ==> DecodeBody(m.ty, kinds, w.bytes).Fail?)
  {
    var v, ks := Tuple(m.fields), kinds.value;
    TupleTyped(m.fields, ks);
    EncodeWritable(v, TupleKind(ks));
    ReadsBackIff(v, TupleKind(ks), []);
    assert Body(m, ks).bytes + [] == Body(m, ks).bytes;
    if Fits(v) { BodyRoundTrip(m, kinds, []); }
  }

  /**
   * Every frame the encoder accepts is written in `byte_size` bytes, and it is read back exactly if no data in it
   * is longer than 32 MiB; a longer one makes the whole R frame undecodable.
   */
  lemma ReadsBackR(f: Rframe, tail: seq<byte>)
    requires Encodable(f.msg, FieldsR(f.msg.ty))
    ensures EncodeR(f).ok && |EncodeR(f).bytes| == MessageSize(f.msg, FieldsR(f.msg.ty).value)
    ensures var d := DecodeR(EncodeR(f).bytes + tail);
            (d == Done(f, tail) <==> Fits(Tuple(f.msg.fields))) && (d.Fail? <==> !Fits(Tuple(f.msg.fields)))
  {
    var m := f.msg;
    var body := Body(m, FieldsR(m.ty).value).bytes;
    BodyReadsBackIff(m, FieldsR(m.ty));
    HeaderRoundTrip(m.ty, f.tag, body, tail, false);
    assert [] + tail == tail;
  }

  /** The same for a T frame, except that its decoder still yields the tag of a frame it cannot read. */
  lemma ReadsBackT(tag: u16, m: Message, tail: seq<byte>)
    requires Encodable(m, FieldsT(m.ty))
    ensures var w := EncodeT(Tframe(tag, Ok(m)));
            && w.ok && |w.bytes| == MessageSize(m, FieldsT(m.ty).value)
            && DecodeT(w.bytes + tail).Done? && DecodeT(w.bytes + tail).value.tag == tag
            && (DecodeT(w.bytes + tail) == Done(Tframe(tag, Ok(m)), tail) <==> Fits(Tuple(m.fields)))
            && (DecodeT(w.bytes + tail).value.msg.Bad? <==> !Fits(Tuple(m.fields)))
  {
    var body := Body(m, FieldsT(m.ty).value).bytes;
    BodyReadsBackIff(m, FieldsT(m.ty));
    HeaderRoundTrip(m.ty, tag, body, tail, true);
    assert [] + tail == tail;
  }

  // ---------------------------------------------------------- arbitrary input

  /**
   * On arbitrary bytes: the remainder is a suffix, a malformed body costs at most the declared
   * size, and an accepted message is sendable and takes exactly the bytes that were consumed.
   */
  lemma DecodeTCanonical(b: seq<byte>)
    ensures SuffixOf(DecodeT(b).rest, b)
    ensures DecodeT(b).Done? ==>
              var f, used := DecodeT(b).value, |b| - |DecodeT(b).rest|;
              && |b| >= 4 && HEADER_SIZE <= used <= FromLe(b[..4])
              && (f.msg.Ok? ==> SendableT(f) && MessageSize(f.msg.m, FieldsT(f.msg.m.ty).value) == used)
  {
    if DecodeHeader(b, true).Done? {
      var h := DecodeHeader(b, true).value;
      HeaderCanonical(b);
      if FieldsT(h.ty).Some? { BodyCanonical(h.ty, FieldsT(h.ty).value, h.window); }
      var r := DecodeBody(h.ty, FieldsT(h.ty), h.window).rest;
      SuffixAppend(r, h.window, h.beyond, b);
    }
  }

  lemma HeaderCanonical(b: seq<byte>)
    requires DecodeHeader(b, true).Done?
    ensures var h := DecodeHeader(b, true).value;
            && |b| >= 7 && |h.window| + |h.beyond| == |b| - 7
            && h.window + h.beyond == b[7..]
            && |h.window| + 7 <= FromLe(b[..4]) < 0x1_0000_0000
            && h.ty == b[4] && h.tag == FromLe(b[5..7])
  {
    IntLimit(U32);
    HeaderPieces(b, FromLe(b[..4]));
  }

  lemma HeaderPieces(b: seq<byte>, size: nat)
    requires |b| >= 4 && size >= 4 && |Take(b[4..], size - 4)| >= 3
    ensures var window, beyond := Take(b[4..], size - 4), Beyond(b[4..], size - 4);
            && |b| >= 7 && window[3..] + beyond == b[7..] && |window| + 4 <= size
            && window[0] == b[4] && window[1..3] == b[5..7]
  {
    var window := Take(b[4..], size - 4);
    assert window[1..3] == b[4..][1..3];
  }

  lemma BodyCanonical(ty: u8, ks: seq<Kind>, window: seq<byte>)
    ensures var d := DecodeBody(ty, Some(ks), window);
            && SuffixOf(d.rest, window)
            && (d.Done? ==> && Typed(d.value, Some(ks)) && Fits(Tuple(d.value.fields)) && d.value.ty == ty
                            && MessageSize(d.value, ks) == HEADER_SIZE + |window| - |d.rest|)
  {
    DecodeCanonical(TupleKind(ks), window);
    var d := Decode(TupleKind(ks), window);
    if d.Done? { UntupleTyped(d.value, ks); }
  }

  lemma SuffixAppend(r: seq<byte>, window: seq<byte>, beyond: seq<byte>, b: seq<byte>)
    requires SuffixOf(r, window) && |b| >= 7 && window + beyond == b[7..]
    ensures SuffixOf(r + beyond, b)
  {
  }

  /** Decoding what was decoded and re-encoded gives the same frame. */
  lemma DecodeTStable(b: seq<byte>, tail: seq<byte>)
    requires DecodeT(b).Done? && DecodeT(b).value.msg.Ok?
    ensures var f := DecodeT(b).value;
            && EncodeT(f).ok && |EncodeT(f).bytes| == |b| - |DecodeT(b).rest|
            && DecodeT(EncodeT(f).bytes + tail) == Done(f, tail)
  {
    DecodeTCanonical(b);
    RoundTripT(DecodeT(b).value, tail);
  }

  /**
   * Re-encoding is the identity on the consumed bytes exactly when the size field is
   * the number of bytes consumed and no string was cut short.
   */
  lemma ReencodeT(b: seq<byte>)
    requires DecodeT(b).Done? && DecodeT(b).value.msg.Ok?
    ensures var d := DecodeT(b);
            var h := DecodeHeader(b, true).value;
            EncodeT(d.value).bytes == Consumed(b, d.rest) <==>
            FromLe(b[..4]) == |b| - |d.rest| && !CutShort(TupleKind(FieldsT(h.ty).value), h.window)
  {
    var h := DecodeHeader(b, true).value;
    var ks := FieldsT(h.ty).value;
    var d := DecodeBody(h.ty, Some(ks), h.window);
    HeaderCanonical(b);
    BodyCanonical(h.ty, ks, h.window);
    UntupleIsInverse(ks, h.window);
    ReencodeIdentity(TupleKind(ks), h.window);
    DecodeTStable(b, []);
    FrameIdentity(b, h, d.rest, Body(d.value, ks).bytes);
  }

  /** A Tversion that announces a version of `n` bytes and ends there. */
  function CutVersion(tag: u16, msize: u32, n: u16): seq<byte> {
    Frame(HEADER_SIZE + 6, TVERSION, tag, ToLe(msize, 4) + ToLe(n, 2))
  }

  /** Its version is taken to be empty, so unless none was announced it is not what re-encoding it gives. */
  lemma CutVersionLoses(tag: u16, msize: u32, n: u16)
    ensures var b, f := CutVersion(tag, msize, n), Tframe(tag, Ok(Message(TVERSION, [Num(msize), Text([])])));
            DecodeT(b) == Done(f, []) && EncodeT(f).ok && (EncodeT(f).bytes == b <==> n == 0)
  {
    CutVersionDecodes(tag, msize, n);
    EmptyVersion(tag, msize);
    if n > 0 { CutVersionsDiffer(tag, msize, n); }
  }

  lemma CutVersionDecodes(tag: u16, msize: u32, n: u16)
    ensures DecodeT(CutVersion(tag, msize, n)) ==
            Done(Tframe(tag, Ok(Message(TVERSION, [Num(msize), Text([])]))), [])
  {
    var body := ToLe(msize, 4) + ToLe(n, 2);
    HeaderRoundTrip(TVERSION, tag, body, [], true);
    assert CutVersion(tag, msize, n) + [] == CutVersion(tag, msize, n);
    CutBody(msize, n);
  }

  lemma VersionFields()
    ensures FieldsT(TVERSION).value == [U32, Str] && TupleKind([U32, Str]) == Pair(U32, Str)
  {
    assert [U32, Str][1..] == [Str];
  }

  lemma EmptyVersion(tag: u16, msize: u32)
    ensures EncodeT(Tframe(tag, Ok(Message(TVERSION, [Num(msize), Text([])])))) ==
            Written(CutVersion(tag, msize, 0), true)
  {
    VersionFields();
    var v := Both(Num(msize), Text([]));
    assert Tuple([Num(msize), Text([])]) == v by { assert [Num(msize), Text([])][1..] == [Text([])]; }
    assert Encode(v, Pair(U32, Str)) == Written(ToLe(msize, 4) + ToLe(0, 2), true) by {
      assert ToLe(0, 2) + [] == ToLe(0, 2);
    }
    assert Size(v, Pair(U32, Str)) == 6;
  }

  lemma CutVersionsDiffer(tag: u16, msize: u32, n: u16)
    requires n > 0
    ensures CutVersion(tag, msize, n) != CutVersion(tag, msize, 0)
  {
    assert CutVersion(tag, msize, n)[11..] == ToLe(n, 2) && CutVersion(tag, msize, 0)[11..] == ToLe(0, 2);
    Pow256Values();
    LeRoundTrip(n, 2);
    LeRoundTrip(0, 2);
  }

  lemma CutBody(msize: u32, n: u16)
    ensures DecodeBody(TVERSION, FieldsT(TVERSION), ToLe(msize, 4) + ToLe(n, 2)) ==
            Done(Message(TVERSION, [Num(msize), Text([])]), [])
  {
    VersionFields();
    IntRoundTrip(msize, U32, ToLe(n, 2));
    IntRoundTrip(n, U16, []);
    assert ToLe(n, 2) + [] == ToLe(n, 2);
    assert Untuple(Both(Num(msize), Text([])), 2) == [Num(msize), Text([])];
  }

  lemma FrameIdentity(b: seq<byte>, h: Header, r: seq<byte>, body: seq<byte>)
    requires |b| >= 7 && h.window + h.beyond == b[7..] && SuffixOf(r, h.window)
    requires h.ty == b[4] && h.tag == FromLe(b[5..7])
    requires |body| == |h.window| - |r| && HEADER_SIZE + |body| < 0x1_0000_0000
    ensures Frame(HEADER_SIZE + |body|, h.ty, h.tag, body) == Consumed(b, r + h.beyond) <==>
            FromLe(b[..4]) == HEADER_SIZE + |body| && body == Consumed(h.window, r)
  {
    var size := HEADER_SIZE + |body|;
    IntLimit(U32);
    LeUnique(size, b[..4]);
    TypeAndTag(b);
    ConsumedSplit(b, h.window, h.beyond, r, ToLe(size, 4), body);
  }

  lemma TypeAndTag(b: seq<byte>)
    requires |b| >= 7
    ensures [b[4]] + ToLe(FromLe(b[5..7]), 2) == b[4..7]
  {
  }

  lemma UntupleIsInverse(ks: seq<Kind>, window: seq<byte>)
    requires Decode(TupleKind(ks), window).Done?
    ensures Tuple(Untuple(Decode(TupleKind(ks), window).value, |ks|)) == Decode(TupleKind(ks), window).value
  {
  }

  lemma ConsumedSplit(b: seq<byte>, window: seq<byte>, beyond: seq<byte>, r: seq<byte>, size: seq<byte>, body: seq<byte>)
    requires |b| >= 7 && window + beyond == b[7..] && SuffixOf(r, window)
    requires |size| == 4 && |body| == |window| - |r|
    ensures size + b[4..7] + body == Consumed(b, r + beyond) <==> size == b[..4] && body == Consumed(window, r)
  {
    var c := Consumed(b, r + beyond);
    assert c == b[..7] + Consumed(window, r) by {
      assert b == b[..7] + (window + beyond);
    }
    assert b[..7] == b[..4] + b[4..7];
    ConcatEq(size + b[4..7], body, c);
    ConcatEq(size, b[4..7], b);
    assert c[..7] == b[..7] && c[7..] == Consumed(window, r) && c[..|c|] == c;
    assert b[4..][..3] == b[4..7];
  }
}
