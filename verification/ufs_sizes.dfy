/**
 * Every reply of the file server is well typed, can be encoded, and keeps to the negotiated message size; which
 * can outgrow it, and which a client cannot decode.
 */
module UfsSizes {
  import opened Bytes
  import opened WireFormat
  import opened Messages
  import opened ReadDirs
  import opened Ufs
  import opened UfsRuns

  // -------------------------------------------------------- fields, one by one

  function SizeSum(vs: seq<Value>, ks: seq<Kind>): nat
    requires |vs| == |ks|
  {
    if vs == [] then 0 else Size(vs[0], ks[0]) + SizeSum(vs[1..], ks[1..])
  }

  ghost predicate Fine(v: Value, k: Kind) {
    HasKind(v, k) && Fits(v)
  }

  ghost predicate AllFine(vs: seq<Value>, ks: seq<Kind>) {
    |vs| == |ks| && forall i | 0 <= i < |vs| :: Fine(vs[i], ks[i])
  }

  lemma {:induction false} TupleFine(vs: seq<Value>, ks: seq<Kind>)
    requires AllFine(vs, ks)
    ensures WellTyped(vs, ks) && Fits(Tuple(vs)) && Size(Tuple(vs), TupleKind(ks)) == SizeSum(vs, ks)
  {
    if |vs| > 1 { TupleFine(vs[1..], ks[1..]); }
  }

  lemma ConsFine(v: Value, k: Kind, vs: seq<Value>, ks: seq<Kind>)
    requires Fine(v, k) && AllFine(vs, ks)
    ensures AllFine([v] + vs, [k] + ks) && SizeSum([v] + vs, [k] + ks) == Size(v, k) + SizeSum(vs, ks)
  {
  }

  lemma TwoFine(a: Value, k: Kind, b: Value, l: Kind, vs: seq<Value>, ks: seq<Kind>)
    requires Fine(a, k) && Fine(b, l) && AllFine(vs, ks)
    ensures AllFine([a, b] + vs, [k, l] + ks)
    ensures SizeSum([a, b] + vs, [k, l] + ks) == Size(a, k) + (Size(b, l) + SizeSum(vs, ks))
  {
  }

  /** Numbers take their kinds' widths, at most eight bytes each. */
  lemma {:induction false} NumsFine(vs: seq<Value>, ks: seq<Kind>)
    requires |vs| == |ks| && forall i | 0 <= i < |vs| :: ks[i].IsInt() && vs[i].Num? && vs[i].n < ks[i].Limit()
    ensures AllFine(vs, ks) && SizeSum(vs, ks) <= 8 * |vs|
  {
    if vs != [] { NumsFine(vs[1..], ks[1..]); }
  }

  lemma OneFine(v: Value, k: Kind)
    requires Fine(v, k)
    ensures AllFine([v], [k]) && SizeSum([v], [k]) == Size(v, k)
  {
  }

  /** A qid is 13 bytes. */
  lemma QidFine(s: Stat)
    ensures Fine(s.Qid(), QID) && Size(s.Qid(), QID) == 13
  {
    var ty := if s.Format() == 4 then 0x80 else if s.Format() == 10 then 2 else 0;
    var vs, ks := [Num(ty), Num(s.mtime % 0x1_0000_0000), Num(s.ino)], [U8, U32, U64];
    NumsFine(vs, ks);
    TupleFine(vs, ks);
    TupleTyped(vs, ks);
    assert vs[1..] == [Num(s.mtime % 0x1_0000_0000), Num(s.ino)] && ks[1..] == [U32, U64];
    assert vs[1..][1..] == [Num(s.ino)] && ks[1..][1..] == [U64];
    OneFine(Num(s.ino), U64);
  }

  // ------------------------------------------------------------ replies

  /** The reply can be encoded, and only a leading data block of more than 32 MiB keeps it from being decoded. */
  ghost predicate OnWire(m: Message) {
    && Encodable(m, FieldsR(m.ty))
    && (Fits(Tuple(m.fields)) <==> |DataAt(m, 0)| <= MAX_DATA_LENGTH)
  }

  /** The reply can be sent, in exactly the given number of bytes. */
  ghost predicate Sent(m: Message, size: nat) {
    OnWire(m) && MessageSize(m, FieldsR(m.ty).value) == size
  }

  lemma SentFrom(m: Message, ks: seq<Kind>)
    requires FieldsR(m.ty) == Some(ks) && AllFine(m.fields, ks) && HEADER_SIZE + SizeSum(m.fields, ks) < 0x1_0000_0000
    ensures Sent(m, HEADER_SIZE + SizeSum(m.fields, ks))
  {
    TupleFine(m.fields, ks);
    SendableEncodable(m, Some(ks));
  }

  lemma LerrorSent(e: Errno)
    ensures Sent(Lerror(e), 11)
  {
  }

  lemma EmptySent(ty: u8)
    requires FieldsR(ty) == Some([])
    ensures Sent(Message(ty, []), 7)
  {
  }

  ghost predicate Within(a: Answer, limit: nat) {
    a.Good? ==> OnWire(a.value) && MessageSize(a.value, FieldsR(a.value.ty).value) <= limit
  }

  lemma {:induction false} AsciiUtf8(s: seq<byte>, i: nat)
    requires i <= |s| && forall j | 0 <= j < |s| :: s[j] <= 0x7f
    ensures ValidUtf8From(s, i)
    decreases |s| - i
  {
    if i < |s| { AsciiUtf8(s, i + 1); }
  }

  lemma VersionUtf8()
    ensures ValidUtf8(VERSION_9P2000L)
  {
  }

  lemma UnknownUtf8()
    ensures ValidUtf8(VERSION_UNKNOWN)
  {
  }

  lemma VersionReply(msize: u32, version: seq<byte>)
    requires ValidUtf8(version) && |version| <= 8
    ensures Within(Good(Message(TVERSION + 1, [Num(msize), Text(version)])), 21)
  {
    var v := Text(version);
    OneFine(v, Str);
    ConsFine(Num(msize), U32, [v], [Str]);
    assert [Num(msize)] + [v] == [Num(msize), v] && [U32] + [Str] == [U32, Str];
    SentFrom(Message(TVERSION + 1, [Num(msize), v]), [U32, Str]);
  }

  lemma VersionSent(st: State, m: Message)
    ensures Within(Version(st, m).1, 21)
  {
    var a := Version(st, m).1;
    if a.Good? {
      var version := if TextAt(m, 1) == VERSION_9P2000L then VERSION_9P2000L else VERSION_UNKNOWN;
      VersionUtf8();
      UnknownUtf8();
      VersionReply(Version(st, m).0.msize, version);
    }
  }

  lemma QidSent(ty: u8, s: Stat)
    requires FieldsR(ty) == Some([QID])
    ensures Sent(Message(ty, [s.Qid()]), 20)
  {
    QidFine(s);
    OneFine(s.Qid(), QID);
    SentFrom(Message(ty, [s.Qid()]), [QID]);
  }

  lemma OpenedSent(ty: u8, s: Stat)
    requires FieldsR(ty) == Some([QID, U32])
    ensures Sent(Message(ty, [s.Qid(), Num(0)]), 24)
  {
    QidFine(s);
    OneFine(Num(0), U32);
    ConsFine(s.Qid(), QID, [Num(0)], [U32]);
    SentFrom(Message(ty, [s.Qid(), Num(0)]), [QID, U32]);
  }

  /** A list of qids takes two bytes and 13 for each. */
  lemma {:induction false} QidsFine(stats: seq<Stat>)
    ensures forall i | 0 <= i < |stats| :: Fine(Qids(stats)[i], QID)
    ensures ItemsSize(Qids(stats), QID) == 13 * |stats|
  {
    if stats != [] {
      QidFine(stats[0]);
      QidsFine(stats[1..]);
      assert Qids(stats)[1..] == Qids(stats[1..]);
      assert forall i | 0 < i < |stats| :: Qids(stats)[i] == Qids(stats[1..])[i - 1];
    }
  }

  lemma WalkedSent(stats: seq<Stat>)
    requires |stats| <= MAX_VECTOR
    ensures Sent(Message(TWALK + 1, [List(Qids(stats))]), 9 + 13 * |stats|)
  {
    QidsFine(stats);
    OneFine(List(Qids(stats)), Vec(QID));
    SentFrom(Message(TWALK + 1, [List(Qids(stats))]), [Vec(QID)]);
  }

  lemma DataSent(ty: u8, bytes: seq<byte>)
    requires FieldsR(ty) == Some([Blob]) && DATA_HEADER + |bytes| < 0x1_0000_0000
    ensures Sent(Message(ty, [Data(bytes)]), DATA_HEADER + |bytes|)
  {
  }

  lemma NumsSent(m: Message, ks: seq<Kind>)
    requires FieldsR(m.ty) == Some(ks) && |m.fields| == |ks| <= 20
    requires forall i | 0 <= i < |ks| :: ks[i].IsInt() && m.fields[i].Num? && m.fields[i].n < ks[i].Limit()
    ensures Within(Good(m), 7 + 8 * |ks|)
  {
    NumsFine(m.fields, ks);
    SentFrom(m, ks);
  }

  // ------------------------------------------------------ one lemma a request

  lemma ReadSent(w: World, st: State, m: Message)
    requires Lawful(w) && st.msize >= DATA_HEADER
    ensures Within(Read(w, st, m), st.msize)
  {
  }

  lemma DirentFine(s: Stat, e: Entry)
    requires ValidUtf8(e.name) && RecLen(e) <= BUF_SIZE
    ensures Fine(DirentOf(s, e), DIRENT) && Size(DirentOf(s, e), DIRENT) == 24 + |e.name|
  {
    var vs, ks := [s.Qid(), Num(e.off), Num(e.ty), Text(e.name)], [QID, U64, U8, Str];
    var back, backKinds := [Num(e.ty), Text(e.name)], [U8, Str];
    QidFine(s);
    TwoFine(Num(e.ty), U8, Text(e.name), Str, [], []);
    assert back + [] == back && backKinds + [] == backKinds;
    TwoFine(s.Qid(), QID, Num(e.off), U64, back, backKinds);
    assert [s.Qid(), Num(e.off)] + back == vs && [QID, U64] + backKinds == ks;
    TupleFine(vs, ks);
    TupleTyped(vs, ks);
  }

  lemma ItemsFineCons(v: Value, vs: seq<Value>, k: Kind)
    requires Fine(v, k) && forall j | 0 <= j < |vs| :: Fine(vs[j], k)
    ensures forall j | 0 <= j < |[v] + vs| :: Fine(([v] + vs)[j], k)
    ensures ItemsSize([v] + vs, k) == Size(v, k) + ItemsSize(vs, k)
  {
  }

  /** A page holds well-formed entries and never more bytes than there was room for. */
  lemma {:induction false} PageFine(w: World, path: Node, l: Listing, i: nat, room: int)
    requires i <= |l.entries| && AllFit(l.entries) && room >= 0
    ensures var p := Page(w, path, l, i, room);
      p.Good? ==> ItemsSize(p.value, DIRENT) <= room && forall j | 0 <= j < |p.value| :: Fine(p.value[j], DIRENT)
    decreases |l.entries| - i
  {
    var p := Page(w, path, l, i, room);
    if p.Good? && i < |l.entries| {
      var e := l.entries[i];
      var s := w.statAt(path, e.name).value;
      DirentFine(s, e);
      var size := Size(DirentOf(s, e), DIRENT);
      if room >= size {
        PageFine(w, path, l, i + 1, room - size);
        ItemsFineCons(DirentOf(s, e), Page(w, path, l, i + 1, room - size).value, DIRENT);
      }
    }
  }

  lemma ReaddirSent(w: World, st: State, m: Message)
    requires st.msize >= DATA_HEADER
    ensures Within(Readdir(w, st, m), st.msize)
    ensures Readdir(w, st, m).Good? ==> |DataAt(Readdir(w, st, m).value, 0)| <= Room(st, NumAt(m, 2))
  {
    if Readdir(w, st, m).Good? {
      var fid := FidAt(m, 0);
      var h, room := st.fids[fid].file.value, Room(st, NumAt(m, 2));
      var l := ListFrom(w, h, OffsetAt(m, 1));
      ListShort(w, h, OffsetAt(m, 1));
      PageFine(w, st.fids[fid].path, l, 0, room);
      var items := Page(w, st.fids[fid].path, l, 0, room).value;
      ItemsRoundTrip(items, DIRENT, []);
      DataSent(TREADDIR + 1, EncodeItems(items, DIRENT).bytes);
    }
  }

  lemma ListShort(w: World, h: File, off: u64)
    ensures AllFit(ListFrom(w, h, off).entries)
  {
    if Seek(w.dir(h), off).Good? { EntriesShort(w.dir(h), Seek(w.dir(h), off).value); }
  }

  /** An Rgetlock takes 30 bytes and the client id of the request. */
  lemma GetLockSize(w: World, st: State, m: Message)
    requires m.ty == TGETLOCK && Sendable(m, FieldsT(TGETLOCK)) && GetLock(w, st, m).Good?
    ensures Sent(GetLock(w, st, m).value, 30 + |TextAt(m, 5)|)
  {
    var ks, id := [U32, U8, U64, U64, U32, Str], m.fields[5];
    FieldsFit(m.fields, ks);
    assert Fine(id, ks[5]);
    GetLockReply(Num(P9_LOCK_TYPE_UNLCK), Num(OffsetAt(m, 2)), Num(OffsetAt(m, 3)), Num(FidAt(m, 4)), id);
    SentFrom(GetLock(w, st, m).value, [U8, U64, U64, U32, Str]);
  }

  /** The request's own client id comes back, so the reply is shorter than the request. */
  lemma GetLockSent(w: World, st: State, m: Message)
    requires m.ty == TGETLOCK && Sendable(m, FieldsT(TGETLOCK))
    ensures Within(GetLock(w, st, m), MessageSize(m, FieldsT(TGETLOCK).value))
  {
    if GetLock(w, st, m).Good? {
      GetLockSize(w, st, m);
      TgetlockSize(m);
    }
  }

  lemma TgetlockSize(m: Message)
    requires m.ty == TGETLOCK && Sendable(m, FieldsT(TGETLOCK))
    ensures MessageSize(m, FieldsT(TGETLOCK).value) == 34 + |TextAt(m, 5)|
  {
    var ks := [U32, U8, U64, U64, U32, Str];
    FieldsFit(m.fields, ks);
    assert Fine(m.fields[5], ks[5]);
    GetLockRequest(m.fields, ks, |TextAt(m, 5)|);
  }

  /** It reports no lock, and the range, process and client of the request. */
  lemma GetLockEchoes(w: World, st: State, m: Message)
    requires m.ty == TGETLOCK && Sendable(m, FieldsT(TGETLOCK)) && GetLock(w, st, m).Good?
    ensures GetLock(w, st, m).value.fields == [Num(P9_LOCK_TYPE_UNLCK)] + m.fields[2..]
  {
    FieldsFit(m.fields, [U32, U8, U64, U64, U32, Str]);
    var f := m.fields;
    assert Fine(f[2], U64) && Fine(f[3], U64) && Fine(f[4], U32) && Fine(f[5], Str);
  }

  lemma {:induction false} FieldsFit(vs: seq<Value>, ks: seq<Kind>)
    requires WellTyped(vs, ks) && Fits(Tuple(vs))
    ensures AllFine(vs, ks)
  {
    if |vs| > 1 {
      FieldsFit(vs[1..], ks[1..]);
      assert forall i | 0 < i < |vs| :: vs[i] == vs[1..][i - 1] && ks[i] == ks[1..][i - 1];
    }
  }

  lemma GetLockRequest(f: seq<Value>, ks: seq<Kind>, n: nat)
    requires ks == [U32, U8, U64, U64, U32, Str] && AllFine(f, ks) && |f[5].utf8| == n
    ensures Size(Tuple(f), TupleKind(ks)) == 27 + n
  {
    TupleFine(f, ks);
    assert ks[1..] == [U8, U64, U64, U32, Str] && ks[1..][1..] == [U64, U64, U32, Str];
    assert ks[1..][1..][1..] == [U64, U32, Str] && ks[1..][1..][1..][1..] == [U32, Str];
    assert f[1..][1..][1..][1..] == [f[4], f[5]];
    assert [f[4], f[5]][1..] == [f[5]] && [U32, Str][1..] == [Str];
    OneFine(f[5], Str);
    assert SizeSum([f[4], f[5]], [U32, Str]) == 4 + (2 + n);
    assert SizeSum(f[1..][1..], ks[1..][1..]) == 8 + (8 + SizeSum([f[4], f[5]], [U32, Str]));
    assert SizeSum(f, ks) == 4 + (1 + SizeSum(f[1..][1..], ks[1..][1..]));
  }

  lemma GetLockReply(a: Value, b: Value, c: Value, d: Value, e: Value)
    requires Fine(a, U8) && Fine(b, U64) && Fine(c, U64) && Fine(d, U32) && Fine(e, Str)
    ensures AllFine([a, b, c, d, e], [U8, U64, U64, U32, Str])
    ensures SizeSum([a, b, c, d, e], [U8, U64, U64, U32, Str]) == 23 + |e.utf8|
  {
    var three, threeKinds := [c, d, e], [U64, U32, Str];
    OneFine(e, Str);
    TwoFine(c, U64, d, U32, [e], [Str]);
    assert [c, d] + [e] == three && [U64, U32] + [Str] == threeKinds;
    TwoFine(a, U8, b, U64, three, threeKinds);
    assert [a, b] + three == [a, b, c, d, e] && [U8, U64] + threeKinds == [U8, U64, U64, U32, Str];
  }

  const ATTRIBUTES: seq<Kind> :=
    [U32, U32, U32, U64, U64, U64, U64, U64, U64, U64, U64, U64, U64, U64, U64, U64, U64, U64]

  lemma AttributesFine(cfg: Config, s: Stat)
    ensures AllFine(Attributes(cfg, s), ATTRIBUTES) && SizeSum(Attributes(cfg, s), ATTRIBUTES) <= 144
  {
    NumsFine(Attributes(cfg, s), ATTRIBUTES);
  }

  lemma GetAttrKinds()
    ensures FieldsR(TGETATTR + 1) == Some([U64, QID] + ATTRIBUTES)
  {
    assert FieldsR(TGETATTR + 1).value == [U64, QID] + ATTRIBUTES;
  }

  lemma GetAttrSent(cfg: Config, w: World, st: State, m: Message)
    ensures Within(GetAttr(cfg, w, st, m), 172)
  {
    if GetAttr(cfg, w, st, m).Good? {
      var s := w.stat(st.fids[FidAt(m, 0)].path).value;
      AttributesFine(cfg, s);
      GetAttrKinds();
      QidFine(s);
      TwoFine(Num(P9_GETATTR_BASIC), U64, s.Qid(), QID, Attributes(cfg, s), ATTRIBUTES);
      SentFrom(GetAttr(cfg, w, st, m).value, [U64, QID] + ATTRIBUTES);
    }
  }

  lemma StatfsSent(w: World, st: State, m: Message)
    ensures Within(Statfs(w, st, m), 79)
  {
    var a := Statfs(w, st, m);
    if a.Good? { NumsSent(a.value, FieldsR(TSTATFS + 1).value); }
  }

  lemma ReadlinkSent(w: World, st: State, m: Message)
    requires Lawful(w)
    ensures Readlink(w, st, m).Good? ==> Sent(Readlink(w, st, m).value, 9 + |TextAt(Readlink(w, st, m).value, 0)|)
  {
  }

  lemma MkdirSent(w: World, st: State, m: Message)
    ensures Within(Mkdir(w, st, m), 20)
  {
    var a := Mkdir(w, st, m);
    if a.Good? { QidSent(TMKDIR + 1, w.statAt(st.fids[FidAt(m, 0)].path, TextAt(m, 1)).value); }
  }

  lemma ActSent(w: World, st: State, m: Message)
    requires OnlyActs(m.ty)
    ensures Within(Act(w, st, m), 7)
  {
  }

  // ------------------------------------------------------------- every request

  /** A request as decoding from a reader limited to the message size leaves it. */
  ghost predicate Received(st: State, m: Message) {
    Sendable(m, FieldsT(m.ty)) && MessageSize(m, FieldsT(m.ty).value) <= st.msize
  }

  /** A Rgetlock repeats part of its request, so its limit is the longer of the two. */
  ghost function Limit(msize: nat, m: Message): nat
    requires Sendable(m, FieldsT(m.ty))
  {
    var size := MessageSize(m, FieldsT(m.ty).value);
    if m.ty == TGETLOCK && size > msize then size else msize
  }

  lemma QuerySent(cfg: Config, w: World, st: State, m: Message)
    requires Lawful(w) && st.msize >= MIN_MESSAGE_SIZE && Sendable(m, FieldsT(m.ty)) && m.ty < 255 && m.ty != TREADLINK
    ensures Within(Query(cfg, w, st, m), Limit(st.msize, m))
  {
    if m.ty == TFLUSH { EmptySent(TFLUSH + 1); }
    else if m.ty == TREAD { ReadSent(w, st, m); }
    else if m.ty == TWRITE { WriteSent(w, st, m); }
    else if m.ty == TREADDIR { ReaddirSent(w, st, m); }
    else if m.ty == TLOCK { LockSent(w, st, m); }
    else if m.ty == TGETLOCK { GetLockSent(w, st, m); }
    else if m.ty == TGETATTR { GetAttrSent(cfg, w, st, m); }
    else if m.ty == TSTATFS { StatfsSent(w, st, m); }
    else if m.ty == TMKDIR { MkdirSent(w, st, m); }
    else if OnlyActs(m.ty) { ActSent(w, st, m); }
  }

  lemma WriteSent(w: World, st: State, m: Message)
    ensures Within(Write(w, st, m), 15)
  {
  }

  lemma LockSent(w: World, st: State, m: Message)
    ensures Within(Lock(w, st, m), 15)
  {
  }

  function SessionAnswer(w: World, st: State, m: Message): (State, Answer)
    requires Session(m.ty)
  {
    if m.ty == TVERSION then Version(st, m)
    else if m.ty == TATTACH then Attach(w, st, m)
    else if m.ty == TCLUNK then Clunk(st, m)
    else if m.ty == TLOPEN then Lopen(w, st, m)
    else Lcreate(w, st, m)
  }

  lemma SessionSent(w: World, st: State, m: Message)
    requires Session(m.ty) && st.msize >= MIN_MESSAGE_SIZE
    ensures var (after, a) := SessionAnswer(w, st, m); Within(a, 24) && after.msize >= MIN_MESSAGE_SIZE
  {
    if m.ty == TVERSION { VersionSent(st, m); }
    else if m.ty == TATTACH {
      if Attach(w, st, m).1.Good? { QidSent(TATTACH + 1, w.stat(w.root.value).value); }
    } else if m.ty == TCLUNK { EmptySent(TCLUNK + 1); }
    else if m.ty == TLOPEN {
      if Lopen(w, st, m).1.Good? {
        OpenedSent(TLOPEN + 1, w.fstat(w.open(st.fids[FidAt(m, 0)].path, FidAt(m, 1)).value).value);
      }
    } else if Lcreate(w, st, m).1.Good? {
      OpenedSent(TLCREATE + 1, Created(w, st, m).value.1);
    }
  }

  lemma WalkSent(cfg: Config, w: World, st: State, m: Message)
    requires |NamesAt(m, 2)| <= MAX_VECTOR
    ensures var a := Walk(cfg, w, st, m).1; a.Good? ==> Sent(a.value, 9 + 13 * |NamesAt(a.value, 0)|)
  {
    var a := Walk(cfg, w, st, m).1;
    if a.Good? {
      var walked := WalkFrom(cfg, w, st.fids[FidAt(m, 0)].path, NamesAt(m, 2));
      StatsBound(cfg, w, st.fids[FidAt(m, 0)].path, NamesAt(m, 2));
      WalkedSent(walked.stats);
    }
  }

  lemma {:induction false} StatsBound(cfg: Config, w: World, node: Node, names: seq<Value>)
    ensures |Resolve(cfg, w, node, names).stats| <= |names|
    decreases |names|
  {
    if names != [] {
      var next := LookupName(cfg, w, node, NameOf(names[0]));
      if next.Good? && w.stat(next.value).Good? { StatsBound(cfg, w, next.value, names[1..]); }
    }
  }

  lemma NamesFit(m: Message)
    requires m.ty == TWALK && Sendable(m, FieldsT(m.ty))
    ensures |NamesAt(m, 2)| <= MAX_VECTOR
  {
    FieldsFit(m.fields, [U32, U32, Vec(Str)]);
    assert Fine(m.fields[2], Vec(Str));
  }

  predicate Session(ty: u8) {
    ty == TVERSION || ty == TATTACH || ty == TCLUNK || ty == TLOPEN || ty == TLCREATE
  }

  lemma AnswerWithin(cfg: Config, w: World, st: State, m: Message)
    requires Lawful(w) && st.msize >= MIN_MESSAGE_SIZE && m.ty < 255 && Sendable(m, FieldsT(m.ty))
    requires m.ty != TWALK && m.ty != TREADLINK
    ensures var (after, a) := Answered(cfg, w, st, m); Within(a, Limit(after.msize, m))
  {
    if Session(m.ty) {
      SessionSent(w, st, m);
    } else {
      QuerySent(cfg, w, st, m);
    }
  }

  /** How long a reply may be: exact for the two that can outgrow the message size. */
  ghost predicate SizeRule(r: Message, msize: nat) {
    OnWire(r) &&
    var size := MessageSize(r, FieldsR(r.ty).value);
    if r.ty == TWALK + 1 then size == 9 + 13 * |NamesAt(r, 0)|
    else if r.ty == TREADLINK + 1 then size == 9 + |TextAt(r, 0)|
    else size <= msize
  }

  lemma AnswerRule(cfg: Config, w: World, st: State, m: Message)
    requires Lawful(w) && st.msize >= MIN_MESSAGE_SIZE && m.ty < 255 && Sendable(m, FieldsT(m.ty))
    ensures var (after, a) := Answered(cfg, w, st, m); a.Good? ==> SizeRule(a.value, Limit(after.msize, m))
  {
    AnsweredTypes(cfg, w, st, m);
    if m.ty == TWALK {
      NamesFit(m);
      WalkSent(cfg, w, st, m);
    } else if m.ty == TREADLINK {
      ReadlinkSent(w, st, m);
    } else {
      AnswerWithin(cfg, w, st, m);
    }
  }

  /** The size rule, with a longer request counted as the limit of its own Rgetlock. */
  lemma ReplyBound(cfg: Config, w: World, st: State, f: Tframe)
    requires Lawful(w) && st.msize >= MIN_MESSAGE_SIZE && Known(f) && (f.msg.Ok? ==> SendableT(f))
    ensures var (after, r) := Handle(cfg, w, st, f);
            SizeRule(r.msg, if f.msg.Ok? then Limit(after.msize, f.msg.m) else after.msize)
  {
    StepMsize(cfg, w, st, f);
    if f.msg.Bad? {
      LerrorSent(EINVAL);
    } else {
      AnswerRule(cfg, w, st, f.msg.m);
      var a := Answered(cfg, w, st, f.msg.m).1;
      if a.Errno? { LerrorSent(a.code); }
    }
  }

  /**
   * Every reply can be encoded. Apart from Rwalk, whose size is 9 bytes and 13 for each qid, and Rreadlink,
   * whose size is 9 bytes and the target, none is longer than the message size then in force.
   */
  lemma ReplyFits(cfg: Config, w: World, st: State, f: Tframe)
    requires Lawful(w) && st.msize >= MIN_MESSAGE_SIZE && Known(f) && (f.msg.Ok? ==> Received(st, f.msg.m))
    ensures var (after, r) := Handle(cfg, w, st, f); SizeRule(r.msg, after.msize)
  {
    StepMsize(cfg, w, st, f);
    ReplyBound(cfg, w, st, f);
  }

  /** Even where requests are not limited to the message size, every reply can be encoded. */
  lemma ReplyEncodable(cfg: Config, w: World, st: State, f: Tframe)
    requires Lawful(w) && st.msize >= MIN_MESSAGE_SIZE && Known(f) && (f.msg.Ok? ==> SendableT(f))
    ensures OnWire(Handle(cfg, w, st, f).1.msg)
  {
    ReplyBound(cfg, w, st, f);
  }

  // ------------------------------------------------- when a reply cannot be decoded

  /** What is sent is read back as this reply, before any further bytes. */
  ghost predicate Decodes(r: Rframe, tail: seq<byte>) {
    EncodeR(r).ok && DecodeR(EncodeR(r).bytes + tail) == Done(r, tail)
  }

  /** A reply can be decoded exactly if it carries at most 32 MiB of data. */
  lemma ReplyDecodesIff(cfg: Config, w: World, st: State, f: Tframe, tail: seq<byte>)
    requires Lawful(w) && st.msize >= MIN_MESSAGE_SIZE && Known(f) && (f.msg.Ok? ==> SendableT(f))
    ensures var r := Handle(cfg, w, st, f).1;
            && EncodeR(r).ok && |EncodeR(r).bytes| == MessageSize(r.msg, FieldsR(r.msg.ty).value)
            && (Decodes(r, tail) <==> |DataAt(r.msg, 0)| <= MAX_DATA_LENGTH)
  {
    ReplyEncodable(cfg, w, st, f);
    ReadsBackR(Handle(cfg, w, st, f).1, tail);
  }

  ghost predicate ReadDecodes(w: World, st: State, m: Message, tag: u16, tail: seq<byte>)
    requires st.msize >= DATA_HEADER
  {
    Read(w, st, m).Good? ==> Decodes(Rframe(tag, Read(w, st, m).value), tail)
  }

  /** A Tread is sure of a reply that can be decoded exactly if no more than 32 MiB are asked for, or allowed. */
  lemma ReadDecodesIff(st: State, m: Message, tag: u16, tail: seq<byte>)
    requires st.msize >= DATA_HEADER && OpenFile(st, FidAt(m, 0)).Good?
    ensures (forall w | Lawful(w) :: ReadDecodes(w, st, m, tag, tail)) <==> Room(st, NumAt(m, 2)) <= MAX_DATA_LENGTH
  {
    var room := Room(st, NumAt(m, 2));
    forall w | Lawful(w) ensures room <= MAX_DATA_LENGTH ==> ReadDecodes(w, st, m, tag, tail) {
      ReadSent(w, st, m);
      if Read(w, st, m).Good? { ReadsBackR(Rframe(tag, Read(w, st, m).value), tail); }
    }
    ReadSent(Filled(), st, m);
    ReadsBackR(Rframe(tag, Read(Filled(), st, m).value), tail);
    assert Lawful(Filled()) && (ReadDecodes(Filled(), st, m, tag, tail) <==> room <= MAX_DATA_LENGTH);
  }

  /** A kernel in which every file is as long as anyone asks. */
  function Filled(): World {
    Loop().(read := (_, n, _) => Good(Zeros(n)))
  }

  const LARGE_MESSAGE: u32 := 0x400_0000 // 64 MiB

  function ReadMessage(fid: u32, count: u32): Message {
    Message(TREAD, [Num(fid), Num(0), Num(count)])
  }

  lemma ReadMessageFine(fid: u32, count: u32)
    ensures Sendable(ReadMessage(fid, count), FieldsT(TREAD))
  {
    NumsFine(ReadMessage(fid, count).fields, [U32, U64, U32]);
    TupleFine(ReadMessage(fid, count).fields, [U32, U64, U32]);
  }

  lemma FilledRead(cfg: Config, st: State, fid: u32, count: u32, tag: u16)
    requires st.msize >= DATA_HEADER && OpenFile(st, fid).Good?
    ensures Handle(cfg, Filled(), st, Tframe(tag, Ok(ReadMessage(fid, count)))).1.msg ==
            Message(TREAD + 1, [Data(Zeros(Room(st, count)))])
  {
  }

  function LargeRead(fid: u32): Message {
    ReadMessage(fid, MAX_DATA_LENGTH + 1)
  }

  /** With messages of 64 MiB, a file can be read 32 MiB and a byte at a time, and no client can decode it. */
  lemma RreadUndecodable(cfg: Config, fid: u32, node: Node, h: File, tag: u16, tail: seq<byte>)
    ensures var st, f := State(map[fid := Fid(node, Some(h), Regular)], LARGE_MESSAGE), Tframe(tag, Ok(LargeRead(fid)));
            && SendableT(f) && Lawful(Filled())
            && var r := Handle(cfg, Filled(), st, f).1;
               Encodable(r.msg, FieldsR(r.msg.ty)) && !Fits(Tuple(r.msg.fields)) && !Decodes(r, tail)
  {
    var st, m := State(map[fid := Fid(node, Some(h), Regular)], LARGE_MESSAGE), LargeRead(fid);
    ReadMessageFine(fid, MAX_DATA_LENGTH + 1);
    FilledRead(cfg, st, fid, MAX_DATA_LENGTH + 1, tag);
    UndecodableReply(Handle(cfg, Filled(), st, Tframe(tag, Ok(m))).1, tail);
  }

  lemma UndecodableReply(r: Rframe, tail: seq<byte>)
    requires r.msg.ty == TREAD + 1 && |r.msg.fields| == 1 && r.msg.fields[0].Data?
    requires MAX_DATA_LENGTH < |r.msg.fields[0].data| < 0x1_0000_0000 - DATA_HEADER
    ensures Encodable(r.msg, FieldsR(r.msg.ty)) && !Fits(Tuple(r.msg.fields)) && !Decodes(r, tail)
  {
    DataSent(TREAD + 1, r.msg.fields[0].data);
    assert r.msg == Message(TREAD + 1, [Data(r.msg.fields[0].data)]);
    ReadsBackR(r, tail);
  }

  /** Whatever is asked and however the kernel answers, the reply can be decoded. */
  ghost predicate AlwaysDecodes(cfg: Config, st: State, tag: u16, tail: seq<byte>)
    requires st.msize >= DATA_HEADER
  {
    forall w: World, m: Message | Lawful(w) && m.ty < 255 && m.ty != TLERROR && Sendable(m, FieldsT(m.ty)) ::
      Decodes(Handle(cfg, w, st, Tframe(tag, Ok(m))).1, tail)
  }

  lemma OnlyReadsCarryData(m: Message)
    requires OnWire(m) && m.ty != TREAD + 1 && m.ty != TREADDIR + 1
    ensures DataAt(m, 0) == []
  {
    var ks := FieldsR(m.ty).value;
    if ks != [] { assert HasKind(m.fields[0], ks[0]) && !ks[0].Blob?; }
  }

  lemma DataInSize(m: Message)
    requires OnWire(m) && FieldsR(m.ty) == Some([Blob])
    ensures MessageSize(m, FieldsR(m.ty).value) == DATA_HEADER + |DataAt(m, 0)|
  {
  }

  /** Where a file is open, every reply is sure to be decoded exactly if messages leave room for 32 MiB at most. */
  lemma AlwaysDecodesIff(cfg: Config, st: State, fid: u32, tag: u16, tail: seq<byte>)
    requires st.msize >= MIN_MESSAGE_SIZE && OpenFile(st, fid).Good?
    ensures AlwaysDecodes(cfg, st, tag, tail) <==> st.msize <= DATA_HEADER + MAX_DATA_LENGTH
  {
    if st.msize <= DATA_HEADER + MAX_DATA_LENGTH {
      forall w: World, m: Message | Lawful(w) && m.ty < 255 && m.ty != TLERROR && Sendable(m, FieldsT(m.ty))
        ensures Decodes(Handle(cfg, w, st, Tframe(tag, Ok(m))).1, tail)
      {
        SmallReply(cfg, w, st, tag, m);
        ReplyDecodesIff(cfg, w, st, Tframe(tag, Ok(m)), tail);
      }
    } else {
      var m := ReadMessage(fid, 0xffff_ffff);
      ReadMessageFine(fid, 0xffff_ffff);
      FilledRead(cfg, st, fid, 0xffff_ffff, tag);
      UndecodableReply(Handle(cfg, Filled(), st, Tframe(tag, Ok(m))).1, tail);
      assert Lawful(Filled()) && !Decodes(Handle(cfg, Filled(), st, Tframe(tag, Ok(m))).1, tail);
    }
  }

  lemma SmallReply(cfg: Config, w: World, st: State, tag: u16, m: Message)
    requires MIN_MESSAGE_SIZE <= st.msize <= DATA_HEADER + MAX_DATA_LENGTH
    requires Lawful(w) && m.ty < 255 && m.ty != TLERROR && Sendable(m, FieldsT(m.ty))
    ensures |DataAt(Handle(cfg, w, st, Tframe(tag, Ok(m))).1.msg, 0)| <= MAX_DATA_LENGTH
  {
    AnswerRule(cfg, w, st, m);
    AnsweredTypes(cfg, w, st, m);
    var a := Answered(cfg, w, st, m).1;
    if a.Good? {
      if m.ty == TREAD || m.ty == TREADDIR { DataInSize(a.value); } else { OnlyReadsCarryData(a.value); }
    }
  }

  // ------------------------------------------ when an Rgetlock is too long

  /** The reply to a Tgetlock, if it is an Rgetlock, is no longer than the message size. */
  ghost predicate GetLockKeeps(w: World, st: State, m: Message) {
    var a := GetLock(w, st, m);
    a.Good? ==> Encodable(a.value, FieldsR(TGETLOCK + 1)) &&
                MessageSize(a.value, FieldsR(TGETLOCK + 1).value) <= st.msize
  }

  /** A Tgetlock on an open file is sure of a reply within the message size exactly if its client id leaves room. */
  lemma GetLockKeepsIff(st: State, m: Message)
    requires m.ty == TGETLOCK && Sendable(m, FieldsT(TGETLOCK)) && OpenFile(st, FidAt(m, 0)).Good?
    ensures (forall w :: GetLockKeeps(w, st, m)) <==> 30 + |TextAt(m, 5)| <= st.msize
  {
    forall w ensures 30 + |TextAt(m, 5)| <= st.msize ==> GetLockKeeps(w, st, m) {
      if GetLock(w, st, m).Good? { GetLockSize(w, st, m); }
    }
    GetLockSize(Loop(), st, m);
    assert GetLockKeeps(Loop(), st, m) <==> 30 + |TextAt(m, 5)| <= st.msize;
  }

  function GetLockMessage(fid: u32, id: seq<byte>): Message {
    Message(TGETLOCK, [Num(fid), Num(0), Num(0), Num(0), Num(0), Text(id)])
  }

  /** A client id of 227 letters does not fit in a reply of 256 bytes, nor its request in one message. */
  lemma RgetlockOutgrows(fid: u32, node: Node, h: File, id: seq<byte>)
    requires |id| == 227 && forall i | 0 <= i < |id| :: 0x61 <= id[i] <= 0x7a
    ensures var st, m := State(map[fid := Fid(node, Some(h), Regular)], 256), GetLockMessage(fid, id);
            && Sendable(m, FieldsT(TGETLOCK)) && MessageSize(m, FieldsT(TGETLOCK).value) == 261
            && !GetLockKeeps(Loop(), st, m)
  {
    var st, m := State(map[fid := Fid(node, Some(h), Regular)], 256), GetLockMessage(fid, id);
    var ks := [U32, U8, U64, U64, U32, Str];
    AsciiUtf8(id, 0);
    assert AllFine(m.fields, ks);
    GetLockRequest(m.fields, ks, |id|);
    TupleFine(m.fields, ks);
    GetLockSize(Loop(), st, m);
  }

  // --------------------------------------------------- when an Rreadlink is too long

  /** The reply to a Treadlink, if it is an Rreadlink, is no longer than the message size. */
  ghost predicate ReadlinkKeeps(w: World, st: State, m: Message) {
    var a := Readlink(w, st, m);
    a.Good? ==> Encodable(a.value, FieldsR(TREADLINK + 1)) &&
                MessageSize(a.value, FieldsR(TREADLINK + 1).value) <= st.msize
  }

  /** A kernel in which every link leads to the target. */
  function Links(target: seq<byte>): World {
    Loop().(readlink := _ => Good(target))
  }

  /** A Treadlink is sure of a reply within the message size exactly if the longest path would fit. */
  lemma ReadlinkKeepsIff(st: State, m: Message)
    requires FidAt(m, 0) in st.fids
    ensures (forall w | Lawful(w) :: ReadlinkKeeps(w, st, m)) <==> 9 + PATH_MAX <= st.msize
  {
    forall w | Lawful(w) ensures 9 + PATH_MAX <= st.msize ==> ReadlinkKeeps(w, st, m) {
      ReadlinkSent(w, st, m);
    }
    var target: seq<byte> := seq(PATH_MAX, _ => 0x61);
    AsciiUtf8(target, 0);
    ReadlinkSent(Links(target), st, m);
    assert Lawful(Links(target)) && (ReadlinkKeeps(Links(target), st, m) <==> 9 + PATH_MAX <= st.msize);
  }

  /** A target of 248 letters or more does not fit in a reply of 256 bytes. */
  lemma RreadlinkOutgrows(fid: u32, node: Node, target: seq<byte>)
    requires 248 <= |target| < PATH_MAX && forall i | 0 <= i < |target| :: 0x61 <= target[i] <= 0x7a
    ensures var st, m := State(map[fid := Fid(node, None, Other)], 256), Message(TREADLINK, [Num(fid)]);
            Received(st, m) && Lawful(Links(target)) && !ReadlinkKeeps(Links(target), st, m)
  {
    var st, m := State(map[fid := Fid(node, None, Other)], 256), Message(TREADLINK, [Num(fid)]);
    AsciiUtf8(target, 0);
    ReadlinkSent(Links(target), st, m);
    OneFine(Num(fid), U32);
    TupleFine(m.fields, [U32]);
  }

  // ------------------------------------------------------- when an Rwalk is too long

  /** How many names come before the first that holds a NUL. */
  function NulFree(names: seq<Value>): (n: nat)
    ensures n <= |names|
  {
    if names == [] || HasNul(NameOf(names[0])) then 0 else 1 + NulFree(names[1..])
  }

  /** Where every name leads back, a walk gets as far as the first name with a NUL. */
  lemma {:induction false} LoopResolves(cfg: Config, node: Node, names: seq<Value>)
    ensures |Resolve(cfg, Loop(), node, names).stats| == NulFree(names)
    decreases |names|
  {
    if names != [] && !HasNul(NameOf(names[0])) {
      assert LookupName(cfg, Loop(), node, NameOf(names[0])) == Good(0);
      LoopResolves(cfg, 0, names[1..]);
    }
  }

  /** No walk gets further. */
  lemma {:induction false} StatsNulFree(cfg: Config, w: World, node: Node, names: seq<Value>)
    ensures |Resolve(cfg, w, node, names).stats| <= NulFree(names)
    decreases |names|
  {
    if names != [] {
      var next := LookupName(cfg, w, node, NameOf(names[0]));
      if next.Good? && w.stat(next.value).Good? { StatsNulFree(cfg, w, next.value, names[1..]); }
    }
  }

  /** The reply to a walk, if it is an Rwalk, is no longer than the message size. */
  ghost predicate WalkKeeps(cfg: Config, w: World, st: State, m: Message) {
    var a := Walk(cfg, w, st, m).1;
    a.Good? ==> Encodable(a.value, FieldsR(TWALK + 1)) && MessageSize(a.value, FieldsR(TWALK + 1).value) <= st.msize
  }

  /** The fid is bound, and the new one is free or the same. */
  predicate MayWalk(st: State, m: Message) {
    FidAt(m, 0) in st.fids && (FidAt(m, 1) == FidAt(m, 0) || FidAt(m, 1) !in st.fids)
  }

  /**
   * A walk that may start is sure of a reply within the message size exactly if a qid for each of its names up to
   * the first with a NUL would fit.
   */
  lemma WalkKeepsIff(cfg: Config, st: State, m: Message)
    requires st.msize >= DATA_HEADER && |NamesAt(m, 2)| <= MAX_VECTOR
    ensures (forall w :: WalkKeeps(cfg, w, st, m)) <==>
            (MayWalk(st, m) ==> 9 + 13 * NulFree(NamesAt(m, 2)) <= st.msize)
  {
    if MayWalk(st, m) {
      var names, start := NamesAt(m, 2), st.fids[FidAt(m, 0)].path;
      if 9 + 13 * NulFree(names) <= st.msize {
        forall w ensures WalkKeeps(cfg, w, st, m) {
          WalkSent(cfg, w, st, m);
          StatsNulFree(cfg, w, start, names);
        }
      } else {
        LoopResolves(cfg, start, names);
        WalkSent(cfg, Loop(), st, m);
        assert !WalkKeeps(cfg, Loop(), st, m);
      }
    }
  }

  function WalkMessage(fid: u32, names: seq<Value>): Message {
    Message(TWALK, [Num(fid), Num(fid), List(names)])
  }

  lemma WalkMessageSize(fid: u32, names: seq<Value>)
    requires Fine(List(names), Vec(Str)) && ItemsSize(names, Str) < 0x1_0000
    ensures Sendable(WalkMessage(fid, names), FieldsT(TWALK))
    ensures MessageSize(WalkMessage(fid, names), FieldsT(TWALK).value) == 17 + ItemsSize(names, Str)
  {
    var v, ks := List(names), [U32, U32, Vec(Str)];
    OneFine(v, Vec(Str));
    TwoFine(Num(fid), U32, Num(fid), U32, [v], [Vec(Str)]);
    assert [Num(fid), Num(fid)] + [v] == WalkMessage(fid, names).fields && [U32, U32] + [Vec(Str)] == ks;
    TupleFine(WalkMessage(fid, names).fields, ks);
  }

  /** Twenty one-letter names fit in a request of 256 bytes, but their qids do not fit in a reply of 256. */
  lemma RwalkOutgrows(cfg: Config, fid: u32, node: Node, names: seq<Value>)
    requires |names| == 20 && forall i | 0 <= i < 20 :: names[i] == Text([0x2e])
    ensures var st := State(map[fid := Fid(node, None, Directory)], 256);
            Received(st, WalkMessage(fid, names)) && !WalkKeeps(cfg, Loop(), st, WalkMessage(fid, names))
  {
    var st := State(map[fid := Fid(node, None, Directory)], 256);
    AsciiUtf8([0x2e], 0);
    DotsSize(names);
    WalkMessageSize(fid, names);
    LoopResolves(cfg, node, names);
    DotsNulFree(names);
    WalkSent(cfg, Loop(), st, WalkMessage(fid, names));
  }

  lemma {:induction false} DotsNulFree(names: seq<Value>)
    requires forall i | 0 <= i < |names| :: names[i] == Text([0x2e])
    ensures NulFree(names) == |names|
  {
    if names != [] { DotsNulFree(names[1..]); }
  }

  lemma {:induction false} DotsSize(names: seq<Value>)
    requires forall i | 0 <= i < |names| :: names[i] == Text([0x2e])
    ensures ItemsSize(names, Str) == 3 * |names|
  {
    if names != [] { DotsSize(names[1..]); }
  }
}
