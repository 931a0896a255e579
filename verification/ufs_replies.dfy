/** What the replies of the file server say, field by field, and what a client gets by reading and writing in turns. */
module UfsReplies {
  import opened Bytes
  import opened WireFormat
  import opened Messages
  import opened ReadDirs
  import opened Ufs
  import opened UfsRuns

  // ------------------------------------------------------------------ qids

  function QidType(q: Value): nat {
    if q.Both? && q.fst.Num? then q.fst.n else 0
  }

  function QidVersion(q: Value): nat {
    if q.Both? && q.snd.Both? && q.snd.fst.Num? then q.snd.fst.n else 0
  }

  function QidPath(q: Value): nat {
    if q.Both? && q.snd.Both? && q.snd.snd.Num? then q.snd.snd.n else 0
  }

  predicate ModeIn(s: Stat, low: nat, high: nat) {
    low <= s.mode % 0x1_0000 < high
  }

  /** Its path is the inode, its version the time of change, and its type tells directories and links. */
  predicate QidShows(q: Value, s: Stat) {
    && QidPath(q) == s.ino && QidVersion(q) == s.mtime % 0x1_0000_0000
    && QidType(q) == (if ModeIn(s, 0x4000, 0x5000) then 0x80 else if ModeIn(s, 0xa000, 0xb000) then 2 else 0)
  }

  lemma FormatIs(s: Stat)
    ensures s.Format() == s.mode % 0x1_0000 / 0x1000
  {
    assert s.mode == 0x1_0000 * (s.mode / 0x1_0000) + s.mode % 0x1_0000;
  }

  lemma QidIs(s: Stat)
    ensures QidShows(s.Qid(), s)
  {
    FormatIs(s);
    var ty := if s.Format() == 4 then 0x80 else if s.Format() == 10 then 2 else 0;
    Tuple3(Num(ty), Num(s.mtime % 0x1_0000_0000), Num(s.ino));
  }

  /** What a fid remembers of the type. */
  predicate TypeShows(t: FileType, s: Stat) {
    (t.Directory? <==> ModeIn(s, 0x4000, 0x5000)) && (t.Regular? <==> ModeIn(s, 0x8000, 0x9000))
  }

  lemma TypeIs(s: Stat)
    ensures TypeShows(s.Type(), s)
  {
    FormatIs(s);
  }

  lemma QidsShow(stats: seq<Stat>)
    ensures forall i | 0 <= i < |stats| :: QidShows(Qids(stats)[i], stats[i])
  {
    forall i | 0 <= i < |stats| ensures QidShows(Qids(stats)[i], stats[i]) { QidIs(stats[i]); }
  }

  // ------------------------------------------------------------- directory entries

  function DirentQid(v: Value): Value {
    if v.Both? then v.fst else Nothing
  }

  function DirentType(v: Value): nat {
    if v.Both? && v.snd.Both? && v.snd.snd.Both? && v.snd.snd.fst.Num? then v.snd.snd.fst.n else 0
  }

  function DirentOffset(v: Value): u64 {
    if v.Both? && v.snd.Both? && v.snd.fst.Num? && v.snd.fst.n < 0x1_0000_0000_0000_0000 then v.snd.fst.n else 0
  }

  function DirentName(v: Value): seq<byte> {
    if v.Both? && v.snd.Both? && v.snd.snd.Both? && v.snd.snd.snd.Text? then v.snd.snd.snd.utf8 else []
  }

  /** An entry's own name, type and cookie, and the qid of what it names. */
  predicate DirentShows(v: Value, e: Entry, s: Stat) {
    DirentName(v) == e.name && DirentType(v) == e.ty && DirentOffset(v) == e.off && QidShows(DirentQid(v), s)
  }

  lemma DirentIs(s: Stat, e: Entry)
    ensures DirentShows(DirentOf(s, e), e, s)
  {
    QidIs(s);
    Tuple4(s.Qid(), Num(e.off), Num(e.ty), Text(e.name));
  }

  // -------------------------------------------------------------- session requests

  /** The answer of the server to one message. */
  function Served(cfg: Config, w: World, st: State, tag: u16, m: Message): (State, Rframe)
    requires st.msize >= DATA_HEADER && m.ty < 255 && m.ty != TLERROR
  {
    Handle(cfg, w, st, Tframe(tag, Ok(m)))
  }

  /** An error and no change. */
  function Refused(st: State, tag: u16, e: u32): (State, Rframe) {
    (st, Rframe(tag, Message(7, [Num(e)])))
  }

  /** An error reply carries the code of what failed. */
  lemma ErrorShows(cfg: Config, w: World, st: State, tag: u16, m: Message, e: Errno)
    requires st.msize >= DATA_HEADER && m.ty < 255 && m.ty != TLERROR && Answered(cfg, w, st, m).1 == Errno(e)
    ensures Served(cfg, w, st, tag, m).1 == Rframe(tag, Message(7, [Num(e)]))
  {
  }

  /** A version is negotiated: the smaller message size, the one dialect known or none, and no fids. */
  lemma VersionShows(cfg: Config, w: World, st: State, tag: u16, msize: u32, version: seq<byte>)
    requires st.msize >= DATA_HEADER
    ensures var (after, r) := Served(cfg, w, st, tag, Message(100, [Num(msize), Text(version)]));
      if msize < 256 then after == st && r.msg == Message(7, [Num(22)])
      else
        && after == State(map[], Min(st.msize, msize)) && r.msg.ty == 101
        && r.msg.fields == [Num(Min(st.msize, msize)), Text(if version == Bytes9P() then Bytes9P() else Unknown())]
  {
  }

  /** The characters of 9P2000.L */
  function Bytes9P(): seq<byte> {
    ['9' as int, 'P' as int, '2' as int, '0' as int, '0' as int, '0' as int, '.' as int, 'L' as int]
  }

  function Unknown(): seq<byte> {
    ['u' as int, 'n' as int, 'k' as int, 'n' as int, 'o' as int, 'w' as int, 'n' as int]
  }

  /** Attaching binds a free fid to the root, unopened, and a failure of the kernel comes back as it is. */
  lemma AttachShows(cfg: Config, w: World, st: State, tag: u16, fid: u32, afid: u32, user: seq<byte>, tree: seq<byte>, uid: u32)
    requires st.msize >= DATA_HEADER
    ensures var (after, r) := Served(cfg, w, st, tag, Message(104, [Num(fid), Num(afid), Text(user), Text(tree), Num(uid)]));
      if fid in st.fids then after == st && r.msg == Message(7, [Num(9)])
      else match w.root
      case Errno(e) => after == st && r.msg == Message(7, [Num(e)])
      case Good(node) =>
        match w.stat(node)
        case Errno(e) => after == st && r.msg == Message(7, [Num(e)])
        case Good(s) =>
          && fid in after.fids && after.fids == st.fids[fid := after.fids[fid]]
          && after.fids[fid].path == node && after.fids[fid].file.None? && TypeShows(after.fids[fid].filetype, s)
          && r.msg.ty == 105 && |r.msg.fields| == 1 && QidShows(r.msg.fields[0], s)
  {
    if w.root.Good? && w.stat(w.root.value).Good? {
      QidIs(w.stat(w.root.value).value);
      TypeIs(w.stat(w.root.value).value);
    }
  }

  /** Opening opens the fid's own path with the flags asked for, and keeps path and type. */
  lemma LopenShows(cfg: Config, w: World, st: State, tag: u16, fid: u32, flags: u32)
    requires st.msize >= DATA_HEADER
    ensures var (after, r) := Served(cfg, w, st, tag, Message(12, [Num(fid), Num(flags)]));
      if fid !in st.fids then after == st && r.msg == Message(7, [Num(9)])
      else var was := st.fids[fid];
      match w.open(was.path, flags)
      case Errno(e) => after == st && r.msg == Message(7, [Num(e)])
      case Good(h) =>
        match w.fstat(h)
        case Errno(e) => after == st && r.msg == Message(7, [Num(e)])
        case Good(s) =>
          && after == State(st.fids[fid := Fid(was.path, Some(h), was.filetype)], st.msize)
          && r.msg.ty == 13 && |r.msg.fields| == 2 && QidShows(r.msg.fields[0], s) && r.msg.fields[1] == Num(0)
  {
    if fid in st.fids {
      var h := w.open(st.fids[fid].path, flags);
      if h.Good? && w.fstat(h.value).Good? { QidIs(w.fstat(h.value).value); }
    }
  }

  /**
   * Creating creates the name in the fid's own directory and turns the fid into the open new file; if that cannot
   * be looked up, the fid keeps its path.
   */
  lemma LcreateShows(cfg: Config, w: World, st: State, tag: u16, fid: u32, name: seq<byte>, flags: u32, mode: u32, gid: u32,
                     h: File, s: Stat)
    requires st.msize >= DATA_HEADER && fid in st.fids && st.fids[fid].filetype == Directory && !HasNul(name)
    requires w.create(st.fids[fid].path, name, flags, mode) == Good(h) && w.fstat(h) == Good(s)
    ensures var (after, r) := Served(cfg, w, st, tag, Message(14, [Num(fid), Text(name), Num(flags), Num(mode), Num(gid)]));
      match w.lookup(st.fids[fid].path, name)
      case Errno(e) =>
        after == State(st.fids[fid := Fid(st.fids[fid].path, Some(h), Regular)], st.msize) && r.msg == Message(7, [Num(e)])
      case Good(node) =>
        && after == State(st.fids[fid := Fid(node, Some(h), Regular)], st.msize)
        && r.msg.ty == 15 && |r.msg.fields| == 2 && QidShows(r.msg.fields[0], s) && r.msg.fields[1] == Num(0)
  {
    QidIs(s);
  }

  /** Before that nothing changes: no fid, not a directory, a bad name, and then what the kernel says. */
  lemma LcreateFails(cfg: Config, w: World, st: State, tag: u16, fid: u32, name: seq<byte>, flags: u32, mode: u32, gid: u32)
    requires st.msize >= DATA_HEADER
    ensures var served := Served(cfg, w, st, tag, Message(14, [Num(fid), Text(name), Num(flags), Num(mode), Num(gid)]));
      if fid !in st.fids then served == Refused(st, tag, 9)
      else if st.fids[fid].filetype != Directory then served == Refused(st, tag, 20)
      else if HasNul(name) then served == Refused(st, tag, 22)
      else match w.create(st.fids[fid].path, name, flags, mode)
        case Errno(e) => served == Refused(st, tag, e)
        case Good(h) => match w.fstat(h) case Errno(e) => served == Refused(st, tag, e) case Good(_) => true
  {
  }

  // ------------------------------------------------------------------ queries

  function Mapped(ids: map<u32, u32>, id: u32): Value {
    Num(if id in ids then ids[id] else id)
  }

  /** The attributes of a file, ids translated, in the order of the protocol. */
  predicate AttributesShow(cfg: Config, s: Stat, f: seq<Value>) {
    && |f| == 20 && f[0] == Num(0x7ff) && QidShows(f[1], s)
    && f[2..5] == [Num(s.mode), Mapped(cfg.uidMap, s.uid), Mapped(cfg.gidMap, s.gid)]
    && f[5..10] == [Num(s.nlink), Num(s.rdev), Num(s.size), Num(s.blksize), Num(s.blocks)]
    && f[10..12] == [Num(s.atime), Num(s.atimeNsec)] && f[12..14] == [Num(s.mtime), Num(s.mtimeNsec)]
    && f[14..16] == [Num(s.ctime), Num(s.ctimeNsec)] && f[16..] == [Num(0), Num(0), Num(0), Num(0)]
  }

  lemma AttributesAre(cfg: Config, s: Stat, f: seq<Value>)
    requires f == [Num(P9_GETATTR_BASIC), s.Qid()] + Attributes(cfg, s)
    ensures AttributesShow(cfg, s, f)
  {
    QidIs(s);
  }

  lemma GetAttrShows(cfg: Config, w: World, st: State, tag: u16, fid: u32, mask: u64)
    requires st.msize >= DATA_HEADER
    ensures var served := Served(cfg, w, st, tag, Message(24, [Num(fid), Num(mask)]));
      if fid !in st.fids then served == Refused(st, tag, 9)
      else match w.stat(st.fids[fid].path)
        case Errno(e) => served == Refused(st, tag, e)
        case Good(s) => served.0 == st && served.1.msg.ty == 25 && AttributesShow(cfg, s, served.1.msg.fields)
  {
    if fid in st.fids && w.stat(st.fids[fid].path).Good? {
      var s := w.stat(st.fids[fid].path).value;
      AttributesAre(cfg, s, [Num(P9_GETATTR_BASIC), s.Qid()] + Attributes(cfg, s));
    }
  }

  lemma StatfsShows(cfg: Config, w: World, st: State, tag: u16, fid: u32)
    requires st.msize >= DATA_HEADER
    ensures var served := Served(cfg, w, st, tag, Message(8, [Num(fid)]));
      if fid !in st.fids then served == Refused(st, tag, 9)
      else match w.statfs(st.fids[fid].path)
        case Errno(e) => served == Refused(st, tag, e)
        case Good(f) =>
          served == (st, Rframe(tag, Message(9, [Num(f.ty), Num(f.bsize), Num(f.blocks), Num(f.bfree), Num(f.bavail),
                                                 Num(f.files), Num(f.ffree), Num(f.fsid), Num(f.namelen)])))
  {
  }

  /** A link's target comes back as it is, unless it is not UTF-8. */
  lemma ReadlinkShows(cfg: Config, w: World, st: State, tag: u16, fid: u32)
    requires st.msize >= DATA_HEADER
    ensures var served := Served(cfg, w, st, tag, Message(22, [Num(fid)]));
      if fid !in st.fids then served == Refused(st, tag, 9)
      else match w.readlink(st.fids[fid].path)
        case Errno(e) => served == Refused(st, tag, e)
        case Good(target) =>
          served == if ValidUtf8(target) then (st, Rframe(tag, Message(23, [Text(target)]))) else Refused(st, tag, 22)
  {
  }

  /** A new directory's qid is that of the name just made, under the fid's own path. */
  lemma MkdirShows(cfg: Config, w: World, st: State, tag: u16, fid: u32, name: seq<byte>, mode: u32, gid: u32)
    requires st.msize >= DATA_HEADER
    ensures var m := Message(72, [Num(fid), Text(name), Num(mode), Num(gid)]);
      var served := Served(cfg, w, st, tag, m);
      if fid !in st.fids then served == Refused(st, tag, 9)
      else if HasNul(name) then served == Refused(st, tag, 22)
      else match w.act(m)
        case Some(e) => served == Refused(st, tag, e)
        case None =>
          match w.statAt(st.fids[fid].path, name)
          case Errno(e) => served == Refused(st, tag, e)
          case Good(s) =>
            && served.0 == st && served.1.msg.ty == 73
            && |served.1.msg.fields| == 1 && QidShows(served.1.msg.fields[0], s)
  {
    if fid in st.fids && w.statAt(st.fids[fid].path, name).Good? { QidIs(w.statAt(st.fids[fid].path, name).value); }
  }

  /** Locks always succeed on an open file that can be looked at. */
  lemma LockShows(cfg: Config, w: World, st: State, tag: u16, fid: u32, more: seq<Value>, h: File)
    requires st.msize >= DATA_HEADER && fid in st.fids && st.fids[fid].file == Some(h)
    ensures Served(cfg, w, st, tag, Message(52, [Num(fid)] + more)) ==
      (st, Rframe(tag, match w.fstat(h) case Errno(e) => Message(7, [Num(e)]) case Good(_) => Message(53, [Num(0)])))
  {
  }

  /** What the kernel says to a call that only changes files. */
  function Outcome(w: World, m: Message, ty: u8): Message {
    match w.act(m) case Some(e) => Message(7, [Num(e)]) case None => Message(ty, [])
  }

  /** A link needs both fids and then a name without NUL; then the kernel decides. */
  lemma LinkShows(cfg: Config, w: World, st: State, tag: u16, dir: u32, fid: u32, name: seq<byte>)
    requires st.msize >= DATA_HEADER
    ensures var m := Message(70, [Num(dir), Num(fid), Text(name)]);
      Served(cfg, w, st, tag, m) ==
      (st, Rframe(tag, if dir !in st.fids || fid !in st.fids then Message(7, [Num(9)])
                       else if HasNul(name) then Message(7, [Num(22)]) else Outcome(w, m, 71)))
  {
  }

  /** A rename needs the old directory and name, and then the new ones, so a bad old name hides a bad new fid. */
  lemma RenameShows(cfg: Config, w: World, st: State, tag: u16, dir: u32, name: seq<byte>, dir': u32, name': seq<byte>)
    requires st.msize >= DATA_HEADER
    ensures var m := Message(74, [Num(dir), Text(name), Num(dir'), Text(name')]);
      Served(cfg, w, st, tag, m) ==
      (st, Rframe(tag, if dir !in st.fids then Message(7, [Num(9)]) else if HasNul(name) then Message(7, [Num(22)])
                       else if dir' !in st.fids then Message(7, [Num(9)]) else if HasNul(name') then Message(7, [Num(22)])
                       else Outcome(w, m, 75)))
  {
  }

  lemma UnlinkShows(cfg: Config, w: World, st: State, tag: u16, dir: u32, name: seq<byte>, flags: u32)
    requires st.msize >= DATA_HEADER
    ensures var m := Message(76, [Num(dir), Text(name), Num(flags)]);
      Served(cfg, w, st, tag, m) ==
      (st, Rframe(tag, if dir !in st.fids then Message(7, [Num(9)])
                       else if HasNul(name) then Message(7, [Num(22)]) else Outcome(w, m, 77)))
  {
  }

  /** Requests that are never granted: EOPNOTSUPP for five, EACCES for two. */
  lemma NeverGranted(cfg: Config, w: World, st: State, tag: u16, m: Message)
    requires st.msize >= DATA_HEADER
    ensures m.ty == 102 || m.ty == 122 || m.ty == 20 || m.ty == 30 || m.ty == 32 ==>
      Served(cfg, w, st, tag, m) == (st, Rframe(tag, Message(7, [Num(95)])))
    ensures m.ty == 16 || m.ty == 18 ==> Served(cfg, w, st, tag, m) == (st, Rframe(tag, Message(7, [Num(13)])))
  {
  }

  // ------------------------------------------------------------------- reading

  /** A request that leaves the state alone. */
  predicate Quiet(s: Step) {
    s.frame.msg.Ok? && !Changes(s.frame.msg.m.ty)
  }

  lemma QuietStep(cfg: Config, s: Step)
    requires Serves(cfg, s) && Quiet(s)
    ensures s.after == s.before
  {
    AnsweredTypes(cfg, s.world, s.before, s.frame.msg.m);
  }

  lemma {:induction false} QuietRun(cfg: Config, st: State, steps: seq<Step>, n: nat)
    requires Run(cfg, st, steps) && n <= |steps| && forall k | 0 <= k < |steps| :: Quiet(steps[k])
    ensures StateAt(st, steps, n) == st
  {
    if n > 0 {
      QuietRun(cfg, st, steps, n - 1);
      QuietStep(cfg, steps[n - 1]);
    }
  }

  /** At most `n` bytes of `c` from `o` on. */
  function Part(c: seq<byte>, o: nat, n: nat): seq<byte> {
    if o >= |c| then [] else c[o..Min(o + n, |c|)]
  }

  /** An answer of the kernel to a read of a file: an error or what is there, perhaps less, but some if there is some. */
  predicate Yields(a: Result<seq<byte>>, c: seq<byte>, o: nat, n: nat) {
    match a
    case Errno(_) => true
    case Good(b) => b <= Part(c, o, n) && (b == [] ==> Part(c, o, n) == [])
  }

  /** A kernel in which the open file has the contents. */
  ghost predicate Holds(w: World, h: File, c: seq<byte>) {
    forall n: nat, o: u64 :: Yields(w.read(h, n, o), c, o, n)
  }

  function Tread(fid: u32, o: u64, count: u32): Message {
    Message(116, [Num(fid), Num(o), Num(count)])
  }

  /** A read asks the kernel for the fid's own file at the offset, as far as the message size allows. */
  lemma ReadShows(cfg: Config, w: World, st: State, tag: u16, fid: u32, o: u64, count: u32, h: File)
    requires st.msize >= DATA_HEADER && fid in st.fids && st.fids[fid].file == Some(h)
    ensures Served(cfg, w, st, tag, Tread(fid, o, count)) ==
            (st, Rframe(tag, match w.read(h, Min(st.msize - 11, count), o)
                             case Good(b) => Message(117, [Data(b)])
                             case Errno(e) => Message(7, [Num(e)])))
  {
  }

  function ReplyData(s: Step): seq<byte> {
    DataAt(s.reply.msg, 0)
  }

  /** All data of the first `n` replies. */
  function Gathered(steps: seq<Step>, n: nat): seq<byte>
    requires n <= |steps|
  {
    if n == 0 then [] else Gathered(steps, n - 1) + ReplyData(steps[n - 1])
  }

  /** Step `k` is a Tread of the fid that resumes where the replies before it ended. */
  ghost predicate ResumesRead(steps: seq<Step>, k: nat, fid: u32, count: u32)
    requires k < |steps|
  {
    var o := |Gathered(steps, k)|;
    o < 0x1_0000_0000_0000_0000 && steps[k].frame.msg == Ok(Tread(fid, o, count))
  }

  ghost predicate Reading(steps: seq<Step>, fid: u32, counts: seq<u32>, h: File, c: seq<byte>) {
    && |counts| == |steps|
    && forall k | 0 <= k < |steps| :: ResumesRead(steps, k, fid, counts[k]) && Holds(steps[k].world, h, c)
  }

  /** The reply to a read of at most `n` bytes at `o`. */
  predicate Returned(s: Step, c: seq<byte>, o: nat, n: nat) {
    && ReplyData(s) <= Part(c, o, n)
    && (s.reply.msg.ty == 117 && ReplyData(s) == [] ==> Part(c, o, n) == [])
  }

  lemma ReadStep(cfg: Config, s: Step, fid: u32, o: u64, count: u32, h: File, c: seq<byte>)
    requires Serves(cfg, s) && s.frame.msg == Ok(Tread(fid, o, count)) && Holds(s.world, h, c)
    requires fid in s.before.fids && s.before.fids[fid].file == Some(h)
    ensures Returned(s, c, o, Min(s.before.msize - 11, count))
  {
    ReadShows(cfg, s.world, s.before, s.frame.tag, fid, o, count, h);
    assert s.frame == Tframe(s.frame.tag, Ok(Tread(fid, o, count)));
    assert Yields(s.world.read(h, Min(s.before.msize - 11, count), o), c, o, Min(s.before.msize - 11, count));
  }

  lemma ReadsQuiet(steps: seq<Step>, fid: u32, counts: seq<u32>, h: File, c: seq<byte>)
    requires Reading(steps, fid, counts, h, c)
    ensures forall k | 0 <= k < |steps| :: Quiet(steps[k])
  {
    forall k | 0 <= k < |steps| ensures Quiet(steps[k]) { assert ResumesRead(steps, k, fid, counts[k]); }
  }

  lemma ReadNext(cfg: Config, steps: seq<Step>, fid: u32, count: u32, h: File, c: seq<byte>, k: nat)
    requires k < |steps| && ResumesRead(steps, k, fid, count) && Holds(steps[k].world, h, c)
    requires Serves(cfg, steps[k]) && fid in steps[k].before.fids && steps[k].before.fids[fid].file == Some(h)
    ensures Returned(steps[k], c, |Gathered(steps, k)|, Min(steps[k].before.msize - 11, count))
    ensures Continues(steps, c, k)
  {
    ReadStep(cfg, steps[k], fid, |Gathered(steps, k)|, count, h, c);
    PartPrefix(c, |Gathered(steps, k)|, Min(steps[k].before.msize - 11, count), ReplyData(steps[k]));
  }

  lemma ReadServed(cfg: Config, st: State, steps: seq<Step>, fid: u32, counts: seq<u32>, h: File, c: seq<byte>, k: nat)
    requires Run(cfg, st, steps) && Reading(steps, fid, counts, h, c) && k < |steps|
    ensures Serves(cfg, steps[k]) && steps[k].before == st
    ensures ResumesRead(steps, k, fid, counts[k]) && Holds(steps[k].world, h, c)
  {
    ReadsQuiet(steps, fid, counts, h, c);
    QuietRun(cfg, st, steps, k);
  }

  lemma PartPrefix(c: seq<byte>, o: nat, n: nat, b: seq<byte>)
    requires b <= Part(c, o, n)
    ensures b == Part(c, o, |b|)
  {
  }

  lemma PartNext(c: seq<byte>, o: nat, n: nat)
    requires o <= |c|
    ensures o + |Part(c, o, n)| <= |c| && c[..o] + Part(c, o, n) == c[..o + |Part(c, o, n)|]
  {
  }

  /** Reply `k` is a part of `c` that starts where those before it ended. */
  ghost predicate Continues(steps: seq<Step>, c: seq<byte>, k: nat)
    requires k < |steps|
  {
    exists limit: nat :: ReplyData(steps[k]) == Part(c, |Gathered(steps, k)|, limit)
  }

  lemma {:induction false} GatheredPrefix(steps: seq<Step>, c: seq<byte>, n: nat)
    requires n <= |steps| && forall k | 0 <= k < n :: Continues(steps, c, k)
    ensures Gathered(steps, n) <= c
  {
    if n > 0 {
      GatheredPrefix(steps, c, n - 1);
      assert Continues(steps, c, n - 1);
      var limit: nat :| ReplyData(steps[n - 1]) == Part(c, |Gathered(steps, n - 1)|, limit);
      PartNext(c, |Gathered(steps, n - 1)|, limit);
    }
  }

  /** Over any run of such reads, the replies are the file from its start on, once and in order. */
  lemma ReadsInOrder(cfg: Config, st: State, steps: seq<Step>, fid: u32, counts: seq<u32>, h: File, c: seq<byte>, n: nat)
    requires Run(cfg, st, steps) && Reading(steps, fid, counts, h, c) && n <= |steps|
    requires fid in st.fids && st.fids[fid].file == Some(h)
    ensures StateAt(st, steps, n) == st && Gathered(steps, n) <= c
  {
    forall k | 0 <= k < n ensures Continues(steps, c, k) {
      ReadServed(cfg, st, steps, fid, counts, h, c, k);
      ReadNext(cfg, steps, fid, counts[k], h, c, k);
    }
    ReadsQuiet(steps, fid, counts, h, c);
    QuietRun(cfg, st, steps, n);
    GatheredPrefix(steps, c, n);
  }

  /** And one that is no error is empty exactly if nothing was asked for, or the whole file has been returned. */
  lemma ReadsEnd(cfg: Config, st: State, steps: seq<Step>, fid: u32, counts: seq<u32>, h: File, c: seq<byte>, k: nat)
    requires Run(cfg, st, steps) && Reading(steps, fid, counts, h, c) && k < |steps|
    requires fid in st.fids && st.fids[fid].file == Some(h) && st.msize >= MIN_MESSAGE_SIZE
    ensures steps[k].reply.msg.ty == 117 ==> (ReplyData(steps[k]) == [] <==> counts[k] == 0 || Gathered(steps, k) == c)
  {
    ReadsInOrder(cfg, st, steps, fid, counts, h, c, k);
    ReadServed(cfg, st, steps, fid, counts, h, c, k);
    ReadNext(cfg, steps, fid, counts[k], h, c, k);
    if |Gathered(steps, k)| == |c| { assert Gathered(steps, k) == c; }
  }

  // ------------------------------------------------------------------- writing

  function Twrite(fid: u32, o: u64, d: seq<byte>): Message {
    Message(118, [Num(fid), Num(o), Data(d)])
  }

  /** A write hands the kernel the request's data at its offset for the fid's own file, and returns its answer. */
  lemma WriteShows(cfg: Config, w: World, st: State, tag: u16, fid: u32, o: u64, d: seq<byte>, h: File)
    requires st.msize >= DATA_HEADER && fid in st.fids && st.fids[fid].file == Some(h)
    ensures Served(cfg, w, st, tag, Twrite(fid, o, d)) ==
            (st, Rframe(tag, match w.write(h, d, o)
                             case Good(n) => Message(119, [Num(n)])
                             case Errno(e) => Message(7, [Num(e)])))
  {
  }

  /** The contents after `d` has been written at `o`; a gap is filled with zeros, and nothing written leaves none. */
  function Overlay(c: seq<byte>, o: nat, d: seq<byte>): seq<byte> {
    if d == [] then c
    else (if o <= |c| then c[..o] else c + Zeros(o - |c|)) + d + (if o + |d| <= |c| then c[o + |d|..] else [])
  }

  /** How much of its data a write has been told was taken. */
  function Taken(s: Step): nat {
    if s.reply.msg.ty == 119 then NumAt(s.reply.msg, 0) else 0
  }

  function TakenBefore(steps: seq<Step>, n: nat): nat
    requires n <= |steps|
  {
    if n == 0 then 0 else TakenBefore(steps, n - 1) + Taken(steps[n - 1])
  }

  /** A kernel that takes a first part of what it is given, so that the file's contents become `after`. */
  ghost predicate Writes(w: World, h: File, before: seq<byte>, o: u64, d: seq<byte>, after: seq<byte>) {
    match w.write(h, d, o)
    case Errno(_) => after == before
    case Good(n) => n <= |d| && after == Overlay(before, o, d[..n])
  }

  /** Step `k` writes the next part of `d` from where the replies say the last one ended. */
  ghost predicate ResumesWrite(steps: seq<Step>, k: nat, fid: u32, base: nat, d: seq<byte>, len: nat, h: File,
                               before: seq<byte>, after: seq<byte>)
    requires k < |steps|
  {
    var t := TakenBefore(steps, k);
    && t + len <= |d| && base + t < 0x1_0000_0000_0000_0000
    && steps[k].frame.msg == Ok(Twrite(fid, base + t, d[t..t + len]))
    && Writes(steps[k].world, h, before, base + t, d[t..t + len], after)
  }

  ghost predicate Writing(steps: seq<Step>, fid: u32, base: nat, d: seq<byte>, lens: seq<nat>, h: File, cs: seq<seq<byte>>) {
    && |lens| == |steps| && |cs| == |steps| + 1
    && forall k | 0 <= k < |steps| :: ResumesWrite(steps, k, fid, base, d, lens[k], h, cs[k], cs[k + 1])
  }

  lemma WriteStep(cfg: Config, s: Step, fid: u32, o: u64, d: seq<byte>, h: File, before: seq<byte>, after: seq<byte>)
    requires Serves(cfg, s) && s.frame.msg == Ok(Twrite(fid, o, d)) && Writes(s.world, h, before, o, d, after)
    requires fid in s.before.fids && s.before.fids[fid].file == Some(h)
    ensures Taken(s) <= |d| && after == Overlay(before, o, d[..Taken(s)])
  {
    WriteShows(cfg, s.world, s.before, s.frame.tag, fid, o, d, h);
    assert s.frame == Tframe(s.frame.tag, Ok(Twrite(fid, o, d)));
  }

  lemma OverlayTwice(c: seq<byte>, o: nat, d: seq<byte>, t: nat, n: nat)
    requires t + n <= |d|
    ensures Overlay(Overlay(c, o, d[..t]), o + t, d[t..t + n]) == Overlay(c, o, d[..t + n])
  {
    assert d[..t] + d[t..t + n] == d[..t + n];
    if t > 0 && n > 0 { OverlayJoin(c, o, d[..t], d[t..t + n]); }
  }

  lemma OverlayJoin(c: seq<byte>, o: nat, a: seq<byte>, b: seq<byte>)
    requires a != [] && b != []
    ensures Overlay(Overlay(c, o, a), o + |a|, b) == Overlay(c, o, a + b)
  {
  }

  lemma SubSlice(d: seq<byte>, t: nat, len: nat, n: nat)
    requires n <= len && t + len <= |d|
    ensures d[t..t + len][..n] == d[t..t + n]
  {
  }

  lemma WritesQuiet(steps: seq<Step>, fid: u32, base: nat, d: seq<byte>, lens: seq<nat>, h: File, cs: seq<seq<byte>>)
    requires Writing(steps, fid, base, d, lens, h, cs)
    ensures forall k | 0 <= k < |steps| :: Quiet(steps[k])
  {
    forall k | 0 <= k < |steps| ensures Quiet(steps[k]) {
      assert ResumesWrite(steps, k, fid, base, d, lens[k], h, cs[k], cs[k + 1]);
    }
  }

  lemma WriteNext(cfg: Config, steps: seq<Step>, fid: u32, base: nat, d: seq<byte>, len: nat, h: File,
                  cs: seq<seq<byte>>, k: nat)
    requires k < |steps| && |cs| == |steps| + 1 && ResumesWrite(steps, k, fid, base, d, len, h, cs[k], cs[k + 1])
    requires Serves(cfg, steps[k]) && fid in steps[k].before.fids && steps[k].before.fids[fid].file == Some(h)
    ensures Extends(steps, base, d, cs, k, len)
  {
    var t := TakenBefore(steps, k);
    var chunk := d[t..t + len];
    WriteStep(cfg, steps[k], fid, base + t, chunk, h, cs[k], cs[k + 1]);
    ChunkExtends(steps, base, d, cs, k, len, chunk);
  }

  lemma ChunkExtends(steps: seq<Step>, base: nat, d: seq<byte>, cs: seq<seq<byte>>, k: nat, len: nat, chunk: seq<byte>)
    requires k < |steps| && |cs| == |steps| + 1 && TakenBefore(steps, k) + len <= |d|
    requires chunk == d[TakenBefore(steps, k)..TakenBefore(steps, k) + len] && Taken(steps[k]) <= |chunk|
    requires cs[k + 1] == Overlay(cs[k], base + TakenBefore(steps, k), chunk[..Taken(steps[k])])
    ensures Extends(steps, base, d, cs, k, len)
  {
    SubSlice(d, TakenBefore(steps, k), len, Taken(steps[k]));
  }

  /** Step `k` has put what was taken of it behind what was taken before. */
  ghost predicate Extends(steps: seq<Step>, base: nat, d: seq<byte>, cs: seq<seq<byte>>, k: nat, len: nat)
    requires k < |steps| && |cs| == |steps| + 1
  {
    var t, n := TakenBefore(steps, k), Taken(steps[k]);
    n <= len && t + len <= |d| && cs[k + 1] == Overlay(cs[k], base + t, d[t..t + n])
  }

  lemma {:induction false} Overlaid(steps: seq<Step>, base: nat, d: seq<byte>, lens: seq<nat>, cs: seq<seq<byte>>, n: nat)
    requires |lens| == |steps| && |cs| == |steps| + 1 && n <= |steps|
    requires forall k | 0 <= k < n :: Extends(steps, base, d, cs, k, lens[k])
    ensures var t := TakenBefore(steps, n); t <= |d| && cs[n] == Overlay(cs[0], base, d[..t])
  {
    if n > 0 {
      Overlaid(steps, base, d, lens, cs, n - 1);
      assert Extends(steps, base, d, cs, n - 1, lens[n - 1]);
      OverlayTwice(cs[0], base, d, TakenBefore(steps, n - 1), Taken(steps[n - 1]));
    }
  }

  /** Over any run of such writes, the file has taken exactly the first part of the data the replies account for. */
  lemma WritesInOrder(cfg: Config, st: State, steps: seq<Step>, fid: u32, base: nat, d: seq<byte>,
                      lens: seq<nat>, h: File, cs: seq<seq<byte>>, n: nat)
    requires Run(cfg, st, steps) && Writing(steps, fid, base, d, lens, h, cs) && n <= |steps|
    requires fid in st.fids && st.fids[fid].file == Some(h)
    ensures var t := TakenBefore(steps, n);
      StateAt(st, steps, n) == st && t <= |d| && cs[n] == Overlay(cs[0], base, d[..t])
  {
    WritesQuiet(steps, fid, base, d, lens, h, cs);
    forall k | 0 <= k < n ensures Extends(steps, base, d, cs, k, lens[k]) {
      QuietRun(cfg, st, steps, k);
      assert Serves(cfg, steps[k]) && steps[k].before == StateAt(st, steps, k);
      assert ResumesWrite(steps, k, fid, base, d, lens[k], h, cs[k], cs[k + 1]);
      WriteNext(cfg, steps, fid, base, d, lens[k], h, cs, k);
    }
    QuietRun(cfg, st, steps, n);
    Overlaid(steps, base, d, lens, cs, n);
  }
}
