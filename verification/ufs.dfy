/**
 * The 9P file server as a function from state and request to state and reply. The kernel
 * is a `World`: its answers are fixed while one request is served and arbitrary from one
 * request to the next.
 */
module Ufs {
  import opened Bytes
  import opened WireFormat
  import opened Messages
  import opened ReadDirs

  type Node = nat // an open path
  type File = nat // an open file or directory

  const ENOENT: Errno := 2
  const EBADF: Errno := 9
  const EACCES: Errno := 13
  const ENOTDIR: Errno := 20
  const EOPNOTSUPP: Errno := 95

  const MIN_MESSAGE_SIZE: u32 := 256
  const MAX_MESSAGE_SIZE: u32 := 64 * 1024 + 24
  const DATA_HEADER := 11 // an Rread or Rreaddir frame without its data
  const PATH_MAX := 4096
  const P9_DIRECTORY: u32 := 0x1_0000
  const P9_LOCK_TYPE_UNLCK: u8 := 2
  const P9_LOCK_SUCCESS: u8 := 0
  const P9_GETATTR_BASIC: u64 := 0x7ff

  const VERSION_9P2000L: seq<byte> := [0x39, 0x50, 0x32, 0x30, 0x30, 0x30, 0x2e, 0x4c]
  const VERSION_UNKNOWN: seq<byte> := [0x75, 0x6e, 0x6b, 0x6e, 0x6f, 0x77, 0x6e]

  // ------------------------------------------------------------------ the kernel

  datatype FileType = Regular | Directory | Other

  /** `stat64`; signed fields are held as the bits the server copies out. */
  datatype Stat = Stat(mode: u32, ino: u64, uid: u32, gid: u32, nlink: u64, rdev: u64, size: u64,
                       blksize: u64, blocks: u64, atime: u64, atimeNsec: u64, mtime: u64, mtimeNsec: u64,
                       ctime: u64, ctimeNsec: u64)
  {
    /** The bits under S_IFMT. */
    function Format(): nat {
      mode / 0x1000 % 16
    }

    function Type(): FileType {
      if Format() == 8 then Regular else if Format() == 4 then Directory else Other
    }

    function Qid(): Value {
      var ty := if Format() == 4 then 0x80 else if Format() == 10 then 2 else 0;
      Tuple([Num(ty), Num(mtime % 0x1_0000_0000), Num(ino)])
    }
  }

  datatype FsStat = FsStat(ty: u32, bsize: u32, blocks: u64, bfree: u64, bavail: u64, files: u64, ffree: u64,
                           fsid: u64, namelen: u32)

  datatype World = World(
    root: Result<Node>,
    stat: Node -> Result<Stat>,
    fstat: File -> Result<Stat>,
    statAt: (Node, seq<byte>) -> Result<Stat>,
    statfs: Node -> Result<FsStat>,
    lookup: (Node, seq<byte>) -> Result<Node>,
    dup: Node -> Result<Node>,
    open: (Node, u32) -> Result<File>,
    create: (Node, seq<byte>, u32, u32) -> Result<File>,
    dir: File -> Dir,
    read: (File, nat, u64) -> Result<seq<byte>>,
    write: (File, seq<byte>, u64) -> Result<u32>,
    readlink: Node -> Result<seq<byte>>,
    act: Message -> Option<Errno>) // the outcome of calls that only change files

  /** No more bytes come back than the caller's buffer holds. */
  ghost predicate Lawful(w: World) {
    && (forall h, n, o | w.read(h, n, o).Good? :: |w.read(h, n, o).value| <= n)
    && (forall p | w.readlink(p).Good? :: |w.readlink(p).value| <= PATH_MAX)
  }

  // ------------------------------------------------------------------ the server

  datatype Fid = Fid(path: Node, file: Option<File>, filetype: FileType)

  datatype Config = Config(casefold: bool, uidMap: map<u32, u32>, gidMap: map<u32, u32>)

  datatype State = State(fids: map<u32, Fid>, msize: u32)

  type Answer = Result<Message>

  function MapId(ids: map<u32, u32>, id: u32): u32 {
    if id in ids then ids[id] else id
  }

  // Fields of a request, by position.

  function NumAt(m: Message, i: nat): nat {
    if i < |m.fields| && m.fields[i].Num? then m.fields[i].n else 0
  }

  function FidAt(m: Message, i: nat): u32 {
    if NumAt(m, i) < 0x1_0000_0000 then NumAt(m, i) else 0
  }

  function OffsetAt(m: Message, i: nat): u64 {
    if NumAt(m, i) < 0x1_0000_0000_0000_0000 then NumAt(m, i) else 0
  }

  function TextAt(m: Message, i: nat): seq<byte> {
    if i < |m.fields| && m.fields[i].Text? then m.fields[i].utf8 else []
  }

  function DataAt(m: Message, i: nat): seq<byte> {
    if i < |m.fields| && m.fields[i].Data? then m.fields[i].data else []
  }

  function NamesAt(m: Message, i: nat): seq<Value> {
    if i < |m.fields| && m.fields[i].List? then m.fields[i].items else []
  }

  function NameOf(v: Value): seq<byte> {
    if v.Text? then v.utf8 else []
  }

  /** `CString::new` refuses names that hold a NUL. */
  predicate HasNul(s: seq<byte>) {
    exists i | 0 <= i < |s| :: s[i] == 0
  }

  // -------------------------------------------------------------- session requests

  function Version(st: State, m: Message): (State, Answer) {
    if FidAt(m, 0) < MIN_MESSAGE_SIZE then (st, Errno(EINVAL))
    else
      var msize: u32 := if st.msize <= FidAt(m, 0) then st.msize else FidAt(m, 0);
      var version := if TextAt(m, 1) == VERSION_9P2000L then VERSION_9P2000L else VERSION_UNKNOWN;
      (State(map[], msize), Good(Message(TVERSION + 1, [Num(msize), Text(version)])))
  }

  function Attach(w: World, st: State, m: Message): (State, Answer) {
    var fid := FidAt(m, 0);
    if fid in st.fids then (st, Errno(EBADF))
    else match w.root
      case Errno(e) => (st, Errno(e))
      case Good(node) =>
        match w.stat(node)
        case Errno(e) => (st, Errno(e))
        case Good(s) =>
          (st.(fids := st.fids[fid := Fid(node, None, s.Type())]), Good(Message(TATTACH + 1, [s.Qid()])))
  }

  function Clunk(st: State, m: Message): (State, Answer) {
    if FidAt(m, 0) !in st.fids then (st, Errno(EBADF))
    else (st.(fids := st.fids - {FidAt(m, 0)}), Good(Message(TCLUNK + 1, [])))
  }

  // -------------------------------------------------------------------- walking

  function Lower(c: byte): byte {
    if 0x41 <= c <= 0x5a then c + 0x20 else c
  }

  predicate EqIgnoreCase(a: seq<byte>, b: seq<byte>) {
    |a| == |b| && forall i | 0 <= i < |a| :: Lower(a[i]) == Lower(b[i])
  }

  /** The first entry from `i` on whose name agrees up to case. */
  function FirstFold(es: seq<Entry>, name: seq<byte>, i: nat): (k: nat)
    requires i <= |es|
    ensures i <= k <= |es|
    ensures k < |es| ==> EqIgnoreCase(name, es[k].name)
    ensures forall j | i <= j < k :: !EqIgnoreCase(name, es[j].name)
    decreases |es| - i
  {
    if i == |es| || EqIgnoreCase(name, es[i].name) then i else FirstFold(es, name, i + 1)
  }

  function Seek(d: Dir, off: u64): Result<nat> {
    match d.seek(off)
    case Errno(e) => Errno(e)
    case Good(p) => Good(Min(p, |d.entries|))
  }

  /** What iterating over an open directory from a cookie yields; a failed seek yields its error at once. */
  function ListFrom(w: World, h: File, off: u64): Listing {
    match Seek(w.dir(h), off)
    case Errno(e) => Listing([], Some(e))
    case Good(p) => Entries(w.dir(h), p)
  }

  function CasefoldLookup(w: World, parent: Node, name: seq<byte>): Result<Node> {
    match w.open(parent, P9_DIRECTORY)
    case Errno(e) => Errno(e)
    case Good(h) =>
      var l := ListFrom(w, h, 0);
      var k := FirstFold(l.entries, name, 0);
      if k < |l.entries| then w.lookup(parent, l.entries[k].name)
      else if l.stop.Some? then Errno(l.stop.value)
      else Errno(ENOENT)
  }

  function LookupName(cfg: Config, w: World, parent: Node, name: seq<byte>): Result<Node> {
    if HasNul(name) then Errno(EINVAL)
    else if cfg.casefold && w.lookup(parent, name) == Errno(ENOENT) then CasefoldLookup(w, parent, name)
    else w.lookup(parent, name)
  }

  /** The metadata collected on the way and where the walk ended or why it stopped. */
  datatype Walked = Walked(stats: seq<Stat>, end: Result<Node>)

  function Resolve(cfg: Config, w: World, node: Node, names: seq<Value>): Walked
    decreases |names|
  {
    if names == [] then Walked([], Good(node))
    else match LookupName(cfg, w, node, NameOf(names[0]))
      case Errno(e) => Walked([], Errno(e))
      case Good(next) =>
        match w.stat(next)
        case Errno(e) => Walked([], Errno(e))
        case Good(s) =>
          var rest := Resolve(cfg, w, next, names[1..]);
          Walked([s] + rest.stats, rest.end)
  }

  function Qids(stats: seq<Stat>): (qs: seq<Value>)
    ensures |qs| == |stats|
  {
    seq(|stats|, i requires 0 <= i < |stats| => stats[i].Qid())
  }

  /** With no names the starting path is duplicated and looked at again. */
  function WalkFrom(cfg: Config, w: World, start: Node, names: seq<Value>): Walked {
    if names != [] then Resolve(cfg, w, start, names)
    else match w.dup(start)
      case Errno(e) => Walked([], Errno(e))
      case Good(node) => match w.stat(node) case Errno(e) => Walked([], Errno(e)) case Good(_) => Walked([], Good(node))
  }

  function LastType(w: World, node: Node, stats: seq<Stat>): FileType {
    if stats != [] then stats[|stats| - 1].Type()
    else match w.stat(node) case Good(s) => s.Type() case Errno(_) => Other
  }

  function Walk(cfg: Config, w: World, st: State, m: Message): (State, Answer) {
    var fid, newfid, names := FidAt(m, 0), FidAt(m, 1), NamesAt(m, 2);
    if fid != newfid && newfid in st.fids then (st, Errno(EBADF))
    else if fid !in st.fids then (st, Errno(EBADF))
    else
      var walked := WalkFrom(cfg, w, st.fids[fid].path, names);
      var reply := Message(TWALK + 1, [List(Qids(walked.stats))]);
      match walked.end
      case Good(node) =>
        (st.(fids := st.fids[newfid := Fid(node, None, LastType(w, node, walked.stats))]), Good(reply))
      case Errno(e) => if walked.stats == [] then (st, Errno(e)) else (st, Good(reply))
  }

  // --------------------------------------------------------------- opening files

  function Lopen(w: World, st: State, m: Message): (State, Answer) {
    var fid := FidAt(m, 0);
    if fid !in st.fids then (st, Errno(EBADF))
    else match w.open(st.fids[fid].path, FidAt(m, 1))
      case Errno(e) => (st, Errno(e))
      case Good(h) =>
        match w.fstat(h)
        case Errno(e) => (st, Errno(e))
        case Good(s) =>
          (st.(fids := st.fids[fid := st.fids[fid].(file := Some(h))]), Good(Message(TLOPEN + 1, [s.Qid(), Num(0)])))
  }

  /** The file a Tlcreate stores, if it gets that far. */
  function Created(w: World, st: State, m: Message): (r: Result<(File, Stat)>)
    ensures r.Good? ==> FidAt(m, 0) in st.fids && st.fids[FidAt(m, 0)].filetype == Directory
  {
    var fid := FidAt(m, 0);
    if fid !in st.fids then Errno(EBADF)
    else if st.fids[fid].filetype != Directory then Errno(ENOTDIR)
    else if HasNul(TextAt(m, 1)) then Errno(EINVAL)
    else match w.create(st.fids[fid].path, TextAt(m, 1), FidAt(m, 2), FidAt(m, 3))
      case Errno(e) => Errno(e)
      case Good(h) => match w.fstat(h) case Errno(e) => Errno(e) case Good(s) => Good((h, s))
  }

  /** The file is stored before its path is looked up, so a failing lookup leaves the fid half changed. */
  function Lcreate(w: World, st: State, m: Message): (State, Answer) {
    var fid := FidAt(m, 0);
    match Created(w, st, m)
    case Errno(e) => (st, Errno(e))
    case Good((h, s)) =>
      var path := st.fids[fid].path;
      match w.lookup(path, TextAt(m, 1))
      case Errno(e) => (st.(fids := st.fids[fid := Fid(path, Some(h), Regular)]), Errno(e))
      case Good(node) =>
        (st.(fids := st.fids[fid := Fid(node, Some(h), Regular)]), Good(Message(TLCREATE + 1, [s.Qid(), Num(0)])))
  }

  // ------------------------------------------------------------ reading and writing

  /** The open file behind a fid. */
  function OpenFile(st: State, fid: u32): Result<File> {
    if fid in st.fids && st.fids[fid].file.Some? then Good(st.fids[fid].file.value) else Errno(EBADF)
  }

  /** The room the negotiated message size leaves for data. */
  function Room(st: State, count: nat): (n: nat)
    requires st.msize >= DATA_HEADER
    ensures DATA_HEADER + n <= st.msize && n <= count
  {
    Min(st.msize - DATA_HEADER, count)
  }

  function Read(w: World, st: State, m: Message): Answer
    requires st.msize >= DATA_HEADER
  {
    match OpenFile(st, FidAt(m, 0))
    case Errno(e) => Errno(e)
    case Good(h) =>
      match w.read(h, Room(st, NumAt(m, 2)), OffsetAt(m, 1))
      case Errno(e) => Errno(e)
      case Good(bytes) => Good(Message(TREAD + 1, [Data(bytes)]))
  }

  function Write(w: World, st: State, m: Message): Answer {
    match OpenFile(st, FidAt(m, 0))
    case Errno(e) => Errno(e)
    case Good(h) =>
      match w.write(h, DataAt(m, 2), OffsetAt(m, 1))
      case Errno(e) => Errno(e)
      case Good(n) => Good(Message(TWRITE + 1, [Num(n)]))
  }

  const DIRENT := TupleKind([QID, U64, U8, Str]) // qid offset type name

  function DirentOf(s: Stat, e: Entry): Value {
    Tuple([s.Qid(), Num(e.off), Num(e.ty), Text(e.name)])
  }

  /** An entry as it goes into a page, nothing if there is no room for it, or the error that ends the page. */
  function EntryValue(w: World, path: Node, e: Entry, room: int): Result<Option<Value>> {
    match w.statAt(path, e.name)
    case Errno(code) => Errno(code)
    case Good(s) =>
      if !ValidUtf8(e.name) then Errno(EINVAL)
      else if room < Size(DirentOf(s, e), DIRENT) then Good(None)
      else Good(Some(DirentOf(s, e)))
  }

  function Cons(v: Value, rest: Result<seq<Value>>): Result<seq<Value>> {
    match rest case Errno(e) => Errno(e) case Good(vs) => Good([v] + vs)
  }

  /** Directory entries in order, until one does not fit in the room that is left. */
  function Page(w: World, path: Node, l: Listing, i: nat, room: int): Result<seq<Value>>
    requires i <= |l.entries|
    decreases |l.entries| - i
  {
    if i == |l.entries| then (if l.stop.Some? then Errno(l.stop.value) else Good([]))
    else match EntryValue(w, path, l.entries[i], room)
      case Errno(e) => Errno(e)
      case Good(None) => Good([])
      case Good(Some(d)) => Cons(d, Page(w, path, l, i + 1, room - Size(d, DIRENT)))
  }

  function Readdir(w: World, st: State, m: Message): Answer
    requires st.msize >= DATA_HEADER
  {
    var fid := FidAt(m, 0);
    if fid !in st.fids then Errno(EBADF)
    else if st.fids[fid].filetype != Directory then Errno(ENOTDIR)
    else match OpenFile(st, fid)
      case Errno(e) => Errno(e)
      case Good(h) =>
        match Page(w, st.fids[fid].path, ListFrom(w, h, OffsetAt(m, 1)), 0, Room(st, NumAt(m, 2)))
        case Errno(e) => Errno(e)
        case Good(dirents) => Good(Message(TREADDIR + 1, [Data(EncodeItems(dirents, DIRENT).bytes)]))
  }

  // -------------------------------------------------------- locks, attributes, names

  function Lock(w: World, st: State, m: Message): Answer {
    match OpenFile(st, FidAt(m, 0))
    case Errno(e) => Errno(e)
    case Good(h) =>
      match w.fstat(h) case Errno(e) => Errno(e) case Good(_) => Good(Message(TLOCK + 1, [Num(P9_LOCK_SUCCESS)]))
  }

  function GetLock(w: World, st: State, m: Message): Answer {
    match OpenFile(st, FidAt(m, 0))
    case Errno(e) => Errno(e)
    case Good(h) =>
      match w.fstat(h)
      case Errno(e) => Errno(e)
      case Good(_) =>
        Good(Message(TGETLOCK + 1, [Num(P9_LOCK_TYPE_UNLCK), Num(OffsetAt(m, 2)), Num(OffsetAt(m, 3)),
                                    Num(FidAt(m, 4)), Text(TextAt(m, 5))]))
  }

  function GetAttr(cfg: Config, w: World, st: State, m: Message): Answer {
    if FidAt(m, 0) !in st.fids then Errno(EBADF)
    else match w.stat(st.fids[FidAt(m, 0)].path)
      case Errno(e) => Errno(e)
      case Good(s) => Good(Message(TGETATTR + 1, [Num(P9_GETATTR_BASIC), s.Qid()] + Attributes(cfg, s)))
  }

  function Attributes(cfg: Config, s: Stat): seq<Value> {
    [Num(s.mode), Num(MapId(cfg.uidMap, s.uid)), Num(MapId(cfg.gidMap, s.gid)),
     Num(s.nlink), Num(s.rdev), Num(s.size), Num(s.blksize), Num(s.blocks),
     Num(s.atime), Num(s.atimeNsec), Num(s.mtime), Num(s.mtimeNsec), Num(s.ctime), Num(s.ctimeNsec),
     Num(0), Num(0), Num(0), Num(0)]
  }

  function Statfs(w: World, st: State, m: Message): Answer {
    if FidAt(m, 0) !in st.fids then Errno(EBADF)
    else match w.statfs(st.fids[FidAt(m, 0)].path)
      case Errno(e) => Errno(e)
      case Good(f) =>
        Good(Message(TSTATFS + 1, [Num(f.ty), Num(f.bsize), Num(f.blocks), Num(f.bfree), Num(f.bavail), Num(f.files),
                                   Num(f.ffree), Num(f.fsid), Num(f.namelen)]))
  }

  function Readlink(w: World, st: State, m: Message): Answer {
    if FidAt(m, 0) !in st.fids then Errno(EBADF)
    else match w.readlink(st.fids[FidAt(m, 0)].path)
      case Errno(e) => Errno(e)
      case Good(target) =>
        if ValidUtf8(target) then Good(Message(TREADLINK + 1, [Text(target)])) else Errno(EINVAL)
  }

  function Mkdir(w: World, st: State, m: Message): Answer {
    if FidAt(m, 0) !in st.fids then Errno(EBADF)
    else if HasNul(TextAt(m, 1)) then Errno(EINVAL)
    else match w.act(m)
      case Some(e) => Errno(e)
      case None =>
        match w.statAt(st.fids[FidAt(m, 0)].path, TextAt(m, 1))
        case Errno(e) => Errno(e)
        case Good(s) => Good(Message(TMKDIR + 1, [s.Qid()]))
  }

  /** The checks before a call that only changes files: fids bound, names free of NUL. */
  function Refused(st: State, m: Message): Option<Errno> {
    if m.ty == TFSYNC then (if OpenFile(st, FidAt(m, 0)).Good? then None else Some(EBADF))
    else if m.ty == TSETATTR then (if FidAt(m, 0) in st.fids then None else Some(EBADF))
    else if m.ty == TLINK then
      if FidAt(m, 1) !in st.fids || FidAt(m, 0) !in st.fids then Some(EBADF)
      else if HasNul(TextAt(m, 2)) then Some(EINVAL) else None
    else if m.ty == TRENAMEAT then
      if FidAt(m, 0) !in st.fids then Some(EBADF)
      else if HasNul(TextAt(m, 1)) then Some(EINVAL)
      else if FidAt(m, 2) !in st.fids then Some(EBADF)
      else if HasNul(TextAt(m, 3)) then Some(EINVAL) else None
    else // TUNLINKAT
      if FidAt(m, 0) !in st.fids then Some(EBADF)
      else if HasNul(TextAt(m, 1)) then Some(EINVAL) else None
  }

  function Act(w: World, st: State, m: Message): Answer
    requires m.ty < 255
  {
    if Refused(st, m).Some? then Errno(Refused(st, m).value)
    else if w.act(m).Some? then Errno(w.act(m).value)
    else Good(Message(m.ty + 1, []))
  }

  // -------------------------------------------------------------------- dispatch

  predicate OnlyActs(ty: u8) {
    ty == TFSYNC || ty == TSETATTR || ty == TLINK || ty == TRENAMEAT || ty == TUNLINKAT
  }

  predicate NotSupported(ty: u8) {
    ty == TAUTH || ty == TREMOVE || ty == TRENAME || ty == TXATTRWALK || ty == TXATTRCREATE
  }

  /** Requests that leave the state alone. */
  function Query(cfg: Config, w: World, st: State, m: Message): Answer
    requires st.msize >= DATA_HEADER && m.ty < 255
  {
    if m.ty == TFLUSH then Good(Message(TFLUSH + 1, []))
    else if m.ty == TREAD then Read(w, st, m)
    else if m.ty == TWRITE then Write(w, st, m)
    else if m.ty == TREADDIR then Readdir(w, st, m)
    else if m.ty == TLOCK then Lock(w, st, m)
    else if m.ty == TGETLOCK then GetLock(w, st, m)
    else if m.ty == TGETATTR then GetAttr(cfg, w, st, m)
    else if m.ty == TSTATFS then Statfs(w, st, m)
    else if m.ty == TREADLINK then Readlink(w, st, m)
    else if m.ty == TMKDIR then Mkdir(w, st, m)
    else if OnlyActs(m.ty) then Act(w, st, m)
    else if NotSupported(m.ty) then Errno(EOPNOTSUPP)
    else Errno(EACCES) // TSYMLINK and TMKNOD
  }

  function Answered(cfg: Config, w: World, st: State, m: Message): (State, Answer)
    requires st.msize >= DATA_HEADER && m.ty < 255
  {
    if m.ty == TVERSION then Version(st, m)
    else if m.ty == TATTACH then Attach(w, st, m)
    else if m.ty == TWALK then Walk(cfg, w, st, m)
    else if m.ty == TCLUNK then Clunk(st, m)
    else if m.ty == TLOPEN then Lopen(w, st, m)
    else if m.ty == TLCREATE then Lcreate(w, st, m)
    else (st, Query(cfg, w, st, m))
  }

  function Lerror(e: Errno): Message {
    Message(RLERROR, [Num(e)])
  }

  /** Message types whose reply type exists and is not that of an error; decoding accepts no others. */
  predicate Known(f: Tframe) {
    f.msg.Ok? ==> f.msg.m.ty != TLERROR && f.msg.m.ty < 255
  }

  /** `handle`: errors become Rlerror replies, and a body that did not decode is an EINVAL. */
  function Handle(cfg: Config, w: World, st: State, f: Tframe): (r: (State, Rframe))
    requires st.msize >= DATA_HEADER && Known(f)
    ensures r.0.msize >= DATA_HEADER
  {
    match f.msg
    case Bad(_) => (st, Rframe(f.tag, Lerror(EINVAL)))
    case Ok(m) =>
      var (after, answer) := Answered(cfg, w, st, m);
      (after, Rframe(f.tag, match answer case Good(r) => r case Errno(e) => Lerror(e)))
  }
}
