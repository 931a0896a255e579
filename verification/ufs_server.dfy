/** The server object: a fid table and a message size that requests update in place. */
module UfsServer {
  import opened Bytes
  import opened WireFormat
  import opened Messages
  import opened ReadDirs
  import opened Ufs
  import opened UfsRuns
  import opened UfsSizes
  import opened UfsWalk

  // ------------------------------------------------------------ directory pages

  function EntryBytes(w: World, path: Node, e: Entry, room: int): Result<Option<seq<byte>>> {
    match EntryValue(w, path, e, room)
    case Errno(code) => Errno(code)
    case Good(None) => Good(None)
    case Good(Some(d)) => Good(Some(Encode(d, DIRENT).bytes))
  }

  type EntryWriter = (Entry, int) -> Result<Option<seq<byte>>>

  function WriterOf(w: World, path: Node): EntryWriter {
    (e, room) => EntryBytes(w, path, e, room)
  }

  function PageBytes(f: EntryWriter, l: Listing, i: nat, room: int): Result<seq<byte>>
    requires i <= |l.entries|
    decreases |l.entries| - i
  {
    if i == |l.entries| then (if l.stop.Some? then Errno(l.stop.value) else Good([]))
    else match f(l.entries[i], room)
      case Errno(e) => Errno(e)
      case Good(None) => Good([])
      case Good(Some(b)) => After(b, PageBytes(f, l, i + 1, room - |b|))
  }

  function After(cursor: seq<byte>, r: Result<seq<byte>>): Result<seq<byte>> {
    match r case Errno(e) => Errno(e) case Good(b) => Good(cursor + b)
  }

  function Encoded(p: Result<seq<Value>>, k: Kind): Result<seq<byte>> {
    match p case Errno(e) => Errno(e) case Good(vs) => Good(EncodeItems(vs, k).bytes)
  }

  lemma EncodedCons(v: Value, k: Kind, rest: Result<seq<Value>>)
    requires Encode(v, k).ok
    ensures Encoded(Cons(v, rest), k) == After(Encode(v, k).bytes, Encoded(rest, k))
  {
  }

  lemma EntryEncoded(w: World, path: Node, e: Entry, room: int)
    requires RecLen(e) <= BUF_SIZE
    ensures var r := EntryValue(w, path, e, room);
      r.Good? && r.value.Some? ==>
        Encode(r.value.value, DIRENT).ok && |Encode(r.value.value, DIRENT).bytes| == Size(r.value.value, DIRENT)
  {
    if w.statAt(path, e.name).Good? && ValidUtf8(e.name) { DirentEncoded(w.statAt(path, e.name).value, e); }
  }

  /** The bytes written one entry after the other are the encoding of the page. */
  lemma {:induction false} PageEncoded(w: World, path: Node, l: Listing, i: nat, room: int)
    requires i <= |l.entries| && AllFit(l.entries)
    ensures PageBytes(WriterOf(w, path), l, i, room) == Encoded(Page(w, path, l, i, room), DIRENT)
    decreases |l.entries| - i
  {
    if i < |l.entries| {
      EntryEncoded(w, path, l.entries[i], room);
      match EntryValue(w, path, l.entries[i], room)
      case Good(Some(d)) =>
        PageEncoded(w, path, l, i + 1, room - Size(d, DIRENT));
        EncodedCons(d, DIRENT, Page(w, path, l, i + 1, room - Size(d, DIRENT)));
      case _ =>
    }
  }

  lemma DirentEncoded(s: Stat, e: Entry)
    requires ValidUtf8(e.name) && RecLen(e) <= BUF_SIZE
    ensures var d := DirentOf(s, e); Encode(d, DIRENT).ok && |Encode(d, DIRENT).bytes| == Size(d, DIRENT)
  {
    DirentFine(s, e);
    RoundTrip(DirentOf(s, e), DIRENT, []);
  }

  /** The loop of `readdir` over an open directory, from the position its offset names. */
  method FillPage(w: World, path: Node, h: File, off: u64, room: nat) returns (r: Result<seq<byte>>)
    ensures r == PageBytes(WriterOf(w, path), ListFrom(w, h, off), 0, room)
  {
    var pos := Seek(w.dir(h), off);
    if pos.Errno? { return Errno(pos.code); }
    var dirents := new ReadDir(w.dir(h), pos.value);
    r := Fill(WriterOf(w, path), dirents, room);
    PageFromStart(WriterOf(w, path), ListFrom(w, h, off), room);
  }

  /** What one pass of the loop finds: an error, the end of the page, or an entry's bytes. */
  function Turn(f: EntryWriter, l: Listing, i: nat, left: int): Result<Option<seq<byte>>>
    requires i <= |l.entries|
  {
    if i == |l.entries| then (if l.stop.Some? then Errno(l.stop.value) else Good(None)) else f(l.entries[i], left)
  }

  /** The loop as it runs, with what it has written so far. */
  function PageFrom(f: EntryWriter, l: Listing, i: nat, cursor: seq<byte>, left: int): Result<seq<byte>>
    requires i <= |l.entries|
    decreases |l.entries| - i
  {
    match Turn(f, l, i, left)
    case Errno(e) => Errno(e)
    case Good(None) => Good(cursor)
    case Good(Some(b)) => if i < |l.entries| then PageFrom(f, l, i + 1, cursor + b, left - |b|) else Good(cursor)
  }

  lemma {:induction false} PageFromIs(f: EntryWriter, l: Listing, i: nat, cursor: seq<byte>, left: int)
    requires i <= |l.entries|
    ensures PageFrom(f, l, i, cursor, left) == After(cursor, PageBytes(f, l, i, left))
    decreases |l.entries| - i
  {
    assert cursor + [] == cursor;
    match Turn(f, l, i, left)
    case Good(Some(b)) =>
      PageFromIs(f, l, i + 1, cursor + b, left - |b|);
      var rest := PageBytes(f, l, i + 1, left - |b|);
      if rest.Good? { Assoc(cursor, b, rest.value); }
    case _ =>
  }

  lemma PageFromStart(f: EntryWriter, l: Listing, room: int)
    ensures PageFrom(f, l, 0, [], room) == PageBytes(f, l, 0, room)
  {
    PageFromIs(f, l, 0, [], room);
    var r := PageBytes(f, l, 0, room);
    if r.Good? { assert [] + r.value == r.value; }
  }

  method Fill(f: EntryWriter, dirents: ReadDir, room: nat) returns (r: Result<seq<byte>>)
    requires dirents.Valid() && dirents.yielded == 0
    modifies dirents, dirents.buf
    ensures r == PageFrom(f, dirents.listing, 0, [], room)
  {
    var cursor: seq<byte> := [];
    var left: int := room;
    while true
      invariant dirents.Valid()
      invariant PageFrom(f, dirents.listing, 0, [], room) ==
                PageFrom(f, dirents.listing, dirents.yielded, cursor, left)
      decreases |dirents.listing.entries| - dirents.yielded
    {
      var next := dirents.Next();
      if next.None? { return Good(cursor); }
      if next.value.Errno? { return Errno(next.value.code); }
      match f(next.value.value, left) {
        case Errno(e) => return Errno(e);
        case Good(None) => return Good(cursor);
        case Good(Some(b)) =>
          cursor := cursor + b;
          left := left - |b|;
      }
    }
  }

  // ------------------------------------------------------------------ the server

  /** What `handle_message` did: the reply bytes, or that no frame could be read, and the input it left unread. */
  datatype Exchange = Replied(out: seq<byte>, left: seq<byte>) | NoFrame(e: ErrorKind, left: seq<byte>)

  lemma DecodedKnown(b: seq<byte>)
    requires DecodeT(b).Done?
    ensures Known(DecodeT(b).value)
  {
  }

  /** A frame is read from the first `msize` bytes of the input and its reply written out. */
  function Exchanged(cfg: Config, w: World, st: State, input: seq<byte>): (r: (State, Exchange))
    requires st.msize >= DATA_HEADER
    ensures r.0.msize >= DATA_HEADER
  {
    match DecodeT(Take(input, st.msize))
    case Fail(e, rest) => (st, NoFrame(e, rest + Beyond(input, st.msize)))
    case Done(f, rest) =>
      DecodedKnown(Take(input, st.msize));
      var (after, r) := Handle(cfg, w, st, f);
      (after, Replied(EncodeR(r).bytes, rest + Beyond(input, st.msize)))
  }

  /**
   * For every input: what is written is the encoding of what `handle` returns on the decoded frame, it keeps to
   * the size rule for the message size then in force, and it reads back as that reply and nothing more exactly if
   * the reply carries at most 32 MiB of data.
   */
  lemma ExchangeSound(cfg: Config, w: World, st: State, input: seq<byte>, tail: seq<byte>)
    requires Lawful(w) && st.msize >= MIN_MESSAGE_SIZE && DecodeT(Take(input, st.msize)).Done?
    ensures var f := DecodeT(Take(input, st.msize)).value;
            var (after, x) := Exchanged(cfg, w, st, input);
            && Known(f)
            && var r := Handle(cfg, w, st, f).1;
               && x.Replied? && x.out == EncodeR(r).bytes && EncodeR(r).ok
               && SizeRule(r.msg, after.msize) && |x.out| == MessageSize(r.msg, FieldsR(r.msg.ty).value)
               && (DecodeR(x.out + tail) == Done(r, tail) <==> |DataAt(r.msg, 0)| <= MAX_DATA_LENGTH)
  {
    var b := Take(input, st.msize);
    var f := DecodeT(b).value;
    DecodedKnown(b);
    DecodeTCanonical(b);
    ReplyFits(cfg, w, st, f);
    ReadsBackR(Handle(cfg, w, st, f).1, tail);
  }

  /** For every input: no more than the message size is read, and of a well-formed frame exactly its own bytes. */
  lemma ExchangeReads(cfg: Config, w: World, st: State, input: seq<byte>)
    requires st.msize >= DATA_HEADER
    ensures var d, x := DecodeT(Take(input, st.msize)), Exchanged(cfg, w, st, input).1;
            && SuffixOf(x.left, input) && |input| - |x.left| <= st.msize
            && (d.Done? && d.value.msg.Ok? ==>
                  SendableT(d.value) && EncodeT(d.value).ok && |EncodeT(d.value).bytes| == |input| - |x.left|)
  {
    var b := Take(input, st.msize);
    DecodeTCanonical(b);
    SuffixBeyond(DecodeT(b).rest, input, st.msize);
    if DecodeT(b).Done? && DecodeT(b).value.msg.Ok? { DecodeTStable(b, []); }
  }

  lemma SuffixBeyond(rest: seq<byte>, input: seq<byte>, n: nat)
    requires SuffixOf(rest, Take(input, n))
    ensures SuffixOf(rest + Beyond(input, n), input)
    ensures |input| - |rest + Beyond(input, n)| == |Take(input, n)| - |rest| <= n
  {
    assert input == Take(input, n) + Beyond(input, n);
  }

  lemma ExchangeMsize(cfg: Config, w: World, st: State, input: seq<byte>)
    requires st.msize >= MIN_MESSAGE_SIZE
    ensures MIN_MESSAGE_SIZE <= Exchanged(cfg, w, st, input).0.msize <= st.msize
  {
    var d := DecodeT(Take(input, st.msize));
    if d.Done? {
      DecodedKnown(Take(input, st.msize));
      StepMsize(cfg, w, st, d.value);
    }
  }

  /** States reached one after the other by a series of inputs. */
  ghost predicate IsSession(cfg: Config, sts: seq<State>, ws: seq<World>, inputs: seq<seq<byte>>) {
    && |ws| == |inputs| && |sts| == |inputs| + 1
    && forall n | 0 <= n < |inputs| :: Reaches(cfg, sts[n], ws[n], inputs[n], sts[n + 1])
  }

  ghost predicate Reaches(cfg: Config, st: State, w: World, input: seq<byte>, after: State) {
    st.msize >= DATA_HEADER && Exchanged(cfg, w, st, input).0 == after
  }

  lemma ReachesMsize(cfg: Config, st: State, w: World, input: seq<byte>, after: State)
    requires st.msize >= MIN_MESSAGE_SIZE && Reaches(cfg, st, w, input, after)
    ensures MIN_MESSAGE_SIZE <= after.msize <= st.msize
  {
    ExchangeMsize(cfg, w, st, input);
  }

  /** The message size stays as it is or falls, but not below 256. */
  predicate Falls(sts: seq<State>, k: nat)
    requires k + 1 < |sts|
  {
    sts[k].msize >= MIN_MESSAGE_SIZE ==> MIN_MESSAGE_SIZE <= sts[k + 1].msize <= sts[k].msize
  }

  lemma {:induction false} FallsOver(sts: seq<State>, n: nat)
    requires n < |sts| && sts[0].msize >= MIN_MESSAGE_SIZE && forall k | 0 <= k < n :: Falls(sts, k)
    ensures MIN_MESSAGE_SIZE <= sts[n].msize <= sts[0].msize
  {
    if n > 0 {
      FallsOver(sts, n - 1);
      assert Falls(sts, n - 1);
    }
  }

  lemma SessionMsize(cfg: Config, sts: seq<State>, ws: seq<World>, inputs: seq<seq<byte>>, n: nat)
    requires IsSession(cfg, sts, ws, inputs) && sts[0].msize >= MIN_MESSAGE_SIZE && n < |sts|
    ensures MIN_MESSAGE_SIZE <= sts[n].msize <= sts[0].msize
  {
    forall k | 0 <= k < n ensures Falls(sts, k) {
      assert Reaches(cfg, sts[k], ws[k], inputs[k], sts[k + 1]);
      if sts[k].msize >= MIN_MESSAGE_SIZE { ReachesMsize(cfg, sts[k], ws[k], inputs[k], sts[k + 1]); }
    }
    FallsOver(sts, n);
  }

  /**
   * Over any series of inputs: every input that holds a frame is answered with the encoding of what `handle`
   * returns in the state then reached, within the message size then in force, which never grows.
   */
  lemma SessionSound(cfg: Config, sts: seq<State>, ws: seq<World>, inputs: seq<seq<byte>>, n: nat)
    requires IsSession(cfg, sts, ws, inputs) && sts[0].msize >= MIN_MESSAGE_SIZE && n < |inputs| && Lawful(ws[n])
    ensures var before, after := sts[n], sts[n + 1];
            && DATA_HEADER <= after.msize <= before.msize <= sts[0].msize
            && var d, x := DecodeT(Take(inputs[n], before.msize)), Exchanged(cfg, ws[n], before, inputs[n]).1;
               && (d.Fail? ==> x.NoFrame? && after == before)
               && (d.Done? ==>
                     && Known(d.value) && x.Replied?
                     && var r := Handle(cfg, ws[n], before, d.value).1;
                        EncodeR(r).ok && x.out == EncodeR(r).bytes && SizeRule(r.msg, after.msize))
  {
    SessionMsize(cfg, sts, ws, inputs, n);
    var before := sts[n];
    assert Reaches(cfg, before, ws[n], inputs[n], sts[n + 1]);
    ReachesMsize(cfg, before, ws[n], inputs[n], sts[n + 1]);
    if DecodeT(Take(inputs[n], before.msize)).Done? { ExchangeSound(cfg, ws[n], before, inputs[n], []); }
  }

  class Server {
    const cfg: Config
    var fids: map<u32, Fid>
    var msize: u32

    /** The state as a value. */
    function Now(): State
      reads this
    {
      State(fids, msize)
    }

    /** `Server::new`: the largest message size the server expects. */
    constructor New(uidMap: map<u32, u32>, gidMap: map<u32, u32>)
      ensures Now() == State(map[], MAX_MESSAGE_SIZE) && cfg == Config(false, uidMap, gidMap) && msize >= MIN_MESSAGE_SIZE
    {
      cfg, msize := Config(false, uidMap, gidMap), MAX_MESSAGE_SIZE;
      fids := map[];
    }

    /** `Server::with_config` */
    constructor (cfg: Config, msize: u32)
      ensures Now() == State(map[], msize) && this.cfg == cfg
    {
      this.cfg, this.msize := cfg, msize;
      fids := map[];
    }

    method DoVersion(m: Message) returns (a: Answer)
      modifies this
      ensures (Now(), a) == Version(old(Now()), m)
    {
      if FidAt(m, 0) < MIN_MESSAGE_SIZE { return Errno(EINVAL); }
      fids := map[];
      if FidAt(m, 0) < msize { msize := FidAt(m, 0); }
      var version := if TextAt(m, 1) == VERSION_9P2000L then VERSION_9P2000L else VERSION_UNKNOWN;
      a := Good(Message(TVERSION + 1, [Num(msize), Text(version)]));
    }

    method DoAttach(w: World, m: Message) returns (a: Answer)
      modifies this
      ensures (Now(), a) == Attach(w, old(Now()), m)
    {
      var fid := FidAt(m, 0);
      if fid in fids { return Errno(EBADF); }
      if w.root.Errno? { return Errno(w.root.code); }
      var s := w.stat(w.root.value);
      if s.Errno? { return Errno(s.code); }
      fids := fids[fid := Fid(w.root.value, None, s.value.Type())];
      a := Good(Message(TATTACH + 1, [s.value.Qid()]));
    }

    method DoClunk(m: Message) returns (a: Answer)
      modifies this
      ensures (Now(), a) == Clunk(old(Now()), m)
    {
      if FidAt(m, 0) !in fids { return Errno(EBADF); }
      fids := fids - {FidAt(m, 0)};
      a := Good(Message(TCLUNK + 1, []));
    }

    method DoWalkRequest(w: World, m: Message) returns (a: Answer)
      modifies this
      ensures (Now(), a) == Walk(cfg, w, old(Now()), m)
    {
      var fid, newfid, names := FidAt(m, 0), FidAt(m, 1), NamesAt(m, 2);
      if fid != newfid && newfid in fids { return Errno(EBADF); }
      if fid !in fids { return Errno(EBADF); }
      var start := fids[fid].path;
      ResolveComplete(cfg, w, start, names);
      var stats, end := DoWalk(cfg, w, start, names);
      match end {
        case Good(node) =>
          var ty: FileType;
          if stats != [] {
            ty := stats[|stats| - 1].Type();
          } else {
            var s := w.stat(node);
            if s.Errno? { return Errno(s.code); }
            ty := s.value.Type();
          }
          fids := fids[newfid := Fid(node, None, ty)];
        case Errno(e) =>
          if stats == [] { return Errno(e); }
      }
      a := Good(Message(TWALK + 1, [List(Qids(stats))]));
    }

    method DoLopen(w: World, m: Message) returns (a: Answer)
      modifies this
      ensures (Now(), a) == Lopen(w, old(Now()), m)
    {
      var fid := FidAt(m, 0);
      if fid !in fids { return Errno(EBADF); }
      var h := w.open(fids[fid].path, FidAt(m, 1));
      if h.Errno? { return Errno(h.code); }
      var s := w.fstat(h.value);
      if s.Errno? { return Errno(s.code); }
      fids := fids[fid := fids[fid].(file := Some(h.value))];
      a := Good(Message(TLOPEN + 1, [s.value.Qid(), Num(0)]));
    }

    method DoLcreate(w: World, m: Message) returns (a: Answer)
      modifies this
      ensures (Now(), a) == Lcreate(w, old(Now()), m)
    {
      var fid, name := FidAt(m, 0), TextAt(m, 1);
      if fid !in fids { return Errno(EBADF); }
      if fids[fid].filetype != Directory { return Errno(ENOTDIR); }
      if HasNul(name) { return Errno(EINVAL); }
      var h := w.create(fids[fid].path, name, FidAt(m, 2), FidAt(m, 3));
      if h.Errno? { return Errno(h.code); }
      var s := w.fstat(h.value);
      if s.Errno? { return Errno(s.code); }
      fids := fids[fid := fids[fid].(file := Some(h.value))];
      fids := fids[fid := fids[fid].(filetype := Regular)];
      assert fids == old(fids)[fid := Fid(old(fids)[fid].path, Some(h.value), Regular)];
      var node := w.lookup(fids[fid].path, name);
      if node.Errno? { return Errno(node.code); }
      fids := fids[fid := fids[fid].(path := node.value)];
      assert fids == old(fids)[fid := Fid(node.value, Some(h.value), Regular)];
      a := Good(Message(TLCREATE + 1, [s.value.Qid(), Num(0)]));
    }

    method DoReaddir(w: World, m: Message) returns (a: Answer)
      requires msize >= DATA_HEADER
      ensures a == Readdir(w, Now(), m)
    {
      var fid := FidAt(m, 0);
      if fid !in fids { return Errno(EBADF); }
      if fids[fid].filetype != Directory { return Errno(ENOTDIR); }
      var count := Room(Now(), NumAt(m, 2));
      if fids[fid].file.None? { return Errno(EBADF); }
      var path, h := fids[fid].path, fids[fid].file.value;
      var page := FillPage(w, path, h, OffsetAt(m, 1), count);
      ListShort(w, h, OffsetAt(m, 1));
      PageEncoded(w, path, ListFrom(w, h, OffsetAt(m, 1)), 0, count);
      if page.Errno? { return Errno(page.code); }
      a := Good(Message(TREADDIR + 1, [Data(page.value)]));
    }

    /** The table of `handle`, which is given frames. */
    method Answer(w: World, m: Message) returns (a: Answer)
      requires msize >= DATA_HEADER && m.ty < 255
      modifies this
      ensures (Now(), a) == Answered(cfg, w, old(Now()), m)
    {
      if m.ty == TVERSION { a := DoVersion(m); }
      else if m.ty == TFLUSH { a := Good(Message(TFLUSH + 1, [])); }
      else if m.ty == TWALK { a := DoWalkRequest(w, m); }
      else if m.ty == TREAD { a := Read(w, Now(), m); }
      else if m.ty == TWRITE { a := Write(w, Now(), m); }
      else if m.ty == TCLUNK { a := DoClunk(m); }
      else if m.ty == TREMOVE { a := Errno(EOPNOTSUPP); }
      else if m.ty == TATTACH { a := DoAttach(w, m); }
      else if m.ty == TAUTH { a := Errno(EOPNOTSUPP); }
      else if m.ty == TSTATFS { a := Statfs(w, Now(), m); }
      else if m.ty == TLOPEN { a := DoLopen(w, m); }
      else if m.ty == TLCREATE { a := DoLcreate(w, m); }
      else if m.ty == TSYMLINK { a := Errno(EACCES); }
      else if m.ty == TMKNOD { a := Errno(EACCES); }
      else if m.ty == TRENAME { a := Errno(EOPNOTSUPP); }
      else if m.ty == TREADLINK { a := Readlink(w, Now(), m); }
      else if m.ty == TGETATTR { a := GetAttr(cfg, w, Now(), m); }
      else if m.ty == TSETATTR { a := Act(w, Now(), m); }
      else if m.ty == TXATTRWALK { a := Errno(EOPNOTSUPP); }
      else if m.ty == TXATTRCREATE { a := Errno(EOPNOTSUPP); }
      else if m.ty == TREADDIR { a := DoReaddir(w, m); }
      else if m.ty == TFSYNC { a := Act(w, Now(), m); }
      else if m.ty == TLOCK { a := Lock(w, Now(), m); }
      else if m.ty == TGETLOCK { a := GetLock(w, Now(), m); }
      else if m.ty == TLINK { a := Act(w, Now(), m); }
      else if m.ty == TMKDIR { a := Mkdir(w, Now(), m); }
      else if m.ty == TRENAMEAT { a := Act(w, Now(), m); }
      else if m.ty == TUNLINKAT { a := Act(w, Now(), m); }
      else { a := Errno(EACCES); } // no other type decodes
    }

    /** The table of `handle_message`, which is given bytes. */
    method AnswerMessage(w: World, m: Message) returns (a: Answer)
      requires msize >= DATA_HEADER && m.ty < 255
      modifies this
      ensures (Now(), a) == Answered(cfg, w, old(Now()), m)
    {
      if m.ty == TVERSION { a := DoVersion(m); }
      else if m.ty == TFLUSH { a := Good(Message(TFLUSH + 1, [])); }
      else if m.ty == TWALK { a := DoWalkRequest(w, m); }
      else if m.ty == TREAD { a := Read(w, Now(), m); }
      else if m.ty == TWRITE { a := Write(w, Now(), m); }
      else if m.ty == TCLUNK { a := DoClunk(m); }
      else if m.ty == TREMOVE { a := Errno(EOPNOTSUPP); }
      else if m.ty == TATTACH { a := DoAttach(w, m); }
      else if m.ty == TAUTH { a := Errno(EOPNOTSUPP); }
      else if m.ty == TSTATFS { a := Statfs(w, Now(), m); }
      else if m.ty == TLOPEN { a := DoLopen(w, m); }
      else if m.ty == TLCREATE { a := DoLcreate(w, m); }
      else if m.ty == TSYMLINK { a := Errno(EACCES); }
      else if m.ty == TMKNOD { a := Errno(EACCES); }
      else if m.ty == TRENAME { a := Errno(EOPNOTSUPP); }
      else if m.ty == TREADLINK { a := Readlink(w, Now(), m); }
      else if m.ty == TGETATTR { a := GetAttr(cfg, w, Now(), m); }
      else if m.ty == TSETATTR { a := Act(w, Now(), m); }
      else if m.ty == TXATTRWALK { a := Errno(EOPNOTSUPP); }
      else if m.ty == TXATTRCREATE { a := Errno(EOPNOTSUPP); }
      else if m.ty == TREADDIR { a := DoReaddir(w, m); }
      else if m.ty == TFSYNC { a := Act(w, Now(), m); }
      else if m.ty == TLOCK { a := Lock(w, Now(), m); }
      else if m.ty == TGETLOCK { a := GetLock(w, Now(), m); }
      else if m.ty == TLINK { a := Act(w, Now(), m); }
      else if m.ty == TMKDIR { a := Mkdir(w, Now(), m); }
      else if m.ty == TRENAMEAT { a := Act(w, Now(), m); }
      else if m.ty == TUNLINKAT { a := Act(w, Now(), m); }
      else { a := Errno(EACCES); } // no other type decodes
    }

    /** `handle` */
    method HandleFrame(w: World, f: Tframe) returns (r: Rframe)
      requires msize >= DATA_HEADER && Known(f)
      modifies this
      ensures msize >= DATA_HEADER
      ensures (Now(), r) == Handle(cfg, w, old(Now()), f)
    {
      match f.msg {
        case Bad(_) => r := Rframe(f.tag, Lerror(EINVAL));
        case Ok(m) =>
          var a := Answer(w, m);
          r := Rframe(f.tag, match a case Good(reply) => reply case Errno(e) => Lerror(e));
      }
      StepMsize(cfg, w, old(Now()), f);
    }

    /** `handle_message` */
    method HandleMessage(w: World, input: seq<byte>) returns (x: Exchange)
      requires msize >= DATA_HEADER
      modifies this
      ensures msize >= DATA_HEADER
      ensures (Now(), x) == Exchanged(cfg, w, old(Now()), input)
    {
      var d := DecodeT(Take(input, msize));
      match d {
        case Fail(e, rest) => x := NoFrame(e, rest + Beyond(input, msize));
        case Done(f, rest) =>
          var left := rest + Beyond(input, msize);
          DecodedKnown(Take(input, msize));
          var reply := Lerror(EINVAL);
          if f.msg.Ok? {
            var a := AnswerMessage(w, f.msg.m);
            reply := match a case Good(r) => r case Errno(e) => Lerror(e);
          }
          x := Replied(EncodeR(Rframe(f.tag, reply)).bytes, left);
          StepMsize(cfg, w, old(Now()), f);
      }
    }
  }
}
