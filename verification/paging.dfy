/** Reading a directory page by page, each request resuming at the cookie of the last entry received. */
module Paging {
  import opened Bytes
  import opened WireFormat
  import opened Messages
  import opened ReadDirs
  import opened Ufs
  import opened UfsReplies
  import opened UfsRuns
  import opened UfsSizes
  import opened UfsServer

  // ---------------------------------------------------------------- one page

  /** Why an entry cannot be reported: a record longer than the buffer, a failing `stat`, a name that is not UTF-8. */
  function Trouble(w: World, path: Node, e: Entry): Option<Errno> {
    if RecLen(e) > BUF_SIZE then Some(EINVAL)
    else match w.statAt(path, e.name)
      case Errno(code) => Some(code)
      case Good(_) => if ValidUtf8(e.name) then None else Some(EINVAL)
  }

  /** The first entry from `i` on that cannot be reported. */
  function FirstTrouble(w: World, path: Node, es: seq<Entry>, i: nat): (n: nat)
    requires i <= |es|
    ensures i <= n <= |es|
    ensures forall k | i <= k < n :: Trouble(w, path, es[k]).None?
    ensures n < |es| ==> Trouble(w, path, es[n]).Some?
    decreases |es| - i
  {
    if i == |es| || Trouble(w, path, es[i]).Some? then i else FirstTrouble(w, path, es, i + 1)
  }

  function DirentSize(e: Entry): nat {
    24 + |e.name|
  }

  /** Where a page from entry `i` ends: before `end`, as far as the entries fit one after the other. */
  function PageEnd(es: seq<Entry>, i: nat, end: nat, room: int): (n: nat)
    requires i <= end <= |es|
    ensures i <= n <= end
    decreases end - i
  {
    if i == end || room < DirentSize(es[i]) then i else PageEnd(es, i + 1, end, room - DirentSize(es[i]))
  }

  function DirentAt(w: World, path: Node, e: Entry): Value {
    match w.statAt(path, e.name) case Good(s) => DirentOf(s, e) case Errno(_) => Nothing
  }

  function Dirents(w: World, path: Node, es: seq<Entry>, i: nat, j: nat): (vs: seq<Value>)
    requires i <= j <= |es|
    ensures |vs| == j - i
    decreases j - i
  {
    if i == j then [] else [DirentAt(w, path, es[i])] + Dirents(w, path, es, i + 1, j)
  }

  lemma {:induction false} DirentsSnoc(w: World, path: Node, es: seq<Entry>, i: nat, j: nat)
    requires i <= j < |es|
    ensures Dirents(w, path, es, i, j + 1) == Dirents(w, path, es, i, j) + [DirentAt(w, path, es[j])]
    decreases j - i
  {
    if i < j {
      DirentsSnoc(w, path, es, i + 1, j);
    } else {
      assert Dirents(w, path, es, j + 1, j + 1) == [];
    }
  }

  /** What comes of a page that reaches the end of a listing. */
  function AtEnd(w: World, path: Node, l: Listing, x: nat): Option<Errno>
    requires x <= |l.entries|
  {
    if x < |l.entries| then Trouble(w, path, l.entries[x]) else l.stop
  }

  /**
   * A page holds the longest run of entries that fits. If that reaches an entry that cannot be reported, or the
   * end of a listing that stops with an error, the whole page is that error.
   */
  lemma {:induction false} PageExact(w: World, path: Node, l: Listing, i: nat, room: int)
    requires i <= |l.entries| && AllFit(l.entries)
    ensures var x := FirstTrouble(w, path, l.entries, i);
            var n := PageEnd(l.entries, i, x, room);
            Page(w, path, l, i, room) ==
            if n == x && AtEnd(w, path, l, x).Some? then Errno(AtEnd(w, path, l, x).value)
            else Good(Dirents(w, path, l.entries, i, n))
    decreases |l.entries| - i
  {
    if i < FirstTrouble(w, path, l.entries, i) {
      PageStep(w, path, l, i, room);
      var e := l.entries[i];
      if room >= DirentSize(e) { PageExact(w, path, l, i + 1, room - DirentSize(e)); }
    } else if i < |l.entries| {
      PageTrouble(w, path, l, i, room);
    }
  }

  lemma PageStep(w: World, path: Node, l: Listing, i: nat, room: int)
    requires i < |l.entries| && Trouble(w, path, l.entries[i]).None?
    ensures var e := l.entries[i];
            Page(w, path, l, i, room) ==
            if room < DirentSize(e) then Good([])
            else Cons(DirentAt(w, path, e), Page(w, path, l, i + 1, room - DirentSize(e)))
  {
    DirentFine(w.statAt(path, l.entries[i].name).value, l.entries[i]);
  }

  lemma PageTrouble(w: World, path: Node, l: Listing, i: nat, room: int)
    requires i < |l.entries| && RecLen(l.entries[i]) <= BUF_SIZE && Trouble(w, path, l.entries[i]).Some?
    ensures Page(w, path, l, i, room) == Errno(Trouble(w, path, l.entries[i]).value)
  {
  }

  /** The same page, counted in the whole directory. */
  lemma {:induction false} PageShift(es: seq<Entry>, pos: nat, last: nat, i: nat, end: nat, room: int)
    requires pos <= i <= end <= last <= |es|
    ensures PageEnd(es, i, end, room) == pos + PageEnd(es[pos..last], i - pos, end - pos, room)
    decreases end - i
  {
    if i < end && room >= DirentSize(es[i]) { PageShift(es, pos, last, i + 1, end, room - DirentSize(es[i])); }
  }

  lemma {:induction false} DirentsShift(w: World, path: Node, es: seq<Entry>, pos: nat, last: nat, i: nat, j: nat)
    requires pos <= i <= j <= last <= |es|
    ensures Dirents(w, path, es, i, j) == Dirents(w, path, es[pos..last], i - pos, j - pos)
    decreases j - i
  {
    if i < j { DirentsShift(w, path, es, pos, last, i + 1, j); }
  }

  // ------------------------------------------------------- an unchanging directory

  /** Seeking to an entry's cookie leads to the position after it; zero leads to the start. */
  ghost predicate Cookies(d: Dir) {
    d.seek(0) == Good(0) && forall i | 0 <= i < |d.entries| :: d.seek(d.entries[i].off) == Good(i + 1)
  }

  ghost predicate Steady(d: Dir) {
    NeverFails(d) && Cookies(d)
  }

  /** The cookie to resume at once `i` entries have been received. */
  function Resume(d: Dir, i: nat): u64
    requires i <= |d.entries|
  {
    if i == 0 then 0 else d.entries[i - 1].off
  }

  /** From `i`, the listing goes on to the first record too long, and nothing before `x` is in trouble. */
  lemma TroubleInListing(w: World, path: Node, d: Dir, i: nat)
    requires i <= FirstTrouble(w, path, d.entries, 0)
    ensures var es, x, l := d.entries, FirstTrouble(w, path, d.entries, 0), UpToLong(d, i);
            && x <= i + |l.entries| && FirstTrouble(w, path, l.entries, 0) == x - i
            && l.entries == es[i..i + |l.entries|] && AllFit(l.entries)
            && AtEnd(w, path, l, x - i) == if x < |es| then Trouble(w, path, es[x]) else None
  {
    SliceTrouble(w, path, d.entries, i, FirstLong(d.entries, i), FirstTrouble(w, path, d.entries, 0));
  }

  lemma SliceTrouble(w: World, path: Node, es: seq<Entry>, i: nat, n: nat, x: nat)
    requires i <= x == FirstTrouble(w, path, es, 0) && n == FirstLong(es, i)
    ensures x <= n && FirstTrouble(w, path, es[i..n], 0) == x - i && AllFit(es[i..n])
  {
    assert n < |es| ==> Trouble(w, path, es[n]).Some?;
    var l := es[i..n];
    forall k | 0 <= k < x - i ensures Trouble(w, path, l[k]).None? { assert l[k] == es[i + k]; }
    TroubleUnique(w, path, l, x - i);
  }

  lemma TroubleUnique(w: World, path: Node, es: seq<Entry>, n: nat)
    requires n <= |es| && (forall k | 0 <= k < n :: Trouble(w, path, es[k]).None?)
    requires n < |es| ==> Trouble(w, path, es[n]).Some?
    ensures FirstTrouble(w, path, es, 0) == n
  {
  }

  /** The page at the cookie of the last of `i` entries received starts with entry `i`. */
  lemma PageResumed(w: World, path: Node, h: File, i: nat, room: int)
    requires Steady(w.dir(h)) && i <= FirstTrouble(w, path, w.dir(h).entries, 0)
    ensures var es := w.dir(h).entries;
            var x := FirstTrouble(w, path, es, 0);
            var n := PageEnd(es, i, x, room);
            Page(w, path, ListFrom(w, h, Resume(w.dir(h), i)), 0, room) ==
            if n == x < |es| then Errno(Trouble(w, path, es[x]).value) else Good(Dirents(w, path, es, i, n))
  {
    var d := w.dir(h);
    ListedFrom(w, h, i);
    TroubleInListing(w, path, d, i);
    PageOfListing(w, path, d.entries, UpToLong(d, i), i, FirstTrouble(w, path, d.entries, 0), room);
  }

  lemma ListedFrom(w: World, h: File, i: nat)
    requires Steady(w.dir(h)) && i <= |w.dir(h).entries|
    ensures ListFrom(w, h, Resume(w.dir(h), i)) == UpToLong(w.dir(h), i)
  {
    EntriesExact(w.dir(h), i);
  }

  /** A page of a listing of entries from `i` on, in which the first in trouble is `x`. */
  lemma PageOfListing(w: World, path: Node, es: seq<Entry>, l: Listing, i: nat, x: nat, room: int)
    requires i <= x <= i + |l.entries| <= |es| && l.entries == es[i..i + |l.entries|] && AllFit(l.entries)
    requires FirstTrouble(w, path, l.entries, 0) == x - i
    ensures var n, e := PageEnd(es, i, x, room), AtEnd(w, path, l, x - i);
            Page(w, path, l, 0, room) ==
            if n == x && e.Some? then Errno(e.value) else Good(Dirents(w, path, es, i, n))
  {
    PageExact(w, path, l, 0, room);
    PageShift(es, i, i + |l.entries|, i, x, room);
    DirentsShift(w, path, es, i, i + |l.entries|, i, PageEnd(es, i, x, room));
  }

  // ------------------------------------------------------------------ decoding

  /** The bytes decode to the values, one after the other, with nothing left over. */
  ghost predicate Series(k: Kind, vs: seq<Value>, b: seq<byte>)
    decreases |vs|
  {
    if vs == [] then b == []
    else
      && b != [] && Decode(k, b).Done? && Decode(k, b).value == vs[0]
      && Series(k, vs[1..], Decode(k, b).rest)
  }

  /** Each value can be sent, and takes some bytes. */
  ghost predicate Solid(vs: seq<Value>, k: Kind) {
    forall i | 0 <= i < |vs| :: Fine(vs[i], k) && Size(vs[i], k) > 0
  }

  lemma SolidCons(v: Value, vs: seq<Value>, k: Kind)
    requires Fine(v, k) && Size(v, k) > 0 && Solid(vs, k)
    ensures Solid([v] + vs, k)
  {
  }

  lemma {:induction false} ItemsSeries(k: Kind, vs: seq<Value>)
    requires Solid(vs, k)
    ensures Series(k, vs, EncodeItems(vs, k).bytes)
    decreases |vs|
  {
    if vs != [] {
      RoundTrip(vs[0], k, EncodeItems(vs[1..], k).bytes);
      ItemsSeries(k, vs[1..]);
    }
  }

  lemma {:induction false} DirentsFine(w: World, path: Node, es: seq<Entry>, i: nat, j: nat)
    requires i <= j <= FirstTrouble(w, path, es, 0)
    ensures Solid(Dirents(w, path, es, i, j), DIRENT)
    decreases j - i
  {
    if i < j {
      DirentFine(w.statAt(path, es[i].name).value, es[i]);
      DirentsFine(w, path, es, i + 1, j);
      SolidCons(DirentAt(w, path, es[i]), Dirents(w, path, es, i + 1, j), DIRENT);
    }
  }

  lemma PageSeries(w: World, path: Node, es: seq<Entry>, i: nat, j: nat)
    requires i <= j <= FirstTrouble(w, path, es, 0)
    ensures Series(DIRENT, Dirents(w, path, es, i, j), EncodeItems(Dirents(w, path, es, i, j), DIRENT).bytes)
  {
    DirentsFine(w, path, es, i, j);
    ItemsSeries(DIRENT, Dirents(w, path, es, i, j));
  }

  // ------------------------------------------------------------- how far paging gets

  /** The first entry from `i` on, before `end`, that is too large for any page. */
  function FirstBig(es: seq<Entry>, i: nat, end: nat, room: int): (n: nat)
    requires i <= end <= |es|
    ensures i <= n <= end
    ensures forall k | i <= k < n :: DirentSize(es[k]) <= room
    ensures n < end ==> DirentSize(es[n]) > room
    decreases end - i
  {
    if i == end || DirentSize(es[i]) > room then i else FirstBig(es, i + 1, end, room)
  }

  lemma {:induction false} PageBeforeBig(es: seq<Entry>, i: nat, end: nat, left: int, room: int)
    requires i <= end <= |es| && left <= room
    ensures PageEnd(es, i, end, left) <= FirstBig(es, i, end, room)
    decreases end - i
  {
    if i < end && left >= DirentSize(es[i]) { PageBeforeBig(es, i + 1, end, left - DirentSize(es[i]), room); }
  }

  lemma SameBig(es: seq<Entry>, i: nat, end: nat, room: int)
    requires end <= |es| && i <= FirstBig(es, 0, end, room)
    ensures FirstBig(es, i, end, room) == FirstBig(es, 0, end, room)
  {
  }

  /** Every page starts with the next entry unless that one is too large, and none reaches past it. */
  lemma PageProgress(es: seq<Entry>, i: nat, end: nat, room: int)
    requires end <= |es| && i <= FirstBig(es, 0, end, room)
    ensures PageEnd(es, i, end, room) <= FirstBig(es, 0, end, room)
    ensures PageEnd(es, i, end, room) == i <==> i == FirstBig(es, 0, end, room)
  {
    SameBig(es, i, end, room);
    PageBeforeBig(es, i, end, room, room);
  }

  /** Going page by page from entry `i`, the start of the page that reaches `end`, or of the first that is empty. */
  function LastPage(es: seq<Entry>, i: nat, end: nat, room: int): (n: nat)
    requires i <= end <= |es|
    ensures i <= n <= end
    decreases end - i
  {
    var n := PageEnd(es, i, end, room);
    if n == end || n == i then i else LastPage(es, n, end, room)
  }

  /**
   * How many entries a client is handed, and what stops it. An entry too large for a page ends it with an empty
   * page. An entry that cannot be reported ends it with an error, and the entries before it that would have
   * shared its page are lost with it.
   */
  function Handed(w: World, path: Node, es: seq<Entry>, room: int): (r: (nat, Option<Errno>))
    ensures r.0 <= FirstTrouble(w, path, es, 0)
  {
    var x := FirstTrouble(w, path, es, 0);
    if FirstBig(es, 0, x, room) == x < |es| then (LastPage(es, 0, x, room), Trouble(w, path, es[x]))
    else (FirstBig(es, 0, x, room), None)
  }

  /** A client that has been handed `got` entries and holds those up to `page`, none past the first too large. */
  ghost predicate Holding(w: World, path: Node, h: File, room: nat, got: nat, page: nat, offset: u64,
                          cursor: seq<byte>)
  {
    var es := w.dir(h).entries;
    && got <= page <= FirstBig(es, 0, FirstTrouble(w, path, es, 0), room)
    && offset == Resume(w.dir(h), got)
    && Series(DIRENT, Dirents(w, path, es, got, page), cursor)
  }

  /** Decode the entry at the cursor. */
  method DecodeOne(cursor: seq<byte>, ghost w: World, ghost path: Node, ghost h: File, ghost room: nat,
                   ghost got: nat, ghost page: nat, ghost offset: u64)
    returns (v: Value, next: u64, rest: seq<byte>)
    requires Holding(w, path, h, room, got, page, offset, cursor) && got < page
    ensures v == DirentAt(w, path, w.dir(h).entries[got])
    ensures Holding(w, path, h, room, got + 1, page, next, rest)
  {
    ghost var es := w.dir(h).entries;
    var d := Decode(DIRENT, cursor);
    assert d.Done?;
    v, next, rest := d.value, DirentOffset(d.value), d.rest;
    DirentIs(w.statAt(path, es[got].name).value, es[got]);
  }

  // ----------------------------------------------------------------- the client

  /** The fid is an open directory that does not change meanwhile, and pages have `room` bytes. */
  ghost predicate Serving(st: State, w: World, fid: u32, count: u32, path: Node, h: File, room: nat) {
    && st.msize >= DATA_HEADER && room == Room(st, count)
    && fid in st.fids && st.fids[fid] == Fid(path, Some(h), Directory) && Steady(w.dir(h))
  }

  lemma ReaddirPage(st: State, w: World, fid: u32, count: u32, path: Node, h: File, room: nat, got: nat)
    requires Serving(st, w, fid, count, path, h, room) && got <= FirstTrouble(w, path, w.dir(h).entries, 0)
    ensures var es := w.dir(h).entries;
            var x := FirstTrouble(w, path, es, 0);
            var n := PageEnd(es, got, x, room);
            Readdir(w, st, Message(TREADDIR, [Num(fid), Num(Resume(w.dir(h), got)), Num(count)])) ==
            if n == x < |es| then Errno(Trouble(w, path, es[x]).value)
            else Good(Message(TREADDIR + 1, [Data(EncodeItems(Dirents(w, path, es, got, n), DIRENT).bytes)]))
  {
    PageResumed(w, path, h, got, room);
  }

  /** A page starts at `page`; if an entry cannot be reported, so does one of those on the way to the last. */
  ghost predicate OnTrack(w: World, path: Node, es: seq<Entry>, room: int, page: nat) {
    var x := FirstTrouble(w, path, es, 0);
    page <= x && (x < |es| ==> LastPage(es, page, x, room) == LastPage(es, 0, x, room))
  }

  /** What a page leads to: an error and the end, an empty page and the end, or the start of the next page. */
  lemma NextPage(w: World, path: Node, es: seq<Entry>, room: int, got: nat)
    requires OnTrack(w, path, es, room, got) && got <= FirstBig(es, 0, FirstTrouble(w, path, es, 0), room)
    ensures var x := FirstTrouble(w, path, es, 0);
            var page := PageEnd(es, got, x, room);
            if page == x < |es| then Handed(w, path, es, room) == (got, Trouble(w, path, es[x]))
            else if page == got then Handed(w, path, es, room) == (got, None)
            else OnTrack(w, path, es, room, page) && page <= FirstBig(es, 0, x, room)
  {
    PageProgress(es, got, FirstTrouble(w, path, es, 0), room);
  }

  /** Ask for the page at an offset: an error or an empty page exactly where the entries to be handed out end. */
  method Fetch(server: Server, w: World, fid: u32, count: u32, offset: u64,
               ghost path: Node, ghost h: File, ghost room: nat, ghost got: nat)
    returns (r: Result<seq<byte>>, ghost page: nat)
    requires Serving(server.Now(), w, fid, count, path, h, room)
    requires Holding(w, path, h, room, got, got, offset, []) && OnTrack(w, path, w.dir(h).entries, room, got)
    ensures r.Errno? ==> Handed(w, path, w.dir(h).entries, room) == (got, Some(r.code))
    ensures r == Good([]) ==> Handed(w, path, w.dir(h).entries, room) == (got, None)
    ensures r.Good? && r.value != [] ==>
      Holding(w, path, h, room, got, page, offset, r.value) && OnTrack(w, path, w.dir(h).entries, room, page)
  {
    ghost var es := w.dir(h).entries;
    page := PageEnd(es, got, FirstTrouble(w, path, es, 0), room);
    ReaddirPage(server.Now(), w, fid, count, path, h, room, got);
    NextPage(w, path, es, room, got);
    PageSeries(w, path, es, got, page);
    var a := server.DoReaddir(w, Message(TREADDIR, [Num(fid), Num(offset), Num(count)]));
    r := match a case Errno(e) => Errno(e) case Good(m) => Good(DataAt(m, 0));
  }

  /** The next entry, from the page at hand or else the next one, or the error or the end that comes instead. */
  method NextEntry(server: Server, w: World, fid: u32, count: u32, offset: u64, cursor: seq<byte>,
                   ghost path: Node, ghost h: File, ghost room: nat, ghost got: nat, ghost page: nat)
    returns (r: Option<Result<Value>>, next: u64, rest: seq<byte>, ghost newPage: nat)
    requires Serving(server.Now(), w, fid, count, path, h, room)
    requires Holding(w, path, h, room, got, page, offset, cursor) && OnTrack(w, path, w.dir(h).entries, room, page)
    ensures match r
      case None => Handed(w, path, w.dir(h).entries, room) == (got, None)
      case Some(Errno(e)) => Handed(w, path, w.dir(h).entries, room) == (got, Some(e))
      case Some(Good(v)) =>
        && got < |w.dir(h).entries| && v == DirentAt(w, path, w.dir(h).entries[got])
        && Holding(w, path, h, room, got + 1, newPage, next, rest)
        && OnTrack(w, path, w.dir(h).entries, room, newPage)
  {
    next, rest, newPage := offset, cursor, page;
    if cursor == [] {
      var data;
      data, newPage := Fetch(server, w, fid, count, offset, path, h, room, got);
      if data.Errno? { return Some(Errno(data.code)), next, rest, newPage; }
      if data.value == [] { return None, next, rest, newPage; }
      rest := data.value;
    }
    var v;
    v, next, rest := DecodeOne(rest, w, path, h, room, got, newPage, offset);
    r := Some(Good(v));
  }

  /** The values show the first entries, one for one. */
  ghost predicate Shown(w: World, path: Node, es: seq<Entry>, vs: seq<Value>) {
    |vs| <= |es| && forall k | 0 <= k < |vs| :: ShowsEntry(w, path, es[k], vs[k])
  }

  ghost predicate ShowsEntry(w: World, path: Node, e: Entry, v: Value) {
    w.statAt(path, e.name).Good? && DirentShows(v, e, w.statAt(path, e.name).value)
  }

  lemma {:induction false} DirentsAt(w: World, path: Node, es: seq<Entry>, i: nat, j: nat, k: nat)
    requires i <= k < j <= |es|
    ensures Dirents(w, path, es, i, j)[k - i] == DirentAt(w, path, es[k])
    decreases j - i
  {
    if i < k { DirentsAt(w, path, es, i + 1, j, k); }
  }

  lemma DirentsShow(w: World, path: Node, es: seq<Entry>, n: nat)
    requires n <= FirstTrouble(w, path, es, 0)
    ensures Shown(w, path, es, Dirents(w, path, es, 0, n))
  {
    forall k | 0 <= k < n ensures ShowsEntry(w, path, es[k], Dirents(w, path, es, 0, n)[k]) {
      DirentsAt(w, path, es, 0, n, k);
      assert Trouble(w, path, es[k]).None?;
      DirentIs(w.statAt(path, es[k].name).value, es[k]);
    }
  }

  lemma AtStart(w: World, path: Node, h: File, room: nat)
    ensures Holding(w, path, h, room, 0, 0, 0, []) && OnTrack(w, path, w.dir(h).entries, room, 0)
  {
  }

  /**
   * The client's loop over an open directory. It is handed the entries of the directory in order, each once with
   * its own name, type, cookie and qid, as many as `Handed` says, and then gets an empty page or an error.
   */
  method ReadAll(server: Server, w: World, fid: u32, count: u32, ghost path: Node, ghost h: File, ghost room: nat)
    returns (all: seq<Value>, err: Option<Errno>)
    requires Serving(server.Now(), w, fid, count, path, h, room)
    ensures (|all|, err) == Handed(w, path, w.dir(h).entries, room)
    ensures Shown(w, path, w.dir(h).entries, all)
  {
    var offset: u64, cursor: seq<byte> := 0, [];
    ghost var page: nat, es := 0, w.dir(h).entries;
    all := [];
    AtStart(w, path, h, room);
    while true
      invariant Holding(w, path, h, room, |all|, page, offset, cursor) && OnTrack(w, path, es, room, page)
      invariant |all| <= |es| && all == Dirents(w, path, es, 0, |all|)
      decreases |es| - |all|
    {
      var r;
      r, offset, cursor, page := NextEntry(server, w, fid, count, offset, cursor, path, h, room, |all|, page);
      if r.None? || r.value.Errno? {
        DirentsShow(w, path, es, |all|);
        return all, if r.None? then None else Some(r.value.code);
      }
      DirentsSnoc(w, path, es, 0, |all|);
      all := all + [r.value.value];
    }
  }

  // ------------------------------------------------------------- what is lost

  /** The client is handed the whole directory exactly if each entry can be reported and fits a page on its own. */
  lemma PagingComplete(w: World, path: Node, es: seq<Entry>, room: int)
    ensures Handed(w, path, es, room) == (|es|, None) <==>
            forall k | 0 <= k < |es| :: Trouble(w, path, es[k]).None? && DirentSize(es[k]) <= room
  {
  }

  lemma {:induction false} LastPageReaches(es: seq<Entry>, i: nat, end: nat, room: int)
    requires i <= end <= |es| && FirstBig(es, 0, end, room) == end
    ensures PageEnd(es, LastPage(es, i, end, room), end, room) == end
    ensures i < end ==> LastPage(es, i, end, room) < end
    decreases end - i
  {
    PageProgress(es, i, end, room);
    var n := PageEnd(es, i, end, room);
    if i < n < end { LastPageReaches(es, n, end, room); }
  }

  /** An entry that cannot be reported costs the client the one before it, and all that would have shared their page. */
  lemma TroubleCosts(w: World, path: Node, es: seq<Entry>, room: int)
    requires Handed(w, path, es, room).1.Some?
    ensures var n, x := Handed(w, path, es, room).0, FirstTrouble(w, path, es, 0);
      && x < |es| && PageEnd(es, n, x, room) == x && (x > 0 ==> n < x)
  {
    LastPageReaches(es, 0, FirstTrouble(w, path, es, 0), room);
  }

  /** With 260 bytes to a page no entry is too large, and only one that cannot be reported is in the way. */
  lemma RoomyPages(w: World, path: Node, es: seq<Entry>, room: int)
    requires room >= 260
    ensures Handed(w, path, es, room) == (|es|, None) <==> forall k | 0 <= k < |es| :: Trouble(w, path, es[k]).None?
  {
    PagingComplete(w, path, es, room);
  }

  /** A name of 224 letters is reported by the kernel, but with messages of 256 bytes paging ends at it, silently. */
  lemma BigEntryEnds(path: Node, e: Entry, fids: map<u32, Fid>, count: u32)
    requires |e.name| == 224 && forall i | 0 <= i < 224 :: e.name[i] == 0x61
    ensures Trouble(Loop(), path, e).None? && Handed(Loop(), path, [e], Room(State(fids, 256), count)) == (0, None)
  {
    AsciiUtf8(e.name, 0);
    TroubleUnique(Loop(), path, [e], 1);
  }

  /** After a short name one of 240 letters makes the first page an error, and the client gets neither. */
  lemma LongRecordLoses(path: Node, short: Entry, long: Entry, room: nat)
    requires short.name == [0x61] && |long.name| == 240 && room >= 25
    ensures Trouble(Loop(), path, short).None? && Handed(Loop(), path, [short, long], room) == (0, Some(EINVAL))
  {
    AsciiUtf8(short.name, 0);
    TroubleUnique(Loop(), path, [short, long], 1);
  }

  // ------------------------------------------------------------- pages over 32 MiB

  function Total(es: seq<Entry>, i: nat): nat
    requires i <= |es|
    decreases |es| - i
  {
    if i == |es| then 0 else DirentSize(es[i]) + Total(es, i + 1)
  }

  lemma {:induction false} OnePage(es: seq<Entry>, i: nat, room: int)
    requires i <= |es| && Total(es, i) <= room
    ensures PageEnd(es, i, |es|, room) == |es|
    decreases |es| - i
  {
    if i < |es| { OnePage(es, i + 1, room - DirentSize(es[i])); }
  }

  lemma {:induction false} PageLength(w: World, path: Node, es: seq<Entry>, i: nat)
    requires i <= |es| == FirstTrouble(w, path, es, 0)
    ensures ItemsSize(Dirents(w, path, es, i, |es|), DIRENT) == Total(es, i)
    decreases |es| - i
  {
    if i < |es| {
      DirentFine(w.statAt(path, es[i].name).value, es[i]);
      PageLength(w, path, es, i + 1);
    }
  }

  /** A directory as kernels have them: its places can be returned to, and its names are distinct and not empty. */
  ghost predicate Genuine(d: Dir) {
    && Steady(d) && (forall i | 0 <= i < |d.entries| :: d.entries[i].name != [])
    && (forall i, j | 0 <= i < j < |d.entries| :: d.entries[i].name != d.entries[j].name)
  }

  function Pow26(k: nat): nat {
    if k == 0 then 1 else 26 * Pow26(k - 1)
  }

  /** The number `n` in `k` letters. */
  function Word(n: nat, k: nat): (s: seq<byte>)
    ensures |s| == k && forall i | 0 <= i < k :: 0x61 <= s[i] <= 0x7a
  {
    if k == 0 then [] else [0x61 + n % 26] + Word(n / 26, k - 1)
  }

  lemma {:induction false} WordUnique(m: nat, n: nat, k: nat)
    requires m < Pow26(k) && n < Pow26(k) && Word(m, k) == Word(n, k)
    ensures m == n
    decreases k
  {
    if k > 0 {
      assert Word(m, k)[0] == Word(n, k)[0] && Word(m, k)[1..] == Word(n, k)[1..];
      WordUnique(m / 26, n / 26, k - 1);
    }
  }

  const CROWD: nat := 1157048

  /** The place at which a listing from the cookie is to start. */
  function CrowdStart(off: u64): nat {
    if off == 0 then 0 else 1
  }

  /** Names of five letters from there on, the last of seventeen; the one before it, if any, of six. */
  function CrowdName(off: u64, i: nat): (s: seq<byte>)
    ensures s != [] && |s| <= 17 && forall k | 0 <= k < |s| :: 0x61 <= s[k] <= 0x7a
  {
    if i < CrowdStart(off) then Word(0, 6) else if i == CrowdStart(off) + CROWD then Word(0, 17) else Word(i, 5)
  }

  /** Distinct cookies, none of them zero and the first, if the listing starts after it, the one given. */
  function CrowdCookie(off: u64, i: nat): u64
    requires i < 0x1_0000_0000
  {
    if off == 0 then i + 1 else if i == 0 then off else if i < off then i else i + 1
  }

  function CrowdSeek(off: u64, c: u64): nat {
    if off == 0 || c == 0 then c else if c == off then 1 else if c < off then c + 1 else c
  }

  function Crowd(off: u64): (es: seq<Entry>)
    ensures |es| == CrowdStart(off) + CROWD + 1
    ensures forall i | 0 <= i < |es| :: es[i].name == CrowdName(off, i) && es[i].off == CrowdCookie(off, i)
  {
    seq(CrowdStart(off) + CROWD + 1,
        i requires 0 <= i <= CrowdStart(off) + CROWD => Entry(i + 1, CrowdCookie(off, i), 0, CrowdName(off, i)))
  }

  function CrowdDir(off: u64): Dir {
    Dir(Crowd(off), _ => 0, _ => None, c => Good(CrowdSeek(off, c)))
  }

  function CrowdWorld(off: u64): World {
    Loop().(dir := _ => CrowdDir(off))
  }

  lemma CrowdNames(off: u64, i: nat, j: nat)
    requires i < j <= CrowdStart(off) + CROWD
    ensures CrowdName(off, i) != CrowdName(off, j)
  {
    if CrowdStart(off) <= i && j < CrowdStart(off) + CROWD {
      assert Pow26(5) == 11881376;
      if Word(i, 5) == Word(j, 5) { WordUnique(i, j, 5); }
    }
  }

  lemma CrowdGenuine(off: u64)
    ensures Genuine(CrowdDir(off))
  {
    var d := CrowdDir(off);
    forall i | 0 <= i < |d.entries| ensures d.seek(d.entries[i].off) == Good(i + 1) {
      assert d.entries[i].off == CrowdCookie(off, i);
    }
    forall i, j | 0 <= i < j < |d.entries| ensures d.entries[i].name != d.entries[j].name { CrowdNames(off, i, j); }
  }

  lemma {:induction false} CrowdTotal(off: u64, i: nat)
    requires CrowdStart(off) <= i <= CrowdStart(off) + CROWD
    ensures Total(Crowd(off), i) == 29 * (CrowdStart(off) + CROWD - i) + 41
    decreases CROWD + 1 - i
  {
    var es := Crowd(off);
    assert es[i].name == CrowdName(off, i);
    if i < CrowdStart(off) + CROWD { CrowdTotal(off, i + 1); } else { assert Total(es, i + 1) == 0; }
  }

  lemma CrowdFine(off: u64, path: Node)
    ensures FirstTrouble(CrowdWorld(off), path, Crowd(off), 0) == |Crowd(off)|
  {
    var w, es := CrowdWorld(off), Crowd(off);
    forall i | 0 <= i < |es| ensures Trouble(w, path, es[i]).None? {
      assert es[i].name == CrowdName(off, i);
      AsciiUtf8(es[i].name, 0);
    }
    TroubleUnique(w, path, es, |es|);
  }

  /** From the cookie on, the entries fill 32 MiB and a byte. */
  lemma CrowdPage(off: u64, path: Node, h: File, room: nat)
    requires room > MAX_DATA_LENGTH
    ensures var p := Page(CrowdWorld(off), path, ListFrom(CrowdWorld(off), h, off), 0, room);
      p.Good? && |EncodeItems(p.value, DIRENT).bytes| == MAX_DATA_LENGTH + 1
  {
    var w, es, start := CrowdWorld(off), Crowd(off), CrowdStart(off);
    CrowdGenuine(off);
    CrowdFine(off, path);
    CrowdTotal(off, start);
    assert Resume(w.dir(h), start) == off by { assert off != 0 ==> es[0].off == CrowdCookie(off, 0); }
    PageResumed(w, path, h, start, room);
    OnePage(es, start, room);
    WholePage(w, path, es, start);
  }

  lemma WholePage(w: World, path: Node, es: seq<Entry>, i: nat)
    requires i <= |es| == FirstTrouble(w, path, es, 0)
    ensures |EncodeItems(Dirents(w, path, es, i, |es|), DIRENT).bytes| == Total(es, i)
  {
    PageLength(w, path, es, i);
    DirentsFine(w, path, es, i, |es|);
    ItemsRoundTrip(Dirents(w, path, es, i, |es|), DIRENT, []);
  }

  ghost predicate ReaddirDecodes(w: World, st: State, m: Message, tag: u16, tail: seq<byte>)
    requires st.msize >= DATA_HEADER
  {
    Readdir(w, st, m).Good? ==> Decodes(Rframe(tag, Readdir(w, st, m).value), tail)
  }

  lemma PageDecodes(w: World, st: State, m: Message, tag: u16, tail: seq<byte>)
    requires st.msize >= DATA_HEADER && Readdir(w, st, m).Good?
    ensures ReaddirDecodes(w, st, m, tag, tail) <==> |DataAt(Readdir(w, st, m).value, 0)| <= MAX_DATA_LENGTH
  {
    ReaddirSent(w, st, m);
    ReadsBackR(Rframe(tag, Readdir(w, st, m).value), tail);
  }

  /** A Treaddir is sure of a page that can be decoded exactly if no more than 32 MiB are asked for, or allowed. */
  lemma ReaddirDecodesIff(st: State, m: Message, h: File, tag: u16, tail: seq<byte>)
    requires st.msize >= DATA_HEADER && OpenFile(st, FidAt(m, 0)) == Good(h)
    requires st.fids[FidAt(m, 0)].filetype == Directory
    ensures (forall w: World | Genuine(w.dir(h)) :: ReaddirDecodes(w, st, m, tag, tail)) <==>
            Room(st, NumAt(m, 2)) <= MAX_DATA_LENGTH
  {
    var room, off := Room(st, NumAt(m, 2)), OffsetAt(m, 1);
    if room <= MAX_DATA_LENGTH {
      forall w: World | Genuine(w.dir(h)) ensures ReaddirDecodes(w, st, m, tag, tail) {
        ReaddirSent(w, st, m);
        if Readdir(w, st, m).Good? { PageDecodes(w, st, m, tag, tail); }
      }
    } else {
      CrowdPage(off, st.fids[FidAt(m, 0)].path, h, room);
      PageDecodes(CrowdWorld(off), st, m, tag, tail);
      CrowdGenuine(off);
      assert Genuine(CrowdWorld(off).dir(h)) && !ReaddirDecodes(CrowdWorld(off), st, m, tag, tail);
    }
  }
}
