/** Directory streams: the kernel's packed records and the 256-byte buffer that iterates over them. */
module ReadDirs {
  import opened Bytes

  type Errno = u32

  datatype Result<+T> = Good(value: T) | Errno(code: Errno)

  const EINVAL: Errno := 22
  const BUF_SIZE := 256
  const DIRENT_SIZE := 19 // d_ino, d_off, d_reclen and d_type, packed

  predicate NoNul(s: seq<byte>) {
    forall i | 0 <= i < |s| :: s[i] != 0
  }

  type FileName = s: seq<byte> | NoNul(s) witness []

  /** One entry: inode, the cookie of the position after it, type and name. */
  datatype Entry = Entry(ino: u64, off: u64, ty: u8, name: FileName)

  // ------------------------------------------------------------ kernel records

  /** The next multiple of eight. */
  function Align(n: nat): (m: nat)
    ensures n <= m < n + 8
  {
    if n == 0 then 0 else if n <= 8 then 8 else 8 + Align(n - 8)
  }

  /** Records are padded to a multiple of eight bytes, with at least one NUL. */
  function RecLen(e: Entry): (n: nat)
    ensures n >= DIRENT_SIZE + |e.name| + 1
  {
    Align(DIRENT_SIZE + |e.name| + 1)
  }

  function Zeros(n: nat): (z: seq<byte>)
    ensures |z| == n && forall i | 0 <= i < n :: z[i] == 0
  {
    seq(n, _ => 0)
  }

  function Padded(e: Entry): (s: seq<byte>)
    ensures |s| == RecLen(e) - DIRENT_SIZE
  {
    e.name + Zeros(RecLen(e) - DIRENT_SIZE - |e.name|)
  }

  function RecordBytes(e: Entry): (b: seq<byte>)
    requires RecLen(e) <= BUF_SIZE
    ensures |b| == RecLen(e)
  {
    ToLe(e.ino, 8) + ToLe(e.off, 8) + ToLe(RecLen(e), 2) + [e.ty] + Padded(e)
  }

  predicate AllFit(es: seq<Entry>) {
    forall i | 0 <= i < |es| :: RecLen(es[i]) <= BUF_SIZE
  }

  function Pack(es: seq<Entry>): seq<byte>
    requires AllFit(es)
  {
    if es == [] then [] else RecordBytes(es[0]) + Pack(es[1..])
  }

  /**
   * An open directory that does not change: its entries, how many of them the kernel cares
   * to return from each position, where it fails, and where a seek to a cookie leads.
   */
  datatype Dir = Dir(entries: seq<Entry>, batch: nat -> nat, fails: nat -> Option<Errno>, seek: u64 -> Result<nat>)

  /** The index after the entries from `i` on, at most `max`, whose records fit in `room` bytes. */
  function FitEnd(es: seq<Entry>, i: nat, max: nat, room: nat): (n: nat)
    requires i <= |es|
    ensures i <= n <= |es|
    decreases |es| - i
  {
    if i == |es| || max == 0 || RecLen(es[i]) > room then i
    else FitEnd(es, i + 1, max - 1, room - RecLen(es[i]))
  }

  /** Where `getdents64` into the buffer leaves the position; at least one entry on if the next one fits at all. */
  function Getdents(d: Dir, pos: nat): (r: Result<nat>)
    requires pos <= |d.entries|
    ensures r.Good? ==> pos <= r.value <= |d.entries| && (r.value == pos ==> pos == |d.entries|)
  {
    if d.fails(pos).Some? then Errno(d.fails(pos).value)
    else
      var next := FitEnd(d.entries, pos, d.batch(pos) + 1, BUF_SIZE);
      if next == pos && pos < |d.entries| then Errno(EINVAL) else Good(next)
  }

  // ------------------------------------------------------------ what iteration yields

  /** Entries in order, then the end of the directory or an error. */
  datatype Listing = Listing(entries: seq<Entry>, stop: Option<Errno>)

  function Entries(d: Dir, pos: nat): Listing
    requires pos <= |d.entries|
    decreases |d.entries| - pos
  {
    match Getdents(d, pos)
    case Errno(e) => Listing([], Some(e))
    case Good(next) =>
      if next == pos then Listing([], None)
      else Listing(d.entries[pos..next] + Entries(d, next).entries, Entries(d, next).stop)
  }

  /** The index of the first entry from `i` on whose record is too large for the buffer. */
  function FirstLong(es: seq<Entry>, i: nat): (n: nat)
    requires i <= |es|
    ensures i <= n <= |es|
    ensures forall j | i <= j < n :: RecLen(es[j]) <= BUF_SIZE
    ensures n < |es| ==> RecLen(es[n]) > BUF_SIZE
    decreases |es| - i
  {
    if i == |es| || RecLen(es[i]) > BUF_SIZE then i else FirstLong(es, i + 1)
  }

  ghost predicate NeverFails(d: Dir) {
    forall pos :: d.fails(pos).None?
  }

  /** The entries before the first too long for the buffer, and the error it causes. */
  function UpToLong(d: Dir, pos: nat): Listing
    requires pos <= |d.entries|
  {
    var n := FirstLong(d.entries, pos);
    Listing(d.entries[pos..n], if n < |d.entries| then Some(EINVAL) else None)
  }

  lemma {:induction false} FitBeforeLong(es: seq<Entry>, i: nat, max: nat, room: nat)
    requires i <= |es| && room <= BUF_SIZE
    ensures var n := FitEnd(es, i, max, room); n <= FirstLong(es, i) && FirstLong(es, n) == FirstLong(es, i)
    decreases |es| - i
  {
    if i < |es| && max > 0 && RecLen(es[i]) <= room {
      FitBeforeLong(es, i + 1, max - 1, room - RecLen(es[i]));
    }
  }

  lemma GetdentsFacts(d: Dir, pos: nat)
    requires d.fails(pos).None? && pos <= |d.entries|
    ensures match Getdents(d, pos)
            case Good(next) => next <= FirstLong(d.entries, pos) == FirstLong(d.entries, next)
            case Errno(e) => e == EINVAL && FirstLong(d.entries, pos) == pos < |d.entries|
  {
    FitBeforeLong(d.entries, pos, d.batch(pos) + 1, BUF_SIZE);
  }

  lemma UpToLongStep(d: Dir, pos: nat, next: nat)
    requires pos <= next <= |d.entries| && next <= FirstLong(d.entries, pos) == FirstLong(d.entries, next)
    ensures UpToLong(d, pos) == Listing(d.entries[pos..next] + UpToLong(d, next).entries, UpToLong(d, next).stop)
  {
    SliceJoin(d.entries, pos, next, FirstLong(d.entries, pos));
  }

  lemma SliceJoin(es: seq<Entry>, a: nat, b: nat, c: nat)
    requires a <= b <= c <= |es|
    ensures es[a..b] + es[b..c] == es[a..c]
  {
  }

  /**
   * However the kernel cuts its answers, iteration yields the entries in order up to the first
   * whose record exceeds the buffer, and then stops: with an error there, else at the end.
   */
  lemma {:induction false} EntriesExact(d: Dir, pos: nat)
    requires NeverFails(d) && pos <= |d.entries|
    ensures Entries(d, pos) == UpToLong(d, pos)
    decreases |d.entries| - pos
  {
    assert d.fails(pos).None?;
    GetdentsFacts(d, pos);
    match Getdents(d, pos)
    case Errno(e) =>
    case Good(next) =>
      if next > pos {
        EntriesExact(d, next);
        UpToLongStep(d, pos, next);
      }
  }

  /** A directory whose records all fit the buffer is listed in full from any position. */
  lemma EntriesComplete(d: Dir, pos: nat)
    requires NeverFails(d) && AllFit(d.entries) && pos <= |d.entries|
    ensures Entries(d, pos) == Listing(d.entries[pos..], None)
  {
    EntriesExact(d, pos);
  }

  /** Whatever the kernel does, only entries whose records fit the buffer are ever yielded. */
  lemma {:induction false} EntriesShort(d: Dir, pos: nat)
    requires pos <= |d.entries|
    ensures AllFit(Entries(d, pos).entries)
    decreases |d.entries| - pos
  {
    match Getdents(d, pos)
    case Errno(_) =>
    case Good(next) =>
      if next > pos {
        PackFits(d.entries, pos, d.batch(pos) + 1, BUF_SIZE);
        EntriesShort(d, next);
      }
  }

  // ------------------------------------------------------------ reading records

  function FirstNul(b: seq<byte>, i: nat): (k: nat)
    requires i <= |b|
    ensures i <= k <= |b| && (k < |b| ==> b[k] == 0) && forall j | i <= j < k :: b[j] != 0
    decreases |b| - i
  {
    if i == |b| || b[i] == 0 then i else FirstNul(b, i + 1)
  }

  /** The name before the first NUL; a record without one is a panic, which the kernel rules out. */
  function StripPadding(b: seq<byte>): (name: FileName)
    requires exists i | 0 <= i < |b| :: b[i] == 0
    ensures |name| < |b| && name == b[..|name|] && b[|name|] == 0
  {
    b[..FirstNul(b, 0)]
  }

  lemma StripPadded(e: Entry)
    ensures exists i | 0 <= i < |Padded(e)| :: Padded(e)[i] == 0
    ensures StripPadding(Padded(e)) == e.name
  {
    var p, n := Padded(e), |e.name|;
    assert p[n] == 0;
    assert forall i | 0 <= i < n :: p[i] == e.name[i];
    assert p[..n] == e.name;
  }

  /** A buffer that starts with a whole record. */
  predicate StartsRecord(r: seq<byte>) {
    && |r| > DIRENT_SIZE && DIRENT_SIZE < FromLe(r[16..18]) <= |r|
    && exists i | DIRENT_SIZE <= i < FromLe(r[16..18]) :: r[i] == 0
  }

  function ReadRecord(r: seq<byte>): Entry
    requires StartsRecord(r)
  {
    Pow256Values();
    var name := r[DIRENT_SIZE..FromLe(r[16..18])];
    assert exists i | 0 <= i < |name| :: name[i] == 0 by {
      var i :| DIRENT_SIZE <= i < FromLe(r[16..18]) && r[i] == 0;
      assert name[i - DIRENT_SIZE] == 0;
    }
    Entry(FromLe(r[..8]), FromLe(r[8..16]), r[18], StripPadding(name))
  }

  lemma RecordParts(e: Entry, tail: seq<byte>)
    requires RecLen(e) <= BUF_SIZE
    ensures var r := RecordBytes(e) + tail;
            && r[..8] == ToLe(e.ino, 8) && r[8..16] == ToLe(e.off, 8) && r[16..18] == ToLe(RecLen(e), 2)
            && r[18] == e.ty && r[DIRENT_SIZE..RecLen(e)] == Padded(e) && r[RecLen(e)..] == tail
  {
  }

  predicate FrontIs(r: seq<byte>, e: Entry, tail: seq<byte>) {
    StartsRecord(r) && ReadRecord(r) == e && FromLe(r[16..18]) == RecLen(e) && r[RecLen(e)..] == tail
  }

  /** A packed record is read back as the entry it was made from. */
  lemma RecordRoundTrip(e: Entry, tail: seq<byte>)
    requires RecLen(e) <= BUF_SIZE
    ensures FrontIs(RecordBytes(e) + tail, e, tail)
  {
    var r := RecordBytes(e) + tail;
    RecordParts(e, tail);
    NumbersBack(e);
    StripPadded(e);
    assert r[DIRENT_SIZE + |e.name|] == r[DIRENT_SIZE..RecLen(e)][|e.name|] == 0;
  }

  lemma NumbersBack(e: Entry)
    requires RecLen(e) <= BUF_SIZE
    ensures FromLe(ToLe(e.ino, 8)) == e.ino && FromLe(ToLe(e.off, 8)) == e.off && FromLe(ToLe(RecLen(e), 2)) == RecLen(e)
  {
    Pow256Values();
    LeRoundTrip(e.ino, 8);
    LeRoundTrip(e.off, 8);
    LeRoundTrip(RecLen(e), 2);
  }

  lemma FrontOf(b: seq<byte>, e: Entry)
    requires RecLen(e) <= BUF_SIZE && RecLen(e) <= |b| && b[..RecLen(e)] == RecordBytes(e)
    ensures FrontIs(b, e, b[RecLen(e)..])
  {
    RecordRoundTrip(e, b[RecLen(e)..]);
    assert b == RecordBytes(e) + b[RecLen(e)..];
  }

  lemma FrontRecord(b: seq<byte>, es: seq<Entry>)
    requires b != [] && Buffered(b, es)
    ensures es != [] && RecLen(es[0]) <= |b| && FrontIs(b, es[0], b[RecLen(es[0])..])
    ensures Buffered(b[RecLen(es[0])..], es[1..])
  {
    FrontOf(b, es[0]);
  }

  lemma {:induction false} PackFits(es: seq<Entry>, i: nat, max: nat, room: nat)
    requires i <= |es| && room <= BUF_SIZE
    ensures AllFit(es[i..FitEnd(es, i, max, room)]) && |Pack(es[i..FitEnd(es, i, max, room)])| <= room
    decreases |es| - i
  {
    if i < |es| && max > 0 && RecLen(es[i]) <= room {
      PackFits(es, i + 1, max - 1, room - RecLen(es[i]));
      var n := FitEnd(es, i + 1, max - 1, room - RecLen(es[i]));
      assert es[i..n] == [es[i]] + es[i + 1..n];
      PackCons(es[i], es[i + 1..n]);
    }
  }

  lemma PackCons(e: Entry, es: seq<Entry>)
    requires RecLen(e) <= BUF_SIZE && AllFit(es)
    ensures AllFit([e] + es) && Pack([e] + es) == RecordBytes(e) + Pack(es)
  {
  }

  /** The buffer holds exactly the records of `es`. */
  ghost predicate Buffered(b: seq<byte>, es: seq<Entry>)
    decreases |es|
  {
    if es == [] then b == []
    else
      && RecLen(es[0]) <= BUF_SIZE && RecLen(es[0]) <= |b|
      && b[..RecLen(es[0])] == RecordBytes(es[0]) && Buffered(b[RecLen(es[0])..], es[1..])
  }

  lemma {:induction false} BufferedPack(es: seq<Entry>)
    requires AllFit(es)
    ensures Buffered(Pack(es), es)
    decreases |es|
  {
    if es != [] {
      var e, rest := es[0], Pack(es[1..]);
      BufferedPack(es[1..]);
      assert (RecordBytes(e) + rest)[..RecLen(e)] == RecordBytes(e) && (RecordBytes(e) + rest)[RecLen(e)..] == rest;
    }
  }

  /** After the buffered entries and all that can still be read comes the rest of `l` from entry `i`. */
  ghost predicate Leads(pending: seq<Entry>, d: Dir, pos: nat, l: Listing, i: nat)
    decreases |pending|
  {
    if pending == [] then i <= |l.entries| && pos <= |d.entries| && Entries(d, pos) == Listing(l.entries[i..], l.stop)
    else i < |l.entries| && pending[0] == l.entries[i] && Leads(pending[1..], d, pos, l, i + 1)
  }

  lemma {:induction false} LeadsRefill(es: seq<Entry>, d: Dir, next: nat, l: Listing, i: nat)
    requires i <= |l.entries| && next <= |d.entries|
    requires Listing(es + Entries(d, next).entries, Entries(d, next).stop) == Listing(l.entries[i..], l.stop)
    ensures Leads(es, d, next, l, i)
    decreases |es|
  {
    var rest := Entries(d, next).entries;
    if es == [] {
      assert [] + rest == rest;
    } else {
      var all := l.entries[i..];
      assert all == es + rest && |all| > 0;
      assert l.entries[i] == all[0] == es[0];
      assert es[1..] + rest == all[1..] == l.entries[i + 1..];
      LeadsRefill(es[1..], d, next, l, i + 1);
    }
  }

  lemma Refilled(d: Dir, pos: nat, next: nat, l: Listing, i: nat)
    requires Leads([], d, pos, l, i) && Getdents(d, pos) == Good(next)
    ensures Leads(d.entries[pos..next], d, next, l, i)
    ensures next == pos ==> i == |l.entries| && l.stop.None?
  {
    if next == pos {
      assert d.entries[pos..next] == [] && l.entries[i..] == [];
    } else {
      LeadsRefill(d.entries[pos..next], d, next, l, i);
    }
  }

  class ReadDir {
    const dir: Dir
    var pos: nat // the open directory's own position
    const buf: array<byte>
    var current: nat
    var end: nat
    ghost const listing: Listing // all this iterator is to yield
    ghost var yielded: nat // how much of it has been
    ghost var pending: seq<Entry>

    ghost predicate Valid()
      reads this, buf
    {
      && pos <= |dir.entries| && buf.Length == BUF_SIZE && current <= end <= BUF_SIZE
      && yielded <= |listing.entries|
      && Buffered(buf[current..end], pending) && Leads(pending, dir, pos, listing, yielded)
    }

    /** `read_dir`, once the seek has succeeded. */
    constructor (dir: Dir, pos: nat)
      requires pos <= |dir.entries|
      ensures Valid() && fresh(buf) && listing == Entries(dir, pos) && yielded == 0
    {
      this.dir, this.pos := dir, pos;
      buf := new byte[BUF_SIZE](_ => 0);
      current, end, pending := 0, 0, [];
      listing, yielded := Entries(dir, pos), 0;
    }

    /** The system call: refill the buffer from its start. */
    method Refill() returns (r: Option<Errno>)
      requires Valid() && current >= end
      modifies this, buf
      ensures Valid() && yielded == old(yielded)
      ensures r.Some? ==> yielded == |listing.entries| && listing.stop == r
      ensures r.None? && current >= end ==> yielded == |listing.entries| && listing.stop.None?
    {
      assert pending == [];
      match Getdents(dir, pos)
      case Errno(e) =>
        assert listing.entries[yielded..] == [];
        return Some(e);
      case Good(next) =>
        PackFits(dir.entries, pos, dir.batch(pos) + 1, BUF_SIZE);
        Refilled(dir, pos, next, listing, yielded);
        var es := dir.entries[pos..next];
        BufferedPack(es);
        PackEmpty(es);
        Store(Pack(es));
        pos, pending := next, es;
        return None;
    }

    /** The kernel's answer lands at the start of the buffer. */
    method Store(bytes: seq<byte>)
      requires |bytes| <= BUF_SIZE == buf.Length
      modifies buf, this`current, this`end
      ensures current == 0 && end == |bytes| && buf[current..end] == bytes
    {
      forall i | 0 <= i < |bytes| { buf[i] := bytes[i]; }
      current, end := 0, |bytes|;
    }

    /** The record at the front of the buffer. */
    method Front() returns (entry: Entry)
      requires Valid() && current < end
      modifies this
      ensures Valid() && yielded == old(yielded) + 1 && entry == listing.entries[old(yielded)]
    {
      var rem := buf[current..end];
      FrontRecord(rem, pending);
      entry := ReadRecord(rem);
      var recLen := FromLe(rem[16..18]);
      assert rem[recLen..] == buf[current + recLen..end];
      current := current + recLen;
      pending, yielded := pending[1..], yielded + 1;
    }

    /** Yields the next entry, or the error or the end that comes when there is none left. */
    method Next() returns (r: Option<Result<Entry>>)
      requires Valid()
      modifies this, buf
      ensures Valid()
      ensures old(yielded) < |listing.entries| ==>
        yielded == old(yielded) + 1 && r == Some(Good(listing.entries[old(yielded)]))
      ensures old(yielded) == |listing.entries| ==>
        yielded == old(yielded) && r == match listing.stop case None => None case Some(e) => Some(Errno(e))
    {
      if current >= end {
        var failed := Refill();
        if failed.Some? { return Some(Errno(failed.value)); }
        if current >= end { return None; }
      }
      var entry := Front();
      r := Some(Good(entry));
    }
  }

  lemma PackEmpty(es: seq<Entry>)
    requires AllFit(es)
    ensures Pack(es) == [] <==> es == []
  {
  }
}
