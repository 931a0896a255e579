/** Walking: the loops of the server, and what they resolve to. */
module UfsWalk {
  import opened Bytes
  import opened WireFormat
  import opened Messages
  import opened ReadDirs
  import opened Ufs
  import opened UfsReplies

  // ------------------------------------------------------------ path resolution

  /** One name further: the node it leads to and what `stat` says of it. */
  function StepTo(cfg: Config, w: World, node: Node, name: Value): Option<(Node, Stat)> {
    match LookupName(cfg, w, node, NameOf(name))
    case Errno(_) => None
    case Good(next) => match w.stat(next) case Errno(_) => None case Good(s) => Some((next, s))
  }

  /** Where the first `k` names lead, if they all resolve. */
  function NodeAt(cfg: Config, w: World, start: Node, names: seq<Value>, k: nat): Option<Node>
    requires k <= |names|
  {
    if k == 0 then Some(start)
    else match NodeAt(cfg, w, start, names, k - 1)
      case None => None
      case Some(node) => match StepTo(cfg, w, node, names[k - 1]) case None => None case Some((next, _)) => Some(next)
  }

  /** A walk that collected `n` stats went along the longest prefix of names that resolves. */
  ghost predicate Longest(cfg: Config, w: World, start: Node, names: seq<Value>, r: Walked) {
    var n := |r.stats|;
    && n <= |names|
    && (forall k | 0 <= k <= n :: NodeAt(cfg, w, start, names, k).Some?)
    && (n < |names| ==> NodeAt(cfg, w, start, names, n + 1).None?)
    && (forall i | 0 <= i < n :: w.stat(NodeAt(cfg, w, start, names, i + 1).value) == Good(r.stats[i]))
    && (r.end.Good? <==> n == |names|)
    && (r.end.Good? ==> NodeAt(cfg, w, start, names, n) == Some(r.end.value))
  }

  lemma {:induction false} NodeAtShift(cfg: Config, w: World, start: Node, names: seq<Value>, k: nat)
    requires 0 < k <= |names|
    ensures NodeAt(cfg, w, start, names, k) ==
      match StepTo(cfg, w, start, names[0])
      case None => None
      case Some((next, _)) => NodeAt(cfg, w, next, names[1..], k - 1)
  {
    if k > 1 {
      NodeAtShift(cfg, w, start, names, k - 1);
      assert names[1..][k - 2] == names[k - 1];
    }
  }

  /** The walk loop's recursion resolves the longest prefix. */
  lemma {:induction false} ResolveLongest(cfg: Config, w: World, start: Node, names: seq<Value>)
    ensures Longest(cfg, w, start, names, Resolve(cfg, w, start, names))
    decreases |names|
  {
    if names != [] {
      var step := StepTo(cfg, w, start, names[0]);
      NodeAtShift(cfg, w, start, names, 1);
      if step.Some? {
        ResolveLongest(cfg, w, step.value.0, names[1..]);
        LongestCons(cfg, w, start, names, step.value.0, step.value.1);
      }
    }
  }

  lemma LongestCons(cfg: Config, w: World, start: Node, names: seq<Value>, next: Node, s: Stat)
    requires names != [] && StepTo(cfg, w, start, names[0]) == Some((next, s))
    requires Longest(cfg, w, next, names[1..], Resolve(cfg, w, next, names[1..]))
    ensures Longest(cfg, w, start, names, Resolve(cfg, w, start, names))
  {
    var rest := Resolve(cfg, w, next, names[1..]);
    var r := Resolve(cfg, w, start, names);
    assert r == Walked([s] + rest.stats, rest.end);
    forall k | 0 < k <= |names|
      ensures NodeAt(cfg, w, start, names, k) == NodeAt(cfg, w, next, names[1..], k - 1)
    {
      NodeAtShift(cfg, w, start, names, k);
    }
    forall i | 0 <= i < |r.stats| ensures w.stat(NodeAt(cfg, w, start, names, i + 1).value) == Good(r.stats[i]) {
      if i > 0 { assert r.stats[i] == rest.stats[i - 1]; }
    }
  }

  /**
   * A walk from a bound fid to a free one, or to itself: the reply lists the qids of where the names lead, in
   * order, along the longest prefix that resolves; the new fid is bound, unopened, where they all lead exactly if they all resolve, and an error
   * comes back only if the first does not. Without names the fid is cloned, unless its path cannot be duplicated
   * or looked at.
   */
  lemma WalkRefines(cfg: Config, w: World, st: State, m: Message)
    requires FidAt(m, 0) in st.fids && (FidAt(m, 1) == FidAt(m, 0) || FidAt(m, 1) !in st.fids)
    ensures var start, names := st.fids[FidAt(m, 0)].path, NamesAt(m, 2);
            var r := Resolve(cfg, w, start, names);
            var n := |r.stats|;
            var (after, a) := Walk(cfg, w, st, m);
            && Longest(cfg, w, start, names, r)
            && (if names != [] then
                  && (a.Errno? <==> n == 0)
                  && (a.Good? ==> QidsAlong(cfg, w, start, names, n, a.value))
                  && (after.fids == if n < |names| then st.fids
                                    else st.fids[FidAt(m, 1) := Fid(r.end.value, None, r.stats[n - 1].Type())])
                else
                  match w.dup(start)
                  case Errno(e) => after == st && a == Errno(e)
                  case Good(node) =>
                    match w.stat(node)
                    case Errno(e) => after == st && a == Errno(e)
                    case Good(s) =>
                      && a == Good(Message(TWALK + 1, [List([])]))
                      && after.fids == st.fids[FidAt(m, 1) := Fid(node, None, s.Type())])
  {
    var start, names := st.fids[FidAt(m, 0)].path, NamesAt(m, 2);
    ResolveLongest(cfg, w, start, names);
    ReplyAlong(cfg, w, start, names, Resolve(cfg, w, start, names));
  }

  /** The message lists, for each of the first `n` names, the qid of what has been reached with it. */
  ghost predicate QidsAlong(cfg: Config, w: World, start: Node, names: seq<Value>, n: nat, m: Message) {
    && n <= |names| && m.ty == 111 && |m.fields| == 1 && m.fields[0].List? && |m.fields[0].items| == n
    && forall i | 0 <= i < n :: QidReached(cfg, w, start, names, i, m.fields[0].items[i])
  }

  ghost predicate QidReached(cfg: Config, w: World, start: Node, names: seq<Value>, i: nat, q: Value)
    requires i < |names|
  {
    var node := NodeAt(cfg, w, start, names, i + 1);
    node.Some? && w.stat(node.value).Good? && QidShows(q, w.stat(node.value).value)
  }

  lemma ReplyAlong(cfg: Config, w: World, start: Node, names: seq<Value>, r: Walked)
    requires Longest(cfg, w, start, names, r)
    ensures QidsAlong(cfg, w, start, names, |r.stats|, Message(TWALK + 1, [List(Qids(r.stats))]))
  {
    QidsShow(r.stats);
  }

  predicate FoldsTo(name: seq<byte>, es: seq<Entry>, k: nat) {
    k < |es| && EqIgnoreCase(name, es[k].name) && forall j | 0 <= j < k :: !EqIgnoreCase(name, es[j].name)
  }

  /**
   * An exact match wins, and so does any failure but ENOENT; only then, and only if asked to, folding takes the
   * first entry, in directory order, that agrees up to case. If none does, the error that ended the listing is
   * returned, and else ENOENT.
   */
  lemma FoldPolicy(cfg: Config, w: World, parent: Node, name: seq<byte>)
    requires !HasNul(name)
    ensures var exact, r := w.lookup(parent, name), LookupName(cfg, w, parent, name);
            if exact != Errno(ENOENT) || !cfg.casefold then r == exact
            else match w.open(parent, P9_DIRECTORY)
              case Errno(e) => r == Errno(e)
              case Good(h) =>
                var l := ListFrom(w, h, 0);
                && (forall k: nat | FoldsTo(name, l.entries, k) :: r == w.lookup(parent, l.entries[k].name))
                && ((forall k | 0 <= k < |l.entries| :: !EqIgnoreCase(name, l.entries[k].name)) ==>
                      r == Errno(if l.stop.Some? then l.stop.value else ENOENT))
  {
    if w.open(parent, P9_DIRECTORY).Good? {
      var es := ListFrom(w, w.open(parent, P9_DIRECTORY).value, 0).entries;
      forall k: nat | FoldsTo(name, es, k) ensures FirstFold(es, name, 0) == k { FoldUnique(name, es, k); }
    }
  }

  lemma FoldUnique(name: seq<byte>, es: seq<Entry>, k: nat)
    requires FoldsTo(name, es, k)
    ensures FirstFold(es, name, 0) == k
  {
  }

  /** Two bytes agree up to case: they are equal, or the same letter, one in capitals. */
  predicate SameLetter(a: byte, b: byte) {
    a == b || (0x41 <= a <= 0x5a && b == a + 0x20) || (0x41 <= b <= 0x5a && a == b + 0x20)
  }

  lemma FoldShows(a: seq<byte>, b: seq<byte>)
    ensures EqIgnoreCase(a, b) <==> |a| == |b| && forall i | 0 <= i < |a| :: SameLetter(a[i], b[i])
  {
    if EqIgnoreCase(a, b) {
      forall i | 0 <= i < |a| ensures SameLetter(a[i], b[i]) { assert Lower(a[i]) == Lower(b[i]); }
    }
    if |a| == |b| && forall i | 0 <= i < |a| :: SameLetter(a[i], b[i]) {
      forall i | 0 <= i < |a| ensures Lower(a[i]) == Lower(b[i]) { assert SameLetter(a[i], b[i]); }
    }
  }

  // ------------------------------------------------------------------- the loops

  method AsciiCasefoldLookup(w: World, parent: Node, name: seq<byte>) returns (r: Result<Node>)
    ensures r == CasefoldLookup(w, parent, name)
  {
    var dir := w.open(parent, P9_DIRECTORY);
    if dir.Errno? { return Errno(dir.code); }
    var pos := Seek(w.dir(dir.value), 0);
    if pos.Errno? { return Errno(pos.code); }
    var dirents := new ReadDir(w.dir(dir.value), pos.value);
    while true
      invariant fresh(dirents) && fresh(dirents.buf) && dirents.Valid()
      invariant dirents.yielded <= FirstFold(dirents.listing.entries, name, 0)
      decreases |dirents.listing.entries| - dirents.yielded
    {
      ghost var i := dirents.yielded;
      var entry := dirents.Next();
      if entry.None? { return Errno(ENOENT); }
      if entry.value.Errno? { return Errno(entry.value.code); }
      NextFold(dirents.listing.entries, name, i);
      if EqIgnoreCase(name, entry.value.value.name) {
        return w.lookup(parent, entry.value.value.name);
      }
    }
  }

  lemma NextFold(es: seq<Entry>, name: seq<byte>, i: nat)
    requires i < |es| && i <= FirstFold(es, name, 0)
    ensures FirstFold(es, name, 0) == i <==> EqIgnoreCase(name, es[i].name)
  {
  }

  /** `do_walk`: collects metadata name by name and stops at the first error. */
  method DoWalk(cfg: Config, w: World, start: Node, names: seq<Value>) returns (stats: seq<Stat>, end: Result<Node>)
    ensures names != [] ==> Walked(stats, end) == Resolve(cfg, w, start, names)
    ensures names == [] ==> stats == [] && end == w.dup(start)
  {
    stats := [];
    var current := start;
    var i := 0;
    while i < |names|
      invariant 0 <= i <= |names|
      invariant var rest := Resolve(cfg, w, current, names[i..]);
                Resolve(cfg, w, start, names) == Walked(stats + rest.stats, rest.end)
      invariant i == 0 ==> stats == [] && current == start
    {
      assert names[i..][1..] == names[i + 1..];
      var name := NameOf(names[i]);
      var next: Result<Node>;
      if HasNul(name) {
        next := Errno(EINVAL);
      } else {
        next := w.lookup(current, name);
        if cfg.casefold && next == Errno(ENOENT) {
          next := AsciiCasefoldLookup(w, current, name);
        }
      }
      if next.Errno? {
        assert stats + [] == stats;
        return stats, Errno(next.code);
      }
      var s := w.stat(next.value);
      if s.Errno? {
        assert stats + [] == stats;
        return stats, Errno(s.code);
      }
      Assoc(stats, [s.value], Resolve(cfg, w, next.value, names[i + 1..]).stats);
      stats := stats + [s.value];
      current := next.value;
      i := i + 1;
    }
    assert stats + [] == stats;
    end := if names == [] then w.dup(start) else Good(current);
  }
}
