/** The line splitter that feeds raw bytes to the system log. */
module Syslog {
  import opened Bytes

  const CR: byte := 0x0d
  const LF: byte := 0x0a

  // ------------------------------------------- what a whole stream should give

  /** One trailing carriage return is not part of a line. */
  function Trim(line: seq<byte>): seq<byte> {
    if line != [] && line[|line| - 1] == CR then line[..|line| - 1] else line
  }

  /** The first newline at or after `i`, or the length. */
  function NextLf(s: seq<byte>, i: nat): (k: nat)
    requires i <= |s|
    ensures i <= k <= |s| && (k < |s| ==> s[k] == LF) && forall j | i <= j < k :: s[j] != LF
    decreases |s| - i
  {
    if i == |s| || s[i] == LF then i else NextLf(s, i + 1)
  }

  /** The newline-terminated pieces of a stream. */
  function RawLines(s: seq<byte>): seq<seq<byte>> {
    var k := NextLf(s, 0);
    if k == |s| then [] else [s[..k]] + RawLines(s[k + 1..])
  }

  function Trimmed(ls: seq<seq<byte>>): seq<seq<byte>> {
    if ls == [] then [] else [Trim(ls[0])] + Trimmed(ls[1..])
  }

  /** The records a stream should produce. */
  function Lines(s: seq<byte>): seq<seq<byte>> {
    Trimmed(RawLines(s))
  }

  /** The bytes after the last newline. */
  function Pending(s: seq<byte>): seq<byte> {
    var k := NextLf(s, 0);
    if k == |s| then s else Pending(s[k + 1..])
  }

  function Concat(chunks: seq<seq<byte>>): seq<byte> {
    if chunks == [] then [] else chunks[0] + Concat(chunks[1..])
  }

  /** Lines written back with their newlines. */
  function Unlines(ls: seq<seq<byte>>): seq<byte> {
    if ls == [] then [] else ls[0] + [LF] + Unlines(ls[1..])
  }

  // ------------------------------------------------------------- the laws

  /** `RawLines` and `Pending` are the only way to cut a stream at its newlines. */
  lemma {:induction false} SplitUnique(s: seq<byte>, ls: seq<seq<byte>>, p: seq<byte>)
    requires forall l | l in ls + [p] :: LF !in l
    ensures s == Unlines(ls) + p <==> ls == RawLines(s) && p == Pending(s)
    decreases |s|, |ls|
  {
    var k := NextLf(s, 0);
    if ls == [] {
      assert Unlines(ls) + p == p;
      assert p in ls + [p];
      if k < |s| { assert LF in s; }
    } else {
      var l, rest := ls[0], Unlines(ls[1..]) + p;
      assert Unlines(ls) + p == l + [LF] + rest;
      assert l in ls + [p];
      if k == |s| {
        assert (l + [LF] + rest)[|l|] == LF;
      } else {
        assert s == s[..k] + [LF] + s[k + 1..];
        CutUnique(s[..k], s[k + 1..], l, rest);
        assert forall m | m in ls[1..] + [p] :: m in ls + [p];
        SplitUnique(s[k + 1..], ls[1..], p);
        assert ls == [l] + ls[1..];
      }
    }
  }

  lemma CutUnique(a: seq<byte>, b: seq<byte>, c: seq<byte>, d: seq<byte>)
    requires LF !in a && LF !in c
    ensures a + [LF] + b == c + [LF] + d <==> a == c && b == d
  {
    var s, t := a + [LF] + b, c + [LF] + d;
    if s == t {
      assert s[|a|] == LF && t[|c|] == LF;
      assert forall j | 0 <= j < |a| :: s[j] == a[j];
      assert forall j | 0 <= j < |c| :: t[j] == c[j];
      assert a == s[..|a|] == c && b == s[|a| + 1..] == d;
    }
  }

  /** A carriage return right before the newline is dropped, one and no more; nothing else is. */
  lemma TrimIs(line: seq<byte>, c: byte)
    ensures Trim(line + [c]) == if c == 0x0d then line else line + [c]
    ensures Trim([]) == []
  {
    assert (line + [c])[..|line|] == line;
  }

  lemma {:induction false} TrimmedAt(ls: seq<seq<byte>>, i: nat)
    requires i < |ls|
    ensures |Trimmed(ls)| == |ls| && Trimmed(ls)[i] == Trim(ls[i])
  {
    if |ls| > 1 { TrimmedAt(ls[1..], if i > 0 then i - 1 else 0); }
  }

  lemma {:induction false} TrimmedAppend(a: seq<seq<byte>>, b: seq<seq<byte>>)
    ensures Trimmed(a + b) == Trimmed(a) + Trimmed(b)
  {
    if a == [] {
      assert a + b == b;
    } else {
      assert (a + b)[1..] == a[1..] + b;
      TrimmedAppend(a[1..], b);
    }
  }

  lemma FirstLine(x: seq<byte>, rest: seq<byte>)
    requires LF !in x
    ensures RawLines(x + [LF] + rest) == [x] + RawLines(rest)
    ensures Pending(x + [LF] + rest) == Pending(rest)
  {
    var s := x + [LF] + rest;
    assert s[|x|] == LF && forall j | 0 <= j < |x| :: s[j] == x[j];
    assert NextLf(s, 0) == |x|;
    assert s[..|x|] == x && s[|x| + 1..] == rest;
  }

  predicate SplitsOff(s: seq<byte>, t: seq<byte>) {
    && RawLines(s + t) == RawLines(s) + RawLines(Pending(s) + t)
    && Pending(s + t) == Pending(Pending(s) + t)
  }

  lemma SplitOffLine(x: seq<byte>, r: seq<byte>, t: seq<byte>)
    requires LF !in x && SplitsOff(r, t)
    ensures SplitsOff(x + [LF] + r, t)
  {
    FirstLine(x, r);
    FirstLine(x, r + t);
    Assoc(x + [LF], r, t);
    Assoc([x], RawLines(r), RawLines(Pending(r) + t));
  }

  /** Text already split can be dropped: the rest depends only on what is pending. */
  lemma {:induction false} SplitAppend(s: seq<byte>, t: seq<byte>)
    ensures SplitsOff(s, t)
    decreases |s|
  {
    var k := NextLf(s, 0);
    if k == |s| {
      assert RawLines(s) == [] && Pending(s) == s;
      assert [] + RawLines(s + t) == RawLines(s + t);
    } else {
      SplitAppend(s[k + 1..], t);
      SplitOffLine(s[..k], s[k + 1..], t);
      assert s == s[..k] + [LF] + s[k + 1..];
    }
  }

  lemma LinesAppend(s: seq<byte>, t: seq<byte>)
    ensures Lines(s + t) == Lines(s) + Lines(Pending(s) + t)
    ensures Pending(s + t) == Pending(Pending(s) + t)
  {
    SplitAppend(s, t);
    TrimmedAppend(RawLines(s), RawLines(Pending(s) + t));
  }

  /** One write, seen from the end of the stream. */
  lemma WriteStep(sent: seq<seq<byte>>, buf: seq<byte>, chunk: seq<byte>, rest: seq<byte>)
    ensures sent + Lines(buf + chunk) + Lines(Pending(buf + chunk) + rest) == sent + Lines(buf + (chunk + rest))
    ensures Pending(Pending(buf + chunk) + rest) == Pending(buf + (chunk + rest))
  {
    Assoc(buf, chunk, rest);
    LinesAppend(buf + chunk, rest);
    Assoc(sent, Lines(buf + chunk), Lines(Pending(buf + chunk) + rest));
  }

  // ------------------------------------------------------------ the writer

  /** The pieces between newlines: `slice.split`, never empty. */
  function Split(s: seq<byte>): seq<seq<byte>> {
    var k := NextLf(s, 0);
    if k == |s| then [s] else [s[..k]] + Split(s[k + 1..])
  }

  lemma {:induction false} SplitTerminated(t: seq<byte>)
    ensures RawLines(t + [LF]) == Split(t) && Pending(t + [LF]) == []
    decreases |t|
  {
    var k := NextLf(t, 0);
    if k == |t| {
      FirstLine(t, []);
      assert t + [LF] + [] == t + [LF];
    } else {
      var x, r := t[..k], t[k + 1..];
      FirstLine(x, r + [LF]);
      assert t == x + [LF] + r;
      Assoc(x + [LF], r, [LF]);
      SplitTerminated(r);
    }
  }

  /** What splitting up to the last newline yields is what the stream's lines are. */
  lemma SplitIsLines(s: seq<byte>, last: nat)
    requires last < |s| && s[last] == LF && forall j | last < j < |s| :: s[j] != LF
    ensures RawLines(s) == Split(s[..last]) && Pending(s) == s[last + 1..]
  {
    var front, tail := s[..last] + [LF], s[last + 1..];
    CutAfter(s, last);
    SplitTerminated(s[..last]);
    SplitAppend(front, tail);
  }

  lemma CutAfter(s: seq<byte>, last: nat)
    requires last < |s| && s[last] == LF
    ensures s == s[..last] + [LF] + s[last + 1..] && [] + s[last + 1..] == s[last + 1..]
  {
  }

  /** `rposition`: the index of the last newline. */
  method LastLf(s: seq<byte>) returns (at: Option<nat>)
    ensures at.None? <==> forall j | 0 <= j < |s| :: s[j] != LF
    ensures at.Some? ==> at.value < |s| && s[at.value] == LF && forall j | at.value < j < |s| :: s[j] != LF
  {
    var i := |s|;
    while i > 0
      invariant 0 <= i <= |s| && forall j | i <= j < |s| :: s[j] != LF
    {
      i := i - 1;
      if s[i] == LF { return Some(i); }
    }
    return None;
  }

  class Syslogger {
    var buf: seq<byte>
    var sent: seq<seq<byte>> // the records handed to the log, oldest first

    /** Only an unfinished line is held back. */
    ghost predicate Valid()
      reads this
    {
      LF !in buf
    }

    constructor ()
      ensures Valid() && buf == [] && sent == []
    {
      buf, sent := [], [];
    }

    /** `io::Write::write` */
    method Write(chunk: seq<byte>) returns (n: nat)
      modifies this
      ensures Valid()
      ensures n == |chunk|
      ensures sent == old(sent) + Lines(old(buf) + chunk)
      ensures buf == Pending(old(buf) + chunk)
    {
      buf := buf + chunk;
      ghost var all := buf;
      var at := LastLf(buf);
      if at.Some? {
        var lines := Split(buf[..at.value]);
        SplitIsLines(buf, at.value);
        var i := 0;
        while i < |lines|
          invariant 0 <= i <= |lines| && buf == all
          invariant sent + Trimmed(lines[i..]) == old(sent) + Lines(all)
        {
          assert lines[i..][1..] == lines[i + 1..];
          Assoc(sent, [Trim(lines[i])], Trimmed(lines[i + 1..]));
          sent := sent + [Trim(lines[i])];
          i := i + 1;
        }
        buf := buf[at.value + 1..];
      } else {
        assert Lines(all) == [] && Pending(all) == all;
      }
      n := |chunk|;
    }

    /** However a stream is cut into writes, the log gets its lines and the buffer its unfinished rest. */
    method WriteAll(chunks: seq<seq<byte>>)
      requires Valid()
      modifies this
      ensures Valid()
      ensures sent == old(sent) + Lines(old(buf) + Concat(chunks))
      ensures buf == Pending(old(buf) + Concat(chunks))
    {
      ghost var all := buf + Concat(chunks);
      var i := 0;
      while i < |chunks|
        invariant 0 <= i <= |chunks| && Valid()
        invariant sent + Lines(buf + Concat(chunks[i..])) == old(sent) + Lines(all)
        invariant Pending(buf + Concat(chunks[i..])) == Pending(all)
      {
        ghost var was, rest := sent, Concat(chunks[i + 1..]);
        WriteStep(was, buf, chunks[i], rest);
        assert chunks[i..][1..] == chunks[i + 1..];
        var _ := Write(chunks[i]);
        i := i + 1;
      }
      assert buf + Concat(chunks[i..]) == buf;
    }
  }
}
