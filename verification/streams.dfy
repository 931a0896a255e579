/** Byte streams of encoded values, one after the other. */
module Streams {
  import opened Bytes
  import opened WireFormat

  datatype Wire<!T> = Wire(encode: T -> Written, decode: seq<byte> -> Decoded<T>)

  /** Encoded and followed by anything, the value is read back with exactly the rest left. */
  ghost predicate Faithful<T>(w: Wire<T>, x: T) {
    w.encode(x).ok && w.encode(x).bytes != [] && forall tail :: w.decode(w.encode(x).bytes + tail) == Done(x, tail)
  }

  /** Encoded in full, but whatever follows, it cannot be read back. */
  ghost predicate Unreadable<T>(w: Wire<T>, x: T) {
    w.encode(x).ok && w.encode(x).bytes != [] && forall tail :: w.decode(w.encode(x).bytes + tail).Fail?
  }

  /** What can be sent: it is read back, or it is certain not to be. */
  ghost predicate Settled<T>(w: Wire<T>, x: T) {
    Faithful(w, x) || Unreadable(w, x)
  }

  ghost predicate AllFaithful<T>(w: Wire<T>, xs: seq<T>) {
    forall i | 0 <= i < |xs| :: Faithful(w, xs[i])
  }

  /** What decoding accepts is either faithful or refused by the encoder before it writes anything. */
  ghost predicate Checked<T>(w: Wire<T>) {
    forall b | w.decode(b).Done? :: Faithful(w, w.decode(b).value) || Refused(w, w.decode(b).value)
  }

  predicate Refused<T>(w: Wire<T>, x: T) {
    !w.encode(x).ok && w.encode(x).bytes == []
  }

  /** Decoding uses up input. */
  ghost predicate Consuming<T>(w: Wire<T>) {
    forall b | w.decode(b).Done? :: |w.decode(b).rest| < |b|
  }

  function EncodeAll<T>(w: Wire<T>, xs: seq<T>): seq<byte> {
    if xs == [] then [] else w.encode(xs[0]).bytes + EncodeAll(w, xs[1..])
  }

  /** The first `n` values of a byte stream, and the bytes after them. */
  function DecodeMany<T>(w: Wire<T>, b: seq<byte>, n: nat): Option<(seq<T>, seq<byte>)> {
    if n == 0 then Some(([], b))
    else match DecodeMany(w, b, n - 1)
      case None => None
      case Some((xs, rest)) => match w.decode(rest) case Fail(_, _) => None case Done(x, r) => Some((xs + [x], r))
  }

  lemma {:induction false} EncodeJoin<T>(w: Wire<T>, xs: seq<T>, ys: seq<T>)
    ensures EncodeAll(w, xs + ys) == EncodeAll(w, xs) + EncodeAll(w, ys)
  {
    if xs == [] {
      assert xs + ys == ys;
    } else {
      assert (xs + ys)[1..] == xs[1..] + ys;
      EncodeJoin(w, xs[1..], ys);
      Assoc(w.encode(xs[0]).bytes, EncodeAll(w, xs[1..]), EncodeAll(w, ys));
    }
  }

  lemma EncodeSnoc<T>(w: Wire<T>, xs: seq<T>, x: T)
    ensures EncodeAll(w, xs + [x]) == EncodeAll(w, xs) + w.encode(x).bytes
  {
    EncodeJoin(w, xs, [x]);
    assert EncodeAll(w, [x]) == w.encode(x).bytes + [] by { assert [x][1..] == []; }
  }

  lemma DecodeAlone<T>(w: Wire<T>, x: T)
    requires Faithful(w, x)
    ensures w.decode(w.encode(x).bytes) == Done(x, [])
  {
    assert w.encode(x).bytes + [] == w.encode(x).bytes;
  }

  lemma DecodeHead<T>(w: Wire<T>, xs: seq<T>)
    requires xs != [] && Faithful(w, xs[0])
    ensures w.decode(EncodeAll(w, xs)) == Done(xs[0], EncodeAll(w, xs[1..]))
  {
  }

  lemma UnreadableHead<T>(w: Wire<T>, xs: seq<T>)
    requires xs != [] && Unreadable(w, xs[0])
    ensures w.decode(EncodeAll(w, xs)).Fail? && EncodeAll(w, xs) != []
  {
  }

  lemma UnreadableAlone<T>(w: Wire<T>, x: T)
    requires Unreadable(w, x)
    ensures w.decode(w.encode(x).bytes).Fail? && !Faithful(w, x)
  {
    assert w.encode(x).bytes + [] == w.encode(x).bytes;
  }

  /** Values encoded one after the other are decoded one after the other. */
  lemma {:induction false} DecodeEncoded<T>(w: Wire<T>, xs: seq<T>, n: nat)
    requires AllFaithful(w, xs) && n <= |xs|
    ensures DecodeMany(w, EncodeAll(w, xs), n) == Some((xs[..n], EncodeAll(w, xs[n..])))
  {
    if n == 0 {
      assert xs[0..] == xs;
    } else {
      DecodeEncoded(w, xs, n - 1);
      DecodeHead(w, xs[n - 1..]);
      assert xs[n - 1..][0] == xs[n - 1] && xs[n - 1..][1..] == xs[n..];
      assert xs[..n] == xs[..n - 1] + [xs[n - 1]];
    }
  }

  /** Of two ways to read the same bytes as a series of values one extends the other. */
  lemma {:induction false} ParseUnique<T>(w: Wire<T>, xs: seq<T>, ys: seq<T>, s: seq<byte>, t: seq<byte>)
    requires AllFaithful(w, xs) && AllFaithful(w, ys) && |xs| <= |ys|
    requires EncodeAll(w, xs) + s == EncodeAll(w, ys) + t
    ensures xs == ys[..|xs|] && s == EncodeAll(w, ys[|xs|..]) + t
  {
    if xs == [] {
      assert ys[0..] == ys && EncodeAll(w, xs) + s == s;
    } else {
      FirstsAgree(w, xs, ys, s, t);
      ParseUnique(w, xs[1..], ys[1..], s, t);
      PrefixCons(xs, ys);
    }
  }

  lemma FirstsAgree<T>(w: Wire<T>, xs: seq<T>, ys: seq<T>, s: seq<byte>, t: seq<byte>)
    requires xs != [] && ys != [] && AllFaithful(w, xs) && AllFaithful(w, ys)
    requires EncodeAll(w, xs) + s == EncodeAll(w, ys) + t
    ensures xs[0] == ys[0] && AllFaithful(w, xs[1..]) && AllFaithful(w, ys[1..])
    ensures EncodeAll(w, xs[1..]) + s == EncodeAll(w, ys[1..]) + t
  {
    FirstOf(w, xs, s);
    FirstOf(w, ys, t);
  }

  lemma PrefixCons<T>(xs: seq<T>, ys: seq<T>)
    requires 0 < |xs| <= |ys| && xs[0] == ys[0] && xs[1..] == ys[1..][..|xs| - 1]
    ensures xs == ys[..|xs|] && ys[1..][|xs| - 1..] == ys[|xs|..]
  {
    assert xs == [xs[0]] + xs[1..] && ys[..|xs|] == [ys[0]] + ys[1..][..|xs| - 1];
  }

  lemma FirstOf<T>(w: Wire<T>, xs: seq<T>, s: seq<byte>)
    requires xs != [] && Faithful(w, xs[0])
    ensures w.decode(EncodeAll(w, xs) + s) == Done(xs[0], EncodeAll(w, xs[1..]) + s)
  {
    Assoc(w.encode(xs[0]).bytes, EncodeAll(w, xs[1..]), s);
  }
}
