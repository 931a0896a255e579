/**
 * The lockstep proxy: it decodes a request from its client, encodes it again for the server, waits for the
 * reply, and decodes and encodes that for the client. The wire formats are parameters.
 */
module Proxy {
  import opened Bytes
  import opened WireFormat
  import opened Streams

  // ---------------------------------------------------------------- a connection

  datatype Phase = WantRequest | WantReply | Closed | Crashed

  /**
   * `client` is unread by the proxy, `inbox` by the server and `back`, again, by the proxy; `up` and `down` are
   * all bytes ever sent to the server and to the client. `sent`, `got` and `answers` record the requests
   * forwarded, those the server has read and its answers, and `returned` counts the replies handed back.
   */
  datatype Conn<Q, R> = Conn(
    phase: Phase,
    client: seq<byte>,
    up: seq<byte>,
    inbox: seq<byte>,
    back: seq<byte>,
    down: seq<byte>,
    sent: seq<Q>,
    got: seq<Q>,
    answers: seq<R>,
    returned: nat)

  datatype Move<R> = Forward | Answer(r: R) | Return

  /** The server answers only what it can send; that need not be something the proxy can read. */
  ghost predicate Enabled<Q, R>(wq: Wire<Q>, wr: Wire<R>, c: Conn<Q, R>, m: Move<R>) {
    match m
    case Forward => c.phase.WantRequest?
    case Answer(r) => c.inbox != [] && Settled(wr, r)
    case Return => c.phase.WantReply? && c.back != []
  }

  function Do<Q, R>(wq: Wire<Q>, wr: Wire<R>, c: Conn<Q, R>, m: Move<R>): Conn<Q, R> {
    match m
    case Forward =>
      (match wq.decode(c.client)
       case Fail(_, _) => c.(phase := Closed)
       case Done(q, rest) =>
         var out := wq.encode(q);
         var d := c.(client := rest, up := c.up + out.bytes, inbox := c.inbox + out.bytes);
         if out.ok then d.(phase := WantReply, sent := c.sent + [q]) else d.(phase := Crashed))
    case Answer(r) =>
      (match wq.decode(c.inbox)
       case Fail(_, _) => c
       case Done(q, rest) =>
         c.(inbox := rest, got := c.got + [q], answers := c.answers + [r], back := c.back + wr.encode(r).bytes))
    case Return =>
      (match wr.decode(c.back)
       case Fail(_, _) => c.(phase := Crashed)
       case Done(r, rest) =>
         var out := wr.encode(r);
         c.(back := rest, down := c.down + out.bytes, returned := c.returned + 1,
            phase := if out.ok then WantRequest else Crashed))
  }

  function Start<Q, R>(b: seq<byte>): Conn<Q, R> {
    Conn(WantRequest, b, [], [], [], [], [], [], [], 0)
  }

  ghost predicate IsRun<Q, R>(wq: Wire<Q>, wr: Wire<R>, b: seq<byte>, cs: seq<Conn<Q, R>>, moves: seq<Move<R>>) {
    && |cs| == |moves| + 1 && cs[0] == Start(b)
    && forall n | 0 <= n < |moves| :: Enabled(wq, wr, cs[n], moves[n]) && cs[n + 1] == Do(wq, wr, cs[n], moves[n])
  }

  // ------------------------------------------------------------ what every move keeps

  /**
   * At most one request is unanswered, and only while the proxy waits for its reply; or the proxy has crashed on
   * the answer to the last.
   */
  ghost predicate Lockstep<Q, R>(wr: Wire<R>, c: Conn<Q, R>) {
    && |c.got| == |c.answers| && c.returned <= |c.answers| <= |c.sent|
    && (|c.sent| == c.returned + (if c.phase.WantReply? then 1 else 0) || StuckOn(wr, c))
  }

  /** The proxy has crashed on an answer that cannot be read. */
  ghost predicate StuckOn<Q, R>(wr: Wire<R>, c: Conn<Q, R>) {
    c.phase.Crashed? && |c.answers| == |c.sent| == c.returned + 1 && Unreadable(wr, c.answers[c.returned])
  }

  ghost predicate Upstream<Q, R>(wq: Wire<Q>, c: Conn<Q, R>) {
    && |c.got| <= |c.sent| && AllFaithful(wq, c.sent)
    && c.up == EncodeAll(wq, c.sent)
    && c.got == c.sent[..|c.got|] && c.inbox == EncodeAll(wq, c.sent[|c.got|..])
  }

  ghost predicate Downstream<Q, R>(wr: Wire<R>, c: Conn<Q, R>) {
    && c.returned <= |c.answers| && AllFaithful(wr, c.answers[..c.returned])
    && (forall i | c.returned <= i < |c.answers| :: Settled(wr, c.answers[i]))
    && c.down == EncodeAll(wr, c.answers[..c.returned])
    && c.back == EncodeAll(wr, c.answers[c.returned..])
  }

  ghost predicate Consumed<Q, R>(wq: Wire<Q>, b: seq<byte>, c: Conn<Q, R>) {
    match DecodeMany(wq, b, |c.sent|)
    case None => false
    case Some((qs, rest)) => qs == c.sent && (!c.phase.Crashed? ==> rest == c.client)
  }

  ghost predicate Inv<Q, R>(wq: Wire<Q>, wr: Wire<R>, b: seq<byte>, c: Conn<Q, R>) {
    Lockstep(wr, c) && Upstream(wq, c) && Downstream(wr, c) && Consumed(wq, b, c)
  }

  lemma UpstreamMore<Q, R>(wq: Wire<Q>, c: Conn<Q, R>, q: Q, e: Conn<Q, R>)
    requires Upstream(wq, c) && Faithful(wq, q)
    requires e.sent == c.sent + [q] && e.got == c.got
    requires e.up == c.up + wq.encode(q).bytes && e.inbox == c.inbox + wq.encode(q).bytes
    ensures Upstream(wq, e)
  {
    var n := |c.got|;
    EncodeSnoc(wq, c.sent, q);
    EncodeSnoc(wq, c.sent[n..], q);
    assert e.sent[n..] == c.sent[n..] + [q] && e.sent[..n] == c.sent[..n];
  }

  lemma ForwardKeeps<Q, R>(wq: Wire<Q>, wr: Wire<R>, b: seq<byte>, c: Conn<Q, R>)
    requires Checked(wq) && Inv(wq, wr, b, c) && Enabled(wq, wr, c, Forward)
    ensures Inv(wq, wr, b, Do(wq, wr, c, Forward))
  {
    var e, d := Do(wq, wr, c, Forward), wq.decode(c.client);
    if d.Done? {
      assert Faithful(wq, d.value) || Refused(wq, d.value);
      if wq.encode(d.value).ok {
        UpstreamMore(wq, c, d.value, e);
      } else {
        assert e.up == c.up && e.inbox == c.inbox;
      }
    }
  }

  lemma AnswerKeeps<Q, R>(wq: Wire<Q>, wr: Wire<R>, b: seq<byte>, c: Conn<Q, R>, r: R)
    requires Inv(wq, wr, b, c) && Enabled(wq, wr, c, Answer(r))
    ensures Inv(wq, wr, b, Do(wq, wr, c, Answer(r)))
  {
    var e, n := Do(wq, wr, c, Answer(r)), |c.got|;
    assert c.sent[n..] != [];
    DecodeHead(wq, c.sent[n..]);
    assert c.sent[n..][0] == c.sent[n] && c.sent[n..][1..] == c.sent[n + 1..];
    assert c.sent[..n + 1] == c.sent[..n] + [c.sent[n]];
    DownstreamMore(wr, c, r, e);
  }

  lemma DownstreamMore<Q, R>(wr: Wire<R>, c: Conn<Q, R>, r: R, e: Conn<Q, R>)
    requires Downstream(wr, c) && Settled(wr, r)
    requires e.answers == c.answers + [r] && e.returned == c.returned && e.down == c.down
    requires e.back == c.back + wr.encode(r).bytes
    ensures Downstream(wr, e)
  {
    var d := c.returned;
    EncodeSnoc(wr, c.answers[d..], r);
    assert e.answers[d..] == c.answers[d..] + [r] && e.answers[..d] == c.answers[..d];
  }

  lemma DownstreamReturn<Q, R>(wr: Wire<R>, c: Conn<Q, R>, e: Conn<Q, R>)
    requires Downstream(wr, c) && c.returned < |c.answers| && Faithful(wr, c.answers[c.returned])
    requires e.answers == c.answers && e.returned == c.returned + 1
    requires e.down == c.down + wr.encode(c.answers[c.returned]).bytes
    requires e.back == EncodeAll(wr, c.answers[c.returned + 1..])
    ensures Downstream(wr, e)
  {
    var d := c.returned;
    assert c.answers[..d + 1] == c.answers[..d] + [c.answers[d]];
    EncodeSnoc(wr, c.answers[..d], c.answers[d]);
  }

  /** A reply is handed back, unless it cannot be read: exactly then the proxy crashes. */
  lemma ReturnKeeps<Q, R>(wq: Wire<Q>, wr: Wire<R>, b: seq<byte>, c: Conn<Q, R>)
    requires Inv(wq, wr, b, c) && Enabled(wq, wr, c, Return)
    ensures var e := Do(wq, wr, c, Return);
      && Inv(wq, wr, b, e) && c.returned < |c.answers|
      && (e.phase.Crashed? <==> Unreadable(wr, c.answers[c.returned]))
      && (e.phase.WantRequest? <==> Faithful(wr, c.answers[c.returned]))
  {
    var d := c.returned;
    assert c.answers[d..] != [];
    assert c.answers[d..][0] == c.answers[d] && c.answers[d..][1..] == c.answers[d + 1..];
    assert Settled(wr, c.answers[d]);
    if Unreadable(wr, c.answers[d]) {
      UnreadableHead(wr, c.answers[d..]);
      UnreadableAlone(wr, c.answers[d]);
    } else {
      DecodeHead(wr, c.answers[d..]);
      DownstreamReturn(wr, c, Do(wq, wr, c, Return));
    }
  }

  /** In every reachable state, for any client bytes. */
  lemma {:induction false} RunKeeps<Q, R>(wq: Wire<Q>, wr: Wire<R>, b: seq<byte>,
                                                      cs: seq<Conn<Q, R>>, moves: seq<Move<R>>, n: nat)
    requires Checked(wq) && IsRun(wq, wr, b, cs, moves) && n < |cs|
    ensures Inv(wq, wr, b, cs[n])
  {
    if n > 0 {
      RunKeeps(wq, wr, b, cs, moves, n - 1);
      assert Enabled(wq, wr, cs[n - 1], moves[n - 1]) && cs[n] == Do(wq, wr, cs[n - 1], moves[n - 1]);
      match moves[n - 1] {
        case Forward => ForwardKeeps(wq, wr, b, cs[n - 1]);
        case Answer(r) => AnswerKeeps(wq, wr, b, cs[n - 1], r);
        case Return => ReturnKeeps(wq, wr, b, cs[n - 1]);
      }
    }
  }

  // ------------------------------------------------------------------ transparency

  lemma {:induction false} SentPrefix<T>(w: Wire<T>, xs: seq<T>, ys: seq<T>)
    requires AllFaithful(w, xs) && w.decode([]).Fail? && AllFaithful(w, ys)
    requires DecodeMany(w, EncodeAll(w, xs), |ys|).Some? && DecodeMany(w, EncodeAll(w, xs), |ys|).value.0 == ys
    ensures ys <= xs
    decreases |ys|
  {
    if |ys| <= |xs| {
      DecodeEncoded(w, xs, |ys|);
    } else {
      DecodeEncoded(w, xs, |xs|);
      assert xs[|xs|..] == [] && EncodeAll(w, xs[|xs|..]) == [];
      TooMany(w, EncodeAll(w, xs), |xs|, |ys|);
    }
  }

  lemma {:induction false} TooMany<T>(w: Wire<T>, b: seq<byte>, n: nat, m: nat)
    requires n < m && w.decode([]).Fail? && DecodeMany(w, b, n).Some? && DecodeMany(w, b, n).value.1 == []
    ensures DecodeMany(w, b, m).None?
  {
    if n + 1 < m { TooMany(w, b, n, m - 1); }
  }

  /**
   * For a client stream of well-formed requests, in every reachable state: what has gone upstream is a prefix of
   * the client's bytes, the server has read the client's own requests in order, at most one is unanswered, and
   * the replies delivered are the encodings of the server's answers to the first requests, one each, in order.
   */
  lemma Transparent<Q, R>(wq: Wire<Q>, wr: Wire<R>, qs: seq<Q>, cs: seq<Conn<Q, R>>, moves: seq<Move<R>>, n: nat)
    requires Checked(wq) && wq.decode([]).Fail? && AllFaithful(wq, qs)
    requires IsRun(wq, wr, EncodeAll(wq, qs), cs, moves) && n < |cs|
    ensures var c := cs[n];
      && c.up <= EncodeAll(wq, qs) && c.got <= c.sent <= qs
      && |c.answers| == |c.got| && c.returned <= |c.answers| <= |c.sent| <= c.returned + 1
      && c.down == EncodeAll(wr, c.answers[..c.returned])
  {
    var c := cs[n];
    RunKeeps(wq, wr, EncodeAll(wq, qs), cs, moves, n);
    SentPrefix(wq, qs, c.sent);
    var k := |c.sent|;
    assert qs == c.sent + qs[k..];
    EncodeJoin(wq, c.sent, qs[k..]);
  }

  lemma ForwardSafe<Q, R>(wq: Wire<Q>, wr: Wire<R>, qs: seq<Q>, c: Conn<Q, R>)
    requires wq.decode([]).Fail? && AllFaithful(wq, qs) && AllFaithful(wq, c.sent)
    requires c.phase.WantRequest? && Consumed(wq, EncodeAll(wq, qs), c)
    ensures !Do(wq, wr, c, Forward).phase.Crashed?
  {
    SentPrefix(wq, qs, c.sent);
    DecodeEncoded(wq, qs, |c.sent|);
    var rest := qs[|c.sent|..];
    assert c.client == EncodeAll(wq, rest);
    if rest != [] { DecodeHead(wq, rest); }
  }

  /** On such a stream the proxy crashes on an answer it cannot read, and on nothing else. */
  lemma CrashCause<Q, R>(wq: Wire<Q>, wr: Wire<R>, qs: seq<Q>, cs: seq<Conn<Q, R>>, moves: seq<Move<R>>, n: nat)
    requires Checked(wq) && wq.decode([]).Fail? && AllFaithful(wq, qs)
    requires IsRun(wq, wr, EncodeAll(wq, qs), cs, moves) && n < |cs|
    ensures cs[n].phase.Crashed? ==> StuckOn(wr, cs[n])
  {
    var m := 0;
    while m < n
      invariant 0 <= m <= n && (cs[m].phase.Crashed? ==> StuckOn(wr, cs[m]))
    {
      RunKeeps(wq, wr, EncodeAll(wq, qs), cs, moves, m);
      MoveSafe(wq, wr, qs, cs[m], moves[m]);
      m := m + 1;
    }
  }

  lemma MoveSafe<Q, R>(wq: Wire<Q>, wr: Wire<R>, qs: seq<Q>, c: Conn<Q, R>, m: Move<R>)
    requires wq.decode([]).Fail? && AllFaithful(wq, qs) && Inv(wq, wr, EncodeAll(wq, qs), c)
    requires Enabled(wq, wr, c, m) && (c.phase.Crashed? ==> StuckOn(wr, c))
    ensures Do(wq, wr, c, m).phase.Crashed? ==> StuckOn(wr, Do(wq, wr, c, m))
  {
    match m
    case Forward => ForwardSafe(wq, wr, qs, c);
    case Answer(_) => if c.phase.Crashed? { NoneWaiting(wq, wr, c); }
    case Return => ReturnKeeps(wq, wr, EncodeAll(wq, qs), c);
  }

  /** Once every request has been answered, none is left for the server to read. */
  lemma NoneWaiting<Q, R>(wq: Wire<Q>, wr: Wire<R>, c: Conn<Q, R>)
    requires Upstream(wq, c) && |c.got| == |c.sent|
    ensures c.inbox == []
  {
    assert c.sent[|c.got|..] == [];
  }

  /** One request, answered with what cannot be read: forwarded, answered, and returned in a crash. */
  ghost predicate Panics<Q, R>(wq: Wire<Q>, wr: Wire<R>, q: Q, r: R) {
    var c0 := Start<Q, R>(EncodeAll(wq, [q]));
    var c1 := Do(wq, wr, c0, Forward);
    var c2 := Do(wq, wr, c1, Answer(r));
    var c3 := Do(wq, wr, c2, Return);
    IsRun(wq, wr, EncodeAll(wq, [q]), [c0, c1, c2, c3], [Forward, Answer(r), Return]) && c3.phase.Crashed?
  }

  lemma UnreadablePanics<Q, R>(wq: Wire<Q>, wr: Wire<R>, q: Q, r: R)
    requires Faithful(wq, q) && Unreadable(wr, r)
    ensures Panics(wq, wr, q, r)
  {
    var c0 := Start<Q, R>(EncodeAll(wq, [q]));
    DecodeHead(wq, [q]);
    assert [q][1..] == [] && EncodeAll(wq, [q][1..]) == [];
    DecodeAlone(wq, q);
    var c1 := Do(wq, wr, c0, Forward);
    assert [] + wq.encode(q).bytes == wq.encode(q).bytes;
    var c2 := Do(wq, wr, c1, Answer(r));
    assert [] + wr.encode(r).bytes == wr.encode(r).bytes;
    UnreadableAlone(wr, r);
    assert Enabled(wq, wr, c0, Forward) && Enabled(wq, wr, c1, Answer(r)) && Enabled(wq, wr, c2, Return);
  }

  // ------------------------------------------------------------------------ the loop

  /** How the forwarding task ended: with the client's stream, or because it unwrapped an error. */
  datatype End = ClientDone | RequestRefused | ReplyUnreadable

  function Answers<Q, R>(answer: (nat, Q) -> R, qs: seq<Q>): (r: seq<R>)
    ensures |r| == |qs|
  {
    seq(|qs|, k requires 0 <= k < |qs| => answer(k, qs[k]))
  }

  lemma AnswersMore<Q, R>(answer: (nat, Q) -> R, qs: seq<Q>, q: Q)
    ensures Answers(answer, qs + [q]) == Answers(answer, qs) + [answer(|qs|, q)]
  {
  }

  /**
   * The loop of `Proxy::run` on one connection, with `answer` for what the server replies to each request. For
   * any client bytes it forwards the requests they hold, in order, and hands back the answers; it stops at the
   * first bytes that are no request, on the first request the encoder refuses, or after forwarding the first
   * request whose answer cannot be read.
   */
  method Relay<Q(!new), R>(wq: Wire<Q>, wr: Wire<R>, client: seq<byte>, answer: (nat, Q) -> R)
    returns (up: seq<byte>, down: seq<byte>, end: End, rest: seq<byte>, ghost qs: seq<Q>)
    requires Checked(wq) && Consuming(wq) && forall k, q :: Settled(wr, answer(k, q))
    ensures DecodeMany(wq, client, |qs|) == Some((qs, rest))
    ensures AllFaithful(wr, Answers(answer, qs)) && down == EncodeAll(wr, Answers(answer, qs))
    ensures end == ClientDone ==> wq.decode(rest).Fail? && up == EncodeAll(wq, qs)
    ensures end == RequestRefused ==>
      wq.decode(rest).Done? && Refused(wq, wq.decode(rest).value) && up == EncodeAll(wq, qs)
    ensures end == ReplyUnreadable ==>
      && wq.decode(rest).Done? && up == EncodeAll(wq, qs + [wq.decode(rest).value])
      && Unreadable(wr, answer(|qs|, wq.decode(rest).value))
  {
    up, down, rest, qs := [], [], client, [];
    var k := 0;
    while true
      invariant k == |qs| && DecodeMany(wq, client, |qs|) == Some((qs, rest))
      invariant up == EncodeAll(wq, qs) && down == EncodeAll(wr, Answers(answer, qs))
      invariant AllFaithful(wr, Answers(answer, qs))
      decreases |rest|
    {
      var t := wq.decode(rest);
      if t.Fail? { end := ClientDone; return; }
      var out := wq.encode(t.value);
      if !out.ok { end := RequestRefused; return; }
      EncodeSnoc(wq, qs, t.value);
      up := up + out.bytes;
      var reply := answer(k, t.value);
      ReadReply(wr, reply);
      var back := wr.decode(wr.encode(reply).bytes);
      if back.Fail? { end := ReplyUnreadable; return; }
      AnswersMore(answer, qs, t.value);
      EncodeSnoc(wr, Answers(answer, qs), reply);
      down := down + wr.encode(back.value).bytes;
      qs, rest, k := qs + [t.value], t.rest, k + 1;
    }
  }

  lemma ReadReply<R>(wr: Wire<R>, r: R)
    requires Settled(wr, r)
    ensures wr.decode(wr.encode(r).bytes).Fail? <==> Unreadable(wr, r)
    ensures wr.decode(wr.encode(r).bytes).Done? ==> Faithful(wr, r) && wr.decode(wr.encode(r).bytes).value == r
  {
    if Faithful(wr, r) { DecodeAlone(wr, r); }
    if Unreadable(wr, r) { UnreadableAlone(wr, r); }
  }
}
