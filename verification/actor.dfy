/**
 * One service shared by any number of streams. Each stream decodes a request, enqueues it with a one-shot
 * slot for the reply, waits for the slot and writes the reply out; a single task serves the queue.
 * `W` is what the outside world answers while one request is served.
 */
module Actor {
  import opened Bytes
  import opened WireFormat
  import opened Streams

  /** A service, and the wire formats of its requests `Q` and replies `R`. */
  datatype Service<!S, !W, !Q, !R> = Service(
    requests: Wire<Q>,
    replies: Wire<R>,
    serve: (S, W, Q) -> (S, R))

  /** The specification: requests served one at a time, the state they lead to and their replies. */
  function Serial<S, W, Q, R>(svc: Service<S, W, Q, R>, s: S, requests: seq<Q>, worlds: seq<W>): (r: (S, seq<R>))
    requires |requests| == |worlds|
    ensures |r.1| == |requests|
  {
    if requests == [] then (s, [])
    else
      var n := |requests| - 1;
      var (before, replies) := Serial(svc, s, requests[..n], worlds[..n]);
      var (after, reply) := svc.serve(before, worlds[n], requests[n]);
      (after, replies + [reply])
  }

  /** The same, turn by turn. */
  datatype Turn<S, W, Q, R> = Turn(before: S, world: W, request: Q, reply: R, after: S)

  function Turns<S, W, Q, R>(svc: Service<S, W, Q, R>, s: S, requests: seq<Q>, worlds: seq<W>): (r: seq<Turn<S, W, Q, R>>)
    requires |requests| == |worlds|
    ensures |r| == |requests|
  {
    if requests == [] then []
    else
      var n := |requests| - 1;
      var before := Serial(svc, s, requests[..n], worlds[..n]).0;
      var (after, reply) := svc.serve(before, worlds[n], requests[n]);
      Turns(svc, s, requests[..n], worlds[..n]) + [Turn(before, worlds[n], requests[n], reply, after)]
  }

  ghost predicate Linked<S, W, Q, R>(svc: Service<S, W, Q, R>, s: S, ts: seq<Turn<S, W, Q, R>>) {
    forall k | 0 <= k < |ts| ::
      && svc.serve(ts[k].before, ts[k].world, ts[k].request) == (ts[k].after, ts[k].reply)
      && ts[k].before == StateAfter(s, ts, k)
  }

  function StateAfter<S, W, Q, R>(s: S, ts: seq<Turn<S, W, Q, R>>, k: nat): S
    requires k <= |ts|
  {
    if k == 0 then s else ts[k - 1].after
  }

  lemma LinkedMore<S, W, Q, R>(svc: Service<S, W, Q, R>, s: S, ts: seq<Turn<S, W, Q, R>>, t: Turn<S, W, Q, R>)
    requires Linked(svc, s, ts) && svc.serve(t.before, t.world, t.request) == (t.after, t.reply)
    requires t.before == StateAfter(s, ts, |ts|)
    ensures Linked(svc, s, ts + [t])
  {
  }

  /** Each turn serves its request from where the one before it ended. */
  lemma {:induction false} TurnsLinked<S, W, Q, R>(svc: Service<S, W, Q, R>, s: S, requests: seq<Q>, worlds: seq<W>)
    requires |requests| == |worlds|
    ensures var ts := Turns(svc, s, requests, worlds);
      && Linked(svc, s, ts)
      && (forall k | 0 <= k < |ts| ::
            && ts[k].request == requests[k] && ts[k].world == worlds[k]
            && ts[k].reply == Serial(svc, s, requests, worlds).1[k])
      && Serial(svc, s, requests, worlds).0 == StateAfter(s, ts, |ts|)
    decreases |requests|
  {
    if requests != [] {
      var n := |requests| - 1;
      TurnsLinked(svc, s, requests[..n], worlds[..n]);
      var ts := Turns(svc, s, requests, worlds);
      LinkedMore(svc, s, Turns(svc, s, requests[..n], worlds[..n]), ts[n]);
    }
  }

  // ---------------------------------------------------------------- the system

  datatype Phase = Reading | Waiting(slot: nat) | Closed

  /** A stream task: bytes not yet read, bytes written, and the numbers of its calls so far. */
  datatype Stream = Stream(input: seq<byte>, phase: Phase, output: seq<byte>, calls: seq<nat>)

  datatype Job<Q> = Job(request: Q, slot: nat)

  /** Every request enqueued and by which stream, and the replies of those served. */
  datatype Past<Q, R> = Past(requests: seq<Q>, owners: seq<nat>, replies: seq<R>)

  /** `queue` and `slots` are the channel and the filled one-shot slots; `past` and `worlds` are history. */
  datatype System<S, W, Q, R> = System(
    server: S,
    queue: seq<Job<Q>>,
    slots: map<nat, R>,
    streams: seq<Stream>,
    past: Past<Q, R>,
    worlds: seq<W>)

  datatype Move<W> = Read(i: nat) | Serve(w: W) | Deliver(i: nat)

  predicate Enabled<S, W, Q, R>(y: System<S, W, Q, R>, m: Move<W>) {
    match m
    case Read(i) => i < |y.streams| && y.streams[i].phase.Reading?
    case Serve(_) => y.queue != []
    case Deliver(i) => i < |y.streams| && y.streams[i].phase.Waiting? && y.streams[i].phase.slot in y.slots
  }

  function Do<S, W, Q, R>(svc: Service<S, W, Q, R>, y: System<S, W, Q, R>, m: Move<W>): System<S, W, Q, R>
    requires Enabled(y, m)
  {
    match m
    case Read(i) =>
      var t := y.streams[i];
      (match svc.requests.decode(t.input)
       case Fail(_, _) => y.(streams := y.streams[i := t.(phase := Closed)])
       case Done(q, r) =>
         var k := |y.past.requests|;
         y.(queue := y.queue + [Job(q, k)],
            past := y.past.(requests := y.past.requests + [q], owners := y.past.owners + [i]),
            streams := y.streams[i := t.(input := r, phase := Waiting(k), calls := t.calls + [k])]))
    case Serve(w) =>
      var (after, r) := svc.serve(y.server, w, y.queue[0].request);
      y.(server := after, queue := y.queue[1..], slots := y.slots[y.queue[0].slot := r],
         past := y.past.(replies := y.past.replies + [r]), worlds := y.worlds + [w])
    case Deliver(i) =>
      var t := y.streams[i];
      var out := svc.replies.encode(y.slots[t.phase.slot]);
      y.(slots := y.slots - {t.phase.slot},
         streams := y.streams[i := t.(output := t.output + out.bytes, phase := if out.ok then Reading else Closed)])
  }

  function Start<S, W, Q, R>(s: S, inputs: seq<seq<byte>>): System<S, W, Q, R> {
    System(s, [], map[], seq(|inputs|, i requires 0 <= i < |inputs| => Stream(inputs[i], Reading, [], [])),
           Past([], [], []), [])
  }

  /** `ys` is a run: each state follows from the one before by a move of some task. */
  ghost predicate IsRun<S, W, Q, R>(svc: Service<S, W, Q, R>, s: S, inputs: seq<seq<byte>>,
                                    ys: seq<System<S, W, Q, R>>, moves: seq<Move<W>>)
  {
    && |ys| == |moves| + 1 && ys[0] == Start(s, inputs)
    && forall n | 0 <= n < |moves| :: Enabled(ys[n], moves[n]) && ys[n + 1] == Do(svc, ys[n], moves[n])
  }

  // ------------------------------------------------------------ what every move keeps

  /** The queue holds the calls not yet served, in order, and all others were served in the order enqueued. */
  ghost predicate QueueInv<S, W, Q, R>(svc: Service<S, W, Q, R>, s: S, y: System<S, W, Q, R>) {
    var n, p := |y.worlds|, y.past;
    && n <= |p.requests| && |p.owners| == |p.requests| && |y.queue| == |p.requests| - n
    && (forall j | 0 <= j < |y.queue| :: y.queue[j] == Job(p.requests[n + j], n + j))
    && (y.server, p.replies) == Serial(svc, s, p.requests[..n], y.worlds)
    && (forall k | k in y.slots :: k < |p.replies| && y.slots[k] == p.replies[k])
  }

  predicate Below(calls: seq<nat>, n: nat) {
    forall j | 0 <= j < |calls| :: calls[j] < n
  }

  function Pick<T>(xs: seq<T>, calls: seq<nat>): (r: seq<T>)
    requires Below(calls, |xs|)
    ensures |r| == |calls|
  {
    seq(|calls|, j requires 0 <= j < |calls| => xs[calls[j]])
  }

  /** How many of its calls a stream has seen answered. */
  function Answered(t: Stream): (n: nat)
    ensures n <= |t.calls|
  {
    if t.phase.Waiting? && t.calls != [] then |t.calls| - 1 else |t.calls|
  }

  /** A stream's calls are its own, in order and all of them. */
  ghost predicate OwnCalls(owners: seq<nat>, i: nat, calls: seq<nat>) {
    && Below(calls, |owners|)
    && (forall j | 0 <= j < |calls| :: owners[calls[j]] == i)
    && (forall j, k | 0 <= j < k < |calls| :: calls[j] < calls[k])
    && (forall k | 0 <= k < |owners| && owners[k] == i :: k in calls)
  }

  /** The calls carry the requests of the input, in order. */
  ghost predicate Sent<S, W, Q, R>(svc: Service<S, W, Q, R>, requests: seq<Q>, input: seq<byte>, t: Stream) {
    Below(t.calls, |requests|) && DecodeMany(svc.requests, input, |t.calls|) == Some((Pick(requests, t.calls), t.input))
  }

  /** A stream that waits does so for its last call, whose slot is filled once it has been served. */
  ghost predicate Awaits<R>(served: nat, slots: map<nat, R>, t: Stream) {
    t.phase.Waiting? ==>
      && t.calls != [] && t.phase.slot == t.calls[|t.calls| - 1]
      && (t.phase.slot < served ==> t.phase.slot in slots)
  }

  /** The output is the replies to the calls answered so far, in the order of the calls. */
  ghost predicate Wrote<S, W, Q, R>(svc: Service<S, W, Q, R>, replies: seq<R>, t: Stream) {
    var done := t.calls[..Answered(t)];
    Below(done, |replies|) && t.output == EncodeAll(svc.replies, Pick(replies, done))
  }

  /** A stream ends where its input holds no further request, or on a reply that cannot be written. */
  ghost predicate Ended<S, W, Q, R>(svc: Service<S, W, Q, R>, replies: seq<R>, t: Stream) {
    t.phase.Closed? ==>
      || svc.requests.decode(t.input).Fail?
      || (t.calls != [] && t.calls[|t.calls| - 1] < |replies| && !svc.replies.encode(replies[t.calls[|t.calls| - 1]]).ok)
  }

  ghost predicate StreamInv<S, W, Q, R>(svc: Service<S, W, Q, R>, p: Past<Q, R>, slots: map<nat, R>,
                                        input: seq<byte>, i: nat, t: Stream)
  {
    && OwnCalls(p.owners, i, t.calls) && Sent(svc, p.requests, input, t)
    && Awaits(|p.replies|, slots, t) && Wrote(svc, p.replies, t) && Ended(svc, p.replies, t)
  }

  ghost predicate Inv<S, W, Q, R>(svc: Service<S, W, Q, R>, s: S, inputs: seq<seq<byte>>, y: System<S, W, Q, R>) {
    && QueueInv(svc, s, y) && |y.streams| == |inputs|
    && forall i | 0 <= i < |inputs| :: StreamInv(svc, y.past, y.slots, inputs[i], i, y.streams[i])
  }

  // ------------------------------------------------------------ one part at a time

  lemma OwnGrow(owners: seq<nat>, i: nat, calls: seq<nat>, other: nat)
    requires OwnCalls(owners, i, calls)
    ensures other != i ==> OwnCalls(owners + [other], i, calls)
    ensures other == i ==> OwnCalls(owners + [i], i, calls + [|owners|])
  {
  }

  lemma SentGrow<S, W, Q, R>(svc: Service<S, W, Q, R>, requests: seq<Q>, input: seq<byte>, t: Stream, q: Q)
    requires Sent(svc, requests, input, t)
    ensures Sent(svc, requests + [q], input, t)
  {
    assert Pick(requests + [q], t.calls) == Pick(requests, t.calls);
  }

  lemma SentMore<S, W, Q, R>(svc: Service<S, W, Q, R>, requests: seq<Q>, input: seq<byte>, t: Stream,
                             q: Q, r: seq<byte>, phase: Phase)
    requires Sent(svc, requests, input, t) && svc.requests.decode(t.input) == Done(q, r)
    ensures Sent(svc, requests + [q], input, t.(input := r, phase := phase, calls := t.calls + [|requests|]))
  {
    assert Pick(requests + [q], t.calls + [|requests|]) == Pick(requests, t.calls) + [q];
  }

  lemma WroteGrow<S, W, Q, R>(svc: Service<S, W, Q, R>, replies: seq<R>, t: Stream, r: R)
    requires Wrote(svc, replies, t)
    ensures Wrote(svc, replies + [r], t)
  {
    var done := t.calls[..Answered(t)];
    assert Pick(replies + [r], done) == Pick(replies, done);
  }

  lemma WroteBeforeCall<S, W, Q, R>(svc: Service<S, W, Q, R>, replies: seq<R>, t: Stream, input: seq<byte>, k: nat)
    requires Wrote(svc, replies, t) && t.phase.Reading?
    ensures Wrote(svc, replies, t.(input := input, phase := Waiting(k), calls := t.calls + [k]))
  {
    assert (t.calls + [k])[..|t.calls|] == t.calls == t.calls[..|t.calls|];
  }

  lemma WroteMore<S, W, Q, R>(svc: Service<S, W, Q, R>, replies: seq<R>, t: Stream, output: seq<byte>, phase: Phase)
    requires Wrote(svc, replies, t) && t.phase.Waiting? && !phase.Waiting? && t.calls != []
    requires t.phase.slot == t.calls[|t.calls| - 1] < |replies|
    requires output == t.output + svc.replies.encode(replies[t.phase.slot]).bytes
    ensures Wrote(svc, replies, t.(output := output, phase := phase))
  {
    var k, n := t.phase.slot, |t.calls| - 1;
    var done := Pick(replies, t.calls[..n]);
    assert t.calls[..|t.calls|] == t.calls == t.calls[..n] + [k];
    assert Pick(replies, t.calls) == done + [replies[k]];
    EncodeSnoc(svc.replies, done, replies[k]);
  }

  // ------------------------------------------------------------------- the moves

  lemma ReadMine<S, W, Q, R>(svc: Service<S, W, Q, R>, p: Past<Q, R>, slots: map<nat, R>,
                             input: seq<byte>, i: nat, t: Stream, q: Q, r: seq<byte>)
    requires StreamInv(svc, p, slots, input, i, t) && t.phase.Reading?
    requires svc.requests.decode(t.input) == Done(q, r) && |p.requests| == |p.owners| >= |p.replies|
    ensures var k := |p.requests|;
      StreamInv(svc, p.(requests := p.requests + [q], owners := p.owners + [i]), slots, input, i,
                t.(input := r, phase := Waiting(k), calls := t.calls + [k]))
  {
    var k := |p.requests|;
    OwnGrow(p.owners, i, t.calls, i);
    SentMore(svc, p.requests, input, t, q, r, Waiting(k));
    WroteBeforeCall(svc, p.replies, t, r, k);
    assert (t.calls + [k])[|t.calls|] == k;
  }

  lemma ReadOther<S, W, Q, R>(svc: Service<S, W, Q, R>, p: Past<Q, R>, slots: map<nat, R>,
                              input: seq<byte>, j: nat, t: Stream, q: Q, i: nat)
    requires StreamInv(svc, p, slots, input, j, t) && i != j
    ensures StreamInv(svc, p.(requests := p.requests + [q], owners := p.owners + [i]), slots, input, j, t)
  {
    OwnGrow(p.owners, j, t.calls, i);
    SentGrow(svc, p.requests, input, t, q);
  }

  lemma ReadQueue<S, W, Q, R>(svc: Service<S, W, Q, R>, s: S, y: System<S, W, Q, R>, i: nat)
    requires QueueInv(svc, s, y) && Enabled(y, Read(i))
    ensures QueueInv(svc, s, Do(svc, y, Read(i)))
  {
    var z, n := Do(svc, y, Read(i)), |y.worlds|;
    assert z.past.requests[..n] == y.past.requests[..n];
  }

  lemma ReadKeeps<S, W, Q, R>(svc: Service<S, W, Q, R>, s: S, inputs: seq<seq<byte>>, y: System<S, W, Q, R>, i: nat)
    requires Inv(svc, s, inputs, y) && Enabled(y, Read(i))
    ensures Inv(svc, s, inputs, Do(svc, y, Read(i)))
  {
    var t, z, d := y.streams[i], Do(svc, y, Read(i)), svc.requests.decode(y.streams[i].input);
    ReadQueue(svc, s, y, i);
    forall j | 0 <= j < |inputs| ensures StreamInv(svc, z.past, z.slots, inputs[j], j, z.streams[j]) {
      assert StreamInv(svc, y.past, y.slots, inputs[j], j, y.streams[j]);
      if d.Done? {
        if j == i {
          ReadMine(svc, y.past, y.slots, inputs[i], i, t, d.value, d.rest);
        } else {
          ReadOther(svc, y.past, y.slots, inputs[j], j, y.streams[j], d.value, i);
        }
      }
    }
  }

  lemma ServeQueue<S, W, Q, R>(svc: Service<S, W, Q, R>, s: S, y: System<S, W, Q, R>, w: W)
    requires QueueInv(svc, s, y) && y.queue != []
    ensures QueueInv(svc, s, Do(svc, y, Serve(w)))
    ensures y.queue[0].slot == |y.worlds| == |y.past.replies|
  {
    var z, n := Do(svc, y, Serve(w)), |y.worlds|;
    var qs := y.past.requests;
    assert y.queue[0] == Job(qs[n], n);
    assert qs[..n + 1][..n] == qs[..n] && z.worlds[..n] == y.worlds;
    assert qs[..n + 1][n] == qs[n] && z.worlds[n] == w;
    forall j | 0 <= j < |z.queue| ensures z.queue[j] == Job(qs[n + 1 + j], n + 1 + j) {
      assert z.queue[j] == y.queue[j + 1];
    }
  }

  lemma ServeKeeps<S, W, Q, R>(svc: Service<S, W, Q, R>, s: S, inputs: seq<seq<byte>>, y: System<S, W, Q, R>, w: W)
    requires Inv(svc, s, inputs, y) && Enabled(y, Serve(w))
    ensures Inv(svc, s, inputs, Do(svc, y, Serve(w)))
  {
    var z, n := Do(svc, y, Serve(w)), |y.worlds|;
    ServeQueue(svc, s, y, w);
    forall j | 0 <= j < |inputs| ensures StreamInv(svc, z.past, z.slots, inputs[j], j, z.streams[j]) {
      assert StreamInv(svc, y.past, y.slots, inputs[j], j, y.streams[j]);
      WroteGrow(svc, y.past.replies, y.streams[j], z.past.replies[n]);
    }
  }

  lemma DeliverMine<S, W, Q, R>(svc: Service<S, W, Q, R>, p: Past<Q, R>, slots: map<nat, R>,
                                input: seq<byte>, i: nat, t: Stream, output: seq<byte>, phase: Phase)
    requires StreamInv(svc, p, slots, input, i, t) && t.phase.Waiting? && !phase.Waiting?
    requires t.phase.slot < |p.replies| && output == t.output + svc.replies.encode(p.replies[t.phase.slot]).bytes
    requires phase.Closed? ==> !svc.replies.encode(p.replies[t.phase.slot]).ok
    ensures StreamInv(svc, p, slots - {t.phase.slot}, input, i, t.(output := output, phase := phase))
  {
    WroteMore(svc, p.replies, t, output, phase);
  }

  lemma DeliverOther<S, W, Q, R>(svc: Service<S, W, Q, R>, p: Past<Q, R>, slots: map<nat, R>,
                                 input: seq<byte>, j: nat, t: Stream, k: nat)
    requires StreamInv(svc, p, slots, input, j, t) && k < |p.owners| && p.owners[k] != j
    ensures StreamInv(svc, p, slots - {k}, input, j, t)
  {
  }

  lemma DeliverKeeps<S, W, Q, R>(svc: Service<S, W, Q, R>, s: S, inputs: seq<seq<byte>>, y: System<S, W, Q, R>, i: nat)
    requires Inv(svc, s, inputs, y) && Enabled(y, Deliver(i))
    ensures Inv(svc, s, inputs, Do(svc, y, Deliver(i)))
  {
    var t, z := y.streams[i], Do(svc, y, Deliver(i));
    var k := t.phase.slot;
    assert StreamInv(svc, y.past, y.slots, inputs[i], i, t);
    assert y.past.owners[k] == i;
    forall j | 0 <= j < |inputs| ensures StreamInv(svc, z.past, z.slots, inputs[j], j, z.streams[j]) {
      assert StreamInv(svc, y.past, y.slots, inputs[j], j, y.streams[j]);
      if j == i {
        DeliverMine(svc, y.past, y.slots, inputs[i], i, t, z.streams[i].output, z.streams[i].phase);
      } else {
        DeliverOther(svc, y.past, y.slots, inputs[j], j, y.streams[j], k);
      }
    }
  }

  lemma StartInv<S, W, Q, R>(svc: Service<S, W, Q, R>, s: S, inputs: seq<seq<byte>>)
    ensures Inv(svc, s, inputs, Start(s, inputs))
  {
  }

  /** Whatever the interleaving, the invariant holds in every state of a run. */
  lemma {:induction false} RunKeeps<S, W, Q, R>(svc: Service<S, W, Q, R>, s: S, inputs: seq<seq<byte>>,
                                                ys: seq<System<S, W, Q, R>>, moves: seq<Move<W>>, n: nat)
    requires IsRun(svc, s, inputs, ys, moves) && n < |ys|
    ensures Inv(svc, s, inputs, ys[n])
  {
    if n == 0 {
      StartInv(svc, s, inputs);
    } else {
      RunKeeps(svc, s, inputs, ys, moves, n - 1);
      assert Enabled(ys[n - 1], moves[n - 1]);
      match moves[n - 1] {
        case Read(i) => ReadKeeps(svc, s, inputs, ys[n - 1], i);
        case Serve(w) => ServeKeeps(svc, s, inputs, ys[n - 1], w);
        case Deliver(i) => DeliverKeeps(svc, s, inputs, ys[n - 1], i);
      }
    }
  }

  /**
   * In every interleaving: the replies are those of serving all requests one at a time in the order enqueued;
   * each stream's calls are the requests of its own input, in order, each made once; and what it has written is
   * the replies to its own answered calls, in the order of the calls.
   */
  lemma Linearizable<S, W, Q, R>(svc: Service<S, W, Q, R>, s: S, inputs: seq<seq<byte>>,
                                 ys: seq<System<S, W, Q, R>>, moves: seq<Move<W>>, n: nat, i: nat)
    requires IsRun(svc, s, inputs, ys, moves) && n < |ys| && i < |inputs|
    ensures var y := ys[n];
      && |y.worlds| <= |y.past.requests| && i < |y.streams|
      && (y.server, y.past.replies) == Serial(svc, s, y.past.requests[..|y.worlds|], y.worlds)
      && var t := y.streams[i];
         && OwnCalls(y.past.owners, i, t.calls) && Sent(svc, y.past.requests, inputs[i], t)
         && Wrote(svc, y.past.replies, t) && Ended(svc, y.past.replies, t)
  {
    RunKeeps(svc, s, inputs, ys, moves, n);
  }

  // ------------------------------------------------------------------- progress

  /** As long as some stream is not closed, some task can move. */
  lemma NoDeadlock<S, W, Q, R>(svc: Service<S, W, Q, R>, s: S, inputs: seq<seq<byte>>,
                               ys: seq<System<S, W, Q, R>>, moves: seq<Move<W>>, i: nat, w: W) returns (m: Move<W>)
    requires IsRun(svc, s, inputs, ys, moves) && i < |inputs|
    requires i < |ys[|moves|].streams| && !ys[|moves|].streams[i].phase.Closed?
    ensures Enabled(ys[|moves|], m)
  {
    var y := ys[|moves|];
    RunKeeps(svc, s, inputs, ys, moves, |moves|);
    assert StreamInv(svc, y.past, y.slots, inputs[i], i, y.streams[i]);
    match y.streams[i].phase
    case Reading => m := Read(i);
    case Waiting(k) => m := if k in y.slots then Deliver(i) else Serve(w);
    case Closed =>
  }

  /** When no task can move any more, every call has been answered and every stream has all its replies. */
  lemma Complete<S, W, Q, R>(svc: Service<S, W, Q, R>, s: S, inputs: seq<seq<byte>>,
                             ys: seq<System<S, W, Q, R>>, moves: seq<Move<W>>, i: nat, w: W)
    requires IsRun(svc, s, inputs, ys, moves) && i < |inputs|
    requires forall m :: !Enabled(ys[|moves|], m)
    ensures var y := ys[|moves|];
      && |y.past.replies| == |y.past.requests| && i < |y.streams|
      && var t := y.streams[i];
         && t.phase.Closed? && Below(t.calls, |y.past.replies|)
         && t.output == EncodeAll(svc.replies, Pick(y.past.replies, t.calls))
  {
    var y := ys[|moves|];
    RunKeeps(svc, s, inputs, ys, moves, |moves|);
    assert StreamInv(svc, y.past, y.slots, inputs[i], i, y.streams[i]);
    assert !Enabled(y, Serve(w)) && !Enabled(y, Read(i)) && !Enabled(y, Deliver(i));
    var calls := y.streams[i].calls;
    assert calls[..|calls|] == calls;
  }

  function Weight(t: Stream): nat {
    3 * |t.input| + match t.phase case Reading => 1 case Waiting(_) => 2 case Closed => 0
  }

  function Weights(ts: seq<Stream>): nat {
    if ts == [] then 0 else Weight(ts[0]) + Weights(ts[1..])
  }

  lemma {:induction false} WeightsUpdate(ts: seq<Stream>, i: nat, t: Stream)
    requires i < |ts|
    ensures Weights(ts[i := t]) == Weights(ts) - Weight(ts[i]) + Weight(t)
  {
    if i == 0 {
      assert ts[i := t][1..] == ts[1..];
    } else {
      assert ts[i := t][1..] == ts[1..][i - 1 := t];
      WeightsUpdate(ts[1..], i - 1, t);
    }
  }

  function Left<S, W, Q, R>(y: System<S, W, Q, R>): nat {
    Weights(y.streams) + |y.queue|
  }

  lemma MoveUses<S, W, Q, R>(svc: Service<S, W, Q, R>, y: System<S, W, Q, R>, m: Move<W>)
    requires Consuming(svc.requests) && Enabled(y, m)
    ensures Left(Do(svc, y, m)) < Left(y)
  {
    var z := Do(svc, y, m);
    match m
    case Read(i) => WeightsUpdate(y.streams, i, z.streams[i]);
    case Serve(_) =>
    case Deliver(i) => WeightsUpdate(y.streams, i, z.streams[i]);
  }

  /** No run goes on for ever: its length is bounded by the input. */
  lemma {:induction false} RunsEnd<S, W, Q, R>(svc: Service<S, W, Q, R>, s: S, inputs: seq<seq<byte>>,
                                               ys: seq<System<S, W, Q, R>>, moves: seq<Move<W>>, n: nat)
    requires IsRun(svc, s, inputs, ys, moves) && Consuming(svc.requests) && n <= |moves|
    ensures n + Left(ys[n]) <= Left(ys[0])
  {
    if n > 0 {
      RunsEnd(svc, s, inputs, ys, moves, n - 1);
      MoveUses(svc, ys[n - 1], moves[n - 1]);
    }
  }

  // ------------------------------------------------------ where requests come from

  ghost predicate FromInput<S, W, Q, R>(svc: Service<S, W, Q, R>, q: Q) {
    exists b :: svc.requests.decode(b).Done? && svc.requests.decode(b).value == q
  }

  lemma {:induction false} RequestsDecoded<S, W, Q, R>(svc: Service<S, W, Q, R>, s: S, inputs: seq<seq<byte>>,
                                                       ys: seq<System<S, W, Q, R>>, moves: seq<Move<W>>, n: nat)
    requires IsRun(svc, s, inputs, ys, moves) && n < |ys|
    ensures forall k | 0 <= k < |ys[n].past.requests| :: FromInput(svc, ys[n].past.requests[k])
  {
    if n > 0 {
      RequestsDecoded(svc, s, inputs, ys, moves, n - 1);
      var y, z := ys[n - 1], ys[n];
      assert Enabled(y, moves[n - 1]) && z == Do(svc, y, moves[n - 1]);
      match moves[n - 1]
      case Read(i) =>
        var d := svc.requests.decode(y.streams[i].input);
        if d.Done? { assert FromInput(svc, d.value); }
      case _ =>
    }
  }
}
