/** The file server behind its request queue, shared by any number of streams. */
module UfsActor {
  import opened Bytes
  import opened WireFormat
  import opened Messages
  import opened Streams
  import opened FrameWires
  import opened Ufs
  import opened UfsRuns
  import opened UfsSizes
  import opened UfsServer
  import Actor

  /** `handle`, made total: decoding yields only known requests, and the message size is never too small. */
  function ServeFrame(cfg: Config, st: State, w: World, f: Tframe): (State, Rframe) {
    if st.msize >= DATA_HEADER && Known(f) then Handle(cfg, w, st, f) else (st, Rframe(f.tag, Lerror(EBADF)))
  }

  type UfsService = Actor.Service<State, World, Tframe, Rframe>
  type UfsTurn = Actor.Turn<State, World, Tframe, Rframe>

  function Shared(cfg: Config): UfsService {
    Actor.Service(T_WIRE, R_WIRE, (st, w, f) => ServeFrame(cfg, st, w, f))
  }

  /** A service that is the file server over the T and R frame formats. */
  ghost predicate IsUfs(svc: UfsService, cfg: Config) {
    && IsT(svc.requests) && IsR(svc.replies)
    && (forall st, w, f {:trigger ServeFrame(cfg, st, w, f)} :: svc.serve(st, w, f) == ServeFrame(cfg, st, w, f))
  }

  lemma SharedIsUfs(cfg: Config)
    ensures IsUfs(Shared(cfg), cfg)
  {
  }

  // --------------------------------------------------------- one request at a time

  predicate AllKnown(frames: seq<Tframe>) {
    forall k | 0 <= k < |frames| :: Known(frames[k])
  }

  function ToStep(t: UfsTurn): Step {
    Step(t.before, t.request, t.world, t.reply, t.after)
  }

  function ToSteps(ts: seq<UfsTurn>): (r: seq<Step>)
    ensures |r| == |ts|
  {
    seq(|ts|, k requires 0 <= k < |ts| => ToStep(ts[k]))
  }

  lemma TurnServes(svc: UfsService, cfg: Config, t: UfsTurn)
    requires IsUfs(svc, cfg) && svc.serve(t.before, t.world, t.request) == (t.after, t.reply)
    requires t.before.msize >= DATA_HEADER && Known(t.request)
    ensures Serves(cfg, ToStep(t)) && t.after.msize >= DATA_HEADER
  {
    assert svc.serve(t.before, t.world, t.request) == ServeFrame(cfg, t.before, t.world, t.request);
  }

  lemma {:induction false} TurnsServe(svc: UfsService, cfg: Config, st: State, ts: seq<UfsTurn>, n: nat)
    requires IsUfs(svc, cfg) && Actor.Linked(svc, st, ts) && st.msize >= DATA_HEADER && n <= |ts|
    requires forall k | 0 <= k < |ts| :: Known(ts[k].request)
    ensures forall k | 0 <= k < n :: Serves(cfg, ToStep(ts[k])) && ts[k].after.msize >= DATA_HEADER
  {
    if n > 0 {
      TurnsServe(svc, cfg, st, ts, n - 1);
      var t := ts[n - 1];
      assert t.before == Actor.StateAfter(st, ts, n - 1);
      TurnServes(svc, cfg, t);
    }
  }

  lemma StepsServe(svc: UfsService, cfg: Config, st: State, ts: seq<UfsTurn>)
    requires IsUfs(svc, cfg) && Actor.Linked(svc, st, ts) && st.msize >= DATA_HEADER
    requires forall k | 0 <= k < |ts| :: Known(ts[k].request)
    ensures forall k | 0 <= k < |ts| :: Serves(cfg, ToSteps(ts)[k])
  {
    TurnsServe(svc, cfg, st, ts, |ts|);
    forall k | 0 <= k < |ts| ensures Serves(cfg, ToSteps(ts)[k]) {
      assert ToSteps(ts)[k] == ToStep(ts[k]);
    }
  }

  lemma StepsLinked(st: State, ts: seq<UfsTurn>)
    requires forall k | 0 <= k < |ts| :: ts[k].before == Actor.StateAfter(st, ts, k)
    ensures forall k | 0 <= k < |ts| :: ToSteps(ts)[k].before == StateAt(st, ToSteps(ts), k)
    ensures StateAt(st, ToSteps(ts), |ts|) == Actor.StateAfter(st, ts, |ts|)
  {
    var steps := ToSteps(ts);
    forall k | 0 <= k < |ts| ensures steps[k].before == StateAt(st, steps, k) {
      assert ts[k].before == Actor.StateAfter(st, ts, k);
      assert k > 0 ==> steps[k - 1] == ToStep(ts[k - 1]);
    }
  }

  /** The sequential specification of the queue is a run of the server, request by request. */
  lemma SerialIsRun(svc: UfsService, cfg: Config, st: State, frames: seq<Tframe>, worlds: seq<World>)
    requires IsUfs(svc, cfg) && |frames| == |worlds| && AllKnown(frames) && st.msize >= DATA_HEADER
    ensures var (after, replies) := Actor.Serial(svc, st, frames, worlds);
      var steps := ToSteps(Actor.Turns(svc, st, frames, worlds));
      && Run(cfg, st, steps) && StateAt(st, steps, |steps|) == after
      && forall k | 0 <= k < |steps| ::
        steps[k].frame == frames[k] && steps[k].world == worlds[k] && steps[k].reply == replies[k]
  {
    var ts := Actor.Turns(svc, st, frames, worlds);
    Actor.TurnsLinked(svc, st, frames, worlds);
    forall k | 0 <= k < |ts| ensures Known(ts[k].request) {
      assert ts[k].request == frames[k];
    }
    StepsServe(svc, cfg, st, ts);
    StepsLinked(st, ts);
  }

  // --------------------------------------------------------------- all interleavings

  type UfsSystem = Actor.System<State, World, Tframe, Rframe>
  type UfsMove = Actor.Move<World>

  lemma DecodedFrame(svc: UfsService, cfg: Config, f: Tframe)
    requires IsUfs(svc, cfg) && Actor.FromInput(svc, f)
    ensures Known(f) && (f.msg.Ok? ==> SendableT(f))
  {
    var b :| svc.requests.decode(b).Done? && svc.requests.decode(b).value == f;
    assert svc.requests.decode(b) == DecodeT(b);
    DecodedKnown(b);
    DecodeTCanonical(b);
  }

  lemma DecodedFrames(svc: UfsService, cfg: Config, frames: seq<Tframe>)
    requires IsUfs(svc, cfg) && forall k | 0 <= k < |frames| :: Actor.FromInput(svc, frames[k])
    ensures AllKnown(frames)
  {
    forall k | 0 <= k < |frames| ensures Known(frames[k]) {
      DecodedFrame(svc, cfg, frames[k]);
    }
  }

  /** Every state of a concurrent run has been reached by a sequential run of the server, with the same replies. */
  lemma ConcurrentIsSequential(svc: UfsService, cfg: Config, st: State, inputs: seq<seq<byte>>,
                               ys: seq<UfsSystem>, moves: seq<UfsMove>, n: nat) returns (steps: seq<Step>)
    requires IsUfs(svc, cfg) && st.msize >= DATA_HEADER
    requires Actor.IsRun(svc, st, inputs, ys, moves) && n < |ys|
    ensures var y := ys[n];
      && Run(cfg, st, steps) && StateAt(st, steps, |steps|) == y.server
      && |steps| == |y.past.replies| <= |y.past.requests|
      && forall k | 0 <= k < |steps| ::
        && steps[k].frame == y.past.requests[k] && steps[k].world in y.worlds && steps[k].reply == y.past.replies[k]
        && Actor.FromInput(svc, steps[k].frame)
  {
    var y := ys[n];
    Actor.RunKeeps(svc, st, inputs, ys, moves, n);
    Actor.RequestsDecoded(svc, st, inputs, ys, moves, n);
    var frames := y.past.requests[..|y.worlds|];
    DecodedFrames(svc, cfg, frames);
    SerialIsRun(svc, cfg, st, frames, y.worlds);
    steps := ToSteps(Actor.Turns(svc, st, frames, y.worlds));
  }

  lemma StepEncodable(svc: UfsService, cfg: Config, st: State, steps: seq<Step>, k: nat)
    requires IsUfs(svc, cfg) && Run(cfg, st, steps) && st.msize >= MIN_MESSAGE_SIZE && k < |steps|
    requires Lawful(steps[k].world) && Actor.FromInput(svc, steps[k].frame)
    ensures svc.replies.encode(steps[k].reply).ok && OnWire(steps[k].reply.msg)
  {
    var s := steps[k];
    assert Serves(cfg, s) && s.before == StateAt(st, steps, k);
    MsizeOverRun(cfg, st, steps, k);
    DecodedFrame(svc, cfg, s.frame);
    ReplyEncodable(cfg, s.world, s.before, s.frame);
    ReadsBackR(s.reply, []);
    assert svc.replies.encode(s.reply) == EncodeR(s.reply);
  }

  /** The size rule for a reply; the limit of an Rgetlock is its request where that is longer. */
  ghost predicate StepSized(s: Step) {
    && (s.frame.msg.Ok? ==> SendableT(s.frame))
    && SizeRule(s.reply.msg, if s.frame.msg.Ok? then Limit(s.after.msize, s.frame.msg.m) else s.after.msize)
  }

  lemma StepIsSized(svc: UfsService, cfg: Config, st: State, steps: seq<Step>, k: nat)
    requires IsUfs(svc, cfg) && Run(cfg, st, steps) && st.msize >= MIN_MESSAGE_SIZE && k < |steps|
    requires Lawful(steps[k].world) && Actor.FromInput(svc, steps[k].frame)
    ensures StepSized(steps[k]) && steps[k].after.msize <= st.msize
  {
    var s := steps[k];
    assert Serves(cfg, s) && s.before == StateAt(st, steps, k);
    MsizeOverRun(cfg, st, steps, k);
    MsizeOverRun(cfg, st, steps, k + 1);
    DecodedFrame(svc, cfg, s.frame);
    ReplyBound(cfg, s.world, s.before, s.frame);
  }

  /**
   * In every state of a concurrent run, each reply keeps to the size rule for the message size in force when it
   * was made; requests are not limited to it, so an Rgetlock is limited by its own request instead.
   */
  lemma SharedSizes(svc: UfsService, cfg: Config, st: State, inputs: seq<seq<byte>>,
                    ys: seq<UfsSystem>, moves: seq<UfsMove>, n: nat) returns (steps: seq<Step>)
    requires IsUfs(svc, cfg) && st.msize >= MIN_MESSAGE_SIZE
    requires Actor.IsRun(svc, st, inputs, ys, moves) && n < |ys| && forall v | v in ys[n].worlds :: Lawful(v)
    ensures Run(cfg, st, steps) && |steps| == |ys[n].past.replies|
    ensures forall k | 0 <= k < |steps| ::
      steps[k].reply == ys[n].past.replies[k] && StepSized(steps[k]) && steps[k].after.msize <= st.msize
  {
    steps := ConcurrentIsSequential(svc, cfg, st, inputs, ys, moves, n);
    forall k | 0 <= k < |steps| ensures StepSized(steps[k]) && steps[k].after.msize <= st.msize {
      StepIsSized(svc, cfg, st, steps, k);
    }
  }

  /**
   * Once nothing can move any more, every stream has read its input up to where it holds no further frame, and
   * has been sent the encodings of the replies to all of those frames, in order.
   */
  lemma StreamsComplete(svc: UfsService, cfg: Config, st: State, inputs: seq<seq<byte>>,
                        ys: seq<UfsSystem>, moves: seq<UfsMove>, i: nat, w: World)
    requires IsUfs(svc, cfg) && st.msize >= MIN_MESSAGE_SIZE && i < |inputs|
    requires Actor.IsRun(svc, st, inputs, ys, moves) && forall m :: !Actor.Enabled(ys[|moves|], m)
    requires forall v | v in ys[|moves|].worlds :: Lawful(v)
    ensures var y := ys[|moves|];
      && i < |y.streams|
      && var t := y.streams[i];
         && svc.requests.decode(t.input).Fail? && Actor.Sent(svc, y.past.requests, inputs[i], t)
         && Actor.Below(t.calls, |y.past.replies|)
         && t.output == EncodeAll(svc.replies, Actor.Pick(y.past.replies, t.calls))
  {
    var y := ys[|moves|];
    Actor.Complete(svc, st, inputs, ys, moves, i, w);
    Actor.Linearizable(svc, st, inputs, ys, moves, |moves|, i);
    var t := y.streams[i];
    if svc.requests.decode(t.input).Done? {
      ReplyEncodes(svc, cfg, st, inputs, ys, moves, t.calls[|t.calls| - 1]);
      assert false;
    }
  }

  lemma ReplyEncodes(svc: UfsService, cfg: Config, st: State, inputs: seq<seq<byte>>,
                     ys: seq<UfsSystem>, moves: seq<UfsMove>, k: nat)
    requires IsUfs(svc, cfg) && st.msize >= MIN_MESSAGE_SIZE && Actor.IsRun(svc, st, inputs, ys, moves)
    requires k < |ys[|moves|].past.replies| && forall v | v in ys[|moves|].worlds :: Lawful(v)
    ensures svc.replies.encode(ys[|moves|].past.replies[k]).ok && OnWire(ys[|moves|].past.replies[k].msg)
  {
    var steps := ConcurrentIsSequential(svc, cfg, st, inputs, ys, moves, |moves|);
    StepEncodable(svc, cfg, st, steps, k);
  }

  /** Replies that carry at most 32 MiB of data. */
  predicate Small(rs: seq<Rframe>) {
    forall j | 0 <= j < |rs| :: |DataAt(rs[j].msg, 0)| <= MAX_DATA_LENGTH
  }

  lemma SmallFaithful(w: Wire<Rframe>, rs: seq<Rframe>)
    requires IsR(w) && Small(rs) && forall j | 0 <= j < |rs| :: OnWire(rs[j].msg)
    ensures DecodeMany(w, EncodeAll(w, rs), |rs|) == Some((rs, []))
  {
    forall j | 0 <= j < |rs| ensures SendableR(rs[j]) { assert OnWire(rs[j].msg); }
    RepliesFaithful(w, rs);
    DecodeEncoded(w, rs, |rs|);
    assert rs[..|rs|] == rs && rs[|rs|..] == [];
  }

  /**
   * The server as it is shared: once nothing can move, every stream has had all frames of its input answered, in
   * order, and a client that decodes what it was sent gets exactly those replies, as long as none of them carries
   * more than 32 MiB of data.
   */
  lemma SharedComplete(cfg: Config, st: State, inputs: seq<seq<byte>>,
                       ys: seq<UfsSystem>, moves: seq<UfsMove>, i: nat, w: World)
    requires st.msize >= MIN_MESSAGE_SIZE && i < |inputs|
    requires Actor.IsRun(Shared(cfg), st, inputs, ys, moves) && forall m :: !Actor.Enabled(ys[|moves|], m)
    requires forall v | v in ys[|moves|].worlds :: Lawful(v)
    ensures var y := ys[|moves|];
      && i < |y.streams|
      && var t := y.streams[i];
         && DecodeT(t.input).Fail? && Actor.Below(t.calls, |y.past.requests|) && Actor.Below(t.calls, |y.past.replies|)
         && DecodeMany(T_WIRE, inputs[i], |t.calls|) == Some((Actor.Pick(y.past.requests, t.calls), t.input))
         && t.output == EncodeAll(R_WIRE, Actor.Pick(y.past.replies, t.calls))
         && (Small(Actor.Pick(y.past.replies, t.calls)) ==>
               DecodeMany(R_WIRE, t.output, |t.calls|) == Some((Actor.Pick(y.past.replies, t.calls), [])))
  {
    var svc := Shared(cfg);
    SharedIsUfs(cfg);
    StreamsComplete(svc, cfg, st, inputs, ys, moves, i, w);
    var y := ys[|moves|];
    var rs := Actor.Pick(y.past.replies, y.streams[i].calls);
    forall j | 0 <= j < |rs| ensures OnWire(rs[j].msg) {
      ReplyEncodes(svc, cfg, st, inputs, ys, moves, y.streams[i].calls[j]);
    }
    if Small(rs) { SmallFaithful(R_WIRE, rs); }
  }

  // ------------------------------------------------------------------- the queue task

  type UfsJob = Actor.Job<Tframe>

  /** `Ufs`: the server, its request channel and the one-shot slots handed to callers. */
  class Queue {
    const server: Server
    var jobs: seq<UfsJob>
    var slots: map<nat, Rframe>
    var next: nat // the next fresh slot

    constructor (server: Server)
      ensures this.server == server && jobs == [] && slots == map[] && next == 0
    {
      this.server := server;
      jobs, slots, next := [], map[], 0;
    }

    /** `Handler::call`, up to the wait for the reply. */
    method Call(f: Tframe) returns (slot: nat)
      modifies this
      ensures slot == old(next) && next == old(next) + 1 && slots == old(slots)
      ensures jobs == old(jobs) + [Actor.Job(f, slot)]
    {
      slot := next;
      jobs := jobs + [Actor.Job(f, slot)];
      next := next + 1;
    }

    /** One turn of `Ufs::run`: the oldest request is served and its slot filled. */
    method ServeNext(w: World) returns (r: Rframe)
      requires server.msize >= DATA_HEADER && jobs != [] && Known(jobs[0].request)
      modifies this, server
      ensures server.msize >= DATA_HEADER && jobs == old(jobs)[1..] && next == old(next)
      ensures (server.Now(), r) == ServeFrame(server.cfg, old(server.Now()), w, old(jobs)[0].request)
      ensures slots == old(slots)[old(jobs)[0].slot := r]
    {
      var job := jobs[0];
      jobs := jobs[1..];
      r := server.HandleFrame(w, job.request);
      slots := slots[job.slot := r];
    }

    /** `Ufs::run` until the channel is empty: the sequential specification, and every slot its own reply. */
    method Drain(worlds: seq<World>) returns (replies: seq<Rframe>)
      requires server.msize >= DATA_HEADER && AllKnown(Requests(jobs)) && |worlds| == |jobs| && DistinctSlots(jobs)
      modifies this, server
      ensures server.msize >= DATA_HEADER && jobs == [] && next == old(next)
      ensures (server.Now(), replies) == Actor.Serial(Shared(server.cfg), old(server.Now()), Requests(old(jobs)), worlds)
      ensures forall j | 0 <= j < |replies| :: old(jobs)[j].slot in slots && slots[old(jobs)[j].slot] == replies[j]
      ensures forall k | k in old(slots) && (forall j | 0 <= j < |replies| :: old(jobs)[j].slot != k) ::
        k in slots && slots[k] == old(slots)[k]
    {
      ghost var all, st := jobs, server.Now();
      replies := [];
      var i := 0;
      while i < |worlds|
        invariant 0 <= i <= |worlds| == |all| && jobs == all[i..] && |replies| == i && next == old(next)
        invariant server.msize >= DATA_HEADER
        invariant (server.Now(), replies) == Actor.Serial(Shared(server.cfg), st, Requests(all)[..i], worlds[..i])
        invariant forall j | 0 <= j < i :: all[j].slot in slots && slots[all[j].slot] == replies[j]
        invariant forall k | k in old(slots) && (forall j | 0 <= j < i :: all[j].slot != k) ::
          k in slots && slots[k] == old(slots)[k]
      {
        SerialMore(server.cfg, st, Requests(all), worlds, i);
        assert Requests(all)[i] == all[i].request;
        var r := ServeNext(worlds[i]);
        replies := replies + [r];
        i := i + 1;
      }
      assert Requests(all)[..i] == Requests(all) && worlds[..i] == worlds;
    }
  }

  function Requests(jobs: seq<UfsJob>): (r: seq<Tframe>)
    ensures |r| == |jobs|
  {
    seq(|jobs|, j requires 0 <= j < |jobs| => jobs[j].request)
  }

  predicate DistinctSlots(jobs: seq<UfsJob>) {
    forall i, j | 0 <= i < j < |jobs| :: jobs[i].slot != jobs[j].slot
  }

  lemma SerialMore(cfg: Config, st: State, frames: seq<Tframe>, worlds: seq<World>, i: nat)
    requires i < |frames| == |worlds|
    ensures var (before, replies) := Actor.Serial(Shared(cfg), st, frames[..i], worlds[..i]);
      var (after, reply) := ServeFrame(cfg, before, worlds[i], frames[i]);
      Actor.Serial(Shared(cfg), st, frames[..i + 1], worlds[..i + 1]) == (after, replies + [reply])
  {
    assert frames[..i + 1][..i] == frames[..i] && worlds[..i + 1][..i] == worlds[..i];
    assert frames[..i + 1][i] == frames[i] && worlds[..i + 1][i] == worlds[i];
  }
}
