/** What every run of the file server keeps: which fids are bound, which are open, and the message size. */
module UfsRuns {
  import opened Bytes
  import opened WireFormat
  import opened Messages
  import opened ReadDirs
  import opened Ufs

  // ---------------------------------------------------------- single requests

  /** What a client sees of a request that binds `fid`: Rattach, or an Rwalk with a qid for every name. */
  predicate Binds(f: Tframe, r: Rframe, fid: u32) {
    f.msg.Ok? &&
    var m := f.msg.m;
    || (m.ty == TATTACH && r.msg.ty == TATTACH + 1 && FidAt(m, 0) == fid)
    || (m.ty == TWALK && r.msg.ty == TWALK + 1 && FidAt(m, 1) == fid && |NamesAt(r.msg, 0)| == |NamesAt(m, 2)|)
  }

  /** An accepted Tversion or a successful Tclunk. */
  predicate Unbinds(f: Tframe, r: Rframe, fid: u32) {
    f.msg.Ok? &&
    var m := f.msg.m;
    || (m.ty == TVERSION && r.msg.ty == TVERSION + 1)
    || (m.ty == TCLUNK && r.msg.ty == TCLUNK + 1 && FidAt(m, 0) == fid)
  }

  /** A successful Tlopen, or a Tlcreate that got as far as storing its file. */
  predicate Opens(w: World, st: State, f: Tframe, r: Rframe, fid: u32) {
    f.msg.Ok? && FidAt(f.msg.m, 0) == fid &&
    var m := f.msg.m;
    (m.ty == TLOPEN && r.msg.ty == TLOPEN + 1) || (m.ty == TLCREATE && Created(w, st, m).Good?)
  }

  predicate IsOpen(st: State, fid: u32) {
    fid in st.fids && st.fids[fid].file.Some?
  }

  /** A walk ends well exactly when every name gave a qid. */
  lemma {:induction false} ResolveComplete(cfg: Config, w: World, node: Node, names: seq<Value>)
    ensures var r := Resolve(cfg, w, node, names);
            |r.stats| <= |names| && (r.end.Good? <==> |r.stats| == |names|)
    decreases |names|
  {
    if names != [] {
      var next := LookupName(cfg, w, node, NameOf(names[0]));
      if next.Good? && w.stat(next.value).Good? {
        ResolveComplete(cfg, w, next.value, names[1..]);
      }
    }
  }

  lemma WalkEffect(cfg: Config, w: World, st: State, m: Message, fid: u32)
    ensures var (after, a) := Walk(cfg, w, st, m);
            && after.msize == st.msize
            && (a.Good? ==> a.value.ty == TWALK + 1)
            && (if a.Good? && FidAt(m, 1) == fid && |NamesAt(a.value, 0)| == |NamesAt(m, 2)|
                then fid in after.fids && after.fids[fid].file.None?
                else (fid in after.fids <==> fid in st.fids) && (fid in st.fids ==> after.fids[fid] == st.fids[fid]))
  {
    if FidAt(m, 0) in st.fids {
      ResolveComplete(cfg, w, st.fids[FidAt(m, 0)].path, NamesAt(m, 2));
    }
  }

  /** Which requests may change the state. */
  predicate Changes(ty: u8) {
    ty == TVERSION || ty == TATTACH || ty == TWALK || ty == TCLUNK || ty == TLOPEN || ty == TLCREATE
  }

  lemma AnsweredTypes(cfg: Config, w: World, st: State, m: Message)
    requires st.msize >= DATA_HEADER && m.ty < 255
    ensures var (after, a) := Answered(cfg, w, st, m);
            && (a.Good? ==> a.value.ty == m.ty + 1)
            && (a.Errno? && m.ty != TLCREATE ==> after == st)
            && (a.Errno? && m.ty == TLCREATE ==> (after == st <==> Created(w, st, m).Errno?))
            && (!Changes(m.ty) ==> after == st)
  {
    if m.ty == TWALK { WalkEffect(cfg, w, st, m, 0); }
    if m.ty == TLCREATE { LcreateChanges(w, st, m); }
  }

  lemma LcreateChanges(w: World, st: State, m: Message)
    ensures var (after, a) := Lcreate(w, st, m);
            && (a.Good? ==> a.value.ty == TLCREATE + 1 && Created(w, st, m).Good?)
            && (after == st <==> Created(w, st, m).Errno?)
  {
  }

  /**
   * The reply keeps the tag, and its type is the request's plus one or RLERROR; an error leaves the state
   * alone, save that a Tlcreate whose file was stored has changed its fid.
   */
  lemma ReplyMatches(cfg: Config, w: World, st: State, f: Tframe)
    requires st.msize >= DATA_HEADER && Known(f)
    ensures var (after, r) := Handle(cfg, w, st, f);
            && r.tag == f.tag
            && (r.msg.ty != RLERROR ==> f.msg.Ok? && r.msg.ty == f.msg.m.ty + 1)
            && (r.msg.ty == RLERROR ==>
                  (after == st <==> !(f.msg.Ok? && f.msg.m.ty == TLCREATE && Created(w, st, f.msg.m).Good?)))
  {
    if f.msg.Ok? { AnsweredTypes(cfg, w, st, f.msg.m); }
  }

  /** A kernel in which every name leads back to the same directory. */
  function Loop(): World {
    var s := Stat(0x4000, 1, 0, 0, 1, 0, 0, 0, 0, 0, 0, 0, 0, 0, 0);
    World(Good(0), _ => Good(s), _ => Good(s), (_, _) => Good(s), _ => Errno(ENOENT), (_, _) => Good(0), _ => Good(0),
          (_, _) => Good(0), (_, _, _, _) => Good(0), _ => Dir([], _ => 0, _ => None, _ => Good(0)),
          (_, _, _) => Good([]), (_, _, _) => Good(0), _ => Good([]), _ => None)
  }

  /** An error leaves the state alone. */
  ghost predicate LcreateKeeps(w: World, st: State, m: Message) {
    Lcreate(w, st, m).1.Errno? ==> Lcreate(w, st, m).0 == st
  }

  /** An error is sure to leave the state alone exactly if the request is refused before any file is created. */
  lemma LcreateKeepsIff(st: State, m: Message)
    ensures (forall w :: LcreateKeeps(w, st, m)) <==>
            FidAt(m, 0) !in st.fids || st.fids[FidAt(m, 0)].filetype != Directory || HasNul(TextAt(m, 1))
  {
    var lost := Loop().(lookup := (_, _) => Errno(ENOENT));
    var fid := FidAt(m, 0);
    if fid in st.fids && st.fids[fid].filetype == Directory && !HasNul(TextAt(m, 1)) {
      assert Lcreate(lost, st, m).0.fids[fid].filetype == Regular;
      assert !LcreateKeeps(lost, st, m);
    }
  }

  /** A file is created, but the lookup after it fails: the client is told ENOENT, and its fid is open. */
  lemma LcreateHalfDone(cfg: Config, tag: u16, fid: u32, node: Node)
    ensures var w := Loop().(lookup := (_, _) => Errno(ENOENT));
            var st := State(map[fid := Fid(node, None, Directory)], MIN_MESSAGE_SIZE);
            var f := Tframe(tag, Ok(Message(TLCREATE, [Num(fid), Text([0x61]), Num(0), Num(0), Num(0)])));
            var (after, r) := Handle(cfg, w, st, f);
            r.msg == Lerror(ENOENT) && !IsOpen(st, fid) && IsOpen(after, fid)
  {
  }

  /** Requests whose first field is the fid they work on. */
  predicate WorksOnFid(ty: u8) {
    || ty == TWALK || ty == TCLUNK || ty == TLOPEN || ty == TLCREATE || ty == TREADDIR || ty == TSTATFS
    || ty == TREADLINK || ty == TGETATTR || ty == TSETATTR || ty == TLINK || ty == TMKDIR || ty == TRENAMEAT
    || ty == TUNLINKAT || NeedsOpenFile(ty)
  }

  predicate NeedsOpenFile(ty: u8) {
    ty == TREAD || ty == TWRITE || ty == TFSYNC || ty == TLOCK || ty == TGETLOCK
  }

  /** No request works on a fid that is not bound, nor one that needs a file on a fid that is not open. */
  lemma UnboundRefused(cfg: Config, w: World, st: State, m: Message)
    requires st.msize >= DATA_HEADER && m.ty < 255
    requires || (WorksOnFid(m.ty) && FidAt(m, 0) !in st.fids)
             || (NeedsOpenFile(m.ty) && !IsOpen(st, FidAt(m, 0)))
    ensures Answered(cfg, w, st, m) == (st, Errno(EBADF))
  {
  }

  /** One request's effect on one fid. */
  lemma StepFid(cfg: Config, w: World, st: State, f: Tframe, fid: u32)
    requires st.msize >= DATA_HEADER && Known(f)
    ensures var (after, r) := Handle(cfg, w, st, f);
            && (fid in after.fids <==> Binds(f, r, fid) || (fid in st.fids && !Unbinds(f, r, fid)))
            && (IsOpen(after, fid) <==>
                  Opens(w, st, f, r, fid) || (IsOpen(st, fid) && !Binds(f, r, fid) && !Unbinds(f, r, fid)))
  {
    if f.msg.Ok? {
      var m := f.msg.m;
      AnsweredTypes(cfg, w, st, m);
      if m.ty == TWALK { WalkEffect(cfg, w, st, m, fid); }
      if m.ty == TLCREATE { LcreateChanges(w, st, m); }
    }
  }

  /** The message size never grows, and only an accepted Tversion, with at least 256, can lower it. */
  lemma StepMsize(cfg: Config, w: World, st: State, f: Tframe)
    requires st.msize >= DATA_HEADER && Known(f)
    ensures var (after, r) := Handle(cfg, w, st, f);
            && after.msize <= st.msize && (st.msize >= MIN_MESSAGE_SIZE ==> after.msize >= MIN_MESSAGE_SIZE)
            && (f.msg.Ok? && f.msg.m.ty == TVERSION && r.msg.ty != RLERROR ==>
                  after.msize == Min(st.msize, FidAt(f.msg.m, 0)))
            && (!(f.msg.Ok? && f.msg.m.ty == TVERSION) ==> after.msize == st.msize)
  {
  }

  // ---------------------------------------------------------------- whole runs

  /** One request served: the kernel's answers meanwhile, the reply, and the states around it. */
  datatype Step = Step(before: State, frame: Tframe, world: World, reply: Rframe, after: State)

  ghost predicate Serves(cfg: Config, s: Step) {
    s.before.msize >= DATA_HEADER && Known(s.frame) && Handle(cfg, s.world, s.before, s.frame) == (s.after, s.reply)
  }

  /** A run from `st`: every step serves its request, from where the one before it ended. */
  ghost predicate Run(cfg: Config, st: State, steps: seq<Step>) {
    && (forall i | 0 <= i < |steps| :: Serves(cfg, steps[i]))
    && (forall i | 0 <= i < |steps| :: steps[i].before == StateAt(st, steps, i))
  }

  /** The state after `n` steps. */
  function StateAt(st: State, steps: seq<Step>, n: nat): State
    requires n <= |steps|
  {
    if n == 0 then st else steps[n - 1].after
  }

  predicate StepBinds(s: Step, fid: u32) {
    Binds(s.frame, s.reply, fid)
  }

  predicate StepUnbinds(s: Step, fid: u32) {
    Unbinds(s.frame, s.reply, fid)
  }

  predicate StepOpens(s: Step, fid: u32) {
    Opens(s.world, s.before, s.frame, s.reply, fid)
  }

  /** What `StepFid` says, about a step. */
  ghost predicate FidLaw(s: Step, fid: u32) {
    && (fid in s.after.fids <==> StepBinds(s, fid) || (fid in s.before.fids && !StepUnbinds(s, fid)))
    && (IsOpen(s.after, fid) <==>
          StepOpens(s, fid) || (IsOpen(s.before, fid) && !(StepBinds(s, fid) || StepUnbinds(s, fid))))
  }

  lemma ServesFidLaw(cfg: Config, s: Step, fid: u32)
    requires Serves(cfg, s)
    ensures FidLaw(s, fid)
  {
    StepFid(cfg, s.world, s.before, s.frame, fid);
  }

  /** Step `i` set it and none of the first `n` has cleared it since. */
  predicate Since(steps: seq<Step>, i: nat, n: nat, sets: Step -> bool, clears: Step -> bool)
    requires i < n <= |steps|
  {
    sets(steps[i]) && forall j | i < j < n :: !clears(steps[j])
  }

  /** What a step sets or leaves uncleared holds exactly if some step set it and none has cleared it since. */
  lemma {:induction false} Latest(now: seq<bool>, steps: seq<Step>, n: nat, sets: Step -> bool, clears: Step -> bool)
    requires |now| == |steps| + 1 && n <= |steps| && !now[0]
    requires forall k | 0 <= k < |steps| :: now[k + 1] == (sets(steps[k]) || (now[k] && !clears(steps[k])))
    ensures now[n] <==> exists i | 0 <= i < n :: Since(steps, i, n, sets, clears)
  {
    if n > 0 {
      var m := n - 1;
      Latest(now, steps, m, sets, clears);
      assert now[n] == (sets(steps[m]) || (now[m] && !clears(steps[m])));
      if sets(steps[m]) { assert Since(steps, m, n, sets, clears); }
      if i :| 0 <= i < m && Since(steps, i, m, sets, clears) {
        assert clears(steps[m]) || Since(steps, i, n, sets, clears);
      }
      if i :| 0 <= i < m && Since(steps, i, n, sets, clears) {
        assert Since(steps, i, m, sets, clears);
      }
    }
  }

  function Binding(fid: u32): Step -> bool {
    s => StepBinds(s, fid)
  }

  function Unbinding(fid: u32): Step -> bool {
    s => StepUnbinds(s, fid)
  }

  function Opening(fid: u32): Step -> bool {
    s => StepOpens(s, fid)
  }

  function Rebinding(fid: u32): Step -> bool {
    s => StepBinds(s, fid) || StepUnbinds(s, fid)
  }

  ghost predicate Linked(st: State, steps: seq<Step>, fid: u32) {
    && (forall i | 0 <= i < |steps| :: FidLaw(steps[i], fid))
    && (forall i | 0 <= i < |steps| :: steps[i].before == StateAt(st, steps, i))
  }

  lemma RunLinked(cfg: Config, st: State, steps: seq<Step>, fid: u32)
    requires Run(cfg, st, steps)
    ensures Linked(st, steps, fid)
  {
    forall i | 0 <= i < |steps| ensures FidLaw(steps[i], fid) {
      ServesFidLaw(cfg, steps[i], fid);
    }
  }

  lemma LinkedLatest(st: State, steps: seq<Step>, fid: u32)
    requires st.fids == map[] && Linked(st, steps, fid)
    ensures var n := |steps|;
      && (fid in StateAt(st, steps, n).fids <==>
            exists i | 0 <= i < n :: Since(steps, i, n, Binding(fid), Unbinding(fid)))
      && (IsOpen(StateAt(st, steps, n), fid) <==>
            exists i | 0 <= i < n :: Since(steps, i, n, Opening(fid), Rebinding(fid)))
  {
    var n := |steps|;
    var bound := seq(n + 1, k requires 0 <= k <= n => fid in StateAt(st, steps, k).fids);
    var open := seq(n + 1, k requires 0 <= k <= n => IsOpen(StateAt(st, steps, k), fid));
    forall k | 0 <= k < n
      ensures bound[k + 1] == (Binding(fid)(steps[k]) || (bound[k] && !Unbinding(fid)(steps[k])))
      ensures open[k + 1] == (Opening(fid)(steps[k]) || (open[k] && !Rebinding(fid)(steps[k])))
    {
      assert FidLaw(steps[k], fid) && steps[k].before == StateAt(st, steps, k);
    }
    Latest(bound, steps, n, Binding(fid), Unbinding(fid));
    Latest(open, steps, n, Opening(fid), Rebinding(fid));
  }

  /**
   * From an empty table, after any run: a fid is bound exactly if some request bound it and no later Tversion
   * or Tclunk removed it, as the replies show; and it holds an open file exactly if, since it was last bound,
   * a Tlopen succeeded or a Tlcreate stored one.
   */
  lemma FidsOverRun(cfg: Config, st: State, steps: seq<Step>, fid: u32)
    requires st.fids == map[] && Run(cfg, st, steps)
    ensures var n := |steps|;
      && (fid in StateAt(st, steps, n).fids <==>
            exists i | 0 <= i < n :: Since(steps, i, n, Binding(fid), Unbinding(fid)))
      && (IsOpen(StateAt(st, steps, n), fid) <==>
            exists i | 0 <= i < n :: Since(steps, i, n, Opening(fid), Rebinding(fid)))
  {
    RunLinked(cfg, st, steps, fid);
    LinkedLatest(st, steps, fid);
  }

  lemma ServesMsize(cfg: Config, s: Step)
    requires Serves(cfg, s)
    ensures s.after.msize <= s.before.msize
    ensures s.before.msize >= MIN_MESSAGE_SIZE ==> s.after.msize >= MIN_MESSAGE_SIZE
  {
  }

  /** The message size only ever falls, and never below 256. */
  lemma {:induction false} MsizeOverRun(cfg: Config, st: State, steps: seq<Step>, n: nat)
    requires st.msize >= MIN_MESSAGE_SIZE && Run(cfg, st, steps) && n <= |steps|
    ensures MIN_MESSAGE_SIZE <= StateAt(st, steps, n).msize <= st.msize
  {
    if n > 0 {
      MsizeOverRun(cfg, st, steps, n - 1);
      ServesMsize(cfg, steps[n - 1]);
    }
  }
}
