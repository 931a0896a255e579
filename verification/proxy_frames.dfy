/** The proxy over 9P frames, and in front of the file server. */
module ProxyFrames {
  import opened Bytes
  import opened WireFormat
  import opened Messages
  import opened Streams
  import opened FrameWires
  import opened Proxy
  import opened ReadDirs
  import opened Ufs
  import opened UfsSizes

  /**
   * Transparency of the proxy for every client stream of frames that can be sent, whatever the server answers. If
   * the proxy has crashed, it was on an answer it could not read.
   */
  lemma FramesTransparent(wq: Wire<Tframe>, wr: Wire<Rframe>, fs: seq<Tframe>,
                          cs: seq<Conn<Tframe, Rframe>>, moves: seq<Move<Rframe>>, n: nat)
    requires IsT(wq) && IsR(wr) && AllSendableT(fs) && IsRun(wq, wr, EncodeAll(wq, fs), cs, moves) && n < |cs|
    ensures var c := cs[n];
      && c.up <= EncodeAll(wq, fs) && c.got <= c.sent <= fs
      && |c.answers| == |c.got| && c.returned <= |c.answers| <= |c.sent| <= c.returned + 1
      && c.down == EncodeAll(wr, c.answers[..c.returned])
      && (c.phase.Crashed? ==> StuckOn(wr, c))
  {
    FramesChecked(wq);
    RequestsFaithful(wq, fs);
    Transparent(wq, wr, fs, cs, moves, n);
    CrashCause(wq, wr, fs, cs, moves, n);
  }

  /** So does the proxy as it runs, over the two frame formats; with 32 MiB of data at most it does not crash. */
  lemma ProxyTransparent(fs: seq<Tframe>, cs: seq<Conn<Tframe, Rframe>>, moves: seq<Move<Rframe>>, n: nat)
    requires AllSendableT(fs) && IsRun(T_WIRE, R_WIRE, EncodeAll(T_WIRE, fs), cs, moves) && n < |cs|
    ensures var c := cs[n];
      && c.up <= EncodeAll(T_WIRE, fs) && c.got <= c.sent <= fs
      && |c.answers| == |c.got| && c.returned <= |c.answers| <= |c.sent| <= c.returned + 1
      && c.down == EncodeAll(R_WIRE, c.answers[..c.returned])
      && (c.phase.Crashed? ==> StuckOn(R_WIRE, c) && !SendableR(c.answers[c.returned]))
  {
    WiresAre();
    FramesTransparent(T_WIRE, R_WIRE, fs, cs, moves, n);
    var c := cs[n];
    if c.phase.Crashed? && SendableR(c.answers[c.returned]) {
      ReplyFaithful(R_WIRE, c.answers[c.returned]);
      UnreadableAlone(R_WIRE, c.answers[c.returned]);
    }
  }

  /** In front of a file server with messages of 64 MiB, one Tread can make the proxy crash. */
  lemma LargeReadPanics(cfg: Config, fid: u32, node: Node, h: File, tag: u16)
    ensures var st, f := State(map[fid := Fid(node, Some(h), Regular)], LARGE_MESSAGE), Tframe(tag, Ok(LargeRead(fid)));
            SendableT(f) && Lawful(Filled()) && Panics(T_WIRE, R_WIRE, f, Handle(cfg, Filled(), st, f).1)
  {
    var st, f := State(map[fid := Fid(node, Some(h), Regular)], LARGE_MESSAGE), Tframe(tag, Ok(LargeRead(fid)));
    RreadUndecodable(cfg, fid, node, h, tag, []);
    WiresAre();
    RequestFaithful(T_WIRE, f);
    ReplySettled(R_WIRE, Handle(cfg, Filled(), st, f).1);
    UnreadablePanics(T_WIRE, R_WIRE, f, Handle(cfg, Filled(), st, f).1);
  }
}
