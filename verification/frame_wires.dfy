/** The T and R frame formats as wires for byte streams. */
module FrameWires {
  import opened Bytes
  import opened WireFormat
  import opened Messages
  import opened Streams

  ghost predicate IsT(w: Wire<Tframe>) {
    && (forall f {:trigger EncodeT(f)} :: w.encode(f) == EncodeT(f))
    && (forall b {:trigger DecodeT(b)} :: w.decode(b) == DecodeT(b))
  }

  ghost predicate IsR(w: Wire<Rframe>) {
    && (forall f {:trigger EncodeR(f)} :: w.encode(f) == EncodeR(f))
    && (forall b {:trigger DecodeR(b)} :: w.decode(b) == DecodeR(b))
  }

  const T_WIRE: Wire<Tframe> := Wire(f => EncodeT(f), b => DecodeT(b))
  const R_WIRE: Wire<Rframe> := Wire(f => EncodeR(f), b => DecodeR(b))

  lemma WiresAre()
    ensures IsT(T_WIRE) && IsR(R_WIRE)
  {
  }

  lemma RequestFaithful(w: Wire<Tframe>, f: Tframe)
    requires IsT(w) && SendableT(f)
    ensures Faithful(w, f)
  {
    assert w.encode(f) == EncodeT(f);
    forall tail ensures w.decode(w.encode(f).bytes + tail) == Done(f, tail) {
      RoundTripT(f, tail);
      assert w.decode(EncodeT(f).bytes + tail) == DecodeT(EncodeT(f).bytes + tail);
    }
    RoundTripT(f, []);
  }

  lemma ReplyFaithful(w: Wire<Rframe>, f: Rframe)
    requires IsR(w) && SendableR(f)
    ensures Faithful(w, f)
  {
    assert w.encode(f) == EncodeR(f);
    forall tail ensures w.decode(w.encode(f).bytes + tail) == Done(f, tail) {
      RoundTripR(f, tail);
      assert w.decode(EncodeR(f).bytes + tail) == DecodeR(EncodeR(f).bytes + tail);
    }
    RoundTripR(f, []);
  }

  /** What the encoder accepts is read back exactly if no data in it is longer than 32 MiB, and else never. */
  lemma ReplySettled(w: Wire<Rframe>, f: Rframe)
    requires IsR(w) && Encodable(f.msg, FieldsR(f.msg.ty))
    ensures Faithful(w, f) <==> Fits(Tuple(f.msg.fields))
    ensures Unreadable(w, f) <==> !Fits(Tuple(f.msg.fields))
  {
    assert w.encode(f) == EncodeR(f);
    ReadsBackR(f, []);
    if Fits(Tuple(f.msg.fields)) {
      ReplyFaithful(w, f);
      assert w.decode(w.encode(f).bytes + []) == Done(f, []);
    } else {
      forall tail ensures w.decode(w.encode(f).bytes + tail).Fail? {
        ReadsBackR(f, tail);
        assert w.decode(EncodeR(f).bytes + tail) == DecodeR(EncodeR(f).bytes + tail);
      }
      assert w.decode(w.encode(f).bytes + []).Fail?;
    }
  }

  /** Any T frame that decodes is faithful, unless its body is malformed: then the encoder writes nothing. */
  lemma FramesChecked(w: Wire<Tframe>)
    requires IsT(w)
    ensures Checked(w) && Consuming(w) && w.decode([]).Fail?
    ensures forall b | w.decode(b).Done? :: Refused(w, w.decode(b).value) <==> w.decode(b).value.msg.Bad?
  {
    assert w.decode([]) == DecodeT([]);
    forall b | w.decode(b).Done?
      ensures |w.decode(b).rest| < |b|
      ensures Refused(w, w.decode(b).value) <==> w.decode(b).value.msg.Bad?
      ensures Faithful(w, w.decode(b).value) || Refused(w, w.decode(b).value)
    {
      assert w.decode(b) == DecodeT(b);
      var f := DecodeT(b).value;
      DecodeTCanonical(b);
      assert w.encode(f) == EncodeT(f);
      if f.msg.Ok? { RequestFaithful(w, f); }
    }
  }

  ghost predicate AllSendableT(fs: seq<Tframe>) {
    forall i | 0 <= i < |fs| :: SendableT(fs[i])
  }

  ghost predicate AllSendableR(fs: seq<Rframe>) {
    forall i | 0 <= i < |fs| :: SendableR(fs[i])
  }

  lemma RequestsFaithful(w: Wire<Tframe>, fs: seq<Tframe>)
    requires IsT(w) && AllSendableT(fs)
    ensures AllFaithful(w, fs)
  {
    forall i | 0 <= i < |fs| ensures Faithful(w, fs[i]) { RequestFaithful(w, fs[i]); }
  }

  lemma RepliesFaithful(w: Wire<Rframe>, fs: seq<Rframe>)
    requires IsR(w) && AllSendableR(fs)
    ensures AllFaithful(w, fs)
  {
    forall i | 0 <= i < |fs| ensures Faithful(w, fs[i]) { ReplyFaithful(w, fs[i]); }
  }

  /** Concatenated T frames parse in one way only: of two parses one extends the other. */
  lemma RequestsUnique(w: Wire<Tframe>, fs: seq<Tframe>, gs: seq<Tframe>, s: seq<byte>, t: seq<byte>)
    requires IsT(w) && AllSendableT(fs) && AllSendableT(gs) && |fs| <= |gs|
    requires EncodeAll(w, fs) + s == EncodeAll(w, gs) + t
    ensures fs == gs[..|fs|] && s == EncodeAll(w, gs[|fs|..]) + t
  {
    RequestsFaithful(w, fs);
    RequestsFaithful(w, gs);
    ParseUnique(w, fs, gs, s, t);
  }

  /** The same for R frames. */
  lemma RepliesUnique(w: Wire<Rframe>, fs: seq<Rframe>, gs: seq<Rframe>, s: seq<byte>, t: seq<byte>)
    requires IsR(w) && AllSendableR(fs) && AllSendableR(gs) && |fs| <= |gs|
    requires EncodeAll(w, fs) + s == EncodeAll(w, gs) + t
    ensures fs == gs[..|fs|] && s == EncodeAll(w, gs[|fs|..]) + t
  {
    RepliesFaithful(w, fs);
    RepliesFaithful(w, gs);
    ParseUnique(w, fs, gs, s, t);
  }
}
