/** The stamping encoder (src/tunnel/multiplex.rs): every session frame carries `[epoch:8 | seq:24]`. */
module MuxEncoder {
  import opened Bytes
  import opened MuxFrame

  datatype SidTx = SidTx(epoch: byte, seqno: nat)

  datatype Encoder = Encoder(controlSeq: u32, sessions: map<u16, SidTx>, epochCtr: byte,
                             reliable: bool, acceptor: bool)

  datatype Stamped = Stamped(enc: Encoder, field: u32)
  datatype Encoded = Encoded(enc: Encoder, frame: Frame)

  /** One call of `encode_frame`. */
  datatype Call = Call(ftype: FrameType, sid: u16, flags: byte, payload: seq<byte>)

  function NewEncoder(reliable: bool, acceptor: bool): Encoder {
    Encoder(0, map[], 0, reliable, acceptor)
  }

  /** The epoch handed out at counter value `raw`. */
  function EpochAt(raw: byte): (e: byte)
    ensures 1 <= e
  {
    raw % 255 + 1
  }

  /** Sequence numbers fit their 24 bits, and a session that has been used has an epoch. */
  ghost predicate EncoderWf(e: Encoder) {
    forall sid :: sid in e.sessions ==> e.sessions[sid].epoch != 0 && e.sessions[sid].seqno <= SEQ_MASK
  }

  /** A frame that starts a new generation of its session. */
  predicate StartsGeneration(e: Encoder, ftype: FrameType, sid: u16) {
    sid !in e.sessions || ftype.Open? || e.sessions[sid].seqno >= SEQ_MASK
  }

  /** `next_seq_field` */
  function Stamp(e: Encoder, ftype: FrameType, sid: u16): Stamped
    requires EncoderWf(e)
  {
    if !UsesSessionOrder(ftype) then
      Stamped(e.(controlSeq := (e.controlSeq + 1) % 0x1_0000_0000), e.controlSeq % EPOCH_UNIT)
    else if StartsGeneration(e, ftype, sid) then
      var epoch := EpochAt(e.epochCtr);
      Stamped(e.(epochCtr := (e.epochCtr + 1) % 0x100, sessions := e.sessions[sid := SidTx(epoch, 1)]),
              epoch * EPOCH_UNIT)
    else
      var tx := e.sessions[sid];
      Stamped(e.(sessions := e.sessions[sid := tx.(seqno := tx.seqno + 1)]), tx.epoch * EPOCH_UNIT + tx.seqno)
  }

  /** The two bits the encoder adds; the receiver reads its direction from the second. */
  function WireFlags(e: Encoder, flags: byte): (f: byte)
    ensures HasReliable(f) <==> e.reliable || HasReliable(flags)
    ensures HasDirAccept(f) <==> e.acceptor || HasDirAccept(flags)
    ensures SameOtherBits(f, flags)
  {
    var f := if e.reliable then SetReliable(flags) else flags;
    if e.acceptor then SetDirAccept(f) else f
  }

  /** `encode_frame`, as the frame it puts on the wire. */
  function Encode(e: Encoder, c: Call): Encoded
    requires EncoderWf(e)
  {
    var s := Stamp(e, c.ftype, c.sid);
    Encoded(s.enc, Frame(c.ftype, c.sid, s.field, WireFlags(e, c.flags), c.payload))
  }

  lemma {:induction false} EncodeWf(e: Encoder, c: Call)
    requires EncoderWf(e)
    ensures EncoderWf(Encode(e, c).enc)
  {
  }

  /** The encoder after a run of calls. */
  function EncoderAfter(e: Encoder, calls: seq<Call>): (r: Encoder)
    requires EncoderWf(e)
    ensures EncoderWf(r)
    decreases |calls|
  {
    if calls == [] then e
    else
      var b := EncoderAfter(e, calls[..|calls| - 1]);
      EncodeWf(b, calls[|calls| - 1]);
      Encode(b, calls[|calls| - 1]).enc
  }

  /** The frames of a run of calls, in order. */
  function Frames(e: Encoder, calls: seq<Call>): (fs: seq<Frame>)
    requires EncoderWf(e)
    ensures |fs| == |calls|
    decreases |calls|
  {
    if calls == [] then []
    else
      var pre := calls[..|calls| - 1];
      Frames(e, pre) + [Encode(EncoderAfter(e, pre), calls[|calls| - 1]).frame]
  }

  lemma {:induction false} NoFrames(e: Encoder, calls: seq<Call>)
    requires EncoderWf(e)
    ensures Frames(e, calls[..0]) == [] && EncoderAfter(e, calls[..0]) == e
  {
    assert calls[..0] == [];
  }

  lemma {:induction false} FramesSnoc(e: Encoder, calls: seq<Call>, n: nat)
    requires EncoderWf(e) && n < |calls|
    ensures var b := EncoderAfter(e, calls[..n]); var r := Encode(b, calls[n]);
            && EncoderAfter(e, calls[..n + 1]) == r.enc && r.frame.payload == calls[n].payload
            && Frames(e, calls[..n + 1]) == Frames(e, calls[..n]) + [r.frame]
  {
    assert calls[..n + 1][..n] == calls[..n];
  }

  lemma {:induction false} FramesConcat(e: Encoder, a: seq<Call>, b: seq<Call>)
    requires EncoderWf(e)
    ensures EncoderAfter(e, a + b) == EncoderAfter(EncoderAfter(e, a), b)
    ensures Frames(e, a + b) == Frames(e, a) + Frames(EncoderAfter(e, a), b)
    decreases |b|
  {
    hide Encode, EncoderWf;
    if b == [] {
      assert a + b == a;
    } else {
      FramesConcat(e, a, b[..|b| - 1]);
      assert (a + b)[..|a + b| - 1] == a + b[..|b| - 1];
    }
  }

  /** Opens of the given sessions, one after the other. */
  function Opens(sids: seq<u16>): seq<Call> {
    seq(|sids|, i requires 0 <= i < |sids| => Call(Open, sids[i], 0, []))
  }

  /** Every Open takes one epoch. */
  lemma {:induction false} OpensTakeEpochs(e: Encoder, sids: seq<u16>)
    requires EncoderWf(e)
    ensures EncoderAfter(e, Opens(sids)).epochCtr == (e.epochCtr + |sids|) % 0x100
    ensures EncoderAfter(e, Opens(sids)).reliable == e.reliable && EncoderAfter(e, Opens(sids)).acceptor == e.acceptor
    decreases |sids|
  {
    hide EncoderWf, Encode, EncoderAfter;
    if sids == [] {
      NoFrames(e, Opens(sids));
      assert Opens(sids)[..0] == Opens(sids);
    } else {
      var n := |sids| - 1;
      var calls := Opens(sids);
      OpensTakeEpochs(e, sids[..n]);
      assert calls[..n] == Opens(sids[..n]) && calls[..n + 1] == calls;
      FramesSnoc(e, calls, n);
      OpenTakesEpoch(EncoderAfter(e, calls[..n]), calls[n]);
      NextResidue(e.epochCtr + n);
    }
  }

  lemma {:induction false} OpenTakesEpoch(e: Encoder, c: Call)
    requires EncoderWf(e) && c.ftype.Open?
    ensures var t := Encode(e, c).enc;
            t.epochCtr == (e.epochCtr + 1) % 0x100 && t.reliable == e.reliable && t.acceptor == e.acceptor
  {
  }

  lemma {:induction false} NextResidue(n: nat)
    ensures (n % 0x100 + 1) % 0x100 == (n + 1) % 0x100
  {
  }

  class MuxEncoder {
    var controlSeq: u32
    var sessions: map<u16, SidTx>
    var epochCtr: byte
    const reliable: bool
    const acceptor: bool

    ghost function View(): Encoder
      reads this
    {
      Encoder(controlSeq, sessions, epochCtr, reliable, acceptor)
    }

    constructor (reliable: bool, acceptor: bool)
      ensures View() == NewEncoder(reliable, acceptor) && EncoderWf(View())
    {
      this.controlSeq, this.sessions, this.epochCtr := 0, map[], 0;
      this.reliable, this.acceptor := reliable, acceptor;
    }

    method AllocEpoch() returns (e: byte)
      modifies this`epochCtr
      ensures e == EpochAt(old(epochCtr)) && epochCtr == (old(epochCtr) + 1) % 0x100
    {
      var raw := epochCtr;
      epochCtr := (epochCtr + 1) % 0x100;
      e := raw % 255 + 1;
    }

    method NextSeqField(ftype: FrameType, sid: u16) returns (field: u32)
      requires EncoderWf(View())
      modifies this
      ensures Stamped(View(), field) == Stamp(old(View()), ftype, sid)
      ensures EncoderWf(View())
    {
      if !UsesSessionOrder(ftype) {
        field := controlSeq % EPOCH_UNIT;
        controlSeq := (controlSeq + 1) % 0x1_0000_0000;
        return;
      }
      var tx := if sid in sessions then sessions[sid] else SidTx(0, 0);
      if tx.epoch == 0 || ftype.Open? {
        var e := AllocEpoch();
        tx := SidTx(e, 0);
      } else if tx.seqno >= SEQ_MASK {
        var e := AllocEpoch();
        tx := SidTx(e, 0);
      }
      field := tx.epoch * EPOCH_UNIT + tx.seqno;
      tx := tx.(seqno := tx.seqno + 1);
      sessions := sessions[sid := tx];
    }

    /** The message handed to SRT; the payload limit is the source's own assertion. */
    method EncodeFrame(ftype: FrameType, sid: u16, flags: byte, payload: seq<byte>) returns (msg: seq<byte>)
      requires EncoderWf(View())
      requires |payload| <= FRAME_DATA_MAX
      modifies this
      ensures var r := Encode(old(View()), Call(ftype, sid, flags, payload));
              View() == r.enc && msg == FrameBytes(r.frame)
      ensures EncoderWf(View())
    {
      hide EncoderWf;
      msg := TUNNEL_MAGIC;
      msg := msg + [PROTOCOL_VERSION];
      msg := msg + [TypeByte(ftype)];
      assert msg == TUNNEL_MAGIC + [PROTOCOL_VERSION, TypeByte(ftype)];
      msg := msg + Be16(sid);
      msg := msg + Be16(|payload|);
      var field := NextSeqField(ftype, sid);
      msg := msg + Be32(field);
      var f := flags;
      if reliable {
        f := SetReliable(f);
      }
      if acceptor {
        f := SetDirAccept(f);
      }
      msg := msg + [f];
      assert msg == Header(Frame(ftype, sid, field, f, payload));
      msg := msg + payload;
    }
  }
}
