/** What the encoder's stamps mean to the decoder: in-order traffic passes straight through, and the frames of
    one session between two Opens are a generation (src/tunnel/multiplex.rs). */
module Transparency {
  import opened Bytes
  import opened MuxFrame
  import opened MuxDecoder
  import opened Reordering
  import opened Generations
  import opened MuxEncoder
  import opened EpochWindow
  import opened Isolation
  import opened OpenerReuse

  // ----- Messages -----

  /** Feeding the bytes of a frame is feeding the frame. */
  lemma {:induction false} FeedOfEncoded(d: Decoder, f: Frame)
    requires |f.payload| < 0x1_0000
    ensures FeedBytes(d, FrameBytes(f)) == Step(d, f)
  {
    hide Step;
    DecodeExact(FrameBytes(f), f);
  }

  /** The frames among the messages; the others do not decode. */
  function DecodedAll(msgs: seq<seq<byte>>): seq<Frame> {
    if msgs == [] then []
    else
      DecodedAll(msgs[..|msgs| - 1])
      + match DecodeFrame(msgs[|msgs| - 1]) case Some(f) => [f] case None => []
  }

  /** Every message is fed, one after the other. */
  function Receive(d: Decoder, msgs: seq<seq<byte>>): Stepped {
    if msgs == [] then Stepped(d, [])
    else
      var b := Receive(d, msgs[..|msgs| - 1]);
      var l := FeedBytes(b.dec, msgs[|msgs| - 1]);
      Stepped(l.dec, b.out + l.out)
  }

  lemma {:induction false} ReceiveIsRun(d: Decoder, msgs: seq<seq<byte>>)
    ensures Receive(d, msgs) == Run(d, DecodedAll(msgs))
    decreases |msgs|
  {
    hide Step;
    if msgs != [] {
      var pre := msgs[..|msgs| - 1];
      ReceiveIsRun(d, pre);
      match DecodeFrame(msgs[|msgs| - 1]) {
        case Some(f) => RunSnoc(d, DecodedAll(pre), f);
        case None => assert DecodedAll(msgs) == DecodedAll(pre);
      }
    }
  }

  ghost predicate Sendable(fs: seq<Frame>) {
    forall i :: 0 <= i < |fs| ==> |fs[i].payload| < 0x1_0000
  }

  /** The messages of a run of frames. */
  ghost function Wire(fs: seq<Frame>): (msgs: seq<seq<byte>>)
    requires Sendable(fs)
    ensures |msgs| == |fs|
  {
    seq(|fs|, i requires 0 <= i < |fs| => FrameBytes(fs[i]))
  }

  lemma {:induction false} ReceiveWire(d: Decoder, fs: seq<Frame>)
    requires Sendable(fs)
    ensures Receive(d, Wire(fs)) == Run(d, fs)
    decreases |fs|
  {
    hide Step, FeedBytes, FrameBytes;
    if fs != [] {
      var pre := fs[..|fs| - 1];
      ReceiveWire(d, pre);
      assert Wire(fs)[..|fs| - 1] == Wire(pre);
      FeedOfEncoded(Run(d, pre).dec, fs[|fs| - 1]);
    }
  }

  // ----- In-order traffic -----

  /** What the source asks of a caller: an opener does not set the direction bit itself and opens a session before using
      it. */
  predicate CallOk(e: Encoder, c: Call) {
    && (!e.acceptor ==> !HasDirAccept(c.flags))
    && |c.payload| <= FRAME_DATA_MAX
    && (UsesSessionOrder(c.ftype) && !c.ftype.Open? ==> c.sid in e.sessions || e.acceptor)
  }

  /** The session has used up the 24 bits of its generation, and goes on in a new epoch without an Open. */
  predicate RollsOver(e: Encoder, c: Call) {
    UsesSessionOrder(c.ftype) && !c.ftype.Open? && c.sid in e.sessions && e.sessions[c.sid].seqno >= SEQ_MASK
  }

  /** The new epoch compares as newer than the one the session leaves. */
  predicate RolloverOk(e: Encoder, c: Call) {
    RollsOver(e, c) ==>
      EpochAt(e.epochCtr) != e.sessions[c.sid].epoch && Newer(EpochAt(e.epochCtr), e.sessions[c.sid].epoch)
  }

  /** In terms of the two allocations: they are told apart. */
  lemma {:induction false} RolloverByAllocation(e: Encoder, c: Call, a: nat, b: nat)
    requires RollsOver(e, c) && e.sessions[c.sid].epoch == EpochOf(a) && e.epochCtr == b % 0x100
    ensures RolloverOk(e, c) <==> ToldApart(a, b)
  {
    if RolloverOk(e, c) {
      NewerOneWay(EpochOf(b), EpochOf(a));
    }
  }

  ghost predicate CallsOk(e: Encoder, calls: seq<Call>)
    requires EncoderWf(e)
  {
    forall j :: 0 <= j < |calls| ==> CallOk(EncoderAfter(e, calls[..j]), calls[j])
  }

  ghost predicate RolloversOk(e: Encoder, calls: seq<Call>)
    requires EncoderWf(e)
  {
    forall j :: 0 <= j < |calls| ==> RolloverOk(EncoderAfter(e, calls[..j]), calls[j])
  }

  /** The decoder expects exactly the number the encoder will stamp next, and has nothing in its queues. */
  ghost predicate InStep(e: Encoder, d: Decoder) {
    && (forall sid :: sid in e.sessions ==>
          && (sid, e.acceptor) in d.states
          && d.states[(sid, e.acceptor)] == Reorder(e.sessions[sid].epoch, e.sessions[sid].seqno, map[]))
    && (forall k :: k in d.states ==> k.1 == e.acceptor && k.0 in e.sessions)
    && d.preopen == map[] && d.outOfOrder == 0 && d.staleDropped == 0
  }

  lemma {:induction false} StampFields(e: Encoder, c: Call)
    requires EncoderWf(e) && UsesSessionOrder(c.ftype) && CallOk(e, c)
    ensures var f := Encode(e, c).frame; var tx := Encode(e, c).enc.sessions;
            && On(f, (c.sid, e.acceptor)) && c.sid in tx && tx == e.sessions[c.sid := tx[c.sid]]
            && tx[c.sid] == SidTx(Epoch(f), SessionSeq(f) + 1)
            && (c.sid in e.sessions && !c.ftype.Open? && !RollsOver(e, c) ==>
                  e.sessions[c.sid] == SidTx(Epoch(f), SessionSeq(f)))
            && (c.sid !in e.sessions || c.ftype.Open? || RollsOver(e, c) ==>
                  SessionSeq(f) == 0 && Epoch(f) == EpochAt(e.epochCtr))
  {
    var f := Encode(e, c).frame;
    assert FromAcceptor(f) == e.acceptor;
    if StartsGeneration(e, c.ftype, c.sid) {
      assert f.seqno == EpochAt(e.epochCtr) * EPOCH_UNIT;
    } else {
      var tx := e.sessions[c.sid];
      assert f.seqno == tx.epoch * EPOCH_UNIT + tx.seqno;
    }
  }

  /** A frame that comes as expected is returned alone and at once. */
  lemma {:induction false} ExpectedStep(d: Decoder, f: Frame, k: Key)
    requires On(f, k) && !f.ftype.Open? && k in d.states && d.states[k] == Reorder(Epoch(f), SessionSeq(f), map[])
    ensures Step(d, f) == Stepped(d.(states := d.states[k := Reorder(Epoch(f), SessionSeq(f) + 1, map[])]), [f])
  {
    var onward := Reorder(Epoch(f), SessionSeq(f) + 1, map[]);
    assert Flush(onward) == Flushed(onward, []);
  }

  /** An ordered frame that moves its session one number on, in both tables, keeps encoder and decoder in step. */
  lemma {:induction false} MovesOn(e: Encoder, d: Decoder, e': Encoder, d': Decoder, sid: u16, tx: SidTx)
    requires InStep(e, d) && e'.acceptor == e.acceptor && e'.sessions == e.sessions[sid := tx]
    requires d'.states == d.states[(sid, e.acceptor) := Reorder(tx.epoch, tx.seqno, map[])]
    requires d'.preopen == map[] && d'.outOfOrder == 0 && d'.staleDropped == 0
    ensures InStep(e', d')
  {
  }

  lemma {:induction false} InStepStep(e: Encoder, d: Decoder, c: Call)
    requires EncoderWf(e) && InStep(e, d) && CallOk(e, c) && RolloverOk(e, c)
    ensures InStep(Encode(e, c).enc, Step(d, Encode(e, c).frame).dec)
    ensures Step(d, Encode(e, c).frame).out == [Encode(e, c).frame]
  {
    var f := Encode(e, c).frame;
    if UsesSessionOrder(c.ftype) {
      OrderedInStep(e, d, c);
    } else {
      assert Step(d, f) == Stepped(d, [f]);
    }
  }

  lemma {:induction false} OrderedInStep(e: Encoder, d: Decoder, c: Call)
    requires EncoderWf(e) && InStep(e, d) && CallOk(e, c) && RolloverOk(e, c) && UsesSessionOrder(c.ftype)
    ensures InStep(Encode(e, c).enc, Step(d, Encode(e, c).frame).dec)
    ensures Step(d, Encode(e, c).frame).out == [Encode(e, c).frame]
  {
    hide Step, Stamp;
    var r := Encode(e, c);
    var f, k := r.frame, (c.sid, e.acceptor);
    StampFields(e, c);
    assert r.enc.acceptor == e.acceptor by { AcceptorKept(e, c); }
    assert Held(d, c.sid) == [];
    if c.ftype.Open? {
      OpenOnEmptyHold(d, f);
      assert d.preopen - {c.sid} == map[];
    } else if RollsOver(e, c) {
      TakesOver(d, f, k);
    } else if c.sid in e.sessions {
      ExpectedStep(d, f, k);
    } else {
      assert k !in d.states;
      FirstOfAcceptor(d, f, k);
    }
    MovesOn(e, d, r.enc, Step(d, f).dec, c.sid, r.enc.sessions[c.sid]);
  }

  lemma {:induction false} AcceptorKept(e: Encoder, c: Call)
    requires EncoderWf(e)
    ensures Encode(e, c).enc.acceptor == e.acceptor
  {
  }

  /** THEOREM (in-order transparency). For every sequence of encode calls whose changes of epoch compare as newer,
      feeding the frames in order returns each of them alone and at once, and never buffers or drops. */
  lemma {:induction false} InOrderTransparent(e: Encoder, calls: seq<Call>)
    requires EncoderWf(e) && e.sessions == map[] && CallsOk(e, calls) && RolloversOk(e, calls)
    ensures Run(FRESH, Frames(e, calls)).out == Frames(e, calls)
    ensures InStep(EncoderAfter(e, calls), Run(FRESH, Frames(e, calls)).dec)
    ensures forall j :: 0 <= j < |calls| ==>
              Step(Run(FRESH, Frames(e, calls)[..j]).dec, Frames(e, calls)[j]).out == [Frames(e, calls)[j]]
    decreases |calls|
  {
    hide Step, Encode, InStep, CallOk, RolloverOk, Run, Frames, EncoderAfter, EncoderWf;
    var fs := Frames(e, calls);
    if calls == [] {
      NoFrames(e, calls);
      RunNone(FRESH);
      FreshInStep(e);
      assert calls[..0] == calls;
    } else {
      var n := |calls| - 1;
      var pre, c := calls[..n], calls[n];
      PrefixOk(e, calls, n);
      InOrderTransparent(e, pre);
      var b, d := EncoderAfter(e, pre), Run(FRESH, Frames(e, pre)).dec;
      var f := Encode(b, c).frame;
      InStepStep(b, d, c);
      RunSnoc(FRESH, Frames(e, pre), f);
      FramesSnoc(e, calls, n);
      assert calls[..n + 1] == calls && fs == Frames(e, pre) + [f];
      forall j | 0 <= j < |calls| ensures Step(Run(FRESH, fs[..j]).dec, fs[j]).out == [fs[j]] {
        assert fs[..j] == Frames(e, pre)[..j];
      }
    }
  }

  lemma {:induction false} PrefixOk(e: Encoder, calls: seq<Call>, n: nat)
    requires EncoderWf(e) && CallsOk(e, calls) && n <= |calls|
    ensures CallsOk(e, calls[..n]) && (RolloversOk(e, calls) ==> RolloversOk(e, calls[..n]))
  {
    hide CallOk, RolloverOk, EncoderAfter, EncoderWf;
    assert forall j :: 0 <= j < n ==> calls[..n][..j] == calls[..j];
  }

  lemma {:induction false} RunNone(d: Decoder)
    ensures Run(d, []) == Stepped(d, [])
  {
  }

  /** A frame that rolls over into an epoch that does not compare as newer is dropped. */
  lemma {:induction false} RolloverRefused(e: Encoder, d: Decoder, c: Call)
    requires EncoderWf(e) && InStep(e, d) && CallOk(e, c) && !RolloverOk(e, c)
    ensures Step(d, Encode(e, c).frame) == Stepped(d.(staleDropped := d.staleDropped + 1), [])
  {
    hide Step, Stamp;
    var f, k := Encode(e, c).frame, (c.sid, e.acceptor);
    StampFields(e, c);
    if Epoch(f) == d.states[k].epoch {
      BehindIsDropped(d, f, k);
    } else {
      LeftoverDropped(d, f, k);
    }
  }

  /** And so is everything after it on that key, for good: the frames of the new epoch, whatever comes in between. */
  lemma {:induction false} RefusedForGood(e: Encoder, d: Decoder, c: Call, tr: seq<Frame>)
    requires EncoderWf(e) && InStep(e, d) && Wf(d) && Directed(d, c.sid) && CallOk(e, c) && !RolloverOk(e, c)
    requires forall f :: f in tr ==> OneSided(f, c.sid)
    requires forall f :: f in tr && On(f, (c.sid, e.acceptor)) ==>
               !f.ftype.Open? && Epoch(f) == EpochAt(e.epochCtr) && SessionSeq(f) < SEQ_MASK
    ensures OnKey(Run(d, tr).out, (c.sid, e.acceptor)) == []
  {
    hide Run, OnKey, Wf, Directed;
    BlockedRun(d, tr, (c.sid, e.acceptor));
  }

  lemma {:induction false} BehindIsDropped(d: Decoder, f: Frame, k: Key)
    requires On(f, k) && !f.ftype.Open? && k in d.states && d.states[k].epoch == Epoch(f)
    requires SessionSeq(f) < d.states[k].next
    ensures Step(d, f) == Stepped(d.(staleDropped := d.staleDropped + 1), [])
  {
    hide Flush, Merge;
  }

  lemma {:induction false} DropsAreCounted(d: Decoder, tr: seq<Frame>)
    ensures Run(d, tr).dec.staleDropped >= d.staleDropped
    decreases |tr|
  {
    hide Step;
    if tr != [] {
      DropsAreCounted(d, tr[..|tr| - 1]);
      StepCountsDrops(Run(d, tr[..|tr| - 1]).dec, tr[|tr| - 1]);
    }
  }

  lemma {:induction false} StepCountsDrops(d: Decoder, f: Frame)
    ensures Step(d, f).dec.staleDropped >= d.staleDropped
  {
    hide Flush, Merge;
  }

  /** THEOREM (transparency, exact, over the bytes). For every sequence of encode calls, feeding the encoded messages
      in order returns exactly the frames if and only if every change of epoch without an Open compares as newer; and
      then each message returns its frame at once. */
  lemma {:induction false} EncodedTransparentIff(e: Encoder, calls: seq<Call>)
    requires EncoderWf(e) && e.sessions == map[] && CallsOk(e, calls)
    ensures var fs := Frames(e, calls);
            && Sendable(fs)
            && (Receive(FRESH, Wire(fs)).out == fs <==> RolloversOk(e, calls))
            && (RolloversOk(e, calls) ==>
                  forall j :: 0 <= j < |fs| ==>
                    FeedBytes(Receive(FRESH, Wire(fs)[..j]).dec, Wire(fs)[j]).out == [fs[j]])
  {
    hide Run, Receive, FeedBytes, Frames, Step, EncoderAfter, CallOk, RolloverOk, Wire, EncoderWf;
    var fs := Frames(e, calls);
    FramesSendable(e, calls);
    ReceiveWire(FRESH, fs);
    if RolloversOk(e, calls) {
      InOrderTransparent(e, calls);
      forall j | 0 <= j < |fs| ensures FeedBytes(Receive(FRESH, Wire(fs)[..j]).dec, Wire(fs)[j]).out == [fs[j]] {
        FedAt(fs, j);
      }
    } else {
      var j :| 0 <= j < |calls| && !RolloverOk(EncoderAfter(e, calls[..j]), calls[j]);
      var i := FirstRefused(e, calls, j);
      RefusedIsMissing(e, calls, i);
    }
  }

  lemma {:induction false} FedAt(fs: seq<Frame>, j: nat)
    requires Sendable(fs) && j < |fs|
    ensures FeedBytes(Receive(FRESH, Wire(fs)[..j]).dec, Wire(fs)[j]) == Step(Run(FRESH, fs[..j]).dec, fs[j])
  {
    hide Run, Receive, FeedBytes, Step, FrameBytes;
    assert Wire(fs)[..j] == Wire(fs[..j]);
    ReceiveWire(FRESH, fs[..j]);
    FeedOfEncoded(Run(FRESH, fs[..j]).dec, fs[j]);
  }

  lemma {:induction false} FramesSendable(e: Encoder, calls: seq<Call>)
    requires EncoderWf(e) && CallsOk(e, calls)
    ensures Sendable(Frames(e, calls))
  {
    hide Frames, EncoderAfter, EncoderWf;
    CallsBecomeFrames(e, calls);
  }

  lemma {:induction false} FirstRefused(e: Encoder, calls: seq<Call>, j: nat) returns (i: nat)
    requires EncoderWf(e) && j < |calls| && !RolloverOk(EncoderAfter(e, calls[..j]), calls[j])
    ensures i < |calls| && !RolloverOk(EncoderAfter(e, calls[..i]), calls[i]) && RolloversOk(e, calls[..i])
    decreases j
  {
    hide RolloverOk, EncoderAfter, EncoderWf;
    if RolloversOk(e, calls[..j]) {
      i := j;
    } else {
      var m :| 0 <= m < j && !RolloverOk(EncoderAfter(e, calls[..j][..m]), calls[..j][m]);
      assert calls[..j][..m] == calls[..m];
      i := FirstRefused(e, calls, m);
    }
  }

  lemma {:induction false} RefusedIsMissing(e: Encoder, calls: seq<Call>, i: nat)
    requires EncoderWf(e) && e.sessions == map[] && CallsOk(e, calls)
    requires i < |calls| && !RolloverOk(EncoderAfter(e, calls[..i]), calls[i]) && RolloversOk(e, calls[..i])
    ensures Run(FRESH, Frames(e, calls)).out != Frames(e, calls)
  {
    hide Run, Frames, Step, EncoderAfter, CallOk, RolloverOk, EncoderWf, InStep, Wf, Buffered, RunLost, Encode;
    var fs, pre := Frames(e, calls), Frames(e, calls[..i]);
    PrefixOk(e, calls, i);
    InOrderTransparent(e, calls[..i]);
    var b, d := EncoderAfter(e, calls[..i]), Run(FRESH, pre).dec;
    RolloverRefused(b, d, calls[i]);
    FramesSnoc(e, calls, i);
    var f := Encode(b, calls[i]).frame;
    FramesConcat(e, calls[..i + 1], calls[i + 1..]);
    assert calls[..i + 1] + calls[i + 1..] == calls;
    assert fs[i] == f && fs[..i] == pre;
    SplitRun(FRESH, fs, i);
    DropsAreCounted(Step(d, f).dec, fs[i + 1..]);
    FreshInvariants();
    FreshIsEmpty();
    Conservation(FRESH, fs);
    assert d.staleDropped == 0 by { InStepDrops(b, d); }
    assert FRESH.staleDropped == 0;
  }

  lemma {:induction false} InStepDrops(e: Encoder, d: Decoder)
    requires InStep(e, d)
    ensures d.staleDropped == 0
  {
  }

  /** The frame of a call has its type, session and payload, and its flags with at most the two bits added. */
  ghost predicate FrameOf(f: Frame, c: Call, reliable: bool, acceptor: bool) {
    && f.ftype == c.ftype && f.sid == c.sid && f.payload == c.payload
    && (HasReliable(f.flags) <==> reliable || HasReliable(c.flags))
    && (HasDirAccept(f.flags) <==> acceptor || HasDirAccept(c.flags))
    && SameOtherBits(f.flags, c.flags)
  }

  /** By type: Open, Data, Fin and Close are stamped with a generation, and nothing else is; the others are numbered
      by one counter for all, and use up no epoch and no session number. */
  lemma {:induction false} StampedByType(e: Encoder, c: Call)
    requires EncoderWf(e)
    ensures var r := Encode(e, c);
            if c.ftype.Open? || c.ftype.Data? || c.ftype.Fin? || c.ftype.Close?
            then r.frame.seqno >= 0x100_0000 && Epoch(r.frame) != 0 && r.enc.controlSeq == e.controlSeq
            else
              && r.frame.seqno == e.controlSeq % 0x100_0000 && Epoch(r.frame) == 0
              && r.enc == e.(controlSeq := (e.controlSeq + 1) % 0x1_0000_0000)
  {
    var s := Stamp(e, c.ftype, c.sid).field;
    assert s / EPOCH_UNIT == Epoch(Encode(e, c).frame);
  }

  /** End to end, a call of any other type reaches the receiver at once, from any state of either side. */
  lemma {:induction false} ControlPassesThrough(e: Encoder, d: Decoder, c: Call)
    requires EncoderWf(e) && |c.payload| <= FRAME_DATA_MAX
    requires !(c.ftype.Open? || c.ftype.Data? || c.ftype.Fin? || c.ftype.Close?)
    ensures FeedBytes(d, FrameBytes(Encode(e, c).frame)) == Stepped(d, [Encode(e, c).frame])
  {
    hide Step, FeedBytes, FrameBytes;
    var f := Encode(e, c).frame;
    assert f.ftype == c.ftype && f.payload == c.payload;
    FeedOfEncoded(d, f);
    DeliveredByType(d, f);
  }

  /** Every call comes out as its frame, in order. */
  lemma {:induction false} CallsBecomeFrames(e: Encoder, calls: seq<Call>)
    requires EncoderWf(e)
    ensures forall j :: 0 <= j < |calls| ==> FrameOf(Frames(e, calls)[j], calls[j], e.reliable, e.acceptor)
    ensures EncoderAfter(e, calls).reliable == e.reliable && EncoderAfter(e, calls).acceptor == e.acceptor
    decreases |calls|
  {
    hide EncoderWf, WireFlags;
    if calls != [] {
      var pre, c := calls[..|calls| - 1], calls[|calls| - 1];
      CallsBecomeFrames(e, pre);
      assert FrameOf(Encode(EncoderAfter(e, pre), c).frame, c, e.reliable, e.acceptor) by {
        EncodesCall(EncoderAfter(e, pre), c);
      }
    }
  }

  lemma {:induction false} EncodesCall(e: Encoder, c: Call)
    requires EncoderWf(e)
    ensures FrameOf(Encode(e, c).frame, c, e.reliable, e.acceptor)
  {
  }

  lemma {:induction false} FreshInStep(e: Encoder)
    requires e.sessions == map[]
    ensures InStep(e, FRESH)
  {
  }

  // ----- Generations -----

  /** The calls of a session that take part in its order. */
  function SessionCalls(calls: seq<Call>, sid: u16): seq<Call> {
    Filter(calls, (c: Call) => UsesSessionOrder(c.ftype) && c.sid == sid)
  }

  /** Frames that carry the types and payloads of calls. */
  ghost predicate Carries(g: seq<Frame>, cs: seq<Call>) {
    |g| == |cs| && forall i :: 0 <= i < |g| ==> g[i].ftype == cs[i].ftype && g[i].payload == cs[i].payload
  }

  /** One life of a session at the opener: it begins with an Open, has no other, and fits 24 bits; in between the
      encoder serves other sessions. */
  ghost predicate OneLife(calls: seq<Call>, sid: u16) {
    && 0 < |calls| && calls[0].sid == sid && calls[0].ftype.Open?
    && (forall j :: 0 < j < |calls| && calls[j].sid == sid ==> !calls[j].ftype.Open?)
    && |SessionCalls(calls, sid)| <= SEQ_MASK
    && forall j :: 0 <= j < |calls| ==> !HasDirAccept(calls[j].flags) && |calls[j].payload| <= FRAME_DATA_MAX
  }

  lemma {:induction false} OtherCallsDoNotMatter(e: Encoder, c: Call, sid: u16)
    requires EncoderWf(e) && !(UsesSessionOrder(c.ftype) && c.sid == sid)
    ensures !On(Encode(e, c).frame, (sid, e.acceptor))
    ensures sid in e.sessions <==> sid in Encode(e, c).enc.sessions
    ensures sid in e.sessions ==> Encode(e, c).enc.sessions[sid] == e.sessions[sid]
    ensures Encode(e, c).enc.acceptor == e.acceptor
  {
  }

  lemma {:induction false} AcceptorFixed(e: Encoder, calls: seq<Call>)
    requires EncoderWf(e)
    ensures EncoderAfter(e, calls).acceptor == e.acceptor
    decreases |calls|
  {
    if calls != [] {
      AcceptorFixed(e, calls[..|calls| - 1]);
    }
  }

  lemma {:induction false} LifePrefix(calls: seq<Call>, sid: u16, n: nat)
    requires OneLife(calls, sid) && 0 < n <= |calls|
    ensures OneLife(calls[..n], sid)
    ensures |SessionCalls(calls[..n], sid)| <= |SessionCalls(calls, sid)|
    decreases |calls|
  {
    if n == |calls| {
      assert calls[..n] == calls;
    } else {
      var pre := calls[..|calls| - 1];
      assert OneLife(pre, sid);
      LifePrefix(pre, sid, n);
      assert pre[..n] == calls[..n];
    }
  }

  /** THEOREM (stamping). The frames an opener's encoder stamps during one life of a session, however interleaved
      with other sessions, are one generation that carries the session's calls. */
  lemma {:induction false} LifeIsGeneration(e: Encoder, calls: seq<Call>, sid: u16)
    requires EncoderWf(e) && !e.acceptor && OneLife(calls, sid)
    ensures var g := OnKey(Frames(e, calls), (sid, false)); var tx := EncoderAfter(e, calls).sessions;
            && Generation(g, (sid, false), EpochAt(e.epochCtr)) && Carries(g, SessionCalls(calls, sid))
            && sid in tx && tx[sid] == SidTx(EpochAt(e.epochCtr), |g|)
    decreases |calls|
  {
    hide Encode, Generation, EncoderWf, On;
    var pre, c := calls[..|calls| - 1], calls[|calls| - 1];
    var b := EncoderAfter(e, pre);
    var f := Encode(b, c).frame;
    var k := (sid, false);
    AcceptorFixed(e, pre);
    assert Frames(e, calls) == Frames(e, pre) + [f];
    assert Frames(e, calls)[..|calls| - 1] == Frames(e, pre);
    if |calls| == 1 {
      FirstOfLife(e, calls, sid);
    } else {
      LifePrefix(calls, sid, |calls| - 1);
      LifeIsGeneration(e, pre, sid);
      var g := OnKey(Frames(e, pre), k);
      if UsesSessionOrder(c.ftype) && c.sid == sid {
        assert SessionCalls(calls, sid) == SessionCalls(pre, sid) + [c];
        NextOfLife(b, c, g, EpochAt(e.epochCtr));
        assert OnKey(Frames(e, calls), k) == g + [f];
      } else {
        OtherCallsDoNotMatter(b, c, sid);
        assert OnKey(Frames(e, calls), k) == g;
        assert SessionCalls(calls, sid) == SessionCalls(pre, sid);
      }
    }
  }

  lemma {:induction false} FirstOfLife(e: Encoder, calls: seq<Call>, sid: u16)
    requires EncoderWf(e) && !e.acceptor && OneLife(calls, sid) && |calls| == 1
    ensures var g := OnKey(Frames(e, calls), (sid, false)); var tx := EncoderAfter(e, calls).sessions;
            && Generation(g, (sid, false), EpochAt(e.epochCtr)) && Carries(g, SessionCalls(calls, sid))
            && sid in tx && tx[sid] == SidTx(EpochAt(e.epochCtr), |g|)
  {
    hide Frames, EncoderAfter, Encode, OnKey, SessionCalls, EncoderWf, Generation;
    var c := calls[0];
    var r, k := Encode(e, c), (sid, false);
    NoFrames(e, calls);
    FramesSnoc(e, calls, 0);
    assert calls[..1] == calls == [c];
    assert Frames(e, calls) == [r.frame];
    FirstFrame(e, c);
    OnKeyAll([r.frame], k);
    OneCall(c);
  }

  lemma {:induction false} OneCall(c: Call)
    requires UsesSessionOrder(c.ftype)
    ensures SessionCalls([c], c.sid) == [c]
  {
    FilterOne(c, (x: Call) => UsesSessionOrder(x.ftype) && x.sid == c.sid);
  }

  /** The frame that opens a life. */
  lemma {:induction false} FirstFrame(e: Encoder, c: Call)
    requires EncoderWf(e) && !e.acceptor && c.ftype.Open? && !HasDirAccept(c.flags) && |c.payload| <= FRAME_DATA_MAX
    ensures var r := Encode(e, c);
            && r.frame.ftype == c.ftype && r.frame.payload == c.payload && On(r.frame, (c.sid, false))
            && Generation([r.frame], (c.sid, false), EpochAt(e.epochCtr))
            && c.sid in r.enc.sessions && r.enc.sessions[c.sid] == SidTx(EpochAt(e.epochCtr), 1)
  {
    StampFields(e, c);
    var f := Encode(e, c).frame;
    assert f.seqno == Epoch(f) * EPOCH_UNIT + SessionSeq(f);
  }

  lemma {:induction false} NextOfLife(b: Encoder, c: Call, g: seq<Frame>, e: byte)
    requires EncoderWf(b) && UsesSessionOrder(c.ftype) && !c.ftype.Open?
    requires (!b.acceptor ==> !HasDirAccept(c.flags)) && |c.payload| <= FRAME_DATA_MAX
    requires Generation(g, (c.sid, b.acceptor), e) && |g| < SEQ_MASK
    requires c.sid in b.sessions && b.sessions[c.sid] == SidTx(e, |g|)
    ensures var r := Encode(b, c);
            && r.frame.ftype == c.ftype && r.frame.payload == c.payload
            && On(r.frame, (c.sid, b.acceptor)) && Generation(g + [r.frame], (c.sid, b.acceptor), e)
            && c.sid in r.enc.sessions && r.enc.sessions[c.sid] == SidTx(e, |g| + 1)
  {
    StampFields(b, c);
    var f := Encode(b, c).frame;
    assert f.seqno == e * EPOCH_UNIT + |g|;
    var h := g + [f];
    forall i | 0 <= i < |h|
      ensures On(h[i], (c.sid, b.acceptor)) && h[i].seqno == e * EPOCH_UNIT + i
      ensures h[i].ftype.Open? <==> i == 0 && !b.acceptor
    {
      if i < |g| {
        assert h[i] == g[i];
      }
    }
  }
}
