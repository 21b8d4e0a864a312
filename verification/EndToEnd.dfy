/** One TCP session end to end: from the bytes a forward loop hands to `send_data_batch`, through stamping, an arbitrary
    network, reordering and dispatch, to the events in the peer session's channel
    (src/tunnel/dispatch.rs, src/tunnel/multiplex.rs, src/server/listener.rs). */
module EndToEnd {
  import opened Bytes
  import opened MuxFrame
  import opened MuxDecoder
  import opened Reordering
  import opened Generations
  import opened Isolation
  import opened MuxEncoder
  import opened OpenerReuse
  import opened Transparency
  import opened Dispatch
  import opened Forwarding
  import opened OpenTarget

  // ----- The sending side -----

  /** `data.chunks(FRAME_DATA_MAX)` */
  function Chunks(data: seq<byte>): (cs: seq<seq<byte>>)
    ensures forall i :: 0 <= i < |cs| ==> 0 < |cs[i]| <= FRAME_DATA_MAX
    decreases |data|
  {
    if data == [] then []
    else if |data| <= FRAME_DATA_MAX then [data]
    else [data[..FRAME_DATA_MAX]] + Chunks(data[FRAME_DATA_MAX..])
  }

  /** All chunks but the last are full, so there is none too many. */
  lemma {:induction false} ChunksFull(data: seq<byte>)
    ensures forall i :: 0 <= i < |Chunks(data)| - 1 ==> |Chunks(data)[i]| == 1301
    ensures |Chunks(data)| == (|data| + 1300) / 1301
    decreases |data|
  {
    if |data| > FRAME_DATA_MAX {
      ChunksFull(data[FRAME_DATA_MAX..]);
    }
  }

  lemma {:induction false} ChunksFlat(data: seq<byte>)
    ensures Flat(Chunks(data)) == data
    decreases |data|
  {
    if data == [] {
    } else if |data| <= FRAME_DATA_MAX {
      var one: seq<seq<byte>> := [data];
      assert one[..0] == [];
    } else {
      var one: seq<seq<byte>> := [data[..FRAME_DATA_MAX]];
      var rest := data[FRAME_DATA_MAX..];
      ChunksFlat(rest);
      assert one[..0] == [];
      assert Flat(one) == data[..FRAME_DATA_MAX];
      FlatConcat(one, Chunks(rest));
    }
  }

  function DataCalls(cs: seq<seq<byte>>, sid: u16): seq<Call> {
    seq(|cs|, i requires 0 <= i < |cs| => Call(Data, sid, 0, cs[i]))
  }

  /** The chunks of a run of batches, one after the other. */
  function AllChunks(bs: seq<seq<byte>>): seq<seq<byte>> {
    if bs == [] then [] else AllChunks(bs[..|bs| - 1]) + Chunks(bs[|bs| - 1])
  }

  lemma {:induction false} AllChunksFlat(bs: seq<seq<byte>>)
    ensures Flat(AllChunks(bs)) == Flat(bs)
    decreases |bs|
  {
    if bs != [] {
      AllChunksFlat(bs[..|bs| - 1]);
      ChunksFlat(bs[|bs| - 1]);
      FlatConcat(AllChunks(bs[..|bs| - 1]), Chunks(bs[|bs| - 1]));
    }
  }

  /** The encode calls of a client session that attempts Open, the batches, perhaps Fin, perhaps Close. */
  function ScriptCalls(open: seq<byte>, bs: seq<seq<byte>>, fin: bool, close: bool, sid: u16): seq<Call> {
    [Call(Open, sid, 0, open)] + DataCalls(AllChunks(bs), sid)
    + (if fin then [Call(Fin, sid, 0, [])] else []) + (if close then [Call(Close, sid, 0, [])] else [])
  }

  /** The encode calls of one send attempt of the forward loops. */
  function OpCalls(op: Op, sid: u16): seq<Call> {
    match op
    case SendOpen(payload) => [Call(Open, sid, 0, payload)]
    case SendBatch(data) => DataCalls(Chunks(data), sid)
    case SendFin => [Call(Fin, sid, 0, [])]
    case SendClose => [Call(Close, sid, 0, [])]
  }

  function OpsCalls(ops: seq<Op>, sid: u16): seq<Call> {
    if ops == [] then [] else OpsCalls(ops[..|ops| - 1], sid) + OpCalls(ops[|ops| - 1], sid)
  }

  lemma {:induction false} OpsCallsSnoc(ops: seq<Op>, op: Op, sid: u16)
    ensures OpsCalls(ops + [op], sid) == OpsCalls(ops, sid) + OpCalls(op, sid)
  {
    assert (ops + [op])[..|ops|] == ops;
  }

  lemma {:induction false} OpenAndBatches(open: seq<byte>, bs: seq<seq<byte>>, sid: u16)
    ensures OpsCalls([SendOpen(open)] + Batches(bs), sid) == [Call(Open, sid, 0, open)] + DataCalls(AllChunks(bs), sid)
    decreases |bs|
  {
    hide OpsCalls, Chunks, DataCalls;
    var first := [SendOpen(open)];
    if bs == [] {
      assert first + Batches(bs) == [] + first;
      OpsCallsSnoc([], SendOpen(open), sid);
      NoCalls(sid);
    } else {
      var pre, b := bs[..|bs| - 1], bs[|bs| - 1];
      OpenAndBatches(open, pre, sid);
      assert first + Batches(bs) == first + Batches(pre) + [SendBatch(b)];
      OpsCallsSnoc(first + Batches(pre), SendBatch(b), sid);
      DataCallsConcat(AllChunks(pre), Chunks(b), sid);
    }
  }

  lemma {:induction false} NoCalls(sid: u16)
    ensures OpsCalls([], sid) == [] && DataCalls([], sid) == []
  {
  }

  lemma {:induction false} DataCallsConcat(a: seq<seq<byte>>, b: seq<seq<byte>>, sid: u16)
    ensures DataCalls(a + b, sid) == DataCalls(a, sid) + DataCalls(b, sid)
  {
  }

  /** What a client session attempts, by the half-close grammar, is exactly a script. */
  lemma {:induction false} OpsAreScript(open: seq<byte>, bs: seq<seq<byte>>, fin: bool, close: bool, sid: u16)
    ensures OpsCalls([SendOpen(open)] + Upstream(bs, fin) + (if close then [SendClose] else []), sid)
            == ScriptCalls(open, bs, fin, close, sid)
  {
    hide OpsCalls, DataCalls, AllChunks;
    OpenAndBatches(open, bs, sid);
    var a := [SendOpen(open)] + Batches(bs);
    var b := if fin then a + [SendFin] else a;
    OpsCallsSnoc(a, SendFin, sid);
    OpsCallsSnoc(b, SendClose, sid);
    assert [SendOpen(open)] + Upstream(bs, fin) == b;
    assert [SendOpen(open)] + Upstream(bs, fin) + (if close then [SendClose] else [])
           == if close then b + [SendClose] else b;
  }

  /** `send_data_batch`: the batch is cut into chunks and each becomes one stamped Data message. */
  method SendDataBatch(enc: MuxEncoder, sid: u16, data: seq<byte>) returns (pkts: seq<seq<byte>>)
    requires EncoderWf(enc.View())
    modifies enc
    ensures EncoderWf(enc.View())
    ensures var calls := DataCalls(Chunks(data), sid);
            && enc.View() == EncoderAfter(old(enc.View()), calls) && |pkts| == |calls|
            && forall i :: 0 <= i < |pkts| ==>
                 && |Frames(old(enc.View()), calls)[i].payload| <= FRAME_DATA_MAX
                 && pkts[i] == FrameBytes(Frames(old(enc.View()), calls)[i])
  {
    hide Encode, EncoderWf, FrameBytes, Frames, EncoderAfter, Chunks;
    ghost var e0 := enc.View();
    ghost var calls := DataCalls(Chunks(data), sid);
    pkts := [];
    var rest := data;
    ghost var n := 0;
    FramesNone(e0, calls);
    while rest != []
      invariant EncoderWf(enc.View())
      invariant 0 <= n <= |calls| && |pkts| == n && Chunks(data)[n..] == Chunks(rest)
      invariant enc.View() == EncoderAfter(e0, calls[..n])
      invariant forall i :: 0 <= i < n ==>
                  && |Frames(e0, calls[..n])[i].payload| <= FRAME_DATA_MAX
                  && pkts[i] == FrameBytes(Frames(e0, calls[..n])[i])
      decreases |rest|
    {
      var size := if |rest| <= FRAME_DATA_MAX then |rest| else FRAME_DATA_MAX;
      var chunk := rest[..size];
      ChunkOff(rest);
      assert calls[n] == Call(Data, sid, 0, chunk);
      FramesSnoc(e0, calls, n);
      var pkt := enc.EncodeFrame(Data, sid, 0, chunk);
      pkts := pkts + [pkt];
      rest, n := rest[size..], n + 1;
    }
    assert calls[..n] == calls;
  }

  lemma {:induction false} FramesNone(e: Encoder, calls: seq<Call>)
    requires EncoderWf(e)
    ensures EncoderAfter(e, calls[..0]) == e && Chunks([]) == []
  {
    assert calls[..0] == [];
  }

  lemma {:induction false} ChunkOff(data: seq<byte>)
    requires data != []
    ensures var size := if |data| <= FRAME_DATA_MAX then |data| else FRAME_DATA_MAX;
            Chunks(data) == [data[..size]] + Chunks(data[size..])
  {
    if |data| <= FRAME_DATA_MAX {
      assert data[..|data|] == data && data[|data|..] == [];
    }
  }

  /** The events such a session means its peer to see. */
  function ScriptEvents(bs: seq<seq<byte>>, fin: bool, close: bool): seq<SessionEvent> {
    var cs := AllChunks(bs);
    seq(|cs|, i requires 0 <= i < |cs| => EvData(cs[i]))
    + (if fin then [EvFin] else []) + (if close then [EvClose] else [])
  }

  function DataBytes(evs: seq<SessionEvent>): seq<byte> {
    if evs == [] then []
    else
      var last := evs[|evs| - 1];
      DataBytes(evs[..|evs| - 1]) + if last.EvData? then last.data else []
  }

  // ----- The receiving side -----

  /** The server's receive loop over the decoder and registry objects, while the sessions' tasks are running; it
      returns the requests it starts a forwarding task for. */
  method ReceiveLoop(dec: MuxDecoder, reg: SessionRegistry, msgs: seq<seq<byte>>) returns (requests: seq<Request>)
    requires reg.Valid()
    modifies dec, reg
    ensures reg.Valid()
    ensures dec.View() == Receive(old(dec.View()), msgs).dec
    ensures reg.sessions == DispatchedAll(old(reg.sessions), Receive(old(dec.View()), msgs).out)
    ensures requests == Accepted(old(reg.sessions), Receive(old(dec.View()), msgs).out)
  {
    hide FeedBytes, DispatchedAll, Accepted;
    ghost var d0, ch0 := dec.View(), reg.sessions;
    requests := [];
    var i := 0;
    assert msgs[..0] == [];
    NothingDispatched(ch0);
    while i < |msgs|
      invariant 0 <= i <= |msgs| && reg.Valid()
      invariant dec.View() == Receive(d0, msgs[..i]).dec
      invariant reg.sessions == DispatchedAll(ch0, Receive(d0, msgs[..i]).out)
      invariant requests == Accepted(ch0, Receive(d0, msgs[..i]).out)
    {
      ghost var before := Receive(d0, msgs[..i]);
      assert msgs[..i + 1][..i] == msgs[..i];
      var frames := dec.Feed(msgs[i]);
      var more := DispatchFrames(reg, frames);
      requests := requests + more;
      DispatchedConcat(ch0, before.out, frames);
      AcceptedConcat(ch0, before.out, frames);
      i := i + 1;
    }
    assert msgs[..i] == msgs;
  }

  lemma {:induction false} NothingDispatched(ch: Channels)
    ensures DispatchedAll(ch, []) == ch && Accepted(ch, []) == []
  {
  }

  /** The frames one message has released. */
  method DispatchFrames(reg: SessionRegistry, frames: seq<Frame>) returns (requests: seq<Request>)
    requires reg.Valid()
    modifies reg
    ensures reg.Valid()
    ensures reg.sessions == DispatchedAll(old(reg.sessions), frames)
    ensures requests == Accepted(old(reg.sessions), frames)
  {
    hide Dispatched, DispatchedAll, Accepted;
    ghost var ch0 := reg.sessions;
    requests := [];
    var j := 0;
    assert frames[..0] == [];
    NothingDispatched(ch0);
    while j < |frames|
      invariant 0 <= j <= |frames| && reg.Valid()
      invariant reg.sessions == DispatchedAll(ch0, frames[..j])
      invariant requests == Accepted(ch0, frames[..j])
    {
      ghost var ch, f := reg.sessions, frames[j];
      assert frames[..j + 1] == frames[..j] + [f];
      DispatchedSnoc(ch0, frames[..j], f);
      AcceptedSnoc(ch0, frames[..j], f);
      var action, reply := reg.DispatchOne(frames[j], true);
      if action.OpenRequest? && reply.None? {
        requests := requests + [(action.sid, action.payload)];
      }
      j := j + 1;
    }
    assert frames[..j] == frames;
  }

  function Channel(ch: Channels, sid: u16): Option<seq<SessionEvent>> {
    if sid in ch then Some(ch[sid]) else None
  }

  lemma {:induction false} DispatchAlike(a: Channels, b: Channels, f: Frame, sid: u16)
    requires Channel(a, sid) == Channel(b, sid) && f.sid == sid
    ensures Channel(Dispatched(a, f), sid) == Channel(Dispatched(b, f), sid)
  {
  }

  lemma {:induction false} DispatchForeign(a: Channels, f: Frame, sid: u16)
    requires f.sid != sid
    ensures Channel(Dispatched(a, f), sid) == Channel(a, sid)
  {
  }

  /** A session's channel depends only on the session's own frames. */
  lemma {:induction false} ChannelIsLocal(ch: Channels, fs: seq<Frame>, sid: u16)
    ensures Channel(DispatchedAll(ch, fs), sid) == Channel(DispatchedAll(ch, OnSid(fs, sid)), sid)
    decreases |fs|
  {
    hide Dispatched, Channel;
    if fs != [] {
      var pre, f := fs[..|fs| - 1], fs[|fs| - 1];
      ChannelIsLocal(ch, pre, sid);
      var own := OnSid(pre, sid);
      if f.sid == sid {
        assert OnSid(fs, sid) == own + [f] && (own + [f])[..|own|] == own;
        DispatchAlike(DispatchedAll(ch, pre), DispatchedAll(ch, own), f, sid);
      } else {
        assert OnSid(fs, sid) == own;
        DispatchForeign(DispatchedAll(ch, pre), f, sid);
      }
    }
  }

  function EventsOf(g: seq<Frame>): seq<SessionEvent> {
    if g == [] then []
    else
      EventsOf(g[..|g| - 1]) + match EventOf(g[|g| - 1]) case Some(ev) => [ev] case None => []
  }

  /** A delivered prefix of a generation registers the session and fills its channel with the events of the frames
      after the Open. */
  lemma {:induction false} PrefixFillsChannel(ch: Channels, g: seq<Frame>, sid: u16, e: byte, n: nat)
    requires Generation(g, (sid, false), e) && sid != 0 && sid !in ch && 0 < n <= |g|
    ensures Channel(DispatchedAll(ch, g[..n]), sid) == Some(EventsOf(g[1..n]))
    decreases n
  {
    assert g[..n][..n - 1] == g[..n - 1];
    if n == 1 {
      assert g[..1] == [g[0]];
      assert DispatchedAll(ch, []) == ch;
    } else {
      PrefixFillsChannel(ch, g, sid, e, n - 1);
      assert g[1..n][..n - 2] == g[1..n - 1];
    }
  }

  lemma {:induction false} SidIsKey(fs: seq<Frame>, k: Key)
    requires forall f :: f in fs && f.sid == k.0 ==> On(f, k)
    ensures OnSid(fs, k.0) == OnKey(fs, k)
    decreases |fs|
  {
    if fs != [] {
      SidIsKey(fs[..|fs| - 1], k);
    }
  }

  lemma {:induction false} EventsOfPrefix(g: seq<Frame>, m: nat, n: nat)
    requires m <= n <= |g|
    ensures EventsOf(g[..m]) <= EventsOf(g[..n])
    decreases n
  {
    if m < n {
      EventsOfPrefix(g, m, n - 1);
      assert g[..n][..n - 1] == g[..n - 1];
    } else {
      assert g[..m] == g[..n];
    }
  }

  /** Frames that carry the calls after the Open of a script give its events. */
  lemma {:induction false} ScriptGivesEvents(g: seq<Frame>, open: seq<byte>, bs: seq<seq<byte>>, fin: bool, close: bool,
                                             sid: u16)
    requires Carries(g, ScriptCalls(open, bs, fin, close, sid))
    ensures EventsOf(g[1..]) == ScriptEvents(bs, fin, close)
  {
    hide EventsOf, ScriptCalls, ScriptEvents;
    var cs := ScriptCalls(open, bs, fin, close, sid);
    var evs := ScriptEvents(bs, fin, close);
    ScriptAligned(open, bs, fin, close, sid);
    var h := g[1..];
    forall i | 0 <= i < |h| ensures EventOf(h[i]) == Some(evs[i]) {
      assert h[i] == g[i + 1] && g[i + 1].ftype == cs[i + 1].ftype && g[i + 1].payload == cs[i + 1].payload;
    }
    EventsPointwise(h, evs);
  }

  /** Call by call, a script means its events. */
  lemma {:induction false} ScriptAligned(open: seq<byte>, bs: seq<seq<byte>>, fin: bool, close: bool, sid: u16)
    ensures var cs, evs := ScriptCalls(open, bs, fin, close, sid), ScriptEvents(bs, fin, close);
            && |cs| == |evs| + 1
            && forall i :: 0 <= i < |evs| ==>
                 match cs[i + 1].ftype
                 case Data => evs[i] == EvData(cs[i + 1].payload)
                 case Fin => evs[i] == EvFin
                 case Close => evs[i] == EvClose
                 case _ => false
  {
    hide AllChunks;
  }

  lemma {:induction false} EventsPointwise(h: seq<Frame>, evs: seq<SessionEvent>)
    requires |h| == |evs| && forall i :: 0 <= i < |h| ==> EventOf(h[i]) == Some(evs[i])
    ensures EventsOf(h) == evs
    decreases |h|
  {
    if h != [] {
      EventsPointwise(h[..|h| - 1], evs[..|h| - 1]);
    }
  }

  lemma {:induction false} DataOfPrefix(evs: seq<SessionEvent>, n: nat)
    requires n <= |evs|
    ensures DataBytes(evs[..n]) <= DataBytes(evs)
    decreases |evs|
  {
    if n < |evs| {
      DataOfPrefix(evs[..|evs| - 1], n);
      assert evs[..|evs| - 1][..n] == evs[..n];
    } else {
      assert evs[..n] == evs;
    }
  }

  lemma {:induction false} DataOfChunks(cs: seq<seq<byte>>)
    ensures DataBytes(seq(|cs|, i requires 0 <= i < |cs| => EvData(cs[i]))) == Flat(cs)
    decreases |cs|
  {
    if cs != [] {
      var pre := cs[..|cs| - 1];
      DataOfChunks(pre);
      var evs := seq(|cs|, i requires 0 <= i < |cs| => EvData(cs[i]));
      assert evs[..|cs| - 1] == seq(|pre|, i requires 0 <= i < |pre| => EvData(pre[i]));
    }
  }

  /** All the data of a script is the concatenation of its batches, and it all precedes the Fin. */
  lemma {:induction false} ScriptData(bs: seq<seq<byte>>, fin: bool, close: bool, n: nat)
    requires n <= |ScriptEvents(bs, fin, close)|
    ensures DataBytes(ScriptEvents(bs, fin, close)[..n]) <= Flat(bs)
    ensures EvFin in ScriptEvents(bs, fin, close)[..n] ==> DataBytes(ScriptEvents(bs, fin, close)[..n]) == Flat(bs)
  {
    var cs := AllChunks(bs);
    var data := seq(|cs|, i requires 0 <= i < |cs| => EvData(cs[i]));
    var evs := ScriptEvents(bs, fin, close);
    AllChunksFlat(bs);
    DataOfChunks(cs);
    assert evs[..|cs|] == data;
    if n <= |cs| {
      assert data[..n] == evs[..n];
      DataOfPrefix(data, n);
    } else {
      ControlAddsNoData(evs, |cs|, n);
    }
  }

  lemma {:induction false} ControlAddsNoData(evs: seq<SessionEvent>, m: nat, n: nat)
    requires m <= n <= |evs| && forall i :: m <= i < n ==> !evs[i].EvData?
    ensures DataBytes(evs[..n]) == DataBytes(evs[..m])
    decreases n
  {
    if m < n {
      ControlAddsNoData(evs, m, n - 1);
      assert evs[..n][..n - 1] == evs[..n - 1];
    }
  }

  // ----- A session's channel, from any decoder state -----

  /** A frame of the session: one that was sent in this life, or a frame other than an Open of another generation. */
  ghost predicate OfSession(f: Frame, g: seq<Frame>, k: Key, e: byte) {
    f in g || (On(f, k) && !f.ftype.Open? && Epoch(f) != e)
  }

  predicate IsOpenOf(f: Frame, sid: u16) {
    f.sid == sid && f.ftype.Open?
  }

  lemma {:induction false} OpenIsHead(f: Frame, g: seq<Frame>, k: Key, e: byte)
    requires Generation(g, k, e) && !k.1 && OfSession(f, g, k, e)
    ensures On(f, k) && OneSided(f, k.0) && (IsOpenOf(f, k.0) <==> f == g[0]) && (Epoch(f) == e ==> Part(f, g))
  {
    if f in g {
      var i :| 0 <= i < |g| && g[i] == f;
      GenerationIndex(g, k, e, i);
    }
  }

  /** What the decoder holds for a session has been fed for it. */
  lemma {:induction false} HeldFrom(d: Decoder, tr: seq<Frame>, k: Key)
    requires !k.1
    ensures forall f :: f in Held(Run(d, tr).dec, k.0) ==> f in Held(d, k.0) || (f in tr && On(f, k))
    decreases |tr|
  {
    hide Step;
    if tr != [] {
      HeldFrom(d, tr[..|tr| - 1], k);
      StepHeldFrom(Run(d, tr[..|tr| - 1]).dec, tr[|tr| - 1], k);
    }
  }

  lemma {:induction false} StepHeldFrom(d: Decoder, f: Frame, k: Key)
    requires !k.1
    ensures forall x :: x in Held(Step(d, f).dec, k.0) ==> x in Held(d, k.0) || (x == f && On(f, k))
  {
    hide Flush, Merge;
  }

  /** If all frames of a session are on one key, so are its deliveries. */
  lemma {:induction false} SidOutputs(d: Decoder, tr: seq<Frame>, k: Key)
    requires Wf(d) && Directed(d, k.0)
    requires forall f :: f in tr && f.sid == k.0 ==> On(f, k) && OneSided(f, k.0)
    ensures Wf(Run(d, tr).dec) && Directed(Run(d, tr).dec, k.0)
    ensures forall x :: x in Run(d, tr).out && x.sid == k.0 ==> On(x, k)
    decreases |tr|
  {
    hide Step, Wf, Directed;
    if tr != [] {
      var pre, f := tr[..|tr| - 1], tr[|tr| - 1];
      SidOutputs(d, pre, k);
      StepWf(Run(d, pre).dec, f);
      StepDirected(Run(d, pre).dec, f, k.0);
    }
  }

  /** No Open of the session among the frames, no channel. */
  lemma {:induction false} NoOpenNoChannel(ch: Channels, fs: seq<Frame>, sid: u16)
    requires sid !in ch && forall f :: f in fs ==> !IsOpenOf(f, sid)
    ensures sid !in DispatchedAll(ch, fs)
    decreases |fs|
  {
    if fs != [] {
      assert !IsOpenOf(fs[|fs| - 1], sid);
      NoOpenNoChannel(ch, fs[..|fs| - 1], sid);
    }
  }

  lemma {:induction false} OnSidFrom(fs: seq<Frame>, sid: u16)
    ensures forall f :: f in OnSid(fs, sid) ==> f in fs && f.sid == sid
    decreases |fs|
  {
    if fs != [] {
      OnSidFrom(fs[..|fs| - 1], sid);
    }
  }

  /** One life of a session, the decoder it meets, and what arrives: nothing of the session but its frames and frames of
      its other generations. */
  ghost predicate LifeArrives(d: Decoder, tr: seq<Frame>, g: seq<Frame>, k: Key, e: byte) {
    && Generation(g, k, e) && !k.1 && Wf(d) && Directed(d, k.0)
    && (forall f :: f in Held(d, k.0) ==> OfSession(f, g, k, e))
    && (forall f :: f in tr && f.sid == k.0 ==> OfSession(f, g, k, e))
  }

  /** The Open arrives at `o`, once, and no intruder after it. */
  ghost predicate OpenedAt(tr: seq<Frame>, g: seq<Frame>, k: Key, e: byte, o: nat)
    requires 0 < |g|
  {
    && o < |tr| && tr[o] == g[0] && g[0] !in tr[..o] && g[0] !in tr[o + 1..]
    && forall f :: f in tr[o + 1..] ==> !Intrudes(f, k, e)
  }

  lemma {:induction false} LifeAdmissible(d: Decoder, tr: seq<Frame>, g: seq<Frame>, k: Key, e: byte, o: nat)
    requires LifeArrives(d, tr, g, k, e) && OpenedAt(tr, g, k, e, o)
    ensures forall f :: f in tr[o + 1..] ==> Admissible(f, g, k, e)
    ensures forall f :: f in tr && f.sid == k.0 ==> On(f, k) && OneSided(f, k.0)
    ensures forall f :: f in tr[..o] ==> !IsOpenOf(f, k.0)
    ensures forall f :: f in Held(d, k.0) && Epoch(f) == e ==> Part(f, g)
  {
    forall f | f in Held(d, k.0) || (f in tr && f.sid == k.0)
      ensures On(f, k) && OneSided(f, k.0) && (IsOpenOf(f, k.0) <==> f == g[0]) && (Epoch(f) == e ==> Part(f, g))
    {
      OpenIsHead(f, g, k, e);
    }
    forall f | f in tr[o + 1..] ensures Admissible(f, g, k, e) {
      assert f in tr && f != g[0];
      if On(f, k) {
        OpenIsHead(f, g, k, e);
        assert !f.ftype.Open?;
        assert !Intrudes(f, k, e);
      }
    }
  }

  /** What the decoder delivers for a session, from any state: first frames that are no Open of it, and from its Open
      on a stretch of its generation. */
  lemma {:induction false} DeliveriesSplit(d: Decoder, tr: seq<Frame>, g: seq<Frame>, k: Key, e: byte, o: nat)
    returns (early: seq<Frame>, n: nat)
    requires LifeArrives(d, tr, g, k, e) && OpenedAt(tr, g, k, e, o)
    ensures var st := Run(d, tr).dec.states; k in st && n == st[k].next && 0 < n <= |g|
    ensures OnSid(Run(d, tr).out, k.0) == early + g[..n] && forall f :: f in early ==> !IsOpenOf(f, k.0)
  {
    hide Run, Step, OnKey, OnSid, Wf, Directed, Admissible, Held, OfSession;
    var pre, post, sid := tr[..o], tr[o + 1..], k.0;
    LifeAdmissible(d, tr, g, k, e, o);
    var b := Run(d, pre);
    HeldStaysPart(d, tr, g, k, e, o);
    SidOutputs(d, pre, k);
    OpenThenContinue(b.dec, post, g, k, e);
    SplitRun(d, tr, o);
    var l := Step(b.dec, g[0]);
    var late := l.out + Run(l.dec, post).out;
    AfterOpenOnKey(b.dec, post, g, k, e);
    SidIsKey(late, k);
    OnSidConcat(b.out, late, sid);
    DeliveredOpens(d, pre);
    OnSidFrom(b.out, sid);
    early, n := OnSid(b.out, sid), Run(d, tr).dec.states[k].next;
  }

  /** From any decoder state: the channel of a session holds the events of what its key delivers from the Open on. What
      was delivered before went to no one. */
  lemma {:induction false} ChannelAfterOpen(d: Decoder, tr: seq<Frame>, g: seq<Frame>, k: Key, e: byte, o: nat,
                                            ch0: Channels)
    requires LifeArrives(d, tr, g, k, e) && OpenedAt(tr, g, k, e, o) && k.0 != 0 && k.0 !in ch0
    ensures var st := Run(d, tr).dec.states;
            && k in st && 0 < st[k].next <= |g|
            && Channel(DispatchedAll(ch0, Run(d, tr).out), k.0) == Some(EventsOf(g[1..st[k].next]))
  {
    hide Run, OnSid, EventsOf, DispatchedAll, Wf, Directed, Held, OfSession;
    var early, n := DeliveriesSplit(d, tr, g, k, e, o);
    ChannelIsLocal(ch0, Run(d, tr).out, k.0);
    DispatchedConcat(ch0, early, g[..n]);
    NoOpenNoChannel(ch0, early, k.0);
    PrefixFillsChannel(DispatchedAll(ch0, early), g, k.0, e, n);
  }

  lemma {:induction false} HeldStaysPart(d: Decoder, tr: seq<Frame>, g: seq<Frame>, k: Key, e: byte, o: nat)
    requires LifeArrives(d, tr, g, k, e) && o <= |tr|
    ensures forall f :: f in Held(Run(d, tr[..o]).dec, k.0) && Epoch(f) == e ==> Part(f, g)
  {
    hide Run, Wf, Directed, Held, OfSession;
    HeldFrom(d, tr[..o], k);
    forall f | f in Held(Run(d, tr[..o]).dec, k.0) && Epoch(f) == e ensures Part(f, g) {
      assert OfSession(f, g, k, e);
      OpenIsHead(f, g, k, e);
    }
  }

  /** From the Open on all deliveries of the session are on its key. */
  lemma {:induction false} AfterOpenOnKey(d: Decoder, post: seq<Frame>, g: seq<Frame>, k: Key, e: byte)
    requires Generation(g, k, e) && !k.1 && Wf(d) && Directed(d, k.0)
    requires forall f :: f in post && f.sid == k.0 ==> On(f, k) && OneSided(f, k.0)
    ensures var l := Step(d, g[0]);
            forall x :: x in l.out + Run(l.dec, post).out && x.sid == k.0 ==> On(x, k)
  {
    hide Run, Step, Wf, Directed;
    StepWf(d, g[0]);
    StepDirected(d, g[0], k.0);
    SidOutputs(Step(d, g[0]).dec, post, k);
  }

  // ----- The theorems -----

  /** What the network may do to one life of a session: deliver any of its frames any number of times (its Open at most
      once) in any order, amid frames of its other generations, any messages of other sessions, and garbage; only that
      after the Open no frame of another generation arrives that compares as newer. */
  ghost predicate NetworkDelivers(msgs: seq<seq<byte>>, g: seq<Frame>, sid: u16, e: byte) {
    var tr := DecodedAll(msgs);
    && (forall f :: f in tr && f.sid == sid ==> OfSession(f, g, (sid, false), e))
    && (forall i, j :: 0 <= i < j < |tr| && IsOpenOf(tr[i], sid) ==>
          !IsOpenOf(tr[j], sid) && !Intrudes(tr[j], (sid, false), e))
  }

  /** The receiving side when the life begins: any state of the decoder, with nothing held that claims to be of this
      life and is not; and no channel under the id. */
  ghost predicate ReadyFor(d: Decoder, ch: Channels, g: seq<Frame>, sid: u16, e: byte) {
    && Wf(d) && Directed(d, sid) && sid !in ch
    && forall f :: f in Held(d, sid) ==> OfSession(f, g, (sid, false), e)
  }

  lemma {:induction false} FreshIsReady(ch: Channels, g: seq<Frame>, sid: u16, e: byte)
    requires sid !in ch
    ensures ReadyFor(FRESH, ch, g, sid, e)
  {
    FreshInvariants();
  }

  lemma {:induction false} OpenSplits(d: Decoder, msgs: seq<seq<byte>>, g: seq<Frame>, sid: u16, e: byte, ch: Channels)
    returns (o: nat)
    requires Generation(g, (sid, false), e) && ReadyFor(d, ch, g, sid, e) && NetworkDelivers(msgs, g, sid, e)
    ensures var tr := DecodedAll(msgs);
            && LifeArrives(d, tr, g, (sid, false), e)
            && (if g[0] in tr then OpenedAt(tr, g, (sid, false), e, o) else forall f :: f in tr ==> !IsOpenOf(f, sid))
            && (g[0] in tr <==> exists f :: f in tr && IsOpenOf(f, sid))
  {
    hide DecodedAll, Wf, Directed, Held, OfSession;
    var tr, k := DecodedAll(msgs), (sid, false);
    assert IsOpenOf(g[0], sid);
    forall f | f in tr && f.sid == sid ensures IsOpenOf(f, sid) <==> f == g[0] {
      OpenIsHead(f, g, k, e);
    }
    o := OpenAt(tr, g[0]);
    if g[0] in tr {
      forall f | f in tr[o + 1..] ensures f != g[0] && !Intrudes(f, k, e) {
        var j :| o < j < |tr| && tr[j] == f;
      }
    }
  }

  /** THEOREM (end to end). For one life of a TCP session, the first one of its id or a later one, under any arrival
      order, loss, duplication and interleaving, and from any state of the receiving decoder: the events that reach
      its channel are a prefix of the Data chunks, Fin and Close that were sent; their data is a prefix of the bytes
      given to the batches, and all of them once Fin has arrived; and there is a channel if and only if the Open has
      arrived. */
  lemma {:induction false} SessionEndToEnd(d: Decoder, e: Encoder, calls: seq<Call>, sid: u16,
                                           open: seq<byte>, bs: seq<seq<byte>>, fin: bool, close: bool,
                                           msgs: seq<seq<byte>>, ch0: Channels)
    requires EncoderWf(e) && !e.acceptor && sid != 0 && OneLife(calls, sid)
    requires SessionCalls(calls, sid) == ScriptCalls(open, bs, fin, close, sid)
    requires ReadyFor(d, ch0, OnKey(Frames(e, calls), (sid, false)), sid, EpochAt(e.epochCtr))
    requires NetworkDelivers(msgs, OnKey(Frames(e, calls), (sid, false)), sid, EpochAt(e.epochCtr))
    ensures var ch := DispatchedAll(ch0, Receive(d, msgs).out);
            && (sid in ch <==> exists f :: f in DecodedAll(msgs) && IsOpenOf(f, sid))
            && (sid in ch ==>
                  && ch[sid] <= ScriptEvents(bs, fin, close)
                  && DataBytes(ch[sid]) <= Flat(bs)
                  && (EvFin in ch[sid] ==> DataBytes(ch[sid]) == Flat(bs)))
  {
    hide Run, OnKey, OnSid, Frames, EventsOf, DispatchedAll, DataBytes, EncoderWf, ScriptCalls, ScriptEvents,
         SessionCalls, Receive, DecodedAll, OneLife, Flat, LifeArrives, OpenedAt, NetworkDelivers, Wf, Directed,
         OfSession;
    var k, ep, tr := (sid, false), EpochAt(e.epochCtr), DecodedAll(msgs);
    var g := OnKey(Frames(e, calls), k);
    LifeIsGeneration(e, calls, sid);
    ReceiveIsRun(d, msgs);
    var o := OpenSplits(d, msgs, g, sid, ep, ch0);
    if g[0] in tr {
      ChannelAfterOpen(d, tr, g, k, ep, o, ch0);
      var n := Run(d, tr).dec.states[k].next;
      EventsUpTo(g, n, open, bs, fin, close, sid);
      var m := |EventsOf(g[1..n])|;
      assert EventsOf(g[1..n]) == ScriptEvents(bs, fin, close)[..m];
      ScriptData(bs, fin, close, m);
    } else {
      DeliveredOpens(d, tr);
      NoOpenNoChannel(ch0, Run(d, tr).out, sid);
    }
  }

  // ----- What the server is asked to connect to -----

  /** The requests of one session. */
  function RequestsOf(rs: seq<Request>, sid: u16): seq<Request> {
    Filter(rs, (r: Request) => r.0 == sid)
  }

  lemma {:induction false} RequestsSnoc(rs: seq<Request>, more: seq<Request>, sid: u16)
    requires |more| <= 1
    ensures RequestsOf(rs + more, sid) == RequestsOf(rs, sid) + if more != [] && more[0].0 == sid then more else []
  {
    FilterConcat(rs, more, (r: Request) => r.0 == sid);
    if more != [] {
      assert more == [more[0]];
      FilterOne(more[0], (r: Request) => r.0 == sid);
    }
  }

  /** A session's requests depend only on its own frames. */
  lemma {:induction false} RequestsAreLocal(ch: Channels, fs: seq<Frame>, sid: u16)
    ensures RequestsOf(Accepted(ch, fs), sid) == RequestsOf(Accepted(ch, OnSid(fs, sid)), sid)
    decreases |fs|
  {
    hide RequestsOf, DispatchedAll, OnSid, Accepted, Asked;
    if fs == [] {
      NoneOnSid(sid);
    } else {
      var pre, f := fs[..|fs| - 1], fs[|fs| - 1];
      RequestsAreLocal(ch, pre, sid);
      var own := OnSid(pre, sid);
      OnSidConcat(pre, [f], sid);
      OnSidUniform([f], f.sid, sid);
      assert pre + [f] == fs;
      AcceptedSnoc(ch, pre, f);
      AskedOnce(DispatchedAll(ch, pre), f);
      RequestsSnoc(Accepted(ch, pre), Asked(DispatchedAll(ch, pre), f), sid);
      if f.sid == sid {
        AcceptedSnoc(ch, own, f);
        ChannelIsLocal(ch, pre, sid);
        AskedAlike(DispatchedAll(ch, pre), DispatchedAll(ch, own), f);
        RequestsSnoc(Accepted(ch, own), Asked(DispatchedAll(ch, own), f), sid);
      } else {
        assert OnSid(fs, sid) == own;
      }
    }
  }

  lemma {:induction false} AskedOnce(ch: Channels, f: Frame)
    ensures |Asked(ch, f)| <= 1 && (Asked(ch, f) != [] ==> f.ftype.Open? && Asked(ch, f) == [(f.sid, f.payload)])
  {
  }

  lemma {:induction false} AskedAlike(a: Channels, b: Channels, f: Frame)
    requires Channel(a, f.sid) == Channel(b, f.sid)
    ensures Asked(a, f) == Asked(b, f)
  {
  }

  lemma {:induction false} NoneOnSid(sid: u16)
    ensures OnSid([], sid) == []
  {
  }

  lemma {:induction false} NoOpenNoRequest(ch: Channels, fs: seq<Frame>, sid: u16)
    requires forall f :: f in fs ==> !IsOpenOf(f, sid)
    ensures RequestsOf(Accepted(ch, fs), sid) == []
    decreases |fs|
  {
    hide RequestsOf, DispatchedAll, Asked;
    if fs == [] {
      NoRequests(sid);
    } else {
      var pre, f := fs[..|fs| - 1], fs[|fs| - 1];
      assert !IsOpenOf(f, sid);
      NoOpenNoRequest(ch, pre, sid);
      AskedOnce(DispatchedAll(ch, pre), f);
      RequestsSnoc(Accepted(ch, pre), Asked(DispatchedAll(ch, pre), f), sid);
    }
  }

  lemma {:induction false} NoRequests(sid: u16)
    ensures RequestsOf([], sid) == []
  {
  }

  /** A delivered stretch of a generation, on a free id, is one request: that of its Open. */
  lemma {:induction false} StretchAsksOnce(ch: Channels, g: seq<Frame>, sid: u16, e: byte, n: nat)
    requires Generation(g, (sid, false), e) && sid != 0 && sid !in ch && 0 < n <= |g|
    ensures RequestsOf(Accepted(ch, g[..n]), sid) == [(sid, g[0].payload)]
  {
    hide RequestsOf, DispatchedAll;
    var first, rest := [g[0]], g[1..n];
    assert g[..n] == first + rest;
    AcceptedConcat(ch, first, rest);
    forall f | f in rest ensures !IsOpenOf(f, sid) {
      var i :| 1 <= i < n && g[i] == f;
    }
    NoOpenNoRequest(DispatchedAll(ch, first), rest, sid);
    assert Accepted(ch, first) == [(sid, g[0].payload)] by { FirstAsks(ch, g[0]); }
    FilterConcat(Accepted(ch, first), Accepted(DispatchedAll(ch, first), rest), (r: Request) => r.0 == sid);
    RequestsJoin(Accepted(ch, first), Accepted(DispatchedAll(ch, first), rest), sid);
    RequestsSnoc([], [(sid, g[0].payload)], sid);
    NoRequests(sid);
    assert [] + [(sid, g[0].payload)] == [(sid, g[0].payload)];
  }

  lemma {:induction false} RequestsJoin(a: seq<Request>, b: seq<Request>, sid: u16)
    ensures RequestsOf(a + b, sid) == RequestsOf(a, sid) + RequestsOf(b, sid)
  {
    FilterConcat(a, b, (r: Request) => r.0 == sid);
  }

  lemma {:induction false} FirstAsks(ch: Channels, f: Frame)
    requires f.ftype.Open? && f.sid != 0 && f.sid !in ch
    ensures Accepted(ch, [f]) == [(f.sid, f.payload)]
  {
    var one := [f];
    assert one[..0] == [];
    assert DispatchedAll(ch, one[..0]) == ch && Accepted(ch, one[..0]) == [];
  }

  /** What the server is asked for by a life of a session whose Open has arrived. */
  lemma {:induction false} LifeAsksOnce(d: Decoder, tr: seq<Frame>, g: seq<Frame>, k: Key, e: byte, o: nat,
                                        ch0: Channels)
    requires LifeArrives(d, tr, g, k, e) && OpenedAt(tr, g, k, e, o) && k.0 != 0 && k.0 !in ch0
    ensures RequestsOf(Accepted(ch0, Run(d, tr).out), k.0) == [(k.0, g[0].payload)]
  {
    hide Run, Step, OnKey, OnSid, Wf, Directed, DispatchedAll, Accepted, RequestsOf, Admissible, Held, OfSession;
    var sid := k.0;
    var early, n := DeliveriesSplit(d, tr, g, k, e, o);
    RequestsAreLocal(ch0, Run(d, tr).out, sid);
    AcceptedConcat(ch0, early, g[..n]);
    NoOpenNoRequest(ch0, early, sid);
    NoOpenNoChannel(ch0, early, sid);
    RequestsJoin(Accepted(ch0, early), Accepted(DispatchedAll(ch0, early), g[..n]), sid);
    StretchAsksOnce(DispatchedAll(ch0, early), g, sid, e, n);
    assert [] + [(sid, g[0].payload)] == [(sid, g[0].payload)];
  }

  /** THEOREM (target). A life of a session, the first one of its id or a later one, asks the server to connect
      exactly once if its Open arrives, with the payload the client gave to the Open, and otherwise not at all. */
  lemma {:induction false} OpenCarriesTarget(d: Decoder, e: Encoder, calls: seq<Call>, sid: u16, t: Target,
                                             bs: seq<seq<byte>>, fin: bool, close: bool,
                                             msgs: seq<seq<byte>>, ch0: Channels)
    requires EncoderWf(e) && !e.acceptor && sid != 0 && OneLife(calls, sid) && |t.host| <= 255
    requires SessionCalls(calls, sid) == ScriptCalls(OpenPayload(t), bs, fin, close, sid)
    requires ReadyFor(d, ch0, OnKey(Frames(e, calls), (sid, false)), sid, EpochAt(e.epochCtr))
    requires NetworkDelivers(msgs, OnKey(Frames(e, calls), (sid, false)), sid, EpochAt(e.epochCtr))
    ensures RequestsOf(Accepted(ch0, Receive(d, msgs).out), sid)
            == if exists f :: f in DecodedAll(msgs) && IsOpenOf(f, sid) then [(sid, OpenPayload(t))] else []
    ensures ParseOpen(OpenPayload(t)) == Some(t)
  {
    hide Run, OnKey, OnSid, Frames, DispatchedAll, EncoderWf, Accepted, RequestsOf, OpenPayload, ParseOpen,
         SessionCalls, Receive, DecodedAll, OneLife, LifeArrives, OpenedAt, NetworkDelivers, Wf, Directed, OfSession;
    var k, ep, tr := (sid, false), EpochAt(e.epochCtr), DecodedAll(msgs);
    var g := OnKey(Frames(e, calls), k);
    LifeIsGeneration(e, calls, sid);
    ReceiveIsRun(d, msgs);
    ParseOpenExact(OpenPayload(t), t);
    var o := OpenSplits(d, msgs, g, sid, ep, ch0);
    if g[0] in tr {
      LifeAsksOnce(d, tr, g, k, ep, o, ch0);
      assert g[0].payload == ScriptCalls(OpenPayload(t), bs, fin, close, sid)[0].payload == OpenPayload(t);
    } else {
      DeliveredOpens(d, tr);
      NoOpenNoRequest(ch0, Run(d, tr).out, sid);
    }
  }

  /** THEOREM (from socket to channel). What the peer's channel receives of a client session, run by the forward loop
      over whatever happened to it, is a prefix of the bytes the local side delivered before its end of file, pre-read
      bytes first; and exactly those bytes once the Fin is there. */
  lemma {:induction false} ForwardedEndToEnd(d: Decoder, e: Encoder, calls: seq<Call>, sid: u16, open: seq<byte>,
                                             up: seq<Op>, first: seq<byte>, evs: seq<Happening>, close: bool,
                                             msgs: seq<seq<byte>>, ch0: Channels)
    requires EncoderWf(e) && !e.acceptor && sid != 0 && OneLife(calls, sid) && Uploads(up, first, evs)
    requires SessionCalls(calls, sid) == OpsCalls([SendOpen(open)] + up + (if close then [SendClose] else []), sid)
    requires ReadyFor(d, ch0, OnKey(Frames(e, calls), (sid, false)), sid, EpochAt(e.epochCtr))
    requires NetworkDelivers(msgs, OnKey(Frames(e, calls), (sid, false)), sid, EpochAt(e.epochCtr))
    ensures var ch := DispatchedAll(ch0, Receive(d, msgs).out);
            sid in ch ==>
              && DataBytes(ch[sid]) <= first + ReadUntilEof(evs)
              && (EvFin in ch[sid] ==> SawEof(evs) && DataBytes(ch[sid]) == first + ReadUntilEof(evs))
              && (EvClose in ch[sid] ==> close)
  {
    hide OneLife, NetworkDelivers, OnKey, Frames, SessionCalls, OpsCalls, DispatchedAll, Receive, DataBytes, Flat,
         ReadUntilEof, SawEof, EncoderWf, Upstream, AllChunks, ReadyFor;
    var bs :| up == Upstream(bs, SawEof(evs)) && Flat(bs) == first + ReadUntilEof(evs);
    OpsAreScript(open, bs, SawEof(evs), close, sid);
    SessionEndToEnd(d, e, calls, sid, open, bs, SawEof(evs), close, msgs, ch0);
  }

  /** A delivered stretch gives one event for every frame behind the Open. */
  lemma {:induction false} EventsExactly(g: seq<Frame>, n: nat, open: seq<byte>, bs: seq<seq<byte>>, fin: bool,
                                         close: bool, sid: u16)
    requires 0 < n <= |g| && Carries(g, ScriptCalls(open, bs, fin, close, sid))
    ensures EventsOf(g[1..n]) == ScriptEvents(bs, fin, close) <==> n == |g|
  {
    hide EventsOf, ScriptCalls, ScriptEvents;
    ScriptGivesEvents(g, open, bs, fin, close, sid);
    ScriptAligned(open, bs, fin, close, sid);
    EventsBounded(g[1..n]);
    assert n == |g| ==> g[1..n] == g[1..];
  }

  lemma {:induction false} EventsBounded(h: seq<Frame>)
    ensures |EventsOf(h)| <= |h|
    decreases |h|
  {
    if h != [] {
      EventsBounded(h[..|h| - 1]);
    }
  }

  /** THEOREM (nothing is missing, first life). If every frame of the session has arrived and the traffic fits the
      decoder's queues, its channel holds everything that was sent. */
  lemma {:induction false} SessionCompletes(e: Encoder, calls: seq<Call>, sid: u16,
                                            open: seq<byte>, bs: seq<seq<byte>>, fin: bool, close: bool,
                                            msgs: seq<seq<byte>>, ch0: Channels)
    requires EncoderWf(e) && !e.acceptor && sid != 0 && OneLife(calls, sid)
    requires SessionCalls(calls, sid) == ScriptCalls(open, bs, fin, close, sid)
    requires sid !in ch0
    requires var g := OnKey(Frames(e, calls), (sid, false));
             && NetworkDelivers(msgs, g, sid, EpochAt(e.epochCtr)) && 0 < |g|
             && (forall f :: f in DecodedAll(msgs) && f.sid == sid ==> f in g || Leftover(f, EpochAt(e.epochCtr)))
             && WithinQueues(DecodedAll(msgs), g, (sid, false), EpochAt(e.epochCtr))
             && forall i :: 0 <= i < |g| ==> g[i] in DecodedAll(msgs)
    ensures var ch := DispatchedAll(ch0, Receive(FRESH, msgs).out);
            && sid in ch && ch[sid] == ScriptEvents(bs, fin, close) && DataBytes(ch[sid]) == Flat(bs)
  {
    hide Run, OnKey, OnSid, Frames, EventsOf, DispatchedAll, DataBytes, EncoderWf, ScriptCalls, ScriptEvents,
         SessionCalls, Receive, DecodedAll, OneLife, Flat, LifeArrives, Wf, Directed, OfSession,
         WithinQueues, OneGeneration, ReadyFor, Leftover;
    var k, ep, tr := (sid, false), EpochAt(e.epochCtr), DecodedAll(msgs);
    var g := OnKey(Frames(e, calls), k);
    LifeIsGeneration(e, calls, sid);
    ReceiveIsRun(FRESH, msgs);
    FreshIsReady(ch0, g, sid, ep);
    var o := OpenSplits(FRESH, msgs, g, sid, ep, ch0);
    assert g[0] in tr;
    ChannelAfterOpen(FRESH, tr, g, k, ep, o, ch0);
    IsOneGeneration(tr, g, k, ep);
    WholeGeneration(tr, g, k, ep);
    FromOpen(tr, g, k, ep, o);
    EventsExactly(g, Run(FRESH, tr).dec.states[k].next, open, bs, fin, close, sid);
    ScriptDataAll(bs, fin, close);
  }

  lemma {:induction false} IsOneGeneration(tr: seq<Frame>, g: seq<Frame>, k: Key, e: byte)
    requires Generation(g, k, e) && !k.1
    requires forall f :: f in tr && f.sid == k.0 ==> OfSession(f, g, k, e) && (f in g || Leftover(f, e))
    requires forall i, j :: 0 <= i < j < |tr| && IsOpenOf(tr[i], k.0) ==> !IsOpenOf(tr[j], k.0)
    ensures OneGeneration(tr, g, k, e)
  {
    forall f | f in tr && f.sid == k.0 ensures OneSided(f, k.0) && (Part(f, g) || Leftover(f, e)) {
      OpenIsHead(f, g, k, e);
      if f in g {
        var i :| 0 <= i < |g| && g[i] == f;
        GenerationIndex(g, k, e, i);
      }
    }
    assert IsOpenOf(g[0], k.0);
  }

  /** THEOREM (nothing is missing, later life, exact). When the id has a generation on record, whatever its epoch, and
      every frame of the new life arrives once and fits the buffer, the channel holds everything that was sent if and
      only if the Open is the first of its frames to arrive. */
  lemma {:induction false} LaterLifeCompletesIff(d: Decoder, e: Encoder, calls: seq<Call>, sid: u16,
                                                 open: seq<byte>, bs: seq<seq<byte>>, fin: bool, close: bool,
                                                 msgs: seq<seq<byte>>, ch0: Channels)
    requires EncoderWf(e) && !e.acceptor && sid != 0 && OneLife(calls, sid)
    requires SessionCalls(calls, sid) == ScriptCalls(open, bs, fin, close, sid)
    requires Wf(d) && Directed(d, sid) && (sid, false) in d.states && Held(d, sid) == [] && sid !in ch0
    requires var g := OnKey(Frames(e, calls), (sid, false));
             && (forall f :: f in DecodedAll(msgs) && f.sid == sid ==> f in g)
             && EachOnce(DecodedAll(msgs), g, (sid, false))
             && Roomy(DecodedAll(msgs), {}, 0, (sid, false), EpochAt(e.epochCtr))
    ensures var ch := DispatchedAll(ch0, Receive(d, msgs).out); var on := OnKey(DecodedAll(msgs), (sid, false));
            && sid in ch && on != []
            && (ch[sid] == ScriptEvents(bs, fin, close) <==> on[0].ftype.Open?)
  {
    hide Run, OnKey, OnSid, Frames, EventsOf, DispatchedAll, EncoderWf, ScriptCalls, ScriptEvents, Roomy,
         SessionCalls, Receive, DecodedAll, OneLife, LifeArrives, Wf, Directed, EachOnce, NewTraffic;
    var k, ep, tr := (sid, false), EpochAt(e.epochCtr), DecodedAll(msgs);
    var g := OnKey(Frames(e, calls), k);
    LifeIsGeneration(e, calls, sid);
    ReceiveIsRun(d, msgs);
    OnlyNewArrives(d, tr, g, k, ep);
    var o := OpenAt(tr, g[0]);
    ChannelAfterOpen(d, tr, g, k, ep, o, ch0);
    var n := Run(d, tr).dec.states[k].next;
    EventsExactly(g, n, open, bs, fin, close, sid);
    LaterNextIff(d, tr, g, k, ep, o);
    assert OnKey(tr, k)[0] == g[0] <==> OnKey(tr, k)[0].ftype.Open? by { OpenIsHeadOf(tr, g, k, ep); }
  }

  lemma {:induction false} OpenIsHeadOf(tr: seq<Frame>, g: seq<Frame>, k: Key, e: byte)
    requires Generation(g, k, e) && !k.1 && OnKey(tr, k) != [] && forall f :: f in tr && f.sid == k.0 ==> f in g
    ensures OnKey(tr, k)[0] == g[0] <==> OnKey(tr, k)[0].ftype.Open?
  {
    hide OnKey;
    OnKeyFrom(tr, k);
    assert OnKey(tr, k)[0] in OnKey(tr, k);
    OpenIsHead(OnKey(tr, k)[0], g, k, e);
  }

  lemma {:induction false} OnlyNewArrives(d: Decoder, tr: seq<Frame>, g: seq<Frame>, k: Key, e: byte)
    requires Generation(g, k, e) && !k.1 && Wf(d) && Directed(d, k.0) && Held(d, k.0) == []
    requires (forall f :: f in tr && f.sid == k.0 ==> f in g) && EachOnce(tr, g, k)
    ensures LifeArrives(d, tr, g, k, e) && NewTraffic(tr, g, k) && g[0] in tr
    ensures forall o :: 0 <= o < |tr| && tr[o] == g[0] && g[0] !in tr[..o] ==> OpenedAt(tr, g, k, e, o)
  {
    hide Wf, Directed;
    forall f | f in tr && f.sid == k.0 ensures OneSided(f, k.0) && Part(f, g) && Epoch(f) == e {
      assert OfSession(f, g, k, e);
      OpenIsHead(f, g, k, e);
      var i :| 0 <= i < |g| && g[i] == f;
      GenerationIndex(g, k, e, i);
    }
    assert g[0] in tr;
  }

  lemma {:induction false} LaterNextIff(d: Decoder, tr: seq<Frame>, g: seq<Frame>, k: Key, e: byte, o: nat)
    requires Generation(g, k, e) && !k.1 && Wf(d) && Directed(d, k.0) && k in d.states && Held(d, k.0) == []
    requires NewTraffic(tr, g, k) && EachOnce(tr, g, k) && Roomy(tr, {}, 0, k, e)
    requires o < |tr| && tr[o] == g[0] && g[0] !in tr[..o]
    ensures OnKey(tr, k) != [] && k in Run(d, tr).dec.states
    ensures Run(d, tr).dec.states[k].next == |g| <==> OnKey(tr, k)[0] == g[0]
  {
    hide Run, Step, OnKey, Wf, Directed, Roomy, NewTraffic;
    assert On(g[0], k) && g[0].ftype.Open?;
    OnKeyMember(tr, g[0], k);
    var i := FirstOn(tr, k);
    AroundReuse(d, tr, g, k, e, o);
    if tr[i] == g[0] {
      assert i == o;
      OpenFirstDeliversAll(d, tr, g, k, e, o);
      forall f | f in tr[..o] ensures OneSided(f, k.0) && !On(f, k) {
        NewIsOneSided(tr, g, k, f);
      }
      QuietRun(d, tr[..o], k);
    } else {
      OvertakenIsLost(d, tr, g, k, e, i, o);
    }
  }

  lemma {:induction false} NewIsOneSided(tr: seq<Frame>, g: seq<Frame>, k: Key, f: Frame)
    requires 0 < |g| && NewTraffic(tr, g, k) && f in tr
    ensures OneSided(f, k.0)
  {
  }

  lemma {:induction false} EventsUpTo(g: seq<Frame>, n: nat, open: seq<byte>, bs: seq<seq<byte>>, fin: bool,
                                      close: bool, sid: u16)
    requires 0 < n <= |g| && Carries(g, ScriptCalls(open, bs, fin, close, sid))
    ensures EventsOf(g[1..n]) <= ScriptEvents(bs, fin, close)
  {
    hide EventsOf, ScriptCalls, ScriptEvents;
    ScriptGivesEvents(g, open, bs, fin, close, sid);
    var h := g[1..];
    EventsOfPrefix(h, n - 1, |h|);
    assert h[..n - 1] == g[1..n] && h[..|h|] == h;
  }

  lemma {:induction false} ScriptDataAll(bs: seq<seq<byte>>, fin: bool, close: bool)
    ensures DataBytes(ScriptEvents(bs, fin, close)) == Flat(bs)
  {
    var cs := AllChunks(bs);
    var data := seq(|cs|, i requires 0 <= i < |cs| => EvData(cs[i]));
    var evs := ScriptEvents(bs, fin, close);
    AllChunksFlat(bs);
    DataOfChunks(cs);
    assert evs[..|cs|] == data && evs[..|evs|] == evs;
    ControlAddsNoData(evs, |cs|, |evs|);
  }
}
