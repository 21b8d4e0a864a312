/** Reuse of a session id in the acceptor direction, where no Open separates the sessions (src/tunnel/multiplex.rs). */
module AcceptorReuse {
  import opened Bytes
  import opened MuxFrame
  import opened MuxDecoder
  import opened Reordering
  import opened Generations
  import opened MuxEncoder
  import opened Transparency

  // ----- One epoch for all sessions of an id -----

  /** Any calls of an acceptor: it opens no session, and an id is used for at most 2^24 - 1 ordered frames. */
  ghost predicate AcceptorCalls(calls: seq<Call>, sid: u16) {
    && |SessionCalls(calls, sid)| <= SEQ_MASK
    && forall j :: 0 <= j < |calls| ==>
         |calls[j].payload| <= FRAME_DATA_MAX && (calls[j].sid == sid ==> !calls[j].ftype.Open?)
  }

  /** All frames stamped for the id are one generation, and the encoder will go on with it. */
  ghost predicate OneEpoch(e: Encoder, g: seq<Frame>, sid: u16) {
    if g == [] then sid !in e.sessions
    else
      && sid in e.sessions && e.sessions[sid].seqno == |g|
      && Generation(g, (sid, true), e.sessions[sid].epoch)
  }

  /** THEOREM (one epoch per id). An acceptor's encoder stamps all frames of an id, whatever sessions they belong to, as
      one generation: nothing in them tells an ended session from the next one on the same id. */
  lemma {:induction false} AcceptorKeepsEpoch(e: Encoder, calls: seq<Call>, sid: u16)
    requires EncoderWf(e) && e.acceptor && sid !in e.sessions && AcceptorCalls(calls, sid)
    ensures OneEpoch(EncoderAfter(e, calls), OnKey(Frames(e, calls), (sid, true)), sid)
    ensures Carries(OnKey(Frames(e, calls), (sid, true)), SessionCalls(calls, sid))
    decreases |calls|
  {
    hide Encode, Generation, EncoderWf, On, Frames, EncoderAfter, OnKey, SessionCalls;
    if calls == [] {
      NoFrames(e, calls);
      assert calls[..0] == calls;
      NothingOn((sid, true), sid);
    } else {
      var n := |calls| - 1;
      var pre, c := calls[..n], calls[n];
      var b := EncoderAfter(e, pre);
      var f := Encode(b, c).frame;
      AcceptorFixed(e, pre);
      FramesSnoc(e, calls, n);
      assert calls[..n + 1] == calls == pre + [c];
      assert AcceptorCalls(pre, sid) by { FewerCalls(pre, c, sid); }
      AcceptorKeepsEpoch(e, pre, sid);
      var g := OnKey(Frames(e, pre), (sid, true));
      OnKeyConcat(Frames(e, pre), [f], (sid, true));
      SessionCallsSnoc(pre, c, sid);
      if UsesSessionOrder(c.ftype) && c.sid == sid {
        if g == [] {
          FirstStamp(b, c);
          assert g + [f] == [f];
        } else {
          NextOfLife(b, c, g, b.sessions[sid].epoch);
        }
        OnKeyAll([f], (sid, true));
      } else {
        OtherCallsDoNotMatter(b, c, sid);
        OnKeyNone([f], (sid, true));
        assert g + [] == g;
      }
    }
  }

  lemma {:induction false} NothingOn(k: Key, sid: u16)
    ensures OnKey([], k) == [] && SessionCalls([], sid) == []
  {
  }

  lemma {:induction false} SessionCallsSnoc(pre: seq<Call>, c: Call, sid: u16)
    ensures SessionCalls(pre + [c], sid)
            == SessionCalls(pre, sid) + if UsesSessionOrder(c.ftype) && c.sid == sid then [c] else []
  {
    var p := (x: Call) => UsesSessionOrder(x.ftype) && x.sid == sid;
    FilterConcat(pre, [c], p);
    FilterOne(c, p);
  }

  lemma {:induction false} FewerCalls(pre: seq<Call>, c: Call, sid: u16)
    requires AcceptorCalls(pre + [c], sid)
    ensures AcceptorCalls(pre, sid)
  {
    hide SessionCalls;
    SessionCallsSnoc(pre, c, sid);
    assert forall j :: 0 <= j < |pre| ==> (pre + [c])[j] == pre[j];
  }

  lemma {:induction false} FirstStamp(b: Encoder, c: Call)
    requires EncoderWf(b) && b.acceptor && UsesSessionOrder(c.ftype) && !c.ftype.Open? && c.sid !in b.sessions
    requires |c.payload| <= FRAME_DATA_MAX
    ensures var r := Encode(b, c);
            && r.frame.ftype == c.ftype && r.frame.payload == c.payload && On(r.frame, (c.sid, true))
            && OneEpoch(r.enc, [r.frame], c.sid)
  {
    StampFields(b, c);
    var f := Encode(b, c).frame;
    assert f.seqno == Epoch(f) * EPOCH_UNIT;
  }

  /** The frames of the first calls come first. */
  lemma {:induction false} FramesPrefix(e: Encoder, calls: seq<Call>, n: nat)
    requires EncoderWf(e) && n <= |calls|
    ensures Frames(e, calls[..n]) == Frames(e, calls)[..n]
    decreases |calls|
  {
    if n < |calls| {
      var pre := calls[..|calls| - 1];
      FramesPrefix(e, pre, n);
      assert pre[..n] == calls[..n];
    } else {
      assert calls[..n] == calls;
    }
  }

  lemma {:induction false} OldComeFirst(e: Encoder, first: seq<Call>, second: seq<Call>, k: Key)
    requires EncoderWf(e)
    ensures OnKey(Frames(e, first), k) <= OnKey(Frames(e, first + second), k)
  {
    hide Frames, OnKey;
    var all := Frames(e, first + second);
    FramesPrefix(e, first + second, |first|);
    assert (first + second)[..|first|] == first;
    OnKeyConcat(all[..|first|], all[|first|..], k);
    assert all == all[..|first|] + all[|first|..];
  }

  // ----- When late frames reach the next session -----

  /** A step delivers on the key if and only if its frame is the expected one. */
  lemma {:induction false} StepAdvances(d: Decoder, f: Frame, g: seq<Frame>, k: Key, e: byte)
    requires Generation(g, k, e) && k in d.states && InGeneration(d.states[k], g, e) && Admissible(f, g, k, e)
    ensures k in Step(d, f).dec.states
    ensures Step(d, f).dec.states[k].next > d.states[k].next <==>
            d.states[k].next < |g| && f == g[d.states[k].next]
    ensures Step(d, f).dec.states[k].next >= d.states[k].next
  {
    hide Flush, Merge, StepOpen, StepHold, StepBaseline, Generation;
    var st := d.states[k];
    if st.next < |g| {
      GenerationIndex(g, k, e, st.next);
      assert On(g[st.next], k) by { OnItsKey(g, k, e, st.next); }
    }
    if !On(f, k) {
      StepFrame(d, f, k);
    } else if Part(f, g) {
      GenerationIndex(g, k, e, SessionSeq(f));
      if SessionSeq(f) == st.next {
        DeliverInside(st, g, e);
      }
    } else {
      LeftoverDropped(d, f, k);
    }
  }

  lemma {:induction false} OnItsKey(g: seq<Frame>, k: Key, e: byte, i: nat)
    requires Generation(g, k, e) && i < |g|
    ensures On(g[i], k)
  {
  }

  /** Over every continuation, something is delivered on the key if and only if the expected frame arrives. */
  lemma {:induction false} AdvancesIff(d: Decoder, tr: seq<Frame>, g: seq<Frame>, k: Key, e: byte)
    requires Generation(g, k, e) && Wf(d) && Directed(d, k.0) && k in d.states && InGeneration(d.states[k], g, e)
    requires forall f :: f in tr ==> Admissible(f, g, k, e)
    ensures k in Run(d, tr).dec.states
    ensures Run(d, tr).dec.states[k].next > d.states[k].next <==>
            d.states[k].next < |g| && g[d.states[k].next] in tr
    decreases |tr|
  {
    hide Step, Wf, Directed, Generation, Admissible;
    if tr != [] {
      var pre, f := tr[..|tr| - 1], tr[|tr| - 1];
      AdvancesIff(d, pre, g, k, e);
      ContinuesInOrder(d, pre, g, k, e);
      StepAdvances(Run(d, pre).dec, f, g, k, e);
      assert forall x :: x in tr <==> x in pre || x == f;
    }
  }

  /** Which of the first `n` frames of a generation are among the deliveries of a stretch. */
  lemma {:induction false} StretchReaches(out: seq<Frame>, g: seq<Frame>, k: Key, e: byte, m: nat, last: nat, n: nat)
    requires Generation(g, k, e) && m <= last <= |g| && n <= |g| && OnKey(out, k) == g[m..last]
    ensures (exists f :: f in g[..n] && f in out) <==> m < n && m < last
  {
    hide OnKey;
    if m < n && m < last {
      assert g[m] == g[m..last][0] && g[m] == g[..n][m];
      OnKeyFrom(out, k);
    }
    forall f | f in g[..n] && f in out ensures m < n && m < last {
      var i :| 0 <= i < n && g[i] == f;
      OnKeyMember(out, f, k);
      var j :| 0 <= j < last - m && g[m..last][j] == f;
      GenerationIndex(g, k, e, i);
      GenerationIndex(g, k, e, m + j);
    }
  }

  /** What may arrive of an acceptor's id: frames the encoder has stamped for it, and anything on other keys. */
  ghost predicate StampedTraffic(tr: seq<Frame>, g: seq<Frame>, k: Key) {
    forall f :: f in tr && On(f, k) ==> f in g
  }

  lemma {:induction false} StampedIsAcceptor(tr: seq<Frame>, g: seq<Frame>, k: Key, e: byte)
    requires Generation(g, k, e) && k.1 && StampedTraffic(tr, g, k)
    ensures AcceptorTraffic(tr, g, k) && forall f :: f in tr ==> Admissible(f, g, k, e)
  {
    forall f | f in tr ensures (On(f, k) ==> Part(f, g)) && Admissible(f, g, k, e) {
      if On(f, k) {
        var i :| 0 <= i < |g| && g[i] == f;
        GenerationIndex(g, k, e, i);
      }
      AcceptorOneSided(f, g, k, e);
    }
  }

  /** The state of the key after its first arrival. */
  lemma {:induction false} AfterArrival(tr: seq<Frame>, g: seq<Frame>, k: Key, e: byte)
    requires Generation(g, k, e) && k.1 && StampedTraffic(tr, g, k) && OnKey(tr, k) != []
    ensures var d := Run(FRESH, tr).dec;
            Wf(d) && Directed(d, k.0) && k in d.states && InGeneration(d.states[k], g, e)
  {
    hide Run, Step, OnKey, Wf, Directed;
    StampedIsAcceptor(tr, g, k, e);
    var o := FirstOn(tr, k);
    var f := tr[o];
    assert f in tr;
    FreshInvariants();
    QuietRun(FRESH, tr[..o], k);
    SplitRun(FRESH, tr, o);
    var b := Run(FRESH, tr[..o]).dec;
    FirstOfAcceptor(b, f, k);
    StepWf(b, f);
    StepDirected(b, f, k.0);
    GenerationIndex(g, k, e, SessionSeq(f));
    ContinuesInOrder(Step(b, f).dec, tr[o + 1..], g, k, e);
  }

  /** THEOREM (late frames, exact). An id serves a first and then a second session of an acceptor; the receiver turns to
      the second one between `tr1` and `tr2`. Frames of the first session are then delivered into the second one if and
      only if the decoder still expects one of them and that one arrives; if nothing has arrived before, if and only if
      the first arrival is one of them. */
  lemma {:induction false} LateFramesReachIff(e: Encoder, first: seq<Call>, second: seq<Call>, sid: u16,
                                              tr1: seq<Frame>, tr2: seq<Frame>)
    requires EncoderWf(e) && e.acceptor && sid !in e.sessions && AcceptorCalls(first + second, sid)
    requires StampedTraffic(tr1 + tr2, OnKey(Frames(e, first + second), (sid, true)), (sid, true))
    ensures var k := (sid, true); var past := OnKey(Frames(e, first), k);
            var d := Run(FRESH, tr1).dec; var out := Run(d, tr2).out;
            if OnKey(tr1, k) != []
            then
              && k in d.states
              && ((exists f :: f in past && f in out) <==>
                  d.states[k].next < |past| && past[d.states[k].next] in tr2)
            else
              (exists f :: f in past && f in out) <==> OnKey(tr2, k) != [] && OnKey(tr2, k)[0] in past
  {
    hide Run, Frames, OnKey, Wf, Directed, EncoderWf, SessionCalls, StampedTraffic, Generation;
    var k := (sid, true);
    var g, past := OnKey(Frames(e, first + second), k), OnKey(Frames(e, first), k);
    AcceptorKeepsEpoch(e, first + second, sid);
    OldComeFirst(e, first, second, k);
    assert past == g[..|past|];
    assert StampedTraffic(tr1, g, k) && StampedTraffic(tr2, g, k) by { StampedParts(tr1, tr2, g, k); }
    if g == [] {
      NoneStamped(tr1, k);
      NoneStamped(tr2, k);
    } else {
      var ep := EncoderAfter(e, first + second).sessions[sid].epoch;
      if OnKey(tr1, k) != [] {
        ReachesAfterArrival(tr1, tr2, g, k, ep, |past|);
      } else {
        ReachesFirst(tr1, tr2, g, k, ep, |past|);
      }
    }
  }

  lemma {:induction false} StampedParts(tr1: seq<Frame>, tr2: seq<Frame>, g: seq<Frame>, k: Key)
    requires StampedTraffic(tr1 + tr2, g, k)
    ensures StampedTraffic(tr1, g, k) && StampedTraffic(tr2, g, k)
  {
    assert forall f :: f in tr1 || f in tr2 ==> f in tr1 + tr2;
  }

  lemma {:induction false} NoneStamped(tr: seq<Frame>, k: Key)
    requires StampedTraffic(tr, [], k)
    ensures OnKey(tr, k) == []
  {
    OnKeyNone(tr, k);
  }

  lemma {:induction false} ReachesAfterArrival(tr1: seq<Frame>, tr2: seq<Frame>, g: seq<Frame>, k: Key, e: byte, n: nat)
    requires Generation(g, k, e) && k.1 && StampedTraffic(tr1, g, k) && StampedTraffic(tr2, g, k)
    requires OnKey(tr1, k) != [] && n <= |g|
    ensures var d := Run(FRESH, tr1).dec;
            && k in d.states
            && ((exists f :: f in g[..n] && f in Run(d, tr2).out) <==>
              d.states[k].next < n && g[d.states[k].next] in tr2)
  {
    hide Run, OnKey, Wf, Directed, Generation;
    AfterArrival(tr1, g, k, e);
    StampedIsAcceptor(tr2, g, k, e);
    var d := Run(FRESH, tr1).dec;
    ContinuesInOrder(d, tr2, g, k, e);
    AdvancesIff(d, tr2, g, k, e);
    StretchReaches(Run(d, tr2).out, g, k, e, d.states[k].next, Run(d, tr2).dec.states[k].next, n);
  }

  lemma {:induction false} ReachesFirst(tr1: seq<Frame>, tr2: seq<Frame>, g: seq<Frame>, k: Key, e: byte, n: nat)
    requires Generation(g, k, e) && k.1 && StampedTraffic(tr1, g, k) && StampedTraffic(tr2, g, k)
    requires OnKey(tr1, k) == [] && n <= |g|
    ensures (exists f :: f in g[..n] && f in Run(Run(FRESH, tr1).dec, tr2).out) <==>
            OnKey(tr2, k) != [] && OnKey(tr2, k)[0] in g[..n]
  {
    hide Run, OnKey, Wf, Directed, Generation, AcceptorTraffic, StampedTraffic;
    var all := tr1 + tr2;
    RunConcat(FRESH, tr1, tr2);
    OnKeyConcat(tr1, tr2, k);
    var out := Run(Run(FRESH, tr1).dec, tr2).out;
    QuietHalf(tr1, g, k, e);
    OnKeyConcat(Run(FRESH, tr1).out, out, k);
    if OnKey(tr2, k) == [] {
      QuietHalf(all, g, k, e);
      StretchReaches(out, g, k, e, 0, 0, n);
    } else {
      assert StampedTraffic(all, g, k) by { StampedBoth(tr1, tr2, g, k); }
      StampedIsAcceptor(all, g, k, e);
      AcceptorDeliversRun(all, g, k, e);
      var f := OnKey(tr2, k)[0];
      var a := SessionSeq(f);
      assert Part(f, g) by { FirstIsPart(all, g, k, e); }
      StretchReaches(out, g, k, e, a, Run(FRESH, all).dec.states[k].next, n);
      assert f in g[..n] <==> a < n by { PartBefore(f, g, k, e, n); }
    }
  }

  lemma {:induction false} QuietHalf(tr: seq<Frame>, g: seq<Frame>, k: Key, e: byte)
    requires Generation(g, k, e) && k.1 && OnKey(tr, k) == []
    ensures OnKey(Run(FRESH, tr).out, k) == []
  {
    hide Run, OnKey, Wf, Directed, Generation;
    FreshInvariants();
    forall f | f in tr ensures OneSided(f, k.0) && !On(f, k) {
      if On(f, k) {
        OnKeyMember(tr, f, k);
      }
      AcceptorOneSided(f, g, k, e);
    }
    QuietRun(FRESH, tr, k);
  }

  lemma {:induction false} StampedBoth(tr1: seq<Frame>, tr2: seq<Frame>, g: seq<Frame>, k: Key)
    requires StampedTraffic(tr1, g, k) && StampedTraffic(tr2, g, k)
    ensures StampedTraffic(tr1 + tr2, g, k)
  {
  }

  lemma {:induction false} FirstIsPart(tr: seq<Frame>, g: seq<Frame>, k: Key, e: byte)
    requires AcceptorTraffic(tr, g, k) && OnKey(tr, k) != []
    ensures Part(OnKey(tr, k)[0], g)
  {
    hide OnKey;
    OnKeyFrom(tr, k);
    assert OnKey(tr, k)[0] in OnKey(tr, k);
  }

  lemma {:induction false} PartBefore(f: Frame, g: seq<Frame>, k: Key, e: byte, n: nat)
    requires Generation(g, k, e) && Part(f, g) && n <= |g|
    ensures f in g[..n] <==> SessionSeq(f) < n
  {
    if SessionSeq(f) < n {
      assert g[..n][SessionSeq(f)] == f;
    }
    forall i | 0 <= i < n && g[i] == f ensures SessionSeq(f) < n {
      GenerationIndex(g, k, e, i);
    }
  }
}
