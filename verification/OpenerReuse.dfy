/** Reuse of a session id by its opener, in every relation of the new epoch to the one on record
    (src/tunnel/multiplex.rs). */
module OpenerReuse {
  import opened Bytes
  import opened MuxFrame
  import opened MuxDecoder
  import opened Reordering
  import opened Generations
  import opened EpochWindow

  // ----- After the Open: frames of other generations -----

  /** What may arrive after the Open: frames of its generation, frames other than Opens of any other generation of the
      session, anything of other sessions, and in the other direction anything but an Open. */
  predicate MixedFrame(f: Frame, g: seq<Frame>, k: Key, e: byte) {
    OneSided(f, k.0) && (On(f, k) ==> !f.ftype.Open? && (Part(f, g) || Epoch(f) != e))
  }

  /** A frame of another generation that compares as newer. */
  predicate Intrudes(f: Frame, k: Key, e: byte) {
    On(f, k) && Epoch(f) != e && Newer(Epoch(f), e)
  }

  lemma {:induction false} FirstIntruder(tr: seq<Frame>, k: Key, e: byte) returns (o: nat)
    requires exists f :: f in tr && Intrudes(f, k, e)
    ensures o < |tr| && Intrudes(tr[o], k, e) && forall f :: f in tr[..o] ==> !Intrudes(f, k, e)
    decreases |tr|
  {
    var pre := tr[..|tr| - 1];
    if exists f :: f in pre && Intrudes(f, k, e) {
      o := FirstIntruder(pre, k, e);
      assert pre[..o] == tr[..o];
    } else {
      o := |tr| - 1;
    }
  }

  lemma {:induction false} OthersAdmissible(tr: seq<Frame>, g: seq<Frame>, k: Key, e: byte)
    requires forall f :: f in tr ==> MixedFrame(f, g, k, e) && !Intrudes(f, k, e)
    ensures forall f :: f in tr ==> Admissible(f, g, k, e)
  {
  }

  /** THEOREM (older generations, exact). From any decoder state, after the Open of a generation the session delivers
      a prefix of it and nothing else if and only if no frame of another generation arrives that compares as newer. */
  lemma {:induction false} OldGenerationsStayOutIff(d: Decoder, tr: seq<Frame>, g: seq<Frame>, k: Key, e: byte)
    requires Generation(g, k, e) && !k.1 && Wf(d) && Directed(d, k.0)
    requires forall f :: f in Held(d, k.0) && Epoch(f) == e ==> Part(f, g)
    requires forall f :: f in tr ==> MixedFrame(f, g, k, e)
    ensures var l := Step(d, g[0]);
            OnKey(l.out + Run(l.dec, tr).out, k) <= g <==> forall f :: f in tr ==> !Intrudes(f, k, e)
  {
    hide Step, Run, OnKey, Wf, Directed, MixedFrame, Admissible;
    if forall f :: f in tr ==> !Intrudes(f, k, e) {
      OthersAdmissible(tr, g, k, e);
      OpenThenContinue(d, tr, g, k, e);
    } else {
      var o := FirstIntruder(tr, k, e);
      var f := tr[o];
      IntruderDelivered(d, tr, g, k, e, o);
      var l := Step(d, g[0]);
      var out := l.out + Run(l.dec, tr).out;
      OnKeyMember(out, f, k);
      PrefixMember(OnKey(out, k), g, f);
      OnlyItsEpoch(g, k, e);
    }
  }

  lemma {:induction false} PrefixMember(a: seq<Frame>, b: seq<Frame>, f: Frame)
    requires f in a
    ensures a <= b ==> f in b
  {
    if a <= b {
      var i :| 0 <= i < |a| && a[i] == f;
      assert b[i] == f;
    }
  }

  lemma {:induction false} OnlyItsEpoch(g: seq<Frame>, k: Key, e: byte)
    requires Generation(g, k, e)
    ensures forall f :: f in g ==> Epoch(f) == e
  {
    forall i | 0 <= i < |g| ensures Epoch(g[i]) == e {
      GenerationIndex(g, k, e, i);
    }
  }

  lemma {:induction false} IntruderDelivered(d: Decoder, tr: seq<Frame>, g: seq<Frame>, k: Key, e: byte, o: nat)
    requires Generation(g, k, e) && !k.1 && Wf(d) && Directed(d, k.0)
    requires forall f :: f in Held(d, k.0) && Epoch(f) == e ==> Part(f, g)
    requires forall f :: f in tr ==> MixedFrame(f, g, k, e)
    requires o < |tr| && Intrudes(tr[o], k, e) && forall f :: f in tr[..o] ==> !Intrudes(f, k, e)
    ensures tr[o] in Run(Step(d, g[0]).dec, tr).out
  {
    hide Step, Run, OnKey, Wf, Directed, Admissible;
    var pre := tr[..o];
    assert tr[o] in tr;
    OthersAdmissible(pre, g, k, e);
    OpenThenContinue(d, pre, g, k, e);
    var l := Step(d, g[0]).dec;
    TakesOver(Run(l, pre).dec, tr[o], k);
    SplitRun(l, tr, o);
  }

  /** Intruders by allocation: a frame of allocation `a` intrudes on allocation `b` exactly outside the distance of
      128. */
  lemma {:induction false} IntrudesByDistance(f: Frame, k: Key, a: nat, b: nat)
    requires a < b && On(f, k) && Epoch(f) == EpochOf(a) != EpochOf(b)
    ensures Intrudes(f, k, EpochOf(b)) <==> !(1 <= (b - a + Skew(b) - Skew(a)) % 0x100 <= 128)
  {
    hide EpochOf, Skew;
    StaysOutExactly(a, b);
  }

  /** A frame of a newer generation takes over an opened key at once, Open or not. */
  lemma {:induction false} TakesOver(d: Decoder, f: Frame, k: Key)
    requires On(f, k) && !f.ftype.Open? && k in d.states
    requires Epoch(f) != d.states[k].epoch && Newer(Epoch(f), d.states[k].epoch)
    ensures Step(d, f) == Stepped(d.(states := d.states[k := Baseline(f)]), [f])
  {
    hide Flush, Merge;
  }

  /** A frame that keeps to the current epoch of a key, or is stale to it. */
  predicate KeepsEpoch(f: Frame, k: Key, x: byte) {
    OneSided(f, k.0) && (On(f, k) ==> !f.ftype.Open? && (Epoch(f) == x || !Newer(Epoch(f), x)))
  }

  lemma {:induction false} SameEpochOut(d: Decoder, f: Frame, k: Key)
    requires Wf(d) && On(f, k) && k in d.states && d.states[k].epoch == Epoch(f)
    ensures forall y :: y in StepSame(d, f).out ==> Epoch(y) == Epoch(f)
    ensures k in StepSame(d, f).dec.states && StepSame(d, f).dec.states[k].epoch == Epoch(f)
  {
    hide Flush;
    var st := d.states[k];
    assert StateWf(st, k.0);
    if SessionSeq(f) == st.next {
      FlushedEpoch(st.(next := st.next + 1), k.0);
    }
  }

  lemma {:induction false} FlushedEpoch(st: Reorder, sid: u16)
    requires forall i :: i in st.buf ==> Filed(st.buf[i], i, st.epoch, sid)
    ensures Flush(st).st.epoch == st.epoch && forall y :: y in Flush(st).out ==> Epoch(y) == st.epoch
  {
    hide Flush;
    FlushSource(st);
    FlushSpec(st);
  }

  lemma {:induction false} StepKeepsEpoch(d: Decoder, f: Frame, k: Key, x: byte)
    requires Wf(d) && Directed(d, k.0) && k in d.states && d.states[k].epoch == x && KeepsEpoch(f, k, x)
    ensures var r := Step(d, f);
            && Wf(r.dec) && Directed(r.dec, k.0) && k in r.dec.states && r.dec.states[k].epoch == x
            && forall y :: y in r.out && On(y, k) ==> Epoch(y) == x
  {
    hide Step, Wf, Directed;
    StepWf(d, f);
    StepDirected(d, f, k.0);
    if !On(f, k) {
      StepFrame(d, f, k);
      StepElsewhere(d, f, k);
      forall y | y in Step(d, f).out && On(y, k) ensures false {
        OnKeyMember(Step(d, f).out, y, k);
      }
    } else if Epoch(f) == x {
      assert Step(d, f) == StepSame(d, f) by { SameBranch(d, f, k); }
      SameEpochOut(d, f, k);
    } else {
      LeftoverDropped(d, f, k);
    }
  }

  lemma {:induction false} SameBranch(d: Decoder, f: Frame, k: Key)
    requires On(f, k) && !f.ftype.Open? && k in d.states && d.states[k].epoch == Epoch(f)
    ensures Step(d, f) == StepSame(d, f)
  {
    hide Flush, Merge;
  }

  lemma {:induction false} RunKeepsEpoch(d: Decoder, tr: seq<Frame>, k: Key, x: byte)
    requires Wf(d) && Directed(d, k.0) && k in d.states && d.states[k].epoch == x
    requires forall f :: f in tr ==> KeepsEpoch(f, k, x)
    ensures var r := Run(d, tr);
            && Wf(r.dec) && Directed(r.dec, k.0) && k in r.dec.states && r.dec.states[k].epoch == x
            && forall y :: y in r.out && On(y, k) ==> Epoch(y) == x
    decreases |tr|
  {
    hide Step, Wf, Directed, KeepsEpoch;
    if tr != [] {
      RunKeepsEpoch(d, tr[..|tr| - 1], k, x);
      StepKeepsEpoch(Run(d, tr[..|tr| - 1]).dec, tr[|tr| - 1], k, x);
    }
  }

  /** THEOREM (takeover). Once an intruder has been delivered, the session's own generation `e` delivers nothing more:
      its frames, and any others stale to the intruder's epoch, are dropped from then on. */
  lemma {:induction false} TakenOver(d: Decoder, f: Frame, tr: seq<Frame>, k: Key, e: byte)
    requires Wf(d) && Directed(d, k.0) && k in d.states && d.states[k].epoch == e
    requires Intrudes(f, k, e) && !f.ftype.Open? && OneSided(f, k.0)
    requires forall y :: y in tr ==>
               OneSided(y, k.0)
               && (On(y, k) ==> !y.ftype.Open? && (Epoch(y) == e || Epoch(y) == Epoch(f) || !Newer(Epoch(y), Epoch(f))))
    ensures Step(d, f).out == [f]
    ensures forall y :: y in Run(Step(d, f).dec, tr).out && On(y, k) ==> Epoch(y) == Epoch(f) != e
  {
    hide Step, Run, Wf, Directed;
    NewerOneWay(Epoch(f), e);
    TakesOver(d, f, k);
    StepWf(d, f);
    StepDirected(d, f, k.0);
    RunKeepsEpoch(Step(d, f).dec, tr, k, Epoch(f));
  }

  // ----- Before the Open: a session whose previous generation is still on record -----

  /** Nothing waits for the Open of a session that has a state: the hold queue is for sessions never opened. */
  lemma {:induction false} OpenedHoldsNothing(tr: seq<Frame>, sid: u16)
    ensures (sid, false) in Run(FRESH, tr).dec.states ==> Held(Run(FRESH, tr).dec, sid) == []
    decreases |tr|
  {
    hide Step;
    if tr != [] {
      OpenedHoldsNothing(tr[..|tr| - 1], sid);
      StepHoldsNothing(Run(FRESH, tr[..|tr| - 1]).dec, tr[|tr| - 1], sid);
    }
  }

  lemma {:induction false} StepHoldsNothing(d: Decoder, f: Frame, sid: u16)
    requires (sid, false) in d.states ==> Held(d, sid) == []
    ensures (sid, false) in Step(d, f).dec.states ==> Held(Step(d, f).dec, sid) == []
  {
    hide Flush, Merge;
  }

  /** What the decoder delivers at once in this state, though it is not an Open: the frame it expects, or one of a
      generation that compares as newer. */
  predicate Passes(st: Reorder, f: Frame) {
    if Epoch(f) == st.epoch then SessionSeq(f) == st.next else Newer(Epoch(f), st.epoch)
  }

  /** A frame other than an Open is delivered at once, first, or nothing is delivered and the state expects what it
      did. */
  lemma {:induction false} StepPasses(d: Decoder, f: Frame, k: Key)
    requires On(f, k) && !f.ftype.Open? && k in d.states
    ensures var r := Step(d, f);
            if Passes(d.states[k], f) then r.out != [] && r.out[0] == f
            else
              && r.out == [] && k in r.dec.states && r.dec.preopen == d.preopen
              && r.dec.states[k].epoch == d.states[k].epoch && r.dec.states[k].next == d.states[k].next
  {
    hide Flush, Merge;
  }

  /** Frames that do not pass leave a key that has a state as it is, but for its buffer. */
  lemma {:induction false} BlockedRun(d: Decoder, tr: seq<Frame>, k: Key)
    requires Wf(d) && Directed(d, k.0) && k in d.states
    requires forall f :: f in tr ==> OneSided(f, k.0) && (On(f, k) ==> !f.ftype.Open? && !Passes(d.states[k], f))
    ensures var r := Run(d, tr);
            && Wf(r.dec) && Directed(r.dec, k.0) && OnKey(r.out, k) == []
            && (!k.1 ==> Held(r.dec, k.0) == Held(d, k.0))
            && k in r.dec.states
            && r.dec.states[k].epoch == d.states[k].epoch && r.dec.states[k].next == d.states[k].next
    decreases |tr|
  {
    hide Step, Wf, Directed, OnKey;
    if tr == [] {
      OnKeyNone([], k);
    } else {
      var pre, f := tr[..|tr| - 1], tr[|tr| - 1];
      BlockedRun(d, pre, k);
      var b := Run(d, pre);
      StepWf(b.dec, f);
      StepDirected(b.dec, f, k.0);
      if On(f, k) {
        StepPasses(b.dec, f, k);
        OnKeyNone([], k);
      } else {
        StepFrame(b.dec, f, k);
        StepElsewhere(b.dec, f, k);
      }
      OnKeyConcat(b.out, Step(b.dec, f).out, k);
    }
  }

  /** What may arrive: frames of the new generation, its Open at most once, anything of other sessions, and in the other
      direction anything but an Open. */
  ghost predicate NewTraffic(tr: seq<Frame>, g: seq<Frame>, k: Key)
    requires 0 < |g|
  {
    && (forall f :: f in tr ==> OneSided(f, k.0) && (On(f, k) ==> Part(f, g)))
    && (forall i, j :: 0 <= i < j < |tr| ==> tr[i] != g[0] || tr[j] != g[0])
  }

  /** No frame on the key before the Open passes. */
  ghost predicate Blocked(st: Reorder, tr: seq<Frame>, g: seq<Frame>, k: Key)
    requires 0 < |g|
  {
    forall j :: 0 <= j < |tr| && g[0] !in tr[..j + 1] && On(tr[j], k) ==> !Passes(st, tr[j])
  }

  /** The end of the arrivals before the Open. */
  lemma {:induction false} OpenAt(tr: seq<Frame>, x: Frame) returns (n: nat)
    ensures n <= |tr| && x !in tr[..n] && (n < |tr| ==> tr[n] == x) && (n == |tr| <==> x !in tr)
    decreases |tr|
  {
    if tr == [] {
      n := 0;
    } else {
      var pre := tr[..|tr| - 1];
      n := OpenAt(pre, x);
      if n == |pre| {
        n := if tr[|tr| - 1] == x then |tr| - 1 else |tr|;
        assert tr[..|tr| - 1] == pre && tr[..|tr|] == tr;
      } else {
        assert pre[..n] == tr[..n] && tr[n] == pre[n];
      }
    }
  }

  lemma {:induction false} NewAdmissible(tr: seq<Frame>, g: seq<Frame>, k: Key, e: byte, o: nat)
    requires Generation(g, k, e) && !k.1 && NewTraffic(tr, g, k) && o < |tr| && tr[o] == g[0]
    ensures forall x :: x in tr[o + 1..] ==> Admissible(x, g, k, e)
  {
    forall x | x in tr[o + 1..] ensures Admissible(x, g, k, e) {
      assert x in tr;
      if On(x, k) {
        OpenIsFirst(x, g, k, e);
      }
    }
  }

  lemma {:induction false} NotOpenBefore(tr: seq<Frame>, g: seq<Frame>, k: Key, e: byte, n: nat)
    requires Generation(g, k, e) && !k.1 && NewTraffic(tr, g, k) && n <= |tr| && g[0] !in tr[..n]
    ensures forall f :: f in tr[..n] ==> OneSided(f, k.0) && (On(f, k) ==> !f.ftype.Open?)
  {
    forall f | f in tr[..n] ensures OneSided(f, k.0) && (On(f, k) ==> !f.ftype.Open?) {
      assert f in tr;
      if On(f, k) {
        OpenIsFirst(f, g, k, e);
      }
    }
  }

  /** THEOREM (reuse, exact). Whatever generation a session has on record, of an older, a newer or the same epoch: it
      delivers its new generation in order if and only if no frame that arrives before the Open passes. Those that do
      not pass are lost: nothing is held for a session that has a state. */
  lemma {:induction false} ReuseInOrderIff(d: Decoder, tr: seq<Frame>, g: seq<Frame>, k: Key, e: byte)
    requires Generation(g, k, e) && !k.1 && Wf(d) && Directed(d, k.0) && NewTraffic(tr, g, k)
    requires k in d.states && Held(d, k.0) == []
    ensures OnKey(Run(d, tr).out, k) <= g <==> Blocked(d.states[k], tr, g, k)
  {
    hide Step, Run, OnKey, Wf, Directed, NewTraffic, Passes;
    if Blocked(d.states[k], tr, g, k) {
      BlockedDeliversPrefix(d, tr, g, k, e);
    } else {
      var j := FirstPassing(d.states[k], tr, g, k);
      PassingComesFirst(d, tr, g, k, e, j);
    }
  }

  /** The two ordinary cases: with a newer epoch, order needs the Open to come first; with an older one order is kept
      whatever comes first, because everything before the Open is dropped as stale. */
  lemma {:induction false} ReuseByEpoch(d: Decoder, tr: seq<Frame>, g: seq<Frame>, k: Key, e: byte)
    requires Generation(g, k, e) && !k.1 && Wf(d) && Directed(d, k.0) && NewTraffic(tr, g, k)
    requires k in d.states && Held(d, k.0) == [] && d.states[k].epoch != e
    ensures if Newer(e, d.states[k].epoch)
            then OnKey(Run(d, tr).out, k) <= g <==> OnKey(tr, k) == [] || OnKey(tr, k)[0] == g[0]
            else OnKey(Run(d, tr).out, k) <= g
  {
    hide Run, OnKey, Wf, Directed;
    ReuseInOrderIff(d, tr, g, k, e);
    forall f | f in tr && On(f, k) ensures Passes(d.states[k], f) <==> Newer(e, d.states[k].epoch) {
      GenerationIndex(g, k, e, SessionSeq(f));
    }
    if Newer(e, d.states[k].epoch) {
      GenerationIndex(g, k, e, 0);
      BlockedIfOpenFirst(d.states[k], tr, g, k);
    }
  }

  /** Where every frame passes, nothing passes before the Open exactly if the Open comes first. */
  lemma {:induction false} BlockedIfOpenFirst(st: Reorder, tr: seq<Frame>, g: seq<Frame>, k: Key)
    requires 0 < |g| && On(g[0], k) && forall f :: f in tr && On(f, k) ==> Passes(st, f)
    ensures Blocked(st, tr, g, k) <==> OnKey(tr, k) == [] || OnKey(tr, k)[0] == g[0]
  {
    hide OnKey, Passes, On;
    if OnKey(tr, k) == [] {
      forall j | 0 <= j < |tr| ensures !On(tr[j], k) {
        if On(tr[j], k) {
          OnKeyMember(tr, tr[j], k);
        }
      }
    } else {
      var o := FirstOn(tr, k);
      assert tr[o] in tr;
      if tr[o] == g[0] {
        forall j | 0 <= j < |tr| && On(tr[j], k) ensures g[0] in tr[..j + 1] {
          assert tr[..j + 1][o] == g[0];
        }
      } else {
        assert forall j :: 0 <= j <= o ==> tr[j] != g[0];
        assert g[0] !in tr[..o + 1];
      }
    }
  }

  lemma {:induction false} BlockedDeliversPrefix(d: Decoder, tr: seq<Frame>, g: seq<Frame>, k: Key, e: byte)
    requires Generation(g, k, e) && !k.1 && Wf(d) && Directed(d, k.0) && NewTraffic(tr, g, k)
    requires k in d.states && Held(d, k.0) == [] && Blocked(d.states[k], tr, g, k)
    ensures OnKey(Run(d, tr).out, k) <= g
  {
    hide Step, Run, OnKey, Wf, Directed, Admissible, Passes;
    var n := OpenAt(tr, g[0]);
    var pre := tr[..n];
    NotOpenBefore(tr, g, k, e, n);
    forall f | f in pre && On(f, k) ensures !Passes(d.states[k], f) {
      var j :| 0 <= j < n && tr[j] == f;
      assert tr[..j + 1] <= pre;
    }
    BlockedRun(d, pre, k);
    if n == |tr| {
      assert pre == tr;
    } else {
      SplitRun(d, tr, n);
      NewAdmissible(tr, g, k, e, n);
      var b := Run(d, pre);
      OpenThenContinue(b.dec, tr[n + 1..], g, k, e);
      OnKeyConcat(b.out, Step(b.dec, g[0]).out + Run(Step(b.dec, g[0]).dec, tr[n + 1..]).out, k);
    }
  }

  lemma {:induction false} FirstPassing(st: Reorder, tr: seq<Frame>, g: seq<Frame>, k: Key) returns (j: nat)
    requires 0 < |g| && !Blocked(st, tr, g, k)
    ensures j < |tr| && g[0] !in tr[..j + 1] && On(tr[j], k) && Passes(st, tr[j])
    ensures forall f :: f in tr[..j] && On(f, k) ==> !Passes(st, f)
    decreases |tr|
  {
    hide Passes;
    var pre := tr[..|tr| - 1];
    assert forall i :: 0 <= i < |pre| ==> pre[i] == tr[i] && pre[..i + 1] == tr[..i + 1];
    if !Blocked(st, pre, g, k) {
      j := FirstPassing(st, pre, g, k);
      assert pre[..j] == tr[..j];
    } else {
      j := |tr| - 1;
      assert g[0] !in tr[..j + 1] && On(tr[j], k) && Passes(st, tr[j]);
      forall f | f in tr[..j] && On(f, k) ensures !Passes(st, f) {
        var i :| 0 <= i < j && tr[i] == f;
        assert pre[..i + 1] <= tr[..j + 1];
      }
    }
  }

  lemma {:induction false} PassingComesFirst(d: Decoder, tr: seq<Frame>, g: seq<Frame>, k: Key, e: byte, j: nat)
    requires Generation(g, k, e) && !k.1 && Wf(d) && Directed(d, k.0) && NewTraffic(tr, g, k) && k in d.states
    requires j < |tr| && g[0] !in tr[..j + 1] && On(tr[j], k) && Passes(d.states[k], tr[j])
    requires forall f :: f in tr[..j] && On(f, k) ==> !Passes(d.states[k], f)
    ensures !(OnKey(Run(d, tr).out, k) <= g)
  {
    hide Step, Run, OnKey, Wf, Directed;
    var f, b := tr[j], Run(d, tr[..j]);
    NotOpenBefore(tr, g, k, e, j + 1);
    assert f == tr[..j + 1][j] && forall x :: x in tr[..j] ==> x in tr[..j + 1];
    BlockedRun(d, tr[..j], k);
    StepPasses(b.dec, f, k);
    SplitRun(d, tr, j);
    var l := Step(b.dec, f);
    var rest := l.out + Run(l.dec, tr[j + 1..]).out;
    OnKeyConcat(b.out, rest, k);
    FirstStaysFirst(rest, k);
    GenerationIndex(g, k, e, 0);
  }

  lemma {:induction false} FirstStaysFirst(fs: seq<Frame>, k: Key)
    requires fs != [] && On(fs[0], k)
    ensures OnKey(fs, k) != [] && OnKey(fs, k)[0] == fs[0]
  {
    hide OnKey;
    assert fs == [fs[0]] + fs[1..];
    OnKeyAll([fs[0]], k);
    OnKeyConcat([fs[0]], fs[1..], k);
  }

  // ----- Completeness of a reused session -----

  /** Every frame of the generation arrives, exactly once. */
  ghost predicate EachOnce(tr: seq<Frame>, g: seq<Frame>, k: Key) {
    && (forall i :: 0 <= i < |g| ==> g[i] in tr)
    && (forall i, j :: 0 <= i < j < |tr| && On(tr[i], k) ==> tr[i] != tr[j])
  }

  /** A delivered Open has arrived: only other frames wait in the decoder. */
  lemma {:induction false} DeliveredOpens(d: Decoder, tr: seq<Frame>)
    requires Wf(d)
    ensures forall x :: x in Run(d, tr).out && x.ftype.Open? ==> x in tr
    decreases |tr|
  {
    hide Step, Wf;
    if tr != [] {
      var pre := tr[..|tr| - 1];
      DeliveredOpens(d, pre);
      RunWf(d, pre);
      StepWf(Run(d, pre).dec, tr[|tr| - 1]);
    }
  }

  /** A generation does not get past a frame that does not arrive. */
  lemma {:induction false} NotPast(d: Decoder, tr: seq<Frame>, g: seq<Frame>, k: Key, e: byte, s: nat)
    requires Generation(g, k, e) && Wf(d) && Directed(d, k.0) && k in d.states && InGeneration(d.states[k], g, e)
    requires s < |g| && d.states[k].next <= s && s !in d.states[k].buf && g[s] !in tr
    requires forall f :: f in tr ==> Admissible(f, g, k, e)
    ensures var st := Run(d, tr).dec.states; k in st && st[k].next <= s && s !in st[k].buf
    decreases |tr|
  {
    hide Step, Wf, Directed, Generation, Admissible;
    if tr != [] {
      var pre, f := tr[..|tr| - 1], tr[|tr| - 1];
      NotPast(d, pre, g, k, e, s);
      ContinuesInOrder(d, pre, g, k, e);
      StepNotPast(Run(d, pre).dec, f, g, k, e, s);
    }
  }

  lemma {:induction false} StepNotPast(d: Decoder, f: Frame, g: seq<Frame>, k: Key, e: byte, s: nat)
    requires Generation(g, k, e) && k in d.states && InGeneration(d.states[k], g, e) && Admissible(f, g, k, e)
    requires s < |g| && d.states[k].next <= s && s !in d.states[k].buf && f != g[s]
    ensures var st := Step(d, f).dec.states; k in st && st[k].next <= s && s !in st[k].buf
  {
    hide Step, Flush, Generation, SessionSeq;
    if !On(f, k) {
      StepFrame(d, f, k);
    } else if Part(f, g) {
      var st := d.states[k];
      GenerationIndex(g, k, e, SessionSeq(f));
      SameBranch(d, f, k);
      if SessionSeq(f) == st.next {
        DeliverInside(st, g, e);
      } else if SessionSeq(f) > st.next {
        assert SessionSeq(f) != s;
      }
    } else {
      LeftoverDropped(d, f, k);
    }
  }

  /** What a reused session delivers before its Open, and what it delivers from there on. */
  lemma {:induction false} AroundReuse(d: Decoder, tr: seq<Frame>, g: seq<Frame>, k: Key, e: byte, n: nat)
    requires Generation(g, k, e) && !k.1 && Wf(d) && Directed(d, k.0) && NewTraffic(tr, g, k)
    requires k in d.states && Held(d, k.0) == [] && n < |tr| && tr[n] == g[0] && g[0] !in tr[..n]
    ensures var b := Run(d, tr[..n]); var l := Step(b.dec, g[0]); var st := Run(d, tr).dec.states;
            && l.out == [g[0]] && k in l.dec.states && l.dec.states[k] == Reorder(e, 1, map[])
            && Wf(l.dec) && Directed(l.dec, k.0) && Run(d, tr).dec == Run(l.dec, tr[n + 1..]).dec
            && k in st && InGeneration(st[k], g, e)
            && OnKey(Run(d, tr).out, k) == OnKey(b.out, k) + g[..st[k].next]
            && forall x :: x in OnKey(b.out, k) ==> !x.ftype.Open?
    ensures forall x :: x in tr[n + 1..] ==> Admissible(x, g, k, e)
  {
    hide Step, Run, OnKey, Wf, Directed, Admissible;
    var pre := tr[..n];
    NotOpenBefore(tr, g, k, e, n);
    NewAdmissible(tr, g, k, e, n);
    HeldBeforeReuse(d, pre, k);
    var b := Run(d, pre);
    GenerationIndex(g, k, e, 0);
    OpenOnEmptyHold(b.dec, g[0]);
    OpenThenContinue(b.dec, tr[n + 1..], g, k, e);
    SplitRun(d, tr, n);
    OnKeyConcat(b.out, Step(b.dec, g[0]).out + Run(Step(b.dec, g[0]).dec, tr[n + 1..]).out, k);
    DeliveredOpens(d, pre);
    OnKeyFrom(b.out, k);
  }

  /** Before the Open nothing is held for a session that has a state. */
  lemma {:induction false} HeldBeforeReuse(d: Decoder, tr: seq<Frame>, k: Key)
    requires Wf(d) && Directed(d, k.0) && !k.1 && k in d.states && Held(d, k.0) == []
    requires forall f :: f in tr ==> OneSided(f, k.0) && (On(f, k) ==> !f.ftype.Open?)
    ensures var r := Run(d, tr).dec; Wf(r) && Directed(r, k.0) && k in r.states && Held(r, k.0) == []
    decreases |tr|
  {
    hide Step, Wf, Directed;
    if tr != [] {
      var pre, f := tr[..|tr| - 1], tr[|tr| - 1];
      HeldBeforeReuse(d, pre, k);
      var b := Run(d, pre).dec;
      StepWf(b, f);
      StepDirected(b, f, k.0);
      StepHoldsNothing(b, f, k.0);
      assert k == (k.0, false);
      StepKeepsKey(b, f, k);
    }
  }

  lemma {:induction false} StepKeepsKey(d: Decoder, f: Frame, k: Key)
    requires k in d.states
    ensures k in Step(d, f).dec.states
  {
    hide Flush, Merge;
  }

  /** THEOREM (reuse, completeness). A session with any generation on record, whose new frames all arrive once and fit
      the buffer, delivers exactly its new generation if and only if the Open is the first of its frames to arrive. */
  lemma {:induction false} ReuseDeliversAllIff(d: Decoder, tr: seq<Frame>, g: seq<Frame>, k: Key, e: byte)
    requires Generation(g, k, e) && !k.1 && Wf(d) && Directed(d, k.0) && NewTraffic(tr, g, k) && EachOnce(tr, g, k)
    requires k in d.states && Held(d, k.0) == [] && Roomy(tr, {}, 0, k, e)
    ensures OnKey(tr, k) != [] && (OnKey(Run(d, tr).out, k) == g <==> OnKey(tr, k)[0] == g[0])
  {
    hide Step, Run, OnKey, Wf, Directed, Roomy, Generation, NewTraffic;
    assert On(g[0], k) && 0 < |g| by { HeadOn(g, k, e); }
    OnKeyMember(tr, g[0], k);
    var o := FirstOn(tr, k);
    var n := OpenAt(tr, g[0]);
    if tr[o] == g[0] {
      OpenFirstDeliversAll(d, tr, g, k, e, o);
    } else {
      assert o < n;
      OvertakenIsLost(d, tr, g, k, e, o, n);
    }
  }

  lemma {:induction false} HeadOn(g: seq<Frame>, k: Key, e: byte)
    requires Generation(g, k, e)
    ensures 0 < |g| && On(g[0], k) && (!k.1 ==> g[0].ftype.Open?)
  {
  }

  lemma {:induction false} OpenFirstDeliversAll(d: Decoder, tr: seq<Frame>, g: seq<Frame>, k: Key, e: byte, o: nat)
    requires Generation(g, k, e) && !k.1 && Wf(d) && Directed(d, k.0) && NewTraffic(tr, g, k)
    requires k in d.states && Held(d, k.0) == [] && Roomy(tr, {}, 0, k, e)
    requires o < |tr| && tr[o] == g[0] && forall j :: 0 <= j < o ==> !On(tr[j], k)
    requires forall i :: 0 <= i < |g| ==> g[i] in tr
    ensures OnKey(Run(d, tr).out, k) == g
  {
    hide Step, Run, OnKey, Wf, Directed, Roomy, Arrived, FirstMissing, Admissible;
    var pre, post := tr[..o], tr[o + 1..];
    GenerationIndex(g, k, e, 0);
    assert g[0] !in pre;
    AroundReuse(d, tr, g, k, e, o);
    forall f | f in pre ensures OneSided(f, k.0) && !On(f, k) {
      assert f in tr;
    }
    QuietRun(d, pre, k);
    var l := Step(Run(d, pre).dec, g[0]).dec;
    ArrivedFirst(pre, g[0], k);
    assert tr == pre + [g[0]] + post;
    RoomySuffix(pre + [g[0]], post, 0, k, e);
    ContinuesExactly(l, post, g, k, e, 0, {0});
    ArrivedConcat(pre + [g[0]], post, k, e);
    var m := FirstMissing(Arrived(tr, k, e), 0);
    if m < |g| {
      GenerationIndex(g, k, e, m);
      ArrivedHas(tr, g[m], k);
    }
    assert g[..|g|] == g;
  }

  lemma {:induction false} OvertakenIsLost(d: Decoder, tr: seq<Frame>, g: seq<Frame>, k: Key, e: byte, o: nat, n: nat)
    requires Generation(g, k, e) && !k.1 && Wf(d) && Directed(d, k.0) && NewTraffic(tr, g, k) && EachOnce(tr, g, k)
    requires k in d.states && Held(d, k.0) == []
    requires o < n < |tr| && On(tr[o], k) && tr[n] == g[0] && g[0] !in tr[..n]
    ensures var b := Run(d, tr[..n]).out; var st := Run(d, tr).dec.states;
            && k in st && st[k].next < |g| && OnKey(Run(d, tr).out, k) == OnKey(b, k) + g[..st[k].next]
    ensures OnKey(Run(d, tr).out, k) != g
  {
    hide Step, Run, OnKey, Wf, Directed;
    var f := tr[o];
    assert f in tr && tr[..n][o] == f;
    var s := SessionSeq(f);
    GenerationIndex(g, k, e, s);
    GenerationIndex(g, k, e, 0);
    AroundReuse(d, tr, g, k, e, n);
    assert s >= 1 && f !in tr[n + 1..];
    NotPast(Step(Run(d, tr[..n]).dec, g[0]).dec, tr[n + 1..], g, k, e, s);
    var early := OnKey(Run(d, tr[..n]).out, k);
    if early != [] {
      assert early[0] in early && !early[0].ftype.Open?;
      assert OnKey(Run(d, tr).out, k)[0] == early[0];
    } else {
      assert |OnKey(Run(d, tr).out, k)| < |g|;
    }
  }
}
