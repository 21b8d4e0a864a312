/** What the reordering decoder guarantees over every arrival sequence: bounds, order, completeness,
    and isolation between sessions and generations (src/tunnel/multiplex.rs). */
module Reordering {
  import opened Bytes
  import opened MuxFrame
  import opened MuxDecoder

  // ----- Projections of traces -----

  /** The frames of one key, in order. */
  function OnKey(fs: seq<Frame>, k: Key): seq<Frame> {
    Filter(fs, (f: Frame) => On(f, k))
  }

  lemma {:induction false} OnKeyConcat(a: seq<Frame>, b: seq<Frame>, k: Key)
    ensures OnKey(a + b, k) == OnKey(a, k) + OnKey(b, k)
  {
    FilterConcat(a, b, (f: Frame) => On(f, k));
  }

  lemma {:induction false} OnKeyAll(fs: seq<Frame>, k: Key)
    requires forall f :: f in fs ==> On(f, k)
    ensures OnKey(fs, k) == fs
    decreases |fs|
  {
    if fs != [] {
      OnKeyAll(fs[..|fs| - 1], k);
    }
  }

  lemma {:induction false} OnKeyNone(fs: seq<Frame>, k: Key)
    requires forall f :: f in fs ==> !On(f, k)
    ensures OnKey(fs, k) == []
    decreases |fs|
  {
    if fs != [] {
      OnKeyNone(fs[..|fs| - 1], k);
    }
  }

  // ----- The decoder invariant: bounds and provenance -----

  /** A frame that may wait in a buffer or a hold queue of `sid`. */
  predicate Waiting(f: Frame, sid: u16) {
    f.sid == sid && Ordered(f) && !f.ftype.Open?
  }

  predicate Filed(f: Frame, i: nat, e: byte, sid: u16) {
    Waiting(f, sid) && Epoch(f) == e && SessionSeq(f) == i
  }

  ghost predicate StateWf(st: Reorder, sid: u16) {
    && |st.buf| <= REORDER_MAX
    && forall i :: i in st.buf ==> st.next < i && Filed(st.buf[i], i, st.epoch, sid)
  }

  ghost predicate HoldWf(v: seq<Frame>, sid: u16) {
    |v| <= PREOPEN_MAX && forall f :: f in v ==> Waiting(f, sid)
  }

  ghost predicate StatesWf(states: map<Key, Reorder>) {
    forall k :: k in states ==> StateWf(states[k], k.0)
  }

  ghost predicate HoldsWf(pre: map<u16, seq<Frame>>) {
    forall sid :: sid in pre ==> HoldWf(pre[sid], sid)
  }

  /** Every gap buffer holds at most 4096 frames, all beyond `next` and filed under their own number;
      every hold queue at most 64. */
  ghost predicate Wf(d: Decoder) {
    StatesWf(d.states) && HoldsWf(d.preopen)
  }

  /** What `flush_ready` takes, and what it leaves. */
  lemma {:induction false} FlushSpec(st: Reorder)
    ensures var r := Flush(st);
            && r.st.epoch == st.epoch && r.st.next == st.next + |r.out| && r.st.next !in st.buf
            && (forall i :: st.next <= i < r.st.next ==> i in st.buf && r.out[i - st.next] == st.buf[i])
            && r.st.buf == map i | i in st.buf && !(st.next <= i < r.st.next) :: st.buf[i]
    decreases |st.buf|
  {
    if st.next in st.buf {
      var after := Reorder(st.epoch, st.next + 1, st.buf - {st.next});
      FlushSpec(after);
      var r := Flush(st);
      forall i | st.next <= i < r.st.next
        ensures i in st.buf && r.out[i - st.next] == st.buf[i]
      {
        if i > st.next {
          assert i in after.buf && Flush(after).out[i - after.next] == after.buf[i];
        }
      }
    }
  }

  /** Where the frames of a merged buffer come from, and that nothing of the generation is lost while
      there is room. */
  lemma {:induction false} MergeSpec(st: Reorder, w: seq<Frame>)
    requires |st.buf| <= REORDER_MAX
    ensures var r := Merge(st, w).st;
            && r.epoch == st.epoch && r.next == st.next && |r.buf| <= REORDER_MAX
            && (forall i :: i in r.buf ==>
                  (i in st.buf && r.buf[i] == st.buf[i])
                  || (r.buf[i] in w && Epoch(r.buf[i]) == st.epoch && SessionSeq(r.buf[i]) == i >= st.next))
            && (|st.buf| + |w| <= REORDER_MAX ==>
                  && st.buf.Keys <= r.buf.Keys
                  && forall f :: f in w && Epoch(f) == st.epoch && SessionSeq(f) >= st.next ==> SessionSeq(f) in r.buf)
    decreases |w|
  {
    if w != [] {
      var one := MergeOne(st, w[0]).st;
      assert |one.buf| <= |st.buf| + 1;
      MergeSpec(one, w[1..]);
      var r := Merge(st, w).st;
      assert r == Merge(one, w[1..]).st;
      assert forall f :: f in w <==> f == w[0] || f in w[1..];
    }
  }

  /** Flushed and remaining frames are frames of the buffer. */
  lemma {:induction false} FlushSource(st: Reorder)
    ensures forall x :: x in Flush(st).out ==> exists i :: i in st.buf && st.buf[i] == x
    ensures forall i :: i in Flush(st).st.buf ==> i in st.buf && Flush(st).st.buf[i] == st.buf[i]
  {
    FlushSpec(st);
    var r := Flush(st);
    forall x | x in r.out
      ensures exists i :: i in st.buf && st.buf[i] == x
    {
      var j :| 0 <= j < |r.out| && r.out[j] == x;
      assert st.next + j in st.buf && x == st.buf[st.next + j];
    }
  }

  lemma {:induction false} FlushWf(st: Reorder, sid: u16)
    requires |st.buf| <= REORDER_MAX
    requires forall i :: i in st.buf ==> st.next <= i && Filed(st.buf[i], i, st.epoch, sid)
    ensures StateWf(Flush(st).st, sid)
    ensures forall f :: f in Flush(st).out ==> Waiting(f, sid)
  {
    hide Flush;
    FlushSource(st);
    FlushSpec(st);
    SubmapSize(Flush(st).st.buf, st.buf);
  }

  lemma {:induction false} SubmapSize(small: map<nat, Frame>, big: map<nat, Frame>)
    requires small.Keys <= big.Keys
    ensures |small| <= |big|
  {
    SubsetSize(small.Keys, big.Keys);
    assert |small| == |small.Keys| && |big| == |big.Keys|;
  }

  lemma {:induction false} PutWf(states: map<Key, Reorder>, k: Key, st: Reorder)
    requires StatesWf(states) && StateWf(st, k.0)
    ensures StatesWf(states[k := st])
  {
  }

  lemma {:induction false} StepOpenWf(d: Decoder, f: Frame)
    requires Wf(d) && Ordered(f) && f.ftype.Open?
    ensures Wf(StepOpen(d, f).dec)
    ensures forall x :: x in StepOpen(d, f).out ==> x == f || Waiting(x, f.sid)
  {
    hide Flush, Merge;
    var w := Held(d, f.sid);
    MergeSpec(Baseline(f), w);
    FlushWf(Merge(Baseline(f), w).st, f.sid);
    PutWf(d.states, KeyOf(f), Flush(Merge(Baseline(f), w).st).st);
  }

  lemma {:induction false} InsertWf(st: Reorder, f: Frame, sid: u16)
    requires StateWf(st, sid) && |st.buf| < REORDER_MAX
    requires st.next < SessionSeq(f) && Filed(f, SessionSeq(f), st.epoch, sid)
    ensures StateWf(st.(buf := st.buf[SessionSeq(f) := f]), sid)
  {
    assert |st.buf[SessionSeq(f) := f]| <= |st.buf| + 1;
  }

  lemma {:induction false} DeliverWf(st: Reorder, sid: u16)
    requires StateWf(st, sid)
    ensures StateWf(Flush(st.(next := st.next + 1)).st, sid)
    ensures forall f :: f in Flush(st.(next := st.next + 1)).out ==> Waiting(f, sid)
  {
    hide Flush;
    FlushWf(st.(next := st.next + 1), sid);
  }

  lemma {:induction false} WaitsForItsTurn(f: Frame)
    requires Ordered(f) && !f.ftype.Open?
    ensures Waiting(f, f.sid)
  {
  }

  lemma {:induction false} StepSameWf(d: Decoder, f: Frame)
    requires Wf(d) && Ordered(f) && !f.ftype.Open? && KeyOf(f) in d.states && d.states[KeyOf(f)].epoch == Epoch(f)
    ensures StatesWf(StepSame(d, f).dec.states)
    ensures forall x :: x in StepSame(d, f).out ==> x == f || Waiting(x, f.sid)
  {
    hide Flush, StateWf, Waiting, Ordered, Epoch, SessionSeq;
    var st := d.states[KeyOf(f)];
    assert StateWf(st, f.sid);
    var s := SessionSeq(f);
    assert Waiting(f, f.sid) by { WaitsForItsTurn(f); }
    if s == st.next {
      DeliverWf(st, f.sid);
      PutWf(d.states, KeyOf(f), Flush(st.(next := st.next + 1)).st);
    } else if s > st.next && |st.buf| < REORDER_MAX {
      InsertWf(st, f, f.sid);
      PutWf(d.states, KeyOf(f), st.(buf := st.buf[s := f]));
    }
  }

  lemma {:induction false} StepBaselineWf(d: Decoder, f: Frame)
    requires Wf(d)
    ensures Wf(StepBaseline(d, f).dec)
  {
  }

  lemma {:induction false} StepHoldWf(d: Decoder, f: Frame)
    requires Wf(d) && Waiting(f, f.sid)
    ensures Wf(StepHold(d, f).dec)
  {
  }

  /** One step keeps the invariant, and delivers only frames of the session it was given. */
  lemma {:induction false} StepWf(d: Decoder, f: Frame)
    requires Wf(d)
    ensures Wf(Step(d, f).dec)
    ensures forall x :: x in Step(d, f).out ==> x.sid == f.sid && (x == f || Waiting(x, f.sid))
  {
    hide Flush, Merge;
    if Ordered(f) {
      if f.ftype.Open? {
        StepOpenWf(d, f);
      } else if KeyOf(f) in d.states {
        if d.states[KeyOf(f)].epoch == Epoch(f) {
          StepSameWf(d, f);
        } else {
          StepBaselineWf(d, f);
        }
      } else {
        StepBaselineWf(d, f);
        StepHoldWf(d, f);
      }
    }
  }

  /** Bounds over every arrival sequence. */
  lemma {:induction false} RunWf(d: Decoder, tr: seq<Frame>)
    requires Wf(d)
    ensures Wf(Run(d, tr).dec)
    decreases |tr|
  {
    hide Step;
    if tr != [] {
      RunWf(d, tr[..|tr| - 1]);
      StepWf(Run(d, tr[..|tr| - 1]).dec, tr[|tr| - 1]);
    }
  }

  // ----- Steps that do not concern a key -----

  ghost predicate AllFrom(st: Reorder, acceptor: bool) {
    forall i :: i in st.buf ==> FromAcceptor(st.buf[i]) == acceptor
  }

  ghost predicate AllOpener(v: seq<Frame>) {
    forall f :: f in v ==> !FromAcceptor(f)
  }

  /** For one session: buffered frames travel in the direction of their key, and only openers wait for an Open. */
  ghost predicate Directed(d: Decoder, sid: u16) {
    && ((sid, false) in d.states ==> AllFrom(d.states[(sid, false)], false))
    && ((sid, true) in d.states ==> AllFrom(d.states[(sid, true)], true))
    && AllOpener(Held(d, sid))
  }

  /** Openers send Open; the acceptor never answers with one. */
  predicate NoAcceptorOpen(f: Frame) {
    Ordered(f) && f.ftype.Open? ==> !FromAcceptor(f)
  }

  /** The same for the frames of one session; the others are free. */
  predicate OneSided(f: Frame, sid: u16) {
    f.sid == sid ==> NoAcceptorOpen(f)
  }

  lemma {:induction false} StepOpenDirected(d: Decoder, f: Frame)
    requires Wf(d) && Directed(d, f.sid) && Ordered(f) && f.ftype.Open? && !FromAcceptor(f)
    ensures Directed(StepOpen(d, f).dec, f.sid)
    ensures forall x :: x in StepOpen(d, f).out ==> FromAcceptor(x) == FromAcceptor(f)
  {
    hide Flush, Merge;
    var base, w := Baseline(f), Held(d, f.sid);
    MergeSpec(base, w);
    var merged := Merge(base, w).st;
    assert AllOpener(w);
    assert AllFrom(merged, false);
    FlushSource(merged);
  }

  lemma {:induction false} StepSameDirected(d: Decoder, f: Frame)
    requires Directed(d, f.sid) && KeyOf(f) in d.states
    ensures Directed(StepSame(d, f).dec, f.sid)
    ensures forall x :: x in StepSame(d, f).out ==> FromAcceptor(x) == FromAcceptor(f)
  {
    hide Flush, Merge;
    var st := d.states[KeyOf(f)];
    assert AllFrom(st, FromAcceptor(f));
    if SessionSeq(f) == st.next {
      FlushSource(st.(next := st.next + 1));
    }
  }

  lemma {:induction false} StepHoldDirected(d: Decoder, f: Frame)
    requires Directed(d, f.sid)
    ensures Directed(StepBaseline(d, f).dec, f.sid)
    ensures !FromAcceptor(f) ==> Directed(StepHold(d, f).dec, f.sid)
  {
    assert AllOpener(Held(d, f.sid));
  }

  /** A frame of another session leaves both directions of this one alone. */
  lemma {:induction false} StepOtherSession(d: Decoder, f: Frame, sid: u16)
    requires f.sid != sid
    ensures var r := Step(d, f).dec;
            && Held(r, sid) == Held(d, sid)
            && forall dir :: (((sid, dir) in r.states <==> (sid, dir) in d.states)
                              && ((sid, dir) in d.states ==> r.states[(sid, dir)] == d.states[(sid, dir)]))
  {
    hide Flush, Merge;
  }

  lemma {:induction false} StepDirected(d: Decoder, f: Frame, sid: u16)
    requires Wf(d) && Directed(d, sid) && OneSided(f, sid)
    ensures Directed(Step(d, f).dec, sid)
    ensures Ordered(f) && f.sid == sid ==> forall x :: x in Step(d, f).out ==> On(x, KeyOf(f))
  {
    hide Flush, Merge;
    StepWf(d, f);
    if f.sid != sid {
      StepOtherSession(d, f, sid);
    } else if Ordered(f) {
      if f.ftype.Open? {
        StepOpenDirected(d, f);
      } else if KeyOf(f) in d.states && d.states[KeyOf(f)].epoch == Epoch(f) {
        StepSameDirected(d, f);
      } else {
        StepHoldDirected(d, f);
      }
    }
  }

  /** A step changes only the key of its frame, and the hold queue of that session's opener. */
  lemma {:induction false} StepFrame(d: Decoder, f: Frame, k: Key)
    requires OneSided(f, k.0) && !On(f, k)
    ensures var r := Step(d, f).dec;
            && (k in r.states <==> k in d.states)
            && (k in d.states ==> r.states[k] == d.states[k])
            && (!k.1 ==> Held(r, k.0) == Held(d, k.0))
  {
    hide Flush, Merge;
  }

  /** A frame that is not on a key leaves that key alone, and delivers nothing on it. */
  lemma {:induction false} StepElsewhere(d: Decoder, f: Frame, k: Key)
    requires Wf(d) && Directed(d, k.0) && OneSided(f, k.0) && !On(f, k)
    ensures OnKey(Step(d, f).out, k) == []
  {
    hide Flush, Merge;
    StepWf(d, f);
    StepDirected(d, f, k.0);
    OnKeyNone(Step(d, f).out, k);
  }
}
