/** Sessions do not disturb each other, and no frame goes missing without being counted
    (src/tunnel/multiplex.rs). */
module Isolation {
  import opened Bytes
  import opened MuxFrame
  import opened MuxDecoder
  import opened Reordering
  import opened Generations

  // ----- No cross-session blocking -----

  /** All frames of a session, ordered or not. */
  function OnSid(fs: seq<Frame>, sid: u16): seq<Frame> {
    Filter(fs, (f: Frame) => f.sid == sid)
  }

  lemma {:induction false} OnSidConcat(a: seq<Frame>, b: seq<Frame>, sid: u16)
    ensures OnSid(a + b, sid) == OnSid(a, sid) + OnSid(b, sid)
  {
    FilterConcat(a, b, (f: Frame) => f.sid == sid);
  }

  lemma {:induction false} OnSidUniform(fs: seq<Frame>, from: u16, sid: u16)
    requires forall f :: f in fs ==> f.sid == from
    ensures OnSid(fs, sid) == if from == sid then fs else []
    decreases |fs|
  {
    if fs != [] {
      OnSidUniform(fs[..|fs| - 1], from, sid);
    }
  }

  function At(d: Decoder, k: Key): Option<Reorder> {
    if k in d.states then Some(d.states[k]) else None
  }

  /** Two decoders that cannot be told apart by the frames of one session. */
  ghost predicate SameFor(a: Decoder, b: Decoder, sid: u16) {
    && At(a, (sid, false)) == At(b, (sid, false))
    && At(a, (sid, true)) == At(b, (sid, true))
    && Held(a, sid) == Held(b, sid)
  }

  lemma {:induction false} OpenAlike(a: Decoder, b: Decoder, f: Frame)
    requires SameFor(a, b, f.sid)
    ensures SameFor(StepOpen(a, f).dec, StepOpen(b, f).dec, f.sid)
    ensures StepOpen(a, f).out == StepOpen(b, f).out
  {
    hide Flush, Merge;
  }

  lemma {:induction false} SameAlike(a: Decoder, b: Decoder, f: Frame)
    requires SameFor(a, b, f.sid) && KeyOf(f) in a.states && KeyOf(f) in b.states
    requires a.states[KeyOf(f)] == b.states[KeyOf(f)]
    ensures SameFor(StepSame(a, f).dec, StepSame(b, f).dec, f.sid)
    ensures StepSame(a, f).out == StepSame(b, f).out
  {
    hide Flush, Merge;
  }

  lemma {:induction false} HoldAlike(a: Decoder, b: Decoder, f: Frame)
    requires SameFor(a, b, f.sid)
    ensures SameFor(StepHold(a, f).dec, StepHold(b, f).dec, f.sid)
    ensures SameFor(StepBaseline(a, f).dec, StepBaseline(b, f).dec, f.sid)
  {
  }

  lemma {:induction false} StepAlike(a: Decoder, b: Decoder, f: Frame)
    requires SameFor(a, b, f.sid)
    ensures SameFor(Step(a, f).dec, Step(b, f).dec, f.sid)
    ensures Step(a, f).out == Step(b, f).out
  {
    hide Flush, Merge;
    assert KeyOf(f) == (f.sid, false) || KeyOf(f) == (f.sid, true);
    assert At(a, KeyOf(f)) == At(b, KeyOf(f));
    if Ordered(f) {
      if f.ftype.Open? {
        OpenAlike(a, b, f);
      } else if KeyOf(f) in a.states && a.states[KeyOf(f)].epoch == Epoch(f) {
        SameAlike(a, b, f);
      } else {
        HoldAlike(a, b, f);
      }
    }
  }

  lemma {:induction false} StepForeign(a: Decoder, f: Frame, sid: u16)
    requires f.sid != sid
    ensures SameFor(Step(a, f).dec, a, sid)
  {
    hide Step;
    StepOtherSession(a, f, sid);
  }

  /** THEOREM (no cross-session blocking). For every interleaving, what is delivered for a session is exactly
      what is delivered when the decoder sees that session's frames alone. */
  lemma {:induction false} SessionsIndependent(a: Decoder, b: Decoder, tr: seq<Frame>, sid: u16)
    requires Wf(a) && SameFor(a, b, sid)
    ensures OnSid(Run(a, tr).out, sid) == Run(b, OnSid(tr, sid)).out
    ensures SameFor(Run(a, tr).dec, Run(b, OnSid(tr, sid)).dec, sid)
    decreases |tr|
  {
    hide Step, Wf, SameFor;
    if tr != [] {
      var pre, f := tr[..|tr| - 1], tr[|tr| - 1];
      SessionsIndependent(a, b, pre, sid);
      RunWf(a, pre);
      var x, y := Run(a, pre).dec, Run(b, OnSid(pre, sid)).dec;
      var out := Step(x, f).out;
      StepWf(x, f);
      OnSidUniform(out, f.sid, sid);
      OnSidConcat(Run(a, pre).out, out, sid);
      if f.sid == sid {
        StepAlike(x, y, f);
        RunSnoc(b, OnSid(pre, sid), f);
      } else {
        StepForeign(x, f, sid);
        SameForTrans(Step(x, f).dec, x, y, sid);
        assert OnSid(tr, sid) == OnSid(pre, sid);
      }
    }
  }

  lemma {:induction false} SameForTrans(a: Decoder, b: Decoder, c: Decoder, sid: u16)
    requires SameFor(a, b, sid) && SameFor(b, c, sid)
    ensures SameFor(a, c, sid)
  {
  }

  // ----- Frames without an order -----

  /** The frames that take part in reordering. */
  function OrderedOf(fs: seq<Frame>): seq<Frame> {
    Filter(fs, Ordered)
  }

  lemma {:induction false} OrderedOfAll(fs: seq<Frame>)
    requires forall f :: f in fs ==> Ordered(f)
    ensures OrderedOf(fs) == fs
    decreases |fs|
  {
    if fs != [] {
      OrderedOfAll(fs[..|fs| - 1]);
    }
  }

  /** By type: in any state, a frame that is not Open, Data, Fin or Close is delivered alone, at once, and changes
      nothing; so is one of those four without a generation. */
  lemma {:induction false} DeliveredByType(d: Decoder, f: Frame)
    requires !(f.ftype.Open? || f.ftype.Data? || f.ftype.Fin? || f.ftype.Close?) || f.seqno < 0x100_0000
    ensures Step(d, f) == Stepped(d, [f])
  {
    assert f.seqno < 0x100_0000 ==> Epoch(f) == 0;
  }

  /** By type: a stamped Data, Fin or Close of an opener that has not been opened is delivered by no one. */
  lemma {:induction false} HeldByType(d: Decoder, f: Frame)
    requires (f.ftype.Data? || f.ftype.Fin? || f.ftype.Close?) && f.seqno >= 0x100_0000
    requires !FromAcceptor(f) && (f.sid, false) !in d.states
    ensures Step(d, f).out == []
    ensures |Held(d, f.sid)| < 64 ==> Held(Step(d, f).dec, f.sid) == Held(d, f.sid) + [f]
    ensures |Held(d, f.sid)| >= 64 ==>
              Held(Step(d, f).dec, f.sid) == Held(d, f.sid) && Step(d, f).dec.staleDropped == d.staleDropped + 1
  {
    hide Flush, Merge;
  }

  /** THEOREM (unordered frames). On every trace, frames without an order leave no trace in the decoder and do not
      change what is delivered of the others; each is delivered alone, at once. */
  lemma {:induction false} UnorderedPassBy(d: Decoder, tr: seq<Frame>)
    requires Wf(d)
    ensures Run(d, tr).dec == Run(d, OrderedOf(tr)).dec
    ensures OrderedOf(Run(d, tr).out) == Run(d, OrderedOf(tr)).out
    ensures forall j :: 0 <= j < |tr| && !Ordered(tr[j]) ==>
      Step(Run(d, tr[..j]).dec, tr[j]) == Stepped(Run(d, tr[..j]).dec, [tr[j]])
    decreases |tr|
  {
    hide Wf, StepOpen, StepSame, StepHold, StepBaseline;
    if tr != [] {
      var pre, f := tr[..|tr| - 1], tr[|tr| - 1];
      UnorderedPassBy(d, pre);
      RunWf(d, pre);
      var b := Run(d, pre);
      var out := Step(b.dec, f).out;
      FilterConcat(b.out, out, Ordered);
      if Ordered(f) {
        StepWf(b.dec, f);
        OrderedOfAll(out);
        RunSnoc(d, OrderedOf(pre), f);
      } else {
        assert OrderedOf(tr) == OrderedOf(pre);
        assert OrderedOf([f]) == [] by { assert [f][..0] == []; }
      }
    }
  }

  // ----- Nothing is invented -----

  /** Every waiting frame is one of `from`. */
  ghost predicate WaitsFrom(d: Decoder, from: set<Frame>) {
    && (forall k :: k in d.states ==> d.states[k].buf.Values <= from)
    && (forall sid :: sid in d.preopen ==> forall x :: x in d.preopen[sid] ==> x in from)
  }

  lemma {:induction false} FlushWaits(st: Reorder, from: set<Frame>)
    requires st.buf.Values <= from
    ensures Flush(st).st.buf.Values <= from && forall x :: x in Flush(st).out ==> x in from
  {
    hide Flush;
    FlushSource(st);
  }

  lemma {:induction false} OpenWaits(d: Decoder, f: Frame, from: set<Frame>)
    requires WaitsFrom(d, from) && f in from
    ensures WaitsFrom(StepOpen(d, f).dec, from) && forall x :: x in StepOpen(d, f).out ==> x in from
  {
    hide Flush, Merge;
    var base, w := Baseline(f), Held(d, f.sid);
    MergeSpec(base, w);
    FlushWaits(Merge(base, w).st, from);
  }

  lemma {:induction false} SameWaits(d: Decoder, f: Frame, from: set<Frame>)
    requires WaitsFrom(d, from) && f in from && KeyOf(f) in d.states
    ensures WaitsFrom(StepSame(d, f).dec, from) && forall x :: x in StepSame(d, f).out ==> x in from
  {
    hide Flush;
    var st := d.states[KeyOf(f)];
    FlushWaits(st.(next := st.next + 1), from);
  }

  /** THEOREM (no invention). On every trace, whatever is delivered or waiting was fed. */
  lemma {:induction false} NothingInvented(tr: seq<Frame>)
    ensures var r := Run(FRESH, tr); var fed := set f | f in tr;
            WaitsFrom(r.dec, fed) && forall x :: x in r.out ==> x in fed
    decreases |tr|
  {
    hide StepOpen, StepSame;
    if tr != [] {
      var pre, f := tr[..|tr| - 1], tr[|tr| - 1];
      NothingInvented(pre);
      var fed := set x | x in tr;
      var d := Run(FRESH, pre).dec;
      assert (set x | x in pre) <= fed;
      assert WaitsFrom(d, fed);
      if Ordered(f) {
        if f.ftype.Open? {
          OpenWaits(d, f, fed);
        } else if KeyOf(f) in d.states {
          SameWaits(d, f, fed);
        }
      }
    }
  }

  // ----- Exact accounting of every frame -----

  /** Held frames of the same number that overwrite one another while an Open merges them. */
  function MergeLost(st: Reorder, w: seq<Frame>): nat
    decreases |w|
  {
    if w == [] then 0
    else
      var one := MergeOne(st, w[0]);
      (if one.dropped == 0 && SessionSeq(w[0]) in st.buf then 1 else 0) + MergeLost(one.st, w[1..])
  }

  /** Frames a step loses without counting them: a duplicate that overwrites a buffered frame, and the buffer
      of a generation that is replaced. */
  function Lost(d: Decoder, f: Frame): nat {
    if !Ordered(f) then 0
    else
      var replaced := if KeyOf(f) in d.states then |d.states[KeyOf(f)].buf| else 0;
      if f.ftype.Open? then replaced + MergeLost(Baseline(f), Held(d, f.sid))
      else if KeyOf(f) !in d.states then 0
      else
        var st := d.states[KeyOf(f)];
        if st.epoch == Epoch(f) then
          if SessionSeq(f) in st.buf && st.next < SessionSeq(f) && |st.buf| < REORDER_MAX then 1 else 0
        else if Newer(Epoch(f), st.epoch) then replaced
        else 0
  }

  function RunLost(d: Decoder, tr: seq<Frame>): nat
    decreases |tr|
  {
    if tr == [] then 0
    else RunLost(d, tr[..|tr| - 1]) + Lost(Run(d, tr[..|tr| - 1]).dec, tr[|tr| - 1])
  }

  lemma {:induction false} FlushCount(st: Reorder)
    ensures |Flush(st).out| + |Flush(st).st.buf| == |st.buf|
    decreases |st.buf|
  {
    if st.next in st.buf {
      var rest := st.buf - {st.next};
      assert |st.buf| == |rest| + 1 by {
        assert st.buf.Keys == rest.Keys + {st.next};
        assert |st.buf| == |st.buf.Keys| && |rest| == |rest.Keys|;
      }
      FlushCount(Reorder(st.epoch, st.next + 1, rest));
    }
  }

  lemma {:induction false} InsertCount(m: map<nat, Frame>, s: nat, f: Frame)
    ensures |m[s := f]| == |m| + if s in m then 0 else 1
  {
    var n := m[s := f];
    assert n.Keys == m.Keys + {s};
    assert |m| == |m.Keys| && |n| == |n.Keys|;
  }

  lemma {:induction false} MergeCount(st: Reorder, w: seq<Frame>)
    ensures |Merge(st, w).st.buf| + Merge(st, w).dropped + MergeLost(st, w) == |st.buf| + |w|
    decreases |w|
  {
    if w != [] {
      InsertCount(st.buf, SessionSeq(w[0]), w[0]);
      MergeCount(MergeOne(st, w[0]).st, w[1..]);
    }
  }

  lemma {:induction false} PutBuffered(states: map<Key, Reorder>, k: Key, st: Reorder)
    ensures BufferedIn(states[k := st]) + (if k in states then |states[k].buf| else 0)
            == BufferedIn(states) + |st.buf|
  {
    BufferedRemove(states[k := st], k);
    assert states[k := st] - {k} == states - {k};
    if k in states {
      BufferedRemove(states, k);
    } else {
      assert states - {k} == states;
    }
  }

  lemma {:induction false} PutHeld(d: Decoder, sid: u16, v: seq<Frame>)
    ensures HeldIn(d.preopen[sid := v]) + |Held(d, sid)| == HeldIn(d.preopen) + |v|
    ensures HeldIn(d.preopen - {sid}) + |Held(d, sid)| == HeldIn(d.preopen)
  {
    HeldRemove(d.preopen[sid := v], sid);
    assert d.preopen[sid := v] - {sid} == d.preopen - {sid};
    if sid in d.preopen {
      HeldRemove(d.preopen, sid);
    } else {
      assert d.preopen - {sid} == d.preopen;
    }
  }

  ghost predicate Accounts(d: Decoder, f: Frame, r: Stepped) {
    1 + Buffered(d) + d.staleDropped == |r.out| + Buffered(r.dec) + r.dec.staleDropped + Lost(d, f)
  }

  lemma {:induction false} OpenAccounts(d: Decoder, f: Frame)
    requires Ordered(f) && f.ftype.Open?
    ensures Accounts(d, f, StepOpen(d, f))
  {
    hide Flush, Merge, BufferedIn, HeldIn;
    var w := Held(d, f.sid);
    var merged := Merge(Baseline(f), w);
    MergeCount(Baseline(f), w);
    FlushCount(merged.st);
    PutBuffered(d.states, KeyOf(f), Flush(merged.st).st);
    PutHeld(d, f.sid, []);
  }

  lemma {:induction false} SameAccounts(d: Decoder, f: Frame)
    requires Ordered(f) && !f.ftype.Open? && KeyOf(f) in d.states && d.states[KeyOf(f)].epoch == Epoch(f)
    requires Wf(d)
    ensures Accounts(d, f, StepSame(d, f))
  {
    hide Flush, Merge, BufferedIn, HeldIn;
    var st, s := d.states[KeyOf(f)], SessionSeq(f);
    assert StateWf(st, f.sid);
    if s == st.next {
      var onward := st.(next := st.next + 1);
      FlushCount(onward);
      PutBuffered(d.states, KeyOf(f), Flush(onward).st);
    } else if s > st.next && |st.buf| < REORDER_MAX {
      InsertCount(st.buf, s, f);
      PutBuffered(d.states, KeyOf(f), st.(buf := st.buf[s := f]));
    }
  }

  lemma {:induction false} StepAccounts(d: Decoder, f: Frame)
    requires Wf(d)
    ensures Accounts(d, f, Step(d, f))
  {
    hide Flush, Merge, BufferedIn, HeldIn;
    if Ordered(f) {
      if f.ftype.Open? {
        OpenAccounts(d, f);
      } else if KeyOf(f) in d.states {
        if d.states[KeyOf(f)].epoch == Epoch(f) {
          SameAccounts(d, f);
        } else {
          PutBuffered(d.states, KeyOf(f), Baseline(f));
        }
      } else {
        PutBuffered(d.states, KeyOf(f), Baseline(f));
        PutHeld(d, f.sid, Held(d, f.sid) + [f]);
        PutHeld(d, f.sid, Held(d, f.sid));
      }
    }
  }

  /** THEOREM (conservation). On every trace, every frame fed is delivered, waiting, counted as dropped, or one
      of the silently lost ones named by `Lost`. */
  lemma {:induction false} Conservation(d: Decoder, tr: seq<Frame>)
    requires Wf(d)
    ensures var r := Run(d, tr);
            |tr| + Buffered(d) + d.staleDropped
            == |r.out| + Buffered(r.dec) + r.dec.staleDropped + RunLost(d, tr)
    decreases |tr|
  {
    hide Step, Wf, Buffered, Lost;
    if tr != [] {
      var pre := tr[..|tr| - 1];
      Conservation(d, pre);
      RunWf(d, pre);
      StepAccounts(Run(d, pre).dec, tr[|tr| - 1]);
    }
  }

  // ----- When nothing is silently lost -----

  /** Two frames with the same place in the same generation of the same key. */
  predicate SameStamp(a: Frame, b: Frame) {
    Ordered(a) && Ordered(b) && KeyOf(a) == KeyOf(b) && a.seqno == b.seqno
  }

  predicate DistinctStamps(fs: seq<Frame>) {
    forall i, j :: 0 <= i < j < |fs| ==> !SameStamp(fs[i], fs[j])
  }

  /** Duplicate-free traffic with one generation per key: each key keeps to one epoch and has at most one Open,
      and acceptors send none. */
  ghost predicate PlainTraffic(tr: seq<Frame>) {
    && DistinctStamps(tr)
    && (forall f :: f in tr ==> NoAcceptorOpen(f))
    && (forall x, y :: x in tr && y in tr && Ordered(x) && Ordered(y) && KeyOf(x) == KeyOf(y) ==> Epoch(x) == Epoch(y))
    && (forall i, j ::
          0 <= i < j < |tr| && Ordered(tr[i]) && Ordered(tr[j]) && tr[i].ftype.Open? && tr[j].ftype.Open? ==>
          KeyOf(tr[i]) != KeyOf(tr[j]))
  }

  ghost predicate StateFrom(st: Reorder, k: Key, tr: seq<Frame>) {
    && (forall i :: i in st.buf ==> st.buf[i] in tr)
    && (exists x :: x in tr && On(x, k) && Epoch(x) == st.epoch)
    && (!k.1 ==> exists x :: x in tr && On(x, k) && x.ftype.Open?)
  }

  ghost predicate HoldFrom(v: seq<Frame>, tr: seq<Frame>) {
    DistinctStamps(v) && forall x :: x in v ==> x in tr
  }

  /** Everything the decoder holds came from the trace, and an opener key has a state only after its Open. */
  ghost predicate ComesFrom(d: Decoder, tr: seq<Frame>) {
    && (forall k :: k in d.states ==> StateFrom(d.states[k], k, tr))
    && (forall sid :: sid in d.preopen ==> HoldFrom(d.preopen[sid], tr))
  }

  lemma {:induction false} MergeLosesNone(st: Reorder, w: seq<Frame>, k: Key)
    requires DistinctStamps(w) && forall x :: x in w ==> On(x, k)
    requires forall x :: x in w && Epoch(x) == st.epoch ==> SessionSeq(x) !in st.buf
    ensures MergeLost(st, w) == 0
    decreases |w|
  {
    if w != [] {
      var f, one := w[0], MergeOne(st, w[0]).st;
      forall x | x in w[1..] && Epoch(x) == one.epoch ensures SessionSeq(x) !in one.buf {
        var j :| 1 <= j < |w| && w[j] == x;
        assert f in w && x in w && !SameStamp(w[0], w[j]);
        assert f.seqno == Epoch(f) * EPOCH_UNIT + SessionSeq(f) && x.seqno == Epoch(x) * EPOCH_UNIT + SessionSeq(x);
      }
      MergeLosesNone(one, w[1..], k);
    }
  }

  lemma {:induction false} NewStamp(tr: seq<Frame>, x: Frame, f: Frame)
    requires DistinctStamps(tr + [f]) && x in tr
    ensures !SameStamp(x, f)
  {
    var i :| 0 <= i < |tr| && tr[i] == x;
    assert !SameStamp((tr + [f])[i], (tr + [f])[|tr|]);
  }

  lemma {:induction false} OneOpen(tr: seq<Frame>, x: Frame, f: Frame)
    requires PlainTraffic(tr + [f]) && x in tr
    ensures !(Ordered(x) && Ordered(f) && x.ftype.Open? && f.ftype.Open? && KeyOf(x) == KeyOf(f))
  {
    var i :| 0 <= i < |tr| && tr[i] == x;
    assert (tr + [f])[i] == x && (tr + [f])[|tr|] == f;
  }

  lemma {:induction false} OpenLosesNone(d: Decoder, f: Frame, tr: seq<Frame>)
    requires Wf(d) && Directed(d, f.sid) && ComesFrom(d, tr) && PlainTraffic(tr + [f])
    requires Ordered(f) && f.ftype.Open?
    ensures Lost(d, f) == 0
  {
    hide MergeLost, PlainTraffic;
    var k := KeyOf(f);
    PlainOpen(tr, f);
    if k in d.states {
      assert StateFrom(d.states[k], k, tr);
      var x :| x in tr && On(x, k) && x.ftype.Open?;
      OneOpen(tr, x, f);
    }
    var w := Held(d, f.sid);
    assert HoldWf(w, f.sid) && AllOpener(w) && HoldFrom(w, tr);
    MergeLosesNone(Baseline(f), w, k);
  }

  lemma {:induction false} PlainOpen(tr: seq<Frame>, f: Frame)
    requires PlainTraffic(tr + [f])
    ensures NoAcceptorOpen(f)
  {
    assert f in tr + [f];
  }

  /** A stamped frame that is new to the trace differs from everything buffered for its generation. */
  lemma {:induction false} BufferedStampDiffers(d: Decoder, f: Frame, tr: seq<Frame>)
    requires Wf(d) && Directed(d, f.sid) && ComesFrom(d, tr) && DistinctStamps(tr + [f])
    requires Ordered(f) && KeyOf(f) in d.states && d.states[KeyOf(f)].epoch == Epoch(f)
    ensures SessionSeq(f) !in d.states[KeyOf(f)].buf
  {
    var k, s := KeyOf(f), SessionSeq(f);
    var st := d.states[k];
    if s in st.buf {
      var x := st.buf[s];
      assert StateFrom(st, k, tr) && StateWf(st, k.0) && AllFrom(st, k.1);
      assert f.seqno == Epoch(f) * EPOCH_UNIT + s && x.seqno == Epoch(x) * EPOCH_UNIT + s;
      NewStamp(tr, x, f);
    }
  }

  lemma {:induction false} EpochAgrees(d: Decoder, f: Frame, tr: seq<Frame>)
    requires ComesFrom(d, tr) && PlainTraffic(tr + [f]) && Ordered(f) && KeyOf(f) in d.states
    ensures d.states[KeyOf(f)].epoch == Epoch(f)
  {
    var k := KeyOf(f);
    assert StateFrom(d.states[k], k, tr);
    var x :| x in tr && On(x, k) && Epoch(x) == d.states[k].epoch;
    assert x in tr + [f] && f in tr + [f];
  }

  lemma {:induction false} StepLosesNone(d: Decoder, f: Frame, tr: seq<Frame>)
    requires Wf(d) && Directed(d, f.sid) && ComesFrom(d, tr) && PlainTraffic(tr + [f])
    ensures Lost(d, f) == 0
  {
    hide ComesFrom, Directed, Wf;
    if Ordered(f) {
      if f.ftype.Open? {
        OpenLosesNone(d, f, tr);
      } else if KeyOf(f) in d.states {
        EpochAgrees(d, f, tr);
        BufferedStampDiffers(d, f, tr);
      }
    }
  }

  lemma {:induction false} FromGrows(d: Decoder, tr: seq<Frame>, f: Frame)
    requires ComesFrom(d, tr)
    ensures ComesFrom(d, tr + [f])
  {
    forall k | k in d.states ensures StateFrom(d.states[k], k, tr + [f]) {
      assert StateFrom(d.states[k], k, tr);
      var x :| x in tr && On(x, k) && Epoch(x) == d.states[k].epoch;
      assert x in tr + [f];
      if !k.1 {
        var o :| o in tr && On(o, k) && o.ftype.Open?;
        assert o in tr + [f];
      }
    }
    forall sid | sid in d.preopen ensures HoldFrom(d.preopen[sid], tr + [f]) {
      assert HoldFrom(d.preopen[sid], tr);
    }
  }

  lemma {:induction false} PutFrom(d: Decoder, k: Key, st: Reorder, tr: seq<Frame>, r: Decoder)
    requires ComesFrom(d, tr) && StateFrom(st, k, tr)
    requires r.states == d.states[k := st]
    requires forall sid :: sid in r.preopen ==> sid in d.preopen && r.preopen[sid] == d.preopen[sid]
    ensures ComesFrom(r, tr)
  {
  }

  lemma {:induction false} OpenComesFrom(d: Decoder, f: Frame, tr: seq<Frame>)
    requires ComesFrom(d, tr) && f in tr && Ordered(f) && f.ftype.Open?
    ensures ComesFrom(StepOpen(d, f).dec, tr)
  {
    hide Flush, Merge;
    var base, w := Baseline(f), Held(d, f.sid);
    MergeSpec(base, w);
    FlushSource(Merge(base, w).st);
    FlushSpec(Merge(base, w).st);
    assert HoldFrom(w, tr);
    assert On(f, KeyOf(f));
    PutFrom(d, KeyOf(f), Flush(Merge(base, w).st).st, tr, StepOpen(d, f).dec);
  }

  lemma {:induction false} SameComesFrom(d: Decoder, f: Frame, tr: seq<Frame>)
    requires ComesFrom(d, tr) && f in tr && KeyOf(f) in d.states
    ensures ComesFrom(StepSame(d, f).dec, tr)
  {
    hide Flush, Merge;
    var k := KeyOf(f);
    var st, s := d.states[k], SessionSeq(f);
    assert StateFrom(st, k, tr);
    if s == st.next {
      var onward := st.(next := st.next + 1);
      FlushSource(onward);
      FlushSpec(onward);
      PutFrom(d, k, Flush(onward).st, tr, StepSame(d, f).dec);
    } else if s > st.next && |st.buf| < REORDER_MAX {
      PutFrom(d, k, st.(buf := st.buf[s := f]), tr, StepSame(d, f).dec);
    }
  }

  lemma {:induction false} HoldComesFrom(d: Decoder, f: Frame, tr: seq<Frame>)
    requires ComesFrom(d, tr) && DistinctStamps(tr + [f])
    ensures ComesFrom(StepHold(d, f).dec, tr + [f])
  {
    FromGrows(d, tr, f);
    var v := Held(d, f.sid);
    assert HoldFrom(v, tr);
    forall i | 0 <= i < |v| ensures !SameStamp(v[i], f) {
      assert v[i] in v;
      NewStamp(tr, v[i], f);
    }
    assert HoldFrom(v, tr + [f]) && HoldFrom(v + [f], tr + [f]);
  }

  lemma {:induction false} StepComesFrom(d: Decoder, f: Frame, tr: seq<Frame>)
    requires ComesFrom(d, tr) && PlainTraffic(tr + [f])
    ensures ComesFrom(Step(d, f).dec, tr + [f])
  {
    hide Flush, Merge, StepHold, StepOpen, StepSame;
    FromGrows(d, tr, f);
    var all := tr + [f];
    assert f == all[|tr|];
    if Ordered(f) {
      if f.ftype.Open? {
        OpenComesFrom(d, f, all);
      } else if KeyOf(f) in d.states {
        EpochAgrees(d, f, tr);
        SameComesFrom(d, f, all);
      } else if FromAcceptor(f) {
        assert On(f, KeyOf(f));
        PutFrom(d, KeyOf(f), Baseline(f), all, Step(d, f).dec);
      } else {
        HoldComesFrom(d, f, tr);
      }
    }
  }

  lemma {:induction false} PlainPrefix(tr: seq<Frame>, n: nat)
    requires PlainTraffic(tr) && n <= |tr|
    ensures PlainTraffic(tr[..n])
  {
    assert forall x :: x in tr[..n] ==> x in tr;
  }

  lemma {:induction false} PlainRun(tr: seq<Frame>)
    requires PlainTraffic(tr)
    ensures Wf(Run(FRESH, tr).dec) && ComesFrom(Run(FRESH, tr).dec, tr)
    ensures forall sid :: Directed(Run(FRESH, tr).dec, sid)
    ensures RunLost(FRESH, tr) == 0
    decreases |tr|
  {
    hide Step, Wf, Directed, ComesFrom, Lost;
    FreshInvariants();
    if tr == [] {
      FreshComesFromNowhere();
    } else {
      var pre, f := tr[..|tr| - 1], tr[|tr| - 1];
      PlainPrefix(tr, |tr| - 1);
      PlainRun(pre);
      var d := Run(FRESH, pre).dec;
      assert tr == pre + [f] && f in tr;
      StepWf(d, f);
      forall sid ensures Directed(Run(FRESH, tr).dec, sid) {
        StepDirected(d, f, sid);
      }
      StepLosesNone(d, f, pre);
      StepComesFrom(d, f, pre);
    }
  }

  lemma {:induction false} FreshComesFromNowhere()
    ensures ComesFrom(FRESH, [])
  {
  }

  /** THEOREM. On duplicate-free traffic with one generation per key, frames fed = delivered + waiting + counted
      as dropped, exactly. */
  lemma {:induction false} PlainConservation(tr: seq<Frame>)
    requires PlainTraffic(tr)
    ensures var r := Run(FRESH, tr); |tr| == |r.out| + Buffered(r.dec) + r.dec.staleDropped
  {
    hide Run, RunLost, Wf, Buffered;
    FreshInvariants();
    FreshIsEmpty();
    PlainRun(tr);
    Conservation(FRESH, tr);
  }

  lemma {:induction false} FreshIsEmpty()
    ensures Buffered(FRESH) == 0
  {
  }
}
