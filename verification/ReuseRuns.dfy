/** Concrete runs, with frames an encoder stamps, in which the promises about reuse and order fail
    (src/tunnel/multiplex.rs). */
module ReuseRuns {
  import opened Bytes
  import opened MuxFrame
  import opened MuxDecoder
  import opened Reordering
  import opened Generations
  import opened MuxEncoder
  import opened EpochWindow
  import opened OpenerReuse
  import opened Transparency
  import opened Dispatch

  // ----- The acceptor direction -----

  /** A frame the acceptor of session 1 stamps. */
  function Down(i: nat): Frame
    requires i < 100
  {
    Frame(Data, 1, EPOCH_UNIT + i, FLAG_DIR_ACCEPT, [i])
  }

  function DownCall(i: nat): Call
    requires i < 100
  {
    Call(Data, 1, 0, [i])
  }

  /** The acceptor's encoder stamps just these frames. */
  lemma {:induction false} DownFrames()
    ensures EncoderWf(NewEncoder(false, true))
    ensures Frames(NewEncoder(false, true), [DownCall(0), DownCall(1), DownCall(2)]) == [Down(0), Down(1), Down(2)]
  {
    hide Frames, EncoderAfter;
    var e := NewEncoder(false, true);
    var calls := [DownCall(0), DownCall(1), DownCall(2)];
    NoFrames(e, calls);
    FramesSnoc(e, calls, 0);
    FramesSnoc(e, calls, 1);
    FramesSnoc(e, calls, 2);
    assert calls[..3] == calls;
    assert SetDirAccept(0) == FLAG_DIR_ACCEPT;
  }

  lemma {:induction false} DownIsOn(i: nat)
    requires i < 100
    ensures On(Down(i), (1, true)) && Epoch(Down(i)) == 1 && SessionSeq(Down(i)) == i
  {
  }

  /** The first arrival of an acceptor direction, on any decoder without a state for it. */
  lemma {:induction false} FirstDown(i: nat)
    requires i < 100
    ensures Run(FRESH, [Down(i)]) == Stepped(FRESH.(states := map[(1, true) := Reorder(1, i + 1, map[])]), [Down(i)])
  {
    hide Step, Down;
    DownIsOn(i);
    assert Down(i).ftype.Data? by { DownIsData(i); }
    FirstOfAcceptor(FRESH, Down(i), (1, true));
    RunSnoc(FRESH, [], Down(i));
    assert [] + [Down(i)] == [Down(i)];
    assert FRESH.states[(1, true) := Reorder(1, i + 1, map[])] == map[(1, true) := Reorder(1, i + 1, map[])];
  }

  lemma {:induction false} DownIsData(i: nat)
    requires i < 100
    ensures Down(i).ftype.Data? && Down(i).sid == 1 && Down(i).payload == [i]
  {
  }

  /** The acceptor direction loses what the first arrival has overtaken: frame 1 is delivered, frame 0 dropped. */
  lemma {:induction false} OvertakenBaselineWitness()
    ensures EncoderWf(NewEncoder(false, true))
    ensures var fs := Frames(NewEncoder(false, true), [DownCall(0), DownCall(1), DownCall(2)]);
            var r := Run(FRESH, [fs[1], fs[0]]);
            r.out == [fs[1]] && fs[0] !in r.out && r.dec.staleDropped == 1
  {
    hide Step, Down, Frames;
    DownFrames();
    FirstDown(1);
    DownIsOn(0);
    DownIsOn(1);
    DownIsData(0);
    var b := Run(FRESH, [Down(1)]);
    BehindIsDropped(b.dec, Down(0), (1, true));
    RunSnoc(FRESH, [Down(1)], Down(0));
    assert [Down(1)] + [Down(0)] == [Down(1), Down(0)];
    assert [Down(1)] + [] == [Down(1)];
  }

  /** A run in which an ended session leaks into the next one on its id: of two frames of the first session the second
      arrives late, and becomes the first data of the second session's fresh channel. */
  lemma {:induction false} LeakWitness()
    ensures EncoderWf(NewEncoder(false, true))
    ensures var fs := Frames(NewEncoder(false, true), [DownCall(0), DownCall(1)] + [DownCall(2)]);
            var out := Run(Run(FRESH, [fs[0]]).dec, [fs[1], fs[2]]).out;
            && out == [fs[1], fs[2]]
            && DispatchedAll(map[1 := []], out) == map[1 := [EvData([1]), EvData([2])]]
  {
    hide Step, Down, Frames, DispatchedAll;
    DownFrames();
    assert [DownCall(0), DownCall(1)] + [DownCall(2)] == [DownCall(0), DownCall(1), DownCall(2)];
    FirstDown(0);
    var d := Run(FRESH, [Down(0)]).dec;
    NextDown(d, 1);
    var d1 := Step(d, Down(1)).dec;
    NextDown(d1, 2);
    RunSnoc(d, [], Down(1));
    RunSnoc(d, [Down(1)], Down(2));
    assert [] + [Down(1)] == [Down(1)] && [Down(1)] + [Down(2)] == [Down(1), Down(2)];
    TwoDispatched();
  }

  lemma {:induction false} NextDown(d: Decoder, i: nat)
    requires i < 100 && (1, true) in d.states && d.states[(1, true)] == Reorder(1, i, map[])
    ensures Step(d, Down(i)).out == [Down(i)]
    ensures var s := Step(d, Down(i)).dec.states; (1, true) in s && s[(1, true)] == Reorder(1, i + 1, map[])
  {
    hide Step, Down;
    DownIsOn(i);
    DownIsData(i);
    ExpectedStep(d, Down(i), (1, true));
  }

  lemma {:induction false} DownDispatched(v: seq<SessionEvent>, i: nat)
    requires i < 100
    ensures Dispatched(map[1 := v], Down(i)) == map[1 := v + [EvData([i])]]
  {
    var ch: Channels := map[1 := v];
    assert ch[1 := ch[1] + [EvData([i])]] == map[1 := v + [EvData([i])]];
  }

  lemma {:induction false} TwoDispatched()
    ensures DispatchedAll(map[1 := []], [Down(1), Down(2)]) == map[1 := [EvData([1]), EvData([2])]]
  {
    var ch: Channels := map[1 := []];
    var one, two := [Down(1)], [Down(1), Down(2)];
    assert two[..1] == one && one[..0] == [];
    assert DispatchedAll(ch, one[..0]) == ch;
    DownDispatched([], 1);
    DownDispatched([EvData([1])], 2);
    assert [] + [EvData([1])] == [EvData([1])] && [EvData([1])] + [EvData([2])] == [EvData([1]), EvData([2])];
    assert DispatchedAll(ch, one) == Dispatched(ch, Down(1)) == map[1 := [EvData([1])]];
    assert DispatchedAll(ch, two) == Dispatched(DispatchedAll(ch, one), Down(2));
  }

  // ----- The opener's direction -----

  /** One life of a session: it is opened and sends one byte. */
  function Life(sid: u16, data: byte): seq<Call> {
    [Call(Open, sid, 0, []), Call(Data, sid, 0, [data])]
  }

  function LifeFrame(sid: u16, epoch: byte): Frame {
    Frame(Open, sid, epoch * EPOCH_UNIT, 0, [])
  }

  function LifeData(sid: u16, epoch: byte, data: byte): Frame {
    Frame(Data, sid, epoch * EPOCH_UNIT + 1, 0, [data])
  }

  lemma {:induction false} LifeFrames(e: Encoder, sid: u16, data: byte)
    requires EncoderWf(e) && !e.reliable && !e.acceptor
    ensures var x := EpochAt(e.epochCtr); var t := EncoderAfter(e, Life(sid, data));
            && Frames(e, Life(sid, data)) == [LifeFrame(sid, x), LifeData(sid, x, data)]
            && t.epochCtr == (e.epochCtr + 1) % 0x100 && !t.reliable && !t.acceptor
  {
    hide Frames, EncoderAfter, EncoderWf;
    var calls := Life(sid, data);
    NoFrames(e, calls);
    FramesSnoc(e, calls, 0);
    FramesSnoc(e, calls, 1);
    assert calls[..2] == calls;
  }

  lemma {:induction false} LifeIsOn(sid: u16, x: byte, data: byte)
    requires x != 0
    ensures var o, f := LifeFrame(sid, x), LifeData(sid, x, data);
            && On(o, (sid, false)) && o.ftype.Open? && Epoch(o) == x && SessionSeq(o) == 0
            && On(f, (sid, false)) && !f.ftype.Open? && Epoch(f) == x && SessionSeq(f) == 1
            && Baseline(o) == Reorder(x, 1, map[])
  {
  }

  /** An Open on a key of its own: it is delivered, and its state starts from there. */
  lemma {:induction false} OpensKey(d: Decoder, o: Frame, k: Key)
    requires On(o, k) && o.ftype.Open? && !k.1 && d.preopen == map[]
    ensures var r := Step(d, o);
            && r.out == [o] && r.dec.preopen == map[] && k in r.dec.states && r.dec.states[k] == Baseline(o)
  {
    hide Step;
    OpenOnEmptyHold(d, o);
    assert d.preopen - {o.sid} == map[];
  }

  /** Three arrivals, one after the other. */
  lemma {:induction false} RunThree(a: Frame, b: Frame, c: Frame)
    ensures var d1 := Step(FRESH, a); var d2 := Step(d1.dec, b); var d3 := Step(d2.dec, c);
            Run(FRESH, [a, b, c]) == Stepped(d3.dec, d1.out + d2.out + d3.out)
  {
    hide Step;
    RunSnoc(FRESH, [], a);
    RunSnoc(FRESH, [a], b);
    RunSnoc(FRESH, [a, b], c);
    assert [] + [a] == [a] && [a] + [b] == [a, b] && [a, b] + [c] == [a, b, c];
    assert [] + Step(FRESH, a).out == Step(FRESH, a).out;
  }

  /** A new epoch that compares as newer: data that overtakes its Open is delivered before it. */
  lemma {:induction false} OvertakenOpenWitness()
    ensures EncoderWf(NewEncoder(false, false))
    ensures var fs := Frames(NewEncoder(false, false), Life(1, 1) + Life(1, 2));
            Run(FRESH, [fs[0], fs[3], fs[2]]).out == [fs[0], fs[3], fs[2]]
  {
    hide Step, Frames, EncoderAfter, LifeFrame, LifeData, Run;
    var e := NewEncoder(false, false);
    LifeFrames(e, 1, 1);
    LifeFrames(EncoderAfter(e, Life(1, 1)), 1, 2);
    FramesConcat(e, Life(1, 1), Life(1, 2));
    var o1, f2, o2 := LifeFrame(1, 1), LifeData(1, 2, 2), LifeFrame(1, 2);
    LifeIsOn(1, 1, 1);
    LifeIsOn(1, 2, 2);
    OpensKey(FRESH, o1, (1, false));
    var a := Step(FRESH, o1).dec;
    TakesOver(a, f2, (1, false));
    OpensKey(Step(a, f2).dec, o2, (1, false));
    RunThree(o1, f2, o2);
    assert [o1] + [f2] + [o2] == [o1, f2, o2];
  }

  /** The sessions opened between two lives of session 2, in the order in which the allocator hands out their ids. */
  function Others(): (sids: seq<u16>)
    ensures |sids| == 254
  {
    seq(253, i requires 0 <= i < 253 => i + 3) + [1]
  }

  /** One round of the allocator: session 1, a life of session 2, all other ids, and session 2 again. */
  function Round(): (calls: seq<Call>)
    ensures |calls| == 259
  {
    Opens([1]) + Life(2, 1) + Opens(Others()) + Life(2, 2)
  }

  /** The first life of session 2 has epoch 2, the second one, 255 allocations later, epoch 1. */
  lemma {:induction false} RoundFrames()
    ensures EncoderWf(NewEncoder(false, false))
    ensures var fs := Frames(NewEncoder(false, false), Round());
            && fs[1] == LifeFrame(2, 2) && fs[2] == LifeData(2, 2, 1)
            && fs[257] == LifeFrame(2, 1) && fs[258] == LifeData(2, 1, 2)
  {
    hide Frames, EncoderAfter, EncoderWf, LifeFrame, LifeData, Life, Others, Opens;
    var e := NewEncoder(false, false);
    assert EncoderWf(e) by { NewIsWf(false, false); }
    var a, b, c, d := Opens([1]), Life(2, 1), Opens(Others()), Life(2, 2);
    OpensTakeEpochs(e, [1]);
    var e1 := EncoderAfter(e, a);
    LifeFrames(e1, 2, 1);
    var e2 := EncoderAfter(e1, b);
    OpensTakeEpochs(e2, Others());
    var e3 := EncoderAfter(e2, c);
    LifeFrames(e3, 2, 2);
    FramesConcat(e, a, b);
    FramesConcat(e, a + b, c);
    FramesConcat(e, a + b + c, d);
    assert e3.epochCtr == 0 && EpochAt(0) == 1 && EpochAt(1) == 2;
    var fs := Frames(e, Round());
    assert fs == Frames(e, a) + Frames(e1, b) + Frames(e2, c) + Frames(e3, d);
    OpensSize([1]);
    OpensSize(Others());
    assert |Frames(e, a)| == 1 && |Frames(e1, b)| == 2 && |Frames(e2, c)| == 254;
  }

  lemma {:induction false} NewIsWf(reliable: bool, acceptor: bool)
    ensures EncoderWf(NewEncoder(reliable, acceptor))
  {
  }

  /** Ordinary reuse, the Open overtaken: the data is neither delivered nor held, but lost. */
  lemma {:induction false} OvertakenDataLostWitness()
    ensures EncoderWf(NewEncoder(false, false))
    ensures var fs := Frames(NewEncoder(false, false), Round());
            Run(FRESH, [fs[1], fs[258], fs[257]]).out == [fs[1], fs[257]]
  {
    hide Step, Frames, LifeFrame, LifeData, Run, Round;
    RoundFrames();
    var o1, f2, o2 := LifeFrame(2, 2), LifeData(2, 1, 2), LifeFrame(2, 1);
    LifeIsOn(2, 2, 1);
    LifeIsOn(2, 1, 2);
    OpensKey(FRESH, o1, (2, false));
    var a := Step(FRESH, o1).dec;
    assert Leftover(f2, a.states[(2, false)].epoch);
    LeftoverDropped(a, f2, (2, false));
    OpensKey(Step(a, f2).dec, o2, (2, false));
    RunThree(o1, f2, o2);
    assert [o1] + [] + [o2] == [o1, o2];
  }

  /** Ordinary reuse, old data late: it takes the session over, and the session's own data is dropped. */
  lemma {:induction false} LateTakeoverWitness()
    ensures EncoderWf(NewEncoder(false, false))
    ensures var fs := Frames(NewEncoder(false, false), Round());
            Run(FRESH, [fs[1], fs[257], fs[2], fs[258]]).out == [fs[1], fs[257], fs[2]]
  {
    hide Step, Frames, LifeFrame, LifeData, Run, Round;
    RoundFrames();
    var o1, late, o2, own := LifeFrame(2, 2), LifeData(2, 2, 1), LifeFrame(2, 1), LifeData(2, 1, 2);
    LifeIsOn(2, 2, 1);
    LifeIsOn(2, 1, 2);
    OpensKey(FRESH, o1, (2, false));
    var a := Step(FRESH, o1).dec;
    OpensKey(a, o2, (2, false));
    var b := Step(a, o2).dec;
    TakesOver(b, late, (2, false));
    var c := Step(b, late).dec;
    assert c.states[(2, false)].epoch == 2;
    assert Leftover(own, 2);
    LeftoverDropped(c, own, (2, false));
    RunThree(o1, o2, late);
    RunSnoc(FRESH, [o1, o2, late], own);
    assert [o1, o2, late] + [own] == [o1, o2, late, own] && [o1] + [o2] + [late] + [] == [o1, o2, late];
  }

  /** 255 Opens of another session bring the epoch counter to 255. */
  function Busy(): seq<u16> {
    seq(255, i => 2)
  }

  /** Allocations 255 and 256 get the same epoch, and the clash is reachable: an opener reuses session 1 across them,
      a late frame of the old generation is delivered after the new Open, and the new generation's own frame is then
      dropped as a duplicate. */
  lemma {:induction false} EpochClashWitness()
    ensures !ToldApart(255, 256)
    ensures EncoderWf(NewEncoder(false, false))
    ensures var fs := Frames(NewEncoder(false, false), Opens(Busy()) + (Life(1, 1) + Life(1, 2)));
            && Run(FRESH, [fs[255], fs[257], fs[256], fs[258]]).out == [fs[255], fs[257], fs[256]]
            && fs[256].payload == [1] && fs[258].payload == [2]
  {
    hide Step, Frames, EncoderAfter, EncoderWf, LifeFrame, LifeData, Life, Run, ToldApart, Opens, Busy;
    WindowOf126(255, 256);
    var e := NewEncoder(false, false);
    assert EncoderWf(e) by { NewIsWf(false, false); }
    assert |Busy()| == 255 by { BusySize(); }
    OpensTakeEpochs(e, Busy());
    var e1 := EncoderAfter(e, Opens(Busy()));
    LifeFrames(e1, 1, 1);
    LifeFrames(EncoderAfter(e1, Life(1, 1)), 1, 2);
    FramesConcat(e1, Life(1, 1), Life(1, 2));
    FramesConcat(e, Opens(Busy()), Life(1, 1) + Life(1, 2));
    assert |Opens(Busy())| == 255 by { OpensSize(Busy()); }
    assert EpochAt(255) == 1 && EpochAt(0) == 1;
    var fs := Frames(e, Opens(Busy()) + (Life(1, 1) + Life(1, 2)));
    var busy := Frames(e, Opens(Busy()));
    var lives := [LifeFrame(1, 1), LifeData(1, 1, 1)] + [LifeFrame(1, 1), LifeData(1, 1, 2)];
    assert |busy| == 255 && fs == busy + lives;
    assert forall i :: 0 <= i < 4 ==> fs[255 + i] == lives[i];
    assert fs[255] == LifeFrame(1, 1) == fs[257] && fs[256] == LifeData(1, 1, 1) && fs[258] == LifeData(1, 1, 2);
    LifeIsOn(1, 1, 1);
    LifeIsOn(1, 1, 2);
    ClashRun(LifeFrame(1, 1), LifeData(1, 1, 1), LifeData(1, 1, 2));
    assert fs[256].payload == [1] && fs[258].payload == [2] by { LifePayload(1, 1); LifePayload(1, 2); }
  }

  lemma {:induction false} BusySize()
    ensures |Busy()| == 255
  {
  }

  lemma {:induction false} OpensSize(sids: seq<u16>)
    ensures |Opens(sids)| == |sids|
  {
  }

  lemma {:induction false} LifePayload(x: byte, data: byte)
    ensures LifeData(1, x, data).payload == [data]
  {
  }

  lemma {:induction false} ClashRun(open: Frame, late: Frame, newer: Frame)
    requires On(open, (1, false)) && Epoch(open) == 1 && SessionSeq(open) == 0 && open.ftype.Open?
    requires On(late, (1, false)) && Epoch(late) == 1 && SessionSeq(late) == 1 && !late.ftype.Open?
    requires On(newer, (1, false)) && Epoch(newer) == 1 && SessionSeq(newer) == 1 && !newer.ftype.Open?
    ensures Run(FRESH, [open, open, late, newer]).out == [open, open, late]
  {
    hide Step, Run, Epoch, SessionSeq;
    OpenOnEmptyHold(FRESH, open);
    var a := Step(FRESH, open).dec;
    OpenOnEmptyHold(a, open);
    var b := Step(a, open).dec;
    ExpectedStep(b, late, (1, false));
    var c := Step(b, late).dec;
    BehindIsDropped(c, newer, (1, false));
    RunNone(FRESH);
    RunSnoc(FRESH, [], open);
    RunSnoc(FRESH, [open], open);
    RunSnoc(FRESH, [open, open], late);
    RunSnoc(FRESH, [open, open, late], newer);
    assert [] + [open] == [open] && [open] + [open] == [open, open] && [open, open] + [late] == [open, open, late];
    assert [open, open, late] + [newer] == [open, open, late, newer] && [open, open, late] + [] == [open, open, late];
  }
}
