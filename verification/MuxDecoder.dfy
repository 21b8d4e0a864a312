/** The per-session reordering decoder (src/tunnel/multiplex.rs): a step function over values,
    and the class whose `Feed` runs it in place. */
module MuxDecoder {
  import opened Bytes
  import opened MuxFrame

  const PREOPEN_MAX := 64
  const REORDER_MAX := 4096

  /** A session and a direction; the flag is true for acceptor-to-opener frames. */
  type Key = (u16, bool)

  datatype Reorder = Reorder(epoch: byte, next: nat, buf: map<nat, Frame>)

  datatype Decoder = Decoder(states: map<Key, Reorder>, preopen: map<u16, seq<Frame>>,
                             outOfOrder: nat, staleDropped: nat)

  const FRESH := Decoder(map[], map[], 0, 0)

  datatype Flushed = Flushed(st: Reorder, out: seq<Frame>)
  datatype Merged = Merged(st: Reorder, dropped: nat)
  datatype Stepped = Stepped(dec: Decoder, out: seq<Frame>)

  /** A frame that takes part in reordering: a session frame with a generation stamp. */
  predicate Ordered(f: Frame) {
    UsesSessionOrder(f.ftype) && Epoch(f) != 0
  }

  function KeyOf(f: Frame): Key {
    (f.sid, FromAcceptor(f))
  }

  predicate On(f: Frame, k: Key) {
    Ordered(f) && KeyOf(f) == k
  }

  /** `epoch.wrapping_sub(current) < 128` on bytes. */
  predicate Newer(epoch: byte, current: byte) {
    (epoch - current + 0x100) % 0x100 < 128
  }

  function Held(d: Decoder, sid: u16): seq<Frame> {
    if sid in d.preopen then d.preopen[sid] else []
  }

  /** Releases the run of buffered frames that continues at `next`. */
  function Flush(st: Reorder): Flushed
    decreases |st.buf|
  {
    if st.next in st.buf then
      var rest := Flush(Reorder(st.epoch, st.next + 1, st.buf - {st.next}));
      Flushed(rest.st, [st.buf[st.next]] + rest.out)
    else
      Flushed(st, [])
  }

  /** One held frame at the arrival of the Open. */
  function MergeOne(st: Reorder, f: Frame): Merged {
    if Epoch(f) != st.epoch || SessionSeq(f) < st.next || |st.buf| >= REORDER_MAX
    then Merged(st, 1)
    else Merged(st.(buf := st.buf[SessionSeq(f) := f]), 0)
  }

  function Merge(st: Reorder, waiting: seq<Frame>): Merged
    decreases |waiting|
  {
    if waiting == [] then Merged(st, 0)
    else
      var one := MergeOne(st, waiting[0]);
      var rest := Merge(one.st, waiting[1..]);
      Merged(rest.st, one.dropped + rest.dropped)
  }

  function Baseline(f: Frame): Reorder {
    Reorder(Epoch(f), SessionSeq(f) + 1, map[])
  }

  /** An Open rebuilds the state of its key from the held frames of its generation. */
  function StepOpen(d: Decoder, f: Frame): Stepped {
    var merged := Merge(Baseline(f), Held(d, f.sid));
    var flushed := Flush(merged.st);
    Stepped(d.(states := d.states[KeyOf(f) := flushed.st], preopen := d.preopen - {f.sid},
               staleDropped := d.staleDropped + merged.dropped),
            [f] + flushed.out)
  }

  /** A later frame of the generation the key is in. */
  function StepSame(d: Decoder, f: Frame): Stepped
    requires KeyOf(f) in d.states
  {
    var st := d.states[KeyOf(f)];
    var s := SessionSeq(f);
    if s < st.next then
      Stepped(d.(staleDropped := d.staleDropped + 1), [])
    else if s == st.next then
      var flushed := Flush(st.(next := st.next + 1));
      Stepped(d.(states := d.states[KeyOf(f) := flushed.st]), [f] + flushed.out)
    else if |st.buf| < REORDER_MAX then
      Stepped(d.(states := d.states[KeyOf(f) := st.(buf := st.buf[s := f])], outOfOrder := d.outOfOrder + 1), [])
    else
      Stepped(d.(outOfOrder := d.outOfOrder + 1, staleDropped := d.staleDropped + 1), [])
  }

  /** A frame that takes over its key (first frame of an acceptor direction, or of a newer generation). */
  function StepBaseline(d: Decoder, f: Frame): Stepped {
    Stepped(d.(states := d.states[KeyOf(f) := Baseline(f)]), [f])
  }

  /** A frame of an opener direction whose Open has not arrived. */
  function StepHold(d: Decoder, f: Frame): Stepped {
    if |Held(d, f.sid)| < PREOPEN_MAX
    then Stepped(d.(preopen := d.preopen[f.sid := Held(d, f.sid) + [f]]), [])
    else Stepped(d.(preopen := d.preopen[f.sid := Held(d, f.sid)], staleDropped := d.staleDropped + 1), [])
  }

  function Step(d: Decoder, f: Frame): Stepped {
    if !Ordered(f) then Stepped(d, [f])
    else if f.ftype.Open? then StepOpen(d, f)
    else if KeyOf(f) in d.states then
      if d.states[KeyOf(f)].epoch == Epoch(f) then StepSame(d, f)
      else if !Newer(Epoch(f), d.states[KeyOf(f)].epoch) then Stepped(d.(staleDropped := d.staleDropped + 1), [])
      else StepBaseline(d, f)
    else if FromAcceptor(f) then StepBaseline(d, f)
    else StepHold(d, f)
  }

  function FeedBytes(d: Decoder, msg: seq<byte>): Stepped {
    match DecodeFrame(msg)
    case None => Stepped(d, [])
    case Some(f) => Step(d, f)
  }

  /** A whole arrival sequence, with everything it delivers. */
  function Run(d: Decoder, tr: seq<Frame>): Stepped
    decreases |tr|
  {
    if tr == [] then Stepped(d, [])
    else
      var before := Run(d, tr[..|tr| - 1]);
      var last := Step(before.dec, tr[|tr| - 1]);
      Stepped(last.dec, before.out + last.out)
  }

  lemma RunSnoc(d: Decoder, tr: seq<Frame>, f: Frame)
    ensures Run(d, tr + [f]) == var b := Run(d, tr); var l := Step(b.dec, f); Stepped(l.dec, b.out + l.out)
  {
    assert (tr + [f])[..|tr|] == tr;
  }

  lemma {:induction false} RunConcat(d: Decoder, a: seq<Frame>, b: seq<Frame>)
    ensures Run(d, a + b).dec == Run(Run(d, a).dec, b).dec
    ensures Run(d, a + b).out == Run(d, a).out + Run(Run(d, a).dec, b).out
    decreases |b|
  {
    hide Step;
    if b == [] {
      assert a + b == a;
    } else {
      var c, f := b[..|b| - 1], b[|b| - 1];
      RunConcat(d, a, c);
      assert (a + b)[..|a + b| - 1] == a + c;
      var mid := Run(Run(d, a).dec, c);
      assert Run(d, a + b) == Stepped(Step(mid.dec, f).dec, Run(d, a + c).out + Step(mid.dec, f).out);
    }
  }

  /** The total number of buffered and held frames. */
  ghost function BufferedIn(states: map<Key, Reorder>): nat
    decreases |states|
  {
    if states == map[] then 0
    else var k :| k in states; |states[k].buf| + BufferedIn(states - {k})
  }

  ghost function HeldIn(pre: map<u16, seq<Frame>>): nat
    decreases |pre|
  {
    if pre == map[] then 0
    else var s :| s in pre; |pre[s]| + HeldIn(pre - {s})
  }

  ghost function Buffered(d: Decoder): nat {
    BufferedIn(d.states) + HeldIn(d.preopen)
  }

  /** The sum does not depend on the order in which the table is walked. */
  lemma {:induction false} BufferedRemove(states: map<Key, Reorder>, k: Key)
    requires k in states
    ensures BufferedIn(states) == |states[k].buf| + BufferedIn(states - {k})
    decreases |states|
  {
    var p := BufferedPick(states);
    if p != k {
      var noP, noK := states - {p}, states - {k};
      assert p in noK && k in noP && noK[p] == states[p] && noP[k] == states[k];
      BufferedRemove(noP, k);
      BufferedRemove(noK, p);
      assert noP - {k} == noK - {p};
    }
  }

  lemma {:induction false} BufferedPick(states: map<Key, Reorder>) returns (p: Key)
    requires states != map[]
    ensures p in states && BufferedIn(states) == |states[p].buf| + BufferedIn(states - {p})
  {
    p :| p in states && BufferedIn(states) == |states[p].buf| + BufferedIn(states - {p});
  }

  lemma {:induction false} HeldRemove(pre: map<u16, seq<Frame>>, s: u16)
    requires s in pre
    ensures HeldIn(pre) == |pre[s]| + HeldIn(pre - {s})
    decreases |pre|
  {
    var p := HeldPick(pre);
    if p != s {
      var noP, noS := pre - {p}, pre - {s};
      assert p in noS && s in noP && noS[p] == pre[p] && noP[s] == pre[s];
      HeldRemove(noP, s);
      HeldRemove(noS, p);
      assert noP - {s} == noS - {p};
    }
  }

  lemma {:induction false} HeldPick(pre: map<u16, seq<Frame>>) returns (p: u16)
    requires pre != map[]
    ensures p in pre && HeldIn(pre) == |pre[p]| + HeldIn(pre - {p})
  {
    p :| p in pre && HeldIn(pre) == |pre[p]| + HeldIn(pre - {p});
  }

  class MuxDecoder {
    var states: map<Key, Reorder>
    var preopen: map<u16, seq<Frame>>
    var outOfOrder: nat
    var staleDropped: nat

    ghost function View(): Decoder
      reads this
    {
      Decoder(states, preopen, outOfOrder, staleDropped)
    }

    constructor ()
      ensures View() == FRESH
    {
      states, preopen, outOfOrder, staleDropped := map[], map[], 0, 0;
    }

    method DropStale()
      modifies this`staleDropped
      ensures staleDropped == old(staleDropped) + 1
    {
      staleDropped := staleDropped + 1;
    }

    /** `flush_ready`: moves the contiguous run at `next` from the buffer to the output. */
    static method FlushReady(st0: Reorder, out0: seq<Frame>) returns (st: Reorder, out: seq<Frame>)
      ensures st == Flush(st0).st && out == out0 + Flush(st0).out
    {
      st, out := st0, out0;
      while st.next in st.buf
        invariant Flush(st0).st == Flush(st).st
        invariant out0 + Flush(st0).out == out + Flush(st).out
        decreases |st.buf|
      {
        var f := st.buf[st.next];
        ghost var after := Reorder(st.epoch, st.next + 1, st.buf - {st.next});
        assert out + ([f] + Flush(after).out) == out + [f] + Flush(after).out;
        st := Reorder(st.epoch, st.next + 1, st.buf - {st.next});
        out := out + [f];
      }
    }

    method FeedOpen(frame: Frame) returns (out: seq<Frame>)
      requires Ordered(frame) && frame.ftype.Open?
      modifies this
      ensures Stepped(View(), out) == StepOpen(old(View()), frame)
    {
      hide Flush;
      var waiting := if frame.sid in preopen then preopen[frame.sid] else [];
      preopen := preopen - {frame.sid};
      var st := Reorder(Epoch(frame), SessionSeq(frame) + 1, map[]);
      out := [frame];
      ghost var all := Merge(st, waiting);
      var i := 0;
      while i < |waiting|
        invariant 0 <= i <= |waiting|
        invariant states == old(states) && outOfOrder == old(outOfOrder) && out == [frame]
        invariant preopen == old(preopen) - {frame.sid}
        invariant st.epoch == Epoch(frame)
        invariant all.st == Merge(st, waiting[i..]).st
        invariant old(staleDropped) + all.dropped == staleDropped + Merge(st, waiting[i..]).dropped
      {
        var f := waiting[i];
        assert waiting[i..][1..] == waiting[i + 1..];
        if Epoch(f) != Epoch(frame) || SessionSeq(f) < st.next || |st.buf| >= REORDER_MAX {
          DropStale();
        } else {
          st := st.(buf := st.buf[SessionSeq(f) := f]);
        }
        i := i + 1;
      }
      st, out := FlushReady(st, out);
      states := states[KeyOf(frame) := st];
    }

    /** Decodes one SRT message and returns the frames that can be delivered now. */
    method Feed(msg: seq<byte>) returns (out: seq<Frame>)
      modifies this
      ensures Stepped(View(), out) == FeedBytes(old(View()), msg)
    {
      var decoded := DecodeFrame(msg);
      if decoded.None? {
        return [];
      }
      var frame := decoded.value;
      if !UsesSessionOrder(frame.ftype) {
        return [frame];
      }
      var epoch, sseq := Epoch(frame), SessionSeq(frame);
      if epoch == 0 {
        return [frame];
      }
      var key := (frame.sid, FromAcceptor(frame));
      if frame.ftype.Open? {
        out := FeedOpen(frame);
        return;
      }
      if key in states {
        var st := states[key];
        if st.epoch == epoch {
          if sseq < st.next {
            DropStale();
            return [];
          }
          if sseq == st.next {
            st, out := FlushReady(st.(next := st.next + 1), [frame]);
            states := states[key := st];
          } else {
            outOfOrder := outOfOrder + 1;
            if |st.buf| < REORDER_MAX {
              states := states[key := st.(buf := st.buf[sseq := frame])];
            } else {
              DropStale();
            }
            out := [];
          }
        } else {
          if !Newer(epoch, st.epoch) {
            DropStale();
            return [];
          }
          st, out := FlushReady(Reorder(epoch, sseq + 1, map[]), [frame]);
          states := states[key := st];
        }
      } else if key.1 {
        var st;
        st, out := FlushReady(Reorder(epoch, sseq + 1, map[]), [frame]);
        states := states[key := st];
      } else {
        var v := if frame.sid in preopen then preopen[frame.sid] else [];
        if |v| < PREOPEN_MAX {
          v := v + [frame];
        } else {
          DropStale();
        }
        preopen := preopen[frame.sid := v];
        out := [];
      }
    }

    /** `buffered_frames`: the sum over both tables, in whatever order they are walked. */
    method BufferedFrames() returns (n: nat)
      ensures n == Buffered(View())
    {
      var inBuffers := SumBuffers(states);
      var inHolds := SumHolds(preopen);
      n := inBuffers + inHolds;
    }

    static method SumBuffers(table: map<Key, Reorder>) returns (n: nat)
      ensures n == BufferedIn(table)
    {
      n := 0;
      var left := table;
      while left != map[]
        invariant n + BufferedIn(left) == BufferedIn(table)
        decreases |left|
      {
        var k :| k in left;
        BufferedRemove(left, k);
        n, left := n + |left[k].buf|, left - {k};
      }
    }

    static method SumHolds(table: map<u16, seq<Frame>>) returns (n: nat)
      ensures n == HeldIn(table)
    {
      n := 0;
      var left := table;
      while left != map[]
        invariant n + HeldIn(left) == HeldIn(table)
        decreases |left|
      {
        var s :| s in left;
        HeldRemove(left, s);
        n, left := n + |left[s]|, left - {s};
      }
    }
  }
}
