/** One generation of one session direction, under any arrival order, loss, duplication and interleaving
    with other sessions: what the decoder delivers for it (src/tunnel/multiplex.rs). */
module Generations {
  import opened Bytes
  import opened MuxFrame
  import opened MuxDecoder
  import opened Reordering

  // ----- One generation of one key -----

  /** The frames one encoder stamps for one key in one epoch: numbered from 0, and an opener starts with Open. */
  ghost predicate Generation(g: seq<Frame>, k: Key, e: byte) {
    && e != 0 && 0 < |g| <= SEQ_MASK
    && forall i :: 0 <= i < |g| ==>
         && On(g[i], k) && g[i].seqno == e * EPOCH_UNIT + i
         && (g[i].ftype.Open? <==> i == 0 && !k.1)
  }

  /** A frame of the generation. */
  predicate Part(f: Frame, g: seq<Frame>) {
    SessionSeq(f) < |g| && f == g[SessionSeq(f)]
  }

  lemma {:induction false} GenerationIndex(g: seq<Frame>, k: Key, e: byte, i: nat)
    requires Generation(g, k, e) && i < |g|
    ensures Epoch(g[i]) == e && SessionSeq(g[i]) == i && Part(g[i], g)
  {
  }

  /** A leftover of another generation that the wrap-around comparison calls old. */
  predicate Leftover(f: Frame, e: byte) {
    !f.ftype.Open? && Epoch(f) != e && !Newer(Epoch(f), e)
  }

  /** The state of a key in generation `g`: everything buffered is a later frame of `g`. */
  ghost predicate InGeneration(st: Reorder, g: seq<Frame>, e: byte) {
    && st.epoch == e && st.next <= |g|
    && forall i :: i in st.buf ==> st.next < i < |g| && st.buf[i] == g[i]
  }

  lemma {:induction false} FlushInGeneration(st: Reorder, g: seq<Frame>, e: byte)
    requires st.epoch == e && st.next <= |g|
    requires forall i :: i in st.buf ==> st.next <= i < |g| && st.buf[i] == g[i]
    ensures var r := Flush(st);
            && InGeneration(r.st, g, e) && st.next <= r.st.next && r.out == g[st.next..r.st.next]
            && (forall i :: i in r.st.buf <==> i in st.buf && r.st.next <= i)
            && (forall i :: st.next <= i < r.st.next ==> i in st.buf)
  {
    hide Flush;
    FlushSpec(st);
    var r := Flush(st);
    if |r.out| > 0 {
      assert r.st.next - 1 in st.buf;
    }
    forall i | st.next <= i < r.st.next
      ensures r.out[i - st.next] == g[i]
    {
      assert i in st.buf && r.out[i - st.next] == st.buf[i];
    }
    assert r.out == g[st.next..r.st.next];
  }

  /** Nothing is buffered further than one full buffer ahead. */
  ghost predicate Window(st: Reorder) {
    forall i :: i in st.buf ==> i <= st.next + REORDER_MAX
  }

  /** The frame numbers from `base` on that are delivered or buffered. */
  ghost predicate Has(st: Reorder, base: nat, i: nat) {
    base <= i && (i < st.next || i in st.buf)
  }

  function Range(lo: nat, n: nat): (r: set<nat>)
    ensures |r| == n && forall i: nat :: i in r <==> lo <= i < lo + n
  {
    if n == 0 then {} else Range(lo, n - 1) + {lo + n - 1}
  }

  /** A full buffer inside its window already holds every number of the window. */
  lemma {:induction false} FullWindow(st: Reorder, s: nat)
    requires Window(st) && |st.buf| >= REORDER_MAX
    requires forall i :: i in st.buf ==> st.next < i
    requires st.next < s <= st.next + REORDER_MAX
    ensures s in st.buf
  {
    assert |st.buf| == |st.buf.Keys|;
    if s !in st.buf {
      SubsetSize(st.buf.Keys, Range(st.next + 1, REORDER_MAX) - {s});
    }
  }

  /** The expected frame releases itself and the run behind it. */
  lemma {:induction false} DeliverInside(st: Reorder, g: seq<Frame>, e: byte)
    requires InGeneration(st, g, e) && st.next < |g|
    ensures var r := Flush(st.(next := st.next + 1));
            && InGeneration(r.st, g, e) && st.next < r.st.next
            && [g[st.next]] + r.out == g[st.next..r.st.next]
            && (forall i :: i in r.st.buf <==> i in st.buf && r.st.next <= i)
            && (forall i :: st.next < i < r.st.next ==> i in st.buf)
  {
    hide Flush;
    FlushInGeneration(st.(next := st.next + 1), g, e);
  }

  /** A further frame of the generation: the state stays in the generation, and what is delivered is the
      next stretch of it. */
  lemma {:induction false} StepInside(d: Decoder, f: Frame, g: seq<Frame>, k: Key, e: byte)
    requires Generation(g, k, e) && k in d.states && InGeneration(d.states[k], g, e)
    requires On(f, k) && Part(f, g) && !f.ftype.Open?
    ensures var r := Step(d, f);
            && k in r.dec.states && InGeneration(r.dec.states[k], g, e)
            && d.states[k].next <= r.dec.states[k].next
            && r.out == g[d.states[k].next..r.dec.states[k].next]
  {
    hide Flush, StepOpen, StepHold, StepBaseline;
    GenerationIndex(g, k, e, SessionSeq(f));
    assert Step(d, f) == StepSame(d, f);
    var st := d.states[k];
    if SessionSeq(f) == st.next {
      DeliverInside(st, g, e);
    }
  }

  /** While there is room, the numbers delivered or buffered grow by exactly the arrival. */
  lemma {:induction false} StepKeeps(d: Decoder, f: Frame, g: seq<Frame>, k: Key, e: byte, base: nat)
    requires Generation(g, k, e) && k in d.states && InGeneration(d.states[k], g, e)
    requires On(f, k) && Part(f, g) && !f.ftype.Open?
    requires base <= d.states[k].next && Window(d.states[k])
    requires SessionSeq(f) <= d.states[k].next + REORDER_MAX
    ensures var r := Step(d, f).dec;
            && k in r.states && Window(r.states[k])
            && forall i: nat :: Has(r.states[k], base, i)
                                <==> Has(d.states[k], base, i) || (i == SessionSeq(f) && base <= i)
  {
    hide Flush, StepOpen, StepHold, StepBaseline;
    GenerationIndex(g, k, e, SessionSeq(f));
    assert Step(d, f) == StepSame(d, f);
    var st, s := d.states[k], SessionSeq(f);
    if s == st.next {
      DeliverInside(st, g, e);
    } else if s > st.next && |st.buf| >= REORDER_MAX {
      FullWindow(st, s);
    }
  }

  /** An Open with nothing held before it. */
  lemma {:induction false} OpenOnEmptyHold(d: Decoder, f: Frame)
    requires Ordered(f) && f.ftype.Open? && Held(d, f.sid) == []
    ensures Step(d, f) == Stepped(d.(states := d.states[KeyOf(f) := Baseline(f)], preopen := d.preopen - {f.sid}), [f])
  {
    assert Merge(Baseline(f), []) == Merged(Baseline(f), 0);
    assert Flush(Baseline(f)) == Flushed(Baseline(f), []);
  }

  /** The frames of generation `e` among the held ones, by number. */
  ghost predicate HeldAs(w: seq<Frame>, e: byte, i: nat) {
    exists f :: f in w && Epoch(f) == e && SessionSeq(f) == i
  }

  lemma {:induction false} MergeInside(w: seq<Frame>, g: seq<Frame>, k: Key, e: byte)
    requires Generation(g, k, e) && !k.1 && HoldWf(w, k.0)
    requires forall f :: f in w && Epoch(f) == e ==> Part(f, g)
    ensures var m := Merge(Baseline(g[0]), w).st;
            && m.epoch == e && m.next == 1
            && (forall i :: i in m.buf ==> 1 <= i < |g| && m.buf[i] == g[i])
            && (forall i: nat :: i in m.buf <==> i >= 1 && HeldAs(w, e, i))
  {
    hide Merge;
    GenerationIndex(g, k, e, 0);
    var base := Baseline(g[0]);
    MergeSpec(base, w);
    var m := Merge(base, w).st;
    forall i: nat | i >= 1 && HeldAs(w, e, i)
      ensures i in m.buf
    {
      var f :| f in w && Epoch(f) == e && SessionSeq(f) == i;
    }
  }

  /** The Open, with whatever was held before it. */
  lemma {:induction false} StepOpens(d: Decoder, g: seq<Frame>, k: Key, e: byte)
    requires Generation(g, k, e) && !k.1 && Wf(d)
    requires forall f :: f in Held(d, k.0) && Epoch(f) == e ==> Part(f, g)
    ensures var r := Step(d, g[0]);
            && k in r.dec.states && InGeneration(r.dec.states[k], g, e)
            && r.out == g[..r.dec.states[k].next]
            && Held(r.dec, k.0) == []
            && forall i: nat :: Has(r.dec.states[k], 0, i) <==> i == 0 || HeldAs(Held(d, k.0), e, i)
  {
    hide Flush, Merge, StepSame, StepHold, StepBaseline;
    GenerationIndex(g, k, e, 0);
    var w := Held(d, k.0);
    assert HoldWf(w, k.0);
    MergeInside(w, g, k, e);
    var merged := Merge(Baseline(g[0]), w).st;
    FlushInGeneration(merged, g, e);
    var r := Flush(merged);
    assert [g[0]] + r.out == g[..r.st.next];
    assert Step(d, g[0]) == StepOpen(d, g[0]);
    forall i: nat
      ensures Has(r.st, 0, i) <==> i == 0 || HeldAs(w, e, i)
    {
      if HeldAs(w, e, i) && i >= 1 {
        assert i in merged.buf;
      }
      if i == r.st.next {
        assert i !in r.st.buf;
      }
    }
  }

  // ----- Runs -----

  /** The numbers of the frames of generation `e` that arrived on `k`. */
  function Arrived(tr: seq<Frame>, k: Key, e: byte): set<nat>
    decreases |tr|
  {
    if tr == [] then {}
    else
      var last := tr[|tr| - 1];
      Arrived(tr[..|tr| - 1], k, e) + if On(last, k) && Epoch(last) == e then {SessionSeq(last)} else {}
  }

  /** The first number from `n` on that is not in `s`. */
  function FirstMissing(s: set<nat>, n: nat): (m: nat)
    ensures n <= m && m !in s && forall i :: n <= i < m ==> i in s
    decreases |s|
  {
    if n in s then
      var m := FirstMissing(s - {n}, n + 1);
      assert forall i :: n <= i < m ==> i in s by {
        forall i | n <= i < m ensures i in s {
          assert i == n || i in s - {n};
        }
      }
      m
    else n
  }

  /** Arrivals never run more than one buffer ahead of the first missing frame. */
  ghost predicate Roomy(tr: seq<Frame>, have: set<nat>, base: nat, k: Key, e: byte) {
    forall j :: 0 <= j < |tr| && On(tr[j], k) && Epoch(tr[j]) == e ==>
      SessionSeq(tr[j]) <= FirstMissing(have + Arrived(tr[..j], k, e), base) + REORDER_MAX
  }

  /** After the generation has begun: its own frames, leftovers of older ones, anything of other sessions, and in the
      other direction anything but an Open. */
  predicate Admissible(f: Frame, g: seq<Frame>, k: Key, e: byte) {
    OneSided(f, k.0) && (On(f, k) ==> !f.ftype.Open? && (Part(f, g) || Leftover(f, e)))
  }

  lemma {:induction false} LeftoverDropped(d: Decoder, f: Frame, k: Key)
    requires On(f, k) && k in d.states && Leftover(f, d.states[k].epoch)
    ensures Step(d, f) == Stepped(d.(staleDropped := d.staleDropped + 1), [])
  {
    hide Flush, Merge;
  }

  /** One admissible frame, on the key or elsewhere. */
  lemma {:induction false} StepAdmissible(d: Decoder, f: Frame, g: seq<Frame>, k: Key, e: byte)
    requires Generation(g, k, e) && Wf(d) && Directed(d, k.0)
    requires k in d.states && InGeneration(d.states[k], g, e) && Admissible(f, g, k, e)
    ensures var r := Step(d, f);
            && Wf(r.dec) && Directed(r.dec, k.0)
            && k in r.dec.states && InGeneration(r.dec.states[k], g, e)
            && d.states[k].next <= r.dec.states[k].next
            && OnKey(r.out, k) == g[d.states[k].next..r.dec.states[k].next]
  {
    hide Step, OnKey;
    StepWf(d, f);
    StepDirected(d, f, k.0);
    if !On(f, k) {
      StepFrame(d, f, k);
      StepElsewhere(d, f, k);
    } else if Part(f, g) {
      StepInside(d, f, g, k, e);
      OnKeyAll(Step(d, f).out, k);
    } else {
      LeftoverDropped(d, f, k);
      OnKeyNone([], k);
    }
  }

  /** Order: over every admissible continuation, the deliveries on the key are one stretch of the
      generation, without gap, repetition or foreign frame. */
  lemma {:induction false} ContinuesInOrder(d: Decoder, tr: seq<Frame>, g: seq<Frame>, k: Key, e: byte)
    requires Generation(g, k, e) && Wf(d) && Directed(d, k.0)
    requires k in d.states && InGeneration(d.states[k], g, e)
    requires forall f :: f in tr ==> Admissible(f, g, k, e)
    ensures var r := Run(d, tr);
            && Wf(r.dec) && Directed(r.dec, k.0)
            && k in r.dec.states && InGeneration(r.dec.states[k], g, e)
            && d.states[k].next <= r.dec.states[k].next
            && OnKey(r.out, k) == g[d.states[k].next..r.dec.states[k].next]
    decreases |tr|
  {
    hide Step, Wf, Directed, Generation, Admissible;
    if tr != [] {
      var pre, f := tr[..|tr| - 1], tr[|tr| - 1];
      ContinuesInOrder(d, pre, g, k, e);
      var b := Run(d, pre);
      var l := Step(b.dec, f);
      StepAdmissible(b.dec, f, g, k, e);
      OnKeyConcat(b.out, l.out, k);
      assert OnKey(b.out, k) + OnKey(l.out, k) == g[d.states[k].next..l.dec.states[k].next];
    }
  }

  /** A frame that has been delivered or buffered is not lost while the generation goes on, whatever arrives and however
      full the buffer is. */
  lemma {:induction false} StepLosesNothing(d: Decoder, f: Frame, g: seq<Frame>, k: Key, e: byte)
    requires Generation(g, k, e) && k in d.states && InGeneration(d.states[k], g, e) && Admissible(f, g, k, e)
    ensures k in Step(d, f).dec.states
    ensures forall i: nat :: Has(d.states[k], 0, i) ==> Has(Step(d, f).dec.states[k], 0, i)
  {
    hide Flush, Merge, StepOpen, StepHold, StepBaseline;
    if !On(f, k) {
      StepFrame(d, f, k);
    } else if Part(f, g) {
      GenerationIndex(g, k, e, SessionSeq(f));
      assert Step(d, f) == StepSame(d, f);
      if SessionSeq(f) == d.states[k].next {
        DeliverInside(d.states[k], g, e);
      }
    } else {
      LeftoverDropped(d, f, k);
    }
  }

  /** THEOREM (no loss). The same over every continuation of a generation: what is lost is only what finds the buffer
      full on its arrival. */
  lemma {:induction false} ContinuesWithoutLoss(d: Decoder, tr: seq<Frame>, g: seq<Frame>, k: Key, e: byte)
    requires Generation(g, k, e) && Wf(d) && Directed(d, k.0) && k in d.states && InGeneration(d.states[k], g, e)
    requires forall f :: f in tr ==> Admissible(f, g, k, e)
    ensures k in Run(d, tr).dec.states
    ensures forall i: nat :: Has(d.states[k], 0, i) ==> Has(Run(d, tr).dec.states[k], 0, i)
    decreases |tr|
  {
    hide Step, Wf, Directed, Generation, Admissible, Has;
    if tr != [] {
      var pre := tr[..|tr| - 1];
      ContinuesWithoutLoss(d, pre, g, k, e);
      ContinuesInOrder(d, pre, g, k, e);
      StepLosesNothing(Run(d, pre).dec, tr[|tr| - 1], g, k, e);
    }
  }

  /** Exactly the frames ahead of the expected one, of the generation a key is in, are counted as out of order; with
      room in the buffer each is kept, and without it the arrival is the one to go. */
  lemma {:induction false} AheadIsCounted(d: Decoder, f: Frame)
    ensures var k := KeyOf(f);
            var ahead := Ordered(f) && !f.ftype.Open? && k in d.states && d.states[k].epoch == Epoch(f)
                         && SessionSeq(f) > d.states[k].next;
            && Step(d, f).dec.outOfOrder == d.outOfOrder + (if ahead then 1 else 0)
            && (ahead && |d.states[k].buf| < 4096 ==>
                  && k in Step(d, f).dec.states
                  && Step(d, f).dec.states[k].buf == d.states[k].buf[SessionSeq(f) := f])
            && (ahead && |d.states[k].buf| >= 4096 ==> Step(d, f).dec.states == d.states)
  {
    hide Flush, Merge;
  }

  lemma {:induction false} StepElsewhereKeeps(d: Decoder, f: Frame, g: seq<Frame>, k: Key, e: byte)
    requires k in d.states && InGeneration(d.states[k], g, e) && Admissible(f, g, k, e)
    requires !On(f, k) || Epoch(f) != e
    requires Generation(g, k, e)
    ensures k in Step(d, f).dec.states && Step(d, f).dec.states[k] == d.states[k]
  {
    hide Step;
    if !On(f, k) {
      StepFrame(d, f, k);
    } else {
      if Part(f, g) {
        GenerationIndex(g, k, e, SessionSeq(f));
      }
      LeftoverDropped(d, f, k);
    }
  }

  /** Completeness: while arrivals stay within one buffer of the first missing frame, what is delivered or
      buffered is exactly what has arrived. */
  lemma {:induction false} ContinuesExactly(d: Decoder, tr: seq<Frame>, g: seq<Frame>, k: Key, e: byte,
                                            base: nat, have: set<nat>)
    requires Generation(g, k, e) && Wf(d) && Directed(d, k.0)
    requires k in d.states && InGeneration(d.states[k], g, e) && Window(d.states[k])
    requires base <= d.states[k].next
    requires forall i: nat :: Has(d.states[k], base, i) <==> base <= i && i in have
    requires forall f :: f in tr ==> Admissible(f, g, k, e)
    requires Roomy(tr, have, base, k, e)
    ensures var st := Run(d, tr).dec.states;
            && k in st && Window(st[k]) && base <= st[k].next
            && (forall i: nat :: Has(st[k], base, i) <==> base <= i && i in have + Arrived(tr, k, e))
            && st[k].next == FirstMissing(have + Arrived(tr, k, e), base)
    decreases |tr|
  {
    hide Step, Wf, Directed, Generation, Admissible;
    if tr == [] {
      NextIsFirstMissing(d.states[k], have, base, g, e);
      assert have + Arrived(tr, k, e) == have;
    } else {
      var pre, f := tr[..|tr| - 1], tr[|tr| - 1];
      assert forall j :: 0 <= j < |pre| ==> tr[j] == pre[j] && pre[..j] == tr[..j];
      ContinuesExactly(d, pre, g, k, e, base, have);
      ContinuesInOrder(d, pre, g, k, e);
      var b := Run(d, pre).dec;
      if On(f, k) && Epoch(f) == e {
        NotLeftover(f, g, k, e);
        StepKeeps(b, f, g, k, e, base);
      } else {
        StepElsewhereKeeps(b, f, g, k, e);
      }
      ContinuesInOrder(d, tr, g, k, e);
      NextIsFirstMissing(Run(d, tr).dec.states[k], have + Arrived(tr, k, e), base, g, e);
    }
  }

  lemma {:induction false} NotLeftover(f: Frame, g: seq<Frame>, k: Key, e: byte)
    requires Admissible(f, g, k, e) && On(f, k) && Epoch(f) == e
    ensures Part(f, g) && !f.ftype.Open?
  {
  }

  lemma {:induction false} NextIsFirstMissing(st: Reorder, have: set<nat>, base: nat, g: seq<Frame>, e: byte)
    requires InGeneration(st, g, e) && base <= st.next
    requires forall i: nat :: Has(st, base, i) <==> base <= i && i in have
    ensures st.next == FirstMissing(have, base)
  {
    var m := FirstMissing(have, base);
    assert !Has(st, base, st.next);
    assert !Has(st, base, m);
  }

  /** One frame before the Open. */
  lemma {:induction false} StepWaits(d: Decoder, f: Frame, k: Key)
    requires Wf(d) && Directed(d, k.0) && !k.1 && k !in d.states && OneSided(f, k.0) && (On(f, k) ==> !f.ftype.Open?)
    ensures var r := Step(d, f); var held := Held(d, k.0);
            && Wf(r.dec) && Directed(r.dec, k.0) && k !in r.dec.states && OnKey(r.out, k) == []
            && Held(r.dec, k.0) == if On(f, k) && |held| < PREOPEN_MAX then held + [f] else held
  {
    hide Wf, Directed, Flush, Merge, StepOpen, StepSame;
    StepWf(d, f);
    StepDirected(d, f, k.0);
    if !On(f, k) {
      StepFrame(d, f, k);
      StepElsewhere(d, f, k);
    } else {
      OnKeyNone([], k);
    }
  }

  /** Before the Open of an opener direction: nothing is delivered, everything is held. */
  lemma {:induction false} WaitsForOpen(d: Decoder, tr: seq<Frame>, k: Key)
    requires Wf(d) && Directed(d, k.0) && !k.1 && k !in d.states
    requires forall f :: f in tr ==> OneSided(f, k.0) && (On(f, k) ==> !f.ftype.Open?)
    ensures var r := Run(d, tr);
            && Wf(r.dec) && Directed(r.dec, k.0) && k !in r.dec.states && OnKey(r.out, k) == []
            && (forall f :: f in Held(r.dec, k.0) ==> f in Held(d, k.0) || (f in tr && On(f, k)))
            && (|Held(d, k.0)| + |OnKey(tr, k)| <= PREOPEN_MAX ==> Held(r.dec, k.0) == Held(d, k.0) + OnKey(tr, k))
    decreases |tr|
  {
    hide Wf, Directed, Step, OnKey;
    if tr == [] {
      OnKeyNone([], k);
    } else {
      var pre, f := tr[..|tr| - 1], tr[|tr| - 1];
      WaitsForOpen(d, pre, k);
      var b := Run(d, pre);
      StepWaits(b.dec, f, k);
      OnKeyConcat(b.out, Step(b.dec, f).out, k);
      OnKeyConcat(pre, [f], k);
      assert tr == pre + [f];
      if On(f, k) {
        OnKeyAll([f], k);
      } else {
        OnKeyNone([f], k);
      }
    }
  }

  // ----- Theorems -----

  /** What may arrive for one generation of an opener: its frames, its Open at most once, leftovers of
      older generations, anything of other sessions, and in the other direction anything but an Open. */
  ghost predicate OneGeneration(tr: seq<Frame>, g: seq<Frame>, k: Key, e: byte)
    requires 0 < |g|
  {
    && (forall f :: f in tr ==> OneSided(f, k.0) && (On(f, k) ==> Part(f, g) || Leftover(f, e)))
    && (forall i, j :: 0 <= i < j < |tr| ==> tr[i] != g[0] || tr[j] != g[0])
  }

  /** Nothing the decoder is asked to keep for the generation exceeds its queues: at most 64 arrivals on the
      key before the Open, and no frame more than 4096 past the first missing one. */
  ghost predicate WithinQueues(tr: seq<Frame>, g: seq<Frame>, k: Key, e: byte)
    requires 0 < |g|
  {
    && (forall j :: 0 <= j <= |tr| && g[0] !in tr[..j] ==> |OnKey(tr[..j], k)| <= PREOPEN_MAX)
    && (forall j :: 0 <= j < |tr| && On(tr[j], k) && Epoch(tr[j]) == e ==>
          SessionSeq(tr[j]) <= FirstMissing(Arrived(tr[..j], k, e), 0) + REORDER_MAX)
  }

  lemma {:induction false} OpenIsFirst(f: Frame, g: seq<Frame>, k: Key, e: byte)
    requires Generation(g, k, e) && !k.1 && On(f, k) && (Part(f, g) || Leftover(f, e)) && f != g[0]
    ensures !f.ftype.Open?
  {
  }

  lemma {:induction false} FreshInvariants()
    ensures Wf(FRESH) && forall sid :: Directed(FRESH, sid)
  {
  }

  lemma {:induction false} NeverOpened(tr: seq<Frame>, g: seq<Frame>, k: Key, e: byte)
    requires Generation(g, k, e) && !k.1 && OneGeneration(tr, g, k, e) && g[0] !in tr
    ensures OnKey(Run(FRESH, tr).out, k) == []
  {
    hide Run, Wf, Directed, Generation;
    FreshInvariants();
    forall f | f in tr && On(f, k) ensures !f.ftype.Open? {
      OpenIsFirst(f, g, k, e);
    }
    WaitsForOpen(FRESH, tr, k);
  }

  /** The two halves of a run around the arrival of the Open. */
  lemma {:induction false} AroundOpen(tr: seq<Frame>, g: seq<Frame>, k: Key, e: byte, o: nat)
    requires Generation(g, k, e) && !k.1 && OneGeneration(tr, g, k, e)
    requires o < |tr| && tr[o] == g[0]
    ensures var b := Run(FRESH, tr[..o]);
            && Wf(b.dec) && Directed(b.dec, k.0) && OnKey(b.out, k) == []
            && (forall f :: f in Held(b.dec, k.0) ==> f in tr[..o] && On(f, k))
            && (|OnKey(tr[..o], k)| <= PREOPEN_MAX ==> Held(b.dec, k.0) == OnKey(tr[..o], k))
    ensures forall f :: f in tr[o + 1..] ==> Admissible(f, g, k, e)
  {
    hide Run, Wf, Directed, Generation;
    FreshInvariants();
    var pre := tr[..o];
    forall f | f in pre && On(f, k) ensures !f.ftype.Open? {
      OpenIsFirst(f, g, k, e);
    }
    WaitsForOpen(FRESH, pre, k);
    assert Held(FRESH, k.0) == [];
    forall f | f in tr[o + 1..] ensures Admissible(f, g, k, e) {
      if On(f, k) {
        OpenIsFirst(f, g, k, e);
      }
    }
  }

  lemma {:induction false} SplitRun(d: Decoder, tr: seq<Frame>, o: nat)
    requires o < |tr|
    ensures var b := Run(d, tr[..o]); var l := Step(b.dec, tr[o]);
            && Run(d, tr).dec == Run(l.dec, tr[o + 1..]).dec
            && Run(d, tr).out == b.out + (l.out + Run(l.dec, tr[o + 1..]).out)
  {
    hide Step;
    var pre, f, post := tr[..o], tr[o], tr[o + 1..];
    RunSnoc(d, pre, f);
    RunConcat(d, pre + [f], post);
    assert tr == pre + [f] + post;
    var l := Step(Run(d, pre).dec, f);
    assert Run(d, pre).out + l.out + Run(l.dec, post).out == Run(d, pre).out + (l.out + Run(l.dec, post).out);
  }

  lemma {:induction false} HeldIsPart(tr: seq<Frame>, g: seq<Frame>, k: Key, e: byte, o: nat, held: seq<Frame>)
    requires Generation(g, k, e) && OneGeneration(tr, g, k, e) && o < |tr|
    requires forall f :: f in held ==> f in tr[..o] && On(f, k)
    ensures forall f :: f in held && Epoch(f) == e ==> Part(f, g)
  {
    forall f | f in held && Epoch(f) == e ensures Part(f, g) {
      assert f in tr;
    }
  }

  lemma {:induction false} OnKeyStretch(g: seq<Frame>, k: Key, e: byte, n: nat)
    requires Generation(g, k, e) && n <= |g|
    ensures OnKey(g[..n], k) == g[..n]
  {
    OnKeyAll(g[..n], k);
  }

  /** THEOREM (isolation of a reused session). From any decoder state, an Open makes the key deliver its own
      generation only: whatever older generations left in flight, the deliveries from the Open on are a
      non-empty prefix of the generation it opens. */
  lemma {:induction false} OpenThenContinue(d: Decoder, tr: seq<Frame>, g: seq<Frame>, k: Key, e: byte)
    requires Generation(g, k, e) && !k.1 && Wf(d) && Directed(d, k.0)
    requires forall f :: f in Held(d, k.0) && Epoch(f) == e ==> Part(f, g)
    requires forall f :: f in tr ==> Admissible(f, g, k, e)
    ensures var l := Step(d, g[0]); var r := Run(l.dec, tr);
            && Wf(l.dec) && Directed(l.dec, k.0) && k in l.dec.states && InGeneration(l.dec.states[k], g, e)
            && k in r.dec.states && InGeneration(r.dec.states[k], g, e) && 0 < r.dec.states[k].next
            && OnKey(l.out + r.out, k) == g[..r.dec.states[k].next]
  {
    hide Run, Step, Wf, Directed, OnKey, Admissible;
    var l := Step(d, g[0]);
    StepOpens(d, g, k, e);
    assert Has(l.dec.states[k], 0, 0);
    StepWf(d, g[0]);
    StepDirected(d, g[0], k.0);
    OnKeyStretch(g, k, e, l.dec.states[k].next);
    ContinuesInOrder(l.dec, tr, g, k, e);
    var r := Run(l.dec, tr);
    OnKeyConcat(l.out, r.out, k);
    assert g[..l.dec.states[k].next] + g[l.dec.states[k].next..r.dec.states[k].next] == g[..r.dec.states[k].next];
  }

  /** The state right after the Open, and everything delivered from there on. */
  lemma {:induction false} FromOpen(tr: seq<Frame>, g: seq<Frame>, k: Key, e: byte, o: nat)
    requires Generation(g, k, e) && !k.1 && OneGeneration(tr, g, k, e)
    requires o < |tr| && tr[o] == g[0]
    ensures var d := Step(Run(FRESH, tr[..o]).dec, g[0]).dec; var r := Run(FRESH, tr);
            && Wf(d) && Directed(d, k.0) && k in d.states && InGeneration(d.states[k], g, e)
            && r.dec == Run(d, tr[o + 1..]).dec
            && k in r.dec.states && InGeneration(r.dec.states[k], g, e) && 0 < r.dec.states[k].next
            && OnKey(r.out, k) == g[..r.dec.states[k].next]
  {
    hide Run, Step, Wf, Directed, OnKey, Held, Admissible;
    AroundOpen(tr, g, k, e, o);
    SplitRun(FRESH, tr, o);
    var b := Run(FRESH, tr[..o]);
    HeldIsPart(tr, g, k, e, o, Held(b.dec, k.0));
    OpenThenContinue(b.dec, tr[o + 1..], g, k, e);
    var l := Step(b.dec, g[0]);
    OnKeyConcat(b.out, l.out + Run(l.dec, tr[o + 1..]).out, k);
  }

  /** THEOREM (order). Whatever order, loss, duplication and foreign traffic the network imposes, the frames
      a fresh decoder delivers for one opener generation are a prefix of it, and nothing at all before its
      Open has arrived. */
  lemma {:induction false} OpenerDeliversPrefix(tr: seq<Frame>, g: seq<Frame>, k: Key, e: byte)
    requires Generation(g, k, e) && !k.1 && OneGeneration(tr, g, k, e)
    ensures OnKey(Run(FRESH, tr).out, k) <= g
    ensures OnKey(Run(FRESH, tr).out, k) == [] <==> g[0] !in tr
  {
    hide Run, OnKey;
    if g[0] in tr {
      var o :| 0 <= o < |tr| && tr[o] == g[0];
      FromOpen(tr, g, k, e, o);
    } else {
      NeverOpened(tr, g, k, e);
    }
  }

  lemma {:induction false} ArrivedConcat(a: seq<Frame>, b: seq<Frame>, k: Key, e: byte)
    ensures Arrived(a + b, k, e) == Arrived(a, k, e) + Arrived(b, k, e)
    decreases |b|
  {
    if b == [] {
      assert a + b == a;
    } else {
      ArrivedConcat(a, b[..|b| - 1], k, e);
      assert (a + b)[..|a + b| - 1] == a + b[..|b| - 1];
    }
  }

  lemma {:induction false} ArrivedOnKey(tr: seq<Frame>, k: Key, e: byte)
    ensures forall i: nat :: i in Arrived(tr, k, e) <==> HeldAs(OnKey(tr, k), e, i)
    decreases |tr|
  {
    if tr != [] {
      var pre, f := tr[..|tr| - 1], tr[|tr| - 1];
      ArrivedOnKey(pre, k, e);
      assert forall x :: x in OnKey(tr, k) <==> x in OnKey(pre, k) || (x == f && On(f, k));
    }
  }

  /** THEOREM (completeness). As long as the traffic fits the queues, delivery is exact: the longest
      contiguous run of what has arrived. */
  lemma {:induction false} OpenerDeliversAll(tr: seq<Frame>, g: seq<Frame>, k: Key, e: byte)
    requires Generation(g, k, e) && !k.1 && OneGeneration(tr, g, k, e) && WithinQueues(tr, g, k, e)
    requires g[0] in tr
    ensures FirstMissing(Arrived(tr, k, e), 0) <= |g|
    ensures OnKey(Run(FRESH, tr).out, k) == g[..FirstMissing(Arrived(tr, k, e), 0)]
  {
    hide Run, Step, OnKey, Arrived, Wf, Directed;
    var o :| 0 <= o < |tr| && tr[o] == g[0];
    FromOpen(tr, g, k, e, o);
    AroundOpen(tr, g, k, e, o);
    AfterOpenExactly(tr, g, k, e, o);
  }

  lemma {:induction false} AfterOpenExactly(tr: seq<Frame>, g: seq<Frame>, k: Key, e: byte, o: nat)
    requires Generation(g, k, e) && !k.1 && OneGeneration(tr, g, k, e) && WithinQueues(tr, g, k, e)
    requires o < |tr| && tr[o] == g[0]
    ensures k in Run(FRESH, tr).dec.states
    ensures Run(FRESH, tr).dec.states[k].next == FirstMissing(Arrived(tr, k, e), 0)
  {
    hide Run, Step, OnKey, Arrived, Wf, Directed, Window, Has, Roomy, OneGeneration, WithinQueues, Admissible,
         FirstMissing, InGeneration;
    FromOpen(tr, g, k, e, o);
    AroundOpen(tr, g, k, e, o);
    AtOpenExactly(tr, g, k, e, o);
    var pre, post := tr[..o], tr[o + 1..];
    var d := Step(Run(FRESH, pre).dec, g[0]).dec;
    assert pre + [g[0]] + post == tr;
    ArrivedConcat(pre + [g[0]], post, k, e);
    RoomyAfterOpen(tr, g, k, e, o);
    ContinuesExactly(d, post, g, k, e, 0, Arrived(pre + [g[0]], k, e));
  }

  /** Right after the Open, delivered or buffered is exactly what has arrived, and within the window. */
  lemma {:induction false} AtOpenExactly(tr: seq<Frame>, g: seq<Frame>, k: Key, e: byte, o: nat)
    requires Generation(g, k, e) && !k.1 && OneGeneration(tr, g, k, e) && WithinQueues(tr, g, k, e)
    requires o < |tr| && tr[o] == g[0]
    ensures var d := Step(Run(FRESH, tr[..o]).dec, g[0]).dec;
            && k in d.states && Window(d.states[k])
            && forall i: nat :: Has(d.states[k], 0, i) <==> 0 <= i && i in Arrived(tr[..o] + [g[0]], k, e)
  {
    hide Run, Step, OnKey, Arrived, Wf, Directed, FirstMissing;
    AroundOpen(tr, g, k, e, o);
    var pre := tr[..o];
    var b := Run(FRESH, pre).dec;
    assert g[0] !in pre;
    assert Held(b, k.0) == OnKey(pre, k);
    HeldIsPart(tr, g, k, e, o, Held(b, k.0));
    StepOpens(b, g, k, e);
    ArrivedAtOpen(pre, g, k, e);
    var st := Step(b, g[0]).dec.states[k];
    forall i | i in st.buf ensures i <= st.next + REORDER_MAX {
      assert Has(st, 0, i);
      HeldFits(tr, g, k, e, o, i);
    }
  }

  lemma {:induction false} RoomyAfterOpen(tr: seq<Frame>, g: seq<Frame>, k: Key, e: byte, o: nat)
    requires 0 < |g| && WithinQueues(tr, g, k, e) && o < |tr| && tr[o] == g[0]
    ensures Roomy(tr[o + 1..], Arrived(tr[..o] + [g[0]], k, e), 0, k, e)
  {
    hide Arrived, FirstMissing, OnKey;
    var begun, post := tr[..o] + [g[0]], tr[o + 1..];
    forall j | 0 <= j < |post| && On(post[j], k) && Epoch(post[j]) == e
      ensures SessionSeq(post[j]) <= FirstMissing(Arrived(begun, k, e) + Arrived(post[..j], k, e), 0) + REORDER_MAX
    {
      assert tr[..o + 1 + j] == begun + post[..j];
      assert tr[o + 1 + j] == post[j];
      ArrivedConcat(begun, post[..j], k, e);
    }
  }

  /** A frame held before the Open is at most 4096, the first missing frame being 0. */
  lemma {:induction false} HeldFits(tr: seq<Frame>, g: seq<Frame>, k: Key, e: byte, o: nat, i: nat)
    requires Generation(g, k, e) && WithinQueues(tr, g, k, e) && OneGeneration(tr, g, k, e)
    requires o < |tr| && tr[o] == g[0] && (i == 0 || HeldAs(OnKey(tr[..o], k), e, i))
    ensures i <= REORDER_MAX
  {
    hide FirstMissing;
    if i != 0 {
      OnKeyFrom(tr[..o], k);
      var f :| f in OnKey(tr[..o], k) && Epoch(f) == e && SessionSeq(f) == i;
      var j :| 0 <= j < o && tr[j] == f;
      ZeroOnlyFromOpen(tr[..j], g, k, e);
      assert 0 !in Arrived(tr[..j], k, e);
      assert FirstMissing(Arrived(tr[..j], k, e), 0) == 0;
    }
  }

  lemma {:induction false} OnKeyFrom(tr: seq<Frame>, k: Key)
    ensures forall f :: f in OnKey(tr, k) ==> f in tr && On(f, k)
    decreases |tr|
  {
    if tr != [] {
      OnKeyFrom(tr[..|tr| - 1], k);
    }
  }

  lemma {:induction false} ZeroOnlyFromOpen(tr: seq<Frame>, g: seq<Frame>, k: Key, e: byte)
    requires Generation(g, k, e) && g[0] !in tr
    requires forall f :: f in tr && On(f, k) ==> Part(f, g) || Leftover(f, e)
    ensures 0 !in Arrived(tr, k, e)
    decreases |tr|
  {
    if tr != [] {
      ZeroOnlyFromOpen(tr[..|tr| - 1], g, k, e);
      assert tr[|tr| - 1] in tr;
    }
  }

  lemma {:induction false} ArrivedAtOpen(pre: seq<Frame>, g: seq<Frame>, k: Key, e: byte)
    requires Generation(g, k, e)
    ensures forall i: nat :: i in Arrived(pre + [g[0]], k, e) <==> i == 0 || HeldAs(OnKey(pre, k), e, i)
  {
    GenerationIndex(g, k, e, 0);
    ArrivedConcat(pre, [g[0]], k, e);
    ArrivedOnKey(pre, k, e);
    assert Arrived([g[0]], k, e) == {0} by {
      assert [g[0]][..0] == [];
    }
  }

  /** Corollary: once every frame of the generation has arrived, all of it has been delivered, in order. */
  lemma {:induction false} WholeGeneration(tr: seq<Frame>, g: seq<Frame>, k: Key, e: byte)
    requires Generation(g, k, e) && !k.1 && OneGeneration(tr, g, k, e) && WithinQueues(tr, g, k, e)
    requires forall i :: 0 <= i < |g| ==> g[i] in tr
    ensures OnKey(Run(FRESH, tr).out, k) == g
  {
    hide Run, OnKey;
    OpenerDeliversAll(tr, g, k, e);
    var m := FirstMissing(Arrived(tr, k, e), 0);
    if m < |g| {
      GenerationIndex(g, k, e, m);
      ArrivedHas(tr, g[m], k);
    }
    assert g[..|g|] == g;
  }

  lemma {:induction false} ArrivedHas(tr: seq<Frame>, f: Frame, k: Key)
    requires f in tr && On(f, k)
    ensures SessionSeq(f) in Arrived(tr, k, Epoch(f))
    decreases |tr|
  {
    if tr[|tr| - 1] != f {
      ArrivedHas(tr[..|tr| - 1], f, k);
    }
  }

  // ----- The acceptor direction -----

  /** The first arrival on a key. */
  lemma {:induction false} FirstOn(tr: seq<Frame>, k: Key) returns (o: nat)
    requires OnKey(tr, k) != []
    ensures o < |tr| && On(tr[o], k) && OnKey(tr, k)[0] == tr[o]
    ensures forall j :: 0 <= j < o ==> !On(tr[j], k)
    decreases |tr|
  {
    var pre := tr[..|tr| - 1];
    if OnKey(pre, k) != [] {
      o := FirstOn(pre, k);
    } else {
      o := |tr| - 1;
      if exists j :: 0 <= j < o && On(tr[j], k) {
        var j :| 0 <= j < o && On(tr[j], k);
        OnKeyMember(pre, pre[j], k);
      }
    }
  }

  lemma {:induction false} OnKeyMember(tr: seq<Frame>, f: Frame, k: Key)
    requires f in tr && On(f, k)
    ensures f in OnKey(tr, k)
    decreases |tr|
  {
    if tr[|tr| - 1] != f {
      OnKeyMember(tr[..|tr| - 1], f, k);
    }
  }

  /** A run without frames of a key does nothing to the key. */
  lemma {:induction false} QuietRun(d: Decoder, tr: seq<Frame>, k: Key)
    requires Wf(d) && Directed(d, k.0)
    requires forall f :: f in tr ==> OneSided(f, k.0) && !On(f, k)
    ensures var r := Run(d, tr);
            && Wf(r.dec) && Directed(r.dec, k.0) && OnKey(r.out, k) == []
            && (k in r.dec.states <==> k in d.states)
            && (k in d.states ==> r.dec.states[k] == d.states[k])
            && (!k.1 ==> Held(r.dec, k.0) == Held(d, k.0))
    decreases |tr|
  {
    hide Step, Wf, Directed;
    if tr != [] {
      var pre, f := tr[..|tr| - 1], tr[|tr| - 1];
      QuietRun(d, pre, k);
      var b := Run(d, pre);
      StepWf(b.dec, f);
      StepDirected(b.dec, f, k.0);
      StepFrame(b.dec, f, k);
      StepElsewhere(b.dec, f, k);
      OnKeyConcat(b.out, Step(b.dec, f).out, k);
    }
  }

  /** The first frame of an acceptor direction sets the baseline and is delivered at once. */
  lemma {:induction false} FirstOfAcceptor(d: Decoder, f: Frame, k: Key)
    requires On(f, k) && k.1 && k !in d.states && !f.ftype.Open?
    ensures Step(d, f) == Stepped(d.(states := d.states[k := Reorder(Epoch(f), SessionSeq(f) + 1, map[])]), [f])
  {
    hide Flush, Merge;
  }

  /** What arrives for an acceptor generation: its frames, and anything on other keys. */
  ghost predicate AcceptorTraffic(tr: seq<Frame>, g: seq<Frame>, k: Key) {
    forall f :: f in tr && On(f, k) ==> Part(f, g)
  }

  /** An acceptor generation has no Open, so its key sees none. */
  lemma {:induction false} AcceptorOneSided(f: Frame, g: seq<Frame>, k: Key, e: byte)
    requires Generation(g, k, e) && k.1 && (On(f, k) ==> Part(f, g))
    ensures OneSided(f, k.0)
  {
  }

  /** THEOREM (acceptor direction). Delivery is one contiguous stretch of the generation that starts at the
      first arrival; within the buffer it ends exactly at the first frame missing after it. */
  lemma {:induction false} AcceptorDeliversRun(tr: seq<Frame>, g: seq<Frame>, k: Key, e: byte)
    requires Generation(g, k, e) && k.1 && AcceptorTraffic(tr, g, k) && OnKey(tr, k) != []
    ensures var a := SessionSeq(OnKey(tr, k)[0]); var st := Run(FRESH, tr).dec.states;
            && k in st && a < st[k].next <= |g|
            && OnKey(Run(FRESH, tr).out, k) == g[a..st[k].next]
            && (Roomy(tr, {}, a, k, e) ==> st[k].next == FirstMissing(Arrived(tr, k, e), a))
  {
    hide Run, Step, OnKey, Wf, Directed, Arrived, FirstMissing;
    var o := FirstOn(tr, k);
    var pre, f, post := tr[..o], tr[o], tr[o + 1..];
    assert f in tr;
    FreshInvariants();
    forall x | x in tr ensures OneSided(x, k.0) {
      AcceptorOneSided(x, g, k, e);
    }
    QuietRun(FRESH, pre, k);
    SplitRun(FRESH, tr, o);
    var b := Run(FRESH, pre);
    var d := Step(b.dec, f);
    FirstOfAcceptor(b.dec, f, k);
    StepWf(b.dec, f);
    StepDirected(b.dec, f, k.0);
    var a := SessionSeq(f);
    GenerationIndex(g, k, e, a);
    AcceptorAdmissible(tr, g, k, e, o);
    ContinuesInOrder(d.dec, post, g, k, e);
    OnKeyAll([f], k);
    OnKeyConcat([f], Run(d.dec, post).out, k);
    OnKeyConcat(b.out, [f] + Run(d.dec, post).out, k);
    var n := Run(FRESH, tr).dec.states[k].next;
    assert [g[a]] + g[a + 1..n] == g[a..n];
    if Roomy(tr, {}, a, k, e) {
      AcceptorExactly(tr, g, k, e, o, d.dec);
    }
  }

  /** Exactly when an acceptor generation is delivered from its beginning: its first frame is the first to arrive.
      Whatever precedes the first arrival is lost to the session. */
  lemma {:induction false} AcceptorInOrderIff(tr: seq<Frame>, g: seq<Frame>, k: Key, e: byte)
    requires Generation(g, k, e) && k.1 && AcceptorTraffic(tr, g, k) && OnKey(tr, k) != []
    ensures OnKey(Run(FRESH, tr).out, k) <= g <==> OnKey(tr, k)[0] == g[0]
  {
    hide Run, OnKey;
    AcceptorDeliversRun(tr, g, k, e);
    var f := OnKey(tr, k)[0];
    var a := SessionSeq(f);
    assert f == g[a] by {
      var o := FirstOn(tr, k);
      assert tr[o] in tr;
    }
    GenerationIndex(g, k, e, 0);
    GenerationIndex(g, k, e, a);
    assert OnKey(Run(FRESH, tr).out, k)[0] == g[a];
  }

  lemma {:induction false} AcceptorExactly(tr: seq<Frame>, g: seq<Frame>, k: Key, e: byte, o: nat, d: Decoder)
    requires Generation(g, k, e) && k.1 && AcceptorTraffic(tr, g, k) && Wf(d) && Directed(d, k.0)
    requires o < |tr| && On(tr[o], k) && forall j :: 0 <= j < o ==> !On(tr[j], k)
    requires k in d.states && d.states[k] == Reorder(e, SessionSeq(tr[o]) + 1, map[])
    requires Roomy(tr, {}, SessionSeq(tr[o]), k, e)
    ensures k in Run(d, tr[o + 1..]).dec.states
    ensures Run(d, tr[o + 1..]).dec.states[k].next == FirstMissing(Arrived(tr, k, e), SessionSeq(tr[o]))
  {
    hide Run, Wf, Directed, FirstMissing, Arrived, Roomy, Admissible;
    var pre, f, post := tr[..o], tr[o], tr[o + 1..];
    var a := SessionSeq(f);
    assert f in tr;
    GenerationIndex(g, k, e, a);
    var have := Arrived(pre + [f], k, e);
    ArrivedFirst(pre, f, k);
    AcceptorAdmissible(tr, g, k, e, o);
    assert tr == pre + [f] + post;
    RoomySuffix(pre + [f], post, a, k, e);
    ContinuesExactly(d, post, g, k, e, a, have);
    ArrivedConcat(pre + [f], post, k, e);
  }

  lemma {:induction false} ArrivedFirst(pre: seq<Frame>, f: Frame, k: Key)
    requires On(f, k) && forall x :: x in pre ==> !On(x, k)
    ensures Arrived(pre + [f], k, Epoch(f)) == {SessionSeq(f)}
  {
    NoneArrived(pre, k, Epoch(f));
    assert (pre + [f])[..|pre|] == pre;
  }

  lemma {:induction false} AcceptorAdmissible(tr: seq<Frame>, g: seq<Frame>, k: Key, e: byte, o: nat)
    requires AcceptorTraffic(tr, g, k) && Generation(g, k, e) && k.1 && o < |tr|
    ensures forall x :: x in tr[o + 1..] ==> Admissible(x, g, k, e)
  {
    forall x | x in tr[o + 1..] ensures Admissible(x, g, k, e) {
      assert x in tr;
      AcceptorOneSided(x, g, k, e);
    }
  }

  lemma {:induction false} RoomySuffix(a: seq<Frame>, b: seq<Frame>, base: nat, k: Key, e: byte)
    requires Roomy(a + b, {}, base, k, e)
    ensures Roomy(b, Arrived(a, k, e), base, k, e)
  {
    hide FirstMissing, Arrived;
    forall j | 0 <= j < |b| && On(b[j], k) && Epoch(b[j]) == e
      ensures SessionSeq(b[j]) <= FirstMissing(Arrived(a, k, e) + Arrived(b[..j], k, e), base) + REORDER_MAX
    {
      assert (a + b)[..|a| + j] == a + b[..j] && (a + b)[|a| + j] == b[j];
      ArrivedConcat(a, b[..j], k, e);
      assert {} + Arrived((a + b)[..|a| + j], k, e) == Arrived(a, k, e) + Arrived(b[..j], k, e);
    }
  }

  lemma {:induction false} NoneArrived(tr: seq<Frame>, k: Key, e: byte)
    requires forall f :: f in tr ==> !On(f, k)
    ensures Arrived(tr, k, e) == {}
    decreases |tr|
  {
    if tr != [] {
      NoneArrived(tr[..|tr| - 1], k, e);
    }
  }
}
