/** The two-queue send loop as a step machine (src/srt/connection.rs): application threads enqueue at any moment, the
    send thread drains the priority queue before it takes one reliable item. */
module SendLoop {
  import opened Bytes

  datatype SendItem = SendItem(data: seq<byte>, reliable: bool, ttlMs: int)

  /** Where the send thread is: about to look at the priority queue, about to wait on the reliable one, draining after
      the reliable queue was closed, or gone. */
  datatype Phase = Draining | Waiting | Closing | Stopped

  /** `ok` is whether `send_one` gets the item out; it retries inside until the socket is gone. */
  datatype Action =
    | EnqueuePriority(item: SendItem) | EnqueueReliable(item: SendItem) | CloseReliable
    | TryPriority(ok: bool) | WaitReliable(ok: bool)

  /** What happened, in order. */
  datatype Event = PriorityIn | ReliableIn | PriorityStart | ReliableStart

  datatype Loop = Loop(phase: Phase, prio: seq<SendItem>, rel: seq<SendItem>, closed: bool,
                       prioIn: seq<SendItem>, relIn: seq<SendItem>, prioOut: seq<SendItem>, relOut: seq<SendItem>,
                       started: seq<SendItem>, wire: seq<SendItem>, events: seq<Event>)

  const START := Loop(Draining, [], [], false, [], [], [], [], [], [], [])

  /** An empty message is skipped; otherwise it is on the wire if the socket takes it. */
  function OnWire(item: SendItem, ok: bool): seq<SendItem> {
    if item.data != [] && ok then [item] else []
  }

  /** `send_one` reports a broken socket only for a message it tried to send. */
  predicate Survives(item: SendItem, ok: bool) {
    item.data == [] || ok
  }

  function Step(l: Loop, a: Action): Loop {
    match a
    case EnqueuePriority(item) =>
      l.(prio := l.prio + [item], prioIn := l.prioIn + [item], events := l.events + [PriorityIn])
    case EnqueueReliable(item) =>
      if l.closed then l
      else l.(rel := l.rel + [item], relIn := l.relIn + [item], events := l.events + [ReliableIn])
    case CloseReliable => l.(closed := true)
    case TryPriority(ok) =>
      if !l.phase.Draining? && !l.phase.Closing? then l
      else if l.prio == [] then l.(phase := if l.phase.Draining? then Waiting else Stopped)
      else
        var item := l.prio[0];
        l.(prio := l.prio[1..], prioOut := l.prioOut + [item], started := l.started + [item],
           wire := l.wire + OnWire(item, ok),
           events := l.events + [PriorityStart], phase := if Survives(item, ok) then l.phase else Stopped)
    case WaitReliable(ok) =>
      if !l.phase.Waiting? then l
      else if l.rel != [] then
        var item := l.rel[0];
        l.(rel := l.rel[1..], relOut := l.relOut + [item], started := l.started + [item],
           wire := l.wire + OnWire(item, ok),
           events := l.events + [ReliableStart], phase := if Survives(item, ok) then Draining else Stopped)
      else if l.closed then l.(phase := Closing)
      else l.(phase := Draining)
  }

  function Run(l: Loop, acts: seq<Action>): Loop {
    if acts == [] then l else Step(Run(l, acts[..|acts| - 1]), acts[|acts| - 1])
  }

  function Count(evs: seq<Event>, e: Event): nat {
    if evs == [] then 0 else Count(evs[..|evs| - 1], e) + if evs[|evs| - 1] == e then 1 else 0
  }

  /** How many reliable items start while the `k`-th priority item is in its queue. */
  function Delay(evs: seq<Event>, k: nat): nat {
    if evs == [] then 0
    else
      var pre := evs[..|evs| - 1];
      Delay(pre, k)
      + if evs[|evs| - 1].ReliableStart? && Count(pre, PriorityStart) <= k < Count(pre, PriorityIn) then 1 else 0
  }

  /** Conservation and order: what came out of a queue, followed by what is in it, is what went in. */
  ghost predicate Fifo(l: Loop) {
    && l.prioOut + l.prio == l.prioIn && l.relOut + l.rel == l.relIn
    && Count(l.events, PriorityIn) == |l.prioIn| && Count(l.events, PriorityStart) == |l.prioOut|
  }

  /** No priority item has waited for more than one reliable start, and none that is still queued has waited for any
      while the thread is about to take a reliable item. */
  ghost predicate Prompt(l: Loop) {
    && (forall k: nat :: Delay(l.events, k) <= 1)
    && (l.phase.Waiting? ==> forall k: nat :: |l.prioOut| <= k < |l.prioIn| ==> Delay(l.events, k) == 0)
    && (forall k: nat :: k >= |l.prioIn| ==> Delay(l.events, k) == 0)
  }

  function NonEmpty(items: seq<SendItem>): seq<SendItem> {
    if items == [] then []
    else
      var last := items[|items| - 1];
      NonEmpty(items[..|items| - 1]) + if last.data != [] then [last] else []
  }

  /** The wire carries every started message that is not empty, in the order of starting; only the last one before the
      thread stops can be missing. */
  ghost predicate Faithful(l: Loop) {
    || l.wire == NonEmpty(l.started)
    || (l.phase.Stopped? && l.started != [] && l.wire == NonEmpty(l.started[..|l.started| - 1]))
  }

  lemma {:induction false} StepFaithful(l: Loop, a: Action)
    requires Faithful(l)
    ensures Faithful(Step(l, a))
  {
    hide NonEmpty;
    var t := Step(l, a);
    if |t.started| > |l.started| {
      var item := t.started[|l.started|];
      assert t.started == l.started + [item] && t.started[..|l.started|] == l.started;
      assert NonEmpty(t.started) == NonEmpty(l.started) + (if item.data != [] then [item] else []) by {
        NonEmptySnoc(l.started, item);
      }
    } else {
      assert t.started == l.started;
    }
  }

  lemma {:induction false} NonEmptySnoc(items: seq<SendItem>, item: SendItem)
    ensures NonEmpty(items + [item]) == NonEmpty(items) + if item.data != [] then [item] else []
  {
    assert (items + [item])[..|items|] == items;
  }

  lemma {:induction false} CountSnoc(evs: seq<Event>, e: Event, x: Event)
    ensures Count(evs + [e], x) == Count(evs, x) + if e == x then 1 else 0
  {
    assert (evs + [e])[..|evs|] == evs;
  }

  lemma {:induction false} DelaySnoc(evs: seq<Event>, e: Event, k: nat)
    ensures Delay(evs + [e], k)
            == Delay(evs, k)
               + if e.ReliableStart? && Count(evs, PriorityStart) <= k < Count(evs, PriorityIn) then 1 else 0
  {
    assert (evs + [e])[..|evs|] == evs;
  }

  lemma {:induction false} StepFifo(l: Loop, a: Action)
    requires Fifo(l)
    ensures Fifo(Step(l, a))
  {
    hide Count;
    var t := Step(l, a);
    if |t.events| > |l.events| {
      var e := t.events[|l.events|];
      assert t.events == l.events + [e];
      CountSnoc(l.events, e, PriorityIn);
      CountSnoc(l.events, e, PriorityStart);
    }
    if a.EnqueuePriority? {
      assert l.prioOut + (l.prio + [a.item]) == l.prioOut + l.prio + [a.item];
    } else if a.EnqueueReliable? {
      assert l.relOut + (l.rel + [a.item]) == l.relOut + l.rel + [a.item];
    }
  }

  lemma {:induction false} StepPrompt(l: Loop, a: Action)
    requires Fifo(l) && Prompt(l)
    ensures Prompt(Step(l, a))
  {
    hide Delay, Count;
    var t := Step(l, a);
    assert |l.prioIn| == |l.prioOut| + |l.prio|;
    if |t.events| > |l.events| {
      var e := t.events[|l.events|];
      assert t.events == l.events + [e];
      forall k: nat
        ensures Delay(t.events, k)
                == Delay(l.events, k) + if e.ReliableStart? && |l.prioOut| <= k < |l.prioIn| then 1 else 0
      {
        DelaySnoc(l.events, e, k);
      }
    } else {
      assert t.events == l.events;
    }
  }

  /** THEOREM (scheduling). Over every interleaving of enqueues with the send thread: each queue is started first in,
      first out, each item at most once; and between the arrival of a priority item and its start at most one reliable
      item starts; and the wire carries the started messages in that order. */
  lemma {:induction false} Schedule(acts: seq<Action>)
    ensures Fifo(Run(START, acts)) && Prompt(Run(START, acts)) && Faithful(Run(START, acts))
    decreases |acts|
  {
    hide Step;
    if acts == [] {
    } else {
      Schedule(acts[..|acts| - 1]);
      StepFifo(Run(START, acts[..|acts| - 1]), acts[|acts| - 1]);
      StepPrompt(Run(START, acts[..|acts| - 1]), acts[|acts| - 1]);
      StepFaithful(Run(START, acts[..|acts| - 1]), acts[|acts| - 1]);
    }
  }

  // ----- What is enqueued -----

  /** The priority items of a run, and the reliable ones up to the closing of their queue. */
  function PriorityItems(acts: seq<Action>): seq<SendItem> {
    if acts == [] then []
    else
      var last := acts[|acts| - 1];
      PriorityItems(acts[..|acts| - 1]) + if last.EnqueuePriority? then [last.item] else []
  }

  function ReliableItems(acts: seq<Action>): seq<SendItem> {
    if acts == [] then []
    else
      var pre, last := acts[..|acts| - 1], acts[|acts| - 1];
      ReliableItems(pre) + if last.EnqueueReliable? && CloseReliable !in pre then [last.item] else []
  }

  /** Nothing gets lost on the way into the queues. */
  lemma {:induction false} AllEnqueued(acts: seq<Action>)
    ensures var l := Run(START, acts);
            l.prioIn == PriorityItems(acts) && l.relIn == ReliableItems(acts) && (l.closed <==> CloseReliable in acts)
    decreases |acts|
  {
    if acts != [] {
      AllEnqueued(acts[..|acts| - 1]);
    }
  }

  // ----- Progress -----

  /** The thread's next step, with a socket that works. */
  function ThreadStep(l: Loop): Loop {
    match l.phase
    case Draining => Step(l, TryPriority(true))
    case Closing => Step(l, TryPriority(true))
    case Waiting => Step(l, WaitReliable(true))
    case Stopped => l
  }

  function ThreadRun(l: Loop, n: nat): Loop {
    if n == 0 then l else ThreadStep(ThreadRun(l, n - 1))
  }

  /** What is started comes from the two queues; the wire carries it; and the reliable queue is done with when the
      thread is closing. */
  ghost predicate Started(l: Loop) {
    && Fifo(l)
    && multiset(l.started) == multiset(l.prioOut) + multiset(l.relOut)
    && (!l.phase.Stopped? ==> l.wire == NonEmpty(l.started))
    && (l.phase.Closing? ==> l.closed && l.rel == [])
  }

  lemma {:induction false} StepStarted(l: Loop, a: Action)
    requires Started(l)
    ensures Started(Step(l, a))
  {
    hide NonEmpty, Fifo, Count;
    StepFifo(l, a);
    StepMerges(l, a);
    var t := Step(l, a);
    if |t.started| > |l.started| {
      NonEmptySnoc(l.started, t.started[|l.started|]);
    }
  }

  lemma {:induction false} StepMerges(l: Loop, a: Action)
    requires multiset(l.started) == multiset(l.prioOut) + multiset(l.relOut)
    ensures var t := Step(l, a); multiset(t.started) == multiset(t.prioOut) + multiset(t.relOut)
  {
    var t := Step(l, a);
    if |t.prioOut| > |l.prioOut| {
      var item := l.prio[0];
      assert t.started == l.started + [item] && t.prioOut == l.prioOut + [item] && t.relOut == l.relOut;
    } else if |t.relOut| > |l.relOut| {
      var item := l.rel[0];
      assert t.started == l.started + [item] && t.relOut == l.relOut + [item] && t.prioOut == l.prioOut;
    } else {
      assert t.started == l.started && t.prioOut == l.prioOut && t.relOut == l.relOut;
    }
  }

  lemma {:induction false} RunStarted(acts: seq<Action>)
    ensures Started(Run(START, acts))
    decreases |acts|
  {
    hide Step;
    if acts != [] {
      RunStarted(acts[..|acts| - 1]);
      StepStarted(Run(START, acts[..|acts| - 1]), acts[|acts| - 1]);
    }
  }

  /** A step of the thread starts the head of the queue its phase looks at, if there is one. */
  lemma {:induction false} StepStarts(l: Loop, ok: bool)
    ensures l.phase.Waiting? && l.rel != [] ==>
              var t := Step(l, WaitReliable(ok)); t.started == l.started + [l.rel[0]] && t.rel == l.rel[1..]
    ensures (l.phase.Draining? || l.phase.Closing?) && l.prio != [] ==>
              var t := Step(l, TryPriority(ok)); t.started == l.started + [l.prio[0]] && t.prio == l.prio[1..]
  {
  }

  /** How many steps the thread still needs to empty its queues. */
  function ToDo(l: Loop): nat {
    |l.prio| + 2 * |l.rel| + if l.phase.Waiting? then if l.rel == [] then 2 else 0 else 1
  }

  /** And how many to stop, once the reliable queue has been closed. */
  function ToStop(l: Loop): nat {
    |l.prio| + 2 * |l.rel| + match l.phase case Draining => 3 case Waiting => 2 case Closing => 1 case Stopped => 0
  }

  /** The thread works off what there is, adds nothing, and does not stop before it has to. */
  ghost predicate WorksOn(l: Loop, t: Loop) {
    && Started(t) && t.prioIn == l.prioIn && t.relIn == l.relIn && t.closed == l.closed && l.wire <= t.wire
    && (t.wire == NonEmpty(t.started))
    && (t.phase.Stopped? ==> t.prio == [] && t.rel == [] && t.closed)
  }

  lemma {:induction false} ThreadStepWorks(l: Loop)
    requires WorksOn(l, l)
    ensures WorksOn(l, ThreadStep(l))
  {
    hide NonEmpty, Fifo, Count;
    var a := if l.phase.Waiting? then WaitReliable(true) else TryPriority(true);
    StepStarted(l, a);
    var t := ThreadStep(l);
    if |t.started| > |l.started| {
      NonEmptySnoc(l.started, t.started[|l.started|]);
    }
  }

  lemma {:induction false} ThreadStepShrinks(l: Loop)
    requires l.phase.Stopped? ==> l.prio == [] && l.rel == []
    requires l.phase.Closing? ==> l.rel == []
    ensures var t := ThreadStep(l);
            && (l.prio == [] && l.rel == [] ==> t.prio == [] && t.rel == [])
            && ((l.prio != [] || l.rel != []) ==> ToDo(t) < ToDo(l))
            && (l.closed && !l.phase.Stopped? ==> ToStop(t) < ToStop(l))
  {
  }

  lemma {:induction false} ThreadRunWorks(l: Loop, n: nat)
    requires WorksOn(l, l)
    ensures var t := ThreadRun(l, n);
            && WorksOn(l, t) && WorksOn(t, t)
            && ((t.prio == [] && t.rel == []) || ToDo(t) + n <= ToDo(l))
            && (l.closed ==> t.phase.Stopped? || ToStop(t) + n <= ToStop(l))
    decreases n
  {
    hide ThreadStep, ToDo, ToStop, NonEmpty, Fifo;
    if n > 0 {
      ThreadRunWorks(l, n - 1);
      ThreadStepWorks(ThreadRun(l, n - 1));
      ThreadStepShrinks(ThreadRun(l, n - 1));
      var p, t := ThreadRun(l, n - 1), ThreadRun(l, n);
      StopsForGood(p);
    }
  }

  lemma {:induction false} StopsForGood(l: Loop)
    ensures l.phase.Stopped? ==> ThreadStep(l) == l
  {
  }

  lemma {:induction false} InNonEmpty(items: seq<SendItem>, item: SendItem)
    requires item in items && item.data != []
    ensures item in NonEmpty(items)
    decreases |items|
  {
    if items[|items| - 1] != item {
      InNonEmpty(items[..|items| - 1], item);
    }
  }

  /** THEOREM (progress). From every state that a run reaches and in which the thread has not stopped: within twice
      the number of queued items and two steps of the thread, with nothing more enqueued and a working socket, both
      queues are empty and everything ever enqueued that is not empty is on the wire. */
  lemma {:induction false} EverythingIsSent(acts: seq<Action>, n: nat)
    requires !Run(START, acts).phase.Stopped?
    requires n >= 2 * (|Run(START, acts).prio| + |Run(START, acts).rel|) + 2
    ensures var t := ThreadRun(Run(START, acts), n);
            && t.prio == [] && t.rel == [] && Run(START, acts).wire <= t.wire
            && forall item :: item in PriorityItems(acts) + ReliableItems(acts) && item.data != [] ==> item in t.wire
  {
    hide Run, ThreadRun, NonEmpty, Count;
    var l := Run(START, acts);
    RunStarted(acts);
    AllEnqueued(acts);
    ThreadRunWorks(l, n);
    var t := ThreadRun(l, n);
    assert ToDo(t) >= 1 || (t.prio == [] && t.rel == []);
    forall item | item in PriorityItems(acts) + ReliableItems(acts) && item.data != [] ensures item in t.wire {
      assert t.prioOut == t.prioOut + t.prio && t.relOut == t.relOut + t.rel;
      assert item in multiset(t.prioOut) || item in multiset(t.relOut);
      assert item in multiset(t.started);
      InNonEmpty(t.started, item);
    }
  }

  /** THEOREM (shutdown). Once the reliable queue has been closed, the thread stops within one step more, with both
      queues drained. */
  lemma {:induction false} StopsWhenClosed(acts: seq<Action>, n: nat)
    requires !Run(START, acts).phase.Stopped? && CloseReliable in acts
    requires n >= 2 * (|Run(START, acts).prio| + |Run(START, acts).rel|) + 3
    ensures var t := ThreadRun(Run(START, acts), n);
            && t.phase.Stopped? && t.prio == [] && t.rel == []
            && forall item :: item in PriorityItems(acts) + ReliableItems(acts) && item.data != [] ==> item in t.wire
  {
    hide Run, ThreadRun, NonEmpty, Count;
    var l := Run(START, acts);
    RunStarted(acts);
    AllEnqueued(acts);
    ThreadRunWorks(l, n);
    var t := ThreadRun(l, n);
    EverythingIsSent(acts, n);
    assert ToStop(t) >= 0;
  }
}
