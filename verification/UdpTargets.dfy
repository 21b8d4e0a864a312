/** Several datagrams to one target at once: what the reassembler does with their pieces, including what it mixes up
    (src/server/forward.rs). */
module UdpTargets {
  import opened Bytes
  import opened UdpFragments
  import opened UdpRoundTrip

  // ----- The state of one target, in terms of datagrams -----

  /** Nothing pending, or pieces by number with the datagram each was cut from, since the time the first one came. */
  datatype Gather = Idle | Gathering(shape: Datagram, from: map<nat, Datagram>, since: nat)

  datatype Gathered = Gathered(g: Gather, out: Option<seq<byte>>)

  /** What the reassembler can tell of a datagram: its target and its length. */
  predicate SameShape(a: Datagram, b: Datagram) {
    Target(a) == Target(b) && |a.payload| == |b.payload|
  }

  ghost predicate FromOk(shape: Datagram, from: map<nat, Datagram>)
    requires Sendable(shape)
  {
    forall i :: i in from ==> i < Total(shape) && Sendable(from[i]) && SameShape(shape, from[i])
  }

  ghost predicate Full(shape: Datagram, from: map<nat, Datagram>)
    requires Sendable(shape)
  {
    forall i :: 0 <= i < Total(shape) ==> i in from
  }

  /** The pieces that are there, as the reassembler stores them. */
  ghost function PartsOf(shape: Datagram, from: map<nat, Datagram>): (parts: seq<Option<seq<byte>>>)
    requires Sendable(shape) && FromOk(shape, from)
    ensures |parts| == Total(shape)
  {
    seq(Total(shape), i requires 0 <= i < Total(shape) => if i in from then Some(DataOf(from[i], i)) else None)
  }

  /** A piece of datagram `x` arrives: a piece of another shape discards what is there; of two pieces with one number
      the first one stays; the last missing one delivers whatever has been gathered. */
  ghost function PieceComes(s: Gather, x: Datagram, i: nat, now: nat): Gathered
    requires Sendable(x) && i < Total(x)
    requires s.Gathering? && SameShape(s.shape, x) ==> FromOk(x, s.from)
  {
    var kept := if s.Gathering? && SameShape(s.shape, x) then s.from else map[];
    var from := if i in kept then kept else kept[i := x];
    if Full(x, from) then Gathered(Idle, Some(Head(x) + Joined(PartsOf(x, from))))
    else Gathered(Gathering(x, from, if s.Gathering? then s.since else now), None)
  }

  /** The age counts from the first piece, whatever has been discarded since. */
  function TimePasses(s: Gather, now: nat): Gather {
    if s.Gathering? && now - s.since > REASM_EXPIRY_SECS then Idle else s
  }

  ghost predicate Represents(r: Reasm, key: Key, s: Gather) {
    && ReasmWf(r)
    && (s.Idle? ==> key !in r.pending)
    && (s.Gathering? ==>
          && Sendable(s.shape) && FromOk(s.shape, s.from) && Target(s.shape) == key && s.from != map[]
          && key in r.pending && key in r.createdAt && r.createdAt[key] == s.since
          && Stores(r.pending[key], s.shape, s.from))
  }

  ghost predicate Stores(st: ReasmState, shape: Datagram, from: map<nat, Datagram>)
    requires Sendable(shape) && FromOk(shape, from)
  {
    && st.totalLen == |shape.payload| && st.totalParts == Total(shape) && st.parts == PartsOf(shape, from)
    && (0 in from ==> st.header == Head(shape))
  }

  lemma {:induction false} ShapeFixes(a: Datagram, b: Datagram)
    requires Sendable(a) && Sendable(b) && SameShape(a, b)
    ensures Total(a) == Total(b) && Head(a) == Head(b)
    ensures forall i: nat :: |DataOf(a, i)| == |DataOf(b, i)|
  {
  }

  lemma {:induction false} Reshape(a: Datagram, b: Datagram, from: map<nat, Datagram>)
    requires Sendable(a) && Sendable(b) && SameShape(a, b) && FromOk(a, from)
    ensures FromOk(b, from) && PartsOf(b, from) == PartsOf(a, from) && (Full(a, from) <==> Full(b, from))
  {
    ShapeFixes(a, b);
  }

  /** What `push` finds for the target of a piece. */
  lemma {:induction false} OpensKept(r: Reasm, s: Gather, x: Datagram, i: nat)
    requires Sendable(x) && i < Total(x) && Represents(r, Target(x), s)
    ensures var kept := if s.Gathering? && SameShape(s.shape, x) then s.from else map[];
            var st := Opened(r, Target(x), Fragment(|x.payload|, i, Total(x), DataOf(x, i)));
            FromOk(x, kept) && Stores(st, x, kept)
  {
    hide DataOf, Total, ReasmWf;
    if s.Gathering? {
      if SameShape(s.shape, x) {
        ShapeFixes(s.shape, x);
        Reshape(s.shape, x, s.from);
      } else {
        assert |s.shape.payload| != |x.payload|;
      }
    }
  }

  /** Storing the piece is adding it, unless its number is there. */
  lemma {:induction false} StoresAdded(st: ReasmState, x: Datagram, kept: map<nat, Datagram>, i: nat)
    requires Sendable(x) && i < Total(x) && FromOk(x, kept) && Stores(st, x, kept)
    ensures var from := if i in kept then kept else kept[i := x];
            var t := Stored(st, Head(x), Fragment(|x.payload|, i, Total(x), DataOf(x, i)));
            FromOk(x, from) && Stores(t, x, from)
  {
    hide DataOf, Total;
    var from := if i in kept then kept else kept[i := x];
    var t := Stored(st, Head(x), Fragment(|x.payload|, i, Total(x), DataOf(x, i)));
    assert t.parts == PartsOf(x, from);
  }

  lemma {:induction false} FullIsFilled(x: Datagram, from: map<nat, Datagram>)
    requires Sendable(x) && FromOk(x, from)
    ensures Full(x, from) <==> Filled(PartsOf(x, from)) == Total(x)
  {
    hide DataOf, Total, Filled;
    FilledFull(PartsOf(x, from));
    if Filled(PartsOf(x, from)) == Total(x) {
      forall i | 0 <= i < Total(x) ensures i in from {
        assert PartsOf(x, from)[i].Some?;
      }
    }
  }

  /** THEOREM (one target, step). Pushing a piece of any datagram does to its target exactly what `PieceComes` says. */
  lemma {:induction false} PushAnyPiece(r: Reasm, s: Gather, x: Datagram, i: nat, now: nat)
    requires Sendable(x) && i < Total(x) && Represents(r, Target(x), s)
    ensures s.Gathering? && SameShape(s.shape, x) ==> FromOk(x, s.from)
    ensures var p := AfterPush(r, PieceOf(x, i), now); var t := PieceComes(s, x, i, now);
            p.out == t.out && Represents(p.r, Target(x), t.g)
  {
    hide Joined, Filled, Stored, Opened, ParseAddr, ParseFragment, PieceOf, DataOf, PartsOf, Total, Head;
    var f := Fragment(|x.payload|, i, Total(x), DataOf(x, i));
    var kept := if s.Gathering? && SameShape(s.shape, x) then s.from else map[];
    var from := if i in kept then kept else kept[i := x];
    OpensKept(r, s, x, i);
    StoresAdded(Opened(r, Target(x), f), x, kept, i);
    StoredWf(r, Target(x), Head(x), f);
    FullIsFilled(x, from);
    PieceParses(x, i);
    PushWf(r, PieceOf(x, i), now);
  }

  // ----- Runs -----

  /** What happens to a reassembler: a piece of a datagram to the target, another frame, or a clean-up. */
  datatype Event = PieceIn(x: Datagram, i: nat, now: nat) | OtherIn(frame: seq<byte>, now: nat) | CleanUp(now: nat)

  /** A frame of another target, or one without a fragment. */
  predicate Aside(frame: seq<byte>, key: Key) {
    match ParseAddr(frame)
    case None => true
    case Some(a) =>
      (a.host, a.port) != key || a.rest == [] || a.rest[0] != UDP_FRAG_MARK || ParseFragment(a.rest).None?
  }

  ghost predicate EventOk(ev: Event, key: Key) {
    match ev
    case PieceIn(x, i, _) => Sendable(x) && i < Total(x) && Target(x) == key
    case OtherIn(frame, _) => Aside(frame, key)
    case CleanUp(_) => true
  }

  /** A frame that is no fragment is passed on at once, if there is anything behind its header. */
  function PassedOn(frame: seq<byte>): Option<seq<byte>> {
    match ParseAddr(frame)
    case None => None
    case Some(a) => if a.rest != [] && a.rest[0] != 0xFF then Some(frame) else None
  }

  predicate NoFragment(frame: seq<byte>) {
    match ParseAddr(frame)
    case None => true
    case Some(a) => a.rest == [] || a.rest[0] != 0xFF || ParseFragment(a.rest).None?
  }

  /** What is not a fragment changes nothing, and its fate does not depend on what is pending. */
  lemma {:induction false} NoFragmentPasses(r: Reasm, frame: seq<byte>, now: nat)
    requires ReasmWf(r) && NoFragment(frame)
    ensures AfterPush(r, frame, now) == Pushed(r, PassedOn(frame))
  {
    hide Filled;
  }

  ghost function After(r: Reasm, ev: Event, key: Key): (p: Pushed)
    requires ReasmWf(r) && EventOk(ev, key)
  {
    match ev
    case PieceIn(x, i, now) => AfterPush(r, PieceOf(x, i), now)
    case OtherIn(frame, now) => AfterPush(r, frame, now)
    case CleanUp(now) => Pushed(Cleaned(r, now), None)
  }

  ghost predicate GatherOk(s: Gather, key: Key) {
    s.Gathering? ==> Sendable(s.shape) && FromOk(s.shape, s.from) && Target(s.shape) == key
  }

  /** What the event does to the target, and what it delivers for it. */
  ghost function Meant(s: Gather, ev: Event, key: Key): Gathered
    requires GatherOk(s, key) && EventOk(ev, key)
  {
    match ev
    case PieceIn(x, i, now) =>
      if s.Gathering? && SameShape(s.shape, x) then Reshape(s.shape, x, s.from);
                                                    PieceComes(s, x, i, now)
      else PieceComes(s, x, i, now)
    case OtherIn(frame, _) => Gathered(s, PassedOn(frame))
    case CleanUp(now) => Gathered(TimePasses(s, now), None)
  }

  lemma {:induction false} CleanKeeps(r: Reasm, key: Key, s: Gather, now: nat)
    requires Represents(r, key, s)
    ensures Represents(Cleaned(r, now), key, TimePasses(s, now))
  {
    hide Filled, DataOf, PartsOf, Total;
  }

  lemma {:induction false} AsideKeeps(r: Reasm, key: Key, s: Gather, frame: seq<byte>, now: nat)
    requires Represents(r, key, s) && Aside(frame, key)
    ensures Represents(AfterPush(r, frame, now).r, key, s)
  {
    hide Joined, Filled, Stored, Opened, DataOf, PartsOf, Total;
    PushWf(r, frame, now);
  }

  lemma {:induction false} EventKeeps(r: Reasm, key: Key, s: Gather, ev: Event)
    requires Represents(r, key, s) && EventOk(ev, key)
    ensures GatherOk(s, key)
    ensures var t := Meant(s, ev, key);
            && Represents(After(r, ev, key).r, key, t.g) && GatherOk(t.g, key)
            && (ev.PieceIn? || ev.CleanUp? || NoFragment(ev.frame) ==> After(r, ev, key).out == t.out)
  {
    hide AfterPush, PieceComes, FromOk, Aside, Cleaned, PieceOf, NoFragment, PassedOn;
    match ev {
      case PieceIn(x, i, now) => PushAnyPiece(r, s, x, i, now);
      case OtherIn(frame, now) =>
        AsideKeeps(r, key, s, frame, now);
        if NoFragment(frame) {
          NoFragmentPasses(r, frame, now);
        }
      case CleanUp(now) => CleanKeeps(r, key, s, now);
    }
  }

  ghost function RunEvents(r: Reasm, tr: seq<Event>, key: Key): (t: Reasm)
    requires ReasmWf(r) && forall ev :: ev in tr ==> EventOk(ev, key)
    ensures ReasmWf(t)
    decreases |tr|
  {
    if tr == [] then r
    else
      var b := RunEvents(r, tr[..|tr| - 1], key);
      EventWf(b, tr[|tr| - 1], key);
      After(b, tr[|tr| - 1], key).r
  }

  lemma {:induction false} EventWf(r: Reasm, ev: Event, key: Key)
    requires ReasmWf(r) && EventOk(ev, key)
    ensures ReasmWf(After(r, ev, key).r)
  {
    hide Filled, PieceOf, Total;
    match ev {
      case PieceIn(x, i, now) => PushWf(r, PieceOf(x, i), now);
      case OtherIn(frame, now) => PushWf(r, frame, now);
      case CleanUp(now) =>
    }
  }

  ghost function RunMeant(tr: seq<Event>, key: Key): (s: Gather)
    requires forall ev :: ev in tr ==> EventOk(ev, key)
    ensures GatherOk(s, key)
    decreases |tr|
  {
    if tr == [] then Idle
    else
      var b := RunMeant(tr[..|tr| - 1], key);
      MeantOk(b, tr[|tr| - 1], key);
      Meant(b, tr[|tr| - 1], key).g
  }

  lemma {:induction false} MeantOk(s: Gather, ev: Event, key: Key)
    requires GatherOk(s, key) && EventOk(ev, key)
    ensures GatherOk(Meant(s, ev, key).g, key)
  {
    hide Joined, PartsOf, DataOf, Total;
    if ev.PieceIn? && s.Gathering? && SameShape(s.shape, ev.x) {
      Reshape(s.shape, ev.x, s.from);
    }
  }

  /** THEOREM (one target, runs). Over every sequence of pieces of any datagrams to the target, other frames and
      clean-ups, the reassembler's state of the target and all it delivers for it are those of the gathering. */
  lemma {:induction false} TargetRefines(tr: seq<Event>, key: Key)
    requires forall ev :: ev in tr ==> EventOk(ev, key)
    ensures ReasmWf(Reasm(map[], map[]))
    ensures Represents(RunEvents(Reasm(map[], map[]), tr, key), key, RunMeant(tr, key))
    ensures forall j :: 0 <= j < |tr| && (tr[j].OtherIn? ==> NoFragment(tr[j].frame)) ==>
              After(RunEvents(Reasm(map[], map[]), tr[..j], key), tr[j], key).out
              == Meant(RunMeant(tr[..j], key), tr[j], key).out
    decreases |tr|
  {
    hide After, Meant, Represents, EventOk, NoFragment;
    assert ReasmWf(Reasm(map[], map[])) && Represents(Reasm(map[], map[]), key, Idle) by { EmptyIsIdle(key); }
    if tr != [] {
      var pre := tr[..|tr| - 1];
      assert forall ev :: ev in pre ==> ev in tr;
      TargetRefines(pre, key);
      EventKeeps(RunEvents(Reasm(map[], map[]), pre, key), key, RunMeant(pre, key), tr[|tr| - 1]);
      forall j | 0 <= j < |tr| && (tr[j].OtherIn? ==> NoFragment(tr[j].frame))
        ensures After(RunEvents(Reasm(map[], map[]), tr[..j], key), tr[j], key).out
                == Meant(RunMeant(tr[..j], key), tr[j], key).out
      {
        if j < |pre| {
          assert pre[..j] == tr[..j] && pre[j] == tr[j];
        } else {
          assert tr[..j] == pre;
        }
      }
    }
  }

  lemma {:induction false} EmptyIsIdle(key: Key)
    ensures ReasmWf(Reasm(map[], map[])) && Represents(Reasm(map[], map[]), key, Idle)
  {
  }

  // ----- When pieces get mixed up -----

  /** Parts of the same sizes, joined, are equal only if they are equal one by one. */
  lemma {:induction false} JoinedDetermines(a: seq<Option<seq<byte>>>, b: seq<Option<seq<byte>>>)
    requires |a| == |b|
    requires forall i :: 0 <= i < |a| ==> a[i].Some? && b[i].Some? && |a[i].value| == |b[i].value|
    ensures |Joined(a)| == |Joined(b)| && (Joined(a) == Joined(b) <==> a == b)
    decreases |a|
  {
    if a != [] {
      var n := |a| - 1;
      JoinedDetermines(a[..n], b[..n]);
      var p, q, x, y := Joined(a[..n]), Joined(b[..n]), a[n].value, b[n].value;
      if p + x == q + y {
        assert p == (p + x)[..|p|] && q == (q + y)[..|q|];
        assert x == (p + x)[|p|..] && y == (q + y)[|q|..];
        assert a == a[..n] + [a[n]] && b == b[..n] + [b[n]];
      }
    }
  }

  /** A datagram's own first `n` pieces. */
  function Own(x: Datagram, n: nat): (from: map<nat, Datagram>)
    ensures forall i: nat :: (i in from <==> i < n) && (i < n ==> from[i] == x)
  {
    if n == 0 then map[] else Own(x, n - 1)[n - 1 := x]
  }

  /** THEOREM (mixing, exact). Whatever has been gathered, the piece that completes it delivers its own datagram if
      and only if every piece gathered is equal to the datagram's own. */
  lemma {:induction false} DeliversOwnIff(x: Datagram, from: map<nat, Datagram>)
    requires Sendable(x) && FromOk(x, from) && Full(x, from)
    ensures Head(x) + Joined(PartsOf(x, from)) == Head(x) + x.payload <==>
            forall i :: 0 <= i < Total(x) ==> DataOf(from[i], i) == DataOf(x, i)
  {
    hide Joined, DataOf, Total, Head;
    var own := Own(x, Total(x));
    var p, q := PartsOf(x, from), PartsOf(x, own);
    forall i | 0 <= i < |p| ensures p[i].Some? && q[i].Some? && |p[i].value| == |q[i].value| {
      ShapeFixes(x, from[i]);
    }
    JoinedDetermines(p, q);
    JoinedAll(x, q);
    var h := Head(x);
    assert h + Joined(p) == h + x.payload <==> Joined(p) == x.payload by {
      assert (h + Joined(p))[|h|..] == Joined(p) && (h + x.payload)[|h|..] == x.payload;
    }
    if forall i :: 0 <= i < Total(x) ==> DataOf(from[i], i) == DataOf(x, i) {
      assert p == q;
    }
    if p == q {
      forall i | 0 <= i < Total(x) ensures DataOf(from[i], i) == DataOf(x, i) {
        assert p[i] == q[i];
      }
    }
  }

  /** Two datagrams of one shape: the pieces `got` of `a`, all others but one of `b`, and then that one. */
  lemma {:induction false} TwoMixIff(r: Reasm, a: Datagram, b: Datagram, got: set<nat>, i: nat, since: nat, now: nat)
    requires Sendable(a) && Sendable(b) && SameShape(b, a) && i < Total(b) && i !in got && got != {}
    requires forall j :: j in got ==> j < Total(b)
    requires var from := map j: nat | j < Total(b) && j != i :: if j in got then a else b;
             Represents(r, Target(b), Gathering(b, from, since))
    ensures AfterPush(r, PieceOf(b, i), now).out == Some(Head(b) + b.payload) <==>
            forall j :: j in got ==> DataOf(a, j) == DataOf(b, j)
  {
    hide AfterPush, PieceOf, Joined, DataOf, Total, Head, PartsOf;
    var from := map j: nat | j < Total(b) && j != i :: if j in got then a else b;
    var s := Gathering(b, from, since);
    PushAnyPiece(r, s, b, i, now);
    var all := from[i := b];
    assert FromOk(b, all) && Full(b, all);
    DeliversOwnIff(b, all);
    if forall j :: j in got ==> DataOf(a, j) == DataOf(b, j) {
      assert forall j :: 0 <= j < Total(b) ==> DataOf(all[j], j) == DataOf(b, j);
    }
    if forall j :: 0 <= j < Total(b) ==> DataOf(all[j], j) == DataOf(b, j) {
      forall j | j in got ensures DataOf(a, j) == DataOf(b, j) {
        assert all[j] == a;
      }
    }
  }

  /** The first piece of one datagram and the second one of another of the same shape are delivered together. */
  lemma {:induction false} MixTwo(a: Datagram, b: Datagram, now: nat)
    requires Sendable(a) && Sendable(b) && SameShape(a, b) && Total(a) == 2 == Total(b)
    ensures ReasmWf(Reasm(map[], map[]))
    ensures var p := AfterPush(Reasm(map[], map[]), PieceOf(a, 0), now);
            && ReasmWf(p.r) && p.out == None
            && FromOk(b, map[0 := a, 1 := b]) && Full(b, map[0 := a, 1 := b])
            && AfterPush(p.r, PieceOf(b, 1), now).out == Some(Head(b) + Joined(PartsOf(b, map[0 := a, 1 := b])))
  {
    hide AfterPush, PieceOf, Joined, DataOf, PartsOf, Total, Head;
    EmptyIsIdle(Target(a));
    PushAnyPiece(Reasm(map[], map[]), Idle, a, 0, now);
    var first: map<nat, Datagram> := map[0 := a];
    assert 1 < Total(a) && 1 !in first;
    assert PieceComes(Idle, a, 0, now).g == Gathering(a, map[0 := a], now) by { assert map[][0 := a] == map[0 := a]; }
    var p := AfterPush(Reasm(map[], map[]), PieceOf(a, 0), now);
    PushAnyPiece(p.r, Gathering(a, map[0 := a], now), b, 1, now);
    assert map[0 := a][1 := b] == map[0 := a, 1 := b];
    assert Full(b, map[0 := a, 1 := b]);
  }

  /** A run that delivers what nobody sent. */
  lemma {:induction false} MixWitness()
    ensures var a, b := Datagram([], 1, Zeros(2000)), Datagram([], 1, Ones(2000));
            && Sendable(a) && Sendable(b) && Total(a) == 2 == Total(b) && ReasmWf(Reasm(map[], map[]))
            && var p := AfterPush(Reasm(map[], map[]), PieceOf(a, 0), 0);
               && ReasmWf(p.r) && p.out == None
               && var out := AfterPush(p.r, PieceOf(b, 1), 0).out;
                  out.Some? && out != Some(Head(a) + a.payload) && out != Some(Head(b) + b.payload)
  {
    hide AfterPush, PieceOf, Joined, DataOf, PartsOf, Total, Head, Zeros, Ones;
    var a, b := Datagram([], 1, Zeros(2000)), Datagram([], 1, Ones(2000));
    TwoParts(a, 0);
    TwoParts(b, 1);
    MixTwo(a, b, 0);
    var from := map[0 := a, 1 := b];
    DeliversOwnIff(b, from);
    Reshape(b, a, from);
    ShapeFixes(a, b);
    DeliversOwnIff(a, from);
    assert from[0] == a && from[1] == b;
  }

  lemma {:induction false} TwoParts(x: Datagram, v: byte)
    requires x == Datagram([], 1, if v == 0 then Zeros(2000) else Ones(2000)) && v <= 1
    ensures Sendable(x) && Total(x) == 2
    ensures forall i :: 0 <= i < 2 ==> DataOf(x, i) != [] && DataOf(x, i)[0] == v
  {
    assert PerPart(Head(x)) == 1293;
    assert Total(x) == 2;
    SliceSize(Head(x), x.payload, 0);
    SliceSize(Head(x), x.payload, 1);
  }

  function Zeros(n: nat): (s: seq<byte>)
    ensures |s| == n
  {
    seq(n, i => 0)
  }

  function Ones(n: nat): (s: seq<byte>)
    ensures |s| == n
  {
    seq(n, i => 1)
  }
}
