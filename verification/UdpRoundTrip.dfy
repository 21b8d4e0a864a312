/** A datagram that is split and reassembled comes back whole, in any arrival order (src/server/forward.rs). */
module UdpRoundTrip {
  import opened Bytes
  import opened UdpFragments

  /** A datagram with its destination. */
  datatype Datagram = Datagram(host: seq<byte>, port: u16, payload: seq<byte>)

  predicate Sendable(d: Datagram) {
    |d.host| <= 255 && 1 <= |d.payload| <= 65535
  }

  function Head(d: Datagram): (h: seq<byte>)
    requires Sendable(d)
    ensures |h| == |d.host| + 3
  {
    AddrHeader(d.host, d.port)
  }

  function Target(d: Datagram): Key {
    (d.host, d.port)
  }

  function Total(d: Datagram): (n: nat)
    requires Sendable(d)
    ensures 0 < n <= 64
  {
    PartsBounds(Head(d), d.payload);
    Parts(Head(d), d.payload)
  }

  function PieceOf(d: Datagram, i: nat): seq<byte>
    requires Sendable(d) && i < Total(d)
  {
    Piece(Head(d), d.payload, i)
  }

  function DataOf(d: Datagram, i: nat): seq<byte>
    requires Sendable(d)
  {
    Slice(Head(d), d.payload, i)
  }

  /** What the receiver reads from a piece. */
  lemma {:induction false} PieceParses(d: Datagram, i: nat)
    requires Sendable(d) && i < Total(d)
    ensures var a := ParseAddr(PieceOf(d, i));
            && a.Some? && (a.value.host, a.value.port) == Target(d) && a.value.rest != []
            && a.value.rest[0] == UDP_FRAG_MARK
            && ParseFragment(a.value.rest) == Some(Fragment(|d.payload|, i, Total(d), DataOf(d, i)))
            && |PieceOf(d, i)| >= 3 + |d.host| && PieceOf(d, i)[..3 + |d.host|] == Head(d)
  {
    var h, fh, s := Head(d), FragHeader(|d.payload|, i, Total(d)), DataOf(d, i);
    var rest := fh + s;
    assert PieceOf(d, i) == h + rest;
    ParseOfAddr(d.host, d.port, rest);
    assert rest[0] == UDP_FRAG_MARK && rest[3] == i && rest[4] == Total(d);
    assert rest[1] == Be16(|d.payload|)[0] && rest[2] == Be16(|d.payload|)[1];
    assert rest[5..] == s;
  }

  /** The parts up to `m`, joined, are the payload up to there. */
  lemma {:induction false} JoinedSlices(d: Datagram, parts: seq<Option<seq<byte>>>, m: nat)
    requires Sendable(d) && m <= |parts| == Total(d)
    requires forall i :: 0 <= i < |parts| ==> parts[i] == Some(DataOf(d, i))
    ensures Joined(parts[..m]) == d.payload[..Min(m * PerPart(Head(d)), |d.payload|)]
    decreases m
  {
    if m > 0 {
      JoinedSlices(d, parts, m - 1);
      assert parts[..m][..m - 1] == parts[..m - 1];
      SliceSize(Head(d), d.payload, m - 1);
    }
  }

  lemma {:induction false} JoinedAll(d: Datagram, parts: seq<Option<seq<byte>>>)
    requires Sendable(d) && |parts| == Total(d)
    requires forall i :: 0 <= i < |parts| ==> parts[i] == Some(DataOf(d, i))
    ensures Joined(parts) == d.payload
  {
    hide Joined;
    JoinedSlices(d, parts, |parts|);
    PartsBounds(Head(d), d.payload);
    assert parts[..|parts|] == parts;
  }

  // ----- One datagram in progress -----

  /** Exactly the pieces numbered in `got` are stored. */
  ghost predicate Holding(st: ReasmState, d: Datagram, got: set<nat>)
    requires Sendable(d)
  {
    && st.totalLen == |d.payload| && st.totalParts == Total(d) && |st.parts| == Total(d)
    && (forall i :: 0 <= i < Total(d) ==> st.parts[i] == if i in got then Some(DataOf(d, i)) else None)
    && (0 in got ==> st.header == Head(d))
  }

  ghost predicate Complete(d: Datagram, got: set<nat>)
    requires Sendable(d)
  {
    forall i :: 0 <= i < Total(d) ==> i in got
  }

  ghost predicate Progress(r: Reasm, d: Datagram, got: set<nat>)
    requires Sendable(d)
  {
    && ReasmWf(r)
    && (got == {} ==> Target(d) !in r.pending)
    && (got != {} ==> Target(d) in r.pending && Holding(r.pending[Target(d)], d, got))
  }

  /** Storing a piece in the opened state. */
  lemma {:induction false} StoresPiece(r: Reasm, d: Datagram, got: set<nat>, i: nat)
    requires Sendable(d) && Progress(r, d, got) && i < Total(d)
    ensures var f := Fragment(|d.payload|, i, Total(d), DataOf(d, i));
            && |Opened(r, Target(d), f).parts| == Total(d)
            && Holding(Stored(Opened(r, Target(d), f), Head(d), f), d, got + {i})
  {
  }

  /** A piece that does not complete the datagram is kept; the one that does yields header and payload. */
  lemma {:induction false} PushPiece(r: Reasm, d: Datagram, got: set<nat>, i: nat, now: nat)
    requires Sendable(d) && Progress(r, d, got) && i < Total(d)
    ensures var p := AfterPush(r, PieceOf(d, i), now);
            if Complete(d, got + {i})
            then p.out == Some(Head(d) + d.payload) && Target(d) !in p.r.pending && ReasmWf(p.r)
            else p.out == None && Progress(p.r, d, got + {i})
  {
    hide Joined, Filled, Stored, Opened, ParseAddr, ParseFragment, PieceOf;
    var f := Fragment(|d.payload|, i, Total(d), DataOf(d, i));
    PieceParses(d, i);
    StoresPiece(r, d, got, i);
    StoredWf(r, Target(d), Head(d), f);
    PushWf(r, PieceOf(d, i), now);
    var st := Stored(Opened(r, Target(d), f), Head(d), f);
    FilledFull(st.parts);
    if Complete(d, got + {i}) {
      JoinedAll(d, st.parts);
    }
  }

  /** A frame of another target, or of none, does not touch the datagram. */
  predicate Elsewhere(frame: seq<byte>, key: Key) {
    var a := ParseAddr(frame);
    a.Some? ==> (a.value.host, a.value.port) != key
  }

  lemma {:induction false} PushElsewhere(r: Reasm, d: Datagram, got: set<nat>, frame: seq<byte>, now: nat)
    requires Sendable(d) && Progress(r, d, got) && Elsewhere(frame, Target(d))
    ensures Progress(AfterPush(r, frame, now).r, d, got)
  {
    hide Joined, Filled, Stored, Opened;
    PushWf(r, frame, now);
  }

  // ----- Runs -----

  datatype Arrival = Arrival(frame: seq<byte>, now: nat)

  /** The pieces of the datagram, in any order and with repeats, among arbitrary frames of other targets. */
  ghost predicate Traffic(tr: seq<Arrival>, d: Datagram)
    requires Sendable(d)
  {
    forall a :: a in tr ==> Elsewhere(a.frame, Target(d)) || exists i :: 0 <= i < Total(d) && a.frame == PieceOf(d, i)
  }

  /** The piece number in a frame. */
  function NumberOf(frame: seq<byte>): nat {
    match ParseAddr(frame)
    case None => 0
    case Some(a) => match ParseFragment(a.rest) case Some(f) => f.idx case None => 0
  }

  /** The numbers of the pieces that have arrived. */
  function Got(tr: seq<Arrival>, d: Datagram): set<nat> {
    if tr == [] then {}
    else
      var last := tr[|tr| - 1];
      Got(tr[..|tr| - 1], d) + if Elsewhere(last.frame, Target(d)) then {} else {NumberOf(last.frame)}
  }

  ghost function PushAll(r: Reasm, tr: seq<Arrival>): (t: Reasm)
    requires ReasmWf(r)
    ensures ReasmWf(t)
    decreases |tr|
  {
    if tr == [] then r
    else
      var b := PushAll(r, tr[..|tr| - 1]);
      PushWf(b, tr[|tr| - 1].frame, tr[|tr| - 1].now);
      AfterPush(b, tr[|tr| - 1].frame, tr[|tr| - 1].now).r
  }

  lemma {:induction false} IsPiece(frame: seq<byte>, d: Datagram) returns (i: nat)
    requires Sendable(d) && !Elsewhere(frame, Target(d))
    requires exists i :: 0 <= i < Total(d) && frame == PieceOf(d, i)
    ensures i < Total(d) && frame == PieceOf(d, i) && NumberOf(frame) == i
  {
    i :| 0 <= i < Total(d) && frame == PieceOf(d, i);
    PieceParses(d, i);
  }

  /** As long as a piece is missing, the pieces that came are held and nothing is delivered for the target. */
  lemma {:induction false} StillWaiting(r: Reasm, tr: seq<Arrival>, d: Datagram)
    requires Sendable(d) && ReasmWf(r) && Target(d) !in r.pending && Traffic(tr, d) && !Complete(d, Got(tr, d))
    ensures Progress(PushAll(r, tr), d, Got(tr, d))
    ensures forall j :: 0 <= j < |tr| && !Elsewhere(tr[j].frame, Target(d)) ==>
              AfterPush(PushAll(r, tr[..j]), tr[j].frame, tr[j].now).out == None
    decreases |tr|
  {
    hide AfterPush, Elsewhere, PieceOf, NumberOf;
    if tr != [] {
      var pre, a := tr[..|tr| - 1], tr[|tr| - 1];
      assert forall x :: x in pre ==> x in tr;
      StillWaiting(r, pre, d);
      var b := PushAll(r, pre);
      if Elsewhere(a.frame, Target(d)) {
        PushElsewhere(b, d, Got(pre, d), a.frame, a.now);
        assert Got(tr, d) == Got(pre, d);
      } else {
        var i := IsPiece(a.frame, d);
        PushPiece(b, d, Got(pre, d), i, a.now);
      }
      forall j | 0 <= j < |tr| && !Elsewhere(tr[j].frame, Target(d))
        ensures AfterPush(PushAll(r, tr[..j]), tr[j].frame, tr[j].now).out == None
      {
        if j < |pre| {
          assert pre[..j] == tr[..j] && pre[j] == tr[j];
        }
      }
    }
  }

  /** THEOREM (UDP round trip). Whatever the order, the repeats and the traffic of other targets: nothing is delivered
      for the target until its last distinct piece, which delivers header and payload exactly and clears it. */
  lemma {:induction false} ReassemblesExactly(r: Reasm, tr: seq<Arrival>, last: Arrival, d: Datagram)
    requires Sendable(d) && ReasmWf(r) && Target(d) !in r.pending && Traffic(tr + [last], d)
    requires !Complete(d, Got(tr, d)) && Complete(d, Got(tr + [last], d))
    ensures forall j :: 0 <= j < |tr| && !Elsewhere(tr[j].frame, Target(d)) ==>
              AfterPush(PushAll(r, tr[..j]), tr[j].frame, tr[j].now).out == None
    ensures var p := AfterPush(PushAll(r, tr), last.frame, last.now);
            p.out == Some(Head(d) + d.payload) && Target(d) !in p.r.pending && Target(d) !in p.r.createdAt
  {
    hide AfterPush, Elsewhere, PieceOf, NumberOf;
    var all := tr + [last];
    assert forall x :: x in tr ==> x in all;
    assert all[..|all| - 1] == tr && last in all;
    StillWaiting(r, tr, d);
    assert !Elsewhere(last.frame, Target(d));
    var i := IsPiece(last.frame, d);
    PushPiece(PushAll(r, tr), d, Got(tr, d), i, last.now);
    PushWf(PushAll(r, tr), last.frame, last.now);
  }

  // ----- Small datagrams, in any state -----

  /** The fragment brings the last part its target is waiting for. */
  ghost predicate Completes(r: Reasm, key: Key, f: Fragment)
    requires ReasmWf(r)
  {
    OpenedSize(r, key, f);
    forall j :: 0 <= j < f.total && j != f.idx ==> Opened(r, key, f).parts[j].Some?
  }

  /** What it then delivers: the header and all parts, its own bytes in their place. */
  function Completed(r: Reasm, key: Key, header: seq<byte>, f: Fragment): seq<byte>
    requires ReasmWf(r) && f.idx < f.total
  {
    OpenedSize(r, key, f);
    var st := Stored(Opened(r, key, f), header, f);
    st.header + Joined(st.parts)
  }

  lemma {:induction false} PushesFragment(r: Reasm, key: Key, header: seq<byte>, f: Fragment, now: nat)
    requires ReasmWf(r) && f.idx < f.total
    ensures PushFragment(r, key, header, f, now).out
            == if Completes(r, key, f) then Some(Completed(r, key, header, f)) else None
    ensures key in PushFragment(r, key, header, f, now).r.pending <==> !Completes(r, key, f)
  {
    hide Joined, Filled;
    OpenedSize(r, key, f);
    StoredWf(r, key, header, f);
    var base := Opened(r, key, f);
    var st := Stored(base, header, f);
    FilledFull(st.parts);
    OpenedIncomplete(r, key, f);
    assert forall j :: 0 <= j < f.total && j != f.idx ==> st.parts[j] == base.parts[j];
    assert st.parts[f.idx].Some?;
  }

  lemma {:induction false} OpenedIncomplete(r: Reasm, key: Key, f: Fragment)
    requires ReasmWf(r) && 0 < f.total
    ensures !(forall j :: 0 <= j < |Opened(r, key, f).parts| ==> Opened(r, key, f).parts[j].Some?)
  {
    OpenedSize(r, key, f);
    var st := Opened(r, key, f);
    FilledFull(st.parts);
    if st.parts == Blank(f.total) {
      assert st.parts[0].None?;
    }
  }

  /** THEOREM (small datagrams, exact). In every state of the reassembler, whatever is pending for the target: an
      empty datagram is swallowed; one that does not start with the mark is returned at once and leaves the state
      alone; one that does is dropped if it is no fragment, and otherwise stored, or completes what is pending. */
  lemma {:induction false} SmallPushExactly(r: Reasm, host: seq<byte>, port: u16, payload: seq<byte>, now: nat)
    requires ReasmWf(r) && |host| <= 255
    ensures var h, key := AddrHeader(host, port), (host, port); var p := AfterPush(r, h + payload, now);
            if payload == [] then p == Pushed(r, None)
            else if payload[0] != 0xFF then p == Pushed(r, Some(h + payload))
            else
              match ParseFragment(payload)
              case None => p == Pushed(r, None)
              case Some(f) => p.out == if Completes(r, key, f) then Some(Completed(r, key, h, f)) else None
  {
    hide Joined, Filled, Stored, Opened, PushFragment, Completes, Completed;
    var h := AddrHeader(host, port);
    ParseOfAddr(host, port, payload);
    if payload != [] && payload[0] == UDP_FRAG_MARK && ParseFragment(payload).Some? {
      assert (h + payload)[..3 + |host|] == h;
      PushesFragment(r, (host, port), h, ParseFragment(payload).value, now);
    }
  }

  /** So a small datagram comes back at once, as it was, if and only if it is not empty and does not start with the
      fragment mark, unless it completes what is pending to just itself. */
  lemma {:induction false} SmallRoundTripIff(r: Reasm, host: seq<byte>, port: u16, payload: seq<byte>, now: nat)
    requires ReasmWf(r) && |host| <= 255
    ensures var h, key := AddrHeader(host, port), (host, port);
            AfterPush(r, h + payload, now).out == Some(h + payload) <==>
            payload != []
            && (payload[0] == 0xFF ==>
                  ParseFragment(payload).Some? && Completes(r, key, ParseFragment(payload).value)
                  && Completed(r, key, h, ParseFragment(payload).value) == h + payload)
  {
    hide AfterPush, Completes, Completed, ParseFragment;
    SmallPushExactly(r, host, port, payload, now);
  }

  /** With nothing pending for the target that cannot be. */
  lemma {:induction false} SmallRoundTripIdle(r: Reasm, host: seq<byte>, port: u16, payload: seq<byte>, now: nat)
    requires ReasmWf(r) && |host| <= 255 && (host, port) !in r.pending
    ensures AfterPush(r, AddrHeader(host, port) + payload, now).out == Some(AddrHeader(host, port) + payload)
            <==> payload != [] && payload[0] != UDP_FRAG_MARK
  {
    hide Filled, AfterPush;
    var h := AddrHeader(host, port);
    SmallRoundTripIff(r, host, port, payload, now);
    if payload != [] && payload[0] == UDP_FRAG_MARK && ParseFragment(payload).Some? {
      var f := ParseFragment(payload).value;
      var st := Stored(Opened(r, (host, port), f), h, f);
      if f.total == 1 {
        assert st.parts == [Some(f.data)];
        assert st.parts[..0] == [];
        assert Joined(st.parts) == f.data;
        assert |h + f.data| < |h + payload|;
      } else {
        var j := if f.idx == 0 then 1 else 0;
        assert Opened(r, (host, port), f).parts[j].None?;
      }
    }
  }

  /** Two inputs that fail: an empty datagram is swallowed, and one that starts with the mark comes out as another. */
  lemma {:induction false} SmallLossWitness(host: seq<byte>, port: u16)
    requires |host| <= 255
    ensures var r, h := Reasm(map[], map[]), AddrHeader(host, port);
            && ReasmWf(r)
            && AfterPush(r, h + [], 0).out == None
            && AfterPush(r, h + [UDP_FRAG_MARK], 0).out == None
            && AfterPush(r, h + [UDP_FRAG_MARK, 0, 1, 0, 1, 7], 0).out == Some(h + [7])
  {
    var r, h := Reasm(map[], map[]), AddrHeader(host, port);
    ParseOfAddr(host, port, []);
    ParseOfAddr(host, port, [UDP_FRAG_MARK]);
    var payload: seq<byte> := [UDP_FRAG_MARK, 0, 1, 0, 1, 7];
    ParseOfAddr(host, port, payload);
    var f := Fragment(1, 0, 1, [7]);
    assert ParseFragment(payload) == Some(f);
    assert (h + payload)[..3 + |host|] == h;
    var st := Stored(Opened(r, (host, port), f), h, f);
    assert st.parts == [Some([7])] && st.parts[..0] == [];
    assert Joined(st.parts) == [7];
  }
}
