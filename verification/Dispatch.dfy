/** The session registry and the frame dispatcher (src/tunnel/dispatch.rs, src/server/listener.rs). */
module Dispatch {
  import opened Bytes
  import opened MuxFrame

  const MAX_SESSIONS := 256

  datatype SessionEvent = EvData(data: seq<byte>) | EvFin | EvClose

  /** Everything pushed to each registered session's channel, oldest first. */
  type Channels = map<u16, seq<SessionEvent>>

  datatype Action =
    | Routed | UnknownSession(sid: u16) | FinSeen(sid: u16) | Closed(sid: u16) | Reset(sid: u16)
    | OpenRequest(sid: u16, payload: seq<byte>) | Other

  function Push(ch: Channels, sid: u16, ev: SessionEvent): Channels {
    if sid in ch then ch[sid := ch[sid] + [ev]] else ch
  }

  /** One more event in a session's channel. */
  function Appended(ch: Channels, sid: u16, ev: SessionEvent): Channels
    requires sid in ch
  {
    ch[sid := ch[sid] + [ev]]
  }

  /** The event a frame turns into, if any. */
  function EventOf(f: Frame): Option<SessionEvent> {
    match f.ftype
    case Data => Some(EvData(f.payload))
    case Datagram => Some(EvData(f.payload))
    case Fin => Some(EvFin)
    case Close => Some(EvClose)
    case Rst => Some(EvClose)
    case _ => None
  }

  /** The server's dispatch of one frame: an Open registers a channel unless the id is 0 or taken. */
  function Dispatched(ch: Channels, f: Frame): Channels {
    if f.ftype.Open? then
      if f.sid != 0 && f.sid !in ch then ch[f.sid := []] else ch
    else
      match EventOf(f)
      case Some(ev) => Push(ch, f.sid, ev)
      case None => ch
  }

  function DispatchedAll(ch: Channels, fs: seq<Frame>): Channels
    decreases |fs|
  {
    if fs == [] then ch
    else Dispatched(DispatchedAll(ch, fs[..|fs| - 1]), fs[|fs| - 1])
  }

  lemma {:induction false} DispatchedConcat(ch: Channels, a: seq<Frame>, b: seq<Frame>)
    ensures DispatchedAll(ch, a + b) == DispatchedAll(DispatchedAll(ch, a), b)
    decreases |b|
  {
    if b == [] {
      assert a + b == a;
    } else {
      DispatchedConcat(ch, a, b[..|b| - 1]);
      assert (a + b)[..|a + b| - 1] == a + b[..|b| - 1];
    }
  }

  /** A request to connect: the session and the payload of its Open. */
  type Request = (u16, seq<byte>)

  /** The requests the server accepts, in order: those of the Opens that register a session. */
  function Accepted(ch: Channels, fs: seq<Frame>): seq<Request>
    decreases |fs|
  {
    if fs == [] then []
    else
      var pre, f := fs[..|fs| - 1], fs[|fs| - 1];
      Accepted(ch, pre) + Asked(DispatchedAll(ch, pre), f)
  }

  function Asked(ch: Channels, f: Frame): seq<Request> {
    if f.ftype.Open? && f.sid != 0 && f.sid !in ch then [(f.sid, f.payload)] else []
  }

  lemma {:induction false} AcceptedSnoc(ch: Channels, fs: seq<Frame>, f: Frame)
    ensures Accepted(ch, fs + [f]) == Accepted(ch, fs) + Asked(DispatchedAll(ch, fs), f)
  {
    assert (fs + [f])[..|fs|] == fs;
  }

  lemma {:induction false} AcceptedConcat(ch: Channels, a: seq<Frame>, b: seq<Frame>)
    ensures Accepted(ch, a + b) == Accepted(ch, a) + Accepted(DispatchedAll(ch, a), b)
    decreases |b|
  {
    hide DispatchedAll, Asked;
    if b == [] {
      assert a + b == a;
    } else {
      var c, f := b[..|b| - 1], b[|b| - 1];
      AcceptedConcat(ch, a, c);
      DispatchedConcat(ch, a, c);
      assert a + b == a + c + [f] && b == c + [f];
      AcceptedSnoc(ch, a + c, f);
    }
  }

  lemma {:induction false} DispatchedSnoc(ch: Channels, fs: seq<Frame>, f: Frame)
    ensures DispatchedAll(ch, fs + [f]) == Dispatched(DispatchedAll(ch, fs), f)
  {
    assert (fs + [f])[..|fs|] == fs;
  }

  // ----- The id allocator -----

  /** The `s`-th id the allocator tries, counting from `start`. */
  function Candidate(start: u32, s: nat): u16 {
    (start + s) % MAX_SESSIONS
  }

  predicate Taken(ch: Channels, id: u16) {
    id == 0 || id in ch
  }

  ghost predicate FirstFree(ch: Channels, start: u32, t: nat) {
    !Taken(ch, Candidate(start, t)) && forall s: nat :: s < t ==> Taken(ch, Candidate(start, s))
  }

  function Ids(n: nat): (r: set<u16>)
    requires n < MAX_SESSIONS
    ensures |r| == n && forall i: u16 :: i in r <==> 1 <= i <= n
  {
    if n == 0 then {} else Ids(n - 1) + {n}
  }

  /** 256 consecutive candidates cover every id, so if all are taken then 255 sessions are live. */
  lemma {:induction false} AllTakenMeansFull(ch: Channels, start: u32)
    requires forall s: nat :: s < MAX_SESSIONS ==> Taken(ch, Candidate(start, s))
    ensures |ch| >= MAX_SESSIONS - 1
  {
    forall i: u16 | i in Ids(MAX_SESSIONS - 1) ensures i in ch {
      var s := (i - start) % MAX_SESSIONS;
      assert (start + s) % MAX_SESSIONS == i;
      assert Taken(ch, Candidate(start, s));
    }
    SubsetSize(Ids(MAX_SESSIONS - 1), ch.Keys);
    assert |ch.Keys| == |ch|;
  }

  /** The counter's wrap-around does not disturb the id cycle, as 256 divides 2^32. */
  lemma {:induction false} WrapKeepsResidue(x: nat)
    ensures x % 0x1_0000_0000 % MAX_SESSIONS == x % MAX_SESSIONS
    ensures (x % 0x1_0000_0000 + 1) % 0x1_0000_0000 == (x + 1) % 0x1_0000_0000
  {
    var q, r := x / 0x1_0000_0000, x % 0x1_0000_0000;
    assert x == r + 0x100 * (0x100_0000 * q);
    SameResidue(r, 0x100_0000 * q);
    SameWrap(r, q);
  }

  lemma {:induction false} SameResidue(r: nat, q: nat)
    ensures (r + 0x100 * q) % 0x100 == r % 0x100
  {
  }

  lemma {:induction false} SameWrap(r: nat, q: nat)
    requires r < 0x1_0000_0000
    ensures (r + 0x1_0000_0000 * q + 1) % 0x1_0000_0000 == (r + 1) % 0x1_0000_0000
  {
    if r + 1 == 0x1_0000_0000 {
      assert r + 0x1_0000_0000 * q + 1 == 0x1_0000_0000 * (q + 1);
    }
  }

  class SessionRegistry {
    var sessions: Channels
    var nextId: u32
    /** This registry's contribution to the process-wide `active_sessions` gauge. */
    var active: int

    /** The gauge contribution is the number of live sessions, hence never negative; id 0 is never registered. */
    ghost predicate Valid()
      reads this
    {
      active == |sessions| && 0 !in sessions
    }

    constructor ()
      ensures Valid() && sessions == map[] && nextId == 1
    {
      sessions, nextId, active := map[], 1, 0;
    }

    /** Succeeds if and only if fewer than 255 sessions are live; returns the first free id in 1..255 in the
        cyclic order that starts at the counter, also across the counter's wrap-around. */
    method Allocate() returns (r: Option<u16>)
      requires Valid()
      modifies this
      ensures Valid()
      ensures r.Some? <==> |old(sessions)| < 255
      ensures r.Some? ==> 1 <= r.value <= 255 && r.value !in old(sessions) && sessions == old(sessions)[r.value := []]
      ensures r.Some? ==>
        exists t: nat :: FirstFree(old(sessions), old(nextId), t) && r.value == Candidate(old(nextId), t)
                         && nextId == (old(nextId) + t + 1) % 0x1_0000_0000
      ensures r.None? ==> sessions == old(sessions) && nextId == old(nextId)
    {
      hide Ids, Push;
      if |sessions| >= MAX_SESSIONS - 1 {
        return None;
      }
      r := None;
      var i, found, id: u16 := 0, false, 0;
      ghost var t: nat := 0;
      while i < MAX_SESSIONS && !found
        invariant 0 <= i <= MAX_SESSIONS && r.None?
        invariant sessions == old(sessions) && active == old(active)
        invariant nextId == (old(nextId) + i) % 0x1_0000_0000
        invariant !found ==> forall s: nat :: s < i ==> Taken(sessions, Candidate(old(nextId), s))
        invariant found ==> i == t + 1 && FirstFree(sessions, old(nextId), t) && id == Candidate(old(nextId), t)
        decreases MAX_SESSIONS - i, !found
      {
        var raw := nextId;
        WrapKeepsResidue(old(nextId) + i);
        nextId := (nextId + 1) % 0x1_0000_0000;
        id := raw % MAX_SESSIONS;
        assert id == Candidate(old(nextId), i);
        if id != 0 && id !in sessions {
          found, t := true, i;
        }
        i := i + 1;
      }
      if i == MAX_SESSIONS && !found {
        AllTakenMeansFull(sessions, old(nextId));
      }
      if found {
        sessions, active := sessions[id := []], active + 1;
        r := Some(id);
      }
    }

    method RegisterSpecific(sid: u16) returns (ok: bool)
      requires Valid()
      modifies this`sessions, this`active
      ensures Valid()
      ensures ok <==> sid != 0 && sid !in old(sessions)
      ensures sessions == if ok then old(sessions)[sid := []] else old(sessions)
    {
      if sid == 0 {
        return false;
      }
      if sid in sessions {
        return false;
      }
      sessions, active := sessions[sid := []], active + 1;
      ok := true;
    }

    /** `listening` is whether the receiving end of the session's channel still exists. */
    method Route(sid: u16, ev: SessionEvent, listening: bool) returns (ok: bool)
      requires Valid()
      modifies this`sessions
      ensures Valid() && (ok <==> sid in old(sessions) && listening)
      ensures sessions == if ok then Push(old(sessions), sid, ev) else old(sessions)
    {
      ok := sid in sessions && listening;
      if ok {
        sessions := sessions[sid := sessions[sid] + [ev]];
      }
    }

    method CloseAll() returns (n: nat)
      requires Valid()
      modifies this`sessions, this`active
      ensures Valid() && sessions == map[] && n == |old(sessions)|
    {
      n := |sessions|;
      sessions, active := map[], active - n;
    }

    method Remove(sid: u16)
      requires Valid()
      modifies this`sessions, this`active
      ensures Valid() && sessions == old(sessions) - {sid}
    {
      var removed := sid in sessions;
      ghost var before := sessions;
      sessions := sessions - {sid};
      if removed {
        assert before.Keys == sessions.Keys + {sid};
        assert |before| == |before.Keys| && |sessions| == |sessions.Keys|;
        active := active - 1;
      } else {
        assert sessions == before;
      }
    }

    /** `dispatch_frame` followed by the server's reaction: `reply` is the type of the frame it sends back to the
        session, Rst for data that finds no one and Close for an Open it refuses. */
    method DispatchOne(f: Frame, listening: bool) returns (action: Action, reply: Option<FrameType>)
      requires Valid()
      modifies this
      ensures Valid() && nextId == old(nextId)
      ensures sessions == if listening || f.ftype.Open? then Dispatched(old(sessions), f) else old(sessions)
      ensures action.UnknownSession? <==>
              (f.ftype.Data? || f.ftype.Datagram?) && !(f.sid in old(sessions) && listening)
      ensures action.Routed? <==> (f.ftype.Data? || f.ftype.Datagram?) && f.sid in old(sessions) && listening
      ensures action.UnknownSession? ==> action.sid == f.sid
      ensures f.ftype.Open? ==> action == OpenRequest(f.sid, f.payload)
      ensures f.ftype.Fin? ==> action == FinSeen(f.sid)
      ensures f.ftype.Close? ==> action == Closed(f.sid)
      ensures f.ftype.Rst? ==> action == Reset(f.sid)
      ensures action == Other <==> !(f.ftype.Data? || f.ftype.Datagram? || f.ftype.Open?
                                     || f.ftype.Fin? || f.ftype.Close? || f.ftype.Rst?)
      ensures sessions ==
              if f.ftype.Open? && reply.None? then old(sessions)[f.sid := []]
              else if f.sid !in old(sessions) || !listening then old(sessions)
              else if f.ftype.Data? || f.ftype.Datagram? then Appended(old(sessions), f.sid, EvData(f.payload))
              else if f.ftype.Fin? then Appended(old(sessions), f.sid, EvFin)
              else if f.ftype.Close? || f.ftype.Rst? then Appended(old(sessions), f.sid, EvClose)
              else old(sessions)
      ensures reply == Some(Rst) <==> action.UnknownSession?
      ensures reply == Some(Close) <==> f.ftype.Open? && (f.sid == 0 || f.sid in old(sessions))
      ensures reply.Some? ==> reply.value.Rst? || reply.value.Close?
    {
      reply := None;
      match f.ftype {
        case Data =>
          var ok := Route(f.sid, EvData(f.payload), listening);
          action := if ok then Routed else UnknownSession(f.sid);
        case Datagram =>
          var ok := Route(f.sid, EvData(f.payload), listening);
          action := if ok then Routed else UnknownSession(f.sid);
        case Fin =>
          var _ := Route(f.sid, EvFin, listening);
          action := FinSeen(f.sid);
        case Close =>
          var _ := Route(f.sid, EvClose, listening);
          action := Closed(f.sid);
        case Rst =>
          var _ := Route(f.sid, EvClose, listening);
          action := Reset(f.sid);
        case Open =>
          action := OpenRequest(f.sid, f.payload);
          var registered := RegisterSpecific(f.sid);
          if !registered {
            reply := Some(Close);
          }
        case _ =>
          action := Other;
      }
      if action.UnknownSession? {
        reply := Some(Rst);
      }
    }
  }
}
