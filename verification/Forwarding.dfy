/** The TCP forward loops as half-close state machines (src/client/proxy.rs, src/server/forward.rs): what a session
    attempts to send, on every way out. */
module Forwarding {
  import opened Bytes

  /** One send attempt of a session. */
  datatype Op = SendOpen(payload: seq<byte>) | SendBatch(data: seq<byte>) | SendFin | SendClose

  /** What one turn of the select loop sees; the flags say whether the send or the local write it leads to works. */
  datatype Happening =
    | IdleTimeout
    | LocalEof(finSent: bool) | LocalData(data: seq<byte>, sent: bool) | LocalError
    | PeerData(bytes: seq<byte>, written: bool) | PeerFin | PeerClose | ChannelGone

  function Batches(bs: seq<seq<byte>>): seq<Op> {
    seq(|bs|, i requires 0 <= i < |bs| => SendBatch(bs[i]))
  }

  function Flat(bs: seq<seq<byte>>): seq<byte> {
    if bs == [] then [] else Flat(bs[..|bs| - 1]) + bs[|bs| - 1]
  }

  lemma {:induction false} FlatConcat(a: seq<seq<byte>>, b: seq<seq<byte>>)
    ensures Flat(a + b) == Flat(a) + Flat(b)
    decreases |b|
  {
    if b == [] {
      assert a + b == a;
    } else {
      var c, last := b[..|b| - 1], b[|b| - 1];
      FlatConcat(a, c);
      assert (a + b)[..|a + b| - 1] == a + c && (a + b)[|a + b| - 1] == last;
      assert Flat(a) + Flat(c) + last == Flat(a) + (Flat(c) + last);
    }
  }

  /** The half-close grammar: data batches, then at most one Fin. */
  function Upstream(bs: seq<seq<byte>>, fin: bool): seq<Op> {
    Batches(bs) + if fin then [SendFin] else []
  }

  predicate SawEof(evs: seq<Happening>) {
    exists j :: 0 <= j < |evs| && evs[j].LocalEof?
  }

  predicate SawPeerFin(evs: seq<Happening>) {
    exists j :: 0 <= j < |evs| && evs[j].PeerFin?
  }

  /** The local data before the first end of file. */
  function ReadUntilEof(evs: seq<Happening>): seq<byte> {
    if evs == [] then []
    else
      var pre, last := evs[..|evs| - 1], evs[|evs| - 1];
      ReadUntilEof(pre) + if last.LocalData? && !SawEof(pre) then last.data else []
  }

  /** The peer's data before its Fin. */
  function WrittenUntilFin(evs: seq<Happening>): seq<byte> {
    if evs == [] then []
    else
      var pre, last := evs[..|evs| - 1], evs[|evs| - 1];
      WrittenUntilFin(pre) + if last.PeerData? && !SawPeerFin(pre) then last.bytes else []
  }

  /** All bytes the local side delivers, and all the peer sends. */
  function LocalBytes(evs: seq<Happening>): seq<byte> {
    if evs == [] then []
    else (if evs[0].LocalData? then evs[0].data else []) + LocalBytes(evs[1..])
  }

  function PeerBytes(evs: seq<Happening>): seq<byte> {
    if evs == [] then []
    else (if evs[0].PeerData? then evs[0].bytes else []) + PeerBytes(evs[1..])
  }

  lemma {:induction false} LocalSnoc(evs: seq<Happening>, ev: Happening)
    ensures LocalBytes(evs + [ev]) == LocalBytes(evs) + if ev.LocalData? then ev.data else []
    ensures PeerBytes(evs + [ev]) == PeerBytes(evs) + if ev.PeerData? then ev.bytes else []
    decreases |evs|
  {
    if evs == [] {
      assert [] + [ev] == [ev] && [ev][1..] == [];
    } else {
      LocalSnoc(evs[1..], ev);
      assert (evs + [ev])[1..] == evs[1..] + [ev];
    }
  }

  /** What is read is every byte up to the first end of file, and nothing after it; what is written is every byte of
      the peer up to its first Fin. */
  lemma {:induction false} ReadsAllOf(evs: seq<Happening>, p: nat)
    requires p <= |evs|
    ensures (p == |evs| || evs[p].LocalEof?) && !SawEof(evs[..p]) ==> ReadUntilEof(evs) == LocalBytes(evs[..p])
    ensures (p == |evs| || evs[p].PeerFin?) && !SawPeerFin(evs[..p]) ==> WrittenUntilFin(evs) == PeerBytes(evs[..p])
    decreases |evs|
  {
    if evs == [] {
      assert evs[..p] == [];
    } else {
      var n := |evs| - 1;
      var pre := evs[..n];
      assert evs[..n + 1] == evs;
      Extend(evs, n);
      LocalSnoc(pre, evs[n]);
      assert pre + [evs[n]] == evs;
      if p <= n {
        ReadsAllOf(pre, p);
        assert pre[..p] == evs[..p];
        if p < n {
          assert pre[p] == evs[p];
        }
      } else {
        ReadsAllOf(pre, n);
        assert pre[..n] == pre && evs[..p] == evs;
      }
    }
  }

  /** What ends a session: the watchdog; a failure, or a closing of the channel, on a side that is still in use; or the
      second of the two half-closes. */
  predicate EndsAt(evs: seq<Happening>, i: nat)
    requires i < |evs|
  {
    var before := evs[..i];
    match evs[i]
    case IdleTimeout => true
    case LocalEof(finSent) => !SawEof(before) && (!finSent || SawPeerFin(before))
    case LocalData(_, sent) => !SawEof(before) && !sent
    case LocalError => !SawEof(before)
    case PeerData(_, written) => !SawPeerFin(before) && !written
    case PeerFin => !SawPeerFin(before) && SawEof(before)
    case PeerClose => !SawPeerFin(before)
    case ChannelGone => !SawPeerFin(before)
  }

  /** What that comes to. A session that is still going has seen no watchdog; no failed send, failed read or close
      while the side it concerns was in use; and not both half-closes. One that has ended saw one of these last. */
  lemma {:induction false} EndingsAre(evs: seq<Happening>, used: nat, ended: bool)
    requires RunsToItsEnd(evs, used, ended)
    ensures !ended ==>
              && (forall j :: 0 <= j < |evs| ==> !evs[j].IdleTimeout?)
              && (forall j :: 0 <= j < |evs| && !SawEof(evs[..j]) ==>
                    !evs[j].LocalError? && evs[j] != LocalEof(false) && (evs[j].LocalData? ==> evs[j].sent))
              && (forall j :: 0 <= j < |evs| && !SawPeerFin(evs[..j]) ==>
                    !evs[j].PeerClose? && !evs[j].ChannelGone? && (evs[j].PeerData? ==> evs[j].written))
              && !(SawEof(evs) && SawPeerFin(evs))
    ensures ended ==>
              var last, before := evs[used - 1], evs[..used - 1];
              || last.IdleTimeout?
              || (!SawEof(before) && (last.LocalError? || last == LocalEof(false) || (last.LocalData? && !last.sent)))
              || (!SawPeerFin(before) && (last.PeerClose? || last.ChannelGone? || (last.PeerData? && !last.written)))
              || (!(SawEof(before) && SawPeerFin(before)) && SawEof(evs[..used]) && SawPeerFin(evs[..used]))
  {
    if ended {
      assert EndsAt(evs, used - 1);
      Extend(evs, used - 1);
    } else {
      forall j | 0 <= j < |evs|
        ensures !evs[j].IdleTimeout?
        ensures !SawEof(evs[..j]) ==>
                  !evs[j].LocalError? && evs[j] != LocalEof(false) && (evs[j].LocalData? ==> evs[j].sent)
        ensures !SawPeerFin(evs[..j]) ==>
                  !evs[j].PeerClose? && !evs[j].ChannelGone? && (evs[j].PeerData? ==> evs[j].written)
      {
        assert !EndsAt(evs, j);
      }
      if SawEof(evs) && SawPeerFin(evs) {
        SecondHalfClose(evs);
      }
    }
  }

  lemma {:induction false} SecondHalfClose(evs: seq<Happening>)
    requires SawEof(evs) && SawPeerFin(evs)
    ensures exists j :: 0 <= j < |evs| && EndsAt(evs, j)
    decreases |evs|
  {
    var n := |evs| - 1;
    var pre := evs[..n];
    assert evs[..n + 1] == evs;
    Extend(evs, n);
    if SawEof(pre) && SawPeerFin(pre) {
      SecondHalfClose(pre);
      var j :| 0 <= j < n && EndsAt(pre, j);
      assert pre[..j] == evs[..j];
      assert EndsAt(evs, j);
    } else {
      assert EndsAt(evs, n);
    }
  }

  /** The first `used` happenings are the ones up to the end of the session, or all there are if it is still going. */
  ghost predicate RunsToItsEnd(evs: seq<Happening>, used: nat, ended: bool) {
    && used <= |evs| && (!ended ==> used == |evs|) && (ended ==> 0 < used)
    && forall j :: 0 <= j < used ==> (EndsAt(evs, j) <==> ended && j == used - 1)
  }

  /** What a session attempts to send in answer to what happened: every byte read before the end of file, in order, and
      one Fin if and only if the end of file was seen. */
  ghost predicate Uploads(ops: seq<Op>, first: seq<byte>, evs: seq<Happening>) {
    exists bs :: ops == Upstream(bs, SawEof(evs)) && Flat(bs) == first + ReadUntilEof(evs)
  }

  lemma {:induction false} Extend(evs: seq<Happening>, i: nat)
    requires i < |evs|
    ensures evs[..i + 1][..i] == evs[..i]
    ensures SawEof(evs[..i + 1]) <==> SawEof(evs[..i]) || evs[i].LocalEof?
    ensures SawPeerFin(evs[..i + 1]) <==> SawPeerFin(evs[..i]) || evs[i].PeerFin?
    ensures ReadUntilEof(evs[..i + 1])
            == ReadUntilEof(evs[..i]) + if evs[i].LocalData? && !SawEof(evs[..i]) then evs[i].data else []
    ensures WrittenUntilFin(evs[..i + 1])
            == WrittenUntilFin(evs[..i]) + if evs[i].PeerData? && !SawPeerFin(evs[..i]) then evs[i].bytes else []
  {
    var a, b := evs[..i], evs[..i + 1];
    assert b[..i] == a && b[i] == evs[i];
    assert forall j :: 0 <= j < i ==> b[j] == a[j];
  }

  /** Attempting one more batch, before the Fin. */
  lemma {:induction false} UpstreamBatch(bs: seq<seq<byte>>, b: seq<byte>)
    ensures Upstream(bs, false) + [SendBatch(b)] == Upstream(bs + [b], false)
    ensures Flat(bs + [b]) == Flat(bs) + b
  {
    assert (bs + [b])[..|bs|] == bs;
  }

  lemma {:induction false} UpstreamFin(bs: seq<seq<byte>>)
    ensures Upstream(bs, false) + [SendFin] == Upstream(bs, true)
  {
  }

  lemma {:induction false} UpstreamFirst(b: seq<byte>, bs: seq<seq<byte>>, fin: bool)
    ensures [SendBatch(b)] + Upstream(bs, fin) == Upstream([b] + bs, fin)
    ensures Flat([b] + bs) == b + Flat(bs)
  {
    FlatConcat([b], bs);
    assert [b][..0] == [];
  }

  /** The select loop both forwarders share. It logs every attempt in `ops` at the moment it makes it; `down` are the
      bytes written to the local side. `ended` is false while the loop is still waiting for more to happen; happenings
      of a side that has already finished are never selected. */
  method ForwardLoop(ops0: seq<Op>, evs: seq<Happening>)
    returns (ops: seq<Op>, down: seq<byte>, used: nat, ended: bool, ghost bs: seq<seq<byte>>)
    ensures RunsToItsEnd(evs, used, ended)
    ensures ops == ops0 + Upstream(bs, SawEof(evs[..used])) && Flat(bs) == ReadUntilEof(evs[..used])
    ensures down == WrittenUntilFin(evs[..used])
  {
    hide Flat, ReadUntilEof, WrittenUntilFin, SawEof, SawPeerFin, Upstream;
    ops, down, used, ended, bs := ops0, [], 0, false, [];
    var eof, peerFin := false, false;
    NothingYet(evs, ops0);
    while used < |evs| && !ended
      invariant 0 <= used <= |evs| && (ended ==> 0 < used)
      invariant !ended ==> (eof <==> SawEof(evs[..used])) && (peerFin <==> SawPeerFin(evs[..used]))
      invariant ops == ops0 + Upstream(bs, SawEof(evs[..used])) && Flat(bs) == ReadUntilEof(evs[..used])
      invariant down == WrittenUntilFin(evs[..used])
      invariant forall j :: 0 <= j < used ==> (EndsAt(evs, j) <==> ended && j == used - 1)
      decreases |evs| - used, !ended
    {
      Extend(evs, used);
      match evs[used] {
        case IdleTimeout =>
          ended := true;
        case LocalEof(finSent) =>
          if !eof {
            UpstreamFin(bs);
            ops := ops + [SendFin];
            if finSent {
              eof := true;
              ended := peerFin;
            } else {
              ended := true;
            }
          }
        case LocalData(data, sent) =>
          if !eof {
            UpstreamBatch(bs, data);
            ops, bs := ops + [SendBatch(data)], bs + [data];
            ended := !sent;
          }
        case LocalError =>
          if !eof {
            ended := true;
          }
        case PeerData(bytes, written) =>
          if !peerFin {
            down := down + bytes;
            ended := !written;
          }
        case PeerFin =>
          if !peerFin {
            peerFin := true;
            ended := eof;
          }
        case PeerClose =>
          if !peerFin {
            ended := true;
          }
        case ChannelGone =>
          if !peerFin {
            ended := true;
          }
      }
      used := used + 1;
    }
  }

  lemma {:induction false} NothingYet(evs: seq<Happening>, ops: seq<Op>)
    ensures !SawEof(evs[..0]) && !SawPeerFin(evs[..0]) && ReadUntilEof(evs[..0]) == [] == WrittenUntilFin(evs[..0])
    ensures Flat([]) == [] && ops + Upstream([], false) == ops
  {
    assert evs[..0] == [];
  }

  /** A session that attempts a first batch, if there is one, and then what the loop attempts. */
  lemma {:induction false} UploadsFirst(first: seq<byte>, bs: seq<seq<byte>>, evs: seq<Happening>)
    requires Flat(bs) == ReadUntilEof(evs)
    ensures Uploads((if first == [] then [] else [SendBatch(first)]) + Upstream(bs, SawEof(evs)), first, evs)
  {
    hide Flat, ReadUntilEof, SawEof, Upstream;
    if first == [] {
      assert [] + Upstream(bs, SawEof(evs)) == Upstream(bs, SawEof(evs)) && first + ReadUntilEof(evs) == Flat(bs);
    } else {
      UpstreamFirst(first, bs, SawEof(evs));
      assert Flat([first] + bs) == first + ReadUntilEof(evs);
    }
  }

  /** The half-close order, attempt by attempt: nothing follows a Close, nothing precedes an Open, and only the Close
      follows a Fin. */
  predicate HalfCloseOrder(ops: seq<Op>) {
    forall i, j :: 0 <= i < j < |ops| ==>
      !ops[i].SendClose? && !ops[j].SendOpen? && (ops[i].SendFin? ==> ops[j].SendClose?)
  }

  lemma {:induction false} UploadsInOrder(ops: seq<Op>, before: seq<Op>, up: seq<Op>, first: seq<byte>,
                                          evs: seq<Happening>, ended: bool)
    requires Uploads(up, first, evs) && |before| <= 1 && forall i :: 0 <= i < |before| ==> before[i].SendOpen?
    requires ops == before + up + if ended then [SendClose] else []
    ensures HalfCloseOrder(ops) && (SendClose in ops <==> ended) && (SendFin in ops <==> SawEof(evs))
  {
    hide Flat, ReadUntilEof, SawEof;
    var bs :| up == Upstream(bs, SawEof(evs)) && Flat(bs) == first + ReadUntilEof(evs);
    assert forall i :: 0 <= i < |up| ==>
      if i < |bs| then up[i].SendBatch? else i == |bs| && up[i].SendFin? && SawEof(evs);
    assert SawEof(evs) ==> ops[|before| + |bs|] == SendFin;
    assert ended ==> ops[|ops| - 1] == SendClose;
  }

  /** The client's session: Open, Data*, at most one Fin with no Data after it, and on every way out exactly one
      Close, last. The batches carry the pre-read bytes and then what the local side delivered, in order. */
  method ClientSession(open: seq<byte>, openSent: bool, replyOk: bool, prepend: seq<byte>, prependSent: bool,
                       evs: seq<Happening>) returns (ops: seq<Op>, used: nat, ended: bool)
    ensures if openSent && replyOk && (prepend == [] || prependSent)
            then RunsToItsEnd(evs, used, ended) else used == 0 && ended
    ensures used <= |evs|
    ensures exists up :: Uploads(up, if openSent && replyOk then prepend else [], evs[..used])
                         && ops == [SendOpen(open)] + up + if ended then [SendClose] else []
    ensures HalfCloseOrder(ops) && (SendClose in ops <==> ended) && (SendFin in ops <==> SawEof(evs[..used]))
  {
    hide Flat, ReadUntilEof, SawEof, WrittenUntilFin, EndsAt, Upstream, Uploads;
    ops, used, ended := [SendOpen(open)], 0, true;
    ghost var bs: seq<seq<byte>> := [];
    ghost var first: seq<byte> := [];
    NothingYet(evs, ops);
    if openSent && replyOk {
      first := prepend;
      if prepend != [] {
        ops := ops + [SendBatch(prepend)];
      }
      NothingYet(evs, ops);
      if prepend == [] || prependSent {
        var down;
        ops, down, used, ended, bs := ForwardLoop(ops, evs);
      }
    }
    ghost var up := (if first == [] then [] else [SendBatch(first)]) + Upstream(bs, SawEof(evs[..used]));
    assert ops == [SendOpen(open)] + up;
    UploadsFirst(first, bs, evs[..used]);
    if ended {
      ops := ops + [SendClose];
    }
    UploadsInOrder(ops, [SendOpen(open)], up, first, evs[..used], ended);
  }

  /** The server's session: Data*, at most one Fin, and on every way out exactly one Close, last. */
  method ServerSession(parsed: bool, connected: bool, evs: seq<Happening>)
    returns (ops: seq<Op>, used: nat, ended: bool)
    ensures if parsed && connected then RunsToItsEnd(evs, used, ended) else used == 0 && ended
    ensures used <= |evs|
    ensures exists up :: Uploads(up, [], evs[..used]) && ops == up + if ended then [SendClose] else []
    ensures HalfCloseOrder(ops) && (SendClose in ops <==> ended) && (SendFin in ops <==> SawEof(evs[..used]))
  {
    hide Flat, ReadUntilEof, SawEof, WrittenUntilFin, EndsAt, Upstream, Uploads;
    ops, used, ended := [], 0, true;
    ghost var bs: seq<seq<byte>> := [];
    NothingYet(evs, ops);
    if parsed && connected {
      var down;
      ops, down, used, ended, bs := ForwardLoop(ops, evs);
    }
    ghost var up := Upstream(bs, SawEof(evs[..used]));
    assert ops == up && [] + up == up;
    UploadsFirst([], bs, evs[..used]);
    if ended {
      ops := ops + [SendClose];
    }
    UploadsInOrder(ops, [], up, [], evs[..used], ended);
  }
}
