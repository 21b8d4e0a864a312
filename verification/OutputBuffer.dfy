/** The circular output buffer of the crypto service provider (srt-1.5.6/haicrypt/cryspr.c): which regions callers may
    hold at the same time. */
module OutputBuffer {

  const OUTMSG_MAX := 6

  /** A region [start, end) of the buffer. */
  datatype Region = Region(start: nat, end: nat)

  predicate Disjoint(a: Region, b: Region) {
    a.end <= b.start || b.end <= a.start
  }

  function PaddedLen(len: nat): nat {
    (len + 15) / 16 * 16
  }

  /** The next multiple of 16. */
  lemma {:induction false} PaddedIsNext(len: nat)
    ensures PaddedLen(len) % 16 == 0 && len <= PaddedLen(len) < len + 16
  {
  }

  /** Where a request of `req` bytes goes when the offset is `ofs`: behind it, or at the start if there is no room. */
  function Placed(siz: nat, ofs: nat, req: nat): Region {
    if req > siz - ofs then Region(0, req) else Region(ofs, ofs + req)
  }

  /** Behind the offset whenever there is room, and otherwise at the start. */
  lemma {:induction false} PlacedWhereItFits(siz: nat, ofs: nat, req: nat)
    ensures ofs + req <= siz ==> Placed(siz, ofs, req) == Region(ofs, ofs + req)
    ensures ofs + req > siz ==> Placed(siz, ofs, req) == Region(0, req)
  {
  }

  /** The regions of a run of requests. */
  function Regions(siz: nat, ofs: nat, reqs: seq<nat>): (rs: seq<Region>)
    ensures |rs| == |reqs|
    decreases |reqs|
  {
    if reqs == [] then []
    else
      var r := Placed(siz, ofs, reqs[0]);
      [r] + Regions(siz, r.end, reqs[1..])
  }

  function Sum(reqs: seq<nat>): nat {
    if reqs == [] then 0 else reqs[0] + Sum(reqs[1..])
  }

  ghost predicate PairwiseDisjoint(rs: seq<Region>) {
    forall i, j :: 0 <= i < j < |rs| ==> Disjoint(rs[i], rs[j])
  }

  /** Every region is inside the buffer, and either behind `ofs` or before `low`. */
  ghost predicate Clear(rs: seq<Region>, siz: nat, ofs: nat, low: nat) {
    forall i :: 0 <= i < |rs| ==> rs[i].end <= siz && (ofs <= rs[i].start || rs[i].end <= low)
  }

  /** Requests that fit behind the offset are placed one after the other. */
  lemma {:induction false} Consecutive(siz: nat, ofs: nat, reqs: seq<nat>)
    requires ofs + Sum(reqs) <= siz
    ensures forall i :: 0 <= i < |reqs| ==>
              ofs <= Regions(siz, ofs, reqs)[i].start <= Regions(siz, ofs, reqs)[i].end <= ofs + Sum(reqs)
    ensures forall i, j :: 0 <= i < j < |reqs| ==>
              Regions(siz, ofs, reqs)[i].end <= Regions(siz, ofs, reqs)[j].start
    decreases |reqs|
  {
    if reqs != [] {
      Consecutive(siz, ofs + reqs[0], reqs[1..]);
      var rs, tail := Regions(siz, ofs, reqs), Regions(siz, ofs + reqs[0], reqs[1..]);
      assert rs == [Region(ofs, ofs + reqs[0])] + tail;
      forall i | 0 < i < |rs| ensures ofs + reqs[0] <= rs[i].start <= rs[i].end <= ofs + Sum(reqs) {
        assert rs[i] == tail[i - 1];
      }
      forall i, j | 0 <= i < j < |rs| ensures rs[i].end <= rs[j].start {
        assert rs[j] == tail[j - 1];
        if i > 0 {
          assert rs[i] == tail[i - 1];
        }
      }
    }
  }

  /** A run that wraps: what comes after the wrap ends before what came first. `low` bounds the regions already
      handed out from below. */
  lemma {:induction false} AroundTheEnd(siz: nat, low: nat, ofs: nat, reqs: seq<nat>, largest: nat)
    requires low <= ofs <= siz && (ofs - low) + Sum(reqs) + largest <= siz
    requires forall i :: 0 <= i < |reqs| ==> reqs[i] <= largest
    ensures Clear(Regions(siz, ofs, reqs), siz, ofs, low)
    ensures PairwiseDisjoint(Regions(siz, ofs, reqs))
    decreases |reqs|
  {
    if reqs != [] {
      var req, rest := reqs[0], reqs[1..];
      var rs := Regions(siz, ofs, reqs);
      if req > siz - ofs {
        Consecutive(siz, 0, reqs);
        assert Regions(siz, 0, reqs) == rs;
      } else {
        AroundTheEnd(siz, low, ofs + req, rest, largest);
        var tail := Regions(siz, ofs + req, rest);
        assert rs == [Region(ofs, ofs + req)] + tail;
        forall i | 0 < i < |rs| ensures rs[i].end <= siz && (ofs + req <= rs[i].start || rs[i].end <= low) {
          assert rs[i] == tail[i - 1];
        }
        forall i, j | 0 <= i < j < |rs| ensures Disjoint(rs[i], rs[j]) {
          assert rs[j] == tail[j - 1];
          if i > 0 {
            assert rs[i] == tail[i - 1];
          }
        }
      }
    }
  }

  /** THEOREM. Consecutive requests whose total is at most the size minus the largest of them get regions inside the
      buffer that are pairwise disjoint, wherever the offset stands. */
  lemma {:induction false} LiveRegionsDisjoint(siz: nat, ofs: nat, reqs: seq<nat>, largest: nat)
    requires ofs <= siz && Sum(reqs) + largest <= siz
    requires forall i :: 0 <= i < |reqs| ==> reqs[i] <= largest
    ensures forall i :: 0 <= i < |reqs| ==> Regions(siz, ofs, reqs)[i].end <= siz
    ensures PairwiseDisjoint(Regions(siz, ofs, reqs))
  {
    AroundTheEnd(siz, ofs, ofs, reqs, largest);
  }

  lemma {:induction false} SumBound(reqs: seq<nat>, largest: nat)
    requires forall i :: 0 <= i < |reqs| ==> reqs[i] <= largest
    ensures Sum(reqs) <= |reqs| * largest
    decreases |reqs|
  {
    if reqs != [] {
      SumBound(reqs[1..], largest);
      assert |reqs| * largest == |reqs[1..]| * largest + largest;
    }
  }

  /** With the buffer sized for six messages, any five consecutive outputs can be used together. */
  lemma {:induction false} FiveOutputsLive(maxLen: nat, ofs: nat, reqs: seq<nat>)
    requires ofs <= OUTMSG_MAX * PaddedLen(maxLen) && |reqs| <= OUTMSG_MAX - 1
    requires forall i :: 0 <= i < |reqs| ==> reqs[i] <= PaddedLen(maxLen)
    ensures PairwiseDisjoint(Regions(OUTMSG_MAX * PaddedLen(maxLen), ofs, reqs))
  {
    hide PaddedLen;
    var largest := PaddedLen(maxLen);
    SumBound(reqs, largest);
    assert |reqs| * largest <= 5 * largest;
    assert OUTMSG_MAX * largest == 5 * largest + largest;
    LiveRegionsDisjoint(OUTMSG_MAX * largest, ofs, reqs, largest);
  }

  class CrysprCb {
    const outbufSiz: nat
    var outbufOfs: nat

    ghost predicate Valid()
      reads this
    {
      outbufOfs <= outbufSiz
    }

    /** `crysprHelper_Open`: room for six padded messages. */
    constructor (maxLen: nat)
      ensures Valid() && outbufSiz == 6 * PaddedLen(maxLen) && outbufOfs == 0
    {
      outbufSiz, outbufOfs := OUTMSG_MAX * PaddedLen(maxLen), 0;
    }

    /** `_crysprFallback_GetOutbuf`: the region is inside the buffer, and the offset stays valid, if and only if the
        request fits the buffer at all. */
    method GetOutbuf(pfxLen: nat, outLen: nat) returns (r: Region)
      requires Valid()
      modifies this
      ensures r == Placed(outbufSiz, old(outbufOfs), pfxLen + outLen) && outbufOfs == r.end
      ensures r.end - r.start == pfxLen + outLen
      ensures Valid() <==> pfxLen + outLen <= outbufSiz
    {
      if pfxLen + outLen > outbufSiz - outbufOfs {
        outbufOfs := 0;
      }
      var start := outbufOfs;
      outbufOfs := outbufOfs + (pfxLen + outLen);
      r := Region(start, outbufOfs);
    }
  }
}
