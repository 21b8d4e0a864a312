/** Splitting UDP datagrams into tunnel frames and putting them together again (src/server/forward.rs). Hosts are byte
    strings, valid as UTF-8, so that the source's lossy conversion is the identity. */
module UdpFragments {
  import opened Bytes
  import MuxFrame

  const FRAME_DATA_MAX := MuxFrame.FRAME_DATA_MAX
  const UDP_FRAG_MARK: byte := 0xFF
  const REASM_EXPIRY_SECS := 30

  type Key = (seq<byte>, u16)

  // ----- The address header -----

  function AddrHeader(host: seq<byte>, port: u16): seq<byte> {
    [|host| % 0x100] + host + Be16(port)
  }

  /** The header on the wire, byte by byte. */
  lemma {:induction false} AddrBytes(host: seq<byte>, port: u16)
    requires |host| <= 255
    ensures AddrHeader(host, port) == [|host|] + host + [port / 0x100, port % 0x100]
  {
  }

  datatype Addressed = Addressed(host: seq<byte>, port: u16, rest: seq<byte>)

  function ParseAddr(data: seq<byte>): Option<Addressed> {
    if |data| < 3 then None
    else
      var n: nat := data[0];
      if |data| < 1 + n + 2 then None
      else Some(Addressed(data[1..1 + n], FromBe16(data[1 + n], data[2 + n]), data[3 + n..]))
  }

  /** The header round trip, for hosts whose length fits its byte. */
  lemma {:induction false} ParseOfAddr(host: seq<byte>, port: u16, rest: seq<byte>)
    requires |host| <= 255
    ensures ParseAddr(AddrHeader(host, port) + rest) == Some(Addressed(host, port, rest))
    ensures |AddrHeader(host, port)| == |host| + 3
  {
    var h := AddrHeader(host, port);
    var data := h + rest;
    assert data[0] == |host|;
    assert data[1..1 + |host|] == host;
    assert data[1 + |host|] == Be16(port)[0] && data[2 + |host|] == Be16(port)[1];
    assert data[3 + |host|..] == rest;
  }

  /** Reading is exact: a frame is read as header and rest if and only if it is made of them. */
  lemma {:induction false} ParseAddrExact(data: seq<byte>, a: Addressed)
    requires |a.host| <= 255
    ensures ParseAddr(data) == Some(a) <==> data == AddrHeader(a.host, a.port) + a.rest
  {
    if data == AddrHeader(a.host, a.port) + a.rest {
      ParseOfAddr(a.host, a.port, a.rest);
    }
    if ParseAddr(data) == Some(a) {
      var n: nat := data[0];
      assert data[1..1 + n] == a.host;
      assert Be16(FromBe16(data[1 + n], data[2 + n])) == [data[1 + n], data[2 + n]];
      assert data == [data[0]] + data[1..1 + n] + [data[1 + n], data[2 + n]] + data[3 + n..];
    }
  }

  // ----- Splitting -----

  function PerPart(h: seq<byte>): int {
    FRAME_DATA_MAX - |h| - 5
  }

  predicate IsSmall(h: seq<byte>, payload: seq<byte>) {
    |payload| + |h| + 5 <= FRAME_DATA_MAX
  }

  /** Sizes for which no field of the fragment header is truncated. */
  predicate Splittable(h: seq<byte>, payload: seq<byte>) {
    |h| <= 258 && |payload| <= 65535
  }

  function Parts(h: seq<byte>, payload: seq<byte>): nat
    requires Splittable(h, payload)
  {
    (|payload| + PerPart(h) - 1) / PerPart(h)
  }

  function Min(a: nat, b: nat): nat {
    if a < b then a else b
  }

  /** The stretch of the payload that goes into part `i`. */
  function Slice(h: seq<byte>, payload: seq<byte>, i: nat): seq<byte>
    requires Splittable(h, payload)
  {
    var start := Min(i * PerPart(h), |payload|);
    payload[start..Min(start + PerPart(h), |payload|)]
  }

  function FragHeader(totalLen: u16, idx: byte, total: byte): (f: seq<byte>)
    ensures |f| == 5
  {
    [UDP_FRAG_MARK] + Be16(totalLen) + [idx, total]
  }

  /** Piece `i` of a large datagram. */
  function Piece(h: seq<byte>, payload: seq<byte>, i: byte): seq<byte>
    requires Splittable(h, payload) && Parts(h, payload) <= 255
  {
    h + FragHeader(|payload|, i, Parts(h, payload)) + Slice(h, payload, i)
  }

  lemma {:induction false} MulMono(a: nat, b: nat, d: nat)
    requires a <= b
    ensures a * d <= b * d
  {
  }

  lemma {:induction false} DivBounds(n: nat, d: nat)
    requires 0 < d
    ensures var q := (n + d - 1) / d; q * d >= n && (n > 0 ==> 0 < q && (q - 1) * d < n) && (n == 0 ==> q == 0)
  {
    var q, r := (n + d - 1) / d, (n + d - 1) % d;
    assert n + d - 1 == q * d + r;
    assert (q - 1) * d == q * d - d;
  }

  /** A datagram of at most 65535 bytes needs at most 64 parts, which cover it exactly. */
  lemma {:induction false} PartsBounds(h: seq<byte>, payload: seq<byte>)
    requires Splittable(h, payload)
    ensures 1038 <= PerPart(h) && Parts(h, payload) <= 64
    ensures Parts(h, payload) * PerPart(h) >= |payload|
    ensures |payload| > 0 ==> Parts(h, payload) > 0 && (Parts(h, payload) - 1) * PerPart(h) < |payload|
    ensures |payload| == 0 ==> Parts(h, payload) == 0
  {
    var d := PerPart(h);
    DivBounds(|payload|, d);
    var q := Parts(h, payload);
    if q > 64 {
      MulMono(64, q - 1, d);
    }
  }

  /** `split_udp_frames`: a small datagram as one frame, a large one in pieces; no frame exceeds 1301 bytes. */
  method SplitUdpFrames(h: seq<byte>, payload: seq<byte>) returns (frames: seq<seq<byte>>)
    requires Splittable(h, payload)
    ensures |h| + |payload| + 5 <= 1301 ==> frames == [h + payload]
    ensures |h| + |payload| + 5 > 1301 ==>
              Parts(h, payload) <= 255 && |frames| == Parts(h, payload)
              && forall i :: 0 <= i < |frames| ==> frames[i] == Piece(h, payload, i)
    ensures forall i :: 0 <= i < |frames| ==> |frames[i]| <= 1301
  {
    if |payload| + (|h| + 5) <= FRAME_DATA_MAX {
      return [h + payload];
    }
    PartsBounds(h, payload);
    var per := FRAME_DATA_MAX - |h| - 5;
    var total := (|payload| + per - 1) / per;
    frames := [];
    var idx := 0;
    while idx < total
      invariant 0 <= idx <= total && |frames| == idx && total == Parts(h, payload)
      invariant forall i :: 0 <= i < idx ==> frames[i] == Piece(h, payload, i) && |frames[i]| <= FRAME_DATA_MAX
    {
      SliceSize(h, payload, idx);
      var start := idx * per;
      var end := Min(start + per, |payload|);
      var part := h + [UDP_FRAG_MARK] + Be16(|payload|) + [idx] + [total] + payload[start..end];
      assert part == Piece(h, payload, idx);
      frames := frames + [part];
      idx := idx + 1;
    }
  }

  /** All pieces but the last fill their frame. */
  lemma {:induction false} PieceSizes(h: seq<byte>, payload: seq<byte>, i: nat)
    requires Splittable(h, payload) && i + 1 < Parts(h, payload) <= 255
    ensures |Piece(h, payload, i)| == 1301
  {
    SliceSize(h, payload, i);
    SliceSize(h, payload, i + 1);
  }

  lemma {:induction false} SliceSize(h: seq<byte>, payload: seq<byte>, i: nat)
    requires Splittable(h, payload) && i < Parts(h, payload)
    ensures 0 <= i * PerPart(h) <= |payload| && (i + 1) * PerPart(h) == i * PerPart(h) + PerPart(h)
    ensures |Slice(h, payload, i)| <= PerPart(h)
    ensures Slice(h, payload, i) == payload[i * PerPart(h)..Min(i * PerPart(h) + PerPart(h), |payload|)]
  {
    var d := PerPart(h);
    PartsBounds(h, payload);
    MulMono(i, Parts(h, payload) - 1, d);
    assert (i + 1) * d == i * d + d;
  }

  // ----- Reassembly -----

  datatype ReasmState = ReasmState(totalLen: nat, totalParts: nat, parts: seq<Option<seq<byte>>>, received: nat,
                                   header: seq<byte>)

  datatype Reasm = Reasm(pending: map<Key, ReasmState>, createdAt: map<Key, nat>)

  datatype Pushed = Pushed(r: Reasm, out: Option<seq<byte>>)

  function Blank(n: nat): (s: seq<Option<seq<byte>>>)
    ensures |s| == n && forall i :: 0 <= i < n ==> s[i] == None
  {
    seq(n, i => None)
  }

  function Filled(parts: seq<Option<seq<byte>>>): nat {
    if parts == [] then 0
    else Filled(parts[..|parts| - 1]) + if parts[|parts| - 1].Some? then 1 else 0
  }

  /** The parts one after the other. */
  function Joined(parts: seq<Option<seq<byte>>>): seq<byte> {
    if parts == [] then []
    else Joined(parts[..|parts| - 1]) + match parts[|parts| - 1] case Some(p) => p case None => []
  }

  /** The fragment fields of what follows the address header, if it is a well-formed fragment. */
  datatype Fragment = Fragment(totalLen: nat, idx: nat, total: nat, data: seq<byte>)

  function ParseFragment(rest: seq<byte>): (f: Option<Fragment>)
    ensures f.Some? ==> 0 < f.value.total <= 255 && f.value.idx < f.value.total && f.value.totalLen > 0
  {
    if |rest| < 5 then None
    else
      var totalLen, idx, total := FromBe16(rest[1], rest[2]), rest[3], rest[4];
      if total == 0 || idx >= total then None
      else if totalLen == 0 then None
      else Some(Fragment(totalLen, idx, total, rest[5..]))
  }

  /** The state of a key before the fragment is stored: the pending one, or a new one if there is none or it belongs
      to a datagram of another shape. */
  function Opened(r: Reasm, key: Key, f: Fragment): ReasmState {
    if key in r.pending && r.pending[key].totalLen == f.totalLen && r.pending[key].totalParts == f.total
    then r.pending[key]
    else ReasmState(f.totalLen, f.total, Blank(f.total), 0, [])
  }

  function Stored(st: ReasmState, header: seq<byte>, f: Fragment): ReasmState
    requires f.idx < |st.parts|
  {
    var headed := if f.idx == 0 then st.(header := header) else st;
    if headed.parts[f.idx].None?
    then headed.(parts := headed.parts[f.idx := Some(f.data)], received := headed.received + 1)
    else headed
  }

  /** Every state is incomplete and counts its filled slots, and has a creation time. */
  ghost predicate ReasmWf(r: Reasm) {
    && r.pending.Keys == r.createdAt.Keys
    && forall k :: k in r.pending ==> StateWf(r.pending[k])
  }

  ghost predicate StateWf(st: ReasmState) {
    |st.parts| == st.totalParts && 0 < st.totalParts && st.received == Filled(st.parts) < st.totalParts
  }

  /** `push` */
  function PushFragment(r: Reasm, key: Key, header: seq<byte>, f: Fragment, now: nat): Pushed
    requires ReasmWf(r) && f.idx < f.total
  {
    var base := Opened(r, key, f);
    var st := Stored(base, header, f);
    var created := if key in r.pending then r.createdAt else r.createdAt[key := now];
    if st.received == f.total
    then Pushed(Reasm(r.pending - {key}, created - {key}), Some(st.header + Joined(st.parts)))
    else Pushed(Reasm(r.pending[key := st], created), None)
  }

  function AfterPush(r: Reasm, frame: seq<byte>, now: nat): Pushed
    requires ReasmWf(r)
  {
    match ParseAddr(frame)
    case None => Pushed(r, None)
    case Some(a) =>
      if a.rest == [] then Pushed(r, None)
      else if a.rest[0] != UDP_FRAG_MARK then Pushed(r, Some(frame))
      else
        match ParseFragment(a.rest)
        case None => Pushed(r, None)
        case Some(f) => PushFragment(r, (a.host, a.port), frame[..3 + |a.host|], f, now)
  }

  /** What counts as a fragment, byte by byte. */
  lemma {:induction false} FragmentBytes(rest: seq<byte>)
    ensures ParseFragment(rest).Some? <==>
            |rest| >= 5 && rest[4] != 0 && rest[3] < rest[4] && (rest[1] != 0 || rest[2] != 0)
    ensures ParseFragment(rest).Some? ==>
              ParseFragment(rest).value
              == Fragment((rest[1] as int) * 0x100 + rest[2] as int, rest[3], rest[4], rest[5..])
  {
  }

  /** A piece on the wire, byte by byte. */
  lemma {:induction false} PieceBytes(h: seq<byte>, payload: seq<byte>, i: byte)
    requires Splittable(h, payload) && Parts(h, payload) <= 255
    ensures Piece(h, payload, i)
            == h + [0xFF, |payload| / 0x100, |payload| % 0x100, i, Parts(h, payload)] + Slice(h, payload, i)
  {
  }

  lemma {:induction false} FilledBlank(n: nat)
    ensures Filled(Blank(n)) == 0
    decreases n
  {
    if n > 0 {
      FilledBlank(n - 1);
      assert Blank(n)[..n - 1] == Blank(n - 1);
    }
  }

  lemma {:induction false} FilledPut(parts: seq<Option<seq<byte>>>, i: nat, d: seq<byte>)
    requires i < |parts|
    ensures Filled(parts[i := Some(d)]) == Filled(parts) + if parts[i].None? then 1 else 0
    decreases |parts|
  {
    var n := |parts| - 1;
    var put := parts[i := Some(d)];
    if i == n {
      assert put[..n] == parts[..n];
    } else {
      FilledPut(parts[..n], i, d);
      assert put[..n] == parts[..n][i := Some(d)];
    }
  }

  lemma {:induction false} FilledFull(parts: seq<Option<seq<byte>>>)
    ensures Filled(parts) <= |parts|
    ensures Filled(parts) == |parts| <==> forall i :: 0 <= i < |parts| ==> parts[i].Some?
    decreases |parts|
  {
    if parts != [] {
      FilledFull(parts[..|parts| - 1]);
    }
  }

  lemma {:induction false} StoredWf(r: Reasm, key: Key, header: seq<byte>, f: Fragment)
    requires ReasmWf(r) && f.idx < f.total
    ensures var st := Stored(Opened(r, key, f), header, f);
            && |st.parts| == st.totalParts == f.total && st.received == Filled(st.parts) <= f.total
  {
    FilledBlank(f.total);
    var base := Opened(r, key, f);
    FilledPut(base.parts, f.idx, f.data);
    FilledFull(Stored(base, header, f).parts);
  }

  lemma {:induction false} OpenedSize(r: Reasm, key: Key, f: Fragment)
    requires ReasmWf(r)
    ensures |Opened(r, key, f).parts| == f.total
  {
  }

  /** Over every push the two tables keep the same keys and the counts stay right. */
  lemma {:induction false} PushWf(r: Reasm, frame: seq<byte>, now: nat)
    requires ReasmWf(r)
    ensures ReasmWf(AfterPush(r, frame, now).r)
  {
    var a := ParseAddr(frame);
    if a.Some? && a.value.rest != [] && ParseFragment(a.value.rest).Some? {
      var f := ParseFragment(a.value.rest).value;
      StoredWf(r, (a.value.host, a.value.port), frame[..3 + |a.value.host|], f);
    }
  }

  /** The keys whose state is older than 30 seconds. */
  function Expired(r: Reasm, now: nat): set<Key> {
    set k | k in r.createdAt && now - r.createdAt[k] > REASM_EXPIRY_SECS
  }

  /** `cleanup_expired` */
  function Cleaned(r: Reasm, now: nat): Reasm {
    Reasm(r.pending - Expired(r, now), r.createdAt - Expired(r, now))
  }

  class UdpReassembler {
    var pending: map<Key, ReasmState>
    var createdAt: map<Key, nat>

    ghost function View(): Reasm
      reads this
    {
      Reasm(pending, createdAt)
    }

    constructor ()
      ensures View() == Reasm(map[], map[]) && ReasmWf(View())
    {
      pending, createdAt := map[], map[];
    }

    /** Removes exactly the states older than 30 seconds, from both tables, and tells how many. */
    method CleanupExpired(now: nat) returns (n: nat)
      requires ReasmWf(View())
      modifies this
      ensures ReasmWf(View())
      ensures View() == Cleaned(old(View()), now) && n == |Expired(old(View()), now)|
      ensures forall k :: k in old(createdAt) ==>
                (k in createdAt <==> now - old(createdAt)[k] <= 30) && (k in pending <==> k in createdAt)
    {
      var expired := set k | k in createdAt && now - createdAt[k] > REASM_EXPIRY_SECS;
      n := |expired|;
      var left := expired;
      while left != {}
        invariant left <= expired
        invariant pending == old(pending) - (expired - left) && createdAt == old(createdAt) - (expired - left)
        decreases |left|
      {
        var k :| k in left;
        pending := pending - {k};
        createdAt := createdAt - {k};
        left := left - {k};
      }
    }

    method Push(frame: seq<byte>, now: nat) returns (out: Option<seq<byte>>)
      requires ReasmWf(View())
      modifies this
      ensures Pushed(View(), out) == AfterPush(old(View()), frame, now)
      ensures ReasmWf(View())
    {
      hide ReasmWf, Joined, Filled;
      PushWf(View(), frame, now);
      var parsed := ParseAddr(frame);
      if parsed.None? {
        return None;
      }
      var a := parsed.value;
      if a.rest == [] {
        return None;
      }
      if a.rest[0] != UDP_FRAG_MARK {
        return Some(frame);
      }
      var parsedFrag := ParseFragment(a.rest);
      if parsedFrag.None? {
        return None;
      }
      var f := parsedFrag.value;
      var key := (a.host, a.port);
      assert ReasmWf(View());
      OpenedSize(View(), key, f);
      if key !in pending {
        createdAt := createdAt[key := now];
      }
      var state := if key in pending then pending[key] else ReasmState(f.totalLen, f.total, Blank(f.total), 0, []);
      if state.totalLen != f.totalLen || state.totalParts != f.total {
        state := ReasmState(f.totalLen, f.total, Blank(f.total), 0, []);
      }
      assert state == Opened(old(View()), key, f) && |state.parts| == f.total;
      if f.idx == 0 {
        state := state.(header := frame[..3 + |a.host|]);
      }
      if state.parts[f.idx].None? {
        state := state.(parts := state.parts[f.idx := Some(f.data)], received := state.received + 1);
      }
      if state.received == f.total {
        var full := JoinParts(state.parts);
        pending := pending - {key};
        createdAt := createdAt - {key};
        out := Some(state.header + full);
      } else {
        pending := pending[key := state];
        out := None;
      }
    }

    static method JoinParts(parts: seq<Option<seq<byte>>>) returns (full: seq<byte>)
      ensures full == Joined(parts)
    {
      full := [];
      var i := 0;
      assert parts[..0] == [];
      while i < |parts|
        invariant 0 <= i <= |parts| && full == Joined(parts[..i])
      {
        assert parts[..i + 1][..i] == parts[..i];
        if parts[i].Some? {
          full := full + parts[i].value;
        }
        i := i + 1;
      }
      assert parts[..i] == parts;
    }
  }
}
