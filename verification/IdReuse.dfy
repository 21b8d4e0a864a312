/** How far apart two lives of a session id are, counted in allocations, and so in epochs
    (src/tunnel/dispatch.rs, src/tunnel/multiplex.rs). */
module IdReuse {
  import opened Bytes
  import opened MuxDecoder
  import opened MuxEncoder
  import opened EpochWindow
  import opened Dispatch

  // ----- The history of a registry -----

  /** The channels, the value of the id counter without its wrap-around, and the counter value of every allocation. */
  datatype Ids = Ids(ch: Channels, raw: nat, made: seq<nat>)

  ghost predicate Allocates(s: Ids, t: Ids) {
    exists n: nat :: FirstFree(s.ch, s.raw % 0x1_0000_0000, n)
                     && t == Ids(s.ch[Candidate(s.raw % 0x1_0000_0000, n) := []], s.raw + n + 1, s.made + [s.raw + n])
  }

  /** Anything else that can happen to a registry: sessions end, or are registered or filled otherwise. */
  ghost predicate Otherwise(s: Ids, t: Ids) {
    t.raw == s.raw && t.made == s.made
  }

  ghost predicate History(hs: seq<Ids>) {
    && 0 < |hs| && hs[0].raw == 1 && hs[0].made == []
    && forall i :: 0 < i < |hs| ==> Allocates(hs[i - 1], hs[i]) || Otherwise(hs[i - 1], hs[i])
  }

  /** `allocate` is such a step, across the wrap-around of its 32-bit counter. */
  method AllocateStep(reg: SessionRegistry, ghost s: Ids) returns (r: Option<u16>, ghost t: Ids)
    requires reg.Valid() && reg.sessions == s.ch && reg.nextId == s.raw % 0x1_0000_0000
    modifies reg
    ensures reg.Valid() && reg.sessions == t.ch && reg.nextId == t.raw % 0x1_0000_0000
    ensures if r.Some?
            then Allocates(s, t) && |t.made| == |s.made| + 1 && r.value == t.made[|s.made|] % MAX_SESSIONS
            else t == s
  {
    hide FirstFree, Candidate;
    t := s;
    r := reg.Allocate();
    if r.Some? {
      ghost var n: nat :| FirstFree(s.ch, s.raw % 0x1_0000_0000, n) && r.value == Candidate(s.raw % 0x1_0000_0000, n)
                          && reg.nextId == (s.raw % 0x1_0000_0000 + n + 1) % 0x1_0000_0000;
      CounterFollows(s.raw, n);
      t := Ids(s.ch[r.value := []], s.raw + n + 1, s.made + [s.raw + n]);
    }
  }

  lemma {:induction false} CounterFollows(raw: nat, n: nat)
    ensures (raw % 0x1_0000_0000 + n + 1) % 0x1_0000_0000 == (raw + n + 1) % 0x1_0000_0000
    ensures Candidate(raw % 0x1_0000_0000, n) == (raw + n) % MAX_SESSIONS
  {
    var q, r := raw / 0x1_0000_0000, raw % 0x1_0000_0000;
    assert raw + n == r + n + 0x100 * (0x100_0000 * q);
    SameResidue(r + n, 0x100_0000 * q);
    SameRemainder(r + n + 1, q);
  }

  lemma {:induction false} SameRemainder(r: nat, q: nat)
    ensures (r + 0x1_0000_0000 * q) % 0x1_0000_0000 == r % 0x1_0000_0000
  {
  }

  ghost predicate MadeWf(s: Ids) {
    && (forall i :: 0 <= i < |s.made| ==> s.made[i] < s.raw && s.made[i] % MAX_SESSIONS != 0)
    && (forall i, j :: 0 <= i < j < |s.made| ==> s.made[i] < s.made[j])
  }

  lemma {:induction false} AllocatesWf(s: Ids, t: Ids)
    requires MadeWf(s) && Allocates(s, t)
    ensures MadeWf(t)
  {
    hide FirstFree, Candidate;
    var n: nat :| FirstFree(s.ch, s.raw % 0x1_0000_0000, n)
                  && t == Ids(s.ch[Candidate(s.raw % 0x1_0000_0000, n) := []], s.raw + n + 1, s.made + [s.raw + n]);
    CounterFollows(s.raw, n);
    assert Candidate(s.raw % 0x1_0000_0000, n) != 0 by { FreeIsNotZero(s.ch, s.raw % 0x1_0000_0000, n); }
  }

  lemma {:induction false} FreeIsNotZero(ch: Channels, start: u32, n: nat)
    requires FirstFree(ch, start, n)
    ensures Candidate(start, n) != 0
  {
  }

  lemma {:induction false} HistoryWf(hs: seq<Ids>, n: nat)
    requires History(hs) && n < |hs|
    ensures MadeWf(hs[n])
    decreases n
  {
    hide Allocates, MadeWf;
    if n > 0 {
      HistoryWf(hs, n - 1);
      if Allocates(hs[n - 1], hs[n]) {
        AllocatesWf(hs[n - 1], hs[n]);
      } else {
        OtherwiseWf(hs[n - 1], hs[n]);
      }
    } else {
      assert MadeWf(hs[0]) by { NoneMade(hs[0]); }
    }
  }

  lemma {:induction false} OtherwiseWf(s: Ids, t: Ids)
    requires MadeWf(s) && Otherwise(s, t)
    ensures MadeWf(t)
  {
  }

  lemma {:induction false} NoneMade(s: Ids)
    requires s.made == []
    ensures MadeWf(s)
  {
  }

  // ----- Counting -----

  /** The counter values in (lo, hi] that made an allocation. */
  function MadeIn(made: seq<nat>, lo: nat, hi: nat): nat {
    if hi <= lo then 0 else MadeIn(made, lo, hi - 1) + if hi in made then 1 else 0
  }

  /** Those passed over because they stand for id 0. */
  function ZerosIn(lo: nat, hi: nat): nat {
    if hi <= lo then 0 else ZerosIn(lo, hi - 1) + if hi % MAX_SESSIONS == 0 then 1 else 0
  }

  /** Those passed over because their id was taken. */
  function TakenIn(made: seq<nat>, lo: nat, hi: nat): nat {
    if hi <= lo then 0
    else TakenIn(made, lo, hi - 1) + if hi !in made && hi % MAX_SESSIONS != 0 then 1 else 0
  }

  lemma {:induction false} EveryValueCounts(made: seq<nat>, lo: nat, hi: nat)
    requires lo <= hi && forall i :: 0 <= i < |made| ==> made[i] % MAX_SESSIONS != 0
    ensures MadeIn(made, lo, hi) + ZerosIn(lo, hi) + TakenIn(made, lo, hi) == hi - lo
    decreases hi
  {
    if lo < hi {
      EveryValueCounts(made, lo, hi - 1);
    }
  }

  lemma {:induction false} ZerosExactly(lo: nat, hi: nat)
    requires lo <= hi
    ensures ZerosIn(lo, hi) == hi / MAX_SESSIONS - lo / MAX_SESSIONS
    decreases hi
  {
    if lo < hi {
      ZerosExactly(lo, hi - 1);
      assert hi / MAX_SESSIONS == (hi - 1) / MAX_SESSIONS + if hi % MAX_SESSIONS == 0 then 1 else 0;
    }
  }

  lemma {:induction false} MadeSplit(made: seq<nat>, lo: nat, mid: nat, hi: nat)
    requires lo <= mid <= hi
    ensures MadeIn(made, lo, hi) == MadeIn(made, lo, mid) + MadeIn(made, mid, hi)
    decreases hi
  {
    if mid < hi {
      MadeSplit(made, lo, mid, hi - 1);
    }
  }

  lemma {:induction false} MadeNone(made: seq<nat>, lo: nat, hi: nat)
    requires forall x :: lo < x <= hi ==> x !in made
    ensures MadeIn(made, lo, hi) == 0
    decreases hi
  {
    if lo < hi {
      MadeNone(made, lo, hi - 1);
    }
  }

  /** Between two allocations lie as many as their numbers say. */
  lemma {:induction false} MadeBetween(made: seq<nat>, a: nat, b: nat)
    requires a <= b < |made| && forall i, j :: 0 <= i < j < |made| ==> made[i] < made[j]
    ensures MadeIn(made, made[a], made[b]) == b - a
    decreases b
  {
    if a < b {
      MadeBetween(made, a, b - 1);
      assert made[b - 1] < made[b] && (a < b - 1 ==> made[a] < made[b - 1]);
      MadeSplit(made, made[a], made[b - 1], made[b]);
      forall i | 0 <= i < |made| ensures made[i] <= made[b - 1] || made[b] <= made[i] {
        assert i < b - 1 || i == b - 1 || i == b || b < i;
      }
      MadeNone(made, made[b - 1], made[b] - 1);
    }
  }

  /** THEOREM (distance of two lives). Two allocations of the same id are whole rounds of 256 counter values apart,
      and as many allocations as 255 for every round, less one for every counter value passed over because its id was
      taken. */
  lemma {:induction false} LivesApart(hs: seq<Ids>, n: nat, a: nat, b: nat)
    requires History(hs) && n < |hs| && a < b < |hs[n].made|
    requires hs[n].made[a] % MAX_SESSIONS == hs[n].made[b] % MAX_SESSIONS
    ensures var made := hs[n].made;
            exists m: nat :: m >= 1 && made[b] == made[a] + MAX_SESSIONS * m
                             && b - a + TakenIn(made, made[a], made[b]) == 255 * m
  {
    hide History;
    HistoryWf(hs, n);
    var made := hs[n].made;
    var lo, hi := made[a], made[b];
    assert lo < hi;
    var m := hi / MAX_SESSIONS - lo / MAX_SESSIONS;
    assert hi == lo + MAX_SESSIONS * m;
    EveryValueCounts(made, lo, hi);
    ZerosExactly(lo, hi);
    MadeBetween(made, a, b);
    assert b - a + TakenIn(made, lo, hi) == 255 * m;
  }

  // ----- What that means for the epochs -----

  /** THEOREM (ordinary reuse). If every session opened takes one epoch and no id is found taken, an id comes round
      after 255 allocations, and then the new life's epoch equals the old one's or compares as older than it: the
      frames of the old life are never stale to the new one. */
  lemma {:induction false} OrdinaryReuse(n: nat)
    ensures !StaysOut(n, n + 255) && !ToldApart(n, n + 255)
    ensures EpochOf(n + 255) == EpochOf(n) <==> n % 0x100 == 0
    ensures n % 0x100 != 0 ==> Newer(EpochOf(n), EpochOf(n + 255))
  {
    var r := n % 0x100;
    assert n == n / 0x100 * 0x100 + r;
    if r == 0 {
      assert (n + 255) % 0x100 == 255;
    } else {
      assert n + 255 == (n / 0x100 + 1) * 0x100 + (r - 1);
      assert (n + 255) % 0x100 == r - 1;
    }
  }

  /** With `taken` ids passed over in the round: up to 125 leave the old life's frames newer or equal, 128 to 253 make
      them stale; in between the place of counter value 255 decides. */
  lemma {:induction false} ReuseAfterTaken(a: nat, b: nat, taken: nat)
    requires b + taken == a + 255 && taken < 255
    ensures StaysOut(a, b) <==> 1 <= (255 - taken + Skew(b) - Skew(a)) % 0x100 <= 128
    ensures taken <= 125 ==> !StaysOut(a, b)
    ensures 128 <= taken <= 253 ==> StaysOut(a, b)
  {
    hide StaysOut, EpochOf;
    StaysOutExactly(a, b);
    var c := 255 - taken + Skew(b) - Skew(a);
    assert b - a + Skew(b) - Skew(a) == c;
    if taken <= 125 {
      assert 129 <= c <= 256;
    } else if 128 <= taken <= 253 {
      assert 1 <= c <= 128;
    }
  }
}
