/** Epochs of a reused session: when the decoder's wrap-around comparison is right (src/tunnel/multiplex.rs). */
module EpochWindow {
  import opened Bytes
  import opened MuxFrame
  import opened MuxDecoder
  import opened MuxEncoder

  /** The epoch of the `n`-th allocation: the counter is a byte, so it repeats every 256 allocations, and its
      values 255 and 0 give the same epoch. */
  function EpochOf(n: nat): (e: byte)
    ensures 1 <= e
  {
    EpochAt(n % 0x100)
  }

  /** The decoder takes allocation `b` for newer than `a`, and a frame of `a` for stale once `b` is current. */
  predicate ToldApart(a: nat, b: nat) {
    EpochOf(a) != EpochOf(b) && Newer(EpochOf(b), EpochOf(a)) && !Newer(EpochOf(a), EpochOf(b))
  }

  /** The counter value 255 is given the epoch of the value 0 that follows it. */
  function Skew(n: nat): nat {
    if n % 0x100 == 0xFF then 1 else 0
  }

  lemma {:induction false} EpochResidue(n: nat)
    ensures EpochOf(n) % 0x100 == (n + 1 + Skew(n)) % 0x100
  {
    var r := n % 0x100;
    assert n == n / 0x100 * 0x100 + r;
    if r == 0xFF {
      assert EpochOf(n) == 1;
      assert n + 1 + Skew(n) == (n / 0x100 + 1) * 0x100 + 1;
    } else {
      assert EpochOf(n) == r + 1;
      assert n + 1 + Skew(n) == n / 0x100 * 0x100 + (r + 1);
    }
  }

  lemma {:induction false} Residues(x: int, y: int, u: int, v: int)
    requires x % 0x100 == u % 0x100 && y % 0x100 == v % 0x100
    ensures (x - y) % 0x100 == (u - v) % 0x100
  {
    var i, j := x / 0x100 - u / 0x100, y / 0x100 - v / 0x100;
    assert x == u + 0x100 * i && y == v + 0x100 * j;
    assert x - y == (u - v) + 0x100 * (i - j);
  }

  /** THEOREM (epoch window, exact). Two allocations are told apart if and only if their distance, corrected at
      the counter value 255, is 1 to 127 on the byte circle. */
  lemma {:induction false} ToldApartExactly(a: nat, b: nat)
    requires a < b
    ensures ToldApart(a, b) <==> 1 <= (b - a + Skew(b) - Skew(a)) % 0x100 <= 127
  {
    EpochResidue(a);
    EpochResidue(b);
    hide EpochOf, Skew;
    var x: int, y: int := EpochOf(a), EpochOf(b);
    Residues(y, x, b + 1 + Skew(b), a + 1 + Skew(a));
    assert (b + 1 + Skew(b)) - (a + 1 + Skew(a)) == b - a + Skew(b) - Skew(a);
    NewerByDistance(y, x);
    NewerByDistance(x, y);
    ByteDistance(y, x);
    ByteDistance(x, y);
  }

  /** The distance from `y` to `x` on the byte circle. */
  lemma {:induction false} ByteDistance(x: byte, y: byte)
    ensures (x - y) as int % 0x100 == if x >= y then x - y else x - y + 0x100
  {
  }

  lemma {:induction false} NewerByDistance(x: byte, y: byte)
    ensures Newer(x, y) <==> (x - y) as int % 0x100 < 128
  {
  }

  /** Corollary: distances 2 to 126 always work; distance 1 works except from counter value 255 to 0. */
  lemma {:induction false} WindowOf126(a: nat, b: nat)
    requires a < b <= a + 126
    ensures ToldApart(a, b) <==> InWindow(a, b)
  {
    hide ToldApart;
    ToldApartExactly(a, b);
    var c := b - a + Skew(b) - Skew(a);
    if b == a + 1 {
      if a % 0x100 == 0xFF {
        assert b == (a / 0x100 + 1) * 0x100;
        assert b % 0x100 == 0;
        assert c == 0;
      } else {
        assert 1 <= c <= 2;
      }
    } else {
      assert 1 <= c <= 127;
    }
  }

  /** Allocation `a` is 1 to 126 before `b`, and not the counter value 255 directly before 0. */
  predicate InWindow(a: nat, b: nat) {
    a < b <= a + 126 && (b > a + 1 || a % 0x100 != 0xFF)
  }

  /** A frame of allocation `a` is stale once allocation `b` is current. */
  predicate StaysOut(a: nat, b: nat) {
    EpochOf(a) != EpochOf(b) && !Newer(EpochOf(a), EpochOf(b))
  }

  /** THEOREM (who is stale, exact). The frames of an older allocation are stale if and only if the corrected distance
      is 1 to 128 on the byte circle: one more than for telling the two apart, which also needs the later one to be
      newer. */
  lemma {:induction false} StaysOutExactly(a: nat, b: nat)
    requires a < b
    ensures StaysOut(a, b) <==> 1 <= (b - a + Skew(b) - Skew(a)) % 0x100 <= 128
  {
    EpochResidue(a);
    EpochResidue(b);
    hide EpochOf, Skew;
    var x: int, y: int := EpochOf(a), EpochOf(b);
    Residues(y, x, b + 1 + Skew(b), a + 1 + Skew(a));
    assert (b + 1 + Skew(b)) - (a + 1 + Skew(a)) == b - a + Skew(b) - Skew(a);
    NewerByDistance(x, y);
    ByteDistance(y, x);
    ByteDistance(x, y);
  }

  /** Of two different epochs at most one is newer than the other. */
  lemma {:induction false} NewerOneWay(x: byte, y: byte)
    requires x != y && Newer(x, y)
    ensures !Newer(y, x)
  {
    NewerByDistance(x, y);
    NewerByDistance(y, x);
    ByteDistance(x, y);
    ByteDistance(y, x);
  }
}
