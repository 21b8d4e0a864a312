/** AES key wrap (srt-1.5.6/haicrypt/cryspr.c): the in-place loops, and the algorithm of section 2.2 of RFC 3394 they
    implement. The block cipher itself is a parameter. */
module KeyWrap {
  import opened Bytes

  type Block = b: seq<byte> | |b| == 16 witness seq(16, i => 0)

  /** `aes_ecb_cipher` in its two directions, under a key-encrypting key. */
  datatype Aes = Aes(enc: (seq<byte>, Block) -> Block, dec: (seq<byte>, Block) -> Block)

  /** The only assumption about the cipher. */
  ghost predicate DecInvertsEnc(aes: Aes, kek: seq<byte>) {
    forall b: Block :: aes.dec(kek, aes.enc(kek, b)) == b
  }

  const IV: seq<byte> := [0xA6, 0xA6, 0xA6, 0xA6, 0xA6, 0xA6, 0xA6, 0xA6]

  function Pow2(k: nat): (r: nat)
    ensures 0 < r
  {
    if k == 0 then 1 else 2 * Pow2(k - 1)
  }

  /** Exclusive or of the low `k` bits. */
  function XorBits(x: nat, y: nat, k: nat): (r: nat)
    ensures r < Pow2(k)
  {
    if k == 0 then 0
    else 2 * XorBits(x / 2, y / 2, k - 1) + if x % 2 == y % 2 then 0 else 1
  }

  function Xor(x: byte, y: byte): byte {
    assert Pow2(8) == 256;
    XorBits(x, y, 8)
  }

  lemma {:induction false} XorBitsInverse(x: nat, y: nat, k: nat)
    requires x < Pow2(k)
    ensures XorBits(XorBits(x, y, k), y, k) == x
    decreases k
  {
    if k > 0 {
      var r := XorBits(x, y, k);
      assert r / 2 == XorBits(x / 2, y / 2, k - 1);
      XorBitsInverse(x / 2, y / 2, k - 1);
    }
  }

  lemma {:induction false} XorBitsZero(x: nat, k: nat)
    requires x < Pow2(k)
    ensures XorBits(x, 0, k) == x
    decreases k
  {
    if k > 0 {
      XorBitsZero(x / 2, k - 1);
    }
  }

  lemma {:induction false} XorInverse(x: byte, y: byte)
    ensures Xor(Xor(x, y), y) == x && Xor(x, 0) == x
  {
    assert Pow2(8) == 256;
    XorBitsInverse(x, y, 8);
    XorBitsZero(x, 8);
  }

  /** Bit `i`, counted from the low end. */
  predicate Bit(x: nat, i: nat) {
    if i == 0 then x % 2 == 1 else Bit(x / 2, i - 1)
  }

  lemma {:induction false} XorBitsBitwise(x: nat, y: nat, k: nat, i: nat)
    requires i < k
    ensures Bit(XorBits(x, y, k), i) <==> Bit(x, i) != Bit(y, i)
    decreases k
  {
    var q: nat, c: nat := XorBits(x / 2, y / 2, k - 1), if x % 2 == y % 2 then 0 else 1;
    Halves(q, c);
    if i > 0 {
      XorBitsBitwise(x / 2, y / 2, k - 1, i - 1);
    }
  }

  lemma {:induction false} Halves(q: nat, c: nat)
    requires c < 2
    ensures (2 * q + c) / 2 == q && (2 * q + c) % 2 == c
  {
  }

  /** It is the exclusive or, bit by bit. */
  lemma {:induction false} XorBitwise(x: byte, y: byte, i: nat)
    requires i < 8
    ensures Bit(Xor(x, y), i) <==> Bit(x, i) != Bit(y, i)
  {
    XorBitsBitwise(x, y, 8, i);
  }

  function XorBytes(a: seq<byte>, b: seq<byte>): (r: seq<byte>)
    requires |a| == |b|
    ensures |r| == |a|
  {
    seq(|a|, i requires 0 <= i < |a| => Xor(a[i], b[i]))
  }

  /** The step counter as the 64-bit big-endian block that is added to A. */
  function Counter(t: u32): (c: seq<byte>)
    ensures |c| == 8
  {
    [0, 0, 0, 0] + Be32(t)
  }

  /** The registers of RFC 3394: A of 8 bytes, and R[1..n] of 8 bytes each, side by side. */
  datatype Registers = Registers(a: seq<byte>, r: seq<byte>)

  ghost predicate Sized(s: Registers, n: nat) {
    |s.a| == 8 && |s.r| == 8 * n
  }

  function Put(r: seq<byte>, i: nat, b: seq<byte>): (r': seq<byte>)
    requires 8 * i + 8 <= |r| && |b| == 8
    ensures |r'| == |r|
  {
    r[..8 * i] + b + r[8 * i + 8..]
  }

  function Get(r: seq<byte>, i: nat): (b: seq<byte>)
    requires 8 * i + 8 <= |r|
    ensures |b| == 8
  {
    r[8 * i..8 * i + 8]
  }

  /** Register number of step `t`: the steps go round the registers. */
  function Index(t: nat, n: nat): (i: nat)
    requires 0 < n && 0 < t
    ensures i < n
    decreases t
  {
    if t <= n then t - 1 else Index(t - n, n)
  }

  /** One step of section 2.2.1. */
  function WrapStep(aes: Aes, kek: seq<byte>, n: nat, s: Registers, t: u32): (s': Registers)
    requires 0 < n && 0 < t && |s.a| == 8 && |s.r| == 8 * n
    ensures Sized(s', n)
  {
    var i := Index(t, n);
    var b := aes.enc(kek, s.a + Get(s.r, i));
    Registers(XorBytes(b[..8], Counter(t)), Put(s.r, i, b[8..]))
  }

  /** The same step of section 2.2.2. */
  function UnwrapStep(aes: Aes, kek: seq<byte>, n: nat, s: Registers, t: u32): (s': Registers)
    requires 0 < n && 0 < t && |s.a| == 8 && |s.r| == 8 * n
    ensures Sized(s', n)
  {
    var i := Index(t, n);
    var b := aes.dec(kek, XorBytes(s.a, Counter(t)) + Get(s.r, i));
    Registers(b[..8], Put(s.r, i, b[8..]))
  }

  /** Steps 1 to `t`. */
  function WrapSteps(aes: Aes, kek: seq<byte>, n: nat, s: Registers, t: u32): (s': Registers)
    requires 0 < n && |s.a| == 8 && |s.r| == 8 * n
    ensures Sized(s', n)
  {
    if t == 0 then s else WrapStep(aes, kek, n, WrapSteps(aes, kek, n, s, t - 1), t)
  }

  /** Steps `t` down to 1. */
  function UnwrapSteps(aes: Aes, kek: seq<byte>, n: nat, s: Registers, t: u32): (s': Registers)
    requires 0 < n && |s.a| == 8 && |s.r| == 8 * n
    ensures Sized(s', n)
    decreases t
  {
    if t == 0 then s else UnwrapSteps(aes, kek, n, UnwrapStep(aes, kek, n, s, t), t - 1)
  }

  predicate Wrappable(len: nat) {
    len % 8 == 0 && 8 <= len < 0x1_0000_0000
  }

  function Wrap(aes: Aes, kek: seq<byte>, key: seq<byte>): (c: seq<byte>)
    requires Wrappable(|key|)
    ensures |c| == |key| + 8
  {
    var n := |key| / 8;
    var s := WrapSteps(aes, kek, n, Registers(IV, key), 6 * n);
    s.a + s.r
  }

  function Unwrap(aes: Aes, kek: seq<byte>, c: seq<byte>): (key: Option<seq<byte>>)
    ensures key.Some? ==> |key.value| == |c| - 8
  {
    if |c| < 8 || !Wrappable(|c| - 8) then None
    else
      var n := (|c| - 8) / 8;
      var s := UnwrapSteps(aes, kek, n, Registers(c[..8], c[8..]), 6 * n);
      if s.a == IV then Some(s.r) else None
  }

  /** The steps as section 2.2.1 counts them, by round `j` and register `i`: step `n * j + i` encrypts A with R[i],
      adds its own number to the upper half, and puts the lower half back. */
  lemma {:induction false} RfcStep(aes: Aes, kek: seq<byte>, n: nat, s: Registers, j: nat, i: nat)
    requires 0 < n && |s.a| == 8 && |s.r| == 8 * n && 1 <= i <= n && n * j + i < 0x1_0000_0000
    ensures var p, t := WrapSteps(aes, kek, n, s, n * j + i - 1), n * j + i;
            var b: Block := aes.enc(kek, p.a + p.r[8 * (i - 1)..8 * i]);
            && WrapSteps(aes, kek, n, s, t).r == p.r[..8 * (i - 1)] + b[8..] + p.r[8 * i..]
            && WrapSteps(aes, kek, n, s, t).a
               == b[..4] + [Xor(b[4], t / 0x100_0000), Xor(b[5], t / 0x1_0000 % 0x100),
                            Xor(b[6], t / 0x100 % 0x100), Xor(b[7], t % 0x100)]
  {
    hide Xor, WrapStep;
    var t := n * j + i;
    IndexOf(n, j, i);
    WrapUnfold(aes, kek, n, s, t);
    StepBytes(aes, kek, n, WrapSteps(aes, kek, n, s, t - 1), t, i);
  }

  lemma {:induction false} IndexOf(n: nat, j: nat, i: nat)
    requires 0 < n && 1 <= i <= n
    ensures n * j + i >= 1 && Index(n * j + i, n) == i - 1
    decreases j
  {
    if j > 0 {
      assert n * j + i == n * (j - 1) + i + n;
      IndexOf(n, j - 1, i);
    }
  }

  lemma {:induction false} StepBytes(aes: Aes, kek: seq<byte>, n: nat, p: Registers, t: u32, i: nat)
    requires 0 < n && 0 < t && |p.a| == 8 && |p.r| == 8 * n && 1 <= i <= n && Index(t, n) == i - 1
    ensures var b: Block := aes.enc(kek, p.a + p.r[8 * (i - 1)..8 * i]);
            && WrapStep(aes, kek, n, p, t).r == p.r[..8 * (i - 1)] + b[8..] + p.r[8 * i..]
            && WrapStep(aes, kek, n, p, t).a
               == b[..4] + [Xor(b[4], t / 0x100_0000), Xor(b[5], t / 0x1_0000 % 0x100),
                            Xor(b[6], t / 0x100 % 0x100), Xor(b[7], t % 0x100)]
  {
    hide Xor, Index;
    var b: Block := aes.enc(kek, p.a + p.r[8 * (i - 1)..8 * i]);
    var c := Counter(t);
    assert c == [0, 0, 0, 0, t / 0x100_0000, t / 0x1_0000 % 0x100, t / 0x100 % 0x100, t % 0x100];
    forall m | 0 <= m < 4 ensures Xor(b[m], 0) == b[m] {
      XorInverse(b[m], 0);
    }
    assert XorBytes(b[..8], c) == b[..4] + [Xor(b[4], c[4]), Xor(b[5], c[5]), Xor(b[6], c[6]), Xor(b[7], c[7])];
  }

  /** A wrapped key is A and R after the steps of six rounds, from A = A6..A6 and R = the key. */
  lemma {:induction false} WrapIsSixRounds(aes: Aes, kek: seq<byte>, key: seq<byte>)
    requires Wrappable(|key|)
    ensures var start := Registers([0xA6, 0xA6, 0xA6, 0xA6, 0xA6, 0xA6, 0xA6, 0xA6], key);
            var s := WrapSteps(aes, kek, |key| / 8, start, 6 * (|key| / 8));
            Wrap(aes, kek, key) == s.a + s.r && WrapSteps(aes, kek, |key| / 8, start, 0) == start
  {
  }

  /** Encrypting, and adding a small number to A. */
  function Mixed(aes: Aes, kek: seq<byte>, b: Block, t: byte): Block {
    var c := aes.enc(kek, b);
    c[..7] + [Xor(c[7], t)] + c[8..]
  }

  /** The shortest key, written out: six encryptions, with the numbers 1 to 6 added to A. */
  lemma {:induction false} WrapOfOne(aes: Aes, kek: seq<byte>, key: seq<byte>)
    requires |key| == 8
    ensures var b0: Block := [0xA6, 0xA6, 0xA6, 0xA6, 0xA6, 0xA6, 0xA6, 0xA6] + key;
            var b1 := Mixed(aes, kek, b0, 1);
            var b2 := Mixed(aes, kek, b1, 2);
            var b3 := Mixed(aes, kek, b2, 3);
            var b4 := Mixed(aes, kek, b3, 4);
            var b5 := Mixed(aes, kek, b4, 5);
            Wrap(aes, kek, key) == Mixed(aes, kek, b5, 6)
  {
    hide Mixed, WrapSteps, Xor;
    var s0 := Registers(IV, key);
    WrapNone(aes, kek, 1, s0);
    MixedStep(aes, kek, s0, 1);
    MixedStep(aes, kek, s0, 2);
    MixedStep(aes, kek, s0, 3);
    MixedStep(aes, kek, s0, 4);
    MixedStep(aes, kek, s0, 5);
    MixedStep(aes, kek, s0, 6);
  }

  lemma {:induction false} MixedStep(aes: Aes, kek: seq<byte>, s: Registers, t: byte)
    requires |s.a| == 8 && |s.r| == 8 && 1 <= t
    ensures var p, q := WrapSteps(aes, kek, 1, s, t - 1), WrapSteps(aes, kek, 1, s, t);
            q.a + q.r == Mixed(aes, kek, p.a + p.r, t)
  {
    hide Xor, WrapSteps;
    RfcStep(aes, kek, 1, s, t - 1, 1);
    var p, q := WrapSteps(aes, kek, 1, s, t - 1), WrapSteps(aes, kek, 1, s, t);
    assert p.r[0..8] == p.r && p.r[..0] == [] == p.r[8..];
    var c := aes.enc(kek, p.a + p.r);
    forall m | 4 <= m < 7 ensures Xor(c[m], 0) == c[m] {
      XorInverse(c[m], 0);
    }
    assert t / 0x100_0000 == 0 && t / 0x1_0000 % 0x100 == 0 && t / 0x100 % 0x100 == 0 && t % 0x100 == t;
  }

  // ----- The integrity check -----

  ghost predicate EncInvertsDec(aes: Aes, kek: seq<byte>) {
    forall b: Block :: aes.enc(kek, aes.dec(kek, b)) == b
  }

  lemma {:induction false} StepForth(aes: Aes, kek: seq<byte>, n: nat, s: Registers, t: u32)
    requires 0 < n && 0 < t && |s.a| == 8 && |s.r| == 8 * n && EncInvertsDec(aes, kek)
    ensures WrapStep(aes, kek, n, UnwrapStep(aes, kek, n, s, t), t) == s
  {
    hide Xor;
    var i := Index(t, n);
    var block: Block := XorBytes(s.a, Counter(t)) + Get(s.r, i);
    var b := aes.dec(kek, block);
    var u := UnwrapStep(aes, kek, n, s, t);
    assert u.r[8 * i..8 * i + 8] == b[8..];
    assert u.a + u.r[8 * i..8 * i + 8] == b;
    assert aes.enc(kek, b) == block;
    assert block[..8] == XorBytes(s.a, Counter(t)) && block[8..] == s.r[8 * i..8 * i + 8];
    XorBytesInverse(s.a, Counter(t));
    assert Put(u.r, i, block[8..]) == s.r;
  }

  lemma {:induction false} StepsForth(aes: Aes, kek: seq<byte>, n: nat, s: Registers, t: u32)
    requires 0 < n && |s.a| == 8 && |s.r| == 8 * n && EncInvertsDec(aes, kek)
    ensures WrapSteps(aes, kek, n, UnwrapSteps(aes, kek, n, s, t), t) == s
    decreases t
  {
    hide WrapStep, UnwrapStep, EncInvertsDec;
    if t != 0 {
      var u := UnwrapStep(aes, kek, n, s, t);
      StepsForth(aes, kek, n, u, t - 1);
      UnwrapUnfold(aes, kek, n, s, t);
      StepForth(aes, kek, n, s, t);
    }
  }

  /** THEOREM (integrity check, exact). For a cipher that is a permutation, exactly the wrapped keys unwrap:
      everything else fails the check. */
  lemma {:induction false} UnwrapIffWrap(aes: Aes, kek: seq<byte>, c: seq<byte>, key: seq<byte>)
    requires DecInvertsEnc(aes, kek) && EncInvertsDec(aes, kek)
    ensures Unwrap(aes, kek, c) == Some(key) <==> Wrappable(|key|) && c == Wrap(aes, kek, key)
  {
    hide WrapSteps, UnwrapSteps, DecInvertsEnc, EncInvertsDec;
    if Wrappable(|key|) && c == Wrap(aes, kek, key) {
      UnwrapOfWrap(aes, kek, key);
    }
    if Unwrap(aes, kek, c) == Some(key) {
      var n := (|c| - 8) / 8;
      StepsForth(aes, kek, n, Registers(c[..8], c[8..]), 6 * n);
      assert c == c[..8] + c[8..];
    }
  }

  lemma {:induction false} XorBytesInverse(a: seq<byte>, b: seq<byte>)
    requires |a| == |b|
    ensures XorBytes(XorBytes(a, b), b) == a
  {
    forall i | 0 <= i < |a| ensures XorBytes(XorBytes(a, b), b)[i] == a[i] {
      XorInverse(a[i], b[i]);
    }
  }

  /** One unwrap step undoes the wrap step of the same number. */
  lemma {:induction false} StepInverse(aes: Aes, kek: seq<byte>, n: nat, s: Registers, t: u32)
    requires 0 < n && 0 < t && |s.a| == 8 && |s.r| == 8 * n && DecInvertsEnc(aes, kek)
    ensures UnwrapStep(aes, kek, n, WrapStep(aes, kek, n, s, t), t) == s
  {
    var i := Index(t, n);
    var block: Block := s.a + Get(s.r, i);
    var b := aes.enc(kek, block);
    var w := WrapStep(aes, kek, n, s, t);
    XorBytesInverse(b[..8], Counter(t));
    assert w.r[8 * i..8 * i + 8] == b[8..];
    assert XorBytes(w.a, Counter(t)) + w.r[8 * i..8 * i + 8] == b;
    assert aes.dec(kek, b) == block;
    assert block[..8] == s.a && block[8..] == s.r[8 * i..8 * i + 8];
    assert Put(w.r, i, block[8..]) == s.r;
  }

  /** Unwrapping runs the wrap steps backwards. */
  lemma {:induction false} StepsInverse(aes: Aes, kek: seq<byte>, n: nat, s: Registers, t: u32)
    requires 0 < n && |s.a| == 8 && |s.r| == 8 * n && DecInvertsEnc(aes, kek)
    ensures UnwrapSteps(aes, kek, n, WrapSteps(aes, kek, n, s, t), t) == s
    decreases t
  {
    hide WrapStep, UnwrapStep, DecInvertsEnc;
    if t != 0 {
      var w := WrapSteps(aes, kek, n, s, t - 1);
      StepInverse(aes, kek, n, w, t);
      StepsInverse(aes, kek, n, s, t - 1);
    }
  }

  /** THEOREM (key wrap inverse). Every wrapped key unwraps, successfully, to itself. */
  lemma {:induction false} UnwrapOfWrap(aes: Aes, kek: seq<byte>, key: seq<byte>)
    requires Wrappable(|key|) && DecInvertsEnc(aes, kek)
    ensures Unwrap(aes, kek, Wrap(aes, kek, key)) == Some(key)
  {
    hide WrapSteps, UnwrapSteps;
    var n := |key| / 8;
    var s := WrapSteps(aes, kek, n, Registers(IV, key), 6 * n);
    var c := Wrap(aes, kek, key);
    StepsInverse(aes, kek, n, Registers(IV, key), 6 * n);
    assert c[..8] == s.a && c[8..] == s.r;
  }

  // ----- The in-place loops -----

  /** `base` steps are a whole number of rounds. */
  ghost predicate WholeRounds(base: nat, n: nat)
    requires 0 < n
    decreases base
  {
    base == 0 || (n <= base && WholeRounds(base - n, n))
  }

  lemma {:induction false} RowColumn(base: nat, n: nat, i: nat)
    requires i < n && WholeRounds(base, n)
    ensures Index(base + i + 1, n) == i
    decreases base
  {
    if base > 0 {
      RowColumn(base - n, n, i);
    }
  }

  lemma {:induction false} SixRounds(n: nat)
    requires 0 < n
    ensures WholeRounds(6 * n, n)
  {
    assert WholeRounds(0, n) && WholeRounds(n, n) && WholeRounds(2 * n, n);
    assert WholeRounds(3 * n, n) && WholeRounds(4 * n, n) && WholeRounds(5 * n, n);
  }

  /** `A ^= t` as the code does it: the three upper counter bytes only when they are not zero. */
  method XorCounter(a: seq<byte>, t: u32) returns (r: seq<byte>)
    requires |a| == 8
    ensures r == XorBytes(a, Counter(t))
  {
    hide Xor;
    r := a[7 := Xor(a[7], t % 0x100)];
    if t > 0xFF {
      r := r[6 := Xor(r[6], t / 0x100 % 0x100)];
      r := r[5 := Xor(r[5], t / 0x1_0000 % 0x100)];
      r := r[4 := Xor(r[4], t / 0x100_0000 % 0x100)];
    }
    ghost var c := Counter(t);
    assert t <= 0xFF ==> t / 0x100 == 0 && t / 0x1_0000 == 0 && t / 0x100_0000 == 0;
    assert c == [0, 0, 0, 0, t / 0x100_0000, t / 0x1_0000 % 0x100, t / 0x100 % 0x100, t % 0x100];
    forall i | 0 <= i < 7 {
      XorInverse(a[i], 0);
    }
    assert t / 0x100_0000 % 0x100 == t / 0x100_0000;
    assert r == [Xor(a[0], c[0]), Xor(a[1], c[1]), Xor(a[2], c[2]), Xor(a[3], c[3]),
                 Xor(a[4], c[4]), Xor(a[5], c[5]), Xor(a[6], c[6]), Xor(a[7], c[7])];
  }

  /** memcpy into a buffer. */
  method CopyTo(buf: array<byte>, ofs: nat, b: seq<byte>)
    requires ofs + |b| <= buf.Length
    modifies buf
    ensures buf[ofs..ofs + |b|] == b
    ensures buf[..ofs] == old(buf[..ofs]) && buf[ofs + |b|..] == old(buf[ofs + |b|..])
  {
    forall x | 0 <= x < |b| {
      buf[ofs + x] := b[x];
    }
  }

  /** memcpy of 8 bytes into a register of a buffer. */
  method Store(buf: array<byte>, ofs: nat, i: nat, b: seq<byte>, ghost len: nat)
    requires |b| == 8 && len % 8 == 0 && 8 * i + 8 <= len && ofs + len <= buf.Length
    modifies buf
    ensures buf[ofs..ofs + len] == Put(old(buf[ofs..ofs + len]), i, b)
    ensures buf[..ofs] == old(buf[..ofs]) && buf[ofs + len..] == old(buf[ofs + len..])
  {
    var at := ofs + 8 * i;
    forall x | 0 <= x < 8 {
      buf[at + x] := b[x];
    }
    assert buf[ofs..ofs + len] == buf[ofs..at] + buf[at..at + 8] + buf[at + 8..ofs + len];
    assert buf[at..at + 8] == b;
  }

  /** The 8 bytes of a register of a buffer. */
  method Load(buf: array<byte>, ofs: nat, i: nat, len: nat) returns (b: seq<byte>)
    requires 8 * i + 8 <= len && ofs + len <= buf.Length
    ensures |b| == 8 && b == Get(buf[ofs..ofs + len], i)
  {
    b := buf[ofs..ofs + len][8 * i..8 * i + 8];
  }

  /** Writes A in front of the registers. */
  method StoreHead(buf: array<byte>, a: seq<byte>, ghost len: nat)
    requires |a| == 8 && 8 + len <= buf.Length
    modifies buf
    ensures buf[..8 + len] == a + old(buf[8..8 + len])
    ensures buf[8 + len..] == old(buf[8 + len..])
  {
    forall x | 0 <= x < 8 {
      buf[x] := a[x];
    }
    assert buf[..8 + len] == buf[..8] + buf[8..8 + len];
    assert buf[..8] == a;
    assert buf[8..8 + len] == old(buf[8..8 + len]);
  }

  /** One pass over the registers of the wrap loop. */
  method WrapRound(aes: Aes, kek: seq<byte>, out: array<byte>, len: nat, n: nat, a0: seq<byte>, t0: u32,
                   ghost s0: Registers) returns (a: seq<byte>, t: u32)
    requires 0 < n && len == 8 * n && 8 + len <= out.Length && |s0.a| == 8 && |s0.r| == len
    requires 0 < t0 && WholeRounds(t0 - 1, n) && t0 + n < 0x1_0000_0000
    requires Registers(a0, out[8..8 + len]) == WrapSteps(aes, kek, n, s0, t0 - 1)
    modifies out
    ensures t == t0 + n
    ensures Registers(a, out[8..8 + len]) == WrapSteps(aes, kek, n, s0, t - 1)
    ensures out[8 + len..] == old(out[8 + len..])
  {
    hide WrapSteps, Put, Index, XorBytes, Counter;
    a, t := a0, t0;
    ghost var s := WrapSteps(aes, kek, n, s0, t0 - 1);
    var i := 0;
    while i < n
      invariant 0 <= i <= n && t == t0 + i
      invariant s == WrapSteps(aes, kek, n, s0, t - 1)
      invariant a == s.a && out[8..8 + len] == s.r
      invariant out[8 + len..] == old(out[8 + len..])
    {
      RowColumn(t0 - 1, n, i);
      WrapUnfold(aes, kek, n, s0, t);
      var r := Load(out, 8, i, len);
      var b := aes.enc(kek, a + r);
      a := XorCounter(b[..8], t);
      Store(out, 8, i, b[8..], len);
      s := WrapStep(aes, kek, n, s, t);
      t, i := t + 1, i + 1;
    }
  }

  lemma {:induction false} WrapUnfold(aes: Aes, kek: seq<byte>, n: nat, s: Registers, t: u32)
    requires 0 < n && 0 < t && |s.a| == 8 && |s.r| == 8 * n
    ensures WrapSteps(aes, kek, n, s, t) == WrapStep(aes, kek, n, WrapSteps(aes, kek, n, s, t - 1), t)
  {
  }

  lemma {:induction false} UnwrapUnfold(aes: Aes, kek: seq<byte>, n: nat, s: Registers, t: u32)
    requires 0 < n && 0 < t && |s.a| == 8 && |s.r| == 8 * n
    ensures UnwrapSteps(aes, kek, n, s, t) == UnwrapSteps(aes, kek, n, UnwrapStep(aes, kek, n, s, t), t - 1)
  {
  }

  /** `crysprFallback_AES_WrapKey`: rejects what is not a positive multiple of 8, else leaves the wrapped key in
      `out`. */
  method WrapKey(aes: Aes, kek: seq<byte>, out: array<byte>, input: seq<byte>) returns (rc: int)
    requires |input| < 0x1_0000_0000 && |input| + 8 <= out.Length
    modifies out
    ensures rc == if Wrappable(|input|) then 0 else -1
    ensures rc == 0 ==> out[..|input| + 8] == Wrap(aes, kek, input)
    ensures rc != 0 ==> out[..] == old(out[..])
    ensures out[|input| + 8..] == old(out[|input| + 8..])
  {
    hide WrapSteps;
    var inlen := |input|;
    if inlen % 8 != 0 || inlen < 8 {
      return -1;
    }
    var n := inlen / 8;
    ghost var s0 := Registers(IV, input);
    CopyTo(out, 8, input);
    var a, t := WrapRounds(aes, kek, out, inlen, n, s0);
    StoreHead(out, a, inlen);
    rc := 0;
  }

  /** The six passes. */
  method WrapRounds(aes: Aes, kek: seq<byte>, out: array<byte>, len: nat, n: nat, ghost s0: Registers)
    returns (a: seq<byte>, t: u32)
    requires 0 < n && len == 8 * n < 0x1_0000_0000 && 8 + len <= out.Length && s0.a == IV && |s0.r| == len
    requires out[8..8 + len] == s0.r
    modifies out
    ensures Registers(a, out[8..8 + len]) == WrapSteps(aes, kek, n, s0, 6 * n)
    ensures out[8 + len..] == old(out[8 + len..])
  {
    hide WrapSteps;
    a, t := IV, 1;
    WrapNone(aes, kek, n, s0);
    var j := 0;
    while j < 6
      invariant 0 <= j <= 6 && t == j * n + 1 && WholeRounds(t - 1, n)
      invariant Registers(a, out[8..8 + len]) == WrapSteps(aes, kek, n, s0, t - 1)
      invariant out[8 + len..] == old(out[8 + len..])
    {
      assert j * n + n == (j + 1) * n && (j + 1) * n <= 6 * n;
      a, t := WrapRound(aes, kek, out, len, n, a, t, s0);
      j := j + 1;
    }
  }

  lemma {:induction false} WrapNone(aes: Aes, kek: seq<byte>, n: nat, s: Registers)
    requires 0 < n && |s.a| == 8 && |s.r| == 8 * n
    ensures WrapSteps(aes, kek, n, s, 0) == s && UnwrapSteps(aes, kek, n, s, 0) == s
  {
  }

  /** One pass of the unwrap loop, from the last register to the first. */
  method UnwrapRound(aes: Aes, kek: seq<byte>, out: array<byte>, len: nat, n: nat, a0: seq<byte>, t0: u32,
                     ghost goal: Registers) returns (a: seq<byte>, t: u32)
    requires 0 < n && len == 8 * n && len <= out.Length && |a0| == 8
    requires n <= t0 && WholeRounds(t0 - n, n)
    requires goal == UnwrapSteps(aes, kek, n, Registers(a0, out[0..len]), t0)
    modifies out
    ensures t == t0 - n && |a| == 8
    ensures goal == UnwrapSteps(aes, kek, n, Registers(a, out[0..len]), t)
    ensures out[len..] == old(out[len..])
  {
    hide UnwrapSteps, Put, Index, XorBytes, Counter, Get;
    a, t := a0, t0;
    var i := 0;
    while i < n
      invariant 0 <= i <= n && t == t0 - i && |a| == 8
      invariant goal == UnwrapSteps(aes, kek, n, Registers(a, out[0..len]), t)
      invariant out[len..] == old(out[len..])
    {
      var at := n - 1 - i;
      RowColumn(t0 - n, n, at);
      UnwrapUnfold(aes, kek, n, Registers(a, out[0..len]), t);
      var r := Load(out, 0, at, len);
      a := XorCounter(a, t);
      var b := aes.dec(kek, a + r);
      a := b[..8];
      Store(out, 0, at, b[8..], len);
      t, i := t - 1, i + 1;
    }
  }

  /** The six passes. */
  method UnwrapRounds(aes: Aes, kek: seq<byte>, out: array<byte>, len: nat, n: nat, a0: seq<byte>)
    returns (a: seq<byte>)
    requires 0 < n && len == 8 * n < 0x1_0000_0000 && len <= out.Length && |a0| == 8
    modifies out
    ensures Registers(a, out[0..len]) == UnwrapSteps(aes, kek, n, Registers(a0, old(out[0..len])), 6 * n)
    ensures out[len..] == old(out[len..])
  {
    hide UnwrapSteps;
    a := a0;
    var t: u32 := 6 * n;
    SixRounds(n);
    ghost var goal := UnwrapSteps(aes, kek, n, Registers(a, out[0..len]), t);
    var j := 0;
    while j < 6
      invariant 0 <= j <= 6 && t == (6 - j) * n && |a| == 8 && WholeRounds(t, n)
      invariant goal == UnwrapSteps(aes, kek, n, Registers(a, out[0..len]), t)
      invariant out[len..] == old(out[len..])
    {
      assert (6 - j) * n == (6 - (j + 1)) * n + n && (6 - (j + 1)) * n >= 0;
      a, t := UnwrapRound(aes, kek, out, len, n, a, t, goal);
      j := j + 1;
    }
    WrapNone(aes, kek, n, Registers(a, out[0..len]));
  }

  /** `crysprFallback_AES_UnwrapKey`: on success `out` holds the key; on a failed integrity check it is zeroed.
      The length is computed as an unsigned 32-bit difference, so the input must not be empty. */
  method UnwrapKey(aes: Aes, kek: seq<byte>, out: array<byte>, input: seq<byte>) returns (rc: int)
    requires 0 < |input| < 0x1_0000_0000 && |input| <= out.Length + 8
    modifies out
    ensures rc == 0 <==> Unwrap(aes, kek, input).Some?
    ensures rc == 0 ==> out[..|input| - 8] == Unwrap(aes, kek, input).value
    ensures rc == 0 || rc == -1
    ensures rc == -1 && 8 < |input| && |input| % 8 == 0 ==> forall x :: 0 <= x < |input| - 8 ==> out[x] == 0
    ensures |input| % 8 != 0 || |input| == 8 ==> out[..] == old(out[..])
    ensures 8 <= |input| ==> out[|input| - 8..] == old(out[|input| - 8..])
  {
    hide UnwrapSteps;
    var inlen := (|input| - 8) % 0x1_0000_0000;
    if inlen % 8 != 0 {
      return -1;
    }
    if inlen < 8 {
      return -1;
    }
    var n := inlen / 8;
    CopyTo(out, 0, input[8..]);
    var a := UnwrapRounds(aes, kek, out, inlen, n, input[..8]);
    if a != IV {
      forall x | 0 <= x < inlen {
        out[x] := 0;
      }
      return -1;
    }
    assert out[0..inlen] == out[..inlen];
    rc := 0;
  }

  /** Wrapping into a buffer and unwrapping it out of place gives the key back. */
  method WrapThenUnwrap(aes: Aes, kek: seq<byte>, key: seq<byte>) returns (back: seq<byte>)
    requires Wrappable(|key|) && |key| < 0x1_0000_0000 - 8 && DecInvertsEnc(aes, kek)
    ensures back == key
  {
    hide Wrap, Unwrap;
    var c := new byte[|key| + 8](i => 0);
    var rc := WrapKey(aes, kek, c, key);
    assert c[..|key| + 8] == c[..];
    UnwrapOfWrap(aes, kek, key);
    var k := new byte[|key|](i => 0);
    rc := UnwrapKey(aes, kek, k, c[..]);
    back := k[..|key|];
  }
}
