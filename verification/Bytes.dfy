/** Machine integers, big-endian fields and flag bits, as the tunnel and HaiCrypt put them on the wire, and a few
    facts about collections. */
module Bytes {
  type byte = x: int | 0 <= x < 0x100
  type u16 = x: int | 0 <= x < 0x1_0000
  type u32 = x: int | 0 <= x < 0x1_0000_0000

  datatype Option<+T> = None | Some(value: T)

  function FromBe16(hi: byte, lo: byte): u16 {
    hi * 0x100 + lo
  }

  function Be16(v: u16): (b: seq<byte>)
    ensures |b| == 2 && FromBe16(b[0], b[1]) == v
  {
    [v / 0x100, v % 0x100]
  }

  function FromBe32(b0: byte, b1: byte, b2: byte, b3: byte): u32 {
    ((b0 * 0x100 + b1) * 0x100 + b2) * 0x100 + b3
  }

  function Be32(v: u32): (b: seq<byte>)
    ensures |b| == 4 && FromBe32(b[0], b[1], b[2], b[3]) == v
  {
    [v / 0x100_0000, v / 0x1_0000 % 0x100, v / 0x100 % 0x100, v % 0x100]
  }

  const FLAG_RELIABLE: byte := 0x04
  const FLAG_DIR_ACCEPT: byte := 0x10

  /** `f & FLAG_DIR_ACCEPT != 0` */
  predicate HasDirAccept(f: byte) {
    f / 0x10 % 2 == 1
  }

  /** `f & FLAG_RELIABLE != 0` */
  predicate HasReliable(f: byte) {
    f / 0x04 % 2 == 1
  }

  /** All bits but FLAG_RELIABLE and FLAG_DIR_ACCEPT are the same. */
  predicate SameOtherBits(f: byte, g: byte) {
    f % 0x04 == g % 0x04 && f / 0x08 % 2 == g / 0x08 % 2 && f / 0x20 == g / 0x20
  }

  /** Reading the fields of a byte written as a sum of its bits. */
  lemma {:induction false} BitFields(f: int, high: nat, dir: nat, window: nat, rel: nat, low: nat)
    requires f == 32 * high + 16 * dir + 8 * window + 4 * rel + low
    requires dir < 2 && window < 2 && rel < 2 && low < 4
    ensures f / 0x20 == high && f / 0x10 % 2 == dir && f / 0x08 % 2 == window && f / 0x04 % 2 == rel && f % 0x04 == low
  {
    var quarter := 8 * high + 4 * dir + 2 * window + rel;
    assert f / 0x04 == quarter && f % 0x04 == low;
    Halved(quarter, 4 * high + 2 * dir + window, rel);
    Halved(4 * high + 2 * dir + window, 2 * high + dir, window);
    Halved(2 * high + dir, high, dir);
    EighthsByHalves(f);
  }

  lemma {:induction false} Halved(n: int, q: int, r: nat)
    requires n == 2 * q + r && r < 2
    ensures n / 2 == q && n % 2 == r
  {
  }

  lemma {:induction false} EighthsByHalves(n: int)
    ensures n / 0x08 == n / 0x04 / 2 && n / 0x10 == n / 0x08 / 2 && n / 0x20 == n / 0x10 / 2
  {
  }

  /** Every byte is such a sum. */
  lemma {:induction false} BitSum(f: byte)
    ensures f == 32 * (f / 0x20) + 16 * (f / 0x10 % 2) + 8 * (f / 0x08 % 2) + 4 * (f / 0x04 % 2) + f % 0x04
  {
    EighthsByHalves(f);
  }

  /** `f | FLAG_DIR_ACCEPT` */
  function SetDirAccept(f: byte): (r: byte)
    ensures HasDirAccept(r) && HasReliable(r) == HasReliable(f) && SameOtherBits(r, f)
  {
    BitSum(f);
    if HasDirAccept(f) then f
    else
      BitFields(f + FLAG_DIR_ACCEPT, f / 0x20, 1, f / 0x08 % 2, f / 0x04 % 2, f % 0x04);
      f + FLAG_DIR_ACCEPT
  }

  /** `f | FLAG_RELIABLE` */
  function SetReliable(f: byte): (r: byte)
    ensures HasReliable(r) && HasDirAccept(r) == HasDirAccept(f) && SameOtherBits(r, f)
  {
    BitSum(f);
    if HasReliable(f) then f
    else
      BitFields(f + FLAG_RELIABLE, f / 0x20, f / 0x10 % 2, f / 0x08 % 2, 1, f % 0x04);
      f + FLAG_RELIABLE
  }

  lemma {:induction false} SubsetSize<T>(a: set<T>, b: set<T>)
    requires a <= b
    ensures |a| <= |b|
    decreases a
  {
    if a != {} {
      var x :| x in a;
      SubsetSize(a - {x}, b - {x});
    }
  }

  /** The elements that satisfy `p`, in order. */
  function Filter<T>(s: seq<T>, p: T -> bool): seq<T> {
    if s == [] then []
    else Filter(s[..|s| - 1], p) + if p(s[|s| - 1]) then [s[|s| - 1]] else []
  }

  lemma {:induction false} FilterOne<T>(x: T, p: T -> bool)
    ensures Filter([x], p) == if p(x) then [x] else []
  {
    assert [x][..0] == [];
  }

  lemma {:induction false} FilterConcat<T>(a: seq<T>, b: seq<T>, p: T -> bool)
    ensures Filter(a + b, p) == Filter(a, p) + Filter(b, p)
    decreases |b|
  {
    if b == [] {
      assert a + b == a;
    } else {
      FilterConcat(a, b[..|b| - 1], p);
      assert (a + b)[..|a + b| - 1] == a + b[..|b| - 1];
    }
  }
}
