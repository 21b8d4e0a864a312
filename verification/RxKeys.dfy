/** The receiver's key contexts (srt-1.5.6/haicrypt: hcrypt_ctx_rx.c, hcrypt_rx.c). */
module RxKeys {
  import opened Bytes
  import opened KeyWrap
  import opened KeyMaterial
  import opened TxKeys

  /** A receiving context; an empty salt and key mean that no message has reached it. */
  datatype RxCtx = RxCtx(status: Status, salt: seq<byte>, sek: seq<byte>, km: seq<byte>)

  /** `cur` is the context of the last data packet, if any; `kek` what the provider was last given. */
  datatype Rx = Rx(pair: seq<RxCtx>, cur: Option<nat>, kek: seq<byte>)

  datatype RxCfg = RxCfg(crypto: Crypto, pwd: seq<byte>)

  datatype RxResult = RxResult(rx: Rx, rc: int)

  const BLANK := RxCtx(Sardy, [], [], [])
  const NEW_RX := Rx([BLANK, BLANK], None, [])

  predicate RxShaped(r: Rx) {
    |r.pair| == 2 && (r.cur.Some? ==> r.cur.value < 2)
  }

  /** The context a message starts with: the inactive one for two keys, if there has been data. */
  function Picked(r: Rx, msg: seq<byte>, f: KmFields): (i: nat)
    requires RxShaped(r) && f.flags < 4
    ensures i < 2
  {
    if HasBothSek(msg) && r.cur.Some? then Alt(r.cur.value) else f.flags / 2
  }

  /** The key of context `i` in the unwrapped bytes: the even one comes first when there are two. */
  function KeyIn(msg: seq<byte>, f: KmFields, b: seq<byte>, i: nat): seq<byte>
    requires |b| == SekCount(msg) * f.sekLen
  {
    if HasBothSek(msg) && i == 1 then b[f.sekLen..2 * f.sekLen] else b[..f.sekLen]
  }

  /** The KEK after the rollback: derived again from the picked context. A context that no message has reached has a key
      length of 0, for which the derivation fails and the provider keeps the KEK it has just been given. */
  function RolledBack(cfg: RxCfg, ctx: RxCtx, tried: seq<byte>): seq<byte> {
    if KeyLenOk(|ctx.sek|) then GenSecret(cfg.crypto, cfg.pwd, ctx.salt, |ctx.sek|) else tried
  }

  /** `hcryptCtx_Rx_ParseKM` with a passphrase: 0, or -1 for a malformed message, or -2 for a secret that does not
      match. */
  function Parsed(cfg: RxCfg, r: Rx, msg: seq<byte>): RxResult
    requires RxShaped(r)
  {
    match CheckKm(msg)
    case None => RxResult(r, -1)
    case Some(f) =>
      var i := Picked(r, msg, f);
      var ctx := r.pair[i];
      var renew := f.salt != ctx.salt || f.sekLen != |ctx.sek|;
      var kek := if renew then GenSecret(cfg.crypto, cfg.pwd, f.salt, f.sekLen) else r.kek;
      match Unwrap(cfg.crypto.aes, kek, f.wrapped)
      case None =>
        RxResult(r.(kek := if renew then RolledBack(cfg, ctx, kek) else r.kek), -2)
      case Some(b) =>
        var one := r.pair[i := RxCtx(Keyed, f.salt, KeyIn(msg, f, b, i), msg)];
        var all := if HasBothSek(msg) then one[Alt(i) := RxCtx(Keyed, f.salt, KeyIn(msg, f, b, Alt(i)), msg)] else one;
        RxResult(r.(pair := all, kek := kek), 0)
  }

  /** The context a message is compared with first: the key flags of a data header read from the KEKI field, on a
      little-endian host. */
  function ComparedWith(msg: seq<byte>): (i: nat)
    requires |msg| > 7
    ensures i < 2
  {
    msg[7] / 8 % 4 / 2
  }

  /** Bit 28 of the word, where a data header has its odd-key flag. */
  lemma {:induction false} ComparedBit(msg: seq<byte>)
    requires |msg| > 7
    ensures ComparedWith(msg) == 1 <==> msg[7] / 16 % 2 == 1
  {
    var b: int := msg[7];
    assert b / 8 / 2 == b / 16;
    assert b / 8 % 4 / 2 == b / 8 / 2 % 2;
  }

  /** Which context a message is checked for. */
  lemma {:induction false} PickedIs(r: Rx, msg: seq<byte>)
    requires RxShaped(r) && CheckKm(msg).Some?
    ensures CheckKm(msg).value.flags < 4
    ensures var i := Picked(r, msg, CheckKm(msg).value);
            && (msg[3] % 4 == 3 && r.cur.Some? ==> i == 1 - r.cur.value)
            && (msg[3] % 4 == 3 && r.cur.None? ==> i == 1)
            && (msg[3] % 4 == 2 ==> i == 1) && (msg[3] % 4 == 1 ==> i == 0)
  {
    CheckedSizes(msg);
  }

  /** The Keying Material case of `HaiCrypt_Rx_Process`: a message already in the cache is skipped. */
  function Processed(cfg: RxCfg, r: Rx, msg: seq<byte>): RxResult
    requires RxShaped(r) && IsKm(msg)
  {
    if Skips(r, msg) then RxResult(r, 0) else Parsed(cfg, r, msg)
  }

  predicate Skips(r: Rx, msg: seq<byte>)
    requires RxShaped(r) && IsKm(msg)
  {
    var ctx := r.pair[ComparedWith(msg)];
    Rank(ctx.status) >= Rank(Keyed) && msg == ctx.km
  }

  class RxSession {
    const cfg: RxCfg
    var pair: seq<RxCtx>
    var cur: Option<nat>
    var kek: seq<byte>

    ghost function View(): Rx
      reads this
    {
      Rx(pair, cur, kek)
    }

    constructor (cfg: RxCfg)
      ensures this.cfg == cfg && View() == NEW_RX
    {
      this.cfg := cfg;
      pair, cur, kek := [BLANK, BLANK], None, [];
    }

    /** Works on a copy of the picked context and commits it only after the keys have been unwrapped. */
    method ParseKm(msg: seq<byte>) returns (rc: int)
      requires RxShaped(View())
      modifies this`pair, this`kek
      ensures RxResult(View(), rc) == Parsed(cfg, old(View()), msg)
    {
      hide Unwrap, CheckKm;
      var checked := CheckKm(msg);
      if checked.None? {
        return -1;
      }
      var f := checked.value;
      assert f.flags < 4 && f.wrapped == msg[KM_OFS_SALT + |f.salt|..]
             && |f.wrapped| == SekCount(msg) * f.sekLen + WRAP_SIGN_SZ by { CheckedSizes(msg); }
      var i := if HasBothSek(msg) && cur.Some? then Alt(cur.value) else f.flags / 2;
      var copy := pair[i];
      var renew := false;
      if f.salt != copy.salt {
        copy := copy.(salt := f.salt);
        renew := true;
      }
      if f.sekLen != |copy.sek| {
        renew := true;
      }
      if renew {
        kek := GenSecret(cfg.crypto, cfg.pwd, copy.salt, f.sekLen);
        copy := copy.(status := Sardy);
      }
      var unwrapped := Unwrap(cfg.crypto.aes, kek, f.wrapped);
      if unwrapped.None? {
        if renew && KeyLenOk(|pair[i].sek|) {
          kek := GenSecret(cfg.crypto, cfg.pwd, pair[i].salt, |pair[i].sek|);
        }
        return -2;
      }
      var b := unwrapped.value;
      copy := copy.(sek := if HasBothSek(msg) && i == 1 then b[f.sekLen..2 * f.sekLen] else b[..f.sekLen],
                    status := Keyed);
      copy := copy.(km := msg);
      pair := pair[i := copy];
      if HasBothSek(msg) {
        var alt := pair[Alt(i)];
        alt := alt.(salt := f.salt);
        alt := alt.(sek := if Alt(i) == 1 then b[f.sekLen..2 * f.sekLen] else b[..f.sekLen], status := Keyed);
        alt := alt.(km := msg);
        pair := pair[Alt(i) := alt];
      }
      rc := 0;
    }

    method ProcessKm(msg: seq<byte>) returns (rc: int)
      requires RxShaped(View()) && IsKm(msg)
      modifies this`pair, this`kek
      ensures RxResult(View(), rc) == Processed(cfg, old(View()), msg)
    {
      hide Parsed;
      var ctx := pair[ComparedWith(msg)];
      if Rank(ctx.status) < Rank(Keyed) || |msg| != |ctx.km| || msg != ctx.km {
        rc := ParseKm(msg);
      } else {
        rc := 0;
      }
    }

    /** `HaiCrypt_Rx_Data`: the key a packet of `slot` is decrypted with, if there is one. */
    method Data(slot: nat) returns (key: Option<seq<byte>>)
      requires RxShaped(View()) && slot < 2
      modifies this`cur
      ensures cur == Some(slot)
      ensures key == if Rank(pair[slot].status) >= Rank(Keyed) then Some(pair[slot].sek) else None
    {
      cur := Some(slot);
      key := if Rank(pair[slot].status) >= Rank(Keyed) then Some(pair[slot].sek) else None;
    }
  }

  lemma {:induction false} CheckedSizes(msg: seq<byte>)
    requires CheckKm(msg).Some?
    ensures var f := CheckKm(msg).value;
            && f.flags < 4 && |f.salt| <= SALT_SZ && KeyLenOk(f.sekLen)
            && |msg| >= KM_OFS_SALT + |f.salt| && f.wrapped == msg[KM_OFS_SALT + |f.salt|..]
            && |f.wrapped| == SekCount(msg) * f.sekLen + WRAP_SIGN_SZ
  {
  }

  /** THEOREM (rejection). Whatever the receiver and the message: a rejected message leaves both contexts and the
      choice of the current one alone, and a malformed one the KEK too. The result is 0, -1 or -2; it is -1 exactly
      for a message whose head does not check. */
  lemma {:induction false} RejectedLeavesContexts(cfg: RxCfg, r: Rx, msg: seq<byte>)
    requires RxShaped(r)
    ensures var t := Parsed(cfg, r, msg);
            && (t.rc == 0 || t.rc == -1 || t.rc == -2)
            && (t.rc < 0 ==> t.rx.pair == r.pair && t.rx.cur == r.cur)
            && (t.rc == -1 ==> t.rx == r) && (t.rc == -1 <==> CheckKm(msg).None?)
  {
    hide Unwrap;
    if CheckKm(msg).Some? {
      CheckedSizes(msg);
    }
  }

  /** Whether a message is checked under a KEK of its own: its salt or key length is not that of the picked context. */
  predicate Renews(r: Rx, msg: seq<byte>, f: KmFields)
    requires RxShaped(r) && f.flags < 4
  {
    f.salt != r.pair[Picked(r, msg, f)].salt || f.sekLen != |r.pair[Picked(r, msg, f)].sek|
  }

  /** Which KEK a well-formed message is unwrapped with, and when it is refused. */
  lemma {:induction false} RefusedIff(cfg: RxCfg, r: Rx, msg: seq<byte>)
    requires RxShaped(r) && CheckKm(msg).Some?
    ensures var f := CheckKm(msg).value;
            && f.flags < 4
            && var kek := if Renews(r, msg, f) then GenSecret(cfg.crypto, cfg.pwd, f.salt, f.sekLen) else r.kek;
               Parsed(cfg, r, msg).rc == -2 <==> Unwrap(cfg.crypto.aes, kek, f.wrapped).None?
  {
    hide Unwrap;
    CheckedSizes(msg);
  }
}
