/** The Keying Material message of HaiCrypt, byte by byte (srt-1.5.6/haicrypt: hcrypt_msg.h, hcrypt_ctx_tx.c,
    hcrypt_ctx_rx.c, hcrypt_xpt_srt.c). */
module KeyMaterial {
  import opened Bytes
  import opened KeyWrap

  const SALT_SZ := 16
  const KEY_MAX_SZ := 32
  const KM_OFS_SALT := 16
  const WRAP_SIGN_SZ := 8
  const CIPHER_AES_CTR: byte := 2
  const AUTH_NONE: byte := 0
  const SE_TSSRT: byte := 2

  /** The block cipher and PBKDF2, uninterpreted. */
  datatype Crypto = Crypto(aes: Aes, pbkdf2: (seq<byte>, seq<byte>, nat) -> seq<byte>)

  /** KEK = PBKDF2(password, last 8 bytes of the salt, key length) */
  function GenSecret(c: Crypto, pwd: seq<byte>, salt: seq<byte>, keyLen: nat): seq<byte> {
    c.pbkdf2(pwd, if |salt| >= 8 then salt[|salt| - 8..] else salt, keyLen)
  }

  predicate KeyLenOk(n: nat) {
    n == 16 || n == 24 || n == 32
  }

  /** The stream keys a message carries: the even one, the odd one, or both. */
  datatype Keys = Keys(even: Option<seq<byte>>, odd: Option<seq<byte>>)

  /** Slot 0 is the even key, slot 1 the odd one. */
  function KeyFor(k: Keys, slot: nat): Option<seq<byte>> {
    if slot == 0 then k.even else k.odd
  }

  predicate KeysOk(k: Keys, keyLen: nat) {
    && KeyLenOk(keyLen) && (k.even.Some? || k.odd.Some?)
    && (k.even.Some? ==> |k.even.value| == keyLen) && (k.odd.Some? ==> |k.odd.value| == keyLen)
  }

  function KeyFlags(k: Keys): byte {
    (if k.even.Some? then 1 else 0) + if k.odd.Some? then 2 else 0
  }

  predicate HasBothSek(msg: seq<byte>) {
    |msg| > 3 && msg[3] % 4 == 3
  }

  /** Even key first in a two-key message. */
  function KeyBytes(k: Keys): seq<byte> {
    (if k.even.Some? then k.even.value else []) + if k.odd.Some? then k.odd.value else []
  }

  lemma KeyBytesSize(k: Keys, keyLen: nat)
    requires KeysOk(k, keyLen)
    ensures |KeyBytes(k)| == keyLen || |KeyBytes(k)| == 2 * keyLen
    ensures |KeyBytes(k)| == 2 * keyLen <==> k.even.Some? && k.odd.Some?
    ensures Wrappable(|KeyBytes(k)|)
  {
  }

  function KmHeader(flags: byte, keyLen: nat): (h: seq<byte>)
    requires KeyLenOk(keyLen)
    ensures |h| == KM_OFS_SALT
  {
    [0x12, 0x20, 0x29, flags] + [0, 0, 0, 0] + [CIPHER_AES_CTR, AUTH_NONE, SE_TSSRT, 0]
      + [0, 0, SALT_SZ / 4, keyLen / 4]
  }

  /** The assembled message. */
  function KmMsg(c: Crypto, kek: seq<byte>, salt: seq<byte>, k: Keys, keyLen: nat): seq<byte>
    requires KeysOk(k, keyLen) && |salt| == SALT_SZ
  {
    KeyBytesSize(k, keyLen);
    KmHeader(KeyFlags(k), keyLen) + salt + Wrap(c.aes, kek, KeyBytes(k))
  }

  datatype KmFields = KmFields(flags: byte, salt: seq<byte>, sekLen: nat, wrapped: seq<byte>)

  /** `hcryptMsg_SRT_ParseMsg`: version 1, type KM, the vendor signature, the SRT encapsulation, and some key. */
  predicate IsKm(msg: seq<byte>) {
    && |msg| > KM_OFS_SALT
    && msg[0] / 16 % 16 == 1 && msg[0] % 16 == 2 && msg[1] == 0x20 && msg[2] == 0x29
    && msg[10] == SE_TSSRT && msg[3] % 4 != 0
  }

  function SekCount(msg: seq<byte>): nat {
    if HasBothSek(msg) then 2 else 1
  }

  /** The checks at the head of `hcryptCtx_Rx_ParseKM`, for a provider without AES-GCM. */
  function CheckKm(msg: seq<byte>): Option<KmFields> {
    if |msg| <= KM_OFS_SALT then None
    else
      var saltLen: nat := 4 * (msg[14] as int);
      var sekLen: nat := 4 * (msg[15] as int);
      if saltLen > SALT_SZ || sekLen > KEY_MAX_SZ then None
      else if !KeyLenOk(sekLen) then None
      else if |msg| != KM_OFS_SALT + saltLen + SekCount(msg) * sekLen + WRAP_SIGN_SZ then None
      else if msg[8] != CIPHER_AES_CTR then None
      else if msg[9] != AUTH_NONE then None
      else if msg[10] != SE_TSSRT then None
      else
        Some(KmFields(msg[3] % 4, msg[KM_OFS_SALT..KM_OFS_SALT + saltLen], sekLen, msg[KM_OFS_SALT + saltLen..]))
  }

  /** Byte by byte, what the head of a message must be to be accepted: the sizes, AES-CTR, no authentication, SRT. */
  lemma {:induction false} CheckedBytes(msg: seq<byte>)
    ensures CheckKm(msg).Some? <==>
            && |msg| > 16 && msg[14] <= 4 && (msg[15] == 4 || msg[15] == 6 || msg[15] == 8)
            && |msg| == 16 + 4 * (msg[14] as int) + (if msg[3] % 4 == 3 then 2 else 1) * (4 * (msg[15] as int)) + 8
            && msg[8] == 2 && msg[9] == 0 && msg[10] == 2
    ensures IsKm(msg) <==>
      |msg| > 16 && msg[0] == 0x12 && msg[1] == 0x20 && msg[2] == 0x29 && msg[10] == 2 && msg[3] % 4 != 0
  {
    if |msg| > 16 {
      HighLow(msg[0]);
    }
  }

  lemma {:induction false} HighLow(b: byte)
    ensures b / 16 % 16 == 1 && b % 16 == 2 <==> b == 0x12
  {
  }

  /** The head of an assembled message, byte by byte. */
  lemma {:induction false} KmHeaderBytes(c: Crypto, kek: seq<byte>, salt: seq<byte>, k: Keys, keyLen: nat)
    requires KeysOk(k, keyLen) && |salt| == SALT_SZ
    ensures var flags := if k.even.Some? && k.odd.Some? then 3 else if k.odd.Some? then 2 else 1;
            KmMsg(c, kek, salt, k, keyLen)[..32]
            == [0x12, 0x20, 0x29, flags, 0, 0, 0, 0, 2, 0, 2, 0, 0, 0, 4, keyLen / 4] + salt
  {
    hide Wrap;
    KeyBytesSize(k, keyLen);
    var h := KmHeader(KeyFlags(k), keyLen);
    assert KmMsg(c, kek, salt, k, keyLen)[..32] == h + salt;
  }

  /** The KEK is derived from the password, the last 8 bytes of the salt and the length of the key, and from nothing
      else. */
  lemma {:induction false} SecretFromSaltEnd(c: Crypto, pwd: seq<byte>, salt: seq<byte>, other: seq<byte>, keyLen: nat)
    requires |salt| == SALT_SZ
    ensures GenSecret(c, pwd, salt, keyLen)
            == c.pbkdf2(pwd, [salt[8], salt[9], salt[10], salt[11], salt[12], salt[13], salt[14], salt[15]], keyLen)
    ensures |other| == SALT_SZ && other[8..] == salt[8..] ==>
              GenSecret(c, pwd, other, keyLen) == GenSecret(c, pwd, salt, keyLen)
  {
    assert salt[8..] == [salt[8], salt[9], salt[10], salt[11], salt[12], salt[13], salt[14], salt[15]];
  }

  /** What a receiver sees in an assembled message. */
  lemma {:induction false} KmMsgFields(c: Crypto, kek: seq<byte>, salt: seq<byte>, k: Keys, keyLen: nat)
    requires KeysOk(k, keyLen) && |salt| == SALT_SZ
    ensures var msg := KmMsg(c, kek, salt, k, keyLen);
            && IsKm(msg) && msg[3] == KeyFlags(k)
            && (HasBothSek(msg) <==> k.even.Some? && k.odd.Some?)
            && CheckKm(msg) == Some(KmFields(KeyFlags(k), salt, keyLen, Wrap(c.aes, kek, KeyBytes(k))))
  {
    hide Wrap;
    KeyBytesSize(k, keyLen);
    var h := KmHeader(KeyFlags(k), keyLen);
    var w := Wrap(c.aes, kek, KeyBytes(k));
    var msg := KmMsg(c, kek, salt, k, keyLen);
    assert msg == h + salt + w;
    assert forall i :: 0 <= i < KM_OFS_SALT ==> msg[i] == h[i];
    assert msg[KM_OFS_SALT..KM_OFS_SALT + SALT_SZ] == salt;
    assert msg[KM_OFS_SALT + SALT_SZ..] == w;
  }

  /** The message determines its keys. */
  lemma {:induction false} KmMsgInjective(c: Crypto, kek: seq<byte>, salt: seq<byte>, k: Keys, l: Keys, keyLen: nat)
    requires KeysOk(k, keyLen) && KeysOk(l, keyLen) && |salt| == SALT_SZ && DecInvertsEnc(c.aes, kek)
    requires KmMsg(c, kek, salt, k, keyLen) == KmMsg(c, kek, salt, l, keyLen)
    ensures k == l
  {
    hide Wrap, Unwrap, KmMsg, CheckKm;
    KmMsgFields(c, kek, salt, k, keyLen);
    KmMsgFields(c, kek, salt, l, keyLen);
    KeyBytesSize(k, keyLen);
    KeyBytesSize(l, keyLen);
    UnwrapOfWrap(c.aes, kek, KeyBytes(k));
    UnwrapOfWrap(c.aes, kek, KeyBytes(l));
    assert KeyBytes(k) == KeyBytes(l) && KeyFlags(k) == KeyFlags(l);
    KeyBytesSplit(k, keyLen);
    KeyBytesSplit(l, keyLen);
  }

  /** Reading the keys back from their bytes. */
  lemma {:induction false} KeyBytesSplit(k: Keys, keyLen: nat)
    requires KeysOk(k, keyLen)
    ensures var b := KeyBytes(k);
            && |b| >= keyLen
            && (k.even.Some? ==> k.even.value == b[..keyLen])
            && (k.odd.Some? && k.even.None? ==> k.odd.value == b[..keyLen])
            && (k.odd.Some? && k.even.Some? ==> |b| == 2 * keyLen && k.odd.value == b[keyLen..])
    ensures k.even.Some? <==> KeyFlags(k) % 2 == 1
    ensures k.odd.Some? <==> KeyFlags(k) >= 2
  {
  }

  /** The keys a holder of `kek` finds in a message. */
  function Carried(c: Crypto, kek: seq<byte>, msg: seq<byte>): Keys {
    match CheckKm(msg)
    case None => Keys(None, None)
    case Some(f) =>
      match Unwrap(c.aes, kek, f.wrapped)
      case None => Keys(None, None)
      case Some(b) =>
        if f.flags == 1 then Keys(Some(b), None)
        else if f.flags == 2 then Keys(None, Some(b))
        else if f.flags == 3 && f.sekLen <= |b| then Keys(Some(b[..f.sekLen]), Some(b[f.sekLen..]))
        else Keys(None, None)
  }

  /** Round trip: the holder of the KEK finds exactly the keys that were assembled. */
  lemma {:induction false} CarriedOfKmMsg(c: Crypto, kek: seq<byte>, salt: seq<byte>, k: Keys, keyLen: nat)
    requires KeysOk(k, keyLen) && |salt| == SALT_SZ && DecInvertsEnc(c.aes, kek)
    ensures Carried(c, kek, KmMsg(c, kek, salt, k, keyLen)) == k
  {
    hide Wrap, Unwrap, KmMsg, CheckKm;
    KmMsgFields(c, kek, salt, k, keyLen);
    KeyBytesSize(k, keyLen);
    UnwrapOfWrap(c.aes, kek, KeyBytes(k));
    KeyBytesSplit(k, keyLen);
    assert k.even.Some? && k.odd.None? ==> KeyBytes(k) == k.even.value;
    assert k.odd.Some? && k.even.None? ==> KeyBytes(k) == k.odd.value;
  }
}
