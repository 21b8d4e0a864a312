/** Sender and receiver agree on the key of every packet, over every run of the sender and every arrival order of data
    (srt-1.5.6/haicrypt: hcrypt_ctx_tx.c, hcrypt_ctx_rx.c, hcrypt_rx.c). */
module KeyAgreement {
  import opened Bytes
  import opened KeyWrap
  import opened KeyMaterial
  import opened TxKeys
  import opened KeyRotation
  import opened KeyFreshness
  import opened RxKeys

  // ----- The effect of one message -----

  /** A context that no message has reached, or one keyed under the session's salt. */
  ghost predicate CtxSound(c: RxCtx, salt: seq<byte>, keyLen: nat) {
    c == BLANK || (c.status.Keyed? && c.salt == salt && |c.sek| == keyLen)
  }

  /** Once any context is keyed, the provider holds the session's KEK. */
  ghost predicate Sound(cfg: TxCfg, salt: seq<byte>, kek: seq<byte>, r: Rx) {
    && RxShaped(r) && |salt| == SALT_SZ && KeyLenOk(cfg.keyLen)
    && CtxSound(r.pair[0], salt, cfg.keyLen) && CtxSound(r.pair[1], salt, cfg.keyLen)
    && (r.pair[0].status.Keyed? || r.pair[1].status.Keyed? ==> r.kek == kek)
  }

  /** `c` after a message that carries `key` for it. */
  function Rekeyed(c: RxCtx, key: Option<seq<byte>>, salt: seq<byte>, msg: seq<byte>): RxCtx {
    if key.Some? then RxCtx(Keyed, salt, key.value, msg) else c
  }

  /** Parsing an assembled message succeeds and sets exactly the contexts whose keys it carries. */
  lemma {:induction false} ParseEffect(cfg: TxCfg, salt: seq<byte>, kek: seq<byte>, r: Rx, keys: Keys)
    requires Sound(cfg, salt, kek, r) && KeysOk(keys, cfg.keyLen) && DecInvertsEnc(cfg.crypto.aes, kek)
    requires kek == GenSecret(cfg.crypto, cfg.pwd, salt, cfg.keyLen)
    ensures var msg := KmMsg(cfg.crypto, kek, salt, keys, cfg.keyLen);
            Parsed(RxCfg(cfg.crypto, cfg.pwd), r, msg)
            == RxResult(Rx([Rekeyed(r.pair[0], keys.even, salt, msg), Rekeyed(r.pair[1], keys.odd, salt, msg)],
                           r.cur, kek), 0)
  {
    hide KmMsg, Wrap, Unwrap, CheckKm, HasBothSek, GenSecret;
    var msg := KmMsg(cfg.crypto, kek, salt, keys, cfg.keyLen);
    KmMsgFields(cfg.crypto, kek, salt, keys, cfg.keyLen);
    KeyBytesSize(keys, cfg.keyLen);
    UnwrapOfWrap(cfg.crypto.aes, kek, KeyBytes(keys));
    KeyBytesSplit(keys, cfg.keyLen);
    var f := CheckKm(msg).value;
    var i := Picked(r, msg, f);
    var renew := f.salt != r.pair[i].salt || f.sekLen != |r.pair[i].sek|;
    assert !renew ==> r.pair[i] != BLANK;
    assert (if renew then GenSecret(cfg.crypto, cfg.pwd, f.salt, f.sekLen) else r.kek) == kek;
    var b := KeyBytes(keys);
    assert |b| == 2 * cfg.keyLen ==> b[cfg.keyLen..2 * cfg.keyLen] == b[cfg.keyLen..];
    assert keys.even.Some? ==> KeyIn(msg, f, b, 0) == keys.even.value;
    assert keys.odd.Some? ==> KeyIn(msg, f, b, 1) == keys.odd.value;
  }

  /** A message found in the even context's cache changes nothing: its keys are already in place. */
  ghost predicate SkipSound(cfg: TxCfg, salt: seq<byte>, kek: seq<byte>, r: Rx, keys: Keys)
    requires KeysOk(keys, cfg.keyLen) && |salt| == SALT_SZ && RxShaped(r)
  {
    var msg := KmMsg(cfg.crypto, kek, salt, keys, cfg.keyLen);
    r.pair[0].status.Keyed? && r.pair[0].km == msg ==>
      && (keys.even.Some? ==> r.pair[0].sek == keys.even.value)
      && (keys.odd.Some? ==> r.pair[1].status.Keyed? && r.pair[1].sek == keys.odd.value)
  }

  /** Slot by slot, a receiver that has processed the message holds its keys and has kept the others. */
  ghost predicate Holds(r: Rx, before: Rx, keys: Keys)
    requires RxShaped(r) && RxShaped(before)
  {
    forall slot :: 0 <= slot < 2 ==>
      match KeyFor(keys, slot)
      case Some(x) => r.pair[slot].status.Keyed? && r.pair[slot].sek == x
      case None => r.pair[slot].status == before.pair[slot].status && r.pair[slot].sek == before.pair[slot].sek
  }

  lemma {:induction false} ProcessEffect(cfg: TxCfg, salt: seq<byte>, kek: seq<byte>, r: Rx, keys: Keys)
    requires Sound(cfg, salt, kek, r) && KeysOk(keys, cfg.keyLen) && DecInvertsEnc(cfg.crypto.aes, kek)
    requires kek == GenSecret(cfg.crypto, cfg.pwd, salt, cfg.keyLen) && SkipSound(cfg, salt, kek, r, keys)
    ensures var msg := KmMsg(cfg.crypto, kek, salt, keys, cfg.keyLen);
            && IsKm(msg)
            && var t := Processed(RxCfg(cfg.crypto, cfg.pwd), r, msg);
               && t.rc == 0 && Sound(cfg, salt, kek, t.rx) && t.rx.cur == r.cur && Holds(t.rx, r, keys)
               && (keys.even.Some? ==> t.rx.pair[0].km == msg)
               && (keys.even.None? ==> t.rx.pair[0].km == r.pair[0].km)
  {
    hide KmMsg, Parsed, GenSecret, IsKm;
    var msg := KmMsg(cfg.crypto, kek, salt, keys, cfg.keyLen);
    KmMsgFields(cfg.crypto, kek, salt, keys, cfg.keyLen);
    ComparesEven(cfg, salt, kek, keys);
    ParseEffect(cfg, salt, kek, r, keys);
  }

  lemma {:induction false} ComparesEven(cfg: TxCfg, salt: seq<byte>, kek: seq<byte>, keys: Keys)
    requires KeysOk(keys, cfg.keyLen) && |salt| == SALT_SZ
    ensures |KmMsg(cfg.crypto, kek, salt, keys, cfg.keyLen)| > 7
    ensures ComparedWith(KmMsg(cfg.crypto, kek, salt, keys, cfg.keyLen)) == 0
  {
    hide Wrap;
    var h := KmHeader(KeyFlags(keys), cfg.keyLen);
    KeyBytesSize(keys, cfg.keyLen);
    assert KmMsg(cfg.crypto, kek, salt, keys, cfg.keyLen)[7] == h[7] == 0;
  }

  // ----- The receiver against what it has processed -----

  /** The last message before `n` that carries the even key. */
  function LastEven(h: seq<Item>, n: nat): (e: Option<nat>)
    requires n <= |h|
    ensures e.Some? ==> e.value < n && h[e.value].KmSent? && h[e.value].keys.even.Some?
  {
    if n == 0 then None
    else if h[n - 1].KmSent? && h[n - 1].keys.even.Some? then Some(n - 1)
    else LastEven(h, n - 1)
  }

  lemma {:induction false} LastEvenIs(h: seq<Item>, n: nat)
    requires n <= |h|
    ensures var e := LastEven(h, n);
            && (e.Some? <==> KeyAt(h, n, 0).Some?)
            && (e.Some? ==> KeyAt(h, n, 0) == h[e.value].keys.even)
    decreases n
  {
    if n > 0 {
      LastEvenIs(h, n - 1);
    }
  }

  lemma {:induction false} LastEvenPrefix(h: seq<Item>, more: seq<Item>, n: nat)
    requires n <= |h|
    ensures LastEven(h + more, n) == LastEven(h, n)
    decreases n
  {
    if n > 0 {
      LastEvenPrefix(h, more, n - 1);
    }
  }

  ghost predicate AllAuthentic(cfg: TxCfg, salt: seq<byte>, kek: seq<byte>, h: seq<Item>) {
    forall i :: 0 <= i < |h| ==> h[i].KmSent? && Authentic(cfg, salt, kek, h[i])
  }

  /** The receiver has processed the messages of `h`, in that order. */
  ghost predicate Follows(cfg: TxCfg, salt: seq<byte>, kek: seq<byte>, r: Rx, h: seq<Item>) {
    && Sound(cfg, salt, kek, r)
    && (forall slot :: 0 <= slot < 2 ==>
          match KeyAt(h, |h|, slot)
          case Some(x) => r.pair[slot].status.Keyed? && r.pair[slot].sek == x
          case None => r.pair[slot].status.Sardy?)
    && (LastEven(h, |h|).Some? ==> r.pair[0].km == h[LastEven(h, |h|).value].msg)
  }

  /** A message with the keys of the one cached in the even context brings no odd key that is not in place. */
  ghost predicate SkipSafe(h: seq<Item>, keys: Keys) {
    LastEven(h, |h|).Some? && h[LastEven(h, |h|).value].keys == keys && keys.odd.Some? ==>
      KeyAt(h, |h|, 1) == keys.odd
  }

  lemma {:induction false} SkipIsSound(cfg: TxCfg, salt: seq<byte>, kek: seq<byte>, r: Rx, h: seq<Item>, it: Item)
    requires AllAuthentic(cfg, salt, kek, h) && Follows(cfg, salt, kek, r, h)
    requires it.KmSent? && Authentic(cfg, salt, kek, it) && SkipSafe(h, it.keys) && DecInvertsEnc(cfg.crypto.aes, kek)
    ensures KeysOk(it.keys, cfg.keyLen) && SkipSound(cfg, salt, kek, r, it.keys)
  {
    hide KmMsg;
    LastEvenIs(h, |h|);
    if r.pair[0].status.Keyed? && r.pair[0].km == it.msg {
      var e := LastEven(h, |h|).value;
      KmMsgInjective(cfg.crypto, kek, salt, h[e].keys, it.keys, cfg.keyLen);
    }
  }

  /** Processing one more message. */
  lemma {:induction false} KmArrives(cfg: TxCfg, salt: seq<byte>, kek: seq<byte>, r: Rx, h: seq<Item>, it: Item)
    requires AllAuthentic(cfg, salt, kek, h) && Follows(cfg, salt, kek, r, h)
    requires it.KmSent? && Authentic(cfg, salt, kek, it) && SkipSafe(h, it.keys) && DecInvertsEnc(cfg.crypto.aes, kek)
    requires kek == GenSecret(cfg.crypto, cfg.pwd, salt, cfg.keyLen)
    ensures IsKm(it.msg)
    ensures var t := Processed(RxCfg(cfg.crypto, cfg.pwd), r, it.msg);
            t.rc == 0 && Follows(cfg, salt, kek, t.rx, h + [it])
  {
    hide KmMsg, Processed, GenSecret, IsKm, Sound, SkipSafe, AllAuthentic;
    assert RxShaped(r) && |salt| == SALT_SZ by { SoundShape(cfg, salt, kek, r); }
    SkipIsSound(cfg, salt, kek, r, h, it);
    ProcessEffect(cfg, salt, kek, r, it.keys);
    var t := Processed(RxCfg(cfg.crypto, cfg.pwd), r, it.msg).rx;
    SoundShape(cfg, salt, kek, t);
    KeyAtPrefix(h, [it], |h|, 0);
    KeyAtPrefix(h, [it], |h|, 1);
    LastEvenPrefix(h, [it], |h|);
    assert (h + [it])[|h|] == it;
  }

  lemma {:induction false} SoundShape(cfg: TxCfg, salt: seq<byte>, kek: seq<byte>, r: Rx)
    requires Sound(cfg, salt, kek, r)
    ensures RxShaped(r) && |salt| == SALT_SZ
  {
  }

  // ----- Losses that do no harm -----

  /** Positions of messages in the log. */
  ghost predicate HistIn(log: seq<Item>, hist: seq<nat>) {
    forall i :: 0 <= i < |hist| ==> hist[i] < |log| && log[hist[i]].KmSent?
  }

  /** In the order in which they were sent, with repeats. */
  ghost predicate InOrder(hist: seq<nat>) {
    forall i, j :: 0 <= i < j < |hist| ==> hist[i] <= hist[j]
  }

  function Items(log: seq<Item>, hist: seq<nat>): (h: seq<Item>)
    requires forall i :: 0 <= i < |hist| ==> hist[i] < |log|
  {
    seq(|hist|, i requires 0 <= i < |hist| => log[hist[i]])
  }

  /** How far into the log the processed messages reach. */
  function Seen(hist: seq<nat>): nat {
    if hist == [] then 0 else hist[|hist| - 1] + 1
  }

  /** A message all of whose keys have been announced before, as the latest of their slots. */
  ghost predicate Repeats(log: seq<Item>, i: nat)
    requires i < |log|
  {
    log[i].KmSent? ==> forall slot :: 0 <= slot < 2 && KeyFor(log[i].keys, slot).Some? ==>
      KeyAt(log, i, slot) == KeyFor(log[i].keys, slot)
  }

  ghost predicate OnlyRepeats(log: seq<Item>, lo: nat, hi: nat)
    requires hi <= |log|
  {
    forall i :: lo <= i < hi ==> Repeats(log, i)
  }

  lemma {:induction false} KeyAtRepeats(log: seq<Item>, lo: nat, hi: nat, slot: nat)
    requires lo <= hi <= |log| && OnlyRepeats(log, lo, hi) && slot < 2
    ensures KeyAt(log, hi, slot) == KeyAt(log, lo, slot)
    decreases hi
  {
    if hi > lo {
      KeyAtRepeats(log, lo, hi - 1, slot);
      assert Repeats(log, hi - 1);
    }
  }

  /** The receiver's keys are those of the log so far, and the odd one is that of the message in the even cache, if that
      carries one. */
  ghost predicate InSync(log: seq<Item>, hist: seq<nat>)
    requires HistIn(log, hist)
  {
    var h := Items(log, hist);
    && (forall slot :: 0 <= slot < 2 ==> KeyAt(h, |h|, slot) == KeyAt(log, Seen(hist), slot))
    && (LastEven(h, |h|).Some? ==>
          var odd := h[LastEven(h, |h|).value].keys.odd; odd.Some? ==> KeyAt(h, |h|, 1) == odd)
  }

  lemma {:induction false} ItemsSnoc(log: seq<Item>, hist: seq<nat>, j: nat)
    requires HistIn(log, hist) && j < |log|
    ensures (forall i :: 0 <= i < |hist + [j]| ==> (hist + [j])[i] < |log|)
    ensures Items(log, hist + [j]) == Items(log, hist) + [log[j]]
  {
  }

  lemma {:induction false} SyncKept(cfg: TxCfg, salt: seq<byte>, kek: seq<byte>, log: seq<Item>, hist: seq<nat>, j: nat)
    requires LogOk(cfg, salt, kek, log) && HistIn(log, hist) && InSync(log, hist)
    requires j < |log| && log[j].KmSent? && Seen(hist) <= j + 1 && OnlyRepeats(log, Seen(hist), j)
    ensures HistIn(log, hist + [j]) && InSync(log, hist + [j])
  {
    hide LogOk, OnlyRepeats;
    var h, it := Items(log, hist), log[j];
    ItemsSnoc(log, hist, j);
    KeyAtPrefix(h, [it], |h|, 0);
    KeyAtPrefix(h, [it], |h|, 1);
    LastEvenPrefix(h, [it], |h|);
    if Seen(hist) <= j {
      KeyAtRepeats(log, Seen(hist), j, 0);
      KeyAtRepeats(log, Seen(hist), j, 1);
    }
    OddOnlyRepeats(cfg, salt, kek, log, j);
  }

  /** A message with the odd key alone repeats it. */
  lemma {:induction false} OddOnlyRepeats(cfg: TxCfg, salt: seq<byte>, kek: seq<byte>, log: seq<Item>, j: nat)
    requires LogOk(cfg, salt, kek, log) && j < |log| && log[j].KmSent?
    ensures log[j].keys.even.None? ==> log[j].keys.odd.Some? && KeyAt(log, j, 1) == log[j].keys.odd
  {
    assert Authentic(cfg, salt, kek, log[j]) && Announces(log, j);
    var keys := log[j].keys;
    if keys.even.None? {
      assert KeyFor(keys, 1) == keys.odd && KeyFor(keys, 0) == None && j > 0;
      assert KeyAt(log, j, 1) == KeyFor(keys, 1);
    }
  }

  lemma {:induction false} SyncIsSkipSafe(log: seq<Item>, hist: seq<nat>, keys: Keys)
    requires HistIn(log, hist) && InSync(log, hist)
    ensures SkipSafe(Items(log, hist), keys)
  {
  }

  lemma {:induction false} FreshIsSkipSafe(log: seq<Item>, hist: seq<nat>, j: nat)
    requires HistIn(log, hist) && InOrder(hist) && NoKeyReturns(log)
    requires j < |log| && log[j].KmSent? && Seen(hist) <= j + 1
    ensures SkipSafe(Items(log, hist), log[j].keys)
  {
    hide KeyAt, LastEven;
    var h, keys := Items(log, hist), log[j].keys;
    if LastEven(h, |h|).Some? && h[LastEven(h, |h|).value].keys == keys && keys.odd.Some? {
      var e := LastEven(h, |h|).value;
      HasCarrier(h, |h|, e, 1);
      var y := KeyAt(h, |h|, 1).value;
      var b := LastCarrier(h, |h|, 1, y);
      if b >= e {
        assert hist[e] <= hist[b] <= j;
        assert CarriesKey(log, hist[e], 1, keys.odd.value) && CarriesKey(log, hist[b], 1, y);
        assert CarriesKey(log, j, 1, keys.odd.value);
      }
    }
  }

  lemma {:induction false} HasCarrier(h: seq<Item>, n: nat, e: nat, slot: nat)
    requires e < n <= |h| && h[e].KmSent? && KeyFor(h[e].keys, slot).Some?
    ensures KeyAt(h, n, slot).Some?
    decreases n
  {
    if e < n - 1 {
      HasCarrier(h, n - 1, e, slot);
    }
  }

  // ----- Arrivals -----

  /** The position in the sender's log of what arrives; or a message that is not the sender's. */
  datatype Arrival = KmIn(at: nat) | PktIn(at: nat) | BadIn(msg: seq<byte>)

  /** The receiver, the positions of the messages that came, and of those among them that it parsed: the others it
      skipped as already cached. */
  datatype Reception = Reception(rx: Rx, came: seq<nat>, parsed: seq<nat>)

  const NEW_RECEPTION := Reception(NEW_RX, [], [])

  /** A message that is rejected, without the KEK of a keyed receiver being lost over it; `RollbackKeepsIff` says when
      that is. */
  ghost predicate Harmless(cfg: RxCfg, r: Rx, msg: seq<byte>)
    requires RxShaped(r) && IsKm(msg)
  {
    && Processed(cfg, r, msg).rc < 0
    && (r.pair[0].status.Keyed? || r.pair[1].status.Keyed? ==> Processed(cfg, r, msg).rx.kek == r.kek)
  }

  /** Anything the sender has sent, in any order and any number of times, and rejected messages of others. */
  ghost predicate MayArrive(cfg: RxCfg, log: seq<Item>, c: Reception, a: Arrival) {
    && RxShaped(c.rx)
    && match a
       case KmIn(j) => j < |log| && log[j].KmSent? && IsKm(log[j].msg)
       case PktIn(p) => p < |log| && log[p].PktSent? && log[p].slot < 2
       case BadIn(msg) => IsKm(msg) && Harmless(cfg, c.rx, msg)
  }

  ghost function Arrive(cfg: RxCfg, log: seq<Item>, c: Reception, a: Arrival): Reception
    requires MayArrive(cfg, log, c, a)
  {
    match a
    case KmIn(j) =>
      Reception(Processed(cfg, c.rx, log[j].msg).rx, c.came + [j],
                if Skips(c.rx, log[j].msg) then c.parsed else c.parsed + [j])
    case PktIn(p) => c.(rx := c.rx.(cur := Some(log[p].slot)))
    case BadIn(msg) => c.(rx := Processed(cfg, c.rx, msg).rx)
  }

  ghost predicate MayArriveAll(cfg: RxCfg, log: seq<Item>, arrivals: seq<Arrival>)
    decreases |arrivals|, 0
  {
    arrivals == []
    || (MayArriveAll(cfg, log, arrivals[..|arrivals| - 1])
        && MayArrive(cfg, log, ArriveAll(cfg, log, arrivals[..|arrivals| - 1]), arrivals[|arrivals| - 1]))
  }

  ghost function ArriveAll(cfg: RxCfg, log: seq<Item>, arrivals: seq<Arrival>): Reception
    requires MayArriveAll(cfg, log, arrivals)
    decreases |arrivals|, 1
  {
    if arrivals == [] then NEW_RECEPTION
    else Arrive(cfg, log, ArriveAll(cfg, log, arrivals[..|arrivals| - 1]), arrivals[|arrivals| - 1])
  }

  /** The messages came in order, and those lost do no harm: any of them if keys do not come back (`anyLoss`), and
      otherwise those that only repeat what has been announced. */
  ghost predicate Orderly(log: seq<Item>, came: seq<nat>, anyLoss: bool) {
    forall i :: 0 <= i < |came| ==>
      came[i] < |log| && Seen(came[..i]) <= came[i] + 1 && (anyLoss || OnlyRepeats(log, Seen(came[..i]), came[i]))
  }

  lemma {:induction false} OrderlySnoc(log: seq<Item>, came: seq<nat>, j: nat, anyLoss: bool)
    requires Orderly(log, came + [j], anyLoss)
    ensures Orderly(log, came, anyLoss) && j < |log| && Seen(came) <= j + 1
    ensures anyLoss || OnlyRepeats(log, Seen(came), j)
    ensures InOrder(came) ==> InOrder(came + [j])
  {
    hide OnlyRepeats;
    var all := came + [j];
    assert all[..|came|] == came && all[|came|] == j;
    forall i | 0 <= i < |came|
      ensures came[i] < |log| && Seen(came[..i]) <= came[i] + 1
      ensures anyLoss || OnlyRepeats(log, Seen(came[..i]), came[i])
    {
      assert all[..i] == came[..i] && all[i] == came[i];
    }
  }

  /** What is true of the receiver after any arrivals, and what after orderly ones. */
  ghost predicate Tracking(cfg: TxCfg, salt: seq<byte>, kek: seq<byte>, log: seq<Item>, c: Reception) {
    HistIn(log, c.came) && HistIn(log, c.parsed) && Follows(cfg, salt, kek, c.rx, Items(log, c.parsed))
  }

  ghost predicate OrderlyTracking(cfg: TxCfg, salt: seq<byte>, kek: seq<byte>, log: seq<Item>, c: Reception,
                                  anyLoss: bool) {
    && HistIn(log, c.came) && InOrder(c.came) && Follows(cfg, salt, kek, c.rx, Items(log, c.came))
    && (!anyLoss ==> InSync(log, c.came))
  }

  lemma {:induction false} ItemsAuthentic(cfg: TxCfg, salt: seq<byte>, kek: seq<byte>, log: seq<Item>, hist: seq<nat>)
    requires LogOk(cfg, salt, kek, log) && HistIn(log, hist)
    ensures AllAuthentic(cfg, salt, kek, Items(log, hist))
    ensures forall j :: 0 <= j < |log| ==> Authentic(cfg, salt, kek, log[j])
  {
  }

  /** Parsing one more message. */
  lemma {:induction false} KmParsed(cfg: TxCfg, salt: seq<byte>, kek: seq<byte>, r: Rx, h: seq<Item>, it: Item)
    requires Follows(cfg, salt, kek, r, h) && DecInvertsEnc(cfg.crypto.aes, kek)
    requires it.KmSent? && Authentic(cfg, salt, kek, it)
    requires kek == GenSecret(cfg.crypto, cfg.pwd, salt, cfg.keyLen)
    ensures var t := Parsed(RxCfg(cfg.crypto, cfg.pwd), r, it.msg);
            t.rc == 0 && Follows(cfg, salt, kek, t.rx, h + [it])
  {
    hide KmMsg, Parsed, GenSecret;
    ParseEffect(cfg, salt, kek, r, it.keys);
    KeyAtPrefix(h, [it], |h|, 0);
    KeyAtPrefix(h, [it], |h|, 1);
    LastEvenPrefix(h, [it], |h|);
    assert (h + [it])[|h|] == it;
  }

  lemma {:induction false} KmTracks(cfg: TxCfg, salt: seq<byte>, kek: seq<byte>, log: seq<Item>, c: Reception, j: nat)
    requires LogOk(cfg, salt, kek, log) && DecInvertsEnc(cfg.crypto.aes, kek)
    requires kek == GenSecret(cfg.crypto, cfg.pwd, salt, cfg.keyLen)
    requires Tracking(cfg, salt, kek, log, c) && MayArrive(RxCfg(cfg.crypto, cfg.pwd), log, c, KmIn(j))
    ensures Tracking(cfg, salt, kek, log, Arrive(RxCfg(cfg.crypto, cfg.pwd), log, c, KmIn(j)))
  {
    hide Parsed, LogOk, Follows, IsKm, Skips, GenSecret;
    ItemsAuthentic(cfg, salt, kek, log, c.parsed);
    assert RxShaped(c.rx);
    if !Skips(c.rx, log[j].msg) {
      KmParsed(cfg, salt, kek, c.rx, Items(log, c.parsed), log[j]);
      ItemsSnoc(log, c.parsed, j);
    }
  }

  lemma {:induction false} KmTracksOrderly(cfg: TxCfg, salt: seq<byte>, kek: seq<byte>, log: seq<Item>, c: Reception,
                                           j: nat, anyLoss: bool)
    requires LogOk(cfg, salt, kek, log) && DecInvertsEnc(cfg.crypto.aes, kek) && (anyLoss ==> NoKeyReturns(log))
    requires kek == GenSecret(cfg.crypto, cfg.pwd, salt, cfg.keyLen)
    requires OrderlyTracking(cfg, salt, kek, log, c, anyLoss) && MayArrive(RxCfg(cfg.crypto, cfg.pwd), log, c, KmIn(j))
    requires Orderly(log, c.came + [j], anyLoss)
    ensures OrderlyTracking(cfg, salt, kek, log, Arrive(RxCfg(cfg.crypto, cfg.pwd), log, c, KmIn(j)), anyLoss)
  {
    hide Processed, LogOk, Follows, InSync, SkipSafe, IsKm, AllAuthentic, NoKeyReturns, Orderly, Skips;
    OrderlySnoc(log, c.came, j, anyLoss);
    ItemsAuthentic(cfg, salt, kek, log, c.came);
    if anyLoss {
      FreshIsSkipSafe(log, c.came, j);
    } else {
      SyncIsSkipSafe(log, c.came, log[j].keys);
      SyncKept(cfg, salt, kek, log, c.came, j);
    }
    KmArrives(cfg, salt, kek, c.rx, Items(log, c.came), log[j]);
    ItemsSnoc(log, c.came, j);
  }

  lemma {:induction false} PacketTracks(cfg: TxCfg, salt: seq<byte>, kek: seq<byte>, r: Rx, h: seq<Item>, slot: nat)
    requires Follows(cfg, salt, kek, r, h) && slot < 2
    ensures Follows(cfg, salt, kek, r.(cur := Some(slot)), h)
  {
  }

  lemma {:induction false} BadTracks(cfg: TxCfg, salt: seq<byte>, kek: seq<byte>, r: Rx, h: seq<Item>, msg: seq<byte>)
    requires Follows(cfg, salt, kek, r, h) && IsKm(msg) && Harmless(RxCfg(cfg.crypto, cfg.pwd), r, msg)
    ensures Follows(cfg, salt, kek, Processed(RxCfg(cfg.crypto, cfg.pwd), r, msg).rx, h)
  {
    hide Parsed, IsKm;
    RejectedLeavesContexts(RxCfg(cfg.crypto, cfg.pwd), r, msg);
  }

  lemma {:induction false} NewReceiverTracks(cfg: TxCfg, salt: seq<byte>, kek: seq<byte>, log: seq<Item>, anyLoss: bool)
    requires |salt| == SALT_SZ && KeyLenOk(cfg.keyLen)
    ensures Tracking(cfg, salt, kek, log, NEW_RECEPTION) && OrderlyTracking(cfg, salt, kek, log, NEW_RECEPTION, anyLoss)
  {
  }

  /** The receiver holds what it has parsed last, over every arrival sequence, in whatever order. */
  lemma {:induction false} EveryReceptionTracks(cfg: TxCfg, salt: seq<byte>, kek: seq<byte>, log: seq<Item>,
                                                arrivals: seq<Arrival>)
    requires LogOk(cfg, salt, kek, log) && DecInvertsEnc(cfg.crypto.aes, kek)
    requires |salt| == SALT_SZ && KeyLenOk(cfg.keyLen) && kek == GenSecret(cfg.crypto, cfg.pwd, salt, cfg.keyLen)
    requires MayArriveAll(RxCfg(cfg.crypto, cfg.pwd), log, arrivals)
    ensures Tracking(cfg, salt, kek, log, ArriveAll(RxCfg(cfg.crypto, cfg.pwd), log, arrivals))
    decreases |arrivals|
  {
    hide Processed, LogOk, Follows, IsKm, Skips, Harmless;
    if arrivals == [] {
      NewReceiverTracks(cfg, salt, kek, log, true);
    } else {
      var pre, a := arrivals[..|arrivals| - 1], arrivals[|arrivals| - 1];
      EveryReceptionTracks(cfg, salt, kek, log, pre);
      var c := ArriveAll(RxCfg(cfg.crypto, cfg.pwd), log, pre);
      if a.KmIn? {
        KmTracks(cfg, salt, kek, log, c, a.at);
      } else if a.PktIn? {
        PacketTracks(cfg, salt, kek, c.rx, Items(log, c.parsed), log[a.at].slot);
      } else {
        BadTracks(cfg, salt, kek, c.rx, Items(log, c.parsed), a.msg);
      }
    }
  }

  /** And over orderly arrivals it holds what has come last: what it skips brings nothing new. */
  lemma {:induction false} OrderlyReceptionTracks(cfg: TxCfg, salt: seq<byte>, kek: seq<byte>, log: seq<Item>,
                                                  arrivals: seq<Arrival>, anyLoss: bool)
    requires LogOk(cfg, salt, kek, log) && DecInvertsEnc(cfg.crypto.aes, kek) && (anyLoss ==> NoKeyReturns(log))
    requires |salt| == SALT_SZ && KeyLenOk(cfg.keyLen) && kek == GenSecret(cfg.crypto, cfg.pwd, salt, cfg.keyLen)
    requires MayArriveAll(RxCfg(cfg.crypto, cfg.pwd), log, arrivals)
    requires Orderly(log, ArriveAll(RxCfg(cfg.crypto, cfg.pwd), log, arrivals).came, anyLoss)
    ensures OrderlyTracking(cfg, salt, kek, log, ArriveAll(RxCfg(cfg.crypto, cfg.pwd), log, arrivals), anyLoss)
    decreases |arrivals|
  {
    hide Processed, LogOk, Follows, InSync, NoKeyReturns, IsKm, Skips, Orderly, Harmless;
    if arrivals == [] {
      NewReceiverTracks(cfg, salt, kek, log, anyLoss);
    } else {
      var pre, a := arrivals[..|arrivals| - 1], arrivals[|arrivals| - 1];
      var c := ArriveAll(RxCfg(cfg.crypto, cfg.pwd), log, pre);
      if a.KmIn? {
        OrderlySnoc(log, c.came, a.at, anyLoss);
        OrderlyReceptionTracks(cfg, salt, kek, log, pre, anyLoss);
        KmTracksOrderly(cfg, salt, kek, log, c, a.at, anyLoss);
      } else if a.PktIn? {
        OrderlyReceptionTracks(cfg, salt, kek, log, pre, anyLoss);
        PacketTracks(cfg, salt, kek, c.rx, Items(log, c.came), log[a.at].slot);
      } else {
        OrderlyReceptionTracks(cfg, salt, kek, log, pre, anyLoss);
        BadTracks(cfg, salt, kek, c.rx, Items(log, c.came), a.msg);
      }
    }
  }

  // ----- When a rejected message costs the KEK -----

  /** THEOREM (rollback, exact). A message refused by a receiver that holds the session's KEK leaves it in place if
      and only if it was checked under that KEK, or was picked for a context that is keyed: the rollback derives the
      KEK from that context, which may be one no message has reached while the other is keyed. */
  lemma {:induction false} RollbackKeepsIff(cfg: TxCfg, salt: seq<byte>, kek: seq<byte>, r: Rx, msg: seq<byte>)
    requires Sound(cfg, salt, kek, r) && (r.pair[0].status.Keyed? || r.pair[1].status.Keyed?)
    requires kek == GenSecret(cfg.crypto, cfg.pwd, salt, cfg.keyLen)
    requires CheckKm(msg).Some? && Parsed(RxCfg(cfg.crypto, cfg.pwd), r, msg).rc == -2
    ensures var f := CheckKm(msg).value;
            && f.flags < 4
            && (Parsed(RxCfg(cfg.crypto, cfg.pwd), r, msg).rx.kek == kek <==>
                r.pair[Picked(r, msg, f)].status.Keyed? || GenSecret(cfg.crypto, cfg.pwd, f.salt, f.sekLen) == kek)
  {
    hide Unwrap, CheckKm, GenSecret;
    CheckedSizes(msg);
    var i := Picked(r, msg, CheckKm(msg).value);
    assert r.pair[i].status.Keyed? <==> r.pair[i] != BLANK;
  }

  /** What it costs: a receiver with another KEK refuses, and goes on refusing, every message of the session for a keyed
      context that does not unwrap under that other KEK. */
  lemma {:induction false} RefusedWithoutKek(cfg: TxCfg, salt: seq<byte>, kek: seq<byte>, r: Rx, keys: Keys)
    requires RxShaped(r) && KeysOk(keys, cfg.keyLen) && |salt| == SALT_SZ
    requires var msg := KmMsg(cfg.crypto, kek, salt, keys, cfg.keyLen);
             && CheckKm(msg).Some? && CheckKm(msg).value.flags < 4
             && var ctx := r.pair[Picked(r, msg, CheckKm(msg).value)];
                ctx.status.Keyed? && ctx.salt == salt && |ctx.sek| == cfg.keyLen
    requires Unwrap(cfg.crypto.aes, r.kek, Wrapped(cfg, kek, keys)).None?
    ensures Parsed(RxCfg(cfg.crypto, cfg.pwd), r, KmMsg(cfg.crypto, kek, salt, keys, cfg.keyLen)) == RxResult(r, -2)
  {
    hide Wrap, Unwrap, CheckKm, KmMsg, GenSecret;
    KmMsgFields(cfg.crypto, kek, salt, keys, cfg.keyLen);
  }

  /** A run in which that happens. The receiver has come in on an odd key only. One message for the even slot with
      another salt, refused, and the repeat of the sender's own message is refused as well: under every crypto in
      which the KEK of the other salt opens neither of the two. */
  lemma {:induction false} RollbackRun(cfg: TxCfg, salt: seq<byte>, kek: seq<byte>, r: Rx, keys: Keys, msg: seq<byte>)
    requires Sound(cfg, salt, kek, r) && KeysOk(keys, cfg.keyLen) && keys.even.None?
    requires r.pair[0] == BLANK && r.pair[1].status.Keyed?
    requires IsKm(msg) && ComparedWith(msg) == 0 && CheckKm(msg).Some? && CheckKm(msg).value.flags == 1
    requires var f := CheckKm(msg).value; var other := GenSecret(cfg.crypto, cfg.pwd, f.salt, f.sekLen);
             && Unwrap(cfg.crypto.aes, other, f.wrapped).None?
             && Unwrap(cfg.crypto.aes, other, Wrapped(cfg, kek, keys)).None?
    ensures var rcfg, own := RxCfg(cfg.crypto, cfg.pwd), KmMsg(cfg.crypto, kek, salt, keys, cfg.keyLen);
            var t := Processed(rcfg, r, msg);
            && t.rc == -2 && t.rx.pair == r.pair && RxShaped(t.rx) && IsKm(own)
            && Processed(rcfg, t.rx, own).rc == -2
  {
    hide Wrap, Unwrap, CheckKm, KmMsg, GenSecret, IsKm;
    var rcfg, own := RxCfg(cfg.crypto, cfg.pwd), KmMsg(cfg.crypto, kek, salt, keys, cfg.keyLen);
    CheckedSizes(msg);
    assert !HasBothSek(msg) by { OneKeyFlag(msg); }
    RefusedIff(rcfg, r, msg);
    RejectedLeavesContexts(rcfg, r, msg);
    assert !Skips(r, msg);
    var t := Processed(rcfg, r, msg).rx;
    KmMsgFields(cfg.crypto, kek, salt, keys, cfg.keyLen);
    ComparesEven(cfg, salt, kek, keys);
    assert !Skips(t, own);
    RefusedWithoutKek(cfg, salt, kek, t, keys);
  }

  lemma {:induction false} OneKeyFlag(msg: seq<byte>)
    requires CheckKm(msg).Some? && CheckKm(msg).value.flags == 1
    ensures !HasBothSek(msg)
  {
  }

  function Wrapped(cfg: TxCfg, kek: seq<byte>, keys: Keys): seq<byte>
    requires KeysOk(keys, cfg.keyLen)
  {
    KeyBytesSize(keys, cfg.keyLen);
    Wrap(cfg.crypto.aes, kek, KeyBytes(keys))
  }

  // ----- Agreement -----

  /** Every message in `log[from..to]` that carries the slot carries this key for it. */
  ghost predicate OnlyKey(log: seq<Item>, from: nat, to: nat, slot: nat, sek: seq<byte>)
    requires to <= |log|
  {
    forall j :: from <= j < to && log[j].KmSent? && KeyFor(log[j].keys, slot).Some? ==>
      KeyFor(log[j].keys, slot) == Some(sek)
  }

  lemma {:induction false} KeyAtFrom(log: seq<Item>, i: nat, n: nat, slot: nat, sek: seq<byte>)
    requires i < n <= |log| && log[i].KmSent? && KeyFor(log[i].keys, slot) == Some(sek) && OnlyKey(log, i, n, slot, sek)
    ensures KeyAt(log, n, slot) == Some(sek)
    decreases n
  {
    if n > i + 1 {
      KeyAtFrom(log, i, n - 1, slot, sek);
    }
  }

  lemma {:induction false} LastCarrier(log: seq<Item>, n: nat, slot: nat, sek: seq<byte>) returns (i: nat)
    requires n <= |log| && KeyAt(log, n, slot) == Some(sek)
    ensures i < n && log[i].KmSent? && KeyFor(log[i].keys, slot) == Some(sek) && OnlyKey(log, i, n, slot, sek)
    decreases n
  {
    if log[n - 1].KmSent? && KeyFor(log[n - 1].keys, slot).Some? {
      i := n - 1;
    } else {
      i := LastCarrier(log, n - 1, slot, sek);
    }
  }

  /** The message at `i` introduces the key of the packet at `p`. */
  ghost predicate IntroducedAt(log: seq<Item>, p: nat, i: nat)
    requires p < |log| && log[p].PktSent?
  {
    && i < p && log[i].KmSent? && KeyFor(log[i].keys, log[p].slot) == Some(log[p].sek)
    && OnlyKey(log, i, p, log[p].slot, log[p].sek)
  }

  /** In every log the sender can produce, every packet's key has been introduced before it. */
  lemma {:induction false} EveryKeyIntroduced(cfg: TxCfg, salt: seq<byte>, kek: seq<byte>, log: seq<Item>, p: nat)
    requires LogOk(cfg, salt, kek, log) && p < |log| && log[p].PktSent?
    ensures exists i: nat :: IntroducedAt(log, p, i)
  {
    assert Announces(log, p);
    var i := LastCarrier(log, p, log[p].slot, log[p].sek);
    assert IntroducedAt(log, p, i);
  }

  /** Some processed message carries the key for the slot, and none processed after it carries another. */
  ghost predicate Current(log: seq<Item>, hist: seq<nat>, slot: nat, sek: seq<byte>)
    requires HistIn(log, hist)
  {
    exists i :: 0 <= i < |hist| && KeyFor(log[hist[i]].keys, slot) == Some(sek)
                && OnlyKey(Items(log, hist), i, |hist|, slot, sek)
  }

  lemma {:induction false} CurrentIff(log: seq<Item>, hist: seq<nat>, slot: nat, sek: seq<byte>)
    requires HistIn(log, hist)
    ensures Current(log, hist, slot, sek) <==> KeyAt(Items(log, hist), |hist|, slot) == Some(sek)
  {
    hide KeyAt;
    var h := Items(log, hist);
    if KeyAt(h, |h|, slot) == Some(sek) {
      var i := LastCarrier(h, |h|, slot, sek);
      assert KeyFor(log[hist[i]].keys, slot) == Some(sek);
    }
    if Current(log, hist, slot, sek) {
      var i :| 0 <= i < |hist| && KeyFor(log[hist[i]].keys, slot) == Some(sek) && OnlyKey(h, i, |hist|, slot, sek);
      KeyAtFrom(h, i, |hist|, slot, sek);
    }
  }

  /** A packet's key is current once a message that introduces it has been processed, and until one that replaces it
      is. */
  lemma {:induction false} IntroducedIsCurrent(log: seq<Item>, hist: seq<nat>, p: nat, i: nat)
    requires HistIn(log, hist) && InOrder(hist) && p < |log| && log[p].PktSent? && IntroducedAt(log, p, i)
    requires i in hist && Seen(hist) <= |log| && OnlyKey(log, p, Seen(hist), log[p].slot, log[p].sek)
    ensures Current(log, hist, log[p].slot, log[p].sek)
  {
    var m :| 0 <= m < |hist| && hist[m] == i;
    var h := Items(log, hist);
    forall j | m <= j < |hist| && KeyFor(h[j].keys, log[p].slot).Some?
      ensures KeyFor(h[j].keys, log[p].slot) == Some(log[p].sek)
    {
      assert hist[m] <= hist[j] < Seen(hist);
    }
    assert OnlyKey(h, m, |hist|, log[p].slot, log[p].sek);
  }

  /** The receiver's context of the slot has this key. */
  ghost predicate HasKey(r: Rx, slot: nat, sek: seq<byte>)
    requires RxShaped(r) && slot < 2
  {
    r.pair[slot].status.Keyed? && r.pair[slot].sek == sek
  }

  /** THEOREM (key agreement, exact). After any arrivals, in any order, a slot holds a key if and only if the last
      message parsed that carries the slot carries that key; and if the messages came in order, with harmless losses,
      if and only if the last one that came does. */
  lemma {:induction false} PacketKeyAgrees(cfg: TxCfg, salt: seq<byte>, kek: seq<byte>, log: seq<Item>,
                                           arrivals: seq<Arrival>, slot: nat, sek: seq<byte>)
    requires LogOk(cfg, salt, kek, log) && DecInvertsEnc(cfg.crypto.aes, kek) && slot < 2
    requires |salt| == SALT_SZ && KeyLenOk(cfg.keyLen) && kek == GenSecret(cfg.crypto, cfg.pwd, salt, cfg.keyLen)
    requires MayArriveAll(RxCfg(cfg.crypto, cfg.pwd), log, arrivals)
    ensures var c := ArriveAll(RxCfg(cfg.crypto, cfg.pwd), log, arrivals);
            && RxShaped(c.rx) && HistIn(log, c.parsed) && HistIn(log, c.came)
            && (HasKey(c.rx, slot, sek) <==> Current(log, c.parsed, slot, sek))
            && (forall anyLoss :: Orderly(log, c.came, anyLoss) && (anyLoss ==> NoKeyReturns(log)) ==>
                  InOrder(c.came) && (HasKey(c.rx, slot, sek) <==> Current(log, c.came, slot, sek)))
  {
    hide ArriveAll, MayArriveAll, LogOk, Sound, NoKeyReturns, Current, InSync, Orderly;
    EveryReceptionTracks(cfg, salt, kek, log, arrivals);
    var c := ArriveAll(RxCfg(cfg.crypto, cfg.pwd), log, arrivals);
    SoundShape(cfg, salt, kek, c.rx);
    CurrentIff(log, c.parsed, slot, sek);
    forall anyLoss | Orderly(log, c.came, anyLoss) && (anyLoss ==> NoKeyReturns(log))
      ensures InOrder(c.came) && (HasKey(c.rx, slot, sek) <==> Current(log, c.came, slot, sek))
    {
      OrderlyReceptionTracks(cfg, salt, kek, log, arrivals, anyLoss);
      CurrentIff(log, c.came, slot, sek);
    }
  }

  /** THEOREM (key agreement over every run). For every run of the sender and every arrival sequence: the key of a
      packet is in its slot if and only if it is the current one by the messages parsed. If they came in order, it is
      there from the arrival of a message that introduces it until that of one that replaces it; any messages may be
      lost if the sender never generates a key twice, and repeats in any case. */
  lemma {:induction false} RunKeysAgree(cfg: TxCfg, k: nat, salt: seq<byte>, sek: seq<byte>, newSek: seq<byte>,
                                        due: bool, acts: seq<Act>, arrivals: seq<Arrival>, anyLoss: bool, p: nat)
    requires CfgOk(cfg, k) && |salt| == SALT_SZ && |sek| == cfg.keyLen && |newSek| == cfg.keyLen
    requires DecInvertsEnc(cfg.crypto.aes, GenSecret(cfg.crypto, cfg.pwd, salt, cfg.keyLen))
    requires AllowedAll(cfg, k, FirstManage(cfg, salt, sek, newSek, due), acts)
    requires var log := PerformAll(cfg, k, FirstManage(cfg, salt, sek, newSek, due), acts).log;
             MayArriveAll(RxCfg(cfg.crypto, cfg.pwd), log, arrivals) && p < |log| && log[p].PktSent?
    ensures var log := PerformAll(cfg, k, FirstManage(cfg, salt, sek, newSek, due), acts).log;
            var c := ArriveAll(RxCfg(cfg.crypto, cfg.pwd), log, arrivals);
            && log[p].slot < 2 && RxShaped(c.rx) && HistIn(log, c.parsed) && HistIn(log, c.came)
            && (HasKey(c.rx, log[p].slot, log[p].sek) <==> Current(log, c.parsed, log[p].slot, log[p].sek))
            && (Orderly(log, c.came, anyLoss)
                && (anyLoss ==> FreshKeys(cfg, k, FirstManage(cfg, salt, sek, newSek, due), acts)) ==>
                  forall i :: i in c.came && IntroducedAt(log, p, i) && Seen(c.came) <= |log|
                              && OnlyKey(log, p, Seen(c.came), log[p].slot, log[p].sek) ==>
                    HasKey(c.rx, log[p].slot, log[p].sek))
  {
    hide ArriveAll, MayArriveAll, PerformAll, AllowedAll, FirstManage, IntroducedAt, GenSecret, LogOk, Lifecycle, Told,
         Current, OnlyKey, HistIn, NoKeyReturns, FreshKeys, Orderly, HasKey;
    var kek := GenSecret(cfg.crypto, cfg.pwd, salt, cfg.keyLen);
    var r := FirstManage(cfg, salt, sek, newSek, due);
    FirstManageOk(cfg, k, salt, sek, newSek, due);
    EveryRunOk(cfg, k, salt, kek, r, acts);
    var log := PerformAll(cfg, k, r, acts).log;
    SlotsOk(cfg, salt, kek, log, p);
    PacketKeyAgrees(cfg, salt, kek, log, arrivals, log[p].slot, log[p].sek);
    var c := ArriveAll(RxCfg(cfg.crypto, cfg.pwd), log, arrivals);
    if Orderly(log, c.came, anyLoss) && (anyLoss ==> FreshKeys(cfg, k, r, acts)) {
      if anyLoss {
        FirstNeverReturns(r.log);
        KeysNeverReturn(cfg, k, salt, kek, r, acts);
      }
      forall i | i in c.came && IntroducedAt(log, p, i) && Seen(c.came) <= |log|
                 && OnlyKey(log, p, Seen(c.came), log[p].slot, log[p].sek)
        ensures HasKey(c.rx, log[p].slot, log[p].sek)
      {
        IntroducedIsCurrent(log, c.came, p, i);
      }
    }
  }

  lemma {:induction false} SlotsOk(cfg: TxCfg, salt: seq<byte>, kek: seq<byte>, log: seq<Item>, p: nat)
    requires LogOk(cfg, salt, kek, log) && p < |log| && log[p].PktSent?
    ensures log[p].slot < 2
  {
    assert Announces(log, p);
  }
}
