/** A sender that never generates a key twice never announces a replaced key again
    (srt-1.5.6/haicrypt: hcrypt_ctx_tx.c). */
module KeyFreshness {
  import opened Bytes
  import opened KeyWrap
  import opened KeyMaterial
  import opened TxKeys
  import opened KeyRotation

  /** The message at `i` carries this key for the slot. */
  predicate CarriesKey(log: seq<Item>, i: nat, slot: nat, sek: seq<byte>) {
    i < |log| && slot < 2 && log[i].KmSent? && KeyFor(log[i].keys, slot) == Some(sek)
  }

  /** A key that has been replaced in its slot does not come back. */
  ghost predicate NoKeyReturns(log: seq<Item>) {
    forall slot: nat, a: nat, b: nat, c: nat, x, y ::
      a <= b <= c && CarriesKey(log, a, slot, x) && CarriesKey(log, b, slot, y) && CarriesKey(log, c, slot, x) ==>
        x == y
  }

  /** No message has carried this key. */
  ghost predicate Unused(log: seq<Item>, sek: seq<byte>) {
    forall i, slot :: !CarriesKey(log, i, slot, sek)
  }

  /** Every key the run generates is unused at that moment. */
  ghost predicate FreshKeys(cfg: TxCfg, k: nat, r: Run, acts: seq<Act>)
    requires AllowedAll(cfg, k, r, acts)
    decreases |acts|
  {
    acts == []
    || (var pre, a := acts[..|acts| - 1], acts[|acts| - 1];
        var b := PerformAll(cfg, k, r, pre);
        && FreshKeys(cfg, k, r, pre)
        && (a.Manage? && OutcomeOf(cfg, b.s).Announced? ==> Unused(b.log, a.newSek)))
  }

  lemma {:induction false} FirstNeverReturns(log: seq<Item>)
    requires |log| <= 1
    ensures NoKeyReturns(log)
  {
  }

  /** The last announcement of a slot is carried by some message, and by all that came after one with the same key. */
  lemma {:induction false} KeyAtCarried(log: seq<Item>, n: nat, slot: nat) returns (d: nat)
    requires n <= |log| && slot < 2 && KeyAt(log, n, slot).Some?
    ensures d < n && CarriesKey(log, d, slot, KeyAt(log, n, slot).value)
    ensures forall i, x :: d < i < n ==> !CarriesKey(log, i, slot, x)
    decreases n
  {
    if log[n - 1].KmSent? && KeyFor(log[n - 1].keys, slot).Some? {
      d := n - 1;
    } else {
      d := KeyAtCarried(log, n - 1, slot);
    }
  }

  /** A message may be added if each of its keys is the latest of its slot or unused. */
  lemma {:induction false} AddedNeverReturns(log: seq<Item>, it: Item)
    requires NoKeyReturns(log)
    requires it.KmSent? ==> forall slot: nat :: slot < 2 && KeyFor(it.keys, slot).Some? ==>
               KeyAt(log, |log|, slot) == KeyFor(it.keys, slot) || Unused(log, KeyFor(it.keys, slot).value)
    ensures NoKeyReturns(log + [it])
  {
    hide KeyAt, Unused, KeyFor;
    var all := log + [it];
    forall slot: nat, a: nat, b: nat, c: nat, x, y
      | a <= b <= c && CarriesKey(all, a, slot, x) && CarriesKey(all, b, slot, y) && CarriesKey(all, c, slot, x)
      ensures x == y
    {
      if c < |log| {
        assert CarriesKey(log, a, slot, x) && CarriesKey(log, b, slot, y) && CarriesKey(log, c, slot, x);
      } else if b < |log| {
        assert CarriesKey(log, a, slot, x) && CarriesKey(log, b, slot, y);
        StillLatest(log, slot, a, b, x, y, it);
      }
    }
  }

  lemma {:induction false} StillLatest(log: seq<Item>, slot: nat, a: nat, b: nat, x: seq<byte>, y: seq<byte>, it: Item)
    requires NoKeyReturns(log) && a <= b && CarriesKey(log, a, slot, x) && CarriesKey(log, b, slot, y)
    requires KeyAt(log, |log|, slot) == Some(x) || Unused(log, x)
    ensures x == y
  {
    hide KeyAt;
    if KeyAt(log, |log|, slot) == Some(x) {
      var d := KeyAtCarried(log, |log|, slot);
      assert b <= d;
    }
  }

  /** What `ManageKeys` can announce: nothing, or the latest keys of the slots, or with them the key just generated. */
  ghost predicate Says(cfg: TxCfg, r: Run, a: Act, t: Run) {
    t.log == r.log
    || exists it: Item :: t.log == r.log + [it] && it.KmSent? && Latest(cfg, r, a, it.keys)
  }

  ghost predicate Latest(cfg: TxCfg, r: Run, a: Act, keys: Keys) {
    forall slot: nat :: slot < 2 && KeyFor(keys, slot).Some? ==>
      || KeyAt(r.log, |r.log|, slot) == KeyFor(keys, slot)
      || (a.Manage? && Shaped(r.s) && cfg.preAnnounce <= cfg.refreshRate && OutcomeOf(cfg, r.s).Announced?
          && KeyFor(keys, slot) == Some(a.newSek))
  }

  lemma {:induction false} SaysOne(cfg: TxCfg, salt: seq<byte>, kek: seq<byte>, r: Run, a: Act, t: Run, keys: Keys)
    requires DecInvertsEnc(cfg.crypto.aes, kek) && KeysOk(keys, cfg.keyLen) && |salt| == SALT_SZ
    requires Latest(cfg, r, a, keys)
    requires t.log == r.log + KmItems(cfg, kek, [KmMsg(cfg.crypto, kek, salt, keys, cfg.keyLen)])
    ensures Says(cfg, r, a, t)
  {
    hide KmMsg, Carried, Latest;
    CarriedOfKmMsg(cfg.crypto, kek, salt, keys, cfg.keyLen);
    var it := KmSent(KmMsg(cfg.crypto, kek, salt, keys, cfg.keyLen), keys);
    assert KmItems(cfg, kek, [it.msg]) == [it];
    assert t.log == r.log + [it] && it.KmSent?;
  }

  lemma {:induction false} SteadySays(cfg: TxCfg, k: nat, salt: seq<byte>, kek: seq<byte>, r: Run, a: Act)
    requires CfgOk(cfg, k) && RunOk(cfg, k, salt, kek, r) && DecInvertsEnc(cfg.crypto.aes, kek)
    requires a.Manage? && Allowed(cfg, k, r, a) && Steady(cfg, r.s, r.since)
    ensures Says(cfg, r, a, Perform(cfg, k, r, a))
  {
    hide KmMsg, LogOk, KeyAt, KmItems, Managed, AfterInject, Injected, Says;
    ManageSteady(cfg, k, r.s, salt, kek, r.since, a.newSek, a.due);
    var t := Perform(cfg, k, r, a);
    if Cur(r.s).pktCnt > cfg.refreshRate - cfg.preAnnounce {
      SaysOne(cfg, salt, kek, r, a, t, KeysOf(Alt(t.s.cur), Other(t.s).sek, Some(Cur(t.s).sek)));
    } else if a.due {
      SaysOne(cfg, salt, kek, r, a, t, KeysOf(t.s.cur, Cur(t.s).sek, None));
    } else {
      SaysNothing(cfg, kek, r, a, t);
    }
  }

  lemma {:induction false} SaysNothing(cfg: TxCfg, kek: seq<byte>, r: Run, a: Act, t: Run)
    requires t.log == r.log + KmItems(cfg, kek, [])
    ensures Says(cfg, r, a, t)
  {
    AppendNothing(cfg, kek, r.log);
  }

  lemma {:induction false} PreSwitchSays(cfg: TxCfg, k: nat, salt: seq<byte>, kek: seq<byte>, r: Run, a: Act)
    requires CfgOk(cfg, k) && RunOk(cfg, k, salt, kek, r) && DecInvertsEnc(cfg.crypto.aes, kek)
    requires a.Manage? && Allowed(cfg, k, r, a) && PreSwitch(cfg, r.s, salt, r.since)
    ensures Says(cfg, r, a, Perform(cfg, k, r, a))
  {
    hide KmMsg, LogOk, KeyAt, KmItems, Managed, AfterInject, Injected, Says;
    ManagePreSwitch(cfg, k, r.s, salt, kek, r.since, a.newSek, a.due);
    var t := Perform(cfg, k, r, a);
    if !a.due {
      SaysNothing(cfg, kek, r, a, t);
    } else if Cur(r.s).pktCnt > cfg.refreshRate {
      SaysOne(cfg, salt, kek, r, a, t, KeysOf(t.s.cur, Cur(t.s).sek, Some(Other(t.s).sek)));
    } else {
      SaysOne(cfg, salt, kek, r, a, t, KeysOf(Alt(t.s.cur), Other(t.s).sek, Some(Cur(t.s).sek)));
    }
  }

  lemma {:induction false} OverlapSays(cfg: TxCfg, k: nat, salt: seq<byte>, kek: seq<byte>, r: Run, a: Act)
    requires CfgOk(cfg, k) && RunOk(cfg, k, salt, kek, r) && DecInvertsEnc(cfg.crypto.aes, kek)
    requires a.Manage? && Allowed(cfg, k, r, a) && Overlap(cfg, r.s, r.since)
    ensures Says(cfg, r, a, Perform(cfg, k, r, a))
  {
    hide KmMsg, LogOk, KeyAt, KmItems, Managed, AfterInject, Injected, Says;
    ManageOverlap(cfg, k, r.s, salt, kek, r.since, a.newSek, a.due);
    var t := Perform(cfg, k, r, a);
    if !a.due {
      SaysNothing(cfg, kek, r, a, t);
    } else if Cur(r.s).pktCnt > cfg.preAnnounce {
      SaysOne(cfg, salt, kek, r, a, t, KeysOf(t.s.cur, Cur(t.s).sek, None));
    } else {
      SaysOne(cfg, salt, kek, r, a, t, KeysOf(t.s.cur, Cur(t.s).sek, Some(Other(t.s).sek)));
    }
  }

  lemma {:induction false} ManageSays(cfg: TxCfg, k: nat, salt: seq<byte>, kek: seq<byte>, r: Run, a: Act)
    requires CfgOk(cfg, k) && RunOk(cfg, k, salt, kek, r) && DecInvertsEnc(cfg.crypto.aes, kek)
    requires a.Manage? && Allowed(cfg, k, r, a)
    ensures Says(cfg, r, a, Perform(cfg, k, r, a))
  {
    hide Perform, LogOk, Told, Steady, PreSwitch, Overlap, Says;
    if Steady(cfg, r.s, r.since) {
      SteadySays(cfg, k, salt, kek, r, a);
    } else if PreSwitch(cfg, r.s, salt, r.since) {
      PreSwitchSays(cfg, k, salt, kek, r, a);
    } else {
      OverlapSays(cfg, k, salt, kek, r, a);
    }
  }

  /** One act of a run that generates fresh keys. */
  lemma {:induction false} ActNeverReturns(cfg: TxCfg, k: nat, salt: seq<byte>, kek: seq<byte>, r: Run, a: Act)
    requires CfgOk(cfg, k) && RunOk(cfg, k, salt, kek, r) && DecInvertsEnc(cfg.crypto.aes, kek) && Allowed(cfg, k, r, a)
    requires NoKeyReturns(r.log) && (a.Manage? && OutcomeOf(cfg, r.s).Announced? ==> Unused(r.log, a.newSek))
    ensures NoKeyReturns(Perform(cfg, k, r, a).log)
  {
    hide RunOk, NoKeyReturns, Unused, KeyAt, Managed, KmItems, AfterData;
    var t := Perform(cfg, k, r, a);
    if a.Send? {
      AddedNeverReturns(r.log, PktSent(r.gen, r.s.cur, Cur(r.s).sek));
    } else {
      ManageSays(cfg, k, salt, kek, r, a);
      if t.log != r.log {
        var it: Item :| t.log == r.log + [it] && it.KmSent? && Latest(cfg, r, a, it.keys);
        AddedNeverReturns(r.log, it);
      }
    }
  }

  /** THEOREM. In every run that never generates a key twice, no replaced key comes back into an announcement. */
  lemma {:induction false} KeysNeverReturn(cfg: TxCfg, k: nat, salt: seq<byte>, kek: seq<byte>, r: Run, acts: seq<Act>)
    requires CfgOk(cfg, k) && RunOk(cfg, k, salt, kek, r) && DecInvertsEnc(cfg.crypto.aes, kek)
    requires AllowedAll(cfg, k, r, acts) && FreshKeys(cfg, k, r, acts) && NoKeyReturns(r.log)
    ensures NoKeyReturns(PerformAll(cfg, k, r, acts).log)
    decreases |acts|
  {
    hide Perform, RunOk, NoKeyReturns, Unused, OutcomeOf;
    if acts != [] {
      var pre := acts[..|acts| - 1];
      KeysNeverReturn(cfg, k, salt, kek, r, pre);
      EveryRunOk(cfg, k, salt, kek, r, pre);
      ActNeverReturns(cfg, k, salt, kek, PerformAll(cfg, k, r, pre), acts[|acts| - 1]);
    }
  }
}
