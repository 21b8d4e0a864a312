/** Key rotation over whole runs of the sender (srt-1.5.6/haicrypt: hcrypt_ctx_tx.c, hcrypt_tx.c): the life cycle of the
    two contexts, the packet counts, and what the announced messages say. A run is a first `ManageKeys` followed by data
    packets with further `ManageKeys` calls after every 1 to k of them. */
module KeyRotation {
  import opened Bytes
  import opened KeyWrap
  import opened KeyMaterial
  import opened TxKeys

  /** R is the refresh rate, P the pre-announcement, k the largest number of packets between two `ManageKeys`. */
  predicate CfgOk(cfg: TxCfg, k: nat) {
    && KeyLenOk(cfg.keyLen) && 1 <= k <= cfg.preAnnounce && 3 * cfg.preAnnounce <= cfg.refreshRate
    && cfg.refreshRate + k < 0x1_0000_0000
  }

  // ----- The three phases -----

  /** Only the current key is announced. */
  ghost predicate Steady(cfg: TxCfg, s: Tx, since: nat)
    requires Shaped(s) && CtxOk(Cur(s), cfg.keyLen)
  {
    && Other(s).status.Sardy? && !Other(s).announce && Cur(s).announce
    && Cur(s).km == AsmKm(cfg, s.kek, s.cur, Cur(s), None)
    && 1 <= Cur(s).pktCnt <= cfg.refreshRate - cfg.preAnnounce + since
  }

  /** The next key is ready and announced with the current one. */
  ghost predicate PreSwitch(cfg: TxCfg, s: Tx, salt: seq<byte>, since: nat)
    requires Shaped(s) && CtxOk(Cur(s), cfg.keyLen)
  {
    && Other(s).status.Keyed? && Other(s).announce && !Cur(s).announce
    && CtxOk(Other(s), cfg.keyLen) && Other(s).salt == salt && Other(s).pktCnt == 0
    && Other(s).km == AsmKm(cfg, s.kek, Alt(s.cur), Other(s), Some(Cur(s).sek))
    && cfg.refreshRate - cfg.preAnnounce < Cur(s).pktCnt <= cfg.refreshRate + since
  }

  /** The previous key is still announced, with the current one, for late packets. */
  ghost predicate Overlap(cfg: TxCfg, s: Tx, since: nat)
    requires Shaped(s) && CtxOk(Cur(s), cfg.keyLen)
  {
    && Other(s).status.Deprecated? && !Other(s).announce && Cur(s).announce
    && |Other(s).sek| == cfg.keyLen
    && Cur(s).km == AsmKm(cfg, s.kek, s.cur, Cur(s), Some(Other(s).sek))
    && since <= Cur(s).pktCnt <= cfg.preAnnounce + since
  }

  /** The life-cycle invariant, `since` packets after the last `ManageKeys`. */
  ghost predicate Lifecycle(cfg: TxCfg, s: Tx, salt: seq<byte>, kek: seq<byte>, since: nat) {
    && Shaped(s) && CtxOk(Cur(s), cfg.keyLen) && Cur(s).salt == salt && s.kek == kek
    && Cur(s).status.Active? && !s.pair[0].ttsend && !s.pair[1].ttsend
    && (Steady(cfg, s, since) || PreSwitch(cfg, s, salt, since) || Overlap(cfg, s, since))
  }

  /** Reading the invariant: one ACTIVE context, and it is the current one; one ANNOUNCE; the announced message
      carries the active key, and with it the other one while that is being introduced or phased out. */
  lemma {:induction false} LifecycleMeaning(cfg: TxCfg, s: Tx, salt: seq<byte>, kek: seq<byte>, since: nat)
    requires Lifecycle(cfg, s, salt, kek, since) && DecInvertsEnc(cfg.crypto.aes, kek)
    ensures forall i :: 0 <= i < 2 ==> (s.pair[i].status.Active? <==> i == s.cur)
    ensures s.pair[0].announce != s.pair[1].announce
    ensures var a := if s.pair[0].announce then s.pair[0] else s.pair[1];
            var keys := Carried(cfg.crypto, kek, a.km);
            && KeyFor(keys, s.cur) == Some(Cur(s).sek)
            && KeyFor(keys, Alt(s.cur)) == if Other(s).status.Sardy? then None else Some(Other(s).sek)
  {
    hide KmMsg, Carried;
    if Steady(cfg, s, since) {
      CarriedOfKmMsg(cfg.crypto, kek, salt, KeysOf(s.cur, Cur(s).sek, None), cfg.keyLen);
    } else if PreSwitch(cfg, s, salt, since) {
      CarriedOfKmMsg(cfg.crypto, kek, salt, KeysOf(Alt(s.cur), Other(s).sek, Some(Cur(s).sek)), cfg.keyLen);
    } else {
      CarriedOfKmMsg(cfg.crypto, kek, salt, KeysOf(s.cur, Cur(s).sek, Some(Other(s).sek)), cfg.keyLen);
    }
  }

  lemma {:induction false} AsmKmBoth(cfg: TxCfg, kek: seq<byte>, i: nat, c: TxCtx, other: Option<seq<byte>>)
    requires CtxOk(c, cfg.keyLen) && (other.Some? ==> |other.value| == cfg.keyLen)
    ensures HasBothSek(AsmKm(cfg, kek, i, c, other)) <==> other.Some?
  {
    hide KmMsg, HasBothSek;
    KmMsgFields(cfg.crypto, kek, c.salt, KeysOf(i, c.sek, other), cfg.keyLen);
  }

  /** The sender after the first `ManageKeys`. */
  function Begun(cfg: TxCfg, salt: seq<byte>, sek: seq<byte>, newSek: seq<byte>, due: bool): Tx
    requires KeyLenOk(cfg.keyLen) && |salt| == SALT_SZ && |sek| == cfg.keyLen && |newSek| == cfg.keyLen
    requires cfg.preAnnounce <= cfg.refreshRate
  {
    AfterInject(Managed(cfg, Created(cfg, salt, sek), newSek, due))
  }

  lemma {:induction false} BeginsSteady(cfg: TxCfg, k: nat, salt: seq<byte>, sek: seq<byte>, newSek: seq<byte>,
                                        due: bool)
    requires CfgOk(cfg, k) && |salt| == SALT_SZ && |sek| == cfg.keyLen && |newSek| == cfg.keyLen
    ensures var kek := GenSecret(cfg.crypto, cfg.pwd, salt, cfg.keyLen);
            var s := Begun(cfg, salt, sek, newSek, due);
            && Lifecycle(cfg, s, salt, kek, 0) && Steady(cfg, s, 0) && s.cur == 0 && Cur(s).sek == sek
            && Cur(s).pktCnt == 1
            && Injected(Managed(cfg, Created(cfg, salt, sek), newSek, due)) == [Cur(s).km]
  {
    hide KmMsg;
  }

  /** A data packet keeps the invariant, and the counter does not wrap. */
  lemma {:induction false} DataKeeps(cfg: TxCfg, k: nat, s: Tx, salt: seq<byte>, kek: seq<byte>, since: nat)
    requires CfgOk(cfg, k) && Lifecycle(cfg, s, salt, kek, since) && since < k
    ensures Lifecycle(cfg, AfterData(s), salt, kek, since + 1)
    ensures Cur(AfterData(s)).pktCnt == Cur(s).pktCnt + 1 && AfterData(s).cur == s.cur
    ensures Cur(AfterData(s)).sek == Cur(s).sek && Other(AfterData(s)) == Other(s)
    ensures Steady(cfg, s, since) ==> Steady(cfg, AfterData(s), since + 1)
    ensures PreSwitch(cfg, s, salt, since) ==> PreSwitch(cfg, AfterData(s), salt, since + 1)
    ensures Overlap(cfg, s, since) ==> Overlap(cfg, AfterData(s), since + 1)
  {
    hide KmMsg;
  }

  /** What one `ManageKeys` does after 1 to k packets. */
  datatype Outcome = Stayed | Announced | Turned | Forgotten

  function OutcomeOf(cfg: TxCfg, s: Tx): Outcome
    requires Shaped(s) && cfg.preAnnounce <= cfg.refreshRate
  {
    var cnt := Cur(s).pktCnt;
    if cnt > cfg.refreshRate || cnt == 0 then Turned
    else if cnt > cfg.refreshRate - cfg.preAnnounce && !Other(s).announce then Announced
    else if Other(s).status.Deprecated? && cnt > cfg.preAnnounce then Forgotten
    else Stayed
  }

  function After(cfg: TxCfg, s: Tx, newSek: seq<byte>, due: bool): Tx
    requires Shaped(s) && CtxOk(Cur(s), cfg.keyLen) && |newSek| == cfg.keyLen && cfg.preAnnounce <= cfg.refreshRate
  {
    AfterInject(Managed(cfg, s, newSek, due))
  }

  /** While the current key is not used up, nothing changes but the announcement. */
  lemma {:induction false} ManageSteady(cfg: TxCfg, k: nat, s: Tx, salt: seq<byte>, kek: seq<byte>, since: nat,
                                        newSek: seq<byte>, due: bool)
    requires CfgOk(cfg, k) && Lifecycle(cfg, s, salt, kek, since) && 1 <= since <= k && |newSek| == cfg.keyLen
    requires Steady(cfg, s, since)
    ensures var t := After(cfg, s, newSek, due); var out := Injected(Managed(cfg, s, newSek, due));
            && Lifecycle(cfg, t, salt, kek, 0) && t.cur == s.cur && Cur(t).sek == Cur(s).sek
            && Cur(t).pktCnt == Cur(s).pktCnt
            && (if Cur(s).pktCnt > cfg.refreshRate - cfg.preAnnounce
                then PreSwitch(cfg, t, salt, 0) && out == [Other(t).km] && Other(t).sek == newSek
                else Steady(cfg, t, 0) && out == if due then [Cur(t).km] else [])
  {
    hide KmMsg, HasBothSek;
    if Cur(s).pktCnt > cfg.refreshRate - cfg.preAnnounce {
      var next := Other(s).(salt := Cur(s).salt, sek := newSek);
      AsmKmBoth(cfg, kek, Alt(s.cur), next, Some(Cur(s).sek));
    }
  }

  /** The switch: the assertion `KEYED <= alt->status` holds, and the new key starts with no packet. */
  lemma {:induction false} ManagePreSwitch(cfg: TxCfg, k: nat, s: Tx, salt: seq<byte>, kek: seq<byte>, since: nat,
                                           newSek: seq<byte>, due: bool)
    requires CfgOk(cfg, k) && Lifecycle(cfg, s, salt, kek, since) && 1 <= since <= k && |newSek| == cfg.keyLen
    requires PreSwitch(cfg, s, salt, since)
    ensures var t := After(cfg, s, newSek, due); var out := Injected(Managed(cfg, s, newSek, due));
            && Lifecycle(cfg, t, salt, kek, 0)
            && (if Cur(s).pktCnt > cfg.refreshRate
                then Overlap(cfg, t, 0) && t.cur == Alt(s.cur) && Cur(t).sek == Other(s).sek
                     && Other(t).sek == Cur(s).sek
                     && Cur(t).pktCnt == 0 && out == (if due then [Cur(t).km] else [])
                else PreSwitch(cfg, t, salt, 0) && t.cur == s.cur && Cur(t).sek == Cur(s).sek
                     && Other(t).sek == Other(s).sek
                     && Cur(t).pktCnt == Cur(s).pktCnt && out == if due then [Other(t).km] else [])
    ensures OutcomeOf(cfg, s).Turned? ==> Rank(Keyed) <= Rank(Other(s).status)
  {
    hide KmMsg, HasBothSek;
  }

  /** The end of the overlap: the old key leaves the announcement, long before the next refresh. */
  lemma {:induction false} ManageOverlap(cfg: TxCfg, k: nat, s: Tx, salt: seq<byte>, kek: seq<byte>, since: nat,
                                         newSek: seq<byte>, due: bool)
    requires CfgOk(cfg, k) && Lifecycle(cfg, s, salt, kek, since) && 1 <= since <= k && |newSek| == cfg.keyLen
    requires Overlap(cfg, s, since)
    ensures var t := After(cfg, s, newSek, due); var out := Injected(Managed(cfg, s, newSek, due));
            && Lifecycle(cfg, t, salt, kek, 0) && t.cur == s.cur && Cur(t).sek == Cur(s).sek
            && Cur(t).pktCnt == Cur(s).pktCnt
            && out == (if due then [Cur(t).km] else [])
            && (if Cur(s).pktCnt > cfg.preAnnounce
                then Steady(cfg, t, 0)
                else Overlap(cfg, t, 0) && Other(t).sek == Other(s).sek)
  {
    hide KmMsg, HasBothSek;
    AsmKmBoth(cfg, kek, s.cur, Cur(s), Some(Other(s).sek));
  }

  /** Why at least one packet must lie between two calls: in the overlap the sender stays with the new key if and only
      if that key has been used, because a count of 0 is read as a counter that has rolled over. */
  lemma {:induction false} StaysIffUsed(cfg: TxCfg, k: nat, s: Tx, salt: seq<byte>, kek: seq<byte>, since: nat,
                                        newSek: seq<byte>, due: bool)
    requires CfgOk(cfg, k) && Lifecycle(cfg, s, salt, kek, since) && since <= k && |newSek| == cfg.keyLen
    requires Overlap(cfg, s, since)
    ensures After(cfg, s, newSek, due).cur == s.cur <==> Cur(s).pktCnt != 0
  {
    hide KmMsg, HasBothSek;
  }

  // ----- Runs and what they put on the wire -----

  /** A Keying Material message with the keys it carries, or a data packet with its slot, its key, and the number of
      switches before it. */
  datatype Item = KmSent(msg: seq<byte>, keys: Keys) | PktSent(gen: nat, slot: nat, sek: seq<byte>)

  datatype Act = Send | Manage(newSek: seq<byte>, due: bool)

  datatype Run = Run(s: Tx, gen: nat, since: nat, log: seq<Item>)

  function KmItems(cfg: TxCfg, kek: seq<byte>, msgs: seq<seq<byte>>): seq<Item> {
    seq(|msgs|, i requires 0 <= i < |msgs| => KmSent(msgs[i], Carried(cfg.crypto, kek, msgs[i])))
  }

  predicate Allowed(cfg: TxCfg, k: nat, r: Run, a: Act) {
    && Shaped(r.s) && CtxOk(Cur(r.s), cfg.keyLen) && cfg.preAnnounce <= cfg.refreshRate
    && if a.Send? then r.since < k else 1 <= r.since <= k && |a.newSek| == cfg.keyLen
  }

  function Perform(cfg: TxCfg, k: nat, r: Run, a: Act): Run
    requires Allowed(cfg, k, r, a)
  {
    match a
    case Send =>
      Run(AfterData(r.s), r.gen, r.since + 1, r.log + [PktSent(r.gen, r.s.cur, Cur(r.s).sek)])
    case Manage(newSek, due) =>
      var m := Managed(cfg, r.s, newSek, due);
      Run(AfterInject(m), r.gen + if OutcomeOf(cfg, r.s).Turned? then 1 else 0, 0,
          r.log + KmItems(cfg, r.s.kek, Injected(m)))
  }

  function FirstManage(cfg: TxCfg, salt: seq<byte>, sek: seq<byte>, newSek: seq<byte>, due: bool): (r: Run)
    requires KeyLenOk(cfg.keyLen) && |salt| == SALT_SZ && |sek| == cfg.keyLen && |newSek| == cfg.keyLen
    requires cfg.preAnnounce <= cfg.refreshRate
    ensures r.gen == 0 && r.since == 0
  {
    var m := Managed(cfg, Created(cfg, salt, sek), newSek, due);
    Run(AfterInject(m), 0, 0, KmItems(cfg, m.kek, Injected(m)))
  }

  /** The key of a slot according to the last message before position `n` that carries that slot. */
  function KeyAt(log: seq<Item>, n: nat, slot: nat): Option<seq<byte>>
    requires n <= |log|
  {
    if n == 0 then None
    else
      match log[n - 1]
      case KmSent(_, keys) => if KeyFor(keys, slot).Some? then KeyFor(keys, slot) else KeyAt(log, n - 1, slot)
      case PktSent(_, _, _) => KeyAt(log, n - 1, slot)
  }

  lemma {:induction false} KeyAtPrefix(log: seq<Item>, more: seq<Item>, n: nat, slot: nat)
    requires n <= |log|
    ensures KeyAt(log + more, n, slot) == KeyAt(log, n, slot)
    decreases n
  {
    if n > 0 {
      KeyAtPrefix(log, more, n - 1, slot);
    }
  }

  /** The number of packets of generation `g`, and of generations before it, from position `from` on. */
  function PacketsOf(log: seq<Item>, g: nat): nat {
    if log == [] then 0
    else
      PacketsOf(log[..|log| - 1], g) + if log[|log| - 1].PktSent? && log[|log| - 1].gen == g then 1 else 0
  }

  function OlderFrom(log: seq<Item>, from: nat, g: nat): nat
    requires from <= |log|
    decreases |log|
  {
    if from == |log| then 0
    else
      OlderFrom(log[..|log| - 1], from, g) + if log[|log| - 1].PktSent? && log[|log| - 1].gen < g then 1 else 0
  }

  lemma {:induction false} OlderGrows(log: seq<Item>, more: seq<Item>, from: nat, g: nat)
    requires from <= |log|
    ensures OlderFrom(log + more, from, g) >= OlderFrom(log, from, g)
    decreases |more|
  {
    if more == [] {
      assert log + more == log;
    } else {
      OlderGrows(log, more[..|more| - 1], from, g);
      assert (log + more)[..|log + more| - 1] == log + more[..|more| - 1];
    }
  }

  // ----- What every log satisfies -----

  /** Every message is an assembled one under the session's KEK and salt. */
  ghost predicate Authentic(cfg: TxCfg, salt: seq<byte>, kek: seq<byte>, it: Item) {
    it.KmSent? ==>
      && KeysOk(it.keys, cfg.keyLen) && |salt| == SALT_SZ
      && it.msg == KmMsg(cfg.crypto, kek, salt, it.keys, cfg.keyLen)
  }

  /** A packet goes out under the key its slot was last announced with; a one-key message only repeats a key. */
  ghost predicate Announces(log: seq<Item>, j: nat)
    requires j < |log|
  {
    match log[j]
    case PktSent(_, slot, sek) => slot < 2 && KeyAt(log, j, slot) == Some(sek)
    case KmSent(_, keys) =>
      forall slot :: 0 <= slot < 2 && KeyFor(keys, slot).Some? && KeyFor(keys, 1 - slot).None? && j > 0 ==>
        KeyAt(log, j, slot) == KeyFor(keys, slot)
  }

  ghost predicate LogOk(cfg: TxCfg, salt: seq<byte>, kek: seq<byte>, log: seq<Item>) {
    && 0 < |log| && log[0].KmSent? && log[0].keys.odd.None?
    && (forall j :: 0 <= j < |log| ==> Authentic(cfg, salt, kek, log[j]))
    && (forall j :: 0 <= j < |log| ==> Announces(log, j))
  }

  lemma {:induction false} LogSnoc(cfg: TxCfg, salt: seq<byte>, kek: seq<byte>, log: seq<Item>, it: Item)
    requires LogOk(cfg, salt, kek, log) && Authentic(cfg, salt, kek, it)
    requires it.PktSent? ==> it.slot < 2 && KeyAt(log, |log|, it.slot) == Some(it.sek)
    requires it.KmSent? ==>
      forall slot :: 0 <= slot < 2 && KeyFor(it.keys, slot).Some? && KeyFor(it.keys, 1 - slot).None? ==>
                              KeyAt(log, |log|, slot) == KeyFor(it.keys, slot)
    ensures LogOk(cfg, salt, kek, log + [it])
  {
    var all := log + [it];
    forall j | 0 <= j < |all| ensures Announces(all, j) {
      KeyAtPrefix(log, [it], j, 0);
      KeyAtPrefix(log, [it], j, 1);
      if j < |log| {
        assert Announces(log, j) && all[j] == log[j];
      }
    }
  }

  /** The receiver's picture, if it has seen everything, agrees with the sender's contexts. */
  ghost predicate Told(cfg: TxCfg, r: Run)
    requires Shaped(r.s)
  {
    && KeyAt(r.log, |r.log|, r.s.cur) == Some(Cur(r.s).sek)
    && (!Other(r.s).status.Sardy? ==> KeyAt(r.log, |r.log|, Alt(r.s.cur)) == Some(Other(r.s).sek))
  }

  ghost predicate RunOk(cfg: TxCfg, k: nat, salt: seq<byte>, kek: seq<byte>, r: Run) {
    Lifecycle(cfg, r.s, salt, kek, r.since) && r.since <= k && LogOk(cfg, salt, kek, r.log) && Told(cfg, r)
  }

  /** Appending one of the two messages a context can announce. */
  lemma {:induction false} AppendKm(cfg: TxCfg, salt: seq<byte>, kek: seq<byte>, log: seq<Item>, keys: Keys)
    requires LogOk(cfg, salt, kek, log) && DecInvertsEnc(cfg.crypto.aes, kek)
    requires KeysOk(keys, cfg.keyLen) && |salt| == SALT_SZ
    requires forall slot :: 0 <= slot < 2 && KeyFor(keys, slot).Some? && KeyFor(keys, 1 - slot).None? ==>
               KeyAt(log, |log|, slot) == KeyFor(keys, slot)
    ensures var all := log + KmItems(cfg, kek, [KmMsg(cfg.crypto, kek, salt, keys, cfg.keyLen)]);
            && LogOk(cfg, salt, kek, all)
            && forall slot :: 0 <= slot < 2 ==>
                 KeyAt(all, |all|, slot)
                 == if KeyFor(keys, slot).Some? then KeyFor(keys, slot) else KeyAt(log, |log|, slot)
  {
    hide KmMsg, Carried, LogOk;
    var msg := KmMsg(cfg.crypto, kek, salt, keys, cfg.keyLen);
    CarriedOfKmMsg(cfg.crypto, kek, salt, keys, cfg.keyLen);
    var it := KmSent(msg, keys);
    assert KmItems(cfg, kek, [msg]) == [it];
    LogSnoc(cfg, salt, kek, log, it);
    KeyAtPrefix(log, [it], |log|, 0);
    KeyAtPrefix(log, [it], |log|, 1);
  }

  lemma {:induction false} AppendNothing(cfg: TxCfg, kek: seq<byte>, log: seq<Item>)
    ensures log + KmItems(cfg, kek, []) == log
  {
  }

  lemma {:induction false} SendKeeps(cfg: TxCfg, k: nat, salt: seq<byte>, kek: seq<byte>, r: Run)
    requires CfgOk(cfg, k) && RunOk(cfg, k, salt, kek, r) && r.since < k
    ensures RunOk(cfg, k, salt, kek, Perform(cfg, k, r, Send))
  {
    hide LogOk, Lifecycle, AfterData, KeyAt;
    assert Shaped(r.s) && CtxOk(Cur(r.s), cfg.keyLen) by { LifecycleShape(cfg, r.s, salt, kek, r.since); }
    DataKeeps(cfg, k, r.s, salt, kek, r.since);
    LifecycleShape(cfg, AfterData(r.s), salt, kek, r.since + 1);
    var it := PktSent(r.gen, r.s.cur, Cur(r.s).sek);
    LogSnoc(cfg, salt, kek, r.log, it);
    PacketChangesNoKey(r.log, it, r.s.cur);
    PacketChangesNoKey(r.log, it, Alt(r.s.cur));
  }

  lemma {:induction false} PacketChangesNoKey(log: seq<Item>, it: Item, slot: nat)
    requires it.PktSent?
    ensures KeyAt(log + [it], |log| + 1, slot) == KeyAt(log, |log|, slot)
  {
    KeyAtPrefix(log, [it], |log|, slot);
  }

  lemma {:induction false} LifecycleShape(cfg: TxCfg, s: Tx, salt: seq<byte>, kek: seq<byte>, since: nat)
    requires Lifecycle(cfg, s, salt, kek, since)
    ensures Shaped(s) && CtxOk(Cur(s), cfg.keyLen) && Cur(s).salt == salt && s.kek == kek
  {
  }

  /** The log after `ManageKeys`, by what it announced: nothing, or the keys of one context. */
  lemma {:induction false} ManageSteadyLog(cfg: TxCfg, k: nat, salt: seq<byte>, kek: seq<byte>, r: Run, a: Act)
    requires CfgOk(cfg, k) && RunOk(cfg, k, salt, kek, r) && DecInvertsEnc(cfg.crypto.aes, kek)
    requires a.Manage? && Allowed(cfg, k, r, a) && Steady(cfg, r.s, r.since)
    ensures RunOk(cfg, k, salt, kek, Perform(cfg, k, r, a))
  {
    hide KmMsg, LogOk, KeyAt, KmItems, Managed, AfterInject, Injected;
    ManageSteady(cfg, k, r.s, salt, kek, r.since, a.newSek, a.due);
    var t := Perform(cfg, k, r, a).s;
    if Cur(r.s).pktCnt > cfg.refreshRate - cfg.preAnnounce {
      AppendKm(cfg, salt, kek, r.log, KeysOf(Alt(t.cur), Other(t).sek, Some(Cur(t).sek)));
    } else if a.due {
      AppendKm(cfg, salt, kek, r.log, KeysOf(t.cur, Cur(t).sek, None));
    } else {
      AppendNothing(cfg, kek, r.log);
    }
  }

  lemma {:induction false} ManagePreSwitchLog(cfg: TxCfg, k: nat, salt: seq<byte>, kek: seq<byte>, r: Run, a: Act)
    requires CfgOk(cfg, k) && RunOk(cfg, k, salt, kek, r) && DecInvertsEnc(cfg.crypto.aes, kek)
    requires a.Manage? && Allowed(cfg, k, r, a) && PreSwitch(cfg, r.s, salt, r.since)
    ensures RunOk(cfg, k, salt, kek, Perform(cfg, k, r, a))
  {
    hide KmMsg, LogOk, KeyAt, KmItems, Managed, AfterInject, Injected;
    ManagePreSwitch(cfg, k, r.s, salt, kek, r.since, a.newSek, a.due);
    var t := Perform(cfg, k, r, a).s;
    if !a.due {
      AppendNothing(cfg, kek, r.log);
    } else if Cur(r.s).pktCnt > cfg.refreshRate {
      AppendKm(cfg, salt, kek, r.log, KeysOf(t.cur, Cur(t).sek, Some(Other(t).sek)));
    } else {
      AppendKm(cfg, salt, kek, r.log, KeysOf(Alt(t.cur), Other(t).sek, Some(Cur(t).sek)));
    }
  }

  lemma {:induction false} ManageOverlapLog(cfg: TxCfg, k: nat, salt: seq<byte>, kek: seq<byte>, r: Run, a: Act)
    requires CfgOk(cfg, k) && RunOk(cfg, k, salt, kek, r) && DecInvertsEnc(cfg.crypto.aes, kek)
    requires a.Manage? && Allowed(cfg, k, r, a) && Overlap(cfg, r.s, r.since)
    ensures RunOk(cfg, k, salt, kek, Perform(cfg, k, r, a))
  {
    hide KmMsg, LogOk, KeyAt, KmItems, Managed, AfterInject, Injected;
    ManageOverlap(cfg, k, r.s, salt, kek, r.since, a.newSek, a.due);
    var t := Perform(cfg, k, r, a).s;
    if !a.due {
      AppendNothing(cfg, kek, r.log);
    } else if Cur(r.s).pktCnt > cfg.preAnnounce {
      AppendKm(cfg, salt, kek, r.log, KeysOf(t.cur, Cur(t).sek, None));
    } else {
      AppendKm(cfg, salt, kek, r.log, KeysOf(t.cur, Cur(t).sek, Some(Other(t).sek)));
    }
  }

  lemma {:induction false} PerformKeeps(cfg: TxCfg, k: nat, salt: seq<byte>, kek: seq<byte>, r: Run, a: Act)
    requires CfgOk(cfg, k) && RunOk(cfg, k, salt, kek, r) && DecInvertsEnc(cfg.crypto.aes, kek) && Allowed(cfg, k, r, a)
    ensures RunOk(cfg, k, salt, kek, Perform(cfg, k, r, a))
  {
    hide Perform, LogOk, Told;
    if a.Send? {
      SendKeeps(cfg, k, salt, kek, r);
    } else if Steady(cfg, r.s, r.since) {
      ManageSteadyLog(cfg, k, salt, kek, r, a);
    } else if PreSwitch(cfg, r.s, salt, r.since) {
      ManagePreSwitchLog(cfg, k, salt, kek, r, a);
    } else {
      ManageOverlapLog(cfg, k, salt, kek, r, a);
    }
  }

  lemma {:induction false} FirstManageOk(cfg: TxCfg, k: nat, salt: seq<byte>, sek: seq<byte>, newSek: seq<byte>,
                                         due: bool)
    requires CfgOk(cfg, k) && |salt| == SALT_SZ && |sek| == cfg.keyLen && |newSek| == cfg.keyLen
    requires DecInvertsEnc(cfg.crypto.aes, GenSecret(cfg.crypto, cfg.pwd, salt, cfg.keyLen))
    ensures RunOk(cfg, k, salt, GenSecret(cfg.crypto, cfg.pwd, salt, cfg.keyLen),
                  FirstManage(cfg, salt, sek, newSek, due))
    ensures var r := FirstManage(cfg, salt, sek, newSek, due);
            |r.log| == 1 && r.log[0].KmSent? && Steady(cfg, r.s, 0) && Cur(r.s).pktCnt == 1
  {
    hide KmMsg, Carried;
    var kek := GenSecret(cfg.crypto, cfg.pwd, salt, cfg.keyLen);
    BeginsSteady(cfg, k, salt, sek, newSek, due);
    var r := FirstManage(cfg, salt, sek, newSek, due);
    var keys := KeysOf(0, sek, None);
    CarriedOfKmMsg(cfg.crypto, kek, salt, keys, cfg.keyLen);
    var it := KmSent(Cur(r.s).km, keys);
    assert r.log == [it];
    assert KeyAt([it], 0, 0) == None;
    assert Announces([it], 0);
  }

  /** A run is allowed when every act is, at its point. */
  ghost predicate AllowedAll(cfg: TxCfg, k: nat, r: Run, acts: seq<Act>)
    decreases |acts|, 0
  {
    acts == []
    || (AllowedAll(cfg, k, r, acts[..|acts| - 1])
        && Allowed(cfg, k, PerformAll(cfg, k, r, acts[..|acts| - 1]), acts[|acts| - 1]))
  }

  ghost function PerformAll(cfg: TxCfg, k: nat, r: Run, acts: seq<Act>): Run
    requires AllowedAll(cfg, k, r, acts)
    decreases |acts|, 1
  {
    if acts == [] then r else Perform(cfg, k, PerformAll(cfg, k, r, acts[..|acts| - 1]), acts[|acts| - 1])
  }

  /** THEOREM (life cycle and announcements, over every run). */
  lemma {:induction false} EveryRunOk(cfg: TxCfg, k: nat, salt: seq<byte>, kek: seq<byte>, r: Run, acts: seq<Act>)
    requires CfgOk(cfg, k) && RunOk(cfg, k, salt, kek, r) && DecInvertsEnc(cfg.crypto.aes, kek)
    requires AllowedAll(cfg, k, r, acts)
    ensures RunOk(cfg, k, salt, kek, PerformAll(cfg, k, r, acts))
    decreases |acts|
  {
    hide Perform, RunOk, Allowed;
    if acts != [] {
      EveryRunOk(cfg, k, salt, kek, r, acts[..|acts| - 1]);
      PerformKeeps(cfg, k, salt, kek, PerformAll(cfg, k, r, acts[..|acts| - 1]), acts[|acts| - 1]);
    }
  }

  // ----- Packet counts -----

  /** The counter tells the packets of the current generation (the first one starts at 1), and no earlier generation
      exceeded R + k. */
  ghost predicate Counted(cfg: TxCfg, k: nat, r: Run)
    requires Shaped(r.s)
  {
    && PacketsOf(r.log, r.gen) + (if r.gen == 0 then 1 else 0) == Cur(r.s).pktCnt
    && (forall g: nat :: g < r.gen ==> PacketsOf(r.log, g) <= cfg.refreshRate + k)
    && (forall g: nat :: r.gen < g ==> PacketsOf(r.log, g) == 0)
  }

  lemma {:induction false} KmsAreNoPackets(cfg: TxCfg, kek: seq<byte>, log: seq<Item>, msgs: seq<seq<byte>>, g: nat)
    ensures PacketsOf(log + KmItems(cfg, kek, msgs), g) == PacketsOf(log, g)
    decreases |msgs|
  {
    hide Carried;
    var all := log + KmItems(cfg, kek, msgs);
    if msgs == [] {
      assert all == log;
    } else {
      var pre := msgs[..|msgs| - 1];
      KmsAreNoPackets(cfg, kek, log, pre, g);
      assert all[..|all| - 1] == log + KmItems(cfg, kek, pre);
      assert all[|all| - 1].KmSent?;
    }
  }

  lemma {:induction false} CountBound(cfg: TxCfg, k: nat, s: Tx, salt: seq<byte>, kek: seq<byte>, since: nat)
    requires CfgOk(cfg, k) && Lifecycle(cfg, s, salt, kek, since) && since <= k
    ensures Cur(s).pktCnt <= cfg.refreshRate + k
  {
  }

  /** After `ManageKeys` the counter is unchanged, or 0 for the key just switched to. */
  lemma {:induction false} ManageCounter(cfg: TxCfg, k: nat, salt: seq<byte>, kek: seq<byte>, r: Run, a: Act)
    requires CfgOk(cfg, k) && RunOk(cfg, k, salt, kek, r) && a.Manage? && Allowed(cfg, k, r, a)
    ensures var t := Perform(cfg, k, r, a);
            && Shaped(t.s) && t.gen == r.gen + (if OutcomeOf(cfg, r.s).Turned? then 1 else 0)
            && Cur(t.s).pktCnt == (if OutcomeOf(cfg, r.s).Turned? then 0 else Cur(r.s).pktCnt)
            && t.log == r.log + KmItems(cfg, kek, Injected(Managed(cfg, r.s, a.newSek, a.due)))
    ensures OutcomeOf(cfg, r.s).Turned? <==> PreSwitch(cfg, r.s, salt, r.since) && Cur(r.s).pktCnt > cfg.refreshRate
    ensures OutcomeOf(cfg, r.s).Turned? ==> Rank(Keyed) <= Rank(Other(r.s).status)
  {
    hide KmMsg, LogOk, Told, KmItems, Managed, AfterInject, Injected;
    if Steady(cfg, r.s, r.since) {
      ManageSteady(cfg, k, r.s, salt, kek, r.since, a.newSek, a.due);
    } else if PreSwitch(cfg, r.s, salt, r.since) {
      ManagePreSwitch(cfg, k, r.s, salt, kek, r.since, a.newSek, a.due);
    } else {
      ManageOverlap(cfg, k, r.s, salt, kek, r.since, a.newSek, a.due);
    }
  }

  lemma {:induction false} CountedKeeps(cfg: TxCfg, k: nat, salt: seq<byte>, kek: seq<byte>, r: Run, a: Act)
    requires CfgOk(cfg, k) && RunOk(cfg, k, salt, kek, r) && Counted(cfg, k, r) && Allowed(cfg, k, r, a)
    ensures Shaped(Perform(cfg, k, r, a).s) && Counted(cfg, k, Perform(cfg, k, r, a))
  {
    hide KmMsg, LogOk, Told, KmItems, Managed, AfterInject, Injected;
    var t := Perform(cfg, k, r, a);
    CountBound(cfg, k, r.s, salt, kek, r.since);
    if a.Send? {
      DataKeeps(cfg, k, r.s, salt, kek, r.since);
      forall g: nat ensures PacketsOf(t.log, g) == PacketsOf(r.log, g) + if g == r.gen then 1 else 0 {
        assert t.log[..|t.log| - 1] == r.log;
      }
    } else {
      ManageCounter(cfg, k, salt, kek, r, a);
      forall g: nat ensures PacketsOf(t.log, g) == PacketsOf(r.log, g) {
        KmsAreNoPackets(cfg, kek, r.log, Injected(Managed(cfg, r.s, a.newSek, a.due)), g);
      }
    }
  }

  /** THEOREM (rotation arithmetic). In every run no key encrypts more than R + k packets. */
  lemma {:induction false} NoKeyOverused(cfg: TxCfg, k: nat, salt: seq<byte>, kek: seq<byte>, r: Run, acts: seq<Act>,
                                         g: nat)
    requires CfgOk(cfg, k) && RunOk(cfg, k, salt, kek, r) && Counted(cfg, k, r)
    requires DecInvertsEnc(cfg.crypto.aes, kek) && AllowedAll(cfg, k, r, acts)
    ensures var t := PerformAll(cfg, k, r, acts); Shaped(t.s) && Counted(cfg, k, t)
    ensures PacketsOf(PerformAll(cfg, k, r, acts).log, g) <= cfg.refreshRate + k
    decreases |acts|
  {
    hide Perform, Allowed, Lifecycle, LogOk, Told;
    EveryRunOk(cfg, k, salt, kek, r, acts);
    var t := PerformAll(cfg, k, r, acts);
    LifecycleShape(cfg, t.s, salt, kek, t.since);
    CountBound(cfg, k, t.s, salt, kek, t.since);
    if acts != [] {
      var pre := acts[..|acts| - 1];
      NoKeyOverused(cfg, k, salt, kek, r, pre, g);
      EveryRunOk(cfg, k, salt, kek, r, pre);
      CountedKeeps(cfg, k, salt, kek, PerformAll(cfg, k, r, pre), acts[|acts| - 1]);
    }
  }

  // ----- Lead of the announcement -----

  /** Position `i` announces `sek` for `slot`, together with the other key. */
  ghost predicate Introduces(log: seq<Item>, i: nat, slot: nat, sek: seq<byte>) {
    && i < |log| && log[i].KmSent? && KeyFor(log[i].keys, slot) == Some(sek)
    && log[i].keys.even.Some? && log[i].keys.odd.Some?
  }

  /** Some announcement of the key has `lead` packets of older generations behind it. */
  ghost predicate Led(log: seq<Item>, slot: nat, sek: seq<byte>, g: nat, lead: int) {
    exists i: nat :: Introduces(log, i, slot, sek) && OlderFrom(log, i, g) >= lead
  }

  ghost predicate LeadOk(cfg: TxCfg, k: nat, salt: seq<byte>, r: Run)
    requires Shaped(r.s) && CtxOk(Cur(r.s), cfg.keyLen)
  {
    && (PreSwitch(cfg, r.s, salt, r.since) ==>
          Led(r.log, Alt(r.s.cur), Other(r.s).sek, r.gen + 1,
                  Cur(r.s).pktCnt - (cfg.refreshRate - cfg.preAnnounce + k)))
    && (r.gen >= 1 ==> Led(r.log, r.s.cur, Cur(r.s).sek, r.gen, cfg.preAnnounce + 1 - k))
    && (forall p :: 0 <= p < |r.log| && r.log[p].PktSent? && r.log[p].gen >= 1 ==>
          Led(r.log[..p], r.log[p].slot, r.log[p].sek, r.log[p].gen, cfg.preAnnounce + 1 - k))
  }

  lemma {:induction false} LedGrows(log: seq<Item>, more: seq<Item>, slot: nat, sek: seq<byte>, g: nat, lead: int)
    requires Led(log, slot, sek, g, lead)
    ensures Led(log + more, slot, sek, g, lead)
  {
    hide OlderFrom;
    var i: nat :| Introduces(log, i, slot, sek) && OlderFrom(log, i, g) >= lead;
    OlderGrows(log, more, i, g);
    assert Introduces(log + more, i, slot, sek);
  }

  lemma {:induction false} LedByPacket(log: seq<Item>, it: Item, slot: nat, sek: seq<byte>, g: nat, lead: int)
    requires Led(log, slot, sek, g, lead) && it.PktSent? && it.gen < g
    ensures Led(log + [it], slot, sek, g, lead + 1)
  {
    var i: nat :| Introduces(log, i, slot, sek) && OlderFrom(log, i, g) >= lead;
    assert (log + [it])[..|log|] == log;
    assert OlderFrom(log + [it], i, g) == OlderFrom(log, i, g) + 1;
    assert Introduces(log + [it], i, slot, sek);
  }

  lemma {:induction false} LedNow(cfg: TxCfg, kek: seq<byte>, salt: seq<byte>, log: seq<Item>, keys: Keys, slot: nat,
                                  g: nat)
    requires DecInvertsEnc(cfg.crypto.aes, kek) && KeysOk(keys, cfg.keyLen) && |salt| == SALT_SZ
    requires keys.even.Some? && keys.odd.Some? && slot < 2
    ensures Led(log + KmItems(cfg, kek, [KmMsg(cfg.crypto, kek, salt, keys, cfg.keyLen)]),
                slot, KeyFor(keys, slot).value, g, 0)
  {
    hide KmMsg, Carried;
    CarriedOfKmMsg(cfg.crypto, kek, salt, keys, cfg.keyLen);
    var all := log + KmItems(cfg, kek, [KmMsg(cfg.crypto, kek, salt, keys, cfg.keyLen)]);
    assert Introduces(all, |log|, slot, KeyFor(keys, slot).value);
    assert OlderFrom(all, |log|, g) >= 0;
  }

  /** Packets already in the log keep their lead when the log grows. */
  lemma {:induction false} OldLeadsStay(log: seq<Item>, more: seq<Item>, lead: int)
    requires forall p :: 0 <= p < |log| && log[p].PktSent? && log[p].gen >= 1 ==>
               Led(log[..p], log[p].slot, log[p].sek, log[p].gen, lead)
    requires forall p :: 0 <= p < |more| && more[p].PktSent? && more[p].gen >= 1 ==>
               |more| == 1 && Led(log, more[p].slot, more[p].sek, more[p].gen, lead)
    ensures forall p :: 0 <= p < |log + more| && (log + more)[p].PktSent? && (log + more)[p].gen >= 1 ==>
              Led((log + more)[..p], (log + more)[p].slot, (log + more)[p].sek, (log + more)[p].gen, lead)
  {
    hide Led;
    var all := log + more;
    forall p | 0 <= p < |all| && all[p].PktSent? && all[p].gen >= 1
      ensures Led(all[..p], all[p].slot, all[p].sek, all[p].gen, lead)
    {
      if p < |log| {
        assert all[..p] == log[..p] && all[p] == log[p];
      } else {
        assert all[p] == more[p - |log|];
        assert all[..p] == log;
      }
    }
  }

  lemma {:induction false} SendLead(cfg: TxCfg, k: nat, salt: seq<byte>, kek: seq<byte>, r: Run)
    requires CfgOk(cfg, k) && RunOk(cfg, k, salt, kek, r) && r.since < k && LeadOk(cfg, k, salt, r)
    ensures var t := Perform(cfg, k, r, Send); Shaped(t.s) && CtxOk(Cur(t.s), cfg.keyLen) && LeadOk(cfg, k, salt, t)
  {
    hide LogOk, Told, Led, KmMsg, Lifecycle, Steady, PreSwitch, Overlap, AfterData;
    LifecycleShape(cfg, r.s, salt, kek, r.since);
    var it := PktSent(r.gen, r.s.cur, Cur(r.s).sek);
    DataKeeps(cfg, k, r.s, salt, kek, r.since);
    LifecycleShape(cfg, AfterData(r.s), salt, kek, r.since + 1);
    PhasesAcrossData(cfg, k, r.s, salt, kek, r.since);
    OldLeadsStay(r.log, [it], cfg.preAnnounce + 1 - k);
    if r.gen >= 1 {
      LedGrows(r.log, [it], r.s.cur, Cur(r.s).sek, r.gen, cfg.preAnnounce + 1 - k);
    }
    if PreSwitch(cfg, r.s, salt, r.since) {
      LedByPacket(r.log, it, Alt(r.s.cur), Other(r.s).sek, r.gen + 1,
                  Cur(r.s).pktCnt - (cfg.refreshRate - cfg.preAnnounce + k));
    }
  }

  lemma {:induction false} PhasesAcrossData(cfg: TxCfg, k: nat, s: Tx, salt: seq<byte>, kek: seq<byte>, since: nat)
    requires CfgOk(cfg, k) && Lifecycle(cfg, s, salt, kek, since) && since < k
    ensures Lifecycle(cfg, AfterData(s), salt, kek, since + 1)
    ensures PreSwitch(cfg, AfterData(s), salt, since + 1) ==> PreSwitch(cfg, s, salt, since)
  {
    hide KmMsg;
    DataKeeps(cfg, k, s, salt, kek, since);
  }

  /** What every `ManageKeys` leaves of the leads. */
  lemma {:induction false} LeadsSurvive(cfg: TxCfg, k: nat, salt: seq<byte>, kek: seq<byte>, r: Run, a: Act)
    requires CfgOk(cfg, k) && RunOk(cfg, k, salt, kek, r) && LeadOk(cfg, k, salt, r) && a.Manage?
    requires Allowed(cfg, k, r, a)
    ensures var t := Perform(cfg, k, r, a); var lead := cfg.preAnnounce + 1 - k;
            && (r.gen >= 1 ==> Led(t.log, r.s.cur, Cur(r.s).sek, r.gen, lead))
            && (PreSwitch(cfg, r.s, salt, r.since) ==>
                  Led(t.log, Alt(r.s.cur), Other(r.s).sek, r.gen + 1,
                  Cur(r.s).pktCnt - (cfg.refreshRate - cfg.preAnnounce + k)))
            && (forall p :: 0 <= p < |t.log| && t.log[p].PktSent? && t.log[p].gen >= 1 ==>
                  Led(t.log[..p], t.log[p].slot, t.log[p].sek, t.log[p].gen, lead))
  {
    hide KmMsg, LogOk, Told, KmItems, Managed, AfterInject, Injected, Led, Steady, PreSwitch, Overlap;
    var msgs := Injected(Managed(cfg, r.s, a.newSek, a.due));
    var more := KmItems(cfg, kek, msgs);
    var lead := cfg.preAnnounce + 1 - k;
    KmItemsAreKms(cfg, kek, msgs);
    OldLeadsStay(r.log, more, lead);
    if r.gen >= 1 {
      LedGrows(r.log, more, r.s.cur, Cur(r.s).sek, r.gen, lead);
    }
    if PreSwitch(cfg, r.s, salt, r.since) {
      LedGrows(r.log, more, Alt(r.s.cur), Other(r.s).sek, r.gen + 1,
               Cur(r.s).pktCnt - (cfg.refreshRate - cfg.preAnnounce + k));
    }
  }

  lemma {:induction false} ManageLeadSteady(cfg: TxCfg, k: nat, salt: seq<byte>, kek: seq<byte>, r: Run, a: Act)
    requires CfgOk(cfg, k) && RunOk(cfg, k, salt, kek, r) && DecInvertsEnc(cfg.crypto.aes, kek)
    requires LeadOk(cfg, k, salt, r)
    requires a.Manage? && Allowed(cfg, k, r, a) && Steady(cfg, r.s, r.since)
    ensures var t := Perform(cfg, k, r, a); CtxOk(Cur(t.s), cfg.keyLen) && LeadOk(cfg, k, salt, t)
  {
    hide KmMsg, LogOk, Told, KmItems, Managed, AfterInject, Injected, Led;
    var t := Perform(cfg, k, r, a);
    LeadsSurvive(cfg, k, salt, kek, r, a);
    ManageSteady(cfg, k, r.s, salt, kek, r.since, a.newSek, a.due);
    if Cur(r.s).pktCnt > cfg.refreshRate - cfg.preAnnounce {
      LedNow(cfg, kek, salt, r.log, KeysOf(Alt(t.s.cur), Other(t.s).sek, Some(Cur(t.s).sek)), Alt(t.s.cur), t.gen + 1);
      LedLess(t.log, Alt(t.s.cur), Other(t.s).sek, t.gen + 1, 0,
              Cur(t.s).pktCnt - (cfg.refreshRate - cfg.preAnnounce + k));
    }
  }

  lemma {:induction false} ManageLeadOther(cfg: TxCfg, k: nat, salt: seq<byte>, kek: seq<byte>, r: Run, a: Act)
    requires CfgOk(cfg, k) && RunOk(cfg, k, salt, kek, r) && LeadOk(cfg, k, salt, r)
    requires a.Manage? && Allowed(cfg, k, r, a) && !Steady(cfg, r.s, r.since)
    ensures var t := Perform(cfg, k, r, a); CtxOk(Cur(t.s), cfg.keyLen) && LeadOk(cfg, k, salt, t)
  {
    hide KmMsg, LogOk, Told, KmItems, Managed, AfterInject, Injected, Led;
    var t := Perform(cfg, k, r, a);
    LeadsSurvive(cfg, k, salt, kek, r, a);
    if PreSwitch(cfg, r.s, salt, r.since) {
      ManagePreSwitch(cfg, k, r.s, salt, kek, r.since, a.newSek, a.due);
      if Cur(r.s).pktCnt > cfg.refreshRate {
        LedLess(t.log, t.s.cur, Cur(t.s).sek, t.gen, Cur(r.s).pktCnt - (cfg.refreshRate - cfg.preAnnounce + k),
                cfg.preAnnounce + 1 - k);
      }
    } else {
      ManageOverlap(cfg, k, r.s, salt, kek, r.since, a.newSek, a.due);
    }
  }

  lemma {:induction false} ManageLead(cfg: TxCfg, k: nat, salt: seq<byte>, kek: seq<byte>, r: Run, a: Act)
    requires CfgOk(cfg, k) && RunOk(cfg, k, salt, kek, r) && DecInvertsEnc(cfg.crypto.aes, kek)
    requires LeadOk(cfg, k, salt, r)
    requires a.Manage? && Allowed(cfg, k, r, a)
    ensures var t := Perform(cfg, k, r, a); Shaped(t.s) && CtxOk(Cur(t.s), cfg.keyLen) && LeadOk(cfg, k, salt, t)
  {
    hide LogOk, Told, LeadOk, Steady, PreSwitch, Overlap, KmItems, Managed;
    if Steady(cfg, r.s, r.since) {
      ManageLeadSteady(cfg, k, salt, kek, r, a);
    } else {
      ManageLeadOther(cfg, k, salt, kek, r, a);
    }
  }

  lemma {:induction false} KmItemsAreKms(cfg: TxCfg, kek: seq<byte>, msgs: seq<seq<byte>>)
    ensures forall p :: 0 <= p < |KmItems(cfg, kek, msgs)| ==> !KmItems(cfg, kek, msgs)[p].PktSent?
  {
  }

  lemma {:induction false} LedLess(log: seq<Item>, slot: nat, sek: seq<byte>, g: nat, have: int, lead: int)
    requires Led(log, slot, sek, g, have) && lead <= have
    ensures Led(log, slot, sek, g, lead)
  {
  }

  /** THEOREM (lead). In every run, each key after the first has been announced, in a message that carries both keys, at
      least P + 1 - k packets before its first use. */
  lemma {:induction false} KeysAnnouncedAhead(cfg: TxCfg, k: nat, salt: seq<byte>, kek: seq<byte>, r: Run,
                                              acts: seq<Act>)
    requires CfgOk(cfg, k) && RunOk(cfg, k, salt, kek, r) && LeadOk(cfg, k, salt, r)
    requires DecInvertsEnc(cfg.crypto.aes, kek) && AllowedAll(cfg, k, r, acts)
    ensures var t := PerformAll(cfg, k, r, acts); Shaped(t.s) && CtxOk(Cur(t.s), cfg.keyLen) && LeadOk(cfg, k, salt, t)
    decreases |acts|
  {
    hide Perform, Lifecycle, LogOk, Told, LeadOk;
    LifecycleShape(cfg, r.s, salt, kek, r.since);
    if acts != [] {
      var pre, a := acts[..|acts| - 1], acts[|acts| - 1];
      KeysAnnouncedAhead(cfg, k, salt, kek, r, pre);
      EveryRunOk(cfg, k, salt, kek, r, pre);
      var b := PerformAll(cfg, k, r, pre);
      if a.Send? {
        SendLead(cfg, k, salt, kek, b);
      } else {
        ManageLead(cfg, k, salt, kek, b, a);
      }
    }
  }

  /** The start of a run satisfies all of it. */
  lemma {:induction false} RunsStartOk(cfg: TxCfg, k: nat, salt: seq<byte>, sek: seq<byte>, newSek: seq<byte>,
                                       due: bool)
    requires CfgOk(cfg, k) && |salt| == SALT_SZ && |sek| == cfg.keyLen && |newSek| == cfg.keyLen
    requires DecInvertsEnc(cfg.crypto.aes, GenSecret(cfg.crypto, cfg.pwd, salt, cfg.keyLen))
    ensures var r := FirstManage(cfg, salt, sek, newSek, due);
            && RunOk(cfg, k, salt, GenSecret(cfg.crypto, cfg.pwd, salt, cfg.keyLen), r)
            && Counted(cfg, k, r) && LeadOk(cfg, k, salt, r)
  {
    hide FirstManage, LogOk, KmMsg;
    FirstManageOk(cfg, k, salt, sek, newSek, due);
    var r := FirstManage(cfg, salt, sek, newSek, due);
    forall g: nat ensures PacketsOf(r.log, g) == 0 {
      assert r.log[..|r.log| - 1] == [];
    }
  }

  /** What the sender guarantees at one moment of a run, in its own terms: the life cycle; at most R + k packets under
      each key; every packet under a later key led by its announcement; and a due switch finds the other key ready. */
  ghost predicate Guaranteed(cfg: TxCfg, k: nat, salt: seq<byte>, r: Run)
    requires cfg.preAnnounce <= cfg.refreshRate
  {
    && Lifecycle(cfg, r.s, salt, GenSecret(cfg.crypto, cfg.pwd, salt, cfg.keyLen), r.since)
    && (forall g: nat :: PacketsOf(r.log, g) <= cfg.refreshRate + k)
    && (forall p :: 0 <= p < |r.log| && r.log[p].PktSent? && r.log[p].gen >= 1 ==>
          Led(r.log[..p], r.log[p].slot, r.log[p].sek, r.log[p].gen, cfg.preAnnounce + 1 - k))
    && (r.since >= 1 && OutcomeOf(cfg, r.s).Turned? ==> Rank(Keyed) <= Rank(Other(r.s).status))
  }

  /** A switch happens only when the next key is ready. */
  lemma {:induction false} SwitchIsReady(cfg: TxCfg, k: nat, s: Tx, salt: seq<byte>, kek: seq<byte>, since: nat)
    requires CfgOk(cfg, k) && Lifecycle(cfg, s, salt, kek, since) && 1 <= since <= k && OutcomeOf(cfg, s).Turned?
    ensures Rank(Keyed) <= Rank(Other(s).status)
  {
  }

  /** THEOREM (rotation). Every run from `HaiCrypt_Create` on keeps all of it. */
  lemma {:induction false} Rotation(cfg: TxCfg, k: nat, salt: seq<byte>, sek: seq<byte>, newSek: seq<byte>, due: bool,
                                    acts: seq<Act>)
    requires CfgOk(cfg, k) && |salt| == SALT_SZ && |sek| == cfg.keyLen && |newSek| == cfg.keyLen
    requires DecInvertsEnc(cfg.crypto.aes, GenSecret(cfg.crypto, cfg.pwd, salt, cfg.keyLen))
    requires AllowedAll(cfg, k, FirstManage(cfg, salt, sek, newSek, due), acts)
    ensures Guaranteed(cfg, k, salt, PerformAll(cfg, k, FirstManage(cfg, salt, sek, newSek, due), acts))
  {
    hide Lifecycle, LogOk, Told, PerformAll, AllowedAll, FirstManage, Led, PacketsOf, GenSecret, PreSwitch, OutcomeOf,
         Counted;
    var kek := GenSecret(cfg.crypto, cfg.pwd, salt, cfg.keyLen);
    var r := FirstManage(cfg, salt, sek, newSek, due);
    RunsStartOk(cfg, k, salt, sek, newSek, due);
    EveryRunOk(cfg, k, salt, kek, r, acts);
    KeysAnnouncedAhead(cfg, k, salt, kek, r, acts);
    var t := PerformAll(cfg, k, r, acts);
    forall g: nat ensures PacketsOf(t.log, g) <= cfg.refreshRate + k {
      NoKeyOverused(cfg, k, salt, kek, r, acts, g);
    }
    if t.since >= 1 && OutcomeOf(cfg, t.s).Turned? {
      SwitchIsReady(cfg, k, t.s, salt, kek, t.since);
    }
  }
}
