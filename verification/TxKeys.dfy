/** The sender's key rotation (srt-1.5.6/haicrypt: hcrypt_ctx_tx.c, hcrypt_tx.c, hcrypt.c): two key contexts driven by
    the packet counter. PRNG output and timer expiry are inputs; crypto calls succeed. */
module TxKeys {
  import opened Bytes
  import opened KeyWrap
  import opened KeyMaterial

  datatype Status = Init | Sardy | Keyed | Active | Deprecated

  function Rank(s: Status): nat {
    match s
    case Init => 1
    case Sardy => 2
    case Keyed => 3
    case Active => 4
    case Deprecated => 5
  }

  datatype TxCtx = TxCtx(status: Status, announce: bool, ttsend: bool, salt: seq<byte>, sek: seq<byte>,
                         pktCnt: u32, km: seq<byte>)

  /** The parameters of a session that do not change. */
  datatype TxCfg = TxCfg(crypto: Crypto, pwd: seq<byte>, keyLen: nat, refreshRate: nat, preAnnounce: nat)

  /** `cur` is the index of `crypto->ctx`; the other index is its `alt`. */
  datatype Tx = Tx(pair: seq<TxCtx>, cur: nat, kek: seq<byte>)

  function Alt(i: nat): nat
    requires i < 2
  {
    1 - i
  }

  predicate Shaped(s: Tx) {
    |s.pair| == 2 && s.cur < 2
  }

  function Cur(s: Tx): TxCtx
    requires Shaped(s)
  {
    s.pair[s.cur]
  }

  function Other(s: Tx): TxCtx
    requires Shaped(s)
  {
    s.pair[Alt(s.cur)]
  }

  /** The keys of a message built for context `i`: its own, and another one for the opposite slot if given. */
  function KeysOf(i: nat, sek: seq<byte>, other: Option<seq<byte>>): Keys {
    if i == 0 then Keys(Some(sek), other) else Keys(other, Some(sek))
  }

  predicate CtxOk(c: TxCtx, keyLen: nat) {
    |c.salt| == SALT_SZ && |c.sek| == keyLen && KeyLenOk(keyLen)
  }

  /** `hcryptCtx_Tx_AsmKM` */
  function AsmKm(cfg: TxCfg, kek: seq<byte>, i: nat, c: TxCtx, other: Option<seq<byte>>): seq<byte>
    requires CtxOk(c, cfg.keyLen) && (other.Some? ==> |other.value| == cfg.keyLen)
  {
    KmMsg(cfg.crypto, kek, c.salt, KeysOf(i, c.sek, other), cfg.keyLen)
  }

  /** The sender as `HaiCrypt_Create` leaves it: the even context rekeyed, active, and due to be announced. */
  function Created(cfg: TxCfg, salt: seq<byte>, sek: seq<byte>): Tx
    requires KeyLenOk(cfg.keyLen) && |salt| == SALT_SZ && |sek| == cfg.keyLen
  {
    var kek := GenSecret(cfg.crypto, cfg.pwd, salt, cfg.keyLen);
    var blank := TxCtx(Active, true, true, salt, sek, 1, []);
    Tx([blank.(km := AsmKm(cfg, kek, 0, blank, None)), TxCtx(Sardy, false, false, [], [], 0, [])], 0, kek)
  }

  /** `Tx_Refresh`: a fresh key in the other context, and a message that carries it with the current one. */
  function Refreshed(cfg: TxCfg, s: Tx, newSek: seq<byte>): (r: Tx)
    requires Shaped(s) && CtxOk(Cur(s), cfg.keyLen) && |newSek| == cfg.keyLen
    ensures Shaped(r)
  {
    var next := Other(s).(salt := Cur(s).salt, sek := newSek);
    var km := AsmKm(cfg, s.kek, Alt(s.cur), next, Some(Cur(s).sek));
    s.(pair := s.pair[Alt(s.cur) := next.(km := km, pktCnt := 0, status := Keyed)])
  }

  /** `Tx_PreSwitch`: the other context is announced, now, instead of the current one if it carries both keys. */
  function PreSwitched(s: Tx): (r: Tx)
    requires Shaped(s)
    ensures Shaped(r)
  {
    var cur := Cur(s).(announce := Cur(s).announce && !HasBothSek(Other(s).km));
    s.(pair := s.pair[s.cur := cur][Alt(s.cur) := Other(s).(announce := true, ttsend := true)])
  }

  /** `Tx_Switch` */
  function Switched(s: Tx): (r: Tx)
    requires Shaped(s)
    ensures Shaped(r)
  {
    s.(pair := s.pair[s.cur := Cur(s).(status := Deprecated)]
                     [Alt(s.cur) := Other(s).(status := Active, announce := true)],
       cur := Alt(s.cur))
  }

  /** `Tx_PostSwitch` */
  function Retired(cfg: TxCfg, s: Tx): (r: Tx)
    requires Shaped(s) && CtxOk(Cur(s), cfg.keyLen)
    ensures Shaped(r)
  {
    var cur := Cur(s);
    var km := if HasBothSek(cur.km) then AsmKm(cfg, s.kek, s.cur, cur, None) else cur.km;
    s.(pair := s.pair[s.cur := cur.(km := km)][Alt(s.cur) := Other(s).(announce := false, status := Sardy)])
  }

  function MarkDue(c: TxCtx, due: bool): TxCtx {
    if due && c.announce then c.(ttsend := true) else c
  }

  /** `Tx_ManageKM`: `newSek` is what the PRNG would give, `due` whether the announcement period has elapsed. */
  function Managed(cfg: TxCfg, s: Tx, newSek: seq<byte>, due: bool): (r: Tx)
    requires Shaped(s) && CtxOk(Cur(s), cfg.keyLen) && |newSek| == cfg.keyLen && cfg.preAnnounce <= cfg.refreshRate
    ensures Shaped(r) && r.kek == s.kek
  {
    var cnt := Cur(s).pktCnt;
    var t :=
      if cnt > cfg.refreshRate || cnt == 0 then Switched(s)
      else if cnt > cfg.refreshRate - cfg.preAnnounce && !Other(s).announce then PreSwitched(Refreshed(cfg, s, newSek))
      else if Other(s).status.Deprecated? && cnt > cfg.preAnnounce then Retired(cfg, s)
      else s;
    t.(pair := [MarkDue(t.pair[0], due), MarkDue(t.pair[1], due)])
  }

  /** `Tx_InjectKM`: the messages of the contexts whose time to send has come, even first. */
  function Injected(s: Tx): seq<seq<byte>>
    requires Shaped(s)
  {
    (if s.pair[0].ttsend then [s.pair[0].km] else []) + if s.pair[1].ttsend then [s.pair[1].km] else []
  }

  function AfterInject(s: Tx): (r: Tx)
    requires Shaped(s)
    ensures Shaped(r)
  {
    s.(pair := [s.pair[0].(ttsend := false), s.pair[1].(ttsend := false)])
  }

  /** `Tx_Data` counts the packet against the current key. */
  function AfterData(s: Tx): (r: Tx)
    requires Shaped(s)
    ensures Shaped(r)
  {
    s.(pair := s.pair[s.cur := Cur(s).(pktCnt := (Cur(s).pktCnt + 1) % 0x1_0000_0000)])
  }

  /** The counter is 32 bits wide. */
  lemma {:induction false} CounterWraps(s: Tx)
    requires Shaped(s)
    ensures Cur(AfterData(s)).pktCnt == if Cur(s).pktCnt == 0xFFFF_FFFF then 0 else Cur(s).pktCnt + 1
    ensures Other(AfterData(s)) == Other(s)
  {
  }

  /** The session object. The two contexts are fields of one array in the source, so a sequence of two. */
  class TxSession {
    const cfg: TxCfg
    var pair: seq<TxCtx>
    var cur: nat
    var kek: seq<byte>

    ghost function View(): Tx
      reads this
    {
      Tx(pair, cur, kek)
    }

    constructor (cfg: TxCfg, salt: seq<byte>, sek: seq<byte>)
      requires KeyLenOk(cfg.keyLen) && |salt| == SALT_SZ && |sek| == cfg.keyLen
      ensures this.cfg == cfg && View() == Created(cfg, salt, sek)
    {
      this.cfg := cfg;
      var k := GenSecret(cfg.crypto, cfg.pwd, salt, cfg.keyLen);
      var ctx := TxCtx(Sardy, false, false, salt, sek, 0, []);
      ctx := ctx.(km := AsmKm(cfg, k, 0, ctx, None));
      ctx := ctx.(pktCnt := 1, status := Keyed);
      ctx := ctx.(announce := true, ttsend := true);
      ctx := ctx.(status := Active);
      this.kek := k;
      this.pair := [ctx, TxCtx(Sardy, false, false, [], [], 0, [])];
      this.cur := 0;
    }

    method Refresh(newSek: seq<byte>)
      requires Shaped(View()) && CtxOk(Cur(View()), cfg.keyLen) && |newSek| == cfg.keyLen
      modifies this`pair
      ensures View() == Refreshed(cfg, old(View()), newSek)
    {
      var ctx, next := pair[cur], pair[Alt(cur)];
      next := next.(salt := ctx.salt);
      next := next.(sek := newSek);
      next := next.(km := AsmKm(cfg, kek, Alt(cur), next, Some(ctx.sek)));
      next := next.(pktCnt := 0);
      next := next.(status := Keyed);
      pair := pair[Alt(cur) := next];
    }

    method PreSwitch()
      requires Shaped(View())
      modifies this`pair
      ensures View() == PreSwitched(old(View()))
    {
      pair := pair[Alt(cur) := pair[Alt(cur)].(announce := true)];
      pair := pair[Alt(cur) := pair[Alt(cur)].(ttsend := true)];
      if HasBothSek(pair[Alt(cur)].km) {
        pair := pair[cur := pair[cur].(announce := false)];
      }
    }

    method Switch()
      requires Shaped(View())
      modifies this`pair, this`cur
      ensures View() == Switched(old(View()))
    {
      pair := pair[cur := pair[cur].(status := Deprecated)];
      pair := pair[Alt(cur) := pair[Alt(cur)].(status := Active)];
      pair := pair[Alt(cur) := pair[Alt(cur)].(announce := true)];
      cur := Alt(cur);
    }

    method PostSwitch()
      requires Shaped(View()) && CtxOk(Cur(View()), cfg.keyLen)
      modifies this`pair
      ensures View() == Retired(cfg, old(View()))
    {
      pair := pair[Alt(cur) := pair[Alt(cur)].(announce := false)];
      pair := pair[Alt(cur) := pair[Alt(cur)].(status := Sardy)];
      if HasBothSek(pair[cur].km) {
        pair := pair[cur := pair[cur].(km := AsmKm(cfg, kek, cur, pair[cur], None))];
      }
    }

    method ManageKm(newSek: seq<byte>, due: bool)
      requires Shaped(View()) && CtxOk(Cur(View()), cfg.keyLen) && |newSek| == cfg.keyLen
      requires cfg.preAnnounce <= cfg.refreshRate
      modifies this
      ensures View() == Managed(cfg, old(View()), newSek, due)
    {
      hide Switched, Refreshed, PreSwitched, Retired;
      var ctx := pair[cur];
      if ctx.pktCnt > cfg.refreshRate || ctx.pktCnt == 0 {
        Switch();
      } else if ctx.pktCnt > cfg.refreshRate - cfg.preAnnounce && !pair[Alt(cur)].announce {
        Refresh(newSek);
        PreSwitch();
      } else if pair[Alt(cur)].status.Deprecated? && ctx.pktCnt > cfg.preAnnounce {
        PostSwitch();
      }
      if due {
        if pair[0].announce {
          pair := pair[0 := pair[0].(ttsend := true)];
        }
        if pair[1].announce {
          pair := pair[1 := pair[1].(ttsend := true)];
        }
      }
    }

    method InjectKm() returns (out: seq<seq<byte>>)
      requires Shaped(View())
      modifies this`pair
      ensures out == Injected(old(View())) && View() == AfterInject(old(View()))
    {
      out := [];
      var i := 0;
      while i < 2
        invariant 0 <= i <= 2 && |pair| == 2
        invariant forall j :: 0 <= j < 2 ==> pair[j] == if j < i then old(pair)[j].(ttsend := false) else old(pair)[j]
        invariant i == 0 ==> out == []
        invariant i == 1 ==> out == if old(pair)[0].ttsend then [old(pair)[0].km] else []
        invariant i == 2 ==> out == Injected(old(View()))
      {
        if pair[i].ttsend {
          out := out + [pair[i].km];
          pair := pair[i := pair[i].(ttsend := false)];
        }
        i := i + 1;
      }
    }

    /** `HaiCrypt_Tx_ManageKeys`: returns the messages to send. */
    method ManageKeys(newSek: seq<byte>, due: bool) returns (out: seq<seq<byte>>)
      requires Shaped(View()) && CtxOk(Cur(View()), cfg.keyLen) && |newSek| == cfg.keyLen
      requires cfg.preAnnounce <= cfg.refreshRate
      modifies this
      ensures var m := Managed(cfg, old(View()), newSek, due); out == Injected(m) && View() == AfterInject(m)
    {
      ManageKm(newSek, due);
      out := InjectKm();
    }

    /** `HaiCrypt_Tx_Data`: the slot and the key the packet is encrypted under. */
    method Data() returns (slot: nat, sek: seq<byte>)
      requires Shaped(View())
      modifies this`pair
      ensures View() == AfterData(old(View())) && slot == old(cur) && sek == Cur(old(View())).sek
    {
      slot, sek := cur, pair[cur].sek;
      pair := pair[cur := pair[cur].(pktCnt := (pair[cur].pktCnt + 1) % 0x1_0000_0000)];
    }
  }
}
