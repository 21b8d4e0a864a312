/** The payload of an Open: protocol, host and port (src/tunnel/dispatch.rs, src/server/forward.rs). Hosts are byte
    strings, valid as UTF-8, so that the source's lossy conversion is the identity. */
module OpenTarget {
  import opened Bytes

  datatype Target = Target(proto: byte, host: seq<byte>, port: u16)

  /** `send_open` */
  function OpenPayload(t: Target): seq<byte> {
    [t.proto, |t.host| % 0x100] + t.host + Be16(t.port)
  }

  /** `parse_open_payload` */
  function ParseOpen(payload: seq<byte>): Option<Target> {
    if |payload| < 4 then None
    else
      var n: nat := payload[1];
      if |payload| < 2 + n + 2 then None
      else Some(Target(payload[0], payload[2..2 + n], FromBe16(payload[2 + n], payload[3 + n])))
  }

  /** The payload on the wire, byte by byte. */
  lemma {:induction false} OpenLayout(t: Target)
    requires |t.host| <= 255
    ensures OpenPayload(t) == [t.proto, |t.host|] + t.host + [t.port / 0x100, t.port % 0x100]
  {
  }

  /** Parsing is exact: a payload is read as a target if and only if it starts with that target's payload. */
  lemma {:induction false} ParseOpenExact(payload: seq<byte>, t: Target)
    requires |t.host| <= 255
    ensures ParseOpen(payload) == Some(t) <==> OpenPayload(t) <= payload
  {
    var n := |t.host|;
    var w := OpenPayload(t);
    assert |w| == n + 4 && w[0] == t.proto && w[1] == n && w[2..2 + n] == t.host;
    assert w[2 + n] == Be16(t.port)[0] && w[3 + n] == Be16(t.port)[1];
    if w <= payload {
      assert payload[..|w|] == w;
      assert payload[2..2 + n] == w[2..2 + n];
    }
    if ParseOpen(payload) == Some(t) {
      var m: nat := payload[1];
      assert payload[2..2 + m] == t.host && m == n;
      assert Be16(FromBe16(payload[2 + n], payload[3 + n])) == [payload[2 + n], payload[3 + n]];
      assert payload[..n + 4] == [payload[0], payload[1]] + payload[2..2 + n] + [payload[2 + n], payload[3 + n]];
    }
  }
}
