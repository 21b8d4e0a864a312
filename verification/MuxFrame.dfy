/** The 15-byte tunnel frame header and its codec (src/tunnel/mod.rs, src/tunnel/multiplex.rs). */
module MuxFrame {
  import opened Bytes

  const FRAME_HEADER_LEN := 15
  const FRAME_DATA_MAX := 1301
  const PROTOCOL_VERSION: byte := 2
  const TUNNEL_MAGIC: seq<byte> := [0x53, 0x52, 0x54, 0x56]  // "SRTV"
  const EPOCH_UNIT := 0x100_0000  // 1 << EPOCH_BITS
  const SEQ_MASK := 0xFF_FFFF

  datatype FrameType =
    | Data | Ack | Nack | Datagram | Challenge | Response | Heartbeat
    | Open | Close | Fin | Rst

  datatype Frame = Frame(ftype: FrameType, sid: u16, seqno: u32, flags: byte, payload: seq<byte>)

  function TypeByte(t: FrameType): byte {
    match t
    case Data => 0x01
    case Ack => 0x02
    case Nack => 0x03
    case Datagram => 0x04
    case Challenge => 0x10
    case Response => 0x11
    case Heartbeat => 0x12
    case Open => 0x20
    case Close => 0x21
    case Fin => 0x22
    case Rst => 0x23
  }

  function FromByte(b: byte): (t: Option<FrameType>)
    ensures t.Some? <==> exists u :: TypeByte(u) == b
    ensures t.Some? ==> TypeByte(t.value) == b
  {
    if b == 0x01 then assert TypeByte(Data) == b; Some(Data)
    else if b == 0x02 then assert TypeByte(Ack) == b; Some(Ack)
    else if b == 0x03 then assert TypeByte(Nack) == b; Some(Nack)
    else if b == 0x04 then assert TypeByte(Datagram) == b; Some(Datagram)
    else if b == 0x10 then assert TypeByte(Challenge) == b; Some(Challenge)
    else if b == 0x11 then assert TypeByte(Response) == b; Some(Response)
    else if b == 0x12 then assert TypeByte(Heartbeat) == b; Some(Heartbeat)
    else if b == 0x20 then assert TypeByte(Open) == b; Some(Open)
    else if b == 0x21 then assert TypeByte(Close) == b; Some(Close)
    else if b == 0x22 then assert TypeByte(Fin) == b; Some(Fin)
    else if b == 0x23 then assert TypeByte(Rst) == b; Some(Rst)
    else None
  }

  /** The frame types whose order within a session matters. */
  predicate UsesSessionOrder(t: FrameType) {
    t.Open? || t.Data? || t.Fin? || t.Close?
  }

  function Epoch(f: Frame): byte {
    f.seqno / EPOCH_UNIT
  }

  function SessionSeq(f: Frame): (s: nat)
    ensures s <= SEQ_MASK
  {
    f.seqno % EPOCH_UNIT
  }

  predicate FromAcceptor(f: Frame) {
    HasDirAccept(f.flags)
  }

  function Header(f: Frame): (h: seq<byte>)
    requires |f.payload| < 0x1_0000
    ensures |h| == FRAME_HEADER_LEN
  {
    TUNNEL_MAGIC + [PROTOCOL_VERSION, TypeByte(f.ftype)] + Be16(f.sid) + Be16(|f.payload|)
    + Be32(f.seqno) + [f.flags]
  }

  function FrameBytes(f: Frame): seq<byte>
    requires |f.payload| < 0x1_0000
  {
    Header(f) + f.payload
  }

  function DecodeFrame(msg: seq<byte>): (r: Option<Frame>)
    ensures r.Some? ==> |r.value.payload| < 0x1_0000
  {
    if |msg| < FRAME_HEADER_LEN then None
    else if msg[0..4] != TUNNEL_MAGIC then None
    else if msg[4] != PROTOCOL_VERSION then None
    else
      match FromByte(msg[5])
      case None => None
      case Some(ftype) =>
        var len := FromBe16(msg[8], msg[9]);
        if len > |msg| - FRAME_HEADER_LEN then None
        else
          Some(Frame(ftype, FromBe16(msg[6], msg[7]),
                     FromBe32(msg[10], msg[11], msg[12], msg[13]), msg[14],
                     msg[FRAME_HEADER_LEN..FRAME_HEADER_LEN + len]))
  }

  lemma HeaderFields(f: Frame)
    requires |f.payload| < 0x1_0000
    ensures var h := Header(f);
            && h[0..4] == TUNNEL_MAGIC && h[4] == PROTOCOL_VERSION && h[5] == TypeByte(f.ftype)
            && FromBe16(h[6], h[7]) == f.sid && FromBe16(h[8], h[9]) == |f.payload|
            && FromBe32(h[10], h[11], h[12], h[13]) == f.seqno && h[14] == f.flags
  {
  }

  /** The header on the wire, byte by byte. */
  lemma {:induction false} WireFormat(f: Frame)
    requires |f.payload| < 0x1_0000
    ensures Header(f) == [0x53, 0x52, 0x54, 0x56, 2, TypeByte(f.ftype),
                          f.sid / 0x100, f.sid % 0x100, |f.payload| / 0x100, |f.payload| % 0x100,
                          f.seqno / 0x100_0000, f.seqno / 0x1_0000 % 0x100, f.seqno / 0x100 % 0x100, f.seqno % 0x100,
                          f.flags]
  {
  }

  /** The type bytes. */
  lemma {:induction false} WireTypes()
    ensures [TypeByte(Data), TypeByte(Ack), TypeByte(Nack), TypeByte(Datagram)] == [1, 2, 3, 4]
    ensures [TypeByte(Challenge), TypeByte(Response), TypeByte(Heartbeat)] == [0x10, 0x11, 0x12]
    ensures [TypeByte(Open), TypeByte(Close), TypeByte(Fin), TypeByte(Rst)] == [0x20, 0x21, 0x22, 0x23]
  {
  }

  lemma TypeByteInjective(t: FrameType, u: FrameType)
    requires TypeByte(t) == TypeByte(u)
    ensures t == u
  {
  }

  /** Big-endian fields are determined by their value. */
  lemma BeInjective(b: seq<byte>)
    ensures |b| == 2 ==> Be16(FromBe16(b[0], b[1])) == b
    ensures |b| == 4 ==> Be32(FromBe32(b[0], b[1], b[2], b[3])) == b
  {
    if |b| == 4 {
      var v: int := FromBe32(b[0], b[1], b[2], b[3]);
      var hi: int := b[0];
      assert v / 0x100 == (hi * 0x100 + b[1]) * 0x100 + b[2];
      assert v / 0x1_0000 == hi * 0x100 + b[1];
    }
  }

  lemma DecodeOfEncode(msg: seq<byte>, f: Frame)
    requires |f.payload| < 0x1_0000 && FrameBytes(f) <= msg
    ensures DecodeFrame(msg) == Some(f)
  {
    HeaderFields(f);
    var h := Header(f);
    assert h == msg[..FRAME_HEADER_LEN];
    assert msg[0..4] == h[0..4];
    assert msg[5] == h[5] && msg[6] == h[6] && msg[7] == h[7] && msg[8] == h[8] && msg[9] == h[9];
    TypeByteInjective(f.ftype, FromByte(msg[5]).value);
    assert msg[FRAME_HEADER_LEN..FRAME_HEADER_LEN + |f.payload|] == FrameBytes(f)[FRAME_HEADER_LEN..] == f.payload;
  }

  lemma EncodeOfDecode(msg: seq<byte>, f: Frame)
    requires |f.payload| < 0x1_0000 && DecodeFrame(msg) == Some(f)
    ensures FrameBytes(f) <= msg
  {
    BeInjective(msg[6..8]);
    BeInjective(msg[8..10]);
    BeInjective(msg[10..14]);
    assert Header(f) == msg[0..4] + [msg[4], msg[5]] + msg[6..8] + msg[8..10] + msg[10..14] + [msg[14]];
    assert Header(f) == msg[..FRAME_HEADER_LEN];
    assert FrameBytes(f) == msg[..FRAME_HEADER_LEN + |f.payload|];
  }

  /** Decoding is exact: a message decodes to `f` if and only if it starts with the encoding of `f`
      (bytes after the announced payload are ignored). */
  lemma DecodeExact(msg: seq<byte>, f: Frame)
    requires |f.payload| < 0x1_0000
    ensures DecodeFrame(msg) == Some(f) <==> FrameBytes(f) <= msg
  {
    if FrameBytes(f) <= msg {
      DecodeOfEncode(msg, f);
    }
    if DecodeFrame(msg) == Some(f) {
      EncodeOfDecode(msg, f);
    }
  }
}
