/** The RTCM 3.x transport (section 4 of RTCM 10403.3) and the frame encoder. */
module Rtcm3 {
  import opened Numbers
  import opened Wire
  import opened Framing
  import opened StreamingFraming
  import opened Crc24q
  import Crc24qDivision

  const MAX_RTCM_LENGTH := 1023

  /** Six reserved bits are ignored; the other ten are the payload length. */
  function PayloadLength(b1: byte, b2: byte): (n: nat)
    ensures n <= MAX_RTCM_LENGTH
  {
    (b1 & 0x03) as nat * 256 + b2 as nat
  }

  /** Eight high bits and four low ones: shifted apart they do not overlap, so their sum is their union. */
  function ExtractMessageNumber(payload: seq<byte>): Option<nat> {
    if |payload| < 2 then None else Some(payload[0] as nat * 16 + (payload[1] >> 4) as nat)
  }

  predicate CrcOk(raw: seq<byte>) {
    var n := |raw| - CRC_LENGTH;
    n >= 0 && Crc(raw[..n]) == BigEndian24(raw[n], raw[n + 1], raw[n + 2])
  }

  /** A framer accepts a maximum payload length of 1 to 1023 and refuses any other. */
  function Make(max: int): Option<Transport> {
    if 1 <= max <= MAX_RTCM_LENGTH
    then Some(Transport(max, PayloadLength, CrcOk, ExtractMessageNumber))
    else None
  }

  /** The check over body and trailer is a zero residue over the whole frame. */
  lemma CrcOkIffResidueZero(raw: seq<byte>)
    requires |raw| >= CRC_LENGTH
    ensures CrcOk(raw) <==> Crc(raw) == 0
  {
    hide Crc, BigEndian24;
    var n := |raw| - CRC_LENGTH;
    TrailerMatchesIffResidueZero(raw[..n], raw[n], raw[n + 1], raw[n + 2]);
    assert raw[..n] + [raw[n], raw[n + 1], raw[n + 2]] == raw;
  }

  // ----- the encoder

  datatype EncodeResult = Encoded(raw: seq<byte>) | BadMessageNumber | PayloadTooLong

  function Trailer(crc: bv24): (bytes: seq<byte>)
    ensures |bytes| == 3
  {
    [((crc >> 16) & 0xFF) as byte, ((crc >> 8) & 0xFF) as byte, (crc & 0xFF) as byte]
  }

  function HighByte(message: nat): byte
    requires message <= 4095
  {
    (message / 16) as byte
  }

  function LowByte(message: nat, suffix: seq<byte>): byte
    requires message <= 4095
  {
    ((message % 16) as byte << 4) | (if suffix == [] then 0 else suffix[0] >> 4)
  }

  function EncodePayload(message: nat, suffix: seq<byte>): (payload: seq<byte>)
    requires message <= 4095
    ensures |payload| == if suffix == [] then 3 else |suffix| + 2
  {
    [HighByte(message), LowByte(message, suffix)] + if suffix == [] then [0x00] else suffix
  }

  function Header(n: nat): seq<byte>
    requires n <= MAX_RTCM_LENGTH
  {
    [PREAMBLE, (n / 256) as byte, (n % 256) as byte]
  }

  function EncodeFrame(message: int, suffix: seq<byte>): (r: EncodeResult)
    ensures r.BadMessageNumber? <==> !(0 <= message <= 4095)
  {
    if !(0 <= message <= 4095) then BadMessageNumber
    else
      var payload := EncodePayload(message, suffix);
      if |payload| > MAX_RTCM_LENGTH then PayloadTooLong
      else
        var body := Header(|payload|) + payload;
        Encoded(body + Trailer(Crc(body)))
  }

  lemma TrailerRoundTrip(crc: bv24)
    ensures BigEndian24(Trailer(crc)[0], Trailer(crc)[1], Trailer(crc)[2]) == crc
  {}

  lemma LengthRoundTrip(n: nat)
    requires n <= MAX_RTCM_LENGTH
    ensures PayloadLength(Header(n)[1], Header(n)[2]) == n
  {
    LowTwoBits(n / 256);
    ByteHolds(n % 256);
  }

  lemma LowTwoBits(high: nat)
    requires high < 4
    ensures ((high as byte) & 0x03) as nat == high
  {
    assert (0 as byte) & 0x03 == 0 && (1 as byte) & 0x03 == 1 && (2 as byte) & 0x03 == 2 && (3 as byte) & 0x03 == 3;
    assert high == 0 || high == 1 || high == 2 || high == 3;
  }

  lemma NibbleComesBack(low: byte, other: byte)
    requires low <= 15
    ensures ((low << 4) | (other >> 4)) >> 4 == low
  {}

  lemma {:induction false} SmallByte(n: nat)
    requires n < 16
    ensures (n as byte) <= 15 && (n as byte) as nat == n
  {}

  lemma LowByteCarries(message: nat, suffix: seq<byte>)
    requires message <= 4095
    ensures (LowByte(message, suffix) >> 4) as nat == message % 16
  {
    SmallByte(message % 16);
    NibbleComesBack((message % 16) as byte, if suffix == [] then 0 else suffix[0]);
  }

  /** Twelve bits in two payload bytes, whatever the suffix puts into the other four. */
  lemma MessageNumberRoundTrip(message: nat, suffix: seq<byte>)
    requires message <= 4095
    ensures ExtractMessageNumber(EncodePayload(message, suffix)) == Some(message)
  {
    hide LowByte;
    ByteHolds(message / 16);
    LowByteCarries(message, suffix);
  }

  /** Whatever the encoder emits is one frame that passes its check and carries the message number. */
  lemma EncodedFrameIsValid(message: int, suffix: seq<byte>, t: Transport)
    requires EncodeFrame(message, suffix).Encoded?
    requires Make(t.max) == Some(t) && |EncodePayload(message, suffix)| <= t.max
    ensures var raw := EncodeFrame(message, suffix).raw;
            && Framed(t, raw) && Payload(raw) == EncodePayload(message, suffix)
            && forall offset: nat :: FrameAt(t, offset, raw) == Frame(offset, raw, Some(message), true)
  {
    hide Crc, PayloadLength, ExtractMessageNumber, BigEndian24, EncodePayload, Trailer;
    var payload := EncodePayload(message, suffix);
    var body := Header(|payload|) + payload;
    var raw := EncodeFrame(message, suffix).raw;
    assert raw == body + Trailer(Crc(body));
    assert raw[1] == Header(|payload|)[1] && raw[2] == Header(|payload|)[2];
    LengthRoundTrip(|payload|);
    TrailerRoundTrip(Crc(body));
    MessageNumberRoundTrip(message, suffix);
    assert raw[..|raw| - 3] == body && Payload(raw) == payload;
  }

  // ----- encoded frames through the framer

  /** A message to encode and bytes before it that hold no preamble. */
  datatype Sent = Sent(junk: seq<byte>, message: int, suffix: seq<byte>)

  predicate Sendable(t: Transport, s: Sent) {
    && PREAMBLE !in s.junk && EncodeFrame(s.message, s.suffix).Encoded?
    && |EncodePayload(s.message, s.suffix)| <= t.max
  }

  function ItemOf(s: Sent): Item
    requires EncodeFrame(s.message, s.suffix).Encoded?
  {
    Item(s.junk, EncodeFrame(s.message, s.suffix).raw)
  }

  function ItemsOf(t: Transport, sent: seq<Sent>): (items: seq<Item>)
    requires forall s <- sent :: Sendable(t, s)
    ensures |items| == |sent| && forall i :: 0 <= i < |sent| ==> Sendable(t, sent[i]) && items[i] == ItemOf(sent[i])
  {
    if sent == [] then []
    else
      assert Sendable(t, sent[0]);
      [ItemOf(sent[0])] + ItemsOf(t, sent[1..])
  }

  lemma {:induction false} LocatedLength(t: Transport, items: seq<Item>, offset: nat)
    requires forall item <- items :: WellFormed(t, item)
    ensures |Located(t, items, offset)| == |items|
    decreases |items|
  {
    hide FrameAt, WellFormed;
    if items != [] {
      LocatedLength(t, items[1..], offset + |items[0].junk| + |items[0].raw|);
    }
  }

  lemma {:induction false} LocatedAt(t: Transport, items: seq<Item>, offset: nat, i: nat)
    requires (forall item <- items :: WellFormed(t, item)) && i < |items|
    ensures var frames := Located(t, items, offset);
            && |frames| == |items| && WellFormed(t, items[i])
            && frames[i] == FrameAt(t, frames[i].offset, items[i].raw)
    decreases |items|
  {
    hide FrameAt, WellFormed;
    assert WellFormed(t, items[0]);
    var at := offset + |items[0].junk| + |items[0].raw|;
    FrameKeepsOffset(t, offset + |items[0].junk|, items[0]);
    LocatedLength(t, items, offset);
    if i > 0 {
      LocatedAt(t, items[1..], at, i - 1);
    }
  }

  lemma FrameKeepsOffset(t: Transport, offset: nat, item: Item)
    requires WellFormed(t, item)
    ensures FrameAt(t, offset, item.raw).offset == offset
  {}

  /**
   * Any list of messages, encoded, with junk between them and cut into reads anyhow, comes back in
   * order, each frame passing its check and carrying its message number.
   */
  lemma {:induction false} EncodedStreamRoundTrip(t: Transport, sent: seq<Sent>, tail: seq<byte>, chunks: seq<seq<byte>>)
    requires Make(t.max) == Some(t) && (forall s <- sent :: Sendable(t, s)) && PREAMBLE !in tail
    requires Concat(chunks) == Stream(ItemsOf(t, sent)) + tail
    ensures var r := FeedAll(t, FRESH, chunks);
            && |r.frames| == |sent| && r.memory.buffer == []
            && forall i :: 0 <= i < |sent| ==>
                 && sent[i].message >= 0
                 && EncodeFrame(sent[i].message, sent[i].suffix) == Encoded(r.frames[i].raw)
                 && r.frames[i].crcOk && r.frames[i].message == Some(sent[i].message)
  {
    hide EncodeFrame, EncodePayload, FrameAt, Framed, Located, FeedAll, Make;
    var items := ItemsOf(t, sent);
    forall i | 0 <= i < |items| ensures WellFormed(t, items[i]) {
      EncodedFrameIsValid(sent[i].message, sent[i].suffix, t);
    }
    FramingRoundTrip(t, items, tail, chunks);
    var frames := Located(t, items, 0);
    LocatedLength(t, items, 0);
    forall i | 0 <= i < |sent|
      ensures sent[i].message >= 0 && EncodeFrame(sent[i].message, sent[i].suffix) == Encoded(frames[i].raw)
      ensures frames[i].crcOk && frames[i].message == Some(sent[i].message)
    {
      LocatedAt(t, items, 0, i);
      EncodedFrameIsValid(sent[i].message, sent[i].suffix, t);
    }
  }

  // ----- damage

  /** The places where two byte strings differ. */
  function Damage(sent: seq<byte>, received: seq<byte>): Crc24qDivision.Poly
    requires |sent| == |received|
  {
    Crc24qDivision.Sum(Crc24qDivision.MessageBits(sent), Crc24qDivision.MessageBits(received))
  }

  /** An odd number of flipped bits in a frame, or any change within 24 places, fails the check. */
  lemma DamageIsDetected(sent: seq<byte>, received: seq<byte>, start: nat)
    requires CrcOk(sent) && |received| == |sent|
    requires var damage := Damage(sent, received);
             || Crc24qDivision.Odd(damage)
             || (&& (exists i :: 0 <= i < |damage| && damage[i])
                 && forall i :: 0 <= i < |damage| && damage[i] ==> start <= i < start + 24)
    ensures !CrcOk(received)
  {
    hide Crc, Crc24qDivision.Odd, Crc24qDivision.MessageBits, BigEndian24;
    CrcOkIffResidueZero(sent);
    CrcOkIffResidueZero(received);
    if Crc24qDivision.Odd(Damage(sent, received)) {
      Crc24qDivision.OddErrorsAreCaught(sent, received);
    } else {
      var damage := Damage(sent, received);
      var i :| 0 <= i < |damage| && damage[i];
      assert Crc24qDivision.Sum(Crc24qDivision.MessageBits(sent), Crc24qDivision.MessageBits(received))[i];
      Crc24qDivision.BurstsAreCaught(sent, received, start);
    }
  }
}
