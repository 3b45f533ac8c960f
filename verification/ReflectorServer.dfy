/** One packet handled by the reflector of main.go, from the bytes received to the bytes sent. How handlers interleave
    is the subject of module Reflector. */
module ReflectorServer {
  import opened Options
  import opened Words
  import opened Bytes
  import opened NtpTime
  import opened TestPackets
  import opened RoundTripTime

  /** What the client reads in the answer to request bytes data. */
  function Answer(data: seq<uint8>, t2: Instant, issued: uint32, t3: Instant, synced: bool): Response
    requires |data| >= TEST_REQUEST_BASE_SIZE
  {
    var req := ParseRequest(data, []).value;
    Response(req.sequenceNumber, Hop(req.timestamp), req.errorEstimate, 0, Hop(t2), issued, Hop(t3),
             ErrorEstimate(synced), 0, SENDER_TTL)
  }

  class Server {
    const synced: bool
    const hook: bool
    var seqNumber: uint32
    var reflectedPackets: uint64
    var callbacks: nat

    constructor (synced: bool, hook: bool)
      ensures this.synced == synced && this.hook == hook
      ensures seqNumber == 0 && reflectedPackets == 0 && callbacks == 0
    {
      this.synced, this.hook := synced, hook;
      seqNumber, reflectedPackets, callbacks := 0, 0, 0;
    }

    /** Answers exactly the packets of at least 14 bytes, each with the next number; counts and reports exactly the
        answers whose write succeeds. A short packet changes nothing. */
    method HandleTestPacket(data: seq<uint8>, t2: Instant, t3: Instant, delivered: bool)
        returns (reply: Option<seq<uint8>>)
      modifies this
      ensures reply.Some? <==> |data| >= TEST_REQUEST_BASE_SIZE
      ensures seqNumber == if reply.Some? then (old(seqNumber) + 1) % TWO32 else old(seqNumber)
      ensures reply.Some? ==>
        |reply.value| == TEST_RESPONSE_BASE_SIZE &&
        ParseResponse(reply.value) == Ok(Answer(data, t2, seqNumber, t3, synced))
      ensures reply.Some? ==>
        var bytes := reply.value;
        && |bytes| == 40 && bytes[0..4] == data[0..4] && bytes[12..14] == data[12..14] && bytes[14..16] == [0, 0]
        && bytes[16..24] == BigEndian(TimeToNTP(t2), 8) && bytes[24..28] == BigEndian(seqNumber, 4)
        && bytes[28..36] == BigEndian(TimeToNTP(t3), 8)
        && bytes[36..40] == [if synced then 0x80 else 0, 1, 0, 64]
      ensures reflectedPackets
           == if reply.Some? && delivered then (old(reflectedPackets) + 1) % TWO64 else old(reflectedPackets)
      ensures callbacks == old(callbacks) + (if reply.Some? && delivered && hook then 1 else 0)
    {
      hide Fields, Record, Hop, TimeToNTP, NTPToTime, BigEndian, ErrorEstimate;
      var req := new TestRequest(Request(0, Instant(0, 0), 0, []));
      var ok := req.UnmarshalBinary(data);
      if !ok {
        return None;
      }
      seqNumber := (seqNumber + 1) % TWO32;
      var response := new TestResponse(Reflect(req.Value(), t2, seqNumber, t3, synced));
      var buf := response.MarshalBinary();
      reply := Some(buf[..]);
      AnswerBytes(data, t2, seqNumber, t3, synced, buf[..]);
      ResponseRoundTrip(response.Value(), []);
      assert buf[..] + [] == buf[..];
      if !delivered {
        return;
      }
      reflectedPackets := (reflectedPackets + 1) % TWO64;
      if hook {
        callbacks := callbacks + 1;
      }
    }
  }

  /** The answer, byte by byte: the request's number and error estimate come back as they are, T2 and T3 are where the
      client reads them, the reflector's error estimate says whether its clock is synchronized, and the TTL is 64. */
  lemma {:induction false} AnswerBytes(
      data: seq<uint8>, t2: Instant, issued: uint32, t3: Instant, synced: bool, reply: seq<uint8>)
    requires |data| >= TEST_REQUEST_BASE_SIZE
    requires reply == ResponseBytes(Reflect(ParseRequest(data, []).value, t2, issued, t3, synced))
    ensures |reply| == 40 && reply[0..4] == data[0..4] && reply[12..14] == data[12..14] && reply[14..16] == [0, 0]
    ensures reply[16..24] == BigEndian(TimeToNTP(t2), 8) && reply[24..28] == BigEndian(issued, 4)
    ensures reply[28..36] == BigEndian(TimeToNTP(t3), 8)
    ensures reply[36..40] == [if synced then 0x80 else 0, 1, 0, 64]
  {
    assert |data| >= 14 && TEST_RESPONSE_BASE_SIZE == 40;
    hide *;
    var req := ParseRequest(data, []).value;
    var reflected := Reflect(req, t2, issued, t3, synced);
    ReflectedFields(req, t2, issued, t3, synced);
    ResponseLayout(reflected);
    RequestParts(data);
    SmallBytes(synced);
    LastFour(reply, synced);
  }

  lemma LastFour(reply: seq<uint8>, synced: bool)
    requires |reply| == 40 && reply[36..38] == BigEndian(ErrorEstimate(synced), 2)
    requires reply[38..39] == BigEndian(0, 1) && reply[39..40] == BigEndian(SENDER_TTL, 1)
    ensures reply[36..40] == [if synced then 0x80 else 0, 1, 0, 64]
  {
    SmallBytes(synced);
    hide *;
    assert reply[36..40] == reply[36..38] + reply[38..39] + reply[39..40];
  }

  lemma ReflectedFields(req: Request, t2: Instant, issued: uint32, t3: Instant, synced: bool)
    ensures var p := Reflect(req, t2, issued, t3, synced);
            && p.sequenceNumber == req.sequenceNumber && p.errorEstimate == req.errorEstimate
            && p.receiveTimestamp == t2 && p.senderSeqNumber == issued && p.senderTimestamp == t3
            && p.senderError == ErrorEstimate(synced) && p.senderTTL == SENDER_TTL
  {}

  lemma RequestParts(data: seq<uint8>)
    requires |data| >= TEST_REQUEST_BASE_SIZE
    ensures BigEndian(ParseRequest(data, []).value.sequenceNumber, 4) == data[0..4]
    ensures BigEndian(ParseRequest(data, []).value.errorEstimate, 2) == data[12..14]
  {
    hide NTPToTime, Fields, FromBigEndian, BigEndian;
    RequestFieldOffsets(data);
    BytesRoundTrip(data[0..4]);
    BytesRoundTrip(data[12..14]);
  }

  lemma SmallBytes(synced: bool)
    ensures BigEndian(0, 2) == [0, 0] && BigEndian(0, 1) == [0] && BigEndian(SENDER_TTL, 1) == [64]
    ensures BigEndian(ErrorEstimate(synced), 2) == [if synced then 0x80 else 0, 1]
  {
    var e := ErrorEstimate(synced);
    assert BigEndian(e, 2) == BigEndian(e / 256, 1) + [e % 256];
    assert BigEndian(e / 256, 1) == BigEndian(e / 256 / 256, 0) + [e / 256 % 256];
    assert BigEndian(0, 2) == BigEndian(0, 1) + [0];
    assert BigEndian(0, 1) == BigEndian(0, 0) + [0];
    assert BigEndian(SENDER_TTL, 1) == BigEndian(0, 0) + [64];
  }

  /** The echoed T1 is the client's to within five units of the NTP fraction, never later, in the same second. */
  lemma {:induction false} EchoedTimestamp(
      data: seq<uint8>, t2: Instant, issued: uint32, t3: Instant, synced: bool, reply: seq<uint8>)
    requires |data| >= TEST_REQUEST_BASE_SIZE && |reply| == TEST_RESPONSE_BASE_SIZE
    requires reply == ResponseBytes(Reflect(ParseRequest(data, []).value, t2, issued, t3, synced))
    ensures ReadUint(reply, 4, 8) / TWO32 == ReadUint(data, 4, 8) / TWO32
    ensures 0 <= ReadUint(data, 4, 8) - ReadUint(reply, 4, 8) <= 5
  {
    var reflected := Reflect(ParseRequest(data, []).value, t2, issued, t3, synced);
    hide TimeToNTP, NTPToTime, Record, Fields, FromBigEndian, BigEndian;
    RequestFieldOffsets(data);
    ReverseTrip(ReadUint(data, 4, 8));
    ResponseLayout(reflected);
    Pow256Values();
    BigEndianRoundTrip(TimeToNTP(reflected.timestamp), 8);
  }
}
