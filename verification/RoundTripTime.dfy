/** The four-timestamp round-trip time, measured through real packets. */
module RoundTripTime {
  import opened Words
  import opened NtpTime
  import opened TestPackets

  const ERA_NANOS := TWO32 * NANOS_PER_SECOND

  /** The answer's SenderTTL: the actual one would need a raw socket. */
  const SENDER_TTL: uint8 := 64

  /** An instant as nanoseconds since the Unix epoch. */
  function Nanos(t: Instant): int {
    t.sec * NANOS_PER_SECOND + t.nsec
  }

  /** (T4 - T1) - (T3 - T2), never below zero; all four in nanoseconds. */
  function RTTOfNanos(t1: int, t2: int, t3: int, t4: int): (rtt: nat) {
    var rtt := (t4 - t1) - (t3 - t2);
    if rtt < 0 then 0 else rtt
  }

  function CalculateRTT(t1: Instant, t2: Instant, t3: Instant, t4: Instant): nat {
    RTTOfNanos(Nanos(t1), Nanos(t2), Nanos(t3), Nanos(t4))
  }

  function ErrorEstimate(synced: bool): uint16 {
    if synced then 0x8001 else 0x0001
  }

  /** The reflector's answer: the request is echoed in the first fields, T3 goes to senderTimestamp. */
  function Reflect(req: Request, t2: Instant, issued: uint32, t3: Instant, synced: bool): Response {
    Response(req.sequenceNumber, req.timestamp, req.errorEstimate, 0, t2, issued, t3, ErrorEstimate(synced), 0, SENDER_TTL)
  }

  /** The answer the client reads when the reflector handles a request off the wire. */
  function Exchange(req: Request, t2: Instant, issued: uint32, t3: Instant, synced: bool): Parsed<Response> {
    var received := ParseRequest(RequestBytes(req), []);
    if received.TooShort? then TooShort(received.length)
    else ParseResponse(ResponseBytes(Reflect(received.value, t2, issued, t3, synced)))
  }

  /** The exchange never fails, answers the request that was sent, and carries T2 and T3 with one hop each. */
  lemma {:induction false} ExchangeAnswers(req: Request, t2: Instant, issued: uint32, t3: Instant, synced: bool)
    ensures var resp := Exchange(req, t2, issued, t3, synced);
            && resp.Ok?
            && resp.value.sequenceNumber == req.sequenceNumber
            && resp.value.receiveTimestamp == Hop(t2)
            && resp.value.senderTimestamp == Hop(t3)
  {
    RequestRoundTrip(req);
    var received := ParseRequest(RequestBytes(req), []).value;
    var answer := Reflect(received, t2, issued, t3, synced);
    ResponseRoundTrip(answer, []);
    assert ResponseBytes(answer) + [] == ResponseBytes(answer);
  }

  lemma {:induction false} HopInNanos(t: Instant)
    ensures Nanos(Hop(t)) == Nanos(t) - HopLoss(t.nsec) - Era(t.sec) * ERA_NANOS
  {
    hide Hop;
    HopValue(t);
  }

  /** The measured value, exactly: the delay, plus the two one-nanosecond hop losses,
      plus one whole era for every NTP rollover between T2 and T3. */
  lemma {:induction false} MeasuredRTT(req: Request, t2: Instant, issued: uint32, t3: Instant, synced: bool, t4: Instant)
    ensures var resp := Exchange(req, t2, issued, t3, synced);
            var delay := (Nanos(t4) - Nanos(req.timestamp)) - (Nanos(t3) - Nanos(t2));
            var rtt := delay + HopLoss(t3.nsec) - HopLoss(t2.nsec) + (Era(t3.sec) - Era(t2.sec)) * ERA_NANOS;
            && resp.Ok?
            && CalculateRTT(req.timestamp, resp.value.receiveTimestamp, resp.value.senderTimestamp, t4)
            == if rtt < 0 then 0 else rtt
  {
    hide Hop, Exchange;
    ExchangeAnswers(req, t2, issued, t3, synced);
    HopInNanos(t2);
    HopInNanos(t3);
  }

  lemma LaterInstantLaterEra(t: Instant, u: Instant)
    requires Nanos(t) <= Nanos(u)
    ensures Era(t.sec) <= Era(u.sec)
  {
    if u.sec < t.sec {
      assert u.sec + 1 <= t.sec;
    }
  }

  lemma OffByEras(delay: nat, loss: int, gap: nat)
    requires -1 <= loss <= 1
    ensures var rtt := delay + loss + gap * ERA_NANOS;
            -1 <= (if rtt < 0 then 0 else rtt) - delay <= 1 <==> gap == 0
  {
    assert ERA_NANOS > 2;
    if gap > 0 {
      MulLower(ERA_NANOS, gap);
    }
  }

  lemma WholeEras(e: int, e': int)
    ensures (e' - e) * ERA_NANOS == e' * ERA_NANOS - e * ERA_NANOS
  {}

  /** Hopped reflector stamps measure the two delays to within one nanosecond exactly when they lie in one era. */
  lemma {:induction false} HoppedStamps(
      t1: int, t2: Instant, t3: Instant, t4: int, forward: nat, processing: nat, back: nat, offset: int)
    requires Nanos(t2) == t1 + forward + offset
    requires Nanos(t3) == Nanos(t2) + processing
    requires t4 == t1 + forward + processing + back
    ensures -1 <= RTTOfNanos(t1, Nanos(Hop(t2)), Nanos(Hop(t3)), t4) - (forward + back) <= 1 <==> Era(t2.sec) == Era(t3.sec)
  {
    hide Hop, Era;
    LaterInstantLaterEra(t2, t3);
    HopInNanos(t2);
    HopInNanos(t3);
    hide Nanos;
    var loss, gap := HopLoss(t3.nsec) - HopLoss(t2.nsec), Era(t3.sec) - Era(t2.sec);
    assert -1 <= loss <= 1;
    hide HopLoss;
    OffByEras(forward + back, loss, gap);
    WholeEras(Era(t2.sec), Era(t3.sec));
  }

  /** Whatever the offset between the two clocks, the client measures the two network delays to within one
      nanosecond exactly when the reflector's stamps lie in the same NTP era. */
  lemma {:induction false} EndToEnd(
      req: Request, t2: Instant, issued: uint32, t3: Instant, synced: bool, t4: Instant,
      forward: nat, processing: nat, back: nat, offset: int)
    requires Nanos(t2) == Nanos(req.timestamp) + forward + offset
    requires Nanos(t3) == Nanos(t2) + processing
    requires Nanos(t4) == Nanos(req.timestamp) + forward + processing + back
    ensures var resp := Exchange(req, t2, issued, t3, synced);
            && resp.Ok?
            && var rtt := CalculateRTT(req.timestamp, resp.value.receiveTimestamp, resp.value.senderTimestamp, t4);
            && (-1 <= rtt - (forward + back) <= 1 <==> Era(t2.sec) == Era(t3.sec))
  {
    hide Exchange, Era, Hop, Nanos, RTTOfNanos;
    ExchangeAnswers(req, t2, issued, t3, synced);
    HoppedStamps(Nanos(req.timestamp), t2, t3, Nanos(t4), forward, processing, back, offset);
  }

  /** The last second of NTP era 0, in 2036. */
  const LAST_SECOND_OF_ERA_0 := TWO32 - 1 - NTP_EPOCH_OFFSET

  /** A reflector that takes a second to answer across the rollover: ten milliseconds on the network are measured as
      2^32 seconds and ten milliseconds. */
  lemma {:induction false} RolloverIsMeasured(issued: uint32, synced: bool)
    ensures var t2, t3 := Instant(LAST_SECOND_OF_ERA_0, 0), Instant(LAST_SECOND_OF_ERA_0 + 1, 0);
            var t4 := Instant(LAST_SECOND_OF_ERA_0 + 1, 10_000_000);
            var resp := Exchange(Request(1, t2, 1, []), t2, issued, t3, synced);
            && resp.Ok?
            && CalculateRTT(t2, resp.value.receiveTimestamp, resp.value.senderTimestamp, t4) == ERA_NANOS + 10_000_000
  {
    var t2, t3 := Instant(LAST_SECOND_OF_ERA_0, 0), Instant(LAST_SECOND_OF_ERA_0 + 1, 0);
    var t4 := Instant(LAST_SECOND_OF_ERA_0 + 1, 10_000_000);
    MeasuredRTT(Request(1, t2, 1, []), t2, issued, t3, synced, t4);
    hide Exchange;
    assert Era(t2.sec) == 0 && Era(t3.sec) == 1;
  }
}
