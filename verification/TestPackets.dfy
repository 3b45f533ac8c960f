/** TWAMP-Light test packets as main.go lays them out: a 14-byte request and a 40-byte response. */
module TestPackets {
  import opened Words
  import opened Bytes
  import opened NtpTime

  const TEST_REQUEST_BASE_SIZE := 14
  const TEST_RESPONSE_BASE_SIZE := 40

  /** SequenceNumber, Timestamp, ErrorEstimate. */
  const REQUEST_WIDTHS: seq<nat> := [4, 8, 2]

  /** SequenceNumber, Timestamp, ErrorEstimate, MBZ, ReceiveTimestamp, SenderSeqNumber,
      SenderTimestamp, SenderError, MBZ2, SenderTTL. */
  const RESPONSE_WIDTHS: seq<nat> := [4, 8, 2, 2, 8, 4, 8, 2, 1, 1]

  datatype Request = Request(sequenceNumber: uint32, timestamp: Instant, errorEstimate: uint16, padding: seq<uint8>)

  datatype Response = Response(
    sequenceNumber: uint32, timestamp: Instant, errorEstimate: uint16, mbz: uint16,
    receiveTimestamp: Instant, senderSeqNumber: uint32, senderTimestamp: Instant,
    senderError: uint16, mbz2: uint8, senderTTL: uint8)

  datatype Parsed<T> = Ok(value: T) | TooShort(length: nat)

  lemma Sizes()
    ensures Size(REQUEST_WIDTHS) == TEST_REQUEST_BASE_SIZE
    ensures Size(RESPONSE_WIDTHS) == TEST_RESPONSE_BASE_SIZE
  {
    RequestOffsets();
    ResponseOffsets();
    assert REQUEST_WIDTHS[..3] == REQUEST_WIDTHS && RESPONSE_WIDTHS[..10] == RESPONSE_WIDTHS;
  }

  lemma RequestOffsets()
    ensures var w := REQUEST_WIDTHS;
            Size(w[..0]) == 0 && Size(w[..1]) == 4 && Size(w[..2]) == 12 && Size(w[..3]) == 14
  {
    var w := REQUEST_WIDTHS;
    RunningSize(w, 0, 4); RunningSize(w, 1, 8); RunningSize(w, 2, 2);
  }

  lemma ResponseOffsets()
    ensures var w := RESPONSE_WIDTHS;
            && Size(w[..0]) == 0 && Size(w[..1]) == 4 && Size(w[..2]) == 12 && Size(w[..3]) == 14
            && Size(w[..4]) == 16 && Size(w[..5]) == 24 && Size(w[..6]) == 28 && Size(w[..7]) == 36
            && Size(w[..8]) == 38 && Size(w[..9]) == 39 && Size(w[..10]) == 40
  {
    var w := RESPONSE_WIDTHS;
    RunningSize(w, 0, 4); RunningSize(w, 1, 8); RunningSize(w, 2, 2); RunningSize(w, 3, 2); RunningSize(w, 4, 8);
    RunningSize(w, 5, 4); RunningSize(w, 6, 8); RunningSize(w, 7, 2); RunningSize(w, 8, 1); RunningSize(w, 9, 1);
  }

  lemma {:induction false} RunningSize(w: seq<nat>, i: nat, width: nat)
    requires i < |w| && w[i] == width
    ensures Size(w[..i + 1]) == Size(w[..i]) + width
  {
    assert w[..i + 1][..i] == w[..i];
  }

  function RequestValues(p: Request): seq<nat> {
    [p.sequenceNumber, TimeToNTP(p.timestamp), p.errorEstimate]
  }

  function RequestBytes(p: Request): seq<uint8> {
    Record(REQUEST_WIDTHS, RequestValues(p)) + Zeros(|p.padding|)
  }

  /** What UnmarshalBinary makes of data; padding is what the receiver held before. */
  function ParseRequest(data: seq<uint8>, padding: seq<uint8>): Parsed<Request> {
    Sizes();
    Pow256Values();
    if |data| < TEST_REQUEST_BASE_SIZE then TooShort(|data|)
    else
      FieldsBounded(REQUEST_WIDTHS, data);
      var v := Fields(REQUEST_WIDTHS, data);
      Ok(Request(v[0], NTPToTime(v[1]), v[2],
                 if |data| > TEST_REQUEST_BASE_SIZE then data[TEST_REQUEST_BASE_SIZE..] else padding))
  }

  function ResponseValues(p: Response): seq<nat> {
    [p.sequenceNumber, TimeToNTP(p.timestamp), p.errorEstimate, 0,
     TimeToNTP(p.receiveTimestamp), p.senderSeqNumber, TimeToNTP(p.senderTimestamp),
     p.senderError, 0, p.senderTTL]
  }

  function ResponseBytes(p: Response): seq<uint8> {
    Record(RESPONSE_WIDTHS, ResponseValues(p))
  }

  function ParseResponse(data: seq<uint8>): Parsed<Response> {
    Sizes();
    Pow256Values();
    if |data| < TEST_RESPONSE_BASE_SIZE then TooShort(|data|)
    else
      FieldsBounded(RESPONSE_WIDTHS, data);
      var v := Fields(RESPONSE_WIDTHS, data);
      Ok(Response(v[0], NTPToTime(v[1]), v[2], v[3], NTPToTime(v[4]), v[5], NTPToTime(v[6]), v[7], v[8], v[9]))
  }

  /** Where a request's fields lie. */
  lemma RequestFieldOffsets(data: seq<uint8>)
    requires |data| >= TEST_REQUEST_BASE_SIZE
    ensures Size(REQUEST_WIDTHS) == TEST_REQUEST_BASE_SIZE
    ensures var v := Fields(REQUEST_WIDTHS, data);
            && v[0] == ReadUint(data, 0, 4) && v[1] == ReadUint(data, 4, 8) && v[2] == ReadUint(data, 12, 2)
  {
    Sizes();
    RequestOffsets();
    var w := REQUEST_WIDTHS;
    ReadsField(w, data, 0, 0); ReadsField(w, data, 1, 4); ReadsField(w, data, 2, 12);
  }

  /** Where a response's fields lie: the reflector's stamps T2 and T3 are at bytes 16 and 28. */
  lemma ResponseFieldOffsets(data: seq<uint8>)
    requires |data| >= TEST_RESPONSE_BASE_SIZE
    ensures Size(RESPONSE_WIDTHS) == TEST_RESPONSE_BASE_SIZE
    ensures var v := Fields(RESPONSE_WIDTHS, data);
            && v[0] == ReadUint(data, 0, 4) && v[1] == ReadUint(data, 4, 8) && v[2] == ReadUint(data, 12, 2)
            && v[3] == ReadUint(data, 14, 2) && v[4] == ReadUint(data, 16, 8) && v[5] == ReadUint(data, 24, 4)
            && v[6] == ReadUint(data, 28, 8) && v[7] == ReadUint(data, 36, 2) && v[8] == ReadUint(data, 38, 1)
            && v[9] == ReadUint(data, 39, 1)
  {
    Sizes();
    ResponseOffsets();
    var w := RESPONSE_WIDTHS;
    ReadsField(w, data, 0, 0); ReadsField(w, data, 1, 4); ReadsField(w, data, 2, 12); ReadsField(w, data, 3, 14);
    ReadsField(w, data, 4, 16); ReadsField(w, data, 5, 24); ReadsField(w, data, 6, 28); ReadsField(w, data, 7, 36);
    ReadsField(w, data, 8, 38); ReadsField(w, data, 9, 39);
  }

  lemma {:induction false} ReadsField(w: seq<nat>, data: seq<uint8>, i: nat, off: nat)
    requires i < |w| && Size(w) <= |data| && Size(w[..i]) == off
    ensures off + w[i] <= |data| && Fields(w, data)[i] == ReadUint(data, off, w[i])
  {
    RunningSize(w, i, w[i]);
    FieldAt(w, data, i);
  }

  /** The request's bytes, field by field. */
  lemma RequestLayout(p: Request)
    ensures var b := RequestBytes(p);
            && |b| == TEST_REQUEST_BASE_SIZE + |p.padding|
            && b[0..4] == BigEndian(p.sequenceNumber, 4)
            && b[4..12] == BigEndian(TimeToNTP(p.timestamp), 8)
            && b[12..14] == BigEndian(p.errorEstimate, 2)
            && b[14..] == Zeros(|p.padding|)
  {
    Sizes();
    RequestOffsets();
    var w, v := REQUEST_WIDTHS, RequestValues(p);
    var r := Record(w, v);
    RecordAt(w, v, 0); RecordAt(w, v, 1); RecordAt(w, v, 2);
    var b := RequestBytes(p);
    assert b[0..4] == r[0..4] && b[4..12] == r[4..12] && b[12..14] == r[12..14];
  }

  /** The response's bytes, field by field. */
  lemma ResponseLayout(p: Response)
    ensures var b := ResponseBytes(p);
            && |b| == TEST_RESPONSE_BASE_SIZE
            && b[0..4] == BigEndian(p.sequenceNumber, 4)
            && b[4..12] == BigEndian(TimeToNTP(p.timestamp), 8)
            && b[12..14] == BigEndian(p.errorEstimate, 2)
            && b[14..16] == BigEndian(0, 2)
            && b[16..24] == BigEndian(TimeToNTP(p.receiveTimestamp), 8)
            && b[24..28] == BigEndian(p.senderSeqNumber, 4)
            && b[28..36] == BigEndian(TimeToNTP(p.senderTimestamp), 8)
            && b[36..38] == BigEndian(p.senderError, 2)
            && b[38..39] == BigEndian(0, 1)
            && b[39..40] == BigEndian(p.senderTTL, 1)
  {
    Sizes();
    ResponseOffsets();
    var w, v := RESPONSE_WIDTHS, ResponseValues(p);
    hide TimeToNTP, BigEndian, Record, Size;
    RecordAt(w, v, 0); RecordAt(w, v, 1); RecordAt(w, v, 2); RecordAt(w, v, 3); RecordAt(w, v, 4);
    RecordAt(w, v, 5); RecordAt(w, v, 6); RecordAt(w, v, 7); RecordAt(w, v, 8); RecordAt(w, v, 9);
  }

  // ---- Round trips ----

  /** A request survives the wire bit for bit, except that its time makes one hop and its padding is zeroed. */
  lemma {:induction false} RequestRoundTrip(p: Request)
    ensures |RequestBytes(p)| == TEST_REQUEST_BASE_SIZE + |p.padding|
    ensures ParseRequest(RequestBytes(p), []) == Ok(p.(timestamp := Hop(p.timestamp), padding := Zeros(|p.padding|)))
  {
    Sizes();
    Pow256Values();
    RecordRoundTrip(REQUEST_WIDTHS, RequestValues(p), Zeros(|p.padding|));
  }

  /** A response survives the wire bit for bit, except that its times make one hop and both MBZ fields are zeroed.
      Bytes after the first 40 are ignored. */
  lemma {:induction false} ResponseRoundTrip(p: Response, extra: seq<uint8>)
    ensures |ResponseBytes(p)| == TEST_RESPONSE_BASE_SIZE
    ensures ParseResponse(ResponseBytes(p) + extra) == Ok(p.(
      timestamp := Hop(p.timestamp), receiveTimestamp := Hop(p.receiveTimestamp),
      senderTimestamp := Hop(p.senderTimestamp), mbz := 0, mbz2 := 0))
  {
    Sizes();
    Pow256Values();
    hide TimeToNTP, NTPToTime;
    assert FieldsFit(RESPONSE_WIDTHS, ResponseValues(p));
    hide FieldsFit, Pow256;
    RecordRoundTrip(RESPONSE_WIDTHS, ResponseValues(p), extra);
    hide Record, Fields, Size;
  }

  // ---- The packet structures of main.go ----

  /** The big-endian integer of this width at off. */
  function ReadUint(data: seq<uint8>, off: nat, width: nat): (v: nat)
    requires off + width <= |data|
    ensures width == 1 ==> v < 0x100
    ensures width == 2 ==> v < 0x1_0000
    ensures width == 4 ==> v < TWO32
    ensures width == 8 ==> v < TWO64
  {
    Pow256Values();
    FromBigEndianBounded(data[off..off + width]);
    FromBigEndian(data[off..off + width])
  }

  /** Writes field i of a record after the fields before it. */
  method PutNext(buf: array<uint8>, off: nat, width: nat, x: nat, ghost i: nat, ghost w: seq<nat>, ghost v: seq<nat>)
      returns (next: nat)
    requires |w| == |v| && i < |w| && width == w[i] && x == v[i]
    requires off == Size(w[..i]) && off + width <= buf.Length && buf[..off] == Record(w[..i], v[..i])
    modifies buf
    ensures next == off + width == Size(w[..i + 1])
    ensures buf[..next] == Record(w[..i + 1], v[..i + 1])
    ensures forall j :: next <= j < buf.Length ==> buf[j] == old(buf[j])
  {
    ghost var before := buf[off + width..];
    next := PutField(buf, off, width, x, w[..i], v[..i]);
    forall j | next <= j < buf.Length
      ensures buf[j] == before[j - next]
    {
      assert buf[j] == buf[next..][j - next];
    }
    assert w[..i] + [width] == w[..i + 1] && v[..i] + [x] == v[..i + 1];
  }

  class TestRequest {
    var sequenceNumber: uint32
    var timestamp: Instant
    var errorEstimate: uint16
    var padding: seq<uint8>

    constructor (p: Request)
      ensures Value() == p
    {
      sequenceNumber, timestamp, errorEstimate, padding := p.sequenceNumber, p.timestamp, p.errorEstimate, p.padding;
    }

    function Value(): Request
      reads this
    {
      Request(sequenceNumber, timestamp, errorEstimate, padding)
    }

    method MarshalBinary() returns (buf: array<uint8>)
      ensures fresh(buf) && buf[..] == RequestBytes(Value())
    {
      hide TimeToNTP, BigEndian;
      buf := new uint8[TEST_REQUEST_BASE_SIZE + |padding|](_ => 0);
      ghost var w, v := REQUEST_WIDTHS, RequestValues(Value());
      var off := PutNext(buf, 0, 4, sequenceNumber, 0, w, v);
      off := PutNext(buf, off, 8, TimeToNTP(timestamp), 1, w, v);
      off := PutNext(buf, off, 2, errorEstimate, 2, w, v);
      assert w[..3] == w && v[..3] == v;
      Sizes();
      assert buf[..] == buf[..off] + buf[off..];
      assert buf[off..] == Zeros(|padding|);
    }

    /** Fills this from data, or leaves it alone when data is too short. An exact 14-byte packet keeps the old padding. */
    method UnmarshalBinary(data: seq<uint8>) returns (ok: bool)
      modifies this
      ensures ok == ParseRequest(data, old(padding)).Ok?
      ensures Value() == if ok then ParseRequest(data, old(padding)).value else old(Value())
      ensures ok <==> |data| >= TEST_REQUEST_BASE_SIZE
    {
      if |data| < TEST_REQUEST_BASE_SIZE {
        return false;
      }
      RequestFieldOffsets(data);
      sequenceNumber := ReadUint(data, 0, 4);
      timestamp := NTPToTime(ReadUint(data, 4, 8));
      errorEstimate := ReadUint(data, 12, 2);
      if |data| > TEST_REQUEST_BASE_SIZE {
        padding := data[TEST_REQUEST_BASE_SIZE..];
      }
      return true;
    }
  }

  class TestResponse {
    var sequenceNumber: uint32
    var timestamp: Instant
    var errorEstimate: uint16
    var mbz: uint16
    var receiveTimestamp: Instant
    var senderSeqNumber: uint32
    var senderTimestamp: Instant
    var senderError: uint16
    var mbz2: uint8
    var senderTTL: uint8

    constructor (p: Response)
      ensures Value() == p
    {
      sequenceNumber, timestamp, errorEstimate, mbz := p.sequenceNumber, p.timestamp, p.errorEstimate, p.mbz;
      receiveTimestamp, senderSeqNumber := p.receiveTimestamp, p.senderSeqNumber;
      senderTimestamp, senderError, mbz2, senderTTL := p.senderTimestamp, p.senderError, p.mbz2, p.senderTTL;
    }

    function Value(): Response
      reads this
    {
      Response(sequenceNumber, timestamp, errorEstimate, mbz, receiveTimestamp, senderSeqNumber,
               senderTimestamp, senderError, mbz2, senderTTL)
    }

    method MarshalBinary() returns (buf: array<uint8>)
      ensures fresh(buf) && buf[..] == ResponseBytes(Value())
    {
      hide TimeToNTP, BigEndian;
      buf := new uint8[TEST_RESPONSE_BASE_SIZE](_ => 0);
      ghost var w, v := RESPONSE_WIDTHS, ResponseValues(Value());
      var off := PutNext(buf, 0, 4, sequenceNumber, 0, w, v);
      off := PutNext(buf, off, 8, TimeToNTP(timestamp), 1, w, v);
      off := PutNext(buf, off, 2, errorEstimate, 2, w, v);
      off := PutNext(buf, off, 2, 0, 3, w, v);
      off := PutNext(buf, off, 8, TimeToNTP(receiveTimestamp), 4, w, v);
      off := PutNext(buf, off, 4, senderSeqNumber, 5, w, v);
      off := PutNext(buf, off, 8, TimeToNTP(senderTimestamp), 6, w, v);
      off := PutNext(buf, off, 2, senderError, 7, w, v);
      off := PutNext(buf, off, 1, 0, 8, w, v);
      off := PutNext(buf, off, 1, senderTTL, 9, w, v);
      assert w[..10] == w && v[..10] == v && buf[..] == buf[..off];
      assert v == ResponseValues(Value());
      hide Record, Size, ResponseValues;
    }

    /** Fills every field from the first 40 bytes of data, or leaves this alone when data is too short. */
    method UnmarshalBinary(data: seq<uint8>) returns (ok: bool)
      modifies this
      ensures ok == ParseResponse(data).Ok?
      ensures Value() == if ok then ParseResponse(data).value else old(Value())
      ensures ok <==> |data| >= TEST_RESPONSE_BASE_SIZE
    {
      hide NTPToTime, ReadUint;
      if |data| < TEST_RESPONSE_BASE_SIZE {
        return false;
      }
      ResponseFieldOffsets(data);
      var off := 0;
      sequenceNumber := ReadUint(data, off, 4);
      off := off + 4;
      timestamp := NTPToTime(ReadUint(data, off, 8));
      off := off + 8;
      errorEstimate := ReadUint(data, off, 2);
      off := off + 2;
      mbz := ReadUint(data, off, 2);
      off := off + 2;
      receiveTimestamp := NTPToTime(ReadUint(data, off, 8));
      off := off + 8;
      senderSeqNumber := ReadUint(data, off, 4);
      off := off + 4;
      senderTimestamp := NTPToTime(ReadUint(data, off, 8));
      off := off + 8;
      senderError := ReadUint(data, off, 2);
      off := off + 2;
      mbz2 := ReadUint(data, off, 1);
      off := off + 1;
      senderTTL := ReadUint(data, off, 1);
      return true;
    }
  }
}
