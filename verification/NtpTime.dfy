/** Conversion between wall-clock instants and 64-bit NTP timestamps (RFC 5905, section 6). */
module NtpTime {
  import opened Words

  const NTP_EPOCH_OFFSET := 2208988800
  const NANOS_PER_SECOND := 1_000_000_000
  const FRACTION_MASK: uint64 := 0xFFFF_FFFF

  /** 5^9: the largest divisor of 10^9 that is coprime to 2^32. */
  const FIVE_POW_9 := 1953125

  /** A wall-clock reading: Unix seconds and nanoseconds within the second. */
  datatype RawInstant = Instant(sec: int64, nsec: int)
  type Instant = t: RawInstant | 0 <= t.nsec < NANOS_PER_SECOND witness Instant(0, 0)

  function TimeToNTP(t: Instant): uint64 {
    var secs := ToUint64(ToInt64(t.sec + NTP_EPOCH_OFFSET));
    var frac := Shl32(t.nsec) / NANOS_PER_SECOND;
    EncodingWords(secs, t.nsec);
    Or(Shl32(secs), frac)
  }

  function NTPToTime(ntp: uint64): Instant {
    DecodingWords(ntp);
    var secs := ToUint64(Shr32(ntp) - NTP_EPOCH_OFFSET);
    var nanos := Shr32(ToUint64(And(ntp, FRACTION_MASK) * NANOS_PER_SECOND));
    Instant(ToInt64(secs), nanos)
  }

  const SECONDS_PER_DAY := 86400

  /** The offset between the epochs: 70 years from 1900 to 1970, of which 17 are leap years (1900 is none). The Unix
      epoch is 0x83AA7E80 seconds on, and half a second is the upper bit of the fraction. Era 0 ends with second
      2085978495, in 2036. */
  lemma Epochs()
    ensures NTP_EPOCH_OFFSET == (70 * 365 + 17) * SECONDS_PER_DAY == (70 * 365 + 17) * 86400
    ensures TimeToNTP(Instant(0, 0)) == 0x83AA_7E80_0000_0000
    ensures TimeToNTP(Instant(0, 500_000_000)) == 0x83AA_7E80_8000_0000
    ensures NTPToTime(0x83AA_7E80_0000_0000) == Instant(0, 0)
    ensures Era(2085978495) == 0 && Era(2085978496) == 1 && Era(-2208988800) == 0 && Era(-2208988801) == -1
  {
    EncodedValue(Instant(0, 0));
    EncodedValue(Instant(0, 500_000_000));
    DecodedValue(0x83AA_7E80_0000_0000);
    hide TimeToNTP, NTPToTime;
  }

  // ---- What the word operations compute ----

  /** The era-relative second: what 32 bits keep of a Unix second. */
  function EraSecond(sec: int): (s: uint32) {
    (sec + NTP_EPOCH_OFFSET) % TWO32
  }

  /** The number of whole 2^32-second eras since 1900. Era 0 covers 1900 to early 2036. */
  function Era(sec: int): int {
    (sec + NTP_EPOCH_OFFSET) / TWO32
  }

  function FractionOf(nsec: nat): nat {
    (nsec * TWO32) / NANOS_PER_SECOND
  }

  function NanosOf(frac: nat): nat {
    (frac * NANOS_PER_SECOND) / TWO32
  }

  lemma {:induction false} EncodingWords(secs: uint64, nsec: int)
    requires 0 <= nsec < NANOS_PER_SECOND
    ensures Shl32(nsec) == nsec * TWO32
    ensures Shl32(secs) == (secs % TWO32) * TWO32
    ensures Or(Shl32(secs), FractionOf(nsec)) == (secs % TWO32) * TWO32 + FractionOf(nsec) < TWO64
    ensures 0 <= FractionOf(nsec) < TWO32
  {
    hide Or;
    Pow2Of32();
    ShiftedOut(nsec);
    ShiftedOut(secs);
    Halves(secs % TWO32, FractionOf(nsec));
    OrIntoClearedBits(secs % TWO32, FractionOf(nsec), 32);
  }

  lemma {:induction false} DecodingWords(ntp: uint64)
    ensures Shr32(ntp) == ntp / TWO32
    ensures And(ntp, FRACTION_MASK) == ntp % TWO32
    ensures 0 <= (ntp % TWO32) * NANOS_PER_SECOND < TWO64
    ensures Shr32(ToUint64(And(ntp, FRACTION_MASK) * NANOS_PER_SECOND)) == NanosOf(ntp % TWO32) < NANOS_PER_SECOND
  {
    hide And;
    Pow2Of32();
    MaskIsRemainder(ntp, 32);
  }

  /** No uint64 product in either conversion overflows. */
  lemma ProductsFit(nsec: int, frac: uint32)
    requires 0 <= nsec < NANOS_PER_SECOND
    ensures nsec * TWO32 < TWO64
    ensures frac * NANOS_PER_SECOND < TWO64
  {}

  /** Encoding keeps the second modulo 2^32 for every int64 second, and the floor of the fraction. */
  lemma {:induction false} EncodedValue(t: Instant)
    ensures TimeToNTP(t) == EraSecond(t.sec) * TWO32 + FractionOf(t.nsec)
    ensures 0 <= FractionOf(t.nsec) < TWO32
  {
    hide Or;
    LowHalfSurvives(t.sec + NTP_EPOCH_OFFSET);
    EncodingWords(ToUint64(ToInt64(t.sec + NTP_EPOCH_OFFSET)), t.nsec);
  }

  lemma {:induction false} DecodedValue(ntp: uint64)
    ensures NTPToTime(ntp) == Instant(ntp / TWO32 - NTP_EPOCH_OFFSET, NanosOf(ntp % TWO32))
  {
    hide And;
    DecodingWords(ntp);
    SmallSigned(ntp / TWO32 - NTP_EPOCH_OFFSET);
  }

  // ---- Time to NTP and back ----

  /** One trip of a time over the wire. */
  function Hop(t: Instant): Instant {
    NTPToTime(TimeToNTP(t))
  }

  function Hops(t: Instant, k: nat): Instant {
    if k == 0 then t else Hop(Hops(t, k - 1))
  }

  /** The nanoseconds one hop loses. */
  function HopLoss(nsec: int): int {
    if nsec % FIVE_POW_9 == 0 then 0 else 1
  }

  function Min(a: int, b: int): int {
    if a <= b then a else b
  }

  /** A nanosecond count survives the fraction exactly when 5^9 divides it; otherwise one nanosecond is lost. */
  lemma {:induction false} FractionLoss(nsec: nat)
    requires nsec < NANOS_PER_SECOND
    ensures NanosOf(FractionOf(nsec)) == nsec - HopLoss(nsec)
  {
    var f := FractionOf(nsec);
    var r := (nsec * TWO32) % NANOS_PER_SECOND;
    assert nsec * TWO32 == f * NANOS_PER_SECOND + r;
    if r == 0 {
      OddFactorDivides(nsec, f);
    }
    if nsec % FIVE_POW_9 == 0 {
      var m := nsec / FIVE_POW_9;
      assert nsec * TWO32 == NANOS_PER_SECOND * (m * 0x80_0000);
    }
  }

  /** 5^9 is coprime to 2^23: 2^23 * 1241897 == 1 + 5^9 * 5333907. */
  lemma OddFactorDivides(n: nat, f: nat)
    requires n * 0x80_0000 == FIVE_POW_9 * f
    ensures n % FIVE_POW_9 == 0
  {
    assert n == FIVE_POW_9 * (f * 1241897 - n * 5333907);
  }

  lemma SecondKept(sec: int)
    ensures EraSecond(sec) - NTP_EPOCH_OFFSET == sec - Era(sec) * TWO32
  {}

  /** One hop: the second is kept modulo 2^32 and placed in era 0; the nanosecond drops by at most one. */
  lemma {:induction false} HopValue(t: Instant)
    ensures Hop(t) == Instant(EraSecond(t.sec) - NTP_EPOCH_OFFSET, t.nsec - HopLoss(t.nsec))
    ensures Hop(t).nsec == t.nsec <==> t.nsec % FIVE_POW_9 == 0
    ensures Hop(t).sec == t.sec <==> Era(t.sec) == 0
    ensures Hop(t).sec == t.sec - Era(t.sec) * TWO32
  {
    hide TimeToNTP, NTPToTime, FractionOf, NanosOf;
    EncodedValue(t);
    Halves(EraSecond(t.sec), FractionOf(t.nsec));
    DecodedValue(TimeToNTP(t));
    FractionLoss(t.nsec);
    SecondKept(t.sec);
  }

  lemma DriftStep(n: nat, k: nat)
    requires k > 0
    ensures var n' := n - Min(k - 1, n % FIVE_POW_9);
            n' - HopLoss(n') == n - Min(k, n % FIVE_POW_9)
  {
    var n' := n - Min(k - 1, n % FIVE_POW_9);
    assert n' == FIVE_POW_9 * (n / FIVE_POW_9) + (n % FIVE_POW_9 - Min(k - 1, n % FIVE_POW_9));
  }

  lemma EraSecondAgain(sec: int)
    ensures EraSecond(EraSecond(sec) - NTP_EPOCH_OFFSET) == EraSecond(sec)
  {}

  /** k hops drift by exactly min(k, nsec mod 5^9) nanoseconds, and then stop drifting. */
  lemma {:induction false} HopsDrift(t: Instant, k: nat)
    ensures Hops(t, k).nsec == t.nsec - Min(k, t.nsec % FIVE_POW_9)
    ensures k > 0 ==> Hops(t, k).sec == EraSecond(t.sec) - NTP_EPOCH_OFFSET
    ensures Era(t.sec) == 0 ==> Hops(t, k).sec == t.sec
  {
    hide Hop, HopLoss;
    if k > 0 {
      HopsDrift(t, k - 1);
      HopValue(Hops(t, k - 1));
      DriftStep(t.nsec, k);
      if k > 1 {
        EraSecondAgain(t.sec);
      }
    }
  }

  /** Within one era the encoding is strictly increasing: distinct instants get timestamps at least 4 units apart. */
  lemma {:induction false} EncodingStrictlyMonotone(t: Instant, u: Instant)
    requires Era(t.sec) == Era(u.sec)
    requires t.sec < u.sec || (t.sec == u.sec && t.nsec < u.nsec)
    ensures TimeToNTP(t) + 4 <= TimeToNTP(u)
  {
    EncodedValue(t);
    EncodedValue(u);
    if t.sec < u.sec {
      assert EraSecond(t.sec) + 1 <= EraSecond(u.sec);
      assert FractionOf(t.nsec) <= FractionOf(NANOS_PER_SECOND - 1) == TWO32 - 5;
    }
  }

  /** Going through nanoseconds and back loses between 0 and 5 fraction units. */
  lemma FractionReverse(f: uint32)
    ensures 0 <= NanosOf(f) < NANOS_PER_SECOND
    ensures 0 <= f - FractionOf(NanosOf(f)) <= 5
  {}

  /** NTP to time and back keeps the second and loses between 0 and 5 fraction units. */
  lemma {:induction false} ReverseTrip(ntp: uint64)
    ensures TimeToNTP(NTPToTime(ntp)) == ntp - (ntp % TWO32 - FractionOf(NanosOf(ntp % TWO32)))
    ensures TimeToNTP(NTPToTime(ntp)) / TWO32 == ntp / TWO32
    ensures 0 <= ntp - TimeToNTP(NTPToTime(ntp)) <= 5
  {
    hide TimeToNTP, NTPToTime, FractionOf, NanosOf;
    DecodedValue(ntp);
    EncodedValue(NTPToTime(ntp));
    FractionReverse(ntp % TWO32);
    Halves(ntp / TWO32, FractionOf(NanosOf(ntp % TWO32)));
  }

  /** Both ends of the range of ReverseTrip occur, in every second. */
  lemma {:induction false} ReverseTripIsTight(second: uint32)
    ensures TimeToNTP(NTPToTime(second * TWO32)) == second * TWO32
    ensures TimeToNTP(NTPToTime(second * TWO32 + 17)) == second * TWO32 + 12
  {
    assert FractionOf(NanosOf(0)) == 0 && FractionOf(NanosOf(17)) == 12;
    hide TimeToNTP, NTPToTime, FractionOf, NanosOf;
    Halves(second, 0);
    ReverseTrip(second * TWO32);
    Halves(second, 17);
    ReverseTrip(second * TWO32 + 17);
  }
}
