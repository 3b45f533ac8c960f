/** The path-MTU binary search of mtu.go, run against an arbitrary path. */
module MtuSearch {
  import opened Words

  const IPV4_FLOOR := 576
  const IPV4_OVERHEAD := 28
  const IPV6_FLOOR := 1280
  const IPV6_OVERHEAD := 48

  /** What becomes of one probe. Only EchoReply counts as fitting. */
  datatype Outcome = EchoReply | OtherReply | WriteFailed | ReadFailed | Unparsable | MarshalFailed

  datatype Probe = Probe(size: int, outcome: Outcome)

  datatype Stop = Finished | Cancelled | GaveUp

  /** The answer to the k-th probe (from 0) of a given size; it need not be consistent. */
  type Path = (nat, int) -> Outcome

  predicate Replied(probes: seq<Probe>, size: int) {
    exists p :: p in probes && p == Probe(size, EchoReply)
  }

  predicate Failed(probes: seq<Probe>, size: int) {
    exists p :: p in probes && p.size == size && p.outcome != EchoReply
  }

  /** The answers seen look monotone: sizes up to effective replied, larger ones failed. */
  predicate Threshold(probes: seq<Probe>, effective: int) {
    forall p :: p in probes ==> (p.outcome == EchoReply <==> p.size <= effective)
  }

  /** What a finished search knows: it either reached the ceiling or saw the next size up fail. */
  predicate Settled(floor: int, ceiling: int, probes: seq<Probe>, effective: int) {
    if effective == 0 then ceiling < floor || Failed(probes, floor)
    else Replied(probes, effective) && (effective == ceiling || Failed(probes, effective + 1))
  }

  /** Logs the k-th probe. */
  predicate LogOf(path: Path, probes: seq<Probe>) {
    forall k :: 0 <= k < |probes| ==> probes[k].outcome == path(k, probes[k].size)
  }

  /** A probe ends with a cancellation check only if its reply could be parsed. */
  predicate CancelSeen(probes: seq<Probe>, cancelled: nat -> bool, k: nat)
    requires k < |probes|
  {
    cancelled(k) && (probes[k].outcome == EchoReply || probes[k].outcome == OtherReply)
  }

  /** No parsed reply met a cancelled context, and every probe could be built. */
  predicate Undisturbed(probes: seq<Probe>, cancelled: nat -> bool) {
    forall k :: 0 <= k < |probes| ==> !CancelSeen(probes, cancelled, k) && probes[k].outcome != MarshalFailed
  }

  /** The bracket the loop maintains: everything below lo replied, everything above hi failed. */
  ghost predicate Bracket(floor: int, ceiling: int, lo: int, hi: int, effective: int, probes: seq<Probe>) {
    && 0 < floor <= lo && hi <= ceiling
    && (lo <= hi + 1 || (probes == [] && lo == floor && hi == ceiling))
    && (if effective == 0 then lo == floor else effective == lo - 1 >= floor && Replied(probes, effective))
    && (hi == ceiling || Failed(probes, hi + 1))
    && forall p :: p in probes ==>
         && floor <= p.size <= ceiling
         && (if p.outcome == EchoReply then p.size < lo else p.size > hi)
  }

  lemma ProbeReplied(floor: int, ceiling: int, lo: int, hi: int, effective: int, probes: seq<Probe>, mid: int)
    requires Bracket(floor, ceiling, lo, hi, effective, probes) && lo <= mid <= hi
    ensures Bracket(floor, ceiling, mid + 1, hi, mid, probes + [Probe(mid, EchoReply)])
  {
    var longer := probes + [Probe(mid, EchoReply)];
    assert longer[|probes|] == Probe(mid, EchoReply) && Probe(mid, EchoReply) in longer;
    assert hi != ceiling ==> exists p :: p in longer && p.size == hi + 1 && p.outcome != EchoReply by {
      if hi != ceiling {
        var p :| p in probes && p.size == hi + 1 && p.outcome != EchoReply;
        assert p in longer;
      }
    }
  }

  lemma ProbeFailed(floor: int, ceiling: int, lo: int, hi: int, effective: int, probes: seq<Probe>, p: Probe)
    requires Bracket(floor, ceiling, lo, hi, effective, probes) && lo <= p.size <= hi && p.outcome != EchoReply
    ensures Bracket(floor, ceiling, lo, p.size - 1, effective, probes + [p])
  {
    var longer := probes + [p];
    assert longer[|probes|] == p;
    if effective != 0 {
      assert Probe(effective, EchoReply) in longer;
    }
  }

  lemma BracketAnswers(floor: int, ceiling: int, lo: int, hi: int, effective: int, probes: seq<Probe>)
    requires Bracket(floor, ceiling, lo, hi, effective, probes)
    ensures effective == 0 || (floor <= effective <= ceiling && Replied(probes, effective))
    ensures Threshold(probes, effective)
    ensures forall p :: p in probes ==> floor <= p.size <= ceiling
    ensures lo > hi ==> Settled(floor, ceiling, probes, effective)
  {}

  /** n probes have each at least halved a range of width sizes, of which w are left.
      While only replies came (up), each exactly halved it, rounding down. */
  ghost predicate Budget(width: int, n: nat, w: int, up: bool) {
    && (w > 0 ==> Pow2(n) * w <= width)
    && (n > 0 ==> Pow2(n - 1) <= width)
    && (up && w >= 0 ==> width < Pow2(n) * (w + 1))
  }

  lemma Halve(width: int, n: nat, w: int, w': int, up: bool, up': bool)
    requires Budget(width, n, w, up) && w > 0 && 0 <= w' <= w / 2
    requires up' ==> up && w' == w / 2
    ensures Budget(width, n + 1, w', up')
  {
    var p := Pow2(n);
    assert Pow2(n + 1) == 2 * p;
    DoubledProduct(p, w', w);
    MulMonotone(p, 1, w);
    if up' {
      DoubledProduct(p, w + 1, w' + 1);
    }
  }

  /** 2p * a against p * b, where 2a and b compare. */
  lemma DoubledProduct(p: nat, a: nat, b: nat)
    ensures 2 * a <= b ==> (2 * p) * a <= p * b
    ensures a <= 2 * b ==> p * a <= (2 * p) * b
  {
    assert (2 * p) * a == p * (2 * a) && (2 * p) * b == p * (2 * b);
    if 2 * a <= b {
      MulMonotone(p, 2 * a, b);
    }
    if a <= 2 * b {
      MulMonotone(p, a, 2 * b);
    }
  }

  lemma MulMonotone(p: nat, a: nat, b: nat)
    requires a <= b
    ensures p * a <= p * b
  {}

  /** Everything the loop maintains about the bracket and the log. */
  ghost predicate Searching(floor: int, ceiling: int, lo: int, hi: int, effective: int, probes: seq<Probe>, path: Path) {
    && Bracket(floor, ceiling, lo, hi, effective, probes)
    && Budget(ceiling - floor + 1, |probes|, hi - lo + 1, hi == ceiling)
    && LogOf(path, probes)
  }

  lemma Started(floor: int, ceiling: int, path: Path, cancelled: nat -> bool)
    requires 0 < floor
    ensures Searching(floor, ceiling, floor, ceiling, 0, [], path) && Undisturbed([], cancelled)
  {}

  lemma InBracket(floor: int, ceiling: int, lo: int, hi: int, effective: int, probes: seq<Probe>, path: Path)
    requires Searching(floor, ceiling, lo, hi, effective, probes, path)
    ensures floor <= lo && hi <= ceiling
  {}

  /** One probe in the middle of the bracket. */
  lemma Probed(floor: int, ceiling: int, lo: int, hi: int, effective: int, probes: seq<Probe>, path: Path, mid: int)
    requires Searching(floor, ceiling, lo, hi, effective, probes, path) && lo <= hi && mid == (lo + hi) / 2
    ensures var p := Probe(mid, path(|probes|, mid));
            if p.outcome == EchoReply then Searching(floor, ceiling, mid + 1, hi, mid, probes + [p], path)
            else Searching(floor, ceiling, lo, mid - 1, effective, probes + [p], path)
  {
    var p := Probe(mid, path(|probes|, mid));
    hide Bracket, Budget, LogOf;
    LogExtended(path, probes, p);
    var width, n, w := ceiling - floor + 1, |probes|, hi - lo + 1;
    if p.outcome == EchoReply {
      ProbeReplied(floor, ceiling, lo, hi, effective, probes, mid);
      Halve(width, n, w, hi - mid, hi == ceiling, hi == ceiling);
    } else {
      ProbeFailed(floor, ceiling, lo, hi, effective, probes, p);
      InBracketOnly(floor, ceiling, lo, hi, effective, probes);
      Halve(width, n, w, mid - lo, hi == ceiling, false);
    }
  }

  lemma LogExtended(path: Path, probes: seq<Probe>, p: Probe)
    requires LogOf(path, probes) && p.outcome == path(|probes|, p.size)
    ensures LogOf(path, probes + [p])
  {}

  lemma StillUndisturbed(probes: seq<Probe>, cancelled: nat -> bool, p: Probe)
    requires Undisturbed(probes, cancelled)
    ensures Undisturbed(probes + [p], cancelled) <==>
            !CancelSeen(probes + [p], cancelled, |probes|) && p.outcome != MarshalFailed
  {
    var longer := probes + [p];
    assert longer[|probes|] == p;
    if Undisturbed(longer, cancelled) {
      assert !CancelSeen(longer, cancelled, |probes|);
    }
    if !CancelSeen(longer, cancelled, |probes|) && p.outcome != MarshalFailed {
      forall k | 0 <= k < |longer|
        ensures !CancelSeen(longer, cancelled, k) && longer[k].outcome != MarshalFailed
      {
        if k < |probes| {
          assert longer[k] == probes[k] && !CancelSeen(probes, cancelled, k);
        }
      }
    }
  }

  lemma InBracketOnly(floor: int, ceiling: int, lo: int, hi: int, effective: int, probes: seq<Probe>)
    requires Bracket(floor, ceiling, lo, hi, effective, probes)
    ensures hi <= ceiling
  {}

  /** What a search reports. The last two clauses bound the number of probes by the logarithm of the range:
      it is at most floor(log2(ceiling - floor + 1)) + 1, and exactly that when the ceiling itself passes. */
  ghost predicate Report(floor: int, ceiling: int, path: Path, effective: int, probes: seq<Probe>, finished: bool) {
    && LogOf(path, probes)
    && (forall p :: p in probes ==> floor <= p.size <= ceiling)
    && (effective == 0 || (floor <= effective <= ceiling && Replied(probes, effective)))
    && Threshold(probes, effective)
    && (finished ==> Settled(floor, ceiling, probes, effective))
    && (probes != [] ==> Pow2(|probes| - 1) <= ceiling - floor + 1)
    && (finished && effective == ceiling ==> ceiling - floor + 1 < Pow2(|probes|))
  }

  lemma Reported(floor: int, ceiling: int, lo: int, hi: int, effective: int, probes: seq<Probe>, path: Path,
                 finished: bool)
    requires Searching(floor, ceiling, lo, hi, effective, probes, path) && (finished ==> lo > hi)
    ensures Report(floor, ceiling, path, effective, probes, finished)
  {
    BracketAnswers(floor, ceiling, lo, hi, effective, probes);
    if effective != 0 {
      assert Probe(effective, EchoReply) in probes;
    } else if probes != [] {
      assert probes[0] in probes;
    }
    assert Pow2(|probes|) >= 1;
  }

  lemma UndisturbedToTheEnd(probes: seq<Probe>, cancelled: nat -> bool)
    requires Undisturbed(probes, cancelled)
    ensures probes != [] ==> !CancelSeen(probes, cancelled, |probes| - 1)
  {}

  method Search(floor: int, overhead: int, ceiling: int, path: Path, cancelled: nat -> bool)
      returns (effective: int, probes: seq<Probe>, payloads: seq<nat>, stop: Stop)
    requires 0 <= overhead < floor
    ensures |payloads| == |probes| && forall k :: 0 <= k < |probes| ==> payloads[k] == probes[k].size - overhead
    ensures Report(floor, ceiling, path, effective, probes, stop == Finished)
    ensures stop == Finished <==> Undisturbed(probes, cancelled)
    ensures stop == Cancelled <==> probes != [] && CancelSeen(probes, cancelled, |probes| - 1)
  {
    hide Searching, Report, Undisturbed;
    var lo, hi := floor, ceiling;
    effective, probes, payloads, stop := 0, [], [], Finished;
    Started(floor, ceiling, path, cancelled);
    while lo <= hi
      invariant |payloads| == |probes| && forall k :: 0 <= k < |probes| ==> payloads[k] == probes[k].size - overhead
      invariant Searching(floor, ceiling, lo, hi, effective, probes, path) && Undisturbed(probes, cancelled)
      decreases hi - lo
    {
      var mid := (lo + hi) / 2;
      InBracket(floor, ceiling, lo, hi, effective, probes, path);
      var payloadSize := mid - overhead;
      if payloadSize < 0 {
        assert false;
        break;
      }
      Probed(floor, ceiling, lo, hi, effective, probes, path, mid);
      var k := |probes|;
      var outcome := path(k, mid);
      StillUndisturbed(probes, cancelled, Probe(mid, outcome));
      probes, payloads := probes + [Probe(mid, outcome)], payloads + [payloadSize];
      if outcome == MarshalFailed {
        Reported(floor, ceiling, lo, mid - 1, effective, probes, path, false);
        return effective, probes, payloads, GaveUp;
      }
      if outcome == WriteFailed || outcome == ReadFailed || outcome == Unparsable {
        hi := mid - 1;
        continue;
      }
      if outcome == EchoReply {
        effective := mid;
        lo := mid + 1;
      } else {
        hi := mid - 1;
      }
      if cancelled(k) {
        Reported(floor, ceiling, lo, hi, effective, probes, path, false);
        return effective, probes, payloads, Cancelled;
      }
    }
    UndisturbedToTheEnd(probes, cancelled);
    Reported(floor, ceiling, lo, hi, effective, probes, path, true);
  }

  /** On a path that passes exactly the sizes up to mtu, a finished search finds the largest one it may report. */
  lemma MonotonePathGivesMaximum(floor: int, ceiling: int, path: Path, mtu: int, probes: seq<Probe>, effective: int)
    requires 0 < floor && LogOf(path, probes)
    requires effective == 0 || floor <= effective <= ceiling
    requires Settled(floor, ceiling, probes, effective)
    requires forall k, size :: path(k, size) == EchoReply <==> size <= mtu
    ensures effective == (if ceiling < floor || mtu < floor then 0 else if mtu <= ceiling then mtu else ceiling)
  {
    if effective == 0 {
      if ceiling >= floor {
        var p :| p in probes && p.size == floor && p.outcome != EchoReply;
        var k :| 0 <= k < |probes| && probes[k] == p;
      }
    } else {
      var k :| 0 <= k < |probes| && probes[k] == Probe(effective, EchoReply);
      assert path(k, effective) == EchoReply;
      if effective != ceiling {
        var p :| p in probes && p.size == effective + 1 && p.outcome != EchoReply;
        var j :| 0 <= j < |probes| && probes[j] == p;
        assert path(j, effective + 1) != EchoReply;
      }
    }
  }

  method DiscoverV4(ceiling: int, path: Path, cancelled: nat -> bool)
      returns (effective: int, probes: seq<Probe>, payloads: seq<nat>, stop: Stop)
    ensures |payloads| == |probes| && forall k :: 0 <= k < |probes| ==> payloads[k] == probes[k].size - 28
    ensures LogOf(path, probes) && Threshold(probes, effective)
    ensures effective == 0 || (576 <= effective <= ceiling && Replied(probes, effective))
    ensures stop == Finished ==> Settled(576, ceiling, probes, effective)
    ensures stop == Finished <==> Undisturbed(probes, cancelled)
    ensures probes != [] ==> Pow2(|probes| - 1) <= ceiling - 575
    ensures stop == Finished && effective == ceiling ==> ceiling - 575 < Pow2(|probes|)
    ensures stop == Cancelled <==> probes != [] && CancelSeen(probes, cancelled, |probes| - 1)
  {
    effective, probes, payloads, stop := Search(IPV4_FLOOR, IPV4_OVERHEAD, ceiling, path, cancelled);
  }

  method DiscoverV6(ceiling: int, path: Path, cancelled: nat -> bool)
      returns (effective: int, probes: seq<Probe>, payloads: seq<nat>, stop: Stop)
    ensures |payloads| == |probes| && forall k :: 0 <= k < |probes| ==> payloads[k] == probes[k].size - 48
    ensures LogOf(path, probes) && Threshold(probes, effective)
    ensures effective == 0 || (1280 <= effective <= ceiling && Replied(probes, effective))
    ensures stop == Finished ==> Settled(1280, ceiling, probes, effective)
    ensures stop == Finished <==> Undisturbed(probes, cancelled)
    ensures probes != [] ==> Pow2(|probes| - 1) <= ceiling - 1279
    ensures stop == Finished && effective == ceiling ==> ceiling - 1279 < Pow2(|probes|)
    ensures stop == Cancelled <==> probes != [] && CancelSeen(probes, cancelled, |probes| - 1)
  {
    effective, probes, payloads, stop := Search(IPV6_FLOOR, IPV6_OVERHEAD, ceiling, path, cancelled);
  }
}
