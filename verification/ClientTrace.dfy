/** Where the client's results come from: runs together with the steps that make them, and the readings and datagrams each
    result goes back to. */
module ClientTrace {
  import opened Words
  import opened NtpTime
  import opened RoundTripTime
  import opened ClientSession
  import opened ClientOutcome

  /** steps[k] leads from run[k] to run[k + 1]. */
  ghost predicate Performs(c: Config, run: seq<State>, steps: seq<Step>) {
    && |run| == |steps| + 1 && run[0] == Start(run[0].now)
    && forall k :: 0 <= k < |steps| ==> Enabled(c, run[k], steps[k]) && run[k + 1] == Next(c, run[k], steps[k])
  }

  /** Runs are exactly what steps perform. */
  lemma {:induction false} RunsArePerformed(c: Config, run: seq<State>)
    ensures IsRun(c, run) <==> exists steps :: Performs(c, run, steps)
  {
    hide Enabled, Next;
    if IsRun(c, run) {
      var steps := StepsOf(c, run);
    }
    if steps :| Performs(c, run, steps) {
      forall k | 0 <= k < |run| - 1
        ensures StepsTo(c, run[k], run[k + 1])
      {
        assert Enabled(c, run[k], steps[k]);
      }
    }
  }

  lemma {:induction false} StepsOf(c: Config, run: seq<State>) returns (steps: seq<Step>)
    requires IsRun(c, run)
    ensures Performs(c, run, steps)
  {
    hide Enabled, Next;
    steps := [];
    while |steps| < |run| - 1
      invariant |steps| < |run|
      invariant forall k :: 0 <= k < |steps| ==> Enabled(c, run[k], steps[k]) && run[k + 1] == Next(c, run[k], steps[k])
    {
      var step := LastStep(c, run, |steps| + 1);
      steps := steps + [step];
    }
  }

  // ---- Origins ----

  /** Step j, before state k, is the Stamp of packet i, at clock reading t1. */
  predicate StampOf(run: seq<State>, steps: seq<Step>, k: nat, j: nat, i: nat, t1: int) {
    j < k <= |steps| < |run| && steps[j] == Stamp && run[j].sender == Ready(i) && run[j].now == t1
  }

  /** Step j, before state k, is the datagram that answers q with these stamps, read at clock reading t4. */
  predicate AnswerOf(run: seq<State>, steps: seq<Step>, k: nat, j: nat, q: uint32, t2: int, t3: int, t4: int) {
    j < k <= |steps| < |run| && steps[j] == Datagram(q, t2, t3) && run[j].now == t4
  }

  /** Step j, before state k, is the failed write of packet i. */
  predicate FailureOf(run: seq<State>, steps: seq<Step>, k: nat, j: nat, i: nat) {
    j < k <= |steps| < |run| && steps[j] == WriteFail && run[j].sender == Inserted(i)
  }

  /** Step j, before state k, is the visit that expired q at this clock reading. */
  predicate ExpiryOf(run: seq<State>, steps: seq<Step>, k: nat, j: nat, q: uint32, at: int) {
    && j < k <= |steps| < |run| && steps[j] == Visit(q) && run[j].now == at
    && q in run[j].pending && q !in run[j + 1].pending
  }

  ghost predicate WasStamped(run: seq<State>, steps: seq<Step>, k: nat, q: uint32, t1: int) {
    exists j, i :: StampOf(run, steps, k, j, i, t1) && SeqNo(i) == q
  }

  ghost predicate WasAnswered(run: seq<State>, steps: seq<Step>, k: nat, q: uint32, t2: int, t3: int, t4: int) {
    exists j :: AnswerOf(run, steps, k, j, q, t2, t3, t4)
  }

  ghost predicate WasRefused(run: seq<State>, steps: seq<Step>, k: nat, q: uint32) {
    exists j, i :: FailureOf(run, steps, k, j, i) && SeqNo(i) == q
  }

  ghost predicate WasExpired(run: seq<State>, steps: seq<Step>, k: nat, q: uint32, at: int) {
    exists j :: ExpiryOf(run, steps, k, j, q, at)
  }

  /** A result goes back to the stamp of its packet and, for a round-trip time, to one answer; for a failure, to a failed
      write; for an expiry, to a visit of the map. */
  ghost predicate Explained(run: seq<State>, steps: seq<Step>, k: nat, r: Result) {
    match r
    case Rtt(q, t1, t2, t3, t4, rtt) =>
      && WasStamped(run, steps, k, q, t1) && WasAnswered(run, steps, k, q, t2, t3, t4)
      && rtt == (if (t4 - t1) - (t3 - t2) < 0 then 0 else (t4 - t1) - (t3 - t2))
    case SendFailed(q) => WasRefused(run, steps, k, q)
    case TimedOut(q, at) => WasExpired(run, steps, k, q, at)
  }

  ghost predicate SenderOrigin(run: seq<State>, steps: seq<Step>, k: nat, s: State) {
    && (s.sender.Stamped? ==> WasStamped(run, steps, k, SeqNo(s.sender.i), s.sender.t1))
    && (s.sender.WriteFailed? || s.sender.Erased? ==> WasRefused(run, steps, k, SeqNo(s.sender.i)))
  }

  ghost predicate MapOrigin(run: seq<State>, steps: seq<Step>, k: nat, s: State) {
    forall q :: q in s.pending ==>
      s.pending[q].sentAt == s.pending[q].t1 && WasStamped(run, steps, k, q, s.pending[q].t1)
  }

  ghost predicate ReceiverOrigin(run: seq<State>, steps: seq<Step>, k: nat, r: Receiver) {
    && (r.LookingUp? ==> WasAnswered(run, steps, k, r.seqNo, r.t2, r.t3, r.t4))
    && (r.Holding? ==>
          && WasStamped(run, steps, k, r.seqNo, r.p.t1)
          && WasAnswered(run, steps, k, r.seqNo, r.t2, r.t3, r.t4))
    && (r.Expired? ==> WasExpired(run, steps, k, r.seqNo, r.at))
  }

  /** What everybody holds goes back to such steps. */
  ghost predicate Origins(run: seq<State>, steps: seq<Step>, k: nat)
    requires k < |run|
  {
    && SenderOrigin(run, steps, k, run[k])
    && MapOrigin(run, steps, k, run[k])
    && ReceiverOrigin(run, steps, k, run[k].receiver)
  }

  ghost predicate AllExplained(run: seq<State>, steps: seq<Step>, k: nat)
    requires k < |run|
  {
    forall j :: 0 <= j < |run[k].results| ==> Explained(run, steps, k, run[k].results[j])
  }

  /** What was before state k is before state k + 1. */
  lemma StillBefore(run: seq<State>, steps: seq<Step>, k: nat)
    requires k < |steps| < |run|
    ensures forall q, t1 :: WasStamped(run, steps, k, q, t1) ==> WasStamped(run, steps, k + 1, q, t1)
    ensures forall q, t2, t3, t4 :: WasAnswered(run, steps, k, q, t2, t3, t4) ==> WasAnswered(run, steps, k + 1, q, t2, t3, t4)
    ensures forall q :: WasRefused(run, steps, k, q) ==> WasRefused(run, steps, k + 1, q)
    ensures forall q, at :: WasExpired(run, steps, k, q, at) ==> WasExpired(run, steps, k + 1, q, at)
  {
    forall q: uint32, t1 | WasStamped(run, steps, k, q, t1)
      ensures WasStamped(run, steps, k + 1, q, t1)
    {
      var j, i :| StampOf(run, steps, k, j, i, t1) && SeqNo(i) == q;
      assert StampOf(run, steps, k + 1, j, i, t1);
    }
    forall q: uint32, t2, t3, t4 | WasAnswered(run, steps, k, q, t2, t3, t4)
      ensures WasAnswered(run, steps, k + 1, q, t2, t3, t4)
    {
      var j :| AnswerOf(run, steps, k, j, q, t2, t3, t4);
      assert AnswerOf(run, steps, k + 1, j, q, t2, t3, t4);
    }
    forall q: uint32 | WasRefused(run, steps, k, q)
      ensures WasRefused(run, steps, k + 1, q)
    {
      var j, i :| FailureOf(run, steps, k, j, i) && SeqNo(i) == q;
      assert FailureOf(run, steps, k + 1, j, i);
    }
    forall q: uint32, at | WasExpired(run, steps, k, q, at)
      ensures WasExpired(run, steps, k + 1, q, at)
    {
      var j :| ExpiryOf(run, steps, k, j, q, at);
      assert ExpiryOf(run, steps, k + 1, j, q, at);
    }
  }

  /** What step k itself adds. */
  lemma JustNow(run: seq<State>, steps: seq<Step>, k: nat)
    requires k < |steps| < |run|
    ensures steps[k].Stamp? && run[k].sender.Ready? ==>
              WasStamped(run, steps, k + 1, SeqNo(run[k].sender.i), run[k].now)
    ensures steps[k].Datagram? ==>
              WasAnswered(run, steps, k + 1, steps[k].seqNo, steps[k].t2, steps[k].t3, run[k].now)
    ensures steps[k].WriteFail? && run[k].sender.Inserted? ==> WasRefused(run, steps, k + 1, SeqNo(run[k].sender.i))
    ensures steps[k].Visit? && steps[k].seqNo in run[k].pending && steps[k].seqNo !in run[k + 1].pending ==>
              WasExpired(run, steps, k + 1, steps[k].seqNo, run[k].now)
  {
    if steps[k].Stamp? && run[k].sender.Ready? {
      assert StampOf(run, steps, k + 1, k, run[k].sender.i, run[k].now);
    }
    if steps[k].Datagram? {
      assert AnswerOf(run, steps, k + 1, k, steps[k].seqNo, steps[k].t2, steps[k].t3, run[k].now);
    }
    if steps[k].WriteFail? && run[k].sender.Inserted? {
      assert FailureOf(run, steps, k + 1, k, run[k].sender.i);
    }
    if steps[k].Visit? && steps[k].seqNo in run[k].pending && steps[k].seqNo !in run[k + 1].pending {
      assert ExpiryOf(run, steps, k + 1, k, steps[k].seqNo, run[k].now);
    }
  }

  lemma SenderMoves(c: Config, s: State, step: Step)
    requires Enabled(c, s, step)
    ensures var s' := Next(c, s, step);
            && (s'.sender.Stamped? ==>
                  || s'.sender == s.sender
                  || (step.Stamp? && s.sender.Ready? && s'.sender == Stamped(s.sender.i, s.now)))
            && (s'.sender.WriteFailed? ==>
                  || s'.sender == s.sender
                  || (step.WriteFail? && s.sender.Inserted? && s'.sender.i == s.sender.i))
            && (s'.sender.Erased? ==> s'.sender == s.sender || (s.sender.WriteFailed? && s'.sender.i == s.sender.i))
  {}

  lemma MapMoves(c: Config, s: State, step: Step)
    requires Enabled(c, s, step)
    ensures var s' := Next(c, s, step);
            forall q :: q in s'.pending ==>
              || (q in s.pending && s'.pending[q] == s.pending[q])
              || (s.sender.Stamped? && q == SeqNo(s.sender.i) && s'.pending[q] == Pending(s.sender.t1, s.sender.t1))
  {
    hide SeqNo;
  }

  lemma ReceiverMoves(c: Config, s: State, step: Step)
    requires Enabled(c, s, step)
    ensures var s' := Next(c, s, step);
            && (s'.receiver.LookingUp? ==>
                  || s'.receiver == s.receiver
                  || (step.Datagram? && s'.receiver == LookingUp(step.seqNo, step.t2, step.t3, s.now)))
            && (s'.receiver.Holding? ==>
                  || s'.receiver == s.receiver
                  || (s.receiver.LookingUp? && s.receiver.seqNo in s.pending && s'.receiver == Holding(
                        s.receiver.seqNo, s.pending[s.receiver.seqNo], s.receiver.t2, s.receiver.t3, s.receiver.t4)))
            && (s'.receiver.Expired? ==>
                  || s'.receiver == s.receiver
                  || (step.Visit? && s'.receiver.seqNo == step.seqNo && s'.receiver.at == s.now
                      && step.seqNo in s.pending && step.seqNo !in s'.pending))
  {
    hide SeqNo;
  }

  lemma SenderOriginKept(c: Config, run: seq<State>, steps: seq<Step>, k: nat)
    requires k < |steps| < |run| && Enabled(c, run[k], steps[k]) && run[k + 1] == Next(c, run[k], steps[k])
    requires Origins(run, steps, k)
    ensures SenderOrigin(run, steps, k + 1, run[k + 1])
  {
    var s, s', step := run[k], run[k + 1], steps[k];
    SenderMoves(c, s, step);
    hide Next, Enabled, MapOrigin, ReceiverOrigin;
    StillBefore(run, steps, k);
    JustNow(run, steps, k);
    hide WasStamped, WasAnswered, WasRefused, WasExpired, SeqNo;
  }

  lemma MapOriginKept(c: Config, run: seq<State>, steps: seq<Step>, k: nat)
    requires k < |steps| < |run| && Enabled(c, run[k], steps[k]) && run[k + 1] == Next(c, run[k], steps[k])
    requires Origins(run, steps, k)
    ensures MapOrigin(run, steps, k + 1, run[k + 1])
  {
    var s, s', step := run[k], run[k + 1], steps[k];
    MapMoves(c, s, step);
    hide Next, Enabled, ReceiverOrigin;
    StillBefore(run, steps, k);
    JustNow(run, steps, k);
    hide WasStamped, WasAnswered, WasRefused, WasExpired, SeqNo;
  }

  lemma ReceiverOriginKept(c: Config, run: seq<State>, steps: seq<Step>, k: nat)
    requires k < |steps| < |run| && Enabled(c, run[k], steps[k]) && run[k + 1] == Next(c, run[k], steps[k])
    requires Origins(run, steps, k)
    ensures ReceiverOrigin(run, steps, k + 1, run[k + 1].receiver)
  {
    var s, s', step := run[k], run[k + 1], steps[k];
    ReceiverMoves(c, s, step);
    hide Next, Enabled, SenderOrigin;
    StillBefore(run, steps, k);
    JustNow(run, steps, k);
    hide WasStamped, WasAnswered, WasRefused, WasExpired, SeqNo;
  }

  lemma OriginsKept(c: Config, run: seq<State>, steps: seq<Step>, k: nat)
    requires k < |steps| < |run| && Enabled(c, run[k], steps[k]) && run[k + 1] == Next(c, run[k], steps[k])
    requires Origins(run, steps, k)
    ensures Origins(run, steps, k + 1)
  {
    SenderOriginKept(c, run, steps, k);
    MapOriginKept(c, run, steps, k);
    ReceiverOriginKept(c, run, steps, k);
    hide SenderOrigin, MapOrigin, ReceiverOrigin, Next, Enabled;
  }

  lemma PostedIsExplained(c: Config, run: seq<State>, steps: seq<Step>, k: nat)
    requires k < |steps| < |run| && Enabled(c, run[k], steps[k]) && Origins(run, steps, k)
    ensures forall j :: 0 <= j < |Posted(run[k], steps[k])| ==> Explained(run, steps, k, Posted(run[k], steps[k])[j])
  {
    hide WasStamped, WasAnswered, WasRefused, WasExpired, SeqNo;
  }

  lemma AllExplainedKept(c: Config, run: seq<State>, steps: seq<Step>, k: nat)
    requires k < |steps| < |run| && Enabled(c, run[k], steps[k]) && run[k + 1] == Next(c, run[k], steps[k])
    requires Origins(run, steps, k) && AllExplained(run, steps, k)
    ensures AllExplained(run, steps, k + 1)
  {
    PostedIsExplained(c, run, steps, k);
    StillBefore(run, steps, k);
    ResultsGrow(c, run[k], steps[k]);
    var s, s' := run[k], run[k + 1];
    hide WasStamped, WasAnswered, WasRefused, WasExpired, SeqNo, Next, Enabled, Posted, Origins, Rtts;
    forall j | 0 <= j < |s'.results|
      ensures Explained(run, steps, k + 1, s'.results[j])
    {
      assert j < |s.results| ==> s'.results[j] == s.results[j];
      assert Explained(run, steps, k, s'.results[j]);
    }
  }

  /** Every result of every run is explained by earlier steps. */
  lemma {:induction false} ResultsAreExplained(c: Config, run: seq<State>, steps: seq<Step>, k: nat)
    requires Performs(c, run, steps) && k < |run|
    ensures Origins(run, steps, k) && AllExplained(run, steps, k)
  {
    if k == 0 {
      assert run[0] == Start(run[0].now);
    } else {
      ResultsAreExplained(c, run, steps, k - 1);
      assert Enabled(c, run[k - 1], steps[k - 1]) && run[k - 1 + 1] == Next(c, run[k - 1], steps[k - 1]);
      hide *;
      OriginsKept(c, run, steps, k - 1);
      AllExplainedKept(c, run, steps, k - 1);
    }
  }

  /** A posted round-trip time is that of an earlier stamp of its packet and of an earlier datagram that answers it: the
      clock at the one, the two stamps in the other, and the clock when that was read. */
  lemma {:induction false} RttGoesBackTo(c: Config, run: seq<State>, steps: seq<Step>, k: nat, j: nat)
      returns (a: nat, i: nat, b: nat)
    requires Performs(c, run, steps) && k < |run| && j < |run[k].results| && run[k].results[j].Rtt?
    ensures var r := run[k].results[j];
            && a < k && steps[a] == Stamp && run[a].sender == Ready(i) && SeqNo(i) == r.seqNo
            && b < k && steps[b].Datagram? && steps[b].seqNo == r.seqNo
            && r.t1 == run[a].now && r.t2 == steps[b].t2 && r.t3 == steps[b].t3 && r.t4 == run[b].now
            && var rtt := (run[b].now - run[a].now) - (steps[b].t3 - steps[b].t2);
            r.rtt == if rtt < 0 then 0 else rtt
  {
    ResultsAreExplained(c, run, steps, k);
    hide Origins, Performs, SeqNo;
    var r := run[k].results[j];
    assert Explained(run, steps, k, r);
    a, i :| StampOf(run, steps, k, a, i, r.t1) && SeqNo(i) == r.seqNo;
    b :| AnswerOf(run, steps, k, b, r.seqNo, r.t2, r.t3, r.t4);
  }

  /** A visit takes an entry out exactly when more than two timeouts have passed since its packet was stamped. */
  lemma {:induction false} VisitsExpireTheLate(c: Config, run: seq<State>, steps: seq<Step>, k: nat) returns (a: nat, i: nat)
    requires Performs(c, run, steps) && k < |steps| && steps[k].Visit?
    ensures a < k && steps[a] == Stamp && run[a].sender == Ready(i) && SeqNo(i) == steps[k].seqNo
    ensures steps[k].seqNo in run[k].pending
    ensures steps[k].seqNo !in run[k + 1].pending <==> run[k].now > run[a].now + 2 * c.timeout
  {
    ResultsAreExplained(c, run, steps, k);
    var q := steps[k].seqNo;
    assert Enabled(c, run[k], steps[k]) && run[k + 1] == Next(c, run[k], steps[k]);
    hide SenderOrigin, ReceiverOrigin, AllExplained, Performs, SeqNo;
    a, i :| StampOf(run, steps, k, a, i, run[k].pending[q].t1) && SeqNo(i) == q;
  }

  /** A packet is reported as timed out after a visit that found it more than two timeouts old. */
  lemma {:induction false} TimedOutGoesBackTo(c: Config, run: seq<State>, steps: seq<Step>, k: nat, j: nat)
      returns (a: nat, i: nat, b: nat)
    requires Performs(c, run, steps) && k < |run| && j < |run[k].results| && run[k].results[j].TimedOut?
    ensures var r := run[k].results[j];
            && a < b < k && steps[a] == Stamp && run[a].sender == Ready(i) && SeqNo(i) == r.seqNo
            && steps[b] == Visit(r.seqNo) && r.at == run[b].now > run[a].now + 2 * c.timeout
  {
    ResultsAreExplained(c, run, steps, k);
    hide Origins, Performs, SeqNo;
    var r := run[k].results[j];
    assert Explained(run, steps, k, r);
    b :| ExpiryOf(run, steps, k, b, r.seqNo, r.at);
    a, i := VisitsExpireTheLate(c, run, steps, b);
  }

  // ---- The network delay ----

  /** One answer's way: the reflector's two readings, and the times spent on the way there, in it, and back. */
  datatype Trip = Trip(t2: Instant, t3: Instant, forward: nat, processing: nat, back: nat)

  /** The datagram of step b, as an answer to the packet stamped at step a, took this trip; the reflector's clock is
      ahead by offset. */
  predicate Took(run: seq<State>, steps: seq<Step>, a: nat, b: nat, trip: Trip, offset: int)
    requires a < |run| && b < |steps| < |run| && steps[b].Datagram?
  {
    && steps[b].t2 == Nanos(Hop(trip.t2)) && steps[b].t3 == Nanos(Hop(trip.t3))
    && Nanos(trip.t2) == run[a].now + trip.forward + offset
    && Nanos(trip.t3) == Nanos(trip.t2) + trip.processing
    && run[b].now == run[a].now + trip.forward + trip.processing + trip.back
  }

  /** If every datagram read is the reflector's answer to the packet whose number it carries, then every posted
      round-trip time is, however many answers came and whatever the offset, within one nanosecond of the network delays
      of one of them exactly when that one's stamps lie in one NTP era. */
  lemma {:induction false} PostedRTT(
      c: Config, run: seq<State>, steps: seq<Step>, k: nat, j: nat, trips: nat -> Trip, offset: int) returns (b: nat)
    requires Performs(c, run, steps) && k < |run| && j < |run[k].results| && run[k].results[j].Rtt?
    requires forall a, i, d :: 0 <= a < |steps| && 0 <= d < |steps| && steps[d].Datagram? &&
               steps[a] == Stamp && run[a].sender == Ready(i) && SeqNo(i) == steps[d].seqNo
               ==> Took(run, steps, a, d, trips(d), offset)
    ensures b < k && steps[b].Datagram? && steps[b].seqNo == run[k].results[j].seqNo
    ensures -1 <= run[k].results[j].rtt - (trips(b).forward + trips(b).back) <= 1
       <==> Era(trips(b).t2.sec) == Era(trips(b).t3.sec)
  {
    var a, i;
    a, i, b := RttGoesBackTo(c, run, steps, k, j);
    assert Took(run, steps, a, b, trips(b), offset);
    var trip := trips(b);
    var r := run[k].results[j];
    assert r.rtt == RTTOfNanos(run[a].now, steps[b].t2, steps[b].t3, run[b].now);
    hide Performs, Hop, Era, Nanos, RTTOfNanos, SeqNo;
    HoppedStamps(run[a].now, trip.t2, trip.t3, run[b].now, trip.forward, trip.processing, trip.back, offset);
  }

  // ---- Leaving and timing out, in terms of steps ----

  /** A receiver that has left did so in one step, over an empty map or a failing read, and after records how many
      packets had been started then. */
  lemma {:induction false} WhenItLeft(c: Config, run: seq<State>, steps: seq<Step>, k: nat) returns (j: nat)
    requires Performs(c, run, steps) && k < |run| && run[k].receiver.Exited?
    ensures j < k && !run[j].receiver.Exited? && run[k].receiver.after == run[j].started
    ensures if run[k].receiver.clean then (steps[j] == Check || steps[j] == Unlock) && run[j].pending == map[]
            else steps[j] == ReadError
  {
    if k == 0 {
      assert false;
    } else {
      assert Enabled(c, run[k - 1], steps[k - 1]) && run[k - 1 + 1] == Next(c, run[k - 1], steps[k - 1]);
      Leaves(c, run[k - 1], steps[k - 1]);
      hide Enabled, Next;
      if run[k - 1].receiver.Exited? {
        j := WhenItLeft(c, run, steps, k - 1);
      } else {
        j := k - 1;
      }
    }
  }

  lemma Leaves(c: Config, s: State, step: Step)
    requires Enabled(c, s, step) && Next(c, s, step).receiver.Exited?
    ensures var r := Next(c, s, step).receiver;
            if s.receiver.Exited? then r == s.receiver
            else
              && r.after == s.started
              && (if r.clean then (step == Check || step == Unlock) && s.pending == map[] else step == ReadError)
  {
    hide SeqNo, RTTOfNanos;
  }

  /** A visit to the map, or a look at it first, ends the session's receiver exactly when the map is empty then. */
  lemma {:induction false} LeavesAnEmptyMap(c: Config, run: seq<State>, steps: seq<Step>, k: nat)
    requires Performs(c, run, steps) && k < |steps| && (steps[k] == Check || steps[k] == Unlock)
    ensures run[k + 1].receiver.Exited? <==> run[k].pending == map[]
  {
    assert Enabled(c, run[k], steps[k]) && run[k + 1] == Next(c, run[k], steps[k]);
  }

  predicate MovesReceiver(step: Step) {
    !step.Tick? && !BySender(step) && !step.Close?
  }

  lemma ReceiverStays(c: Config, s: State, step: Step)
    requires Enabled(c, s, step) && !MovesReceiver(step)
    ensures Next(c, s, step).receiver == s.receiver
  {
    hide SeqNo, RTTOfNanos;
  }

  lemma BeginsToRead(c: Config, s: State, step: Step)
    requires Enabled(c, s, step) && MovesReceiver(step) && Next(c, s, step).receiver.Reading?
    ensures Next(c, s, step).receiver.since == Next(c, s, step).now
  {
    hide SeqNo, RTTOfNanos;
  }

  lemma TimesOutWhen(c: Config, s: State)
    requires s.receiver.Reading?
    ensures Enabled(c, s, Timeout) <==> s.now >= s.receiver.since + c.timeout
  {}

  lemma {:induction false} ReadSince(c: Config, run: seq<State>, steps: seq<Step>, k: nat) returns (a: nat)
    requires Performs(c, run, steps) && k < |run| && run[k].receiver.Reading?
    ensures a <= k && (a == 0 || MovesReceiver(steps[a - 1])) && forall i :: a <= i < k ==> !MovesReceiver(steps[i])
    ensures run[k].receiver == run[a].receiver == Reading(run[a].now)
  {
    if k == 0 {
      a := 0;
    } else {
      hide Next, Enabled, MovesReceiver;
      var s, step := run[k - 1], steps[k - 1];
      assert Enabled(c, s, step) && run[k - 1 + 1] == Next(c, s, step);
      if MovesReceiver(step) {
        BeginsToRead(c, s, step);
        a := k;
      } else {
        ReceiverStays(c, s, step);
        a := ReadSince(c, run, steps, k - 1);
      }
    }
  }

  /** A read times out once the timeout has passed since it began, which was at the start or after the receiver's last
      step. */
  lemma {:induction false} ReadsTimeOut(c: Config, run: seq<State>, steps: seq<Step>, k: nat) returns (a: nat)
    requires Performs(c, run, steps) && k < |run| && run[k].receiver.Reading?
    ensures a <= k && (a == 0 || MovesReceiver(steps[a - 1])) && forall i :: a <= i < k ==> !MovesReceiver(steps[i])
    ensures run[k].receiver == run[a].receiver == Reading(run[a].now)
    ensures Enabled(c, run[k], Timeout) <==> run[k].now >= run[a].now + c.timeout
  {
    a := ReadSince(c, run, steps, k);
    TimesOutWhen(c, run[k]);
    hide Performs, Enabled, MovesReceiver;
  }

  lemma BeginsToCheck(c: Config, s: State, step: Step)
    requires Enabled(c, s, step) && Next(c, s, step).receiver.Checking?
    ensures s.receiver.Checking? || c.checksFirst
  {
    hide SeqNo, RTTOfNanos;
  }

  lemma StillChecking(c: Config, run: seq<State>, steps: seq<Step>, k: nat)
    requires Performs(c, run, steps) && k < |steps| && run[k + 1].receiver.Checking?
    ensures run[k].receiver.Checking? || c.checksFirst
  {
    hide Next, Enabled;
    BeginsToCheck(c, run[k], steps[k]);
  }

  lemma ReadsFirst(c: Config, run: seq<State>, steps: seq<Step>)
    requires Performs(c, run, steps)
    ensures |run| == |steps| + 1 && run[0].receiver.Reading?
  {
    hide Next, Enabled;
  }

  lemma {:induction false} OnlyRunChecks(c: Config, run: seq<State>, steps: seq<Step>, k: nat)
    requires Performs(c, run, steps) && k < |run| && run[k].receiver.Checking?
    ensures c.checksFirst
  {
    hide *;
    ReadsFirst(c, run, steps);
    if k > 0 {
      StillChecking(c, run, steps, k - 1);
      if run[k - 1].receiver.Checking? {
        OnlyRunChecks(c, run, steps, k - 1);
      }
    }
  }

  /** Run looks for an empty map after a timeout, before it takes the lock; runBurst takes the lock at once. */
  lemma {:induction false} LooksFirst(c: Config, run: seq<State>, steps: seq<Step>, k: nat) returns (a: nat)
    requires Performs(c, run, steps) && k < |run| && run[k].receiver.Waking?
    ensures a < k && forall i :: a < i < k ==> !MovesReceiver(steps[i])
    ensures if c.checksFirst then steps[a] == Check && run[a].pending != map[] else steps[a] == Timeout
  {
    if k == 0 {
      assert false;
    } else {
      hide Next, Enabled, MovesReceiver;
      var s, step := run[k - 1], steps[k - 1];
      assert Enabled(c, s, step) && run[k - 1 + 1] == Next(c, s, step);
      if MovesReceiver(step) {
        StartsToLook(c, s, step);
        a := k - 1;
        if step == Check {
          OnlyRunChecks(c, run, steps, k - 1);
        }
      } else {
        ReceiverStays(c, s, step);
        a := LooksFirst(c, run, steps, k - 1);
      }
    }
  }

  lemma StartsToLook(c: Config, s: State, step: Step)
    requires Enabled(c, s, step) && MovesReceiver(step)
    requires Next(c, s, step).receiver.Checking? || Next(c, s, step).receiver.Waking?
    ensures step == Timeout || (step == Check && s.receiver.Checking?)
    ensures step == Timeout ==> Next(c, s, step).receiver == if c.checksFirst then Checking else Waking
    ensures step == Check ==> Next(c, s, step).receiver == Waking && s.pending != map[]
  {
    hide SeqNo, RTTOfNanos;
  }

  /** The sender puts a packet into the map, or the receiver gets a datagram. */
  predicate Disturbs(step: Step) {
    step.Insert? || step.Datagram? || step.Stray?
  }

  /** The read timeouts among steps j, ..., k - 1, all of them or those at a clock reading later than moment. */
  function Timeouts(run: seq<State>, steps: seq<Step>, j: nat, k: nat, moment: int): nat
    requires j <= k <= |steps| < |run|
  {
    if j == k then 0
    else Timeouts(run, steps, j, k - 1, moment) + One(steps[k - 1] == Timeout && run[k - 1].now > moment)
  }

  function AllTimeouts(steps: seq<Step>, j: nat, k: nat): nat
    requires j <= k <= |steps|
  {
    if j == k then 0 else AllTimeouts(steps, j, k - 1) + One(steps[k - 1] == Timeout)
  }

  lemma TimeoutIsCounted(c: Config, s: State, step: Step)
    requires Enabled(c, s, step) && !Disturbs(step)
    ensures var s' := Next(c, s, step);
            && s'.quiet == s.quiet && s'.allTimeouts == s.allTimeouts + One(step == Timeout)
            && s'.timeouts == s.timeouts + One(step == Timeout && s.now > s.quiet)
  {
    hide SeqNo, RTTOfNanos;
  }

  /** The counts the states carry are at least those of the steps. */
  lemma {:induction false} TimeoutsAreCounted(c: Config, run: seq<State>, steps: seq<Step>, j: nat, k: nat)
    requires c.timeout >= 0 && Performs(c, run, steps) && j <= k < |run|
    requires forall i :: j <= i < k ==> !Disturbs(steps[i])
    ensures run[k].quiet == run[j].quiet
    ensures Timeouts(run, steps, j, k, run[j].now) <= run[k].timeouts
    ensures AllTimeouts(steps, j, k) <= run[k].allTimeouts
  {
    if j < k {
      hide Enabled, Next, Paced, IsRun;
      TimeoutsAreCounted(c, run, steps, j, k - 1);
      RunsArePerformed(c, run);
      RunIsPaced(c, run, j);
      assert run[k - 1 + 1] == Next(c, run[k - 1], steps[k - 1]);
      TimeoutIsCounted(c, run[k - 1], steps[k - 1]);
    }
  }

  /** In any stretch of a run in which nothing is sent and no datagram arrives, there are at most three read timeouts at a
      later clock reading than its beginning, and at most four in all. */
  lemma {:induction false} FewTimeouts(c: Config, run: seq<State>, steps: seq<Step>, j: nat, k: nat)
    requires c.timeout > 0 && Performs(c, run, steps) && j <= k < |run|
    requires forall i :: j <= i < k ==> !Disturbs(steps[i])
    ensures Timeouts(run, steps, j, k, run[j].now) <= 3
    ensures AllTimeouts(steps, j, k) <= 4
  {
    TimeoutsAreCounted(c, run, steps, j, k);
    RunsArePerformed(c, run);
    AtMostThreeTimeouts(c, run, k);
  }

  lemma {:induction false} SameTimeouts(run: seq<State>, steps: seq<Step>, longer: seq<State>, more: seq<Step>,
                                        j: nat, k: nat, moment: int)
    requires j <= k <= |steps| < |run| && |more| < |longer| && run <= longer && steps <= more
    ensures Timeouts(longer, more, j, k, moment) == Timeouts(run, steps, j, k, moment)
    ensures AllTimeouts(more, j, k) == AllTimeouts(steps, j, k)
  {
    if j < k {
      SameTimeouts(run, steps, longer, more, j, k - 1, moment);
    }
  }

  lemma Then(c: Config, run: seq<State>, steps: seq<Step>, step: Step) returns (longer: seq<State>, more: seq<Step>)
    requires Performs(c, run, steps) && Enabled(c, run[|steps|], step)
    ensures longer == run + [Next(c, run[|steps|], step)] && more == steps + [step] && Performs(c, longer, more)
  {
    longer, more := run + [Next(c, run[|steps|], step)], steps + [step];
    hide Enabled, Next;
  }

  predicate Aged(s: State, t: int) {
    s.sender == Inserted(0) && s.pending == map[1 := Pending(t, t)]
  }

  /** Since step j, in which the only packet entered the map at clock reading t, nothing was sent and no datagram came, but
      n timeouts, of which later ones were later. */
  ghost predicate Unanswered(c: Config, run: seq<State>, steps: seq<Step>, j: nat, t: int, n: nat, later: nat) {
    && Performs(c, run, steps) && j <= |steps| && run[j].now == t
    && (forall i :: j <= i < |steps| ==> !Disturbs(steps[i]))
    && AllTimeouts(steps, j, |steps|) == n && Timeouts(run, steps, j, |steps|, t) == later
  }

  lemma Undisturbed(c: Config, run: seq<State>, steps: seq<Step>, j: nat, t: int, n: nat, later: nat, step: Step)
      returns (longer: seq<State>, more: seq<Step>)
    requires |run| == |steps| + 1 && Unanswered(c, run, steps, j, t, n, later)
    requires Enabled(c, run[|steps|], step) && !Disturbs(step)
    ensures |longer| == |more| + 1 && longer[|more|] == Next(c, run[|steps|], step)
    ensures Unanswered(c, longer, more, j, t, n + One(step == Timeout),
                       later + One(step == Timeout && run[|steps|].now > t))
  {
    hide Enabled, Next;
    longer, more := Then(c, run, steps, step);
    SameTimeouts(run, steps, longer, more, j, |steps|, t);
    hide Performs;
  }

  lemma TimeOut(c: Config, run: seq<State>, steps: seq<Step>, j: nat, t: int, n: nat, later: nat)
      returns (longer: seq<State>, more: seq<Step>)
    requires |run| == |steps| + 1 && Unanswered(c, run, steps, j, t, n, later)
    requires Aged(run[|steps|], t) && run[|steps|].receiver == Reading(run[|steps|].now - c.timeout)
    ensures |longer| == |more| + 1 && Unanswered(c, longer, more, j, t, n + 1, later + One(run[|steps|].now > t))
    ensures Aged(longer[|more|], t) && longer[|more|].receiver == Waking && longer[|more|].now == run[|steps|].now
  {
    hide Unanswered;
    assert 1 in run[|steps|].pending;
    longer, more := Undisturbed(c, run, steps, j, t, n, later, Timeout);
    if c.checksFirst {
      longer, more := Undisturbed(c, longer, more, j, t, n + 1, later + One(run[|steps|].now > t), Check);
    }
  }

  lemma LookThrough(c: Config, run: seq<State>, steps: seq<Step>, j: nat, t: int, n: nat, later: nat)
      returns (longer: seq<State>, more: seq<Step>)
    requires |run| == |steps| + 1 && Unanswered(c, run, steps, j, t, n, later)
    requires Aged(run[|steps|], t) && run[|steps|].receiver == Waking && run[|steps|].now <= t + 2 * c.timeout
    ensures |longer| == |more| + 1 && Unanswered(c, longer, more, j, t, n, later)
    ensures Aged(longer[|more|], t) && longer[|more|].receiver == Reading(run[|steps|].now)
    ensures longer[|more|].now == run[|steps|].now
  {
    hide Unanswered;
    longer, more := Undisturbed(c, run, steps, j, t, n, later, Lock);
    assert longer[|more|].receiver == Expiring({1});
    longer, more := Undisturbed(c, longer, more, j, t, n, later, Visit(1));
    assert longer[|more|].receiver == Expiring({});
    longer, more := Undisturbed(c, longer, more, j, t, n, later, Unlock);
  }

  /** One timeout on an entry that is not yet more than two timeouts old. */
  lemma WaitOnce(c: Config, run: seq<State>, steps: seq<Step>, j: nat, t: int, n: nat, later: nat)
      returns (longer: seq<State>, more: seq<Step>)
    requires |run| == |steps| + 1 && Unanswered(c, run, steps, j, t, n, later)
    requires var s := run[|steps|];
             Aged(s, t) && s.receiver == Reading(s.now - c.timeout) && t <= s.now <= t + 2 * c.timeout
    ensures |longer| == |more| + 1 && Unanswered(c, longer, more, j, t, n + 1, later + One(run[|steps|].now > t))
    ensures var s' := longer[|more|];
            Aged(s', t) && s'.receiver == Reading(s'.now) && s'.now == run[|steps|].now
  {
    longer, more := TimeOut(c, run, steps, j, t, n, later);
    longer, more := LookThrough(c, longer, more, j, t, n + 1, later + One(run[|steps|].now > t));
  }

  /** The same, after waiting until the read times out. */
  lemma WaitOnceMore(c: Config, run: seq<State>, steps: seq<Step>, j: nat, t: int, n: nat, later: nat)
      returns (longer: seq<State>, more: seq<Step>)
    requires c.timeout > 0 && |run| == |steps| + 1 && Unanswered(c, run, steps, j, t, n, later)
    requires var s := run[|steps|];
             Aged(s, t) && s.receiver == Reading(s.now) && t <= s.now <= t + c.timeout
    ensures |longer| == |more| + 1 && Unanswered(c, longer, more, j, t, n + 1, later + 1)
    ensures var s' := longer[|more|];
            Aged(s', t) && s'.receiver == Reading(s'.now) && s'.now == run[|steps|].now + c.timeout
  {
    longer, more := Undisturbed(c, run, steps, j, t, n, later, Tick(c.timeout));
    hide Unanswered;
    longer, more := WaitOnce(c, longer, more, j, t, n, later);
  }

  lemma SentUnanswered(c: Config) returns (run: seq<State>, steps: seq<Step>)
    requires c.count == 1 && c.timeout > 0
    ensures |run| == |steps| + 1 && Unanswered(c, run, steps, |steps|, c.timeout, 0, 0)
    ensures var s := run[|steps|];
            Aged(s, c.timeout) && s.receiver == Reading(0) && s.now == c.timeout
  {
    run, steps := [Start(0)], [];
    run, steps := Then(c, run, steps, Tick(c.timeout));
    run, steps := Then(c, run, steps, Stamp);
    run, steps := Then(c, run, steps, Insert);
  }

  /** Both numbers are reached, by one packet that is never answered: the read times out when its entry is new, and one, two
      and three timeouts old. */
  lemma {:induction false} FourTimeoutsHappen(c: Config) returns (run: seq<State>, steps: seq<Step>, j: nat)
    requires c.count == 1 && c.timeout > 0
    ensures Performs(c, run, steps) && j <= |steps| && forall i :: j <= i < |steps| ==> !Disturbs(steps[i])
    ensures Timeouts(run, steps, j, |steps|, run[j].now) == 3
    ensures AllTimeouts(steps, j, |steps|) == 4
  {
    var t := c.timeout;
    run, steps := SentUnanswered(c);
    j := |steps|;
    run, steps := WaitOnce(c, run, steps, j, t, 0, 0);
    run, steps := WaitOnceMore(c, run, steps, j, t, 1, 0);
    run, steps := WaitOnceMore(c, run, steps, j, t, 2, 1);
    run, steps := Undisturbed(c, run, steps, j, t, 3, 2, Tick(t));
    run, steps := Undisturbed(c, run, steps, j, t, 3, 2, Timeout);
    hide Next, Enabled, Aged;
  }
}
