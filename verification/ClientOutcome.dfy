/** What every run of the client guarantees: where each packet is, what is true when the results are collected,
    when a post can block, and when the receiver stops. */
module ClientOutcome {
  import opened Words
  import opened RoundTripTime
  import opened ClientSession
  import BurstStatistics

  // ---- Accounting ----

  /** A started packet is in exactly one place, unless its write failed after the receiver had taken its entry. */
  lemma {:induction false} ExactlyOnePlace(c: Config, run: seq<State>, k: nat, q: uint32)
    requires c.count <= TWO32 && IsRun(c, run) && k < |run|
    ensures Known(run[k], q) ==> (Tally(run[k], q) == 1 <==> q !in run[k].doubled)
    ensures Known(run[k], q) ==> Tally(run[k], q) >= 1
    ensures !Known(run[k], q) ==> Tally(run[k], q) == 0
  {
    RunAccounts(c, run, k, q);
  }

  lemma InsertDoesNotOverwrite(c: Config, s: State, step: Step)
    requires c.count <= TWO32 && Shape(c, s) && OwnEntries(c, s) && Enabled(c, s, step)
    ensures Next(c, s, step).overwritten == s.overwritten
  {
    if step.Insert? {
      InsertIsFresh(c, s);
    }
    hide Index;
  }

  /** Sequence numbers only repeat after 2^32 packets. */
  lemma {:induction false} NeverOverwrites(c: Config, run: seq<State>, k: nat)
    requires c.count <= TWO32 && IsRun(c, run) && k < |run|
    ensures run[k].overwritten == 0
  {
    if k == 0 {
      assert run[0] == Start(run[0].now);
    } else {
      hide *;
      NeverOverwrites(c, run, k - 1);
      RunLedgers(c, run, k - 1);
      RunKeepsT1s(c, run, k - 1);
      var step := LastStep(c, run, k);
      InsertDoesNotOverwrite(c, run[k - 1], step);
    }
  }

  /** When the results are collected, every packet is a round-trip time, an error or still in the map, and a failed
      write that lost the race with its own answer is counted twice. */
  lemma {:induction false} AtJoin(c: Config, run: seq<State>, k: nat)
    requires IsRun(c, run) && k < |run| && run[k].closed
    ensures var s := run[k];
            && c.count + |s.doubled| == |Rtts(s.results)| + Errors(s.results) + |s.pending| + s.overwritten
            && |Rtts(s.results)| <= c.count
            && 0.0 <= BurstStatistics.LossPercent(c.count, |Rtts(s.results)|) <= 100.0
  {
    RunLedgers(c, run, k);
    RttsAtMost(run[k].results);
    BurstStatistics.LossInRange(c.count, |Rtts(run[k].results)|);
  }

  /** After a receiver that left because the map was empty, only packets sent later can be left in it. */
  lemma {:induction false} LeftBehind(c: Config, run: seq<State>, k: nat, q: uint32)
    requires c.count <= TWO32 && IsRun(c, run) && k < |run|
    requires run[k].receiver.Exited? && run[k].receiver.clean && q in run[k].pending
    ensures run[k].receiver.after <= Index(q) < run[k].started
  {
    RunKeepsT1s(c, run, k);
  }

  /** So a receiver that left an empty map after the last packet was sent leaves nothing. */
  lemma {:induction false} NothingLeftAfterAll(c: Config, run: seq<State>, k: nat)
    requires c.count <= TWO32 && IsRun(c, run) && k < |run|
    requires run[k].receiver.Exited? && run[k].receiver.clean && run[k].receiver.after == c.count
    ensures run[k].pending == map[]
  {
    RunLedgers(c, run, k);
    if q :| q in run[k].pending {
      LeftBehind(c, run, k, q);
    }
  }

  /** A packet is reported as timed out only more than two timeouts after its T1, and then, unless its write failed
      and lost the race, as nothing else. */
  lemma {:induction false} TimedOutIsLate(c: Config, run: seq<State>, k: nat, j: nat)
    requires c.count <= TWO32 && IsRun(c, run) && k < |run| && j < |run[k].results| && run[k].results[j].TimedOut?
    ensures var s, q := run[k], run[k].results[j].seqNo;
            && q in s.t1s && s.results[j].at > s.t1s[q] + 2 * c.timeout
            && (q !in s.doubled ==> q !in s.pending && forall i :: 0 <= i < |s.results| && i != j ==> s.results[i].seqNo != q)
  {
    RunKeepsT1s(c, run, k);
    var s, q := run[k], run[k].results[j].seqNo;
    assert OwnResult(c, s.t1s, s.results[j]) && Known(s, q);
    ExactlyOnePlace(c, run, k, q);
    hide IsRun, OwnEntries, OwnResults;
    if q !in s.doubled {
      PostsFound(s.results, q, j);
      forall i | 0 <= i < |s.results| && i != j
        ensures s.results[i].seqNo != q
      {
        if s.results[i].seqNo == q {
          PostsFoundTwice(s.results, q, if i < j then i else j, if i < j then j else i);
        }
      }
    }
  }

  lemma {:induction false} PostsFound(results: seq<Result>, q: uint32, j: nat)
    requires j < |results| && results[j].seqNo == q
    ensures Posts(results, q) >= 1
  {
    var n := |results| - 1;
    if j < n {
      PostsFound(results[..n], q, j);
    }
  }

  lemma {:induction false} PostsFoundTwice(results: seq<Result>, q: uint32, i: nat, j: nat)
    requires i < j < |results| && results[i].seqNo == q && results[j].seqNo == q
    ensures Posts(results, q) >= 2
  {
    var n := |results| - 1;
    if j < n {
      PostsFoundTwice(results[..n], q, i, j);
    } else {
      PostsFound(results[..n], q, i);
    }
  }

  // ---- Posting ----

  /** The exact condition for a post to find room. */
  lemma {:induction false} RoomExactly(c: Config, run: seq<State>, k: nat)
    requires IsRun(c, run) && k < |run|
    ensures var s := run[k];
            Room(c, s) <==> |s.doubled| < (c.count - s.started) + Hands(s) + |s.pending| + s.overwritten
  {
    RunLedgers(c, run, k);
  }

  /** Provided no failed write lost its entry to the receiver, whoever is about to post can. */
  lemma {:induction false} PostsNeverBlock(c: Config, run: seq<State>, k: nat)
    requires IsRun(c, run) && k < |run| && run[k].doubled == multiset{}
    ensures run[k].sender.Erased? ==> Enabled(c, run[k], PostFailure)
    ensures run[k].receiver.Holding? ==> Enabled(c, run[k], PostRtt)
    ensures run[k].receiver.Expired? ==> Enabled(c, run[k], PostExpiry)
  {
    RoomExactly(c, run, k);
    RunLedgers(c, run, k);
  }

  lemma FitsKept(c: Config, s: State, step: Step)
    requires |s.results| <= c.count && Enabled(c, s, step)
    ensures |Next(c, s, step).results| <= c.count
  {
    ResultsGrow(c, s, step);
    hide Rtts;
  }

  /** The channel never holds more results than packets to send. */
  lemma {:induction false} ResultsFit(c: Config, run: seq<State>, k: nat)
    requires IsRun(c, run) && k < |run|
    ensures |run[k].results| <= c.count
  {
    if k == 0 {
      assert run[0] == Start(run[0].now);
    } else {
      hide *;
      ResultsFit(c, run, k - 1);
      var step := LastStep(c, run, k);
      FitsKept(c, run[k - 1], step);
    }
  }

  /** A session whose results are collected left an entry in the map, or overwrote one, for every failed write that
      lost its own. So one that drained its map and overwrote nothing had no such write. */
  lemma {:induction false} CollectedMeansNoLostEntry(c: Config, run: seq<State>, k: nat)
    requires IsRun(c, run) && k < |run| && run[k].closed
    ensures |run[k].doubled| <= |run[k].pending| + run[k].overwritten
    ensures run[k].pending == map[] && run[k].overwritten == 0 ==> run[k].doubled == multiset{}
  {
    RunLedgers(c, run, k);
    ResultsFit(c, run, k);
  }

  predicate Posting(step: Step) {
    step.PostFailure? || step.PostRtt? || step.PostExpiry?
  }

  lemma StaysClosed(c: Config, s: State, step: Step)
    requires Shape(c, s) && s.closed && Enabled(c, s, step)
    ensures Next(c, s, step).closed && Next(c, s, step).results == s.results
  {}

  lemma NoPostsWhenClosed(c: Config, s: State)
    requires Shape(c, s) && s.closed
    ensures forall step :: Posting(step) ==> !Enabled(c, s, step)
  {}

  /** Nothing is sent on the closed channel. */
  lemma {:induction false} SilentAfterClose(c: Config, run: seq<State>, j: nat, k: nat)
    requires IsRun(c, run) && j <= k < |run| && run[j].closed
    ensures run[k].closed && run[k].results == run[j].results
    ensures forall step :: Posting(step) ==> !Enabled(c, run[k], step)
  {
    hide IsRun, Next, Enabled, Shape, Ledger, RttLedger;
    if j < k {
      SilentAfterClose(c, run, j, k - 1);
      RunLedgers(c, run, k - 1);
      var step := LastStep(c, run, k);
      StaysClosed(c, run[k - 1], step);
    }
    RunLedgers(c, run, k);
    NoPostsWhenClosed(c, run[k]);
  }

  /** Someone is about to post and the channel is full. */
  predicate Stuck(c: Config, s: State) {
    Hands(s) > 0 && !Room(c, s)
  }

  lemma StuckIsOpen(c: Config, s: State)
    requires Shape(c, s) && Stuck(c, s)
    ensures !s.closed
  {}

  lemma StaysStuck(c: Config, s: State, step: Step)
    requires Shape(c, s) && Stuck(c, s) && Enabled(c, s, step)
    ensures Stuck(c, Next(c, s, step))
  {}

  /** A blocked post blocks for good: the collector that would drain the channel waits for both goroutines. */
  lemma {:induction false} StuckForever(c: Config, run: seq<State>, j: nat, k: nat)
    requires IsRun(c, run) && j <= k < |run| && Stuck(c, run[j])
    ensures Stuck(c, run[k]) && !run[k].closed
  {
    hide IsRun, Next, Enabled, Shape, Stuck, Ledger, RttLedger;
    if j < k {
      StuckForever(c, run, j, k - 1);
      RunLedgers(c, run, k - 1);
      var step := LastStep(c, run, k);
      StaysStuck(c, run[k - 1], step);
    }
    RunLedgers(c, run, k);
    StuckIsOpen(c, run[k]);
  }

  lemma Continue(c: Config, run: seq<State>, step: Step) returns (longer: seq<State>)
    requires IsRun(c, run) && Enabled(c, run[|run| - 1], step)
    ensures longer != [] && IsRun(c, longer) && run <= longer && longer[|longer| - 1] == Next(c, run[|run| - 1], step)
  {
    hide Next, Enabled;
    longer := run + [Next(c, run[|run| - 1], step)];
    forall k | 0 <= k < |longer| - 1
      ensures StepsTo(c, longer[k], longer[k + 1])
    {
      if k < |run| - 1 {
        assert StepsTo(c, run[k], run[k + 1]);
      } else {
        assert Enabled(c, longer[k], step);
      }
    }
  }

  /** Packet i + 1 is next, all before it failed, the first one after its answer had been posted. */
  predicate AheadByOne(s: State, i: nat) {
    && s.sender == Ready(i) && s.receiver.Reading? && s.pending == map[] && |s.results| == i + 1
  }

  lemma FirstAnsweredThenFails(c: Config, now: int) returns (run: seq<State>)
    requires c.count >= 1
    ensures run != [] && IsRun(c, run)
    ensures var s := run[|run| - 1];
            s.sender == Erased(0) && s.receiver.Reading? && s.pending == map[] && |s.results| == 1
  {
    run := [Start(now)];
    assert IsRun(c, run);
    hide IsRun, RTTOfNanos;
    run := Continue(c, run, Stamp);
    run := Continue(c, run, Insert);
    run := Continue(c, run, Datagram(1, now, now));
    run := Continue(c, run, TakeEntry);
    run := Continue(c, run, PostRtt);
    run := Continue(c, run, WriteFail);
    run := Continue(c, run, Erase);
  }

  lemma NextFails(c: Config, run: seq<State>, i: nat) returns (longer: seq<State>)
    requires run != [] && IsRun(c, run) && i < c.count && AheadByOne(run[|run| - 1], i)
    ensures longer != [] && IsRun(c, longer)
    ensures var s := longer[|longer| - 1];
            s.sender == Erased(i) && s.receiver.Reading? && s.pending == map[] && |s.results| == i + 1
  {
    hide IsRun;
    longer := Continue(c, run, Stamp);
    longer := Continue(c, longer, Insert);
    longer := Continue(c, longer, WriteFail);
    longer := Continue(c, longer, Erase);
  }

  lemma {:induction false} FailuresFillTheChannel(c: Config, now: int, i: nat) returns (run: seq<State>)
    requires i < c.count
    ensures run != [] && IsRun(c, run)
    ensures var s := run[|run| - 1];
            s.sender == Erased(i) && s.receiver.Reading? && s.pending == map[] && |s.results| == i + 1
  {
    if i == 0 {
      run := FirstAnsweredThenFails(c, now);
    } else {
      run := FailuresFillTheChannel(c, now, i - 1);
      hide IsRun;
      run := Continue(c, run, PostFailure);
      run := NextFails(c, run, i);
    }
  }

  /** A session of any number of packets can hang: the first is answered before its write reports an error, the
      others simply fail to be sent, and the last failure finds the channel full. */
  lemma {:induction false} AnsweredFailureHangs(c: Config, now: int)
    requires c.count >= 1
    ensures exists run :: IsRun(c, run) && Stuck(c, run[|run| - 1])
  {
    var run := FailuresFillTheChannel(c, now, c.count - 1);
    assert Stuck(c, run[|run| - 1]);
  }

  // ---- Stopping ----

  /** i packets sent, none of them answered or failed, by a client whose receiver has left. */
  predicate SentInVain(s: State, i: nat) {
    s.sender == Ready(i) && s.receiver.Exited? && s.receiver.clean && |s.pending| == i && s.results == [] && !s.closed
  }

  /** The first read times out before anything is sent, and the receiver leaves the empty map. */
  lemma ReceiverLeavesFirst(c: Config, now: int) returns (run: seq<State>)
    requires c.timeout >= 0
    ensures run != [] && IsRun(c, run) && SentInVain(run[|run| - 1], 0)
  {
    run := [Start(now)];
    assert IsRun(c, run);
    hide IsRun;
    run := Continue(c, run, Tick(c.timeout));
    run := Continue(c, run, Timeout);
    if c.checksFirst {
      run := Continue(c, run, Check);
    } else {
      run := Continue(c, run, Lock);
      run := Continue(c, run, Unlock);
    }
  }

  lemma SendOneMore(c: Config, run: seq<State>, i: nat) returns (longer: seq<State>)
    requires i < c.count <= TWO32 && run != [] && IsRun(c, run) && SentInVain(run[|run| - 1], i)
    ensures longer != [] && IsRun(c, longer) && SentInVain(longer[|longer| - 1], i + 1)
  {
    var s := run[|run| - 1];
    RunLedgers(c, run, |run| - 1);
    RunKeepsT1s(c, run, |run| - 1);
    hide IsRun, LeftAfterExit, OwnResults;
    longer := Continue(c, run, Stamp);
    InsertIsFresh(c, longer[|longer| - 1]);
    hide Index;
    AddOne(s.pending, SeqNo(i), Pending(s.now, s.now));
    longer := Continue(c, longer, Insert);
    longer := Continue(c, longer, WriteOk);
  }

  lemma {:induction false} SendAllInVain(c: Config, now: int, i: nat) returns (run: seq<State>)
    requires c.timeout >= 0 && i <= c.count <= TWO32
    ensures run != [] && IsRun(c, run) && SentInVain(run[|run| - 1], i)
  {
    if i == 0 {
      run := ReceiverLeavesFirst(c, now);
    } else {
      run := SendAllInVain(c, now, i - 1);
      run := SendOneMore(c, run, i - 1);
    }
  }

  /** The receiver leaves as soon as a read times out on an empty map, whether or not packets are still to be sent: a
      session of any number of packets can end with all of them in the map and nobody to read an answer. */
  lemma {:induction false} EarlyExitLosesAnswers(c: Config, now: int)
    requires c.timeout >= 0 && c.count <= TWO32
    ensures exists run :: IsRun(c, run) && AllInVain(c, run)
  {
    var run := SendAllInVain(c, now, c.count);
    hide IsRun;
    run := Continue(c, run, Close);
    assert AllInVain(c, run);
  }

  predicate AllInVain(c: Config, run: seq<State>) {
    && run != [] && run[|run| - 1].closed
    && |run[|run| - 1].pending| == c.count && run[|run| - 1].results == []
  }

  /** Whatever the other goroutine does, at most three read timeouts at a later clock reading follow the last packet
      and the last datagram, and after the third the receiver does not read again. With one at the same clock reading
      there are at most four. */
  lemma {:induction false} AtMostThreeTimeouts(c: Config, run: seq<State>, k: nat)
    requires c.timeout >= 0 && IsRun(c, run) && k < |run|
    ensures run[k].timeouts <= 3 && (run[k].receiver.Reading? ==> run[k].timeouts < 3)
    ensures c.timeout > 0 ==>
              run[k].allTimeouts <= run[k].timeouts + 1 <= 4 && (run[k].receiver.Reading? ==> run[k].allTimeouts < 4)
  {
    RunIsPaced(c, run, k);
    if c.timeout > 0 {
      RunCountsTimeouts(c, run, k);
    }
  }
}
