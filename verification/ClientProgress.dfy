/** How every session of the client goes on: it cannot run for long without datagrams, and whether it ends in collected
    results or in a post that blocks for good. */
module ClientProgress {
  import opened RoundTripTime
  import opened Words
  import opened ClientSession
  import opened ClientOutcome

  /** The step of whoever holds the lock on the map. */
  ghost function HoldersMove(s: State): Step
    requires !LockFree(s)
  {
    if s.receiver.Expired? then PostExpiry
    else if s.receiver.todo == {} then Unlock
    else
      var q :| q in s.receiver.todo;
      Visit(q)
  }

  /** A step that needs nothing from outside: not a datagram, not an error, and time only for a blocked read. */
  ghost function Move(c: Config, s: State): Step {
    if !LockFree(s) then HoldersMove(s)
    else if s.sender.Ready? && s.sender.i < c.count then Stamp
    else if s.sender.Stamped? then Insert
    else if s.sender.Inserted? then WriteOk
    else if s.sender.WriteFailed? then Erase
    else if s.sender.Erased? then PostFailure
    else match s.receiver
      case Reading(since) => if s.now >= since + c.timeout then Timeout else Tick(since + c.timeout - s.now)
      case LookingUp(_, _, _, _) => TakeEntry
      case Holding(_, _, _, _, _) => PostRtt
      case Checking => Check
      case Waking => Lock
      case _ => Close
  }

  /** No deadlock, provided no failed write lost its entry to the receiver: until the results are collected there is
      always such a step, and the waiting one ends a wait. */
  lemma {:induction false} NeverStuck(c: Config, run: seq<State>, k: nat)
    requires IsRun(c, run) && k < |run| && run[k].doubled == multiset{} && !run[k].closed
    ensures Enabled(c, run[k], Move(c, run[k]))
    ensures var step := Move(c, run[k]);
            step.Tick? ==> Enabled(c, Next(c, run[k], step), Timeout) && run[k].sender == Ready(c.count)
  {
    RunLedgers(c, run, k);
    PostsNeverBlock(c, run, k);
  }

  /** What the sender and the collector have left to do. */
  function SenderWork(c: Config, s: State): nat {
    var done := match s.sender
                case Ready(i) => 5 * i
                case Stamped(i, _) => 5 * i + 1
                case Inserted(i) => 5 * i + 2
                case WriteFailed(i) => 5 * i + 3
                case Erased(i) => 5 * i + 4;
    (if done <= 5 * c.count then 5 * c.count - done else 0) + One(!s.closed)
  }

  /** How many read timeouts can still come. */
  function ReadsLeft(s: State): nat {
    if s.allTimeouts <= 4 then 4 - s.allTimeouts else 0
  }

  /** What the receiver has left to do before it reads and waits again, the waiting included. */
  function ReceiverWork(c: Config, s: State): nat {
    match s.receiver
    case Reading(since) => One(s.now < since + c.timeout)
    case LookingUp(_, _, _, _) => 3
    case Holding(_, _, _, _, _) => 2
    case Checking => 2 * |s.pending| + 4
    case Waking => 2 * |s.pending| + 3
    case Expiring(todo) => 2 * |todo| + 2
    case Expired(_, _, todo) => 2 * |todo| + 3
    case Exited(_, _) => 0
  }

  /** Every such step brings the session closer to its end. */
  ghost predicate Closer(c: Config, s: State, s': State) {
    || SenderWork(c, s') < SenderWork(c, s)
    || (SenderWork(c, s') == SenderWork(c, s) && ReadsLeft(s') < ReadsLeft(s))
    || (SenderWork(c, s') == SenderWork(c, s) && ReadsLeft(s') == ReadsLeft(s) && ReceiverWork(c, s') < ReceiverWork(c, s))
  }

  lemma SenderStepIsCloser(c: Config, s: State, step: Step)
    requires BySender(step) && Shape(c, s) && Enabled(c, s, step)
    ensures SenderWork(c, Next(c, s, step)) < SenderWork(c, s)
  {}

  lemma VisitIsCloser(c: Config, s: State, q: uint32)
    requires Enabled(c, s, Visit(q))
    ensures Closer(c, s, Next(c, s, Visit(q)))
  {
    hide SenderWork;
    assert |s.receiver.todo - {q}| == |s.receiver.todo| - 1;
    SameWork(c, s, Next(c, s, Visit(q)));
  }

  lemma AnswerStepIsCloser(c: Config, s: State, step: Step)
    requires c.timeout > 0 && Enabled(c, s, step) && (step.TakeEntry? || step.PostRtt?)
    ensures Closer(c, s, Next(c, s, step))
  {
    hide SenderWork, RTTOfNanos;
    var s' := Next(c, s, step);
    SameWork(c, s, s');
    assert s'.allTimeouts == s.allTimeouts;
    assert ReceiverWork(c, s') < ReceiverWork(c, s) by {
      hide Closer;
    }
    hide Next, Enabled, ReceiverWork;
  }

  lemma LockIsCloser(c: Config, s: State)
    requires Enabled(c, s, Lock)
    ensures Closer(c, s, Next(c, s, Lock))
  {
    hide SenderWork;
    assert |s.pending.Keys| == |s.pending|;
    SameWork(c, s, Next(c, s, Lock));
  }

  lemma ExpiryStepIsCloser(c: Config, s: State, step: Step)
    requires c.timeout > 0 && Enabled(c, s, step) && (step.Check? || step.PostExpiry? || step.Unlock?)
    ensures Closer(c, s, Next(c, s, step))
  {
    hide SenderWork;
    SameWork(c, s, Next(c, s, step));
  }

  lemma SameWork(c: Config, s: State, s': State)
    requires s'.sender == s.sender && s'.closed == s.closed
    ensures SenderWork(c, s') == SenderWork(c, s)
  {}

  lemma TimeIsCloser(c: Config, s: State, step: Step)
    requires c.timeout > 0 && Enabled(c, s, step) && s.receiver.Reading? && s.allTimeouts < 4
    requires step.Timeout? || (s.now < s.receiver.since + c.timeout && step == Tick(s.receiver.since + c.timeout - s.now))
    ensures Closer(c, s, Next(c, s, step))
  {}

  /** Steps that nothing outside the client has to cause, time excepted. */
  predicate FromWithin(step: Step) {
    !step.Tick? && !step.Datagram? && !step.Stray? && !step.ReadError?
  }

  /** Whatever goroutine takes it and whether or not a write succeeds, each of them brings the session closer to its end. */
  lemma StepIsCloser(c: Config, s: State, step: Step)
    requires Shape(c, s) && Enabled(c, s, step) && c.timeout > 0 && FromWithin(step)
    requires s.receiver.Reading? ==> s.allTimeouts < 4
    ensures Closer(c, s, Next(c, s, step))
  {
    if step.Visit? {
      VisitIsCloser(c, s, step.seqNo);
    } else if BySender(step) {
      SenderStepIsCloser(c, s, step);
    } else if step.Timeout? {
      TimeIsCloser(c, s, step);
    } else if step.Lock? {
      LockIsCloser(c, s);
    } else if step.TakeEntry? || step.PostRtt? {
      AnswerStepIsCloser(c, s, step);
    } else if !step.Close? {
      ExpiryStepIsCloser(c, s, step);
    }
  }

  lemma MoveIsCloser(c: Config, s: State)
    requires Shape(c, s) && Enabled(c, s, Move(c, s)) && c.timeout > 0
    requires s.receiver.Reading? ==> s.allTimeouts < 4
    ensures Closer(c, s, Next(c, s, Move(c, s)))
  {
    var step := Move(c, s);
    if step.Tick? {
      TimeIsCloser(c, s, step);
    } else {
      StepIsCloser(c, s, step);
    }
  }

  // ---- No run goes on for long without datagrams ----

  /** More than the receiver can ever have left to do. */
  function RoundSize(c: Config): nat {
    2 * c.count + 6
  }

  /** How many steps the session can take without datagrams, in any order and with any outcome of its writes. */
  function Budget(c: Config, s: State): nat {
    (5 * SenderWork(c, s) + ReadsLeft(s)) * RoundSize(c) + ReceiverWork(c, s)
  }

  lemma ReceiverWorkFits(c: Config, s: State)
    requires Shape(c, s) && RttLedger(s)
    ensures ReceiverWork(c, s) < RoundSize(c)
  {
    assert |s.pending| <= c.count;
    match s.receiver {
      case Expiring(todo) => SubsetSize(todo, s.pending.Keys);
      case Expired(_, _, todo) => SubsetSize(todo, s.pending.Keys);
      case _ =>
    }
  }

  lemma SubsetSize(a: set<uint32>, b: set<uint32>)
    requires a <= b
    ensures |a| <= |b|
  {
    assert b == a + (b - a);
  }

  lemma Lexicographic(a: nat, r: nat, a': nat, r': nat, size: nat)
    requires a' < a && r' < size
    ensures a' * size + r' < a * size + r
  {
    assert (a - a' - 1) * size >= 0;
    assert a * size == a' * size + size + (a - a' - 1) * size;
  }

  lemma CloserCostsBudget(c: Config, s: State, s': State)
    requires Closer(c, s, s') && ReceiverWork(c, s') < RoundSize(c)
    ensures Budget(c, s') < Budget(c, s)
  {
    var a, a' := 5 * SenderWork(c, s) + ReadsLeft(s), 5 * SenderWork(c, s') + ReadsLeft(s');
    assert ReadsLeft(s') <= 4;
    hide SenderWork, ReadsLeft;
    if a' < a {
      Lexicographic(a, ReceiverWork(c, s), a', ReceiverWork(c, s'), RoundSize(c));
    }
  }

  lemma TimeCostsNothing(c: Config, s: State, d: nat)
    ensures Budget(c, Next(c, s, Tick(d))) <= Budget(c, s)
  {
    var s' := Next(c, s, Tick(d));
    SameWork(c, s, s');
    assert ReadsLeft(s') == ReadsLeft(s) && ReceiverWork(c, s') <= ReceiverWork(c, s);
    hide SenderWork, ReadsLeft, ReceiverWork;
  }

  /** A step that is neither a datagram nor a failing socket. */
  ghost predicate OnItsOwn(c: Config, s: State, s': State) {
    exists step :: Enabled(c, s, step) && s' == Next(c, s, step) && (FromWithin(step) || step.Tick?)
  }

  /** How many of the steps from j to k change more than the clock. */
  function Changes(run: seq<State>, j: nat, k: nat): nat
    requires j <= k < |run|
  {
    if j == k then 0 else Changes(run, j, k - 1) + One(run[k] != run[k - 1].(now := run[k].now))
  }

  /** Any schedule: a stretch without datagrams has at most Budget steps other than time passing. */
  lemma {:induction false} StretchIsShort(c: Config, run: seq<State>, j: nat, k: nat)
    requires c.timeout > 0 && IsRun(c, run) && j <= k < |run|
    requires forall i :: j <= i < k ==> OnItsOwn(c, run[i], run[i + 1])
    ensures Changes(run, j, k) + Budget(c, run[k]) <= Budget(c, run[j])
  {
    if j < k {
      assert Changes(run, j, k) == Changes(run, j, k - 1) + One(run[k] != run[k - 1].(now := run[k].now));
      hide *;
      StretchIsShort(c, run, j, k - 1);
      assert OnItsOwn(c, run[k - 1], run[k - 1 + 1]);
      OneStepOfBudget(c, run, k);
    } else {
      assert Changes(run, j, k) == 0;
    }
  }

  lemma WhichStep(c: Config, s: State, s': State) returns (step: Step)
    requires OnItsOwn(c, s, s')
    ensures Enabled(c, s, step) && s' == Next(c, s, step) && (FromWithin(step) || step.Tick?)
  {
    hide Enabled, Next, FromWithin;
    step :| Enabled(c, s, step) && s' == Next(c, s, step) && (FromWithin(step) || step.Tick?);
  }

  lemma TimeAlone(c: Config, s: State, d: nat)
    ensures Next(c, s, Tick(d)) == s.(now := Next(c, s, Tick(d)).now)
  {}

  lemma OneStepOfBudget(c: Config, run: seq<State>, k: nat)
    requires c.timeout > 0 && IsRun(c, run) && 0 < k < |run| && OnItsOwn(c, run[k - 1], run[k])
    ensures One(run[k] != run[k - 1].(now := run[k].now)) + Budget(c, run[k]) <= Budget(c, run[k - 1])
  {
    var s := run[k - 1];
    RunLedgers(c, run, k - 1);
    RunLedgers(c, run, k);
    AtMostThreeTimeouts(c, run, k - 1);
    hide IsRun, OnItsOwn, Next, Enabled, Shape, Ledger, RttLedger, Budget, Closer, ReceiverWork;
    var step := WhichStep(c, s, run[k]);
    if step.Tick? {
      TimeCostsNothing(c, s, step.d);
      TimeAlone(c, s, step.d);
    } else {
      StepIsCloser(c, s, step);
      ReceiverWorkFits(c, run[k]);
      CloserCostsBudget(c, s, run[k]);
    }
  }

  /** Such steps lead any session to its end, unless a write that has already failed turns out to have lost its entry. */
  lemma {:induction false} MovesReachTheEnd(c: Config, run: seq<State>) returns (longer: seq<State>)
    requires c.timeout > 0 && run != [] && IsRun(c, run)
    ensures longer != [] && IsRun(c, longer) && run <= longer
    ensures longer[|longer| - 1].closed || longer[|longer| - 1].doubled != multiset{}
    ensures run[|run| - 1].doubled == multiset{} && !run[|run| - 1].sender.WriteFailed? ==> longer[|longer| - 1].closed
    decreases SenderWork(c, run[|run| - 1]), ReadsLeft(run[|run| - 1]), ReceiverWork(c, run[|run| - 1])
  {
    var s := run[|run| - 1];
    longer := run;
    if !s.closed && s.doubled == multiset{} {
      RunLedgers(c, run, |run| - 1);
      NeverStuck(c, run, |run| - 1);
      AtMostThreeTimeouts(c, run, |run| - 1);
      MoveIsCloser(c, s);
      if !s.sender.WriteFailed? {
        MoveNeverFails(c, s);
      }
      hide IsRun, Next, Enabled, Move, Shape, SenderWork, ReadsLeft, ReceiverWork;
      longer := Continue(c, run, Move(c, s));
      longer := MovesReachTheEnd(c, longer);
    }
  }

  lemma MoveNeverFails(c: Config, s: State)
    requires Shape(c, s) && Enabled(c, s, Move(c, s)) && !s.sender.WriteFailed?
    ensures !Next(c, s, Move(c, s)).sender.WriteFailed? && Next(c, s, Move(c, s)).doubled == s.doubled
  {}

  // ---- When a session can still be collected ----

  /** Every packet has been started and the map is drained. */
  predicate Drained(c: Config, s: State) {
    s.started == c.count && s.pending == map[] && s.overwritten == 0
  }

  /** A failed write has lost its entry, or is about to find it gone. */
  predicate LostEntry(s: State) {
    s.doubled != multiset{} || s.sender.WriteFailed?
  }

  lemma DrainedKept(c: Config, s: State, step: Step)
    requires Shape(c, s) && Drained(c, s) && Enabled(c, s, step)
    ensures Drained(c, Next(c, s, step))
    ensures LostEntry(s) ==> LostEntry(Next(c, s, step))
  {}

  lemma {:induction false} StaysLost(c: Config, run: seq<State>, j: nat, k: nat)
    requires IsRun(c, run) && j <= k < |run| && Drained(c, run[j]) && LostEntry(run[j])
    ensures Drained(c, run[k]) && LostEntry(run[k])
  {
    hide *;
    if j < k {
      StaysLost(c, run, j, k - 1);
      RunLedgers(c, run, k - 1);
      var step := LastStep(c, run, k);
      DrainedKept(c, run[k - 1], step);
    }
  }

  /** The exact condition for a drained session to be collected at all: no failed write has lost its entry, and none is
      about to find it gone. */
  lemma {:induction false} CollectedExactly(c: Config, run: seq<State>)
    requires c.timeout > 0 && run != [] && IsRun(c, run) && Drained(c, run[|run| - 1])
    ensures (exists longer: seq<State> :: IsRun(c, longer) && run <= longer && longer[|longer| - 1].closed)
       <==> !LostEntry(run[|run| - 1])
  {
    var n := |run| - 1;
    if !LostEntry(run[n]) {
      var longer := MovesReachTheEnd(c, run);
    } else {
      forall longer: seq<State> | IsRun(c, longer) && run <= longer
        ensures !longer[|longer| - 1].closed
      {
        var m := |longer| - 1;
        assert longer[n] == run[n];
        StaysLost(c, longer, n, m);
        if longer[m].closed {
          RunLedgers(c, longer, m);
          CollectedMeansNoLostEntry(c, longer, m);
        }
      }
    }
  }

  // ---- When a post can still block ----

  /** Every packet has been dealt with by the sender. */
  predicate SenderDone(c: Config, s: State) {
    s.sender == Ready(c.count)
  }

  lemma SenderDoneKept(c: Config, s: State, step: Step)
    requires Shape(c, s) && SenderDone(c, s) && Enabled(c, s, step)
    ensures var s' := Next(c, s, step);
            && SenderDone(c, s') && s'.doubled == s.doubled && s'.overwritten == s.overwritten
            && (s.receiver.Exited? ==> s'.receiver.Exited?)
  {}

  lemma {:induction false} SenderStaysDone(c: Config, run: seq<State>, j: nat, k: nat)
    requires IsRun(c, run) && j <= k < |run| && SenderDone(c, run[j])
    ensures SenderDone(c, run[k]) && run[k].doubled == run[j].doubled && run[k].overwritten == run[j].overwritten
    ensures run[j].receiver.Exited? ==> run[k].receiver.Exited?
  {
    hide *;
    if j < k {
      SenderStaysDone(c, run, j, k - 1);
      RunLedgers(c, run, k - 1);
      var step := LastStep(c, run, k);
      SenderDoneKept(c, run[k - 1], step);
    }
  }

  /** More failed writes lost their entry than entries were overwritten: there are more results to post than the
      channel can hold. */
  predicate TooMany(c: Config, s: State) {
    SenderDone(c, s) && |s.doubled| > s.overwritten && !s.receiver.Exited?
  }

  /** The step on the way to a full channel: answer what is in the map, or carry the expiry through. */
  ghost function FillStep(s: State): Step
    requires s.receiver.Reading? ==> s.pending != map[]
  {
    match s.receiver
    case Reading(_) =>
      var q :| q in s.pending;
      Datagram(q, 0, 0)
    case LookingUp(_, _, _, _) => TakeEntry
    case Holding(_, _, _, _, _) => PostRtt
    case Checking => Check
    case Waking => Lock
    case Expiring(_) => HoldersMove(s)
    case Expired(_, _, _) => HoldersMove(s)
    case Exited(_, _) => Close
  }

  function FillRank(s: State): nat {
    match s.receiver
    case Reading(_) => 1
    case LookingUp(q, _, _, _) => if q in s.pending then 0 else 2
    case Checking => |s.pending| + 4
    case Waking => |s.pending| + 3
    case Expiring(todo) => |todo| + 2
    case _ => 0
  }

  /** What is left to post, unless someone is stuck. */
  lemma EntriesLeft(c: Config, run: seq<State>)
    requires run != [] && IsRun(c, run) && TooMany(c, run[|run| - 1])
    ensures var s := run[|run| - 1]; Shape(c, s) && |s.results| <= c.count && |s.pending| + Hands(s) > 0
  {
    RunLedgers(c, run, |run| - 1);
    ResultsFit(c, run, |run| - 1);
  }

  lemma FillStepFits(c: Config, s: State)
    requires Shape(c, s) && TooMany(c, s) && |s.pending| + Hands(s) > 0 && !Stuck(c, s)
    ensures s.receiver.Reading? ==> s.pending != map[]
    ensures Enabled(c, s, FillStep(s)) && |Next(c, s, FillStep(s)).results| >= |s.results|
    ensures var s' := Next(c, s, FillStep(s));
            && s'.sender == s.sender && s'.doubled == s.doubled && s'.overwritten == s.overwritten
            && (s'.receiver.Exited? ==> s.pending == map[] && Hands(s) == 0)
  {}

  lemma FillStepIsCloser(c: Config, s: State)
    requires Shape(c, s) && TooMany(c, s) && |s.pending| + Hands(s) > 0 && !Stuck(c, s)
    requires s.receiver.Reading? ==> s.pending != map[]
    requires Enabled(c, s, FillStep(s))
    ensures var s' := Next(c, s, FillStep(s));
            || |s'.results| > |s.results|
            || (|s'.results| == |s.results| && |s'.pending| < |s.pending|)
            || (|s'.results| == |s.results| && |s'.pending| == |s.pending| && FillRank(s') < FillRank(s))
  {
    var step := FillStep(s);
    PendingGrows(c, s, step);
    hide RTTOfNanos;
    if step.Visit? {
      assert |s.receiver.todo - {step.seqNo}| == |s.receiver.todo| - 1;
    }
    if step.Lock? {
      assert |s.pending.Keys| == |s.pending|;
    }
  }

  lemma {:induction false} FillTheChannel(c: Config, run: seq<State>) returns (longer: seq<State>)
    requires run != [] && IsRun(c, run) && TooMany(c, run[|run| - 1])
    ensures longer != [] && IsRun(c, longer) && run <= longer && Stuck(c, longer[|longer| - 1])
    decreases c.count - |run[|run| - 1].results|, |run[|run| - 1].pending|, FillRank(run[|run| - 1])
  {
    var s := run[|run| - 1];
    longer := run;
    if !Stuck(c, s) {
      EntriesLeft(c, run);
      FillStepFits(c, s);
      FillStepIsCloser(c, s);
      var step := FillStep(s);
      hide IsRun, Next, Enabled, FillStep, Shape, Stuck, FillRank, Room, Hands;
      longer := Continue(c, run, step);
      EntriesLeft(c, longer);
      longer := FillTheChannel(c, longer);
    }
  }

  /** The exact condition for a post to block in some continuation, once the sender is done: the receiver is still there
      and more failed writes have lost their entry than entries were overwritten. */
  lemma {:induction false} BlocksExactly(c: Config, run: seq<State>)
    requires run != [] && IsRun(c, run) && SenderDone(c, run[|run| - 1])
    ensures (exists longer: seq<State> :: IsRun(c, longer) && run <= longer && Stuck(c, longer[|longer| - 1]))
       <==> |run[|run| - 1].doubled| > run[|run| - 1].overwritten && !run[|run| - 1].receiver.Exited?
  {
    var n := |run| - 1;
    if TooMany(c, run[n]) {
      var longer := FillTheChannel(c, run);
    } else {
      forall longer: seq<State> | IsRun(c, longer) && run <= longer
        ensures !Stuck(c, longer[|longer| - 1])
      {
        var m := |longer| - 1;
        assert longer[n] == run[n];
        SenderStaysDone(c, longer, n, m);
        RunLedgers(c, longer, m);
      }
    }
  }

  lemma MoveIsEnabled(c: Config, s: State)
    requires Shape(c, s) && !s.closed && !Stuck(c, s)
    ensures Enabled(c, s, Move(c, s))
  {}

  lemma NotTooManyNotStuck(c: Config, run: seq<State>)
    requires run != [] && IsRun(c, run) && SenderDone(c, run[|run| - 1]) && !TooMany(c, run[|run| - 1])
    ensures Shape(c, run[|run| - 1]) && !Stuck(c, run[|run| - 1])
  {
    RunLedgers(c, run, |run| - 1);
  }

  /** And then the results are collected: a session whose sender is done, and in which no post can block any more, comes
      to its end. */
  lemma {:induction false} CollectedUnlessBlocked(c: Config, run: seq<State>) returns (longer: seq<State>)
    requires c.timeout > 0 && run != [] && IsRun(c, run)
    requires SenderDone(c, run[|run| - 1]) && !TooMany(c, run[|run| - 1])
    ensures longer != [] && IsRun(c, longer) && run <= longer && longer[|longer| - 1].closed
    decreases SenderWork(c, run[|run| - 1]), ReadsLeft(run[|run| - 1]), ReceiverWork(c, run[|run| - 1])
  {
    var s := run[|run| - 1];
    longer := run;
    NotTooManyNotStuck(c, run);
    if !s.closed {
      AtMostThreeTimeouts(c, run, |run| - 1);
      MoveIsEnabled(c, s);
      MoveIsCloser(c, s);
      SenderDoneKept(c, s, Move(c, s));
      hide IsRun, Next, Enabled, Move, Shape, SenderWork, ReadsLeft, ReceiverWork, SenderDone, Stuck;
      longer := Continue(c, run, Move(c, s));
      longer := CollectedUnlessBlocked(c, longer);
    }
  }
}
