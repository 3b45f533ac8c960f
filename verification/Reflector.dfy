/** The reflector of main.go under concurrency: serve loops and packet handlers sharing a semaphore, a wait group,
    a sequence number and a counter. Each step is one action of one goroutine. */
module Reflector {
  import opened Words

  const SLOTS := 100

  /** A serve loop. A packet has passed the allowlist and the rate limiter; valid tells whether it can be parsed. */
  datatype Loop =
    | Polling                       // about to look at the context and read
    | Waiting(valid: bool)          // has a packet, about to take a slot
    | Admitted(valid: bool)         // took a slot, about to join the wait group
    | Added(valid: bool)            // joined, about to start the handler
    | Draining                      // context done, waiting for the group
    | Returned(waited: bool)

  datatype Handler =
    | Parsing(valid: bool)
    | Numbered(n: nat)              // has taken the n-th number, counting from 0, about to write
    | Written                       // about to count the reflection
    | Counted                       // about to call back
    | Leaving                       // about to free the slot
    | Released                      // about to leave the group

  /** issued, sent, accepted, rejected and failed record history; the code does not keep them. */
  datatype State = State(
    loops: map<nat, Loop>, handlers: map<nat, Handler>, slots: nat, group: nat, done: bool,
    hook: bool,                     // a callback was given
    seqNumber: uint32,
    reflected: nat,                 // the code's counter is this modulo 2^64
    callbacks: nat,
    issued: seq<uint32>,            // numbers taken, in order
    sent: seq<nat>,                 // positions in issued of the answers written
    accepted: nat, rejected: nat, failed: nat)

  datatype Step =
    | Cancel
    | Accept(l: nat, valid: bool) | Acquire(l: nat) | Join(l: nat) | Spawn(l: nat, h: nat)
    | Drain(l: nat) | Return(l: nat) | ReadFail(l: nat)
    | Reject(h: nat) | Issue(h: nat) | WriteOk(h: nat) | WriteFail(h: nat) | CountOne(h: nat) | CallBack(h: nat)
    | Release(h: nat) | Leave(h: nat)

  function Start(loops: map<nat, Loop>, hook: bool): State {
    State(loops, map[], 0, 0, false, hook, 0, 0, 0, [], [], 0, 0, 0)
  }

  predicate Enabled(s: State, step: Step) {
    match step
    case Cancel => true
    case Accept(l, _) => l in s.loops && s.loops[l].Polling?
    case Acquire(l) => l in s.loops && s.loops[l].Waiting? && s.slots < SLOTS
    case Join(l) => l in s.loops && s.loops[l].Admitted?
    case Spawn(l, h) => l in s.loops && s.loops[l].Added? && h !in s.handlers
    case Drain(l) => l in s.loops && s.loops[l].Polling? && s.done
    case Return(l) => l in s.loops && s.loops[l].Draining? && s.group == 0
    case ReadFail(l) => l in s.loops && s.loops[l].Polling? && s.done
    case Reject(h) => h in s.handlers && s.handlers[h].Parsing? && !s.handlers[h].valid
    case Issue(h) => h in s.handlers && s.handlers[h].Parsing? && s.handlers[h].valid
    case WriteOk(h) => h in s.handlers && s.handlers[h].Numbered?
    case WriteFail(h) => h in s.handlers && s.handlers[h].Numbered?
    case CountOne(h) => h in s.handlers && s.handlers[h].Written?
    case CallBack(h) => h in s.handlers && s.handlers[h].Counted?
    case Release(h) => h in s.handlers && s.handlers[h].Leaving? && s.slots > 0
    case Leave(h) => h in s.handlers && s.handlers[h].Released? && s.group > 0
  }

  function Next(s: State, step: Step): State
    requires Enabled(s, step)
  {
    match step
    case Cancel => s.(done := true)
    case Accept(l, valid) => s.(loops := s.loops[l := Waiting(valid)], accepted := s.accepted + 1)
    case Acquire(l) => s.(loops := s.loops[l := Admitted(s.loops[l].valid)], slots := s.slots + 1)
    case Join(l) => s.(loops := s.loops[l := Added(s.loops[l].valid)], group := s.group + 1)
    case Spawn(l, h) => s.(loops := s.loops[l := Polling], handlers := s.handlers[h := Parsing(s.loops[l].valid)])
    case Drain(l) => s.(loops := s.loops[l := Draining])
    case Return(l) => s.(loops := s.loops[l := Returned(true)])
    case ReadFail(l) => s.(loops := s.loops[l := Returned(false)])
    case Reject(h) => s.(handlers := s.handlers[h := Leaving], rejected := s.rejected + 1)
    case Issue(h) =>
      var number := (s.seqNumber + 1) % TWO32;
      s.(handlers := s.handlers[h := Numbered(|s.issued|)], seqNumber := number, issued := s.issued + [number])
    case WriteOk(h) => s.(handlers := s.handlers[h := Written], sent := s.sent + [s.handlers[h].n])
    case WriteFail(h) => s.(handlers := s.handlers[h := Leaving], failed := s.failed + 1)
    case CountOne(h) => s.(handlers := s.handlers[h := Counted], reflected := s.reflected + 1)
    case CallBack(h) => s.(handlers := s.handlers[h := Leaving], callbacks := s.callbacks + One(s.hook))
    case Release(h) => s.(handlers := s.handlers[h := Released], slots := s.slots - 1)
    case Leave(h) => s.(handlers := s.handlers - {h}, group := s.group - 1)
  }

  ghost predicate StepsTo(s: State, s': State) {
    exists step :: Enabled(s, step) && s' == Next(s, step)
  }

  ghost predicate IsRun(run: seq<State>) {
    && run != [] && run[0] == Start(run[0].loops, run[0].hook)
    && (forall l :: l in run[0].loops ==> run[0].loops[l].Polling?)
    && forall k :: 0 <= k < |run| - 1 ==> StepsTo(run[k], run[k + 1])
  }

  lemma LastStep(run: seq<State>, k: nat) returns (step: Step)
    requires IsRun(run) && 0 < k < |run|
    ensures Enabled(run[k - 1], step) && run[k] == Next(run[k - 1], step)
  {
    assert StepsTo(run[k - 1], run[k - 1 + 1]);
    hide Next, Enabled;
    step :| Enabled(run[k - 1], step) && run[k] == Next(run[k - 1], step);
  }

  // ---- Counting goroutines by phase ----

  ghost function Those<P(!new)>(m: map<nat, P>, kind: P -> bool): set<nat> {
    set k | k in m && kind(m[k])
  }

  ghost function Count<P(!new)>(m: map<nat, P>, kind: P -> bool): nat {
    |Those(m, kind)|
  }

  lemma WithAndWithout(s: set<nat>, k: nat)
    ensures |s| == |s - {k}| + One(k in s)
  {
    if k in s {
      assert s == (s - {k}) + {k};
    } else {
      assert s == s - {k};
    }
  }

  lemma {:induction false} CountSet<P(!new)>(m: map<nat, P>, k: nat, p: P, kind: P -> bool)
    ensures Count(m[k := p], kind) == Count(m, kind) - One(k in m && kind(m[k])) + One(kind(p))
  {
    var before, after := Those(m, kind), Those(m[k := p], kind);
    assert (k in before <==> k in m && kind(m[k])) && (k in after <==> kind(p));
    assert after - {k} == before - {k};
    WithAndWithout(before, k);
    WithAndWithout(after, k);
  }

  lemma {:induction false} CountRemove<P(!new)>(m: map<nat, P>, k: nat, kind: P -> bool)
    requires k in m
    ensures Count(m - {k}, kind) == Count(m, kind) - One(kind(m[k]))
    ensures |m - {k}| == |m| - 1
  {
    var before, after := Those(m, kind), Those(m - {k}, kind);
    assert after == before - {k};
    WithAndWithout(before, k);
    assert (m - {k}).Keys == m.Keys - {k};
  }

  lemma AddKey<P>(m: map<nat, P>, k: nat, p: P)
    ensures |m[k := p]| == |m| + One(k !in m)
  {
    assert m[k := p].Keys == m.Keys + {k};
    if k in m {
      assert m.Keys + {k} == m.Keys;
    }
  }

  predicate LoopHolds(l: Loop) { l.Admitted? || l.Added? }
  predicate LoopJoined(l: Loop) { l.Added? }
  predicate InFlight(l: Loop) { l.Waiting? || l.Admitted? || l.Added? }
  predicate Running(h: Handler) { !h.Released? }
  predicate Unnumbered(h: Handler) { h.Parsing? }
  predicate Unreflected(h: Handler) { h.Numbered? || h.Written? }
  predicate Answered(h: Handler) { h.Written? }
  predicate Uncalled(h: Handler) { h.Counted? }

  predicate ByLoop(step: Step) {
    step.Accept? || step.Acquire? || step.Join? || step.Spawn? || step.Drain? || step.Return? || step.ReadFail?
  }

  /** The loop a step moves, and where to. */
  function LoopTarget(s: State, step: Step): (nat, Loop)
    requires ByLoop(step) && Enabled(s, step)
  {
    match step
    case Accept(l, valid) => (l, Waiting(valid))
    case Acquire(l) => (l, Admitted(s.loops[l].valid))
    case Join(l) => (l, Added(s.loops[l].valid))
    case Spawn(l, _) => (l, Polling)
    case Drain(l) => (l, Draining)
    case Return(l) => (l, Returned(true))
    case ReadFail(l) => (l, Returned(false))
  }

  predicate ByHandler(step: Step) {
    !ByLoop(step) && !step.Cancel? && !step.Leave?
  }

  function HandlerTarget(s: State, step: Step): (nat, Handler)
    requires ByHandler(step) && Enabled(s, step)
  {
    match step
    case Reject(h) => (h, Leaving)
    case Issue(h) => (h, Numbered(|s.issued|))
    case WriteOk(h) => (h, Written)
    case WriteFail(h) => (h, Leaving)
    case CountOne(h) => (h, Counted)
    case CallBack(h) => (h, Leaving)
    case Release(h) => (h, Released)
  }

  /** How a step changes the number of loops of a kind. */
  lemma LoopCount(s: State, step: Step, kind: Loop -> bool)
    requires Enabled(s, step)
    ensures Count(Next(s, step).loops, kind)
         == if ByLoop(step)
            then Count(s.loops, kind) - One(kind(s.loops[LoopTarget(s, step).0])) + One(kind(LoopTarget(s, step).1))
            else Count(s.loops, kind)
  {
    if ByLoop(step) {
      CountSet(s.loops, LoopTarget(s, step).0, LoopTarget(s, step).1, kind);
    }
    hide Count;
  }

  /** How a step changes the number of handlers of a kind. */
  lemma HandlerCount(s: State, step: Step, kind: Handler -> bool)
    requires Enabled(s, step)
    ensures Count(Next(s, step).handlers, kind) ==
            if step.Spawn? then Count(s.handlers, kind) + One(kind(Parsing(s.loops[step.l].valid)))
            else if step.Leave? then Count(s.handlers, kind) - One(kind(s.handlers[step.h]))
            else if ByHandler(step)
            then Count(s.handlers, kind) - One(kind(s.handlers[HandlerTarget(s, step).0])) + One(kind(HandlerTarget(s, step).1))
            else Count(s.handlers, kind)
  {
    if step.Spawn? {
      CountSet(s.handlers, step.h, Parsing(s.loops[step.l].valid), kind);
    } else if step.Leave? {
      CountRemove(s.handlers, step.h, kind);
    } else if ByHandler(step) {
      CountSet(s.handlers, HandlerTarget(s, step).0, HandlerTarget(s, step).1, kind);
    }
    hide Count;
  }

  lemma HandlerTotal(s: State, step: Step)
    requires Enabled(s, step)
    ensures |Next(s, step).handlers| == |s.handlers| + One(step.Spawn?) - One(step.Leave?)
  {
    if step.Spawn? {
      AddKey(s.handlers, step.h, Parsing(s.loops[step.l].valid));
    } else if step.Leave? {
      CountRemove(s.handlers, step.h, Running);
    } else if ByHandler(step) {
      AddKey(s.handlers, HandlerTarget(s, step).0, HandlerTarget(s, step).1);
    }
    hide Count;
  }

  // ---- Invariants ----

  /** Every taken slot belongs to one running handler or to one loop about to start one. */
  ghost predicate SlotsHeld(s: State) {
    s.slots == Count(s.loops, LoopHolds) + Count(s.handlers, Running) <= SLOTS
  }

  ghost predicate GroupMembers(s: State) {
    s.group == Count(s.loops, LoopJoined) + |s.handlers|
  }

  ghost predicate NumbersInOrder(s: State) {
    && s.seqNumber == |s.issued| % TWO32
    && forall i :: 0 <= i < |s.issued| ==> s.issued[i] == (i + 1) % TWO32
  }

  /** Where the accepted packets are. */
  ghost predicate Intake(s: State) {
    s.accepted == |s.issued| + s.rejected + Count(s.loops, InFlight) + Count(s.handlers, Unnumbered)
  }

  /** Where the numbered ones are. */
  ghost predicate Outcomes(s: State) {
    && |s.issued| == s.reflected + s.failed + Count(s.handlers, Unreflected)
    && |s.sent| == s.reflected + Count(s.handlers, Answered)
  }

  ghost predicate CallsBack(s: State) {
    && s.reflected >= Count(s.handlers, Uncalled)
    && s.callbacks == if s.hook then s.reflected - Count(s.handlers, Uncalled) else 0
  }

  /** No two answers, written or about to be, share a number taken. */
  ghost predicate AnswersDiffer(s: State) {
    && (forall i :: 0 <= i < |s.sent| ==> s.sent[i] < |s.issued|)
    && (forall i, j :: 0 <= i < j < |s.sent| ==> s.sent[i] != s.sent[j])
    && (forall h :: h in s.handlers && s.handlers[h].Numbered? ==>
          s.handlers[h].n < |s.issued| && s.handlers[h].n !in s.sent)
    && (forall h, g :: h in s.handlers && g in s.handlers && h != g && s.handlers[h].Numbered? && s.handlers[g].Numbered? ==>
          s.handlers[h].n != s.handlers[g].n)
  }

  lemma SlotsHeldKept(s: State, step: Step)
    requires SlotsHeld(s) && Enabled(s, step)
    ensures SlotsHeld(Next(s, step))
  {
    LoopCount(s, step, LoopHolds);
    HandlerCount(s, step, Running);
    hide Count;
  }

  lemma GroupMembersKept(s: State, step: Step)
    requires GroupMembers(s) && Enabled(s, step)
    ensures GroupMembers(Next(s, step))
  {
    LoopCount(s, step, LoopJoined);
    HandlerTotal(s, step);
    hide Count;
  }

  lemma NumbersInOrderKept(s: State, step: Step)
    requires NumbersInOrder(s) && Enabled(s, step)
    ensures NumbersInOrder(Next(s, step))
  {}

  lemma IntakeKept(s: State, step: Step)
    requires Intake(s) && Enabled(s, step)
    ensures Intake(Next(s, step))
  {
    LoopCount(s, step, InFlight);
    HandlerCount(s, step, Unnumbered);
    hide Count;
  }

  lemma OutcomesKept(s: State, step: Step)
    requires Outcomes(s) && Enabled(s, step)
    ensures Outcomes(Next(s, step))
  {
    HandlerCount(s, step, Unreflected);
    HandlerCount(s, step, Answered);
    hide Count;
  }

  lemma CallsBackKept(s: State, step: Step)
    requires CallsBack(s) && Enabled(s, step)
    ensures CallsBack(Next(s, step))
  {
    HandlerCount(s, step, Uncalled);
    hide Count;
  }

  lemma AnswersDifferAfterIssue(s: State, h: nat)
    requires AnswersDiffer(s) && Enabled(s, Issue(h))
    ensures AnswersDiffer(Next(s, Issue(h)))
  {}

  lemma AnswersDifferAfterWrite(s: State, h: nat)
    requires AnswersDiffer(s) && Enabled(s, WriteOk(h))
    ensures AnswersDiffer(Next(s, WriteOk(h)))
  {}

  lemma AnswersDifferKept(s: State, step: Step)
    requires AnswersDiffer(s) && Enabled(s, step)
    ensures AnswersDiffer(Next(s, step))
  {
    if step.Issue? {
      AnswersDifferAfterIssue(s, step.h);
    } else if step.WriteOk? {
      AnswersDifferAfterWrite(s, step.h);
    } else {
      var s' := Next(s, step);
      assert s'.sent == s.sent && s'.issued == s.issued;
      assert forall h :: h in s'.handlers && s'.handlers[h].Numbered? ==> h in s.handlers && s'.handlers[h] == s.handlers[h];
      hide Next, Enabled;
    }
  }

  lemma NoneOf<P(!new)>(m: map<nat, P>, kind: P -> bool)
    requires forall k :: k in m ==> !kind(m[k])
    ensures Count(m, kind) == 0
  {
    assert Those(m, kind) == {};
  }

  lemma StartIsFine(s: State)
    requires s == Start(s.loops, s.hook) && forall l :: l in s.loops ==> s.loops[l].Polling?
    ensures SlotsHeld(s) && GroupMembers(s) && NumbersInOrder(s) && Intake(s) && Outcomes(s) && CallsBack(s) && AnswersDiffer(s)
  {
    NoneOf(s.loops, LoopHolds);
    NoneOf(s.loops, LoopJoined);
    NoneOf(s.loops, InFlight);
    NoneOf(s.handlers, Running);
    NoneOf(s.handlers, Unnumbered);
    NoneOf(s.handlers, Unreflected);
    NoneOf(s.handlers, Answered);
    NoneOf(s.handlers, Uncalled);
  }

  lemma {:induction false} RunInvariant(run: seq<State>, k: nat)
    requires IsRun(run) && k < |run|
    ensures SlotsHeld(run[k]) && GroupMembers(run[k]) && NumbersInOrder(run[k]) && Intake(run[k]) && Outcomes(run[k]) && CallsBack(run[k])
         && AnswersDiffer(run[k])
  {
    hide Enabled, Next, SlotsHeld, GroupMembers, NumbersInOrder, Intake, Outcomes, CallsBack, AnswersDiffer;
    if k == 0 {
      StartIsFine(run[0]);
    } else {
      RunInvariant(run, k - 1);
      var step := LastStep(run, k);
      SlotsHeldKept(run[k - 1], step);
      GroupMembersKept(run[k - 1], step);
      NumbersInOrderKept(run[k - 1], step);
      IntakeKept(run[k - 1], step);
      OutcomesKept(run[k - 1], step);
      CallsBackKept(run[k - 1], step);
      AnswersDifferKept(run[k - 1], step);
    }
  }

  // ---- What every run guarantees ----

  /** At most 100 handlers run at once; a finished one can always free its slot and leave the group. */
  lemma {:induction false} HandlersAreBounded(run: seq<State>, k: nat)
    requires IsRun(run) && k < |run|
    ensures Count(run[k].handlers, Running) <= run[k].slots <= 100
    ensures forall h :: h in run[k].handlers && run[k].handlers[h].Leaving? ==> Enabled(run[k], Release(h))
    ensures forall h :: h in run[k].handlers && run[k].handlers[h].Released? ==> Enabled(run[k], Leave(h))
  {
    RunInvariant(run, k);
    var s := run[k];
    forall h | h in s.handlers && s.handlers[h].Leaving?
      ensures Enabled(s, Release(h))
    {
      CountRemove(s.handlers, h, Running);
    }
    forall h | h in s.handlers && s.handlers[h].Released?
      ensures Enabled(s, Leave(h))
    {
      CountRemove(s.handlers, h, Running);
    }
  }

  /** A loop with a packet waits only while 100 slots are held, by running handlers and by loops about to start one. */
  lemma {:induction false} WaitsOnlyForASlot(run: seq<State>, k: nat, l: nat)
    requires IsRun(run) && k < |run| && l in run[k].loops && run[k].loops[l].Waiting?
    ensures Enabled(run[k], Acquire(l)) <==> Count(run[k].loops, LoopHolds) + Count(run[k].handlers, Running) < 100
  {
    RunInvariant(run, k);
    hide IsRun, Count, NumbersInOrder, Intake, Outcomes, CallsBack, AnswersDiffer;
  }

  /** The numbers taken are 1, 2, 3, ... with no gap, and none repeats exactly as long as no more than 2^32 are taken. */
  lemma {:induction false} NumbersIssued(run: seq<State>, k: nat)
    requires IsRun(run) && k < |run|
    ensures var issued := run[k].issued;
            && (forall i :: 0 <= i < |issued| ==> issued[i] == (i + 1) % TWO32)
            && ((forall i, j :: 0 <= i < j < |issued| ==> issued[i] != issued[j]) <==> |issued| <= TWO32)
  {
    RunInvariant(run, k);
    hide IsRun, SlotsHeld, GroupMembers, Intake, Outcomes, CallsBack, AnswersDiffer;
    RepeatsAfterWrap(run[k].issued);
  }

  lemma RepeatsAfterWrap(issued: seq<uint32>)
    requires forall i :: 0 <= i < |issued| ==> issued[i] == (i + 1) % TWO32
    ensures (forall i, j :: 0 <= i < j < |issued| ==> issued[i] != issued[j]) <==> |issued| <= TWO32
  {
    if |issued| > TWO32 {
      assert issued[0] == issued[TWO32];
    }
  }

  /** Two answers carry different numbers, as long as no more than 2^32 are taken. */
  lemma {:induction false} AnswersCarryOwnNumbers(run: seq<State>, k: nat, i: nat, j: nat)
    requires IsRun(run) && k < |run| && i < j < |run[k].sent|
    ensures run[k].sent[i] < |run[k].issued| && run[k].sent[j] < |run[k].issued|
    ensures |run[k].issued| <= TWO32 ==> run[k].issued[run[k].sent[i]] != run[k].issued[run[k].sent[j]]
  {
    RunInvariant(run, k);
    hide SlotsHeld, GroupMembers, Intake, Outcomes, CallsBack, IsRun;
    var s := run[k];
    var a, b := s.sent[i], s.sent[j];
    assert a != b && a < |s.issued| && b < |s.issued|;
    hide AnswersDiffer;
    assert s.issued[a] == (a + 1) % TWO32 && s.issued[b] == (b + 1) % TWO32;
  }

  /** Reflections never outrun numbers, nor numbers accepted packets; when no handler is left, every number led to a
      reflection or a failed write, and every reflection to one callback. */
  lemma {:induction false} ReflectionsAddUp(run: seq<State>, k: nat)
    requires IsRun(run) && k < |run|
    ensures var s := run[k];
            && s.reflected + s.failed <= |s.issued| && |s.issued| + s.rejected <= s.accepted
            && s.callbacks <= s.reflected <= |s.sent|
            && (s.handlers == map[] ==>
                  && |s.issued| == s.reflected + s.failed
                  && |s.sent| == s.reflected
                  && s.callbacks == if s.hook then s.reflected else 0)
  {
    RunInvariant(run, k);
    var s := run[k];
    if s.handlers == map[] {
      NoneOf(s.handlers, Unreflected);
      NoneOf(s.handlers, Answered);
      NoneOf(s.handlers, Uncalled);
    }
    hide Count;
  }

  // ---- Shutting down ----

  /** At the moment a loop's wait ends, no handler is left. */
  lemma {:induction false} NothingRunsAtReturn(run: seq<State>, k: nat, l: nat)
    requires IsRun(run) && k < |run| && Enabled(run[k], Return(l))
    ensures run[k].handlers == map[]
  {
    RunInvariant(run, k);
    hide SlotsHeld, NumbersInOrder, Intake, Outcomes, CallsBack, AnswersDiffer, Count;
    assert |run[k].handlers| == 0;
  }

  lemma SameLoops(s: State, step: Step)
    requires Enabled(s, step)
    ensures Next(s, step).loops.Keys == s.loops.Keys
  {}

  predicate Ended(l: Loop) {
    l.Draining? || l.Returned?
  }

  /** No handler is left and every loop has seen the end of the context. */
  ghost predicate Quiet(s: State) {
    s.handlers == map[] && forall l :: l in s.loops ==> Ended(s.loops[l])
  }

  lemma QuietKept(s: State, step: Step)
    requires Quiet(s) && Enabled(s, step)
    ensures Quiet(Next(s, step))
  {}

  lemma {:induction false} QuietStays(run: seq<State>, j: nat, k: nat)
    requires IsRun(run) && j <= k < |run| && Quiet(run[j])
    ensures Quiet(run[k])
  {
    if j < k {
      hide *;
      QuietStays(run, j, k - 1);
      var step := LastStep(run, k);
      QuietKept(run[k - 1], step);
    }
  }

  predicate AllWaited(s: State) {
    forall l :: l in s.loops ==> s.loops[l] == Returned(true)
  }

  /** The last loop to return is the one that makes all of them returned, and its wait has just ended. */
  lemma LastReturn(s: State, step: Step)
    requires Enabled(s, step) && s.loops != map[] && AllWaited(Next(s, step))
    ensures AllWaited(s) || step.Return?
  {
    if !step.Return? {
      forall l | l in s.loops
        ensures s.loops[l] == Returned(true)
      {
        assert Next(s, step).loops[l] == Returned(true);
      }
    }
  }

  /** Serve loops that have all waited leave no handler behind, however many they are, and none can start. */
  lemma {:induction false} LoopsThatWaitedAreDrained(run: seq<State>, k: nat)
    requires IsRun(run) && k < |run| && run[0].loops != map[]
    ensures run[k].loops != map[]
    ensures AllWaited(run[k]) ==> Quiet(run[k])
  {
    if k == 0 {
      var l :| l in run[0].loops;
      assert run[0].loops[l].Polling?;
    } else {
      LoopsThatWaitedAreDrained(run, k - 1);
      var step := LastStep(run, k);
      var s := run[k - 1];
      hide IsRun;
      SameLoops(s, step);
      var l :| l in s.loops;
      assert l in run[k].loops;
      if AllWaited(run[k]) {
        LastReturn(s, step);
        if AllWaited(s) {
          QuietKept(s, step);
        } else {
          NothingRunsAtReturn(run, k - 1, step.l);
          assert forall m :: m in run[k].loops ==> Ended(run[k].loops[m]);
        }
      }
    }
  }

  lemma Continue(run: seq<State>, step: Step) returns (longer: seq<State>)
    requires IsRun(run) && Enabled(run[|run| - 1], step)
    ensures longer != [] && IsRun(longer) && run <= longer && longer[0] == run[0]
    ensures longer[|longer| - 1] == Next(run[|run| - 1], step)
  {
    hide Next, Enabled;
    longer := run + [Next(run[|run| - 1], step)];
    forall k | 0 <= k < |longer| - 1
      ensures StepsTo(longer[k], longer[k + 1])
    {
      if k < |run| - 1 {
        assert StepsTo(run[k], run[k + 1]);
      } else {
        assert Enabled(longer[k], step);
      }
    }
  }

  /** Unless the reflector is quiet, a handler is there or can still be started. */
  lemma {:induction false} RestlessCanRun(run: seq<State>) returns (longer: seq<State>)
    requires run != [] && IsRun(run) && !Quiet(run[|run| - 1])
    ensures longer != [] && IsRun(longer) && run <= longer && longer[|longer| - 1].handlers != map[]
  {
    var s := run[|run| - 1];
    longer := run;
    if s.handlers == map[] {
      var l := LoopToStart(run);
      longer := StartOne(run, l);
    }
  }

  /** A loop that can start a handler without waiting: one that holds a slot, if there is one. */
  lemma LoopToStart(run: seq<State>) returns (l: nat)
    requires run != [] && IsRun(run) && run[|run| - 1].handlers == map[] && !Quiet(run[|run| - 1])
    ensures var s := run[|run| - 1];
            l in s.loops && !Ended(s.loops[l]) && (LoopHolds(s.loops[l]) || s.slots < SLOTS)
  {
    var s := run[|run| - 1];
    if m :| m in s.loops && LoopHolds(s.loops[m]) {
      l := m;
    } else {
      RunInvariant(run, |run| - 1);
      NoneOf(s.loops, LoopHolds);
      NoneOf(s.handlers, Running);
      l :| l in s.loops && !Ended(s.loops[l]);
    }
  }

  lemma StartOne(run: seq<State>, l: nat) returns (longer: seq<State>)
    requires run != [] && IsRun(run) && run[|run| - 1].handlers == map[]
    requires var s := run[|run| - 1];
             l in s.loops && !Ended(s.loops[l]) && (LoopHolds(s.loops[l]) || s.slots < SLOTS)
    ensures longer != [] && IsRun(longer) && run <= longer && longer[|longer| - 1].handlers != map[]
    decreases match run[|run| - 1].loops[l] case Polling => 4 case Waiting(_) => 3 case Admitted(_) => 2 case _ => 1
  {
    hide IsRun;
    match run[|run| - 1].loops[l] {
      case Polling =>
        longer := Continue(run, Accept(l, true));
        longer := StartOne(longer, l);
      case Waiting(_) =>
        longer := Continue(run, Acquire(l));
        longer := StartOne(longer, l);
      case Admitted(_) =>
        longer := Continue(run, Join(l));
        longer := StartOne(longer, l);
      case Added(_) =>
        longer := Continue(run, Spawn(l, 0));
        assert 0 in longer[|longer| - 1].handlers;
    }
  }

  /** The exact condition: no handler runs from here on, however the run goes on, exactly when the reflector is quiet. */
  lemma {:induction false} NoHandlerFromHereOn(run: seq<State>)
    requires run != [] && IsRun(run)
    ensures Quiet(run[|run| - 1]) <==>
            forall longer: seq<State> :: IsRun(longer) && run <= longer ==> longer[|longer| - 1].handlers == map[]
  {
    if Quiet(run[|run| - 1]) {
      forall longer: seq<State> | IsRun(longer) && run <= longer
        ensures longer[|longer| - 1].handlers == map[]
      {
        assert longer[|run| - 1] == run[|run| - 1];
        QuietStays(longer, |run| - 1, |longer| - 1);
      }
    } else {
      var longer := RestlessCanRun(run);
    }
  }

  /** A run of these loops that ends with a handler still there although loop l has returned. */
  ghost predicate Outlived(run: seq<State>, loops: set<nat>, l: nat, waited: bool) {
    && IsRun(run) && run[0].loops.Keys == loops
    && l in run[|run| - 1].loops && run[|run| - 1].loops[l] == Returned(waited)
    && run[|run| - 1].handlers != map[]
  }

  lemma FirstLoopHasASlot(hook: bool) returns (run: seq<State>)
    ensures run != [] && IsRun(run) && run[0].loops.Keys == {0, 1}
    ensures run[|run| - 1]
         == State(map[0 := Admitted(true), 1 := Polling], map[], 1, 0, true, hook, 0, 0, 0, [], [], 1, 0, 0)
  {
    run := [Start(map[0 := Polling, 1 := Polling], hook)];
    assert IsRun(run);
    hide IsRun;
    run := Continue(run, Accept(0, true));
    run := Continue(run, Acquire(0));
    run := Continue(run, Cancel);
    assert run[|run| - 1].loops == map[0 := Admitted(true), 1 := Polling];
  }

  /** With two loops a handler can outlive a loop that waited: the group is empty while the other loop is about to
      join it. */
  lemma {:induction false} SecondLoopStartsLate(hook: bool)
    ensures exists run :: Outlived(run, {0, 1}, 1, true)
  {
    var run := FirstLoopHasASlot(hook);
    hide IsRun;
    run := Continue(run, Drain(1));
    run := Continue(run, Return(1));
    run := Continue(run, Join(0));
    run := Continue(run, Spawn(0, 0));
    assert 0 in run[|run| - 1].handlers && run[|run| - 1].loops[1] == Returned(true);
    assert Outlived(run, {0, 1}, 1, true);
  }

  /** A read that fails while shutting down makes a loop return without waiting. */
  lemma {:induction false} FailedReadSkipsTheWait(hook: bool)
    ensures exists run :: Outlived(run, {0}, 0, false)
  {
    var run := [Start(map[0 := Polling], hook)];
    assert IsRun(run);
    hide IsRun;
    run := Continue(run, Accept(0, true));
    run := Continue(run, Acquire(0));
    run := Continue(run, Join(0));
    run := Continue(run, Spawn(0, 0));
    assert run[|run| - 1].loops == map[0 := Polling];
    run := Continue(run, Cancel);
    run := Continue(run, ReadFail(0));
    assert 0 in run[|run| - 1].handlers;
    assert Outlived(run, {0}, 0, false);
  }

  // ---- Progress ----

  /** The next step of a running handler, or of a finished one, when its write succeeds. */
  function HandlerMove(s: State, h: nat): Step
    requires h in s.handlers
  {
    match s.handlers[h]
    case Parsing(valid) => if valid then Issue(h) else Reject(h)
    case Numbered(_) => WriteOk(h)
    case Written => CountOne(h)
    case Counted => CallBack(h)
    case Leaving => Release(h)
    case Released => Leave(h)
  }

  lemma SomeKey<P(!new)>(m: map<nat, P>, kind: P -> bool) returns (k: nat)
    requires Count(m, kind) > 0
    ensures k in m && kind(m[k])
  {
    k :| k in Those(m, kind);
  }

  predicate Internal(step: Step) {
    !step.Cancel? && !step.Accept? && !step.ReadFail? && !step.Acquire? && !step.Drain? && !step.Return?
  }

  ghost function Total<P(!new)>(m: map<nat, P>, weight: P -> nat): nat {
    if m == map[] then 0
    else
      var k :| k in m;
      weight(m[k]) + Total(m - {k}, weight)
  }

  lemma {:induction false} TotalWithout<P(!new)>(m: map<nat, P>, weight: P -> nat, k: nat)
    requires k in m
    ensures Total(m, weight) == weight(m[k]) + Total(m - {k}, weight)
  {
    var j :| j in m && Total(m, weight) == weight(m[j]) + Total(m - {j}, weight);
    if j != k {
      TotalWithout(m - {j}, weight, k);
      TotalWithout(m - {k}, weight, j);
      assert m - {j} - {k} == m - {k} - {j};
    }
  }

  lemma {:induction false} TotalSet<P(!new)>(m: map<nat, P>, weight: P -> nat, k: nat, p: P)
    ensures Total(m[k := p], weight) == Total(m, weight) + weight(p) - (if k in m then weight(m[k]) else 0)
  {
    TotalWithout(m[k := p], weight, k);
    if k in m {
      TotalWithout(m, weight, k);
      assert m[k := p] - {k} == m - {k};
    } else {
      assert m[k := p] - {k} == m;
    }
  }

  function LoopWeight(l: Loop): nat {
    match l
    case Admitted(_) => 8
    case Added(_) => 7
    case _ => 0
  }

  function HandlerWeight(h: Handler): nat {
    match h
    case Parsing(_) => 6
    case Numbered(_) => 5
    case Written => 4
    case Counted => 3
    case Leaving => 2
    case Released => 1
  }

  /** How many steps the packets that have a slot, and the handlers that gave theirs back, still need at most. */
  ghost function Work(s: State): nat {
    Total(s.loops, LoopWeight) + Total(s.handlers, HandlerWeight)
  }

  lemma InternalStepsWork(s: State, step: Step)
    requires Internal(step) && Enabled(s, step)
    ensures Work(Next(s, step)) < Work(s)
  {
    hide Total;
    if ByLoop(step) {
      TotalSet(s.loops, LoopWeight, LoopTarget(s, step).0, LoopTarget(s, step).1);
      if step.Spawn? {
        TotalSet(s.handlers, HandlerWeight, step.h, Parsing(s.loops[step.l].valid));
      }
    } else if step.Leave? {
      TotalWithout(s.handlers, HandlerWeight, step.h);
    } else {
      TotalSet(s.handlers, HandlerWeight, HandlerTarget(s, step).0, HandlerTarget(s, step).1);
    }
  }

  /** The step a loop is held up at. */
  function OwnStep(s: State, l: nat): Step
    requires l in s.loops
  {
    if s.loops[l].Waiting? then Acquire(l) else Return(l)
  }

  predicate HeldUp(s: State, l: nat) {
    l in s.loops && (s.loops[l].Waiting? || s.loops[l].Draining?)
  }

  /** While a loop is held up, some other goroutine can move. */
  lemma OthersCanMove(run: seq<State>, l: nat) returns (step: Step)
    requires run != [] && IsRun(run) && HeldUp(run[|run| - 1], l) && !Enabled(run[|run| - 1], OwnStep(run[|run| - 1], l))
    ensures Internal(step) && Enabled(run[|run| - 1], step)
  {
    var k := |run| - 1;
    var s := run[k];
    HandlersAreBounded(run, k);
    if h :| h in s.handlers {
      hide IsRun, Count;
      step := HandlerMove(s, h);
    } else {
      RunInvariant(run, k);
      NoneOf(s.handlers, Running);
      JoinedHold(s.loops);
      assert s.handlers == map[];
      hide IsRun, NumbersInOrder, Intake, Outcomes, CallsBack, AnswersDiffer;
      assert Count(s.loops, LoopHolds) > 0;
      var m := SomeKey(s.loops, LoopHolds);
      step := if s.loops[m].Admitted? then Join(m) else Spawn(m, 0);
    }
  }

  lemma OthersLeaveItAlone(s: State, step: Step, l: nat)
    requires Internal(step) && Enabled(s, step) && HeldUp(s, l)
    ensures HeldUp(Next(s, step), l) && Next(s, step).loops[l] == s.loops[l]
  {}

  /** A loop held up by the semaphore or by its wait proceeds: as the other goroutines finish the packets they have,
      which each of their steps brings closer, its own step becomes possible. */
  lemma {:induction false} HeldUpLoopProceeds(run: seq<State>, l: nat) returns (longer: seq<State>)
    requires run != [] && IsRun(run) && HeldUp(run[|run| - 1], l)
    ensures longer != [] && IsRun(longer) && run <= longer
    ensures HeldUp(longer[|longer| - 1], l) && longer[|longer| - 1].loops[l] == run[|run| - 1].loops[l]
    ensures Enabled(longer[|longer| - 1], OwnStep(longer[|longer| - 1], l))
    decreases Work(run[|run| - 1])
  {
    var s := run[|run| - 1];
    longer := run;
    if !Enabled(s, OwnStep(s, l)) {
      var step := OthersCanMove(run, l);
      InternalStepsWork(s, step);
      OthersLeaveItAlone(s, step, l);
      hide IsRun, Next, Enabled, HeldUp, Work, OwnStep;
      longer := Continue(run, step);
      longer := HeldUpLoopProceeds(longer, l);
    }
  }

  lemma JoinedHold(loops: map<nat, Loop>)
    ensures Count(loops, LoopJoined) <= Count(loops, LoopHolds)
  {
    SubsetSize(Those(loops, LoopJoined), Those(loops, LoopHolds));
  }

  lemma SubsetSize(a: set<nat>, b: set<nat>)
    requires a <= b
    ensures |a| <= |b|
  {
    assert b == a + (b - a);
  }
}
