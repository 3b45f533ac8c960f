/** Runs of the reflector together with the steps that make them: what its history counts, and what becomes of each kind of
    packet. */
module ReflectorTrace {
  import opened Words
  import opened Reflector

  /** steps[k] leads from run[k] to run[k + 1]. */
  ghost predicate Performs(run: seq<State>, steps: seq<Step>) {
    && |run| == |steps| + 1 && run[0] == Start(run[0].loops, run[0].hook)
    && (forall l :: l in run[0].loops ==> run[0].loops[l].Polling?)
    && forall k :: 0 <= k < |steps| ==> Enabled(run[k], steps[k]) && run[k + 1] == Next(run[k], steps[k])
  }

  lemma {:induction false} StepsOf(run: seq<State>) returns (steps: seq<Step>)
    requires IsRun(run)
    ensures Performs(run, steps)
  {
    hide Enabled, Next;
    steps := [];
    while |steps| < |run| - 1
      invariant |steps| < |run|
      invariant forall k :: 0 <= k < |steps| ==> Enabled(run[k], steps[k]) && run[k + 1] == Next(run[k], steps[k])
    {
      var step := LastStep(run, |steps| + 1);
      steps := steps + [step];
    }
  }

  /** Runs are exactly what steps perform. */
  lemma {:induction false} RunsArePerformed(run: seq<State>)
    ensures IsRun(run) <==> exists steps :: Performs(run, steps)
  {
    hide Enabled, Next;
    if IsRun(run) {
      var steps := StepsOf(run);
    }
    if steps :| Performs(run, steps) {
      forall k | 0 <= k < |run| - 1
        ensures StepsTo(run[k], run[k + 1])
      {
        assert Enabled(run[k], steps[k]);
      }
    }
  }

  /** How many of the first k steps are of a kind. */
  function HowMany(steps: seq<Step>, k: nat, kind: Step -> bool): nat
    requires k <= |steps|
  {
    if k == 0 then 0 else HowMany(steps, k - 1, kind) + One(kind(steps[k - 1]))
  }

  predicate Accepts(step: Step) { step.Accept? }
  predicate AcceptsValid(step: Step) { step.Accept? && step.valid }
  predicate AcceptsInvalid(step: Step) { step.Accept? && !step.valid }
  predicate Issues(step: Step) { step.Issue? }
  predicate Rejects(step: Step) { step.Reject? }
  predicate Writes(step: Step) { step.WriteOk? }
  predicate FailsToWrite(step: Step) { step.WriteFail? }
  predicate Counts(step: Step) { step.CountOne? }
  predicate CallsBackOn(step: Step) { step.CallBack? }

  /** The history the states carry is that of the steps. */
  ghost predicate Recorded(s: State, steps: seq<Step>, k: nat)
    requires k <= |steps|
  {
    && s.accepted == HowMany(steps, k, Accepts)
    && |s.issued| == HowMany(steps, k, Issues) && s.rejected == HowMany(steps, k, Rejects)
    && |s.sent| == HowMany(steps, k, Writes) && s.failed == HowMany(steps, k, FailsToWrite)
    && s.reflected == HowMany(steps, k, Counts)
    && s.callbacks == if s.hook then HowMany(steps, k, CallsBackOn) else 0
  }

  predicate ValidInFlight(l: Loop) { InFlight(l) && l.valid }
  predicate InvalidInFlight(l: Loop) { InFlight(l) && !l.valid }
  predicate ValidUnparsed(h: Handler) { h.Parsing? && h.valid }
  predicate InvalidUnparsed(h: Handler) { h.Parsing? && !h.valid }

  /** Where the valid packets are. */
  ghost predicate ValidSortedOut(s: State, steps: seq<Step>, k: nat)
    requires k <= |steps|
  {
    HowMany(steps, k, AcceptsValid)
    == HowMany(steps, k, Issues) + Count(s.loops, ValidInFlight) + Count(s.handlers, ValidUnparsed)
  }

  /** Where the others are. */
  ghost predicate InvalidSortedOut(s: State, steps: seq<Step>, k: nat)
    requires k <= |steps|
  {
    HowMany(steps, k, AcceptsInvalid)
    == HowMany(steps, k, Rejects) + Count(s.loops, InvalidInFlight) + Count(s.handlers, InvalidUnparsed)
  }

  /** No loop stops before the context is done. */
  ghost predicate EndsWhenDone(s: State, steps: seq<Step>, k: nat)
    requires k <= |steps|
  {
    && (s.done <==> exists j :: 0 <= j < k && steps[j].Cancel?)
    && forall l :: l in s.loops && Ended(s.loops[l]) ==> s.done
  }

  lemma OneMoreStep(steps: seq<Step>, k: nat, kind: Step -> bool)
    requires k < |steps|
    ensures HowMany(steps, k + 1, kind) == HowMany(steps, k, kind) + One(kind(steps[k]))
  {}

  lemma HistoryGrows(s: State, step: Step)
    requires Enabled(s, step)
    ensures var s' := Next(s, step);
            && s'.hook == s.hook && s'.accepted == s.accepted + One(step.Accept?)
            && |s'.issued| == |s.issued| + One(step.Issue?) && s'.rejected == s.rejected + One(step.Reject?)
            && |s'.sent| == |s.sent| + One(step.WriteOk?) && s'.failed == s.failed + One(step.WriteFail?)
            && s'.reflected == s.reflected + One(step.CountOne?)
            && s'.callbacks == s.callbacks + One(s.hook && step.CallBack?)
  {}

  lemma RecordedKept(s: State, steps: seq<Step>, k: nat)
    requires k < |steps| && Enabled(s, steps[k]) && Recorded(s, steps, k)
    ensures Recorded(Next(s, steps[k]), steps, k + 1)
  {
    HistoryGrows(s, steps[k]);
    hide Next, Enabled;
    OneMoreStep(steps, k, Accepts);
    OneMoreStep(steps, k, Issues);
    OneMoreStep(steps, k, Rejects);
    OneMoreStep(steps, k, Writes);
    OneMoreStep(steps, k, FailsToWrite);
    OneMoreStep(steps, k, Counts);
    OneMoreStep(steps, k, CallsBackOn);
    hide HowMany;
  }

  lemma ValidKept(s: State, steps: seq<Step>, k: nat)
    requires k < |steps| && Enabled(s, steps[k]) && ValidSortedOut(s, steps, k)
    ensures ValidSortedOut(Next(s, steps[k]), steps, k + 1)
  {
    LoopCount(s, steps[k], ValidInFlight);
    HandlerCount(s, steps[k], ValidUnparsed);
    OneMoreStep(steps, k, AcceptsValid);
    OneMoreStep(steps, k, Issues);
    hide Count, HowMany;
  }

  lemma InvalidKept(s: State, steps: seq<Step>, k: nat)
    requires k < |steps| && Enabled(s, steps[k]) && InvalidSortedOut(s, steps, k)
    ensures InvalidSortedOut(Next(s, steps[k]), steps, k + 1)
  {
    LoopCount(s, steps[k], InvalidInFlight);
    HandlerCount(s, steps[k], InvalidUnparsed);
    OneMoreStep(steps, k, AcceptsInvalid);
    OneMoreStep(steps, k, Rejects);
    hide Count, HowMany;
  }

  lemma EndsWhenDoneKept(s: State, steps: seq<Step>, k: nat)
    requires k < |steps| && Enabled(s, steps[k]) && EndsWhenDone(s, steps, k)
    ensures EndsWhenDone(Next(s, steps[k]), steps, k + 1)
  {}

  lemma StartIsRecorded(s: State, steps: seq<Step>)
    requires s == Start(s.loops, s.hook) && forall l :: l in s.loops ==> s.loops[l].Polling?
    ensures Recorded(s, steps, 0) && ValidSortedOut(s, steps, 0) && InvalidSortedOut(s, steps, 0) && EndsWhenDone(s, steps, 0)
  {
    NoneOf(s.loops, ValidInFlight);
    NoneOf(s.handlers, ValidUnparsed);
    NoneOf(s.loops, InvalidInFlight);
    NoneOf(s.handlers, InvalidUnparsed);
  }

  /** In every state of every run. */
  lemma {:induction false} StepsAreRecorded(run: seq<State>, steps: seq<Step>, k: nat)
    requires Performs(run, steps) && k < |run|
    ensures Recorded(run[k], steps, k) && ValidSortedOut(run[k], steps, k) && InvalidSortedOut(run[k], steps, k)
    ensures EndsWhenDone(run[k], steps, k)
  {
    if k == 0 {
      StartIsRecorded(run[0], steps);
    } else {
      StepsAreRecorded(run, steps, k - 1);
      assert Enabled(run[k - 1], steps[k - 1]) && run[k - 1 + 1] == Next(run[k - 1], steps[k - 1]);
      hide *;
      RecordedKept(run[k - 1], steps, k - 1);
      ValidKept(run[k - 1], steps, k - 1);
      InvalidKept(run[k - 1], steps, k - 1);
      EndsWhenDoneKept(run[k - 1], steps, k - 1);
    }
  }

  /** Only valid packets are numbered and only others are rejected, and once nothing is on the way, all of them have been:
      each valid one led to an answer written, counted and called back for, or to a failed write. */
  lemma {:induction false} EveryPacketIsSortedOut(run: seq<State>, steps: seq<Step>, k: nat)
    requires Performs(run, steps) && k < |run|
    ensures HowMany(steps, k, Issues) <= HowMany(steps, k, AcceptsValid)
    ensures HowMany(steps, k, Rejects) <= HowMany(steps, k, AcceptsInvalid)
    ensures run[k].handlers == map[] && (forall l :: l in run[k].loops ==> run[k].loops[l].Polling? || Ended(run[k].loops[l])) ==>
              && HowMany(steps, k, Issues) == HowMany(steps, k, AcceptsValid)
              && HowMany(steps, k, Rejects) == HowMany(steps, k, AcceptsInvalid)
              && HowMany(steps, k, Writes) + HowMany(steps, k, FailsToWrite) == HowMany(steps, k, AcceptsValid)
              && HowMany(steps, k, Counts) == HowMany(steps, k, Writes)
              && run[k].reflected == HowMany(steps, k, Writes)
              && run[k].callbacks == if run[k].hook then HowMany(steps, k, Writes) else 0
  {
    StepsAreRecorded(run, steps, k);
    RunsArePerformed(run);
    ReflectionsAddUp(run, k);
    hide Performs, IsRun, HowMany, EndsWhenDone;
    var s := run[k];
    if s.handlers == map[] && forall l :: l in s.loops ==> s.loops[l].Polling? || Ended(s.loops[l]) {
      NoneOf(s.loops, ValidInFlight);
      NoneOf(s.handlers, ValidUnparsed);
      NoneOf(s.loops, InvalidInFlight);
      NoneOf(s.handlers, InvalidUnparsed);
    }
    hide Count;
  }

  /** A loop drains or returns only after the context is done. */
  lemma {:induction false} LoopsEndAfterCancel(run: seq<State>, steps: seq<Step>, k: nat, l: nat)
    requires Performs(run, steps) && k < |run| && l in run[k].loops && Ended(run[k].loops[l])
    ensures exists j :: 0 <= j < k && steps[j] == Cancel
  {
    StepsAreRecorded(run, steps, k);
    hide Performs, Recorded, ValidSortedOut, InvalidSortedOut;
  }
}
