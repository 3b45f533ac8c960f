/** The agent's config fan-out: poller -> configCh -> fan-out goroutine -> one channel per scheduler.
    Every channel holds at most one config. A run is any interleaving of the goroutines' steps. */
module ConfigBroadcast {

  /** Where the fan-out goroutine is: between configs, or about to send cfg to scheduler next. */
  datatype Fan<C> = Idle | Sending(cfg: C, next: nat)

  datatype State<C> = State(
    published: seq<C>,       // everything put into configCh, in order
    configCh: seq<C>,
    fan: Fan<C>,
    fanStopped: bool,
    chans: seq<seq<C>>,      // one channel per scheduler
    consumed: seq<seq<C>>,   // what each scheduler has read, in order; the last one is its cfg
    stopped: seq<bool>)      // schedulers that returned

  datatype Step<C> =
    | Publish(c: C)          // the poller sends a fetched config
    | Take                   // the fan-out receives from configCh
    | Send                   // the fan-out sends to the next scheduler
    | EndRound               // the fan-out has reached every scheduler
    | StopFan                // the context is done
    | Consume(i: nat)        // scheduler i receives
    | StopScheduler(i: nat)

  function Repeat<T>(x: T, n: nat): seq<T> {
    seq(n, _ => x)
  }

  /** The initial config is put into configCh and, as a seed, into every scheduler's channel. */
  function Start<C>(initial: C, schedulers: nat): State<C> {
    State([initial], [initial], Idle, false, Repeat([initial], schedulers), Repeat([], schedulers), Repeat(false, schedulers))
  }

  predicate Shaped<C>(s: State<C>) {
    |s.consumed| == |s.chans| && |s.stopped| == |s.chans|
  }

  /** Whether the step can happen: a send needs a free slot, a receive an element. */
  predicate Enabled<C>(s: State<C>, step: Step<C>)
    requires Shaped(s)
  {
    match step
    case Publish(_) => s.configCh == []
    case Take => !s.fanStopped && s.fan.Idle? && s.configCh != []
    case Send => !s.fanStopped && s.fan.Sending? && s.fan.next < |s.chans| && s.chans[s.fan.next] == []
    case EndRound => !s.fanStopped && s.fan.Sending? && s.fan.next == |s.chans|
    case StopFan => !s.fanStopped
    case Consume(i) => i < |s.chans| && !s.stopped[i] && s.chans[i] != []
    case StopScheduler(i) => i < |s.chans| && !s.stopped[i]
  }

  function Next<C>(s: State<C>, step: Step<C>): (s': State<C>)
    requires Shaped(s) && Enabled(s, step)
    ensures Shaped(s') && |s'.chans| == |s.chans|
  {
    match step
    case Publish(c) => s.(configCh := [c], published := s.published + [c])
    case Take => s.(configCh := s.configCh[1..], fan := Sending(s.configCh[0], 0))
    case Send => s.(chans := s.chans[s.fan.next := [s.fan.cfg]], fan := Sending(s.fan.cfg, s.fan.next + 1))
    case EndRound => s.(fan := Idle)
    case StopFan => s.(fanStopped := true)
    case Consume(i) => s.(chans := s.chans[i := s.chans[i][1..]], consumed := s.consumed[i := s.consumed[i] + [s.chans[i][0]]])
    case StopScheduler(i) => s.(stopped := s.stopped[i := true])
  }

  /** run is a sequence of states, each reached from the one before by some step. */
  ghost predicate IsRun<C(!new)>(initial: C, schedulers: nat, run: seq<State<C>>) {
    && run != [] && run[0] == Start(initial, schedulers)
    && forall k :: 0 <= k < |run| - 1 ==> StepsTo(run[k], run[k + 1])
  }

  ghost predicate StepsTo<C(!new)>(s: State<C>, s': State<C>) {
    Shaped(s) && exists step :: Enabled(s, step) && s' == Next(s, step)
  }

  // ---- What every step keeps ----

  function Held<C>(fan: Fan<C>): seq<C> {
    if fan.Idle? then [] else [fan.cfg]
  }

  /** The configs whose round is over. */
  function Rounds<C>(s: State<C>): int {
    |s.published| - |s.configCh| - |Held(s.fan)|
  }

  /** The configs sent to scheduler i so far, not counting its seed. */
  function Sent<C>(s: State<C>, i: nat): int {
    Rounds(s) + (if s.fan.Sending? && i < s.fan.next then 1 else 0)
  }

  /** The configs of finished rounds, then the one in the fan-out's hand, then the one in configCh, are all that was
      published; each scheduler's reads followed by its channel are its seed and the configs sent to it. */
  ghost predicate Inv<C>(initial: C, s: State<C>) {
    && Shaped(s) && |s.configCh| <= 1
    && 0 <= Rounds(s)
    && s.published[Rounds(s)..] == Held(s.fan) + s.configCh
    && (s.fan.Sending? ==> s.fan.next <= |s.chans|)
    && forall i :: 0 <= i < |s.chans| ==> Track(initial, s, i)
  }

  ghost predicate Track<C>(initial: C, s: State<C>, i: nat)
    requires Shaped(s) && i < |s.chans|
  {
    && |s.chans[i]| <= 1
    && 0 <= Sent(s, i) <= |s.published|
    && s.consumed[i] + s.chans[i] == [initial] + s.published[..Sent(s, i)]
  }

  lemma StartKeepsInv<C>(initial: C, schedulers: nat)
    ensures Inv(initial, Start(initial, schedulers))
  {}

  /** A step that leaves a scheduler's reads plus channel alone, and what was sent to it, keeps its track. */
  lemma TrackKept<C>(initial: C, s: State<C>, s': State<C>, i: nat)
    requires Shaped(s) && Shaped(s') && i < |s.chans| && i < |s'.chans| && Track(initial, s, i)
    requires s'.consumed[i] + s'.chans[i] == s.consumed[i] + s.chans[i] && |s'.chans[i]| <= 1
    requires Sent(s', i) == Sent(s, i) && s.published <= s'.published
    ensures Track(initial, s', i)
  {
    assert s'.published[..Sent(s, i)] == s.published[..Sent(s, i)];
  }

  lemma PublishKeepsInv<C>(initial: C, s: State<C>, c: C)
    requires Inv(initial, s) && Enabled(s, Publish(c))
    ensures Inv(initial, Next(s, Publish(c)))
  {
    var s' := Next(s, Publish(c));
    forall i | 0 <= i < |s'.chans| ensures Track(initial, s', i) {
      TrackKept(initial, s, s', i);
    }
    assert s'.published[Rounds(s')..] == s.published[Rounds(s)..] + [c];
  }

  lemma TakeKeepsInv<C>(initial: C, s: State<C>)
    requires Inv(initial, s) && Enabled(s, Take)
    ensures Inv(initial, Next(s, Take))
  {
    var s' := Next(s, Take);
    forall i | 0 <= i < |s'.chans| ensures Track(initial, s', i) {
      TrackKept(initial, s, s', i);
    }
  }

  lemma SendKeepsInv<C>(initial: C, s: State<C>)
    requires Inv(initial, s) && Enabled(s, Send)
    ensures Inv(initial, Next(s, Send))
  {
    var s' := Next(s, Send);
    var r := Rounds(s);
    assert s.published[r] == s.published[r..][0] == s.fan.cfg;
    forall i | 0 <= i < |s'.chans| ensures Track(initial, s', i) {
      assert Track(initial, s, i);
      if i == s.fan.next {
        assert s.published[..r + 1] == s.published[..r] + [s.fan.cfg];
        assert s.consumed[i] + [] == s.consumed[i];
      } else {
        TrackKept(initial, s, s', i);
      }
    }
  }

  lemma EndRoundKeepsInv<C>(initial: C, s: State<C>)
    requires Inv(initial, s) && Enabled(s, EndRound)
    ensures Inv(initial, Next(s, EndRound))
  {
    var s' := Next(s, EndRound);
    assert s'.published[Rounds(s')..] == s.published[Rounds(s)..][1..];
    forall i | 0 <= i < |s'.chans| ensures Track(initial, s', i) {
      TrackKept(initial, s, s', i);
    }
  }

  lemma ConsumeKeepsInv<C>(initial: C, s: State<C>, j: nat)
    requires Inv(initial, s) && Enabled(s, Consume(j))
    ensures Inv(initial, Next(s, Consume(j)))
  {
    var s' := Next(s, Consume(j));
    forall i | 0 <= i < |s'.chans| ensures Track(initial, s', i) {
      assert Track(initial, s, i);
      if i == j {
        assert s.chans[i] == [s.chans[i][0]] + s.chans[i][1..];
      }
      TrackKept(initial, s, s', i);
    }
  }

  lemma StopKeepsInv<C>(initial: C, s: State<C>, step: Step<C>)
    requires Inv(initial, s) && Enabled(s, step) && (step.StopFan? || step.StopScheduler?)
    ensures Inv(initial, Next(s, step))
  {
    var s' := Next(s, step);
    forall i | 0 <= i < |s'.chans| ensures Track(initial, s', i) {
      TrackKept(initial, s, s', i);
    }
  }

  lemma {:induction false} StepKeepsInv<C>(initial: C, s: State<C>, step: Step<C>)
    requires Inv(initial, s) && Enabled(s, step)
    ensures Inv(initial, Next(s, step))
  {
    hide Inv;
    match step {
      case Publish(c) => PublishKeepsInv(initial, s, c);
      case Take => TakeKeepsInv(initial, s);
      case Send => SendKeepsInv(initial, s);
      case EndRound => EndRoundKeepsInv(initial, s);
      case Consume(j) => ConsumeKeepsInv(initial, s, j);
      case _ => StopKeepsInv(initial, s, step);
    }
  }

  lemma {:induction false} RunKeepsInv<C(!new)>(initial: C, schedulers: nat, run: seq<State<C>>, k: nat)
    requires IsRun(initial, schedulers, run) && k < |run|
    ensures Inv(initial, run[k]) && |run[k].chans| == schedulers
  {
    if k == 0 {
      StartKeepsInv(initial, schedulers);
    } else {
      RunKeepsInv(initial, schedulers, run, k - 1);
      assert StepsTo(run[k - 1], run[k]);
      var step :| Enabled(run[k - 1], step) && run[k] == Next(run[k - 1], step);
      StepKeepsInv(initial, run[k - 1], step);
    }
  }

  // ---- What schedulers see ----

  /** In every state of every run each scheduler has read a prefix of the same sequence: its seed, then the published
      configs in the poller's order. */
  lemma {:induction false} SchedulersReadAPrefix<C(!new)>(initial: C, schedulers: nat, run: seq<State<C>>, k: nat, i: nat)
    requires IsRun(initial, schedulers, run) && k < |run| && i < schedulers
    ensures Inv(initial, run[k]) && i < |run[k].consumed|
    ensures run[k].consumed[i] <= [initial] + run[k].published
  {
    RunKeepsInv(initial, schedulers, run, k);
    var s := run[k];
    assert Track(initial, s, i);
    assert s.consumed[i] <= s.consumed[i] + s.chans[i] == [initial] + s.published[..Sent(s, i)];
    assert [initial] + s.published == ([initial] + s.published[..Sent(s, i)]) + s.published[Sent(s, i)..];
  }

  /** No scheduler is more than two configs ahead of another, and the poller is at most two ahead of any of them. */
  lemma {:induction false} SchedulersStayClose<C(!new)>(initial: C, schedulers: nat, run: seq<State<C>>, k: nat, i: nat, j: nat)
    requires IsRun(initial, schedulers, run) && k < |run| && i < schedulers && j < schedulers
    ensures Inv(initial, run[k]) && i < |run[k].consumed| && j < |run[k].consumed|
    ensures |run[k].consumed[i]| - |run[k].consumed[j]| <= 2
    ensures |run[k].published| - |run[k].consumed[i]| <= 2
  {
    RunKeepsInv(initial, schedulers, run, k);
    var s := run[k];
    assert Track(initial, s, i) && Track(initial, s, j);
    assert |s.consumed[i] + s.chans[i]| == 1 + Sent(s, i) && |s.consumed[j] + s.chans[j]| == 1 + Sent(s, j);
  }

  /** Once all channels are empty and the fan-out is between configs, every scheduler has read everything. */
  lemma {:induction false} NothingSkippedAtRest<C(!new)>(initial: C, schedulers: nat, run: seq<State<C>>, k: nat, i: nat)
    requires IsRun(initial, schedulers, run) && k < |run| && i < schedulers
    requires run[k].configCh == [] && run[k].fan.Idle?
    requires forall c :: c in run[k].chans ==> c == []
    ensures i < |run[k].consumed| && run[k].consumed[i] == [initial] + run[k].published
  {
    RunKeepsInv(initial, schedulers, run, k);
    var s := run[k];
    assert Track(initial, s, i);
    assert s.chans[i] in s.chans;
    assert s.published[..Sent(s, i)] == s.published;
  }

  // ---- In terms of steps ----

  /** steps[k] leads from run[k] to run[k + 1]. */
  ghost predicate Performs<C(!new)>(initial: C, schedulers: nat, run: seq<State<C>>, steps: seq<Step<C>>) {
    && |run| == |steps| + 1 && run[0] == Start(initial, schedulers)
    && forall k :: 0 <= k < |steps| ==>
         Shaped(run[k]) && Enabled(run[k], steps[k]) && run[k + 1] == Next(run[k], steps[k])
  }

  /** What the poller fetched in the first k steps. */
  function Fetched<C>(steps: seq<Step<C>>, k: nat): seq<C>
    requires k <= |steps|
  {
    if k == 0 then [] else Fetched(steps, k - 1) + (if steps[k - 1].Publish? then [steps[k - 1].c] else [])
  }

  /** How often scheduler i received in the first k steps. */
  function Reads<C>(steps: seq<Step<C>>, k: nat, i: nat): nat
    requires k <= |steps|
  {
    if k == 0 then 0
    else Reads(steps, k - 1, i) + (if steps[k - 1].Consume? && steps[k - 1].i == i then 1 else 0)
  }

  /** Runs are exactly what steps perform. */
  lemma {:induction false} RunsArePerformed<C(!new)>(initial: C, schedulers: nat, run: seq<State<C>>)
    ensures IsRun(initial, schedulers, run) <==> exists steps :: Performs(initial, schedulers, run, steps)
  {
    hide Enabled, Next;
    if IsRun(initial, schedulers, run) {
      var steps: seq<Step<C>> := [];
      while |steps| < |run| - 1
        invariant |steps| < |run|
        invariant forall k :: 0 <= k < |steps| ==>
                    Shaped(run[k]) && Enabled(run[k], steps[k]) && run[k + 1] == Next(run[k], steps[k])
      {
        var n := |steps|;
        assert StepsTo(run[n], run[n + 1]);
        var step :| Enabled(run[n], step) && run[n + 1] == Next(run[n], step);
        steps := steps + [step];
      }
      assert Performs(initial, schedulers, run, steps);
    }
    if steps :| Performs(initial, schedulers, run, steps) {
      forall k | 0 <= k < |run| - 1
        ensures StepsTo(run[k], run[k + 1])
      {
        assert Enabled(run[k], steps[k]);
      }
    }
  }

  /** What was published is the initial config and then what the poller fetched, in order, and a scheduler has read as
      many configs as it received. */
  lemma {:induction false} PublishedAreFetched<C(!new)>(
      initial: C, schedulers: nat, run: seq<State<C>>, steps: seq<Step<C>>, k: nat, i: nat)
    requires Performs(initial, schedulers, run, steps) && k < |run| && i < schedulers
    ensures i < |run[k].consumed| && |run[k].consumed| == |run[k].chans| == schedulers
    ensures run[k].published == [initial] + Fetched(steps, k)
    ensures |run[k].consumed[i]| == Reads(steps, k, i)
  {
    if k > 0 {
      PublishedAreFetched(initial, schedulers, run, steps, k - 1, i);
      assert Enabled(run[k - 1], steps[k - 1]) && run[k - 1 + 1] == Next(run[k - 1], steps[k - 1]);
    }
  }

  lemma SeedThenPublished<C>(read: seq<C>, initial: C, fetched: seq<C>)
    requires read <= [initial] + ([initial] + fetched)
    ensures |read| <= 2 + |fetched| && read == ([initial, initial] + fetched)[..|read|]
  {}

  /** What a scheduler has read: the initial config as its seed, the initial config again, and then what the poller
      fetched, as far as it received. */
  lemma {:induction false} SchedulersReadWhatIsFetched<C(!new)>(
      initial: C, schedulers: nat, run: seq<State<C>>, steps: seq<Step<C>>, k: nat, i: nat)
    requires Performs(initial, schedulers, run, steps) && k < |run| && i < schedulers
    ensures i < |run[k].consumed| && Reads(steps, k, i) <= 2 + |Fetched(steps, k)|
    ensures run[k].consumed[i] == ([initial, initial] + Fetched(steps, k))[..Reads(steps, k, i)]
  {
    RunsArePerformed(initial, schedulers, run);
    SchedulersReadAPrefix(initial, schedulers, run, k, i);
    PublishedAreFetched(initial, schedulers, run, steps, k, i);
    SeedThenPublished(run[k].consumed[i], initial, Fetched(steps, k));
    hide *;
  }

  lemma {:induction false} StaysStopped<C(!new)>(
      initial: C, schedulers: nat, run: seq<State<C>>, steps: seq<Step<C>>, j: nat, k: nat)
    requires Performs(initial, schedulers, run, steps) && j <= k < |run|
    ensures |run[k].stopped| == |run[j].stopped| == schedulers
    ensures run[j].fanStopped ==> run[k].fanStopped
    ensures forall i :: 0 <= i < schedulers && run[j].stopped[i] ==> run[k].stopped[i]
  {
    if k == 0 {
    } else if j < k {
      StaysStopped(initial, schedulers, run, steps, j, k - 1);
      assert Enabled(run[k - 1], steps[k - 1]) && run[k - 1 + 1] == Next(run[k - 1], steps[k - 1]);
    } else {
      StaysStopped(initial, schedulers, run, steps, j - 1, k - 1);
      assert Enabled(run[k - 1], steps[k - 1]) && run[k - 1 + 1] == Next(run[k - 1], steps[k - 1]);
    }
  }

  /** Once the fan-out has stopped it neither takes nor sends, and a scheduler that returned does not receive. */
  lemma {:induction false} StoppedDoNothing<C(!new)>(
      initial: C, schedulers: nat, run: seq<State<C>>, steps: seq<Step<C>>, j: nat, k: nat)
    requires Performs(initial, schedulers, run, steps) && j < k < |steps|
    ensures steps[j].StopFan? ==> !steps[k].Take? && !steps[k].Send? && !steps[k].EndRound?
    ensures steps[j].StopScheduler? ==> steps[k] != Consume(steps[j].i)
  {
    assert Enabled(run[j], steps[j]) && run[j + 1] == Next(run[j], steps[j]);
    assert Enabled(run[k], steps[k]);
    StaysStopped(initial, schedulers, run, steps, j + 1, k);
    hide Performs;
  }

  /** The distance two is reached: scheduler 0 reads its seed and the first config while scheduler 1 reads nothing. */
  lemma {:induction false} DistanceTwoHappens<C(!new)>(initial: C) returns (run: seq<State<C>>)
    ensures IsRun(initial, 2, run) && |run[|run| - 1].consumed| == 2
    ensures |run[|run| - 1].consumed[0]| == 2 && |run[|run| - 1].consumed[1]| == 0
  {
    var s0 := Start(initial, 2);
    var s1 := Next(s0, Consume(0));
    var s2 := Next(s1, Take);
    var s3 := Next(s2, Send);
    var s4 := Next(s3, Consume(0));
    run := [s0, s1, s2, s3, s4];
    assert StepsTo(s0, s1) && StepsTo(s1, s2) && StepsTo(s2, s3) && StepsTo(s3, s4);
  }
}
