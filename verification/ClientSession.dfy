/** The client of main.go as interleaved steps: a sender loop and a receiver goroutine that share the pending map and
    the bounded results channel. Clock readings are nanoseconds. */
module ClientSession {
  import opened Words
  import opened RoundTripTime

  /** checksFirst tells Run, which looks for an empty map before it expires entries, from runBurst. */
  datatype Config = Config(count: nat, timeout: int, checksFirst: bool)

  datatype Pending = Pending(t1: int, sentAt: int)

  datatype Result =
    | Rtt(seqNo: uint32, t1: int, t2: int, t3: int, t4: int, rtt: nat)
    | SendFailed(seqNo: uint32)
    | TimedOut(seqNo: uint32, at: int)

  /** The sender works on packet i. */
  datatype Sender =
    | Ready(i: nat)                     // about to take packet i; finished when i is the count
    | Stamped(i: nat, t1: int)          // T1 read, not yet in the map
    | Inserted(i: nat)                  // in the map, about to write
    | WriteFailed(i: nat)               // about to delete the entry
    | Erased(i: nat)                    // about to post the failure

  datatype Receiver =
    | Reading(since: int)               // blocked in ReadFromUDP, deadline since + timeout
    | LookingUp(seqNo: uint32, t2: int, t3: int, t4: int)
    | Holding(seqNo: uint32, p: Pending, t2: int, t3: int, t4: int)  // deleted, about to post
    | Checking                          // timed out, about to look for an empty map
    | Waking                            // timed out, about to lock the map
    | Expiring(todo: set<uint32>)       // holds the lock, entries left to visit
    | Expired(seqNo: uint32, at: int, todo: set<uint32>)  // holds the lock, about to post the expiry
    | Exited(clean: bool, after: nat)   // after so many started packets; clean means the map was empty

  /** started, overwritten, doubled, t1s, quiet and both timeout counts record history; the code does not keep them. */
  datatype State = State(
    pending: map<uint32, Pending>, results: seq<Result>, sender: Sender, receiver: Receiver, now: int, closed: bool,
    started: nat,                       // entries put into the map
    overwritten: nat,                   // entries replaced because the sequence number wrapped around
    doubled: multiset<uint32>,          // failed writes whose entry the receiver had already removed
    t1s: map<uint32, int>,              // T1 of each sequence number
    quiet: int,                         // when the last packet was sent or the last datagram arrived
    timeouts: nat,                      // read timeouts at a later clock reading than that
    allTimeouts: nat)                   // read timeouts since then, one at the same reading included

  datatype Step =
    | Tick(d: nat)
    | Stamp | Insert | WriteOk | WriteFail | Erase | PostFailure
    | Datagram(seqNo: uint32, t2: int, t3: int) | Stray | TakeEntry | PostRtt
    | Timeout | Check | Lock | Visit(seqNo: uint32) | PostExpiry | Unlock | ReadError
    | Close

  function SeqNo(i: nat): uint32 {
    (i + 1) % TWO32
  }

  function Start(now: int): State {
    State(map[], [], Ready(0), Reading(now), now, false, 0, 0, multiset{}, map[], now, 0, 0)
  }

  predicate LockFree(s: State) {
    !s.receiver.Expiring? && !s.receiver.Expired?
  }

  /** A send on the results channel, whose capacity is the count, does not block. */
  predicate Room(c: Config, s: State) {
    |s.results| < c.count
  }

  predicate Enabled(c: Config, s: State, step: Step) {
    match step
    case Tick(_) => true
    case Stamp => s.sender.Ready? && s.sender.i < c.count
    case Insert => s.sender.Stamped? && LockFree(s)
    case WriteOk => s.sender.Inserted?
    case WriteFail => s.sender.Inserted?
    case Erase => s.sender.WriteFailed? && LockFree(s)
    case PostFailure => s.sender.Erased? && Room(c, s)
    case Datagram(_, _, _) => s.receiver.Reading?
    case Stray => s.receiver.Reading?
    case TakeEntry => s.receiver.LookingUp?
    case PostRtt => s.receiver.Holding? && Room(c, s)
    case Timeout => s.receiver.Reading? && s.now >= s.receiver.since + c.timeout
    case Check => s.receiver.Checking?
    case Lock => s.receiver.Waking?
    case Visit(q) => s.receiver.Expiring? && q in s.receiver.todo && q in s.pending
    case PostExpiry => s.receiver.Expired? && Room(c, s)
    case Unlock => s.receiver.Expiring? && s.receiver.todo == {}
    case ReadError => s.receiver.Reading?
    case Close => !s.closed && s.sender == Ready(c.count) && s.receiver.Exited?
  }

  function Next(c: Config, s: State, step: Step): State
    requires Enabled(c, s, step)
  {
    match step
    case Tick(d) => s.(now := s.now + d)
    case Stamp => s.(sender := Stamped(s.sender.i, s.now))
    case Insert =>
      var q, t1 := SeqNo(s.sender.i), s.sender.t1;
      s.(pending := s.pending[q := Pending(t1, t1)], sender := Inserted(s.sender.i), started := s.started + 1,
         overwritten := s.overwritten + (if q in s.pending then 1 else 0), t1s := s.t1s[q := t1],
         quiet := s.now, timeouts := 0, allTimeouts := 0)
    case WriteOk => s.(sender := Ready(s.sender.i + 1))
    case WriteFail => s.(sender := WriteFailed(s.sender.i))
    case Erase =>
      var q := SeqNo(s.sender.i);
      s.(pending := s.pending - {q}, sender := Erased(s.sender.i),
         doubled := s.doubled + (if q in s.pending then multiset{} else multiset{q}))
    case PostFailure => s.(results := s.results + [SendFailed(SeqNo(s.sender.i))], sender := Ready(s.sender.i + 1))
    case Datagram(q, t2, t3) => s.(receiver := LookingUp(q, t2, t3, s.now), quiet := s.now, timeouts := 0, allTimeouts := 0)
    case Stray => s.(receiver := Reading(s.now), quiet := s.now, timeouts := 0, allTimeouts := 0)
    case TakeEntry =>
      var r := s.receiver;
      if r.seqNo in s.pending then
        s.(pending := s.pending - {r.seqNo}, receiver := Holding(r.seqNo, s.pending[r.seqNo], r.t2, r.t3, r.t4))
      else s.(receiver := Reading(s.now))
    case PostRtt =>
      var r := s.receiver;
      s.(results := s.results + [Rtt(r.seqNo, r.p.t1, r.t2, r.t3, r.t4, RTTOfNanos(r.p.t1, r.t2, r.t3, r.t4))],
         receiver := Reading(s.now))
    case Timeout => s.(receiver := if c.checksFirst then Checking else Waking,
                        timeouts := s.timeouts + One(s.now > s.quiet), allTimeouts := s.allTimeouts + 1)
    case Check => s.(receiver := if s.pending == map[] then Exited(true, s.started) else Waking)
    case Lock => s.(receiver := Expiring(s.pending.Keys))
    case Visit(q) =>
      var todo := s.receiver.todo - {q};
      if s.now - s.pending[q].sentAt > 2 * c.timeout then
        s.(pending := s.pending - {q}, receiver := Expired(q, s.now, todo))
      else s.(receiver := Expiring(todo))
    case PostExpiry => s.(results := s.results + [TimedOut(s.receiver.seqNo, s.receiver.at)], receiver := Expiring(s.receiver.todo))
    case Unlock => s.(receiver := if s.pending == map[] then Exited(true, s.started) else Reading(s.now))
    case ReadError => s.(receiver := Exited(false, s.started))
    case Close => s.(closed := true)
  }

  ghost predicate StepsTo(c: Config, s: State, s': State) {
    exists step :: Enabled(c, s, step) && s' == Next(c, s, step)
  }

  /** run is a sequence of states, each reached from the one before by some step of some goroutine or of the clock. */
  ghost predicate IsRun(c: Config, run: seq<State>) {
    && run != [] && run[0] == Start(run[0].now)
    && forall k :: 0 <= k < |run| - 1 ==> StepsTo(c, run[k], run[k + 1])
  }

  // ---- Where a packet can be ----

  /** Entries removed from the map whose result is not posted yet. */
  function Hands(s: State): nat {
    One(s.sender.Erased?) + One(s.receiver.Holding?) + One(s.receiver.Expired?)
  }

  predicate Shape(c: Config, s: State) {
    && (match s.sender
        case Ready(i) => i <= c.count && s.started == i
        case Stamped(i, _) => i < c.count && s.started == i
        case Inserted(i) => i < c.count && s.started == i + 1
        case WriteFailed(i) => i < c.count && s.started == i + 1
        case Erased(i) => i < c.count && s.started == i + 1)
    && (s.receiver.Expiring? ==> s.receiver.todo <= s.pending.Keys)
    && (s.receiver.Expired? ==> s.receiver.todo <= s.pending.Keys && s.receiver.seqNo !in s.pending)
    && (s.closed ==> s.sender == Ready(c.count) && s.receiver.Exited?)
  }

  lemma ShapeKept(c: Config, s: State, step: Step)
    requires Shape(c, s) && Enabled(c, s, step)
    ensures Shape(c, Next(c, s, step))
  {}

  /** The ledger, with no assumption at all: every entry put into the map is still there, in a hand, posted, or was
      overwritten; a failed write that found its entry gone is posted on top of that. */
  predicate Ledger(s: State) {
    |s.results| + Hands(s) + |s.pending| + s.overwritten == s.started + |s.doubled|
  }

  lemma RemoveOne(m: map<uint32, Pending>, q: uint32)
    requires q in m
    ensures |m - {q}| == |m| - 1
  {
    assert (m - {q}).Keys == m.Keys - {q};
    assert |m.Keys - {q}| == |m.Keys| - 1;
  }

  lemma RemoveAny(m: map<uint32, Pending>, q: uint32)
    ensures |m - {q}| == |m| - (if q in m then 1 else 0)
  {
    if q in m {
      RemoveOne(m, q);
    } else {
      assert m - {q} == m;
    }
  }

  lemma AddOne(m: map<uint32, Pending>, q: uint32, p: Pending)
    ensures |m[q := p]| == |m| + (if q in m then 0 else 1)
  {
    assert m[q := p].Keys == m.Keys + {q};
    if q in m {
      assert m.Keys + {q} == m.Keys;
    }
  }

  /** How a step changes the number of entries in the map. */
  function Growth(s: State, step: Step): int {
    match step
    case Insert => if s.sender.Stamped? && SeqNo(s.sender.i) !in s.pending then 1 else 0
    case Erase => if s.sender.WriteFailed? && SeqNo(s.sender.i) in s.pending then -1 else 0
    case TakeEntry => if s.receiver.LookingUp? && s.receiver.seqNo in s.pending then -1 else 0
    case _ => 0
  }

  predicate Removes(c: Config, s: State, step: Step) {
    match step
    case Visit(q) => q in s.pending && s.now - s.pending[q].sentAt > 2 * c.timeout
    case _ => false
  }

  lemma PendingGrows(c: Config, s: State, step: Step)
    requires Enabled(c, s, step)
    ensures |Next(c, s, step).pending| == |s.pending| + Growth(s, step) - (if Removes(c, s, step) then 1 else 0)
  {
    match step {
      case Insert => AddOne(s.pending, SeqNo(s.sender.i), Pending(s.sender.t1, s.sender.t1));
      case Erase => RemoveAny(s.pending, SeqNo(s.sender.i));
      case TakeEntry => RemoveAny(s.pending, s.receiver.seqNo);
      case Visit(q) => RemoveAny(s.pending, q);
      case _ =>
    }
  }

  predicate BySender(step: Step) {
    step.Stamp? || step.Insert? || step.WriteOk? || step.WriteFail? || step.Erase? || step.PostFailure?
  }

  predicate ByReader(step: Step) {
    step.Datagram? || step.Stray? || step.TakeEntry? || step.PostRtt? || step.ReadError?
  }

  lemma LedgerKeptBySender(c: Config, s: State, step: Step)
    requires BySender(step) && Ledger(s) && Enabled(c, s, step)
    ensures Ledger(Next(c, s, step))
  {
    PendingGrows(c, s, step);
  }

  lemma LedgerKeptByReader(c: Config, s: State, step: Step)
    requires ByReader(step) && Ledger(s) && Enabled(c, s, step)
    ensures Ledger(Next(c, s, step))
  {
    PendingGrows(c, s, step);
  }

  lemma LedgerKept(c: Config, s: State, step: Step)
    requires Ledger(s) && Enabled(c, s, step)
    ensures Ledger(Next(c, s, step))
  {
    if BySender(step) {
      LedgerKeptBySender(c, s, step);
    } else if ByReader(step) {
      LedgerKeptByReader(c, s, step);
    } else {
      PendingGrows(c, s, step);
    }
  }

  function Rtts(results: seq<Result>): seq<nat> {
    if results == [] then []
    else
      var n := |results| - 1;
      Rtts(results[..n]) + (if results[n].Rtt? then [results[n].rtt] else [])
  }

  function Errors(results: seq<Result>): int {
    |results| - |Rtts(results)|
  }

  lemma RttsSnoc(results: seq<Result>, r: Result)
    ensures Rtts(results + [r]) == Rtts(results) + (if r.Rtt? then [r.rtt] else [])
  {
    assert (results + [r])[..|results|] == results;
  }

  lemma {:induction false} RttsAtMost(results: seq<Result>)
    ensures |Rtts(results)| <= |results|
  {
    if results != [] {
      RttsAtMost(results[..|results| - 1]);
    }
  }

  /** Round-trip times never outnumber the packets started, whatever fails. */
  predicate RttLedger(s: State) {
    |Rtts(s.results)| + One(s.receiver.Holding?) + |s.pending| <= s.started
  }

  /** The result a step posts. */
  function Posted(s: State, step: Step): seq<Result> {
    match step
    case PostFailure => if s.sender.Erased? then [SendFailed(SeqNo(s.sender.i))] else []
    case PostRtt =>
      var r := s.receiver;
      if r.Holding? then [Rtt(r.seqNo, r.p.t1, r.t2, r.t3, r.t4, RTTOfNanos(r.p.t1, r.t2, r.t3, r.t4))] else []
    case PostExpiry => if s.receiver.Expired? then [TimedOut(s.receiver.seqNo, s.receiver.at)] else []
    case _ => []
  }

  lemma ResultsGrow(c: Config, s: State, step: Step)
    requires Enabled(c, s, step)
    ensures Next(c, s, step).results == s.results + Posted(s, step)
    ensures |Rtts(Next(c, s, step).results)| == |Rtts(s.results)| + One(step.PostRtt?)
  {
    if Posted(s, step) != [] {
      RttsSnoc(s.results, Posted(s, step)[0]);
    } else {
      assert s.results + [] == s.results;
    }
  }

  lemma RttLedgerKept(c: Config, s: State, step: Step)
    requires RttLedger(s) && Enabled(c, s, step)
    ensures RttLedger(Next(c, s, step))
  {
    PendingGrows(c, s, step);
    ResultsGrow(c, s, step);
    hide Rtts;
    if BySender(step) {
      RttLedgerKeptBySender(c, s, step);
    }
  }

  lemma RttLedgerKeptBySender(c: Config, s: State, step: Step)
    requires BySender(step) && RttLedger(s) && Enabled(c, s, step)
    ensures RttLedger(Next(c, s, step))
  {
    PendingGrows(c, s, step);
    ResultsGrow(c, s, step);
    hide Rtts;
  }

  // ---- One sequence number at a time ----

  /** The packet that carries sequence number q, among the first 2^32. */
  function Index(q: uint32): nat {
    (q - 1) % TWO32
  }

  lemma IndexOfSeqNo(i: nat)
    requires i < TWO32
    ensures Index(SeqNo(i)) == i
    ensures forall q: uint32 :: Index(q) == i <==> q == SeqNo(i)
  {}

  predicate Known(s: State, q: uint32) {
    Index(q) < s.started
  }

  function Posts(results: seq<Result>, q: uint32): nat {
    if results == [] then 0
    else
      var n := |results| - 1;
      Posts(results[..n], q) + One(results[n].seqNo == q)
  }

  lemma PostsSnoc(results: seq<Result>, r: Result, q: uint32)
    ensures Posts(results + [r], q) == Posts(results, q) + One(r.seqNo == q)
  {
    assert (results + [r])[..|results|] == results;
  }

  predicate SenderHolds(s: State, q: uint32) {
    s.sender.Erased? && SeqNo(s.sender.i) == q
  }

  predicate ReceiverHolds(s: State, q: uint32) {
    (s.receiver.Holding? || s.receiver.Expired?) && s.receiver.seqNo == q
  }

  /** In how many places q is: the map, the sender's hand, the receiver's hand, and each post. */
  function Tally(s: State, q: uint32): nat {
    One(q in s.pending) + One(SenderHolds(s, q)) + One(ReceiverHolds(s, q)) + Posts(s.results, q)
  }

  predicate Accounted(s: State, q: uint32) {
    && Tally(s, q) == One(Known(s, q)) + s.doubled[q]
    && (!Known(s, q) ==> s.doubled[q] == 0)
  }

  lemma PostsGrow(c: Config, s: State, step: Step, q: uint32)
    requires Enabled(c, s, step)
    ensures Posts(Next(c, s, step).results, q)
         == Posts(s.results, q) + (if Posted(s, step) == [] then 0 else One(Posted(s, step)[0].seqNo == q))
  {
    ResultsGrow(c, s, step);
    if Posted(s, step) != [] {
      PostsSnoc(s.results, Posted(s, step)[0], q);
    } else {
      assert s.results + [] == s.results;
    }
  }

  lemma AccountedKeptBySender(c: Config, s: State, step: Step, q: uint32)
    requires BySender(step) && c.count <= TWO32 && Shape(c, s) && Accounted(s, q) && Enabled(c, s, step)
    ensures Accounted(Next(c, s, step), q)
  {
    PostsGrow(c, s, step, q);
    hide Posts;
    if step.Insert? {
      IndexOfSeqNo(s.sender.i);
    }
    if step.Erase? {
      IndexOfSeqNo(s.sender.i);
    }
  }

  lemma AccountedKeptByTake(c: Config, s: State, q: uint32)
    requires Accounted(s, q) && Enabled(c, s, TakeEntry)
    ensures Accounted(Next(c, s, TakeEntry), q)
  {
    hide Posts, Index;
  }

  lemma AccountedKeptByReader(c: Config, s: State, step: Step, q: uint32)
    requires ByReader(step) && Accounted(s, q) && Enabled(c, s, step)
    ensures Accounted(Next(c, s, step), q)
  {
    hide Posts, Index;
    if step.TakeEntry? {
      AccountedKeptByTake(c, s, q);
    } else {
      PostsGrow(c, s, step, q);
    }
  }

  lemma AccountedKeptByVisit(c: Config, s: State, step: Step, q: uint32)
    requires step.Visit? && Accounted(s, q) && Enabled(c, s, step)
    ensures Accounted(Next(c, s, step), q)
  {
    hide Posts, Index;
  }

  lemma AccountedKeptByPostExpiry(c: Config, s: State, q: uint32)
    requires Accounted(s, q) && Enabled(c, s, PostExpiry)
    ensures Accounted(Next(c, s, PostExpiry), q)
  {
    var s' := Next(c, s, PostExpiry);
    hide Posts, Index;
    assert Posts(s'.results, q) == Posts(s.results, q) + One(s.receiver.seqNo == q) by {
      PostsSnoc(s.results, TimedOut(s.receiver.seqNo, s.receiver.at), q);
    }
    assert ReceiverHolds(s, q) == (s.receiver.seqNo == q) && !ReceiverHolds(s', q);
    assert Known(s', q) == Known(s, q) && s'.pending == s.pending && s'.sender == s.sender && s'.doubled == s.doubled;
    hide Next, Enabled, ReceiverHolds, Known;
    assert Tally(s', q) == Tally(s, q);
  }

  lemma AccountedKept(c: Config, s: State, step: Step, q: uint32)
    requires c.count <= TWO32 && Shape(c, s) && Accounted(s, q) && Enabled(c, s, step)
    ensures Accounted(Next(c, s, step), q)
  {
    if BySender(step) {
      AccountedKeptBySender(c, s, step, q);
    } else if ByReader(step) {
      AccountedKeptByReader(c, s, step, q);
    } else if step.Visit? {
      AccountedKeptByVisit(c, s, step, q);
    } else if step.PostExpiry? {
      AccountedKeptByPostExpiry(c, s, q);
    } else {
      hide Posts, Index;
    }
  }

  // ---- Each result is about its own packet's T1 ----

  /** T1s are recorded for started packets only; entries and the entry in hand carry them; an entry expires only when
      it is more than two timeouts old. */
  ghost predicate OwnEntries(c: Config, s: State) {
    && (forall q :: q in s.t1s ==> Known(s, q))
    && (forall q :: q in s.pending ==> q in s.t1s && s.pending[q] == Pending(s.t1s[q], s.t1s[q]))
    && (s.receiver.Holding? ==> s.receiver.seqNo in s.t1s && s.receiver.p.t1 == s.t1s[s.receiver.seqNo])
    && (s.receiver.Expired? ==>
          s.receiver.seqNo in s.t1s && s.receiver.at > s.t1s[s.receiver.seqNo] + 2 * c.timeout)
  }

  predicate OwnResult(c: Config, t1s: map<uint32, int>, r: Result) {
    && (r.Rtt? ==> r.seqNo in t1s && r.t1 == t1s[r.seqNo] && r.rtt == RTTOfNanos(t1s[r.seqNo], r.t2, r.t3, r.t4))
    && (r.TimedOut? ==> r.seqNo in t1s && r.at > t1s[r.seqNo] + 2 * c.timeout)
  }

  ghost predicate OwnResults(c: Config, s: State) {
    forall k :: 0 <= k < |s.results| ==> OwnResult(c, s.t1s, s.results[k])
  }

  lemma InsertIsFresh(c: Config, s: State)
    requires c.count <= TWO32 && Shape(c, s) && s.sender.Stamped?
    ensures !Known(s, SeqNo(s.sender.i))
    ensures forall q :: Known(s, q) ==> q != SeqNo(s.sender.i)
  {
    IndexOfSeqNo(s.sender.i);
  }

  /** A recorded T1 never changes. */
  lemma T1sGrow(c: Config, s: State, step: Step)
    requires c.count <= TWO32 && Shape(c, s) && OwnEntries(c, s) && Enabled(c, s, step)
    ensures forall q :: q in s.t1s ==> q in Next(c, s, step).t1s && Next(c, s, step).t1s[q] == s.t1s[q]
  {
    if step.Insert? {
      InsertIsFresh(c, s);
    }
  }

  lemma OwnEntriesKeptByInsert(c: Config, s: State)
    requires c.count <= TWO32 && Shape(c, s) && OwnEntries(c, s) && Enabled(c, s, Insert)
    ensures OwnEntries(c, Next(c, s, Insert))
  {
    InsertIsFresh(c, s);
    IndexOfSeqNo(s.sender.i);
    hide Index;
  }

  lemma OwnEntriesKeptByReader(c: Config, s: State, step: Step)
    requires ByReader(step) && OwnEntries(c, s) && Enabled(c, s, step)
    ensures OwnEntries(c, Next(c, s, step))
  {
    hide Index;
  }

  lemma OwnEntriesKept(c: Config, s: State, step: Step)
    requires c.count <= TWO32 && Shape(c, s) && OwnEntries(c, s) && Enabled(c, s, step)
    ensures OwnEntries(c, Next(c, s, step))
  {
    hide Index, Shape;
    if step.Insert? {
      OwnEntriesKeptByInsert(c, s);
    } else if ByReader(step) {
      OwnEntriesKeptByReader(c, s, step);
    }
  }

  lemma OwnResultsKept(c: Config, s: State, step: Step)
    requires c.count <= TWO32 && Shape(c, s) && OwnEntries(c, s) && OwnResults(c, s) && Enabled(c, s, step)
    ensures OwnResults(c, Next(c, s, step))
  {
    T1sGrow(c, s, step);
    ResultsGrow(c, s, step);
    PostedIsOwn(c, s, step);
    var s' := Next(c, s, step);
    hide Next, Enabled, Posted, Rtts, OwnEntries, Shape;
    forall k | 0 <= k < |s'.results|
      ensures OwnResult(c, s'.t1s, s'.results[k])
    {
      assert k < |s.results| ==> s'.results[k] == s.results[k] && OwnResult(c, s.t1s, s.results[k]);
    }
  }

  lemma PostedIsOwn(c: Config, s: State, step: Step)
    requires OwnEntries(c, s)
    ensures forall k :: 0 <= k < |Posted(s, step)| ==> OwnResult(c, s.t1s, Posted(s, step)[k])
  {
    hide RTTOfNanos;
  }

  // ---- How long the receiver can go on ----

  /** k - 1 timeouts, for the k-th read timeout after a quiet moment. */
  function Gap(c: Config, k: nat): int {
    if k <= 1 then 0 else if k == 2 then c.timeout else 2 * c.timeout
  }

  predicate Clocked(c: Config, s: State) {
    && s.quiet <= s.now
    && (s.sender.Stamped? ==> s.sender.t1 <= s.now)
    && (forall q :: q in s.pending ==> s.pending[q].sentAt <= s.quiet)
  }

  /** After the k-th timeout since the last packet or datagram, more than k - 1 timeouts have passed; the third visit
      to the map empties it. */
  predicate Paced(c: Config, s: State) {
    match s.receiver
    case Reading(since) => since <= s.now && s.timeouts <= 2 && (s.timeouts >= 1 ==> since > s.quiet + Gap(c, s.timeouts))
    case LookingUp(_, _, _, _) => s.timeouts == 0
    case Holding(_, _, _, _, _) => s.timeouts == 0
    case Exited(_, _) => s.timeouts <= 3
    case Expiring(todo) => LatePace(c, s) && (s.timeouts == 3 ==> s.pending.Keys <= todo)
    case Expired(_, _, todo) => LatePace(c, s) && (s.timeouts == 3 ==> s.pending.Keys <= todo)
    case _ => LatePace(c, s)
  }

  predicate LatePace(c: Config, s: State) {
    s.timeouts <= 3 && (s.timeouts >= 1 ==> s.now > s.quiet + Gap(c, s.timeouts))
  }

  /** At most one timeout falls on the clock reading of the last packet or datagram itself. */
  predicate OneAtOnce(s: State) {
    && s.allTimeouts <= s.timeouts + 1
    && (s.receiver.Reading? && s.allTimeouts >= 1 ==> s.receiver.since >= s.quiet)
  }

  lemma OneAtOnceKept(c: Config, s: State, step: Step)
    requires c.timeout > 0 && Clocked(c, s) && OneAtOnce(s) && Enabled(c, s, step)
    ensures OneAtOnce(Next(c, s, step))
  {}

  lemma ClockedKept(c: Config, s: State, step: Step)
    requires Clocked(c, s) && Enabled(c, s, step)
    ensures Clocked(c, Next(c, s, step))
  {}

  lemma PacedKept(c: Config, s: State, step: Step)
    requires c.timeout >= 0 && Clocked(c, s) && Paced(c, s) && Enabled(c, s, step)
    ensures Paced(c, Next(c, s, step))
  {
    if BySender(step) {
      PacedKeptBySender(c, s, step);
    } else if ByReader(step) {
      PacedKeptByReader(c, s, step);
    }
  }

  lemma PacedKeptBySender(c: Config, s: State, step: Step)
    requires BySender(step) && c.timeout >= 0 && Paced(c, s) && Enabled(c, s, step)
    ensures Paced(c, Next(c, s, step))
  {}

  lemma PacedKeptByReader(c: Config, s: State, step: Step)
    requires ByReader(step) && c.timeout >= 0 && Clocked(c, s) && Paced(c, s) && Enabled(c, s, step)
    ensures Paced(c, Next(c, s, step))
  {}

  // ---- What is left when the receiver has gone ----

  /** Once the receiver has left an empty map, every entry is of a packet sent after that. */
  predicate LeftAfterExit(s: State) {
    s.receiver.Exited? ==>
      && s.receiver.after <= s.started
      && (s.receiver.clean ==> forall q :: q in s.pending ==> Index(q) >= s.receiver.after)
  }

  lemma LeftAfterExitKept(c: Config, s: State, step: Step)
    requires c.count <= TWO32 && Shape(c, s) && LeftAfterExit(s) && Enabled(c, s, step)
    ensures LeftAfterExit(Next(c, s, step))
  {
    if step.Insert? {
      IndexOfSeqNo(s.sender.i);
    }
    hide Index;
  }

  // ---- Every state of every run ----

  lemma StartIsFine(c: Config, now: int)
    ensures var s := Start(now);
            && Shape(c, s) && Ledger(s) && RttLedger(s) && OwnEntries(c, s) && OwnResults(c, s)
            && Clocked(c, s) && Paced(c, s) && LeftAfterExit(s)
    ensures forall q :: Accounted(Start(now), q)
  {}

  lemma LastStep(c: Config, run: seq<State>, k: nat) returns (step: Step)
    requires IsRun(c, run) && 0 < k < |run|
    ensures Enabled(c, run[k - 1], step) && run[k] == Next(c, run[k - 1], step)
  {
    assert StepsTo(c, run[k - 1], run[k - 1 + 1]);
    hide Next, Enabled;
    step :| Enabled(c, run[k - 1], step) && run[k] == Next(c, run[k - 1], step);
  }

  lemma {:induction false} RunLedgers(c: Config, run: seq<State>, k: nat)
    requires IsRun(c, run) && k < |run|
    ensures Shape(c, run[k]) && Ledger(run[k]) && RttLedger(run[k])
  {
    if k == 0 {
      StartIsFine(c, run[0].now);
    } else {
      RunLedgers(c, run, k - 1);
      var step := LastStep(c, run, k);
      ShapeKept(c, run[k - 1], step);
      LedgerKept(c, run[k - 1], step);
      RttLedgerKept(c, run[k - 1], step);
    }
  }

  lemma {:induction false} RunAccounts(c: Config, run: seq<State>, k: nat, q: uint32)
    requires c.count <= TWO32 && IsRun(c, run) && k < |run|
    ensures Accounted(run[k], q)
  {
    if k == 0 {
      StartIsFine(c, run[0].now);
    } else {
      RunAccounts(c, run, k - 1, q);
      RunLedgers(c, run, k - 1);
      var step := LastStep(c, run, k);
      AccountedKept(c, run[k - 1], step, q);
    }
  }

  lemma {:induction false} RunKeepsT1s(c: Config, run: seq<State>, k: nat)
    requires c.count <= TWO32 && IsRun(c, run) && k < |run|
    ensures OwnEntries(c, run[k]) && OwnResults(c, run[k]) && LeftAfterExit(run[k])
  {
    if k == 0 {
      StartIsFine(c, run[0].now);
    } else {
      RunKeepsT1s(c, run, k - 1);
      RunLedgers(c, run, k - 1);
      var step := LastStep(c, run, k);
      OwnEntriesKept(c, run[k - 1], step);
      OwnResultsKept(c, run[k - 1], step);
      LeftAfterExitKept(c, run[k - 1], step);
    }
  }

  lemma {:induction false} RunCountsTimeouts(c: Config, run: seq<State>, k: nat)
    requires c.timeout > 0 && IsRun(c, run) && k < |run|
    ensures OneAtOnce(run[k])
  {
    if k == 0 {
      assert run[0] == Start(run[0].now);
    } else {
      hide *;
      RunCountsTimeouts(c, run, k - 1);
      RunIsPaced(c, run, k - 1);
      var step := LastStep(c, run, k);
      OneAtOnceKept(c, run[k - 1], step);
    }
  }

  lemma {:induction false} RunIsPaced(c: Config, run: seq<State>, k: nat)
    requires c.timeout >= 0 && IsRun(c, run) && k < |run|
    ensures Clocked(c, run[k]) && Paced(c, run[k])
  {
    if k == 0 {
      StartIsFine(c, run[0].now);
    } else {
      RunIsPaced(c, run, k - 1);
      var step := LastStep(c, run, k);
      ClockedKept(c, run[k - 1], step);
      PacedKept(c, run[k - 1], step);
    }
  }
}
