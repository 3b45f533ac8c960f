/** A real store performs the runs of module StoreRuns: what its file holds and what fn is given, operation by operation. */
module StoreDriver {
  import opened Batching
  import opened Options
  import opened StoreRuns
  import LocalStore

  /** One call: append the next result, or flush with this context and this answer of fn to each call. */
  datatype Request<!R> = Add | Replay(cancelled: nat -> bool, accepts: (nat, seq<R>) -> bool)

  /** Which results have lines that reach the scanner's limit. */
  function Long<R>(encode: R -> string, results: nat -> R): nat -> bool {
    (k: nat) => |encode(results(k))| >= LocalStore.MAX_TOKEN
  }

  function LimitsOf<R>(encode: R -> string, results: nat -> R, cap: nat): Limits {
    Limits(cap, Long(encode, results))
  }

  /** The lines of the results the operations named by ids appended. */
  function LinesOf<R>(encode: R -> string, results: nat -> R, ids: seq<nat>): seq<string> {
    Map(encode, Map(results, ids))
  }

  lemma LinesOfOneMore<R>(encode: R -> string, results: nat -> R, ids: seq<nat>, k: nat)
    ensures LinesOf(encode, results, ids + [k]) == LinesOf(encode, results, ids) + [encode(results(k))]
  {}

  /** A scan of the lines sees those of the results seen. */
  lemma {:induction false} VisibleIsSeen<R>(encode: R -> string, results: nat -> R, ids: seq<nat>)
    ensures LocalStore.Visible(LinesOf(encode, results, ids)) == LinesOf(encode, results, Seen(ids, Long(encode, results)))
    ensures forall k :: Long(encode, results)(k) <==> |encode(results(k))| >= 0x10_0000
  {
    var lines := LinesOf(encode, results, ids);
    if ids != [] {
      VisibleIsSeen(encode, results, ids[1..]);
      assert lines[1..] == LinesOf(encode, results, ids[1..]);
      assert lines[0] == encode(results(ids[0]));
      if !Long(encode, results)(ids[0]) {
        assert LinesOf(encode, results, [ids[0]] + Seen(ids[1..], Long(encode, results)))
            == [lines[0]] + LinesOf(encode, results, Seen(ids[1..], Long(encode, results)));
      }
    }
  }

  lemma LastLines<R>(encode: R -> string, results: nat -> R, ids: seq<nat>, n: nat)
    ensures LocalStore.LastN(LinesOf(encode, results, ids), n) == LinesOf(encode, results, LocalStore.LastN(ids, n))
  {}

  lemma DecodedLines<R(!new)>(encode: R -> string, decode: string -> Option<R>, results: nat -> R, ids: seq<nat>)
    requires LocalStore.Codec(encode, decode)
    ensures LocalStore.Decoded(decode, LinesOf(encode, results, ids)) == Map(results, ids)
  {
    hide LocalStore.Decoded;
    var rs := Map(results, ids);
    LocalStore.DecodedResults(encode, decode, rs);
    assert LinesOf(encode, results, ids) == seq(|rs|, i requires 0 <= i < |rs| => encode(rs[i]));
  }

  // ---- One flush ----

  /** The operation a flush amounts to, read off its outcome and its calls of fn. */
  function OpOf<R>(outcome: LocalStore.Outcome, calls: seq<seq<R>>): (op: Op)
    requires outcome == LocalStore.Rejected ==> calls != []
    ensures op.Flush?
  {
    Flush(if outcome == LocalStore.Rejected then |calls| - 1 else |calls|, outcome != LocalStore.Flushed)
  }

  /** What flush op of a real store did when a scan of its file saw the results named by seen. */
  ghost predicate Flushes<R>(results: nat -> R, seen: seq<nat>, request: Request<R>, op: Op, calls: seq<seq<R>>)
    requires request.Replay?
  {
    var batches := Batches(seen, LocalStore.FLUSH_BATCH);
    && op.Flush? && op.accepted <= |calls| <= |batches|
    && calls == MapAll(results, batches[..|calls|])
    && LocalStore.AllAccepted(request.accepts, calls[..op.accepted])
    && (op.accepted < |calls| ==> op.accepted == |calls| - 1 && !request.accepts(op.accepted, calls[op.accepted]))
    && (Completes(seen, op) <==> LocalStore.Live(request.cancelled, |seen|)
                                 && LocalStore.AllAccepted(request.accepts, MapAll(results, batches)))
  }

  lemma {:induction false} FlushesAsReported<R(!new)>(
      encode: R -> string, decode: string -> Option<R>, results: nat -> R, stored: seq<nat>,
      request: Request<R>, outcome: LocalStore.Outcome, calls: seq<seq<R>>)
    requires LocalStore.Codec(encode, decode) && request.Replay?
    requires LocalStore.FlushReport(decode, LocalStore.Visible(LinesOf(encode, results, stored)),
                                    request.cancelled, request.accepts, outcome, calls)
    ensures outcome == LocalStore.Rejected ==> calls != []
    ensures var seen := Seen(stored, Long(encode, results));
            && Flushes(results, seen, request, OpOf(outcome, calls), calls)
            && (Completes(seen, OpOf(outcome, calls)) <==> outcome == LocalStore.Flushed)
  {
    VisibleIsSeen(encode, results, stored);
    var seen := Seen(stored, Long(encode, results));
    DecodedLines(encode, decode, results, seen);
    BatchesCommute(results, seen, LocalStore.FLUSH_BATCH);
    hide LocalStore.Codec, LocalStore.Visible, LocalStore.Decoded, Batches, LinesOf, Map, MapAll, LocalStore.Live,
         LocalStore.AllAccepted, LocalStore.CancelledAt, Flushes, OpOf, Completes, Seen;
    var all := MapAll(results, Batches(seen, LocalStore.FLUSH_BATCH));
    assert Reports(all, |seen|, request, outcome, calls) by {
      assert |LinesOf(encode, results, seen)| == |seen|;
    }
    hide LocalStore.FlushReport;
    ReportedFlush(results, seen, request, outcome, calls);
  }

  /** What FlushReport says, once the lines are known to be the encoded results. */
  ghost predicate Reports<R>(
      all: seq<seq<R>>, lines: nat, request: Request<R>, outcome: LocalStore.Outcome, calls: seq<seq<R>>)
    requires request.Replay?
  {
    && calls <= all
    && (outcome == LocalStore.Flushed <==>
          LocalStore.Live(request.cancelled, lines) && LocalStore.AllAccepted(request.accepts, all))
    && (outcome == LocalStore.Flushed ==> calls == all)
    && (outcome == LocalStore.Cancelled ==> LocalStore.AllAccepted(request.accepts, calls))
    && (outcome == LocalStore.Rejected ==>
          && calls != [] && LocalStore.AllAccepted(request.accepts, calls[..|calls| - 1])
          && !request.accepts(|calls| - 1, calls[|calls| - 1]))
  }

  lemma ReportedFlush<R>(
      results: nat -> R, seen: seq<nat>, request: Request<R>, outcome: LocalStore.Outcome, calls: seq<seq<R>>)
    requires request.Replay?
    requires Reports(MapAll(results, Batches(seen, LocalStore.FLUSH_BATCH)), |seen|, request, outcome, calls)
    ensures outcome == LocalStore.Rejected ==> calls != []
    ensures Flushes(results, seen, request, OpOf(outcome, calls), calls)
    ensures Completes(seen, OpOf(outcome, calls)) <==> outcome == LocalStore.Flushed
  {
    hide Batches, LocalStore.AllAccepted, LocalStore.Live;
    var batches := Batches(seen, LocalStore.FLUSH_BATCH);
    var all := MapAll(results, batches);
    assert calls == all[..|calls|] == MapAll(results, batches[..|calls|]);
    assert calls[..|calls|] == calls;
  }

  /** The calls fn accepted, one after the other, are the results named by Delivered. */
  lemma {:induction false} AcceptedIsDelivered<R>(
      results: nat -> R, ops: seq<Op>, m: Limits, f: nat, request: Request<R>, calls: seq<seq<R>>)
    requires f < |ops| && request.Replay? && Flushes(results, Seen(Stored(ops[..f], m), m.long), request, ops[f], calls)
    ensures Concat(calls[..ops[f].accepted]) == Map(results, Delivered(ops, m, f))
  {
    hide Stored, Seen, Batches, Completes;
    var batches := Batches(Seen(Stored(ops[..f], m), m.long), LocalStore.FLUSH_BATCH);
    var n := ops[f].accepted;
    assert calls[..n] == MapAll(results, batches[..n]);
    ConcatCommutes(results, batches[..n]);
  }

  /** history is what the file held before each operation and at the end: the stored results, oldest first. */
  ghost predicate Holds<R>(encode: R -> string, results: nat -> R, ops: seq<Op>, m: Limits, history: seq<seq<string>>) {
    && |history| == |ops| + 1
    && forall j :: 0 <= j <= |ops| ==> history[j] == LinesOf(encode, results, Stored(ops[..j], m))
  }

  /** The operations are what the requests amount to, and calls[f] is what fn was given in operation f. */
  ghost predicate Performs<R>(
      requests: seq<Request<R>>, results: nat -> R, ops: seq<Op>, m: Limits, calls: seq<seq<seq<R>>>) {
    && |calls| == |ops| <= |requests|
    && forall f :: 0 <= f < |ops| ==> PerformsOne(requests[f], results, ops, m, f, calls[f])
  }

  ghost predicate PerformsOne<R>(
      request: Request<R>, results: nat -> R, ops: seq<Op>, m: Limits, f: nat, calls: seq<seq<R>>)
    requires f < |ops|
  {
    && (ops[f].Append? <==> request.Add?)
    && (request.Replay? ==>
          && Flushes(results, Seen(Stored(ops[..f], m), m.long), request, ops[f], calls)
          && Concat(calls[..ops[f].accepted]) == Map(results, Delivered(ops, m, f)))
  }

  lemma HoldsStep<R>(encode: R -> string, results: nat -> R, ops: seq<Op>, m: Limits, history: seq<seq<string>>,
                     op: Op, lines: seq<string>)
    requires Holds(encode, results, ops, m, history)
    requires lines == LinesOf(encode, results, Stored(ops + [op], m))
    ensures Holds(encode, results, ops + [op], m, history + [lines])
  {
    hide Stored, LinesOf;
    var longer := ops + [op];
    assert longer[..|longer|] == longer;
    forall j | 0 <= j <= |ops|
      ensures longer[..j] == ops[..j]
    {}
  }

  lemma PerformsStep<R>(requests: seq<Request<R>>, results: nat -> R, ops: seq<Op>, m: Limits, calls: seq<seq<seq<R>>>,
                        op: Op, given: seq<seq<R>>)
    requires Performs(requests, results, ops, m, calls) && |ops| < |requests|
    requires PerformsOne(requests[|ops|], results, ops + [op], m, |ops|, given)
    ensures Performs(requests, results, ops + [op], m, calls + [given])
  {
    var longer := ops + [op];
    forall f | 0 <= f < |ops|
      ensures PerformsOne(requests[f], results, longer, m, f, calls[f])
    {
      assert PerformsOne(requests[f], results, ops, m, f, calls[f]);
      assert longer[..f] == ops[..f];
      hide Stored, Flushes, Concat;
    }
    hide PerformsOne;
  }

  lemma AppendStep<R>(encode: R -> string, results: nat -> R, ops: seq<Op>, m: Limits, lines: seq<string>)
    requires m.long == Long(encode, results)
    requires var all := LinesOf(encode, results, Stored(ops, m)) + [encode(results(|ops|))];
             lines == if |LocalStore.Visible(all)| <= m.cap then all else LocalStore.LastN(LocalStore.Visible(all), m.cap)
    ensures lines == LinesOf(encode, results, Stored(ops + [Append], m))
  {
    var longer := ops + [Append];
    assert longer[..|ops|] == ops;
    var all := Stored(ops, m) + [|ops|];
    assert Stored(longer, m) == Kept(all, m);
    hide Stored;
    LinesOfOneMore(encode, results, Stored(ops, m), |ops|);
    VisibleIsSeen(encode, results, all);
    LastLines(encode, results, Seen(all, m.long), m.cap);
    assert |LinesOf(encode, results, Seen(all, m.long))| == |Seen(all, m.long)|;
    hide LinesOf, LocalStore.Visible, Seen, Long;
  }

  lemma FlushStep<R>(encode: R -> string, results: nat -> R, ops: seq<Op>, m: Limits, op: Op, lines: seq<string>)
    requires op.Flush?
    requires lines == if Completes(Seen(Stored(ops, m), m.long), op) then [] else LinesOf(encode, results, Stored(ops, m))
    ensures lines == LinesOf(encode, results, Stored(ops + [op], m))
  {
    var longer := ops + [op];
    assert longer[..|ops|] == ops;
    hide Completes, Seen;
    assert Stored(longer, m) == if Completes(Seen(Stored(ops, m), m.long), op) then [] else Stored(ops, m);
    assert LinesOf(encode, results, []) == [];
  }

  /** Performs the requests one after the other on an empty store: operation k appends results(k) or flushes. */
  method Perform<R(0, !new)>(store: LocalStore.LocalStore<R>, results: nat -> R, requests: seq<Request<R>>)
      returns (ops: seq<Op>, calls: seq<seq<seq<R>>>, ghost history: seq<seq<string>>)
    requires store.Valid() && store.lines == []
    modifies store, store.file
    ensures store.Valid() && |ops| == |requests|
    ensures var m := LimitsOf(store.encode, results, store.maxLines);
            && Holds(store.encode, results, ops, m, history) && history[|ops|] == store.lines
            && Performs(requests, results, ops, m, calls)
  {
    hide LocalStore.Visible, LocalStore.FlushReport, LinesOf, Stored, Delivered, Flushes, Concat, OpOf, Completes, Seen, Long;
    ghost var m := LimitsOf(store.encode, results, store.maxLines);
    ops, calls, history := [], [], [store.lines];
    NothingStored(store.encode, results, m);
    while |ops| < |requests|
      invariant |ops| <= |requests| && store.Valid()
      invariant Holds(store.encode, results, ops, m, history) && history[|ops|] == store.lines
      invariant Performs(requests, results, ops, m, calls)
      decreases |requests| - |ops|
    {
      var k := |ops|;
      var op, given := Append, [];
      assert ops[..k] == ops;
      match requests[k] {
        case Add =>
          store.Append(results(k));
          AppendStep(store.encode, results, ops, m, store.lines);
        case Replay(cancelled, accepts) =>
          var outcome;
          outcome, given := store.Flush(cancelled, accepts);
          FlushesAsReported(store.encode, store.decode, results, Stored(ops, m), requests[k], outcome, given);
          op := OpOf(outcome, given);
          FlushStep(store.encode, results, ops, m, op, store.lines);
          assert (ops + [op])[..k] == ops;
          AcceptedIsDelivered(results, ops + [op], m, k, requests[k], given);
      }
      HoldsStep(store.encode, results, ops, m, history, op, store.lines);
      PerformsStep(requests, results, ops, m, calls, op, given);
      ops, calls, history := ops + [op], calls + [given], history + [store.lines];
    }
  }

  lemma NothingStored<R>(encode: R -> string, results: nat -> R, m: Limits)
    ensures LinesOf(encode, results, Stored([], m)) == []
  {}

  // ---- Nothing is lost without a reason, of a real store ----

  /** The line of the result of operation k is in the file, at its place among the stored results. */
  ghost predicate InFile<R>(encode: R -> string, results: nat -> R, ops: seq<Op>, m: Limits, lines: seq<string>, k: nat) {
    && |lines| == |Stored(ops, m)|
    && exists i :: 0 <= i < |lines| && Stored(ops, m)[i] == k && lines[i] == encode(results(k))
  }

  /** Flush f completed, and the result of operation k is, at its place among the delivered results, one of those fn was
      given and accepted. */
  ghost predicate Accepted<R>(results: nat -> R, ops: seq<Op>, m: Limits, calls: seq<seq<seq<R>>>, k: nat, f: nat) {
    && k < f < |ops| == |calls| && CompletedAt(ops, m, f) && ops[f].accepted == |calls[f]|
    && |Concat(calls[f])| == |Delivered(ops, m, f)|
    && exists i :: 0 <= i < |Concat(calls[f])| && Delivered(ops, m, f)[i] == k && Concat(calls[f])[i] == results(k)
  }

  lemma DeliveredIsAccepted<R>(
      requests: seq<Request<R>>, results: nat -> R, ops: seq<Op>, m: Limits, calls: seq<seq<seq<R>>>, k: nat, f: nat)
    requires Performs(requests, results, ops, m, calls) && DeliveredAt(ops, m, k, f)
    ensures Accepted(results, ops, m, calls, k, f)
  {
    hide Concat, Delivered, Stored, Batches, Seen;
    assert PerformsOne(requests[f], results, ops, m, f, calls[f]);
    assert calls[f][..ops[f].accepted] == calls[f];
    var i :| 0 <= i < |Delivered(ops, m, f)| && Delivered(ops, m, f)[i] == k;
    assert Map(results, Delivered(ops, m, f))[i] == results(k);
  }

  /** At-least-once, of a real store: after any requests, every appended result is in the file, or was accepted by fn in a
      later flush that completed, or was evicted, or was cleared unseen behind a line that is too long. */
  lemma {:induction false} NothingIsLost<R(!new)>(
      encode: R -> string, results: nat -> R, requests: seq<Request<R>>, ops: seq<Op>, m: Limits,
      calls: seq<seq<seq<R>>>, history: seq<seq<string>>, k: nat)
    requires Holds(encode, results, ops, m, history) && Performs(requests, results, ops, m, calls)
    requires |ops| == |requests| && k < |requests| && requests[k].Add?
    ensures || InFile(encode, results, ops, m, history[|ops|], k)
            || (exists f :: Accepted(results, ops, m, calls, k, f))
            || (exists e :: EvictedAt(ops, m, k, e))
            || (exists f :: ClearedUnseenAt(ops, m, k, f))
  {
    assert PerformsOne(requests[k], results, ops, m, k, calls[k]);
    AtLeastOnce(ops, m, k);
    hide Performs, PerformsOne, Stored, DeliveredAt, EvictedAt, ClearedUnseenAt, Accepted;
    if k in Stored(ops, m) {
      var i :| 0 <= i < |Stored(ops, m)| && Stored(ops, m)[i] == k;
      assert ops[..|ops|] == ops;
      assert LinesOf(encode, results, Stored(ops, m))[i] == encode(results(k));
    } else if f :| DeliveredAt(ops, m, k, f) {
      DeliveredIsAccepted(requests, results, ops, m, calls, k, f);
    }
  }

  /** fn is given, in a flush that completes, exactly the stored results before the first line that is too long; the rest
      of the file is cleared without having been given to anyone. */
  lemma {:induction false} CompletedFlushGives<R(!new)>(
      requests: seq<Request<R>>, results: nat -> R, ops: seq<Op>, m: Limits, calls: seq<seq<seq<R>>>, f: nat, k: nat)
    requires Performs(requests, results, ops, m, calls)
    requires f < |ops| && CompletedAt(ops, m, f) && k in Stored(ops[..f], m)
    ensures Concat(calls[f]) == Map(results, Delivered(ops, m, f)) && Stored(ops[..f + 1], m) == []
    ensures k in Delivered(ops, m, f) <==> forall j :: j in Stored(ops[..f], m) && j <= k ==> !m.long(j)
  {
    LostExactly(ops, m, f, k);
    hide Concat, Delivered, Stored, Batches, Seen;
    assert PerformsOne(requests[f], results, ops, m, f, calls[f]);
    assert calls[f][..ops[f].accepted] == calls[f];
  }
}
