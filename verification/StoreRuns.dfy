/** Whole runs of a store: appends and flushes, in any order and with any outcome. What a run keeps, delivers and loses,
    result by result. Module StoreDriver shows that a real store does exactly this. */
module StoreRuns {
  import opened Batching
  import LocalStore

  /** A flush that made fn accept this many batches before it refused one, was cancelled, or had seen them all.
      stopped: fn refused, or the context was done. */
  datatype Op = Append | Flush(accepted: nat, stopped: bool)

  /** The store's cap, and which results have lines that are too long to be scanned. Results are named by the
      operation that appended them. */
  datatype Limits = Limits(cap: nat, long: nat -> bool)

  // ---- What a scan sees ----

  /** The results a scan of the file sees: those before the first long one. */
  function Seen(ids: seq<nat>, long: nat -> bool): seq<nat> {
    if ids == [] || long(ids[0]) then [] else [ids[0]] + Seen(ids[1..], long)
  }

  /** The seen results are the front part without long ones, and end at the first long one. */
  lemma {:induction false} SeenIsFront(ids: seq<nat>, long: nat -> bool)
    ensures var n := |Seen(ids, long)|;
            && n <= |ids| && Seen(ids, long) == ids[..n]
            && (forall i :: 0 <= i < n ==> !long(ids[i]))
            && (n < |ids| ==> long(ids[n]))
  {
    if ids != [] && !long(ids[0]) {
      SeenIsFront(ids[1..], long);
      assert ids == [ids[0]] + ids[1..];
    }
  }

  lemma {:induction false} SeenUpTo(front: seq<nat>, rest: seq<nat>, long: nat -> bool)
    requires forall i :: 0 <= i < |front| ==> !long(front[i])
    ensures Seen(front + rest, long) == front + Seen(rest, long)
  {
    if front == [] {
      assert front + rest == rest;
    } else {
      SeenUpTo(front[1..], rest, long);
      assert (front + rest)[1..] == front[1..] + rest;
      assert front == [front[0]] + front[1..];
    }
  }

  /** One more result is seen exactly when it is short and all before it are seen. */
  lemma {:induction false} SeenOneMore(ids: seq<nat>, k: nat, long: nat -> bool)
    ensures Seen(ids + [k], long) == if Seen(ids, long) == ids && !long(k) then ids + [k] else Seen(ids, long)
  {
    SeenIsFront(ids, long);
    var n := |Seen(ids, long)|;
    SeenUpTo(ids[..n], ids[n..] + [k], long);
    assert ids + [k] == ids[..n] + (ids[n..] + [k]);
    if n == |ids| {
      assert ids[n..] + [k] == [k];
      assert [k][1..] == [];
    } else {
      assert (ids[n..] + [k])[0] == ids[n];
    }
  }

  // ---- What a run stores and delivers ----

  /** fn accepted every batch of the results seen and nothing stopped the flush: the file is cleared. */
  predicate Completes(seen: seq<nat>, op: Op)
    requires op.Flush?
  {
    !op.stopped && op.accepted >= |Batches(seen, LocalStore.FLUSH_BATCH)|
  }

  /** The cap as the store enforces it: on what a scan sees, and only if that is too much. */
  function Kept(all: seq<nat>, m: Limits): seq<nat> {
    if |Seen(all, m.long)| <= m.cap then all else LocalStore.LastN(Seen(all, m.long), m.cap)
  }

  /** The results in the file, oldest first. */
  function Stored(ops: seq<Op>, m: Limits): seq<nat> {
    if ops == [] then []
    else
      var n := |ops| - 1;
      var before := Stored(ops[..n], m);
      if ops[n].Append? then Kept(before + [n], m)
      else if Completes(Seen(before, m.long), ops[n]) then []
      else before
  }

  predicate CompletedAt(ops: seq<Op>, m: Limits, f: nat)
    requires f < |ops|
  {
    ops[f].Flush? && Completes(Seen(Stored(ops[..f], m), m.long), ops[f])
  }

  /** The results fn accepted during flush f. */
  function Delivered(ops: seq<Op>, m: Limits, f: nat): seq<nat>
    requires f < |ops| && ops[f].Flush?
  {
    var batches := Batches(Seen(Stored(ops[..f], m), m.long), LocalStore.FLUSH_BATCH);
    Concat(if ops[f].accepted <= |batches| then batches[..ops[f].accepted] else batches)
  }

  /** No flush completed among operations from, ..., |ops| - 1. */
  predicate NoneCompleted(ops: seq<Op>, m: Limits, from: nat) {
    forall f :: from <= f < |ops| ==> !CompletedAt(ops, m, f)
  }

  lemma CompletedInPrefix(ops: seq<Op>, m: Limits, n: nat, f: nat)
    requires f < n <= |ops|
    ensures CompletedAt(ops[..n], m, f) == CompletedAt(ops, m, f)
  {
    assert ops[..n][..f] == ops[..f];
  }

  lemma NoneCompletedStep(ops: seq<Op>, m: Limits, k: nat)
    requires k < |ops|
    ensures NoneCompleted(ops, m, k) <==> NoneCompleted(ops[..|ops| - 1], m, k) && !CompletedAt(ops, m, |ops| - 1)
  {
    var n := |ops| - 1;
    forall f | 0 <= f < n
      ensures CompletedAt(ops[..n], m, f) == CompletedAt(ops, m, f)
    {
      CompletedInPrefix(ops, m, n, f);
    }
    hide CompletedAt;
    if NoneCompleted(ops[..n], m, k) && !CompletedAt(ops, m, n) {
      forall f | k <= f < |ops|
        ensures !CompletedAt(ops, m, f)
      {
        if f < n {
          assert !CompletedAt(ops[..n], m, f);
        }
      }
    }
    if NoneCompleted(ops, m, k) {
      assert !CompletedAt(ops, m, n);
    }
  }

  /** The appends among operations from, ..., |ops| - 1. */
  function AppendsFrom(ops: seq<Op>, from: nat): seq<nat> {
    if |ops| <= from then []
    else AppendsFrom(ops[..|ops| - 1], from) + (if ops[|ops| - 1].Append? then [|ops| - 1] else [])
  }

  /** The appends since the last completed flush. */
  function Since(ops: seq<Op>, m: Limits): seq<nat> {
    if ops == [] then []
    else
      var n := |ops| - 1;
      if ops[n].Append? then Since(ops[..n], m) + [n]
      else if CompletedAt(ops, m, n) then []
      else Since(ops[..n], m)
  }

  // ---- The ring ----

  lemma LastOfMore(s: seq<nat>, k: nat, cap: nat)
    ensures LocalStore.LastN(LocalStore.LastN(s, cap) + [k], cap) == LocalStore.LastN(s + [k], cap)
  {}

  /** s, of which a scan sees all before the first long one, cut to the last cap of those, the rest kept. */
  function Ring(s: seq<nat>, m: Limits): seq<nat> {
    SeenIsFront(s, m.long);
    LocalStore.LastN(Seen(s, m.long), m.cap) + s[|Seen(s, m.long)|..]
  }

  lemma SeenInRing(s: seq<nat>, m: Limits)
    ensures Seen(Ring(s, m), m.long) == LocalStore.LastN(Seen(s, m.long), m.cap)
  {
    SeenIsFront(s, m.long);
    var n := |Seen(s, m.long)|;
    SeenUpTo(LocalStore.LastN(Seen(s, m.long), m.cap), s[n..], m.long);
    assert Seen(s[n..], m.long) == [];
  }

  lemma {:induction false} RingGrows(s: seq<nat>, k: nat, m: Limits)
    ensures Kept(Ring(s, m) + [k], m) == Ring(s + [k], m)
  {
    SeenIsFront(s, m.long);
    SeenInRing(s, m);
    SeenOneMore(s, k, m.long);
    SeenOneMore(Ring(s, m), k, m.long);
    hide Seen;
    var n := |Seen(s, m.long)|;
    if n == |s| {
      assert s[n..] == [] && Ring(s, m) == LocalStore.LastN(s, m.cap) && Seen(s, m.long) == s;
      LastOfMore(s, k, m.cap);
      if m.long(k) {
        assert (s + [k])[n..] == [k];
      } else {
        assert (s + [k])[n + 1..] == [];
      }
    } else {
      assert |Ring(s, m)| > |Seen(Ring(s, m), m.long)|;
      assert (s + [k])[n..] == s[n..] + [k];
    }
  }

  /** The file always holds, of the results appended since the last completed flush, the last cap before the first long
      one, and everything from that one on. Without long results these are the last cap. */
  lemma {:induction false} RingHoldsTheLatest(ops: seq<Op>, m: Limits)
    ensures Stored(ops, m) == Ring(Since(ops, m), m)
  {
    if ops == [] {
      assert Ring([], m) == [];
    } else {
      var n := |ops| - 1;
      RingHoldsTheLatest(ops[..n], m);
      RingGrows(Since(ops[..n], m), n, m);
      assert Ring([], m) == [];
      hide Ring, Kept, Completes, Seen;
    }
  }

  lemma {:induction false} SinceIsIncreasing(ops: seq<Op>, m: Limits)
    ensures forall i, j :: 0 <= i < j < |Since(ops, m)| ==> Since(ops, m)[i] < Since(ops, m)[j]
    ensures forall i :: 0 <= i < |Since(ops, m)| ==> Since(ops, m)[i] < |ops| && ops[Since(ops, m)[i]].Append?
  {
    hide CompletedAt;
    if ops != [] {
      SinceIsIncreasing(ops[..|ops| - 1], m);
    }
  }

  lemma {:induction false} StoredIsIncreasing(ops: seq<Op>, m: Limits)
    ensures forall i, j :: 0 <= i < j < |Stored(ops, m)| ==> Stored(ops, m)[i] < Stored(ops, m)[j]
  {
    RingHoldsTheLatest(ops, m);
    SinceIsIncreasing(ops, m);
    var since := Since(ops, m);
    hide Stored, Since;
    RingIsSlice(since, m);
  }

  /** The ring leaves out a stretch: its elements keep their order. */
  lemma RingIsSlice(s: seq<nat>, m: Limits)
    ensures var n := |Seen(s, m.long)|;
            var skipped := if n <= m.cap then 0 else n - m.cap;
            skipped <= n <= |s| && Ring(s, m) == s[skipped..]
  {
    SeenIsFront(s, m.long);
    hide Seen;
    var n := |Seen(s, m.long)|;
    var skipped := if n <= m.cap then 0 else n - m.cap;
    assert s[..n][skipped..] + s[n..] == s[skipped..];
  }

  lemma SinceStep(ops: seq<Op>, m: Limits, from: nat)
    requires from < |ops|
    ensures var n := |ops| - 1;
            && Since(ops, m) == (if ops[n].Append? then Since(ops[..n], m) + [n]
                                 else if CompletedAt(ops, m, n) then [] else Since(ops[..n], m))
            && AppendsFrom(ops, from) == AppendsFrom(ops[..n], from) + (if ops[n].Append? then [n] else [])
  {}

  /** k stands in since, and what follows it there is later. */
  predicate Followed(since: seq<nat>, k: nat, later: seq<nat>) {
    |later| < |since| && since[|since| - 1 - |later|] == k && since[|since| - |later|..] == later
  }

  lemma FollowedByMore(since: seq<nat>, k: nat, later: seq<nat>, n: nat)
    requires Followed(since, k, later)
    ensures Followed(since + [n], k, later + [n])
  {}

  lemma StillIn(since: seq<nat>, k: nat, n: nat)
    requires k != n
    ensures k in since + [n] <==> k in since
  {}

  /** Where an append stands among those since the last completed flush: the later ones follow it. */
  lemma {:induction false} PlaceInSince(ops: seq<Op>, m: Limits, k: nat)
    requires k < |ops| && ops[k].Append?
    ensures k in Since(ops, m) <==> NoneCompleted(ops, m, k)
    ensures NoneCompleted(ops, m, k) ==> Followed(Since(ops, m), k, AppendsFrom(ops, k + 1))
  {
    var n := |ops| - 1;
    if k == n {
      LastAppend(ops, m);
    } else {
      hide CompletedAt, NoneCompleted, Since, AppendsFrom, Followed;
      PlaceInSince(ops[..n], m, k);
      NoneCompletedStep(ops, m, k);
      SinceStep(ops, m, k + 1);
      if ops[n].Append? {
        NotCompletedByAppend(ops, m);
        StillIn(Since(ops[..n], m), k, n);
        if NoneCompleted(ops, m, k) {
          FollowedByMore(Since(ops[..n], m), k, AppendsFrom(ops[..n], k + 1), n);
        }
      } else {
        assert AppendsFrom(ops[..n], k + 1) + [] == AppendsFrom(ops[..n], k + 1);
      }
    }
  }

  lemma LastAppend(ops: seq<Op>, m: Limits)
    requires ops != [] && ops[|ops| - 1].Append?
    ensures |ops| - 1 in Since(ops, m) && NoneCompleted(ops, m, |ops| - 1)
    ensures Followed(Since(ops, m), |ops| - 1, AppendsFrom(ops, |ops|))
  {
    var n := |ops| - 1;
    NotCompletedByAppend(ops, m);
    assert Since(ops, m)[|Since(ops, m)| - 1] == n;
    hide CompletedAt;
  }

  lemma NotCompletedByAppend(ops: seq<Op>, m: Limits)
    requires ops != [] && ops[|ops| - 1].Append?
    ensures !CompletedAt(ops, m, |ops| - 1)
  {
    hide Stored, Completes;
  }

  /** A long result appended no later than k, and no completed flush since: k is invisible to the cap and to fn. */
  predicate Hidden(ops: seq<Op>, m: Limits, k: nat) {
    k !in Seen(Since(ops, m), m.long)
  }

  /** A result is in the file exactly while no flush has completed since it was appended and, unless it is hidden, fewer
      than cap results have been appended after it before the next long one. */
  lemma {:induction false} StoredExactly(ops: seq<Op>, m: Limits, k: nat)
    requires k < |ops| && ops[k].Append?
    ensures k in Stored(ops, m) <==>
            NoneCompleted(ops, m, k) && (Hidden(ops, m, k) || |Seen(AppendsFrom(ops, k + 1), m.long)| < m.cap)
  {
    hide Stored, NoneCompleted;
    RingHoldsTheLatest(ops, m);
    PlaceInSince(ops, m, k);
    SinceIsIncreasing(ops, m);
    var since, later := Since(ops, m), AppendsFrom(ops, k + 1);
    RingIsSlice(since, m);
    if NoneCompleted(ops, m, k) {
      PlaceInRing(since, later, k, m);
    }
    hide Since, AppendsFrom, Ring, Seen;
  }

  lemma {:induction false} PlaceInRing(s: seq<nat>, later: seq<nat>, k: nat, m: Limits)
    requires |later| < |s| && s[|s| - 1 - |later|] == k && s[|s| - |later|..] == later
    requires forall i, j :: 0 <= i < j < |s| ==> s[i] < s[j]
    ensures k in Ring(s, m) <==> k !in Seen(s, m.long) || |Seen(later, m.long)| < m.cap
  {
    hide Seen, Ring;
    RingIsSlice(s, m);
    SeenIsFront(s, m.long);
    var n, at := |Seen(s, m.long)|, |s| - 1 - |later|;
    if at < n {
      assert s == s[..at + 1] + later;
      SeenUpTo(s[..at + 1], later, m.long);
      assert Seen(s, m.long)[at] == k;
    }
    var skipped := if n <= m.cap then 0 else n - m.cap;
    if at >= skipped {
      assert s[skipped..][at - skipped] == k;
    }
  }

  // ---- Deliveries ----

  lemma DeliveredWhenCompleted(ops: seq<Op>, m: Limits, f: nat)
    requires f < |ops| && CompletedAt(ops, m, f)
    ensures Delivered(ops, m, f) == Seen(Stored(ops[..f], m), m.long)
  {
    hide Stored, Batches, Seen;
    var seen := Seen(Stored(ops[..f], m), m.long);
    var batches := Batches(seen, LocalStore.FLUSH_BATCH);
    assert batches[..|batches|] == batches;
    BatchesConcat(seen, LocalStore.FLUSH_BATCH);
  }

  /** The loss, exactly: a completed flush clears the file, and a result in it was delivered if and only if no long one
      was stored before it and it was not long itself. */
  lemma {:induction false} LostExactly(ops: seq<Op>, m: Limits, f: nat, k: nat)
    requires f < |ops| && CompletedAt(ops, m, f) && k in Stored(ops[..f], m)
    ensures Stored(ops[..f + 1], m) == []
    ensures k in Delivered(ops, m, f) <==> forall j :: j in Stored(ops[..f], m) && j <= k ==> !m.long(j)
  {
    assert ops[..f + 1][..f] == ops[..f];
    DeliveredWhenCompleted(ops, m, f);
    StoredIsIncreasing(ops[..f], m);
    var stored := Stored(ops[..f], m);
    SeenIsFront(stored, m.long);
    hide Stored, Delivered, Seen, CompletedAt;
    var n := |Seen(stored, m.long)|;
    var i :| 0 <= i < |stored| && stored[i] == k;
    if i < n {
      forall j | j in stored && j <= k
        ensures !m.long(j)
      {
        var x :| 0 <= x < |stored| && stored[x] == j;
      }
      assert stored[..n][i] == k;
    } else {
      assert stored[n] in stored && stored[n] <= k;
    }
  }

  lemma {:induction false} ConcatPrefix<T>(batches: seq<seq<T>>, n: nat)
    requires n <= |batches|
    ensures Concat(batches[..n]) <= Concat(batches)
  {
    ConcatAppend(batches[..n], batches[n..]);
    assert batches == batches[..n] + batches[n..];
  }

  /** Whatever a flush delivers was stored, oldest first; in one flush nothing is delivered twice. */
  lemma {:induction false} DeliveredWasStored(ops: seq<Op>, m: Limits, f: nat)
    requires f < |ops| && ops[f].Flush?
    ensures Delivered(ops, m, f) <= Stored(ops[..f], m)
    ensures forall i, j :: 0 <= i < j < |Delivered(ops, m, f)| ==> Delivered(ops, m, f)[i] < Delivered(ops, m, f)[j]
  {
    var stored := Stored(ops[..f], m);
    StoredIsIncreasing(ops[..f], m);
    SeenIsFront(stored, m.long);
    var seen := Seen(stored, m.long);
    hide Stored, Batches, Seen;
    BatchesConcat(seen, LocalStore.FLUSH_BATCH);
    var batches := Batches(seen, LocalStore.FLUSH_BATCH);
    if ops[f].accepted <= |batches| {
      ConcatPrefix(batches, ops[f].accepted);
    }
  }

  /** A result is delivered again only by a flush that follows one that did not complete. */
  lemma {:induction false} RepeatsOnlyAfterFailure(ops: seq<Op>, m: Limits, k: nat, f: nat, g: nat)
    requires k < f < g < |ops| && ops[k].Append? && ops[f].Flush? && ops[g].Flush?
    requires k in Delivered(ops, m, f) && k in Delivered(ops, m, g)
    ensures !CompletedAt(ops, m, f)
  {
    hide Stored, Delivered, AppendsFrom, CompletedAt, Hidden, Seen;
    DeliveredWasStored(ops, m, g);
    StoredExactly(ops[..g], m, k);
    assert !CompletedAt(ops[..g], m, f);
    CompletedInPrefix(ops, m, g, f);
  }

  // ---- Nothing is lost without a reason ----

  /** Evicted by at least cap results appended after it, none of them long, with no completed flush between. */
  predicate EvictedAt(ops: seq<Op>, m: Limits, k: nat, e: nat) {
    && k < e <= |ops| && NoneCompleted(ops[..e], m, k)
    && !Hidden(ops[..e], m, k) && |Seen(AppendsFrom(ops[..e], k + 1), m.long)| >= m.cap
  }

  /** Cleared unseen by the completed flush f: a long result was stored before it, or it was long itself. */
  predicate ClearedUnseenAt(ops: seq<Op>, m: Limits, k: nat, f: nat) {
    && k < f < |ops| && CompletedAt(ops, m, f)
    && k in Stored(ops[..f], m) && exists j :: j in Stored(ops[..f], m) && j <= k && m.long(j)
  }

  predicate DeliveredAt(ops: seq<Op>, m: Limits, k: nat, f: nat) {
    k < f < |ops| && CompletedAt(ops, m, f) && k in Delivered(ops, m, f)
  }

  lemma {:induction false} FirstCompleted(ops: seq<Op>, m: Limits, k: nat) returns (f: nat)
    requires k < |ops| && ops[k].Append? && !NoneCompleted(ops, m, k)
    ensures k < f < |ops| && CompletedAt(ops, m, f) && NoneCompleted(ops[..f], m, k)
  {
    var n := |ops| - 1;
    NoneCompletedStep(ops, m, k);
    if NoneCompleted(ops[..n], m, k) {
      f := n;
    } else {
      hide NoneCompleted;
      f := FirstCompleted(ops[..n], m, k);
      assert ops[..n][..f] == ops[..f];
      CompletedInPrefix(ops, m, n, f);
    }
  }

  /** At-least-once: every appended result is still stored, or was delivered by a completed flush, or was evicted, or was
      cleared unseen behind a long one. Without long results the last cannot happen. */
  lemma {:induction false} AtLeastOnce(ops: seq<Op>, m: Limits, k: nat)
    requires k < |ops| && ops[k].Append?
    ensures || k in Stored(ops, m)
            || (exists f :: DeliveredAt(ops, m, k, f))
            || (exists e :: EvictedAt(ops, m, k, e))
            || (exists f :: ClearedUnseenAt(ops, m, k, f))
  {
    hide Stored, Delivered, AppendsFrom, CompletedAt, Hidden, Seen;
    if NoneCompleted(ops, m, k) {
      StoredExactly(ops, m, k);
      assert ops[..|ops|] == ops;
      if k !in Stored(ops, m) {
        assert EvictedAt(ops, m, k, |ops|);
      }
    } else {
      var f := FirstCompleted(ops, m, k);
      StoredExactly(ops[..f], m, k);
      if k !in Stored(ops[..f], m) {
        assert EvictedAt(ops, m, k, f);
      } else {
        LostExactly(ops, m, f, k);
        assert DeliveredAt(ops, m, k, f) || ClearedUnseenAt(ops, m, k, f);
      }
    }
  }
}
