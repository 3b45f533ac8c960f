/** From measured results to the database: the scheduler's forwarding loop in agent.go, and what a reader recovers
    from the bodies the writer sends. */
module Pipeline {
  import opened Options
  import opened Text
  import opened LineProtocol
  import opened LineParser
  import opened InfluxWriter

  // ---- Forwarding: first to the writer's channel, then to the local store ----

  datatype Action<R> = Sent(r: R) | Stored(r: R)

  function SentBy<R>(trace: seq<Action<R>>): seq<R> {
    if trace == [] then []
    else
      var n := |trace| - 1;
      SentBy(trace[..n]) + (if trace[n].Sent? then [trace[n].r] else [])
  }

  function StoredBy<R>(trace: seq<Action<R>>): seq<R> {
    if trace == [] then []
    else
      var n := |trace| - 1;
      StoredBy(trace[..n]) + (if trace[n].Stored? then [trace[n].r] else [])
  }

  /** At every moment the store is behind the channel, by at most one result. */
  ghost predicate SendsFirst<R>(trace: seq<Action<R>>) {
    forall p :: 0 <= p <= |trace| ==> StoreLags(trace[..p])
  }

  ghost predicate StoreLags<R>(trace: seq<Action<R>>) {
    StoredBy(trace) <= SentBy(trace) && |SentBy(trace)| <= |StoredBy(trace)| + 1
  }

  lemma OneAction<R>(trace: seq<Action<R>>, a: Action<R>)
    ensures SentBy(trace + [a]) == SentBy(trace) + (if a.Sent? then [a.r] else [])
    ensures StoredBy(trace + [a]) == StoredBy(trace) + (if a.Stored? then [a.r] else [])
  {
    assert (trace + [a])[..|trace|] == trace;
  }

  lemma {:induction false} SendsFirstStep<R>(trace: seq<Action<R>>, a: Action<R>)
    requires SendsFirst(trace) && StoreLags(trace + [a])
    ensures SendsFirst(trace + [a])
  {
    hide StoreLags;
    forall p | 0 <= p <= |trace + [a]|
      ensures StoreLags((trace + [a])[..p])
    {
      if p <= |trace| {
        assert (trace + [a])[..p] == trace[..p];
      } else {
        assert (trace + [a])[..p] == trace + [a];
      }
    }
  }

  lemma SendThenStore<R>(trace: seq<Action<R>>, r: R)
    requires SendsFirst(trace) && StoredBy(trace) == SentBy(trace)
    ensures SendsFirst(trace + [Sent(r)]) && SendsFirst(trace + [Sent(r), Stored(r)])
    ensures SentBy(trace + [Sent(r), Stored(r)]) == SentBy(trace) + [r]
    ensures StoredBy(trace + [Sent(r), Stored(r)]) == StoredBy(trace) + [r]
  {
    var one := trace + [Sent(r)];
    OneAction(trace, Sent(r));
    OneAction(one, Stored(r));
    assert one + [Stored(r)] == trace + [Sent(r), Stored(r)];
    hide SentBy, StoredBy, SendsFirst;
    SendsFirstStep(trace, Sent(r));
    SendsFirstStep(one, Stored(r));
  }

  /** places are the positions of the results before done that are not hidden, in order. */
  ghost predicate AreShown<R>(rs: seq<R>, hidden: R -> bool, done: nat, places: seq<nat>) {
    && done <= |rs|
    && (forall i, j :: 0 <= i < j < |places| ==> places[i] < places[j])
    && (forall i :: 0 <= i < |places| ==> places[i] < done && !hidden(rs[places[i]]))
    && (forall p :: 0 <= p < done && !hidden(rs[p]) ==> p in places)
  }

  /** cancelled(i) says that the context is done before the channel takes the i-th result. The results at places are
      forwarded: those that are not hidden, each once and in order, up to the first that is cancelled; none of the later
      ones reaches the store. */
  method Forward<R>(rs: seq<R>, hidden: R -> bool, cancelled: nat -> bool)
      returns (trace: seq<Action<R>>, done: nat, ghost places: seq<nat>)
    ensures done <= |rs| && (done < |rs| ==> !hidden(rs[done]) && cancelled(done))
    ensures forall i :: 0 <= i < done ==> hidden(rs[i]) || !cancelled(i)
    ensures forall i :: 0 <= i < |places| ==> places[i] < done
    ensures forall i, j :: 0 <= i < j < |places| ==> places[i] < places[j]
    ensures forall p :: p in places <==> 0 <= p < done && !hidden(rs[p])
    ensures |SentBy(trace)| == |places| && forall i :: 0 <= i < |places| ==> SentBy(trace)[i] == rs[places[i]]
    ensures StoredBy(trace) == SentBy(trace)
    ensures SendsFirst(trace)
  {
    hide SentBy, StoredBy, SendsFirst;
    trace, done, places := [], 0, [];
    NothingDone<R>();
    while done < |rs|
      invariant AreShown(rs, hidden, done, places)
      invariant forall i :: 0 <= i < done ==> hidden(rs[i]) || !cancelled(i)
      invariant |SentBy(trace)| == |places| && forall i :: 0 <= i < |places| ==> SentBy(trace)[i] == rs[places[i]]
      invariant SentBy(trace) == StoredBy(trace)
      invariant SendsFirst(trace)
    {
      if !hidden(rs[done]) {
        if cancelled(done) {
          return;
        }
        SendThenStore(trace, rs[done]);
        trace := trace + [Sent(rs[done]), Stored(rs[done])];
        places := places + [done];
      }
      done := done + 1;
    }
  }

  lemma NothingDone<R>()
    ensures SentBy<R>([]) == [] && StoredBy<R>([]) == [] && SendsFirst<R>([])
  {}

  lemma {:induction false} ConcatActions<R>(a: seq<Action<R>>, b: seq<Action<R>>)
    ensures SentBy(a + b) == SentBy(a) + SentBy(b) && StoredBy(a + b) == StoredBy(a) + StoredBy(b)
  {
    if b == [] {
      assert a + b == a;
    } else {
      hide SentBy, StoredBy;
      var n := |b| - 1;
      ConcatActions(a, b[..n]);
      OneAction(a + b[..n], b[n]);
      OneAction(b[..n], b[n]);
      assert b == b[..n] + [b[n]] && a + b == (a + b[..n]) + [b[n]];
    }
  }

  /** A scheduler that forwards again and again still sends first. */
  lemma {:induction false} ForwardsInARow<R>(a: seq<Action<R>>, b: seq<Action<R>>)
    requires SendsFirst(a) && SentBy(a) == StoredBy(a)
    requires SendsFirst(b) && SentBy(b) == StoredBy(b)
    ensures SendsFirst(a + b) && SentBy(a + b) == StoredBy(a + b)
  {
    ConcatActions(a, b);
    forall p | 0 <= p <= |a + b|
      ensures StoreLags((a + b)[..p])
    {
      if p <= |a| {
        assert (a + b)[..p] == a[..p];
      } else {
        var c := b[..p - |a|];
        assert (a + b)[..p] == a + c;
        assert StoreLags(c);
        ConcatActions(a, c);
        assert StoredBy(a) + StoredBy(c) <= SentBy(a) + SentBy(c);
      }
    }
  }

  // ---- Several schedulers share the channel and the store ----

  /** The actions of scheduler i in a trace of all of them. */
  function Of<R>(trace: seq<(nat, Action<R>)>, i: nat): seq<Action<R>> {
    if trace == [] then []
    else
      var n := |trace| - 1;
      Of(trace[..n], i) + (if trace[n].0 == i then [trace[n].1] else [])
  }

  function Actions<R>(trace: seq<(nat, Action<R>)>): seq<Action<R>> {
    seq(|trace|, k requires 0 <= k < |trace| => trace[k].1)
  }

  /** Each of n schedulers acts like Forward, in any interleaving. */
  ghost predicate Interleaved<R>(trace: seq<(nat, Action<R>)>, n: nat) {
    && (forall k :: 0 <= k < |trace| ==> trace[k].0 < n)
    && forall i :: 0 <= i < n ==> SendsFirst(Of(trace, i))
  }

  /** The schedulers between a send and the append that follows it. */
  ghost function Between<R>(trace: seq<(nat, Action<R>)>, n: nat): set<nat> {
    set i: nat | i < n && |SentBy(Of(trace, i))| != |StoredBy(Of(trace, i))|
  }

  lemma {:induction false} PrefixSendsFirst<R>(trace: seq<Action<R>>, a: Action<R>)
    requires SendsFirst(trace + [a])
    ensures SendsFirst(trace) && StoreLags(trace) && StoreLags(trace + [a])
  {
    hide StoreLags;
    forall p | 0 <= p <= |trace|
      ensures StoreLags(trace[..p])
    {
      assert (trace + [a])[..p] == trace[..p];
    }
    assert trace[..|trace|] == trace && (trace + [a])[..|trace + [a]|] == trace + [a];
  }

  lemma OfStep<R>(trace: seq<(nat, Action<R>)>, i: nat)
    requires trace != []
    ensures var n := |trace| - 1;
            Of(trace, i) == Of(trace[..n], i) + (if trace[n].0 == i then [trace[n].1] else [])
  {}

  lemma {:induction false} InterleavedPrefix<R>(trace: seq<(nat, Action<R>)>, n: nat)
    requires Interleaved(trace, n) && trace != []
    ensures Interleaved(trace[..|trace| - 1], n)
  {
    hide Of, SendsFirst;
    var before := trace[..|trace| - 1];
    forall i | 0 <= i < n
      ensures SendsFirst(Of(before, i))
    {
      OfStep(trace, i);
      assert SendsFirst(Of(trace, i));
      if trace[|trace| - 1].0 == i {
        PrefixSendsFirst(Of(before, i), trace[|trace| - 1].1);
      } else {
        assert Of(trace, i) == Of(before, i);
      }
    }
  }

  /** What the last action of scheduler i does to the set of schedulers in between. */
  lemma {:induction false} BetweenStep<R>(trace: seq<(nat, Action<R>)>, n: nat)
    requires Interleaved(trace, n) && trace != []
    ensures var (i, a) := trace[|trace| - 1];
            var before, after := Between(trace[..|trace| - 1], n), Between(trace, n);
            if a.Sent? then i !in before && after == before + {i} else i in before && after == before - {i}
  {
    var (i, a) := trace[|trace| - 1];
    var was := trace[..|trace| - 1];
    OfStep(trace, i);
    assert SendsFirst(Of(trace, i));
    PrefixSendsFirst(Of(was, i), a);
    OneAction(Of(was, i), a);
    forall j: nat | j < n && j != i
      ensures Of(trace, j) == Of(was, j)
    {
      OfStep(trace, j);
    }
    hide Of, SendsFirst, SentBy, StoredBy;
  }

  /** With n schedulers the store lags the channel by one result for each that is between its two steps, so by at
      most n. */
  lemma {:induction false} StoreLagsByTheSchedulers<R>(trace: seq<(nat, Action<R>)>, n: nat)
    requires Interleaved(trace, n)
    ensures |SentBy(Actions(trace))| == |StoredBy(Actions(trace))| + |Between(trace, n)|
    ensures |SentBy(Actions(trace))| <= |StoredBy(Actions(trace))| + n
  {
    if trace == [] {
      assert Between(trace, n) == {};
    } else {
      var was, last := trace[..|trace| - 1], trace[|trace| - 1];
      assert Actions(trace) == Actions(was) + [last.1];
      hide *;
      InterleavedPrefix(trace, n);
      StoreLagsByTheSchedulers(was, n);
      BetweenStep(trace, n);
      OneAction(Actions(was), last.1);
      WithOrWithout(Between(was, n), last.0);
    }
    BetweenBound(trace, n);
  }

  lemma WithOrWithout(s: set<nat>, i: nat)
    ensures i !in s ==> |s + {i}| == |s| + 1
    ensures i in s ==> |s - {i}| == |s| - 1
  {}

  lemma BetweenBound<R>(trace: seq<(nat, Action<R>)>, n: nat)
    ensures |Between(trace, n)| <= n
  {
    AtMostAll(Between(trace, n), n);
  }

  lemma {:induction false} AtMostAll(s: set<nat>, n: nat)
    requires forall i :: i in s ==> i < n
    ensures |s| <= n
  {
    if n > 0 {
      AtMostAll(s - {n - 1}, n - 1);
    } else {
      assert s == {};
    }
  }

  // ---- What comes out of the writer ----

  /** Line i is the line of result i. */
  ghost predicate AreLines(rs: seq<MeasureResult>, lines: seq<string>) {
    && |lines| == |rs|
    && forall i :: 0 <= i < |rs| ==> IsLine(rs[i], lines[i])
  }

  /** A result that survives the line and the body it is sent in. */
  ghost predicate Survives(r: MeasureResult) {
    CleanResult(r) && !HasNewline(r)
  }

  /** The text parses to every tag and field of r, in order, and its time. */
  ghost predicate ReadsAs(text: string, r: MeasureResult) {
    exists t, f :: KeysInOrder(t, r.tags.Keys) && KeysInOrder(f, r.fields.Keys) && ParseLine(text) == Some(Expected(r, t, f))
  }

  /** The texts read, one for each result, parse to the results in order. */
  ghost predicate AllReadAs(read: seq<string>, rs: seq<MeasureResult>) {
    && |read| == |rs|
    && forall i :: 0 <= i < |rs| ==> ReadsAs(read[i], rs[i])
  }

  lemma {:induction false} LineReadsAs(r: MeasureResult, line: string)
    requires IsLine(r, line)
    ensures ReadsAs(line, r) <==> CleanResult(r)
  {
    hide ParseLine, Expected, LineOf, CleanResult;
    var t, f :| KeysInOrder(t, r.tags.Keys) && KeysInOrder(f, r.fields.Keys) && line == LineOf(r, t, f);
    LineRoundTrip(r, t, f);
    if ReadsAs(line, r) {
      var t', f' :| KeysInOrder(t', r.tags.Keys) && KeysInOrder(f', r.fields.Keys)
                    && ParseLine(line) == Some(Expected(r, t', f'));
      SortedEnumerationUnique(t, t', r.tags.Keys);
      SortedEnumerationUnique(f, f', r.fields.Keys);
    }
  }

  lemma {:induction false} FreeLines(rs: seq<MeasureResult>, lines: seq<string>)
    requires AreLines(rs, lines)
    ensures NoNewlines(lines) <==> forall i :: 0 <= i < |rs| ==> !HasNewline(rs[i])
  {
    hide IsLine, HasNewline;
    forall i | 0 <= i < |lines|
      ensures '\n' in lines[i] <==> HasNewline(rs[i])
    {
      assert IsLine(rs[i], lines[i]);
      NewlineInLine(rs[i], lines[i]);
    }
  }

  /** What is read once the writer has exited: the lines taken, if none has a newline, and otherwise more texts than
      there are lines. */
  lemma {:induction false} ReadAfterExit(events: seq<Event>)
    requires Exits(events)
    ensures var read := LinesRead(BodiesOf(Grouping(events, []).0));
            && (NoNewlines(Taken(events)) ==> read == Taken(events))
            && (!NoNewlines(Taken(events)) ==> |read| > |Taken(events)|)
  {
    hide Taken, Grouping, BodiesOf, LinesRead, Exits;
    var (groups, batch) := Grouping(events, []);
    WriterConserves(events);
    GroupsAreWellSized(events, []);
    LinesReadAreCounted(groups);
    assert Flat(groups) + [] == Flat(groups);
    assert LinesRead(BodiesOf(groups)) + [] == LinesRead(BodiesOf(groups));
  }

  /** End to end: once the writer has exited, splitting its bodies at newlines and parsing each piece gives back every
      result it took, in order and complete, exactly when all of them are clean and free of newlines. */
  lemma {:induction false} ReadBackExactly(events: seq<Event>, rs: seq<MeasureResult>)
    requires Exits(events) && AreLines(rs, Taken(events))
    ensures AllReadAs(LinesRead(BodiesOf(Grouping(events, []).0)), rs) <==> forall i :: 0 <= i < |rs| ==> Survives(rs[i])
  {
    hide ReadsAs, IsLine, HasNewline, CleanResult, Taken, Grouping, BodiesOf, LinesRead, Exits, NoNewlines;
    var lines := Taken(events);
    FreeLines(rs, lines);
    ReadAfterExit(events);
    forall i | 0 <= i < |rs|
      ensures ReadsAs(lines[i], rs[i]) <==> CleanResult(rs[i])
    {
      assert IsLine(rs[i], lines[i]);
      LineReadsAs(rs[i], lines[i]);
    }
    var read := LinesRead(BodiesOf(Grouping(events, []).0));
    if AllReadAs(read, rs) {
      assert read == lines;
      assert forall i :: 0 <= i < |rs| ==> ReadsAs(read[i], rs[i]);
    }
  }

  /** From what is read the results themselves are rebuilt, both maps included. */
  lemma {:induction false} ResultsComeBack(events: seq<Event>, rs: seq<MeasureResult>)
    requires Exits(events) && AreLines(rs, Taken(events)) && forall i :: 0 <= i < |rs| ==> Survives(rs[i])
    ensures var read := LinesRead(BodiesOf(Grouping(events, []).0));
            && |read| == |rs|
            && forall i :: 0 <= i < |rs| ==> ParseLine(read[i]).Some? && Rebuild(ParseLine(read[i]).value) == Some(rs[i])
  {
    hide ParseLine, Rebuild, IsLine, HasNewline, CleanResult, Taken, Grouping, BodiesOf, LinesRead, Exits, NoNewlines;
    FreeLines(rs, Taken(events));
    ReadAfterExit(events);
    forall i | 0 <= i < |rs|
      ensures ParseLine(Taken(events)[i]).Some? && Rebuild(ParseLine(Taken(events)[i]).value) == Some(rs[i])
    {
      assert IsLine(rs[i], Taken(events)[i]);
      CleanResultIsRecovered(rs[i], Taken(events)[i]);
    }
  }

  lemma {:induction false} NewlineSplitsALine(line: string)
    requires '\n' in line
    ensures LinesRead(BodiesOf(Grouping([Received(line), Tick], []).0)) != [line]
  {
    var events := [Received(line), Tick];
    assert Taken(events) == [line] by {
      assert events[1..] == [Tick] && [Tick][1..] == [];
    }
    TickEmptiesTheBatch([Received(line)], []);
    assert [Received(line)] + [Tick] == events;
    WriterConserves(events);
    hide Grouping, LinesRead, BodiesOf, Taken;
    var (groups, batch) := Grouping(events, []);
    assert Flat(groups) + [] == Flat(groups);
    assert LinesRead(BodiesOf(groups)) + [] == LinesRead(BodiesOf(groups));
    assert '\n' in Flat(groups)[0];
  }

  /** A concrete loss: a result whose source name contains a newline is not read back from the body it is sent in. */
  lemma {:induction false} NewlineIsLost(line: string)
    requires IsLine(MeasureResult("piccolo_dns", "a\nb", "t", "s", "", map[], map[], 0), line)
    ensures LinesRead(BodiesOf(Grouping([Received(line), Tick], []).0)) != [line]
  {
    var r := MeasureResult("piccolo_dns", "a\nb", "t", "s", "", map[], map[], 0);
    assert HasNewline(r) by {
      assert r.source[1] == '\n';
    }
    hide *;
    NewlineInLine(r, line);
    NewlineSplitsALine(line);
  }
}
