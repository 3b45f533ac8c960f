/** The batching writer of influx.go: lines come in over a channel, bodies of joined lines go out. */
module InfluxWriter {
  import opened Text
  import opened Batching

  const MAX_BATCH := 100

  /** What one turn of the select loop sees. Cancelled carries what the drain still finds in the channel. */
  datatype Event = Received(line: string) | Tick | Closed | Cancelled(queued: seq<string>)

  /** A body handed to write, and whether it is the final one after cancellation. */
  datatype Body = Body(text: string, shutdown: bool)

  datatype Group = Group(lines: seq<string>, shutdown: bool)

  predicate Ends(e: Event) {
    e.Closed? || e.Cancelled?
  }

  /** The lines of all results taken from the channel, in order. */
  function Taken(events: seq<Event>): seq<string> {
    if events == [] then []
    else match events[0]
      case Received(line) => [line] + Taken(events[1..])
      case Tick => Taken(events[1..])
      case Closed => []
      case Cancelled(queued) => queued
  }

  /** A line counts until the first close or cancellation; what is still queued counts for a cancellation only. */
  lemma {:induction false} TakenGrows(events: seq<Event>, e: Event)
    ensures Taken(events + [e]) == Taken(events)
                                   + (if Exits(events) then []
                                      else match e
                                        case Received(line) => [line]
                                        case Cancelled(queued) => queued
                                        case _ => [])
  {
    if events == [] {
      assert events + [e] == [e];
      assert [e][1..] == [];
    } else {
      TakenGrows(events[1..], e);
      assert (events + [e])[0] == events[0] && (events + [e])[1..] == events[1..] + [e];
      ExitsStep(events);
    }
  }

  function Exits(events: seq<Event>): bool {
    exists i :: 0 <= i < |events| && Ends(events[i])
  }

  function Unless(lines: seq<string>, shutdown: bool): seq<Group> {
    if lines == [] then [] else [Group(lines, shutdown)]
  }

  function Groups(batches: seq<seq<string>>): seq<Group> {
    seq(|batches|, i requires 0 <= i < |batches| => Group(batches[i], false))
  }

  /** How the lines must be grouped: the lines between two ticks, of which current are already there, go out
      in batches of 100; a tick or a close sends the incomplete batch; a cancellation sends it with what is queued. */
  function Grouping(events: seq<Event>, current: seq<string>): (seq<Group>, seq<string>) {
    var full, rest := Groups(Full(current, MAX_BATCH)), Rest(current, MAX_BATCH);
    if events == [] then (full, rest)
    else match events[0]
      case Received(line) => Grouping(events[1..], current + [line])
      case Tick =>
        var (more, left) := Grouping(events[1..], []);
        (full + Unless(rest, false) + more, left)
      case Closed => (full + Unless(rest, false), [])
      case Cancelled(queued) => (full + Unless(rest + queued, true), [])
  }

  function BodyOf(g: Group): Body {
    Body(Join(g.lines, "\n"), g.shutdown)
  }

  /** A body has its lines one after the other, with newlines between them only. */
  lemma {:induction false} BodyIsLinesBetweenNewlines(first: string, more: seq<string>, shutdown: bool)
    ensures BodyOf(Group([first], shutdown)).text == first
    ensures more != [] ==>
              BodyOf(Group([first] + more, shutdown)).text == first + "\n" + BodyOf(Group(more, shutdown)).text
  {
    assert ([first] + more)[1..] == more;
  }

  function BodiesOf(groups: seq<Group>): seq<Body> {
    seq(|groups|, i requires 0 <= i < |groups| => BodyOf(groups[i]))
  }

  function Flat(groups: seq<Group>): seq<string> {
    if groups == [] then [] else groups[0].lines + Flat(groups[1..])
  }

  method RunResults(events: seq<Event>) returns (bodies: seq<Body>, batch: seq<string>, exited: bool)
    ensures bodies == BodiesOf(Grouping(events, []).0) && batch == Grouping(events, []).1
    ensures exited <==> Exits(events)
  {
    hide BodiesOf, Grouping, Full, Rest;
    bodies, batch, exited := [], [], false;
    ghost var sent: seq<Group>, current: seq<string> := [], [];
    Start();
    assert sent + [] == [];
    var i := 0;
    while i < |events|
      invariant 0 <= i <= |events| && !exited
      invariant forall k :: 0 <= k < i ==> !Ends(events[k])
      invariant batch == Rest(current, MAX_BATCH)
      invariant bodies == BodiesOf(sent + Groups(Full(current, MAX_BATCH)))
      invariant Grouping(events, []).0 == sent + Grouping(events[i..], current).0
      invariant Grouping(events, []).1 == Grouping(events[i..], current).1
    {
      GroupingStep(events, i, current);
      ghost var out := Groups(Full(current, MAX_BATCH));
      assert sent + (out + Unless(batch, false)) == sent + out + Unless(batch, false);
      match events[i] {
        case Received(line) =>
          OneMore(current, MAX_BATCH, line);
          MoreGroups(sent, Full(current, MAX_BATCH), batch + [line]);
          batch := batch + [line];
          if |batch| >= MAX_BATCH {
            bodies := bodies + [Body(Join(batch, "\n"), false)];
            batch := [];
          }
          current := current + [line];
        case Tick =>
          Flushed(sent + out, batch, false);
          sent := sent + out + Unless(batch, false);
          if batch != [] {
            bodies := bodies + [Body(Join(batch, "\n"), false)];
            batch := [];
          }
          current := [];
          Start();
          assert sent + [] == sent;
        case Closed =>
          Flushed(sent + out, batch, false);
          if batch != [] {
            bodies := bodies + [Body(Join(batch, "\n"), false)];
            batch := [];
          }
          assert Grouping(events, []).0 == sent + out + Unless(Rest(current, MAX_BATCH), false);
          return bodies, batch, true;
        case Cancelled(queued) =>
          ghost var before := batch;
          var j := 0;
          while j < |queued|
            invariant 0 <= j <= |queued|
            invariant batch == before + queued[..j]
          {
            batch := batch + [queued[j]];
            j := j + 1;
          }
          assert batch == before + queued;
          assert sent + (out + Unless(batch, true)) == sent + out + Unless(batch, true);
          Flushed(sent + out, batch, true);
          if |batch| > 0 {
            bodies := bodies + [Body(Join(batch, "\n"), true)];
            batch := [];
          }
          return bodies, batch, true;
      }
      i := i + 1;
    }
    GroupingEnd(events, current);
  }

  lemma Start()
    ensures Full<string>([], MAX_BATCH) == [] && Rest<string>([], MAX_BATCH) == []
    ensures Groups(Full([], MAX_BATCH)) == [] && BodiesOf([]) == []
  {}

  lemma GroupingEnd(events: seq<Event>, current: seq<string>)
    ensures Grouping(events[|events|..], current) == (Groups(Full(current, MAX_BATCH)), Rest(current, MAX_BATCH))
  {}

  lemma GroupingStep(events: seq<Event>, i: nat, current: seq<string>)
    requires i < |events|
    ensures var full, rest := Groups(Full(current, MAX_BATCH)), Rest(current, MAX_BATCH);
            Grouping(events[i..], current) ==
            if events[i].Received? then Grouping(events[i + 1..], current + [events[i].line])
            else if events[i].Tick? then
              (full + Unless(rest, false) + Grouping(events[i + 1..], []).0, Grouping(events[i + 1..], []).1)
            else if events[i].Closed? then (full + Unless(rest, false), [])
            else (full + Unless(rest + events[i].queued, true), [])
  {
    assert events[i..][0] == events[i] && events[i..][1..] == events[i + 1..];
  }

  lemma MoreGroups(sent: seq<Group>, full: seq<seq<string>>, b: seq<string>)
    ensures BodiesOf(sent + Groups(full + [b])) == BodiesOf(sent + Groups(full)) + [Body(Join(b, "\n"), false)]
  {
    assert sent + Groups(full + [b]) == sent + Groups(full) + [Group(b, false)];
  }

  lemma Flushed(groups: seq<Group>, b: seq<string>, shutdown: bool)
    ensures BodiesOf(groups + Unless(b, shutdown))
         == BodiesOf(groups) + (if b == [] then [] else [Body(Join(b, "\n"), shutdown)])
  {}

  // ---- Nothing is lost, repeated or reordered ----

  lemma {:induction false} FlatAppend(a: seq<Group>, b: seq<Group>)
    ensures Flat(a + b) == Flat(a) + Flat(b)
  {
    if a == [] {
      assert a + b == b;
    } else {
      FlatAppend(a[1..], b);
      assert (a + b)[0] == a[0] && (a + b)[1..] == a[1..] + b;
      AppendAssociates(a[0].lines, Flat(a[1..]), Flat(b));
    }
  }

  lemma {:induction false} FlatGroups(batches: seq<seq<string>>)
    ensures Flat(Groups(batches)) == Concat(batches)
  {
    if batches != [] {
      FlatGroups(batches[1..]);
      assert Groups(batches)[1..] == Groups(batches[1..]);
    }
  }

  lemma FlatUnless(lines: seq<string>, shutdown: bool)
    ensures Flat(Unless(lines, shutdown)) == lines
  {}

  /** A flushed segment holds exactly its lines and whatever was drained. */
  lemma FlatSegment(current: seq<string>, extra: seq<string>, shutdown: bool)
    ensures Flat(Groups(Full(current, MAX_BATCH))) + Rest(current, MAX_BATCH) == current
    ensures Flat(Groups(Full(current, MAX_BATCH)) + Unless(Rest(current, MAX_BATCH) + extra, shutdown)) == current + extra
  {
    hide Full, Rest, Groups, Unless, Flat;
    var full, rest := Full(current, MAX_BATCH), Rest(current, MAX_BATCH);
    FullAndRest(current, MAX_BATCH);
    FlatGroups(full);
    FlatAppend(Groups(full), Unless(rest + extra, shutdown));
    FlatUnless(rest + extra, shutdown);
    AppendAssociates(Concat(full), rest, extra);
  }

  /** The groups sent, followed by the current batch, are the lines taken, in order: at every point of every run. */
  lemma {:induction false} GroupsConserveLines(events: seq<Event>, current: seq<string>)
    ensures var (groups, left) := Grouping(events, current);
            Flat(groups) + left == current + Taken(events)
  {
    FlatSegment(current, [], false);
    assert Rest(current, MAX_BATCH) + [] == Rest(current, MAX_BATCH);
    assert current + [] == current;
    if events != [] {
      match events[0] {
        case Received(line) =>
          GroupsConserveLines(events[1..], current + [line]);
          AppendAssociates(current, [line], Taken(events[1..]));
        case Tick =>
          GroupsConserveLines(events[1..], []);
          hide Grouping;
          TickGroups(events, current);
          var (more, left) := Grouping(events[1..], []);
          var flushed := Groups(Full(current, MAX_BATCH)) + Unless(Rest(current, MAX_BATCH), false);
          FlatAppend(flushed, more);
          AppendAssociates(Flat(flushed), Flat(more), left);
          assert [] + Taken(events[1..]) == Taken(events[1..]);
        case Closed =>
        case Cancelled(queued) =>
          FlatSegment(current, queued, true);
      }
    }
  }

  lemma TickGroups(events: seq<Event>, current: seq<string>)
    requires events != [] && events[0].Tick?
    ensures Grouping(events, current).0 == Groups(Full(current, MAX_BATCH)) + Unless(Rest(current, MAX_BATCH), false)
                                           + Grouping(events[1..], []).0
    ensures Grouping(events, current).1 == Grouping(events[1..], []).1
  {}

  /** Every body carries at least one line; only a shutdown body, which can only be the last, carries more than 100. */
  lemma {:induction false} GroupsAreWellSized(events: seq<Event>, current: seq<string>)
    ensures var (groups, left) := Grouping(events, current);
            && (forall i :: 0 <= i < |groups| ==>
                  && 1 <= |groups[i].lines|
                  && (if groups[i].shutdown then i == |groups| - 1 else |groups[i].lines| <= 100))
            && |left| < 100
            && (Exits(events) ==> left == [])
  {
    if events != [] {
      assert Exits(events) <==> Ends(events[0]) || Exits(events[1..]) by {
        ExitsStep(events);
      }
      match events[0] {
        case Received(line) => GroupsAreWellSized(events[1..], current + [line]);
        case Tick => GroupsAreWellSized(events[1..], []);
        case Closed =>
        case Cancelled(queued) =>
      }
    }
  }

  /** While lines are all that comes in, exactly the full hundreds go out. */
  lemma {:induction false} HundredsGoOut(lines: seq<string>, current: seq<string>)
    ensures var (groups, left) := Grouping(seq(|lines|, i requires 0 <= i < |lines| => Received(lines[i])), current);
            && |left| < 100 && |current + lines| == 100 * |groups| + |left|
            && (forall g :: g in groups ==> |g.lines| == 100 && !g.shutdown)
  {
    var events := seq(|lines|, i requires 0 <= i < |lines| => Received(lines[i]));
    if lines == [] {
      FullLength(current, MAX_BATCH);
      assert current + lines == current;
    } else {
      HundredsGoOut(lines[1..], current + [lines[0]]);
      assert current + [lines[0]] + lines[1..] == current + lines;
      assert events[1..] == seq(|lines| - 1, i requires 0 <= i < |lines| - 1 => Received(lines[1..][i]));
      hide Full, Rest;
    }
  }

  /** A tick leaves no line waiting. */
  lemma {:induction false} TickEmptiesTheBatch(events: seq<Event>, current: seq<string>)
    ensures Grouping(events + [Tick], current).1 == []
  {
    if events == [] {
      assert events + [Tick] == [Tick];
      assert [Tick][1..] == [];
    } else {
      var longer := events + [Tick];
      assert longer[0] == events[0] && longer[1..] == events[1..] + [Tick];
      match events[0] {
        case Received(line) => TickEmptiesTheBatch(events[1..], current + [line]);
        case Tick => TickEmptiesTheBatch(events[1..], []);
        case Closed =>
        case Cancelled(queued) =>
      }
    }
  }

  lemma ExitsStep(events: seq<Event>)
    requires events != []
    ensures Exits(events) <==> Ends(events[0]) || Exits(events[1..])
  {
    if i :| 0 <= i < |events[1..]| && Ends(events[1..][i]) {
      assert Ends(events[i + 1]);
    }
    if i :| 0 <= i < |events| && Ends(events[i]) {
      assert i > 0 ==> Ends(events[1..][i - 1]);
    }
  }

  // ---- What the receiver of the bodies reads ----

  function LinesRead(bodies: seq<Body>): seq<string> {
    if bodies == [] then [] else Split(bodies[0].text, '\n') + LinesRead(bodies[1..])
  }

  ghost predicate NoNewlines(lines: seq<string>) {
    forall i :: 0 <= i < |lines| ==> '\n' !in lines[i]
  }

  lemma {:induction false} LinesReadHaveNoNewlines(bodies: seq<Body>)
    ensures NoNewlines(LinesRead(bodies))
  {
    if bodies != [] {
      LinesReadHaveNoNewlines(bodies[1..]);
      SplitPiecesAreFree(bodies[0].text, '\n');
    }
  }

  lemma {:induction false} SplittingUndoesBodies(groups: seq<Group>)
    requires forall i :: 0 <= i < |groups| ==> groups[i].lines != []
    ensures LinesRead(BodiesOf(groups)) == Flat(groups) <==> NoNewlines(Flat(groups))
  {
    LinesReadHaveNoNewlines(BodiesOf(groups));
    if NoNewlines(Flat(groups)) {
      SplittingFreeBodies(groups);
    }
  }

  lemma {:induction false} SplittingFreeBodies(groups: seq<Group>)
    requires forall i :: 0 <= i < |groups| ==> groups[i].lines != []
    requires NoNewlines(Flat(groups))
    ensures LinesRead(BodiesOf(groups)) == Flat(groups)
  {
    if groups != [] {
      var first, more := groups[0].lines, Flat(groups[1..]);
      forall i | 0 <= i < |first|
        ensures '\n' !in first[i]
      {
        assert (first + more)[i] == first[i];
      }
      forall i | 0 <= i < |more|
        ensures '\n' !in more[i]
      {
        assert (first + more)[|first| + i] == more[i];
      }
      SplitUndoesJoin(first, '\n');
      SplittingFreeBodies(groups[1..]);
      assert BodiesOf(groups)[1..] == BodiesOf(groups[1..]);
    }
  }

  /** As many lines are read as were sent exactly when none of them contains a newline. */
  lemma {:induction false} LinesReadAreCounted(groups: seq<Group>)
    requires forall i :: 0 <= i < |groups| ==> groups[i].lines != []
    ensures |LinesRead(BodiesOf(groups))| >= |Flat(groups)|
    ensures |LinesRead(BodiesOf(groups))| == |Flat(groups)| <==> NoNewlines(Flat(groups))
  {
    if groups != [] {
      var first, more := groups[0].lines, Flat(groups[1..]);
      LinesReadAreCounted(groups[1..]);
      assert BodiesOf(groups)[1..] == BodiesOf(groups[1..]);
      JoinedPieces(first, '\n');
      NewlinesApart(first, more);
      hide NoNewlines, Join, Split;
    }
  }

  lemma NewlinesApart(a: seq<string>, b: seq<string>)
    ensures NoNewlines(a + b) <==> NoNewlines(b) && forall i :: 0 <= i < |a| ==> '\n' !in a[i]
  {
    if NoNewlines(a + b) {
      assert forall i :: 0 <= i < |a| ==> (a + b)[i] == a[i];
      assert forall i :: 0 <= i < |b| ==> (a + b)[|a| + i] == b[i];
    }
  }

  /** Splitting all bodies at newlines and adding the current batch gives the lines taken, in order, exactly when
      no line that was sent contains a newline. */
  lemma {:induction false} WriterConserves(events: seq<Event>)
    ensures var (groups, batch) := Grouping(events, []);
            && Flat(groups) + batch == Taken(events)
            && (LinesRead(BodiesOf(groups)) + batch == Taken(events) <==> NoNewlines(Flat(groups)))
  {
    hide Grouping, BodiesOf, NoNewlines;
    var (groups, batch) := Grouping(events, []);
    GroupsConserveLines(events, []);
    assert [] + Taken(events) == Taken(events);
    GroupsAreWellSized(events, []);
    SplittingUndoesBodies(groups);
    CancelSuffix(LinesRead(BodiesOf(groups)), Flat(groups), batch);
  }

  lemma CancelSuffix(a: seq<string>, b: seq<string>, c: seq<string>)
    ensures a + c == b + c <==> a == b
  {
    if a + c == b + c {
      assert |a| == |b|;
      assert a == (a + c)[..|a|] == (b + c)[..|b|] == b;
    }
  }
}
