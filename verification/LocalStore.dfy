/** The JSONL ring file of store.go. */
module LocalStore {
  import opened Options
  import opened Text
  import opened Batching

  /** bufio.Scanner's limit: a line this long stops the scan. */
  const MAX_TOKEN := 0x10_0000

  const FLUSH_BATCH := 100

  // ---- Lines of a file ----

  function Unlines(lines: seq<string>): string {
    if lines == [] then "" else lines[0] + "\n" + Unlines(lines[1..])
  }

  function RawLines(s: string): seq<string> {
    var pieces := Split(s, '\n');
    if pieces[|pieces| - 1] == "" then pieces[..|pieces| - 1] else pieces
  }

  /** The lines before the first one that is too long. */
  function Visible(lines: seq<string>): (v: seq<string>)
    ensures v <= lines
  {
    if lines == [] || |lines[0]| >= MAX_TOKEN then []
    else [lines[0]] + Visible(lines[1..])
  }

  function DropCR(line: string): string {
    if line != "" && line[|line| - 1] == '\r' then line[..|line| - 1] else line
  }

  /** What a Scanner over s yields. */
  function ScanLines(s: string): seq<string> {
    var v := Visible(RawLines(s));
    seq(|v|, i requires 0 <= i < |v| => DropCR(v[i]))
  }

  /** A line the store itself could have written. */
  predicate LineOk(line: string) {
    '\n' !in line && DropCR(line) == line
  }

  predicate LinesOk(lines: seq<string>) {
    forall i :: 0 <= i < |lines| ==> LineOk(lines[i])
  }

  lemma {:induction false} SplitUnlines(lines: seq<string>)
    requires LinesOk(lines)
    ensures Split(Unlines(lines), '\n') == lines + [""]
  {
    if lines != [] {
      SplitUnlines(lines[1..]);
      SplitAfterPiece(lines[0], '\n', Unlines(lines[1..]));
      assert lines == [lines[0]] + lines[1..];
    }
  }

  /** Scanning a file of complete lines yields them, up to the first that is too long. */
  lemma ScanUnlines(lines: seq<string>)
    requires LinesOk(lines)
    ensures ScanLines(Unlines(lines)) == Visible(lines)
  {
    SplitUnlines(lines);
    assert (lines + [""])[..|lines|] == lines;
    hide Split;
  }

  lemma FirstRawLine(line: string, rest: string)
    requires '\n' !in line
    ensures RawLines(line + ['\n'] + rest) == [line] + RawLines(rest)
    ensures RawLines(line) == if line == "" then [] else [line]
  {
    SplitAfterPiece(line, '\n', rest);
    hide Split;
  }

  lemma VisibleFirst(line: string, more: seq<string>)
    ensures Visible([line] + more) == if |line| >= 0x10_0000 then [] else [line] + Visible(more)
  {
    assert ([line] + more)[1..] == more;
  }

  lemma ScanFirst(text: string, line: string, rest: string)
    requires RawLines(text) == [line] + RawLines(rest)
    ensures ScanLines(text) == if |line| >= 0x10_0000 then [] else [DropCR(line)] + ScanLines(rest)
  {
    hide RawLines, Visible, DropCR;
    VisibleFirst(line, RawLines(rest));
  }

  /** A scan takes one carriage return off each line, keeps empty lines, stops at one of a mebibyte, and yields a last
      line that has no newline. */
  lemma {:induction false} ScanOneLine(line: string, rest: string)
    requires '\n' !in line
    ensures var scanned := if line != "" && line[|line| - 1] == '\r' then line[..|line| - 1] else line;
            if |line| >= 0x10_0000 then ScanLines(line + ['\n'] + rest) == ScanLines(line) == []
            else
              && ScanLines(line + ['\n'] + rest) == [scanned] + ScanLines(rest)
              && ScanLines(line) == if line == "" then [] else [scanned]
  {
    FirstRawLine(line, rest);
    ScanFirst(line + ['\n'] + rest, line, rest);
    assert RawLines("") == [];
    assert ScanLines("") == [];
    if line != "" {
      ScanFirst(line, line, "");
    }
    hide RawLines, ScanLines;
  }

  lemma {:induction false} UnlinesSnoc(lines: seq<string>, line: string)
    ensures Unlines(lines + [line]) == Unlines(lines) + (line + "\n")
  {
    if lines == [] {
      assert lines + [line] == [line];
      assert [line][1..] == [];
    } else {
      UnlinesSnoc(lines[1..], line);
      assert (lines + [line])[0] == lines[0] && (lines + [line])[1..] == lines[1..] + [line];
      Assoc(lines[0] + "\n", Unlines(lines[1..]), line + "\n");
    }
  }

  function LastN<T>(s: seq<T>, n: nat): seq<T> {
    if |s| <= n then s else s[|s| - n..]
  }

  /** The scan stops short exactly when some line is too long; everything from there on is invisible. */
  lemma {:induction false} VisibleStopsAtLongLine(lines: seq<string>)
    ensures Visible(lines) == lines <==> forall i :: 0 <= i < |lines| ==> |lines[i]| < 0x10_0000
    ensures Visible(lines) != lines ==> |lines[|Visible(lines)|]| >= 0x10_0000
  {
    if lines != [] {
      VisibleStopsAtLongLine(lines[1..]);
      assert lines == [lines[0]] + lines[1..];
      assert forall i :: 0 <= i < |lines[1..]| ==> lines[1..][i] == lines[i + 1];
    }
  }

  /** The pieces of two texts put together: the last of one joins the first of the other. */
  function Glue(a: seq<string>, b: seq<string>): seq<string>
    requires a != [] && b != []
  {
    a[..|a| - 1] + [a[|a| - 1] + b[0]] + b[1..]
  }

  lemma GlueAfterSeparator(a: seq<string>, b: seq<string>)
    requires a != [] && b != []
    ensures Glue([""] + a, b) == [""] + Glue(a, b)
  {
    assert ([""] + a)[..|a|] == [""] + a[..|a| - 1];
  }

  lemma GlueAfterChar(x: char, a: seq<string>, b: seq<string>)
    requires a != [] && b != []
    ensures Glue([[x] + a[0]] + a[1..], b) == [[x] + Glue(a, b)[0]] + Glue(a, b)[1..]
  {
    var longer := [[x] + a[0]] + a[1..];
    if |a| == 1 {
      Assoc([x], a[0], b[0]);
    } else {
      assert longer[..|a| - 1] == [[x] + a[0]] + a[1..|a| - 1];
      assert Glue(a, b)[0] == a[0];
      assert Glue(a, b)[1..] == a[1..|a| - 1] + [a[|a| - 1] + b[0]] + b[1..];
    }
  }

  lemma {:induction false} SplitConcat(s: string, t: string, c: char)
    ensures Split(s + t, c) == Glue(Split(s, c), Split(t, c))
  {
    var b := Split(t, c);
    if s == "" {
      assert s + t == t && "" + b[0] == b[0];
      assert [b[0]] + b[1..] == b;
    } else {
      var a := Split(s[1..], c);
      SplitConcat(s[1..], t, c);
      assert (s + t)[0] == s[0] && (s + t)[1..] == s[1..] + t;
      GlueAfterSeparator(a, b);
      GlueAfterChar(s[0], a, b);
      hide Glue;
    }
  }

  /** A written line becomes a line of its own exactly when the file was empty or ended in a newline; otherwise it is
      glued to the torn last line. */
  lemma TornTailSwallowsNextLine(content: string, line: string)
    requires '\n' !in line
    ensures RawLines(content + (line + "\n")) == RawLines(content) + [line] <==>
            content == "" || content[|content| - 1] == '\n'
  {
    SplitAfterPiece(line, '\n', "");
    assert line + "\n" + "" == line + "\n";
    SplitConcat(content, line + "\n", '\n');
    LastPiece(content);
    assert Split("", '\n') == [""];
    hide Split;
    var pieces := Split(content, '\n');
    var m := |pieces| - 1;
    var longer := Split(content + (line + "\n"), '\n');
    assert longer == pieces[..m] + [pieces[m] + line] + [""];
    assert RawLines(content + (line + "\n")) == pieces[..m] + [pieces[m] + line];
    if pieces[m] == "" {
      assert pieces[m] + line == line;
    } else {
      assert |RawLines(content) + [line]| == m + 2;
    }
  }

  /** A write cut short after four characters turns the next result into garbage. */
  lemma TornLineExample()
    ensures RawLines("{\"a\"" + ("{}" + "\n")) == ["{\"a\"{}"]
  {
    var piece := "{\"a\"{}";
    assert "{\"a\"" + ("{}" + "\n") == piece + "\n" + "";
    SplitAfterPiece(piece, '\n', "");
  }

  lemma {:induction false} LastPiece(s: string)
    ensures var p := Split(s, '\n');
            p[|p| - 1] == "" <==> s == "" || s[|s| - 1] == '\n'
  {
    if s != "" {
      LastPiece(s[1..]);
    }
  }

  // ---- The file, opened for appending ----

  class File {
    var content: string
    var pos: nat

    constructor (content: string)
      ensures this.content == content && pos == 0
    {
      this.content := content;
      pos := 0;
    }

    method SeekStart()
      modifies this
      ensures pos == 0 && content == old(content)
    {
      pos := 0;
    }

    /** Append mode: writes go to the end wherever the position is. */
    method Write(s: string)
      modifies this
      ensures content == old(content) + s && pos == |content|
    {
      content := content + s;
      pos := |content|;
    }

    method Truncate()
      modifies this
      ensures content == "" && pos == old(pos)
    {
      content := "";
    }

    /** Reads from the position to the end. */
    method ReadRest() returns (s: string)
      modifies this
      ensures content == old(content)
      ensures s == if old(pos) <= |content| then content[old(pos)..] else ""
    {
      s := if pos <= |content| then content[pos..] else "";
      pos := pos + |s|;
    }
  }

  datatype Outcome = Flushed | Cancelled | Rejected

  /** The results among the lines; a line that does not decode is skipped. */
  function Decoded<R>(decode: string -> Option<R>, lines: seq<string>): seq<R> {
    if lines == [] then []
    else
      var n := |lines| - 1;
      Decoded(decode, lines[..n]) + (match decode(lines[n]) case None => [] case Some(r) => [r])
  }

  /** encode and decode stand for the JSON library: injective, one line, no trailing carriage return. */
  ghost predicate Codec<R(!new)>(encode: R -> string, decode: string -> Option<R>) {
    forall r :: decode(encode(r)) == Some(r) && LineOk(encode(r))
  }

  class LocalStore<R(0, !new)> {
    const maxLines: nat
    const encode: R -> string
    const decode: string -> Option<R>
    const file: File
    /** The lines in the file, oldest first. */
    ghost var lines: seq<string>

    ghost predicate Valid()
      reads this, file
    {
      Codec(encode, decode) && file.content == Unlines(lines) && LinesOk(lines)
    }

    /** Opens a file that is new or that a store left behind. */
    constructor (content: string, maxLines: nat, encode: R -> string, decode: string -> Option<R>, ghost lines: seq<string>)
      requires Codec(encode, decode) && content == Unlines(lines) && LinesOk(lines)
      ensures Valid() && this.lines == lines && this.maxLines == maxLines && this.encode == encode && this.decode == decode
      ensures fresh(file)
    {
      this.maxLines, this.encode, this.decode := maxLines, encode, decode;
      this.file := new File(content);
      this.lines := lines;
    }

    /** Adds a result as the newest line and drops the oldest beyond maxLines. Lines behind one that is too long
        are invisible to the cap, and go when it rewrites the file. */
    method Append(r: R)
      requires Valid()
      modifies this, file
      ensures Valid()
      ensures var all := old(lines) + [encode(r)];
              lines == if |Visible(all)| <= maxLines then all else LastN(Visible(all), maxLines)
    {
      hide Unlines, Visible;
      var line := encode(r);
      file.Write(line + "\n");
      UnlinesSnoc(lines, line);
      lines := lines + [line];
      EnforceCap();
    }

    method EnforceCap()
      requires Valid()
      modifies this, file
      ensures Valid()
      ensures lines == if |Visible(old(lines))| <= maxLines then old(lines) else LastN(Visible(old(lines)), maxLines)
    {
      hide Unlines, Visible, Codec, LineOk;
      var kept := ScanFile();
      if |kept| <= maxLines {
        return;
      }
      ghost var skipped := |kept| - maxLines;
      kept := kept[|kept| - maxLines..];
      forall j | 0 <= j < |kept|
        ensures LineOk(kept[j])
      {
        assert kept[j] == lines[skipped + j];
      }
      file.Truncate();
      file.SeekStart();
      var w := "";
      var i := 0;
      NoLines();
      while i < |kept|
        invariant 0 <= i <= |kept|
        invariant w == Unlines(kept[..i])
        modifies {}
      {
        assert kept[..i + 1] == kept[..i] + [kept[i]];
        UnlinesSnoc(kept[..i], kept[i]);
        w := w + (kept[i] + "\n");
        i := i + 1;
      }
      assert kept[..i] == kept;
      file.Write(w);
      assert "" + w == w;
      lines := kept;
    }

    /** Scans the file from the start. */
    method ScanFile() returns (kept: seq<string>)
      requires Valid()
      modifies file
      ensures file.content == old(file.content) && kept == Visible(lines)
    {
      hide ScanLines, Visible, Unlines, LineOk, Codec;
      file.SeekStart();
      var text := file.ReadRest();
      assert text == file.content;
      ScanUnlines(lines);
      var scanned := ScanLines(text);
      kept := [];
      var i := 0;
      while i < |scanned|
        invariant 0 <= i <= |scanned|
        invariant kept == scanned[..i]
      {
        kept := kept + [scanned[i]];
        i := i + 1;
      }
      assert scanned[..i] == scanned;
    }

    /** Replays the stored results to fn in batches of 100 and clears the file if every batch was accepted.
        cancelled says whether the context is done when line i is scanned; accepts is fn's answer to call k. */
    method Flush(cancelled: nat -> bool, accepts: (nat, seq<R>) -> bool) returns (outcome: Outcome, calls: seq<seq<R>>)
      requires Valid()
      modifies this, file
      ensures Valid()
      ensures FlushReport(decode, Visible(old(lines)), cancelled, accepts, outcome, calls)
      ensures lines == if outcome == Flushed then [] else old(lines)
      ensures outcome != Flushed ==> file.content == old(file.content)
    {
      hide Unlines, Visible, LineOk, Codec, FlushReport;
      NoLines();
      var scanned := ScanFile();
      outcome, calls := Replay(decode, scanned, cancelled, accepts);
      if outcome != Flushed {
        return;
      }
      file.Truncate();
      file.SeekStart();
      lines := [];
    }
  }

  /** Flush's loop over the scanned lines, with the one buffer it reuses for every batch. */
  method Replay<R(0)>(decode: string -> Option<R>, scanned: seq<string>, cancelled: nat -> bool,
                      accepts: (nat, seq<R>) -> bool) returns (outcome: Outcome, calls: seq<seq<R>>)
    ensures FlushReport(decode, scanned, cancelled, accepts, outcome, calls)
  {
    hide Decoded, Full, Rest, FlushReport, Replaying;
    var batch := new R[FLUSH_BATCH];
    var n := 0;
    calls := [];
    NothingYet<R>(decode, scanned, cancelled, accepts);
    assert batch[..0] == [];
    for i := 0 to |scanned|
      invariant n < FLUSH_BATCH
      invariant Replaying(decode, scanned, cancelled, accepts, i, calls, batch[..n])
    {
      if cancelled(i) {
        CancelReport(decode, scanned, cancelled, accepts, i, calls, batch[..n]);
        return Cancelled, calls;
      }
      ReplayStep(decode, scanned, cancelled, accepts, i, calls, batch[..n]);
      var r := decode(scanned[i]);
      if r.None? {
        continue;
      }
      ghost var before := batch[..n];
      batch[n] := r.value;
      n := n + 1;
      assert batch[..n] == before + [r.value];
      if n >= FLUSH_BATCH {
        calls := calls + [batch[..n]];
        if !accepts(|calls| - 1, batch[..n]) {
          return Rejected, calls;
        }
        n := 0;
        assert batch[..0] == [];
      }
    }
    LastReport(decode, scanned, cancelled, accepts, calls, batch[..n]);
    if n > 0 {
      calls := calls + [batch[..n]];
      if !accepts(|calls| - 1, batch[..n]) {
        return Rejected, calls;
      }
    }
    return Flushed, calls;
  }

  lemma NoLines()
    ensures Unlines([]) == ""
  {}

  /** How a replay of the lines v ends. Every call but a final rejected one was accepted; the calls are the first of
      the batches; the replay completes exactly when the context stays live for every line and fn accepts every
      batch; a cancellation at line i, the first at which the context is done, comes after the complete batches of the
      first i lines; so does a rejection, unless it is that of the incomplete batch at the end. */
  ghost predicate FlushReport<R>(decode: string -> Option<R>, v: seq<string>, cancelled: nat -> bool,
                                 accepts: (nat, seq<R>) -> bool, outcome: Outcome, calls: seq<seq<R>>) {
    var batches := Batches(Decoded(decode, v), FLUSH_BATCH);
    && calls <= batches
    && (outcome == Flushed <==> Live(cancelled, |v|) && AllAccepted(accepts, batches))
    && (outcome == Flushed ==> calls == batches)
    && (outcome == Cancelled ==> AllAccepted(accepts, calls) && CancelledAt(decode, v, cancelled, calls))
    && (outcome == Rejected ==> calls != [] && AllAccepted(accepts, calls[..|calls| - 1])
                                && !accepts(|calls| - 1, calls[|calls| - 1]) && RejectedAt(decode, v, cancelled, calls))
  }

  /** The same in numbers: calls of 100 results, the last of which may be shorter, that give the decoded lines in order;
      only a rejected one, which is the last, was not accepted; a cancelled replay gives full batches only. */
  lemma {:induction false} ReportInNumbers<R>(decode: string -> Option<R>, v: seq<string>, cancelled: nat -> bool,
                                              accepts: (nat, seq<R>) -> bool, outcome: Outcome, calls: seq<seq<R>>)
    requires FlushReport(decode, v, cancelled, accepts, outcome, calls)
    ensures forall k :: 0 <= k < |calls| ==> 1 <= |calls[k]| <= 100
    ensures forall k :: 0 <= k < |calls| - 1 ==> |calls[k]| == 100
    ensures forall k :: 0 <= k < |calls| - 1 ==> accepts(k, calls[k])
    ensures calls != [] ==> (accepts(|calls| - 1, calls[|calls| - 1]) <==> outcome != Rejected)
    ensures Concat(calls) <= Decoded(decode, v)
    ensures outcome == Flushed ==> Concat(calls) == Decoded(decode, v) && forall i :: 0 <= i < |v| ==> !cancelled(i)
  {
    var all := Decoded(decode, v);
    var batches := Batches(all, FLUSH_BATCH);
    BatchesConcat(all, FLUSH_BATCH);
    hide Decoded, Full, Rest, Batches, Concat;
    assert batches == calls + batches[|calls|..];
    ConcatAppend(calls, batches[|calls|..]);
    forall k | 0 <= k < |calls| - 1
      ensures accepts(k, calls[k]) && |calls[k]| == 100
    {
      assert calls[k] == batches[k];
      assert outcome == Rejected ==> calls[..|calls| - 1][k] == calls[k];
    }
  }

  /** Where a replay stops: at the first line at which the context is done, or when the first n results have been given
      and their last batch was refused. */
  lemma {:induction false} StopInNumbers<R>(decode: string -> Option<R>, v: seq<string>, cancelled: nat -> bool,
                                            accepts: (nat, seq<R>) -> bool, outcome: Outcome, calls: seq<seq<R>>)
    requires FlushReport(decode, v, cancelled, accepts, outcome, calls)
    ensures outcome == Cancelled ==>
              exists i :: 0 <= i < |v| && cancelled(i) && (forall j :: 0 <= j < i ==> !cancelled(j))
                       && |calls| == |Decoded(decode, v[..i])| / 100
    ensures outcome == Rejected ==>
              exists i :: 0 <= i <= |v| && (forall j :: 0 <= j < i ==> !cancelled(j))
                       && |calls| == (|Decoded(decode, v[..i])| + (if i < |v| then 0 else 99)) / 100
  {
    hide Decoded, Full, Rest;
    if outcome == Cancelled {
      var i :| 0 <= i < |v| && cancelled(i) && Live(cancelled, i) && calls == Full(Decoded(decode, v[..i]), FLUSH_BATCH);
      FullLength(Decoded(decode, v[..i]), FLUSH_BATCH);
    }
    if outcome == Rejected {
      var i :| 0 <= i <= |v| && Live(cancelled, i)
            && calls == if i < |v| then Full(Decoded(decode, v[..i]), FLUSH_BATCH) else Batches(Decoded(decode, v), FLUSH_BATCH);
      assert i == |v| ==> v[..i] == v;
      FullLength(Decoded(decode, v[..i]), FLUSH_BATCH);
    }
  }

  predicate Live(cancelled: nat -> bool, n: nat) {
    forall i :: 0 <= i < n ==> !cancelled(i)
  }

  predicate AllAccepted<R>(accepts: (nat, seq<R>) -> bool, calls: seq<seq<R>>) {
    forall k :: 0 <= k < |calls| ==> accepts(k, calls[k])
  }

  ghost predicate CancelledAt<R>(decode: string -> Option<R>, v: seq<string>, cancelled: nat -> bool, calls: seq<seq<R>>) {
    exists i :: 0 <= i < |v| && cancelled(i) && Live(cancelled, i) && calls == Full(Decoded(decode, v[..i]), FLUSH_BATCH)
  }

  ghost predicate RejectedAt<R>(decode: string -> Option<R>, v: seq<string>, cancelled: nat -> bool, calls: seq<seq<R>>) {
    exists i :: 0 <= i <= |v| && Live(cancelled, i)
             && calls == if i < |v| then Full(Decoded(decode, v[..i]), FLUSH_BATCH) else Batches(Decoded(decode, v), FLUSH_BATCH)
  }

  /** The state of a replay after i lines: calls made and buffer. */
  ghost predicate Replaying<R>(decode: string -> Option<R>, v: seq<string>, cancelled: nat -> bool,
                               accepts: (nat, seq<R>) -> bool, i: nat, calls: seq<seq<R>>, buffer: seq<R>)
    requires i <= |v|
  {
    && calls == Full(Decoded(decode, v[..i]), FLUSH_BATCH)
    && buffer == Rest(Decoded(decode, v[..i]), FLUSH_BATCH)
    && Live(cancelled, i) && AllAccepted(accepts, calls)
  }

  lemma NothingYet<R>(decode: string -> Option<R>, v: seq<string>, cancelled: nat -> bool, accepts: (nat, seq<R>) -> bool)
    ensures Replaying(decode, v, cancelled, accepts, 0, [], [])
  {}

  lemma CancelReport<R>(decode: string -> Option<R>, v: seq<string>, cancelled: nat -> bool,
                        accepts: (nat, seq<R>) -> bool, i: nat, calls: seq<seq<R>>, buffer: seq<R>)
    requires i < |v| && Replaying(decode, v, cancelled, accepts, i, calls, buffer) && cancelled(i)
    ensures FlushReport(decode, v, cancelled, accepts, Cancelled, calls)
  {
    hide Decoded, Full, Rest, Batches;
    DecodedPrefix(decode, v, i);
  }

  /** One line: its result joins the buffer; a full buffer goes to fn. */
  lemma ReplayStep<R>(decode: string -> Option<R>, v: seq<string>, cancelled: nat -> bool,
                      accepts: (nat, seq<R>) -> bool, i: nat, calls: seq<seq<R>>, buffer: seq<R>)
    requires i < |v| && Replaying(decode, v, cancelled, accepts, i, calls, buffer) && !cancelled(i)
    ensures var r := decode(v[i]);
            if r.None? then Replaying(decode, v, cancelled, accepts, i + 1, calls, buffer)
            else
              var b := buffer + [r.value];
              if |b| < FLUSH_BATCH then Replaying(decode, v, cancelled, accepts, i + 1, calls, b)
              else if accepts(|calls|, b) then Replaying(decode, v, cancelled, accepts, i + 1, calls + [b], [])
              else FlushReport(decode, v, cancelled, accepts, Rejected, calls + [b])
  {
    DecodedStep(decode, v, i);
    hide Decoded, Full, Rest, Batches;
    var r := decode(v[i]);
    if r.Some? {
      OneMore(Decoded(decode, v[..i]), FLUSH_BATCH, r.value);
      var b := buffer + [r.value];
      if |b| == FLUSH_BATCH && !accepts(|calls|, b) {
        DecodedPrefix(decode, v, i + 1);
        FilledAt(decode, v, cancelled, i + 1, calls + [b]);
        RejectReport(decode, v, cancelled, accepts, calls, b);
      }
    } else {
      assert Decoded(decode, v[..i]) + [] == Decoded(decode, v[..i]);
    }
  }

  lemma FilledAt<R>(decode: string -> Option<R>, v: seq<string>, cancelled: nat -> bool, i: nat, calls: seq<seq<R>>)
    requires i <= |v| && Live(cancelled, i) && calls == Full(Decoded(decode, v[..i]), FLUSH_BATCH)
    requires Rest(Decoded(decode, v[..i]), FLUSH_BATCH) == []
    ensures RejectedAt(decode, v, cancelled, calls)
  {
    if i == |v| {
      assert v[..i] == v;
    }
    hide Decoded, Full, Rest;
  }

  lemma RejectReport<R>(decode: string -> Option<R>, v: seq<string>, cancelled: nat -> bool,
                        accepts: (nat, seq<R>) -> bool, calls: seq<seq<R>>, b: seq<R>)
    requires calls + [b] <= Batches(Decoded(decode, v), FLUSH_BATCH)
    requires AllAccepted(accepts, calls) && !accepts(|calls|, b) && RejectedAt(decode, v, cancelled, calls + [b])
    ensures FlushReport(decode, v, cancelled, accepts, Rejected, calls + [b])
  {
    hide Decoded, Full, Rest, Batches;
    assert (calls + [b])[..|calls|] == calls;
    assert Batches(Decoded(decode, v), FLUSH_BATCH)[|calls|] == b;
  }

  lemma LastReport<R>(decode: string -> Option<R>, v: seq<string>, cancelled: nat -> bool,
                      accepts: (nat, seq<R>) -> bool, calls: seq<seq<R>>, buffer: seq<R>)
    requires Replaying(decode, v, cancelled, accepts, |v|, calls, buffer)
    ensures if buffer == [] then FlushReport(decode, v, cancelled, accepts, Flushed, calls)
            else if accepts(|calls|, buffer) then FlushReport(decode, v, cancelled, accepts, Flushed, calls + [buffer])
            else FlushReport(decode, v, cancelled, accepts, Rejected, calls + [buffer])
  {
    assert v[..|v|] == v;
    hide Decoded, Full, Rest;
    if buffer != [] && !accepts(|calls|, buffer) {
      assert RejectedAt(decode, v, cancelled, calls + [buffer]) by {
        assert Live(cancelled, |v|);
      }
      RejectReport(decode, v, cancelled, accepts, calls, buffer);
    }
  }

  /** Replaying encoded results gives them back in order. */
  lemma {:induction false} DecodedResults<R(!new)>(encode: R -> string, decode: string -> Option<R>, results: seq<R>)
    requires Codec(encode, decode)
    ensures Decoded(decode, seq(|results|, i requires 0 <= i < |results| => encode(results[i]))) == results
  {
    var lines := seq(|results|, i requires 0 <= i < |results| => encode(results[i]));
    if results != [] {
      var n := |results| - 1;
      DecodedResults(encode, decode, results[..n]);
      assert lines[..n] == seq(n, i requires 0 <= i < n => encode(results[..n][i]));
      assert decode(lines[n]) == Some(results[n]);
    }
  }

  lemma DecodedStep<R>(decode: string -> Option<R>, lines: seq<string>, i: nat)
    requires i < |lines|
    ensures Decoded(decode, lines[..i + 1])
         == Decoded(decode, lines[..i]) + (match decode(lines[i]) case None => [] case Some(r) => [r])
  {
    assert lines[..i + 1][..i] == lines[..i];
  }

  /** The complete batches of the first i lines are the first batches of all of them. */
  lemma {:induction false} DecodedPrefix<R>(decode: string -> Option<R>, lines: seq<string>, i: nat)
    requires i <= |lines|
    ensures Decoded(decode, lines[..i]) <= Decoded(decode, lines)
    ensures Full(Decoded(decode, lines[..i]), FLUSH_BATCH) <= Batches(Decoded(decode, lines), FLUSH_BATCH)
  {
    if i < |lines| {
      var n := |lines| - 1;
      DecodedPrefix(decode, lines[..n], i);
      assert lines[..n][..i] == lines[..i];
    } else {
      assert lines[..i] == lines;
    }
    var a, b := Decoded(decode, lines[..i]), Decoded(decode, lines);
    assert b == a + b[|a|..];
    FullIsPrefix(a, b[|a|..], FLUSH_BATCH);
  }
}
