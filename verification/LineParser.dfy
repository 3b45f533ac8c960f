/** Reading lines back: a parser that splits at unescaped spaces, commas and equals signs. */
module LineParser {
  import opened Options
  import opened Text
  import opened LineProtocol

  /** A token up to the next unescaped special character, with escapes removed, and what follows it.
      A backslash escapes only a special character; any other backslash stands for itself. */
  function ReadToken(s: string): (r: (string, string))
    ensures |r.1| <= |s|
  {
    if s == "" then ("", "")
    else if s[0] == '\\' && |s| > 1 && IsSpecial(s[1]) then
      var (token, rest) := ReadToken(s[2..]);
      ([s[1]] + token, rest)
    else if IsSpecial(s[0]) then ("", s)
    else
      var (token, rest) := ReadToken(s[1..]);
      ([s[0]] + token, rest)
  }

  /** One or more key=value pairs separated by commas. */
  function ReadPairs(s: string): Option<(seq<Pair>, string)>
    decreases |s|
  {
    var (key, r1) := ReadToken(s);
    if r1 == "" || r1[0] != '=' then None
    else
      var (value, r2) := ReadToken(r1[1..]);
      if r2 != "" && r2[0] == ',' then
        match ReadPairs(r2[1..])
        case None => None
        case Some((more, rest)) => Some(([(key, value)] + more, rest))
      else Some(([(key, value)], r2))
  }

  datatype Point = Point(measurement: string, tags: seq<Pair>, fields: seq<(string, int)>, sentAt: int)

  function ReadNumbers(pairs: seq<Pair>): Option<seq<(string, int)>> {
    if pairs == [] then Some([])
    else
      match (ParseFixed3(pairs[0].1), ReadNumbers(pairs[1..]))
      case (Some(n), Some(more)) => Some([(pairs[0].0, n)] + more)
      case _ => None
  }

  /** The field set and the timestamp. The field set may be empty. */
  function ReadFieldsAndTime(s: string): Option<(seq<(string, int)>, int)> {
    var parts: Option<(seq<Pair>, string)> := if s != "" && s[0] == ' ' then Some(([], s)) else ReadPairs(s);
    match parts
    case None => None
    case Some((pairs, rest)) =>
      if rest == "" || rest[0] != ' ' then None
      else
        match (ReadNumbers(pairs), ParseInt(rest[1..]))
        case (Some(fields), Some(time)) => Some((fields, time))
        case _ => None
  }

  /** Everything after the comma that ends the measurement. */
  function ReadBody(measurement: string, s: string): Option<Point> {
    match ReadPairs(s)
    case None => None
    case Some((tags, rest)) =>
      if rest == "" || rest[0] != ' ' then None
      else
        match ReadFieldsAndTime(rest[1..])
        case None => None
        case Some((fields, time)) => Some(Point(measurement, tags, fields, time))
  }

  function ParseLine(s: string): Option<Point> {
    var (measurement, r) := ReadToken(s);
    if r == "" || r[0] != ',' then None else ReadBody(measurement, r[1..])
  }

  // ---- Reading one escaped token back ----

  /** Escape leaves backslashes alone, so a trailing one would escape the delimiter that follows. */
  predicate Clean(s: string) {
    s == "" || s[|s| - 1] != '\\'
  }

  predicate Delimited(rest: string) {
    rest != "" && IsSpecial(rest[0])
  }

  lemma ReadEscaped(c: char, tail: string)
    requires IsSpecial(c)
    ensures ReadToken(['\\', c] + tail) == ([c] + ReadToken(tail).0, ReadToken(tail).1)
  {
    assert (['\\', c] + tail)[2..] == tail;
  }

  lemma ReadOrdinary(c: char, tail: string)
    requires !IsSpecial(c) && (c == '\\' ==> tail == "" || !IsSpecial(tail[0]))
    ensures ReadToken([c] + tail) == ([c] + ReadToken(tail).0, ReadToken(tail).1)
  {
    assert ([c] + tail)[1..] == tail;
  }

  lemma EscapeCons(w: string)
    requires w != ""
    ensures EscapeEach(w) == (if IsSpecial(w[0]) then ['\\', w[0]] else [w[0]]) + EscapeEach(w[1..])
    ensures EscapeEach(w) != "" && !IsSpecial(EscapeEach(w)[0])
  {
    if IsSpecial(w[0]) {
      assert EscapeEach(w)[0] == '\\';
    } else {
      assert EscapeEach(w)[0] == w[0];
    }
  }

  lemma {:induction false} CleanTokenIsRead(w: string, rest: string)
    requires Clean(w) && Delimited(rest)
    ensures ReadToken(EscapeEach(w) + rest) == (w, rest)
  {
    if w == "" {
      assert EscapeEach(w) + rest == rest;
    } else {
      hide ReadToken, EscapeEach;
      HeadFirst(w, "");
      CleanTokenIsRead(w[1..], rest);
      EscapedHead(w, rest);
    }
  }

  /** Reading past the first character of an escaped token. */
  lemma EscapedHead(w: string, rest: string)
    requires w != "" && (w == "\\" ==> !Delimited(rest))
    ensures var r := ReadToken(EscapeEach(w[1..]) + rest);
            ReadToken(EscapeEach(w) + rest) == ([w[0]] + r.0, r.1)
  {
    hide ReadToken, EscapeEach;
    var tail := EscapeEach(w[1..]) + rest;
    EscapeCons(w);
    NextIsPlain(w, rest);
    if IsSpecial(w[0]) {
      Assoc(['\\', w[0]], EscapeEach(w[1..]), rest);
      ReadEscaped(w[0], tail);
    } else {
      Assoc([w[0]], EscapeEach(w[1..]), rest);
      ReadOrdinary(w[0], tail);
    }
  }

  /** A backslash inside a token is never followed by a special character. */
  lemma NextIsPlain(w: string, rest: string)
    requires w != "" && (w == "\\" ==> !Delimited(rest))
    ensures var tail := EscapeEach(w[1..]) + rest;
            w[0] == '\\' ==> tail == "" || !IsSpecial(tail[0])
  {
    if w[1..] != "" {
      EscapeCons(w[1..]);
    } else {
      assert w == [w[0]];
      assert EscapeEach(w[1..]) + rest == rest;
    }
  }

  /** A token that ends in a backslash swallows the delimiter. */
  lemma {:induction false} DirtyTokenIsMisread(w: string, rest: string)
    requires !Clean(w) && Delimited(rest)
    ensures var token := ReadToken(EscapeEach(w) + rest).0;
            |token| >= |w| && token[|w| - 1] == rest[0]
  {
    if |w| == 1 {
      assert EscapeEach(w[1..]) == "";
      assert EscapeEach(w) + rest == ['\\', rest[0]] + rest[1..];
      ReadEscaped(rest[0], rest[1..]);
    } else {
      hide ReadToken, EscapeEach;
      DirtyTokenIsMisread(w[1..], rest);
      EscapedHead(w, rest);
    }
  }

  /** A token comes back exactly when it does not end in a backslash. */
  lemma {:induction false} TokenRoundTrip(w: string, rest: string)
    requires Delimited(rest)
    ensures Clean(w) ==> ReadToken(Escape(w) + rest) == (w, rest)
    ensures !Clean(w) ==> ReadToken(Escape(w) + rest).0 != w
  {
    EscapeIsEach(w);
    hide Escape;
    if Clean(w) {
      CleanTokenIsRead(w, rest);
    } else {
      DirtyTokenIsMisread(w, rest);
    }
  }

  // ---- Reading a list of pairs back ----

  predicate CleanPair(p: Pair) {
    Clean(p.0) && Clean(p.1)
  }

  lemma FirstPairIsRead(p: Pair, rest: string)
    requires Delimited(rest)
    ensures var (key, r1) := ReadToken(PairText(p) + rest);
            if Clean(p.0) then
              && key == p.0 && r1 != "" && r1[0] == '='
              && (Clean(p.1) ==> ReadToken(r1[1..]) == (p.1, rest))
              && (!Clean(p.1) ==> ReadToken(r1[1..]).0 != p.1)
            else key != p.0
  {
    hide Escape;
    var r := "=" + Escape(p.1) + rest;
    assert PairText(p) + rest == Escape(p.0) + r;
    TokenRoundTrip(p.0, r);
    assert r[1..] == Escape(p.1) + rest;
    TokenRoundTrip(p.1, rest);
  }

  /** Clean pairs come back in order, up to the space that ends them. */
  lemma {:induction false} CleanPairsAreRead(pairs: seq<Pair>, rest: string)
    requires pairs != [] && rest != "" && rest[0] == ' '
    requires forall i :: 0 <= i < |pairs| ==> CleanPair(pairs[i])
    ensures ReadPairs(Join(PairTexts(pairs), ",") + rest) == Some((pairs, rest))
  {
    hide PairText, ReadToken;
    assert pairs == [pairs[0]] + pairs[1..];
    if |pairs| == 1 {
      FirstPairIsRead(pairs[0], rest);
      assert pairs == [(pairs[0].0, pairs[0].1)];
    } else {
      assert PairTexts(pairs)[1..] == PairTexts(pairs[1..]);
      var more := Join(PairTexts(pairs[1..]), ",") + rest;
      assert Join(PairTexts(pairs), ",") + rest == PairText(pairs[0]) + ("," + more);
      FirstPairIsRead(pairs[0], "," + more);
      assert ("," + more)[1..] == more;
      CleanPairsAreRead(pairs[1..], rest);
    }
  }

  /** The first unclean pair comes back wrong, if anything comes back. */
  lemma {:induction false} UncleanPairsAreMisread(pairs: seq<Pair>, rest: string, bad: nat)
    requires rest != "" && rest[0] == ' ' && bad < |pairs|
    requires !CleanPair(pairs[bad]) && forall i :: 0 <= i < bad ==> CleanPair(pairs[i])
    ensures var read := ReadPairs(Join(PairTexts(pairs), ",") + rest);
            && (read.Some? && |read.value.0| > bad ==> read.value.0[bad] != pairs[bad])
            && (read.Some? && |read.value.0| > bad && !Clean(pairs[bad].0) ==> read.value.0[bad].0 != pairs[bad].0)
  {
    hide PairText, ReadToken;
    if |pairs| == 1 {
      FirstPairIsRead(pairs[0], rest);
    } else {
      assert PairTexts(pairs)[1..] == PairTexts(pairs[1..]);
      var more := Join(PairTexts(pairs[1..]), ",") + rest;
      assert Join(PairTexts(pairs), ",") + rest == PairText(pairs[0]) + ("," + more);
      FirstPairIsRead(pairs[0], "," + more);
      assert ("," + more)[1..] == more;
      if bad > 0 {
        UncleanPairsAreMisread(pairs[1..], rest, bad - 1);
      }
    }
  }

  // ---- Reading a whole line back ----

  /** What the parser should find: every tag and every field, in the line's order. */
  function Expected(r: MeasureResult, tagKeys: seq<string>, fieldKeys: seq<string>): Point
    requires forall k :: k in tagKeys ==> k in r.tags
    requires forall k :: k in fieldKeys ==> k in r.fields
  {
    Point(r.measurement, BaseTags(r) + PairsOf(r.tags, tagKeys), PairsOf(r.fields, fieldKeys), r.sentAt)
  }

  /** What the measurement must be, which the code prints as it is: no special character, no trailing backslash. */
  predicate Bare(m: string) {
    Clean(m) && forall i :: 0 <= i < |m| ==> !IsSpecial(m[i])
  }

  /** No tag value, tag key or field key ends in a backslash, and the measurement is bare. */
  ghost predicate CleanResult(r: MeasureResult) {
    Bare(r.measurement) && CleanParts(r)
  }

  ghost predicate CleanParts(r: MeasureResult) {
    && Clean(r.source) && Clean(r.target) && Clean(r.topology) && Clean(r.site)
    && (forall k :: k in r.tags ==> Clean(k) && Clean(r.tags[k]))
    && (forall k :: k in r.fields ==> Clean(k))
  }

  lemma PairsCons<V>(m: map<string, V>, keys: seq<string>)
    requires keys != [] && forall k :: k in keys ==> k in m
    ensures PairsOf(m, keys) == [(keys[0], m[keys[0]])] + PairsOf(m, keys[1..])
  {}

  lemma ReadNumbersCons(k: string, v: string, more: seq<Pair>)
    ensures ReadNumbers([(k, v)] + more)
         == match (ParseFixed3(v), ReadNumbers(more))
            case (Some(n), Some(numbers)) => Some([(k, n)] + numbers)
            case _ => None
  {
    assert ([(k, v)] + more)[1..] == more;
  }

  lemma {:induction false} NumbersAreRead(fields: map<string, int>, keys: seq<string>)
    requires forall k :: k in keys ==> k in fields
    ensures Printed(fields).Keys == fields.Keys
    ensures ReadNumbers(PairsOf(Printed(fields), keys)) == Some(PairsOf(fields, keys))
  {
    PrintedFields(fields);
    if keys == [] {
      assert PairsOf(Printed(fields), keys) == [] && PairsOf(fields, keys) == [];
    } else {
      hide Printed, Fixed3, ParseFixed3;
      NumbersAreRead(fields, keys[1..]);
      Fixed3RoundTrip(fields[keys[0]]);
      PairsCons(Printed(fields), keys);
      PairsCons(fields, keys);
      hide PairsOf;
      ReadNumbersCons(keys[0], Fixed3(fields[keys[0]]), PairsOf(Printed(fields), keys[1..]));
    }
  }

  lemma {:induction false} NumbersKeepKeys(pairs: seq<Pair>)
    ensures var n := ReadNumbers(pairs);
            n.Some? ==> |n.value| == |pairs| && forall i :: 0 <= i < |pairs| ==> n.value[i].0 == pairs[i].0
  {
    if pairs != [] {
      NumbersKeepKeys(pairs[1..]);
    }
  }

  lemma PairDoesNotStartWithSpace(pairs: seq<Pair>, rest: string)
    requires pairs != []
    ensures var s := Join(PairTexts(pairs), ",") + rest;
            s != "" && s[0] != ' '
  {
    var k := pairs[0].0;
    EscapeIsEach(k);
    hide Escape;
    if k != "" {
      EscapeCons(k);
    }
    assert PairText(pairs[0]) != "" && PairText(pairs[0])[0] != ' ';
    assert PairTexts(pairs)[0] == PairText(pairs[0]);
  }

  lemma FirstUnclean(pairs: seq<Pair>) returns (bad: nat)
    ensures bad <= |pairs| && forall i :: 0 <= i < bad ==> CleanPair(pairs[i])
    ensures bad < |pairs| ==> !CleanPair(pairs[bad])
  {
    bad := 0;
    while bad < |pairs| && CleanPair(pairs[bad])
      invariant bad <= |pairs| && forall i :: 0 <= i < bad ==> CleanPair(pairs[i])
    {
      bad := bad + 1;
    }
  }

  /** The field set and time come back exactly when no field key ends in a backslash. */
  lemma {:induction false} FieldsRoundTrip(fields: map<string, int>, keys: seq<string>, time: int)
    requires forall k :: k in keys ==> k in fields
    ensures Printed(fields).Keys == fields.Keys
    ensures var s := Join(PairTexts(PairsOf(Printed(fields), keys)), ",") + (" " + SignedDecimal(time));
            ReadFieldsAndTime(s) == Some((PairsOf(fields, keys), time))
            <==> forall i :: 0 <= i < |keys| ==> Clean(keys[i])
  {
    PrintedFields(fields);
    var pairs := PairsOf(Printed(fields), keys);
    var end := " " + SignedDecimal(time);
    var s := Join(PairTexts(pairs), ",") + end;
    SignedDecimalRoundTrip(time);
    assert end[1..] == SignedDecimal(time);
    NumbersAreRead(fields, keys);
    ValuesAreClean(fields, keys);
    hide Printed, SignedDecimal, ParseInt, ReadPairs, PairTexts, PairsOf;
    if keys == [] {
      NoPairs(fields);
      assert s == end;
    } else {
      HasPairs(fields, keys);
      PairDoesNotStartWithSpace(pairs, end);
      var bad := FirstUnclean(pairs);
      if bad == |pairs| {
        CleanPairsAreRead(pairs, end);
      } else {
        UncleanPairsAreMisread(pairs, end, bad);
        var read := ReadPairs(s);
        if read.Some? {
          NumbersKeepKeys(read.value.0);
        }
      }
    }
  }

  lemma NoPairs(fields: map<string, int>)
    ensures Join(PairTexts(PairsOf(Printed(fields), [])), ",") == ""
  {}

  lemma HasPairs(fields: map<string, int>, keys: seq<string>)
    requires forall k :: k in keys ==> k in fields
    ensures |PairsOf(Printed(fields), keys)| == |keys|
    ensures forall i :: 0 <= i < |keys| ==> PairsOf(Printed(fields), keys)[i].0 == keys[i]
  {}

  lemma ValuesAreClean(fields: map<string, int>, keys: seq<string>)
    requires forall k :: k in keys ==> k in fields
    ensures forall i :: 0 <= i < |keys| ==>
              (CleanPair(PairsOf(Printed(fields), keys)[i]) <==> Clean(keys[i]))
  {
    hide Fixed3;
    forall i | 0 <= i < |keys|
      ensures Clean(Fixed3(fields[keys[i]]))
    {
      NumbersArePlain(fields[keys[i]]);
    }
  }

  /** Tags, fields and time come back exactly when every tag is clean and the fields come back. */
  lemma {:induction false} BodyRoundTrip(m: string, tags: seq<Pair>, fieldText: string, fields: seq<(string, int)>, time: int)
    requires tags != []
    ensures ReadBody(m, Join(PairTexts(tags), ",") + (" " + fieldText)) == Some(Point(m, tags, fields, time))
            <==> (forall i :: 0 <= i < |tags| ==> CleanPair(tags[i])) && ReadFieldsAndTime(fieldText) == Some((fields, time))
  {
    hide PairTexts, ReadPairs, ReadFieldsAndTime, Join, CleanPair;
    var rest := " " + fieldText;
    assert rest[1..] == fieldText;
    var bad := FirstUnclean(tags);
    if bad == |tags| {
      CleanPairsAreRead(tags, rest);
    } else {
      UncleanPairsAreMisread(tags, rest, bad);
    }
  }

  /** The line comes back complete, in order and to the thousandth, exactly when the result is clean. */
  lemma {:induction false} LineRoundTrip(r: MeasureResult, tagKeys: seq<string>, fieldKeys: seq<string>)
    requires KeysInOrder(tagKeys, r.tags.Keys) && KeysInOrder(fieldKeys, r.fields.Keys)
    ensures ParseLine(LineOf(r, tagKeys, fieldKeys)) == Some(Expected(r, tagKeys, fieldKeys)) <==> CleanResult(r)
  {
    PrintedFields(r.fields);
    hide Escape, PairTexts, PairsOf, Printed, ReadToken, ReadBody, ReadFieldsAndTime, CleanParts, Bare, Join, LineOf, CleanPair;
    var tags := BaseTags(r) + PairsOf(r.tags, tagKeys);
    var fieldText := Join(PairTexts(PairsOf(Printed(r.fields), fieldKeys)), ",") + (" " + SignedDecimal(r.sentAt));
    var body := Join(PairTexts(tags), ",") + (" " + fieldText);
    LineShape(r, tagKeys, fieldKeys);
    MeasurementIsRead(r.measurement, "," + body);
    assert ("," + body)[1..] == body;
    CleanByList(r, tagKeys, fieldKeys);
    BodyRoundTrip(r.measurement, tags, fieldText, PairsOf(r.fields, fieldKeys), r.sentAt);
    FieldsRoundTrip(r.fields, fieldKeys, r.sentAt);
    MeasurementOf(r.measurement + ("," + body));
  }

  lemma MeasurementOf(line: string)
    ensures ParseLine(line).Some? ==> ParseLine(line).value.measurement == ReadToken(line).0
  {
    hide ReadToken, ReadPairs, ReadFieldsAndTime;
  }

  lemma LineShape(r: MeasureResult, tagKeys: seq<string>, fieldKeys: seq<string>)
    requires forall k :: k in tagKeys ==> k in r.tags
    requires forall k :: k in fieldKeys ==> k in r.fields
    ensures Printed(r.fields).Keys == r.fields.Keys
    ensures LineOf(r, tagKeys, fieldKeys)
         == r.measurement + ("," + (Join(PairTexts(BaseTags(r) + PairsOf(r.tags, tagKeys)), ",")
            + (" " + (Join(PairTexts(PairsOf(Printed(r.fields), fieldKeys)), ",") + (" " + SignedDecimal(r.sentAt))))))
  {
    PrintedFields(r.fields);
    var a, b, c := r.measurement, Join(PairTexts(BaseTags(r) + PairsOf(r.tags, tagKeys)), ","),
                   Join(PairTexts(PairsOf(Printed(r.fields), fieldKeys)), ",");
    Regroup(a, b, c, SignedDecimal(r.sentAt));
  }

  lemma Regroup(a: string, b: string, c: string, d: string)
    ensures a + "," + b + " " + c + " " + d == a + ("," + (b + (" " + (c + (" " + d)))))
  {}

  /** An unescaped token reads back exactly when it is bare. */
  lemma {:induction false} MeasurementIsRead(m: string, rest: string)
    requires Delimited(rest)
    ensures Bare(m) ==> ReadToken(m + rest) == (m, rest)
    ensures !Bare(m) ==> ReadToken(m + rest).0 != m
  {
    if m == "" {
      assert m + rest == rest;
      assert rest[0] != '\\';
    } else {
      var tail := m[1..] + rest;
      assert m + rest == [m[0]] + tail;
      MeasurementIsRead(m[1..], rest);
      BareTail(m);
      hide ReadToken, Bare;
      if IsSpecial(m[0]) {
        StopsAtSpecial(m[0], tail);
      } else if m[0] == '\\' && IsSpecial(tail[0]) {
        assert m + rest == ['\\', tail[0]] + tail[1..];
        ReadEscaped(tail[0], tail[1..]);
      } else {
        ReadOrdinary(m[0], tail);
        assert m == [m[0]] + m[1..];
      }
    }
  }

  lemma StopsAtSpecial(c: char, tail: string)
    requires IsSpecial(c)
    ensures ReadToken([c] + tail).0 == ""
  {}

  lemma BareTail(m: string)
    requires m != ""
    ensures Bare(m) <==> !IsSpecial(m[0]) && Bare(m[1..]) && m != "\\"
  {
    if Bare(m[1..]) && !IsSpecial(m[0]) {
      assert forall i :: 0 < i < |m| ==> m[i] == m[1..][i - 1];
    }
    if Bare(m) {
      assert forall i :: 0 <= i < |m[1..]| ==> m[1..][i] == m[i + 1];
    }
  }

  lemma CleanByList(r: MeasureResult, tagKeys: seq<string>, fieldKeys: seq<string>)
    requires Enumerates(tagKeys, r.tags.Keys) && Enumerates(fieldKeys, r.fields.Keys)
    ensures var tags := BaseTags(r) + PairsOf(r.tags, tagKeys);
            && tags != []
            && (CleanParts(r) <==> (forall i :: 0 <= i < |tags| ==> CleanPair(tags[i]))
                                   && (forall i :: 0 <= i < |fieldKeys| ==> Clean(fieldKeys[i])))
  {
    var base, more := BaseTags(r), PairsOf(r.tags, tagKeys);
    var tags := base + more;
    assert tags[..4] == base && forall i :: 0 <= i < |more| ==> tags[4 + i] == more[i];
    assert Clean("source") && Clean("target") && Clean("topology") && Clean("site");
    if forall i :: 0 <= i < |tags| ==> CleanPair(tags[i]) {
      assert CleanPair(tags[0]) && CleanPair(tags[1]) && CleanPair(tags[2]) && CleanPair(tags[3]);
      forall k | k in r.tags
        ensures Clean(k) && Clean(r.tags[k])
      {
        var i :| 0 <= i < |tagKeys| && tagKeys[i] == k;
        assert CleanPair(tags[4 + i]);
      }
      if forall i :: 0 <= i < |fieldKeys| ==> Clean(fieldKeys[i]) {
        forall k | k in r.fields
          ensures Clean(k)
        {
          var i :| 0 <= i < |fieldKeys| && fieldKeys[i] == k;
        }
      }
    }
  }

  // ---- Recovering the result ----

  /** The map a list of pairs describes; the last pair of a key wins. */
  function MapOf<V>(pairs: seq<(string, V)>): map<string, V> {
    if pairs == [] then map[] else MapOf(pairs[..|pairs| - 1])[pairs[|pairs| - 1].0 := pairs[|pairs| - 1].1]
  }

  /** The result a parsed line describes; the first four tags are the base tags. */
  function Rebuild(p: Point): Option<MeasureResult> {
    if |p.tags| < 4 then None
    else Some(MeasureResult(p.measurement, p.tags[0].1, p.tags[1].1, p.tags[3].1, p.tags[2].1,
                            MapOf(p.tags[4..]), MapOf(p.fields), p.sentAt))
  }

  lemma {:induction false} MapOfPairs<V>(m: map<string, V>, keys: seq<string>)
    requires forall k :: k in keys ==> k in m
    ensures forall k :: k in MapOf(PairsOf(m, keys)) <==> k in keys
    ensures forall k :: k in keys ==> MapOf(PairsOf(m, keys))[k] == m[k]
  {
    if keys != [] {
      var n := |keys| - 1;
      MapOfPairs(m, keys[..n]);
      PairsSnoc(m, keys);
      hide PairsOf;
      assert keys == keys[..n] + [keys[n]];
    }
  }

  lemma PairsSnoc<V>(m: map<string, V>, keys: seq<string>)
    requires keys != [] && forall k :: k in keys ==> k in m
    ensures var n := |keys| - 1;
            && PairsOf(m, keys)[..n] == PairsOf(m, keys[..n])
            && |PairsOf(m, keys)| == n + 1 && PairsOf(m, keys)[n] == (keys[n], m[keys[n]])
  {}

  lemma ExpectedRebuilds(r: MeasureResult, tagKeys: seq<string>, fieldKeys: seq<string>)
    requires Enumerates(tagKeys, r.tags.Keys) && Enumerates(fieldKeys, r.fields.Keys)
    ensures Rebuild(Expected(r, tagKeys, fieldKeys)) == Some(r)
  {
    hide MapOf;
    MapOfPairs(r.tags, tagKeys);
    MapOfPairs(r.fields, fieldKeys);
    var more := PairsOf(r.tags, tagKeys);
    assert (BaseTags(r) + more)[4..] == more;
    assert MapOf(more) == r.tags;
    assert MapOf(PairsOf(r.fields, fieldKeys)) == r.fields;
  }

  /** Everything about a clean result can be read off its line: measurement, base tags, tags, fields, time. */
  lemma {:induction false} CleanResultIsRecovered(r: MeasureResult, line: string)
    requires CleanResult(r) && IsLine(r, line)
    ensures ParseLine(line).Some? && Rebuild(ParseLine(line).value) == Some(r)
  {
    hide ParseLine, Rebuild, Expected, CleanResult, LineOf;
    var t, f :| KeysInOrder(t, r.tags.Keys) && KeysInOrder(f, r.fields.Keys) && line == LineOf(r, t, f);
    LineRoundTrip(r, t, f);
    ExpectedRebuilds(r, t, f);
  }

  /** So no two clean results share a line. */
  lemma {:induction false} LineIdentifiesResult(r: MeasureResult, r': MeasureResult, line: string)
    requires CleanResult(r) && IsLine(r, line)
    requires CleanResult(r') && IsLine(r', line)
    ensures r == r'
  {
    hide ParseLine, Rebuild, CleanResult, IsLine;
    CleanResultIsRecovered(r, line);
    CleanResultIsRecovered(r', line);
  }

  /** A concrete loss: a source name that ends in a backslash does not come back. */
  lemma TrailingBackslashIsLost()
    ensures var r := MeasureResult("piccolo_dns", "probe\\", "t", "s", "", map[], map[], 0);
            forall line :: IsLine(r, line) ==> ParseLine(line) != Some(Expected(r, [], []))
  {
    var r := MeasureResult("piccolo_dns", "probe\\", "t", "s", "", map[], map[], 0);
    assert KeysInOrder([], r.tags.Keys) && KeysInOrder([], r.fields.Keys);
    assert "probe\\"[5] == '\\';
    assert !Clean(r.source);
    hide ParseLine, LineOf, Expected, Clean;
    LineRoundTrip(r, [], []);
    forall line | IsLine(r, line)
      ensures ParseLine(line) != Some(Expected(r, [], []))
    {
      assert IsLine(r, LineOf(r, [], []));
      LineIsUnique(r, line, LineOf(r, [], []));
    }
  }

  // ---- Newlines ----

  lemma {:induction false} NewlineInEscape(s: string)
    ensures '\n' in Escape(s) <==> '\n' in s
  {
    EscapeIsEach(s);
    if s != "" {
      NewlineInEscape(s[1..]);
      EscapeIsEach(s[1..]);
      hide Escape;
      assert s == [s[0]] + s[1..];
    }
  }

  /** Some string of r contains a newline. */
  ghost predicate HasNewline(r: MeasureResult) {
    || '\n' in r.measurement || '\n' in r.source || '\n' in r.target || '\n' in r.topology || '\n' in r.site
    || (exists k :: k in r.tags && ('\n' in k || '\n' in r.tags[k]))
    || (exists k :: k in r.fields && '\n' in k)
  }

  lemma NewlineInPair(p: Pair)
    ensures '\n' in PairText(p) <==> '\n' in p.0 || '\n' in p.1
  {
    hide Escape;
    NewlineInEscape(p.0);
    NewlineInEscape(p.1);
  }

  predicate NewlineIn(p: Pair) {
    '\n' in p.0 || '\n' in p.1
  }

  ghost predicate AnyNewline(pairs: seq<Pair>) {
    exists i :: 0 <= i < |pairs| && NewlineIn(pairs[i])
  }

  lemma NewlineInPairs(pairs: seq<Pair>)
    ensures '\n' in Join(PairTexts(pairs), ",") <==> AnyNewline(pairs)
  {
    CharInJoin(PairTexts(pairs), ",", '\n');
    hide PairText;
    forall i | 0 <= i < |pairs|
      ensures '\n' in PairTexts(pairs)[i] <==> NewlineIn(pairs[i])
    {
      NewlineInPair(pairs[i]);
    }
  }

  lemma AnyNewlineConcat(a: seq<Pair>, b: seq<Pair>)
    ensures AnyNewline(a + b) <==> AnyNewline(a) || AnyNewline(b)
  {
    hide NewlineIn;
    if i :| 0 <= i < |a| && NewlineIn(a[i]) {
      assert NewlineIn((a + b)[i]);
    }
    if i :| 0 <= i < |b| && NewlineIn(b[i]) {
      assert NewlineIn((a + b)[|a| + i]);
    }
    if i :| 0 <= i < |a + b| && NewlineIn((a + b)[i]) {
      assert i < |a| ==> NewlineIn(a[i]);
      assert i >= |a| ==> NewlineIn(b[i - |a|]);
    }
  }

  lemma AnyNewlineInBase(r: MeasureResult)
    ensures AnyNewline(BaseTags(r)) <==>
            '\n' in r.source || '\n' in r.target || '\n' in r.topology || '\n' in r.site
  {
    var b := BaseTags(r);
    assert NewlineIn(b[0]) == ('\n' in r.source) && NewlineIn(b[1]) == ('\n' in r.target);
    assert NewlineIn(b[2]) == ('\n' in r.topology) && NewlineIn(b[3]) == ('\n' in r.site);
    hide NewlineIn;
  }

  lemma AnyNewlineInMap(m: map<string, string>, keys: seq<string>)
    requires Enumerates(keys, m.Keys)
    ensures AnyNewline(PairsOf(m, keys)) <==> exists k :: k in m && ('\n' in k || '\n' in m[k])
  {
    var pairs := PairsOf(m, keys);
    if k :| k in m && ('\n' in k || '\n' in m[k]) {
      var i :| 0 <= i < |keys| && keys[i] == k;
      assert NewlineIn(pairs[i]);
    }
    if i :| 0 <= i < |pairs| && NewlineIn(pairs[i]) {
      assert keys[i] in m;
    }
  }

  lemma NewlineInTags(r: MeasureResult, tagKeys: seq<string>)
    requires Enumerates(tagKeys, r.tags.Keys)
    ensures '\n' in Join(PairTexts(BaseTags(r) + PairsOf(r.tags, tagKeys)), ",") <==>
            '\n' in r.source || '\n' in r.target || '\n' in r.topology || '\n' in r.site
            || exists k :: k in r.tags && ('\n' in k || '\n' in r.tags[k])
  {
    hide PairTexts, Join, AnyNewline, BaseTags, PairsOf;
    NewlineInPairs(BaseTags(r) + PairsOf(r.tags, tagKeys));
    AnyNewlineConcat(BaseTags(r), PairsOf(r.tags, tagKeys));
    AnyNewlineInBase(r);
    AnyNewlineInMap(r.tags, tagKeys);
  }

  lemma NewlineInFields(r: MeasureResult, fieldKeys: seq<string>)
    requires Enumerates(fieldKeys, r.fields.Keys)
    ensures Printed(r.fields).Keys == r.fields.Keys
    ensures '\n' in Join(PairTexts(PairsOf(Printed(r.fields), fieldKeys)), ",") <==>
            exists k :: k in r.fields && '\n' in k
  {
    PrintedFields(r.fields);
    hide PairTexts, Join, AnyNewline, PairsOf, Printed, Fixed3;
    NewlineInPairs(PairsOf(Printed(r.fields), fieldKeys));
    AnyNewlineInMap(Printed(r.fields), fieldKeys);
    forall k | k in r.fields
      ensures '\n' !in Printed(r.fields)[k]
    {
      NumbersHaveNoNewline(r.fields[k]);
    }
  }

  lemma NumbersHaveNoNewline(n: int)
    ensures '\n' !in Fixed3(n) && '\n' !in SignedDecimal(n)
  {}

  /** A line contains a newline exactly when one of the result's strings does. */
  lemma {:induction false} NewlineInLine(r: MeasureResult, line: string)
    requires IsLine(r, line)
    ensures '\n' in line <==> HasNewline(r)
  {
    var t, f :| KeysInOrder(t, r.tags.Keys) && KeysInOrder(f, r.fields.Keys) && line == LineOf(r, t, f);
    PrintedFields(r.fields);
    NewlineInTags(r, t);
    NewlineInFields(r, f);
    NumbersHaveNoNewline(r.sentAt);
    NewlineInParts(r.measurement, Join(PairTexts(BaseTags(r) + PairsOf(r.tags, t)), ","),
                   Join(PairTexts(PairsOf(Printed(r.fields), f)), ","), SignedDecimal(r.sentAt));
    hide Join, PairTexts, PairsOf, Printed, SignedDecimal, BaseTags, KeysInOrder;
  }

  lemma NewlineInParts(a: string, b: string, c: string, d: string)
    ensures '\n' in a + "," + b + " " + c + " " + d <==> '\n' in a || '\n' in b || '\n' in c || '\n' in d
  {}
}
