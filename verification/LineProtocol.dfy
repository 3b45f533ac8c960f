/** One measurement result as an InfluxDB line, and the parser that reads such lines back. */
module LineProtocol {
  import opened Text

  /** Field values are held in thousandths, the precision the line keeps. */
  datatype MeasureResult = MeasureResult(
    measurement: string, source: string, target: string, site: string, topology: string,
    tags: map<string, string>, fields: map<string, int>, sentAt: int)

  type Pair = (string, string)

  // ---- Printing ----

  /** strings.ReplaceAll with a one-character needle. */
  function ReplaceAll(s: string, c: char, with: string): string {
    if s == "" then ""
    else (if s[0] == c then with else [s[0]]) + ReplaceAll(s[1..], c, with)
  }

  function Escape(s: string): string {
    ReplaceAll(ReplaceAll(ReplaceAll(s, ' ', "\\ "), ',', "\\,"), '=', "\\=")
  }

  function PairText(p: Pair): string {
    Escape(p.0) + "=" + Escape(p.1)
  }

  function PairTexts(pairs: seq<Pair>): seq<string> {
    seq(|pairs|, i requires 0 <= i < |pairs| => PairText(pairs[i]))
  }

  function BaseTags(r: MeasureResult): seq<Pair> {
    [("source", r.source), ("target", r.target), ("topology", r.topology), ("site", r.site)]
  }

  /** The pairs of a map in the order of keys. */
  function PairsOf<V>(m: map<string, V>, keys: seq<string>): seq<(string, V)>
    requires forall k :: k in keys ==> k in m
  {
    seq(|keys|, i requires 0 <= i < |keys| => (keys[i], m[keys[i]]))
  }

  /** The field values as %.3f prints them. */
  function Printed(fields: map<string, int>): map<string, string> {
    map k | k in fields :: Fixed3(fields[k])
  }

  function LineOf(r: MeasureResult, tagKeys: seq<string>, fieldKeys: seq<string>): string
    requires forall k :: k in tagKeys ==> k in r.tags
    requires forall k :: k in fieldKeys ==> k in r.fields
  {
    r.measurement + "," + Join(PairTexts(BaseTags(r) + PairsOf(r.tags, tagKeys)), ",")
    + " " + Join(PairTexts(PairsOf(Printed(r.fields), fieldKeys)), ",") + " " + SignedDecimal(r.sentAt)
  }

  ghost predicate KeysInOrder(keys: seq<string>, all: set<string>) {
    Sorted(keys) && Enumerates(keys, all)
  }

  /** line is the line of r: its tags and its fields appear in key order. */
  ghost predicate IsLine(r: MeasureResult, line: string) {
    exists tagKeys, fieldKeys :: KeysInOrder(tagKeys, r.tags.Keys) && KeysInOrder(fieldKeys, r.fields.Keys)
                              && line == LineOf(r, tagKeys, fieldKeys)
  }

  /** tagOrder and fieldOrder are the orders in which ranging over the maps happens to yield the keys. */
  method LineProtocolResult(r: MeasureResult, tagOrder: seq<string>, fieldOrder: seq<string>) returns (line: string)
    requires Enumerates(tagOrder, r.tags.Keys) && Enumerates(fieldOrder, r.fields.Keys)
    ensures IsLine(r, line)
  {
    hide Escape, PairTexts, PairsOf, Printed, Fixed3, Join;
    BaseTagTexts(r);
    var tagParts := ["source=" + Escape(r.source), "target=" + Escape(r.target),
                     "topology=" + Escape(r.topology), "site=" + Escape(r.site)];
    var tagKeys := Sort(tagOrder);
    SortSorts(tagOrder);
    var i := 0;
    while i < |tagKeys|
      invariant 0 <= i <= |tagKeys|
      invariant tagParts == PairTexts(BaseTags(r) + PairsOf(r.tags, tagKeys[..i]))
    {
      var k := tagKeys[i];
      PairTextsStep(BaseTags(r), r.tags, tagKeys, i);
      tagParts := tagParts + [Escape(k) + "=" + Escape(r.tags[k])];
      i := i + 1;
    }
    assert tagKeys[..i] == tagKeys;

    var fieldKeys := Sort(fieldOrder);
    SortSorts(fieldOrder);
    PrintedFields(r.fields);
    var fieldParts := [];
    i := 0;
    NoFields(r.fields);
    while i < |fieldKeys|
      invariant 0 <= i <= |fieldKeys|
      invariant fieldParts == PairTexts([] + PairsOf(Printed(r.fields), fieldKeys[..i]))
    {
      var k := fieldKeys[i];
      PairTextsStep([], Printed(r.fields), fieldKeys, i);
      NumbersArePlain(r.fields[k]);
      PlainIsUnescaped(Fixed3(r.fields[k]));
      fieldParts := fieldParts + [Escape(k) + "=" + Fixed3(r.fields[k])];
      i := i + 1;
    }
    assert fieldKeys[..i] == fieldKeys;
    assert [] + PairsOf(Printed(r.fields), fieldKeys) == PairsOf(Printed(r.fields), fieldKeys);
    line := r.measurement + "," + Join(tagParts, ",") + " " + Join(fieldParts, ",") + " " + SignedDecimal(r.sentAt);
    assert line == LineOf(r, tagKeys, fieldKeys);
  }

  lemma PrintedFields(fields: map<string, int>)
    ensures Printed(fields).Keys == fields.Keys
    ensures forall k :: k in fields ==> Printed(fields)[k] == Fixed3(fields[k])
  {}

  lemma NoFields(fields: map<string, int>)
    ensures PairTexts([] + PairsOf(Printed(fields), [])) == []
  {}

  lemma PairTextsStep(base: seq<Pair>, m: map<string, string>, keys: seq<string>, i: nat)
    requires i < |keys| && forall k :: k in keys ==> k in m
    ensures PairTexts(base + PairsOf(m, keys[..i + 1]))
         == PairTexts(base + PairsOf(m, keys[..i])) + [Escape(keys[i]) + "=" + Escape(m[keys[i]])]
  {
    hide Escape;
    assert base + PairsOf(m, keys[..i + 1]) == base + PairsOf(m, keys[..i]) + [(keys[i], m[keys[i]])];
  }

  lemma BaseTagTexts(r: MeasureResult)
    ensures PairTexts(BaseTags(r) + PairsOf(r.tags, []))
         == ["source=" + Escape(r.source), "target=" + Escape(r.target),
             "topology=" + Escape(r.topology), "site=" + Escape(r.site)]
  {
    hide Escape;
    PlainIsUnescaped("source");
    PlainIsUnescaped("target");
    PlainIsUnescaped("topology");
    PlainIsUnescaped("site");
    var b := BaseTags(r);
    assert b + PairsOf(r.tags, []) == b;
    assert "source" + "=" == "source=" && "target" + "=" == "target=";
    assert "topology" + "=" == "topology=" && "site" + "=" == "site=";
  }

  /** The line does not depend on the order in which map iteration yields the keys. */
  lemma {:induction false} LineIsUnique(r: MeasureResult, a: string, b: string)
    requires IsLine(r, a) && IsLine(r, b)
    ensures a == b
  {
    var t, f :| KeysInOrder(t, r.tags.Keys) && KeysInOrder(f, r.fields.Keys) && a == LineOf(r, t, f);
    var t', f' :| KeysInOrder(t', r.tags.Keys) && KeysInOrder(f', r.fields.Keys) && b == LineOf(r, t', f');
    SortedEnumerationUnique(t, t', r.tags.Keys);
    SortedEnumerationUnique(f, f', r.fields.Keys);
  }

  // ---- What escaping does ----

  predicate IsSpecial(c: char) {
    c == ' ' || c == ',' || c == '='
  }

  /** Escaping puts a backslash before each special character, and nothing else. */
  function EscapeEach(s: string): string {
    if s == "" then ""
    else (if IsSpecial(s[0]) then ['\\', s[0]] else [s[0]]) + EscapeEach(s[1..])
  }

  lemma ReplaceAllCons(x: char, t: string, c: char, with: string)
    ensures ReplaceAll([x] + t, c, with) == (if x == c then with else [x]) + ReplaceAll(t, c, with)
  {
    assert ([x] + t)[1..] == t;
  }

  lemma {:induction false} ReplaceAllConcat(s: string, t: string, c: char, with: string)
    ensures ReplaceAll(s + t, c, with) == ReplaceAll(s, c, with) + ReplaceAll(t, c, with)
  {
    if s == "" {
      assert s + t == t;
    } else {
      hide ReplaceAll;
      HeadFirst(s, t);
      ReplaceAllConcat(s[1..], t, c, with);
      ReplaceAllCons(s[0], s[1..] + t, c, with);
      ReplaceAllCons(s[0], s[1..], c, with);
      Assoc(if s[0] == c then with else [s[0]], ReplaceAll(s[1..], c, with), ReplaceAll(t, c, with));
    }
  }

  lemma ReplaceAllShort(a: char, b: char, c: char, with: string)
    ensures ReplaceAll([a], c, with) == if a == c then with else [a]
    ensures ReplaceAll([a, b], c, with) == ReplaceAll([a], c, with) + ReplaceAll([b], c, with)
  {
    assert [a, b] == [a] + [b];
    ReplaceAllConcat([a], [b], c, with);
  }

  lemma EscapeOne(a: char)
    ensures Escape([a]) == if IsSpecial(a) then ['\\', a] else [a]
  {
    ReplaceAllShort(a, a, ' ', "\\ ");
    ReplaceAllShort(a, a, ',', "\\,");
    ReplaceAllShort(a, a, '=', "\\=");
    ReplaceAllShort('\\', a, ',', "\\,");
    ReplaceAllShort('\\', a, '=', "\\=");
    ReplaceAllShort('\\', '\\', ',', "\\,");
    ReplaceAllShort('\\', '\\', '=', "\\=");
  }

  lemma {:induction false} EscapeIsEach(s: string)
    ensures Escape(s) == EscapeEach(s)
  {
    if s != "" {
      var a, t := [s[0]], s[1..];
      EscapeIsEach(t);
      assert s == a + t;
      ReplaceAllConcat(a, t, ' ', "\\ ");
      ReplaceAllConcat(ReplaceAll(a, ' ', "\\ "), ReplaceAll(t, ' ', "\\ "), ',', "\\,");
      ReplaceAllConcat(ReplaceAll(ReplaceAll(a, ' ', "\\ "), ',', "\\,"),
                       ReplaceAll(ReplaceAll(t, ' ', "\\ "), ',', "\\,"), '=', "\\=");
      EscapeOne(s[0]);
    }
  }

  predicate Plain(s: string) {
    forall i :: 0 <= i < |s| ==> !IsSpecial(s[i]) && s[i] != '\\'
  }

  lemma {:induction false} PlainIsUnescaped(s: string)
    requires Plain(s)
    ensures Escape(s) == s
  {
    EscapeIsEach(s);
    if s != "" {
      PlainIsUnescaped(s[1..]);
      EscapeIsEach(s[1..]);
      assert s == [s[0]] + s[1..];
    }
  }

  lemma NumbersArePlain(n: int)
    ensures Plain(Fixed3(n))
  {}

  // ---- The line, written out ----

  lemma JoinMore(first: string, more: seq<string>)
    requires more != []
    ensures Join([first] + more, ",") == first + "," + Join(more, ",")
  {
    assert ([first] + more)[1..] == more;
  }

  lemma JoinFive(a: string, b: string, c: string, d: string, e: string)
    ensures Join([a, b, c, d] + [e], ",") == a + "," + (b + "," + (c + "," + (d + "," + e)))
  {
    JoinMore(d, [e]);
    JoinMore(c, [d] + [e]);
    JoinMore(b, [c] + ([d] + [e]));
    JoinMore(a, [b] + ([c] + ([d] + [e])));
    assert [a, b, c, d] + [e] == [a] + ([b] + ([c] + ([d] + [e])));
    assert Join([e], ",") == e;
    hide Join;
  }

  lemma OnlyKey(keys: seq<string>, k: string)
    requires Enumerates(keys, {k})
    ensures keys == [k]
  {
    assert k in keys;
    assert keys[0] in keys && keys[|keys| - 1] in keys;
    assert keys[0] == keys[|keys| - 1];
  }

  lemma TagTexts(r: MeasureResult, tag: string)
    requires tag in r.tags
    ensures PairTexts(BaseTags(r) + PairsOf(r.tags, [tag]))
         == ["source=" + Escape(r.source), "target=" + Escape(r.target),
             "topology=" + Escape(r.topology), "site=" + Escape(r.site)] + [Escape(tag) + "=" + Escape(r.tags[tag])]
  {
    BaseTagTexts(r);
    PairTextsStep(BaseTags(r), r.tags, [tag], 0);
    assert [tag][..0] == [] && [tag][..1] == [tag];
    hide *;
  }

  lemma TagsWrittenOut(r: MeasureResult, tag: string)
    requires tag in r.tags
    ensures Join(PairTexts(BaseTags(r) + PairsOf(r.tags, [tag])), ",")
         == "source=" + Escape(r.source) + "," + ("target=" + Escape(r.target) + ","
            + ("topology=" + Escape(r.topology) + "," + ("site=" + Escape(r.site) + ","
            + (Escape(tag) + "=" + Escape(r.tags[tag])))))
  {
    TagTexts(r, tag);
    JoinFive("source=" + Escape(r.source), "target=" + Escape(r.target), "topology=" + Escape(r.topology),
             "site=" + Escape(r.site), Escape(tag) + "=" + Escape(r.tags[tag]));
    hide *;
  }

  lemma FieldWrittenOut(fields: map<string, int>, field: string)
    requires field in fields
    ensures Join(PairTexts(PairsOf(Printed(fields), [field])), ",") == Escape(field) + "=" + Fixed3(fields[field])
  {
    NoFields(fields);
    PairTextsStep([], Printed(fields), [field], 0);
    NumbersArePlain(fields[field]);
    PlainIsUnescaped(Fixed3(fields[field]));
    hide Escape, PairTexts, PairsOf, Fixed3;
    assert [field][..0] == [] && [field][..1] == [field];
    assert [] + PairsOf(Printed(fields), [field]) == PairsOf(Printed(fields), [field]);
  }

  /** The line of a result with one tag and one field: the base tags first, the time last. */
  lemma {:induction false} LineWrittenOut(r: MeasureResult, tag: string, field: string, line: string)
    requires r.tags.Keys == {tag} && r.fields.Keys == {field} && IsLine(r, line)
    ensures line == r.measurement + ","
                    + ("source=" + Escape(r.source) + "," + ("target=" + Escape(r.target) + ","
                       + ("topology=" + Escape(r.topology) + "," + ("site=" + Escape(r.site) + ","
                       + (Escape(tag) + "=" + Escape(r.tags[tag]))))))
                    + " " + (Escape(field) + "=" + Fixed3(r.fields[field])) + " " + SignedDecimal(r.sentAt)
  {
    var t, f :| KeysInOrder(t, r.tags.Keys) && KeysInOrder(f, r.fields.Keys) && line == LineOf(r, t, f);
    OnlyKey(t, tag);
    OnlyKey(f, field);
    TagsWrittenOut(r, tag);
    FieldWrittenOut(r.fields, field);
    hide Escape, PairTexts, BaseTags, PairsOf, Fixed3, SignedDecimal, Sorted, Enumerates, Join, Printed;
  }
}
