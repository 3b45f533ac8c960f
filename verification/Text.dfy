/** Strings: joining and splitting, decimal numbers, and the byte-wise order of sort.Strings. */
module Text {
  import opened Options
  import Words

  lemma Assoc(a: string, b: string, c: string)
    ensures (a + b) + c == a + (b + c)
  {}

  lemma HeadFirst(s: string, t: string)
    requires s != ""
    ensures s == [s[0]] + s[1..]
    ensures s + t == [s[0]] + (s[1..] + t)
  {}

  // ---- Joining and splitting ----

  function Join(parts: seq<string>, sep: string): string {
    if |parts| == 0 then ""
    else if |parts| == 1 then parts[0]
    else parts[0] + sep + Join(parts[1..], sep)
  }

  /** The pieces of s between occurrences of c; never empty. */
  function Split(s: string, c: char): (pieces: seq<string>)
    ensures |pieces| > 0
  {
    if s == "" then [""]
    else
      var rest := Split(s[1..], c);
      if s[0] == c then [""] + rest else [[s[0]] + rest[0]] + rest[1..]
  }

  lemma {:induction false} SplitPiecesAreFree(s: string, c: char)
    ensures forall i :: 0 <= i < |Split(s, c)| ==> c !in Split(s, c)[i]
  {
    if s != "" {
      SplitPiecesAreFree(s[1..], c);
    }
  }

  lemma {:induction false} SplitAfterPiece(piece: string, c: char, rest: string)
    requires c !in piece
    ensures Split(piece, c) == [piece]
    ensures Split(piece + [c] + rest, c) == [piece] + Split(rest, c)
  {
    if piece == "" {
      assert piece + [c] + rest == [c] + rest;
      assert ([c] + rest)[1..] == rest;
    } else {
      SplitAfterPiece(piece[1..], c, rest);
      assert (piece + [c] + rest)[1..] == piece[1..] + [c] + rest;
      assert [piece[0]] + piece[1..] == piece;
    }
  }

  /** Splitting undoes joining exactly when no part contains the separator. */
  lemma {:induction false} SplitUndoesJoin(parts: seq<string>, c: char)
    requires parts != []
    ensures Split(Join(parts, [c]), c) == parts <==> forall i :: 0 <= i < |parts| ==> c !in parts[i]
  {
    if forall i :: 0 <= i < |parts| ==> c !in parts[i] {
      SplitJoinOfFreeParts(parts, c);
    } else {
      SplitPiecesAreFree(Join(parts, [c]), c);
    }
  }

  lemma {:induction false} SplitJoinOfFreeParts(parts: seq<string>, c: char)
    requires parts != [] && forall i :: 0 <= i < |parts| ==> c !in parts[i]
    ensures Split(Join(parts, [c]), c) == parts
  {
    if |parts| == 1 {
      SplitAfterPiece(parts[0], c, "");
    } else {
      SplitJoinOfFreeParts(parts[1..], c);
      SplitAfterPiece(parts[0], c, Join(parts[1..], [c]));
    }
  }

  function Occurrences(s: string, c: char): nat {
    if s == "" then 0 else (if s[0] == c then 1 else 0) + Occurrences(s[1..], c)
  }

  lemma {:induction false} PiecesAreCounted(s: string, c: char)
    ensures |Split(s, c)| == 1 + Occurrences(s, c)
  {
    if s != "" {
      PiecesAreCounted(s[1..], c);
    }
  }

  lemma {:induction false} OccurrencesAdd(s: string, t: string, c: char)
    ensures Occurrences(s + t, c) == Occurrences(s, c) + Occurrences(t, c)
  {
    if s == "" {
      assert s + t == t;
    } else {
      OccurrencesAdd(s[1..], t, c);
      assert (s + t)[0] == s[0] && (s + t)[1..] == s[1..] + t;
    }
  }

  lemma {:induction false} AbsentMeansNone(s: string, c: char)
    ensures Occurrences(s, c) == 0 <==> c !in s
  {
    if s != "" {
      AbsentMeansNone(s[1..], c);
      assert s == [s[0]] + s[1..];
    }
  }

  /** Splitting joined parts yields one piece for each exactly when no part contains the separator. */
  lemma {:induction false} JoinedPieces(parts: seq<string>, c: char)
    requires parts != []
    ensures |Split(Join(parts, [c]), c)| >= |parts|
    ensures |Split(Join(parts, [c]), c)| == |parts| <==> forall i :: 0 <= i < |parts| ==> c !in parts[i]
  {
    PiecesAreCounted(Join(parts, [c]), c);
    AbsentMeansNone(parts[0], c);
    if |parts| > 1 {
      var more := parts[1..];
      JoinedPieces(more, c);
      PiecesAreCounted(Join(more, [c]), c);
      OccurrencesAdd(parts[0] + [c], Join(more, [c]), c);
      OccurrencesAdd(parts[0], [c], c);
      assert Occurrences([c], c) == 1;
      assert forall i :: 0 <= i < |more| ==> more[i] == parts[i + 1];
      hide Split, Occurrences;
      if forall i :: 0 <= i < |more| ==> c !in more[i] {
        assert forall i :: 0 < i < |parts| ==> c !in parts[i] by {
          assert forall i :: 0 < i < |parts| ==> parts[i] == more[i - 1];
        }
      }
    }
  }

  lemma {:induction false} CharInJoin(parts: seq<string>, sep: string, c: char)
    requires c !in sep
    ensures c in Join(parts, sep) <==> exists i :: 0 <= i < |parts| && c in parts[i]
  {
    if |parts| > 1 {
      CharInJoin(parts[1..], sep, c);
      forall i | 1 <= i < |parts|
        ensures parts[1..][i - 1] == parts[i]
      {}
    }
  }

  // ---- Decimal numbers ----

  predicate IsDigit(c: char) {
    '0' <= c <= '9'
  }

  function Digit(d: nat): (c: char)
    requires d < 10
    ensures IsDigit(c)
  {
    '0' + d as char
  }

  function DigitValue(c: char): nat
    requires IsDigit(c)
  {
    c as int - '0' as int
  }

  predicate AllDigits(s: string) {
    forall i :: 0 <= i < |s| ==> IsDigit(s[i])
  }

  function Decimal(n: nat): (s: string)
    ensures s != "" && AllDigits(s)
  {
    if n < 10 then [Digit(n)] else Decimal(n / 10) + [Digit(n % 10)]
  }

  function ParseDigits(s: string): nat
    requires AllDigits(s)
  {
    if s == "" then 0 else 10 * ParseDigits(s[..|s| - 1]) + DigitValue(s[|s| - 1])
  }

  function ParseNat(s: string): Option<nat> {
    if s != "" && AllDigits(s) then Some(ParseDigits(s)) else None
  }

  lemma {:induction false} DecimalRoundTrip(n: nat)
    ensures ParseNat(Decimal(n)) == Some(n)
  {
    if n >= 10 {
      DecimalRoundTrip(n / 10);
      assert Decimal(n)[..|Decimal(n)| - 1] == Decimal(n / 10);
    } else {
      var s := [Digit(n)];
      assert s[..|s| - 1] == "";
      assert ParseDigits(s) == DigitValue(Digit(n));
    }
  }

  function Pow10(i: nat): (p: nat)
    ensures p >= 1
  {
    if i == 0 then 1 else 10 * Pow10(i - 1)
  }

  lemma QuotientTwice(n: nat, p: nat)
    requires p > 0
    ensures n / (10 * p) == (n / 10) / p
  {
    var q, r := (n / 10) / p, (n / 10) % p;
    assert n / 10 == q * p + r;
    assert n == q * (10 * p) + (10 * r + n % 10) by {
      assert q * (10 * p) == 10 * (q * p);
    }
    Words.QuotientNonNegative(n / 10, p);
    Words.RemainderUnique(n, 10 * p, q, 10 * r + n % 10);
  }

  lemma QuotientByPow10(n: nat, i: nat)
    ensures n / Pow10(i + 1) == (n / 10) / Pow10(i)
  {
    var p := Pow10(i);
    assert Pow10(i + 1) == 10 * p;
    hide Pow10;
    QuotientTwice(n, p);
  }

  /** Most significant digit first, no leading zero. */
  lemma {:induction false} DecimalDigits(n: nat, i: nat)
    requires i < |Decimal(n)|
    ensures Decimal(n)[|Decimal(n)| - 1 - i] == "0123456789"[n / Pow10(i) % 10]
    ensures n > 0 ==> Decimal(n)[0] != '0'
    decreases n
  {
    if n >= 10 {
      DecimalDigits(n / 10, if i == 0 then 0 else i - 1);
      if i > 0 {
        QuotientByPow10(n, i - 1);
      }
    }
  }

  /** %d of a signed integer. */
  function SignedDecimal(n: int): string {
    if n < 0 then "-" + Decimal(-n) else Decimal(n)
  }

  function ParseInt(s: string): Option<int> {
    if s != "" && s[0] == '-' then
      match ParseNat(s[1..]) case None => None case Some(n) => Some(-(n as int))
    else
      match ParseNat(s) case None => None case Some(n) => Some(n)
  }

  lemma {:induction false} SignedDecimalRoundTrip(n: int)
    ensures ParseInt(SignedDecimal(n)) == Some(n)
  {
    if n < 0 {
      DecimalRoundTrip(-n);
      assert ("-" + Decimal(-n))[1..] == Decimal(-n);
    } else {
      DecimalRoundTrip(n);
    }
  }

  /** %.3f of a number of thousandths. */
  function Fixed3(thousandths: int): string {
    var a := if thousandths < 0 then -thousandths else thousandths;
    (if thousandths < 0 then "-" else "")
    + Decimal(a / 1000) + "." + ThreeDigits(a % 1000)
  }

  function ThreeDigits(t: nat): (s: string)
    requires t < 1000
    ensures |s| == 3 && AllDigits(s)
  {
    [Digit(t / 100), Digit(t / 10 % 10), Digit(t % 10)]
  }

  function ParseUnsignedFixed3(s: string): Option<nat> {
    if |s| < 5 || s[|s| - 4] != '.' then None
    else
      match (ParseNat(s[..|s| - 4]), ParseNat(s[|s| - 3..]))
      case (Some(whole), Some(frac)) => Some(1000 * whole + frac)
      case _ => None
  }

  function ParseFixed3(s: string): Option<int> {
    if s != "" && s[0] == '-' then
      match ParseUnsignedFixed3(s[1..]) case None => None case Some(n) => Some(-(n as int))
    else
      match ParseUnsignedFixed3(s) case None => None case Some(n) => Some(n)
  }

  lemma ThreeDigitsRoundTrip(t: nat)
    requires t < 1000
    ensures ParseNat(ThreeDigits(t)) == Some(t)
  {
    var s := ThreeDigits(t);
    assert s[..2][..1][..0] == "";
    assert ParseDigits(s[..2][..1]) == t / 100;
    assert ParseDigits(s[..2]) == 10 * (t / 100) + t / 10 % 10;
    assert t / 10 == 10 * (t / 100) + t / 10 % 10;
  }

  lemma PointSplits(whole: string, frac: string)
    requires |frac| == 3
    ensures var body := whole + "." + frac;
            body[..|body| - 4] == whole && body[|body| - 3..] == frac && body[|body| - 4] == '.'
  {}

  lemma UnsignedFixed3RoundTrip(a: nat)
    ensures ParseUnsignedFixed3(Decimal(a / 1000) + "." + ThreeDigits(a % 1000)) == Some(a)
  {
    hide Decimal, ThreeDigits, ParseNat;
    DecimalRoundTrip(a / 1000);
    ThreeDigitsRoundTrip(a % 1000);
    PointSplits(Decimal(a / 1000), ThreeDigits(a % 1000));
  }

  lemma {:induction false} Fixed3RoundTrip(thousandths: int)
    ensures ParseFixed3(Fixed3(thousandths)) == Some(thousandths)
  {
    hide Decimal, ThreeDigits, ParseUnsignedFixed3;
    var a := if thousandths < 0 then -thousandths else thousandths;
    var body := Decimal(a / 1000) + "." + ThreeDigits(a % 1000);
    UnsignedFixed3RoundTrip(a);
    if thousandths < 0 {
      assert Fixed3(thousandths) == "-" + body;
      assert ("-" + body)[1..] == body;
    } else {
      assert Fixed3(thousandths) == body;
      assert IsDigit(body[0]);
    }
  }

  /** The point, the padding of the fraction and the sign. */
  lemma {:induction false} Fixed3Examples()
    ensures Fixed3(12500) == "12.500" && Fixed3(-7) == "-0.007" && SignedDecimal(-12) == "-12"
  {
    assert Decimal(12) == Decimal(1) + "2";
    assert ThreeDigits(500) == "500" && ThreeDigits(7) == "007";
    hide ThreeDigits;
  }

  // ---- The order of sort.Strings ----

  /** Lexicographic order by character. */
  predicate AtMost(a: string, b: string) {
    a == "" || (b != "" && (a[0] < b[0] || (a[0] == b[0] && AtMost(a[1..], b[1..]))))
  }

  /** The order of Go's strings: a prefix comes first, and otherwise the first difference decides. */
  lemma {:induction false} AtMostIsLexicographic(a: string, b: string)
    ensures AtMost(a, b) <==>
            a <= b || exists i :: 0 <= i < |a| && i < |b| && a[..i] == b[..i] && a[i] < b[i]
  {
    if a != "" && b != "" {
      var a', b' := a[1..], b[1..];
      AtMostIsLexicographic(a', b');
      if i :| 0 <= i < |a'| && i < |b'| && a'[..i] == b'[..i] && a'[i] < b'[i] {
        assert a[0] == b[0] ==> a[..i + 1] == [a[0]] + a'[..i] == b[..i + 1] && a[i + 1] < b[i + 1];
      }
      if i :| 0 < i < |a| && i < |b| && a[..i] == b[..i] && a[i] < b[i] {
        assert a[0] == a[..i][0] == b[0];
        assert a'[..i - 1] == a[..i][1..] == b'[..i - 1] && a'[i - 1] < b'[i - 1];
      }
      assert a[0] == b[0] ==> (a <= b <==> a' <= b');
      assert a[..0] == b[..0];
    }
  }

  lemma {:induction false} AtMostTotal(a: string, b: string)
    ensures AtMost(a, b) || AtMost(b, a)
  {
    if a != "" && b != "" && a[0] == b[0] {
      AtMostTotal(a[1..], b[1..]);
    }
  }

  lemma {:induction false} AtMostTransitive(a: string, b: string, c: string)
    requires AtMost(a, b) && AtMost(b, c)
    ensures AtMost(a, c)
  {
    if a != "" && a[0] == b[0] == c[0] {
      AtMostTransitive(a[1..], b[1..], c[1..]);
    }
  }

  lemma {:induction false} AtMostAntisymmetric(a: string, b: string)
    requires AtMost(a, b) && AtMost(b, a)
    ensures a == b
  {
    if a != "" && b != "" {
      AtMostAntisymmetric(a[1..], b[1..]);
      assert a == [a[0]] + a[1..] && b == [b[0]] + b[1..];
    }
  }

  ghost predicate Sorted(s: seq<string>) {
    forall i, j :: 0 <= i < j < |s| ==> AtMost(s[i], s[j])
  }

  predicate NoDuplicates(s: seq<string>) {
    forall i, j :: 0 <= i < j < |s| ==> s[i] != s[j]
  }

  /** Lists each element of keys exactly once, in some order: what ranging over a map gives. */
  ghost predicate Enumerates(list: seq<string>, keys: set<string>) {
    NoDuplicates(list) && forall k :: k in list <==> k in keys
  }

  function Insert(x: string, s: seq<string>): seq<string> {
    if s == [] then [x]
    else if AtMost(x, s[0]) then [x] + s
    else [s[0]] + Insert(x, s[1..])
  }

  function Sort(s: seq<string>): seq<string> {
    if s == [] then [] else Insert(s[0], Sort(s[1..]))
  }

  lemma {:induction false} InsertSorted(x: string, s: seq<string>)
    requires Sorted(s)
    ensures Sorted(Insert(x, s))
    ensures forall k :: k in Insert(x, s) <==> k == x || k in s
  {
    if s != [] {
      assert s == [s[0]] + s[1..];
      if AtMost(x, s[0]) {
        forall j | 0 <= j < |s|
          ensures AtMost(x, s[j])
        {
          if j > 0 {
            AtMostTransitive(x, s[0], s[j]);
          }
        }
      } else {
        AtMostTotal(x, s[0]);
        InsertSorted(x, s[1..]);
        var r := Insert(x, s[1..]);
        forall j | 0 <= j < |r|
          ensures AtMost(s[0], r[j])
        {
          assert r[j] in r;
        }
      }
    }
  }

  lemma {:induction false} InsertKeepsDistinct(x: string, s: seq<string>)
    requires x !in s && NoDuplicates(s)
    ensures NoDuplicates(Insert(x, s)) && forall k :: k in Insert(x, s) <==> k == x || k in s
  {
    if s != [] && !AtMost(x, s[0]) {
      InsertKeepsDistinct(x, s[1..]);
      var r := Insert(x, s[1..]);
      forall j | 0 <= j < |r|
        ensures r[j] != s[0]
      {
        assert r[j] in r;
      }
    }
  }

  lemma {:induction false} SortSorts(s: seq<string>)
    ensures Sorted(Sort(s))
    ensures forall k :: k in Sort(s) <==> k in s
    ensures NoDuplicates(s) ==> NoDuplicates(Sort(s))
  {
    if s != [] {
      SortSorts(s[1..]);
      InsertSorted(s[0], Sort(s[1..]));
      if NoDuplicates(s) {
        InsertKeepsDistinct(s[0], Sort(s[1..]));
      }
      assert s == [s[0]] + s[1..];
    }
  }

  lemma {:induction false} SortedEnumerationUnique(a: seq<string>, b: seq<string>, keys: set<string>)
    requires Sorted(a) && Enumerates(a, keys)
    requires Sorted(b) && Enumerates(b, keys)
    ensures a == b
  {
    if a == [] || b == [] {
      EmptyTogether(a, keys);
      EmptyTogether(b, keys);
    } else {
      assert a[0] in b && b[0] in a;
      SameFirst(a, b);
      assert a == [a[0]] + a[1..] && b == [b[0]] + b[1..];
      assert Enumerates(a[1..], keys - {a[0]}) by {
        TailEnumerates(a, keys);
      }
      assert Enumerates(b[1..], keys - {a[0]}) by {
        TailEnumerates(b, keys);
      }
      SortedEnumerationUnique(a[1..], b[1..], keys - {a[0]});
    }
  }

  lemma EmptyTogether(s: seq<string>, keys: set<string>)
    requires Enumerates(s, keys)
    ensures s == [] <==> keys == {}
  {
    if s != [] {
      assert s[0] in s;
    }
  }

  lemma SameFirst(a: seq<string>, b: seq<string>)
    requires Sorted(a) && Sorted(b) && a != [] && b != [] && a[0] in b && b[0] in a
    ensures a[0] == b[0]
  {
    var i :| 0 <= i < |b| && b[i] == a[0];
    var j :| 0 <= j < |a| && a[j] == b[0];
    if i != 0 && j != 0 {
      AtMostAntisymmetric(a[0], b[0]);
    }
  }

  lemma TailEnumerates(s: seq<string>, keys: set<string>)
    requires s != [] && Enumerates(s, keys)
    ensures Enumerates(s[1..], keys - {s[0]})
  {
    assert s == [s[0]] + s[1..];
  }
}
