/** Cutting a sequence into batches of a fixed size, as filling and flushing a buffer does. */
module Batching {

  /** The complete batches of n elements. */
  function Full<T>(s: seq<T>, n: nat): (batches: seq<seq<T>>)
    requires n > 0
    ensures forall i :: 0 <= i < |batches| ==> |batches[i]| == n
  {
    if |s| < n then [] else [s[..n]] + Full(s[n..], n)
  }

  /** What remains in the buffer after the complete batches. */
  function Rest<T>(s: seq<T>, n: nat): (r: seq<T>)
    requires n > 0
    ensures |r| < n
  {
    if |s| < n then s else Rest(s[n..], n)
  }

  /** All batches, the last of which may be shorter but is not empty. */
  function Batches<T>(s: seq<T>, n: nat): (batches: seq<seq<T>>)
    requires n > 0
    ensures forall i :: 0 <= i < |batches| ==> 1 <= |batches[i]| <= n
    ensures forall i :: 0 <= i < |batches| - 1 ==> |batches[i]| == n
  {
    Full(s, n) + (if Rest(s, n) == [] then [] else [Rest(s, n)])
  }

  function Concat<T>(batches: seq<seq<T>>): seq<T> {
    if batches == [] then [] else batches[0] + Concat(batches[1..])
  }

  lemma AppendAssociates<T>(a: seq<T>, b: seq<T>, c: seq<T>)
    ensures (a + b) + c == a + (b + c)
  {}

  lemma {:induction false} ConcatAppend<T>(a: seq<seq<T>>, b: seq<seq<T>>)
    ensures Concat(a + b) == Concat(a) + Concat(b)
  {
    if a == [] {
      assert a + b == b;
    } else {
      ConcatAppend(a[1..], b);
      assert (a + b)[0] == a[0] && (a + b)[1..] == a[1..] + b;
      AppendAssociates(a[0], Concat(a[1..]), Concat(b));
    }
  }

  /** Nothing is lost, repeated or reordered by batching. */
  lemma {:induction false} FullAndRest<T>(s: seq<T>, n: nat)
    requires n > 0
    ensures Concat(Full(s, n)) + Rest(s, n) == s
  {
    if |s| >= n {
      FullAndRest(s[n..], n);
      assert Full(s, n)[1..] == Full(s[n..], n);
      assert s == s[..n] + s[n..];
    }
  }

  lemma {:induction false} FullLength<T>(s: seq<T>, n: nat)
    requires n > 0
    ensures |s| == n * |Full(s, n)| + |Rest(s, n)|
  {
    if |s| >= n {
      FullLength(s[n..], n);
      assert n * (1 + |Full(s[n..], n)|) == n + n * |Full(s[n..], n)|;
    }
  }

  lemma {:induction false} BatchesConcat<T>(s: seq<T>, n: nat)
    requires n > 0
    ensures Concat(Batches(s, n)) == s
  {
    FullAndRest(s, n);
    hide Full, Rest;
    if Rest(s, n) != [] {
      ConcatAppend(Full(s, n), [Rest(s, n)]);
      assert Concat([Rest(s, n)]) == Rest(s, n);
    } else {
      assert Batches(s, n) == Full(s, n);
    }
  }

  /** One more element either completes a batch or joins the buffer. */
  lemma {:induction false} OneMore<T>(s: seq<T>, n: nat, x: T)
    requires n > 0
    ensures var b := Rest(s, n) + [x];
            if |b| == n then Full(s + [x], n) == Full(s, n) + [b] && Rest(s + [x], n) == []
            else Full(s + [x], n) == Full(s, n) && Rest(s + [x], n) == b
  {
    if |s| < n {
      if |s| + 1 == n {
        assert (s + [x])[..n] == s + [x] && (s + [x])[n..] == [];
      }
    } else {
      OneMore(s[n..], n, x);
      assert (s + [x])[..n] == s[..n] && (s + [x])[n..] == s[n..] + [x];
    }
  }

  /** The complete batches of a prefix are the first complete batches of the whole. */
  lemma {:induction false} FullIsPrefix<T>(s: seq<T>, t: seq<T>, n: nat)
    requires n > 0
    ensures Full(s, n) <= Full(s + t, n)
  {
    if |s| >= n {
      FullIsPrefix(s[n..], t, n);
      assert (s + t)[..n] == s[..n] && (s + t)[n..] == s[n..] + t;
    }
  }

  // ---- Batching does not look at the elements ----

  function Map<A, B>(f: A -> B, s: seq<A>): (r: seq<B>)
    ensures |r| == |s|
  {
    seq(|s|, i requires 0 <= i < |s| => f(s[i]))
  }

  function MapAll<A, B>(f: A -> B, batches: seq<seq<A>>): (r: seq<seq<B>>)
    ensures |r| == |batches|
  {
    seq(|batches|, i requires 0 <= i < |batches| => Map(f, batches[i]))
  }

  lemma {:induction false} FullCommutes<A, B>(f: A -> B, s: seq<A>, n: nat)
    requires n > 0
    ensures Full(Map(f, s), n) == MapAll(f, Full(s, n)) && Rest(Map(f, s), n) == Map(f, Rest(s, n))
  {
    if |s| >= n {
      FullCommutes(f, s[n..], n);
      assert Map(f, s)[..n] == Map(f, s[..n]) && Map(f, s)[n..] == Map(f, s[n..]);
      assert MapAll(f, [s[..n]] + Full(s[n..], n)) == [Map(f, s[..n])] + MapAll(f, Full(s[n..], n));
    }
  }

  lemma {:induction false} BatchesCommute<A, B>(f: A -> B, s: seq<A>, n: nat)
    requires n > 0
    ensures Batches(Map(f, s), n) == MapAll(f, Batches(s, n))
  {
    FullCommutes(f, s, n);
    hide Full, Rest;
    var full, rest := Full(s, n), Rest(s, n);
    assert |Map(f, rest)| == |rest|;
    if rest != [] {
      assert MapAll(f, full + [rest]) == MapAll(f, full) + [Map(f, rest)];
    }
  }

  lemma {:induction false} ConcatCommutes<A, B>(f: A -> B, batches: seq<seq<A>>)
    ensures Concat(MapAll(f, batches)) == Map(f, Concat(batches))
  {
    if batches != [] {
      ConcatCommutes(f, batches[1..]);
      assert MapAll(f, batches)[1..] == MapAll(f, batches[1..]);
    }
  }
}
