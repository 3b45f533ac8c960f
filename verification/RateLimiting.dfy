/** The reflector's token bucket per source address. Tokens and clock readings (in seconds) are reals. */
module RateLimiting {

  datatype Bucket = Bucket(tokens: real, lastFill: real)

  datatype Arrival = Arrival(ip: string, now: real)

  type Buckets = map<string, Bucket>

  /** The tokens that t seconds bring in. */
  function Refill(rate: int, t: real): real {
    t * rate as real
  }

  function Capped(rate: int, tokens: real): real {
    if tokens > rate as real then rate as real else tokens
  }

  /** The new buckets and whether the packet is admitted. */
  function AllowStep(rate: int, buckets: Buckets, a: Arrival): (Buckets, bool) {
    if rate <= 0 then (buckets, true)
    else
      var b := if a.ip in buckets then buckets[a.ip] else Bucket(rate as real, a.now);
      var tokens := Capped(rate, b.tokens + Refill(rate, a.now - b.lastFill));
      if tokens >= 1.0 then (buckets[a.ip := Bucket(tokens - 1.0, a.now)], true)
      else (buckets[a.ip := Bucket(tokens, a.now)], false)
  }

  // ---- Runs over a whole arrival trace ----

  function BucketsAfter(rate: int, trace: seq<Arrival>): Buckets {
    if trace == [] then map[]
    else
      var n := |trace| - 1;
      AllowStep(rate, BucketsAfter(rate, trace[..n]), trace[n]).0
  }

  /** Whether the last packet of the trace is admitted. */
  predicate Admits(rate: int, trace: seq<Arrival>)
    requires trace != []
  {
    var n := |trace| - 1;
    AllowStep(rate, BucketsAfter(rate, trace[..n]), trace[n]).1
  }

  /** The times of one source's arrivals. */
  function TimesOf(trace: seq<Arrival>, ip: string): seq<real> {
    if trace == [] then []
    else
      var n := |trace| - 1;
      TimesOf(trace[..n], ip) + (if trace[n].ip == ip then [trace[n].now] else [])
  }

  // ---- One source on its own: ts are its arrival times ----

  /** The tokens it has when its last arrival is judged. */
  function Before(rate: int, ts: seq<real>): real
    requires ts != []
    decreases ts, 0
  {
    var n := |ts| - 1;
    if n == 0 then rate as real
    else Capped(rate, After(rate, ts[..n]) + Refill(rate, ts[n] - ts[n - 1]))
  }

  function After(rate: int, ts: seq<real>): real
    requires ts != []
    decreases ts, 1
  {
    Before(rate, ts) - (if Before(rate, ts) >= 1.0 then 1.0 else 0.0)
  }

  function Admitted(rate: int, ts: seq<real>): nat {
    if ts == [] then 0
    else Admitted(rate, ts[..|ts| - 1]) + (if Before(rate, ts) >= 1.0 then 1 else 0)
  }

  /** A source's bucket depends on that source's arrivals only. */
  lemma {:induction false} BucketOfSource(rate: int, trace: seq<Arrival>, ip: string)
    requires rate > 0
    ensures var ts := TimesOf(trace, ip);
            var buckets := BucketsAfter(rate, trace);
            && (ip in buckets <==> ts != [])
            && (ts != [] ==> buckets[ip] == Bucket(After(rate, ts), ts[|ts| - 1]))
  {
    if trace != [] {
      var n := |trace| - 1;
      BucketOfSource(rate, trace[..n], ip);
      hide Refill, Capped;
      var earlier, ts := TimesOf(trace[..n], ip), TimesOf(trace, ip);
      if trace[n].ip == ip {
        assert ts[..|ts| - 1] == earlier;
      } else {
        assert ts == earlier;
      }
    }
  }

  /** Independence: a packet is judged as if its source were alone. */
  lemma {:induction false} SourcesAreIndependent(rate: int, trace: seq<Arrival>)
    requires trace != []
    ensures var ts := TimesOf(trace, trace[|trace| - 1].ip);
            ts != [] && (Admits(rate, trace) <==> rate <= 0 || Before(rate, ts) >= 1.0)
  {
    var n := |trace| - 1;
    var ip := trace[n].ip;
    var earlier, ts := TimesOf(trace[..n], ip), TimesOf(trace, ip);
    assert ts[..|ts| - 1] == earlier;
    if rate > 0 {
      BucketOfSource(rate, trace[..n], ip);
    }
  }

  function Restrict(trace: seq<Arrival>, ip: string): seq<Arrival> {
    if trace == [] then []
    else
      var n := |trace| - 1;
      Restrict(trace[..n], ip) + (if trace[n].ip == ip then [trace[n]] else [])
  }

  lemma {:induction false} RestrictKeepsTimes(trace: seq<Arrival>, ip: string)
    ensures TimesOf(Restrict(trace, ip), ip) == TimesOf(trace, ip)
  {
    if trace != [] {
      var n := |trace| - 1;
      RestrictKeepsTimes(trace[..n], ip);
      var r := Restrict(trace, ip);
      if trace[n].ip == ip {
        assert r[..|r| - 1] == Restrict(trace[..n], ip);
      } else {
        assert r == Restrict(trace[..n], ip);
      }
    }
  }

  /** A packet gets the same decision when all other sources' packets are removed from the trace. */
  lemma {:induction false} OtherSourcesDoNotMatter(rate: int, trace: seq<Arrival>)
    requires trace != []
    ensures var own := Restrict(trace, trace[|trace| - 1].ip);
            own != [] && (Admits(rate, trace) <==> Admits(rate, own))
  {
    hide Admits, Before;
    var ip := trace[|trace| - 1].ip;
    var own := Restrict(trace, ip);
    RestrictKeepsTimes(trace, ip);
    SourcesAreIndependent(rate, trace);
    assert own[|own| - 1] == trace[|trace| - 1];
    SourcesAreIndependent(rate, own);
  }

  // ---- Which packets are admitted ----

  /** The packets admitted among arrivals i, ..., |ts| - 1. */
  function AdmittedSince(rate: int, ts: seq<real>, i: nat): int
    requires i <= |ts|
  {
    Admitted(rate, ts) - Admitted(rate, ts[..i])
  }

  /** What a window that starts at arrival i may admit up to the last arrival: rate * (1 + elapsed). */
  function Allowance(rate: int, ts: seq<real>, i: nat): real
    requires i < |ts|
  {
    rate as real * (1.0 + (ts[|ts| - 1] - ts[i]))
  }

  lemma AllowanceIsFullPlusRefill(rate: int, ts: seq<real>, i: nat)
    requires i < |ts|
    ensures Allowance(rate, ts, i) == rate as real + Refill(rate, ts[|ts| - 1] - ts[i])
  {}

  /** What is left of that allowance when the last arrival is judged. */
  function Room(rate: int, ts: seq<real>, i: nat): real
    requires i < |ts|
  {
    Allowance(rate, ts, i) - AdmittedSince(rate, ts[..|ts| - 1], i) as real
  }

  lemma RefillAdds(rate: int, s: real, t: real)
    ensures Refill(rate, s + t) == Refill(rate, s) + Refill(rate, t)
  {}

  lemma {:induction false} RoomStep(rate: int, ts: seq<real>, i: nat)
    requires i < |ts| - 1
    ensures var n := |ts| - 1;
            Room(rate, ts, i) == Room(rate, ts[..n], i) - Before(rate, ts[..n]) + After(rate, ts[..n])
                                 + Refill(rate, ts[n] - ts[n - 1])
  {
    var n := |ts| - 1;
    var front := ts[..n];
    assert front[..n - 1] == ts[..n - 1] && front[..i] == ts[..i] == front[..n - 1][..i];
    RefillAdds(rate, ts[n - 1] - ts[i], ts[n] - ts[n - 1]);
    assert ts[n] - ts[i] == (ts[n - 1] - ts[i]) + (ts[n] - ts[n - 1]);
    AllowanceIsFullPlusRefill(rate, ts, i);
    AllowanceIsFullPlusRefill(rate, front, i);
    hide Refill, Allowance;
  }

  /** The bucket holds exactly the room of the fullest window. */
  lemma {:induction false} TokensAreLeastRoom(rate: int, ts: seq<real>) returns (tightest: nat)
    requires ts != []
    ensures tightest < |ts| && Before(rate, ts) == Room(rate, ts, tightest)
    ensures forall i :: 0 <= i < |ts| ==> Before(rate, ts) <= Room(rate, ts, i)
  {
    var n := |ts| - 1;
    assert ts[..n][..n] == ts[..n];
    assert Room(rate, ts, n) == rate as real;
    tightest := n;
    if n > 0 {
      var t := TokensAreLeastRoom(rate, ts[..n]);
      hide Refill, Room;
      forall i | 0 <= i < n
        ensures Before(rate, ts) <= Room(rate, ts, i)
      {
        RoomStep(rate, ts, i);
      }
      RoomStep(rate, ts, t);
      if Before(rate, ts) != rate as real {
        tightest := t;
      }
    }
  }

  /** So many packets may pass in a window of this many seconds. */
  predicate WithinRate(packets: int, rate: int, elapsed: real) {
    packets as real <= rate as real * (1.0 + elapsed)
  }

  lemma WithinRateInNumbers(packets: int, rate: int, elapsed: real)
    ensures WithinRate(packets, rate, elapsed) <==> packets as real <= rate as real * (1.0 + elapsed)
  {}

  /** Admitting the last packet overfills no window that ends with it: since each earlier arrival, and counting it,
      at most rate * (1 + elapsed) packets. */
  ghost predicate WindowsHaveRoom(rate: int, ts: seq<real>)
    requires ts != []
  {
    forall i :: 0 <= i < |ts| ==> WithinRate(AdmittedSince(rate, ts[..|ts| - 1], i) + 1, rate, ts[|ts| - 1] - ts[i])
  }

  /** A packet is refused exactly when admitting it would overfill some window. */
  lemma {:induction false} RefusedExactlyWhenAWindowIsFull(rate: int, ts: seq<real>)
    requires ts != []
    ensures Before(rate, ts) >= 1.0 <==>
            forall i :: 0 <= i < |ts| ==>
              AdmittedSince(rate, ts[..|ts| - 1], i) as real + 1.0 <= rate as real * (1.0 + (ts[|ts| - 1] - ts[i]))
  {
    RefusedWithoutRoom(rate, ts);
    RoomInNumbers(rate, ts);
    hide Before, AdmittedSince, WindowsHaveRoom;
  }

  lemma RoomInNumbers(rate: int, ts: seq<real>)
    requires ts != []
    ensures WindowsHaveRoom(rate, ts) <==> forall i :: 0 <= i < |ts| ==>
              AdmittedSince(rate, ts[..|ts| - 1], i) as real + 1.0 <= rate as real * (1.0 + (ts[|ts| - 1] - ts[i]))
  {
    hide AdmittedSince;
    var last, front := ts[|ts| - 1], ts[..|ts| - 1];
    forall i | 0 <= i < |ts|
      ensures WithinRate(AdmittedSince(rate, front, i) + 1, rate, last - ts[i])
         <==> AdmittedSince(rate, front, i) as real + 1.0 <= rate as real * (1.0 + (last - ts[i]))
    {
      WithinRateInNumbers(AdmittedSince(rate, front, i) + 1, rate, last - ts[i]);
    }
    hide WithinRate;
  }

  lemma FitsMeansRoom(rate: int, ts: seq<real>, i: nat)
    requires i < |ts|
    ensures WithinRate(AdmittedSince(rate, ts[..|ts| - 1], i) + 1, rate, ts[|ts| - 1] - ts[i]) <==> Room(rate, ts, i) >= 1.0
  {
    var admitted := AdmittedSince(rate, ts[..|ts| - 1], i);
    assert Room(rate, ts, i) == Allowance(rate, ts, i) - admitted as real;
    assert WithinRate(admitted + 1, rate, ts[|ts| - 1] - ts[i]) <==> (admitted + 1) as real <= Allowance(rate, ts, i);
    hide Room, Allowance, WithinRate, AdmittedSince;
  }

  lemma {:induction false} RefusedWithoutRoom(rate: int, ts: seq<real>)
    requires ts != []
    ensures Before(rate, ts) >= 1.0 <==> WindowsHaveRoom(rate, ts)
  {
    var n := |ts| - 1;
    forall i | 0 <= i <= n
      ensures WithinRate(AdmittedSince(rate, ts[..n], i) + 1, rate, ts[n] - ts[i]) <==> Room(rate, ts, i) >= 1.0
    {
      FitsMeansRoom(rate, ts, i);
    }
    hide Before, Room, WithinRate, AdmittedSince;
    var t := TokensAreLeastRoom(rate, ts);
  }

  predicate Sorted(ts: seq<real>) {
    forall i, j :: 0 <= i <= j < |ts| ==> ts[i] <= ts[j]
  }

  lemma RefillMonotone(rate: int, s: real, t: real)
    requires rate >= 0 && s <= t
    ensures Refill(rate, s) <= Refill(rate, t)
    ensures Refill(rate, 0.0) == 0.0
  {}

  lemma ProductMonotone(rate: int, s: real, t: real)
    requires rate >= 0 && 0.0 <= s <= t
    ensures 0.0 <= rate as real * (1.0 + s) <= rate as real * (1.0 + t)
  {
    var r := rate as real;
    NonNegativeProduct(r, 1.0 + s);
    NonNegativeProduct(r, t - s);
    assert r * (1.0 + t) == r * (1.0 + s) + r * (t - s);
  }

  lemma NonNegativeProduct(x: real, y: real)
    requires x >= 0.0 && y >= 0.0
    ensures x * y >= 0.0
  {}

  /** With non-decreasing clock readings no window overfills: arrivals i to the last admit at most
      rate * (1 + elapsed) packets. */
  lemma {:induction false} WindowBound(rate: int, ts: seq<real>, i: nat)
    requires rate > 0 && Sorted(ts) && i < |ts|
    ensures AdmittedSince(rate, ts, i) as real <= rate as real * (1.0 + (ts[|ts| - 1] - ts[i]))
  {
    WithinAllowance(rate, ts, i);
    hide AdmittedSince;
  }

  lemma {:induction false} WithinAllowance(rate: int, ts: seq<real>, i: nat)
    requires rate > 0 && Sorted(ts) && i < |ts|
    ensures AdmittedSince(rate, ts, i) as real <= Allowance(rate, ts, i)
  {
    var n := |ts| - 1;
    AllowanceIsFullPlusRefill(rate, ts, i);
    if Before(rate, ts) >= 1.0 {
      RefusedWithoutRoom(rate, ts);
      assert ts[..n][..i] == ts[..i];
      hide Allowance;
    } else if i < n {
      WithinAllowance(rate, ts[..n], i);
      assert ts[..n][..i] == ts[..i];
      AllowanceIsFullPlusRefill(rate, ts[..n], i);
      RefillMonotone(rate, ts[n - 1] - ts[i], ts[n] - ts[i]);
      hide Allowance, Refill;
    } else {
      RefillMonotone(rate, 0.0, ts[n] - ts[i]);
      hide Allowance, Refill;
    }
  }

  /** The packets of one source admitted in a trace of many sources. */
  function Granted(rate: int, trace: seq<Arrival>, ip: string): nat {
    if trace == [] then 0
    else
      var n := |trace| - 1;
      Granted(rate, trace[..n], ip) + (if trace[n].ip == ip && Admits(rate, trace) then 1 else 0)
  }

  lemma {:induction false} GrantedIsAdmitted(rate: int, trace: seq<Arrival>, ip: string)
    requires rate > 0
    ensures Granted(rate, trace, ip) == Admitted(rate, TimesOf(trace, ip))
  {
    if trace != [] {
      hide Admits, Before;
      var n := |trace| - 1;
      GrantedIsAdmitted(rate, trace[..n], ip);
      SourcesAreIndependent(rate, trace);
      var earlier, ts := TimesOf(trace[..n], ip), TimesOf(trace, ip);
      if trace[n].ip == ip {
        assert ts[..|ts| - 1] == earlier;
      } else {
        assert ts == earlier;
      }
    }
  }

  predicate InOrder(trace: seq<Arrival>) {
    forall i, j :: 0 <= i <= j < |trace| ==> trace[i].now <= trace[j].now
  }

  lemma {:induction false} TimesInOrder(trace: seq<Arrival>, ip: string)
    requires InOrder(trace)
    ensures var ts := TimesOf(trace, ip);
            Sorted(ts) && forall k :: 0 <= k < |ts| ==> ts[k] <= trace[|trace| - 1].now
  {
    if trace != [] {
      var n := |trace| - 1;
      TimesInOrder(trace[..n], ip);
    }
  }

  /** A source's times extend those it had after a arrivals, and the new ones lie within the window. */
  lemma {:induction false} TimesInWindow(trace: seq<Arrival>, ip: string, a: nat)
    requires InOrder(trace) && a < |trace|
    ensures var ts, earlier := TimesOf(trace, ip), TimesOf(trace[..a], ip);
            && earlier <= ts
            && (forall k :: |earlier| <= k < |ts| ==> trace[a].now <= ts[k])
  {
    var n := |trace| - 1;
    if a < n {
      TimesInWindow(trace[..n], ip, a);
      assert trace[..n][..a] == trace[..a];
    }
  }

  /** In any run, from arrival a to the last, one source gets at most rate * (1 + elapsed) packets through. */
  lemma {:induction false} SourceWindowBound(rate: int, trace: seq<Arrival>, ip: string, a: nat)
    requires rate > 0 && InOrder(trace) && a < |trace|
    ensures (Granted(rate, trace, ip) - Granted(rate, trace[..a], ip)) as real
         <= rate as real * (1.0 + (trace[|trace| - 1].now - trace[a].now))
  {
    hide Granted, Admitted, TimesOf, Refill;
    var ts, m := TimesOf(trace, ip), |TimesOf(trace[..a], ip)|;
    assert TimesOf(trace[..a], ip) <= ts ==> ts[..m] == TimesOf(trace[..a], ip);
    TimesInOrder(trace, ip);
    TimesInWindow(trace, ip, a);
    GrantedIsAdmitted(rate, trace, ip);
    GrantedIsAdmitted(rate, trace[..a], ip);
    var window := trace[|trace| - 1].now - trace[a].now;
    if m < |ts| {
      WithinAllowance(rate, ts, m);
      ProductMonotone(rate, ts[|ts| - 1] - ts[m], window);
      assert Allowance(rate, ts, m) <= rate as real * (1.0 + window);
    } else {
      assert ts[..m] == ts;
      ProductMonotone(rate, 0.0, window);
    }
    hide Allowance;
  }

  // ---- Greedy admission is optimal ----

  function Count(choice: seq<bool>): nat {
    if choice == [] then 0
    else Count(choice[..|choice| - 1]) + (if choice[|choice| - 1] then 1 else 0)
  }

  /** The level of a bucket of capacity rate, refilled at rate, from which every chosen packet takes one token. */
  function Level(rate: int, ts: seq<real>, choice: seq<bool>): real
    requires |ts| == |choice| && ts != []
  {
    var n := |ts| - 1;
    var filled := if n == 0 then rate as real
                  else Capped(rate, Level(rate, ts[..n], choice[..n]) + rate as real * (ts[n] - ts[n - 1]));
    filled - (if choice[n] then 1.0 else 0.0)
  }

  /** A choice of packets that never overdraws that bucket. */
  predicate Affordable(rate: int, ts: seq<real>, choice: seq<bool>)
    requires |ts| == |choice|
  {
    ts != [] ==> Level(rate, ts, choice) >= 0.0 && Affordable(rate, ts[..|ts| - 1], choice[..|ts| - 1])
  }

  /** What the limiter decides for each arrival. */
  function Greedy(rate: int, ts: seq<real>): (choice: seq<bool>)
    ensures |choice| == |ts|
  {
    if ts == [] then [] else Greedy(rate, ts[..|ts| - 1]) + [Before(rate, ts) >= 1.0]
  }

  /** No affordable choice admits more than the limiter, after any prefix of the arrivals. */
  lemma {:induction false} GreedyIsOptimal(rate: int, ts: seq<real>, choice: seq<bool>)
    requires |ts| == |choice| && Affordable(rate, ts, choice)
    ensures Count(choice) <= Admitted(rate, ts)
    ensures ts != [] ==> Level(rate, ts, choice) - After(rate, ts) <= (Admitted(rate, ts) - Count(choice)) as real
  {
    if ts != [] {
      var n := |ts| - 1;
      GreedyIsOptimal(rate, ts[..n], choice[..n]);
      if n > 0 {
        assert Refill(rate, ts[n] - ts[n - 1]) == rate as real * (ts[n] - ts[n - 1]);
      }
      hide Refill;
    }
  }

  lemma RefillIsProduct(rate: int, t: real)
    ensures Refill(rate, t) == rate as real * t
  {}

  lemma FilledIsNonNegative(rate: int, ts: seq<real>)
    requires rate >= 0 && Sorted(ts) && |ts| > 1 && After(rate, ts[..|ts| - 1]) >= 0.0
    ensures Before(rate, ts) >= 0.0
  {
    RefillMonotone(rate, 0.0, ts[|ts| - 1] - ts[|ts| - 2]);
    hide Refill, After;
  }

  /** The limiter's own choice is affordable, so the bound of GreedyIsOptimal is reached. */
  lemma {:induction false} GreedyIsAffordable(rate: int, ts: seq<real>)
    requires rate >= 0 && Sorted(ts)
    ensures Affordable(rate, ts, Greedy(rate, ts)) && Count(Greedy(rate, ts)) == Admitted(rate, ts)
    ensures ts != [] ==> Level(rate, ts, Greedy(rate, ts)) == After(rate, ts)
  {
    if ts != [] {
      var n := |ts| - 1;
      GreedyIsAffordable(rate, ts[..n]);
      var choice := Greedy(rate, ts);
      assert choice[..n] == Greedy(rate, ts[..n]) && choice[n] == (Before(rate, ts) >= 1.0);
      LevelStep(rate, ts, choice);
      if n > 0 {
        assert After(rate, ts[..n]) >= 0.0 by {
          hide Greedy, Refill, After;
        }
        FilledIsNonNegative(rate, ts);
      }
      hide Greedy, Refill, Sorted, Level, Before;
    }
  }

  /** The bucket of a choice that follows the limiter fills like the limiter's. */
  lemma LevelStep(rate: int, ts: seq<real>, choice: seq<bool>)
    requires |ts| == |choice| && ts != []
    requires |ts| > 1 ==> Level(rate, ts[..|ts| - 1], choice[..|ts| - 1]) == After(rate, ts[..|ts| - 1])
    ensures Level(rate, ts, choice) == Before(rate, ts) - (if choice[|ts| - 1] then 1.0 else 0.0)
  {
    if |ts| > 1 {
      RefillIsProduct(rate, ts[|ts| - 1] - ts[|ts| - 2]);
    }
    hide Refill, After;
  }

  // ---- The limiter of main.go ----

  class RateLimiter {
    var buckets: Buckets
    const rate: int
    /** Every call so far. */
    ghost var trace: seq<Arrival>

    ghost predicate Valid()
      reads this
    {
      buckets == BucketsAfter(rate, trace)
    }

    constructor (rate: int)
      ensures Valid() && this.rate == rate && trace == []
    {
      buckets := map[];
      this.rate := rate;
      trace := [];
    }

    /** Admits a packet unless some window of its own source's packets is full. */
    method Allow(ip: string, now: real) returns (ok: bool)
      requires Valid()
      modifies this
      ensures Valid() && trace == old(trace) + [Arrival(ip, now)]
      ensures ok <==> Admits(rate, trace)
      ensures TimesOf(trace, ip) != []
      ensures ok <==> rate <= 0 || WindowsHaveRoom(rate, TimesOf(trace, ip))
    {
      RefusalReason(rate, trace, Arrival(ip, now));
      ghost var step := AllowStep(rate, buckets, Arrival(ip, now));
      trace := trace + [Arrival(ip, now)];
      hide WindowsHaveRoom, BucketsAfter, Admits, TimesOf, Refill;
      if rate <= 0 {
        return true;
      }
      if ip !in buckets {
        buckets := buckets[ip := Bucket(rate as real, now)];
      }
      var b := buckets[ip];
      var elapsed := now - b.lastFill;
      b := b.(tokens := b.tokens + Refill(rate, elapsed));
      if b.tokens > rate as real {
        b := b.(tokens := rate as real);
      }
      b := b.(lastFill := now);
      if b.tokens >= 1.0 {
        b := b.(tokens := b.tokens - 1.0);
        ok := true;
      } else {
        ok := false;
      }
      assert step == (old(buckets)[ip := b], ok);
      hide AllowStep, Capped;
      buckets := buckets[ip := b];
      assert buckets == old(buckets)[ip := b];
    }
  }

  lemma {:induction false} RefusalReason(rate: int, trace: seq<Arrival>, a: Arrival)
    ensures BucketsAfter(rate, trace + [a]) == AllowStep(rate, BucketsAfter(rate, trace), a).0
    ensures Admits(rate, trace + [a]) == AllowStep(rate, BucketsAfter(rate, trace), a).1
    ensures TimesOf(trace + [a], a.ip) != []
    ensures Admits(rate, trace + [a]) <==> rate <= 0 || WindowsHaveRoom(rate, TimesOf(trace + [a], a.ip))
  {
    var longer := trace + [a];
    assert longer[|longer| - 1] == a && longer[..|longer| - 1] == trace;
    hide Before, WindowsHaveRoom, AllowStep;
    SourcesAreIndependent(rate, longer);
    RefusedWithoutRoom(rate, TimesOf(longer, a.ip));
  }
}
