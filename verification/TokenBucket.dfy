/**
 The token buckets of governor/ratelimit.go over the reals. The clock is a parameter, in seconds.

 Inside this module a bucket's time is counted in the tokens it earns, `rate * seconds`; the class
 and the closing theorems translate. The main result is exact: a request is granted if and only if
 granting it keeps every window that ends now within capacity plus rate times length.
 */
module TokenBucket {

  // ----- bucket values --------------------------------------------------------------------

  datatype Bucket = Bucket(capacity: real, tokens: real, last: real)

  ghost predicate Sound(b: Bucket) {
    b.capacity >= 1.0 && 0.0 <= b.tokens <= b.capacity
  }

  /** The tokens the bucket would hold at `now`. */
  function Refilled(b: Bucket, now: real): real {
    var t := b.tokens + (now - b.last);
    if t > b.capacity then b.capacity else t
  }

  /** A request for `n` tokens; one for none is granted without looking at the bucket. */
  datatype Request = Request(at: real, n: int)

  predicate Grants(b: Bucket, r: Request) {
    r.n <= 0 || Refilled(b, r.at) >= r.n as real
  }

  function Granted(b: Bucket, r: Request): (g: real)
    ensures g >= 0.0
  {
    if r.n > 0 && Grants(b, r) then r.n as real else 0.0
  }

  function Next(b: Bucket, r: Request): Bucket {
    if r.n <= 0 then b else Bucket(b.capacity, Refilled(b, r.at) - Granted(b, r), r.at)
  }

  // ----- the bucket object ----------------------------------------------------------------

  function Capacity(burst: int): (c: real)
    ensures c >= 1.0
  {
    if burst < 1 then 1.0 else burst as real
  }

  function Rate(rate: real): (r: real)
    ensures r > 0.0
  {
    if rate <= 0.0 then 1.0 else rate
  }

  /** A time in seconds, counted in the tokens that are earned from time 0 on. */
  function Earned(rate: real, t: real): real {
    rate * t
  }

  /** A full bucket, created at `at` on its own reading of the clock. */
  function Full(burst: int, at: real): Bucket {
    Bucket(Capacity(burst), Capacity(burst), at)
  }

  class TokenBucket {
    const capacity: real
    var tokens: real
    const refill: real
    var lastRefill: real

    constructor (rate: real, burst: int, now: real)
      ensures State() == Full(burst, Earned(Rate(rate), now)) && refill == Rate(rate)
      ensures capacity == tokens == (if burst > 1 then burst as real else 1.0) && lastRefill == now
      ensures refill == if rate > 0.0 then rate else 1.0
    {
      capacity, tokens := Capacity(burst), Capacity(burst);
      refill, lastRefill := Rate(rate), now;
    }

    function State(): Bucket
      reads this
    {
      Bucket(capacity, tokens, Earned(refill, lastRefill))
    }

    method Allow(now: real) returns (ok: bool)
      modifies this
      ensures ok == Grants(old(State()), Request(Earned(refill, now), 1))
      ensures lastRefill == now
      ensures State() == Next(old(State()), Request(Earned(refill, now), 1))
    {
      var elapsed := now - lastRefill;
      var earned := elapsed * refill;
      assert earned == Earned(refill, now) - Earned(refill, lastRefill) by {
        Distribute(refill, lastRefill, now);
      }
      tokens := tokens + earned;
      if tokens > capacity {
        tokens := capacity;
      }
      lastRefill := now;
      if tokens >= 1.0 {
        tokens := tokens - 1.0;
        return true;
      }
      return false;
    }

    method AllowN(n: int, now: real) returns (ok: bool)
      modifies this
      ensures ok == Grants(old(State()), Request(Earned(refill, now), n))
      ensures State() == Next(old(State()), Request(Earned(refill, now), n))
    {
      if n <= 0 {
        return true;
      }
      var elapsed := now - lastRefill;
      var earned := elapsed * refill;
      assert earned == Earned(refill, now) - Earned(refill, lastRefill) by {
        Distribute(refill, lastRefill, now);
      }
      tokens := tokens + earned;
      if tokens > capacity {
        tokens := capacity;
      }
      lastRefill := now;
      var fn := n as real;
      if tokens >= fn {
        tokens := tokens - fn;
        return true;
      }
      return false;
    }
  }

  lemma Distribute(rate: real, s: real, t: real)
    ensures (t - s) * rate == rate * t - rate * s
  {
  }

  // ----- whole runs -----------------------------------------------------------------------

  predicate Monotone(reqs: seq<Request>) {
    forall i, j :: 0 <= i < j < |reqs| ==> reqs[i].at <= reqs[j].at
  }

  ghost predicate Within(reqs: seq<Request>, s: real, t: real) {
    s <= t && forall i :: 0 <= i < |reqs| ==> s <= reqs[i].at <= t
  }

  /** The bucket after a run. */
  function After(b: Bucket, reqs: seq<Request>): Bucket {
    if reqs == [] then b else Next(After(b, reqs[..|reqs| - 1]), reqs[|reqs| - 1])
  }

  /** What the run's requests from number `i` on were granted. */
  function GrantedSince(b: Bucket, reqs: seq<Request>, i: nat): (g: real)
    ensures g >= 0.0
  {
    if i >= |reqs| then 0.0
    else GrantedSince(b, reqs[..|reqs| - 1], i) + Granted(After(b, reqs[..|reqs| - 1]), reqs[|reqs| - 1])
  }

  /** `x` more tokens at `t` keep every window that starts at a request of the run within bounds. */
  ghost predicate WindowsFit(b: Bucket, reqs: seq<Request>, t: real, x: real) {
    forall i :: 0 <= i < |reqs| ==> GrantedSince(b, reqs, i) + x <= b.capacity + (t - reqs[i].at)
  }

  lemma {:induction false} AfterSound(b: Bucket, reqs: seq<Request>, t: real)
    requires Sound(b) && Monotone(reqs) && Within(reqs, b.last, t)
    ensures Sound(After(b, reqs)) && After(b, reqs).last <= t && After(b, reqs).capacity == b.capacity
  {
    if reqs != [] {
      AfterSound(b, reqs[..|reqs| - 1], reqs[|reqs| - 1].at);
    }
  }

  /** The level of a bucket is the tightest window bound. */
  lemma {:induction false} LevelIsTightestWindow(b: Bucket, reqs: seq<Request>, t: real, x: real)
    requires Sound(b) && b.tokens == b.capacity
    requires Monotone(reqs) && Within(reqs, b.last, t)
    ensures x <= Refilled(After(b, reqs), t) <==> x <= b.capacity && WindowsFit(b, reqs, t, x)
  {
    if reqs != [] {
      var pre, r := reqs[..|reqs| - 1], reqs[|reqs| - 1];
      assert reqs == pre + [r];
      var g := Granted(After(b, pre), r);
      if r.n <= 0 {
        LevelIsTightestWindow(b, pre, t, x);
      } else {
        LevelIsTightestWindow(b, pre, r.at, x + g - (t - r.at));
        AfterSound(b, pre, r.at);
        ShiftedWindows(b, pre, r.at, t, x + g);
      }
      if WindowsFit(b, reqs, t, x) {
        OneWindowLess(b, pre, r, t, x);
      } else if g + x <= b.capacity + (t - r.at) && WindowsFit(b, pre, t, x + g) {
        OneWindowMore(b, pre, r, t, x);
      }
    }
  }

  lemma SinceOneMore(b: Bucket, pre: seq<Request>, r: Request, i: nat)
    requires i <= |pre|
    ensures GrantedSince(b, pre + [r], i) == GrantedSince(b, pre, i) + Granted(After(b, pre), r)
  {
    assert (pre + [r])[..|pre|] == pre;
  }

  /** One more request adds one window, and lowers the room of the others by what it took. */
  lemma OneWindowLess(b: Bucket, pre: seq<Request>, r: Request, t: real, x: real)
    requires WindowsFit(b, pre + [r], t, x)
    ensures Granted(After(b, pre), r) + x <= b.capacity + (t - r.at)
    ensures WindowsFit(b, pre, t, x + Granted(After(b, pre), r))
  {
    SinceOneMore(b, pre, r, |pre|);
    assert (pre + [r])[|pre|] == r;
    forall i | 0 <= i < |pre|
      ensures GrantedSince(b, pre, i) + (x + Granted(After(b, pre), r)) <= b.capacity + (t - pre[i].at)
    {
      SinceOneMore(b, pre, r, i);
      assert (pre + [r])[i] == pre[i];
    }
  }

  lemma OneWindowMore(b: Bucket, pre: seq<Request>, r: Request, t: real, x: real)
    requires Granted(After(b, pre), r) + x <= b.capacity + (t - r.at)
    requires WindowsFit(b, pre, t, x + Granted(After(b, pre), r))
    ensures WindowsFit(b, pre + [r], t, x)
  {
    forall i | 0 <= i < |pre + [r]|
      ensures GrantedSince(b, pre + [r], i) + x <= b.capacity + (t - (pre + [r])[i].at)
    {
      SinceOneMore(b, pre, r, i);
      assert i < |pre| ==> (pre + [r])[i] == pre[i];
    }
  }

  /** Windows up to `t` are windows up to `s`, with the time between them taken off the room. */
  lemma ShiftedWindows(b: Bucket, reqs: seq<Request>, s: real, t: real, x: real)
    ensures WindowsFit(b, reqs, t, x) <==> WindowsFit(b, reqs, s, x - (t - s))
  {
  }

  // ----- denied requests ------------------------------------------------------------------

  /** No request from `from` on can tell the two buckets apart. */
  ghost predicate Alike(b: Bucket, c: Bucket, from: real) {
    && b.capacity == c.capacity
    && forall t :: t >= from ==> Refilled(b, t) == Refilled(c, t)
  }

  function Decisions(b: Bucket, reqs: seq<Request>): seq<bool>
    decreases |reqs|
  {
    if reqs == [] then [] else [Grants(b, reqs[0])] + Decisions(Next(b, reqs[0]), reqs[1..])
  }

  lemma {:induction false} AlikeDecideAlike(b: Bucket, c: Bucket, reqs: seq<Request>, from: real)
    requires Alike(b, c, from)
    requires forall i :: 0 <= i < |reqs| ==> from <= reqs[i].at
    ensures Decisions(b, reqs) == Decisions(c, reqs)
    decreases |reqs|
  {
    if reqs != [] {
      var r := reqs[0];
      assert Refilled(b, r.at) == Refilled(c, r.at);
      AlikeDecideAlike(Next(b, r), Next(c, r), reqs[1..], from);
    }
  }

  /** A denied request changes no later decision. */
  lemma DenialIsInvisible(b: Bucket, r: Request, reqs: seq<Request>)
    requires Sound(b) && b.last <= r.at && !Grants(b, r)
    requires forall i :: 0 <= i < |reqs| ==> r.at <= reqs[i].at
    ensures Decisions(Next(b, r), reqs) == Decisions(b, reqs)
  {
    AlikeDecideAlike(Next(b, r), b, reqs, r.at);
  }

  // ----- the theorems in seconds ----------------------------------------------------------

  /** A bucket's reading of the clock: what its rate earns from time 0 on. */
  ghost predicate Reading(rate: real, earned: real -> real) {
    forall t :: earned(t) == Earned(rate, t)
  }

  ghost predicate InOrder(earned: real -> real) {
    forall s, t :: s <= t ==> earned(s) <= earned(t)
  }

  lemma ReadingInOrder(rate: real, earned: real -> real)
    requires rate > 0.0 && Reading(rate, earned)
    ensures InOrder(earned)
  {
    forall s, t | s <= t
      ensures earned(s) <= earned(t)
    {
      Scale(rate, s, t);
    }
  }

  lemma Scale(rate: real, s: real, t: real)
    requires rate > 0.0 && s <= t
    ensures rate * s <= rate * t
  {
  }

  lemma Length(rate: real, earned: real -> real, s: real, t: real)
    requires Reading(rate, earned)
    ensures earned(t) - earned(s) == rate * (t - s)
  {
    Distribute(rate, s, t);
  }

  /** The run as a bucket with this reading sees it. */
  function Read(earned: real -> real, reqs: seq<Request>): (read: seq<Request>)
    ensures |read| == |reqs|
    ensures forall i :: 0 <= i < |reqs| ==> read[i] == Request(earned(reqs[i].at), reqs[i].n)
  {
    seq(|reqs|, i requires 0 <= i < |reqs| => Request(earned(reqs[i].at), reqs[i].n))
  }

  lemma ExactOnReadings(burst: int, created: real, earned: real -> real, reqs: seq<Request>, t: real, x: real)
    requires Monotone(reqs) && Within(reqs, created, t) && InOrder(earned)
    ensures
      var b, run := Full(burst, earned(created)), Read(earned, reqs);
      x <= Refilled(After(b, run), earned(t)) <==>
        x <= Capacity(burst)
        && forall i :: 0 <= i < |reqs| ==>
             GrantedSince(b, run, i) + x <= Capacity(burst) + (earned(t) - earned(reqs[i].at))
  {
    LevelIsTightestWindow(Full(burst, earned(created)), Read(earned, reqs), earned(t), x);
  }

  /** With `x` more tokens at `t`, a window from each request of the run to `t` stays within
      capacity plus rate times length. */
  ghost predicate FitsInSeconds(rate: real, burst: int, created: real, earned: real -> real,
                                reqs: seq<Request>, t: real, x: real) {
    forall i :: 0 <= i < |reqs| ==>
      GrantedSince(Full(burst, earned(created)), Read(earned, reqs), i) + x
      <= Capacity(burst) + rate * (t - reqs[i].at)
  }

  /** Admission is exact: after any run on a new bucket, a request for `n` tokens at `t` is granted
      if and only if `n` fits the capacity, and every window from an earlier request to `t` stays,
      with these `n`, within capacity plus rate times length. */
  lemma GrantedIffItFits(rate: real, burst: int, created: real, earned: real -> real,
                         reqs: seq<Request>, t: real, n: int)
    requires n > 0 && Monotone(reqs) && Within(reqs, created, t)
    requires rate > 0.0 && Reading(rate, earned)
    ensures
      Grants(After(Full(burst, earned(created)), Read(earned, reqs)), Request(earned(t), n)) <==>
        n as real <= Capacity(burst) && FitsInSeconds(rate, burst, created, earned, reqs, t, n as real)
  {
    ReadingInOrder(rate, earned);
    ExactOnReadings(burst, created, earned, reqs, t, n as real);
    Lengths(rate, earned, reqs, t);
  }

  lemma Lengths(rate: real, earned: real -> real, reqs: seq<Request>, t: real)
    requires Reading(rate, earned)
    ensures forall i :: 0 <= i < |reqs| ==> earned(t) - earned(reqs[i].at) == rate * (t - reqs[i].at)
  {
    forall i | 0 <= i < |reqs|
      ensures earned(t) - earned(reqs[i].at) == rate * (t - reqs[i].at)
    {
      Length(rate, earned, reqs[i].at, t);
    }
  }

  /** In any interval `[s, t]` a bucket grants at most `capacity + rate * (t - s)` tokens. The
      requests in the interval are those from number `i` to the end of the run. */
  lemma IntervalBound(rate: real, burst: int, created: real, earned: real -> real,
                      reqs: seq<Request>, i: nat, s: real, t: real)
    requires Monotone(reqs) && Within(reqs, created, t)
    requires rate > 0.0 && Reading(rate, earned)
    requires i < |reqs| && s <= reqs[i].at
    ensures GrantedSince(Full(burst, earned(created)), Read(earned, reqs), i)
            <= Capacity(burst) + rate * (t - s)
  {
    ReadingInOrder(rate, earned);
    BoundOnReadings(burst, created, earned, reqs, i, s, t);
    Length(rate, earned, s, t);
  }

  lemma BoundOnReadings(burst: int, created: real, earned: real -> real, reqs: seq<Request>, i: nat, s: real, t: real)
    requires Monotone(reqs) && Within(reqs, created, t) && InOrder(earned)
    requires i < |reqs| && s <= reqs[i].at
    ensures GrantedSince(Full(burst, earned(created)), Read(earned, reqs), i)
            <= Capacity(burst) + (earned(t) - earned(s))
  {
    AfterSound(Full(burst, earned(created)), Read(earned, reqs), earned(t));
    ExactOnReadings(burst, created, earned, reqs, t, 0.0);
    assert earned(s) <= earned(reqs[i].at);
  }
}
