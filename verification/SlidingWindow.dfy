/**
 The in-place sliding window that governor/quota.go and governor/ironclaw/ironclaw.go share: a Go
 slice of times is compacted into its own backing array, cut, and appended to. A slice is a backing
 array with a length; its capacity is the array's. The holder's slice header is only replaced when
 a request is accepted, so what a refusal leaves behind depends on what compaction moved.
 */
module SlidingWindow {

  datatype Slice = Slice(buf: array<int>, len: nat)

  /** The times after `cutoff`, in order. */
  function Kept(times: seq<int>, cutoff: int): (kept: seq<int>)
    ensures |kept| <= |times|
  {
    if times == [] then []
    else
      var rest := Kept(times[..|times| - 1], cutoff);
      if times[|times| - 1] > cutoff then rest + [times[|times| - 1]] else rest
  }

  /** What the uncut slice shows after compaction: the kept times, then what was behind them. */
  function Compacted(times: seq<int>, cutoff: int): seq<int> {
    Kept(times, cutoff) + times[|Kept(times, cutoff)|..]
  }

  /** The compaction loop; only the first `s.len` cells are read or written. */
  method Compact(s: Slice, cutoff: int) returns (j: nat)
    requires s.len <= s.buf.Length
    modifies s.buf
    ensures j == |Kept(old(s.buf[..s.len]), cutoff)|
    ensures s.buf[..j] == Kept(old(s.buf[..s.len]), cutoff)
    ensures s.buf[..s.len] == Compacted(old(s.buf[..s.len]), cutoff)
  {
    ghost var times := s.buf[..s.len];
    j := 0;
    for i := 0 to s.len
      invariant j <= i && j == |Kept(times[..i], cutoff)|
      invariant forall k :: 0 <= k < j ==> s.buf[k] == Kept(times[..i], cutoff)[k]
      invariant forall k :: j <= k < s.len ==> s.buf[k] == times[k]
    {
      assert times[..i + 1][..i] == times[..i];
      var t := s.buf[i];
      if t > cutoff {
        s.buf[j] := t;
        j := j + 1;
      }
    }
    assert times[..s.len] == times;
  }

  /** `append(times[:j], now)`: in place while the capacity lasts, else into a larger copy. */
  method Append(s: Slice, j: nat, now: int) returns (r: Slice)
    requires j <= s.len <= s.buf.Length
    modifies s.buf
    ensures if j < s.buf.Length then r.buf == s.buf else fresh(r.buf)
    ensures r.len == j + 1 <= r.buf.Length
    ensures r.buf[..r.len] == old(s.buf[..j]) + [now]
  {
    if j < s.buf.Length {
      s.buf[j] := now;
      r := Slice(s.buf, j + 1);
    } else {
      var larger := new int[2 * j + 1];
      for i := 0 to j
        invariant larger[..i] == s.buf[..i]
        invariant s.buf[..] == old(s.buf[..])
      {
        larger[i] := s.buf[i];
      }
      larger[j] := now;
      r := Slice(larger, j + 1);
    }
  }

  // ----- what compaction keeps ------------------------------------------------------------

  predicate Ordered(times: seq<int>) {
    forall i, j :: 0 <= i < j < |times| ==> times[i] <= times[j]
  }

  lemma {:induction false} KeptAppend(a: seq<int>, b: seq<int>, cutoff: int)
    ensures Kept(a + b, cutoff) == Kept(a, cutoff) + Kept(b, cutoff)
  {
    if b == [] {
      assert a + b == a;
    } else {
      assert (a + b)[..|a + b| - 1] == a + b[..|b| - 1];
      KeptAppend(a, b[..|b| - 1], cutoff);
    }
  }

  /** Compacting twice is compacting with the later cutoff. */
  lemma {:induction false} KeptKept(times: seq<int>, c: int, d: int)
    requires c <= d
    ensures Kept(Kept(times, c), d) == Kept(times, d)
  {
    if times != [] {
      var t := times[|times| - 1];
      KeptKept(times[..|times| - 1], c, d);
      if t > c {
        assert Kept(times, c)[..|Kept(times, c)| - 1] == Kept(times[..|times| - 1], c);
      }
    }
  }

  /** The window shows what the history has after `c`. */
  ghost predicate Agrees(w: seq<int>, h: seq<int>, c: int) {
    Kept(w, c) == Kept(h, c)
  }

  /** One call at `t` on a window and its history: let in, or leaving both as they are. */
  ghost predicate OneMore(letIn: bool, w: seq<int>, h: seq<int>, w': seq<int>, h': seq<int>, t: int, c: int) {
    if letIn then w' == Kept(w, c) + [t] && h' == h + [t] else w' == w && h' == h
  }

  /** A window that agrees with a history at one cutoff agrees at every later one, also after a call. */
  lemma StillAgrees(letIn: bool, w: seq<int>, h: seq<int>, w': seq<int>, h': seq<int>, t: int, c: int, d: int)
    requires Agrees(w, h, c) && c <= d
    requires OneMore(letIn, w, h, w', h', t, c)
    ensures Agrees(w', h', d)
  {
    KeptKept(w, c, d);
    KeptKept(h, c, d);
    KeptAppend(Kept(w, c), [t], d);
    KeptAppend(h, [t], d);
  }

  lemma {:induction false} NothingDropped(times: seq<int>, cutoff: int)
    ensures |Kept(times, cutoff)| == |times| <==> forall i :: 0 <= i < |times| ==> times[i] > cutoff
    ensures |Kept(times, cutoff)| == |times| ==> Kept(times, cutoff) == times
  {
    if times != [] {
      var pre, t := times[..|times| - 1], times[|times| - 1];
      assert times == pre + [t];
      NothingDropped(pre, cutoff);
      if t > cutoff && |Kept(pre, cutoff)| == |pre| {
        forall i | 0 <= i < |times|
          ensures times[i] > cutoff
        {
          assert i < |pre| ==> pre[i] > cutoff;
        }
      }
    }
  }

  lemma {:induction false} AllDropped(times: seq<int>, cutoff: int)
    requires forall i :: 0 <= i < |times| ==> times[i] <= cutoff
    ensures Kept(times, cutoff) == []
  {
    if times != [] {
      AllDropped(times[..|times| - 1], cutoff);
    }
  }

  lemma {:induction false} KeptAreRecent(times: seq<int>, cutoff: int)
    ensures forall i :: 0 <= i < |Kept(times, cutoff)| ==> Kept(times, cutoff)[i] > cutoff
  {
    if times != [] {
      KeptAreRecent(times[..|times| - 1], cutoff);
    }
  }

  /** A refusal leaves an ordered window as it was exactly when compaction dropped nothing, or
      everything. */
  lemma RefusalHarmlessIff(times: seq<int>, cutoff: int)
    requires Ordered(times)
    ensures Compacted(times, cutoff) == times <==> Kept(times, cutoff) == times || Kept(times, cutoff) == []
  {
    var kept := Kept(times, cutoff);
    if Compacted(times, cutoff) == times && kept != [] {
      assert times[0] == Compacted(times, cutoff)[0] == kept[0];
      KeptAreRecent(times, cutoff);
      NothingDropped(times, cutoff);
    }
  }

  /** A window within the limit that is refused lost nothing. */
  lemma FullWindowKeepsAll(times: seq<int>, cutoff: int, limit: nat)
    requires |times| <= limit <= |Kept(times, cutoff)|
    ensures Kept(times, cutoff) == times == Compacted(times, cutoff)
  {
    NothingDropped(times, cutoff);
  }

  /** What the shared loop would do to a window that holds both old and recent times when it is refused:
      some recent time would show twice. Neither limiter can meet such a window: the one of Quota never
      exceeds its limit, and that of IronClaw only ever holds one second. */
  lemma RefusalMayInvent(stale: seq<int>, recent: seq<int>, cutoff: int)
    requires forall i :: 0 <= i < |stale| ==> stale[i] <= cutoff
    requires forall i :: 0 <= i < |recent| ==> recent[i] > cutoff
    requires 0 < |stale| && 0 < |recent|
    ensures Kept(stale + recent, cutoff) == recent
    ensures |Kept(Compacted(stale + recent, cutoff), cutoff)| > |recent|
  {
    var times := stale + recent;
    KeptAppend(stale, recent, cutoff);
    AllDropped(stale, cutoff);
    NothingDropped(recent, cutoff);
    var tail := times[|recent|..];
    KeptAppend(recent, tail, cutoff);
    var init, last := tail[..|tail| - 1], tail[|tail| - 1];
    assert last == recent[|recent| - 1];
    assert Kept(tail, cutoff) == Kept(init, cutoff) + [last];
  }

  // ----- windows over a whole history -----------------------------------------------------

  /** How many of the times lie in the half-open interval after `lo` up to `hi`. */
  function InInterval(times: seq<int>, lo: int, hi: int): nat {
    if times == [] then 0
    else InInterval(times[..|times| - 1], lo, hi)
         + (if lo < times[|times| - 1] <= hi then 1 else 0)
  }

  lemma {:induction false} IntervalOfKept(times: seq<int>, lo: int, hi: int)
    requires forall i :: 0 <= i < |times| ==> times[i] <= hi
    ensures InInterval(times, lo, hi) == |Kept(times, lo)|
  {
    if times != [] {
      IntervalOfKept(times[..|times| - 1], lo, hi);
    }
  }

  lemma {:induction false} IntervalShrinks(times: seq<int>, lo: int, lo': int, hi: int, hi': int)
    requires lo' <= lo && hi <= hi'
    ensures InInterval(times, lo, hi) <= InInterval(times, lo', hi')
  {
    if times != [] {
      IntervalShrinks(times[..|times| - 1], lo, lo', hi, hi');
    }
  }

  /** A history in which every new time found fewer than `limit` earlier ones within `span` before. */
  ghost predicate Throttled(times: seq<int>, span: nat, limit: nat) {
    times == [] ||
    var pre, t := times[..|times| - 1], times[|times| - 1];
    Throttled(pre, span, limit) && |Kept(pre, t - span)| < limit
  }

  /** A window that finds room throttles the history it agrees with. */
  lemma StillThrottled(letIn: bool, w: seq<int>, h: seq<int>, w': seq<int>, h': seq<int>, t: int, span: nat, limit: nat)
    requires Throttled(h, span, limit) && Agrees(w, h, t - span)
    requires OneMore(letIn, w, h, w', h', t, t - span)
    requires letIn ==> |Kept(w, t - span)| < limit
    ensures Throttled(h', span, limit)
  {
    assert (h + [t])[..|h + [t]| - 1] == h;
  }

  /** A throttled history has at most `limit` times in any interval of length `span`. */
  lemma {:induction false} ThrottledBound(times: seq<int>, span: nat, limit: nat, hi: int)
    requires Ordered(times) && Throttled(times, span, limit)
    ensures InInterval(times, hi - span, hi) <= limit
  {
    if times != [] {
      var n := |times| - 1;
      var pre, t := times[..n], times[n];
      if t <= hi {
        WindowBeforeLast(pre, t, span, hi);
      } else {
        ThrottledBound(pre, span, limit, hi);
      }
    }
  }

  lemma WindowBeforeLast(pre: seq<int>, t: int, span: nat, hi: int)
    requires t <= hi && forall i :: 0 <= i < |pre| ==> pre[i] <= t
    ensures InInterval(pre, hi - span, hi) <= |Kept(pre, t - span)|
  {
    IntervalOfKept(pre, t - span, t);
    IntervalShrinks(pre, hi - span, t - span, hi, hi);
    OnlyUpTo(pre, t - span, t, hi);
  }

  lemma {:induction false} OnlyUpTo(times: seq<int>, lo: int, t: int, hi: int)
    requires t <= hi && forall i :: 0 <= i < |times| ==> times[i] <= t
    ensures InInterval(times, lo, hi) == InInterval(times, lo, t)
  {
    if times != [] {
      OnlyUpTo(times[..|times| - 1], lo, t, hi);
    }
  }
}
