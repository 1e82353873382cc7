/**
 The per-user and per-skill quota of governor/quota.go: a concurrency count per user and a
 one-second window per skill, compacted in place. Times are nanoseconds of a monotone clock.
 */
module Quota {
  import opened SlidingWindow

  const PER_USER_CONCURRENCY := 3
  const PER_SKILL_QPS := 10
  const GOROUTINE_CAP := 500
  const SECOND: nat := 1_000_000_000

  // ----- the quota on values --------------------------------------------------------------

  datatype State = State(active: map<string, int>, windows: map<string, seq<int>>)

  datatype Event =
    | Allow(user: string, skill: string, at: int, goroutines: nat)
    | Release(user: string)

  function Shown(windows: map<string, seq<int>>, skill: string): seq<int> {
    if skill in windows then windows[skill] else []
  }

  /** The skill's window after it has been compacted at `at`. */
  function Recent(windows: map<string, seq<int>>, skill: string, at: int): seq<int> {
    Kept(Shown(windows, skill), at - SECOND)
  }

  function Active(s: State, user: string): int {
    if user in s.active then s.active[user] else 0
  }

  function Window(s: State, skill: string): seq<int> {
    Shown(s.windows, skill)
  }

  predicate Admits(s: State, e: Event)
    requires e.Allow?
  {
    && e.goroutines <= GOROUTINE_CAP
    && Active(s, e.user) < PER_USER_CONCURRENCY
    && |Recent(s.windows, e.skill, e.at)| < PER_SKILL_QPS
  }

  /** A refused call and an unmatched release change nothing. */
  function Next(s: State, e: Event): State {
    match e
    case Allow(user, skill, at, _) =>
      if Admits(s, e)
      then State(s.active[user := Active(s, user) + 1],
                 s.windows[skill := Recent(s.windows, skill, at) + [at]])
      else s
    case Release(user) =>
      if Active(s, user) <= 0 then s
      else if Active(s, user) == 1 then s.(active := s.active - {user})
      else s.(active := s.active[user := Active(s, user) - 1])
  }

  lemma Outcome(s: State, t: State, e: Event, ok: bool)
    requires e.Allow? && e.goroutines <= GOROUTINE_CAP && Active(s, e.user) < PER_USER_CONCURRENCY
    requires ok == (|Recent(s.windows, e.skill, e.at)| < PER_SKILL_QPS)
    requires t == if ok then State(s.active[e.user := Active(s, e.user) + 1],
                                   s.windows[e.skill := Recent(s.windows, e.skill, e.at) + [e.at]]) else s
    ensures ok == Admits(s, e) && t == Next(s, e)
  {
  }

  lemma Refused(s: State, e: Event)
    requires e.Allow? && (e.goroutines > GOROUTINE_CAP || Active(s, e.user) >= PER_USER_CONCURRENCY)
    ensures !Admits(s, e) && Next(s, e) == s
  {
  }

  ghost predicate Bounded(s: State) {
    && (forall u :: u in s.active ==> 0 < s.active[u] <= PER_USER_CONCURRENCY)
    && (forall k :: k in s.windows ==> |s.windows[k]| <= PER_SKILL_QPS)
  }

  lemma NextIsBounded(s: State, e: Event)
    requires Bounded(s)
    ensures Bounded(Next(s, e))
  {
  }

  // ----- the quota object -----------------------------------------------------------------

  /** The slice is well formed, shows these times, and is within the limit. */
  ghost predicate Shows(s: Slice, times: seq<int>)
    reads s.buf
  {
    s.len <= s.buf.Length && s.buf[..s.len] == times && |times| <= PER_SKILL_QPS
  }

  class Quota {
    var userActive: map<string, int>
    var skillTimes: map<string, Slice>
    ghost var windows: map<string, seq<int>>  // the times that the slices show

    ghost function Buffers(): set<array<int>>
      reads `skillTimes
    {
      set k | k in skillTimes :: skillTimes[k].buf
    }

    /** Slices are well formed, show `windows`, do not share buffers, and never exceed the limit. */
    ghost predicate Valid()
      reads `skillTimes, `windows, Buffers()
    {
      && windows.Keys == skillTimes.Keys
      && (forall k :: k in skillTimes ==> Shows(skillTimes[k], windows[k]))
      && (forall j, k :: j in skillTimes && k in skillTimes && j != k ==> skillTimes[j].buf != skillTimes[k].buf)
    }

    ghost function Value(): State
      reads `userActive, `windows
    {
      State(userActive, windows)
    }

    constructor ()
      ensures Valid() && Value() == State(map[], map[]) && Buffers() == {}
    {
      userActive, skillTimes, windows := map[], map[], map[];
    }

    method Allow(userID: string, skillID: string, now: int, goroutines: nat) returns (ok: bool)
      requires Valid()
      modifies this, Buffers()
      ensures Valid() && fresh(Buffers() - old(Buffers()))
      ensures ok == Admits(old(Value()), Event.Allow(userID, skillID, now, goroutines))
      ensures Value() == Next(old(Value()), Event.Allow(userID, skillID, now, goroutines))
    {
      ghost var e := Event.Allow(userID, skillID, now, goroutines);
      if goroutines > GOROUTINE_CAP {
        Refused(Value(), e);
        return false;
      }
      var active := if userID in userActive then userActive[userID] else 0;
      if active >= PER_USER_CONCURRENCY {
        Refused(Value(), e);
        return false;
      }
      ok := AllowCall(e, userID, skillID, active, now);
    }

    /** The rest of `Allow`, once the process and the user have room. */
    method AllowCall(ghost e: Event, userID: string, skillID: string, active: int, now: int) returns (ok: bool)
      requires Valid() && e.Allow? && e.goroutines <= GOROUTINE_CAP && e.user == userID && e.skill == skillID
      requires e.at == now && active == Active(Value(), userID) < PER_USER_CONCURRENCY
      modifies this, Buffers()
      ensures Valid() && fresh(Buffers() - old(Buffers()))
      ensures ok == Admits(old(Value()), e) && Value() == Next(old(Value()), e)
    {
      ghost var before := Value();
      ok := Throttle(skillID, now);
      if ok {
        CountCall(userID, active);
      }
      Outcome(before, Value(), e, ok);
    }

    method CountCall(userID: string, active: int)
      requires Valid()
      modifies `userActive
      ensures Valid() && Buffers() == old(Buffers())
      ensures Value() == old(Value()).(active := old(userActive)[userID := active + 1])
    {
      userActive := userActive[userID := active + 1];
    }

    /** The window part of `Allow`. A refusal has compacted a window that had nothing to drop. */
    method Throttle(skillID: string, now: int) returns (ok: bool)
      requires Valid()
      modifies `skillTimes, `windows, Buffers()
      ensures Valid() && fresh(Buffers() - old(Buffers()))
      ensures ok == (|Recent(old(windows), skillID, now)| < PER_SKILL_QPS)
      ensures ok ==> windows == old(windows)[skillID := Recent(old(windows), skillID, now) + [now]]
      ensures !ok ==> windows == old(windows)
    {
      var times := Times(skillID);
      ghost var before := Shown(windows, skillID);
      var j := Compact(times, now - SECOND);
      ok := j < PER_SKILL_QPS;
      if ok {
        Accept(skillID, times, j, now);
      } else {
        FullWindowKeepsAll(before, now - SECOND, PER_SKILL_QPS);
        assert times.buf[..times.len] == before;
      }
    }

    /** `q.skillTimes[skillID] = append(times[:j], now)`; the old window may have been overwritten. */
    method Accept(skillID: string, times: Slice, j: nat, now: int)
      requires j <= times.len <= times.buf.Length && j < PER_SKILL_QPS
      requires windows.Keys == skillTimes.Keys
      requires forall k :: k in skillTimes && k != skillID ==>
                 Shows(skillTimes[k], windows[k]) && skillTimes[k].buf != times.buf
      requires forall i, k :: i in skillTimes && k in skillTimes && i != k ==> skillTimes[i].buf != skillTimes[k].buf
      modifies `skillTimes, `windows, times.buf
      ensures Valid() && fresh(Buffers() - old(Buffers()) - {times.buf})
      ensures windows == old(windows)[skillID := old(times.buf[..j]) + [now]]
    {
      ghost var kept := times.buf[..j];
      var longer := Append(times, j, now);
      skillTimes := skillTimes[skillID := longer];
      windows := windows[skillID := kept + [now]];
    }

    /** `q.skillTimes[skillID]`; a missing key stands for the nil slice. */
    method Times(skillID: string) returns (s: Slice)
      requires Valid()
      ensures Shows(s, Shown(windows, skillID))
      ensures if skillID in skillTimes then s == skillTimes[skillID] else fresh(s.buf)
    {
      if skillID in skillTimes {
        s := skillTimes[skillID];
      } else {
        var buf := new int[0];
        s := Slice(buf, 0);
      }
    }

    method Release(userID: string)
      requires Valid()
      modifies `userActive
      ensures Valid() && Value() == Next(old(Value()), Event.Release(userID))
    {
      if userID in userActive && userActive[userID] > 0 {
        userActive := userActive[userID := userActive[userID] - 1];
        if userActive[userID] == 0 {
          userActive := userActive - {userID};
        }
      }
    }
  }

  // ----- whole runs -----------------------------------------------------------------------

  function Run(es: seq<Event>): State {
    if es == [] then State(map[], map[]) else Next(Run(es[..|es| - 1]), es[|es| - 1])
  }

  /** The times at which calls for the skill were admitted in the run. */
  function Accepted(es: seq<Event>, skill: string): seq<int> {
    if es == [] then []
    else
      var pre, e := es[..|es| - 1], es[|es| - 1];
      if LetsIn(Run(pre), e, skill)
      then Accepted(pre, skill) + [e.at]
      else Accepted(pre, skill)
  }

  /** The clock never runs backwards, and does not pass `now`. */
  ghost predicate Clocked(es: seq<Event>, now: int) {
    es == [] ||
    var pre, e := es[..|es| - 1], es[|es| - 1];
    if e.Allow? then e.at <= now && Clocked(pre, e.at) else Clocked(pre, now)
  }

  lemma {:induction false} AcceptedInOrder(es: seq<Event>, skill: string, now: int)
    requires Clocked(es, now)
    ensures Ordered(Accepted(es, skill))
    ensures forall i :: 0 <= i < |Accepted(es, skill)| ==> Accepted(es, skill)[i] <= now
  {
    if es != [] {
      var e := es[|es| - 1];
      AcceptedInOrder(es[..|es| - 1], skill, if e.Allow? then e.at else now);
    }
  }

  predicate LetsIn(s: State, e: Event, skill: string) {
    e.Allow? && e.skill == skill && Admits(s, e)
  }

  lemma OneEvent(es: seq<Event>, skill: string)
    requires es != []
    ensures
      var pre, e := es[..|es| - 1], es[|es| - 1];
      var at := if e.Allow? then e.at else 0;
      OneMore(LetsIn(Run(pre), e, skill), Window(Run(pre), skill), Accepted(pre, skill),
              Window(Run(es), skill), Accepted(es, skill), at, at - SECOND)
  {
  }

  /** What the compacted window has dropped no later window needs. */
  lemma {:induction false} WindowIsHistory(es: seq<Event>, skill: string, now: int)
    requires Clocked(es, now)
    ensures Agrees(Window(Run(es), skill), Accepted(es, skill), now - SECOND)
  {
    if es != [] {
      var pre, e := es[..|es| - 1], es[|es| - 1];
      OneEvent(es, skill);
      if e.Allow? {
        WindowIsHistory(pre, skill, e.at);
        StillAgrees(LetsIn(Run(pre), e, skill), Window(Run(pre), skill), Accepted(pre, skill),
                    Window(Run(es), skill), Accepted(es, skill), e.at, e.at - SECOND, now - SECOND);
      } else {
        WindowIsHistory(pre, skill, now);
      }
    }
  }

  /** Admission is exact: a call is let in if and only if the process is not overloaded, the user has
      fewer than 3 calls running, and fewer than 10 calls for the skill were let in during the
      second before. */
  lemma AdmittedIff(es: seq<Event>, e: Event)
    requires e.Allow? && Clocked(es, e.at)
    ensures Admits(Run(es), e) <==>
            && e.goroutines <= GOROUTINE_CAP
            && Active(Run(es), e.user) < PER_USER_CONCURRENCY
            && InInterval(Accepted(es, e.skill), e.at - SECOND, e.at) < PER_SKILL_QPS
  {
    WindowIsHistory(es, e.skill, e.at);
    AcceptedInOrder(es, e.skill, e.at);
    IntervalOfKept(Accepted(es, e.skill), e.at - SECOND, e.at);
  }

  lemma {:induction false} AcceptedIsThrottled(es: seq<Event>, skill: string, now: int)
    requires Clocked(es, now)
    ensures Throttled(Accepted(es, skill), SECOND, PER_SKILL_QPS)
  {
    if es != [] {
      var pre, e := es[..|es| - 1], es[|es| - 1];
      OneEvent(es, skill);
      AcceptedIsThrottled(pre, skill, if e.Allow? then e.at else now);
      if e.Allow? {
        WindowIsHistory(pre, skill, e.at);
        StillThrottled(LetsIn(Run(pre), e, skill), Window(Run(pre), skill), Accepted(pre, skill),
                       Window(Run(es), skill), Accepted(es, skill), e.at, SECOND, PER_SKILL_QPS);
      }
    }
  }

  /** No second of any run, wherever it starts, sees more than 10 calls let in for one skill. */
  lemma OneSecondBound(es: seq<Event>, skill: string, now: int, hi: int)
    requires Clocked(es, now)
    ensures InInterval(Accepted(es, skill), hi - SECOND, hi) <= PER_SKILL_QPS
  {
    AcceptedInOrder(es, skill, now);
    AcceptedIsThrottled(es, skill, now);
    ThrottledBound(Accepted(es, skill), SECOND, PER_SKILL_QPS, hi);
  }

  // ----- concurrency ----------------------------------------------------------------------

  function AdmittedCalls(es: seq<Event>, user: string): nat {
    if es == [] then 0
    else
      var pre, e := es[..|es| - 1], es[|es| - 1];
      AdmittedCalls(pre, user) + if e.Allow? && e.user == user && Admits(Run(pre), e) then 1 else 0
  }

  function Releases(es: seq<Event>, user: string): nat {
    if es == [] then 0
    else Releases(es[..|es| - 1], user) + if es[|es| - 1] == Release(user) then 1 else 0
  }

  /** Every release of the user's finds a call running. */
  ghost predicate Matched(es: seq<Event>, user: string) {
    es == [] ||
    var pre, e := es[..|es| - 1], es[|es| - 1];
    Matched(pre, user) && (e == Release(user) ==> Active(Run(pre), user) > 0)
  }

  /** The user's count stays within 0 and 3, and it is the number of admitted calls less the number
      of releases exactly when every release was matched. */
  lemma {:induction false} ActiveCounts(es: seq<Event>, user: string)
    ensures Bounded(Run(es)) && 0 <= Active(Run(es), user) <= PER_USER_CONCURRENCY
    ensures Active(Run(es), user) >= AdmittedCalls(es, user) - Releases(es, user)
    ensures Active(Run(es), user) == AdmittedCalls(es, user) - Releases(es, user) <==> Matched(es, user)
  {
    if es != [] {
      ActiveCounts(es[..|es| - 1], user);
      NextIsBounded(Run(es[..|es| - 1]), es[|es| - 1]);
    }
  }
}
