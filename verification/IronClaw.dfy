/**
 Policy enforcement of governor/ironclaw/ironclaw.go, with the per-skill QPS window that `Enforce`
 keeps in a global map, compacted in place. Times are whole seconds of a clock that does not run
 backwards. The lower case of a text, and whether a token validates, are parameters.
 */
module IronClaw {
  import opened SlidingWindow

  datatype Policy = Policy(skillID: string, allowedUsers: seq<string>, maxQPS: int, requireToken: bool,
                           minClassification: string)

  datatype Request = Request(userID: string, token: string, tokenValid: bool, classification: string)

  datatype Verdict = Allowed | UserRefused | QpsExceeded | TokenRequired | TokenInvalid | ClassificationTooLow

  /** The level of a classification, whatever its case; an unknown one counts as public. */
  function ClassificationLevel(lower: string -> string, s: string): nat {
    var name := lower(s);
    if name == "internal" then 1 else if name == "confidential" then 2 else if name == "secret" then 3 else 0
  }

  /** The four classifications in order; any other counts as the lowest. */
  lemma Classifications(lower: string -> string, s: string, k: nat)
    requires k < 4
    ensures lower(s) == ["public", "internal", "confidential", "secret"][k] ==> ClassificationLevel(lower, s) == k
    ensures lower(s) !in ["public", "internal", "confidential", "secret"] ==> ClassificationLevel(lower, s) == 0
  {
  }

  predicate UserAllowed(p: Policy, r: Request) {
    p.allowedUsers == [] || r.userID in p.allowedUsers
  }

  predicate TokenAccepted(p: Policy, r: Request) {
    p.requireToken ==> r.token != "" && r.tokenValid
  }

  predicate ClassificationMet(lower: string -> string, p: Policy, r: Request) {
    p.minClassification != "" ==>
      ClassificationLevel(lower, r.classification) >= ClassificationLevel(lower, p.minClassification)
  }

  /** The call reaches the QPS check. */
  predicate Counted(p: Policy, r: Request) {
    p.skillID != "" && UserAllowed(p, r) && p.maxQPS > 0
  }

  function Window(hits: map<string, seq<int>>, skill: string): seq<int> {
    if skill in hits then hits[skill] else []
  }

  /** The call finds room in its skill's window. */
  predicate RoomFor(hits: map<string, seq<int>>, p: Policy, now: int) {
    |Kept(Window(hits, p.skillID), now - 1)| < p.maxQPS
  }

  /** The windows after a call: a counted call is recorded if there is room, whatever the later
      checks say; otherwise its slice shows what compaction left under the old length. */
  function Next(hits: map<string, seq<int>>, p: Policy, r: Request, now: int): map<string, seq<int>> {
    if !Counted(p, r) then hits
    else
      var w := Window(hits, p.skillID);
      hits[p.skillID := if RoomFor(hits, p, now) then Kept(w, now - 1) + [now] else Compacted(w, now - 1)]
  }

  ghost predicate Shows(s: Slice, times: seq<int>)
    reads s.buf
  {
    s.len <= s.buf.Length && s.buf[..s.len] == times
  }

  class Enforcer {
    var qpsHits: map<string, Slice>
    ghost var hits: map<string, seq<int>>  // the times that the slices show

    ghost function Buffers(): set<array<int>>
      reads `qpsHits
    {
      set k | k in qpsHits :: qpsHits[k].buf
    }

    ghost predicate Valid()
      reads `qpsHits, `hits, Buffers()
    {
      && hits.Keys == qpsHits.Keys
      && (forall k :: k in qpsHits ==> Shows(qpsHits[k], hits[k]))
      && (forall j, k :: j in qpsHits && k in qpsHits && j != k ==> qpsHits[j].buf != qpsHits[k].buf)
    }

    constructor ()
      ensures Valid() && hits == map[] && Buffers() == {}
    {
      qpsHits, hits := map[], map[];
    }

    /** `Enforce`: the checks in order, each with its own refusal. */
    method Enforce(p: Policy, r: Request, now: int, lower: string -> string) returns (v: Verdict)
      requires Valid()
      modifies `qpsHits, `hits, Buffers()
      ensures Valid() && fresh(Buffers() - old(Buffers()))
      ensures hits == Next(old(hits), p, r, now)
      ensures v.Allowed? <==>
                || p.skillID == ""
                || (UserAllowed(p, r) && (Counted(p, r) ==> RoomFor(old(hits), p, now))
                    && TokenAccepted(p, r) && ClassificationMet(lower, p, r))
      ensures v.UserRefused? <==> p.skillID != "" && !UserAllowed(p, r)
      ensures v.QpsExceeded? <==> Counted(p, r) && !RoomFor(old(hits), p, now)
      ensures v.TokenRequired? || v.TokenInvalid? <==>
                && p.skillID != "" && UserAllowed(p, r) && (Counted(p, r) ==> RoomFor(old(hits), p, now))
                && !TokenAccepted(p, r)
      ensures v.TokenRequired? ==> r.token == ""
      ensures v.TokenInvalid? ==> r.token != "" && !r.tokenValid
      ensures v.ClassificationTooLow? ==> TokenAccepted(p, r) && !ClassificationMet(lower, p, r)
    {
      if p.skillID == "" {
        return Allowed;
      }
      var allowed := FindUser(p, r.userID);
      if |p.allowedUsers| > 0 && !allowed {
        return UserRefused;
      }
      if p.maxQPS > 0 {
        var ok := Throttle(p, now);
        if !ok {
          return QpsExceeded;
        }
      }
      if p.requireToken {
        if r.token == "" {
          return TokenRequired;
        }
        if !r.tokenValid {
          return TokenInvalid;
        }
      }
      if p.minClassification != "" {
        if ClassificationLevel(lower, r.classification) < ClassificationLevel(lower, p.minClassification) {
          return ClassificationTooLow;
        }
      }
      return Allowed;
    }

    method FindUser(p: Policy, userID: string) returns (allowed: bool)
      ensures allowed <==> userID in p.allowedUsers
    {
      allowed := false;
      for i := 0 to |p.allowedUsers|
        invariant userID !in p.allowedUsers[..i]
      {
        if p.allowedUsers[i] == userID {
          return true;
        }
      }
    }

    /** The window part of `Enforce`. */
    method Throttle(p: Policy, now: int) returns (ok: bool)
      requires Valid() && p.maxQPS > 0
      modifies `qpsHits, `hits, Buffers()
      ensures Valid() && fresh(Buffers() - old(Buffers()))
      ensures ok == RoomFor(old(hits), p, now)
      ensures hits == old(hits)[p.skillID :=
                var w := Window(old(hits), p.skillID);
                if ok then Kept(w, now - 1) + [now] else Compacted(w, now - 1)]
    {
      var times := Times(p.skillID);
      var j := Compact(times, now - 1);
      ok := j < p.maxQPS;
      if ok {
        Accept(p.skillID, times, j, now);
      } else {
        Reread(p.skillID, times);
      }
    }

    /** After a refusal the map still has the old slice over the compacted buffer. */
    ghost method Reread(skill: string, times: Slice)
      requires skill in qpsHits && qpsHits[skill] == times && hits.Keys == qpsHits.Keys
      requires times.len <= times.buf.Length
      requires forall k :: k in qpsHits && k != skill ==> Shows(qpsHits[k], hits[k])
      requires forall i, k :: i in qpsHits && k in qpsHits && i != k ==> qpsHits[i].buf != qpsHits[k].buf
      modifies `hits
      ensures Valid() && hits == old(hits)[skill := times.buf[..times.len]]
    {
      hits := hits[skill := times.buf[..times.len]];
    }

    /** `qpsHits[skill]`; a missing key stands for the nil slice. */
    method Times(skill: string) returns (s: Slice)
      requires Valid()
      ensures Shows(s, Window(hits, skill))
      ensures if skill in qpsHits then s == qpsHits[skill] else fresh(s.buf)
    {
      if skill in qpsHits {
        s := qpsHits[skill];
      } else {
        var buf := new int[0];
        s := Slice(buf, 0);
      }
    }

    method Accept(skill: string, times: Slice, j: nat, now: int)
      requires j <= times.len <= times.buf.Length && hits.Keys == qpsHits.Keys
      requires forall k :: k in qpsHits && k != skill ==> Shows(qpsHits[k], hits[k]) && qpsHits[k].buf != times.buf
      requires forall i, k :: i in qpsHits && k in qpsHits && i != k ==> qpsHits[i].buf != qpsHits[k].buf
      modifies `qpsHits, `hits, times.buf
      ensures Valid() && fresh(Buffers() - old(Buffers()) - {times.buf})
      ensures hits == old(hits)[skill := old(times.buf[..j]) + [now]]
    {
      ghost var kept := times.buf[..j];
      var longer := Append(times, j, now);
      qpsHits := qpsHits[skill := longer];
      hits := hits[skill := kept + [now]];
    }
  }

  // ----- whole runs -----------------------------------------------------------------------

  /** A call; its policy may carry another limit for the skill than earlier ones. */
  datatype Call = Call(p: Policy, r: Request, at: int)

  function Run(calls: seq<Call>): map<string, seq<int>> {
    if calls == [] then map[]
    else
      var pre, c := calls[..|calls| - 1], calls[|calls| - 1];
      Next(Run(pre), c.p, c.r, c.at)
  }

  predicate LetsIn(hits: map<string, seq<int>>, c: Call, skill: string) {
    c.p.skillID == skill && Counted(c.p, c.r) && RoomFor(hits, c.p, c.at)
  }

  /** The seconds at which calls for the skill were recorded. */
  function Recorded(calls: seq<Call>, skill: string): seq<int> {
    if calls == [] then []
    else
      var pre, c := calls[..|calls| - 1], calls[|calls| - 1];
      if LetsIn(Run(pre), c, skill)
      then Recorded(pre, skill) + [c.at]
      else Recorded(pre, skill)
  }

  /** The clock does not run backwards, and does not pass `now`. */
  ghost predicate Clocked(calls: seq<Call>, now: int) {
    calls == [] ||
    var pre, c := calls[..|calls| - 1], calls[|calls| - 1];
    c.at <= now && Clocked(pre, c.at)
  }

  // ----- the window is one second ---------------------------------------------------------

  /** All times are the same, and not after `now`. */
  ghost predicate OneSecond(w: seq<int>, now: int) {
    forall i :: 0 <= i < |w| ==> w[i] == w[0] <= now
  }

  /** Of a window that is one second, compaction keeps all or nothing. */
  lemma AllOrNothing(w: seq<int>, now: int, cutoff: int)
    requires OneSecond(w, now)
    ensures Kept(w, cutoff) == (if w != [] && w[0] > cutoff then w else [])
  {
    if w != [] && w[0] > cutoff {
      NothingDropped(w, cutoff);
    } else {
      AllDropped(w, cutoff);
    }
  }

  lemma RefusalKeepsWindow(hits: map<string, seq<int>>, p: Policy, r: Request, now: int)
    requires OneSecond(Window(hits, p.skillID), now) && Counted(p, r) && !RoomFor(hits, p, now)
    ensures Next(hits, p, r, now) == hits
  {
    var w := Window(hits, p.skillID);
    AllOrNothing(w, now, now - 1);
    assert Compacted(w, now - 1) == w;
    assert p.skillID in hits;
  }

  /** Whatever the limits, a stored window only ever holds one clock second. */
  lemma {:induction false} WindowIsOneSecond(calls: seq<Call>, skill: string, now: int)
    requires Clocked(calls, now)
    ensures OneSecond(Window(Run(calls), skill), now)
  {
    if calls != [] {
      var pre, c := calls[..|calls| - 1], calls[|calls| - 1];
      WindowIsOneSecond(pre, skill, c.at);
      if c.p.skillID == skill && Counted(c.p, c.r) {
        AllOrNothing(Window(Run(pre), skill), c.at, c.at - 1);
      }
    }
  }

  /** So no refusal ever changes a window: a call that is not recorded leaves all of them as they are. */
  lemma RefusalChangesNothing(calls: seq<Call>, c: Call)
    requires Clocked(calls, c.at) && !LetsIn(Run(calls), c, c.p.skillID)
    ensures Next(Run(calls), c.p, c.r, c.at) == Run(calls)
  {
    if Counted(c.p, c.r) {
      WindowIsOneSecond(calls, c.p.skillID, c.at);
      RefusalKeepsWindow(Run(calls), c.p, c.r, c.at);
    }
  }

  // ----- the rate -------------------------------------------------------------------------

  lemma OneCall(calls: seq<Call>, skill: string, now: int)
    requires calls != [] && Clocked(calls, now)
    ensures
      var pre, c := calls[..|calls| - 1], calls[|calls| - 1];
      OneMore(LetsIn(Run(pre), c, skill), Window(Run(pre), skill), Recorded(pre, skill),
              Window(Run(calls), skill), Recorded(calls, skill), c.at, c.at - 1)
  {
    var pre, c := calls[..|calls| - 1], calls[|calls| - 1];
    if !LetsIn(Run(pre), c, c.p.skillID) {
      RefusalChangesNothing(pre, c);
    }
  }

  /** The window has dropped nothing that a later call needs. */
  lemma {:induction false} WindowIsHistory(calls: seq<Call>, skill: string, now: int)
    requires Clocked(calls, now)
    ensures Agrees(Window(Run(calls), skill), Recorded(calls, skill), now - 1)
  {
    if calls != [] {
      var pre, c := calls[..|calls| - 1], calls[|calls| - 1];
      WindowIsHistory(pre, skill, c.at);
      OneCall(calls, skill, now);
      StillAgrees(LetsIn(Run(pre), c, skill), Window(Run(pre), skill), Recorded(pre, skill),
                  Window(Run(calls), skill), Recorded(calls, skill), c.at, c.at - 1, now - 1);
    }
  }

  lemma {:induction false} RecordedInOrder(calls: seq<Call>, skill: string, now: int)
    requires Clocked(calls, now)
    ensures Ordered(Recorded(calls, skill))
    ensures forall i :: 0 <= i < |Recorded(calls, skill)| ==> Recorded(calls, skill)[i] <= now
  {
    if calls != [] {
      RecordedInOrder(calls[..|calls| - 1], skill, calls[|calls| - 1].at);
    }
  }

  /** A counted call is refused for its rate exactly when as many calls as its own limit are already
      recorded in its second. */
  lemma RefusedIffSecondFull(calls: seq<Call>, c: Call)
    requires Clocked(calls, c.at)
    ensures RoomFor(Run(calls), c.p, c.at) <==>
            InInterval(Recorded(calls, c.p.skillID), c.at - 1, c.at) < c.p.maxQPS
  {
    WindowIsHistory(calls, c.p.skillID, c.at);
    RecordedInOrder(calls, c.p.skillID, c.at);
    IntervalOfKept(Recorded(calls, c.p.skillID), c.at - 1, c.at);
  }

  /** The limits of the calls that were recorded in a clock second, in order. */
  function LimitsIn(calls: seq<Call>, skill: string, second: int): seq<int> {
    if calls == [] then []
    else
      var pre, c := calls[..|calls| - 1], calls[|calls| - 1];
      LimitsIn(pre, skill, second) + if LetsIn(Run(pre), c, skill) && c.at == second then [c.p.maxQPS] else []
  }

  /** Each call that is recorded in a second is within its own limit, itself included: the second's first call has
      a limit of at least 1, its second call one of at least 2, and so on. */
  lemma {:induction false} WithinOwnLimit(calls: seq<Call>, skill: string, now: int, second: int)
    requires Clocked(calls, now)
    ensures
      var limits := LimitsIn(calls, skill, second);
      && |limits| == InInterval(Recorded(calls, skill), second - 1, second)
      && forall k :: 0 <= k < |limits| ==> limits[k] > k
  {
    if calls != [] {
      var pre, c := calls[..|calls| - 1], calls[|calls| - 1];
      WithinOwnLimit(pre, skill, c.at, second);
      if c.p.skillID == skill {
        RefusedIffSecondFull(pre, c);
      }
    }
  }

  /** So no clock second has more recorded calls than the largest limit in force for them, and not even
      more than that of the last of them. */
  lemma PerSecondBound(calls: seq<Call>, skill: string, now: int, second: int, limit: nat)
    requires Clocked(calls, now)
    requires var limits := LimitsIn(calls, skill, second); limits != [] ==> limits[|limits| - 1] <= limit
    ensures InInterval(Recorded(calls, skill), second - 1, second) <= limit
  {
    WithinOwnLimit(calls, skill, now, second);
  }
}
