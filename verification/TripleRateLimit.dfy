/**
 Per-key token buckets and the three-level limiter of governor/ratelimit.go. A call of the limiter looks up and
 asks up to three buckets, one after another and each at its own reading of the clock; no lock spans them. The
 main result is about all interleavings of such calls: those that pass respect the global, the per-user and the
 per-skill bound at the same time, in every interval.
 */
module TripleRateLimit {
  import opened Common
  import opened TokenBucket

  // ----- per-key buckets ------------------------------------------------------------------

  /** The bucket of a key; a key never seen has a full one. */
  function BucketFor(buckets: map<string, Bucket>, key: string, burst: int, now: real): Bucket {
    if key in buckets then buckets[key] else Full(burst, now)
  }

  class RateLimitMap {
    var buckets: map<string, TokenBucket>
    const rate: real
    const burst: int

    ghost predicate Valid()
      reads this, buckets.Values
    {
      && (forall k :: k in buckets ==> buckets[k].refill == Rate(rate))
      && (forall j, k :: j in buckets && k in buckets && j != k ==> buckets[j] != buckets[k])
    }

    ghost function States(): map<string, Bucket>
      reads this, buckets.Values
    {
      map k | k in buckets :: buckets[k].State()
    }

    constructor (rate: real, burst: int)
      ensures Valid() && States() == map[] && buckets == map[]
      ensures this.rate == rate && this.burst == burst
    {
      buckets := map[];
      this.rate, this.burst := rate, burst;
    }

    /** `Allow`: looks up the key's bucket at `found`, creating it on first use, and asks it at `now`. */
    method Allow(key: string, found: real, now: real) returns (ok: bool)
      requires Valid()
      modifies this, buckets.Values
      ensures Valid() && fresh(buckets.Values - old(buckets.Values))
      ensures
        var b := BucketFor(old(States()), key, burst, Earned(Rate(rate), found));
        var r := Request(Earned(Rate(rate), now), 1);
        ok == Grants(b, r) && States() == old(States())[key := Next(b, r)]
    {
      var b := Ensure(key, found);
      ghost var before := States();
      assert before[key] == b.State();
      ok := b.Allow(now);
      assert States() == before[key := b.State()];
    }

    /** The key's bucket, created full when there is none. */
    method Ensure(key: string, now: real) returns (b: TokenBucket)
      requires Valid()
      modifies this
      ensures Valid() && fresh(buckets.Values - old(buckets.Values)) && old(buckets.Values) <= buckets.Values
      ensures key in buckets && buckets[key] == b
      ensures States() == old(States())[key := BucketFor(old(States()), key, burst, Earned(Rate(rate), now))]
    {
      if key in buckets {
        b := buckets[key];
      } else {
        b := new TokenBucket(rate, burst, now);
        buckets := buckets[key := b];
        assert buckets[key] == b;
        assert forall k :: k in old(buckets) ==> k in buckets && buckets[k] == old(buckets[k]);
        assert forall v :: v in old(buckets.Values) ==> v in buckets.Values;
      }
    }
  }

  // ----- the limiter on values ------------------------------------------------------------

  datatype Limit = Limit(rate: real, burst: int)

  datatype Config = Config(global: Limit, user: Limit, skill: Limit)

  datatype Limits = Limits(global: Bucket, users: map<string, Bucket>, skills: map<string, Bucket>)

  /** One of the limits: the global one, that of a user, or that of a skill. */
  datatype Scope = Global | User(id: string) | Skill(id: string)

  function LimitOf(cfg: Config, sc: Scope): Limit {
    match sc
    case Global => cfg.global
    case User(_) => cfg.user
    case Skill(_) => cfg.skill
  }

  function RateOf(cfg: Config, sc: Scope): (r: real)
    ensures r > 0.0
  {
    Rate(LimitOf(cfg, sc).rate)
  }

  /** The scope's reading of the clock. */
  function Reads(cfg: Config, sc: Scope, at: real): real {
    Earned(RateOf(cfg, sc), at)
  }

  /** The scope's bucket, or the full one that a lookup at `at` creates. */
  function Found(cfg: Config, l: Limits, sc: Scope, at: real): Bucket {
    match sc
    case Global => l.global
    case User(id) => BucketFor(l.users, id, cfg.user.burst, Reads(cfg, sc, at))
    case Skill(id) => BucketFor(l.skills, id, cfg.skill.burst, Reads(cfg, sc, at))
  }

  function Put(l: Limits, sc: Scope, b: Bucket): Limits {
    match sc
    case Global => l.(global := b)
    case User(id) => l.(users := l.users[id := b])
    case Skill(id) => l.(skills := l.skills[id := b])
  }

  function Asks(cfg: Config, sc: Scope, at: real): Request {
    Request(Reads(cfg, sc, at), 1)
  }

  /** Whether the scope has a token at `at`; its bucket was looked up at `found`. */
  predicate Allows(cfg: Config, l: Limits, sc: Scope, found: real, at: real) {
    Grants(Found(cfg, l, sc, found), Asks(cfg, sc, at))
  }

  function Ask(cfg: Config, l: Limits, sc: Scope, found: real, at: real): Limits {
    Put(l, sc, Next(Found(cfg, l, sc, found), Asks(cfg, sc, at)))
  }

  // ----- a call on its own ----------------------------------------------------------------

  /** The readings of the clock in one call: for each level when its bucket is looked up and when it is asked. */
  datatype Clock = Clock(global: real, userFound: real, user: real, skillFound: real, skill: real)

  /** How far a call gets. */
  datatype Outcome = GlobalRefuses | UserRefuses | SkillRefuses | Passes

  function Decide(cfg: Config, l: Limits, user: string, skill: string, at: Clock): Outcome {
    if !Allows(cfg, l, Global, at.global, at.global) then GlobalRefuses
    else if !Allows(cfg, l, User(user), at.userFound, at.user) then UserRefuses
    else if !Allows(cfg, l, Skill(skill), at.skillFound, at.skill) then SkillRefuses
    else Passes
  }

  /** The limits after a call. A refusal does not give back the tokens that earlier levels have taken. */
  function AfterCall(cfg: Config, l: Limits, user: string, skill: string, at: Clock): Limits {
    var l1 := Ask(cfg, l, Global, at.global, at.global);
    var l2 := Ask(cfg, l1, User(user), at.userFound, at.user);
    match Decide(cfg, l, user, skill, at)
    case GlobalRefuses => l1
    case UserRefuses => l2
    case _ => Ask(cfg, l2, Skill(skill), at.skillFound, at.skill)
  }

  // ----- the limiter object ---------------------------------------------------------------

  class TripleRateLimiter {
    const cfg: Config
    const global: TokenBucket
    const perUser: RateLimitMap
    const perSkill: RateLimitMap

    ghost function Footprint(): set<object>
      reads perUser, perSkill
    {
      {global, perUser, perSkill} + perUser.buckets.Values + perSkill.buckets.Values
    }

    ghost predicate Valid()
      reads perUser, perSkill, perUser.buckets.Values, perSkill.buckets.Values
    {
      && perUser.Valid() && perSkill.Valid() && perUser != perSkill
      && global !in perUser.buckets.Values + perSkill.buckets.Values
      && perUser.buckets.Values !! perSkill.buckets.Values
      && global.refill == Rate(cfg.global.rate)
      && perUser.rate == cfg.user.rate && perUser.burst == cfg.user.burst
      && perSkill.rate == cfg.skill.rate && perSkill.burst == cfg.skill.burst
    }

    ghost function State(): Limits
      reads Footprint(), perUser, perSkill
    {
      Limits(global.State(), perUser.States(), perSkill.States())
    }

    constructor (cfg: Config, now: real)
      ensures Valid() && this.cfg == cfg && fresh(Footprint())
      ensures State() == NewLimits(cfg, now)
    {
      this.cfg := cfg;
      global := new TokenBucket(cfg.global.rate, cfg.global.burst, now);
      perUser := new RateLimitMap(cfg.user.rate, cfg.user.burst);
      perSkill := new RateLimitMap(cfg.skill.rate, cfg.skill.burst);
    }

    /** `Allow`, undisturbed by other calls; the retry hint is not part of the model. */
    method Allow(userID: string, skillID: string, at: Clock) returns (ok: bool)
      requires Valid()
      modifies Footprint()
      ensures Valid() && fresh(Footprint() - old(Footprint()))
      ensures ok == Decide(cfg, old(State()), userID, skillID, at).Passes?
      ensures State() == AfterCall(cfg, old(State()), userID, skillID, at)
    {
      ok := AllowGlobal(at.global);
      if !ok {
        return;
      }
      ok := AllowKeys(userID, skillID, at);
    }

    method AllowKeys(userID: string, skillID: string, at: Clock) returns (ok: bool)
      requires Valid()
      modifies perUser, perSkill, perUser.buckets.Values, perSkill.buckets.Values
      ensures Valid() && fresh(Footprint() - old(Footprint()))
      ensures
        var l := old(State());
        var l' := Ask(cfg, l, User(userID), at.userFound, at.user);
        if Allows(cfg, l, User(userID), at.userFound, at.user)
        then && ok == Allows(cfg, l, Skill(skillID), at.skillFound, at.skill)
             && State() == Ask(cfg, l', Skill(skillID), at.skillFound, at.skill)
        else !ok && State() == l'
    {
      ok := AllowUser(userID, at.userFound, at.user);
      if !ok {
        return;
      }
      ok := AllowSkill(skillID, at.skillFound, at.skill);
    }

    method AllowGlobal(now: real) returns (ok: bool)
      requires Valid()
      modifies global
      ensures Valid() && Footprint() == old(Footprint())
      ensures ok == Allows(cfg, old(State()), Global, now, now)
      ensures State() == Ask(cfg, old(State()), Global, now, now)
    {
      ok := global.Allow(now);
    }

    method AllowUser(userID: string, found: real, now: real) returns (ok: bool)
      requires Valid()
      modifies perUser, perUser.buckets.Values
      ensures Valid() && fresh(Footprint() - old(Footprint()))
      ensures ok == Allows(cfg, old(State()), User(userID), found, now)
      ensures State() == Ask(cfg, old(State()), User(userID), found, now)
    {
      ok := perUser.Allow(userID, found, now);
    }

    method AllowSkill(skillID: string, found: real, now: real) returns (ok: bool)
      requires Valid()
      modifies perSkill, perSkill.buckets.Values
      ensures Valid() && fresh(Footprint() - old(Footprint()))
      ensures ok == Allows(cfg, old(State()), Skill(skillID), found, now)
      ensures State() == Ask(cfg, old(State()), Skill(skillID), found, now)
    {
      ok := perSkill.Allow(skillID, found, now);
    }
  }

  /** A new limiter. */
  function NewLimits(cfg: Config, created: real): Limits {
    Limits(Full(cfg.global.burst, Reads(cfg, Global, created)), map[], map[])
  }

  // ----- interleaved calls ----------------------------------------------------------------

  /** A call in progress or done: when it began, whether it has the bucket of its current level, when each level
      it has passed was asked, and whether one refused. */
  datatype Call = Call(user: string, skill: string, begun: real, found: bool, granted: seq<real>, refused: bool)

  /** `now` is the last reading of the clock. */
  datatype Progress = Progress(limits: Limits, calls: seq<Call>, now: real)

  /** A call begins, or call number `i` looks up the bucket of its current level or asks it. */
  datatype Step = Begin(user: string, skill: string, at: real) | Move(i: nat, at: real)

  predicate Passed(c: Call) {
    |c.granted| == 3
  }

  predicate Done(c: Call) {
    c.refused || |c.granted| >= 3
  }

  /** The scope that the call asks after the given number of grants. */
  function ScopeAt(c: Call, level: nat): Scope {
    if level == 0 then Global else if level == 1 then User(c.user) else Skill(c.skill)
  }

  function LevelOf(sc: Scope): nat {
    match sc
    case Global => 0
    case User(_) => 1
    case Skill(_) => 2
  }

  predicate Concerns(sc: Scope, c: Call) {
    ScopeAt(c, LevelOf(sc)) == sc
  }

  predicate CanStep(p: Progress, step: Step) {
    && p.now <= step.at
    && (step.Move? ==> step.i < |p.calls| && !Done(p.calls[step.i]))
  }

  /** A call looks a key's bucket up under the lock of the map and asks it under the bucket's own lock. A bucket
      that was looked up stays in the map, so asking it finds it there. */
  function Moved(cfg: Config, l: Limits, c: Call, at: real): (Limits, Call) {
    var sc := ScopeAt(c, |c.granted|);
    if !c.found then (Put(l, sc, Found(cfg, l, sc, at)), c.(found := true))
    else if Allows(cfg, l, sc, at, at)
    then (Ask(cfg, l, sc, at, at), c.(found := false, granted := c.granted + [at]))
    else (Ask(cfg, l, sc, at, at), c.(refused := true))
  }

  /** A step that cannot be made changes nothing. */
  function Stepped(cfg: Config, p: Progress, step: Step): Progress {
    if !CanStep(p, step) then p
    else match step
      case Begin(user, skill, at) => Progress(p.limits, p.calls + [Call(user, skill, at, true, [], false)], at)
      case Move(i, at) =>
        var (l, c) := Moved(cfg, p.limits, p.calls[i], at);
        Progress(l, p.calls[i := c], at)
  }

  function Run(cfg: Config, p: Progress, steps: seq<Step>): Progress {
    if steps == [] then p
    else Stepped(cfg, Run(cfg, p, steps[..|steps| - 1]), steps[|steps| - 1])
  }

  /** A new limiter without calls. */
  function Start(cfg: Config, created: real): Progress {
    Progress(NewLimits(cfg, created), [], created)
  }

  // ----- an undisturbed call --------------------------------------------------------------

  ghost predicate InTime(now: real, at: Clock) {
    now <= at.global <= at.userFound <= at.user <= at.skillFound <= at.skill
  }

  /** The steps of a call that has number `i`. */
  function StepsOf(user: string, skill: string, at: Clock, i: nat): seq<Step> {
    [Begin(user, skill, at.global), Move(i, at.global), Move(i, at.userFound), Move(i, at.user),
     Move(i, at.skillFound), Move(i, at.skill)]
  }

  lemma FoundWhenPut(cfg: Config, l: Limits, sc: Scope, b: Bucket, c: Bucket, at: real)
    ensures Found(cfg, Put(l, sc, b), sc, at) == b && Put(Put(l, sc, b), sc, c) == Put(l, sc, c)
  {
    match sc
    case Global =>
    case User(id) => assert l.users[id := b][id := c] == l.users[id := c];
    case Skill(id) => assert l.skills[id := b][id := c] == l.skills[id := c];
  }

  /** Looking a bucket up and then asking it is what `Ask` says. */
  lemma LookedUpAndAsked(cfg: Config, l: Limits, c: Call, found: real, at: real)
    requires !Done(c) && !c.found
    ensures
      var sc := ScopeAt(c, |c.granted|);
      var (l1, c1) := Moved(cfg, l, c, found);
      var (l2, c2) := Moved(cfg, l1, c1, at);
      && l2 == Ask(cfg, l, sc, found, at)
      && c2 == if Allows(cfg, l, sc, found, at) then c.(granted := c.granted + [at]) else c1.(refused := true)
  {
    var sc := ScopeAt(c, |c.granted|);
    var b := Found(cfg, l, sc, found);
    FoundWhenPut(cfg, l, sc, b, Next(b, Asks(cfg, sc, at)), at);
  }

  lemma RunOneMore(cfg: Config, p: Progress, steps: seq<Step>, step: Step)
    ensures Run(cfg, p, steps + [step]) == Stepped(cfg, Run(cfg, p, steps), step)
  {
    assert (steps + [step])[..|steps|] == steps;
  }

  /** Two steps of a call that looks up a bucket and asks it. */
  lemma OneLevel(cfg: Config, p: Progress, steps: seq<Step>, i: nat, found: real, at: real)
    requires i < |Run(cfg, p, steps).calls|
    requires
      var q := Run(cfg, p, steps);
      !Done(q.calls[i]) ==> !q.calls[i].found && q.now <= found <= at
    ensures
      var q, r := Run(cfg, p, steps), Run(cfg, p, steps + [Move(i, found), Move(i, at)]);
      var c := q.calls[i];
      var sc := ScopeAt(c, |c.granted|);
      if Done(c) then r == q
      else
        && r.limits == Ask(cfg, q.limits, sc, found, at) && r.now == at
        && if Allows(cfg, q.limits, sc, found, at) then r.calls == q.calls[i := c.(granted := c.granted + [at])]
           else r.calls == q.calls[i := c.(found := true, refused := true)]
  {
    RunTwoMore(cfg, p, steps, Move(i, found), Move(i, at));
    TwoMoves(cfg, Run(cfg, p, steps), i, found, at);
  }

  lemma RunTwoMore(cfg: Config, p: Progress, steps: seq<Step>, first: Step, second: Step)
    ensures Run(cfg, p, steps + [first, second]) == Stepped(cfg, Stepped(cfg, Run(cfg, p, steps), first), second)
  {
    assert steps + [first, second] == steps + [first] + [second];
    RunOneMore(cfg, p, steps, first);
    RunOneMore(cfg, p, steps + [first], second);
  }

  lemma TwoMoves(cfg: Config, q: Progress, i: nat, found: real, at: real)
    requires i < |q.calls|
    requires !Done(q.calls[i]) ==> !q.calls[i].found && q.now <= found <= at
    ensures
      var r := Stepped(cfg, Stepped(cfg, q, Move(i, found)), Move(i, at));
      var c := q.calls[i];
      var sc := ScopeAt(c, |c.granted|);
      if Done(c) then r == q
      else
        && r.limits == Ask(cfg, q.limits, sc, found, at) && r.now == at
        && if Allows(cfg, q.limits, sc, found, at) then r.calls == q.calls[i := c.(granted := c.granted + [at])]
           else r.calls == q.calls[i := c.(found := true, refused := true)]
  {
    if !Done(q.calls[i]) {
      LookedUpAndAsked(cfg, q.limits, q.calls[i], found, at);
      var c' := Moved(cfg, q.limits, q.calls[i], found).1;
      assert Stepped(cfg, q, Move(i, found)).calls == q.calls[i := c'];
      assert !Done(c') && q.calls[i := c'][i] == c';
    }
  }

  /** The steps of a call with no step of others between them do what the object's `Allow` does. */
  lemma UndisturbedCall(cfg: Config, p: Progress, user: string, skill: string, at: Clock)
    requires InTime(p.now, at)
    ensures
      var q := Run(cfg, p, StepsOf(user, skill, at, |p.calls|));
      && q.limits == AfterCall(cfg, p.limits, user, skill, at)
      && |q.calls| == |p.calls| + 1 && q.calls[..|p.calls|] == p.calls && Done(q.calls[|p.calls|])
      && (Passed(q.calls[|p.calls|]) <==> Decide(cfg, p.limits, user, skill, at).Passes?)
  {
    var i := |p.calls|;
    var first := [Begin(user, skill, at.global), Move(i, at.global)];
    var second := first + [Move(i, at.userFound), Move(i, at.user)];
    assert StepsOf(user, skill, at, i) == second + [Move(i, at.skillFound), Move(i, at.skill)];
    FirstLevel(cfg, p, user, skill, at.global);
    OneLevel(cfg, p, first, i, at.userFound, at.user);
    OneLevel(cfg, p, second, i, at.skillFound, at.skill);
  }

  lemma FirstLevel(cfg: Config, p: Progress, user: string, skill: string, at: real)
    requires p.now <= at
    ensures
      var q := Run(cfg, p, [Begin(user, skill, at), Move(|p.calls|, at)]);
      var c := Call(user, skill, at, true, [], false);
      && q.limits == Ask(cfg, p.limits, Global, at, at) && q.now == at
      && q.calls == p.calls + [if Allows(cfg, p.limits, Global, at, at) then c.(found := false, granted := [at])
                               else c.(refused := true)]
  {
    var begin := Call(user, skill, at, true, [], false);
    var q := Run(cfg, p, [Begin(user, skill, at)]);
    RunOneMore(cfg, p, [], Begin(user, skill, at));
    assert q.calls == p.calls + [begin] && q.now == at && q.limits == p.limits by {
      assert Run(cfg, p, []) == p;
      assert [] + [Begin(user, skill, at)] == [Begin(user, skill, at)];
    }
    RunOneMore(cfg, p, [Begin(user, skill, at)], Move(|p.calls|, at));
    var move := Move(|p.calls|, at);
    var r := Stepped(cfg, q, move);
    assert q.calls[|p.calls|] == begin && CanStep(q, move);
    assert r.limits == Ask(cfg, p.limits, Global, at, at);
    assert r.calls == p.calls + [Moved(cfg, p.limits, begin, at).1];
    assert [] + [at] == [at];
    assert [Begin(user, skill, at)] + [Move(|p.calls|, at)] == [Begin(user, skill, at), Move(|p.calls|, at)];
  }

  // ----- the three bounds -----------------------------------------------------------------

  /** The call got the scope's grant between `s` and `t`. */
  predicate GrantedIn(c: Call, sc: Scope, s: real, t: real) {
    Concerns(sc, c) && LevelOf(sc) < |c.granted| && s <= c.granted[LevelOf(sc)] <= t
  }

  ghost function Admitted(calls: seq<Call>, sc: Scope, s: real, t: real): set<nat> {
    set i: nat | i < |calls| && GrantedIn(calls[i], sc, s, t)
  }

  lemma AdmittedAfter(calls: seq<Call>, i: nat, c: Call, sc: Scope, s: real, t: real, was: bool, isNow: bool)
    requires i < |calls| && was == GrantedIn(calls[i], sc, s, t) && isNow == GrantedIn(c, sc, s, t)
    requires was ==> isNow
    ensures |Admitted(calls[i := c], sc, s, t)| == |Admitted(calls, sc, s, t)| + OneIf(isNow && !was)
  {
    var before, after := Admitted(calls, sc, s, t), Admitted(calls[i := c], sc, s, t);
    forall j: nat
      ensures j in after <==> j in before || (j == i && isNow)
    {
      if j < |calls| && j != i {
        assert calls[i := c][j] == calls[j];
      }
    }
    if isNow && !was {
      assert after == before + {i};
    } else {
      assert after == before;
    }
  }

  lemma AdmittedBegun(calls: seq<Call>, c: Call, sc: Scope, s: real, t: real)
    requires c.granted == []
    ensures Admitted(calls + [c], sc, s, t) == Admitted(calls, sc, s, t)
  {
  }

  /** With `n` grants between `s` and `t`, all by `now`: what the bucket holds and what it gave together stay
      within its capacity and what it has earned since `s`. */
  ghost predicate Bounded(e: real -> real, b: Bucket, capacity: real, now: real, s: real, t: real, n: nat) {
    && Sound(b) && b.last <= e(now) && b.capacity == capacity
    && (now < s ==> n == 0)
    && (s <= now <= t ==> n as real + Refilled(b, e(now)) <= capacity + e(now) - e(s))
    && (t < now ==> n as real <= capacity + e(t) - e(s))
  }

  lemma TimePasses(e: real -> real, b: Bucket, capacity: real, now: real, at: real, s: real, t: real, n: nat)
    requires InOrder(e) && s <= t && now <= at && Bounded(e, b, capacity, now, s, t, n)
    ensures Bounded(e, b, capacity, at, s, t, n)
  {
    assert e(now) <= e(at) && e(s) <= e(t);
    if s <= now {
      assert e(s) <= e(now);
      assert now <= t ==> e(now) <= e(t);
    } else if s <= at {
      assert e(s) <= e(at);
    }
  }

  lemma OneAsk(e: real -> real, b: Bucket, capacity: real, at: real, s: real, t: real, n: nat)
    requires InOrder(e) && Bounded(e, b, capacity, at, s, t, n)
    ensures
      var r := Request(e(at), 1);
      Bounded(e, Next(b, r), capacity, at, s, t, n + OneIf(Grants(b, r) && s <= at <= t))
  {
  }

  /** What a run keeps for a scope: its bucket, as a lookup now would find it, is bounded by its grants. */
  ghost predicate ScopeBounded(cfg: Config, p: Progress, sc: Scope, e: real -> real, s: real, t: real) {
    Bounded(e, Found(cfg, p.limits, sc, p.now), Capacity(LimitOf(cfg, sc).burst), p.now, s, t,
            |Admitted(p.calls, sc, s, t)|)
  }

  /** A lookup later finds the same bucket, or a full one again. */
  lemma LaterLookup(cfg: Config, l: Limits, sc: Scope, e: real -> real, now: real, at: real, s: real, t: real, n: nat)
    requires Reading(RateOf(cfg, sc), e) && InOrder(e) && s <= t && now <= at
    requires Bounded(e, Found(cfg, l, sc, now), Capacity(LimitOf(cfg, sc).burst), now, s, t, n)
    ensures Bounded(e, Found(cfg, l, sc, at), Capacity(LimitOf(cfg, sc).burst), at, s, t, n)
  {
    var b, b', capacity := Found(cfg, l, sc, now), Found(cfg, l, sc, at), Capacity(LimitOf(cfg, sc).burst);
    TimePasses(e, b, capacity, now, at, s, t, n);
    assert e(now) == Reads(cfg, sc, now) && e(at) == Reads(cfg, sc, at);
    if b' != b {
      assert b == Full(LimitOf(cfg, sc).burst, e(now)) && b' == Full(LimitOf(cfg, sc).burst, e(at));
      assert e(now) <= e(at);
    }
  }

  /** A move of a call leaves another scope's bucket alone, and looks up or asks the bucket of its level. */
  lemma MoveOnScope(cfg: Config, l: Limits, c: Call, at: real, sc: Scope)
    requires !Done(c)
    ensures
      var (l', c') := Moved(cfg, l, c, at);
      var b := Found(cfg, l, sc, at);
      var asks := c.found && ScopeAt(c, |c.granted|) == sc;
      && Found(cfg, l', sc, at) == (if asks then Next(b, Asks(cfg, sc, at)) else b)
      && c'.granted == (if c.found && Allows(cfg, l, ScopeAt(c, |c.granted|), at, at) then c.granted + [at]
                        else c.granted)
  {
    var asked := ScopeAt(c, |c.granted|);
    var b := Found(cfg, l, asked, at);
    if asked == sc {
      FoundWhenPut(cfg, l, sc, b, b, at);
      FoundWhenPut(cfg, l, sc, Next(b, Asks(cfg, sc, at)), b, at);
    }
  }

  /** A call is granted a scope exactly when it asks it and gets its token. */
  lemma GrantsOneMore(cfg: Config, l: Limits, c: Call, at: real, sc: Scope, s: real, t: real)
    requires !Done(c)
    ensures
      var (l', c') := Moved(cfg, l, c, at);
      var asks := c.found && ScopeAt(c, |c.granted|) == sc;
      && (GrantedIn(c, sc, s, t) ==> GrantedIn(c', sc, s, t))
      && (GrantedIn(c', sc, s, t) && !GrantedIn(c, sc, s, t)
          <==> asks && Allows(cfg, l, sc, at, at) && s <= at <= t)
  {
    var (l', c') := Moved(cfg, l, c, at);
    MoveOnScope(cfg, l, c, at, sc);
    assert ScopeAt(c, |c.granted|) == sc ==> |c.granted| == LevelOf(sc);
    if |c'.granted| > |c.granted| {
      assert forall k :: 0 <= k < |c.granted| ==> c'.granted[k] == c.granted[k];
    }
  }

  lemma MoveKeepsBounded(cfg: Config, p: Progress, i: nat, at: real, sc: Scope, e: real -> real, s: real, t: real)
    requires Reading(RateOf(cfg, sc), e) && InOrder(e) && s <= t && ScopeBounded(cfg, p, sc, e, s, t)
    requires CanStep(p, Move(i, at))
    ensures ScopeBounded(cfg, Stepped(cfg, p, Move(i, at)), sc, e, s, t)
  {
    var c, n, capacity := p.calls[i], |Admitted(p.calls, sc, s, t)|, Capacity(LimitOf(cfg, sc).burst);
    LaterLookup(cfg, p.limits, sc, e, p.now, at, s, t, n);
    var (l', c') := Moved(cfg, p.limits, c, at);
    var b := Found(cfg, p.limits, sc, at);
    MoveOnScope(cfg, p.limits, c, at, sc);
    GrantsOneMore(cfg, p.limits, c, at, sc, s, t);
    AdmittedAfter(p.calls, i, c', sc, s, t, GrantedIn(c, sc, s, t), GrantedIn(c', sc, s, t));
    assert e(at) == Reads(cfg, sc, at);
    if c.found && ScopeAt(c, |c.granted|) == sc {
      OneAsk(e, b, capacity, at, s, t, n);
    }
  }

  lemma StepKeepsBounded(cfg: Config, p: Progress, step: Step, sc: Scope, e: real -> real, s: real, t: real)
    requires Reading(RateOf(cfg, sc), e) && InOrder(e) && s <= t && ScopeBounded(cfg, p, sc, e, s, t)
    ensures ScopeBounded(cfg, Stepped(cfg, p, step), sc, e, s, t)
  {
    if CanStep(p, step) {
      match step
      case Begin(user, skill, at) =>
        LaterLookup(cfg, p.limits, sc, e, p.now, at, s, t, |Admitted(p.calls, sc, s, t)|);
        AdmittedBegun(p.calls, Call(user, skill, at, true, [], false), sc, s, t);
      case Move(i, at) => MoveKeepsBounded(cfg, p, i, at, sc, e, s, t);
    }
  }

  lemma {:induction false} RunKeepsBounded(cfg: Config, created: real, steps: seq<Step>, sc: Scope, e: real -> real,
                                           s: real, t: real)
    requires Reading(RateOf(cfg, sc), e) && InOrder(e) && s <= t
    ensures ScopeBounded(cfg, Run(cfg, Start(cfg, created), steps), sc, e, s, t)
  {
    if steps == [] {
      assert Admitted([], sc, s, t) == {};
      assert e(created) == Reads(cfg, sc, created);
      assert s <= created ==> e(s) <= e(created);
      assert e(s) <= e(t);
    } else {
      RunKeepsBounded(cfg, created, steps[..|steps| - 1], sc, e, s, t);
      StepKeepsBounded(cfg, Run(cfg, Start(cfg, created), steps[..|steps| - 1]), steps[|steps| - 1], sc, e, s, t);
    }
  }

  /** What a configured rate and burst allow in an interval of some length: the larger of 1 and the burst, and the
      rate times the length, where a rate that is not positive counts as 1. */
  function AtMost(rate: real, burst: int, length: real): real {
    (if burst > 1 then burst as real else 1.0) + (if rate > 0.0 then rate else 1.0) * length
  }

  lemma AtMostIs(rate: real, burst: int, length: real)
    ensures AtMost(rate, burst, length) == Capacity(burst) + Rate(rate) * length
  {
  }

  /** All three bounds at once, however calls are interleaved: in any interval at most capacity plus rate times
      length calls get past a level, for every scope of that level. */
  lemma TripleBound(cfg: Config, created: real, steps: seq<Step>, sc: Scope, s: real, t: real)
    requires s <= t
    ensures |Admitted(Run(cfg, Start(cfg, created), steps).calls, sc, s, t)| as real
            <= AtMost(LimitOf(cfg, sc).rate, LimitOf(cfg, sc).burst, t - s)
  {
    BoundByLimit(cfg, created, steps, sc, s, t);
    AtMostIs(LimitOf(cfg, sc).rate, LimitOf(cfg, sc).burst, t - s);
  }

  lemma BoundByLimit(cfg: Config, created: real, steps: seq<Step>, sc: Scope, s: real, t: real)
    requires s <= t
    ensures |Admitted(Run(cfg, Start(cfg, created), steps).calls, sc, s, t)| as real
            <= Capacity(LimitOf(cfg, sc).burst) + RateOf(cfg, sc) * (t - s)
  {
    var k := RateOf(cfg, sc);
    var e := at => Earned(k, at);
    var p := Run(cfg, Start(cfg, created), steps);
    ReadingInOrder(k, e);
    RunKeepsBounded(cfg, created, steps, sc, e, s, t);
    EarnedSince(e, Found(cfg, p.limits, sc, p.now), Capacity(LimitOf(cfg, sc).burst), p.now, s, t,
                |Admitted(p.calls, sc, s, t)|);
    Length(k, e, s, t);
  }

  lemma EarnedSince(e: real -> real, b: Bucket, capacity: real, now: real, s: real, t: real, n: nat)
    requires InOrder(e) && s <= t && Bounded(e, b, capacity, now, s, t, n)
    ensures n as real <= capacity + (e(t) - e(s))
  {
    assert e(s) <= e(t);
    assert now <= t ==> e(now) <= e(t);
    assert s <= now ==> e(s) <= e(now);
  }

  // ----- calls that pass ------------------------------------------------------------------

  /** A call's grants come in order, after its beginning, and none after `now`. */
  ghost predicate Timely(c: Call, now: real) {
    && c.begun <= now && |c.granted| <= 3
    && (forall k :: 0 <= k < |c.granted| ==> c.begun <= c.granted[k] <= now)
    && (forall j, k :: 0 <= j < k < |c.granted| ==> c.granted[j] <= c.granted[k])
  }

  ghost predicate AllTimely(p: Progress) {
    forall i :: 0 <= i < |p.calls| ==> Timely(p.calls[i], p.now)
  }

  lemma {:induction false} RunIsTimely(cfg: Config, created: real, steps: seq<Step>)
    ensures AllTimely(Run(cfg, Start(cfg, created), steps))
  {
    if steps != [] {
      RunIsTimely(cfg, created, steps[..|steps| - 1]);
      StepIsTimely(cfg, Run(cfg, Start(cfg, created), steps[..|steps| - 1]), steps[|steps| - 1]);
    }
  }

  lemma StepIsTimely(cfg: Config, p: Progress, step: Step)
    requires AllTimely(p)
    ensures AllTimely(Stepped(cfg, p, step))
  {
    if CanStep(p, step) && step.Move? {
      MoveIsTimely(cfg, p.limits, p.calls[step.i], p.now, step.at);
    }
  }

  lemma MoveIsTimely(cfg: Config, l: Limits, c: Call, now: real, at: real)
    requires Timely(c, now) && now <= at && !Done(c)
    ensures Timely(Moved(cfg, l, c, at).1, at)
  {
    MoveOnScope(cfg, l, c, at, Global);
  }

  /** The calls that concern the scope, begin at `s` or later, and have passed by `t`. */
  ghost function PassedIn(calls: seq<Call>, sc: Scope, s: real, t: real): set<nat> {
    set i: nat | i < |calls| && Concerns(sc, calls[i]) && Passed(calls[i]) && s <= calls[i].begun
                 && calls[i].granted[2] <= t
  }

  /** So for the calls that begin and pass within an interval, interleaved in any way with each other and with
      any other calls. */
  lemma PassedBound(cfg: Config, created: real, steps: seq<Step>, sc: Scope, s: real, t: real)
    requires s <= t
    ensures |PassedIn(Run(cfg, Start(cfg, created), steps).calls, sc, s, t)| as real
            <= AtMost(LimitOf(cfg, sc).rate, LimitOf(cfg, sc).burst, t - s)
  {
    var p := Run(cfg, Start(cfg, created), steps);
    RunIsTimely(cfg, created, steps);
    TripleBound(cfg, created, steps, sc, s, t);
    assert PassedIn(p.calls, sc, s, t) <= Admitted(p.calls, sc, s, t);
    SubsetSize(PassedIn(p.calls, sc, s, t), Admitted(p.calls, sc, s, t));
  }
}
