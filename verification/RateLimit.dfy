/** The per-user sliding window of shared/notifications.py: the list of recorded
    messages is pruned at every check and appended to at every delivery.

    Times are whole numbers of microseconds. A send checks, waits for Telegram,
    and then records, so the sends of different users interleave freely.
  */
module RateLimit {

  const HOUR: nat := 3_600_000_000

  type User = int

  /** The state of a run: the clock, the stored lists, the sends under way (those
      whose check let them through, each under its user), and (never pruned)
      every message recorded for each user.
    */
  datatype State = State(
    now: int,
    storage: map<User, seq<int>>,
    inFlight: multiset<User>,
    sent: map<User, seq<int>>
  )

  datatype Step =
    | Tick(elapsed: nat)
    | Check(user: User)
    | Delivered(user: User)
    | Failed(user: User)

  /** A missing list is empty. */
  function Of(lists: map<User, seq<int>>, user: User): seq<int> {
    if user in lists then lists[user] else []
  }

  /** The times after the cutoff, in their order. */
  function Recent(times: seq<int>, cutoff: int): (kept: seq<int>)
    ensures |kept| <= |times|
  {
    if times == [] then []
    else Recent(times[..|times| - 1], cutoff)
         + if times[|times| - 1] > cutoff then [times[|times| - 1]] else []
  }

  /** How many of the times lie in the hour that ends at `end`. */
  function InHour(times: seq<int>, end: int): (n: nat)
    ensures n <= |times|
  {
    if times == [] then 0
    else
      InHour(times[..|times| - 1], end)
      + if end - HOUR < times[|times| - 1] <= end then 1 else 0
  }

  /** Sends may overlap freely; only one that is under way can end. */
  predicate Enabled(s: State, step: Step) {
    match step
    case Tick(_) => true
    case Check(user) => true
    case Delivered(user) => user in s.inFlight
    case Failed(user) => user in s.inFlight
  }

  predicate Allowed(limit: int, s: State, user: User) {
    |Recent(Of(s.storage, user), s.now - HOUR)| < limit
  }

  function Apply(limit: int, s: State, step: Step): State {
    match step
    case Tick(elapsed) => s.(now := s.now + elapsed)
    case Check(user) =>
      s.(storage := s.storage[user := Recent(Of(s.storage, user), s.now - HOUR)],
         inFlight := if Allowed(limit, s, user) then s.inFlight + multiset{user} else s.inFlight)
    case Delivered(user) =>
      s.(storage := s.storage[user := Of(s.storage, user) + [s.now]],
         inFlight := s.inFlight - multiset{user},
         sent := s.sent[user := Of(s.sent, user) + [s.now]])
    case Failed(user) => s.(inFlight := s.inFlight - multiset{user})
  }

  predicate EnabledAll(limit: int, s: State, steps: seq<Step>)
    decreases |steps|
  {
    steps == [] || (Enabled(s, steps[0]) && EnabledAll(limit, Apply(limit, s, steps[0]), steps[1..]))
  }

  function ApplyAll(limit: int, s: State, steps: seq<Step>): State
    decreases |steps|
  {
    if steps == [] then s else ApplyAll(limit, Apply(limit, s, steps[0]), steps[1..])
  }

  function Start(now: int): State {
    State(now, map[], multiset{}, map[])
  }

  // ------------------------------------------------------------------- the window

  lemma {:induction false} RecentOfRecent(times: seq<int>, cutoff: int, later: int)
    requires cutoff <= later
    ensures Recent(Recent(times, cutoff), later) == Recent(times, later)
  {
    if times != [] {
      var n := |times| - 1;
      RecentOfRecent(times[..n], cutoff, later);
      var kept := Recent(times[..n], cutoff);
      if times[n] > cutoff {
        assert (kept + [times[n]])[..|kept|] == kept;
      } else {
        assert kept + [] == kept;
      }
    }
  }

  lemma RecentOfMore(times: seq<int>, t: int, cutoff: int)
    ensures Recent(times + [t], cutoff) == Recent(times, cutoff) + if t > cutoff then [t] else []
    ensures forall end :: InHour(times + [t], end) == InHour(times, end) + if end - HOUR < t <= end then 1 else 0
  {
    assert (times + [t])[..|times|] == times;
  }

  /** What a list holds of an hour, a pruned list holds too, unless the cutoff
      lies inside that hour.
    */
  lemma {:induction false} HourIsKept(times: seq<int>, cutoff: int, end: int)
    ensures cutoff <= end - HOUR ==> InHour(times, end) <= |Recent(times, cutoff)|
    ensures cutoff == end - HOUR && (forall k :: 0 <= k < |times| ==> times[k] <= end) ==>
              InHour(times, end) == |Recent(times, cutoff)|
  {
    if times != [] {
      HourIsKept(times[..|times| - 1], cutoff, end);
    }
  }

  /** The hour of the limit is one of 3600 seconds, up to and with its end. */
  lemma HourMeans(t: int, end: int)
    ensures InHour([t], end) == if end - 3600 * 1_000_000 < t <= end then 1 else 0
    ensures Recent([t], end - HOUR) == if end - 3600 * 1_000_000 < t then [t] else []
  {
    RecentOfMore([], t, end - HOUR);
    assert [] + [t] == [t];
  }

  /** What each step does: time passes, a check takes the user's outdated times
      off and lets a send start below the limit, a delivery is recorded and
      ends a send, and a failure ends one without a record. */
  lemma StepsExactly(limit: int, s: State, user: User, elapsed: nat)
    ensures Apply(limit, s, Tick(elapsed)) == s.(now := s.now + elapsed)
    ensures
      var after := Apply(limit, s, Check(user));
      && after.now == s.now && after.sent == s.sent
      && after.storage == s.storage[user := Recent(Of(s.storage, user), s.now - 3600 * 1_000_000)]
      && after.inFlight[user] == s.inFlight[user] + (if |Of(after.storage, user)| < limit then 1 else 0)
    ensures
      s.inFlight[user] > 0 ==>
        var after := Apply(limit, s, Delivered(user));
        && after.now == s.now && after.inFlight[user] == s.inFlight[user] - 1
        && after.storage == s.storage[user := Of(s.storage, user) + [s.now]]
        && after.sent == s.sent[user := Of(s.sent, user) + [s.now]]
    ensures
      s.inFlight[user] > 0 ==>
        Apply(limit, s, Failed(user)) == s.(inFlight := s.inFlight[user := s.inFlight[user] - 1])
    ensures Enabled(s, Tick(elapsed)) && Enabled(s, Check(user))
    ensures s.inFlight[user] > 0 ==> Enabled(s, Delivered(user)) && Enabled(s, Failed(user))
  {
  }

  /** At no time are more than k sends of the user under way. */
  predicate Overlaps(limit: int, s: State, steps: seq<Step>, user: User, k: nat)
    decreases |steps|
  {
    s.inFlight[user] <= k && (steps == [] || Overlaps(limit, Apply(limit, s, steps[0]), steps[1..], user, k))
  }

  /** What an hour can hold when at most k sends overlap. */
  function Bound(limit: int, k: nat): nat {
    if limit <= 0 || k == 0 then 0 else limit + k - 1
  }

  /** What a run keeps of one user: the stored list is the whole history after
      some cutoff at least an hour old.
    */
  ghost predicate Kept(s: State, user: User) {
    && (exists cutoff :: cutoff <= s.now - HOUR && Of(s.storage, user) == Recent(Of(s.sent, user), cutoff))
    && (forall i :: 0 <= i < |Of(s.sent, user)| ==> Of(s.sent, user)[i] <= s.now)
  }

  /** No hour holds more than the bound, and one that is not over has room for
      all that is under way. */
  ghost predicate Roomy(limit: int, k: nat, s: State, user: User) {
    && (forall end :: InHour(Of(s.sent, user), end) <= Bound(limit, k))
    && (s.inFlight[user] > 0 ==>
          forall end :: s.now <= end ==> InHour(Of(s.sent, user), end) + s.inFlight[user] <= Bound(limit, k))
  }

  lemma CheckKeeps(limit: int, s: State, user: User)
    requires Kept(s, user)
    ensures Kept(Apply(limit, s, Check(user)), user)
  {
    var s' := Apply(limit, s, Check(user));
    var cutoff :| cutoff <= s.now - HOUR && Of(s.storage, user) == Recent(Of(s.sent, user), cutoff);
    RecentOfRecent(Of(s.sent, user), cutoff, s.now - HOUR);
    assert Of(s'.storage, user) == Recent(Of(s'.sent, user), s.now - HOUR);
  }

  /** A check that lets a send through saw at most limit - 1 messages of any
      hour that is not over. */
  lemma CheckSees(limit: int, s: State, user: User, end: int)
    requires Kept(s, user) && Allowed(limit, s, user) && s.now <= end
    ensures InHour(Of(s.sent, user), end) < limit
  {
    var times := Of(s.sent, user);
    var cutoff :| cutoff <= s.now - HOUR && Of(s.storage, user) == Recent(times, cutoff);
    RecentOfRecent(times, cutoff, s.now - HOUR);
    HourIsKept(times, s.now - HOUR, end);
  }

  lemma CheckKeepsRoom(limit: int, k: nat, s: State, user: User)
    requires Kept(s, user) && Roomy(limit, k, s, user) && Apply(limit, s, Check(user)).inFlight[user] <= k
    ensures Roomy(limit, k, Apply(limit, s, Check(user)), user)
  {
    var s' := Apply(limit, s, Check(user));
    if Allowed(limit, s, user) {
      assert s'.inFlight[user] == s.inFlight[user] + 1;
      forall end | s.now <= end ensures InHour(Of(s.sent, user), end) + s'.inFlight[user] <= Bound(limit, k) {
        CheckSees(limit, s, user, end);
      }
    }
  }

  lemma DeliveryKeeps(limit: int, s: State, user: User)
    requires Kept(s, user)
    ensures Kept(Apply(limit, s, Delivered(user)), user)
  {
    var s' := Apply(limit, s, Delivered(user));
    var times, times' := Of(s.sent, user), Of(s'.sent, user);
    var cutoff :| cutoff <= s.now - HOUR && Of(s.storage, user) == Recent(times, cutoff);
    RecentOfMore(times, s.now, cutoff);
    assert Of(s'.storage, user) == Recent(times', cutoff);
  }

  lemma DeliveryKeepsRoom(limit: int, k: nat, s: State, user: User)
    requires Roomy(limit, k, s, user) && s.inFlight[user] > 0
    ensures Roomy(limit, k, Apply(limit, s, Delivered(user)), user)
  {
    RecentOfMore(Of(s.sent, user), s.now, 0);
  }

  lemma StepKeeps(limit: int, s: State, step: Step, user: User)
    requires Kept(s, user)
    ensures Kept(Apply(limit, s, step), user)
  {
    var s' := Apply(limit, s, step);
    match step
    case Check(u) =>
      if u == user { CheckKeeps(limit, s, user); } else { Frame(s, s', user); }
    case Delivered(u) =>
      if u == user { DeliveryKeeps(limit, s, user); } else { Frame(s, s', user); }
    case Tick(_) => Frame(s, s', user);
    case Failed(_) => Frame(s, s', user);
  }

  lemma StepKeepsRoom(limit: int, k: nat, s: State, step: Step, user: User)
    requires Enabled(s, step) && Kept(s, user) && Roomy(limit, k, s, user)
    requires Apply(limit, s, step).inFlight[user] <= k
    ensures Roomy(limit, k, Apply(limit, s, step), user)
  {
    var s' := Apply(limit, s, step);
    match step
    case Check(u) =>
      if u == user { CheckKeepsRoom(limit, k, s, user); } else { assert s'.inFlight[user] == s.inFlight[user]; }
    case Delivered(u) =>
      if u == user { DeliveryKeepsRoom(limit, k, s, user); } else { assert s'.inFlight[user] == s.inFlight[user]; }
    case Tick(_) =>
    case Failed(u) => assert s'.inFlight[user] <= s.inFlight[user];
  }

  lemma Frame(s: State, s': State, user: User)
    requires Kept(s, user)
    requires Of(s'.storage, user) == Of(s.storage, user) && Of(s'.sent, user) == Of(s.sent, user)
    requires s.now <= s'.now
    ensures Kept(s', user)
  {
    var cutoff :| cutoff <= s.now - HOUR && Of(s.storage, user) == Recent(Of(s.sent, user), cutoff);
    assert cutoff <= s'.now - HOUR && Of(s'.storage, user) == Recent(Of(s'.sent, user), cutoff);
  }

  lemma {:induction false} RunKeeps(limit: int, s: State, steps: seq<Step>, user: User)
    requires Kept(s, user)
    ensures Kept(ApplyAll(limit, s, steps), user)
    decreases |steps|
  {
    if steps != [] {
      StepKeeps(limit, s, steps[0], user);
      RunKeeps(limit, Apply(limit, s, steps[0]), steps[1..], user);
    }
  }

  lemma {:induction false} RunKeepsRoom(limit: int, k: nat, s: State, steps: seq<Step>, user: User)
    requires EnabledAll(limit, s, steps) && Overlaps(limit, s, steps, user, k)
    requires Kept(s, user) && Roomy(limit, k, s, user)
    ensures Roomy(limit, k, ApplyAll(limit, s, steps), user)
    decreases |steps|
  {
    if steps != [] {
      StepKeeps(limit, s, steps[0], user);
      StepKeepsRoom(limit, k, s, steps[0], user);
      RunKeepsRoom(limit, k, Apply(limit, s, steps[0]), steps[1..], user);
    }
  }

  lemma StartKeeps(start: int, user: User)
    ensures Kept(Start(start), user)
  {
    assert Of(Start(start).storage, user) == Recent(Of(Start(start).sent, user), start - HOUR);
  }

  /** The law of the limit: in every run in which at most k sends of a user are
      under way at a time, no hour holds more than k - 1 messages above the
      limit, although the lists the checks look at are pruned all the time.
    */
  lemma HourIsBounded(limit: int, k: nat, start: int, steps: seq<Step>, user: User, end: int)
    requires EnabledAll(limit, Start(start), steps) && Overlaps(limit, Start(start), steps, user, k)
    ensures
      InHour(Of(ApplyAll(limit, Start(start), steps).sent, user), end) <=
        if limit <= 0 || k == 0 then 0 else limit + k - 1
  {
    StartKeeps(start, user);
    RunKeepsRoom(limit, k, Start(start), steps, user);
  }

  /** One send at a time: no hour holds more messages than the limit. */
  lemma NoHourExceedsTheLimit(limit: int, start: int, steps: seq<Step>, user: User, end: int)
    requires EnabledAll(limit, Start(start), steps) && Overlaps(limit, Start(start), steps, user, 1)
    ensures InHour(Of(ApplyAll(limit, Start(start), steps).sent, user), end) <= if limit > 0 then limit else 0
  {
    HourIsBounded(limit, 1, start, steps, user, end);
  }

  /** A check looks at the pruned list but answers for the whole history: it
      refuses exactly when the last hour already holds as many messages as the
      limit.
    */
  lemma RefusedExactlyWhenFull(limit: int, start: int, steps: seq<Step>, user: User)
    ensures var s := ApplyAll(limit, Start(start), steps);
      Allowed(limit, s, user) <==> InHour(Of(s.sent, user), s.now) < limit
  {
    StartKeeps(start, user);
    RunKeeps(limit, Start(start), steps, user);
    AnswersForTheHistory(limit, ApplyAll(limit, Start(start), steps), user);
  }

  lemma AnswersForTheHistory(limit: int, s: State, user: User)
    requires Kept(s, user)
    ensures Allowed(limit, s, user) <==> InHour(Of(s.sent, user), s.now) < limit
  {
    var times := Of(s.sent, user);
    var cutoff :| cutoff <= s.now - HOUR && Of(s.storage, user) == Recent(times, cutoff);
    RecentOfRecent(times, cutoff, s.now - HOUR);
    HourIsKept(times, s.now - HOUR, s.now);
  }

  // -------------------------------------------------------- the bound is reached

  function Repeat(step: Step, n: nat): seq<Step> {
    seq(n, _ => step)
  }

  /** Fill the hour but for one place, send by send; then let k sends check
      before the first of them is recorded. */
  function OneByOne(user: User, n: nat): seq<Step> {
    if n == 0 then [] else [Check(user), Delivered(user)] + OneByOne(user, n - 1)
  }

  function Crowd(limit: int, k: nat, user: User): seq<Step>
    requires limit > 0
  {
    OneByOne(user, limit - 1) + (Repeat(Check(user), k) + Repeat(Delivered(user), k))
  }

  /** All the user's messages, stored and sent, were recorded just now. */
  ghost predicate JustNow(s: State, user: User, n: nat) {
    && Of(s.storage, user) == Of(s.sent, user) && |Of(s.sent, user)| == n
    && forall i :: 0 <= i < n ==> Of(s.sent, user)[i] == s.now
  }

  lemma {:induction false} AllInHour(times: seq<int>, now: int)
    requires forall i :: 0 <= i < |times| ==> times[i] == now
    ensures InHour(times, now) == |times| && Recent(times, now - HOUR) == times
  {
    if times != [] {
      AllInHour(times[..|times| - 1], now);
    }
  }

  lemma {:induction false} RunConcat(limit: int, s: State, a: seq<Step>, b: seq<Step>, user: User, k: nat)
    ensures ApplyAll(limit, s, a + b) == ApplyAll(limit, ApplyAll(limit, s, a), b)
    ensures EnabledAll(limit, s, a) && EnabledAll(limit, ApplyAll(limit, s, a), b) ==> EnabledAll(limit, s, a + b)
    ensures Overlaps(limit, s, a, user, k) && Overlaps(limit, ApplyAll(limit, s, a), b, user, k) ==>
              Overlaps(limit, s, a + b, user, k)
    decreases |a|
  {
    if a == [] {
      assert a + b == b;
    } else {
      assert (a + b)[1..] == a[1..] + b;
      RunConcat(limit, Apply(limit, s, a[0]), a[1..], b, user, k);
    }
  }

  lemma {:induction false} ManyChecks(limit: int, s: State, user: User, n: nat, j: nat, k: nat)
    requires JustNow(s, user, n) && n < limit && s.inFlight[user] + j <= k
    ensures
      var steps := Repeat(Check(user), j);
      var s' := ApplyAll(limit, s, steps);
      && EnabledAll(limit, s, steps) && Overlaps(limit, s, steps, user, k)
      && JustNow(s', user, n) && s'.inFlight[user] == s.inFlight[user] + j
    decreases j
  {
    if j > 0 {
      assert Repeat(Check(user), j)[1..] == Repeat(Check(user), j - 1);
      AllInHour(Of(s.sent, user), s.now);
      ManyChecks(limit, Apply(limit, s, Check(user)), user, n, j - 1, k);
    }
  }

  lemma {:induction false} ManyDeliveries(limit: int, s: State, user: User, n: nat, j: nat, k: nat)
    requires JustNow(s, user, n) && j <= s.inFlight[user] <= k
    ensures
      var steps := Repeat(Delivered(user), j);
      var s' := ApplyAll(limit, s, steps);
      && EnabledAll(limit, s, steps) && Overlaps(limit, s, steps, user, k)
      && JustNow(s', user, n + j) && s'.inFlight[user] == s.inFlight[user] - j
    decreases j
  {
    if j > 0 {
      assert Repeat(Delivered(user), j)[1..] == Repeat(Delivered(user), j - 1);
      ManyDeliveries(limit, Apply(limit, s, Delivered(user)), user, n + 1, j - 1, k);
    }
  }

  lemma {:induction false} Filling(limit: int, s: State, user: User, n: nat, j: nat, k: nat)
    requires JustNow(s, user, n) && n + j <= limit && s.inFlight[user] == 0 && k > 0
    ensures
      var steps := OneByOne(user, j);
      var s' := ApplyAll(limit, s, steps);
      && EnabledAll(limit, s, steps) && Overlaps(limit, s, steps, user, k)
      && JustNow(s', user, n + j) && s'.inFlight[user] == 0
    decreases j
  {
    if j > 0 {
      ManyChecks(limit, s, user, n, 1, k);
      var s1 := ApplyAll(limit, s, Repeat(Check(user), 1));
      ManyDeliveries(limit, s1, user, n, 1, k);
      var s2 := ApplyAll(limit, s1, Repeat(Delivered(user), 1));
      RunConcat(limit, s, Repeat(Check(user), 1), Repeat(Delivered(user), 1), user, k);
      assert Repeat(Check(user), 1) + Repeat(Delivered(user), 1) == [Check(user), Delivered(user)];
      Filling(limit, s2, user, n + 1, j - 1, k);
      RunConcat(limit, s, [Check(user), Delivered(user)], OneByOne(user, j - 1), user, k);
    }
  }

  lemma {:induction false} ClockStands(limit: int, s: State, steps: seq<Step>)
    requires forall step :: step in steps ==> !step.Tick?
    ensures ApplyAll(limit, s, steps).now == s.now
    decreases |steps|
  {
    if steps != [] {
      ClockStands(limit, Apply(limit, s, steps[0]), steps[1..]);
    }
  }

  /** Everybody checks before the first message is recorded. */
  lemma TogetherFrom(limit: int, s: State, user: User, k: nat)
    requires limit > 0 && JustNow(s, user, limit - 1) && s.inFlight[user] == 0
    ensures
      var steps := Repeat(Check(user), k) + Repeat(Delivered(user), k);
      && EnabledAll(limit, s, steps) && Overlaps(limit, s, steps, user, k)
      && JustNow(ApplyAll(limit, s, steps), user, limit - 1 + k)
  {
    var checks, deliveries := Repeat(Check(user), k), Repeat(Delivered(user), k);
    ManyChecks(limit, s, user, limit - 1, k, k);
    ManyDeliveries(limit, ApplyAll(limit, s, checks), user, limit - 1, k, k);
    RunConcat(limit, s, checks, deliveries, user, k);
  }

  lemma CrowdRuns(limit: int, k: nat, s: State, user: User)
    requires limit > 0 && k > 0 && JustNow(s, user, 0) && s.inFlight[user] == 0
    ensures
      var steps := Crowd(limit, k, user);
      && EnabledAll(limit, s, steps) && Overlaps(limit, s, steps, user, k)
      && JustNow(ApplyAll(limit, s, steps), user, limit - 1 + k)
  {
    var first, rest := OneByOne(user, limit - 1), Repeat(Check(user), k) + Repeat(Delivered(user), k);
    Filling(limit, s, user, 0, limit - 1, k);
    TogetherFrom(limit, ApplyAll(limit, s, first), user, k);
    RunConcat(limit, s, first, rest, user, k);
  }

  lemma {:induction false} NoTicksOneByOne(user: User, n: nat)
    ensures forall step :: step in OneByOne(user, n) ==> !step.Tick?
  {
    if n > 0 {
      NoTicksOneByOne(user, n - 1);
    }
  }

  /** The bound is exact: for every limit and every number of overlapping sends
      some run reaches it. */
  lemma BoundIsReached(limit: int, k: nat, start: int, user: User)
    requires limit > 0 && k > 0
    ensures
      var s, steps := Start(start), Crowd(limit, k, user);
      && EnabledAll(limit, s, steps) && Overlaps(limit, s, steps, user, k)
      && InHour(Of(ApplyAll(limit, s, steps).sent, user), start) == limit + k - 1 == Bound(limit, k)
  {
    var s, steps := Start(start), Crowd(limit, k, user);
    CrowdRuns(limit, k, s, user);
    NoTicksOneByOne(user, limit - 1);
    ClockStands(limit, s, steps);
    AllInHour(Of(ApplyAll(limit, s, steps).sent, user), start);
  }

  /** No run with at most k sends of a user under way puts more messages into
      an hour than the limit. */
  ghost predicate LimitHolds(limit: int, k: nat) {
    forall start, steps, user, end ::
      EnabledAll(limit, Start(start), steps) && Overlaps(limit, Start(start), steps, user, k) ==>
        InHour(Of(ApplyAll(limit, Start(start), steps).sent, user), end) <= limit
  }

  /** The limit can be relied on exactly if sends of one user do not overlap. */
  lemma LimitNeedsOneAtATime(limit: int, k: nat)
    requires limit > 0
    ensures LimitHolds(limit, k) <==> k <= 1
  {
    if k <= 1 {
      forall start, steps, user, end
        | EnabledAll(limit, Start(start), steps) && Overlaps(limit, Start(start), steps, user, k)
        ensures InHour(Of(ApplyAll(limit, Start(start), steps).sent, user), end) <= limit
      {
        HourIsBounded(limit, k, start, steps, user, end);
      }
    } else {
      BoundIsReached(limit, k, 0, 0);
      assert EnabledAll(limit, Start(0), Crowd(limit, k, 0)) && Overlaps(limit, Start(0), Crowd(limit, k, 0), 0, k);
    }
  }

  // --------------------------------------------------------------------- the code

  /** `at` lists all positions whose time is after the cutoff, in order. */
  ghost predicate AllRecent(times: seq<int>, cutoff: int, at: seq<nat>) {
    && (forall k, l :: 0 <= k < l < |at| ==> at[k] < at[l])
    && (forall i :: i in at <==> 0 <= i < |times| && times[i] > cutoff)
  }

  ghost predicate Picks(times: seq<int>, at: seq<nat>, kept: seq<int>) {
    |kept| == |at| && forall k :: 0 <= k < |at| ==> at[k] < |times| && kept[k] == times[at[k]]
  }

  lemma AllRecentOfMore(times: seq<int>, t: int, cutoff: int, at: seq<nat>)
    requires AllRecent(times, cutoff, at)
    ensures AllRecent(times + [t], cutoff, if t > cutoff then at + [|times|] else at)
  {
    forall k | 0 <= k < |at| ensures at[k] < |times| {
      assert at[k] in at;
    }
    var more := times + [t];
    forall i | 0 <= i < |times| ensures more[i] == times[i] {
    }
    if t > cutoff {
      assert forall i :: i in at + [|times|] <==> i in at || i == |times|;
    }
  }

  lemma PicksOfMore(times: seq<int>, t: int, cutoff: int, at: seq<nat>)
    requires Picks(times, at, Recent(times, cutoff))
    ensures
      Picks(times + [t], if t > cutoff then at + [|times|] else at,
            Recent(times, cutoff) + if t > cutoff then [t] else [])
  {
  }

  /** What a pruned list holds: every time after the cutoff at its own place in
      the order, and nothing else. */
  lemma {:induction false} RecentExact(times: seq<int>, cutoff: int)
    ensures exists at :: AllRecent(times, cutoff, at) && Picks(times, at, Recent(times, cutoff))
  {
    if times == [] {
      var none: seq<nat> := [];
      assert AllRecent(times, cutoff, none) && Picks(times, none, Recent(times, cutoff));
    } else {
      var n := |times| - 1;
      var before, t := times[..n], times[n];
      assert times == before + [t];
      RecentExact(before, cutoff);
      var at :| AllRecent(before, cutoff, at) && Picks(before, at, Recent(before, cutoff));
      AllRecentOfMore(before, t, cutoff, at);
      RecentOfMore(before, t, cutoff);
      PicksOfMore(before, t, cutoff, at);
    }
  }

  /** The list comprehension of the check. */
  method KeepRecent(times: seq<int>, cutoff: int) returns (kept: seq<int>)
    ensures kept == Recent(times, cutoff)
    ensures exists at :: AllRecent(times, cutoff, at) && Picks(times, at, kept)
  {
    kept := [];
    var i := 0;
    while i < |times|
      invariant i <= |times|
      invariant kept == Recent(times[..i], cutoff)
    {
      RecentOfMore(times[..i], times[i], cutoff);
      assert times[..i + 1] == times[..i] + [times[i]];
      if times[i] > cutoff {
        kept := kept + [times[i]];
      }
      i := i + 1;
    }
    assert times[..i] == times;
    RecentExact(times, cutoff);
  }

  class Notifications {
    /** `_rate_limit_storage`. */
    var storage: map<User, seq<int>>
    const rateLimit: int

    constructor (limit: int)
      ensures storage == map[] && rateLimit == limit
    {
      storage := map[];
      rateLimit := limit;
    }

    method CheckRateLimit(user: User, now: int) returns (within: bool)
      modifies this
      ensures storage == old(storage)[user := Recent(Of(old(storage), user), now - HOUR)]
      ensures within <==> |Recent(Of(old(storage), user), now - HOUR)| < rateLimit
    {
      var kept := KeepRecent(Of(storage, user), now - HOUR);
      storage := storage[user := kept];
      within := |kept| < rateLimit;
    }

    method RecordMessage(user: User, now: int)
      modifies this
      ensures storage == old(storage)[user := Of(old(storage), user) + [now]]
    {
      storage := storage[user := Of(storage, user) + [now]];
    }

    /** `send_telegram_message`: the first request, one plain-text retry when
        Telegram cannot parse the text, and a record of the one that succeeded.
        Whatever happens, the stored lists change as the steps of the model say.
      */
    method SendTelegramMessage(user: User, checkedAt: int, first: Reply, parseMode: bool, second: Reply, repliedAt: int)
      returns (sent: bool)
      requires checkedAt <= repliedAt
      modifies this
      ensures forall s: State :: s.storage == old(storage) && s.now == checkedAt ==>
        var checked := Apply(rateLimit, s, Check(user));
        var waited := Apply(rateLimit, checked, Tick(repliedAt - checkedAt));
        && (sent ==> Allowed(rateLimit, s, user) && storage == Apply(rateLimit, waited, Delivered(user)).storage)
        && (!sent ==> storage == checked.storage)
        && (sent <==> && Allowed(rateLimit, s, user)
                      && (first.Accepted? || (first.CannotParse? && parseMode && second.Accepted?)))
    {
      var within := CheckRateLimit(user, checkedAt);
      if !within {
        return false;
      }
      if first.Accepted? {
        RecordMessage(user, repliedAt);
        return true;
      }
      if first.CannotParse? && parseMode {
        if second.Accepted? {
          RecordMessage(user, repliedAt);
          return true;
        }
      }
      return false;
    }
  }

  /** What Telegram made of a request; `Refused` also stands for a failed call. */
  datatype Reply = Accepted | CannotParse | Refused
}
