/** The scaffold execution leases of services/scaffolder/src/consumer.py: atomic
    scripts over one sorted set and one cancel key, any number of concurrent
    jobs, and a teardown that wants to know when all of them are over. */
module ScaffoldLeases {

  type Token = nat

  /** Milliseconds. */
  const LEASE: nat := 900 * 1000
  const KEY_LIFE: nat := 2 * LEASE

  /** The lease set maps tokens to expiry times; the whole key has an expiry of
      its own, which counts only while the set is not empty. */
  datatype Store = Store(now: nat, cancelled: bool, leases: map<Token, nat>, keyExpires: nat)

  // ----------------------------------------------------------------- the scripts

  function Begun(s: Store, token: Token): Store {
    if s.cancelled then s
    else s.(leases := s.leases[token := s.now + LEASE], keyExpires := s.now + KEY_LIFE)
  }

  function Refreshed(s: Store, token: Token): Store {
    if token !in s.leases then s
    else s.(leases := s.leases[token := s.now + LEASE], keyExpires := s.now + KEY_LIFE)
  }

  function Finished(s: Store, token: Token): Store {
    s.(leases := s.leases - {token})
  }

  /** Time passes, and Redis drops the key once its own expiry is reached. */
  function Passed(s: Store, ms: nat): Store {
    var now := s.now + ms;
    s.(now := now, leases := if now < s.keyExpires then s.leases else map[])
  }

  /** The teardown's poll removes what has expired and counts what is left. */
  function Polled(s: Store): Store {
    s.(leases := map t | t in s.leases && s.now < s.leases[t] :: s.leases[t])
  }

  predicate Unexpired(s: Store, token: Token) {
    token in s.leases && s.now < s.leases[token]
  }

  // --------------------------------------------------------------------- the jobs

  /** A job between the moment its lease was granted and the end of its work;
      `stamped` is when it last registered or refreshed. */
  datatype Job = Running(stamped: nat) | Stopped

  datatype World = World(store: Store, jobs: map<Token, Job>)

  datatype Step =
    | Begin(token: Token)        // a job asks for a lease and starts on it
    | Refresh(token: Token)      // its refresh task fires
    | Stop(token: Token)         // its work ends or its process dies
    | Release(token: Token)      // it gives the lease back
    | Pass(ms: nat)
    | Cancel                     // teardown sets the cancel key
    | CancelExpires
    | Poll

  predicate IsRunning(w: World, token: Token) {
    token in w.jobs && w.jobs[token].Running?
  }

  function Next(w: World, step: Step): World {
    match step
    case Begin(token) =>
      if token in w.jobs then w                       // tokens are fresh
      else
        var store := Begun(w.store, token);
        if w.store.cancelled then w.(store := store)  // skipped: cancelled by teardown
        else World(store, w.jobs[token := Running(w.store.now)])
    case Refresh(token) =>
      if !IsRunning(w, token) then w
      else if token in w.store.leases then
        World(Refreshed(w.store, token), w.jobs[token := Running(w.store.now)])
      else
        World(Refreshed(w.store, token), w.jobs[token := Stopped])   // lease lost: the owner is cancelled
    case Stop(token) => if token in w.jobs then w.(jobs := w.jobs[token := Stopped]) else w
    case Release(token) =>
      if token in w.jobs && w.jobs[token].Stopped? then w.(store := Finished(w.store, token)) else w
    case Pass(ms) => w.(store := Passed(w.store, ms))
    case Cancel => w.(store := w.store.(cancelled := true))
    case CancelExpires => w.(store := w.store.(cancelled := false))
    case Poll => w.(store := Polled(w.store))
  }

  function Run(w: World, steps: seq<Step>): World
    decreases |steps|
  {
    if steps == [] then w else Run(Next(w, steps[0]), steps[1..])
  }

  const START := World(Store(0, false, map[], 0), map[])

  /** Every running job refreshes before its lease would end: time never moves
      past the end of a lease whose job still runs. */
  predicate TimelyStep(w: World, step: Step) {
    step.Pass? ==>
      forall t :: t in w.jobs && w.jobs[t].Running? ==> w.store.now + step.ms < w.jobs[t].stamped + LEASE
  }

  predicate Timely(w: World, steps: seq<Step>)
    decreases |steps|
  {
    steps != [] ==> TimelyStep(w, steps[0]) && Timely(Next(w, steps[0]), steps[1..])
  }

  // ------------------------------------------------------------------- invariants

  /** Holds in every run: the key outlives each of its leases by a whole lease. */
  predicate KeyOutlives(s: Store) {
    && (s.leases != map[] ==> s.now < s.keyExpires)
    && forall t :: t in s.leases ==> s.leases[t] + LEASE <= s.keyExpires && s.leases[t] <= s.now + LEASE
  }

  /** Holds in timely runs. */
  ghost predicate Covered(w: World) {
    forall t :: IsRunning(w, t) ==>
      Unexpired(w.store, t) && w.store.leases[t] == w.jobs[t].stamped + LEASE
  }

  /** Holds in every run, punctual or not: the set has the lease that a running
      job last asked for, or has dropped it after its end. */
  ghost predicate Stamped(w: World) {
    forall t :: IsRunning(w, t) ==>
      && (t in w.store.leases ==> w.store.leases[t] == w.jobs[t].stamped + LEASE)
      && (t !in w.store.leases ==> w.jobs[t].stamped + LEASE <= w.store.now)
  }

  lemma KeyOutlivesStep(w: World, step: Step)
    requires KeyOutlives(w.store)
    ensures KeyOutlives(Next(w, step).store)
  {
  }

  lemma StampedStep(w: World, step: Step)
    requires KeyOutlives(w.store) && Stamped(w)
    ensures Stamped(Next(w, step))
  {
    var w' := Next(w, step);
    forall t | IsRunning(w', t)
      ensures t in w'.store.leases ==> w'.store.leases[t] == w'.jobs[t].stamped + LEASE
      ensures t !in w'.store.leases ==> w'.jobs[t].stamped + LEASE <= w'.store.now
    {
      if !step.Begin? || step.token != t {
        assert IsRunning(w, t);
      }
    }
  }

  lemma CoveredStep(w: World, step: Step)
    requires KeyOutlives(w.store) && Covered(w) && TimelyStep(w, step)
    ensures Covered(Next(w, step))
  {
    var w' := Next(w, step);
    forall t | IsRunning(w', t)
      ensures Unexpired(w'.store, t) && w'.store.leases[t] == w'.jobs[t].stamped + LEASE
    {
      if step.Pass? {
        assert IsRunning(w, t) && t in w.store.leases;
      } else if !step.Begin? || step.token != t {
        assert IsRunning(w, t);
      }
    }
  }

  lemma {:induction false} RunKeeps(w: World, steps: seq<Step>)
    requires KeyOutlives(w.store)
    ensures KeyOutlives(Run(w, steps).store)
    ensures Stamped(w) ==> Stamped(Run(w, steps))
    ensures Covered(w) && Timely(w, steps) ==> Covered(Run(w, steps))
    decreases |steps|
  {
    if steps != [] {
      KeyOutlivesStep(w, steps[0]);
      if Stamped(w) {
        StampedStep(w, steps[0]);
      }
      if Covered(w) && Timely(w, steps) {
        CoveredStep(w, steps[0]);
      }
      RunKeeps(Next(w, steps[0]), steps[1..]);
    }
  }

  // --------------------------------------------------------------------- theorems

  /** Each running job holds an unexpired lease, and its refresh never finds the
      lease gone, however many jobs run and however teardown polls. */
  lemma RunningJobsHoldLeases(steps: seq<Step>, token: Token)
    requires Timely(START, steps) && IsRunning(Run(START, steps), token)
    ensures Unexpired(Run(START, steps).store, token)
    ensures IsRunning(Next(Run(START, steps), Refresh(token)), token)
  {
    RunKeeps(START, steps);
  }

  /** The expiry of the key itself never costs anybody a lease: whenever it
      strikes, in any run, every lease in the set has already ended. */
  lemma KeyExpiryDropsOnlyExpired(steps: seq<Step>, ms: nat, token: Token)
    ensures
      var s := Run(START, steps).store;
      token in s.leases && token !in Passed(s, ms).leases ==> s.leases[token] <= s.now + ms
  {
    RunKeeps(START, steps);
  }

  lemma {:induction false} NoJobStarts(w: World, steps: seq<Step>, token: Token)
    requires w.store.cancelled && CancelExpires !in steps
    requires !IsRunning(w, token)
    ensures !IsRunning(Run(w, steps), token)
    decreases |steps|
  {
    if steps != [] {
      assert steps[0] in steps;
      var w' := Next(w, steps[0]);
      assert w'.store.cancelled && !IsRunning(w', token);
      NoJobStarts(w', steps[1..], token);
    }
  }

  /** Quiescence: once the cancel key is set and a poll counts no lease, no job
      is running, and none will be, whatever happens while the key persists. */
  lemma Quiescent(steps: seq<Step>, later: seq<Step>, token: Token)
    requires Timely(START, steps)
    requires Run(START, steps).store.cancelled
    requires Polled(Run(START, steps).store).leases == map[]
    requires CancelExpires !in later
    ensures !IsRunning(Run(START, steps), token)
    ensures !IsRunning(Run(Run(START, steps), later), token)
  {
    RunKeeps(START, steps);
    var w := Run(START, steps);
    assert IsRunning(w, token) ==> token in Polled(w.store).leases;
    NoJobStarts(w, later, token);
  }

  /** Waiting ends: a poll one lease after the last registration or refresh
      counts nothing, even if no lease was ever given back. */
  lemma PollDrains(steps: seq<Step>, ms: nat)
    requires LEASE <= ms
    ensures Polled(Passed(Run(START, steps).store, ms)).leases == map[]
  {
    RunKeeps(START, steps);
    var s := Run(START, steps).store;
    forall t | t in Passed(s, ms).leases ensures !Unexpired(Passed(s, ms), t) {
      assert t in s.leases;
    }
  }

  /** While the cancel key stands no job is granted a lease, and without it
      every new one is; it bars nobody after its own end. */
  lemma CancelBarsNewJobs(w: World, token: Token)
    requires token !in w.jobs
    ensures Next(Next(w, Cancel), Begin(token)).store.leases == w.store.leases
    ensures !IsRunning(Next(Next(w, Cancel), Begin(token)), token)
    ensures IsRunning(Next(Next(w, CancelExpires), Begin(token)), token)
    ensures Next(Next(w, CancelExpires), Begin(token)).store.leases ==
            w.store.leases[token := w.store.now + 900_000]
  {
  }

  /** A lease is granted and renewed for 900 seconds and the key for twice that;
      a renewal that finds the lease gone leaves the set as it is. */
  lemma LeaseTerms(s: Store, token: Token)
    ensures !s.cancelled ==>
              Begun(s, token) == s.(leases := s.leases[token := s.now + 900_000], keyExpires := s.now + 1_800_000)
    ensures s.cancelled ==> Begun(s, token) == s
    ensures token in s.leases ==>
              Refreshed(s, token) == s.(leases := s.leases[token := s.now + 900_000], keyExpires := s.now + 1_800_000)
    ensures token !in s.leases ==> Refreshed(s, token) == s
  {
  }

  /** Giving a lease back, or losing it to a poll after its end, is for good, and
      no other job's affair: the token is not counted until it is granted again. */
  lemma ReleasedIsNotCounted(s: Store, token: Token, other: Token)
    requires other != token
    ensures token !in Polled(Finished(s, token)).leases
    ensures Unexpired(Finished(s, token), other) <==> Unexpired(s, other)
    ensures token in Polled(s).leases <==> token in s.leases && s.now < s.leases[token]
    ensures Polled(s).now == s.now && Polled(s).cancelled == s.cancelled
  {
  }

  /** In a run: once its job stopped and gave it back, no poll counts the lease. */
  lemma ReleasedStaysAway(steps: seq<Step>, token: Token, later: seq<Step>)
    requires
      var w := Run(START, steps);
      token in w.jobs && w.jobs[token].Stopped?
    ensures token !in Polled(Run(Next(Run(START, steps), Release(token)), later).store).leases
  {
    StaysReleased(Next(Run(START, steps), Release(token)), later, token);
  }

  lemma {:induction false} StaysReleased(w: World, later: seq<Step>, token: Token)
    requires token in w.jobs && w.jobs[token].Stopped? && token !in w.store.leases
    ensures token !in Run(w, later).store.leases
    decreases |later|
  {
    if later != [] {
      StaysReleased(Next(w, later[0]), later[1..], token);
    }
  }

  /** The law behind all of this, for every run: a running job's lease counts
      exactly until LEASE milliseconds after the job last registered or
      refreshed, whatever polls, expiries and other jobs come in between. So
      a poll counts the job exactly as long as it is not that late. */
  lemma LeaseCountsUntilItsEnd(steps: seq<Step>, token: Token)
    requires IsRunning(Run(START, steps), token)
    ensures
      var w := Run(START, steps);
      && (Unexpired(w.store, token) <==> w.store.now < w.jobs[token].stamped + LEASE)
      && (token in Polled(w.store).leases <==> w.store.now < w.jobs[token].stamped + LEASE)
  {
    RunKeeps(START, steps);
  }

  lemma {:induction false} NoLeaseComesBack(w: World, later: seq<Step>, token: Token)
    requires w.store.cancelled && w.store.leases == map[] && CancelExpires !in later
    ensures
      IsRunning(Run(w, later), token) <==>
        IsRunning(w, token) && Refresh(token) !in later && Stop(token) !in later
    decreases |later|
  {
    if later != [] {
      assert later[0] in later;
      var w' := Next(w, later[0]);
      assert w'.store.cancelled && w'.store.leases == map[];
      assert
        IsRunning(w', token) <==>
          IsRunning(w, token) && later[0] != Refresh(token) && later[0] != Stop(token);
      NoLeaseComesBack(w', later[1..], token);
      assert forall step :: step in later <==> step == later[0] || step in later[1..];
    }
  }

  /** What teardown misses, in every run: a job still runs after a poll that
      counted nothing exactly if it ran at that poll, a whole lease or more
      after its last refresh, and has since neither ended nor reached another
      refresh. Nothing new starts and nothing missed outlives its next refresh. */
  lemma MissedExactlyIfLate(steps: seq<Step>, later: seq<Step>, token: Token)
    requires Run(START, steps).store.cancelled
    requires Polled(Run(START, steps).store).leases == map[]
    requires CancelExpires !in later
    ensures
      var w := Run(START, steps);
      IsRunning(Run(Next(w, Poll), later), token) <==>
        && IsRunning(w, token) && w.jobs[token].stamped + LEASE <= w.store.now
        && Refresh(token) !in later && Stop(token) !in later
  {
    var w := Run(START, steps);
    NoLeaseComesBack(Next(w, Poll), later, token);
    if IsRunning(w, token) {
      LeaseCountsUntilItsEnd(steps, token);
    }
  }

  /** Such a job exists: one lease late is late enough. */
  lemma LateRefreshGoesUnseen()
    ensures
      var w := Run(START, [Begin(7), Pass(LEASE), Cancel]);
      IsRunning(w, 7) && w.store.cancelled && Polled(w.store).leases == map[]
  {
    var w1 := Next(START, Begin(7));
    var w2 := Next(w1, Pass(LEASE));
    var w3 := Next(w2, Cancel);
    assert [Begin(7), Pass(LEASE), Cancel][1..] == [Pass(LEASE), Cancel];
    assert [Pass(LEASE), Cancel][1..] == [Cancel];
    assert Run(w2, [Cancel]) == w3 by {
      assert [Cancel][1..] == [];
    }
  }

  // --------------------------------------------------------------------- the code

  class LeaseServer {
    var now: nat
    var cancelled: bool
    var leases: map<Token, nat>
    var keyExpires: nat

    constructor ()
      ensures State() == START.store
    {
      now, cancelled, leases, keyExpires := 0, false, map[], 0;
    }

    function State(): Store
      reads this
    {
      Store(now, cancelled, leases, keyExpires)
    }

    /** `_begin_scaffold_work`: EXISTS, ZADD and EXPIRE in one script. */
    method BeginScaffoldWork(token: Token) returns (registered: bool)
      modifies this
      ensures State() == Begun(old(State()), token)
      ensures registered <==> !old(cancelled)
    {
      if cancelled {
        return false;
      }
      leases := leases[token := now + LEASE];
      keyExpires := now + KEY_LIFE;
      return true;
    }

    /** One round of `_refresh_scaffold_lease`; false makes the task raise. */
    method RefreshScaffoldLease(token: Token) returns (refreshed: bool)
      modifies this
      ensures State() == Refreshed(old(State()), token)
      ensures refreshed <==> token in old(leases)
    {
      if token !in leases {
        return false;
      }
      leases := leases[token := now + LEASE];
      keyExpires := now + KEY_LIFE;
      return true;
    }

    method FinishScaffoldWork(token: Token)
      modifies this
      ensures State() == Finished(old(State()), token)
    {
      leases := leases - {token};
    }

    /** Teardown's poll: ZREMRANGEBYSCORE up to now, then ZCARD. */
    method ActiveLeases() returns (active: nat)
      modifies this
      ensures State() == Polled(old(State()))
      ensures active == |leases|
      ensures active == 0 <==> forall t :: t in old(leases) ==> !Unexpired(old(State()), t)
    {
      ghost var before := leases;
      leases := map t | t in leases && now < leases[t] :: leases[t];
      active := |leases|;
      if active == 0 {
        assert leases == map[];
        forall t | t in before ensures !(now < before[t]) {
          assert t in leases || before[t] <= now;
        }
      } else {
        assert leases.Keys != {};
        var t :| t in leases.Keys;
        assert t in before && now < before[t];
      }
    }
  }
}
