/** Delivery of one proactive notification (services/telegram_bot/src/proactive.py):
    bounded attempts whose count survives crashes because Redis keeps it, and an
    acknowledgement only after the outcome is settled. */
module ProactiveDelivery {

  const MAX_ATTEMPTS: nat := 3
  const MAX_DELIVERIES: nat := 3

  /** How one Telegram call ends; `seen` says that the message got through
      although the call raised or the process died on it. */
  datatype Send = Accepted | Raised(seen: bool) | Died(seen: bool)

  datatype Fate = Answered | Refused | Unanswered

  // ------------------------------------------------------- one delivery attempt

  datatype Verdict = Sent | GaveUp | Dead

  /** `calls` Telegram calls were made; `through` if a message got through. */
  datatype Tried = Tried(verdict: Verdict, calls: nat, through: bool, rest: seq<Send>)

  function Head(sends: seq<Send>): Send {
    if sends == [] then Died(false) else sends[0]
  }

  function Tail(sends: seq<Send>): seq<Send> {
    if sends == [] then [] else sends[1..]
  }

  predicate Through(s: Send) {
    s == Accepted || (!s.Accepted? && s.seen)
  }

  /** HTML first, plain text if that raises. */
  function SendOnce(sends: seq<Send>): Tried {
    var first := Head(sends);
    match first
    case Accepted => Tried(Sent, 1, true, Tail(sends))
    case Died(seen) => Tried(Dead, 1, seen, Tail(sends))
    case Raised(seen) =>
      var rest := Tail(sends);
      var second := Head(rest);
      var verdict := if second == Accepted then Sent else if second.Raised? then GaveUp else Dead;
      Tried(verdict, 2, seen || Through(second), Tail(rest))
  }

  function Attempts(n: nat, sends: seq<Send>): Tried {
    if n == 0 then Tried(GaveUp, 0, false, sends)
    else
      var t := SendOnce(sends);
      if t.verdict != GaveUp then t
      else
        var more := Attempts(n - 1, t.rest);
        Tried(more.verdict, t.calls + more.calls, t.through || more.through, more.rest)
  }

  /** The i-th Telegram call from here on. */
  function Call(sends: seq<Send>, i: nat): Send {
    if i < |sends| then sends[i] else Died(false)
  }

  ghost predicate SomeThrough(sends: seq<Send>, calls: nat) {
    exists i: nat :: i < calls && Through(Call(sends, i))
  }

  ghost predicate AllRaised(sends: seq<Send>, calls: nat) {
    forall i: nat :: i < calls ==> Call(sends, i).Raised?
  }

  /** What n attempts come to: calls are made one after the other until one ends
      in something else than an exception, 2 * n at most. The last one decides
      the verdict, and a message got through if one of them let it through. */
  ghost predicate OneByOne(n: nat, sends: seq<Send>, t: Tried) {
    && t.calls <= 2 * n
    && (t.calls > 0 ==> AllRaised(sends, t.calls - 1))
    && (t.verdict == GaveUp <==> t.calls == 2 * n && AllRaised(sends, t.calls))
    && (t.verdict == Sent <==> t.calls > 0 && Call(sends, t.calls - 1).Accepted?)
    && (t.verdict == Dead <==> t.calls > 0 && Call(sends, t.calls - 1).Died?)
    && (t.through <==> SomeThrough(sends, t.calls))
    && (forall i: nat :: Call(t.rest, i) == Call(sends, t.calls + i))
  }

  lemma OnceIsOneByOne(sends: seq<Send>)
    ensures OneByOne(1, sends, SendOnce(sends))
  {
    var t := SendOnce(sends);
    assert Head(sends) == Call(sends, 0) && Head(Tail(sends)) == Call(sends, 1);
    assert forall i: nat :: Call(Tail(sends), i) == Call(sends, 1 + i);
    if t.calls == 2 {
      assert forall i: nat :: Call(t.rest, i) == Call(Tail(sends), 1 + i);
    }
    if Through(Call(sends, 0)) {
      assert SomeThrough(sends, t.calls);
    }
    if t.calls == 2 && Through(Call(sends, 1)) {
      assert SomeThrough(sends, t.calls);
    }
  }

  lemma SomeThroughSplits(sends: seq<Send>, rest: seq<Send>, a: nat, b: nat)
    requires forall i: nat :: Call(rest, i) == Call(sends, a + i)
    ensures SomeThrough(sends, a + b) <==> SomeThrough(sends, a) || SomeThrough(rest, b)
  {
    if SomeThrough(sends, a + b) {
      var i: nat :| i < a + b && Through(Call(sends, i));
      if i >= a {
        assert Call(rest, i - a) == Call(sends, a + (i - a));
      }
    }
    if SomeThrough(rest, b) {
      var i: nat :| i < b && Through(Call(rest, i));
      assert Through(Call(sends, a + i));
    }
  }

  lemma AllRaisedSplits(sends: seq<Send>, rest: seq<Send>, a: nat, b: nat)
    requires forall i: nat :: Call(rest, i) == Call(sends, a + i)
    ensures AllRaised(sends, a + b) <==> AllRaised(sends, a) && AllRaised(rest, b)
  {
    if AllRaised(sends, a + b) {
      forall i: nat | i < b ensures Call(rest, i).Raised? {
        assert Call(rest, i) == Call(sends, a + i);
      }
    }
    if AllRaised(sends, a) && AllRaised(rest, b) {
      forall i: nat | i < a + b ensures Call(sends, i).Raised? {
        if i >= a {
          assert Call(rest, i - a) == Call(sends, a + (i - a));
        }
      }
    }
  }

  lemma Joined(n: nat, sends: seq<Send>, t: Tried, more: Tried)
    requires n > 0 && t.verdict == GaveUp && OneByOne(1, sends, t)
    requires OneByOne(n - 1, t.rest, more)
    ensures
      OneByOne(n, sends, Tried(more.verdict, t.calls + more.calls, t.through || more.through, more.rest))
  {
    SomeThroughSplits(sends, t.rest, 2, more.calls);
    AllRaisedSplits(sends, t.rest, 2, more.calls);
    if more.calls > 0 {
      AllRaisedSplits(sends, t.rest, 2, more.calls - 1);
      assert Call(t.rest, more.calls - 1) == Call(sends, 2 + (more.calls - 1));
    }
    forall i: nat ensures Call(more.rest, i) == Call(sends, 2 + more.calls + i) {
      assert Call(more.rest, i) == Call(t.rest, more.calls + i);
      assert Call(t.rest, more.calls + i) == Call(sends, 2 + (more.calls + i));
    }
  }

  /** An attempt that does not give up is the last one. */
  lemma Stopped(n: nat, sends: seq<Send>, t: Tried)
    requires n > 0 && t.verdict != GaveUp && OneByOne(1, sends, t)
    ensures OneByOne(n, sends, t)
  {
    assert t.calls > 0;
    assert AllRaised(sends, t.calls) ==> Call(sends, t.calls - 1).Raised?;
  }

  lemma {:induction false} AttemptsFacts(n: nat, sends: seq<Send>)
    ensures OneByOne(n, sends, Attempts(n, sends))
    decreases n
  {
    if n > 0 {
      var t := SendOnce(sends);
      OnceIsOneByOne(sends);
      if t.verdict == GaveUp {
        AttemptsFacts(n - 1, t.rest);
        Joined(n, sends, t, Attempts(n - 1, t.rest));
      } else {
        Stopped(n, sends, t);
      }
    }
  }

  lemma SentGetsThrough(n: nat, sends: seq<Send>)
    requires Attempts(n, sends).verdict == Sent
    ensures Attempts(n, sends).through
  {
    AttemptsFacts(n, sends);
    assert Through(Call(sends, Attempts(n, sends).calls - 1));
  }

  /** A message gets through if Telegram accepts it, or takes it and the call
      fails all the same. */
  lemma ThroughMeans()
    ensures Through(Accepted) && Through(Raised(true)) && Through(Died(true))
    ensures !Through(Raised(false)) && !Through(Died(false))
  {
  }

  // ------------------------------------------------------------- one processing

  /** `deliveries` is the PEL's count while the entry is pending; the rest is
      history. */
  datatype Entry = Entry(
    acked: bool, deliveries: nat, calls: nat, through: bool, rejected: bool, alerted: bool)

  /** The world's side of one processing: whether the count could be read,
      whether the payload is valid, the Telegram calls, whether the process
      survives the admin alert, and how the acknowledgement ends. */
  datatype Plan = Plan(readable: bool, valid: bool, sends: seq<Send>, survivesAlert: bool, ack: Fate)

  function Ack(e: Entry, fate: Fate): Entry {
    if fate == Refused then e else e.(acked := true)
  }

  function AlertAndAck(e: Entry, plan: Plan): Entry {
    var e' := e.(alerted := true);
    if plan.survivesAlert then Ack(e', plan.ack) else e'
  }

  /** What `delivery_count` reads: the PEL forgets an acknowledged entry. */
  function ReadCount(e: Entry): nat {
    if e.acked then 0 else e.deliveries
  }

  function Process(e: Entry, plan: Plan): Entry {
    if !plan.readable then e
    else if !plan.valid then Ack(e.(rejected := true), plan.ack)
    else if ReadCount(e) > MAX_DELIVERIES then AlertAndAck(e, plan)
    else
      var t := Attempts(MAX_ATTEMPTS, plan.sends);
      var e' := e.(calls := e.calls + t.calls, through := e.through || t.through);
      match t.verdict
      case Dead => e'
      case Sent => Ack(e', plan.ack)
      case GaveUp => AlertAndAck(e', plan)
  }

  /** The n-th call is the last one: those before it raised, and it did not, or
      there are no more attempts left. */
  ghost predicate StopsAfter(sends: seq<Send>, n: nat) {
    && 0 < n <= 6
    && (forall i: nat :: i + 1 < n ==> Call(sends, i).Raised?)
    && (n == 6 || !Call(sends, n - 1).Raised?)
  }

  lemma StopsAfterCalls(sends: seq<Send>, t: Tried, n: nat)
    requires OneByOne(MAX_ATTEMPTS, sends, t)
    ensures StopsAfter(sends, n) <==> t.calls == n
  {
    assert t.calls > 0 && t.calls < n && StopsAfter(sends, n) ==> Call(sends, t.calls - 1).Raised?;
    assert 0 < n < t.calls ==> Call(sends, n - 1).Raised?;
    LastOfAll(sends, t);
  }

  lemma LastOfAll(sends: seq<Send>, t: Tried)
    requires OneByOne(MAX_ATTEMPTS, sends, t)
    ensures t.calls > 0 && StopsAfter(sends, t.calls)
  {
    assert t.verdict == Sent || t.verdict == Dead || t.verdict == GaveUp;
  }

  lemma SendingExactly(e: Entry, plan: Plan, n: nat)
    requires StopsAfter(plan.sends, n) && plan.readable && plan.valid && ReadCount(e) <= 3
    ensures
      var last, answered := Call(plan.sends, n - 1), plan.ack != Refused;
      Process(e, plan) ==
        e.(calls := e.calls + n, through := e.through || SomeThrough(plan.sends, n),
           alerted := e.alerted || last.Raised?,
           acked := e.acked || (answered && (last.Accepted? || (last.Raised? && plan.survivesAlert))))
  {
    var t := Attempts(MAX_ATTEMPTS, plan.sends);
    AttemptsFacts(MAX_ATTEMPTS, plan.sends);
    StopsAfterCalls(plan.sends, t, n);
    VerdictOfLast(plan.sends, t);
  }

  lemma VerdictOfLast(sends: seq<Send>, t: Tried)
    requires OneByOne(MAX_ATTEMPTS, sends, t)
    ensures
      t.calls > 0 &&
      t.verdict == match Call(sends, t.calls - 1)
                   case Accepted => Sent
                   case Raised(_) => GaveUp
                   case Died(_) => Dead
  {
    LastOfAll(sends, t);
  }

  /** How one handling ends, in full, given which of its calls is the last. An
      entry whose count cannot be read is left alone, an invalid one is
      rejected, one past the bound is alerted, and any other is sent call by
      call. The entry is acknowledged exactly once it is rejected, Telegram
      accepted the last call, or the alert was survived, unless the
      acknowledgement itself is refused. */
  lemma HandlingExactly(e: Entry, plan: Plan, n: nat)
    requires StopsAfter(plan.sends, n)
    ensures
      var after, last, answered := Process(e, plan), Call(plan.sends, n - 1), plan.ack != Refused;
      if !plan.readable then after == e
      else if !plan.valid then after == e.(rejected := true, acked := e.acked || answered)
      else if !e.acked && e.deliveries > 3 then
        after == e.(alerted := true, acked := plan.survivesAlert && answered)
      else
        after == e.(calls := e.calls + n, through := e.through || SomeThrough(plan.sends, n),
                    alerted := e.alerted || last.Raised?,
                    acked := e.acked || (answered && (last.Accepted? || (last.Raised? && plan.survivesAlert))))
  {
    if plan.readable && plan.valid && ReadCount(e) <= 3 {
      SendingExactly(e, plan, n);
    }
  }

  /** Some call is the last one, so this covers every handling. */
  lemma SomeCallIsLast(sends: seq<Send>)
    ensures exists n: nat :: StopsAfter(sends, n)
  {
    AttemptsFacts(MAX_ATTEMPTS, sends);
    LastOfAll(sends, Attempts(MAX_ATTEMPTS, sends));
  }

  // ------------------------------------------------------------------------ runs

  /** Redis hands the entry out, to however many listeners there are; a listener
      that was handed it processes it, or dies first. */
  datatype Event = Hand | Handle(plan: Plan) | Vanish

  datatype World = World(e: Entry, waiting: nat, handled: nat)

  const START := World(Entry(false, 0, 0, false, false, false), 0, 0)

  function Next(w: World, event: Event): World {
    match event
    case Hand =>
      if w.e.acked then w
      else w.(e := w.e.(deliveries := w.e.deliveries + 1), waiting := w.waiting + 1)
    case Handle(plan) =>
      if w.waiting == 0 then w
      else World(Process(w.e, plan), w.waiting - 1, w.handled + 1)
    case Vanish =>
      if w.waiting == 0 then w else w.(waiting := w.waiting - 1)
  }

  function Run(w: World, events: seq<Event>): World
    decreases |events|
  {
    if events == [] then w else Run(Next(w, events[0]), events[1..])
  }

  predicate Settled(e: Entry) {
    e.acked ==> e.through || e.rejected || e.alerted
  }

  lemma ProcessSettles(e: Entry, plan: Plan)
    requires Settled(e)
    ensures Settled(Process(e, plan))
  {
    if Attempts(MAX_ATTEMPTS, plan.sends).verdict == Sent {
      SentGetsThrough(MAX_ATTEMPTS, plan.sends);
    }
  }

  lemma {:induction false} RunSettles(w: World, events: seq<Event>)
    requires Settled(w.e)
    ensures Settled(Run(w, events).e)
    decreases |events|
  {
    if events != [] {
      if events[0].Handle? {
        ProcessSettles(w.e, events[0].plan);
      }
      RunSettles(Next(w, events[0]), events[1..]);
    }
  }

  /** Never settled silently: in every run, with any number of listeners and
      crashes, an acknowledged entry got through to Telegram, was rejected as
      invalid, or was put into an alert to the admins. */
  lemma AckedIsSettled(events: seq<Event>)
    ensures
      var e := Run(START, events).e;
      e.acked ==> e.through || e.rejected || e.alerted
  {
    RunSettles(START, events);
  }

  // ------------------------------------------------------------------- the bound

  function Min(a: nat, b: nat): nat {
    if a < b then a else b
  }

  /** How many listeners start on the entry after it has been acknowledged. */
  function LateStarts(w: World, events: seq<Event>): nat
    decreases |events|
  {
    if events == [] then 0
    else (if StartsLate(w, events[0]) then 1 else 0) + LateStarts(Next(w, events[0]), events[1..])
  }

  predicate StartsLate(w: World, event: Event) {
    event.Handle? && w.waiting > 0 && w.e.acked
  }

  predicate Bounded(w: World, late: nat) {
    && late <= w.handled
    && w.e.calls <= 2 * MAX_ATTEMPTS * (Min(w.handled - late, MAX_DELIVERIES) + late)
    && w.handled + w.waiting <= w.e.deliveries
  }

  lemma ProcessCalls(e: Entry, plan: Plan)
    ensures
      var e' := Process(e, plan);
      && e'.deliveries == e.deliveries
      && e'.calls <= e.calls + 2 * MAX_ATTEMPTS
      && (ReadCount(e) > MAX_DELIVERIES ==> e'.calls == e.calls)
  {
    AttemptsFacts(MAX_ATTEMPTS, plan.sends);
  }

  lemma StepBounded(w: World, event: Event, late: nat)
    requires Bounded(w, late)
    ensures Bounded(Next(w, event), late + if StartsLate(w, event) then 1 else 0)
  {
    if event.Handle? && w.waiting > 0 {
      ProcessCalls(w.e, event.plan);
    }
  }

  lemma {:induction false} RunBounded(w: World, events: seq<Event>, late: nat)
    requires Bounded(w, late)
    ensures Bounded(Run(w, events), late + LateStarts(w, events))
    decreases |events|
  {
    if events != [] {
      StepBounded(w, events[0], late);
      RunBounded(Next(w, events[0]), events[1..], late + if StartsLate(w, events[0]) then 1 else 0);
    }
  }

  /** However often the entry is handed out and however often its listener
      dies, it causes a bounded number of Telegram calls, because the bound is
      read from the group's own count. Only a listener that starts on the entry
      after another has acknowledged it is not covered by the count: each of
      those can add one more attempt. */
  lemma CallsBounded(events: seq<Event>)
    ensures
      Run(START, events).e.calls <= 2 * MAX_ATTEMPTS * (MAX_DELIVERIES + LateStarts(START, events))
  {
    RunBounded(START, events, 0);
  }

  /** A single listener is handed the entry only when it is not busy with it. */
  predicate OneListener(w: World, events: seq<Event>)
    decreases |events|
  {
    events != [] ==>
      && (events[0].Hand? ==> w.waiting == 0)
      && OneListener(Next(w, events[0]), events[1..])
  }

  lemma {:induction false} OneListenerIsNeverLate(w: World, events: seq<Event>)
    requires OneListener(w, events) && w.waiting <= 1 && (w.waiting > 0 ==> !w.e.acked)
    ensures LateStarts(w, events) == 0
    decreases |events|
  {
    if events != [] {
      OneListenerIsNeverLate(Next(w, events[0]), events[1..]);
    }
  }

  /** The deployed shape, one listener: the bound holds without proviso. */
  lemma OneListenerIsBounded(events: seq<Event>)
    requires OneListener(START, events)
    ensures Run(START, events).e.calls <= MAX_DELIVERIES * MAX_ATTEMPTS * 2
  {
    OneListenerIsNeverLate(START, events);
    CallsBounded(events);
  }

  // ------------------------------------------------------- the bound is reached

  const TWO_RAISED: seq<Send> := [Raised(false), Raised(false)]
  const SIX_RAISED: seq<Send> := TWO_RAISED + TWO_RAISED + TWO_RAISED

  const ALL_FAIL: Plan := Plan(true, true, SIX_RAISED, true, Answered)

  function Hands(n: nat): seq<Event> {
    seq(n, _ => Hand)
  }

  function Handles(n: nat): seq<Event> {
    seq(n, _ => Handle(ALL_FAIL))
  }

  lemma {:induction false} RunConcat(w: World, a: seq<Event>, b: seq<Event>)
    ensures Run(w, a + b) == Run(Run(w, a), b)
    decreases |a|
  {
    if a == [] {
      assert a + b == b;
    } else {
      assert (a + b)[1..] == a[1..] + b;
      RunConcat(Next(w, a[0]), a[1..], b);
    }
  }

  lemma {:induction false} RunHands(w: World, n: nat)
    requires !w.e.acked
    ensures Run(w, Hands(n)) == w.(e := w.e.(deliveries := w.e.deliveries + n), waiting := w.waiting + n)
    decreases n
  {
    if n > 0 {
      assert Hands(n)[1..] == Hands(n - 1);
      RunHands(Next(w, Hand), n - 1);
    }
  }

  lemma SixFail()
    ensures Attempts(MAX_ATTEMPTS, SIX_RAISED).calls == 6
    ensures Attempts(MAX_ATTEMPTS, SIX_RAISED).verdict == GaveUp
  {
    AttemptsFacts(MAX_ATTEMPTS, SIX_RAISED);
    assert AllRaised(SIX_RAISED, 6);
    var t := Attempts(MAX_ATTEMPTS, SIX_RAISED);
    if t.calls > 0 {
      assert Call(SIX_RAISED, t.calls - 1).Raised?;
    }
  }

  lemma {:induction false} LateHandles(w: World, n: nat)
    requires w.e.acked && n <= w.waiting
    ensures Run(w, Handles(n)).e.calls == w.e.calls + 6 * n
    ensures LateStarts(w, Handles(n)) == n
    decreases n
  {
    if n > 0 {
      SixFail();
      assert Handles(n)[1..] == Handles(n - 1);
      LateHandles(Next(w, Handle(ALL_FAIL)), n - 1);
    }
  }

  /** A listener that starts after the acknowledgement reads a delivery count
      of zero. Hand the entry to n overlapping listeners before the first of
      them is done, and the number of Telegram calls grows with n: from five
      listeners on it exceeds what one listener can cause. */
  lemma LateListenersBreakTheBound(n: nat)
    requires n > MAX_DELIVERIES
    ensures Run(START, Hands(n) + Handles(n)).e.calls == 6 * (n - 1)
    ensures
      (Run(START, Hands(n) + Handles(n)).e.calls > MAX_DELIVERIES * MAX_ATTEMPTS * 2) ==
        (n > MAX_DELIVERIES + 1)
  {
    RunConcat(START, Hands(n), Handles(n));
    RunHands(START, n);
    var w := Run(START, Hands(n));
    var w1 := Next(w, Handle(ALL_FAIL));
    assert w1.e.acked && w1.e.calls == 0 && w1.waiting == n - 1;
    assert Handles(n)[1..] == Handles(n - 1);
    LateHandles(w1, n - 1);
  }

  /** Every attempt fails, and the process dies on the alert. */
  const DIES: Plan := Plan(true, true, SIX_RAISED, false, Answered)

  function Deaths(n: nat): seq<Event>
    ensures |Deaths(n)| == 2 * n
  {
    if n == 0 then [] else [Hand, Handle(DIES)] + Deaths(n - 1)
  }

  lemma {:induction false} RunDeaths(w: World, n: nat)
    requires !w.e.acked && w.waiting == 0 && w.e.deliveries + n <= MAX_DELIVERIES
    ensures
      var w' := Run(w, Deaths(n));
      && !w'.e.acked && w'.waiting == 0 && w'.e.deliveries == w.e.deliveries + n
      && w'.e.calls == w.e.calls + 6 * n
    ensures LateStarts(w, Deaths(n)) == 0
    decreases n
  {
    if n > 0 {
      SixFail();
      var w1 := Next(w, Hand);
      var w2 := Next(w1, Handle(DIES));
      assert Deaths(n)[0] == Hand && Deaths(n)[1] == Handle(DIES);
      assert Deaths(n)[1..][1..] == Deaths(n - 1);
      assert Run(w, Deaths(n)) == Run(w2, Deaths(n - 1));
      RunDeaths(w2, n - 1);
    }
  }

  lemma {:induction false} LateStartsConcat(w: World, a: seq<Event>, b: seq<Event>)
    ensures LateStarts(w, a + b) == LateStarts(w, a) + LateStarts(Run(w, a), b)
    decreases |a|
  {
    if a == [] {
      assert a + b == b;
    } else {
      assert (a + b)[1..] == a[1..] + b;
      LateStartsConcat(Next(w, a[0]), a[1..], b);
    }
  }

  lemma {:induction false} HandsAreNotStarts(w: World, n: nat)
    ensures LateStarts(w, Hands(n)) == 0
    decreases n
  {
    if n > 0 {
      assert Hands(n)[1..] == Hands(n - 1);
      HandsAreNotStarts(Next(w, Hand), n - 1);
    }
  }

  /** The run that spends everything: three deliveries whose listener dies, then
      n + 1 overlapping ones, of which the first acknowledges. */
  function Costly(n: nat): seq<Event> {
    Deaths(MAX_DELIVERIES) + (Hands(n + 1) + ([Handle(ALL_FAIL)] + Handles(n)))
  }

  /** The bound is exact: for every number of late starts some run reaches it. */
  lemma BoundIsReached(n: nat)
    ensures LateStarts(START, Costly(n)) == n
    ensures Run(START, Costly(n)).e.calls == 2 * MAX_ATTEMPTS * (MAX_DELIVERIES + n)
  {
    var tail := [Handle(ALL_FAIL)] + Handles(n);
    RunDeaths(START, MAX_DELIVERIES);
    var w := Run(START, Deaths(MAX_DELIVERIES));
    RunConcat(START, Deaths(MAX_DELIVERIES), Hands(n + 1) + tail);
    LateStartsConcat(START, Deaths(MAX_DELIVERIES), Hands(n + 1) + tail);
    RunHands(w, n + 1);
    HandsAreNotStarts(w, n + 1);
    var w1 := Run(w, Hands(n + 1));
    RunConcat(w, Hands(n + 1), tail);
    LateStartsConcat(w, Hands(n + 1), tail);
    assert tail[1..] == Handles(n);
    var w2 := Next(w1, Handle(ALL_FAIL));
    assert w2.e.acked && w2.e.calls == w.e.calls && w2.waiting == n;
    LateHandles(w2, n);
  }

  // -------------------------------------------------------------------- the code

  class ProactiveListener {
    var e: Entry
    var sends: seq<Send>      // how the remaining Telegram calls end

    constructor (e: Entry)
      ensures this.e == e && sends == []
    {
      this.e := e;
      this.sends := [];
    }

    /** One `bot.send_message`. */
    method SendMessage() returns (s: Send)
      modifies this
      ensures s == Head(old(sends)) && sends == Tail(old(sends))
      ensures e == old(e).(calls := old(e).calls + 1, through := old(e).through || Through(s))
    {
      s := Head(sends);
      sends := Tail(sends);
      e := e.(calls := e.calls + 1, through := e.through || Through(s));
    }

    /** HTML first, plain text on an exception. */
    method SendMessageToChat() returns (verdict: Verdict)
      modifies this
      ensures
        var t := SendOnce(old(sends));
        && verdict == t.verdict && sends == t.rest
        && e == old(e).(calls := old(e).calls + t.calls, through := old(e).through || t.through)
    {
      var first := SendMessage();
      if first == Accepted {
        return Sent;
      }
      if first.Died? {
        return Dead;
      }
      var second := SendMessage();
      verdict := if second == Accepted then Sent else if second.Raised? then GaveUp else Dead;
    }

    method AttemptProactiveDelivery() returns (verdict: Verdict)
      modifies this
      ensures
        var t := Attempts(MAX_ATTEMPTS, old(sends));
        && verdict == t.verdict
        && e == old(e).(calls := old(e).calls + t.calls, through := old(e).through || t.through)
    {
      var attempt := 1;
      while attempt < MAX_ATTEMPTS + 1
        invariant 1 <= attempt <= MAX_ATTEMPTS + 1
        invariant
          var t, more := Attempts(MAX_ATTEMPTS, old(sends)), Attempts(MAX_ATTEMPTS + 1 - attempt, sends);
          && t.verdict == more.verdict
          && old(e).calls + t.calls == e.calls + more.calls
          && (old(e).through || t.through) == (e.through || more.through)
          && e == old(e).(calls := e.calls, through := e.through)
      {
        verdict := SendMessageToChat();
        if verdict != GaveUp {
          return;
        }
        attempt := attempt + 1;
      }
      verdict := GaveUp;
    }

    method Acknowledge(fate: Fate)
      modifies this
      ensures e == Ack(old(e), fate)
    {
      if fate != Refused {
        e := e.(acked := true);
      }
    }

    method ProcessProactiveEntry(plan: Plan)
      modifies this
      ensures e == Process(old(e), plan)
    {
      if !plan.readable {
        return;
      }
      var deliveries := ReadCount(e);
      if !plan.valid {
        e := e.(rejected := true);
        Acknowledge(plan.ack);
        return;
      }
      if deliveries > MAX_DELIVERIES {
        e := e.(alerted := true);
        if plan.survivesAlert {
          Acknowledge(plan.ack);
        }
        return;
      }
      sends := plan.sends;
      var verdict := AttemptProactiveDelivery();
      if verdict == Dead {
        return;
      }
      if verdict == Sent {
        Acknowledge(plan.ack);
        return;
      }
      e := e.(alerted := true);
      if plan.survivesAlert {
        Acknowledge(plan.ack);
      }
    }
  }
}
