/** The provisioner's outage protocol of services/infra-service/src/main.py for
    one queue entry: a single consumer that may be interrupted, or have a call
    fail, between any two of its Redis calls. */
module ProvisionerOutage {

  /** How one Redis call ends. A crash is a call that was refused, or one that
      took effect without an answer, with nothing following it. */
  datatype Fate = Answered | Refused | Unanswered

  const RETRY_BUDGET: nat := 3

  /** The outage hash of the entry: absent if all three fields are. `saved`
      stands for the server handle, details and request id written together. */
  datatype Record = Record(attempts: nat, saved: bool, terminal: bool)

  const NO_RECORD := Record(0, false, false)

  /** The last three components are history: how often provisioning ran, how
      often a result was published, and how often a handling was cut short
      after it had published. */
  datatype Entry = Entry(record: Record, acked: bool, provisioned: nat, published: nat, cutShort: nat)

  const FRESH := Entry(NO_RECORD, false, 0, 0, 0)

  /** What the outside world does during one handling, and how the calls end:
      calls beyond the end of the list never happen. */
  datatype Provisioning = Completed | JournalDown | Died
  datatype Incident = Recorded | StillDown | Failed
  datatype Plan = Plan(provisioning: Provisioning, incident: Incident, calls: seq<Fate>)

  // ------------------------------------------------------------ specification

  function Head(calls: seq<Fate>): Fate {
    if calls == [] then Refused else calls[0]
  }

  function Tail(calls: seq<Fate>): seq<Fate> {
    if calls == [] then [] else calls[1..]
  }

  /** The entry afterwards, the calls not yet made, and whether a call raised. */
  datatype Done = Done(e: Entry, calls: seq<Fate>, raised: bool)

  function Cut(e: Entry): Entry {
    e.(cutShort := e.cutShort + 1)
  }

  function AckCall(e: Entry, calls: seq<Fate>, afterPublish: bool): Done {
    var e' := if Head(calls) == Refused then e else e.(acked := true);
    var raised := Head(calls) != Answered;
    Done(if raised && afterPublish then Cut(e') else e', Tail(calls), raised)
  }

  /** Store the result, then publish it. */
  function PublishCalls(e: Entry, calls: seq<Fate>): Done {
    if Head(calls) != Answered then Done(e, Tail(calls), true)
    else
      var calls := Tail(calls);
      match Head(calls)
      case Refused => Done(e, Tail(calls), true)
      case Unanswered => Done(Cut(e.(published := e.published + 1)), Tail(calls), true)
      case Answered => Done(e.(published := e.published + 1), Tail(calls), false)
  }

  function PublishAndAck(e: Entry, calls: seq<Fate>): Done {
    var d := PublishCalls(e, calls);
    if d.raised then d else AckCall(d.e, d.calls, true)
  }

  /** Publish the terminal failure, mark it, acknowledge. */
  function GiveUp(e: Entry, calls: seq<Fate>): Done {
    var d := PublishCalls(e, calls);
    if d.raised then d
    else
      match Head(d.calls)
      case Refused => Done(Cut(d.e), Tail(d.calls), true)
      case Unanswered => Done(Cut(Marked(d.e)), Tail(d.calls), true)
      case Answered => AckCall(Marked(d.e), Tail(d.calls), true)
  }

  function Marked(e: Entry): Entry {
    e.(record := e.record.(terminal := true))
  }

  /** The retry budget is used up: read the terminal marker, and give up unless
      that was done before. */
  function Escalate(e: Entry, calls: seq<Fate>): Done {
    if Head(calls) != Answered then Done(e, Tail(calls), true)
    else if e.record.terminal then AckCall(e, Tail(calls), false)
    else GiveUp(e, Tail(calls))
  }

  /** Save the incident, and stop or go on by the attempts counted. */
  function SaveIncident(e: Entry, calls: seq<Fate>): Done {
    if Head(calls) == Refused then Done(e, Tail(calls), true)
    else
      var e' := e.(record := e.record.(saved := true));
      if Head(calls) == Unanswered then Done(e', Tail(calls), true)
      else if e'.record.attempts < RETRY_BUDGET then Done(e', Tail(calls), false)
      else Escalate(e', Tail(calls))
  }

  function HandleOutage(e: Entry, calls: seq<Fate>): Done {
    if Head(calls) == Refused then Done(e, Tail(calls), true)
    else
      var e' := e.(record := e.record.(attempts := e.record.attempts + 1));
      if Head(calls) == Unanswered then Done(e', Tail(calls), true)
      else SaveIncident(e', Tail(calls))
  }

  function RetrySaved(e: Entry, incident: Incident, calls: seq<Fate>): Done {
    if e.record.terminal then AckCall(e, calls, false)
    else if !e.record.saved then Done(e, calls, true)     // KeyError on the server handle
    else
      match incident
      case Failed => Done(e, calls, true)
      case StillDown => HandleOutage(e, calls)
      case Recorded =>
        var d := PublishAndAck(e, calls);
        if d.raised then d
        else
          Done(if Head(d.calls) == Refused then d.e else d.e.(record := NO_RECORD),
               Tail(d.calls), Head(d.calls) != Answered)
  }

  /** One delivery of the entry, from reading its outage record on. */
  function Handle(e: Entry, plan: Plan): Done {
    if Head(plan.calls) != Answered then Done(e, Tail(plan.calls), true)
    else
      var calls := Tail(plan.calls);
      if e.record != NO_RECORD then RetrySaved(e, plan.incident, calls)
      else
        var e' := e.(provisioned := e.provisioned + 1);
        match plan.provisioning
        case Died => Done(e', calls, true)
        case Completed => PublishAndAck(e', calls)
        case JournalDown => HandleOutage(e', calls)
  }

  /** An entry is delivered again and again until it is acknowledged. */
  function Run(e: Entry, plans: seq<Plan>): Entry
    decreases |plans|
  {
    if plans == [] || e.acked then e else Run(Handle(e, plans[0]).e, plans[1..])
  }

  // ------------------------------------------------------------------ invariants

  predicate Inv(e: Entry) {
    && (e.acked ==> e.published > 0)
    && (e.record.terminal ==> e.published > 0)
    && e.published <= e.cutShort + if e.acked then 1 else 0
  }

  lemma PublishCallsFacts(e: Entry, calls: seq<Fate>)
    ensures
      var d := PublishCalls(e, calls);
      && d.e.record == e.record && d.e.acked == e.acked && d.e.provisioned == e.provisioned
      && e.published <= d.e.published <= e.published + 1
      && (!d.raised ==> d.e.published == e.published + 1 && d.e.cutShort == e.cutShort)
      && (d.raised ==> d.e.published - e.published == d.e.cutShort - e.cutShort)
  {
  }

  lemma GiveUpFacts(e: Entry, calls: seq<Fate>)
    requires !e.acked && Inv(e) && !e.record.terminal
    ensures
      var d := GiveUp(e, calls);
      && Inv(d.e)
      && d.e.provisioned == e.provisioned
      && d.e.record.(terminal := false) == e.record
  {
    PublishCallsFacts(e, calls);
  }

  lemma EscalateFacts(e: Entry, calls: seq<Fate>)
    requires !e.acked && Inv(e)
    ensures
      var d := Escalate(e, calls);
      && Inv(d.e)
      && d.e.provisioned == e.provisioned
      && d.e.record.(terminal := e.record.terminal) == e.record
      && (e.record.terminal ==> d.e.record.terminal && d.e.published == e.published)
  {
    if !e.record.terminal {
      GiveUpFacts(e, Tail(calls));
    }
  }

  lemma SaveFacts(e: Entry, calls: seq<Fate>)
    requires !e.acked && Inv(e) && e.record.attempts > 0
    ensures
      var d := SaveIncident(e, calls);
      && Inv(d.e)
      && d.e.provisioned == e.provisioned
      && d.e.record.attempts > 0
      && (e.record.terminal ==> d.e.record.terminal && d.e.published == e.published)
  {
    EscalateFacts(e.(record := e.record.(saved := true)), Tail(calls));
  }

  lemma OutageFacts(e: Entry, calls: seq<Fate>)
    requires !e.acked && Inv(e)
    ensures
      var d := HandleOutage(e, calls);
      && Inv(d.e)
      && d.e.provisioned == e.provisioned
      && (e.record != NO_RECORD ==> d.e.record != NO_RECORD)
      && (e.record.terminal ==> d.e.record.terminal && d.e.published == e.published)
  {
    SaveFacts(e.(record := e.record.(attempts := e.record.attempts + 1)), Tail(calls));
  }

  lemma RetryFacts(e: Entry, incident: Incident, calls: seq<Fate>)
    requires !e.acked && Inv(e) && e.record != NO_RECORD
    ensures
      var d := RetrySaved(e, incident, calls);
      && Inv(d.e)
      && d.e.provisioned == e.provisioned
      && (d.e.record != NO_RECORD || d.e.acked)
      && (e.record.terminal ==> d.e.record == e.record && d.e.published == e.published)
  {
    OutageFacts(e, calls);
  }

  lemma HandleFacts(e: Entry, plan: Plan)
    requires !e.acked && Inv(e)
    ensures
      var d := Handle(e, plan);
      && Inv(d.e)
      && (e.record != NO_RECORD ==>
            d.e.provisioned == e.provisioned && (d.e.record != NO_RECORD || d.e.acked))
      && (e.record.terminal ==> d.e.published == e.published && d.e.record.terminal)
  {
    if Head(plan.calls) == Answered {
      if e.record != NO_RECORD {
        RetryFacts(e, plan.incident, Tail(plan.calls));
      } else if plan.provisioning == JournalDown {
        OutageFacts(e.(provisioned := e.provisioned + 1), Tail(plan.calls));
      }
    }
  }

  lemma {:induction false} RunInv(e: Entry, plans: seq<Plan>)
    requires Inv(e)
    ensures Inv(Run(e, plans))
    decreases |plans|
  {
    if plans != [] && !e.acked {
      HandleFacts(e, plans[0]);
      RunInv(Handle(e, plans[0]).e, plans[1..]);
    }
  }

  // -------------------------------------------------------------------- theorems

  /** In every run: an acknowledged entry had its result published, and results
      are published at most once more often than a handling was cut short after
      publishing. */
  lemma AckedOnlyAfterPublish(plans: seq<Plan>)
    ensures
      var e := Run(FRESH, plans);
      && (e.acked ==> e.published > 0)
      && e.published <= e.cutShort + 1
  {
    RunInv(FRESH, plans);
  }

  lemma {:induction false} RunWithRecord(e: Entry, plans: seq<Plan>)
    requires Inv(e) && (e.record != NO_RECORD || e.acked)
    ensures Run(e, plans).provisioned == e.provisioned
    ensures e.record.terminal ==> Run(e, plans).published == e.published
    decreases |plans|
  {
    if plans != [] && !e.acked {
      HandleFacts(e, plans[0]);
      RunWithRecord(Handle(e, plans[0]).e, plans[1..]);
    }
  }

  /** Once an outage record exists for the entry, no continuation of the run
      provisions the server again. */
  lemma NeverProvisionsAgain(plans: seq<Plan>, more: seq<Plan>)
    requires Run(FRESH, plans).record != NO_RECORD
    ensures Run(Run(FRESH, plans), more).provisioned == Run(FRESH, plans).provisioned
  {
    RunInv(FRESH, plans);
    RunWithRecord(Run(FRESH, plans), more);
  }

  /** Nothing is published after the terminal marker has been set. */
  lemma {:induction false} SilentAfterTerminal(plans: seq<Plan>, more: seq<Plan>)
    requires Run(FRESH, plans).record.terminal
    ensures Run(Run(FRESH, plans), more).published == Run(FRESH, plans).published
  {
    RunInv(FRESH, plans);
    RunWithRecord(Run(FRESH, plans), more);
  }

  /** The record that cannot be replayed: the attempt was counted, but neither
      the incident nor the terminal marker was saved. */
  predicate Stuck(e: Entry) {
    !e.acked && e.record.attempts > 0 && !e.record.saved && !e.record.terminal
  }

  lemma {:induction false} StuckForever(e: Entry, plans: seq<Plan>)
    requires Stuck(e)
    ensures Run(e, plans) == e
    decreases |plans|
  {
    if plans != [] {
      assert Handle(e, plans[0]).e == e;
      StuckForever(e, plans[1..]);
    }
  }

  /** A handling that goes well from here on. */
  function Smooth(calls: nat): Plan {
    Plan(Completed, Recorded, seq(calls, _ => Answered))
  }

  lemma SmoothSettles(e: Entry)
    requires !e.acked && !Stuck(e)
    ensures Handle(e, Smooth(5)).e.acked
  {
    var calls := Smooth(5).calls;
    assert Tail(calls)[0] == Answered && Tail(Tail(calls))[0] == Answered;
    assert Tail(Tail(Tail(calls)))[0] == Answered;
  }

  lemma RunOnce(e: Entry, plan: Plan)
    requires !e.acked
    ensures Run(e, [plan]) == Handle(e, plan).e
  {
    assert [plan][1..] == [];
  }

  /** Whether an entry can still be settled is decided by its record alone: it
      can, by one undisturbed delivery, unless the attempt count was written
      and the incident was not; and then no run ever settles it. */
  lemma SettlesUnlessStuck(plans: seq<Plan>)
    ensures
      var e := Run(FRESH, plans);
      (exists more :: Run(e, more).acked) <==> !Stuck(e)
  {
    var e := Run(FRESH, plans);
    RunInv(FRESH, plans);
    if Stuck(e) {
      forall more ensures !Run(e, more).acked {
        StuckForever(e, more);
      }
    } else if e.acked {
      assert Run(e, []).acked;
    } else {
      SmoothSettles(e);
      RunOnce(e, Smooth(5));
      assert Run(e, [Smooth(5)]).acked;
    }
  }

  /** That record is reachable: the process dies between the two writes. */
  lemma CrashBetweenWritesIsStuck()
    ensures Stuck(Run(FRESH, [Plan(JournalDown, StillDown, [Answered, Answered])]))
  {
    var plan := Plan(JournalDown, StillDown, [Answered, Answered]);
    assert [plan][1..] == [];
    assert Tail(plan.calls) == [Answered] && Tail([Answered]) == [];
    assert Run(FRESH, [plan]) == Handle(FRESH, plan).e;
  }

  // ------------------------------------------------ what a delivery comes to

  /** All of its calls are answered. */
  predicate Undisturbed(calls: seq<Fate>) {
    |calls| >= 8 && forall i :: 0 <= i < |calls| ==> calls[i] == Answered
  }

  lemma AnsweredCalls(calls: seq<Fate>)
    requires forall i :: 0 <= i < |calls| ==> calls[i] == Answered
    ensures calls != [] ==> Head(calls) == Answered && |Tail(calls)| == |calls| - 1
    ensures forall i :: 0 <= i < |Tail(calls)| ==> Tail(calls)[i] == Answered
  {
  }

  /** Store, publish, acknowledge. */
  lemma PublishedAndAcked(e: Entry, calls: seq<Fate>)
    requires |calls| >= 4 && forall i :: 0 <= i < |calls| ==> calls[i] == Answered
    ensures
      var d := PublishAndAck(e, calls);
      && d.e == e.(published := e.published + 1, acked := true) && !d.raised
      && |d.calls| == |calls| - 3 && Head(d.calls) == Answered
  {
    AnsweredCalls(calls);
    AnsweredCalls(Tail(calls));
    AnsweredCalls(Tail(Tail(calls)));
    AnsweredCalls(Tail(Tail(Tail(calls))));
  }

  /** An outage that has not been given up yet: below the budget one more
      attempt and nothing else, with it the terminal failure. */
  lemma OutageHandled(e: Entry, calls: seq<Fate>)
    requires |calls| >= 7 && forall i :: 0 <= i < |calls| ==> calls[i] == Answered
    requires !e.record.terminal
    ensures
      var d, attempts := HandleOutage(e, calls), e.record.attempts + 1;
      && !d.raised
      && d.e == if attempts < RETRY_BUDGET then e.(record := Record(attempts, true, false))
                else e.(record := Record(attempts, true, true), published := e.published + 1, acked := true)
  {
    var c1 := Tail(calls);
    var c2 := Tail(c1);
    var c3 := Tail(c2);
    var c4 := Tail(c3);
    var c5 := Tail(c4);
    AnsweredCalls(calls);
    AnsweredCalls(c1);
    AnsweredCalls(c2);
    AnsweredCalls(c3);
    AnsweredCalls(c4);
    AnsweredCalls(c5);
    AnsweredCalls(Tail(c5));
  }

  /** An undisturbed delivery of a pending entry, in full. Without a record the
      server is provisioned, and the outcome published and acknowledged; if the
      journal is down, or still down, an attempt is counted and the incident
      saved, and only at the budget the terminal failure is published, marked
      and acknowledged. A saved incident is written to the journal, published
      as a failure and forgotten. A terminal record is acknowledged and nothing
      else, and a record without its incident stays as it is. */
  lemma UndisturbedDelivery(e: Entry, plan: Plan)
    requires |plan.calls| >= 8 && (forall i :: 0 <= i < |plan.calls| ==> plan.calls[i] == Answered) && !e.acked
    ensures
      var done := Handle(e, plan);
      done.raised <==>
        || (e.record == Record(0, false, false) && plan.provisioning == Died)
        || (e.record != Record(0, false, false) && !e.record.terminal && (!e.record.saved || plan.incident == Failed))
    ensures
      var after, attempts := Handle(e, plan).e, e.record.attempts + 1;
      var record := e.record;
      if record == Record(0, false, false) then
        var e' := e.(provisioned := e.provisioned + 1);
        match plan.provisioning
        case Completed => after == e'.(published := e.published + 1, acked := true)
        case Died => after == e'
        case JournalDown => after == e'.(record := Record(1, true, false))
      else if record.terminal then after == e.(acked := true)
      else if !record.saved then after == e
      else
        match plan.incident
        case Recorded => after == e.(published := e.published + 1, acked := true, record := Record(0, false, false))
        case Failed => after == e
        case StillDown =>
          after == if attempts < 3 then e.(record := Record(attempts, true, false))
                   else e.(record := Record(attempts, true, true), published := e.published + 1, acked := true)
  {
    var calls := Tail(plan.calls);
    AnsweredCalls(plan.calls);
    if e.record == NO_RECORD {
      var e' := e.(provisioned := e.provisioned + 1);
      PublishedAndAcked(e', calls);
      OutageHandled(e', calls);
    } else if e.record.terminal {
      AnsweredCalls(calls);
    } else if e.record.saved {
      PublishedAndAcked(e, calls);
      AnsweredCalls(PublishAndAck(e, calls).calls);
      OutageHandled(e, calls);
    }
  }

  predicate TerminalAtBudget(e: Entry) {
    e.record.terminal ==> e.record.attempts >= RETRY_BUDGET
  }

  lemma RetryKeepsBudget(e: Entry, incident: Incident, calls: seq<Fate>)
    requires TerminalAtBudget(e)
    ensures TerminalAtBudget(RetrySaved(e, incident, calls).e)
  {
    if !e.record.terminal && e.record.saved {
      OutageKeepsBudget(e, calls);
      PublishKeepsRecord(e, calls);
    }
  }

  lemma HandleKeepsBudget(e: Entry, plan: Plan)
    requires TerminalAtBudget(e)
    ensures TerminalAtBudget(Handle(e, plan).e)
  {
    var e', calls := e.(provisioned := e.provisioned + 1), Tail(plan.calls);
    if e.record != NO_RECORD {
      RetryKeepsBudget(e, plan.incident, calls);
    } else if plan.provisioning == JournalDown {
      OutageKeepsBudget(e', calls);
    } else {
      PublishKeepsRecord(e', calls);
    }
  }

  lemma PublishKeepsRecord(e: Entry, calls: seq<Fate>)
    ensures PublishAndAck(e, calls).e.record == e.record
  {
    PublishCallsFacts(e, calls);
  }

  lemma OutageKeepsBudget(e: Entry, calls: seq<Fate>)
    requires TerminalAtBudget(e)
    ensures TerminalAtBudget(HandleOutage(e, calls).e)
  {
    if Head(calls) == Answered {
      SaveKeepsBudget(e.(record := e.record.(attempts := e.record.attempts + 1)), Tail(calls));
    }
  }

  lemma SaveKeepsBudget(e: Entry, calls: seq<Fate>)
    requires TerminalAtBudget(e)
    ensures TerminalAtBudget(SaveIncident(e, calls).e)
  {
    EscalateKeepsAttempts(e.(record := e.record.(saved := true)), Tail(calls));
  }

  /** Below the budget nothing is published or acknowledged on account of an
      outage, however the calls end. */
  lemma SilentBelowBudget(e: Entry, calls: seq<Fate>)
    requires e.record.attempts + 1 < RETRY_BUDGET
    ensures HandleOutage(e, calls).e.published == e.published && HandleOutage(e, calls).e.acked == e.acked
  {
  }

  lemma EscalateKeepsAttempts(e: Entry, calls: seq<Fate>)
    ensures Escalate(e, calls).e.record.attempts == e.record.attempts
  {
    PublishCallsFacts(e, Tail(calls));
  }

  lemma {:induction false} RunKeepsBudget(e: Entry, plans: seq<Plan>)
    requires TerminalAtBudget(e)
    ensures TerminalAtBudget(Run(e, plans))
    decreases |plans|
  {
    if plans != [] && !e.acked {
      HandleKeepsBudget(e, plans[0]);
      RunKeepsBudget(Handle(e, plans[0]).e, plans[1..]);
    }
  }

  /** The terminal failure is for the budget, in every run: it is never marked
      before as many attempts were counted. */
  lemma TerminalOnlyAtBudget(plans: seq<Plan>)
    ensures Run(FRESH, plans).record.terminal ==> Run(FRESH, plans).record.attempts >= 3
  {
    RunKeepsBudget(FRESH, plans);
  }

  /** The outage is bounded: a saved incident that has used up its budget ends
      with the next undisturbed delivery even if the journal stays down, and one
      that has not is left pending with one more attempt. */
  lemma EscalatesWithinBudget(e: Entry, plan: Plan)
    requires Undisturbed(plan.calls) && plan.incident == StillDown
    requires !e.acked && e.record.saved
    ensures Handle(e, plan).e.acked <==> e.record.terminal || e.record.attempts + 1 >= RETRY_BUDGET
    ensures !e.record.terminal ==>
              var given := e.record.attempts + 1 >= RETRY_BUDGET;
              && Handle(e, plan).e.published == e.published + (if given then 1 else 0)
              && Handle(e, plan).e.record == Record(e.record.attempts + 1, true, given)
  {
    UndisturbedDelivery(e, plan);
  }

  // ------------------------------------------------------------ cut anywhere

  /** The calls of a handling, and what each of them changes. */
  datatype Write = Reading | Counting | Saving | Storing | Publishing | Marking | Acking | Forgetting

  function Effect(e: Entry, w: Write): Entry {
    match w
    case Reading => e
    case Counting => e.(record := e.record.(attempts := e.record.attempts + 1))
    case Saving => e.(record := e.record.(saved := true))
    case Storing => e
    case Publishing => e.(published := e.published + 1)
    case Marking => e.(record := e.record.(terminal := true))
    case Acking => e.(acked := true)
    case Forgetting => e.(record := Record(0, false, false))
  }

  /** The calls take effect one by one, up to the first that is not answered. */
  function Carried(e: Entry, writes: seq<Write>, calls: seq<Fate>): Entry
    decreases |writes|
  {
    if writes == [] || Head(calls) == Refused then e
    else if Head(calls) == Unanswered then Effect(e, writes[0])
    else Carried(Effect(e, writes[0]), writes[1..], Tail(calls))
  }

  /** What an outage writes, after `attempts` were counted before it. */
  function OutageScript(record: Record): seq<Write> {
    [Counting, Saving]
    + if record.attempts + 1 < 3 then [] else [Reading] + EscalationScript(record)
  }

  function EscalationScript(record: Record): seq<Write> {
    if record.terminal then [Acking] else [Storing, Publishing, Marking, Acking]
  }

  /** What a delivery writes once it has read the record. */
  function Script(record: Record, plan: Plan): seq<Write> {
    if record == NO_RECORD then
      match plan.provisioning
      case Completed => [Storing, Publishing, Acking]
      case Died => []
      case JournalDown => OutageScript(record)
    else if record.terminal then [Acking]
    else if !record.saved then []
    else
      match plan.incident
      case Recorded => [Storing, Publishing, Acking, Forgetting]
      case Failed => []
      case StillDown => OutageScript(record)
  }

  /** Everything but the count of handlings cut short. */
  function Facts(e: Entry): Entry {
    e.(cutShort := 0)
  }

  lemma CarriedCons(e: Entry, w: Write, rest: seq<Write>, calls: seq<Fate>)
    ensures
      Carried(e, [w] + rest, calls) ==
        match Head(calls)
        case Refused => e
        case Unanswered => Effect(e, w)
        case Answered => Carried(Effect(e, w), rest, Tail(calls))
  {
    assert ([w] + rest)[1..] == rest;
  }

  lemma AckCarried(e: Entry, calls: seq<Fate>, afterPublish: bool)
    ensures Facts(AckCall(e, calls, afterPublish).e) == Facts(Carried(e, [Acking], calls))
  {
    CarriedCons(e, Acking, [], calls);
    assert [Acking] == [Acking] + [];
  }

  lemma PublishCarried(e: Entry, calls: seq<Fate>, rest: seq<Write>)
    ensures
      var d := PublishCalls(e, calls);
      var carried := Carried(e, [Storing, Publishing] + rest, calls);
      Facts(carried) == if d.raised then Facts(d.e) else Facts(Carried(d.e, rest, d.calls))
  {
    CarriedCons(e, Storing, [Publishing] + rest, calls);
    CarriedCons(e, Publishing, rest, Tail(calls));
    assert [Storing, Publishing] + rest == [Storing] + ([Publishing] + rest);
  }

  lemma EscalateCarried(e: Entry, calls: seq<Fate>)
    ensures Facts(Escalate(e, calls).e) == Facts(Carried(e, [Reading] + EscalationScript(e.record), calls))
  {
    CarriedCons(e, Reading, EscalationScript(e.record), calls);
    if e.record.terminal {
      AckCarried(e, Tail(calls), false);
    } else {
      GiveUpCarried(e, Tail(calls));
    }
  }

  lemma GiveUpCarried(e: Entry, calls: seq<Fate>)
    ensures Facts(GiveUp(e, calls).e) == Facts(Carried(e, [Storing, Publishing, Marking, Acking], calls))
  {
    var d := PublishCalls(e, calls);
    assert [Storing, Publishing, Marking, Acking] == [Storing, Publishing] + [Marking, Acking];
    PublishCarried(e, calls, [Marking, Acking]);
    if !d.raised {
      assert [Marking, Acking] == [Marking] + [Acking];
      CarriedCons(d.e, Marking, [Acking], d.calls);
      AckCarried(Marked(d.e), Tail(d.calls), true);
    }
  }

  lemma PublishAndAckCarried(e: Entry, calls: seq<Fate>)
    ensures Facts(PublishAndAck(e, calls).e) == Facts(Carried(e, [Storing, Publishing, Acking], calls))
  {
    var d := PublishCalls(e, calls);
    assert [Storing, Publishing, Acking] == [Storing, Publishing] + [Acking];
    PublishCarried(e, calls, [Acking]);
    if !d.raised {
      AckCarried(d.e, d.calls, true);
    }
  }

  lemma OutageCarried(e: Entry, calls: seq<Fate>)
    ensures Facts(HandleOutage(e, calls).e) == Facts(Carried(e, OutageScript(e.record), calls))
  {
    var last := if e.record.attempts + 1 < 3 then [] else [Reading] + EscalationScript(e.record);
    assert OutageScript(e.record) == [Counting] + ([Saving] + last);
    CarriedCons(e, Counting, [Saving] + last, calls);
    var counted := Effect(e, Counting);
    CarriedCons(counted, Saving, last, Tail(calls));
    var saved := Effect(counted, Saving);
    if e.record.attempts + 1 >= 3 {
      EscalateCarried(saved, Tail(Tail(calls)));
      assert EscalationScript(saved.record) == EscalationScript(e.record);
    }
  }

  lemma RecoveryCarried(e: Entry, calls: seq<Fate>)
    requires e.record.saved && !e.record.terminal
    ensures Facts(RetrySaved(e, Recorded, calls).e) ==
            Facts(Carried(e, [Storing, Publishing, Acking, Forgetting], calls))
  {
    var d := PublishCalls(e, calls);
    assert [Storing, Publishing, Acking, Forgetting] == [Storing, Publishing] + [Acking, Forgetting];
    PublishCarried(e, calls, [Acking, Forgetting]);
    if !d.raised {
      assert [Acking, Forgetting] == [Acking] + [Forgetting] && [Forgetting] == [Forgetting] + [];
      CarriedCons(d.e, Acking, [Forgetting], d.calls);
      CarriedCons(Effect(d.e, Acking), Forgetting, [], Tail(d.calls));
    }
  }

  lemma RetryCarried(e: Entry, plan: Plan, calls: seq<Fate>)
    requires e.record != NO_RECORD
    ensures Facts(RetrySaved(e, plan.incident, calls).e) == Facts(Carried(e, Script(e.record, plan), calls))
  {
    if e.record.terminal {
      AckCarried(e, calls, false);
    } else if e.record.saved && plan.incident == StillDown {
      OutageCarried(e, calls);
    } else if e.record.saved && plan.incident == Recorded {
      RecoveryCarried(e, calls);
    }
  }

  lemma FreshCarried(e: Entry, plan: Plan)
    requires e.record == NO_RECORD && Head(plan.calls) == Answered
    ensures
      var e' := e.(provisioned := e.provisioned + 1);
      Facts(Handle(e, plan).e) == Facts(Carried(e', Script(NO_RECORD, plan), Tail(plan.calls)))
  {
    var e', calls := e.(provisioned := e.provisioned + 1), Tail(plan.calls);
    if plan.provisioning == Completed {
      assert Handle(e, plan) == PublishAndAck(e', calls);
      PublishAndAckCarried(e', calls);
    } else if plan.provisioning == JournalDown {
      assert Handle(e, plan) == HandleOutage(e', calls);
      OutageCarried(e', calls);
    }
  }

  /** However a delivery is disturbed, what it leaves behind is the work of the
      calls that went through: of those it would make undisturbed, in order, up
      to the first that fails, and with that one if the server carried it out. */
  lemma CutAnywhere(e: Entry, plan: Plan)
    ensures
      var e' := if e.record == NO_RECORD then e.(provisioned := e.provisioned + 1) else e;
      Facts(Handle(e, plan).e) ==
        if Head(plan.calls) != Answered then Facts(e)
        else Facts(Carried(e', Script(e.record, plan), Tail(plan.calls)))
  {
    if Head(plan.calls) == Answered {
      if e.record != NO_RECORD {
        RetryCarried(e, plan, Tail(plan.calls));
        assert Handle(e, plan) == RetrySaved(e, plan.incident, Tail(plan.calls));
      } else {
        FreshCarried(e, plan);
      }
    }
  }

  /** A handling counts as cut short only if it published and then raised. */
  predicate RightlyCut(e: Entry, d: Done) {
    && e.cutShort <= d.e.cutShort <= e.cutShort + 1
    && (d.e.cutShort > e.cutShort ==> d.raised && d.e.published == e.published + 1)
  }

  lemma EscalateRightlyCut(e: Entry, calls: seq<Fate>)
    ensures RightlyCut(e, Escalate(e, calls))
  {
    PublishCallsFacts(e, Tail(calls));
  }

  lemma SaveRightlyCut(e: Entry, calls: seq<Fate>)
    ensures RightlyCut(e, SaveIncident(e, calls))
  {
    EscalateRightlyCut(e.(record := e.record.(saved := true)), Tail(calls));
  }

  lemma OutageRightlyCut(e: Entry, calls: seq<Fate>)
    ensures RightlyCut(e, HandleOutage(e, calls))
  {
    var counted := e.(record := e.record.(attempts := e.record.attempts + 1));
    SaveRightlyCut(counted, Tail(calls));
    if Head(calls) == Answered {
      assert HandleOutage(e, calls) == SaveIncident(counted, Tail(calls));
    }
  }

  lemma PublishAndAckRightlyCut(e: Entry, calls: seq<Fate>)
    ensures RightlyCut(e, PublishAndAck(e, calls))
  {
    PublishCallsFacts(e, calls);
  }

  lemma RetryRightlyCut(e: Entry, incident: Incident, calls: seq<Fate>)
    ensures RightlyCut(e, RetrySaved(e, incident, calls))
  {
    if e.record.saved && incident == StillDown {
      OutageRightlyCut(e, calls);
    } else if e.record.saved && incident == Recorded {
      PublishAndAckRightlyCut(e, calls);
    }
  }

  lemma CutShortMeansRaised(e: Entry, plan: Plan)
    ensures
      var d := Handle(e, plan);
      && e.cutShort <= d.e.cutShort <= e.cutShort + 1
      && (d.e.cutShort > e.cutShort ==> d.raised && d.e.published == e.published + 1)
  {
    var e', calls := e.(provisioned := e.provisioned + 1), Tail(plan.calls);
    if e.record != NO_RECORD {
      RetryRightlyCut(e, plan.incident, calls);
    } else if plan.provisioning == JournalDown {
      OutageRightlyCut(e', calls);
    } else if plan.provisioning == Completed {
      PublishAndAckRightlyCut(e', calls);
    }
  }

  // -------------------------------------------------------------------- the code

  class ProvisionerWorker {
    var e: Entry
    var calls: seq<Fate>      // how the remaining Redis calls of this handling end

    constructor (e: Entry)
      ensures this.e == e && calls == []
    {
      this.e := e;
      this.calls := [];
    }

    method Call() returns (fate: Fate)
      modifies `calls
      ensures fate == Head(old(calls)) && calls == Tail(old(calls))
    {
      fate := Head(calls);
      calls := Tail(calls);
    }

    method Ack(afterPublish: bool) returns (raised: bool)
      modifies this
      ensures Done(e, calls, raised) == AckCall(old(e), old(calls), afterPublish)
    {
      var fate := Call();
      if fate != Refused {
        e := e.(acked := true);
      }
      raised := fate != Answered;
      if raised && afterPublish {
        e := Cut(e);
      }
    }

    method Publish() returns (raised: bool)
      modifies this
      ensures Done(e, calls, raised) == PublishCalls(old(e), old(calls))
    {
      var stored := Call();
      if stored != Answered {
        return true;
      }
      var added := Call();
      if added != Refused {
        e := e.(published := e.published + 1);
      }
      if added == Unanswered {
        e := Cut(e);
      }
      raised := added != Answered;
    }

    method PublishThenAck() returns (raised: bool)
      modifies this
      ensures Done(e, calls, raised) == PublishAndAck(old(e), old(calls))
    {
      raised := Publish();
      if raised {
        return;
      }
      raised := Ack(true);
    }

    method HandleIncidentOutage() returns (raised: bool)
      modifies this
      ensures Done(e, calls, raised) == HandleOutage(old(e), old(calls))
    {
      var counted := Call();
      if counted == Refused {
        return true;
      }
      e := e.(record := e.record.(attempts := e.record.attempts + 1));
      var attempts := e.record.attempts;
      if counted == Unanswered {
        return true;
      }
      var written := Call();
      if written == Refused {
        return true;
      }
      e := e.(record := e.record.(saved := true));
      if written == Unanswered {
        return true;
      }
      if attempts < RETRY_BUDGET {
        return false;
      }
      raised := EscalateOutage();
    }

    /** The rest of `_handle_incident_outage`, once the budget is used up. */
    method EscalateOutage() returns (raised: bool)
      modifies this
      ensures Done(e, calls, raised) == Escalate(old(e), old(calls))
    {
      var read := Call();
      if read != Answered {
        return true;
      }
      if e.record.terminal {
        raised := Ack(false);
        return;
      }
      raised := Publish();
      if raised {
        return;
      }
      var marked := Call();
      if marked != Refused {
        e := Marked(e);
      }
      if marked != Answered {
        e := Cut(e);
        return true;
      }
      raised := Ack(true);
    }

    method RetrySavedIncident(incident: Incident) returns (raised: bool)
      modifies this
      ensures Done(e, calls, raised) == RetrySaved(old(e), incident, old(calls))
    {
      if e.record.terminal {
        raised := Ack(false);
        return;
      }
      if !e.record.saved || incident == Failed {
        return true;
      }
      if incident == StillDown {
        raised := HandleIncidentOutage();
        return;
      }
      raised := PublishThenAck();
      if raised {
        return;
      }
      var deleted := Call();
      if deleted != Refused {
        e := e.(record := NO_RECORD);
      }
      raised := deleted != Answered;
    }

    /** The body of the worker loop for one delivery. */
    method HandleDelivery(plan: Plan) returns (raised: bool)
      modifies this
      ensures Done(e, calls, raised) == Handle(old(e), plan)
    {
      calls := plan.calls;
      var read := Call();
      if read != Answered {
        return true;
      }
      if e.record != NO_RECORD {
        raised := RetrySavedIncident(plan.incident);
        return;
      }
      e := e.(provisioned := e.provisioned + 1);
      match plan.provisioning {
        case Died => raised := true;
        case Completed => raised := PublishThenAck();
        case JournalDown => raised := HandleIncidentOutage();
      }
    }
  }
}
