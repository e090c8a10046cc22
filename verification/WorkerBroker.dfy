/** Leases and active turns of the worker broker
    (services/worker-broker/src/main.py): a worker takes its next input from a
    stream, and the record of its active turn is what supervision looks at.

    Requests of one worker are handled one at a time, but any request may stop
    after any of its Redis calls: `calls` says how many of them took effect.
  */
module WorkerBroker {

  datatype Option<T> = None | Some(value: T)

  /** A deadline as the producer wrote it; text that is no number is `Garbled`. */
  datatype Deadline = Garbled | Seconds(seconds: int)

  datatype Payload =
    | Unreadable
    | Data(attempt: Option<string>, request: Option<string>, deadline: Option<Deadline>)

  datatype TurnCheck = NoTurn | Invalid | Starts(attempt: string, request: string, seconds: nat)

  /** `_active_turn`: only the complete protocol makes a turn. */
  function ActiveTurn(payload: Payload): TurnCheck {
    match payload
    case Unreadable => Invalid
    case Data(attempt, request, deadline) =>
      if attempt.None? || deadline.None? || request.None? then NoTurn
      else match deadline.value
        case Garbled => Invalid
        case Seconds(n) => if n <= 0 then Invalid else Starts(attempt.value, request.value, n)
  }

  /** A turn is started by an attempt, a request and a positive deadline, and is
      those; without all three there is none, and a deadline that is no
      positive number, like text that cannot be read, is refused. */
  lemma TurnIsThePayloads(attempt: string, request: string, seconds: int)
    ensures
      ActiveTurn(Data(Some(attempt), Some(request), Some(Seconds(seconds)))) ==
        if seconds > 0 then Starts(attempt, request, seconds) else Invalid
    ensures ActiveTurn(Data(Some(attempt), Some(request), Some(Garbled))) == Invalid == ActiveTurn(Unreadable)
    ensures forall a, r, d :: ActiveTurn(Data(a, r, d)) == NoTurn <==> a == None || r == None || d == None
  {
  }

  type Lease = int

  datatype Turn = Turn(lease: Lease, attempt: string, request: string, seconds: nat)

  /** Input entries have the ids 1, 2, ..., of which the first `delivered` were
      handed out; `outputs` lists, for each accepted output, the lease it named.
    */
  datatype State = State(
    input: seq<Payload>,
    delivered: nat,
    pending: set<Lease>,
    outputs: seq<Lease>,
    turn: Option<Turn>
  )

  datatype Request =
    | Produce(payload: Payload)
    | LeaseInput(calls: nat)
    | SubmitOutput(lease: Lease, calls: nat)
    | Unregister

  predicate Valid(s: State) {
    && s.delivered <= |s.input|
    && (forall id :: id in s.pending ==> 1 <= id <= s.delivered)
    && (s.turn.Some? ==> 1 <= s.turn.value.lease <= s.delivered)
  }

  function Leased(s: State, calls: nat): State
    requires Valid(s)
  {
    if calls == 0 || s.delivered == |s.input| then s
    else
      var id := s.delivered + 1;
      var read := s.(delivered := id, pending := s.pending + {id});
      match ActiveTurn(s.input[id - 1])
      case Starts(attempt, request, seconds) =>
        if calls == 1 then read else read.(turn := Some(Turn(id, attempt, request, seconds)))
      case _ => read
  }

  function Submitted(s: State, lease: Lease, calls: nat): State {
    var accepted := if calls >= 1 then s.(outputs := s.outputs + [lease]) else s;
    var acked := if calls >= 2 then accepted.(pending := s.pending - {lease}) else accepted;
    if calls >= 4 && s.turn.Some? && s.turn.value.lease == lease then acked.(turn := None) else acked
  }

  function Apply(s: State, r: Request): (s': State)
    requires Valid(s)
    ensures Valid(s')
  {
    match r
    case Produce(payload) => s.(input := s.input + [payload])
    case LeaseInput(calls) => Leased(s, calls)
    case SubmitOutput(lease, calls) => Submitted(s, lease, calls)
    case Unregister => s.(turn := None)
  }

  function ApplyAll(s: State, requests: seq<Request>): (s': State)
    requires Valid(s)
    ensures Valid(s')
    decreases |requests|
  {
    if requests == [] then s else ApplyAll(Apply(s, requests[0]), requests[1..])
  }

  const START: State := State([], 0, {}, [], None)

  // ---------------------------------------------------------------------- safety

  /** Every lease that is no longer pending was answered, and the active turn is
      the one its input entry describes.
    */
  predicate Kept(s: State) {
    && Valid(s)
    && (forall id :: 1 <= id <= s.delivered ==> id in s.pending || id in s.outputs)
    && (s.turn.Some? ==>
          var t := s.turn.value;
          ActiveTurn(s.input[t.lease - 1]) == Starts(t.attempt, t.request, t.seconds))
  }

  lemma RequestKeeps(s: State, r: Request)
    requires Kept(s)
    ensures Kept(Apply(s, r))
  {
    var s' := Apply(s, r);
    if r.SubmitOutput? && r.calls >= 1 {
      assert s'.outputs == s.outputs + [r.lease];
      assert s'.outputs[|s.outputs|] == r.lease;
      assert forall id :: id in s.outputs ==> id in s'.outputs;
    }
  }

  lemma {:induction false} RunKeeps(s: State, requests: seq<Request>)
    requires Kept(s)
    ensures Kept(ApplyAll(s, requests))
    decreases |requests|
  {
    if requests != [] {
      RequestKeeps(s, requests[0]);
      RunKeeps(Apply(s, requests[0]), requests[1..]);
    }
  }

  /** In every run, with every request cut short anywhere: an input that was
      handed out leaves the pending list only after an output for it was
      accepted, and the turn that supervision sees is the delivered input's own.
    */
  lemma AnsweredBeforeAcked(requests: seq<Request>)
    ensures
      var s := ApplyAll(START, requests);
      && s.delivered <= |s.input|
      && (forall id :: id in s.pending ==> 1 <= id <= s.delivered)
      && (forall id :: 1 <= id <= s.delivered ==> id in s.pending || id in s.outputs)
      && (s.turn.Some? ==>
            var t := s.turn.value;
            && 1 <= t.lease <= s.delivered
            && ActiveTurn(s.input[t.lease - 1]) == Starts(t.attempt, t.request, t.seconds))
  {
    RunKeeps(START, requests);
  }

  /** What each request does when nothing cuts it short: an input joins the
      end, the next one is handed out and its turn recorded, an answer is kept,
      acknowledged, and ends its own turn only. */
  lemma RequestsExactly(s: State, payload: Payload, lease: Lease)
    requires Valid(s)
    ensures Apply(s, Produce(payload)) == s.(input := s.input + [payload])
    ensures
      Apply(s, LeaseInput(2)) ==
        if s.delivered == |s.input| then s
        else
          var next := s.delivered + 1;
          var check := ActiveTurn(s.input[s.delivered]);
          s.(delivered := next, pending := s.pending + {next},
             turn := if check.Starts? then Some(Turn(next, check.attempt, check.request, check.seconds)) else s.turn)
    ensures
      Apply(s, SubmitOutput(lease, 4)) ==
        s.(outputs := s.outputs + [lease], pending := s.pending - {lease},
           turn := if s.turn.Some? && s.turn.value.lease == lease then None else s.turn)
    ensures Apply(s, Unregister) == s.(turn := None)
    ensures Complete(Produce(payload)) && Complete(LeaseInput(2)) && Complete(SubmitOutput(lease, 4))
  {
  }

  /** Cut short, a request has done the first of these things and not the rest. */
  lemma RequestsCutShort(s: State, lease: Lease)
    requires Valid(s)
    ensures Apply(s, LeaseInput(0)) == s && Apply(s, SubmitOutput(lease, 0)) == s
    ensures
      s.delivered < |s.input| ==>
        Apply(s, LeaseInput(1)) == s.(delivered := s.delivered + 1, pending := s.pending + {s.delivered + 1})
    ensures Apply(s, SubmitOutput(lease, 1)) == s.(outputs := s.outputs + [lease])
    ensures
      var acked := s.(outputs := s.outputs + [lease], pending := s.pending - {lease});
      Apply(s, SubmitOutput(lease, 2)) == Apply(s, SubmitOutput(lease, 3)) == acked
  {
  }

  // --------------------------------------------------------------------- fencing

  /** Supervision sees the turn of this lease. */
  predicate Watched(s: State, lease: Lease) {
    s.turn.Some? && s.turn.value.lease == lease
  }

  /** A lease whose turn was not recorded is never supervised afterwards: the
      broker hands out only inputs nobody has seen.
    */
  lemma {:induction false} MissedTurnStaysMissed(s: State, requests: seq<Request>, missed: int)
    requires Valid(s)
    requires missed <= s.delivered
    requires !Watched(s, missed)
    ensures !Watched(ApplyAll(s, requests), missed)
    decreases |requests|
  {
    if requests != [] {
      MissedTurnStaysMissed(Apply(s, requests[0]), requests[1..], missed);
    }
  }

  /** The request replaces or ends the active turn of a lease: it answers that
      lease and gets as far as the comparison, it hands out and records a newer
      turn, or it removes the worker. */
  predicate Ends(s: State, r: Request, lease: Lease)
    requires Valid(s)
  {
    match r
    case Produce(_) => false
    case LeaseInput(calls) => calls >= 2 && s.delivered < |s.input| && ActiveTurn(s.input[s.delivered]).Starts?
    case SubmitOutput(answered, calls) => calls >= 4 && answered == lease
    case Unregister => true
  }

  /** Some request of the run ends the turn. */
  predicate EndsWithin(s: State, requests: seq<Request>, lease: Lease)
    requires Valid(s)
    decreases |requests|
  {
    requests != [] && (Ends(s, requests[0], lease) || EndsWithin(Apply(s, requests[0]), requests[1..], lease))
  }

  /** A turn outlives everything else: answers to other leases, late ones
      included, inputs that start no turn, refused inputs, and requests that
      are cut short. Once a request ended it, it never comes back. */
  lemma {:induction false} TurnIsFenced(s: State, requests: seq<Request>)
    requires Valid(s) && s.turn.Some?
    ensures ApplyAll(s, requests).turn == s.turn <==> !EndsWithin(s, requests, s.turn.value.lease)
    decreases |requests|
  {
    if requests != [] {
      var s' := Apply(s, requests[0]);
      if Ends(s, requests[0], s.turn.value.lease) {
        assert !Watched(s', s.turn.value.lease);
        MissedTurnStaysMissed(s', requests[1..], s.turn.value.lease);
      } else {
        TurnIsFenced(s', requests[1..]);
      }
    }
  }

  /** The request hands out this lease and records its turn. */
  predicate Records(s: State, r: Request, lease: Lease)
    requires Valid(s)
  {
    && r.LeaseInput? && r.calls >= 2 && s.delivered < |s.input| && lease == s.delivered + 1
    && ActiveTurn(s.input[s.delivered]).Starts?
  }

  /** Request i recorded the lease, and no later request of the run ended it. */
  predicate StandsSince(s: State, requests: seq<Request>, lease: Lease, i: nat)
    requires Valid(s) && i < |requests|
  {
    && Records(ApplyAll(s, requests[..i]), requests[i], lease)
    && !EndsWithin(ApplyAll(s, requests[..i + 1]), requests[i + 1..], lease)
  }

  lemma StandsLater(s: State, requests: seq<Request>, lease: Lease, i: nat)
    requires Valid(s) && i + 1 < |requests|
    ensures StandsSince(s, requests, lease, i + 1) <==> StandsSince(Apply(s, requests[0]), requests[1..], lease, i)
  {
    assert requests[..i + 1][1..] == requests[1..][..i];
    assert requests[..i + 2][1..] == requests[1..][..i + 1];
    assert requests[i + 2..] == requests[1..][i + 1..];
  }

  lemma StandsNow(s: State, requests: seq<Request>, lease: Lease)
    requires Valid(s) && requests != []
    ensures StandsSince(s, requests, lease, 0) <==>
              Records(s, requests[0], lease) && !EndsWithin(Apply(s, requests[0]), requests[1..], lease)
  {
    assert requests[..0] == [];
    assert requests[..0 + 1] == [requests[0]] && [requests[0]][1..] == [];
    assert ApplyAll(s, [requests[0]]) == Apply(s, requests[0]);
  }

  lemma OneRequestWatched(s: State, r: Request, lease: Lease)
    requires Valid(s)
    ensures Watched(Apply(s, r), lease) <==> Records(s, r, lease) || (Watched(s, lease) && !Ends(s, r, lease))
    ensures !(Records(s, r, lease) && Watched(s, lease))
  {
  }

  lemma {:induction false} WatchedFrom(s: State, requests: seq<Request>, lease: Lease)
    requires Valid(s)
    ensures
      Watched(ApplyAll(s, requests), lease) <==>
        || (Watched(s, lease) && !EndsWithin(s, requests, lease))
        || exists i :: 0 <= i < |requests| && StandsSince(s, requests, lease, i)
    decreases |requests|
  {
    if requests != [] {
      var s', rest := Apply(s, requests[0]), requests[1..];
      OneRequestWatched(s, requests[0], lease);
      WatchedFrom(s', rest, lease);
      StandsNow(s, requests, lease);
      forall i | 0 <= i < |rest| ensures StandsSince(s, requests, lease, i + 1) <==> StandsSince(s', rest, lease, i) {
        StandsLater(s, requests, lease, i);
      }
      LaterOrNow(s, requests, lease);
    }
  }

  lemma LaterOrNow(s: State, requests: seq<Request>, lease: Lease)
    requires Valid(s) && requests != []
    requires forall i :: 0 <= i < |requests[1..]| ==>
               (StandsSince(s, requests, lease, i + 1) <==> StandsSince(Apply(s, requests[0]), requests[1..], lease, i))
    ensures
      (exists i :: 0 <= i < |requests| && StandsSince(s, requests, lease, i)) <==>
        || StandsSince(s, requests, lease, 0)
        || exists i :: 0 <= i < |requests[1..]| && StandsSince(Apply(s, requests[0]), requests[1..], lease, i)
  {
    forall i | 0 < i < |requests| && StandsSince(s, requests, lease, i)
      ensures StandsSince(Apply(s, requests[0]), requests[1..], lease, i - 1)
    {
      assert StandsSince(s, requests, lease, (i - 1) + 1);
    }
    forall i | 0 <= i < |requests[1..]| && StandsSince(Apply(s, requests[0]), requests[1..], lease, i)
      ensures StandsSince(s, requests, lease, i + 1)
    {
    }
  }

  /** The law of supervision, for every run and requests cut short anywhere: a
      lease is watched if and only if the request that handed it out recorded
      its turn and no request since has ended it. */
  lemma WatchedExactly(requests: seq<Request>, lease: Lease)
    ensures
      Watched(ApplyAll(START, requests), lease) <==>
        exists i :: 0 <= i < |requests| && StandsSince(START, requests, lease, i)
  {
    WatchedFrom(START, requests, lease);
  }

  /** The newest delivered input that starts a turn. */
  function LatestTurn(input: seq<Payload>, delivered: nat): (latest: Option<Lease>)
    requires delivered <= |input|
    ensures latest.Some? ==> 1 <= latest.value <= delivered
  {
    if delivered == 0 then None
    else if ActiveTurn(input[delivered - 1]).Starts? then Some(delivered)
    else LatestTurn(input, delivered - 1)
  }

  lemma {:induction false} LatestOfMore(input: seq<Payload>, payload: Payload, delivered: nat)
    requires delivered <= |input|
    ensures LatestTurn(input + [payload], delivered) == LatestTurn(input, delivered)
  {
    if delivered > 0 {
      LatestOfMore(input, payload, delivered - 1);
    }
  }

  predicate Complete(r: Request) {
    match r
    case Produce(_) => true
    case LeaseInput(calls) => calls >= 2
    case SubmitOutput(_, calls) => calls >= 4
    case Unregister => false
  }

  /** The active turn is the newest one handed out, while it is unanswered. */
  predicate Supervised(s: State)
    requires Valid(s)
  {
    var latest := LatestTurn(s.input, s.delivered);
    if latest.Some? && latest.value in s.pending then s.turn.Some? && s.turn.value.lease == latest.value
    else s.turn == None
  }

  lemma CompleteRequestSupervises(s: State, r: Request)
    requires Kept(s) && Supervised(s) && Complete(r)
    ensures Supervised(Apply(s, r))
  {
    if r.Produce? {
      LatestOfMore(s.input, r.payload, s.delivered);
    }
  }

  /** When no request is cut short, there is an active turn exactly while the
      newest turn handed out is still pending, and it is that turn.
    */
  lemma {:induction false} SupervisionIsExact(s: State, requests: seq<Request>)
    requires Kept(s) && Supervised(s)
    requires forall k :: 0 <= k < |requests| ==> Complete(requests[k])
    ensures Supervised(ApplyAll(s, requests))
    decreases |requests|
  {
    if requests != [] {
      CompleteRequestSupervises(s, requests[0]);
      RequestKeeps(s, requests[0]);
      SupervisionIsExact(Apply(s, requests[0]), requests[1..]);
    }
  }

  /** A broker that stops between handing out a turn and recording it leaves a
      pending turn that no later request brings under supervision; the worker
      can still answer it.
    */
  lemma CrashBeforeRecordIsMissed(s: State, requests: seq<Request>)
    requires Valid(s) && s.delivered < |s.input|
    requires ActiveTurn(s.input[s.delivered]).Starts?
    ensures s.delivered + 1 in Apply(s, LeaseInput(1)).pending
    ensures !Watched(ApplyAll(Apply(s, LeaseInput(1)), requests), s.delivered + 1)
    ensures var answered := Apply(Apply(s, LeaseInput(1)), SubmitOutput(s.delivered + 1, 2));
      s.delivered + 1 in answered.outputs && s.delivered + 1 !in answered.pending
  {
    var lease, stopped := s.delivered + 1, Apply(s, LeaseInput(1));
    MissedTurnStaysMissed(stopped, requests, lease);
    assert Apply(stopped, SubmitOutput(lease, 2)).outputs[|s.outputs|] == lease;
  }

  // -------------------------------------------------------------------- the code

  datatype Reply = NoContent | Unprocessable | Granted(lease: Lease)

  /** The broker's Redis data of one worker. */
  class Broker {
    var input: seq<Payload>
    var delivered: nat
    var pending: set<Lease>
    var outputs: seq<Lease>
    var turn: Option<Turn>

    function Contents(): State
      reads this
    {
      State(input, delivered, pending, outputs, turn)
    }

    constructor ()
      ensures Contents() == START && Kept(Contents())
    {
      input, delivered, pending, outputs, turn := [], 0, {}, [], None;
    }

    /** `lease_input`, stopped before its Redis call number `calls` (counted from 0). */
    method LeaseNext(calls: nat) returns (reply: Reply)
      requires Valid(Contents())
      modifies this
      ensures Contents() == Apply(old(Contents()), LeaseInput(calls))
      ensures calls >= 2 ==>
        (reply.Granted? <==> && old(delivered) < |old(input)|
                             && !ActiveTurn(old(input)[old(delivered)]).Invalid?)
      ensures reply.Granted? ==> reply.lease == delivered == old(delivered) + 1
    {
      if calls == 0 || delivered == |input| {
        return NoContent;
      }
      delivered := delivered + 1;
      pending := pending + {delivered};
      var check := ActiveTurn(input[delivered - 1]);
      if check.Invalid? {
        return Unprocessable;
      }
      if check.Starts? && calls >= 2 {
        turn := Some(Turn(delivered, check.attempt, check.request, check.seconds));
      }
      return Granted(delivered);
    }

    /** `submit_output` of a readable result, stopped before call number `calls`. */
    method Submit(lease: Lease, calls: nat)
      requires Valid(Contents())
      modifies this
      ensures Contents() == Apply(old(Contents()), SubmitOutput(lease, calls))
    {
      if calls == 0 { return; }
      outputs := outputs + [lease];
      if calls == 1 { return; }
      pending := pending - {lease};
      if calls <= 3 { return; }
      if turn.Some? && turn.value.lease == lease {
        turn := None;
      }
    }
  }
}
