/** `ensure_project_allocations` of services/langgraph/src/allocations.py for one
    repository: get or create its placement, keep what is slots, allocate
    what is missing, with any API call failing at any point. */
module PortAllocation {
  import Servers = ServerAllocation

  // --------------------------------------------------------------------- the API

  datatype Option<T> = None | Some(value: T)

  /** A server handle and a port on it: unique in the database. */
  datatype Slot = Slot(server: string, port: nat)

  datatype Allocation = Allocation(service: string, app: nat)

  datatype App = App(id: nat, server: string)

  /** The repository's application, and every port allocation of the platform. */
  datatype Db = Db(app: Option<App>, ports: map<Slot, Allocation>)

  /** How one API call ends. */
  datatype Fate = Answered | Refused | Unanswered

  predicate Owns(db: Db, slot: Slot, app: nat) {
    slot in db.ports && db.ports[slot].app == app
  }

  /** What `get_application_allocations` lists. */
  function AllocationsOf(db: Db, app: nat): map<Slot, string> {
    map slot | slot in db.ports && db.ports[slot].app == app :: db.ports[slot].service
  }

  /** No module of the application has two ports. */
  ghost predicate OnePortEach(db: Db, app: nat) {
    forall a, b :: Owns(db, a, app) && Owns(db, b, app) && db.ports[a].service == db.ports[b].service ==> a == b
  }

  ghost predicate Consistent(db: Db) {
    db.app.Some? ==> OnePortEach(db, db.app.value.id)
  }

  // --------------------------------------------------------------- specification

  datatype Result = Returned(slots: map<Slot, string>) | Raised

  /** Allocations only ever grow. */
  predicate Grows(before: Db, after: Db) {
    forall s :: s in before.ports ==> s in after.ports && after.ports[s] == before.ports[s]
  }

  predicate HasModule(db: Db, app: nat, m: string) {
    exists s :: s in db.ports && db.ports[s].app == app && db.ports[s].service == m
  }

  /** What one call may have done, whether it returned or raised. */
  ghost predicate EnsureStep(before: Db, after: Db, modules: seq<string>, r: Result) {
    && Grows(before, after)
    && (before.app.Some? ==> after.app == before.app)
    && (after.app.None? ==> after == before && r.Raised?)
    && (after.app.Some? ==>
          var app := after.app.value;
          && (before.app.None? ==> forall s :: s in before.ports ==> before.ports[s].app != app.id)
          && (forall s :: s in after.ports && s !in before.ports ==>
                && after.ports[s].app == app.id && s.server == app.server
                && after.ports[s].service in modules
                && !HasModule(before, app.id, after.ports[s].service))
          && (OnePortEach(before, app.id) ==> OnePortEach(after, app.id))
          && (r.Returned? ==>
                && r.slots == AllocationsOf(after, app.id)
                && forall m :: m in modules ==> HasModule(after, app.id, m)))
  }

  /** Anything other repositories do to the same tables: this repository's own
      allocations stay as they are. */
  predicate OthersStep(before: Db, after: Db) {
    && after.app == before.app
    && (before.app.Some? ==>
          AllocationsOf(after, before.app.value.id) == AllocationsOf(before, before.app.value.id))
  }

  // -------------------------------------------------------------------- theorems

  /** One step in the life of the tables: a call for this repository, or others. */
  datatype Step = Call(modules: seq<string>, result: Result) | Others

  ghost predicate Steps(before: Db, step: Step, after: Db) {
    match step
    case Call(modules, result) => EnsureStep(before, after, modules, result)
    case Others => OthersStep(before, after)
  }

  /** A history: one more database than steps. */
  ghost predicate History(dbs: seq<Db>, steps: seq<Step>) {
    && |dbs| == |steps| + 1
    && forall i :: 0 <= i < |steps| ==> Steps(dbs[i], steps[i], dbs[i + 1])
  }

  lemma StepKeepsConsistent(before: Db, step: Step, after: Db)
    requires Consistent(before) && Steps(before, step, after)
    ensures Consistent(after)
    ensures before.app.Some? ==> after.app == before.app
  {
    if after.app.Some? {
      var id := after.app.value.id;
      match step {
        case Call(modules, result) =>
          if before.app.None? {
            assert OnePortEach(before, id);
          }
        case Others =>
          forall a, b | Owns(after, a, id) && Owns(after, b, id) && after.ports[a].service == after.ports[b].service
            ensures a == b
          {
            assert a in AllocationsOf(before, id) && b in AllocationsOf(before, id);
            assert Owns(before, a, id) && Owns(before, b, id);
            assert before.ports[a].service == AllocationsOf(after, id)[a];
            assert before.ports[b].service == AllocationsOf(after, id)[b];
          }
      }
    }
  }

  lemma {:induction false} HistoryKeepsConsistent(dbs: seq<Db>, steps: seq<Step>, i: nat)
    requires History(dbs, steps) && Consistent(dbs[0]) && i <= |steps|
    ensures Consistent(dbs[i])
    ensures dbs[0].app.Some? ==> dbs[i].app == dbs[0].app
  {
    if i > 0 {
      HistoryKeepsConsistent(dbs, steps, i - 1);
      StepKeepsConsistent(dbs[i - 1], steps[i - 1], dbs[i]);
    }
  }

  /** Convergence: whatever calls were made before, and wherever they failed, a
      call that returns gives every requested module exactly one port. */
  lemma ReturningCallIsExact(dbs: seq<Db>, steps: seq<Step>, i: nat, m: string)
    requires History(dbs, steps) && Consistent(dbs[0]) && i < |steps|
    requires steps[i].Call? && steps[i].result.Returned? && m in steps[i].modules
    ensures
      var slots := steps[i].result.slots;
      exists s :: s in slots && slots[s] == m
                  && forall t :: t in slots && slots[t] == m ==> t == s
  {
    HistoryKeepsConsistent(dbs, steps, i + 1);
    var after := dbs[i + 1];
    var id := after.app.value.id;
    assert Steps(dbs[i], steps[i], after);
    assert HasModule(after, id, m);
    var s :| s in after.ports && after.ports[s].app == id && after.ports[s].service == m;
    var slots := steps[i].result.slots;
    assert s in slots && slots[s] == m;
    forall t | t in slots && slots[t] == m ensures t == s {
      assert Owns(after, t, id) && Owns(after, s, id);
    }
  }

  lemma {:induction false} NothingMoreAllocated(dbs: seq<Db>, steps: seq<Step>, modules: seq<string>, i: nat)
    requires History(dbs, steps) && i <= |steps|
    requires dbs[0].app.Some? && forall m :: m in modules ==> HasModule(dbs[0], dbs[0].app.value.id, m)
    requires forall k :: 0 <= k < i && steps[k].Call? ==> forall m :: m in steps[k].modules ==> m in modules
    ensures dbs[i].app == dbs[0].app
    ensures AllocationsOf(dbs[i], dbs[0].app.value.id) == AllocationsOf(dbs[0], dbs[0].app.value.id)
  {
    if i > 0 {
      NothingMoreAllocated(dbs, steps, modules, i - 1);
      var id := dbs[0].app.value.id;
      var before, after := dbs[i - 1], dbs[i];
      assert Steps(before, steps[i - 1], after);
      forall m | m in modules ensures HasModule(before, id, m) {
        var s :| s in dbs[0].ports && dbs[0].ports[s].app == id && dbs[0].ports[s].service == m;
        assert s in AllocationsOf(dbs[0], id);
        assert s in AllocationsOf(before, id) && before.ports[s].service == m;
      }
      assert AllocationsOf(after, id) == AllocationsOf(before, id) by {
        assert steps[i - 1].Call? ==> forall s :: s in after.ports ==> s in before.ports;
      }
    }
  }

  /** Stability: after a call has returned, repeating it, with failures and other
      repositories' work in between, allocates nothing and returns the same. */
  lemma RepeatedCallIsIdle(dbs: seq<Db>, steps: seq<Step>)
    requires History(dbs, steps) && |steps| >= 2
    requires steps[0].Call? && steps[0].result.Returned?
    requires forall k :: 0 <= k < |steps| && steps[k].Call? ==> steps[k].modules == steps[0].modules
    requires steps[|steps| - 1].Call? && steps[|steps| - 1].result.Returned?
    ensures steps[|steps| - 1].result == steps[0].result
  {
    var modules := steps[0].modules;
    var dbs', steps' := dbs[1..], steps[1..];
    assert Steps(dbs[0], steps[0], dbs[1]);
    forall i | 0 <= i < |steps'| ensures Steps(dbs'[i], steps'[i], dbs'[i + 1]) {
      assert Steps(dbs[i + 1], steps[i + 1], dbs[i + 2]);
    }
    NothingMoreAllocated(dbs', steps', modules, |steps'|);
    assert Steps(dbs[|steps| - 1], steps[|steps| - 1], dbs[|steps|]);
  }

  /** What a call adds: a port of the application's own server, for a module that
      was asked for and had none, to this application and nobody else. */
  lemma NewPortsBelong(dbs: seq<Db>, steps: seq<Step>, i: nat, slot: Slot)
    requires History(dbs, steps) && i < |steps| && steps[i].Call?
    requires slot in dbs[i + 1].ports && slot !in dbs[i].ports
    ensures
      var allocation := dbs[i + 1].ports[slot];
      && dbs[i + 1].app == Some(App(allocation.app, slot.server))
      && allocation.service in steps[i].modules
      && forall s :: s in dbs[i].ports && dbs[i].ports[s].app == allocation.app ==>
           dbs[i].ports[s].service != allocation.service
    ensures forall s :: s in dbs[i].ports ==> s in dbs[i + 1].ports && dbs[i + 1].ports[s] == dbs[i].ports[s]
  {
    assert Steps(dbs[i], steps[i], dbs[i + 1]);
  }

  // ------------------------------------------------------------ keys of the result

  /** Decimal notation, most significant digit first. */
  function Decimal(n: nat): (text: string)
    ensures text != [] && forall i :: 0 <= i < |text| ==> '0' <= text[i] <= '9'
  {
    var digit := ['0' + (n % 10) as char];
    if n < 10 then digit else Decimal(n / 10) + digit
  }

  lemma {:induction false} DecimalInjective(a: nat, b: nat)
    requires Decimal(a) == Decimal(b)
    ensures a == b
  {
    var da, db := Decimal(a), Decimal(b);
    assert da[|da| - 1] == '0' + (a % 10) as char && db[|db| - 1] == '0' + (b % 10) as char;
    if a >= 10 && b >= 10 {
      assert da[..|da| - 1] == Decimal(a / 10) && db[..|db| - 1] == Decimal(b / 10);
      DecimalInjective(a / 10, b / 10);
    } else if a >= 10 || b >= 10 {
      assert |da| == |db|;
    }
  }

  /** The key the caller sees: "handle:port". */
  function KeyText(slot: Slot): string {
    slot.server + ":" + Decimal(slot.port)
  }

  lemma LastColon(slot: Slot)
    ensures KeyText(slot)[|slot.server|] == ':'
    ensures forall i :: |slot.server| < i < |KeyText(slot)| ==> KeyText(slot)[i] != ':'
    ensures KeyText(slot)[..|slot.server|] == slot.server
    ensures KeyText(slot)[|slot.server| + 1..] == Decimal(slot.port)
  {
    var digits := Decimal(slot.port);
    forall i | |slot.server| < i < |KeyText(slot)| ensures KeyText(slot)[i] != ':' {
      assert KeyText(slot)[i] == digits[i - |slot.server| - 1];
    }
  }

  /** Different slots have different keys, even if a handle contains a colon. */
  lemma KeyTextInjective(a: Slot, b: Slot)
    requires KeyText(a) == KeyText(b)
    ensures a == b
  {
    LastColon(a);
    LastColon(b);
    assert |a.server| == |b.server|;
    DecimalInjective(a.port, b.port);
  }

  // --------------------------------------------------------------------- the code

  /** Where the search for a free port starts. */
  const FIRST_PORT: nat := 8000

  class AllocationApi {
    var db: Db
    var calls: seq<Fate>     // how the remaining API calls end; past the end, refused

    constructor (db: Db, calls: seq<Fate>)
      ensures this.db == db && this.calls == calls
    {
      this.db := db;
      this.calls := calls;
    }

    method Call() returns (fate: Fate)
      modifies `calls
      ensures fate == (if old(calls) == [] then Refused else old(calls)[0])
      ensures calls == if old(calls) == [] then [] else old(calls)[1..]
    {
      fate := if calls == [] then Refused else calls[0];
      calls := if calls == [] then [] else calls[1..];
    }

    /** The next free port of a server, from the platform's first one on. */
    method NextFreePort(server: string, first: nat) returns (port: nat)
      ensures port >= first && Slot(server, port) !in db.ports
      ensures forall q :: first <= q < port ==> Slot(server, q) in db.ports
    {
      port := first;
      ghost var above := set s | s in db.ports.Keys && s.port >= first;
      while Slot(server, port) in db.ports
        invariant port >= first
        invariant forall q :: first <= q < port ==> Slot(server, q) in db.ports
        invariant above == set s | s in db.ports.Keys && s.port >= port
        decreases above
      {
        assert Slot(server, port) in above;
        above := set s | s in db.ports.Keys && s.port >= port + 1;
        port := port + 1;
      }
    }

    method AllocateNextPort(server: string, service: string, app: nat) returns (ok: bool, port: nat)
      modifies this
      ensures db.app == old(db).app
      ensures db == old(db) || (Slot(server, port) !in old(db).ports
                && db.ports == old(db).ports[Slot(server, port) := Allocation(service, app)])
      ensures port >= 8000 && forall q :: 8000 <= q < port ==> Slot(server, q) in old(db).ports
      ensures ok ==> db != old(db)
      ensures ok <==> old(calls) != [] && old(calls)[0] == Answered
      ensures calls == if old(calls) == [] then [] else old(calls)[1..]
    {
      port := NextFreePort(server, FIRST_PORT);
      var fate := Call();
      if fate != Refused {
        db := db.(ports := db.ports[Slot(server, port) := Allocation(service, app)]);
      }
      ok := fate == Answered;
    }
  }

  /** One more port for module `m`. */
  ghost predicate Extends(mid: Db, after: Db, m: string, slot: Slot, id: nat) {
    && slot !in mid.ports
    && after == mid.(ports := mid.ports[slot := Allocation(m, id)])
  }

  lemma ModulesExtended(mid: Db, after: Db, m: string, slot: Slot, id: nat, k: string)
    requires Extends(mid, after, m, slot, id)
    ensures HasModule(after, id, k) <==> HasModule(mid, id, k) || k == m
  {
    if HasModule(mid, id, k) {
      var s :| s in mid.ports && mid.ports[s].app == id && mid.ports[s].service == k;
      assert s in after.ports && after.ports[s] == mid.ports[s];
    }
    assert slot in after.ports && after.ports[slot].app == id && after.ports[slot].service == m;
  }

  lemma OnePortExtended(mid: Db, after: Db, m: string, slot: Slot, id: nat)
    requires Extends(mid, after, m, slot, id) && !HasModule(mid, id, m) && OnePortEach(mid, id)
    ensures OnePortEach(after, id)
  {
    assert forall s :: Owns(mid, s, id) ==> mid.ports[s].service != m;
    assert forall s :: Owns(after, s, id) <==> s == slot || Owns(mid, s, id);
  }

  lemma ModulesKept(before: Db, mid: Db, id: nat, k: string)
    requires forall s :: s in before.ports ==> s in mid.ports && mid.ports[s] == before.ports[s]
    requires HasModule(before, id, k)
    ensures HasModule(mid, id, k)
  {
    var s :| s in before.ports && before.ports[s].app == id && before.ports[s].service == k;
    assert s in mid.ports && mid.ports[s] == before.ports[s];
  }

  lemma ExtendedStep(before: Db, mid: Db, after: Db, modules: seq<string>, m: string, slot: Slot)
    requires EnsureStep(before, mid, modules, Raised) && mid.app.Some?
    requires slot.server == mid.app.value.server && Extends(mid, after, m, slot, mid.app.value.id)
    requires m in modules && !HasModule(mid, mid.app.value.id, m)
    ensures EnsureStep(before, after, modules, Raised)
  {
    var id := mid.app.value.id;
    assert slot !in before.ports;
    assert !HasModule(before, id, m) by {
      if HasModule(before, id, m) {
        ModulesKept(before, mid, id, m);
      }
    }
    if OnePortEach(before, id) {
      OnePortExtended(mid, after, m, slot, id);
    }
  }

  lemma ExtendedListing(mid: Db, after: Db, m: string, slot: Slot, id: nat)
    requires Extends(mid, after, m, slot, id)
    ensures AllocationsOf(after, id) == AllocationsOf(mid, id)[slot := m]
    ensures forall k :: HasModule(after, id, k) <==> HasModule(mid, id, k) || k == m
  {
    forall k ensures HasModule(after, id, k) <==> HasModule(mid, id, k) || k == m {
      ModulesExtended(mid, after, m, slot, id, k);
    }
  }

  ghost predicate AllAnswered(calls: seq<Fate>, n: nat) {
    |calls| >= n && forall i :: 0 <= i < |calls| ==> calls[i] == Answered
  }

  /** What the API reports about the servers, and the id it would give a new
      application. `host` is the server the repository is bound to, if it is. */
  datatype Surroundings = Surroundings(
    fleet: Servers.Fleet, host: Servers.Server, request: Servers.Request, newId: nat)

  /** The report is about this database. */
  predicate Describes(at: Surroundings, db: Db) {
    && (db.app.Some? ==> at.host.handle == db.app.value.server)
    && (db.app.None? ==> forall s :: s in db.ports ==> db.ports[s].app != at.newId)
  }

  /** A server may take the application: the host it is bound to if that is still
      managed, operational and completely provisioned, or else some server with
      room for it. */
  ghost predicate HasPlace(at: Surroundings, db: Db) {
    if db.app.Some? then
      && at.host.managed
      && (at.host.status == Servers.Active || at.host.status == Servers.Ready || at.host.status == Servers.InUse)
      && at.host.phase == Servers.Some("complete")
      && forall i :: i in at.fleet.incidents && i.kind == Servers.ProvisioningFailed ==>
           i.server != Servers.Some(at.host.handle)
    else exists s :: s in at.fleet.servers && Servers.Suitable(at.fleet, s, at.request)
  }

  /** The application is new, on the suitable server with the most headroom. */
  ghost predicate BestPlace(at: Surroundings, app: App) {
    && app.id == at.newId
    && exists s :: && s in at.fleet.servers && s.handle == app.server && Servers.Suitable(at.fleet, s, at.request)
                   && forall t :: t in at.fleet.servers && Servers.Suitable(at.fleet, t, at.request) ==>
                        Servers.Headroom(t) <= Servers.Headroom(s)
  }

  lemma BoundHostHasPlace(at: Surroundings, db: Db)
    requires db.app.Some?
    ensures HasPlace(at, db) <==>
              Servers.AdmissionRejection(at.host, Servers.FailedHandles(at.fleet.incidents)).None?
  {
    Servers.AdmissionMeans(at.host, at.fleet.incidents);
  }

  /** The application of this repository: the one there is, if its host still
      passes admission, or a new one on the server that the search finds. The
      calls the search makes for each server are one call here. */
  method Placement(api: AllocationApi, modules: seq<string>, at: Surroundings) returns (app: Option<App>)
    requires Describes(at, api.db)
    modifies api
    ensures EnsureStep(old(api.db), api.db, modules, Raised)
    ensures app.Some? ==> api.db.app == app && api.db.ports == old(api.db).ports
    ensures app.Some? ==> HasPlace(at, old(api.db))
    ensures app.Some? ==> if old(api.db).app.Some? then app == old(api.db).app else BestPlace(at, app.value)
    ensures !HasPlace(at, old(api.db)) ==> api.db == old(api.db)
    ensures AllAnswered(old(api.calls), 4 + |modules|) && HasPlace(at, old(api.db))
            ==> app.Some? && AllAnswered(api.calls, |modules|)
  {
    var listed := api.Call();
    if listed != Answered {
      return None;
    }
    if api.db.app.Some? {
      app := BoundPlacement(api, at, 1 + |modules|);
    } else {
      app := SearchedPlacement(api, at, 1 + |modules|);
    }
    if app.None? {
      return;
    }
    var fetched := api.Call();
    if fetched != Answered {
      return None;
    }
  }

  method BoundPlacement(api: AllocationApi, at: Surroundings, ghost left: nat) returns (app: Option<App>)
    requires api.db.app.Some? && Describes(at, api.db)
    modifies api
    ensures api.db == old(api.db)
    ensures app.Some? ==> app == api.db.app && HasPlace(at, api.db)
    ensures AllAnswered(old(api.calls), left + 2) && HasPlace(at, api.db) ==>
              app.Some? && AllAnswered(api.calls, left)
  {
    BoundHostHasPlace(at, api.db);
    var host := api.Call();
    if host != Answered {
      return None;
    }
    var incidents := api.Call();
    if incidents != Answered {
      return None;
    }
    Servers.AdmissionDecides(at.host, at.fleet.incidents);
    var refusal := Servers.RefuseInadmissibleTarget(at.host, at.fleet.incidents);
    if refusal.Some? {
      return None;
    }
    app := api.db.app;
  }

  method SearchedPlacement(api: AllocationApi, at: Surroundings, ghost left: nat) returns (app: Option<App>)
    requires api.db.app.None? && Describes(at, api.db)
    modifies api
    ensures api.db.ports == old(api.db).ports
    ensures api.db == old(api.db) || (HasPlace(at, old(api.db)) && api.db.app.Some? && api.db.app.value.id == at.newId)
    ensures app.Some? ==> api.db.app == app && HasPlace(at, old(api.db)) && BestPlace(at, app.value)
    ensures AllAnswered(old(api.calls), left + 2) && HasPlace(at, old(api.db)) ==>
              app.Some? && AllAnswered(api.calls, left)
  {
    var searched := api.Call();
    if searched != Answered {
      return None;
    }
    var found := Servers.FindSuitableServer(at.fleet, at.request);
    if found.Refused? {
      return None;
    }
    app := Some(App(at.newId, found.server.handle));
    var created := api.Call();
    if created != Refused {
      api.db := api.db.(app := app);
    }
    if created != Answered {
      return None;
    }
  }

  method AllocateMissing(api: AllocationApi, app: App, modules: seq<string>, ghost before: Db) returns (r: Result)
    requires api.db.app == Some(app) && EnsureStep(before, api.db, modules, Raised)
    modifies api
    ensures EnsureStep(before, api.db, modules, r)
    ensures api.db.app == Some(app)
    ensures AllAnswered(old(api.calls), |modules|) ==> r.Returned?
  {
    var slots := AllocationsOf(api.db, app.id);
    var missing := Missing(modules, slots.Values);
    ghost var start := api.db;
    forall m ensures m in slots.Values <==> HasModule(start, app.id, m) {
      ModuleListed(start, app.id, m);
    }
    for i := 0 to |missing|
      invariant api.db.app == Some(app)
      invariant EnsureStep(before, api.db, modules, Raised)
      invariant slots == AllocationsOf(api.db, app.id)
      invariant forall m :: HasModule(api.db, app.id, m) <==> HasModule(start, app.id, m) || m in missing[..i]
      invariant AllAnswered(old(api.calls), |modules|) ==> AllAnswered(api.calls, |missing| - i)
    {
      var m := missing[i];
      ghost var mid := api.db;
      assert missing[..i + 1] == missing[..i] + [m];
      assert m in missing && m !in missing[..i];
      var ok, port := api.AllocateNextPort(app.server, m, app.id);
      if api.db != mid {
        ExtendedStep(before, mid, api.db, modules, m, Slot(app.server, port));
        ExtendedListing(mid, api.db, m, Slot(app.server, port), app.id);
      }
      if !ok {
        return Raised;
      }
      slots := slots[Slot(app.server, port) := m];
    }
    assert missing[..|missing|] == missing;
    return Returned(slots);
  }

  /** A call that returns had a place for the application, and one without a
      place changes nothing. */
  method EnsureProjectAllocations(api: AllocationApi, modules: seq<string>, at: Surroundings) returns (r: Result)
    requires Describes(at, api.db)
    modifies api
    ensures EnsureStep(old(api.db), api.db, modules, r)
    ensures r.Returned? ==> HasPlace(at, old(api.db)) && api.db.app.Some?
    ensures r.Returned? && old(api.db).app.Some? ==> api.db.app == old(api.db).app
    ensures r.Returned? && old(api.db).app.None? ==>
              exists s :: && s in at.fleet.servers && api.db.app == Some(App(at.newId, s.handle))
                          && Servers.Suitable(at.fleet, s, at.request)
                          && forall t :: t in at.fleet.servers && Servers.Suitable(at.fleet, t, at.request) ==>
                               Servers.Headroom(t) <= Servers.Headroom(s)
    ensures !HasPlace(at, old(api.db)) ==> r.Raised? && api.db == old(api.db)
    ensures AllAnswered(old(api.calls), 4 + |modules|) && HasPlace(at, old(api.db)) ==> r.Returned?
  {
    ghost var before := api.db;
    var app := Placement(api, modules, at);
    if app.None? {
      return Raised;
    }
    r := AllocateMissing(api, app.value, modules, before);
    if r.Returned? && before.app.None? {
      ghost var s :| && s in at.fleet.servers && s.handle == app.value.server
                     && Servers.Suitable(at.fleet, s, at.request)
                     && forall t :: t in at.fleet.servers && Servers.Suitable(at.fleet, t, at.request) ==>
                          Servers.Headroom(t) <= Servers.Headroom(s);
      assert app == Some(App(at.newId, s.handle));
    }
  }

  /** The modules to allocate for: each once, in order of first mention. */
  method Missing(modules: seq<string>, existing: set<string>) returns (missing: seq<string>)
    ensures forall m :: m in missing <==> m in modules && m !in existing
    ensures forall i, j :: 0 <= i < j < |missing| ==> missing[i] != missing[j]
    ensures |missing| <= |modules|
  {
    missing := [];
    for i := 0 to |modules|
      invariant forall m :: m in missing <==> m in modules[..i] && m !in existing
      invariant forall j, k :: 0 <= j < k < |missing| ==> missing[j] != missing[k]
      invariant |missing| <= i
    {
      assert modules[..i + 1] == modules[..i] + [modules[i]];
      if modules[i] !in existing && modules[i] !in missing {
        missing := missing + [modules[i]];
      }
    }
    assert modules[..|modules|] == modules;
  }

  lemma ModuleListed(db: Db, app: nat, m: string)
    ensures m in AllocationsOf(db, app).Values <==> HasModule(db, app, m)
  {
    var slots := AllocationsOf(db, app);
    if m in slots.Values {
      var s :| s in slots && slots[s] == m;
    }
    if HasModule(db, app, m) {
      var s :| s in db.ports && db.ports[s].app == app && db.ports[s].service == m;
      assert s in slots && slots[s] == m;
    }
  }
}
