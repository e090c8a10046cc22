/** Choosing a server for a project (services/langgraph/src/allocations.py with
    shared/server_admission.py and shared/allocation_disposition.py): the search,
    the reason a refusal gives, and what may be done about it. */
module ServerAllocation {

  // ------------------------------------------------------------------- the fleet

  datatype Option<T> = None | Some(value: T)

  datatype ServerStatus =
    | Discovered | New | PendingSetup | Provisioning | ForceRebuild
    | Ready | InUse | Active | Error | Unreachable | Maintenance

  datatype AppStatus =
    | NotDeployed | Deploying | Running | Stopping | Stopped | Undeploying | Down | Degraded

  datatype App = App(status: AppStatus, reservedRam: nat)

  datatype Server = Server(
    handle: string,
    managed: bool,
    status: ServerStatus,
    phase: Option<string>,
    capacityRam: nat,
    capacityDisk: nat,
    usedRam: nat,
    lastCheck: Option<int>,
    apps: seq<App>
  )

  datatype IncidentType = ProvisioningFailed | OtherIncident
  datatype Incident = Incident(kind: IncidentType, server: Option<string>)

  /** Everything the search looks at. */
  datatype Fleet = Fleet(servers: seq<Server>, incidents: seq<Incident>, now: int, freshness: nat)

  // ------------------------------------------------------------------- admission

  datatype Rejection = NotManaged | StatusNotAdmitting | ProvisioningIncomplete | ProvisioningBroken

  function FailedHandles(incidents: seq<Incident>): set<string> {
    set i | i in incidents && i.kind == ProvisioningFailed && i.server.Some? :: i.server.value
  }

  function AdmissionRejection(s: Server, failed: set<string>): Option<Rejection> {
    if !s.managed then Some(NotManaged)
    else if s.status !in {Active, Ready, InUse} then Some(StatusNotAdmitting)
    else if s.phase != Some("complete") then Some(ProvisioningIncomplete)
    else if s.handle in failed then Some(ProvisioningBroken)
    else None
  }

  predicate Admitted(f: Fleet, s: Server) {
    AdmissionRejection(s, FailedHandles(f.incidents)).None?
  }

  /** In the server's own fields: who may take an application, and why not. */
  lemma AdmissionMeans(s: Server, incidents: seq<Incident>)
    ensures
      var broken := exists i :: i in incidents && i.kind == ProvisioningFailed && i.server == Some(s.handle);
      var operational := s.status == Active || s.status == Ready || s.status == InUse;
      AdmissionRejection(s, FailedHandles(incidents)) ==
        if !s.managed then Some(NotManaged)
        else if !operational then Some(StatusNotAdmitting)
        else if s.phase != Some("complete") then Some(ProvisioningIncomplete)
        else if broken then Some(ProvisioningBroken)
        else None
  {
    forall i | i in incidents && i.kind == ProvisioningFailed && i.server == Some(s.handle)
      ensures s.handle in FailedHandles(incidents)
    {
      assert i.server.value == s.handle;
    }
  }

  predicate HoldsReservation(a: App) {
    a.status !in {NotDeployed, Stopped}
  }

  function Reserved(apps: seq<App>): nat {
    if apps == [] then 0
    else (if HoldsReservation(apps[0]) then apps[0].reservedRam else 0) + Reserved(apps[1..])
  }

  predicate FreshMetrics(f: Fleet, s: Server) {
    s.lastCheck.Some? && 0 <= f.now - s.lastCheck.value <= f.freshness
  }

  function Max(a: nat, b: nat): nat {
    if a < b then b else a
  }

  function EffectiveUse(s: Server): nat {
    Max(Reserved(s.apps), s.usedRam)
  }

  function Headroom(s: Server): int {
    s.capacityRam - EffectiveUse(s)
  }

  // ------------------------------------------------- what can be true of a server

  /** The request: the full RAM budget and the disk it needs. */
  datatype Request = Request(ram: nat, disk: nat)

  predicate LargeEnough(s: Server, r: Request) {
    s.capacityRam >= r.ram && s.capacityDisk >= r.disk
  }

  /** Admissible, large enough, metrics fresh, and room for the budget beside
      both the reservations and the observed use. */
  predicate Suitable(f: Fleet, s: Server, r: Request) {
    && Admitted(f, s)
    && s.capacityDisk >= r.disk
    && Reserved(s.apps) + r.ram <= s.capacityRam
    && FreshMetrics(f, s)
    && s.usedRam + r.ram <= s.capacityRam
  }

  function Sum(ns: seq<nat>): nat {
    if ns == [] then 0 else ns[0] + Sum(ns[1..])
  }

  /** What an application may still take up: nothing once it is stopped, or
      before it is deployed. */
  function Claims(apps: seq<App>): seq<nat> {
    seq(|apps|, i requires 0 <= i < |apps| =>
      if apps[i].status == NotDeployed || apps[i].status == Stopped then 0 else apps[i].reservedRam)
  }

  lemma {:induction false} ReservedIsSum(apps: seq<App>)
    ensures Reserved(apps) == Sum(Claims(apps))
  {
    if apps != [] {
      ReservedIsSum(apps[1..]);
      assert Claims(apps)[1..] == Claims(apps[1..]);
    }
  }

  /** What a server that can be chosen is like: managed, operational, completely
      provisioned without an open failure, large enough, heard from within the
      allowed time, with room for the budget beside the applications that are
      neither stopped nor undeployed, and beside the memory in use. */
  lemma SuitableMeans(f: Fleet, s: Server, r: Request)
    ensures Suitable(f, s, r) <==>
              && s.managed && (s.status == Active || s.status == Ready || s.status == InUse)
              && s.phase == Some("complete")
              && (forall i :: i in f.incidents && i.kind == ProvisioningFailed ==> i.server != Some(s.handle))
              && r.disk <= s.capacityDisk
              && s.lastCheck.Some? && s.lastCheck.value <= f.now <= s.lastCheck.value + f.freshness
              && Sum(Claims(s.apps)) + r.ram <= s.capacityRam
              && s.usedRam + r.ram <= s.capacityRam
    ensures Headroom(s) <= s.capacityRam - Sum(Claims(s.apps)) && Headroom(s) <= s.capacityRam - s.usedRam
    ensures Headroom(s) == s.capacityRam - Sum(Claims(s.apps)) || Headroom(s) == s.capacityRam - s.usedRam
  {
    AdmissionMeans(s, f.incidents);
    ReservedIsSum(s.apps);
  }

  /** An admissible server with enough disk whose reservations leave no room. */
  predicate Overbooked(f: Fleet, s: Server, r: Request) {
    Admitted(f, s) && s.capacityDisk >= r.disk && s.capacityRam < Reserved(s.apps) + r.ram
  }

  /** An otherwise fitting server nobody has heard from recently. */
  predicate Silent(f: Fleet, s: Server, r: Request) {
    && Admitted(f, s) && s.capacityDisk >= r.disk
    && Reserved(s.apps) + r.ram <= s.capacityRam && !FreshMetrics(f, s)
  }

  /** An otherwise fitting server whose memory is in fact in use. */
  predicate Busy(f: Fleet, s: Server, r: Request) {
    && Admitted(f, s) && s.capacityDisk >= r.disk
    && Reserved(s.apps) + r.ram <= s.capacityRam && FreshMetrics(f, s)
    && s.capacityRam < s.usedRam + r.ram
  }

  // ------------------------------------------------------------------ the search

  datatype Reason =
    | ImpossibleCapacity | ServerNotProvisioned | NoFreshMetrics
    | InsufficientReservedMemory | InsufficientFreeMemory

  datatype Placement = Placed(server: Server) | Refused(reason: Reason)

  /** The reasons the search collects besides admission refusals. */
  datatype Shortage = SmallDisk | ReservedMemory | StaleMetrics | FreeMemory

  /** What the loop makes of one server. */
  datatype Screening = Turned(rejection: Rejection) | Lacks(shortage: Shortage) | Fits

  function Screen(f: Fleet, s: Server, r: Request): Screening {
    var admission := AdmissionRejection(s, FailedHandles(f.incidents));
    if admission.Some? then Turned(admission.value)
    else if s.capacityDisk < r.disk then Lacks(SmallDisk)
    else if s.capacityRam < Reserved(s.apps) + r.ram then Lacks(ReservedMemory)
    else if !FreshMetrics(f, s) then Lacks(StaleMetrics)
    else if s.capacityRam < Max(Reserved(s.apps), s.usedRam) + r.ram then Lacks(FreeMemory)
    else Fits
  }

  /** What each of the answers says about the server. */
  lemma ScreenMeans(f: Fleet, s: Server, r: Request)
    ensures Screen(f, s, r).Turned? <==> !Admitted(f, s)
    ensures Screen(f, s, r) == Lacks(SmallDisk) <==> Admitted(f, s) && s.capacityDisk < r.disk
    ensures Screen(f, s, r) == Lacks(ReservedMemory) <==> Overbooked(f, s, r)
    ensures Screen(f, s, r) == Lacks(StaleMetrics) <==> Silent(f, s, r)
    ensures Screen(f, s, r) == Lacks(FreeMemory) <==> Busy(f, s, r)
    ensures Screen(f, s, r) == Fits <==> Suitable(f, s, r)
  {
  }

  /** Some server of the fleet is answered so. */
  predicate Met(f: Fleet, r: Request, n: nat, screening: Screening)
    requires n <= |f.servers|
  {
    exists j :: 0 <= j < n && Screen(f, f.servers[j], r) == screening
  }

  /** The loop over the servers: who fits, and what the others were turned away
      for or lack. */
  method ScreenServers(f: Fleet, r: Request)
    returns (suitable: seq<Server>, shortages: set<Shortage>, rejections: set<Rejection>)
    ensures forall s :: s in suitable <==> s in f.servers && Suitable(f, s, r)
    ensures forall x :: x in shortages <==> Met(f, r, |f.servers|, Lacks(x))
    ensures forall x :: x in rejections <==> Met(f, r, |f.servers|, Turned(x))
  {
    suitable, shortages, rejections := [], {}, {};
    var failed := FailedHandles(f.incidents);
    for i := 0 to |f.servers|
      invariant forall s :: s in suitable <==> s in f.servers[..i] && Suitable(f, s, r)
      invariant forall x :: x in shortages <==> Met(f, r, i, Lacks(x))
      invariant forall x :: x in rejections <==> Met(f, r, i, Turned(x))
    {
      var s := f.servers[i];
      assert f.servers[..i + 1] == f.servers[..i] + [s];
      ScreenMeans(f, s, r);
      MetNext(f, r, i);
      var admission := AdmissionRejection(s, failed);
      if admission.Some? {
        rejections := rejections + {admission.value};
        continue;
      }
      if s.capacityDisk < r.disk {
        shortages := shortages + {SmallDisk};
        continue;
      }
      var reserved := Reserved(s.apps);
      if s.capacityRam < reserved + r.ram {
        shortages := shortages + {ReservedMemory};
        continue;
      }
      if !FreshMetrics(f, s) {
        shortages := shortages + {StaleMetrics};
        continue;
      }
      if s.capacityRam < Max(reserved, s.usedRam) + r.ram {
        shortages := shortages + {FreeMemory};
        continue;
      }
      suitable := suitable + [s];
    }
    assert f.servers[..|f.servers|] == f.servers;
  }

  lemma MetNext(f: Fleet, r: Request, i: nat)
    requires i < |f.servers|
    ensures forall x :: Met(f, r, i + 1, x) <==> Met(f, r, i, x) || Screen(f, f.servers[i], r) == x
  {
    forall x ensures Met(f, r, i + 1, x) <==> Met(f, r, i, x) || Screen(f, f.servers[i], r) == x {
      if Met(f, r, i, x) {
        var j :| 0 <= j < i && Screen(f, f.servers[j], r) == x;
        assert 0 <= j < i + 1;
      }
    }
  }

  /** What was met says of the fleet. */
  lemma MetMeans(f: Fleet, r: Request)
    ensures Met(f, r, |f.servers|, Lacks(ReservedMemory)) <==> exists s :: s in f.servers && Overbooked(f, s, r)
    ensures Met(f, r, |f.servers|, Lacks(StaleMetrics)) <==> exists s :: s in f.servers && Silent(f, s, r)
    ensures (exists x :: Met(f, r, |f.servers|, Turned(x))) <==> exists s :: s in f.servers && !Admitted(f, s)
  {
    forall s | s in f.servers
      ensures Overbooked(f, s, r) ==> Met(f, r, |f.servers|, Lacks(ReservedMemory))
      ensures Silent(f, s, r) ==> Met(f, r, |f.servers|, Lacks(StaleMetrics))
      ensures !Admitted(f, s) ==> exists x :: Met(f, r, |f.servers|, Turned(x))
    {
      ScreenMeans(f, s, r);
      var j :| 0 <= j < |f.servers| && f.servers[j] == s;
      if !Admitted(f, s) {
        assert Met(f, r, |f.servers|, Turned(Screen(f, s, r).rejection));
      }
    }
    forall x | Met(f, r, |f.servers|, x)
      ensures exists s :: s in f.servers && Screen(f, s, r) == x
    {
      var j :| 0 <= j < |f.servers| && Screen(f, f.servers[j], r) == x;
      assert f.servers[j] in f.servers;
    }
    forall s ensures Screen(f, s, r) == Lacks(ReservedMemory) <==> Overbooked(f, s, r)
             ensures Screen(f, s, r) == Lacks(StaleMetrics) <==> Silent(f, s, r)
             ensures Screen(f, s, r).Turned? <==> !Admitted(f, s)
    {
      ScreenMeans(f, s, r);
    }
  }

  method MostHeadroom(suitable: seq<Server>) returns (best: Server)
    requires suitable != []
    ensures best in suitable
    ensures forall s :: s in suitable ==> Headroom(s) <= Headroom(best)
  {
    best := suitable[0];
    for i := 1 to |suitable|
      invariant best in suitable
      invariant forall j :: 0 <= j < i ==> Headroom(suitable[j]) <= Headroom(best)
    {
      if Headroom(suitable[i]) > Headroom(best) {
        best := suitable[i];
      }
    }
  }

  /** `_find_suitable_server`. The result is stated outright: the best suitable
      server, or a reason that some server bears out. */
  method FindSuitableServer(f: Fleet, r: Request) returns (p: Placement)
    ensures p.Placed? <==> exists s :: s in f.servers && Suitable(f, s, r)
    ensures p.Placed? ==>
              && p.server in f.servers && Suitable(f, p.server, r)
              && forall s :: s in f.servers && Suitable(f, s, r) ==> Headroom(s) <= Headroom(p.server)
    ensures p.Refused? ==> Truthful(f, r, p.reason)
    ensures p.Refused? ==>
              p.reason ==
                if forall s :: s in f.servers ==> s.capacityRam < r.ram || s.capacityDisk < r.disk then ImpossibleCapacity
                else if exists s :: s in f.servers && !Admitted(f, s) then ServerNotProvisioned
                else if exists s :: s in f.servers && Silent(f, s, r) then NoFreshMetrics
                else if exists s :: s in f.servers && Overbooked(f, s, r) then InsufficientReservedMemory
                else InsufficientFreeMemory
  {
    var suitable, shortages, rejections := ScreenServers(f, r);
    MetMeans(f, r);
    if suitable == [] {
      var impossible := ExceedsEveryServer(f.servers, r);
      if impossible {
        return Refused(ImpossibleCapacity);
      }
      if rejections != {} {
        return Refused(ServerNotProvisioned);
      }
      if StaleMetrics in shortages {
        return Refused(NoFreshMetrics);
      }
      if ReservedMemory in shortages {
        return Refused(InsufficientReservedMemory);
      }
      OnlyBusyIsLeft(f, r);
      return Refused(InsufficientFreeMemory);
    }
    var best := MostHeadroom(suitable);
    return Placed(best);
  }

  /** What each refusal reason claims about the fleet. */
  predicate Truthful(f: Fleet, r: Request, reason: Reason) {
    match reason
    case ImpossibleCapacity => forall s :: s in f.servers ==> !LargeEnough(s, r)
    case ServerNotProvisioned =>
      && (exists s :: s in f.servers && !Admitted(f, s))
      && (exists s :: s in f.servers && LargeEnough(s, r))
    case NoFreshMetrics =>
      && (forall s :: s in f.servers ==> Admitted(f, s))
      && (exists s :: s in f.servers && Silent(f, s, r))
    case InsufficientReservedMemory =>
      && (forall s :: s in f.servers ==> Admitted(f, s))
      && (exists s :: s in f.servers && Overbooked(f, s, r))
      && (exists s :: s in f.servers && LargeEnough(s, r))
    case InsufficientFreeMemory =>
      && (forall s :: s in f.servers ==> Admitted(f, s))
      && (exists s :: s in f.servers && Busy(f, s, r))
  }

  /** The fall-through reason is never a guess: with every other reason ruled
      out some server is really out of free memory. */
  lemma OnlyBusyIsLeft(f: Fleet, r: Request)
    requires forall s :: s in f.servers ==> !Suitable(f, s, r) && Admitted(f, s)
    requires forall s :: s in f.servers ==> !Overbooked(f, s, r) && !Silent(f, s, r)
    requires exists s :: s in f.servers && LargeEnough(s, r)
    ensures exists s :: s in f.servers && Busy(f, s, r)
  {
    var s :| s in f.servers && LargeEnough(s, r);
    assert Busy(f, s, r);
  }

  method ExceedsEveryServer(servers: seq<Server>, r: Request) returns (exceeds: bool)
    ensures exceeds <==> forall s :: s in servers ==> !LargeEnough(s, r)
  {
    for i := 0 to |servers|
      invariant forall j :: 0 <= j < i ==> !LargeEnough(servers[j], r)
    {
      if LargeEnough(servers[i], r) {
        return false;
      }
    }
    return true;
  }

  // ----------------------------------------------------------------- disposition

  datatype Disposition = InfrastructureWait | OperatorReview | TechnicalFailure | ProductFailure | NoDisposition

  function AllocationDisposition(reason: Reason): Disposition {
    match reason
    case InsufficientFreeMemory => InfrastructureWait
    case InsufficientReservedMemory => InfrastructureWait
    case ServerNotProvisioned => InfrastructureWait
    case ImpossibleCapacity => OperatorReview
    case NoFreshMetrics => TechnicalFailure
  }

  function AttemptDisposition(refusal: Option<Reason>, productFailure: bool): Disposition {
    if refusal.Some? then AllocationDisposition(refusal.value)
    else if productFailure then ProductFailure
    else NoDisposition
  }

  predicate MayTerminateStory(d: Disposition) {
    d == ProductFailure
  }

  datatype Path = Engineering | Deploy

  datatype Routing =
    | ParkWaitingResources | WaitForAdmissibleTarget | HumanReviewWithOwnerNotice
    | HumanReviewPlatformAlert | CallerFailureRouting | NoRefusal

  function RefusalRouting(path: Path, d: Disposition): Routing {
    match d
    case InfrastructureWait => if path == Engineering then ParkWaitingResources else WaitForAdmissibleTarget
    case OperatorReview => HumanReviewWithOwnerNotice
    case TechnicalFailure => HumanReviewPlatformAlert
    case ProductFailure => CallerFailureRouting
    case NoDisposition => NoRefusal
  }

  /** Without a refusal an attempt is the product's failure or none. On both
      paths operators hear of what cannot be placed and of missing metrics; what
      can still be placed is parked by the one and waited for by the other. */
  lemma RoutesExactly(path: Path, productFailure: bool)
    ensures AttemptDisposition(None, productFailure) == if productFailure then ProductFailure else NoDisposition
    ensures RefusalRouting(Engineering, InfrastructureWait) == ParkWaitingResources
    ensures RefusalRouting(Deploy, InfrastructureWait) == WaitForAdmissibleTarget
    ensures RefusalRouting(path, OperatorReview) == HumanReviewWithOwnerNotice
    ensures RefusalRouting(path, TechnicalFailure) == HumanReviewPlatformAlert
    ensures RefusalRouting(path, ProductFailure) == CallerFailureRouting
    ensures RefusalRouting(path, NoDisposition) == NoRefusal
    ensures AttemptDisposition(Some(NoFreshMetrics), productFailure) == TechnicalFailure
  {
  }

  // ---------------------------------------------------------------- future fleets

  /** The same machines at another time: handles and capacities stay, while
      status, provisioning, incidents, applications, metrics and clock may be
      anything. */
  predicate SameMachines(f: Fleet, g: Fleet) {
    && |f.servers| == |g.servers|
    && forall i :: 0 <= i < |f.servers| ==>
         && f.servers[i].handle == g.servers[i].handle
         && f.servers[i].capacityRam == g.servers[i].capacityRam
         && f.servers[i].capacityDisk == g.servers[i].capacityDisk
  }

  predicate Placeable(f: Fleet, r: Request) {
    exists s :: s in f.servers && Suitable(f, s, r)
  }

  /** A server swept clean: managed, built, idle and just heard from. */
  function Cleared(s: Server, now: int): Server {
    s.(managed := true, status := Ready, phase := Some("complete"), usedRam := 0,
       lastCheck := Some(now), apps := [])
  }

  /** Some future of these machines admits the request exactly if one of them is
      large enough. */
  lemma FutureDecidedBySize(f: Fleet, r: Request)
    ensures (exists g :: SameMachines(f, g) && Placeable(g, r))
            <==> exists s :: s in f.servers && LargeEnough(s, r)
  {
    if exists s :: s in f.servers && LargeEnough(s, r) {
      var i :| 0 <= i < |f.servers| && LargeEnough(f.servers[i], r);
      var s := Cleared(f.servers[i], f.now);
      var g := Fleet(f.servers[i := s], [], f.now, f.freshness);
      assert FailedHandles(g.incidents) == {};
      assert g.servers[i] == s && s in g.servers && Suitable(g, s, r);
      assert SameMachines(f, g);
    }
    forall g | SameMachines(f, g) && Placeable(g, r)
      ensures exists s :: s in f.servers && LargeEnough(s, r)
    {
      var t :| t in g.servers && Suitable(g, t, r);
      var i :| 0 <= i < |g.servers| && g.servers[i] == t;
      assert f.servers[i] in f.servers && LargeEnough(f.servers[i], r);
    }
  }

  /** A truthful refusal is handed to an operator exactly when no future state
      of the fleet could satisfy the request, and is waited out only when one
      could; on both placement paths no two dispositions are answered alike, and
      none of them ends a story. */
  lemma RefusalHandledRightly(f: Fleet, r: Request, reason: Reason, path: Path, productFailure: bool)
    requires !Placeable(f, r) && Truthful(f, r, reason)
    ensures
      var d := AttemptDisposition(Some(reason), productFailure);
      && (d == OperatorReview <==> !exists g :: SameMachines(f, g) && Placeable(g, r))
      && (d == InfrastructureWait ==> exists g :: SameMachines(f, g) && Placeable(g, r))
      && !MayTerminateStory(d)
      && forall other :: RefusalRouting(path, other) == RefusalRouting(path, d) ==> other == d
  {
    FutureDecidedBySize(f, r);
    if reason == NoFreshMetrics {
      var s :| s in f.servers && Silent(f, s, r);
      assert LargeEnough(s, r);
    }
    if reason == InsufficientFreeMemory {
      var s :| s in f.servers && Busy(f, s, r);
      assert LargeEnough(s, r);
    }
  }

  /** The same host as far as admission is concerned, with any size, load,
      applications and metrics. */
  predicate SameHost(s: Server, t: Server) {
    s.handle == t.handle && s.managed == t.managed && s.status == t.status && s.phase == t.phase
  }

  lemma AdmissionDecides(s: Server, incidents: seq<Incident>)
    ensures AdmissionRejection(s, FailedHandles(incidents)).Some? <==>
              forall f: Fleet, t: Server, r: Request :: f.incidents == incidents && SameHost(s, t) ==> !Suitable(f, t, r)
  {
    if AdmissionRejection(s, FailedHandles(incidents)).None? {
      var t := s.(usedRam := 0, lastCheck := Some(0), apps := []);
      assert Suitable(Fleet([t], incidents, 0, 0), t, Request(0, 0));
    }
  }

  /** The bound-host path and the search cannot diverge: a host is refused
      exactly if the search would not choose it for any request, whatever its
      size, load, applications and metrics were and whatever other servers
      there are. */
  method RefuseInadmissibleTarget(s: Server, incidents: seq<Incident>) returns (refusal: Option<Reason>)
    ensures refusal.Some? ==> refusal.value == ServerNotProvisioned
    ensures refusal.Some? <==>
              forall f: Fleet, t: Server, r: Request :: f.incidents == incidents && SameHost(s, t) ==> !Suitable(f, t, r)
  {
    AdmissionDecides(s, incidents);
    var admission := AdmissionRejection(s, FailedHandles(incidents));
    refusal := if admission.None? then None else Some(ServerNotProvisioned);
  }
}
