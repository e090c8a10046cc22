/** From a resolved Compose project to the persisted execution plan: the manager
    rewrites global identities, limits and ports, validates the result, and
    asserts it once more when the snapshot is written
    (services/worker-manager/src/compose_runner.py and compose_validator.py).
  */
module ComposePlan {

  /** A YAML value as the loader returns it. */
  datatype Value =
    | Null
    | Bool(flag: bool)
    | Number(amount: real)
    | Text(text: string)
    | List(items: seq<Value>)
    | Mapping(fields: Fields)

  type Fields = map<string, Value>

  datatype Outcome<T> = Ok(value: T) | ValueError(reason: Reason)

  datatype Reason =
    | NoServices
    | NotAMapping
    | LoaderDirective
    | BuildShape
    | Identity
    | Refused

  /** What lies outside this model: the digest, the workspace containment of a
      path, and the checks of single volumes and of resource limits.
    */
  datatype Policy = Policy(
    digest: string -> string,
    within: string -> bool,
    volumeOk: Value -> bool,
    limitsOk: Value -> bool
  )

  /** `dict.get`. */
  function Get(fields: Fields, key: string): Value {
    if key in fields then fields[key] else Null
  }

  predicate Truthy(v: Value) {
    match v
    case Null => false
    case Bool(flag) => flag
    case Number(amount) => amount != 0.0
    case Text(text) => text != ""
    case List(items) => items != []
    case Mapping(fields) => fields != map[]
  }

  // ------------------------------------------------------------------- overrides

  function BuildImage(p: Policy, worker: string, service: string): string {
    "codegen-project-" + p.digest(worker) + "-" + p.digest(service) + ":generated"
  }

  function NetworkName(worker: string): string {
    "dev_proj_" + worker
  }

  const DEFAULT_LIMITS: Value := Mapping(map["cpus" := Text("1.0"), "memory" := Text("512MiB")])

  predicate Built(service: Fields) {
    Get(service, "build") != Null
  }

  /** The manager's image name on a service that is built here. */
  function WithImage(p: Policy, worker: string, name: string, service: Fields): Fields {
    if Built(service) then service["image" := Text(BuildImage(p, worker, name))] else service
  }

  function WithoutName(volume: Value): Value {
    if volume.Mapping? then Mapping(volume.fields - {"name"}) else volume
  }

  /** `setdefault(key, {})`. */
  function WithDefault(fields: Fields, key: string): Fields {
    if key in fields then fields else fields[key := Mapping(map[])]
  }

  function LimitedResources(resources: Fields): Fields {
    if Get(resources, "limits") == Null then resources["limits" := DEFAULT_LIMITS] else resources
  }

  function LimitedDeploy(deploy: Fields): Fields {
    var d := WithDefault(deploy, "resources");
    if d["resources"].Mapping? then
      d["resources" := Mapping(LimitedResources(d["resources"].fields))]
    else d
  }

  /** No published ports, and resource limits where there were none. */
  function WithLimits(service: Fields): Fields {
    var s := WithDefault(service["ports" := List([])], "deploy");
    if s["deploy"].Mapping? then s["deploy" := Mapping(LimitedDeploy(s["deploy"].fields))] else s
  }

  function Rewritten(p: Policy, worker: string, name: string, service: Value): Value {
    if service.Mapping? then Mapping(WithLimits(WithImage(p, worker, name, service.fields))) else service
  }

  function RewrittenServices(p: Policy, worker: string, services: Fields): Fields {
    map name | name in services :: Rewritten(p, worker, name, services[name])
  }

  function NamelessVolumes(volumes: Fields): Fields {
    map name | name in volumes :: WithoutName(volumes[name])
  }

  function WithVolumes(data: Fields): Fields {
    var volumes := Get(data, "volumes");
    if volumes.Mapping? then data["volumes" := Mapping(NamelessVolumes(volumes.fields))] else data
  }

  predicate AllMappings(services: Fields) {
    forall name :: name in services ==> services[name].Mapping?
  }

  /** The project after `_apply_effective_overrides`. */
  function Overridden(p: Policy, worker: string, data: Fields): Outcome<Fields> {
    var services := Get(data, "services");
    if !services.Mapping? then ValueError(NoServices)
    else if !AllMappings(services.fields) then ValueError(NotAMapping)
    else Ok(WithVolumes(data["services" := Mapping(RewrittenServices(p, worker, services.fields))]))
  }

  /** The resolved project, changed in place. */
  class Project {
    var data: Fields

    constructor (resolved: Fields)
      ensures data == resolved
    {
      data := resolved;
    }

    /** `ResourceIdentityPolicy.apply`. */
    method ApplyIdentities(p: Policy, worker: string) returns (result: Outcome<()>)
      modifies this
      ensures var services := Get(old(data), "services");
        if !services.Mapping? then result == ValueError(NoServices)
        else if !AllMappings(services.fields) then result == ValueError(NotAMapping)
        else
          && result == Ok(())
          && data == WithVolumes(old(data)["services" := Mapping(ImagedServices(p, worker, services.fields))])
    {
      var value := Get(data, "services");
      if !value.Mapping? {
        return ValueError(NoServices);
      }
      var services := value.fields;
      var pending := services.Keys;
      while pending != {}
        invariant pending <= services.Keys == value.fields.Keys
        invariant forall name :: name in pending ==> services[name] == value.fields[name]
        invariant forall name :: name in services && name !in pending ==>
            value.fields[name].Mapping? && services[name] == Imaged(p, worker, name, value.fields[name])
        invariant data == old(data)
        decreases pending
      {
        var name :| name in pending;
        if !services[name].Mapping? {
          return ValueError(NotAMapping);
        }
        services := services[name := Imaged(p, worker, name, services[name])];
        pending := pending - {name};
      }
      assert services == ImagedServices(p, worker, value.fields);
      data := data["services" := Mapping(services)];
      data := WithVolumes(data);
      return Ok(());
    }

    /** `_apply_effective_overrides`. */
    method ApplyEffectiveOverrides(p: Policy, worker: string) returns (result: Outcome<()>)
      modifies this
      ensures match Overridden(p, worker, old(data))
              case Ok(plan) => result == Ok(()) && data == plan
              case ValueError(reason) => result == ValueError(reason)
    {
      ghost var before := data;
      ghost var original := Get(data, "services");
      result := ApplyIdentities(p, worker);
      if result.ValueError? {
        return;
      }
      var services := LimitServices(Get(data, "services").fields);
      assert services == RewrittenServices(p, worker, original.fields);
      ServicesAndVolumes(before, ImagedServices(p, worker, original.fields), services);
      data := data["services" := Mapping(services)];
    }
  }

  /** The services of which all but the pending ones have their limits. */
  function LimitedBut(named: Fields, pending: set<string>): Fields
    requires AllMappings(named)
  {
    map name | name in named :: if name in pending then named[name] else Mapping(WithLimits(named[name].fields))
  }

  lemma LimitNext(named: Fields, pending: set<string>, name: string)
    requires AllMappings(named) && name in pending && name in named
    ensures LimitedBut(named, pending)[name] == named[name]
    ensures LimitedBut(named, pending)[name := Mapping(WithLimits(named[name].fields))]
            == LimitedBut(named, pending - {name})
  {
  }

  lemma LimitEnds(named: Fields)
    requires AllMappings(named)
    ensures LimitedBut(named, named.Keys) == named
    ensures LimitedBut(named, {}) == map name | name in named :: Mapping(WithLimits(named[name].fields))
  {
  }

  /** The loop of `_apply_effective_overrides` over the services. */
  method LimitServices(named: Fields) returns (services: Fields)
    requires AllMappings(named)
    ensures services == map name | name in named :: Mapping(WithLimits(named[name].fields))
  {
    services := named;
    var pending := named.Keys;
    LimitEnds(named);
    while pending != {}
      invariant pending <= named.Keys
      invariant services == LimitedBut(named, pending)
      decreases pending
    {
      var name :| name in pending;
      LimitNext(named, pending, name);
      services := services[name := Mapping(WithLimits(services[name].fields))];
      pending := pending - {name};
    }
  }

  /** The services and the volumes are rewritten independently. */
  lemma ServicesAndVolumes(data: Fields, first: Fields, second: Fields)
    ensures WithVolumes(data["services" := Mapping(first)])["services" := Mapping(second)]
            == WithVolumes(data["services" := Mapping(second)])
  {
  }

  function Imaged(p: Policy, worker: string, name: string, service: Value): Value {
    if service.Mapping? then Mapping(WithImage(p, worker, name, service.fields)) else service
  }

  function ImagedServices(p: Policy, worker: string, services: Fields): Fields {
    map name | name in services :: Imaged(p, worker, name, services[name])
  }

  // ------------------------------------------------------------------ validation

  predicate NetworkOk(worker: string, data: Fields) {
    var networks := Get(data, "networks");
    && networks.Mapping?
    && networks.fields.Keys == {"default"}
    && networks.fields["default"].Mapping?
    && Get(networks.fields["default"].fields, "name") == Text(NetworkName(worker))
    && Truthy(Get(networks.fields["default"].fields, "external"))
  }

  predicate NamedVolumeOk(volume: Value) {
    volume != Null ==>
      && volume.Mapping?
      && !Truthy(Get(volume.fields, "external"))
      && ("driver" in volume.fields ==> volume.fields["driver"] == Text("local"))
      && !Truthy(Get(volume.fields, "driver_opts"))
  }

  predicate NamedVolumesOk(data: Fields) {
    var volumes := Get(data, "volumes");
    volumes != Null ==>
      volumes.Mapping? && forall name :: name in volumes.fields ==> NamedVolumeOk(volumes.fields[name])
  }

  predicate ServiceIdentityOk(p: Policy, worker: string, name: string, service: Fields) {
    && "container_name" !in service
    && (Built(service) ==> Get(service, "image") == Text(BuildImage(p, worker, name)))
  }

  /** `ResourceIdentityPolicy.validate_effective` reports nothing. */
  predicate IdentitiesOk(p: Policy, worker: string, data: Fields) {
    var services, volumes := Get(data, "services"), Get(data, "volumes");
    && (services.Mapping? ==>
          forall name :: name in services.fields && services.fields[name].Mapping? ==>
                           ServiceIdentityOk(p, worker, name, services.fields[name].fields))
    && (volumes.Mapping? ==>
          forall name :: name in volumes.fields && volumes.fields[name].Mapping? ==>
                           "name" !in volumes.fields[name].fields)
  }

  predicate FileSourcesOk(p: Policy, definitions: Value) {
    definitions != Null ==>
      && definitions.Mapping?
      && forall name :: name in definitions.fields ==> FileSourceOk(p, definitions.fields[name])
  }

  predicate FileSourceOk(p: Policy, definition: Value) {
    && definition.Mapping?
    && !Truthy(Get(definition.fields, "external"))
    && (Truthy(Get(definition.fields, "file")) ==> InWorkspace(p, Get(definition.fields, "file")))
  }

  predicate InWorkspace(p: Policy, path: Value) {
    path.Text? && p.within(path.text)
  }

  const PERMITTED_BUILD_KEYS: set<string> := {"context", "dockerfile", "args"}

  function JoinPath(directory: string, file: string): string {
    if directory == "" then file else directory + "/" + file
  }

  predicate BuildOk(p: Policy, service: Fields) {
    match Get(service, "build")
    case Null => true
    case Text(context) => context != "" ==> p.within(context)
    case Mapping(build) =>
      var context, dockerfile := Get(build, "context"), Get(build, "dockerfile");
      && build.Keys <= PERMITTED_BUILD_KEYS
      && (Truthy(context) ==> InWorkspace(p, context))
      && (Truthy(dockerfile) ==>
            && dockerfile.Text?
            && (if dockerfile.text[0] == '/' then p.within(dockerfile.text)
                else context.Text? && p.within(JoinPath(context.text, dockerfile.text))))
    case _ => false
  }

  predicate OnlyDefaultNetwork(networks: Value) {
    match networks
    case Mapping(fields) => fields.Keys == {"default"}
    case List(items) => items != [] && forall i :: 0 <= i < |items| ==> items[i] == Text("default")
    case _ => false
  }

  predicate VolumesOk(p: Policy, service: Fields) {
    "volumes" in service ==>
      && service["volumes"].List?
      && forall v :: v in service["volumes"].items ==> p.volumeOk(v)
  }

  predicate ServiceOk(p: Policy, service: Fields) {
    && !Truthy(Get(service, "privileged"))
    && (forall k :: k in ["network_mode", "pid", "ipc", "uts", "userns_mode", "cgroup"] ==> Get(service, k) == Null)
    && (forall k :: k in ["devices", "device_cgroup_rules", "cap_add", "volumes_from", "security_opt"] ==>
                      !Truthy(Get(service, k)))
    && BuildOk(p, service)
    && VolumesOk(p, service)
    && OnlyDefaultNetwork(Get(service, "networks"))
    && p.limitsOk(Get(service, "deploy"))
  }

  /** `validate_effective_compose` reports nothing. */
  predicate EffectiveOk(p: Policy, worker: string, data: Fields) {
    var services := Get(data, "services");
    && services.Mapping? && services.fields != map[]
    && NetworkOk(worker, data)
    && NamedVolumesOk(data)
    && IdentitiesOk(p, worker, data)
    && FileSourcesOk(p, Get(data, "secrets"))
    && FileSourcesOk(p, Get(data, "configs"))
    && forall name :: name in services.fields ==>
                        services.fields[name].Mapping? && ServiceOk(p, services.fields[name].fields)
  }

  // -------------------------------------------------------------------- snapshot

  predicate HasLoaderDirective(service: Fields) {
    "env_file" in service || "extends" in service || "label_file" in service
  }

  /** `assert_permitted_build_shape` passes. */
  predicate BuildShapeOk(service: Fields) {
    match Get(service, "build")
    case Null => true
    case Text(_) => true
    case Mapping(build) => build.Keys <= PERMITTED_BUILD_KEYS
    case _ => false
  }

  /** What each refusal says of the plan. */
  ghost predicate Explains(p: Policy, worker: string, data: Fields, reason: Reason) {
    match reason
    case NoServices => !Get(data, "services").Mapping?
    case NotAMapping =>
      && Get(data, "services").Mapping?
      && exists name :: name in Get(data, "services").fields && !Get(data, "services").fields[name].Mapping?
    case LoaderDirective => exists name, service :: ServiceAt(data, name, service) && HasLoaderDirective(service)
    case BuildShape => exists name, service :: ServiceAt(data, name, service) && !BuildShapeOk(service)
    case Identity => !IdentitiesOk(p, worker, data)
    case _ => false
  }

  /** `_write_snapshot`: the assertions made before a plan is written. The
      services are visited in an order of the caller's choice.
    */
  method WriteSnapshot(p: Policy, worker: string, data: Fields) returns (result: Outcome<Fields>)
    ensures result.Ok? <==> SnapshotOk(p, worker, data)
    ensures result.Ok? ==> result.value == data
    ensures result.ValueError? ==> Explains(p, worker, data, result.reason)
  {
    var services := Get(data, "services");
    if !services.Mapping? {
      return ValueError(NoServices);
    }
    var pending := services.fields.Keys;
    while pending != {}
      invariant pending <= services.fields.Keys
      invariant forall name :: name in services.fields && name !in pending ==> Retainable(services.fields[name])
      decreases pending
    {
      var name :| name in pending;
      var service := services.fields[name];
      if !service.Mapping? {
        return ValueError(NotAMapping);
      }
      assert ServiceAt(data, name, service.fields);
      if HasLoaderDirective(service.fields) {
        return ValueError(LoaderDirective);
      }
      if !BuildShapeOk(service.fields) {
        return ValueError(BuildShape);
      }
      pending := pending - {name};
    }
    if !IdentitiesOk(p, worker, data) {
      return ValueError(Identity);
    }
    return Ok(data);
  }

  predicate Retainable(service: Value) {
    service.Mapping? && !HasLoaderDirective(service.fields) && BuildShapeOk(service.fields)
  }

  predicate SnapshotOk(p: Policy, worker: string, data: Fields) {
    var services := Get(data, "services");
    && services.Mapping?
    && (forall name :: name in services.fields ==> Retainable(services.fields[name]))
    && IdentitiesOk(p, worker, data)
  }

  /** A plan that `inspect` persists for a worker. */
  predicate Persisted(p: Policy, worker: string, resolved: Fields, plan: Fields) {
    && Overridden(p, worker, resolved) == Ok(plan)
    && EffectiveOk(p, worker, plan)
    && SnapshotOk(p, worker, plan)
  }

  /** The container-creating branch of `inspect`, once Compose has resolved the project. */
  method Inspect(p: Policy, worker: string, resolved: Fields) returns (result: Outcome<Fields>)
    ensures result.Ok? ==> Persisted(p, worker, resolved, result.value)
    ensures result.ValueError? ==> !exists plan :: Persisted(p, worker, resolved, plan)
    ensures result != ValueError(Identity) && result != ValueError(BuildShape)
    ensures result.Ok? ==> OwnPlan(p, worker, result.value) && LoadsNothing(result.value)
  {
    var project := new Project(resolved);
    var applied := project.ApplyEffectiveOverrides(p, worker);
    if applied.ValueError? {
      return ValueError(applied.reason);
    }
    if !EffectiveOk(p, worker, project.data) {
      return ValueError(Refused);
    }
    result := WriteSnapshot(p, worker, project.data);
    AdmittedPlansKeepTheirShape(p, worker, project.data);
    PersistedExactly(p, worker, resolved, project.data);
  }

  // --------------------------------------------------------------------- results

  /** A validated plan never fails the identity or build-shape assertions of the
      snapshot: the only thing that can still stop it is a loader directive.
    */
  lemma AdmittedPlansKeepTheirShape(p: Policy, worker: string, plan: Fields)
    requires EffectiveOk(p, worker, plan)
    ensures IdentitiesOk(p, worker, plan)
    ensures forall name, service :: ServiceAt(plan, name, service) ==> BuildShapeOk(service)
    ensures SnapshotOk(p, worker, plan) <==>
            forall name, service :: ServiceAt(plan, name, service) ==> !HasLoaderDirective(service)
  {
    var services := Get(plan, "services").fields;
    forall name, service | ServiceAt(plan, name, service)
      ensures BuildShapeOk(service)
    {
      assert ServiceOk(p, services[name].fields);
    }
    if forall name, service :: ServiceAt(plan, name, service) ==> !HasLoaderDirective(service) {
      forall name | name in services
        ensures Retainable(services[name])
      {
        assert ServiceAt(plan, name, services[name].fields);
      }
    }
  }

  predicate ServiceAt(data: Fields, name: string, service: Fields) {
    var services := Get(data, "services");
    services.Mapping? && name in services.fields && services.fields[name] == Mapping(service)
  }

  lemma LimitsTwice(service: Fields)
    ensures WithLimits(WithLimits(service)) == WithLimits(service)
  {
    var once := WithLimits(service);
    assert once["ports" := List([])] == once;
    if once["deploy"].Mapping? {
      DeployTwice(WithDefault(service["ports" := List([])], "deploy")["deploy"].fields);
      assert once["deploy" := Mapping(LimitedDeploy(once["deploy"].fields))] == once;
    }
  }

  lemma DeployTwice(deploy: Fields)
    ensures LimitedDeploy(LimitedDeploy(deploy)) == LimitedDeploy(deploy)
  {
    var once := LimitedDeploy(deploy);
    if once["resources"].Mapping? {
      var resources := WithDefault(deploy, "resources")["resources"].fields;
      assert LimitedResources(LimitedResources(resources)) == LimitedResources(resources);
      assert once["resources" := Mapping(LimitedResources(once["resources"].fields))] == once;
    }
  }

  lemma LimitsLeaveTheRest(service: Fields, key: string)
    requires key != "ports" && key != "deploy"
    ensures Get(WithLimits(service), key) == Get(service, key)
    ensures key in WithLimits(service) <==> key in service
  {
  }

  lemma RewrittenTwice(p: Policy, worker: string, name: string, service: Value)
    ensures Rewritten(p, worker, name, Rewritten(p, worker, name, service)) == Rewritten(p, worker, name, service)
  {
    if service.Mapping? {
      var imaged := WithImage(p, worker, name, service.fields);
      var once := WithLimits(imaged);
      LimitsLeaveTheRest(imaged, "build");
      LimitsLeaveTheRest(imaged, "image");
      assert WithImage(p, worker, name, once) == once;
      LimitsTwice(imaged);
    }
  }

  /** Applying the manager's overrides to their own result changes nothing. */
  lemma OverridesAreIdempotent(p: Policy, worker: string, data: Fields)
    requires Overridden(p, worker, data).Ok?
    ensures Overridden(p, worker, Overridden(p, worker, data).value) == Overridden(p, worker, data)
  {
    var plan := Overridden(p, worker, data).value;
    var services := Get(data, "services").fields;
    var rewritten := RewrittenServices(p, worker, services);
    assert Get(plan, "services") == Mapping(rewritten);
    forall name | name in services
      ensures Rewritten(p, worker, name, rewritten[name]) == rewritten[name]
    {
      RewrittenTwice(p, worker, name, services[name]);
    }
    assert RewrittenServices(p, worker, rewritten) == rewritten;
    assert plan["services" := Mapping(rewritten)] == plan;
    VolumesTwice(data["services" := Mapping(rewritten)]);
  }

  lemma VolumesTwice(data: Fields)
    ensures WithVolumes(WithVolumes(data)) == WithVolumes(data)
  {
    var volumes := Get(data, "volumes");
    if volumes.Mapping? {
      var once := NamelessVolumes(volumes.fields);
      forall name | name in once
        ensures WithoutName(once[name]) == once[name]
      {
        if once[name].Mapping? {
          assert once[name].fields - {"name"} == once[name].fields;
        }
      }
      assert NamelessVolumes(once) == once;
      assert WithVolumes(data)["volumes" := Mapping(once)] == WithVolumes(data);
    }
  }

  /** Whatever images and volume names the worker chose, after the overrides the
      identity check can only fail on a container name, and it fails then.
    */
  lemma OnlyContainerNamesRemain(p: Policy, worker: string, data: Fields)
    requires Overridden(p, worker, data).Ok?
    ensures IdentitiesOk(p, worker, Overridden(p, worker, data).value) <==>
            forall name, service :: ServiceAt(data, name, service) ==> "container_name" !in service
  {
    var plan := Overridden(p, worker, data).value;
    var services := Get(data, "services").fields;
    var rewritten := Get(plan, "services").fields;
    assert rewritten == RewrittenServices(p, worker, services);
    forall name | name in services
      ensures ServiceIdentityOk(p, worker, name, rewritten[name].fields) <==> "container_name" !in services[name].fields
      ensures ServiceAt(data, name, services[name].fields)
    {
      var imaged := WithImage(p, worker, name, services[name].fields);
      LimitsLeaveTheRest(imaged, "build");
      LimitsLeaveTheRest(imaged, "image");
      LimitsLeaveTheRest(imaged, "container_name");
    }
  }

  // ------------------------------------------------------------------- isolation

  /** Two different workers or services never get the same build image. */
  lemma ImagesAreInjective(p: Policy, worker: string, service: string, worker': string, service': string)
    requires |p.digest(worker)| == |p.digest(worker')| == 16
    requires BuildImage(p, worker, service) == BuildImage(p, worker', service')
    ensures p.digest(worker) == p.digest(worker')
    ensures |p.digest(service)| == |p.digest(service')| ==> p.digest(service) == p.digest(service')
  {
    var head := "codegen-project-";
    var n := |head|;
    var image, image' := BuildImage(p, worker, service), BuildImage(p, worker', service');
    Middle(head, p.digest(worker), "-" + p.digest(service) + ":generated", image);
    Middle(head, p.digest(worker'), "-" + p.digest(service') + ":generated", image');
    Middle(head + p.digest(worker) + "-", p.digest(service), ":generated", image);
    Middle(head + p.digest(worker') + "-", p.digest(service'), ":generated", image');
  }

  lemma Middle(a: string, b: string, c: string, all: string)
    requires all == a + b + c
    ensures |a| + |b| <= |all| && all[|a|..|a| + |b|] == b
  {
  }

  predicate BuildsImage(plan: Fields, name: string, image: string) {
    var services := Get(plan, "services");
    && services.Mapping? && name in services.fields && services.fields[name].Mapping?
    && Built(services.fields[name].fields)
    && Get(services.fields[name].fields, "image") == Text(image)
  }

  predicate UsesNetwork(plan: Fields, network: string) {
    var networks := Get(plan, "networks");
    && networks.Mapping?
    && exists key :: && key in networks.fields && networks.fields[key].Mapping?
                     && Get(networks.fields[key].fields, "name") == Text(network)
  }

  /** Validated plans of two workers, as all persisted plans are, share no built
      image and no network, provided the truncated digest tells the two workers
      apart.
    */
  lemma WorkersAreIsolated(p: Policy, worker: string, plan: Fields, worker': string, plan': Fields)
    requires NetworkOk(worker, plan) && IdentitiesOk(p, worker, plan)
    requires NetworkOk(worker', plan') && IdentitiesOk(p, worker', plan')
    requires |p.digest(worker)| == |p.digest(worker')| == 16 && p.digest(worker) != p.digest(worker')
    ensures forall name, name', image :: !(BuildsImage(plan, name, image) && BuildsImage(plan', name', image))
    ensures forall network :: !(UsesNetwork(plan, network) && UsesNetwork(plan', network))
  {
    forall name, name', image
      ensures !(BuildsImage(plan, name, image) && BuildsImage(plan', name', image))
    {
      if BuildsImage(plan, name, image) && BuildsImage(plan', name', image) {
        BuiltByTheManager(p, worker, plan, name, image);
        BuiltByTheManager(p, worker', plan', name', image);
        ImagesAreInjective(p, worker, name, worker', name');
      }
    }
    forall network
      ensures !(UsesNetwork(plan, network) && UsesNetwork(plan', network))
    {
      if UsesNetwork(plan, network) && UsesNetwork(plan', network) {
        OnlyItsNetwork(worker, plan, network);
        OnlyItsNetwork(worker', plan', network);
        SameNetworkSameWorker(worker, worker');
      }
    }
  }

  lemma BuiltByTheManager(p: Policy, worker: string, plan: Fields, name: string, image: string)
    requires IdentitiesOk(p, worker, plan) && BuildsImage(plan, name, image)
    ensures image == BuildImage(p, worker, name)
  {
    assert ServiceIdentityOk(p, worker, name, Get(plan, "services").fields[name].fields);
  }

  lemma OnlyItsNetwork(worker: string, plan: Fields, network: string)
    requires NetworkOk(worker, plan) && UsesNetwork(plan, network)
    ensures network == NetworkName(worker)
  {
  }

  lemma SameNetworkSameWorker(worker: string, worker': string)
    ensures NetworkName(worker) == NetworkName(worker') ==> worker == worker'
  {
    assert NetworkName(worker)[|"dev_proj_"|..] == worker;
    assert NetworkName(worker')[|"dev_proj_"|..] == worker';
  }

  /** Nothing in a persisted plan names a container of its own, every service
      of it has its ports closed, and every build has the manager's image.
    */
  lemma PersistedPlansClaimNothing(
      p: Policy, worker: string, resolved: Fields, plan: Fields, name: string, service: Fields)
    requires Overridden(p, worker, resolved) == Ok(plan) && IdentitiesOk(p, worker, plan)
    requires ServiceAt(plan, name, service)
    ensures "container_name" !in service
    ensures Get(service, "ports") == List([])
    ensures Built(service) ==> Get(service, "image") == Text(BuildImage(p, worker, name))
  {
    var services := Get(resolved, "services").fields;
    assert Get(plan, "services") == Mapping(RewrittenServices(p, worker, services));
    assert Mapping(service) == Rewritten(p, worker, name, services[name]);
    assert ServiceIdentityOk(p, worker, name, service);
  }

  /** What counts as not set. */
  ghost predicate Unset(v: Value) {
    v == Null || v == Bool(false) || v == Number(0.0) || v == Text("") || v == List([]) || v == Mapping(map[])
  }

  lemma UnsetExactly(v: Value)
    ensures Unset(v) <==> !Truthy(v)
  {
  }

  /** The service keeps off the host: no privileges, no shared namespace, no
      device, capability or volume of somebody else's. */
  ghost predicate KeepsOffTheHost(service: Fields) {
    && Unset(Get(service, "privileged"))
    && Get(service, "network_mode") == Null && Get(service, "pid") == Null && Get(service, "ipc") == Null
    && Get(service, "uts") == Null && Get(service, "userns_mode") == Null && Get(service, "cgroup") == Null
    && Unset(Get(service, "devices")) && Unset(Get(service, "device_cgroup_rules"))
    && Unset(Get(service, "cap_add")) && Unset(Get(service, "security_opt"))
    && Unset(Get(service, "volumes_from"))
  }

  /** It shares no namespace, and nothing is handed to it. */
  lemma SharesExactly(service: Fields)
    ensures (forall k :: k in ["network_mode", "pid", "ipc", "uts", "userns_mode", "cgroup"] ==>
                           Get(service, k) == Null) <==>
      && Get(service, "network_mode") == Null && Get(service, "pid") == Null && Get(service, "ipc") == Null
      && Get(service, "uts") == Null && Get(service, "userns_mode") == Null && Get(service, "cgroup") == Null
  {
    var shared := ["network_mode", "pid", "ipc", "uts", "userns_mode", "cgroup"];
    assert forall i :: 0 <= i < 6 ==> shared[i] in shared;
    assert shared[0] in shared && shared[1] in shared && shared[2] in shared;
    assert shared[3] in shared && shared[4] in shared && shared[5] in shared;
  }

  lemma WithholdsExactly(service: Fields)
    ensures (forall k :: k in ["devices", "device_cgroup_rules", "cap_add", "volumes_from", "security_opt"] ==>
                           !Truthy(Get(service, k))) <==>
      && Unset(Get(service, "devices")) && Unset(Get(service, "device_cgroup_rules"))
      && Unset(Get(service, "cap_add")) && Unset(Get(service, "security_opt"))
      && Unset(Get(service, "volumes_from"))
  {
    var withheld := ["devices", "device_cgroup_rules", "cap_add", "volumes_from", "security_opt"];
    assert forall i :: 0 <= i < 5 ==> withheld[i] in withheld;
    assert withheld[0] in withheld && withheld[1] in withheld && withheld[2] in withheld;
    assert withheld[3] in withheld && withheld[4] in withheld;
    UnsetExactly(Get(service, "devices"));
    UnsetExactly(Get(service, "device_cgroup_rules"));
    UnsetExactly(Get(service, "cap_add"));
    UnsetExactly(Get(service, "security_opt"));
    UnsetExactly(Get(service, "volumes_from"));
  }

  /** It is on the default network and no other. */
  ghost predicate OnDefaultNetwork(service: Fields) {
    match Get(service, "networks")
    case Mapping(fields) => fields.Keys == {"default"}
    case List(items) => items != [] && forall i :: i in items ==> i == Text("default")
    case _ => false
  }

  /** It is built from nothing outside the workspace. */
  ghost predicate BuildsInWorkspace(p: Policy, service: Fields) {
    match Get(service, "build")
    case Null => true
    case Text(context) => context == "" || p.within(context)
    case Mapping(build) =>
      && build.Keys <= {"context", "dockerfile", "args"}
      && var context, dockerfile := Get(build, "context"), Get(build, "dockerfile");
      && (Unset(context) || (context.Text? && p.within(context.text)))
      && (Unset(dockerfile) ||
          (&& dockerfile.Text?
           && if dockerfile.text[0] == '/' then p.within(dockerfile.text)
              else context.Text? &&
                   p.within(if context.text == "" then dockerfile.text else context.text + "/" + dockerfile.text)))
    case _ => false
  }

  ghost predicate Contained(p: Policy, service: Fields) {
    && KeepsOffTheHost(service) && OnDefaultNetwork(service) && BuildsInWorkspace(p, service)
    && ("volumes" in service ==>
          service["volumes"].List? && forall v :: v in service["volumes"].items ==> p.volumeOk(v))
    && p.limitsOk(Get(service, "deploy"))
  }

  lemma BuildsExactly(p: Policy, service: Fields)
    ensures BuildOk(p, service) <==> BuildsInWorkspace(p, service)
  {
    if Get(service, "build").Mapping? {
      var build := Get(service, "build").fields;
      UnsetExactly(Get(build, "context"));
      UnsetExactly(Get(build, "dockerfile"));
    }
  }

  lemma NetworksExactly(service: Fields)
    ensures OnlyDefaultNetwork(Get(service, "networks")) <==> OnDefaultNetwork(service)
  {
    if Get(service, "networks").List? {
      var items := Get(service, "networks").items;
      assert forall i :: 0 <= i < |items| ==> items[i] in items;
    }
  }

  /** The checks of a service let through what is contained and nothing else. */
  lemma ContainedExactly(p: Policy, service: Fields)
    ensures ServiceOk(p, service) <==> Contained(p, service)
  {
    UnsetExactly(Get(service, "privileged"));
    SharesExactly(service);
    WithholdsExactly(service);
    BuildsExactly(p, service);
    NetworksExactly(service);
  }

  /** The worker's own network and no other. */
  ghost predicate OneNetwork(worker: string, networks: Value) {
    && networks.Mapping? && networks.fields.Keys == {"default"} && networks.fields["default"].Mapping?
    && Get(networks.fields["default"].fields, "name") == Text("dev_proj_" + worker)
    && !Unset(Get(networks.fields["default"].fields, "external"))
  }

  /** Volumes of the plan's own: local, and of no name of their own. */
  ghost predicate OwnVolumes(volumes: Value) {
    volumes == Null ||
    (volumes.Mapping? && forall name :: name in volumes.fields ==> OwnVolume(volumes.fields[name]))
  }

  ghost predicate OwnVolume(volume: Value) {
    volume == Null ||
    (&& volume.Mapping? && "name" !in volume.fields
     && Unset(Get(volume.fields, "external")) && Unset(Get(volume.fields, "driver_opts"))
     && ("driver" in volume.fields ==> volume.fields["driver"] == Text("local")))
  }

  /** Secrets or configs whose files are in the workspace. */
  ghost predicate FromWorkspace(p: Policy, files: Value) {
    files == Null ||
    (files.Mapping? && forall name :: name in files.fields ==> FileFromWorkspace(p, files.fields[name]))
  }

  ghost predicate FileFromWorkspace(p: Policy, definition: Value) {
    && definition.Mapping? && Unset(Get(definition.fields, "external"))
    && var file := Get(definition.fields, "file");
       Unset(file) || (file.Text? && p.within(file.text))
  }

  /** A service that keeps to itself, with the manager's image if it is built. */
  ghost predicate OwnService(p: Policy, worker: string, name: string, service: Value) {
    && service.Mapping? && Contained(p, service.fields) && "container_name" !in service.fields
    && (Get(service.fields, "build") == Null ||
        Get(service.fields, "image") ==
          Text("codegen-project-" + p.digest(worker) + "-" + p.digest(name) + ":generated"))
  }

  /** A plan of which every part is the worker's own. */
  ghost predicate OwnPlan(p: Policy, worker: string, plan: Fields) {
    var services := Get(plan, "services");
    && services.Mapping? && services.fields != map[]
    && (forall name :: name in services.fields ==> OwnService(p, worker, name, services.fields[name]))
    && OneNetwork(worker, Get(plan, "networks")) && OwnVolumes(Get(plan, "volumes"))
    && FromWorkspace(p, Get(plan, "secrets")) && FromWorkspace(p, Get(plan, "configs"))
  }

  lemma VolumesExactly(volumes: Value, name: string)
    requires volumes.Mapping? && name in volumes.fields
    ensures
      var volume := volumes.fields[name];
      NamedVolumeOk(volume) && (volume.Mapping? ==> "name" !in volume.fields) <==> OwnVolume(volume)
  {
    if volumes.fields[name].Mapping? {
      UnsetExactly(Get(volumes.fields[name].fields, "external"));
      UnsetExactly(Get(volumes.fields[name].fields, "driver_opts"));
    }
  }

  lemma FilesExactly(p: Policy, files: Value)
    ensures FileSourcesOk(p, files) <==> FromWorkspace(p, files)
  {
    if files.Mapping? {
      forall name | name in files.fields
        ensures FileSourceOk(p, files.fields[name]) <==> FileFromWorkspace(p, files.fields[name])
      {
        FileExactly(p, files.fields[name]);
      }
    }
  }

  lemma FileExactly(p: Policy, definition: Value)
    ensures FileSourceOk(p, definition) <==> FileFromWorkspace(p, definition)
  {
    if definition.Mapping? {
      UnsetExactly(Get(definition.fields, "external"));
      UnsetExactly(Get(definition.fields, "file"));
    }
  }

  lemma NetworkExactly(worker: string, data: Fields)
    ensures NetworkOk(worker, data) <==> OneNetwork(worker, Get(data, "networks"))
  {
    var networks := Get(data, "networks");
    if networks.Mapping? && "default" in networks.fields && networks.fields["default"].Mapping? {
      UnsetExactly(Get(networks.fields["default"].fields, "external"));
    }
  }

  /** The checks of a plan let through exactly the plans of which every part is
      the worker's own. */
  lemma PlanAdmittedExactly(p: Policy, worker: string, plan: Fields)
    ensures EffectiveOk(p, worker, plan) <==> OwnPlan(p, worker, plan)
  {
    NetworkExactly(worker, plan);
    FilesExactly(p, Get(plan, "secrets"));
    FilesExactly(p, Get(plan, "configs"));
    OwnExactly(p, worker, plan);
  }

  /** The services and volumes, with the identities checked across them. */
  lemma OwnExactly(p: Policy, worker: string, plan: Fields)
    ensures
      var services := Get(plan, "services");
      services.Mapping? ==>
        (&& NamedVolumesOk(plan) && IdentitiesOk(p, worker, plan)
         && (forall name :: name in services.fields ==>
              services.fields[name].Mapping? && ServiceOk(p, services.fields[name].fields)) <==>
         && (forall name :: name in services.fields ==> OwnService(p, worker, name, services.fields[name]))
         && OwnVolumes(Get(plan, "volumes")))
  {
    var services, volumes := Get(plan, "services"), Get(plan, "volumes");
    if services.Mapping? {
      forall name | name in services.fields && services.fields[name].Mapping?
        ensures
          var service := services.fields[name];
          ServiceOk(p, service.fields) && ServiceIdentityOk(p, worker, name, service.fields)
          <==> OwnService(p, worker, name, service)
      {
        ContainedExactly(p, services.fields[name].fields);
      }
    }
    if volumes.Mapping? {
      forall name | name in volumes.fields
        ensures
          var volume := volumes.fields[name];
          NamedVolumeOk(volume) && (volume.Mapping? ==> "name" !in volume.fields) <==> OwnVolume(volume)
      {
        VolumesExactly(volumes, name);
      }
    }
  }

  /** No service of the plan makes Compose load a further file. */
  ghost predicate LoadsNothing(plan: Fields) {
    forall name, service :: ServiceAt(plan, name, service) ==>
      "env_file" !in service && "extends" !in service && "label_file" !in service
  }

  /** Which plans `inspect` persists: the project with the manager's overrides, if
      every part of it is the worker's own and it loads no further file. */
  lemma PersistedExactly(p: Policy, worker: string, resolved: Fields, plan: Fields)
    ensures Persisted(p, worker, resolved, plan) <==>
              Overridden(p, worker, resolved) == Ok(plan) && OwnPlan(p, worker, plan) && LoadsNothing(plan)
  {
    PlanAdmittedExactly(p, worker, plan);
    if EffectiveOk(p, worker, plan) {
      AdmittedPlansKeepTheirShape(p, worker, plan);
      assert LoadsNothing(plan) <==>
        forall name, service :: ServiceAt(plan, name, service) ==> !HasLoaderDirective(service);
    }
  }

  /** A service that a snapshot may hold, whatever was validated before. */
  ghost predicate Keepable(p: Policy, worker: string, name: string, service: Value) {
    && service.Mapping?
    && "env_file" !in service.fields && "extends" !in service.fields && "label_file" !in service.fields
    && "container_name" !in service.fields
    && var build := Get(service.fields, "build");
       build == Null ||
       (&& (build.Text? || (build.Mapping? && build.fields.Keys <= {"context", "dockerfile", "args"}))
        && Get(service.fields, "image") ==
             Text("codegen-project-" + p.digest(worker) + "-" + p.digest(name) + ":generated"))
  }

  /** What the assertions before the write let through. */
  lemma SnapshotExactly(p: Policy, worker: string, data: Fields)
    ensures
      var services, volumes := Get(data, "services"), Get(data, "volumes");
      SnapshotOk(p, worker, data) <==>
        && services.Mapping?
        && (forall name :: name in services.fields ==> Keepable(p, worker, name, services.fields[name]))
        && (volumes.Mapping? ==>
              forall name :: name in volumes.fields && volumes.fields[name].Mapping? ==>
                               "name" !in volumes.fields[name].fields)
  {
    var services := Get(data, "services");
    if services.Mapping? {
      forall name | name in services.fields
        ensures Keepable(p, worker, name, services.fields[name]) <==>
                  && Retainable(services.fields[name])
                  && ServiceIdentityOk(p, worker, name, services.fields[name].fields)
      {
        KeepableExactly(p, worker, name, services.fields[name]);
      }
    }
  }

  lemma KeepableExactly(p: Policy, worker: string, name: string, service: Value)
    ensures Keepable(p, worker, name, service) <==>
              Retainable(service) && ServiceIdentityOk(p, worker, name, service.fields)
  {
  }

  // ------------------------------------------------- what the overrides change

  /** Only the image, the ports and the limits of a service are the manager's. */
  lemma OverriddenService(p: Policy, worker: string, name: string, before: Fields, key: string)
    ensures
      var after := WithLimits(WithImage(p, worker, name, before));
      && after["ports"] == List([])
      && (key != "image" && key != "ports" && key != "deploy" ==>
            (key in after <==> key in before) && Get(after, key) == Get(before, key))
      && Get(after, "image") ==
           (if Get(before, "build") == Null then Get(before, "image")
            else Text("codegen-project-" + p.digest(worker) + "-" + p.digest(name) + ":generated"))
      && LimitsFilledIn(Get(before, "deploy"), "deploy" in before, Get(after, "deploy"))
  {
  }

  /** A missing limit is the manager's, at each level at which it can be missing;
      whatever else is there stays. */
  ghost predicate LimitsFilledIn(before: Value, present: bool, after: Value) {
    var manager := Mapping(map["cpus" := Text("1.0"), "memory" := Text("512MiB")]);
    if !present then after == Mapping(map["resources" := Mapping(map["limits" := manager])])
    else if !before.Mapping? then after == before
    else if "resources" !in before.fields then
      after == Mapping(before.fields["resources" := Mapping(map["limits" := manager])])
    else if !before.fields["resources"].Mapping? then after == before
    else
      var resources := before.fields["resources"].fields;
      if Get(resources, "limits") != Null then after == before
      else after == Mapping(before.fields["resources" := Mapping(resources["limits" := manager])])
  }

  /** Of the project only the services and the names of volumes are rewritten. */
  lemma OverriddenProject(p: Policy, worker: string, data: Fields, plan: Fields, key: string)
    requires Overridden(p, worker, data) == Ok(plan)
    ensures key != "services" && key != "volumes" ==>
              (key in plan <==> key in data) && Get(plan, key) == Get(data, key)
    ensures
      var before, after := Get(data, "services"), Get(plan, "services");
      && before.Mapping? && after.Mapping? && after.fields.Keys == before.fields.Keys
      && (key in before.fields ==>
            && before.fields[key].Mapping? && after.fields[key].Mapping?
            && after.fields[key].fields == WithLimits(WithImage(p, worker, key, before.fields[key].fields)))
    ensures
      var before, after := Get(data, "volumes"), Get(plan, "volumes");
      if !before.Mapping? then after == before
      else
        && after.Mapping? && after.fields.Keys == before.fields.Keys
        && (key in before.fields ==>
              if before.fields[key].Mapping? then after.fields[key] == Mapping(before.fields[key].fields - {"name"})
              else after.fields[key] == before.fields[key])
  {
  }

  // ---------------------------------------------------------- what is let through

  /** One service built in the workspace, on the worker's network. */
  function PlainProject(worker: string, context: string): Fields {
    map[
      "services" := Mapping(map["app" := Mapping(map[
        "build" := Text(context),
        "networks" := List([Text("default")])])]),
      "networks" := Mapping(map["default" := Mapping(map[
        "name" := Text("dev_proj_" + worker),
        "external" := Bool(true)])])]
  }

  lemma PlainServiceIsOk(p: Policy, service: Fields, context: string)
    requires p.within(context) && p.limitsOk(Get(service, "deploy"))
    requires Get(service, "build") == Text(context) && Get(service, "networks") == List([Text("default")])
    requires forall k :: k in service ==> k in {"build", "networks", "image", "ports", "deploy"}
    ensures ServiceOk(p, service) && Retainable(Mapping(service)) && "container_name" !in service
  {
  }

  /** What becomes of its service. */
  lemma PlainServiceOverridden(p: Policy, worker: string, before: Fields, context: string)
    requires before == map["build" := Text(context), "networks" := List([Text("default")])]
    ensures
      var after := WithLimits(WithImage(p, worker, "app", before));
      && Get(after, "build") == Text(context) && Get(after, "networks") == List([Text("default")])
      && (forall k :: k in after ==> k in {"build", "networks", "image", "ports", "deploy"})
      && Get(after, "image") == Text(BuildImage(p, worker, "app"))
      && Get(after, "deploy") == Mapping(map["resources" := Mapping(map["limits" :=
           Mapping(map["cpus" := Text("1.0"), "memory" := Text("512MiB")])])])
  {
    var after := WithLimits(WithImage(p, worker, "app", before));
    forall k
      ensures k != "image" && k != "ports" && k != "deploy" ==>
                (k in after <==> k in before) && Get(after, k) == Get(before, k)
    {
      OverriddenService(p, worker, "app", before, k);
    }
    OverriddenService(p, worker, "app", before, "image");
  }

  lemma PlainOverridden(p: Policy, worker: string, context: string, before: Fields)
    requires before == map["build" := Text(context), "networks" := List([Text("default")])]
    ensures
      var data := PlainProject(worker, context);
      var after := WithLimits(WithImage(p, worker, "app", before));
      Overridden(p, worker, data) == Ok(data["services" := Mapping(map["app" := Mapping(after)])])
  {
    var data := PlainProject(worker, context);
    var after := WithLimits(WithImage(p, worker, "app", before));
    assert data["services"].fields == map["app" := Mapping(before)];
    assert RewrittenServices(p, worker, data["services"].fields) == map["app" := Mapping(after)];
    assert "volumes" !in data;
  }

  lemma PlainPlanIsOk(p: Policy, worker: string, plan: Fields, service: Fields)
    requires plan.Keys == {"services", "networks"}
    requires plan["services"] == Mapping(map["app" := Mapping(service)])
    requires plan["networks"] == Mapping(map["default" := Mapping(map[
               "name" := Text("dev_proj_" + worker), "external" := Bool(true)])])
    requires ServiceOk(p, service) && Retainable(Mapping(service)) && "container_name" !in service
    requires Get(service, "image") == Text(BuildImage(p, worker, "app"))
    ensures EffectiveOk(p, worker, plan) && SnapshotOk(p, worker, plan)
  {
    var services := Get(plan, "services");
    assert services.fields["app"] == Mapping(service) && services.fields.Keys == {"app"};
    assert Get(plan, "volumes") == Null && Get(plan, "secrets") == Null && Get(plan, "configs") == Null;
    PlainNetworkIsOk(worker, plan);
    assert IdentitiesOk(p, worker, plan);
  }

  lemma PlainNetworkIsOk(worker: string, plan: Fields)
    requires "networks" in plan
    requires plan["networks"] == Mapping(map["default" := Mapping(map[
               "name" := Text("dev_proj_" + worker), "external" := Bool(true)])])
    ensures NetworkOk(worker, plan)
  {
    var network := plan["networks"].fields["default"].fields;
    assert network["name"] == Text(NetworkName(worker)) && network["external"] == Bool(true);
  }

  /** The rules are no wall: an ordinary project becomes a plan. */
  lemma PlainProjectIsPersisted(p: Policy, worker: string, context: string)
    requires p.within(context)
    requires p.limitsOk(Mapping(map["resources" := Mapping(map["limits" :=
               Mapping(map["cpus" := Text("1.0"), "memory" := Text("512MiB")])])]))
    ensures exists plan :: Persisted(p, worker, PlainProject(worker, context), plan)
  {
    var before := map["build" := Text(context), "networks" := List([Text("default")])];
    var after := WithLimits(WithImage(p, worker, "app", before));
    var plan := PlainProject(worker, context)["services" := Mapping(map["app" := Mapping(after)])];
    PlainServiceOverridden(p, worker, before, context);
    PlainServiceIsOk(p, after, context);
    PlainOverridden(p, worker, context, before);
    PlainPlanIsOk(p, worker, plan, after);
    PlainIsPersisted(p, worker, PlainProject(worker, context), plan);
  }

  lemma PlainIsPersisted(p: Policy, worker: string, data: Fields, plan: Fields)
    requires Overridden(p, worker, data) == Ok(plan) && EffectiveOk(p, worker, plan) && SnapshotOk(p, worker, plan)
    ensures Persisted(p, worker, data, plan)
  {
  }
}
