/** The desktop's registry of named instances: lookup, insertion, removal, and port allocation. */
module InstanceRegistry {
  import opened Options

  type Path = seq<string>

  type Port = p: int | 0 <= p < 0x1_0000

  datatype Resources = Resources(vcpus: nat, memoryMinMib: nat, memoryMaxMib: nat, autoBalloon: bool)

  const DEFAULT_RESOURCES := Resources(2, 1024, 4096, true)

  predicate Acceptable(r: Resources) {
    r.vcpus != 0 && r.memoryMinMib >= 256 && r.memoryMaxMib >= r.memoryMinMib
  }

  datatype Instance = Instance(
    id: string, name: string, target: string, profile: Option<string>,
    wizardPort: Port, gatewayPort: Port, cacheDir: Path, runtimeDir: Path,
    manifestUrl: Option<string>, channel: Option<string>, createdAt: nat,
    lastStatus: Option<string>, resources: Resources)

  datatype Error = NameTaken(name: string) | NoFreePorts | NoInstance(key: string)
                 | BadResources | NotStopped | StatusUnknown | SaveFailed

  // ---- lookup ----

  // Position of the first instance with the id, or the length.
  function IndexOfId(instances: seq<Instance>, id: string): (i: nat)
    ensures i <= |instances| && (i < |instances| ==> instances[i].id == id)
    ensures forall k :: 0 <= k < i ==> instances[k].id != id
  {
    if instances == [] || instances[0].id == id then 0 else 1 + IndexOfId(instances[1..], id)
  }

  // Position of the first instance whose id or name is the key, or the length.
  function IndexOfKey(instances: seq<Instance>, key: string): (i: nat)
    ensures i <= |instances| && (i < |instances| ==> instances[i].id == key || instances[i].name == key)
    ensures forall k :: 0 <= k < i ==> instances[k].id != key && instances[k].name != key
  {
    if instances == [] || instances[0].id == key || instances[0].name == key then 0
    else 1 + IndexOfKey(instances[1..], key)
  }

  predicate IsNameTaken(instances: seq<Instance>, name: string, exceptId: Option<string>) {
    exists i :: 0 <= i < |instances| && instances[i].name == name && Some(instances[i].id) != exceptId
  }

  function Upserted(instances: seq<Instance>, inst: Instance): seq<Instance> {
    var i := IndexOfId(instances, inst.id);
    if i < |instances| then instances[i := inst] else instances + [inst]
  }

  // The instance is there, and those with other ids are as before.
  lemma UpsertedHas(instances: seq<Instance>, inst: Instance)
    ensures inst in Upserted(instances, inst)
    ensures forall x: Instance :: x.id != inst.id ==> (x in Upserted(instances, inst) <==> x in instances)
  {
    var i, all := IndexOfId(instances, inst.id), Upserted(instances, inst);
    assert i < |all| && all[i] == inst;
    forall x: Instance | x.id != inst.id && x in instances
      ensures x in all
    {
      var k :| 0 <= k < |instances| && instances[k] == x;
      assert all[k] == x;
    }
  }

  function Without(instances: seq<Instance>, id: string): (kept: seq<Instance>)
    ensures |kept| <= |instances|
    ensures forall x :: x in kept <==> x in instances && x.id != id
  {
    if instances == [] then []
    else (if instances[0].id != id then [instances[0]] else []) + Without(instances[1..], id)
  }

  function PortsOf(instances: seq<Instance>): (ports: seq<Port>)
    ensures forall p :: p in ports <==>
              exists i :: 0 <= i < |instances| && (p == instances[i].wizardPort || p == instances[i].gatewayPort)
  {
    if instances == [] then []
    else
      assert forall i :: 1 <= i < |instances| ==> instances[i] == instances[1..][i - 1];
      [instances[0].wizardPort, instances[0].gatewayPort] + PortsOf(instances[1..])
  }

  // ---- ports ----

  const TRIES: nat := 64

  // What the operating system offers to successive attempts; none when it refuses.
  type Offers = s: seq<Option<Port>> | |s| == TRIES witness seq(TRIES, _ => None)

  predicate Refused(offer: Option<Port>, exclude: seq<Port>) {
    offer.Some? && offer.value in exclude
  }

  // The first attempt that is not an excluded port decides: its port, or nothing.
  function FirstFree(offers: seq<Option<Port>>, exclude: seq<Port>): (port: Option<Port>)
    ensures port.Some? ==> port.value !in exclude
  {
    if offers == [] then None
    else if Refused(offers[0], exclude) then FirstFree(offers[1..], exclude)
    else offers[0]
  }

  // Attempt k brings a free port and every earlier attempt brought an excluded one.
  predicate FreeAt(offers: seq<Option<Port>>, exclude: seq<Port>, port: Port, k: int) {
    && 0 <= k < |offers| && offers[k] == Some(port) && port !in exclude
    && forall j :: 0 <= j < k ==> Refused(offers[j], exclude)
  }

  lemma ShiftFree(offers: seq<Option<Port>>, exclude: seq<Port>, port: Port, k: int)
    requires offers != [] && Refused(offers[0], exclude)
    ensures FreeAt(offers, exclude, port, k) <==> FreeAt(offers[1..], exclude, port, k - 1)
  {
    if FreeAt(offers[1..], exclude, port, k - 1) {
      assert forall j :: 1 <= j < k ==> offers[j] == offers[1..][j - 1];
    }
  }

  // A port is found exactly when some attempt brings it first.
  lemma {:induction false} FirstFreeExactly(offers: seq<Option<Port>>, exclude: seq<Port>, port: Port)
    ensures FirstFree(offers, exclude) == Some(port) <==> exists k :: FreeAt(offers, exclude, port, k)
  {
    if offers == [] {
    } else if Refused(offers[0], exclude) {
      FirstFreeExactly(offers[1..], exclude, port);
      forall k ensures FreeAt(offers, exclude, port, k) <==> FreeAt(offers[1..], exclude, port, k - 1) {
        ShiftFree(offers, exclude, port, k);
      }
      if k :| FreeAt(offers[1..], exclude, port, k) {
        assert FreeAt(offers[1..], exclude, port, (k + 1) - 1);
        assert FreeAt(offers, exclude, port, k + 1);
      }
    } else if FirstFree(offers, exclude) == Some(port) {
      assert FreeAt(offers, exclude, port, 0);
    }
  }

  method BindEphemeral(exclude: seq<Port>, offers: Offers) returns (port: Option<Port>)
    ensures port == FirstFree(offers, exclude)
  {
    for k := 0 to TRIES
      invariant FirstFree(offers, exclude) == FirstFree(offers[k..], exclude)
    {
      if offers[k].None? {
        return None;
      }
      if offers[k].value !in exclude {
        return offers[k];
      }
    }
    port := None;
  }

  function PortPair(exclude: seq<Port>, first: Offers, second: Offers): Option<(Port, Port)> {
    match FirstFree(first, exclude)
    case None => None
    case Some(wizard) =>
      match FirstFree(second, exclude + [wizard])
      case None => None
      case Some(gateway) => Some((wizard, gateway))
  }

  method AllocatePortPair(exclude: seq<Port>, first: Offers, second: Offers) returns (pair: Option<(Port, Port)>)
    ensures pair == PortPair(exclude, first, second)
    ensures pair.Some? ==> pair.value.0 !in exclude && pair.value.1 !in exclude && pair.value.0 != pair.value.1
  {
    var wizard := BindEphemeral(exclude, first);
    if wizard.None? {
      return None;
    }
    var gateway := BindEphemeral(exclude + [wizard.value], second);
    if gateway.None? {
      return None;
    }
    pair := Some((wizard.value, gateway.value));
  }

  // ---- instances ----

  // What creating an instance draws from outside: port offers, an id, the time.
  datatype Supply = Supply(first: Offers, second: Offers, id: string, now: nat)

  datatype Request = Request(name: string, target: string, profile: Option<string>,
                             manifestUrl: Option<string>, channel: Option<string>)

  function Built(req: Request, wizard: Port, gateway: Port, base: Path, supply: Supply): Instance {
    Instance(supply.id, req.name, req.target, req.profile, wizard, gateway, base + ["cache"], base + ["run"],
             req.manifestUrl, req.channel, supply.now, None, DEFAULT_RESOURCES)
  }

  function NewInstance(instances: seq<Instance>, req: Request, dataDir: Path, supply: Supply): Result<Instance, Error> {
    if IsNameTaken(instances, req.name, None) then Err(NameTaken(req.name))
    else
      match PortPair(PortsOf(instances), supply.first, supply.second)
      case None => Err(NoFreePorts)
      case Some((w, g)) => Ok(Built(req, w, g, dataDir + ["instances", supply.id], supply))
  }

  class Registry {
    var instances: seq<Instance>

    constructor (stored: seq<Instance>)
      ensures instances == stored
    {
      instances := stored;
    }

    method Upsert(inst: Instance)
      modifies this
      ensures instances == Upserted(old(instances), inst)
      ensures inst in instances && forall x: Instance :: x.id != inst.id ==> (x in instances <==> x in old(instances))
    {
      var i := IndexOfId(instances, inst.id);
      if i < |instances| {
        instances := instances[i := inst];
      } else {
        instances := instances + [inst];
      }
      UpsertedHas(old(instances), inst);
    }

    method Remove(id: string) returns (removed: bool)
      modifies this
      ensures instances == Without(old(instances), id)
      ensures removed <==> exists i :: 0 <= i < |old(instances)| && old(instances)[i].id == id
    {
      var before := |instances|;
      WithoutShrinks(instances, id);
      instances := Without(instances, id);
      removed := |instances| != before;
    }

    method CreateInstance(req: Request, dataDir: Path, supply: Supply) returns (r: Result<Instance, Error>)
      ensures r == NewInstance(instances, req, dataDir, supply)
    {
      if IsNameTaken(instances, req.name, None) {
        return Err(NameTaken(req.name));
      }
      var exclude: seq<Port> := [];
      for i := 0 to |instances|
        invariant exclude == PortsOf(instances[..i])
      {
        PortsSnoc(instances[..i], instances[i]);
        assert instances[..i + 1] == instances[..i] + [instances[i]];
        exclude := exclude + [instances[i].wizardPort];
        exclude := exclude + [instances[i].gatewayPort];
      }
      assert instances[..|instances|] == instances;
      var pair := AllocatePortPair(exclude, supply.first, supply.second);
      if pair.None? {
        return Err(NoFreePorts);
      }
      var base := dataDir + ["instances"] + [supply.id];
      assert base == dataDir + ["instances", supply.id];
      r := Ok(Built(req, pair.value.0, pair.value.1, base, supply));
    }
  }

  lemma {:induction false} WithoutShrinks(instances: seq<Instance>, id: string)
    ensures |Without(instances, id)| < |instances| <==> exists i :: 0 <= i < |instances| && instances[i].id == id
    ensures |Without(instances, id)| == |instances| ==> Without(instances, id) == instances
  {
    if instances != [] {
      WithoutShrinks(instances[1..], id);
      assert forall i :: 1 <= i < |instances| ==> instances[i] == instances[1..][i - 1];
      assert forall i :: 0 <= i < |instances| - 1 ==> instances[i + 1] == instances[1..][i];
    }
  }

  lemma {:induction false} PortsSnoc(instances: seq<Instance>, last: Instance)
    ensures PortsOf(instances + [last]) == PortsOf(instances) + [last.wizardPort] + [last.gatewayPort]
  {
    if instances == [] {
      assert PortsOf([last]) == [last.wizardPort, last.gatewayPort] + PortsOf([]);
    } else {
      assert (instances + [last])[1..] == instances[1..] + [last];
      PortsSnoc(instances[1..], last);
    }
  }

  // ---- the id in the cache path ----

  // The name of a directory: none at the root, and none for a parent reference.
  function FileName(p: Path): Option<string> {
    if p == [] || p[|p| - 1] == ".." then None else Some(p[|p| - 1])
  }

  function Parent(p: Path): Option<Path> {
    if p == [] then None else Some(p[..|p| - 1])
  }

  function InstanceSlug(cacheDir: Path): Option<string> {
    match Parent(cacheDir)
    case None => None
    case Some(idDir) =>
      match Parent(idDir)
      case None => None
      case Some(grandparent) =>
        if FileName(grandparent) != Some("instances") then None
        else
          match FileName(idDir)
          case None => None
          case Some(id) => if id == "" then None else Some(id)
  }

  // A slug is read exactly from a path `.../instances/<id>/<leaf>` whose id is a name.
  lemma SlugExactly(cacheDir: Path, id: string)
    ensures InstanceSlug(cacheDir) == Some(id)
       <==> id != "" && id != ".." && |cacheDir| >= 3
            && cacheDir[|cacheDir| - 3..|cacheDir| - 1] == ["instances", id]
  {
    var n := |cacheDir|;
    if n >= 3 {
      var idDir := cacheDir[..n - 1];
      assert idDir[..n - 2][n - 3] == cacheDir[n - 3] && idDir[n - 2] == cacheDir[n - 2];
      assert cacheDir[n - 3..n - 1] == [cacheDir[n - 3], cacheDir[n - 2]];
    }
  }
}
