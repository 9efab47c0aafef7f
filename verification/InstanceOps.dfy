/**
 The console's operations on the stored registry, and what every sequence of them keeps:
 ids, names and ports never collide, and every cache path names its instance.
 */
module InstanceOps {
  import opened Options
  import opened InstanceRegistry

  datatype Status = Unknown | Running | Paused | Stopped

  // ---- one operation on the stored instances ----

  function Delete(instances: seq<Instance>, key: string): Result<seq<Instance>, Error> {
    var i := IndexOfKey(instances, key);
    if i == |instances| then Err(NoInstance(key)) else Ok(Without(instances, instances[i].id))
  }

  function Configure(instances: seq<Instance>, key: string, resources: Resources, status: Status)
    : Result<seq<Instance>, Error>
  {
    var i := IndexOfKey(instances, key);
    if !Acceptable(resources) then Err(BadResources)
    else if i == |instances| then Err(NoInstance(key))
    else if status == Unknown then Err(StatusUnknown)
    else if status != Stopped then Err(NotStopped)
    else Ok(instances[i := instances[i].(resources := resources)])
  }

  function SetStatus(instances: seq<Instance>, key: string, status: string): seq<Instance> {
    var i := IndexOfKey(instances, key);
    if i == |instances| then instances else instances[i := instances[i].(lastStatus := Some(status))]
  }

  class Console {
    const dataDir: Path
    var stored: seq<Instance>

    constructor (dataDir: Path)
      ensures this.dataDir == dataDir && stored == []
    {
      this.dataDir := dataDir;
      stored := [];
    }

    // Every operation works on a loaded copy; `saves` is false when storing it fails.
    method Create(req: Request, supply: Supply, saves: bool) returns (r: Result<Instance, Error>)
      modifies this`stored
      ensures r == match NewInstance(old(stored), req, dataDir, supply)
                   case Err(e) => Err(e)
                   case Ok(inst) => if saves then Ok(inst) else Err(SaveFailed)
      ensures stored == if r.Ok? then Upserted(old(stored), r.value) else old(stored)
    {
      var reg := new Registry(stored);
      r := reg.CreateInstance(req, dataDir, supply);
      if r.Err? {
        return;
      }
      reg.Upsert(r.value);
      if !saves {
        return Err(SaveFailed);
      }
      stored := reg.instances;
    }

    method DeleteInstance(key: string, saves: bool) returns (r: Result<Instance, Error>)
      modifies this`stored
      ensures stored == if saves && Delete(old(stored), key).Ok? then Delete(old(stored), key).value else old(stored)
      ensures r.Ok? <==> saves && Delete(old(stored), key).Ok?
      ensures r.Ok? ==> r.value in old(stored) && (r.value.id == key || r.value.name == key)
    {
      var reg := new Registry(stored);
      var i := IndexOfKey(reg.instances, key);
      if i == |reg.instances| {
        return Err(NoInstance(key));
      }
      var inst := reg.instances[i];
      var _ := reg.Remove(inst.id);
      if !saves {
        return Err(SaveFailed);
      }
      stored := reg.instances;
      r := Ok(inst);
    }

    method ConfigureResources(key: string, resources: Resources, status: Status, saves: bool)
      returns (r: Result<Instance, Error>)
      modifies this`stored
      ensures var done := Configure(old(stored), key, resources, status);
              && stored == (if saves && done.Ok? then done.value else old(stored))
              && (r.Ok? <==> saves && done.Ok?)
              && (done.Err? ==> r == Err(done.error))
      ensures r.Ok? ==> r.value in stored && r.value.resources == resources
    {
      if !Acceptable(resources) {
        return Err(BadResources);
      }
      var i := IndexOfKey(stored, key);
      if i == |stored| {
        return Err(NoInstance(key));
      }
      if status == Unknown {
        return Err(StatusUnknown);
      }
      if status != Stopped {
        return Err(NotStopped);
      }
      var reg := new Registry(stored);
      reg.instances := reg.instances[i := reg.instances[i].(resources := resources)];
      if !saves {
        return Err(SaveFailed);
      }
      stored := reg.instances;
      r := Ok(stored[i]);
    }

    method RecordStatus(key: string, status: string, saves: bool)
      modifies this`stored
      ensures stored == if saves then SetStatus(old(stored), key, status) else old(stored)
    {
      var reg := new Registry(stored);
      var i := IndexOfKey(reg.instances, key);
      if i < |reg.instances| {
        reg.instances := reg.instances[i := reg.instances[i].(lastStatus := Some(status))];
        if saves {
          stored := reg.instances;
        }
      }
    }
  }

  // ---- what is kept ----

  predicate PortsApart(a: Instance, b: Instance) {
    a.wizardPort != b.wizardPort && a.wizardPort != b.gatewayPort
    && a.gatewayPort != b.wizardPort && a.gatewayPort != b.gatewayPort
  }

  // Two instances that collide in nothing.
  predicate Apart(earlier: Instance, later: Instance) {
    earlier.id != later.id && earlier.name != later.name && PortsApart(earlier, later)
  }

  // An instance with two ports, filed under its id.
  predicate WellMade(inst: Instance, dataDir: Path) {
    && inst.wizardPort != inst.gatewayPort
    && inst.cacheDir == dataDir + ["instances", inst.id, "cache"]
    && inst.runtimeDir == dataDir + ["instances", inst.id, "run"]
    && inst.id != "" && inst.id != ".."
  }

  predicate Distinct(instances: seq<Instance>, dataDir: Path) {
    && (forall i :: 0 <= i < |instances| ==> WellMade(instances[i], dataDir))
    && forall i, j :: 0 <= i < j < |instances| ==> Apart(instances[i], instances[j])
  }

  // A fresh id: a plain file name that no instance bears as its id.
  predicate Fresh(id: string, instances: seq<Instance>) {
    && id != "" && id != ".."
    && forall i :: 0 <= i < |instances| ==> instances[i].id != id
  }

  datatype Op =
    | Create(req: Request, supply: Supply)
    | Remove(key: string)
    | Reconfigure(key: string, resources: Resources, status: Status)
    | Observe(key: string, seen: string)

  // The stored instances after an operation whose result is saved.
  function Step(instances: seq<Instance>, op: Op, dataDir: Path): seq<Instance> {
    match op
    case Create(req, supply) =>
      (match NewInstance(instances, req, dataDir, supply)
       case Err(_) => instances
       case Ok(inst) => Upserted(instances, inst))
    case Remove(key) => (match Delete(instances, key) case Err(_) => instances case Ok(kept) => kept)
    case Reconfigure(key, resources, status) =>
      (match Configure(instances, key, resources, status) case Err(_) => instances case Ok(done) => done)
    case Observe(key, seen) => SetStatus(instances, key, seen)
  }

  predicate SuppliesFresh(instances: seq<Instance>, op: Op) {
    op.Create? ==> Fresh(op.supply.id, instances)
  }

  lemma DistinctCons(first: Instance, rest: seq<Instance>, dataDir: Path)
    requires WellMade(first, dataDir) && Distinct(rest, dataDir)
    requires forall x :: x in rest ==> Apart(first, x)
    ensures Distinct([first] + rest, dataDir)
  {
    hide WellMade, Apart;
  }

  lemma DistinctTail(instances: seq<Instance>, dataDir: Path)
    requires instances != [] && Distinct(instances, dataDir)
    ensures WellMade(instances[0], dataDir) && Distinct(instances[1..], dataDir)
    ensures forall x :: x in instances[1..] ==> Apart(instances[0], x)
  {
    hide WellMade, Apart;
  }

  // Removing keeps the order, so whatever holds of every ordered pair still does.
  lemma {:induction false} WithoutKeeps(instances: seq<Instance>, id: string, dataDir: Path)
    requires Distinct(instances, dataDir)
    ensures Distinct(Without(instances, id), dataDir)
  {
    hide Distinct, WellMade, Apart;
    if instances == [] {
      assert Without(instances, id) == instances;
    } else {
      DistinctTail(instances, dataDir);
      WithoutKeeps(instances[1..], id, dataDir);
      if instances[0].id != id {
        DistinctCons(instances[0], Without(instances[1..], id), dataDir);
      } else {
        assert Without(instances, id) == Without(instances[1..], id);
      }
    }
  }

  // Changing nothing that must stay apart keeps everything apart.
  lemma UpdateKeeps(instances: seq<Instance>, i: nat, inst: Instance, dataDir: Path)
    requires Distinct(instances, dataDir) && i < |instances|
    requires inst == instances[i].(resources := inst.resources, lastStatus := inst.lastStatus)
    ensures Distinct(instances[i := inst], dataDir)
  {
  }

  lemma CreateKeeps(instances: seq<Instance>, req: Request, supply: Supply, dataDir: Path)
    requires Distinct(instances, dataDir) && Fresh(supply.id, instances)
    ensures var made := NewInstance(instances, req, dataDir, supply);
            made.Ok? ==> Upserted(instances, made.value) == instances + [made.value]
                         && Distinct(Upserted(instances, made.value), dataDir)
  {
    var made := NewInstance(instances, req, dataDir, supply);
    if made.Ok? {
      var inst := made.value;
      assert dataDir + ["instances", supply.id] + ["cache"] == dataDir + ["instances", supply.id, "cache"];
      assert dataDir + ["instances", supply.id] + ["run"] == dataDir + ["instances", supply.id, "run"];
      assert IndexOfId(instances, inst.id) == |instances|;
      forall i | 0 <= i < |instances|
        ensures Apart(instances[i], inst)
      {
        assert instances[i].name != inst.name;
        assert instances[i].wizardPort in PortsOf(instances) && instances[i].gatewayPort in PortsOf(instances);
      }
    }
  }

  // Every operation keeps the registry free of collisions, given fresh ids.
  lemma StepKeeps(instances: seq<Instance>, op: Op, dataDir: Path)
    requires Distinct(instances, dataDir) && SuppliesFresh(instances, op)
    ensures Distinct(Step(instances, op, dataDir), dataDir)
  {
    hide Distinct, Fresh, NewInstance, Upserted;
    match op
    case Create(req, supply) => CreateKeeps(instances, req, supply, dataDir);
    case Remove(key) =>
      if IndexOfKey(instances, key) < |instances| {
        WithoutKeeps(instances, instances[IndexOfKey(instances, key)].id, dataDir);
      }
    case Reconfigure(key, resources, _) =>
      var i := IndexOfKey(instances, key);
      if i < |instances| {
        UpdateKeeps(instances, i, instances[i].(resources := resources), dataDir);
      }
    case Observe(key, seen) =>
      var i := IndexOfKey(instances, key);
      if i < |instances| {
        UpdateKeeps(instances, i, instances[i].(lastStatus := Some(seen)), dataDir);
      }
  }

  function Run(instances: seq<Instance>, ops: seq<Op>, dataDir: Path): seq<Instance>
    decreases |ops|
  {
    if ops == [] then instances else Run(Step(instances, ops[0], dataDir), ops[1..], dataDir)
  }

  predicate RunFresh(instances: seq<Instance>, ops: seq<Op>, dataDir: Path)
    decreases |ops|
  {
    ops == [] || (SuppliesFresh(instances, ops[0]) && RunFresh(Step(instances, ops[0], dataDir), ops[1..], dataDir))
  }

  lemma {:induction false} RunKeeps(instances: seq<Instance>, ops: seq<Op>, dataDir: Path)
    requires Distinct(instances, dataDir) && RunFresh(instances, ops, dataDir)
    ensures Distinct(Run(instances, ops, dataDir), dataDir)
    decreases |ops|
  {
    hide Distinct, Step, SuppliesFresh;
    if ops != [] {
      StepKeeps(instances, ops[0], dataDir);
      RunKeeps(Step(instances, ops[0], dataDir), ops[1..], dataDir);
    }
  }

  // Removing the directories of one removes nothing of the other's.
  predicate DirsApart(a: Instance, b: Instance) {
    && !(a.cacheDir <= b.cacheDir) && !(a.cacheDir <= b.runtimeDir)
    && !(a.runtimeDir <= b.cacheDir) && !(a.runtimeDir <= b.runtimeDir)
  }

  // From the empty registry, every sequence of operations leaves ids, names, ports and
  // directories apart, and every instance's slug is its id.
  lemma NoCollisions(ops: seq<Op>, dataDir: Path, i: nat, j: nat)
    requires RunFresh([], ops, dataDir)
    requires i < |Run([], ops, dataDir)| && j < |Run([], ops, dataDir)| && i != j
    ensures var a, b := Run([], ops, dataDir)[i], Run([], ops, dataDir)[j];
            && a.id != b.id && a.name != b.name && PortsApart(a, b) && a.wizardPort != a.gatewayPort
            && DirsApart(a, b)
            && InstanceSlug(a.cacheDir) == Some(a.id)
  {
    hide Run, RunFresh, InstanceSlug;
    RunKeeps([], ops, dataDir);
    var all := Run([], ops, dataDir);
    assert if i < j then Apart(all[i], all[j]) else Apart(all[j], all[i]);
    FiledById(all[i], dataDir);
    FiledById(all[j], dataDir);
  }

  lemma FiledById(inst: Instance, dataDir: Path)
    requires WellMade(inst, dataDir)
    ensures InstanceSlug(inst.cacheDir) == Some(inst.id)
    ensures inst.cacheDir[|dataDir| + 1] == inst.id && inst.runtimeDir[|dataDir| + 1] == inst.id
  {
    assert inst.cacheDir[|inst.cacheDir| - 3..|inst.cacheDir| - 1] == ["instances", inst.id];
    SlugExactly(inst.cacheDir, inst.id);
  }

  // Over such runs an operation by id reaches that instance if and only if no earlier one has
  // the id as its name, and an operation by name if and only if no earlier one has the name as
  // its id.
  lemma KeyReaches(ops: seq<Op>, dataDir: Path, i: nat)
    requires RunFresh([], ops, dataDir) && i < |Run([], ops, dataDir)|
    ensures var all := Run([], ops, dataDir);
            && (IndexOfKey(all, all[i].id) == i <==> forall k :: 0 <= k < i ==> all[k].name != all[i].id)
            && (IndexOfKey(all, all[i].name) == i <==> forall k :: 0 <= k < i ==> all[k].id != all[i].name)
  {
    hide Run, RunFresh;
    RunKeeps([], ops, dataDir);
    var all := Run([], ops, dataDir);
    var k, m := IndexOfKey(all, all[i].id), IndexOfKey(all, all[i].name);
    assert k <= i && m <= i;
    assert k < i ==> Apart(all[k], all[i]);
    assert m < i ==> Apart(all[m], all[i]);
  }
}
