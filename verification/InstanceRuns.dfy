/**
 What the console's operations answer, condition by condition, and what every run of them
 records of the requests that made its instances.
 */
module InstanceRuns {
  import opened Options
  import opened InstanceRegistry
  import opened InstanceOps

  // ---- answers ----

  predicate Bears(inst: Instance, key: string) {
    inst.id == key || inst.name == key
  }

  // The first instance with that id or name.
  predicate FirstBearer(instances: seq<Instance>, key: string, i: nat) {
    && i < |instances| && Bears(instances[i], key)
    && forall k :: 0 <= k < i ==> !Bears(instances[k], key)
  }

  predicate Named(instances: seq<Instance>, name: string) {
    exists i :: 0 <= i < |instances| && instances[i].name == name
  }

  // Some attempt brings the port, after excluded ones.
  predicate Offered(offers: seq<Option<Port>>, exclude: seq<Port>, port: Port) {
    exists k :: 0 <= k < |offers| && FreeAt(offers, exclude, port, k)
  }

  predicate PairOffered(
    instances: seq<Instance>, first: seq<Option<Port>>, second: seq<Option<Port>>, w: Port, g: Port)
  {
    Offered(first, PortsOf(instances), w) && Offered(second, PortsOf(instances) + [w], g)
  }

  lemma PairExactly(exclude: seq<Port>, first: Offers, second: Offers, w: Port, g: Port)
    ensures PortPair(exclude, first, second) == Some((w, g))
       <==> Offered(first, exclude, w) && Offered(second, exclude + [w], g)
  {
    hide FirstFree;
    FirstFreeExactly(first, exclude, w);
    FirstFreeExactly(second, exclude + [w], g);
  }

  // A record as the request has it, with everything else new.
  predicate AsRequested(inst: Instance, req: Request, id: string, now: nat, dataDir: Path) {
    && inst.name == req.name && inst.target == req.target && inst.profile == req.profile
    && inst.manifestUrl == req.manifestUrl && inst.channel == req.channel
    && inst.id == id && inst.createdAt == now
    && inst.cacheDir == dataDir + ["instances", id, "cache"] && inst.runtimeDir == dataDir + ["instances", id, "run"]
  }

  // With 64 attempts for each port: a name in use is refused, then a lack of ports, and otherwise
  // the record is the request's, with the ports offered and the default envelope.
  lemma CreateExactly(
    instances: seq<Instance>, req: Request, dataDir: Path,
    first: seq<Option<Port>>, second: seq<Option<Port>>, id: string, now: nat)
    requires |first| == 64 && |second| == 64
    ensures var r := NewInstance(instances, req, dataDir, Supply(first, second, id, now));
            && (r == Err(NameTaken(req.name)) <==> Named(instances, req.name))
            && (r == Err(NoFreePorts) <==>
                  && !Named(instances, req.name)
                  && forall w: Port, g: Port :: !PairOffered(instances, first, second, w, g))
            && (r.Ok? <==>
                  && !Named(instances, req.name)
                  && exists w: Port, g: Port :: PairOffered(instances, first, second, w, g))
            && (r.Ok? ==>
                  && PairOffered(instances, first, second, r.value.wizardPort, r.value.gatewayPort)
                  && AsRequested(r.value, req, id, now, dataDir)
                  && r.value.lastStatus == None && r.value.resources == Resources(2, 1024, 4096, true))
  {
    hide PortsOf, FirstFree, FreeAt, Offered;
    var ports := PortsOf(instances);
    forall w: Port, g: Port
      ensures PortPair(ports, first, second) == Some((w, g)) <==> PairOffered(instances, first, second, w, g)
    {
      PairExactly(ports, first, second, w, g);
    }
    var base := dataDir + ["instances", id];
    assert base + ["cache"] == dataDir + ["instances", id, "cache"];
    assert base + ["run"] == dataDir + ["instances", id, "run"];
  }

  // An envelope is stored if and only if it has a processor, at least 256 MiB and a maximum no
  // lower than its minimum, the instance is known, and it is stopped; it is stored in the first
  // instance with that id or name, and nothing else changes.
  lemma ConfigureExactly(instances: seq<Instance>, key: string, resources: Resources, status: Status)
    ensures var sound := resources.vcpus >= 1 && 256 <= resources.memoryMinMib <= resources.memoryMaxMib;
            var known := exists i :: 0 <= i < |instances| && Bears(instances[i], key);
            var r := Configure(instances, key, resources, status);
            && (r.Ok? <==> sound && known && status == Stopped)
            && (r == Err(BadResources) <==> !sound)
            && (r == Err(NoInstance(key)) <==> sound && !known)
            && (r == Err(StatusUnknown) <==> sound && known && status == Unknown)
            && (r == Err(NotStopped) <==> sound && known && (status == Running || status == Paused))
            && forall i: nat :: r.Ok? && FirstBearer(instances, key, i) ==>
                 r.value == instances[i := instances[i].(resources := resources)]
  {
    var i := IndexOfKey(instances, key);
    assert i < |instances| ==> Bears(instances[i], key);
  }

  lemma ObserveExactly(instances: seq<Instance>, key: string, seen: string, i: nat)
    requires FirstBearer(instances, key, i)
    ensures SetStatus(instances, key, seen) == instances[i := instances[i].(lastStatus := Some(seen))]
  {
    assert IndexOfKey(instances, key) == i;
  }

  lemma DropOne(instances: seq<Instance>, i: nat)
    requires 0 < i < |instances|
    ensures instances[..i] + instances[i + 1..] == [instances[0]] + (instances[1..][..i - 1] + instances[1..][i..])
  {
  }

  lemma {:induction false} WithoutOne(instances: seq<Instance>, i: nat)
    requires i < |instances|
    requires forall k :: 0 <= k < |instances| && k != i ==> instances[k].id != instances[i].id
    ensures Without(instances, instances[i].id) == instances[..i] + instances[i + 1..]
    decreases i
  {
    var id, rest := instances[i].id, instances[1..];
    assert forall k :: 0 <= k < |rest| ==> rest[k] == instances[k + 1];
    if i == 0 {
      WithoutShrinks(rest, id);
      assert Without(instances, id) == [] + Without(rest, id);
      assert instances[..0] + instances[1..] == rest;
    } else {
      WithoutOne(rest, i - 1);
      DropOne(instances, i);
      assert Without(instances, id) == [instances[0]] + Without(rest, id);
    }
  }

  // Over every run, deleting by id or name takes out the first instance that bears it and leaves
  // the others as they are; it fails if and only if there is none.
  lemma DeleteExactly(ops: seq<Op>, dataDir: Path, key: string)
    requires RunFresh([], ops, dataDir)
    ensures var all := Run([], ops, dataDir);
            var r := Delete(all, key);
            && (r.Ok? <==> exists i :: 0 <= i < |all| && Bears(all[i], key))
            && (r.Err? ==> r.error == NoInstance(key))
            && forall i: nat :: FirstBearer(all, key, i) ==> r == Ok(all[..i] + all[i + 1..])
  {
    hide Run, RunFresh, Without, WellMade, PortsApart;
    RunKeeps([], ops, dataDir);
    var all := Run([], ops, dataDir);
    var i := IndexOfKey(all, key);
    if i < |all| {
      assert Bears(all[i], key);
      forall k | 0 <= k < |all| && k != i
        ensures all[k].id != all[i].id
      {
        assert if k < i then Apart(all[k], all[i]) else Apart(all[i], all[k]);
      }
      WithoutOne(all, i);
    }
  }

  // ---- runs ----

  predicate MadeBy(inst: Instance, op: Op, dataDir: Path) {
    op.Create? && AsRequested(inst, op.req, op.supply.id, op.supply.now, dataDir)
  }

  // An accepted change of the envelope, of a stopped instance.
  predicate Sets(op: Op, resources: Resources) {
    && op.Reconfigure? && op.status == Stopped && op.resources == resources
    && resources.vcpus >= 1 && 256 <= resources.memoryMinMib <= resources.memoryMaxMib
  }

  // Made by some request, with the default envelope or one set while stopped, and with no
  // status or one observed.
  predicate Accounted(inst: Instance, ops: seq<Op>, dataDir: Path) {
    && (exists k :: 0 <= k < |ops| && MadeBy(inst, ops[k], dataDir))
    && (inst.resources == Resources(2, 1024, 4096, true)
        || exists k :: 0 <= k < |ops| && Sets(ops[k], inst.resources))
    && (inst.lastStatus == None
        || exists k :: 0 <= k < |ops| && ops[k].Observe? && inst.lastStatus == Some(ops[k].seen))
  }

  lemma AccountedMore(inst: Instance, ops: seq<Op>, op: Op, dataDir: Path)
    requires Accounted(inst, ops, dataDir)
    ensures Accounted(inst, ops + [op], dataDir)
  {
    hide MadeBy, Sets;
    assert forall k :: 0 <= k < |ops| ==> (ops + [op])[k] == ops[k];
  }

  lemma CreatedAccounted(instances: seq<Instance>, ops: seq<Op>, op: Op, dataDir: Path)
    requires op.Create? && NewInstance(instances, op.req, dataDir, op.supply).Ok?
    ensures Accounted(NewInstance(instances, op.req, dataDir, op.supply).value, ops + [op], dataDir)
  {
    hide PortsOf, PairOffered, Named;
    var inst := NewInstance(instances, op.req, dataDir, op.supply).value;
    CreateExactly(instances, op.req, dataDir, op.supply.first, op.supply.second, op.supply.id, op.supply.now);
    assert MadeBy(inst, (ops + [op])[|ops|], dataDir);
  }

  lemma ChangedAccounted(inst: Instance, changed: Instance, ops: seq<Op>, op: Op, dataDir: Path)
    requires Accounted(inst, ops, dataDir)
    requires || (changed == inst.(resources := changed.resources) && Sets(op, changed.resources))
             || (op.Observe? && changed == inst.(lastStatus := Some(op.seen)))
    ensures Accounted(changed, ops + [op], dataDir)
  {
    hide Sets;
    var longer := ops + [op];
    assert longer[|ops|] == op && forall k :: 0 <= k < |ops| ==> longer[k] == ops[k];
    var k :| 0 <= k < |ops| && MadeBy(inst, ops[k], dataDir);
    assert MadeBy(changed, longer[k], dataDir);
  }

  lemma StepAccounts(instances: seq<Instance>, ops: seq<Op>, op: Op, dataDir: Path)
    requires forall inst :: inst in instances ==> Accounted(inst, ops, dataDir)
    ensures forall inst :: inst in Step(instances, op, dataDir) ==> Accounted(inst, ops + [op], dataDir)
  {
    hide Accounted, NewInstance, Sets;
    forall inst | inst in instances
      ensures Accounted(inst, ops + [op], dataDir)
    {
      AccountedMore(inst, ops, op, dataDir);
    }
    match op
    case Create(req, supply) =>
      if NewInstance(instances, req, dataDir, supply).Ok? {
        CreatedAccounted(instances, ops, op, dataDir);
      }
    case Remove(key) =>
    case Reconfigure(key, resources, status) =>
      var i := IndexOfKey(instances, key);
      if Configure(instances, key, resources, status).Ok? {
        SoundSets(op);
        ChangedAccounted(instances[i], instances[i].(resources := resources), ops, op, dataDir);
      }
    case Observe(key, seen) =>
      var i := IndexOfKey(instances, key);
      if i < |instances| {
        ChangedAccounted(instances[i], instances[i].(lastStatus := Some(seen)), ops, op, dataDir);
      }
  }

  lemma SoundSets(op: Op)
    requires op.Reconfigure? && Acceptable(op.resources) && op.status == Stopped
    ensures Sets(op, op.resources)
  {
  }

  lemma {:induction false} RunSnoc(instances: seq<Instance>, ops: seq<Op>, op: Op, dataDir: Path)
    ensures Run(instances, ops + [op], dataDir) == Step(Run(instances, ops, dataDir), op, dataDir)
    decreases |ops|
  {
    hide Step;
    if ops == [] {
      assert [op][1..] == [] && [] + [op] == [op];
    } else {
      assert (ops + [op])[1..] == ops[1..] + [op];
      RunSnoc(Step(instances, ops[0], dataDir), ops[1..], op, dataDir);
    }
  }

  // Over every run from the empty registry, with ids fresh or not, every instance has the name,
  // target, profile, manifest URL, channel, id, time and directories of one request, an envelope
  // that is the default or was set while it was reported stopped, and no status but one observed.
  lemma {:induction false} RunAccounts(ops: seq<Op>, dataDir: Path, inst: Instance)
    requires inst in Run([], ops, dataDir)
    ensures Accounted(inst, ops, dataDir)
    decreases |ops|
  {
    hide Accounted, Step;
    if ops != [] {
      var n := |ops| - 1;
      assert ops == ops[..n] + [ops[n]];
      RunSnoc([], ops[..n], ops[n], dataDir);
      var before := Run([], ops[..n], dataDir);
      forall x | x in before
        ensures Accounted(x, ops[..n], dataDir)
      {
        RunAccounts(ops[..n], dataDir, x);
      }
      StepAccounts(before, ops[..n], ops[n], dataDir);
    }
  }

  // Where no instance is reported stopped when reconfigured, every envelope stays the default.
  lemma NeverStopped(ops: seq<Op>, dataDir: Path, inst: Instance)
    requires forall k :: 0 <= k < |ops| && ops[k].Reconfigure? ==> ops[k].status != Stopped
    requires inst in Run([], ops, dataDir)
    ensures inst.resources == Resources(2, 1024, 4096, true)
  {
    hide Run;
    RunAccounts(ops, dataDir, inst);
  }

  // ---- what stays ----

  predicate SameButChanges(a: Instance, b: Instance) {
    b == a.(resources := b.resources, lastStatus := b.lastStatus)
  }

  predicate Remains(inst: Instance, instances: seq<Instance>) {
    exists i :: 0 <= i < |instances| && SameButChanges(inst, instances[i])
  }

  lemma StepRemains(instances: seq<Instance>, op: Op, dataDir: Path, inst: Instance)
    requires Distinct(instances, dataDir) && SuppliesFresh(instances, op)
    requires Remains(inst, instances) && !(op.Remove? && Bears(inst, op.key))
    ensures Remains(inst, Step(instances, op, dataDir))
  {
    hide NewInstance, WellMade, PortsApart;
    var i :| 0 <= i < |instances| && SameButChanges(inst, instances[i]);
    var after := Step(instances, op, dataDir);
    match op
    case Create(req, supply) =>
      CreateKeeps(instances, req, supply, dataDir);
      assert after[i] == instances[i];
    case Remove(key) =>
      var j := IndexOfKey(instances, key);
      if j < |instances| {
        assert j != i;
        assert if j < i then Apart(instances[j], instances[i]) else Apart(instances[i], instances[j]);
        assert instances[i] in after;
      }
    case Reconfigure(key, resources, status) =>
      assert SameButChanges(inst, after[i]);
    case Observe(key, seen) =>
      assert SameButChanges(inst, after[i]);
  }

  // Over every run an instance stays, with all its request and its ports, until an operation
  // removes it by its own id or name.
  lemma {:induction false} StaysUntilRemoved(instances: seq<Instance>, ops: seq<Op>, dataDir: Path, inst: Instance)
    requires Distinct(instances, dataDir) && RunFresh(instances, ops, dataDir) && Remains(inst, instances)
    requires forall k :: 0 <= k < |ops| && ops[k].Remove? ==> !Bears(inst, ops[k].key)
    ensures Remains(inst, Run(instances, ops, dataDir))
    decreases |ops|
  {
    hide Distinct, Step, SuppliesFresh, Remains, Bears;
    if ops != [] {
      StepKeeps(instances, ops[0], dataDir);
      StepRemains(instances, ops[0], dataDir, inst);
      assert forall k :: 0 <= k < |ops[1..]| ==> ops[1..][k] == ops[k + 1];
      StaysUntilRemoved(Step(instances, ops[0], dataDir), ops[1..], dataDir, inst);
    }
  }
}
