/**
 * How `create_instance` turns a Droplet and a user into the arguments of
 * `containers.run`: names, volume mounts, environment, published ports,
 * resource limits and labels.  Each step that Python computes with a loop is
 * a method proved against a function here; a step Python would abort with a
 * TypeError or AttributeError (a JSON column of an unexpected shape) yields
 * `None`.
 */
module ContainerConfig {
  import opened Wrappers
  import opened Text
  import opened Json
  import opened DropletModel
  import opened ContainerRuntime

  /** The two fields of the requesting User that the manager reads. */
  datatype UserRef = UserRef(id: string, username: string)

  /** The name of the persistent volume of one (droplet, user) pair. */
  function VolumeName(dropletId: string, userId: string): (name: string)
    ensures name == "nalabo_droplet_" + dropletId + "_" + userId
    ensures |name| == 16 + |dropletId| + |userId|
  {
    "nalabo_droplet_" + dropletId + "_" + userId
  }

  /** `nalabo_<display name>_<username>_<first 8 characters of the instance id>`. */
  function ContainerName(d: Droplet, u: UserRef, instanceId: string): (name: string)
    ensures name == "nalabo_" + d.displayName + "_" + u.username + "_" + Take(instanceId, 8)
    ensures |instanceId| >= 8 ==> name[|name| - 8..] == instanceId[..8]
  {
    "nalabo_" + d.displayName + "_" + u.username + "_" + Take(instanceId, 8)
  }

  /** Where the persistent volume is mounted: the profile path, or `/data` when it is unset or empty. */
  function MountPoint(d: Droplet): (path: string)
    ensures path != []
    ensures d.containerPersistentProfilePath.Some? && d.containerPersistentProfilePath.value != [] ==>
      path == d.containerPersistentProfilePath.value
    ensures d.containerPersistentProfilePath.None? || d.containerPersistentProfilePath.value == [] ==>
      path == "/data"
  {
    match d.containerPersistentProfilePath
    case Some(p) => if p != [] then p else "/data"
    case None => "/data"
  }

  predicate PersistenceOn(d: Droplet, persistData: bool) {
    persistData && d.persistentEnabled == Some(true)
  }

  // ---------------------------------------------------------------------
  // Volume mounts
  // ---------------------------------------------------------------------

  /** A value Python can use as a dict key: lists and dicts are unhashable. */
  predicate Hashable(v: Value) {
    !v.Arr? && !v.Obj?
  }

  /**
   * One entry of `get_persistent_volumes()`: its `host` and `container`
   * values, or `None` when the entry is not a dict or its truthy host path
   * cannot be a key.
   */
  function MountEntry(cfg: Value): Option<(Value, Value)> {
    if !cfg.Obj? then None
    else
      var host := DictGet(cfg.members, "host").GetOr(Null);
      var cont := DictGet(cfg.members, "container").GetOr(Null);
      if Truthy(host) && Truthy(cont) && !Hashable(host) then None
      else Some((host, cont))
  }

  /** Adds the configured extra host→container mounts, later entries overriding earlier ones. */
  function AddMounts(acc: map<Value, Mount>, cfgs: seq<Value>): Option<map<Value, Mount>>
    decreases |cfgs|
  {
    if cfgs == [] then Some(acc)
    else
      match MountEntry(cfgs[0])
      case None => None
      case Some((host, cont)) =>
        var next := if Truthy(host) && Truthy(cont) then acc[host := Mount(cont, "rw")] else acc;
        AddMounts(next, cfgs[1..])
  }

  /** The persistent volume's own mount. */
  function BaseMounts(d: Droplet, volumeName: string): map<Value, Mount> {
    map[Str(volumeName) := Mount(Str(MountPoint(d)), "rw")]
  }

  /**
   * The `volumes` argument of `containers.run` once the volume `volumeName`
   * is provisioned: empty unless persistence is on; `None` when the extra
   * mount list cannot be walked.
   */
  function Mounts(d: Droplet, persistData: bool, volumeName: string): Option<map<Value, Mount>> {
    if !PersistenceOn(d, persistData) then Some(map[])
    else
      match Iterate(GetPersistentVolumes(d))
      case None => None
      case Some(cfgs) => AddMounts(BaseMounts(d, volumeName), cfgs)
  }

  /** The `volume_ids` the record gets: the provisioned volume, or none. */
  function VolumeIds(d: Droplet, persistData: bool, volumeName: string): (ids: seq<string>)
    ensures PersistenceOn(d, persistData) <==> ids == [volumeName]
    ensures !PersistenceOn(d, persistData) <==> ids == []
  {
    if PersistenceOn(d, persistData) then [volumeName] else []
  }

  /** The loop over the configured extra mounts. */
  method AddConfiguredMounts(base: map<Value, Mount>, cfgs: seq<Value>) returns (r: Option<map<Value, Mount>>)
    ensures r == AddMounts(base, cfgs)
  {
    var volumes := base;
    var i := 0;
    while i < |cfgs|
      invariant 0 <= i <= |cfgs|
      invariant AddMounts(volumes, cfgs[i..]) == AddMounts(base, cfgs)
    {
      assert cfgs[i..][1..] == cfgs[i + 1..];
      match MountEntry(cfgs[i])
      case None =>
        return None;
      case Some((host, cont)) =>
        if Truthy(host) && Truthy(cont) {
          volumes := volumes[host := Mount(cont, "rw")];
        }
      i := i + 1;
    }
    assert cfgs[i..] == [];
    return Some(volumes);
  }

  /** Without persistence nothing is mounted. */
  lemma NoPersistenceNoMounts(d: Droplet, persistData: bool, volumeName: string)
    requires !PersistenceOn(d, persistData)
    ensures Mounts(d, persistData, volumeName) == Some(map[])
    ensures VolumeIds(d, persistData, volumeName) == []
  {
  }

  /** Every key `AddMounts` adds is the truthy host path of an entry whose container path is truthy too. */
  lemma {:induction false} AddMountsOnlyConfigured(acc: map<Value, Mount>, cfgs: seq<Value>, k: Value)
    requires AddMounts(acc, cfgs).Some?
    requires k in AddMounts(acc, cfgs).value
    ensures k in acc || exists i :: 0 <= i < |cfgs| && ConfiguresMount(cfgs[i], k)
    decreases |cfgs|
  {
    if cfgs != [] {
      var e := MountEntry(cfgs[0]);
      var host, cont := e.value.0, e.value.1;
      var next := if Truthy(host) && Truthy(cont) then acc[host := Mount(cont, "rw")] else acc;
      AddMountsOnlyConfigured(next, cfgs[1..], k);
      if k !in acc {
        if k in next {
          assert ConfiguresMount(cfgs[0], k);
        } else {
          var i :| 0 <= i < |cfgs[1..]| && ConfiguresMount(cfgs[1..][i], k);
          assert ConfiguresMount(cfgs[i + 1], k);
        }
      }
    }
  }

  /** Entry `cfg` is a dict whose `host` is the truthy key `k` and whose `container` is truthy. */
  predicate ConfiguresMount(cfg: Value, k: Value) {
    cfg.Obj? && Truthy(k)
    && DictGet(cfg.members, "host") == Some(k)
    && DictGet(cfg.members, "container").Some?
    && Truthy(DictGet(cfg.members, "container").value)
  }

  /** A key no entry configures keeps the mount it had. */
  lemma {:induction false} AddMountsKeeps(acc: map<Value, Mount>, cfgs: seq<Value>, k: Value)
    requires AddMounts(acc, cfgs).Some?
    requires k in acc
    requires forall i :: 0 <= i < |cfgs| ==> !ConfiguresMount(cfgs[i], k)
    ensures k in AddMounts(acc, cfgs).value && AddMounts(acc, cfgs).value[k] == acc[k]
    decreases |cfgs|
  {
    if cfgs != [] {
      var e := MountEntry(cfgs[0]);
      var host, cont := e.value.0, e.value.1;
      var next := if Truthy(host) && Truthy(cont) then acc[host := Mount(cont, "rw")] else acc;
      assert !ConfiguresMount(cfgs[0], k);
      assert forall i :: 0 <= i < |cfgs[1..]| ==> cfgs[1..][i] == cfgs[i + 1];
      AddMountsKeeps(next, cfgs[1..], k);
    }
  }

  /**
   * Every entry whose host and container paths are both non-empty is mounted
   * under its host path, and the last such entry for a host path decides its
   * binding: `{bind: container, mode: rw}`.
   */
  lemma {:induction false} AddMountsAddsConfigured(acc: map<Value, Mount>, cfgs: seq<Value>, j: nat)
    requires AddMounts(acc, cfgs).Some?
    requires j < |cfgs| && cfgs[j].Obj?
    requires Truthy(DictGet(cfgs[j].members, "host").GetOr(Null))
    requires Truthy(DictGet(cfgs[j].members, "container").GetOr(Null))
    ensures var host := DictGet(cfgs[j].members, "host").GetOr(Null);
      var m := AddMounts(acc, cfgs).value;
      && host in m
      && (LastToConfigure(cfgs, j, host) ==>
           m[host] == Mount(DictGet(cfgs[j].members, "container").GetOr(Null), "rw"))
    decreases |cfgs|
  {
    var e := MountEntry(cfgs[0]);
    var host, cont := e.value.0, e.value.1;
    var next := if Truthy(host) && Truthy(cont) then acc[host := Mount(cont, "rw")] else acc;
    var k := DictGet(cfgs[j].members, "host").GetOr(Null);
    if j == 0 {
      AddMountsKeepsKey(next, cfgs[1..], host);
      if LastToConfigure(cfgs, j, k) {
        assert forall i :: 0 <= i < |cfgs[1..]| ==> cfgs[1..][i] == cfgs[i + 1];
        AddMountsKeeps(next, cfgs[1..], host);
      }
    } else {
      assert cfgs[1..][j - 1] == cfgs[j];
      assert forall i :: j - 1 < i < |cfgs[1..]| ==> cfgs[1..][i] == cfgs[i + 1];
      AddMountsAddsConfigured(next, cfgs[1..], j - 1);
    }
  }

  /** Keys, once present, stay present. */
  lemma {:induction false} AddMountsKeepsKey(acc: map<Value, Mount>, cfgs: seq<Value>, k: Value)
    requires AddMounts(acc, cfgs).Some?
    requires k in acc
    ensures k in AddMounts(acc, cfgs).value
    decreases |cfgs|
  {
    if cfgs != [] {
      var e := MountEntry(cfgs[0]);
      var host, cont := e.value.0, e.value.1;
      var next := if Truthy(host) && Truthy(cont) then acc[host := Mount(cont, "rw")] else acc;
      AddMountsKeepsKey(next, cfgs[1..], k);
    }
  }

  /**
   * With persistence on, the provisioned volume is bound read-write at the
   * mount point unless an extra entry names the same host path; every other
   * mount comes from an entry with both paths set, and every such entry is
   * mounted, the last one for a host path deciding its binding.
   */
  lemma PersistentMounts(d: Droplet, persistData: bool, volumeName: string)
    requires PersistenceOn(d, persistData)
    requires Mounts(d, persistData, volumeName).Some?
    ensures var cfgs := Iterate(GetPersistentVolumes(d)).value;
      var m := Mounts(d, persistData, volumeName).value;
      && ((forall i :: 0 <= i < |cfgs| ==> !ConfiguresMount(cfgs[i], Str(volumeName))) ==>
           Str(volumeName) in m && m[Str(volumeName)] == Mount(Str(MountPoint(d)), "rw"))
      && (forall k :: k in m ==> k == Str(volumeName) || exists i :: 0 <= i < |cfgs| && ConfiguresMount(cfgs[i], k))
      && BindsConfigured(m, cfgs)
  {
    var cfgs := Iterate(GetPersistentVolumes(d)).value;
    var base := BaseMounts(d, volumeName);
    var m := Mounts(d, persistData, volumeName).value;
    assert m == AddMounts(base, cfgs).value;
    if forall i :: 0 <= i < |cfgs| ==> !ConfiguresMount(cfgs[i], Str(volumeName)) {
      AddMountsKeeps(base, cfgs, Str(volumeName));
    }
    forall k | k in m
      ensures k == Str(volumeName) || exists i :: 0 <= i < |cfgs| && ConfiguresMount(cfgs[i], k)
    {
      AddMountsOnlyConfigured(base, cfgs, k);
    }
    AddMountsBindsConfigured(base, cfgs);
  }

  /** The `host` value of a mount entry. */
  function HostOf(cfg: Value): Value {
    if cfg.Obj? then DictGet(cfg.members, "host").GetOr(Null) else Null
  }

  /**
   * Every entry of `cfgs` that configures a host path is mounted under it, and
   * the last entry for a host path binds it to that entry's container path.
   */
  ghost predicate BindsConfigured(m: map<Value, Mount>, cfgs: seq<Value>) {
    forall j {:trigger HostOf(cfgs[j])} :: 0 <= j < |cfgs| && ConfiguresMount(cfgs[j], HostOf(cfgs[j])) ==>
      && HostOf(cfgs[j]) in m
      && (LastToConfigure(cfgs, j, HostOf(cfgs[j])) ==>
           m[HostOf(cfgs[j])] == Mount(DictGet(cfgs[j].members, "container").value, "rw"))
  }

  /** No entry after the `j`-th configures host path `k`. */
  ghost predicate LastToConfigure(cfgs: seq<Value>, j: nat, k: Value) {
    forall i :: j < i < |cfgs| ==> !ConfiguresMount(cfgs[i], k)
  }

  /** `AddMountsAddsConfigured` for every entry at once. */
  lemma {:induction false} AddMountsBindsConfigured(acc: map<Value, Mount>, cfgs: seq<Value>)
    requires AddMounts(acc, cfgs).Some?
    ensures BindsConfigured(AddMounts(acc, cfgs).value, cfgs)
  {
    var m := AddMounts(acc, cfgs).value;
    forall j | 0 <= j < |cfgs| && ConfiguresMount(cfgs[j], HostOf(cfgs[j]))
      ensures HostOf(cfgs[j]) in m
      ensures LastToConfigure(cfgs, j, HostOf(cfgs[j])) ==>
        m[HostOf(cfgs[j])] == Mount(DictGet(cfgs[j].members, "container").value, "rw")
    {
      AddMountsBindsEntry(acc, cfgs, j, HostOf(cfgs[j]));
    }
  }

  /** `AddMountsAddsConfigured` for an entry that configures host path `k`. */
  lemma AddMountsBindsEntry(acc: map<Value, Mount>, cfgs: seq<Value>, j: nat, k: Value)
    requires AddMounts(acc, cfgs).Some?
    requires j < |cfgs| && ConfiguresMount(cfgs[j], k)
    ensures k in AddMounts(acc, cfgs).value
    ensures LastToConfigure(cfgs, j, k) ==>
      AddMounts(acc, cfgs).value[k] == Mount(DictGet(cfgs[j].members, "container").value, "rw")
  {
    assert DictGet(cfgs[j].members, "host").GetOr(Null) == k;
    assert DictGet(cfgs[j].members, "container").GetOr(Null) == DictGet(cfgs[j].members, "container").value;
    AddMountsAddsConfigured(acc, cfgs, j);
  }


  // ---------------------------------------------------------------------
  // Environment
  // ---------------------------------------------------------------------

  /** The variables the manager injects into every container. */
  function InjectedEnv(u: UserRef, dropletId: string, instanceId: string): map<string, Value> {
    map["NALABO_USER" := Str(u.username), "NALABO_USER_ID" := Str(u.id),
        "NALABO_DROPLET_ID" := Str(dropletId), "NALABO_INSTANCE_ID" := Str(instanceId)]
  }

  /**
   * The droplet's environment dict updated with the injected variables;
   * `None` when the stored environment is not a dict (it has no `update`).
   */
  function Environment(d: Droplet, u: UserRef, instanceId: string): Option<map<string, Value>> {
    match GetEnvironmentVars(d)
    case Obj(ms) => Some(ObjToMap(ms) + InjectedEnv(u, d.id, instanceId))
    case _ => None
  }

  /** The injected variables win; every other variable of the droplet is kept; nothing else appears. */
  lemma EnvironmentOverlay(d: Droplet, u: UserRef, instanceId: string)
    requires GetEnvironmentVars(d).Obj?
    ensures var env := Environment(d, u, instanceId).value;
      var own := ObjToMap(GetEnvironmentVars(d).members);
      && env["NALABO_USER"] == Str(u.username)
      && env["NALABO_USER_ID"] == Str(u.id)
      && env["NALABO_DROPLET_ID"] == Str(d.id)
      && env["NALABO_INSTANCE_ID"] == Str(instanceId)
      && (forall k :: k in own && k !in InjectedEnv(u, d.id, instanceId) ==> k in env && env[k] == own[k])
      && env.Keys == own.Keys + InjectedEnv(u, d.id, instanceId).Keys
  {
  }

  /** A droplet with no stored environment gets exactly the injected variables. */
  lemma DefaultEnvironment(d: Droplet, u: UserRef, instanceId: string)
    requires d.environmentVars == None
    ensures Environment(d, u, instanceId) == Some(InjectedEnv(u, d.id, instanceId))
  {
    assert ObjToMap([]) == map[];
    assert map[] + InjectedEnv(u, d.id, instanceId) == InjectedEnv(u, d.id, instanceId);
  }

  // ---------------------------------------------------------------------
  // Ports
  // ---------------------------------------------------------------------

  /** `f'{port}/tcp'` for a scalar; `None` for a list or dict, which is no port Docker accepts. */
  function PortKey(p: Value): (key: Option<string>)
    ensures p.Num? ==> key == Some(IntToString(p.n) + "/tcp")
    ensures p.Str? ==> key == Some(p.s + "/tcp")
    ensures key.None? <==> p.Arr? || p.Obj?
  {
    match p
    case Num(n) => Some(IntToString(n) + "/tcp")
    case Str(s) => Some(s + "/tcp")
    case Bool(b) => Some(if b then "True/tcp" else "False/tcp")
    case Null => Some("None/tcp")
    case _ => None
  }

  function PortKeys(ports: seq<Value>): (keys: Option<set<string>>)
    ensures keys.Some? <==> forall i :: 0 <= i < |ports| ==> PortKey(ports[i]).Some?
    ensures keys.Some? ==> forall i :: 0 <= i < |ports| ==> PortKey(ports[i]).value in keys.value
    ensures keys.Some? ==> forall k :: k in keys.value ==> exists i :: 0 <= i < |ports| && PortKey(ports[i]) == Some(k)
  {
    if ports == [] then Some({})
    else
      match PortKey(ports[0])
      case None => None
      case Some(k) =>
        match PortKeys(ports[1..])
        case None => None
        case Some(rest) =>
          assert forall i :: 0 <= i < |ports[1..]| ==> ports[1..][i] == ports[i + 1];
          assert forall i :: 0 < i < |ports| ==> ports[i] == ports[1..][i - 1];
          Some({k} + rest)
  }

  /**
   * The published ports: nothing when the stored list is empty or falsy,
   * `None` when a truthy value cannot be iterated or holds a list or dict.
   */
  function Ports(exposed: Value): Option<set<string>> {
    if !Truthy(exposed) then Some({})
    else
      match Iterate(exposed)
      case None => None
      case Some(ps) => PortKeys(ps)
  }

  /** The loop that fills the `ports` dict. */
  method PublishPorts(exposed: Value) returns (r: Option<set<string>>)
    ensures r == Ports(exposed)
  {
    var ports: set<string> := {};
    if Truthy(exposed) {
      var it := Iterate(exposed);
      if it.None? {
        return None;
      }
      var ps := it.value;
      for i := 0 to |ps|
        invariant PortKeys(ps).Some? ==> ports + PortKeys(ps[i..]).value == PortKeys(ps).value
        invariant forall j :: 0 <= j < i ==> PortKey(ps[j]).Some?
        invariant PortKeys(ps[i..]).Some? ==> PortKeys(ps).Some? || exists j :: 0 <= j < i && PortKey(ps[j]).None?
      {
        assert ps[i..][1..] == ps[i + 1..];
        var k := PortKey(ps[i]);
        if k.None? {
          return None;
        }
        ports := ports + {k.value};
      }
      assert ps[|ps|..] == [];
    }
    return Some(ports);
  }

  /** Each exposed port number `p` is published as `"p/tcp"`. */
  lemma ExposedPortNumbers(exposed: seq<int>)
    ensures var ps := seq(|exposed|, i requires 0 <= i < |exposed| => Num(exposed[i]));
      exposed != [] ==> Ports(Arr(ps)) == Some(set p | p in exposed :: IntToString(p) + "/tcp")
  {
    var ps := seq(|exposed|, i requires 0 <= i < |exposed| => Num(exposed[i]));
    if exposed != [] {
      assert Iterate(Arr(ps)) == Some(ps);
      var keys := PortKeys(ps).value;
      forall k | k in keys ensures k in set p | p in exposed :: IntToString(p) + "/tcp" {
        var i :| 0 <= i < |ps| && PortKey(ps[i]) == Some(k);
        assert exposed[i] in exposed;
      }
      forall p | p in exposed ensures IntToString(p) + "/tcp" in keys {
        var i :| 0 <= i < |exposed| && exposed[i] == p;
        assert PortKey(ps[i]) == Some(IntToString(p) + "/tcp");
      }
      assert keys == set p | p in exposed :: IntToString(p) + "/tcp";
    }
  }

  // ---------------------------------------------------------------------
  // Limits, labels, the whole configuration
  // ---------------------------------------------------------------------

  /** `f"{container_memory}m"` when the memory field is truthy, else `"2g"`. */
  function MemLimit(memory: Option<int>): (limit: string)
    ensures memory.None? || memory.value == 0 <==> limit == "2g"
    ensures memory.Some? && memory.value != 0 ==> limit == IntToString(memory.value) + "m"
  {
    match memory
    case Some(m) =>
      if m != 0 then
        var limit := IntToString(m) + "m";
        assert limit[|limit| - 1] == 'm';
        limit
      else "2g"
    case None => "2g"
  }

  /** `container_cores * 100000` when the cores field is truthy, else no quota. */
  function CpuQuota(cores: Option<int>): (quota: Option<int>)
    ensures quota.None? <==> cores.None? || cores.value == 0
    ensures quota.Some? ==> quota.value == cores.value * 100000
  {
    match cores
    case Some(c) => if c != 0 then Some(c * 100000) else None
    case None => None
  }

  /** The limits a droplet with the column defaults gets: 2048 MB and two CPUs' worth of quota. */
  lemma DefaultLimits(id: string, displayName: string, dropletType: string)
    ensures MemLimit(NewDroplet(id, displayName, dropletType).containerMemory) == "2048m"
    ensures CpuQuota(NewDroplet(id, displayName, dropletType).containerCores) == Some(200000)
  {
    assert NatToString(2048) == "2048" by {
      assert NatToString(2) == "2";
      assert NatToString(20) == "20";
      assert NatToString(204) == "204";
    }
  }

  /** The megabyte count reads back from a positive memory limit. */
  lemma MemLimitValue(m: nat)
    requires m > 0
    ensures var limit := MemLimit(Some(m));
      limit[|limit| - 1] == 'm' && AllDigits(limit[..|limit| - 1]) && DigitsValue(limit[..|limit| - 1]) == m
  {
    var limit := MemLimit(Some(m));
    assert limit[..|limit| - 1] == NatToString(m);
    NatToStringValue(m);
  }

  /** The labels every managed container carries. */
  function InstanceLabels(dropletId: string, userId: string, instanceId: string): (labels: map<string, string>)
    ensures HasLabel(labels, "nalabo.managed", "true")
    ensures HasLabel(labels, "nalabo.instance_id", instanceId)
    ensures labels.Keys == {"nalabo.droplet_id", "nalabo.user_id", "nalabo.instance_id", "nalabo.managed"}
  {
    map["nalabo.droplet_id" := dropletId, "nalabo.user_id" := userId,
        "nalabo.instance_id" := instanceId, "nalabo.managed" := "true"]
  }

  /**
   * Everything `containers.run` is called with, given the persistent volume
   * `volumeName`; `None` when one of the steps would raise.
   */
  function PlannedConfig(d: Droplet, u: UserRef, persistData: bool, instanceId: string, volumeName: string): Option<RunConfig> {
    match Mounts(d, persistData, volumeName)
    case None => None
    case Some(volumes) =>
      match Environment(d, u, instanceId)
      case None => None
      case Some(env) =>
        match Ports(GetExposedPorts(d))
        case None => None
        case Some(ports) =>
          Some(RunConfig(d.containerDockerImage, ContainerName(d, u, instanceId), volumes, env, ports,
                         MemLimit(d.containerMemory), CpuQuota(d.containerCores),
                         InstanceLabels(d.id, u.id, instanceId), "unless-stopped"))
  }

  // ---------------------------------------------------------------------
  // The published host port
  // ---------------------------------------------------------------------

  /** The first host port of the first published port that has a binding. */
  function FirstHostPort(bindings: seq<seq<string>>): (port: Option<string>)
    ensures port.None? <==> forall i :: 0 <= i < |bindings| ==> bindings[i] == []
    ensures port.Some? ==> exists i :: 0 <= i < |bindings| && bindings[i] != [] && port.value == bindings[i][0]
                                       && forall j :: 0 <= j < i ==> bindings[j] == []
  {
    if bindings == [] then None
    else if bindings[0] != [] then Some(bindings[0][0])
    else
      var rest := FirstHostPort(bindings[1..]);
      assert forall i :: 0 < i < |bindings| ==> bindings[i] == bindings[1..][i - 1];
      rest
  }

  /** The loop over `container.ports.values()` that stops at the first binding. */
  method FindHostPort(bindings: seq<seq<string>>) returns (port: Option<string>)
    ensures port == FirstHostPort(bindings)
  {
    port := None;
    var i := 0;
    while i < |bindings|
      invariant 0 <= i <= |bindings|
      invariant FirstHostPort(bindings) == FirstHostPort(bindings[i..])
    {
      assert bindings[i..][1..] == bindings[i + 1..];
      if bindings[i] != [] {
        port := Some(bindings[i][0]);
        break;
      }
      i := i + 1;
    }
  }

  function AccessUrl(port: string): string {
    "http://localhost:" + port
  }
}
