/**
 * An in-memory stand-in for the Docker engine the manager drives: a table
 * of containers and a table of named volumes.  Each call answers `Ok`, or
 * `NotFound` when the object it names is absent, or `Failure` for any other
 * daemon error.  Which calls fail is not under the caller's control, so a
 * call may fail at any time and leaves the tables as they were when it does.
 */
module ContainerRuntime {
  import opened Wrappers
  import opened Json

  datatype Outcome<+T> = Ok(value: T) | NotFound | Failure

  datatype Volume = Volume(name: string, driver: string, labels: map<string, string>)

  /** One entry of the `volumes` argument of `containers.run`: where to bind, and the access mode. */
  datatype Mount = Mount(bind: Value, mode: string)

  /** The arguments `containers.run` is called with. */
  datatype RunConfig = RunConfig(
    image: Option<string>,
    name: string,
    volumes: map<Value, Mount>,
    environment: map<string, Value>,
    ports: set<string>,  // container ports, each published on a host port Docker picks
    memLimit: string,
    cpuQuota: Option<int>,
    labels: map<string, string>,
    restartPolicy: string)

  /**
   * A container: what it was started with, whether it runs, the host ports
   * Docker bound for each published port (`container.ports.values()` after a
   * reload), and the raw statistics document the daemon reports for it.
   */
  datatype Container = Container(
    id: string,
    config: RunConfig,
    running: bool,
    portBindings: seq<seq<string>>,
    stats: Value)

  predicate HasLabel(labels: map<string, string>, key: string, value: string) {
    key in labels && labels[key] == value
  }

  /** A bound on the lengths of a finite set of names. */
  ghost function MaxLength(names: set<string>): (n: nat)
    ensures forall s :: s in names ==> |s| <= n
    decreases |names|
  {
    if names == {} then 0
    else
      var s :| s in names;
      var rest := MaxLength(names - {s});
      if |s| > rest then |s| else rest
  }

  lemma UnusedNameExists(names: set<string>)
    ensures exists s: string :: s !in names
  {
    var s := seq(MaxLength(names) + 1, _ => 'c');
    assert s !in names;
  }

  class Engine {
    var containers: map<string, Container>
    var volumes: map<string, Volume>

    constructor ()
      ensures containers == map[] && volumes == map[]
      ensures Valid()
    {
      containers := map[];
      volumes := map[];
    }

    /** Each volume is stored under its own name and each container under its own id. */
    ghost predicate Valid()
      reads this
    {
      && (forall n :: n in volumes ==> volumes[n].name == n)
      && (forall id :: id in containers ==> containers[id].id == id)
    }

    predicate NameInUse(name: string)
      reads this
    {
      exists id :: id in containers && containers[id].config.name == name
    }

    predicate VolumeInUse(name: string)
      reads this
    {
      exists id :: id in containers && Str(name) in containers[id].config.volumes
    }

    /** `volumes.get(name)`. */
    method GetVolume(name: string) returns (r: Outcome<Volume>)
      requires Valid()
      ensures r.Ok? ==> name in volumes && r.value == volumes[name]
      ensures r.NotFound? ==> name !in volumes
    {
      if name in volumes {
        if * { r := Ok(volumes[name]); } else { r := Failure; }
      } else {
        if * { r := NotFound; } else { r := Failure; }
      }
    }

    /** `volumes.create(...)`: a name already taken yields the existing volume. */
    method CreateVolume(name: string, driver: string, labels: map<string, string>) returns (r: Outcome<Volume>)
      modifies this
      requires Valid()
      ensures Valid()
      ensures !r.NotFound?
      ensures r.Ok? ==> name in volumes && r.value == volumes[name]
      ensures r.Ok? && name !in old(volumes) ==> volumes == old(volumes)[name := Volume(name, driver, labels)]
      ensures r.Failure? || name in old(volumes) ==> volumes == old(volumes)
      ensures containers == old(containers)
    {
      if * {
        r := Failure;
      } else if name in volumes {
        r := Ok(volumes[name]);
      } else {
        var v := Volume(name, driver, labels);
        volumes := volumes[name := v];
        r := Ok(v);
      }
    }

    /** `volume.remove()`: refused while a container mounts the volume. */
    method RemoveVolume(name: string) returns (r: Outcome<()>)
      modifies this
      requires Valid()
      ensures Valid()
      ensures r.NotFound? <==> name !in old(volumes)
      ensures r.Ok? ==> !old(VolumeInUse(name)) && volumes == old(volumes) - {name}
      ensures !r.Ok? ==> volumes == old(volumes)
      ensures containers == old(containers)
    {
      if name !in volumes {
        r := NotFound;
      } else if VolumeInUse(name) {
        r := Failure;
      } else if * {
        r := Failure;
      } else {
        volumes := volumes - {name};
        r := Ok(());
      }
    }

    /** `volumes.list(filters={'label': 'key=value'})`: the names of the matching volumes. */
    method ListVolumes(key: string, value: string) returns (r: Outcome<set<string>>)
      requires Valid()
      ensures !r.NotFound?
      ensures r.Ok? ==> r.value == set name | name in volumes && HasLabel(volumes[name].labels, key, value)
    {
      if * {
        r := Failure;
      } else {
        r := Ok(set name | name in volumes && HasLabel(volumes[name].labels, key, value));
      }
    }

    /**
     * `containers.run(..., detach=True)`: a new running container under a
     * fresh id.  A name another container already has is refused.
     */
    method Run(config: RunConfig) returns (r: Outcome<string>)
      modifies this
      requires Valid()
      ensures Valid()
      ensures old(NameInUse(config.name)) ==> !r.Ok?
      ensures r.Ok? ==>
        r.value !in old(containers) && r.value in containers
        && containers == old(containers)[r.value := containers[r.value]]
        && containers[r.value].id == r.value
        && containers[r.value].config == config
        && containers[r.value].running
      ensures !r.Ok? ==> containers == old(containers)
      ensures volumes == old(volumes)
    {
      if NameInUse(config.name) {
        r := Failure;
      } else if * {
        // the image cannot be pulled (ImageNotFound is a NotFound)
        r := NotFound;
      } else if * {
        r := Failure;
      } else {
        UnusedNameExists(containers.Keys);
        var id: string :| id !in containers;
        var bindings: seq<seq<string>> := *;
        var stats: Value := *;
        containers := containers[id := Container(id, config, true, bindings, stats)];
        r := Ok(id);
      }
    }

    /** `containers.get(id)`. */
    method GetContainer(id: string) returns (r: Outcome<Container>)
      requires Valid()
      ensures r.Ok? ==> id in containers && r.value == containers[id]
      ensures r.NotFound? ==> id !in containers
    {
      if id in containers {
        if * { r := Ok(containers[id]); } else { r := Failure; }
      } else {
        if * { r := NotFound; } else { r := Failure; }
      }
    }

    /** `container.reload()` followed by reading `container.ports.values()`. */
    method Reload(id: string) returns (r: Outcome<seq<seq<string>>>)
      requires Valid()
      ensures r.Ok? ==> id in containers && r.value == containers[id].portBindings
      ensures r.NotFound? ==> id !in containers
    {
      if id in containers {
        if * { r := Ok(containers[id].portBindings); } else { r := Failure; }
      } else {
        if * { r := NotFound; } else { r := Failure; }
      }
    }

    /** `container.stats(stream=False)`. */
    method Stats(id: string) returns (r: Outcome<Value>)
      requires Valid()
      ensures r.Ok? ==> id in containers && r.value == containers[id].stats
      ensures r.NotFound? ==> id !in containers
    {
      if id in containers {
        if * { r := Ok(containers[id].stats); } else { r := Failure; }
      } else {
        if * { r := NotFound; } else { r := Failure; }
      }
    }

    /** `container.stop(timeout=...)`; stopping a stopped container succeeds. */
    method Stop(id: string) returns (r: Outcome<()>)
      modifies this
      requires Valid()
      ensures Valid()
      ensures r.NotFound? <==> id !in old(containers)
      ensures r.Ok? ==> containers == old(containers)[id := old(containers)[id].(running := false)]
      ensures !r.Ok? ==> containers == old(containers)
      ensures volumes == old(volumes)
    {
      if id !in containers {
        r := NotFound;
      } else if * {
        r := Failure;
      } else {
        containers := containers[id := containers[id].(running := false)];
        r := Ok(());
      }
    }

    /** `container.restart(timeout=...)`. */
    method Restart(id: string) returns (r: Outcome<()>)
      modifies this
      requires Valid()
      ensures Valid()
      ensures r.NotFound? <==> id !in old(containers)
      ensures r.Ok? ==> containers == old(containers)[id := old(containers)[id].(running := true)]
      ensures !r.Ok? ==> containers == old(containers)
      ensures volumes == old(volumes)
    {
      if id !in containers {
        r := NotFound;
      } else if * {
        r := Failure;
      } else {
        containers := containers[id := containers[id].(running := true)];
        r := Ok(());
      }
    }

    /** `container.remove(force=...)`: without `force` a running container is refused. */
    method RemoveContainer(id: string, force: bool) returns (r: Outcome<()>)
      modifies this
      requires Valid()
      ensures Valid()
      ensures r.NotFound? <==> id !in old(containers)
      ensures r.Ok? ==> (force || !old(containers)[id].running) && containers == old(containers) - {id}
      ensures !r.Ok? ==> containers == old(containers)
      ensures volumes == old(volumes)
    {
      if id !in containers {
        r := NotFound;
      } else if !force && containers[id].running {
        r := Failure;
      } else if * {
        r := Failure;
      } else {
        containers := containers - {id};
        r := Ok(());
      }
    }

    /** `containers.list(all=True, filters={'label': 'key=value'})`: the ids of the matching containers. */
    method ListContainers(key: string, value: string) returns (r: Outcome<set<string>>)
      requires Valid()
      ensures !r.NotFound?
      ensures r.Ok? ==> r.value == set id | id in containers && HasLabel(containers[id].config.labels, key, value)
    {
      if * {
        r := Failure;
      } else {
        r := Ok(set id | id in containers && HasLabel(containers[id].config.labels, key, value));
      }
    }
  }
}
