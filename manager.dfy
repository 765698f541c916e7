/**
 * The droplet instance lifecycle manager (services/droplet_manager.py): a
 * table of DropletInstance records keyed by id, and the container engine
 * the records describe.  Each public method mirrors one method of
 * `DropletManager`; a Python exception is a `Raised` result.
 */
module DropletManagement {
  import opened Wrappers
  import opened Json
  import opened DropletModel
  import opened ContainerRuntime
  import opened ContainerConfig
  import opened StatsDerivation

  /** Why a method raised. */
  datatype Error =
    | UnknownInstance  // ValueError: no record, or no container to act on
    | NotFoundError    // docker.errors.NotFound the method does not tolerate
    | EngineError      // any other error from the daemon
    | BadColumn        // TypeError, AttributeError or docker-py's ValueError from a JSON column of unexpected shape
    | DuplicateId      // the insert of the new record failed: its id is taken

  datatype Result<+T> = Returned(value: T) | Raised(error: Error)

  /** The exception a failed engine call raises. */
  function EngineErrorOf<T>(o: Outcome<T>): (e: Error)
    ensures e == NotFoundError <==> o.NotFound?
    ensures e == NotFoundError || e == EngineError
  {
    if o.NotFound? then NotFoundError else EngineError
  }

  /** `if instance.container_id:` */
  predicate HasContainer(inst: DropletInstance) {
    inst.containerId.Some? && inst.containerId.value != []
  }

  // ---------------------------------------------------------------------
  // Volume labels and the listing filter
  // ---------------------------------------------------------------------

  /** The labels `create_persistent_volume` gives a new volume, as the source writes them. */
  function VolumeLabelsAsWritten(dropletId: string, userId: string, createdAt: string): (labels: map<string, string>)
    ensures HasLabel(labels, "nalabo.droplet_id", dropletId)
    ensures !HasLabel(labels, "nalabo.managed", "true")
  {
    map["nalabo.droplet_id" := dropletId, "nalabo.user_id" := userId, "nalabo.created_at" := createdAt]
  }

  /** The same labels plus the `nalabo.managed` marker every other managed object carries. */
  function VolumeLabels(dropletId: string, userId: string, createdAt: string): (labels: map<string, string>)
    ensures labels == VolumeLabelsAsWritten(dropletId, userId, createdAt)["nalabo.managed" := "true"]
  {
    VolumeLabelsAsWritten(dropletId, userId, createdAt)["nalabo.managed" := "true"]
  }

  /** The label filter `list_volumes` passes to the engine: the droplet's id when given, else the managed marker. */
  function VolumeFilter(dropletId: Option<string>): (f: (string, string))
    ensures dropletId.Some? && dropletId.value != [] ==> f == ("nalabo.droplet_id", dropletId.value)
    ensures dropletId.None? || dropletId.value == [] ==> f == ("nalabo.managed", "true")
  {
    match dropletId
    case Some(id) => if id != [] then ("nalabo.droplet_id", id) else ("nalabo.managed", "true")
    case None => ("nalabo.managed", "true")
  }

  /** As written, the unfiltered listing matches no volume `create_persistent_volume` makes. */
  lemma UnfilteredListingMissesVolumesAsWritten(dropletId: string, userId: string, createdAt: string)
    ensures var f := VolumeFilter(None);
      !HasLabel(VolumeLabelsAsWritten(dropletId, userId, createdAt), f.0, f.1)
  {
  }

  /**
   * With the marker, the unfiltered listing matches every provisioned volume,
   * and a listing filtered by a droplet id matches exactly that droplet's volumes.
   */
  lemma ListingFindsProvisionedVolumes(dropletId: string, userId: string, createdAt: string, filterId: Option<string>)
    ensures var f := VolumeFilter(filterId);
      HasLabel(VolumeLabels(dropletId, userId, createdAt), f.0, f.1) <==>
        filterId.None? || filterId.value == [] || filterId.value == dropletId
  {
  }

  /** The volume name a `volume_ids` entry denotes; docker-py refuses a name that is not a string. */
  function ListedVolumeNames(inst: DropletInstance): (names: set<string>)
    ensures forall n :: n in names ==> Iterate(GetVolumeIds(inst)).Some? && Str(n) in Iterate(GetVolumeIds(inst)).value
  {
    match Iterate(GetVolumeIds(inst))
    case None => {}
    case Some(ids) => set i | 0 <= i < |ids| && ids[i].Str? :: ids[i].s
  }

  class Manager {
    var records: map<string, DropletInstance>
    const engine: Engine

    constructor (engine: Engine)
      requires engine.Valid()
      ensures this.engine == engine && records == map[]
      ensures Valid()
    {
      this.engine := engine;
      records := map[];
    }

    /** Each record is stored under its own id, and the engine keeps its own invariant. */
    ghost predicate Valid()
      reads this, engine
    {
      && (forall id :: id in records ==> records[id].id == id)
      && engine.Valid()
    }

    /** A managed container whose `nalabo.instance_id` label names no record. */
    predicate IsOrphan(c: Container)
      reads this
    {
      var labels := c.config.labels;
      HasLabel(labels, "nalabo.managed", "true")
      && "nalabo.instance_id" in labels && labels["nalabo.instance_id"] != []
      && labels["nalabo.instance_id"] !in records
    }

    function Orphans(cs: map<string, Container>): (ids: set<string>)
      reads this
      ensures forall id :: id in ids <==> id in cs && IsOrphan(cs[id])
    {
      set id | id in cs && IsOrphan(cs[id])
    }

    // -------------------------------------------------------------------
    // create_persistent_volume
    // -------------------------------------------------------------------

    /**
     * The persistent volume of a (droplet, user) pair: an existing volume of
     * that name is returned and nothing is created, so provisioning a pair
     * twice leaves exactly one volume.
     */
    method CreatePersistentVolume(dropletId: string, userId: string, now: string) returns (r: Result<Volume>)
      modifies engine
      requires Valid()
      ensures Valid()
      ensures var name := VolumeName(dropletId, userId);
        && (r.Returned? ==> r.value.name == name && name in engine.volumes && engine.volumes[name] == r.value)
        && (old(name in engine.volumes) ==> engine.volumes == old(engine.volumes))
        && (engine.volumes == old(engine.volumes)
            || (r.Returned? && name !in old(engine.volumes)
                && engine.volumes == old(engine.volumes)[name := Volume(name, "local", VolumeLabelsAsWritten(dropletId, userId, now))]))
      ensures r.Raised? ==> r.error == EngineError
      ensures engine.containers == old(engine.containers)
    {
      var name := VolumeName(dropletId, userId);
      var existing := engine.GetVolume(name);
      match existing
      case Ok(v) =>
        return Returned(v);
      case Failure =>
        return Raised(EngineError);
      case NotFound =>
        var created := engine.CreateVolume(name, "local", VolumeLabelsAsWritten(dropletId, userId, now));
        if created.Ok? {
          return Returned(created.value);
        }
        return Raised(EngineError);
    }

    // -------------------------------------------------------------------
    // create_instance
    // -------------------------------------------------------------------

    /** The first commit of `create_instance`: the record in status `creating`. */
    method InsertRecord(id: string, dropletId: string, userId: string) returns (inserted: bool)
      modifies this
      requires Valid()
      ensures Valid()
      ensures inserted <==> id !in old(records)
      ensures inserted ==> records == old(records)[id := NewInstance(id, dropletId, userId).(containerStatus := "creating")]
      ensures !inserted ==> records == old(records)
    {
      if id in records {
        return false;
      }
      records := records[id := NewInstance(id, dropletId, userId).(containerStatus := "creating")];
      return true;
    }

    /**
     * `create_instance(droplet, user, persist_data)` with the new record's
     * uuid `newId` and the current time `now` as inputs.  The record is
     * committed in status `creating` before any engine call; on success it
     * is `running` with the container's id, name, volume ids and first
     * published host port; after any later failure it stays, in status
     * `error`, and the error is raised.
     */
    method CreateInstance(d: Droplet, u: UserRef, persistData: bool, newId: string, now: string)
      returns (r: Result<DropletInstance>)
      modifies this, engine
      requires Valid()
      ensures Valid()
      ensures newId in old(records) ==>
        r == Raised(DuplicateId) && records == old(records)
        && engine.containers == old(engine.containers) && engine.volumes == old(engine.volumes)
      ensures newId !in old(records) ==>
        records.Keys == old(records).Keys + {newId}
        && forall k :: k in old(records) ==> records[k] == old(records)[k]
      ensures r.Raised? && newId !in old(records) ==> records[newId].containerStatus == "error"
      ensures r.Returned? ==> records[newId] == r.value && Launched(r.value, d, u, persistData, newId)
      ensures !PersistenceOn(d, persistData) ==> engine.volumes == old(engine.volumes)
      ensures r.Returned? && PersistenceOn(d, persistData) ==> VolumeName(d.id, u.id) in engine.volumes
      ensures forall n :: n in old(engine.volumes) ==> n in engine.volumes && engine.volumes[n] == old(engine.volumes)[n]
      ensures engine.volumes.Keys <= old(engine.volumes).Keys + {VolumeName(d.id, u.id)}
      ensures forall c :: c in old(engine.containers) ==> c in engine.containers && engine.containers[c] == old(engine.containers)[c]
      ensures forall c :: c in engine.containers && c !in old(engine.containers) ==>
        engine.containers[c].config.labels == InstanceLabels(d.id, u.id, newId)
      ensures r.Returned? ==> engine.containers.Keys == old(engine.containers).Keys + {r.value.containerId.value}
    {
      var inserted := InsertRecord(newId, d.id, u.id);
      if !inserted {
        return Raised(DuplicateId);
      }
      var inst := records[newId];
      var volumeName := VolumeName(d.id, u.id);
      var config := PrepareConfig(d, u, persistData, newId, now);
      if config.Raised? {
        r := MarkError(inst, config.error);
        return;
      }
      r := RunAndRecord(inst, config.value, VolumeIds(d, persistData, volumeName));
    }

    /**
     * The `containers.run` call of `create_instance` and what follows it:
     * the one container it adds carries `config`, and the record either
     * ends `running` with that container or in status `error`.
     */
    method RunAndRecord(inst: DropletInstance, config: RunConfig, volumeIds: seq<string>)
      returns (r: Result<DropletInstance>)
      modifies this, engine
      requires Valid() && inst.id in records
      requires inst.assignedPort == None && inst.accessUrl == None
      ensures Valid()
      ensures records.Keys == old(records).Keys
      ensures forall k :: k in records && k != inst.id ==> records[k] == old(records)[k]
      ensures r.Raised? ==> records[inst.id].containerStatus == "error"
      ensures r.Returned? ==>
        && records[inst.id] == r.value
        && r.value.id == inst.id && r.value.dropletId == inst.dropletId && r.value.userId == inst.userId
        && r.value.containerStatus == "running"
        && r.value.containerName == Some(config.name)
        && r.value.containerId.Some? && r.value.containerId.value in engine.containers
        && engine.containers[r.value.containerId.value].config == config
        && GetVolumeIds(r.value) == StrList(volumeIds)
        && r.value.assignedPort == FirstHostPort(engine.containers[r.value.containerId.value].portBindings)
        && r.value.accessUrl == (if r.value.assignedPort.Some? then Some(AccessUrl(r.value.assignedPort.value)) else None)
      ensures r.Returned? ==> engine.containers.Keys == old(engine.containers).Keys + {r.value.containerId.value}
      ensures forall c :: c in old(engine.containers) ==> c in engine.containers && engine.containers[c] == old(engine.containers)[c]
      ensures forall c :: c in engine.containers && c !in old(engine.containers) ==> engine.containers[c].config == config
      ensures engine.volumes == old(engine.volumes)
    {
      var run := engine.Run(config);
      if !run.Ok? {
        r := MarkError(inst, EngineErrorOf(run));
        return;
      }
      r := RecordLaunch(inst, run.value, config.name, volumeIds);
    }

    /**
     * The end of `create_instance` once the container runs: the record gets
     * the container's id and name, status `running`, the volume ids and the
     * first published host port, read back with `container.reload()`.
     */
    method RecordLaunch(inst: DropletInstance, cid: string, name: string, volumeIds: seq<string>)
      returns (r: Result<DropletInstance>)
      modifies this
      requires Valid() && inst.id in records && cid in engine.containers
      requires inst.assignedPort == None && inst.accessUrl == None
      ensures Valid()
      ensures records.Keys == old(records).Keys
      ensures forall k :: k in records && k != inst.id ==> records[k] == old(records)[k]
      ensures r.Raised? ==> records[inst.id].containerStatus == "error"
      ensures r.Returned? ==>
        && records[inst.id] == r.value
        && r.value == inst.(containerId := r.value.containerId, containerName := r.value.containerName,
                            containerStatus := r.value.containerStatus, volumeIds := r.value.volumeIds,
                            assignedPort := r.value.assignedPort, accessUrl := r.value.accessUrl)
        && r.value.containerId == Some(cid) && r.value.containerName == Some(name)
        && r.value.containerStatus == "running"
        && GetVolumeIds(r.value) == StrList(volumeIds)
        && r.value.assignedPort == FirstHostPort(engine.containers[cid].portBindings)
        && r.value.accessUrl == (if r.value.assignedPort.Some? then Some(AccessUrl(r.value.assignedPort.value)) else None)
    {
      var updated := inst.(containerId := Some(cid), containerName := Some(name), containerStatus := "running");
      updated := SetVolumeIds(updated, StrList(volumeIds));
      var reloaded := engine.Reload(cid);
      if !reloaded.Ok? {
        r := MarkError(updated, EngineErrorOf(reloaded));
        return;
      }
      var port := FindHostPort(reloaded.value);
      if port.Some? {
        updated := updated.(assignedPort := port, accessUrl := Some(AccessUrl(port.value)));
      }
      records := records[inst.id := updated];
      return Returned(updated);
    }

    /** The `except` branch of `create_instance`: the record as it stands, in status `error`, and the error raised. */
    method MarkError(inst: DropletInstance, e: Error) returns (r: Result<DropletInstance>)
      modifies this
      requires Valid() && inst.id in records
      ensures Valid()
      ensures records == old(records)[inst.id := inst.(containerStatus := "error")]
      ensures r == Raised(e)
    {
      records := records[inst.id := inst.(containerStatus := "error")];
      return Raised(e);
    }

    /**
     * Everything `create_instance` computes before `containers.run`: the
     * provisioned volume when persistence is on, the mounts, the
     * environment, the ports and the limits.
     */
    method PrepareConfig(d: Droplet, u: UserRef, persistData: bool, newId: string, now: string)
      returns (r: Result<RunConfig>)
      modifies engine
      requires Valid()
      ensures Valid()
      ensures r.Returned? ==> PlannedConfig(d, u, persistData, newId, VolumeName(d.id, u.id)) == Some(r.value)
      ensures r.Returned? ==> r.value.name == ContainerName(d, u, newId)
      ensures r.Returned? ==> r.value.labels == InstanceLabels(d.id, u.id, newId)
      ensures !PersistenceOn(d, persistData) ==> engine.volumes == old(engine.volumes)
      ensures r.Returned? && PersistenceOn(d, persistData) ==> VolumeName(d.id, u.id) in engine.volumes
      ensures forall n :: n in old(engine.volumes) ==> n in engine.volumes && engine.volumes[n] == old(engine.volumes)[n]
      ensures engine.volumes.Keys <= old(engine.volumes).Keys + {VolumeName(d.id, u.id)}
      ensures engine.containers == old(engine.containers)
    {
      var mounts: map<Value, Mount> := map[];
      if PersistenceOn(d, persistData) {
        var volume := CreatePersistentVolume(d.id, u.id, now);
        if volume.Raised? {
          return Raised(volume.error);
        }
        var cfgs := Iterate(GetPersistentVolumes(d));
        if cfgs.None? {
          return Raised(BadColumn);
        }
        var added := AddConfiguredMounts(BaseMounts(d, volume.value.name), cfgs.value);
        if added.None? {
          return Raised(BadColumn);
        }
        mounts := added.value;
      }
      var env := Environment(d, u, newId);
      if env.None? {
        return Raised(BadColumn);
      }
      var ports := PublishPorts(GetExposedPorts(d));
      if ports.None? {
        return Raised(BadColumn);
      }
      var config := RunConfig(d.containerDockerImage, ContainerName(d, u, newId), mounts, env.value, ports.value,
                              MemLimit(d.containerMemory), CpuQuota(d.containerCores),
                              InstanceLabels(d.id, u.id, newId), "unless-stopped");
      return Returned(config);
    }

    /** What a successful `create_instance` leaves: the record describes the container it started. */
    ghost predicate Launched(inst: DropletInstance, d: Droplet, u: UserRef, persistData: bool, newId: string)
      reads this, engine
    {
      var volumeName := VolumeName(d.id, u.id);
      && inst.id == newId && inst.dropletId == d.id && inst.userId == u.id
      && inst.containerStatus == "running"
      && inst.containerName == Some(ContainerName(d, u, newId))
      && inst.containerId.Some? && inst.containerId.value in engine.containers
      && PlannedConfig(d, u, persistData, newId, volumeName) == Some(engine.containers[inst.containerId.value].config)
      && GetVolumeIds(inst) == StrList(VolumeIds(d, persistData, volumeName))
      && inst.assignedPort == FirstHostPort(engine.containers[inst.containerId.value].portBindings)
      && inst.accessUrl == (if inst.assignedPort.Some? then Some(AccessUrl(inst.assignedPort.value)) else None)
    }

    // -------------------------------------------------------------------
    // stop_instance, restart_instance
    // -------------------------------------------------------------------

    /**
     * `stop_instance`: an unknown id raises; a container that has vanished
     * is tolerated; the record ends `stopped` with `stopped_at` set.
     */
    method StopInstance(id: string, now: string) returns (r: Result<bool>)
      modifies this, engine
      requires Valid()
      ensures Valid()
      ensures r == Raised(UnknownInstance) <==> id !in old(records)
      ensures r.Raised? ==> r.error != NotFoundError && records == old(records)
      ensures r.Returned? ==>
        r.value && records == old(records)[id := old(records)[id].(containerStatus := "stopped", stoppedAt := Some(now))]
      ensures r.Returned? && HasContainer(old(records)[id]) ==>
        var cid := old(records)[id].containerId.value;
        cid !in engine.containers || !engine.containers[cid].running
      ensures engine.containers.Keys == old(engine.containers).Keys
      ensures forall c :: c in old(engine.containers) && !(id in old(records) && HasContainer(old(records)[id]) && c == old(records)[id].containerId.value) ==>
        engine.containers[c] == old(engine.containers)[c]
      ensures forall c :: c in engine.containers ==>
        engine.containers[c] == old(engine.containers)[c] || engine.containers[c] == old(engine.containers)[c].(running := false)
      ensures engine.volumes == old(engine.volumes)
    {
      if id !in records {
        return Raised(UnknownInstance);
      }
      var inst := records[id];
      if HasContainer(inst) {
        var cid := inst.containerId.value;
        var got := engine.GetContainer(cid);
        if got.Failure? {
          return Raised(EngineError);
        }
        if got.Ok? {
          var stopped := engine.Stop(cid);
          if stopped.Failure? {
            return Raised(EngineError);
          }
        }
      }
      records := records[id := inst.(containerStatus := "stopped", stoppedAt := Some(now))];
      return Returned(true);
    }

    /** `restart_instance`: needs a record with a container; a vanished container raises. */
    method RestartInstance(id: string, now: string) returns (r: Result<bool>)
      modifies this, engine
      requires Valid()
      ensures Valid()
      ensures r == Raised(UnknownInstance) <==> id !in old(records) || !HasContainer(old(records)[id])
      ensures r.Raised? ==> records == old(records)
      ensures r == Raised(NotFoundError) ==> old(records)[id].containerId.value !in old(engine.containers)
      ensures r.Returned? ==>
        var cid := old(records)[id].containerId.value;
        && r.value
        && records == old(records)[id := old(records)[id].(containerStatus := "running", updatedAt := Some(now))]
        && cid in old(engine.containers) && cid in engine.containers
        && engine.containers[cid] == old(engine.containers)[cid].(running := true)
      ensures engine.containers.Keys == old(engine.containers).Keys
      ensures forall c :: c in old(engine.containers) && !(id in old(records) && HasContainer(old(records)[id]) && c == old(records)[id].containerId.value) ==>
        engine.containers[c] == old(engine.containers)[c]
      ensures r.Raised? ==> engine.containers == old(engine.containers)
      ensures engine.volumes == old(engine.volumes)
    {
      if id !in records || !HasContainer(records[id]) {
        return Raised(UnknownInstance);
      }
      var inst := records[id];
      var cid := inst.containerId.value;
      var got := engine.GetContainer(cid);
      if !got.Ok? {
        return Raised(EngineErrorOf(got));
      }
      var restarted := engine.Restart(cid);
      if !restarted.Ok? {
        return Raised(EngineErrorOf(restarted));
      }
      records := records[id := inst.(containerStatus := "running", updatedAt := Some(now))];
      return Returned(true);
    }

    // -------------------------------------------------------------------
    // delete_instance
    // -------------------------------------------------------------------

    /**
     * `delete_instance(id, remove_volumes)`: stops and removes the container
     * (a missing one is tolerated), removes the listed volumes when asked
     * (a missing one is skipped), then deletes the record.  Any other engine
     * error is raised and the record survives.
     */
    method DeleteInstance(id: string, removeVolumes: bool) returns (r: Result<bool>)
      modifies this, engine
      requires Valid()
      ensures Valid()
      ensures r == Raised(UnknownInstance) <==> id !in old(records)
      ensures r.Raised? ==> r.error != NotFoundError && records == old(records)
      ensures r.Returned? ==> r.value && records == old(records) - {id}
      ensures r.Returned? && HasContainer(old(records)[id]) ==> old(records)[id].containerId.value !in engine.containers
      ensures forall k :: k in engine.containers ==>
        k in old(engine.containers)
        && (engine.containers[k] == old(engine.containers)[k] || engine.containers[k] == old(engine.containers)[k].(running := false))
      ensures forall k :: k in old(engine.containers) && k !in engine.containers ==>
        id in old(records) && HasContainer(old(records)[id]) && k == old(records)[id].containerId.value
      ensures forall n :: n in engine.volumes ==> n in old(engine.volumes) && engine.volumes[n] == old(engine.volumes)[n]
      ensures !removeVolumes ==> engine.volumes == old(engine.volumes)
      ensures r.Returned? && removeVolumes ==> forall n :: n in ListedVolumeNames(old(records)[id]) ==> n !in engine.volumes
      ensures id in old(records) ==>
        forall n :: n in old(engine.volumes) && n !in ListedVolumeNames(old(records)[id]) ==> n in engine.volumes
    {
      if id !in records {
        return Raised(UnknownInstance);
      }
      var inst := records[id];
      if HasContainer(inst) {
        var cid := inst.containerId.value;
        var got := engine.GetContainer(cid);
        if got.Failure? {
          return Raised(EngineError);
        }
        if got.Ok? {
          var stopped := engine.Stop(cid);
          if stopped.Failure? {
            return Raised(EngineError);
          }
          if stopped.Ok? {
            var removed := engine.RemoveContainer(cid, false);
            if removed.Failure? {
              return Raised(EngineError);
            }
          }
        }
      }
      if removeVolumes {
        var failed := RemoveListedVolumes(inst);
        if failed.Some? {
          return Raised(failed.value);
        }
      }
      records := records - {id};
      return Returned(true);
    }

    /**
     * The loop over `get_volume_ids()`: each volume is removed; one that is
     * missing is skipped.  A column that cannot be iterated (TypeError) or an
     * entry that is not a string (docker-py's ValueError) raises `BadColumn`;
     * any other engine error raises `EngineError`.
     */
    method RemoveListedVolumes(inst: DropletInstance) returns (failed: Option<Error>)
      modifies engine
      requires Valid()
      ensures Valid()
      ensures failed.None? ==> forall n :: n in ListedVolumeNames(inst) ==> n !in engine.volumes
      ensures forall n :: n in old(engine.volumes) && n !in ListedVolumeNames(inst) ==> n in engine.volumes
      ensures failed.Some? ==> failed.value == BadColumn || failed.value == EngineError
      ensures Iterate(GetVolumeIds(inst)).None? ==> failed == Some(BadColumn)
      ensures failed == Some(BadColumn) ==>
        var it := Iterate(GetVolumeIds(inst));
        it.None? || exists j :: 0 <= j < |it.value| && !it.value[j].Str?
      ensures forall n :: n in engine.volumes ==> n in old(engine.volumes) && engine.volumes[n] == old(engine.volumes)[n]
      ensures engine.containers == old(engine.containers)
    {
      var it := Iterate(GetVolumeIds(inst));
      if it.None? {
        return Some(BadColumn);
      }
      var ids := it.value;
      var i := 0;
      while i < |ids|
        invariant 0 <= i <= |ids|
        invariant forall j :: 0 <= j < i && ids[j].Str? ==> ids[j].s !in engine.volumes
        invariant forall n :: n in engine.volumes ==> n in old(engine.volumes) && engine.volumes[n] == old(engine.volumes)[n]
        invariant forall n :: n in old(engine.volumes) && n !in ListedVolumeNames(inst) ==> n in engine.volumes
        invariant engine.containers == old(engine.containers)
      {
        if !ids[i].Str? {
          return Some(BadColumn);
        }
        var name := ids[i].s;
        var got := engine.GetVolume(name);
        if got.Failure? {
          return Some(EngineError);
        }
        if got.Ok? {
          var removed := engine.RemoveVolume(name);
          if removed.Failure? {
            return Some(EngineError);
          }
        }
        i := i + 1;
      }
      return None;
    }

    // -------------------------------------------------------------------
    // get_instance_stats
    // -------------------------------------------------------------------

    /** `get_instance_stats`: `None` without a record or container, or on any error. */
    method GetInstanceStats(id: string) returns (r: Option<Stats>)
      requires Valid()
      ensures id !in records || !HasContainer(records[id]) ==> r == None
      ensures r.Some? ==>
        var cid := records[id].containerId.value;
        cid in engine.containers && r == DeriveStats(engine.containers[cid].stats)
    {
      if id !in records || !HasContainer(records[id]) {
        return None;
      }
      var cid := records[id].containerId.value;
      var got := engine.GetContainer(cid);
      if !got.Ok? {
        return None;
      }
      var raw := engine.Stats(cid);
      if !raw.Ok? {
        return None;
      }
      return DeriveStats(raw.value);
    }

    // -------------------------------------------------------------------
    // cleanup_orphaned_containers, list_volumes
    // -------------------------------------------------------------------

    /**
     * `cleanup_orphaned_containers`: force-removes the managed containers
     * whose instance label names no record and counts them; any error
     * answers 0, even after some removals.
     */
    method CleanupOrphanedContainers() returns (cleaned: nat)
      modifies engine
      requires Valid()
      ensures Valid()
      ensures forall k :: k in engine.containers ==> k in old(engine.containers) && engine.containers[k] == old(engine.containers)[k]
      ensures forall k :: k in old(engine.containers) && k !in engine.containers ==> k in Orphans(old(engine.containers))
      ensures cleaned != 0 ==>
        cleaned == |Orphans(old(engine.containers))|
        && engine.containers.Keys == old(engine.containers).Keys - Orphans(old(engine.containers))
      ensures engine.volumes == old(engine.volumes)
    {
      var listed := engine.ListContainers("nalabo.managed", "true");
      if !listed.Ok? {
        return 0;
      }
      ghost var orphans := Orphans(engine.containers);
      var todo := listed.value;
      ghost var removed: set<string> := {};
      cleaned := 0;
      while todo != {}
        invariant todo !! removed
        invariant removed <= orphans
        invariant orphans - removed <= todo
        invariant todo <= old(engine.containers).Keys
        invariant forall k :: k in todo ==> HasLabel(old(engine.containers)[k].config.labels, "nalabo.managed", "true")
        invariant forall k :: k in engine.containers <==> k in old(engine.containers) && k !in removed
        invariant forall k :: k in engine.containers ==> engine.containers[k] == old(engine.containers)[k]
        invariant cleaned == |removed|
        invariant engine.volumes == old(engine.volumes)
        decreases |todo|
      {
        var cid :| cid in todo;
        todo := todo - {cid};
        var labels := engine.containers[cid].config.labels;
        if "nalabo.instance_id" in labels && labels["nalabo.instance_id"] != [] && labels["nalabo.instance_id"] !in records {
          var gone := engine.RemoveContainer(cid, true);
          if !gone.Ok? {
            return 0;
          }
          removed := removed + {cid};
          cleaned := cleaned + 1;
        }
      }
      assert removed == orphans;
    }

    /** The names `list_volumes(droplet_id)` lists: the volumes matching its filter, or none on error. */
    method ListVolumes(dropletId: Option<string>) returns (names: set<string>)
      requires Valid()
      ensures var f := VolumeFilter(dropletId);
        forall n :: n in names ==> n in engine.volumes && HasLabel(engine.volumes[n].labels, f.0, f.1)
      ensures var f := VolumeFilter(dropletId);
        names == {} || names == set n | n in engine.volumes && HasLabel(engine.volumes[n].labels, f.0, f.1)
    {
      var f := VolumeFilter(dropletId);
      var listed := engine.ListVolumes(f.0, f.1);
      if listed.Ok? {
        return listed.value;
      }
      return {};
    }
  }
}
