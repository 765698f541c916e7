/**
 * The two records of models/droplet.py: a Droplet (a catalogue entry that
 * instances are launched from) and a DropletInstance (one user's running
 * copy).  JSON-valued columns are stored as text; their getters decode the
 * text with a fallback and their setters encode with json.dumps.
 */
module DropletModel {
  import opened Wrappers
  import opened Json

  datatype Droplet = Droplet(
    id: string,
    tenantId: Option<string>,
    displayName: string,
    description: Option<string>,
    imagePath: Option<string>,
    dropletType: string,
    containerDockerImage: Option<string>,
    containerCores: Option<int>,
    containerMemory: Option<int>,   // MB
    containerStorage: Option<int>,  // GB
    containerPersistentProfilePath: Option<string>,
    persistentVolumes: Option<string>,  // JSON text
    persistentEnabled: Option<bool>,
    exposedPorts: Option<string>,       // JSON text
    environmentVars: Option<string>,    // JSON text
    isActive: Option<bool>,
    createdAt: Option<string>,          // ISO-8601 text of the timestamp
    updatedAt: Option<string>)

  datatype DropletInstance = DropletInstance(
    id: string,
    dropletId: string,
    userId: string,
    containerId: Option<string>,
    containerName: Option<string>,
    containerStatus: string,
    volumeIds: Option<string>,  // JSON text
    volumePath: Option<string>,
    assignedPort: Option<string>,
    accessUrl: Option<string>,
    createdAt: Option<string>,
    updatedAt: Option<string>,
    lastAccessed: Option<string>,
    stoppedAt: Option<string>)

  // ---------------------------------------------------------------------
  // JSON text columns
  // ---------------------------------------------------------------------

  /**
   * A JSON text column read back: the parsed value when the column is
   * non-empty and holds valid JSON, `fallback` otherwise.  It never fails.
   */
  function DecodeColumn(text: Option<string>, fallback: Value): (v: Value)
    ensures v == fallback || (text.Some? && Parse(text.value) == Some(v))
    ensures text == None ==> v == fallback
  {
    match text
    case None => fallback
    case Some(t) =>
      if t == [] then fallback
      else
        match Parse(t)
        case None => fallback
        case Some(v) => v
  }

  /** What `json.dumps` stores in a column. */
  function EncodeColumn(v: Value): (text: Option<string>)
    ensures DecodeColumn(text, Null) == v
    ensures forall fallback :: DecodeColumn(text, fallback) == v
  {
    RoundTrip(v);
    Some(Serialize(v))
  }

  // ---------------------------------------------------------------------
  // Droplet
  // ---------------------------------------------------------------------

  /** A fresh Droplet with the column defaults the model declares. */
  function NewDroplet(id: string, displayName: string, dropletType: string): (d: Droplet)
    ensures d.id == id && d.displayName == displayName && d.dropletType == dropletType
    ensures d.containerCores == Some(2) && d.containerMemory == Some(2048) && d.containerStorage == Some(10)
    ensures d.persistentEnabled == Some(false) && d.isActive == Some(true)
    ensures GetPersistentVolumes(d) == Arr([]) && GetEnvironmentVars(d) == Obj([]) && GetExposedPorts(d) == Arr([])
  {
    Droplet(id, None, displayName, None, None, dropletType, None, Some(2), Some(2048), Some(10),
            None, None, Some(false), None, None, Some(true), None, None)
  }

  function GetPersistentVolumes(d: Droplet): (v: Value)
    ensures d.persistentVolumes == None ==> v == Arr([])
    ensures v == Arr([]) || (d.persistentVolumes.Some? && Parse(d.persistentVolumes.value) == Some(v))
  {
    DecodeColumn(d.persistentVolumes, Arr([]))
  }

  function SetPersistentVolumes(d: Droplet, volumes: Value): (r: Droplet)
    ensures GetPersistentVolumes(r) == volumes
    ensures r == d.(persistentVolumes := r.persistentVolumes)
  {
    d.(persistentVolumes := EncodeColumn(volumes))
  }

  function GetEnvironmentVars(d: Droplet): (v: Value)
    ensures d.environmentVars == None ==> v == Obj([])
    ensures v == Obj([]) || (d.environmentVars.Some? && Parse(d.environmentVars.value) == Some(v))
  {
    DecodeColumn(d.environmentVars, Obj([]))
  }

  function SetEnvironmentVars(d: Droplet, env: Value): (r: Droplet)
    ensures GetEnvironmentVars(r) == env
    ensures r == d.(environmentVars := r.environmentVars)
  {
    d.(environmentVars := EncodeColumn(env))
  }

  function GetExposedPorts(d: Droplet): (v: Value)
    ensures d.exposedPorts == None ==> v == Arr([])
    ensures v == Arr([]) || (d.exposedPorts.Some? && Parse(d.exposedPorts.value) == Some(v))
  {
    DecodeColumn(d.exposedPorts, Arr([]))
  }

  function OptStr(o: Option<string>): Value {
    match o
    case None => Null
    case Some(s) => Str(s)
  }

  function OptBool(o: Option<bool>): Value {
    match o
    case None => Null
    case Some(b) => Bool(b)
  }

  /** `Droplet.to_dict`: the columns a client sees, JSON columns decoded. */
  function DropletToDict(d: Droplet): (v: Value)
    ensures v.Obj? && |v.members| == 14
  {
    Obj([
      Member("id", Str(d.id)),
      Member("tenant_id", OptStr(d.tenantId)),
      Member("display_name", Str(d.displayName)),
      Member("description", OptStr(d.description)),
      Member("image_path", OptStr(d.imagePath)),
      Member("droplet_type", Str(d.dropletType)),
      Member("container_docker_image", OptStr(d.containerDockerImage)),
      Member("persistent_enabled", OptBool(d.persistentEnabled)),
      Member("persistent_volumes", GetPersistentVolumes(d)),
      Member("environment_vars", GetEnvironmentVars(d)),
      Member("exposed_ports", GetExposedPorts(d)),
      Member("is_active", OptBool(d.isActive)),
      Member("created_at", OptStr(d.createdAt)),
      Member("updated_at", OptStr(d.updatedAt))
    ])
  }

  /** `to_dict` shows the JSON columns as their getters decode them. */
  lemma DropletToDictDecoded(d: Droplet)
    ensures DictGet(DropletToDict(d).members, "persistent_volumes") == Some(GetPersistentVolumes(d))
    ensures DictGet(DropletToDict(d).members, "environment_vars") == Some(GetEnvironmentVars(d))
    ensures DictGet(DropletToDict(d).members, "exposed_ports") == Some(GetExposedPorts(d))
  {
    var ms := DropletToDict(d).members;
    assert DictGet(ms, "persistent_volumes") == Some(GetPersistentVolumes(d)) by { DictGetAt(ms, 8); }
    assert DictGet(ms, "environment_vars") == Some(GetEnvironmentVars(d)) by { DictGetAt(ms, 9); }
    assert DictGet(ms, "exposed_ports") == Some(GetExposedPorts(d)) by { DictGetAt(ms, 10); }
  }

  /** `to_dict` copies the plain columns unchanged. */
  lemma DropletToDictCopied(d: Droplet)
    ensures DictGet(DropletToDict(d).members, "id") == Some(Str(d.id))
    ensures DictGet(DropletToDict(d).members, "display_name") == Some(Str(d.displayName))
    ensures DictGet(DropletToDict(d).members, "persistent_enabled") == Some(OptBool(d.persistentEnabled))
  {
    var ms := DropletToDict(d).members;
    assert DictGet(ms, "id") == Some(Str(d.id)) by { DictGetAt(ms, 0); }
    assert DictGet(ms, "display_name") == Some(Str(d.displayName)) by { DictGetAt(ms, 2); }
    assert DictGet(ms, "persistent_enabled") == Some(OptBool(d.persistentEnabled)) by { DictGetAt(ms, 7); }
  }

  // ---------------------------------------------------------------------
  // DropletInstance
  // ---------------------------------------------------------------------

  /** A fresh DropletInstance: status `created`, no container, no volumes. */
  function NewInstance(id: string, dropletId: string, userId: string): (i: DropletInstance)
    ensures i.id == id && i.dropletId == dropletId && i.userId == userId
    ensures i.containerStatus == "created"
    ensures i.containerId == None && i.containerName == None
    ensures i.assignedPort == None && i.accessUrl == None && i.stoppedAt == None
    ensures GetVolumeIds(i) == Arr([])
  {
    DropletInstance(id, dropletId, userId, None, None, "created", None, None, None, None, None, None, None, None)
  }

  function GetVolumeIds(i: DropletInstance): (v: Value)
    ensures i.volumeIds == None ==> v == Arr([])
    ensures v == Arr([]) || (i.volumeIds.Some? && Parse(i.volumeIds.value) == Some(v))
  {
    DecodeColumn(i.volumeIds, Arr([]))
  }

  function SetVolumeIds(i: DropletInstance, ids: Value): (r: DropletInstance)
    ensures GetVolumeIds(r) == ids
    ensures r == i.(volumeIds := r.volumeIds)
  {
    i.(volumeIds := EncodeColumn(ids))
  }

  /** `DropletInstance.to_dict`. */
  function InstanceToDict(i: DropletInstance): (v: Value)
    ensures v.Obj? && |v.members| == 10
  {
    Obj([
      Member("id", Str(i.id)),
      Member("droplet_id", Str(i.dropletId)),
      Member("user_id", Str(i.userId)),
      Member("container_id", OptStr(i.containerId)),
      Member("container_name", OptStr(i.containerName)),
      Member("container_status", Str(i.containerStatus)),
      Member("volume_ids", GetVolumeIds(i)),
      Member("access_url", OptStr(i.accessUrl)),
      Member("created_at", OptStr(i.createdAt)),
      Member("last_accessed", OptStr(i.lastAccessed))
    ])
  }

  /** `to_dict`'s `volume_ids` is `get_volume_ids()`. */
  lemma InstanceToDictVolumeIds(i: DropletInstance)
    ensures DictGet(InstanceToDict(i).members, "volume_ids") == Some(GetVolumeIds(i))
  {
    var ms := InstanceToDict(i).members;
    assert DictGet(ms, "volume_ids") == Some(GetVolumeIds(i)) by { DictGetAt(ms, 6); }
  }

  /** `to_dict` copies the identifying columns unchanged. */
  lemma InstanceToDictIdentity(i: DropletInstance)
    ensures DictGet(InstanceToDict(i).members, "id") == Some(Str(i.id))
    ensures DictGet(InstanceToDict(i).members, "droplet_id") == Some(Str(i.dropletId))
    ensures DictGet(InstanceToDict(i).members, "user_id") == Some(Str(i.userId))
  {
    var ms := InstanceToDict(i).members;
    assert DictGet(ms, "id") == Some(Str(i.id)) by { DictGetAt(ms, 0); }
    assert DictGet(ms, "droplet_id") == Some(Str(i.dropletId)) by { DictGetAt(ms, 1); }
    assert DictGet(ms, "user_id") == Some(Str(i.userId)) by { DictGetAt(ms, 2); }
  }

  /** `to_dict` copies the container columns unchanged. */
  lemma InstanceToDictContainer(i: DropletInstance)
    ensures DictGet(InstanceToDict(i).members, "container_id") == Some(OptStr(i.containerId))
    ensures DictGet(InstanceToDict(i).members, "container_name") == Some(OptStr(i.containerName))
    ensures DictGet(InstanceToDict(i).members, "container_status") == Some(Str(i.containerStatus))
    ensures DictGet(InstanceToDict(i).members, "access_url") == Some(OptStr(i.accessUrl))
  {
    var ms := InstanceToDict(i).members;
    assert DictGet(ms, "container_id") == Some(OptStr(i.containerId)) by { DictGetAt(ms, 3); }
    assert DictGet(ms, "container_name") == Some(OptStr(i.containerName)) by { DictGetAt(ms, 4); }
    assert DictGet(ms, "container_status") == Some(Str(i.containerStatus)) by { DictGetAt(ms, 5); }
    assert DictGet(ms, "access_url") == Some(OptStr(i.accessUrl)) by { DictGetAt(ms, 7); }
  }

  /** Storing a list of volume names and reading it back gives the same names. */
  lemma VolumeIdsRoundTrip(i: DropletInstance, names: seq<string>)
    ensures GetVolumeIds(SetVolumeIds(i, StrList(names))) == StrList(names)
    ensures Iterate(GetVolumeIds(SetVolumeIds(i, StrList(names)))) == Some(StrList(names).items)
  {
  }
}
