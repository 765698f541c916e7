# Nalabo droplet instances, workshop gates and account checks in Dafny

This project models the core of the Nalabo lab platform and proves properties of it.

- **Droplet instance lifecycle manager** (`DropletManager` in services/droplet_manager.py):
  - Provisions one persistent volume per (droplet, user) pair.
  - Creates an instance: it inserts a `DropletInstance` record in status `creating`, computes the container's mounts, environment, ports and limits, starts the container, and records the result (`running`, or `error` with the error raised).
  - Stops, restarts and deletes instances, derives usage statistics, sweeps orphaned containers, and picks the volume-listing filter.
- **Droplet and instance records** (models/droplet.py): field defaults, the JSON columns read with a fallback and written with `json.dumps`, and `to_dict`.
- **Workshop routes** (routes/workshops.py): the permission, ownership and status gates of the seven workshop and user-workshop handlers, and the rows each one adds, changes or deletes.
- **Account routes** (routes/auth.py): the ordered guards of `register` and the user row it adds, the cookie check of `droplet_connect`, and the shape of `generate_auth_token`'s result.
- **Required-field decorator** (utils/validation.py): the missing-field list and the response of `require_json_fields`.

Layout, one module per file:

| file | module | what it holds |
|---|---|---|
| wrappers.dfy | `Wrappers` | `Option` |
| text.dfy | `Text` | decimal and hexadecimal numerals as Python writes them, `str.join`, slicing |
| json.dfy | `Json` | JSON values. `Serialize` writes `json.dumps` text with default separators and `\uXXXX` escapes. `Parse` reads JSON text. The round trip is proved. Also Python's view of a decoded value: truthiness, iteration, `dict.get` |
| droplet.dfy | `DropletModel` | `Droplet` and `DropletInstance` as datatypes, their getters, setters and `to_dict` |
| runtime.dfy | `ContainerRuntime` | the container engine as a class over containers and volumes. Each call returns `Ok`, `NotFound` or `Failure`; a failure can happen on any call |
| config.dfy | `ContainerConfig` | the names, mounts, environment, ports, limits and labels `create_instance` computes, and the host-port pick |
| stats.dfy | `StatsDerivation` | the arithmetic of `get_instance_stats` over the engine's raw statistics document |
| manager.dfy | `DropletManagement` | the `Manager` class: a map of instance records and the engine, with one method per `DropletManager` method |
| workshops.dfy | `Workshops` | the `WorkshopTables` class: workshops by id and `UserWorkshop` rows in table order, with one method per handler |
| auth.dfy | `Auth` | the registration guards, the `Accounts` class and its `Register` method, `droplet_connect`, token generation |
| validation.dfy | `Validation` | the missing-field list and `require_json_fields` |

Inputs that stand in for what the Python code cannot know ahead of time:

- The uuids of new rows (`newId`) and the current time (`now`) are inputs.
- Whether a permission check passes is a boolean input (`allowed`).
- The bcrypt hash of a password is an input text.
- The random draws behind a token are an input, one alphabet index per character.
- The database is the class state.
- The Docker daemon is the `Engine` class, whose calls may fail at any point.

Three behaviours of the code are worth stating outright, because the model keeps them:

- `delete_instance` calls `remove()` without `force` (services/droplet_manager.py:208). That call is not refused for a running container, because the container was stopped just before.
- In `delete_instance`'s volume loop (services/droplet_manager.py:214-221), only NotFound is caught. Any other volume error propagates, and the record is not deleted.
- The orphan sweep answers 0 after any error (services/droplet_manager.py:312-314), even when it has already removed containers. `CleanupOrphanedContainers` states this.

## Model

| member | source | states |
|---|---|---|
| Json.RoundTrip | models/droplet.py:53-55 | Parsing the text `json.dumps` writes for a value gives back that value. This holds for every value, including nested lists, dicts, escapes and characters outside the BMP |
| Json.DictGet | services/droplet_manager.py:95-96 | `d.get(k)` on a decoded object: it is present exactly when some member has the key, and its value is the one the decoded dict stores, i.e. the last duplicate wins |
| Json.DictGetAt | services/droplet_manager.py:95-96 | A member with no later duplicate of its key is what `get` returns for that key |
| Json.Iterate | services/droplet_manager.py:94 | `for x in v`: a list yields its items, a dict its keys and a string its characters. Other values cannot be iterated. The result is empty exactly when the value is falsy |
| DropletModel.DecodeColumn | models/droplet.py:44-51 | A JSON column read back is either its parsed value or the fallback. A null column gives the fallback. It never fails |
| DropletModel.EncodeColumn | models/droplet.py:53-55 | Reading back what `json.dumps` stored gives the value, whatever the fallback |
| DropletModel.NewDroplet | models/droplet.py:8-42 | Defaults: 2 cores, 2048 MB of memory, 10 GB of storage, persistence off, active. The three JSON getters return `[]`, `{}` and `[]` |
| DropletModel.GetPersistentVolumes | models/droplet.py:44-51 | `[]` for a null column; otherwise `[]` or the column's parsed value |
| DropletModel.SetPersistentVolumes | models/droplet.py:53-55 | The getter then returns the value set, and no other field changes |
| DropletModel.GetEnvironmentVars | models/droplet.py:57-64 | `{}` for a null column; otherwise `{}` or the column's parsed value |
| DropletModel.SetEnvironmentVars | models/droplet.py:66-68 | The getter then returns the value set, and no other field changes |
| DropletModel.GetExposedPorts | models/droplet.py:70-77 | `[]` for a null column; otherwise `[]` or the column's parsed value |
| DropletModel.DropletToDictDecoded | models/droplet.py:90-92 | `to_dict` shows the three JSON columns as their getters decode them |
| DropletModel.DropletToDictCopied | models/droplet.py:82-89 | `to_dict` copies id, display name and the persistence flag unchanged |
| DropletModel.NewInstance | models/droplet.py:100-121 | A new instance has status `created`, no container, no port, no URL and an empty volume id list |
| DropletModel.GetVolumeIds | models/droplet.py:123-130 | `[]` for a null column; otherwise `[]` or the column's parsed value |
| DropletModel.SetVolumeIds | models/droplet.py:132-134 | `get_volume_ids` then returns the list set, and no other field changes |
| DropletModel.VolumeIdsRoundTrip | models/droplet.py:123-134 | A list of volume names, stored and read back, is the same list and iterates to the same names |
| DropletModel.InstanceToDictVolumeIds | models/droplet.py:145 | `to_dict`'s `volume_ids` equals `get_volume_ids()` |
| DropletModel.InstanceToDictIdentity | models/droplet.py:139-141 | `to_dict` copies the id, droplet id and user id unchanged |
| DropletModel.InstanceToDictContainer | models/droplet.py:142-146 | `to_dict` copies the container id, name, status and access URL unchanged |
| ContainerRuntime.Engine.GetVolume | services/droplet_manager.py:31 | `volumes.get`: the stored volume, NotFound only when the name is unknown, or a failure. Nothing changes |
| ContainerRuntime.Engine.CreateVolume | services/droplet_manager.py:38-46 | `volumes.create`: on success the volume is stored under its name, and the only change is that name |
| ContainerRuntime.Engine.RemoveVolume | services/droplet_manager.py:217-218 | `volume.remove`: NotFound exactly when the name is unknown. On success the name is gone and no container mounted it; otherwise nothing changes |
| ContainerRuntime.Engine.ListVolumes | services/droplet_manager.py:323 | `volumes.list` with a label filter: exactly the volumes that carry the label |
| ContainerRuntime.Engine.Run | services/droplet_manager.py:121-137 | `containers.run`: on success there is a new running container under a fresh id with the given configuration. A name already in use is refused. Nothing else changes |
| ContainerRuntime.Engine.GetContainer | services/droplet_manager.py:174 | `containers.get`: the stored container, NotFound only when the id is unknown, or a failure |
| ContainerRuntime.Engine.Reload | services/droplet_manager.py:146 | `container.reload()`: that container's port bindings |
| ContainerRuntime.Engine.Stats | services/droplet_manager.py:263 | `container.stats(stream=False)`: that container's raw statistics document |
| ContainerRuntime.Engine.Stop | services/droplet_manager.py:175 | `container.stop`: on success the container is no longer running and nothing else changes |
| ContainerRuntime.Engine.Restart | services/droplet_manager.py:242 | `container.restart`: on success the container is running and nothing else changes |
| ContainerRuntime.Engine.RemoveContainer | services/droplet_manager.py:208 | `container.remove(force=...)`: on success the id is gone. Without force, a running container is refused |
| ContainerRuntime.Engine.ListContainers | services/droplet_manager.py:294-297 | `containers.list(all=True)` with a label filter: exactly the containers, running or not, that carry the label |
| ContainerConfig.VolumeName | services/droplet_manager.py:27 | The volume of a pair is `nalabo_droplet_<droplet id>_<user id>` |
| ContainerConfig.ContainerName | services/droplet_manager.py:78 | `nalabo_<display name>_<username>_<id[:8]>`; it ends with the first eight characters of the instance id |
| ContainerConfig.MountPoint | services/droplet_manager.py:90 | The profile path when it is non-empty, else `/data` |
| ContainerConfig.VolumeIds | services/droplet_manager.py:82-87 | The recorded volume ids are `[volume name]` exactly when persistence is requested and enabled, and `[]` otherwise |
| ContainerConfig.AddConfiguredMounts | services/droplet_manager.py:94-98 | The loop over the configured volumes computes `AddMounts`: each pair with a truthy host and container path adds `host -> {bind: container, mode: rw}`. A shape Python would fail on fails |
| ContainerConfig.NoPersistenceNoMounts | services/droplet_manager.py:84 | Without persistence there are no mounts and no volume ids |
| ContainerConfig.AddMountsOnlyConfigured | services/droplet_manager.py:94-98 | Every mount comes from the starting map or from a configured pair with both paths truthy |
| ContainerConfig.AddMountsKeeps | services/droplet_manager.py:94-98 | A mount that no configured pair names keeps its binding |
| ContainerConfig.AddMountsAddsConfigured | services/droplet_manager.py:95-98 | A configured pair with both paths truthy is mounted under its host path. When no later pair names the same host path, that path is bound to `{bind: container, mode: rw}` with this pair's container path |
| ContainerConfig.AddMountsKeepsKey | services/droplet_manager.py:94-98 | No mount key present before the loop is lost |
| ContainerConfig.PersistentMounts | services/droplet_manager.py:84-98 | With persistence on, the provisioned volume is mounted, and every other mount comes from a configured pair. The volume is bound at the mount point, read-write, unless a configured pair names the same key. Every pair with both paths truthy is mounted, and the last pair for a host path decides its binding |
| ContainerConfig.EnvironmentOverlay | services/droplet_manager.py:101-107 | The environment is the droplet's dict overlaid with the four `NALABO_*` keys. Injected keys win; every other droplet key keeps its value |
| ContainerConfig.DefaultEnvironment | services/droplet_manager.py:101-107 | With no environment column, the environment is exactly the four injected keys |
| ContainerConfig.PortKey | services/droplet_manager.py:114 | `f'{port}/tcp'`: a number gives its decimal text, a string itself, then `/tcp`. The model refuses a list or dict port; Python builds the key from its text and the engine refuses it |
| ContainerConfig.PortKeys | services/droplet_manager.py:113-114 | Each exposed port gives a key, and each key comes from an exposed port |
| ContainerConfig.PublishPorts | services/droplet_manager.py:110-114 | The loop builds exactly `Ports(exposed)` |
| ContainerConfig.ExposedPortNumbers | services/droplet_manager.py:110-114 | For a list of numbers, the published keys are exactly `"<p>/tcp"` for each `p` |
| ContainerConfig.MemLimit | services/droplet_manager.py:117 | `"2g"` exactly when memory is unset or 0, else `"<M>m"` |
| ContainerConfig.CpuQuota | services/droplet_manager.py:118 | None exactly when cores is unset or 0, else `cores * 100000` |
| ContainerConfig.DefaultLimits | services/droplet_manager.py:117-118 | A droplet with default columns runs with `2048m` and quota 200000 |
| ContainerConfig.MemLimitValue | services/droplet_manager.py:117 | For M > 0 the limit is M's digits and then `m`; the digits read back as M |
| ContainerConfig.InstanceLabels | services/droplet_manager.py:130-135 | The container carries exactly the droplet, user, instance and `nalabo.managed=true` labels |
| ContainerConfig.FirstHostPort | services/droplet_manager.py:147-152 | None exactly when every binding is empty; otherwise the host port of a non-empty binding, the first there is |
| ContainerConfig.FindHostPort | services/droplet_manager.py:146-152 | The loop with `break` computes `FirstHostPort` |
| StatsDerivation.Index | services/droplet_manager.py:266-269 | `d[k]` succeeds exactly on a dict holding the key |
| StatsDerivation.GetDefault | services/droplet_manager.py:273-274 | `d.get(k, default)` succeeds on any dict and gives the default when the key is absent |
| StatsDerivation.Percent | services/droplet_manager.py:270-275 | 0 when the whole is not positive; between 0 and 100 when the part lies within the whole |
| StatsDerivation.DeriveStats | services/droplet_manager.py:262-284 | The statistics exist exactly when both CPU deltas, the memory usage and limit, and both network counters can be read; otherwise Python raises |
| StatsDerivation.CpuGuard | services/droplet_manager.py:266-270 | CPU percent is 0 when `system_delta <= 0`, and `cpu_delta / system_delta * 100` otherwise |
| StatsDerivation.MemoryGuard | services/droplet_manager.py:273-275 | Memory percent is 0 when the limit is not positive, and otherwise usage divided by limit, times 100 |
| StatsDerivation.MissingMemoryIsZero | services/droplet_manager.py:273-274 | In any document whose `memory_stats` is a dict, a usage or limit missing from that dict counts as 0 |
| StatsDerivation.MissingCountersAreZero | services/droplet_manager.py:282-283 | In any document whose `networks` is a dict, a missing `eth0`, or a missing counter in a dict `eth0`, gives 0 |
| StatsDerivation.MissingNetworksFails | services/droplet_manager.py:282 | A document without `networks` raises, so the method answers None |
| DropletManagement.VolumeLabelsAsWritten | services/droplet_manager.py:41-45 | The labels given to a new volume carry the droplet id and lack the `nalabo.managed` marker |
| DropletManagement.VolumeLabels | services/droplet_manager.py:41-45 | The corrected labels: the same, plus `nalabo.managed=true` |
| DropletManagement.VolumeFilter | services/droplet_manager.py:319-321 | A truthy droplet id filters on `nalabo.droplet_id`; otherwise the filter is `nalabo.managed=true` |
| DropletManagement.UnfilteredListingMissesVolumesAsWritten | services/droplet_manager.py:316-323 | With the labels as written, `list_volumes()` without an id never matches a provisioned volume |
| DropletManagement.ListingFindsProvisionedVolumes | services/droplet_manager.py:316-323 | With the corrected labels, a provisioned volume is listed exactly when no droplet id is given or the id is its droplet's |
| DropletManagement.ListedVolumeNames | services/droplet_manager.py:215 | Every name the volume loop acts on is a string entry of `get_volume_ids()` |
| DropletManagement.EngineErrorOf | services/droplet_manager.py:34 | A failed engine call raises NotFound exactly when the object was missing |
| DropletManagement.Manager.Orphans | services/droplet_manager.py:300-306 | The orphans are exactly the managed containers whose non-empty `nalabo.instance_id` names no record |
| DropletManagement.Manager.CreatePersistentVolume | services/droplet_manager.py:24-53 | It returns the volume named for the pair. An existing volume is returned and nothing is created, so provisioning twice leaves one volume. Otherwise precisely that volume is added, with the droplet id, user id and creation time as its only labels (no `nalabo.managed` marker), or an error is raised. Containers are untouched |
| DropletManagement.Manager.InsertRecord | services/droplet_manager.py:69-75 | The record is committed in status `creating` exactly when its id is free |
| DropletManagement.Manager.CreateInstance | services/droplet_manager.py:55-163 | A new record is added before any engine call, and no other record changes. On success the record is `running` with the container's id and name, the planned configuration, the volume ids and the first host port. When an error is raised after the insert, the record stays in status `error`. Every container and volume that existed before is kept unchanged. The only volume that can appear is the pair's own; with persistence, a successful create leaves it in place, and without persistence volumes are untouched. Every new container carries the instance labels of this droplet, user and record, and a success adds exactly its own container |
| DropletManagement.Manager.PrepareConfig | services/droplet_manager.py:77-118 | What is handed to `containers.run` is exactly the planned configuration: name, mounts, environment, ports, limits, labels and restart policy. The labels name the droplet, the user and the record. No container changes, no volume changes, and the only volume that can appear is the pair's own |
| DropletManagement.Manager.RunAndRecord | services/droplet_manager.py:120-163 | Any container it adds carries the given configuration, a success adds exactly the record's container, and volumes are untouched. On success the record is `running` with that container's id, the configuration's name, the volume ids and the first host port. On any failure the record is in status `error`. Other records and old containers are kept |
| DropletManagement.Manager.RecordLaunch | services/droplet_manager.py:139-154 | The record gets the container id and name, status `running` and the volume ids, plus the first non-empty host port and `http://localhost:<port>`, or neither. Other fields and records are kept |
| DropletManagement.Manager.MarkError | services/droplet_manager.py:159-163 | The record goes to `error` and the same error is raised |
| DropletManagement.Manager.StopInstance | services/droplet_manager.py:165-188 | An unknown id raises ValueError. A vanished container is tolerated. On success the record is `stopped` with `stopped_at` set and the container not running, so stopping twice succeeds. No container appears or disappears, and every container other than the instance's own is unchanged; that one is at most stopped |
| DropletManagement.Manager.RestartInstance | services/droplet_manager.py:234-253 | A missing record or container id raises ValueError. A vanished container raises NotFound. On success the record is `running` and so is the container, with nothing else about it changed. No container appears or disappears, and every container other than the instance's own is unchanged; after an error no container changes |
| DropletManagement.Manager.DeleteInstance | services/droplet_manager.py:190-232 | An unknown id raises ValueError. The record is deleted only after the stop and remove succeed or report NotFound; any other error propagates and the record survives. Only the instance's own container can disappear. Volumes are touched only when asked; then every listed volume is gone and every volume the record does not list survives |
| DropletManagement.Manager.RemoveListedVolumes | services/droplet_manager.py:214-221 | Each listed volume is removed and a missing one is skipped. Only volumes disappear, none changes, and every volume the record does not list survives. A column that cannot be iterated, or an entry that is not a string, raises the bad-column error; any other engine error raises the engine error |
| DropletManagement.Manager.GetInstanceStats | services/droplet_manager.py:255-288 | None without a record or container id. Otherwise the derivation of that container's own statistics, or None on any error |
| DropletManagement.Manager.CleanupOrphanedContainers | services/droplet_manager.py:290-314 | Only orphans are removed (by force), and every other container is untouched. A non-zero answer means all orphans were removed and counted. Any error answers 0 |
| DropletManagement.Manager.ListVolumes | services/droplet_manager.py:316-339 | The names of all volumes matching the filter, or none after an error |
| Workshops.FirstOf | routes/workshops.py:184-187 | `filter_by(user_id, workshop_id).first()`: the first row of the pair in table order, or none |
| Workshops.OwnedRow | routes/workshops.py:366-369 | `filter_by(id, user_id=current_user.id).first()`: a row with that id owned by the caller, or none |
| Workshops.WithoutWorkshop | routes/workshops.py:252 | The bulk delete keeps exactly the rows of other workshops |
| Workshops.RemoveAt | routes/workshops.py:427 | `db.session.delete(row)` keeps every other row in order |
| Workshops.RemoveAtKeepsOthers | routes/workshops.py:427 | After a row is deleted, exactly the rows with other ids remain, ids still distinct |
| Workshops.WithoutWorkshopDistinct | routes/workshops.py:252 | The bulk delete keeps row ids distinct |
| Workshops.AppendFreshDistinct | routes/workshops.py:331 | Inserting a row with an unused id keeps row ids distinct |
| Workshops.StartReply | routes/workshops.py:169-212 | Start returns 403 without permission, 404 for a missing workshop, 403 for someone else's private workshop, and 400 "Workshop instance already running" when the caller's first row for it is not `stopped`. It succeeds exactly when the caller created the workshop or it is public, that first row is absent or `stopped`, and the new id is free |
| Workshops.CreateReply | routes/workshops.py:288-336 | Create returns 403 without permission, the schema's 400 for an invalid body, 404 for a missing workshop, 400 "Active workshop instance already exists" when a row of the caller for it is not `stopped`, and 400 "Invalid JSON in custom_config" for a non-empty config that is not JSON. It succeeds exactly when none of these apply and the id is free |
| Workshops.StoredConfig | routes/workshops.py:325-328 | The stored custom config is absent exactly when none was sent, and an empty one is stored as sent. A non-empty one parses to the sent value as `json.loads` holds it, with each object's repeated keys collapsed to one member (`Dedup`) |
| Json.Dedup | routes/workshops.py:325-328 | The value `json.loads` builds: scalars are unchanged, lists keep their length with each item collapsed, and every object has distinct keys |
| Json.DedupKeepsDict | routes/workshops.py:325-328 | An object after `Dedup` denotes the same keys as before, each mapped to `Dedup` of the value the original dict held for it |
| Json.DedupValuesDict | routes/workshops.py:325-328 | Replacing each member's value by its `Dedup` keeps the dict's keys and replaces each dict value by its `Dedup` |
| Json.Collapse | routes/workshops.py:325-328 | A decoded dict's members: each key once, in first-appearance order, denoting the same dict |
| Json.DuplicateKeyTakesLastValue | routes/workshops.py:325-328 | `{"a": 1, "a": 2}` decodes to `{"a": 2}`: the key keeps its place and takes the last value |
| Workshops.CreateGateImpliesStartGate | routes/workshops.py:184-190 | Whenever the create gate finds no active row, the start gate passes too |
| Workshops.StartGateIsFirstRow | routes/workshops.py:184-190 | A stopped first row lets a start through even when a later row of the same pair is running, which the create gate would refuse |
| Workshops.UserWorkshopDetails | routes/workshops.py:339-357 | A row is shown only to its owner. Any other id gives 404, and no permission gives 403 |
| Workshops.OwnedRowIsCallers | routes/workshops.py:366-372 | A row owned by another user is never the one an id lookup picks |
| Workshops.WorkshopTables.WorkshopStart | routes/workshops.py:169-212 | The reply is `StartReply`. On success exactly one row is appended, in status `ready` with the workshop's template. Otherwise nothing changes |
| Workshops.WorkshopTables.WorkshopStop | routes/workshops.py:214-235 | 403 without permission and 404 without a row, with no change. Otherwise the caller's first row for the workshop becomes `stopped`, from any status, and no other row changes |
| Workshops.WorkshopTables.WorkshopDelete | routes/workshops.py:237-258 | 403 without permission, 404 for a missing workshop, and 403 for anyone but the creator. Then the workshop and every row of it, any user's, are removed. Otherwise nothing changes |
| Workshops.WorkshopTables.UserWorkshopsCreate | routes/workshops.py:288-336 | The reply is `CreateReply`. On success one row is appended in status `creating` with the re-encoded config. Otherwise, including invalid JSON, nothing changes |
| Workshops.WorkshopTables.UserWorkshopStart | routes/workshops.py:359-385 | 403 without permission, 404 "User workshop not found" for an id that is not the caller's, and 400 "Workshop instance is already running" for the caller's row in any status but `stopped`; each failure leaves everything unchanged. Otherwise the row becomes `ready` with a start time |
| Workshops.WorkshopTables.UserWorkshopStop | routes/workshops.py:387-409 | The caller's own row becomes `stopped`, from any status, with an end time. Another user's id gives 404, with no change |
| Workshops.WorkshopTables.UserWorkshopDelete | routes/workshops.py:411-431 | The caller's own row is removed and every other row is kept in order. Another user's id gives 404, with no change |
| Auth.DefaultGroup | routes/auth.py:61-64 | A group named `User` that no earlier group matches, so the first one in table order; none exactly when there is no such group |
| Auth.RegisterGuard | routes/auth.py:38-64 | All guards pass exactly when username, password and email are non-empty, the passwords match and have 8 or more characters, username and email are unused, and a `User` group exists. Otherwise the answer is one of the six messages |
| Auth.EmptyFieldWins | routes/auth.py:39-41 | Any empty or absent username, password or email gives "All fields are required", whatever else is wrong |
| Auth.MismatchBeforeLength | routes/auth.py:43-49 | A mismatch is reported even when the password is also too short |
| Auth.LengthBoundary | routes/auth.py:47-49 | 7 characters are refused as too short; 8 pass the length guard, and then everything passes if the rest does |
| Auth.UsernameBeforeEmailBeforeGroup | routes/auth.py:52-64 | A taken username is reported before a taken email, and both before a missing default group |
| Auth.Accounts.Register | routes/auth.py:28-73 | A user is added only when every guard passes. It has the form's username and email, the password hash, the `User` group's id and a generated token. A refusal carries the first failing guard's message and adds nothing |
| Auth.TokenAlphabetIsAlphanumeric | routes/auth.py:131 | The alphabet has 62 characters: exactly the ASCII letters and digits |
| Auth.GenerateAuthToken | routes/auth.py:130-131 | A token is exactly 80 characters, each an ASCII letter or digit |
| Auth.EveryAlphanumericTokenIsGenerated | routes/auth.py:130-131 | Every 80-character string of letters and digits is a token some draws produce |
| Auth.UserById | routes/auth.py:121 | The first user with that id, or none exactly when no user has it |
| Auth.DropletConnect | routes/auth.py:113-128 | 200 exactly when both cookies are non-empty, the user exists and its stored token equals the cookie. Otherwise 401 |
| Auth.FirstUserIsUnique | routes/auth.py:121 | When ids are unique, the lookup finds the one user with the id |
| Auth.ConnectIffStoredToken | routes/auth.py:113-128 | When ids are unique, connecting succeeds exactly for a stored (id, token) pair with both non-empty |
| Auth.RegisteredUserConnects | routes/auth.py:93-128 | A registered user connects with the cookies `login` sets, id and token |
| Validation.FieldMissing | utils/validation.py:17 | On a dict body, a field is missing exactly when it is absent or holds None, `""` or `[]`. A list body misses every field it does not contain and raises for one it does. A string body misses every field that is not a substring of it, and raises (indexing a string by name) for one that is. A number, bool or null body raises |
| Validation.ZeroAndFalseArePresent | utils/validation.py:17 | A field holding 0 or False is present |
| Validation.MissingFields | utils/validation.py:17 | The missing list holds exactly the declared fields whose test says missing, and no others. It raises exactly when one field's test raises |
| Validation.MissingFieldsInOrder | utils/validation.py:17 | The missing list keeps the declared order |
| Validation.ObjectBodyMissing | utils/validation.py:17 | On a dict body nothing raises, and the missing fields are exactly the absent or blank ones |
| Validation.RequireJsonFields | utils/validation.py:7-23 | A request whose declared content type is not JSON gives 400 "Invalid JSON", whatever its body. A request declared as JSON whose body does not decode gets the framework's own 400, not the "Invalid JSON" reply. A TypeError from a field test propagates. Any missing field gives 400 with "Missing required fields: " and the names joined by ", ". Otherwise the handler is called and its result returned unchanged |

## Left out

- Logging through utils/logger.py: no log event is modelled, because it writes to the database and console and decides nothing.
- The lazy proxy singleton (services/droplet_manager.py:350-362) and `DropletManager.__init__`'s directory creation: they are Python plumbing.
- `_get_volume_size` is a constant placeholder and is not modelled.
- The per-volume info dicts `list_volumes` builds (driver, mount point, labels, size) are left out.
- Manager.ListVolumes: returns the listed volume names, not the per-volume info dicts.
- StatsDerivation.DeriveStats: uses exact reals. `round(..., 2)`, the float division by 1024² and float rounding are not modelled.
- The numeric fields of the statistics document are integers (or booleans, which Python counts as 0 and 1). A JSON float makes the model's parse fail, and so does a float anywhere in a JSON column.
- Json.ParseEscape: a lone surrogate escape (such as `\ud800`, or a high surrogate not followed by an escaped low one) does not parse, because a Dafny `char` cannot hold a surrogate. Python's `json.loads` accepts it and returns a string holding that surrogate. So a JSON column holding such an escape decodes to the getter's fallback, and a `custom_config` holding one is answered as invalid JSON.
- Validation.RequireJsonFields: the framework's 400 for a body that does not decode is a single `Undecodable` outcome; its error page is not modelled.
- Json.Parse: parses integers only, no exponent or fraction; `NaN`, `Infinity` and other non-standard tokens are not accepted.
- Workshops.WorkshopTables.UserWorkshopsCreate: treats a custom_config holding a float or an exponent as invalid JSON, because the JSON model is integer-only.
- The schema check of the user-workshop creation body (marshmallow, utils/schemas.py) is an input. `None` stands for a body the schema rejects, and the reply carries marshmallow's messages, which are not modelled.
- The timestamps the database fills in (`created_at`, `updated_at` via `func.now()`) are not modelled. Those the code assigns are the `now` input as ISO text.
- Workshops.WorkshopTables.WorkshopStart: states only the final `ready` status. The intermediate commit in status `creating` is not observable in the model.
- The other workshop handlers (listing, page views, workshop creation and templates) are not modelled. Only the seven gated handlers and the details lookup are.
- The user-workshop list response, built by an append loop, is left out.
- DropletManagement.Manager.CreateInstance, a failed first commit: `instance` is bound once the `DropletInstance(...)` constructor returns (services/droplet_manager.py:69-73). A failure of `db.session.add` or `commit` (:74-75) therefore reaches the `except` branch with `instance` bound. That branch sets status `error`, and its own `commit` (:161) raises in place of the original error, because the session still awaits a rollback. Only a failing constructor leaves `instance` unbound (an UnboundLocalError). The model raises `DuplicateId` for an id collision and changes nothing; the exception the second commit raises is not modelled, and the typed record constructor cannot fail.
- `db.session.commit()` failures after a successful engine call are not modelled. Neither are SQLAlchemy's session semantics (flush, rollback).
- DropletManagement.Manager.DeleteInstance: states for surviving containers only that each is unchanged or merely stopped. A failed removal after a successful stop leaves the container stopped.
- ContainerConfig.PortKey: an exposed port that is a list or dict gives a bad-column error, where docker-py would fail inside the library.
- `True` and `1` as keys of a Python dict (a mount map or the port map) collide in Python. In the model they are distinct keys.
- Fields of `Droplet` that the core never reads are not modelled. They are `container_docker_registry`, `volume_size_limit`, `server_ip`, `server_port`, `server_username`, `server_password` and `docker_labels`.
- `DropletInstance.assigned_port` is an Integer column. The model keeps the daemon's `HostPort` text, and the column's conversion is not modelled.
- bcrypt hashing is not modelled; the hash is an input. `login` and `logout`, which set and clear the cookies, are referred to only by `RegisteredUserConnects`.
- `random.choice` is a sequence of draws given as input, one alphabet index below 62 per character.
- Flask request and response plumbing, `flask_login`, CSRF and rate limiting: the status code and message each handler produces are modelled, not the HTTP objects.
- Concurrency: the source takes no locks, so interleavings of handlers are out of scope.

## Findings

| source | as written | input that shows it | evidently intended | confidence | as-written member | corrected member |
|---|---|---|---|---|---|---|
| services/droplet_manager.py:41-45 | `create_persistent_volume` labels a new volume with droplet id, user id and creation time only. `list_volumes()` without a droplet id filters on `nalabo.managed=true` (line 319) | provision any (droplet, user) pair, then call `list_volumes()` with no id: the result never contains that volume | provisioned volumes carry `nalabo.managed=true` like the containers (line 134), so the unfiltered listing finds them | not executed | DropletManagement.UnfilteredListingMissesVolumesAsWritten | DropletManagement.ListingFindsProvisionedVolumes |
