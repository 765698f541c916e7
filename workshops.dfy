/**
 * The status gates of the workshop routes (routes/workshops.py) over two
 * tables: workshops by id, and UserWorkshop rows in table order (the order
 * `.first()` sees).  Each handler takes the outcome of its permission check
 * as a boolean, and the uuid of a row it inserts and the current time as
 * inputs; it answers with the HTTP status and error message it sends.
 */
module Workshops {
  import opened Wrappers
  import opened Json

  datatype Workshop = Workshop(
    id: string,
    templateId: Option<string>,
    name: string,
    isPublic: bool,
    createdBy: string,
    tenantId: Option<string>)

  datatype UserWorkshop = UserWorkshop(
    id: string,
    userId: string,
    workshopId: string,
    templateId: Option<string>,
    customConfig: Option<string>,  // JSON text
    status: string,
    startTime: Option<string>,
    endTime: Option<string>,
    tenantId: Option<string>)

  /** The signed-in user: `current_user.id` and `current_user.tenant_id`. */
  datatype Caller = Caller(id: string, tenantId: Option<string>)

  /** The validated body of the user-workshop creation request. */
  datatype CreateRequest = CreateRequest(workshopId: string, templateId: Option<string>, customConfig: Option<string>)

  /**
   * `{"success": true, ...}` with an optional new row id, an error status
   * with its message, or the 400 that carries the schema's own messages.
   */
  datatype Reply = Success(newId: Option<string>) | Failure(code: int, message: string) | SchemaRejected

  const Unauthorized := Failure(403, "Unauthorized")

  /** The index of the first row of `user` for `workshop`. */
  function FirstOf(rows: seq<UserWorkshop>, user: string, workshop: string): (r: Option<nat>)
    ensures r.Some? ==> r.value < |rows| && rows[r.value].userId == user && rows[r.value].workshopId == workshop
    ensures r.Some? ==> forall j :: 0 <= j < r.value ==> !(rows[j].userId == user && rows[j].workshopId == workshop)
    ensures r.None? ==> forall j :: 0 <= j < |rows| ==> !(rows[j].userId == user && rows[j].workshopId == workshop)
  {
    if rows == [] then None
    else if rows[0].userId == user && rows[0].workshopId == workshop then Some(0)
    else
      match FirstOf(rows[1..], user, workshop)
      case None => None
      case Some(i) => Some(i + 1)
  }

  /** A row of `user` for `workshop` in some status other than `stopped`. */
  predicate HasActive(rows: seq<UserWorkshop>, user: string, workshop: string) {
    exists j :: 0 <= j < |rows| && rows[j].userId == user && rows[j].workshopId == workshop && rows[j].status != "stopped"
  }

  /** The index of the row with id `id` that belongs to `user`. */
  function OwnedRow(rows: seq<UserWorkshop>, id: string, user: string): (r: Option<nat>)
    ensures r.Some? ==> r.value < |rows| && rows[r.value].id == id && rows[r.value].userId == user
    ensures r.None? ==> forall j :: 0 <= j < |rows| ==> !(rows[j].id == id && rows[j].userId == user)
  {
    if rows == [] then None
    else if rows[0].id == id && rows[0].userId == user then Some(0)
    else
      match OwnedRow(rows[1..], id, user)
      case None => None
      case Some(i) => Some(i + 1)
  }

  /** The rows that do not belong to `workshop`, in order. */
  function WithoutWorkshop(rows: seq<UserWorkshop>, workshop: string): (r: seq<UserWorkshop>)
    ensures forall x :: x in r <==> x in rows && x.workshopId != workshop
    ensures |r| <= |rows|
  {
    if rows == [] then []
    else if rows[0].workshopId == workshop then WithoutWorkshop(rows[1..], workshop)
    else [rows[0]] + WithoutWorkshop(rows[1..], workshop)
  }

  /** Removing the row at `i`. */
  function RemoveAt(rows: seq<UserWorkshop>, i: nat): (r: seq<UserWorkshop>)
    requires i < |rows|
    ensures |r| == |rows| - 1
    ensures forall j :: 0 <= j < i ==> r[j] == rows[j]
    ensures forall j :: i <= j < |r| ==> r[j] == rows[j + 1]
  {
    rows[..i] + rows[i + 1..]
  }

  predicate DistinctIds(rows: seq<UserWorkshop>) {
    forall i, j :: 0 <= i < j < |rows| ==> rows[i].id != rows[j].id
  }

  /** Removing a row keeps the others and their order, and the ids stay distinct. */
  lemma RemoveAtKeepsOthers(rows: seq<UserWorkshop>, i: nat)
    requires i < |rows| && DistinctIds(rows)
    ensures DistinctIds(RemoveAt(rows, i))
    ensures forall x :: x in RemoveAt(rows, i) <==> x in rows && x.id != rows[i].id
  {
    var r := RemoveAt(rows, i);
    forall x | x in rows && x.id != rows[i].id ensures x in r {
      var j :| 0 <= j < |rows| && rows[j] == x;
      if j < i { assert r[j] == x; } else { assert j > i; assert r[j - 1] == x; }
    }
  }

  /** Filtering keeps the ids distinct. */
  lemma {:induction false} WithoutWorkshopDistinct(rows: seq<UserWorkshop>, workshop: string)
    requires DistinctIds(rows)
    ensures DistinctIds(WithoutWorkshop(rows, workshop))
  {
    if rows != [] {
      var rest := rows[1..];
      assert DistinctIds(rest) by {
        forall i, j | 0 <= i < j < |rest| ensures rest[i].id != rest[j].id {
          assert rest[i] == rows[i + 1] && rest[j] == rows[j + 1];
        }
      }
      WithoutWorkshopDistinct(rest, workshop);
      if rows[0].workshopId != workshop {
        var r := WithoutWorkshop(rows, workshop);
        forall j | 0 < j < |r| ensures r[j].id != rows[0].id {
          assert r[j] in rest;
        }
      }
    }
  }

  /** A row with id `id` exists: inserting another would violate the primary key. */
  predicate IdIn(rows: seq<UserWorkshop>, id: string) {
    exists j :: 0 <= j < |rows| && rows[j].id == id
  }

  /** Inserting a row whose id is not yet used keeps the ids distinct. */
  lemma AppendFreshDistinct(rows: seq<UserWorkshop>, row: UserWorkshop)
    requires DistinctIds(rows) && !IdIn(rows, row.id)
    ensures DistinctIds(rows + [row])
  {
    var r := rows + [row];
    forall i, j | 0 <= i < j < |r| ensures r[i].id != r[j].id {
      if j == |rows| { assert r[i] == rows[i]; }
    }
  }

  /**
   * The reply of `api_workshop_start`: permission, an existing workshop
   * that the caller created or that is public, and a first row of the
   * caller for it that is absent or `stopped`.
   */
  function StartReply(workshops: map<string, Workshop>, rows: seq<UserWorkshop>, caller: Caller, allowed: bool,
                      workshopId: string, newId: string): (r: Reply)
    ensures !allowed ==> r == Unauthorized
    ensures allowed && workshopId !in workshops ==> r == Failure(404, "Workshop not found")
    ensures allowed && workshopId in workshops
      && workshops[workshopId].createdBy != caller.id && !workshops[workshopId].isPublic
      ==> r == Unauthorized
    ensures allowed && workshopId in workshops
      && (workshops[workshopId].createdBy == caller.id || workshops[workshopId].isPublic)
      && FirstOf(rows, caller.id, workshopId).Some?
      && rows[FirstOf(rows, caller.id, workshopId).value].status != "stopped"
      ==> r == Failure(400, "Workshop instance already running")
    ensures r.Success? <==>
      allowed && workshopId in workshops
      && (workshops[workshopId].createdBy == caller.id || workshops[workshopId].isPublic)
      && (FirstOf(rows, caller.id, workshopId).None? || rows[FirstOf(rows, caller.id, workshopId).value].status == "stopped")
      && !IdIn(rows, newId)
    ensures r.Success? ==> r.newId == Some(newId)
  {
    if !allowed then Unauthorized
    else if workshopId !in workshops then Failure(404, "Workshop not found")
    else if workshops[workshopId].createdBy != caller.id && !workshops[workshopId].isPublic then Unauthorized
    else
      match FirstOf(rows, caller.id, workshopId)
      case Some(i) =>
        if rows[i].status != "stopped" then Failure(400, "Workshop instance already running")
        else if IdIn(rows, newId) then Failure(500, "Internal Server Error")
        else Success(Some(newId))
      case None =>
        if IdIn(rows, newId) then Failure(500, "Internal Server Error") else Success(Some(newId))
  }

  /**
   * The reply of `api_user_workshops_create`: permission, a body the schema
   * accepts, an existing workshop, no row of the caller for it outside
   * `stopped`, and a custom configuration that is empty or JSON.
   */
  function CreateReply(workshops: map<string, Workshop>, rows: seq<UserWorkshop>, caller: Caller, allowed: bool,
                       data: Option<CreateRequest>, newId: string): (r: Reply)
    ensures !allowed ==> r == Unauthorized
    ensures allowed && data.None? ==> r == SchemaRejected
    ensures allowed && data.Some? && data.value.workshopId !in workshops ==> r == Failure(404, "Workshop not found")
    ensures allowed && data.Some? && data.value.workshopId in workshops && HasActive(rows, caller.id, data.value.workshopId)
      ==> r == Failure(400, "Active workshop instance already exists")
    ensures allowed && data.Some? && data.value.workshopId in workshops && !HasActive(rows, caller.id, data.value.workshopId)
      && !ConfigAccepted(data.value.customConfig)
      ==> r == Failure(400, "Invalid JSON in custom_config")
    ensures r.Success? <==>
      allowed && data.Some? && data.value.workshopId in workshops
      && !HasActive(rows, caller.id, data.value.workshopId)
      && ConfigAccepted(data.value.customConfig)
      && !IdIn(rows, newId)
    ensures r.Success? ==> r.newId == Some(newId)
  {
    if !allowed then Unauthorized
    else if data.None? then SchemaRejected
    else if data.value.workshopId !in workshops then Failure(404, "Workshop not found")
    else if HasActive(rows, caller.id, data.value.workshopId) then Failure(400, "Active workshop instance already exists")
    else if !ConfigAccepted(data.value.customConfig) then Failure(400, "Invalid JSON in custom_config")
    else if IdIn(rows, newId) then Failure(500, "Internal Server Error")
    else Success(Some(newId))
  }

  /** A custom configuration passes when it is absent, empty (falsy) or JSON text. */
  predicate ConfigAccepted(text: Option<string>) {
    text.None? || text.value == [] || Parse(text.value).Some?
  }

  /**
   * The stored custom configuration: the request's text decoded and
   * re-encoded by `set_custom_config` when it is non-empty, so an object's
   * repeated keys collapse as they do in the decoded dict.
   */
  function StoredConfig(text: Option<string>): (r: Option<string>)
    requires ConfigAccepted(text)
    ensures r.None? <==> text.None?
    ensures text.Some? && text.value == [] ==> r == text
    ensures text.Some? && text.value != [] ==> r.value != [] && Parse(r.value) == Some(Dedup(Parse(text.value).value))
  {
    if text.Some? && text.value != [] then
      var v := Dedup(Parse(text.value).value);
      RoundTrip(v);
      Some(Serialize(v))
    else text
  }

  /** A row that the creation gate accepts would not be refused by the start gate either; the converse fails (StartGateIsFirstRow). */
  lemma CreateGateImpliesStartGate(rows: seq<UserWorkshop>, user: string, workshop: string)
    requires !HasActive(rows, user, workshop)
    ensures FirstOf(rows, user, workshop).None? || rows[FirstOf(rows, user, workshop).value].status == "stopped"
  {
    var f := FirstOf(rows, user, workshop);
    if f.Some? {
      assert rows[f.value].userId == user && rows[f.value].workshopId == workshop;
    }
  }

  class WorkshopTables {
    var workshops: map<string, Workshop>
    var userWorkshops: seq<UserWorkshop>

    constructor ()
      ensures workshops == map[] && userWorkshops == []
      ensures Valid()
    {
      workshops := map[];
      userWorkshops := [];
    }

    /** Workshops are stored under their ids, and row ids are unique. */
    ghost predicate Valid()
      reads this
    {
      (forall id :: id in workshops ==> workshops[id].id == id) && DistinctIds(userWorkshops)
    }

    /**
     * `api_workshop_start`: refused without permission, for a missing
     * workshop, for a private workshop of someone else, and when the first
     * row of this user for it is not `stopped`; otherwise a new row is
     * added, committed as `creating` and then as `ready`.
     */
    method WorkshopStart(caller: Caller, allowed: bool, workshopId: string, newId: string) returns (r: Reply)
      modifies this
      requires Valid()
      ensures Valid()
      ensures r == StartReply(old(workshops), old(userWorkshops), caller, allowed, workshopId, newId)
      ensures workshops == old(workshops)
      ensures r.Success? ==>
        userWorkshops == old(userWorkshops) + [UserWorkshop(newId, caller.id, workshopId, old(workshops)[workshopId].templateId,
                                                            None, "ready", None, None, caller.tenantId)]
      ensures !r.Success? ==> userWorkshops == old(userWorkshops)
    {
      r := StartReply(workshops, userWorkshops, caller, allowed, workshopId, newId);
      if r.Success? {
        var w := workshops[workshopId];
        var row := UserWorkshop(newId, caller.id, workshopId, w.templateId, None, "creating", None, None, caller.tenantId);
        AppendFreshDistinct(userWorkshops, row);
        userWorkshops := userWorkshops + [row];
        userWorkshops := userWorkshops[|userWorkshops| - 1 := row.(status := "ready")];
      }
    }

    /** `api_workshop_stop`: the first row of this user for the workshop becomes `stopped`, whatever its status. */
    method WorkshopStop(caller: Caller, allowed: bool, workshopId: string) returns (r: Reply)
      modifies this
      requires Valid()
      ensures Valid()
      ensures !allowed ==> r == Unauthorized
      ensures allowed && FirstOf(old(userWorkshops), caller.id, workshopId).None? ==> r == Failure(404, "Workshop instance not found")
      ensures r.Success? <==> allowed && FirstOf(old(userWorkshops), caller.id, workshopId).Some?
      ensures r.Success? ==>
        var i := FirstOf(old(userWorkshops), caller.id, workshopId).value;
        userWorkshops == old(userWorkshops)[i := old(userWorkshops)[i].(status := "stopped")]
      ensures !r.Success? ==> userWorkshops == old(userWorkshops)
      ensures workshops == old(workshops)
    {
      if !allowed {
        return Unauthorized;
      }
      var i := FirstOf(userWorkshops, caller.id, workshopId);
      if i.None? {
        return Failure(404, "Workshop instance not found");
      }
      userWorkshops := userWorkshops[i.value := userWorkshops[i.value].(status := "stopped")];
      return Success(None);
    }

    /** `api_workshop_delete`: only the creator may delete; every user's rows for the workshop go with it. */
    method WorkshopDelete(caller: Caller, allowed: bool, workshopId: string) returns (r: Reply)
      modifies this
      requires Valid()
      ensures Valid()
      ensures !allowed ==> r == Unauthorized
      ensures r.Success? <==> allowed && workshopId in old(workshops) && old(workshops)[workshopId].createdBy == caller.id
      ensures allowed && workshopId !in old(workshops) ==> r == Failure(404, "Workshop not found")
      ensures allowed && workshopId in old(workshops) && old(workshops)[workshopId].createdBy != caller.id ==> r == Unauthorized
      ensures r.Success? ==>
        workshops == old(workshops) - {workshopId} && userWorkshops == WithoutWorkshop(old(userWorkshops), workshopId)
      ensures !r.Success? ==> workshops == old(workshops) && userWorkshops == old(userWorkshops)
    {
      if !allowed {
        return Unauthorized;
      }
      if workshopId !in workshops {
        return Failure(404, "Workshop not found");
      }
      if workshops[workshopId].createdBy != caller.id {
        return Unauthorized;
      }
      WithoutWorkshopDistinct(userWorkshops, workshopId);
      userWorkshops := WithoutWorkshop(userWorkshops, workshopId);
      workshops := workshops - {workshopId};
      return Success(None);
    }

    /**
     * `api_user_workshops_create`: refused when any row of this user for
     * the workshop is not `stopped`, or when a non-empty custom
     * configuration is not JSON; otherwise a row in status `creating` is added.
     */
    method UserWorkshopsCreate(caller: Caller, allowed: bool, data: Option<CreateRequest>, newId: string) returns (r: Reply)
      modifies this
      requires Valid()
      ensures Valid()
      ensures r == CreateReply(old(workshops), old(userWorkshops), caller, allowed, data, newId)
      ensures r.Success? ==>
        userWorkshops == old(userWorkshops) + [UserWorkshop(newId, caller.id, data.value.workshopId, data.value.templateId,
                                                            StoredConfig(data.value.customConfig), "creating", None, None, caller.tenantId)]
      ensures !r.Success? ==> userWorkshops == old(userWorkshops)
      ensures workshops == old(workshops)
    {
      r := CreateReply(workshops, userWorkshops, caller, allowed, data, newId);
      if r.Success? {
        var req := data.value;
        var row := UserWorkshop(newId, caller.id, req.workshopId, req.templateId, req.customConfig, "creating", None, None, caller.tenantId);
        if req.customConfig.Some? && req.customConfig.value != [] {
          var config := Dedup(Parse(req.customConfig.value).value);
          row := row.(customConfig := Some(Serialize(config)));
        }
        AppendFreshDistinct(userWorkshops, row);
        userWorkshops := userWorkshops + [row];
      }
    }

    /** `api_user_workshop_start`: only the owner's row, only from `stopped`, which becomes `ready`. */
    method UserWorkshopStart(caller: Caller, allowed: bool, rowId: string, now: string) returns (r: Reply)
      modifies this
      requires Valid()
      ensures Valid()
      ensures !allowed ==> r == Unauthorized
      ensures allowed && OwnedRow(old(userWorkshops), rowId, caller.id).None? ==> r == Failure(404, "User workshop not found")
      ensures allowed && OwnedRow(old(userWorkshops), rowId, caller.id).Some?
        && old(userWorkshops)[OwnedRow(old(userWorkshops), rowId, caller.id).value].status != "stopped"
        ==> r == Failure(400, "Workshop instance is already running")
      ensures r.Success? <==>
        allowed && OwnedRow(old(userWorkshops), rowId, caller.id).Some?
        && old(userWorkshops)[OwnedRow(old(userWorkshops), rowId, caller.id).value].status == "stopped"
      ensures r.Success? ==>
        var i := OwnedRow(old(userWorkshops), rowId, caller.id).value;
        userWorkshops == old(userWorkshops)[i := old(userWorkshops)[i].(status := "ready", startTime := Some(now))]
      ensures !r.Success? ==> userWorkshops == old(userWorkshops)
      ensures workshops == old(workshops)
    {
      if !allowed {
        return Unauthorized;
      }
      var i := OwnedRow(userWorkshops, rowId, caller.id);
      if i.None? {
        return Failure(404, "User workshop not found");
      }
      if userWorkshops[i.value].status != "stopped" {
        return Failure(400, "Workshop instance is already running");
      }
      userWorkshops := userWorkshops[i.value := userWorkshops[i.value].(status := "ready", startTime := Some(now))];
      return Success(None);
    }

    /** `api_user_workshop_stop`: the owner's row becomes `stopped` from any status, with `end_time` set. */
    method UserWorkshopStop(caller: Caller, allowed: bool, rowId: string, now: string) returns (r: Reply)
      modifies this
      requires Valid()
      ensures Valid()
      ensures !allowed ==> r == Unauthorized
      ensures r.Success? <==> allowed && OwnedRow(old(userWorkshops), rowId, caller.id).Some?
      ensures allowed && OwnedRow(old(userWorkshops), rowId, caller.id).None? ==> r == Failure(404, "User workshop not found")
      ensures r.Success? ==>
        var i := OwnedRow(old(userWorkshops), rowId, caller.id).value;
        userWorkshops == old(userWorkshops)[i := old(userWorkshops)[i].(status := "stopped", endTime := Some(now))]
      ensures !r.Success? ==> userWorkshops == old(userWorkshops)
      ensures workshops == old(workshops)
    {
      if !allowed {
        return Unauthorized;
      }
      var i := OwnedRow(userWorkshops, rowId, caller.id);
      if i.None? {
        return Failure(404, "User workshop not found");
      }
      userWorkshops := userWorkshops[i.value := userWorkshops[i.value].(status := "stopped", endTime := Some(now))];
      return Success(None);
    }

    /** `api_user_workshop_delete`: the owner's row is removed; every other row is kept in order. */
    method UserWorkshopDelete(caller: Caller, allowed: bool, rowId: string) returns (r: Reply)
      modifies this
      requires Valid()
      ensures Valid()
      ensures !allowed ==> r == Unauthorized
      ensures r.Success? <==> allowed && OwnedRow(old(userWorkshops), rowId, caller.id).Some?
      ensures allowed && OwnedRow(old(userWorkshops), rowId, caller.id).None? ==> r == Failure(404, "User workshop not found")
      ensures r.Success? ==> userWorkshops == RemoveAt(old(userWorkshops), OwnedRow(old(userWorkshops), rowId, caller.id).value)
      ensures !r.Success? ==> userWorkshops == old(userWorkshops)
      ensures workshops == old(workshops)
    {
      if !allowed {
        return Unauthorized;
      }
      var i := OwnedRow(userWorkshops, rowId, caller.id);
      if i.None? {
        return Failure(404, "User workshop not found");
      }
      RemoveAtKeepsOthers(userWorkshops, i.value);
      userWorkshops := RemoveAt(userWorkshops, i.value);
      return Success(None);
    }
  }

  /** The answer of `api_user_workshop_details`: the caller's own row, or a refusal. */
  datatype Details = Shown(row: UserWorkshop) | Refused(reply: Reply)

  /** `api_user_workshop_details`: a row is shown only to its owner; anyone else's id is a 404. */
  function UserWorkshopDetails(rows: seq<UserWorkshop>, caller: Caller, allowed: bool, rowId: string): (r: Details)
    ensures !allowed ==> r == Refused(Unauthorized)
    ensures r.Shown? <==> allowed && exists j :: 0 <= j < |rows| && rows[j].id == rowId && rows[j].userId == caller.id
    ensures r.Shown? ==> r.row in rows && r.row.id == rowId && r.row.userId == caller.id
    ensures allowed && !r.Shown? ==> r == Refused(Failure(404, "User workshop not found"))
  {
    if !allowed then Refused(Unauthorized)
    else
      match OwnedRow(rows, rowId, caller.id)
      case None => Refused(Failure(404, "User workshop not found"))
      case Some(i) => Shown(rows[i])
  }

  /** A handler on a row id touches only the caller's own rows: another user's row is left as it was. */
  lemma OwnedRowIsCallers(rows: seq<UserWorkshop>, id: string, user: string, j: nat)
    requires j < |rows| && rows[j].userId != user
    ensures OwnedRow(rows, id, user) != Some(j)
  {
  }

  /**
   * The start gate looks at the first row only: a stopped first row lets a
   * start through even when a later row of the same user and workshop
   * runs, which the creation gate refuses.
   */
  lemma StartGateIsFirstRow(rows: seq<UserWorkshop>, user: string, workshop: string)
    requires |rows| >= 2 && rows[0].userId == user && rows[0].workshopId == workshop && rows[0].status == "stopped"
    requires rows[1].userId == user && rows[1].workshopId == workshop && rows[1].status != "stopped"
    ensures FirstOf(rows, user, workshop) == Some(0)
    ensures HasActive(rows, user, workshop)
  {
    assert rows[1].status != "stopped";
  }
}
