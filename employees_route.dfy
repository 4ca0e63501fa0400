/**
 * The employees endpoint. Its state is the Edge Config item "employees";
 * POST appends a new active employee with the next id, DELETE deactivates
 * the first employee with the given id. A write goes through
 * `updateEdgeConfig`, which reports failure instead of throwing, so the
 * reply never depends on whether the write took effect.
 */
module EmployeesRoute {
  import opened Wrappers
  import opened Records
  import Ids
  import Db

  datatype Reply =
    | Added(employee: Employee)
    | Removed
    | BadRequest(error: string)   // status 400
    | Failed(error: string)       // status 500

  function EmployeeIds(list: seq<Employee>): (ids: seq<int>)
    ensures |ids| == |list| && forall i :: 0 <= i < |list| ==> ids[i] == list[i].id
  {
    seq(|list|, i requires 0 <= i < |list| => list[i].id)
  }

  predicate UniqueIds(list: seq<Employee>) {
    forall i, j :: 0 <= i < j < |list| ==> list[i].id != list[j].id
  }

  /** The list POST writes: the old list, then the new employee with a fresh, larger id. */
  function WithNewEmployee(list: seq<Employee>, name: string, role: string, now: int): (r: seq<Employee>)
    ensures |r| == |list| + 1 && r[..|list|] == list
    ensures r[|list|].name == name && r[|list|].role == role
    ensures r[|list|].active && r[|list|].createdAt == Some(now)
    ensures forall i :: 0 <= i < |list| ==> list[i].id < r[|list|].id
    ensures list == [] ==> r[0].id == 1
  {
    var ids := EmployeeIds(list);
    list + [Employee(Ids.NextId(ids), name, role, true, Some(now))]
  }

  /** Adding keeps ids unique. */
  lemma AddKeepsIdsUnique(list: seq<Employee>, name: string, role: string, now: int)
    requires UniqueIds(list)
    ensures UniqueIds(WithNewEmployee(list, name, role, now))
  {
    var r := WithNewEmployee(list, name, role, now);
    forall i, j | 0 <= i < j < |r| ensures r[i].id != r[j].id {
      if j < |list| {
        assert r[i] == list[i] && r[j] == list[j];
      } else {
        assert r[i] == list[i];
      }
    }
  }

  /** A new employee appears in the listing for their own role and in the unfiltered one. */
  lemma AddedEmployeeIsListed(list: seq<Employee>, name: string, role: string, now: int)
    ensures var r := WithNewEmployee(list, name, role, now);
      && r[|list|] in Db.GetEmployees(Some(r), Some(role))
      && r[|list|] in Db.GetEmployees(Some(r), None)
  {
    var r := WithNewEmployee(list, name, role, now);
    assert r[|list|] in r;
  }

  /** `employees.find(e => e.id === id)`, as a position. */
  function FirstWithId(list: seq<Employee>, id: int): (r: Option<nat>)
    ensures r.Some? ==> r.value < |list| && list[r.value].id == id
    ensures r.Some? ==> forall j :: 0 <= j < r.value ==> list[j].id != id
    ensures r.None? <==> forall j :: 0 <= j < |list| ==> list[j].id != id
  {
    if list == [] then None
    else if list[0].id == id then Some(0)
    else
      match FirstWithId(list[1..], id)
      case None => None
      case Some(k) => Some(k + 1)
  }

  /** The list DELETE writes: the first employee with the id deactivated, everything else as it was. */
  function Deactivate(list: seq<Employee>, id: int): (r: seq<Employee>)
    ensures |r| == |list|
    ensures forall i :: 0 <= i < |list| ==>
      r[i] == if FirstWithId(list, id) == Some(i) then list[i].(active := false) else list[i]
  {
    match FirstWithId(list, id)
    case None => list
    case Some(i) => list[i := list[i].(active := false)]
  }

  /** Deactivating twice is deactivating once. */
  lemma DeactivateIdempotent(list: seq<Employee>, id: int)
    ensures Deactivate(Deactivate(list, id), id) == Deactivate(list, id)
  {
    var r := Deactivate(list, id);
    assert EmployeeIds(r) == EmployeeIds(list);
    assert FirstWithId(r, id) == FirstWithId(list, id) by {
      FirstWithIdSameIds(list, r, id);
    }
  }

  /** The position found depends only on the ids. */
  lemma {:induction false} FirstWithIdSameIds(a: seq<Employee>, b: seq<Employee>, id: int)
    requires EmployeeIds(a) == EmployeeIds(b)
    ensures FirstWithId(a, id) == FirstWithId(b, id)
  {
    if a != [] {
      assert a[0].id == EmployeeIds(a)[0] == EmployeeIds(b)[0] == b[0].id;
      assert EmployeeIds(a[1..]) == EmployeeIds(a)[1..];
      assert EmployeeIds(b[1..]) == EmployeeIds(b)[1..];
      FirstWithIdSameIds(a[1..], b[1..], id);
    }
  }

  /** With unique ids, a deactivated employee drops out of every listing. */
  lemma DeactivatedIsNotListed(list: seq<Employee>, id: int, role: Option<string>)
    requires UniqueIds(list)
    ensures forall e :: e in Db.GetEmployees(Some(Deactivate(list, id)), role) ==> e.id != id
  {
    var r := Deactivate(list, id);
    forall e | e in Db.GetEmployees(Some(r), role) ensures e.id != id {
      var k :| 0 <= k < |r| && r[k] == e;
      var f := FirstWithId(list, id);
      if f.Some? && f.value != k {
        assert list[k].id != list[f.value].id;
      }
    }
  }

  class EmployeeConfig {
    /** The Edge Config item "employees"; None when it is absent. */
    var stored: Option<seq<Employee>>

    constructor (initial: Option<seq<Employee>>)
      ensures stored == initial
    {
      stored := initial;
    }

    /** GET: `getEmployees(role)`; `readOk` is whether the read succeeds (a failed one falls back to the seed). */
    method Get(role: Option<string>, readOk: bool) returns (employees: seq<Employee>)
      ensures employees == Db.GetEmployees(if readOk then stored else None, role)
    {
      employees := Db.GetEmployees(if readOk then stored else None, role);
    }

    /**
     * POST at time `now`; `readOk` is whether the raw `get('employees')` succeeds
     * (it throws otherwise) and `writeOk` whether `updateEdgeConfig` succeeds.
     */
    method Post(name: Option<string>, role: Option<string>, now: int, readOk: bool, writeOk: bool) returns (reply: Reply)
      modifies this
      ensures !(Truthy(name) && Truthy(role)) ==>
        reply == BadRequest("Name and role are required") && stored == old(stored)
      ensures Truthy(name) && Truthy(role) && !readOk ==>
        reply == Failed("Failed to add employee") && stored == old(stored)
      ensures Truthy(name) && Truthy(role) && readOk ==>
        var old_list := Db.GetFromEdge(old(stored), []);
        var list := WithNewEmployee(old_list, name.value, role.value, now);
        && reply == Added(list[|old_list|])
        && stored == if writeOk then Some(list) else old(stored)
    {
      if !Truthy(name) || !Truthy(role) {
        return BadRequest("Name and role are required");
      }
      if !readOk {
        return Failed("Failed to add employee");
      }
      var employees := Db.GetFromEdge(stored, []);
      var list := WithNewEmployee(employees, name.value, role.value, now);
      if writeOk {
        stored := Some(list);
      }
      reply := Added(list[|employees|]);
    }

    /** DELETE; an id of 0 is as missing as no id. Only a found employee causes a write; `readOk` and `writeOk` as for POST. */
    method Delete(id: Option<int>, readOk: bool, writeOk: bool) returns (reply: Reply)
      modifies this
      ensures (id.None? || id == Some(0)) ==>
        reply == BadRequest("Employee ID is required") && stored == old(stored)
      ensures id.Some? && id.value != 0 && !readOk ==>
        reply == Failed("Failed to remove employee") && stored == old(stored)
      ensures id.Some? && id.value != 0 && readOk ==>
        var list := Db.GetFromEdge(old(stored), []);
        && reply == Removed
        && stored == if writeOk && FirstWithId(list, id.value).Some? then Some(Deactivate(list, id.value)) else old(stored)
    {
      if id.None? || id.value == 0 {
        return BadRequest("Employee ID is required");
      }
      if !readOk {
        return Failed("Failed to remove employee");
      }
      var employees := Db.GetFromEdge(stored, []);
      var found := FirstWithId(employees, id.value);
      if found.Some? && writeOk {
        stored := Some(Deactivate(employees, id.value));
      }
      reply := Removed;
    }
  }
}
