/**
 * The relational row store of administrators
 * (services/edm/src/admin_policies_storage_rdb.cpp). The admin_policies table
 * is a sequence of rows in insertion order; every update and delete selects
 * its rows by (user_id, package_name); the list columns hold the JSON text of
 * module JsonColumn.
 */
module AdminStorageRdb {
  import opened Wrappers
  import opened JsonColumn
  import opened AdminModel

  /**
   * One row of admin_policies. The autoincrement id column is never read back
   * and is not modelled; a NULL text column reads as "".
   */
  datatype Row = Row(
    userId: int,
    adminType: AdminType,
    packageName: string,
    className: string,
    entName: string,
    entDesc: string,
    permissions: string,
    subscribeEvents: string)

  /** A NativeRdb::ValuesBucket: the columns an insert or update puts, each present or absent. */
  datatype Bucket = Bucket(
    userId: Option<int>,
    adminType: Option<AdminType>,
    packageName: Option<string>,
    className: Option<string>,
    entName: Option<string>,
    entDesc: Option<string>,
    permissions: Option<string>,
    subscribeEvents: Option<string>)

  const EmptyBucket: Bucket := Bucket(None, None, None, None, None, None, None, None)

  function GetOr<T>(o: Option<T>, default: T): T
  {
    if o.Some? then o.value else default
  }

  /** The row an INSERT of the bucket adds; None when a NOT NULL column is missing from it. */
  function InsertedRow(b: Bucket): (r: Option<Row>)
    ensures r.Some? <==> b.userId.Some? && b.adminType.Some? && b.packageName.Some? && b.className.Some?
  {
    if b.userId.Some? && b.adminType.Some? && b.packageName.Some? && b.className.Some? then
      Some(Row(b.userId.value, b.adminType.value, b.packageName.value, b.className.value,
        GetOr(b.entName, ""), GetOr(b.entDesc, ""), GetOr(b.permissions, ""), GetOr(b.subscribeEvents, "")))
    else None
  }

  /** An UPDATE writes the columns present in the bucket and keeps the others. */
  function Apply(r: Row, b: Bucket): Row
  {
    Row(GetOr(b.userId, r.userId), GetOr(b.adminType, r.adminType), GetOr(b.packageName, r.packageName),
      GetOr(b.className, r.className), GetOr(b.entName, r.entName), GetOr(b.entDesc, r.entDesc),
      GetOr(b.permissions, r.permissions), GetOr(b.subscribeEvents, r.subscribeEvents))
  }

  /** The predicates `user_id = userId AND package_name = packageName`. */
  predicate Matches(r: Row, userId: int, packageName: string)
  {
    r.userId == userId && r.packageName == packageName
  }

  function UpdateWhere(rows: seq<Row>, userId: int, packageName: string, b: Bucket): seq<Row>
  {
    if rows == [] then []
    else
      [if Matches(rows[0], userId, packageName) then Apply(rows[0], b) else rows[0]]
        + UpdateWhere(rows[1..], userId, packageName, b)
  }

  function DeleteWhere(rows: seq<Row>, userId: int, packageName: string): seq<Row>
  {
    if rows == [] then []
    else
      (if Matches(rows[0], userId, packageName) then [] else [rows[0]])
        + DeleteWhere(rows[1..], userId, packageName)
  }

  function CountMatches(rows: seq<Row>, userId: int, packageName: string): nat
  {
    if rows == [] then 0
    else (if Matches(rows[0], userId, packageName) then 1 else 0) + CountMatches(rows[1..], userId, packageName)
  }

  /**
   * CreateValuesBucket: the full bucket of InsertAdmin and of the full
   * UpdateAdmin. The permissions column is put only for a non-empty list, and
   * then holds text that reads back as that list.
   */
  function CreateValuesBucket(userId: int, abilityInfo: AbilityInfo, entInfo: EntInfo, role: AdminType,
    permissions: seq<string>): (b: Bucket)
    ensures b.userId == Some(userId) && b.adminType == Some(role)
    ensures b.packageName == Some(abilityInfo.bundleName) && b.className == Some(abilityInfo.name)
    ensures b.entName == Some(entInfo.enterpriseName) && b.entDesc == Some(entInfo.description)
    ensures b.permissions.Some? <==> permissions != []
    ensures b.permissions.Some? ==> ReadStringArray(b.permissions.value) == permissions
    ensures b.subscribeEvents.None?
  {
    StringArrayRoundTrip(permissions);
    Bucket(Some(userId), Some(role), Some(abilityInfo.bundleName), Some(abilityInfo.name),
      Some(entInfo.enterpriseName), Some(entInfo.description),
      if permissions == [] then None else Some(WriteStringArray(permissions)), None)
  }

  /** The bucket of the short UpdateAdmin: package, class and the permissions, written even when empty. */
  function ComponentBucket(packageName: string, className: string, permissions: seq<string>): (b: Bucket)
    ensures b.packageName == Some(packageName) && b.className == Some(className)
    ensures b.permissions.Some? && ReadStringArray(b.permissions.value) == permissions
    ensures b.userId.None? && b.adminType.None? && b.entName.None? && b.entDesc.None? && b.subscribeEvents.None?
  {
    StringArrayRoundTrip(permissions);
    EmptyBucket.(packageName := Some(packageName), className := Some(className),
      permissions := Some(WriteStringArray(permissions)))
  }

  /** The bucket of UpdateEntInfo. */
  function EntInfoBucket(entInfo: EntInfo): (b: Bucket)
    ensures b.entName == Some(entInfo.enterpriseName) && b.entDesc == Some(entInfo.description)
    ensures b.userId.None? && b.adminType.None? && b.packageName.None? && b.className.None?
    ensures b.permissions.None? && b.subscribeEvents.None?
  {
    EmptyBucket.(entName := Some(entInfo.enterpriseName), entDesc := Some(entInfo.description))
  }

  /** The bucket of UpdateManagedEvents: the events as a JSON array of unsigned values. */
  function ManagedEventsBucket(managedEvents: seq<uint32>): (b: Bucket)
    ensures b.subscribeEvents.Some? && ReadUIntArray(b.subscribeEvents.value) == managedEvents
    ensures b.userId.None? && b.adminType.None? && b.packageName.None? && b.className.None?
    ensures b.entName.None? && b.entDesc.None? && b.permissions.None?
  {
    UIntArrayRoundTrip(managedEvents);
    EmptyBucket.(subscribeEvents := Some(WriteUIntArray(managedEvents)))
  }

  /** The body of QueryAllAdmin's loop: one row read back as an administrator. */
  function ReadRow(r: Row): Admin
  {
    Admin(r.adminType, r.packageName, r.className, EntInfo(r.entName, r.entDesc),
      ReadStringArray(r.permissions), ReadUIntArray(r.subscribeEvents))
  }

  /** The map QueryAllAdmin builds: each row appended, in row order, to the list of its user. */
  function GroupByUser(rows: seq<Row>): map<int, seq<Admin>>
  {
    if rows == [] then map[]
    else
      var g := GroupByUser(rows[..|rows| - 1]);
      var r := rows[|rows| - 1];
      g[r.userId := (if r.userId in g then g[r.userId] else []) + [ReadRow(r)]]
  }

  /** Reference definition: the admins read from the rows of one user, in row order. */
  function AdminsOfUser(rows: seq<Row>, userId: int): seq<Admin>
  {
    if rows == [] then []
    else
      AdminsOfUser(rows[..|rows| - 1], userId)
        + (if rows[|rows| - 1].userId == userId then [ReadRow(rows[|rows| - 1])] else [])
  }

  // ----- Properties of the table operations -----

  /** An update changes exactly the rows of (userId, packageName), and those by the bucket only. */
  lemma {:induction false} UpdateWhereSpec(rows: seq<Row>, userId: int, packageName: string, b: Bucket)
    ensures |UpdateWhere(rows, userId, packageName, b)| == |rows|
    ensures forall i :: 0 <= i < |rows| ==>
      UpdateWhere(rows, userId, packageName, b)[i] ==
        (if Matches(rows[i], userId, packageName) then Apply(rows[i], b) else rows[i])
  {
    if rows != [] {
      UpdateWhereSpec(rows[1..], userId, packageName, b);
    }
  }

  /** A delete removes exactly the rows of (userId, packageName) and keeps every other row, in order. */
  lemma {:induction false} DeleteWhereSpec(rows: seq<Row>, userId: int, packageName: string)
    ensures var d := DeleteWhere(rows, userId, packageName);
      |d| + CountMatches(rows, userId, packageName) == |rows| &&
      (forall i :: 0 <= i < |d| ==> !Matches(d[i], userId, packageName) && d[i] in rows) &&
      (forall i :: 0 <= i < |rows| && !Matches(rows[i], userId, packageName) ==> rows[i] in d)
  {
    if rows != [] {
      DeleteWhereSpec(rows[1..], userId, packageName);
      var d := DeleteWhere(rows, userId, packageName);
      var tail := DeleteWhere(rows[1..], userId, packageName);
      assert d == (if Matches(rows[0], userId, packageName) then [] else [rows[0]]) + tail;
      forall i | 0 <= i < |rows| && !Matches(rows[i], userId, packageName) ensures rows[i] in d {
        if i > 0 { assert rows[i] == rows[1..][i - 1]; }
      }
      forall i | 0 <= i < |d| ensures !Matches(d[i], userId, packageName) && d[i] in rows {
        if !Matches(rows[0], userId, packageName) && i > 0 {
          assert d[i] == tail[i - 1];
        }
      }
    }
  }

  /** UpdateEntInfo writes the enterprise name and description and no other column. */
  lemma EntInfoUpdateColumns(r: Row, entInfo: EntInfo)
    ensures Apply(r, EntInfoBucket(entInfo)) == r.(entName := entInfo.enterpriseName, entDesc := entInfo.description)
    ensures ReadRow(Apply(r, EntInfoBucket(entInfo))) == ReadRow(r).(entInfo := entInfo)
  {
  }

  /** UpdateManagedEvents writes the events column only, and the row then reads back those events. */
  lemma ManagedEventsUpdateColumns(r: Row, managedEvents: seq<uint32>)
    ensures Apply(r, ManagedEventsBucket(managedEvents)) == r.(subscribeEvents := WriteUIntArray(managedEvents))
    ensures ReadRow(Apply(r, ManagedEventsBucket(managedEvents))) == ReadRow(r).(managedEvents := managedEvents)
  {
  }

  /**
   * The short UpdateAdmin writes package, class and permissions only; the row
   * then reads back the new permission list, the empty one included.
   */
  lemma ComponentUpdateColumns(r: Row, packageName: string, className: string, permissions: seq<string>)
    ensures Apply(r, ComponentBucket(packageName, className, permissions)) ==
      r.(packageName := packageName, className := className, permissions := WriteStringArray(permissions))
    ensures ReadRow(Apply(r, ComponentBucket(packageName, className, permissions))) ==
      ReadRow(r).(packageName := packageName, className := className, permissions := permissions)
  {
  }

  /**
   * The full UpdateAdmin with an empty permission list keeps the stored
   * permissions; with a non-empty one, the row reads back that list.
   */
  lemma FullUpdatePermissions(r: Row, userId: int, abilityInfo: AbilityInfo, entInfo: EntInfo, role: AdminType,
    permissions: seq<string>)
    ensures var u := Apply(r, CreateValuesBucket(userId, abilityInfo, entInfo, role, permissions));
      (permissions == [] ==> u.permissions == r.permissions) &&
      (permissions != [] ==> ReadRow(u).permissions == permissions) &&
      u.subscribeEvents == r.subscribeEvents
  {
  }

  /** A freshly inserted admin reads back with its fields, its permissions in order, and no event. */
  lemma InsertThenRead(userId: int, abilityInfo: AbilityInfo, entInfo: EntInfo, role: AdminType,
    permissions: seq<string>)
    ensures var row := InsertedRow(CreateValuesBucket(userId, abilityInfo, entInfo, role, permissions));
      row.Some? && row.value.userId == userId &&
      ReadRow(row.value) == Admin(role, abilityInfo.bundleName, abilityInfo.name, entInfo, permissions, [])
  {
    EmptyColumnsReadEmpty();
  }

  /**
   * QueryAllAdmin groups by user: a user has an entry exactly when some row
   * has that user id, and the entry lists that user's rows, each once, in row order.
   */
  lemma {:induction false} GroupByUserSpec(rows: seq<Row>)
    ensures forall u :: u in GroupByUser(rows) <==> exists i :: 0 <= i < |rows| && rows[i].userId == u
    ensures forall u :: u in GroupByUser(rows) ==> GroupByUser(rows)[u] == AdminsOfUser(rows, u)
  {
    if rows != [] {
      var init := rows[..|rows| - 1];
      GroupByUserSpec(init);
      forall u ensures u in GroupByUser(rows) <==> exists i :: 0 <= i < |rows| && rows[i].userId == u {
        if u in GroupByUser(init) {
          var i :| 0 <= i < |init| && init[i].userId == u;
          assert rows[i].userId == u;
        }
        if exists i :: 0 <= i < |rows| && rows[i].userId == u {
          var i :| 0 <= i < |rows| && rows[i].userId == u;
          if i < |rows| - 1 { assert init[i].userId == u; }
        }
      }
      forall u | u in GroupByUser(rows) ensures GroupByUser(rows)[u] == AdminsOfUser(rows, u) {
        if u !in GroupByUser(init) {
          assert AdminsOfUser(init, u) == [] by { EmptyWhenAbsent(init, u); }
        }
      }
    }
  }

  lemma {:induction false} EmptyWhenAbsent(rows: seq<Row>, userId: int)
    requires forall i :: 0 <= i < |rows| ==> rows[i].userId != userId
    ensures AdminsOfUser(rows, userId) == []
  {
    if rows != [] {
      EmptyWhenAbsent(rows[..|rows| - 1], userId);
    }
  }

  /** AdminPoliciesStorageRdb: the table, reached through the RDB data manager. */
  class AdminPoliciesStorage {
    /** Whether EdmRdbDataManager::GetInstance() yields a manager. */
    const hasDataManager: bool
    var rows: seq<Row>

    /** The table as it exists on the device when the store is created. */
    constructor (hasDataManager: bool, existing: seq<Row>)
      ensures this.hasDataManager == hasDataManager && rows == existing
    {
      this.hasDataManager := hasDataManager;
      rows := existing;
    }

    method InsertAdmin(userId: int, abilityInfo: AbilityInfo, entInfo: EntInfo, role: AdminType,
      permissions: seq<string>, engineOk: bool) returns (ok: bool)
      modifies this
      ensures ok == (hasDataManager && engineOk)
      ensures rows == if ok
        then old(rows) + [InsertedRow(CreateValuesBucket(userId, abilityInfo, entInfo, role, permissions)).value]
        else old(rows)
    {
      if !hasDataManager || !engineOk {
        return false;
      }
      var row := InsertedRow(CreateValuesBucket(userId, abilityInfo, entInfo, role, permissions));
      rows := rows + [row.value];
      return true;
    }

    /** The full UpdateAdmin: the whole bucket on the rows of (userId, bundleName). */
    method UpdateAdmin(userId: int, abilityInfo: AbilityInfo, entInfo: EntInfo, role: AdminType,
      permissions: seq<string>, engineOk: bool) returns (ok: bool)
      modifies this
      ensures ok == (hasDataManager && engineOk)
      ensures rows == if ok
        then UpdateWhere(old(rows), userId, abilityInfo.bundleName,
          CreateValuesBucket(userId, abilityInfo, entInfo, role, permissions))
        else old(rows)
    {
      if !hasDataManager || !engineOk {
        return false;
      }
      rows := UpdateWhere(rows, userId, abilityInfo.bundleName,
        CreateValuesBucket(userId, abilityInfo, entInfo, role, permissions));
      return true;
    }

    method DeleteAdmin(userId: int, packageName: string, engineOk: bool) returns (ok: bool)
      modifies this
      ensures ok == (hasDataManager && engineOk)
      ensures rows == if ok then DeleteWhere(old(rows), userId, packageName) else old(rows)
    {
      if !hasDataManager || !engineOk {
        return false;
      }
      rows := DeleteWhere(rows, userId, packageName);
      return true;
    }

    /** The short UpdateAdmin: package, class and permissions of the rows of (userId, packageName). */
    method UpdateAdminComponent(userId: int, packageName: string, className: string, permissions: seq<string>,
      engineOk: bool) returns (ok: bool)
      modifies this
      ensures ok == (hasDataManager && engineOk)
      ensures rows == if ok
        then UpdateWhere(old(rows), userId, packageName, ComponentBucket(packageName, className, permissions))
        else old(rows)
    {
      if !hasDataManager || !engineOk {
        return false;
      }
      rows := UpdateWhere(rows, userId, packageName, ComponentBucket(packageName, className, permissions));
      return true;
    }

    method UpdateEntInfo(userId: int, packageName: string, entInfo: EntInfo, engineOk: bool) returns (ok: bool)
      modifies this
      ensures ok == (hasDataManager && engineOk)
      ensures rows == if ok then UpdateWhere(old(rows), userId, packageName, EntInfoBucket(entInfo)) else old(rows)
    {
      if !hasDataManager || !engineOk {
        return false;
      }
      rows := UpdateWhere(rows, userId, packageName, EntInfoBucket(entInfo));
      return true;
    }

    method UpdateManagedEvents(userId: int, packageName: string, managedEvents: seq<uint32>, engineOk: bool)
      returns (ok: bool)
      modifies this
      ensures ok == (hasDataManager && engineOk)
      ensures rows == if ok
        then UpdateWhere(old(rows), userId, packageName, ManagedEventsBucket(managedEvents))
        else old(rows)
    {
      if !hasDataManager || !engineOk {
        return false;
      }
      rows := UpdateWhere(rows, userId, packageName, ManagedEventsBucket(managedEvents));
      return true;
    }

    /**
     * QueryAllAdmin: every row read back and grouped by user id. Without a
     * data manager, or when the query yields no result set, the map is empty.
     */
    method QueryAllAdmin(hasResultSet: bool) returns (admins: map<int, seq<Admin>>)
      ensures hasDataManager && hasResultSet ==> admins == GroupByUser(rows)
      ensures !(hasDataManager && hasResultSet) ==> admins == map[]
    {
      admins := map[];
      if !hasDataManager || !hasResultSet {
        return;
      }
      var i := 0;
      while i < |rows|
        invariant 0 <= i <= |rows|
        invariant admins == GroupByUser(rows[..i])
      {
        var row := rows[i];
        var item := ReadRow(row);
        ghost var next := rows[..i + 1];
        assert next[..|next| - 1] == rows[..i] && next[|next| - 1] == row;
        if row.userId in admins {
          admins := admins[row.userId := admins[row.userId] + [item]];
        } else {
          admins := admins[row.userId := [item]];
          assert [] + [item] == [item];
        }
        i := i + 1;
      }
      assert rows[..i] == rows;
    }
  }
}
