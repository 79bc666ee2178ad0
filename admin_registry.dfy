/**
 * The registry of enabled administrators (AdminManager) as the engine calls
 * it: the admins of every user, in enabling order. Its operations look an
 * admin up by package name within one user, upsert, delete, and rewrite the
 * enterprise information and the subscribed events of one admin.
 */
module AdminManagerModel {
  import opened Wrappers
  import opened JsonColumn
  import opened AdminModel

  const DEFAULT_USER_ID: int := 100

  type Registry = map<int, seq<Admin>>

  function AdminsOf(reg: Registry, userId: int): seq<Admin>
  {
    if userId in reg then reg[userId] else []
  }

  /** The position of the first admin of the list with the package name. */
  function FindPkg(list: seq<Admin>, packageName: string): (r: Option<nat>)
    ensures r.Some? ==> r.value < |list| && list[r.value].packageName == packageName
    ensures r.Some? ==> forall j :: 0 <= j < r.value ==> list[j].packageName != packageName
    ensures r.None? ==> forall j :: 0 <= j < |list| ==> list[j].packageName != packageName
  {
    if list == [] then None
    else if list[0].packageName == packageName then Some(0)
    else match FindPkg(list[1..], packageName)
      case None => None
      case Some(k) => Some(k + 1)
  }

  /** GetAdminByPkgName(packageName, userId); None is the null pointer. */
  function GetAdminByPkgName(reg: Registry, packageName: string, userId: int): (r: Option<Admin>)
    ensures r.Some? ==> r.value in AdminsOf(reg, userId) && r.value.packageName == packageName
    ensures r.None? <==> forall a :: a in AdminsOf(reg, userId) ==> a.packageName != packageName
  {
    var list := AdminsOf(reg, userId);
    match FindPkg(list, packageName)
    case None => None
    case Some(i) => Some(list[i])
  }

  /** IsSuperAdmin: the package is enabled in the default user as an ENT admin. */
  predicate IsSuperAdmin(reg: Registry, packageName: string)
  {
    var a := GetAdminByPkgName(reg, packageName, DEFAULT_USER_ID);
    a.Some? && a.value.adminType == Ent
  }

  /** IsSuperAdminExist: some admin of the default user is an ENT admin. */
  predicate IsSuperAdminExist(reg: Registry)
  {
    exists a :: a in AdminsOf(reg, DEFAULT_USER_ID) && a.adminType == Ent
  }

  function FindEnt(list: seq<Admin>): (r: Option<nat>)
    ensures r.Some? ==> r.value < |list| && list[r.value].adminType == Ent
    ensures r.None? ==> forall a :: a in list ==> a.adminType != Ent
  {
    if list == [] then None
    else if list[0].adminType == Ent then Some(0)
    else match FindEnt(list[1..])
      case None => None
      case Some(k) => Some(k + 1)
  }

  /** GetSuperAdmin: the first ENT admin of the default user. */
  function GetSuperAdmin(reg: Registry): (r: Option<Admin>)
    ensures r.Some? <==> IsSuperAdminExist(reg)
    ensures r.Some? ==> r.value.adminType == Ent && r.value in AdminsOf(reg, DEFAULT_USER_ID)
  {
    var list := AdminsOf(reg, DEFAULT_USER_ID);
    match FindEnt(list)
    case None => None
    case Some(i) => Some(list[i])
  }

  /** IsAdminExist: some user has an enabled admin. */
  predicate IsAdminExist(reg: Registry)
  {
    exists u :: u in reg && reg[u] != []
  }

  /**
   * DeleteAdmin(packageName, userId): removes the admin from the user's list
   * and drops a user left without admins; None when the user has no such admin.
   */
  function DeleteAdmin(reg: Registry, packageName: string, userId: int): (r: Option<Registry>)
    ensures r.None? <==> GetAdminByPkgName(reg, packageName, userId).None?
  {
    var list := AdminsOf(reg, userId);
    match FindPkg(list, packageName)
    case None => None
    case Some(i) =>
      var rest := RemoveAt(list, i);
      Some(if rest == [] then reg - {userId} else reg[userId := rest])
  }

  function RemoveAt(list: seq<Admin>, i: nat): (r: seq<Admin>)
    requires i < |list|
    ensures |r| == |list| - 1
    ensures forall j :: 0 <= j < |r| ==> r[j] == (if j < i then list[j] else list[j + 1])
  {
    list[..i] + list[i + 1..]
  }

  /**
   * SetAdminValue(abilityInfo, entInfo, role, permissions, userId): enables
   * the admin, or rewrites an enabled admin of the same package in place,
   * keeping the events it subscribed to.
   */
  function SetAdminValue(reg: Registry, abilityInfo: AbilityInfo, entInfo: EntInfo, role: AdminType,
    permissions: seq<string>, userId: int): Registry
  {
    var list := AdminsOf(reg, userId);
    match FindPkg(list, abilityInfo.bundleName)
    case None =>
      reg[userId := list + [Admin(role, abilityInfo.bundleName, abilityInfo.name, entInfo, permissions, [])]]
    case Some(i) =>
      reg[userId := list[i := Admin(role, abilityInfo.bundleName, abilityInfo.name, entInfo, permissions,
        list[i].managedEvents)]]
  }

  /** Replaces one field set of the user's admin with the package name; the registry is unchanged without one. */
  function PutAdmin(reg: Registry, packageName: string, userId: int, a: Admin): Registry
  {
    var list := AdminsOf(reg, userId);
    match FindPkg(list, packageName)
    case None => reg
    case Some(i) => reg[userId := list[i := a]]
  }

  /** GetEntInfo(packageName, entInfo, userId); None is the error return. */
  function GetEntInfo(reg: Registry, packageName: string, userId: int): (r: Option<EntInfo>)
    ensures r.Some? <==> GetAdminByPkgName(reg, packageName, userId).Some?
  {
    match GetAdminByPkgName(reg, packageName, userId)
    case None => None
    case Some(a) => Some(a.entInfo)
  }

  /** SetEntInfo(packageName, entInfo, userId); None is the error return. */
  function SetEntInfo(reg: Registry, packageName: string, entInfo: EntInfo, userId: int): (r: Option<Registry>)
    ensures r.Some? <==> GetAdminByPkgName(reg, packageName, userId).Some?
  {
    match GetAdminByPkgName(reg, packageName, userId)
    case None => None
    case Some(a) => Some(PutAdmin(reg, packageName, userId, a.(entInfo := entInfo)))
  }

  /** The subscribed events after subscribing to more: new ones are appended once, in request order. */
  function MergeEvents(existing: seq<uint32>, events: seq<uint32>): (r: seq<uint32>)
    ensures existing <= r
    ensures forall e :: e in r <==> e in existing || e in events
    decreases |events|
  {
    if events == [] then existing
    else MergeEvents(if events[0] in existing then existing else existing + [events[0]], events[1..])
  }

  /** The subscribed events after unsubscribing: the listed ones are dropped, the others keep their order. */
  function DropEvents(existing: seq<uint32>, events: seq<uint32>): (r: seq<uint32>)
    ensures |r| <= |existing|
    ensures forall e :: e in r <==> e in existing && e !in events
  {
    if existing == [] then []
    else (if existing[0] in events then [] else [existing[0]]) + DropEvents(existing[1..], events)
  }

  /** SaveSubscribeEvents(events, admin, userId). */
  function SaveSubscribeEvents(reg: Registry, events: seq<uint32>, packageName: string, userId: int): Registry
  {
    match GetAdminByPkgName(reg, packageName, userId)
    case None => reg
    case Some(a) => PutAdmin(reg, packageName, userId, a.(managedEvents := MergeEvents(a.managedEvents, events)))
  }

  /** RemoveSubscribeEvents(events, admin, userId). */
  function RemoveSubscribeEvents(reg: Registry, events: seq<uint32>, packageName: string, userId: int): Registry
  {
    match GetAdminByPkgName(reg, packageName, userId)
    case None => reg
    case Some(a) => PutAdmin(reg, packageName, userId, a.(managedEvents := DropEvents(a.managedEvents, events)))
  }

  /** GetAdminBySubscribeEvent for APP_START and APP_STOP finds someone. */
  predicate HasAppStateSubscriber(reg: Registry)
  {
    exists u, a :: u in reg && a in reg[u] && SubscribesAppState(a)
  }

  /** GetEnabledAdmin(role, list, userId): the packages of the user's admins of that role, in enabling order. */
  function PackagesOfType(list: seq<Admin>, role: AdminType): (r: seq<string>)
    ensures |r| <= |list|
    ensures forall p :: p in r <==> exists a :: a in list && a.adminType == role && a.packageName == p
  {
    if list == [] then []
    else (if list[0].adminType == role then [list[0].packageName] else []) + PackagesOfType(list[1..], role)
  }

  function GetEnabledAdmin(reg: Registry, role: AdminType, userId: int): seq<string>
  {
    PackagesOfType(AdminsOf(reg, userId), role)
  }

  predicate UniquePackages(list: seq<Admin>)
  {
    forall i, j :: 0 <= i < j < |list| ==> list[i].packageName != list[j].packageName
  }

  /** At most one ENT admin in the default user. */
  predicate UniqueEnt(reg: Registry)
  {
    var list := AdminsOf(reg, DEFAULT_USER_ID);
    forall i, j :: 0 <= i < |list| && 0 <= j < |list| && list[i].adminType == Ent && list[j].adminType == Ent ==> i == j
  }

  /**
   * The super-admin invariant: package names are unique within a user, ENT
   * admins live only in the default user, and there is at most one of them.
   */
  predicate SuperAdminInvariant(reg: Registry)
  {
    (forall u :: u in reg ==> UniquePackages(reg[u])) &&
    (forall u, a :: u in reg && a in reg[u] && a.adminType == Ent ==> u == DEFAULT_USER_ID) &&
    UniqueEnt(reg)
  }

  lemma FindPkgIsFirst(list: seq<Admin>, packageName: string, k: nat)
    requires k < |list| && list[k].packageName == packageName
    requires forall j :: 0 <= j < k ==> list[j].packageName != packageName
    ensures FindPkg(list, packageName) == Some(k)
  {
  }

  /** Rewriting an admin without changing its package leaves every lookup position as it was. */
  lemma FindPkgAfterReplace(list: seq<Admin>, i: nat, a: Admin, p: string)
    requires i < |list| && list[i].packageName == a.packageName
    ensures FindPkg(list[i := a], p) == FindPkg(list, p)
  {
    var list' := list[i := a];
    assert forall j :: 0 <= j < |list| ==> list'[j].packageName == list[j].packageName;
    match FindPkg(list, p)
    case None =>
    case Some(k) => FindPkgIsFirst(list', p, k);
  }

  /** Removing the admin at i shifts the lookups of every other package accordingly. */
  lemma FindPkgAfterRemove(list: seq<Admin>, i: nat, p: string)
    requires i < |list| && list[i].packageName != p
    ensures var list' := RemoveAt(list, i);
      match FindPkg(list, p)
      case None => FindPkg(list', p).None?
      case Some(k) => FindPkg(list', p) == Some(if k < i then k else k - 1)
  {
    var list' := RemoveAt(list, i);
    match FindPkg(list, p)
    case None =>
    case Some(k) =>
      FindPkgIsFirst(list', p, if k < i then k else k - 1);
  }

  /**
   * DeleteAdmin touches only the admin it names: the other users' lists and
   * the user's other admins stay as they were, and with unique package names
   * the deleted admin is no longer found.
   */
  lemma DeleteAdminSpec(reg: Registry, packageName: string, userId: int)
    requires DeleteAdmin(reg, packageName, userId).Some?
    ensures var reg' := DeleteAdmin(reg, packageName, userId).value;
      (forall v :: v != userId ==> AdminsOf(reg', v) == AdminsOf(reg, v)) &&
      (forall p :: p != packageName ==> GetAdminByPkgName(reg', p, userId) == GetAdminByPkgName(reg, p, userId)) &&
      (UniquePackages(AdminsOf(reg, userId)) ==> GetAdminByPkgName(reg', packageName, userId).None?) &&
      |AdminsOf(reg', userId)| == |AdminsOf(reg, userId)| - 1
  {
    var list := AdminsOf(reg, userId);
    var i := FindPkg(list, packageName).value;
    var rest := RemoveAt(list, i);
    var reg' := DeleteAdmin(reg, packageName, userId).value;
    DeleteAdminShape(reg, packageName, userId);
    forall p | p != packageName
      ensures GetAdminByPkgName(reg', p, userId) == GetAdminByPkgName(reg, p, userId)
    {
      LookupAfterDelete(reg, packageName, userId, p);
    }
    if UniquePackages(list) {
      RemoveAtDropsPackage(list, i);
    }
  }

  lemma LookupAfterDelete(reg: Registry, packageName: string, userId: int, p: string)
    requires DeleteAdmin(reg, packageName, userId).Some? && p != packageName
    ensures GetAdminByPkgName(DeleteAdmin(reg, packageName, userId).value, p, userId) ==
      GetAdminByPkgName(reg, p, userId)
  {
    var list := AdminsOf(reg, userId);
    var i := FindPkg(list, packageName).value;
    var rest := RemoveAt(list, i);
    DeleteAdminShape(reg, packageName, userId);
    FindPkgAfterRemove(list, i, p);
    match FindPkg(list, p) {
      case None =>
      case Some(k) =>
        assert rest[if k < i then k else k - 1] == list[k];
    }
  }

  lemma DeleteAdminShape(reg: Registry, packageName: string, userId: int)
    requires DeleteAdmin(reg, packageName, userId).Some?
    ensures var list := AdminsOf(reg, userId);
      var reg' := DeleteAdmin(reg, packageName, userId).value;
      AdminsOf(reg', userId) == RemoveAt(list, FindPkg(list, packageName).value) &&
      forall v :: v != userId ==> AdminsOf(reg', v) == AdminsOf(reg, v)
  {
  }

  /** With unique package names, removing the admin at i leaves none of its package. */
  lemma RemoveAtDropsPackage(list: seq<Admin>, i: nat)
    requires i < |list| && UniquePackages(list)
    ensures forall a :: a in RemoveAt(list, i) ==> a.packageName != list[i].packageName
  {
    var rest := RemoveAt(list, i);
    forall a | a in rest ensures a.packageName != list[i].packageName
    {
      var j :| 0 <= j < |rest| && rest[j] == a;
      assert rest[j] == (if j < i then list[j] else list[j + 1]);
    }
  }

  /**
   * SetAdminValue enables the admin with the given identity, role,
   * enterprise information and permissions, keeping the events of an admin
   * already enabled under that package, and touches nothing else.
   */
  lemma SetAdminValueSpec(reg: Registry, abilityInfo: AbilityInfo, entInfo: EntInfo, role: AdminType,
    permissions: seq<string>, userId: int)
    ensures var reg' := SetAdminValue(reg, abilityInfo, entInfo, role, permissions, userId);
      var before := GetAdminByPkgName(reg, abilityInfo.bundleName, userId);
      GetAdminByPkgName(reg', abilityInfo.bundleName, userId) ==
        Some(Admin(role, abilityInfo.bundleName, abilityInfo.name, entInfo, permissions,
          if before.Some? then before.value.managedEvents else [])) &&
      (forall v :: v != userId ==> AdminsOf(reg', v) == AdminsOf(reg, v)) &&
      (forall p :: p != abilityInfo.bundleName ==> GetAdminByPkgName(reg', p, userId) == GetAdminByPkgName(reg, p, userId))
  {
    var list := AdminsOf(reg, userId);
    var reg' := SetAdminValue(reg, abilityInfo, entInfo, role, permissions, userId);
    match FindPkg(list, abilityInfo.bundleName)
    case None =>
      var a := Admin(role, abilityInfo.bundleName, abilityInfo.name, entInfo, permissions, []);
      var list' := list + [a];
      assert AdminsOf(reg', userId) == list';
      FindPkgIsFirst(list', abilityInfo.bundleName, |list|);
      forall p | p != abilityInfo.bundleName
        ensures GetAdminByPkgName(reg', p, userId) == GetAdminByPkgName(reg, p, userId)
      {
        match FindPkg(list, p)
        case None =>
        case Some(k) => FindPkgIsFirst(list', p, k);
      }
    case Some(i) =>
      var a := Admin(role, abilityInfo.bundleName, abilityInfo.name, entInfo, permissions, list[i].managedEvents);
      assert AdminsOf(reg', userId) == list[i := a];
      forall p ensures FindPkg(list[i := a], p) == FindPkg(list, p)
      {
        FindPkgAfterReplace(list, i, a, p);
      }
  }

  /** Rewriting an entry with the same package and role keeps names unique and at most one ENT admin. */
  lemma ReplaceKeepsShape(list: seq<Admin>, i: nat, a: Admin)
    requires i < |list| && a.packageName == list[i].packageName && a.adminType == list[i].adminType
    ensures UniquePackages(list) ==> UniquePackages(list[i := a])
    ensures (forall j, k :: 0 <= j < |list| && 0 <= k < |list| && list[j].adminType == Ent && list[k].adminType == Ent ==> j == k) ==>
      var l := list[i := a];
      forall j, k :: 0 <= j < |l| && 0 <= k < |l| && l[j].adminType == Ent && l[k].adminType == Ent ==> j == k
    ensures forall b :: b in list[i := a] && b.adminType == Ent ==> exists c :: c in list && c.adminType == Ent
  {
    var l := list[i := a];
    assert forall j :: 0 <= j < |l| ==> l[j].packageName == list[j].packageName && l[j].adminType == list[j].adminType;
    forall b | b in l && b.adminType == Ent ensures exists c :: c in list && c.adminType == Ent
    {
      var j :| 0 <= j < |l| && l[j] == b;
      assert list[j] in list;
    }
  }

  /** A rewrite of one admin that keeps its package and role keeps the super-admin invariant. */
  lemma PutAdminPreserves(reg: Registry, packageName: string, userId: int, a: Admin)
    requires SuperAdminInvariant(reg)
    requires GetAdminByPkgName(reg, packageName, userId).Some?
    requires a.packageName == packageName && a.adminType == GetAdminByPkgName(reg, packageName, userId).value.adminType
    ensures SuperAdminInvariant(PutAdmin(reg, packageName, userId, a))
  {
    var list := AdminsOf(reg, userId);
    var i := FindPkg(list, packageName).value;
    var reg' := PutAdmin(reg, packageName, userId, a);
    assert reg' == reg[userId := list[i := a]];
    assert userId in reg;
    ReplaceKeepsShape(list, i, a);
    forall u: int, b: Admin | u in reg' && b in reg'[u] && b.adminType == Ent ensures u == DEFAULT_USER_ID
    {
      if u == userId {
        var c :| c in list && c.adminType == Ent;
      }
    }
  }

  /** Removing an entry keeps only entries that were there. */
  lemma RemoveAtSubset(list: seq<Admin>, i: nat)
    requires i < |list|
    ensures forall b :: b in RemoveAt(list, i) ==> b in list
  {
    var rest := RemoveAt(list, i);
    forall b | b in rest ensures b in list
    {
      var j :| 0 <= j < |rest| && rest[j] == b;
      assert rest[j] == (if j < i then list[j] else list[j + 1]);
    }
  }

  /** Removing an entry keeps package names unique. */
  lemma RemoveAtUnique(list: seq<Admin>, i: nat)
    requires i < |list| && UniquePackages(list)
    ensures UniquePackages(RemoveAt(list, i))
  {
    var rest := RemoveAt(list, i);
    forall j, k | 0 <= j < k < |rest| ensures rest[j].packageName != rest[k].packageName
    {
      assert rest[j] == (if j < i then list[j] else list[j + 1]);
      assert rest[k] == (if k < i then list[k] else list[k + 1]);
    }
  }

  /** Removing an entry keeps at most one ENT admin. */
  lemma RemoveAtOneEnt(list: seq<Admin>, i: nat)
    requires i < |list|
    requires forall j, k :: 0 <= j < |list| && 0 <= k < |list| && list[j].adminType == Ent && list[k].adminType == Ent ==> j == k
    ensures var rest := RemoveAt(list, i);
      forall j, k :: 0 <= j < |rest| && 0 <= k < |rest| && rest[j].adminType == Ent && rest[k].adminType == Ent ==> j == k
  {
    var rest := RemoveAt(list, i);
    forall j, k | 0 <= j < |rest| && 0 <= k < |rest| && rest[j].adminType == Ent && rest[k].adminType == Ent
      ensures j == k
    {
      var j0 := if j < i then j else j + 1;
      var k0 := if k < i then k else k + 1;
      assert rest[j] == list[j0] && rest[k] == list[k0];
    }
  }

  /** DeleteAdmin keeps the super-admin invariant. */
  lemma DeletePreserves(reg: Registry, packageName: string, userId: int)
    requires SuperAdminInvariant(reg)
    requires DeleteAdmin(reg, packageName, userId).Some?
    ensures SuperAdminInvariant(DeleteAdmin(reg, packageName, userId).value)
  {
    var list := AdminsOf(reg, userId);
    var i := FindPkg(list, packageName).value;
    RemoveAtSubset(list, i);
    if userId in reg {
      RemoveAtUnique(list, i);
    }
    if userId == DEFAULT_USER_ID {
      RemoveAtOneEnt(list, i);
    }
  }

  /** With the invariant, GetEnabledAdmin of ENT admins lists at most one package. */
  lemma {:induction false} AtMostOneEnt(list: seq<Admin>)
    requires forall i, j :: 0 <= i < |list| && 0 <= j < |list| && list[i].adminType == Ent && list[j].adminType == Ent ==> i == j
    ensures |PackagesOfType(list, Ent)| <= 1
  {
    if list != [] {
      var tail := list[1..];
      assert forall i :: 0 <= i < |tail| ==> tail[i] == list[i + 1];
      AtMostOneEnt(tail);
      if list[0].adminType == Ent {
        assert forall a :: a in tail ==> a.adminType != Ent;
        NoneOfType(tail, Ent);
      }
    }
  }

  lemma {:induction false} NoneOfType(list: seq<Admin>, role: AdminType)
    requires forall a :: a in list ==> a.adminType != role
    ensures PackagesOfType(list, role) == []
  {
    if list != [] {
      NoneOfType(list[1..], role);
    }
  }

  lemma SuperAdminListedOnce(reg: Registry)
    requires SuperAdminInvariant(reg)
    ensures |GetEnabledAdmin(reg, Ent, DEFAULT_USER_ID)| <= 1
    ensures GetEnabledAdmin(reg, Ent, DEFAULT_USER_ID) != [] <==> IsSuperAdminExist(reg)
  {
    var list := AdminsOf(reg, DEFAULT_USER_ID);
    AtMostOneEnt(list);
    var r := PackagesOfType(list, Ent);
    if r != [] {
      assert r[0] in r;
    }
    if IsSuperAdminExist(reg) {
      var a :| a in list && a.adminType == Ent;
      assert a.packageName in r;
    }
  }

  /** Rewriting an admin in place is seen by the next lookup of its package and by no other lookup. */
  lemma PutAdminThenGet(reg: Registry, packageName: string, userId: int, a: Admin)
    requires GetAdminByPkgName(reg, packageName, userId).Some? && a.packageName == packageName
    ensures GetAdminByPkgName(PutAdmin(reg, packageName, userId, a), packageName, userId) == Some(a)
    ensures forall p :: p != packageName ==>
      GetAdminByPkgName(PutAdmin(reg, packageName, userId, a), p, userId) == GetAdminByPkgName(reg, p, userId)
    ensures forall v :: v != userId ==> AdminsOf(PutAdmin(reg, packageName, userId, a), v) == AdminsOf(reg, v)
  {
    var list := AdminsOf(reg, userId);
    var i := FindPkg(list, packageName).value;
    assert AdminsOf(PutAdmin(reg, packageName, userId, a), userId) == list[i := a];
    forall p ensures FindPkg(list[i := a], p) == FindPkg(list, p) {
      FindPkgAfterReplace(list, i, a, p);
    }
  }

  /** Enterprise information written by SetEntInfo reads back through GetEntInfo. */
  lemma EntInfoRoundTrip(reg: Registry, packageName: string, entInfo: EntInfo, userId: int)
    requires SetEntInfo(reg, packageName, entInfo, userId).Some?
    ensures GetEntInfo(SetEntInfo(reg, packageName, entInfo, userId).value, packageName, userId) == Some(entInfo)
  {
    var a := GetAdminByPkgName(reg, packageName, userId).value;
    PutAdminThenGet(reg, packageName, userId, a.(entInfo := entInfo));
  }

  /**
   * After SaveSubscribeEvents the admin listens to every requested event and
   * still to every earlier one; after RemoveSubscribeEvents it listens to
   * none of the listed events and to every other earlier one.
   */
  lemma SubscribeEventsSpec(reg: Registry, events: seq<uint32>, packageName: string, userId: int)
    requires GetAdminByPkgName(reg, packageName, userId).Some?
    ensures var before := GetAdminByPkgName(reg, packageName, userId).value;
      var after := GetAdminByPkgName(SaveSubscribeEvents(reg, events, packageName, userId), packageName, userId);
      after.Some? && after.value == before.(managedEvents := after.value.managedEvents) &&
      forall e :: e in after.value.managedEvents <==> e in before.managedEvents || e in events
    ensures var before := GetAdminByPkgName(reg, packageName, userId).value;
      var after := GetAdminByPkgName(RemoveSubscribeEvents(reg, events, packageName, userId), packageName, userId);
      after.Some? && after.value == before.(managedEvents := after.value.managedEvents) &&
      forall e :: e in after.value.managedEvents <==> e in before.managedEvents && e !in events
  {
    var a := GetAdminByPkgName(reg, packageName, userId).value;
    PutAdminThenGet(reg, packageName, userId, a.(managedEvents := MergeEvents(a.managedEvents, events)));
    PutAdminThenGet(reg, packageName, userId, a.(managedEvents := DropEvents(a.managedEvents, events)));
  }

  /** With the invariant there is one super admin at most, and GetSuperAdmin returns it. */
  lemma SuperAdminIsUnique(reg: Registry, p: string, q: string)
    requires SuperAdminInvariant(reg)
    ensures IsSuperAdmin(reg, p) && IsSuperAdmin(reg, q) ==> p == q
    ensures GetSuperAdmin(reg).Some? ==> IsSuperAdmin(reg, GetSuperAdmin(reg).value.packageName)
  {
    var list := AdminsOf(reg, DEFAULT_USER_ID);
    if IsSuperAdmin(reg, p) && IsSuperAdmin(reg, q) {
      var i := FindPkg(list, p).value;
      var j := FindPkg(list, q).value;
      assert list[i].adminType == Ent && list[j].adminType == Ent;
    }
    match GetSuperAdmin(reg)
    case None =>
    case Some(a) =>
      var k := FindEnt(list).value;
      assert UniquePackages(list);
      FindPkgIsFirst(list, a.packageName, k);
  }

  /** Deleting the super admin from the default user leaves no super admin. */
  lemma DeleteSuperAdminLeavesNone(reg: Registry, packageName: string)
    requires SuperAdminInvariant(reg) && IsSuperAdmin(reg, packageName)
    ensures DeleteAdmin(reg, packageName, DEFAULT_USER_ID).Some?
    ensures !IsSuperAdminExist(DeleteAdmin(reg, packageName, DEFAULT_USER_ID).value)
  {
    var list := AdminsOf(reg, DEFAULT_USER_ID);
    var i := FindPkg(list, packageName).value;
    var rest := RemoveAt(list, i);
    var reg' := DeleteAdmin(reg, packageName, DEFAULT_USER_ID).value;
    assert AdminsOf(reg', DEFAULT_USER_ID) == rest;
    forall a | a in rest ensures a.adminType != Ent
    {
      var j :| 0 <= j < |rest| && rest[j] == a;
      var j0 := if j < i then j else j + 1;
      assert rest[j] == list[j0];
      assert list[i].adminType == Ent;
    }
  }
}
