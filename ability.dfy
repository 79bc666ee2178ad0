/**
 * EnterpriseDeviceMgrAbility: the service object. It owns the admin
 * registry, one policy store per OS account (policyMgrMap_), the store the
 * next policy call works on (policyMgr_), the store the plugins see
 * (IPolicyManager::policyManagerInstance_), the application-state observer
 * and the persisted "EDM enabled" flag, and updates them in place.
 */
module EnterpriseDeviceMgr {
  import opened Wrappers
  import opened EdmErrors
  import opened JsonColumn
  import opened AdminModel
  import opened AdminManagerModel
  import opened PolicyManagerModel
  import opened PluginModel
  import opened AbilityRules

  // ----- Policy files found at start-up -----

  /** The account of one listed file, if InitAllPolices loads it. */
  function FileUsers(path: string): set<int>
  {
    match PolicyFileUser(path)
    case None => {}
    case Some(u) => {u}
  }

  /** The union of f over the paths. */
  function UnionOver(paths: seq<string>, f: string -> set<int>): set<int>
  {
    if paths == [] then {} else UnionOver(paths[..|paths| - 1], f) + f(paths[|paths| - 1])
  }

  /** The accounts whose policy file InitAllPolices loads, for the files listed in the base directory. */
  function PolicyUsers(paths: seq<string>): set<int>
  {
    UnionOver(paths, FileUsers)
  }

  lemma {:induction false} UnionOverMembers(paths: seq<string>, f: string -> set<int>, u: int)
    ensures u in UnionOver(paths, f) <==> exists i :: 0 <= i < |paths| && u in f(paths[i])
  {
    if paths != [] {
      var init := paths[..|paths| - 1];
      UnionOverMembers(init, f, u);
      if u in UnionOver(init, f) {
        var i :| 0 <= i < |init| && u in f(init[i]);
        assert paths[i] == init[i];
      }
      if exists i :: 0 <= i < |paths| && u in f(paths[i]) {
        var i :| 0 <= i < |paths| && u in f(paths[i]);
        if i < |init| {
          assert init[i] == paths[i];
        }
      }
    }
  }

  /**
   * An account is loaded exactly when one of the listed files names it,
   * and every loaded account is at least DEFAULT_USER_ID.
   */
  lemma PolicyUsersMembers(paths: seq<string>, u: int)
    ensures u in PolicyUsers(paths) <==> exists i :: 0 <= i < |paths| && PolicyFileUser(paths[i]) == Some(u)
    ensures u in PolicyUsers(paths) ==> DEFAULT_USER_ID <= u <= INT32_MAX
  {
    UnionOverMembers(paths, FileUsers, u);
    assert forall i :: 0 <= i < |paths| ==> (u in FileUsers(paths[i]) <==> PolicyFileUser(paths[i]) == Some(u));
  }

  // ----- Removing an admin -----

  /**
   * What RemoveAdmin does to the registry and to the observer once every
   * policy item of the admin is removed, and the code it returns.
   */
  function RemoveAdminTail(reg: Registry, adminName: string, userId: int, subscribed: bool, app: AppMgr)
    : (Registry, bool, int)
  {
    if IsSuperAdmin(reg, adminName) && userId != DEFAULT_USER_ID then (reg, subscribed, ERR_OK)
    else
      match DeleteAdmin(reg, adminName, userId)
      case None => (reg, subscribed, ERR_EDM_DEL_ADMIN_FAILED)
      case Some(reg') =>
        (reg', if ShouldUnsubscribeAppState(reg, adminName, userId)
               then UnsubscribeAppStateOutcome(subscribed, reg', app).subscribed else subscribed, ERR_OK)
  }

  /**
   * Under the super-admin invariant: the super admin keeps its registration
   * when it is removed from another account; otherwise the removal fails
   * exactly when the account has no such admin, and a success leaves none,
   * touches no other account and keeps the invariant.
   */
  lemma RemoveAdminTailMeaning(reg: Registry, adminName: string, userId: int, subscribed: bool, app: AppMgr)
    requires SuperAdminInvariant(reg)
    ensures var (reg', _, r) := RemoveAdminTail(reg, adminName, userId, subscribed, app);
      SuperAdminInvariant(reg') &&
      (r == ERR_OK || r == ERR_EDM_DEL_ADMIN_FAILED) &&
      (IsSuperAdmin(reg, adminName) && userId != DEFAULT_USER_ID ==> r == ERR_OK && reg' == reg) &&
      (r == ERR_EDM_DEL_ADMIN_FAILED <==>
        !(IsSuperAdmin(reg, adminName) && userId != DEFAULT_USER_ID) && GetAdminByPkgName(reg, adminName, userId).None?) &&
      (r == ERR_OK && !(IsSuperAdmin(reg, adminName) && userId != DEFAULT_USER_ID) ==>
        GetAdminByPkgName(reg', adminName, userId).None?) &&
      (forall v :: v != userId ==> AdminsOf(reg', v) == AdminsOf(reg, v))
    ensures var (reg', subscribed', r) := RemoveAdminTail(reg, adminName, userId, subscribed, app);
      r != ERR_OK ==> reg' == reg && subscribed' == subscribed
  {
    if !(IsSuperAdmin(reg, adminName) && userId != DEFAULT_USER_ID) && DeleteAdmin(reg, adminName, userId).Some? {
      DeletePreserves(reg, adminName, userId);
      DeleteAdminSpec(reg, adminName, userId);
      if userId in reg {
        assert UniquePackages(reg[userId]);
      }
    }
  }

  /**
   * Within the account, RemoveAdmin's registry step leaves every other
   * package's admin where it was, and the package itself has none left
   * unless it is the super admin removed from another account.
   */
  lemma RemoveAdminTailLookups(reg: Registry, adminName: string, userId: int, subscribed: bool, app: AppMgr)
    requires SuperAdminInvariant(reg)
    ensures var reg' := RemoveAdminTail(reg, adminName, userId, subscribed, app).0;
      (forall p :: p != adminName ==> GetAdminByPkgName(reg', p, userId) == GetAdminByPkgName(reg, p, userId)) &&
      (!(IsSuperAdmin(reg, adminName) && userId != DEFAULT_USER_ID) ==> GetAdminByPkgName(reg', adminName, userId).None?)
  {
    if !(IsSuperAdmin(reg, adminName) && userId != DEFAULT_USER_ID) && DeleteAdmin(reg, adminName, userId).Some? {
      DeleteAdminSpec(reg, adminName, userId);
      if userId in reg {
        assert UniquePackages(reg[userId]);
      }
    }
  }

  /**
   * Enabling a package as a NORMAL admin of account 101 and then as the
   * ENT admin of the default user both pass VerifyEnableAdminCondition;
   * RemoveAdmin of the NORMAL admin from account 101 then reports success
   * and leaves the registry as it was, so DisableAdmin keeps that admin.
   */
  lemma SuperAdminPackageKeepsOtherAccount(subscribed: bool, app: AppMgr)
    ensures var info := AbilityInfo("com.example.edm", "EnterpriseAdminAbility");
      var normal := Admin(Normal, info.bundleName, info.name, EntInfo("", ""), [], []);
      var ent := Admin(Ent, info.bundleName, info.name, EntInfo("", ""), [], []);
      var reg1 := map[101 := [normal]];
      var reg2 := reg1[DEFAULT_USER_ID := [ent]];
      VerifyEnableAdminCondition(map[], info, Normal, 101) == ERR_OK &&
      VerifyEnableAdminCondition(reg1, info, Ent, DEFAULT_USER_ID) == ERR_OK &&
      GetAdminByPkgName(reg2, info.bundleName, 101) == Some(normal) &&
      RemoveAdminTail(reg2, info.bundleName, 101, subscribed, app) == (reg2, subscribed, ERR_OK)
  {
    var info := AbilityInfo("com.example.edm", "EnterpriseAdminAbility");
    var normal := Admin(Normal, info.bundleName, info.name, EntInfo("", ""), [], []);
    var ent := Admin(Ent, info.bundleName, info.name, EntInfo("", ""), [], []);
    var reg1 := map[101 := [normal]];
    var reg2 := reg1[DEFAULT_USER_ID := [ent]];
    assert FindPkg([normal], info.bundleName) == Some(0);
    assert FindPkg([ent], info.bundleName) == Some(0);
    assert AdminsOf(reg1, DEFAULT_USER_ID) == [];
    assert AdminsOf(reg2, 101) == [normal];
    assert AdminsOf(reg2, DEFAULT_USER_ID) == [ent];
  }

  // ----- Removing an account -----

  /**
   * The registry along OnCommonEventUserRemoved: the super admin's
   * packages keep their admin in another account, and when no item named
   * in `names` (the account's policy names when the loop starts) fails,
   * the admins done have none left in the account, except the super
   * admin's package in another account.
   */
  ghost predicate AccountAdminsRemoved(a0: Registry, reg: Registry, u: int, plugins: PluginManager, failing: set<string>,
    names: set<string>, done: seq<Admin>)
  {
    (u != DEFAULT_USER_ID ==>
      forall p :: IsSuperAdmin(a0, p) ==> GetAdminByPkgName(reg, p, u) == GetAdminByPkgName(a0, p, u)) &&
    (NoItemFails(plugins, failing, names) ==>
      forall a :: (a in done && !(IsSuperAdmin(a0, a.packageName) && u != DEFAULT_USER_ID)) ==>
        GetAdminByPkgName(reg, a.packageName, u).None?)
  }

  /**
   * One RemoveAdmin of a package during OnCommonEventUserRemoved keeps
   * the loop state, with or without that package among the admins done.
   */
  lemma AccountRemovalStep(a0: Registry, before: Registry, after: Registry, u: int, plugins: PluginManager,
    failing: set<string>, names: set<string>, done: seq<Admin>, a: Admin, items: set<string>)
    requires AccountAdminsRemoved(a0, before, u, plugins, failing, names, done)
    requires items <= names
    requires forall v :: v != u ==> AdminsOf(before, v) == AdminsOf(a0, v)
    requires forall p :: p != a.packageName ==> GetAdminByPkgName(after, p, u) == GetAdminByPkgName(before, p, u)
    requires IsSuperAdmin(before, a.packageName) && u != DEFAULT_USER_ID ==> after == before
    requires NoItemFails(plugins, failing, items) && !(IsSuperAdmin(before, a.packageName) && u != DEFAULT_USER_ID) ==>
      GetAdminByPkgName(after, a.packageName, u).None?
    ensures AccountAdminsRemoved(a0, after, u, plugins, failing, names, done)
    ensures AccountAdminsRemoved(a0, after, u, plugins, failing, names, done + [a])
  {
    if u != DEFAULT_USER_ID {
      assert AdminsOf(before, DEFAULT_USER_ID) == AdminsOf(a0, DEFAULT_USER_ID);
      assert IsSuperAdmin(before, a.packageName) == IsSuperAdmin(a0, a.packageName);
    }
  }

  /**
   * The state of OnCommonEventUserRemoved's loop over the account u: only
   * u's store and u's admins change, u's store gains no policy name, and
   * the admins go as AccountAdminsRemoved says.
   */
  ghost predicate AccountLoopState(m0: map<int, PolicyStore>, a0: Registry, u: int, plugins: PluginManager,
    failing: set<string>, names: set<string>, done: seq<Admin>, m: map<int, PolicyStore>, reg: Registry)
  {
    m.Keys == m0.Keys + {u} &&
    (forall v :: v in m0 && v != u ==> m[v] == m0[v]) &&
    m[u].records.Keys <= names &&
    (forall v :: v != u ==> AdminsOf(reg, v) == AdminsOf(a0, v)) &&
    AccountAdminsRemoved(a0, reg, u, plugins, failing, names, done)
  }

  /** One RemoveAdmin in the account u keeps the loop state. */
  lemma AccountLoopStep(m0: map<int, PolicyStore>, a0: Registry, u: int, plugins: PluginManager, failing: set<string>,
    names: set<string>, done: seq<Admin>, m: map<int, PolicyStore>, reg: Registry, a: Admin, items: set<string>,
    m': map<int, PolicyStore>, reg': Registry, s': PolicyStore)
    requires AccountLoopState(m0, a0, u, plugins, failing, names, done, m, reg)
    requires u in m && m' == m[u := s'] && s'.records.Keys <= m[u].records.Keys
    requires items <= m[u].records.Keys
    requires forall v :: v != u ==> AdminsOf(reg', v) == AdminsOf(reg, v)
    requires forall p :: p != a.packageName ==> GetAdminByPkgName(reg', p, u) == GetAdminByPkgName(reg, p, u)
    requires IsSuperAdmin(reg, a.packageName) && u != DEFAULT_USER_ID ==> reg' == reg
    requires NoItemFails(plugins, failing, items) && !(IsSuperAdmin(reg, a.packageName) && u != DEFAULT_USER_ID) ==>
      GetAdminByPkgName(reg', a.packageName, u).None?
    ensures AccountLoopState(m0, a0, u, plugins, failing, names, done, m', reg')
    ensures AccountLoopState(m0, a0, u, plugins, failing, names, done + [a], m', reg')
  {
    AccountRemovalStep(a0, reg, reg', u, plugins, failing, names, done, a, items);
  }

  /**
   * What OnCommonEventUserRemoved promises, once every admin of the account
   * was done in the stores m1, which switching to u made of m0.
   */
  lemma UserRemovedOutcome(m0: map<int, PolicyStore>, m1: map<int, PolicyStore>, m: map<int, PolicyStore>,
    a0: Registry, reg: Registry, u: int, plugins: PluginManager, failing: set<string>)
    requires m1.Keys == m0.Keys + {u} && forall v :: v in m0 ==> m1[v] == m0[v]
    requires AccountLoopState(m1, a0, u, plugins, failing, m1[u].records.Keys, AdminsOf(a0, u), m, reg)
    ensures m.Keys == m0.Keys + {u}
    ensures forall v :: v in m0 && v != u ==> m[v] == m0[v]
    ensures m[u].records.Keys <= m1[u].records.Keys
    ensures forall v :: v != u ==> AdminsOf(reg, v) == AdminsOf(a0, v)
    ensures u != DEFAULT_USER_ID ==> (IsSuperAdminExist(reg) <==> IsSuperAdminExist(a0))
    ensures u != DEFAULT_USER_ID ==>
      forall p :: IsSuperAdmin(a0, p) ==> GetAdminByPkgName(reg, p, u) == GetAdminByPkgName(a0, p, u)
    ensures NoItemFails(plugins, failing, m1[u].records.Keys) ==>
      forall p :: (GetAdminByPkgName(a0, p, u).Some? && !(IsSuperAdmin(a0, p) && u != DEFAULT_USER_ID)) ==>
        GetAdminByPkgName(reg, p, u).None?
  {
    if u != DEFAULT_USER_ID {
      assert AdminsOf(reg, DEFAULT_USER_ID) == AdminsOf(a0, DEFAULT_USER_ID);
    }
    if NoItemFails(plugins, failing, m1[u].records.Keys) {
      forall p | GetAdminByPkgName(a0, p, u).Some? && !(IsSuperAdmin(a0, p) && u != DEFAULT_USER_ID)
        ensures GetAdminByPkgName(reg, p, u).None?
      {
        var a := GetAdminByPkgName(a0, p, u).value;
        assert a in AdminsOf(a0, u) && a.packageName == p;
      }
    }
  }

  /**
   * The registry and the observer after RemoveAdmin's registry step
   * (RemoveAdminTail) for each of the packages in turn, in one account.
   */
  function AccountTails(reg: Registry, subscribed: bool, packages: seq<string>, userId: int, app: AppMgr)
    : (Registry, bool)
  {
    if packages == [] then (reg, subscribed)
    else
      var before := AccountTails(reg, subscribed, packages[..|packages| - 1], userId, app);
      var t := RemoveAdminTail(before.0, packages[|packages| - 1], userId, before.1, app);
      (t.0, t.1)
  }

  /**
   * The bookkeeping of OnCommonEventUserRemoved's removals: the loop state
   * over the admins `done`, the registry and the observer after the
   * registry step of each package in `removed`, and, when no item named in
   * `names` fails, every admin done among them.
   */
  ghost predicate AccountWalk(m0: map<int, PolicyStore>, a0: Registry, s0: bool, u: int, plugins: PluginManager,
    failing: set<string>, names: set<string>, done: seq<Admin>, removed: seq<string>, app: AppMgr,
    m: map<int, PolicyStore>, reg: Registry, subscribed: bool)
  {
    AccountLoopState(m0, a0, u, plugins, failing, names, done, m, reg) &&
    (reg, subscribed) == AccountTails(a0, s0, removed, u, app) &&
    (NoItemFails(plugins, failing, names) ==> forall a :: a in done ==> a.packageName in removed)
  }

  /**
   * One RemoveAdmin of the package of `a` in the account u, described by
   * its effect on the store (the items `d` withdrawn) and on the registry
   * and the observer, keeps the walk, with the package added to `removed`
   * when none of its items fails.
   */
  lemma AccountWalkStep(m0: map<int, PolicyStore>, a0: Registry, s0: bool, u: int, plugins: PluginManager,
    failing: set<string>, names: set<string>, done: seq<Admin>, removed: seq<string>, app: AppMgr,
    m: map<int, PolicyStore>, reg: Registry, subscribed: bool, a: Admin, merge: Merger, d: set<string>,
    m': map<int, PolicyStore>, reg': Registry, subscribed': bool)
    requires AccountWalk(m0, a0, s0, u, plugins, failing, names, done, removed, app, m, reg, subscribed)
    requires u in m
    requires d <= GetAllPolicyByAdmin(m[u], a.packageName).Keys
    requires m' == m[u := UnwindStore(m[u], plugins, a.packageName, d, merge)]
    requires var tail := RemoveAdminTail(reg, a.packageName, u, subscribed, app);
      (reg', subscribed') ==
        if NoItemFails(plugins, failing, GetAllPolicyByAdmin(m[u], a.packageName).Keys) then (tail.0, tail.1)
        else (reg, subscribed)
    requires forall v :: v != u ==> AdminsOf(reg', v) == AdminsOf(reg, v)
    requires forall p :: p != a.packageName ==> GetAdminByPkgName(reg', p, u) == GetAdminByPkgName(reg, p, u)
    requires IsSuperAdmin(reg, a.packageName) && u != DEFAULT_USER_ID ==> reg' == reg
    requires (NoItemFails(plugins, failing, GetAllPolicyByAdmin(m[u], a.packageName).Keys) &&
              !(IsSuperAdmin(reg, a.packageName) && u != DEFAULT_USER_ID)) ==>
      GetAdminByPkgName(reg', a.packageName, u).None?
    ensures AccountWalk(m0, a0, s0, u, plugins, failing, names, done + [a],
      if NoItemFails(plugins, failing, GetAllPolicyByAdmin(m[u], a.packageName).Keys) then removed + [a.packageName]
      else removed,
      app, m', reg', subscribed')
  {
    var items := GetAllPolicyByAdmin(m[u], a.packageName).Keys;
    UnwindStoreNames(m[u], plugins, a.packageName, d, merge);
    AccountLoopStep(m0, a0, u, plugins, failing, names, done, m, reg, a, items, m', reg', m'[u]);
    if NoItemFails(plugins, failing, items) {
      assert (removed + [a.packageName])[..|removed|] == removed;
    }
  }

  /** What the walk says of the admins done holds of any prefix of them. */
  lemma AccountWalkPrefix(m0: map<int, PolicyStore>, a0: Registry, s0: bool, u: int, plugins: PluginManager,
    failing: set<string>, names: set<string>, done: seq<Admin>, done': seq<Admin>, removed: seq<string>, app: AppMgr,
    m: map<int, PolicyStore>, reg: Registry, subscribed: bool)
    requires AccountWalk(m0, a0, s0, u, plugins, failing, names, done', removed, app, m, reg, subscribed)
    requires done <= done'
    ensures AccountLoopState(m0, a0, u, plugins, failing, names, done, m, reg)
    ensures (reg, subscribed) == AccountTails(a0, s0, removed, u, app)
    ensures NoItemFails(plugins, failing, names) ==> forall a :: a in done ==> a.packageName in removed
  {
    assert forall a :: a in done ==> a in done' by {
      forall a | a in done
        ensures a in done'
      {
        var k :| 0 <= k < |done| && done[k] == a;
        assert done'[k] == a;
      }
    }
  }

  /** The package is no admin of the default user, and the default user has no ENT admin. */
  predicate SuperAdminGone(reg: Registry, bundleName: string)
  {
    GetAdminByPkgName(reg, bundleName, DEFAULT_USER_ID).None? && !IsSuperAdminExist(reg)
  }

  /**
   * The registry along DisableSuperAdmin's loop: as it was while the
   * default user is pending, without any super admin once it is done.
   */
  lemma SuperAdminPhaseStep(a0: Registry, before: Registry, after: Registry, bundleName: string, pending: bool, u: int)
    requires IsSuperAdmin(a0, bundleName)
    requires if pending then before == a0 else SuperAdminGone(before, bundleName)
    requires u == DEFAULT_USER_ID ==> pending
    requires u != DEFAULT_USER_ID && IsSuperAdmin(before, bundleName) ==> after == before
    requires u == DEFAULT_USER_ID && IsSuperAdmin(before, bundleName) ==> SuperAdminGone(after, bundleName)
    requires SuperAdminGone(before, bundleName) ==> SuperAdminGone(after, bundleName)
    ensures if pending && u != DEFAULT_USER_ID then after == a0 else SuperAdminGone(after, bundleName)
  {
  }

  /**
   * RemoveAdmin of the super admin during DisableSuperAdmin: another
   * account keeps the registry, the default user's turn leaves no super
   * admin, and once none is left none comes back.
   */
  lemma SuperAdminRemovalStep(reg: Registry, bundleName: string, userId: int, subscribed: bool, app: AppMgr)
    requires SuperAdminInvariant(reg)
    ensures var (reg', _, r) := RemoveAdminTail(reg, bundleName, userId, subscribed, app);
      SuperAdminInvariant(reg') &&
      (r == ERR_OK && userId != DEFAULT_USER_ID && IsSuperAdmin(reg, bundleName) ==> reg' == reg) &&
      (r == ERR_OK && userId == DEFAULT_USER_ID && IsSuperAdmin(reg, bundleName) ==> SuperAdminGone(reg', bundleName)) &&
      (SuperAdminGone(reg, bundleName) ==> SuperAdminGone(reg', bundleName))
  {
    RemoveAdminTailMeaning(reg, bundleName, userId, subscribed, app);
    if userId == DEFAULT_USER_ID && IsSuperAdmin(reg, bundleName) {
      DeleteSuperAdminLeavesNone(reg, bundleName);
    }
    var reg' := RemoveAdminTail(reg, bundleName, userId, subscribed, app).0;
    if userId != DEFAULT_USER_ID {
      assert AdminsOf(reg', DEFAULT_USER_ID) == AdminsOf(reg, DEFAULT_USER_ID);
    }
  }

  /** The store RemoveAdmin leaves when every policy item of the admin goes. */
  function Unwound(s: PolicyStore, plugins: PluginManager, adminName: string, merge: Merger): PolicyStore
  {
    UnwindStore(s, plugins, adminName, GetAllPolicyByAdmin(s, adminName).Keys, merge)
  }

  /** The stores after RemoveAdmin of one admin succeeded in each of the accounts, in order. */
  function UnwindUsers(m: map<int, PolicyStore>, users: seq<int>, plugins: PluginManager, adminName: string,
    merge: Merger): (r: map<int, PolicyStore>)
    requires forall u :: u in users ==> u in m
    ensures r.Keys == m.Keys
    ensures forall u :: u in m && u !in users ==> r[u] == m[u]
    ensures forall u :: u in users ==> r[u] == Unwound(m[u], plugins, adminName, merge)
  {
    if users == [] then m
    else
      var last := users[|users| - 1];
      var init := users[..|users| - 1];
      assert forall u :: u in users && u !in init ==> u == last;
      UnwindUsers(m, init, plugins, adminName, merge)[last := Unwound(m[last], plugins, adminName, merge)]
  }

  /**
   * The registry and the observer after RemoveAdmin's registry step
   * (RemoveAdminTail) for the package in each of the accounts, in order.
   */
  function SuperAdminTails(reg: Registry, subscribed: bool, bundleName: string, users: seq<int>, app: AppMgr)
    : (Registry, bool)
  {
    if users == [] then (reg, subscribed)
    else
      var before := SuperAdminTails(reg, subscribed, bundleName, users[..|users| - 1], app);
      var t := RemoveAdminTail(before.0, bundleName, users[|users| - 1], before.1, app);
      (t.0, t.1)
  }

  /** One more account's registry step extends the fold by that step. */
  lemma SuperAdminTailsStep(a0: Registry, s0: bool, bundleName: string, order: seq<int>, u: int, app: AppMgr,
    reg: Registry, subscribed: bool)
    requires SuperAdminTails(a0, s0, bundleName, order, app) == (reg, subscribed)
    ensures SuperAdminTails(a0, s0, bundleName, order + [u], app).0 == RemoveAdminTail(reg, bundleName, u, subscribed, app).0
    ensures SuperAdminTails(a0, s0, bundleName, order + [u], app).1 == RemoveAdminTail(reg, bundleName, u, subscribed, app).1
  {
    assert (order + [u])[..|order|] == order;
  }

  /** Appending an account that is not yet done unwinds that account's original store. */
  lemma UnwindUsersStep(m: map<int, PolicyStore>, users: seq<int>, u: int, plugins: PluginManager, adminName: string,
    merge: Merger)
    requires forall v :: v in users ==> v in m
    requires u in m && u !in users
    ensures var before := UnwindUsers(m, users, plugins, adminName, merge);
      before[u := Unwound(before[u], plugins, adminName, merge)] == UnwindUsers(m, users + [u], plugins, adminName, merge)
  {
    assert (users + [u])[..|users|] == users;
  }

  /**
   * The bookkeeping of a walk over the account ids from the highest down:
   * `order` holds the ids done, in decreasing order, and `remaining` the
   * rest, all below the last id done.
   */
  predicate DescendingWalk(keys: set<int>, remaining: set<int>, order: seq<int>)
  {
    remaining <= keys &&
    (forall u :: u in keys ==> (u in remaining <==> u !in order)) &&
    (forall u :: u in order ==> u in keys) &&
    (forall i, j :: 0 <= i < j < |order| ==> order[i] > order[j]) &&
    (order != [] ==> forall u :: u in remaining ==> u < order[|order| - 1])
  }

  /** What a walk says about the ids done, spelt out. */
  lemma DescendingWalkFacts(keys: set<int>, remaining: set<int>, order: seq<int>)
    requires DescendingWalk(keys, remaining, order)
    ensures forall u :: u in order ==> u in keys
    ensures forall i, j :: 0 <= i < j < |order| ==> order[i] > order[j]
    ensures order != [] ==> forall u :: u in keys && u !in order ==> u < order[|order| - 1]
    ensures remaining == {} ==> forall u :: u in keys ==> u in order
  {
  }

  /** Taking the largest remaining id keeps the walk descending. */
  lemma DescendingWalkStep(keys: set<int>, remaining: set<int>, order: seq<int>, u: int)
    requires DescendingWalk(keys, remaining, order)
    requires u in remaining && forall v :: v in remaining ==> v <= u
    ensures DescendingWalk(keys, remaining - {u}, order + [u])
  {
    var order' := order + [u];
    forall i, j | 0 <= i < j < |order'| ensures order'[i] > order'[j] {
      if j == |order| {
        assert order[i] >= order[|order| - 1];
      }
    }
  }

  /**
   * Whether DisableSuperAdmin's turn on account u fails, in terms of the
   * state the loop starts from: a policy item of the super admin in u's
   * store fails, or u comes after the default user (its id is lower), the
   * super admin is already deleted, and u has no admin of the package for
   * DeleteAdmin to remove.
   */
  predicate SuperAdminTurnFails(m0: map<int, PolicyStore>, a0: Registry, plugins: PluginManager, bundleName: string,
    failing: set<string>, u: int)
  {
    u in m0 &&
    (!NoItemFails(plugins, failing, GetAllPolicyByAdmin(m0[u], bundleName).Keys) ||
     (u < DEFAULT_USER_ID && GetAdminByPkgName(a0, bundleName, u).None?))
  }

  /**
   * When no policy item the super admin holds in any open store fails,
   * every turn succeeds as long as each account below the default user
   * also holds an admin of the package; in particular when there is no
   * such account.
   */
  lemma SuperAdminTurnsSucceed(m0: map<int, PolicyStore>, a0: Registry, plugins: PluginManager, bundleName: string,
    failing: set<string>)
    requires forall u :: u in m0 ==> NoItemFails(plugins, failing, GetAllPolicyByAdmin(m0[u], bundleName).Keys)
    requires forall u :: u in m0 && u < DEFAULT_USER_ID ==> GetAdminByPkgName(a0, bundleName, u).Some?
    ensures forall u :: !SuperAdminTurnFails(m0, a0, plugins, bundleName, failing, u)
  {
  }

  /**
   * A store of an account below the default user (user 0 gets one from
   * any SET or GET addressed to it) without an admin of the package makes
   * that account's turn fail, whatever the policy items.
   */
  lemma LowerStoreFailsTurn(m0: map<int, PolicyStore>, a0: Registry, plugins: PluginManager, bundleName: string,
    failing: set<string>, u: int)
    requires u in m0 && u < DEFAULT_USER_ID
    requires forall a :: a in AdminsOf(a0, u) ==> a.packageName != bundleName
    ensures SuperAdminTurnFails(m0, a0, plugins, bundleName, failing, u)
  {
  }

  /**
   * The state of DisableSuperAdmin's loop: the walk so far, each account
   * done unwound, the registry as it was while the default user is
   * pending and without any super admin once it is done, the admins of
   * the pending accounts untouched, and no turn so far failed.
   */
  ghost predicate WalkInvariant(m0: map<int, PolicyStore>, a0: Registry, plugins: PluginManager, bundleName: string,
    merge: Merger, failing: set<string>, remaining: set<int>, order: seq<int>, m: map<int, PolicyStore>, reg: Registry)
  {
    DescendingWalk(m0.Keys, remaining, order) &&
    m == UnwindUsers(m0, order, plugins, bundleName, merge) &&
    (if DEFAULT_USER_ID in remaining then reg == a0 else SuperAdminGone(reg, bundleName)) &&
    (DEFAULT_USER_ID !in remaining ==> forall v :: v in remaining ==> v < DEFAULT_USER_ID) &&
    (forall v :: v in remaining ==> AdminsOf(reg, v) == AdminsOf(a0, v)) &&
    (forall v :: v in order ==> !SuperAdminTurnFails(m0, a0, plugins, bundleName, failing, v))
  }

  /** The turn on the largest remaining account succeeds exactly when SuperAdminTurnFails says it does not fail. */
  lemma WalkTurnMeaning(m0: map<int, PolicyStore>, a0: Registry, plugins: PluginManager, bundleName: string,
    merge: Merger, failing: set<string>, remaining: set<int>, order: seq<int>, m: map<int, PolicyStore>, reg: Registry,
    u: int, subscribed: bool, app: AppMgr)
    requires WalkInvariant(m0, a0, plugins, bundleName, merge, failing, remaining, order, m, reg)
    requires SuperAdminInvariant(reg) && IsSuperAdmin(a0, bundleName)
    requires u in remaining && forall v :: v in remaining ==> v <= u
    ensures u in m && m[u] == m0[u]
    ensures (NoItemFails(plugins, failing, GetAllPolicyByAdmin(m[u], bundleName).Keys) &&
             RemoveAdminTail(reg, bundleName, u, subscribed, app).2 == ERR_OK) <==>
            !SuperAdminTurnFails(m0, a0, plugins, bundleName, failing, u)
  {
    assert u in m0 && u !in order && m[u] == m0[u];
    RemoveAdminTailMeaning(reg, bundleName, u, subscribed, app);
    if DEFAULT_USER_ID in remaining {
      assert DEFAULT_USER_ID <= u;
    } else {
      assert GetAdminByPkgName(reg, bundleName, u) == GetAdminByPkgName(a0, bundleName, u);
    }
  }

  /** A successful turn on the largest remaining account keeps the loop state. */
  lemma WalkAdvance(m0: map<int, PolicyStore>, a0: Registry, plugins: PluginManager, bundleName: string,
    merge: Merger, failing: set<string>, remaining: set<int>, order: seq<int>, m: map<int, PolicyStore>, reg: Registry,
    u: int, m': map<int, PolicyStore>, reg': Registry)
    requires WalkInvariant(m0, a0, plugins, bundleName, merge, failing, remaining, order, m, reg)
    requires IsSuperAdmin(a0, bundleName)
    requires u in remaining && forall v :: v in remaining ==> v <= u
    requires !SuperAdminTurnFails(m0, a0, plugins, bundleName, failing, u)
    requires m' == m[u := Unwound(m[u], plugins, bundleName, merge)]
    requires u != DEFAULT_USER_ID && IsSuperAdmin(reg, bundleName) ==> reg' == reg
    requires u == DEFAULT_USER_ID && IsSuperAdmin(reg, bundleName) ==> SuperAdminGone(reg', bundleName)
    requires SuperAdminGone(reg, bundleName) ==> SuperAdminGone(reg', bundleName)
    requires forall v :: v != u ==> AdminsOf(reg', v) == AdminsOf(reg, v)
    ensures WalkInvariant(m0, a0, plugins, bundleName, merge, failing, remaining - {u}, order + [u], m', reg')
  {
    assert u in m0 && u !in order && m[u] == m0[u];
    UnwindUsersStep(m0, order, u, plugins, bundleName, merge);
    DescendingWalkStep(m0.Keys, remaining, order, u);
    SuperAdminPhaseStep(a0, reg, reg', bundleName, DEFAULT_USER_ID in remaining, u);
  }

  /**
   * One turn of DisableSuperAdmin's loop on the largest remaining account:
   * a success keeps the loop state, a failure is what SuperAdminTurnFails
   * says.
   */
  lemma WalkTurn(m0: map<int, PolicyStore>, a0: Registry, plugins: PluginManager, bundleName: string,
    merge: Merger, failing: set<string>, remaining: set<int>, order: seq<int>, m: map<int, PolicyStore>, reg: Registry,
    u: int, subscribed: bool, app: AppMgr, ok: bool, m': map<int, PolicyStore>, reg': Registry)
    requires WalkInvariant(m0, a0, plugins, bundleName, merge, failing, remaining, order, m, reg)
    requires SuperAdminInvariant(reg) && IsSuperAdmin(a0, bundleName)
    requires u in remaining && forall v :: v in remaining ==> v <= u
    requires ok <==>
      NoItemFails(plugins, failing, GetAllPolicyByAdmin(m[u], bundleName).Keys) &&
      RemoveAdminTail(reg, bundleName, u, subscribed, app).2 == ERR_OK
    requires ok ==>
      reg' == RemoveAdminTail(reg, bundleName, u, subscribed, app).0 &&
      m' == m[u := Unwound(m[u], plugins, bundleName, merge)]
    ensures u in m0 && u in m && m[u] == m0[u]
    ensures ok ==> WalkInvariant(m0, a0, plugins, bundleName, merge, failing, remaining - {u}, order + [u], m', reg')
    ensures !ok ==> SuperAdminTurnFails(m0, a0, plugins, bundleName, failing, u)
  {
    WalkTurnMeaning(m0, a0, plugins, bundleName, merge, failing, remaining, order, m, reg, u, subscribed, app);
    if ok {
      SuperAdminRemovalStep(reg, bundleName, u, subscribed, app);
      RemoveAdminTailMeaning(reg, bundleName, u, subscribed, app);
      WalkAdvance(m0, a0, plugins, bundleName, merge, failing, remaining, order, m, reg, u, m', reg');
    }
  }

  /** Once no account remains, every turn succeeded and the super admin is gone. */
  lemma WalkComplete(m0: map<int, PolicyStore>, a0: Registry, plugins: PluginManager, bundleName: string,
    merge: Merger, failing: set<string>, order: seq<int>, m: map<int, PolicyStore>, reg: Registry)
    requires WalkInvariant(m0, a0, plugins, bundleName, merge, failing, {}, order, m, reg)
    ensures forall u :: u in m0 ==> !SuperAdminTurnFails(m0, a0, plugins, bundleName, failing, u)
    ensures SuperAdminGone(reg, bundleName)
  {
  }

  /**
   * WalkInvariant together with the registry and the observer, which are
   * RemoveAdmin's registry step for each account done, in order.
   */
  ghost predicate WalkState(m0: map<int, PolicyStore>, a0: Registry, s0: bool, plugins: PluginManager,
    bundleName: string, merge: Merger, failing: set<string>, app: AppMgr, remaining: set<int>, order: seq<int>,
    m: map<int, PolicyStore>, reg: Registry, subscribed: bool)
  {
    WalkInvariant(m0, a0, plugins, bundleName, merge, failing, remaining, order, m, reg) &&
    SuperAdminTails(a0, s0, bundleName, order, app) == (reg, subscribed)
  }

  /**
   * What DisableSuperAdmin's walk over the open stores m0 leaves, with `ok`
   * its success: `order` holds the accounts done, highest id first and
   * above every account not done, none of them with a failing turn; it
   * succeeds exactly when no account's turn fails, and then every account
   * is done, each store is unwound and no super admin is left; a failure
   * after the default user's turn leaves the super admin deleted, one
   * before it leaves the registry as it was; the registry and the observer
   * are RemoveAdmin's registry step for each account done.
   */
  ghost predicate SuperAdminWalkOutcome(m0: map<int, PolicyStore>, a0: Registry, s0: bool, plugins: PluginManager,
    bundleName: string, merge: Merger, failing: set<string>, app: AppMgr, ok: bool, order: seq<int>,
    m: map<int, PolicyStore>, reg: Registry, subscribed: bool)
  {
    m.Keys == m0.Keys &&
    (forall u :: u in order ==> u in m0) &&
    (forall i, j :: 0 <= i < j < |order| ==> order[i] > order[j]) &&
    (order != [] ==> forall u :: u in m0 && u !in order ==> u < order[|order| - 1]) &&
    (forall u :: u in order ==> !SuperAdminTurnFails(m0, a0, plugins, bundleName, failing, u)) &&
    (ok <==> forall u :: u in m0 ==> !SuperAdminTurnFails(m0, a0, plugins, bundleName, failing, u)) &&
    (ok ==>
      (forall u :: u in m0 ==> u in order) &&
      m == UnwindUsers(m0, order, plugins, bundleName, merge) &&
      SuperAdminGone(reg, bundleName)) &&
    (!ok && DEFAULT_USER_ID in order ==> SuperAdminGone(reg, bundleName)) &&
    (!ok && DEFAULT_USER_ID !in order ==> reg == a0) &&
    SuperAdminTails(a0, s0, bundleName, order, app) == (reg, subscribed)
  }

  /** A walk with no account left ends in success. */
  lemma WalkSucceeds(m0: map<int, PolicyStore>, a0: Registry, s0: bool, plugins: PluginManager, bundleName: string,
    merge: Merger, failing: set<string>, app: AppMgr, order: seq<int>, m: map<int, PolicyStore>, reg: Registry,
    subscribed: bool)
    requires WalkState(m0, a0, s0, plugins, bundleName, merge, failing, app, {}, order, m, reg, subscribed)
    ensures SuperAdminWalkOutcome(m0, a0, s0, plugins, bundleName, merge, failing, app, true, order, m, reg, subscribed)
  {
    WalkComplete(m0, a0, plugins, bundleName, merge, failing, order, m, reg);
    DescendingWalkFacts(m0.Keys, {}, order);
  }

  /**
   * A walk whose turn on the largest account left, u, fails ends in
   * failure, whatever that turn did to u's store.
   */
  lemma WalkStops(m0: map<int, PolicyStore>, a0: Registry, s0: bool, plugins: PluginManager, bundleName: string,
    merge: Merger, failing: set<string>, app: AppMgr, remaining: set<int>, order: seq<int>, m: map<int, PolicyStore>,
    reg: Registry, subscribed: bool, u: int, m': map<int, PolicyStore>)
    requires WalkState(m0, a0, s0, plugins, bundleName, merge, failing, app, remaining, order, m, reg, subscribed)
    requires DEFAULT_USER_ID in m0
    requires u in remaining && forall v :: v in remaining ==> v <= u
    requires SuperAdminTurnFails(m0, a0, plugins, bundleName, failing, u)
    requires m'.Keys == m.Keys
    ensures SuperAdminWalkOutcome(m0, a0, s0, plugins, bundleName, merge, failing, app, false, order, m', reg, subscribed)
    ensures u in m0 && u !in order && (forall v :: v in m0 && v !in order ==> v <= u)
    ensures m == UnwindUsers(m0, order, plugins, bundleName, merge)
  {
    DescendingWalkFacts(m0.Keys, remaining, order);
    assert DEFAULT_USER_ID in remaining <==> DEFAULT_USER_ID !in order;
  }

  /** The largest element of a finite non-empty set of account ids. */
  lemma MaxExists(ids: set<int>)
    requires ids != {}
    ensures exists u :: u in ids && forall v :: v in ids ==> v <= u
  {
    var x := SomeId(ids);
    if ids != {x} {
      var rest := ids - {x};
      MaxExists(rest);
      var m :| m in rest && forall v :: v in rest ==> v <= m;
      var top := if x > m then x else m;
      forall v | v in ids ensures v <= top {
        if v != x {
          assert v in rest;
        }
      }
    } else {
      forall v | v in ids ensures v <= x {
      }
    }
  }

  /** Some element of a non-empty set of account ids. */
  lemma SomeId(ids: set<int>) returns (x: int)
    requires ids != {}
    ensures x in ids
  {
    if forall y :: y !in ids {
      assert false;
    }
    x :| x in ids;
  }

  // ----- Listing the admins -----

  /** What GetEnabledAdmin puts in front of the caller's list for an admin type. */
  function EnabledAdminPrefix(reg: Registry, role: AdminType, currentUser: int): seq<string>
  {
    (if role == Normal then GetEnabledAdmin(reg, Normal, currentUser) else []) +
    (if role == Normal || role == Ent then GetEnabledAdmin(reg, Ent, DEFAULT_USER_ID) else [])
  }

  /**
   * The prefix names exactly the current account's NORMAL admins (for
   * NORMAL) and the default user's ENT admin (for NORMAL and ENT).
   */
  lemma EnabledAdminPrefixMembers(reg: Registry, role: AdminType, currentUser: int)
    ensures forall p :: p in EnabledAdminPrefix(reg, role, currentUser) <==>
      (role == Normal && exists a :: a in AdminsOf(reg, currentUser) && a.adminType == Normal && a.packageName == p) ||
      ((role == Normal || role == Ent) &&
       exists a :: a in AdminsOf(reg, DEFAULT_USER_ID) && a.adminType == Ent && a.packageName == p)
    ensures role != Normal && role != Ent ==> EnabledAdminPrefix(reg, role, currentUser) == []
  {
  }

  /** Under the super-admin invariant the ENT list names at most the one super admin. */
  lemma EnabledAdminPrefixOfEnt(reg: Registry, currentUser: int)
    requires SuperAdminInvariant(reg)
    ensures |EnabledAdminPrefix(reg, Ent, currentUser)| <= 1
    ensures EnabledAdminPrefix(reg, Ent, currentUser) != [] <==> IsSuperAdminExist(reg)
  {
    SuperAdminListedOnce(reg);
  }

  // ----- Enabling an admin -----

  /** What the bundle manager answers for one EnableAdmin. */
  datatype BundleAnswers = BundleAnswers(
    reachable: bool,                      // GetBundleMgr returns a proxy
    extensionFound: bool,                 // QueryExtensionAbilityInfos finds an ENTERPRISE_ADMIN extension
    reqPermissions: Option<seq<string>>)  // GetBundleInfo's requested permissions; None when it fails

  /** AdminManager's permission tables. */
  datatype PermissionTables = PermissionTables(
    getReqPermission: seq<string> -> Option<seq<string>>,             // the EDM permissions named; None on failure
    getGrantedPermission: (seq<string>, AdminType) -> Option<seq<string>>)  // filtered by admin type; None on failure

  /**
   * GetAllPermissionsByAdmin: the EDM permissions among the bundle's
   * requested ones. Only a failing GetBundleInfo is an error; a failing
   * GetReqPermission leaves the list empty.
   */
  function GetAllPermissionsByAdmin(reqPermissions: Option<seq<string>>, tables: PermissionTables): (r: (int, seq<string>))
    ensures r.0 == ERR_OK || r.0 == ERR_EDM_PARAM_ERROR
    ensures r.0 == ERR_OK <==> reqPermissions.Some?
    ensures r.0 != ERR_OK ==> r.1 == []
    ensures reqPermissions == Some([]) ==> r == (ERR_OK, [])
    ensures reqPermissions.Some? && reqPermissions.value != [] && tables.getReqPermission(reqPermissions.value).Some? ==>
      r == (ERR_OK, tables.getReqPermission(reqPermissions.value).value)
    ensures reqPermissions.Some? && tables.getReqPermission(reqPermissions.value).None? ==> r == (ERR_OK, [])
  {
    match reqPermissions
    case None => (ERR_EDM_PARAM_ERROR, [])
    case Some(req) =>
      if req == [] then (ERR_OK, [])
      else
        match tables.getReqPermission(req)
        case None => (ERR_OK, [])
        case Some(names) => (ERR_OK, names)
  }

  class EnterpriseDeviceMgrAbility {
    /** The plugins loaded at start; the plugin manager is not changed afterwards. */
    const plugins: PluginManager
    /** The policy file of each account as PolicyManager::Init would load it. */
    const persisted: map<int, PolicyStore>

    /** AdminManager's registry. */
    var admins: Registry
    /** policyMgrMap_: the policy store of each account opened so far. */
    var policyMgrMap: map<int, PolicyStore>
    /** policyMgr_: the account whose store the next policy call works on. */
    var policyMgrUser: int
    /** IPolicyManager::policyManagerInstance_: the account whose store the plugins see. */
    var instanceUser: int
    /** appStateObserver_ is registered with the application manager. */
    var appStateSubscribed: bool
    /** The persisted parameter persist.edm.edm_enable. */
    var edmEnabled: bool

    ghost predicate Valid()
      reads this
    {
      DEFAULT_USER_ID in policyMgrMap && policyMgrUser in policyMgrMap && instanceUser in policyMgrMap &&
      SuperAdminInvariant(admins)
    }

    /** The store a new PolicyManager(userId) holds after Init. */
    function InitStore(userId: int): PolicyStore
    {
      if userId in persisted then persisted[userId] else EmptyStore
    }

    /** policyMgrMap_ after GetAndSwitchPolicyManagerByUserId(userId). */
    function Switched(m: map<int, PolicyStore>, userId: int): (r: map<int, PolicyStore>)
      ensures userId in r && r.Keys == m.Keys + {userId}
      ensures forall u :: u in m ==> r[u] == m[u]
      ensures userId !in m ==> r[userId] == InitStore(userId)
      ensures userId in m ==> r == m
    {
      if userId in m then m else m[userId := InitStore(userId)]
    }

    /**
     * Service start: the admins as loaded from the table, no observer yet,
     * then InitAllPolices over the files of the base directory.
     */
    constructor (plugins: PluginManager, persisted: map<int, PolicyStore>, admins: Registry, edmEnabled: bool,
      paths: seq<string>)
      requires SuperAdminInvariant(admins)
      ensures Valid()
      ensures this.plugins == plugins && this.persisted == persisted
      ensures this.admins == admins && this.edmEnabled == edmEnabled && !appStateSubscribed
      ensures policyMgrUser == DEFAULT_USER_ID && instanceUser == DEFAULT_USER_ID
      ensures policyMgrMap.Keys == PolicyUsers(paths) + {DEFAULT_USER_ID}
      ensures forall u :: u in policyMgrMap ==> policyMgrMap[u] == InitStore(u)
    {
      this.plugins := plugins;
      this.persisted := persisted;
      this.admins := admins;
      this.edmEnabled := edmEnabled;
      appStateSubscribed := false;
      policyMgrMap := map[];
      policyMgrUser := DEFAULT_USER_ID;
      instanceUser := DEFAULT_USER_ID;
      new;
      InitAllPolices(paths);
    }

    /**
     * GetAndSwitchPolicyManagerByUserId: opens the account's store when it
     * is not open yet, points the plugins at it and returns it.
     */
    method GetAndSwitchPolicyManagerByUserId(userId: int) returns (selected: int)
      modifies this
      ensures policyMgrMap == Switched(old(policyMgrMap), userId)
      ensures selected == userId && instanceUser == userId
      ensures policyMgrUser == old(policyMgrUser) && admins == old(admins)
      ensures appStateSubscribed == old(appStateSubscribed) && edmEnabled == old(edmEnabled)
    {
      if userId !in policyMgrMap {
        policyMgrMap := policyMgrMap[userId := InitStore(userId)];
      }
      instanceUser := userId;
      selected := userId;
    }

    /**
     * InitAllPolices: opens the store of every account with a policy file
     * device_policies_<user>.json, user at least DEFAULT_USER_ID, then
     * points both pointers at the default user's store.
     */
    method InitAllPolices(paths: seq<string>)
      modifies this
      ensures policyMgrMap.Keys == old(policyMgrMap).Keys + PolicyUsers(paths) + {DEFAULT_USER_ID}
      ensures forall u :: u in policyMgrMap ==>
        policyMgrMap[u] == (if u in old(policyMgrMap) then old(policyMgrMap)[u] else InitStore(u))
      ensures policyMgrUser == DEFAULT_USER_ID && instanceUser == DEFAULT_USER_ID
      ensures admins == old(admins) && appStateSubscribed == old(appStateSubscribed) && edmEnabled == old(edmEnabled)
    {
      for i := 0 to |paths|
        invariant policyMgrMap.Keys == old(policyMgrMap).Keys + PolicyUsers(paths[..i])
        invariant forall u :: u in policyMgrMap ==>
          policyMgrMap[u] == (if u in old(policyMgrMap) then old(policyMgrMap)[u] else InitStore(u))
        invariant admins == old(admins) && appStateSubscribed == old(appStateSubscribed) && edmEnabled == old(edmEnabled)
      {
        assert paths[..i + 1][..i] == paths[..i];
        match PolicyFileUser(paths[i]) {
          case None =>
          case Some(u) =>
            var ignored := GetAndSwitchPolicyManagerByUserId(u);
        }
      }
      assert paths[..|paths|] == paths;
      policyMgrUser := GetAndSwitchPolicyManagerByUserId(DEFAULT_USER_ID);
    }

    // ----- The application-state observer -----

    /** SubscribeAppState: registers the observer unless it is registered already. */
    method SubscribeAppState(app: AppMgr) returns (ok: bool)
      modifies this
      ensures ObserverOutcome(appStateSubscribed, ok) == SubscribeAppStateOutcome(old(appStateSubscribed), app)
      ensures admins == old(admins) && policyMgrMap == old(policyMgrMap) && edmEnabled == old(edmEnabled)
      ensures policyMgrUser == old(policyMgrUser) && instanceUser == old(instanceUser)
    {
      if appStateSubscribed {
        return true;
      }
      if !app.reachable {
        return false;
      }
      appStateSubscribed := true;
      if !app.registerOk {
        appStateSubscribed := false;
        return false;
      }
      return true;
    }

    /** UnsubscribeAppState: removes the observer once no admin listens to application start or stop. */
    method UnsubscribeAppState(app: AppMgr) returns (ok: bool)
      modifies this
      ensures ObserverOutcome(appStateSubscribed, ok) == UnsubscribeAppStateOutcome(old(appStateSubscribed), admins, app)
      ensures admins == old(admins) && policyMgrMap == old(policyMgrMap) && edmEnabled == old(edmEnabled)
      ensures policyMgrUser == old(policyMgrUser) && instanceUser == old(instanceUser)
    {
      if !appStateSubscribed {
        return true;
      }
      if HasAppStateSubscriber(admins) {
        return true;
      }
      if !app.reachable || !app.unregisterOk {
        return false;
      }
      appStateSubscribed := false;
      return true;
    }

    /** OnAppManagerServiceStart: re-registers the observer when some admin listens to application start or stop. */
    method OnAppManagerServiceStart(app: AppMgr)
      modifies this
      ensures appStateSubscribed ==
        (if HasAppStateSubscriber(admins) then SubscribeAppStateOutcome(old(appStateSubscribed), app).subscribed
         else old(appStateSubscribed))
      ensures admins == old(admins) && policyMgrMap == old(policyMgrMap) && edmEnabled == old(edmEnabled)
      ensures policyMgrUser == old(policyMgrUser) && instanceUser == old(instanceUser)
    {
      if HasAppStateSubscriber(admins) {
        var ignored := SubscribeAppState(app);
      }
    }

    /** HandleApplicationEvent: (un)subscribes the observer when the events name application start or stop. */
    method HandleApplicationEvent(events: seq<uint32>, subscribe: bool, app: AppMgr) returns (r: int)
      modifies this
      ensures (appStateSubscribed, r) ==
        HandleApplicationEventOutcome(events, subscribe, old(appStateSubscribed), admins, app)
      ensures admins == old(admins) && policyMgrMap == old(policyMgrMap) && edmEnabled == old(edmEnabled)
      ensures policyMgrUser == old(policyMgrUser) && instanceUser == old(instanceUser)
    {
      var shouldHandleAppState := exists i :: 0 <= i < |events| && IsAppStateEvent(events[i]);
      if !shouldHandleAppState {
        return ERR_OK;
      }
      var ok;
      if subscribe {
        ok := SubscribeAppState(app);
      } else {
        ok := UnsubscribeAppState(app);
      }
      r := if ok then ERR_OK else SYSTEM_ABNORMALLY;
    }

    // ----- Removing an admin -----

    /**
     * RemoveAdminItem: withdraws one policy of the admin from the current
     * store. `failing` names the policies whose SetPolicy fails.
     */
    method RemoveAdminItem(adminName: string, policyName: string, policyValue: string, userId: int, merge: Merger,
      failing: set<string>) returns (r: int)
      requires policyMgrUser in policyMgrMap
      modifies this
      ensures policyMgrMap == old(policyMgrMap)[policyMgrUser := RemoveAdminItemOutcome(old(policyMgrMap[policyMgrUser]),
        plugins, adminName, policyName, merge, failing).0]
      ensures r == RemoveAdminItemOutcome(old(policyMgrMap[policyMgrUser]), plugins, adminName, policyName, merge, failing).1
      ensures admins == old(admins) && appStateSubscribed == old(appStateSubscribed) && edmEnabled == old(edmEnabled)
      ensures policyMgrUser == old(policyMgrUser) && instanceUser == old(instanceUser)
    {
      if policyName !in plugins.byName {
        return ERR_EDM_GET_PLUGIN_MGR_FAILED;
      }
      var plugin := plugins.byName[policyName];
      if plugin.needSavePolicy {
        var mergedPolicyData := MergedOrEmpty(merge(policyName, adminName, ""));
        var store := policyMgrMap[policyMgrUser];
        var adminListMap := GetAdminByPolicyName(store, policyName);
        var setOk := policyName !in failing;
        var next;
        if adminListMap.None? || adminListMap.value == map[] {
          next := SetPolicy(store, "", policyName, "", "");
        } else {
          next := SetPolicy(store, adminName, policyName, "", mergedPolicyData);
        }
        if !setOk {
          return ERR_EDM_DEL_ADMIN_FAILED;
        }
        policyMgrMap := policyMgrMap[policyMgrUser := next];
      }
      return ERR_OK;
    }

    /**
     * The loop of RemoveAdmin: RemoveAdminItem for every policy the admin
     * holds in the current store, in any order, up to the first failure.
     * `done` is the set of items removed.
     */
    method RemovePolicyItems(adminName: string, userId: int, merge: Merger, failing: set<string>)
      returns (ok: bool, ghost done: set<string>)
      requires policyMgrUser in policyMgrMap
      modifies this
      ensures var s0 := old(policyMgrMap[policyMgrUser]);
        policyMgrMap == old(policyMgrMap)[policyMgrUser := UnwindStore(s0, plugins, adminName, done, merge)]
      ensures var items := GetAllPolicyByAdmin(old(policyMgrMap[policyMgrUser]), adminName).Keys;
        (ok <==> NoItemFails(plugins, failing, items)) &&
        (ok ==> done == items) && (!ok ==> done < items)
      ensures admins == old(admins) && appStateSubscribed == old(appStateSubscribed) && edmEnabled == old(edmEnabled)
      ensures policyMgrUser == old(policyMgrUser) && instanceUser == old(instanceUser)
    {
      var policyItems := GetAllPolicyByAdmin(policyMgrMap[policyMgrUser], adminName);
      ghost var s0 := policyMgrMap[policyMgrUser];
      var todo := policyItems.Keys;
      done := {};
      UnwindNothing(s0, plugins, adminName, merge);
      while todo != {}
        invariant todo !! done && todo + done == policyItems.Keys
        invariant NoItemFails(plugins, failing, done)
        invariant policyMgrMap == old(policyMgrMap)[policyMgrUser := UnwindStore(s0, plugins, adminName, done, merge)]
        invariant admins == old(admins) && appStateSubscribed == old(appStateSubscribed) && edmEnabled == old(edmEnabled)
        invariant policyMgrUser == old(policyMgrUser) && instanceUser == old(instanceUser)
        decreases todo
      {
        var n :| n in todo;
        ghost var current := UnwindStore(s0, plugins, adminName, done, merge);
        var res := RemoveAdminItem(adminName, n, policyItems[n], userId, merge, failing);
        if res != ERR_OK {
          assert ItemFails(plugins, failing, n);
          return false, done;
        }
        UnwindStep(s0, plugins, adminName, done, merge, failing, n);
        ghost var next := UnwindStore(s0, plugins, adminName, done + {n}, merge);
        assert RemoveAdminItemOutcome(current, plugins, adminName, n, merge, failing).0 == next;
        assert old(policyMgrMap)[policyMgrUser := current][policyMgrUser := next] == old(policyMgrMap)[policyMgrUser := next];
        todo := todo - {n};
        done := done + {n};
      }
      ok := true;
    }

    /**
     * RemoveAdmin: withdraws every policy the admin holds in the current
     * store, stopping at the first failure, then deletes the admin of the
     * account (a super admin is kept when removed from another account).
     */
    method RemoveAdmin(adminName: string, userId: int, merge: Merger, failing: set<string>, app: AppMgr)
      returns (r: int, ghost done: set<string>)
      requires Valid()
      modifies this
      ensures Valid()
      ensures policyMgrUser == old(policyMgrUser) && instanceUser == old(instanceUser) && edmEnabled == old(edmEnabled)
      ensures forall v :: v != userId ==> AdminsOf(admins, v) == AdminsOf(old(admins), v)
      ensures r == ERR_OK || r == ERR_EDM_DEL_ADMIN_FAILED
      ensures var s0 := old(policyMgrMap)[policyMgrUser];
        done <= GetAllPolicyByAdmin(s0, adminName).Keys &&
        policyMgrMap == old(policyMgrMap)[policyMgrUser := UnwindStore(s0, plugins, adminName, done, merge)]
      ensures var items := GetAllPolicyByAdmin(old(policyMgrMap)[policyMgrUser], adminName).Keys;
        !NoItemFails(plugins, failing, items) ==>
          r == ERR_EDM_DEL_ADMIN_FAILED && admins == old(admins) && appStateSubscribed == old(appStateSubscribed) &&
          done < items
      ensures var items := GetAllPolicyByAdmin(old(policyMgrMap)[policyMgrUser], adminName).Keys;
        NoItemFails(plugins, failing, items) ==>
          done == items &&
          (admins, appStateSubscribed, r) == RemoveAdminTail(old(admins), adminName, userId, old(appStateSubscribed), app)
      ensures r == ERR_OK ==>
        done == GetAllPolicyByAdmin(old(policyMgrMap)[policyMgrUser], adminName).Keys &&
        admins == RemoveAdminTail(old(admins), adminName, userId, old(appStateSubscribed), app).0
    {
      var ok;
      ok, done := RemovePolicyItems(adminName, userId, merge, failing);
      if !ok {
        return ERR_EDM_DEL_ADMIN_FAILED, done;
      }
      ghost var tail := RemoveAdminTail(admins, adminName, userId, appStateSubscribed, app);
      assert SuperAdminInvariant(tail.0) && (forall v :: v != userId ==> AdminsOf(tail.0, v) == AdminsOf(admins, v)) by {
        RemoveAdminTailMeaning(admins, adminName, userId, appStateSubscribed, app);
      }
      if AdminManagerModel.IsSuperAdmin(admins, adminName) && userId != DEFAULT_USER_ID {
        return ERR_OK, done;
      }
      var shouldUnsubscribeAppState := ShouldUnsubscribeAppState(admins, adminName, userId);
      var deleted := DeleteAdmin(admins, adminName, userId);
      if deleted.None? {
        return ERR_EDM_DEL_ADMIN_FAILED, done;
      }
      admins := deleted.value;
      if shouldUnsubscribeAppState {
        var ignored := UnsubscribeAppState(app);
      }
      return ERR_OK, done;
    }

    /**
     * DisableAdmin: removes a NORMAL admin of the account. `done` is the
     * policy items withdrawn from the current store; a failure keeps the
     * registry and the observer, and the items withdrawn before it.
     */
    method DisableAdmin(c: Caller, admin: AbilityInfo, userId: int, merge: Merger, failing: set<string>, app: AppMgr)
      returns (r: int, ghost done: set<string>)
      requires Valid()
      modifies this
      ensures Valid()
      ensures r == ERR_OK || r == PERMISSION_DENIED || r == DISABLE_ADMIN_FAILED
      ensures !c.isShell && !VerifyCallingPermission(c, PERMISSION_MANAGE_ENTERPRISE_DEVICE_ADMIN) ==>
        r == PERMISSION_DENIED && unchanged(this)
      ensures ((c.isShell || VerifyCallingPermission(c, PERMISSION_MANAGE_ENTERPRISE_DEVICE_ADMIN)) &&
               (GetAdminByPkgName(old(admins), admin.bundleName, userId).None? ||
                GetAdminByPkgName(old(admins), admin.bundleName, userId).value.adminType != Normal)) ==>
        r == DISABLE_ADMIN_FAILED && unchanged(this)
      ensures policyMgrUser == old(policyMgrUser) && instanceUser == old(instanceUser)
      ensures policyMgrMap.Keys == old(policyMgrMap).Keys
      ensures forall u :: u in old(policyMgrMap) && u != policyMgrUser ==> policyMgrMap[u] == old(policyMgrMap)[u]
      ensures forall v :: v != userId ==> AdminsOf(admins, v) == AdminsOf(old(admins), v)
      ensures var items := GetAllPolicyByAdmin(old(policyMgrMap)[policyMgrUser], admin.bundleName).Keys;
        (c.isShell || VerifyCallingPermission(c, PERMISSION_MANAGE_ENTERPRISE_DEVICE_ADMIN)) &&
        GetAdminByPkgName(old(admins), admin.bundleName, userId).Some? &&
        GetAdminByPkgName(old(admins), admin.bundleName, userId).value.adminType == Normal ==>
          (r == ERR_OK <==> NoItemFails(plugins, failing, items))
      ensures var s0 := old(policyMgrMap)[policyMgrUser];
        var items := GetAllPolicyByAdmin(s0, admin.bundleName).Keys;
        r == ERR_OK ==>
          policyMgrMap[policyMgrUser] == UnwindStore(s0, plugins, admin.bundleName, items, merge) &&
          admins == RemoveAdminTail(old(admins), admin.bundleName, userId, old(appStateSubscribed), app).0 &&
          appStateSubscribed == RemoveAdminTail(old(admins), admin.bundleName, userId, old(appStateSubscribed), app).1 &&
          edmEnabled == (old(edmEnabled) && IsAdminExist(admins))
      ensures r == ERR_OK && !(AdminManagerModel.IsSuperAdmin(old(admins), admin.bundleName) && userId != DEFAULT_USER_ID) ==>
        GetAdminByPkgName(admins, admin.bundleName, userId).None?
      ensures r != ERR_OK ==> edmEnabled == old(edmEnabled)
      ensures var s0 := old(policyMgrMap)[policyMgrUser];
        done <= GetAllPolicyByAdmin(s0, admin.bundleName).Keys &&
        policyMgrMap == old(policyMgrMap)[policyMgrUser := UnwindStore(s0, plugins, admin.bundleName, done, merge)]
      ensures r != ERR_OK ==> admins == old(admins) && appStateSubscribed == old(appStateSubscribed)
      ensures r == DISABLE_ADMIN_FAILED && GetAdminByPkgName(old(admins), admin.bundleName, userId).Some? &&
              GetAdminByPkgName(old(admins), admin.bundleName, userId).value.adminType == Normal ==>
        done < GetAllPolicyByAdmin(old(policyMgrMap)[policyMgrUser], admin.bundleName).Keys
    {
      done := {};
      UnwindNothing(policyMgrMap[policyMgrUser], plugins, admin.bundleName, merge);
      assert policyMgrMap[policyMgrUser := policyMgrMap[policyMgrUser]] == policyMgrMap;
      if !c.isShell && !VerifyCallingPermission(c, PERMISSION_MANAGE_ENTERPRISE_DEVICE_ADMIN) {
        return PERMISSION_DENIED, done;
      }
      var adminPtr := GetAdminByPkgName(admins, admin.bundleName, userId);
      if adminPtr.None? {
        return DISABLE_ADMIN_FAILED, done;
      }
      if adminPtr.value.adminType != Normal {
        return DISABLE_ADMIN_FAILED, done;
      }
      r, done := DisableNormalAdmin(admin.bundleName, userId, merge, failing, app);
    }

    /** The part of DisableAdmin after the checks: the admin is a NORMAL one of the account. */
    method DisableNormalAdmin(adminName: string, userId: int, merge: Merger, failing: set<string>, app: AppMgr)
      returns (r: int, ghost done: set<string>)
      requires Valid()
      requires GetAdminByPkgName(admins, adminName, userId).Some? &&
        GetAdminByPkgName(admins, adminName, userId).value.adminType == Normal
      modifies this
      ensures Valid()
      ensures r == ERR_OK || r == DISABLE_ADMIN_FAILED
      ensures policyMgrUser == old(policyMgrUser) && instanceUser == old(instanceUser)
      ensures forall v :: v != userId ==> AdminsOf(admins, v) == AdminsOf(old(admins), v)
      ensures var items := GetAllPolicyByAdmin(old(policyMgrMap)[policyMgrUser], adminName).Keys;
        r == ERR_OK <==> NoItemFails(plugins, failing, items)
      ensures var s0 := old(policyMgrMap)[policyMgrUser];
        var items := GetAllPolicyByAdmin(s0, adminName).Keys;
        r == ERR_OK ==>
          policyMgrMap[policyMgrUser] == UnwindStore(s0, plugins, adminName, items, merge) &&
          admins == RemoveAdminTail(old(admins), adminName, userId, old(appStateSubscribed), app).0 &&
          appStateSubscribed == RemoveAdminTail(old(admins), adminName, userId, old(appStateSubscribed), app).1 &&
          edmEnabled == (old(edmEnabled) && IsAdminExist(admins))
      ensures r == ERR_OK && !(AdminManagerModel.IsSuperAdmin(old(admins), adminName) && userId != DEFAULT_USER_ID) ==>
        GetAdminByPkgName(admins, adminName, userId).None?
      ensures r != ERR_OK ==> edmEnabled == old(edmEnabled)
      ensures var s0 := old(policyMgrMap)[policyMgrUser];
        done <= GetAllPolicyByAdmin(s0, adminName).Keys &&
        policyMgrMap == old(policyMgrMap)[policyMgrUser := UnwindStore(s0, plugins, adminName, done, merge)]
      ensures r != ERR_OK ==>
        admins == old(admins) && appStateSubscribed == old(appStateSubscribed) &&
        done < GetAllPolicyByAdmin(old(policyMgrMap)[policyMgrUser], adminName).Keys
    {
      ghost var tail := RemoveAdminTail(admins, adminName, userId, appStateSubscribed, app);
      assert tail.2 == ERR_OK &&
        (!(AdminManagerModel.IsSuperAdmin(admins, adminName) && userId != DEFAULT_USER_ID) ==>
          GetAdminByPkgName(tail.0, adminName, userId).None?) by {
        RemoveAdminTailMeaning(admins, adminName, userId, appStateSubscribed, app);
      }
      var res;
      res, done := RemoveAdmin(adminName, userId, merge, failing, app);
      if Failed(res) {
        return DISABLE_ADMIN_FAILED, done;
      }
      if !IsAdminExist(admins) {
        edmEnabled := false;
      }
      return ERR_OK, done;
    }

    /**
     * One turn of DisableSuperAdmin's loop: switch to the account, remove
     * the super admin there, switch back to the default user.
     */
    method RemoveSuperAdminOfUser(bundleName: string, u: int, merge: Merger, failing: set<string>, app: AppMgr)
      returns (ok: bool, ghost partial: set<string>)
      requires Valid() && u in policyMgrMap
      modifies this
      ensures Valid()
      ensures policyMgrUser == DEFAULT_USER_ID && instanceUser == DEFAULT_USER_ID
      ensures policyMgrMap.Keys == old(policyMgrMap).Keys && edmEnabled == old(edmEnabled)
      ensures ok ==> policyMgrMap == old(policyMgrMap)[u := Unwound(old(policyMgrMap)[u], plugins, bundleName, merge)]
      ensures !ok ==>
        policyMgrMap == old(policyMgrMap)[u := UnwindStore(old(policyMgrMap)[u], plugins, bundleName, partial, merge)]
      ensures ok <==>
        NoItemFails(plugins, failing, GetAllPolicyByAdmin(old(policyMgrMap)[u], bundleName).Keys) &&
        RemoveAdminTail(old(admins), bundleName, u, old(appStateSubscribed), app).2 == ERR_OK
      ensures admins == if ok then RemoveAdminTail(old(admins), bundleName, u, old(appStateSubscribed), app).0 else old(admins)
      ensures appStateSubscribed ==
        if ok then RemoveAdminTail(old(admins), bundleName, u, old(appStateSubscribed), app).1 else old(appStateSubscribed)
    {
      policyMgrUser := GetAndSwitchPolicyManagerByUserId(u);
      assert policyMgrMap == old(policyMgrMap);
      var res;
      res, partial := RemoveAdmin(bundleName, u, merge, failing, app);
      ok := !Failed(res);
      ghost var m1 := policyMgrMap;
      policyMgrUser := GetAndSwitchPolicyManagerByUserId(DEFAULT_USER_ID);
      assert policyMgrMap == m1;
    }

    /**
     * DisableSuperAdmin's loop: RemoveAdmin of the super admin in every
     * open store, from the highest account id down, stopping at the first
     * failure; `order` is the accounts done, in visiting order. It succeeds
     * exactly when no account's turn fails.
     */
    method RemoveSuperAdminFromAllUsers(bundleName: string, merge: Merger, failing: set<string>, app: AppMgr)
      returns (ok: bool, ghost order: seq<int>, ghost stoppedAt: int, ghost partial: set<string>)
      requires Valid() && AdminManagerModel.IsSuperAdmin(admins, bundleName)
      modifies this
      ensures Valid() && edmEnabled == old(edmEnabled)
      ensures policyMgrUser == DEFAULT_USER_ID && instanceUser == DEFAULT_USER_ID
      ensures SuperAdminWalkOutcome(old(policyMgrMap), old(admins), old(appStateSubscribed), plugins, bundleName, merge,
        failing, app, ok, order, policyMgrMap, admins, appStateSubscribed)
      ensures !ok ==>
        stoppedAt in old(policyMgrMap) && stoppedAt !in order &&
        (forall u :: u in old(policyMgrMap) && u !in order ==> u <= stoppedAt) &&
        SuperAdminTurnFails(old(policyMgrMap), old(admins), plugins, bundleName, failing, stoppedAt) &&
        policyMgrMap ==
          UnwindUsers(old(policyMgrMap), order, plugins, bundleName, merge)[stoppedAt :=
            UnwindStore(old(policyMgrMap)[stoppedAt], plugins, bundleName, partial, merge)]
    {
      order, stoppedAt, partial := [], DEFAULT_USER_ID, {};
      ghost var m0 := policyMgrMap;
      ghost var a0, s0 := admins, appStateSubscribed;
      var remaining := policyMgrMap.Keys;
      while remaining != {}
        invariant Valid() && edmEnabled == old(edmEnabled)
        invariant WalkState(m0, a0, s0, plugins, bundleName, merge, failing, app, remaining, order, policyMgrMap, admins,
          appStateSubscribed)
        invariant order != [] ==> policyMgrUser == DEFAULT_USER_ID && instanceUser == DEFAULT_USER_ID
        decreases remaining
      {
        MaxExists(remaining);
        var u :| u in remaining && forall v :: v in remaining ==> v <= u;
        ok, partial := RemoveSuperAdminTurn(bundleName, u, merge, failing, app, m0, a0, s0, remaining, order);
        if !ok {
          stoppedAt := u;
          return;
        }
        remaining := remaining - {u};
        order := order + [u];
      }
      WalkSucceeds(m0, a0, s0, plugins, bundleName, merge, failing, app, order, policyMgrMap, admins, appStateSubscribed);
      ok := true;
    }

    /**
     * RemoveSuperAdminOfUser on the largest account left in
     * DisableSuperAdmin's walk: a success keeps the walk's state; a failure
     * is what SuperAdminTurnFails says, keeps the registry and the
     * observer, and ends the walk.
     */
    method RemoveSuperAdminTurn(bundleName: string, u: int, merge: Merger, failing: set<string>, app: AppMgr,
      ghost m0: map<int, PolicyStore>, ghost a0: Registry, ghost s0: bool, ghost remaining: set<int>,
      ghost order: seq<int>) returns (ok: bool, ghost partial: set<string>)
      requires Valid() && AdminManagerModel.IsSuperAdmin(a0, bundleName) && DEFAULT_USER_ID in m0
      requires WalkState(m0, a0, s0, plugins, bundleName, merge, failing, app, remaining, order, policyMgrMap, admins,
        appStateSubscribed)
      requires u in remaining && forall v :: v in remaining ==> v <= u
      modifies this
      ensures Valid() && edmEnabled == old(edmEnabled)
      ensures policyMgrUser == DEFAULT_USER_ID && instanceUser == DEFAULT_USER_ID
      ensures u in m0 && u in old(policyMgrMap) && old(policyMgrMap)[u] == m0[u]
      ensures ok ==> WalkState(m0, a0, s0, plugins, bundleName, merge, failing, app, remaining - {u}, order + [u],
        policyMgrMap, admins, appStateSubscribed)
      ensures !ok ==>
        SuperAdminTurnFails(m0, a0, plugins, bundleName, failing, u) &&
        policyMgrMap == old(policyMgrMap)[u := UnwindStore(m0[u], plugins, bundleName, partial, merge)] &&
        admins == old(admins) && appStateSubscribed == old(appStateSubscribed)
      ensures !ok ==>
        SuperAdminWalkOutcome(m0, a0, s0, plugins, bundleName, merge, failing, app, false, order, policyMgrMap, admins,
          appStateSubscribed) &&
        u !in order && (forall v :: v in m0 && v !in order ==> v <= u) &&
        old(policyMgrMap) == UnwindUsers(m0, order, plugins, bundleName, merge)
    {
      ghost var m, before, subscribed := policyMgrMap, admins, appStateSubscribed;
      ok, partial := RemoveSuperAdminOfUser(bundleName, u, merge, failing, app);
      WalkTurn(m0, a0, plugins, bundleName, merge, failing, remaining, order, m, before, u, subscribed, app, ok,
        policyMgrMap, admins);
      if ok {
        SuperAdminTailsStep(a0, s0, bundleName, order, u, app, before, subscribed);
      } else {
        WalkStops(m0, a0, s0, plugins, bundleName, merge, failing, app, remaining, order, m, before, subscribed, u,
          policyMgrMap);
      }
    }

    /**
     * DisableSuperAdmin: only the default user's ENT admin can be disabled;
     * its policies go from every open store, highest account id first, and
     * the EDM-enabled parameter is cleared once no admin is left. It
     * succeeds exactly when no account's turn fails; a failure after the
     * default user's turn leaves the super admin deleted.
     */
    method DisableSuperAdmin(c: Caller, bundleName: string, merge: Merger, failing: set<string>, app: AppMgr)
      returns (r: int, ghost order: seq<int>)
      requires Valid()
      modifies this
      ensures Valid()
      ensures r == ERR_OK || r == PERMISSION_DENIED || r == DISABLE_ADMIN_FAILED
      ensures !VerifyCallingPermission(c, PERMISSION_MANAGE_ENTERPRISE_DEVICE_ADMIN) ==>
        r == PERMISSION_DENIED && order == [] && unchanged(this)
      ensures (VerifyCallingPermission(c, PERMISSION_MANAGE_ENTERPRISE_DEVICE_ADMIN) &&
               !AdminManagerModel.IsSuperAdmin(old(admins), bundleName)) ==>
        r == DISABLE_ADMIN_FAILED && order == [] && unchanged(this)
      ensures (VerifyCallingPermission(c, PERMISSION_MANAGE_ENTERPRISE_DEVICE_ADMIN) &&
               AdminManagerModel.IsSuperAdmin(old(admins), bundleName)) ==>
        policyMgrUser == DEFAULT_USER_ID && instanceUser == DEFAULT_USER_ID &&
        SuperAdminWalkOutcome(old(policyMgrMap), old(admins), old(appStateSubscribed), plugins, bundleName, merge,
          failing, app, r == ERR_OK, order, policyMgrMap, admins, appStateSubscribed)
      ensures r == ERR_OK ==> edmEnabled == (old(edmEnabled) && IsAdminExist(admins))
      ensures r != ERR_OK ==> edmEnabled == old(edmEnabled)
    {
      order := [];
      if !VerifyCallingPermission(c, PERMISSION_MANAGE_ENTERPRISE_DEVICE_ADMIN) {
        return PERMISSION_DENIED, order;
      }
      var admin := GetAdminByPkgName(admins, bundleName, DEFAULT_USER_ID);
      if admin.None? {
        return DISABLE_ADMIN_FAILED, order;
      }
      if admin.value.adminType != Ent {
        return DISABLE_ADMIN_FAILED, order;
      }
      var ok;
      ghost var stoppedAt, partial;
      ok, order, stoppedAt, partial := RemoveSuperAdminFromAllUsers(bundleName, merge, failing, app);
      if !ok {
        return DISABLE_ADMIN_FAILED, order;
      }
      if !IsAdminExist(admins) {
        edmEnabled := false;
      }
      return ERR_OK, order;
    }

    /**
     * OnCommonEventUserRemoved: removes every admin of the removed account,
     * and the super admin's policies of that account, then switches back
     * to the default user. `removed` is the packages whose policy items
     * all went, in order: the registry and the observer are RemoveAdmin's
     * registry step for each of them. When no policy item of the account's
     * store fails, no admin of the account is left, except the super
     * admin's package in another account.
     */
    method OnCommonEventUserRemoved(userIdToRemove: int, merge: Merger, failing: set<string>, app: AppMgr)
      returns (ghost removed: seq<string>)
      requires Valid()
      modifies this
      ensures Valid()
      ensures userIdToRemove == 0 ==> unchanged(this) && removed == []
      ensures userIdToRemove != 0 ==>
        policyMgrUser == DEFAULT_USER_ID && instanceUser == DEFAULT_USER_ID &&
        policyMgrMap.Keys == old(policyMgrMap).Keys + {userIdToRemove} &&
        (forall u :: u in old(policyMgrMap) && u != userIdToRemove ==> policyMgrMap[u] == old(policyMgrMap)[u]) &&
        (forall v :: v != userIdToRemove ==> AdminsOf(admins, v) == AdminsOf(old(admins), v))
      ensures userIdToRemove != DEFAULT_USER_ID ==> (IsSuperAdminExist(admins) <==> IsSuperAdminExist(old(admins)))
      ensures edmEnabled == old(edmEnabled)
      ensures (admins, appStateSubscribed) ==
        AccountTails(old(admins), old(appStateSubscribed), removed, userIdToRemove, app)
      ensures userIdToRemove != DEFAULT_USER_ID ==>
        forall p :: AdminManagerModel.IsSuperAdmin(old(admins), p) ==>
          GetAdminByPkgName(admins, p, userIdToRemove) == GetAdminByPkgName(old(admins), p, userIdToRemove)
      ensures (userIdToRemove != 0 &&
               NoItemFails(plugins, failing, Switched(old(policyMgrMap), userIdToRemove)[userIdToRemove].records.Keys)) ==>
        (forall a :: a in AdminsOf(old(admins), userIdToRemove) ==> a.packageName in removed) &&
        forall p ::
          (GetAdminByPkgName(old(admins), p, userIdToRemove).Some? &&
           !(AdminManagerModel.IsSuperAdmin(old(admins), p) && userIdToRemove != DEFAULT_USER_ID)) ==>
          GetAdminByPkgName(admins, p, userIdToRemove).None?
    {
      if userIdToRemove == 0 {
        return [];
      }
      var userAdmin := AdminsOf(admins, userIdToRemove);
      policyMgrUser := GetAndSwitchPolicyManagerByUserId(userIdToRemove);
      ghost var m1 := policyMgrMap;
      removed := RemoveAdminsOfAccount(userAdmin, userIdToRemove, merge, failing, app);
      ghost var m2 := policyMgrMap;
      policyMgrUser := GetAndSwitchPolicyManagerByUserId(DEFAULT_USER_ID);
      UserRemovedOutcome(old(policyMgrMap), m1, m2, old(admins), admins, userIdToRemove, plugins, failing);
    }

    /**
     * The removals of OnCommonEventUserRemoved, in the account's own store:
     * RemoveAdmin of each admin listed for the account, then of the super
     * admin if there is one. `removed` is the packages whose policy items
     * all went, in order.
     */
    method RemoveAdminsOfAccount(userAdmin: seq<Admin>, userIdToRemove: int, merge: Merger, failing: set<string>,
      app: AppMgr) returns (ghost removed: seq<string>)
      requires Valid() && policyMgrUser == userIdToRemove && instanceUser == userIdToRemove
      modifies this
      ensures Valid() && policyMgrUser == userIdToRemove && instanceUser == userIdToRemove
      ensures edmEnabled == old(edmEnabled)
      ensures AccountLoopState(old(policyMgrMap), old(admins), userIdToRemove, plugins, failing,
        old(policyMgrMap)[userIdToRemove].records.Keys, userAdmin, policyMgrMap, admins)
      ensures (admins, appStateSubscribed) ==
        AccountTails(old(admins), old(appStateSubscribed), removed, userIdToRemove, app)
      ensures NoItemFails(plugins, failing, old(policyMgrMap)[userIdToRemove].records.Keys) ==>
        forall a :: a in userAdmin ==> a.packageName in removed
    {
      ghost var names := policyMgrMap[userIdToRemove].records.Keys;
      ghost var done;
      done, removed := RemoveListedAdmins(userAdmin, userIdToRemove, merge, failing, app);
      if IsSuperAdminExist(admins) {
        var superAdmin := GetSuperAdmin(admins).value;
        removed := RemoveAdminInAccount(superAdmin, userIdToRemove, merge, failing, app, old(policyMgrMap), old(admins),
          old(appStateSubscribed), names, done, removed);
        done := done + [superAdmin];
      }
      AccountWalkPrefix(old(policyMgrMap), old(admins), old(appStateSubscribed), userIdToRemove, plugins, failing, names,
        userAdmin, done, removed, app, policyMgrMap, admins, appStateSubscribed);
    }

    /**
     * The loop of OnCommonEventUserRemoved over the admins listed for the
     * account; `done` is that list.
     */
    method RemoveListedAdmins(userAdmin: seq<Admin>, userIdToRemove: int, merge: Merger, failing: set<string>,
      app: AppMgr) returns (ghost done: seq<Admin>, ghost removed: seq<string>)
      requires Valid() && policyMgrUser == userIdToRemove && instanceUser == userIdToRemove
      modifies this
      ensures Valid() && policyMgrUser == userIdToRemove && instanceUser == userIdToRemove
      ensures edmEnabled == old(edmEnabled)
      ensures done == userAdmin
      ensures AccountWalk(old(policyMgrMap), old(admins), old(appStateSubscribed), userIdToRemove, plugins, failing,
        old(policyMgrMap)[userIdToRemove].records.Keys, done, removed, app, policyMgrMap, admins, appStateSubscribed)
    {
      ghost var names := policyMgrMap[userIdToRemove].records.Keys;
      done := [];
      removed := [];
      for i := 0 to |userAdmin|
        invariant Valid()
        invariant policyMgrUser == userIdToRemove && instanceUser == userIdToRemove
        invariant edmEnabled == old(edmEnabled)
        invariant done == userAdmin[..i]
        invariant AccountWalk(old(policyMgrMap), old(admins), old(appStateSubscribed), userIdToRemove, plugins, failing,
          names, done, removed, app, policyMgrMap, admins, appStateSubscribed)
      {
        removed := RemoveAdminInAccount(userAdmin[i], userIdToRemove, merge, failing, app, old(policyMgrMap), old(admins),
          old(appStateSubscribed), names, done, removed);
        done := done + [userAdmin[i]];
      }
      assert done == userAdmin;
    }

    /**
     * One RemoveAdmin of OnCommonEventUserRemoved, with the bookkeeping of
     * the removals before it: `done` the admins handled and `removedBefore`
     * the packages whose items all went.
     */
    method RemoveAdminInAccount(a: Admin, userId: int, merge: Merger, failing: set<string>, app: AppMgr,
      ghost m0: map<int, PolicyStore>, ghost a0: Registry, ghost s0: bool, ghost names: set<string>,
      ghost done: seq<Admin>, ghost removedBefore: seq<string>) returns (ghost removed: seq<string>)
      requires Valid() && policyMgrUser == userId
      requires AccountWalk(m0, a0, s0, userId, plugins, failing, names, done, removedBefore, app, policyMgrMap, admins,
        appStateSubscribed)
      modifies this
      ensures Valid()
      ensures policyMgrUser == old(policyMgrUser) && instanceUser == old(instanceUser) && edmEnabled == old(edmEnabled)
      ensures AccountWalk(m0, a0, s0, userId, plugins, failing, names, done + [a], removed, app, policyMgrMap, admins,
        appStateSubscribed)
    {
      ghost var m, before, subscribed := policyMgrMap, admins, appStateSubscribed;
      ghost var items := GetAllPolicyByAdmin(policyMgrMap[userId], a.packageName).Keys;
      ghost var d := RemoveAdminOfAccount(a.packageName, userId, merge, failing, app);
      AccountWalkStep(m0, a0, s0, userId, plugins, failing, names, done, removedBefore, app, m, before, subscribed, a, merge,
        d, policyMgrMap, admins, appStateSubscribed);
      removed := if NoItemFails(plugins, failing, items) then removedBefore + [a.packageName] else removedBefore;
    }

    /**
     * RemoveAdmin as OnCommonEventUserRemoved uses it, its code ignored:
     * the admin's items go from the current store up to the first failure,
     * and with none failing the registry step follows (the admin goes from
     * the account, unless it is the super admin removed from another
     * account). Nothing else changes.
     */
    method RemoveAdminOfAccount(adminName: string, userId: int, merge: Merger, failing: set<string>, app: AppMgr)
      returns (ghost done: set<string>)
      requires Valid()
      modifies this
      ensures Valid()
      ensures policyMgrUser == old(policyMgrUser) && instanceUser == old(instanceUser) && edmEnabled == old(edmEnabled)
      ensures var s0 := old(policyMgrMap)[policyMgrUser];
        done <= GetAllPolicyByAdmin(s0, adminName).Keys &&
        policyMgrMap == old(policyMgrMap)[policyMgrUser := UnwindStore(s0, plugins, adminName, done, merge)]
      ensures var items := GetAllPolicyByAdmin(old(policyMgrMap)[policyMgrUser], adminName).Keys;
        NoItemFails(plugins, failing, items) ==> done == items
      ensures var items := GetAllPolicyByAdmin(old(policyMgrMap)[policyMgrUser], adminName).Keys;
        var tail := RemoveAdminTail(old(admins), adminName, userId, old(appStateSubscribed), app);
        (admins, appStateSubscribed) ==
          if NoItemFails(plugins, failing, items) then (tail.0, tail.1) else (old(admins), old(appStateSubscribed))
      ensures forall v :: v != userId ==> AdminsOf(admins, v) == AdminsOf(old(admins), v)
      ensures forall p :: p != adminName ==> GetAdminByPkgName(admins, p, userId) == GetAdminByPkgName(old(admins), p, userId)
      ensures AdminManagerModel.IsSuperAdmin(old(admins), adminName) && userId != DEFAULT_USER_ID ==> admins == old(admins)
      ensures var items := GetAllPolicyByAdmin(old(policyMgrMap)[policyMgrUser], adminName).Keys;
        NoItemFails(plugins, failing, items) &&
        !(AdminManagerModel.IsSuperAdmin(old(admins), adminName) && userId != DEFAULT_USER_ID) ==>
          GetAdminByPkgName(admins, adminName, userId).None?
    {
      RemoveAdminTailLookups(admins, adminName, userId, appStateSubscribed, app);
      var ignored;
      ignored, done := RemoveAdmin(adminName, userId, merge, failing, app);
    }

    /**
     * EnableAdmin: checks the caller, the bundle's ENTERPRISE_ADMIN
     * extension and VerifyEnableAdminCondition, then records the admin with
     * its granted permissions and sets the EDM-enabled parameter.
     * `setAdminOk` says whether AdminManager persists the admin.
     */
    method EnableAdmin(c: Caller, admin: AbilityInfo, entInfo: EntInfo, role: AdminType, userId: int,
      bundle: BundleAnswers, tables: PermissionTables, setAdminOk: bool) returns (r: int)
      requires Valid()
      modifies this
      ensures Valid()
      ensures r in {ERR_OK, PERMISSION_DENIED, SYSTEM_ABNORMALLY, COMPONENT_INVALID, ENABLE_ADMIN_FAILED}
      ensures !c.isShell && !VerifyCallingPermission(c, PERMISSION_MANAGE_ENTERPRISE_DEVICE_ADMIN) ==> r == PERMISSION_DENIED
      ensures (c.isShell || VerifyCallingPermission(c, PERMISSION_MANAGE_ENTERPRISE_DEVICE_ADMIN)) && !bundle.reachable ==>
        r == SYSTEM_ABNORMALLY
      ensures ((c.isShell || VerifyCallingPermission(c, PERMISSION_MANAGE_ENTERPRISE_DEVICE_ADMIN)) && bundle.reachable &&
               !bundle.extensionFound) ==> r == COMPONENT_INVALID
      ensures ((c.isShell || VerifyCallingPermission(c, PERMISSION_MANAGE_ENTERPRISE_DEVICE_ADMIN)) && bundle.reachable &&
               bundle.extensionFound && !EnableAllowed(old(admins), admin, role, userId)) ==> r == ENABLE_ADMIN_FAILED
      ensures r == ERR_OK <==>
        (c.isShell || VerifyCallingPermission(c, PERMISSION_MANAGE_ENTERPRISE_DEVICE_ADMIN)) && bundle.reachable &&
        bundle.extensionFound && EnableAllowed(old(admins), admin, role, userId) && bundle.reqPermissions.Some? &&
        tables.getGrantedPermission(GetAllPermissionsByAdmin(bundle.reqPermissions, tables).1, role).Some? && setAdminOk
      ensures r == ERR_OK ==>
        edmEnabled &&
        admins == SetAdminValue(old(admins), admin, entInfo, role,
          tables.getGrantedPermission(GetAllPermissionsByAdmin(bundle.reqPermissions, tables).1, role).value, userId)
      ensures r != ERR_OK ==> unchanged(this)
      ensures policyMgrMap == old(policyMgrMap) && policyMgrUser == old(policyMgrUser)
      ensures instanceUser == old(instanceUser) && appStateSubscribed == old(appStateSubscribed)
    {
      if !c.isShell && !VerifyCallingPermission(c, PERMISSION_MANAGE_ENTERPRISE_DEVICE_ADMIN) {
        return PERMISSION_DENIED;
      }
      if !bundle.reachable {
        return SYSTEM_ABNORMALLY;
      }
      if !bundle.extensionFound {
        return COMPONENT_INVALID;
      }
      if Failed(VerifyEnableAdminCondition(admins, admin, role, userId)) {
        return ENABLE_ADMIN_FAILED;
      }
      var (code, permissionList) := GetAllPermissionsByAdmin(bundle.reqPermissions, tables);
      if Failed(code) {
        return COMPONENT_INVALID;
      }
      var granted := tables.getGrantedPermission(permissionList, role);
      if granted.None? {
        return ENABLE_ADMIN_FAILED;
      }
      if !setAdminOk {
        return ENABLE_ADMIN_FAILED;
      }
      EnableKeepsSuperAdminInvariant(admins, admin, entInfo, role, granted.value, userId);
      admins := SetAdminValue(admins, admin, entInfo, role, granted.value, userId);
      edmEnabled := true;
      return ERR_OK;
    }

    // ----- Policy SET and GET -----

    /**
     * UpdateDevicePolicy: works on the addressed account's store; the
     * plugin handles the request, a saved policy's change is merged and
     * written, and only a success switches back to the default user.
     */
    method UpdateDevicePolicy(plugin: Plugin, adminName: string, userId: int, handle: string -> HandleResult,
      merge: Merger) returns (r: int, isGlobalChanged: bool)
      requires Valid()
      modifies this
      ensures Valid()
      ensures var o := UpdateDevicePolicyOutcome(Switched(old(policyMgrMap), userId)[userId], plugin, adminName, handle, merge);
        policyMgrMap == Switched(old(policyMgrMap), userId)[userId := o.store] &&
        r == o.code && isGlobalChanged == o.isGlobalChanged &&
        (o.switchedBack ==> policyMgrUser == DEFAULT_USER_ID && instanceUser == DEFAULT_USER_ID) &&
        (!o.switchedBack ==> policyMgrUser == userId && instanceUser == userId)
      ensures admins == old(admins) && appStateSubscribed == old(appStateSubscribed) && edmEnabled == old(edmEnabled)
    {
      policyMgrUser := GetAndSwitchPolicyManagerByUserId(userId);
      var policyName := plugin.policyName;
      var policyValue := GetPolicy(policyMgrMap[policyMgrUser], adminName, policyName);
      match handle(policyValue) {
        case HandleFailed(e) =>
          return e, false;
        case Handled(newValue, isChanged) =>
          var oldCombinePolicy := GetPolicy(policyMgrMap[policyMgrUser], "", policyName);
          isGlobalChanged := false;
          if plugin.needSavePolicy && isChanged {
            match merge(policyName, adminName, newValue) {
              case MergeFailed(e) =>
                return e, false;
              case Merged(mergedPolicy) =>
                policyMgrMap := policyMgrMap[policyMgrUser :=
                  SetPolicy(policyMgrMap[policyMgrUser], adminName, policyName, newValue, mergedPolicy)];
                isGlobalChanged := oldCombinePolicy != mergedPolicy;
            }
          }
          policyMgrUser := GetAndSwitchPolicyManagerByUserId(DEFAULT_USER_ID);
          return ERR_OK, isGlobalChanged;
      }
    }

    /** HandleDevicePolicy: the SET checks, then UpdateDevicePolicy with the plugin of the code. */
    method HandleDevicePolicy(c: Caller, code: uint32, adminName: string, userId: int, handle: string -> HandleResult,
      merge: Merger) returns (r: int, isGlobalChanged: bool)
      requires Valid()
      modifies this
      ensures Valid()
      ensures HandleDevicePolicyCheck(c, old(admins), plugins, code, adminName, userId).Reject? ==>
        r == HandleDevicePolicyCheck(c, old(admins), plugins, code, adminName, userId).code &&
        !isGlobalChanged && unchanged(this)
      ensures HandleDevicePolicyCheck(c, old(admins), plugins, code, adminName, userId).Pass? ==>
        var o := UpdateDevicePolicyOutcome(Switched(old(policyMgrMap), userId)[userId], plugins.byCode[code], adminName,
          handle, merge);
        policyMgrMap == Switched(old(policyMgrMap), userId)[userId := o.store] &&
        r == o.code && isGlobalChanged == o.isGlobalChanged &&
        policyMgrUser == (if o.switchedBack then DEFAULT_USER_ID else userId) &&
        instanceUser == (if o.switchedBack then DEFAULT_USER_ID else userId)
      ensures admins == old(admins) && appStateSubscribed == old(appStateSubscribed) && edmEnabled == old(edmEnabled)
    {
      match HandleDevicePolicyCheck(c, admins, plugins, code, adminName, userId) {
        case Reject(e) =>
          return e, false;
        case Pass(plugin) =>
          r, isGlobalChanged := UpdateDevicePolicy(plugin, adminName, userId, handle, merge);
      }
    }

    /**
     * GetDevicePolicy: the GET checks, then the plugin's OnGetPolicy on the
     * addressed account's value (the empty string for a plugin that saves
     * nothing); both pointers end at the default user.
     */
    method GetDevicePolicy(c: Caller, code: uint32, adminGiven: Option<string>, userId: int, onGet: string -> int)
      returns (r: int, policyValue: string)
      requires Valid()
      modifies this
      ensures Valid()
      ensures GetDevicePolicyCheck(c, old(admins), plugins, code, adminGiven).Reject? ==>
        r == GetDevicePolicyCheck(c, old(admins), plugins, code, adminGiven).code && unchanged(this)
      ensures GetDevicePolicyCheck(c, old(admins), plugins, code, adminGiven).Pass? ==>
        var (plugin, adminName) := GetDevicePolicyCheck(c, old(admins), plugins, code, adminGiven).value;
        policyMgrMap == Switched(old(policyMgrMap), userId) &&
        policyValue == GetDevicePolicyValue(policyMgrMap[userId], plugin, adminName) &&
        r == onGet(policyValue) &&
        policyMgrUser == DEFAULT_USER_ID && instanceUser == DEFAULT_USER_ID
      ensures admins == old(admins) && appStateSubscribed == old(appStateSubscribed) && edmEnabled == old(edmEnabled)
    {
      match GetDevicePolicyCheck(c, admins, plugins, code, adminGiven) {
        case Reject(e) =>
          return e, "";
        case Pass((plugin, adminName)) =>
          policyMgrUser := GetAndSwitchPolicyManagerByUserId(userId);
          policyValue := "";
          if plugin.needSavePolicy {
            policyValue := GetPolicy(policyMgrMap[policyMgrUser], adminName, plugin.policyName);
          }
          r := onGet(policyValue);
          policyMgrUser := GetAndSwitchPolicyManagerByUserId(DEFAULT_USER_ID);
      }
    }

    // ----- Queries -----

    /**
     * GetEnabledAdmin: puts the current account's NORMAL admins, then the
     * super admin, in front of the given list; UNKNOWN adds nothing.
     */
    method GetEnabledAdmin(c: Caller, role: AdminType, enabledAdminList: seq<string>) returns (r: int, list: seq<string>)
      ensures role == OutOfRange ==> r == ERR_EDM_PARAM_ERROR && list == enabledAdminList
      ensures role != OutOfRange ==>
        r == ERR_OK && list == EnabledAdminPrefix(admins, role, GetCurrentUserId(c)) + enabledAdminList
    {
      var superList: seq<string> := [];
      var normalList: seq<string> := [];
      match role {
        case Normal =>
          normalList := AdminManagerModel.GetEnabledAdmin(admins, Normal, GetCurrentUserId(c));
          superList := AdminManagerModel.GetEnabledAdmin(admins, Ent, DEFAULT_USER_ID);
        case Ent =>
          superList := AdminManagerModel.GetEnabledAdmin(admins, Ent, DEFAULT_USER_ID);
        case Unknown =>
        case OutOfRange =>
          return ERR_EDM_PARAM_ERROR, enabledAdminList;
      }
      assert normalList + superList == EnabledAdminPrefix(admins, role, GetCurrentUserId(c));
      list := enabledAdminList;
      if superList != [] {
        list := superList + list;
      }
      assert list == superList + enabledAdminList;
      if normalList != [] {
        list := normalList + list;
      }
      assert list == normalList + (superList + enabledAdminList);
      assert list == (normalList + superList) + enabledAdminList;
      r := ERR_OK;
    }

    /** GetEnterpriseInfo: the enterprise information of the current account's admin. */
    method GetEnterpriseInfo(c: Caller, adminName: string) returns (r: int, entInfo: Option<EntInfo>)
      ensures r == ERR_OK || r == ADMIN_INACTIVE
      ensures r == ERR_OK <==> exists a :: a in AdminsOf(admins, GetCurrentUserId(c)) && a.packageName == adminName
      ensures r == ERR_OK ==> entInfo.Some? && entInfo.value == GetAdminByPkgName(admins, adminName, GetCurrentUserId(c)).value.entInfo
      ensures r != ERR_OK ==> entInfo.None?
    {
      entInfo := GetEntInfo(admins, adminName, GetCurrentUserId(c));
      if entInfo.None? {
        return ADMIN_INACTIVE, None;
      }
      return ERR_OK, entInfo;
    }

    /** SetEnterpriseInfo: only the admin itself may rewrite its enterprise information. */
    method SetEnterpriseInfo(c: Caller, adminName: string, entInfo: EntInfo) returns (r: int)
      requires Valid()
      modifies this
      ensures Valid()
      ensures r == ERR_OK || r == PERMISSION_DENIED || r == ADMIN_INACTIVE
      ensures !VerifyCallingPermission(c, PERMISSION_SET_ENTERPRISE_INFO) ==> r == PERMISSION_DENIED
      ensures (VerifyCallingPermission(c, PERMISSION_SET_ENTERPRISE_INFO) &&
               GetAdminByPkgName(old(admins), adminName, GetCurrentUserId(c)).None?) ==> r == ADMIN_INACTIVE
      ensures r == ERR_OK <==>
        (VerifyCallingPermission(c, PERMISSION_SET_ENTERPRISE_INFO) &&
         GetAdminByPkgName(old(admins), adminName, GetCurrentUserId(c)).Some? && c.callingBundle == Some(adminName))
      ensures r == ERR_OK ==>
        admins == SetEntInfo(old(admins), adminName, entInfo, GetCurrentUserId(c)).value &&
        GetEntInfo(admins, adminName, GetCurrentUserId(c)) == Some(entInfo)
      ensures r != ERR_OK ==> unchanged(this)
      ensures policyMgrMap == old(policyMgrMap) && policyMgrUser == old(policyMgrUser) && instanceUser == old(instanceUser)
      ensures appStateSubscribed == old(appStateSubscribed) && edmEnabled == old(edmEnabled)
    {
      if !VerifyCallingPermission(c, PERMISSION_SET_ENTERPRISE_INFO) {
        return PERMISSION_DENIED;
      }
      var userId := GetCurrentUserId(c);
      var adminItem := GetAdminByPkgName(admins, adminName, userId);
      if adminItem.None? {
        return ADMIN_INACTIVE;
      }
      if CheckCallingUid(c, adminItem.value.packageName) != ERR_OK {
        return PERMISSION_DENIED;
      }
      match SetEntInfo(admins, adminName, entInfo, userId) {
        case None =>
          return ADMIN_INACTIVE;
        case Some(reg) =>
          PutAdminPreserves(admins, adminName, userId, adminItem.value.(entInfo := entInfo));
          EntInfoRoundTrip(admins, adminName, entInfo, userId);
          admins := reg;
          return ERR_OK;
      }
    }

    /** IsSuperAdmin: the package is the default user's ENT admin. */
    method IsSuperAdmin(bundleName: string) returns (b: bool)
      requires Valid()
      ensures b <==> exists a :: a in AdminsOf(admins, DEFAULT_USER_ID) && a.packageName == bundleName && a.adminType == Ent
      ensures b ==> GetSuperAdmin(admins).Some? && GetSuperAdmin(admins).value.packageName == bundleName
    {
      var admin := GetAdminByPkgName(admins, bundleName, DEFAULT_USER_ID);
      b := admin.Some? && admin.value.adminType == Ent;
      var list := AdminsOf(admins, DEFAULT_USER_ID);
      assert UniquePackages(list);
      if !b {
        forall a | a in list && a.packageName == bundleName ensures a.adminType != Ent {
          var k :| 0 <= k < |list| && list[k] == a;
          FindPkgIsFirst(list, bundleName, k);
        }
      }
      if b {
        SuperAdminIsUnique(admins, bundleName, GetSuperAdmin(admins).value.packageName);
      }
    }

    /** IsAdminEnabled: the account has an admin of the bundle. */
    method IsAdminEnabled(admin: AbilityInfo, userId: int) returns (enabled: bool)
      ensures enabled <==> exists a :: a in AdminsOf(admins, userId) && a.packageName == admin.bundleName
    {
      var existAdmin := GetAdminByPkgName(admins, admin.bundleName, userId);
      enabled := existAdmin.Some?;
    }

    // ----- Managed events -----

    /** SubscribeManagedEvent: verifies, (re)registers the observer if needed, then records the events. */
    method SubscribeManagedEvent(c: Caller, adminName: string, events: seq<uint32>, app: AppMgr) returns (r: int)
      requires Valid()
      modifies this
      ensures Valid()
      ensures VerifyManagedEvent(c, old(admins), adminName, events) != ERR_OK ==>
        r == VerifyManagedEvent(c, old(admins), adminName, events) && unchanged(this)
      ensures VerifyManagedEvent(c, old(admins), adminName, events) == ERR_OK ==>
        var (subscribed, code) := HandleApplicationEventOutcome(events, true, old(appStateSubscribed), old(admins), app);
        appStateSubscribed == subscribed && r == code &&
        admins == (if code == ERR_OK then SaveSubscribeEvents(old(admins), events, adminName, GetCurrentUserId(c))
                   else old(admins))
      ensures policyMgrMap == old(policyMgrMap) && policyMgrUser == old(policyMgrUser) && instanceUser == old(instanceUser)
      ensures edmEnabled == old(edmEnabled)
    {
      var verified := VerifyManagedEvent(c, admins, adminName, events);
      if Failed(verified) {
        return verified;
      }
      var handled := HandleApplicationEvent(events, true, app);
      if Failed(handled) {
        return handled;
      }
      var userId := GetCurrentUserId(c);
      var adminItem := GetAdminByPkgName(admins, adminName, userId).value;
      PutAdminPreserves(admins, adminName, userId, adminItem.(managedEvents := MergeEvents(adminItem.managedEvents, events)));
      admins := SaveSubscribeEvents(admins, events, adminName, userId);
      return ERR_OK;
    }

    /** UnsubscribeManagedEvent: verifies, drops the events, then unregisters the observer if no one listens. */
    method UnsubscribeManagedEvent(c: Caller, adminName: string, events: seq<uint32>, app: AppMgr) returns (r: int)
      requires Valid()
      modifies this
      ensures Valid()
      ensures VerifyManagedEvent(c, old(admins), adminName, events) != ERR_OK ==>
        r == VerifyManagedEvent(c, old(admins), adminName, events) && unchanged(this)
      ensures VerifyManagedEvent(c, old(admins), adminName, events) == ERR_OK ==>
        admins == RemoveSubscribeEvents(old(admins), events, adminName, GetCurrentUserId(c)) &&
        (appStateSubscribed, r) == HandleApplicationEventOutcome(events, false, old(appStateSubscribed), admins, app)
      ensures policyMgrMap == old(policyMgrMap) && policyMgrUser == old(policyMgrUser) && instanceUser == old(instanceUser)
      ensures edmEnabled == old(edmEnabled)
    {
      var verified := VerifyManagedEvent(c, admins, adminName, events);
      if Failed(verified) {
        return verified;
      }
      var userId := GetCurrentUserId(c);
      var adminItem := GetAdminByPkgName(admins, adminName, userId).value;
      PutAdminPreserves(admins, adminName, userId, adminItem.(managedEvents := DropEvents(adminItem.managedEvents, events)));
      admins := RemoveSubscribeEvents(admins, events, adminName, userId);
      r := HandleApplicationEvent(events, false, app);
    }
  }
}
