/**
 * The decisions EnterpriseDeviceMgrAbility takes without changing state:
 * who may enable an admin, which managed events are valid, the check chains
 * in front of a policy SET and GET, the user id encoded in a policy file
 * name, what subscribing and unsubscribing the application-state observer
 * leads to, and what removing an admin does to a policy store.
 */
module AbilityRules {
  import opened Wrappers
  import opened EdmErrors
  import opened JsonColumn
  import opened AdminModel
  import opened AdminManagerModel
  import opened PolicyManagerModel
  import opened PluginModel

  const PERMISSION_MANAGE_ENTERPRISE_DEVICE_ADMIN: string := "ohos.permission.MANAGE_ENTERPRISE_DEVICE_ADMIN"
  const PERMISSION_SET_ENTERPRISE_INFO: string := "ohos.permission.SET_ENTERPRISE_INFO"
  const PERMISSION_ENTERPRISE_SUBSCRIBE_MANAGED_EVENT: string := "ohos.permission.ENTERPRISE_SUBSCRIBE_MANAGED_EVENT"
  const EDM_POLICY_JSON_FILE: string := "device_policies_"
  const EDM_JSON_BASE_DIR: string := "/data/service/el1/public/edm/"
  const EDM_DOT_CHAR: char := '.'
  const INT32_MAX: int := 0x7FFF_FFFF

  /** What the platform answers about the current IPC caller and the OS accounts. */
  datatype Caller = Caller(
    grantedPermissions: set<string>,
    isShell: bool,
    activeUserIds: Option<seq<int>>,
    existingUsers: set<int>,
    callingBundle: Option<string>)

  /** VerifyCallingPermission: the caller's access token holds the permission. */
  predicate VerifyCallingPermission(c: Caller, permissionName: string)
  {
    permissionName in c.grantedPermissions
  }

  /** GetCurrentUserId: the first active account, or -1 when the query fails or finds none. */
  function GetCurrentUserId(c: Caller): int
  {
    match c.activeUserIds
    case None => -1
    case Some(ids) => if ids == [] then -1 else ids[0]
  }

  /** CheckCallingUid: only the bundle itself passes. */
  function CheckCallingUid(c: Caller, bundleName: string): (r: int)
    ensures r == ERR_OK <==> c.callingBundle == Some(bundleName)
    ensures r == ERR_OK || r == ERR_EDM_PERMISSION_ERROR
  {
    match c.callingBundle
    case None => ERR_EDM_PERMISSION_ERROR
    case Some(name) => if name == bundleName then ERR_OK else ERR_EDM_PERMISSION_ERROR
  }

  /** A check chain's verdict: what the rest of the operation works with, or the code it returns. */
  datatype Checked<T> = Pass(value: T) | Reject(code: int)

  // ----- Enabling an admin -----

  /**
   * The conditions under which an admin may be (re-)enabled: a super admin
   * stays an ENT admin of the default user, a second ENT admin is refused,
   * ENT admins live in the default user, and an enabled admin keeps its
   * ability class and is never demoted from ENT to NORMAL.
   */
  predicate EnableAllowed(reg: Registry, admin: AbilityInfo, role: AdminType, userId: int)
  {
    var exist := GetAdminByPkgName(reg, admin.bundleName, userId);
    (IsSuperAdmin(reg, admin.bundleName) ==> role == Ent && userId == DEFAULT_USER_ID) &&
    (role == Ent && IsSuperAdminExist(reg) ==> exist.Some? && exist.value.adminType == Ent) &&
    (role == Ent ==> userId == DEFAULT_USER_ID) &&
    (exist.Some? ==> exist.value.className == admin.name) &&
    (exist.Some? && exist.value.adminType == Ent ==> role != Normal)
  }

  function VerifyEnableAdminCondition(reg: Registry, admin: AbilityInfo, role: AdminType, userId: int): (r: int)
    ensures r == ERR_OK || r == ERR_EDM_ADD_ADMIN_FAILED
    ensures r == ERR_OK <==> EnableAllowed(reg, admin, role, userId)
  {
    var exist := GetAdminByPkgName(reg, admin.bundleName, userId);
    if IsSuperAdmin(reg, admin.bundleName) && (role != Ent || userId != DEFAULT_USER_ID) then ERR_EDM_ADD_ADMIN_FAILED
    else if role == Ent && IsSuperAdminExist(reg) && (exist.None? || exist.value.adminType != Ent) then
      ERR_EDM_ADD_ADMIN_FAILED
    else if role == Ent && userId != DEFAULT_USER_ID then ERR_EDM_ADD_ADMIN_FAILED
    else if exist.None? then ERR_OK
    else if exist.value.className != admin.name then ERR_EDM_ADD_ADMIN_FAILED
    else if exist.value.adminType == Ent && role == Normal then ERR_EDM_ADD_ADMIN_FAILED
    else ERR_OK
  }

  /**
   * Enabling an admin that passed VerifyEnableAdminCondition keeps the
   * super-admin invariant: unique packages per user, ENT admins only in the
   * default user, and at most one of them.
   */
  lemma EnableKeepsSuperAdminInvariant(reg: Registry, admin: AbilityInfo, entInfo: EntInfo, role: AdminType,
    permissions: seq<string>, userId: int)
    requires SuperAdminInvariant(reg)
    requires VerifyEnableAdminCondition(reg, admin, role, userId) == ERR_OK
    ensures SuperAdminInvariant(SetAdminValue(reg, admin, entInfo, role, permissions, userId))
  {
    var list := AdminsOf(reg, userId);
    match FindPkg(list, admin.bundleName) {
    case None =>
      var a := Admin(role, admin.bundleName, admin.name, entInfo, permissions, []);
      if role == Ent {
        assert !IsSuperAdminExist(reg);
      }
      AppendKeepsInvariant(reg, userId, a);
    case Some(i) =>
      var a := Admin(role, admin.bundleName, admin.name, entInfo, permissions, list[i].managedEvents);
      if role == Ent {
        assert userId == DEFAULT_USER_ID;
        if IsSuperAdminExist(reg) {
          assert list[i].adminType == Ent;
        }
      }
      ReplaceKeepsInvariant(reg, userId, i, a);
    }
  }

  lemma AppendKeepsInvariant(reg: Registry, userId: int, a: Admin)
    requires SuperAdminInvariant(reg)
    requires forall b :: b in AdminsOf(reg, userId) ==> b.packageName != a.packageName
    requires a.adminType == Ent ==> userId == DEFAULT_USER_ID && !IsSuperAdminExist(reg)
    ensures SuperAdminInvariant(reg[userId := AdminsOf(reg, userId) + [a]])
  {
    var list := AdminsOf(reg, userId);
    var list' := list + [a];
    var reg' := reg[userId := list'];
    assert UniquePackages(list);
    assert forall j :: 0 <= j < |list| ==> list'[j] == list[j] && list[j] in list;
    forall u: int, b: Admin | u in reg' && b in reg'[u] && b.adminType == Ent ensures u == DEFAULT_USER_ID
    {
      if u == userId && b != a {
        var j :| 0 <= j < |list'| && list'[j] == b;
        assert list[j] == b;
      }
    }
    forall j, k | 0 <= j < k < |list'| ensures list'[j].packageName != list'[k].packageName
    {
      if k == |list| { assert list[j] in list; }
    }
    assert UniquePackages(list');
    if userId == DEFAULT_USER_ID {
      if a.adminType == Ent {
        assert forall j :: 0 <= j < |list| ==> list[j].adminType != Ent;
      }
      assert AdminsOf(reg', DEFAULT_USER_ID) == list';
      assert UniqueEnt(reg');
    } else {
      assert AdminsOf(reg', DEFAULT_USER_ID) == AdminsOf(reg, DEFAULT_USER_ID);
    }
  }

  lemma ReplaceKeepsInvariant(reg: Registry, userId: int, i: nat, a: Admin)
    requires SuperAdminInvariant(reg)
    requires i < |AdminsOf(reg, userId)| && AdminsOf(reg, userId)[i].packageName == a.packageName
    requires a.adminType == Ent ==> userId == DEFAULT_USER_ID
    requires a.adminType == Ent ==>
      forall j :: 0 <= j < |AdminsOf(reg, userId)| && j != i ==> AdminsOf(reg, userId)[j].adminType != Ent
    ensures SuperAdminInvariant(reg[userId := AdminsOf(reg, userId)[i := a]])
  {
    var list := AdminsOf(reg, userId);
    var list' := list[i := a];
    var reg' := reg[userId := list'];
    assert UniquePackages(list);
    assert forall j :: 0 <= j < |list| && j != i ==> list'[j] == list[j] && list[j] in list;
    forall u: int, b: Admin | u in reg' && b in reg'[u] && b.adminType == Ent ensures u == DEFAULT_USER_ID
    {
      if u == userId && b != a {
        var j :| 0 <= j < |list'| && list'[j] == b;
        assert list[j] == b;
      }
    }
    forall j, k | 0 <= j < k < |list'| ensures list'[j].packageName != list'[k].packageName
    {
      assert list'[j].packageName == list[j].packageName && list'[k].packageName == list[k].packageName;
    }
    assert UniquePackages(list');
    if userId == DEFAULT_USER_ID {
      assert AdminsOf(reg', DEFAULT_USER_ID) == list';
      forall j, k | 0 <= j < |list'| && 0 <= k < |list'| && list'[j].adminType == Ent && list'[k].adminType == Ent
        ensures j == k
      {
        if a.adminType != Ent {
          assert list[j].adminType == Ent && list[k].adminType == Ent;
        }
      }
    } else {
      assert AdminsOf(reg', DEFAULT_USER_ID) == AdminsOf(reg, DEFAULT_USER_ID);
    }
  }

  /**
   * The code lets any NORMAL admin of the default user be enabled again as
   * the ENT admin, with the same ability class, when no super admin exists.
   */
  lemma NormalAdminCanBecomeSuperAdmin(reg: Registry, admin: AbilityInfo)
    requires !IsSuperAdminExist(reg)
    requires GetAdminByPkgName(reg, admin.bundleName, DEFAULT_USER_ID).Some?
    requires GetAdminByPkgName(reg, admin.bundleName, DEFAULT_USER_ID).value.adminType == Normal
    requires GetAdminByPkgName(reg, admin.bundleName, DEFAULT_USER_ID).value.className == admin.name
    ensures VerifyEnableAdminCondition(reg, admin, Ent, DEFAULT_USER_ID) == ERR_OK
  {
  }

  // ----- Managed events -----

  /** CheckManagedEvent: the declared events, whose values are 0 to 3. */
  function CheckManagedEvent(event: uint32): (r: bool)
    ensures r <==> event as int < 4
  {
    event == BUNDLE_ADDED || event == BUNDLE_REMOVED || event == APP_START || event == APP_STOP
  }

  function VerifyManagedEvent(c: Caller, reg: Registry, bundleName: string, events: seq<uint32>): (r: int)
    ensures r == ERR_OK <==>
      VerifyCallingPermission(c, PERMISSION_ENTERPRISE_SUBSCRIBE_MANAGED_EVENT) &&
      GetAdminByPkgName(reg, bundleName, GetCurrentUserId(c)).Some? &&
      c.callingBundle == Some(bundleName) &&
      events != [] && (forall i :: 0 <= i < |events| ==> CheckManagedEvent(events[i]))
    ensures r in {ERR_OK, PERMISSION_DENIED, ADMIN_INACTIVE, MANAGED_EVENTS_INVALID}
    ensures (VerifyCallingPermission(c, PERMISSION_ENTERPRISE_SUBSCRIBE_MANAGED_EVENT) &&
      GetAdminByPkgName(reg, bundleName, GetCurrentUserId(c)).Some? && c.callingBundle == Some(bundleName) &&
      (events == [] || exists i :: 0 <= i < |events| && !CheckManagedEvent(events[i]))) ==>
      r == MANAGED_EVENTS_INVALID
  {
    if !VerifyCallingPermission(c, PERMISSION_ENTERPRISE_SUBSCRIBE_MANAGED_EVENT) then PERMISSION_DENIED
    else
      match GetAdminByPkgName(reg, bundleName, GetCurrentUserId(c))
      case None => ADMIN_INACTIVE
      case Some(a) =>
        if CheckCallingUid(c, a.packageName) != ERR_OK then PERMISSION_DENIED
        else if events == [] then MANAGED_EVENTS_INVALID
        else if exists i :: 0 <= i < |events| && !CheckManagedEvent(events[i]) then MANAGED_EVENTS_INVALID
        else ERR_OK
  }

  // ----- Policy SET and GET -----

  /** The checks in front of a policy SET, in the order the source makes them. */
  function HandleDevicePolicyCheck(c: Caller, reg: Registry, plugins: PluginManager, code: uint32,
    bundleName: string, userId: int): (r: Checked<Plugin>)
    ensures r.Pass? <==>
      userId in c.existingUsers && code in plugins.byCode &&
      GetAdminByPkgName(reg, bundleName, GetCurrentUserId(c)).Some? &&
      (var a := GetAdminByPkgName(reg, bundleName, GetCurrentUserId(c)).value;
       var p := plugins.byCode[code];
       CheckPermission(a, p.setPermission) && (a.adminType == Ent || userId == GetCurrentUserId(c)) &&
       VerifyCallingPermission(c, p.setPermission))
    ensures r.Pass? ==> r.value == plugins.byCode[code]
    ensures userId !in c.existingUsers ==> r == Reject(PARAM_ERROR)
    ensures userId in c.existingUsers && GetAdminByPkgName(reg, bundleName, GetCurrentUserId(c)).None? ==>
      r == Reject(ADMIN_INACTIVE)
    ensures (userId in c.existingUsers && GetAdminByPkgName(reg, bundleName, GetCurrentUserId(c)).Some? &&
      code !in plugins.byCode) ==> r == Reject(INTERFACE_UNSUPPORTED)
    ensures r.Reject? ==> r.code in {PARAM_ERROR, ADMIN_INACTIVE, INTERFACE_UNSUPPORTED, ADMIN_EDM_PERMISSION_DENIED,
      PERMISSION_DENIED}
    ensures r == Reject(PERMISSION_DENIED) ==> !VerifyCallingPermission(c, plugins.byCode[code].setPermission)
  {
    if userId !in c.existingUsers then Reject(PARAM_ERROR)
    else
      match GetAdminByPkgName(reg, bundleName, GetCurrentUserId(c))
      case None => Reject(ADMIN_INACTIVE)
      case Some(a) =>
        if code !in plugins.byCode then Reject(INTERFACE_UNSUPPORTED)
        else
          var p := plugins.byCode[code];
          if !CheckPermission(a, p.setPermission) || (a.adminType != Ent && userId != GetCurrentUserId(c)) then
            Reject(ADMIN_EDM_PERMISSION_DENIED)
          else if !VerifyCallingPermission(c, p.setPermission) then Reject(PERMISSION_DENIED)
          else Pass(p)
  }

  /**
   * The checks in front of a policy GET. The request names an admin when
   * its leading integer is 0; the policy is then read as that admin's own
   * value, otherwise as the merged value.
   */
  function GetDevicePolicyCheck(c: Caller, reg: Registry, plugins: PluginManager, code: uint32,
    adminGiven: Option<string>): (r: Checked<(Plugin, string)>)
    ensures r.Pass? <==>
      code in plugins.byCode && VerifyCallingPermission(c, plugins.byCode[code].getPermission) &&
      (adminGiven.Some? ==>
        GetAdminByPkgName(reg, adminGiven.value, GetCurrentUserId(c)).Some? &&
        CheckPermission(GetAdminByPkgName(reg, adminGiven.value, GetCurrentUserId(c)).value,
          plugins.byCode[code].getPermission))
    ensures r.Pass? ==> r.value.0 == plugins.byCode[code]
    ensures r.Pass? ==> r.value.1 == (if adminGiven.Some? then adminGiven.value else "")
    ensures code !in plugins.byCode ==> r == Reject(INTERFACE_UNSUPPORTED)
    ensures r.Reject? ==> r.code in {INTERFACE_UNSUPPORTED, ADMIN_INACTIVE, ADMIN_EDM_PERMISSION_DENIED, PERMISSION_DENIED}
  {
    if code !in plugins.byCode then Reject(INTERFACE_UNSUPPORTED)
    else
      var p := plugins.byCode[code];
      match adminGiven
      case Some(bundleName) =>
        (match GetAdminByPkgName(reg, bundleName, GetCurrentUserId(c))
         case None => Reject(ADMIN_INACTIVE)
         case Some(a) =>
           if !CheckPermission(a, p.getPermission) then Reject(ADMIN_EDM_PERMISSION_DENIED)
           else if !VerifyCallingPermission(c, p.getPermission) then Reject(PERMISSION_DENIED)
           else Pass((p, bundleName)))
      case None =>
        if !VerifyCallingPermission(c, p.getPermission) then Reject(PERMISSION_DENIED) else Pass((p, ""))
  }

  // ----- Policy files found at start-up -----

  /** std::string::find of a character: the first position holding it. */
  function IndexOfChar(s: string, ch: char): (r: Option<nat>)
    ensures r.Some? ==> r.value < |s| && s[r.value] == ch
    ensures r.Some? ==> forall j :: 0 <= j < r.value ==> s[j] != ch
    ensures r.None? ==> forall j :: 0 <= j < |s| ==> s[j] != ch
  {
    if s == [] then None
    else if s[0] == ch then Some(0)
    else match IndexOfChar(s[1..], ch)
      case None => None
      case Some(k) => Some(k + 1)
  }

  predicate OccursAt(s: string, pat: string, j: nat)
  {
    j + |pat| <= |s| && s[j..j + |pat|] == pat
  }

  /** std::string::find of a non-empty string: the first position it starts at. */
  function IndexOf(s: string, pat: string): (r: Option<nat>)
    requires pat != []
    ensures r.Some? ==> OccursAt(s, pat, r.value)
    ensures r.Some? ==> forall j: nat :: j < r.value ==> !OccursAt(s, pat, j)
    ensures r.None? ==> forall j: nat :: !OccursAt(s, pat, j)
    decreases |s|
  {
    if |s| < |pat| then None
    else if s[..|pat|] == pat then Some(0)
    else
      match IndexOf(s[1..], pat)
      case None =>
        assert forall j: nat :: !OccursAt(s, pat, j) by {
          forall j: nat ensures !OccursAt(s, pat, j) {
            if j > 0 { OccursAtShift(s, pat, j - 1); }
          }
        }
        None
      case Some(k) =>
        OccursAtShift(s, pat, k);
        assert forall j: nat :: j < k + 1 ==> !OccursAt(s, pat, j) by {
          forall j: nat | j < k + 1 ensures !OccursAt(s, pat, j) {
            if j > 0 { OccursAtShift(s, pat, j - 1); }
          }
        }
        Some(k + 1)
  }

  /** An occurrence one position further on in s is an occurrence in s without its first character. */
  lemma OccursAtShift(s: string, pat: string, j: nat)
    requires s != []
    ensures OccursAt(s, pat, j + 1) <==> OccursAt(s[1..], pat, j)
  {
    if j + 1 + |pat| <= |s| {
      assert s[j + 1..j + 1 + |pat|] == s[1..][j..j + |pat|];
    }
  }

  /** The first position of a character in a concatenation. */
  lemma {:induction false} IndexOfCharAppend(a: string, b: string, ch: char)
    requires forall j :: 0 <= j < |a| ==> a[j] != ch
    ensures IndexOfChar(a + b, ch) == (match IndexOfChar(b, ch) case None => None case Some(k) => Some(|a| + k))
  {
    if a != [] {
      assert (a + b)[1..] == a[1..] + b;
      IndexOfCharAppend(a[1..], b, ch);
    } else {
      assert a + b == b;
    }
  }

  /** What InitAllPolices does with one file it finds. Abort is an exception that ends the service's start-up. */
  datatype PolicyFile = Skip | Load(userId: int) | Abort

  /** The length of the directory and file-name prefix in front of the user id. */
  function PrefixLength(): nat { |EDM_JSON_BASE_DIR + EDM_POLICY_JSON_FILE| }

  /**
   * The text between the prefix and the first dot. The count (pos - start)
   * is unsigned, so a dot before the end of the prefix takes the rest of the path.
   */
  function UserText(path: string, pos: nat): string
    requires PrefixLength() <= |path| && pos < |path|
  {
    if pos >= PrefixLength() then path[PrefixLength()..pos] else path[PrefixLength()..]
  }

  /**
   * InitAllPolices' treatment of one path, as written: substr throws when
   * the path is shorter than the prefix, and stoi throws on an empty or
   * overlong digit string.
   */
  function PolicyFileUserAsWritten(path: string): PolicyFile
  {
    var pos := IndexOfChar(path, EDM_DOT_CHAR);
    var posHead := IndexOf(path, EDM_POLICY_JSON_FILE);
    if pos.None? || posHead.None? then Skip
    else if PrefixLength() > |path| then Abort
    else
      var user := UserText(path, pos.value);
      if !AllDigits(user) then Skip
      else if user == [] || DecimalValue(user) > INT32_MAX then Abort
      else if DecimalValue(user) < DEFAULT_USER_ID then Skip
      else Load(DecimalValue(user))
  }

  /** InitAllPolices' treatment of one path with every input that made it throw skipped instead. */
  function PolicyFileUser(path: string): (r: Option<int>)
    ensures r.Some? ==> DEFAULT_USER_ID <= r.value <= INT32_MAX
  {
    var pos := IndexOfChar(path, EDM_DOT_CHAR);
    var posHead := IndexOf(path, EDM_POLICY_JSON_FILE);
    if pos.None? || posHead.None? || PrefixLength() > |path| then None
    else
      var user := UserText(path, pos.value);
      if !AllDigits(user) || user == [] || DecimalValue(user) > INT32_MAX || DecimalValue(user) < DEFAULT_USER_ID then None
      else Some(DecimalValue(user))
  }

  /** Where the code as written does not throw, the corrected reading agrees with it. */
  lemma PolicyFileUserAgrees(path: string)
    requires PolicyFileUserAsWritten(path) != Abort
    ensures PolicyFileUserAsWritten(path) == (if PolicyFileUser(path).Some? then Load(PolicyFileUser(path).value) else Skip)
  {
  }

  lemma PrefixHasNoDot()
    ensures |EDM_JSON_BASE_DIR + EDM_POLICY_JSON_FILE| == 45
    ensures forall j :: 0 <= j < 45 ==> (EDM_JSON_BASE_DIR + EDM_POLICY_JSON_FILE)[j] != EDM_DOT_CHAR
  {
  }

  /** A policy file with an empty user id makes stoi throw during start-up. */
  lemma EmptyUserPolicyFileAborts()
    ensures PolicyFileUserAsWritten(EDM_JSON_BASE_DIR + EDM_POLICY_JSON_FILE + ".json") == Abort
    ensures PolicyFileUser(EDM_JSON_BASE_DIR + EDM_POLICY_JSON_FILE + ".json") == None
  {
    var prefix := EDM_JSON_BASE_DIR + EDM_POLICY_JSON_FILE;
    var path := prefix + ".json";
    assert OccursAt(path, EDM_POLICY_JSON_FILE, 29) by {
      assert path[29..45] == EDM_POLICY_JSON_FILE;
    }
    PrefixHasNoDot();
    IndexOfCharAppend(prefix, ".json", EDM_DOT_CHAR);
    assert IndexOfChar(path, EDM_DOT_CHAR) == Some(45);
    assert UserText(path, 45) == [];
  }

  /** Where the dot, the file-name prefix and the user text lie in the name of a policy file. */
  lemma PolicyPathParts(d: string)
    requires d != [] && AllDigits(d)
    ensures var path := EDM_JSON_BASE_DIR + EDM_POLICY_JSON_FILE + d + ".json";
      IndexOfChar(path, EDM_DOT_CHAR) == Some(45 + |d|) && IndexOf(path, EDM_POLICY_JSON_FILE).Some? &&
      PrefixLength() <= |path| && UserText(path, 45 + |d|) == d
  {
    var prefix := EDM_JSON_BASE_DIR + EDM_POLICY_JSON_FILE;
    var path := prefix + d + ".json";
    assert path == (prefix + d) + ".json";
    assert OccursAt(path, EDM_POLICY_JSON_FILE, 29) by {
      assert path[29..45] == prefix[29..45] == EDM_POLICY_JSON_FILE;
    }
    PrefixHasNoDot();
    assert forall j :: 0 <= j < |prefix + d| ==> (prefix + d)[j] != EDM_DOT_CHAR by {
      forall j | 0 <= j < |prefix + d| ensures (prefix + d)[j] != EDM_DOT_CHAR {
        if j >= 45 { assert (prefix + d)[j] == d[j - 45] && IsDigit(d[j - 45]); }
      }
    }
    IndexOfCharAppend(prefix + d, ".json", EDM_DOT_CHAR);
    assert path[45..45 + |d|] == d;
  }

  /** The policy file of a user id from 100 on is read back as that user. */
  lemma PolicyFileNameRoundTrip(userId: nat)
    requires DEFAULT_USER_ID <= userId <= INT32_MAX
    ensures PolicyFileUser(EDM_JSON_BASE_DIR + EDM_POLICY_JSON_FILE + Decimal(userId) + ".json") == Some(userId)
    ensures PolicyFileUserAsWritten(EDM_JSON_BASE_DIR + EDM_POLICY_JSON_FILE + Decimal(userId) + ".json") == Load(userId)
  {
    PolicyPathParts(Decimal(userId));
    DecimalRoundTrip(userId);
  }

  // ----- The application-state observer -----

  /** The application manager: reachable, and whether it accepts the observer's registration and removal. */
  datatype AppMgr = AppMgr(reachable: bool, registerOk: bool, unregisterOk: bool)

  /** Whether an observer is registered afterwards, and the boolean the operation returns. */
  datatype ObserverOutcome = ObserverOutcome(subscribed: bool, ok: bool)

  function SubscribeAppStateOutcome(subscribed: bool, app: AppMgr): ObserverOutcome
  {
    if subscribed then ObserverOutcome(true, true)
    else if !app.reachable || !app.registerOk then ObserverOutcome(false, false)
    else ObserverOutcome(true, true)
  }

  function UnsubscribeAppStateOutcome(subscribed: bool, reg: Registry, app: AppMgr): ObserverOutcome
  {
    if !subscribed then ObserverOutcome(false, true)
    else if HasAppStateSubscriber(reg) then ObserverOutcome(true, true)
    else if !app.reachable || !app.unregisterOk then ObserverOutcome(true, false)
    else ObserverOutcome(false, true)
  }

  /** SubscribeAppState reports success exactly when an observer is registered afterwards, and is idempotent. */
  lemma SubscribeAppStateMeaning(subscribed: bool, app: AppMgr)
    ensures SubscribeAppStateOutcome(subscribed, app).ok <==> SubscribeAppStateOutcome(subscribed, app).subscribed
    ensures subscribed ==> SubscribeAppStateOutcome(subscribed, app) == ObserverOutcome(true, true)
    ensures SubscribeAppStateOutcome(SubscribeAppStateOutcome(subscribed, app).subscribed, app).subscribed ==
      SubscribeAppStateOutcome(subscribed, app).subscribed || SubscribeAppStateOutcome(subscribed, app).ok == false
  {
  }

  /**
   * UnsubscribeAppState keeps the observer while an admin still listens to
   * application start or stop; a reported success otherwise leaves no
   * observer, and a reported failure leaves it in place.
   */
  lemma UnsubscribeAppStateMeaning(subscribed: bool, reg: Registry, app: AppMgr)
    ensures HasAppStateSubscriber(reg) ==> UnsubscribeAppStateOutcome(subscribed, reg, app) == ObserverOutcome(subscribed, true)
    ensures !HasAppStateSubscriber(reg) && UnsubscribeAppStateOutcome(subscribed, reg, app).ok ==>
      !UnsubscribeAppStateOutcome(subscribed, reg, app).subscribed
    ensures !UnsubscribeAppStateOutcome(subscribed, reg, app).ok ==> UnsubscribeAppStateOutcome(subscribed, reg, app).subscribed
  {
  }

  /** HandleApplicationEvent: whether an observer is registered afterwards, and the code returned. */
  function HandleApplicationEventOutcome(events: seq<uint32>, subscribe: bool, subscribed: bool, reg: Registry,
    app: AppMgr): (bool, int)
  {
    if !exists i :: 0 <= i < |events| && IsAppStateEvent(events[i]) then (subscribed, ERR_OK)
    else
      var o := if subscribe then SubscribeAppStateOutcome(subscribed, app) else UnsubscribeAppStateOutcome(subscribed, reg, app);
      (o.subscribed, if o.ok then ERR_OK else SYSTEM_ABNORMALLY)
  }

  /** Events other than application start and stop never touch the observer; otherwise only SYSTEM_ABNORMALLY can fail. */
  lemma HandleApplicationEventMeaning(events: seq<uint32>, subscribe: bool, subscribed: bool, reg: Registry, app: AppMgr)
    ensures (forall i :: 0 <= i < |events| ==> !IsAppStateEvent(events[i])) ==>
      HandleApplicationEventOutcome(events, subscribe, subscribed, reg, app) == (subscribed, ERR_OK)
    ensures HandleApplicationEventOutcome(events, subscribe, subscribed, reg, app).1 in {ERR_OK, SYSTEM_ABNORMALLY}
    ensures subscribe ==> (HandleApplicationEventOutcome(events, subscribe, subscribed, reg, app).1 == ERR_OK <==>
      HandleApplicationEventOutcome(events, subscribe, subscribed, reg, app).0 || !exists i :: 0 <= i < |events| && IsAppStateEvent(events[i]) && !subscribed)
  {
  }

  /**
   * ShouldUnsubscribeAppState as written: the admin pointer is dereferenced
   * without a check, so the admin must exist.
   */
  function ShouldUnsubscribeAppStateAsWritten(reg: Registry, adminName: string, userId: int): bool
    requires GetAdminByPkgName(reg, adminName, userId).Some?
  {
    SubscribesAppState(GetAdminByPkgName(reg, adminName, userId).value)
  }

  /** ShouldUnsubscribeAppState with the missing admin answered by false. */
  function ShouldUnsubscribeAppState(reg: Registry, adminName: string, userId: int): (r: bool)
    ensures r ==> GetAdminByPkgName(reg, adminName, userId).Some?
    ensures GetAdminByPkgName(reg, adminName, userId).Some? ==> r == ShouldUnsubscribeAppStateAsWritten(reg, adminName, userId)
  {
    match GetAdminByPkgName(reg, adminName, userId)
    case None => false
    case Some(a) => SubscribesAppState(a)
  }

  /**
   * DisableSuperAdmin walks the stores from the highest user id down. Once
   * the default user's pass has deleted the super admin, the pass over a
   * lower user id (user 0 gets a store from any SET or GET addressed to it)
   * reaches ShouldUnsubscribeAppState with no admin of that name in that user.
   */
  lemma SuperAdminRemovalReachesMissingAdmin()
    ensures var reg := map[DEFAULT_USER_ID := [Admin(Ent, "com.example.edm", "EnterpriseAdminAbility", EntInfo("", ""), [], [])]];
      DeleteAdmin(reg, "com.example.edm", DEFAULT_USER_ID).Some? &&
      var after := DeleteAdmin(reg, "com.example.edm", DEFAULT_USER_ID).value;
      !IsSuperAdmin(after, "com.example.edm") && GetAdminByPkgName(after, "com.example.edm", 0).None?
  {
    var reg := map[DEFAULT_USER_ID := [Admin(Ent, "com.example.edm", "EnterpriseAdminAbility", EntInfo("", ""), [], [])]];
    assert FindPkg(reg[DEFAULT_USER_ID], "com.example.edm") == Some(0);
    assert RemoveAt(reg[DEFAULT_USER_ID], 0) == [];
  }

  // ----- Removing an admin's policies -----

  /** MergePolicyData's result when an admin is removed; a failure is logged and leaves the empty string. */
  function MergedOrEmpty(m: MergeResult): string
  {
    match m
    case Merged(v) => v
    case MergeFailed(_) => ""
  }

  /**
   * RemoveAdminItem fails for a policy name without a plugin, and for a
   * saved policy whose SetPolicy fails; `failing` names the latter.
   */
  predicate ItemFails(plugins: PluginManager, failing: set<string>, policyName: string)
  {
    policyName !in plugins.byName || (plugins.byName[policyName].needSavePolicy && policyName in failing)
  }

  /** RemoveAdminItem succeeds for every one of the names. */
  predicate NoItemFails(plugins: PluginManager, failing: set<string>, names: set<string>)
  {
    forall n :: n in names ==> !ItemFails(plugins, failing, n)
  }

  predicate SavesPolicy(plugins: PluginManager, policyName: string)
  {
    policyName in plugins.byName && plugins.byName[policyName].needSavePolicy
  }

  /** The record of a saved policy after its holder is removed: the whole entry goes when nobody holds it. */
  function UnwindRecord(rec: Option<PolicyRecord>, adminName: string, merged: string): Option<PolicyRecord>
  {
    if rec.None? || rec.value.holders == map[] then SetRecord(rec, "", "", "")
    else SetRecord(rec, adminName, "", merged)
  }

  /** RemoveAdminItem's effect on the store, and its code. */
  function RemoveAdminItemOutcome(s: PolicyStore, plugins: PluginManager, adminName: string, policyName: string,
    merge: Merger, failing: set<string>): (PolicyStore, int)
  {
    if policyName !in plugins.byName then (s, ERR_EDM_GET_PLUGIN_MGR_FAILED)
    else if !plugins.byName[policyName].needSavePolicy then (s, ERR_OK)
    else if policyName in failing then (s, ERR_EDM_DEL_ADMIN_FAILED)
    else
      var merged := MergedOrEmpty(merge(policyName, adminName, ""));
      (PutRecord(s, policyName, UnwindRecord(RecordOf(s, policyName), adminName, merged)), ERR_OK)
  }

  /** The record of one policy name once the admin's items in `names` are removed. */
  function UnwoundAt(s: PolicyStore, plugins: PluginManager, adminName: string, names: set<string>, merge: Merger,
    policyName: string): Option<PolicyRecord>
  {
    if policyName in names && SavesPolicy(plugins, policyName) then
      UnwindRecord(RecordOf(s, policyName), adminName, MergedOrEmpty(merge(policyName, adminName, "")))
    else RecordOf(s, policyName)
  }

  /**
   * The store once the admin's items in `names` are removed, in any order:
   * each removal touches only its own policy name.
   */
  function UnwindStore(s: PolicyStore, plugins: PluginManager, adminName: string, names: set<string>, merge: Merger)
    : PolicyStore
  {
    PolicyStore(map n | n in s.records.Keys + names && UnwoundAt(s, plugins, adminName, names, merge, n).Some? ::
      UnwoundAt(s, plugins, adminName, names, merge, n).value)
  }

  /** Removing some of an admin's items adds no policy name to the store. */
  lemma UnwindStoreNames(s: PolicyStore, plugins: PluginManager, adminName: string, names: set<string>, merge: Merger)
    requires names <= s.records.Keys
    ensures UnwindStore(s, plugins, adminName, names, merge).records.Keys <= s.records.Keys
  {
  }

  lemma RecordOfUnwindStore(s: PolicyStore, plugins: PluginManager, adminName: string, names: set<string>,
    merge: Merger, n: string)
    ensures RecordOf(UnwindStore(s, plugins, adminName, names, merge), n) == UnwoundAt(s, plugins, adminName, names, merge, n)
  {
    if n !in s.records.Keys + names {
      assert RecordOf(s, n).None?;
    }
  }

  lemma StoreExt(s: PolicyStore, t: PolicyStore)
    requires forall n :: RecordOf(s, n) == RecordOf(t, n)
    ensures s == t
  {
    assert s.records.Keys == t.records.Keys by {
      forall n ensures n in s.records <==> n in t.records {
        assert RecordOf(s, n) == RecordOf(t, n);
      }
    }
    forall n | n in s.records ensures s.records[n] == t.records[n] {
      assert RecordOf(s, n) == RecordOf(t, n);
    }
  }

  /** Removing no item leaves the store as it is. */
  lemma UnwindNothing(s: PolicyStore, plugins: PluginManager, adminName: string, merge: Merger)
    ensures UnwindStore(s, plugins, adminName, {}, merge) == s
  {
    forall n ensures RecordOf(UnwindStore(s, plugins, adminName, {}, merge), n) == RecordOf(s, n) {
      RecordOfUnwindStore(s, plugins, adminName, {}, merge, n);
    }
    StoreExt(UnwindStore(s, plugins, adminName, {}, merge), s);
  }

  /**
   * One more successful RemoveAdminItem extends the removed set by its name,
   * whichever items were removed before it.
   */
  lemma UnwindStep(s: PolicyStore, plugins: PluginManager, adminName: string, done: set<string>, merge: Merger,
    failing: set<string>, n: string)
    requires n !in done && !ItemFails(plugins, failing, n)
    ensures RemoveAdminItemOutcome(UnwindStore(s, plugins, adminName, done, merge), plugins, adminName, n, merge, failing) ==
      (UnwindStore(s, plugins, adminName, done + {n}, merge), ERR_OK)
  {
    var t := UnwindStore(s, plugins, adminName, done, merge);
    var t' := UnwindStore(s, plugins, adminName, done + {n}, merge);
    var out := RemoveAdminItemOutcome(t, plugins, adminName, n, merge, failing);
    RecordOfUnwindStore(s, plugins, adminName, done, merge, n);
    forall m ensures RecordOf(out.0, m) == RecordOf(t', m) {
      RecordOfUnwindStore(s, plugins, adminName, done, merge, m);
      RecordOfUnwindStore(s, plugins, adminName, done + {n}, merge, m);
    }
    StoreExt(out.0, t');
  }

  /** A failing item leaves the store as it was and reports a failure. */
  lemma FailingItemKeepsStore(t: PolicyStore, plugins: PluginManager, adminName: string, n: string, merge: Merger,
    failing: set<string>)
    requires ItemFails(plugins, failing, n)
    ensures RemoveAdminItemOutcome(t, plugins, adminName, n, merge, failing).0 == t
    ensures RemoveAdminItemOutcome(t, plugins, adminName, n, merge, failing).1 != ERR_OK
  {
  }

  /**
   * Once every saved policy an admin holds is removed, the store keeps no
   * value of that admin, and every other admin keeps its own values.
   */
  lemma UnwindClearsAdmin(s: PolicyStore, plugins: PluginManager, adminName: string, merge: Merger)
    requires adminName != ""
    requires forall n :: n in GetAllPolicyByAdmin(s, adminName) ==> SavesPolicy(plugins, n)
    ensures var t := UnwindStore(s, plugins, adminName, GetAllPolicyByAdmin(s, adminName).Keys, merge);
      GetAllPolicyByAdmin(t, adminName) == map[] &&
      forall a, n :: a != "" && a != adminName ==> GetPolicy(t, a, n) == GetPolicy(s, a, n)
  {
    var names := GetAllPolicyByAdmin(s, adminName).Keys;
    var t := UnwindStore(s, plugins, adminName, names, merge);
    forall n ensures n !in GetAllPolicyByAdmin(t, adminName) {
      RecordOfUnwindStore(s, plugins, adminName, names, merge, n);
      if n in t.records {
        assert RecordOf(t, n) == Some(t.records[n]);
      }
    }
    forall a, n | a != "" && a != adminName ensures GetPolicy(t, a, n) == GetPolicy(s, a, n) {
      RecordOfUnwindStore(s, plugins, adminName, names, merge, n);
      var rec := RecordOf(s, n);
      if n in names && SavesPolicy(plugins, n) {
        var r := UnwindRecord(rec, adminName, MergedOrEmpty(merge(n, adminName, "")));
        assert RecordOf(t, n) == r;
        assert HoldersOf(r) == HoldersOf(rec) - {adminName} || HoldersOf(r) == HoldersOf(rec);
        assert a in HoldersOf(r) <==> a in HoldersOf(rec);
        if a in HoldersOf(rec) {
          assert HoldersOf(r)[a] == HoldersOf(rec)[a];
        }
      }
    }
  }

  // ----- Setting a policy -----

  /** What UpdateDevicePolicy ends with: the user's store, the code, isGlobalChanged, and whether it switched back to the default user. */
  datatype UpdateOutcome = UpdateOutcome(store: PolicyStore, code: int, isGlobalChanged: bool, switchedBack: bool)

  /**
   * UpdateDevicePolicy on the store of the addressed user. `handle` is the
   * plugin's OnHandlePolicy applied to the admin's current value.
   */
  function UpdateDevicePolicyOutcome(s: PolicyStore, plugin: Plugin, adminName: string,
    handle: string -> HandleResult, merge: Merger): UpdateOutcome
  {
    match handle(GetPolicy(s, adminName, plugin.policyName))
    case HandleFailed(e) => UpdateOutcome(s, e, false, false)
    case Handled(v, isChanged) =>
      if plugin.needSavePolicy && isChanged then
        match merge(plugin.policyName, adminName, v)
        case MergeFailed(e) => UpdateOutcome(s, e, false, false)
        case Merged(m) =>
          UpdateOutcome(SetPolicy(s, adminName, plugin.policyName, v, m), ERR_OK,
            GetPolicy(s, "", plugin.policyName) != m, true)
      else UpdateOutcome(s, ERR_OK, false, true)
  }

  /**
   * A SET switches back to the default user exactly when it succeeds; a
   * failure leaves the store as it was; only a saving plugin's reported
   * change writes, and then the admin's value and the merged value read
   * back; isGlobalChanged says exactly whether the merged value changed.
   */
  lemma UpdateDevicePolicyMeaning(s: PolicyStore, plugin: Plugin, adminName: string,
    handle: string -> HandleResult, merge: Merger)
    requires adminName != ""
    ensures var o := UpdateDevicePolicyOutcome(s, plugin, adminName, handle, merge);
      (o.code == ERR_OK <==> o.switchedBack) &&
      (o.code != ERR_OK ==> o.store == s && !o.isGlobalChanged) &&
      (o.store != s ==> o.code == ERR_OK && plugin.needSavePolicy) &&
      (o.isGlobalChanged <==> o.code == ERR_OK && GetPolicy(o.store, "", plugin.policyName) != GetPolicy(s, "", plugin.policyName)) &&
      (forall n :: n != plugin.policyName ==> RecordOf(o.store, n) == RecordOf(s, n))
    ensures var h := handle(GetPolicy(s, adminName, plugin.policyName));
      var o := UpdateDevicePolicyOutcome(s, plugin, adminName, handle, merge);
      h.Handled? && h.isChanged && plugin.needSavePolicy && merge(plugin.policyName, adminName, h.policyValue).Merged? &&
      h.policyValue != "" ==>
        GetPolicy(o.store, adminName, plugin.policyName) == h.policyValue &&
        GetPolicy(o.store, "", plugin.policyName) == merge(plugin.policyName, adminName, h.policyValue).mergedPolicy
  {
    var h := handle(GetPolicy(s, adminName, plugin.policyName));
    if h.Handled? && plugin.needSavePolicy && h.isChanged {
      var m := merge(plugin.policyName, adminName, h.policyValue);
      if m.Merged? {
        var t := SetPolicy(s, adminName, plugin.policyName, h.policyValue, m.mergedPolicy);
        var r := SetRecord(RecordOf(s, plugin.policyName), adminName, h.policyValue, m.mergedPolicy);
        assert RecordOf(t, plugin.policyName) == r;
        assert GetPolicy(t, "", plugin.policyName) == m.mergedPolicy;
        if h.policyValue != "" {
          SetThenGet(s, adminName, plugin.policyName, h.policyValue, m.mergedPolicy);
        }
      }
    }
  }

  /** The value GetDevicePolicy hands to the plugin's OnGetPolicy. */
  function GetDevicePolicyValue(s: PolicyStore, plugin: Plugin, adminName: string): (v: string)
    ensures !plugin.needSavePolicy ==> v == ""
    ensures plugin.needSavePolicy && adminName != "" && v != "" ==>
      plugin.policyName in GetAllPolicyByAdmin(s, adminName) && GetAllPolicyByAdmin(s, adminName)[plugin.policyName] == v
  {
    if plugin.needSavePolicy then GetPolicy(s, adminName, plugin.policyName) else ""
  }
}
