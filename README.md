# Enterprise device management service, modelled in Dafny

This project models the core of the OpenHarmony enterprise device management
(EDM) service. Three parts are modelled:

- The system ability `EnterpriseDeviceMgrAbility`. It enables and disables
  device administrators: normal admins per account, and at most one
  super-admin (an `ENT` admin of user 100). It routes policy SET/GET requests
  to plugins and keeps one policy store per account. It subscribes to the
  application manager on behalf of admins that asked for app start/stop
  events. It also unwinds an admin's policies when the admin is disabled or
  its account is removed.
- `AdminPoliciesStorageRdb`, the relational table `admin_policies`, where
  the admin list is persisted. It holds one row per (user, package). The
  permission list and the managed-event list are stored as JSON text columns.
- The error-code table `edm_errors.h`: the public return codes, and the four
  module bands placed at their offsets.

Files:

- `wrappers.dfy`: the `Option` type.
- `edm_errors.dfy`: the error codes, their layout and `RETURN_IF_FAILED`.
- `admin_model.dfy`: admins, admin types, enterprise info and managed events.
- `json_column.dfy`: the JSON text of the list columns (writer and reader).
- `admin_storage.dfy`: the row store, as a class over a sequence of rows.
- `admin_registry.dfy`: the admin manager's per-account admin lists, which the service queries and updates.
- `policy_store.dfy`: one account's policy store: per policy, each admin's value plus the merged value.
- `plugin.dfy`: plugins and the callers' identity.
- `ability_rules.dfy`: the pure checks and outcomes the service computes.
- `ability.dfy`: the service itself, as a class whose fields the operations update.

The service class keeps these fields:

- the admin registry;
- the map from account to policy store;
- the two "current store" pointers of the source (`policyMgr_` and the policy manager's instance), each held as a user id;
- whether the app-state observer is registered;
- the `persist.edm.edm_enable` flag.

Every state-changing operation is a method. Its postcondition is stated against
a specification function in `ability_rules.dfy` or `admin_registry.dfy`, and
the lemmas prove what those functions mean. The main properties are these:

- the super-admin invariant holds after every operation: each account lists a
  package at most once, and at most one ENT admin exists, only in user 100;
- unwinding an admin's policies leaves no policy of that admin and keeps every
  other admin's values;
- disabling the super-admin walks the accounts in descending order, as the
  ordered map of stores is iterated from its last key, and leaves no
  super-admin;
- the JSON text columns round-trip (`ReadStringArray(WriteStringArray(xs)) == xs`);
- the error codes are pairwise distinct and sit inside their module bands.

## Model

| member | source | states |
|---|---|---|
| EdmErrors.EngineBandLayout | common/native/include/edm_errors.h:37-44 | the eight engine return codes are 9200001..9200008, consecutive |
| EdmErrors.ServiceBandLayout | common/native/include/edm_errors.h:47-65 | the fifteen service codes run consecutively from the service offset + 1; ERR_EDM_DUMP_FAILED is offset + 15 |
| EdmErrors.ModuleBandsLayout | common/native/include/edm_errors.h:67-99 | the admin-manager (5), policy-manager (7) and plugin-manager (6) codes are consecutive from their offset + 1 |
| EdmErrors.OffsetsFollowModuleIds | common/native/include/edm_errors.h:23-29 | each module offset is 0x2000000 + module id * 0x10000 |
| EdmErrors.ModuleRangesDisjoint | common/native/include/edm_errors.h:47-99 | the module ranges do not overlap; every code lies in its own module's range and no service code is a public return code |
| EdmErrors.IncreasingIsDistinct | common/native/include/edm_errors.h:31-99 | a sequence increasing at each step is strictly increasing |
| EdmErrors.AllCodesDistinct | common/native/include/edm_errors.h:31-99 | the 45 codes of the table are pairwise distinct and none equals ERR_OK |
| EdmErrors.ReturnIfFailed | common/native/include/edm_errors.h:101 | returns exactly when the code is a failure, and returns that code |
| EdmErrors.RunSteps | common/native/include/edm_errors.h:101 | a chain of RETURN_IF_FAILED steps yields ERR_OK iff every step succeeds, and otherwise yields the first failing step's code |
| JsonColumn.UnicodeEscape | services/edm/src/admin_policies_storage_rdb.cpp:99-110 | a `\uXXXX` escape is six characters whose four hex digits read back as the code unit |
| JsonColumn.HexDigitRoundTrip | services/edm/src/admin_policies_storage_rdb.cpp:99-110 | a hex digit written by the writer reads back as its value |
| JsonColumn.UnicodeEscapeRead | services/edm/src/admin_policies_storage_rdb.cpp:258-264 | the reader turns a `\u` escape of a BMP character back into that character |
| JsonColumn.SurrogatePairRead | services/edm/src/admin_policies_storage_rdb.cpp:258-264 | a character beyond U+FFFF, written as a surrogate pair of escapes, reads back as that character |
| JsonColumn.EscapeCharRead | services/edm/src/admin_policies_storage_rdb.cpp:258-264 | every character's escaped form reads back as that character and consumes exactly its own text |
| JsonColumn.StringBodyRoundTrip | services/edm/src/admin_policies_storage_rdb.cpp:258-264 | the escaped text of a string followed by a closing quote reads back as the string, leaving the rest |
| JsonColumn.QuotedStringRead | services/edm/src/admin_policies_storage_rdb.cpp:258-264 | a quoted string reads back as itself |
| JsonColumn.StringArrayRoundTrip | services/edm/src/admin_policies_storage_rdb.cpp:99-110 | reading the written permissions column gives back the list, element by element and in order |
| JsonColumn.DecimalRoundTrip | services/edm/src/admin_policies_storage_rdb.cpp:237-245 | the decimal text of a number reads back as that number |
| JsonColumn.UIntArrayRoundTrip | services/edm/src/admin_policies_storage_rdb.cpp:176-199 | reading the written managed-events column gives back the list of events |
| JsonColumn.EmptyColumnsReadEmpty | services/edm/src/admin_policies_storage_rdb.cpp:226-245 | an empty or `null` column reads as no permission and no event |
| JsonColumn.WriterShapes | services/edm/src/admin_policies_storage_rdb.cpp:99-110 | the writer writes `null` exactly for the empty list |
| AdminStorageRdb.InsertedRow | services/edm/src/admin_policies_storage_rdb.cpp:58-71 | a bucket makes a row exactly when it holds the four NOT NULL columns |
| AdminStorageRdb.CreateValuesBucket | services/edm/src/admin_policies_storage_rdb.cpp:90-112 | the bucket puts user, type, package, class and enterprise info; it puts permissions only when the list is non-empty, as JSON that reads back as the list; it never puts events |
| AdminStorageRdb.ComponentBucket | services/edm/src/admin_policies_storage_rdb.cpp:129-155 | the short update puts package, class and the permission JSON, and nothing else |
| AdminStorageRdb.EntInfoBucket | services/edm/src/admin_policies_storage_rdb.cpp:157-174 | the enterprise-info update puts only the two enterprise columns |
| AdminStorageRdb.ManagedEventsBucket | services/edm/src/admin_policies_storage_rdb.cpp:176-199 | the events update puts only the events column, as JSON that reads back as the events |
| AdminStorageRdb.UpdateWhereSpec | services/edm/src/admin_policies_storage_rdb.cpp:73-88 | an update keeps the row count and applies the bucket to exactly the rows whose (user_id, package_name) match |
| AdminStorageRdb.DeleteWhereSpec | services/edm/src/admin_policies_storage_rdb.cpp:114-127 | a delete removes exactly the matching rows and keeps every other row |
| AdminStorageRdb.EntInfoUpdateColumns | services/edm/src/admin_policies_storage_rdb.cpp:157-174 | the row reads back with the new enterprise info and everything else unchanged |
| AdminStorageRdb.ManagedEventsUpdateColumns | services/edm/src/admin_policies_storage_rdb.cpp:176-199 | the row reads back with the new managed events and everything else unchanged |
| AdminStorageRdb.ComponentUpdateColumns | services/edm/src/admin_policies_storage_rdb.cpp:129-155 | the row reads back with the new package, class and permissions and everything else unchanged |
| AdminStorageRdb.FullUpdatePermissions | services/edm/src/admin_policies_storage_rdb.cpp:73-112 | a full update with no permissions keeps the stored permissions; otherwise it stores the new list; it never touches the events |
| AdminStorageRdb.InsertThenRead | services/edm/src/admin_policies_storage_rdb.cpp:58-71 | an inserted row reads back as the admin given to the insert, with no events |
| AdminStorageRdb.GroupByUserSpec | services/edm/src/admin_policies_storage_rdb.cpp:246-251 | the query has a key for exactly the users with a row, and each user's list is that user's rows in table order |
| AdminStorageRdb.EmptyWhenAbsent | services/edm/src/admin_policies_storage_rdb.cpp:246-251 | a user without rows has no admin |
| AdminStorageRdb.AdminPoliciesStorage.constructor | services/edm/src/admin_policies_storage_rdb.cpp:25-45 | the table starts from the rows already stored, with or without a data manager |
| AdminStorageRdb.AdminPoliciesStorage.InsertAdmin | services/edm/src/admin_policies_storage_rdb.cpp:58-71 | succeeds iff the data manager exists and the engine accepts; the table gains the inserted row only then |
| AdminStorageRdb.AdminPoliciesStorage.UpdateAdmin | services/edm/src/admin_policies_storage_rdb.cpp:73-88 | succeeds iff the data manager exists and the engine accepts; only the matching rows get the full bucket |
| AdminStorageRdb.AdminPoliciesStorage.DeleteAdmin | services/edm/src/admin_policies_storage_rdb.cpp:114-127 | succeeds iff the data manager exists and the engine accepts; only the matching rows go |
| AdminStorageRdb.AdminPoliciesStorage.UpdateAdminComponent | services/edm/src/admin_policies_storage_rdb.cpp:129-155 | as UpdateAdmin, with the component bucket |
| AdminStorageRdb.AdminPoliciesStorage.UpdateEntInfo | services/edm/src/admin_policies_storage_rdb.cpp:157-174 | as UpdateAdmin, with the enterprise-info bucket |
| AdminStorageRdb.AdminPoliciesStorage.UpdateManagedEvents | services/edm/src/admin_policies_storage_rdb.cpp:176-199 | as UpdateAdmin, with the events bucket |
| AdminStorageRdb.AdminPoliciesStorage.QueryAllAdmin | services/edm/src/admin_policies_storage_rdb.cpp:201-256 | the table grouped by user when a result set exists, otherwise no admin |
| PolicyManagerModel.SetRecord | services/edm/src/enterprise_device_mgr_ability.cpp:546-551 | a non-empty value sets the admin's entry; an empty value drops it; an empty admin name only changes the merged value; the record vanishes exactly when nothing is left |
| PolicyManagerModel.SetThenGet | services/edm/src/enterprise_device_mgr_ability.cpp:756-788 | after SetPolicy, the admin reads its value, the merged value reads back, and other policies are untouched |
| PolicyManagerModel.DropHolder | services/edm/src/enterprise_device_mgr_ability.cpp:546-551 | setting an admin's value to empty removes the policy from that admin and keeps other admins' values |
| PolicyManagerModel.DeleteRecord | services/edm/src/enterprise_device_mgr_ability.cpp:546-548 | clearing a policy no admin holds deletes its record and nothing else |
| AdminManagerModel.FindPkg | services/edm/include/admin_manager.h:34 | finds the first admin with the package name, or reports none has it |
| AdminManagerModel.GetAdminByPkgName | services/edm/src/enterprise_device_mgr_ability.cpp:437 | the account's admin with the package name; none iff the account has no such admin |
| AdminManagerModel.GetSuperAdmin | services/edm/src/enterprise_device_mgr_ability.cpp:124-126 | some iff a super-admin exists; it is an ENT admin of user 100 |
| AdminManagerModel.DeleteAdmin | services/edm/src/enterprise_device_mgr_ability.cpp:584 | fails iff the account has no admin with that package |
| AdminManagerModel.GetEntInfo | services/edm/src/enterprise_device_mgr_ability.cpp:902 | succeeds iff the admin exists |
| AdminManagerModel.SetEntInfo | services/edm/src/enterprise_device_mgr_ability.cpp:932 | succeeds iff the admin exists |
| AdminManagerModel.MergeEvents | services/edm/src/enterprise_device_mgr_ability.cpp:960 | keeps the existing events in order and holds exactly the union |
| AdminManagerModel.DropEvents | services/edm/src/enterprise_device_mgr_ability.cpp:971 | holds exactly the existing events that are not being removed |
| AdminManagerModel.PackagesOfType | services/edm/src/enterprise_device_mgr_ability.cpp:875-879 | lists exactly the packages of admins of the role |
| AdminManagerModel.DeleteAdminSpec | services/edm/src/enterprise_device_mgr_ability.cpp:584 | deleting changes only that account, keeps every other package's lookup, removes the package and shortens the list by one |
| AdminManagerModel.SetAdminValueSpec | services/edm/src/enterprise_device_mgr_ability.cpp:508 | after SetAdminValue the admin reads back with the new role, component, info and permissions; existing events are kept; nothing else changes |
| AdminManagerModel.PutAdminPreserves | services/edm/src/enterprise_device_mgr_ability.cpp:932-960 | replacing an admin in place, with its type kept, keeps the super-admin invariant |
| AdminManagerModel.DeletePreserves | services/edm/src/enterprise_device_mgr_ability.cpp:584 | deleting an admin keeps the super-admin invariant |
| AdminManagerModel.SuperAdminListedOnce | services/edm/src/enterprise_device_mgr_ability.cpp:876-879 | the ENT list of user 100 has at most one package, and has one iff a super-admin exists |
| AdminManagerModel.PutAdminThenGet | services/edm/src/enterprise_device_mgr_ability.cpp:932 | a replaced admin reads back as the new value; other packages and accounts are untouched |
| AdminManagerModel.EntInfoRoundTrip | services/edm/src/enterprise_device_mgr_ability.cpp:898-934 | enterprise info that was set reads back |
| AdminManagerModel.SubscribeEventsSpec | services/edm/src/enterprise_device_mgr_ability.cpp:952-973 | subscribing adds the events and unsubscribing removes them; no other field of the admin changes |
| AdminManagerModel.SuperAdminIsUnique | services/edm/src/enterprise_device_mgr_ability.cpp:702-715 | at most one package is super-admin, and GetSuperAdmin returns it |
| AdminManagerModel.DeleteSuperAdminLeavesNone | services/edm/src/enterprise_device_mgr_ability.cpp:665-700 | deleting the super-admin from user 100 succeeds and leaves no super-admin |
| AbilityRules.CheckCallingUid | services/edm/src/enterprise_device_mgr_ability.cpp:648-663 | ERR_OK iff the calling uid belongs to the named bundle, else a permission error |
| AbilityRules.VerifyEnableAdminCondition | services/edm/src/enterprise_device_mgr_ability.cpp:427-466 | ERR_OK iff enabling is allowed: a super-admin may be re-enabled only as ENT in user 100; ENT is refused outside user 100 and while another package is the super-admin; an admin already enabled keeps its ability class; the one change of type refused outright is ENT to NORMAL (NORMAL and UNKNOWN may change into each other or into ENT) |
| AbilityRules.EnableKeepsSuperAdminInvariant | services/edm/src/enterprise_device_mgr_ability.cpp:468-522 | an enable that passes the condition keeps the super-admin invariant |
| AbilityRules.NormalAdminCanBecomeSuperAdmin | services/edm/src/enterprise_device_mgr_ability.cpp:437-465 | for every registry without a super-admin, a NORMAL admin of user 100 re-enabled as ENT with the same ability class passes the check |
| AbilityRules.CheckManagedEvent | services/edm/src/enterprise_device_mgr_ability.cpp:1004-1016 | an event is accepted iff it is one of the four managed events |
| AbilityRules.VerifyManagedEvent | services/edm/src/enterprise_device_mgr_ability.cpp:975-1002 | ERR_OK iff the caller has the subscribe permission, the admin exists, the caller is the admin's bundle and the non-empty list holds only managed events; the error for each failed check |
| AbilityRules.HandleDevicePolicyCheck | services/edm/src/enterprise_device_mgr_ability.cpp:790-815 | passes iff the user exists, the admin exists, the plugin exists, the admin holds and the caller is granted the SET permission, and a normal admin targets only its own account; the error for each failed check |
| AbilityRules.GetDevicePolicyCheck | services/edm/src/enterprise_device_mgr_ability.cpp:824-855 | passes iff the plugin exists, the caller holds the GET permission, and a named admin exists and holds it; the error for each failed check |
| AbilityRules.IndexOfChar | services/edm/src/enterprise_device_mgr_ability.cpp:269-277 | the position of the first occurrence of the character, or none |
| AbilityRules.IndexOf | services/edm/src/enterprise_device_mgr_ability.cpp:269-277 | the first position where the pattern occurs, or none when it occurs nowhere |
| AbilityRules.PolicyFileUser | services/edm/src/enterprise_device_mgr_ability.cpp:259-280 | the user id in a policy file name, always between 100 and INT32_MAX |
| AbilityRules.PolicyFileUserAgrees | services/edm/src/enterprise_device_mgr_ability.cpp:259-280 | wherever the code as written does not throw, it loads or skips the same files as the corrected filter |
| AbilityRules.EmptyUserPolicyFileAborts | services/edm/src/enterprise_device_mgr_ability.cpp:269-277 | `device_policies_.json` makes std::stoi throw; the corrected filter skips it |
| AbilityRules.PolicyFileNameRoundTrip | services/edm/src/enterprise_device_mgr_ability.cpp:259-280 | a policy file named after user u loads user u, both as written and corrected |
| AbilityRules.SubscribeAppStateMeaning | services/edm/src/enterprise_device_mgr_ability.cpp:367-390 | success iff the observer is registered afterwards; an existing registration is kept |
| AbilityRules.UnsubscribeAppStateMeaning | services/edm/src/enterprise_device_mgr_ability.cpp:392-412 | the observer stays while an admin still wants app events; a successful unsubscribe leaves none |
| AbilityRules.HandleApplicationEventMeaning | services/edm/src/enterprise_device_mgr_ability.cpp:936-950 | events without app start/stop change nothing; the code is ERR_OK or SYSTEM_ABNORMALLY; subscribing succeeds iff an observer exists or was not needed |
| AbilityRules.ShouldUnsubscribeAppState | services/edm/src/enterprise_device_mgr_ability.cpp:593-600 | true only for an existing admin, and agrees with the code as written wherever that does not dereference null |
| AbilityRules.SuperAdminRemovalReachesMissingAdmin | services/edm/src/enterprise_device_mgr_ability.cpp:593-600 | after user 100's super-admin is deleted, the store of user 0 finds no admin for it |
| AbilityRules.UnwindStep | services/edm/src/enterprise_device_mgr_ability.cpp:524-561 | removing one more item that does not fail extends the unwound set by that item, with ERR_OK |
| AbilityRules.FailingItemKeepsStore | services/edm/src/enterprise_device_mgr_ability.cpp:524-558 | an item with no plugin, or whose SetPolicy fails, leaves the store as it was and reports failure; a failing merge is only logged and does not stop the removal |
| AbilityRules.UnwindClearsAdmin | services/edm/src/enterprise_device_mgr_ability.cpp:563-591 | unwinding all of an admin's items leaves it no policy, and every other admin reads the same values |
| AbilityRules.UnwindStoreNames | services/edm/src/enterprise_device_mgr_ability.cpp:524-561 | withdrawing some of an admin's items adds no policy name to the store |
| AbilityRules.UpdateDevicePolicyMeaning | services/edm/src/enterprise_device_mgr_ability.cpp:756-788 | ERR_OK iff the store is switched back; on failure nothing changes; only the plugin's policy changes; the global flag means the merged value changed; a handled change is stored and reads back |
| AbilityRules.GetDevicePolicyValue | services/edm/src/enterprise_device_mgr_ability.cpp:856-863 | empty for a plugin that saves no policy; otherwise a non-empty value is the admin's stored value |
| EnterpriseDeviceMgr.PolicyUsersMembers | services/edm/src/enterprise_device_mgr_ability.cpp:259-280 | the users loaded are exactly those named by a policy file, each between 100 and INT32_MAX |
| EnterpriseDeviceMgr.RemoveAdminTailMeaning | services/edm/src/enterprise_device_mgr_ability.cpp:576-591 | the tail of RemoveAdmin keeps the invariant; it keeps the super-admin outside user 100; it fails iff the admin is absent; on success the admin is gone; other accounts are untouched |
| EnterpriseDeviceMgr.SuperAdminRemovalStep | services/edm/src/enterprise_device_mgr_ability.cpp:680-689 | one turn of the super-admin walk keeps the super-admin until user 100, removes it there, and never brings it back |
| EnterpriseDeviceMgr.UnwindUsers | services/edm/src/enterprise_device_mgr_ability.cpp:680-689 | the stores of the users walked are unwound and all others unchanged |
| EnterpriseDeviceMgr.WalkAdvance | services/edm/src/enterprise_device_mgr_ability.cpp:680-689 | the walk's invariant survives visiting the largest remaining user |
| EnterpriseDeviceMgr.SuperAdminTurnsSucceed | services/edm/src/enterprise_device_mgr_ability.cpp:680-689 | with no failing policy item of the package in any account's store, and an admin of the package in every account below 100 that has a store, no turn of the walk fails |
| EnterpriseDeviceMgr.LowerStoreFailsTurn | services/edm/src/enterprise_device_mgr_ability.cpp:680-689 | a store of an account below 100 without an admin of the package makes that turn fail |
| EnterpriseDeviceMgr.WalkTurnMeaning | services/edm/src/enterprise_device_mgr_ability.cpp:680-689 | the turn on the largest remaining account succeeds exactly when it is not a failing turn, stated on the walk's starting state |
| EnterpriseDeviceMgr.WalkTurn | services/edm/src/enterprise_device_mgr_ability.cpp:680-689 | a successful turn keeps the walk's invariant; a failed one is a failing turn |
| EnterpriseDeviceMgr.WalkComplete | services/edm/src/enterprise_device_mgr_ability.cpp:680-689 | once no account remains every turn succeeded and no super-admin is left |
| EnterpriseDeviceMgr.WalkSucceeds | services/edm/src/enterprise_device_mgr_ability.cpp:680-689 | a walk with no account left is the successful outcome: every account done in descending order, every store unwound and no super-admin |
| EnterpriseDeviceMgr.WalkStops | services/edm/src/enterprise_device_mgr_ability.cpp:680-689 | a failing turn on the largest remaining account ends the walk with the failed outcome: the accounts done so far, the registry kept before user 100's turn and no super-admin after it |
| EnterpriseDeviceMgr.SuperAdminTailsStep | services/edm/src/enterprise_device_mgr_ability.cpp:680-689 | the registry and observer after one more account are RemoveAdmin's tail applied to those before it |
| EnterpriseDeviceMgr.RemoveAdminTailLookups | services/edm/src/enterprise_device_mgr_ability.cpp:576-591 | the tail of RemoveAdmin keeps every other package's admin in the account and leaves none of the package, except for the super-admin outside user 100 |
| EnterpriseDeviceMgr.SuperAdminPackageKeepsOtherAccount | services/edm/src/enterprise_device_mgr_ability.cpp:578-580 | a package enabled as NORMAL in account 101 and then as ENT in user 100 passes both checks, and RemoveAdmin from account 101 then returns ERR_OK and keeps the registry |
| EnterpriseDeviceMgr.AccountRemovalStep | services/edm/src/enterprise_device_mgr_ability.cpp:118-129 | one RemoveAdmin in the removed account keeps the handler's registry state, with or without its package counted as done: the super-admin's package keeps its admin outside user 100, and when no policy item of the account's store fails, every admin done is gone |
| EnterpriseDeviceMgr.AccountLoopStep | services/edm/src/enterprise_device_mgr_ability.cpp:118-129 | one RemoveAdmin in the removed account, which adds no policy name to its store, keeps the loop state: other stores and other accounts' admins unchanged, the store's names within the starting ones, and the registry state of AccountRemovalStep |
| EnterpriseDeviceMgr.UserRemovedOutcome | services/edm/src/enterprise_device_mgr_ability.cpp:107-132 | after every admin of the account was done: only that account's store and admins changed, its store holds no new policy name, a super-admin still exists iff it did, the super-admin's package keeps its admin, and when no policy item of the account's store fails every other admin of the account is gone |
| EnterpriseDeviceMgr.AccountWalkStep | services/edm/src/enterprise_device_mgr_ability.cpp:118-129 | one RemoveAdmin, given by its effect on the store and on the registry and observer, keeps the handler's bookkeeping; the package is added to those whose items all went exactly when none of its items fails |
| EnterpriseDeviceMgr.AccountWalkPrefix | services/edm/src/enterprise_device_mgr_ability.cpp:117-129 | what the bookkeeping says of the admins done holds of every prefix of them, so the super-admin's extra removal keeps what is stated of the listed admins |
| EnterpriseDeviceMgr.EnabledAdminPrefixMembers | services/edm/src/enterprise_device_mgr_ability.cpp:868-896 | NORMAL lists the account's normal admins and the super-admin; ENT lists only the super-admin; other roles list nothing |
| EnterpriseDeviceMgr.EnabledAdminPrefixOfEnt | services/edm/src/enterprise_device_mgr_ability.cpp:876-879 | the ENT list has at most one entry, and one iff a super-admin exists |
| EnterpriseDeviceMgr.GetAllPermissionsByAdmin | services/edm/src/enterprise_device_mgr_ability.cpp:323-352 | ERR_OK iff GetBundleInfo succeeds, else PARAM_ERROR with an empty list; an empty request, or a failing GetReqPermission, gives an empty list; otherwise the list is the EDM permissions GetReqPermission returns |
| EnterpriseDeviceMgr.EnterpriseDeviceMgrAbility.constructor | services/edm/src/enterprise_device_mgr_ability.cpp:230-280 | start-up: the stored admins, no observer, both store pointers on user 100, one fresh store per policy file's user plus user 100 |
| EnterpriseDeviceMgr.EnterpriseDeviceMgrAbility.GetAndSwitchPolicyManagerByUserId | services/edm/src/enterprise_device_mgr_ability.cpp:740-754 | creates the user's store if missing, keeps every existing store, and points the policy manager instance at it |
| EnterpriseDeviceMgr.EnterpriseDeviceMgrAbility.InitAllPolices | services/edm/src/enterprise_device_mgr_ability.cpp:259-280 | adds a store for the user of each policy file the corrected filter PolicyFileUser accepts, and for user 100; keeps existing stores; points both pointers at user 100. The files on which the code as written throws are skipped (first row of Findings) |
| EnterpriseDeviceMgr.EnterpriseDeviceMgrAbility.SubscribeAppState | services/edm/src/enterprise_device_mgr_ability.cpp:367-390 | the observer state and result follow the subscribe outcome; nothing else changes |
| EnterpriseDeviceMgr.EnterpriseDeviceMgrAbility.UnsubscribeAppState | services/edm/src/enterprise_device_mgr_ability.cpp:392-412 | the observer state and result follow the unsubscribe outcome; nothing else changes |
| EnterpriseDeviceMgr.EnterpriseDeviceMgrAbility.OnAppManagerServiceStart | services/edm/src/enterprise_device_mgr_ability.cpp:294-304 | subscribes again iff some admin wants app start/stop events |
| EnterpriseDeviceMgr.EnterpriseDeviceMgrAbility.HandleApplicationEvent | services/edm/src/enterprise_device_mgr_ability.cpp:936-950 | the observer state and code follow the application-event outcome |
| EnterpriseDeviceMgr.EnterpriseDeviceMgrAbility.RemoveAdminItem | services/edm/src/enterprise_device_mgr_ability.cpp:524-561 | the current store becomes the item outcome and nothing else changes |
| EnterpriseDeviceMgr.EnterpriseDeviceMgrAbility.RemovePolicyItems | services/edm/src/enterprise_device_mgr_ability.cpp:567-575 | succeeds iff no item fails; then every item of the admin is unwound, otherwise a strict subset |
| EnterpriseDeviceMgr.EnterpriseDeviceMgrAbility.RemoveAdmin | services/edm/src/enterprise_device_mgr_ability.cpp:563-591 | keeps the invariant; a failing item gives DEL_ADMIN_FAILED with the admins kept; otherwise all items are unwound and the admins follow the tail; only the removed account's admins change |
| EnterpriseDeviceMgr.EnterpriseDeviceMgrAbility.DisableAdmin | services/edm/src/enterprise_device_mgr_ability.cpp:602-634 | permission denied or not a normal admin changes nothing; for a normal admin ERR_OK iff no item fails; the items withdrawn come from the store `policyMgr_` points at; on success all of them go, the registry and observer follow RemoveAdmin's tail, and the enable flag is cleared when no admin is left; on failure the registry, observer and flag are kept and a strict subset of the items is withdrawn; the admin is gone from the account unless the package is also the super-admin and the account is not user 100, where RemoveAdmin returns ERR_OK early and the admin stays |
| EnterpriseDeviceMgr.EnterpriseDeviceMgrAbility.DisableNormalAdmin | services/edm/src/enterprise_device_mgr_ability.cpp:620-626 | for a NORMAL admin of the account: ERR_OK iff no item fails, else DISABLE_ADMIN_FAILED with the registry, observer and flag kept and a strict subset of the items withdrawn; on success all items go, the registry and observer follow RemoveAdmin's tail and the flag is cleared when no admin is left |
| EnterpriseDeviceMgr.EnterpriseDeviceMgrAbility.RemoveSuperAdminOfUser | services/edm/src/enterprise_device_mgr_ability.cpp:680-689 | ok iff no policy item of the super-admin in that account's store fails and RemoveAdmin's tail returns ERR_OK; on success the registry and the observer follow the tail and the store is fully unwound; on failure the registry and observer are kept and the store partly unwound; both pointers return to user 100 |
| EnterpriseDeviceMgr.EnterpriseDeviceMgrAbility.RemoveSuperAdminFromAllUsers | services/edm/src/enterprise_device_mgr_ability.cpp:680-689 | the accounts are walked in descending order; ok iff no account's turn fails (a failing item, or an account below 100 with no admin of the package); success unwinds every store and removes the super-admin; a failure stops at the largest account not yet done, with its store partly unwound, the registry kept before user 100's turn and the super-admin gone after it; the registry and observer are RemoveAdmin's tail folded over the accounts done |
| EnterpriseDeviceMgr.EnterpriseDeviceMgrAbility.RemoveSuperAdminTurn | services/edm/src/enterprise_device_mgr_ability.cpp:680-689 | one turn of the walk on the largest remaining account: a success keeps the walk's state with the account done; a failure is a failing turn, keeps the registry and observer, partly unwinds that store, and gives the walk's outcome with the accounts done so far |
| EnterpriseDeviceMgr.EnterpriseDeviceMgrAbility.DisableSuperAdmin | services/edm/src/enterprise_device_mgr_ability.cpp:665-700 | permission denied or not the super-admin changes nothing; otherwise ERR_OK iff no account's turn fails; on success every store is unwound in descending order, no super-admin remains, and the enable flag is cleared when no admin is left; a failure after user 100's turn leaves the super-admin deleted, one before it leaves the registry as it was; the registry and observer are RemoveAdmin's tail folded over the accounts done |
| EnterpriseDeviceMgr.EnterpriseDeviceMgrAbility.OnCommonEventUserRemoved | services/edm/src/enterprise_device_mgr_ability.cpp:107-132 | user 0 changes nothing; otherwise only the removed account's store and admins change and whether a super-admin exists is kept; the super-admin's package keeps its admin in another account; the registry and observer are RemoveAdmin's tail folded over the packages whose items all went; when no policy item of the removed account's store fails, every admin of the account is among those packages and every admin but that super-admin is gone |
| EnterpriseDeviceMgr.EnterpriseDeviceMgrAbility.RemoveAdminOfAccount | services/edm/src/enterprise_device_mgr_ability.cpp:118-130 | one RemoveAdmin in the user-removed handler: the admin's items go from the current store up to the first failure, all of them when none fails; with none failing the registry and observer follow RemoveAdmin's tail, otherwise they are kept; the admin leaves the account unless it is the super-admin outside user 100; other packages and accounts are untouched |
| EnterpriseDeviceMgr.EnterpriseDeviceMgrAbility.RemoveAdminsOfAccount | services/edm/src/enterprise_device_mgr_ability.cpp:117-129 | the removals of the handler: only the account's store and admins change and the store gains no policy name; the super-admin's package keeps its admin elsewhere; the registry and observer are the tail folded over the packages whose items all went; with no failing item in the account's store every listed admin's package is among them and gone |
| EnterpriseDeviceMgr.EnterpriseDeviceMgrAbility.RemoveListedAdmins | services/edm/src/enterprise_device_mgr_ability.cpp:118-123 | the loop over the account's listed admins keeps the handler's bookkeeping with every listed admin done |
| EnterpriseDeviceMgr.EnterpriseDeviceMgrAbility.RemoveAdminInAccount | services/edm/src/enterprise_device_mgr_ability.cpp:119-122 | one RemoveAdmin of the handler keeps its bookkeeping with that admin added to the admins done |
| EnterpriseDeviceMgr.EnterpriseDeviceMgrAbility.EnableAdmin | services/edm/src/enterprise_device_mgr_ability.cpp:468-522 | the error for each failed check; ERR_OK iff every check passes; on success the admin is set with its granted permissions and EDM is enabled; on failure nothing changes |
| EnterpriseDeviceMgr.EnterpriseDeviceMgrAbility.UpdateDevicePolicy | services/edm/src/enterprise_device_mgr_ability.cpp:756-788 | the user's store becomes the update outcome; the pointers return to user 100 only on success |
| EnterpriseDeviceMgr.EnterpriseDeviceMgrAbility.HandleDevicePolicy | services/edm/src/enterprise_device_mgr_ability.cpp:790-822 | a rejected request returns its code and changes nothing; an accepted one is UpdateDevicePolicy on the plugin in the user's store: the store, the code and the global flag are its outcome, and both pointers return to user 100 exactly when it switched back, staying on the user otherwise |
| EnterpriseDeviceMgr.EnterpriseDeviceMgrAbility.GetDevicePolicy | services/edm/src/enterprise_device_mgr_ability.cpp:824-866 | a rejected request returns its code and changes nothing; an accepted one reads the stored value of the user's store and returns the plugin's code |
| EnterpriseDeviceMgr.EnterpriseDeviceMgrAbility.GetEnabledAdmin | services/edm/src/enterprise_device_mgr_ability.cpp:868-896 | an out-of-range role is a parameter error; otherwise the enabled packages of the role are prepended |
| EnterpriseDeviceMgr.EnterpriseDeviceMgrAbility.GetEnterpriseInfo | services/edm/src/enterprise_device_mgr_ability.cpp:898-913 | ERR_OK with the admin's info iff the admin exists in the caller's account, else ADMIN_INACTIVE |
| EnterpriseDeviceMgr.EnterpriseDeviceMgrAbility.SetEnterpriseInfo | services/edm/src/enterprise_device_mgr_ability.cpp:915-934 | ERR_OK iff the permission holds, the admin exists and the caller is its bundle; the info then reads back; otherwise nothing changes |
| EnterpriseDeviceMgr.EnterpriseDeviceMgrAbility.IsSuperAdmin | services/edm/src/enterprise_device_mgr_ability.cpp:702-715 | true iff user 100 has an ENT admin with the package, which is then GetSuperAdmin |
| EnterpriseDeviceMgr.EnterpriseDeviceMgrAbility.IsAdminEnabled | services/edm/src/enterprise_device_mgr_ability.cpp:717-726 | true iff the account has an admin with the bundle name |
| EnterpriseDeviceMgr.EnterpriseDeviceMgrAbility.SubscribeManagedEvent | services/edm/src/enterprise_device_mgr_ability.cpp:952-962 | a failed check returns its code and changes nothing; otherwise the observer follows the event outcome and the events are saved only when that succeeds |
| EnterpriseDeviceMgr.EnterpriseDeviceMgrAbility.UnsubscribeManagedEvent | services/edm/src/enterprise_device_mgr_ability.cpp:964-973 | a failed check returns its code and changes nothing; otherwise the events are removed, then the observer follows the event outcome |

## Left out

- The service mutex, Dump, OnStart's Publish and the system-ability listeners are not modelled. There is no concurrency and no IPC in the model.
- The function-pointer event maps of the common-event and system-ability handlers are left out. Only the handlers themselves are modelled.
- ConnectAbility and the enterprise connection manager's admin notifications are left out. They call into another process and their results are ignored.
- SetParameter of `persist.edm.edm_enable` is modelled as the `edmEnabled` field. The system parameter store itself is left out.
- The bundle manager, access-token and OS-account calls are parameters. A `Caller` carries the permissions, calling bundle, current user and existing users; a `BundleAnswers` value carries the bundle manager's answers.
- The directory listing of the policy directory is a parameter: the list of file paths.
- The plugins' OnAdminRemove, OnAdminRemoveDone, OnHandlePolicyDone and OnGetPolicy hooks are left out, except that OnGetPolicy's result is a function parameter. So are the plugins' merge and handle functions, which are parameters; a failing SetPolicy is a `failing` set of policy names.
- The bodies of AdminManager and PolicyManager are not part of this model. admin_manager.cpp and policy_manager.cpp are modelled only through the results the service uses, as `admin_registry.dfy` and `policy_store.dfy`.
- EnableAdmin asks the bundle manager for the extension ability; the model assumes the ability found is the requested admin component.
- The RDB engine is reduced to an `engineOk` outcome per statement. A rejected statement leaves the table as it was; partial writes are not modelled.
- JsonColumn.ReadStringArray: whitespace between tokens, non-string elements and the partial value of a failed parse are not modelled; a text it does not accept reads as the empty list.
- JsonColumn.ParseUnicode refuses a lone low surrogate, where jsoncpp's reader passes it through.
- AbilityRules.CheckManagedEvent assumes the managed events are the values 0 to 3. managed_event.h is not part of this model.
- EdmErrors: the module offsets come from the values stated in the header's comments, because ErrCodeOffset is not part of this model.
- Ids and error codes are unbounded integers. The int32 width matters only in the policy-file filter, where INT32_MAX is modelled explicitly.
- EnterpriseDeviceMgr.EnterpriseDeviceMgrAbility.RemoveAdmin: the iteration order of the admin's policy map is modelled as any order, so a failure leaves an unspecified strict subset of the items unwound.
- The plugins' MergePolicyData reads the store the policy manager instance points at. The model's merge parameter is one function of the admin and the policy name, so a merged value cannot depend on which account's store is current.
- EnterpriseDeviceMgr.EnterpriseDeviceMgrAbility.OnCommonEventUserRemoved: the contract bounds the removed account's store (no policy name is added) but does not give its contents; what each removal does to that store is stated by RemoveAdminOfAccount.
- EnterpriseDeviceMgr.EnterpriseDeviceMgrAbility.DisableAdmin unwinds the policies of the store `policyMgr_` points at, not the store of `userId`. That is user 100's store after start-up and after every successful policy SET. A SET whose OnHandlePolicy or MergePolicyData fails returns (source lines 766-778) before the reset to user 100 at line 785, and leaves `policyMgr_` on the target account's store; a later DisableAdmin then unwinds that store. The model follows the code in both places.

## Findings

| source | as written | input that shows it | evidently intended | confidence | as-written member | corrected member |
|---|---|---|---|---|---|---|
| services/edm/src/enterprise_device_mgr_ability.cpp:269-277 | the digits between the prefix `device_policies_` and the first dot go to std::stoi unchecked (AbilityRules.PolicyFileUserAsWritten) | a file `device_policies_.json` in the policy directory: the digit string is empty and std::stoi throws during start-up (so do digits beyond the int range) | skip a file whose user part is not a number in range | not executed | AbilityRules.EmptyUserPolicyFileAborts | AbilityRules.PolicyFileNameRoundTrip |
| services/edm/src/enterprise_device_mgr_ability.cpp:593-600 | ShouldUnsubscribeAppState dereferences the admin returned by GetAdminByPkgName without a null check (AbilityRules.ShouldUnsubscribeAppStateAsWritten, which requires the admin to exist) | DisableSuperAdmin when user 0's store exists (an ENT SET or a GET with userId 0 creates it): stores are visited in descending order, so user 100 deletes the super-admin first, then the store of user 0 runs RemoveAdmin, which finds no admin and dereferences null (AbilityRules.SuperAdminRemovalReachesMissingAdmin is that state, shown on one registry). With the null check in place the null dereference is gone, but DeleteAdmin still fails in user 0, so DisableSuperAdmin returns DISABLE_ADMIN_FAILED after it has already deleted the super-admin (EnterpriseDeviceMgr.LowerStoreFailsTurn with DisableSuperAdmin's contract) | answer false when the admin is absent | not executed | AbilityRules.SuperAdminRemovalReachesMissingAdmin | AbilityRules.ShouldUnsubscribeAppState |
