/**
 * The error-code table of the enterprise device management service
 * (common/native/include/edm_errors.h): the codes returned to callers, the
 * per-module bands of internal codes, and the early-return macro.
 */
module EdmErrors {
  import opened Wrappers

  /** ERR_OK of the platform's errors.h; FAILED(c) means c != ERR_OK. */
  const ERR_OK: int := 0

  predicate Failed(code: int) { code != ERR_OK }

  // Module identifiers.
  const EDM_MODULE_EDMSERVICE: int := 0x00
  const EDM_MODULE_ADMINMGR: int := 0x02
  const EDM_MODULE_POLICYMGR: int := 0x03
  const EDM_MODULE_PLUGINMGR: int := 0x04

  // EdmReturnErrCode: the generic band.
  const PARAM_ERROR: int := 401
  const PERMISSION_DENIED: int := 201
  const SYSTEM_API_DENIED: int := 202
  const INTERFACE_UNSUPPORTED: int := 801

  // EdmReturnErrCode: the engine band.
  const ADMIN_INACTIVE: int := 9200001
  const ADMIN_EDM_PERMISSION_DENIED: int := 9200002
  const COMPONENT_INVALID: int := 9200003
  const ENABLE_ADMIN_FAILED: int := 9200004
  const DISABLE_ADMIN_FAILED: int := 9200005
  const UID_INVALID: int := 9200006
  const SYSTEM_ABNORMALLY: int := 9200007
  const MANAGED_EVENTS_INVALID: int := 9200008

  /**
   * Module offsets. ErrCodeOffset belongs to the platform and is not part of
   * this model; the values are the ones the header states beside each offset.
   */
  const EDM_SERVICE_ERR_OFFSET: int := 0x2000000
  const EDM_ADMINMGR_ERR_OFFSET: int := 0x2020000
  const EDM_POLICYMGR_ERR_OFFSET: int := 0x2030000
  const EDM_PLUGINMGR_ERR_OFFSET: int := 0x2040000

  // Service band: consecutive enumerators starting at offset + 1.
  const ERR_EDM_SERVICE_NOT_READY: int := EDM_SERVICE_ERR_OFFSET + 1
  const ERR_EDM_PARAM_ERROR: int := ERR_EDM_SERVICE_NOT_READY + 1
  const ERR_EDM_PERMISSION_ERROR: int := ERR_EDM_PARAM_ERROR + 1
  const ERR_EDM_ADD_ADMIN_FAILED: int := ERR_EDM_PERMISSION_ERROR + 1
  const ERR_EDM_DEL_ADMIN_FAILED: int := ERR_EDM_ADD_ADMIN_FAILED + 1
  const ERR_EDM_GET_PERMISSION_REQ_FAILED: int := ERR_EDM_DEL_ADMIN_FAILED + 1
  const ERR_EDM_GET_PLUGIN_MGR_FAILED: int := ERR_EDM_GET_PERMISSION_REQ_FAILED + 1
  const ERR_EDM_GET_ADMIN_MGR_FAILED: int := ERR_EDM_GET_PLUGIN_MGR_FAILED + 1
  const ERR_EDM_HANDLE_POLICY_FAILED: int := ERR_EDM_GET_ADMIN_MGR_FAILED + 1
  const ERR_EDM_GET_POLICY_FAILED: int := ERR_EDM_HANDLE_POLICY_FAILED + 1
  const ERR_EDM_BMS_ERROR: int := ERR_EDM_GET_POLICY_FAILED + 1
  const ERR_EDM_DEL_SUPER_ADMIN_FAILED: int := ERR_EDM_BMS_ERROR + 1
  const ERR_EDM_GET_ENTINFO_FAILED: int := ERR_EDM_DEL_SUPER_ADMIN_FAILED + 1
  const ERR_EDM_SET_ENTINFO_FAILED: int := ERR_EDM_GET_ENTINFO_FAILED + 1
  const ERR_EDM_DUMP_FAILED: int := ERR_EDM_SET_ENTINFO_FAILED + 1

  // Admin-manager band.
  const ERR_EDM_UNKNOWN_PERMISSION: int := EDM_ADMINMGR_ERR_OFFSET + 0x0001
  const ERR_EDM_EMPTY_PERMISSIONS: int := EDM_ADMINMGR_ERR_OFFSET + 0x0002
  const ERR_EDM_DENY_ADMIN: int := EDM_ADMINMGR_ERR_OFFSET + 0x0003
  const ERR_EDM_DENY_PERMISSION: int := EDM_ADMINMGR_ERR_OFFSET + 0x0004
  const ERR_EDM_UNKNOWN_ADMIN: int := EDM_ADMINMGR_ERR_OFFSET + 0x0005

  // Policy-manager band.
  const ERR_EDM_POLICY_OPEN_JSON_FAILED: int := EDM_POLICYMGR_ERR_OFFSET + 1
  const ERR_EDM_POLICY_LOAD_JSON_FAILED: int := EDM_POLICYMGR_ERR_OFFSET + 2
  const ERR_EDM_POLICY_PARSE_JSON_FAILED: int := EDM_POLICYMGR_ERR_OFFSET + 3
  const ERR_EDM_POLICY_NOT_FIND: int := EDM_POLICYMGR_ERR_OFFSET + 4
  const ERR_EDM_POLICY_SET_FAILED: int := EDM_POLICYMGR_ERR_OFFSET + 5
  const ERR_EDM_POLICY_NOT_FOUND: int := EDM_POLICYMGR_ERR_OFFSET + 6
  const ERR_EDM_POLICY_DEL_FAILED: int := EDM_POLICYMGR_ERR_OFFSET + 7

  // Plugin-manager band.
  const ERR_EDM_OPERATE_JSON: int := EDM_PLUGINMGR_ERR_OFFSET + 1
  const ERR_EDM_WRITE_JSON: int := EDM_PLUGINMGR_ERR_OFFSET + 2
  const ERR_EDM_READ_PARCEL: int := EDM_PLUGINMGR_ERR_OFFSET + 3
  const ERR_EDM_OPERATE_PARCEL: int := EDM_PLUGINMGR_ERR_OFFSET + 4
  const ERR_EDM_NOT_EXIST_POLICY: int := EDM_PLUGINMGR_ERR_OFFSET + 5
  const ERR_EDM_NOT_EXIST_FUNC: int := EDM_PLUGINMGR_ERR_OFFSET + 6

  const GenericBand: seq<int> := [PERMISSION_DENIED, SYSTEM_API_DENIED, PARAM_ERROR, INTERFACE_UNSUPPORTED]

  const EngineBand: seq<int> :=
    [ADMIN_INACTIVE, ADMIN_EDM_PERMISSION_DENIED, COMPONENT_INVALID, ENABLE_ADMIN_FAILED,
     DISABLE_ADMIN_FAILED, UID_INVALID, SYSTEM_ABNORMALLY, MANAGED_EVENTS_INVALID]

  const ServiceBand: seq<int> :=
    [ERR_EDM_SERVICE_NOT_READY, ERR_EDM_PARAM_ERROR, ERR_EDM_PERMISSION_ERROR, ERR_EDM_ADD_ADMIN_FAILED,
     ERR_EDM_DEL_ADMIN_FAILED, ERR_EDM_GET_PERMISSION_REQ_FAILED, ERR_EDM_GET_PLUGIN_MGR_FAILED,
     ERR_EDM_GET_ADMIN_MGR_FAILED, ERR_EDM_HANDLE_POLICY_FAILED, ERR_EDM_GET_POLICY_FAILED,
     ERR_EDM_BMS_ERROR, ERR_EDM_DEL_SUPER_ADMIN_FAILED, ERR_EDM_GET_ENTINFO_FAILED,
     ERR_EDM_SET_ENTINFO_FAILED, ERR_EDM_DUMP_FAILED]

  const AdminMgrBand: seq<int> :=
    [ERR_EDM_UNKNOWN_PERMISSION, ERR_EDM_EMPTY_PERMISSIONS, ERR_EDM_DENY_ADMIN,
     ERR_EDM_DENY_PERMISSION, ERR_EDM_UNKNOWN_ADMIN]

  const PolicyMgrBand: seq<int> :=
    [ERR_EDM_POLICY_OPEN_JSON_FAILED, ERR_EDM_POLICY_LOAD_JSON_FAILED, ERR_EDM_POLICY_PARSE_JSON_FAILED,
     ERR_EDM_POLICY_NOT_FIND, ERR_EDM_POLICY_SET_FAILED, ERR_EDM_POLICY_NOT_FOUND,
     ERR_EDM_POLICY_DEL_FAILED]

  const PluginMgrBand: seq<int> :=
    [ERR_EDM_OPERATE_JSON, ERR_EDM_WRITE_JSON, ERR_EDM_READ_PARCEL, ERR_EDM_OPERATE_PARCEL,
     ERR_EDM_NOT_EXIST_POLICY, ERR_EDM_NOT_EXIST_FUNC]

  /** Every code of the table, in ascending numeric order. */
  const AllCodes: seq<int> :=
    GenericBand + EngineBand + ServiceBand + AdminMgrBand + PolicyMgrBand + PluginMgrBand

  /** s[i] == base + i for every index: the band is consecutive from base. */
  predicate ConsecutiveFrom(s: seq<int>, base: int)
  {
    forall i :: 0 <= i < |s| ==> s[i] == base + i
  }

  predicate AdjacentIncreasing(s: seq<int>)
  {
    forall k :: 0 <= k < |s| - 1 ==> s[k] < s[k + 1]
  }

  predicate AllDistinct(s: seq<int>)
  {
    forall i, j :: 0 <= i < j < |s| ==> s[i] != s[j]
  }

  /** The range a module's codes may occupy: above its offset, below the next module's. */
  predicate InModuleRange(code: int, offset: int)
  {
    offset < code < offset + 0x10000
  }

  lemma EngineBandLayout()
    ensures |EngineBand| == 8 && ConsecutiveFrom(EngineBand, 9200001)
  {
  }

  lemma ServiceBandLayout()
    ensures |ServiceBand| == 15 && ConsecutiveFrom(ServiceBand, EDM_SERVICE_ERR_OFFSET + 1)
    ensures ERR_EDM_DUMP_FAILED == EDM_SERVICE_ERR_OFFSET + 15
  {
  }

  lemma ModuleBandsLayout()
    ensures |AdminMgrBand| == 5 && ConsecutiveFrom(AdminMgrBand, EDM_ADMINMGR_ERR_OFFSET + 1)
    ensures |PolicyMgrBand| == 7 && ConsecutiveFrom(PolicyMgrBand, EDM_POLICYMGR_ERR_OFFSET + 1)
    ensures |PluginMgrBand| == 6 && ConsecutiveFrom(PluginMgrBand, EDM_PLUGINMGR_ERR_OFFSET + 1)
  {
  }

  /** The four offsets are the service offset plus the module id in bits 16..20. */
  lemma OffsetsFollowModuleIds()
    ensures EDM_SERVICE_ERR_OFFSET == 0x2000000 + EDM_MODULE_EDMSERVICE * 0x10000
    ensures EDM_ADMINMGR_ERR_OFFSET == 0x2000000 + EDM_MODULE_ADMINMGR * 0x10000
    ensures EDM_POLICYMGR_ERR_OFFSET == 0x2000000 + EDM_MODULE_POLICYMGR * 0x10000
    ensures EDM_PLUGINMGR_ERR_OFFSET == 0x2000000 + EDM_MODULE_PLUGINMGR * 0x10000
  {
  }

  /** Each module's codes stay inside its own range, and no range meets the engine band. */
  lemma ModuleRangesDisjoint(code: int)
    ensures InModuleRange(code, EDM_SERVICE_ERR_OFFSET) ==>
      !InModuleRange(code, EDM_ADMINMGR_ERR_OFFSET) && !InModuleRange(code, EDM_POLICYMGR_ERR_OFFSET) &&
      !InModuleRange(code, EDM_PLUGINMGR_ERR_OFFSET) && code !in EngineBand && code !in GenericBand
    ensures InModuleRange(code, EDM_ADMINMGR_ERR_OFFSET) ==>
      !InModuleRange(code, EDM_POLICYMGR_ERR_OFFSET) && !InModuleRange(code, EDM_PLUGINMGR_ERR_OFFSET)
    ensures InModuleRange(code, EDM_POLICYMGR_ERR_OFFSET) ==> !InModuleRange(code, EDM_PLUGINMGR_ERR_OFFSET)
    ensures code in ServiceBand ==> InModuleRange(code, EDM_SERVICE_ERR_OFFSET)
    ensures code in AdminMgrBand ==> InModuleRange(code, EDM_ADMINMGR_ERR_OFFSET)
    ensures code in PolicyMgrBand ==> InModuleRange(code, EDM_POLICYMGR_ERR_OFFSET)
    ensures code in PluginMgrBand ==> InModuleRange(code, EDM_PLUGINMGR_ERR_OFFSET)
  {
  }

  lemma {:induction false} IncreasingIsDistinct(s: seq<int>)
    requires AdjacentIncreasing(s)
    ensures forall i, j :: 0 <= i < j < |s| ==> s[i] < s[j]
  {
    if |s| > 1 {
      IncreasingIsDistinct(s[1..]);
      forall i, j | 0 <= i < j < |s| ensures s[i] < s[j] {
        if i > 0 {
          assert s[i] == s[1..][i - 1] && s[j] == s[1..][j - 1];
        } else if j > 1 {
          assert s[1] == s[1..][0] && s[j] == s[1..][j - 1];
        }
      }
    }
  }

  lemma ConsecutiveIsIncreasing(s: seq<int>, base: int)
    requires ConsecutiveFrom(s, base)
    ensures AdjacentIncreasing(s)
  {
    forall k | 0 <= k < |s| - 1 ensures s[k] < s[k + 1] {
      assert s[k] == base + k && s[k + 1] == base + k + 1;
    }
  }

  /** Two increasing runs, the first ending below the start of the second, make one increasing run. */
  lemma ConcatIncreasing(a: seq<int>, b: seq<int>)
    requires AdjacentIncreasing(a) && AdjacentIncreasing(b)
    requires a != [] && b != [] && a[|a| - 1] < b[0]
    ensures AdjacentIncreasing(a + b)
  {
    var ab := a + b;
    forall k | 0 <= k < |ab| - 1 ensures ab[k] < ab[k + 1] {
      if k < |a| - 1 {
        assert ab[k] == a[k] && ab[k + 1] == a[k + 1];
      } else if k == |a| - 1 {
        assert ab[k] == a[|a| - 1] && ab[k + 1] == b[0];
      } else {
        assert ab[k] == b[k - |a|] && ab[k + 1] == b[k + 1 - |a|];
      }
    }
  }

  /** No two codes of the table share a value, ERR_OK among them. */
  lemma AllCodesDistinct()
    ensures |AllCodes| == 45
    ensures AllDistinct(AllCodes)
    ensures ERR_OK !in AllCodes
  {
    EngineBandLayout();
    ServiceBandLayout();
    ModuleBandsLayout();
    assert AdjacentIncreasing(GenericBand);
    ConsecutiveIsIncreasing(EngineBand, 9200001);
    ConsecutiveIsIncreasing(ServiceBand, EDM_SERVICE_ERR_OFFSET + 1);
    ConsecutiveIsIncreasing(AdminMgrBand, EDM_ADMINMGR_ERR_OFFSET + 1);
    ConsecutiveIsIncreasing(PolicyMgrBand, EDM_POLICYMGR_ERR_OFFSET + 1);
    ConsecutiveIsIncreasing(PluginMgrBand, EDM_PLUGINMGR_ERR_OFFSET + 1);
    var s1 := GenericBand + EngineBand;
    ConcatIncreasing(GenericBand, EngineBand);
    assert s1[|s1| - 1] == EngineBand[7];
    var s2 := s1 + ServiceBand;
    ConcatIncreasing(s1, ServiceBand);
    assert s2[|s2| - 1] == ServiceBand[14];
    var s3 := s2 + AdminMgrBand;
    ConcatIncreasing(s2, AdminMgrBand);
    assert s3[|s3| - 1] == AdminMgrBand[4];
    var s4 := s3 + PolicyMgrBand;
    ConcatIncreasing(s3, PolicyMgrBand);
    assert s4[|s4| - 1] == PolicyMgrBand[6];
    ConcatIncreasing(s4, PluginMgrBand);
    assert AllCodes == s4 + PluginMgrBand;
    IncreasingIsDistinct(AllCodes);
    assert AllCodes[0] == PERMISSION_DENIED;
  }

  /**
   * RETURN_IF_FAILED(code): Some(code) when the caller must return that very
   * code, None when it falls through to its next statement.
   */
  function ReturnIfFailed(code: int): (r: Option<int>)
    ensures r.Some? <==> Failed(code)
    ensures r.Some? ==> r.value == code
  {
    if Failed(code) then Some(code) else None
  }

  /**
   * A function body made of RETURN_IF_FAILED statements over the codes of its
   * steps, in order, followed by `return ERR_OK`.
   */
  function RunSteps(steps: seq<int>): (r: int)
    ensures r == ERR_OK <==> forall i :: 0 <= i < |steps| ==> steps[i] == ERR_OK
    ensures r != ERR_OK ==>
      exists i :: 0 <= i < |steps| && steps[i] == r && forall j :: 0 <= j < i ==> steps[j] == ERR_OK
  {
    if steps == [] then ERR_OK
    else match ReturnIfFailed(steps[0])
      case Some(code) => code
      case None =>
        var r := RunSteps(steps[1..]);
        assert forall i :: 1 <= i < |steps| ==> steps[i] == steps[1..][i - 1];
        r
  }
}
