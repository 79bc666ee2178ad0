/**
 * The per-user policy store (PolicyManager) as the engine uses it. For each
 * policy name a record holds every holder admin's raw value and the merged
 * value, "" standing for no merged value. The store's semantics are taken
 * from the engine's calls: a write with an empty admin value drops that
 * admin's value, a write with an empty merged value drops the merged value,
 * and a record with neither holders nor merged value is deleted.
 */
module PolicyManagerModel {
  import opened Wrappers

  datatype PolicyRecord = PolicyRecord(holders: map<string, string>, merged: string)

  datatype PolicyStore = PolicyStore(records: map<string, PolicyRecord>)

  const EmptyStore: PolicyStore := PolicyStore(map[])

  function RecordOf(s: PolicyStore, policyName: string): Option<PolicyRecord>
  {
    if policyName in s.records then Some(s.records[policyName]) else None
  }

  /** Puts a record back under its name, or deletes the name for None. */
  function PutRecord(s: PolicyStore, policyName: string, rec: Option<PolicyRecord>): PolicyStore
  {
    match rec
    case None => PolicyStore(s.records - {policyName})
    case Some(r) => PolicyStore(s.records[policyName := r])
  }

  /** GetPolicy(adminName, policyName): the admin's raw value, the merged value for "", and "" when absent. */
  function GetPolicy(s: PolicyStore, adminName: string, policyName: string): string
  {
    match RecordOf(s, policyName)
    case None => ""
    case Some(r) =>
      if adminName == "" then r.merged
      else if adminName in r.holders then r.holders[adminName]
      else ""
  }

  /** GetAllPolicyByAdmin: every policy the admin holds a raw value for, with that value. */
  function GetAllPolicyByAdmin(s: PolicyStore, adminName: string): map<string, string>
  {
    map n | n in s.records && adminName in s.records[n].holders :: s.records[n].holders[adminName]
  }

  /** GetAdminByPolicyName: the holders of a policy; None is ERR_EDM_POLICY_NOT_FOUND. */
  function GetAdminByPolicyName(s: PolicyStore, policyName: string): Option<map<string, string>>
  {
    match RecordOf(s, policyName)
    case None => None
    case Some(r) => Some(r.holders)
  }

  function HoldersOf(rec: Option<PolicyRecord>): map<string, string>
  {
    if rec.Some? then rec.value.holders else map[]
  }

  /**
   * The effect of SetPolicy on one record: the admin's holder entry is set
   * (or dropped for an empty value, or left alone for the empty admin name),
   * the merged value is replaced, and an empty record disappears.
   */
  function SetRecord(rec: Option<PolicyRecord>, adminName: string, adminValue: string, merged: string)
    : (r: Option<PolicyRecord>)
    ensures r.Some? ==> r.value.merged == merged && (r.value.holders != map[] || merged != "")
    ensures adminName != "" && adminValue != "" ==> r == Some(PolicyRecord(HoldersOf(rec)[adminName := adminValue], merged))
    ensures adminName != "" && adminValue == "" ==>
      HoldersOf(r) == HoldersOf(rec) - {adminName} && (r.None? <==> merged == "" && HoldersOf(r) == map[])
    ensures adminName == "" ==> HoldersOf(r) == HoldersOf(rec) && (r.None? <==> merged == "" && HoldersOf(rec) == map[])
  {
    var before := HoldersOf(rec);
    var holders :=
      if adminName == "" then before
      else if adminValue == "" then before - {adminName}
      else before[adminName := adminValue];
    assert adminName != "" && adminValue != "" ==> adminName in holders;
    if holders == map[] && merged == "" then None
    else Some(PolicyRecord(holders, merged))
  }

  /** SetPolicy(adminName, policyName, adminValue, mergedValue). */
  function SetPolicy(s: PolicyStore, adminName: string, policyName: string, adminValue: string, merged: string)
    : PolicyStore
  {
    PutRecord(s, policyName, SetRecord(RecordOf(s, policyName), adminName, adminValue, merged))
  }

  /** A write by an admin reads back as that admin's value and the merged value, and touches no other policy. */
  lemma SetThenGet(s: PolicyStore, adminName: string, policyName: string, adminValue: string, merged: string)
    requires adminName != "" && adminValue != ""
    ensures GetPolicy(SetPolicy(s, adminName, policyName, adminValue, merged), adminName, policyName) == adminValue
    ensures GetPolicy(SetPolicy(s, adminName, policyName, adminValue, merged), "", policyName) == merged
    ensures forall n :: n != policyName ==>
      RecordOf(SetPolicy(s, adminName, policyName, adminValue, merged), n) == RecordOf(s, n)
  {
  }

  /**
   * A write with an empty admin value removes that admin's value and keeps
   * every other holder's; with an empty merged value and no holder left the
   * whole record is gone.
   */
  lemma DropHolder(s: PolicyStore, adminName: string, policyName: string, merged: string)
    requires adminName != ""
    ensures var t := SetPolicy(s, adminName, policyName, "", merged);
      policyName !in GetAllPolicyByAdmin(t, adminName) &&
      (forall a :: a != "" && a != adminName && policyName in s.records && a in s.records[policyName].holders ==>
        GetPolicy(t, a, policyName) == GetPolicy(s, a, policyName)) &&
      (merged == "" && policyName in s.records && s.records[policyName].holders.Keys <= {adminName} ==>
        policyName !in t.records)
  {
    var t := SetPolicy(s, adminName, policyName, "", merged);
    forall a | a != "" && a != adminName && policyName in s.records && a in s.records[policyName].holders
      ensures GetPolicy(t, a, policyName) == GetPolicy(s, a, policyName)
    {
      var r := SetRecord(RecordOf(s, policyName), adminName, "", merged);
      assert HoldersOf(r) == s.records[policyName].holders - {adminName};
      assert a in HoldersOf(r) && r.Some?;
      assert RecordOf(t, policyName) == r;
      assert r.value.holders[a] == s.records[policyName].holders[a];
    }
  }

  /** SetPolicy("", name, "", "") on a policy without holders deletes its record. */
  lemma DeleteRecord(s: PolicyStore, policyName: string)
    requires GetAdminByPolicyName(s, policyName).None? || GetAdminByPolicyName(s, policyName).value == map[]
    ensures policyName !in SetPolicy(s, "", policyName, "", "").records
    ensures forall n :: n != policyName ==> RecordOf(SetPolicy(s, "", policyName, "", ""), n) == RecordOf(s, n)
  {
  }
}
