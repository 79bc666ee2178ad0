/**
 * The plugin interface the engine dispatches to (IPlugin, PluginManager).
 * Plugin bodies are not part of this model: a plugin is a descriptor, and
 * what its handle, merge and get steps compute is given to the engine as
 * results.
 */
module PluginModel {
  import opened JsonColumn

  datatype Plugin = Plugin(
    code: uint32,
    policyName: string,
    getPermission: string,
    setPermission: string,
    needSavePolicy: bool)

  /** PluginManager: the plugins by function code (GetPluginByFuncCode) and by policy name. */
  datatype PluginManager = PluginManager(byCode: map<uint32, Plugin>, byName: map<string, Plugin>)

  /** A code that FAILED(...) accepts. */
  type Failure = e: int | e != 0 witness 1

  /** OnHandlePolicy: the admin's new raw value and whether it changed, or a plugin error. */
  datatype HandleResult = Handled(policyValue: string, isChanged: bool) | HandleFailed(err: Failure)

  /** MergePolicyData: the merged value, or a plugin error. */
  datatype MergeResult = Merged(mergedPolicy: string) | MergeFailed(err: Failure)

  /**
   * MergePolicyData of the plugin that owns a policy name, applied to an
   * admin's name and that admin's new raw value ("" when the admin is being removed).
   */
  type Merger = (string, string, string) -> MergeResult
}
