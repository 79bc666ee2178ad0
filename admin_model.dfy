/**
 * The administrator record shared by the row store and the engine: its
 * type, component identity, enterprise information, granted permissions and
 * subscribed managed events.
 */
module AdminModel {
  import opened JsonColumn

  /**
   * AdminType. The C++ enumeration can carry a value outside its three
   * enumerators after a cast from an integer; OutOfRange stands for any such value.
   */
  datatype AdminType = Normal | Ent | Unknown | OutOfRange

  datatype EntInfo = EntInfo(enterpriseName: string, description: string)

  /** The component an administrator is enabled through: its bundle and its ability class. */
  datatype AbilityInfo = AbilityInfo(bundleName: string, name: string)

  datatype Admin = Admin(
    adminType: AdminType,
    packageName: string,
    className: string,
    entInfo: EntInfo,
    permissions: seq<string>,
    managedEvents: seq<uint32>)

  /**
   * ManagedEvent. The numeric values of the enumerators are not part of this
   * model's sources; they are taken to be 0 to 3 in declaration order.
   */
  const BUNDLE_ADDED: uint32 := 0
  const BUNDLE_REMOVED: uint32 := 1
  const APP_START: uint32 := 2
  const APP_STOP: uint32 := 3

  predicate IsAppStateEvent(e: uint32) { e == APP_START || e == APP_STOP }

  /** Admin::CheckPermission: the permission is among the granted ones. */
  predicate CheckPermission(a: Admin, permission: string) { permission in a.permissions }

  /** The admin listens to an application start or stop event. */
  predicate SubscribesAppState(a: Admin)
  {
    exists i :: 0 <= i < |a.managedEvents| && IsAppStateEvent(a.managedEvents[i])
  }
}
