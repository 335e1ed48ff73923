/**
 * The read-only overlay of animated and overridden property values
 * (ImmutableModificationsContainer). Its construction is not part of this
 * model; the core only queries it.
 */
module Modifications {
  import opened Wrappers
  import opened SceneModel

  /** An object a property belongs to: a GameObject (by its Transform) or a component. */
  datatype Target = GameObjectOf(transform: Comp) | ComponentOf(component: Comp)

  /** A modified property either always takes one constant value or varies at runtime. */
  datatype PropertyState = Constant(value: bool) | Variable

  type ModificationsContainer = map<Target, map<string, PropertyState>>

  /** The properties of `target` that are animated or overridden; empty when none are. */
  function GetModifiedProperties(mods: ModificationsContainer, target: Target): (r: map<string, PropertyState>)
    ensures target !in mods ==> r == map[]
  {
    if target in mods then mods[target] else map[]
  }

  /**
   * The value a boolean property is known to have: the current value when the
   * property is not modified, the constant when it is modified to a constant,
   * and None (C#'s null) when its value varies.
   */
  function GetConstantValue(mods: ModificationsContainer, target: Target, property: string, currentValue: bool)
    : (r: Option<bool>)
    ensures property !in GetModifiedProperties(mods, target) ==> r == Some(currentValue)
    ensures r.None? <==> property in GetModifiedProperties(mods, target) && GetModifiedProperties(mods, target)[property].Variable?
  {
    var properties := GetModifiedProperties(mods, target);
    if property !in properties then Some(currentValue)
    else match properties[property]
      case Constant(v) => Some(v)
      case Variable => None
  }
}
