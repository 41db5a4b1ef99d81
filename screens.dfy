/**
 * The screen map: a closed set of screens and the three keys that name them. `Lookup` is
 * the lookup on the map's own keys; `PropertyOf` is what indexing the plain object
 * `ScreenMap[key]` yields in JavaScript, where names inherited from `Object.prototype`
 * are found as well.
 */
module Screens {
  import opened Wrappers

  datatype Screen = DefaultScreen | OrdersList

  /** "overview" and "projects" are commented out of the map. */
  const ScreenMap: map<string, Screen> := map["default" := DefaultScreen, "ecommerce" := DefaultScreen, "orders" := OrdersList]

  /** The screen a key names, if any. */
  function Lookup(key: string): (r: Option<Screen>)
    ensures r.Some? <==> key == "default" || key == "ecommerce" || key == "orders"
    ensures r == Some(OrdersList) <==> key == "orders"
    ensures r == Some(DefaultScreen) <==> key == "default" || key == "ecommerce"
  {
    if key in ScreenMap then Some(ScreenMap[key]) else None
  }

  /** The names every plain object inherits from `Object.prototype`. */
  const ObjectPrototypeMembers: set<string> := {
    "constructor", "hasOwnProperty", "isPrototypeOf", "propertyIsEnumerable",
    "toLocaleString", "toString", "valueOf", "__proto__",
    "__defineGetter__", "__defineSetter__", "__lookupGetter__", "__lookupSetter__"}

  /** The value of `ScreenMap[key]`: an own entry, an inherited function or object, or `undefined`. */
  datatype Property = OwnScreen(screen: Screen) | Inherited(name: string) | Undefined

  function PropertyOf(key: string): (p: Property)
    ensures p.OwnScreen? <==> Lookup(key).Some?
    ensures p.OwnScreen? ==> Lookup(key) == Some(p.screen)
    ensures p.Inherited? <==> key in ObjectPrototypeMembers
  {
    if key in ScreenMap then OwnScreen(ScreenMap[key])
    else if key in ObjectPrototypeMembers then Inherited(key)
    else Undefined
  }

  /** Whether `ScreenMap[key]` is truthy: every own entry and every inherited member is. */
  predicate Truthy(p: Property): (b: bool)
    ensures b <==> p.OwnScreen? || p.Inherited?
  {
    !p.Undefined?
  }

  /** `!ScreenMap[key]` holds exactly for the keys that are neither own keys nor inherited names. */
  lemma FalsyIffUnknown(key: string)
    ensures !Truthy(PropertyOf(key)) <==> Lookup(key).None? && key !in ObjectPrototypeMembers
  {
  }
}
