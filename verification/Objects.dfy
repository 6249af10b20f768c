/** Plain JavaScript objects used as tables. */
module Objects {

  /** The properties an empty object already has, of which all are true in a condition. */
  const INHERITED: set<string> := {
    "constructor", "hasOwnProperty", "isPrototypeOf", "propertyIsEnumerable", "toLocaleString", "toString", "valueOf",
    "__defineGetter__", "__defineSetter__", "__lookupGetter__", "__lookupSetter__", "__proto__"}

  predicate Inherited(name: string) { name in INHERITED }
}
