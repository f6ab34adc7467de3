/**
 * The part of the CLR reflection surface that the spreader touches, reduced to
 * plain data: runtime types, property descriptors, boxed values and objects.
 * Everything reflection would compute at run time (the property list of a type,
 * `Type.IsAssignableFrom`, the value `new T()` leaves in a property, whether a
 * setter throws) is supplied by a `Host` record of functions.
 */
module Reflection {
  import opened Wrappers

  /** A runtime type, identified by its full name; equality is type identity. */
  datatype TypeId = TypeId(fullName: string)

  /** A property value as reflection hands it out, boxed. */
  datatype Value = Null | Int(i: int) | Str(s: string) | Bool(b: bool) | Ref(id: nat)

  /** One element of the array `Type.GetProperties(Public | Instance)` returns. */
  datatype PropDesc = PropDesc(name: string, declType: TypeId, canRead: bool, canWrite: bool)

  /** An object's property values, keyed by property name. */
  type Obj = map<string, Value>

  /**
   * A non-null source object: its runtime type and what its getters return.
   * A readable property whose name has no entry in `values` has a getter that throws.
   */
  datatype Source = Source(runtimeType: TypeId, values: Obj)

  /**
   * The runtime the spreader runs against.
   *  - introspect(t): the public instance properties of `t`, in enumeration order;
   *  - accepts(target, source): `target.IsAssignableFrom(source)`;
   *  - zero(t): the value a freshly constructed object holds in a property of type `t`;
   *  - setFails(tp, v): `tp.SetValue(result, v)` throws.
   */
  datatype Host = Host(
    introspect: TypeId -> seq<PropDesc>,
    accepts: (TypeId, TypeId) -> bool,
    zero: TypeId -> Value,
    setFails: (PropDesc, Value) -> bool)

  /** `sp.GetValue(src)`: `None` when the getter throws. */
  function GetValue(src: Source, sp: PropDesc): Option<Value> {
    if sp.name in src.values then Some(src.values[sp.name]) else None
  }

  /** The names a property list declares. */
  function Names(props: seq<PropDesc>): set<string> {
    set i | 0 <= i < |props| :: props[i].name
  }
}
