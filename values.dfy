/**
 * Values, runtime type references and error outcomes shared by the
 * parameterised-test data layer.
 *
 * A C# `object?` is a `Value` (with `Null`); a C# `object?[]` reference,
 * which may itself be null, is an `ObjArray`.
 */
module Values {

  datatype Option<+T> = None | Some(value: T)

  /** Index of a type in a reflection universe (see module Reflection). */
  type TypeId = nat

  /** What `GetType()` reports for a non-null object, and what a parameter declares. */
  datatype TypeRef = Int32Type | StringType | ObjectArrayType | Declared(id: TypeId)

  /** A boxed test argument. */
  datatype Value =
    | Null
    | Int(i: int)
    | Str(s: string)
    | Array(items: seq<Value>)
    | Object(runtimeType: TypeId, identity: nat)

  /** A C# `object?[]` reference: `None` is the null reference. */
  type ObjArray = Option<seq<Value>>

  /** The exceptions this layer throws. */
  datatype Error =
    | ArgumentNull(paramName: string)
    | AmbiguousMember(typeName: string, memberName: string, optionCount: nat)

  /** A value-returning operation that may throw. */
  datatype Result<+T> = Ok(value: T) | Err(error: Error)

  /** A void operation that may throw. */
  datatype Outcome = Pass | Fail(error: Error)

  /** `arg?.GetType()`: the runtime type of a non-null value, `None` for null. */
  function RuntimeType(v: Value): (t: Option<TypeRef>)
    ensures t.None? <==> v.Null?
    ensures v.Object? ==> t == Some(Declared(v.runtimeType))
  {
    match v
    case Null => None
    case Int(_) => Some(Int32Type)
    case Str(_) => Some(StringType)
    case Array(_) => Some(ObjectArrayType)
    case Object(t, _) => Some(Declared(t))
  }

  /** `a ?? []`: a null array reads as the empty one. */
  function OrEmpty(a: ObjArray): seq<Value> {
    if a.Some? then a.value else []
  }

  /**
   * The index of the first element satisfying `p`, or `|s|` when there is
   * none (LINQ `FirstOrDefault`, and the first element at which a `foreach`
   * stops).
   */
  function FirstIndex<T>(s: seq<T>, p: T -> bool): (k: nat)
    ensures k <= |s|
    ensures forall j :: 0 <= j < k ==> !p(s[j])
    ensures k < |s| ==> p(s[k])
    decreases |s|
  {
    if s == [] then 0
    else if p(s[0]) then 0
    else 1 + FirstIndex(s[1..], p)
  }

  /** No element occurs twice. */
  predicate NoDuplicates<T(==)>(s: seq<T>) {
    forall j, k :: 0 <= j < k < |s| ==> s[j] != s[k]
  }
}
