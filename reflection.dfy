/**
 * An abstract type universe standing for what `System.Reflection` reports:
 * every type has a name, an optional base type, the interfaces it
 * implements and its runtime methods.
 */
module Reflection {
  import opened Values

  /** A runtime method: its name, whether it is static, its parameter types. */
  datatype MethodInfo = MethodInfo(name: string, isStatic: bool, parameters: seq<TypeRef>)

  /** A runtime type: `Name`, `BaseType`, `GetInterfaces()`, `GetRuntimeMethods()`. */
  datatype TypeInfo = TypeInfo(
    name: string,
    baseType: Option<TypeId>,
    interfaces: seq<TypeId>,
    methods: seq<MethodInfo>)

  /** The loaded types; a `TypeId` indexes this sequence. */
  type Universe = seq<TypeInfo>

  /**
   * Every reference stays inside the universe, and types are numbered so that
   * a base type precedes each type derived from it: this is how the model
   * says that every `BaseType` chain ends.
   */
  ghost predicate WellFormed(u: Universe) {
    forall t :: 0 <= t < |u| ==>
      && (u[t].baseType.Some? ==> u[t].baseType.value < t)
      && (forall j :: 0 <= j < |u[t].interfaces| ==> u[t].interfaces[j] < |u|)
  }

  /**
   * The types visited by `for (t = type; t is not null; t = t.BaseType)`:
   * they start at `t`, each one's base is the next, the last has no base,
   * and no type is visited twice.
   */
  function Chain(u: Universe, t: Option<TypeId>): (c: seq<TypeId>)
    requires WellFormed(u) && (t.Some? ==> t.value < |u|)
    ensures t.None? <==> c == []
    ensures t.Some? ==> c[0] == t.value
    ensures forall k :: 0 <= k < |c| ==> c[k] < |u|
    ensures c != [] ==> u[c[|c| - 1]].baseType.None?
    decreases if t.Some? then t.value + 1 else 0
  {
    match t
    case None => []
    case Some(id) => [id] + Chain(u, u[id].baseType)
  }

  /** Each type of the chain is followed by its base type. */
  lemma {:induction false} ChainLinks(u: Universe, t: Option<TypeId>)
    requires WellFormed(u) && (t.Some? ==> t.value < |u|)
    ensures forall k :: 0 <= k < |Chain(u, t)| - 1 ==> u[Chain(u, t)[k]].baseType == Some(Chain(u, t)[k + 1])
    decreases if t.Some? then t.value + 1 else 0
  {
    if t.Some? {
      var base := u[t.value].baseType;
      var rest := Chain(u, base);
      ChainLinks(u, base);
      var c := Chain(u, t);
      assert c == [t.value] + rest;
      forall k | 0 <= k < |c| - 1 ensures u[c[k]].baseType == Some(c[k + 1]) {
        if k == 0 {
          assert c[1] == rest[0];
        } else {
          assert c[k] == rest[k - 1] && c[k + 1] == rest[k];
        }
      }
    }
  }

  /** The set of a sequence's type ids, gathered front to back (a `HashSet` filled by `Add`). */
  function Elements(s: seq<TypeId>): (r: set<TypeId>)
    ensures forall x :: x in r <==> x in s
    decreases |s|
  {
    if s == [] then {} else Elements(s[..|s| - 1]) + {s[|s| - 1]}
  }

  /** Every interface that some type of `chain` reports from `GetInterfaces()`. */
  function InterfacesOf(u: Universe, chain: seq<TypeId>): (s: set<TypeId>)
    requires WellFormed(u)
    requires forall k :: 0 <= k < |chain| ==> chain[k] < |u|
    ensures forall i :: i in s ==> i < |u|
    decreases |chain|
  {
    if chain == [] then {}
    else
      var last := chain[|chain| - 1];
      InterfacesOf(u, chain[..|chain| - 1]) + Elements(u[last].interfaces)
  }

  /** Each class of a chain is visited once: the ids strictly decrease along it. */
  lemma {:induction false} ChainDescends(u: Universe, t: Option<TypeId>)
    requires WellFormed(u) && (t.Some? ==> t.value < |u|)
    ensures forall j, k :: 0 <= j < k < |Chain(u, t)| ==> Chain(u, t)[k] < Chain(u, t)[j]
    ensures NoDuplicates(Chain(u, t))
    decreases if t.Some? then t.value + 1 else 0
  {
    if t.Some? {
      var rest := Chain(u, u[t.value].baseType);
      ChainDescends(u, u[t.value].baseType);
      assert forall k :: 0 <= k < |rest| ==> rest[k] <= rest[0] by {
        forall k | 0 <= k < |rest| ensures rest[k] <= rest[0] {
          if k > 0 {
            assert rest[k] < rest[0];
          }
        }
      }
      var c := Chain(u, t);
      assert c == [t.value] + rest;
      forall j, k | 0 <= j < k < |c| ensures c[k] < c[j] {
        if j == 0 {
          assert c[k] == rest[k - 1];
        } else {
          assert c[k] == rest[k - 1] && c[j] == rest[j - 1];
        }
      }
    }
  }

  /** An interface is collected exactly when some class of the chain declares it. */
  lemma {:induction false} InterfacesOfMembers(u: Universe, chain: seq<TypeId>, i: TypeId)
    requires WellFormed(u)
    requires forall k :: 0 <= k < |chain| ==> chain[k] < |u|
    ensures i in InterfacesOf(u, chain) <==> exists k :: 0 <= k < |chain| && i in u[chain[k]].interfaces
    decreases |chain|
  {
    if chain != [] {
      var init := chain[..|chain| - 1];
      InterfacesOfMembers(u, init, i);
      assert forall k :: 0 <= k < |init| ==> init[k] == chain[k];
    }
  }
}
