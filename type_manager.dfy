/**
 * The registry of type descriptors that StructType asks for `GetType<T>()`
 * (TypeManager.h is not part of this model). A compile-time C++ type T is a
 * TypeKey: its identity and sizeof(T), which C++ makes at least one byte.
 */
module TypeManagers {
  type ByteSize = n: nat | 0 < n witness 1

  datatype TypeKey = TypeKey(name: string, sizeOf: ByteSize)

  /** A type descriptor: an opaque id and the size of a value of the type. */
  datatype Type = Type(id: nat, size: ByteSize)

  /**
   * A consistent cache: each descriptor has its type's size and an id below the
   * cache size, and `keyOf` maps every id back to the type that owns it.
   */
  ghost predicate Consistent(types: map<TypeKey, Type>, keyOf: map<nat, TypeKey>) {
    forall k :: k in types ==>
      types[k].size == k.sizeOf && types[k].id < |types|
      && types[k].id in keyOf && keyOf[types[k].id] == k
  }

  /** In a consistent cache no two types share an id. */
  lemma IdsDistinct(types: map<TypeKey, Type>, keyOf: map<nat, TypeKey>, k: TypeKey, k': TypeKey)
    requires Consistent(types, keyOf)
    requires k in types && k' in types && k != k'
    ensures types[k].id != types[k'].id
  {
  }

  class TypeManager {
    var types: map<TypeKey, Type>
    /** The type each id was given to. */
    ghost var keyOf: map<nat, TypeKey>

    /** Each cached descriptor has its type's size and an id no other type has. */
    ghost predicate Valid()
      reads this
    {
      Consistent(types, keyOf)
    }

    constructor ()
      ensures Valid() && types == map[]
    {
      types := map[];
      keyOf := map[];
    }

    /** The descriptor of `key`, created on the first request and the same one on every later request. */
    method GetType(key: TypeKey) returns (t: Type)
      requires Valid()
      modifies this
      ensures Valid()
      ensures t.size == key.sizeOf
      ensures key in types && types[key] == t
      ensures key in old(types) ==> t == old(types)[key] && types == old(types)
      ensures key !in old(types) ==> types == old(types)[key := t]
    {
      if key in types {
        t := types[key];
      } else {
        t := Type(|types|, key.sizeOf);
        keyOf := keyOf[t.id := key];
        types := types[key := t];
      }
    }
  }
}
