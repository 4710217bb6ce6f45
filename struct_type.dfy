/**
 * emp::StructType: a struct whose member variables are chosen at run time.
 * Members are laid out back to back in declaration order; the first instance
 * built from the type freezes the layout.
 */
module StructTypes {
  import opened Wrappers
  import opened MemoryImages
  import opened TypeManagers
  import opened StructLayout

  class StructType {
    var vars: seq<VarInfo>
    var nameMap: map<string, nat>
    const typeManager: TypeManager
    var numBytes: nat
    var active: bool

    /** The layout invariant: members are packed back to back and numBytes is their total. */
    ghost predicate Valid()
      reads this
    {
      Contiguous(vars) && numBytes == SumSizes(vars)
    }

    /** The name index: member i is registered under its name at index i, and nothing else is. */
    ghost predicate Indexed()
      reads this
    {
      NamesIndexed(vars, nameMap)
    }

    /** The two assertions AddMemberVar checks before it changes anything. */
    predicate CanAddMemberVar(name: string)
      reads this
    {
      !active && name !in nameMap
    }

    constructor (tmanager: TypeManager)
      ensures Valid() && Indexed()
      ensures vars == [] && nameMap == map[] && numBytes == 0 && !active
      ensures typeManager == tmanager
    {
      vars := [];
      nameMap := map[];
      typeManager := tmanager;
      numBytes := 0;
      active := false;
    }

    /** How many bytes in structs of this type: the sum of the member sizes, enclosing every member. */
    function GetSize(): (r: nat)
      reads this
      requires Valid()
      ensures r == SumSizes(vars)
      ensures forall i :: 0 <= i < |vars| ==> vars[i].offset + vars[i].varType.size <= r
    {
      forall i | 0 <= i < |vars|
        ensures vars[i].offset + vars[i].varType.size <= numBytes
      {
        MemberWithin(vars, i);
      }
      numBytes
    }

    /** Have structs of this type been built? If so, no member may be added. */
    function IsActive(): (r: bool)
      reads this
      ensures r ==> forall name :: !CanAddMemberVar(name)
      ensures !r ==> forall name :: name !in nameMap ==> CanAddMemberVar(name)
    {
      active
    }

    /**
     * GetID as written: its assertion is inverted, so it admits only a name
     * that is not a member, and the map lookup then registers that name at 0.
     */
    method GetID(name: string) returns (id: nat)
      requires name !in nameMap
      modifies this`nameMap
      ensures id == 0
      ensures nameMap == old(nameMap)[name := 0]
      ensures !CanAddMemberVar(name)
    {
      if name !in nameMap {
        nameMap := nameMap[name := 0];
      }
      id := nameMap[name];
    }

    /** The lookup GetID is meant to be: the index of the member called `name`, if there is one. */
    function FieldIndex(name: string): (r: Option<nat>)
      reads this
      requires Indexed()
      ensures r.Some? <==> exists i :: 0 <= i < |vars| && vars[i].name == name
      ensures r.Some? ==> r.value < |vars| && vars[r.value].name == name
    {
      if name in nameMap then Some(nameMap[name]) else None
    }

    /** Add a member variable of C++ type `key` to structs of this type. */
    method AddMemberVar(name: string, key: TypeKey)
      requires Valid() && typeManager.Valid()
      requires CanAddMemberVar(name)
      modifies this, typeManager
      ensures Valid() && typeManager.Valid()
      ensures key in typeManager.types && typeManager.types[key].size == key.sizeOf
      ensures typeManager.types == old(typeManager.types)[key := typeManager.types[key]]
      ensures key in old(typeManager.types) ==> typeManager.types == old(typeManager.types)
      ensures vars == old(vars) + [VarInfo(typeManager.types[key], name, old(numBytes))]
      ensures nameMap == old(nameMap)[name := |old(vars)|]
      ensures numBytes == old(numBytes) + key.sizeOf
      ensures active == old(active)
      ensures old(Indexed()) ==> Indexed()
    {
      var oldVars := vars;
      var oldMap := nameMap;
      var oldBytes := numBytes;
      var newMap := nameMap[name := |vars|];
      var t := typeManager.GetType(key);
      var v := VarInfo(t, name, oldBytes);
      AppendKeepsContiguous(oldVars, v);
      if NamesIndexed(oldVars, oldMap) {
        AppendKeepsNamesIndexed(oldVars, oldMap, v);
      }
      var newVars := oldVars + [v];
      nameMap := newMap;
      vars := newVars;
      numBytes := oldBytes + t.size;
    }

    /**
     * Construct a memory image using every member's default constructor, in
     * declaration order; `init` gives the bytes a type's default constructor writes.
     */
    method DefaultConstruct(memory: MemoryImage, init: Type -> seq<Byte>)
      requires Valid() && InitSized(init)
      modifies memory, this`active
      ensures memory.bytes == DefaultImage(vars, init)
      ensures |memory.bytes| == numBytes
      ensures active && forall name :: !CanAddMemberVar(name)
      ensures vars == old(vars) && nameMap == old(nameMap) && numBytes == old(numBytes)
    {
      memory.Resize(numBytes);
      ghost var c := ByDefault(init);
      for i := 0 to |vars|
        invariant |memory.bytes| == numBytes
        invariant SumSizes(vars[..i]) <= numBytes
        invariant memory.bytes[..SumSizes(vars[..i])] == Image(vars[..i], c)
      {
        var v := vars[i];
        ImageStep(vars, c, i);
        MemberWithin(vars, i);
        OverwriteExtends(memory.bytes, v.offset, init(v.varType), Image(vars[..i], c));
        memory.Write(v.offset, init(v.varType));
      }
      assert vars[..|vars|] == vars;
      active := true;
    }

    /**
     * Construct a memory image by copy-constructing every member from
     * `fromMemory`, in declaration order; `copy` gives the bytes a type's copy
     * constructor writes for a value's bytes.
     */
    method CopyConstruct(fromMemory: MemoryImage, toMemory: MemoryImage, copy: (Type, seq<Byte>) -> seq<Byte>)
      requires Valid() && CopySized(copy)
      requires fromMemory != toMemory && numBytes <= |fromMemory.bytes|
      modifies toMemory, this`active
      ensures toMemory.bytes == CopyImage(vars, fromMemory.bytes, copy)
      ensures |toMemory.bytes| == numBytes
      ensures fromMemory.bytes == old(fromMemory.bytes)
      ensures active && forall name :: !CanAddMemberVar(name)
      ensures vars == old(vars) && nameMap == old(nameMap) && numBytes == old(numBytes)
    {
      toMemory.Resize(numBytes);
      ghost var c := ByCopy(fromMemory.bytes, copy);
      for i := 0 to |vars|
        invariant |toMemory.bytes| == numBytes
        invariant SumSizes(vars[..i]) <= numBytes
        invariant toMemory.bytes[..SumSizes(vars[..i])] == Image(vars[..i], c)
      {
        var v := vars[i];
        ImageStep(vars, c, i);
        MemberWithin(vars, i);
        var data := copy(v.varType, fromMemory.bytes[v.offset..v.offset + v.varType.size]);
        CopyChunkIs(fromMemory.bytes, copy, v);
        OverwriteExtends(toMemory.bytes, v.offset, data, Image(vars[..i], c));
        toMemory.Write(v.offset, data);
      }
      assert vars[..|vars|] == vars;
      active := true;
    }
  }

  /**
   * A struct given a 4-byte member and then a 1-byte member under another
   * name occupies 5 bytes, with the second member at offset 4.
   */
  method TwoMemberLayout(first: string, second: string, key4: TypeKey, key1: TypeKey)
    returns (size: nat, secondOffset: nat)
    requires first != second && key4.sizeOf == 4 && key1.sizeOf == 1
    ensures size == 5 && secondOffset == 4
  {
    var tm := new TypeManager();
    var st := new StructType(tm);
    st.AddMemberVar(first, key4);
    assert st.numBytes == 4;
    st.AddMemberVar(second, key1);
    assert st.vars[1].offset == 4 && st.numBytes == 5;
    size := st.GetSize();
    secondOffset := st.vars[1].offset;
  }
}
