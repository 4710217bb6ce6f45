// class InstLib: the instruction library of one kind of virtual CPU. Its
// methods update the four containers in place; each is proved to leave them
// exactly as the matching function of InstLibrary or InstLoad says.
module InstLibs {
  import opened Wrappers
  import opened StringUtils
  import opened InstLibrary
  import opened InstLoad

  class InstLib {
    var instCalls: seq<CallId>
    var instInfo: seq<InstInfo>
    var nameMap: map<string, int>
    var shortNameMap: map<char, int>

    /** The four containers as one value. */
    function Model(): Library
      reads this
    {
      Library(instCalls, instInfo, nameMap, shortNameMap)
    }

    ghost predicate Valid()
      reads this
    {
      WellFormed(Model())
    }

    constructor()
      ensures Valid() && Exact(Model())
      ensures Model() == EmptyLibrary
    {
      instCalls := [];
      instInfo := [];
      nameMap := map[];
      shortNameMap := map[];
    }

    /** GetSize: the number of instructions, which is also the number of callbacks. */
    function GetSize(): (r: int)
      reads this
      requires Valid()
      ensures r == |instInfo| == |instCalls|
      ensures forall name :: name in nameMap ==> 0 <= nameMap[name] < r
    {
      |instInfo|
    }

    /** operator[](int): the prototype of the instruction with that id. */
    function At(index: int): (p: Prototype)
      reads this
      requires Valid()
      requires 0 <= index < |instInfo|
      ensures p.id == index
      ensures p == InstLibrary.At(Model(), index)
    {
      InstLibrary.At(Model(), index)
    }

    /**
     * operator[](string): the prototype of the named instruction. An unknown
     * name is reported (unknown) and answered with entry 0, and name -> 0 stays
     * in name_map.
     */
    method ByName(name: string) returns (p: Prototype, unknown: bool)
      requires Valid()
      requires name in nameMap || |instInfo| > 0
      modifies this`nameMap
      ensures Valid()
      ensures (p, Model(), unknown) == LookupName(old(Model()), name)
    {
      unknown := name !in nameMap;
      if unknown {
        nameMap := nameMap[name := 0];
      }
      p := instInfo[nameMap[name]].prototype;
      assert Model() == LookupName(old(Model()), name).1;
    }

    /**
     * operator[](char): the same for short names; an unknown symbol stays in
     * short_name_map mapped to 0.
     */
    method BySymbol(symbol: char) returns (p: Prototype, unknown: bool)
      requires Valid()
      requires symbol in shortNameMap || |instInfo| > 0
      modifies this`shortNameMap
      ensures Valid()
      ensures (p, Model(), unknown) == LookupSymbol(old(Model()), symbol)
    {
      unknown := symbol !in shortNameMap;
      if unknown {
        shortNameMap := shortNameMap[symbol := 0];
      }
      p := instInfo[shortNameMap[symbol]].prototype;
      assert Model() == LookupSymbol(old(Model()), symbol).1;
    }

    /**
     * Add: a name already present is reported (duplicate) and ignored;
     * otherwise the instruction is appended with the next id and indexed.
     */
    method Add(name: string, desc: string, call: CallId, arg: int := -1, cycleCost: int := 1)
      returns (duplicate: bool)
      requires Valid()
      modifies this
      ensures Valid()
      ensures duplicate <==> name in old(nameMap)
      ensures Model() == Added(old(Model()), name, desc, call, arg, cycleCost)
    {
      AddedWellFormed(Model(), name, desc, call, arg, cycleCost);
      duplicate := name in nameMap;
      if duplicate {
        return;
      }
      var nextId := |instInfo|;
      var charId := MinId(nextId);
      var nextChar := InstCharChart[charId];
      instCalls := instCalls + [call];
      instInfo := instInfo + [MakeInstInfo(name, desc, arg, nextChar, nextId, cycleCost)];
      nameMap := nameMap[name := nextId];
      if nextId == charId {
        shortNameMap := shortNameMap[nextChar := nextId];
      }
    }

    /** GetName: the instruction's name, under which name_map finds it again. */
    function GetName(inst: Prototype): (r: string)
      reads this
      requires Valid()
      requires 0 <= inst.id < |instInfo|
      ensures r in nameMap && nameMap[r] == inst.id
    {
      assert EntryIndexed(Model(), inst.id);
      instInfo[inst.id].name
    }

    /** GetShortName: the chart character of min(id, 72). */
    function GetShortName(inst: Prototype): (r: char)
      reads this
      requires Valid()
      requires 0 <= inst.id < |instInfo|
      ensures r == ShortNameFor(inst.id)
      ensures inst.id <= LastChar ==> r in shortNameMap && shortNameMap[r] == inst.id
    {
      assert EntryShape(instInfo[inst.id], inst.id);
      assert EntryIndexed(Model(), inst.id);
      instInfo[inst.id].shortName
    }

    /** GetCycleCost: the stored cost, which is 1 exactly when the prototype records no cost. */
    function GetCycleCost(inst: Prototype): (r: int)
      reads this
      requires Valid()
      requires 0 <= inst.id < |instInfo|
      ensures r != 1 <==> At(inst.id).hasCost
    {
      instInfo[inst.id].cycleCost
    }

    /** GetID: the stored id, which is the position of the entry. */
    function GetID(inst: Prototype): (r: int)
      reads this
      requires Valid()
      requires 0 <= inst.id < |instInfo|
      ensures r == inst.id
    {
      assert EntryShape(instInfo[inst.id], inst.id);
      instInfo[inst.id].id
    }

    /**
     * LoadInst: parses one instruction line, applies its arguments word by word
     * and adds the instruction when its base name is a known definition.
     */
    method LoadInst(line: string, defs: InstDefs) returns (outcome: LoadOutcome)
      requires Valid()
      modifies this
      ensures Valid()
      ensures (outcome, Model()) == LoadEffect(old(Model()), line, defs)
    {
      var rest := CompressWhitespace(line);
      var popped := StringPopWord(rest);
      var fullName := popped.0;
      rest := popped.1;
      var nameInfo := fullName;
      popped := StringPop(nameInfo, ':');
      var nameBase := popped.0;
      nameInfo := popped.1;
      var nameSpec := StringGet(nameInfo, ':');
      ghost var argText := rest;
      ParseInstOfParts(line, fullName, argText, nameBase, nameSpec);
      var nameFinal := fullName;
      var modId := -1;
      if |nameSpec| > 0 {
        var parsed := Stoi(nameSpec);
        if parsed.None? {
          LoadThrew(old(Model()), line, defs);
          return Threw;
        }
        modId := parsed.value;
      }

      var cycleCost := MinCycleCost;
      ghost var args := Tokens(argText);
      while |rest| > 0
        invariant Model() == old(Model())
        invariant FoldArgs(ArgState(MinCycleCost, fullName), args)
               == FoldArgs(ArgState(cycleCost, nameFinal), Tokens(rest))
        decreases |rest|
      {
        ArgLoopStep(ArgState(cycleCost, nameFinal), rest);
        var word := StringPopWord(rest);
        var argInfo := word.0;
        rest := word.1;
        ghost var applied := ApplyArg(ArgState(cycleCost, nameFinal), argInfo);
        word := StringPop(argInfo, '=');
        var argName := word.0;
        argInfo := word.1;
        if argName == "cycle_cost" {
          var parsed := Stoi(argInfo);
          if parsed.None? {
            LoadThrew(old(Model()), line, defs);
            return Threw;
          }
          cycleCost := ClampCost(parsed.value);
        } else if argName == "name" {
          if |argInfo| > 0 {
            nameFinal := argInfo;
          }
        } else if argName == "stability" {
          if Stoi(argInfo).None? {
            LoadThrew(old(Model()), line, defs);
            return Threw;
          }
        }
        assert applied == Some(ArgState(cycleCost, nameFinal));
      }

      LoadParsed(Model(), line, defs, ParsedInst(nameBase, nameFinal, modId, cycleCost));
      if nameBase !in defs {
        return UnknownInstruction;
      }
      var def := defs[nameBase];
      var _ := Add(nameFinal, def.desc, def.call, modId, cycleCost);
      return Loaded;
    }

    /** LoadDefaults: loads each default line in order; a throw ends it. */
    method LoadDefaults(defaults: seq<string>, defs: InstDefs) returns (threw: bool)
      requires Valid()
      modifies this
      ensures Valid()
      ensures (Model(), threw) == LoadAll(old(Model()), defaults, defs)
    {
      for i := 0 to |defaults|
        invariant Valid()
        invariant LoadAll(old(Model()), defaults, defs) == LoadAll(Model(), defaults[i..], defs)
      {
        assert defaults[i..][1..] == defaults[i + 1..];
        var outcome := LoadInst(defaults[i], defs);
        if outcome == Threw {
          return true;
        }
      }
      return false;
    }
  }

  /**
   * A fresh library that loads one bare instruction name holds exactly that
   * instruction, as entry 0, with the default argument and cost.
   */
  method LoadOne(name: string, def: InstDefinition) returns (size: int, first: Prototype, stored: string)
    requires IsWord(name) && ':' !in name
    ensures size == 1
    ensures first == Prototype(0, 0, false)
    ensures stored == name
  {
    var defs := map[name := def];
    var lib := new InstLib();
    assert Words(name) == [name] by { WordsOfJoin([name]); }
    LoadBareName(lib.Model(), name, defs);
    var outcome := lib.LoadInst(name, defs);
    size := lib.GetSize();
    first := lib.At(0);
    stored := lib.GetName(first);
  }
}
