// What LoadInst does with one line of the form
//   inst_name:spec_id:custom_name arg1=value arg2=value ...
// and what LoadDefaults does with a list of such lines, as functions on the
// library value; the InstLib methods are proved to compute exactly these.
module InstLoad {
  import opened Wrappers
  import opened StringUtils
  import opened InstLibrary

  /** An entry of the hardware's instruction definitions: description and callback. */
  datatype InstDefinition = InstDefinition(desc: string, call: CallId)

  type InstDefs = map<string, InstDefinition>

  /** true, false, or the std::stoi exception escaping LoadInst. */
  datatype LoadOutcome = Loaded | UnknownInstruction | Threw

  /** The locals the argument loop updates (stability and weight are not kept). */
  datatype ArgState = ArgState(cycleCost: int, nameFinal: string)

  /** The smallest cycle cost an instruction may have. */
  const MinCycleCost: int := 1

  /** cycle_cost values below 1 are reported and replaced by 1. */
  function ClampCost(c: int): (r: int)
    ensures r >= MinCycleCost
    ensures c >= MinCycleCost ==> r == c
  {
    if c < MinCycleCost then MinCycleCost else c
  }

  /**
   * One pass of the argument loop on the word arg_name=value. None is the
   * exception std::stoi throws for a cycle_cost or stability value that is not
   * an int; weight and unknown argument names leave the state alone.
   */
  function ApplyArg(st: ArgState, arg: string): Option<ArgState> {
    var (argName, value) := StringPop(arg, '=');
    if argName == "cycle_cost" then
      match Stoi(value)
      case None => None
      case Some(c) => Some(st.(cycleCost := ClampCost(c)))
    else if argName == "name" then
      if |value| == 0 then Some(st) else Some(st.(nameFinal := value))
    else if argName == "stability" then
      if Stoi(value).None? then None else Some(st)
    else
      Some(st)
  }

  /** The whole argument loop: the arguments applied in order, stopping at a throw. */
  function FoldArgs(st: ArgState, args: seq<string>): Option<ArgState>
    decreases |args|
  {
    if args == [] then Some(st)
    else
      match ApplyArg(st, args[0])
      case None => None
      case Some(next) => FoldArgs(next, args[1..])
  }

  /** What a successful parse yields: the lookup key, the stored name, mod_id, cycle_cost. */
  datatype ParsedInst = ParsedInst(nameBase: string, nameFinal: string, modId: int, cycleCost: int)

  /** The name part of LoadInst: base name, and mod_id (-1 without a spec part). */
  function NameParts(fullName: string): (string, Option<int>) {
    var (nameBase, nameInfo) := StringPop(fullName, ':');
    var nameSpec := StringGet(nameInfo, ':');
    (nameBase, if |nameSpec| > 0 then Stoi(nameSpec) else Some(-1))
  }

  /** LoadInst up to the definition lookup; None when std::stoi throws. */
  function ParseInst(line: string): Option<ParsedInst> {
    var compressed := CompressWhitespace(line);
    var (fullName, rest) := StringPopWord(compressed);
    var (nameBase, modId) := NameParts(fullName);
    if modId.None? then None
    else
      match FoldArgs(ArgState(MinCycleCost, fullName), Tokens(rest))
      case None => None
      case Some(st) => Some(ParsedInst(nameBase, st.nameFinal, modId.value, st.cycleCost))
  }

  /** LoadInst: its outcome and the library afterwards. */
  function LoadEffect(lib: Library, line: string, defs: InstDefs): (LoadOutcome, Library) {
    match ParseInst(line)
    case None => (Threw, lib)
    case Some(p) =>
      if p.nameBase !in defs then (UnknownInstruction, lib)
      else
        var def := defs[p.nameBase];
        (Loaded, Added(lib, p.nameFinal, def.desc, def.call, p.modId, p.cycleCost))
  }

  /**
   * LoadDefaults: every line loaded in order; an exception ends the loop and
   * leaves LoadDefaults (the flag), with the lines before it loaded.
   */
  function LoadAll(lib: Library, lines: seq<string>, defs: InstDefs): (Library, bool)
    decreases |lines|
  {
    if lines == [] then (lib, false)
    else
      var (outcome, next) := LoadEffect(lib, lines[0], defs);
      if outcome == Threw then (next, true) else LoadAll(next, lines[1..], defs)
  }

  // ---------------------------------------------------------------------
  // Reference definitions of the argument loop
  // ---------------------------------------------------------------------

  /** An argument word whose value makes std::stoi throw. */
  predicate Throws(arg: string) {
    var (argName, value) := StringPop(arg, '=');
    (argName == "cycle_cost" || argName == "stability") && Stoi(value).None?
  }

  /** The cost the last valid cycle_cost argument sets, clamped; c without one. */
  function CostAfter(c: int, args: seq<string>): int
    decreases |args|
  {
    if args == [] then c
    else
      var (argName, value) := StringPop(args[|args| - 1], '=');
      if argName == "cycle_cost" && Stoi(value).Some? then ClampCost(Stoi(value).value)
      else CostAfter(c, args[..|args| - 1])
  }

  /** The value of the last non-empty name argument; n without one. */
  function NameAfter(n: string, args: seq<string>): string
    decreases |args|
  {
    if args == [] then n
    else
      var (argName, value) := StringPop(args[|args| - 1], '=');
      if argName == "name" && |value| > 0 then value
      else NameAfter(n, args[..|args| - 1])
  }

  lemma {:induction false} FoldArgsSnoc(st: ArgState, args: seq<string>, arg: string)
    ensures FoldArgs(st, args + [arg]) ==
      match FoldArgs(st, args)
      case None => None
      case Some(s) => ApplyArg(s, arg)
    decreases |args|
  {
    if args == [] {
      assert [arg][1..] == [];
    } else {
      assert (args + [arg])[0] == args[0];
      assert (args + [arg])[1..] == args[1..] + [arg];
      match ApplyArg(st, args[0])
      case None =>
      case Some(next) => FoldArgsSnoc(next, args[1..], arg);
    }
  }

  /** The argument loop throws exactly when some argument's value is not an int. */
  lemma {:induction false} FoldArgsThrows(st: ArgState, args: seq<string>)
    ensures FoldArgs(st, args).None? <==> exists i :: 0 <= i < |args| && Throws(args[i])
    decreases |args|
  {
    if args != [] {
      assert ApplyArg(st, args[0]).None? <==> Throws(args[0]);
      match ApplyArg(st, args[0])
      case None =>
      case Some(next) =>
        FoldArgsThrows(next, args[1..]);
        if exists i :: 0 <= i < |args[1..]| && Throws(args[1..][i]) {
          var i :| 0 <= i < |args[1..]| && Throws(args[1..][i]);
          assert Throws(args[i + 1]);
        }
        if exists i :: 0 <= i < |args| && Throws(args[i]) {
          var i :| 0 <= i < |args| && Throws(args[i]);
          assert i > 0;
          assert Throws(args[1..][i - 1]);
        }
    }
  }

  /**
   * Without a throw, the argument loop ends with the last valid cycle_cost
   * (clamped) and the last non-empty name.
   */
  lemma {:induction false} FoldArgsValue(st: ArgState, args: seq<string>)
    requires FoldArgs(st, args).Some?
    ensures FoldArgs(st, args).value ==
      ArgState(CostAfter(st.cycleCost, args), NameAfter(st.nameFinal, args))
    decreases |args|
  {
    if args != [] {
      var pre := args[..|args| - 1];
      if FoldArgs(st, pre).Some? {
        FoldArgsValue(st, pre);
      }
      SameArgs(st, args, pre + [args[|args| - 1]]);
      FoldArgsValueSnoc(st, pre, args[|args| - 1]);
    }
  }

  lemma SameArgs(st: ArgState, a: seq<string>, b: seq<string>)
    requires a != [] && b == a[..|a| - 1] + [a[|a| - 1]]
    ensures FoldArgs(st, a) == FoldArgs(st, b)
    ensures CostAfter(st.cycleCost, a) == CostAfter(st.cycleCost, b)
    ensures NameAfter(st.nameFinal, a) == NameAfter(st.nameFinal, b)
  {
    assert a == b;
  }

  lemma FoldArgsValueSnoc(st: ArgState, pre: seq<string>, arg: string)
    requires FoldArgs(st, pre + [arg]).Some?
    requires FoldArgs(st, pre).Some? ==>
      FoldArgs(st, pre).value == ArgState(CostAfter(st.cycleCost, pre), NameAfter(st.nameFinal, pre))
    ensures FoldArgs(st, pre + [arg]).value ==
      ArgState(CostAfter(st.cycleCost, pre + [arg]), NameAfter(st.nameFinal, pre + [arg]))
  {
    FoldArgsSnoc(st, pre, arg);
    var s := FoldArgs(st, pre).value;
    ApplyArgIsStep(s, arg);
    AfterSnoc(st, pre, arg);
  }

  /** One argument word's effect on the cost and on the name, when it does not throw. */
  function CostStep(c: int, arg: string): int {
    var (argName, value) := StringPop(arg, '=');
    if argName == "cycle_cost" && Stoi(value).Some? then ClampCost(Stoi(value).value) else c
  }

  function NameStep(n: string, arg: string): string {
    var (argName, value) := StringPop(arg, '=');
    if argName == "name" && |value| > 0 then value else n
  }

  lemma ApplyArgIsStep(s: ArgState, arg: string)
    requires ApplyArg(s, arg).Some?
    ensures ApplyArg(s, arg).value == ArgState(CostStep(s.cycleCost, arg), NameStep(s.nameFinal, arg))
  {
  }

  lemma AfterSnoc(st: ArgState, pre: seq<string>, arg: string)
    ensures CostAfter(st.cycleCost, pre + [arg]) == CostStep(CostAfter(st.cycleCost, pre), arg)
    ensures NameAfter(st.nameFinal, pre + [arg]) == NameStep(NameAfter(st.nameFinal, pre), arg)
  {
    assert (pre + [arg])[..|pre|] == pre;
  }

  /** The argument loop against the reference definitions. */
  lemma FoldArgsMeaning(st: ArgState, args: seq<string>)
    ensures FoldArgs(st, args).None? <==> exists i :: 0 <= i < |args| && Throws(args[i])
    ensures FoldArgs(st, args).Some? ==>
      FoldArgs(st, args).value == ArgState(CostAfter(st.cycleCost, args), NameAfter(st.nameFinal, args))
  {
    FoldArgsThrows(st, args);
    if FoldArgs(st, args).Some? {
      FoldArgsValue(st, args);
    }
  }

  /** Each cycle cost the loop can end with is at least 1, whatever the arguments. */
  lemma {:induction false} CostAfterAtLeastOne(c: int, args: seq<string>)
    requires c >= MinCycleCost
    ensures CostAfter(c, args) >= MinCycleCost
    decreases |args|
  {
    if args != [] {
      CostAfterAtLeastOne(c, args[..|args| - 1]);
    }
  }

  // ---------------------------------------------------------------------
  // The parse against the words of the line
  // ---------------------------------------------------------------------

  /** The full name is the first word of the line ("" for a blank line). */
  function FirstWord(line: string): string {
    var ws := Words(line);
    if ws == [] then "" else ws[0]
  }

  /** The argument words: every word after the first. */
  function ArgWords(line: string): seq<string> {
    var ws := Words(line);
    if ws == [] then [] else ws[1..]
  }

  /** Popping the first word of the compressed line leaves exactly the other words. */
  lemma {:induction false} PopFirstWord(line: string)
    ensures var (fullName, rest) := StringPopWord(CompressWhitespace(line));
      fullName == FirstWord(line) && Tokens(rest) == ArgWords(line)
  {
    var compressed := CompressWhitespace(line);
    TokensOfCompressed(line);
    if compressed == [] {
      assert Words(line) == Tokens(compressed) == [];
    } else {
      var (w, rest) := StringPopWord(compressed);
      assert Tokens(compressed) == [w] + Tokens(rest);
    }
  }

  /**
   * LoadInst's parse in terms of the words of the line: the base name is the
   * first word up to its first ':', mod_id the int after it (-1 when that part
   * is empty), then the argument words are applied in order.
   */
  lemma ParseInstByWords(line: string)
    ensures var (nameBase, modId) := NameParts(FirstWord(line));
      ParseInst(line) ==
        if modId.None? then None
        else match FoldArgs(ArgState(MinCycleCost, FirstWord(line)), ArgWords(line))
          case None => None
          case Some(st) => Some(ParsedInst(nameBase, st.nameFinal, modId.value, st.cycleCost))
  {
    PopFirstWord(line);
  }

  /**
   * The promised meaning of a parse: the base name is the text before the
   * first ':' of the full name; the cycle cost is the last valid cycle_cost
   * argument, at least 1, and 1 when there is none; the stored name is the last
   * non-empty name argument, the full name when there is none.
   */
  lemma ParsedMeaning(line: string)
    requires ParseInst(line).Some?
    ensures var p := ParseInst(line).value;
      var full := FirstWord(line);
      && ':' !in p.nameBase
      && (':' in full ==> full == p.nameBase + [':'] + StringPop(full, ':').1)
      && (':' !in full ==> p.nameBase == full && p.modId == -1)
      && (var spec := StringGet(StringPop(full, ':').1, ':');
          (|spec| == 0 ==> p.modId == -1) && (|spec| > 0 ==> Some(p.modId) == Stoi(spec)))
      && p.cycleCost == CostAfter(MinCycleCost, ArgWords(line))
      && p.cycleCost >= MinCycleCost
      && p.nameFinal == NameAfter(full, ArgWords(line))
  {
    ParseInstByWords(line);
    FoldArgsMeaning(ArgState(MinCycleCost, FirstWord(line)), ArgWords(line));
    CostAfterAtLeastOne(MinCycleCost, ArgWords(line));
  }

  /** A line throws exactly when mod_id or some argument value is not an int. */
  lemma ThrowsMeaning(line: string)
    ensures ParseInst(line).None? <==>
      NameParts(FirstWord(line)).1.None? || exists i :: 0 <= i < |ArgWords(line)| && Throws(ArgWords(line)[i])
  {
    ParseInstByWords(line);
    FoldArgsMeaning(ArgState(MinCycleCost, FirstWord(line)), ArgWords(line));
  }

  // ---------------------------------------------------------------------
  // Loading
  // ---------------------------------------------------------------------

  /**
   * LoadInst keeps the library's invariant (and leaves no stray keys); it
   * changes nothing unless it returns true, and returns true for a known base
   * name even when Add ignores the name as a duplicate.
   */
  lemma LoadEffectMeaning(lib: Library, line: string, defs: InstDefs)
    requires WellFormed(lib)
    ensures var (outcome, after) := LoadEffect(lib, line, defs);
      && WellFormed(after)
      && (Exact(lib) ==> Exact(after))
      && (outcome != Loaded ==> after == lib)
      && (outcome == Threw <==> ParseInst(line).None?)
      && (outcome == UnknownInstruction <==>
            ParseInst(line).Some? && ParseInst(line).value.nameBase !in defs)
      && (outcome == Loaded && ParseInst(line).value.nameFinal in lib.nameMap ==> after == lib)
      && (outcome == Loaded && ParseInst(line).value.nameFinal !in lib.nameMap ==>
            |after.info| == |lib.info| + 1
            && after.info[|lib.info|].name == ParseInst(line).value.nameFinal
            && after.info[|lib.info|].cycleCost >= MinCycleCost)
  {
    match ParseInst(line)
    case None =>
    case Some(p) =>
      ParsedMeaning(line);
      if p.nameBase in defs {
        var def := defs[p.nameBase];
        AddedWellFormed(lib, p.nameFinal, def.desc, def.call, p.modId, p.cycleCost);
        if Exact(lib) {
          AddedExact(lib, p.nameFinal, def.desc, def.call, p.modId, p.cycleCost);
        }
      }
  }

  /** A line that names an unknown instruction adds nothing and returns false. */
  lemma LoadUnknownInstruction(lib: Library, line: string, defs: InstDefs)
    requires ParseInst(line).Some?
    requires NameParts(FirstWord(line)).0 !in defs
    ensures LoadEffect(lib, line, defs) == (UnknownInstruction, lib)
  {
    ParseInstByWords(line);
  }

  /**
   * A bare instruction name with no ':' and no arguments is added under that
   * name, with mod_id -1 and cycle_cost 1.
   */
  lemma LoadBareName(lib: Library, line: string, defs: InstDefs)
    requires Words(line) == [FirstWord(line)]
    requires ':' !in FirstWord(line) && FirstWord(line) in defs
    ensures var name := FirstWord(line); var def := defs[name];
      LoadEffect(lib, line, defs) == (Loaded, Added(lib, name, def.desc, def.call, -1, MinCycleCost))
  {
    ParseInstByWords(line);
  }

  /** ParseInst spelled out in the steps LoadInst takes: pop the full name, split off the spec part. */
  lemma ParseInstOfParts(line: string, fullName: string, rest: string, nameBase: string, nameSpec: string)
    requires (fullName, rest) == StringPopWord(CompressWhitespace(line))
    requires nameBase == StringPop(fullName, ':').0
    requires nameSpec == StringGet(StringPop(fullName, ':').1, ':')
    ensures ParseInst(line) ==
      if |nameSpec| > 0 && Stoi(nameSpec).None? then None
      else match FoldArgs(ArgState(MinCycleCost, fullName), Tokens(rest))
        case None => None
        case Some(st) =>
          Some(ParsedInst(nameBase, st.nameFinal, if |nameSpec| > 0 then Stoi(nameSpec).value else -1, st.cycleCost))
  {
  }

  /** One pass of the argument loop: pop a word and apply it. */
  lemma ArgLoopStep(st: ArgState, rest: string)
    requires |rest| > 0
    ensures var (arg, after) := StringPopWord(rest);
      FoldArgs(st, Tokens(rest)) ==
        match ApplyArg(st, arg)
        case None => None
        case Some(next) => FoldArgs(next, Tokens(after))
  {
    var (arg, after) := StringPopWord(rest);
    assert Tokens(rest) == [arg] + Tokens(after);
    assert ([arg] + Tokens(after))[1..] == Tokens(after);
  }

  lemma LoadThrew(lib: Library, line: string, defs: InstDefs)
    requires ParseInst(line).None?
    ensures LoadEffect(lib, line, defs) == (Threw, lib)
  {
  }

  lemma LoadParsed(lib: Library, line: string, defs: InstDefs, p: ParsedInst)
    requires ParseInst(line) == Some(p)
    ensures LoadEffect(lib, line, defs) ==
      if p.nameBase !in defs then (UnknownInstruction, lib)
      else (Loaded, Added(lib, p.nameFinal, defs[p.nameBase].desc, defs[p.nameBase].call, p.modId, p.cycleCost))
  {
  }

  /** LoadDefaults keeps the invariant and, without a throw, stops at the end. */
  lemma {:induction false} LoadAllWellFormed(lib: Library, lines: seq<string>, defs: InstDefs)
    requires WellFormed(lib)
    ensures WellFormed(LoadAll(lib, lines, defs).0)
    ensures Exact(lib) ==> Exact(LoadAll(lib, lines, defs).0)
    ensures LoadAll(lib, lines, defs).1 <==> exists i :: 0 <= i < |lines| && ParseInst(lines[i]).None?
    decreases |lines|
  {
    if lines != [] {
      LoadEffectMeaning(lib, lines[0], defs);
      var (outcome, next) := LoadEffect(lib, lines[0], defs);
      if outcome != Threw {
        LoadAllWellFormed(next, lines[1..], defs);
        if exists i :: 0 <= i < |lines[1..]| && ParseInst(lines[1..][i]).None? {
          var i :| 0 <= i < |lines[1..]| && ParseInst(lines[1..][i]).None?;
          assert ParseInst(lines[i + 1]).None?;
        }
        if exists i :: 0 <= i < |lines| && ParseInst(lines[i]).None? {
          var i :| 0 <= i < |lines| && ParseInst(lines[i]).None?;
          assert i > 0;
          assert ParseInst(lines[1..][i - 1]).None?;
        }
      }
    }
  }
}
