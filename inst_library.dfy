// The state of an instruction library as a value: the two parallel vectors,
// the name index and the short-name index, the rule that derives short names
// from the character chart, and what Add and the by-name and by-symbol lookups
// do to that state. The class in inst_lib.dfy is specified by these functions.
module InstLibrary {

  /** Stands for the hardware callback an instruction runs; never inspected. */
  type CallId = nat

  /** The example instruction handed out for an entry: (id, argument, has a cost). */
  datatype Prototype = Prototype(id: int, arg: int, hasCost: bool)

  /** One entry of the library (the floating-point stability and weight are not kept). */
  datatype InstInfo = InstInfo(
    name: string,
    desc: string,
    argValue: int,
    shortName: char,
    id: int,
    prototype: Prototype,
    cycleCost: int)

  /** The InstInfo constructor: the prototype is built from (id, arg + 1, cycle_cost != 1). */
  function MakeInstInfo(name: string, desc: string, arg: int, shortName: char, id: int,
                        cycleCost: int): (e: InstInfo)
    ensures e.name == name && e.desc == desc && e.argValue == arg && e.cycleCost == cycleCost
    ensures e.shortName == shortName && e.id == id
    ensures e.prototype.id == id && e.prototype.arg == arg + 1
    ensures e.prototype.hasCost <==> cycleCost != 1
  {
    InstInfo(name, desc, arg, shortName, id, Prototype(id, arg + 1, cycleCost != 1), cycleCost)
  }

  // ---------------------------------------------------------------------
  // The character chart
  // ---------------------------------------------------------------------

  const Lower: seq<char> := ['a', 'b', 'c', 'd', 'e', 'f', 'g', 'h', 'i', 'j', 'k', 'l',
    'm', 'n', 'o', 'p', 'q', 'r', 's', 't', 'u', 'v', 'w', 'x', 'y', 'z']
  const Upper: seq<char> := ['A', 'B', 'C', 'D', 'E', 'F', 'G', 'H', 'I', 'J',
    'K', 'L', 'M', 'N', 'O', 'P', 'Q', 'R', 'S', 'T', 'U', 'V', 'W', 'X', 'Y', 'Z']
  const Digits: seq<char> := ['0', '1', '2', '3', '4', '5', '6', '7', '8', '9']
  const Symbols: seq<char> := ['!', '@', '$', '%', '^', '&', '*', '_', '=', '-', '+']

  /** inst_char_chart: 73 characters, in the order the source lists them. */
  const InstCharChart: seq<char> := Lower + Upper + Digits + Symbols

  /** The last chart position; every id from here on shares its character. */
  const LastChar: nat := 72

  /** The position of c in the chart, or -1 for a character the chart lacks. */
  function ChartIndex(c: char): (k: int)
    ensures -1 <= k <= LastChar
  {
    if 'a' <= c <= 'z' then c as int - 'a' as int
    else if 'A' <= c <= 'Z' then 26 + (c as int - 'A' as int)
    else if '0' <= c <= '9' then 52 + (c as int - '0' as int)
    else match c
      case '!' => 62 case '@' => 63 case '$' => 64 case '%' => 65 case '^' => 66
      case '&' => 67 case '*' => 68 case '_' => 69 case '=' => 70 case '-' => 71
      case '+' => 72 case _ => -1
  }

  lemma ChartIndexInverse(i: int)
    requires 0 <= i < |InstCharChart|
    ensures ChartIndex(InstCharChart[i]) == i
  {
    if i < 26 {
      LowerIndex(i);
    } else if i < 52 {
      UpperIndex(i - 26);
    } else if i < 62 {
      DigitIndex(i - 52);
    } else {
      SymbolIndex(i - 62);
    }
  }

  lemma LowerIndex(i: int)
    requires 0 <= i < |Lower|
    ensures InstCharChart[i] == Lower[i]
    ensures ChartIndex(Lower[i]) == i
  {
  }

  lemma UpperIndex(i: int)
    requires 0 <= i < |Upper|
    ensures InstCharChart[26 + i] == Upper[i]
    ensures ChartIndex(Upper[i]) == 26 + i
  {
    UpperInChart(i);
  }

  lemma UpperInChart(i: int)
    requires 0 <= i < |Upper|
    ensures InstCharChart[26 + i] == Upper[i]
  {
  }

  lemma DigitIndex(i: int)
    requires 0 <= i < |Digits|
    ensures InstCharChart[52 + i] == Digits[i]
    ensures ChartIndex(Digits[i]) == 52 + i
  {
  }

  lemma SymbolIndex(i: int)
    requires 0 <= i < |Symbols|
    ensures InstCharChart[62 + i] == Symbols[i]
    ensures ChartIndex(Symbols[i]) == 62 + i
  {
  }

  /** The chart has 73 characters, from 'a' to the '+' at its last position. */
  lemma ChartShape()
    ensures |InstCharChart| == LastChar + 1
    ensures InstCharChart[0] == 'a' && InstCharChart[LastChar] == '+'
  {
  }

  /** The 73 characters of the chart are pairwise distinct. */
  lemma ChartDistinct(i: int, j: int)
    requires 0 <= i < j < |InstCharChart|
    ensures InstCharChart[i] != InstCharChart[j]
  {
    ChartIndexInverse(i);
    ChartIndexInverse(j);
  }

  function MinId(id: nat): (k: nat)
    ensures k <= LastChar && k <= id
    ensures k == id || k == LastChar
  {
    if id < LastChar then id else LastChar
  }

  /** The short name Add gives entry id: inst_char_chart[min(id, 72)]. */
  function ShortNameFor(id: nat): (c: char)
    ensures id >= LastChar ==> c == '+'
    ensures id <= LastChar ==> ChartIndex(c) == id
    ensures id >= LastChar ==> ChartIndex(c) == LastChar
  {
    ChartIndexInverse(MinId(id));
    InstCharChart[MinId(id)]
  }

  /** Ids up to 72 get pairwise different short names. */
  lemma ShortNamesDistinct(i: nat, j: nat)
    requires i < j <= LastChar
    ensures ShortNameFor(i) != ShortNameFor(j)
  {
  }

  // ---------------------------------------------------------------------
  // The library state
  // ---------------------------------------------------------------------

  /** inst_calls, inst_info, name_map and short_name_map. */
  datatype Library = Library(
    calls: seq<CallId>,
    info: seq<InstInfo>,
    nameMap: map<string, int>,
    shortNameMap: map<char, int>)

  const EmptyLibrary: Library := Library([], [], map[], map[])

  /** What Add puts at position i: its id, short name and prototype agree with i. */
  predicate EntryShape(e: InstInfo, i: nat) {
    e.id == i && e.shortName == ShortNameFor(i)
    && e.prototype == Prototype(i, e.argValue + 1, e.cycleCost != 1)
  }

  /** Entry i is reachable by its name and, when i <= 72, by its short name. */
  predicate EntryIndexed(lib: Library, i: nat)
    requires i < |lib.info|
  {
    var e := lib.info[i];
    e.name in lib.nameMap && lib.nameMap[e.name] == i
    && (i <= LastChar ==> e.shortName in lib.shortNameMap && lib.shortNameMap[e.shortName] == i)
  }

  /**
   * The invariant every operation keeps: parallel vectors of one size, every
   * entry shaped and indexed by its position, every map value a valid position.
   */
  predicate WellFormed(lib: Library) {
    |lib.calls| == |lib.info|
    && (forall i: nat :: i < |lib.info| ==> EntryShape(lib.info[i], i))
    && (forall i: nat :: i < |lib.info| ==> EntryIndexed(lib, i))
    && (forall n :: n in lib.nameMap ==> 0 <= lib.nameMap[n] < |lib.info|)
    && (forall c :: c in lib.shortNameMap ==> 0 <= lib.shortNameMap[c] < |lib.info|)
  }

  /**
   * No key of either map was inserted by a failed lookup: every name key is the
   * name of the entry it points to, and every symbol key is that entry's short
   * name, for an entry id of at most 72.
   */
  predicate Exact(lib: Library) {
    (forall n :: n in lib.nameMap ==>
      0 <= lib.nameMap[n] < |lib.info| && lib.info[lib.nameMap[n]].name == n)
    && (forall c :: c in lib.shortNameMap ==>
      0 <= lib.shortNameMap[c] <= LastChar && lib.shortNameMap[c] < |lib.info|
      && lib.info[lib.shortNameMap[c]].shortName == c)
  }

  lemma EmptyLibraryWellFormed()
    ensures WellFormed(EmptyLibrary) && Exact(EmptyLibrary)
    ensures |EmptyLibrary.info| == 0
  {
  }

  // ---------------------------------------------------------------------
  // Add
  // ---------------------------------------------------------------------

  /**
   * Add(name, desc, call, arg, cycle_cost): a name already in name_map leaves
   * everything unchanged; otherwise the entry is appended with the next id, the
   * name is indexed, and the short name is indexed when the id is at most 72.
   */
  function Added(lib: Library, name: string, desc: string, call: CallId, arg: int,
                 cycleCost: int): Library
  {
    if name in lib.nameMap then lib
    else
      var nextId := |lib.info|;
      var charId := MinId(nextId);
      var nextChar := InstCharChart[charId];
      Library(
        lib.calls + [call],
        lib.info + [MakeInstInfo(name, desc, arg, nextChar, nextId, cycleCost)],
        lib.nameMap[name := nextId],
        if nextId == charId then lib.shortNameMap[nextChar := nextId] else lib.shortNameMap)
  }

  /** Add keeps the invariant; this is where the chart's distinctness is needed. */
  lemma {:induction false} AddedWellFormed(lib: Library, name: string, desc: string,
                                           call: CallId, arg: int, cycleCost: int)
    requires WellFormed(lib)
    ensures WellFormed(Added(lib, name, desc, call, arg, cycleCost))
  {
    if name !in lib.nameMap {
      var r := Added(lib, name, desc, call, arg, cycleCost);
      var n := |lib.info|;
      assert r.info[n] == MakeInstInfo(name, desc, arg, ShortNameFor(n), n, cycleCost);
      forall i: nat | i < |r.info| ensures EntryShape(r.info[i], i) {
        if i < n { assert r.info[i] == lib.info[i]; }
      }
      forall i: nat | i < |r.info| ensures EntryIndexed(r, i) {
        if i < n {
          var e := lib.info[i];
          assert r.info[i] == e;
          assert EntryIndexed(lib, i);
          assert e.name != name;
          if i <= LastChar && n <= LastChar {
            ChartDistinct(i, n);
            assert ShortNameFor(i) == InstCharChart[i];
          }
        }
      }
    }
  }

  /** Add keeps the maps free of keys that no entry owns. */
  lemma AddedExact(lib: Library, name: string, desc: string, call: CallId, arg: int,
                   cycleCost: int)
    requires Exact(lib)
    ensures Exact(Added(lib, name, desc, call, arg, cycleCost))
  {
    if name !in lib.nameMap {
      var r := Added(lib, name, desc, call, arg, cycleCost);
      forall i | 0 <= i < |lib.info| ensures r.info[i] == lib.info[i] { }
    }
  }

  /**
   * A fresh name appends exactly one entry and one callback, with the old size
   * as its id, stores name, description, argument and cost verbatim, and is
   * found again under its name.
   */
  lemma AddedFresh(lib: Library, name: string, desc: string, call: CallId, arg: int,
                   cycleCost: int)
    requires WellFormed(lib)
    requires name !in lib.nameMap
    ensures var r := Added(lib, name, desc, call, arg, cycleCost);
      var n := |lib.info|;
      && WellFormed(r)
      && |r.info| == n + 1 && r.info[..n] == lib.info
      && r.calls == lib.calls + [call]
      && r.info[n].name == name && r.info[n].desc == desc
      && r.info[n].argValue == arg && r.info[n].cycleCost == cycleCost
      && r.info[n].id == n && r.info[n].shortName == ShortNameFor(n)
      && r.nameMap == lib.nameMap[name := n]
      && At(r, r.nameMap[name]) == Prototype(n, arg + 1, cycleCost != 1)
  {
    var r := Added(lib, name, desc, call, arg, cycleCost);
    AddedWellFormed(lib, name, desc, call, arg, cycleCost);
    assert r.info[..|lib.info|] == lib.info;
  }

  /** A duplicate name changes nothing, so adding a name twice is adding it once. */
  lemma AddTwice(lib: Library, name: string, desc: string, call: CallId, arg: int,
                 cycleCost: int, desc2: string, call2: CallId, arg2: int, cycleCost2: int)
    ensures var once := Added(lib, name, desc, call, arg, cycleCost);
      Added(once, name, desc2, call2, arg2, cycleCost2) == once
  {
  }

  /** The short-name index after Add: updated exactly when the new id is at most 72. */
  lemma AddedShortNames(lib: Library, name: string, desc: string, call: CallId, arg: int,
                        cycleCost: int)
    requires WellFormed(lib)
    requires name !in lib.nameMap
    ensures var r := Added(lib, name, desc, call, arg, cycleCost);
      var n := |lib.info|;
      && (n <= LastChar ==> r.shortNameMap == lib.shortNameMap[ShortNameFor(n) := n])
      && (n > LastChar ==> r.shortNameMap == lib.shortNameMap && r.info[n].shortName == '+')
  {
  }

  // ---------------------------------------------------------------------
  // The short-name index
  // ---------------------------------------------------------------------

  /**
   * Without keys from failed lookups, the short-name index is injective and
   * inverts the short-name assignment for the first 73 entries.
   */
  lemma {:induction false} ShortNameMapInverts(lib: Library)
    requires WellFormed(lib) && Exact(lib)
    ensures forall c1, c2 ::
      (c1 in lib.shortNameMap && c2 in lib.shortNameMap
       && lib.shortNameMap[c1] == lib.shortNameMap[c2]) ==> c1 == c2
    ensures forall i: nat :: i < |lib.info| && i <= LastChar ==>
      lib.info[i].shortName in lib.shortNameMap && lib.shortNameMap[lib.info[i].shortName] == i
    ensures forall c :: c in lib.shortNameMap ==>
      ChartIndex(c) == lib.shortNameMap[c] && c == InstCharChart[lib.shortNameMap[c]]
  {
    forall i: nat | i < |lib.info| && i <= LastChar
      ensures lib.info[i].shortName in lib.shortNameMap && lib.shortNameMap[lib.info[i].shortName] == i
    {
      assert EntryIndexed(lib, i);
    }
    forall c | c in lib.shortNameMap
      ensures ChartIndex(c) == lib.shortNameMap[c] && c == InstCharChart[lib.shortNameMap[c]]
    {
      var i: nat := lib.shortNameMap[c];
      assert EntryShape(lib.info[i], i);
    }
  }

  // ---------------------------------------------------------------------
  // Lookups
  // ---------------------------------------------------------------------

  /** operator[](int): the prototype of entry index. */
  function At(lib: Library, index: int): (p: Prototype)
    requires WellFormed(lib)
    requires 0 <= index < |lib.info|
    ensures p.id == index
    ensures p.arg == lib.info[index].argValue + 1
    ensures p.hasCost <==> lib.info[index].cycleCost != 1
  {
    assert EntryShape(lib.info[index], index);
    lib.info[index].prototype
  }

  /**
   * operator[](string): a known name gives its entry's prototype; an unknown
   * name is reported (the flag) and the map's default-inserted value 0 is used,
   * which leaves name -> 0 in name_map.
   */
  function LookupName(lib: Library, name: string): (r: (Prototype, Library, bool))
    requires WellFormed(lib)
    requires name in lib.nameMap || |lib.info| > 0
    ensures WellFormed(r.1)
    ensures r.2 <==> name !in lib.nameMap
    ensures name in r.1.nameMap && r.0 == At(r.1, r.1.nameMap[name])
    ensures r.1.info == lib.info && r.1.calls == lib.calls
    ensures r.1.shortNameMap == lib.shortNameMap
    ensures r.1.nameMap == if r.2 then lib.nameMap[name := 0] else lib.nameMap
  {
    if name in lib.nameMap then
      (At(lib, lib.nameMap[name]), lib, false)
    else
      var after := lib.(nameMap := lib.nameMap[name := 0]);
      assert forall i: nat :: i < |after.info| ==> EntryIndexed(lib, i) ==> EntryIndexed(after, i);
      (At(after, 0), after, true)
  }

  /**
   * operator[](char): the same for short names; an unknown symbol leaves
   * symbol -> 0 in short_name_map.
   */
  function LookupSymbol(lib: Library, symbol: char): (r: (Prototype, Library, bool))
    requires WellFormed(lib)
    requires symbol in lib.shortNameMap || |lib.info| > 0
    ensures WellFormed(r.1)
    ensures r.2 <==> symbol !in lib.shortNameMap
    ensures symbol in r.1.shortNameMap && r.0 == At(r.1, r.1.shortNameMap[symbol])
    ensures r.1.info == lib.info && r.1.calls == lib.calls && r.1.nameMap == lib.nameMap
    ensures r.1.shortNameMap == if r.2 then lib.shortNameMap[symbol := 0] else lib.shortNameMap
  {
    if symbol in lib.shortNameMap then
      (At(lib, lib.shortNameMap[symbol]), lib, false)
    else
      var after := lib.(shortNameMap := lib.shortNameMap[symbol := 0]);
      assert forall i: nat :: i < |after.info| ==> EntryIndexed(lib, i) ==> EntryIndexed(after, i);
      (At(after, 0), after, true)
  }

  /** Looking up an entry's own name finds that entry and changes nothing. */
  lemma LookupNameOfEntry(lib: Library, i: nat)
    requires WellFormed(lib)
    requires i < |lib.info|
    ensures LookupName(lib, lib.info[i].name) == (At(lib, i), lib, false)
  {
    assert EntryIndexed(lib, i);
  }

  /** Looking up the short name of one of the first 73 entries finds that entry. */
  lemma LookupSymbolOfEntry(lib: Library, i: nat)
    requires WellFormed(lib)
    requires i < |lib.info| && i <= LastChar
    ensures LookupSymbol(lib, ShortNameFor(i)) == (At(lib, i), lib, false)
  {
    assert EntryIndexed(lib, i);
    assert EntryShape(lib.info[i], i);
  }

  /**
   * An unknown name's lookup leaves a key no entry owns, and a later Add of that
   * name is then ignored as a duplicate.
   */
  lemma UnknownNameLookupShadowsAdd(lib: Library, name: string, desc: string, call: CallId,
                                    arg: int, cycleCost: int)
    requires WellFormed(lib) && Exact(lib)
    requires |lib.info| > 0 && name !in lib.nameMap
    ensures var after := LookupName(lib, name).1;
      !Exact(after) && Added(after, name, desc, call, arg, cycleCost) == after
  {
    var after := LookupName(lib, name).1;
    assert lib.info[0].name in lib.nameMap by {
      assert EntryIndexed(lib, 0);
    }
    assert after.nameMap[name] == 0;
    assert after.info[0].name != name;
  }

  /**
   * An unknown symbol's lookup makes the short-name index map two characters to
   * entry 0 when that symbol is not in the chart.
   */
  lemma UnknownSymbolLookupBreaksInjective(lib: Library, symbol: char)
    requires WellFormed(lib)
    requires |lib.info| > 0 && symbol !in lib.shortNameMap && ChartIndex(symbol) == -1
    ensures var after := LookupSymbol(lib, symbol).1;
      ShortNameFor(0) in after.shortNameMap && symbol in after.shortNameMap
      && ShortNameFor(0) != symbol
      && after.shortNameMap[ShortNameFor(0)] == after.shortNameMap[symbol] == 0
  {
    assert EntryIndexed(lib, 0);
    assert EntryShape(lib.info[0], 0);
  }

  /**
   * The lookup operator[](string) is evidently meant to be: the same answer,
   * entry 0 as the default for an unknown name, and no key left behind.
   */
  function FindName(lib: Library, name: string): (r: (Prototype, bool))
    requires WellFormed(lib)
    requires name in lib.nameMap || |lib.info| > 0
    ensures r.1 <==> name !in lib.nameMap
    ensures r.0 == At(lib, if r.1 then 0 else lib.nameMap[name])
  {
    if name in lib.nameMap then (At(lib, lib.nameMap[name]), false) else (At(lib, 0), true)
  }

  /**
   * FindName answers as operator[](string) does, and since it leaves the
   * library alone, a later Add of an unknown name still appends it.
   */
  lemma FindNameThenAdd(lib: Library, name: string, desc: string, call: CallId, arg: int,
                        cycleCost: int)
    requires WellFormed(lib) && Exact(lib)
    requires |lib.info| > 0 && name !in lib.nameMap
    ensures FindName(lib, name) == (LookupName(lib, name).0, LookupName(lib, name).2)
    ensures var r := Added(lib, name, desc, call, arg, cycleCost);
      |r.info| == |lib.info| + 1 && r.nameMap[name] == |lib.info| && Exact(r)
  {
    AddedExact(lib, name, desc, call, arg, cycleCost);
    var after := LookupName(lib, name).1;
    assert EntryShape(after.info[0], 0) && EntryShape(lib.info[0], 0);
  }

  /**
   * The lookup operator[](char) is evidently meant to be: the same answer,
   * entry 0 as the default for an unknown symbol, and no key left behind.
   */
  function FindSymbol(lib: Library, symbol: char): (r: (Prototype, bool))
    requires WellFormed(lib)
    requires symbol in lib.shortNameMap || |lib.info| > 0
    ensures r.1 <==> symbol !in lib.shortNameMap
    ensures r.0 == At(lib, if r.1 then 0 else lib.shortNameMap[symbol])
  {
    if symbol in lib.shortNameMap then (At(lib, lib.shortNameMap[symbol]), false) else (At(lib, 0), true)
  }

  /**
   * FindSymbol answers as operator[](char) does, and since it leaves the
   * library alone, the short-name index stays injective and exact.
   */
  lemma FindSymbolKeepsInjective(lib: Library, symbol: char)
    requires WellFormed(lib) && Exact(lib)
    requires symbol in lib.shortNameMap || |lib.info| > 0
    ensures FindSymbol(lib, symbol) == (LookupSymbol(lib, symbol).0, LookupSymbol(lib, symbol).2)
    ensures forall c1, c2 ::
      (c1 in lib.shortNameMap && c2 in lib.shortNameMap
       && lib.shortNameMap[c1] == lib.shortNameMap[c2]) ==> c1 == c2
  {
    ShortNameMapInverts(lib);
  }
}
