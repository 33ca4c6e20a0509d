// The basic-block address model of the Propeller whole-program view
// (llvm_propeller_whole_program_info.h): the BB address map of a binary,
// the handles that name its blocks, the resolution of a binary address to
// a block, and the selection of the functions a profile is built for.

module PropellerProgramInfo {
  import opened Wrappers
  import opened FixedWidth
  import opened Text

  /** One basic block of a function's BB address map: its offset from the
    * function's address and its size in bytes. */
  datatype BbEntry = BbEntry(offset: uint64, size: uint64)

  /** One function of the BB address map: its address and its blocks. */
  datatype FunctionEntry = FunctionEntry(addr: uint64, blocks: seq<BbEntry>)

  /** A block, named by the index of its function in the BB address map and
    * its own index inside that function. */
  datatype BbHandle = BbHandle(functionIndex: nat, bbIndex: nat)

  /** Whether a branch leaves (`From`) or enters (`To`) an address. */
  datatype BranchDirection = From | To

  /** Whether `i` and `j` name two functions that have an alias in common. */
  predicate SharesName(names: map<nat, seq<string>>, i: nat, j: nat)
  {
    i in names && j in names && exists n :: n in names[i] && n in names[j]
  }

  /** Whether another function of `selected` shares an alias with `i`. */
  predicate HasDuplicateName(names: map<nat, seq<string>>, i: nat, selected: set<nat>)
  {
    exists j :: j in selected && j != i && SharesName(names, i, j)
  }

  /** The addresses of the functions of `bbAddrMap` that `selected` leaves out. */
  function DroppedAddresses(bbAddrMap: seq<FunctionEntry>, selected: set<nat>): (r: set<uint64>)
    ensures forall a :: a in r <==>
      exists i :: 0 <= i < |bbAddrMap| && i !in selected && bbAddrMap[i].addr == a
  {
    set i | 0 <= i < |bbAddrMap| && i !in selected :: bbAddrMap[i].addr
  }

  class WholeProgramInfo {
    /** The BB address map read from the binary, one entry per function. */
    var bbAddrMap: seq<FunctionEntry>
    /** The symbol table: the names of the symbols at each address. */
    var symtab: map<uint64, seq<string>>
    /** The aliases of each function, by function index. */
    const functionNames: map<nat, seq<string>>
    /** The function indices whose symbol lies in a text section. */
    const textFunctions: set<nat>
    /** The handles of every block of the selected functions. */
    var bbHandles: seq<BbHandle>

    constructor (bbAddrMap: seq<FunctionEntry>, symtab: map<uint64, seq<string>>,
                 functionNames: map<nat, seq<string>>, textFunctions: set<nat>,
                 bbHandles: seq<BbHandle>)
      ensures this.bbAddrMap == bbAddrMap && this.symtab == symtab
      ensures this.functionNames == functionNames && this.textFunctions == textFunctions
      ensures this.bbHandles == bbHandles
    {
      this.bbAddrMap := bbAddrMap;
      this.symtab := symtab;
      this.functionNames := functionNames;
      this.textFunctions := textFunctions;
      this.bbHandles := bbHandles;
    }

    /** Whether `h` names a block of the BB address map. */
    predicate IsHandle(h: BbHandle)
      reads this
    {
      h.functionIndex < |bbAddrMap| && h.bbIndex < |bbAddrMap[h.functionIndex].blocks|
    }

    /** The BB address map entry of `h`'s block. */
    function GetBbEntry(h: BbHandle): BbEntry
      reads this
      requires IsHandle(h)
    {
      bbAddrMap[h.functionIndex].blocks[h.bbIndex]
    }

    /** The address of `h`'s block: its function's address plus its offset,
      * as a 64-bit unsigned sum. */
    function GetAddress(h: BbHandle): (a: uint64)
      reads this
      requires IsHandle(h)
      ensures a as int == (bbAddrMap[h.functionIndex].addr as int + GetBbEntry(h).offset as int) % TWO_TO_THE_64
      ensures bbAddrMap[h.functionIndex].addr as int + GetBbEntry(h).offset as int < TWO_TO_THE_64 ==>
        a as int == bbAddrMap[h.functionIndex].addr as int + GetBbEntry(h).offset as int
    {
      ((bbAddrMap[h.functionIndex].addr as int + GetBbEntry(h).offset as int) % TWO_TO_THE_64) as uint64
    }

    /** The name of `h`'s function: its first alias, or its address in hex. */
    function FunctionName(h: BbHandle): (name: string)
      reads this
      requires IsHandle(h) && h.functionIndex in functionNames
      ensures |functionNames[h.functionIndex]| > 0 ==> name == functionNames[h.functionIndex][0]
      ensures |functionNames[h.functionIndex]| == 0 ==>
        |name| > 2 && name[..2] == "0x" && AllDigits(name[2..], 16) &&
        ValueOf(name[2..], 16) == bbAddrMap[h.functionIndex].addr as nat
    {
      var aliases := functionNames[h.functionIndex];
      if |aliases| == 0 then
        var hex := Hex(bbAddrMap[h.functionIndex].addr as nat);
        NumeralRoundTrip(bbAddrMap[h.functionIndex].addr as nat, 16);
        assert ("0x" + hex)[2..] == hex;
        "0x" + hex
      else aliases[0]
    }

    /** The name of `h`'s block: its function's name, ':' and the block index. */
    function GetName(h: BbHandle): (name: string)
      reads this
      requires IsHandle(h) && h.functionIndex in functionNames
      ensures var f := FunctionName(h);
        |name| > |f| && name[..|f|] == f && name[|f|] == ':' &&
        AllDigits(name[|f| + 1..], 10) && ValueOf(name[|f| + 1..], 10) == h.bbIndex
    {
      var digits := Decimal(h.bbIndex);
      NumeralRoundTrip(h.bbIndex, 10);
      assert (FunctionName(h) + ":" + digits)[|FunctionName(h)| + 1..] == digits;
      FunctionName(h) + ":" + digits
    }

    // ---------------------------------------------------------------------
    // The order of the handles

    /** `b` comes right after `a` in a table holding every block of its
      * functions: the next block of the same function, or the first block of
      * another function once `a`'s function has no more blocks. */
    predicate NextHandle(a: BbHandle, b: BbHandle)
      reads this
    {
      (a.functionIndex == b.functionIndex && b.bbIndex == a.bbIndex + 1) ||
      (a.functionIndex != b.functionIndex && b.bbIndex == 0 && IsLastBlock(a))
    }

    /** Whether `h` names the last block of its function. */
    predicate IsLastBlock(h: BbHandle)
      reads this
    {
      h.functionIndex < |bbAddrMap| && h.bbIndex == |bbAddrMap[h.functionIndex].blocks| - 1
    }

    /** The handles name blocks, each block once, go up in address, and list
      * every block of each of their functions, function after function, in
      * block order. */
    ghost predicate HandlesOrdered()
      reads this
    {
      (forall h :: h in bbHandles ==> IsHandle(h)) &&
      (forall i, j :: 0 <= i < j < |bbHandles| ==> bbHandles[i] != bbHandles[j]) &&
      (|bbHandles| > 0 ==> (bbHandles[0].bbIndex == 0 && IsLastBlock(bbHandles[|bbHandles| - 1]))) &&
      (forall i :: 0 <= i < |bbHandles| - 1 ==>
        GetAddress(bbHandles[i]) <= GetAddress(bbHandles[i + 1]) &&
        NextHandle(bbHandles[i], bbHandles[i + 1]))
    }

    /** Each block ends where the next one in the table starts, or before. */
    ghost predicate BlocksDisjoint()
      reads this
    {
      (forall h :: h in bbHandles ==> IsHandle(h)) &&
      (forall i :: 0 <= i < |bbHandles| - 1 ==>
        GetAddress(bbHandles[i]) as int + GetBbEntry(bbHandles[i]).size as int <= GetAddress(bbHandles[i + 1]) as int)
    }

    // ---------------------------------------------------------------------
    // Resolving a binary address

    /** The address of handle `i` of the table. */
    function HandleAddress(i: nat): uint64
      reads this
      requires i < |bbHandles| && IsHandle(bbHandles[i])
    {
      GetAddress(bbHandles[i])
    }

    /** The size of the block of handle `i` of the table. */
    function HandleSize(i: nat): uint64
      reads this
      requires i < |bbHandles| && IsHandle(bbHandles[i])
    {
      GetBbEntry(bbHandles[i]).size
    }

    /** The last of the first `n` handles whose block starts at or below
      * `address` (on an address-ordered table, the handle before the first
      * one that starts above it). */
    function LastAtOrBelow(address: uint64, n: nat): (r: Option<nat>)
      reads this
      requires n <= |bbHandles| && forall h :: h in bbHandles ==> IsHandle(h)
      ensures r.Some? ==> (r.value < n && HandleAddress(r.value) <= address &&
        forall j :: r.value < j < n ==> HandleAddress(j) > address)
      ensures r.None? ==> forall j :: 0 <= j < n ==> HandleAddress(j) > address
    {
      if n == 0 then None
      else if HandleAddress(n - 1) <= address then Some(n - 1)
      else LastAtOrBelow(address, n - 1)
    }

    /** From handle `i`, steps back over the empty blocks of the same
      * function that start at the same address, and returns the first one. */
    function FirstOfEmptyRun(i: nat): (r: nat)
      reads this
      requires i < |bbHandles| && forall h :: h in bbHandles ==> IsHandle(h)
      ensures r <= i
      ensures forall j :: r <= j <= i ==>
        bbHandles[j].functionIndex == bbHandles[i].functionIndex && HandleAddress(j) == HandleAddress(i)
      ensures forall j :: r <= j < i ==> HandleSize(j) == 0
      ensures r == 0 || bbHandles[r - 1].functionIndex != bbHandles[i].functionIndex ||
        HandleAddress(r - 1) != HandleAddress(i) || HandleSize(r - 1) != 0
    {
      if i > 0 && bbHandles[i - 1].functionIndex == bbHandles[i].functionIndex &&
         HandleAddress(i - 1) == HandleAddress(i) && HandleSize(i - 1) == 0
      then FirstOfEmptyRun(i - 1)
      else i
    }

    /** The index of the handle whose block a branch in `direction` at
      * `address` belongs to, or None when no block can be mapped.
      * Inside a block, that block. At the start of blocks, `From` takes the
      * last block starting there, and `To` the first empty block before it
      * in the same function. */
    function FindBbHandleIndexUsingBinaryAddress(address: uint64, direction: BranchDirection): (r: Option<nat>)
      reads this
      requires forall h :: h in bbHandles ==> IsHandle(h)
      ensures r.Some? ==> (r.value < |bbHandles| &&
        (HandleAddress(r.value) == address ||
         HandleAddress(r.value) < address < HandleAddress(r.value) as int + HandleSize(r.value) as int))
    {
      match LastAtOrBelow(address, |bbHandles|)
      case None => None
      case Some(i) =>
        if address > HandleAddress(i) then
          if (address as int) < HandleAddress(i) as int + HandleSize(i) as int then Some(i) else None
        else
          match direction
          case From => Some(i)
          case To => Some(FirstOfEmptyRun(i))
    }

    // ---------------------------------------------------------------------
    // Selecting functions

    /** Keeps the functions of `selected` that lie in a text section. */
    method FilterNonTextFunctions(selected: set<nat>) returns (r: set<nat>)
      ensures forall i :: i in r <==> i in selected && i in textFunctions
    {
      r := selected;
      var todo := selected;
      while todo != {}
        invariant todo <= selected
        invariant forall i :: i in r <==> i in selected && (i in todo || i in textFunctions)
        decreases todo
      {
        var i :| i in todo;
        if i !in textFunctions {
          r := r - {i};
        }
        todo := todo - {i};
      }
    }

    /** Keeps the functions of `selected` that have at least one alias. */
    method FilterNoNameFunctions(selected: set<nat>) returns (r: set<nat>)
      ensures forall i :: i in r <==> i in selected && i in functionNames && |functionNames[i]| > 0
    {
      r := selected;
      var todo := selected;
      while todo != {}
        invariant todo <= selected
        invariant forall i :: i in r <==>
          i in selected && (i in todo || (i in functionNames && |functionNames[i]| > 0))
        decreases todo
      {
        var i :| i in todo;
        if i !in functionNames || |functionNames[i]| == 0 {
          r := r - {i};
        }
        todo := todo - {i};
      }
    }

    /** Removes from `selected` every function that shares an alias with
      * another selected function, and returns how many it removed. */
    method FilterDuplicateNameFunctions(selected: set<nat>) returns (r: set<nat>, removed: nat)
      ensures forall i :: i in r <==> i in selected && !HasDuplicateName(functionNames, i, selected)
      ensures removed == |selected| - |r|
    {
      r := selected;
      removed := 0;
      var todo := selected;
      while todo != {}
        invariant todo <= selected && r <= selected
        invariant forall i :: i in r <==>
          i in selected && (i in todo || !HasDuplicateName(functionNames, i, selected))
        invariant removed == |selected| - |r|
        decreases todo
      {
        var i :| i in todo;
        if HasDuplicateName(functionNames, i, selected) {
          r := r - {i};
          removed := removed + 1;
        }
        todo := todo - {i};
      }
    }

    /** Clears the blocks of the functions outside `selected` and removes the
      * symbols at their addresses from the symbol table. */
    method DropNonSelectedFunctions(selected: set<nat>)
      modifies this`bbAddrMap, this`symtab
      ensures |bbAddrMap| == |old(bbAddrMap)|
      ensures forall i :: 0 <= i < |bbAddrMap| ==>
        bbAddrMap[i] == if i in selected then old(bbAddrMap[i]) else old(bbAddrMap[i]).(blocks := [])
      ensures symtab == map a | a in old(symtab) && a !in DroppedAddresses(old(bbAddrMap), selected) :: old(symtab)[a]
    {
      ghost var original := bbAddrMap;
      var i := 0;
      while i < |bbAddrMap|
        invariant 0 <= i <= |bbAddrMap| == |original|
        invariant forall k :: 0 <= k < |bbAddrMap| ==>
          bbAddrMap[k] == if k < i && k !in selected then original[k].(blocks := []) else original[k]
        invariant symtab == map a | a in old(symtab) &&
          a !in (set k | 0 <= k < i && k !in selected :: original[k].addr) :: old(symtab)[a]
      {
        if i !in selected {
          symtab := symtab - {bbAddrMap[i].addr};
          bbAddrMap := bbAddrMap[i := bbAddrMap[i].(blocks := [])];
        }
        i := i + 1;
      }
    }

    /** Keeps the text functions that have a name of their own, and, when
      * `hotOnly`, only those of them in `hot`; drops all others. */
    method SelectFunctions(hotOnly: bool, hot: set<nat>) returns (selected: set<nat>)
      modifies this`bbAddrMap, this`symtab
      ensures forall i :: i in selected <==>
        i < |old(bbAddrMap)| && i in textFunctions && i in functionNames && |functionNames[i]| > 0 &&
        !HasDuplicateName(functionNames, i, NamedTextFunctions(|old(bbAddrMap)|)) &&
        (hotOnly ==> i in hot)
      ensures |bbAddrMap| == |old(bbAddrMap)|
      ensures forall i :: 0 <= i < |bbAddrMap| ==>
        bbAddrMap[i] == if i in selected then old(bbAddrMap[i]) else old(bbAddrMap[i]).(blocks := [])
      ensures symtab == map a | a in old(symtab) && a !in DroppedAddresses(old(bbAddrMap), selected) :: old(symtab)[a]
    {
      var all := Indices(|bbAddrMap|);
      selected := FilterNonTextFunctions(all);
      selected := FilterNoNameFunctions(selected);
      assert selected == NamedTextFunctions(|bbAddrMap|);
      var removed;
      selected, removed := FilterDuplicateNameFunctions(selected);
      if hotOnly {
        selected := selected * hot;
      }
      DropNonSelectedFunctions(selected);
    }

    /** The functions among the first `n` that lie in a text section and have
      * an alias. */
    function NamedTextFunctions(n: nat): (r: set<nat>)
      ensures forall i :: i in r <==> i < n && i in textFunctions && i in functionNames && |functionNames[i]| > 0
    {
      set i | 0 <= i < n && i in textFunctions && i in functionNames && |functionNames[i]| > 0
    }
  }

  /** The function indices below `n`. */
  function Indices(n: nat): (r: set<nat>)
    ensures forall i :: i in r <==> 0 <= i < n
  {
    if n == 0 then {} else Indices(n - 1) + {n - 1}
  }

  // -----------------------------------------------------------------------
  // Properties of the handle order

  /** The index at which the run of handle `j`'s function that holds `j`
    * starts: that handle is the function's block 0, and from there to `j`
    * the handles are the function's blocks in order. */
  ghost function RunStart(info: WholeProgramInfo, j: nat): (s: nat)
    reads info
    requires info.HandlesOrdered()
    requires j < |info.bbHandles|
    ensures s <= j && info.bbHandles[s].bbIndex == 0
    ensures forall m :: s <= m <= j ==>
      info.bbHandles[m].functionIndex == info.bbHandles[j].functionIndex &&
      info.bbHandles[m].bbIndex == m - s
  {
    if j == 0 then 0
    else
      assert info.NextHandle(info.bbHandles[j - 1], info.bbHandles[j]);
      if info.bbHandles[j - 1].functionIndex == info.bbHandles[j].functionIndex
      then RunStart(info, j - 1)
      else j
  }

  /** On an ordered table, addresses never go down. */
  lemma {:induction false} OrderedBetween(info: WholeProgramInfo, i: nat, j: nat)
    requires info.HandlesOrdered()
    requires i <= j < |info.bbHandles|
    ensures info.HandleAddress(i) <= info.HandleAddress(j)
    decreases j - i
  {
    if i < j {
      OrderedBetween(info, i, j - 1);
    }
  }

  /** A function's handles form one run: a handle between two handles of
    * one function belongs to it too, at the matching block index. */
  lemma FunctionHandlesConsecutive(info: WholeProgramInfo, i: nat, j: nat, k: nat)
    requires info.HandlesOrdered()
    requires i <= j <= k < |info.bbHandles|
    requires info.bbHandles[i].functionIndex == info.bbHandles[k].functionIndex
    ensures info.bbHandles[j].functionIndex == info.bbHandles[i].functionIndex
    ensures info.bbHandles[j].bbIndex == info.bbHandles[i].bbIndex + (j - i)
  {
    var si := RunStart(info, i);
    var sk := RunStart(info, k);
    assert info.bbHandles[si] == info.bbHandles[sk];
  }

  /** On a table of disjoint blocks, every block ends before any later one
    * starts. */
  lemma {:induction false} DisjointBetween(info: WholeProgramInfo, i: nat, j: nat)
    requires info.BlocksDisjoint()
    requires i < j < |info.bbHandles|
    ensures info.HandleAddress(i) as int + info.HandleSize(i) as int <= info.HandleAddress(j) as int
    decreases j - i
  {
    if i + 1 < j {
      DisjointBetween(info, i, j - 1);
    }
  }

  // -----------------------------------------------------------------------
  // Properties of address resolution

  /** The last handle at or below `address` is `k` when `k` starts at or
    * below it and every later handle starts above it. */
  lemma {:induction false} LastAtOrBelowIs(info: WholeProgramInfo, address: uint64, n: nat, k: nat)
    requires n <= |info.bbHandles| && forall h :: h in info.bbHandles ==> info.IsHandle(h)
    requires k < n && info.HandleAddress(k) <= address
    requires forall j :: k < j < n ==> info.HandleAddress(j) > address
    ensures info.LastAtOrBelow(address, n) == Some(k)
  {
    if k < n - 1 {
      LastAtOrBelowIs(info, address, n - 1, k);
    }
  }

  /** On a table of disjoint blocks, the last handle starting at or below an
    * address that block `k` starts at or covers is `k` itself, when `k` is
    * not empty. */
  lemma LastAtOrBelowNonEmpty(info: WholeProgramInfo, address: uint64, k: nat)
    requires info.BlocksDisjoint()
    requires k < |info.bbHandles| && info.HandleSize(k) > 0
    requires info.HandleAddress(k) <= address < info.HandleAddress(k) as int + info.HandleSize(k) as int
    ensures info.LastAtOrBelow(address, |info.bbHandles|) == Some(k)
  {
    forall j | k < j < |info.bbHandles|
      ensures info.HandleAddress(j) > address
    {
      DisjointBetween(info, k, j);
    }
    LastAtOrBelowIs(info, address, |info.bbHandles|, k);
  }

  /** An address strictly inside a block resolves to that block in both
    * directions. */
  lemma InsideBlock(info: WholeProgramInfo, address: uint64, k: nat, direction: BranchDirection)
    requires info.BlocksDisjoint()
    requires k < |info.bbHandles|
    requires info.HandleAddress(k) < address < info.HandleAddress(k) as int + info.HandleSize(k) as int
    ensures info.FindBbHandleIndexUsingBinaryAddress(address, direction) == Some(k)
  {
    LastAtOrBelowNonEmpty(info, address, k);
  }

  /** An address at the start of a non-empty block that no empty block of
    * the same function shares resolves to that block in both directions;
    * empty blocks of another function at the address are not returned. */
  lemma AtStartOfBlock(info: WholeProgramInfo, k: nat, direction: BranchDirection)
    requires info.BlocksDisjoint()
    requires k < |info.bbHandles| && info.HandleSize(k) > 0
    requires k == 0 || info.HandleAddress(k - 1) != info.HandleAddress(k) ||
      info.bbHandles[k - 1].functionIndex != info.bbHandles[k].functionIndex
    ensures info.FindBbHandleIndexUsingBinaryAddress(info.HandleAddress(k), direction) == Some(k)
  {
    LastAtOrBelowNonEmpty(info, info.HandleAddress(k), k);
  }

  /** When empty blocks `s`..`k-1` of one function start at the address of
    * its non-empty block `k`, a branch to the address resolves to the first
    * of them and a branch from it to `k`. */
  lemma SharedStart(info: WholeProgramInfo, s: nat, k: nat)
    requires info.BlocksDisjoint()
    requires s < k < |info.bbHandles| && info.HandleSize(k) > 0
    requires forall j :: s <= j < k ==>
      info.HandleAddress(j) == info.HandleAddress(k) && info.HandleSize(j) == 0 &&
      info.bbHandles[j].functionIndex == info.bbHandles[k].functionIndex
    requires s == 0 || info.HandleAddress(s - 1) != info.HandleAddress(k) ||
      info.bbHandles[s - 1].functionIndex != info.bbHandles[k].functionIndex
    ensures info.FindBbHandleIndexUsingBinaryAddress(info.HandleAddress(k), To) == Some(s)
    ensures info.FindBbHandleIndexUsingBinaryAddress(info.HandleAddress(k), From) == Some(k)
  {
    LastAtOrBelowNonEmpty(info, info.HandleAddress(k), k);
    RunStartsAt(info, s, k);
  }

  /** Stepping back from `k` over a run of empty blocks that starts at `s`
    * stops at `s`. */
  lemma {:induction false} RunStartsAt(info: WholeProgramInfo, s: nat, k: nat)
    requires forall h :: h in info.bbHandles ==> info.IsHandle(h)
    requires s <= k < |info.bbHandles|
    requires forall j :: s <= j < k ==>
      info.HandleAddress(j) == info.HandleAddress(k) && info.HandleSize(j) == 0 &&
      info.bbHandles[j].functionIndex == info.bbHandles[k].functionIndex
    requires s == 0 || info.HandleAddress(s - 1) != info.HandleAddress(k) ||
      info.bbHandles[s - 1].functionIndex != info.bbHandles[k].functionIndex ||
      info.HandleSize(s - 1) != 0
    ensures info.FirstOfEmptyRun(k) == s
    decreases k
  {
    if s < k {
      RunStartsAt(info, s, k - 1);
    }
  }

  /** On a table of disjoint blocks, an address resolves to no block exactly
    * when no block starts at it or contains it. */
  lemma UnmappedIffNone(info: WholeProgramInfo, address: uint64, direction: BranchDirection)
    requires info.BlocksDisjoint()
    ensures info.FindBbHandleIndexUsingBinaryAddress(address, direction).None? <==>
      forall j :: 0 <= j < |info.bbHandles| ==>
        !(info.HandleAddress(j) == address ||
          info.HandleAddress(j) < address < info.HandleAddress(j) as int + info.HandleSize(j) as int)
  {
    if info.FindBbHandleIndexUsingBinaryAddress(address, direction).None? {
      forall j | 0 <= j < |info.bbHandles|
        ensures !(info.HandleAddress(j) == address ||
          info.HandleAddress(j) < address < info.HandleAddress(j) as int + info.HandleSize(j) as int)
      {
        if info.HandleAddress(j) <= address {
          var i := info.LastAtOrBelow(address, |info.bbHandles|).value;
          if j < i {
            DisjointBetween(info, j, i);
          }
        }
      }
    }
  }

  /** The table of blocks of two functions `foo` (index 0) and `bar`
    * (index 1) that the resolution rules are documented on: `foo.5` to
    * `foo.10` followed by `bar.0`. */
  ghost predicate IsDocumentedTable(info: WholeProgramInfo)
    reads info
  {
    info.bbAddrMap == [
      FunctionEntry(0, [BbEntry(0, 4), BbEntry(4, 4), BbEntry(8, 4), BbEntry(0xc, 2), BbEntry(0xe, 2),
                        BbEntry(0x10, 0x6), BbEntry(0x16, 0x4), BbEntry(0x1a, 0), BbEntry(0x1a, 0),
                        BbEntry(0x1a, 0x6), BbEntry(0x20, 0)]),
      FunctionEntry(0x20, [BbEntry(0, 0x10)])] &&
    info.bbHandles == [BbHandle(0, 5), BbHandle(0, 6), BbHandle(0, 7), BbHandle(0, 8),
                       BbHandle(0, 9), BbHandle(0, 10), BbHandle(1, 0)]
  }

  /** The addresses and sizes of the documented table's blocks. */
  lemma DocumentedLayout(info: WholeProgramInfo)
    requires IsDocumentedTable(info)
    ensures forall h :: h in info.bbHandles ==> info.IsHandle(h)
    ensures info.HandleAddress(0) == 0x10 && info.HandleSize(0) == 0x6
    ensures info.HandleAddress(1) == 0x16 && info.HandleSize(1) == 0x4
    ensures info.HandleAddress(2) == 0x1a && info.HandleSize(2) == 0
    ensures info.HandleAddress(3) == 0x1a && info.HandleSize(3) == 0
    ensures info.HandleAddress(4) == 0x1a && info.HandleSize(4) == 0x6
    ensures info.HandleAddress(5) == 0x20 && info.HandleSize(5) == 0
    ensures info.HandleAddress(6) == 0x20 && info.HandleSize(6) == 0x10
    ensures info.BlocksDisjoint()
  {
  }

  /** The five documented resolutions on that table: 0x12 lies in `foo.5`;
    * 0x16 starts `foo.6` alone; a branch to 0x1a enters the empty `foo.7`
    * and one from 0x1a leaves `foo.9`; 0x20 is `bar.0`, never the empty
    * `foo.10` of the other function. */
  lemma DocumentedResolutions(info: WholeProgramInfo, direction: BranchDirection)
    requires IsDocumentedTable(info)
    ensures info.FindBbHandleIndexUsingBinaryAddress(0x12, direction) == Some(0)
    ensures info.FindBbHandleIndexUsingBinaryAddress(0x16, direction) == Some(1)
    ensures info.FindBbHandleIndexUsingBinaryAddress(0x1a, To) == Some(2)
    ensures info.FindBbHandleIndexUsingBinaryAddress(0x1a, From) == Some(4)
    ensures info.FindBbHandleIndexUsingBinaryAddress(0x20, direction) == Some(6)
  {
    DocumentedLayout(info);
    InsideBlock(info, 0x12, 0, direction);
    AtStartOfBlock(info, 1, direction);
    SharedStart(info, 2, 4);
    AtStartOfBlock(info, 6, direction);
  }

  // -----------------------------------------------------------------------
  // Properties of block names

  /** A block's name ends in ':' and its block index, and what comes before
    * the last ':' is its function's first alias, or "0x" and the function's
    * address in hex when it has none. */
  lemma NameParts(info: WholeProgramInfo, h: BbHandle)
    requires info.IsHandle(h) && h.functionIndex in info.functionNames
    ensures var name := info.GetName(h);
      ':' in name &&
      var k := LastIndexOf(name, ':');
      AllDigits(name[k + 1..], 10) && ValueOf(name[k + 1..], 10) == h.bbIndex &&
      (|info.functionNames[h.functionIndex]| > 0 ==> name[..k] == info.functionNames[h.functionIndex][0]) &&
      (|info.functionNames[h.functionIndex]| == 0 ==>
        (2 <= k && name[..2] == "0x" && AllDigits(name[2..k], 16) &&
         ValueOf(name[2..k], 16) == info.bbAddrMap[h.functionIndex].addr as nat))
  {
    var digits := Decimal(h.bbIndex);
    assert ':' !in digits by {
      assert AllDigits(digits, 10);
    }
    LastIndexOfJoin(info.FunctionName(h), ':', digits);
    NumeralRoundTrip(h.bbIndex, 10);
    if |info.functionNames[h.functionIndex]| == 0 {
      var hex := Hex(info.bbAddrMap[h.functionIndex].addr as nat);
      NumeralRoundTrip(info.bbAddrMap[h.functionIndex].addr as nat, 16);
      assert info.FunctionName(h)[2..] == hex;
    }
  }

  /** Two blocks of one function have different names. */
  lemma NamesDistinctInFunction(info: WholeProgramInfo, h1: BbHandle, h2: BbHandle)
    requires info.IsHandle(h1) && info.IsHandle(h2) && h1.functionIndex in info.functionNames
    requires h1.functionIndex == h2.functionIndex && h1.bbIndex != h2.bbIndex
    ensures info.GetName(h1) != info.GetName(h2)
  {
    NameParts(info, h1);
    NameParts(info, h2);
  }
}
