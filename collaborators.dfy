/** The collaborators the profile creator drives but does not implement: the
    sample readers, the address-to-inline-stack resolver (`Addr2line`), the
    `SymbolMap` and the profile writer. Their internals are not part of this
    model; each is reduced to the state the orchestrator can observe and to
    oracles (fields of `Env`) that say what a call returns. */
module Collaborators {
  import opened Wrappers
  import opened FixedWidth

  /** One frame of an inline stack: function name and source position. */
  datatype SourceFrame = SourceFrame(funcName: string, offset: nat)

  /** Innermost frame first; empty when symbolization found nothing. */
  type SourceStack = seq<SourceFrame>

  /** The sample reader `ReadSample` constructs, with its constructor
      arguments: a perf.data reader filtered by binary-name pattern and
      build-id, or a reader of the plain text sample format. */
  datatype SampleReader =
    | PerfDataReader(profile: string, focusBinaryRe: string, buildId: string)
    | TextReader(profile: string)

  /** What a reader reports after `ReadAndSetTotalCount`:
      `GetSampledAddresses()` and `GetTotalSampleCount()`. */
  datatype SampleSet = SampleSet(sampledAddresses: set<uint64>, total: uint64)

  /** How an `Addr2line` was created: for the whole binary
      (`Addr2line::Create`) or restricted to the sampled functions, a map from
      start address to size (`Addr2line::CreateWithSampledFunctions`). */
  datatype Addr2line =
    | WholeBinary(binary: string)
    | SampledFunctions(binary: string, functions: map<uint64, uint64>)

  /** Everything outside the orchestrator that decides what its calls return. */
  datatype Env = Env(
    focusBinaryRe: string,                        // the --focus_binary_re flag
    buildIdOf: string -> string,                  // ElfReader(binary).GetBuildId()
    files: map<string, string>,                   // readable text files, as their text
    readOk: SampleReader -> bool,                 // ReadAndSetTotalCount()
    samplesOf: SampleReader -> SampleSet,         // what the reader then holds
    addr2lineOk: Addr2line -> bool,               // false: the factory returns null
    inlineStack: (Addr2line, uint64) -> SourceStack,  // GetInlineStack(pc)
    symbolsOf: string -> map<uint64, string>,     // GetSymbolInfoByAddr, per binary
    rangesOf: string -> map<uint64, uint64>,      // function start -> size, per binary
    entryOk: (string, uint64) -> bool,            // EnsureEntryInFuncForSymbol
    targetOk: (string, SourceStack) -> bool,      // AddIndirectCallTarget
    writeOk: string -> bool)                      // writing that output file succeeds

  /** Creating an `Addr2line`: null when the binary cannot be read. */
  function CreateAddr2line(a: Addr2line, env: Env): (r: Option<Addr2line>)
    ensures r.Some? <==> env.addr2lineOk(a)
    ensures r.Some? ==> r.value == a
  {
    if env.addr2lineOk(a) then Some(a) else None
  }

  /** The sampled-function table: the functions, start address to size,
      whose range [start, start + size) holds at least one sampled address. */
  function SampledFunctionTable(ranges: map<uint64, uint64>, addrs: set<uint64>): (r: map<uint64, uint64>)
    ensures forall s :: s in r ==> s in ranges && r[s] == ranges[s]
    ensures forall s :: s in r ==> exists a :: a in addrs && s <= a < s as int + ranges[s]
    ensures forall s, a :: s in ranges && a in addrs && s <= a < s as int + ranges[s] ==> s in r
  {
    map s | s in ranges && (exists a :: a in addrs && s <= a < s as int + ranges[s]) :: ranges[s]
  }

  /** More samples never drop a function from the table, and no samples
      give an empty table. */
  lemma SampledFunctionTableGrows(ranges: map<uint64, uint64>, fewer: set<uint64>, more: set<uint64>)
    requires fewer <= more
    ensures SampledFunctionTable(ranges, fewer).Keys <= SampledFunctionTable(ranges, more).Keys
    ensures SampledFunctionTable(ranges, {}) == map[]
  {
    var small := SampledFunctionTable(ranges, fewer);
    forall s | s in small
      ensures s in SampledFunctionTable(ranges, more)
    {
      var a :| a in fewer && s <= a < s as int + ranges[s];
    }
  }

  /** A change the orchestrator makes to a `SymbolMap`'s profile, in call order. */
  datatype Update =
    | EnsureEntry(symbol: string, pc: uint64)
    | AddTarget(symbol: string, stack: SourceStack, target: string, count: uint64)
    | ElideSuffixes
    | AttributeSamples(samples: SampleSet, addr2line: Addr2line)

  /** The symbol map of one binary. Its profile is the log of updates applied
      to it; its lookups are the binary's symbol tables. */
  class SymbolMap {
    const binary: string
    const symbolAt: map<uint64, string>
    const ranges: map<uint64, uint64>
    const entryOk: (string, uint64) -> bool
    const targetOk: (string, SourceStack) -> bool
    var addr2line: Option<Addr2line>
    var ignoreThresholds: bool
    var log: seq<Update>

    constructor (binary: string, env: Env)
      ensures this.binary == binary
      ensures symbolAt == env.symbolsOf(binary) && ranges == env.rangesOf(binary)
      ensures entryOk == env.entryOk && targetOk == env.targetOk
      ensures addr2line == None && !ignoreThresholds && log == []
    {
      this.binary := binary;
      symbolAt := env.symbolsOf(binary);
      ranges := env.rangesOf(binary);
      entryOk := env.entryOk;
      targetOk := env.targetOk;
      addr2line := None;
      ignoreThresholds := false;
      log := [];
    }

    /** `set_addr2line`: the symbol map takes ownership of the resolver. */
    method SetAddr2line(a: Addr2line)
      modifies this
      ensures addr2line == Some(a)
      ensures ignoreThresholds == old(ignoreThresholds) && log == old(log)
    {
      addr2line := Some(a);
    }

    method SetIgnoreThresholds(b: bool)
      modifies this
      ensures ignoreThresholds == b
      ensures addr2line == old(addr2line) && log == old(log)
    {
      ignoreThresholds := b;
    }

    /** `GetSymbolInfoByAddr`: the name of the symbol enclosing `pc`, if any. */
    function GetSymbolInfoByAddr(pc: uint64): (r: Option<string>)
      ensures r.Some? <==> pc in symbolAt
      ensures r.Some? ==> r.value == symbolAt[pc]
    {
      if pc in symbolAt then Some(symbolAt[pc]) else None
    }

    function GetSampledSymbolStartAddressSizeMap(addrs: set<uint64>): map<uint64, uint64> {
      SampledFunctionTable(ranges, addrs)
    }

    method EnsureEntryInFuncForSymbol(symbol: string, pc: uint64) returns (ok: bool)
      modifies this
      ensures ok == entryOk(symbol, pc)
      ensures log == old(log) + [EnsureEntry(symbol, pc)]
      ensures addr2line == old(addr2line) && ignoreThresholds == old(ignoreThresholds)
    {
      ok := entryOk(symbol, pc);
      log := log + [EnsureEntry(symbol, pc)];
    }

    method AddIndirectCallTarget(symbol: string, stack: SourceStack, target: string, count: uint64)
      returns (ok: bool)
      modifies this
      ensures ok == targetOk(symbol, stack)
      ensures log == old(log) + [AddTarget(symbol, stack, target, count)]
      ensures addr2line == old(addr2line) && ignoreThresholds == old(ignoreThresholds)
    {
      ok := targetOk(symbol, stack);
      log := log + [AddTarget(symbol, stack, target, count)];
    }

    method ElideSuffixesAndMerge()
      modifies this
      ensures log == old(log) + [ElideSuffixes]
      ensures addr2line == old(addr2line) && ignoreThresholds == old(ignoreThresholds)
    {
      log := log + [ElideSuffixes];
    }

    /** `Profile(reader, binary, addr2line, this).ComputeProfile()`: the
        attribution of the samples into this map, done outside the model. */
    method AttributeSamplesFrom(samples: SampleSet, a: Addr2line)
      modifies this
      ensures log == old(log) + [AttributeSamples(samples, a)]
      ensures addr2line == old(addr2line) && ignoreThresholds == old(ignoreThresholds)
    {
      log := log + [AttributeSamples(samples, a)];
    }
  }

  /** One profile file a writer produced: its path and the profile of the
      symbol map it was pointed at, as that map stood at the write. */
  datatype Output = Output(path: string, profile: seq<Update>)

  /** The profile writer `CreateProfile` is handed. */
  class ProfileWriter {
    const writeOk: string -> bool
    var symbolMap: SymbolMap?
    var written: seq<Output>   // every WriteToFile call, in order

    constructor (writeOk: string -> bool)
      ensures this.writeOk == writeOk && symbolMap == null && written == []
    {
      this.writeOk := writeOk;
      symbolMap := null;
      written := [];
    }

    method SetSymbolMap(sm: SymbolMap)
      modifies this
      ensures symbolMap == sm && written == old(written)
    {
      symbolMap := sm;
    }

    /** `WriteToFile`: write the profile of the map set by `SetSymbolMap`. */
    method WriteToFile(path: string) returns (ok: bool)
      requires symbolMap != null
      modifies this
      ensures ok == writeOk(path)
      ensures symbolMap == old(symbolMap) && written == old(written) + [Output(path, symbolMap.log)]
    {
      ok := writeOk(path);
      written := written + [Output(path, symbolMap.log)];
    }
  }
}
