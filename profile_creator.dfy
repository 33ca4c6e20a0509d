/** The AutoFDO profile-creation orchestrator (profile_creator.cc): picks and
    primes a sample reader, restricts symbolization to the sampled
    functions, converts prefetch hints into indirect-call targets, merges
    sample files and reports sample totals. */
module ProfileCreation {
  import opened Wrappers
  import opened FixedWidth
  import opened Text
  import opened Collaborators
  import opened PrefetchHints

  /** kMinPerfBuildIDStringLength: the length quipper pads build-ids to. */
  const BUILD_ID_LENGTH: nat := 40

  const UNSTRIPPED: string := ".unstripped"

  /** A non-empty build-id shorter than 40 characters is right-padded with
      '0' to 40; an empty or a long enough one is left alone. */
  function PadBuildId(id: string): (r: string)
    ensures 0 < |id| < BUILD_ID_LENGTH ==>
      |r| == BUILD_ID_LENGTH && r[..|id|] == id && forall i :: |id| <= i < |r| ==> r[i] == '0'
    ensures (|id| == 0 || |id| >= BUILD_ID_LENGTH) ==> r == id
  {
    if 0 < |id| < BUILD_ID_LENGTH then id + seq(BUILD_ID_LENGTH - |id|, _ => '0') else id
  }

  /** The binary path cut at the first ".unstripped", everything after it dropped. */
  function StripUnstripped(path: string): (r: string)
    ensures |r| <= |path| && r == path[..|r|]
    ensures |r| < |path| ==> OccursAt(path, UNSTRIPPED, |r|)
    ensures forall j :: 0 <= j ==> !OccursAt(r, UNSTRIPPED, j)
  {
    match Find(path, UNSTRIPPED)
    case None =>
      path
    case Some(i) =>
      var r := path[..i];
      forall j | 0 <= j && OccursAt(r, UNSTRIPPED, j) ensures OccursAt(path, UNSTRIPPED, j) {
        assert r[j..j + |UNSTRIPPED|] == path[j..j + |UNSTRIPPED|];
      }
      r
  }

  /** `base` is what follows the last '/' of `path` (all of it if there is none). */
  predicate IsLastComponent(base: string, path: string) {
    && |base| <= |path| && base == path[|path| - |base|..]
    && '/' !in base
    && (|base| < |path| ==> path[|path| - |base| - 1] == '/')
  }

  /** The regular expression that selects the profiled binary's samples: the
      --focus_binary_re flag when set, otherwise ".*", then '/', then the last
      component of the binary path cut at ".unstripped", then "$". */
  function FocusBinaryRe(flag: string, binary: string): (r: string)
    ensures flag != "" ==> r == flag
    ensures flag == "" ==>
      && |r| >= 4 && r[..3] == ".*/" && r[|r| - 1] == '$'
      && IsLastComponent(r[3..|r| - 1], StripUnstripped(binary))
  {
    if flag != "" then flag
    else
      var base := Basename(StripUnstripped(binary));
      var r := ".*/" + base + "$";
      assert r[3..|r| - 1] == base;
      r
  }

  /** The reader `ReadSample` constructs for a profiler kind: only "perf" and
      "text" have one. The build-id is read, and padded, only when the focus
      pattern is derived from the binary path; with the flag set it is empty. */
  function SelectReader(profiler: string, input: string, binary: string, env: Env): (r: Option<SampleReader>)
    ensures r.Some? <==> profiler == "perf" || profiler == "text"
    ensures profiler == "text" ==> r == Some(TextReader(input))
    ensures profiler == "perf" ==>
      && r.value.PerfDataReader? && r.value.profile == input
      && r.value.focusBinaryRe == FocusBinaryRe(env.focusBinaryRe, binary)
      && r.value.buildId == (if env.focusBinaryRe == "" then PadBuildId(env.buildIdOf(binary)) else "")
  {
    if profiler == "perf" then
      if env.focusBinaryRe != "" then Some(PerfDataReader(input, env.focusBinaryRe, ""))
      else Some(PerfDataReader(input, FocusBinaryRe("", binary), PadBuildId(env.buildIdOf(binary))))
    else if profiler == "text" then Some(TextReader(input))
    else None
  }

  /** The hints of a hint file: none when it cannot be opened. */
  function HintsOfFile(file: string, env: Env): seq<PrefetchHint> {
    if file in env.files then ScanHints(env.files[file]) else []
  }

  /** What conversion looks up in a symbol map whose resolver covers the whole binary. */
  function ConversionLookup(symbolAt: map<uint64, string>, entryOk: (string, uint64) -> bool,
                            binary: string, env: Env): Lookup
  {
    Lookup(symbolAt, entryOk, env.inlineStack, WholeBinary(binary))
  }

  /** What `CreateProfile` puts into its fresh symbol map when every step
      before the write succeeds: the resolver the map then holds and its
      profile. Prefetch hints need the resolver for the whole binary and
      give their conversion updates and one suffix elision; any other kind
      needs a reader that reads and a resolver for the sampled functions,
      and gives the one attribution of the samples. `None` when a step fails. */
  function CreatedProfile(binary: string, input: string, profiler: string, env: Env): Option<(Addr2line, seq<Update>)> {
    if profiler == "prefetch" then
      var a := WholeBinary(binary);
      if !env.addr2lineOk(a) then None
      else
        var hints := HintsOfFile(input, env);
        var lookup := ConversionLookup(env.symbolsOf(binary), env.entryOk, binary, env);
        Some((a, ConversionUpdates(hints, |hints|, lookup) + [ElideSuffixes]))
    else match SelectReader(profiler, input, binary, env)
      case None => None
      case Some(r) =>
        if !env.readOk(r) then None
        else
          var samples := env.samplesOf(r);
          var a := SampledFunctions(binary, SampledFunctionTable(env.rangesOf(binary), samples.sampledAddresses));
          if env.addr2lineOk(a) then Some((a, [AttributeSamples(samples, a)])) else None
  }

  /** The profile `CreateProfile` writes: from prefetch hints, entries and
      targets for the symbols at the hint addresses followed by one suffix
      elision; from samples, only their attribution through the resolver
      restricted to the sampled functions. */
  lemma CreatedProfileContents(binary: string, input: string, profiler: string, env: Env)
    requires CreatedProfile(binary, input, profiler, env).Some?
    ensures var (a, log) := CreatedProfile(binary, input, profiler, env).value;
      var symbolAt := env.symbolsOf(binary);
      && (profiler == "prefetch" ==>
            && a == WholeBinary(binary) && |log| > 0 && log[|log| - 1] == ElideSuffixes
            && forall k :: 0 <= k < |log| - 1 ==>
                 (log[k].EnsureEntry? || log[k].AddTarget?) && log[k].symbol in symbolAt.Values)
      && (profiler != "prefetch" ==>
            && a.SampledFunctions? && a.binary == binary
            && |log| == 1 && log[0] == AttributeSamples(env.samplesOf(SelectReader(profiler, input, binary, env).value), a))
  {
    if profiler == "prefetch" {
      var hints := HintsOfFile(input, env);
      var lookup := ConversionLookup(env.symbolsOf(binary), env.entryOk, binary, env);
      var updates := ConversionUpdates(hints, |hints|, lookup);
      UpdatesOnlyForKnownSymbols(hints, |hints|, lookup);
      var log := updates + [ElideSuffixes];
      forall k | 0 <= k < |log| - 1
        ensures (log[k].EnsureEntry? || log[k].AddTarget?) && log[k].symbol in env.symbolsOf(binary).Values
      {
        assert log[k] == updates[k] && updates[k] in updates;
      }
    }
  }

  class ProfileCreator {
    const binary: string
    var reader: Option<SampleReader>   // sample_reader_; None is a null pointer

    constructor (binary: string)
      ensures this.binary == binary && reader == None
    {
      this.binary := binary;
      reader := None;
    }

    /** `ReadSample`: construct the reader for `profiler` and read it. An
        unsupported kind fails with the old reader kept; a reader whose read
        fails is kept and the call fails. */
    method ReadSample(input: string, profiler: string, env: Env) returns (ok: bool)
      modifies this
      ensures var selected := SelectReader(profiler, input, binary, env);
        && ok == (selected.Some? && env.readOk(selected.value))
        && reader == (if selected.Some? then selected else old(reader))
    {
      var selected := SelectReader(profiler, input, binary, env);
      if selected.None? {
        return false;
      }
      reader := selected;
      ok := env.readOk(selected.value);
    }

    /** `TotalSamples`: the reader's total, 0 without a reader. */
    function TotalSamples(env: Env): (total: uint64)
      reads this
      ensures reader.None? ==> total == 0
      ensures reader.Some? ==> total == env.samplesOf(reader.value).total
    {
      match reader
      case None => 0
      case Some(r) => env.samplesOf(r).total
    }

    /** `CheckAndAssignAddr2Line`: fail on a null resolver, else hand it over. */
    method CheckAndAssignAddr2Line(sm: SymbolMap, a: Option<Addr2line>) returns (ok: bool)
      modifies sm
      ensures ok == a.Some?
      ensures sm.addr2line == (if ok then a else old(sm.addr2line))
      ensures sm.log == old(sm.log) && sm.ignoreThresholds == old(sm.ignoreThresholds)
    {
      if a.None? {
        return false;
      }
      sm.SetAddr2line(a.value);
      ok := true;
    }

    /** `ComputeProfile`: symbolize only the functions holding a sampled
        address, then attribute the samples; nothing is attributed when the
        restricted resolver cannot be built. */
    method ComputeProfile(sm: SymbolMap, env: Env) returns (ok: bool)
      requires reader.Some?
      modifies sm
      ensures var samples := env.samplesOf(reader.value);
        var a := SampledFunctions(binary, SampledFunctionTable(sm.ranges, samples.sampledAddresses));
        && ok == env.addr2lineOk(a)
        && sm.addr2line == (if ok then Some(a) else old(sm.addr2line))
        && sm.log == old(sm.log) + (if ok then [AttributeSamples(samples, a)] else [])
        && sm.ignoreThresholds == old(sm.ignoreThresholds)
    {
      var samples := env.samplesOf(reader.value);
      var sampledFunctions := sm.GetSampledSymbolStartAddressSizeMap(samples.sampledAddresses);
      var a := SampledFunctions(binary, sampledFunctions);
      ok := CheckAndAssignAddr2Line(sm, CreateAddr2line(a, env));
      if !ok {
        return;
      }
      sm.AttributeSamplesFrom(samples, a);
    }

    /** `ConvertPrefetchHints`: fails only when the resolver for the whole
        binary cannot be built; otherwise every hint is applied in file
        order (see `ConversionUpdates`), a failed target is only reported,
        and suffix elision runs once at the end. */
    method ConvertPrefetchHints(profileFile: string, sm: SymbolMap, env: Env) returns (ok: bool)
      modifies sm
      ensures ok == env.addr2lineOk(WholeBinary(binary))
      ensures sm.ignoreThresholds == old(sm.ignoreThresholds)
      ensures !ok ==> sm.addr2line == old(sm.addr2line) && sm.log == old(sm.log)
      ensures ok ==> var hints := HintsOfFile(profileFile, env);
        && sm.addr2line == Some(WholeBinary(binary))
        && sm.log == old(sm.log)
             + ConversionUpdates(hints, |hints|, ConversionLookup(sm.symbolAt, sm.entryOk, binary, env))
             + [ElideSuffixes]
    {
      ok := CheckAndAssignAddr2Line(sm, CreateAddr2line(WholeBinary(binary), env));
      if !ok {
        return;
      }
      var hints := ReadPrefetchHints(if profileFile in env.files then Some(env.files[profileFile]) else None);
      var lookup := ConversionLookup(sm.symbolAt, sm.entryOk, binary, env);
      ConvertHints(hints, sm, env, lookup);
      sm.ElideSuffixesAndMerge();
    }

    /** The conversion loop: every hint, in file order, with the counters
        `repeated_prefetches_indices` starting empty. */
    method ConvertHints(hints: seq<PrefetchHint>, sm: SymbolMap, env: Env, ghost lookup: Lookup)
      requires lookup == ConversionLookup(sm.symbolAt, sm.entryOk, binary, env)
      requires sm.addr2line == Some(WholeBinary(binary))
      modifies sm
      ensures sm.log == old(sm.log) + ConversionUpdates(hints, |hints|, lookup)
      ensures sm.addr2line == old(sm.addr2line) && sm.ignoreThresholds == old(sm.ignoreThresholds)
    {
      var indices: map<uint64, uint8> := map[];   // repeated_prefetches_indices
      IndicesStart(hints, sm.symbolAt);
      ghost var log0 := sm.log;
      var i := 0;
      while i < |hints|
        invariant 0 <= i <= |hints|
        invariant sm.addr2line == old(sm.addr2line) && sm.ignoreThresholds == old(sm.ignoreThresholds)
        invariant sm.log == log0 + ConversionUpdates(hints, i, lookup)
        invariant IndicesAgree(indices, hints, i, sm.symbolAt)
      {
        indices := ConvertHint(hints, i, indices, sm, env, lookup, log0);
        i := i + 1;
      }
    }

    /** One turn of the conversion loop: look up the symbol at the hint's
        address; a hint without one is passed over, any other takes its
        index from the counter of its address, which is post-incremented. */
    method ConvertHint(hints: seq<PrefetchHint>, i: nat, indices: map<uint64, uint8>, sm: SymbolMap, env: Env,
                       ghost lookup: Lookup, ghost log0: seq<Update>)
      returns (next: map<uint64, uint8>)
      requires i < |hints|
      requires sm.log == log0 + ConversionUpdates(hints, i, lookup)
      requires lookup == ConversionLookup(sm.symbolAt, sm.entryOk, binary, env)
      requires sm.addr2line == Some(WholeBinary(binary))
      requires IndicesAgree(indices, hints, i, sm.symbolAt)
      modifies sm
      ensures IndicesAgree(next, hints, i + 1, sm.symbolAt)
      ensures sm.log == old(sm.log) + HintUpdates(hints[i], PrefetchIndex(hints, i), lookup)
      ensures sm.log == log0 + ConversionUpdates(hints, i + 1, lookup)
      ensures sm.addr2line == old(sm.addr2line) && sm.ignoreThresholds == old(sm.ignoreThresholds)
    {
      var hint := hints[i];
      var pc := hint.address;
      var name := sm.GetSymbolInfoByAddr(pc);
      if name.Some? {
        var index: uint8 := if pc in indices then indices[pc] else 0;
        IndicesAdvance(indices, hints, i, sm.symbolAt);
        next := indices[pc := Increment8(index)];
        ApplyHint(hint, name.value, index, sm, env, lookup);
      } else {
        IndicesSkip(indices, hints, i, sm.symbolAt);
        next := indices;
      }
      AppendUpdates(log0, hints, i, lookup);
    }

    /** The body of the conversion loop for a hint whose address has a
        symbol and that got `index`: make sure the function has an entry at
        the address, and only then attach the synthetic target, whose count
        is the delta read as unsigned. */
    method ApplyHint(hint: PrefetchHint, name: string, index: uint8, sm: SymbolMap, env: Env, ghost lookup: Lookup)
      requires lookup == ConversionLookup(sm.symbolAt, sm.entryOk, binary, env)
      requires hint.address in sm.symbolAt && name == sm.symbolAt[hint.address]
      requires sm.addr2line == Some(WholeBinary(binary))
      modifies sm
      ensures sm.log == old(sm.log) + HintUpdates(hint, index, lookup)
      ensures sm.addr2line == old(sm.addr2line) && sm.ignoreThresholds == old(sm.ignoreThresholds)
    {
      var pc := hint.address;
      var stack := env.inlineStack(sm.addr2line.value, pc);
      var entryOk := sm.EnsureEntryInFuncForSymbol(name, pc);
      if entryOk {
        // A rejected target (typically an empty inline stack) is only reported.
        var _ := sm.AddIndirectCallTarget(name, stack, TargetName(hint.hintType, index),
                                          AsUnsigned64(hint.delta));
      }
    }

    /** `CreateProfile`: populate a fresh symbol map, either from prefetch
        hints (with thresholds ignored) or by reading samples and computing
        the profile, and write it only when every step succeeded. */
    method CreateProfile(input: string, profiler: string, writer: ProfileWriter, output: string, env: Env)
      returns (ok: bool)
      modifies this, writer
      ensures var created := CreatedProfile(binary, input, profiler, env);
        && writer.written == old(writer.written) + (if created.Some? then [Output(output, created.value.1)] else [])
        && ok == (created.Some? && writer.writeOk(output))
      ensures writer.symbolMap != null && fresh(writer.symbolMap) && writer.symbolMap.binary == binary
      ensures var created := CreatedProfile(binary, input, profiler, env);
        && writer.symbolMap.ignoreThresholds == (profiler == "prefetch")
        && writer.symbolMap.addr2line == (if created.Some? then Some(created.value.0) else None)
        && writer.symbolMap.log == (if created.Some? then created.value.1 else [])
      ensures profiler == "prefetch" ==> reader == old(reader)
      ensures profiler != "prefetch" ==>
        var selected := SelectReader(profiler, input, binary, env);
        reader == (if selected.Some? then selected else old(reader))
    {
      var sm := new SymbolMap(binary, env);
      writer.SetSymbolMap(sm);
      ok := PopulateProfile(input, profiler, sm, env);
      if ok {
        ok := writer.WriteToFile(output);
      }
    }

    /** The part of `CreateProfile` that fills the symbol map: the prefetch
        conversion, or reading the samples and computing the profile. It
        succeeds exactly when `CreatedProfile` gives a profile, and the map
        then holds that profile's resolver and log; on failure the map holds
        no resolver and no updates. */
    method PopulateProfile(input: string, profiler: string, sm: SymbolMap, env: Env) returns (ok: bool)
      requires sm.binary == binary && sm.symbolAt == env.symbolsOf(binary) && sm.ranges == env.rangesOf(binary)
      requires sm.entryOk == env.entryOk && sm.targetOk == env.targetOk
      requires sm.addr2line == None && !sm.ignoreThresholds && sm.log == []
      modifies this, sm
      ensures var created := CreatedProfile(binary, input, profiler, env);
        && ok == created.Some?
        && sm.ignoreThresholds == (profiler == "prefetch")
        && sm.addr2line == (if ok then Some(created.value.0) else None)
        && sm.log == (if ok then created.value.1 else [])
      ensures profiler == "prefetch" ==> reader == old(reader)
      ensures profiler != "prefetch" ==>
        var selected := SelectReader(profiler, input, binary, env);
        reader == (if selected.Some? then selected else old(reader))
    {
      ghost var created := CreatedProfile(binary, input, profiler, env);
      if profiler == "prefetch" {
        sm.SetIgnoreThresholds(true);
        ok := ConvertPrefetchHints(input, sm, env);
        assert ok ==> sm.log == created.value.1;
      } else {
        ok := ReadSample(input, profiler, env);
        if !ok {
          assert created.None?;
          return;
        }
        ok := ComputeProfile(sm, env);
        assert ok ==> sm.log == created.value.1;
      }
    }

    /** `GetTotalCountFromTextProfile`: the total of a text sample file, or
        0 when it cannot be read. */
    static method GetTotalCountFromTextProfile(input: string, env: Env) returns (total: uint64)
      ensures env.readOk(TextReader(input)) ==> total == env.samplesOf(TextReader(input)).total
      ensures !env.readOk(TextReader(input)) ==> total == 0
    {
      var creator := new ProfileCreator("");
      var ok := creator.ReadSample(input, "text", env);
      if !ok {
        return 0;
      }
      total := creator.TotalSamples(env);
    }
  }

  /** The one write `MergeSample` makes: the output's existing samples (none
      when the file did not exist) merged with the new ones. */
  datatype MergeWrite = MergeWrite(path: string, existing: Option<SampleSet>, incoming: SampleSet)

  /** `MergeSample`: read the existing output if there is one, read the new
      samples, merge and write; a failed read means no write. */
  method MergeSample(input: string, profiler: string, binary: string, output: string, env: Env)
    returns (ok: bool, write: Option<MergeWrite>)
    ensures var existingOk := output !in env.files || env.readOk(TextReader(output));
      var incoming := SelectReader(profiler, input, binary, env);
      write.Some? <==> existingOk && incoming.Some? && env.readOk(incoming.value)
    ensures write.Some? ==>
      write.value == MergeWrite(output,
        if output in env.files then Some(env.samplesOf(TextReader(output))) else None,
        env.samplesOf(SelectReader(profiler, input, binary, env).value))
    ensures ok <==> write.Some? && env.writeOk(output)
  {
    var existing: Option<SampleSet> := None;
    if output in env.files {
      if !env.readOk(TextReader(output)) {
        return false, None;
      }
      existing := Some(env.samplesOf(TextReader(output)));
    }
    var creator := new ProfileCreator(binary);
    var read := creator.ReadSample(input, profiler, env);
    if !read {
      return false, None;
    }
    write := Some(MergeWrite(output, existing, env.samplesOf(creator.reader.value)));
    ok := env.writeOk(output);
  }
}
