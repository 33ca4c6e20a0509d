/** The cache-prefetch hint file and the rules by which hints become
    synthetic indirect-call targets in a symbol map (profile_creator.cc). */
module PrefetchHints {
  import opened Wrappers
  import opened FixedWidth
  import opened Text
  import opened Collaborators

  /** One hint: the PC of a memory operation, the signed delta to the next
      cache miss, and the hint type (e.g. NTA, T0), which is not validated. */
  datatype PrefetchHint = PrefetchHint(address: uint64, delta: int64, hintType: string)

  /** The white space `fscanf` skips: `isspace` in the C locale. */
  predicate IsSpace(c: char) {
    c == ' ' || c == '\t' || c == '\n' || c == '\r' || c as int == 11 || c as int == 12
  }

  predicate IsBlank(s: string) {
    forall i :: 0 <= i < |s| ==> IsSpace(s[i])
  }

  /** What `%s` stores: a non-empty run of non-space characters. */
  predicate IsToken(s: string) {
    |s| > 0 && forall i :: 0 <= i < |s| ==> !IsSpace(s[i])
  }

  // ---------------------------------------------------------------------
  // Reading the hint file with `fscanf(fp, "%lx,%ld,%s\n", ...)`
  //
  // `fscanf` reads a stream of characters, not lines. Each numeric and `%s`
  // conversion first skips white space; each ',' of the format must be the
  // very next character; the final "\n" skips any white space, CR and LF
  // included. A scan either yields a hint and the unread rest of the file
  // or fails, and the reading loop stops at the first failing scan.

  /** `s` without its leading white space. */
  function SkipSpace(s: string): (r: string)
    ensures |r| <= |s|
    ensures r == [] || !IsSpace(r[0])
  {
    if s != [] && IsSpace(s[0]) then SkipSpace(s[1..]) else s
  }

  /** What `SkipSpace` drops is white space and what it keeps is the rest. */
  lemma {:induction false} SkipSpaceSplits(s: string)
    ensures var r := SkipSpace(s);
      s == s[..|s| - |r|] + r && IsBlank(s[..|s| - |r|])
  {
    if s != [] && IsSpace(s[0]) {
      SkipSpaceSplits(s[1..]);
      var r := SkipSpace(s);
      assert s[..|s| - |r|] == [s[0]] + s[1..][..|s| - 1 - |r|];
    }
  }

  /** The length of the longest run of `base` digits at the start of `s`. */
  function DigitRun(s: string, base: nat): (n: nat)
    ensures n <= |s|
    ensures n == |s| || !IsDigit(s[n], base)
  {
    if s != [] && IsDigit(s[0], base) then 1 + DigitRun(s[1..], base) else 0
  }

  /** What `DigitRun` measures is made of digits. */
  lemma {:induction false} DigitRunDigits(s: string, base: nat)
    ensures AllDigits(s[..DigitRun(s, base)], base)
  {
    if s != [] && IsDigit(s[0], base) {
      DigitRunDigits(s[1..], base);
      var n := DigitRun(s, base);
      assert s[..n] == [s[0]] + s[1..][..n - 1];
    }
  }

  /** The length of the longest run of non-space characters at the start of `s`. */
  function TokenRun(s: string): (n: nat)
    ensures n <= |s|
    ensures n == |s| || IsSpace(s[n])
  {
    if s != [] && !IsSpace(s[0]) then 1 + TokenRun(s[1..]) else 0
  }

  /** What `TokenRun` measures holds no white space. */
  lemma {:induction false} TokenRunToken(s: string)
    ensures forall i :: 0 <= i < TokenRun(s) ==> !IsSpace(s[i])
  {
    if s != [] && !IsSpace(s[0]) {
      TokenRunToken(s[1..]);
      assert forall i :: 1 <= i < TokenRun(s) ==> s[i] == s[1..][i - 1];
    }
  }

  /** `%lx`: after white space, the longest run of hex digits, when there is
      one and its value fits in 64 bits; with the text after it. */
  function ScanHex(s: string): (r: Option<(uint64, string)>)
    ensures r.Some? ==> |r.value.1| < |s|
  {
    var t := SkipSpace(s);
    var n := DigitRun(t, 16);
    DigitRunDigits(t, 16);
    if n == 0 || ValueOf(t[..n], 16) >= TWO_TO_THE_64 then None
    else Some((ValueOf(t[..n], 16), t[n..]))
  }

  /** `%ld`: after white space, an optional sign and the longest run of
      decimal digits, when there is one and the value fits in 64 bits. */
  function ScanDecimal(s: string): (r: Option<(int64, string)>)
    ensures r.Some? ==> |r.value.1| < |s|
  {
    var t := SkipSpace(s);
    var signed := t != [] && (t[0] == '-' || t[0] == '+');
    var u := if signed then t[1..] else t;
    var n := DigitRun(u, 10);
    DigitRunDigits(u, 10);
    if n == 0 then None
    else
      var magnitude: int := ValueOf(u[..n], 10);
      var v := if signed && t[0] == '-' then -magnitude else magnitude;
      if -TWO_TO_THE_63 <= v < TWO_TO_THE_63 then Some((v, u[n..])) else None
  }

  /** `%s`: after white space, the longest run of non-space characters, when
      there is one. */
  function ScanToken(s: string): (r: Option<(string, string)>)
    ensures r.Some? ==> IsToken(r.value.0) && |r.value.1| < |s|
    ensures r.Some? ==> r.value.1 == [] || IsSpace(r.value.1[0])
  {
    var t := SkipSpace(s);
    var n := TokenRun(t);
    TokenRunToken(t);
    if n == 0 then None else Some((t[..n], t[n..]))
  }

  /** One `fscanf(fp, "%lx,%ld,%s\n", ...)` that assigns all three fields:
      the hint and what is left of the file after the trailing white space. */
  function ScanHint(s: string): (r: Option<(PrefetchHint, string)>)
    ensures r.Some? ==> |r.value.1| < |s| && IsToken(r.value.0.hintType)
    ensures r.Some? ==> r.value.1 == [] || !IsSpace(r.value.1[0])
  {
    match ScanHex(s)
    case None => None
    case Some((address, afterHex)) =>
      if afterHex == [] || afterHex[0] != ',' then None
      else match ScanDecimal(afterHex[1..])
      case None => None
      case Some((delta, afterDelta)) =>
        if afterDelta == [] || afterDelta[0] != ',' then None
        else match ScanToken(afterDelta[1..])
        case None => None
        case Some((hintType, afterType)) =>
          Some((PrefetchHint(address, delta, hintType), SkipSpace(afterType)))
  }

  /** The hints the reading loop collects from a file's text: one per scan,
      in file order, up to the first scan that fails. */
  function ScanHints(s: string): seq<PrefetchHint>
    decreases |s|
  {
    match ScanHint(s)
    case None => []
    case Some((h, rest)) => [h] + ScanHints(rest)
  }

  /** `ReadPrefetchHints`: read the hints of a file that may not open. The
      loop runs while `feof` is false; end of file is reached when a scan
      runs into it, that is when nothing but white space followed the hint
      it read. */
  method ReadPrefetchHints(file: Option<string>) returns (hints: seq<PrefetchHint>)
    ensures file.None? ==> hints == []
    ensures file.Some? ==> hints == ScanHints(file.value)
  {
    hints := [];
    if file.None? {
      return;
    }
    var rest := file.value;
    var eof := false;
    while !eof
      invariant ScanHints(file.value) == hints + ScanHints(rest)
      invariant eof ==> rest == []
      decreases |rest|, if eof then 0 else 1
    {
      var scanned := ScanHint(rest);
      match scanned {
        case None =>
          assert ScanHints(rest) == [];
          break;
        case Some((h, next)) =>
          ScanHintsStep(rest, h, next);
          hints := hints + [h];
          rest := next;
          eof := next == [];
      }
    }
  }

  /** The signed decimal `%ld` reads. */
  function SignedDecimal(d: int64): string {
    if d < 0 then "-" + Decimal(-(d as int)) else Decimal(d)
  }

  /** A hint as the file format writes it, without the line end. */
  function FormatHint(h: PrefetchHint): string {
    Hex(h.address) + "," + SignedDecimal(h.delta) + "," + h.hintType
  }

  /** Skipping white space looks through a blank prefix. */
  lemma {:induction false} SkipBlank(ws: string, t: string)
    requires IsBlank(ws)
    ensures SkipSpace(ws + t) == SkipSpace(t)
  {
    if ws != [] {
      assert (ws + t)[0] == ws[0] && (ws + t)[1..] == ws[1..] + t;
      SkipBlank(ws[1..], t);
    } else {
      assert ws + t == t;
    }
  }

  /** A digit run followed by a non-digit is read whole. */
  lemma {:induction false} DigitRunOf(d: string, rest: string, base: nat)
    requires AllDigits(d, base) && (rest == [] || !IsDigit(rest[0], base))
    ensures DigitRun(d + rest, base) == |d|
  {
    if d != [] {
      assert (d + rest)[1..] == d[1..] + rest;
      DigitRunOf(d[1..], rest, base);
    }
  }

  /** A token followed by white space or the end is read whole. */
  lemma {:induction false} TokenRunOf(tok: string, rest: string)
    requires forall i :: 0 <= i < |tok| ==> !IsSpace(tok[i])
    requires rest == [] || IsSpace(rest[0])
    ensures TokenRun(tok + rest) == |tok|
  {
    if tok != [] {
      assert (tok + rest)[1..] == tok[1..] + rest;
      TokenRunOf(tok[1..], rest);
    }
  }

  /** `%lx` reads back every 64-bit value written in hex, after any white
      space and up to the first character that is not a hex digit. */
  lemma ScanHexOf(n: uint64, ws: string, rest: string)
    requires IsBlank(ws) && (rest == [] || !IsDigit(rest[0], 16))
    ensures ScanHex(ws + Hex(n) + rest) == Some((n, rest))
  {
    var hex := Hex(n);
    SkipBlank(ws, hex + rest);
    assert ws + hex + rest == ws + (hex + rest);
    assert SkipSpace(hex + rest) == hex + rest by {
      assert (hex + rest)[0] == hex[0] && IsDigit(hex[0], 16);
    }
    DigitRunOf(hex, rest, 16);
    assert (hex + rest)[..|hex|] == hex && (hex + rest)[|hex|..] == rest;
    NumeralRoundTrip(n, 16);
  }

  /** `%ld` reads back every 64-bit delta written in decimal, after any
      white space and up to the first character that is not a digit. */
  lemma ScanDecimalOf(d: int64, ws: string, rest: string)
    requires IsBlank(ws) && (rest == [] || !IsDigit(rest[0], 10))
    ensures ScanDecimal(ws + SignedDecimal(d) + rest) == Some((d, rest))
  {
    var t := SignedDecimal(d) + rest;
    ScanDecimalAfterBlank(ws, t);
    assert ws + SignedDecimal(d) + rest == ws + t;
    if d < 0 {
      ScanNegativeOf(-(d as int), rest);
    } else {
      ScanNonNegativeOf(d, rest);
    }
  }

  lemma ScanDecimalAfterBlank(ws: string, t: string)
    requires IsBlank(ws)
    ensures ScanDecimal(ws + t) == ScanDecimal(t)
  {
    SkipBlank(ws, t);
  }

  lemma ScanNonNegativeOf(m: nat, rest: string)
    requires m < TWO_TO_THE_63 && (rest == [] || !IsDigit(rest[0], 10))
    ensures ScanDecimal(Decimal(m) + rest) == Some((m, rest))
  {
    var digits := Decimal(m);
    var t := digits + rest;
    assert t[0] == digits[0] && IsDigit(digits[0], 10);
    assert SkipSpace(t) == t;
    DigitRunOf(digits, rest, 10);
    assert t[..|digits|] == digits && t[|digits|..] == rest;
    NumeralRoundTrip(m, 10);
  }

  lemma ScanNegativeOf(m: nat, rest: string)
    requires 0 < m <= TWO_TO_THE_63 && (rest == [] || !IsDigit(rest[0], 10))
    ensures ScanDecimal("-" + Decimal(m) + rest) == Some((-(m as int), rest))
  {
    var digits := Decimal(m);
    var u := digits + rest;
    var t := "-" + Decimal(m) + rest;
    assert t == ['-'] + u;
    assert t[0] == '-' && t[1..] == u;
    assert SkipSpace(t) == t;
    DigitRunOf(digits, rest, 10);
    assert u[..|digits|] == digits && u[|digits|..] == rest;
    NumeralRoundTrip(m, 10);
  }

  /** `%s` reads back a token, after any white space and up to the next
      white space or the end. */
  lemma ScanTokenOf(tok: string, ws: string, rest: string)
    requires IsToken(tok) && IsBlank(ws) && (rest == [] || IsSpace(rest[0]))
    ensures ScanToken(ws + tok + rest) == Some((tok, rest))
  {
    SkipBlank(ws, tok + rest);
    assert ws + tok + rest == ws + (tok + rest);
    assert SkipSpace(tok + rest) == tok + rest by { assert (tok + rest)[0] == tok[0]; }
    TokenRunOf(tok, rest);
    assert (tok + rest)[..|tok|] == tok && (tok + rest)[|tok|..] == rest;
  }

  /** A scan that reads all three fields yields their hint. */
  lemma ScanHintOf(s: string, address: uint64, afterHex: string, delta: int64, afterDelta: string,
                   hintType: string, afterType: string)
    requires ScanHex(s) == Some((address, afterHex))
    requires afterHex != [] && afterHex[0] == ','
    requires ScanDecimal(afterHex[1..]) == Some((delta, afterDelta))
    requires afterDelta != [] && afterDelta[0] == ','
    requires ScanToken(afterDelta[1..]) == Some((hintType, afterType))
    ensures ScanHint(s) == Some((PrefetchHint(address, delta, hintType), SkipSpace(afterType)))
  {
  }

  /** A hint whose fields are written as the format says, with any white
      space before each field and white space (or the end) after the type,
      scans back to itself, leaving the text after that white space. */
  lemma ScanSpacedHint(h: PrefetchHint, w1: string, w2: string, w3: string, rest: string)
    requires IsBlank(w1) && IsBlank(w2) && IsBlank(w3) && IsToken(h.hintType)
    requires rest == [] || IsSpace(rest[0])
    ensures ScanHint(w1 + Hex(h.address) + "," + w2 + SignedDecimal(h.delta) + "," + w3 + h.hintType + rest)
      == Some((h, SkipSpace(rest)))
  {
    var typed := w3 + h.hintType + rest;
    var afterDelta := [','] + typed;
    var delta := w2 + SignedDecimal(h.delta) + afterDelta;
    var afterHex := [','] + delta;
    SpacedLayout(w1, Hex(h.address), w2, SignedDecimal(h.delta), w3, h.hintType, rest);
    ScanHexOf(h.address, w1, afterHex);
    ScanDecimalOf(h.delta, w2, afterDelta);
    ScanTokenOf(h.hintType, w3, rest);
    ScanHintOf(w1 + Hex(h.address) + afterHex, h.address, afterHex, h.delta, afterDelta, h.hintType, rest);
  }

  /** How the three fields of a line and the two commas nest. */
  lemma SpacedLayout(w1: string, hex: string, w2: string, dec: string, w3: string, hintType: string, rest: string)
    ensures var afterDelta := [','] + (w3 + hintType + rest);
      var afterHex := [','] + (w2 + dec + afterDelta);
      && w1 + hex + "," + w2 + dec + "," + w3 + hintType + rest == w1 + hex + afterHex
      && afterHex[0] == ',' && afterHex[1..] == w2 + dec + afterDelta
      && afterDelta[0] == ',' && afterDelta[1..] == w3 + hintType + rest
  {
    var afterDelta := [','] + (w3 + hintType + rest);
    var afterHex := [','] + (w2 + dec + afterDelta);
    assert afterHex[1..] == w2 + dec + afterDelta;
    assert afterDelta[1..] == w3 + hintType + rest;
  }

  /** Leading white space does not change what the reading loop collects. */
  lemma ScanHintsAfterBlank(ws: string, t: string)
    requires IsBlank(ws)
    ensures ScanHints(ws + t) == ScanHints(t)
  {
    SkipBlank(ws, t);
  }

  /** Nor does skipping it first. */
  lemma ScanHintsAfterSkip(s: string)
    ensures ScanHints(SkipSpace(s)) == ScanHints(s)
  {
    var r := SkipSpace(s);
    SkipSpaceSplits(s);
    ScanHintsAfterBlank(s[..|s| - |r|], r);
  }

  /** A scan that yields a hint puts it before the hints of the rest. */
  lemma ScanHintsStep(s: string, h: PrefetchHint, rest: string)
    requires ScanHint(s) == Some((h, rest))
    ensures ScanHints(s) == [h] + ScanHints(rest)
  {
  }

  /** A hint file written from `hints`, each followed by the line end `eol`. */
  function FormatHints(hints: seq<PrefetchHint>, eol: string): string {
    if hints == [] then [] else FormatHint(hints[0]) + eol + FormatHints(hints[1..], eol)
  }

  /** Reading a file written from hints gives back exactly those hints, in
      order, for any line end made of white space (LF, CR LF, ...), and the
      reading then goes on with whatever follows. */
  lemma {:induction false} ReadFormattedHints(hints: seq<PrefetchHint>, eol: string, tail: string)
    requires forall i :: 0 <= i < |hints| ==> IsToken(hints[i].hintType)
    requires eol != [] && IsBlank(eol)
    ensures ScanHints(FormatHints(hints, eol) + tail) == hints + ScanHints(tail)
  {
    if hints != [] {
      var more := FormatHints(hints[1..], eol) + tail;
      FormatHintsCons(hints, eol, tail);
      ReadOneHint(hints[0], eol, more);
      ReadFormattedHints(hints[1..], eol, tail);
      ConsAppend(hints, ScanHints(tail));
    } else {
      assert FormatHints(hints, eol) + tail == tail;
    }
  }

  lemma FormatHintsCons(hints: seq<PrefetchHint>, eol: string, tail: string)
    requires hints != []
    ensures FormatHints(hints, eol) + tail == FormatHint(hints[0]) + eol + (FormatHints(hints[1..], eol) + tail)
  {
  }

  lemma ConsAppend<T>(xs: seq<T>, ys: seq<T>)
    requires xs != []
    ensures xs + ys == [xs[0]] + (xs[1..] + ys)
  {
  }

  /** One written hint and its line end read as that hint, and the reading
      goes on after them. */
  lemma ReadOneHint(h: PrefetchHint, eol: string, more: string)
    requires IsToken(h.hintType) && eol != [] && IsBlank(eol)
    ensures ScanHints(FormatHint(h) + eol + more) == [h] + ScanHints(more)
  {
    var rest := eol + more;
    var s := FormatHint(h) + eol + more;
    assert s == [] + Hex(h.address) + "," + [] + SignedDecimal(h.delta) + "," + [] + h.hintType + rest;
    ScanSpacedHint(h, [], [], [], rest);
    ScanHintsStep(s, h, SkipSpace(rest));
    ScanHintsAfterSkip(rest);
    ScanHintsAfterBlank(eol, more);
  }

  /** Text that does not scan as a hint ends the reading: the hints written
      before it are all that is read, whatever comes after. */
  lemma ReadingStopsAtUnreadable(hints: seq<PrefetchHint>, eol: string, junk: string)
    requires forall i :: 0 <= i < |hints| ==> IsToken(hints[i].hintType)
    requires eol != [] && IsBlank(eol)
    requires ScanHint(junk).None?
    ensures ScanHints(FormatHints(hints, eol) + junk) == hints
  {
    ReadFormattedHints(hints, eol, junk);
  }

  // ---------------------------------------------------------------------
  // Conversion of hints into indirect-call targets

  /** What conversion looks up for a hint: the symbol enclosing an address
      (`GetSymbolInfoByAddr`), whether `EnsureEntryInFuncForSymbol` succeeds,
      and the inline stack the resolver gives for an address. */
  datatype Lookup = Lookup(
    symbolAt: map<uint64, string>,
    entryOk: (string, uint64) -> bool,
    inlineStack: (Addr2line, uint64) -> SourceStack,
    resolver: Addr2line)
  {
    function StackOf(pc: uint64): SourceStack {
      inlineStack(resolver, pc)
    }
  }

  /** The number of hints before position `i` at address `pc`. */
  function CountAt(hints: seq<PrefetchHint>, i: nat, pc: uint64): nat
    requires i <= |hints|
  {
    if i == 0 then 0
    else CountAt(hints, i - 1, pc) + (if hints[i - 1].address == pc then 1 else 0)
  }

  /** The index the hint at position `i` gets when its address has a symbol:
      the number of earlier hints at the same address (all of which passed
      the lookup too), reduced modulo 256 because the counter is a `uint8_t`. */
  function PrefetchIndex(hints: seq<PrefetchHint>, i: nat): (index: uint8)
    requires i < |hints|
    ensures index as int == |EarlierAt(hints, i, hints[i].address)| % TWO_TO_THE_8
  {
    CountIsEarlier(hints, i, hints[i].address);
    CountAt(hints, i, hints[i].address) % TWO_TO_THE_8
  }

  /** The positions before `i` of the hints at address `pc`. */
  function EarlierAt(hints: seq<PrefetchHint>, i: nat, pc: uint64): set<nat>
    requires i <= |hints|
  {
    set k: nat | k < i && hints[k].address == pc
  }

  /** The running count is the number of those positions. */
  lemma {:induction false} CountIsEarlier(hints: seq<PrefetchHint>, i: nat, pc: uint64)
    requires i <= |hints|
    ensures CountAt(hints, i, pc) == |EarlierAt(hints, i, pc)|
  {
    if i > 0 {
      CountIsEarlier(hints, i - 1, pc);
      if hints[i - 1].address == pc {
        assert EarlierAt(hints, i, pc) == EarlierAt(hints, i - 1, pc) + {i - 1};
      } else {
        assert EarlierAt(hints, i, pc) == EarlierAt(hints, i - 1, pc);
      }
    }
  }

  /** The synthetic indirect-call target of a hint: `__prefetch_`, the hint
      type, '_' and the index in decimal, which reads back. */
  function TargetName(hintType: string, index: uint8): (name: string)
    ensures |name| > |PREFETCH_PREFIX| + |hintType| + 1
    ensures name[..|PREFETCH_PREFIX|] == PREFETCH_PREFIX
    ensures name[|PREFETCH_PREFIX|..|PREFETCH_PREFIX| + |hintType|] == hintType
    ensures name[|PREFETCH_PREFIX| + |hintType|] == '_'
    ensures var digits := name[|PREFETCH_PREFIX| + |hintType| + 1..];
      AllDigits(digits, 10) && ValueOf(digits, 10) == index as nat
  {
    var digits := Decimal(index);
    NumeralRoundTrip(index as nat, 10);
    var name := PREFETCH_PREFIX + hintType + "_" + digits;
    assert name[|PREFETCH_PREFIX| + |hintType| + 1..] == digits;
    assert name[|PREFETCH_PREFIX|..|PREFETCH_PREFIX| + |hintType|] == hintType;
    name
  }

  /** The prefix of every synthetic prefetch target. */
  const PREFETCH_PREFIX := "__prefetch_"

  /** What one hint does to the symbol map: nothing when its address has no
      symbol; otherwise an entry request for that symbol, followed, only
      when the entry exists, by a target named after the hint with the
      delta's 64-bit unsigned reading as its count. */
  function HintUpdates(hint: PrefetchHint, index: uint8, lookup: Lookup): seq<Update> {
    if hint.address !in lookup.symbolAt then []
    else
      var name := lookup.symbolAt[hint.address];
      [EnsureEntry(name, hint.address)]
      + if lookup.entryOk(name, hint.address) then
          [AddTarget(name, lookup.StackOf(hint.address), TargetName(hint.hintType, index),
                     AsUnsigned64(hint.delta))]
        else []
  }

  /** The cases of one hint: nothing when its address has no symbol;
      otherwise an entry request for that symbol, followed, only when the
      entry exists, by a target named after the hint, counting the delta
      modulo 2^64. */
  lemma HintUpdatesCases(hint: PrefetchHint, index: uint8, lookup: Lookup)
    ensures var u := HintUpdates(hint, index, lookup);
      && (u == [] <==> hint.address !in lookup.symbolAt)
      && (u != [] ==> u[0] == EnsureEntry(lookup.symbolAt[hint.address], hint.address))
      && |u| <= 2
      && (|u| == 2 <==>
            hint.address in lookup.symbolAt && lookup.entryOk(lookup.symbolAt[hint.address], hint.address))
      && (|u| == 2 ==>
            u[1].AddTarget? && u[1].symbol == lookup.symbolAt[hint.address] &&
            u[1].target == TargetName(hint.hintType, index) &&
            u[1].count as int % TWO_TO_THE_64 == hint.delta as int % TWO_TO_THE_64)
  {
  }

  /** What the first `n` hints do to the symbol map, in order. */
  function ConversionUpdates(hints: seq<PrefetchHint>, n: nat, lookup: Lookup): (u: seq<Update>)
    requires n <= |hints|
    ensures |u| <= 2 * n
  {
    if n == 0 then []
    else ConversionUpdates(hints, n - 1, lookup) + HintUpdates(hints[n - 1], PrefetchIndex(hints, n - 1), lookup)
  }

  /** Appending the updates of the next hint to those of the earlier ones. */
  lemma AppendUpdates(log: seq<Update>, hints: seq<PrefetchHint>, i: nat, lookup: Lookup)
    requires i < |hints|
    ensures log + ConversionUpdates(hints, i, lookup) + HintUpdates(hints[i], PrefetchIndex(hints, i), lookup)
      == log + ConversionUpdates(hints, i + 1, lookup)
  {
  }

  /** `repeated_prefetches_indices` after the first `i` hints: an entry for
      each address with a symbol that has had a hint, holding the number of
      those hints modulo 256. */
  ghost predicate IndicesAgree(indices: map<uint64, uint8>, hints: seq<PrefetchHint>, i: nat,
                               symbolAt: map<uint64, string>)
    requires i <= |hints|
  {
    && (forall pc :: pc in indices ==> pc in symbolAt && indices[pc] == CountAt(hints, i, pc) % TWO_TO_THE_8)
    && (forall pc :: pc in symbolAt && pc !in indices ==> CountAt(hints, i, pc) == 0)
  }

  lemma IndicesStart(hints: seq<PrefetchHint>, symbolAt: map<uint64, string>)
    ensures IndicesAgree(map[], hints, 0, symbolAt)
  {
  }

  /** A hint with no symbol leaves the counters as they are. */
  lemma IndicesSkip(indices: map<uint64, uint8>, hints: seq<PrefetchHint>, i: nat, symbolAt: map<uint64, string>)
    requires i < |hints| && hints[i].address !in symbolAt
    requires IndicesAgree(indices, hints, i, symbolAt)
    ensures IndicesAgree(indices, hints, i + 1, symbolAt)
  {
    forall pc | pc in indices ensures indices[pc] == CountAt(hints, i + 1, pc) % TWO_TO_THE_8 {
      assert CountAt(hints, i + 1, pc) == CountAt(hints, i, pc);
    }
  }

  /** A hint with a symbol reads its counter (0 when absent), which is its
      `PrefetchIndex`, and post-increments it. */
  lemma IndicesAdvance(indices: map<uint64, uint8>, hints: seq<PrefetchHint>, i: nat, symbolAt: map<uint64, string>)
    requires i < |hints| && hints[i].address in symbolAt
    requires IndicesAgree(indices, hints, i, symbolAt)
    ensures var pc := hints[i].address;
      var index := if pc in indices then indices[pc] else 0;
      && index == PrefetchIndex(hints, i)
      && IndicesAgree(indices[pc := Increment8(index)], hints, i + 1, symbolAt)
  {
    var pc := hints[i].address;
    var index := if pc in indices then indices[pc] else 0;
    IncrementMod(CountAt(hints, i, pc));
    var next := indices[pc := Increment8(index)];
    forall q | q in next ensures next[q] == CountAt(hints, i + 1, q) % TWO_TO_THE_8 {
      CountStep(hints, i, q);
    }
    forall q | q in symbolAt && q !in next ensures CountAt(hints, i + 1, q) == 0 {
      CountStep(hints, i, q);
    }
  }

  /** A uint8 counter in step with a count stays in step after both increment. */
  lemma IncrementMod(c: nat)
    ensures Increment8(c % TWO_TO_THE_8) == (c + 1) % TWO_TO_THE_8
  {
  }

  lemma CountStep(hints: seq<PrefetchHint>, i: nat, q: uint64)
    requires i < |hints|
    ensures CountAt(hints, i + 1, q) == CountAt(hints, i, q) + (if hints[i].address == q then 1 else 0)
  {
  }

  /** Hints that all share one address get indices 0, 1, 2, ... in input
      order, wrapping to 0 after 255. */
  lemma {:induction false} SameAddressIndices(hints: seq<PrefetchHint>, i: nat)
    requires i < |hints|
    requires forall k :: 0 <= k < |hints| ==> hints[k].address == hints[0].address
    ensures PrefetchIndex(hints, i) == i % TWO_TO_THE_8
  {
    CountAllSame(hints, i, hints[0].address);
  }

  lemma {:induction false} CountAllSame(hints: seq<PrefetchHint>, i: nat, pc: uint64)
    requires i <= |hints|
    requires forall k :: 0 <= k < |hints| ==> hints[k].address == pc
    ensures CountAt(hints, i, pc) == i
  {
    if i > 0 {
      CountAllSame(hints, i - 1, pc);
    }
  }

  /** Each hint at an address is counted by every later position. */
  lemma {:induction false} CountGrows(hints: seq<PrefetchHint>, i: nat, j: nat)
    requires i < j <= |hints|
    ensures CountAt(hints, j, hints[i].address) >= CountAt(hints, i, hints[i].address) + 1
  {
    if j > i + 1 {
      CountGrows(hints, i, j - 1);
    }
  }

  /** Two hints at one address get distinct, increasing indices as long as
      fewer than 256 hints precede the later one there. */
  lemma IndicesIncrease(hints: seq<PrefetchHint>, i: nat, j: nat)
    requires i < j < |hints| && hints[i].address == hints[j].address
    requires CountAt(hints, j, hints[j].address) < TWO_TO_THE_8
    ensures PrefetchIndex(hints, i) < PrefetchIndex(hints, j)
  {
    CountGrows(hints, i, j);
  }

  /** Every update made by conversion is an entry or a target for a symbol
      that encloses the hint's address: a hint with no enclosing symbol
      leaves no trace. */
  lemma {:induction false} UpdatesOnlyForKnownSymbols(hints: seq<PrefetchHint>, n: nat, lookup: Lookup)
    requires n <= |hints|
    ensures forall u :: u in ConversionUpdates(hints, n, lookup) ==>
      (u.EnsureEntry? && u.pc in lookup.symbolAt && u.symbol == lookup.symbolAt[u.pc]) ||
      (u.AddTarget? && (exists k :: 0 <= k < n && hints[k].address in lookup.symbolAt &&
                                    u.symbol == lookup.symbolAt[hints[k].address]))
  {
    if n > 0 {
      UpdatesOnlyForKnownSymbols(hints, n - 1, lookup);
    }
  }

  /** The two example lines read as two hints at 0x1000, whatever white
      space ends each line (LF, CR LF, ...). */
  lemma ExampleLinesParse(eol: string)
    requires eol != [] && IsBlank(eol)
    ensures ScanHints("1000,64,T0" + eol + "1000,-32,NTA" + eol) ==
      [PrefetchHint(0x1000, 64, "T0"), PrefetchHint(0x1000, -32, "NTA")]
  {
    var hints := [PrefetchHint(0x1000, 64, "T0"), PrefetchHint(0x1000, -32, "NTA")];
    ExampleLinesFormat(hints, eol);
    ReadFormattedHints(hints, eol, []);
    assert FormatHints(hints, eol) + [] == FormatHints(hints, eol);
  }

  /** Text after the type on the first line keeps the first hint and ends
      the reading there: the second line is never read. */
  lemma ExampleJunkEndsReading(ws: string, eol: string)
    requires ws != [] && IsBlank(ws) && IsBlank(eol)
    ensures ScanHints("1000,64,T0" + ws + "junk" + eol + "1000,-32,NTA" + eol) == [PrefetchHint(0x1000, 64, "T0")]
  {
    var first := [PrefetchHint(0x1000, 64, "T0")];
    var junk := "junk" + eol + "1000,-32,NTA" + eol;
    assert junk[0] == 'j';
    assert SkipSpace(junk) == junk;
    assert DigitRun(junk, 16) == 0;
    assert ScanHint(junk).None?;
    ExampleLineFormat(first, ws);
    assert "1000,64,T0" + ws + "junk" + eol + "1000,-32,NTA" + eol == FormatHints(first, ws) + junk;
    ReadingStopsAtUnreadable(first, ws, junk);
  }

  /** The two example hints at 0x1000 are written `1000,64,T0` and
      `1000,-32,NTA`, each followed by the line end. */
  lemma ExampleLinesFormat(hints: seq<PrefetchHint>, eol: string)
    requires hints == [PrefetchHint(0x1000, 64, "T0"), PrefetchHint(0x1000, -32, "NTA")]
    ensures FormatHints(hints, eol) == "1000,64,T0" + eol + "1000,-32,NTA" + eol
  {
    ExampleLineFormat(hints[..1], eol);
    assert Numeral(32, 10) == "32";
    assert FormatHint(hints[1]) == "1000,-32,NTA";
    assert hints[1..][1..] == [];
    assert FormatHints(hints[1..], eol) == "1000,-32,NTA" + eol;
  }

  /** The first example hint is written `1000,64,T0`. */
  lemma ExampleLineFormat(hints: seq<PrefetchHint>, eol: string)
    requires |hints| >= 1 && hints[0] == PrefetchHint(0x1000, 64, "T0")
    ensures FormatHint(hints[0]) == "1000,64,T0"
    ensures |hints| == 1 ==> FormatHints(hints, eol) == "1000,64,T0" + eol
  {
    assert Numeral(0x1000, 16) == Numeral(0x100, 16) + "0";
    assert Numeral(0x100, 16) == Numeral(0x10, 16) + "0";
    assert Numeral(0x10, 16) == "10";
    assert Numeral(64, 10) == "64";
    assert FormatHint(hints[0]) == "1000,64,T0";
  }

  /** The hints of the example lines, at 0x1000, an address inside `foo`,
      become the targets `__prefetch_T0_0` with count 64 and `__prefetch_NTA_1` with count
      2^64 - 32, both on the inline stack of 0x1000. */
  lemma TwoHintsAtOneAddress(lookup: Lookup)
    requires 0x1000 in lookup.symbolAt && lookup.symbolAt[0x1000] == "foo"
    requires lookup.entryOk("foo", 0x1000)
    ensures var hints := [PrefetchHint(0x1000, 64, "T0"), PrefetchHint(0x1000, -32, "NTA")];
      ConversionUpdates(hints, 2, lookup) ==
        [EnsureEntry("foo", 0x1000),
         AddTarget("foo", lookup.StackOf(0x1000), "__prefetch_T0_0", 64),
         EnsureEntry("foo", 0x1000),
         AddTarget("foo", lookup.StackOf(0x1000), "__prefetch_NTA_1", TWO_TO_THE_64 - 32)]
  {
    var hints := [PrefetchHint(0x1000, 64, "T0"), PrefetchHint(0x1000, -32, "NTA")];
    var stack := lookup.StackOf(0x1000);
    assert PrefetchIndex(hints, 0) == 0;
    assert PrefetchIndex(hints, 1) == 1 by {
      assert CountAt(hints, 1, 0x1000) == 1;
    }
    assert TargetName("T0", 0) == "__prefetch_T0_0" by { assert Decimal(0) == "0"; }
    assert TargetName("NTA", 1) == "__prefetch_NTA_1" by { assert Decimal(1) == "1"; }
    assert HintUpdates(hints[0], 0, lookup) ==
      [EnsureEntry("foo", 0x1000), AddTarget("foo", stack, "__prefetch_T0_0", 64)];
    assert HintUpdates(hints[1], 1, lookup) ==
      [EnsureEntry("foo", 0x1000), AddTarget("foo", stack, "__prefetch_NTA_1", TWO_TO_THE_64 - 32)];
    assert ConversionUpdates(hints, 1, lookup) == HintUpdates(hints[0], 0, lookup);
  }
}
