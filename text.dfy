/** Strings and numerals the way the C++ standard library and Abseil write
    and read them: `std::to_string`, `absl::Hex`, `absl::StrSplit`,
    `strstr` and GNU `basename`. */
module Text {
  import opened Wrappers

  /** The lower-case digit character for `d`. */
  function DigitChar(d: nat): (c: char)
    requires d < 16
    ensures IsDigit(c, 16) && DigitValue(c, 16) == d
    ensures d < 10 ==> IsDigit(c, 10) && DigitValue(c, 10) == d
    ensures c == '0' <==> d == 0
  {
    if d < 10 then ('0' as int + d) as char else ('a' as int + d - 10) as char
  }

  /** Whether `c` is a digit of `base` (10 or 16; hex digits in either case). */
  predicate IsDigit(c: char, base: nat) {
    || ('0' <= c <= '9' && (c as int - '0' as int) < base)
    || (base == 16 && ('a' <= c <= 'f' || 'A' <= c <= 'F'))
  }

  function DigitValue(c: char, base: nat): (v: nat)
    requires IsDigit(c, base)
    ensures v < base
  {
    if '0' <= c <= '9' then c as int - '0' as int
    else if 'a' <= c <= 'f' then c as int - 'a' as int + 10
    else c as int - 'A' as int + 10
  }

  predicate AllDigits(s: string, base: nat) {
    forall i :: 0 <= i < |s| ==> IsDigit(s[i], base)
  }

  /** The number a non-empty run of digits denotes, most significant first. */
  function ValueOf(s: string, base: nat): nat
    requires AllDigits(s, base)
  {
    if s == [] then 0 else ValueOf(s[..|s| - 1], base) * base + DigitValue(s[|s| - 1], base)
  }

  /** `n` written in `base` without leading zeros, as `std::to_string` (base
      10) and `absl::Hex` (base 16) write an unsigned value. */
  function Numeral(n: nat, base: nat): (s: string)
    requires base == 10 || base == 16
    ensures |s| > 0 && AllDigits(s, base)
    ensures n == 0 <==> s == "0"
    ensures s[0] != '0' || s == "0"
  {
    if n < base then [DigitChar(n)] else Numeral(n / base, base) + [DigitChar(n % base)]
  }

  function Decimal(n: nat): string { Numeral(n, 10) }

  function Hex(n: nat): string { Numeral(n, 16) }

  /** Reading a numeral back gives the number that was written. */
  lemma {:induction false} NumeralRoundTrip(n: nat, base: nat)
    requires base == 10 || base == 16
    ensures ValueOf(Numeral(n, base), base) == n
  {
    if n >= base {
      NumeralRoundTrip(n / base, base);
      LastDigit(n, base);
    } else {
      SingleDigit(n, base);
    }
  }

  /** A numeral of one digit reads back as that digit. */
  lemma SingleDigit(n: nat, base: nat)
    requires base == 10 || base == 16
    requires n < base
    ensures ValueOf(Numeral(n, base), base) == n
  {
    ValueOfAppend([], DigitChar(n), base);
    assert [] + [DigitChar(n)] == Numeral(n, base);
  }

  /** The last digit of a longer numeral is the remainder: when the leading
      digits read back as the quotient, the whole numeral reads back. */
  lemma LastDigit(n: nat, base: nat)
    requires base == 10 || base == 16
    requires n >= base && ValueOf(Numeral(n / base, base), base) == n / base
    ensures ValueOf(Numeral(n, base), base) == n
  {
    var q, d := n / base, n % base;
    var p := Numeral(q, base);
    assert Numeral(n, base) == p + [DigitChar(d)];
    ValueOfAppend(p, DigitChar(d), base);
    DivMod(n, base);
  }

  lemma DivMod(n: nat, base: nat)
    requires base > 0
    ensures n == (n / base) * base + n % base
  {
  }

  /** Appending a digit shifts the value up one place. */
  lemma ValueOfAppend(s: string, c: char, base: nat)
    requires AllDigits(s, base) && IsDigit(c, base)
    ensures AllDigits(s + [c], base)
    ensures ValueOf(s + [c], base) == ValueOf(s, base) * base + DigitValue(c, base)
  {
    assert (s + [c])[..|s|] == s;
  }

  /** Distinct numbers get distinct numerals. */
  lemma NumeralInjective(m: nat, n: nat, base: nat)
    requires base == 10 || base == 16
    requires Numeral(m, base) == Numeral(n, base)
    ensures m == n
  {
    NumeralRoundTrip(m, base);
    NumeralRoundTrip(n, base);
  }

  /** The first index of `c` in `s`. */
  function IndexOf(s: string, c: char): (i: nat)
    requires c in s
    ensures i < |s| && s[i] == c && c !in s[..i]
  {
    if s[0] == c then 0 else 1 + IndexOf(s[1..], c)
  }

  /** Whether `pat` occurs in `s` starting at index `i`. */
  predicate OccursAt(s: string, pat: string, i: nat) {
    i + |pat| <= |s| && s[i..i + |pat|] == pat
  }

  /** `strstr(s, pat)`: the index of the first occurrence of `pat` in `s`. */
  function Find(s: string, pat: string): (r: Option<nat>)
    ensures r.Some? ==> OccursAt(s, pat, r.value)
    ensures r.Some? ==> forall j :: 0 <= j < r.value ==> !OccursAt(s, pat, j)
    ensures r.None? ==> forall j :: 0 <= j ==> !OccursAt(s, pat, j)
    decreases |s|
  {
    if |pat| > |s| then None
    else if s[..|pat|] == pat then Some(0)
    else
      var rest := Find(s[1..], pat);
      assert !OccursAt(s, pat, 0);
      forall j | 0 < j && OccursAt(s, pat, j) ensures OccursAt(s[1..], pat, j - 1) {
        assert s[1..][j - 1..j - 1 + |pat|] == s[j..j + |pat|];
      }
      match rest
      case None => None
      case Some(k) =>
        assert s[1..][k..k + |pat|] == s[k + 1..k + 1 + |pat|];
        Some(k + 1)
  }

  /** GNU `basename`: the part of `path` after its last '/', the whole path
      when it has none, and empty when the path ends in '/'. */
  function Basename(path: string): (base: string)
    ensures |base| <= |path| && base == path[|path| - |base|..]
    ensures '/' !in base
    ensures |base| < |path| ==> path[|path| - |base| - 1] == '/'
  {
    if path == [] || path[|path| - 1] == '/' then []
    else
      var b := Basename(path[..|path| - 1]);
      assert path[..|path| - 1][|path| - 1 - |b|..] == path[|path| - 1 - |b|..|path| - 1];
      b + [path[|path| - 1]]
  }

  /** Pieces separated by `sep`, put back together. */
  function Join(pieces: seq<string>, sep: char): string
    requires |pieces| > 0
  {
    if |pieces| == 1 then pieces[0] else pieces[0] + [sep] + Join(pieces[1..], sep)
  }

  /** `absl::StrSplit(s, sep)` for a one-character delimiter: every piece
      between two separators, empty pieces included, so "" gives [""]. */
  function Split(s: string, sep: char): (pieces: seq<string>)
    ensures |pieces| > 0
    ensures forall i :: 0 <= i < |pieces| ==> sep !in pieces[i]
    ensures Join(pieces, sep) == s
    decreases |s|
  {
    if sep !in s then [s]
    else
      var i := IndexOf(s, sep);
      var rest := Split(s[i + 1..], sep);
      assert s == s[..i] + [sep] + s[i + 1..];
      [s[..i]] + rest
  }

  /** Splitting undoes joining when no piece holds the separator. */
  lemma {:induction false} SplitJoin(pieces: seq<string>, sep: char)
    requires |pieces| > 0
    requires forall i :: 0 <= i < |pieces| ==> sep !in pieces[i]
    ensures Split(Join(pieces, sep), sep) == pieces
  {
    if |pieces| > 1 {
      var s := Join(pieces, sep);
      var tail := Join(pieces[1..], sep);
      assert s == pieces[0] + [sep] + tail;
      assert sep in s by { assert s[|pieces[0]|] == sep; }
      assert IndexOf(s, sep) == |pieces[0]|;
      assert s[..|pieces[0]|] == pieces[0];
      assert s[|pieces[0]| + 1..] == tail;
      SplitJoin(pieces[1..], sep);
      assert Split(s, sep) == [pieces[0]] + pieces[1..];
    } else {
      assert sep !in Join(pieces, sep);
    }
  }

  /** The last index of `c` in `s`. */
  function LastIndexOf(s: string, c: char): (i: nat)
    requires c in s
    ensures i < |s| && s[i] == c && c !in s[i + 1..]
  {
    if s[|s| - 1] == c then |s| - 1
    else
      assert c in s[..|s| - 1];
      var i := LastIndexOf(s[..|s| - 1], c);
      assert s[i + 1..] == s[..|s| - 1][i + 1..] + [s[|s| - 1]];
      i
  }

  /** In `left + [c] + right`, the last `c` is the one added when `right` has none. */
  lemma LastIndexOfJoin(left: string, c: char, right: string)
    requires c !in right
    ensures var s := left + [c] + right;
      c in s && LastIndexOf(s, c) == |left| && s[..|left|] == left && s[|left| + 1..] == right
  {
    var s := left + [c] + right;
    assert s[|left|] == c;
    assert c !in s[|left| + 1..];
    assert s[..|left|] == left;
    assert s[|left| + 1..] == right;
  }
}
