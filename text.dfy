/**
 * The parts of Python's `str`, `int` and sequence behaviour that both `Version`
 * classes rely on: character classes of the regular expressions (`\d`, the
 * identifier classes, `str.isnumeric` and `int(...)` on ASCII digits only;
 * `\s` on every character), `str(int)`, `re.split` on a character class,
 * `str.join`, and the lexicographic `<` that Python uses for strings, lists
 * and tuples.
 */
module Text {

  // ---------------------------------------------------------------------------
  // Character classes
  // ---------------------------------------------------------------------------

  /** `\d` and `[0-9]` (ASCII only). */
  predicate IsDigit(c: char) { '0' <= c <= '9' }

  /** `[a-zA-Z]`. */
  predicate IsLetter(c: char) { 'a' <= c <= 'z' || 'A' <= c <= 'Z' }

  /** `[0-9a-zA-Z-]`, the characters of a pre-release or build identifier. */
  predicate IsIdentChar(c: char) { IsDigit(c) || IsLetter(c) || c == '-' }

  /** `\s` on text: the characters `str.isspace` accepts. */
  predicate IsSpace(c: char) {
    if c as int < 0x80 then c == ' ' || 9 <= c as int <= 13 || 28 <= c as int <= 31
    else c as int in {0x85, 0xA0, 0x1680, 0x2028, 0x2029, 0x202F, 0x205F, 0x3000} || 0x2000 <= c as int <= 0x200A
  }

  predicate AllDigits(s: string) { forall i | 0 <= i < |s| :: IsDigit(s[i]) }

  /** `s.isnumeric()` on ASCII text: non-empty and only decimal digits. */
  predicate IsNumeric(s: string) { |s| > 0 && AllDigits(s) }

  /** `len(s) > 1 and s.startswith("0")`. */
  predicate HasLeadingZero(s: string) { |s| > 1 && s[0] == '0' }

  /** No character of `s` is in `cs`. */
  predicate NoneIn(s: string, cs: set<char>) { forall i | 0 <= i < |s| :: s[i] !in cs }

  /** Every character of `s` is a `[0-9a-zA-Z-]` character. */
  predicate AllIdentChars(s: string) { forall i | 0 <= i < |s| :: IsIdentChar(s[i]) }

  /** No character of `s` is whitespace, i.e. `s` is matched by `\S*`. */
  predicate NoSpace(s: string) { forall i | 0 <= i < |s| :: !IsSpace(s[i]) }

  /** The end of the run of digits that starts at index `i` of `s`. */
  function DigitRunEnd(s: string, i: nat): (k: nat)
    requires i <= |s|
    ensures i <= k <= |s|
    ensures k < |s| ==> !IsDigit(s[k])
    decreases |s| - i
  {
    if i < |s| && IsDigit(s[i]) then DigitRunEnd(s, i + 1) else i
  }

  /** Everything in a digit run is a digit. */
  lemma {:induction false} DigitRunEndDigits(s: string, i: nat)
    requires i <= |s|
    ensures forall j | i <= j < DigitRunEnd(s, i) :: IsDigit(s[j])
    decreases |s| - i
  {
    if i < |s| && IsDigit(s[i]) {
      DigitRunEndDigits(s, i + 1);
    }
  }

  /** The digit run of `x + rest` from 0 is `x` when `rest` does not start with a digit. */
  lemma {:induction false} DigitRunEndOf(x: string, rest: string, i: nat)
    requires i <= |x| && AllDigits(x) && (rest == [] || !IsDigit(rest[0]))
    ensures DigitRunEnd(x + rest, i) == |x|
    decreases |x| - i
  {
    if i < |x| {
      assert (x + rest)[i] == x[i];
      DigitRunEndOf(x, rest, i + 1);
    } else if rest != [] {
      assert (x + rest)[i] == rest[0];
    }
  }

  /** A digit run stops at the first non-digit, so at or before any non-digit ahead. */
  lemma {:induction false} DigitRunEndAtMost(s: string, i: nat, k: nat)
    requires i <= k <= |s| && (k < |s| ==> !IsDigit(s[k]))
    ensures DigitRunEnd(s, i) <= k
    decreases k - i
  {
    if i < k && IsDigit(s[i]) {
      DigitRunEndAtMost(s, i + 1, k);
    }
  }

  /** A digit run is at least as long as any run of digits it starts with. */
  lemma {:induction false} DigitRunEndAtLeast(x: string, rest: string, i: nat)
    requires i <= |x| && AllDigits(x)
    ensures DigitRunEnd(x + rest, i) >= |x|
    decreases |x| - i
  {
    if i < |x| {
      assert (x + rest)[i] == x[i];
      DigitRunEndAtLeast(x, rest, i + 1);
    }
  }

  /** Scanning a digit run inside `t + u` is scanning it inside `u`. */
  lemma {:induction false} DigitRunEndShift(t: string, u: string, j: nat)
    requires j <= |u|
    ensures DigitRunEnd(t + u, |t| + j) == |t| + DigitRunEnd(u, j)
    decreases |u| - j
  {
    if j < |u| {
      assert (t + u)[|t| + j] == u[j];
      if IsDigit(u[j]) {
        DigitRunEndShift(t, u, j + 1);
      }
    }
  }

  /** A run of digits `x` read at index `i`, and what follows it. */
  lemma {:induction false} DigitsAt(s: string, i: nat, x: string, rest: string)
    requires i <= |s| && s[i..] == x + rest && AllDigits(x)
    ensures i + |x| <= DigitRunEnd(s, i)
    ensures s[i..i + |x|] == x && s[i + |x|..] == rest
  {
    var u := s[i..];
    assert s == s[..i] + u;
    DigitRunEndShift(s[..i], u, 0);
    DigitRunEndAtLeast(x, rest, 0);
    SlicesOfConcat(s[..i], u, |x|);
    SlicesOfConcat(x, rest, 0);
    assert s[i + |x|..] == u[|x|..];
  }

  /** A run of digits `x` read at index `i` and ended by a dot. */
  lemma {:induction false} FieldAt(s: string, i: nat, x: string, rest: string)
    requires i <= |s| && s[i..] == x + ("." + rest) && AllDigits(x)
    ensures DigitRunEnd(s, i) == i + |x| && s[i + |x|] == '.'
    ensures s[i..i + |x|] == x && s[i + |x| + 1..] == rest
  {
    var u := s[i..];
    assert s == s[..i] + u;
    DigitRunEndShift(s[..i], u, 0);
    DigitRunEndOf(x, "." + rest, 0);
    SlicesOfConcat(s[..i], u, |x|);
    SlicesOfConcat(x, "." + rest, 0);
    assert s[i + |x|..] == u[|x|..];
  }

  /** A text whose suffix from `q` is `a + rest` holds `a` at `q` and `rest` after it. */
  lemma {:induction false} SuffixPieces(s: string, q: nat, a: string, rest: string)
    requires q <= |s| && s[q..] == a + rest
    ensures q + |a| <= |s| && s[q..q + |a|] == a && s[q + |a|..] == rest
  {
    var u := s[q..];
    assert s[q..q + |a|] == u[..|a|];
    assert s[q + |a|..] == u[|a|..];
  }

  /** The pieces of a concatenation, as slices of it. */
  lemma {:induction false} SlicesOfConcat(t: string, u: string, n: nat)
    requires n <= |u|
    ensures (t + u)[..|t|] == t && (t + u)[|t|..] == u && (t + u)[|t|..|t| + n] == u[..n]
  {
  }

  // ---------------------------------------------------------------------------
  // int(s) and str(n)
  // ---------------------------------------------------------------------------

  function DigitValue(c: char): (d: nat)
    requires IsDigit(c)
    ensures d < 10
  {
    c as int - '0' as int
  }

  function DigitChar(d: nat): (c: char)
    requires d < 10
    ensures IsDigit(c) && DigitValue(c) == d
  {
    ('0' as int + d) as char
  }

  /** The value of the first `n` digits of `s`. */
  function ValueOfPrefix(s: string, n: nat): nat
    requires n <= |s| && AllDigits(s)
  {
    if n == 0 then 0 else 10 * ValueOfPrefix(s, n - 1) + DigitValue(s[n - 1])
  }

  /** `int(s)` for a string of decimal digits. */
  function ValueOf(s: string): nat
    requires AllDigits(s)
  {
    ValueOfPrefix(s, |s|)
  }

  lemma {:induction false} ValueOfPrefixOnly(s: string, t: string, n: nat)
    requires n <= |s| && n <= |t| && AllDigits(s) && AllDigits(t)
    requires s[..n] == t[..n]
    ensures ValueOfPrefix(s, n) == ValueOfPrefix(t, n)
  {
    if n > 0 {
      assert s[n - 1] == s[..n][n - 1] == t[..n][n - 1] == t[n - 1];
      assert s[..n - 1] == s[..n][..n - 1];
      assert t[..n - 1] == t[..n][..n - 1];
      ValueOfPrefixOnly(s, t, n - 1);
    }
  }

  /** Appending a digit multiplies the value by ten and adds the digit. */
  lemma {:induction false} ValueOfSnoc(x: string, c: char)
    requires AllDigits(x) && IsDigit(c)
    ensures AllDigits(x + [c])
    ensures ValueOf(x + [c]) == 10 * ValueOf(x) + DigitValue(c)
  {
    var s := x + [c];
    assert s[..|x|] == x[..|x|];
    ValueOfPrefixOnly(s, x, |x|);
  }

  lemma {:induction false} ValueOfPrefixAtLeastFirst(s: string, n: nat)
    requires 1 <= n <= |s| && AllDigits(s)
    ensures ValueOfPrefix(s, n) >= DigitValue(s[0])
  {
    if n > 1 {
      ValueOfPrefixAtLeastFirst(s, n - 1);
    }
  }

  /** `str(n)`: the decimal numeral of `n`. */
  function Decimal(n: nat): (s: string)
    ensures IsNumeric(s) && !HasLeadingZero(s)
    ensures ValueOf(s) == n
  {
    if n < 10 then
      ValueOfSnoc([], DigitChar(n));
      [] + [DigitChar(n)]
    else
      var prefix := Decimal(n / 10);
      ValueOfSnoc(prefix, DigitChar(n % 10));
      prefix + [DigitChar(n % 10)]
  }

  /** `str(int(s)) == s` for a numeral without a leading zero. */
  lemma {:induction false} DecimalOfValue(s: string)
    requires IsNumeric(s) && !HasLeadingZero(s)
    ensures Decimal(ValueOf(s)) == s
  {
    var n := |s|;
    if n == 1 {
      assert s == [] + [s[0]];
      ValueOfSnoc([], s[0]);
      assert [DigitChar(DigitValue(s[0]))] == s;
    } else {
      var x, c := s[..n - 1], s[n - 1];
      assert s == x + [c];
      assert x[0] == s[0] != '0';
      ValueOfSnoc(x, c);
      ValueOfPrefixAtLeastFirst(x, |x|);
      assert ValueOf(x) >= 1 by {
        assert DigitValue(x[0]) >= 1;
      }
      var v := ValueOf(s);
      assert v / 10 == ValueOf(x) && v % 10 == DigitValue(c);
      DecimalOfValue(x);
      assert DigitChar(DigitValue(c)) == c;
    }
  }

  // ---------------------------------------------------------------------------
  // Python's `<` on sequences
  // ---------------------------------------------------------------------------

  /**
   * Python's `<` on two sequences (`str`, `list`, `tuple`) from index `i` on:
   * the first index where the elements differ decides, by `less`; when one
   * sequence runs out first, the shorter one is less.
   */
  function LexLessFrom<T(==)>(x: seq<T>, y: seq<T>, less: (T, T) -> bool, i: nat): bool
    requires i <= |x| && i <= |y|
    decreases |x| - i
  {
    if i == |x| || i == |y| then |x| < |y|
    else if x[i] != y[i] then less(x[i], y[i])
    else LexLessFrom(x, y, less, i + 1)
  }

  function LexLess<T(==)>(x: seq<T>, y: seq<T>, less: (T, T) -> bool): bool {
    LexLessFrom(x, y, less, 0)
  }

  /** `<` on two characters: code point order. */
  function CharLess(c: char, d: char): bool { c < d }

  /** Python's `<` on two strings. */
  function StrLess(a: string, b: string): bool {
    LexLess(a, b, CharLess)
  }

  /** Equal elements up to index `i` are skipped. */
  lemma {:induction false} LexLessSkip<T>(x: seq<T>, y: seq<T>, less: (T, T) -> bool, j: nat, i: nat)
    requires j <= i <= |x| && i <= |y|
    requires x[j..i] == y[j..i]
    ensures LexLessFrom(x, y, less, j) == LexLessFrom(x, y, less, i)
    decreases i - j
  {
    if j < i {
      assert x[j] == x[j..i][0] == y[j..i][0] == y[j];
      assert x[j + 1..i] == x[j..i][1..] && y[j + 1..i] == y[j..i][1..];
      LexLessSkip(x, y, less, j + 1, i);
    }
  }

  /** The first index where two sequences differ decides `<`. */
  lemma {:induction false} LexLessAt<T>(x: seq<T>, y: seq<T>, less: (T, T) -> bool, i: nat)
    requires i < |x| && i < |y|
    requires x[..i] == y[..i] && x[i] != y[i]
    ensures LexLess(x, y, less) == less(x[i], y[i])
  {
    assert x[0..i] == x[..i] && y[0..i] == y[..i];
    LexLessSkip(x, y, less, 0, i);
  }

  /** When one sequence is a prefix of the other, the shorter is less. */
  lemma {:induction false} LexLessPrefix<T>(x: seq<T>, y: seq<T>, less: (T, T) -> bool)
    requires |x| <= |y| ==> x == y[..|x|]
    requires |y| <= |x| ==> y == x[..|y|]
    ensures LexLess(x, y, less) == (|x| < |y|)
  {
    var m := if |x| <= |y| then |x| else |y|;
    assert x[0..m] == y[0..m];
    LexLessSkip(x, y, less, 0, m);
  }

  /** Python's `<` on sequences is irreflexive. */
  lemma {:induction false} LexLessIrreflexive<T>(x: seq<T>, less: (T, T) -> bool)
    ensures !LexLess(x, x, less)
  {
    LexLessPrefix(x, x, less);
  }

  /** If `less` is asymmetric, so is `<` on sequences of its elements. */
  lemma {:induction false} LexLessAsymmetric<T>(x: seq<T>, y: seq<T>, less: (T, T) -> bool, i: nat)
    requires i <= |x| && i <= |y|
    requires forall a, b :: less(a, b) ==> !less(b, a)
    ensures LexLessFrom(x, y, less, i) ==> !LexLessFrom(y, x, less, i)
    decreases |x| - i
  {
    if i < |x| && i < |y| && x[i] == y[i] {
      LexLessAsymmetric(x, y, less, i + 1);
    }
  }

  /** Two different sequences of one length have a first index where they differ. */
  lemma {:induction false} FirstDifference<T>(x: seq<T>, y: seq<T>) returns (i: nat)
    requires |x| == |y| && x != y
    ensures i < |x| && x[..i] == y[..i] && x[i] != y[i]
    decreases |x|
  {
    if x[0] != y[0] {
      i := 0;
    } else {
      assert x == [x[0]] + x[1..] && y == [y[0]] + y[1..];
      var j := FirstDifference(x[1..], y[1..]);
      i := j + 1;
      assert x[..i] == [x[0]] + x[1..][..j];
      assert y[..i] == [y[0]] + y[1..][..j];
    }
  }

  /** Two different strings are ordered one way or the other. */
  lemma {:induction false} StrLessTotal(x: string, y: string, i: nat)
    requires i <= |x| && i <= |y| && x[i..] != y[i..]
    ensures LexLessFrom(x, y, CharLess, i) || LexLessFrom(y, x, CharLess, i)
    decreases |x| - i
  {
    if i < |x| && i < |y| && x[i] == y[i] {
      assert x[i..] == [x[i]] + x[i + 1..] && y[i..] == [y[i]] + y[i + 1..];
      StrLessTotal(x, y, i + 1);
    }
  }

  /** If `less` is irreflexive and transitive, `<` on sequences of its elements is transitive. */
  lemma {:induction false} LexLessTransitive<T>(x: seq<T>, y: seq<T>, z: seq<T>, less: (T, T) -> bool, i: nat)
    requires i <= |x| && i <= |y| && i <= |z|
    requires forall a :: !less(a, a)
    requires forall a, b, c :: less(a, b) && less(b, c) ==> less(a, c)
    requires LexLessFrom(x, y, less, i) && LexLessFrom(y, z, less, i)
    ensures LexLessFrom(x, z, less, i)
    decreases |x| - i
  {
    if i < |x| && i < |y| && i < |z| && x[i] == y[i] && y[i] == z[i] {
      LexLessTransitive(x, y, z, less, i + 1);
    }
  }

  /** Of two different sequences, one is less than the other when `less` orders any two different elements. */
  lemma {:induction false} LexLessTotal<T>(x: seq<T>, y: seq<T>, less: (T, T) -> bool, i: nat)
    requires i <= |x| && i <= |y| && x[i..] != y[i..]
    requires forall a, b :: a != b ==> less(a, b) || less(b, a)
    ensures LexLessFrom(x, y, less, i) || LexLessFrom(y, x, less, i)
    decreases |x| - i
  {
    if i < |x| && i < |y| && x[i] == y[i] {
      assert x[i..] == [x[i]] + x[i + 1..] && y[i..] == [y[i]] + y[i + 1..];
      LexLessTotal(x, y, less, i + 1);
    }
  }

  /** Dropping a common last position does not change `<` when the rest differs. */
  lemma {:induction false} LexLessDropLast<T>(x: seq<T>, y: seq<T>, less: (T, T) -> bool, i: nat)
    requires |x| == |y| > 0 && i < |x|
    requires x[i..|x| - 1] != y[i..|y| - 1]
    ensures LexLessFrom(x, y, less, i) == LexLessFrom(x[..|x| - 1], y[..|y| - 1], less, i)
    decreases |x| - i
  {
    var n := |x|;
    var x', y' := x[..n - 1], y[..n - 1];
    if i == n - 1 {
      assert false;
    } else if x[i] == y[i] {
      assert x[i..n - 1] == [x[i]] + x[i + 1..n - 1];
      assert y[i..n - 1] == [y[i]] + y[i + 1..n - 1];
      LexLessDropLast(x, y, less, i + 1);
    }
  }

  /**
   * Two digit strings of the same length compare as strings exactly as their
   * values compare as integers.
   */
  lemma {:induction false} StrLessDigitsOfEqualLength(x: string, y: string)
    requires |x| == |y| && AllDigits(x) && AllDigits(y)
    ensures StrLess(x, y) <==> ValueOf(x) < ValueOf(y)
    decreases |x|
  {
    var n := |x|;
    if n == 0 {
      LexLessIrreflexive(x, CharLess);
    } else {
      var x', y' := x[..n - 1], y[..n - 1];
      assert x == x' + [x[n - 1]] && y == y' + [y[n - 1]];
      ValueOfSnoc(x', x[n - 1]);
      ValueOfSnoc(y', y[n - 1]);
      if x' == y' {
        if x[n - 1] == y[n - 1] {
          assert x == y;
          LexLessIrreflexive(x, CharLess);
        } else {
          LexLessAt(x, y, CharLess, n - 1);
        }
      } else {
        StrLessDigitsOfEqualLength(x', y');
        StrLessDigitsOfEqualLength(y', x');
        assert x'[0..] == x' && y'[0..] == y';
        StrLessTotal(x', y', 0);
        assert x[0..n - 1] == x' && y[0..n - 1] == y';
        LexLessDropLast(x, y, CharLess, 0);
      }
    }
  }

  // ---------------------------------------------------------------------------
  // re.split on a character class and str.join
  // ---------------------------------------------------------------------------

  /** The first index at or after `i` whose character is in `cs`, or `|s|`. */
  function FindFrom(s: string, i: nat, cs: set<char>): (k: nat)
    requires i <= |s|
    ensures i <= k <= |s|
    ensures k < |s| ==> s[k] in cs
    decreases |s| - i
  {
    if i == |s| || s[i] in cs then i else FindFrom(s, i + 1, cs)
  }

  /** No character before the one `FindFrom` finds is in `cs`. */
  lemma {:induction false} FindFromSkips(s: string, i: nat, cs: set<char>)
    requires i <= |s|
    ensures forall j | i <= j < FindFrom(s, i, cs) :: s[j] !in cs
    decreases |s| - i
  {
    if i < |s| && s[i] !in cs {
      FindFromSkips(s, i + 1, cs);
    }
  }

  function SplitFrom(s: string, i: nat, cs: set<char>): (parts: seq<string>)
    requires i <= |s|
    ensures |parts| >= 1
    decreases |s| - i
  {
    var k := FindFrom(s, i, cs);
    if k == |s| then [s[i..]] else [s[i..k]] + SplitFrom(s, k + 1, cs)
  }

  /**
   * `re.split("[...]", s)` for the character class `cs`: the pieces between
   * separators, empty pieces included, so there is always at least one.
   */
  function Split(s: string, cs: set<char>): seq<string> {
    SplitFrom(s, 0, cs)
  }

  /** `sep.join(parts)`. */
  function Join(parts: seq<string>, sep: char): string {
    if |parts| == 0 then ""
    else if |parts| == 1 then parts[0]
    else parts[0] + [sep] + Join(parts[1..], sep)
  }

  lemma {:induction false} JoinSplitFrom(s: string, i: nat, c: char)
    requires i <= |s|
    ensures Join(SplitFrom(s, i, {c}), c) == s[i..]
    decreases |s| - i
  {
    var k := FindFrom(s, i, {c});
    if k < |s| {
      var rest := SplitFrom(s, k + 1, {c});
      JoinSplitFrom(s, k + 1, c);
      assert s[k] == c;
      assert ([s[i..k]] + rest)[1..] == rest;
      assert s[i..] == s[i..k] + [s[k]] + s[k + 1..];
    }
  }

  /** Joining the pieces of a split on one character gives the text back. */
  lemma {:induction false} JoinSplit(s: string, c: char)
    ensures Join(Split(s, {c}), c) == s
  {
    JoinSplitFrom(s, 0, c);
  }

  lemma {:induction false} SplitFromAvoids(s: string, i: nat, cs: set<char>)
    requires i <= |s|
    ensures forall p | p in SplitFrom(s, i, cs) :: NoneIn(p, cs)
    decreases |s| - i
  {
    var k := FindFrom(s, i, cs);
    FindFromSkips(s, i, cs);
    assert NoneIn(s[i..k], cs) by {
      forall j | 0 <= j < k - i ensures s[i..k][j] !in cs {
        assert s[i..k][j] == s[i + j];
      }
    }
    if k < |s| {
      SplitFromAvoids(s, k + 1, cs);
    } else {
      assert s[i..k] == s[i..];
    }
  }

  /** No piece of a split contains a separator. */
  lemma {:induction false} SplitAvoids(s: string, cs: set<char>)
    ensures forall p | p in Split(s, cs) :: NoneIn(p, cs)
  {
    SplitFromAvoids(s, 0, cs);
  }

  lemma {:induction false} FindFromShift(t: string, u: string, j: nat, cs: set<char>)
    requires j <= |u|
    ensures FindFrom(t + u, |t| + j, cs) == |t| + FindFrom(u, j, cs)
    decreases |u| - j
  {
    if j < |u| && u[j] !in cs {
      assert (t + u)[|t| + j] == u[j];
      FindFromShift(t, u, j + 1, cs);
    }
  }

  lemma {:induction false} SplitFromShift(t: string, u: string, j: nat, cs: set<char>)
    requires j <= |u|
    ensures SplitFrom(t + u, |t| + j, cs) == SplitFrom(u, j, cs)
    decreases |u| - j
  {
    var k := FindFrom(u, j, cs);
    FindFromShift(t, u, j, cs);
    assert (t + u)[|t| + j..|t| + k] == u[j..k];
    if k < |u| {
      SplitFromShift(t, u, k + 1, cs);
    } else {
      assert (t + u)[|t| + j..] == u[j..];
    }
  }

  /** Splitting a join on a separator that no part contains gives the parts back. */
  lemma {:induction false} SplitJoin(parts: seq<string>, c: char, cs: set<char>)
    requires c in cs && |parts| >= 1
    requires forall p | p in parts :: NoneIn(p, cs)
    ensures Split(Join(parts, c), cs) == parts
  {
    var p := parts[0];
    var s := Join(parts, c);
    assert p in parts;
    if |parts| == 1 {
      FindFromAt(p, 0, |p|, cs);
      assert p[0..] == p;
    } else {
      var rest := parts[1..];
      var u := Join(rest, c);
      assert s == (p + [c]) + u;
      FirstPieceOf(p, c, u, cs);
      SplitFromShift(p + [c], u, 0, cs);
      SplitJoin(rest, c, cs);
      assert parts == [p] + rest;
    }
  }

  /** Split from its start, a text that opens with a separator-free piece and a separator yields that piece first. */
  lemma {:induction false} FirstPieceOf(p: string, c: char, u: string, cs: set<char>)
    requires c in cs && NoneIn(p, cs)
    ensures var s := (p + [c]) + u;
      FindFrom(s, 0, cs) == |p| && s[0..|p|] == p
  {
    var s := (p + [c]) + u;
    assert forall j | 0 <= j < |p| :: s[j] == p[j];
    assert s[|p|] == c;
    FindFromAt(s, 0, |p|, cs);
  }

  /** A suffix of a text is its three consecutive slices. */
  lemma {:induction false} ThreeSlices(s: string, i: nat, j: nat, k: nat)
    requires i <= j <= k <= |s|
    ensures s[i..] == s[i..j] + (s[j..k] + s[k..])
  {
  }

  /** `FindFrom` stops at the first separator. */
  lemma {:induction false} FindFromAt(s: string, i: nat, k: nat, cs: set<char>)
    requires i <= k <= |s|
    requires forall j | i <= j < k :: s[j] !in cs
    requires k < |s| ==> s[k] in cs
    ensures FindFrom(s, i, cs) == k
    decreases k - i
  {
    if i < k {
      FindFromAt(s, i + 1, k, cs);
    }
  }

  /** A join avoids every character that neither the parts nor the separator contain. */
  lemma {:induction false} JoinAvoids(parts: seq<string>, sep: char, cs: set<char>)
    requires sep !in cs
    requires forall p | p in parts :: NoneIn(p, cs)
    ensures NoneIn(Join(parts, sep), cs)
  {
    if |parts| == 1 {
      assert parts[0] in parts;
    } else if |parts| > 1 {
      assert parts[0] in parts;
      var rest := parts[1..];
      JoinAvoids(rest, sep, cs);
      var j := Join(parts, sep);
      assert j == parts[0] + [sep] + Join(rest, sep);
      forall i | 0 <= i < |j|
        ensures j[i] !in cs
      {
        if i < |parts[0]| {
          assert j[i] == parts[0][i];
        } else if i > |parts[0]| {
          assert j[i] == Join(rest, sep)[i - |parts[0]| - 1];
        }
      }
    }
  }
}
