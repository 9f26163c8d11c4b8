/**
 * The `Version` class of version_comparator.py: construction from a string
 * (the anchored match of `SemVerGrammar`, the split of the pre-release into
 * the `suffix` list and the check of the core fields), the comparisons `==`,
 * `<` and the `>`, `!=`, `<=`, `>=` that `functools.total_ordering` derives
 * from them, and `str()`.
 *
 * A constructed `Version` is never changed afterwards, so it is a value here.
 * Its `core` keeps the three matched strings: the check of the fields converts
 * each one with `int()` into a local variable only, so `<` compares the core
 * as a list of strings (`CoreOrderIsTextual`).
 */
module SemVer {
  import opened Wrappers
  import opened Text
  import opened SemVerGrammar

  /** The attributes of a constructed version. */
  datatype Version = Version(core: seq<string>, suffix: seq<string>, buildmetadata: Option<string>)

  /** The `ValueError`s a construction may raise. */
  datatype Error =
    | InvalidVersion(input: string)   // the text does not match the pattern
    | LeadingZero(value: string)      // a core field longer than one character starts with `0`
    | NotAnInt(value: string)         // `int()` rejects a core field

  /** The character class `[+.-]` the pre-release is split on. */
  const Separators: set<char> := {'+', '.', '-'}

  // ---------------------------------------------------------------------------
  // Construction
  // ---------------------------------------------------------------------------

  /** `int(value)` on a run of ASCII digits; `None` for any other text. */
  function IntOf(value: string): Option<nat> {
    if IsNumeric(value) then Some(ValueOf(value)) else None
  }

  /** One step of the check of the core: the error it raises for `value`, if any. */
  function FieldError(value: string): (e: Option<Error>)
    ensures e.None? <==> IsNumericIdentifier(value)
    ensures e.Some? ==> e.value.LeadingZero? || e.value.NotAnInt?
  {
    if |value| > 1 && value[0] == '0' then Some(LeadingZero(value))
    else if IntOf(value).None? then Some(NotAnInt(value))
    else None
  }

  /**
   * The check of the core fields from index `i` on: the error of the first
   * field that is not a numeral without a leading zero, or `None`.
   */
  function CoreError(core: seq<string>, i: nat): (e: Option<Error>)
    requires i <= |core|
    ensures e.None? <==> forall j | i <= j < |core| :: IsNumericIdentifier(core[j])
    ensures e.Some? ==>
      exists j | i <= j < |core| :: e == FieldError(core[j]) && forall k | i <= k < j :: IsNumericIdentifier(core[k])
    decreases |core| - i
  {
    if i == |core| then None
    else if FieldError(core[i]).Some? then FieldError(core[i])
    else CoreError(core, i + 1)
  }

  /** The loop over the core fields, stopping at the first error. */
  method ValidateCore(core: seq<string>) returns (e: Option<Error>)
    ensures e == CoreError(core, 0)
  {
    var i := 0;
    while i < |core|
      invariant i <= |core|
      invariant CoreError(core, 0) == CoreError(core, i)
    {
      var value := core[i];
      if |value| > 1 && value[0] == '0' {
        return Some(LeadingZero(value));
      }
      var n := IntOf(value);
      if n.None? {
        return Some(NotAnInt(value));
      }
      i := i + 1;
    }
    return None;
  }

  /** `re.split('[+.-]', prerelease)` when the pre-release is captured and not empty, else `[]`. */
  function SuffixOf(prerelease: Option<string>): (suffix: seq<string>)
    ensures suffix == [] <==> prerelease.None? || prerelease.value == ""
    ensures forall p | p in suffix :: NoneIn(p, Separators)
  {
    if prerelease.Some? && prerelease.value != "" then
      SplitAvoids(prerelease.value, Separators);
      Split(prerelease.value, Separators)
    else []
  }

  /** The attributes set from the groups of a match. */
  function VersionOf(c: Captures): Version {
    Version([c.major, c.minor, c.patch], SuffixOf(c.tail.prerelease), c.tail.buildmetadata)
  }

  /** `Version(s)`: the version, or the error the constructor raises. */
  function Parse(s: string): Result<Version, Error> {
    match Scan(s)
    case None => Err(InvalidVersion(s))
    case Some(c) =>
      var e := CoreError([c.major, c.minor, c.patch], 0);
      if e.Some? then Err(e.value) else Ok(VersionOf(c))
  }

  /** The constructor, step by step. */
  method Construct(s: string) returns (r: Result<Version, Error>)
    ensures r == Parse(s)
  {
    var m := Scan(s);
    if m.None? {
      return Err(InvalidVersion(s));
    }
    var c := m.value;
    var core := [c.major, c.minor, c.patch];
    var suffix := SuffixOf(c.tail.prerelease);
    var e := ValidateCore(core);
    if e.Some? {
      return Err(e.value);
    }
    return Ok(Version(core, suffix, c.tail.buildmetadata));
  }

  // ---------------------------------------------------------------------------
  // Comparison
  // ---------------------------------------------------------------------------

  /** The right operand of a comparison: a version, or a string it is built from. */
  datatype Operand = Ver(v: Version) | Str(s: string)

  /** A string operand is turned into a version first, which may raise. */
  function Coerce(o: Operand): Result<Version, Error> {
    match o
    case Ver(v) => Ok(v)
    case Str(s) => Parse(s)
  }

  /** `==` on versions: the core and the suffix agree; build metadata is ignored. */
  predicate Same(a: Version, b: Version) {
    a.core == b.core && a.suffix == b.suffix
  }

  /** An entry of a suffix list while `_lt_suffix` compares it. */
  datatype Item = Int(n: nat) | Text(s: string)

  /** Python's `<` on two entries at the same index: both integers or both strings. */
  function ItemLess(a: Item, b: Item): bool {
    match (a, b)
    case (Int(m), Int(n)) => m < n
    case (Text(s), Text(t)) => StrLess(s, t)
    case _ => false
  }

  /** Entry `k` of `x` once converted: to an integer when the entry of `y` at `k` is numeric too. */
  function Converted(x: seq<string>, y: seq<string>, k: nat): Item
    requires k < |x|
  {
    if k < |y| && IsNumeric(x[k]) && IsNumeric(y[k]) then Int(ValueOf(x[k])) else Text(x[k])
  }

  /** The copy of `x` that `_lt_suffix` compares against `y`. */
  function Comparing(x: seq<string>, y: seq<string>): (items: seq<Item>)
    ensures |items| == |x|
  {
    seq(|x|, k requires 0 <= k < |x| => Converted(x, y, k))
  }

  /**
   * `_lt_suffix`: a version with a suffix precedes one without; otherwise the
   * suffix lists compare as lists, entries numeric on both sides as integers.
   */
  function SuffixLess(x: seq<string>, y: seq<string>): bool {
    if |x| > 0 && |y| == 0 then true
    else if |x| == 0 && |y| > 0 then false
    else LexLess(Comparing(x, y), Comparing(y, x), ItemLess)
  }

  /** `_lt_suffix` as written: copies of the lists whose entries are converted in place. */
  method LtSuffix(x: seq<string>, y: seq<string>) returns (r: bool)
    ensures r == SuffixLess(x, y)
  {
    if |x| > 0 && |y| == 0 {
      return true;
    }
    if |x| == 0 && |y| > 0 {
      return false;
    }
    var xs := new Item[|x|](k requires 0 <= k < |x| => Text(x[k]));
    var ys := new Item[|y|](k requires 0 <= k < |y| => Text(y[k]));
    var n := if |x| < |y| then |x| else |y|;
    for i := 0 to n
      invariant forall k | 0 <= k < |x| :: xs[k] == if k < i then Converted(x, y, k) else Text(x[k])
      invariant forall k | 0 <= k < |y| :: ys[k] == if k < i then Converted(y, x, k) else Text(y[k])
    {
      if IsNumeric(x[i]) && IsNumeric(y[i]) {
        xs[i] := Int(ValueOf(x[i]));
        ys[i] := Int(ValueOf(y[i]));
      }
    }
    assert xs[..] == Comparing(x, y);
    assert ys[..] == Comparing(y, x);
    return LexLess(xs[..], ys[..], ItemLess);
  }

  /** `__lt__` on two versions: the core lists as lists of strings, then the suffixes. */
  function Less(a: Version, b: Version): bool {
    if a.core != b.core then LexLess(a.core, b.core, StrLess) else SuffixLess(a.suffix, b.suffix)
  }

  function Eq(a: Version, o: Operand): Result<bool, Error> {
    match Coerce(o)
    case Err(e) => Err(e)
    case Ok(b) => Ok(Same(a, b))
  }

  /** `!=`: the negation of `==`. */
  function Ne(a: Version, o: Operand): Result<bool, Error> {
    match Eq(a, o)
    case Err(e) => Err(e)
    case Ok(eq) => Ok(!eq)
  }

  function Lt(a: Version, o: Operand): Result<bool, Error> {
    match Coerce(o)
    case Err(e) => Err(e)
    case Ok(b) => Ok(Less(a, b))
  }

  /** `>` from `total_ordering`: `not a < o and a != o`. */
  function Gt(a: Version, o: Operand): Result<bool, Error> {
    match Lt(a, o)
    case Err(e) => Err(e)
    case Ok(lt) => if lt then Ok(false) else Ne(a, o)
  }

  /** `<=` from `total_ordering`: `a < o or a == o`. */
  function Le(a: Version, o: Operand): Result<bool, Error> {
    match Lt(a, o)
    case Err(e) => Err(e)
    case Ok(lt) => if lt then Ok(true) else Eq(a, o)
  }

  /** `>=` from `total_ordering`: `not a < o`. */
  function Ge(a: Version, o: Operand): Result<bool, Error> {
    match Lt(a, o)
    case Err(e) => Err(e)
    case Ok(lt) => Ok(!lt)
  }

  // ---------------------------------------------------------------------------
  // str()
  // ---------------------------------------------------------------------------

  function Render(v: Version): string {
    Join(v.core, '.')
    + (if |v.suffix| > 0 then "-" + Join(v.suffix, '.') else "")
    + (if v.buildmetadata.Some? && v.buildmetadata.value != "" then "+" + v.buildmetadata.value else "")
  }

  // ---------------------------------------------------------------------------
  // What construction accepts
  // ---------------------------------------------------------------------------

  /** Matched core fields always pass the check of the core. */
  lemma {:induction false} MatchedCorePasses(c: Captures)
    requires CoreWellFormed(c)
    ensures CoreError([c.major, c.minor, c.patch], 0) == None
  {
    var core := [c.major, c.minor, c.patch];
    assert forall j | 0 <= j < |core| :: IsNumericIdentifier(core[j]) by {
      assert core[0] == c.major && core[1] == c.minor && core[2] == c.patch;
    }
  }

  /**
   * A text is accepted exactly when it matches the pattern, that is when some
   * well-formed groups spell it; the only error raised is the one for a text
   * that does not match, since matched core fields always pass their check.
   */
  lemma {:induction false} ParseAccepts(s: string)
    ensures Parse(s).Ok? <==> exists c :: WellFormed(c) && Spelling(c) == s
    ensures Parse(s).Err? ==> Parse(s).error == InvalidVersion(s)
  {
    forall c | WellFormed(c) && Spelling(c) == s
      ensures Scan(s).Some?
    {
      ScanPreferred(s, c);
    }
    if Scan(s).Some? {
      ScanSound(s);
      MatchedCorePasses(Scan(s).value);
    }
  }

  /** The version built from a match holds the groups Python's matcher reports. */
  lemma {:induction false} ParseOfMatch(s: string, c: Captures)
    requires WellFormed(c) && Spelling(c) == s
    requires forall d: Captures | WellFormed(d) && Spelling(d) == s :: Prefers(c, d)
    ensures Parse(s) == Ok(VersionOf(c))
  {
    ScanIsPythonsMatch(s, c);
    MatchedCorePasses(c);
  }

  /** Groups that leave the matcher no earlier choice are the ones a version built from their spelling holds. */
  lemma {:induction false} ParseOfGroups(c: Captures)
    requires WellFormed(c) && Unambiguous(c.tail)
    ensures Parse(Spelling(c)) == Ok(VersionOf(c))
  {
    ScanOfSpelling(c);
    MatchedCorePasses(c);
  }

  /**
   * A constructed version keeps its three core fields as the matched strings,
   * numerals without a leading zero, and its suffix is empty exactly when no
   * pre-release was matched; its pieces hold no separator.
   */
  lemma {:induction false} ParsedFields(s: string)
    requires Parse(s).Ok?
    ensures var v := Parse(s).value; var c := Scan(s).value;
      && v.core == [c.major, c.minor, c.patch] && Spelling(c) == s
      && (forall i | 0 <= i < 3 :: IsNumericIdentifier(v.core[i]))
      && (v.suffix == [] <==> c.tail.prerelease.None?)
      && (forall p | p in v.suffix :: NoneIn(p, Separators))
      && v.buildmetadata == c.tail.buildmetadata
  {
    ScanSound(s);
    var c := Scan(s).value;
    MatchedCorePasses(c);
    var core := [c.major, c.minor, c.patch];
    assert core[0] == c.major && core[1] == c.minor && core[2] == c.patch;
    if c.tail.prerelease.Some? {
      DottedNotEmpty(c.tail.prerelease.value, true);
    }
  }

  /** A pre-release or build metadata group is never empty. */
  lemma {:induction false} DottedNotEmpty(p: string, strict: bool)
    requires IsDottedFrom(p, 0, strict)
    ensures p != ""
  {
  }

  // ---------------------------------------------------------------------------
  // Ordering
  // ---------------------------------------------------------------------------

  /** `<` on strings is asymmetric. */
  lemma {:induction false} StrLessAsymmetric()
    ensures forall a: string, b: string :: StrLess(a, b) ==> !StrLess(b, a)
  {
    forall a: string, b: string
      ensures StrLess(a, b) ==> !StrLess(b, a)
    {
      LexLessAsymmetric(a, b, CharLess, 0);
    }
  }

  /** `<` on the entries of converted suffixes is asymmetric. */
  lemma {:induction false} ItemLessAsymmetric()
    ensures forall a: Item, b: Item :: ItemLess(a, b) ==> !ItemLess(b, a)
  {
    StrLessAsymmetric();
  }

  /** No version precedes itself. */
  lemma {:induction false} LessIrreflexive(a: Version)
    ensures !Less(a, a)
  {
    LexLessIrreflexive(Comparing(a.suffix, a.suffix), ItemLess);
  }

  /** Of two versions, at most one precedes the other. */
  lemma {:induction false} LessAsymmetric(a: Version, b: Version)
    ensures Less(a, b) ==> !Less(b, a)
  {
    if a.core != b.core {
      StrLessAsymmetric();
      LexLessAsymmetric(a.core, b.core, StrLess, 0);
    } else {
      ItemLessAsymmetric();
      LexLessAsymmetric(Comparing(a.suffix, b.suffix), Comparing(b.suffix, a.suffix), ItemLess, 0);
    }
  }

  /** Equal versions precede neither one the other. */
  lemma {:induction false} SameNotLess(a: Version, b: Version)
    ensures Same(a, b) ==> !Less(a, b) && !Less(b, a)
  {
    if Same(a, b) {
      assert Less(a, b) == Less(a, a) && Less(b, a) == Less(a, a);
      LessIrreflexive(a);
    }
  }

  /** Versions whose cores differ (in one number of fields) are ordered one way or the other. */
  lemma {:induction false} CoreOrderTotal(a: Version, b: Version)
    requires |a.core| == |b.core| && a.core != b.core
    ensures Less(a, b) || Less(b, a)
  {
    var i := FirstDifference(a.core, b.core);
    LexLessAt(a.core, b.core, StrLess, i);
    LexLessAt(b.core, a.core, StrLess, i);
    assert a.core[i][0..] == a.core[i] && b.core[i][0..] == b.core[i];
    StrLessTotal(a.core[i], b.core[i], 0);
  }

  /**
   * The cores compare as lists of strings: where they first differ, two
   * numerals of the same width compare as their values do.
   */
  lemma {:induction false} CoreOrderOfEqualWidths(a: Version, b: Version, i: nat)
    requires i < |a.core| && i < |b.core| && a.core[..i] == b.core[..i] && a.core[i] != b.core[i]
    requires |a.core[i]| == |b.core[i]| && AllDigits(a.core[i]) && AllDigits(b.core[i])
    ensures Less(a, b) <==> ValueOf(a.core[i]) < ValueOf(b.core[i])
  {
    LexLessAt(a.core, b.core, StrLess, i);
    StrLessDigitsOfEqualLength(a.core[i], b.core[i]);
  }

  /** Where the cores first differ, the field that is a proper prefix of the other comes first, whatever the values. */
  lemma {:induction false} CoreOrderIsTextual(a: Version, b: Version, i: nat)
    requires i < |a.core| && i < |b.core| && a.core[..i] == b.core[..i]
    requires |a.core[i]| < |b.core[i]| && a.core[i] == b.core[i][..|a.core[i]|]
    ensures Less(a, b) && !Less(b, a)
  {
    assert a.core[i] != b.core[i];
    LexLessAt(a.core, b.core, StrLess, i);
    LexLessPrefix(a.core[i], b.core[i], CharLess);
    LessAsymmetric(a, b);
  }

  /**
   * The entries before index `k` compare equal: each pair is the same string
   * or two numerals of the same value (`"01"` and `"1"`).
   */
  predicate EntriesAgree(x: seq<string>, y: seq<string>, k: nat) {
    && k <= |x| && k <= |y|
    && forall j | 0 <= j < k :: x[j] == y[j] || (IsNumeric(x[j]) && IsNumeric(y[j]) && ValueOf(x[j]) == ValueOf(y[j]))
  }

  /** Before index `k` the two converted copies agree exactly where the entries compare equal. */
  lemma {:induction false} ComparingAgree(x: seq<string>, y: seq<string>, k: nat)
    requires k <= |x| && k <= |y|
    ensures EntriesAgree(x, y, k) <==> Comparing(x, y)[..k] == Comparing(y, x)[..k]
  {
    if EntriesAgree(x, y, k) {
      forall j | 0 <= j < k
        ensures Comparing(x, y)[j] == Comparing(y, x)[j]
      {
      }
    } else {
      var j :| 0 <= j < k && !(x[j] == y[j] || (IsNumeric(x[j]) && IsNumeric(y[j]) && ValueOf(x[j]) == ValueOf(y[j])));
      assert Comparing(x, y)[..k][j] != Comparing(y, x)[..k][j];
    }
  }

  /** At the first index where two suffixes compare unequal, entries numeric on both sides decide by value. */
  lemma {:induction false} SuffixNumericAt(x: seq<string>, y: seq<string>, k: nat)
    requires k < |x| && k < |y| && EntriesAgree(x, y, k)
    requires IsNumeric(x[k]) && IsNumeric(y[k]) && ValueOf(x[k]) != ValueOf(y[k])
    ensures SuffixLess(x, y) <==> ValueOf(x[k]) < ValueOf(y[k])
  {
    ComparingAgree(x, y, k);
    LexLessAt(Comparing(x, y), Comparing(y, x), ItemLess, k);
  }

  /** At the first index where two suffixes compare unequal, other entries decide as strings. */
  lemma {:induction false} SuffixTextAt(x: seq<string>, y: seq<string>, k: nat)
    requires k < |x| && k < |y| && EntriesAgree(x, y, k) && x[k] != y[k]
    requires !(IsNumeric(x[k]) && IsNumeric(y[k]))
    ensures SuffixLess(x, y) <==> StrLess(x[k], y[k])
  {
    ComparingAgree(x, y, k);
    LexLessAt(Comparing(x, y), Comparing(y, x), ItemLess, k);
  }

  /** A suffix whose entries all compare equal to the first entries of a longer one precedes it. */
  lemma {:induction false} SuffixPrefix(x: seq<string>, y: seq<string>)
    requires 0 < |x| < |y| && EntriesAgree(x, y, |x|)
    ensures SuffixLess(x, y) && !SuffixLess(y, x)
  {
    var n := |x|;
    ComparingAgree(x, y, n);
    assert Comparing(x, y) == Comparing(x, y)[..n] == Comparing(y, x)[..n];
    LexLessPrefix(Comparing(x, y), Comparing(y, x), ItemLess);
    LexLessPrefix(Comparing(y, x), Comparing(x, y), ItemLess);
  }

  /**
   * With equal cores a pre-release precedes the release, and two releases
   * precede neither one the other.
   */
  lemma {:induction false} PrereleaseFirst(a: Version, b: Version)
    requires a.core == b.core && b.suffix == []
    ensures a.suffix != [] ==> Less(a, b) && !Less(b, a)
    ensures a.suffix == [] ==> !Less(a, b) && !Less(b, a) && Same(a, b)
  {
    SameNotLess(a, b);
  }

  /**
   * `>` is the converse of `<` whenever the two versions are ordered or equal;
   * `>=`, `<=` and `!=` are what their names say.
   */
  lemma {:induction false} DerivedComparisons(a: Version, b: Version)
    requires Less(a, b) || Less(b, a) || Same(a, b)
    ensures Gt(a, Ver(b)) == Ok(Less(b, a))
    ensures Ge(a, Ver(b)) == Ok(Less(b, a) || Same(a, b))
    ensures Le(a, Ver(b)) == Ok(Less(a, b) || Same(a, b))
    ensures Ne(a, Ver(b)) == Ok(!Same(a, b))
  {
    LessAsymmetric(a, b);
    LessAsymmetric(b, a);
    SameNotLess(a, b);
  }

  /**
   * Versions with one core whose suffixes differ as texts but not once
   * converted (`01` and `1` are the same integer) precede neither one the
   * other and are not equal, so each is greater than the other.
   */
  lemma {:induction false} GreaterBothWays(a: Version, b: Version)
    requires a.core == b.core && a.suffix != b.suffix && |a.suffix| > 0 && |b.suffix| > 0
    requires Comparing(a.suffix, b.suffix) == Comparing(b.suffix, a.suffix)
    ensures Gt(a, Ver(b)) == Ok(true) && Gt(b, Ver(a)) == Ok(true) && Eq(a, Ver(b)) == Ok(false)
  {
    LexLessIrreflexive(Comparing(a.suffix, b.suffix), ItemLess);
  }

  /** Comparing with a text that is not a version raises the constructor's error, whatever the comparison. */
  lemma {:induction false} CompareInvalid(a: Version, s: string)
    requires Parse(s).Err?
    ensures Eq(a, Str(s)) == Ne(a, Str(s)) == Lt(a, Str(s)) == Err(InvalidVersion(s))
    ensures Gt(a, Str(s)) == Le(a, Str(s)) == Ge(a, Str(s)) == Err(InvalidVersion(s))
  {
    ParseAccepts(s);
  }

  /** A string operand compares as the version it is built into. */
  lemma {:induction false} CompareString(a: Version, s: string)
    requires Parse(s).Ok?
    ensures var b := Parse(s).value;
      Eq(a, Str(s)) == Eq(a, Ver(b)) && Lt(a, Str(s)) == Lt(a, Ver(b)) && Gt(a, Str(s)) == Gt(a, Ver(b))
  {
  }

  // ---------------------------------------------------------------------------
  // str() and the constructor
  // ---------------------------------------------------------------------------

  lemma {:induction false} JoinCore(major: string, minor: string, patch: string)
    ensures Join([major, minor, patch], '.') == major + ("." + (minor + ("." + patch)))
  {
    assert [minor, patch][1..] == [patch];
    assert Join([minor, patch], '.') == minor + ['.'] + patch;
    assert [major, minor, patch][1..] == [minor, patch];
  }

  /** What `str()` writes for the build metadata of a match. */
  lemma {:induction false} RenderBuild(b: Option<string>)
    requires b.Some? ==> IsBuild(b.value)
    ensures (if b.Some? && b.value != "" then "+" + b.value else "") == BuildSpelling(b)
  {
    if b.Some? {
      DottedNotEmpty(b.value, false);
    }
  }

  /** `str()` of the version built from a match without a pre-release spells the match. */
  lemma {:induction false} RenderRelease(c: Captures)
    requires WellFormed(c) && c.tail.prerelease.None?
    ensures Render(VersionOf(c)) == Spelling(c)
  {
    JoinCore(c.major, c.minor, c.patch);
    RenderBuild(c.tail.buildmetadata);
  }

  /** `str()` of a version with a suffix spells the groups with `-` and the suffix joined by dots. */
  lemma {:induction false} RenderPrerelease(v: Version, c: Captures)
    requires v.core == [c.major, c.minor, c.patch] && v.suffix != []
    requires c.tail == Tail("-", Some(Join(v.suffix, '.')), v.buildmetadata)
    requires v.buildmetadata.Some? ==> IsBuild(v.buildmetadata.value)
    ensures Render(v) == Spelling(c)
  {
    JoinCore(c.major, c.minor, c.patch);
    RenderBuild(v.buildmetadata);
  }

  /**
   * `str()` gives back a text the constructor turns into the same version,
   * provided every suffix entry is itself a pre-release identifier (the suffix
   * is joined back by dots, and an entry split off at a `-` may be empty or a
   * numeral with a leading zero, which the pattern rejects after a dot).
   */
  lemma {:induction false} RoundTrip(s: string)
    requires Parse(s).Ok?
    requires forall p | p in Parse(s).value.suffix :: IsIdentifier(p, true)
    ensures Parse(Render(Parse(s).value)) == Parse(s)
  {
    ParsedFields(s);
    ScanSound(s);
    var v := Parse(s).value;
    var c := Scan(s).value;
    if v.suffix == [] {
      RenderRelease(c);
    } else {
      var t := Tail("-", Some(Join(v.suffix, '.')), v.buildmetadata);
      var d := Captures(c.major, c.minor, c.patch, t);
      DottedOfIdentifiers(v.suffix, true);
      RenderPrerelease(v, d);
      ParseOfGroups(d);
      SplitJoin(v.suffix, '.', Separators);
      DottedNotEmpty(Join(v.suffix, '.'), true);
      assert VersionOf(d) == v;
    }
  }
}
