/**
 * The anchored regular expression `Version.pattern` of version_comparator.py
 * (ASCII text without a trailing newline), in two forms:
 *
 *  - a declarative description: the `Captures` a match can produce, the text
 *    they spell (`Spelling`) and when they obey the pattern (`WellFormed`);
 *  - `Scan`, a deterministic scanner that tries the choices in the order a
 *    backtracking matcher does: the longest patch first, and for each patch the
 *    three readings of the rest, (a) a `-`/`+` separator then a pre-release,
 *    (b) a pre-release with no separator, (c) no pre-release.
 *
 * `ScanSound`, `ScanPreferred` and `CapturesUnique` together say that `Scan`
 * returns exactly the groups Python's matcher reports (`ScanIsPythonsMatch`).
 */
module SemVerGrammar {
  import opened Wrappers
  import opened Text

  /** `0|[1-9]\d*`: the form of major, minor and patch. */
  predicate IsNumericIdentifier(s: string) {
    IsNumeric(s) && !HasLeadingZero(s)
  }

  /**
   * One identifier: `[0-9a-zA-Z-]+`; with `strict` (the pre-release) an
   * all-digit identifier must also be `0|[1-9]\d*`, which is what the
   * alternatives `0|[1-9]\d*|\d*[a-zA-Z-][0-9a-zA-Z-]*` accept together.
   */
  predicate IsIdentifier(t: string, strict: bool) {
    |t| > 0 && AllIdentChars(t) && (strict && AllDigits(t) ==> !HasLeadingZero(t))
  }

  /**
   * Whether an identifier read so far may end here: it is not empty, and with
   * `strict` an all-digit identifier longer than one digit does not start with 0.
   */
  predicate MayEnd(len: nat, digits: bool, zero: bool, strict: bool) {
    len > 0 && !(strict && digits && zero && len > 1)
  }

  /**
   * Reads `t[i..]` character by character as the rest of a dotted group; the
   * identifier being read has `len` characters so far, `digits` says they are
   * all digits and `zero` that the first of them is `0`.
   */
  predicate Dotted(t: string, i: nat, len: nat, digits: bool, zero: bool, strict: bool)
    requires i <= |t|
    decreases |t| - i
  {
    if i == |t| then MayEnd(len, digits, zero, strict)
    else if t[i] == '.' then MayEnd(len, digits, zero, strict) && Dotted(t, i + 1, 0, true, false, strict)
    else
      IsIdentChar(t[i])
      && Dotted(t, i + 1, len + 1, digits && IsDigit(t[i]), if len == 0 then t[i] == '0' else zero, strict)
  }

  /** `t[i..]` is identifiers separated by single dots. */
  predicate IsDottedFrom(t: string, i: nat, strict: bool)
    requires i <= |t|
  {
    Dotted(t, i, 0, true, false, strict)
  }

  /** The `prerelease` group. */
  predicate IsPrerelease(p: string) {
    IsDottedFrom(p, 0, true)
  }

  /** The `buildmetadata` group: `[0-9a-zA-Z-]+(?:\.[0-9a-zA-Z-]+)*`. */
  predicate IsBuild(b: string) {
    IsDottedFrom(b, 0, false)
  }

  /** The reader accepts the rest of an identifier exactly when the identifier is one, and the rest after it is dotted. */
  lemma {:induction false} DottedStep(t: string, start: nat, i: nat, len: nat, digits: bool, zero: bool, strict: bool)
    requires start <= i <= |t| && len == i - start
    requires AllIdentChars(t[start..i])
    requires digits == AllDigits(t[start..i]) && zero == (len > 0 && t[start] == '0')
    ensures var k := FindFrom(t, i, {'.'});
      Dotted(t, i, len, digits, zero, strict) <==>
      IsIdentifier(t[start..k], strict) && (k == |t| || Dotted(t, k + 1, 0, true, false, strict))
    decreases |t| - i
  {
    var k := FindFrom(t, i, {'.'});
    var u := t[start..k];
    if i == |t| || t[i] == '.' {
      assert k == i;
    } else {
      assert k == FindFrom(t, i + 1, {'.'});
      assert u[i - start] == t[i];
      if IsIdentChar(t[i]) {
        var v := t[start..i + 1];
        assert v == t[start..i] + [t[i]];
        assert forall j | 0 <= j < len :: v[j] == t[start..i][j];
        assert v[len] == t[i];
        assert AllIdentChars(v);
        assert AllDigits(v) == (digits && IsDigit(t[i]));
        DottedStep(t, start, i + 1, len + 1, digits && IsDigit(t[i]), if len == 0 then t[i] == '0' else zero, strict);
      }
    }
  }

  lemma {:induction false} DottedFromMeaning(t: string, i: nat, strict: bool)
    requires i <= |t|
    ensures IsDottedFrom(t, i, strict) <==> forall u | u in SplitFrom(t, i, {'.'}) :: IsIdentifier(u, strict)
    decreases |t| - i
  {
    var k := FindFrom(t, i, {'.'});
    DottedStep(t, i, i, 0, true, false, strict);
    if k < |t| {
      DottedFromMeaning(t, k + 1, strict);
      assert SplitFrom(t, i, {'.'}) == [t[i..k]] + SplitFrom(t, k + 1, {'.'});
    } else {
      assert t[i..k] == t[i..];
    }
  }

  /** A dotted group is exactly a text whose pieces between dots are all identifiers. */
  lemma {:induction false} DottedMeaning(t: string, strict: bool)
    ensures IsDottedFrom(t, 0, strict) <==> forall u | u in Split(t, {'.'}) :: IsIdentifier(u, strict)
  {
    DottedFromMeaning(t, 0, strict);
  }

  lemma {:induction false} DottedHasNoPlusFrom(t: string, i: nat, len: nat, digits: bool, zero: bool, strict: bool)
    requires i <= |t| && Dotted(t, i, len, digits, zero, strict)
    ensures forall j | i <= j < |t| :: t[j] != '+'
    decreases |t| - i
  {
    if i < |t| {
      if t[i] == '.' {
        DottedHasNoPlusFrom(t, i + 1, 0, true, false, strict);
      } else {
        DottedHasNoPlusFrom(t, i + 1, len + 1, digits && IsDigit(t[i]), if len == 0 then t[i] == '0' else zero, strict);
      }
    }
  }

  /** Neither a pre-release nor build metadata contains `+`. */
  lemma {:induction false} DottedHasNoPlus(t: string, strict: bool)
    requires IsDottedFrom(t, 0, strict)
    ensures NoneIn(t, {'+'})
  {
    DottedHasNoPlusFrom(t, 0, 0, true, false, strict);
  }

  /** What a match captures after the patch; `sep` is the text `[-+]?` consumed. */
  datatype Tail = Tail(sep: string, prerelease: Option<string>, buildmetadata: Option<string>)

  /** The groups of a match: major, minor, patch and the tail. */
  datatype Captures = Captures(major: string, minor: string, patch: string, tail: Tail)

  function OrEmpty(o: Option<string>): string {
    if o.Some? then o.value else ""
  }

  function BuildSpelling(b: Option<string>): string {
    if b.Some? then "+" + b.value else ""
  }

  function TailSpelling(t: Tail): string {
    t.sep + (OrEmpty(t.prerelease) + BuildSpelling(t.buildmetadata))
  }

  /** The text a match with these groups spans. */
  function Spelling(c: Captures): string {
    c.major + ("." + (c.minor + ("." + (c.patch + TailSpelling(c.tail)))))
  }

  predicate TailWellFormed(t: Tail) {
    && (t.sep == "" || t.sep == "-" || t.sep == "+")
    && (t.prerelease.None? ==> t.sep == "")
    && (t.prerelease.Some? ==> IsPrerelease(t.prerelease.value))
    && (t.buildmetadata.Some? ==> IsBuild(t.buildmetadata.value))
  }

  predicate CoreWellFormed(c: Captures) {
    IsNumericIdentifier(c.major) && IsNumericIdentifier(c.minor) && IsNumericIdentifier(c.patch)
  }

  /** The groups obey the pattern. */
  predicate WellFormed(c: Captures) {
    CoreWellFormed(c) && TailWellFormed(c.tail)
  }

  /** Which of the three readings (a), (b), (c) of the rest a tail is. */
  function Rank(t: Tail): nat {
    if t.sep != "" then 0 else if t.prerelease.Some? then 1 else 2
  }

  /** Python's preference: a longer patch first, then the earlier reading. */
  predicate Prefers(r: Captures, c: Captures) {
    |c.patch| < |r.patch| || (|c.patch| == |r.patch| && Rank(r.tail) <= Rank(c.tail))
  }

  // ---------------------------------------------------------------------------
  // The scanner
  // ---------------------------------------------------------------------------

  /** `(?:\+(?P<buildmetadata>...))?$` matches `s[e..]`. */
  predicate BuildTailAt(s: string, e: nat)
    requires e <= |s|
  {
    e == |s| || (s[e] == '+' && IsBuild(s[e + 1..]))
  }

  function BuildAt(s: string, e: nat): Option<string>
    requires e <= |s|
  {
    if e == |s| then None else Some(s[e + 1..])
  }

  /** Reading (a) of the rest `s[q..]`: a `-` or `+`, a pre-release up to the first `+`, the build tail. */
  function SeparatedReading(s: string, q: nat): Option<Tail>
    requires q <= |s|
  {
    if q < |s| && (s[q] == '-' || s[q] == '+') then
      var e := FindFrom(s, q + 1, {'+'});
      if IsPrerelease(s[q + 1..e]) && BuildTailAt(s, e)
      then Some(Tail(s[q..q + 1], Some(s[q + 1..e]), BuildAt(s, e)))
      else None
    else None
  }

  /** Reading (b) of the rest `s[q..]`: a pre-release with no separator, then the build tail. */
  function BareReading(s: string, q: nat): Option<Tail>
    requires q <= |s|
  {
    var e := FindFrom(s, q, {'+'});
    if IsPrerelease(s[q..e]) && BuildTailAt(s, e)
    then Some(Tail("", Some(s[q..e]), BuildAt(s, e)))
    else None
  }

  /** Reading (c) of the rest `s[q..]`: no pre-release, only the build tail. */
  function PlainReading(s: string, q: nat): Option<Tail>
    requires q <= |s|
  {
    if BuildTailAt(s, q) then Some(Tail("", None, BuildAt(s, q))) else None
  }

  /** Reading `alt` of the rest `s[q..]`: 0 is (a), 1 is (b), 2 is (c). */
  function Alternative(s: string, q: nat, alt: nat): Option<Tail>
    requires q <= |s|
  {
    if alt == 0 then SeparatedReading(s, q)
    else if alt == 1 then BareReading(s, q)
    else PlainReading(s, q)
  }

  /** Tries the patch `s[p..q]`, then ever shorter ones down to one digit. */
  function ScanPatch(s: string, major: string, minor: string, p: nat, q: nat): Option<Captures>
    requires p < q <= |s|
    decreases q, 8
  {
    ScanReadings(s, major, minor, p, q, 0)
  }

  /**
   * Tries the readings `alt`, ..., (c) of the rest `s[q..]` after the patch
   * `s[p..q]`; when none is left, backtracks to a shorter patch.
   */
  function ScanReadings(s: string, major: string, minor: string, p: nat, q: nat, alt: nat): Option<Captures>
    requires p < q <= |s| && alt <= 3
    decreases q, 7 - 2 * alt
  {
    if alt == 3 then
      if q == p + 1 then None else ScanPatch(s, major, minor, p, q - 1)
    else TryReading(s, major, minor, p, q, alt)
  }

  /** Reading `alt` of the rest after the patch `s[p..q]`, or the later readings when it fails. */
  function TryReading(s: string, major: string, minor: string, p: nat, q: nat, alt: nat): Option<Captures>
    requires p < q <= |s| && alt <= 2
    decreases q, 6 - 2 * alt
  {
    match Alternative(s, q, alt)
    case Some(t) => Some(Captures(major, minor, s[p..q], t))
    case None => ScanReadings(s, major, minor, p, q, alt + 1)
  }

  /**
   * Reads the fields from index `i` on, `fields` being major and minor as far
   * as they are read: each of those is the whole digit run before its dot. The
   * patch is then tried longest first (just `0` when it starts with `0`).
   */
  function ScanFields(s: string, i: nat, fields: seq<string>): Option<Captures>
    requires i <= |s| && |fields| <= 2
    decreases 2 - |fields|
  {
    var e := DigitRunEnd(s, i);
    if |fields| < 2 then
      if e < |s| && s[e] == '.' && IsNumericIdentifier(s[i..e]) then ScanFields(s, e + 1, fields + [s[i..e]])
      else None
    else if e == i then None
    else ScanPatch(s, fields[0], fields[1], i, if s[i] == '0' then i + 1 else e)
  }

  /** `re.search(pattern, s)` reduced to its groups. */
  function Scan(s: string): Option<Captures> {
    ScanFields(s, 0, [])
  }

  // ---------------------------------------------------------------------------
  // Soundness
  // ---------------------------------------------------------------------------

  lemma {:induction false} BuildTailSpelling(s: string, e: nat)
    requires e <= |s| && BuildTailAt(s, e)
    ensures s[e..] == BuildSpelling(BuildAt(s, e))
  {
    if e < |s| {
      assert s[e..] == [s[e]] + s[e + 1..];
    }
  }

  /** A reading that succeeds spells the rest, obeys the pattern and has its rank. */
  lemma {:induction false} AlternativeSound(s: string, q: nat, alt: nat)
    requires q <= |s| && alt <= 2 && Alternative(s, q, alt).Some?
    ensures TailWellFormed(Alternative(s, q, alt).value)
    ensures Rank(Alternative(s, q, alt).value) == alt
    ensures TailSpelling(Alternative(s, q, alt).value) == s[q..]
  {
    if alt == 0 {
      SeparatedReadingSound(s, q);
    } else if alt == 1 {
      BareReadingSound(s, q);
    } else {
      PlainReadingSound(s, q);
    }
  }

  lemma {:induction false} SeparatedReadingSound(s: string, q: nat)
    requires q <= |s| && SeparatedReading(s, q).Some?
    ensures var t := SeparatedReading(s, q).value;
      TailWellFormed(t) && Rank(t) == 0 && TailSpelling(t) == s[q..]
  {
    var e := FindFrom(s, q + 1, {'+'});
    var t := SeparatedReading(s, q).value;
    assert t == Tail(s[q..q + 1], Some(s[q + 1..e]), BuildAt(s, e));
    assert t.sep == [s[q]];
    BuildTailSpelling(s, e);
    ThreeSlices(s, q, q + 1, e);
  }

  lemma {:induction false} BareReadingSound(s: string, q: nat)
    requires q <= |s| && BareReading(s, q).Some?
    ensures var t := BareReading(s, q).value;
      TailWellFormed(t) && Rank(t) == 1 && TailSpelling(t) == s[q..]
  {
    var e := FindFrom(s, q, {'+'});
    BuildTailSpelling(s, e);
    assert s[q..] == "" + (s[q..e] + s[e..]);
  }

  lemma {:induction false} PlainReadingSound(s: string, q: nat)
    requires q <= |s| && PlainReading(s, q).Some?
    ensures var t := PlainReading(s, q).value;
      TailWellFormed(t) && Rank(t) == 2 && TailSpelling(t) == s[q..]
  {
    BuildTailSpelling(s, q);
    assert s[q..] == "" + ("" + s[q..]);
  }

  /** A reading that succeeds has its own rank. */
  lemma {:induction false} AlternativeRank(s: string, q: nat, alt: nat)
    requires q <= |s| && alt <= 2 && Alternative(s, q, alt).Some?
    ensures Rank(Alternative(s, q, alt).value) == alt
  {
  }

  /** What the search returns has the given major and minor, a patch of digits and a well-formed tail, and spells the rest. */
  lemma {:induction false} ScanReadingsSound(s: string, major: string, minor: string, p: nat, q: nat, alt: nat)
    requires p < q <= |s| && alt <= 3 && ScanReadings(s, major, minor, p, q, alt).Some?
    requires forall j | p <= j < q :: IsDigit(s[j])
    requires s[p] == '0' ==> q == p + 1
    ensures var r := ScanReadings(s, major, minor, p, q, alt).value;
      && r.major == major && r.minor == minor
      && IsNumericIdentifier(r.patch) && TailWellFormed(r.tail)
      && s[p..] == r.patch + TailSpelling(r.tail)
    decreases q, 3 - alt
  {
    if alt == 3 {
      ScanReadingsSound(s, major, minor, p, q - 1, 0);
    } else if Alternative(s, q, alt).Some? {
      AlternativeSound(s, q, alt);
      PatchPiece(s, p, q);
    } else {
      ScanReadingsSound(s, major, minor, p, q, alt + 1);
    }
  }

  /** Digits from `p` to `q`, just one when the first is `0`, form a patch, and the text from `p` is it and the rest. */
  lemma {:induction false} PatchPiece(s: string, p: nat, q: nat)
    requires p < q <= |s| && (forall j | p <= j < q :: IsDigit(s[j]))
    requires s[p] == '0' ==> q == p + 1
    ensures IsNumericIdentifier(s[p..q]) && s[p..] == s[p..q] + s[q..]
  {
    var patch := s[p..q];
    assert AllDigits(patch) by {
      forall j | 0 <= j < |patch| ensures IsDigit(patch[j]) {
        assert patch[j] == s[p + j];
      }
    }
    assert patch[0] == s[p];
  }

  lemma {:induction false} ScanPatchSound(s: string, major: string, minor: string, p: nat, q: nat)
    requires p < q <= |s| && ScanPatch(s, major, minor, p, q).Some?
    requires forall j | p <= j < q :: IsDigit(s[j])
    requires s[p] == '0' ==> q == p + 1
    ensures var r := ScanPatch(s, major, minor, p, q).value;
      && r.major == major && r.minor == minor
      && IsNumericIdentifier(r.patch) && TailWellFormed(r.tail)
      && s[p..] == r.patch + TailSpelling(r.tail)
  {
    ScanReadingsSound(s, major, minor, p, q, 0);
  }

  /** Reading major and minor: one step of `ScanFields` each. */
  lemma {:induction false} ScanCore(s: string) returns (e1: nat, e2: nat)
    requires Scan(s).Some?
    ensures e1 < e2 < |s| && DigitRunEnd(s, 0) == e1 && DigitRunEnd(s, e1 + 1) == e2
    ensures s[e1] == '.' && s[e2] == '.' && IsNumericIdentifier(s[..e1]) && IsNumericIdentifier(s[e1 + 1..e2])
    ensures Scan(s) == ScanFields(s, e2 + 1, [s[..e1], s[e1 + 1..e2]])
  {
    e1 := DigitRunEnd(s, 0);
    assert s[0..e1] == s[..e1];
    assert [] + [s[..e1]] == [s[..e1]];
    e2 := DigitRunEnd(s, e1 + 1);
    assert [s[..e1]] + [s[e1 + 1..e2]] == [s[..e1], s[e1 + 1..e2]];
  }

  /** One step of `ScanFields`: a numeric field `x` and its dot read at `i`. */
  lemma {:induction false} FieldStep(s: string, i: nat, fields: seq<string>, x: string)
    requires |fields| < 2 && IsNumericIdentifier(x)
    requires i + |x| < |s| && DigitRunEnd(s, i) == i + |x| && s[i + |x|] == '.' && s[i..i + |x|] == x
    ensures ScanFields(s, i, fields) == ScanFields(s, i + |x| + 1, fields + [x])
  {
  }

  /** `s` starts with `major`, a dot, `minor` and a dot, each field a whole digit run. */
  predicate CoreAt(s: string, major: string, minor: string) {
    var e1 := |major|;
    var e2 := e1 + 1 + |minor|;
    && IsNumericIdentifier(major) && IsNumericIdentifier(minor)
    && e2 < |s| && DigitRunEnd(s, 0) == e1 && DigitRunEnd(s, e1 + 1) == e2
    && s[e1] == '.' && s[e2] == '.' && s[..e1] == major && s[e1 + 1..e2] == minor
  }

  /** After the core `s[..p]`, `s[p..k]` is a patch at the start of the digit run. */
  predicate PatchEndsAt(s: string, p: nat, k: nat) {
    p < k <= |s| && IsDigit(s[p]) && (s[p] == '0' ==> k == p + 1) && k <= DigitRunEnd(s, p)
  }

  /** Conversely, where major and minor are read, `Scan` goes on to the patches. */
  lemma {:induction false} ScanCoreAt(s: string, major: string, minor: string)
    requires CoreAt(s, major, minor)
    ensures Scan(s) == ScanFields(s, |major| + 1 + |minor| + 1, [major, minor])
  {
    assert s[0..|major|] == s[..|major|];
    FieldStep(s, 0, [], major);
    assert [] + [major] == [major];
    FieldStep(s, |major| + 1, [major], minor);
    assert [major] + [minor] == [major, minor];
  }

  /** The patch search `ScanFields` starts once major and minor are read. */
  lemma {:induction false} ScanPatchStart(s: string, major: string, minor: string, p: nat)
    requires p < |s| && IsDigit(s[p])
    ensures var q := if s[p] == '0' then p + 1 else DigitRunEnd(s, p);
      && p < q <= |s|
      && ScanFields(s, p, [major, minor]) == ScanPatch(s, major, minor, p, q)
  {
  }

  /** The patch search needs a digit where it starts. */
  lemma {:induction false} ScanFieldsPatch(s: string, major: string, minor: string, p: nat)
    requires p <= |s| && ScanFields(s, p, [major, minor]).Some?
    ensures p < |s| && IsDigit(s[p])
  {
  }

  /** The steps `Scan` takes before it tries patches. */
  lemma {:induction false} ScanSteps(s: string) returns (e1: nat, e2: nat, p: nat, q: nat)
    requires Scan(s).Some?
    ensures e1 < e2 < p < q <= |s| && p == e2 + 1
    ensures s[e1] == '.' && s[e2] == '.' && IsNumericIdentifier(s[..e1]) && IsNumericIdentifier(s[e1 + 1..e2])
    ensures forall j | p <= j < q :: IsDigit(s[j])
    ensures s[p] == '0' ==> q == p + 1
    ensures Scan(s) == ScanPatch(s, s[..e1], s[e1 + 1..e2], p, q)
  {
    e1, e2 := ScanCore(s);
    p := e2 + 1;
    ScanFieldsPatch(s, s[..e1], s[e1 + 1..e2], p);
    ScanPatchStart(s, s[..e1], s[e1 + 1..e2], p);
    q := if s[p] == '0' then p + 1 else DigitRunEnd(s, p);
    DigitRunEndDigits(s, p);
  }

  /** Whatever `Scan` returns obeys the pattern and spells the whole input. */
  lemma {:induction false} ScanSound(s: string)
    requires Scan(s).Some?
    ensures WellFormed(Scan(s).value)
    ensures Spelling(Scan(s).value) == s
  {
    var e1, e2, p, q := ScanSteps(s);
    ScanPatchSound(s, s[..e1], s[e1 + 1..e2], p, q);
    SpellingOfPieces(s, e1, e2, Scan(s).value);
  }

  /** Captures whose fields are the pieces of `s` between its first two dots spell `s`. */
  lemma {:induction false} SpellingOfPieces(s: string, e1: nat, e2: nat, c: Captures)
    requires e1 < e2 < |s| && s[e1] == '.' && s[e2] == '.'
    requires c.major == s[..e1] && c.minor == s[e1 + 1..e2] && s[e2 + 1..] == c.patch + TailSpelling(c.tail)
    ensures Spelling(c) == s
  {
    assert s == s[..e1] + ("." + (s[e1 + 1..e2] + ("." + s[e2 + 1..])));
  }

  // ---------------------------------------------------------------------------
  // Completeness with Python's preference, and uniqueness
  // ---------------------------------------------------------------------------

  /** A text spelled as major, a dot, minor, a dot and a rest starts with major and minor as `Scan` reads them. */
  lemma {:induction false} CoreLaidOut(s: string, major: string, minor: string, rest: string)
    requires IsNumericIdentifier(major) && IsNumericIdentifier(minor)
    requires s == major + ("." + (minor + ("." + rest)))
    ensures CoreAt(s, major, minor) && s[|major| + 1 + |minor| + 1..] == rest
  {
    assert s[0..] == s;
    FieldAt(s, 0, major, minor + ("." + rest));
    FieldAt(s, |major| + 1, minor, rest);
    assert s[0..|major|] == s[..|major|];
  }

  /** A patch spelled at `p` ahead of a rest is a digit run ending where `Scan` may end it. */
  lemma {:induction false} PatchLaidOut(s: string, p: nat, patch: string, rest: string)
    requires p <= |s| && s[p..] == patch + rest && IsNumericIdentifier(patch)
    ensures PatchEndsAt(s, p, p + |patch|) && s[p..p + |patch|] == patch && s[p + |patch|..] == rest
  {
    DigitsAt(s, p, patch, rest);
    assert s[p] == s[p..p + |patch|][0] == patch[0];
  }

  /**
   * `s` is major and minor as `Scan` reads them, then the patch as a digit run
   * `Scan` may end where it ends, then the spelling of the tail.
   */
  predicate LaidOut(s: string, c: Captures) {
    var p := |c.major| + 1 + |c.minor| + 1;
    var k := p + |c.patch|;
    && CoreAt(s, c.major, c.minor) && PatchEndsAt(s, p, k)
    && s[p..k] == c.patch && s[k..] == TailSpelling(c.tail)
  }

  /** The text of a well-formed match is laid out as its groups say. */
  lemma {:induction false} MatchLayout(c: Captures)
    requires CoreWellFormed(c)
    ensures LaidOut(Spelling(c), c)
  {
    LaidOutOf(Spelling(c), c);
  }

  lemma {:induction false} LaidOutOf(s: string, c: Captures)
    requires CoreWellFormed(c)
    requires s == c.major + ("." + (c.minor + ("." + (c.patch + TailSpelling(c.tail)))))
    ensures LaidOut(s, c)
  {
    var rest := TailSpelling(c.tail);
    CoreLaidOut(s, c.major, c.minor, c.patch + rest);
    PatchLaidOut(s, |c.major| + 1 + |c.minor| + 1, c.patch, rest);
  }

  /** Build metadata spelled at `e` is what `BuildTailAt` and `BuildAt` read there. */
  lemma {:induction false} BuildPieces(s: string, e: nat, b: Option<string>)
    requires e <= |s| && s[e..] == BuildSpelling(b) && (b.Some? ==> IsBuild(b.value))
    ensures BuildTailAt(s, e) && BuildAt(s, e) == b
    ensures e < |s| ==> s[e] == '+'
  {
    if b.Some? {
      assert s[e] == s[e..][0];
      assert s[e + 1..] == s[e..][1..];
    }
  }

  /** A pre-release (or nothing) spelled at `start` ends at the first `+`. */
  lemma {:induction false} PrereleasePieces(s: string, start: nat, pre: string, b: Option<string>)
    requires start <= |s| && s[start..] == pre + BuildSpelling(b) && NoneIn(pre, {'+'})
    ensures start + |pre| <= |s| && FindFrom(s, start, {'+'}) == start + |pre|
    ensures s[start..start + |pre|] == pre && s[start + |pre|..] == BuildSpelling(b)
  {
    SuffixPieces(s, start, pre, BuildSpelling(b));
    var e := start + |pre|;
    forall j | start <= j < e ensures s[j] !in {'+'} {
      assert s[j] == s[start..e][j - start];
    }
    if e < |s| {
      assert s[e] == s[e..][0];
    }
    FindFromAt(s, start, e, {'+'});
  }

  /** Where the separator, the pre-release and the build metadata of a well-formed tail sit. */
  lemma {:induction false} TailPieces(s: string, q: nat, t: Tail)
    requires q <= |s| && s[q..] == t.sep + (OrEmpty(t.prerelease) + BuildSpelling(t.buildmetadata))
    requires NoneIn(OrEmpty(t.prerelease), {'+'})
    ensures var start := q + |t.sep|;
      var e := start + |OrEmpty(t.prerelease)|;
      && e <= |s| && s[q..start] == t.sep && s[start..e] == OrEmpty(t.prerelease)
      && FindFrom(s, start, {'+'}) == e && s[e..] == BuildSpelling(t.buildmetadata)
  {
    var pre := OrEmpty(t.prerelease);
    SuffixPieces(s, q, t.sep, pre + BuildSpelling(t.buildmetadata));
    PrereleasePieces(s, q + |t.sep|, pre, t.buildmetadata);
  }

  /** The reading a well-formed tail is succeeds on its spelling and gives it back. */
  lemma {:induction false} AlternativeComplete(s: string, q: nat, t: Tail)
    requires q <= |s| && TailWellFormed(t) && s[q..] == TailSpelling(t)
    ensures Alternative(s, q, Rank(t)) == Some(t)
  {
    if t.sep != "" {
      SeparatedReadingComplete(s, q, t);
    } else if t.prerelease.Some? {
      BareReadingComplete(s, q, t);
    } else {
      PlainReadingComplete(s, q, t);
    }
  }

  lemma {:induction false} SeparatedReadingComplete(s: string, q: nat, t: Tail)
    requires q <= |s| && TailWellFormed(t) && s[q..] == TailSpelling(t) && t.sep != ""
    ensures SeparatedReading(s, q) == Some(t)
  {
    var pre := t.prerelease.value;
    DottedHasNoPlus(pre, true);
    TailPieces(s, q, t);
    var e := q + 1 + |pre|;
    BuildPieces(s, e, t.buildmetadata);
    assert s[q] == s[q..q + 1][0] == t.sep[0];
    assert q < |s| && (s[q] == '-' || s[q] == '+');
    assert FindFrom(s, q + 1, {'+'}) == e && s[q + 1..e] == pre;
    assert IsPrerelease(s[q + 1..e]) && BuildTailAt(s, e);
    assert SeparatedReading(s, q) == Some(Tail(s[q..q + 1], Some(s[q + 1..e]), BuildAt(s, e)));
  }

  lemma {:induction false} BareReadingComplete(s: string, q: nat, t: Tail)
    requires q <= |s| && TailWellFormed(t) && s[q..] == TailSpelling(t) && t.sep == "" && t.prerelease.Some?
    ensures BareReading(s, q) == Some(t)
  {
    DottedHasNoPlus(t.prerelease.value, true);
    TailPieces(s, q, t);
    BuildPieces(s, q + |t.prerelease.value|, t.buildmetadata);
  }

  lemma {:induction false} PlainReadingComplete(s: string, q: nat, t: Tail)
    requires q <= |s| && TailWellFormed(t) && s[q..] == TailSpelling(t) && t.prerelease.None?
    ensures PlainReading(s, q) == Some(t)
  {
    assert s[q..] == BuildSpelling(t.buildmetadata);
    BuildPieces(s, q, t.buildmetadata);
  }

  /**
   * A well-formed tail spelled after the patch `s[p..k]` bounds the search from
   * the patch `s[p..q]` and reading `alt` on: it returns a longer patch, or this
   * one with a reading no later than the tail's.
   */
  lemma {:induction false} ScanReadingsPreferred(s: string, major: string, minor: string, p: nat, q: nat, alt: nat, k: nat, t: Tail)
    requires p < k <= q <= |s| && alt <= 3
    requires TailWellFormed(t) && s[k..] == TailSpelling(t)
    requires q == k ==> alt <= Rank(t)
    ensures ScanReadings(s, major, minor, p, q, alt).Some?
    ensures var r := ScanReadings(s, major, minor, p, q, alt).value;
      |r.patch| > k - p || (|r.patch| == k - p && Rank(r.tail) <= Rank(t))
    decreases q, 3 - alt
  {
    if alt == 3 {
      ScanReadingsPreferred(s, major, minor, p, q - 1, 0, k, t);
    } else if Alternative(s, q, alt).Some? {
      AlternativeRank(s, q, alt);
    } else if q == k && alt == Rank(t) {
      AlternativeComplete(s, q, t);
      assert false;
    } else {
      ScanReadingsPreferred(s, major, minor, p, q, alt + 1, k, t);
    }
  }

  /**
   * Every well-formed match of `s` is matched by `Scan` too, and `Scan` picks
   * one that Python's matcher prefers to it.
   */
  lemma {:induction false} ScanPreferred(s: string, c: Captures)
    requires WellFormed(c) && Spelling(c) == s
    ensures Scan(s).Some? && Prefers(Scan(s).value, c)
  {
    MatchLayout(c);
    ScanPreferredAt(s, c);
  }

  /**
   * Where major and minor of `c` are read off `s` and its patch is a digit run
   * followed by the spelling of its well-formed tail, `Scan` succeeds with a
   * match Python's matcher prefers to `c`.
   */
  lemma {:induction false} ScanPreferredAt(s: string, c: Captures)
    requires LaidOut(s, c) && TailWellFormed(c.tail)
    ensures Scan(s).Some? && Prefers(Scan(s).value, c)
  {
    var p := |c.major| + 1 + |c.minor| + 1;
    ScanCoreAt(s, c.major, c.minor);
    ScanPatchStart(s, c.major, c.minor, p);
    var q := if s[p] == '0' then p + 1 else DigitRunEnd(s, p);
    ScanReadingsPreferred(s, c.major, c.minor, p, q, 0, p + |c.patch|, c.tail);
  }

  /** For a fixed reading, a text spells at most one well-formed tail. */
  lemma {:induction false} TailUnique(t1: Tail, t2: Tail)
    requires TailWellFormed(t1) && TailWellFormed(t2) && TailSpelling(t1) == TailSpelling(t2)
    requires Rank(t1) == Rank(t2)
    ensures t1 == t2
  {
    var s := TailSpelling(t1);
    assert s[0..] == s;
    AlternativeComplete(s, 0, t1);
    AlternativeComplete(s, 0, t2);
  }

  /** A text starts with at most one major and minor as `Scan` reads them. */
  lemma {:induction false} CoreAtUnique(s: string, major1: string, minor1: string, major2: string, minor2: string)
    requires CoreAt(s, major1, minor1) && CoreAt(s, major2, minor2)
    ensures major1 == major2 && minor1 == minor2
  {
  }

  /** Laid out with patches of one length, two matches agree on everything but how the tail reads. */
  lemma {:induction false} LaidOutUnique(s: string, c1: Captures, c2: Captures)
    requires LaidOut(s, c1) && LaidOut(s, c2) && |c1.patch| == |c2.patch|
    ensures c1.major == c2.major && c1.minor == c2.minor && c1.patch == c2.patch
    ensures TailSpelling(c1.tail) == TailSpelling(c2.tail)
  {
    CoreAtUnique(s, c1.major, c1.minor, c2.major, c2.minor);
    var p := |c1.major| + 1 + |c1.minor| + 1;
    assert p == |c2.major| + 1 + |c2.minor| + 1;
    var k := p + |c1.patch|;
    assert k == p + |c2.patch|;
    assert c1.patch == s[p..k] == c2.patch;
    assert TailSpelling(c1.tail) == s[k..] == TailSpelling(c2.tail);
  }

  /** For a fixed patch length and reading, a text has at most one well-formed match. */
  lemma {:induction false} CapturesUnique(c1: Captures, c2: Captures)
    requires WellFormed(c1) && WellFormed(c2) && Spelling(c1) == Spelling(c2)
    requires |c1.patch| == |c2.patch| && Rank(c1.tail) == Rank(c2.tail)
    ensures c1 == c2
  {
    MatchLayout(c1);
    MatchLayout(c2);
    LaidOutUnique(Spelling(c1), c1, c2);
    TailUnique(c1.tail, c2.tail);
  }

  /** `Scan` returns exactly the groups of the match Python's matcher reports. */
  lemma {:induction false} ScanIsPythonsMatch(s: string, c: Captures)
    requires WellFormed(c) && Spelling(c) == s
    requires forall d: Captures | WellFormed(d) && Spelling(d) == s :: Prefers(c, d)
    ensures Scan(s) == Some(c)
  {
    ScanPreferred(s, c);
    var r := Scan(s).value;
    ScanSound(s);
    assert Prefers(c, r);
    CapturesUnique(r, c);
  }

  /**
   * The tail of `c` leaves the matcher no earlier choice: the patch is not
   * followed by a digit (so no longer patch), and unless the tail is reading (a)
   * it does not start with `-` or `+` (so reading (a) fails) and is not empty
   * build metadata alone (so a pre-release cannot be read from it).
   */
  predicate Unambiguous(t: Tail) {
    var x := TailSpelling(t);
    x == "" || (!IsDigit(x[0]) && (Rank(t) == 0 || (x[0] != '-' && x[0] != '+')))
  }

  /** Two readings of `s` from the patch start `p`, one preferred to the other and that one unambiguous, have the same patch and reading. */
  lemma {:induction false} PreferredLaidOut(s: string, p: nat, c: Captures, r: Captures)
    requires PatchEndsAt(s, p, p + |r.patch|) && p + |c.patch| <= |s|
    requires s[p + |c.patch|..] == TailSpelling(c.tail) && s[p + |r.patch|..] == TailSpelling(r.tail)
    requires TailWellFormed(c.tail) && TailWellFormed(r.tail)
    requires Prefers(r, c) && Unambiguous(c.tail)
    ensures |r.patch| == |c.patch| && Rank(r.tail) == Rank(c.tail)
  {
    PatchNoLonger(s, p, p + |c.patch|, p + |r.patch|, TailSpelling(c.tail));
    NoEarlierReading(r.tail, c.tail);
  }

  /** A laid-out match reads its patch from the patch start `p`, followed by its tail. */
  lemma {:induction false} LaidOutPatch(s: string, c: Captures, p: nat)
    requires LaidOut(s, c) && p == |c.major| + 1 + |c.minor| + 1
    ensures PatchEndsAt(s, p, p + |c.patch|) && s[p + |c.patch|..] == TailSpelling(c.tail)
  {
  }

  /** Two matches laid out in one text start their patches at the same index. */
  lemma {:induction false} LaidOutPatchStart(s: string, c: Captures, r: Captures)
    requires LaidOut(s, c) && LaidOut(s, r)
    ensures |c.major| + 1 + |c.minor| + 1 == |r.major| + 1 + |r.minor| + 1
  {
  }

  /** A patch ending at `kc` ahead of a non-digit bounds every patch `Scan` may read from `p`. */
  lemma {:induction false} PatchNoLonger(s: string, p: nat, kc: nat, kr: nat, x: string)
    requires PatchEndsAt(s, p, kr) && p <= kc <= |s| && s[kc..] == x
    requires x == "" || !IsDigit(x[0])
    ensures kr <= kc
  {
    if kc < |s| {
      assert s[kc] == x[0];
    }
    DigitRunEndAtMost(s, p, kc);
  }

  /** A well-formed tail spelled like an unambiguous one is not an earlier reading than it. */
  lemma {:induction false} NoEarlierReading(t: Tail, u: Tail)
    requires TailWellFormed(t) && TailWellFormed(u) && TailSpelling(t) == TailSpelling(u)
    requires Unambiguous(u)
    ensures Rank(t) >= Rank(u)
  {
    var x := TailSpelling(t);
    if t.sep != "" {
      assert x[0] == t.sep[0];
    } else if t.prerelease.Some? {
      var pre := t.prerelease.value;
      assert |pre| > 0;
      assert x == pre + BuildSpelling(t.buildmetadata);
      assert x[0] == pre[0];
    }
  }

  /** An unambiguous well-formed match is what `Scan` returns for its text. */
  lemma {:induction false} ScanOfSpelling(c: Captures)
    requires WellFormed(c) && Unambiguous(c.tail)
    ensures Scan(Spelling(c)) == Some(c)
  {
    var s := Spelling(c);
    ScanPreferred(s, c);
    ScanSound(s);
    var r := Scan(s).value;
    SpelledAlike(s, c, r);
    CapturesUnique(r, c);
  }

  /** Two well-formed spellings of `s`, one preferred to the other and that one unambiguous, have the same patch and reading. */
  lemma {:induction false} SpelledAlike(s: string, c: Captures, r: Captures)
    requires WellFormed(c) && WellFormed(r) && Spelling(c) == s && Spelling(r) == s
    requires Prefers(r, c) && Unambiguous(c.tail)
    ensures |r.patch| == |c.patch| && Rank(r.tail) == Rank(c.tail)
  {
    MatchLayout(c);
    MatchLayout(r);
    LaidOutAlike(s, c, r);
  }

  /** `SpelledAlike` for matches laid out in `s`. */
  lemma {:induction false} LaidOutAlike(s: string, c: Captures, r: Captures)
    requires LaidOut(s, c) && LaidOut(s, r) && TailWellFormed(c.tail) && TailWellFormed(r.tail)
    requires Prefers(r, c) && Unambiguous(c.tail)
    ensures |r.patch| == |c.patch| && Rank(r.tail) == Rank(c.tail)
  {
    var p := |c.major| + 1 + |c.minor| + 1;
    LaidOutPatchStart(s, c, r);
    LaidOutPatch(s, c, p);
    LaidOutPatch(s, r, p);
    PreferredLaidOut(s, p, c, r);
  }

  /**
   * When some groups with a one-digit patch spell a text and what follows
   * that patch does not start with a digit, every match of the text has that
   * rest as its tail: the patch cannot be longer, and it is never empty.
   */
  lemma {:induction false} TailAfterShortPatch(c: Captures, d: Captures)
    requires WellFormed(c) && CoreWellFormed(d) && Spelling(c) == Spelling(d) && |d.patch| == 1
    requires TailSpelling(d.tail) == "" || !IsDigit(TailSpelling(d.tail)[0])
    ensures TailSpelling(c.tail) == TailSpelling(d.tail)
  {
    var s := Spelling(c);
    MatchLayout(c);
    MatchLayout(d);
    ShortPatchLaidOut(s, c, d);
    LaidOutUnique(s, c, d);
  }

  /** `TailAfterShortPatch` for the layouts: the patches have one length. */
  lemma {:induction false} ShortPatchLaidOut(s: string, c: Captures, d: Captures)
    requires LaidOut(s, c) && LaidOut(s, d) && |d.patch| == 1
    requires TailSpelling(d.tail) == "" || !IsDigit(TailSpelling(d.tail)[0])
    ensures |c.patch| == 1
  {
    var p := |c.major| + 1 + |c.minor| + 1;
    LaidOutPatchStart(s, c, d);
    LaidOutPatch(s, c, p);
    LaidOutPatch(s, d, p);
    PatchNoLonger(s, p, p + 1, p + |c.patch|, TailSpelling(d.tail));
  }

  /** Identifiers joined by dots form a dotted group. */
  lemma {:induction false} DottedOfIdentifiers(ids: seq<string>, strict: bool)
    requires |ids| > 0 && forall u | u in ids :: IsIdentifier(u, strict)
    ensures IsDottedFrom(Join(ids, '.'), 0, strict)
  {
    forall u | u in ids ensures NoneIn(u, {'.'}) {
      assert forall i | 0 <= i < |u| :: IsIdentChar(u[i]);
    }
    SplitJoin(ids, '.', {'.'});
    DottedMeaning(Join(ids, '.'), strict);
  }
}
