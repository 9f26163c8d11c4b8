/**
 * The comparisons the driver of main.py asserts, and the edge cases of the
 * earlier `Version` class, each on concrete texts.
 */
module EarlyVersionExamples {
  import opened Wrappers
  import opened Text
  import opened EarlyVersion

  // ---------------------------------------------------------------------------
  // Constructing versions from concrete texts
  // ---------------------------------------------------------------------------

  /**
   * A text made of three digit runs, their dots and a rest that does not
   * start with a digit: the constructor rejects it when the pattern cannot
   * read the rest, raises for the first core field with a leading zero, and
   * otherwise holds the field values and the suffix the rest gives.
   */
  lemma {:induction false} Laid(s: string, major: string, minor: string, patch: string, rest: string)
    requires IsNumeric(major) && IsNumeric(minor) && IsNumeric(patch) && (rest == [] || !IsDigit(rest[0]))
    requires s == major + "." + minor + "." + patch + rest
    ensures var t := ReadTail(rest);
      Parse(s) ==
        if t.None? then Err(InvalidVersion)
        else if HasLeadingZero(major) then Err(LeadingZero("major"))
        else if HasLeadingZero(minor) then Err(LeadingZero("minor"))
        else if HasLeadingZero(patch) then Err(LeadingZero("patch"))
        else Ok(Version(ValueOf(major), ValueOf(minor), ValueOf(patch), t.value.1))
  {
    assert s == major + ("." + (minor + ("." + (patch + rest))));
    ScanOfLayout(s, major, minor, patch, rest);
    if ReadTail(rest).Some? {
      ParseOfScan(s);
    }
  }

  /** A dash followed by printable ASCII text is read as that suffix. */
  lemma {:induction false} DashedRest(x: string)
    requires x != [] && forall i | 0 <= i < |x| :: '!' <= x[i] <= '~'
    ensures ReadTail("-" + x) == Some((true, Some(x)))
  {
    assert ("-" + x)[1..] == x;
  }

  /** Three fields without leading zeros, a dash and a printable suffix give that version. */
  lemma {:induction false} LaidDashed(s: string, major: string, minor: string, patch: string, x: string)
    requires IsNumeric(major) && IsNumeric(minor) && IsNumeric(patch)
    requires !HasLeadingZero(major) && !HasLeadingZero(minor) && !HasLeadingZero(patch)
    requires x != [] && forall i | 0 <= i < |x| :: '!' <= x[i] <= '~'
    requires s == major + "." + minor + "." + patch + "-" + x
    ensures Parse(s) == Ok(Version(ValueOf(major), ValueOf(minor), ValueOf(patch), Some(x)))
  {
    DashedRest(x);
    assert s == major + "." + minor + "." + patch + ("-" + x);
    Laid(s, major, minor, patch, "-" + x);
  }

  /** The values of the numerals below. */
  lemma {:induction false} Values()
    ensures ValueOf("0") == 0 && ValueOf("1") == 1 && ValueOf("2") == 2
    ensures ValueOf("10") == 10 && ValueOf("42") == 42
  {
    assert ValueOf("10") == 10 * ValueOfPrefix("10", 1) + DigitValue('0');
    assert ValueOf("42") == 10 * ValueOfPrefix("42", 1) + DigitValue('2');
  }

  lemma {:induction false} Parses100()
    ensures Parse("1.0.0") == Ok(Version(1, 0, 0, None))
  {
    Values();
    Laid("1.0.0", "1", "0", "0", "");
  }

  lemma {:induction false} Parses200()
    ensures Parse("2.0.0") == Ok(Version(2, 0, 0, None))
  {
    Values();
    Laid("2.0.0", "2", "0", "0", "");
  }

  lemma {:induction false} Parses1420()
    ensures Parse("1.42.0") == Ok(Version(1, 42, 0, None))
  {
    Values();
    Laid("1.42.0", "1", "42", "0", "");
  }

  lemma {:induction false} Parses120()
    ensures Parse("1.2.0") == Ok(Version(1, 2, 0, None))
  {
    Values();
    Laid("1.2.0", "1", "2", "0", "");
  }

  lemma {:induction false} Parses1242()
    ensures Parse("1.2.42") == Ok(Version(1, 2, 42, None))
  {
    Values();
    Laid("1.2.42", "1", "2", "42", "");
  }

  lemma {:induction false} Parses110Alpha()
    ensures Parse("1.1.0-alpha") == Ok(Version(1, 1, 0, Some("alpha")))
  {
    Values();
    LaidDashed("1.1.0-alpha", "1", "1", "0", "alpha");
  }

  lemma {:induction false} Parses120Alpha1()
    ensures Parse("1.2.0-alpha.1") == Ok(Version(1, 2, 0, Some("alpha.1")))
  {
    Values();
    LaidDashed("1.2.0-alpha.1", "1", "2", "0", "alpha.1");
  }

  lemma {:induction false} Parses101b()
    ensures Parse("1.0.1b") == Ok(Version(1, 0, 1, Some("b")))
  {
    Values();
    Laid("1.0.1b", "1", "0", "1", "b");
  }

  lemma {:induction false} Parses1010AlphaBeta()
    ensures Parse("1.0.10-alpha.beta") == Ok(Version(1, 0, 10, Some("alpha.beta")))
  {
    Values();
    LaidDashed("1.0.10-alpha.beta", "1", "0", "10", "alpha.beta");
  }

  lemma {:induction false} Parses100Rc1()
    ensures Parse("1.0.0-rc.1") == Ok(Version(1, 0, 0, Some("rc.1")))
  {
    Values();
    LaidDashed("1.0.0-rc.1", "1", "0", "0", "rc.1");
  }

  // ---------------------------------------------------------------------------
  // The driver's expectations
  // ---------------------------------------------------------------------------

  /** What the driver asserts of a pair: `left < right`, `right > left` and `right != left`. */
  predicate DriverPasses(left: string, right: string) {
    && Parse(left).Ok? && Parse(right).Ok?
    && var a := Parse(left).value;
       var b := Parse(right).value;
       Lt(a, Ver(b)) == Ok(true) && Gt(b, Ver(a)) == Ok(true) && Ne(b, Ver(a)) == Ok(true)
  }

  /** The driver's three assertions hold for a pair whose left version precedes the right one. */
  lemma {:induction false} Passes(left: string, right: string, a: Version, b: Version)
    requires Parse(left) == Ok(a) && Parse(right) == Ok(b) && Less(a, b) == Ok(true)
    ensures DriverPasses(left, right)
  {
    ParsedSuffix(left);
    ParsedSuffix(right);
    LessAsymmetric(a, b);
    LessTrichotomous(b, a);
  }

  lemma {:induction false} MajorDecides()
    ensures DriverPasses("1.0.0", "2.0.0")
  {
    Parses100();
    Parses200();
    var a, b := Version(1, 0, 0, None), Version(2, 0, 0, None);
    CoreDominates(a, b);
    Passes("1.0.0", "2.0.0", a, b);
  }

  lemma {:induction false} MinorDecides()
    ensures DriverPasses("1.0.0", "1.42.0")
  {
    Parses100();
    Parses1420();
    var a, b := Version(1, 0, 0, None), Version(1, 42, 0, None);
    CoreDominates(a, b);
    Passes("1.0.0", "1.42.0", a, b);
  }

  lemma {:induction false} PatchDecides()
    ensures DriverPasses("1.2.0", "1.2.42")
  {
    Parses120();
    Parses1242();
    var a, b := Version(1, 2, 0, None), Version(1, 2, 42, None);
    CoreDominates(a, b);
    Passes("1.2.0", "1.2.42", a, b);
  }

  /** The cores decide before the suffixes are looked at. */
  lemma {:induction false} CoreBeforeSuffix()
    ensures DriverPasses("1.1.0-alpha", "1.2.0-alpha.1")
  {
    Parses110Alpha();
    Parses120Alpha1();
    var a, b := Version(1, 1, 0, Some("alpha")), Version(1, 2, 0, Some("alpha.1"));
    CoreDominates(a, b);
    Passes("1.1.0-alpha", "1.2.0-alpha.1", a, b);
  }

  /** A suffix glued to the patch without a dash; the patch 1 precedes the patch 10. */
  lemma {:induction false} GluedSuffix()
    ensures DriverPasses("1.0.1b", "1.0.10-alpha.beta")
  {
    Parses101b();
    Parses1010AlphaBeta();
    var a, b := Version(1, 0, 1, Some("b")), Version(1, 0, 10, Some("alpha.beta"));
    CoreDominates(a, b);
    Passes("1.0.1b", "1.0.10-alpha.beta", a, b);
  }

  /** A version with a suffix precedes the same core without one. */
  lemma {:induction false} CandidateBeforeRelease()
    ensures DriverPasses("1.0.0-rc.1", "1.0.0")
  {
    Parses100Rc1();
    Parses100();
    var a, b := Version(1, 0, 0, Some("rc.1")), Version(1, 0, 0, None);
    SuffixFirst(a, b, "rc.1");
    Passes("1.0.0-rc.1", "1.0.0", a, b);
  }

  /** Equal cores: a present suffix precedes an absent one. */
  lemma {:induction false} SuffixFirst(a: Version, b: Version, x: string)
    requires Core(a) == Core(b) && a.suffix == Some(x) && x != [] && b.suffix.None?
    ensures Less(a, b) == Ok(true)
  {
  }

  // ---------------------------------------------------------------------------
  // Edge cases
  // ---------------------------------------------------------------------------

  /** A core field with a leading zero raises, the first such field named. */
  lemma {:induction false} LeadingZeroMajor()
    ensures Parse("01.0.0") == Err(LeadingZero("major"))
  {
    Laid("01.0.0", "01", "0", "0", "");
  }

  lemma {:induction false} LeadingZeroMinor()
    ensures Parse("1.00.0") == Err(LeadingZero("minor"))
  {
    Laid("1.00.0", "1", "00", "0", "");
  }

  lemma {:induction false} LeadingZeroPatch()
    ensures Parse("1.0.00") == Err(LeadingZero("patch"))
  {
    Laid("1.0.00", "1", "0", "00", "");
  }

  /** The patch ends at its last digit; the zero before it still raises. */
  lemma {:induction false} LeadingZeroBeforeSuffix()
    ensures Parse("1.0.05x") == Err(LeadingZero("patch"))
  {
    Laid("1.0.05x", "1", "0", "05", "x");
  }

  /** Whitespace after the patch, or a missing field, makes the text invalid. */
  lemma {:induction false} Rejected()
    ensures Parse("1.0.0 beta") == Err(InvalidVersion)
    ensures Parse("1.0") == Err(InvalidVersion)
  {
    Laid("1.0.0 beta", "1", "0", "0", " beta");
  }

  /** A no-break space is whitespace to `\S` as well, so it also makes the text invalid. */
  lemma {:induction false} NonAsciiSpaceRejected()
    ensures Parse("1.0.0-a\U{00A0}") == Err(InvalidVersion)
  {
    var rest := "-a\U{00A0}";
    assert IsSpace(rest[2]) && rest[1..][1] == rest[2];
    Laid("1.0.0-a\U{00A0}", "1", "0", "0", rest);
  }

  /** A lone trailing dash is consumed and leaves no suffix: the version equals the plain one. */
  lemma {:induction false} TrailingDash()
    ensures Parse("1.0.0-") == Parse("1.0.0")
    ensures Eq(Version(1, 0, 0, None), Str("1.0.0-")) == Ok(true)
  {
    Values();
    Laid("1.0.0-", "1", "0", "0", "-");
    Parses100();
  }

  lemma {:induction false} Parses100Beta2()
    ensures Parse("1.0.0-beta.2") == Ok(Version(1, 0, 0, Some("beta.2")))
  {
    Values();
    LaidDashed("1.0.0-beta.2", "1", "0", "0", "beta.2");
  }

  /** Suffixes compare as plain strings, so `beta.11` precedes `beta.2`. */
  lemma {:induction false} SuffixIsText()
    ensures Lt(Version(1, 0, 0, Some("beta.11")), Str("1.0.0-beta.2")) == Ok(true)
  {
    Parses100Beta2();
    var a, b := Version(1, 0, 0, Some("beta.11")), Version(1, 0, 0, Some("beta.2"));
    BetaOrder();
    SuffixDecides(a, b, "beta.11", "beta.2");
    LtText(a, "1.0.0-beta.2", b);
  }

  /** Equal cores and present suffixes: the lesser suffix string decides. */
  lemma {:induction false} SuffixDecides(a: Version, b: Version, x: string, y: string)
    requires Core(a) == Core(b) && a.suffix == Some(x) && b.suffix == Some(y) && x != [] && y != []
    requires StrLess(x, y)
    ensures Less(a, b) == Ok(true)
  {
  }

  /** `<` against a text compares with the version the text gives. */
  lemma {:induction false} LtText(a: Version, s: string, b: Version)
    requires Parse(s) == Ok(b)
    ensures Lt(a, Str(s)) == Less(a, b)
  {
  }

  lemma {:induction false} BetaOrder()
    ensures StrLess("beta.11", "beta.2")
  {
    assert "beta.11"[..5] == "beta.2"[..5];
    LexLessAt("beta.11", "beta.2", CharLess, 5);
  }

  /** A version without suffix compared with itself: `<` and `<=` raise, `==` holds. */
  lemma {:induction false} SelfUnorderable()
    ensures Lt(Version(1, 0, 0, None), Str("1.0.0")) == Err(Unorderable)
    ensures Le(Version(1, 0, 0, None), Str("1.0.0")) == Err(Unorderable)
    ensures Eq(Version(1, 0, 0, None), Str("1.0.0")) == Ok(true)
  {
    Parses100();
    var a := Version(1, 0, 0, None);
    LessRaises(a, a);
  }
}
