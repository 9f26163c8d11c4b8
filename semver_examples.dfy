/**
 * The comparisons the test driver test.py expects of version_comparator.py,
 * and behaviours of the code that depart from Semantic Versioning, each on
 * concrete texts.
 */
module SemVerExamples {
  import opened Wrappers
  import opened Text
  import opened SemVerGrammar
  import opened SemVer

  // ---------------------------------------------------------------------------
  // Constructing versions from concrete texts
  // ---------------------------------------------------------------------------

  /** The text of groups whose tail spells `tail`. */
  lemma {:induction false} SpellingIs(c: Captures, s: string, tail: string)
    requires TailSpelling(c.tail) == tail && s == c.major + "." + c.minor + "." + c.patch + tail
    ensures Spelling(c) == s
  {
  }

  /** `major.minor.patch`: a release. */
  lemma {:induction false} ParseRelease(s: string, major: string, minor: string, patch: string)
    requires IsNumericIdentifier(major) && IsNumericIdentifier(minor) && IsNumericIdentifier(patch)
    requires s == major + "." + minor + "." + patch
    ensures Parse(s) == Ok(Version([major, minor, patch], [], None))
  {
    var c := Captures(major, minor, patch, Tail("", None, None));
    SpellingIs(c, s, "");
    ParseOfGroups(c);
  }

  /** `pre` is a pre-release made of `pieces` joined by one separator. */
  predicate Tagging(pre: string, pieces: seq<string>, joiner: char) {
    && IsPrerelease(pre) && pre == Join(pieces, joiner)
    && joiner in Separators && |pieces| > 0 && forall u | u in pieces :: NoneIn(u, Separators)
  }

  /** Identifiers joined by `joiner` that form a pre-release once joined by dots. */
  lemma {:induction false} Tagged(pre: string, pieces: seq<string>, joiner: char, ids: seq<string>)
    requires |ids| > 0 && (forall u | u in ids :: IsIdentifier(u, true)) && pre == Join(ids, '.')
    requires joiner in Separators && |pieces| > 0 && forall u | u in pieces :: NoneIn(u, Separators)
    requires pre == Join(pieces, joiner)
    ensures Tagging(pre, pieces, joiner)
  {
    Dotted(ids, pre, true);
  }

  /**
   * `major.minor.patch`, then `-`, `+` or (before a letter) nothing, then the
   * pre-release `pre` made of `pieces` joined by one separator, then optional
   * build metadata: the suffix is `pieces`.
   */
  lemma {:induction false} ParseTagged(s: string, major: string, minor: string, patch: string, sep: string,
                                       pre: string, pieces: seq<string>, joiner: char, build: Option<string>)
    requires IsNumericIdentifier(major) && IsNumericIdentifier(minor) && IsNumericIdentifier(patch)
    requires Tagging(pre, pieces, joiner) && (build.Some? ==> IsBuild(build.value))
    requires sep == "-" || sep == "+" || (sep == "" && |pre| > 0 && IsLetter(pre[0]))
    requires s == major + "." + minor + "." + patch + sep + pre + BuildSpelling(build)
    ensures Parse(s) == Ok(Version([major, minor, patch], pieces, build))
  {
    var c := Captures(major, minor, patch, Tail(sep, Some(pre), build));
    SpellingIs(c, s, sep + pre + BuildSpelling(build));
    ParseTaggedGroups(c, pieces, joiner);
  }

  /** `ParseTagged` for the groups the text spells. */
  lemma {:induction false} ParseTaggedGroups(c: Captures, pieces: seq<string>, joiner: char)
    requires CoreWellFormed(c) && c.tail.prerelease.Some?
    requires var t := c.tail; var pre := t.prerelease.value;
      && IsPrerelease(pre) && (t.buildmetadata.Some? ==> IsBuild(t.buildmetadata.value))
      && (t.sep == "-" || t.sep == "+" || (t.sep == "" && |pre| > 0 && IsLetter(pre[0])))
    requires joiner in Separators && |pieces| > 0 && forall u | u in pieces :: NoneIn(u, Separators)
    requires c.tail.prerelease.value == Join(pieces, joiner)
    ensures Parse(Spelling(c)) == Ok(Version([c.major, c.minor, c.patch], pieces, c.tail.buildmetadata))
  {
    var t := c.tail;
    TaggedTail(t.sep, t.prerelease.value, t.buildmetadata);
    ParseOfGroups(c);
    SuffixOfJoin(t.prerelease.value, pieces, joiner);
  }

  /** The tail of `ParseTagged` obeys the pattern and leaves the matcher no earlier choice. */
  lemma {:induction false} TaggedTail(sep: string, pre: string, build: Option<string>)
    requires IsPrerelease(pre) && (build.Some? ==> IsBuild(build.value))
    requires sep == "-" || sep == "+" || (sep == "" && |pre| > 0 && IsLetter(pre[0]))
    ensures TailWellFormed(Tail(sep, Some(pre), build)) && Unambiguous(Tail(sep, Some(pre), build))
  {
    DottedNotEmpty(pre, true);
  }

  /** Pieces joined by one separator split back into those pieces. */
  lemma {:induction false} SuffixOfJoin(pre: string, pieces: seq<string>, joiner: char)
    requires joiner in Separators && |pieces| > 0 && forall u | u in pieces :: NoneIn(u, Separators)
    requires pre == Join(pieces, joiner) && pre != ""
    ensures SuffixOf(Some(pre)) == pieces
  {
    SplitJoin(pieces, joiner, Separators);
  }

  /** Identifiers joined by dots form a pre-release (`strict`) or build metadata. */
  lemma {:induction false} Dotted(ids: seq<string>, t: string, strict: bool)
    requires |ids| > 0 && (forall u | u in ids :: IsIdentifier(u, strict)) && t == Join(ids, '.')
    ensures IsDottedFrom(t, 0, strict)
  {
    DottedOfIdentifiers(ids, strict);
  }

  // ---------------------------------------------------------------------------
  // The driver's expectations
  // ---------------------------------------------------------------------------

  /** What the driver asserts of a pair: `left < right`, `right > left` and `right != left`. */
  predicate DriverPasses(left: string, right: string) {
    && Parse(left).Ok? && Parse(right).Ok?
    && var a := Parse(left).value;
       var b := Parse(right).value;
       Lt(a, Ver(b)) == Ok(true) && Gt(b, Ver(a)) == Ok(true) && Ne(b, Ver(a)) == Ok(true)
  }

  /** The driver's three assertions hold for a pair whose left version precedes the right one. */
  lemma {:induction false} Passes(left: string, right: string, a: Version, b: Version)
    requires Parse(left) == Ok(a) && Parse(right) == Ok(b) && Less(a, b)
    ensures DriverPasses(left, right)
  {
    LessAsymmetric(a, b);
    SameNotLess(a, b);
    DerivedComparisons(b, a);
  }

  /** The cores differ first at field `i`, where the left one is the lesser string. */
  lemma {:induction false} CoreLessAt(a: Version, b: Version, i: nat)
    requires i < |a.core| && i < |b.core| && a.core[..i] == b.core[..i]
    requires a.core[i] != b.core[i] && StrLess(a.core[i], b.core[i])
    ensures Less(a, b)
  {
    LexLessAt(a.core, b.core, StrLess, i);
  }

  /** A string whose first character is the lesser one is the lesser string. */
  lemma {:induction false} FirstCharLess(x: string, y: string)
    requires |x| > 0 && |y| > 0 && x[0] < y[0]
    ensures StrLess(x, y)
  {
    LexLessAt(x, y, CharLess, 0);
  }

  // ---------------------------------------------------------------------------
  // The versions of the concrete texts
  // ---------------------------------------------------------------------------

  lemma {:induction false} TagAlpha()
    ensures Tagging("alpha", ["alpha"], '.')
  {
    Tagged("alpha", ["alpha"], '.', ["alpha"]);
  }

  lemma {:induction false} TagAlpha1()
    ensures Tagging("alpha.1", ["alpha", "1"], '.')
  {
    Tagged("alpha.1", ["alpha", "1"], '.', ["alpha", "1"]);
  }

  lemma {:induction false} TagAlphaBeta()
    ensures Tagging("alpha.beta", ["alpha", "beta"], '.')
  {
    Tagged("alpha.beta", ["alpha", "beta"], '.', ["alpha", "beta"]);
  }

  lemma {:induction false} TagBeta()
    ensures Tagging("beta", ["beta"], '.')
  {
    Tagged("beta", ["beta"], '.', ["beta"]);
  }

  lemma {:induction false} TagBeta2()
    ensures Tagging("beta.2", ["beta", "2"], '.')
  {
    Tagged("beta.2", ["beta", "2"], '.', ["beta", "2"]);
  }

  lemma {:induction false} TagBeta11()
    ensures Tagging("beta.11", ["beta", "11"], '.')
  {
    Tagged("beta.11", ["beta", "11"], '.', ["beta", "11"]);
  }

  lemma {:induction false} TagRc1()
    ensures Tagging("rc.1", ["rc", "1"], '.')
  {
    Tagged("rc.1", ["rc", "1"], '.', ["rc", "1"]);
  }

  lemma {:induction false} TagB()
    ensures Tagging("b", ["b"], '.')
  {
    Tagged("b", ["b"], '.', ["b"]);
  }

  lemma {:induction false} TagAYyDashed()
    ensures Tagging("a-yy", ["a", "yy"], '-')
  {
    Tagged("a-yy", ["a", "yy"], '-', ["a-yy"]);
  }

  lemma {:induction false} TagARcDashed()
    ensures Tagging("a-rc", ["a", "rc"], '-')
  {
    Tagged("a-rc", ["a", "rc"], '-', ["a-rc"]);
  }

  lemma {:induction false} TagA()
    ensures Tagging("a", ["a"], '.')
  {
    Tagged("a", ["a"], '.', ["a"]);
  }

  lemma {:induction false} TagBuild1()
    ensures Tagging("build1", ["build1"], '.')
  {
    Tagged("build1", ["build1"], '.', ["build1"]);
  }

  lemma {:induction false} Tag2()
    ensures Tagging("2", ["2"], '.')
  {
    Tagged("2", ["2"], '.', ["2"]);
  }

  lemma {:induction false} Tag10()
    ensures Tagging("10", ["10"], '.')
  {
    Tagged("10", ["10"], '.', ["10"]);
  }

  lemma {:induction false} Tag1a()
    ensures Tagging("1a", ["1a"], '.')
  {
    Tagged("1a", ["1a"], '.', ["1a"]);
  }

  lemma {:induction false} TagA01Dashed()
    ensures Tagging("a-01", ["a", "01"], '-')
  {
    Tagged("a-01", ["a", "01"], '-', ["a-01"]);
  }

  lemma {:induction false} TagA1()
    ensures Tagging("a.1", ["a", "1"], '.')
  {
    Tagged("a.1", ["a", "1"], '.', ["a", "1"]);
  }

  lemma {:induction false} Parses100()
    ensures Parse("1.0.0") == Ok(Version(["1", "0", "0"], [], None))
  {
    ParseRelease("1.0.0", "1", "0", "0");
  }

  lemma {:induction false} Parses200()
    ensures Parse("2.0.0") == Ok(Version(["2", "0", "0"], [], None))
  {
    ParseRelease("2.0.0", "2", "0", "0");
  }

  lemma {:induction false} Parses1420()
    ensures Parse("1.42.0") == Ok(Version(["1", "42", "0"], [], None))
  {
    ParseRelease("1.42.0", "1", "42", "0");
  }

  lemma {:induction false} Parses120()
    ensures Parse("1.2.0") == Ok(Version(["1", "2", "0"], [], None))
  {
    ParseRelease("1.2.0", "1", "2", "0");
  }

  lemma {:induction false} Parses1242()
    ensures Parse("1.2.42") == Ok(Version(["1", "2", "42"], [], None))
  {
    ParseRelease("1.2.42", "1", "2", "42");
  }

  lemma {:induction false} Parses1100()
    ensures Parse("1.10.0") == Ok(Version(["1", "10", "0"], [], None))
  {
    ParseRelease("1.10.0", "1", "10", "0");
  }

  lemma {:induction false} Parses190()
    ensures Parse("1.9.0") == Ok(Version(["1", "9", "0"], [], None))
  {
    ParseRelease("1.9.0", "1", "9", "0");
  }

  lemma {:induction false} ParsesMinorAlpha()
    ensures Parse("1.1.0-alpha") == Ok(Version(["1", "1", "0"], ["alpha"], None))
  {
    TagAlpha();
    ParseTagged("1.1.0-alpha", "1", "1", "0", "-", "alpha", ["alpha"], '.', None);
  }

  lemma {:induction false} ParsesAlpha()
    ensures Parse("1.0.0-alpha") == Ok(Version(["1", "0", "0"], ["alpha"], None))
  {
    TagAlpha();
    ParseTagged("1.0.0-alpha", "1", "0", "0", "-", "alpha", ["alpha"], '.', None);
  }

  lemma {:induction false} ParsesMinorAlpha1()
    ensures Parse("1.2.0-alpha.1") == Ok(Version(["1", "2", "0"], ["alpha", "1"], None))
  {
    TagAlpha1();
    ParseTagged("1.2.0-alpha.1", "1", "2", "0", "-", "alpha.1", ["alpha", "1"], '.', None);
  }

  lemma {:induction false} ParsesAlpha1()
    ensures Parse("1.0.0-alpha.1") == Ok(Version(["1", "0", "0"], ["alpha", "1"], None))
  {
    TagAlpha1();
    ParseTagged("1.0.0-alpha.1", "1", "0", "0", "-", "alpha.1", ["alpha", "1"], '.', None);
  }

  lemma {:induction false} ParsesPatchAlphaBeta()
    ensures Parse("1.0.10-alpha.beta") == Ok(Version(["1", "0", "10"], ["alpha", "beta"], None))
  {
    TagAlphaBeta();
    ParseTagged("1.0.10-alpha.beta", "1", "0", "10", "-", "alpha.beta", ["alpha", "beta"], '.', None);
  }

  lemma {:induction false} ParsesAlphaBeta()
    ensures Parse("1.0.0-alpha.beta") == Ok(Version(["1", "0", "0"], ["alpha", "beta"], None))
  {
    TagAlphaBeta();
    ParseTagged("1.0.0-alpha.beta", "1", "0", "0", "-", "alpha.beta", ["alpha", "beta"], '.', None);
  }

  lemma {:induction false} ParsesBeta()
    ensures Parse("1.0.0-beta") == Ok(Version(["1", "0", "0"], ["beta"], None))
  {
    TagBeta();
    ParseTagged("1.0.0-beta", "1", "0", "0", "-", "beta", ["beta"], '.', None);
  }

  lemma {:induction false} ParsesBeta2()
    ensures Parse("1.0.0-beta.2") == Ok(Version(["1", "0", "0"], ["beta", "2"], None))
  {
    TagBeta2();
    ParseTagged("1.0.0-beta.2", "1", "0", "0", "-", "beta.2", ["beta", "2"], '.', None);
  }

  lemma {:induction false} ParsesBeta11()
    ensures Parse("1.0.0-beta.11") == Ok(Version(["1", "0", "0"], ["beta", "11"], None))
  {
    TagBeta11();
    ParseTagged("1.0.0-beta.11", "1", "0", "0", "-", "beta.11", ["beta", "11"], '.', None);
  }

  lemma {:induction false} ParsesRc1()
    ensures Parse("1.0.0-rc.1") == Ok(Version(["1", "0", "0"], ["rc", "1"], None))
  {
    TagRc1();
    ParseTagged("1.0.0-rc.1", "1", "0", "0", "-", "rc.1", ["rc", "1"], '.', None);
  }

  lemma {:induction false} ParsesPatchB()
    ensures Parse("1.0.1b") == Ok(Version(["1", "0", "1"], ["b"], None))
  {
    TagB();
    ParseTagged("1.0.1b", "1", "0", "1", "", "b", ["b"], '.', None);
  }

  lemma {:induction false} ParsesAYy()
    ensures Parse("2.0.0a-yy") == Ok(Version(["2", "0", "0"], ["a", "yy"], None))
  {
    TagAYyDashed();
    ParseTagged("2.0.0a-yy", "2", "0", "0", "", "a-yy", ["a", "yy"], '-', None);
  }

  lemma {:induction false} ParsesARc()
    ensures Parse("2.0.0a-rc") == Ok(Version(["2", "0", "0"], ["a", "rc"], None))
  {
    TagARcDashed();
    ParseTagged("2.0.0a-rc", "2", "0", "0", "", "a-rc", ["a", "rc"], '-', None);
  }

  lemma {:induction false} ParsesBuild1()
    ensures Parse("1.0.0-a+b1") == Ok(Version(["1", "0", "0"], ["a"], Some("b1")))
  {
    TagA();
    Dotted(["b1"], "b1", false);
    ParseTagged("1.0.0-a+b1", "1", "0", "0", "-", "a", ["a"], '.', Some("b1"));
  }

  lemma {:induction false} ParsesBuild2()
    ensures Parse("1.0.0-a+b2") == Ok(Version(["1", "0", "0"], ["a"], Some("b2")))
  {
    TagA();
    Dotted(["b2"], "b2", false);
    ParseTagged("1.0.0-a+b2", "1", "0", "0", "-", "a", ["a"], '.', Some("b2"));
  }

  lemma {:induction false} ParsesPlus()
    ensures Parse("1.0.0+build1") == Ok(Version(["1", "0", "0"], ["build1"], None))
  {
    TagBuild1();
    ParseTagged("1.0.0+build1", "1", "0", "0", "+", "build1", ["build1"], '.', None);
  }

  lemma {:induction false} Parses2()
    ensures Parse("1.0.0-2") == Ok(Version(["1", "0", "0"], ["2"], None))
  {
    Tag2();
    ParseTagged("1.0.0-2", "1", "0", "0", "-", "2", ["2"], '.', None);
  }

  lemma {:induction false} Parses10()
    ensures Parse("1.0.0-10") == Ok(Version(["1", "0", "0"], ["10"], None))
  {
    Tag10();
    ParseTagged("1.0.0-10", "1", "0", "0", "-", "10", ["10"], '.', None);
  }

  lemma {:induction false} Parses1a()
    ensures Parse("1.0.0-1a") == Ok(Version(["1", "0", "0"], ["1a"], None))
  {
    Tag1a();
    ParseTagged("1.0.0-1a", "1", "0", "0", "-", "1a", ["1a"], '.', None);
  }

  lemma {:induction false} ParsesDashedZero()
    ensures Parse("1.0.0-a-01") == Ok(Version(["1", "0", "0"], ["a", "01"], None))
  {
    TagA01Dashed();
    ParseTagged("1.0.0-a-01", "1", "0", "0", "-", "a-01", ["a", "01"], '-', None);
  }

  lemma {:induction false} ParsesDottedOne()
    ensures Parse("1.0.0-a.1") == Ok(Version(["1", "0", "0"], ["a", "1"], None))
  {
    TagA1();
    ParseTagged("1.0.0-a.1", "1", "0", "0", "-", "a.1", ["a", "1"], '.', None);
  }

  // ---------------------------------------------------------------------------
  // The pairs of test.py
  // ---------------------------------------------------------------------------

  lemma {:induction false} MajorDecides()
    ensures DriverPasses("1.0.0", "2.0.0")
  {
    var a := Version(["1", "0", "0"], [], None);
    var b := Version(["2", "0", "0"], [], None);
    Parses100();
    Parses200();
    FirstCharLess("1", "2");
    CoreLessAt(a, b, 0);
    Passes("1.0.0", "2.0.0", a, b);
  }

  lemma {:induction false} MinorDecides()
    ensures DriverPasses("1.0.0", "1.42.0")
  {
    var a := Version(["1", "0", "0"], [], None);
    var b := Version(["1", "42", "0"], [], None);
    Parses100();
    Parses1420();
    FirstCharLess("0", "42");
    CoreLessAt(a, b, 1);
    Passes("1.0.0", "1.42.0", a, b);
  }

  lemma {:induction false} PatchDecides()
    ensures DriverPasses("1.2.0", "1.2.42")
  {
    var a := Version(["1", "2", "0"], [], None);
    var b := Version(["1", "2", "42"], [], None);
    Parses120();
    Parses1242();
    FirstCharLess("0", "42");
    CoreLessAt(a, b, 2);
    Passes("1.2.0", "1.2.42", a, b);
  }

  lemma {:induction false} CoreBeforeSuffix()
    ensures DriverPasses("1.1.0-alpha", "1.2.0-alpha.1")
  {
    var a := Version(["1", "1", "0"], ["alpha"], None);
    var b := Version(["1", "2", "0"], ["alpha", "1"], None);
    ParsesMinorAlpha();
    ParsesMinorAlpha1();
    FirstCharLess("1", "2");
    CoreLessAt(a, b, 1);
    Passes("1.1.0-alpha", "1.2.0-alpha.1", a, b);
  }

  /** `1.0.1b` has the pre-release `b` with no separator; its patch `1` is a prefix of `10`. */
  lemma {:induction false} PatchPrefixDecides()
    ensures DriverPasses("1.0.1b", "1.0.10-alpha.beta")
  {
    var a := Version(["1", "0", "1"], ["b"], None);
    var b := Version(["1", "0", "10"], ["alpha", "beta"], None);
    ParsesPatchB();
    ParsesPatchAlphaBeta();
    LexLessPrefix("1", "10", CharLess);
    CoreLessAt(a, b, 2);
    Passes("1.0.1b", "1.0.10-alpha.beta", a, b);
  }

  lemma {:induction false} CandidateBeforeRelease()
    ensures DriverPasses("1.0.0-rc.1", "1.0.0")
  {
    var a := Version(["1", "0", "0"], ["rc", "1"], None);
    var b := Version(["1", "0", "0"], [], None);
    ParsesRc1();
    Parses100();
    PrereleaseFirst(a, b);
    Passes("1.0.0-rc.1", "1.0.0", a, b);
  }

  /**
   * The special case of the driver fails: `2.0.0a-yy` and `2.0.0a-rc` have
   * the suffixes `["a", "yy"]` and `["a", "rc"]`, which compare as strings at
   * their second entry, so the order is the reverse of the one expected.
   */
  lemma {:induction false} SpecialCaseReversed()
    ensures !DriverPasses("2.0.0a-yy", "2.0.0a-rc") && DriverPasses("2.0.0a-rc", "2.0.0a-yy")
  {
    var a := Version(["2", "0", "0"], ["a", "yy"], None);
    var b := Version(["2", "0", "0"], ["a", "rc"], None);
    ParsesAYy();
    ParsesARc();
    FirstCharLess("rc", "yy");
    SuffixTextAt(b.suffix, a.suffix, 1);
    Passes("2.0.0a-rc", "2.0.0a-yy", b, a);
    LessAsymmetric(b, a);
  }

  lemma {:induction false} LongerPrereleaseFollows()
    ensures DriverPasses("1.0.0-alpha", "1.0.0-alpha.1")
  {
    var a := Version(["1", "0", "0"], ["alpha"], None);
    var b := Version(["1", "0", "0"], ["alpha", "1"], None);
    ParsesAlpha();
    ParsesAlpha1();
    SuffixPrefix(a.suffix, b.suffix);
    Passes("1.0.0-alpha", "1.0.0-alpha.1", a, b);
  }

  lemma {:induction false} NumericBeforeText()
    ensures DriverPasses("1.0.0-alpha.1", "1.0.0-alpha.beta")
  {
    var a := Version(["1", "0", "0"], ["alpha", "1"], None);
    var b := Version(["1", "0", "0"], ["alpha", "beta"], None);
    ParsesAlpha1();
    ParsesAlphaBeta();
    FirstCharLess("1", "beta");
    SuffixTextAt(a.suffix, b.suffix, 1);
    Passes("1.0.0-alpha.1", "1.0.0-alpha.beta", a, b);
  }

  lemma {:induction false} TextOrder()
    ensures DriverPasses("1.0.0-alpha.beta", "1.0.0-beta")
  {
    var a := Version(["1", "0", "0"], ["alpha", "beta"], None);
    var b := Version(["1", "0", "0"], ["beta"], None);
    ParsesAlphaBeta();
    ParsesBeta();
    FirstCharLess("alpha", "beta");
    SuffixTextAt(a.suffix, b.suffix, 0);
    Passes("1.0.0-alpha.beta", "1.0.0-beta", a, b);
  }

  lemma {:induction false} LongerBetaFollows()
    ensures DriverPasses("1.0.0-beta", "1.0.0-beta.2")
  {
    var a := Version(["1", "0", "0"], ["beta"], None);
    var b := Version(["1", "0", "0"], ["beta", "2"], None);
    ParsesBeta();
    ParsesBeta2();
    SuffixPrefix(a.suffix, b.suffix);
    Passes("1.0.0-beta", "1.0.0-beta.2", a, b);
  }

  lemma {:induction false} NumericOrder()
    ensures DriverPasses("1.0.0-beta.2", "1.0.0-beta.11")
  {
    var a := Version(["1", "0", "0"], ["beta", "2"], None);
    var b := Version(["1", "0", "0"], ["beta", "11"], None);
    ParsesBeta2();
    ParsesBeta11();
    Values();
    SuffixNumericAt(a.suffix, b.suffix, 1);
    Passes("1.0.0-beta.2", "1.0.0-beta.11", a, b);
  }

  lemma {:induction false} BetaBeforeCandidate()
    ensures DriverPasses("1.0.0-beta.11", "1.0.0-rc.1")
  {
    var a := Version(["1", "0", "0"], ["beta", "11"], None);
    var b := Version(["1", "0", "0"], ["rc", "1"], None);
    ParsesBeta11();
    ParsesRc1();
    FirstCharLess("beta", "rc");
    SuffixTextAt(a.suffix, b.suffix, 0);
    Passes("1.0.0-beta.11", "1.0.0-rc.1", a, b);
  }

  // ---------------------------------------------------------------------------
  // Departures from Semantic Versioning
  // ---------------------------------------------------------------------------

  /** The core fields compare as strings: `1.10.0` precedes `1.9.0`. */
  lemma {:induction false} CoreComparesAsText()
    ensures DriverPasses("1.10.0", "1.9.0")
  {
    var a := Version(["1", "10", "0"], [], None);
    var b := Version(["1", "9", "0"], [], None);
    Parses1100();
    Parses190();
    FirstCharLess("10", "9");
    CoreLessAt(a, b, 1);
    Passes("1.10.0", "1.9.0", a, b);
  }

  /** Versions that differ only in build metadata are equal, and neither precedes the other. */
  lemma {:induction false} BuildMetadataIgnored()
    ensures Parse("1.0.0-a+b1").Ok? && Parse("1.0.0-a+b2").Ok? && Parse("1.0.0-a+b1") != Parse("1.0.0-a+b2")
      && var a := Parse("1.0.0-a+b1").value; var b := Parse("1.0.0-a+b2").value;
         Eq(a, Ver(b)) == Ok(true) && Lt(a, Ver(b)) == Ok(false) && Lt(b, Ver(a)) == Ok(false)
  {
    var a := Version(["1", "0", "0"], ["a"], Some("b1"));
    var b := Version(["1", "0", "0"], ["a"], Some("b2"));
    ParsesBuild1();
    ParsesBuild2();
    SameNotLess(a, b);
  }

  /**
   * A `+` right after the patch opens a pre-release rather than build
   * metadata, so `1.0.0+build1` precedes the release `1.0.0`.
   */
  lemma {:induction false} PlusOpensPrerelease()
    ensures DriverPasses("1.0.0+build1", "1.0.0")
  {
    var a := Version(["1", "0", "0"], ["build1"], None);
    var b := Version(["1", "0", "0"], [], None);
    ParsesPlus();
    Parses100();
    PrereleaseFirst(a, b);
    Passes("1.0.0+build1", "1.0.0", a, b);
  }

  lemma {:induction false} NumericSuffixOrder()
    ensures DriverPasses("1.0.0-2", "1.0.0-10")
  {
    var a := Version(["1", "0", "0"], ["2"], None);
    var b := Version(["1", "0", "0"], ["10"], None);
    Parses2();
    Parses10();
    Values();
    SuffixNumericAt(a.suffix, b.suffix, 0);
    Passes("1.0.0-2", "1.0.0-10", a, b);
  }

  /** `10` and `1a` are not both numeric, so they compare as strings. */
  lemma {:induction false} MixedSuffixOrder()
    ensures DriverPasses("1.0.0-10", "1.0.0-1a")
  {
    var a := Version(["1", "0", "0"], ["10"], None);
    var b := Version(["1", "0", "0"], ["1a"], None);
    Parses10();
    Parses1a();
    LexLessAt("10", "1a", CharLess, 1);
    SuffixTextAt(a.suffix, b.suffix, 0);
    Passes("1.0.0-10", "1.0.0-1a", a, b);
  }

  lemma {:induction false} TextSuffixOrder()
    ensures DriverPasses("1.0.0-1a", "1.0.0-2")
  {
    var a := Version(["1", "0", "0"], ["1a"], None);
    var b := Version(["1", "0", "0"], ["2"], None);
    Parses1a();
    Parses2();
    FirstCharLess("1a", "2");
    SuffixTextAt(a.suffix, b.suffix, 0);
    Passes("1.0.0-1a", "1.0.0-2", a, b);
  }

  /**
   * `a-01` and `a.1` give the suffixes `["a", "01"]` and `["a", "1"]`, whose
   * second entries are the same integer: neither version precedes the other, yet
   * they are not equal, so each is greater than the other.
   */
  lemma {:induction false} EachGreaterThanTheOther()
    ensures Parse("1.0.0-a-01").Ok? && Parse("1.0.0-a.1").Ok?
      && var a := Parse("1.0.0-a-01").value; var b := Parse("1.0.0-a.1").value;
         Gt(a, Ver(b)) == Ok(true) && Gt(b, Ver(a)) == Ok(true) && Eq(a, Ver(b)) == Ok(false)
  {
    var a := Version(["1", "0", "0"], ["a", "01"], None);
    var b := Version(["1", "0", "0"], ["a", "1"], None);
    ParsesDashedZero();
    ParsesDottedOne();
    Values();
    assert Comparing(a.suffix, b.suffix) == Comparing(b.suffix, a.suffix);
    GreaterBothWays(a, b);
  }

  lemma {:induction false} ParsesDashedZeroB()
    ensures Parse("1.0.0-a-01-b") == Ok(Version(["1", "0", "0"], ["a", "01", "b"], None))
  {
    Tagged("a-01-b", ["a", "01", "b"], '-', ["a-01-b"]);
    ParseTagged("1.0.0-a-01-b", "1", "0", "0", "-", "a-01-b", ["a", "01", "b"], '-', None);
  }

  lemma {:induction false} ParsesDottedOneC()
    ensures Parse("1.0.0-a.1.c") == Ok(Version(["1", "0", "0"], ["a", "1", "c"], None))
  {
    Tagged("a.1.c", ["a", "1", "c"], '.', ["a", "1", "c"]);
    ParseTagged("1.0.0-a.1.c", "1", "0", "0", "-", "a.1.c", ["a", "1", "c"], '.', None);
  }

  /** `01` and `1` compare equal as integers, so the third entries decide. */
  lemma {:induction false} EqualNumeralsSuffixOrder()
    ensures SuffixLess(["a", "01", "b"], ["a", "1", "c"])
  {
    Values();
    FirstCharLess("b", "c");
    SuffixTextAt(["a", "01", "b"], ["a", "1", "c"], 2);
  }

  /**
   * `a-01-b` and `a.1.c` give `["a", "01", "b"]` and `["a", "1", "c"]`: the
   * entries `01` and `1` compare equal as integers, so the third entries decide.
   */
  lemma {:induction false} EqualNumeralsPassOn()
    ensures DriverPasses("1.0.0-a-01-b", "1.0.0-a.1.c")
  {
    var a := Version(["1", "0", "0"], ["a", "01", "b"], None);
    var b := Version(["1", "0", "0"], ["a", "1", "c"], None);
    ParsesDashedZeroB();
    ParsesDottedOneC();
    EqualNumeralsSuffixOrder();
    Passes("1.0.0-a-01-b", "1.0.0-a.1.c", a, b);
  }

  lemma {:induction false} ParsesDashed2()
    ensures Parse("1.0.0-a-2") == Ok(Version(["1", "0", "0"], ["a", "2"], None))
  {
    Tagged("a-2", ["a", "2"], '-', ["a-2"]);
    ParseTagged("1.0.0-a-2", "1", "0", "0", "-", "a-2", ["a", "2"], '-', None);
  }

  lemma {:induction false} ParsesDashed10()
    ensures Parse("1.0.0-a-10") == Ok(Version(["1", "0", "0"], ["a", "10"], None))
  {
    Tagged("a-10", ["a", "10"], '-', ["a-10"]);
    ParseTagged("1.0.0-a-10", "1", "0", "0", "-", "a-10", ["a", "10"], '-', None);
  }

  /**
   * The pre-release is split at `-` too, so `a-2` and `a-10` compare entry by
   * entry and `2 < 10` decides, while as whole identifiers `a-10` comes first.
   */
  lemma {:induction false} DashSplitsIdentifiers()
    ensures DriverPasses("1.0.0-a-2", "1.0.0-a-10") && StrLess("a-10", "a-2")
  {
    var a := Version(["1", "0", "0"], ["a", "2"], None);
    var b := Version(["1", "0", "0"], ["a", "10"], None);
    ParsesDashed2();
    ParsesDashed10();
    Values();
    SuffixNumericAt(a.suffix, b.suffix, 1);
    Passes("1.0.0-a-2", "1.0.0-a-10", a, b);
    WholeIdentifierOrder();
  }

  lemma {:induction false} WholeIdentifierOrder()
    ensures StrLess("a-10", "a-2")
  {
    assert "a-10"[..2] == "a-2"[..2];
    LexLessAt("a-10", "a-2", CharLess, 2);
  }

  /** The values of the numerals in the examples. */
  lemma {:induction false} Values()
    ensures ValueOf("1") == ValueOf("01") == 1 && ValueOf("2") == 2 && ValueOf("10") == 10 && ValueOf("11") == 11
  {
    assert ValueOfPrefix("01", 1) == 0 && ValueOfPrefix("10", 1) == 1 && ValueOfPrefix("11", 1) == 1;
  }

  /** `<` is not transitive on suffixes that mix numerals and text: `2 < 10 < 1a < 2`. */
  lemma {:induction false} PrecedenceCycle()
    ensures DriverPasses("1.0.0-2", "1.0.0-10") && DriverPasses("1.0.0-10", "1.0.0-1a")
    ensures DriverPasses("1.0.0-1a", "1.0.0-2")
  {
    NumericSuffixOrder();
    MixedSuffixOrder();
    TextSuffixOrder();
  }

  // ---------------------------------------------------------------------------
  // str() does not always give back a version
  // ---------------------------------------------------------------------------

  /** Neither `a.01` nor `-a.01` is a pre-release: the identifier `01` has a leading zero. */
  lemma {:induction false} NotPrereleases()
    ensures !IsPrerelease("a.01") && !IsPrerelease("-a.01")
  {
    assert Join(["a", "01"], '.') == "a.01" && Join(["-a", "01"], '.') == "-a.01";
    SplitJoin(["a", "01"], '.', {'.'});
    SplitJoin(["-a", "01"], '.', {'.'});
    DottedMeaning("a.01", true);
    DottedMeaning("-a.01", true);
    assert !IsIdentifier("01", true);
  }

  /** No tail the pattern allows is spelled `-a.01`. */
  lemma {:induction false} NoTailSpells(t: Tail)
    requires TailWellFormed(t)
    ensures TailSpelling(t) != "-a.01"
  {
    NotPrereleases();
    assert NoneIn("-a.01", {'+'});
    if t.prerelease.Some? && t.buildmetadata.Some? {
      assert TailSpelling(t)[|t.sep + t.prerelease.value|] == '+';
    } else if t.prerelease.Some? && t.sep == "-" {
      var p := t.prerelease.value;
      assert p != "a.01";
      assert TailSpelling(t) == "-" + p && ("-" + p)[1..] == p;
    } else if t.prerelease.Some? {
      assert t.prerelease.value != "-a.01";
      assert t.sep == "" || TailSpelling(t)[0] == '+';
    } else {
      assert TailSpelling(t) == BuildSpelling(t.buildmetadata);
    }
  }

  /** A match of `1.0.0-a.01` has the tail `-a.01`: the patch `0` is followed by `-`. */
  lemma {:induction false} DashTail(c: Captures)
    requires WellFormed(c)
    ensures Spelling(c) == "1.0.0-a.01" ==> TailSpelling(c.tail) == "-a.01"
  {
    var d := Captures("1", "0", "0", Tail("-a.01", None, None));
    if Spelling(c) == "1.0.0-a.01" {
      TailAfterShortPatch(c, d);
    }
  }

  /** `str()` joins a suffix split at `-` back with dots: `1.0.0-a-01` is written `1.0.0-a.01`. */
  lemma {:induction false} RenderDashedZero()
    ensures Parse("1.0.0-a-01") == Ok(Version(["1", "0", "0"], ["a", "01"], None))
    ensures Render(Version(["1", "0", "0"], ["a", "01"], None)) == "1.0.0-a.01"
  {
    ParsesDashedZero();
    RenderOfDashedZero();
  }

  lemma {:induction false} RenderOfDashedZero()
    ensures Render(Version(["1", "0", "0"], ["a", "01"], None)) == "1.0.0-a.01"
  {
    JoinCore("1", "0", "0");
    assert Join(["a", "01"], '.') == "a.01";
  }

  /** The constructor rejects `1.0.0-a.01`, so `str()` of `1.0.0-a-01` is not a version. */
  lemma {:induction false} RejectsDottedZero()
    ensures Parse("1.0.0-a.01") == Err(InvalidVersion("1.0.0-a.01"))
  {
    forall c | WellFormed(c)
      ensures Spelling(c) != "1.0.0-a.01"
    {
      DashTail(c);
      NoTailSpells(c.tail);
    }
    ParseAccepts("1.0.0-a.01");
  }

  // ---------------------------------------------------------------------------
  // The matcher backtracks into the patch
  // ---------------------------------------------------------------------------

  /**
   * After the patch `12` nothing can read `.x`, so the matcher shortens the
   * patch to `1` and reads `2.x` as a pre-release with no separator.
   */
  lemma {:induction false} PatchGivesBack()
    ensures Parse("1.0.12.x") == Ok(Version(["1", "0", "1"], ["2", "x"], None))
  {
    var c := Captures("1", "0", "1", Tail("", Some("2.x"), None));
    PatchGivesBackCaptures();
    MatchedCorePasses(c);
    SuffixOfJoin("2.x", ["2", "x"], '.');
  }

  /** The groups `Scan` reads from `1.0.12.x`. */
  lemma {:induction false} PatchGivesBackCaptures()
    ensures Scan("1.0.12.x") == Some(Captures("1", "0", "1", Tail("", Some("2.x"), None)))
  {
    var s := "1.0.12.x";
    var c := Captures("1", "0", "1", Tail("", Some("2.x"), None));
    assert DigitRunEnd(s, 0) == 1 && DigitRunEnd(s, 2) == 3 && DigitRunEnd(s, 4) == 6;
    assert s[0..1] == "1" && s[2..3] == "0" && s[4..5] == "1" && s[5..8] == "2.x" && s[6..8] == ".x";
    assert FindFrom(s, 6, {'+'}) == 8 && FindFrom(s, 5, {'+'}) == 8;
    assert !IsPrerelease(".x") && IsPrerelease("2.x");
    assert Alternative(s, 6, 0).None? && Alternative(s, 6, 1).None? && Alternative(s, 6, 2).None?;
    assert Alternative(s, 5, 0).None? && Alternative(s, 5, 1) == Some(c.tail);
    assert ScanPatch(s, "1", "0", 4, 6) == ScanPatch(s, "1", "0", 4, 5) == Some(c);
    assert IsNumericIdentifier(s[0..1]) && IsNumericIdentifier(s[2..3]);
    assert [] + [s[0..1]] == ["1"] && ["1"] + [s[2..3]] == ["1", "0"];
    assert Scan(s) == ScanFields(s, 2, ["1"]) == ScanFields(s, 4, ["1", "0"]);
  }
}
