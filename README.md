# python-magic-semver in Dafny

A model of the two `Version` classes of python-magic-semver, with proofs about them.

- **version_comparator.py** is the current class. It builds a version from a string by matching a
  Semantic-Versioning-style regular expression. It keeps the three core fields as the matched strings
  and splits the pre-release at `+`, `.` and `-` into a `suffix` list. It keeps the build metadata and
  checks the core fields for leading zeros and `int()` failures. It compares versions with `==` and `<`.
  `functools.total_ordering` derives `>`, `<=`, `>=` from those, and `!=` comes from `==`. It writes a
  version back with `str()`.
- **main.py** is the earlier iteration. Its pattern is `^(\d+)\.(\d+)\.(\d+)-?(\S+)?$`. Its
  `_validate_attrs` replaces each core attribute by its `int` in place. Its `<` compares the integer
  core first and then the suffix as one plain string.

Modules:

| file | module | what it holds |
|---|---|---|
| wrappers.dfy | `Wrappers` | `Option` and `Result` |
| text.dfy | `Text` | character classes, digit runs, `int()` of a numeral and `str()` of an `int`, Python's `<` on strings and lists, `re.split` and `str.join` |
| semver_grammar.dfy | `SemVerGrammar` | the pattern of version_comparator.py as a grammar, and a scanner proved to return exactly the match Python's backtracking matcher reports |
| semver.dfy | `SemVer` | construction, comparison and `str()` of version_comparator.py |
| semver_examples.dfy | `SemVerExamples` | every pair of the test driver test.py, and the ways the code departs from Semantic Versioning, on concrete texts |
| early_version.dfy | `EarlyVersion` | the pattern, construction (an object whose attributes are overwritten in place), comparison and `str()` of main.py |
| early_version_examples.dfy | `EarlyVersionExamples` | the pairs of main.py's driver and its edge cases on concrete texts |

Each regular expression has two definitions:

- A declarative one. Groups obey the pattern (`WellFormed`) and spell the input (`Spelling`).
- A deterministic scanner (`Scan`) that tries the alternatives in the order Python's matcher does.

Three lemmas tie them together:

- The scanner is sound.
- It finds a match whenever one exists, and Python's matcher prefers that match to every other (`Prefers`).
- Groups are unique for a given patch length and alternative.

So `Scan` is the match Python reports (`ScanIsPythonsMatch`).

Where the code works step by step, the model does too:

- The check of the core fields in version_comparator.py is a loop, `SemVer.ValidateCore`.
- `_lt_suffix` works on copies of the suffix lists, overwriting entries in place (`SemVer.LtSuffix`, on arrays).
- main.py's `_validate_attrs` is a class `EarlyVersion.Instance` whose fields are overwritten with `setattr`.

Each of these methods is proved equal to a specification function, and the properties are proved about that function.

Both classes raise in `__init__` and in comparisons. The model returns `Result` values in both places. A
comparison against a string first builds a version from it, so it fails with that construction's error.

The docstring of version_comparator.py (line 14) asks for strings that meet Semantic Versioning 2.0.0.
The code departs from that standard's precedence rules (section 11) in the following ways, and the model
follows the code:

- **Core comparison.** The standard compares the core numerically. The code of version_comparator.py
  compares the core as a list of strings (`CoreComparesAsText`: `1.10.0` precedes `1.9.0`).
- **Numeric suffix entries.** The standard treats only digits without a leading zero as a numeric
  identifier. The code compares any all-digit entry as an integer when the entry at the same index is
  numeric too. So `1.0.0-a-01` and `1.0.0-a.1` are each greater than the other
  (`EachGreaterThanTheOther`), and `1.0.0-a-01-b` precedes `1.0.0-a.1.c` (`EqualNumeralsPassOn`).
- **Numeric against non-numeric entries.** The standard puts a numeric identifier before a non-numeric
  one. The code compares such a pair as two strings, so `1.0.0-1a` precedes `1.0.0-2`
  (`TextSuffixOrder`). As a result `<` is not transitive: `1.0.0-2 < 1.0.0-10 < 1.0.0-1a < 1.0.0-2`
  (`PrecedenceCycle`).
- **Splitting at `-`.** The standard separates identifiers only at `.`, and `-` is part of an
  identifier. The code also splits the pre-release at `-` and `+` (version_comparator.py:31). So
  `1.0.0-a-2` precedes `1.0.0-a-10`, while the standard compares `a-2` and `a-10` as whole identifiers
  and puts `a-10` first (`DashSplitsIdentifiers`).
- **`+` after the patch.** The pattern accepts a `+` in place of the `-` that opens a pre-release
  (version_comparator.py:20). So `1.0.0+build1` is a pre-release and precedes `1.0.0`, where the
  standard reads build metadata and gives both the same precedence (`PlusOpensPrerelease`).

The test driver test.py expects `2.0.0a-yy` to precede `2.0.0a-rc` (test.py:12). No rule in the code
gives that order: the suffixes compare as the strings `yy` and `rc`, so `2.0.0a-rc` comes first
(`SpecialCaseReversed`).

## Model

| member | source | states |
|---|---|---|
| SemVerGrammar.Scan | version_comparator.py:17-24 | the definition of `re.search(pattern, version)` reduced to its groups; `ScanSound`, `ScanPreferred`, `CapturesUnique` and `ScanIsPythonsMatch` state what it returns |
| SemVerGrammar.DottedMeaning | version_comparator.py:21-23 | the character-by-character reading of a pre-release or build group accepts exactly the texts whose every dot-separated piece is an identifier of the pattern |
| SemVerGrammar.ScanSound | version_comparator.py:17-24 | whatever the scanner returns are groups the pattern allows, and they spell the whole input |
| SemVerGrammar.ScanPreferred | version_comparator.py:17-24 | whenever some groups the pattern allows spell the input, the scanner finds a match, and Python's matcher prefers it: a patch at least as long, and no later alternative of the optional parts |
| SemVerGrammar.CapturesUnique | version_comparator.py:17-24 | two matches of one text with the same patch length and the same alternative are the same groups |
| SemVerGrammar.ScanIsPythonsMatch | version_comparator.py:17-24 | the scanner returns exactly the match the matcher prefers to all others |
| SemVerGrammar.ScanOfSpelling | version_comparator.py:17-24 | groups that leave the matcher no earlier choice are read back from their own spelling |
| Text.JoinSplit | version_comparator.py:31 | a general fact about `Split`: for a single separator, joining the pieces with it gives back the text (`SplitJoin` is the direction the round trip uses) |
| Text.SplitJoin | version_comparator.py:31 | splitting pieces joined by a separator, none of which holds a separator, gives back the pieces |
| Text.StrLessTotal | version_comparator.py:55-56 | of two different strings, one is less than the other under Python's `<` |
| SemVer.Parse | version_comparator.py:26-32 | the definition of `__init__`: match, split the pre-release, check the core; `ParseAccepts`, `ParseOfMatch`, `ParseOfGroups`, `ParsedFields` and `Construct` state its properties |
| SemVer.Same | version_comparator.py:45-50 | the definition of the tuple comparison inside `__eq__`: equal cores and equal suffix lists, build metadata ignored (`BuildMetadataIgnored`, `SameNotLess`) |
| SemVer.Eq | version_comparator.py:45-50 | the definition of `__eq__`, building a version from a string operand first; `CompareString`, `CompareInvalid` and `DerivedComparisons` state its properties |
| SemVer.Ne | version_comparator.py:45-50 | the definition of `!=`, the negation of `__eq__`; `DerivedComparisons` states it |
| SemVer.Less | version_comparator.py:52-57 | the definition of `__lt__` on two versions: the cores as lists of strings, then `_lt_suffix`; `LessIrreflexive`, `LessAsymmetric`, `CoreOrderTotal`, `CoreOrderOfEqualWidths`, `CoreOrderIsTextual` and `PrereleaseFirst` state its properties |
| SemVer.Lt | version_comparator.py:52-57 | the definition of `__lt__` with a version or string operand; `CompareString`, `CompareInvalid` and `DerivedComparisons` state its properties |
| SemVer.SuffixLess | version_comparator.py:59-78 | the definition of `_lt_suffix`; `LtSuffix` is proved equal to it, and `SuffixNumericAt`, `SuffixTextAt` and `SuffixPrefix` state its order |
| SemVer.Comparing | version_comparator.py:68-77 | the definition of the converted copy `_lt_suffix` compares; `ComparingAgree` states when two copies agree |
| SemVer.Gt | version_comparator.py:6 | the definition of the `>` that `total_ordering` derives; `DerivedComparisons` and `GreaterBothWays` state its properties |
| SemVer.Le | version_comparator.py:6 | the definition of the derived `<=`; `DerivedComparisons` states it |
| SemVer.Ge | version_comparator.py:6 | the definition of the derived `>=`; `DerivedComparisons` states it |
| SemVer.Render | version_comparator.py:80-84 | the definition of `__str__`; `RenderRelease`, `RenderPrerelease` and `RoundTrip` state its properties |
| SemVer.FieldError | version_comparator.py:37-43 | a core field raises nothing exactly when it is a numeral without a leading zero; otherwise it raises the leading-zero or the `int` error |
| SemVer.CoreError | version_comparator.py:34-43 | no error exactly when every field from `i` on passes; otherwise the error of the first field that fails |
| SemVer.ValidateCore | version_comparator.py:34-43 | the loop returns the error `CoreError` specifies, stopping at the first failing field |
| SemVer.MatchedCorePasses | version_comparator.py:17-20 | fields the pattern matched always pass the check |
| SemVer.SuffixOf | version_comparator.py:31 | the suffix list is empty exactly when no pre-release (or an empty one) was matched, and no entry holds a separator |
| SemVer.Construct | version_comparator.py:26-32 | the constructor returns what `Parse` specifies |
| SemVer.ParseAccepts | version_comparator.py:26-32 | a text builds a version exactly when some groups the pattern allows spell it; the only error is the one for a text that does not match |
| SemVer.ParseOfMatch | version_comparator.py:27-31 | the version holds the groups of the match Python reports: the core strings, the split pre-release and the build metadata |
| SemVer.ParseOfGroups | version_comparator.py:27-31 | groups that leave no earlier choice give the version their spelling builds |
| SemVer.ParsedFields | version_comparator.py:30-31 | a built version keeps the three matched core strings, all numerals without a leading zero; its suffix is empty exactly when no pre-release matched; its build metadata is the group's |
| SemVer.LtSuffix | version_comparator.py:59-78 | the in-place conversion of the copied suffix lists computes `SuffixLess` |
| SemVer.LessIrreflexive | version_comparator.py:52-78 | no version precedes itself |
| SemVer.LessAsymmetric | version_comparator.py:52-78 | of two versions at most one precedes the other |
| SemVer.SameNotLess | version_comparator.py:45-78 | equal versions precede neither one the other |
| SemVer.CoreOrderTotal | version_comparator.py:55-56 | cores of one length that differ are ordered one way or the other |
| SemVer.CoreOrderOfEqualWidths | version_comparator.py:55-56 | where the cores first differ, numerals of equal width decide by value |
| SemVer.CoreOrderIsTextual | version_comparator.py:55-56 | where the cores first differ, a field that is a proper prefix of the other comes first, whatever the values |
| SemVer.ComparingAgree | version_comparator.py:68-78 | before an index, the converted suffixes agree exactly when each pair of entries is the same string or two numerals of the same value |
| SemVer.SuffixNumericAt | version_comparator.py:68-78 | at the first entry that does not compare equal (earlier entries equal as strings or as integers), entries numeric on both sides decide by integer value |
| SemVer.SuffixTextAt | version_comparator.py:68-78 | at the first entry that does not compare equal (earlier entries equal as strings or as integers), entries not both numeric decide as strings |
| SemVer.SuffixPrefix | version_comparator.py:68-78 | a suffix whose entries compare equal to the first entries of a longer one precedes it, and not the other way |
| SemVer.PrereleaseFirst | version_comparator.py:61-64 | with equal cores a suffix precedes no suffix, and two releases are equal and unordered |
| SemVer.DerivedComparisons | version_comparator.py:6 | for ordered or equal versions, `>` is the converse of `<`, `>=` and `<=` add equality, and `!=` negates `==` |
| SemVer.GreaterBothWays | version_comparator.py:45-78 | suffixes that differ as text but not once converted leave each version greater than the other |
| SemVer.CompareInvalid | version_comparator.py:45-57 | comparing with a text that is not a version raises the constructor's error, whatever the comparison |
| SemVer.CompareString | version_comparator.py:45-57 | a string operand compares as the version built from it |
| SemVer.RenderRelease | version_comparator.py:80-84 | `str()` of a version without a pre-release spells its match |
| SemVer.RenderPrerelease | version_comparator.py:80-84 | `str()` writes the core, `-`, the suffix joined by dots and `+` with the build metadata |
| SemVer.RoundTrip | version_comparator.py:80-84 | a version whose suffix entries are pre-release identifiers is rebuilt from its `str()` |
| SemVerExamples.MajorDecides | test.py:5 | `1.0.0 < 2.0.0`, `2.0.0 > 1.0.0` and `2.0.0 != 1.0.0` |
| SemVerExamples.MinorDecides | test.py:6 | the driver's three assertions for `1.0.0`, `1.42.0` |
| SemVerExamples.PatchDecides | test.py:7 | the driver's three assertions for `1.2.0`, `1.2.42` |
| SemVerExamples.CoreBeforeSuffix | test.py:8 | the driver's three assertions for `1.1.0-alpha`, `1.2.0-alpha.1` |
| SemVerExamples.PatchPrefixDecides | test.py:9 | the driver's three assertions for `1.0.1b`, `1.0.10-alpha.beta` |
| SemVerExamples.CandidateBeforeRelease | test.py:10 | the driver's three assertions for `1.0.0-rc.1`, `1.0.0` |
| SemVerExamples.SpecialCaseReversed | test.py:12 | `2.0.0a-rc` precedes `2.0.0a-yy`, so the driver's expectation for this pair fails |
| SemVerExamples.LongerPrereleaseFollows | test.py:14 | the driver's three assertions for `1.0.0-alpha`, `1.0.0-alpha.1` |
| SemVerExamples.NumericBeforeText | test.py:15 | the driver's three assertions for `1.0.0-alpha.1`, `1.0.0-alpha.beta` |
| SemVerExamples.TextOrder | test.py:16 | the driver's three assertions for `1.0.0-alpha.beta`, `1.0.0-beta` |
| SemVerExamples.LongerBetaFollows | test.py:17 | the driver's three assertions for `1.0.0-beta`, `1.0.0-beta.2` |
| SemVerExamples.NumericOrder | test.py:18 | the driver's three assertions for `1.0.0-beta.2`, `1.0.0-beta.11` |
| SemVerExamples.BetaBeforeCandidate | test.py:19 | the driver's three assertions for `1.0.0-beta.11`, `1.0.0-rc.1` |
| SemVerExamples.CoreComparesAsText | version_comparator.py:55-56 | `1.10.0` precedes `1.9.0` |
| SemVerExamples.BuildMetadataIgnored | version_comparator.py:45-57 | versions differing only in build metadata are equal and unordered |
| SemVerExamples.PlusOpensPrerelease | version_comparator.py:20-22 | a `+` right after the patch opens a pre-release, so `1.0.0+build1` precedes `1.0.0` |
| SemVerExamples.NumericSuffixOrder | version_comparator.py:72-78 | suffix `2` precedes suffix `10` |
| SemVerExamples.MixedSuffixOrder | version_comparator.py:72-78 | suffix `10` precedes suffix `1a`, compared as strings |
| SemVerExamples.TextSuffixOrder | version_comparator.py:72-78 | suffix `1a` precedes suffix `2` |
| SemVerExamples.DashSplitsIdentifiers | version_comparator.py:31 | `1.0.0-a-2` precedes `1.0.0-a-10`, although `a-10` precedes `a-2` as whole strings |
| SemVerExamples.EachGreaterThanTheOther | version_comparator.py:72-78 | `1.0.0-a-01` and `1.0.0-a.1` are each greater than the other |
| SemVerExamples.EqualNumeralsPassOn | version_comparator.py:72-78 | `1.0.0-a-01-b` precedes `1.0.0-a.1.c`: the entries `01` and `1` compare equal and the next entries decide |
| SemVerExamples.PrecedenceCycle | version_comparator.py:72-78 | `<` is not transitive: `1.0.0-2 < 1.0.0-10 < 1.0.0-1a < 1.0.0-2` |
| SemVerExamples.RenderDashedZero | version_comparator.py:80-84 | `1.0.0-a-01` builds suffix `["a", "01"]`, which `str()` writes as `1.0.0-a.01` |
| SemVerExamples.RejectsDottedZero | version_comparator.py:17-24 | `1.0.0-a.01` is not a version, so `str()` does not always give back a version |
| SemVerExamples.PatchGivesBack | version_comparator.py:17-24 | in `1.0.12.x` the matcher shortens the patch to `1` and reads the pre-release `2.x`: core `1.0.1`, suffix `["2", "x"]` |
| Text.Decimal | main.py:50 | `str()` of an integer is a numeral without a leading zero whose value is that integer |
| Text.DecimalOfValue | main.py:16 | a numeral without a leading zero is `str()` of its own value |
| EarlyVersion.Scan | main.py:8 | the definition of `re.search(pattern, version)` reduced to its groups; `ScanSound`, `ScanPreferred`, `GroupsUnique` and `ScanIsPythonsMatch` state what it returns |
| EarlyVersion.Check | main.py:12-19 | the definition of one step of `_validate_attrs`: the leading-zero error, the `int` value or the `int` error; `ValidateFrom` and `ValidateThree` state its properties |
| EarlyVersion.Parse | main.py:21-26 | the definition of `__init__`; `ParseOfScan`, `ParseAccepts`, `ParsedSuffix` and `Construct` state its properties |
| EarlyVersion.Eq | main.py:28-33 | the definition of `__eq__` on the four attributes, building a version from a string operand first; `EqualIffSameText` states its properties |
| EarlyVersion.Ne | main.py:28-33 | the definition of `!=`, the negation of `__eq__`; `LessTrichotomous` states it |
| EarlyVersion.Less | main.py:38-46 | the definition of `__lt__` on two versions, including the `None < None` error; `CoreDominates`, `SuffixOrder`, `LessRaises`, `LessAsymmetric`, `LessTransitive` and `LessTrichotomous` state its properties |
| EarlyVersion.Lt | main.py:35-46 | the definition of `__lt__` with a version or string operand; `SelfUnorderable` and the driver examples use it |
| EarlyVersion.Gt | main.py:5 | the definition of the `>` that `total_ordering` derives; `LessRaises` and `LessTrichotomous` state its properties |
| EarlyVersion.Le | main.py:5 | the definition of the derived `<=`; `LessRaises` and `LessTrichotomous` state its properties |
| EarlyVersion.Ge | main.py:5 | the definition of the derived `>=`; `LessRaises` and `LessTrichotomous` state its properties |
| EarlyVersion.Render | main.py:48-50 | the definition of `__str__`; `RoundTrip`, `ParsedRoundTrip` and `EqualIffSameText` state its properties |
| EarlyVersion.ReadTailSound | main.py:8 | what the reading of `-?(\S+)?$` returns spells the rest, with a suffix the pattern allows |
| EarlyVersion.ReadTailPreferred | main.py:8 | for any dash and suffix the pattern allows, the reading of their spelling succeeds with a choice the matcher prefers |
| EarlyVersion.TailUnique | main.py:8 | one rest, read with the same choice, gives the same dash and suffix |
| EarlyVersion.ScanSound | main.py:8 | whatever the scanner returns are groups the pattern allows, spelling the whole input |
| EarlyVersion.ScanOfLayout | main.py:8 | a text laid out as three digit runs, dots and a rest that does not start with a digit scans to those runs and the reading of the rest |
| EarlyVersion.ScanPreferred | main.py:8 | whenever groups the pattern allows spell the input, the scanner finds a match the matcher prefers: the longest patch, then the dash consumed first |
| EarlyVersion.GroupsUnique | main.py:8 | two matches of one text with the same patch length and choice are the same groups |
| EarlyVersion.ScanIsPythonsMatch | main.py:8 | the scanner returns exactly the match the matcher prefers to all others |
| EarlyVersion.ValidateFrom | main.py:10-19 | no error exactly when every remaining attribute is a numeral without a leading zero; then each becomes its `int`; earlier attributes are unchanged; the errors are the leading-zero and the `int` ones |
| EarlyVersion.Instance.constructor | main.py:25 | the four attributes hold the matched groups |
| EarlyVersion.Instance.SetAttr | main.py:17 | `setattr` replaces one core attribute and leaves the others and the suffix alone |
| EarlyVersion.Instance.ValidateAttrs | main.py:10-19 | the loop over the attribute names leaves the attributes and returns the error that `ValidateFrom` specifies |
| EarlyVersion.ValidateThree | main.py:10-19 | on three numerals, the first with a leading zero raises, named by its attribute; otherwise all become their values |
| EarlyVersion.Construct | main.py:21-26 | the constructor returns what `Parse` specifies |
| EarlyVersion.ParseOfScan | main.py:21-26 | a matched text builds the version of the values and the suffix group, unless a core field has a leading zero |
| EarlyVersion.ParseAccepts | main.py:21-26 | a text is rejected as invalid exactly when no groups the pattern allows spell it; the only other error is a leading zero |
| EarlyVersion.ParsedSuffix | main.py:8 | a built version's suffix is absent or a non-empty text without whitespace |
| EarlyVersion.RoundTrip | main.py:48-50 | `str()` of a version whose suffix the pattern allows builds that version back |
| EarlyVersion.ParsedRoundTrip | main.py:48-50 | `str()` of a built version builds it back |
| EarlyVersion.EqualIffSameText | main.py:28-33 | two versions are equal exactly when `str()` writes them alike |
| EarlyVersion.CoreDominates | main.py:38-41 | different cores compare as integer triples, whatever the suffixes |
| EarlyVersion.LessRaises | main.py:42-46 | `<` raises exactly for equal cores without suffixes, and then `<=`, `>` and `>=` raise too |
| EarlyVersion.SuffixOrder | main.py:42-46 | with equal cores a suffix precedes no suffix, and two suffixes compare as strings |
| EarlyVersion.LessAsymmetric | main.py:35-46 | of two versions at most one precedes the other |
| EarlyVersion.LessTransitive | main.py:35-46 | `<` is transitive |
| EarlyVersion.LessTrichotomous | main.py:5 | where `<` does not raise, exactly one of `<`, `==`, `>` holds, and `>`, `>=`, `<=`, `!=` agree with it |
| EarlyVersionExamples.Laid | main.py:21-26 | a text laid out as three numerals and a rest is rejected, raises for the first leading zero, or holds the values and the suffix read from the rest |
| EarlyVersionExamples.MajorDecides | main.py:58 | the driver's three assertions for `1.0.0`, `2.0.0` |
| EarlyVersionExamples.MinorDecides | main.py:59 | the driver's three assertions for `1.0.0`, `1.42.0` |
| EarlyVersionExamples.PatchDecides | main.py:60 | the driver's three assertions for `1.2.0`, `1.2.42` |
| EarlyVersionExamples.CoreBeforeSuffix | main.py:61 | the driver's three assertions for `1.1.0-alpha`, `1.2.0-alpha.1` |
| EarlyVersionExamples.GluedSuffix | main.py:62 | the driver's three assertions for `1.0.1b`, `1.0.10-alpha.beta` |
| EarlyVersionExamples.CandidateBeforeRelease | main.py:63 | the driver's three assertions for `1.0.0-rc.1`, `1.0.0` |
| EarlyVersionExamples.LeadingZeroMajor | main.py:13-14 | `01.0.0` raises the leading-zero error for `major` |
| EarlyVersionExamples.LeadingZeroMinor | main.py:13-14 | `1.00.0` raises the leading-zero error for `minor` |
| EarlyVersionExamples.LeadingZeroPatch | main.py:13-14 | `1.0.00` raises the leading-zero error for `patch` |
| EarlyVersionExamples.LeadingZeroBeforeSuffix | main.py:13-14 | `1.0.05x` raises the leading-zero error for `patch` |
| EarlyVersionExamples.Rejected | main.py:22-24 | `1.0.0 beta` and `1.0` are not valid |
| EarlyVersionExamples.NonAsciiSpaceRejected | main.py:8 | `1.0.0-a` followed by a no-break space is not valid |
| EarlyVersionExamples.TrailingDash | main.py:8 | `1.0.0-` builds the same version as `1.0.0` |
| EarlyVersionExamples.SuffixIsText | main.py:46 | `1.0.0-beta.11` precedes `1.0.0-beta.2` |
| EarlyVersionExamples.SelfUnorderable | main.py:42-46 | `1.0.0 < "1.0.0"` and `1.0.0 <= "1.0.0"` raise, while `==` holds |

## Left out

- `\d` is ASCII-only here. Python's `re` on `str` also accepts other Unicode decimal digits, and `int()` accepts those digits. `\S` and `\s` follow `str.isspace` on every character (`Text.IsSpace`).
- SemVer.IntOf: is `int()` only on runs of ASCII digits and `None` for any other text. Python's `int()` also accepts surrounding whitespace, a sign, `_` between digits and non-ASCII decimal digits. The pattern only lets ASCII digit runs into the core, so the check of a matched version is unaffected; `SemVer.ValidateCore` applied to arbitrary fields such as ` 5` or `+5` reports `NotAnInt` where Python would accept them.
- `$` is modelled as the end of the text. Python's `$` also matches just before a final newline.
- `__repr__` is not modelled; it only wraps `str()`.
- The texts of the exception messages are not modelled; errors are datatype constructors naming the field or attribute.
- Operands that are neither a version nor a string are not modelled. Comparisons take a version or a string, and a string is built into a version first.
- `functools.total_ordering` itself is not modelled; its derived operators are written out from `<` and `==`.
- The drivers' loops, `main()` and their `assert` statements are not modelled as code. Each pair they check is a lemma.
- SemVer.RoundTrip: requires every suffix entry to be a pre-release identifier. A suffix split at `-` can hold an entry such as `01` that the pattern rejects after a dot, and then `str()` does not give back a version (`RejectsDottedZero`).
- EarlyVersion.RoundTrip: requires the suffix to be absent or a non-empty text without whitespace, which every built version satisfies (`ParsedSuffix`).
- Python integers are unbounded, like Dafny's, so nothing about integer width is left out.
