/**
 * The `Version` class of main.py, the earlier and simpler iteration: the
 * pattern `^(\d+)\.(\d+)\.(\d+)-?(\S+)?$` (ASCII text, `$` at the very end),
 * the check of the core attributes that turns them into `int`s in place, the
 * comparisons `==` and `<` with the `>`, `!=`, `<=`, `>=` that
 * `functools.total_ordering` derives from them, and `str()`.
 *
 * Unlike version_comparator.py the core compares as integers and the suffix
 * as one plain string, and two equal releases cannot be compared with `<` at
 * all (`None < None` raises `TypeError`).
 */
module EarlyVersion {
  import opened Wrappers
  import opened Text

  // ---------------------------------------------------------------------------
  // The pattern
  // ---------------------------------------------------------------------------

  /** The groups of a match; `dash` says whether `-?` consumed a `-`. */
  datatype Groups = Groups(major: string, minor: string, patch: string, dash: bool, suffix: Option<string>)

  /** The text a match spans after the patch. */
  function TailSpelling(dash: bool, suffix: Option<string>): string {
    (if dash then "-" else "") + (if suffix.Some? then suffix.value else "")
  }

  /** The text a match with these groups spans. */
  function Spelling(g: Groups): string {
    g.major + ("." + (g.minor + ("." + (g.patch + TailSpelling(g.dash, g.suffix)))))
  }

  /** The `(\S+)?` group: absent, or a non-empty text without whitespace. */
  predicate ValidSuffix(suffix: Option<string>) {
    suffix.Some? ==> |suffix.value| > 0 && NoSpace(suffix.value)
  }

  /** The groups obey the pattern: three runs of `\d+` and an `\S+` suffix, if any. */
  predicate WellFormed(g: Groups) {
    IsNumeric(g.major) && IsNumeric(g.minor) && IsNumeric(g.patch) && ValidSuffix(g.suffix)
  }

  /** The order in which the matcher tries `-?(\S+)?`: the `-` first, then the group. */
  function TailRank(dash: bool, suffix: Option<string>): nat {
    (if dash then 0 else 2) + (if suffix.Some? then 0 else 1)
  }

  function Rank(g: Groups): nat {
    TailRank(g.dash, g.suffix)
  }

  /** Python's preference: a longer patch first, then the earlier choice for the rest. */
  predicate Prefers(r: Groups, g: Groups) {
    |g.patch| < |r.patch| || (|g.patch| == |r.patch| && Rank(r) <= Rank(g))
  }

  /**
   * `-?(\S+)?$` on the rest `r` after the patch, tried as the matcher does:
   * with the `-` consumed first, and with the group before without it.
   */
  function ReadTail(r: string): Option<(bool, Option<string>)> {
    if r != [] && r[0] == '-' && NoSpace(r[1..]) then
      Some((true, if r[1..] == [] then None else Some(r[1..])))
    else if r == [] then Some((false, None))
    else if NoSpace(r) then Some((false, Some(r)))
    else None
  }

  /**
   * `re.search(pattern, s)` reduced to its groups. Major and minor are the
   * digit runs before their dots and the patch is the whole digit run after
   * them: a shorter patch leaves a rest that holds the same whitespace, so it
   * never matches where the longest patch does not (`ScanPreferred`).
   */
  function Scan(s: string): Option<Groups> {
    var e1 := DigitRunEnd(s, 0);
    if e1 == 0 || e1 == |s| || s[e1] != '.' then None
    else
      var e2 := DigitRunEnd(s, e1 + 1);
      if e2 == e1 + 1 || e2 == |s| || s[e2] != '.' then None
      else
        var q := DigitRunEnd(s, e2 + 1);
        if q == e2 + 1 then None
        else
          match ReadTail(s[q..])
          case None => None
          case Some(t) => Some(Groups(s[..e1], s[e1 + 1..e2], s[e2 + 1..q], t.0, t.1))
  }

  // ---------------------------------------------------------------------------
  // Construction
  // ---------------------------------------------------------------------------

  /** The attributes of a constructed version. */
  datatype Version = Version(major: nat, minor: nat, patch: nat, suffix: Option<string>)

  /** The exceptions the class raises. */
  datatype Error =
    | InvalidVersion            // the `ValueError` of a text that does not match
    | LeadingZero(attr: string) // the `ValueError` of a core attribute starting with `0`
    | NotAnInt(attr: string)    // the `ValueError` of a core attribute `int()` rejects
    | Unorderable               // the `TypeError` of `None < None`

  /** A core attribute: the matched text, until `_validate_attrs` replaces it by its `int`. */
  datatype Field = Raw(text: string) | Int(value: nat)

  /** The names `_validate_attrs` loops over. */
  const AttrNames: seq<string> := ["major", "minor", "patch"]

  /** The check of one attribute's text: its `int` value, or the error raised. */
  function Check(attr: string, value: string): Result<nat, Error> {
    if |value| > 1 && value[0] == '0' then Err(LeadingZero(attr))
    else if IsNumeric(value) then Ok(ValueOf(value))
    else Err(NotAnInt(attr))
  }

  /**
   * `_validate_attrs` from the attribute at index `i` on: the attributes
   * afterwards and the error raised, if any. It raises exactly when some text
   * from `i` on is not a numeral without a leading zero; otherwise every one of
   * them has become its value.
   */
  function ValidateFrom(fields: seq<Field>, i: nat): (r: (seq<Field>, Option<Error>))
    requires |fields| == 3 && i <= 3 && forall j | i <= j < 3 :: fields[j].Raw?
    ensures |r.0| == 3 && forall j | 0 <= j < i :: r.0[j] == fields[j]
    ensures r.1.None? <==> forall j | i <= j < 3 :: IsNumeric(fields[j].text) && !HasLeadingZero(fields[j].text)
    ensures r.1.None? ==> forall j | i <= j < 3 :: r.0[j] == Int(ValueOf(fields[j].text))
    ensures r.1.Some? ==> r.1.value.LeadingZero? || r.1.value.NotAnInt?
    decreases 3 - i
  {
    if i == 3 then (fields, None)
    else
      match Check(AttrNames[i], fields[i].text)
      case Err(e) => (fields, Some(e))
      case Ok(n) =>
        assert IsNumeric(fields[i].text) && !HasLeadingZero(fields[i].text) && n == ValueOf(fields[i].text);
        var next := fields[i := Int(n)];
        assert forall j | i < j < 3 :: next[j] == fields[j];
        ValidateFrom(next, i + 1)
  }

  /**
   * A `Version` object while `__init__` runs: it stores the matched strings
   * in `major`, `minor`, `patch` and `suffix`, and `_validate_attrs` then
   * replaces each of the first three by its `int` value in place.
   */
  class Instance {
    var major: Field
    var minor: Field
    var patch: Field
    var suffix: Option<string>

    /** `self.major, self.minor, self.patch, self.suffix = match.groups()`. */
    constructor (g: Groups)
      ensures Fields() == [Raw(g.major), Raw(g.minor), Raw(g.patch)] && suffix == g.suffix
    {
      major, minor, patch, suffix := Raw(g.major), Raw(g.minor), Raw(g.patch), g.suffix;
    }

    /** The attributes named in `AttrNames`, in that order. */
    function Fields(): (fs: seq<Field>)
      reads this
      ensures |fs| == 3
    {
      [major, minor, patch]
    }

    /** `setattr(self, AttrNames[k], f)`. */
    method SetAttr(k: nat, f: Field)
      requires k < 3
      modifies this
      ensures Fields() == old(Fields())[k := f] && suffix == old(suffix)
    {
      if k == 0 {
        major := f;
      } else if k == 1 {
        minor := f;
      } else {
        patch := f;
      }
    }

    /** `_validate_attrs`: the loop over the three attribute names. */
    method ValidateAttrs() returns (e: Option<Error>)
      requires forall j | 0 <= j < 3 :: Fields()[j].Raw?
      modifies this
      ensures (Fields(), e) == ValidateFrom(old(Fields()), 0) && suffix == old(suffix)
    {
      for k := 0 to 3
        invariant forall j | k <= j < 3 :: Fields()[j].Raw?
        invariant ValidateFrom(Fields(), k) == ValidateFrom(old(Fields()), 0)
        invariant suffix == old(suffix)
      {
        var value := Fields()[k].text;
        if |value| > 1 && value[0] == '0' {
          return Some(LeadingZero(AttrNames[k]));
        }
        if !IsNumeric(value) {
          return Some(NotAnInt(AttrNames[k]));
        }
        SetAttr(k, Int(ValueOf(value)));
      }
      return None;
    }
  }

  /** `Version(s)`: the version, or the error the constructor raises. */
  function Parse(s: string): Result<Version, Error> {
    match Scan(s)
    case None => Err(InvalidVersion)
    case Some(g) =>
      var r := ValidateFrom([Raw(g.major), Raw(g.minor), Raw(g.patch)], 0);
      if r.1.Some? then Err(r.1.value)
      else Ok(Version(r.0[0].value, r.0[1].value, r.0[2].value, g.suffix))
  }

  /** `__init__`, step by step. */
  method Construct(s: string) returns (r: Result<Version, Error>)
    ensures r == Parse(s)
  {
    var m := Scan(s);
    if m.None? {
      return Err(InvalidVersion);
    }
    var g := m.value;
    var obj := new Instance(g);
    var e := obj.ValidateAttrs();
    if e.Some? {
      return Err(e.value);
    }
    return Ok(Version(obj.major.value, obj.minor.value, obj.patch.value, obj.suffix));
  }

  // ---------------------------------------------------------------------------
  // Comparison
  // ---------------------------------------------------------------------------

  /** The right operand of a comparison: a version, or a string it is built from. */
  datatype Operand = Ver(v: Version) | Str(s: string)

  /** A string operand is turned into a version first, which may raise. */
  function Coerce(o: Operand): Result<Version, Error> {
    match o
    case Ver(v) => Ok(v)
    case Str(s) => Parse(s)
  }

  /** `(self.major, self.minor, self.patch)`. */
  function Core(v: Version): seq<nat> {
    [v.major, v.minor, v.patch]
  }

  function NatLess(m: nat, n: nat): bool { m < n }

  /** The truth value of `self.suffix`: `None` and `""` are false. */
  predicate Present(suffix: Option<string>) {
    suffix.Some? && suffix.value != ""
  }

  /** `__lt__` on two versions. */
  function Less(a: Version, b: Version): Result<bool, Error> {
    if Core(a) != Core(b) then Ok(LexLess(Core(a), Core(b), NatLess))
    else if Present(a.suffix) && !Present(b.suffix) then Ok(true)
    else if !Present(a.suffix) && Present(b.suffix) then Ok(false)
    else if a.suffix.Some? && b.suffix.Some? then Ok(StrLess(a.suffix.value, b.suffix.value))
    else Err(Unorderable)
  }

  /** `__eq__`: the four attributes agree. */
  function Eq(a: Version, o: Operand): Result<bool, Error> {
    match Coerce(o)
    case Err(e) => Err(e)
    case Ok(b) => Ok(a == b)
  }

  /** `!=`: the negation of `==`. */
  function Ne(a: Version, o: Operand): Result<bool, Error> {
    match Eq(a, o)
    case Err(e) => Err(e)
    case Ok(eq) => Ok(!eq)
  }

  function Lt(a: Version, o: Operand): Result<bool, Error> {
    match Coerce(o)
    case Err(e) => Err(e)
    case Ok(b) => Less(a, b)
  }

  /** `>` from `total_ordering`: `not a < o and a != o`. */
  function Gt(a: Version, o: Operand): Result<bool, Error> {
    match Lt(a, o)
    case Err(e) => Err(e)
    case Ok(lt) => if lt then Ok(false) else Ne(a, o)
  }

  /** `<=` from `total_ordering`: `a < o or a == o`. */
  function Le(a: Version, o: Operand): Result<bool, Error> {
    match Lt(a, o)
    case Err(e) => Err(e)
    case Ok(lt) => if lt then Ok(true) else Eq(a, o)
  }

  /** `>=` from `total_ordering`: `not a < o`. */
  function Ge(a: Version, o: Operand): Result<bool, Error> {
    match Lt(a, o)
    case Err(e) => Err(e)
    case Ok(lt) => Ok(!lt)
  }

  // ---------------------------------------------------------------------------
  // str()
  // ---------------------------------------------------------------------------

  function Render(v: Version): string {
    Decimal(v.major) + "." + Decimal(v.minor) + "." + Decimal(v.patch)
    + (if Present(v.suffix) then "-" + v.suffix.value else "")
  }

  // ---------------------------------------------------------------------------
  // The scanner is Python's matcher
  // ---------------------------------------------------------------------------

  /** What `ReadTail` reads spells the rest it read, with a suffix the pattern allows. */
  lemma {:induction false} ReadTailSound(r: string)
    requires ReadTail(r).Some?
    ensures var t := ReadTail(r).value;
      TailSpelling(t.0, t.1) == r && ValidSuffix(t.1)
  {
    if r != [] && r[0] == '-' && NoSpace(r[1..]) {
      assert r == "-" + r[1..];
    }
  }

  /** A rest without whitespace is always read. */
  lemma {:induction false} ReadTailOfNoSpace(r: string)
    requires NoSpace(r)
    ensures ReadTail(r).Some?
  {
    if r != [] {
      assert forall j | 0 <= j < |r| - 1 :: r[1..][j] == r[j + 1];
    }
  }

  /** Every well-formed spelling of a rest is read by `ReadTail`, as it or as an earlier choice. */
  lemma {:induction false} ReadTailPreferred(dash: bool, suffix: Option<string>)
    requires ValidSuffix(suffix)
    ensures var r := TailSpelling(dash, suffix);
      ReadTail(r).Some? && TailRank(ReadTail(r).value.0, ReadTail(r).value.1) <= TailRank(dash, suffix)
  {
    var r := TailSpelling(dash, suffix);
    if dash {
      assert r[1..] == if suffix.Some? then suffix.value else "";
    } else if suffix.Some? {
      ReadTailOfNoSpace(r);
    }
  }

  /** For a fixed choice, a rest spells at most one well-formed `-?(\S+)?`. */
  lemma {:induction false} TailUnique(d1: bool, x1: Option<string>, d2: bool, x2: Option<string>)
    requires ValidSuffix(x1) && ValidSuffix(x2)
    requires TailSpelling(d1, x1) == TailSpelling(d2, x2) && TailRank(d1, x1) == TailRank(d2, x2)
    ensures d1 == d2 && x1 == x2
  {
    assert d1 == d2 && x1.Some? == x2.Some?;
    if x1.Some? && d1 {
      assert TailSpelling(d1, x1)[1..] == x1.value;
      assert TailSpelling(d2, x2)[1..] == x2.value;
    } else if x1.Some? {
      assert TailSpelling(d1, x1) == x1.value;
      assert TailSpelling(d2, x2) == x2.value;
    }
  }

  /** Digits from `i` to `k` form a numeral. */
  lemma {:induction false} DigitsSlice(s: string, i: nat, k: nat)
    requires i < k <= |s| && forall j | i <= j < k :: IsDigit(s[j])
    ensures IsNumeric(s[i..k])
  {
    assert forall j | 0 <= j < k - i :: s[i..k][j] == s[i + j];
  }

  /** A non-empty digit run is numeric. */
  lemma {:induction false} RunIsNumeric(s: string, i: nat)
    requires i <= |s| && i < DigitRunEnd(s, i)
    ensures IsNumeric(s[i..DigitRunEnd(s, i)])
  {
    DigitRunEndDigits(s, i);
    DigitsSlice(s, i, DigitRunEnd(s, i));
  }

  /** A text cut at two dots and once more is the pieces between them. */
  lemma {:induction false} Reassembled(s: string, e1: nat, e2: nat, q: nat)
    requires e1 < e2 < q <= |s| && s[e1] == '.' && s[e2] == '.'
    ensures s == s[..e1] + ("." + (s[e1 + 1..e2] + ("." + (s[e2 + 1..q] + s[q..]))))
  {
    assert s[e2..] == "." + (s[e2 + 1..q] + s[q..]);
    assert s[e1..] == "." + (s[e1 + 1..e2] + s[e2..]);
    assert s == s[..e1] + s[e1..];
  }

  /** Whatever `Scan` returns obeys the pattern and spells the whole input. */
  lemma {:induction false} ScanSound(s: string)
    requires Scan(s).Some?
    ensures WellFormed(Scan(s).value) && Spelling(Scan(s).value) == s
  {
    var e1 := DigitRunEnd(s, 0);
    var e2 := DigitRunEnd(s, e1 + 1);
    var q := DigitRunEnd(s, e2 + 1);
    var t := ReadTail(s[q..]).value;
    assert Scan(s).value == Groups(s[..e1], s[e1 + 1..e2], s[e2 + 1..q], t.0, t.1);
    RunIsNumeric(s, 0);
    assert s[0..e1] == s[..e1];
    RunIsNumeric(s, e1 + 1);
    RunIsNumeric(s, e2 + 1);
    ReadTailSound(s[q..]);
    Reassembled(s, e1, e2, q);
  }

  /** `Scan` once the three digit runs and the rest after them are known. */
  lemma {:induction false} ScanAt(s: string, major: string, minor: string, patch: string, rest: string)
    requires var e1 := |major|; var e2 := e1 + 1 + |minor|; var q := e2 + 1 + |patch|;
      && 0 < e1 && e1 + 1 < e2 && e2 + 1 < q <= |s| && s[e1] == '.' && s[e2] == '.'
      && DigitRunEnd(s, 0) == e1 && DigitRunEnd(s, e1 + 1) == e2 && DigitRunEnd(s, e2 + 1) == q
      && s[..e1] == major && s[e1 + 1..e2] == minor && s[e2 + 1..q] == patch && s[q..] == rest
    ensures ReadTail(rest).None? ==> Scan(s).None?
    ensures ReadTail(rest).Some? ==>
      Scan(s) == Some(Groups(major, minor, patch, ReadTail(rest).value.0, ReadTail(rest).value.1))
  {
  }

  /** Where major, minor and the rest after their dots lie in a text spelled as they say. */
  lemma {:induction false} FieldsAt(s: string, major: string, minor: string, rest: string)
    requires AllDigits(major) && AllDigits(minor) && s == major + ("." + (minor + ("." + rest)))
    ensures var e1 := |major|; var e2 := e1 + 1 + |minor|;
      && e2 < |s| && s[e1] == '.' && s[e2] == '.'
      && DigitRunEnd(s, 0) == e1 && DigitRunEnd(s, e1 + 1) == e2
      && s[..e1] == major && s[e1 + 1..e2] == minor && s[e2 + 1..] == rest
  {
    assert s[0..] == s;
    FieldAt(s, 0, major, minor + ("." + rest));
    assert s[..|major|] == s[0..|major|];
    FieldAt(s, |major| + 1, minor, rest);
  }

  /** A digit run `patch` at `p` followed by a rest that does not start with a digit. */
  lemma {:induction false} PatchAt(s: string, p: nat, patch: string, rest: string)
    requires p <= |s| && AllDigits(patch) && (rest == [] || !IsDigit(rest[0])) && s[p..] == patch + rest
    ensures var q := p + |patch|;
      q <= |s| && DigitRunEnd(s, p) == q && s[p..q] == patch && s[q..] == rest
  {
    DigitsAt(s, p, patch, rest);
    var q := p + |patch|;
    if q < |s| {
      assert s[q] == s[q..][0] == rest[0];
    }
    DigitRunEndAtMost(s, p, q);
  }

  /**
   * Where `s` is three digit runs with dots between them and then a rest that
   * does not start with a digit, `Scan` reads those runs and then the rest.
   */
  lemma {:induction false} ScanOfLayout(s: string, major: string, minor: string, patch: string, rest: string)
    requires IsNumeric(major) && IsNumeric(minor) && IsNumeric(patch) && (rest == [] || !IsDigit(rest[0]))
    requires s == major + ("." + (minor + ("." + (patch + rest))))
    ensures ReadTail(rest).None? ==> Scan(s).None?
    ensures ReadTail(rest).Some? ==>
      Scan(s) == Some(Groups(major, minor, patch, ReadTail(rest).value.0, ReadTail(rest).value.1))
  {
    FieldsAt(s, major, minor, patch + rest);
    var e2 := |major| + 1 + |minor|;
    PatchAt(s, e2 + 1, patch, rest);
    ScanAt(s, major, minor, patch, rest);
  }

  /**
   * A patch followed by a suffix that starts with a digit: the patch grows by
   * the suffix's digit run, and what is left holds no whitespace and does not
   * start with a digit.
   */
  lemma {:induction false} LongerPatch(patch: string, x: string)
    requires AllDigits(patch) && NoSpace(x)
    ensures var m := DigitRunEnd(x, 0);
      && AllDigits(patch + x[..m]) && NoSpace(x[m..])
      && (x[m..] == [] || !IsDigit(x[m..][0]))
      && patch + x == (patch + x[..m]) + x[m..]
  {
    var m := DigitRunEnd(x, 0);
    DigitRunEndDigits(x, 0);
    var longer := patch + x[..m];
    var rest := x[m..];
    forall j | 0 <= j < |longer| ensures IsDigit(longer[j]) {
      if j >= |patch| {
        assert longer[j] == x[j - |patch|];
      }
    }
    forall j | 0 <= j < |rest| ensures !IsSpace(rest[j]) {
      assert rest[j] == x[m + j];
    }
    assert rest != [] ==> rest[0] == x[m];
    assert x == x[..m] + rest;
  }

  /**
   * Every well-formed match of `s` is matched by `Scan` too, and `Scan` picks
   * one that Python's matcher prefers to it.
   */
  lemma {:induction false} ScanPreferred(s: string, g: Groups)
    requires WellFormed(g) && Spelling(g) == s
    ensures Scan(s).Some? && Prefers(Scan(s).value, g)
  {
    var tail := TailSpelling(g.dash, g.suffix);
    if tail == [] || !IsDigit(tail[0]) {
      ScanOfLayout(s, g.major, g.minor, g.patch, tail);
      ReadTailPreferred(g.dash, g.suffix);
    } else {
      // The rest starts with a digit, so it is the suffix alone and the patch reaches into it.
      var x := g.suffix.value;
      assert tail == x;
      LongerPatch(g.patch, x);
      var m := DigitRunEnd(x, 0);
      ReadTailOfNoSpace(x[m..]);
      ScanOfLayout(s, g.major, g.minor, g.patch + x[..m], x[m..]);
    }
  }

  /** Two concatenations that agree, split at the same place, agree piecewise. */
  lemma {:induction false} SplitEqually(a: string, b: string, c: string, d: string)
    requires a + b == c + d && |a| == |c|
    ensures a == c && b == d
  {
    assert a == (a + b)[..|a|] && c == (c + d)[..|c|];
    assert b == (a + b)[|a|..] && d == (c + d)[|c|..];
  }

  /** Two layouts of one text as digit runs and dots agree on major, minor and the rest. */
  lemma {:induction false} FieldsUnique(s: string, major1: string, minor1: string, rest1: string,
                                        major2: string, minor2: string, rest2: string)
    requires AllDigits(major1) && AllDigits(minor1) && s == major1 + ("." + (minor1 + ("." + rest1)))
    requires AllDigits(major2) && AllDigits(minor2) && s == major2 + ("." + (minor2 + ("." + rest2)))
    ensures major1 == major2 && minor1 == minor2 && rest1 == rest2
  {
    FieldsAt(s, major1, minor1, rest1);
    FieldsAt(s, major2, minor2, rest2);
  }

  /** For a fixed patch length and choice, a text has at most one well-formed match. */
  lemma {:induction false} GroupsUnique(g1: Groups, g2: Groups)
    requires WellFormed(g1) && WellFormed(g2) && Spelling(g1) == Spelling(g2)
    requires |g1.patch| == |g2.patch| && Rank(g1) == Rank(g2)
    ensures g1 == g2
  {
    var t1 := TailSpelling(g1.dash, g1.suffix);
    var t2 := TailSpelling(g2.dash, g2.suffix);
    FieldsUnique(Spelling(g1), g1.major, g1.minor, g1.patch + t1, g2.major, g2.minor, g2.patch + t2);
    SplitEqually(g1.patch, t1, g2.patch, t2);
    TailUnique(g1.dash, g1.suffix, g2.dash, g2.suffix);
  }

  /** `Scan` returns exactly the groups of the match Python's matcher reports. */
  lemma {:induction false} ScanIsPythonsMatch(s: string, g: Groups)
    requires WellFormed(g) && Spelling(g) == s
    requires forall d: Groups | WellFormed(d) && Spelling(d) == s :: Prefers(g, d)
    ensures Scan(s) == Some(g)
  {
    ScanPreferred(s, g);
    ScanSound(s);
    var r := Scan(s).value;
    assert Prefers(g, r);
    GroupsUnique(r, g);
  }

  // ---------------------------------------------------------------------------
  // What construction accepts
  // ---------------------------------------------------------------------------

  /**
   * The version built from the match: the first core field with a leading
   * zero raises (the pattern admits only digits, so `int()` never does), and
   * otherwise the version holds the values of the fields and the suffix group.
   */
  lemma {:induction false} ParseOfScan(s: string)
    requires Scan(s).Some?
    ensures var g := Scan(s).value;
      WellFormed(g) && Parse(s) ==
        if HasLeadingZero(g.major) then Err(LeadingZero("major"))
        else if HasLeadingZero(g.minor) then Err(LeadingZero("minor"))
        else if HasLeadingZero(g.patch) then Err(LeadingZero("patch"))
        else Ok(Version(ValueOf(g.major), ValueOf(g.minor), ValueOf(g.patch), g.suffix))
  {
    ScanSound(s);
    var g := Scan(s).value;
    ValidateThree(g.major, g.minor, g.patch);
  }

  /** `_validate_attrs` on three numerals: the first with a leading zero raises, else all become their values. */
  lemma {:induction false} ValidateThree(major: string, minor: string, patch: string)
    requires IsNumeric(major) && IsNumeric(minor) && IsNumeric(patch)
    ensures var r := ValidateFrom([Raw(major), Raw(minor), Raw(patch)], 0);
      && r.1 == (
        if HasLeadingZero(major) then Some(LeadingZero("major"))
        else if HasLeadingZero(minor) then Some(LeadingZero("minor"))
        else if HasLeadingZero(patch) then Some(LeadingZero("patch"))
        else None)
      && (r.1.None? ==> r.0 == [Int(ValueOf(major)), Int(ValueOf(minor)), Int(ValueOf(patch))])
  {
    var f0 := [Raw(major), Raw(minor), Raw(patch)];
    if !HasLeadingZero(major) {
      var f1 := f0[0 := Int(ValueOf(major))];
      assert ValidateFrom(f0, 0) == ValidateFrom(f1, 1);
      if !HasLeadingZero(minor) {
        var f2 := f1[1 := Int(ValueOf(minor))];
        assert ValidateFrom(f1, 1) == ValidateFrom(f2, 2);
      }
    }
  }

  /**
   * A text is rejected as not valid exactly when no well-formed groups spell
   * it; the only other error raised is a leading zero in a core field.
   */
  lemma {:induction false} ParseAccepts(s: string)
    ensures Parse(s) == Err(InvalidVersion) <==> forall g | WellFormed(g) :: Spelling(g) != s
    ensures Parse(s).Err? ==> Parse(s).error == InvalidVersion || Parse(s).error.LeadingZero?
  {
    forall g | WellFormed(g) && Spelling(g) == s
      ensures Scan(s).Some?
    {
      ScanPreferred(s, g);
    }
    if Scan(s).Some? {
      ScanSound(s);
      ParseOfScan(s);
    }
  }

  /** A constructed version's suffix is absent or a non-empty text without whitespace. */
  lemma {:induction false} ParsedSuffix(s: string)
    requires Parse(s).Ok?
    ensures ValidSuffix(Parse(s).value.suffix)
  {
    ScanSound(s);
    ParseOfScan(s);
  }

  // ---------------------------------------------------------------------------
  // str() and the constructor
  // ---------------------------------------------------------------------------

  /** `str()` gives back a text the constructor turns into the same version. */
  lemma {:induction false} RoundTrip(v: Version)
    requires ValidSuffix(v.suffix)
    ensures Parse(Render(v)) == Ok(v)
  {
    var major, minor, patch := Decimal(v.major), Decimal(v.minor), Decimal(v.patch);
    var rest := if Present(v.suffix) then "-" + v.suffix.value else "";
    var s := Render(v);
    assert s == major + ("." + (minor + ("." + (patch + rest))));
    if Present(v.suffix) {
      assert rest[1..] == v.suffix.value;
    }
    ScanOfLayout(s, major, minor, patch, rest);
    ParseOfScan(s);
  }

  /** `str()` of a constructed version parses back to it. */
  lemma {:induction false} ParsedRoundTrip(s: string)
    requires Parse(s).Ok?
    ensures Parse(Render(Parse(s).value)) == Parse(s)
  {
    ParsedSuffix(s);
    RoundTrip(Parse(s).value);
  }

  /** Two versions are equal exactly when `str()` writes them alike. */
  lemma {:induction false} EqualIffSameText(a: Version, b: Version)
    requires ValidSuffix(a.suffix) && ValidSuffix(b.suffix)
    ensures Eq(a, Ver(b)) == Ok(true) <==> Render(a) == Render(b)
  {
    RoundTrip(a);
    RoundTrip(b);
  }

  // ---------------------------------------------------------------------------
  // Ordering
  // ---------------------------------------------------------------------------

  /** The cores compare as tuples of integers, whatever the suffixes. */
  lemma {:induction false} CoreDominates(a: Version, b: Version)
    requires Core(a) != Core(b)
    ensures Less(a, b) == Ok(
      a.major < b.major || (a.major == b.major && (a.minor < b.minor || (a.minor == b.minor && a.patch < b.patch))))
  {
    var x, y := Core(a), Core(b);
    assert LexLessFrom(x, y, NatLess, 3) == false;
    assert LexLessFrom(x, y, NatLess, 2) == (a.patch < b.patch);
    assert LexLessFrom(x, y, NatLess, 1) == (a.minor < b.minor || (a.minor == b.minor && a.patch < b.patch));
  }

  /**
   * `<` raises exactly for two versions with equal cores and no suffix: Python
   * then evaluates `None < None`.
   */
  lemma {:induction false} LessRaises(a: Version, b: Version)
    requires ValidSuffix(a.suffix) && ValidSuffix(b.suffix)
    ensures Less(a, b).Err? <==> Core(a) == Core(b) && a.suffix.None? && b.suffix.None?
    ensures Less(a, b).Err? ==> Less(a, b).error == Unorderable
    ensures Less(a, b).Err? ==> Le(a, Ver(b)) == Gt(a, Ver(b)) == Ge(a, Ver(b)) == Err(Unorderable)
  {
  }

  /** With equal cores, present suffixes compare as plain strings and precede no suffix. */
  lemma {:induction false} SuffixOrder(a: Version, b: Version)
    requires Core(a) == Core(b) && ValidSuffix(a.suffix) && ValidSuffix(b.suffix)
    requires a.suffix.Some? || b.suffix.Some?
    ensures Less(a, b) == Ok(a.suffix.Some? && (b.suffix.Some? ==> StrLess(a.suffix.value, b.suffix.value)))
  {
  }

  lemma {:induction false} NatLessOrder()
    ensures forall m, n :: NatLess(m, n) ==> !NatLess(n, m)
    ensures forall m, n :: m != n ==> NatLess(m, n) || NatLess(n, m)
    ensures forall l, m, n :: NatLess(l, m) && NatLess(m, n) ==> NatLess(l, n)
  {
  }

  lemma {:induction false} CharLessOrder()
    ensures forall c, d :: CharLess(c, d) ==> !CharLess(d, c)
    ensures forall c, d :: c != d ==> CharLess(c, d) || CharLess(d, c)
    ensures forall b, c, d :: CharLess(b, c) && CharLess(c, d) ==> CharLess(b, d)
  {
  }

  /** Of two versions, at most one precedes the other. */
  lemma {:induction false} LessAsymmetric(a: Version, b: Version)
    ensures Less(a, b) == Ok(true) ==> Less(b, a) == Ok(false)
  {
    if Core(a) != Core(b) {
      NatLessOrder();
      LexLessAsymmetric(Core(a), Core(b), NatLess, 0);
    } else if a.suffix.Some? && b.suffix.Some? {
      CharLessOrder();
      LexLessAsymmetric(a.suffix.value, b.suffix.value, CharLess, 0);
    }
  }

  /** `<` is transitive on constructed versions. */
  lemma {:induction false} LessTransitive(a: Version, b: Version, c: Version)
    requires ValidSuffix(a.suffix) && ValidSuffix(b.suffix) && ValidSuffix(c.suffix)
    requires Less(a, b) == Ok(true) && Less(b, c) == Ok(true)
    ensures Less(a, c) == Ok(true)
  {
    NatLessOrder();
    if Core(a) == Core(c) && Core(a) != Core(b) {
      LexLessAsymmetric(Core(a), Core(b), NatLess, 0);
    } else if Core(a) != Core(b) && Core(b) != Core(c) {
      LexLessTransitive(Core(a), Core(b), Core(c), NatLess, 0);
    } else if Core(a) == Core(b) && Core(b) == Core(c) && c.suffix.Some? {
      CharLessOrder();
      LexLessTransitive(a.suffix.value, b.suffix.value, c.suffix.value, CharLess, 0);
    }
  }

  /**
   * Where `<` does not raise, exactly one of `a < b`, `a == b` and `b < a`
   * holds, and the derived comparisons are what their names say.
   */
  lemma {:induction false} LessTrichotomous(a: Version, b: Version)
    requires ValidSuffix(a.suffix) && ValidSuffix(b.suffix) && Less(a, b).Ok?
    ensures Less(b, a).Ok?
    ensures (Less(a, b) == Ok(true)) || a == b || (Less(b, a) == Ok(true))
    ensures a == b ==> Less(a, b) == Less(b, a) == Ok(false)
    ensures Gt(a, Ver(b)) == Less(b, a) && Ge(a, Ver(b)) == Ok(!Less(a, b).value)
    ensures Le(a, Ver(b)) == Ok(Less(a, b).value || a == b) && Ne(a, Ver(b)) == Ok(a != b)
  {
    LessAsymmetric(a, b);
    LessAsymmetric(b, a);
    if Core(a) != Core(b) {
      NatLessOrder();
      assert Core(a)[0..] == Core(a) && Core(b)[0..] == Core(b);
      LexLessTotal(Core(a), Core(b), NatLess, 0);
    } else if a.suffix.Some? && b.suffix.Some? && a.suffix != b.suffix {
      CharLessOrder();
      var x, y := a.suffix.value, b.suffix.value;
      assert x[0..] == x && y[0..] == y;
      LexLessTotal(x, y, CharLess, 0);
    } else if a == b && a.suffix.Some? {
      LexLessIrreflexive(a.suffix.value, CharLess);
    }
  }
}
