/**
  bumpVersion: from a version string and a component to the list of tags
  the bumped version is published under.
 */
module Bump {
  import opened Wrappers
  import opened Text
  import opened Decimal
  import opened SemVer
  import opened Components

  /**
    newPreRelease for a `pre` bump: strconv.Atoi of the old pre-release,
    whose value is 0 when the text is not a number (the error is only
    logged), plus one in Go's 64-bit `int`.
   */
  function NextPre(pre: string): int {
    Inc64(Atoi(pre).value)
  }

  /** The switch on the component: none and pre leave the version as it is. */
  function Increment(v: Version, c: Component): Version {
    match c
    case NoBump => v
    case Pre => v
    case Patch => IncPatch(v)
    case Minor => IncMinor(v)
    case Major => IncMajor(v)
  }

  /**
    The version bumpVersion arrives at. Only an original pre-release is
    rewritten: to NextPre for a `pre` bump and to "0" for every other
    component. A `pre` bump of a release version changes nothing.
   */
  function Bumped(v: Version, c: Component): Version {
    var w := Increment(v, c);
    if v.pre != "" then w.(pre := Itoa(if c == Pre then NextPre(v.pre) else 0)) else w
  }

  /** "M.m" and "M", the two short tags of a release version. */
  function MinorTag(v: Version): string {
    NatToString(v.major) + "." + NatToString(v.minor)
  }

  function MajorTag(v: Version): string {
    NatToString(v.major)
  }

  /** A valid version stays valid when it is bumped. */
  lemma BumpedValid(v: Version, c: Component)
    requires Valid(v)
    ensures Valid(Bumped(v, c))
  {
    if v.pre != "" {
      ItoaIsPrerelease(if c == Pre then NextPre(v.pre) else 0);
    }
  }

  /** bumpVersion: the tag list for `version` bumped by `c`. */
  function BumpVersion(version: string, c: Component): (r: seq<string>)
    ensures |r| == 1 || |r| == 3
  {
    match Parse(version)
    case None => [version]
    case Some(v) =>
      var w := Bumped(v, c);
      if v.pre != "" then [Format(w)]
      else [Format(w), MinorTag(w), MajorTag(w)]
  }

  /**
    Text that is not a semantic version comes back alone and unchanged.
    Otherwise the first tag is the text of the bumped version, which parses
    back to it; an original pre-release yields that one tag, and a release
    version yields three: the full text, then "M.m" and "M" of the bumped
    version.
   */
  lemma BumpTags(version: string, c: Component)
    ensures Parse(version).None? ==> BumpVersion(version, c) == [version]
    ensures Parse(version).Some? ==>
      var v := Parse(version).value;
      var w := Bumped(v, c);
      var r := BumpVersion(version, c);
      && Parse(r[0]) == Some(w)
      && (v.pre != "" ==> |r| == 1)
      && (v.pre == "" ==> r == [r[0], MinorTag(w), MajorTag(w)])
  {
    if Parse(version).Some? {
      var v := Parse(version).value;
      FormatParse(version);
      BumpedValid(v, c);
      ParseFormat(Bumped(v, c));
    }
  }

  /**
    Bumping brings in no character beyond identifier characters, '.' and
    '+': in particular no ':' and no newline that the input did not hold.
   */
  lemma BumpAddsNoChar(version: string, c: Component, ch: char)
    requires ch !in version && !IsIdentChar(ch) && ch != '.' && ch != '+'
    ensures ch !in BumpVersion(version, c)[0]
  {
    if Parse(version).Some? {
      var v := Parse(version).value;
      FormatParse(version);
      BumpedValid(v, c);
      FormatChars(Bumped(v, c));
    }
  }

  /** With `none`, a release version is returned as it is; a pre-release's is replaced by "0". */
  lemma BumpNone(version: string)
    requires Parse(version).Some?
    ensures var v := Parse(version).value;
      Parse(BumpVersion(version, NoBump)[0]) == Some(if v.pre == "" then v else v.(pre := "0"))
    ensures Parse(version).value.pre == "" ==> BumpVersion(version, NoBump)[0] == version
  {
    BumpTags(version, NoBump);
    FormatParse(version);
    assert Itoa(0) == "0";
  }

  /** With `pre`, a release version is left exactly as it was. */
  lemma BumpPreOnRelease(version: string)
    requires Parse(version).Some? && Parse(version).value.pre == ""
    ensures var v := Parse(version).value;
      BumpVersion(version, Pre) == [version, MinorTag(v), MajorTag(v)]
  {
    FormatParse(version);
  }

  /** With `pre`, a numeric pre-release n becomes n + 1. */
  lemma BumpPreNumeric(version: string)
    requires Parse(version).Some?
    requires var pre := Parse(version).value.pre;
      IsNumeric(pre) && DigitsValue(pre) < MaxInt64
    ensures var v := Parse(version).value;
      BumpVersion(version, Pre) == [Format(v.(pre := NatToString(DigitsValue(v.pre) + 1)))]
  {
    var v := Parse(version).value;
    NumericRoundTrip(v.pre);
    AtoiNat(DigitsValue(v.pre));
  }

  /**
    With `pre`, a pre-release that is not a number becomes "1", unless the
    digits it starts with overflow Atoi.
   */
  lemma BumpPreNonNumeric(version: string)
    requires Parse(version).Some?
    requires var pre := Parse(version).value.pre;
      pre != "" && !IsInteger(pre) && LeadFits(pre)
    ensures var v := Parse(version).value;
      BumpVersion(version, Pre) == [Format(v.(pre := "1"))]
  {
    var v := Parse(version).value;
    AtoiSyntax(v.pre);
    assert Itoa(1) == "1";
  }

  /**
    With `pre`, a numeric pre-release of MaxInt64 or more reads as MaxInt64,
    and adding one wraps round to MinInt64: the new pre-release is negative.
   */
  lemma BumpPreOverflow(version: string)
    requires Parse(version).Some?
    requires var pre := Parse(version).value.pre;
      pre != "" && IsDigits(pre) && DigitsValue(pre) >= MaxInt64
    ensures var v := Parse(version).value;
      BumpVersion(version, Pre) == [Format(v.(pre := "-" + NatToString(-MinInt64)))]
  {
    var v := Parse(version).value;
    AtoiTooLarge(v.pre);
    assert Bumped(v, Pre) == v.(pre := Itoa(MinInt64));
  }

  /**
    patch, minor and major increment the normal version as SemVer sections
    6 to 8 say and drop the build metadata; an original pre-release is
    replaced by "0".
   */
  lemma BumpIncrements(version: string, c: Component)
    requires Parse(version).Some?
    requires c in {Patch, Minor, Major}
    ensures var v := Parse(version).value;
      var pre := if v.pre == "" then "" else "0";
      Parse(BumpVersion(version, c)[0]) == Some(
        if c == Patch then Version(v.major, v.minor, v.patch + 1, pre, "")
        else if c == Minor then Version(v.major, v.minor + 1, 0, pre, "")
        else Version(v.major + 1, 0, 0, pre, ""))
  {
    var t := BumpVersion(version, c)[0];
    var v := Parse(version).value;
    FirstTag(version, c);
    assert Parse(t) == Some(Bumped(v, c));
    ParsedIncrement(v, c, t);
  }

  /** Text that parses to the bump of `v` by an increment parses to the incremented version. */
  lemma ParsedIncrement(v: Version, c: Component, t: string)
    requires c in {Patch, Minor, Major}
    requires Parse(t) == Some(Bumped(v, c))
    ensures var pre := if v.pre == "" then "" else "0";
      Parse(t) == Some(
        if c == Patch then Version(v.major, v.minor, v.patch + 1, pre, "")
        else if c == Minor then Version(v.major, v.minor + 1, 0, pre, "")
        else Version(v.major + 1, 0, 0, pre, ""))
  {
    BumpedIncrement(v, c);
  }

  /** The first tag of a semantic version's bump parses to the bumped version. */
  lemma FirstTag(version: string, c: Component)
    requires Parse(version).Some?
    ensures Parse(BumpVersion(version, c)[0]) == Some(Bumped(Parse(version).value, c))
  {
    BumpTags(version, c);
  }

  lemma BumpedIncrement(v: Version, c: Component)
    requires c in {Patch, Minor, Major}
    ensures var pre := if v.pre == "" then "" else "0";
      Bumped(v, c) ==
        if c == Patch then Version(v.major, v.minor, v.patch + 1, pre, "")
        else if c == Minor then Version(v.major, v.minor + 1, 0, pre, "")
        else Version(v.major + 1, 0, 0, pre, "")
  {
    assert Itoa(0) == "0";
  }
}
