/**
  Semantic Versioning 2.0.0: the version datatype, the strict textual
  grammar (section 2 for the normal version, section 9 for the pre-release,
  section 10 for build metadata), the increments of sections 6 to 8, and
  the round trip between parsing and printing.
 */
module SemVer {
  import opened Wrappers
  import opened Text
  import opened Decimal

  /** `pre` and `build` are "" when the version has none. */
  datatype Version = Version(major: nat, minor: nat, patch: nat, pre: string, build: string)

  predicate IsIdentChar(c: char) {
    ('0' <= c <= '9') || ('a' <= c <= 'z') || ('A' <= c <= 'Z') || c == '-'
  }

  /** Section 9: non-empty dot-separated identifiers; numeric ones carry no leading zero. */
  predicate IsPrerelease(s: string) {
    && s != ""
    && (forall c <- s :: IsIdentChar(c) || c == '.')
    && (forall p <- Split(s, '.') :: p != "" && (IsDigits(p) ==> IsNumeric(p)))
  }

  /** Section 10: non-empty dot-separated identifiers; leading zeros allowed. */
  predicate IsBuild(s: string) {
    && s != ""
    && (forall c <- s :: IsIdentChar(c) || c == '.')
    && (forall p <- Split(s, '.') :: p != "")
  }

  predicate Valid(v: Version) {
    && (v.pre == "" || IsPrerelease(v.pre))
    && (v.build == "" || IsBuild(v.build))
  }

  function CoreString(major: nat, minor: nat, patch: nat): string {
    NatToString(major) + "." + NatToString(minor) + "." + NatToString(patch)
  }

  /** The text after the normal version: "-pre" and "+build", each only when present. */
  function SuffixString(pre: string, build: string): string {
    (if pre == "" then "" else "-" + pre) + (if build == "" then "" else "+" + build)
  }

  /** The version's text, as the semver library's String() prints it. */
  function Format(v: Version): string {
    CoreString(v.major, v.minor, v.patch) + SuffixString(v.pre, v.build)
  }

  /** The normal version X.Y.Z: exactly three numeric identifiers. */
  function ParseCore(core: string): Option<(nat, nat, nat)> {
    var parts := Split(core, '.');
    if |parts| == 3 && IsNumeric(parts[0]) && IsNumeric(parts[1]) && IsNumeric(parts[2]) then
      Some((DigitsValue(parts[0]), DigitsValue(parts[1]), DigitsValue(parts[2])))
    else
      None
  }

  /** What follows "-": a pre-release, then optionally "+" and build metadata. */
  function ParsePre(tail: string): Option<(string, string)> {
    var j := Find(tail, {'+'});
    var pre := tail[..j];
    if !IsPrerelease(pre) then None
    else if j == |tail| then Some((pre, ""))
    else if IsBuild(tail[j + 1..]) then Some((pre, tail[j + 1..]))
    else None
  }

  /** The text after the normal version, split into pre-release and build metadata. */
  function ParseSuffix(rest: string): Option<(string, string)> {
    if |rest| == 0 then Some(("", ""))
    else if rest[0] == '+' then
      if IsBuild(rest[1..]) then Some(("", rest[1..])) else None
    else if rest[0] == '-' then ParsePre(rest[1..])
    else None
  }

  /** A strict SemVer 2.0.0 parse: None when the text is not a semantic version. */
  function Parse(s: string): Option<Version> {
    var i := Find(s, {'-', '+'});
    match (ParseCore(s[..i]), ParseSuffix(s[i..]))
    case (Some((major, minor, patch)), Some((pre, build))) => Some(Version(major, minor, patch, pre, build))
    case _ => None
  }

  /** Section 6: the patch version goes up by one. */
  function IncPatch(v: Version): Version {
    Version(v.major, v.minor, v.patch + 1, "", "")
  }

  /** Section 7: the minor version goes up by one and the patch version resets to 0. */
  function IncMinor(v: Version): Version {
    Version(v.major, v.minor + 1, 0, "", "")
  }

  /** Section 8: the major version goes up by one; minor and patch reset to 0. */
  function IncMajor(v: Version): Version {
    Version(v.major + 1, 0, 0, "", "")
  }

  /** The normal version's text holds no '-' or '+', so a parser finds where it ends. */
  lemma CoreStringChars(major: nat, minor: nat, patch: nat)
    ensures forall c <- CoreString(major, minor, patch) :: IsDigit(c) || c == '.'
  {
    var a, b, d := NatToString(major), NatToString(minor), NatToString(patch);
    assert forall c <- a :: IsDigit(c);
    assert forall c <- b :: IsDigit(c);
    assert forall c <- d :: IsDigit(c);
  }

  lemma ParseCoreString(major: nat, minor: nat, patch: nat)
    ensures ParseCore(CoreString(major, minor, patch)) == Some((major, minor, patch))
  {
    var a, b, d := NatToString(major), NatToString(minor), NatToString(patch);
    assert '.' !in a && '.' !in b && '.' !in d by {
      assert forall c <- a :: IsDigit(c);
      assert forall c <- b :: IsDigit(c);
      assert forall c <- d :: IsDigit(c);
    }
    Join3(a, b, d, ".");
    SplitJoin([a, b, d], '.');
  }

  lemma ParseSuffixString(pre: string, build: string)
    requires pre == "" || IsPrerelease(pre)
    requires build == "" || IsBuild(build)
    ensures ParseSuffix(SuffixString(pre, build)) == Some((pre, build))
  {
    var buildText := if build == "" then "" else "+" + build;
    if pre != "" {
      assert SuffixString(pre, build) == "-" + (pre + buildText);
      ParsePreString(pre, build);
    } else if build != "" {
      assert SuffixString(pre, build)[1..] == build;
    }
  }

  /** A pre-release followed by the optional "+build" is parsed back into the two. */
  lemma ParsePreString(pre: string, build: string)
    requires IsPrerelease(pre)
    requires build == "" || IsBuild(build)
    ensures ParsePre(pre + (if build == "" then "" else "+" + build)) == Some((pre, build))
  {
    assert forall c <- pre :: c !in {'+'} by {
      forall c <- pre ensures c !in {'+'} {
        assert IsIdentChar(c) || c == '.';
      }
    }
    PreBoundary(pre, build);
  }

  /** In a '+'-free pre-release followed by the optional "+build", the first '+' is where the build starts. */
  lemma PreBoundary(pre: string, build: string)
    requires forall c <- pre :: c !in {'+'}
    ensures var tail := pre + (if build == "" then "" else "+" + build);
      && Find(tail, {'+'}) == |pre|
      && tail[..|pre|] == pre
      && (build == "" <==> |pre| == |tail|)
      && (build != "" ==> tail[|pre| + 1..] == build)
  {
    var buildText := if build == "" then "" else "+" + build;
    FindConcat(pre, buildText, {'+'});
    PrefixKept(pre, buildText);
    if build != "" {
      assert (pre + buildText)[|pre| + 1..] == build;
    }
  }

  lemma SuffixStringParse(rest: string)
    requires ParseSuffix(rest).Some?
    ensures var (pre, build) := ParseSuffix(rest).value;
      && (pre == "" || IsPrerelease(pre))
      && (build == "" || IsBuild(build))
      && SuffixString(pre, build) == rest
  {
    if |rest| > 0 && rest[0] == '-' {
      var tail := rest[1..];
      var j := Find(tail, {'+'});
      assert rest == "-" + tail;
      if j < |tail| {
        Around(tail, j);
      } else {
        assert tail == tail[..j];
      }
    } else if |rest| > 0 {
      assert rest == "+" + rest[1..];
    }
  }

  /** The text of a valid suffix starts with '-' or '+', where the normal version ends. */
  lemma SuffixStart(pre: string, build: string)
    ensures |SuffixString(pre, build)| == 0 || SuffixString(pre, build)[0] in {'-', '+'}
  {
  }

  /** Printing a valid version and parsing the text gives the version back. */
  lemma ParseFormat(v: Version)
    requires Valid(v)
    ensures Parse(Format(v)) == Some(v)
  {
    var core := CoreString(v.major, v.minor, v.patch);
    var suffix := SuffixString(v.pre, v.build);
    var s := Format(v);
    CoreStringChars(v.major, v.minor, v.patch);
    FindConcat(core, suffix, {'-', '+'});
    SuffixStart(v.pre, v.build);
    var i := Find(s, {'-', '+'});
    assert i == |core|;
    assert s[..i] == core;
    assert s[i..] == suffix;
    ParseCoreString(v.major, v.minor, v.patch);
    ParseSuffixString(v.pre, v.build);
  }

  lemma CoreStringParse(core: string)
    requires ParseCore(core).Some?
    ensures var (major, minor, patch) := ParseCore(core).value;
      CoreString(major, minor, patch) == core
  {
    var parts := Split(core, '.');
    NumericRoundTrip(parts[0]);
    NumericRoundTrip(parts[1]);
    NumericRoundTrip(parts[2]);
    JoinSplit(core, '.');
    assert parts == [parts[0], parts[1], parts[2]];
    Join3(parts[0], parts[1], parts[2], ".");
  }

  /** Whatever parses prints back as the very same text, and is a valid version. */
  lemma FormatParse(s: string)
    requires Parse(s).Some?
    ensures Valid(Parse(s).value)
    ensures Format(Parse(s).value) == s
  {
    var i := Find(s, {'-', '+'});
    CoreStringParse(s[..i]);
    SuffixStringParse(s[i..]);
    assert s == s[..i] + s[i..];
  }

  /**
    strconv.Itoa of any 64-bit integer is a pre-release identifier: a numeric
    identifier for n >= 0, an alphanumeric one ("-" then digits) below zero.
    So the library's SetPrerelease never rejects what the bump hands it.
   */
  lemma ItoaIsPrerelease(n: int)
    ensures IsPrerelease(Itoa(n))
  {
    var s := Itoa(n);
    var digits := NatToString(if n < 0 then -n else n);
    assert forall c <- digits :: IsDigit(c);
    assert forall c <- s :: IsIdentChar(c);
    SplitNone(s, '.');
    if n < 0 {
      assert !IsDigit(s[0]);
    }
  }

  /** The text of a valid version holds only identifier characters, '.' and '+'. */
  lemma FormatChars(v: Version)
    requires Valid(v)
    ensures forall c <- Format(v) :: IsIdentChar(c) || c == '.' || c == '+'
  {
    CoreStringChars(v.major, v.minor, v.patch);
  }

  /** The normal versions produced by the increments are valid. */
  lemma IncrementsValid(v: Version)
    ensures Valid(IncPatch(v)) && Valid(IncMinor(v)) && Valid(IncMajor(v))
  {
  }
}
