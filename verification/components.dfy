/**
  The version components a build can bump, the list the command line
  accepts (isValidVersion in cmd/build.go) and the narrower check of the
  standalone entry point (isValidSemverComponent in test.go).
 */
module Components {
  import opened Wrappers

  /** VersionNone, VersionPre, VersionPatch, VersionMinor, VersionMajor. */
  datatype Component = NoBump | Pre | Patch | Minor | Major

  /** The command-line spelling of each component. */
  function Name(c: Component): string {
    match c
    case NoBump => "none"
    case Pre => "pre"
    case Patch => "patch"
    case Minor => "minor"
    case Major => "major"
  }

  /** The `Versions` list, in the source's order. */
  const Versions: seq<string> := [Name(NoBump), Name(Pre), Name(Patch), Name(Minor), Name(Major)]

  /** Reads a command-line spelling back as a component. */
  function ComponentOf(s: string): Option<Component> {
    if s == "none" then Some(NoBump)
    else if s == "pre" then Some(Pre)
    else if s == "patch" then Some(Patch)
    else if s == "minor" then Some(Minor)
    else if s == "major" then Some(Major)
    else None
  }

  /** Every component's spelling reads back as that component, and only that spelling does. */
  lemma ComponentOfName(c: Component, s: string)
    ensures ComponentOf(Name(c)) == Some(c)
    ensures ComponentOf(s) == Some(c) ==> s == Name(c)
  {
  }

  /** isValidVersion: a linear search of `Versions`. */
  method IsValidVersion(version: string) returns (valid: bool)
    ensures valid <==> ComponentOf(version).Some?
    ensures valid <==> version in Versions
  {
    for i := 0 to |Versions|
      invariant forall k :: 0 <= k < i ==> Versions[k] != version
    {
      if Versions[i] == version {
        return true;
      }
    }
    assert version != Versions[0] && version != Versions[1] && version != Versions[2];
    assert version != Versions[3] && version != Versions[4];
    return false;
  }

  /**
    isValidSemverComponent: accepts exactly the three components that
    change the normal version. "none" and "pre", which isValidVersion
    accepts, are refused, and so is every other string ("" and "Major" too).
   */
  function IsValidSemverComponent(component: string): (valid: bool)
    ensures valid <==> ComponentOf(component) in {Some(Patch), Some(Minor), Some(Major)}
    ensures valid ==> component in Versions
  {
    match component
    case "major" => true
    case "minor" => true
    case "patch" => true
    case _ => false
  }
}
