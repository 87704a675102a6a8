/**
  The docker command lines buildDockerImage runs: the tag references, the
  argument vector of `docker build` and the `docker push` of each tag,
  which stops at the first push that fails.
 */
module Docker {
  import opened Wrappers
  import opened Images

  /** Each version as a reference to the folder's image: registry/folder:version. */
  function Tags(registry: string, folder: string, versions: seq<string>): (tags: seq<string>)
    ensures |tags| == |versions|
    ensures forall i :: 0 <= i < |tags| ==> tags[i] == ImageRef(registry, folder, versions[i])
  {
    if |versions| == 0 then []
    else [ImageRef(registry, folder, versions[0])] + Tags(registry, folder, versions[1..])
  }

  /** "-t" before every tag. */
  function TagFlags(tags: seq<string>): (flags: seq<string>)
    ensures |flags| == 2 * |tags|
    ensures forall i :: 0 <= i < |tags| ==> flags[2 * i] == "-t" && flags[2 * i + 1] == tags[i]
  {
    if |tags| == 0 then []
    else
      var rest := TagFlags(tags[1..]);
      var flags := ["-t", tags[0]] + rest;
      forall i | 1 <= i < |tags| ensures flags[2 * i] == "-t" && flags[2 * i + 1] == tags[i] {
        assert tags[i] == tags[1..][i - 1];
        assert flags[2 * i] == rest[2 * (i - 1)];
        assert flags[2 * i + 1] == rest[2 * (i - 1) + 1];
      }
      flags
  }

  /** The arguments of `docker build --pull -t tag ... path`. */
  function BuildArgs(tags: seq<string>, path: string): (args: seq<string>)
    ensures |args| == 2 * |tags| + 3
    ensures args[0] == "build" && args[1] == "--pull" && args[|args| - 1] == path
    ensures forall i :: 0 <= i < |tags| ==> args[2 * i + 2] == "-t" && args[2 * i + 3] == tags[i]
  {
    ["build", "--pull"] + TagFlags(tags) + [path]
  }

  /** Reads the tags back out of a build's arguments: every second argument after "build --pull". */
  function ArgTags(args: seq<string>): seq<string>
    requires |args| >= 3
  {
    seq((|args| - 3) / 2, i requires 0 <= i < (|args| - 3) / 2 => args[2 * i + 3])
  }

  /** BuildArgs loses nothing: the tags can be read back out of the arguments. */
  lemma ArgTagsOfBuild(tags: seq<string>, path: string)
    ensures ArgTags(BuildArgs(tags, path)) == tags
  {
  }

  function PushArgs(tag: string): seq<string> {
    ["push", tag]
  }

  /**
    Pushing the tags in order: the push commands that run, and the tag
    whose push failed, if one did. A failed push is fatal, so nothing
    after it is pushed.
   */
  function Pushes(tags: seq<string>, failing: set<string>): (r: (seq<seq<string>>, Option<string>))
    ensures |r.0| <= |tags|
    ensures forall i :: 0 <= i < |r.0| ==> r.0[i] == PushArgs(tags[i])
    ensures r.1.None? <==> forall t <- tags :: t !in failing
    ensures r.1.None? ==> |r.0| == |tags|
    ensures r.1.Some? ==>
      && |r.0| > 0 && r.1.value == tags[|r.0| - 1] && r.1.value in failing
      && forall j :: 0 <= j < |r.0| - 1 ==> tags[j] !in failing
    decreases |tags|
  {
    if |tags| == 0 then ([], None)
    else if tags[0] in failing then ([PushArgs(tags[0])], Some(tags[0]))
    else
      var (rest, failed) := Pushes(tags[1..], failing);
      assert forall i :: 1 <= i < |tags| ==> tags[i] == tags[1..][i - 1];
      assert tags == [tags[0]] + tags[1..];
      ([PushArgs(tags[0])] + rest, failed)
  }
}
