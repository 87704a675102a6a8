/**
  Reading and rewriting one image folder: the FROM line of its Dockerfile,
  the version in its VERSION file (generateDependencyMap), and the
  one-line edit that points the FROM line at a new tag (updateDockerFile).
  File contents are values here; reading and writing them is left out.
 */
module Recipe {
  import opened Wrappers
  import opened Text
  import opened SemVer
  import opened Components
  import opened Bump
  import opened Images

  /** The index of the first line starting with "FROM", or |lines| when none does. */
  function FromLineIndex(lines: seq<string>): (i: nat)
    ensures i <= |lines|
    ensures i < |lines| ==> HasPrefix(lines[i], "FROM")
    ensures forall j :: 0 <= j < i ==> !HasPrefix(lines[j], "FROM")
    decreases |lines|
  {
    if |lines| == 0 then 0
    else if HasPrefix(lines[0], "FROM") then 0
    else 1 + FromLineIndex(lines[1..])
  }

  /**
    The FROM reference and its line index: the first line starting with
    "FROM" with its first "FROM " removed, or "" and 0 when there is none.
   */
  function FromOf(lines: seq<string>): (r: (string, nat))
    ensures (forall j :: 0 <= j < |lines| ==> !HasPrefix(lines[j], "FROM")) ==> r == ("", 0)
    ensures (exists j :: 0 <= j < |lines| && HasPrefix(lines[j], "FROM")) ==>
      && r.1 < |lines| && HasPrefix(lines[r.1], "FROM")
      && (forall j :: 0 <= j < r.1 ==> !HasPrefix(lines[j], "FROM"))
      && r.0 == RemoveFirst(lines[r.1], "FROM ")
  {
    var i := FromLineIndex(lines);
    if i < |lines| then (RemoveFirst(lines[i], "FROM "), i) else ("", 0)
  }

  /** The first line of a VERSION file; a file that cannot be read counts as empty. */
  function ReadVersion(versionFile: Option<string>): (version: string)
    ensures '\n' !in version
    ensures versionFile.Some? ==> HasPrefix(versionFile.value, version)
    ensures versionFile.Some? && |version| < |versionFile.value| ==> versionFile.value[|version|] == '\n'
    ensures versionFile.None? ==> version == ""
  {
    var content := versionFile.GetOr("");
    SplitHead(content, '\n');
    Split(content, '\n')[0]
  }

  /** A node is well formed when its FROM index is a line and no line or version holds a newline. */
  predicate WellFormed(n: Node) {
    && n.fromLine < |n.dockerFile|
    && (forall l <- n.dockerFile :: '\n' !in l)
    && '\n' !in n.version
  }

  /** One image folder as generateDependencyMap reads it. */
  function ScanImage(registry: string, name: string, dockerfile: string, versionFile: Option<string>): (n: Node)
    ensures WellFormed(n)
    ensures n.name == name && n.status == NotStarted
    ensures n.image == ImageRef(registry, name, n.version)
    ensures n.dockerFile == Split(dockerfile, '\n')
    ensures Join(n.dockerFile, "\n") == dockerfile
    ensures versionFile.Some? ==> HasPrefix(versionFile.value, n.version)
    ensures (n.fromImage, n.fromLine) == FromOf(n.dockerFile)
  {
    var lines := Split(dockerfile, '\n');
    JoinSplit(dockerfile, '\n');
    var (fromImage, fromLine) := FromOf(lines);
    var version := ReadVersion(versionFile);
    Node(name, ImageRef(registry, name, version), version, fromImage, lines, fromLine, NotStarted)
  }

  /**
    Every folder of the map reads as generateDependencyMap reads it: well
    formed, tagged registry/folder:version, with the reference of its
    first FROM line.
   */
  predicate Consistent(registry: string, g: Graph) {
    forall k <- g.Keys ::
      && WellFormed(g[k])
      && g[k].image == ImageRef(registry, k, g[k].version)
      && (g[k].fromImage, g[k].fromLine) == FromOf(g[k].dockerFile)
  }

  /** One directory entry: its name, its Dockerfile and its VERSION file (None when unreadable). */
  datatype Entry = Entry(name: string, dockerfile: Option<string>, versionFile: Option<string>)

  /** No entry after the i-th has its name and a readable Dockerfile: the i-th is the one the map keeps. */
  predicate LastRead(entries: seq<Entry>, i: nat)
    requires i < |entries|
  {
    forall j :: i < j < |entries| ==> entries[j].name != entries[i].name || entries[j].dockerfile.None?
  }

  /**
    generateDependencyMap over a directory listing: a node for every entry
    with a readable Dockerfile; entries without one are skipped.
   */
  function Scan(registry: string, entries: seq<Entry>): (g: Graph)
    ensures forall k :: k in g <==> exists e <- entries :: e.name == k && e.dockerfile.Some?
    ensures forall k <- g.Keys :: g[k].name == k && g[k].status == NotStarted
    ensures Consistent(registry, g)
    ensures forall i :: 0 <= i < |entries| && entries[i].dockerfile.Some? && LastRead(entries, i) ==>
      g[entries[i].name] == ScanImage(registry, entries[i].name, entries[i].dockerfile.value, entries[i].versionFile)
    decreases |entries|
  {
    if |entries| == 0 then map[]
    else
      var prefix := entries[..|entries| - 1];
      var last := entries[|entries| - 1];
      var g := Scan(registry, prefix);
      var h := if last.dockerfile.None? then g
               else g[last.name := ScanImage(registry, last.name, last.dockerfile.value, last.versionFile)];
      assert entries == prefix + [last];
      ScanKeys(entries, prefix, last, g, h);
      ScanNodes(registry, last, g, h);
      assert forall i :: 0 <= i < |prefix| && prefix[i].dockerfile.Some? ==> prefix[i].name in g by {
        forall i | 0 <= i < |prefix| && prefix[i].dockerfile.Some? ensures prefix[i].name in g {
          assert prefix[i] in prefix;
        }
      }
      ScanKept(registry, entries, prefix, last, g, h);
      h
  }

  /** The map Scan adds the last entry to keeps its nodes consistent. */
  lemma ScanNodes(registry: string, last: Entry, g: Graph, h: Graph)
    requires forall k <- g.Keys :: g[k].name == k && g[k].status == NotStarted
    requires Consistent(registry, g)
    requires h == if last.dockerfile.None? then g
                  else g[last.name := ScanImage(registry, last.name, last.dockerfile.value, last.versionFile)]
    ensures forall k <- h.Keys :: h[k].name == k && h[k].status == NotStarted
    ensures Consistent(registry, h)
  {
  }

  lemma ScanKeys(entries: seq<Entry>, prefix: seq<Entry>, last: Entry, g: Graph, h: Graph)
    requires entries == prefix + [last]
    requires forall k :: k in g <==> exists e <- prefix :: e.name == k && e.dockerfile.Some?
    requires h.Keys == if last.dockerfile.None? then g.Keys else g.Keys + {last.name}
    ensures forall k :: k in h <==> exists e <- entries :: e.name == k && e.dockerfile.Some?
  {
    assert forall e :: e in entries <==> e in prefix || e == last;
  }

  lemma ScanKept(registry: string, entries: seq<Entry>, prefix: seq<Entry>, last: Entry, g: Graph, h: Graph)
    requires entries == prefix + [last]
    requires forall i :: 0 <= i < |prefix| && prefix[i].dockerfile.Some? ==> prefix[i].name in g
    requires forall i :: 0 <= i < |prefix| && prefix[i].dockerfile.Some? && LastRead(prefix, i) ==>
      g[prefix[i].name] == ScanImage(registry, prefix[i].name, prefix[i].dockerfile.value, prefix[i].versionFile)
    requires h == if last.dockerfile.None? then g
                  else g[last.name := ScanImage(registry, last.name, last.dockerfile.value, last.versionFile)]
    ensures forall i :: 0 <= i < |entries| && entries[i].dockerfile.Some? ==> entries[i].name in h
    ensures forall i :: 0 <= i < |entries| && entries[i].dockerfile.Some? && LastRead(entries, i) ==>
      h[entries[i].name] == ScanImage(registry, entries[i].name, entries[i].dockerfile.value, entries[i].versionFile)
  {
    forall i | 0 <= i < |entries| && entries[i].dockerfile.Some? ensures entries[i].name in h {
      if i < |prefix| {
        assert entries[i] == prefix[i];
      }
    }
    forall i | 0 <= i < |entries| && entries[i].dockerfile.Some? && LastRead(entries, i)
      ensures h[entries[i].name] == ScanImage(registry, entries[i].name, entries[i].dockerfile.value, entries[i].versionFile)
    {
      if i < |prefix| {
        assert entries[i] == prefix[i];
        assert LastRead(prefix, i) by {
          forall j | i < j < |prefix| ensures prefix[j].name != prefix[i].name || prefix[j].dockerfile.None? {
            assert prefix[j] == entries[j];
          }
        }
        assert entries[|entries| - 1] == last;
      }
    }
  }

  /** Why updateDockerFile stops the run. */
  datatype RewriteError =
    | NoSuchLine        // the FROM index is past the end: an index-out-of-range panic
    | Untagged(line: string)     // no ':' so there is no second part: an index-out-of-range panic
    | Unparsable(line: string)   // more than one ':': "Can't parse FROM", a fatal log

  /**
    The FROM line edit: split on ':', the line must have exactly two parts;
    the part after the colon is replaced by its bumped version.
   */
  function RewriteLine(line: string, c: Component): (r: Result<string, RewriteError>)
    ensures r.Success? <==> Count(line, ':') == 1
    ensures Count(line, ':') == 0 ==> r == Failure(Untagged(line))
    ensures Count(line, ':') > 1 ==> r == Failure(Unparsable(line))
  {
    var parts := Split(line, ':');
    if |parts| > 2 then Failure(Unparsable(line))
    else if |parts| < 2 then Failure(Untagged(line))
    else Success(parts[0] + ":" + BumpVersion(parts[1], c)[0])
  }

  /**
    A rewritten FROM line still carries exactly one ':' and, like the line
    it came from, no newline: it stays a single line that the next edit can
    split again.
   */
  lemma RewriteLineShape(line: string, c: Component)
    requires RewriteLine(line, c).Success?
    ensures Count(RewriteLine(line, c).value, ':') == 1
    ensures '\n' !in line ==> '\n' !in RewriteLine(line, c).value
  {
    var parts := Split(line, ':');
    var tag := BumpVersion(parts[1], c)[0];
    SplitTwo(line, ':');
    BumpAddsNoChar(parts[1], c, ':');
    CountConcat(parts[0] + ":", tag, ':');
    CountConcat(parts[0], ":", ':');
    if '\n' !in line {
      assert '\n' !in parts[1];
      BumpAddsNoChar(parts[1], c, '\n');
    }
  }

  /**
    updateDockerFile's edit of the Dockerfile: only the line at the FROM
    index changes; it must exist and carry exactly one ':'.
   */
  function RewriteFrom(lines: seq<string>, idx: nat, c: Component): (r: Result<seq<string>, RewriteError>)
    ensures r.Success? <==> idx < |lines| && Count(lines[idx], ':') == 1
    ensures r.Success? ==> |r.value| == |lines|
    ensures r.Success? ==> forall i :: 0 <= i < |lines| && i != idx ==> r.value[i] == lines[i]
    ensures r.Success? ==> Success(r.value[idx]) == RewriteLine(lines[idx], c)
  {
    if idx >= |lines| then Failure(NoSuchLine)
    else
      match RewriteLine(lines[idx], c)
      case Failure(e) => Failure(e)
      case Success(line) => Success(lines[idx := line])
  }

  /** The content updateVersionFile writes: the first tag of the bump, then a newline. */
  function VersionContent(version: string, c: Component): string {
    BumpVersion(version, c)[0] + "\n"
  }

  /** Reading the VERSION file just written gives back the bumped version. */
  lemma VersionReadBack(version: string, c: Component)
    requires '\n' !in version
    ensures ReadVersion(Some(VersionContent(version, c))) == BumpVersion(version, c)[0]
  {
    var tag := BumpVersion(version, c)[0];
    BumpAddsNoChar(version, c, '\n');
    SplitPair(tag, '\n', "");
    assert tag + "\n" == tag + ['\n'] + "";
  }

  /**
    A line naming registry/name:version after a prefix such as "FROM ",
    with no ':' in any of the four, is rewritten to name registry/name at
    the bumped version.
   */
  lemma RewriteEdge(prefix: string, registry: string, name: string, version: string, c: Component)
    requires ':' !in prefix && ':' !in registry && ':' !in name && ':' !in version
    ensures RewriteLine(prefix + ImageRef(registry, name, version), c)
      == Success(prefix + ImageRef(registry, name, BumpVersion(version, c)[0]))
  {
    var head := prefix + registry + "/" + name;
    var tag := BumpVersion(version, c)[0];
    RefAround(prefix, registry, name, version);
    RefAround(prefix, registry, name, tag);
    RewriteAround(head, version, c);
  }

  lemma RefAround(prefix: string, registry: string, name: string, version: string)
    ensures prefix + ImageRef(registry, name, version) == (prefix + registry + "/" + name) + [':'] + version
  {
  }

  /**
    The edit itself: a line holding one ':' is the colon-free text before
    it, the ':' and the colon-free tag after it; the text before is kept
    and the tag is replaced by the first tag of its bump.
   */
  lemma RewriteAround(head: string, tag: string, c: Component)
    requires ':' !in head && ':' !in tag
    ensures RewriteLine(head + [':'] + tag, c) == Success(head + ":" + BumpVersion(tag, c)[0])
  {
    SplitPair(head, ':', tag);
  }

  /**
    A registry that carries a port ("localhost:5000") puts a second ':' on
    every FROM line naming it, and the edit refuses such a line.
   */
  lemma RewritePortRegistry(registry: string, name: string, version: string, c: Component)
    requires ':' in registry
    ensures var line := "FROM " + ImageRef(registry, name, version);
      RewriteLine(line, c) == Failure(Unparsable(line))
  {
    var head := "FROM " + registry;
    var tail := "/" + name + ":" + version;
    InRight("FROM ", registry, ':');
    InRight("/" + name, ":" + version, ':');
    assert "FROM " + ImageRef(registry, name, version) == head + tail;
    CountBoth(head, tail, ':');
  }

  /** Replacing the FROM line by another line starting with "FROM" keeps it the first such line. */
  lemma FromLineKept(lines: seq<string>, line: string)
    requires FromLineIndex(lines) < |lines| && HasPrefix(line, "FROM")
    ensures FromLineIndex(lines[FromLineIndex(lines) := line]) == FromLineIndex(lines)
  {
    var idx := FromLineIndex(lines);
    var updated := lines[idx := line];
    assert forall j :: 0 <= j < idx ==> updated[j] == lines[j];
    assert HasPrefix(updated[idx], "FROM");
  }

  /** A folder's image, once its VERSION file holds a bumped version, is tagged with that version. */
  lemma RescanVersion(registry: string, name: string, dockerfile: string, version: string, c: Component)
    requires '\n' !in version
    ensures ScanImage(registry, name, dockerfile, Some(VersionContent(version, c))).image
      == ImageRef(registry, name, BumpVersion(version, c)[0])
  {
    VersionReadBack(version, c);
  }

  /**
    A Dockerfile whose FROM line is replaced by another "FROM " line, read
    again, names what follows "FROM " on the new line.
   */
  lemma RescanFrom(registry: string, name: string, lines: seq<string>, newLine: string, versionFile: Option<string>)
    requires FromLineIndex(lines) < |lines|
    requires forall l <- lines :: '\n' !in l
    requires '\n' !in newLine && HasPrefix(newLine, "FROM ")
    ensures var updated := lines[FromLineIndex(lines) := newLine];
      ScanImage(registry, name, Join(updated, "\n"), versionFile).fromImage == newLine[5..]
  {
    var updated := lines[FromLineIndex(lines) := newLine];
    UpdateFree(lines, FromLineIndex(lines), newLine, '\n', updated);
    Rescan(registry, name, updated, versionFile);
    FromKept(lines, newLine);
  }

  /** Lines free of newlines, joined and read again, name the FROM reference of those lines. */
  lemma Rescan(registry: string, name: string, lines: seq<string>, versionFile: Option<string>)
    requires |lines| >= 1
    requires forall i :: 0 <= i < |lines| ==> '\n' !in lines[i]
    ensures ScanImage(registry, name, Join(lines, "\n"), versionFile).fromImage == FromOf(lines).0
  {
    SplitJoin(lines, '\n');
  }

  /** A line starting with "FROM " starts with "FROM". */
  lemma FromSpace(line: string)
    requires HasPrefix(line, "FROM ")
    ensures HasPrefix(line, "FROM")
  {
    assert line[..4] == line[..5][..4];
  }

  /** After the FROM line is replaced by another "FROM " line, the FROM reference is what follows "FROM ". */
  lemma FromKept(lines: seq<string>, newLine: string)
    requires FromLineIndex(lines) < |lines| && HasPrefix(newLine, "FROM ")
    ensures FromOf(lines[FromLineIndex(lines) := newLine]).0 == newLine[5..]
  {
    FromSpace(newLine);
    FromLineKept(lines, newLine);
    RemoveLeading(newLine, "FROM ");
  }

  /**
    The dependency edge survives the bump. When a child's FROM line is
    "FROM " followed by its parent's image, and neither the registry, the
    parent's name nor its version holds a ':', the rewritten Dockerfile,
    read again, names exactly the image the parent has once its new
    VERSION file is read again.
   */
  lemma EdgeSurvives(registry: string, c: Component,
                     parent: string, parentDockerfile: string, parentVersionFile: Option<string>,
                     child: string, childDockerfile: string, childVersionFile: Option<string>)
    requires var p := ScanImage(registry, parent, parentDockerfile, parentVersionFile);
      var n := ScanImage(registry, child, childDockerfile, childVersionFile);
      && n.fromImage == p.image
      && HasPrefix(n.dockerFile[n.fromLine], "FROM ")
      && ':' !in registry && ':' !in parent && ':' !in p.version
    ensures var p := ScanImage(registry, parent, parentDockerfile, parentVersionFile);
      var n := ScanImage(registry, child, childDockerfile, childVersionFile);
      var r := RewriteFrom(n.dockerFile, n.fromLine, c);
      && r.Success?
      && ScanImage(registry, child, Join(r.value, "\n"), childVersionFile).fromImage
         == ScanImage(registry, parent, parentDockerfile, Some(VersionContent(p.version, c))).image
  {
    var p := ScanImage(registry, parent, parentDockerfile, parentVersionFile);
    var n := ScanImage(registry, child, childDockerfile, childVersionFile);
    FromLineOf(registry, child, childDockerfile, childVersionFile);
    LinesEdge(registry, c, parent, p.version, child, n.dockerFile, childVersionFile);
    RescanVersion(registry, parent, parentDockerfile, p.version, c);
  }

  /** A FROM line that starts with "FROM " is the first line starting with "FROM", and holds "FROM " and the reference. */
  lemma FromLineOf(registry: string, name: string, dockerfile: string, versionFile: Option<string>)
    requires var n := ScanImage(registry, name, dockerfile, versionFile);
      HasPrefix(n.dockerFile[n.fromLine], "FROM ")
    ensures var n := ScanImage(registry, name, dockerfile, versionFile);
      && n.fromLine == FromLineIndex(n.dockerFile)
      && n.dockerFile[n.fromLine] == "FROM " + n.fromImage
  {
    var n := ScanImage(registry, name, dockerfile, versionFile);
    var line := n.dockerFile[n.fromLine];
    FromSpace(line);
    RemoveLeading(line, "FROM ");
  }

  /**
    The edit of a Dockerfile whose FROM line names registry/parent:version,
    read again: the FROM reference is registry/parent at the bumped version.
   */
  lemma LinesEdge(registry: string, c: Component, parent: string, version: string,
                  child: string, lines: seq<string>, childVersionFile: Option<string>)
    requires FromLineIndex(lines) < |lines|
    requires forall l <- lines :: '\n' !in l
    requires lines[FromLineIndex(lines)] == "FROM " + ImageRef(registry, parent, version)
    requires ':' !in registry && ':' !in parent && ':' !in version
    ensures var r := RewriteFrom(lines, FromLineIndex(lines), c);
      && r.Success?
      && ScanImage(registry, child, Join(r.value, "\n"), childVersionFile).fromImage
         == ImageRef(registry, parent, BumpVersion(version, c)[0])
  {
    var idx := FromLineIndex(lines);
    var newLine := "FROM " + ImageRef(registry, parent, BumpVersion(version, c)[0]);
    LineEdge(registry, c, parent, version, lines[idx]);
    PrefixKept("FROM ", ImageRef(registry, parent, BumpVersion(version, c)[0]));
    assert RewriteFrom(lines, idx, c) == Success(lines[idx := newLine]);
    RescanFrom(registry, child, lines, newLine, childVersionFile);
  }

  /** The FROM line naming registry/parent:version is rewritten to a single line naming the bumped version. */
  lemma LineEdge(registry: string, c: Component, parent: string, version: string, line: string)
    requires '\n' !in line
    requires line == "FROM " + ImageRef(registry, parent, version)
    requires ':' !in registry && ':' !in parent && ':' !in version
    ensures RewriteLine(line, c) == Success("FROM " + ImageRef(registry, parent, BumpVersion(version, c)[0]))
    ensures '\n' !in RewriteLine(line, c).value
  {
    assert ':' !in "FROM ";
    RewriteEdge("FROM ", registry, parent, version, c);
    RewriteLineShape(line, c);
  }

  /** An image reference holds at least the ':' before its version. */
  lemma RefColon(registry: string, name: string, version: string)
    ensures Count(ImageRef(registry, name, version), ':') >= 1
  {
    CountConcat(registry + "/" + name, ":" + version, ':');
    CountConcat(":", version, ':');
  }

  /** A reference with a single ':' names one folder: two folders whose images are that reference are the same. */
  lemma RefNamesOne(registry: string, a: string, va: string, b: string, vb: string)
    requires ImageRef(registry, a, va) == ImageRef(registry, b, vb)
    requires Count(ImageRef(registry, a, va), ':') == 1
    ensures a == b
  {
    var ha := registry + "/" + a;
    var hb := registry + "/" + b;
    RefAround("", registry, a, va);
    RefAround("", registry, b, vb);
    OnlyColon(ha, va);
    OnlyColon(hb, vb);
    SameHead(ha, va, hb, vb, ':');
    assert a == ha[|registry| + 1..] && b == hb[|registry| + 1..];
  }

  /** A text with one ':' holds none before or after it. */
  lemma OnlyColon(h: string, v: string)
    requires Count(h + [':'] + v, ':') == 1
    ensures ':' !in h
  {
    CountConcat(h + [':'], v, ':');
    CountConcat(h, [':'], ':');
  }

  /** Texts that agree, each with a first `c` after a `c`-free head, have the same head. */
  lemma SameHead(ha: string, va: string, hb: string, vb: string, c: char)
    requires c !in ha && c !in hb && ha + [c] + va == hb + [c] + vb
    ensures ha == hb
  {
    FindAfter(ha, c, va);
    FindAfter(hb, c, vb);
    assert ha == (ha + [c] + va)[..|ha|];
    assert hb == (hb + [c] + vb)[..|hb|];
  }

  /** A FROM line the edit accepts holds one ':', and so does the reference read from it, if there is one. */
  lemma FromColons(n: Node, c: Component)
    requires (n.fromImage, n.fromLine) == FromOf(n.dockerFile)
    requires RewriteFrom(n.dockerFile, n.fromLine, c).Success?
    ensures n.fromImage == "" || Count(n.fromImage, ':') == 1
  {
    CountRemove(n.dockerFile[n.fromLine], "FROM ", ':');
  }

  /**
    A folder of a consistent map whose FROM line the edit accepts is built
    FROM at most one folder: its reference, holding a single ':', names
    one folder.
   */
  lemma SoleParentOf(registry: string, g: Graph, x: string, c: Component)
    requires Consistent(registry, g) && x in g
    requires RewriteFrom(g[x].dockerFile, g[x].fromLine, c).Success?
    ensures SoleParent(g, x)
  {
    FromColons(g[x], c);
    forall a, b | IsDependent(g, a, x) && IsDependent(g, b, x) ensures a == b {
      RefColon(registry, a, g[a].version);
      RefNamesOne(registry, a, g[a].version, b, g[b].version);
    }
  }
}
