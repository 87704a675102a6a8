/**
  The work done at one visit: updateVersionFile and updateDockerFile in
  the update phase, buildDockerImage in the build phase. The state holds
  the dependency map, the files written (by folder) and the docker
  commands run; reading and writing files and running docker are values
  here. A fatal log or a panic ends the run: `halt` records why, and every
  later step leaves the state alone.
 */
module Steps {
  import opened Wrappers
  import opened Text
  import opened Components
  import opened Bump
  import opened Images
  import opened Recipe
  import opened Traversal
  import opened Docker

  /** Why a run stopped early. */
  datatype Halt =
    | MissingImage(name: string)                          // a folder not in the map: nil-pointer panic
    | EndlessRecursion(name: string)                      // a dependency cycle: the recursion never returns
    | BadFromLine(name: string, error: RewriteError)      // updateDockerFile could not edit the FROM line
    | PushFailed(tag: string)                             // "Docker push failed": a fatal log

  /** Which docker builds and which pushes fail: the outcome of the commands run. */
  datatype Oracle = Oracle(failingBuilds: set<string>, failingPushes: set<string>)

  datatype Phase = UpdatePhase | BuildPhase

  /**
    The dependency map; the VERSION files and Dockerfiles written, by
    folder; the arguments of every docker command run, in order.
   */
  datatype State = State(
    g: Graph,
    versionFiles: map<string, string>,
    dockerFiles: map<string, string>,
    commands: seq<seq<string>>,
    halt: Option<Halt>)

  /** `h` is `g` with at most the Dockerfile lines and the build status of some folders changed. */
  predicate Evolves(g: Graph, h: Graph) {
    && g.Keys == h.Keys
    && forall k <- g.Keys :: h[k] == g[k].(dockerFile := h[k].dockerFile, status := h[k].status)
  }

  /** `h` has the folders of `g`, each with the same Dockerfile lines. */
  predicate SameLines(g: Graph, h: Graph) {
    g.Keys == h.Keys && forall k <- g.Keys :: h[k].dockerFile == g[k].dockerFile
  }

  /** `h` has the folders of `g`, each with the same build status. */
  predicate SameStatuses(g: Graph, h: Graph) {
    g.Keys == h.Keys && forall k <- g.Keys :: h[k].status == g[k].status
  }

  /** updateVersionFile: the bumped version and a newline, written unless it is a dry run. */
  function UpdateVersionFile(cfg: Config, st: State, name: string): (r: State)
    requires name in st.g
    ensures r.g == st.g && r.dockerFiles == st.dockerFiles && r.commands == st.commands && r.halt == st.halt
    ensures cfg.dryRun ==> r.versionFiles == st.versionFiles
    ensures !cfg.dryRun ==> r.versionFiles == st.versionFiles[name := VersionContent(st.g[name].version, cfg.component)]
    ensures !cfg.dryRun && '\n' !in st.g[name].version ==>
      ReadVersion(Some(r.versionFiles[name])) == BumpVersion(st.g[name].version, cfg.component)[0]
  {
    if cfg.dryRun then st
    else
      var version := st.g[name].version;
      var content := VersionContent(version, cfg.component);
      assert '\n' !in version ==> ReadVersion(Some(content)) == BumpVersion(version, cfg.component)[0] by {
        if '\n' !in version {
          VersionReadBack(version, cfg.component);
        }
      }
      st.(versionFiles := st.versionFiles[name := content])
  }

  /**
    updateDockerFile: the FROM line is edited in the map's copy of the
    Dockerfile even in a dry run; the file is written only outside one.
   */
  function UpdateDockerFile(cfg: Config, st: State, name: string): (r: State)
    requires name in st.g
    ensures Evolves(st.g, r.g)
    ensures var e := RewriteFrom(st.g[name].dockerFile, st.g[name].fromLine, cfg.component);
      && (e.Failure? ==> r == st.(halt := Some(BadFromLine(name, e.error))))
      && (e.Success? ==>
            && r.halt == st.halt && r.versionFiles == st.versionFiles && r.commands == st.commands
            && r.g == st.g[name := st.g[name].(dockerFile := e.value)]
            && r.dockerFiles == if cfg.dryRun then st.dockerFiles else st.dockerFiles[name := Join(e.value, "\n")])
    ensures r.halt.None? && !cfg.dryRun && WellFormed(st.g[name]) ==>
      Split(r.dockerFiles[name], '\n') == r.g[name].dockerFile
  {
    var n := st.g[name];
    var e := RewriteFrom(n.dockerFile, n.fromLine, cfg.component);
    if e.Failure? then st.(halt := Some(BadFromLine(name, e.error)))
    else
      var g := st.g[name := n.(dockerFile := e.value)];
      assert Evolves(st.g, g);
      if cfg.dryRun then st.(g := g)
      else
        EditedSplits(n, cfg.component);
        st.(g := g, dockerFiles := st.dockerFiles[name := Join(e.value, "\n")])
  }

  /** The edited lines of a well-formed node are free of newlines, so the file written splits back into them. */
  lemma EditedSplits(n: Node, c: Component)
    ensures var e := RewriteFrom(n.dockerFile, n.fromLine, c);
      WellFormed(n) && e.Success? ==> Split(Join(e.value, "\n"), '\n') == e.value
  {
    var e := RewriteFrom(n.dockerFile, n.fromLine, c);
    if WellFormed(n) && e.Success? {
      var lines := e.value;
      RewriteLineShape(n.dockerFile[n.fromLine], c);
      assert forall i :: 0 <= i < |lines| ==> '\n' !in lines[i] by {
        forall i | 0 <= i < |lines| ensures '\n' !in lines[i] {
          if i != n.fromLine {
            assert lines[i] == n.dockerFile[i];
          }
        }
      }
      SplitJoin(lines, '\n');
    }
  }

  /** One folder of updateVersions: its VERSION file, then, below the top level, its Dockerfile. */
  function UpdateStep(cfg: Config, st: State, v: Visit): (r: State)
    requires v.name in st.g
    ensures Evolves(st.g, r.g)
  {
    var st1 := UpdateVersionFile(cfg, st, v.name);
    if v.parent.Some? then UpdateDockerFile(cfg, st1, v.name) else st1
  }

  /** The tags buildDockerImage builds: the bump list and "latest", as registry/folder:tag. */
  function BuildTags(cfg: Config, g: Graph, name: string): (tags: seq<string>)
    requires name in g
    ensures |tags| == 2 || |tags| == 4
    ensures |tags| == |BumpVersion(g[name].version, cfg.component)| + 1
    ensures forall i :: 0 <= i < |tags| - 1 ==> tags[i] == ImageRef(cfg.registry, name, BumpVersion(g[name].version, cfg.component)[i])
    ensures tags[0] == ImageRef(cfg.registry, name, BumpVersion(g[name].version, cfg.component)[0])
    ensures tags[|tags| - 1] == ImageRef(cfg.registry, name, "latest")
  {
    Tags(cfg.registry, name, BumpVersion(g[name].version, cfg.component) + ["latest"])
  }

  /** The status a docker build leaves. */
  function Outcome(oracle: Oracle, name: string): Status {
    if name in oracle.failingBuilds then Failed else Succeeded
  }

  /**
    buildDockerImage. Outside a dry run the build runs and the status
    becomes "failed" or "success"; in a dry run nothing runs and the status
    stays. Unless pushing is off, every tag is then pushed, whatever the
    build did; a dry run only logs the pushes.
   */
  function BuildImage(cfg: Config, oracle: Oracle, st: State, name: string): (r: State)
    requires name in st.g
    ensures Evolves(st.g, r.g)
    ensures r.versionFiles == st.versionFiles && r.dockerFiles == st.dockerFiles
    ensures cfg.dryRun ==> r == st
    ensures !cfg.dryRun ==> r.g == st.g[name := st.g[name].(status := Outcome(oracle, name))]
    ensures !cfg.dryRun ==>
      var tags := BuildTags(cfg, st.g, name);
      var pushes := Pushes(tags, oracle.failingPushes);
      && r.commands == st.commands + [BuildArgs(tags, cfg.basePath + "/" + name)] + (if cfg.noPush then [] else pushes.0)
      && r.halt == (if cfg.noPush || pushes.1.None? then st.halt else Some(PushFailed(pushes.1.value)))
  {
    var tags := BuildTags(cfg, st.g, name);
    if cfg.dryRun then st
    else
      var built := DockerBuild(oracle, st, name, BuildArgs(tags, cfg.basePath + "/" + name));
      if cfg.noPush then built else DockerPush(oracle, built, tags)
  }

  /** `docker build` runs and the status records its outcome. */
  function DockerBuild(oracle: Oracle, st: State, name: string, args: seq<string>): (r: State)
    requires name in st.g
    ensures Evolves(st.g, r.g)
    ensures r.g == st.g[name := st.g[name].(status := Outcome(oracle, name))]
    ensures r.versionFiles == st.versionFiles && r.dockerFiles == st.dockerFiles
    ensures r.commands == st.commands + [args] && r.halt == st.halt
  {
    st.(g := st.g[name := st.g[name].(status := Outcome(oracle, name))], commands := st.commands + [args])
  }

  /** `docker push` of each tag, until one fails. */
  function DockerPush(oracle: Oracle, st: State, tags: seq<string>): (r: State)
    ensures r.g == st.g && r.versionFiles == st.versionFiles && r.dockerFiles == st.dockerFiles
    ensures var pushes := Pushes(tags, oracle.failingPushes);
      && r.commands == st.commands + pushes.0
      && r.halt == (if pushes.1.None? then st.halt else Some(PushFailed(pushes.1.value)))
  {
    var (pushes, failed) := Pushes(tags, oracle.failingPushes);
    match failed
    case None => st.(commands := st.commands + pushes)
    case Some(tag) => st.(commands := st.commands + pushes, halt := Some(PushFailed(tag)))
  }

  /** One visit in either phase; a halted run does nothing more, and a folder not in the map halts it. */
  function Step(cfg: Config, oracle: Oracle, phase: Phase, st: State, v: Visit): (r: State)
    ensures Evolves(st.g, r.g)
    ensures st.halt.Some? ==> r == st
  {
    if st.halt.Some? then st
    else if v.name !in st.g then st.(halt := Some(MissingImage(v.name)))
    else
      match phase
      case UpdatePhase => UpdateStep(cfg, st, v)
      case BuildPhase => BuildImage(cfg, oracle, st, v.name)
  }

  /** The visits, one step after the other. */
  function Run(cfg: Config, oracle: Oracle, phase: Phase, st: State, visits: seq<Visit>): (r: State)
    ensures Evolves(st.g, r.g)
    ensures st.halt.Some? ==> r == st
    decreases |visits|
  {
    if |visits| == 0 then st
    else Run(cfg, oracle, phase, Step(cfg, oracle, phase, st, visits[0]), visits[1..])
  }

  /** The halt a walk's end causes. */
  function StopHalt(stop: Stop): Option<Halt> {
    match stop
    case Complete => None
    case Unknown(name) => Some(MissingImage(name))
    case Repeats(name) => Some(EndlessRecursion(name))
  }

  /** After the visits, the end of the walk: a missing folder or a cycle halts a run that is still going. */
  function Finish(st: State, stop: Stop): State {
    if st.halt.None? then st.(halt := StopHalt(stop)) else st
  }

  /** Every Dockerfile written holds the map's lines for that folder, joined with newlines. */
  predicate Synced(st: State) {
    forall k <- st.dockerFiles.Keys :: k in st.g && st.dockerFiles[k] == Join(st.g[k].dockerFile, "\n")
  }

  lemma NamesCons(v: Visit, visits: seq<Visit>)
    ensures Names([v] + visits) == {v.name} + Names(visits)
    ensures Rewritten([v] + visits) == (if v.parent.Some? then {v.name} else {}) + Rewritten(visits)
  {
    assert forall u :: u in [v] + visits <==> u == v || u in visits;
  }

  lemma NamesHead(visits: seq<Visit>)
    requires |visits| > 0
    ensures Names(visits) == {visits[0].name} + Names(visits[1..])
    ensures Rewritten(visits) == (if visits[0].parent.Some? then {visits[0].name} else {}) + Rewritten(visits[1..])
  {
    assert visits == [visits[0]] + visits[1..];
    NamesCons(visits[0], visits[1..]);
  }

  /** One update step that does not halt: what it writes and what it changes. */
  lemma StepUpdate(cfg: Config, oracle: Oracle, st: State, v: Visit)
    requires v.name in st.g && st.halt.None?
    ensures var r := Step(cfg, oracle, UpdatePhase, st, v);
      r.halt.None? ==>
        && r.versionFiles == (if cfg.dryRun then st.versionFiles
                              else st.versionFiles[v.name := VersionContent(st.g[v.name].version, cfg.component)])
        && r.dockerFiles == (if cfg.dryRun || v.parent.None? then st.dockerFiles
                             else st.dockerFiles[v.name := Join(r.g[v.name].dockerFile, "\n")])
        && (v.parent.None? ==> r.g == st.g)
        && (forall k <- st.g.Keys :: k != v.name ==> r.g[k] == st.g[k])
    ensures var r := Step(cfg, oracle, UpdatePhase, st, v);
      && r.commands == st.commands
      && forall k <- st.g.Keys :: r.g[k].status == st.g[k].status
  {
    if v.parent.Some? {
      UpdateBelow(cfg, st, v);
    }
  }

  /** The update step of a folder below the top: its VERSION file, then its Dockerfile. */
  lemma UpdateBelow(cfg: Config, st: State, v: Visit)
    requires v.name in st.g && v.parent.Some?
    ensures var r := UpdateStep(cfg, st, v);
      && (r.halt.None? ==>
        && r.versionFiles == (if cfg.dryRun then st.versionFiles
                              else st.versionFiles[v.name := VersionContent(st.g[v.name].version, cfg.component)])
        && r.dockerFiles == (if cfg.dryRun then st.dockerFiles
                             else st.dockerFiles[v.name := Join(r.g[v.name].dockerFile, "\n")]))
      && (forall k <- st.g.Keys :: k != v.name ==> r.g[k] == st.g[k])
      && r.commands == st.commands
      && forall k <- st.g.Keys :: r.g[k].status == st.g[k].status
  {
    var st1 := UpdateVersionFile(cfg, st, v.name);
    var r := UpdateDockerFile(cfg, st1, v.name);
  }

  /** The VERSION files the update phase writes for the folders `names`: each folder's bumped version. */
  function VersionMap(cfg: Config, g: Graph, names: set<string>): (m: map<string, string>)
    requires names <= g.Keys
    ensures m.Keys == names
  {
    map k | k in names :: VersionContent(g[k].version, cfg.component)
  }

  /**
    The update phase writes the VERSION file of every folder it visits
    (none in a dry run), with the bumped version of the map's version; the
    files of other folders stay as they were.
   */
  lemma {:induction false} RunUpdateVersions(cfg: Config, oracle: Oracle, st: State, visits: seq<Visit>)
    requires forall v <- visits :: v.name in st.g
    ensures Names(visits) <= st.g.Keys
    ensures var r := Run(cfg, oracle, UpdatePhase, st, visits);
      r.halt.None? ==>
        r.versionFiles == if cfg.dryRun then st.versionFiles else st.versionFiles + VersionMap(cfg, st.g, Names(visits))
    decreases |visits|
  {
    if |visits| == 0 {
      assert Names(visits) == {};
    } else if st.halt.None? {
      var v := visits[0];
      var st1 := Step(cfg, oracle, UpdatePhase, st, v);
      NamesHead(visits);
      StepUpdate(cfg, oracle, st, v);
      RunUpdateVersions(cfg, oracle, st1, visits[1..]);
      if Run(cfg, oracle, UpdatePhase, st1, visits[1..]).halt.None? && !cfg.dryRun {
        VersionMapFrame(cfg, st.g, st1.g, Names(visits[1..]));
        VersionMapCons(cfg, st.g, st.versionFiles, v.name, Names(visits[1..]));
      }
    } else {
      assert Names(visits) <= st.g.Keys by {
        assert forall x <- Names(visits) :: exists u <- visits :: u.name == x;
      }
    }
  }

  lemma VersionMapFrame(cfg: Config, g: Graph, h: Graph, names: set<string>)
    requires Evolves(g, h) && names <= g.Keys
    ensures VersionMap(cfg, g, names) == VersionMap(cfg, h, names)
  {
  }

  lemma VersionMapCons(cfg: Config, g: Graph, files: map<string, string>, name: string, names: set<string>)
    requires name in g && names <= g.Keys
    ensures files[name := VersionContent(g[name].version, cfg.component)] + VersionMap(cfg, g, names)
         == files + VersionMap(cfg, g, {name} + names)
  {
    MergeCons(files, VersionMap(cfg, g, names), VersionMap(cfg, g, {name} + names), name);
  }

  lemma MergeEmpty<K, V>(m: map<K, V>)
    ensures map[] + m == m
  {
  }

  lemma MergeCons<K, V>(files: map<K, V>, a: map<K, V>, b: map<K, V>, k: K)
    requires k in b && b.Keys == a.Keys + {k}
    requires forall j <- a.Keys :: a[j] == b[j]
    ensures files[k := b[k]] + a == files + b
  {
    var l := files[k := b[k]] + a;
    var r := files + b;
    assert l.Keys == r.Keys;
    forall j | j in l.Keys ensures l[j] == r[j] {
      if j !in a.Keys && j != k {
        assert l[j] == files[j];
      }
    }
  }

  /** One update step that does not halt keeps the Dockerfiles written in step with the map. */
  lemma StepDockerFiles(cfg: Config, oracle: Oracle, st: State, v: Visit)
    requires v.name in st.g && st.halt.None?
    requires !cfg.dryRun ==> Synced(st)
    ensures !cfg.dryRun ==> Synced(Step(cfg, oracle, UpdatePhase, st, v))
  {
    StepUpdate(cfg, oracle, st, v);
    var r := Step(cfg, oracle, UpdatePhase, st, v);
    if r.halt.Some? {
      assert r.g == st.g && r.dockerFiles == st.dockerFiles;
    } else if !cfg.dryRun {
      forall k | k in r.dockerFiles.Keys ensures k in r.g && r.dockerFiles[k] == Join(r.g[k].dockerFile, "\n") {
        if k != v.name || v.parent.None? {
          assert r.dockerFiles[k] == st.dockerFiles[k];
          assert r.g[k] == st.g[k];
        }
      }
    }
  }

  /**
    The update phase writes the Dockerfile of every folder it visits from
    a parent, and no other (none in a dry run).
   */
  lemma {:induction false} RunUpdateDockerFiles(cfg: Config, oracle: Oracle, st: State, visits: seq<Visit>)
    requires forall v <- visits :: v.name in st.g
    ensures var r := Run(cfg, oracle, UpdatePhase, st, visits);
      r.halt.None? ==> r.dockerFiles.Keys == st.dockerFiles.Keys + (if cfg.dryRun then {} else Rewritten(visits))
    decreases |visits|
  {
    if |visits| > 0 && st.halt.None? {
      var v := visits[0];
      NamesHead(visits);
      StepUpdate(cfg, oracle, st, v);
      RunUpdateDockerFiles(cfg, oracle, Step(cfg, oracle, UpdatePhase, st, v), visits[1..]);
    }
  }

  /** Outside a dry run, every Dockerfile the update phase writes holds the map's lines for its folder. */
  lemma {:induction false} RunSynced(cfg: Config, oracle: Oracle, st: State, visits: seq<Visit>)
    requires !cfg.dryRun && Synced(st)
    requires forall v <- visits :: v.name in st.g
    ensures Synced(Run(cfg, oracle, UpdatePhase, st, visits))
    decreases |visits|
  {
    if |visits| > 0 && st.halt.None? {
      var v := visits[0];
      var st1 := Step(cfg, oracle, UpdatePhase, st, v);
      StepDockerFiles(cfg, oracle, st, v);
      RunSynced(cfg, oracle, st1, visits[1..]);
    }
  }

  /** A folder never visited from a parent keeps its Dockerfile lines through the update phase. */
  lemma {:induction false} RunKeepsLines(cfg: Config, oracle: Oracle, st: State, visits: seq<Visit>, k: string)
    requires forall v <- visits :: v.name in st.g
    requires k in st.g && k !in Rewritten(visits)
    ensures Run(cfg, oracle, UpdatePhase, st, visits).g[k].dockerFile == st.g[k].dockerFile
    decreases |visits|
  {
    if |visits| > 0 && st.halt.None? {
      var v := visits[0];
      var st1 := Step(cfg, oracle, UpdatePhase, st, v);
      NamesHead(visits);
      StepUpdate(cfg, oracle, st, v);
      assert st1.g[k].dockerFile == st.g[k].dockerFile;
      RunKeepsLines(cfg, oracle, st1, visits[1..], k);
    }
  }

  /** The FROM-line edit of folder `k` succeeds on the lines of map `g0`. */
  predicate Editable(c: Component, g0: Graph, k: string) {
    k in g0 && RewriteFrom(g0[k].dockerFile, g0[k].fromLine, c).Success?
  }

  /** Every Dockerfile in `files` holds its folder's lines in `g0` with the FROM line edited once. */
  predicate Edited(c: Component, g0: Graph, files: map<string, string>) {
    forall k <- files.Keys :: Editable(c, g0, k) && files[k] == Join(RewriteFrom(g0[k].dockerFile, g0[k].fromLine, c).value, "\n")
  }

  /** An update step below the top that does not halt replaces the folder's lines by their edit. */
  lemma StepEdit(cfg: Config, oracle: Oracle, st: State, v: Visit)
    requires v.name in st.g && st.halt.None? && v.parent.Some?
    ensures var r := Step(cfg, oracle, UpdatePhase, st, v);
      var e := RewriteFrom(st.g[v.name].dockerFile, st.g[v.name].fromLine, cfg.component);
      r.halt.None? ==> e.Success? && r.g[v.name].dockerFile == e.value
  {
    var st1 := UpdateVersionFile(cfg, st, v.name);
    assert Step(cfg, oracle, UpdatePhase, st, v) == UpdateDockerFile(cfg, st1, v.name);
  }

  /**
    An update run that does not halt edits, at each folder it visits from
    a parent, lines the edit accepts in the map it started from: the first
    such visit still sees those lines.
   */
  lemma {:induction false} RunEditsSucceed(cfg: Config, oracle: Oracle, g0: Graph, st: State, visits: seq<Visit>)
    requires Evolves(g0, st.g)
    requires forall v <- visits :: v.name in st.g
    requires forall x <- Rewritten(visits) :: st.g[x].dockerFile == g0[x].dockerFile || Editable(cfg.component, g0, x)
    ensures Run(cfg, oracle, UpdatePhase, st, visits).halt.None? ==>
      forall x <- Rewritten(visits) :: Editable(cfg.component, g0, x)
    decreases |visits|
  {
    if |visits| > 0 && st.halt.None? {
      assert visits == [visits[0]] + visits[1..];
      SucceedStep(cfg, oracle, g0, st, visits[0], visits[1..]);
      RunEditsSucceed(cfg, oracle, g0, Step(cfg, oracle, UpdatePhase, st, visits[0]), visits[1..]);
    }
  }

  /** One step of `RunEditsSucceed`: the edit it makes succeeds, and the folders still to come keep their standing. */
  lemma SucceedStep(cfg: Config, oracle: Oracle, g0: Graph, st: State, v: Visit, rest: seq<Visit>)
    requires Evolves(g0, st.g) && v.name in st.g && st.halt.None?
    requires forall u <- rest :: u.name in st.g
    requires forall x <- Rewritten([v] + rest) ::
      x in st.g && (st.g[x].dockerFile == g0[x].dockerFile || Editable(cfg.component, g0, x))
    ensures var st1 := Step(cfg, oracle, UpdatePhase, st, v);
      && Evolves(g0, st1.g)
      && (forall x <- Rewritten(rest) :: st1.g[x].dockerFile == g0[x].dockerFile || Editable(cfg.component, g0, x))
      && (st1.halt.None? && v.parent.Some? ==> Editable(cfg.component, g0, v.name))
  {
    NamesCons(v, rest);
    SucceedHead(cfg, oracle, g0, st, v);
    StepUpdate(cfg, oracle, st, v);
  }

  /** The edit a step makes succeeds on the lines the map started with, when it sees them or they already passed. */
  lemma SucceedHead(cfg: Config, oracle: Oracle, g0: Graph, st: State, v: Visit)
    requires Evolves(g0, st.g) && v.name in st.g && st.halt.None?
    requires v.parent.Some? ==> st.g[v.name].dockerFile == g0[v.name].dockerFile || Editable(cfg.component, g0, v.name)
    ensures var st1 := Step(cfg, oracle, UpdatePhase, st, v);
      v.parent.Some? ==>
        && (st1.halt.None? ==> Editable(cfg.component, g0, v.name))
        && (st1.g[v.name].dockerFile == g0[v.name].dockerFile || Editable(cfg.component, g0, v.name))
  {
    if v.parent.Some? {
      StepEdit(cfg, oracle, st, v);
    }
  }

  /**
    Outside a dry run, an update run that visits each folder once writes
    every Dockerfile as the single edit of its lines in the map it started
    from.
   */
  lemma {:induction false} RunEditsOnce(cfg: Config, oracle: Oracle, g0: Graph, st: State, visits: seq<Visit>)
    requires !cfg.dryRun && Once(visits)
    requires Evolves(g0, st.g)
    requires forall v <- visits :: v.name in st.g && st.g[v.name].dockerFile == g0[v.name].dockerFile
    requires Edited(cfg.component, g0, st.dockerFiles)
    ensures Edited(cfg.component, g0, Run(cfg, oracle, UpdatePhase, st, visits).dockerFiles)
    decreases |visits|
  {
    if |visits| > 0 && st.halt.None? {
      var v := visits[0];
      assert forall u <- visits[1..] :: u.name != v.name by {
        forall u | u in visits[1..] ensures u.name != v.name {
          var j :| 0 <= j < |visits[1..]| && visits[1..][j] == u;
          assert visits[j + 1] == u;
        }
      }
      OnceStep(cfg, oracle, g0, st, v, visits[1..]);
      RunEditsOnce(cfg, oracle, g0, Step(cfg, oracle, UpdatePhase, st, v), visits[1..]);
    }
  }

  /** One step of `RunEditsOnce`: the file it writes is the edit of the original lines, and later folders keep theirs. */
  lemma OnceStep(cfg: Config, oracle: Oracle, g0: Graph, st: State, v: Visit, rest: seq<Visit>)
    requires !cfg.dryRun && Evolves(g0, st.g) && st.halt.None?
    requires v.name in st.g && st.g[v.name].dockerFile == g0[v.name].dockerFile
    requires forall u <- rest :: u.name != v.name && u.name in st.g && st.g[u.name].dockerFile == g0[u.name].dockerFile
    requires Edited(cfg.component, g0, st.dockerFiles)
    ensures var st1 := Step(cfg, oracle, UpdatePhase, st, v);
      && Evolves(g0, st1.g)
      && (forall u <- rest :: u.name in st1.g && st1.g[u.name].dockerFile == g0[u.name].dockerFile)
      && Edited(cfg.component, g0, st1.dockerFiles)
  {
    var st1 := Step(cfg, oracle, UpdatePhase, st, v);
    StepUpdate(cfg, oracle, st, v);
    if v.parent.Some? {
      StepEdit(cfg, oracle, st, v);
    }
    if st1.halt.Some? {
      assert st1.dockerFiles == st.dockerFiles;
    }
  }

  /** The update phase runs no docker command and sets no status. */
  lemma {:induction false} RunUpdateQuiet(cfg: Config, oracle: Oracle, st: State, visits: seq<Visit>)
    requires forall v <- visits :: v.name in st.g
    ensures var r := Run(cfg, oracle, UpdatePhase, st, visits);
      r.commands == st.commands && SameStatuses(st.g, r.g)
    decreases |visits|
  {
    if |visits| > 0 {
      if st.halt.None? {
        StepUpdate(cfg, oracle, st, visits[0]);
      }
      RunUpdateQuiet(cfg, oracle, Step(cfg, oracle, UpdatePhase, st, visits[0]), visits[1..]);
    }
  }

  /** A dry run of the build phase changes nothing at all. */
  lemma {:induction false} RunBuildDry(cfg: Config, oracle: Oracle, st: State, visits: seq<Visit>)
    requires cfg.dryRun
    requires forall v <- visits :: v.name in st.g
    ensures Run(cfg, oracle, BuildPhase, st, visits) == st
    decreases |visits|
  {
    if |visits| > 0 {
      RunBuildDry(cfg, oracle, Step(cfg, oracle, BuildPhase, st, visits[0]), visits[1..]);
    }
  }

  /** The build phase writes no file and changes no Dockerfile line, even when it halts. */
  lemma {:induction false} RunBuildKeeps(cfg: Config, oracle: Oracle, st: State, visits: seq<Visit>)
    ensures var r := Run(cfg, oracle, BuildPhase, st, visits);
      r.versionFiles == st.versionFiles && r.dockerFiles == st.dockerFiles && SameLines(st.g, r.g)
    decreases |visits|
  {
    if |visits| > 0 {
      var st1 := Step(cfg, oracle, BuildPhase, st, visits[0]);
      assert st1.versionFiles == st.versionFiles && st1.dockerFiles == st.dockerFiles;
      assert SameLines(st.g, st1.g);
      RunBuildKeeps(cfg, oracle, st1, visits[1..]);
    }
  }

  /** One build step outside a dry run: the status it sets and what it leaves alone. */
  lemma StepBuild(cfg: Config, oracle: Oracle, st: State, v: Visit)
    requires !cfg.dryRun && v.name in st.g && st.halt.None?
    ensures var r := Step(cfg, oracle, BuildPhase, st, v);
      && r.g == st.g[v.name := st.g[v.name].(status := Outcome(oracle, v.name))]
      && r.versionFiles == st.versionFiles && r.dockerFiles == st.dockerFiles
      && (cfg.noPush ==> r.commands == st.commands + [BuildArgs(BuildTags(cfg, st.g, v.name), cfg.basePath + "/" + v.name)])
      && (cfg.noPush ==> r.halt.None?)
  {
    var r := Step(cfg, oracle, BuildPhase, st, v);
    assert r == BuildImage(cfg, oracle, st, v.name);
  }

  /** The map once the folders `names` are built: each of them has the status of its build. */
  function BuiltGraph(oracle: Oracle, g: Graph, names: set<string>): (h: Graph)
    ensures h.Keys == g.Keys
  {
    map k | k in g :: if k in names then g[k].(status := Outcome(oracle, k)) else g[k]
  }

  lemma BuiltCons(oracle: Oracle, g: Graph, name: string, names: set<string>)
    requires name in g
    ensures BuiltGraph(oracle, g[name := g[name].(status := Outcome(oracle, name))], names)
         == BuiltGraph(oracle, g, {name} + names)
  {
    var l := BuiltGraph(oracle, g[name := g[name].(status := Outcome(oracle, name))], names);
    var r := BuiltGraph(oracle, g, {name} + names);
    forall k | k in g ensures l[k] == r[k] {
    }
  }

  /**
    Outside a dry run, the build phase gives every visited folder the
    status of its docker build, whatever the builds before it did, and
    touches no other status, no Dockerfile line and no file.
   */
  lemma {:induction false} RunBuildStatus(cfg: Config, oracle: Oracle, st: State, visits: seq<Visit>)
    requires !cfg.dryRun
    requires forall v <- visits :: v.name in st.g
    ensures var r := Run(cfg, oracle, BuildPhase, st, visits);
      r.halt.None? ==>
        && r.g == BuiltGraph(oracle, st.g, Names(visits))
        && r.versionFiles == st.versionFiles && r.dockerFiles == st.dockerFiles
    decreases |visits|
  {
    if |visits| == 0 {
      assert BuiltGraph(oracle, st.g, Names(visits)) == st.g;
    } else if st.halt.None? {
      var v := visits[0];
      var st1 := Step(cfg, oracle, BuildPhase, st, v);
      NamesHead(visits);
      StepBuild(cfg, oracle, st, v);
      RunBuildStatus(cfg, oracle, st1, visits[1..]);
      BuiltCons(oracle, st.g, v.name, Names(visits[1..]));
    }
  }

  /** One `docker build` per visit, in the order of the visits. */
  function BuildCommands(cfg: Config, g: Graph, visits: seq<Visit>): (cmds: seq<seq<string>>)
    requires forall v <- visits :: v.name in g
    ensures |cmds| == |visits|
  {
    if |visits| == 0 then []
    else [BuildArgs(BuildTags(cfg, g, visits[0].name), cfg.basePath + "/" + visits[0].name)]
         + BuildCommands(cfg, g, visits[1..])
  }

  /** The build commands depend on the versions only, which no step changes. */
  lemma {:induction false} BuildCommandsFrame(cfg: Config, g: Graph, h: Graph, visits: seq<Visit>)
    requires Evolves(g, h)
    requires forall v <- visits :: v.name in g
    ensures BuildCommands(cfg, g, visits) == BuildCommands(cfg, h, visits)
    decreases |visits|
  {
    if |visits| > 0 {
      assert BuildTags(cfg, g, visits[0].name) == BuildTags(cfg, h, visits[0].name);
      BuildCommandsFrame(cfg, g, h, visits[1..]);
    }
  }

  /**
    With pushing off, the build phase runs exactly one `docker build` per
    visit, in the order of the visits, and never halts.
   */
  lemma {:induction false} RunBuildCommands(cfg: Config, oracle: Oracle, st: State, visits: seq<Visit>)
    requires !cfg.dryRun && cfg.noPush && st.halt.None?
    requires forall v <- visits :: v.name in st.g
    ensures var r := Run(cfg, oracle, BuildPhase, st, visits);
      && r.halt.None?
      && r.commands == st.commands + BuildCommands(cfg, st.g, visits)
    decreases |visits|
  {
    if |visits| == 0 {
      assert st.commands + [] == st.commands;
    } else {
      var v := visits[0];
      var st1 := Step(cfg, oracle, BuildPhase, st, v);
      var args := BuildArgs(BuildTags(cfg, st.g, v.name), cfg.basePath + "/" + v.name);
      StepBuild(cfg, oracle, st, v);
      RunBuildCommands(cfg, oracle, st1, visits[1..]);
      BuildCommandsFrame(cfg, st.g, st1.g, visits[1..]);
      ConsAssoc(st.commands, args, BuildCommands(cfg, st.g, visits[1..]));
    }
  }

  lemma ConsAssoc<T>(a: seq<T>, x: T, b: seq<T>)
    ensures (a + [x]) + b == a + ([x] + b)
  {
  }
}
