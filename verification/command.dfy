/**
  What the build command does to a dependency map, stated over the
  folders the walk from the image folder reaches: the update phase bumps
  the VERSION file of each of them and edits the FROM line of each below
  the top, and the build phase builds each of them.
 */
module Command {
  import opened Wrappers
  import opened Text
  import opened Components
  import opened Bump
  import opened Images
  import opened Recipe
  import opened Traversal
  import opened Docker
  import opened Steps
  import opened Build

  /** The walk both phases make from the image folder. */
  function WalkOf(g: Graph, order: seq<string>, root: string): Walk {
    WalkFrom(g, order, [root], None, [])
  }

  /** The folders that walk visits. */
  function Reached(g: Graph, order: seq<string>, root: string): set<string> {
    Names(WalkOf(g, order, root).visits)
  }

  /** `k` builds, through a chain of FROM references, on the image of `root`. */
  ghost predicate Descends(g: Graph, root: string, k: string) {
    exists s :: IsChain(g, s) && |s| > 0 && s[0] == root && s[|s| - 1] == k
  }

  lemma ReachedIn(g: Graph, order: seq<string>, root: string)
    ensures Reached(g, order, root) <= g.Keys
  {
    var w := WalkOf(g, order, root);
    forall k | k in Reached(g, order, root) ensures k in g {
      var v :| v in w.visits && v.name == k;
    }
  }

  /** The i-th visit of the walk from `root` descends from `root`. */
  lemma {:induction false} VisitDescends(g: Graph, visits: seq<Visit>, root: string, i: nat)
    requires i < |visits|
    requires Grounded(g, visits, [root], None)
    ensures Descends(g, root, visits[i].name)
    decreases i
  {
    assert Rooted(g, visits, i, [root], None);
    if visits[i].parent == None && visits[i].name in [root] {
      assert IsChain(g, [root]);
    } else {
      var j :| 0 <= j < i && Spawns(g, visits[j], visits[i]);
      VisitDescends(g, visits, root, j);
      var s :| IsChain(g, s) && |s| > 0 && s[0] == root && s[|s| - 1] == visits[j].name;
      var t := s + [visits[i].name];
      assert IsChain(g, t) by {
        forall k | 0 <= k < |t| - 1 ensures IsDependent(g, t[k], t[k + 1]) {
          if k < |s| - 1 {
            assert t[k] == s[k] && t[k + 1] == s[k + 1];
          }
        }
      }
      assert t[0] == root && t[|t| - 1] == visits[i].name;
    }
  }

  /** A chain from the root ends in a reached folder, when the walk completes. */
  lemma {:induction false} ChainReached(g: Graph, order: seq<string>, root: string, s: seq<string>)
    requires Enumerates(g, order) && WalkOf(g, order, root).stop == Complete
    requires IsChain(g, s) && |s| > 0 && s[0] == root
    ensures s[|s| - 1] in Reached(g, order, root)
    decreases |s|
  {
    var w := WalkOf(g, order, root);
    WalkCloses(g, order, [root], None, []);
    if |s| == 1 {
      assert Visit(root, None) in w.visits;
    } else {
      var t := s[..|s| - 1];
      assert IsChain(g, t) by {
        forall k | 0 <= k < |t| - 1 ensures IsDependent(g, t[k], t[k + 1]) {
          assert t[k] == s[k] && t[k + 1] == s[k + 1];
        }
      }
      ChainReached(g, order, root, t);
      var v :| v in w.visits && v.name == t[|t| - 1];
      assert IsDependent(g, s[|s| - 2], s[|s| - 1]);
      assert Visit(s[|s| - 1], Some(v.name)) in w.visits;
    }
  }

  /**
    Every folder the walk reaches builds, through a chain of FROM
    references, on the image folder; when the walk completes (no cycle,
    no missing folder), it reaches every such folder.
   */
  lemma ReachedDescends(g: Graph, order: seq<string>, root: string)
    ensures forall k <- Reached(g, order, root) :: Descends(g, root, k)
    ensures Enumerates(g, order) && WalkOf(g, order, root).stop == Complete ==>
      forall k :: Descends(g, root, k) ==> k in Reached(g, order, root)
  {
    var w := WalkOf(g, order, root);
    WalkParents(g, order, [root], None, []);
    forall k | k in Reached(g, order, root) ensures Descends(g, root, k) {
      var i :| 0 <= i < |w.visits| && w.visits[i].name == k;
      VisitDescends(g, w.visits, root, i);
    }
    if Enumerates(g, order) && w.stop == Complete {
      forall k | Descends(g, root, k) ensures k in Reached(g, order, root) {
        var s :| IsChain(g, s) && |s| > 0 && s[0] == root && s[|s| - 1] == k;
        ChainReached(g, order, root, s);
      }
    }
  }

  /** Below the top level, every visit comes from a parent: the folders rewritten are all but the root. */
  lemma RewrittenReached(g: Graph, order: seq<string>, root: string)
    requires root in g
    ensures Rewritten(WalkOf(g, order, root).visits) == Reached(g, order, root) - {root}
    ensures root in Reached(g, order, root)
  {
    var w := WalkOf(g, order, root);
    RootOnce(g, order, root);
    WalkParents(g, order, [root], None, []);
    forall x | x in Rewritten(w.visits) ensures x != root {
      var v :| v in w.visits && v.parent.Some? && v.name == x;
      var i :| 0 <= i < |w.visits| && w.visits[i] == v;
    }
    forall x | x in Reached(g, order, root) && x != root ensures x in Rewritten(w.visits) {
      var i :| 0 <= i < |w.visits| && w.visits[i].name == x;
      assert i > 0;
      assert Rooted(g, w.visits, i, [root], None);
    }
    assert w.visits[0].name == root;
  }

  /** The state the build command starts from: the scanned map, nothing written, nothing run. */
  function Start(g: Graph): State {
    State(g, map[], map[], [], None)
  }

  /** A step halts only for a bad FROM line or a failed push when its folder is in the map. */
  lemma StepHalt(cfg: Config, oracle: Oracle, phase: Phase, st: State, v: Visit)
    requires st.halt.None? && v.name in st.g
    ensures var r := Step(cfg, oracle, phase, st, v);
      r.halt.None? || r.halt.value.BadFromLine? || r.halt.value.PushFailed?
  {
    if phase == UpdatePhase && v.parent.Some? {
      var st1 := UpdateVersionFile(cfg, st, v.name);
      assert Step(cfg, oracle, phase, st, v) == UpdateDockerFile(cfg, st1, v.name);
    }
  }

  /** The steps of a walk never halt for a missing folder or a cycle: only the walk's end does. */
  lemma {:induction false} RunHalt(cfg: Config, oracle: Oracle, phase: Phase, st: State, visits: seq<Visit>)
    requires st.halt.None? || st.halt.value.BadFromLine? || st.halt.value.PushFailed?
    requires forall v <- visits :: v.name in st.g
    ensures var r := Run(cfg, oracle, phase, st, visits);
      r.halt.None? || r.halt.value.BadFromLine? || r.halt.value.PushFailed?
    decreases |visits|
  {
    if |visits| > 0 && st.halt.None? {
      StepHalt(cfg, oracle, phase, st, visits[0]);
      RunHalt(cfg, oracle, phase, Step(cfg, oracle, phase, st, visits[0]), visits[1..]);
    }
  }

  /** Both phases are the walk from the image folder, one step per visit, then the walk's end. */
  lemma Plan(cfg: Config, oracle: Oracle, phase: Phase, order: seq<string>, st: State, root: string)
    ensures Traverse(cfg, oracle, phase, order, st, [root], None, [])
         == Finish(Run(cfg, oracle, phase, st, WalkOf(st.g, order, root).visits), WalkOf(st.g, order, root).stop)
    ensures forall v <- WalkOf(st.g, order, root).visits :: v.name in st.g
  {
    TraverseIsPlanned(cfg, oracle, phase, order, st, [root], None, []);
  }

  /** A phase halts for a bad FROM line, a failed push, or the end of its walk. */
  lemma PlanHalt(cfg: Config, oracle: Oracle, phase: Phase, order: seq<string>, st: State, root: string)
    requires st.halt.None?
    ensures var r := Traverse(cfg, oracle, phase, order, st, [root], None, []);
      var w := WalkOf(st.g, order, root);
      && (r.halt.None? || r.halt.value.BadFromLine? || r.halt.value.PushFailed? || r.halt == StopHalt(w.stop))
      && (r.halt.None? ==> w.stop == Complete)
  {
    var w := WalkOf(st.g, order, root);
    Plan(cfg, oracle, phase, order, st, root);
    RunHalt(cfg, oracle, phase, st, w.visits);
  }

  /**
    How either phase can stop early: a missing image folder halts it at
    once; it halts for endless recursion only when there is a dependency
    cycle through the folder named; with the folder present, no missing
    folder halts it; and a run that does not halt walked the whole tree.
   */
  lemma Halts(cfg: Config, oracle: Oracle, phase: Phase, order: seq<string>, st: State, root: string)
    requires st.halt.None?
    ensures var r := Traverse(cfg, oracle, phase, order, st, [root], None, []);
      && (root !in st.g ==> r == st.(halt := Some(MissingImage(root))))
      && (root in st.g && r.halt.Some? ==> !r.halt.value.MissingImage?)
      && (r.halt.Some? && r.halt.value.EndlessRecursion? ==>
            exists cycle :: IsCycle(st.g, cycle) && cycle[0] == r.halt.value.name)
      && (r.halt.None? ==> WalkOf(st.g, order, root).stop == Complete)
  {
    PlanHalt(cfg, oracle, phase, order, st, root);
    WalkRepeats(st.g, order, [root], None, []);
    WalkUnknown(st.g, order, [root], None, []);
  }

  /** Without a dependency cycle among the folders, neither phase halts for endless recursion. */
  lemma Acyclic(cfg: Config, oracle: Oracle, phase: Phase, order: seq<string>, st: State, root: string, rank: map<string, nat>)
    requires st.halt.None? && root in st.g && Ranked(st.g, rank)
    ensures var r := Traverse(cfg, oracle, phase, order, st, [root], None, []);
      r.halt.None? || r.halt.value.BadFromLine? || r.halt.value.PushFailed?
  {
    PlanHalt(cfg, oracle, phase, order, st, root);
    WalkCompletes(st.g, order, rank, [root], None, []);
  }

  /** An update that does not halt is the run of the whole walk, which completed. */
  lemma UpdateRun(cfg: Config, order: seq<string>, g: Graph, root: string)
    ensures var r := UpdateVersions(cfg, order, Start(g), [root]);
      var w := WalkOf(g, order, root);
      r.halt.None? ==> r == Run(cfg, Oracle({}, {}), UpdatePhase, Start(g), w.visits) && w.stop == Complete
    ensures forall v <- WalkOf(g, order, root).visits :: v.name in g
  {
    Plan(cfg, Oracle({}, {}), UpdatePhase, order, Start(g), root);
  }

  /**
    updateVersions from the image folder, outside a dry run and when it
    does not halt: the VERSION files written are exactly those of the
    reached folders, each holding its bumped version.
   */
  lemma UpdateVersionFiles(cfg: Config, order: seq<string>, g: Graph, root: string)
    requires !cfg.dryRun
    ensures Reached(g, order, root) <= g.Keys
    ensures var r := UpdateVersions(cfg, order, Start(g), [root]);
      r.halt.None? ==> r.versionFiles == VersionMap(cfg, g, Reached(g, order, root))
  {
    var w := WalkOf(g, order, root);
    ReachedIn(g, order, root);
    UpdateRun(cfg, order, g, root);
    RunUpdateVersions(cfg, Oracle({}, {}), Start(g), w.visits);
    MergeEmpty(VersionMap(cfg, g, Reached(g, order, root)));
  }

  /**
    The Dockerfiles written are exactly those of the reached folders below
    the top, each holding the map's edited lines, and the image folder's
    own Dockerfile is left alone. For a scanned map whose order lists each
    folder once, each Dockerfile written is the folder's original lines
    with the FROM line edited exactly once.
   */
  lemma UpdateDockerFiles(cfg: Config, order: seq<string>, g: Graph, root: string)
    requires !cfg.dryRun && root in g
    ensures var r := UpdateVersions(cfg, order, Start(g), [root]);
      r.halt.None? ==>
        && r.dockerFiles.Keys == Reached(g, order, root) - {root}
        && Synced(r)
        && r.g[root].dockerFile == g[root].dockerFile
    ensures var r := UpdateVersions(cfg, order, Start(g), [root]);
      r.halt.None? && Enumerates(g, order) && Consistent(cfg.registry, g) ==>
        forall k <- r.dockerFiles.Keys ::
          && k in g
          && RewriteFrom(g[k].dockerFile, g[k].fromLine, cfg.component).Success?
          && r.dockerFiles[k] == Join(RewriteFrom(g[k].dockerFile, g[k].fromLine, cfg.component).value, "\n")
  {
    UpdateSynced(cfg, order, g, root);
    if Enumerates(g, order) && Consistent(cfg.registry, g) {
      UpdateEdits(cfg, order, g, root);
    }
  }

  /** The Dockerfiles written follow the map, for the reached folders below the top. */
  lemma UpdateSynced(cfg: Config, order: seq<string>, g: Graph, root: string)
    requires !cfg.dryRun && root in g
    ensures var r := UpdateVersions(cfg, order, Start(g), [root]);
      r.halt.None? ==>
        && r.dockerFiles.Keys == Reached(g, order, root) - {root}
        && Synced(r)
        && r.g[root].dockerFile == g[root].dockerFile
  {
    var w := WalkOf(g, order, root);
    UpdateRun(cfg, order, g, root);
    RewrittenReached(g, order, root);
    RunUpdateDockerFiles(cfg, Oracle({}, {}), Start(g), w.visits);
    RunSynced(cfg, Oracle({}, {}), Start(g), w.visits);
    RunKeepsLines(cfg, Oracle({}, {}), Start(g), w.visits, root);
  }

  /**
    In a scanned map, a run that does not halt edits only FROM lines with
    one ':', so every folder it rewrites has one possible parent, the walk
    visits each folder once, and each Dockerfile is edited once.
   */
  lemma UpdateEdits(cfg: Config, order: seq<string>, g: Graph, root: string)
    requires !cfg.dryRun && root in g && Enumerates(g, order) && Consistent(cfg.registry, g)
    ensures var r := UpdateVersions(cfg, order, Start(g), [root]);
      r.halt.None? ==> Edited(cfg.component, g, r.dockerFiles)
  {
    var w := WalkOf(g, order, root);
    var r := UpdateVersions(cfg, order, Start(g), [root]);
    UpdateRun(cfg, order, g, root);
    if r.halt.None? {
      RunEditsSucceed(cfg, Oracle({}, {}), g, Start(g), w.visits);
      forall x | x in Rewritten(w.visits) ensures SoleParent(g, x) {
        SoleParentOf(cfg.registry, g, x, cfg.component);
      }
      RootWalkOnce(g, order, root);
      RunEditsOnce(cfg, Oracle({}, {}), g, Start(g), w.visits);
    }
  }

  /** updateVersions runs no docker command and changes no status. */
  lemma UpdateQuiet(cfg: Config, order: seq<string>, g: Graph, root: string)
    ensures var r := UpdateVersions(cfg, order, Start(g), [root]);
      r.commands == [] && forall k <- g.Keys :: r.g[k].status == g[k].status
  {
    var w := WalkOf(g, order, root);
    Plan(cfg, Oracle({}, {}), UpdatePhase, order, Start(g), root);
    RunUpdateQuiet(cfg, Oracle({}, {}), Start(g), w.visits);
  }

  /** A dry run of updateVersions writes no file and runs no command. */
  lemma UpdateDry(cfg: Config, order: seq<string>, g: Graph, root: string)
    requires cfg.dryRun
    ensures var r := UpdateVersions(cfg, order, Start(g), [root]);
      r.versionFiles == map[] && r.dockerFiles == map[] && r.commands == []
  {
    var st := Start(g);
    var oracle := Oracle({}, {});
    var w := WalkOf(g, order, root);
    Plan(cfg, oracle, UpdatePhase, order, st, root);
    DryUpdate(cfg, oracle, st, w.visits);
  }

  lemma {:induction false} DryUpdate(cfg: Config, oracle: Oracle, st: State, visits: seq<Visit>)
    requires cfg.dryRun
    ensures var r := Run(cfg, oracle, UpdatePhase, st, visits);
      r.versionFiles == st.versionFiles && r.dockerFiles == st.dockerFiles && r.commands == st.commands
    decreases |visits|
  {
    if |visits| > 0 && st.halt.None? && visits[0].name in st.g {
      StepUpdate(cfg, oracle, st, visits[0]);
      var st1 := Step(cfg, oracle, UpdatePhase, st, visits[0]);
      assert st1.versionFiles == st.versionFiles && st1.dockerFiles == st.dockerFiles;
      DryUpdate(cfg, oracle, st1, visits[1..]);
    } else if |visits| > 0 {
      DryUpdate(cfg, oracle, Step(cfg, oracle, UpdatePhase, st, visits[0]), visits[1..]);
    }
  }

  /**
    buildDockerImages from the image folder, outside a dry run and when it
    does not halt: every reached folder has the status of its own docker
    build and every other folder keeps its status; no Dockerfile line and
    no file changes.
   */
  lemma BuildStatuses(cfg: Config, oracle: Oracle, order: seq<string>, st: State, root: string)
    requires !cfg.dryRun
    ensures var r := BuildDockerImages(cfg, oracle, order, st, [root]);
      r.halt.None? ==>
        && r.g == BuiltGraph(oracle, st.g, Reached(st.g, order, root))
        && r.versionFiles == st.versionFiles && r.dockerFiles == st.dockerFiles
  {
    var w := WalkOf(st.g, order, root);
    Plan(cfg, oracle, BuildPhase, order, st, root);
    RunBuildStatus(cfg, oracle, st, w.visits);
  }

  /**
    A failed build does not stop the builds below it: a dependent of a
    reached folder is built too, with the status of its own build,
    whatever its parent's build did.
   */
  lemma BuildBelowFailure(cfg: Config, oracle: Oracle, order: seq<string>, st: State, root: string, parent: string, child: string)
    requires !cfg.dryRun && Enumerates(st.g, order)
    requires parent in Reached(st.g, order, root) && IsDependent(st.g, parent, child)
    ensures var r := BuildDockerImages(cfg, oracle, order, st, [root]);
      r.halt.None? ==>
        && r.g[parent].status == Outcome(oracle, parent)
        && r.g[child].status == Outcome(oracle, child)
  {
    var r := BuildDockerImages(cfg, oracle, order, st, [root]);
    BuildStatuses(cfg, oracle, order, st, root);
    if r.halt.None? {
      if st.halt.None? {
        Halts(cfg, oracle, BuildPhase, order, st, root);
      } else {
        Plan(cfg, oracle, BuildPhase, order, st, root);
        assert false;
      }
      var w := WalkOf(st.g, order, root);
      WalkCloses(st.g, order, [root], None, []);
      var v :| v in w.visits && v.name == parent;
      assert Visit(child, Some(parent)) in w.visits;
      assert child in Reached(st.g, order, root);
    }
  }

  /** A dry run of buildDockerImages changes no status, runs no command and writes no file. */
  lemma BuildDry(cfg: Config, oracle: Oracle, order: seq<string>, st: State, root: string)
    requires cfg.dryRun
    ensures var r := BuildDockerImages(cfg, oracle, order, st, [root]);
      r.g == st.g && r.commands == st.commands && r.versionFiles == st.versionFiles && r.dockerFiles == st.dockerFiles
  {
    var w := WalkOf(st.g, order, root);
    Plan(cfg, oracle, BuildPhase, order, st, root);
    RunBuildDry(cfg, oracle, st, w.visits);
  }

  /**
    With pushing off, buildDockerImages runs one `docker build` per visit of
    the walk, in the walk's order, and nothing else.
   */
  lemma BuildNoPush(cfg: Config, oracle: Oracle, order: seq<string>, st: State, root: string)
    requires !cfg.dryRun && cfg.noPush && st.halt.None?
    ensures var r := BuildDockerImages(cfg, oracle, order, st, [root]);
      r.commands == st.commands + BuildCommands(cfg, st.g, WalkOf(st.g, order, root).visits)
  {
    var w := WalkOf(st.g, order, root);
    Plan(cfg, oracle, BuildPhase, order, st, root);
    RunBuildCommands(cfg, oracle, st, w.visits);
  }

  /**
    The build command end to end: when it does not halt, the walk of the
    map it leaves reaches the same folders, and every reached folder has
    the status of its own docker build and was built first under the
    version its VERSION file now holds.
   */
  lemma BuildAllTags(cfg: Config, oracle: Oracle, order: seq<string>, g: Graph, root: string, k: string)
    requires !cfg.dryRun && root in g
    requires k in Reached(g, order, root) && '\n' !in g[k].version
    ensures var r := BuildAll(cfg, oracle, order, g, root);
      r.halt.None? ==>
        && Reached(r.g, order, root) == Reached(g, order, root)
        && k in r.versionFiles && k in r.g
        && r.g[k].status == Outcome(oracle, k)
        && BuildTags(cfg, r.g, k)[0] == ImageRef(cfg.registry, k, ReadVersion(Some(r.versionFiles[k])))
  {
    var u := UpdateVersions(cfg, order, Start(g), [root]);
    var r := BuildAll(cfg, oracle, order, g, root);
    if r.halt.None? {
      assert r == BuildDockerImages(cfg, oracle, order, u, [root]);
      UpdateVersionFiles(cfg, order, g, root);
      EvolvesSameEdges(g, u.g);
      WalkFrame(g, u.g, order, [root], None, []);
      BuildStatuses(cfg, oracle, order, u, root);
      EvolvesSameEdges(g, r.g);
      WalkFrame(g, r.g, order, [root], None, []);
      VersionReadBack(g[k].version, cfg.component);
      assert r.g[k].version == g[k].version;
    }
  }
}
