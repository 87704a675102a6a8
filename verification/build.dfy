/**
  updateVersions, buildDockerImages and the build command that runs one
  after the other. `Traverse` follows the Go recursion step by step,
  computing each folder's dependents from the map as it stands at that
  moment; `TraverseIsPlanned` shows it equals the plain walk of the map
  followed by one step per visit, and the properties of a run are proved
  on that second form.
 */
module Build {
  import opened Wrappers
  import opened Text
  import opened Components
  import opened Bump
  import opened Images
  import opened Recipe
  import opened Traversal
  import opened Steps

  /** The work done at one visit, as a value. */
  type StepFn = (State, Visit) -> State

  /** A step may change Dockerfile lines and statuses only, and leaves a halted run alone. */
  ghost predicate Lawful(step: StepFn) {
    forall st: State, v: Visit :: Evolves(st.g, step(st, v).g) && (st.halt.Some? ==> step(st, v) == st)
  }

  /** The step of a phase. */
  function PhaseStep(cfg: Config, oracle: Oracle, phase: Phase): (step: StepFn)
    ensures Lawful(step)
  {
    (st: State, v: Visit) => Step(cfg, oracle, phase, st, v)
  }

  /** The visits, one step after the other. */
  function Apply(step: StepFn, st: State, visits: seq<Visit>): (r: State)
    requires Lawful(step)
    ensures Evolves(st.g, r.g)
    ensures st.halt.Some? ==> r == st
    decreases |visits|
  {
    if |visits| == 0 then st
    else Apply(step, step(st, visits[0]), visits[1..])
  }

  /**
    The recursion updateVersions and buildDockerImages share: for each
    folder, its step, then its dependents, then the next folder. `stack`
    holds the folders whose dependents are being walked; meeting one of
    them again means the Go recursion would never return.
   */
  function Recurse(step: StepFn, order: seq<string>, st: State,
                   images: seq<string>, parent: Option<string>, stack: seq<string>): (r: State)
    requires Lawful(step)
    ensures Evolves(st.g, r.g)
    ensures st.halt.Some? ==> r == st
    decreases |st.g.Keys - Members(stack)|, |images|
  {
    if st.halt.Some? || |images| == 0 then st
    else
      var p := images[0];
      if p !in st.g then st.(halt := Some(MissingImage(p)))
      else if p in stack then st.(halt := Some(EndlessRecursion(p)))
      else
        var st1 := step(st, Visit(p, parent));
        assert Members(stack + [p]) == Members(stack) + {p};
        assert st.g.Keys - Members(stack) == (st1.g.Keys - Members(stack + [p])) + {p};
        var st2 := Recurse(step, order, st1, Dependents(st1.g, order, st1.g[p].image), Some(p), stack + [p]);
        Recurse(step, order, st2, images[1..], parent, stack)
  }

  /** The recursion of updateVersions (phase UpdatePhase) and of buildDockerImages (phase BuildPhase). */
  function Traverse(cfg: Config, oracle: Oracle, phase: Phase, order: seq<string>, st: State,
                    images: seq<string>, parent: Option<string>, stack: seq<string>): (r: State)
    ensures Evolves(st.g, r.g)
  {
    Recurse(PhaseStep(cfg, oracle, phase), order, st, images, parent, stack)
  }

  /** The walk of the map, then one step per visit, then the walk's end. */
  function Planned(step: StepFn, order: seq<string>, st: State,
                   images: seq<string>, parent: Option<string>, stack: seq<string>): State
    requires Lawful(step)
  {
    var w := WalkFrom(st.g, order, images, parent, stack);
    Finish(Apply(step, st, w.visits), w.stop)
  }

  lemma {:induction false} ApplyAppend(step: StepFn, st: State, a: seq<Visit>, b: seq<Visit>)
    requires Lawful(step)
    ensures Apply(step, st, a + b) == Apply(step, Apply(step, st, a), b)
    decreases |a|
  {
    if |a| > 0 {
      assert (a + b)[0] == a[0];
      assert (a + b)[1..] == a[1..] + b;
      ApplyAppend(step, step(st, a[0]), a[1..], b);
    } else {
      assert a + b == b;
    }
  }

  lemma EvolvesSameEdges(g: Graph, h: Graph)
    requires Evolves(g, h)
    ensures SameEdges(g, h)
  {
  }

  /**
    The step-by-step recursion equals the plan: the steps never change an
    image or a FROM reference, so the dependents computed halfway through
    are the ones the unchanged map has.
   */
  lemma {:induction false} RecurseIsPlanned(step: StepFn, order: seq<string>, st: State,
                                            images: seq<string>, parent: Option<string>, stack: seq<string>)
    requires Lawful(step)
    ensures Recurse(step, order, st, images, parent, stack) == Planned(step, order, st, images, parent, stack)
    decreases |st.g.Keys - Members(stack)|, |images|, 2
  {
    var w := WalkFrom(st.g, order, images, parent, stack);
    if st.halt.Some? {
      assert Apply(step, st, w.visits) == st;
    } else if |images| == 0 || images[0] !in st.g || images[0] in stack {
      assert w.visits == [];
    } else {
      RecurseVisit(step, order, st, images, parent, stack);
    }
  }

  /** The case of RecurseIsPlanned where the first folder is visited. */
  lemma {:induction false} RecurseVisit(step: StepFn, order: seq<string>, st: State,
                                        images: seq<string>, parent: Option<string>, stack: seq<string>)
    requires Lawful(step)
    requires st.halt.None? && |images| > 0 && images[0] in st.g && images[0] !in stack
    ensures Recurse(step, order, st, images, parent, stack) == Planned(step, order, st, images, parent, stack)
    decreases |st.g.Keys - Members(stack)|, |images|, 1
  {
    var p := images[0];
    var v := Visit(p, parent);
    var deps := Dependents(st.g, order, st.g[p].image);
    var sub := WalkFrom(st.g, order, deps, Some(p), stack + [p]);
    RecurseUnfold(step, order, st, images, parent, stack);
    RecurseBelow(step, order, st, images, parent, stack);
    if sub.stop == Complete {
      ApplyCons(step, st, v, sub.visits);
      var st1 := step(st, v);
      RecurseRest(step, order, st, images, parent, stack, Apply(step, st1, sub.visits));
    } else {
      VisitStops(step, order, st, images, parent, stack);
    }
  }

  /**
    The case of RecurseVisit where the walk below the first folder stops:
    the run halts there and the rest of the list is never reached.
   */
  lemma VisitStops(step: StepFn, order: seq<string>, st: State,
                   images: seq<string>, parent: Option<string>, stack: seq<string>)
    requires Lawful(step)
    requires st.halt.None? && |images| > 0 && images[0] in st.g && images[0] !in stack
    requires var p := images[0];
      WalkFrom(st.g, order, Dependents(st.g, order, st.g[p].image), Some(p), stack + [p]).stop != Complete
    ensures var p := images[0];
      var st1 := step(st, Visit(p, parent));
      var sub := WalkFrom(st.g, order, Dependents(st.g, order, st.g[p].image), Some(p), stack + [p]);
      Recurse(step, order, Finish(Apply(step, st1, sub.visits), sub.stop), images[1..], parent, stack)
        == Planned(step, order, st, images, parent, stack)
  {
    var p := images[0];
    var v := Visit(p, parent);
    var sub := WalkFrom(st.g, order, Dependents(st.g, order, st.g[p].image), Some(p), stack + [p]);
    ApplyCons(step, st, v, sub.visits);
    FinishStops(Apply(step, step(st, v), sub.visits), sub.stop);
    RecurseStops(step, order, st, images, parent, stack);
  }

  /** The end of a walk that stopped leaves the run halted. */
  lemma FinishStops(st: State, stop: Stop)
    requires stop != Complete
    ensures Finish(st, stop).halt.Some?
  {
  }

  /** When the walk below the first folder stops, so does the plan of the whole list. */
  lemma RecurseStops(step: StepFn, order: seq<string>, st: State,
                     images: seq<string>, parent: Option<string>, stack: seq<string>)
    requires Lawful(step)
    requires |images| > 0 && images[0] in st.g && images[0] !in stack
    requires var p := images[0];
      WalkFrom(st.g, order, Dependents(st.g, order, st.g[p].image), Some(p), stack + [p]).stop != Complete
    ensures var p := images[0];
      var sub := WalkFrom(st.g, order, Dependents(st.g, order, st.g[p].image), Some(p), stack + [p]);
      Planned(step, order, st, images, parent, stack) == Finish(Apply(step, st, [Visit(p, parent)] + sub.visits), sub.stop)
  {
    WalkVisit(st.g, order, images, parent, stack);
  }

  /**
    The first folder's walk completed and left `st2`: recursing over the
    rest of the list from there is the plan of the whole list.
   */
  lemma {:induction false} RecurseRest(step: StepFn, order: seq<string>, st: State,
                                       images: seq<string>, parent: Option<string>, stack: seq<string>, st2: State)
    requires Lawful(step)
    requires |images| > 0 && images[0] in st.g && images[0] !in stack
    requires var p := images[0];
      var sub := WalkFrom(st.g, order, Dependents(st.g, order, st.g[p].image), Some(p), stack + [p]);
      && sub.stop == Complete
      && st2 == Apply(step, st, [Visit(p, parent)] + sub.visits)
    ensures Recurse(step, order, st2, images[1..], parent, stack) == Planned(step, order, st, images, parent, stack)
    decreases |st.g.Keys - Members(stack)|, |images|, 0
  {
    var p := images[0];
    var sub := WalkFrom(st.g, order, Dependents(st.g, order, st.g[p].image), Some(p), stack + [p]);
    var rest := WalkFrom(st.g, order, images[1..], parent, stack);
    WalkVisit(st.g, order, images, parent, stack);
    ApplyAppend(step, st, [Visit(p, parent)] + sub.visits, rest.visits);
    if st2.halt.None? {
      EvolvesSameEdges(st.g, st2.g);
      WalkFrame(st.g, st2.g, order, images[1..], parent, stack);
      RecurseIsPlanned(step, order, st2, images[1..], parent, stack);
    }
  }

  /** The recursion at a folder that is visited: its step, its dependents, then the rest of the list. */
  lemma RecurseUnfold(step: StepFn, order: seq<string>, st: State,
                      images: seq<string>, parent: Option<string>, stack: seq<string>)
    requires Lawful(step)
    requires st.halt.None? && |images| > 0 && images[0] in st.g && images[0] !in stack
    ensures var p := images[0];
      var st1 := step(st, Visit(p, parent));
      var deps := Dependents(st.g, order, st.g[p].image);
      && deps == Dependents(st1.g, order, st1.g[p].image)
      && Recurse(step, order, st, images, parent, stack)
         == Recurse(step, order, Recurse(step, order, st1, deps, Some(p), stack + [p]), images[1..], parent, stack)
  {
    var p := images[0];
    var st1 := step(st, Visit(p, parent));
    EvolvesSameEdges(st.g, st1.g);
    DependentsFrame(st.g, st1.g, order, st.g[p].image);
  }

  lemma ApplyCons(step: StepFn, st: State, v: Visit, visits: seq<Visit>)
    requires Lawful(step)
    ensures Apply(step, st, [v] + visits) == Apply(step, step(st, v), visits)
  {
    assert ([v] + visits)[0] == v;
    assert ([v] + visits)[1..] == visits;
  }

  /** The walk below the first folder, in both forms. */
  lemma {:induction false} RecurseBelow(step: StepFn, order: seq<string>, st: State,
                                        images: seq<string>, parent: Option<string>, stack: seq<string>)
    requires Lawful(step)
    requires st.halt.None? && |images| > 0 && images[0] in st.g && images[0] !in stack
    ensures var p := images[0];
      var st1 := step(st, Visit(p, parent));
      var deps := Dependents(st.g, order, st.g[p].image);
      var sub := WalkFrom(st.g, order, deps, Some(p), stack + [p]);
      Recurse(step, order, st1, deps, Some(p), stack + [p]) == Finish(Apply(step, st1, sub.visits), sub.stop)
    decreases |st.g.Keys - Members(stack)|, |images|, 0
  {
    var p := images[0];
    var st1 := step(st, Visit(p, parent));
    assert Members(stack + [p]) == Members(stack) + {p};
    assert st.g.Keys - Members(stack) == (st1.g.Keys - Members(stack + [p])) + {p};
    EvolvesSameEdges(st.g, st1.g);
    var deps := Dependents(st.g, order, st.g[p].image);
    WalkFrame(st.g, st1.g, order, deps, Some(p), stack + [p]);
    RecurseIsPlanned(step, order, st1, deps, Some(p), stack + [p]);
  }

  /** A phase's run of visits is the generic one with the phase's step. */
  lemma {:induction false} RunIsApply(cfg: Config, oracle: Oracle, phase: Phase, st: State, visits: seq<Visit>)
    ensures Run(cfg, oracle, phase, st, visits) == Apply(PhaseStep(cfg, oracle, phase), st, visits)
    decreases |visits|
  {
    if |visits| > 0 {
      RunIsApply(cfg, oracle, phase, Step(cfg, oracle, phase, st, visits[0]), visits[1..]);
    }
  }

  /** A phase is the walk of the map from its folders, one step per visit, then the walk's end. */
  lemma TraverseIsPlanned(cfg: Config, oracle: Oracle, phase: Phase, order: seq<string>, st: State,
                          images: seq<string>, parent: Option<string>, stack: seq<string>)
    ensures var w := WalkFrom(st.g, order, images, parent, stack);
      Traverse(cfg, oracle, phase, order, st, images, parent, stack) == Finish(Run(cfg, oracle, phase, st, w.visits), w.stop)
  {
    var w := WalkFrom(st.g, order, images, parent, stack);
    RecurseIsPlanned(PhaseStep(cfg, oracle, phase), order, st, images, parent, stack);
    RunIsApply(cfg, oracle, phase, st, w.visits);
  }

  /**
    updateVersions([root], false) on the map as generateDependencyMap built
    it: it runs no docker command and sets no build status, and after a
    fatal error it does nothing.
   */
  function UpdateVersions(cfg: Config, order: seq<string>, st: State, roots: seq<string>): (r: State)
    ensures Evolves(st.g, r.g)
    ensures st.halt.Some? ==> r == st
    ensures r.commands == st.commands
    ensures SameStatuses(st.g, r.g)
  {
    UpdateQuietly(cfg, order, st, roots);
    Traverse(cfg, Oracle({}, {}), UpdatePhase, order, st, roots, None, [])
  }

  lemma UpdateQuietly(cfg: Config, order: seq<string>, st: State, roots: seq<string>)
    ensures var r := Traverse(cfg, Oracle({}, {}), UpdatePhase, order, st, roots, None, []);
      r.commands == st.commands && SameStatuses(st.g, r.g)
  {
    var w := WalkFrom(st.g, order, roots, None, []);
    RunUpdateQuiet(cfg, Oracle({}, {}), st, w.visits);
    FinishKeeps(Run(cfg, Oracle({}, {}), UpdatePhase, st, w.visits), w.stop);
    TraverseIsPlanned(cfg, Oracle({}, {}), UpdatePhase, order, st, roots, None, []);
  }

  /**
    buildDockerImages([root], false), the goroutines taken one after the
    other, depth first: it writes no file and edits no Dockerfile line,
    and after a fatal error it does nothing.
   */
  function BuildDockerImages(cfg: Config, oracle: Oracle, order: seq<string>, st: State, roots: seq<string>): (r: State)
    ensures Evolves(st.g, r.g)
    ensures st.halt.Some? ==> r == st
    ensures r.versionFiles == st.versionFiles && r.dockerFiles == st.dockerFiles
    ensures SameLines(st.g, r.g)
  {
    BuildKeeps(cfg, oracle, order, st, roots);
    Traverse(cfg, oracle, BuildPhase, order, st, roots, None, [])
  }

  lemma BuildKeeps(cfg: Config, oracle: Oracle, order: seq<string>, st: State, roots: seq<string>)
    ensures var r := Traverse(cfg, oracle, BuildPhase, order, st, roots, None, []);
      r.versionFiles == st.versionFiles && r.dockerFiles == st.dockerFiles && SameLines(st.g, r.g)
  {
    var w := WalkFrom(st.g, order, roots, None, []);
    var run := Run(cfg, oracle, BuildPhase, st, w.visits);
    RunBuildKeeps(cfg, oracle, st, w.visits);
    FinishKeeps(run, w.stop);
    TraverseIsPlanned(cfg, oracle, BuildPhase, order, st, roots, None, []);
  }

  /** The end of a walk changes only whether the run halted. */
  lemma FinishKeeps(st: State, stop: Stop)
    ensures var r := Finish(st, stop);
      r.g == st.g && r.versionFiles == st.versionFiles && r.dockerFiles == st.dockerFiles && r.commands == st.commands
  {
  }

  /**
    The build command: bump every version reachable from the image folder,
    then build them. The files written are the update's; an update that
    stops builds nothing; the map keeps its folders, images and versions.
   */
  function BuildAll(cfg: Config, oracle: Oracle, order: seq<string>, g: Graph, root: string): (r: State)
    ensures Evolves(g, r.g)
    ensures var u := UpdateVersions(cfg, order, State(g, map[], map[], [], None), [root]);
      && r.versionFiles == u.versionFiles && r.dockerFiles == u.dockerFiles
      && (u.halt.Some? ==> r == u)
      && SameLines(u.g, r.g)
  {
    var updated := UpdateVersions(cfg, order, State(g, map[], map[], [], None), [root]);
    BuildDockerImages(cfg, oracle, order, updated, [root])
  }
}
