/**
  The walk shared by updateVersions and buildDockerImages: for each folder
  of a list, visit it, then walk its dependents (the folders built FROM
  its image), then go on with the list. The Go code keeps no visited set;
  a folder met again while its own dependents are being walked would be
  walked forever, so the walk stops there with `Repeats`. A folder that is
  not in the map stops it with `Unknown` (a nil-pointer panic in Go).
 */
module Traversal {
  import opened Wrappers
  import opened Images

  /** One call of the per-folder work, with the folder whose dependents led here (None at the top). */
  datatype Visit = Visit(name: string, parent: Option<string>)

  datatype Stop = Complete | Unknown(name: string) | Repeats(name: string)

  /** The visits in the order they are made, and how the walk ended. */
  datatype Walk = Walk(visits: seq<Visit>, stop: Stop)

  function Members(s: seq<string>): set<string> {
    set x | x in s
  }

  /**
    The walk of `images`, reached from `parent`, while the folders of
    `stack` (the chain of folders whose dependents are being walked) are
    still open.
   */
  function WalkFrom(g: Graph, order: seq<string>, images: seq<string>, parent: Option<string>, stack: seq<string>): (w: Walk)
    ensures forall v <- w.visits :: v.name in g && v.name !in stack
    decreases |g.Keys - Members(stack)|, |images|
  {
    if |images| == 0 then Walk([], Complete)
    else
      var p := images[0];
      if p !in g then Walk([], Unknown(p))
      else if p in stack then Walk([], Repeats(p))
      else
        Shrinks(g, stack, p);
        var sub := WalkFrom(g, order, Dependents(g, order, g[p].image), Some(p), stack + [p]);
        if sub.stop != Complete then Walk([Visit(p, parent)] + sub.visits, sub.stop)
        else
          var rest := WalkFrom(g, order, images[1..], parent, stack);
          Walk([Visit(p, parent)] + sub.visits + rest.visits, rest.stop)
  }

  /** Opening a folder of the map leaves fewer folders that are not open. */
  lemma Shrinks(g: Graph, stack: seq<string>, p: string)
    requires p in g && p !in stack
    ensures |g.Keys - Members(stack + [p])| < |g.Keys - Members(stack)|
  {
    assert Members(stack + [p]) == Members(stack) + {p};
    assert g.Keys - Members(stack) == (g.Keys - Members(stack + [p])) + {p};
  }

  /** `b` was reached as a dependent of `a`. */
  predicate Spawns(g: Graph, a: Visit, b: Visit) {
    b.parent == Some(a.name) && IsDependent(g, a.name, b.name)
  }

  /**
    Visit `i` is either one of the listed folders, reached from `parent`,
    or a dependent of a folder visited before it, reached from that folder.
   */
  predicate Rooted(g: Graph, visits: seq<Visit>, i: nat, images: seq<string>, parent: Option<string>)
    requires i < |visits|
  {
    || (visits[i].parent == parent && visits[i].name in images)
    || (exists j :: 0 <= j < i && Spawns(g, visits[j], visits[i]))
  }

  predicate Grounded(g: Graph, visits: seq<Visit>, images: seq<string>, parent: Option<string>) {
    forall i :: 0 <= i < |visits| ==> Rooted(g, visits, i, images, parent)
  }

  /** Every visit of a walk is a listed folder or a dependent of an earlier visit. */
  lemma {:induction false} WalkParents(g: Graph, order: seq<string>, images: seq<string>, parent: Option<string>, stack: seq<string>)
    ensures Grounded(g, WalkFrom(g, order, images, parent, stack).visits, images, parent)
    decreases |g.Keys - Members(stack)|, |images|
  {
    var w := WalkFrom(g, order, images, parent, stack);
    if |images| > 0 && images[0] in g && images[0] !in stack {
      var p := images[0];
      var deps := Dependents(g, order, g[p].image);
      Shrinks(g, stack, p);
      var sub := WalkFrom(g, order, deps, Some(p), stack + [p]);
      WalkParents(g, order, deps, Some(p), stack + [p]);
      GroundedBelow(g, p, parent, images, deps, sub.visits);
      if sub.stop == Complete {
        var rest := WalkFrom(g, order, images[1..], parent, stack);
        WalkParents(g, order, images[1..], parent, stack);
        GroundedThen(g, [Visit(p, parent)] + sub.visits, rest.visits, images, parent);
      }
    }
  }

  /** A folder's visit followed by the walk of its dependents. */
  lemma GroundedBelow(g: Graph, p: string, parent: Option<string>, images: seq<string>, deps: seq<string>, sub: seq<Visit>)
    requires |images| > 0 && images[0] == p
    requires forall d <- deps :: IsDependent(g, p, d)
    requires Grounded(g, sub, deps, Some(p))
    ensures Grounded(g, [Visit(p, parent)] + sub, images, parent)
  {
    var head := [Visit(p, parent)] + sub;
    forall i | 0 <= i < |head| ensures Rooted(g, head, i, images, parent) {
      if i > 0 {
        assert head[i] == sub[i - 1];
        assert Rooted(g, sub, i - 1, deps, Some(p));
        if sub[i - 1].parent == Some(p) && sub[i - 1].name in deps {
          assert Spawns(g, head[0], head[i]);
        } else {
          var j :| 0 <= j < i - 1 && Spawns(g, sub[j], sub[i - 1]);
          assert head[j + 1] == sub[j];
          assert Spawns(g, head[j + 1], head[i]);
        }
      }
    }
  }

  /** A grounded walk followed by the walk of the rest of the list. */
  lemma GroundedThen(g: Graph, head: seq<Visit>, rest: seq<Visit>, images: seq<string>, parent: Option<string>)
    requires |images| > 0
    requires Grounded(g, head, images, parent)
    requires Grounded(g, rest, images[1..], parent)
    ensures Grounded(g, head + rest, images, parent)
  {
    var all := head + rest;
    forall i | 0 <= i < |all| ensures Rooted(g, all, i, images, parent) {
      if i < |head| {
        assert Rooted(g, head, i, images, parent);
        assert all[i] == head[i];
        if !(head[i].parent == parent && head[i].name in images) {
          var j :| 0 <= j < i && Spawns(g, head[j], head[i]);
          assert all[j] == head[j];
        }
      } else {
        var k := i - |head|;
        assert all[i] == rest[k];
        assert Rooted(g, rest, k, images[1..], parent);
        if !(rest[k].parent == parent && rest[k].name in images[1..]) {
          var j :| 0 <= j < k && Spawns(g, rest[j], rest[k]);
          assert all[j + |head|] == rest[j];
          assert Spawns(g, all[j + |head|], all[i]);
        }
      }
    }
  }

  /**
    A walk that completes is closed: every listed folder is visited from
    `parent`, and every dependent of a visited folder is visited from it.
   */
  lemma {:induction false} WalkCloses(g: Graph, order: seq<string>, images: seq<string>, parent: Option<string>, stack: seq<string>)
    requires Enumerates(g, order)
    requires WalkFrom(g, order, images, parent, stack).stop == Complete
    ensures var w := WalkFrom(g, order, images, parent, stack);
      && (forall x <- images :: Visit(x, parent) in w.visits)
      && (forall v, d :: v in w.visits && IsDependent(g, v.name, d) ==> Visit(d, Some(v.name)) in w.visits)
    decreases |g.Keys - Members(stack)|, |images|
  {
    var w := WalkFrom(g, order, images, parent, stack);
    if |images| > 0 {
      var p := images[0];
      var deps := Dependents(g, order, g[p].image);
      Shrinks(g, stack, p);
      var sub := WalkFrom(g, order, deps, Some(p), stack + [p]);
      var rest := WalkFrom(g, order, images[1..], parent, stack);
      WalkVisit(g, order, images, parent, stack);
      assert sub.stop == Complete && w.visits == [Visit(p, parent)] + sub.visits + rest.visits;
      WalkCloses(g, order, deps, Some(p), stack + [p]);
      WalkCloses(g, order, images[1..], parent, stack);
      ClosedCons(g, order, p, parent, images, sub.visits, rest.visits);
    }
  }

  /**
    A folder's visit, the closed walk of its dependents and a closed walk
    of the folders after it make a closed walk of the whole list.
   */
  lemma ClosedCons(g: Graph, order: seq<string>, p: string, parent: Option<string>, images: seq<string>,
                   sub: seq<Visit>, rest: seq<Visit>)
    requires Enumerates(g, order) && p in g && |images| > 0 && images[0] == p
    requires forall x <- images[1..] :: Visit(x, parent) in rest
    requires forall x <- Dependents(g, order, g[p].image) :: Visit(x, Some(p)) in sub
    requires forall v, d :: v in sub && IsDependent(g, v.name, d) ==> Visit(d, Some(v.name)) in sub
    requires forall v, d :: v in rest && IsDependent(g, v.name, d) ==> Visit(d, Some(v.name)) in rest
    ensures var all := [Visit(p, parent)] + sub + rest;
      && (forall x <- images :: Visit(x, parent) in all)
      && (forall v, d :: v in all && IsDependent(g, v.name, d) ==> Visit(d, Some(v.name)) in all)
  {
    var all := [Visit(p, parent)] + sub + rest;
    forall x | x in images ensures Visit(x, parent) in all {
      if x != p {
        var i :| 0 <= i < |images| && images[i] == x;
        assert images[1..][i - 1] == x;
      }
    }
    forall v, d | v in all && IsDependent(g, v.name, d)
      ensures Visit(d, Some(v.name)) in all
    {
      if v == Visit(p, parent) {
        DependentsExact(g, order, p, d);
      }
    }
  }

  /**
    A rank that grows along every dependency: the dependency graph has no
    cycle.
   */
  ghost predicate Ranked(g: Graph, rank: map<string, nat>) {
    && (forall k <- g.Keys :: k in rank)
    && (forall q, k :: IsDependent(g, q, k) ==> rank[q] < rank[k])
  }

  /**
    Without cycles, a walk from folders that all exist completes: it never
    meets a folder that is still open.
   */
  lemma {:induction false} WalkCompletes(g: Graph, order: seq<string>, rank: map<string, nat>,
                                        images: seq<string>, parent: Option<string>, stack: seq<string>)
    requires Ranked(g, rank)
    requires forall x <- images :: x in g
    requires forall y <- stack :: y in g
    requires forall x <- images, y <- stack :: rank[y] < rank[x]
    ensures WalkFrom(g, order, images, parent, stack).stop == Complete
    decreases |g.Keys - Members(stack)|, |images|
  {
    if |images| > 0 {
      var p := images[0];
      var deps := Dependents(g, order, g[p].image);
      assert p !in stack;
      Shrinks(g, stack, p);
      assert forall d <- deps :: IsDependent(g, p, d);
      WalkCompletes(g, order, rank, deps, Some(p), stack + [p]);
      WalkCompletes(g, order, rank, images[1..], parent, stack);
    }
  }

  /** `s` runs along dependencies: each folder is built FROM the one before it. */
  predicate IsChain(g: Graph, s: seq<string>) {
    forall i :: 0 <= i < |s| - 1 ==> IsDependent(g, s[i], s[i + 1])
  }

  /** A chain that comes back to where it started. */
  predicate IsCycle(g: Graph, s: seq<string>) {
    |s| >= 2 && s[0] == s[|s| - 1] && IsChain(g, s)
  }

  /** How the arguments of a walk fit together: `stack` leads to `parent`, and `images` are its dependents. */
  predicate Nested(g: Graph, images: seq<string>, parent: Option<string>, stack: seq<string>) {
    && IsChain(g, stack)
    && (parent.None? ==> stack == [])
    && (parent.Some? ==>
          && |stack| > 0 && stack[|stack| - 1] == parent.value
          && forall x <- images :: IsDependent(g, parent.value, x))
  }

  /**
    A walk stops with Repeats only on a real cycle: the folder it names is
    built, through a chain of dependencies, FROM its own image.
   */
  lemma {:induction false} WalkRepeats(g: Graph, order: seq<string>, images: seq<string>, parent: Option<string>, stack: seq<string>)
    requires Nested(g, images, parent, stack)
    ensures var w := WalkFrom(g, order, images, parent, stack);
      w.stop.Repeats? ==> exists cycle :: IsCycle(g, cycle) && cycle[0] == w.stop.name
    decreases |g.Keys - Members(stack)|, |images|
  {
    if |images| > 0 && images[0] in g {
      var p := images[0];
      if p in stack {
        StackCycle(g, stack, p);
      } else {
        var deps := Dependents(g, order, g[p].image);
        Shrinks(g, stack, p);
        ChainExtends(g, stack, p);
        WalkRepeats(g, order, deps, Some(p), stack + [p]);
        WalkRepeats(g, order, images[1..], parent, stack);
        WalkVisit(g, order, images, parent, stack);
      }
    }
  }

  /** A folder that depends on the top of a chain it already lies on closes a cycle through itself. */
  lemma StackCycle(g: Graph, stack: seq<string>, p: string)
    requires IsChain(g, stack) && |stack| > 0 && p in stack
    requires IsDependent(g, stack[|stack| - 1], p)
    ensures exists cycle :: IsCycle(g, cycle) && cycle[0] == p
  {
    var k :| 0 <= k < |stack| && stack[k] == p;
    var cycle := stack[k..] + [p];
    assert IsCycle(g, cycle);
  }

  /** A chain extended by a dependent of its last folder is a chain. */
  lemma ChainExtends(g: Graph, stack: seq<string>, p: string)
    requires IsChain(g, stack)
    requires |stack| > 0 ==> IsDependent(g, stack[|stack| - 1], p)
    ensures IsChain(g, stack + [p])
  {
  }

  /** A walk stops with Unknown only on a listed folder that is not in the map. */
  lemma {:induction false} WalkUnknown(g: Graph, order: seq<string>, images: seq<string>, parent: Option<string>, stack: seq<string>)
    ensures var w := WalkFrom(g, order, images, parent, stack);
      w.stop.Unknown? ==> w.stop.name in images && w.stop.name !in g
    decreases |g.Keys - Members(stack)|, |images|
  {
    if |images| > 0 && images[0] in g && images[0] !in stack {
      var p := images[0];
      var deps := Dependents(g, order, g[p].image);
      Shrinks(g, stack, p);
      WalkUnknown(g, order, deps, Some(p), stack + [p]);
      WalkUnknown(g, order, images[1..], parent, stack);
    }
  }

  /**
    A walk from one folder visits it first, from no parent, and never
    again: reaching it again would mean walking a cycle, which stops the
    walk instead.
   */
  lemma RootOnce(g: Graph, order: seq<string>, root: string)
    requires root in g
    ensures var w := WalkFrom(g, order, [root], None, []);
      && |w.visits| > 0 && w.visits[0] == Visit(root, None)
      && forall i :: 0 < i < |w.visits| ==> w.visits[i].name != root
  {
    var w := WalkFrom(g, order, [root], None, []);
    var sub := WalkFrom(g, order, Dependents(g, order, g[root].image), Some(root), [root]);
    assert Members([root]) == Members([]) + {root};
    assert g.Keys - Members([]) == (g.Keys - Members([root])) + {root};
    assert [root][1..] == [] && [] + [root] == [root];
    var rest := WalkFrom(g, order, [root][1..], None, []);
    assert rest.visits == [];
    assert w.visits == [Visit(root, None)] + sub.visits;
    forall i | 0 < i < |w.visits| ensures w.visits[i].name != root {
      assert w.visits[i] == sub.visits[i - 1];
    }
  }

  /** The walk from a folder that is visited: the folder, the walk below it, then the walk of the rest. */
  lemma WalkVisit(g: Graph, order: seq<string>, images: seq<string>, parent: Option<string>, stack: seq<string>)
    requires |images| > 0 && images[0] in g && images[0] !in stack
    ensures var p := images[0];
      var sub := WalkFrom(g, order, Dependents(g, order, g[p].image), Some(p), stack + [p]);
      var rest := WalkFrom(g, order, images[1..], parent, stack);
      WalkFrom(g, order, images, parent, stack)
        == if sub.stop != Complete then Walk([Visit(p, parent)] + sub.visits, sub.stop)
           else Walk([Visit(p, parent)] + sub.visits + rest.visits, rest.stop)
  {
  }

  /** Two maps whose folders have the same images and FROM references. */
  predicate SameEdges(g: Graph, h: Graph) {
    && g.Keys == h.Keys
    && forall k <- g.Keys :: g[k].image == h[k].image && g[k].fromImage == h[k].fromImage
  }

  /** The walk reads nothing of a folder but its image and FROM reference. */
  lemma {:induction false} WalkFrame(g: Graph, h: Graph, order: seq<string>, images: seq<string>, parent: Option<string>, stack: seq<string>)
    requires SameEdges(g, h)
    ensures WalkFrom(g, order, images, parent, stack) == WalkFrom(h, order, images, parent, stack)
    decreases |g.Keys - Members(stack)|, |images|
  {
    if |images| > 0 && images[0] in g && images[0] !in stack {
      var p := images[0];
      DependentsFrame(g, h, order, g[p].image);
      Shrinks(g, stack, p);
      WalkFrame(g, h, order, Dependents(g, order, g[p].image), Some(p), stack + [p]);
      WalkFrame(g, h, order, images[1..], parent, stack);
    }
  }

  /** The folders visited. */
  function Names(visits: seq<Visit>): set<string> {
    set v | v in visits :: v.name
  }

  /** The folders visited from a parent: those whose Dockerfile updateVersions edits. */
  function Rewritten(visits: seq<Visit>): set<string> {
    set v | v in visits && v.parent.Some? :: v.name
  }

  /** No folder is visited twice. */
  predicate Once(visits: seq<Visit>) {
    forall i, j :: 0 <= i < j < |visits| ==> visits[i].name != visits[j].name
  }

  /** `c` is a chain from a listed folder to `x` through the folders `names` only. */
  predicate Leads(g: Graph, c: seq<string>, images: seq<string>, names: set<string>, x: string) {
    && IsChain(g, c) && |c| > 0 && c[0] in images && c[|c| - 1] == x
    && forall k :: 0 <= k < |c| ==> c[k] in names
  }

  /** Every visit of a grounded list is led to by a chain from a listed folder through visited folders. */
  lemma {:induction false} VisitChain(g: Graph, visits: seq<Visit>, images: seq<string>, parent: Option<string>, i: nat)
    requires i < |visits| && Grounded(g, visits, images, parent)
    ensures exists c :: Leads(g, c, images, Names(visits), visits[i].name)
    decreases i
  {
    var names := Names(visits);
    assert visits[i] in visits;
    assert Rooted(g, visits, i, images, parent);
    if visits[i].parent == parent && visits[i].name in images {
      assert Leads(g, [visits[i].name], images, names, visits[i].name);
    } else {
      var j :| 0 <= j < i && Spawns(g, visits[j], visits[i]);
      VisitChain(g, visits, images, parent, j);
      var c :| Leads(g, c, images, names, visits[j].name);
      var d := c + [visits[i].name];
      assert IsChain(g, d) by {
        forall k | 0 <= k < |d| - 1 ensures IsDependent(g, d[k], d[k + 1]) {
          if k < |c| - 1 {
            assert d[k] == c[k] && d[k + 1] == c[k + 1];
          }
        }
      }
      assert Leads(g, d, images, names, visits[i].name);
    }
  }

  /** Below a folder, every visit is made from a parent. */
  lemma GroundedBelowAll(g: Graph, visits: seq<Visit>, images: seq<string>, p: string)
    requires Grounded(g, visits, images, Some(p))
    ensures Names(visits) == Rewritten(visits)
  {
    forall x | x in Names(visits) ensures x in Rewritten(visits) {
      var i :| 0 <= i < |visits| && visits[i].name == x;
      assert Rooted(g, visits, i, images, Some(p));
      assert visits[i] in visits;
    }
  }

  /**
    Two chains that end at the same folder, when every folder of `s` after
    the first has one possible parent: one chain starts on the other.
   */
  lemma {:induction false} ChainsMeet(g: Graph, s: seq<string>, t: seq<string>)
    requires IsChain(g, s) && IsChain(g, t) && |s| > 0 && |t| > 0 && s[|s| - 1] == t[|t| - 1]
    requires forall k :: 1 <= k < |s| ==> SoleParent(g, s[k])
    ensures s[0] in t || t[0] in s
    decreases |s| + |t|
  {
    if |s| == 1 {
      assert s[0] == t[|t| - 1];
    } else if |t| == 1 {
      assert t[0] == s[|s| - 1];
    } else {
      var s' := s[..|s| - 1];
      var t' := t[..|t| - 1];
      assert IsDependent(g, s[|s| - 2], s[|s| - 1]) && IsDependent(g, t[|t| - 2], t[|t| - 1]);
      assert SoleParent(g, s[|s| - 1]);
      assert IsChain(g, s') by {
        forall k | 0 <= k < |s'| - 1 ensures IsDependent(g, s'[k], s'[k + 1]) {
          assert s'[k] == s[k] && s'[k + 1] == s[k + 1];
        }
      }
      assert IsChain(g, t') by {
        forall k | 0 <= k < |t'| - 1 ensures IsDependent(g, t'[k], t'[k + 1]) {
          assert t'[k] == t[k] && t'[k + 1] == t[k + 1];
        }
      }
      assert forall k :: 1 <= k < |s'| ==> SoleParent(g, s'[k]) by {
        forall k | 1 <= k < |s'| ensures SoleParent(g, s'[k]) {
          assert s'[k] == s[k];
        }
      }
      ChainsMeet(g, s', t');
      if s[0] in t' {
        var k :| 0 <= k < |t'| && t'[k] == s[0];
        assert t[k] == s[0];
      } else {
        var k :| 0 <= k < |s'| && s'[k] == t[0];
        assert s[k] == t[0];
      }
    }
  }

  /** A folder with one possible parent, reached along a chain past its first folder, is reached from that parent. */
  lemma ChainEntry(g: Graph, c: seq<string>, m: nat, top: string)
    requires IsChain(g, c) && 1 <= m < |c|
    requires SoleParent(g, c[m]) && IsDependent(g, top, c[m])
    ensures c[m - 1] == top
  {
    assert IsDependent(g, c[m - 1], c[m]);
  }

  /**
    The walk of a folder's dependents and the walk of the folders listed
    after it meet no common folder, nor that folder itself: reaching one of
    them from the other side would pass through the open parent.
   */
  lemma SiblingsApart(g: Graph, order: seq<string>, images: seq<string>, parent: Option<string>, stack: seq<string>)
    requires Enumerates(g, order)
    requires parent.Some? && Nested(g, images, parent, stack)
    requires forall i, j :: 0 <= i < j < |images| ==> images[i] != images[j]
    requires |images| > 0 && images[0] in g && images[0] !in stack
    requires var p := images[0];
      var sub := WalkFrom(g, order, Dependents(g, order, g[p].image), Some(p), stack + [p]);
      var rest := WalkFrom(g, order, images[1..], parent, stack);
      && SoleParent(g, p)
      && (forall x <- Names(sub.visits) :: SoleParent(g, x))
      && (forall x <- Names(rest.visits) :: SoleParent(g, x))
    ensures var p := images[0];
      var sub := WalkFrom(g, order, Dependents(g, order, g[p].image), Some(p), stack + [p]);
      var rest := WalkFrom(g, order, images[1..], parent, stack);
      && p !in Names(rest.visits)
      && Names(sub.visits) !! Names(rest.visits)
  {
    var p := images[0];
    var deps := Dependents(g, order, g[p].image);
    var tail := images[1..];
    var sub := WalkFrom(g, order, deps, Some(p), stack + [p]);
    var rest := WalkFrom(g, order, tail, parent, stack);
    assert parent.value in stack by {
      assert stack[|stack| - 1] == parent.value;
    }
    assert p !in tail by {
      forall k | 0 <= k < |tail| ensures tail[k] != p {
        assert tail[k] == images[k + 1];
      }
    }
    assert forall d <- deps :: IsDependent(g, p, d);
    assert forall q <- tail :: IsDependent(g, parent.value, q);
    WalkParents(g, order, deps, Some(p), stack + [p]);
    WalkParents(g, order, tail, parent, stack);
    Apart(g, p, parent.value, stack, deps, tail, parent, sub.visits, rest.visits);
  }

  /** SiblingsApart on the two visit lists alone. */
  lemma Apart(g: Graph, p: string, top: string, stack: seq<string>, deps: seq<string>, tail: seq<string>,
              parent: Option<string>, sub: seq<Visit>, rest: seq<Visit>)
    requires top in stack && p !in stack && p !in tail
    requires forall d <- deps :: IsDependent(g, p, d)
    requires forall q <- tail :: IsDependent(g, top, q)
    requires IsDependent(g, top, p) && SoleParent(g, p)
    requires forall v <- sub :: v.name !in stack
    requires forall v <- rest :: v.name !in stack
    requires forall x <- Names(sub) :: SoleParent(g, x)
    requires forall x <- Names(rest) :: SoleParent(g, x)
    requires Grounded(g, sub, deps, Some(p)) && Grounded(g, rest, tail, parent)
    ensures p !in Names(rest) && Names(sub) !! Names(rest)
  {
    assert forall x <- Names(rest) :: x !in stack;
    assert forall x <- Names(sub) :: x !in stack;
    if p in Names(rest) {
      var i :| 0 <= i < |rest| && rest[i].name == p;
      VisitChain(g, rest, tail, parent, i);
      var c :| Leads(g, c, tail, Names(rest), p);
      Reentry(g, c, tail, Names(rest), p, top);
      assert false;
    }
    forall y | y in Names(sub) ensures y !in Names(rest) {
      if y in Names(rest) {
        var i :| 0 <= i < |sub| && sub[i].name == y;
        var j :| 0 <= j < |rest| && rest[j].name == y;
        VisitChain(g, sub, deps, Some(p), i);
        VisitChain(g, rest, tail, parent, j);
        var cs :| Leads(g, cs, deps, Names(sub), y);
        var ct :| Leads(g, ct, tail, Names(rest), y);
        ApartMeet(g, p, top, deps, tail, Names(sub), Names(rest), cs, ct, y);
        assert false;
      }
    }
  }

  /** A chain from the listed folders to their sibling `p` passes through the parent `top`. */
  lemma Reentry(g: Graph, c: seq<string>, tail: seq<string>, names: set<string>, p: string, top: string)
    requires Leads(g, c, tail, names, p) && p !in tail
    requires IsDependent(g, top, p) && SoleParent(g, p)
    ensures top in names
  {
    ChainEntry(g, c, |c| - 1, top);
  }

  /**
    Chains to one folder, from below `p` and from a sibling of `p`, pass
    through the parent `top` of both.
   */
  lemma ApartMeet(g: Graph, p: string, top: string, deps: seq<string>, tail: seq<string>,
                  subNames: set<string>, restNames: set<string>, cs: seq<string>, ct: seq<string>, y: string)
    requires p !in tail
    requires forall d <- deps :: IsDependent(g, p, d)
    requires forall q <- tail :: IsDependent(g, top, q)
    requires IsDependent(g, top, p) && SoleParent(g, p)
    requires forall x <- subNames :: SoleParent(g, x)
    requires forall x <- restNames :: SoleParent(g, x)
    requires Leads(g, cs, deps, subNames, y) && Leads(g, ct, tail, restNames, y)
    ensures top == p || top in subNames || top in restNames
  {
    var s := [p] + cs;
    assert IsChain(g, s) by {
      forall k | 0 <= k < |s| - 1 ensures IsDependent(g, s[k], s[k + 1]) {
        if k > 0 {
          assert s[k] == cs[k - 1] && s[k + 1] == cs[k];
        }
      }
    }
    assert forall k :: 1 <= k < |s| ==> SoleParent(g, s[k]) by {
      forall k | 1 <= k < |s| ensures SoleParent(g, s[k]) {
        assert s[k] == cs[k - 1];
      }
    }
    ChainsMeet(g, s, ct);
    if p in ct {
      var m :| 0 <= m < |ct| && ct[m] == p;
      assert m != 0;
      ChainEntry(g, ct, m, top);
    } else {
      var q := ct[0];
      var m :| 0 <= m < |s| && s[m] == q;
      assert m != 0;
      ChainEntry(g, s, m, top);
      if m > 1 {
        assert s[m - 1] == cs[m - 2];
      }
    }
  }

  /** Two visit lists without repeats and without a common folder make one without repeats. */
  lemma OnceAppend(a: seq<Visit>, b: seq<Visit>)
    requires Once(a) && Once(b) && Names(a) !! Names(b)
    ensures Once(a + b)
  {
    var ab := a + b;
    forall i, j | 0 <= i < j < |ab| ensures ab[i].name != ab[j].name {
      if j < |a| {
        assert ab[i] == a[i] && ab[j] == a[j];
      } else if i < |a| {
        assert ab[i] == a[i] && ab[j] == b[j - |a|];
        assert a[i] in a && b[j - |a|] in b;
        assert a[i].name in Names(a) && b[j - |a|].name in Names(b);
      } else {
        assert ab[i] == b[i - |a|] && ab[j] == b[j - |a|];
      }
    }
  }

  lemma NamesAppend(a: seq<Visit>, b: seq<Visit>)
    ensures Names(a + b) == Names(a) + Names(b)
  {
    assert forall v :: v in a + b <==> v in a || v in b;
  }

  /** The visits of a walk that opens its first folder, and the folders they name. */
  lemma WalkParts(g: Graph, order: seq<string>, images: seq<string>, parent: Option<string>, stack: seq<string>)
    requires |images| > 0 && images[0] in g && images[0] !in stack
    ensures var p := images[0];
      var sub := WalkFrom(g, order, Dependents(g, order, g[p].image), Some(p), stack + [p]);
      var rest := WalkFrom(g, order, images[1..], parent, stack);
      var w := WalkFrom(g, order, images, parent, stack);
      && w.visits == [Visit(p, parent)] + sub.visits + (if sub.stop == Complete then rest.visits else [])
      && Names(w.visits) == {p} + Names(sub.visits) + (if sub.stop == Complete then Names(rest.visits) else {})
      && p !in Names(sub.visits)
  {
    var p := images[0];
    var sub := WalkFrom(g, order, Dependents(g, order, g[p].image), Some(p), stack + [p]);
    var rest := WalkFrom(g, order, images[1..], parent, stack);
    WalkVisit(g, order, images, parent, stack);
    var more := if sub.stop == Complete then rest.visits else [];
    assert Names([Visit(p, parent)]) == {p};
    NamesAppend([Visit(p, parent)], sub.visits);
    NamesAppend([Visit(p, parent)] + sub.visits, more);
    assert forall x <- Names(sub.visits) :: x !in stack + [p];
  }

  /** The arguments of the two walks a visit starts fit together as the visit's own did. */
  lemma NestedParts(g: Graph, order: seq<string>, images: seq<string>, parent: Option<string>, stack: seq<string>)
    requires Enumerates(g, order)
    requires parent.Some? && Nested(g, images, parent, stack)
    requires forall i, j :: 0 <= i < j < |images| ==> images[i] != images[j]
    requires |images| > 0 && images[0] in g
    ensures var p := images[0];
      var deps := Dependents(g, order, g[p].image);
      && Nested(g, deps, Some(p), stack + [p])
      && (forall i, j :: 0 <= i < j < |deps| ==> deps[i] != deps[j])
      && Nested(g, images[1..], parent, stack)
      && (forall i, j :: 0 <= i < j < |images[1..]| ==> images[1..][i] != images[1..][j])
  {
    var p := images[0];
    var tail := images[1..];
    ChainExtends(g, stack, p);
    assert forall d <- Dependents(g, order, g[p].image) :: IsDependent(g, p, d);
    forall i, j | 0 <= i < j < |tail| ensures tail[i] != tail[j] {
      assert tail[i] == images[i + 1] && tail[j] == images[j + 1];
    }
  }

  /** A visit, the walk below it and the walk after it, without repeats and apart, repeat no folder. */
  lemma OnceParts(p: string, parent: Option<string>, sub: Walk, rest: Walk, visits: seq<Visit>)
    requires visits == [Visit(p, parent)] + sub.visits + (if sub.stop == Complete then rest.visits else [])
    requires Once(sub.visits) && p !in Names(sub.visits)
    requires sub.stop == Complete ==>
      Once(rest.visits) && p !in Names(rest.visits) && Names(sub.visits) !! Names(rest.visits)
    ensures Once(visits)
  {
    var head := [Visit(p, parent)] + sub.visits;
    NamesAppend([Visit(p, parent)], sub.visits);
    OnceAppend([Visit(p, parent)], sub.visits);
    if sub.stop == Complete {
      OnceAppend(head, rest.visits);
    } else {
      assert visits == head;
    }
  }

  /**
    Below an open folder, a walk visits no folder twice when every folder
    it visits has one possible parent.
   */
  lemma {:induction false} WalkOnce(g: Graph, order: seq<string>, images: seq<string>, parent: Option<string>, stack: seq<string>)
    requires Enumerates(g, order)
    requires parent.Some? && Nested(g, images, parent, stack)
    requires forall i, j :: 0 <= i < j < |images| ==> images[i] != images[j]
    requires forall x <- Names(WalkFrom(g, order, images, parent, stack).visits) :: SoleParent(g, x)
    ensures Once(WalkFrom(g, order, images, parent, stack).visits)
    decreases |g.Keys - Members(stack)|, |images|
  {
    if |images| > 0 && images[0] in g && images[0] !in stack {
      var p := images[0];
      var deps := Dependents(g, order, g[p].image);
      var tail := images[1..];
      Shrinks(g, stack, p);
      var sub := WalkFrom(g, order, deps, Some(p), stack + [p]);
      var rest := WalkFrom(g, order, tail, parent, stack);
      WalkParts(g, order, images, parent, stack);
      NestedParts(g, order, images, parent, stack);
      WalkOnce(g, order, deps, Some(p), stack + [p]);
      if sub.stop == Complete {
        WalkOnce(g, order, tail, parent, stack);
        SiblingsApart(g, order, images, parent, stack);
      }
      OnceParts(p, parent, sub, rest, WalkFrom(g, order, images, parent, stack).visits);
    }
  }

  /**
    The walk from one folder visits no folder twice when every folder it
    reaches from a parent has one possible parent.
   */
  lemma RootWalkOnce(g: Graph, order: seq<string>, root: string)
    requires Enumerates(g, order) && root in g
    requires forall x <- Rewritten(WalkFrom(g, order, [root], None, []).visits) :: SoleParent(g, x)
    ensures Once(WalkFrom(g, order, [root], None, []).visits)
  {
    var w := WalkFrom(g, order, [root], None, []);
    var deps := Dependents(g, order, g[root].image);
    var sub := WalkFrom(g, order, deps, Some(root), [root]);
    assert [] + [root] == [root];
    WalkParts(g, order, [root], None, []);
    assert w.visits == [Visit(root, None)] + sub.visits;
    WalkParents(g, order, deps, Some(root), [root]);
    GroundedBelowAll(g, sub.visits, deps, root);
    assert Rewritten(sub.visits) <= Rewritten(w.visits) by {
      forall x | x in Rewritten(sub.visits) ensures x in Rewritten(w.visits) {
        var v :| v in sub.visits && v.parent.Some? && v.name == x;
        assert v in w.visits;
      }
    }
    assert forall d <- deps :: IsDependent(g, root, d);
    WalkOnce(g, order, deps, Some(root), [root]);
    NamesAppend([Visit(root, None)], sub.visits);
    OnceAppend([Visit(root, None)], sub.visits);
  }
}
