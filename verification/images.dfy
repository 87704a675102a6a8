/**
  The dependency map: one node per image folder, keyed by folder name,
  with the edges left implicit. A folder depends on another when its
  Dockerfile's FROM reference is the other's image reference.
 */
module Images {
  import opened Components

  /** BuildStatus, whose text is "" until a build starts. */
  datatype Status = NotStarted | Building | Failed | Succeeded

  function StatusText(s: Status): string {
    match s
    case NotStarted => ""
    case Building => "building"
    case Failed => "failed"
    case Succeeded => "success"
  }

  /**
    DockerImage. `dockerFile` holds the Dockerfile's lines, `fromLine` the
    index of its FROM line and `fromImage` the reference that line names;
    `image` is the folder's own reference, registry/name:version.
   */
  datatype Node = Node(
    name: string,
    image: string,
    version: string,
    fromImage: string,
    dockerFile: seq<string>,
    fromLine: nat,
    status: Status)

  type Graph = map<string, Node>

  /**
    The settings one build runs with: the registry prefix, the component
    to bump, the folder holding the image folders, and the --dry-run and
    --no-push flags.
   */
  datatype Config = Config(registry: string, component: Component, basePath: string, dryRun: bool, noPush: bool)

  /** registry/name:version, the reference other Dockerfiles name in FROM. */
  function ImageRef(registry: string, name: string, version: string): string {
    registry + "/" + name + ":" + version
  }

  /** `child` is built FROM `parent`'s image. */
  predicate IsDependent(g: Graph, parent: string, child: string) {
    parent in g && child in g && g[child].fromImage == g[parent].image
  }

  /** At most one folder of the map has the image `child` is built FROM. */
  ghost predicate SoleParent(g: Graph, child: string) {
    forall a, b :: IsDependent(g, a, child) && IsDependent(g, b, child) ==> a == b
  }

  /** `order` lists every folder of `g` exactly once: Go's range over the map. */
  predicate Enumerates(g: Graph, order: seq<string>) {
    && (forall k <- g.Keys :: k in order)
    && (forall k <- order :: k in g)
    && (forall i, j :: 0 <= i < j < |order| ==> order[i] != order[j])
  }

  /**
    The folders whose FROM reference is `image`, in the order the map is
    ranged over. Only the FROM reference read from disk and the image
    reference are compared, so a version written since then does not
    change the answer.
   */
  function Dependents(g: Graph, order: seq<string>, image: string): (r: seq<string>)
    ensures forall k :: k in r <==> k in order && k in g && g[k].fromImage == image
    ensures (forall i, j :: 0 <= i < j < |order| ==> order[i] != order[j]) ==>
      forall i, j :: 0 <= i < j < |r| ==> r[i] != r[j]
    decreases |order|
  {
    if |order| == 0 then []
    else
      var rest := Dependents(g, order[1..], image);
      assert forall i, j :: 0 <= i < j < |order| - 1 ==> order[1..][i] == order[i + 1] && order[1..][j] == order[j + 1];
      assert order[0] !in order[1..] <== forall j :: 0 < j < |order| ==> order[0] != order[j];
      if order[0] in g && g[order[0]].fromImage == image then [order[0]] + rest else rest
  }

  /** With an enumeration of the map, Dependents lists exactly the dependents of `parent`. */
  lemma DependentsExact(g: Graph, order: seq<string>, parent: string, child: string)
    requires Enumerates(g, order) && parent in g
    ensures child in Dependents(g, order, g[parent].image) <==> IsDependent(g, parent, child)
  {
  }

  /** Dependents reads nothing of a node but its fromImage. */
  lemma DependentsFrame(g: Graph, h: Graph, order: seq<string>, image: string)
    requires g.Keys == h.Keys
    requires forall k :: k in g ==> g[k].fromImage == h[k].fromImage
    ensures Dependents(g, order, image) == Dependents(h, order, image)
    decreases |order|
  {
    if |order| > 0 {
      DependentsFrame(g, h, order[1..], image);
    }
  }
}
