# docker-chain-builder, modelled in Dafny

docker-chain-builder rebuilds a chain of Docker images. Each image lives in its own folder, which holds a `Dockerfile` and a `VERSION` file. A folder depends on another when its Dockerfile's `FROM` line names the other folder's image, `registry/folder:version`.

The `build` command takes an image folder and a semantic-version component. It runs in two phases:

1. **Update phase** (`updateVersions`). It bumps the `VERSION` file of the folder and of every folder that depends on it, directly or indirectly. For every dependent, it also rewrites the `FROM` line so that it names the parent's new tag.
2. **Build phase** (`buildDockerImages`). It walks the same folders. For each one it runs `docker build` with every tag, records whether the build failed or succeeded, and pushes every tag.

This project models the pure core of `cmd/build.go` and the component check of `test.go`:

- the version-bumping rules (`bumpVersion`, on strict Semantic Versioning 2.0.0 text);
- reading a folder into a node (the line-parsing part of `generateDependencyMap`);
- the one-line `FROM` edit (`updateDockerFile`) and the `VERSION` content (`updateVersionFile`);
- the recursion shared by `updateVersions` and `buildDockerImages`, taken one step at a time in depth-first order;
- the docker argument vectors and the build statuses of `buildDockerImage`;
- the two component validators.

Files and docker commands are values:

- The contents read from disk are parameters.
- The files written are maps from folder to content.
- The docker commands run form a list of argument vectors.
- An `Oracle` says which builds and which pushes fail.
- Go's map iteration order is a parameter `order`, one order for every `range` over the map (see "Left out"). `Enumerates` states when it lists every folder once, as a `range` does.
- `Consistent` states what every map `generateDependencyMap` builds satisfies (`Recipe.Scan`): each node is well formed, its image is `registry/folder:version`, and its reference and index are those of its first FROM line.
- A fatal log or a panic ends a run with a `Halt` value. Work done before it is kept.

Modules, in dependency order:

| module | models |
|---|---|
| `Wrappers` | `Option` and `Result` |
| `Text` | `strings.Split`, `strings.Join`, `strings.HasPrefix`, `strings.Replace` once, counting a character |
| `Decimal` | `%d` / `strconv.Itoa`, `strconv.Atoi` on a 64-bit platform, and `+ 1` wrapping at 64 bits |
| `SemVer` | the version record, the strict grammar, the increments of sections 6 to 8 of Semantic Versioning 2.0.0, and the parse/print round trip |
| `Components` | the five components, `isValidVersion`, `isValidSemverComponent` |
| `Bump` | `bumpVersion` |
| `Images` | the node record, the dependency map, `registry/name:version`, and the dependents of a folder |
| `Recipe` | reading a folder (`FROM` line, `VERSION`) and the `FROM` edit |
| `Traversal` | the walk order of the recursion and its stopping conditions |
| `Docker` | the tags, the `docker build` arguments, and the pushes up to the first failure |
| `Steps` | the state, and the work done at one visit in each phase |
| `Build` | the step-by-step recursion, shown equal to "walk first, then one step per visit" |
| `Command` | what the two phases do, stated over the folders reached from the image folder |

## Model

| member | source | states |
|---|---|---|
| Components.IsValidVersion | cmd/build.go:160-167 | A component spelling is accepted exactly when it is one of the five in `Versions` ("none", "pre", "patch", "minor", "major"). |
| Components.ComponentOfName | cmd/build.go:62-68 | Each component's command-line spelling reads back as that component, and no other spelling does. |
| Components.IsValidSemverComponent | test.go:45-53 | Accepts exactly "major", "minor" and "patch". Refuses "none", "pre" (both of which `isValidVersion` accepts), "" and every other string, "Major" included. |
| Bump.BumpVersion | cmd/build.go:169-206 | The tag list always has one or three elements. |
| Bump.BumpTags | cmd/build.go:169-206 | Text that is not a semantic version comes back alone and unchanged. Otherwise the first tag parses back to the bumped version. An original pre-release gives exactly one tag. A release gives exactly `[full, "M.m", "M"]` of the bumped version. |
| Bump.BumpNone | cmd/build.go:178-205 | `none` keeps major, minor and patch. A release comes back as the same text. A pre-release is replaced by "0". |
| Bump.BumpPreOnRelease | cmd/build.go:182-205 | `pre` on a release version returns the version unchanged, with its "M.m" and "M" tags. |
| Bump.BumpPreNumeric | cmd/build.go:182-203 | `pre` on a numeric pre-release n below 2^63-1 gives exactly the version with pre-release n + 1. |
| Bump.BumpPreNonNumeric | cmd/build.go:182-203 | `pre` on a pre-release that is not an integer, whatever its length, gives pre-release "1" (Atoi's 0 plus one) unless its leading digits overflow 64 bits. |
| Bump.BumpPreOverflow | cmd/build.go:183-187 | A pre-release of 2^63-1 or more is read as 2^63-1 and `+ 1` wraps, so the new pre-release is "-9223372036854775808". |
| Bump.BumpIncrements | cmd/build.go:188-203 | `patch`, `minor` and `major` increment as sections 6 to 8 of Semantic Versioning 2.0.0 say. They drop build metadata and turn an original pre-release into "0". |
| Bump.BumpedValid | cmd/build.go:197-202 | Bumping a valid version gives a valid version, so `SetPrerelease` never hits its error path. |
| Bump.BumpAddsNoChar | cmd/build.go:233-234 | A bump adds no ':' and no newline that its input did not hold. |
| SemVer.ItoaIsPrerelease | cmd/build.go:199 | `strconv.Itoa` of any 64-bit integer, negative ones included, is a legal pre-release identifier. |
| SemVer.ParseFormat | cmd/build.go:203-205 | Printing a valid version and parsing the text gives the version back. |
| SemVer.FormatParse | cmd/build.go:171-175 | Text that parses is valid and prints back as the very same text. |
| Decimal.Atoi | cmd/build.go:183 | The result always fits in int64. On an error the value is 0 or one of the clamping bounds. |
| Decimal.AtoiNat | cmd/build.go:183 | Atoi reads back the decimal text of every number up to 2^63-1, without error. |
| Decimal.AtoiSyntax | cmd/build.go:183-186 | Atoi gives 0 with an error exactly on text that is not an optional sign followed by digits and whose leading digits fit in 64 bits; a longer digit run is a range error before the later character is seen. |
| Decimal.FewDigitsFit | cmd/build.go:183-186 | Fewer than 20 leading digits after the sign always fit in 64 bits (`LeadFits`), the side condition under which `AtoiSyntax` gives 0 for a non-integer. |
| Decimal.AtoiTooLarge | cmd/build.go:183-186 | Digits denoting 2^63-1 or more read as 2^63-1, with an error beyond it. |
| Decimal.Inc64 | cmd/build.go:187 | `n + 1` on a 64-bit int is the sum modulo 2^64, read back as signed. |
| Decimal.NumericRoundTrip | cmd/build.go:205 | A numeric identifier is the `%d` text of the number it denotes. |
| Recipe.FromLineIndex | cmd/build.go:401-408 | The index is that of the first line starting with "FROM", or the number of lines when no line does. |
| Recipe.FromOf | cmd/build.go:395-408 | With no "FROM" line, the reference is "" and the index 0. Otherwise the index is the first "FROM" line, and the reference is that line with its first "FROM " removed. |
| Recipe.ReadVersion | cmd/build.go:411-413 | The version is the text of the `VERSION` file up to its first newline ("" for an unreadable file) and holds no newline. |
| Recipe.ScanImage | cmd/build.go:395-420 | A node's lines are the Dockerfile split on newlines and join back to it. Its image is `registry/name:version`. Its reference and index are those of its first "FROM" line. |
| Recipe.Scan | cmd/build.go:385-423 | The map has a node exactly for each entry with a readable Dockerfile. A folder's node is the one read from the last entry of that name, so a later entry replaces an earlier one as `di[dirName]` does. Every node is keyed by its folder, not yet built, and consistent: image `registry/folder:version`, reference and index of its first FROM line. |
| Recipe.RewriteLine | cmd/build.go:226-234 | The edit succeeds exactly when the line holds one ':'. No ':' is an index panic; more than one is the fatal "Can't parse FROM". |
| Recipe.RewriteFrom | cmd/build.go:223-235 | Only the line at the FROM index changes, to the edited line. It fails when that index is past the end or the line does not hold exactly one ':'. |
| Recipe.RewriteLineShape | cmd/build.go:227-235 | An edited line still holds exactly one ':' and no newline, so a later edit can split it again. |
| Recipe.RewriteEdge | cmd/build.go:226-235 | A line naming `registry/name:version`, with no ':' in any part, is edited to name the same image at the first tag of the bump. |
| Recipe.RewritePortRegistry | cmd/build.go:227-231 | With a registry that carries a port (a ':'), every FROM line naming it is refused as unparsable. |
| Recipe.VersionReadBack | cmd/build.go:208-210 | Reading back the `VERSION` content written gives the first tag of the bump. |
| Recipe.RescanFrom | cmd/build.go:235-237 | The Dockerfile written after the edit, read again, names what follows "FROM " on the new line. |
| Recipe.FromColons | cmd/build.go:226-231 | When the edit accepts a node's FROM line, the reference read from that line holds exactly one ':' as well, or is empty. |
| Recipe.RefNamesOne | cmd/build.go:414 | Two folders whose images are the same reference, holding a single ':', are the same folder. |
| Recipe.SoleParentOf | cmd/build.go:226-231 | In a scanned map, a folder whose FROM line the edit accepts is built FROM at most one folder of the map. |
| Recipe.EdgeSurvives | cmd/build.go:223-237 | The dependency edge survives the bump: the edited Dockerfile, read again, names exactly the parent's image read again after its `VERSION` was rewritten. |
| Images.Dependents | cmd/build.go:255-261 | Lists exactly the folders of the map whose FROM reference is the image, each once when the order lists each folder once. |
| Images.DependentsExact | cmd/build.go:256-261 | With an enumeration of the map, the dependents of a folder are exactly the folders that depend on it. |
| Traversal.WalkFrom | cmd/build.go:249-265 | Every visited folder is in the map, and none is one whose dependents are still being walked. |
| Traversal.WalkParents | cmd/build.go:249-265 | Every visit is a listed folder, or a dependent of an earlier visit reached from it. |
| Traversal.WalkCloses | cmd/build.go:250-264 | A walk that completes visits every listed folder, and every dependent of every visited folder from that folder. |
| Traversal.WalkCompletes | cmd/build.go:249-265 | Without a dependency cycle, a walk from folders that all exist completes. |
| Traversal.WalkRepeats | cmd/build.go:249-265 | A walk stops for endless recursion only on a real cycle through the folder it names. |
| Traversal.WalkUnknown | cmd/build.go:208-209 | A walk stops for a missing folder only on a listed folder that is not in the map. |
| Traversal.RootOnce | cmd/build.go:249-265 | The walk from a folder visits it first, from no parent, and never again. |
| Traversal.WalkOnce | cmd/build.go:255-263 | Below an open folder, when every visited folder has at most one possible parent, the walk visits no folder twice. |
| Traversal.RootWalkOnce | cmd/build.go:249-265 | The walk from the image folder visits no folder twice when every folder it reaches from a parent has at most one possible parent. |
| Traversal.WalkFrame | cmd/build.go:256-261 | The walk reads nothing of a node but its image and FROM reference. |
| Docker.Tags | cmd/build.go:290-296 | Each tag is `registry/folder:version` for the corresponding version. |
| Docker.TagFlags | cmd/build.go:300-302 | Each tag is preceded by "-t". |
| Docker.BuildArgs | cmd/build.go:298-304 | The arguments are "build", "--pull", then "-t" before each tag, then the folder's path. |
| Docker.ArgTagsOfBuild | cmd/build.go:298-304 | The tags can be read back out of the build arguments. |
| Docker.Pushes | cmd/build.go:327-340 | Tags are pushed in order, up to and including the first whose push fails, and no further. No failure means every tag was pushed. |
| Steps.UpdateVersionFile | cmd/build.go:208-221 | Outside a dry run it writes the folder's `VERSION` file, and reading that file back as `generateDependencyMap` does gives the first tag of the bump. In a dry run it writes nothing. Nothing else changes. |
| Steps.UpdateDockerFile | cmd/build.go:223-247 | A bad FROM line halts the run. Otherwise the map's lines get the edit even in a dry run. Outside one, the Dockerfile written splits back on newlines into exactly the map's new lines, so reading it again gives what the map holds. Nothing else changes. |
| Steps.EditedSplits | cmd/build.go:233-237 | The edited lines of a well-formed node hold no newline, so joining them and splitting the result on newlines gives them back. |
| Steps.BuildTags | cmd/build.go:290-296 | There is one tag per element of the bump list, plus one. The tag at each position is `registry/folder:t` for the bump's tag `t` at that position, and the last is `registry/folder:latest`. |
| Steps.BuildImage | cmd/build.go:289-342 | A dry run changes nothing. Otherwise the status becomes "failed" or "success" from the build alone. Unless pushes are off, every tag is pushed whatever the build did, and a failed push halts. |
| Steps.StepUpdate | cmd/build.go:250-254 | An update step writes its folder's `VERSION` file and, below the top level, its Dockerfile. It changes no other folder and sets no status. |
| Steps.RunUpdateVersions | cmd/build.go:249-265 | Outside a dry run, the `VERSION` files written are those of the visited folders, each with its bumped version. |
| Steps.RunUpdateDockerFiles | cmd/build.go:252-254 | The Dockerfiles written are exactly those of the folders visited from a parent. |
| Steps.RunSynced | cmd/build.go:235-245 | Every Dockerfile written holds the map's current lines for its folder. |
| Steps.RunKeepsLines | cmd/build.go:252-254 | A folder never visited from a parent keeps its Dockerfile lines. |
| Steps.RunEditsSucceed | cmd/build.go:223-235 | An update run that does not halt edits, at every folder it visits from a parent, a FROM line that the map it started from already accepts. |
| Steps.RunEditsOnce | cmd/build.go:223-254 | When the run visits each folder once, every Dockerfile it writes is that folder's original lines with the FROM line edited once. |
| Steps.RunBuildStatus | cmd/build.go:267-287 | The build phase sets the status of each visited folder from its own build only, and writes no file. |
| Steps.RunBuildCommands | cmd/build.go:298-306 | With pushes off, the commands are one `docker build` per visit, in visit order. |
| Steps.RunBuildKeeps | cmd/build.go:289-342 | The build phase writes no file and changes no Dockerfile line, even when a failed push halts it. |
| Steps.RunBuildDry | cmd/build.go:312-330 | A dry run of the build phase changes nothing. |
| Build.Recurse | cmd/build.go:249-266 | The shared recursion never changes an image, a FROM reference or a version, and it leaves a halted run alone. |
| Build.RecurseIsPlanned | cmd/build.go:255-263 | Computing dependents from the map as it stands mid-recursion gives the same result as walking the unchanged map first and then stepping each visit. |
| Build.TraverseIsPlanned | cmd/build.go:249-287 | Either phase equals the walk of the map, one step per visit, then the walk's end. |
| Build.UpdateVersions | cmd/build.go:249-266 | updateVersions runs no docker command, sets no build status, changes only Dockerfile lines in the map, and does nothing once a fatal error has ended the run. |
| Build.BuildDockerImages | cmd/build.go:267-287 | buildDockerImages writes no file, edits no Dockerfile line, changes only statuses in the map, and does nothing once a fatal error has ended the run. |
| Build.BuildAll | cmd/build.go:149-154 | The files written are the update phase's. An update that halts ends the command with nothing built. The map keeps its folders, images, references and versions. |
| Command.ReachedDescends | cmd/build.go:249-265 | Every reached folder builds, through a chain of FROM references, on the image folder. When the walk completes, every such folder is reached. |
| Command.RewrittenReached | cmd/build.go:252-263 | The folders visited from a parent are exactly the reached folders other than the image folder. |
| Command.Halts | cmd/build.go:249-265 | A missing image folder halts at once. A present one never halts for a missing folder. Endless recursion means a dependency cycle. A run that does not halt walked the whole tree. |
| Command.Acyclic | cmd/build.go:249-287 | Without a cycle, a phase halts only for a bad FROM line or a failed push. |
| Command.UpdateVersionFiles | cmd/build.go:208-265 | The update phase writes exactly the `VERSION` files of the reached folders, each with its bumped version. |
| Command.UpdateDockerFiles | cmd/build.go:223-265 | It writes exactly the Dockerfiles of the reached folders below the image folder, each holding the map's lines, and never the image folder's own. For a scanned map and an order listing each folder once, each Dockerfile written is the folder's original Dockerfile with its FROM line edited exactly once. |
| Command.UpdateEdits | cmd/build.go:223-265 | In a scanned map, an update that does not halt edits each Dockerfile it writes once, from the lines it was read with. |
| Command.UpdateQuiet | cmd/build.go:249-265 | The update phase runs no docker command and sets no status. |
| Command.UpdateDry | cmd/build.go:208-247 | A dry run of the update phase writes no file. |
| Command.BuildStatuses | cmd/build.go:267-326 | Each reached folder gets the status of its own build, and every other folder keeps its status. |
| Command.BuildBelowFailure | cmd/build.go:271-320 | A failed build does not stop the builds below it: a dependent of a reached folder is built with its own outcome. |
| Command.BuildDry | cmd/build.go:289-342 | A dry run of the build phase changes no status and runs nothing. |
| Command.BuildNoPush | cmd/build.go:298-327 | With pushes off, the build phase runs one `docker build` per visit of the walk, in the walk's order. |
| Command.BuildAllTags | cmd/build.go:149-154 | When the command does not halt, the map it leaves walks to the same folders. Every reached folder has the status of its own build, and its first tag names the version its new `VERSION` file holds. |

Behaviours of the code worth noting:

- FROM references and versions are not trimmed. `FROM  base:1.0` (two spaces) keeps a leading space in its reference.
- A failed build does not prune the folders below it. They are still built (`Command.BuildBelowFailure`).
- A failed push is fatal (`log.Fatalf`) and ends the whole run, not just that folder.
- A dry run leaves the build status as it was.
- A Dockerfile reached twice would be edited twice, the second time from the already edited lines. In a scanned map this cannot happen when the update does not halt: every edited FROM line holds one ':', so it names one folder, and the walk reaches no folder twice (`Command.UpdateEdits`).
- A dry run of `updateDockerFile` still edits the in-memory Dockerfile lines, because the slice it writes through is the map's own. Only the file write is skipped.

## Left out

- The terminal UI (`gui`, `layout`, the views, the cursor and arrow handlers): presentation only.
- Goroutines and the `WaitGroup` of `buildDockerImages`: the model runs one interleaving, depth first, the order a single goroutine would take. Each goroutine's copy of `DependencyMap` shares the node pointers, so statuses are shared, as in the model.
- Running processes and capturing their output (`exec.Command`, `writeLogs`, `outputLogs`, the `Logs` buffers): replaced by the `Oracle` and by the list of argument vectors.
- Reading and writing files: contents are parameters and results. Failed writes (fatal logs at cmd/build.go:216-219 and 242-245) are not modelled; every write succeeds.
- `generateDependencyGraph` (the dot export), `loadConfFile`, `init`, the cobra/viper wiring, cmd/bump.go and main.go: outside the core.
- The transient "building" status set before `cmd.Run()`: it is always overwritten before the next visit, so only the final status is modelled.
- The unknown-component branch of `bumpVersion` (cmd/build.go:194-195): the `Component` datatype has only the five values, which `isValidVersion` already enforces on the command line.
- Bump.BumpVersion: parses strict Semantic Versioning 2.0.0 text. The Masterminds library's lenient forms (a "v" prefix, "1.2" as "1.2.0") are not accepted.
- Bump.BumpIncrements: the library's `IncPatch` on a pre-release keeps the patch number; the model applies the increment of section 6 of Semantic Versioning 2.0.0 to every version, so with `patch` the model turns "1.2.3-4" into "1.2.4-0" where the library gives "1.2.3-0". For a pre-release the patch bump is stated as the Semantic Versioning rule rather than the library's.
- Recipe.ScanImage: the image reference passes through `fmt.Sprintf` twice in the source (cmd/build.go:414). The outer call treats the reference as a format string, which only matters when a registry, folder or version holds a '%'; the model uses the reference as written.
- Traversal.WalkFrom: on a dependency cycle the Go recursion never returns. The model stops the walk the first time a folder whose dependents are being walked is met again and halts with `EndlessRecursion`. The effects of the endless recursion after that point are not modelled.
- Decimal.Atoi: assumes Go's `int` is 64 bits wide.
- SemVer.Parse: the major, minor and patch numbers are unbounded naturals. The Masterminds library holds them in 64-bit integers, so a component beyond 2^63-1 fails to parse there but parses here.
- One map order for every range: Go picks a fresh iteration order for each `range` over the map. The model passes the single `order` to every dependents lookup, in both phases and at every depth, so the lemmas cover the runs in which all those ranges happen to agree. This fixes the order of the visits and of the docker commands, and which of two halts comes first. When the walk completes, the folders it reaches do not depend on the order (`Command.ReachedDescends`).
