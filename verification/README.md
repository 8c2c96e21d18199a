# Buildrunner, verified

Buildrunner turns a YAML configuration into an ordered list of steps, runs each step in Docker containers, builds images
for several platforms in parallel, and tags, pushes and cleans up. Docker is foreign; the code around it holds
algorithms and protocols of its own. This project models that code in Dafny and proves what it is relied on for.

| Files | Subject |
|---|---|
| `StepOrder`, `StepReordering` | dependency order of the steps |
| `DeepMerge`, `GlobalConfig` | in-place merge of configuration files |
| `Redirect` | configuration files that redirect to others |
| `DefaultTags`, `Validation` | build tags, and which configurations are accepted |
| `Publishing`, `Dockerfiles` | the references really published and the images really reused, against those the checks see |
| `Containers`, `ContainerSites` | the container registry, its exit and signal sweeps, and the five sites that use it |
| `PortWait`, `RunTask` | service containers, their volumes, waiting for ports, and the order of teardown |
| `ImageInfo`, `FanOut`, `ManifestPush` | multi-platform builds and their manifests |
| `AgentFrames` | the ssh agent protocol (section 5 of RFC 4251) |
| `BuildStream`, `LineStreams`, `ContainerLogger` | stream readers that must not depend on how the peer cuts the stream |
| `Caches` | build caches, saved and restored |
| `BuildRun` | the build as a whole: steps, tasks, pushes and image cleanup |

Verify with `dafny verify dfyconfig.toml`.

## How it is modelled

Code that changes things step by step is imperative here too: classes with the source's fields, methods with the
source's loops. Each method is proved against a specification on values (a function, or a predicate saying which
traces are possible), and what the source promises is proved about that specification. `DockerRunner`
appears as one class per concern: container life cycle, command output, caches.

Whatever Docker, the network, the clock, the file system's listing order or a thread scheduler decides is either a
parameter (a `World` that says how each call turns out) or chosen freely, with failures counted, so every statement
covers all outcomes and yet says exactly when a method succeeds. An exception is a result value or a `false`.

Where an obvious claim fails, the code is modelled as it is, an input shows the failure, and the exact condition is
proved:

- A step with an empty `depends` list is not given to the sorter and vanishes unless another step names it
  (`PermutationUnlessForgotten`).
- An override that merely equals the value it overrides (`true` or `1.0` for `1`) is ignored (`SecondWinsExactlyWhen`,
  `EqualOverrideIsIgnored`), and so the grouping of merges can show (`AssociativeExactlyWhen`, `GroupingShows`).
- A second signal during the sweep ends the process at once (`CleanExitCoversExactlyWhen`, `SecondSignalOrphans`).
- Platforms that coincide once slashes become dashes can hide a failed build (`FailuresReportedExactlyWhen`,
  `SharedTagHidesAFailure`).
- Whether an empty line of command output is logged depends on the chunks (`LogIsLines`, `EmptyLineDependsOnChunks`).
- An image reference with a registry port is cut at the wrong colon by the default tagging (`TextKeepsReference`,
  `PortIsTakenForTag`, as the checks see it; `PublishedTextExactlyWhen`, `PortIsPublishedAsTag`, as it is published).
- A missing cache whose name begins `cache_history.log` can be restored from the history log
  (`LogCanBePickedExactlyWhen`, `HistoryLogPicked`, `LogRestoredAsArchive`).
- Requests that arrived before the end of the stream may go unanswered, because the end is looked at first
  (`AllAnsweredExactlyWhen`, `UnansweredAtEnd`).
- An unknown request gets no answer although a comment promises a failure message (sshagent/__init__.py:377-382): the
  failure is handed over as bare bytes where a message is expected, and encoding it raises (`AnsweredExactlyWhen`,
  `UnknownRequestIsNotAnswered`).
- How much of a reply the channel took is not looked at, so a cut one is never completed (`WholeExactlyWhen`,
  `CutReplyStaysCut`).
- Stopping a daemon proxy without a container raises before the check for one, and the teardown ends there
  (`RunTasks.RunTask.Cleanup`, `DaemonEndsTeardown`).
- Committed references of multi-platform steps are compared neither with each other nor with pushed ones
  (`CommitsAreNotCompared`, `AcceptedNormalSteps`, `PublishedTwice`).
- References are compared as spelled but published in lower case, with cleaned tags and a tag inside the repository cut
  off, so that an accepted configuration may publish one twice (`PublishedOnceExactlyWhen`, `ImgPublishedTwice`);
  `AsSpelledExactlyWhen` says for which entries this makes no difference.
- For the same reason a published image may be built upon by an accepted configuration (`BaseProtectedExactlyWhen`,
  `RepoIsBuiltOn`). It may be run under a spelling with capitals, since images to run are lower-cased only after the
  check (`RunProtectedExactlyWhen`, `RepoIsRun`), and by any step that also builds an image, of which the check looks at
  the base alone (`RunAfterBuildProtectedExactlyWhen`, `RepoIsRunAfterBuild`).
- The base that the check reads off a Dockerfile lacks any `from` inside its name, and includes a stage name behind it
  (`BaseReadExactlyWhen`, `StageHidesBase`).

Where code and documentation disagree, the code is followed: README.rst:488-491 says that an `xfail` step that succeeds
is a failure, while steprunner/__init__.py:109-118 lets it pass.

## Model

| member | source | states |
|---|---|---|
| `TopologicalSort.TopologicalSorter.StaticOrder` | buildrunner/config/loader.py:177-184 | Gives an order exactly when the graph has no cycle, and then a topological order of exactly its nodes; without edges, the nodes as they were added |
| `TopologicalSort.TopologicalSorter.Add` | buildrunner/config/loader.py:183 | Adds a node once, keeping counts and successor lists in step with the graph |
| `TopologicalSort.TopologicalSorter.AddDependency` | buildrunner/config/loader.py:180-181 | Adds an edge and the nodes it mentions first, likewise |
| `TopologicalSort.TopologicalSorter.Prepare` | buildrunner/config/loader.py:184 | Releases exactly the nodes without a predecessor, in the order they were added |
| `TopologicalSort.TopologicalSorter.FinishGroup` | buildrunner/config/loader.py:184 | Finishing a released group releases exactly the nodes that nothing unfinished blocks any more |
| `TopologicalSort.OrderedIsAcyclic` | buildrunner/config/loader.py:184 | A graph that has a topological order has no cycle |
| `TopologicalSort.StuckIsCyclic` | buildrunner/config/loader.py:184 | Nodes that all wait for one another contain a cycle |
| `TopologicalSort.LeftoversAreCyclic` | buildrunner/config/loader.py:184 | If the queue runs dry before every node is out, there is a cycle |
| `TopologicalSort.FinishingOne` | buildrunner/config/loader.py:184 | Finishing a node lowers each count by the number of its edges from that node, parallel edges included |
| `StepReordering.RunConfig.ReorderDependencySteps` | buildrunner/config/loader.py:159-199 | Untouched exactly without a version or below 2.0; otherwise circular exactly when steps name each other in a ring; undefined exactly when a dependency is no step and there is no ring; otherwise every step follows all it depends on, bodies unchanged but for `depends`; a configuration without `depends` keeps its order, so a second call changes nothing |
| `StepReordering.RunConfig.BuildSorter` | buildrunner/config/loader.py:177-183 | The sorter ends up holding the dependency graph of the configuration |
| `StepReordering.RunConfig.CollectSteps` | buildrunner/config/loader.py:184-195 | Collects the steps of an order without their `depends`, or stops at a name that is no step; only `depends` keys are ever dropped |
| `StepReordering.GraphMeaning` | buildrunner/config/loader.py:178-183 | The graph has an edge exactly per listed dependency, and as nodes the steps with a non-empty or no list and everything named in one |
| `StepReordering.CyclesAreCircularSteps` | buildrunner/config/loader.py:178-184 | Cycles of the graph are exactly rings of steps that name each other |
| `StepReordering.TopologicalIsStepOrder` | buildrunner/config/loader.py:184-197 | A topological order of that graph, of defined steps, is the order promised for the steps |
| `StepReordering.PermutationUnlessForgotten` | buildrunner/config/loader.py:179-183 | The result is a permutation of the steps exactly when no step with an empty `depends` list is left unnamed by the others |
| `StepReordering.EmptyDependsLosesAStep` | buildrunner/config/loader.py:179-183 | A step with an empty `depends` list that disappears |
| `ConfigDicts.Dict.DeepMerge` | buildrunner/config/loader.py:299-310 | Merging one heap tree into a disjoint one, in place and in any key order, leaves a tree whose contents are the functional overlay of the two |
| `ConfigDicts.Dict.MergeEntry` | buildrunner/config/loader.py:303-309 | One key: merged if both values are dictionaries, kept if equal, otherwise replaced; every other entry stays |
| `ConfigTrees.OverlayIsLastWins` | buildrunner/config/loader.py:304-309 | Up to values the language calls equal, the second tree wins everywhere |
| `ConfigTrees.SecondWinsExactlyWhen` | buildrunner/config/loader.py:306-307 | The second tree wins literally exactly when at no path two different values, an integer and an equal float included, compare equal |
| `ConfigTrees.EqualOverrideIsIgnored` | buildrunner/config/loader.py:306-307 | `1` overridden by `true` or by `1.0` stays `1` |
| `ConfigTrees.EqualMeaning` | buildrunner/config/loader.py:306-307 | Numbers and booleans are equal by numeric value, lists item by item, texts and null only if they are the same, and nothing across these kinds |
| `ConfigTrees.LeafOrigin` | buildrunner/config/loader.py:302-309 | A value of the merged tree is the second tree's, unless the first has an equal one there, which stays; without one in the second, the first tree's survives exactly where the second says nothing at, above or below the path |
| `ConfigTrees.NodeOrigin` | buildrunner/config/loader.py:302-309 | A merged tree has a dictionary exactly where the second has one, or where the first has one and the second has no say |
| `ConfigTrees.LastDefinerWins` | buildrunner/config/loader.py:378-380 | A merged stack has a given value at a path exactly when some tree puts it there over nothing equal and every later tree with a say about the path puts an equal one |
| `ConfigTrees.LastSayDecides` | buildrunner/config/loader.py:378-380 | In a merged stack a path has a value exactly when the last tree with a say about it puts one, and an equal one |
| `ConfigTrees.LastTextWins` | buildrunner/config/loader.py:378-380 | Where the last tree with a say puts a text, the merged stack has that text |
| `ConfigTrees.MergeTwice` | buildrunner/config/loader.py:299-310 | Merging the same tree again changes nothing |
| `ConfigTrees.AssociativeExactlyWhen` | buildrunner/config/loader.py:299-310 | Merging may be regrouped exactly when at no path a value stands between two dictionaries, the first adding to the second, or a value comes back, equal but not the same, after one that does not equal it |
| `ConfigTrees.AssociativeUpToEqual` | buildrunner/config/loader.py:299-310 | Up to equal values, it may be regrouped exactly when no value stands between two such dictionaries |
| `ConfigTrees.GroupingShows` | buildrunner/config/loader.py:306-307 | `1`, then `2`, then `true`: the grouping shows |
| `ConfigTrees.OverlayCanonical` | buildrunner/config/loader.py:304-309 | The merge respects equality of values |
| `GlobalConfig.LoadGlobalConfigFiles` | buildrunner/config/loader.py:313-380 | The result is the overlay, in order, of what each existing file contributes in the context of the earlier ones, and of the overrides, so that the last text put at a path is there; it fails only at a file that can contribute nothing |
| `GlobalConfig.Fetch` | buildrunner/config/loader.py:332-376 | Fails exactly when a file other than the master has a plain value for `local-files`, or a mount whose path cannot be looked up; the master file contributes what it renders to, and any other what lies outside `local-files`, unchanged, and exactly those mounts whose path the user may mount |
| `GlobalConfig.ScrubbedMeaning` | buildrunner/config/loader.py:346-376 | Scrubbing fails exactly at a plain value for `local-files` or at a mount whose path cannot be looked up, and otherwise leaves exactly the permitted mounts and everything else |
| `GlobalConfig.Parse` | buildrunner/config/loader.py:332-338 | A parsed file is a heap tree of its own |
| `GlobalConfig.OverlayAllIsStacked` | buildrunner/config/loader.py:378-380 | Folding the files lets the last definer of each path win, up to equal values |
| `GlobalConfig.OnlyContributions` | buildrunner/config/loader.py:328-378 | What the files contribute is determined |
| `GlobalConfig.NoContributions` | buildrunner/config/loader.py:349-350 | If one existing file cannot contribute, the load has no result |
| `GlobalConfig.ContributedMountIsAllowed` | buildrunner/config/loader.py:346-376 | A `local-files` path contributed by any file but the master is one the user may mount |
| `GlobalConfig.MergedMountsAreAllowed` | buildrunner/config/loader.py:343-380 | A `local-files` path of the merged configuration comes from the overrides, from a master file that settles it, or is allowed |
| `Redirect.FetchTemplate` | buildrunner/config/loader.py:218-270 | Ends for every finite set of files; returns the first configuration on the chain without redirect, fails exactly when the chain revisits a file, or is unreadable where the chain leaves the files; no file is fetched twice |
| `Redirect.StopsOnce` | buildrunner/config/loader.py:256-269 | A chain that stops does so at one place and never revisits a file |
| `Redirect.Periodic` | buildrunner/config/loader.py:263-269 | From a revisited file on, the chain repeats |
| `DefaultTags.AddDefaultTag` | buildrunner/config/loader.py:56-84 | Reads an entry as the source does and adds the build tag in place; fails exactly on a tag list that is none and on an empty tag after a colon |
| `DefaultTags.AddDefaultTags` | buildrunner/config/loader.py:105-114 | A whole section, entries that occur repeatedly included, ends up as each entry tagged once |
| `DefaultTags.DefaultFailsExactlyWhen` | buildrunner/config/loader.py:61-74 | An entry cannot be read exactly when its tags are no list or nothing stands behind its first colon; what is neither text nor dictionary is left alone |
| `DefaultTags.DefaultTwice` | buildrunner/config/loader.py:63-64 | Adding the build tag again changes nothing |
| `DefaultTags.TextKeepsReference` | buildrunner/config/loader.py:67-79 | A reference given as text, bare repositories included, is among the references the checks see for it exactly when it has a single colon |
| `DefaultTags.PortIsTakenForTag` | buildrunner/config/loader.py:67-79 | In `host:port/path:version` the port and the path are taken for the tag, and the checks do not see the reference |
| `DefaultTags.RefsNamed` | buildrunner/config/loader.py:61-82 | A section stands for exactly the references its entries list, and the build tag where it is not disabled |
| `DefaultTags.CheckedExactlyWhen` | buildrunner/config/loader.py:105-114 | A section is accepted exactly when each of its entries can be read and ends up with a tag |
| `DefaultTags.RetagIsReuse` | buildrunner/config/validation.py:200-226 | Re-tagging as the checks see it, in terms of the configuration as written |
| `DefaultTags.BuildTagReuseIsRejected` | buildrunner/config/validation.py:200-229 | Reuse of a multi-platform image, spelled as in its entry, through the implied build tag is rejected, unless the entry disables that tag |
| `Validation.Validator.ValidateTags` | buildrunner/config/validation.py:78-88 | Accepts exactly references not taken before and, when it records them, not repeated; then records exactly these |
| `Validation.Validator.ValidatePush` | buildrunner/config/validation.py:57-88 | The same for a whole push section |
| `Validation.Validator.ValidateBuild` | buildrunner/config/validation.py:247-272 | Accepts a multi-platform step exactly without `platform`, without a list of text cache sources for some platform, without import and without run section |
| `Validation.Validator.ValidateMultiplatformBuild` | buildrunner/config/validation.py:232-275 | Accepts exactly when all multi-platform steps are well formed and their push references, within and across steps, are pairwise distinct |
| `Validation.Validator.SourceImages` | buildrunner/config/validation.py:127-153 | Every step's source: the base of its Dockerfile, else the run image with `latest` filled in; fails exactly when a Dockerfile names no base |
| `Validation.Validator.ValidateNotRetagged` | buildrunner/config/validation.py:186-229 | Accepts exactly when every source is known and no single-platform step with a destination starts from a destination of a multi-platform step |
| `Validation.Validator.ValidateSteps` | buildrunner/config/models.py:153-200 | Accepts exactly the acceptable configurations: steps present, no secrets with the legacy builder, and with a multi-platform step all of the above and no single-platform push reference equal to a multi-platform one |
| `Validation.DistinctRefs` | buildrunner/config/validation.py:76-88 | No reference is pushed twice exactly when none repeats within a multi-platform step or between two of them |
| `Validation.InMultiPlatformRefs` | buildrunner/config/validation.py:245-275 | The references collected are exactly those that some multi-platform step pushes |
| `Validation.CommitsAreNotCompared` | buildrunner/config/validation.py:274-275 | However the commits of an accepted configuration are changed, it stays accepted exactly when nothing is re-tagged by the change |
| `Publishing.SanitizedTag` | buildrunner/utils.py:104-116 | Cleaning a tag leaves no colon, changes a clean tag no more, and keeps exactly those in lower case with legal characters only |
| `Publishing.RunBecomesHyphen` | buildrunner/utils.py:111 | A longest run of illegal characters becomes one hyphen, wherever it stands |
| `Publishing.RepoDefinition.constructor` | buildrunner/steprunner/tasks/push.py:44-69 | Lower-cases the repository, cleans the tags, and turns what follows a colon inside the repository into a tag |
| `Publishing.DefinitionMeaning` | buildrunner/steprunner/tasks/push.py:47-69 | The repository is published up to its first colon, unless that comes first, and what follows becomes one more tag if it is none yet |
| `Publishing.AsSpelledExactlyWhen` | buildrunner/steprunner/tasks/push.py:47-69 | An entry is published under the references the checks see exactly when its repository is in lower case and either it has only clean tags and nothing is cut off, or it has no tags and the repository holds one |
| `Publishing.PushBuildStepRunnerTask.TagImages` | buildrunner/steprunner/tasks/push.py:328-367 | The multi-platform image is tagged with every entry as defined, and these references count as committed; raises exactly at a push entry without any tag, and then this has been done up to that entry |
| `Publishing.PushBuildStepRunnerTask.constructor` | buildrunner/steprunner/tasks/push.py:79-92 | One repository definition per entry |
| `Publishing.ManifestsArePublished` | buildrunner/docker/multiplatform_image_builder.py:681-699 | The manifests wanted by builds that were tagged are under exactly the published references, in order, repetitions included |
| `Publishing.PublishedOnceExactlyWhen` | buildrunner/steprunner/tasks/push.py:44-69 | The multi-platform steps publish every reference once exactly when, in normal form, pushes and commits are distinct within and across steps and share nothing |
| `Publishing.AcceptedNormalSteps` | buildrunner/config/validation.py:274-275 | With all entries in normal form the checks cover the pushes: an accepted configuration publishes every reference once exactly when no committed one repeats, within or across steps, and none is pushed as well |
| `Publishing.SpellingsPublishedTwice` | buildrunner/steprunner/tasks/push.py:47-53 | An accepted configuration with two spellings of one repository publishes an image twice |
| `Publishing.ImgPublishedTwice` | buildrunner/steprunner/tasks/push.py:47-53 | `Img:v` and `img:v`, pushed by two steps: accepted, and published twice |
| `Publishing.PublishedTwice` | buildrunner/docker/multiplatform_image_builder.py:690-699 | An accepted configuration, one step pushing and one committing an image, that publishes it twice |
| `Publishing.PublishedTextExactlyWhen` | buildrunner/steprunner/tasks/push.py:47-69 | A reference given as text is among those published for it exactly when it has a single colon, its repository is in lower case and its tag is clean |
| `Publishing.PortIsPublishedAsTag` | buildrunner/steprunner/tasks/push.py:47-69 | `host:port/path:version` is not published; `host` is, under the cleaned `port/path` |
| `Publishing.BaseProtectedExactlyWhen` | buildrunner/config/validation.py:200-229 | Over all accepted configurations, what is published for an entry is never built upon by a single-platform step exactly when all of it is spelled out |
| `Publishing.NormalFormProtectsBase` | buildrunner/config/validation.py:200-229 | So it is for an entry in normal form |
| `Publishing.RunProtectedExactlyWhen` | buildrunner/steprunner/tasks/run.py:841-853 | Likewise it is never run and made into another image exactly when every spelling that leads to it in lower case is spelled out, since images to run are lower-cased after the check |
| `Publishing.RunAfterBuildProtectedExactlyWhen` | buildrunner/config/validation.py:140-151 | By steps that run an image although they build one, exactly when nothing is published: the check looks at the base of the build alone |
| `Publishing.RepoIsBuiltOn` | buildrunner/config/validation.py:200-229 | `Repo` published, and `repo:v` built upon: accepted |
| `Publishing.RepoIsRun` | buildrunner/steprunner/tasks/run.py:848-853 | `repo` published, in normal form, and `Repo:v` run: accepted, and `repo:v` is reused |
| `Publishing.RepoIsRunAfterBuild` | buildrunner/steprunner/tasks/push.py:371-384 | `repo` published, in normal form, and `repo:v` run by a step that builds another image: accepted |
| `Publishing.AsciiIsLawful` | buildrunner/utils.py:104-116 | What is used of lower-casing and of legal characters holds of plain letters, in which the inputs are written |
| `Dockerfiles.GetBaseImage` | buildrunner/config/validation.py:112-124 | The loop over the lines of a Dockerfile finds what the last line that begins with `from` names, and fails exactly without one |
| `Dockerfiles.BaseIsLast` | buildrunner/config/validation.py:112-119 | It is the last such line that counts |
| `Dockerfiles.BaseReadExactlyWhen` | buildrunner/config/validation.py:113-119 | A base is read right exactly when its name has no `from` in it, each of which is taken out |
| `Dockerfiles.StageHidesBase` | buildrunner/config/validation.py:113-119 | Followed by a stage name, a base is not read right, even where neither has a `from` in it |
| `ContainerLog.RegistryHasNoDuplicates` | buildrunner/cleanup.py:35-46 | The registry never holds an id twice, nor the empty id |
| `ContainerLog.RegisteredOrTried` | buildrunner/cleanup.py:35-46 | If containers are unregistered only after a removal attempt, every container registered is still registered or has had an attempt |
| `ContainerLog.UntriedAfterRemoval` | buildrunner/cleanup.py:41-46 | Trying to remove a container and unregistering it keeps every registered container untried |
| `Lifecycle.StepKeepsInvariant` | buildrunner/cleanup.py:49-105 | Every step of the program, of a sweep or of a signal keeps the invariant |
| `Lifecycle.RunKeepsInvariant` | buildrunner/cleanup.py:49-105 | The invariant holds in every reachable state |
| `Lifecycle.NothingSlipsAway` | buildrunner/cleanup.py:49-105 | In every reachable state each container ever registered awaits the sweep or has had an attempt |
| `Lifecycle.ExitCoversExactlyWhen` | buildrunner/cleanup.py:59-93 | When a run has ended, every registered container has had an attempt exactly when each one the sweep skipped had had one when the sweep began |
| `Lifecycle.CleanExitCoversExactlyWhen` | buildrunner/cleanup.py:49-105 | If the sweep began between two operations: exactly when it skipped nothing, that is, nothing was registered, or the daemon was reachable and no signal landed before the last attempt |
| `Lifecycle.UndisturbedSweepCoversAll` | buildrunner/cleanup.py:49-105 | With a reachable daemon and no signal inside the sweep, nothing registered is left without an attempt |
| `Lifecycle.SecondSignalOrphans` | buildrunner/cleanup.py:59-61 | A run in which a second signal leaves a container behind |
| `Lifecycle.DisciplinedLogIsRun` | buildrunner/cleanup.py:35-46 | Whatever the five sites do, which keep that rule, is a run of the life cycle |
| `ContainerLog.CutSweepCoversExactlyWhen` | buildrunner/cleanup.py:59-93 | A sweep cut after some attempts covers everything ever registered exactly when what it left out had been tried before; begun between two operations, exactly when it left nothing out |
| `ContainerSites.Process.Register` | buildrunner/cleanup.py:35-38 | A new id other than the empty one goes to the end of the registry; while the process works, nothing registered has had an attempt |
| `ContainerSites.Process.Unregister` | buildrunner/cleanup.py:41-46 | Drops an id, of which a removal must have been tried |
| `ContainerSites.Process.Dropped` | buildrunner/cleanup.py:43-46 | Removes the first occurrence and ignores a missing one |
| `ContainerSites.Process.ForceCleanupAll` | buildrunner/cleanup.py:49-93 | The first call tries to remove everything registered, in order, and afterwards nothing ever registered lacks an attempt exactly when nothing was registered or the daemon is reachable; later calls do nothing |
| `ContainerSites.Process.Launch` | buildrunner/docker/runner.py:298-300 | A container is created, started and then registered; one that does not start exists unregistered |
| `ContainerSites.DockerRunner.Start` | buildrunner/docker/runner.py:190-311 | Succeeds exactly when no container is held yet and nothing fails; then exactly one container was created, with the given mounts, and registered, and all provisioners have run in it; after any failure it was not created, or not started, or is registered, or its removal was tried and it is unregistered |
| `ContainerSites.DockerRunner.Provision` | buildrunner/docker/runner.py:303-309 | Succeeds exactly when all provisioners have run; one that raises takes the container down |
| `ContainerSites.DockerRunner.Cleanup` | buildrunner/docker/runner.py:323-369 | Succeeds exactly when nothing fails, and then the spawned containers have been removed; tries to remove its own container and no other, and unregisters it whatever came of that; a failing removal of a spawned container may prevent this |
| `ContainerSites.DaemonProxy.Start` | buildrunner/docker/daemon.py:82-99 | Creates the daemon container and registers it if it starts, and nothing else |
| `ContainerSites.DaemonProxy.Stop` | buildrunner/docker/daemon.py:101-119 | Fails exactly without a container; otherwise its removal is tried and it is unregistered |
| `ContainerSites.AgentProxy.Start` | buildrunner/sshagent/__init__.py:121-209 | Fails without keys; otherwise creates and registers the agent container, which stays accounted for if the connection fails |
| `ContainerSites.AgentProxy.Stop` | buildrunner/sshagent/__init__.py:241-273 | A container that was created has its removal tried and is unregistered |
| `ContainerSites.LocalRegistry.Start` | buildrunner/docker/multiplatform_image_builder.py:151-188 | Started at most once; after a success its container is registered, after a failure it was not created, not started, or is registered |
| `ContainerSites.LocalRegistry.Stop` | buildrunner/docker/multiplatform_image_builder.py:190-208 | A running registry has its removal tried and is unregistered |
| `PortWait.WaitForPort` | buildrunner/steprunner/tasks/run.py:748-803 | Opens exactly at the first probe that gets through, ends when the service has died or a probe raises, or times out, the last only once more than the timeout has passed without one; at most timeout + 2 probes, before each of which the service was alive; every probe's removal is tried before the next probe is created and before the wait ends, however it ends |
| `PortWait.Probe` | buildrunner/steprunner/tasks/run.py:768-790 | A probe raises exactly when a call of it fails, attaching to the started container included, and is open exactly when the port accepts it otherwise; it creates at most one container, whose removal has been tried when the probe ends or raises |
| `PortWait.Attach` | buildrunner/steprunner/tasks/run.py:784-786 | Waiting for the probe to end may fail, and counts as a failure then |
| `PortWait.ProbesStayApart` | buildrunner/steprunner/tasks/run.py:788-799 | One more probe keeps the probes apart |
| `RunTasks.RunTask.Run` | buildrunner/steprunner/tasks/run.py:819-1010 | The start succeeds exactly when nothing asked of the outside world fails, an agent that is asked for has keys, and every `volumes_from` names a service started earlier. After a success the source, the daemon, the agent if there are keys, the services in their order and the build container are up, provisioned, their images pulled and the ports of the services open; each service and the build container were created with the volumes of the source, of the daemon, of the agent where asked for, and of every service named, and with no others; after any failure the order promised to the cleanup still holds |
| `RunTasks.RunTask.ProcessVolumesFrom` | buildrunner/steprunner/tasks/run.py:126-151 | Accepts exactly names of services that have started, and gives exactly the containers first linked under them |
| `RunTasks.RunTask.Prepare` | buildrunner/steprunner/tasks/run.py:603-655 | Fails exactly when a named service has not started or the image cannot be pulled |
| `RunTasks.RunTask.CollectMounts` | buildrunner/steprunner/tasks/run.py:603-628 | The volumes of a container are exactly those of the source, the daemon, the agent where asked for, and the named services, all started before it |
| `RunTasks.RunTask.StartService` | buildrunner/steprunner/tasks/run.py:502-716 | Succeeds exactly when nothing fails and the services it names have started; it is created with exactly the volumes it asks for, provisioned, its ports are open, and it is linked only after it has started |
| `RunTasks.RunTask.BringUp` | buildrunner/steprunner/tasks/run.py:502-708 | The same up to the waiting for its ports |
| `RunTasks.RunTask.AwaitPort` | buildrunner/steprunner/tasks/run.py:710-712 | Waiting for a port succeeds exactly when nothing fails and a probe gets through in time, and leaves everything of the step alone |
| `RunTasks.RunTask.StartBuild` | buildrunner/steprunner/tasks/run.py:984-1004 | The build container is created with exactly the volumes it asks for, and provisioned |
| `RunTasks.RunTask.Cleanup` | buildrunner/steprunner/tasks/run.py:1188-1220 | Removals go backwards through the order of the start, even when the teardown is cut short, which happens only after a failure or for want of a daemon container, and then always; otherwise every container has had an attempt |
| `RunTasks.DaemonEndsTeardown` | buildrunner/docker/daemon.py:101-109 | A teardown in which nothing fails, but which ends at a daemon proxy without a container, before the source container |
| `RunTasks.RunTask.CleanupHelpers` | buildrunner/steprunner/tasks/run.py:1201-1220 | Daemon proxy, agent and source go last; a daemon proxy without a container ends the teardown |
| `RunTasks.RunTask.StartSource` | buildrunner/steprunner/tasks/run.py:101-124 | The source container comes first |
| `TeardownOrder.MountersGoFirst` | buildrunner/steprunner/tasks/run.py:1188-1220 | No container is removed before one that mounts its volumes |
| `TeardownOrder.CleanupStep` | buildrunner/steprunner/tasks/run.py:1196-1220 | Removing the next container, the later ones being dealt with, keeps the order |
| `TeardownOrder.FillKeepsSafe` | buildrunner/steprunner/tasks/run.py:603-683 | Starting the next container with volumes of earlier ones keeps the order |
| `ImageInfo.BuiltImageInfo.AddPlatformImage` | buildrunner/docker/image_info.py:86-91 | A platform is added once, behind the earlier ones; a second image for it fails and changes nothing |
| `ImageInfo.BuiltImageInfo.AddTaggedImage` | buildrunner/docker/image_info.py:93-104 | A tagged image goes to the end of the list |
| `ImageInfo.BuiltImageInfo.SourceRefs` | buildrunner/docker/multiplatform_image_builder.py:688 | One reference per platform, that of its own image, in the order the platforms were added |
| `FanOut.BuildMultipleImages` | buildrunner/docker/multiplatform_image_builder.py:495-644 | With threads, in every interleaving, success exactly when every reference was put once; with distinct tags exactly when every platform was built, with the map a sequential build gives |
| `FanOut.RunThreads` | buildrunner/docker/multiplatform_image_builder.py:607-622 | However the threads take turns, the queue ends up with exactly the digests of the builds that succeed, one each |
| `FanOut.RunInSequence` | buildrunner/docker/multiplatform_image_builder.py:616 | The sequential build stops at the first failure and otherwise puts all digests |
| `FanOut.BuildSingleImage` | buildrunner/docker/multiplatform_image_builder.py:343-459 | Up to five tries, repeated only after a Docker error |
| `FanOut.ThreadStep` | buildrunner/docker/multiplatform_image_builder.py:619-622 | One try of one thread, whichever it is, keeps queue and progress in step |
| `FanOut.Drain` | buildrunner/docker/multiplatform_image_builder.py:624-639 | Succeeds exactly when the queue holds each expected reference once and nothing else, and then every entry is placed under its platform |
| `FanOut.StoreInfos` | buildrunner/docker/multiplatform_image_builder.py:582-592 | Each reference is remembered with the last platform that has it |
| `FanOut.MatchIsPutOnce` | buildrunner/docker/multiplatform_image_builder.py:624-639 | The queue matches the expectations exactly when each reference was put by one build |
| `FanOut.DrainedIsImageMap` | buildrunner/docker/multiplatform_image_builder.py:629-636 | What is drained is the image map, whatever the order of the queue |
| `FanOut.PutOnceIsAllBuilt` | buildrunner/docker/multiplatform_image_builder.py:585-592 | With distinct tags, one digest per reference means that every platform was built |
| `FanOut.FailuresReportedExactlyWhen` | buildrunner/docker/multiplatform_image_builder.py:585-639 | Over all outcomes, a parallel build is reported as it went exactly when no two platforms coincide once slashes become dashes |
| `FanOut.ImageMapIsUnique` | buildrunner/docker/multiplatform_image_builder.py:624-639 | With distinct tags the map is determined |
| `FanOut.AllPlatformsCombined` | buildrunner/docker/multiplatform_image_builder.py:585-639 | A build of distinct tags holds the references of all its platforms, each once |
| `FanOut.OutcomeMeaning` | buildrunner/docker/multiplatform_image_builder.py:459-493 | A platform is built with the digest of the first of five tries that is not a Docker error, if that gives one |
| `FanOut.SameRefSameDashes` | buildrunner/docker/multiplatform_image_builder.py:585-586 | Two platforms share a reference exactly when they differ only in dashes and slashes |
| `FanOut.SharedTagHidesAFailure` | buildrunner/docker/multiplatform_image_builder.py:585-592 | Two platforms with one tag: one of them fails and the build reports success |
| `ManifestPush.MultiplatformImageBuilder.Push` | buildrunner/docker/multiplatform_image_builder.py:670-707 | The count check never fails; a push succeeds exactly when the registry refuses nothing, creates exactly the wanted manifests in order, each from all platform images of one build, and otherwise has created a proper beginning of them |
| `ManifestPush.MultiplatformImageBuilder.PushBuilt` | buildrunner/docker/multiplatform_image_builder.py:682-702 | The same for one build |
| `ManifestPush.MultiplatformImageBuilder.PushRefs` | buildrunner/docker/multiplatform_image_builder.py:697-699 | One manifest per reference, in order |
| `ManifestPush.MultiplatformImageBuilder.CountExpected` | buildrunner/docker/multiplatform_image_builder.py:675-679 | Counts the references of all builds |
| `ManifestPush.ManifestsAreExact` | buildrunner/docker/multiplatform_image_builder.py:681-699 | A manifest is wanted exactly when it combines all platform images of one build under one of that build's references |
| `ManifestPush.ManifestsCombineAllPlatforms` | buildrunner/docker/multiplatform_image_builder.py:688-699 | If every build holds the images of all platforms of its job, so does every manifest, of one job |
| `ManifestPush.CountMatches` | buildrunner/docker/multiplatform_image_builder.py:675-707 | There are as many wanted manifests as references counted beforehand |
| `AgentFrames.Uint32RoundTrip` | buildrunner/sshagent/__init__.py:427 | A number below 2^32 survives four bytes in network order |
| `AgentFrames.Uint32IsBigEndian` | buildrunner/sshagent/__init__.py:427 | The most significant byte comes first |
| `AgentFrames.FrameMeaning` | buildrunner/sshagent/__init__.py:426-428 | A frame is the length of the payload, then the payload |
| `AgentFrames.FramesRoundTrip` | buildrunner/sshagent/__init__.py:426-451 | Payloads framed one after the other are recovered exactly, in order, and an incomplete frame is left alone |
| `AgentFrames.FramesAreUnambiguous` | buildrunner/sshagent/__init__.py:426-436 | No stream reads as two lists of payloads |
| `AgentConnection.ConnectionThread.ReadAll` | buildrunner/sshagent/__init__.py:439-451 | Exactly the wanted bytes, however the stream is cut; an error exactly when the stream is shorter |
| `AgentConnection.ConnectionThread.ReceiveRequest` | buildrunner/sshagent/__init__.py:430-437 | The payload of the next frame exactly when the frame is complete |
| `AgentConnection.ConnectionThread.Turn` | buildrunner/sshagent/__init__.py:363-383 | One turn is idle exactly at the end of the stream or without data, and otherwise serves the next request exactly when it is complete, handing its framed reply, if it has one, to the channel |
| `AgentConnection.ConnectionThread.Run` | buildrunner/sshagent/__init__.py:358-386 | As many requests are served as there were turns with data before the first that saw the end of the stream, or all; the bytes sent are what the channel takes of each framed reply |
| `AgentConnection.UnansweredAtEnd` | buildrunner/sshagent/__init__.py:363-369 | A request left unread because the stream had ended when it was looked at |
| `AgentConnection.WholeExactlyWhen` | buildrunner/sshagent/__init__.py:428 | The peer gets whole frames exactly when every send takes all of its answer |
| `AgentConnection.CutReplyStaysCut` | buildrunner/sshagent/__init__.py:422-428 | A reply of which six bytes of nine were taken, and which another turn does not complete |
| `AgentConnection.AllAnsweredExactlyWhen` | buildrunner/sshagent/__init__.py:361-384 | Every request that has an answer is served exactly when those beyond the turns with data before the end of the stream have none |
| `AgentConnection.ConnectionThread.SendReply` | buildrunner/sshagent/__init__.py:422-428 | A reply is handed over framed, of which the channel may take less; one that does not fit raises before anything is sent |
| `AgentConnection.ConnectionThread.AgentIdentitiesAnswer` | buildrunner/sshagent/__init__.py:388-400 | The loop builds the answer that lists all keys |
| `AgentConnection.ConnectionThread.AgentSignResponse` | buildrunner/sshagent/__init__.py:402-420 | The loop gives the signature of the last matching key, or a failure, or raises with a key that does |
| `AgentConnection.ClientReadsAnswers` | buildrunner/sshagent/__init__.py:422-428 | A client that reads the frames sent gets exactly the answers |
| `AgentReplies.IdentitiesRoundTrip` | buildrunner/sshagent/__init__.py:388-400 | A client reads back exactly the agent's keys in their order |
| `AgentReplies.SignRequestAnswered` | buildrunner/sshagent/__init__.py:402-420 | A well-formed sign request gets the signature, a failure when no key matches, or nothing when a key fails to sign |
| `AgentReplies.SignatureMeaning` | buildrunner/sshagent/__init__.py:409-413 | The last matching key signs, unless one fails to |
| `AgentReplies.Reply` | buildrunner/sshagent/__init__.py:426-427 | A reply fits into a frame |
| `AgentReplies.AnsweredExactlyWhen` | buildrunner/sshagent/__init__.py:369-420 | Exactly these requests are answered: those for the identities, if the list of all keys fits, and those for a signature, if no key with the requested blob fails to sign and the signature fits |
| `AgentReplies.UnknownRequestIsNotAnswered` | buildrunner/sshagent/__init__.py:376-384 | A request of another kind gets no answer |
| `BuildStream.DockerBuilder.Build` | buildrunner/docker/builder.py:226-271 | For a stream of complete messages and the beginning of one, however cut: the exit code is 1 exactly when some message is an error, the image is that of the last message that tells of one, and the intermediate containers are all that messages tell of, in order |
| `BuildStream.NotedMeaning` | buildrunner/docker/builder.py:242-266 | The same of the messages noted one after the other, from any beginning |
| `BuildStream.ReassemblesAnyChunking` | buildrunner/docker/builder.py:229-241 | However the stream is cut, exactly its complete messages are read, in order; the beginning of one is kept |
| `BuildStream.ReportIgnoresChunking` | buildrunner/docker/builder.py:226-271 | The outcome of a build does not depend on how its stream is cut |
| `BuildStream.ObjectsAreMessages` | buildrunner/docker/builder.py:231-241 | A JSON object on one line is a message that no shorter beginning can be taken for |
| `BuildStream.ScanExample` | buildrunner/docker/builder.py:231-241 | Braces inside a string do not count, nor does a quote behind a backslash end one |
| `Lines.SplitAtNewline` | buildrunner/docker/runner.py:645 | Splitting at a newline splits both sides |
| `Lines.SplitExtend` | buildrunner/docker/runner.py:641-645 | Text appended to a split text goes into its last piece |
| `CommandOutput.DockerRunner.ReadOutput` | buildrunner/docker/runner.py:634-659 | The records are those of the chunks; when the peer goes silent the buffered rest is lost |
| `CommandOutput.DockerRunner.LogCompleteLines` | buildrunner/docker/runner.py:643-650 | The inner loop logs the complete lines of the buffer and keeps the rest |
| `CommandOutput.DockerRunner.RunLog` | buildrunner/docker/runner.py:142-155 | One record per line of a text without its final newline |
| `CommandOutput.BufferLogged` | buildrunner/docker/runner.py:643-650 | Every complete line of a buffer is logged, except an empty one at its very end |
| `CommandOutput.FedSoFar` | buildrunner/docker/runner.py:634-650 | At any point the log has every complete non-empty line so far, in order, and lacks one empty line per chunk that ends in one |
| `CommandOutput.LogIsLines` | buildrunner/docker/runner.py:634-655 | Whatever the chunks, the non-empty records are exactly the non-empty lines, the log consists of lines of the output, and the lines it lacks are counted |
| `CommandOutput.EmptyLineDependsOnChunks` | buildrunner/docker/runner.py:646-648 | The same output, cut right after an empty line, loses that line |
| `ContainerLogs.ContainerLogger.Write` | buildrunner/loggers.py:178-189 | Characters are buffered, and a newline writes the buffer out |
| `ContainerLogs.ContainerLogger.WriteBuffer` | buildrunner/loggers.py:170-176 | The buffer is logged behind the prefix and emptied |
| `ContainerLogs.ContainerLogger.Cleanup` | buildrunner/loggers.py:191-197 | What is buffered, if anything, is logged as a line |
| `ContainerLogs.WriteAllIsOneWrite` | buildrunner/loggers.py:178-189 | Writing pieces is writing their concatenation |
| `ContainerLogs.WriteSplits` | buildrunner/loggers.py:170-189 | Text is logged up to its last newline and buffered from there |
| `ContainerLogs.CleanedUpLog` | buildrunner/loggers.py:170-197 | After the cleanup the records are the lines of everything written, the unfinished last one included |
| `ContainerLogs.OneRecordEach` | buildrunner/loggers.py:174-176 | With a one-line prefix there is one record per line |
| `Caches.DockerRunner.CacheFileFromPrefix` | buildrunner/docker/runner.py:372-414 | The archive named exactly, else a most recently modified file whose name starts with the key, in whatever order the host lists them; nothing exactly when there is none |
| `Caches.DockerRunner.RestoreCaches` | buildrunner/docker/runner.py:433-491 | Goes through the map as the restore rules and the outcomes of each entry say, ends early exactly at an error that is not of the Docker API, and sends exactly the archives these tries amount to |
| `Caches.DockerRunner.RestoreCache` | buildrunner/docker/runner.py:451-491 | One entry: nothing without a pick, otherwise the pick is sent unless an error comes first |
| `Caches.DockerRunner.SaveCaches` | buildrunner/docker/runner.py:538-590 | Goes through the map as the save rules and the outcomes of each entry say, stops exactly at the first failure, and leaves the disk these saves amount to |
| `Caches.DockerRunner.SaveCache` | buildrunner/docker/runner.py:553-585 | One entry: a line appended to the history log, then the archive, written exactly when the directory exists and neither write fails; what is on the disk after each outcome, and that nothing but these two files is touched |
| `Caches.FirstArchiveIsSent` | buildrunner/docker/runner.py:442-480 | An archive is sent for an entry exactly when it has one and no earlier entry of its path does, save where an error came before sending |
| `Caches.OneArchivePerPath` | buildrunner/docker/runner.py:442-480 | A container path is sent at most one archive |
| `Caches.SaveTouchesOnly` | buildrunner/docker/runner.py:544-585 | Saving writes history logs and the first archive of each path, even when it fails |
| `Caches.SavedIsThere` | buildrunner/docker/runner.py:548-585 | What an error-free save wrote is there afterwards |
| `Caches.SaveThenRestore` | buildrunner/docker/runner.py:433-590 | A restore right after an error-free save with the same map sends back exactly the archives just saved, each to its path |
| `Caches.HistoryLogPicked` | buildrunner/docker/runner.py:396-403 | On any disk the history log is taken for an archive exactly when that archive is missing, its name begins the log's name, and no file that matches it is newer than the log |
| `Caches.LogCanBePickedExactlyWhen` | buildrunner/docker/runner.py:396-403 | It can happen to an archive exactly when its name begins the log's name |
| `Caches.LogRestoredAsArchive` | buildrunner/docker/runner.py:396-403 | A save and a restore in which this happens |
| `Caches.StemIsCacheName` | buildrunner/docker/runner.py:394 | The prefix searched for is the cache name |
| `Caches.StemMeaning` | buildrunner/docker/runner.py:394 | The stem of a name ends at its last dot, unless that is its first or last character |
| `CacheMaps.ConsiderCaches` | buildrunner/steprunner/tasks/run.py:1021-1051 | The loop over a step's settings builds the map of everything considered, with archives in the configured root, or the default one where their directory cannot be made; saving and restoring agree on it |
| `CacheMaps.ConsiderNames` | buildrunner/steprunner/tasks/run.py:1035-1045 | The loop over the cache names of one container path |
| `CacheMaps.ConsideredMeaning` | buildrunner/steprunner/tasks/run.py:1021-1051 | What is considered is exactly, for a text, the project's archive under the setting's name for that path, and for a list, the shared archive of each name for the setting's path |
| `CacheMaps.LastSettingWins` | buildrunner/steprunner/tasks/run.py:1021-1051 | The map gives an archive the path of the last setting that names it |
| `CacheMaps.ArchiveFileMeaning` | buildrunner/__init__.py:179-206 | A plainly named archive lies in the configured root, or in the default one where that cannot be used, behind the name of the project, if there is one |
| `CacheMaps.JoinPathMeaning` | buildrunner/__init__.py:184-188 | One slash joins two paths, and an absolute second one stands alone |
| `CacheMaps.LocatedMeaning` | buildrunner/__init__.py:189-191 | The directory of a path is what precedes its last slash, and the file what follows |
| `CacheMaps.FirstMentionsMeaning` | buildrunner/steprunner/tasks/run.py:1021-1045 | The order of first mention |
| `CacheMaps.AssignedFiles` | buildrunner/steprunner/tasks/run.py:1021-1045 | The map holds each archive considered once, in order of first mention |
| `CacheMaps.AssignedPaths` | buildrunner/steprunner/tasks/run.py:1021-1045 | Each archive of the map has the path it was given last |
| `CacheMaps.AssignedExactly` | buildrunner/steprunner/tasks/run.py:1021-1045 | An archive is in the map with a path exactly when it was given that path last |
| `CacheMaps.ConsideredIsCacheMap` | buildrunner/__init__.py:193-195 | The keys are distinct and none of them is a history log |
| `CacheMaps.ArchiveNames` | buildrunner/__init__.py:179-206 | Every archive name ends in `.tar`, whatever the cache is called |
| `BuildRuns.BuildRunner.Run` | buildrunner/__init__.py:345-547 | Determined by what the outside world has in store: the steps run are the first of the selected ones, all well but perhaps the last; manifests go first, pushed exactly when every selected step went well and they do not fail, and single-platform images only after them; the error is that on leaving the builder, else that of the steps, else that of the first push that failed; the exit code is 78 exactly for a configuration error or a missing image, 1 for any other; images are handled last |
| `BuildRuns.BuildRunner.RunSteps` | buildrunner/__init__.py:365-402 | The same for the steps, with their events: the build stops exactly at the first step that fails or cannot begin |
| `BuildRuns.BuildRunner.RunStep` | buildrunner/steprunner/__init__.py:86-128 | The sections are attempted in their order until one fails other than expectedly, and all tasks made are cleaned up in that order |
| `BuildRuns.BuildRunner.CleanUp` | buildrunner/steprunner/__init__.py:121-128 | A cleanup that fails does not keep the others from theirs |
| `BuildRuns.BuildRunner.TryTask` | buildrunner/steprunner/__init__.py:106-119 | A task is run only after it could be made |
| `BuildRuns.BuildRunner.PushImages` | buildrunner/__init__.py:422-458 | References are pushed in order until one fails |
| `BuildRuns.BuildRunner.RemoveImages` | buildrunner/__init__.py:516-532 | Images are visited backwards, each not yet marked is tried, and those marked as removed afterwards are those marked before and those removed now |
| `BuildRuns.EveryTaskIsCleanedUpOnce` | buildrunner/steprunner/__init__.py:94-128 | In every build each task made is cleaned up exactly once, after it was made, with no event of another step in between |
| `BuildRuns.StepSettled` | buildrunner/steprunner/__init__.py:94-128 | The same within one step |
| `BuildRuns.StepGoesWell` | buildrunner/steprunner/__init__.py:97-119 | A step is without fault exactly when each of its tasks was made and ran without an error, or, for an `xfail` run section, with an error the program raises itself; otherwise its fault is that of its last task |
| `BuildRuns.SectionsInOrder` | buildrunner/steprunner/__init__.py:25-32 | The sections of a step are carried out in the order remote, build, run, push, commit, pypi-push |
| `BuildRuns.RunEventsInOrder` | buildrunner/steprunner/__init__.py:106-119 | A task runs right after it was made |
| `BuildRuns.DependenciesRanBefore` | buildrunner/__init__.py:365-402 | A step that runs finds every selected step it depends on already run, without fault |
| `BuildRuns.SelectedKeepsOrder` | buildrunner/__init__.py:378 | Selection keeps the order of the steps |
| `BuildRuns.RemovedAtMostOnce` | buildrunner/__init__.py:519-530 | An image generated several times is removed at most once, and not at all once it was marked as removed |
| `BuildRuns.LeftOverFailedEveryTime` | buildrunner/__init__.py:519-532 | An image is left over exactly when its removal failed each time it came up |
| `BuildRuns.BackwardsAt` | buildrunner/__init__.py:520 | The visit is in reverse order of generation |

## Left out

- Docker, buildx, paramiko, twine and network calls: free outcomes, or given ones.
- Jinja, YAML and JSON: a configuration file is a value, and a JSON parser any function that ignores surrounding blanks and accepts nothing but a closed object behind an opening brace.
- Text encodings: command output is read as characters, so a multi-byte character cut by a chunk is not modelled.
- The standard library's sorter: its source is not part of the repository; it is written out as in-degree counts with a ready queue, the documented algorithm.
- StepReordering.RunConfig.ReorderDependencySteps: versions are reals, and a configuration without a `steps` key, which is returned as it is, is not represented.
- ConfigDicts.Dict.DeepMerge: `nan`, which equals nothing, infinities, `-0.0`, which equals `0.0`, and dictionary keys other than texts, some of which are equal without being the same.
- Dictionaries inside YAML lists: list items are scalars or lists, compared as a whole like in the source; the order of keys in a merged dictionary is not kept.
- GlobalConfig.LoadGlobalConfigFiles: a file that renders to something non-empty other than a dictionary, which raises, is not represented (an empty one renders to an empty dictionary); which paths a user may mount, and which cannot be looked up, is given.
- Redirect.FetchTemplate: what a file contains does not change between fetches.
- DefaultTags.AddDefaultTags: the loop over steps and sections around it, and two entries that share one tag list object.
- Validation.Validator.ValidateSteps: which of several errors is reported; the base image of a Dockerfile is a given value.
- Publishing.PublishedOnceExactlyWhen: speaks of multi-platform steps, like the checks; a single-platform step built without the legacy builder gets a manifest too. A multi-platform step that lists no platform gets none when the legacy builder is chosen. Lower-casing is a given function of which only a few laws are used.
- Publishing.PushBuildStepRunnerTask.TagImages: security scans and the artifact entries; tagging for the native platform.
- Publishing.BaseProtectedExactlyWhen: the base of a build is the one the check reads, whose difference from the Dockerfile's own is the subject of `Dockerfiles`.
- Publishing.RunProtectedExactlyWhen: image names are compared as handed to Docker, with `latest` filled in where there is no colon; digests, default registries and untagged names with a registry port are not resolved further.
- Dockerfiles.GetBaseImage: reading the file, lower-casing it and splitting it into lines; which characters are blank is given.
- Lifecycle.NothingSlipsAway: memory effects of signals inside a single registry operation; every operation is one step.
- ContainerSites.Process.Register: asks its callers for a container no removal has been tried of, as every site registers what it has just started.
- ContainerSites.Process.Unregister: asks its callers for a removal attempt, the rule every site is shown to keep; the source relies on it without checking.
- ContainerSites.DockerRunner.Cleanup: containers spawned by a command are foreign to the registry; whether their removal raises is free.
- The container that lists artifacts, which mounts the source and has its own cleanup, and the removal of post-build images after the teardown.
- RunTasks.RunTask.Run: environment, ports, names and resource limits of a container, and the access mode after a colon in `volumes_from`.
- RunTasks.RunTask.AwaitPort: a wait that runs out of time, or whose service has died, counts as a failure.
- PortWait.WaitForPort: a nap lasts at least its second and clocks do not go backwards.
- FanOut.BuildMultipleImages: the choice of a single platform and the removal of a generated Dockerfile; file injection and the delay between tries.
- ManifestPush.MultiplatformImageBuilder.Push: a manifest whose creation timed out although the registry accepted it counts as not created.
- AgentConnection.ConnectionThread.Run: closing the channel; a send that raises, after which the loop goes on; a key that raises the protocol library's own error when it signs, which ends the thread instead of the request; how the message class pads a truncated request is a parameter.
- BuildStream.DockerBuilder.Build: what a message says about containers and images is part of the decoded message; console output is not kept.
- ContainerLogs.ContainerLogger.Write: colours and log handlers.
- Caches.DockerRunner.RestoreCaches: repeated sends after a timeout count as one; directories are compared as spelled; content changed by another process while a lock is awaited is not modelled.
- Caches.DockerRunner.SaveCaches: the wording of the history line; whether an archive is a readable tar file is part of a failure.
- CacheMaps.ConsiderCaches: home directories in archive paths are expanded beforehand, and a default cache root in which the directory cannot be made, which raises, is not represented.
- BuildRuns.BuildRunner.Run: exceptions that are not errors (signals end the process instead), the artifact manifest, the source image and temporary files, whose failure only decides whether image cleanup is reached; pushes to Python package indexes.
- Security scans, salt and shell provisioners, remote builds, command-line parsing, logging colours: wrappers around foreign calls.
