# Followers indexer: work planning and file naming

A model of the start-up logic of `followersIndexer.js`, the script that indexes the
followers of popular GitHub repositories and can resume an interrupted run. Before it starts
fetching, the script:

1. halts when no access token is enabled, and halts when the repositories file named by the
   first argument does not exist;
2. reads the repository list;
3. chooses the followers (checkpoint) file. An existing file given as the second argument is
   used. Otherwise the file is `<dir>/<basename without .json>Followers.json`, next to the
   repositories file, with a warning when that file already exists;
4. loads the followers already recorded, or an empty store when that file cannot be read or
   parsed;
5. plans the work: the repositories whose name is not yet a key of the store, in input order.

Modules:

- `Options` (`options.dfy`): the option type.
- `WorkPlanner` (`planner.dfy`): repository records, the followers store, the planner
  `Remaining` with its properties, and the loader `GetProcessedRepositories`.
- `FileNaming` (`file_naming.dfy`): the followers-file naming rule. A resolved absolute POSIX
  path is a list of segments, with a string rendering. Two string functions, `DirOf` and
  `BaseOf`, split a path string at its last `/`. They serve as the independent reference for
  "same directory" and "file name".
- `FollowersIndexer` (`indexer.dfy`): the start-up gate and `Run`, the top level of the script
  written as an imperative method. It follows the script step by step, up to the hand-off to
  the indexer.

The environment enters as parameters:

- the number of enabled tokens;
- the command-line arguments;
- the set of paths that exist, so that `fs.existsSync(p)` is `p in existing`;
- the resolved absolute form of the repositories file name;
- for each file whose contents parse, those contents: a repository list, or a followers map.

A repositories file that exists but does not parse makes `JSON.parse` throw an exception that
nothing catches. The model calls this outcome `Crashed`.

Three behaviours of the script are worth noting:

- An unparsable followers file is silently treated as "nothing indexed"
  (followersIndexer.js:76-82). It does not halt the run.
- A followers file name given on the command line is ignored whenever it does not exist yet,
  not only when it is absent. `FileNaming.DerivedFileChosen` states this.
- The values -1 and -2 are what the script's top-level code returns
  (followersIndexer.js:13, 22). `Run` reports them as `Halted(status)`.

For a basename that is exactly `.json`, the naming rule follows Node's `path.basename`: the
name is not stripped, so the result is `.jsonFollowers.json`.

## Model

| member | source | states |
|---|---|---|
| `WorkPlanner.Remaining` | followersIndexer.js:87-89 | the plan is no longer than the input, and every planned record comes from the input and has an unprocessed name |
| `WorkPlanner.RemainingMembership` | followersIndexer.js:88 | a record is planned if and only if it is in the input and its name is not a key of the store |
| `WorkPlanner.RemainingMultiplicity` | followersIndexer.js:88 | each unprocessed record is planned as often as it occurs in the input; processed ones not at all |
| `WorkPlanner.RemainingIsSubsequence` | followersIndexer.js:88 | the plan is a subsequence of the input, so relative order is preserved |
| `WorkPlanner.EmptyStorePlansEverything` | followersIndexer.js:75-88 | with the empty store (the fallback when loading fails) the plan is the whole input |
| `WorkPlanner.RemainingAgreeingStores` | followersIndexer.js:88 | stores that agree on which input names are keys give the same plan; the recorded followers do not matter |
| `WorkPlanner.RemainingUnion` | followersIndexer.js:88 | planning against the union of two stores equals planning against one and filtering the result against the other |
| `WorkPlanner.RemainingIdempotent` | followersIndexer.js:88 | filtering a plan again against the same store returns it unchanged |
| `WorkPlanner.RemainingMonotone` | followersIndexer.js:88 | growing the store's keys only filters the plan further: it gives a subsequence of the old plan, no longer than it |
| `WorkPlanner.RemainingEmptyIffAllProcessed` | followersIndexer.js:88 | the plan is empty if and only if every input name is a key of the store |
| `WorkPlanner.StatisticsAddUp` | followersIndexer.js:55-59 | with unique names and a store holding only input names, the printed Total is Processed plus Remaining |
| `WorkPlanner.GetProcessedRepositories` | followersIndexer.js:73-85 | returns the parsed contents of the followers file when they parse, and the empty store otherwise |
| `FileNaming.ProcessedRepositoriesFileName` | followersIndexer.js:91-108 | the chosen file is either the derived path or the given name when that exists; the warning only accompanies an existing derived path; pinned down by `GivenFileKept`, `DerivedFileChosen` and `DerivedFileInRepositoriesDirectory` |
| `FileNaming.StripExtension` | followersIndexer.js:101 | the stripped basename is a prefix of the basename, equal to it or completed to it by the extension; pinned down by `StripExtensionInverse` |
| `FileNaming.LastSlash` | followersIndexer.js:99-101 | finds the last separator of a path string: none in the string, or a position holding '/' with none after it |
| `FileNaming.GivenFileKept` | followersIndexer.js:92-95 | an existing followers file given as argument is returned unchanged, without the warning |
| `FileNaming.DerivedFileChosen` | followersIndexer.js:97-107 | otherwise the derived path is returned even if it exists; the warning is raised exactly when it exists; a given name comes back only if it equals the derived path |
| `FileNaming.LastSlashOfJoin` | followersIndexer.js:101 | in `dir + "/" + name` with a separator-free name, the last separator is the inserted one |
| `FileNaming.RenderJoin` | followersIndexer.js:100-101 | joining a file name to a directory and rendering gives a path whose directory part is that directory and whose file-name part is that name |
| `FileNaming.StripExtensionInverse` | followersIndexer.js:101 | stripping ".json" and appending it back restores the basename; when nothing is stripped the basename is unchanged |
| `FileNaming.DerivedNameHasNoSeparator` | followersIndexer.js:101 | the derived file name of a well-formed path contains no separator |
| `FileNaming.DerivedFileInRepositoriesDirectory` | followersIndexer.js:99-101 | the derived file is in the directory of the absolute repositories file; its name is that file's basename without a trailing ".json", followed by "Followers.json"; so it ends in "Followers.json" |
| `FileNaming.JsonExample` | followersIndexer.js:97-107 | `repos.json` with no followers argument gives `reposFollowers.json` in the same directory, with no warning when that file does not exist |
| `FileNaming.TxtExample` | followersIndexer.js:97-107 | `repos.txt` gives `repos.txtFollowers.json` in the same directory, with the warning when that file exists |
| `FollowersIndexer.StartupGate` | followersIndexer.js:11-23 | zero enabled tokens halts with -1 whatever the input; otherwise a missing repositories file halts with -2; otherwise processing proceeds |
| `FollowersIndexer.Run` | followersIndexer.js:11-33 | the halts of the gate, a crash on an unparsable repositories file, and otherwise the chosen followers file, the loaded store and the plan, with the plan's membership, order and empty-store properties |
| `FollowersIndexer.ResumeScenario` | followersIndexer.js:27-28 | for `r1, r2, r3`, the plan is all three against an empty store and `r2, r3` once `r1` is recorded |

## Left out

- Console output, help text and the printing of statistics (followersIndexer.js:35-60, 67-69, 74-81, 93-105). These are logging only. `StatisticsAddUp` states the one relation between the printed counts.
- `lib/tokens`, `lib/ghclient`, `lib/fsdb` and `lib/indexFollowers` (followersIndexer.js:8, 16, 31-33) are not part of this model. Token rotation, paginated fetching, rate limiting and the durable writes of the checkpoint store live there, so `Run` stops at the hand-off to the indexer.
- File reads and `JSON.parse` appear only through their outcomes. A file either parses as the expected shape (a repository list, a followers map) or it does not. JSON of another shape, such as an array read as the followers file, is not modelled.
- `path.resolve` depends on the working directory. The resolved path is a parameter, and only POSIX separators are modelled.
- WorkPlanner.Remaining: "processed" means the name is a key of the store. JavaScript's `!indexedRepositories[x.name]` also treats a key mapped to a falsy value as unprocessed, and a name inherited from the object prototype (such as `constructor`) as processed. Neither is modelled. The "nothing indexed" fallback at followersIndexer.js:75 is the array `[]`, so against it every name that arrays inherit (`map`, `filter`, `push`, `constructor`, ...) also counts as processed; `EmptyStorePlansEverything` therefore holds of the script only for repositories with other names.
- FollowersIndexer.Run: reports the script's top-level return value as `Halted(status)`. Node discards a module's top-level return value, so the process exit status is not modelled.
