# Diplodoc maintenance scripts, modelled in Dafny

This project models the data-shaping logic of three maintenance scripts of the
Diplodoc metapackage (the `@diplodoc/*` monorepo).

- `scripts/deps.js` is the dependency-bump planner. `deps update name[@version]...`:
  - parses each specifier;
  - records one task per project root, requested name and dependency kind (`dependencies`, `devDependencies`) that pins the name;
  - groups the tasks by package name, then by kind;
  - per group, prints a report, runs `npm i` twice (with and without `--no-workspaces`);
  - with `--commit`, commits the manifests when `git status -s` shows them changed.
- `scripts/pulse.js` writes the status page `PULSE.md`:
  - badge tables per section of submodules (packages, extensions, devops, actions);
  - a Mermaid flowchart of the dependencies between `@diplodoc/*` packages, built from the Nx project graph and the packages' manifests.
- `scripts/watch.js` filters the output of child processes line by line:
  - `quiet` echoes build progress;
  - `wait` echoes the lines holding a readiness marker and settles a promise.

Inputs the scripts read from the outside world are parameters:

- the project roots and their `package.json` manifests (a map; a manifest that cannot be read is absent);
- the command line;
- the text each `git status -s` prints (a function of the call's position);
- the Nx graph (`None` when fetching it fails);
- the chunks each output stream delivers.

Outputs are values:

- the printed lines and the commands run, as a list of effects;
- the page text;
- the echoed lines.

Modules:

| file | module | what |
|---|---|---|
| wrappers.dfy | Wrappers | `Option`, `Result` |
| strings.dfy | Strings | `includes`, `startsWith`, `endsWith`, `split`, `join`, `trimEnd`, sorting, and the `.` of a regular expression |
| manifests.dfy | Manifests | the fields of `package.json` the scripts read |
| chains.dfy | Chains | the folds the loops of `update` perform: collection where the first failure throws, and the numbered concatenation of per-group effects |
| grouping.dfy | Grouping | the order-preserving `groupBy` |
| deps.dfy | Deps | specifiers, task collection, and running the work |
| form_encoding.dfy | FormEncoding | the `URLSearchParams` serialization used by the `infra` badge |
| pulse_tables.dfy | PulseTables | `link`, `badge`, `cell`, `tableHeader`, `tableRow`, `renderSection` |
| pulse_graph.dfy | PulseGraph | `shortId` and `renderDepsGraph` |
| pulse.dfy | Pulse | the section configuration, the page header, and the assembly of `PULSE.md` |
| watch.dfy | Watch | `quiet`, `wait`, and the chunk-to-lines split |

The loops of the scripts are methods with loop invariants. Each is proved equal to a specification function, and the properties are lemmas about those functions:

- `Deps.CollectTasks`, `Deps.Update`;
- `Grouping.GroupBy`;
- `PulseTables.RenderSection`;
- `PulseGraph.IndexNodes`, `PulseGraph.CollectEdges`, `PulseGraph.VisibleNodes`, `PulseGraph.BuildRepoIndex`;
- `Watch.Quiet`, `Watch.Wait`.

## Model

| member | source | states |
|---|---|---|
| Deps.ParseSpec | scripts/deps.js:32 | the specifier matches exactly when it is non-empty and has no line terminator; the name is a non-empty prefix with no version-introducing `@` after index 0; either the name is the whole specifier and the version is `latest`, or the specifier is name, `@`, a non-empty version |
| Deps.ParseTrailingAt | scripts/deps.js:32 | a specifier whose only `@` after the first character is its last has no version: the `@` stays in the name and the version is `latest` |
| Deps.ParseInstallArg | scripts/deps.js:32 | an install argument `name@version` whose name has no `@` after its first character parses back to that name and version |
| Deps.SpecWork | scripts/deps.js:34-51 | the loop over the two kinds yields the tasks of one root and specifier |
| Deps.RootWork | scripts/deps.js:31-52 | the loop over the command-line arguments yields the root's tasks, or the first parse failure |
| Deps.CollectTasks | scripts/deps.js:26-53 | the nested loops fill `work` with the tasks root by root, or fail with the first unreadable manifest or malformed specifier |
| Deps.RootTasksOk | scripts/deps.js:31-32 | a root's tasks are collected exactly when every argument parses |
| Deps.CollectFails | scripts/deps.js:28-32 | collection fails exactly when a listed root has no manifest, or there is a root and some argument does not parse |
| Deps.SpecTasksSound | scripts/deps.js:34-49 | each task of a specifier has its root, name and version, and agrees with one kind of the manifest: key, save flag, package name, pin, and `prev` |
| Deps.RootTasksSound | scripts/deps.js:31-49 | each task of a root agrees with its manifest and comes from an argument that parses to its name and `next` |
| Deps.TasksSound | scripts/deps.js:28-49 | every collected task is justified: a listed root, a manifest pinning its name under its kind with its `prev`, and a requested specifier for its name at its `next` |
| Deps.TasksComplete | scripts/deps.js:38-49 | every pinned (root, requested name, kind) has its task, with the manifest value as `prev` and the parsed version as `next` |
| Deps.SpecTasksOrder | scripts/deps.js:34-40 | one task per kind that pins the name (missing, empty and `*` do not pin), the `dependencies` one before the `devDependencies` one |
| Deps.CollectAppend | scripts/deps.js:28-53 | roots are outermost: the work for two runs of roots is the work for each, in order |
| Deps.RootTasksAppend | scripts/deps.js:31-52 | within a root, requested names come in command-line order |
| Deps.UnpinnedAddsNothing | scripts/deps.js:38-40 | a name pinned in neither map adds no task |
| Deps.CollectedModes | scripts/deps.js:34-37 | tasks of the same kind have the same save flag |
| Deps.WorkGroupsNonEmpty | scripts/deps.js:59-67 | no (package, kind) group is empty, so `deps[0]` always exists |
| Deps.RunKeyGroup | scripts/deps.js:64-97 | one kind group: its header and log, then the installs, the status check and the commit that the flags and git's answer allow |
| Deps.RunPackage | scripts/deps.js:60-98 | one package: its header, then its kind groups in order, numbered on from the groups run before |
| Deps.RunPackages | scripts/deps.js:59-99 | the outer loop yields the effects of all package groups in order |
| Deps.Update | scripts/deps.js:22-100 | `update` collects the work and runs it; with no work it does nothing at all |
| Deps.Run | scripts/deps.js:16-20 | `update` is the only command; any other throws `Unknown command <command>` |
| Deps.KeyGroupPrinted | scripts/deps.js:65-71 | a kind group prints its key, then one `    name: prev -> next` line per task |
| Deps.WorkPrinted | scripts/deps.js:59-71 | what `update` prints is the report of the work: per package its name, per kind its key and the bump lines |
| Deps.ReportIgnoresFlags | scripts/deps.js:61-75 | neither `--dryrun`, `--commit` nor git's answers change what is printed |
| Deps.InstallsStatus | scripts/deps.js:73-85 | a group asks git exactly once when installs run and `--commit` is set, and never otherwise |
| Deps.StatusCalls | scripts/deps.js:83-85 | over the whole run, `git status -s` is called once per group, in group order, exactly when it is not a dry run and `--commit` is set |
| Deps.CommitsOnlyWhenDirty | scripts/deps.js:83-96 | a commit comes right after a status of the same root that shows `package.json` or `package-lock.json`, and every such status is followed by a commit |
| Deps.KindGroupMembers | scripts/deps.js:59-64 | a task of kind group `j` of package `i` comes from the work and has that package name and kind |
| Deps.KindGroupOf | scripts/deps.js:59-64 | every task lies in some kind group of some package |
| Deps.KindGroupInstalled | scripts/deps.js:67-81 | unless `--dryrun`, every kind group is installed both with and without `--no-workspaces`, in the root and with the mode of its first task |
| Deps.InstallsCoverWork | scripts/deps.js:67-81 | unless `--dryrun`, every task's `name@next` is among the arguments of both installs of a group of the work |
| Deps.KeyGroupInstalls | scripts/deps.js:67-81 | a group's installs use the root, arguments and mode of its first task, and only when it is not a dry run |
| Deps.InstallsFromWork | scripts/deps.js:67-81 | every install is of a group of the work, in the root and with the mode of its first task, and never in a dry run |
| Deps.KeyGroupFlags | scripts/deps.js:73-83 | a group in a dry run only logs; without `--commit` it never runs git |
| Deps.FlagsLimitEffects | scripts/deps.js:73-83 | over the whole run, `--dryrun` only logs, and without `--commit` git never runs |
| Deps.KeyGroupCommits | scripts/deps.js:83-96 | a group commits only with `--commit`, outside a dry run and when `git status -s` showed a manifest, in its first task's root and with the message listing its tasks |
| Deps.CommitsFromWork | scripts/deps.js:83-96 | every commit is of a group of the work, in the root of its first task, with `deps: ` and the group's `name[prev->next]` items; none without `--commit` or in a dry run |
| Deps.KindGroupCommitted | scripts/deps.js:83-96 | with `--commit`, outside a dry run and with git reporting a changed manifest each time, every kind group is committed |
| Deps.CommitsCoverWork | scripts/deps.js:83-96 | in that case every task's `name[prev->next]` is an item of the message of a commit of a group of the work it belongs to |
| Deps.InstalledWhereDeclared | scripts/deps.js:59-81 | when package names pick out roots, every task is installed in its own root with its own mode |
| Grouping.GroupBy | scripts/deps.js:102-111 | the reduce into an object, then `Object.entries`, yields the groups of the specification |
| Grouping.KeysComplete | scripts/deps.js:102-111 | a key is a group key exactly when some entry has it |
| Grouping.KeysDistinct | scripts/deps.js:102-111 | group keys are pairwise distinct |
| Grouping.KeysInFirstOccurrenceOrder | scripts/deps.js:102-111 | group keys appear in the order of their first occurrence in the input |
| Grouping.GroupedShape | scripts/deps.js:102-111 | group `i` holds exactly the entries with key `i`, in input order, and is non-empty |
| Grouping.GroupedPartitions | scripts/deps.js:102-111 | the concatenated groups hold exactly the input entries, as a multiset |
| Grouping.GroupedMembers | scripts/deps.js:102-111 | an entry is in the input exactly when it is in some group, and the group's key is the entry's key |
| Grouping.FilterMembers | scripts/deps.js:104-107 | a group holds an entry exactly when the input does and the entry has the group's key |
| Grouping.FilterAppend | scripts/deps.js:103-110 | grouping keeps relative order: the group of two runs of input is the group of each, in order |
| Grouping.GroupedNonEmpty | scripts/deps.js:106-107 | no group is empty |
| Strings.ContainsImpliesDotMatch | scripts/deps.js:85 | a substring occurrence is also a match of the pattern used as a regular expression |
| Strings.JoinSplit | scripts/watch.js:39 | splitting on a character and joining with it gives back the string |
| Strings.SplitJoin | scripts/pulse.js:169 | joining pieces free of the separator and splitting gives back the pieces |
| Strings.TrimEnd | scripts/pulse.js:345 | `trimEnd` keeps a prefix, removes only trailing white space, and leaves no trailing white space |
| Strings.Sort | scripts/pulse.js:285 | the sorted list is sorted and a permutation of the input |
| Strings.SortDistinct | scripts/pulse.js:285 | sorting distinct values gives the same set, strictly increasing |
| FormEncoding.FormEncode | scripts/pulse.js:152-158 | serialized names and values hold only `+`, `%` and the safe characters |
| FormEncoding.DecodeEncode | scripts/pulse.js:152-158 | percent-decoding the serialized bytes gives them back |
| FormEncoding.FormDecode | scripts/pulse.js:152-158 | decoding a serialized string gives its UTF-8 bytes |
| FormEncoding.SafeUnchanged | scripts/pulse.js:152-158 | ASCII letters, digits and `*-._` are written unchanged |
| FormEncoding.QuerySplits | scripts/pulse.js:152-158 | the query splits back at `&` into its pairs, and each pair at `=` into its encoded name and value |
| FormEncoding.QueryFree | scripts/pulse.js:152-158 | the query holds no character outside those serialization writes |
| PulseTables.LinkRoundTrip | scripts/pulse.js:90-92 | a link whose target has no `]` parses back to its target and text |
| PulseTables.BadgeRoundTrip | scripts/pulse.js:94-96 | a badge whose link and image have no `]` parses back to its link, and its text to its image and alternative text |
| PulseTables.BadgesOpen | scripts/pulse.js:94-96 | a badge starts with `[` and is never `-` |
| PulseTables.CellDash | scripts/pulse.js:98-164 | a cell is `-` exactly when the row overrides the column with `-`, or a version cell outside a `github-release` section lacks `npm`, or coverage is not `sonar`, or the column is unknown; any other cell is a badge |
| PulseTables.CellPlain | scripts/pulse.js:98-164 | when no field of the row holds `|` or a line break, no cell does either |
| PulseTables.InfraPlain | scripts/pulse.js:150-158 | the `infra` badge image holds no `|` or line break |
| PulseTables.TableLineCells | scripts/pulse.js:169 | a table line splits at `|` into exactly its cells, each padded by a space |
| PulseTables.SepLineCells | scripts/pulse.js:168-169 | the separator line splits into `-----------` followed by `:-------:` cells |
| PulseTables.HeaderShape | scripts/pulse.js:166-170 | `tableHeader` is two lines: the heads line with `Submodule` and the columns, and a separator of `columns + 1` cells |
| PulseTables.RowShape | scripts/pulse.js:172-176 | a row is one line of `columns + 1` cells: the link to the repository with the path as text, then one cell per column |
| PulseTables.RenderSection | scripts/pulse.js:178-187 | the loop pushes one line per row after the head and the closing `---` unless last, and joins them |
| PulseTables.SectionJoin | scripts/pulse.js:178-187 | the section is `3 + rows` pushed elements, plus two unless it is the last |
| PulseTables.SectionShape | scripts/pulse.js:178-187 | the section, line by line: title, empty line, heads, separator, one line per row, and `---` and an empty line unless last |
| PulseTables.RowLinesPlain | scripts/pulse.js:180-182 | no row line holds a line break |
| PulseGraph.ShortIdScope | scripts/pulse.js:190-192 | `shortId` strips exactly one leading `@diplodoc/` and leaves other names unchanged |
| PulseGraph.IndexNodes | scripts/pulse.js:224-236 | the node loop fills `nodeIdToPkg` and `nodeIdToRoot` as specified |
| PulseGraph.IndexOf | scripts/pulse.js:224-236 | with distinct node ids, a node has a root entry exactly when it has a root, and a package entry exactly when its manifest is readable and named, or unreadable with a scoped id |
| PulseGraph.IndexAbsent | scripts/pulse.js:224-236 | an id that is not a node has no entry |
| PulseGraph.IndexNonEmpty | scripts/pulse.js:227-234 | recorded package names and roots are never empty |
| PulseGraph.DiplodocMembers | scripts/pulse.js:253 | a recorded name is in `diplodoc` exactly when it starts with `@diplodoc/` |
| PulseGraph.EdgeKept | scripts/pulse.js:262-274 | an edge is kept exactly when both ends are recorded `@diplodoc/` names whose short ids are neither hidden nor `-example`; it is a dev edge exactly when the target's name is among the source manifest's `devDependencies` |
| PulseGraph.KeptEdgesFrom | scripts/pulse.js:258-277 | every kept edge comes from some graph dependency |
| PulseGraph.EdgeFor | scripts/pulse.js:263-273 | one pass of the edge loop gives the edge of the dependency and keeps the cache of manifest dependencies correct |
| PulseGraph.CollectEdges | scripts/pulse.js:258-277 | the edge loop yields the kept edges in order, with the out- and in-degrees as counts of their ends |
| PulseGraph.TallyCounts | scripts/pulse.js:275-276 | a counter has an entry exactly for the values that occur, holding how often each occurs |
| PulseGraph.UniqMembers | scripts/pulse.js:280-284 | the set of ends holds each value once, and exactly the values that occur |
| PulseGraph.TallySum | scripts/pulse.js:275-276 | the counts sum to the number of values counted |
| PulseGraph.DegreeSums | scripts/pulse.js:258-277 | out-degrees and in-degrees each sum to the edge count; a node has a degree exactly when it is an end of some edge |
| PulseGraph.VisibleNodes | scripts/pulse.js:280-284 | the visible set is the ends of the edges, each once, in first-insertion order |
| PulseGraph.EndsMembers | scripts/pulse.js:280-284 | a value is an end exactly when it is the source or target of some edge |
| PulseGraph.SortedNodesSpec | scripts/pulse.js:280-285 | the node list is strictly increasing and holds exactly the ends of the kept edges |
| PulseGraph.MermaidIdQuotes | scripts/pulse.js:287 | an identifier is kept; anything else is wrapped in double quotes, and the result is not an identifier |
| PulseGraph.MermaidIdInjective | scripts/pulse.js:287 | distinct short ids get distinct Mermaid ids |
| PulseGraph.EdgeLineSplit | scripts/pulse.js:290 | an edge line is source, arrow and target separated by spaces; the arrow is `-.->` exactly for dev edges, and `-->` otherwise |
| PulseGraph.EdgeLineNamesNodes | scripts/pulse.js:287-290 | an edge line writes its ends as the node lines write their ids exactly when both ends are identifiers; a short id that is not one is quoted in its node line but written raw in the edges |
| PulseGraph.BuildRepoIndex | scripts/pulse.js:292-297 | the nested loop over sections and rows fills `repoByShortId` as specified, later rows overriding earlier ones |
| PulseGraph.RepoIndexKeys | scripts/pulse.js:292-297 | a short id has a repository exactly when some row names a package with that short id |
| PulseGraph.ClickLinesFor | scripts/pulse.js:299-301 | there is a click line for exactly the listed nodes with a non-empty repository, and no more lines than nodes |
| PulseGraph.RenderDepsGraph | scripts/pulse.js:214-325 | the graph section is computed as specified |
| PulseGraph.DepsGraphEmpty | scripts/pulse.js:214-278 | the graph section is empty exactly when fetching the graph failed or no edge is kept |
| Pulse.LastSectionEnds | scripts/pulse.js:178-187 | the last section ends with the `|` of a table line |
| Pulse.BodyTrimmed | scripts/pulse.js:340-345 | `trimEnd` leaves the body unchanged |
| Pulse.DocumentShape | scripts/pulse.js:345 | the page is the header, an empty line, the body as rendered, the graph after a rule when there is one, and a final line break |
| Pulse.RenderPulse | scripts/pulse.js:339-345 | the script's output is the document of the configured sections and the graph section |
| Watch.LinesJoin | scripts/watch.js:39 | the pieces of a chunk hold no line break and join back into the chunk |
| Watch.StdoutEchoCount | scripts/watch.js:71-80 | a stdout line is echoed as itself: twice exactly when it meets both rules, never when it meets neither |
| Watch.StderrEchoCount | scripts/watch.js:89-94 | a stderr line is echoed once exactly when it does not hold the workspace warning |
| Watch.QuietStdoutLines | scripts/watch.js:71-81 | the line loop prints the standard output echoes, in order |
| Watch.QuietStdout | scripts/watch.js:67-83 | the chunk loop prints the echoes of the lines of each chunk, chunk after chunk |
| Watch.QuietStderrLines | scripts/watch.js:89-95 | the line loop prints every stderr line but the warning, in order |
| Watch.QuietStderr | scripts/watch.js:85-97 | the chunk loop prints the stderr echoes of each chunk, chunk after chunk |
| Watch.Quiet | scripts/watch.js:66-100 | `quiet` prints the echoes of each stream |
| Watch.QuietOutLines | scripts/watch.js:68-82 | every echoed stdout line is an input line meeting a rule, and every such line is echoed |
| Watch.QuietErrLines | scripts/watch.js:86-96 | the echoed stderr lines are exactly the input lines without the warning |
| Watch.QuietOutAppend | scripts/watch.js:68-82 | lines are handled in order: the echoes of two runs of lines are the echoes of each |
| Watch.QuietErrAppend | scripts/watch.js:86-96 | likewise for standard error |
| Watch.Promise.constructor | scripts/watch.js:32-35 | a new promise is unsettled |
| Watch.Promise.Resolve | scripts/watch.js:44 | resolving settles the promise; resolving again changes nothing |
| Watch.MatchingLines | scripts/watch.js:41-46 | the printed lines are exactly the input lines holding the marker, and there are none exactly when no line holds it |
| Watch.MatchingAppend | scripts/watch.js:38-47 | matching lines come in input order across chunks |
| Watch.WaitLines | scripts/watch.js:41-46 | the line loop prints each matching line and leaves the promise settled exactly when it was, or some line matched |
| Watch.WaitOn | scripts/watch.js:37-48 | the chunk loop prints the matching lines of each chunk, and settles the promise exactly when some line matched |
| Watch.Wait | scripts/watch.js:31-64 | `wait` prints the matching lines of both streams, and the promise is settled exactly when one was printed |
| Watch.WaitSettles | scripts/watch.js:31-63 | the promise settles exactly when some line of either stream holds the marker |

## Left out

- External commands. `npm i`, `git add`, `git commit` and `nx graph` are recorded as effects or given as inputs, and are assumed to succeed. A failing command would throw and stop the script; that is not modelled. `git status -s` output is an input.
- File reads and writes. `package.json` manifests come as a map from root to parsed manifest, and a root missing from it is unreadable. JSON parsing is not modelled. Only string-valued `name`, `dependencies` and `devDependencies` are read. Writing `PULSE.md` is not modelled.
- scripts/nx.js is not part of this model. The project roots, the Nx graph and the manifests are inputs.
- scripts/reset.js is not part of this model. It only runs `rm -rf` and `npm i`.
- minimist flag parsing is not modelled. The command, its arguments and the `--dryrun`/`--commit` flags are inputs.
- JavaScript object key order. `groupBy` and `Object.entries` are modelled with ordinary string keys in first-insertion order; integer-like keys, which JavaScript lists first, are not modelled. Prototype keys such as `__proto__` or `constructor` are not modelled either.
- Deps.KeyGroupEffects: an empty kind group gets no effects; the script would throw at `deps[0]`. Grouping never makes an empty group (`Deps.WorkGroupsNonEmpty`), so this path is unreachable.
- Deps.InstalledWhereDeclared: holds only when tasks with the same package name come from the same root. The script keys groups by manifest `name`, so two roots sharing a name (or both lacking one, grouped as `undefined`) are installed in the first one's root.
- PulseTables.Cell: row fields are strings, and a missing field reads `undefined`. Non-string values in the configuration are not modelled.
- PulseGraph.DepsGraph: a failed fetch is `None`. A fetched file without a `graph` field, which would crash the destructuring, is not modelled. A node's `data.root` is a string or missing.
- Pulse.Sections: that no configured name, column or cell holds a `|` or a line break, which the section shape lemmas take as a precondition, is not proved; checking the literal configuration character by character is beyond the verifier's resource bound.
- Strings.Sort: compares strings character by character on code points. JavaScript's default sort compares UTF-16 code units, which differs only above U+FFFF.
- The `hideNote` text (scripts/pulse.js:311-313) is computed and never used, and is not modelled. The note's `flowchart TB` disagrees with the diagram's `flowchart LR`; the model reproduces both texts as written.
- Concurrency in watch.js. The two stream loops of `quiet` and `wait` run concurrently and their prints interleave; the model processes standard output, then standard error, and returns each stream's prints apart. Promise timing is not modelled: `Watch.Wait` reports whether the promise has settled once both streams end. The startup sequence of the script (lines 10-29) only runs commands, and is not modelled.
- Watch.Lines: each chunk is split on its own, as the script does. A line that arrives split across two chunks is therefore tested as two pieces; the model reproduces this and states no property of it.
