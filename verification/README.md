# container-camp fleet helpers, modelled in Dafny

The repository drives container lifecycles on a fleet of hosts: Fabric runs
shell commands on every host in parallel and the scripts print one
`[OK]`/`[FAIL]` status line per host. A small Go tool lists recently accessed
files. This project models the pure logic of three source files as functions
over plain data and proves what they promise:

- `ice-experiment/cc.py`. The per-host outcome model and `_error`. The
  "all hosts succeeded" gate (`_check_outcomes`). The status lines
  (`_print_outcomes`). The gated chains `runc_start` and `runc_delete`. The
  bundle, image, branch and root paths built with POSIX `os.path.join`. The
  precondition checks and command strings of every `*_task` that works on a
  bundle.
- `ice-experiment/docker.py`. Its own status lines, which never show a
  failure message. The `docker run|exec|rm` commands. The repair that turns
  `docker ps` output into a JSON list. The per-host grouping of the `ps`
  table.
- `find-recently-accessed/find-recently-accessed.go`. `parseArgs`, including
  Go's `strconv.ParseInt(s, 10, 32)`. The walk filter in `do`. The byte,
  KB and MB totals in `main`.

Modules: `Wrappers` (Option/Result), `Strings` (`ljust`, `join`, `split`),
`PosixPath` (`os.path.join`), `Outcomes`, `Workflow`, `CcTasks`, `Docker`,
`GoStrconv` and `RecentlyAccessed`.

Each remote effect becomes an input:
- a host's file system is the set of paths that exist on it;
- a remote command's result is an `Outcome` parameter;
- `fab.execute`'s host-to-result dictionary is a sequence of
  `Entry(host, outcome)` in the dictionary's order;
- `json.loads` and `os.Stat` are function parameters;
- the directory walk is a sequence of `FileRecord`s;
- the clock is an integer `now`, in nanoseconds.

Three behaviours of the code worth stating plainly:
- A status line pads the host on the right to 70 characters (`{:70s}`). It
  is not padded on the left.
- cc.py shows a failure's message. docker.py never does.
- `runc_start` and `runc_delete` return `False` only when a gate fails.
  Otherwise they fall through and return `None`.

## Model

| member | source | states |
|---|---|---|
| Strings.PadRight | ice-experiment/cc.py:253 | `{:70s}` pads with blanks to the width and never truncates: the result is as long as the larger of the two, starts with the text, and is blank after it |
| PosixPath.JoinShape | ice-experiment/cc.py:143-146 | `os.path.join(a, b)`: an absolute `b` is the whole result. Otherwise `a` is a prefix, and one `/` is inserted exactly when `a` is non-empty and does not end in `/`. `b` is always a suffix |
| PosixPath.JoinAssociative | ice-experiment/cc.py:144 | grouping the components of a multi-part join differently never changes the resulting path |
| PosixPath.JoinAllAbsoluteLast | ice-experiment/cc.py:144 | an absolute last component discards everything joined before it |
| Outcomes.Error | ice-experiment/cc.py:228-231 | an `_error` is always a failure and carries exactly the message it was built with |
| Outcomes.CheckOutcomes | ice-experiment/cc.py:235-239 | the gate is false exactly when some entry failed, true exactly when none did, and true for an empty result |
| Outcomes.CcMarkerReadBack | ice-experiment/cc.py:242-252 | the four cc.py markers (`[FAIL] - msg`, `[FAIL]`, `[OK] - out`, `[OK]`) are distinct and carry exactly the message or output, so the outcome can be read back from the marker |
| Outcomes.DockerMarkerReadBack | ice-experiment/docker.py:140-147 | a docker.py marker reads back as the success with its output, or as a bare failure: no failure message ever appears |
| Outcomes.MarkersDiffer | ice-experiment/docker.py:142-143 | the two modules print the same marker except for a failure that carries a message |
| Outcomes.StatusLineLayout | ice-experiment/cc.py:253 | a status line is the host, blanks up to at least column 70, one more blank, then the marker; the host is never truncated |
| Outcomes.StatusLineReadBack | ice-experiment/docker.py:148 | for a blank-free host and a non-empty marker that does not start with a blank, a status line splits back into exactly the host and the marker |
| Outcomes.PrintOutcomes | ice-experiment/cc.py:241-253 | one status line per result entry |
| Outcomes.PrintOutcomesReadBack | ice-experiment/cc.py:241-253 | for blank-free host names, cc.py's report has one line per entry, in order: line `i` names host `i`, and reading its marker gives back exactly outcome `i` |
| Outcomes.DockerPrintOutcomes | ice-experiment/docker.py:140-148 | one status line per result entry |
| Outcomes.DockerPrintOutcomesReadBack | ice-experiment/docker.py:140-148 | for blank-free host names, docker.py's report has one line per entry, in order, naming the host and its outcome with any failure message dropped |
| Workflow.RunChain | ice-experiment/cc.py:48-63 | a chain runs at least its first step and at most all of them |
| Workflow.ChainStopsAtFirstFailedGate | ice-experiment/cc.py:48-63 | a chain runs exactly up to and including its first failed gate. It returns `False` exactly when some gate fails. It prints only that step's banner and outcomes, or, when every gate passes, only the last step's outcomes |
| Workflow.StepRunsIffEarlierGatesPass | ice-experiment/cc.py:48-63 | a step runs exactly when every gate before it passed |
| Workflow.LaterStepsIgnored | ice-experiment/cc.py:48-53 | what later steps would return has no influence once a gate has failed |
| Workflow.RuncStartGating | ice-experiment/cc.py:38-63 | the config step runs iff every bundle outcome succeeded, and the start step iff every config outcome did too. `runc_start` returns `False` iff one of those gates fails, and then prints that step's diagnostic and outcomes |
| Workflow.RuncDeleteGating | ice-experiment/cc.py:79-95 | bundle removal runs iff the kill step succeeded on every host. `runc_delete` returns `False` exactly when it did not |
| CcTasks.BundlePathLayout | ice-experiment/cc.py:143 | a relative id gives `/var/lib/containers/<id>`. An absolute id discards the base and is the bundle path itself |
| CcTasks.ImagePathLayout | ice-experiment/cc.py:144 | a relative image gives `/cvmfs/container-images.aws/image/<image>`. An absolute image discards that prefix |
| CcTasks.BundleChildren | ice-experiment/cc.py:145-146 | the rw, rootfs and config paths lie strictly under the bundle, and are `<bundle>/rw`, `<bundle>/rootfs` and `<bundle>/config.json` when the bundle path does not end in `/` |
| CcTasks.MakeBundlePreconditions | ice-experiment/cc.py:142-162 | the image check comes first: a missing image gives "image `X` does not exist" even if the bundle exists. An existing bundle gives "`<bundle>` exists". Commands run iff both checks pass, starting with `mkdir -p <bundle>`, and the task then returns the mount's result |
| CcTasks.ArgsFlagsAsJoin | ice-experiment/cc.py:172-174 | for a non-empty argument list, the flags the loop appends are the arguments joined with ` --args `, after one leading ` --args ` |
| CcTasks.BuildGenerateCommand | ice-experiment/cc.py:172-174 | the loop builds exactly `ocitools generate` with no arguments, and otherwise `ocitools generate --args a1 --args a2 …` in argument order |
| CcTasks.ConfigCommandShape | ice-experiment/cc.py:165-176 | with the bundle present, the single command is the generate command redirected to `<bundle>/config.json`, and with no arguments just `ocitools generate > <config>` |
| CcTasks.RuncExecCommandReadBack | ice-experiment/cc.py:196-199 | with a blank-free id and blank-free arguments, `runc exec <id> <args>` splits back on blanks into `runc`, `exec`, the id and every argument in order. With no arguments the trailing blank remains |
| CcTasks.BundleRequired | ice-experiment/cc.py:165-221 | the config, start, exec, kill and delete tasks refuse, run nothing and fail with "`<bundle>` does not exist" exactly when the bundle is missing. Otherwise they run their commands and return the last command's result |
| CcTasks.DeleteUndoesBundle | ice-experiment/cc.py:142-221 | after bundle creation ran its commands, removal deletes exactly the directory the first `mkdir -p` made and unmounts exactly the mount point that ends the mount command, which the third `mkdir` made. The start, exec and kill tasks run in that same directory |
| CcTasks.BundleStep | ice-experiment/cc.py:48 | the bundle step has one outcome per host |
| Workflow.FailedBundleStopsStart | ice-experiment/cc.py:48-53 | a host whose bundle step failed with a message makes `runc_start` return `False` after that one step, and the report line for that host carries that message |
| CcTasks.MissingImageStopsStart | ice-experiment/cc.py:48-53 | one host missing the image makes `runc_start` return `False` before the config step, and its report line for that host carries the image precondition failure verbatim |
| Docker.ContainerCommandReadBack | ice-experiment/docker.py:115-124 | the command is the fixed prefix `docker run ` / `docker exec ` / `docker rm `, keeping its trailing blank with no arguments. With blank-free arguments it splits back into `docker`, the verb and every argument in order |
| Docker.DropClosingCommas | ice-experiment/docker.py:79 | the substitution never lengthens the text |
| Docker.DropClosingCommasKeeps | ice-experiment/docker.py:79 | the substitution keeps every character, in order, except the commas that sit between `}` and `]` |
| Docker.DropClosingCommasTail | ice-experiment/docker.py:79 | text ending in `},]` ends in `}]` after the substitution |
| Docker.RepairPsOutput | ice-experiment/docker.py:78-79 | the repaired text starts with `[` and ends with `]`. It is the wrapped output with only the commas between `}` and `]` removed, so output ending in `},` ends in `}]` |
| Docker.RepairEmpty | ice-experiment/docker.py:78-79 | empty output repairs to the empty list `[]` |
| Docker.ContainerCells | ice-experiment/docker.py:89-94 | rows are built iff every container has `name`, `image` and `ports`. Each row then holds exactly those keys, valued as in its container, one row per container, in order |
| Docker.ContainerRow | ice-experiment/docker.py:90-94 | a container's row has exactly the keys `name`, `image` and `ports`, each valued as in the container |
| Docker.HostRowsRegroup | ice-experiment/docker.py:87-94 | the table starts with a heading, so no row lies outside a section, and reads back as one section per host, in order, headed `Host: <key>`, holding exactly that host's container rows |
| Docker.ParseHostsCrash | ice-experiment/docker.py:73-80 | `ps` stops at a parse error exactly when some successful host's repaired output does not parse |
| Docker.ParseHostsFailLines | ice-experiment/docker.py:74-77 | when no successful host's output fails to parse, failed hosts get exactly a `[FAIL]` status line each, in order: the line docker.py's `_print_outcomes` prints |
| Docker.ParseHostsListings | ice-experiment/docker.py:73-80 | when no successful host's output fails to parse, every successful host, and only those, is listed in order with what its repaired output parsed to |
| Docker.ListingCells | ice-experiment/docker.py:87-94 | each host's rows are built from its containers, or `ps` fails because some container lacks a column |
| Docker.PsListsSucceededHosts | ice-experiment/docker.py:73-94 | when `ps` lists, failed hosts appear only as `[FAIL]` lines. The table starts with a heading, so every row belongs to a section, and it has one `Host: <key>` section per successful host, in order, with one row per parsed container holding exactly its name, image and ports |
| Docker.PsCrashes | ice-experiment/docker.py:73-94 | `ps` fails exactly when a successful host's output does not parse or a container lacks a column |
| GoStrconv.ParseUintFromSpec | find-recently-accessed/find-recently-accessed.go:48 | the digit loop succeeds iff the rest is digits and the value fits 32 unsigned bits. It fails with a range error iff some leading run of digits already overflows, even when a non-digit follows |
| GoStrconv.ParseUintSpec | find-recently-accessed/find-recently-accessed.go:48 | the unsigned parse accepts exactly non-empty digit strings of value at most 2^32-1 and returns their value |
| GoStrconv.ParseInt32Spec | find-recently-accessed/find-recently-accessed.go:48-51 | the seconds parse succeeds iff the argument is an optionally signed base-10 integer in [-2^31, 2^31-1], and returns its value. A well-formed value out of range is a range error |
| RecentlyAccessed.ArgumentCountFirst | find-recently-accessed/find-recently-accessed.go:27-29 | a vector whose length is not 3 is refused before any other check, whatever the clock or file system |
| RecentlyAccessed.SecondsThreshold | find-recently-accessed/find-recently-accessed.go:47-55 | for an existing directory the request is accepted iff the seconds parse as a 32-bit integer. The threshold is then `now - seconds` (in nanoseconds), and a refusal is a seconds error |
| RecentlyAccessed.Recent | find-recently-accessed/find-recently-accessed.go:63-93 | every listed entry is the path and size of a visited regular file accessed strictly after the threshold, and every such file is listed |
| RecentlyAccessed.RecentAppend | find-recently-accessed/find-recently-accessed.go:81-84 | entries keep walk order: the entries of a walk are those of its first part followed by those of the rest |
| RecentlyAccessed.NotSelectedNotListed | find-recently-accessed/find-recently-accessed.go:69-78 | a record that is not selected (a non-regular file, or one accessed exactly at the threshold) adds nothing to the listing, wherever the walk visits it |
| RecentlyAccessed.CollectRecent | find-recently-accessed/find-recently-accessed.go:64-92 | the append-as-you-walk callback produces exactly the filtered entries |
| RecentlyAccessed.RecentSizeBound | find-recently-accessed/find-recently-accessed.go:121-124 | the listed files never weigh more than all visited files |
| RecentlyAccessed.SumSizes | find-recently-accessed/find-recently-accessed.go:121-124 | the summing loop yields the total size and the `int64` accumulator stays in range |
| RecentlyAccessed.Summarize | find-recently-accessed/find-recently-accessed.go:115-127 | no totals without entries. Otherwise KB and MB are the truncated quotients of the byte total by 1024 and 1024², and MB is KB / 1024 |
| RecentlyAccessed.FindRecentlyAccessed | find-recently-accessed/find-recently-accessed.go:95-128 | the tool fails iff `parseArgs` does. Otherwise it reports no totals iff no visited file qualifies, and else the total of the listed files |

## Left out

- Fabric's remote execution (`fab.run`, `fab.sudo`, `fab.put`, `fab_files.exists`, `fab_files.append`, `fab.cd`, `fab.hide`): this is SSH I/O. Existence checks read a set of paths, and command results are parameters.
- `ice.ParallelRunner` and `fab.execute`: the parallel dispatch is delegated to a library that is not part of this model. A step's results are an ordered host-to-outcome sequence.
- Docker.PsListsSucceededHosts: the `Host:` sections are stated in the order of the step's results. The table loop iterates a second dictionary, `res_parsed`, that holds only the successful hosts. Under Python 2, which Fabric 1 runs on, dictionary iteration follows hash order, not insertion order. The stated order therefore assumes insertion-ordered dictionaries (Python 3.7 and later). Docker.HostRowsRegroup makes the same assumption.
- Hosts with duplicate names: Python's dictionary keys are unique, but the model does not require distinct hosts.
- Commands run without `warn_only`: under Fabric, a failure of these commands aborts, and that behaviour is not part of this model. They are modelled as succeeding. These are `mkdir`, `runc create`, `runc kill`, `umount` and the final `rm -Rf`. The last one's result is the task's outcome parameter, and the model lets that parameter be any outcome, `Failed(None)` included. Under Fabric a failing non-`warn_only` `rm -Rf` would abort the task instead of returning a failure.
- `_error`'s console echo of `ERROR: msg`: it is printed from the per-host task process, and its interleaving with other output is not determined.
- `ping_cvmfs_task`, `mount_cvmfs_task`, `write_cvmfs_config_task` and the CernVM-FS config text, plus `daemon_start`, `daemon_stop`, `daemon_check` and the `daemon_ps` format string: these are fixed command strings or file contents with no logic.
- The single-step runners (`ping_cvmfs`, `mount_cvmfs`, `runc_exec`, `start`, `stop`, `check`, `run`, `execute`, `rm`): each one prints its step's outcomes, which is `PrintOutcomes` or `DockerPrintOutcomes` of that step.
- `ascii_table` rendering: the library is not part of this model, so only the rows and columns added to the table are modelled. `json.loads` is a parameter, and JSON values are strings.
- `re.sub` in general: only the fixed pattern `},\]` is modelled.
- The Go tool's `os.Stat`, `filepath.Walk`, `syscall.Stat_t` and `time.Now`: these are filesystem and clock I/O, so they become parameters. Walk errors are not modelled, including the callback being called with no file info when the root cannot be read.
- Go's monotonic clock reading and `Time.String()`: times are integer nanoseconds, and the printed request is not modelled.
- RecentlyAccessed.Summarize: the `int64` total is not allowed to wrap around. A precondition bounds it instead, and `RecentSizeBound` shows that bounding the visited sizes suffices.
- File sizes are `nat` because a regular file's size is never negative. Go's truncating division therefore coincides with Dafny's.
- Console output and exit codes: the usage text and the `found N entries` line are left out. The summary and the error are returned instead.
