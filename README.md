# cyan metric: command registry, series alignment and flow split

A Dafny model of the core of the `metric` tool of cyan, which computes
metrics over Cyclus simulation databases. The model covers these parts:

- **Commands** (`commands.dfy`). `CmdSet` is the command registry. It holds
  a name-to-handler map and parallel lists of names and help lines.
  `Register` appends to the lists and binds the name. `Execute` dispatches on
  the first argument, either to the registered handler or to the custom-query
  path. `DefaultCommands` is the registry as `init` builds it, and
  `RunCommand` is `main`'s final dispatch through that registry.
- **MultiSeries** (`multiseries.dfy`). `Rows` turns several (x, y) series
  into one table: one row per x that occurs in any series, in increasing x.
  Each row has one slot per series. A slot holds that series' y at x, where
  the last point wins, or 0 when the series has no point at x. `Aligned` is
  the specification. Lemmas show that this table is unique, that it has one
  row per distinct x, and what it is on a worked example.
- **Sorting** (`sorting.dfy`). This is the contract of Go's `sort.Ints`,
  which `Rows` calls, together with the ordering and distinctness facts the
  alignment proof needs.
- **FlowArgs** (`flowargs.dfy`). This is the argument split of the `flow`
  command. Agent ids before the first `..` form the sending group; ids after
  it form the receiving group. A later `..` is skipped. An argument that is
  not an integer is fatal. No receiving ids means the usage message.
  `SplitSpec` states the outcome on the whole argument list, and the loop
  `SplitFlow` is proved equal to it, guard included.
- **Post** (`post.dfy`). This is the label-keyed stopwatch `Timer` and the
  byte-discarding `NullWriter` of `post/util.go`.

Clock readings are passed in as an integer `now`. Handlers are values of an
enumerated type rather than functions. Each flow argument arrives already
classified: `..`, an integer that `strconv.Atoi` accepts (with its value), or
text that it rejects.

## Model

| member | source | states |
|---|---|---|
| Commands.CmdSet.constructor | cmd/metric/metric.go:398-400 | NewCmdSet: no names, no help lines and no handlers; the registry is consistent |
| Commands.CmdSet.Register | cmd/metric/metric.go:402-406 | appends the name and the help line, binds the name to the handler (a re-registered name is listed twice and the later handler wins), and keeps names and handlers in step |
| Commands.CmdSet.Execute | cmd/metric/metric.go:408-416 | the dispatch carries the first argument as the command name and the rest as arguments; it reaches a registered handler exactly when the name is registered, which is exactly when the name is among those listed for the usage text, and then it is that name's handler; otherwise it takes the custom-query path |
| Commands.BindingsLookup | cmd/metric/metric.go:402-406 | after a run of registrations, a name is bound to the handler of its last registration |
| Commands.CommandNamesDistinct | cmd/metric/metric.go:40-48 | init registers no name twice |
| Commands.CommandFuncsValue | cmd/metric/metric.go:39-49 | the bindings of init's nine registrations, in order, are the map from each command name to its own handler |
| Commands.DefaultCommands | cmd/metric/metric.go:39-49 | init's registry lists the nine names and their exact help lines in registration order, and its map is the bindings of those names to their handlers, in registration order |
| Commands.RunCommand | cmd/metric/metric.go:102 | main's dispatch reaches a handler exactly when the command is one of the nine names, and then it reaches the handler registered for that name; any other name goes to the custom-query path |
| MultiSeries.Rows | cmd/metric/metric.go:202-224 | the result is the aligned table: strictly increasing x, one row for exactly each x that occurs in any series, each row with one slot per series, holding the last y of that series at x or 0 |
| MultiSeries.Collect | cmd/metric/metric.go:219-222 | the rows are the map's rows for the sorted keys, in key order |
| MultiSeries.XsMembers | cmd/metric/metric.go:205-211 | an x is in a series' key set exactly when some point of the series has that x |
| MultiSeries.DomainMembers | cmd/metric/metric.go:204-211 | an x gets a row exactly when some series has a point at x |
| MultiSeries.SlotMissing | cmd/metric/metric.go:210 | a series without a point at x leaves that row's slot at the zero value |
| MultiSeries.SlotLastWins | cmd/metric/metric.go:213 | when a series has several points at one x, the slot holds the y of the last one |
| MultiSeries.AlignedUnique | cmd/metric/metric.go:202-224 | two tables that are both aligned for the same series are equal, so the alignment fixes Rows' result completely |
| MultiSeries.AlignedRowCount | cmd/metric/metric.go:218-222 | the table has exactly as many rows as there are distinct x values across all series |
| MultiSeries.RowsExample | cmd/metric/metric.go:202-224 | for the series [(0,1),(2,3)] and [(1,5)], the only aligned table is rows 0:[1,0], 1:[0,5], 2:[3,0] |
| Sorting.SortInts | cmd/metric/metric.go:218 | sort.Ints: the result is in non-decreasing order and a permutation of the input |
| Sorting.Insert | cmd/metric/metric.go:218 | inserting into a sorted sequence gives a sorted sequence one longer, holding the old values plus the new one |
| Sorting.DistinctIffSingleOccurrences | cmd/metric/metric.go:207-208 | a sequence has no repeated value exactly when each value occurs at most once in it, which is what makes the sorted x list repeat-free |
| Sorting.IncreasingUnique | cmd/metric/metric.go:218-222 | two strictly increasing sequences with the same members are equal |
| Sorting.DistinctCardinality | cmd/metric/metric.go:219 | a repeat-free list has as many distinct values as elements (len(xs) equals len(rowmap)) |
| FlowArgs.Find | cmd/metric/metric.go:347-354 | the index returned is the first argument with the property, or the length when none has it |
| FlowArgs.SplitFlow | cmd/metric/metric.go:341-364 | the loop's outcome is the specified split: usage for fewer than two arguments; fatal on the first argument Atoi rejects; otherwise the ids before the first ".." send and the ids after it receive, and an empty receiving group is usage |
| FlowArgs.ScanSep | cmd/metric/metric.go:348-351 | a ".." ends the sending group, and a later ".." is skipped; neither adds an id |
| FlowArgs.ScanId | cmd/metric/metric.go:353-359 | an accepted id joins the sending group before the first ".." and the receiving group after it |
| FlowArgs.ScanFatal | cmd/metric/metric.go:353-354 | the first argument Atoi rejects makes the whole split fatal with that argument |
| FlowArgs.ScanEnd | cmd/metric/metric.go:361-364 | once every argument is scanned, an empty receiving group is usage and otherwise the two groups are the result |
| FlowArgs.IdsAppend | cmd/metric/metric.go:355-359 | the ids collected from two runs of arguments are the ids of the first followed by those of the second |
| FlowArgs.IdsMembers | cmd/metric/metric.go:353-359 | a value is collected exactly when it is the value of some id argument |
| FlowArgs.SplitKeepsIds | cmd/metric/metric.go:346-360 | when the split succeeds, the sending group followed by the receiving group is every id of the argument list, in order, with no ".." among them |
| FlowArgs.SplitAtFirstSep | cmd/metric/metric.go:346-364 | for ids, a "..", then ids and further ".." tokens, the sending group is the ids before the first "..", the receiving group is the ids after it, and usage results when the latter is empty |
| FlowArgs.ShortNeverGroups | cmd/metric/metric.go:341-344 | fewer than two arguments after the command name give usage, and such a list could never have split into two groups |
| FlowArgs.NoSepIsUsage | cmd/metric/metric.go:346-364 | ids with no ".." put every id in the sending group and none in the receiving group, so the result is usage |
| FlowArgs.RawScanFatalOnFlag | cmd/metric/metric.go:336-354 | as written, an argument list of at least two arguments that begins with a flag such as "-t1" is fatal, because the scan runs over the raw arguments |
| FlowArgs.ParsedSplitIgnoresFlags | cmd/metric/metric.go:329-364 | when the scan runs over the arguments left after flag parsing, flags before a well-formed "from .. to" list do not change the groups |
| Post.Timer.constructor | post/util.go:39-44 | NewTimer: no label running and nothing accumulated |
| Post.Timer.Start | post/util.go:46-50 | records now for a label that is not running; a running label keeps its earlier start; totals and other labels are unchanged; every label still started no later than now |
| Post.Timer.Stop | post/util.go:52-57 | clears the label's start whether or not it was running; if it was, adds now minus its start to its total; other totals are unchanged; when no start lies in the future, a total never decreases |
| Post.NullWriterWritesAll | post/util.go:59-61 | Write meets the io.Writer contract (0 <= n <= len(p), and an error whenever n < len(p)) by reporting all of p written with a nil error |

## Findings

| source | as written | input that shows it | evidently intended | confidence | as-written member | corrected member |
|---|---|---|---|---|---|---|
| cmd/metric/metric.go:336-354 | after `fs.Parse(args)`, the loop ranges over `args`, the raw arguments, not over `fs.Args()` | `flow -t1 5 1 .. 2`: `strconv.Atoi("-t1")` fails and `fatalif` exits | the loop ranges over the arguments left after the `-t1`/`-t2` flags are parsed, so the flags can be used | high, not executed | FlowArgs.RawScanFatalOnFlag | FlowArgs.ParsedSplitIgnoresFlags |

`FlowArgs.SplitFlow` models the loop as written. `FlowArgs.ParsedSplit` is
the corrected split over the arguments after the flags. Its `consumed`
argument stands for the number of arguments `fs.Parse` takes. It is a
parameter, not derived, because flag parsing is not modelled.

## Left out

- doAgents, doSims, doInv, doCreated, doDeploySeries, doFlow's query, doInvSeries, doFlowGraph and doEnergy: they are database queries and printing. They exist in the model only as the `Handler` values of their registrations.
- doCustom: the custom-query path is the `Custom` outcome of `Execute`. Its SQL lookup, query and tabwriter printing are not modelled.
- GetSimIds (post/util.go): it is a loop over a sqlite cursor and is not modelled.
- The query.Flow call and the printing at the end of doFlow, and the database setup, post-processing and usage printing of main: these are I/O.
- The flag parsing of main and doFlow (flag.Parse, fs.Parse, the `-t1`/`-t2` values, ExitOnError). The model takes the argument list after the command name as given.
- strconv.Atoi: each flow argument arrives already classified. The model does not parse decimal text, signs or the 64-bit range.
- log.Fatal exits the process. It is modelled as the `Fatal` outcome, which carries the rejected argument.
- Sorting.SortInts: it is insertion sort standing in for Go's pdqsort. Only the result is modelled: sorted and a permutation.
- MultiSeries.Rows: float64 y values are modelled as `real`. NaN, infinities and rounding are not modelled.
- MultiSeries.Rows: the `Ys` slice that the map's row and the returned row share is modelled as a value. The aliasing is unobservable, because Rows writes only to the map's copy before it returns.
- MultiSeries.Collect: this is the final loop of Rows, split into its own method. The preallocated capacity of `rows` is not modelled.
- Commands.CmdSet.Execute: the handler it selects is not run. The result is a `Dispatch` value that names the handler, or the custom path, together with the arguments it would receive.
- Post.Timer.Stop: time.Time and time.Duration are modelled as unbounded integers. Monotonic-clock readings and the saturation and overflow of int64 nanosecond durations are not modelled.
- Post.Timer.Start: the clock is read only when the label is not already running. The model passes `now` in every time.
