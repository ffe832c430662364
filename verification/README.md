# Merge-conflict analysis driver: change registry, class path and mode selection

This project models the driver of the semantic merge-conflict analysis
(`br.unb.cic.analysis.Main`), whose pure logic is what decides what the
analyses see:

- **The change registry.** The change list has rows `(className, lineNumber,
  type)`. It is folded into two definitions maps, `sourceDefs` and `sinkDefs`,
  each mapping a class name to its changed lines, together with the set of
  target classes. A SOURCE change goes to `sourceDefs` and any other change to
  `sinkDefs`. Each step appends to the class's list, or creates the singleton
  list when the class is new. The diff-extractor route builds the same shape
  from two ready-split entry lists.
- **Class-path expansion.** A class path that names a directory is extended by
  `":" + absolutePath` for every file in it whose name ends in `.jar`.
- **Mode selection.** The analysis mode defaults to `"dataflow"`. Only
  `"dataflow"` and `"reachability"` are accepted; any other name is an
  invalid-mode error. The change list comes from git when both `-repo` and
  `-commit` are given, and from the `-csv` file otherwise.

Modules:

- `Wrappers`: `Option` and `Result`.
- `Changes`: the change records and their split by kind.
- `Registry`: one definitions map, with `Size`, the total number of stored
  lines.
- `Definition`: the registry pair and both construction routes.
- `ClassPath`: class-path expansion.
- `Modes`: mode selection and the driver's plan.

The file system is replaced by a `PathStatus` value. This is the path's status
(missing, not a directory, or a directory with its listing of
`(name, absolutePath)` entries). The CSV reader and the git diff extractor are
replaced by the lists they return, which are taken as inputs.

`loadDefinition` performs no check for a (class, line) tagged with both kinds:
the pair is recorded in both maps, and `OverlapIsAccepted` states this.

The help text of the `-mode` option lists `data-flow`, but `runAnalysis` only
matches `dataflow`. So the documented spelling is rejected as an invalid mode,
which `DocumentedSpellingRejected` states. The model keeps the accepted value
`dataflow`, because it cannot tell whether the help text or the switch is the
intended one.

## Model

| member | source | states |
|---|---|---|
| Registry.AddChange | src/main/java/br/unb/cic/analysis/Main.java:214-223 | a class already present gets the line appended at the end of its list; an absent class gets the singleton list; the key set grows by that class only and every other class keeps its list |
| Registry.AddChangeFromDiffAnalysis | src/main/java/br/unb/cic/analysis/Main.java:253-262 | the same append-or-create rule for a diff entry `(key, value)`, leaving every other class unchanged |
| Registry.AddLineSize | src/main/java/br/unb/cic/analysis/Main.java:214-223 | each append-or-create step stores exactly one more line entry in the map |
| Registry.Group | src/main/java/br/unb/cic/analysis/Main.java:231-238 | folding entries with the append-or-create rule yields a map whose keys are exactly the classes of the entries, each mapped to its own lines in input order with duplicates kept (checked against an independent per-class filter) |
| Registry.GroupSize | src/main/java/br/unb/cic/analysis/Main.java:231-238 | grouping loses and invents no entry: the map holds as many lines as there were entries |
| Registry.GroupMembership | src/main/java/br/unb/cic/analysis/Main.java:253-262 | a line is listed under a class if and only if that (class, line) entry occurs in the input |
| Changes.SplitByKindCount | src/main/java/br/unb/cic/analysis/Main.java:192-198 | the SOURCE / not-SOURCE split of the change list partitions it: the two parts together have as many entries as there are changes |
| Changes.SplitByKindClasses | src/main/java/br/unb/cic/analysis/Main.java:192-199 | the classes of the two parts together are exactly the classes of the change list |
| Changes.SourceEntriesMembership | src/main/java/br/unb/cic/analysis/Main.java:193-194 | an entry is routed to the SOURCE side if and only if some SOURCE change carries it |
| Changes.SinkEntriesMembership | src/main/java/br/unb/cic/analysis/Main.java:196-197 | an entry is routed to the SINK side if and only if some change that is not SOURCE carries it |
| Definition.Step | src/main/java/br/unb/cic/analysis/Main.java:193-199 | one loop iteration leaves the map of the other kind untouched, adds the class to the targets, and in the map of the change's kind sets its class's list to the earlier lines followed by the new line (a singleton for a new class), changing no other class |
| Definition.StepAddsOneEntry | src/main/java/br/unb/cic/analysis/Main.java:192-198 | one loop iteration stores exactly one more line, in the map of the change's kind |
| Definition.Load | src/main/java/br/unb/cic/analysis/Main.java:186-200 | the registry built from a change list has `sourceDefs` equal to the grouping of the SOURCE changes, `sinkDefs` equal to the grouping of all other changes, and target classes equal to the classes of all changes |
| Definition.LoadDefinition | src/main/java/br/unb/cic/analysis/Main.java:186-200 | the loop over the changes, started from empty maps and an empty set, ends with that same grouping by kind and the full set of class names |
| Definition.LoadRoutesByKind | src/main/java/br/unb/cic/analysis/Main.java:192-198 | a (class, line) is in `sourceDefs` if and only if a SOURCE change carries it, and in `sinkDefs` if and only if a change of another kind carries it |
| Definition.LoadCount | src/main/java/br/unb/cic/analysis/Main.java:186-200 | the total number of line entries across both maps equals the number of input changes |
| Definition.LoadTargetsAreDefinedClasses | src/main/java/br/unb/cic/analysis/Main.java:191-199 | the target classes are exactly the classes that have a line in either map, whatever their kind |
| Definition.LoadKeepsOrder | src/main/java/br/unb/cic/analysis/Main.java:214-222 | one more change appends its line after the lines its class already had in the map of its kind, or starts a singleton list |
| Definition.OverlapIsAccepted | src/main/java/br/unb/cic/analysis/Main.java:192-198 | a (class, line) given once as SOURCE and once as SINK is not rejected and appears in both maps |
| Definition.DuplicatesKept | src/main/java/br/unb/cic/analysis/Main.java:214-216 | a change repeated twice leaves its line twice in its class's list |
| Definition.SourceThenSinkOfOneClass | src/main/java/br/unb/cic/analysis/Main.java:186-200 | one SOURCE and one SINK line of the same class give two singleton maps for that class and that class as the only target |
| Definition.ZeroConflictTestRegistry | src/test/java/br/unb/cic/analysis/df/DataFlowAnalysisZeroConflictTest.java:25-43 | a change list with SOURCE line 19 and SINK line 26 of the sample class loads to exactly the test's registry |
| Definition.LoadDefinitionFromDiffAnalysis | src/main/java/br/unb/cic/analysis/Main.java:225-238 | both entry lists are grouped by class, in order, into their own maps with one stored line per entry, and the targets are the union of the classes of both lists, equal to the union of the two key sets |
| ClassPath.Expand | src/main/java/br/unb/cic/analysis/Main.java:69-81 | the expanded class path starts with the given path and equals it unless the path is a directory |
| ClassPath.ParseClassPath | src/main/java/br/unb/cic/analysis/Main.java:69-81 | the result starts with the given class path; it is exactly that path unless the path is a directory; for a directory it is the path followed by `":" + absolutePath` of each `.jar` entry in listing order |
| ClassPath.JarEntryAppends | src/main/java/br/unb/cic/analysis/Main.java:73-77 | a listed jar adds exactly `":"` and its absolute path at the end of the expansion |
| ClassPath.NonJarAddsNothing | src/main/java/br/unb/cic/analysis/Main.java:74 | a listed file whose name does not end in `.jar` adds nothing |
| ClassPath.SeparatorsCountJars | src/main/java/br/unb/cic/analysis/Main.java:75-76 | when no jar path contains `:`, the expansion contains exactly one separator per jar |
| ClassPath.ExpandsOnlyJars | src/main/java/br/unb/cic/analysis/Main.java:72-78 | a directory holding `a.jar` and `notes.txt` expands to `":/lib/a.jar"` only |
| Modes.Dispatch | src/main/java/br/unb/cic/analysis/Main.java:139-150 | a mode name is accepted if and only if it is the name of a mode, and then selects the mode with that name; any other name is an invalid-mode error carrying it |
| Modes.SelectMode | src/main/java/br/unb/cic/analysis/Main.java:41-45 | without a mode option the data-flow analysis is selected; with one, the run is accepted exactly when the option names a mode, and then that mode |
| Modes.DispatchRoundTrip | src/main/java/br/unb/cic/analysis/Main.java:140-142 | each mode's name dispatches back to that mode |
| Modes.ModeNamesDistinct | src/main/java/br/unb/cic/analysis/Main.java:140-142 | distinct modes have distinct names, so data flow and reachability each reach their own analysis |
| Modes.DocumentedSpellingRejected | src/main/java/br/unb/cic/analysis/Main.java:140-148 | `data-flow`, the spelling in the option's help text, is an invalid mode |
| Modes.PlanRun | src/main/java/br/unb/cic/analysis/Main.java:41-54 | the change list comes from git exactly when both repo and commit are given, and from the csv option otherwise; the run fails exactly when the mode selection fails; the analysis gets the `-cp` value expanded as by parseClassPath, which starts with that value and equals it unless it names a directory |
| Modes.PlanExpandsClassPath | src/main/java/br/unb/cic/analysis/Main.java:54 | with `-cp /lib`, a directory holding `a.jar` and `notes.txt`, and no other option, the plan is the data-flow analysis over the csv input with class path `/lib:/lib/a.jar` |

## Left out

- Running the analyses (`runDataFlowAnalysis`, `runReachabilityAnalysis`, Main.java:152-183) is not modelled. They register transformers with the Soot framework and run it. The model stops at the selected `Mode`.
- `DataFlowAnalysis`, `ReachabilityAnalysis` and `Collector` are not part of this model. The intraprocedural fixed point, the call-graph reachability and conflict collection live there.
- Reading the change list (`DefaultReader`) and extracting the diff (`DiffClass`) are external I/O. Their results are inputs: a `seq<ClassChange>`, and two `seq<Entry>`.
- `exportResults`, `createOptions`, option parsing with commons-cli, `HelpFormatter`, printing, `System.exit` and the exception handlers in `main` are process and console plumbing. An invalid mode is a `Failure` value instead of an exit.
- In `main` the definition is loaded before `runAnalysis` rejects a bad mode. `PlanRun` only reports the rejection, because loading is I/O.
- `File.listFiles` returning null on an I/O error is not modelled. A directory always has a listing.
- `Statement.Type` is not part of this model. `ChangeType` has the two kinds SOURCE and SINK; the routing test is "is SOURCE", so every other kind goes to the sink map.
- Java `Integer` line numbers are unbounded `int`s. No arithmetic is done on them. Null line numbers and null class names are not modelled.
- Joining the target classes with spaces for Soot's command line is part of the Soot invocation and is left out.
- The anonymous `AbstractMergeConflictDefinition` subclasses only return the two maps. They are represented by the `ChangeRegistry` pair of maps.
