# Mirror driver and image-set-configuration generator, in Dafny

This project models the two sequential cores of the IBM Maximo Application
Suite mirroring scripts and proves properties of them.

- **scripts/mirror-images.py**
  - `MirrorResult.success`.
  - `strip_log_prefix`.
  - The per-line processing of the tool's output, in both forms: the selector
    loop of `_process_streams` and the older per-pipe `stream_output`.
  - How `mirror_package` derives the version, the configuration path and the
    `oc-mirror` command for each mode, and how the exit code and the captured
    result line become the final result.
  - The failure result of `run_command`.
- **scripts/convert.py**
  - `generate_isc`: the output path, the row filter, the image names, the sort,
    and writing only when there is something to write.
  - The job order of `generate_iscs` and `generate_db2_iscs`.

The modules follow the scripts:

| Module | File | Contents |
|---|---|---|
| `Text` | text.dfy | Python's `isspace`, `rstrip`, `str.split` on one character, `str.find`. |
| `Versions` | versions.dfy | `major.minor`, the file version, and the `packages/...yaml` path that both scripts use. |
| `LogLines` | log_lines.dfy | The per-line classifiers. Each regular expression is written as a scanner and proved equal to a declarative description of what it matches. |
| `StreamDrain` | stream_drain.dfy | The drain as a fold (`Drain`, `Output`), its properties, and the class `StreamProcessor` that runs it in place. |
| `Mirror` | mirror.dfy | `MirrorResult`, the command for each mode, the outcome, `run_command` and `mirror_package`. |
| `LexOrder` | lex_order.dfy | Python's `str` ordering and a sort by it, proved to give the unique sorted permutation. |
| `Isc` | isc.dfy | `generate_isc` as a function on the file state. The class `Generator` runs it and the two job loops in place. |

### How the drain is modelled

The selector loop's interleaving is an input: the sequence of `readline()`
results the loop performs, each tagged with its stream. An empty read is end
of stream.

- `DrainState` holds everything the loop changes:
  - the two captured numbers (`result_data`);
  - the number of progress-bar calls;
  - the two log sinks;
  - the set of open streams.
- Stdout lines are logged at debug level and stderr lines at error level.
  Each level is one sink.

### How the file state is modelled

The file state of convert.py is a value `Files`:

- the configurations already on disk, by path;
- the downloaded image lists, by path.

A fixed map `remote` says what a download of each image list would fetch.

### Result lines need blanks around the slash

The result pattern (scripts/mirror-images.py:115-116, 191) is
`(\d+)\s+/\s+(\d+)\s+additional images mirrored successfully`. The `\s+`
on each side of the slash needs at least one blank there, so
`3/10 additional images mirrored successfully` captures nothing.
`FindResultUnspaced` proves this.

## Model

| member | source | states |
|---|---|---|
| Text.RStrip | scripts/mirror-images.py:188 | The result is a prefix of the line, everything removed is whitespace, and the result does not end in whitespace. |
| Text.IndexOf | scripts/mirror-images.py:57 | The first occurrence of the separator at or after `from`, or `None` when it occurs nowhere from there. |
| Text.Split | scripts/mirror-images.py:271 | At least one part, no part contains the separator, and joining the parts with it gives back the string. |
| Text.SplitUnique | scripts/mirror-images.py:271 | Any separator-free cutting of the string whose join is the string is the result of `Split`. |
| Text.SplitSingleIff | scripts/mirror-images.py:274 | The split has a single part exactly when the separator does not occur. |
| Text.SplitAtFirst | scripts/convert.py:73 | Splitting `x + sep + y` with `sep` not in `x` gives `x` followed by the parts of `y`. |
| Versions.MajorMinor | scripts/mirror-images.py:271-278 | `None` (the "invalid version" branch) exactly when the version has no `.`. |
| Versions.MajorMinorOf | scripts/convert.py:69-70 | A version `a.b` or `a.b.rest` has major.minor `a.b`, whatever `rest` holds. |
| Versions.ConfigPath | scripts/mirror-images.py:280 | `packages/{package}/{major_minor}/{arch}/{package}-{version}-{arch}.yaml`. `MirrorPackage` runs the tool on it, and `OutputPathIsMirrorConfig` shows convert.py writes the same path. |
| Versions.FileVersion | scripts/convert.py:73 | The version up to its first `+`: a prefix without `+`, followed in the version by a `+` when shorter, and equal to the version exactly when it has no `+`. |
| LogLines.TimestampAtIff | scripts/mirror-images.py:54 | The greedy timestamp scanner accepts at `k` exactly when `\d{4}/\d{2}/\d{2}\s+\d{2}:\d{2}:\d{2}` matches there for some end of the blank run. |
| LogLines.TimestampFromIff | scripts/mirror-images.py:54 | The lazy `.*?` scan from `k` succeeds exactly when a timestamp starts at or after `k` with no newline before it. |
| LogLines.HasTimestampIff | scripts/mirror-images.py:54 | `re.match(r'^.*?<timestamp>', line)` succeeds exactly when a timestamp starts on the first line of `line`. |
| LogLines.StripLogPrefix | scripts/mirror-images.py:39-61 | `strip_log_prefix`. Its contract is `StripLogPrefixSpec`, `StripLogPrefixChanges` and `StripLogPrefixShape`: the text after the first `": "` when the line has a timestamp and a `[` before that separator, and the line unchanged otherwise. |
| LogLines.StripLogPrefixSpec | scripts/mirror-images.py:54-61 | The output is never longer than the line. It is the text after the first `": "` when the line has a timestamp and `[` occurs before that `": "`, and it is the line itself otherwise. |
| LogLines.StripLogPrefixChanges | scripts/mirror-images.py:54-61 | The line changes exactly when it has a timestamp, a `": "`, and a `[` before the first `": "`. |
| LogLines.StripLogPrefixShape | scripts/mirror-images.py:57-59 | When stripped, the line is `prefix + ": " + result` with no `": "` inside `prefix`. |
| LogLines.ScanResultSound | scripts/mirror-images.py:191 | Whatever the result scanner reports at `i` is a match of `(\d+)\s+/\s+(\d+)\s+additional images mirrored successfully` at `i`, with group 1 as `mirrored` and group 2 as `images`. |
| LogLines.ScanResultComplete | scripts/mirror-images.py:191 | Every match of that expression at `i` is found by the scanner, with the same two numbers. |
| LogLines.ResultSearchSpec | scripts/mirror-images.py:191 | The search returns the leftmost position where the expression matches, or `None` when it matches nowhere. |
| LogLines.FindResult | scripts/mirror-images.py:191-194 | `re.search` of the result pattern. `ResultFromLeftmost`, `ResultSearchSpec`, `ScanResultSound` and `ScanResultComplete` show it gives the numbers of the leftmost regex match, and `None` exactly when there is no match. |
| LogLines.ResultFromLeftmost | scripts/mirror-images.py:191-194 | `re.search` reports the numbers of the leftmost match. |
| LogLines.FindResultSpaced | scripts/mirror-images.py:116-119 | `48 / 50 additional images mirrored successfully` yields mirrored 48 and images 50. |
| LogLines.FindResultUnspaced | scripts/mirror-images.py:191 | `3/10 additional images mirrored successfully` is not a result line. |
| LogLines.ArrowFromIff | scripts/mirror-images.py:198 | The arrow scan from `j` succeeds exactly when ` ➡️` occurs at or after `j` with no newline before it. |
| LogLines.CopyAtIff | scripts/mirror-images.py:198 | The copy scanner accepts at `i` exactly when `Success copying .+ ➡️` matches from `i`. |
| LogLines.CopySearchIff | scripts/mirror-images.py:198 | Searching from `i` succeeds exactly when some match starts at or after `i`. |
| LogLines.IsImageCopied | scripts/mirror-images.py:198 | `re.search(r'Success copying .+ ➡️', line)`. `IsImageCopiedIff` shows it holds exactly when the pattern matches somewhere. |
| LogLines.IsImageCopiedIff | scripts/mirror-images.py:198-199 | A line counts as a copy line exactly when `re.search` of the copy pattern finds a match. |
| LogLines.IsNoiseIgnoreCase | scripts/mirror-images.py:154 | The noise test of `_process_streams`. `NoiseFromIff` shows it holds exactly when some phrase occurs in the line, ignoring case. |
| LogLines.NoiseFromIff | scripts/mirror-images.py:154 | The case-insensitive alternation of the three noise phrases finds a match from `k` exactly when one phrase occurs at or after `k`, ignoring case. |
| LogLines.IsNoise | scripts/mirror-images.py:126 | The noise test of `stream_output`: some phrase, lower-cased, is in the lower-cased line. `NoiseFormsAgree` shows it drops the same lines as `IsNoiseIgnoreCase`. |
| LogLines.LowerContainsIff | scripts/mirror-images.py:126 | Lower-casing both sides and testing `in` is a case-insensitive substring test. |
| LogLines.NoiseFormsAgree | scripts/mirror-images.py:126 | Under ASCII case folding, the lower-casing test of `stream_output` and the compiled regular expression of `_process_streams` drop the same lines. |
| StreamDrain.DeliveredPerStream | scripts/mirror-images.py:164-186 | Per stream, the loop processes exactly that stream's lines before its first empty read, in order, whatever the interleaving. |
| StreamDrain.LineStep | scripts/mirror-images.py:188-212 | One line: capture, tick, log unless noise. `LineStepSink`, `LineStepTicks`, `LineStepOpen` and `LineStepResult` state its effect on each part of the state. |
| StreamDrain.Step | scripts/mirror-images.py:168-186 | One read: ignored on a closed stream, closes the stream when empty, and is a `LineStep` otherwise. `StepSink` and `DrainOpen` state its effect. |
| StreamDrain.Drain | scripts/mirror-images.py:164-212 | The selector loop. `DrainSink`, `DrainTicks`, `DrainResult`, `DrainOpen` and `DrainFromStart` state what it computes. |
| StreamDrain.LineStepSink | scripts/mirror-images.py:203-212 | One line appends its logged form to its own stream's sink and nothing to the other sink. |
| StreamDrain.LineStepTicks | scripts/mirror-images.py:197-201 | One line advances the bar once when it is a copy line and there is a bar, and never otherwise. This holds for noise lines too. |
| StreamDrain.LineStepOpen | scripts/mirror-images.py:188-212 | A non-empty line never closes a stream. |
| StreamDrain.LineStepResult | scripts/mirror-images.py:190-195 | A result line overwrites both captured numbers, and any other line leaves them. |
| StreamDrain.DrainSink | scripts/mirror-images.py:164-212 | Each sink receives the logged form of exactly the delivered lines of its own stream, in order. |
| StreamDrain.StepSink | scripts/mirror-images.py:168-212 | One read moves its logged line, if any, from the lines still to be delivered to the sink. |
| StreamDrain.DrainTicks | scripts/mirror-images.py:164-201 | The bar is called once per delivered copy line, on either stream, noise or not, and never without a bar. |
| StreamDrain.DrainResult | scripts/mirror-images.py:164-195 | The captured numbers are those of the last delivered result line, from either stream. Without one they are unchanged. |
| StreamDrain.DrainOpen | scripts/mirror-images.py:180-186 | A stream leaves the open set exactly when one of its reads is empty, so the loop ends once both streams reach end of stream. |
| StreamDrain.LogOfAppend | scripts/mirror-images.py:206-212 | The sink of a concatenation of lines is the concatenation of the sinks. |
| StreamDrain.LogOfCount | scripts/mirror-images.py:206-207 | Every line is logged or counted as noise: no line is lost or duplicated. |
| StreamDrain.CopiesAppend | scripts/mirror-images.py:198-200 | Copy lines are counted additively over a concatenation. |
| StreamDrain.LastResultAppend | scripts/mirror-images.py:191-194 | Later result lines overwrite earlier ones. |
| StreamDrain.UntilEofPrefix | scripts/mirror-images.py:110 | The lines before the first empty read are the ones `iter(pipe.readline, '')` yields. |
| StreamDrain.Output | scripts/mirror-images.py:110-127 | `stream_output` over one pipe's lines. `OutputSink`, `OutputTicksOpen`, `OutputResult` and `DrainAgreesWithOutput` state what it computes. |
| StreamDrain.OutputSink | scripts/mirror-images.py:110-127 | `stream_output` logs its pipe's lines, noise dropped and prefix stripped, in order, to the sink standing for its `log_func`, and nothing to the other sink. |
| StreamDrain.OutputTicksOpen | scripts/mirror-images.py:110-127 | `stream_output` never advances a bar and never closes a stream. |
| StreamDrain.OutputResult | scripts/mirror-images.py:114-120 | The numbers `stream_output` captures are those of its last result line. |
| StreamDrain.DrainFromStart | scripts/mirror-images.py:161-212 | From the initial state, each sink holds the logged lines its stream produced before its end. |
| StreamDrain.DrainAgreesWithOutput | scripts/mirror-images.py:110-127 | On the same lines of a stream, the selector loop and `stream_output` fill that stream's sink identically, when `log_func` is the stream's own sink. |
| StreamDrain.StreamProcessor.constructor | scripts/mirror-images.py:161-162 | Nothing captured, no bar calls, empty sinks, and both streams open. |
| StreamDrain.StreamProcessor.ProcessLine | scripts/mirror-images.py:188-212 | The new state is one `LineStep` of the old one: capture, then tick, then log unless noise. |
| StreamDrain.StreamProcessor.ProcessStreams | scripts/mirror-images.py:164-186 | The new state is `Drain` of the old state over the reads, so every drain lemma holds of it. |
| StreamDrain.StreamProcessor.OutputLine | scripts/mirror-images.py:111-127 | The older loop body, with its lower-casing noise test, takes the same step as the selector loop without a bar. |
| StreamDrain.StreamProcessor.StreamOutput | scripts/mirror-images.py:110-128 | The new state is `Output` over the lines before the first empty read. |
| StreamDrain.StreamProcessor.OutputNext | scripts/mirror-images.py:110-127 | One more line extends the fold by that line. |
| Mirror.MirrorResult.Success | scripts/mirror-images.py:28-36 | `MirrorResult.success`. `SuccessCases` states when it holds. |
| Mirror.SuccessCases | scripts/mirror-images.py:28-36 | `success` holds exactly when `images > 0` and `mirrored == images`. An over-count, an under-count or zero images gives false. |
| Mirror.BuildCommand | scripts/mirror-images.py:301-321 | A command exists exactly for `m2m`, `m2d` and `d2m`. Each starts with the shared six arguments including the config path. It ends in `docker://<target>` exactly when the mode is not `m2d`. All three commands are spelled out in full: `m2m` adds `--workspace file://workspace/<package>/<arch>/<version>`, `m2d` adds `file://output-dir/<package>/<arch>/<version>`, and `d2m` adds `--from file://output-dir/<package>/<arch>/<version>`. |
| Mirror.CommandIdentifiesMode | scripts/mirror-images.py:301-317 | Different modes never produce the same command. |
| Mirror.Outcome | scripts/mirror-images.py:331-353 | A non-zero exit gives (0, 0). A zero exit with both numbers gives exactly the captured pair. A missing number gives (0, 0). |
| Mirror.OutcomeSuccessIff | scripts/mirror-images.py:331-349 | The result is a success exactly when the exit code is 0 and a complete, non-empty result line was captured. |
| Mirror.RunCommand | scripts/mirror-images.py:217-254 | A launch failure gives exit code 1 with nothing captured. Otherwise it gives the tool's exit code, the numbers of the last result line and one bar call per copy line. |
| Mirror.MirrorPackage | scripts/mirror-images.py:257-353 | The tool runs exactly when the version has a `.`, mirroring is enabled, the configuration lists images and the mode is known. It then runs the mode's command on the `packages/...yaml` path. Every other path, and every failed or non-zero run, gives (0, 0). Otherwise the result is the last captured result line. |
| LexOrder.LexLeqReflexive | scripts/convert.py:140 | Python's string `<=` is reflexive. |
| LexOrder.LexLeqTotal | scripts/convert.py:140 | Any two strings are comparable. |
| LexOrder.LexLeqAntisymmetric | scripts/convert.py:140 | Strings that are each `<=` the other are equal. |
| LexOrder.LexLeqTransitive | scripts/convert.py:140 | `<=` is transitive. |
| LexOrder.Insert | scripts/convert.py:140 | Inserting into a sorted list gives a sorted list with one more copy of the element. |
| LexOrder.Sort | scripts/convert.py:140 | The result is sorted by name and is a permutation of the input. |
| LexOrder.SortedPermutationUnique | scripts/convert.py:140 | Two sorted permutations of the same names are equal, so any correct sort gives `Sort`'s result. |
| Isc.EffectiveCaseName | scripts/convert.py:76-80 | The case name of the output path. `ChildOverridesVariant` and `Db2PathsDistinct` state its cases. |
| Isc.ChildOverridesVariant | scripts/convert.py:76-80 | With a child name the case name is `case-child`, whatever the db2 variant. |
| Isc.OutputPath | scripts/convert.py:69-81 | There is an output path exactly when the version has a `.`; otherwise the script fails on `version_parts[1]`. |
| Isc.OutputPathIsMirrorConfig | scripts/convert.py:81 | For a plain case and a version without `+`, the output path is the configuration path mirror-images.py reads. |
| Isc.Db2PathsDistinct | scripts/convert.py:76-81 | The s11 and s12 runs of a job never share an output path. |
| Isc.TagExcluded | scripts/convert.py:119-128 | The db2 variant filter: s11 drops the `s12.`, `12.` and `standalone-12.` tags, s12 drops the 11 ones, and any other variant drops nothing. `VariantsCoverEveryTag` states that no tag is dropped by both. |
| Isc.Keep | scripts/convert.py:119-135 | The row filter: variant, architecture (empty counts as amd64) and groups. `Collect` and `CollectIsKeptNames` state that exactly the kept rows are listed. |
| Isc.ImageName | scripts/convert.py:130-132 | `{registry}/{name}:{tag}@{digest}`. `CollectIsKeptNames` states that each kept row lists this name once. |
| Isc.VariantsCoverEveryTag | scripts/convert.py:119-128 | No tag is dropped by both db2 variants. |
| Isc.Collect | scripts/convert.py:109-136 | `None` (the script fails on `row[11]`) exactly when some data row has fewer than twelve fields. Otherwise a name is listed exactly when some kept row has it as `registry/name:tag@digest`. |
| Isc.CollectCount | scripts/convert.py:130-136 | As many entries as kept rows. |
| Isc.KeptNames | scripts/convert.py:109-136 | The reference list: filter the rows, then map each kept row to its name. `CollectIsKeptNames` states that the row loop computes it. |
| Isc.CollectIsKeptNames | scripts/convert.py:109-136 | On well-formed rows the collected list is exactly `KeptNames`: each kept row adds one copy of its own name, in row order, and no other entry appears. |
| Isc.KeptNamesSnoc | scripts/convert.py:136 | One more row appends its name exactly when it is kept. |
| Isc.CollectImages | scripts/convert.py:109-136 | The row loop, with its `continue`, computes `Collect`. |
| Isc.Generate | scripts/convert.py:65-145 | `generate_isc` on the file state. `GenerateFrame`, `GenerateWritten` and `GenerateSkips` state its effect, and `Generator.GenerateIsc` runs it in place. |
| Isc.GenerateFrame | scripts/convert.py:87-145 | An existing configuration is never touched. A new one appears only at the job's output path and only when written. The image list is downloaded only when missing. |
| Isc.GenerateWritten | scripts/convert.py:138-145 | A configuration is written exactly when its path is free, the image list is available with a header and well-formed rows, and at least one row is kept. It then lists the kept names sorted, as a permutation of `KeptNames`: one copy per kept row. |
| Isc.GenerateSkips | scripts/convert.py:87-89 | An existing output path skips the job before anything is downloaded. |
| Isc.RunJobs | scripts/convert.py:59-62 | A run of jobs yields at most one outcome per job. |
| Isc.RunJobsStopsAtAbort | scripts/convert.py:99-101 | Jobs run until the first one that ends the script. Every earlier one completed, and fewer outcomes than jobs means the last one ended the run. |
| Isc.RunJobsKeepsOutputs | scripts/convert.py:87-89 | A run never overwrites a configuration that existed before it. |
| Isc.ArchJobs | scripts/convert.py:61-62 | One job per architecture, in order, for one version. |
| Isc.IscJobs | scripts/convert.py:59-62 | The jobs of `generate_iscs`. `IscJobsLength` and `IscJobsOrder` state their number and order. |
| Isc.IscJobsLength | scripts/convert.py:59-62 | `generate_iscs` runs one job per (version, architecture) pair. |
| Isc.IscJobsOrder | scripts/convert.py:59-62 | With `n` architectures, job `i * n + j` is version `i` on architecture `j`: versions outside, architectures inside. |
| Isc.Pairs | scripts/convert.py:150-155 | Two jobs for each job. |
| Isc.Db2Jobs | scripts/convert.py:148-155 | The jobs of `generate_db2_iscs`. `PairsAt` with `IscJobsOrder` states that jobs `2k` and `2k + 1` are the s11 and s12 runs of the `k`-th (version, architecture) pair. |
| Isc.PairsAt | scripts/convert.py:152-155 | Jobs `2k` and `2k + 1` are the s11 and s12 runs of job `k`. |
| Isc.Generator.constructor | scripts/convert.py:87-91 | The generator starts from the given configurations, image lists and download results. |
| Isc.Generator.GenerateIsc | scripts/convert.py:65-145 | The outcome and the new file state are those of `Generate` on the old state. |
| Isc.Generator.GenerateIscs | scripts/convert.py:59-62 | The outcomes and final file state are `RunJobs` over every (version, architecture) job in loop order. |
| Isc.Generator.RunArchs | scripts/convert.py:61-62 | The inner loop over architectures completes its part of the run, or stops with the run's final state when a job ends the script. |
| Isc.Generator.GenerateDb2Iscs | scripts/convert.py:148-155 | The outcomes and final file state are `RunJobs` over every db2 (version, architecture) job, s11 then s12. |
| Isc.Generator.RunDb2Archs | scripts/convert.py:151-155 | The inner loop of `generate_db2_iscs`: s11 then s12 for each architecture, stopping when a job ends the script. |

## Left out

- Process spawning, the `selectors` polling with its 0.1 s timeout and pipe
  lifetimes are left out. They are operating-system I/O and concurrency.
  The interleaving of reads is an input sequence.
- The early return when a pipe is missing (scripts/mirror-images.py:144-145)
  is left out. `Popen` with `PIPE` always provides both pipes.
- The unreachable `stream is None` branch is left out.
- Mirror.RunCommand: an exception raised after launch (for example a decoding
  error) is not modelled. Only a launch failure gives exit code 1 with nothing
  captured.
- The driver's own log messages are not in the modelled sinks, because they
  are diagnostics rather than tool output:
  - "Executing", "Captured result", "Progress bar incremented" and the error
    reports;
  - `alive_bar` rendering, bar titles and `print` output.
- `count_images_in_config` is left out. YAML parsing is a library call; its
  count is the parameter `totalImages` of `MirrorPackage`.
- `getCatalog`, `argparse` and the `__main__` wiring of both scripts are left
  out, as is the hard-coded list of versions. They are plumbing and data.
- CSV reading is left out. An image list is a sequence of rows, each a
  sequence of fields.
- YAML writing and `os.makedirs` are left out. A written configuration is an
  `ImageSetConfig` value at its path.
- Isc.CsvPath: `os.path.expanduser` is not applied; the path keeps its leading
  `~`.
- The `oc ibm-pak get` download (scripts/convert.py:23-56, 91-101) is the map
  `remote`. A path missing from it is a download that failed, or one that left
  no file behind. Either way the script ends, by `sys.exit(1)` or by the
  failing `open`.
- Isc.Generator.GenerateIsc: the in-place `list.sort` is modelled by the
  function `Sort`. `SortedPermutationUnique` shows that every correct sort
  gives the same list. The configuration stores the image names rather than
  the dictionaries holding them.
- Text.IsDigit: `\d` is taken as the ASCII digits. Python also accepts other
  Unicode decimal digits.
- Text.Lower: `str.lower()` and `re.IGNORECASE` are taken as ASCII
  lower-casing. The noise phrases are ASCII, but non-ASCII case folding of the
  line is not modelled.
- LogLines.NoiseFormsAgree: the two noise tests agree only under ASCII case
  folding. Python's `re.IGNORECASE` also folds `ı` (U+0131) onto `i` and `ſ`
  (U+017F) onto `s`, and `.lower()` does not. A line such as
  `Hello, welcome to oc-mırror` is therefore dropped by `_process_streams`
  but logged by `stream_output`, and the model does not capture that.
- StreamDrain.OutputSink: `stream_output` writes to its `log_func` parameter.
  The model takes that to be the stream's own sink (the debug sink for
  stdout). The docstring names `logger.info`, which is not the level the
  selector loop uses for stdout.
- StreamDrain.DrainAgreesWithOutput: holds under the same reading of
  `log_func`, as the stream's own sink.
