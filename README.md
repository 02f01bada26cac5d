# Vagrant step of topgrade, modelled in Dafny

This project models the Vagrant step of topgrade (`src/steps/remote/vagrant.rs`).
The step does three things with the external `vagrant` tool:

- It finds the boxes of every configured directory by parsing `vagrant status` (`collect_boxes`, `Vagrant::get_boxes`).
- It runs the upgrade tool inside one box over `vagrant ssh -c` (`topgrade_vagrant_box`). A box that is not running is powered up for the run and put back afterwards by a guard (`TemporaryPowerOn` and its `Drop`).
- It updates every outdated base box and prunes old versions (`upgrade_vagrant_boxes`). The outdated boxes are read from `vagrant box outdated --global` with the pattern `\* '(.*?)' for '(.*?)' is outdated`.

The tool itself is abstract. `Processes.Shell` records every invocation (argument list and working directory) in `trace`. The k-th invocation is answered by `reply(k)`, which says whether the run succeeded and what it printed. `installed` says whether `vagrant` is on the PATH.

Each entry point is a method on the shell. It is proved against a pure function of the inputs that gives its result and its invocations, in order (`BoxUpgrade.BoxRun`, `Fleet.Collection`, `Fleet.Reconciliation`). The lemmas about those functions carry the promises of the step:

- a restore is issued exactly once if and only if the power-up succeeded;
- a prune happens exactly once if and only if some box is outdated;
- parsing gives back exactly the boxes a status listing shows, however its columns are padded and whether its lines end in CRLF;
- reading an outdated report gives back exactly the entries it lists.

Modules, one per file:

- `wrappers.dfy`: the Option type.
- `boxes.dfy`: box status, box record, display name, power subcommands.
- `processes.dfy`: invocations, replies, errors, configuration, the shell.
- `text.dfy`: `str::split` and `str::split_whitespace`.
- `status_parser.dfy`: the `vagrant status` pipeline.
- `outdated_report.dfy`: the outdated-report pattern.
- `box_upgrade.dfy`: the per-box run and its guard.
- `fleet.dfy`: collection and reconciliation.

Two points of the status parsing are easy to get wrong:

- A listed line with fewer than two words or an unknown status keyword is not a per-directory error. The code `unwrap`s, so the program aborts. The model gives `Panic(line)`, which ends the collection at once, and the directories after it are not queried.
- The keyword match is case-sensitive. strum's `serialize_all = "lowercase"` without `ascii_case_insensitive` accepts only the four lower-case keywords, and `StatusFromStr` does the same.

## Model

| member | source | states |
|---|---|---|
| Boxes.StatusFromStr | src/steps/remote/vagrant.rs:17-24 | A word is a status exactly when it is one of the four lower-case keywords; the status found is the one spelled by that word, and any other word (other case included) is no status |
| Boxes.PoweredOn | src/steps/remote/vagrant.rs:27-29 | Only a running box counts as powered on |
| Boxes.Keyword | src/steps/remote/vagrant.rs:17-18 | Each status is spelled as a non-empty word of lower-case letters, its variant name in lower case; `StatusFromStr` is its inverse |
| Boxes.SmartName | src/steps/remote/vagrant.rs:40-46 | The display name is the box's own name unless that is "default", in which case it is the last component of the box's directory |
| Boxes.FileName | src/steps/remote/vagrant.rs:42 | `file_name()`: the final component of the directory, the one every other component comes before |
| Boxes.PowerUpSubcommand | src/steps/remote/vagrant.rs:111-115 | A box that is not running is brought up with `up` when off or aborted and `resume` exactly when saved, and the subcommand leaves it running |
| Boxes.RestoreSubcommand | src/steps/remote/vagrant.rs:132-140 | The restore is `halt` or `suspend`; with always-suspend it suspends every box; otherwise it puts the box back into the state it was found in (aborted comes back powered off); never running afterwards |
| Boxes.PowerUpThenRestore | src/steps/remote/vagrant.rs:111-140 | Powering up then restoring leaves a box running in between and not running after, in its original state when always-suspend is off and it was not aborted |
| Processes.PowerOnPolicy | src/steps/remote/vagrant.rs:187 | Boxes are powered on unless the setting is explicitly false |
| Processes.AlwaysSuspendPolicy | src/steps/remote/vagrant.rs:132 | Every box is suspended only when the setting is explicitly true |
| Processes.Checked | src/steps/remote/vagrant.rs:205-209 | `status_checked()`: the result is Ok exactly when the run succeeded, and otherwise the failure of that invocation |
| Processes.Shell.Execute | src/steps/remote/vagrant.rs:63-66 | Running `vagrant` appends the invocation to the trace and answers it with the reply for its position |
| Text.Split | src/steps/remote/vagrant.rs:71 | `split('\n')` always yields at least one piece |
| Text.SplitPieces | src/steps/remote/vagrant.rs:71 | No piece of `split` holds the separator, and joining the pieces with it gives back the text |
| Text.SplitJoin | src/steps/remote/vagrant.rs:71 | Splitting joined pieces that hold no separator gives back exactly those pieces |
| Text.WordLenIsMaximal | src/steps/remote/vagrant.rs:76 | The first word of a text is the longest prefix without whitespace: the next character, if any, is whitespace |
| Text.TokensAreWords | src/steps/remote/vagrant.rs:76 | `split_whitespace` yields non-empty words free of whitespace which, put together, are exactly the non-whitespace characters of the line, in order |
| Text.TokensAfterBlank | src/steps/remote/vagrant.rs:76 | Whitespace at the front of a line changes none of its words |
| Text.TokensOfLaid | src/steps/remote/vagrant.rs:76 | Words laid out with any whitespace in front, any non-empty whitespace runs between them and any whitespace after the last split back into exactly those words |
| Text.TokensLayout | src/steps/remote/vagrant.rs:76 | Every line is laid out as its words: some whitespace, then each word followed by whitespace, at least one character of it between two words; with the lemma above this fixes `split_whitespace` uniquely |
| Text.Tokens | src/steps/remote/vagrant.rs:76 | `split_whitespace`: the maximal runs of non-whitespace characters, in order (its properties are the lemmas above) |
| Text.IsWhitespace | src/steps/remote/vagrant.rs:76 | The characters `split_whitespace` splits on: the Unicode White_Space property, which includes the carriage return |
| StatusParser.SkipHeader | src/steps/remote/vagrant.rs:72 | The first two lines are dropped, and nothing is left when there are fewer |
| StatusParser.Listing | src/steps/remote/vagrant.rs:73 | The lines up to the first empty one or one starting with a carriage return (its properties are `ListingIsTakeWhile`) |
| StatusParser.ParseLine | src/steps/remote/vagrant.rs:76-85 | One listed line read as a box, or nothing when its words cannot be (its properties are `LineParsed`) |
| StatusParser.ParseLines | src/steps/remote/vagrant.rs:74-89 | The listed lines read in order, stopping at the first that cannot be (its properties are `LinesParsed`) |
| StatusParser.ParseStatusOutput | src/steps/remote/vagrant.rs:69-89 | The whole pipeline: split on line breaks, skip two lines, take the listing, read each line (its properties are `StatusParseShape` and `StatusRoundTrip`) |
| StatusParser.ListingIsTakeWhile | src/steps/remote/vagrant.rs:72-73 | The listing is a prefix of the lines after the header, none of its lines is empty or starts with a carriage return, and the line after it does |
| StatusParser.ListingStopsAtEmpty | src/steps/remote/vagrant.rs:73 | Lines that do not end the listing, followed by one that does, are exactly the listing |
| StatusParser.LineParsed | src/steps/remote/vagrant.rs:76-85 | A line gives a box exactly when it has two words and the second is a keyword; the box has the first word as its name, that status, and the directory |
| StatusParser.LinesParsed | src/steps/remote/vagrant.rs:74-89 | The lines parse exactly when every one does, giving one box per line in order; otherwise the reported line is the first that does not parse |
| StatusParser.StatusParseShape | src/steps/remote/vagrant.rs:69-89 | A successful parse yields one box per listed line in order, named by its first word, with the status its second word spells, in the directory; a failed one names a listed line that has fewer than two words or an unknown keyword |
| StatusParser.StatusRoundTrip | src/steps/remote/vagrant.rs:69-89 | A status output of two header lines, one line per box (columns padded with any whitespace other than a line break, a carriage return or other whitespace after the last word allowed), a line that ends the listing (empty, or a lone carriage return under CRLF) and any trailer parses back to exactly those boxes, in order |
| StatusParser.RowLine | src/steps/remote/vagrant.rs:73-79 | A printed box row is one line that does not end the listing, and its words are the name, the keyword and the further words |
| StatusParser.ParseRows | src/steps/remote/vagrant.rs:74-89 | Printed box rows parse back to their boxes, in order |
| Fleet.DirectoryBoxes | src/steps/remote/vagrant.rs:60-92 | A directory yields an error exactly when its status query fails, and that error names the query |
| Fleet.GetBoxes | src/steps/remote/vagrant.rs:60-92 | `get_boxes` issues one status query in the directory and returns what the parse of its reply gives |
| Fleet.ListedInDirectory | src/steps/remote/vagrant.rs:81-85 | Every box listed for a directory carries that directory |
| Fleet.Gather | src/steps/remote/vagrant.rs:165-176 | The boxes of the directories in order, failed queries left out, an abort at the first unreadable listing; never a per-directory error |
| Fleet.Collection | src/steps/remote/vagrant.rs:153-177 | What `collect_boxes` does: no directories, then no `vagrant`, are errors with no invocation; otherwise one status query per directory reached and the gathered boxes (its properties are the lemmas below) |
| Fleet.Combine | src/steps/remote/vagrant.rs:165-176 | Putting the directories' outcomes together never gives a per-directory error |
| Fleet.GatheredFromDirectories | src/steps/remote/vagrant.rs:165-176 | Every box collected comes from one of the configured directories |
| Fleet.CollectBoxes | src/steps/remote/vagrant.rs:153-177 | `collect_boxes` issues the status queries of `Collection` in directory order and returns its result |
| Fleet.GatherStep | src/steps/remote/vagrant.rs:167-174 | After one more directory the boxes so far are followed by its boxes, or unchanged when its query failed |
| Fleet.GatherAborts | src/steps/remote/vagrant.rs:167-174 | An unreadable listing after directories that all succeeded is the outcome of the whole collection, and no directory after it is queried |
| Fleet.CombineSnoc | src/steps/remote/vagrant.rs:169-172 | Appending an outcome appends its boxes, or leaves the result alone for a failed query |
| Fleet.CombineAppend | src/steps/remote/vagrant.rs:165-176 | The outcomes of consecutive groups of directories combine as the first group's boxes followed by the second's, unless the first aborts |
| Fleet.GatherAppend | src/steps/remote/vagrant.rs:165-176 | Collecting directories one group after another is the first group's result followed by the second's |
| Fleet.FailedDirectoryIsOmitted | src/steps/remote/vagrant.rs:172 | A directory whose status query fails is left out: the result is what the directories before and after it give |
| Fleet.AnsweredDirectoryIsIncluded | src/steps/remote/vagrant.rs:169-171 | A directory whose query succeeds contributes its boxes in place, between those of the directories before and after it |
| Fleet.CollectionFailsOnlyUpFront | src/steps/remote/vagrant.rs:154-160 | Collection fails exactly when no directories are configured or `vagrant` is missing, and then queries nothing; when it succeeds it has queried every directory |
| Fleet.NoAbortReachesAll | src/steps/remote/vagrant.rs:167-174 | Without an abort, every directory is queried |
| Fleet.Reconciliation | src/steps/remote/vagrant.rs:212-245 | What `upgrade_vagrant_boxes` does: no `vagrant` is an error; a failed outdated query is its error; otherwise one update per entry and, if there was any, a prune whose failure is the result (its properties are the lemmas below) |
| Fleet.UpgradeVagrantBoxes | src/steps/remote/vagrant.rs:212-245 | `upgrade_vagrant_boxes` issues the invocations of `Reconciliation` in order and returns its result |
| Fleet.CountUpdates | src/steps/remote/vagrant.rs:223-233 | One `box update` per entry and no prune among them |
| Fleet.PruneOnceIffOutdated | src/steps/remote/vagrant.rs:222-242 | One update per outdated entry; a prune exactly once, as the last invocation, if and only if some entry was found |
| Fleet.UpdateFailuresIgnored | src/steps/remote/vagrant.rs:225-232 | How the updates end changes nothing: same answers to the outdated query and the prune give the same reconciliation |
| Fleet.ReportDrivesReconciliation | src/steps/remote/vagrant.rs:216-242 | For a report, the invocations are the outdated query, one update per listed entry in report order, and a prune exactly when it lists any |
| BoxUpgrade.PowerUp | src/steps/remote/vagrant.rs:111-121 | The guard's power-up is a power-up invocation, not a restore and not the in-guest command |
| BoxUpgrade.Restore | src/steps/remote/vagrant.rs:132-149 | The guard's restore is a restore invocation, not a power-up and not the in-guest command |
| BoxUpgrade.InGuestCommand | src/steps/remote/vagrant.rs:200-203 | The in-guest command is exactly `env TOPGRADE_PREFIX=` and the display name, then ` topgrade`, then ` -y` if and only if the step says yes |
| BoxUpgrade.SshUpgrade | src/steps/remote/vagrant.rs:205-209 | The in-guest run is an `ssh` invocation, neither a power-up nor a restore |
| BoxUpgrade.PowerOnTemporarily | src/steps/remote/vagrant.rs:110-127 | Creating the guard issues the power-up; it exists exactly when that succeeded, and otherwise the error is the power-up's failure |
| BoxUpgrade.DropPowerOn | src/steps/remote/vagrant.rs:130-151 | Dropping the guard issues the restore and ignores its outcome |
| BoxUpgrade.BoxRun | src/steps/remote/vagrant.rs:179-210 | What `topgrade_vagrant_box` does on each path: no `vagrant`, a skipped box, a failed power-up, or the in-guest command with the power-up before it and the restore after it when the box was not running (its properties are the lemmas below) |
| BoxUpgrade.TopgradeVagrantBox | src/steps/remote/vagrant.rs:179-210 | `topgrade_vagrant_box` issues the invocations of `BoxRun` in order and returns its result |
| BoxUpgrade.RestoreExactlyOnceIffPoweredUp | src/steps/remote/vagrant.rs:185-209 | A power-up is issued once exactly when the guard is taken, and a restore once exactly when the power-up succeeded, never otherwise |
| BoxUpgrade.GuardedRunOrder | src/steps/remote/vagrant.rs:195-209 | After a successful power-up the run is power-up, in-guest command, restore, and its result is the in-guest command's, whatever the restore's reply |
| BoxUpgrade.PowerUpFailureStopsRun | src/steps/remote/vagrant.rs:195 | A failed power-up is the run's error, with no in-guest command and no restore |
| BoxUpgrade.PoweredOffBoxIsSkipped | src/steps/remote/vagrant.rs:186-192 | A box that is not running, with powering on disabled, is skipped and no invocation is issued |
| BoxUpgrade.RunningBoxOnlySsh | src/steps/remote/vagrant.rs:197-209 | A running box gets only the in-guest command, no power transition, and its result is that command's |
| BoxUpgrade.SshIffBoxUp | src/steps/remote/vagrant.rs:186-209 | The in-guest command is issued once exactly when the box is running or was powered up successfully |
| OutdatedReport.OutdatedPatternUsable | src/steps/remote/vagrant.rs:220 | The pattern's literal parts hold no line break, and its separator and tail open with a quote |
| OutdatedReport.LazyUntil | src/steps/remote/vagrant.rs:220 | A lazy group ends within the text, where there is room for the literal after it |
| OutdatedReport.LazyUntilFound | src/steps/remote/vagrant.rs:220 | Where a lazy group ends, the literal after it is written, and the group holds no line break |
| OutdatedReport.LazyUntilFirst | src/steps/remote/vagrant.rs:220 | A lazy group ends at the first place the literal is written, and finds nothing only when it is not written before the line ends |
| OutdatedReport.MatchBody | src/steps/remote/vagrant.rs:220 | After the marker, the two lazy groups and the literals between them; the groups end within the text |
| OutdatedReport.MatchBodyFound | src/steps/remote/vagrant.rs:220 | The first group stays on its line and is followed by the separator; the second is the lazy group before the tail |
| OutdatedReport.MatchBodyFirst | src/steps/remote/vagrant.rs:220 | The first group is the shortest for which the rest of the pattern matches, and nothing is found only when the rest fits nowhere on the line |
| OutdatedReport.MatchAt | src/steps/remote/vagrant.rs:220 | A match ends after where it starts, within the text |
| OutdatedReport.MatchAtShape | src/steps/remote/vagrant.rs:220 | A match lies on one line and ends with the tail |
| OutdatedReport.MatchAtText | src/steps/remote/vagrant.rs:220-231 | A match is exactly the text of the entry it captures, and neither the box nor the provider crosses a line |
| OutdatedReport.EntriesFrom | src/steps/remote/vagrant.rs:223 | `captures_iter` from a position: a match there and the matches after it, or the matches from the next position |
| OutdatedReport.OutdatedEntries | src/steps/remote/vagrant.rs:220-223 | The entries of the outdated report, read with the outdated pattern from its start (its properties are `OutdatedEntriesFound` and `ReportRoundTrip`) |
| OutdatedReport.EntriesFound | src/steps/remote/vagrant.rs:223 | Every entry `captures_iter` finds is written out in full, with box and provider on one line |
| OutdatedReport.OutdatedEntriesFound | src/steps/remote/vagrant.rs:220-231 | Every entry read from the outdated report is quoted there as `* '<box>' for '<provider>' is outdated`, with box and provider on one line |
| OutdatedReport.ReportRoundTrip | src/steps/remote/vagrant.rs:216-231 | Reading a report back finds exactly the outdated entries it lists, in order, and nothing from its other lines |
| OutdatedReport.PatternRoundTrip | src/steps/remote/vagrant.rs:220-223 | The same round trip for every pattern whose literals keep to one line and whose separator and tail open with a quote |
| OutdatedReport.ListedFrom | src/steps/remote/vagrant.rs:223 | The report's lines, from where they start, are read as the entries they list |
| OutdatedReport.ListedOutdated | src/steps/remote/vagrant.rs:223 | An outdated line is read as its entry, and reading goes on after the line |
| OutdatedReport.MatchWritten | src/steps/remote/vagrant.rs:220 | An entry written out is matched where it starts, with exactly its box and provider |
| OutdatedReport.MatchFromGroups | src/steps/remote/vagrant.rs:220 | A marker followed by the body's match is a match of the entry its groups capture |
| OutdatedReport.QuotedRun | src/steps/remote/vagrant.rs:220 | A lazy group over a word without quotes ends at the next quote-opened literal |
| OutdatedReport.QuotedGroup | src/steps/remote/vagrant.rs:220 | The first group over a word without quotes ends at the separator after it |
| OutdatedReport.SkipInert | src/steps/remote/vagrant.rs:223 | A line in which the tail never occurs contributes no entry from any position in it |
| OutdatedReport.NoMatchInInert | src/steps/remote/vagrant.rs:220 | No match starts in a line in which the tail never occurs |

## Left out

- Process execution: `Command`, `output_checked_utf8`, `status_checked` and the dry-run mode of `ctx.run_type()` are one abstract call. It appends the invocation to the trace, and its success and output are inputs. Invalid UTF-8 output counts as a failed run.
- Binary lookup (`utils::require("vagrant")`) is the boolean `installed`. `utils::require_option` is the `NoDirectories` error. `src/utils.rs` is not part of this model.
- Configuration access: the four settings are fields of `Processes.Config`, with the program's defaults for the unset options.
- Terminal output, logging and translation: `print_separator`, `println!`, `t!`, `debug!` and `error!`. This includes the "No outdated boxes" message. The `Display` impl (lines 49-53) only feeds the skip message, so `Skipped` carries the box instead of the text.
- `Rc<Path>` sharing and OS path semantics: a path is the sequence of its normal components.
- `file_name().unwrap()` and `to_str().unwrap()` in `smart_name`: a panic on a directory without a last component, or on one that is not valid Unicode. Both are excluded by `Boxes.Nameable`, a precondition of `SmartName` and of the per-box run.
- `unreachable!()` on a running box in `TemporaryPowerOn::create` and in `Drop`: the guard functions require a box that is not running, and the per-box run never takes the guard for one.
- The regex engine in general: only the one pattern is modelled, by its leftmost-first, lazy, non-overlapping semantics, with `.` not matching a line break.
- `Drop` is an explicit call at the single point where the guard goes out of scope in `topgrade_vagrant_box`. Unwinding after a panic inside the guarded region is not modelled.
- Fleet.DirectoryBoxes: a malformed listing aborts the program in the source. The model gives `Panic(line)`, which every caller passes on, instead of ending the process.
