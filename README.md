# Line-provenance ("cohort") tracking, modelled in Dafny

The repository measures how old the code in a git repository is. It replays the
history. For every line of every file it records the *cohort* that introduced
the line: the commit date formatted with a user-chosen pattern, such as the year
or the month. It then writes a CSV with one row per sampled commit and one column
per cohort. Each cell counts the lines of that cohort still alive at that sample.

The same engine appears in several variants, and each one is modelled here.

| Dafny module | variant | what it holds |
|---|---|---|
| `Diff` | all | The closed file-status type, a hunk as four naturals, a delta (status, old path, new path), and a commit (id, integer timestamp). |
| `Changes` | `git-metrics/src/change.rs` (copied verbatim in `src/axe/mod.rs` and `src/axe.rs`) | How a hunk becomes positional `Change`s, and the `Changeset` class that accumulates them. |
| `Store` | all | The value-level meaning of the provenance store, a map from file name to a sequence of labels: splice-insert, range-delete, whole-file replace and key removal. It also holds the replay of a series of changesets, the line counts, and the insert/remove loops shared by the variants. |
| `MetricsSample` | `git-metrics/src/sample.rs` | The sample class, updated in place with `split_off`/`extend`/`drain`. |
| `AxeSample` | `src/axe/mod.rs` | The sample class updated with `insert`/`remove` loops, `from_changesets`, `skip_file` and `collect_samples`. |
| `LineHistogram` | `src/axe.rs` | The per-file fold of `from_acc`: how many lines each cohort owns in one file. |
| `AxeAccumulator` | `src/axe.rs` | The accumulator, the histogram samples of `from_acc`, and `count_cohort_lines` with its `unwrap`. |
| `AxSample` | `src/ax/mod.rs` | The sample that applies hunks directly, and the date-cursor selection of `collect_samples`. |
| `MetricsOptions` | `git-metrics/src/options.rs` | Joining patterns with `|`, plus `should_ignore` and `should_keep`. |
| `Pipeline` | both `lib.rs` files, `src/axe/mod.rs`, `src/axe.rs` | Commit thinning, tree pairing, and hunk filtering into changesets. |
| `MetricsLib` / `AxeLib` | `git-metrics/src/lib.rs` / `src/lib.rs` | `skip_file`, the consumer loop that turns changesets into samples, and `collect_samples`. |
| `Report` | `make_csv` in every variant | The column set (the distinct cohort names, sorted), the header line and the count rows. |
| `Text` | — | Joining, splitting, string order and decimal rendering, used by the options and the report. |

A panic in the source is a precondition in the model. This covers:
- `split_off` or `drain` out of range;
- `Vec::insert` or `Vec::remove` past the end;
- the `u32` underflow of `new_start - 1`;
- a hunk callback that returns `false` and so makes `foreach(...).unwrap()` panic.

The source has two different out-of-range conditions, and the model keeps both:
- `Store.Fits` / `Store.Applicable` belong to the loop variants. There a change of length 0 runs no iteration and never panics.
- `Store.SpliceFits` / `Store.SpliceApplicable` are the extra demands of git-metrics' `split_off`/`drain`. These check the range even when the length is 0.

External values are parameters of the model:
- a commit date is an integer timestamp;
- the cohort label is a function `cohortOf: int -> Cohort`;
- a regex match is a function `isMatch: (Pattern, string) -> bool`;
- the diff of two trees is a function `diff(previousTree, currentCommitId)` that returns the sequence of `(delta, hunk)` callbacks git would make;
- the text of a sample date in the CSV is a function `showDate`.

## Model

| member | source | states |
|---|---|---|
| Changes.Translate | git-metrics/src/change.rs:58-69 | The hunk yields no change exactly when the status is not Added, Deleted or Modified (an empty Modified hunk also yields none). Added yields exactly one `AddFile` of the new path with `new_lines`, and Deleted exactly one `DeleteFile` of the old path. A Modified hunk yields exactly the `ModifiedChanges` of the new path. Every change names the delta's file. |
| Changes.ModifiedChanges | git-metrics/src/change.rs:38-56 | At most two changes: a Delete before an Add, both at the clamped start `max(new_start-1, 0)` and both of positive length. The deleted total is `old_lines` and the inserted total is `new_lines`. |
| Changes.EmptyHunkNoChanges | git-metrics/src/change.rs:38-56 | A Modified hunk with both counts 0 appends nothing. |
| Changes.Changeset.constructor | git-metrics/src/change.rs:19-24 | A new changeset has the given date and no changes. |
| Changes.Changeset.ProcessAdded | git-metrics/src/change.rs:26-30 | Appends exactly `AddFile(new path, new_lines)`, returns true and keeps the date. |
| Changes.Changeset.ProcessDeleted | git-metrics/src/change.rs:32-36 | Appends exactly `DeleteFile(old path)`, ignores the hunk, returns true and keeps the date. |
| Changes.Changeset.ProcessModified | git-metrics/src/change.rs:38-56 | Appends the Delete/Add pair of `ModifiedChanges`, returns true and keeps the date. |
| Changes.Changeset.AddDiffHunk | git-metrics/src/change.rs:58-69 | Returns true iff the status is handled, only appends (`changes == old(changes) + Translate(d, h)`), and keeps the date. |
| Store.Repeat | git-metrics/src/sample.rs:55-59 | `vec![cohort; n]`: length `n`, and every entry is the cohort. |
| Store.InsertLines | git-metrics/src/sample.rs:38-46 | The length grows by `length`. The prefix before `start` is kept, `length` copies of the cohort follow, and the old tail is shifted after them. Length 0 changes nothing. |
| Store.RemoveLines | git-metrics/src/sample.rs:47-54 | Exactly the entries at `[start, start+length)` are gone: the prefix is kept, the tail is moved up, and the length shrinks by `length`. |
| Store.ApplyChange | git-metrics/src/sample.rs:36-65 | Only the named key changes. After Add or Delete it is present (an absent file counts as empty), and after DeleteFile it is absent (no-op when it was absent). Add grows its length by `length` and Delete shrinks it by `length`. AddFile sets it to exactly `length` copies of the cohort. Add stores exactly the splice `InsertLines` of the old lines, and Delete exactly `RemoveLines`. |
| Store.SpliceFitsStricter | git-metrics/src/sample.rs:38-54 | The `split_off`/`drain` range demand implies the insert/remove-loop demand, and the two differ only on a zero-length Add or Delete whose start is past the end. |
| Store.ApplyAllAppend | git-metrics/src/sample.rs:36-65 | Changes apply in list order: a concatenation is applicable iff its first part is, and the second part is applicable to the result; applying it equals applying the parts one after the other. |
| Store.ApplyAllFrame | git-metrics/src/sample.rs:36-65 | Applying changes that never name a file leaves that file's presence and lines as they were. |
| Store.ApplyChangeLabels | git-metrics/src/sample.rs:36-65 | One change only adds lines labelled with the changeset's cohort. |
| Store.ApplyAllLabels | src/axe/mod.rs:107-111 | Applying a changeset only adds lines labelled with that changeset's own cohort. |
| Store.SeriesStep | src/axe.rs:158-171 | Snapshot i is changeset i applied to snapshot i-1, or to the empty store for i = 0, and that application does not panic. |
| Store.Series | git-metrics/src/lib.rs:171-186 | The replay gives one snapshot per changeset. |
| Store.SpliceSeriesStep | git-metrics/src/lib.rs:171-186 | Under the git-metrics replay conditions, every changeset also meets the `split_off`/`drain` range demands against the previous snapshot. |
| Store.SeriesLabels | git-metrics/src/lib.rs:181 | Every line of snapshot i carries the cohort of one of changesets 0..i. |
| Store.Occurrences | git-metrics/src/sample.rs:73-77 | A file's count of a cohort is at most its length, and is 0 exactly when the cohort is absent. |
| Store.OccurrencesAppend | git-metrics/src/sample.rs:73-77 | Counting distributes over concatenation. |
| Store.OccurrencesRepeat | git-metrics/src/sample.rs:55-59 | A replaced file holds `length` lines of its own cohort and none of any other. |
| Store.CountWithinTotal | src/ax/mod.rs:59-74 | A cohort's line count never exceeds the total line count. |
| Store.TotalAfterChange | git-metrics/src/sample.rs:36-65 | The total grows by `length` for Add and shrinks by `length` for Delete. AddFile replaces the file's old length by `length`, and DeleteFile drops it. |
| Store.TotalAfterAll | git-metrics/src/sample.rs:36-54 | For positional changes only, the total after a changeset is the old total plus the inserted total minus the removed total. |
| Store.OccurrencesInsert | git-metrics/src/sample.rs:38-46 | Inserting `length` copies of a cohort raises that cohort's count in the file by `length` and leaves the others alone. |
| Store.OccurrencesRemove | git-metrics/src/sample.rs:47-54 | Removing a range lowers each cohort's count in the file by its occurrences in the range. |
| Store.CountAfterAdd | git-metrics/src/sample.rs:38-46 | An Add raises its own cohort's count by `length` and leaves every other count alone. |
| Store.CountAfterDelete | git-metrics/src/sample.rs:47-54 | A Delete lowers each cohort's count by that cohort's occurrences in the removed range. |
| Store.InsertRun | src/axe/mod.rs:136-143 | `length` repetitions of `insert(start, cohort)` equal the splice `InsertLines`. |
| Store.RemoveRun | src/axe/mod.rs:144-151 | `length` repetitions of `remove(start)` equal `RemoveLines`. |
| Store.SumValues | src/ax/mod.rs:59-61 | The fold over a map's values equals the order-free sum `SumMap`. |
| MetricsSample.Sample.constructor | git-metrics/src/sample.rs:22-27 | A new sample has the given date and no files (so every cohort count is 0). |
| MetricsSample.Sample.CloneAndDate | git-metrics/src/sample.rs:29-33 | A fresh object with the same files and the new date; later updates to it cannot reach the original. |
| MetricsSample.SplitInsert | git-metrics/src/sample.rs:38-46 | `split_off`, then extending with the copies and the old tail, equals the splice `InsertLines`, zero length included. |
| MetricsSample.Drain | git-metrics/src/sample.rs:47-54 | `drain(start..start+length)` equals `RemoveLines`, zero length included. |
| MetricsSample.Splice | git-metrics/src/sample.rs:36-65 | One change done on the line vectors equals `ApplyChange` with the changeset's cohort. |
| MetricsSample.Sample.AddChangeset | git-metrics/src/sample.rs:35-67 | The split_off/extend/drain loop leaves `files == ApplyAll(old(files), changes, cohort)` and keeps the date. |
| MetricsSample.Sample.CountCohortLines | git-metrics/src/sample.rs:73-77 | Returns the number of positions, over all files, whose label is the cohort. This variant's own copy of the method; all three call `Store.SumValues`. |
| AxeSample.Sample.constructor | src/axe/mod.rs:120-125 | A new sample has the given date and no files. |
| AxeSample.Sample.CloneAndDate | src/axe/mod.rs:127-131 | A fresh object with the same files and the new date. |
| AxeSample.Sample.SetLines | src/axe/mod.rs:183-186 | Stores the lines under the key and changes nothing else. |
| AxeSample.Sample.DeleteLines | src/axe/mod.rs:188-191 | Removes the key and changes nothing else. |
| AxeSample.Sample.GetLines | src/axe/mod.rs:170-175 | Reads the stored lines as the value model does (`LinesOf`): an absent file reads as empty. |
| AxeSample.Sample.AddChangeset | src/axe/mod.rs:133-163 | The insert/remove loops leave `files == ApplyAll(old(files), changes, cohort)` and keep the date. |
| AxeSample.Sample.CountCohortLines | src/axe/mod.rs:177-181 | Returns the number of positions, over all files, whose label is the cohort. This variant's own copy of the method; all three call `Store.SumValues`. |
| AxeSample.NextSample | src/axe/mod.rs:95-118 | One turn: a fresh sample with the changeset's date, whose files are the changeset applied to the previous sample's files (or to none); earlier samples are untouched. |
| AxeSample.FromChangesets | src/axe/mod.rs:95-118 | One sample per changeset, in order. Sample i has changeset i's date, and its files are snapshot i of the replay from an empty store. |
| AxeSample.SkipKept | src/axe/mod.rs:294-299 | Under `skip_file` the hunks that reach the changeset are exactly those whose old path the ignore pattern does not match, and all of them when there is no pattern. |
| AxeSample.CollectSamples | src/axe/mod.rs:301-384 | One sample per thinned commit, dated by that commit. The files are the replay of the changesets between adjacent thinned trees. |
| AxeAccumulator.Accumulator.constructor | src/axe.rs:91-93 | A new accumulator has no files. |
| AxeAccumulator.Accumulator.SetLines | src/axe.rs:139-142 | Stores the lines under the key and changes nothing else. |
| AxeAccumulator.Accumulator.DeleteLines | src/axe.rs:144-147 | Removes the key and changes nothing else. |
| AxeAccumulator.Accumulator.GetLines | src/axe.rs:132-137 | Reads the stored lines as the value model does (`LinesOf`): an absent file reads as empty. |
| AxeAccumulator.Accumulator.AddChangeset | src/axe.rs:95-127 | The insert/remove loops leave `files == ApplyAll(old(files), changes, cohort)`. |
| LineHistogram.HistFromCounts | src/axe.rs:177-186 | Counting from a partial histogram: a label is a key iff it was a key or occurs in the lines, and its count is the old count plus its occurrences. |
| LineHistogram.HistogramCounts | src/axe.rs:176-189 | A file's histogram keys are exactly the distinct labels in the file, and each count is that label's number of occurrences, at least 1. |
| LineHistogram.HistFromSum | src/axe.rs:177-186 | Counting more lines raises the sum of the counts by the number of lines. |
| LineHistogram.HistogramSum | src/axe.rs:176-189 | A file's histogram counts sum to the file's line count. |
| AxeAccumulator.Histograms | src/axe.rs:173-192 | The sample's file keys equal the accumulator's keys. |
| AxeAccumulator.HistCountAgrees | src/axe.rs:194-198 | Summing a cohort over the histograms (0 where it is absent) equals counting its lines directly. |
| AxeAccumulator.CountLabels | src/axe.rs:177-186 | The `entry().or_insert(0) += 1` loop builds exactly the histogram of the lines. |
| AxeAccumulator.FromAcc | src/axe.rs:173-192 | The sample has the given date and one histogram per accumulator file. |
| AxeAccumulator.Advance | src/axe.rs:158-171 | One changeset added to the accumulator, then its histogram sample taken with the changeset's date. |
| AxeAccumulator.FromChangesets | src/axe.rs:158-171 | One sample per changeset: its date, and the histograms of the accumulator after changesets 0..i. `iter_cb` runs exactly once per changeset. |
| AxeAccumulator.CountCohortLines | src/axe.rs:194-198 | As written: defined only when every file's histogram has the cohort, and then it returns the sum of its counts. |
| AxeAccumulator.CountCohortLinesPanics | src/axe.rs:194-198 | Two changesets of different cohorts are enough for sample 0 to hold a file whose histogram lacks the later cohort, which `make_csv` then asks for. |
| AxeAccumulator.CountCohortLinesOrZero | src/axe.rs:194-198 | Corrected: counts an absent cohort as 0 and returns the histogram sum. |
| AxeAccumulator.CountOrZeroOnSample | src/axe.rs:194-198 | On a sample built by `from_acc`, the corrected count equals the number of the cohort's lines in the accumulator. |
| AxeAccumulator.CollectSamples | src/axe.rs:308-415 | One histogram sample per thinned commit, dated by it, holding the histograms of the replayed store. |
| AxSample.HunkEffect | src/ax/mod.rs:33-131 | A Deleted hunk removes the old path's entry. Renamed, Copied and the other statuses leave the store unchanged. Added and Modified change only the new path's entry. |
| AxSample.ModifiedAgreesWithChanges | src/ax/mod.rs:102-117 | For a non-empty Modified hunk, applying hunks directly (remove `old_lines` at the clamped start, then insert `new_lines`) panics exactly when the translated Delete/Add changes would panic. Otherwise the two give the same store. |
| AxSample.DeletedAgreesWithChanges | src/ax/mod.rs:97-100 | A Deleted hunk removes the whole entry, exactly as `DeleteFile` does. |
| AxSample.AddedAgreesWithChanges | src/ax/mod.rs:86-95 | For a new file whose hunk starts at line 1, inserting at `new_start-1` gives the same store as `AddFile`. |
| AxSample.DeleteThenAdd | src/ax/mod.rs:102-117 | Removing `old_lines` and then inserting `new_lines` at the same start works exactly when the removed range is inside the file, and leaves the splice of the two. |
| AxSample.ModifiedTotal | src/ax/mod.rs:102-117 | A Modified hunk changes the total line count by `new_lines - old_lines`. |
| AxSample.Sample.constructor | src/ax/mod.rs:20-25 | A new sample has the given date and no files. |
| AxSample.Sample.CloneAndDate | src/ax/mod.rs:27-31 | A fresh object with the same files and the new date. |
| AxSample.Sample.SetLines | src/ax/mod.rs:76-79 | Stores the lines under the key and changes nothing else. |
| AxSample.Sample.DeleteLines | src/ax/mod.rs:81-84 | Removes the key and changes nothing else. |
| AxSample.Sample.GetLines | src/ax/mod.rs:63-68 | Reads the stored lines as the value model does (`LinesOf`): an absent file reads as empty. |
| AxSample.Sample.ProcessAdded | src/ax/mod.rs:86-95 | Inserts `new_lines` copies of the cohort at `new_start-1`, with no clamp (requires `new_start >= 1`), and stores the file. |
| AxSample.Sample.ProcessDeleted | src/ax/mod.rs:97-100 | Removes the old file's entry whatever the hunk. |
| AxSample.Sample.ProcessModified | src/ax/mod.rs:102-117 | Removes `old_lines` entries at the clamped start, inserts `new_lines` cohort entries there, and stores the file. |
| AxSample.Sample.ProcessRenamedOrCopied | src/ax/mod.rs:119-131 | Leaves the files unchanged. |
| AxSample.Sample.AddDiffHunk | src/ax/mod.rs:33-53 | Dispatches on the status. Only the delta's file changes, and Renamed, Copied and the other statuses leave the files alone. |
| AxSample.Sample.TotalLines | src/ax/mod.rs:59-61 | Returns the sum of the file lengths. |
| AxSample.Sample.CountCohortLines | src/ax/mod.rs:70-74 | Returns the number of positions, over all files, whose label is the cohort. This variant's own copy of the method; all three call `Store.SumValues`. |
| AxSample.Collect | src/ax/mod.rs:251-305 | The cursor fold emits at most one sample per commit. |
| AxSample.CollectSpacing | src/ax/mod.rs:256-258 | Each emitted sample is at least one interval after the cursor before it. |
| AxSample.FirstSampleAfterTwoIntervals | src/ax/mod.rs:236-258 | The cursor starts at the first commit time plus the interval, so the first sample is at least two intervals after the first commit. |
| AxSample.ApplyDiff | src/ax/mod.rs:286-295 | Running the hunk callback over a diff applies every hunk, in order, to the sample's files. |
| AxSample.CollectAdvance | src/ax/mod.rs:256-298 | One turn of the cursor fold: a commit before the cursor plus the interval is passed over; any other has hunks that fit, yields the next sample and becomes the cursor. |
| AxSample.NextSample | src/ax/mod.rs:260-295 | A fresh sample with the commit's date, whose files are the commit's hunks applied to the last sample's files (or to none). |
| AxSample.AppendSample | src/ax/mod.rs:260-298 | The next sample is pushed after the earlier ones, which keep their dates and files; its files are the commit's hunks applied to the last sample's files (or to none). |
| AxSample.CollectSamples | src/ax/mod.rs:232-308 | The imperative fold yields exactly the samples of `Collect`: dates and files, in order. |
| MetricsLib.IntendedKept | git-metrics/src/options.rs:54-66 | Corrected (`should_ignore`, and `should_keep` reading `only`): the hunks that reach the changeset are exactly those whose old path the ignore pattern (if any) does not match and the only pattern (if any) matches; all of them with neither pattern. |
| MetricsOptions.Options.ShouldKeep | git-metrics/src/options.rs:61-66 | As written: with an ignore pattern it agrees with `should_ignore` on every file (the `only` pattern is never read); without one it keeps everything. |
| MetricsOptions.JoinPatterns | git-metrics/src/options.rs:24-35 | An option given no values yields no pattern. |
| MetricsOptions.JoinPatternsSplit | git-metrics/src/options.rs:24-29 | The joined pattern splits at `|` back into the given values, in order, when no value contains `|`. |
| MetricsOptions.New | git-metrics/src/options.rs:15-44 | Stores interval, path and format unchanged (the accessors return them), and the joined ignore and only patterns. |
| Pipeline.ThinFrom | git-metrics/src/lib.rs:124-135 | The fold only appends to its accumulator. |
| Pipeline.ThinFromSpaced | git-metrics/src/lib.rs:124-135 | Thinning keeps consecutive kept commits at least one interval apart, and keeps only commits it was given. |
| Pipeline.Thin | git-metrics/src/lib.rs:124-135 | The first commit is always kept, in first place. |
| Pipeline.ThinFromSnoc | git-metrics/src/lib.rs:127-134 | Visiting one more commit appends it exactly when it is at least `interval` after the last kept commit. |
| Pipeline.ThinMaximal | git-metrics/src/lib.rs:124-135 | Read commit by commit, commit j is dropped exactly when it is less than `interval` after the last commit kept before it, and appended otherwise. So the kept commits after the first are `ids` in order, and no commit far enough from its predecessor is left out. |
| Pipeline.ThinProperties | src/lib.rs:133-144 | The kept list starts with the first commit, is spaced by the interval, and holds only given commits. With an interval of 0 or less the first commit is kept twice. |
| Pipeline.ThinCommits | src/axe/mod.rs:314-325 | The imperative fold computes `Thin`. |
| Pipeline.Trees | git-metrics/src/lib.rs:142-148 | `[no tree at the first time]` followed by one tree per kept commit, dated by that commit. |
| Pipeline.KeptFiltered | git-metrics/src/lib.rs:197-206 | Only the callbacks whose file is not skipped reach the changeset. |
| Pipeline.NoneKept | git-metrics/src/lib.rs:203-205 | When every file is skipped, no callback reaches the changeset. |
| Pipeline.KeptAppend | git-metrics/src/lib.rs:197-206 | Filtering a concatenation of callbacks filters each part. |
| Pipeline.KeptComplete | git-metrics/src/lib.rs:197-206 | Every callback whose file is not skipped reaches the changeset, at the place given by the callbacks kept before it, and these places increase with the callback's order. |
| Pipeline.AllKept | git-metrics/src/lib.rs:197-206 | When no file is skipped, every callback reaches the changeset. |
| Pipeline.ChangesFrom | git-metrics/src/lib.rs:197-227 | The walk only appends to the changes it started from. |
| Pipeline.ChangesFromSucceeds | git-metrics/src/lib.rs:197-227 | The callbacks never return false (so `foreach` does not fail) iff every kept hunk has a handled status. |
| Pipeline.ChangesFromValue | git-metrics/src/lib.rs:197-206 | The changeset's changes are the translations of the kept hunks, in callback order. |
| Pipeline.AllSkippedNoChanges | git-metrics/src/lib.rs:203-205 | When every file is skipped, the changeset is empty and the callbacks all return true. |
| Pipeline.PairSteps | git-metrics/src/lib.rs:192-231 | One changeset per adjacent pair of trees, dated by the later tree. |
| Pipeline.CollectChangeset | git-metrics/src/lib.rs:194-228 | A fresh changeset with the later tree's date and the translated kept hunks. |
| Pipeline.CollectChangesets | src/lib.rs:213-249 | The changesets, in send order, are exactly `PairSteps`. |
| Pipeline.History | git-metrics/src/lib.rs:124-148 | There are as many changesets as kept commits, and changeset i has kept commit i's time. |
| MetricsLib.SkipFile | git-metrics/src/lib.rs:105-109 | As written (`should_ignore \|\| !should_keep`): nothing is skipped without an ignore pattern, and every file is skipped with one. |
| MetricsLib.IgnoreEmptiesChangesets | git-metrics/src/lib.rs:105-109 | With an ignore pattern every collected changeset is empty. |
| MetricsLib.NextSample | git-metrics/src/lib.rs:171-186 | One turn of the consumer: a fresh sample with the changeset's date, whose files are the changeset applied to the previous sample's files (or to none); earlier samples are untouched. |
| MetricsLib.Consume | git-metrics/src/lib.rs:171-186 | One sample per changeset, in order. The first starts from `Sample::new` and later ones from the previous sample's files, each with its changeset's date and cohort. |
| MetricsLib.CollectSamples | git-metrics/src/lib.rs:111-239 | For any file filter `skip` (a parameter, so that both the as-written and the corrected `skip_file` can be plugged in): one sample per kept commit, dated by it, holding the replay of the paired changesets. |
| MetricsLib.IgnoreEmptiesSamples | git-metrics/src/lib.rs:111-239 | With an ignore pattern the history is replayable, and every sample has no files at all. |
| MetricsLib.EmptyStepsKeepFiles | git-metrics/src/lib.rs:171-186 | Replaying empty changesets never changes the files. |
| AxeLib.SkipKept | src/lib.rs:106-116 | The hunks that reach the changeset are exactly those whose old path the ignore pattern (if any) does not match and the only pattern (if any) matches; all of them with neither pattern. |
| AxeLib.SkipFileAgrees | src/lib.rs:106-116 | The src/lib.rs rule is the corrected git-metrics rule. Without `only` it is the src/axe/mod.rs rule. |
| AxeLib.CollectSamples | src/lib.rs:118-256 | One sample per kept commit, dated by it, holding the replay of the paired changesets under the ignore/only filter. |
| Report.InsertSortedProps | git-metrics/src/lib.rs:79-86 | Adding a name to a strictly sorted list keeps it strictly sorted, and its elements become the old ones plus the name. |
| Report.SortedUnique | git-metrics/src/lib.rs:79-86 | Two strictly sorted lists with the same elements are equal. |
| Report.ColumnsFromProps | git-metrics/src/lib.rs:79-86 | Folding dates into the column list keeps it strictly sorted. Its elements are the old ones plus the new names. |
| Report.ColumnsProps | git-metrics/src/lib.rs:79-86 | The columns are strictly sorted, hold exactly the distinct cohort names of the sample dates, and are the only list with both properties. |
| Report.CohortColumns | src/lib.rs:80-87 | The `HashSet` collect and sort compute `Columns`. |
| Report.HeaderFields | src/lib.rs:92-93 | Split at commas, the header is `DateTime` followed by the columns in order, when no name holds a comma. |
| Report.Numbers | git-metrics/src/lib.rs:95-97 | One decimal text per count, in column order. |
| Report.RowSplit | src/lib.rs:95-100 | Split at commas, a row is the date's text followed by one field per count, in column order. |
| Report.NumbersReadBack | src/lib.rs:95-100 | Each count field is all digits and reads back as the count. |
| Report.RowCounts | git-metrics/src/lib.rs:95-97 | Each sample's counts are the cohort counts of its files, column by column. |
| Report.CsvRow | git-metrics/src/lib.rs:94-99 | One sample's CSV line is the row of its date's text and its counts in column order. |
| Report.MakeCsv | git-metrics/src/lib.rs:75-103 | One header line, then one line per sample in order, holding its date and its count for each column. |
| Text.SplitJoin | git-metrics/src/options.rs:24-27 | Splitting at the separator undoes `intersperse` and `collect` when no value holds the separator. |
| Text.PrefixedIsJoin | git-metrics/src/lib.rs:91 | A head followed by `,`-prefixed values is the comma-join of the head and the values. |
| Text.LexIrreflexive | git-metrics/src/lib.rs:86 | No name sorts before itself. |
| Text.LexTransitive | git-metrics/src/lib.rs:86 | The name order is transitive. |
| Text.LexTotal | git-metrics/src/lib.rs:86 | Of two different names one sorts before the other. |
| Text.ParseNatToString | git-metrics/src/lib.rs:95-97 | A count's decimal text reads back as the count. |

## Left out

- git plumbing is not modelled: opening the repository, the revision walk, `find_commit` and `diff_tree_to_tree`. A commit is `(id, time)`. The diff is a parameter that returns the sequence of `(delta, hunk)` callbacks, and libgit2 fills both delta paths.
- The hunk callbacks' `""` fallback for a delta with no path is not modelled, because paths are plain strings.
- chrono is not modelled: cohort formatting is the parameter `cohortOf`, and date display in the CSV is `showDate`.
- Regex compilation and matching are not modelled: matching is the parameter `isMatch`. The `|` joining is modelled.
- Threads, mpsc channels and progress bars are not modelled. The consumer thread is the sequential fold it performs, and the progress callback of `src/axe.rs` is a counter.
- File creation, `write!` and `println!` are not modelled: `Report.MakeCsv` returns the lines.
- `Arc` sharing is not modelled: lines are values, and `CloneAndDate` returns a fresh object instead.
- `u32`, `i64` and `u64` widths are not modelled (naturals and integers are unbounded). Overflow of `start + length` and of the counts is outside the model.
- `make_csv` appears in every variant but is modelled once, over the git-metrics sample. The `src/axe.rs` counting it calls is `AxeAccumulator.CountCohortLines`.
- src/sample.rs is not part of this model. `src/lib.rs` is modelled with the git-metrics sample, whose interface its consumer loop uses.
- src/ax/sample.rs, src/main.rs, src/options.rs and the programs under src/bin are not modelled. They are unreachable or only build command-line options and wrappers.
- Repository-level failures are not modelled: the `?` errors of `collect_samples` and an empty revision walk (`ids[0]`). `CollectSamples` requires at least one commit.
- Store.RemoveLines: the model follows the code. Deleting past the end is a panic and so a precondition; the lines are not clamped to the end.
- AxSample.ModifiedAgreesWithChanges: requires a hunk with some lines. An empty Modified hunk on a missing file makes src/ax/mod.rs store an empty entry, but the translation emits nothing.
- AxSample.AddedAgreesWithChanges: covers only a new file whose hunk starts at line 1. That is git's shape for an added file; other shapes are left to `HunkFits`.
- Store.Series: its own contract gives only the length. Its content is stated by `Store.SeriesStep`.
- Pipeline.ThinFrom: its own contract gives only the prefix. Spacing and membership are stated by `Pipeline.ThinFromSpaced` and `Pipeline.ThinProperties`, and which commits are dropped by `Pipeline.ThinMaximal`.

## Findings

| source | as written | input that shows it | evidently intended | confidence | as-written member | corrected member |
|---|---|---|---|---|---|---|
| git-metrics/src/options.rs:61-66 | `should_keep` matches the `ignore` pattern, so `skip_file` (`ignore \|\| !keep`) is true for every file once an ignore pattern is set | Any ignore pattern `p`. For a path `f` that `p` matches, `should_ignore` is true; for one it does not match, `should_keep` is false. Every changeset is then empty and every sample has no files. | `should_keep` reads `only`, as src/lib.rs:111-114 does | not executed | MetricsLib.IgnoreEmptiesSamples | MetricsLib.IntendedKept |
| src/axe.rs:194-198 | `count_cohort_lines` unwraps the cohort's entry in every file's histogram | First changeset at `t1` adds a one-line file `a`; second at `t2` has a different cohort and no changes. `make_csv` asks sample 0 for the cohort of `t2`, which `a`'s histogram lacks, so `unwrap` panics. | An absent cohort counts as 0 | not executed | AxeAccumulator.CountCohortLinesPanics | AxeAccumulator.CountCohortLinesOrZero |
