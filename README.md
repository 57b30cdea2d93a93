# A verified model of funcstats' mining core and visualization state

funcstats mines Git histories of Ruby projects. It reads each commit's changed files and measures the cyclomatic complexity of every function with an external analyzer (saikuro). It stores one row per (commit, file, function) and serves the series and the user–project graph to a page that draws them.

This project models the following parts of funcstats in Dafny, and proves properties of them:

- **History** (`history.dfy`, `lib/funcstats.js:303-404`). This is the history reader of `getCommits`.
  - Git's transcript is cut at the 99-character `=` banner into one block per commit.
  - Each block is trimmed and cut at the 99-character `-` separator into header, message and change list.
  - A block needs at least three sections and a header of at least four lines.
  - Change lines of six fields give a blob `{file, sha}`. A deletion, the all-zero id, is dropped.
  - Then every commit gets its message's sentiment score.
  - Finally the last commit's blobs are *replaced* by one working-tree blob (`sha: null`) per line of the `find` listing.
  - `LogReader` is the closure state (`buffer`, `commits`) with the handlers that update it.
- **Transcript** (`transcript.dfy`). This is the text git prints for the `--pretty` format of `lib/funcstats.js:305`, up to white space the reader trims: git puts one more line break after the second separator, which the `trim` at line 337 removes. It leads to the round-trip theorem: the reader gives back, commit for commit, what git printed.
- **Complexity** (`complexity.dfy`, `lib/funcstats.js:406-469`). This is `getComplexity`.
  - A file not ending in `.rb` gives no records.
  - Otherwise the analyzer reads either the historical blob or the working-tree file.
  - Records without a name or with a zero complexity are dropped.
  - Records of one name are merged by adding complexity and lines.
  - Output that does not parse gives no records.
- **Pipeline** (`pipeline.dfy`, `lib/funcstats.js:162-236`). This is `addProject`.
  - The existence query gates the run.
  - A failed download reports done.
  - Otherwise one insert is issued per (commit, blob, function), in order, and the first failing insert ends the run with its error.
- **Series** (`series.dfy`, `lib/funcstats.js:51-81`). This is the loop of `getCommitData`.
  - Rows whose `data` is not JSON are skipped.
  - Consecutive rows of one project are gathered into one `{project, functions}` entry.
  - The JSON text is modelled twice: as intended, and as the loop writes it.
- **Network** (`network.dfy`, `public/vizualization.js:10-11, 29-69`). This is `updateNetwork`.
  - The page-global `nodes` and `nodeIndexes` gain a node for every user or project name not seen before.
  - The links are rebuilt, one per membership.
- **LineFocus** (`line_focus.dfy`, `public/vizualization.js:182, 387-515`). This is the `linesLock` state that `onclick`, `onmouseover` and `onmouseout` share, together with the author markers that d3's joins add and remove.
- **JsText** (`js_text.dfy`). These are the JavaScript string operations the core relies on: `trim`, `split` on a string, `split(/[ \t]+/)`, `Number`, and the `.rb` suffix test.
- **Wrappers** (`wrappers.dfy`). This holds `Option` and the "collect the present values" helper that every skipping loop is specified by.

There are two kinds of program code, and each is modelled in its own form:
- **Code that updates state in place** becomes a class with `modifies` clauses: `History.LogReader`, `Network.Graph` and `LineFocus.Page`.
- **Loops** become methods with invariants. Each method is proved equal to a specification function. The properties are then lemmas about that function.

The following are parameters of the model:
- the database's answers;
- the download's error;
- the sentiment scorer;
- the analyzer, with its output already parsed;
- the history `getCommits` returns (Pipeline.AddProject);
- `md5`;
- the test `JSON.parse` performs on a series row;
- whether a line's project group is shown.

## Model

| member | source | states |
|---|---|---|
| History.ParseBlock | lib/funcstats.js:317-355 | one block read as the loop body reads it equals `ParseBody`: `None` with fewer than 3 sections or fewer than 4 header lines, otherwise the commit with sha, date, name, email, trimmed message and the change list's blobs |
| History.CollectBlobs | lib/funcstats.js:337-353 | the inner loop collects exactly the blobs of the six-field lines whose id is not the zero id, in line order |
| History.ParseBlocks | lib/funcstats.js:309-357 | the outer loop yields exactly the commits of the blocks that parse, in block order |
| History.ParseBodiesAppend | lib/funcstats.js:317-356 | blocks are read independently: the commits of two lists of blocks are the commits of each, concatenated |
| History.ParsedCount | lib/funcstats.js:317-326 | the number of commits is the number of blocks with three sections and four header lines; every other block is dropped without an error |
| History.BlobsOfAreAdditions | lib/funcstats.js:340-352 | every blob from a change list carries a content id, and it is not the zero id |
| History.ParsedBlobsAreAdditions | lib/funcstats.js:337-355 | no blob of any parsed commit is a deletion |
| History.Scored | lib/funcstats.js:371-377 | one commit per commit, each with `sentiment` set to the score of its own message and nothing else changed |
| History.WorkingTreeBlobs | lib/funcstats.js:391-396 | one blob per listed file, in listing order, each with `sha` null |
| History.Snapshot | lib/funcstats.js:381-399 | with no commits, or when `find` failed, the commits are unchanged; otherwise only the last commit changes, its blobs replaced by the listing's blobs |
| History.SnapshotListsFiles | lib/funcstats.js:385-398 | the last commit's new blob paths, joined by newlines, are exactly the output of `find` |
| History.LogReader.constructor | lib/funcstats.js:307 | a reader starts with an empty buffer and no commits |
| History.LogReader.OnData | lib/funcstats.js:359-361 | each chunk of standard output is appended to the buffer |
| History.LogReader.FlushBuffer | lib/funcstats.js:309-357 | `commits` grows by exactly the commits the buffer's blocks yield |
| History.LogReader.ScoreSentiment | lib/funcstats.js:371-377 | `commits` becomes its scored version |
| History.LogReader.ApplySnapshot | lib/funcstats.js:381-399 | `commits` becomes its snapshot for the listing |
| History.ReadOutput | lib/funcstats.js:359-361 | a fresh reader fed every chunk holds their concatenation and no commits |
| History.GetCommits | lib/funcstats.js:303-404 | the answer is the snapshot of the scored commits of the concatenated output |
| Transcript.RenderRoundTrip | lib/funcstats.js:305-357 | reading the transcript git prints for well-formed commits gives one commit per entry, in order, with its hash, time in milliseconds, author, trimmed message and the blobs of its non-deleting changes |
| Transcript.BannersOnlyNoCommits | lib/funcstats.js:311-326 | a transcript of banners and nothing else yields no commit |
| Transcript.RepeatedPathKept | lib/funcstats.js:339-353 | a path changed twice in one listing yields two blobs, in order; nothing is deduplicated |
| Transcript.EmptyChangeList | lib/funcstats.js:337-355 | a commit without changes reads back with no blobs; git without `--always` prints nothing for such a commit, so this is reader input git itself does not produce |
| Transcript.ChangeLineBlob | lib/funcstats.js:340-352 | a raw change line yields the blob of its new side exactly when the change does not delete the path |
| Transcript.SplitBlanksFields | lib/funcstats.js:340 | `split(/[ \t]+/)` takes fields joined by spaces and a tab back apart |
| Transcript.SplitRender | lib/funcstats.js:311 | cutting the transcript at the banners gives an empty first piece, then each entry's text |
| Transcript.EntryParses | lib/funcstats.js:318-355 | the text of one well-formed entry reads back as its expected commit |
| Complexity.ExtractFunctions | lib/funcstats.js:426-445 | the `forEach`, with the duplicate branch as intended, yields exactly the merge of the analyzer's records |
| Complexity.AddToNamed | lib/funcstats.js:436-441 | the inner loop adds the record's complexity and lines to every record of the same name |
| Complexity.GetComplexity | lib/funcstats.js:406-469 | the answer is empty for a non-Ruby file or unparseable output, and otherwise is the merge of the records |
| Complexity.InputFor | lib/funcstats.js:413-418 | a truthy blob id makes the analyzer read that historical blob; otherwise it reads the working-tree file |
| Complexity.NotRubyEmpty | lib/funcstats.js:409-468 | a file not ending in `.rb` yields no records, whatever the analyzer would say |
| Complexity.MergedNames | lib/funcstats.js:428-444 | a name is in the result exactly when some record with a name and a non-zero complexity carries it |
| Complexity.MergedDistinct | lib/funcstats.js:429-443 | the result holds at most one record per name |
| Complexity.MergedSums | lib/funcstats.js:434-441 | each record holds the total complexity and the total lines of all accepted records of its name |
| Complexity.MergedOrder | lib/funcstats.js:426-444 | the records come in the order their names are first accepted: record k bears the k-th distinct accepted name, the order in which the inserts are later issued |
| Complexity.MergedTagged | lib/funcstats.js:427-428 | every record is tagged `ruby` and has a non-empty name |
| Complexity.MeasuredRecords | lib/funcstats.js:406-469 | every answer's records are tagged `ruby`, named, and one per name |
| Complexity.AsWrittenWithoutRepeats | lib/funcstats.js:426-447 | without a repeated name, the code as written gives the intended answer |
| Complexity.AsWrittenLosesRecords | lib/funcstats.js:438 | for records a(3,10), a(5,4), b(2,1) the code as written answers only a(3,10), while the intended answer is a(8,14), b(2,1) |
| Pipeline.AddProject | lib/funcstats.js:162-236 | a failed existence query is passed on with nothing done; a project already present is done without a download or an insert into `commits`; otherwise it is downloaded, a failed download is done with no insert into `commits`, and the rows of its history are inserted in order until the first failure, whose error is reported |
| Pipeline.InsertFunctions | lib/funcstats.js:176-203 | one insert per function of a blob, in order, stopping at the first failure |
| Pipeline.InsertBlobs | lib/funcstats.js:174-207 | the inserts of a commit's blobs, blob by blob, stopping at the first failure |
| Pipeline.InsertCommits | lib/funcstats.js:171-212 | the inserts of all commits, commit by commit, stopping at the first failure |
| Pipeline.StopsAppend | lib/funcstats.js:201-207 | a run that completed over one list, followed by a run over the next, is a run over both |
| Pipeline.StopsDone | lib/funcstats.js:196-211 | a run reports no error exactly when every insert of the list succeeds |
| Pipeline.StopsUnique | lib/funcstats.js:171-212 | the rows issued and the error are determined by the insert answers |
| Pipeline.ProjectRowsCount | lib/funcstats.js:171-199 | the rows number the functions over all blobs of all commits |
| Pipeline.ProjectRowsMembers | lib/funcstats.js:177-195 | a row belongs to a project's rows exactly when it copies one of its commits, one of that commit's blobs and one function of that blob |
| Pipeline.CommitRowsMembers | lib/funcstats.js:174-195 | a row belongs to a commit's rows exactly when it is built from one of its blobs and a function of that blob |
| Pipeline.BlobRowsMembers | lib/funcstats.js:176-195 | a row belongs to a blob's rows exactly when it is built from one of its functions |
| Series.GroupRows | lib/funcstats.js:51-81 | the loop yields the entries of the rows that parse, one per maximal run of one project |
| Series.ScanRow | lib/funcstats.js:54-78 | one pass keeps the loop's invariant: the entries of the rows seen, and the last entry's project |
| Series.AddEntry | lib/funcstats.js:62-72 | a row opens a new entry unless it has the project of the last one, to which it is then appended |
| Series.CommitDataEntries | lib/funcstats.js:44-79 | for rows ordered by project: one entry per project, neighbours differ, none is empty, and read in order they list every kept row under its own project |
| Series.GroupedExpand | lib/funcstats.js:62-72 | no function is lost or moved by the grouping |
| Series.GroupedProjects | lib/funcstats.js:64-69 | the entries' projects are the projects of the maximal runs |
| Series.RunsDistinct | lib/funcstats.js:44 | rows ordered by project have one run per project |
| Series.KeptParse | lib/funcstats.js:54-61 | a row is kept exactly when it is a row whose data parses |
| Series.KeptClustered | lib/funcstats.js:54-61 | skipping rows keeps the rows of one project together |
| Series.GroupedNonEmpty | lib/funcstats.js:68 | every entry lists at least one function |
| Series.AsWrittenWhenAllParse | lib/funcstats.js:51-81 | when every row parses and the first project is not empty, the text the loop builds is the JSON of the entries |
| Series.SkippedFirstRowBreaksText | lib/funcstats.js:64-67 | for the rows [bad, good], where the first row's data is not JSON, the output starts with `[]},`, before any entry is open |
| Series.SkippedLastRowBreaksText | lib/funcstats.js:74-76 | for the rows [good, bad], where the last row's data is not JSON, the last entry is left unclosed |
| Network.Graph.constructor | public/vizualization.js:10-11 | the page starts with no nodes and an empty index |
| Network.Graph.UpdateNetwork | public/vizualization.js:29-69 | on an error nothing changes and no links are built; otherwise the nodes gain the unseen names, the index stays exact, and one link per membership joins its user's node to its project's |
| Network.BuildNodes | public/vizualization.js:46-62 | the loop interns every user and project and keeps the index exact |
| Network.BuildLinks | public/vizualization.js:64-69 | one link per membership, in order, from the user's node to the project's node |
| Network.InternedContains | public/vizualization.js:46-62 | every user and every project of the data has a node afterwards |
| Network.InternedDistinct | public/vizualization.js:47-55 | no name gets two nodes, whether it is seen as a user or as a project |
| Network.InternedExtends | public/vizualization.js:48-56 | nodes are only appended: earlier nodes keep their positions |
| Network.InternedFromData | public/vizualization.js:48-60 | every added node is a membership's user, with its gravatar, or a membership's project |
| Network.InternedIdempotent | public/vizualization.js:46-62 | fetching the same data again adds no node |
| Network.IndexUnique | public/vizualization.js:53-60 | the index is determined by the nodes |
| Network.IndexedDistinct | public/vizualization.js:47-60 | an exact index exists only for nodes with distinct names |
| LineFocus.Page.constructor | public/vizualization.js:182 | the page starts with no lock, nothing highlighted, no details and no markers |
| LineFocus.Page.OnMouseOver | public/vizualization.js:407-479 | the page state becomes `MouseOver` of the old state |
| LineFocus.Page.OnMouseOut | public/vizualization.js:481-515 | the page state becomes `MouseOut` of the old state |
| LineFocus.Page.OnClick | public/vizualization.js:387-405 | the page state becomes `Click` of the old state, including the replayed `onmouseout` of the old lock |
| LineFocus.ClickLockedUnlocks | public/vizualization.js:394-395 | clicking the locked line unlocks it and changes nothing else |
| LineFocus.ClickOtherLocks | public/vizualization.js:397-402 | clicking another line locks it; the old locked line loses its highlight, the details show the new line, and only its markers remain |
| LineFocus.ClickTwiceUnlocks | public/vizualization.js:394-402 | a second click on the same line undoes the lock the first took |
| LineFocus.MouseOutLockedKeeps | public/vizualization.js:488-491 | leaving the locked line changes nothing |
| LineFocus.MouseOutRestoresLock | public/vizualization.js:493-513 | leaving another line while a lock is held restores the locked line's details and exactly its markers, each unchanged |
| LineFocus.MouseOverShows | public/vizualization.js:414-462 | hovering highlights the line, shows its details and gives every point a marker |
| LineFocus.HoverRoundTripUnlocked | public/vizualization.js:407-513 | with no lock, hovering and leaving a line clears the details and every marker |
| LineFocus.HoverRoundTripLocked | public/vizualization.js:407-513 | with a lock held, hovering and leaving another line restores the markers exactly |
| LineFocus.ShownPreserved | public/vizualization.js:387-513 | every handler keeps the locked line's markers on the page, each under its own key |
| LineFocus.EnterFacts | public/vizualization.js:425-462 | `enter()` adds a marker for each new key, leaves existing ones, and a new marker shows a point of the line |
| LineFocus.ExitFacts | public/vizualization.js:510-513 | `exit().remove()` keeps exactly the markers whose key the lock's points have |
| JsText.JoinSplit | lib/funcstats.js:388 | `split` loses nothing: joining the pieces with the separator gives the string back |
| JsText.SplitJoin | lib/funcstats.js:311-318 | splitting at a run of one character gives back the parts it joined, when no part holds the run and none but the last ends in that character |
| JsText.TrimWrapped | lib/funcstats.js:318-323 | `trim` removes exactly the white space around trimmed text |
| JsText.ToNumberDecimal | lib/funcstats.js:330 | a timestamp printed in decimal reads back as its value |

## Left out

- Concurrency is not modelled. `async.forEachLimit`, run with at most 7 at a time, and `async.forEach` are modelled as sequential loops in list order. With concurrency the inserts can interleave: commits (line 171), a commit's blobs (line 174) and a blob's functions (line 176) each run up to 7 at a time. After the first failure, succeeding siblings still let `forEachLimit` start more items, so more rows may be issued after the failing one. The sentiment pass (line 371) uses the unlimited `async.forEach`. `Pipeline.StopsAtFirstError` describes only the sequential order.
- Pipeline.AddProject takes the insert answers as a function of the row, so two equal rows get the same outcome. A database that accepts a row and then rejects an equal row is not expressed; no proved property depends on this.
- I/O is not modelled: the git process, `find`, `mkdir`, the clone, saikuro's process and file reads, MySQL connections and `console.log`. Their outputs are parameters. `buffer = buffer + data` (line 360) decodes each standard-output chunk on its own, so a multi-byte UTF-8 character split across two chunks is corrupted before parsing; History.LogReader.OnData takes chunks as already decoded text and cannot show this.
- `md5`, `strftime`, the `sentiment` module and `JSON.parse` are external code and are parameters.
  - `Row` keeps the commit's `Time` rather than the three formatted date columns.
  - The gravatar is computed by a parameter applied to the trimmed address, so lower-casing is part of that parameter.
- Pipeline.AddProject does not model `addProjectCollaborators` (lines 163, 238-279). `addProject` calls it on every call, even for a project already present or one whose download fails. It runs its own `INSERT IGNORE` into `users` (line 244) and into `user_projects` (line 256) for each GitHub collaborator, and its errors are ignored, because the callback at line 163 is empty. The model's inserts are only those into `commits`.
- `addUserRepos` (lines 132-160) is not modelled: it only talks to GitHub and calls `addProject`.
- Pipeline.AddProject does not model the `getConnection` errors that the source ignores; with them, `connection` is undefined and the callback throws.
- History.GetCommits does not model how errors change the callback.
  - A sentiment error at line 373 is not modelled; the scorer is total.
  - A `find` error at line 386 is the `None` listing.
- `getGraphData`, `downloadProject` and the rest of the D3 drawing (scales, axes, the force layout, images and attributes) are outside the modelled core.
- The `results.length < 1` test at `public/vizualization.js:38` is never true, because `results` is an object with no `length`. It is therefore not modelled.
- LineFocus.Page does not model a line's identity beyond its `id`. The source compares `data` arrays by reference.
- LineFocus.Page does not model the marker images and labels, only which points have markers.
- Whether a line's group is visible (opacity 1) is a parameter of each handler.
- JsText.ToNumber models `Number` only for white space around optionally signed decimal digits. Fractions, exponents and hexadecimal come out as NaN (`None`), and git's `%at` never prints those.
- Integers are unbounded. A JavaScript number is a double, so integers above 2^53 lose precision. That matters only beyond the time range a `Date` holds, and that range (8.64e15 ms) is modelled by `MAX_TIME`.
- Object keys such as `__proto__` are treated like any other name in `nodeIndexes`.
- Series.GroupRows does not model an empty first project name. For such a name the source appends `,` plus the function to `[` without opening an entry. `AddEntry` opens one, and `AsWrittenWhenAllParse` assumes a non-empty first project.
- The model keeps these behaviours of the code, which a reader might not expect:
  - A block needs three sections, not two.
  - A path listed twice in one commit stays twice (`Transcript.RepeatedPathKept`).
  - The last commit's blobs are replaced by the snapshot, not extended.
  - The `find` output ends in a line break, so the snapshot's last blob has the empty path.
  - A commit with an empty author email is dropped without a word: its header trims to three lines, and the test at lines 323-325 skips it. `Transcript.WellFormedEntry` requires a non-empty email for this reason.

## Findings

| source | as written | input that shows it | evidently intended | confidence | as-written member | corrected member |
|---|---|---|---|---|---|---|
| lib/funcstats.js:438 | `funcitons[j].complexity += …` names an undefined variable. The `ReferenceError` is swallowed by the `catch` at line 447, so the first repeated name ends the extraction. | records a(3,10), a(5,4), b(2,1): answer a(3,10) | merge repeated names by adding complexity and lines, as the comment at lines 434-435 says: a(8,14), b(2,1) | not executed | Complexity.AsWrittenLosesRecords | Complexity.ExtractFunctions |
| lib/funcstats.js:65-67 | the closing `]},` is guarded by `i !== 0`, which counts skipped rows | first row's data not JSON, second row fine: output starts `[]},{"project":…` | close an entry only when one is open | not executed | Series.SkippedFirstRowBreaksText | Series.GroupRows |
| lib/funcstats.js:74-76 | the last entry is closed only when `i === result2.length-1`, which a skipped last row never reaches | first row fine, last row's data not JSON: output ends `…}]` without `]}` | close the last entry after the loop | not executed | Series.SkippedLastRowBreaksText | Series.GroupRows |
