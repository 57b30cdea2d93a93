/**
 * `addProject` (lib/funcstats.js:162-236), run sequentially: a project already in the
 * `commits` table is not touched; otherwise it is downloaded, its history read, and one
 * row inserted per (commit, blob, function) triple, the first failing insert ending the
 * run with its error.
 *
 * The database, the download and the analyzer are outside the model: the answer of the
 * existence query, the download's error, the history `getCommits` returns, the analyzer
 * and the error each insert would get are parameters, and the inserts issued are returned.
 */
module Pipeline {
  import opened Wrappers
  import opened JsText
  import opened History
  import opened Complexity

  /** One row of the `commits` table (lines 179-195). */
  datatype Row = Row(
    project: string, sha: string, date: Time, userName: string, userEmail: string,
    userGravatar: string, commitMessage: string, sentiment: Option<int>,
    file: string, language: string, func: string, complexity: int, lines: int)

  /** The answer of the existence query (lines 217-222): its error, or the number of rows found. */
  datatype QueryResult = QueryFailed(error: string) | Found(count: nat)

  /** What `addProject` passes to its callback: an error, or `{done: 1}`. */
  datatype Outcome = Failed(error: string) | Done

  /** The row for one function of one blob of one commit; `gravatar` stands for `md5` of the lower-cased address. */
  function RowOf(project: string, gravatar: string -> string, c: Commit, b: Blob, f: Function): Row {
    Row(project, c.sha, c.date, c.name, c.email, gravatar(Trim(c.email)), c.message, c.sentiment,
        b.file, f.language, f.name, f.complexity, f.lines)
  }

  /** The rows of one blob, one per function the analyzer reports, in order. */
  function BlobRows(project: string, gravatar: string -> string, c: Commit, b: Blob, functions: seq<Function>): (r: seq<Row>)
    ensures |r| == |functions|
  {
    seq(|functions|, k requires 0 <= k < |functions| => RowOf(project, gravatar, c, b, functions[k]))
  }

  /** The functions of a blob (line 175). */
  function FunctionsOf(project: string, analyze: AnalyzerInput -> AnalyzerOutput, b: Blob): seq<Function> {
    Measured(project, b.file, b.sha, analyze)
  }

  /** The rows of the blobs `blobs` of commit `c`, blob by blob. */
  function CommitRows(project: string, gravatar: string -> string, analyze: AnalyzerInput -> AnalyzerOutput,
                      c: Commit, blobs: seq<Blob>): seq<Row>
  {
    if blobs == [] then []
    else
      var b := blobs[|blobs| - 1];
      CommitRows(project, gravatar, analyze, c, blobs[..|blobs| - 1]) + BlobRows(project, gravatar, c, b, FunctionsOf(project, analyze, b))
  }

  /** Every row the history of a project gives, commit by commit. */
  function ProjectRows(project: string, gravatar: string -> string, analyze: AnalyzerInput -> AnalyzerOutput,
                       commits: seq<Commit>): seq<Row>
  {
    if commits == [] then []
    else
      var c := commits[|commits| - 1];
      ProjectRows(project, gravatar, analyze, commits[..|commits| - 1]) + CommitRows(project, gravatar, analyze, c, c.blobs)
  }

  /**
   * `issued` is what a run that inserts `all` in order and stops at the first error issues,
   * and `error` is that error: either every insert succeeded and all were issued, or the
   * last one issued failed with `error` and every earlier one succeeded.
   */
  predicate StopsAtFirstError(all: seq<Row>, issued: seq<Row>, error: Option<string>, insert: Row -> Option<string>) {
    && issued <= all
    && (forall k :: 0 <= k < |issued| - 1 ==> insert(issued[k]).None?)
    && (if error.None? then issued == all && (issued == [] || insert(issued[|issued| - 1]).None?)
        else issued != [] && insert(issued[|issued| - 1]) == error)
  }

  // ---------------------------------------------------------------------------
  // the runs

  /** The innermost `forEachLimit` (lines 176-203): one insert per function until one fails. */
  method InsertFunctions(project: string, gravatar: string -> string, commit: Commit, blob: Blob,
                         functions: seq<Function>, insert: Row -> Option<string>)
    returns (issued: seq<Row>, error: Option<string>)
    ensures StopsAtFirstError(BlobRows(project, gravatar, commit, blob, functions), issued, error, insert)
  {
    ghost var all := BlobRows(project, gravatar, commit, blob, functions);
    issued := [];
    for k := 0 to |functions|
      invariant issued == all[..k]
      invariant forall i :: 0 <= i < k ==> insert(all[i]).None?
    {
      var data := RowOf(project, gravatar, commit, blob, functions[k]);
      issued := issued + [data];
      var failure := insert(data);
      if failure.Some? {
        assert issued == all[..k + 1];
        return issued, failure;
      }
    }
    PrefixAll(all);
    return issued, None;
  }

  /** The `forEachLimit` over the blobs of one commit (lines 174-207). */
  method InsertBlobs(project: string, gravatar: string -> string, analyze: AnalyzerInput -> AnalyzerOutput,
                     commit: Commit, insert: Row -> Option<string>)
    returns (issued: seq<Row>, error: Option<string>)
    ensures StopsAtFirstError(CommitRows(project, gravatar, analyze, commit, commit.blobs), issued, error, insert)
  {
    var blobs := commit.blobs;
    issued := [];
    for j := 0 to |blobs|
      invariant StopsAtFirstError(CommitRows(project, gravatar, analyze, commit, blobs[..j]), issued, None, insert)
    {
      var blob := blobs[j];
      var functions := GetComplexity(project, blob.file, blob.sha, analyze);
      CommitRowsStep(project, gravatar, analyze, commit, blobs, j);
      var more, failure := InsertFunctions(project, gravatar, commit, blob, functions, insert);
      StopsAppend(CommitRows(project, gravatar, analyze, commit, blobs[..j]),
                  BlobRows(project, gravatar, commit, blob, functions), issued, more, failure, insert);
      issued := issued + more;
      if failure.Some? {
        CommitRowsPrefix(project, gravatar, analyze, commit, blobs, j + 1);
        StopsExtend(CommitRows(project, gravatar, analyze, commit, blobs[..j + 1]),
                    CommitRows(project, gravatar, analyze, commit, blobs), issued, failure, insert);
        return issued, failure;
      }
    }
    PrefixAll(blobs);
    return issued, None;
  }

  /** The `forEachLimit` over the commits (lines 171-212). */
  method InsertCommits(project: string, gravatar: string -> string, analyze: AnalyzerInput -> AnalyzerOutput,
                       commits: seq<Commit>, insert: Row -> Option<string>)
    returns (issued: seq<Row>, error: Option<string>)
    ensures StopsAtFirstError(ProjectRows(project, gravatar, analyze, commits), issued, error, insert)
  {
    issued := [];
    for i := 0 to |commits|
      invariant StopsAtFirstError(ProjectRows(project, gravatar, analyze, commits[..i]), issued, None, insert)
    {
      var commit := commits[i];
      assert commits[..i + 1][..i] == commits[..i];
      var more, failure := InsertBlobs(project, gravatar, analyze, commit, insert);
      StopsAppend(ProjectRows(project, gravatar, analyze, commits[..i]),
                  CommitRows(project, gravatar, analyze, commit, commit.blobs), issued, more, failure, insert);
      issued := issued + more;
      if failure.Some? {
        ProjectRowsPrefix(project, gravatar, analyze, commits, i + 1);
        StopsExtend(ProjectRows(project, gravatar, analyze, commits[..i + 1]),
                    ProjectRows(project, gravatar, analyze, commits), issued, failure, insert);
        return issued, failure;
      }
    }
    PrefixAll(commits);
    return issued, None;
  }

  /**
   * `addProject`: a failed existence query is passed on; a project already present, or one
   * whose download fails, is reported done with nothing inserted into `commits`; otherwise the rows of its
   * history are inserted in order until one fails, and that error or done is reported.
   */
  method AddProject(project: string, existing: QueryResult, downloadError: Option<string>,
                    commits: seq<Commit>, analyze: AnalyzerInput -> AnalyzerOutput,
                    gravatar: string -> string, insert: Row -> Option<string>)
    returns (outcome: Outcome, downloaded: bool, issued: seq<Row>)
    ensures existing.QueryFailed? ==> outcome == Failed(existing.error) && !downloaded && issued == []
    ensures existing.Found? && existing.count > 0 ==> outcome == Done && !downloaded && issued == []
    ensures existing == Found(0) ==> downloaded
    ensures existing == Found(0) && downloadError.Some? ==> outcome == Done && issued == []
    ensures existing == Found(0) && downloadError.None? ==>
      StopsAtFirstError(ProjectRows(project, gravatar, analyze, commits), issued,
                        if outcome.Failed? then Some(outcome.error) else None, insert)
  {
    if existing.QueryFailed? {
      return Failed(existing.error), false, [];
    }
    if existing.count != 0 {
      return Done, false, [];
    }
    downloaded := true;
    if downloadError.Some? {
      return Done, downloaded, [];
    }
    var error;
    issued, error := InsertCommits(project, gravatar, analyze, commits, insert);
    outcome := if error.Some? then Failed(error.value) else Done;
  }

  // ---------------------------------------------------------------------------
  // stopping at the first error

  /** A run over `a` that ran to the end, followed by a run over `b`, is a run over `a + b`. */
  lemma StopsAppend(a: seq<Row>, b: seq<Row>, ia: seq<Row>, ib: seq<Row>, e: Option<string>, insert: Row -> Option<string>)
    requires StopsAtFirstError(a, ia, None, insert) && StopsAtFirstError(b, ib, e, insert)
    ensures StopsAtFirstError(a + b, ia + ib, e, insert)
  {
    var all, issued := a + b, ia + ib;
    assert ia == a;
    assert issued <= all by {
      assert ib == b[..|ib|];
      assert issued == all[..|issued|];
    }
    forall k | 0 <= k < |issued| - 1 ensures insert(issued[k]).None? {
      if k >= |ia| {
        assert issued[k] == ib[k - |ia|];
      } else if k == |ia| - 1 {
        assert issued[k] == ia[|ia| - 1];
      }
    }
    if ib == [] {
      assert issued == ia;
    }
  }

  /** A run that stopped at an error inside a prefix is the run over the whole list. */
  lemma StopsExtend(a: seq<Row>, all: seq<Row>, issued: seq<Row>, e: Option<string>, insert: Row -> Option<string>)
    requires StopsAtFirstError(a, issued, e, insert) && e.Some? && a <= all
    ensures StopsAtFirstError(all, issued, e, insert)
  {
    assert issued == a[..|issued|] == all[..|issued|];
  }

  /** One more blob adds its rows at the end. */
  lemma CommitRowsStep(project: string, gravatar: string -> string, analyze: AnalyzerInput -> AnalyzerOutput,
                       c: Commit, blobs: seq<Blob>, j: nat)
    requires j < |blobs|
    ensures CommitRows(project, gravatar, analyze, c, blobs[..j + 1])
         == CommitRows(project, gravatar, analyze, c, blobs[..j]) + BlobRows(project, gravatar, c, blobs[j], FunctionsOf(project, analyze, blobs[j]))
  {
    assert blobs[..j + 1][..j] == blobs[..j];
  }

  /** The rows of a prefix of the blobs come first. */
  lemma {:induction false} CommitRowsPrefix(project: string, gravatar: string -> string, analyze: AnalyzerInput -> AnalyzerOutput,
                                            c: Commit, blobs: seq<Blob>, j: nat)
    requires j <= |blobs|
    ensures CommitRows(project, gravatar, analyze, c, blobs[..j]) <= CommitRows(project, gravatar, analyze, c, blobs)
  {
    if j < |blobs| {
      var init := blobs[..|blobs| - 1];
      assert init[..j] == blobs[..j];
      CommitRowsPrefix(project, gravatar, analyze, c, init, j);
    } else {
      assert blobs[..j] == blobs;
    }
  }

  /** The rows of a prefix of the commits come first. */
  lemma {:induction false} ProjectRowsPrefix(project: string, gravatar: string -> string, analyze: AnalyzerInput -> AnalyzerOutput,
                                             commits: seq<Commit>, i: nat)
    requires i <= |commits|
    ensures ProjectRows(project, gravatar, analyze, commits[..i]) <= ProjectRows(project, gravatar, analyze, commits)
  {
    if i < |commits| {
      var init := commits[..|commits| - 1];
      assert init[..i] == commits[..i];
      ProjectRowsPrefix(project, gravatar, analyze, init, i);
    } else {
      assert commits[..i] == commits;
    }
  }

  // ---------------------------------------------------------------------------
  // what the runs promise

  /** The number of functions the analyzer reports over every blob of `blobs`. */
  function BlobsFunctionCount(project: string, analyze: AnalyzerInput -> AnalyzerOutput, blobs: seq<Blob>): nat {
    if blobs == [] then 0
    else BlobsFunctionCount(project, analyze, blobs[..|blobs| - 1]) + |FunctionsOf(project, analyze, blobs[|blobs| - 1])|
  }

  /** The number of functions over every blob of every commit. */
  function FunctionCount(project: string, analyze: AnalyzerInput -> AnalyzerOutput, commits: seq<Commit>): nat {
    if commits == [] then 0
    else FunctionCount(project, analyze, commits[..|commits| - 1]) + BlobsFunctionCount(project, analyze, commits[|commits| - 1].blobs)
  }

  lemma {:induction false} CommitRowsCount(project: string, gravatar: string -> string, analyze: AnalyzerInput -> AnalyzerOutput,
                                           c: Commit, blobs: seq<Blob>)
    ensures |CommitRows(project, gravatar, analyze, c, blobs)| == BlobsFunctionCount(project, analyze, blobs)
  {
    if blobs != [] {
      CommitRowsCount(project, gravatar, analyze, c, blobs[..|blobs| - 1]);
    }
  }

  /** One insert per (commit, blob, function) triple: the rows number the functions over all blobs of all commits. */
  lemma {:induction false} ProjectRowsCount(project: string, gravatar: string -> string, analyze: AnalyzerInput -> AnalyzerOutput,
                                            commits: seq<Commit>)
    ensures |ProjectRows(project, gravatar, analyze, commits)| == FunctionCount(project, analyze, commits)
  {
    if commits != [] {
      var c := commits[|commits| - 1];
      ProjectRowsCount(project, gravatar, analyze, commits[..|commits| - 1]);
      CommitRowsCount(project, gravatar, analyze, c, c.blobs);
    }
  }

  /** A row of a blob is the row of one of its functions, and each function has its row. */
  lemma BlobRowsMembers(project: string, gravatar: string -> string, c: Commit, b: Blob, fs: seq<Function>, r: Row)
    ensures r in BlobRows(project, gravatar, c, b, fs) <==> exists f :: f in fs && r == RowOf(project, gravatar, c, b, f)
  {
    var rows := BlobRows(project, gravatar, c, b, fs);
    if r in rows {
      var k :| 0 <= k < |rows| && rows[k] == r;
      assert fs[k] in fs;
    }
    if exists f :: f in fs && r == RowOf(project, gravatar, c, b, f) {
      var f :| f in fs && r == RowOf(project, gravatar, c, b, f);
      var k :| 0 <= k < |fs| && fs[k] == f;
      assert rows[k] == r;
    }
  }

  /** A row of a commit is the row of one of its blobs and one of that blob's functions, and each such row is there. */
  lemma {:induction false} CommitRowsMembers(project: string, gravatar: string -> string, analyze: AnalyzerInput -> AnalyzerOutput,
                                             c: Commit, blobs: seq<Blob>, r: Row)
    ensures r in CommitRows(project, gravatar, analyze, c, blobs) <==>
      exists b, f :: b in blobs && f in FunctionsOf(project, analyze, b) && r == RowOf(project, gravatar, c, b, f)
  {
    if blobs != [] {
      var init, last := blobs[..|blobs| - 1], blobs[|blobs| - 1];
      CommitRowsMembers(project, gravatar, analyze, c, init, r);
      BlobRowsMembers(project, gravatar, c, last, FunctionsOf(project, analyze, last), r);
      assert forall b :: b in blobs <==> b in init || b == last by {
        assert blobs == init + [last];
      }
    }
  }

  /**
   * Every row of a project copies the sha, date, author, message and sentiment of one of its
   * commits, the path of one of that commit's blobs and one function of that blob; and every
   * such triple has its row.
   */
  lemma {:induction false} ProjectRowsMembers(project: string, gravatar: string -> string, analyze: AnalyzerInput -> AnalyzerOutput,
                                              commits: seq<Commit>, r: Row)
    ensures r in ProjectRows(project, gravatar, analyze, commits) <==>
      exists c, b, f :: c in commits && b in c.blobs && f in FunctionsOf(project, analyze, b) && r == RowOf(project, gravatar, c, b, f)
  {
    if commits != [] {
      var init, last := commits[..|commits| - 1], commits[|commits| - 1];
      ProjectRowsMembers(project, gravatar, analyze, init, r);
      CommitRowsMembers(project, gravatar, analyze, last, last.blobs, r);
      assert forall c :: c in commits <==> c in init || c == last by {
        assert commits == init + [last];
      }
    }
  }

  /** There is one run per list: the rows issued and the error are determined by the insert answers. */
  lemma StopsUnique(all: seq<Row>, i1: seq<Row>, e1: Option<string>, i2: seq<Row>, e2: Option<string>, insert: Row -> Option<string>)
    requires StopsAtFirstError(all, i1, e1, insert) && StopsAtFirstError(all, i2, e2, insert)
    ensures i1 == i2 && e1 == e2
  {
  }

  /** A run reports no error exactly when every insert of the list succeeds. */
  lemma StopsDone(all: seq<Row>, issued: seq<Row>, e: Option<string>, insert: Row -> Option<string>)
    requires StopsAtFirstError(all, issued, e, insert)
    ensures e.None? <==> forall k :: 0 <= k < |all| ==> insert(all[k]).None?
  {
    if e.None? {
      forall k | 0 <= k < |all| ensures insert(all[k]).None? {
        assert all[k] == issued[k];
      }
    } else {
      assert all[|issued| - 1] == issued[|issued| - 1];
    }
  }
}
