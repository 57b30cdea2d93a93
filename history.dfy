/**
 * The history reader of `getCommits` (lib/funcstats.js:303-404): git's transcript is cut
 * into one block per commit at a banner of 99 '=' characters, each block into header,
 * message and change list at a separator of 99 '-' characters; the change lines give the
 * blobs, deletions (the all-zero id) are dropped, every commit then gets its message's
 * sentiment score, and the last commit's blobs are replaced by one working-tree blob per
 * line of a file listing.
 *
 * The transcript arrives as the chunks git writes to standard output; the sentiment scorer
 * and the output of `find * -type f` are parameters.
 */
module History {
  import opened Wrappers
  import opened JsText

  /** The commit banner of the `--pretty` format (line 305) and of the split at line 311. */
  const BANNER: string := Repeat('=', 99)
  /** The section separator of the `--pretty` format (line 305) and of the split at line 318. */
  const SEPARATOR: string := Repeat('-', 99)
  /** The content id git prints for the missing side of a change: a deletion (line 350). */
  const ZERO_ID: string := "0000000000000000000000000000000000000000"

  /** The largest time value a JavaScript `Date` holds, in milliseconds. */
  const MAX_TIME: int := 8_640_000_000_000_000

  /** A JavaScript `Date`: milliseconds since the epoch, or the invalid date. */
  datatype Time = Millis(ms: int) | InvalidDate

  /** `{file, sha}`; `sha` is `null` for a blob to be read from the working tree. */
  datatype Blob = Blob(file: string, sha: Option<string>)

  /** `{sha, date, name, email, message, blobs, sentiment}`; `sentiment` is set after parsing. */
  datatype Commit = Commit(
    sha: string, date: Time, name: string, email: string, message: string,
    blobs: seq<Blob>, sentiment: Option<int>)

  // ---------------------------------------------------------------------------
  // the parser (flushBuffer, lines 309-357)

  /** `new Date(field * 1000)` (line 330). */
  function DateOfSeconds(field: string): Time {
    match ToNumber(field)
    case None => InvalidDate
    case Some(n) => if -MAX_TIME <= n * 1000 <= MAX_TIME then Millis(n * 1000) else InvalidDate
  }

  /** The blob a change line contributes (lines 340-352): fields 4 and 6 of a six-field line. */
  function ChangeBlob(line: string): Option<Blob> {
    var fields := SplitBlanks(line);
    if |fields| != 6 || fields[3] == ZERO_ID then None else Some(Blob(fields[5], Some(fields[3])))
  }

  /** What each line of a change list contributes. */
  function ChangeBlobs(lines: seq<string>): seq<Option<Blob>> {
    seq(|lines|, k requires 0 <= k < |lines| => ChangeBlob(lines[k]))
  }

  /** The blobs of a change list, in line order. */
  function BlobsOf(lines: seq<string>): seq<Blob> {
    Somes(ChangeBlobs(lines))
  }

  /** The commit a banner-delimited block yields, if any (lines 318-335, 337). */
  function ParseBody(body: string): Option<Commit> {
    var segments := Split(Trim(body), SEPARATOR);
    if |segments| < 3 then None
    else
      var header := Split(Trim(segments[0]), "\n");
      if |header| < 4 then None
      else
        Some(Commit(header[0], DateOfSeconds(header[1]), header[2], header[3], Trim(segments[1]),
                    BlobsOf(Split(Trim(segments[2]), "\n")), None))
  }

  /** What each block yields. */
  function ParseResults(bodies: seq<string>): seq<Option<Commit>> {
    seq(|bodies|, k requires 0 <= k < |bodies| => ParseBody(bodies[k]))
  }

  /** The commits of a list of blocks, in block order. */
  function ParseBodies(bodies: seq<string>): seq<Commit> {
    Somes(ParseResults(bodies))
  }

  /** Blocks are read independently of each other. */
  lemma ParseBodiesAppend(a: seq<string>, b: seq<string>)
    ensures ParseBodies(a + b) == ParseBodies(a) + ParseBodies(b)
  {
    var ra, rb, rab := ParseResults(a), ParseResults(b), ParseResults(a + b);
    forall k | 0 <= k < |rab| ensures rab[k] == (ra + rb)[k] {
      if k < |a| {
        assert (a + b)[k] == a[k];
        assert rab[k] == ra[k];
      } else {
        assert (a + b)[k] == b[k - |a|];
        assert rab[k] == rb[k - |a|];
      }
    }
    assert rab == ra + rb;
    SomesAppend(ParseResults(a), ParseResults(b));
  }

  /** A block with the three sections and the four header lines a commit needs (lines 318-326). */
  predicate WellShaped(body: string) {
    var segments := Split(Trim(body), SEPARATOR);
    |segments| >= 3 && |Split(Trim(segments[0]), "\n")| >= 4
  }

  /** The number of well-shaped blocks. */
  function ShapedCount(bodies: seq<string>): nat {
    if bodies == [] then 0
    else ShapedCount(bodies[..|bodies| - 1]) + (if WellShaped(bodies[|bodies| - 1]) then 1 else 0)
  }

  /** One commit per well-shaped block: every other block is dropped without an error. */
  lemma {:induction false} ParsedCount(bodies: seq<string>)
    ensures |ParseBodies(bodies)| == ShapedCount(bodies)
  {
    if bodies != [] {
      var n := |bodies| - 1;
      var xs := ParseResults(bodies);
      ParsedCount(bodies[..n]);
      assert xs[..n] == ParseResults(bodies[..n]);
      assert Somes(xs) == Somes(xs[..n]) + Keep(xs[n]);
    }
  }

  /** What `flushBuffer` appends to `commits` for the whole buffer. */
  function ParseTranscript(buffer: string): seq<Commit> {
    ParseBodies(Split(buffer, BANNER))
  }

  // ---------------------------------------------------------------------------
  // sentiment (lines 371-377) and the final snapshot (lines 381-399)

  /** Every commit with its message's score attached. */
  function Scored(commits: seq<Commit>, score: string -> int): (r: seq<Commit>)
    ensures |r| == |commits|
    ensures forall k :: 0 <= k < |r| ==>
      r[k] == commits[k].(sentiment := Some(score(commits[k].message)))
  {
    if commits == [] then []
    else
      var c := commits[|commits| - 1];
      Scored(commits[..|commits| - 1], score) + [c.(sentiment := Some(score(c.message)))]
  }

  /** One working-tree blob (`sha: null`) per listed file, in listing order. */
  function WorkingTreeBlobs(files: seq<string>): (r: seq<Blob>)
    ensures |r| == |files|
    ensures forall k :: 0 <= k < |r| ==> r[k] == Blob(files[k], None)
  {
    if files == [] then [] else WorkingTreeBlobs(files[..|files| - 1]) + [Blob(files[|files| - 1], None)]
  }

  /**
   * The snapshot step: with no commits, or when the listing failed, nothing changes;
   * otherwise only the last commit changes, its blobs replaced by the listing's entries.
   */
  function Snapshot(commits: seq<Commit>, listing: Option<string>): (r: seq<Commit>)
    ensures |r| == |commits|
    ensures commits == [] || listing.None? ==> r == commits
    ensures commits != [] && listing.Some? ==>
      && r[..|r| - 1] == commits[..|commits| - 1]
      && r[|r| - 1] == commits[|commits| - 1].(blobs := WorkingTreeBlobs(Split(listing.value, "\n")))
  {
    if commits == [] || listing.None? then commits
    else
      var last := commits[|commits| - 1];
      commits[..|commits| - 1] + [last.(blobs := WorkingTreeBlobs(Split(listing.value, "\n")))]
  }

  function Files(blobs: seq<Blob>): (r: seq<string>)
    ensures |r| == |blobs| && forall k :: 0 <= k < |r| ==> r[k] == blobs[k].file
  {
    if blobs == [] then [] else Files(blobs[..|blobs| - 1]) + [blobs[|blobs| - 1].file]
  }

  /** The last commit's snapshot lists exactly the output of `find`: joined by newlines it is that output. */
  lemma SnapshotListsFiles(commits: seq<Commit>, listing: string)
    requires commits != []
    ensures var r := Snapshot(commits, Some(listing)); Join(Files(r[|r| - 1].blobs), "\n") == listing
  {
    var r := Snapshot(commits, Some(listing));
    var files := Split(listing, "\n");
    assert Files(r[|r| - 1].blobs) == files;
    JoinSplit(listing, "\n");
  }

  /** The concatenation of the chunks git wrote (`buffer = buffer + data`, line 360). */
  function Concat(chunks: seq<string>): string {
    if chunks == [] then [] else Concat(chunks[..|chunks| - 1]) + chunks[|chunks| - 1]
  }

  // ---------------------------------------------------------------------------
  // the reader: the closure state of one getCommits call

  /** `buffer` and `commits` of one `getCommits` call (line 307) and the handlers that change them. */
  class LogReader {
    var buffer: string
    var commits: seq<Commit>

    constructor ()
      ensures buffer == [] && commits == []
    {
      buffer := [];
      commits := [];
    }

    /** `git.stdout.on('data')` (lines 359-361). */
    method OnData(data: string)
      modifies this`buffer
      ensures buffer == old(buffer) + data
    {
      buffer := buffer + data;
    }

    /** `flushBuffer` (lines 309-357): every block of the buffer that parses adds one commit. */
    method FlushBuffer()
      modifies this`commits
      ensures commits == old(commits) + ParseTranscript(buffer)
    {
      var parsed := ParseBlocks(buffer);
      commits := commits + parsed;
    }

    /** The sentiment pass (lines 371-377): `commit.sentiment = result.score` for every commit. */
    method ScoreSentiment(score: string -> int)
      modifies this`commits
      ensures commits == Scored(old(commits), score)
    {
      var scored := commits;
      var i := 0;
      while i < |scored|
        invariant 0 <= i <= |scored| && |scored| == |commits|
        invariant forall k :: 0 <= k < i ==> scored[k] == commits[k].(sentiment := Some(score(commits[k].message)))
        invariant forall k :: i <= k < |scored| ==> scored[k] == commits[k]
      {
        scored := scored[i := scored[i].(sentiment := Some(score(scored[i].message)))];
        i := i + 1;
      }
      commits := scored;
    }

    /** The `find` callback (lines 381-399). */
    method ApplySnapshot(listing: Option<string>)
      modifies this`commits
      ensures commits == Snapshot(old(commits), listing)
    {
      if commits == [] {
        return;
      }
      if listing.None? {
        return;
      }
      var files := Split(listing.value, "\n");
      var finalBlobs := [];
      for i := 0 to |files|
        invariant finalBlobs == WorkingTreeBlobs(files[..i])
      {
        assert files[..i + 1][..i] == files[..i];
        finalBlobs := finalBlobs + [Blob(files[i], None)];
      }
      PrefixAll(files);
      commits := commits[|commits| - 1 := commits[|commits| - 1].(blobs := finalBlobs)];
    }
  }

  /** The `forEach` over the blocks of the buffer in `flushBuffer` (lines 310-356). */
  method ParseBlocks(buffer: string) returns (parsed: seq<Commit>)
    ensures parsed == ParseTranscript(buffer)
  {
    var bodies := Split(buffer, BANNER);
    ghost var results := ParseResults(bodies);
    parsed := [];
    var i := 0;
    while i < |bodies|
      invariant 0 <= i <= |bodies|
      invariant parsed == Somes(results[..i])
    {
      SomesPrefix(results, i);
      var block := ParseBlock(bodies[i]);
      if block.Some? {
        parsed := parsed + [block.value];
      }
      i := i + 1;
    }
    assert results[..i] == results;
  }

  /** The body of the `forEach` in `flushBuffer` (lines 312-355): one block, or `None` when it is skipped. */
  method ParseBlock(body: string) returns (parsed: Option<Commit>)
    ensures parsed == ParseBody(body)
  {
    var segments := Split(Trim(body), SEPARATOR);
    if |segments| < 3 {
      return None;
    }
    var header := Split(Trim(segments[0]), "\n");
    if |header| < 4 {
      return None;
    }
    var blobs := CollectBlobs(Split(Trim(segments[2]), "\n"));
    return Some(Commit(header[0], DateOfSeconds(header[1]), header[2], header[3],
                       Trim(segments[1]), blobs, None));
  }

  /** The inner loop of `flushBuffer` (lines 337-353): the blobs of the change lines. */
  method CollectBlobs(lines: seq<string>) returns (blobs: seq<Blob>)
    ensures blobs == BlobsOf(lines)
  {
    ghost var found := ChangeBlobs(lines);
    blobs := [];
    for j := 0 to |lines|
      invariant blobs == Somes(found[..j])
    {
      SomesPrefix(found, j);
      var fields := SplitBlanks(lines[j]);
      if |fields| != 6 {
        continue;
      }
      var blob := Blob(fields[5], Some(fields[3]));
      if fields[3] != ZERO_ID {
        blobs := blobs + [blob];
      }
    }
    PrefixAll(found);
  }

  /** A fresh reader fed every chunk of git's standard output in order (lines 359-361). */
  method ReadOutput(chunks: seq<string>) returns (reader: LogReader)
    ensures fresh(reader) && reader.buffer == Concat(chunks) && reader.commits == []
  {
    reader := new LogReader();
    for i := 0 to |chunks|
      invariant fresh(reader)
      invariant reader.buffer == Concat(chunks[..i]) && reader.commits == []
    {
      assert chunks[..i + 1][..i] == chunks[..i];
      reader.OnData(chunks[i]);
    }
    PrefixAll(chunks);
  }

  /**
   * `getCommits` from git's output to its callback: read every chunk, flush, score, then
   * take the snapshot from the listing (`None` when `find` failed).
   */
  method GetCommits(chunks: seq<string>, score: string -> int, listing: Option<string>)
    returns (commits: seq<Commit>)
    ensures commits == Snapshot(Scored(ParseTranscript(Concat(chunks)), score), listing)
  {
    var reader := ReadOutput(chunks);
    reader.FlushBuffer();
    ghost var parsed := reader.commits;
    assert parsed == ParseTranscript(Concat(chunks));
    reader.ScoreSentiment(score);
    ghost var scored := reader.commits;
    assert scored == Scored(parsed, score);
    reader.ApplySnapshot(listing);
    commits := reader.commits;
    assert commits == Snapshot(scored, listing);
  }

  // ---------------------------------------------------------------------------
  // what the parser keeps

  /** A change line contributes only the new side of a change that does not delete the path. */
  lemma BlobsOfAreAdditions(lines: seq<string>)
    ensures forall b :: b in BlobsOf(lines) ==> b.sha.Some? && b.sha.value != ZERO_ID
  {
    forall b | b in BlobsOf(lines) ensures b.sha.Some? && b.sha.value != ZERO_ID {
      SomesMembers(ChangeBlobs(lines), b);
    }
  }

  /** No parsed blob is a deletion: every one carries a content id other than the zero id. */
  lemma ParsedBlobsAreAdditions(bodies: seq<string>)
    ensures forall c, b :: c in ParseBodies(bodies) && b in c.blobs ==> b.sha.Some? && b.sha.value != ZERO_ID
  {
    forall c, b | c in ParseBodies(bodies) && b in c.blobs ensures b.sha.Some? && b.sha.value != ZERO_ID {
      SomesMembers(ParseResults(bodies), c);
      var k :| 0 <= k < |bodies| && ParseBody(bodies[k]) == Some(c);
      var segments := Split(Trim(bodies[k]), SEPARATOR);
      BlobsOfAreAdditions(Split(Trim(segments[2]), "\n"));
    }
  }
}
