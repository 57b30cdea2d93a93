/**
 * The text git writes for `getCommits` (lib/funcstats.js:305): for every commit the
 * `--pretty` format `<banner>%n%H%n%at%n%an%n%ae%n<separator>%n%B%n<separator>`, a line
 * break, and one raw `diff-tree -r` line per changed path. This is git's text up to white
 * space the reader trims: git leaves an empty line between the second separator and the
 * raw lines, which `Tail` leaves out and the `trim` at line 337 removes. The lemmas show
 * that the reader of History gives back, commit for commit, what git was asked to print.
 */
module Transcript {
  import opened Wrappers
  import opened JsText
  import opened History

  /** One raw change line: `:<old mode> <new mode> <old id> <new id> <status>\t<path>`. */
  datatype Change = Change(
    oldMode: string, newMode: string, oldId: string, newId: string, status: string, path: string)

  /** What git prints of one commit: `%H`, `%at` (seconds), `%an`, `%ae`, `%B` and the changes. */
  datatype LogEntry = LogEntry(
    sha: string, time: nat, name: string, email: string, message: string, changes: seq<Change>)

  // ---------------------------------------------------------------------------
  // rendering

  /** The fields before the tab, the first one with its colon. */
  function ChangeFields(ch: Change): seq<string> {
    [[':'] + ch.oldMode, ch.newMode, ch.oldId, ch.newId, ch.status]
  }

  function ChangeLine(ch: Change): string {
    Join(ChangeFields(ch), " ") + "\t" + ch.path
  }

  function ChangeLines(changes: seq<Change>): (r: seq<string>)
    ensures |r| == |changes|
    ensures forall k :: 0 <= k < |r| ==> r[k] == ChangeLine(changes[k])
  {
    seq(|changes|, k requires 0 <= k < |changes| => ChangeLine(changes[k]))
  }

  function HeaderText(e: LogEntry): string {
    Join([e.sha, Decimal(e.time), e.name, e.email], "\n")
  }

  /**
   * The change list after the second separator: nothing, or a line break and the lines.
   * Git itself puts one more line break there, which the reader's `trim` drops.
   */
  function Tail(changes: seq<Change>): string {
    if changes == [] then [] else "\n" + Join(ChangeLines(changes), "\n")
  }

  /** Header, separator, message, separator, change list. */
  function Block(h: string, m: string, t: string): string {
    h + "\n" + SEPARATOR + "\n" + m + "\n" + SEPARATOR + t
  }

  function Core(e: LogEntry): string {
    Block(HeaderText(e), e.message, Tail(e.changes))
  }

  /** Everything between one banner and the next. */
  function EntryText(e: LogEntry): string {
    "\n" + Core(e) + "\n"
  }

  function Texts(es: seq<LogEntry>): (r: seq<string>)
    ensures |r| == |es|
    ensures forall k :: 0 <= k < |r| ==> r[k] == EntryText(es[k])
  {
    seq(|es|, k requires 0 <= k < |es| => EntryText(es[k]))
  }

  /** The whole transcript: every entry preceded by the banner. */
  function Render(es: seq<LogEntry>): string {
    Join([""] + Texts(es), BANNER)
  }

  // ---------------------------------------------------------------------------
  // what the reader should make of it

  /** The new side of a change, unless the change deletes its path. */
  function KeptBlob(ch: Change): Option<Blob> {
    if ch.newId == ZERO_ID then None else Some(Blob(ch.path, Some(ch.newId)))
  }

  /** The blobs of the changes that do not delete their path, in order. */
  function KeptBlobs(changes: seq<Change>): seq<Blob> {
    Somes(seq(|changes|, k requires 0 <= k < |changes| => KeptBlob(changes[k])))
  }

  function Expected(e: LogEntry): Commit {
    Commit(e.sha, Millis(e.time * 1000), e.name, e.email, Trim(e.message), KeptBlobs(e.changes), None)
  }

  function ExpectedAll(es: seq<LogEntry>): (r: seq<Commit>)
    ensures |r| == |es|
    ensures forall k :: 0 <= k < |r| ==> r[k] == Expected(es[k])
  {
    seq(|es|, k requires 0 <= k < |es| => Expected(es[k]))
  }

  // ---------------------------------------------------------------------------
  // the entries the format can carry unambiguously

  /** Holds neither a banner nor a separator. */
  predicate Clean(s: string) {
    Free(s, SEPARATOR) && Free(s, BANNER)
  }

  /** A non-empty word without white space, as modes, ids, status letters and hashes are. */
  predicate Token(s: string) {
    s != [] && forall i :: 0 <= i < |s| ==> !IsWhite(s[i])
  }

  predicate NoNewline(s: string) {
    forall i :: 0 <= i < |s| ==> s[i] != '\n'
  }

  predicate WellFormedChange(ch: Change) {
    && Token(ch.oldMode) && Token(ch.newMode) && Token(ch.oldId) && Token(ch.newId)
    && Token(ch.status) && Token(ch.path)
    && Clean(ch.oldMode) && Clean(ch.newMode) && Clean(ch.oldId) && Clean(ch.newId)
    && Clean(ch.status) && Clean(ch.path)
  }

  /**
   * A commit whose transcript the reader can take apart: a hash, a timestamp a `Date`
   * can hold, one-line name and address (the address not ending in white space), and no
   * field holding a banner or a separator.
   */
  predicate WellFormedEntry(e: LogEntry) {
    && Token(e.sha) && Clean(e.sha)
    && e.time * 1000 <= MAX_TIME
    && NoNewline(e.name) && Clean(e.name)
    && NoNewline(e.email) && Clean(e.email) && e.email != [] && !IsWhite(e.email[|e.email| - 1])
    && Clean(e.message)
    && forall k :: 0 <= k < |e.changes| ==> WellFormedChange(e.changes[k])
  }

  // ---------------------------------------------------------------------------
  // one change line

  predicate Word(s: string) {
    s != [] && NoBlank(s)
  }

  lemma Assoc(a: string, b: string, c: string)
    ensures a + b + c == a + (b + c)
  {
  }

  lemma SplitBlanksLast(a: string, last: string)
    requires Word(a) && Word(last)
    ensures SplitBlanks(a + "\t" + last) == [a, last]
  {
    SplitBlanksWhole(last);
    SplitBlanksStep(a, '\t', last);
  }

  /** Words joined by spaces, then a tab and a last word, split back into the words. */
  lemma {:induction false} SplitBlanksFields(fields: seq<string>, last: string)
    requires |fields| >= 1 && Word(last)
    requires forall k :: 0 <= k < |fields| ==> Word(fields[k]) && !IsBlank(fields[k][0])
    ensures SplitBlanks(Join(fields, " ") + "\t" + last) == fields + [last]
  {
    if |fields| == 1 {
      SplitBlanksLast(fields[0], last);
    } else {
      var j := Join(fields[1..], " ");
      var rest := j + "\t" + last;
      SplitBlanksFields(fields[1..], last);
      JoinFirst(fields[1..], " ");
      assert rest[0] == fields[1][0];
      calc {
        Join(fields, " ") + "\t" + last;
        fields[0] + " " + j + "\t" + last;
        { Assoc(fields[0] + " ", j, "\t"); }
        fields[0] + " " + (j + "\t") + last;
        { Assoc(fields[0] + " ", j + "\t", last); }
        fields[0] + " " + rest;
      }
      SplitBlanksStep(fields[0], ' ', rest);
      assert [fields[0]] + (fields[1..] + [last]) == fields + [last];
    }
  }

  lemma TokenWord(s: string)
    requires Token(s)
    ensures Word(s) && !IsBlank(s[0])
  {
  }

  /** `split(/[ \t]+/)` takes a change line back apart into its six fields. */
  lemma ChangeLineFields(ch: Change)
    requires WellFormedChange(ch)
    ensures SplitBlanks(ChangeLine(ch)) == ChangeFields(ch) + [ch.path]
  {
    TokenWord(ch.oldMode);
    TokenWord(ch.newMode);
    TokenWord(ch.oldId);
    TokenWord(ch.newId);
    TokenWord(ch.status);
    TokenWord(ch.path);
    assert Word([':'] + ch.oldMode);
    SplitBlanksFields(ChangeFields(ch), ch.path);
  }

  /** A change line yields the blob of its new side, unless the change deletes the path. */
  lemma ChangeLineBlob(ch: Change)
    requires WellFormedChange(ch)
    ensures ChangeBlob(ChangeLine(ch)) == KeptBlob(ch)
  {
    ChangeLineFields(ch);
  }

  /** No run of `c` appears in a change line whose fields hold none. */
  lemma ChangeLineFree(ch: Change, c: char, n: nat)
    requires n >= 1 && c != ' ' && c != '\t' && c != ':'
    requires Free(ch.oldMode, Repeat(c, n)) && Free(ch.newMode, Repeat(c, n)) && Free(ch.oldId, Repeat(c, n))
    requires Free(ch.newId, Repeat(c, n)) && Free(ch.status, Repeat(c, n)) && Free(ch.path, Repeat(c, n))
    ensures Free(ChangeLine(ch), Repeat(c, n))
  {
    var fields := ChangeFields(ch);
    FreeSplice([], ':', ch.oldMode, c, n);
    assert [] + [':'] + ch.oldMode == fields[0];
    FreeJoin(fields, ' ', c, n);
    FreeSplice(Join(fields, " "), '\t', ch.path, c, n);
  }

  lemma TokenFreeOfNewline(s: string)
    requires Token(s)
    ensures Free(s, Repeat('\n', 1))
  {
    FreeOfMissingChar(s, '\n', 1);
  }

  /** The facts about one change line that the change list needs. */
  lemma ChangeLineFacts(ch: Change)
    requires WellFormedChange(ch)
    ensures var l := ChangeLine(ch); l != [] && l[0] == ':' && !IsWhite(l[|l| - 1]) && l[|l| - 1] != '\n'
    ensures Free(ChangeLine(ch), Repeat('\n', 1))
    ensures Free(ChangeLine(ch), SEPARATOR) && Free(ChangeLine(ch), BANNER)
  {
    var l := ChangeLine(ch);
    assert l[|l| - 1] == ch.path[|ch.path| - 1];
    TokenFreeOfNewline(ch.oldMode);
    TokenFreeOfNewline(ch.newMode);
    TokenFreeOfNewline(ch.oldId);
    TokenFreeOfNewline(ch.newId);
    TokenFreeOfNewline(ch.status);
    TokenFreeOfNewline(ch.path);
    ChangeLineFree(ch, '\n', 1);
    ChangeLineFree(ch, '-', 99);
    ChangeLineFree(ch, '=', 99);
  }

  // ---------------------------------------------------------------------------
  // the change list

  lemma ChangeLinesBlobs(changes: seq<Change>)
    requires forall k :: 0 <= k < |changes| ==> WellFormedChange(changes[k])
    ensures BlobsOf(ChangeLines(changes)) == KeptBlobs(changes)
  {
    var found := ChangeBlobs(ChangeLines(changes));
    var kept := seq(|changes|, k requires 0 <= k < |changes| => KeptBlob(changes[k]));
    forall k | 0 <= k < |changes| ensures found[k] == kept[k] {
      ChangeLineBlob(changes[k]);
    }
    assert found == kept;
  }

  /** A path changed twice in one listing gives two blobs, in listing order: none is dropped. */
  lemma RepeatedPathKept(a: Change, b: Change)
    requires WellFormedChange(a) && WellFormedChange(b) && a.path == b.path
    requires a.newId != ZERO_ID && b.newId != ZERO_ID
    ensures BlobsOf(ChangeLines([a, b])) == [Blob(a.path, Some(a.newId)), Blob(a.path, Some(b.newId))]
  {
    var changes := [a, b];
    ChangeLinesBlobs(changes);
    var kept := seq(|changes|, k requires 0 <= k < |changes| => KeptBlob(changes[k]));
    SomesAll(kept, [Blob(a.path, Some(a.newId)), Blob(a.path, Some(b.newId))]);
  }

  /** The facts about every line of a change list. */
  lemma ChangeLinesFacts(changes: seq<Change>)
    requires forall k :: 0 <= k < |changes| ==> WellFormedChange(changes[k])
    ensures var lines := ChangeLines(changes);
      forall k :: 0 <= k < |lines| ==>
        && lines[k] != [] && lines[k][0] == ':' && !IsWhite(lines[k][|lines[k]| - 1])
        && lines[k][|lines[k]| - 1] != '\n'
        && Free(lines[k], "\n") && Free(lines[k], SEPARATOR) && Free(lines[k], BANNER)
  {
    var lines := ChangeLines(changes);
    forall k | 0 <= k < |lines|
      ensures lines[k] != [] && lines[k][0] == ':' && !IsWhite(lines[k][|lines[k]| - 1])
      ensures lines[k][|lines[k]| - 1] != '\n'
      ensures Free(lines[k], "\n") && Free(lines[k], SEPARATOR) && Free(lines[k], BANNER)
    {
      ChangeLineFacts(changes[k]);
      assert Repeat('\n', 1) == "\n";
    }
  }

  /** The joined change lines, free of every marker and trimmed. */
  lemma ChangeBlockFacts(changes: seq<Change>)
    requires changes != []
    requires forall k :: 0 <= k < |changes| ==> WellFormedChange(changes[k])
    ensures var j := Join(ChangeLines(changes), "\n");
      && IsTrimmed(j) && j != [] && !IsWhite(j[|j| - 1])
      && Free(j, SEPARATOR) && Free(j, BANNER)
  {
    var lines := ChangeLines(changes);
    ChangeLinesFacts(changes);
    JoinFirst(lines, "\n");
    JoinLast(lines, "\n");
    FreeJoin(lines, '\n', '-', 99);
    FreeJoin(lines, '\n', '=', 99);
  }

  /** Splitting the joined change lines at line breaks gives back the lines. */
  lemma ChangeBlockSplit(changes: seq<Change>)
    requires changes != []
    requires forall k :: 0 <= k < |changes| ==> WellFormedChange(changes[k])
    ensures Split(Join(ChangeLines(changes), "\n"), "\n") == ChangeLines(changes)
  {
    ChangeLinesFacts(changes);
    SplitJoinChar(ChangeLines(changes), '\n');
  }

  /** The reader gets the kept blobs back from the text after the second separator. */
  lemma TailParses(changes: seq<Change>)
    requires forall k :: 0 <= k < |changes| ==> WellFormedChange(changes[k])
    ensures BlobsOf(Split(Trim(Tail(changes)), "\n")) == KeptBlobs(changes)
  {
    if changes == [] {
      assert Trim([]) == [];
      assert Split([], "\n") == [[]];
      SplitBlanksWhole([]);
      assert [""][..0] == [];
    } else {
      var j := Join(ChangeLines(changes), "\n");
      ChangeBlockFacts(changes);
      ChangeBlockSplit(changes);
      TrimWrapped("\n", j, []);
      assert "\n" + j + [] == Tail(changes);
      ChangeLinesBlobs(changes);
    }
  }

  /** The change list holds no marker. */
  lemma TailFree(changes: seq<Change>)
    requires forall k :: 0 <= k < |changes| ==> WellFormedChange(changes[k])
    ensures Free(Tail(changes), SEPARATOR) && Free(Tail(changes), BANNER)
    ensures Tail(changes) == [] || !IsWhite(Tail(changes)[|Tail(changes)| - 1])
  {
    if changes != [] {
      var j := Join(ChangeLines(changes), "\n");
      ChangeBlockFacts(changes);
      FreeAfterBreak(j, '-', 99);
      FreeAfterBreak(j, '=', 99);
      var t := Tail(changes);
      assert t[|t| - 1] == j[|j| - 1];
    }
  }

  /** A line break in front of a text free of a run of `c` creates no such run. */
  lemma FreeAfterBreak(j: string, c: char, n: nat)
    requires n >= 1 && c != '\n' && Free(j, Repeat(c, n))
    ensures Free("\n" + j, Repeat(c, n))
  {
    FreeSplice([], '\n', j, c, n);
    assert [] + ['\n'] + j == "\n" + j;
  }

  // ---------------------------------------------------------------------------
  // the header

  lemma HeaderFree(e: LogEntry, c: char, n: nat)
    requires n >= 1 && c != '\n' && !IsDigit(c)
    requires Free(e.sha, Repeat(c, n)) && Free(e.name, Repeat(c, n)) && Free(e.email, Repeat(c, n))
    ensures Free(HeaderText(e), Repeat(c, n))
  {
    var parts := [e.sha, Decimal(e.time), e.name, e.email];
    FreeOfMissingChar(Decimal(e.time), c, n);
    assert forall k :: 0 <= k < |parts| ==> Free(parts[k], Repeat(c, n));
    FreeJoin(parts, '\n', c, n);
  }

  lemma NoNewlineFree(s: string)
    requires NoNewline(s)
    ensures Free(s, Repeat('\n', 1)) && (s == [] || s[|s| - 1] != '\n')
  {
    FreeOfMissingChar(s, '\n', 1);
  }

  /** The header is trimmed and its lines are the four fields. */
  lemma HeaderParses(e: LogEntry)
    requires WellFormedEntry(e)
    ensures var h := HeaderText(e); h != [] && IsTrimmed(h) && !IsWhite(h[|h| - 1])
    ensures Split(HeaderText(e), "\n") == [e.sha, Decimal(e.time), e.name, e.email]
  {
    var parts := [e.sha, Decimal(e.time), e.name, e.email];
    JoinFirst(parts, "\n");
    JoinLast(parts, "\n");
    FreeOfMissingChar(e.sha, '\n', 1);
    FreeOfMissingChar(Decimal(e.time), '\n', 1);
    NoNewlineFree(e.name);
    NoNewlineFree(e.email);
    assert Repeat('\n', 1) == "\n";
    SplitJoin(parts, '\n', 1);
  }

  // ---------------------------------------------------------------------------
  // one block

  /** Splitting a block at the separator gives header, message and change list. */
  lemma BlockSegments(h: string, m: string, t: string)
    requires Free(h, SEPARATOR) && Free(m, SEPARATOR) && Free(t, SEPARATOR)
    ensures Split(Block(h, m, t), SEPARATOR) == [h + "\n", "\n" + m + "\n", t]
  {
    FreeSplice(h, '\n', [], '-', 99);
    assert h + ['\n'] + [] == h + "\n";
    FreeSplice([], '\n', m, '-', 99);
    FreeSplice([] + ['\n'] + m, '\n', [], '-', 99);
    assert [] + ['\n'] + m + ['\n'] + [] == "\n" + m + "\n";
    SplitWhole(t, SEPARATOR);
    SplitStep("\n" + m + "\n", t, '-', 99);
    assert Block(h, m, t) == (h + "\n") + SEPARATOR + (("\n" + m + "\n") + SEPARATOR + t);
    SplitStep(h + "\n", ("\n" + m + "\n") + SEPARATOR + t, '-', 99);
  }

  lemma BlockTrimmed(h: string, m: string, t: string)
    requires h != [] && !IsWhite(h[0]) && (t == [] || !IsWhite(t[|t| - 1]))
    ensures IsTrimmed(Block(h, m, t))
  {
    var b := Block(h, m, t);
    assert b[0] == h[0];
    if t == [] {
      assert b[|b| - 1] == SEPARATOR[98];
    } else {
      assert b[|b| - 1] == t[|t| - 1];
    }
  }

  /**
   * What the reader makes of one block between banners: the header's lines give hash,
   * date, name and address, the trimmed middle segment the message, the last the blobs.
   */
  lemma BlockParses(h: string, m: string, t: string)
    requires Free(h, SEPARATOR) && Free(m, SEPARATOR) && Free(t, SEPARATOR)
    requires IsTrimmed(h) && h != [] && (t == [] || !IsWhite(t[|t| - 1]))
    requires |Split(h, "\n")| >= 4
    ensures var lines := Split(h, "\n");
      ParseBody("\n" + Block(h, m, t) + "\n") ==
        Some(Commit(lines[0], DateOfSeconds(lines[1]), lines[2], lines[3], Trim(m),
                    BlobsOf(Split(Trim(t), "\n")), None))
  {
    var body := "\n" + Block(h, m, t) + "\n";
    BlockTrimmed(h, m, t);
    TrimWrapped("\n", Block(h, m, t), "\n");
    BlockSegments(h, m, t);
    TrimWrapped([], h, "\n");
    assert [] + h + "\n" == h + "\n";
    TrimFramed("\n", m, "\n");
    ParseBodyOf(body, h + "\n", "\n" + m + "\n", t);
  }

  /** What the reader makes of a block whose trimmed text splits into exactly three segments. */
  lemma ParseBodyOf(body: string, s0: string, s1: string, s2: string)
    requires Split(Trim(body), SEPARATOR) == [s0, s1, s2] && |Split(Trim(s0), "\n")| >= 4
    ensures var lines := Split(Trim(s0), "\n");
      ParseBody(body) ==
        Some(Commit(lines[0], DateOfSeconds(lines[1]), lines[2], lines[3], Trim(s1),
                    BlobsOf(Split(Trim(s2), "\n")), None))
  {
  }

  /** Each block gives back exactly the commit it was rendered from. */
  lemma EntryParses(e: LogEntry)
    requires WellFormedEntry(e)
    ensures ParseBody(EntryText(e)) == Some(Expected(e))
  {
    var h := HeaderText(e);
    HeaderFree(e, '-', 99);
    HeaderParses(e);
    TailFree(e.changes);
    BlockParses(h, e.message, Tail(e.changes));
    TailParses(e.changes);
    ToNumberDecimal(e.time);
  }

  /** A block whose pieces hold no banner holds none. */
  lemma BlockFree(h: string, m: string, t: string)
    requires Free(h, BANNER) && Free(m, BANNER) && Free(t, BANNER)
    ensures Free("\n" + Block(h, m, t) + "\n", BANNER)
  {
    FreeOfMissingChar(SEPARATOR, '=', 99);
    FreeAfterMissing(SEPARATOR, t, '=', 99);
    FreeSplice([], '\n', h, '=', 99);
    var s1 := [] + ['\n'] + h;
    FreeSplice(s1, '\n', SEPARATOR, '=', 99);
    var s2 := s1 + ['\n'] + SEPARATOR;
    FreeSplice(s2, '\n', m, '=', 99);
    var s3 := s2 + ['\n'] + m;
    FreeSplice(s3, '\n', SEPARATOR + t, '=', 99);
    var s4 := s3 + ['\n'] + (SEPARATOR + t);
    FreeSplice(s4, '\n', [], '=', 99);
    assert "\n" + Block(h, m, t) + "\n" == s4 + ['\n'] + [];
  }

  /** A rendered entry holds no banner. */
  lemma EntryFree(e: LogEntry)
    requires WellFormedEntry(e)
    ensures Free(EntryText(e), BANNER)
  {
    HeaderFree(e, '=', 99);
    TailFree(e.changes);
    BlockFree(HeaderText(e), e.message, Tail(e.changes));
  }

  // ---------------------------------------------------------------------------
  // the whole transcript

  /** A piece between banners: it holds no banner and does not end in `=`. */
  predicate BannerPart(s: string) {
    Free(s, BANNER) && (s == [] || s[|s| - 1] != '=')
  }

  /** A rendered entry is a piece between banners. */
  lemma EntryPart(e: LogEntry)
    requires WellFormedEntry(e)
    ensures BannerPart(EntryText(e))
  {
    EntryFree(e);
    var t := EntryText(e);
    assert t[|t| - 1] == '\n';
  }

  /** The empty text before the first banner is a piece between banners too. */
  lemma EmptyPart()
    ensures BannerPart([])
  {
    FreeOfMissingChar([], '=', 99);
  }

  /** Every entry's text is a piece between banners. */
  lemma TextsFree(es: seq<LogEntry>)
    requires forall k :: 0 <= k < |es| ==> WellFormedEntry(es[k])
    ensures forall k :: 0 <= k < |Texts(es)| ==> BannerPart(Texts(es)[k])
  {
    var ts := Texts(es);
    forall k | 0 <= k < |ts| ensures BannerPart(ts[k]) {
      EntryPart(es[k]);
    }
  }

  /** The empty piece before the first banner, then every entry's text. */
  lemma PartsFree(es: seq<LogEntry>)
    requires forall k :: 0 <= k < |es| ==> WellFormedEntry(es[k])
    ensures forall k :: 0 <= k < |[""] + Texts(es)| ==> BannerPart(([""] + Texts(es))[k])
  {
    var ts := Texts(es);
    var parts := [""] + ts;
    TextsFree(es);
    EmptyPart();
    forall k | 0 <= k < |parts| ensures BannerPart(parts[k]) {
      if k > 0 {
        assert parts[k] == ts[k - 1];
      }
    }
  }

  /** Cutting the transcript at the banners gives an empty first piece, then every entry's text. */
  lemma SplitRender(es: seq<LogEntry>)
    requires forall k :: 0 <= k < |es| ==> WellFormedEntry(es[k])
    ensures Split(Render(es), BANNER) == [""] + Texts(es)
  {
    var parts := [""] + Texts(es);
    PartsFree(es);
    assert forall k :: 0 <= k < |parts| ==> BannerPart(parts[k]);
    SplitJoin(parts, '=', 99);
  }

  /** Every entry's text reads back as its expected commit. */
  lemma TextsParse(es: seq<LogEntry>)
    requires forall k :: 0 <= k < |es| ==> WellFormedEntry(es[k])
    ensures ParseBodies(Texts(es)) == ExpectedAll(es)
  {
    var results := ParseResults(Texts(es));
    forall k | 0 <= k < |es| ensures results[k] == Some(ExpectedAll(es)[k]) {
      EntryParses(es[k]);
    }
    SomesAll(results, ExpectedAll(es));
  }

  /** The empty text before the first banner yields no commit. */
  lemma LeadSkipped()
    ensures ParseBodies([""]) == []
  {
    assert Trim("") == "";
    SplitWhole("", SEPARATOR);
    assert ParseResults([""])[..0] == [];
  }

  /** A transcript of banners and nothing else yields no commit, and no error. */
  lemma BannersOnlyNoCommits(n: nat)
    ensures ParseTranscript(Join(seq(n + 1, k => ""), BANNER)) == []
  {
    var parts: seq<string> := seq(n + 1, k => "");
    EmptyPart();
    assert forall k :: 0 <= k < |parts| ==> BannerPart(parts[k]);
    SplitJoin(parts, '=', 99);
    assert Trim("") == "";
    SplitWhole("", SEPARATOR);
    SomesNone(ParseResults(parts));
  }

  /**
   * The round trip: reading the transcript git prints for well-formed commits gives one
   * commit per entry, in order, each with its hash, time, author, trimmed message and
   * the blobs of its non-deleting changes.
   */
  lemma RenderRoundTrip(es: seq<LogEntry>)
    requires forall k :: 0 <= k < |es| ==> WellFormedEntry(es[k])
    ensures ParseTranscript(Render(es)) == ExpectedAll(es)
  {
    SplitRender(es);
    ParseBodiesAppend([""], Texts(es));
    LeadSkipped();
    TextsParse(es);
  }

  /**
   * A commit with no changes reads back with no blobs. Git without `--always` prints
   * nothing for such a commit, so this is reader input git does not produce.
   */
  lemma EmptyChangeList(e: LogEntry)
    requires WellFormedEntry(e) && e.changes == []
    ensures ParseBody(EntryText(e)).Some? && ParseBody(EntryText(e)).value.blobs == []
  {
    EntryParses(e);
  }
}
