/**
 * The loop of `getCommitData` (lib/funcstats.js:51-81): the rows of the per-function query
 * arrive ordered by project; a row whose `data` does not parse as JSON is skipped, and
 * consecutive rows of one project are gathered into one `{project, functions: [...]}` entry.
 *
 * The entries are computed as a list by `GroupRows`; the text the loop concatenates is
 * modelled as a sequence of pieces (`Piece`), both as intended (`CommitDataText`) and as
 * written (`AsWritten`). Whether `data` parses is a parameter.
 */
module Series {
  import opened Wrappers

  /** One row of the query at line 44. */
  datatype SeriesRow = SeriesRow(project: string, file: string, func: string, id: string, data: string)

  /** `{id, file, name, data}` (line 62). */
  datatype Entry = Entry(id: string, file: string, name: string, data: string)

  /** `{project, functions}` (line 68). */
  datatype Group = Group(project: string, functions: seq<Entry>)

  /** An entry together with the project it is listed under. */
  datatype Placed = Placed(project: string, entry: Entry)

  function EntryOf(r: SeriesRow): Entry {
    Entry(r.id, r.file, r.func, r.data)
  }

  // ---------------------------------------------------------------------------
  // the specification

  /** The rows whose `data` parses (lines 54-61), in order. */
  function Kept(rows: seq<SeriesRow>, parses: string -> bool): (r: seq<SeriesRow>)
    ensures |r| <= |rows|
  {
    if rows == [] then []
    else
      var last := rows[|rows| - 1];
      Kept(rows[..|rows| - 1], parses) + (if parses(last.data) then [last] else [])
  }

  /** One more row: it opens a new entry unless it has the project of the last one (lines 64-72). */
  function AddRow(groups: seq<Group>, r: SeriesRow): (gs: seq<Group>)
    ensures |gs| > 0
  {
    if groups == [] || groups[|groups| - 1].project != r.project then groups + [Group(r.project, [EntryOf(r)])]
    else
      var last := groups[|groups| - 1];
      groups[..|groups| - 1] + [last.(functions := last.functions + [EntryOf(r)])]
  }

  /** The entries of a list of rows: one per maximal run of rows of one project. */
  function Grouped(rows: seq<SeriesRow>): seq<Group> {
    if rows == [] then [] else AddRow(Grouped(rows[..|rows| - 1]), rows[|rows| - 1])
  }

  /** Every function of the entries, in order, with the project it is listed under. */
  function Expand(groups: seq<Group>): seq<Placed> {
    if groups == [] then []
    else
      var g := groups[|groups| - 1];
      Expand(groups[..|groups| - 1]) + seq(|g.functions|, k requires 0 <= k < |g.functions| => Placed(g.project, g.functions[k]))
  }

  /** The rows' functions, each with its row's project. */
  function PlacedRows(rows: seq<SeriesRow>): seq<Placed> {
    seq(|rows|, k requires 0 <= k < |rows| => Placed(rows[k].project, EntryOf(rows[k])))
  }

  /** The rows of one project are consecutive, as `ORDER BY project` delivers them. */
  predicate Clustered(rows: seq<SeriesRow>) {
    forall i, j, k :: 0 <= i < j < k < |rows| && rows[i].project == rows[k].project ==> rows[j].project == rows[i].project
  }

  // ---------------------------------------------------------------------------
  // the loop

  /**
   * What the loop holds after the rows `done`: `groups` lists the entries of those of them
   * that parse, and `project` is the project of the last entry.
   */
  predicate Scanned(done: seq<SeriesRow>, parses: string -> bool, groups: seq<Group>, project: string) {
    groups == Grouped(Kept(done, parses)) && (groups != [] ==> project == groups[|groups| - 1].project)
  }

  /** The loop at lines 53-79, building the entries instead of their text. */
  method GroupRows(rows: seq<SeriesRow>, parses: string -> bool) returns (groups: seq<Group>)
    ensures groups == Grouped(Kept(rows, parses))
  {
    groups := [];
    var project := "";
    for i := 0 to |rows|
      invariant Scanned(rows[..i], parses, groups, project)
    {
      groups, project := ScanRow(rows[..i], parses, groups, project, rows[i]);
      PrefixNext(rows, i);
    }
    PrefixAll(rows);
  }

  /** One pass of the loop (lines 54-78): a row whose data does not parse is skipped. */
  method ScanRow(ghost done: seq<SeriesRow>, parses: string -> bool, groups: seq<Group>, project: string, row: SeriesRow)
    returns (groups': seq<Group>, project': string)
    requires Scanned(done, parses, groups, project)
    ensures Scanned(done + [row], parses, groups', project')
  {
    KeptStep(done, parses, row);
    if !parses(row.data) {
      return groups, project;
    }
    GroupedStep(Kept(done, parses), row);
    groups' := AddEntry(groups, project, row);
    project' := row.project;
  }

  /** The body of the loop for a row that parses (lines 62-72); `project` is the last row's project. */
  method AddEntry(before: seq<Group>, project: string, row: SeriesRow) returns (groups: seq<Group>)
    requires before != [] ==> project == before[|before| - 1].project
    ensures groups == AddRow(before, row)
  {
    var func := EntryOf(row);
    if before == [] || project != row.project {
      groups := before + [Group(row.project, [func])];
    } else {
      var last := before[|before| - 1];
      groups := before[..|before| - 1] + [last.(functions := last.functions + [func])];
    }
  }

  lemma KeptStep(rows: seq<SeriesRow>, parses: string -> bool, r: SeriesRow)
    ensures parses(r.data) ==> Kept(rows + [r], parses) == Kept(rows, parses) + [r]
    ensures !parses(r.data) ==> Kept(rows + [r], parses) == Kept(rows, parses)
  {
    assert (rows + [r])[..|rows|] == rows;
    assert Kept(rows, parses) + [] == Kept(rows, parses);
  }

  lemma GroupedStep(rows: seq<SeriesRow>, r: SeriesRow)
    ensures Grouped(rows + [r]) == AddRow(Grouped(rows), r)
  {
    assert (rows + [r])[..|rows|] == rows;
  }

  // ---------------------------------------------------------------------------
  // what the entries promise

  lemma ExpandAppend(a: seq<Group>, g: Group)
    ensures Expand(a + [g]) == Expand(a) + seq(|g.functions|, k requires 0 <= k < |g.functions| => Placed(g.project, g.functions[k]))
  {
    assert (a + [g])[..|a|] == a;
  }

  /** No function is lost or moved: read in order, the entries list every kept row under its own project. */
  lemma {:induction false} GroupedExpand(rows: seq<SeriesRow>)
    ensures Expand(Grouped(rows)) == PlacedRows(rows)
  {
    if rows != [] {
      var init, r := rows[..|rows| - 1], rows[|rows| - 1];
      GroupedExpand(init);
      assert PlacedRows(rows) == PlacedRows(init) + [Placed(r.project, EntryOf(r))];
      AddRowExpand(Grouped(init), r);
    }
  }

  /** A row added to the entries comes last when they are read in order. */
  lemma AddRowExpand(prev: seq<Group>, r: SeriesRow)
    ensures Expand(AddRow(prev, r)) == Expand(prev) + [Placed(r.project, EntryOf(r))]
  {
    if prev == [] || prev[|prev| - 1].project != r.project {
      ExpandAppend(prev, Group(r.project, [EntryOf(r)]));
    } else {
      var front, last := prev[..|prev| - 1], prev[|prev| - 1];
      assert prev == front + [last];
      ExpandAppend(front, last);
      var last' := last.(functions := last.functions + [EntryOf(r)]);
      ExpandAppend(front, last');
    }
  }

  /** Every entry lists at least one function. */
  lemma {:induction false} GroupedNonEmpty(rows: seq<SeriesRow>)
    ensures forall g :: g in Grouped(rows) ==> g.functions != []
  {
    if rows != [] {
      var init := rows[..|rows| - 1];
      var prev := Grouped(init);
      GroupedNonEmpty(init);
      if prev != [] {
        assert forall g :: g in prev[..|prev| - 1] ==> g in prev;
      }
    }
  }

  function ProjectsOf(gs: seq<Group>): (ps: seq<string>)
    ensures |ps| == |gs|
  {
    seq(|gs|, k requires 0 <= k < |gs| => gs[k].project)
  }

  /** The projects of the maximal runs of rows of one project, in order. */
  function RunProjects(rows: seq<SeriesRow>): seq<string> {
    if rows == [] then []
    else
      var ps, r := RunProjects(rows[..|rows| - 1]), rows[|rows| - 1];
      if ps == [] || ps[|ps| - 1] != r.project then ps + [r.project] else ps
  }

  predicate NeighboursDiffer(ps: seq<string>) {
    forall i :: 0 <= i < |ps| - 1 ==> ps[i] != ps[i + 1]
  }

  predicate Distinct(ps: seq<string>) {
    forall i, j :: 0 <= i < j < |ps| ==> ps[i] != ps[j]
  }

  /** The entries are the runs: one entry per maximal run of rows of one project, in order. */
  lemma {:induction false} GroupedProjects(rows: seq<SeriesRow>)
    ensures ProjectsOf(Grouped(rows)) == RunProjects(rows)
  {
    if rows != [] {
      var init, r := rows[..|rows| - 1], rows[|rows| - 1];
      GroupedProjects(init);
      AddRowProjects(Grouped(init), r);
    }
  }

  lemma AddRowProjects(prev: seq<Group>, r: SeriesRow)
    ensures var ps := ProjectsOf(prev);
      ProjectsOf(AddRow(prev, r)) == if ps == [] || ps[|ps| - 1] != r.project then ps + [r.project] else ps
  {
    var gs := AddRow(prev, r);
    if prev == [] || prev[|prev| - 1].project != r.project {
      assert ProjectsOf(gs) == ProjectsOf(prev) + [r.project];
    } else {
      assert forall k :: 0 <= k < |gs| ==> gs[k].project == prev[k].project;
      assert ProjectsOf(gs) == ProjectsOf(prev);
    }
  }

  /** Neighbouring runs belong to different projects. */
  lemma {:induction false} RunsDiffer(rows: seq<SeriesRow>)
    ensures NeighboursDiffer(RunProjects(rows))
  {
    if rows != [] {
      RunsDiffer(rows[..|rows| - 1]);
    }
  }

  /** Every run's project is the project of some row, and the last run the last row's. */
  lemma {:induction false} RunsFromRows(rows: seq<SeriesRow>)
    ensures var ps := RunProjects(rows);
      && (forall p :: p in ps ==> exists i :: 0 <= i < |rows| && rows[i].project == p)
      && (rows != [] ==> ps != [] && ps[|ps| - 1] == rows[|rows| - 1].project)
  {
    if rows != [] {
      var init := rows[..|rows| - 1];
      RunsFromRows(init);
      assert forall i :: 0 <= i < |init| ==> init[i] == rows[i];
    }
  }

  /** For rows ordered by project there is one run per project. */
  lemma {:induction false} RunsDistinct(rows: seq<SeriesRow>)
    requires Clustered(rows)
    ensures Distinct(RunProjects(rows))
  {
    if rows != [] {
      var init, r := rows[..|rows| - 1], rows[|rows| - 1];
      var ps := RunProjects(init);
      assert Clustered(init);
      RunsDistinct(init);
      if ps != [] && ps[|ps| - 1] != r.project {
        RunsFromRows(init);
        forall i | 0 <= i < |ps| ensures ps[i] != r.project {
          assert ps[i] in ps;
        }
      }
    }
  }

  /** `idx` picks out `kept` from `rows`: one index per kept row, increasing. */
  predicate Picks(idx: seq<nat>, kept: seq<SeriesRow>, rows: seq<SeriesRow>) {
    && |idx| == |kept|
    && (forall k :: 0 <= k < |idx| ==> idx[k] < |rows| && kept[k] == rows[idx[k]])
    && (forall k, l :: 0 <= k < l < |idx| ==> idx[k] < idx[l])
  }

  lemma PicksGrow(idx: seq<nat>, kept: seq<SeriesRow>, rows: seq<SeriesRow>, r: SeriesRow)
    requires Picks(idx, kept, rows)
    ensures Picks(idx, kept, rows + [r]) && Picks(idx + [|rows|], kept + [r], rows + [r])
  {
  }

  /** The kept rows are rows of the input, taken in order. */
  lemma {:induction false} KeptIndices(rows: seq<SeriesRow>, parses: string -> bool) returns (idx: seq<nat>)
    ensures Picks(idx, Kept(rows, parses), rows)
  {
    if rows == [] {
      idx := [];
    } else {
      var init, r := rows[..|rows| - 1], rows[|rows| - 1];
      var prev := KeptIndices(init, parses);
      PrefixNext(rows, |rows| - 1);
      KeptStep(init, parses, r);
      PicksGrow(prev, Kept(init, parses), init, r);
      if parses(r.data) {
        idx := prev + [|init|];
      } else {
        idx := prev;
      }
    }
  }

  /** Skipping rows keeps rows of one project together. */
  lemma KeptClustered(rows: seq<SeriesRow>, parses: string -> bool)
    requires Clustered(rows)
    ensures Clustered(Kept(rows, parses))
  {
    var kept := Kept(rows, parses);
    var idx := KeptIndices(rows, parses);
    forall i, j, k | 0 <= i < j < k < |kept| && kept[i].project == kept[k].project
      ensures kept[j].project == kept[i].project
    {
      assert rows[idx[i]].project == rows[idx[k]].project;
    }
  }

  /** Only rows whose data parses are kept. */
  lemma {:induction false} KeptParse(rows: seq<SeriesRow>, parses: string -> bool)
    ensures forall r :: r in Kept(rows, parses) <==> r in rows && parses(r.data)
  {
    if rows != [] {
      var init := rows[..|rows| - 1];
      KeptParse(init, parses);
      assert rows == init + [rows[|rows| - 1]];
    }
  }

  /**
   * What `getCommitData` lists for rows ordered by project: one entry per project that has
   * a row whose data parses, none empty, and those rows' functions in order under their project.
   */
  lemma CommitDataEntries(rows: seq<SeriesRow>, parses: string -> bool)
    requires Clustered(rows)
    ensures var gs := Grouped(Kept(rows, parses));
      && Distinct(ProjectsOf(gs)) && NeighboursDiffer(ProjectsOf(gs))
      && (forall g :: g in gs ==> g.functions != [])
      && Expand(gs) == PlacedRows(Kept(rows, parses))
  {
    KeptClustered(rows, parses);
    GroupedProjects(Kept(rows, parses));
    RunsDistinct(Kept(rows, parses));
    RunsDiffer(Kept(rows, parses));
    GroupedNonEmpty(Kept(rows, parses));
    GroupedExpand(Kept(rows, parses));
  }

  // ---------------------------------------------------------------------------
  // the text the loop concatenates

  /**
   * The pieces the loop appends to `json`: `[` and `]` around the answer, the `]}` that
   * closes an entry, a comma, the head of an entry of a project (line 68), and a function
   * (line 62).
   */
  datatype Piece = Open | Close | EndEntry | Comma | Head(project: string) | Func(entry: Entry)

  function PieceText(p: Piece): string {
    match p
    case Open => "["
    case Close => "]"
    case EndEntry => "]}"
    case Comma => ","
    case Head(project) => "{\"project\":\"" + project + "\",\"functions\":["
    case Func(e) => "{\"id\":\"" + e.id + "\",\"file\":\"" + e.file + "\",\"name\":\"" + e.name + "\",\"data\":" + e.data + "}"
  }

  /** The text of a sequence of pieces. */
  function Text(ps: seq<Piece>): string {
    if ps == [] then "" else Text(ps[..|ps| - 1]) + PieceText(ps[|ps| - 1])
  }

  /** The functions of an entry, separated by commas. */
  function FuncsPieces(fs: seq<Entry>): seq<Piece> {
    if fs == [] then []
    else if |fs| == 1 then [Func(fs[0])]
    else FuncsPieces(fs[..|fs| - 1]) + [Comma, Func(fs[|fs| - 1])]
  }

  /** An entry up to, not including, the `]}` that closes it. */
  function GroupOpen(g: Group): seq<Piece> {
    [Head(g.project)] + FuncsPieces(g.functions)
  }

  /** Entries, each closed and followed by a comma. */
  function Closed(gs: seq<Group>): seq<Piece> {
    if gs == [] then [] else Closed(gs[..|gs| - 1]) + GroupOpen(gs[|gs| - 1]) + [EndEntry, Comma]
  }

  /** Entries, all but the last closed and followed by a comma. */
  function Unclosed(gs: seq<Group>): seq<Piece>
    requires gs != []
  {
    Closed(gs[..|gs| - 1]) + GroupOpen(gs[|gs| - 1])
  }

  /** The JSON array of the entries: each entry closed, separated by commas. */
  function Json(gs: seq<Group>): seq<Piece> {
    if gs == [] then [Open, Close] else [Open] + Unclosed(gs) + [EndEntry, Close]
  }

  /** What `getCommitData` is meant to answer: the JSON text of the entries. */
  function CommitDataText(rows: seq<SeriesRow>, parses: string -> bool): seq<Piece> {
    Json(Grouped(Kept(rows, parses)))
  }

  /**
   * Lines 62-72 as written for a row `r` that parses, after `json` whose last row had
   * `project`. A row of a new project opens an entry, and closes the one before with `]},`
   * unless the row is the first (`first`, which the loop decides by `i !== 0`).
   */
  function Opened(json: seq<Piece>, project: string, r: SeriesRow, first: bool): seq<Piece> {
    if project != r.project then
      (if first then json else json + [EndEntry, Comma]) + [Head(r.project), Func(EntryOf(r))]
    else json + [Comma, Func(EntryOf(r))]
  }

  /**
   * The loop of lines 51-79 as written, from row `i` on, with `json` and the previous row's
   * `project` so far. It closes the last entry only when row `i` is the last row. Both this
   * test and the `i !== 0` test are on the row index, so a skipped row still counts.
   */
  function AsWrittenFrom(rows: seq<SeriesRow>, parses: string -> bool, i: nat, json: seq<Piece>, project: string): seq<Piece>
    requires i <= |rows|
    decreases |rows| - i
  {
    if i == |rows| then json + [Close]
    else if !parses(rows[i].data) then AsWrittenFrom(rows, parses, i + 1, json, project)
    else
      var started := Opened(json, project, rows[i], i == 0);
      AsWrittenFrom(rows, parses, i + 1, if i == |rows| - 1 then started + [EndEntry] else started, rows[i].project)
  }

  /** What the loop builds, starting from `'['` and `project = ''` (line 51). */
  function AsWritten(rows: seq<SeriesRow>, parses: string -> bool): seq<Piece> {
    AsWrittenFrom(rows, parses, 0, [Open], "")
  }

  /** The rows every one of which parses. */
  predicate AllParse(rows: seq<SeriesRow>, parses: string -> bool) {
    forall k :: 0 <= k < |rows| ==> parses(rows[k].data)
  }

  /** The entry a lone row opens. */
  function Single(r: SeriesRow): Group {
    Group(r.project, [EntryOf(r)])
  }

  lemma SingleText(r: SeriesRow)
    ensures Unclosed([Single(r)]) == [Head(r.project), Func(EntryOf(r))]
    ensures Grouped([r]) == [Single(r)]
  {
    assert [Single(r)][..0] == [];
    assert [r][..0] == [];
  }

  /** One more function in an entry adds a comma and the function. */
  lemma FuncsAppend(fs: seq<Entry>, e: Entry)
    requires fs != []
    ensures FuncsPieces(fs + [e]) == FuncsPieces(fs) + [Comma, Func(e)]
  {
    assert (fs + [e])[..|fs|] == fs;
  }

  /** A row that parses, appended as the code appends it, extends the entries' text. */
  lemma OpenedText(prev: seq<Group>, r: SeriesRow)
    requires prev != [] && prev[|prev| - 1].functions != []
    ensures Opened([Open] + Unclosed(prev), prev[|prev| - 1].project, r, false) == [Open] + Unclosed(AddRow(prev, r))
  {
    var last := prev[|prev| - 1];
    var gs := AddRow(prev, r);
    if last.project != r.project {
      assert gs[..|gs| - 1] == prev;
    } else {
      assert gs[..|gs| - 1] == prev[..|prev| - 1];
      FuncsAppend(last.functions, EntryOf(r));
    }
  }

  /** The last entry is the last row's project. */
  lemma GroupedLast(rows: seq<SeriesRow>)
    requires rows != []
    ensures var gs := Grouped(rows);
      gs != [] && gs[|gs| - 1].project == rows[|rows| - 1].project
  {
  }

  /** The last entry is open, lists a function, and belongs to the last row's project. */
  lemma GroupedLastOpen(rows: seq<SeriesRow>)
    requires rows != []
    ensures var gs := Grouped(rows);
      gs != [] && gs[|gs| - 1].project == rows[|rows| - 1].project && gs[|gs| - 1].functions != []
  {
    var gs := Grouped(rows);
    GroupedNonEmpty(rows);
    assert gs[|gs| - 1] in gs;
  }

  /**
   * What the loop as written holds after the rows `before` when all of them parsed: `json`
   * is their entries with the last one still open, and `project` the last row's project.
   */
  predicate Unfinished(before: seq<SeriesRow>, json: seq<Piece>, project: string) {
    if before == [] then json == [Open] && project == ""
    else Grouped(before) != [] && json == [Open] + Unclosed(Grouped(before)) && project == before[|before| - 1].project
  }

  /** A row that parses, appended as lines 62-72 append it, keeps the text unfinished. */
  lemma UnfinishedStep(before: seq<SeriesRow>, r: SeriesRow, json: seq<Piece>, project: string)
    requires Unfinished(before, json, project) && (before == [] ==> r.project != "")
    ensures Unfinished(before + [r], Opened(json, project, r, before == []), r.project)
  {
    GroupedStep(before, r);
    if before == [] {
      SingleText(r);
      assert [] + [r] == [r];
    } else {
      GroupedLastOpen(before);
      OpenedText(Grouped(before), r);
    }
  }

  /** Closing the last entry and the array gives the JSON of the entries. */
  lemma JsonClosed(gs: seq<Group>, json: seq<Piece>)
    requires gs != [] && json == [Open] + Unclosed(gs)
    ensures json + [EndEntry] + [Close] == Json(gs)
  {
  }

  /** One pass of the loop as written over a row that parses. */
  lemma AsWrittenStep(rows: seq<SeriesRow>, parses: string -> bool, i: nat, json: seq<Piece>, project: string)
    requires i < |rows| && parses(rows[i].data)
    ensures var started := Opened(json, project, rows[i], i == 0);
      AsWrittenFrom(rows, parses, i, json, project) ==
        if i == |rows| - 1 then started + [EndEntry] + [Close]
        else AsWrittenFrom(rows, parses, i + 1, started, rows[i].project)
  {
  }

  /**
   * From row `i` on, the loop as written finishes all rows' entries when every row parses
   * and `json` holds the first `i` rows' entries.
   */
  lemma {:induction false} AsWrittenRest(rows: seq<SeriesRow>, parses: string -> bool, i: nat, json: seq<Piece>, project: string)
    requires AllParse(rows, parses) && i < |rows| && rows[0].project != ""
    requires Unfinished(rows[..i], json, project)
    ensures AsWrittenFrom(rows, parses, i, json, project) == Json(Grouped(rows))
    decreases |rows| - i
  {
    var r, before := rows[i], rows[..i];
    var started := Opened(json, project, r, i == 0);
    assert before == [] <==> i == 0;
    UnfinishedStep(before, r, json, project);
    AsWrittenStep(rows, parses, i, json, project);
    PrefixNext(rows, i);
    if i < |rows| - 1 {
      AsWrittenRest(rows, parses, i + 1, started, r.project);
    } else {
      JsonClosed(Grouped(rows), started);
    }
  }

  /** With every row parsing, none is skipped. */
  lemma {:induction false} KeptAll(rows: seq<SeriesRow>, parses: string -> bool)
    requires AllParse(rows, parses)
    ensures Kept(rows, parses) == rows
  {
    if rows != [] {
      KeptAll(rows[..|rows| - 1], parses);
    }
  }

  /**
   * When every row parses and the first project is not the empty string, the loop as
   * written builds exactly the JSON of the entries.
   */
  lemma AsWrittenWhenAllParse(rows: seq<SeriesRow>, parses: string -> bool)
    requires AllParse(rows, parses) && (rows != [] ==> rows[0].project != "")
    ensures AsWritten(rows, parses) == CommitDataText(rows, parses)
  {
    KeptAll(rows, parses);
    if rows != [] {
      assert rows[..0] == [];
      AsWrittenRest(rows, parses, 0, [Open], "");
    }
  }

  /** A row of `p` whose data is not JSON, and one of `q` whose data is. */
  function BadRow(): SeriesRow {
    SeriesRow("p", "a.rb", "f", "1", "[{")
  }

  function GoodRow(): SeriesRow {
    SeriesRow("q", "b.rb", "g", "2", "[]")
  }

  function IsEmptyArray(d: string): bool {
    d == "[]"
  }

  /**
   * A skipped first row makes the second row's `i !== 0` test emit `]},` before any entry
   * is open: the answer is the intended one with `]},` after its opening `[`.
   */
  lemma SkippedFirstRowBreaksText()
    ensures var rows := [BadRow(), GoodRow()];
      var intended := CommitDataText(rows, IsEmptyArray);
      intended != [] && intended[0] == Open && AsWritten(rows, IsEmptyArray) == [Open, EndEntry, Comma] + intended[1..]
  {
    var rows := [BadRow(), GoodRow()];
    var g := GoodRow();
    assert !IsEmptyArray(BadRow().data) && IsEmptyArray(g.data);
    assert Kept(rows, IsEmptyArray) == [g] by {
      assert rows[..1] == [BadRow()];
      assert [BadRow()][..0] == [];
    }
    SingleText(g);
    var tail := [Head("q"), Func(EntryOf(g)), EndEntry, Close];
    var intended := CommitDataText(rows, IsEmptyArray);
    assert intended == [Open] + tail;
    var started := [Open, EndEntry, Comma, Head("q"), Func(EntryOf(g))];
    assert Opened([Open], "", g, false) == started;
    calc {
      AsWritten(rows, IsEmptyArray);
      AsWrittenFrom(rows, IsEmptyArray, 1, [Open], "");
      AsWrittenFrom(rows, IsEmptyArray, 2, started + [EndEntry], "q");
      [Open, EndEntry, Comma] + tail;
    }
    assert intended[1..] == tail;
  }

  /**
   * A skipped last row means the `i === result2.length-1` test never holds, so the last
   * entry is never closed: the answer lacks the `]}` before its final `]`.
   */
  lemma SkippedLastRowBreaksText()
    ensures var rows := [GoodRow(), BadRow()];
      var text := AsWritten(rows, IsEmptyArray);
      text != [] && CommitDataText(rows, IsEmptyArray) == text[..|text| - 1] + [EndEntry, Close]
  {
    var rows := [GoodRow(), BadRow()];
    var g := GoodRow();
    assert Kept(rows, IsEmptyArray) == [g] by {
      assert rows[..1] == [g];
      assert [g][..0] == [];
    }
    SingleText(g);
    assert AsWritten(rows, IsEmptyArray) == [Open, Head("q"), Func(EntryOf(g)), Close];
  }
}
