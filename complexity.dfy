/**
 * `getComplexity` (lib/funcstats.js:406-469): the function records of one Ruby file.
 *
 * The analyzer (saikuro, fed either a historical blob through `git cat-file` or a file of
 * the working tree) is a parameter that returns its output already parsed, or
 * `Unparseable` when `JSON.parse` throws.  Records without a name or with a falsy
 * complexity are dropped; a name seen before is merged into the first record of that
 * name by adding complexity and lines, as the comment at lines 434-435 intends.
 */
module Complexity {
  import opened Wrappers
  import opened JsText

  /** The language every record is tagged with (line 427). */
  const RUBY: string := "ruby"

  /** One analyzer record: `name` and `complexity` are `None` when the field is missing. */
  datatype RawFunction = RawFunction(name: Option<string>, complexity: Option<int>, lines: int)

  /** What `JSON.parse(buffer)` gives for the analyzer's output (line 425). */
  datatype AnalyzerOutput = Unparseable | Parsed(records: seq<RawFunction>)

  /** What the analyzer reads, in the clone of `project` (lines 413-419). */
  datatype AnalyzerInput = HistoricalBlob(project: string, sha: string) | WorkingFile(project: string, path: string)

  /** A record as `getComplexity` hands it on. */
  datatype Function = Function(name: string, complexity: int, lines: int, language: string)

  // ---------------------------------------------------------------------------
  // the specification

  /** `func.name && func.complexity` (line 428): a non-empty name and a non-zero complexity. */
  predicate Accepted(f: RawFunction) {
    f.name.Some? && f.name.value != [] && f.complexity.Some? && f.complexity.value != 0
  }

  /** `f` is accepted and carries the name `n`. */
  predicate Carries(f: RawFunction, n: string) {
    Accepted(f) && f.name.value == n
  }

  function Record(f: RawFunction): Function
    requires Accepted(f)
  {
    Function(f.name.value, f.complexity.value, f.lines, RUBY)
  }

  /** The records' names, in order. */
  function Names(functions: seq<Function>): seq<string> {
    Mapped(functions, (g: Function) => g.name)
  }

  /** `functions` with `f`'s complexity and lines added to every record named like `f` (lines 436-441). */
  function AddInto(functions: seq<Function>, f: RawFunction): (r: seq<Function>)
    requires Accepted(f)
    ensures |r| == |functions|
  {
    seq(|functions|, j requires 0 <= j < |functions| =>
      if functions[j].name == f.name.value
      then functions[j].(complexity := functions[j].complexity + f.complexity.value,
                         lines := functions[j].lines + f.lines)
      else functions[j])
  }

  /** One record of the analyzer's output taken into the list (lines 426-444). */
  function MergeOne(functions: seq<Function>, f: RawFunction): seq<Function> {
    if !Accepted(f) then functions
    else if f.name.value in Names(functions) then AddInto(functions, f)
    else functions + [Record(f)]
  }

  /** The records of the analyzer's output, merged by name. */
  function Merged(fs: seq<RawFunction>): seq<Function> {
    if fs == [] then [] else MergeOne(Merged(fs[..|fs| - 1]), fs[|fs| - 1])
  }

  /** The sum of the complexities of the accepted records named `n`. */
  function ComplexityOf(fs: seq<RawFunction>, n: string): int {
    if fs == [] then 0
    else ComplexityOf(fs[..|fs| - 1], n) + (if Carries(fs[|fs| - 1], n) then fs[|fs| - 1].complexity.value else 0)
  }

  /** The sum of the line counts of the accepted records named `n`. */
  function LinesOf(fs: seq<RawFunction>, n: string): int {
    if fs == [] then 0
    else LinesOf(fs[..|fs| - 1], n) + (if Carries(fs[|fs| - 1], n) then fs[|fs| - 1].lines else 0)
  }

  /** `getComplexity`'s answer: nothing for a file that is not Ruby or an unparseable output. */
  function Measured(project: string, filename: string, blob: Option<string>,
                    analyze: AnalyzerInput -> AnalyzerOutput): seq<Function>
  {
    if !EndsWith(filename, ".rb") then []
    else match analyze(InputFor(project, filename, blob))
      case Unparseable => []
      case Parsed(fs) => Merged(fs)
  }

  /** A truthy blob id is read from history, otherwise the working-tree file (lines 413-418). */
  function InputFor(project: string, filename: string, blob: Option<string>): (r: AnalyzerInput)
    ensures r.project == project
    ensures r.HistoricalBlob? <==> blob.Some? && blob.value != []
    ensures r.HistoricalBlob? ==> r.sha == blob.value
    ensures r.WorkingFile? ==> r.path == filename
  {
    if blob.Some? && blob.value != [] then HistoricalBlob(project, blob.value) else WorkingFile(project, filename)
  }

  // ---------------------------------------------------------------------------
  // what the merge promises

  /** A name is in the result exactly when some accepted record carries it. */
  lemma {:induction false} MergedNames(fs: seq<RawFunction>, n: string)
    ensures n in Names(Merged(fs)) <==> exists k :: 0 <= k < |fs| && Carries(fs[k], n)
  {
    if fs != [] {
      var init, f := fs[..|fs| - 1], fs[|fs| - 1];
      var prev := Merged(init);
      MergedNames(init, n);
      assert forall k :: 0 <= k < |init| ==> fs[k] == init[k];
      if Accepted(f) && f.name.value !in Names(prev) {
        assert Names(prev + [Record(f)]) == Names(prev) + [f.name.value];
      } else if Accepted(f) {
        assert forall j :: 0 <= j < |prev| ==> Names(AddInto(prev, f))[j] == Names(prev)[j];
        assert Names(AddInto(prev, f)) == Names(prev);
      }
    }
  }

  /** No two records share a name. */
  predicate OnePerName(r: seq<Function>) {
    forall i, j :: 0 <= i < j < |r| ==> r[i].name != r[j].name
  }

  /** At most one record per name. */
  lemma {:induction false} MergedDistinct(fs: seq<RawFunction>)
    ensures OnePerName(Merged(fs))
  {
    if fs != [] {
      var init, f := fs[..|fs| - 1], fs[|fs| - 1];
      var prev := Merged(init);
      MergedDistinct(init);
      if Accepted(f) && f.name.value !in Names(prev) {
        var r := prev + [Record(f)];
        assert Merged(fs) == r;
        forall i, j | 0 <= i < j < |r| ensures r[i].name != r[j].name {
          if j == |prev| {
            assert prev[i].name == Names(prev)[i] && Names(prev)[i] in Names(prev);
            assert r[j].name == f.name.value;
          } else {
            assert r[i] == prev[i] && r[j] == prev[j];
          }
        }
      } else if Accepted(f) {
        var r := AddInto(prev, f);
        assert Merged(fs) == r;
        forall i, j | 0 <= i < j < |r| ensures r[i].name != r[j].name {
          assert r[i].name == prev[i].name && r[j].name == prev[j].name;
        }
      }
    }
  }

  /** Every record is tagged Ruby and is named. */
  lemma {:induction false} MergedTagged(fs: seq<RawFunction>)
    ensures forall r :: r in Merged(fs) ==> r.language == RUBY && r.name != []
  {
    if fs != [] {
      MergedTagged(fs[..|fs| - 1]);
    }
  }

  /** A name no accepted record carries adds nothing to the sums. */
  lemma {:induction false} AbsentSumsZero(fs: seq<RawFunction>, n: string)
    requires forall k :: 0 <= k < |fs| ==> !Carries(fs[k], n)
    ensures ComplexityOf(fs, n) == 0 && LinesOf(fs, n) == 0
  {
    if fs != [] {
      AbsentSumsZero(fs[..|fs| - 1], n);
    }
  }

  /** Each record holds the total complexity and the total lines of the accepted records of its name. */
  lemma {:induction false} MergedSums(fs: seq<RawFunction>)
    ensures var r := Merged(fs);
      forall j :: 0 <= j < |r| ==> r[j].complexity == ComplexityOf(fs, r[j].name) && r[j].lines == LinesOf(fs, r[j].name)
  {
    if fs != [] {
      var init, f := fs[..|fs| - 1], fs[|fs| - 1];
      var prev := Merged(init);
      MergedSums(init);
      if Accepted(f) && f.name.value !in Names(prev) {
        var n := f.name.value;
        MergedNames(init, n);
        AbsentSumsZero(init, n);
        assert forall j :: 0 <= j < |prev| ==> prev[j].name == Names(prev)[j];
      }
    }
  }

  /** Record `k` is the first accepted record of its name: no accepted record before it carries that name. */
  predicate FirstOfName(fs: seq<RawFunction>, k: int)
    requires 0 <= k < |fs|
  {
    Accepted(fs[k]) && forall i :: 0 <= i < k ==> !Carries(fs[i], fs[k].name.value)
  }

  /** The distinct accepted names, in the order each is first accepted. */
  function FirstNames(fs: seq<RawFunction>): seq<string> {
    if fs == [] then []
    else FirstNames(fs[..|fs| - 1]) + (if FirstOfName(fs, |fs| - 1) then [fs[|fs| - 1].name.value] else [])
  }

  /** The records come in the order their names are first accepted: record `k` bears the `k`-th distinct name. */
  lemma {:induction false} MergedOrder(fs: seq<RawFunction>)
    ensures Names(Merged(fs)) == FirstNames(fs)
  {
    if fs != [] {
      var init, f := fs[..|fs| - 1], fs[|fs| - 1];
      var prev := Merged(init);
      MergedOrder(init);
      assert forall k :: 0 <= k < |init| ==> fs[k] == init[k];
      if Accepted(f) {
        MergedNames(init, f.name.value);
        if f.name.value !in Names(prev) {
          assert FirstOfName(fs, |fs| - 1);
          assert Names(prev + [Record(f)]) == Names(prev) + [f.name.value];
        } else {
          assert !FirstOfName(fs, |fs| - 1);
          assert forall j :: 0 <= j < |prev| ==> Names(AddInto(prev, f))[j] == Names(prev)[j];
          assert Names(AddInto(prev, f)) == Names(prev);
        }
      }
    }
  }

  // ---------------------------------------------------------------------------
  // the imperative code

  /** The `forEach` of `flushBuffer` (lines 426-445), with the duplicate branch as intended. */
  method ExtractFunctions(funcs: seq<RawFunction>) returns (functions: seq<Function>)
    ensures functions == Merged(funcs)
  {
    functions := [];
    var funcnames: seq<string> := [];
    for i := 0 to |funcs|
      invariant functions == Merged(funcs[..i])
      invariant forall n :: n in funcnames <==> n in Names(functions)
    {
      assert funcs[..i + 1][..i] == funcs[..i];
      var func := funcs[i];
      if func.name.Some? && func.name.value != [] && func.complexity.Some? && func.complexity.value != 0 {
        if func.name.value !in funcnames {
          assert Names(functions + [Record(func)]) == Names(functions) + [func.name.value];
          functions := functions + [Record(func)];
        } else {
          assert Names(AddInto(functions, func)) == Names(functions);
          functions := AddToNamed(functions, func);
        }
        funcnames := funcnames + [func.name.value];
      }
    }
    PrefixAll(funcs);
  }

  /** The loop over `functions` at lines 436-441 as intended: `functions[j]` rather than `funcitons[j]`. */
  method AddToNamed(before: seq<Function>, func: RawFunction) returns (functions: seq<Function>)
    requires Accepted(func)
    ensures functions == AddInto(before, func)
  {
    functions := before;
    for j := 0 to |functions|
      invariant |functions| == |before|
      invariant forall k :: 0 <= k < j ==> functions[k] == AddInto(before, func)[k]
      invariant forall k :: j <= k < |functions| ==> functions[k] == before[k]
    {
      if functions[j].name == func.name.value {
        functions := functions[j := functions[j].(complexity := functions[j].complexity + func.complexity.value,
                                                  lines := functions[j].lines + func.lines)];
      }
    }
  }

  /** `getComplexity` (lines 406-469): dispatch on the `.rb` suffix, run the analyzer, merge. */
  method GetComplexity(project: string, filename: string, blob: Option<string>,
                       analyze: AnalyzerInput -> AnalyzerOutput)
    returns (functions: seq<Function>)
    ensures functions == Measured(project, filename, blob, analyze)
  {
    functions := [];
    if !EndsWith(filename, ".rb") {
      return;
    }
    var input := if blob.Some? && blob.value != [] then HistoricalBlob(project, blob.value)
                 else WorkingFile(project, filename);
    var output := analyze(input);
    if output.Parsed? {
      functions := ExtractFunctions(output.records);
    }
  }

  /** The answer is empty for every file that is not Ruby, whatever the analyzer would say. */
  lemma NotRubyEmpty(project: string, filename: string, blob: Option<string>, analyze: AnalyzerInput -> AnalyzerOutput)
    requires !EndsWith(filename, ".rb")
    ensures Measured(project, filename, blob, analyze) == []
  {
  }

  /** The answer's records are tagged Ruby, named, and one per name. */
  lemma MeasuredRecords(project: string, filename: string, blob: Option<string>, analyze: AnalyzerInput -> AnalyzerOutput)
    ensures var r := Measured(project, filename, blob, analyze);
      && (forall f :: f in r ==> f.language == RUBY && f.name != [])
      && OnePerName(r)
  {
    if EndsWith(filename, ".rb") {
      var output := analyze(InputFor(project, filename, blob));
      if output.Parsed? {
        MergedTagged(output.records);
        MergedDistinct(output.records);
      }
    }
  }

  // ---------------------------------------------------------------------------
  // the code as written: line 438 names `funcitons`, which does not exist

  /** The records gathered so far, and whether the `forEach` was left by an exception. */
  datatype Run = Run(functions: seq<Function>, thrown: bool)

  /**
   * The `forEach` as written: the first accepted record whose name was seen before throws a
   * `ReferenceError` at line 438, the `catch` at line 447 swallows it, and the records
   * gathered up to then are the answer.
   */
  function AsWritten(fs: seq<RawFunction>): Run {
    if fs == [] then Run([], false)
    else
      var prev := AsWritten(fs[..|fs| - 1]);
      var f := fs[|fs| - 1];
      if prev.thrown || !Accepted(f) then prev
      else if f.name.value in Names(prev.functions) then Run(prev.functions, true)
      else Run(prev.functions + [Record(f)], false)
  }

  /** Without a repeated name the code as written gives the intended answer. */
  lemma {:induction false} AsWrittenWithoutRepeats(fs: seq<RawFunction>)
    ensures !AsWritten(fs).thrown ==> AsWritten(fs).functions == Merged(fs)
  {
    if fs != [] {
      AsWrittenWithoutRepeats(fs[..|fs| - 1]);
    }
  }

  /** Two records of `a` around one of `b`: as written, the second `a` and everything after it are lost. */
  lemma AsWrittenLosesRecords()
    ensures var fs := [RawFunction(Some("a"), Some(3), 10), RawFunction(Some("a"), Some(5), 4),
                       RawFunction(Some("b"), Some(2), 1)];
      && AsWritten(fs) == Run([Function("a", 3, 10, RUBY)], true)
      && Merged(fs) == [Function("a", 8, 14, RUBY), Function("b", 2, 1, RUBY)]
  {
    var fs := [RawFunction(Some("a"), Some(3), 10), RawFunction(Some("a"), Some(5), 4),
               RawFunction(Some("b"), Some(2), 1)];
    assert fs[..1] == [fs[0]] && fs[..2] == [fs[0], fs[1]] && fs[..2][..1] == fs[..1];
    assert fs[..1][..0] == [];
    var one := [Function("a", 3, 10, RUBY)];
    assert Names(one) == ["a"];
    assert AsWritten(fs[..1]) == Run(one, false);
    assert AsWritten(fs[..2]) == Run(one, true);
    assert Merged(fs[..1]) == one;
    assert AddInto(one, fs[1]) == [Function("a", 8, 14, RUBY)];
    assert Merged(fs[..2]) == [Function("a", 8, 14, RUBY)];
    assert Names([Function("a", 8, 14, RUBY)]) == ["a"];
  }
}
