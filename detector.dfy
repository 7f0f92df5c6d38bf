/**
 * The detector of core.py (`DuplicateCodeDetector`): its configuration,
 * the conversion of a raw run result into reports (`_process_result`) and
 * the conversion of exclude patterns into ignored directories
 * (`analyze_project`).
 */
module Detector {
  import opened Wrappers
  import opened Sequences
  import opened Raw
  import opened Similarity
  import opened Detection

  /** The file extensions analysed when none are configured. */
  const DEFAULT_EXTENSIONS: seq<string> := ["py", "js", "ts", "java", "cpp", "c", "h"]

  // The meaning of `_process_result`, one raw item at a time.

  /** One value of a file's mapping, decoded as the similarity of `filePath` to `target`. */
  function DecodeEntry(filePath: string, target: string, data: Value, sourceLoc: Option<Value>): FileSimilarity {
    match data
    case Record(similarity, loc) => FileSimilarity(filePath, target, similarity.GetOr(0.0), sourceLoc, loc)
    case Int(n) => FileSimilarity(filePath, target, n as real, sourceLoc, None)
    case Float(x) => FileSimilarity(filePath, target, x, sourceLoc, None)
  }

  /** The similarities decoded from a file's items, one per item, in order. */
  function DecodeEntries(filePath: string, es: Entries, sourceLoc: Option<Value>): (sims: seq<FileSimilarity>)
    ensures |sims| == |es|
    decreases |es|
  {
    if es == [] then []
    else
      var last := es[|es| - 1];
      DecodeEntries(filePath, es[..|es| - 1], sourceLoc) + [DecodeEntry(filePath, last.0, last.1, sourceLoc)]
  }

  /** Whether the sentinel is split off: only with `show_loc` on and the key present. */
  predicate SplitsSentinel(showLoc: bool, es: Entries) {
    showLoc && HasKey(es, LOC_KEY)
  }

  /** The report's line count: the sentinel's value, when it is split off. */
  function LocCountOf(showLoc: bool, es: Entries): Option<Value> {
    if SplitsSentinel(showLoc, es) then Some(Lookup(es, LOC_KEY)) else None
  }

  /** The items that become similarities: all of them, less the sentinel when it is split off. */
  function TargetsOf(showLoc: bool, es: Entries): Entries {
    if SplitsSentinel(showLoc, es) then WithoutKey(es, LOC_KEY) else es
  }

  /** The report built for one raw item, before the empty ones are dropped. */
  function ReportOf(showLoc: bool, filePath: string, es: Entries): ReportView {
    var loc := LocCountOf(showLoc, es);
    ReportView(filePath, DecodeEntries(filePath, TargetsOf(showLoc, es), loc), loc)
  }

  /** The reports `_process_result` returns for a raw result. */
  function ProcessedReports(showLoc: bool, raw: RawData): seq<ReportView>
    decreases |raw|
  {
    if raw == [] then []
    else
      var last := ReportOf(showLoc, raw[|raw| - 1].0, raw[|raw| - 1].1);
      var init := ProcessedReports(showLoc, raw[..|raw| - 1]);
      if last.similarities == [] then init else init + [last]
  }

  lemma DecodeEntriesStep(filePath: string, es: Entries, j: nat, sourceLoc: Option<Value>)
    requires j < |es|
    ensures DecodeEntries(filePath, es[..j + 1], sourceLoc)
            == DecodeEntries(filePath, es[..j], sourceLoc) + [DecodeEntry(filePath, es[j].0, es[j].1, sourceLoc)]
  {
    assert es[..j + 1][..j] == es[..j];
  }

  lemma ProcessedReportsStep(showLoc: bool, raw: RawData, i: nat)
    requires i < |raw|
    ensures var r := ReportOf(showLoc, raw[i].0, raw[i].1);
            ProcessedReports(showLoc, raw[..i + 1])
            == ProcessedReports(showLoc, raw[..i]) + (if r.similarities == [] then [] else [r])
  {
    assert raw[..i + 1][..i] == raw[..i];
  }

  /** The file paths of a list of reports, in order. */
  function Paths(reports: seq<ReportView>): (ps: seq<string>)
    ensures |ps| == |reports|
    ensures forall i :: 0 <= i < |reports| ==> ps[i] == reports[i].filePath
  {
    if reports == [] then [] else Paths(reports[..|reports| - 1]) + [reports[|reports| - 1].filePath]
  }

  // Properties of `_process_result`.

  /**
   * The k-th similarity of a file's report comes from the k-th remaining
   * item: its target is the item's key, its source the report's file and
   * line count, and its percentage and target line count are decoded from
   * the item's value (a record's "Similarity", or 0.0 when that is absent,
   * and its "#LoC", or None; a bare number as a float, with no target line count).
   */
  lemma {:induction false} ReportSimilarityAt(showLoc: bool, filePath: string, es: Entries, k: nat)
    requires k < |TargetsOf(showLoc, es)|
    ensures var r := ReportOf(showLoc, filePath, es);
            var item := TargetsOf(showLoc, es)[k];
            var s := r.similarities[k];
            && |r.similarities| == |TargetsOf(showLoc, es)|
            && s.sourceFile == r.filePath == filePath
            && s.sourceLoc == r.locCount
            && s.targetFile == item.0
            && s.similarityPercentage == (match item.1
                                          case Record(similarity, _) => similarity.GetOr(0.0)
                                          case Int(n) => n as real
                                          case Float(x) => x)
            && s.targetLoc == (if item.1.Record? then item.1.loc else None)
  {
    DecodeEntriesAt(filePath, TargetsOf(showLoc, es), LocCountOf(showLoc, es), k);
  }

  lemma {:induction false} DecodeEntriesAt(filePath: string, es: Entries, sourceLoc: Option<Value>, k: nat)
    requires k < |es|
    ensures DecodeEntries(filePath, es, sourceLoc)[k] == DecodeEntry(filePath, es[k].0, es[k].1, sourceLoc)
    decreases |es|
  {
    if k < |es| - 1 {
      DecodeEntriesAt(filePath, es[..|es| - 1], sourceLoc, k);
    }
  }

  /**
   * With `show_loc` on and a "#LoC" key in a file's mapping, the report's
   * line count is that key's value, no similarity targets "#LoC", and every
   * other item gives exactly one similarity.
   */
  lemma SentinelSplitOff(filePath: string, es: Entries, i: nat)
    requires DistinctKeys(es)
    requires i < |es| && es[i].0 == LOC_KEY
    ensures var r := ReportOf(true, filePath, es);
            && r.locCount == Some(es[i].1)
            && |r.similarities| == |es| - 1
            && forall s :: s in r.similarities ==> s.targetFile != LOC_KEY
  {
    var r := ReportOf(true, filePath, es);
    var targets := TargetsOf(true, es);
    LookupDistinct(es, LOC_KEY, i);
    WithoutKeyLength(es, LOC_KEY);
    WithoutKeyItems(es, LOC_KEY);
    forall s | s in r.similarities
      ensures s.targetFile != LOC_KEY
    {
      var k :| 0 <= k < |r.similarities| && r.similarities[k] == s;
      ReportSimilarityAt(true, filePath, es, k);
      assert targets[k] in targets;
    }
  }

  /**
   * The remaining items of a file's mapping are its items other than the
   * split-off sentinel, in their original order.
   */
  lemma TargetsAreRemainingItems(showLoc: bool, es: Entries)
    ensures IsSubsequence(TargetsOf(showLoc, es), es)
    ensures forall item :: item in TargetsOf(showLoc, es)
                           <==> item in es && !(SplitsSentinel(showLoc, es) && item.0 == LOC_KEY)
  {
    WithoutKeyItems(es, LOC_KEY);
    FilterIsSubsequence(es, KeyIsNot(LOC_KEY));
    if !SplitsSentinel(showLoc, es) {
      FilterIsSubsequence(es, (item: (string, Value)) => true);
      FilterAll(es, (item: (string, Value)) => true);
    }
  }

  /**
   * With `show_loc` off nothing is split off: the report has no line count
   * and a "#LoC" item becomes an ordinary similarity with that target.
   */
  lemma SentinelKeptWithoutShowLoc(filePath: string, es: Entries, i: nat)
    requires i < |es| && es[i].0 == LOC_KEY
    ensures var r := ReportOf(false, filePath, es);
            && r.locCount == None
            && |r.similarities| == |es|
            && r.similarities[i].targetFile == LOC_KEY
  {
    ReportSimilarityAt(false, filePath, es, i);
  }

  /** `_process_result` never returns a report without similarities. */
  lemma {:induction false} NoEmptyReports(showLoc: bool, raw: RawData)
    ensures forall r :: r in ProcessedReports(showLoc, raw) ==> r.similarities != []
    decreases |raw|
  {
    if raw != [] {
      NoEmptyReports(showLoc, raw[..|raw| - 1]);
    }
  }

  /** The reports follow the raw result's key order, at most one per key. */
  lemma {:induction false} ReportsInKeyOrder(showLoc: bool, raw: RawData)
    ensures IsSubsequence(Paths(ProcessedReports(showLoc, raw)), Keys(raw))
    decreases |raw|
  {
    if raw != [] {
      var raw' := raw[..|raw| - 1];
      var last := raw[|raw| - 1];
      var r := ReportOf(showLoc, last.0, last.1);
      var prev := ProcessedReports(showLoc, raw');
      ReportsInKeyOrder(showLoc, raw');
      var ks := Keys(raw);
      assert ks[..|ks| - 1] == Keys(raw');
      if r.similarities != [] {
        assert ProcessedReports(showLoc, raw) == prev + [r];
        assert (prev + [r])[..|prev|] == prev;
        var ps := Paths(prev + [r]);
        assert ps[..|ps| - 1] == Paths(prev);
        assert ps[|ps| - 1] == ks[|ks| - 1];
      } else {
        assert ProcessedReports(showLoc, raw) == prev;
      }
    }
  }

  /** Each report is the report of a raw item. */
  lemma {:induction false} ReportsFromItems(showLoc: bool, raw: RawData)
    ensures forall r :: r in ProcessedReports(showLoc, raw)
                        ==> exists i :: 0 <= i < |raw| && r == ReportOf(showLoc, raw[i].0, raw[i].1)
    decreases |raw|
  {
    if raw != [] {
      var raw' := raw[..|raw| - 1];
      var last := raw[|raw| - 1];
      ReportsFromItems(showLoc, raw');
      forall r | r in ProcessedReports(showLoc, raw)
        ensures exists i :: 0 <= i < |raw| && r == ReportOf(showLoc, raw[i].0, raw[i].1)
      {
        if r in ProcessedReports(showLoc, raw') {
          var i :| 0 <= i < |raw'| && r == ReportOf(showLoc, raw'[i].0, raw'[i].1);
          assert raw'[i] == raw[i];
        } else {
          assert r == ReportOf(showLoc, last.0, last.1);
        }
      }
    }
  }

  /** Because a dict's keys are distinct, no file gets two reports. */
  lemma OneReportPerFile(showLoc: bool, raw: RawData)
    requires DistinctKeys(raw)
    ensures Distinct(Paths(ProcessedReports(showLoc, raw)))
  {
    ReportsInKeyOrder(showLoc, raw);
    SubsequenceDistinct(Paths(ProcessedReports(showLoc, raw)), Keys(raw));
  }

  /**
   * A raw item gets a report iff it has at least one item left after the
   * sentinel is split off; the report, when there is one, is that item's.
   */
  lemma {:induction false} ReportPresence(showLoc: bool, raw: RawData, i: nat)
    requires DistinctKeys(raw)
    requires i < |raw|
    ensures (exists r :: r in ProcessedReports(showLoc, raw) && r.filePath == raw[i].0)
            <==> TargetsOf(showLoc, raw[i].1) != []
    ensures forall r :: r in ProcessedReports(showLoc, raw) && r.filePath == raw[i].0
                        ==> r == ReportOf(showLoc, raw[i].0, raw[i].1)
    decreases |raw|
  {
    var raw' := raw[..|raw| - 1];
    var last := ReportOf(showLoc, raw[|raw| - 1].0, raw[|raw| - 1].1);
    var all := ProcessedReports(showLoc, raw);
    var init := ProcessedReports(showLoc, raw');
    assert all == init + (if last.similarities == [] then [] else [last]);
    assert forall r :: r in all <==> r in init || (r == last && last.similarities != []);
    if i == |raw| - 1 {
      assert forall r :: r in init ==> r.filePath != raw[i].0 by {
        ReportsFromItems(showLoc, raw');
        forall r | r in init
          ensures r.filePath != raw[i].0
        {
          var j :| 0 <= j < |raw'| && r == ReportOf(showLoc, raw'[j].0, raw'[j].1);
          assert raw'[j] == raw[j];
        }
      }
    } else {
      assert DistinctKeys(raw') by {
        forall a, b | 0 <= a < b < |raw'|
          ensures raw'[a].0 != raw'[b].0
        {
          assert raw'[a] == raw[a] && raw'[b] == raw[b];
        }
      }
      ReportPresence(showLoc, raw', i);
      assert raw'[i] == raw[i];
      assert last.filePath != raw[i].0;
    }
  }

  /** The result has duplications iff some file has an item left after the sentinel is split off. */
  lemma {:induction false} HasDuplicationsIff(showLoc: bool, raw: RawData)
    ensures |ProcessedReports(showLoc, raw)| > 0
            <==> exists i :: 0 <= i < |raw| && TargetsOf(showLoc, raw[i].1) != []
    decreases |raw|
  {
    if raw != [] {
      var raw' := raw[..|raw| - 1];
      HasDuplicationsIff(showLoc, raw');
      if exists i :: 0 <= i < |raw| && TargetsOf(showLoc, raw[i].1) != [] {
        var i :| 0 <= i < |raw| && TargetsOf(showLoc, raw[i].1) != [];
        if i < |raw| - 1 {
          assert raw'[i] == raw[i];
        }
      }
      if exists i :: 0 <= i < |raw'| && TargetsOf(showLoc, raw'[i].1) != [] {
        var i :| 0 <= i < |raw'| && TargetsOf(showLoc, raw'[i].1) != [];
        assert raw[i] == raw'[i];
      }
    }
  }

  // `analyze_project`'s exclude patterns.

  predicate EndsWithSlash(s: string) {
    |s| > 0 && s[|s| - 1] == '/'
  }

  /**
   * `dir` is the ignored directory for `pattern`: it ends with "/", starts
   * with the whole pattern and adds at most one character, which is none
   * when the pattern already ends with "/".
   */
  predicate IsDirectoryFor(pattern: string, dir: string) {
    && EndsWithSlash(dir)
    && pattern <= dir
    && |dir| <= |pattern| + 1
    && (EndsWithSlash(pattern) ==> dir == pattern)
  }

  /** A pattern has only one ignored directory: `pattern` itself or `pattern + "/"`. */
  lemma DirectoryForUnique(pattern: string, dir: string)
    requires IsDirectoryFor(pattern, dir)
    ensures dir == if EndsWithSlash(pattern) then pattern else pattern + "/"
  {
    if !EndsWithSlash(pattern) {
      assert dir != pattern;
      assert |dir| == |pattern| + 1;
      assert dir == dir[..|pattern|] + [dir[|pattern|]];
    }
  }

  class DuplicateCodeDetector {
    var failThreshold: int
    var ignoreThreshold: int
    var fileExtensions: seq<string>
    var onlyCode: bool
    var showLoc: bool

    /** `__init__`: an absent or empty extension list means the default list. */
    constructor (failThreshold: int := 100, ignoreThreshold: int := 15,
                 fileExtensions: Option<seq<string>> := None,
                 onlyCode: bool := false, showLoc: bool := true)
      ensures this.failThreshold == failThreshold && this.ignoreThreshold == ignoreThreshold
      ensures this.fileExtensions == if fileExtensions.None? || fileExtensions.value == []
                                     then DEFAULT_EXTENSIONS else fileExtensions.value
      ensures this.onlyCode == onlyCode && this.showLoc == showLoc
    {
      this.failThreshold := failThreshold;
      this.ignoreThreshold := ignoreThreshold;
      this.fileExtensions := if fileExtensions.None? || fileExtensions.value == []
                             then DEFAULT_EXTENSIONS else fileExtensions.value;
      this.onlyCode := onlyCode;
      this.showLoc := showLoc;
    }

    /**
     * `_process_result`: one fresh report per raw item, filled in place and
     * kept only when it has similarities; the raw result is stored as given.
     */
    method ProcessResult(returnCode: ReturnCode, rawData: RawData) returns (result: DetectionResult)
      ensures fresh(result)
      ensures result.returnCode == returnCode && result.rawData == rawData
      ensures ViewsOf(result.reports) == ProcessedReports(showLoc, rawData)
      ensures forall r :: r in result.reports ==> fresh(r)
      ensures Distinct(result.reports)
    {
      var reports: seq<SimilarityReport> := [];
      var i := 0;
      while i < |rawData|
        invariant 0 <= i <= |rawData|
        invariant ViewsOf(reports) == ProcessedReports(showLoc, rawData[..i])
        invariant forall r :: r in reports ==> fresh(r)
        invariant Distinct(reports)
      {
        reports := ProcessItem(reports, rawData[i].0, rawData[i].1);
        ProcessedReportsStep(showLoc, rawData, i);
        i := i + 1;
      }
      assert rawData[..i] == rawData;
      ghost var views := ViewsOf(reports);
      result := new DetectionResult(returnCode, reports, rawData);
      assert ViewsOf(result.reports) == views;
    }

    /**
     * One iteration of `_process_result`'s loop: the report built from the
     * item is appended when it has similarities; the list gains no object
     * it already holds.
     */
    method ProcessItem(reports: seq<SimilarityReport>, filePath: string, entries: Entries)
      returns (extended: seq<SimilarityReport>)
      requires Distinct(reports)
      ensures var r := ReportOf(showLoc, filePath, entries);
              ViewsOf(extended) == ViewsOf(reports) + (if r.similarities == [] then [] else [r])
      ensures extended == reports
              || (|extended| == |reports| + 1 && extended[..|reports|] == reports && fresh(extended[|reports|]))
      ensures forall x :: x in extended ==> x in reports || fresh(x)
      ensures Distinct(extended)
    {
      var report := BuildReport(filePath, entries);
      extended := reports;
      if report.similarities != [] {
        ViewsOfAppend(reports, report);
        DistinctAppend(reports, report);
        extended := reports + [report];
      }
    }

    /**
     * The body of `_process_result`'s loop for one raw item: a fresh report
     * whose line count is set from the split-off sentinel and to which one
     * similarity per remaining item is added.
     */
    method BuildReport(filePath: string, entries: Entries) returns (report: SimilarityReport)
      ensures fresh(report)
      ensures report.View() == ReportOf(showLoc, filePath, entries)
    {
      var similarities := entries;
      report := new SimilarityReport(filePath);

      if showLoc && HasKey(similarities, LOC_KEY) {
        report.locCount := Some(Lookup(similarities, LOC_KEY));
        similarities := WithoutKey(similarities, LOC_KEY);
      }

      var j := 0;
      while j < |similarities|
        invariant 0 <= j <= |similarities|
        invariant similarities == TargetsOf(showLoc, entries)
        invariant report.filePath == filePath && report.locCount == LocCountOf(showLoc, entries)
        invariant report.similarities == DecodeEntries(filePath, similarities[..j], report.locCount)
      {
        var targetFile := similarities[j].0;
        var similarityData := similarities[j].1;
        var similarity;
        if similarityData.Record? {
          similarity := FileSimilarity(filePath, targetFile, similarityData.similarity.GetOr(0.0),
                                       report.locCount, similarityData.loc);
        } else {
          var percentage := if similarityData.Int? then similarityData.n as real else similarityData.x;
          similarity := FileSimilarity(filePath, targetFile, percentage, report.locCount, None);
        }
        DecodeEntriesStep(filePath, similarities, j, report.locCount);
        report.AddSimilarity(similarity);
        j := j + 1;
      }
      assert similarities[..j] == similarities;
    }

    /**
     * The loop of `analyze_project`: every exclude pattern (none when the
     * list is absent) becomes a directory ending with "/", in order.
     */
    method IgnoreDirectories(excludePatterns: Option<seq<string>>) returns (ignoreDirectories: seq<string>)
      ensures |ignoreDirectories| == |excludePatterns.GetOr([])|
      ensures forall k :: 0 <= k < |ignoreDirectories|
                          ==> IsDirectoryFor(excludePatterns.GetOr([])[k], ignoreDirectories[k])
    {
      var patterns := excludePatterns.GetOr([]);
      ignoreDirectories := [];
      var k := 0;
      while k < |patterns|
        invariant 0 <= k <= |patterns|
        invariant |ignoreDirectories| == k
        invariant forall m :: 0 <= m < k ==> IsDirectoryFor(patterns[m], ignoreDirectories[m])
      {
        var pattern := patterns[k];
        if EndsWithSlash(pattern) {
          ignoreDirectories := ignoreDirectories + [pattern];
        } else {
          ignoreDirectories := ignoreDirectories + [pattern + "/"];
        }
        k := k + 1;
      }
    }
  }
}
