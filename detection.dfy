/**
 * The result of one detection run (core.py `DetectionResult`): the run's
 * return code, the per-file reports and the raw result they were built from.
 */
module Detection {
  import opened Wrappers
  import opened Sequences
  import opened Document
  import opened Raw
  import opened Similarity

  /**
   * The run's return code, by its integer value. The enumeration lives in
   * the detection engine; its success member has the value 0.
   */
  datatype ReturnCode = ReturnCode(value: int)

  const SUCCESS: ReturnCode := ReturnCode(0)

  /** The query default of `get_critical_duplications`. */
  const DEFAULT_CRITICAL_THRESHOLD: real := 50.0

  /**
   * Every report's similarities at or above `threshold`, flattened in
   * report order and, within a report, in the report's own order.
   */
  function Critical(reports: seq<ReportView>, threshold: real): seq<FileSimilarity>
    decreases |reports|
  {
    if reports == [] then []
    else Critical(reports[..|reports| - 1], threshold)
         + HighSimilarities(reports[|reports| - 1].similarities, threshold)
  }

  lemma CriticalStep(reports: seq<ReportView>, i: nat, threshold: real)
    requires i < |reports|
    ensures Critical(reports[..i + 1], threshold)
            == Critical(reports[..i], threshold) + HighSimilarities(reports[i].similarities, threshold)
  {
    assert reports[..i + 1][..i] == reports[..i];
  }

  /**
   * A similarity is critical iff some report lists it at or above the
   * threshold.
   */
  lemma {:induction false} CriticalMembers(reports: seq<ReportView>, threshold: real, s: FileSimilarity)
    ensures s in Critical(reports, threshold)
            <==> s.similarityPercentage >= threshold
                 && exists i :: 0 <= i < |reports| && s in reports[i].similarities
    decreases |reports|
  {
    if reports != [] {
      var init := reports[..|reports| - 1];
      var last := reports[|reports| - 1];
      CriticalMembers(init, threshold, s);
      HighSimilaritiesExactly(last.similarities, threshold);
      if s.similarityPercentage >= threshold && exists i :: 0 <= i < |reports| && s in reports[i].similarities {
        var i :| 0 <= i < |reports| && s in reports[i].similarities;
        if i < |reports| - 1 {
          assert init[i] == reports[i];
        }
      }
      if exists i :: 0 <= i < |init| && s in init[i].similarities {
        var i :| 0 <= i < |init| && s in init[i].similarities;
        assert reports[i] == init[i];
      }
    }
  }

  /**
   * Threshold monotonicity: the critical list at a higher threshold is the
   * critical list at a lower one, filtered again; so it is a subsequence of it.
   */
  lemma {:induction false} CriticalMonotone(reports: seq<ReportView>, low: real, high: real)
    requires low <= high
    ensures Critical(reports, high) == HighSimilarities(Critical(reports, low), high)
    ensures IsSubsequence(Critical(reports, high), Critical(reports, low))
    decreases |reports|
  {
    if reports != [] {
      var init := reports[..|reports| - 1];
      var last := reports[|reports| - 1].similarities;
      CriticalMonotone(init, low, high);
      HighSimilaritiesMonotone(last, low, high);
      HighSimilaritiesCompositional(Critical(init, low), HighSimilarities(last, low), high);
    }
    FilterIsSubsequence(Critical(reports, low), AtLeast(high));
  }

  /** Every report value round-trips through its document. */
  lemma ReportsRoundTrip()
    ensures forall v :: ReportFromJson(ReportToJson(v)) == Some(v)
  {
    forall v
      ensures ReportFromJson(ReportToJson(v)) == Some(v)
    {
      ReportRoundTrip(v);
    }
  }

  /** The document `DetectionResult.to_dict` builds from its five parts. */
  function ResultToJson(returnCode: ReturnCode, success: bool, hasDuplications: bool,
                        reports: seq<ReportView>, rawData: RawData): Json
  {
    JObject([("return_code", JInt(returnCode.value)),
             ("success", JBool(success)),
             ("has_duplications", JBool(hasDuplications)),
             ("reports", JArray(EncodeAll(reports, ReportToJson))),
             ("raw_data", RawToJson(rawData))])
  }

  /** Each part is found under its name and, for the lists, decodes back unchanged. */
  lemma ResultFields(returnCode: ReturnCode, success: bool, hasDuplications: bool,
                     reports: seq<ReportView>, rawData: RawData)
    ensures var d := ResultToJson(returnCode, success, hasDuplications, reports, rawData);
            && Field(d, "return_code") == Some(JInt(returnCode.value))
            && Field(d, "success") == Some(JBool(success))
            && Field(d, "has_duplications") == Some(JBool(hasDuplications))
            && Field(d, "reports") == Some(JArray(EncodeAll(reports, ReportToJson)))
            && Field(d, "raw_data") == Some(RawToJson(rawData))
            && DecodeAll(EncodeAll(reports, ReportToJson), ReportFromJson) == Some(reports)
            && RawFromJson(RawToJson(rawData)) == Some(rawData)
  {
    var fields := ResultToJson(returnCode, success, hasDuplications, reports, rawData).fields;
    assert "success"[0] != "return_code"[0];
    assert "has_duplications"[0] != "return_code"[0] && "has_duplications"[0] != "success"[0];
    assert "reports"[2] != "return_code"[2] && "reports"[0] != "success"[0] && "reports"[0] != "has_duplications"[0];
    assert "raw_data"[1] != "return_code"[1] && "raw_data"[0] != "success"[0];
    assert "raw_data"[0] != "has_duplications"[0] && "raw_data"[1] != "reports"[1];
    GetFirst(fields, 0);
    GetFirst(fields, 1);
    GetFirst(fields, 2);
    GetFirst(fields, 3);
    GetFirst(fields, 4);
    ReportsRoundTrip();
    RoundTripAll(reports, ReportToJson, ReportFromJson);
    RawRoundTrip(rawData);
  }

  class DetectionResult {
    var returnCode: ReturnCode
    var reports: seq<SimilarityReport>
    var rawData: RawData

    constructor (returnCode: ReturnCode, reports: seq<SimilarityReport> := [], rawData: RawData := [])
      ensures this.returnCode == returnCode && this.reports == reports && this.rawData == rawData
    {
      this.returnCode := returnCode;
      this.reports := reports;
      this.rawData := rawData;
    }

    /** `is_success`: the engine reported success, whose code value is 0. */
    predicate IsSuccess(): (b: bool)
      reads this
      ensures b <==> returnCode.value == 0
    {
      returnCode == SUCCESS
    }

    /** `has_duplications`: at least one report was kept. */
    predicate HasDuplications(): (b: bool)
      reads this
      ensures b <==> reports != []
    {
      |reports| > 0
    }

    /**
     * `get_critical_duplications`: built by appending, report by report,
     * each report's `get_high_similarities(threshold)`.
     */
    method GetCriticalDuplications(threshold: real := DEFAULT_CRITICAL_THRESHOLD) returns (critical: seq<FileSimilarity>)
      ensures critical == Critical(ViewsOf(reports), threshold)
    {
      ghost var views := ViewsOf(reports);
      critical := [];
      var i := 0;
      while i < |reports|
        invariant 0 <= i <= |reports|
        invariant critical == Critical(views[..i], threshold)
      {
        var high := reports[i].GetHighSimilarities(threshold);
        var j := 0;
        while j < |high|
          invariant 0 <= j <= |high|
          invariant critical == Critical(views[..i], threshold) + high[..j]
        {
          PrefixStep(high, j);
          critical := critical + [high[j]];
          j := j + 1;
        }
        assert high[..j] == high;
        CriticalStep(views, i, threshold);
        i := i + 1;
      }
      assert views[..i] == views;
    }

    /**
     * `to_dict`: the document carries the return code's value, the two
     * flags, the reports and the raw result, from which the reports and the
     * raw result are recovered unchanged.
     */
    function ToDict(): (d: Json)
      reads this, reports
      ensures Field(d, "return_code") == Some(JInt(returnCode.value))
      ensures Field(d, "success") == Some(JBool(IsSuccess()))
      ensures Field(d, "has_duplications") == Some(JBool(HasDuplications()))
      ensures var r := Field(d, "reports");
              r.Some? && r.value.JArray? && DecodeAll(r.value.items, ReportFromJson) == Some(ViewsOf(reports))
      ensures var r := Field(d, "raw_data");
              r.Some? && RawFromJson(r.value) == Some(rawData)
    {
      ResultFields(returnCode, IsSuccess(), HasDuplications(), ViewsOf(reports), rawData);
      ResultToJson(returnCode, IsSuccess(), HasDuplications(), ViewsOf(reports), rawData)
    }
  }
}
