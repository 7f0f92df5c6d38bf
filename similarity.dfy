/**
 * The per-file report model of core.py: a pairwise similarity, the report
 * of one file (a class, because `add_similarity` appends to it and the
 * detector sets its line count in place), and the threshold query.
 */
module Similarity {
  import opened Wrappers
  import opened Sequences
  import opened Document
  import opened Raw

  /**
   * The similarity of `sourceFile` to `targetFile`. The line counts are
   * whatever the raw result held: the source's is the value stored under
   * the file's "#LoC" key, the target's the record's "#LoC" entry.
   */
  datatype FileSimilarity = FileSimilarity(
    sourceFile: string,
    targetFile: string,
    similarityPercentage: real,
    sourceLoc: Option<Value>,
    targetLoc: Option<int>)
  {
    /** `to_dict`: the five attributes under their Python names, nothing lost. */
    function ToDict(): (d: Json)
      ensures FileSimilarityFromJson(d) == Some(this)
      ensures Field(d, "similarity_percentage") == Some(JFloat(similarityPercentage))
    {
      FileSimilarityRoundTrip(this);
      FileSimilarityToJson(this)
    }
  }

  function FileSimilarityToJson(s: FileSimilarity): Json {
    JObject([("source_file", JString(s.sourceFile)),
             ("target_file", JString(s.targetFile)),
             ("similarity_percentage", JFloat(s.similarityPercentage)),
             ("source_loc", OptValueToJson(s.sourceLoc)),
             ("target_loc", OptIntToJson(s.targetLoc))])
  }

  /** Each attribute is found under its name in the document. */
  lemma FileSimilarityFields(s: FileSimilarity)
    ensures var d := FileSimilarityToJson(s);
            && Field(d, "source_file") == Some(JString(s.sourceFile))
            && Field(d, "target_file") == Some(JString(s.targetFile))
            && Field(d, "similarity_percentage") == Some(JFloat(s.similarityPercentage))
            && Field(d, "source_loc") == Some(OptValueToJson(s.sourceLoc))
            && Field(d, "target_loc") == Some(OptIntToJson(s.targetLoc))
  {
    var fs := FileSimilarityToJson(s).fields;
    assert "target_file"[0] != "source_file"[0];
    assert "similarity_percentage"[1] != "source_file"[1];
    assert "similarity_percentage"[0] != "target_file"[0];
    assert "source_loc"[7] != "source_file"[7];
    assert "target_loc"[7] != "target_file"[7];
    assert |"source_loc"| != |"similarity_percentage"|;
    assert |"target_loc"| != |"similarity_percentage"|;
    assert "target_loc"[0] != "source_file"[0] && "target_loc"[0] != "source_loc"[0];
    GetFirst(fs, 0);
    GetFirst(fs, 1);
    GetFirst(fs, 2);
    GetFirst(fs, 3);
    GetFirst(fs, 4);
  }

  lemma FileSimilarityRoundTrip(s: FileSimilarity)
    ensures FileSimilarityFromJson(FileSimilarityToJson(s)) == Some(s)
    ensures Field(FileSimilarityToJson(s), "similarity_percentage") == Some(JFloat(s.similarityPercentage))
  {
    FileSimilarityFields(s);
    OptValueRoundTrip(s.sourceLoc);
  }

  function OptValueToJson(o: Option<Value>): Json {
    match o
    case None => JNull
    case Some(v) => ValueToJson(v)
  }

  function OptValueFromJson(j: Json): Option<Option<Value>> {
    if j == JNull then Some(None)
    else
      var v :- ValueFromJson(j);
      Some(Some(v))
  }

  lemma OptValueRoundTrip(o: Option<Value>)
    ensures OptValueFromJson(OptValueToJson(o)) == Some(o)
  {
    if o.Some? {
      ValueRoundTrip(o.value);
    }
  }

  function OptIntToJson(o: Option<int>): Json {
    match o
    case None => JNull
    case Some(n) => JInt(n)
  }

  function OptIntFromJson(j: Json): Option<Option<int>> {
    match j
    case JNull => Some(None)
    case JInt(n) => Some(Some(n))
    case _ => None
  }

  function FileSimilarityFromJson(j: Json): Option<FileSimilarity> {
    var sourceFile :- Field(j, "source_file");
    var targetFile :- Field(j, "target_file");
    var percentage :- Field(j, "similarity_percentage");
    var sourceLoc :- Field(j, "source_loc");
    var targetLoc :- Field(j, "target_loc");
    if sourceFile.JString? && targetFile.JString? && percentage.JFloat? then
      var s :- OptValueFromJson(sourceLoc);
      var t :- OptIntFromJson(targetLoc);
      Some(FileSimilarity(sourceFile.s, targetFile.s, percentage.x, s, t))
    else None
  }

  /** The test `s.similarity_percentage >= threshold` of `get_high_similarities`. */
  function AtLeast(threshold: real): FileSimilarity -> bool {
    (s: FileSimilarity) => s.similarityPercentage >= threshold
  }

  /** `[s for s in similarities if s.similarity_percentage >= threshold]`. */
  function HighSimilarities(similarities: seq<FileSimilarity>, threshold: real): seq<FileSimilarity> {
    Filter(similarities, AtLeast(threshold))
  }

  /**
   * The threshold query keeps exactly the similarities at or above the
   * threshold (the boundary included), in their original order.
   */
  lemma HighSimilaritiesExactly(similarities: seq<FileSimilarity>, threshold: real)
    ensures IsSubsequence(HighSimilarities(similarities, threshold), similarities)
    ensures forall s :: s in HighSimilarities(similarities, threshold)
                        <==> s in similarities && s.similarityPercentage >= threshold
  {
    FilterIsSubsequence(similarities, AtLeast(threshold));
    forall s
      ensures s in HighSimilarities(similarities, threshold)
              <==> s in similarities && s.similarityPercentage >= threshold
    {
      FilterMembers(similarities, AtLeast(threshold), s);
    }
  }

  /**
   * The query is determined element by element: it distributes over
   * concatenation and keeps a single similarity iff it reaches the threshold.
   */
  lemma HighSimilaritiesCompositional(a: seq<FileSimilarity>, b: seq<FileSimilarity>, threshold: real)
    ensures HighSimilarities(a + b, threshold) == HighSimilarities(a, threshold) + HighSimilarities(b, threshold)
    ensures forall s :: HighSimilarities([s], threshold) == if s.similarityPercentage >= threshold then [s] else []
  {
    FilterSplit(a, b, AtLeast(threshold));
    forall s
      ensures HighSimilarities([s], threshold) == if s.similarityPercentage >= threshold then [s] else []
    {
      assert [s][..0] == [];
    }
  }

  /**
   * Raising the threshold from `low` to `high` keeps exactly what the
   * higher threshold would have kept from the lower one's result.
   */
  lemma HighSimilaritiesMonotone(similarities: seq<FileSimilarity>, low: real, high: real)
    requires low <= high
    ensures HighSimilarities(HighSimilarities(similarities, low), high) == HighSimilarities(similarities, high)
    ensures IsSubsequence(HighSimilarities(similarities, high), HighSimilarities(similarities, low))
  {
    FilterOfFilter(similarities, AtLeast(low), AtLeast(high));
    FilterIsSubsequence(HighSimilarities(similarities, low), AtLeast(high));
  }

  /** The value of a `SimilarityReport`'s three attributes. */
  datatype ReportView = ReportView(filePath: string, similarities: seq<FileSimilarity>, locCount: Option<Value>)

  function ReportToJson(v: ReportView): Json {
    JObject([("file_path", JString(v.filePath)),
             ("loc_count", OptValueToJson(v.locCount)),
             ("similarities", JArray(EncodeAll(v.similarities, FileSimilarityToJson)))])
  }

  function ReportFromJson(j: Json): Option<ReportView> {
    var filePath :- Field(j, "file_path");
    var locCount :- Field(j, "loc_count");
    var similarities :- Field(j, "similarities");
    if filePath.JString? && similarities.JArray? then
      var loc :- OptValueFromJson(locCount);
      var sims :- DecodeAll(similarities.items, FileSimilarityFromJson);
      Some(ReportView(filePath.s, sims, loc))
    else None
  }

  lemma ReportRoundTrip(v: ReportView)
    ensures ReportFromJson(ReportToJson(v)) == Some(v)
  {
    var fs := ReportToJson(v).fields;
    assert "loc_count"[0] != "file_path"[0];
    assert "similarities"[0] != "file_path"[0] && |"similarities"| != |"loc_count"|;
    GetFirst(fs, 0);
    GetFirst(fs, 1);
    GetFirst(fs, 2);
    OptValueRoundTrip(v.locCount);
    forall s: FileSimilarity
      ensures FileSimilarityFromJson(FileSimilarityToJson(s)) == Some(s)
    {
      FileSimilarityRoundTrip(s);
    }
    RoundTripAll(v.similarities, FileSimilarityToJson, FileSimilarityFromJson);
  }

  /** The query default of `get_high_similarities`. */
  const DEFAULT_HIGH_THRESHOLD: real := 30.0

  class SimilarityReport {
    var filePath: string
    var similarities: seq<FileSimilarity>
    var locCount: Option<Value>

    constructor (filePath: string, similarities: seq<FileSimilarity> := [], locCount: Option<Value> := None)
      ensures View() == ReportView(filePath, similarities, locCount)
    {
      this.filePath := filePath;
      this.similarities := similarities;
      this.locCount := locCount;
    }

    function View(): ReportView
      reads this
    {
      ReportView(filePath, similarities, locCount)
    }

    /** `add_similarity`: append one similarity, in place. */
    method AddSimilarity(similarity: FileSimilarity)
      modifies this
      ensures similarities == old(similarities) + [similarity]
      ensures filePath == old(filePath) && locCount == old(locCount)
    {
      similarities := similarities + [similarity];
    }

    /** `get_high_similarities`: the similarities at or above `threshold`, in order. */
    function GetHighSimilarities(threshold: real := DEFAULT_HIGH_THRESHOLD): (r: seq<FileSimilarity>)
      reads this
      ensures IsSubsequence(r, similarities)
      ensures forall s :: s in r <==> s in similarities && s.similarityPercentage >= threshold
    {
      HighSimilaritiesExactly(similarities, threshold);
      HighSimilarities(similarities, threshold)
    }

    /** `to_dict`: the report's attributes, from which the report is recovered unchanged. */
    function ToDict(): (d: Json)
      reads this
      ensures ReportFromJson(d) == Some(View())
    {
      ReportRoundTrip(View());
      ReportToJson(View())
    }
  }

  /** The values of a list of report objects, in order. */
  function ViewsOf(reports: seq<SimilarityReport>): (vs: seq<ReportView>)
    reads reports
    ensures |vs| == |reports|
    ensures forall i :: 0 <= i < |reports| ==> vs[i] == reports[i].View()
  {
    if reports == [] then [] else ViewsOf(reports[..|reports| - 1]) + [reports[|reports| - 1].View()]
  }

  lemma ViewsOfAppend(reports: seq<SimilarityReport>, report: SimilarityReport)
    ensures ViewsOf(reports + [report]) == ViewsOf(reports) + [report.View()]
  {
    assert (reports + [report])[..|reports|] == reports;
  }
}
