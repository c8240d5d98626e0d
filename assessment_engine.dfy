/**
 * run_assessment: loads a dataset's file into a table, then fills in the
 * results dict step by step (quality analysis, rules or default accuracy,
 * timeliness, value dimensions, business value, overall value). Any
 * exception ends the run with the report as far as it got and the error
 * recorded in it.
 */
module AssessmentEngine {
  import opened Wrappers
  import opened Numbers
  import opened Frames
  import opened Reports
  import opened RuleJson
  import opened Models
  import opened DataProcessor
  import opened RuleSet
  import opened Accuracy
  import opened Timeliness
  import opened Dimensions
  import opened Scoring

  /** The dataset record fields run_assessment reads. */
  datatype Dataset = Dataset(id: int, name: string, filePath: string, fileType: string)

  /** What json.load returns, as far as run_assessment cares: a non-empty
      list whose first element is a dict (made into a table by
      pd.DataFrame), or anything else. */
  datatype JsonDocument = ObjectList(table: Table) | OtherJson

  /** The file readers: pd.read_csv, pd.read_excel and json.load, each
      failing with the message of the exception it raises. */
  datatype Loaders = Loaders(
    readCsv: string -> Result<Table, string>,
    readExcel: string -> Result<Table, string>,
    loadJson: string -> Result<JsonDocument, string>)

  /** The table of the dataset's file, by file type. */
  function LoadTable(d: Dataset, files: Loaders): Result<Table, AssessmentError>
  {
    if d.fileType == "csv" then
      match files.readCsv(d.filePath)
      case Err(m) => Err(ReadFailed(m))
      case Ok(t) => Ok(t)
    else if d.fileType == "xlsx" || d.fileType == "xls" then
      match files.readExcel(d.filePath)
      case Err(m) => Err(ReadFailed(m))
      case Ok(t) => Ok(t)
    else if d.fileType == "json" then
      match files.loadJson(d.filePath)
      case Err(m) => Err(ReadFailed(m))
      case Ok(ObjectList(t)) => Ok(t)
      case Ok(OtherJson) => Err(JsonNotObjectList)
    else Err(UnsupportedFileType(d.fileType))
  }

  /** The results dict before the try block: every score 0, no details. */
  function InitialReport(d: Dataset, utcNow: int): Report
  {
    Report(d.id, d.name, utcNow, 0.0, 0.0, 0.0, 0.0, 0.0, 0.0, 0.0, NoDetails, None, None)
  }

  /** Step 1: the quality scores and the quality section of the details. */
  function WithQuality(r: Report, q: QualityReport): Report
  {
    r.(qualityScore := q.overall,
       completenessScore := q.completeness.overall,
       consistencyScore := q.consistency.overall,
       details := NoDetails.(quality := Some(QualitySection(
         q.completeness.overall, q.consistency.overall, q.uniqueness.overall))))
  }

  /** Step 2 with rules: the pass percentage is the accuracy. */
  function WithRules(r: Report, rs: RuleSetResult): Report
  {
    r.(accuracyScore := rs.passPercentage,
       details := r.details.(ruleEvaluation := Some(RuleSection(rs.passPercentage, rs.ruleCount, rs.passedRules))))
  }

  /** Step 2 without rules: the default accuracy. */
  function WithDefaultAccuracy(r: Report, accuracy: real): Report
  {
    r.(accuracyScore := accuracy, details := r.details.(accuracy := Some(accuracy)))
  }

  /** Steps 3 to 6: timeliness, the value dimensions, business value,
      overall value and the summary section. */
  function Completed(r: Report, timeliness: real, dims: ValueDimensions): Report
  {
    var business := BusinessValue(r.qualityScore, r.completenessScore, r.consistencyScore, r.accuracyScore, timeliness);
    var overall := OverallValue(r.qualityScore, business);
    r.(timelinessScore := timeliness,
       businessValueScore := business,
       overallValueScore := overall,
       details := r.details.(timeliness := Some(timeliness), valueDimensions := Some(dims),
                             summary := Some(Summary(r.qualityScore, business, overall))))
  }

  /** What run_assessment returns, for rules read at the start of the run,
      at UTC time `utcNow` and local time `localNow`. */
  function AssessmentOf(d: Dataset, files: Loaders, rules: seq<RuleRecord>, rt: Runtime, utcNow: int, localNow: int): Report
  {
    var init := InitialReport(d, utcNow);
    match LoadTable(d, files)
    case Err(e) => init.(error := Some(e))
    case Ok(t) =>
      match QualityAnalysis(t, rt)
      case Err(_) => init.(error := Some(NoColumns))
      case Ok(q) =>
        var withQuality := WithQuality(init, q);
        var scored :=
          if rules != [] then
            match RuleSetOf(t, rules, rt)
            case Err(e) => Err(withQuality.(error := Some(e)))
            case Ok(rs) => Ok(WithRules(withQuality, rs))
          else Ok(WithDefaultAccuracy(withQuality, DefaultAccuracy(rt, t)));
        match scored
        case Err(failed) => failed
        case Ok(r) => Completed(r, TimelinessOf(rt, t.columns, localNow), ValueDimensionsOf(rt, t))
  }

  /** The loader's branch on the file type. */
  method ReadDataset(d: Dataset, files: Loaders) returns (t: Result<Table, AssessmentError>)
    ensures t == LoadTable(d, files)
  {
    if d.fileType == "csv" {
      var read := files.readCsv(d.filePath);
      t := if read.Ok? then Ok(read.value) else Err(ReadFailed(read.error));
    } else if d.fileType == "xlsx" || d.fileType == "xls" {
      var read := files.readExcel(d.filePath);
      t := if read.Ok? then Ok(read.value) else Err(ReadFailed(read.error));
    } else if d.fileType == "json" {
      var data := files.loadJson(d.filePath);
      if data.Err? {
        t := Err(ReadFailed(data.error));
      } else if data.value.ObjectList? {
        t := Ok(data.value.table);
      } else {
        t := Err(JsonNotObjectList);
      }
    } else {
      t := Err(UnsupportedFileType(d.fileType));
    }
  }

  /** run_assessment: the steps in order; the first error ends the run. */
  method RunAssessment(d: Dataset, files: Loaders, rules: seq<DataQualityRule>, rt: Runtime, utcNow: int, localNow: int)
    returns (results: Report)
    ensures results == AssessmentOf(d, files, Records(rules), rt, utcNow, localNow)
  {
    results := InitialReport(d, utcNow);
    var loaded := ReadDataset(d, files);
    if loaded.Err? {
      return results.(error := Some(loaded.error));
    }
    var t := loaded.value;
    var quality := AnalyzeDataQuality(t, rt);
    if quality.Err? {
      return results.(error := Some(NoColumns));
    }
    results := WithQuality(results, quality.value);
    if rules != [] {
      var ruleResults := ApplyQualityRules(t, rules, rt);
      if ruleResults.Err? {
        return results.(error := Some(ruleResults.error));
      }
      results := WithRules(results, ruleResults.value);
    } else {
      var accuracy := EvaluateDefaultAccuracy(t, rt);
      results := WithDefaultAccuracy(results, accuracy);
    }
    var timeliness := EvaluateTimeliness(t, rt, localNow);
    var dims := EvaluateValueDimensions(t, rt);
    results := Completed(results, timeliness, dims);
  }

  /** A run that cannot load its file reports the error with every score 0
      and no details. */
  lemma LoadFailureReport(d: Dataset, files: Loaders, rules: seq<RuleRecord>, rt: Runtime, utcNow: int, localNow: int)
    requires LoadTable(d, files).Err?
    ensures var r := AssessmentOf(d, files, rules, rt, utcNow, localNow);
      && r.error == Some(LoadTable(d, files).error)
      && (forall i :: 0 <= i < 7 ==> ReportScores(r)[i] == 0.0)
      && r.details == NoDetails
      && r.datasetId == d.id && r.datasetName == d.name && r.assessmentTime == utcNow
  {
  }

  /** A table without columns fails the quality analysis (a division by
      zero), so the run reports that error with every score 0. */
  lemma NoColumnsReport(d: Dataset, files: Loaders, rules: seq<RuleRecord>, rt: Runtime, utcNow: int, localNow: int)
    requires LoadTable(d, files).Ok?
    ensures var r := AssessmentOf(d, files, rules, rt, utcNow, localNow);
      && (r.error == Some(NoColumns) <==> LoadTable(d, files).value.columns == [])
      && (r.error == Some(NoColumns) ==> (forall i :: 0 <= i < 7 ==> ReportScores(r)[i] == 0.0) && r.details == NoDetails)
  {
    QualityAnalysisBounds(LoadTable(d, files).value, rt);
  }

  /** No step writes the quality breakdown. */
  lemma NoQualityBreakdown(d: Dataset, files: Loaders, rules: seq<RuleRecord>, rt: Runtime, utcNow: int, localNow: int)
    ensures AssessmentOf(d, files, rules, rt, utcNow, localNow).qualityBreakdown.None?
  {
  }

  /** The file types the engine reads; any other is rejected before
      anything is read. */
  lemma UnsupportedFileTypes(d: Dataset, files: Loaders)
    ensures LoadTable(d, files) == Err(UnsupportedFileType(d.fileType)) <==>
      d.fileType !in ["csv", "xlsx", "xls", "json"]
  {
  }

  /** A stored rule definition that does not parse ends the run after the
      quality step: the quality scores stay, accuracy and everything after it
      stay 0. */
  lemma RuleFailureKeepsQuality(d: Dataset, files: Loaders, rules: seq<RuleRecord>, rt: Runtime, utcNow: int, localNow: int)
    requires LoadTable(d, files).Ok? && rules != []
    requires exists i :: 0 <= i < |rules| && Decode(rules[i].definitionText).None?
    requires LoadTable(d, files).value.columns != []
    ensures var r := AssessmentOf(d, files, rules, rt, utcNow, localNow);
      var q := QualityAnalysis(LoadTable(d, files).value, rt).value;
      && r.error == Some(InvalidRuleDefinition)
      && r.qualityScore == q.overall
      && r.accuracyScore == 0.0 && r.timelinessScore == 0.0
      && r.businessValueScore == 0.0 && r.overallValueScore == 0.0
      && r.details.quality.Some? && r.details.ruleEvaluation.None? && r.details.summary.None?
  {
    var t := LoadTable(d, files).value;
    QualityAnalysisBounds(t, rt);
    RuleSetCounts(t, rules, rt);
  }

  /** Steps 3 to 6 keep the earlier scores, bound the new ones and write a
      summary that repeats the headline scores. */
  lemma CompletedBounds(r: Report, timeliness: real, dims: ValueDimensions)
    requires 0.0 <= r.qualityScore <= 100.0 && 0.0 <= r.completenessScore <= 100.0
    requires 0.0 <= r.consistencyScore <= 100.0 && 0.0 <= r.accuracyScore <= 100.0
    requires 10.0 <= timeliness <= 100.0
    ensures var c := Completed(r, timeliness, dims);
      && (forall i :: 0 <= i < 7 ==> 0.0 <= ReportScores(c)[i] <= 100.0)
      && c.timelinessScore == timeliness
      && c.accuracyScore == r.accuracyScore && c.error == r.error
      && c.qualityBreakdown == r.qualityBreakdown
      && c.details.ruleEvaluation == r.details.ruleEvaluation
      && c.details.summary == Some(Summary(c.qualityScore, c.businessValueScore, c.overallValueScore))
  {
    var b := BusinessValue(r.qualityScore, r.completenessScore, r.consistencyScore, r.accuracyScore, timeliness);
    var o := OverallValue(r.qualityScore, b);
  }

  /** The report of a run that ends without error, before steps 3 to 6. */
  lemma CompletedRunShape(d: Dataset, files: Loaders, rules: seq<RuleRecord>, rt: Runtime, utcNow: int, localNow: int)
    returns (t: Table, q: QualityReport, scored: Report)
    requires AssessmentOf(d, files, rules, rt, utcNow, localNow).error.None?
    ensures LoadTable(d, files) == Ok(t) && QualityAnalysis(t, rt) == Ok(q)
    ensures rules != [] ==>
      && RuleSetOf(t, rules, rt).Ok?
      && scored == WithRules(WithQuality(InitialReport(d, utcNow), q), RuleSetOf(t, rules, rt).value)
    ensures rules == [] ==> scored == WithDefaultAccuracy(WithQuality(InitialReport(d, utcNow), q), DefaultAccuracy(rt, t))
    ensures AssessmentOf(d, files, rules, rt, utcNow, localNow)
      == Completed(scored, TimelinessOf(rt, t.columns, localNow), ValueDimensionsOf(rt, t))
  {
    t := LoadTable(d, files).value;
    q := QualityAnalysis(t, rt).value;
    var w := WithQuality(InitialReport(d, utcNow), q);
    scored := if rules != [] then WithRules(w, RuleSetOf(t, rules, rt).value) else WithDefaultAccuracy(w, DefaultAccuracy(rt, t));
  }

  /**
   * A completed run: every score a percentage, timeliness in [10, 100],
   * accuracy the rules' pass percentage when there are rules and the default
   * accuracy otherwise, and the summary repeating the three headline
   * scores. The chart breakdown is never written.
   */
  lemma CompletedRunScores(d: Dataset, files: Loaders, rules: seq<RuleRecord>, rt: Runtime, utcNow: int, localNow: int)
    requires AssessmentOf(d, files, rules, rt, utcNow, localNow).error.None?
    ensures var r := AssessmentOf(d, files, rules, rt, utcNow, localNow);
      var t := LoadTable(d, files).value;
      && LoadTable(d, files).Ok? && t.columns != []
      && r.qualityBreakdown.None?
      && (forall i :: 0 <= i < 7 ==> 0.0 <= ReportScores(r)[i] <= 100.0)
      && 10.0 <= r.timelinessScore
      && r.details.summary == Some(Summary(r.qualityScore, r.businessValueScore, r.overallValueScore))
      && (rules != [] ==> r.details.ruleEvaluation == Some(RuleSection(r.accuracyScore, |rules|, RuleSetOf(t, rules, rt).value.passedRules)))
      && (rules == [] ==> r.accuracyScore == DefaultAccuracy(rt, t))
  {
    var t, q, scored := CompletedRunShape(d, files, rules, rt, utcNow, localNow);
    QualityAnalysisBounds(t, rt);
    if rules != [] {
      RuleSetCounts(t, rules, rt);
    }
    TimelinessBounds(rt, t.columns, localNow);
    CompletedBounds(scored, TimelinessOf(rt, t.columns, localNow), ValueDimensionsOf(rt, t));
  }
}
