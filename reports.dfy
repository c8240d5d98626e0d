/**
 * The records the scoring engine produces: the quality analysis, the value
 * dimensions, the outcome of each rule and of a rule set, and the
 * assessment report that run_assessment returns.
 */
module Reports {
  import opened Wrappers

  /** One dimension of the quality analysis: each column's score, in column
      order (the insertion order of the Python dict), and their rounded mean. */
  datatype DimensionScores = DimensionScores(columnScores: seq<(string, real)>, overall: real)

  datatype QualityReport = QualityReport(
    completeness: DimensionScores,
    uniqueness: DimensionScores,
    consistency: DimensionScores,
    overall: real)

  /** The five value dimensions; timeliness is listed but never filled in. */
  datatype ValueDimensions = ValueDimensions(
    completeness: real,
    accuracy: real,
    timeliness: real,
    consistency: real,
    usability: real)

  /** Why a rule could not be scored: the error detail apply_rule_condition
      records. */
  datatype RuleError =
    | ThresholdNotNumber
    | InvalidRange
    | InvalidPattern
    | InvalidCompareValue
    | UnsupportedCondition(condition: string)

  datatype RuleDetail = Checked(valid: nat, total: nat) | Failed(reason: RuleError)

  /** The result of one rule on one column: `passed`, the rounded
      `pass_rate`, and the counts or the error. */
  datatype RuleOutcome = RuleOutcome(passed: bool, passRate: real, detail: RuleDetail)

  /** One entry of the rule set's `details`: a rule whose column is missing is
      skipped, every other rule is evaluated. */
  datatype RuleEntry =
    | Skipped(ruleId: Option<int>, ruleName: string, missingColumn: string)
    | Evaluated(ruleId: Option<int>, ruleName: string, ruleType: string, outcome: RuleOutcome)

  datatype RuleSetResult = RuleSetResult(
    ruleCount: nat,
    passedRules: nat,
    failedRules: nat,
    passPercentage: real,
    details: seq<RuleEntry>)

  /** Exceptions that end an assessment run: the loader's, the division by
      zero in the quality analysis of a table without columns, and a stored
      rule definition that json.loads rejects. */
  datatype AssessmentError =
    | UnsupportedFileType(fileType: string)
    | JsonNotObjectList
    | ReadFailed(message: string)
    | NoColumns
    | InvalidRuleDefinition

  datatype QualitySection = QualitySection(completeness: real, consistency: real, uniqueness: real)

  datatype RuleSection = RuleSection(passPercentage: real, ruleCount: nat, passedRules: nat)

  datatype Summary = Summary(quality: real, businessValue: real, overallValue: real)

  /** The `details` sections, each present once run_assessment has written it. */
  datatype Details = Details(
    quality: Option<QualitySection>,
    ruleEvaluation: Option<RuleSection>,
    accuracy: Option<real>,
    timeliness: Option<real>,
    valueDimensions: Option<ValueDimensions>,
    summary: Option<Summary>)

  const NoDetails := Details(None, None, None, None, None, None)

  /**
   * The results dict. `qualityBreakdown` is the 'quality' key that the chart
   * builder looks for; run_assessment never writes it.
   */
  datatype Report = Report(
    datasetId: int,
    datasetName: string,
    assessmentTime: int,
    qualityScore: real,
    completenessScore: real,
    consistencyScore: real,
    accuracyScore: real,
    timelinessScore: real,
    businessValueScore: real,
    overallValueScore: real,
    details: Details,
    qualityBreakdown: Option<QualityReport>,
    error: Option<AssessmentError>)
}
