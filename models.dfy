/**
 * The two stored records of models/assessment.py: an assessment, which
 * receives the engine's report, and a data-quality rule, which keeps its
 * definition as JSON text.
 */
module Models {
  import opened Wrappers
  import opened Reports
  import opened RuleJson

  /** The values the status column takes. */
  datatype Status = Pending | Processing | Completed | Failed

  /** The seven scores of a report, in the order the record declares them. */
  function ReportScores(r: Report): (scores: seq<real>)
    ensures |scores| == 7
  {
    [r.qualityScore, r.completenessScore, r.consistencyScore, r.accuracyScore,
     r.timelinessScore, r.businessValueScore, r.overallValueScore]
  }

  function Lift(xs: seq<real>): (ys: seq<Option<real>>)
    ensures |ys| == |xs| && forall i :: 0 <= i < |xs| ==> ys[i] == Some(xs[i])
  {
    seq(|xs|, i requires 0 <= i < |xs| => Some(xs[i]))
  }

  class Assessment {
    var id: Option<int>
    var name: string
    var description: Option<string>
    var datasetId: int
    var userId: int
    var status: Status
    var completedAt: Option<int>
    var qualityScore: Option<real>
    var completenessScore: Option<real>
    var consistencyScore: Option<real>
    var accuracyScore: Option<real>
    var timelinessScore: Option<real>
    var businessValueScore: Option<real>
    var overallValueScore: Option<real>
    var detailedResults: Option<Report>

    /** The seven score columns, in declaration order. */
    function Scores(): seq<Option<real>>
      reads this
    {
      [qualityScore, completenessScore, consistencyScore, accuracyScore,
       timelinessScore, businessValueScore, overallValueScore]
    }

    /** A new assessment: the four given fields, the status column's
        default, and no scores or results yet. */
    constructor(name: string, description: Option<string>, datasetId: int, userId: int)
      ensures this.name == name && this.description == description
      ensures this.datasetId == datasetId && this.userId == userId
      ensures id == None && status == Pending && completedAt == None
      ensures Scores() == seq(7, i => None)
      ensures detailedResults == None
    {
      this.name := name;
      this.description := description;
      this.datasetId := datasetId;
      this.userId := userId;
      id := None;
      status := Pending;
      completedAt := None;
      qualityScore, completenessScore, consistencyScore, accuracyScore := None, None, None, None;
      timelinessScore, businessValueScore, overallValueScore := None, None, None;
      detailedResults := None;
    }

    /**
     * set_results: copies the seven scores, keeps the whole report, and marks
     * the assessment completed at `now` whether or not the report carries an
     * error. Name, description, dataset and owner are untouched.
     */
    method SetResults(results: Report, now: int)
      modifies this
      ensures Scores() == Lift(ReportScores(results))
      ensures detailedResults == Some(results)
      ensures status == Completed && completedAt == Some(now)
      ensures id == old(id) && name == old(name) && description == old(description)
      ensures datasetId == old(datasetId) && userId == old(userId)
    {
      qualityScore := Some(results.qualityScore);
      completenessScore := Some(results.completenessScore);
      consistencyScore := Some(results.consistencyScore);
      accuracyScore := Some(results.accuracyScore);
      timelinessScore := Some(results.timelinessScore);
      businessValueScore := Some(results.businessValueScore);
      overallValueScore := Some(results.overallValueScore);
      detailedResults := Some(results);
      status := Completed;
      completedAt := Some(now);
    }

    /** get_detailed_results: the report last stored, None before any. */
    method GetDetailedResults() returns (r: Option<Report>)
      ensures r == detailedResults
    {
      r := detailedResults;
    }
  }

  /** What the engine reads from a rule. */
  datatype RuleRecord = RuleRecord(id: Option<int>, name: string, ruleType: string, definitionText: string)

  class DataQualityRule {
    var id: Option<int>
    var name: string
    var description: Option<string>
    var ruleType: string
    var ruleDefinition: string
    var userId: int

    /** A new rule stores its definition as JSON text. */
    constructor(name: string, description: Option<string>, ruleType: string, definition: RuleDefinition, userId: int)
      ensures this.name == name && this.description == description
      ensures this.ruleType == ruleType && this.userId == userId && id == None
      ensures ruleDefinition == Encode(definition)
      ensures Decode(ruleDefinition) == Some(definition)
    {
      this.name := name;
      this.description := description;
      this.ruleType := ruleType;
      ruleDefinition := Encode(definition);
      this.userId := userId;
      id := None;
      DecodeEncode(definition);
    }

    /** get_rule_definition: the parsed JSON text; None where json.loads
        would raise. */
    method GetRuleDefinition() returns (d: Option<RuleDefinition>)
      ensures d == Decode(ruleDefinition)
    {
      d := Decode(ruleDefinition);
    }

    function Record(): RuleRecord
      reads this
    {
      RuleRecord(id, name, ruleType, ruleDefinition)
    }
  }

  /** The records of a list of rules, read at one moment. */
  function Records(rules: seq<DataQualityRule>): (rs: seq<RuleRecord>)
    reads rules
    ensures |rs| == |rules| && forall i :: 0 <= i < |rules| ==> rs[i] == rules[i].Record()
  {
    seq(|rules|, i reads rules requires 0 <= i < |rules| => rules[i].Record())
  }
}
