# Data value assessment engine, modelled in Dafny

This project models the scoring core of a web application that rates uploaded
datasets. For each dataset, an assessment run does the following:

- It loads the file (CSV, Excel or a JSON list of objects) into a table.
- It analyses the table's data quality: per-column completeness, uniqueness and
  consistency.
- It applies the user's data-quality rules (`not_null`, `unique`, `range`,
  `pattern`, the four comparisons, `in_list`, `not_in_list`). When there are no
  rules, it falls back to a default accuracy score.
- It scores timeliness from the newest date in the table.
- It computes five value dimensions, a weighted business value and a weighted
  overall value.
- The `Assessment` record stores the report. The chart helpers turn a stored
  assessment into radar, gauge and bar chart data. They also classify column
  types, list missing data and format file sizes.

Modules, one per concern:

- `Frames`: the loaded table. Named columns, each with a dtype and one optional
  cell per row.
- `Reports`: the records the engine produces.
- `DataProcessor`: `analyze_data_quality`.
- `RuleCondition`: `apply_rule_condition`.
- `RuleSet`: `apply_quality_rules`.
- `RuleJson`: a rule's stored JSON text.
- `Statistics`: the three-sigma outlier test.
- `Accuracy`: `evaluate_default_accuracy`.
- `Timeliness`: `evaluate_timeliness`.
- `Dimensions`: `evaluate_value_dimensions`.
- `Scoring`: the business and overall values.
- `Models`: the `Assessment` and `DataQualityRule` classes.
- `AssessmentEngine`: `run_assessment`.
- `Visualization`: the chart and summary helpers.
- `Numbers`, `Strings` and `Wrappers`: shared arithmetic, string and
  option/result support.

Each step is written twice:

- Loops that update variables are `method`s with loop invariants.
- Each method is proved equal to a specification function.
- The lemmas state what the source promises about those functions: bounds,
  round trips, counts, orderings and error cases.

`Assessment` and `DataQualityRule` are classes, because the source updates
their fields in place.

## Model

| member | source | states |
|---|---|---|
| Numbers.Round2Monotone | utils/assessment_engine.py:451 | rounding to two decimals keeps order |
| Numbers.Round2Percent | utils/assessment_engine.py:451 | a rounded percentage stays within 0..100 |
| Numbers.RoundedMeanPercent | utils/data_processor.py:173 | the rounded mean of percentages is a percentage |
| Numbers.FracComplement | utils/data_processor.py:169 | one minus the null share is the present share |
| Frames.NullsAndPresent | utils/data_processor.py:169 | every cell is either null or present |
| Frames.NUniqueAtMostPresent | utils/data_processor.py:179 | nunique counts distinct present values, at most the present cells and at most the rows |
| Frames.Lookup | utils/assessment_engine.py:173 | a column is found exactly when one of that name exists |
| Strings.StripEmptyIffAllSpace | utils/data_processor.py:198 | `str.strip() != ''` fails exactly for text made only of Python whitespace, Unicode spaces such as U+00A0 and U+3000 included |
| Strings.SplitJoin | utils/assessment_engine.py:324 | splitting on a separator loses nothing and leaves no separator inside a part |
| Strings.TextSignAntisymmetric | utils/assessment_engine.py:303-306 | string comparison is antisymmetric: swapping the operands flips the sign |
| Strings.TextSignTransitive | utils/assessment_engine.py:303-306 | string comparison is transitive, so with antisymmetry it is a strict order |
| DataProcessor.ScoreCompleteness | utils/data_processor.py:167-170 | the loop yields each column's rounded non-null percentage, in column order |
| DataProcessor.ScoreUniqueness | utils/data_processor.py:177-180 | the loop yields each column's rounded distinct-value percentage, with True and 1 (False and 0) as one value, 0 for an empty table |
| DataProcessor.ScoreConsistency | utils/data_processor.py:187-202 | the loop yields each column's rounded valid-value percentage by dtype; text is valid when it is not only Python whitespace |
| DataProcessor.AnalyzeDataQuality | utils/data_processor.py:149-217 | the analysis equals the specification, every dimension keyed by the table's column names |
| DataProcessor.CompletenessIsPresentShare | utils/data_processor.py:169-170 | a column's completeness is its rounded percentage of present cells, within 0..100 |
| DataProcessor.UniquenessBounds | utils/data_processor.py:179-180 | uniqueness is 0 for an empty table and always within 0..100 |
| DataProcessor.ConsistencyAtMostCompleteness | utils/data_processor.py:188-202 | a column's consistency never exceeds its completeness |
| DataProcessor.CompletenessFullIffNoNulls | utils/data_processor.py:169-170 | below 20000 rows, completeness is 100 exactly when no cell is missing |
| DataProcessor.CompletenessRoundsUpAt20000 | utils/data_processor.py:170 | with 20000 rows and one missing cell, the rounded completeness is still 100 |
| DataProcessor.OneMissingIn20000Exists | utils/data_processor.py:170 | such a column exists, so the iff above needs its row bound |
| DataProcessor.TrueAndOneAreOneValue | utils/data_processor.py:179-180 | a column holding True and 1 has one distinct value in two rows, uniqueness 50 |
| DataProcessor.QualityAnalysisBounds | utils/data_processor.py:171-215 | the analysis fails exactly for a table with no columns; otherwise every column score and overall score is within 0..100 |
| RuleCondition.Scored | utils/assessment_engine.py:232-241 | a counted rule reports its counts and a pass rate within 0..100 |
| RuleCondition.ApplyRuleCondition | utils/assessment_engine.py:210-350 | the pass rate is within 0..100; an error detail means not passed with rate 0; counts are over all rows |
| RuleCondition.PassedIffRateMeetsBar | utils/assessment_engine.py:230-342 | a rule passes exactly when it counted and its unrounded rate meets the bar (the threshold or 95); the stored rate is that rate rounded; no rows give rate 0 |
| RuleCondition.FailureCases | utils/assessment_engine.py:256-348 | an unknown condition, a malformed range, an invalid pattern and a non-numeric threshold each record their error |
| RuleCondition.ListDates | utils/assessment_engine.py:324-327 | on a datetime column the list is read as dates exactly when no item fails to parse; each item gives its instant or NaT (an empty item, "NaT"), in order |
| RuleCondition.InListComplement | utils/assessment_engine.py:326-329 | `in_list` and `not_in_list` always count, and their counts add up to the row count |
| RuleCondition.DatetimeInListFull | utils/assessment_engine.py:321-340 | on a datetime column whose every date is in the parsed list, and whose missing cells meet a NaT in it, `in_list` passes with rate 100 and counts every row |
| RuleCondition.DatetimeCompareNaT | utils/assessment_engine.py:296-306 | comparing a datetime column with a value read as NaT raises nothing: equals, greater_than and less_than count 0, not_equals counts every row |
| RuleCondition.EqualsComplement | utils/assessment_engine.py:299-302 | `equals` and `not_equals` fail or succeed together, and their counts add up to the row count |
| RuleCondition.NotNullFullIffNoNulls | utils/assessment_engine.py:230-235 | `not_null` with threshold 100 passes exactly when no cell is missing |
| RuleCondition.NotNullExample | utils/assessment_engine.py:230-241 | one null in three rows gives pass rate 66.67, not passed |
| RuleCondition.SplitZeroTen | utils/assessment_engine.py:259-261 | the range text "0,10" parses to the bounds 0 and 10 |
| RuleCondition.RangeExample | utils/assessment_engine.py:256-273 | two of four values in range give pass rate 50, not passed |
| RuleJson.HexDigitValue | models/assessment.py:85-90 | a hex digit reads back as its value |
| RuleJson.ParseHex4Hex4 | models/assessment.py:85-90 | four hex digits read back as the code unit |
| RuleJson.Surrogates | models/assessment.py:85 | a character above U+FFFF splits into a high and a low surrogate that combine back to it |
| RuleJson.UnescapeEscapeChar | models/assessment.py:85-90 | decoding one escaped character gives that character back |
| RuleJson.UnescapeEscape | models/assessment.py:85-90 | decoding an escaped string up to its closing quote gives the string and the rest |
| RuleJson.EscapeIsAscii | models/assessment.py:85 | the escaped text is printable ASCII only |
| RuleJson.Encode | models/assessment.py:84 | the stored text is printable ASCII, opens with the column key and closes with a brace |
| RuleJson.Decode | models/assessment.py:90 | a text that decodes opens with the column key and closes with a brace |
| RuleJson.DecodeEncode | models/assessment.py:85-90 | json.loads of json.dumps of a rule definition gives the definition back |
| RuleJson.EncodeInjective | models/assessment.py:85 | distinct definitions are stored as distinct texts |
| RuleSet.EvaluateRule | utils/assessment_engine.py:167-200 | one rule gives a skipped or evaluated entry, or fails when its definition does not decode |
| RuleSet.ApplyQualityRules | utils/assessment_engine.py:147-208 | the loop's result equals the specification of the whole rule set |
| RuleSet.LoopStep | utils/assessment_engine.py:166-200 | one iteration extends the entries and bumps exactly the matching counter |
| RuleSet.LoopFails | utils/assessment_engine.py:167 | a definition that does not decode fails the whole rule set |
| RuleSet.EntriesDefined | utils/assessment_engine.py:166-200 | the rule set yields entries exactly when every rule's definition decodes |
| RuleSet.EntriesPointwise | utils/assessment_engine.py:166-200 | the entries are the rules' entries, one per rule, in order |
| RuleSet.RuleStepCases | utils/assessment_engine.py:167-181 | an entry keeps the rule's id and name, and is skipped exactly when its column is missing |
| RuleSet.RuleSetCounts | utils/assessment_engine.py:158-208 | passed + failed + skipped equals the rule count; the pass percentage is within 0..100, and 0 with no rules; entries follow the rules |
| Statistics.OutlierScore | utils/assessment_engine.py:471-476 | a numeric column's outlier score is within 0..100 |
| Statistics.Samuelson | utils/assessment_engine.py:472-473 | Samuelson's inequality: n times any value's squared deviation from the mean is at most n-1 times the sum of squared deviations |
| Statistics.FewValuesHaveNoOutliers | utils/assessment_engine.py:472-473 | with at most ten numbers no value has a z-score above 3 |
| Statistics.NoOutliersFullScore | utils/assessment_engine.py:474 | a column without outliers scores 100 |
| Statistics.FewValuesScoreFull | utils/assessment_engine.py:471-476 | a numeric column with at most ten numbers scores 100 |
| Statistics.ConstantVariance | utils/assessment_engine.py:475-476 | constant values have zero spread |
| Accuracy.DefaultColumnScore | utils/assessment_engine.py:466-488 | a column's default accuracy is within 0..100 |
| Accuracy.EvaluateDefaultAccuracy | utils/assessment_engine.py:453-493 | the loop's result equals the specification |
| Accuracy.DefaultColumnScoreCases | utils/assessment_engine.py:469-488 | numbers score by outliers; text is at most its present share and 100 exactly when every cell is filled; dates are 100 exactly when none is missing; other dtypes score 0 |
| Accuracy.FewNumbersScoreFull | utils/assessment_engine.py:469-476 | a numeric column with at most ten numbers scores 100 |
| Accuracy.DefaultAccuracyFull | utils/assessment_engine.py:493 | all columns at 100 give 100 |
| Accuracy.UnscoredColumnsScoreZero | utils/assessment_engine.py:465-493 | a table of only unscored dtypes scores 0 |
| Timeliness.MaxOf | utils/assessment_engine.py:386-400 | max() is an element no smaller than any other |
| Timeliness.FindDateColumns | utils/assessment_engine.py:363-379 | the loop collects one copy of a column per date test it passes |
| Timeliness.FindLatestDates | utils/assessment_engine.py:386-394 | the loop collects the newest date of every column that has one |
| Timeliness.EvaluateTimeliness | utils/assessment_engine.py:352-417 | the method's result equals the specification |
| Timeliness.StepScoreAntitone | utils/assessment_engine.py:404-417 | older data never scores higher, and scores stay within 10..100 |
| Timeliness.StepScoreExamples | utils/assessment_engine.py:404-417 | at most a day old scores 100, 400 days 49.65, 4365 days or more the floor of 10 |
| Timeliness.LatestDateAbove | utils/assessment_engine.py:389-392 | every date is at most some column's latest date |
| Timeliness.LatestDateSource | utils/assessment_engine.py:389-392 | every latest date is a date of some column |
| Timeliness.MostRecentIsNewestDate | utils/assessment_engine.py:400 | the most recent date is the newest date in any date column, and it occurs in one |
| Timeliness.TimelinessBounds | utils/assessment_engine.py:382-417 | the score is within 10..100, and 50 when no date is found |
| Timeliness.DateColumnIncluded | utils/assessment_engine.py:366-378 | a column that passes a date test is a date column |
| Timeliness.BlankTextIsNaT | utils/assessment_engine.py:374-379 | an object column of date text and an empty string is a date column, because "" parses to NaT without raising; its dates are the one instant |
| Timeliness.DateColumnsFromTable | utils/assessment_engine.py:364-378 | every date column is a column of the table |
| Dimensions.CompletenessDimension | utils/assessment_engine.py:529-530 | the completeness dimension is within 0..100 |
| Dimensions.AccuracyDimension | utils/assessment_engine.py:533-548 | the accuracy dimension is within 0..100 |
| Dimensions.ConsistencyDimension | utils/assessment_engine.py:551-565 | the consistency dimension is non-negative, and at most 100 for a non-negative square root |
| Dimensions.EvaluateAccuracyDimension | utils/assessment_engine.py:533-548 | the loop's result equals the specification |
| Dimensions.EvaluateConsistencyDimension | utils/assessment_engine.py:551-565 | the loop's result equals the specification |
| Dimensions.EvaluateValueDimensions | utils/assessment_engine.py:495-576 | the method's dimensions equal the specification |
| Dimensions.ValueDimensionsBounds | utils/assessment_engine.py:505-576 | all four scored dimensions are within 0..100, and timeliness stays 0 |
| Dimensions.UsabilityBounds | utils/assessment_engine.py:568-574 | usability is within 0..100, and at most 80 for an empty table |
| Dimensions.FullUsability | utils/assessment_engine.py:568-574 | full scores and at least one row give usability 100 |
| Dimensions.NoMissingCellsComplete | utils/assessment_engine.py:529-530 | no missing cell gives completeness 100 |
| Dimensions.DefaultAccuracyAtMostValueAccuracy | utils/assessment_engine.py:453-548 | the default accuracy never exceeds the accuracy dimension |
| Dimensions.NoTextFullyConsistent | utils/assessment_engine.py:562-565 | a table without object columns is fully consistent |
| Dimensions.EqualLengthsConsistent | utils/assessment_engine.py:555-561 | an object column whose texts all have one length scores 100 |
| Dimensions.MeanShareIsCellShare | utils/assessment_engine.py:529 | the mean of the columns' null shares is the table's null-cell share |
| Dimensions.CompletenessIsCellShare | utils/assessment_engine.py:529-530 | completeness is the rounded percentage of non-null cells in the whole table |
| Scoring.BusinessValue | utils/assessment_engine.py:419-451 | percentages in give a business value within 0..100; the weights sum to one, so equal non-zero inputs give that value, rounded |
| Scoring.OverallValue | utils/assessment_engine.py:578-600 | percentages in give an overall value within 0..100; the weights sum to one, so equal inputs give that value, rounded |
| Scoring.OverallValueExample | utils/assessment_engine.py:595-600 | quality 80 and business value 70 give 73 |
| Scoring.BusinessValueMonotone | utils/assessment_engine.py:443-451 | higher inputs never lower the business value, when accuracy is non-zero |
| Scoring.OverallValueMonotone | utils/assessment_engine.py:595-600 | higher inputs never lower the overall value |
| Scoring.ZeroAccuracyCountsAsFifty | utils/assessment_engine.py:447 | an accuracy of 0 counts as 50, so all-zero inputs give 12.5 while accuracy 1 gives 0.25 |
| Models.Assessment.constructor | models/assessment.py:32-36 | a new assessment keeps its name, description, dataset and owner, and is pending with no scores or results |
| Models.Assessment.SetResults | models/assessment.py:38-54 | the seven scores and the report are stored, the status is completed at `now`, and the identity is unchanged |
| Models.Assessment.GetDetailedResults | models/assessment.py:56-60 | the stored report, or None before any |
| Models.DataQualityRule.constructor | models/assessment.py:81-86 | a new rule stores its definition as JSON text that reads back as the definition |
| Models.DataQualityRule.GetRuleDefinition | models/assessment.py:88-90 | the definition read back from the stored text |
| Models.Records | utils/assessment_engine.py:166-170 | the engine reads each rule's id, name, type and text, in order |
| AssessmentEngine.ReadDataset | utils/assessment_engine.py:36-52 | loading equals the specification: csv, xlsx/xls, a JSON list of objects, or the error raised |
| AssessmentEngine.RunAssessment | utils/assessment_engine.py:8-145 | the run's report equals the specification, with the rules read in order |
| AssessmentEngine.LoadFailureReport | utils/assessment_engine.py:20-143 | a load failure gives a report carrying that error, seven zero scores, no details, and the dataset's id, name and time |
| AssessmentEngine.NoColumnsReport | utils/assessment_engine.py:55-143 | a loaded table fails exactly when it has no columns, and then all scores are zero |
| AssessmentEngine.NoQualityBreakdown | utils/assessment_engine.py:20-140 | the report never holds the per-column quality breakdown |
| AssessmentEngine.UnsupportedFileTypes | utils/assessment_engine.py:40-52 | the unsupported-type error arises exactly for a type other than csv, xlsx, xls and json |
| AssessmentEngine.RuleFailureKeepsQuality | utils/assessment_engine.py:55-143 | a rule that does not decode ends the run after the quality scores: the error is recorded and the later scores stay 0 |
| AssessmentEngine.CompletedBounds | utils/assessment_engine.py:100-140 | finishing a run keeps every score within 0..100 and writes the summary |
| AssessmentEngine.CompletedRunShape | utils/assessment_engine.py:35-140 | a run without error is a loaded table, its quality analysis, the rules or the default accuracy, then timeliness, dimensions and the weighted values |
| AssessmentEngine.CompletedRunScores | utils/assessment_engine.py:8-145 | a run without error had columns; its seven scores are within 0..100 with timeliness at least 10; the summary is written; the rule section or default accuracy matches |
| Visualization.GetColumnTypes | utils/visualization_helper.py:219-251 | the loop's counts equal the specification |
| Visualization.TallyStep | utils/visualization_helper.py:249 | one iteration adds one to the column's bucket |
| Visualization.TallyCounts | utils/visualization_helper.py:229-249 | a bucket's count is the number of columns in it, and the key exists exactly when that is positive |
| Visualization.TallyTotal | utils/visualization_helper.py:229-251 | the counts add up to the number of columns |
| Visualization.TypeCountsCorrect | utils/visualization_helper.py:219-251 | each bucket counts the columns whose dtype it matches first; a bucket appears exactly when used; the counts add up to the columns |
| Visualization.NumberBuckets | utils/visualization_helper.py:234-237 | int64 and uint64 are integers, float64 is floating point |
| Visualization.DatetimeBucket | utils/visualization_helper.py:238-239 | datetime64[ns] is date-time |
| Visualization.BoolAndObjectBuckets | utils/visualization_helper.py:240-243 | bool is boolean, object is string |
| Visualization.CategoryBucket | utils/visualization_helper.py:244-245 | category is categorical |
| Visualization.NullableIntBucket | utils/visualization_helper.py:234-247 | the capitalised "Int64" matches no test and falls into the other bucket |
| Visualization.InsertPermutes | utils/visualization_helper.py:278 | inserting adds exactly the new entry |
| Visualization.InsertDescending | utils/visualization_helper.py:278 | inserting keeps the list in descending order |
| Visualization.InsertKeepsTies | utils/visualization_helper.py:278 | inserting keeps the order among entries with equal percentage |
| Visualization.SortDescendingSorted | utils/visualization_helper.py:278 | the sort yields descending percentages |
| Visualization.SortDescendingPermutes | utils/visualization_helper.py:278 | the sort is a permutation |
| Visualization.SortDescendingStable | utils/visualization_helper.py:278 | the sort is stable: equal percentages keep their column order |
| Visualization.GetMissingData | utils/visualization_helper.py:253-280 | the method's report equals the specification |
| Visualization.MissingColumnsListed | utils/visualization_helper.py:271-275 | every column with a missing cell is listed |
| Visualization.MissingColumnsSource | utils/visualization_helper.py:271-275 | every listed entry is a column with a missing cell, with its percentage |
| Visualization.MissingDataTotals | utils/visualization_helper.py:263-267 | total cells is rows times columns; missing cells are at most that; the percentage is within 0..100 |
| Visualization.MissingDataColumns | utils/visualization_helper.py:270-278 | the list is sorted descending and stable, holds exactly the columns with missing cells, and each percentage is within 0..100 |
| Visualization.FormatFileSize | utils/visualization_helper.py:305-322 | the unit follows the 1024 thresholds; the amount times the unit is the size; a scaled amount is at least 1, and below 1024 unless the unit is GB |
| Visualization.GenerateAssessmentCharts | utils/visualization_helper.py:124-217 | the charts equal the specification of the stored assessment |
| Visualization.RadarAndGauge | utils/visualization_helper.py:140-172 | the radar chart has the six axes with the six scores or 0, and the gauge shows the overall score or 0 |
| Visualization.RadarAxesDistinct | utils/visualization_helper.py:141-148 | the six radar axes are distinct |
| Visualization.GaugeLevelsCover | utils/visualization_helper.py:167-171 | the gauge bands run from 0 to 100 without gaps and cover every score |
| Visualization.BarChartsTopTen | utils/visualization_helper.py:183-196 | a bar chart appears exactly when there are entries and shows the first ten columns with their scores |
| Visualization.NoBreakdownNoBars | utils/visualization_helper.py:175-176 | without the quality key there are exactly the radar and the gauge |
| Visualization.EngineReportsHaveNoBars | utils/visualization_helper.py:176 | a report from run_assessment never yields bar charts, because it has no 'quality' key |

## Left out

- File reading, JSON file parsing and pandas type inference are outside the model. `AssessmentEngine.Loaders` stands for `pd.read_csv`, `pd.read_excel` and `json.load`. A loader's exception becomes `ReadFailed`.
- The process clock is outside the model. `datetime.utcnow()` and `datetime.now()` are parameters in seconds (`utcNow`, `localNow`), and timezones are not modelled.
- Python and pandas behaviour the model takes as given sits in `Frames.Runtime`:
  - `str()` of a cell.
  - `pd.to_datetime` of one value: an error, NaT, or an instant.
  - `re.compile` and `re.match`.
  - The square root inside `Series.std()`. Bounds that need it state `SqrtNonnegative` as an assumption. A positive standard deviation is modelled as a positive variance.
- Frames.Runtime: `parseDate` works one value at a time: it raises, gives NaT or gives an instant. Since pandas 2, `pd.to_datetime` of a whole column infers one format from its first non-null element, and a later value in another format raises (or becomes NaT under `errors='coerce'`). That column-wide inference is not modelled. It affects `RuleCondition.ListDates`, `Timeliness.ParsesWhole`, `Timeliness.Dates` and through them `Timeliness.EvaluateTimeliness`.
- Floating point is modelled as exact reals. `round(x, 2)` is half-up (`Numbers.Round2`), not IEEE banker's rounding.
- NaN is not modelled. Three NaN results become 0 or 100 stand-ins:
  - The mean over zero rows.
  - The `missing_percentage` of an empty table (0).
  - The value-dimension completeness of a table without columns (100).
- The error messages (`str(e)`, the Chinese reason texts) and the chart and section description strings are not modelled. Errors are datatype constructors.
- Rule definitions are modelled with string values only. A numeric `value` stored as a JSON number is not modelled. Only the layout that `json.dumps` writes is decoded. Arbitrary whitespace or key order in hand-written JSON is not.
- Strings.Lower: covers ASCII case only. Unicode case folding is not modelled.
- Strings.ParseFloat: accepts plain decimal numerals with an optional sign and surrounding whitespace. Python's `float()` also accepts `nan`, `inf`, exponents and `_` digit separators (`"1_000"`); the model rejects those, so a rule threshold or a range bound written that way is recorded as an error instead of compared.
- Frames.Column: column names are strings. A non-string header (an int, float or date that `read_excel` can produce) is not modelled; on it `col.lower()` in `evaluate_timeliness` raises after the quality and accuracy scores are computed.
- Database ids, `created_at`/`updated_at`, `__repr__` and persistence are not modelled. `detailed_results` holds the report value itself, not its JSON text.
- Models.Assessment.SetResults: the source always sets status `completed`, even for a report that carries an error. The model follows the code, not the documented `failed` status.
- Visualization.FormatFileSize: returns the unit and the exact scaled amount. The `.2f` text rendering is not modelled.
- Visualization.GetColumnTypes: returns a map from buckets to counts. The insertion order of the Python dict keys is not modelled.
- Visualization.GetMissingData: `list.sort` is modelled as a stable insertion sort on values, not as an in-place sort of the list object.
- The other functions of the repository's modules are not part of this model:
  - `generate_dataset_summary`, `generate_histogram_data` and `plot_to_base64` (matplotlib rendering).
  - `get_file_info`, `_get_dataframe_info` and `process_dataset_file`.
  - The web routes, forms and templates.
