# Sensor log analysis, modelled in Dafny

This project models the core of the Sensor-Log-Analysis-Tool, a small tool that grades household sensors against reference values. A log is a text file:

- Its first line is the reference line, `reference <temperature> <humidity> <monoxide>`.
- The lines after it are blocks. Each block has a header line, `<family> <name>`, where the family is `thermometer`, `humidity` or `monoxide`. The header is followed by reading lines, `<YYYY-MM-DDTHH:MM> <value>`.

The tool reads the reference line, then streams the readings in file order. It cuts them into maximal runs of the same sensor and grades each run by its family's rule:

- A thermometer is graded by the distance of its mean from the reference and by its sample standard deviation.
- A humidity or monoxide sensor is graded by whether any reading lies outside a tolerance.

The tool yields one `{name: verdict}` entry per run and merges them into one dictionary.

The model has eight modules, one per file:

| file | module | models |
|---|---|---|
| `wrappers.dfy` | `Wrappers` | `Option`, `Result`. `Generated(items, failure)` stands for a Python generator: what it yielded, then the exception it raised, if any. |
| `lexical.dfy` | `Lexical` | `str.strip()`, `str.split()`, and the token grammars of `int()` and `float()` |
| `timestamps.dfy` | `Timestamps` | what `datetime.strptime(t, "%Y-%m-%dT%H:%M")` accepts |
| `parser.dfy` | `Parser` | `SensorRecord`, `LogParser.parse_reference`, `LogParser.parse_records` |
| `criteria.dfy` | `Criteria` | the three `*Criteria.evaluate` rules |
| `evaluator.dfy` | `Evaluator` | `SensorEvaluator.evaluate` |
| `output.dfy` | `Output` | the merge of the emissions in `OutputWriter.write_streaming_results` |
| `service.dfy` | `Service` | the composition in `SensorAnalysisService.run` |

How the code becomes Dafny:

- **Pure rules become functions.** The three rules and `parse_reference` do not change state, so they are functions. An error they raise is part of the result. For example, the thermometer rule returns `DivisionByZero` for a run of one reading.
- **The two state-machine loops become methods.** `parse_records` becomes `Parser.ParseRecords`: a loop over the lines that updates the current type, the current name and the line counter. `SensorEvaluator.evaluate` becomes `Evaluator.Evaluate`: a loop over the records that updates the current key, its readings and the emissions. Each method is proved equal to a declarative specification:
  - `Parser.RecordStream` classifies every line on its own, given the last header above it. The stream stops at the first failing line.
  - `Evaluator.Evaluation` grades `Evaluator.Runs(records)`. Runs that a later record has closed are flushed as the stream is consumed. The open run is flushed only when the stream ends normally.
- **The network of lemmas** relates these specifications to the promises of the code:
  - the runs are the unique decomposition of the records into maximal same-key blocks;
  - there is one emission per run, in run order;
  - the first raising run stops the stream;
  - every rule is independent of the order of the readings;
  - the last run of a name decides its entry in the merged dictionary.
- **Numbers are `real`.** `std_dev < T` is decided without a square root, by `Criteria.StdDevBelow(variance, T)`, which is `T > 0 && variance < T*T`. `Criteria.StdDevComparison` proves that, for any non-negative `std` with `std*std == variance`, `std < T` holds exactly when this predicate does.
- **The five thresholds are a `Criteria.Config` parameter.** They come from a `config` module that is not part of this model.

Three behaviours of the code are easy to misread:

- **A header followed by no reading emits nothing.** Each rule has an "insufficient data" branch for an empty list (sensor_analysis/evaluator.py:29-31, 59-61, 76-78). The evaluator, however, only grades the readings it has collected: it flushes a sensor when a record of another sensor arrives (sensor_analysis/evaluator.py:112-133), and at the end only when readings were collected (sensor_analysis/evaluator.py:142). A header without readings produces no record, so nothing is emitted for it. `Service.EmittedSensorsHaveReadings` proves that every emitted name belongs to some reading line. The "insufficient data" verdicts are reachable only by calling a rule directly (`Criteria.NoReadings`).
- **A failing log has already produced output.** `parse_records` raises at the first bad line, but the evaluator is a generator that has already yielded the emissions of every run closed before that line (`Evaluator.EvaluationStopsEarly`, `Evaluator.EvaluationStops`). In file mode the writer re-raises before the merged dictionary is written (sensor_analysis/output.py:37-39). In stdout mode the earlier entries have already been printed.
- **The parser's family check makes the unknown-type error unreachable.** The evaluator keeps a branch that raises for a sensor type without a rule (sensor_analysis/evaluator.py:114-120, 144-148), and tests/test_evaluator.py:37-43 reaches it by handing the evaluator a hand-built record of type "invalid" (`Evaluator.InvalidTypeScenario`). A header line is recognised only when its first word is one of the three families (sensor_analysis/parser.py:65-71), so every parsed record has a known type. `Service.AnalysisFailures` proves that the unknown-type error cannot occur for records that come from the parser.

## Model

| member | source | states |
|---|---|---|
| Lexical.StripSpec | sensor_analysis/parser.py:58 | `strip()` gives "" exactly when the line is all whitespace, and otherwise a text that starts and ends with a non-space |
| Lexical.StripLeftSpec | sensor_analysis/parser.py:58 | the left strip removes a leading all-whitespace prefix and leaves a text that does not start with whitespace |
| Lexical.StripRightSpec | sensor_analysis/parser.py:58 | the right strip removes a trailing all-whitespace suffix and leaves a text that does not end with whitespace |
| Lexical.SplitSpec | sensor_analysis/parser.py:63 | every word of `split()` is non-empty and free of whitespace, and there are no words exactly when the text is all whitespace |
| Lexical.SplitJoin | sensor_analysis/parser.py:32-33 | splitting words joined by single spaces gives the words back, so a line of four words has four tokens |
| Lexical.IntTokenIsDecimal | sensor_analysis/parser.py:79-83 | every token `int()` accepts is accepted by `float()` with the same value |
| Lexical.ParseIntLiteral | sensor_analysis/parser.py:82 | `int()` reads back the decimal rendering of every integer |
| Lexical.NatLiteralValue | sensor_analysis/parser.py:82 | the digits of the decimal rendering of n have the value n |
| Lexical.PointMantissa | sensor_analysis/parser.py:36-38 | the mantissa `w.f`, two non-empty runs of digits around a point, is the number w + f / 10^(digits of f) |
| Lexical.PlainDecimal | sensor_analysis/parser.py:36-38 | a token with neither sign nor exponent is read by `float()` as its mantissa |
| Lexical.PointLiteral | sensor_analysis/parser.py:36-38 | `float()` reads `a.f`, the decimal rendering of a natural number a, a point and a non-empty run of digits f, as a + f / 10^n, where n is the number of digits of f |
| Lexical.TenthsLiteral | sensor_analysis/parser.py:79-80 | `float()` reads `a.d`, with one digit d after the point, as a + d / 10 |
| Timestamps.ParseTimestamp | sensor_analysis/parser.py:77 | every accepted timestamp is a valid minute of an existing Gregorian date in years 1-9999 |
| Timestamps.ParseFields | sensor_analysis/parser.py:77 | `Y-M-DTH:MI`, with four year digits and one or two digits per other field, is accepted exactly when the date and time exist, and gives those fields |
| Timestamps.ParseFieldsLower | sensor_analysis/parser.py:77 | the same with a lower-case `t` separator, since the format is matched case-insensitively |
| Timestamps.FormatRoundTrip | sensor_analysis/parser.py:77 | the zero-padded rendering of a timestamp parses back to it when the date exists, and is refused otherwise |
| Timestamps.LeapDays | sensor_analysis/parser.py:77 | February 29th exists in 2024 and 2000 but not in 2025 or 1900; April 31st and year 0 do not exist |
| Parser.ReferenceChecks | sensor_analysis/parser.py:28-44 | the first line is refused for a missing "reference" prefix, else for a word count other than four, else for a non-number among the last three words, and only then accepted, giving those three numbers in order |
| Parser.ReferenceLineRoundTrip | sensor_analysis/parser.py:28-44 | any line `M T H C` whose marker word starts with "reference" and whose fields are numbers gives (T, H, C) in that order, whatever follows it; "referenced" passes the prefix test too |
| Parser.ReferenceLineShape | sensor_analysis/parser.py:28-33 | a line of four space-free words is its own strip, starts with its marker and splits back into the four words |
| Parser.ReferenceExample | tests/test_parser.py:23-29 | the reference line `reference 70.0 45.0 6` gives the references 70.0, 45.0 and 6 |
| Parser.Temperature70 | tests/test_parser.py:27 | `float("70.0")` is 70.0 |
| Parser.Humidity45 | tests/test_parser.py:28 | `float("45.0")` is 45.0 |
| Parser.Monoxide6 | tests/test_parser.py:29 | `float("6")` is 6 |
| Parser.MissingMarkerRefused | sensor_analysis/parser.py:28-31 | a first line without the "reference" prefix, and an empty file, are refused before anything else is checked |
| Parser.MissingMarkerExamples | tests/test_parser.py:57-61 | `invalid line` and the empty file are refused for the missing marker |
| Parser.ParseRecords | sensor_analysis/parser.py:46-95 | the loop that carries the current type, name and line counter yields exactly `RecordStream(lines)`: the readings of the lines before the first failing one, in file order, then that line's error |
| Parser.FirstLineIgnored | sensor_analysis/parser.py:53-55 | line 1 is never interpreted; the stream does not depend on it, and a file holding only the reference line yields nothing and no error |
| Parser.HeaderOutcome | sensor_analysis/parser.py:65-71 | a line is a header exactly when it is two words, the first a family, whatever sensor is current, and then it names that sensor |
| Parser.LineClassification | sensor_analysis/parser.py:58-94 | a line is blank exactly when it is all whitespace; it is "invalid line format" exactly when it is neither blank nor a header and either does not have two words or comes before any header, and the error carries the stripped line; it is "invalid record" exactly when it is a two-word line under a header whose timestamp or value is refused |
| Parser.ErrorNamesLine | sensor_analysis/parser.py:91-94 | every error carries the line number it was raised for |
| Parser.LastHeaderAt | sensor_analysis/parser.py:65-73 | the sensor in force at a line is the one named by the closest header above it |
| Parser.NoLastHeader | sensor_analysis/parser.py:65-73 | no sensor is in force exactly when no header lies above the line |
| Parser.ReadingOutcome | sensor_analysis/parser.py:73-90 | a reading yields a record of the sensor of the last header above it, whose family is one of the three, whose timestamp is the line's first token verbatim and accepted by the format, and whose value is its second token read by that family's rule (`int()` for monoxide, `float()` otherwise) |
| Parser.RecordsBeforeReadings | sensor_analysis/parser.py:84-90 | the records of the first k lines are exactly their reading outcomes |
| Parser.StreamRecords | sensor_analysis/parser.py:65-90 | every yielded record comes from a reading line, has one of the three families and an accepted timestamp |
| Parser.StreamFailureLine | sensor_analysis/parser.py:50-95 | a failing stream fails at the first failing line, and its error carries that line's 1-based physical line number, blank lines counted |
| Parser.StreamSuccess | sensor_analysis/parser.py:57-95 | a stream that does not fail has no failing line |
| Criteria.Thermometer | sensor_analysis/evaluator.py:26-51 | the thermometer rule raises exactly for one reading (division by `len - 1`), gives "insufficient data" exactly for none, and otherwise one of the thermometer verdicts |
| Criteria.ThermometerFarMean | sensor_analysis/evaluator.py:39-51 | a mean further than the allowed difference from the reference gives "precise", whatever the spread |
| Criteria.ThermometerTiers | sensor_analysis/evaluator.py:46-51 | within the allowed mean difference, a standard deviation below the ultra threshold gives "ultra precise", otherwise below the very threshold "very precise", otherwise "precise" |
| Criteria.StdDevComparison | sensor_analysis/evaluator.py:36-50 | for the non-negative square root of the variance, `std < T` holds exactly when the squared comparison used by the model does, for any T |
| Criteria.VarianceNonNegative | sensor_analysis/evaluator.py:36-38 | the sample variance of two or more readings is non-negative, so `math.sqrt` is defined on it |
| Criteria.SquaresNonNegative | sensor_analysis/evaluator.py:37 | a sum of squared deviations is non-negative |
| Criteria.SumOfPermutation | sensor_analysis/evaluator.py:34-37 | the sums of the rule do not depend on the order of the readings |
| Criteria.StatisticsPermutation | sensor_analysis/evaluator.py:33-38 | mean and sample variance do not depend on the order of the readings |
| Criteria.ThermometerPermutation | sensor_analysis/evaluator.py:26-51 | the thermometer verdict, or its error, depends only on the multiset of readings |
| Criteria.Tolerance | sensor_analysis/evaluator.py:56-68 | the shared humidity and monoxide rule gives "insufficient data" exactly for no readings, and otherwise "keep" or "discard" |
| Criteria.AnyOutsideExists | sensor_analysis/evaluator.py:65-68 | the early-exit scan finds an out-of-tolerance reading exactly when one exists |
| Criteria.ToleranceDiscard | sensor_analysis/evaluator.py:63-68 | on readings, "discard" exactly when some reading is further than the allowed difference from the reference, "keep" exactly when none is |
| Criteria.TolerancePermutation | sensor_analysis/evaluator.py:80-84 | the humidity and monoxide verdicts do not depend on the order of the readings |
| Criteria.NoReadings | sensor_analysis/evaluator.py:29-78 | all three rules give "insufficient data" for no readings |
| Evaluator.RunsDecompose | sensor_analysis/evaluator.py:104-139 | the runs partition the records: their concatenation is the records, no record dropped or duplicated; every run is a non-empty block of one key; neighbouring runs have different keys, so two consecutive headers of the same sensor make one run |
| Evaluator.ExtendDecomposes | sensor_analysis/evaluator.py:112-139 | one loop step (join the open run or open a new one) keeps the decomposition into maximal runs |
| Evaluator.RunsUnique | sensor_analysis/evaluator.py:104-139 | every decomposition of the records into maximal same-key runs is `Runs(records)` |
| Evaluator.ClosedRunsPrefix | sensor_analysis/evaluator.py:112-136 | a run, once a new key has closed it, stays closed: the closed runs of a prefix are a prefix of the closed runs |
| Evaluator.FlattenHolds | sensor_analysis/evaluator.py:108-139 | every record of every run is one of the records |
| Evaluator.EvaluateGroup | sensor_analysis/evaluator.py:112-133 | flushing a run emits its name, and raises exactly for an unknown family (the unknown-type error with that type) or a one-reading thermometer run (division by zero) |
| Evaluator.GroupRule | sensor_analysis/evaluator.py:123-132 | a thermometer run is graded by the thermometer rule against the known temperature, a humidity run by the humidity rule against the known humidity, a monoxide run by the monoxide rule against the known monoxide |
| Evaluator.GroupPermutation | sensor_analysis/evaluator.py:129-132 | a run's emission depends only on its key and the multiset of its values |
| Evaluator.Emissions | sensor_analysis/evaluator.py:133 | there is one emission per run, named after that run's sensor |
| Evaluator.EvaluateGroupsOk | sensor_analysis/evaluator.py:108-159 | when every run grades, the flushes emit exactly one verdict per run, in order, and end normally |
| Evaluator.EvaluateGroupsStop | sensor_analysis/evaluator.py:114-120 | the first run that raises ends the flushes, after the emissions of the runs before it |
| Evaluator.EvaluateGroupsPrefix | sensor_analysis/evaluator.py:118-120 | after a raise, later runs change nothing |
| Evaluator.EvaluateGroupsFailure | sensor_analysis/evaluator.py:114-120 | a failure of the flushes is the error of one of the runs |
| Evaluator.EvaluateGroupsNames | sensor_analysis/evaluator.py:133 | every emission names one of the runs |
| Evaluator.EvaluationOfCompleteStream | sensor_analysis/evaluator.py:108-159 | a stream that ends normally is graded run by run, the last run included |
| Evaluator.EvaluationRuns | sensor_analysis/evaluator.py:104-159 | a stream that ends normally, whose runs all grade, yields exactly the emission of each maximal run in run order, each its family rule's verdict on that run's records |
| Evaluator.EvaluationStops | sensor_analysis/evaluator.py:112-159 | a run that raises stops the evaluation after the emissions of the runs before it, with that run's error |
| Evaluator.EvaluationStopsEarly | sensor_analysis/evaluator.py:108-120 | once a run closed by a prefix of the records has raised, the rest of the stream is never looked at |
| Evaluator.Evaluate | sensor_analysis/evaluator.py:97-159 | the loop that holds the current key and its readings yields exactly `Evaluation`: a flush on every key change, a final flush only when the stream ends normally, and the stream's own error re-raised without flushing the open run |
| Evaluator.EmittedSensorsHaveRecords | sensor_analysis/evaluator.py:138-142 | every emitted name is the name of a record, so no records means no emissions |
| Evaluator.EmptyStream | tests/test_evaluator.py:30-35 | no records, no emissions and no error |
| Evaluator.ThreeSensorRuns | tests/test_evaluator.py:9-14 | the test's four records form three runs: temp-1 with two readings, hum-1 and mon-1 with one each |
| Evaluator.Temp1Statistics | tests/test_evaluator.py:10-11 | 70.2 and 69.8 have mean 70.0 and sample variance 0.08 |
| Evaluator.Temp1Graded | tests/test_evaluator.py:26 | with the ultra threshold above sqrt(0.08), temp-1 is "ultra precise" |
| Evaluator.Hum1Mon1Graded | tests/test_evaluator.py:27-28 | with tolerances of at least 0.1 and 1.0, hum-1 and mon-1 are "keep" |
| Evaluator.AllSensorsScenario | tests/test_evaluator.py:19-28 | the test's records yield, in order, temp-1 "ultra precise", hum-1 "keep" and mon-1 "keep", and no error |
| Evaluator.TwoThermometerRuns | tests/test_evaluator.py:46-51 | the second test's records form two thermometer runs |
| Evaluator.Temp2Statistics | tests/test_evaluator.py:49-50 | 65.0 and 75.0 have mean 70.0 and sample variance 50.0 |
| Evaluator.Temp2Graded | tests/test_evaluator.py:59 | with both thresholds at most sqrt(50), temp-2 is "precise" |
| Evaluator.MultipleSensorsScenario | tests/test_evaluator.py:45-59 | with thresholds between sqrt(0.08) and sqrt(50), temp-1 is "ultra precise" and temp-2 "precise" |
| Evaluator.InvalidTypeScenario | tests/test_evaluator.py:37-43 | a run of family "invalid" raises the unknown-type error at the final flush, after no emission |
| Output.Consolidate | sensor_analysis/output.py:26-30 | the `update` loop over the emissions builds exactly `Consolidated(emissions)` |
| Output.ConsolidatedKeys | sensor_analysis/output.py:26-30 | the merged dictionary's keys are exactly the emitted names |
| Output.LastWins | sensor_analysis/output.py:26-30 | a name's entry is the verdict of its last emission |
| Output.ThreeSensors | tests/test_output.py:22-28 | the three results of the output test merge into the expected dictionary |
| Service.Run | sensor_analysis/service.py:16-29 | the service reads the reference line, refusing the log if it is invalid before reading any record, and then grades the record stream of the same lines |
| Service.ParsedRunsHaveFamilies | sensor_analysis/parser.py:65-89 | every run of the parsed records is of one of the three families |
| Service.AnalysisFailures | sensor_analysis/evaluator.py:114-120 | for a parsed log the unknown-type error cannot occur: the evaluation stops only for a record-stream error or a one-reading thermometer run |
| Service.EmittedSensorsHaveReadings | sensor_analysis/evaluator.py:138-142 | every emitted name is that of some reading line of the log, so a header without readings emits nothing |
| Service.InvalidLogScenario | sensor_analysis/service.py:19 | the log `invalid line` is refused for its missing reference marker |
| Service.ReferenceOnly | tests/test_parser.py:63-67 | a log holding only a valid reference line is accepted and emits nothing |
| Service.LastRunWins | sensor_analysis/output.py:26-30 | when a sensor name comes back in a later run, the written dictionary holds the verdict of its last run |

## Left out

- File I/O is left out: opening, `readline()`, iterating a file and the temporary file of the output writer. A log is a `seq<string>` of lines without their line terminators.
- JSON serialisation, printing to stdout and removing the temporary file are left out. Only the merge of the emissions (`Output`) is modelled.
- `main.py`, `log_gen.py` and `analyze_results.py` are not part of this model: command-line handling, random test-data generation and reporting.
- Logging is left out; it does not affect results.
- The `config` module is not part of this model. The five thresholds are the fields of `Criteria.Config`.
- Generator laziness and the memory bound of the streaming design are left out. A stream is the finite sequence it yields, plus the error it raises, if any. A consumer that stops early is not modelled.
- Floating point is left out: values are `real`, so there is no rounding in sums, means or comparisons. `math.sqrt` is replaced by the exact squared comparison of `Criteria.StdDevComparison`.
- Lexical.ParseDecimal: `float()` is modelled for finite decimal literals only: sign, digits with `_` joiners, a point and an exponent. `inf`, `nan` and non-ASCII digits are not accepted.
- Lexical.ParseInt: `int()` is modelled for ASCII digits with `_` joiners and a sign; non-ASCII digits are not accepted.
- Lexical.ParseInt: Python's limit on the length of an integer literal is not modelled. Since Python 3.11, `int()` raises `ValueError` for literals of more than 4300 digits (`sys.int_info.default_max_str_digits`); the model accepts literals of any length.
- Timestamps.ParseTimestamp: `strptime` is modelled for tokens without whitespace, which is all that `split()` produces. Its space-padded day form therefore never arises.
- Timestamps.ParseTimestamp: only ASCII digits are accepted in the fields. The fields of `strptime`'s `%Y %m %d %H %M` are matched by a `\d` pattern in a `str` regular expression, which matches any Unicode decimal digit, so Python also accepts a token such as `２０２５-04-28T22:00` with full-width digits. The model refuses it.
- Error messages are left out. Errors are constructors that keep what they report: the 1-based line number, the offending line for a format error, and the sensor type for an unknown family.
- The step lemmas `Parser.ParseNext`, `Parser.ParseStop` and `Parser.ParseEnd`, and `Evaluator.ConsumeJoining`, `Evaluator.ConsumeFlushing`, `Evaluator.ConsumeFailing` and `Evaluator.ConsumedAll`, carry the loop invariants of `Parser.ParseRecords` and `Evaluator.Evaluate` from one iteration to the next. They are a proof device and not part of the source.
- The parser test's concrete eight-line log (tests/test_parser.py:31-55) is not stated as a lemma, because evaluating the model on its concrete strings, timestamps included, is too costly for the verifier. No lemma evaluates its headers, timestamps or values. Only the general lemmas `Parser.HeaderOutcome`, `Parser.ReadingOutcome` and `Parser.ParseRecords` speak about lines of that form.
