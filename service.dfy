/** `SensorAnalysisService.run`: the reference line is read first, then the
    record stream of the same lines is graded, and the emissions are merged
    into the dictionary that is written out. */
module Service {
  import opened Wrappers
  import opened Parser
  import opened Criteria
  import opened Evaluator
  import opened Output

  /** Everything up to the output writer: a rejected reference line raises
      before any record is read; otherwise the evaluator's emissions and the
      way it ended. */
  function Analyze(lines: seq<string>, cfg: Config): Result<Generated<Emission, EvalError>, ReferenceError> {
    match ParseReference(lines)
    case Err(e) => Err(e)
    case Ok(known) => Ok(Evaluation(known, cfg, RecordStream(lines)))
  }

  method Run(lines: seq<string>, cfg: Config) returns (r: Result<Generated<Emission, EvalError>, ReferenceError>)
    ensures r == Analyze(lines, cfg)
  {
    var reference := ParseReference(lines);
    if reference.Err? {
      return Err(reference.error);
    }
    var records := ParseRecords(lines);
    var results := Evaluate(reference.value, cfg, records);
    return Ok(results);
  }

  /** Every run of the parsed record stream is of one of the three families. */
  lemma ParsedRunsHaveFamilies(lines: seq<string>, j: nat)
    requires j < |Runs(RecordStream(lines).items)|
    ensures IsFamily(Runs(RecordStream(lines).items)[j].key.sensorType)
  {
    var rs := RecordStream(lines).items;
    var gs := Runs(rs);
    RunsDecompose(rs);
    assert IsRun(gs[j]);
    FlattenHolds(gs, j, 0);
    StreamRecords(lines, gs[j].readings[0]);
  }

  /** Analysing a log never fails for lack of a rule: the parser only yields
      records of the three families, so the evaluation can only stop because
      the record stream raised or a one-reading thermometer run divided by
      zero. */
  lemma AnalysisFailures(lines: seq<string>, cfg: Config)
    requires Analyze(lines, cfg).Ok? && Analyze(lines, cfg).value.failure.Some?
    ensures Analyze(lines, cfg).value.failure.value.RecordStreamFailed? || Analyze(lines, cfg).value.failure.value == ZeroDivision
  {
    var known := ParseReference(lines).value;
    var input := RecordStream(lines);
    var runs := Runs(input.items);
    var closed := EvaluateGroups(ClosedRuns(input.items), known, cfg);
    if closed.failure.Some? {
      EvaluateGroupsFailure(ClosedRuns(input.items), known, cfg);
      var j :| 0 <= j < |ClosedRuns(input.items)| && EvaluateGroup(ClosedRuns(input.items)[j], known, cfg) == Err(closed.failure.value);
      assert ClosedRuns(input.items)[j] == runs[j];
      ParsedRunsHaveFamilies(lines, j);
    } else if input.failure.None? {
      EvaluateGroupsFailure(runs, known, cfg);
      var j :| 0 <= j < |runs| && EvaluateGroup(runs[j], known, cfg) == Err(EvaluateGroups(runs, known, cfg).failure.value);
      ParsedRunsHaveFamilies(lines, j);
    }
  }

  /** Only sensors with readings are graded: every emitted name is the name
      of a reading line of the log, so a header followed by no reading yields
      no emission. */
  lemma EmittedSensorsHaveReadings(lines: seq<string>, cfg: Config, e: Emission)
    requires Analyze(lines, cfg).Ok? && e in Analyze(lines, cfg).value.items
    ensures exists k :: 0 <= k < |Body(lines)| && Outcome(Body(lines), k).Reading? && Outcome(Body(lines), k).record.sensorName == e.sensorName
  {
    var input := RecordStream(lines);
    EmittedSensorsHaveRecords(ParseReference(lines).value, cfg, input, e);
    var i :| 0 <= i < |input.items| && input.items[i].sensorName == e.sensorName;
    StreamRecords(lines, input.items[i]);
  }

  /** A log whose first line is not a reference line is rejected before any
      record is read. */
  lemma InvalidLogScenario(cfg: Config)
    ensures Analyze(["invalid line"], cfg) == Err(MissingMarker)
  {
    MissingMarkerExamples();
  }

  /** A log holding only its reference line produces no emissions. */
  lemma ReferenceOnly(first: string, cfg: Config)
    requires ParseReference([first]).Ok?
    ensures Analyze([first], cfg) == Ok(Generated([], None))
  {
    FirstLineIgnored(first, first, []);
    EmptyStream(ParseReference([first]).value, cfg);
  }

  /** When a sensor name comes back in several runs, the written dictionary
      holds the verdict of its last run. */
  lemma LastRunWins(known: Reference, cfg: Config, rs: seq<SensorRecord>, j: nat)
    requires AllEvaluate(Runs(rs), known, cfg) && j < |Runs(rs)|
    requires forall k :: j < k < |Runs(rs)| ==> Runs(rs)[k].key.sensorName != Runs(rs)[j].key.sensorName
    ensures Runs(rs)[j].key.sensorName in Consolidated(Evaluation(known, cfg, Generated(rs, None)).items)
    ensures Consolidated(Evaluation(known, cfg, Generated(rs, None)).items)[Runs(rs)[j].key.sensorName]
         == EvaluateGroup(Runs(rs)[j], known, cfg).value.verdict.Text()
  {
    var gs := Runs(rs);
    var es := Emissions(gs, known, cfg);
    assert forall k :: j < k < |es| ==> es[k].sensorName != es[j].sensorName;
    LastWins(es, j);
    EvaluationRuns(known, cfg, rs);
  }
}
