/** The streaming evaluator (`SensorEvaluator.evaluate`): the record stream is
    cut into maximal runs of consecutive records of the same sensor, and each
    run is graded by the rule of its family against the matching reference. */
module Evaluator {
  import opened Wrappers
  import opened Parser
  import opened Criteria

  /** The reasons `evaluate` stops early: the record stream itself raised,
      a run's family has no rule (`ValueError`), or a one-reading thermometer
      run divided by zero (`ZeroDivisionError`). */
  datatype EvalError =
    | RecordStreamFailed(cause: ParseError)
    | UnknownSensorType(sensorType: string)
    | ZeroDivision

  /** One yielded single-entry dictionary `{sensor_name: verdict}`. */
  datatype Emission = Emission(sensorName: string, verdict: Verdict)

  /** The readings accumulated for one sensor key. */
  datatype Group = Group(key: SensorKey, readings: seq<SensorRecord>)

  // ---------------------------------------------------------------------------
  // Runs of equal keys

  /** The maximal runs of consecutive records with equal (type, name). */
  function Runs(rs: seq<SensorRecord>): seq<Group> {
    if rs == [] then [] else Extend(Runs(AllButLast(rs)), Last(rs))
  }

  /** One more record: it joins the last run when it has the same key, and
      opens a new run otherwise. */
  function Extend(runs: seq<Group>, r: SensorRecord): seq<Group> {
    if runs != [] && Last(runs).key == KeyOf(r) then
      AllButLast(runs) + [Group(KeyOf(r), Last(runs).readings + [r])]
    else
      runs + [Group(KeyOf(r), [r])]
  }

  /** The records of the groups, group after group. */
  function Flatten(gs: seq<Group>): seq<SensorRecord> {
    if gs == [] then [] else Flatten(AllButLast(gs)) + Last(gs).readings
  }

  /** A group holds at least one record, and only records of its own key. */
  predicate IsRun(g: Group) {
    g.readings != [] && forall i :: 0 <= i < |g.readings| ==> KeyOf(g.readings[i]) == g.key
  }

  /** No two neighbouring groups share a key. */
  predicate Maximal(gs: seq<Group>) {
    forall j :: 0 < j < |gs| ==> gs[j - 1].key != gs[j].key
  }

  /** gs cuts rs into maximal runs. */
  predicate IsRunDecomposition(gs: seq<Group>, rs: seq<SensorRecord>) {
    Flatten(gs) == rs && (forall j :: 0 <= j < |gs| ==> IsRun(gs[j])) && Maximal(gs)
  }

  /** Extending a decomposition by one record decomposes the longer sequence. */
  lemma ExtendDecomposes(runs: seq<Group>, rs: seq<SensorRecord>, r: SensorRecord)
    requires IsRunDecomposition(runs, rs)
    ensures IsRunDecomposition(Extend(runs, r), rs + [r])
  {
    var gs := Extend(runs, r);
    if runs != [] && Last(runs).key == KeyOf(r) {
      var g := Last(gs);
      assert AllButLast(gs) == AllButLast(runs);
      assert Flatten(runs) == Flatten(AllButLast(runs)) + Last(runs).readings;
      assert IsRun(Last(runs));
      assert IsRun(g) by {
        forall i | 0 <= i < |g.readings|
          ensures KeyOf(g.readings[i]) == g.key
        {
          if i < |Last(runs).readings| {
            assert g.readings[i] == Last(runs).readings[i];
          }
        }
      }
      assert forall j :: 0 <= j < |gs| - 1 ==> gs[j] == runs[j];
    } else {
      assert AllButLast(gs) == runs;
      assert forall j :: 0 <= j < |runs| ==> gs[j] == runs[j];
    }
  }

  /** `Runs` partitions the records: concatenating the runs gives the records
      back, every run is a non-empty block of one key, and neighbouring runs
      have different keys. */
  lemma {:induction false} RunsDecompose(rs: seq<SensorRecord>)
    ensures IsRunDecomposition(Runs(rs), rs)
    decreases |rs|
  {
    if rs != [] {
      RunsDecompose(AllButLast(rs));
      ExtendDecomposes(Runs(AllButLast(rs)), AllButLast(rs), Last(rs));
      assert rs == AllButLast(rs) + [Last(rs)];
    }
  }

  /** Dropping the last run of a decomposition decomposes what comes before it. */
  lemma DecompositionPrefix(gs: seq<Group>, rs: seq<SensorRecord>)
    requires IsRunDecomposition(gs, rs) && gs != []
    ensures IsRun(Last(gs)) && rs == Flatten(AllButLast(gs)) + Last(gs).readings
    ensures forall j :: 0 <= j < |gs| - 1 ==> IsRun(AllButLast(gs)[j])
    ensures Maximal(AllButLast(gs))
    ensures |gs| > 1 ==> Last(AllButLast(gs)).key != Last(gs).key
  {
    var before := AllButLast(gs);
    assert forall j :: 0 <= j < |before| ==> before[j] == gs[j];
    assert Last(gs) == gs[|gs| - 1];
    if |gs| > 1 {
      assert Last(before) == gs[|gs| - 2];
    }
  }

  /** A decomposition whose last run is a single record is the decomposition
      of the shorter sequence, extended by that record. */
  lemma UniqueSingleton(gs: seq<Group>, rs: seq<SensorRecord>)
    requires IsRunDecomposition(gs, rs) && gs != [] && |Last(gs).readings| == 1
    ensures rs != [] && IsRunDecomposition(AllButLast(gs), AllButLast(rs))
    ensures gs == Extend(AllButLast(gs), Last(rs))
  {
    DecompositionPrefix(gs, rs);
    var g := Last(gs);
    assert g.readings == [g.readings[0]];
    assert KeyOf(g.readings[0]) == g.key;
    assert AllButLast(rs) == Flatten(AllButLast(gs));
    assert Last(rs) == g.readings[0];
    assert gs == AllButLast(gs) + [g];
  }

  /** A decomposition whose last run has several records is the
      decomposition of the shorter sequence, whose last run is one record
      shorter, extended by that record. */
  lemma UniqueLonger(gs: seq<Group>, rs: seq<SensorRecord>)
    requires IsRunDecomposition(gs, rs) && gs != [] && |Last(gs).readings| > 1
    ensures rs != []
    ensures var shorter := AllButLast(gs) + [Group(Last(gs).key, AllButLast(Last(gs).readings))];
            IsRunDecomposition(shorter, AllButLast(rs)) && gs == Extend(shorter, Last(rs))
  {
    var g := Last(gs);
    var before := AllButLast(gs);
    assert IsRun(g);
    assert Flatten(gs) == Flatten(before) + g.readings;
    var r := Last(rs);
    assert r == Last(g.readings);
    var shorter := Group(g.key, AllButLast(g.readings));
    var gs' := before + [shorter];
    assert AllButLast(gs') == before;
    assert g.readings == shorter.readings + [r];
    assert AllButLast(rs) == Flatten(gs');
    assert IsRun(shorter) by {
      forall i | 0 <= i < |shorter.readings|
        ensures KeyOf(shorter.readings[i]) == shorter.key
      {
        assert shorter.readings[i] == g.readings[i];
      }
    }
    assert forall j :: 0 <= j < |before| ==> gs'[j] == gs[j];
    assert Maximal(gs') by {
      forall j | 0 < j < |gs'|
        ensures gs'[j - 1].key != gs'[j].key
      {
        assert gs'[j - 1].key == gs[j - 1].key && gs'[j].key == gs[j].key;
      }
    }
  }

  /** The decomposition into maximal runs is unique: any other cutting of
      the records into maximal runs is `Runs(rs)`. */
  lemma {:induction false} RunsUnique(gs: seq<Group>, rs: seq<SensorRecord>)
    requires IsRunDecomposition(gs, rs)
    ensures gs == Runs(rs)
    decreases |rs|
  {
    if gs == [] {
      assert rs == [];
    } else if |Last(gs).readings| == 1 {
      UniqueSingleton(gs, rs);
      RunsUnique(AllButLast(gs), AllButLast(rs));
    } else {
      UniqueLonger(gs, rs);
      var shorter := AllButLast(gs) + [Group(Last(gs).key, AllButLast(Last(gs).readings))];
      RunsUnique(shorter, AllButLast(rs));
    }
  }

  /** Every record of a group lies in the concatenation of the groups. */
  lemma {:induction false} FlattenHolds(gs: seq<Group>, j: nat, i: nat)
    requires j < |gs| && i < |gs[j].readings|
    ensures gs[j].readings[i] in Flatten(gs)
    decreases |gs|
  {
    if j < |gs| - 1 {
      var before := AllButLast(gs);
      assert before[j] == gs[j];
      FlattenHolds(before, j, i);
    } else {
      assert gs[j] == Last(gs);
    }
  }

  lemma RunsStep(rs: seq<SensorRecord>, i: nat)
    requires i < |rs|
    ensures Runs(rs[..i + 1]) == Extend(Runs(rs[..i]), rs[i])
  {
    assert AllButLast(rs[..i + 1]) == rs[..i];
  }

  /** The runs that a later record has already closed: all but the last. */
  function ClosedRuns(rs: seq<SensorRecord>): seq<Group> {
    var runs := Runs(rs);
    if runs == [] then [] else AllButLast(runs)
  }

  lemma ClosedRunsStep(rs: seq<SensorRecord>)
    requires rs != []
    ensures ClosedRuns(AllButLast(rs)) <= ClosedRuns(rs)
  {
  }

  /** The closed runs of a prefix of the records are a prefix of the closed
      runs of all of them: a run, once closed, stays closed. */
  lemma {:induction false} ClosedRunsPrefix(rs: seq<SensorRecord>, i: nat)
    requires i <= |rs|
    ensures ClosedRuns(rs[..i]) <= ClosedRuns(rs)
    decreases |rs| - i
  {
    if i < |rs| {
      ClosedRunsPrefix(rs, i + 1);
      assert AllButLast(rs[..i + 1]) == rs[..i];
      ClosedRunsStep(rs[..i + 1]);
    } else {
      assert rs[..i] == rs;
    }
  }

  // ---------------------------------------------------------------------------
  // Grading one run

  function Values(readings: seq<SensorRecord>): (vs: seq<real>)
    ensures |vs| == |readings|
  {
    seq(|readings|, i requires 0 <= i < |readings| => readings[i].value)
  }

  /** The reference a family is compared against: unknown families fall
      through to the monoxide value, as in the conditional expression of
      `evaluate` (never used for them, since they raise first). */
  function ReferenceFor(sensorType: string, known: Reference): real {
    if sensorType == "thermometer" then known.temperature
    else if sensorType == "humidity" then known.humidity
    else known.monoxide
  }

  /** The flush of one run. */
  function EvaluateGroup(g: Group, known: Reference, cfg: Config): (r: Result<Emission, EvalError>)
    ensures r.Ok? ==> r.value.sensorName == g.key.sensorName
    ensures r.Err? <==> !IsFamily(g.key.sensorType) || (g.key.sensorType == "thermometer" && |g.readings| == 1)
    ensures r.Err? ==> r.error == if IsFamily(g.key.sensorType) then ZeroDivision else UnknownSensorType(g.key.sensorType)
  {
    var t := g.key.sensorType;
    if !IsFamily(t) then Err(UnknownSensorType(t))
    else
      var vs := Values(g.readings);
      var reference := ReferenceFor(t, known);
      if t == "thermometer" then
        match Thermometer(vs, reference, cfg)
        case Ok(v) => Ok(Emission(g.key.sensorName, v))
        case Err(_) => Err(ZeroDivision)
      else if t == "humidity" then
        Ok(Emission(g.key.sensorName, Humidity(vs, reference, cfg)))
      else
        Ok(Emission(g.key.sensorName, Monoxide(vs, reference, cfg)))
  }

  /** Each family is graded by its own rule against its own reference value. */
  lemma GroupRule(g: Group, known: Reference, cfg: Config)
    ensures g.key.sensorType == "thermometer" && |g.readings| != 1 ==>
      EvaluateGroup(g, known, cfg) == Ok(Emission(g.key.sensorName, Thermometer(Values(g.readings), known.temperature, cfg).value))
    ensures g.key.sensorType == "humidity" ==>
      EvaluateGroup(g, known, cfg) == Ok(Emission(g.key.sensorName, Humidity(Values(g.readings), known.humidity, cfg)))
    ensures g.key.sensorType == "monoxide" ==>
      EvaluateGroup(g, known, cfg) == Ok(Emission(g.key.sensorName, Monoxide(Values(g.readings), known.monoxide, cfg)))
  {
  }

  /** The verdict of a run depends only on the multiset of its values. */
  lemma GroupPermutation(g: Group, h: Group, known: Reference, cfg: Config)
    requires g.key == h.key && multiset(Values(g.readings)) == multiset(Values(h.readings))
    ensures EvaluateGroup(g, known, cfg) == EvaluateGroup(h, known, cfg)
  {
    var vs, ws := Values(g.readings), Values(h.readings);
    assert |vs| == |multiset(vs)| == |multiset(ws)| == |ws|;
    var reference := ReferenceFor(g.key.sensorType, known);
    ThermometerPermutation(vs, ws, reference, cfg);
    TolerancePermutation(vs, ws, reference, cfg.humidityAllowedDiff);
    TolerancePermutation(vs, ws, reference, cfg.monoxideAllowedDiff);
  }

  // ---------------------------------------------------------------------------
  // Grading a sequence of runs

  /** Flush the groups in order, stopping at the first one that raises. */
  function EvaluateGroups(gs: seq<Group>, known: Reference, cfg: Config): Generated<Emission, EvalError> {
    if gs == [] then Generated([], None)
    else Flush(EvaluateGroups(AllButLast(gs), known, cfg), EvaluateGroup(Last(gs), known, cfg))
  }

  /** The stream after one more flush, unless it has already stopped. */
  function Flush(prior: Generated<Emission, EvalError>, flushed: Result<Emission, EvalError>): Generated<Emission, EvalError> {
    if prior.failure.Some? then prior
    else
      match flushed
      case Ok(e) => Generated(prior.items + [e], None)
      case Err(err) => Generated(prior.items, Some(err))
  }

  predicate AllEvaluate(gs: seq<Group>, known: Reference, cfg: Config) {
    forall j :: 0 <= j < |gs| ==> EvaluateGroup(gs[j], known, cfg).Ok?
  }

  /** The emission of every group, in group order. */
  function Emissions(gs: seq<Group>, known: Reference, cfg: Config): (es: seq<Emission>)
    requires AllEvaluate(gs, known, cfg)
    ensures |es| == |gs|
    ensures forall j :: 0 <= j < |gs| ==> es[j].sensorName == gs[j].key.sensorName
  {
    seq(|gs|, j requires 0 <= j < |gs| && AllEvaluate(gs, known, cfg) => EvaluateGroup(gs[j], known, cfg).value)
  }

  /** The emissions of a non-empty list of groups are those of all but its
      last group, then the last group's. */
  lemma EmissionsSnoc(gs: seq<Group>, known: Reference, cfg: Config)
    requires gs != [] && AllEvaluate(gs, known, cfg)
    ensures AllEvaluate(AllButLast(gs), known, cfg) && EvaluateGroup(Last(gs), known, cfg).Ok?
    ensures Emissions(gs, known, cfg)
         == Emissions(AllButLast(gs), known, cfg) + [EvaluateGroup(Last(gs), known, cfg).value]
  {
    var before := AllButLast(gs);
    assert forall j :: 0 <= j < |before| ==> before[j] == gs[j];
    assert EvaluateGroup(gs[|gs| - 1], known, cfg).Ok?;
    var es, bs := Emissions(gs, known, cfg), Emissions(before, known, cfg);
    var last := EvaluateGroup(Last(gs), known, cfg).value;
    forall j | 0 <= j < |es|
      ensures es[j] == (bs + [last])[j]
    {
      if j < |before| {
        assert es[j] == EvaluateGroup(gs[j], known, cfg).value;
        assert bs[j] == EvaluateGroup(before[j], known, cfg).value;
      }
    }
  }

  /** When every group grades, one emission per group comes out, in order. */
  lemma {:induction false} EvaluateGroupsOk(gs: seq<Group>, known: Reference, cfg: Config)
    requires AllEvaluate(gs, known, cfg)
    ensures EvaluateGroups(gs, known, cfg) == Generated(Emissions(gs, known, cfg), None)
    decreases |gs|
  {
    if gs != [] {
      EmissionsSnoc(gs, known, cfg);
      EvaluateGroupsOk(AllButLast(gs), known, cfg);
    }
  }

  /** Once a prefix of the groups has raised, later groups change nothing. */
  lemma {:induction false} EvaluateGroupsPrefix(gs: seq<Group>, hs: seq<Group>, known: Reference, cfg: Config)
    requires gs <= hs && EvaluateGroups(gs, known, cfg).failure.Some?
    ensures EvaluateGroups(hs, known, cfg) == EvaluateGroups(gs, known, cfg)
    decreases |hs|
  {
    if |gs| < |hs| {
      assert gs <= AllButLast(hs);
      EvaluateGroupsPrefix(gs, AllButLast(hs), known, cfg);
    } else {
      assert gs == hs;
    }
  }

  /** The first group that raises ends the stream: the groups before it have
      been emitted, and its error is the stream's failure. */
  lemma EvaluateGroupsStop(gs: seq<Group>, j: nat, known: Reference, cfg: Config)
    requires j < |gs| && AllEvaluate(gs[..j], known, cfg) && EvaluateGroup(gs[j], known, cfg).Err?
    ensures EvaluateGroups(gs, known, cfg) == Generated(Emissions(gs[..j], known, cfg), Some(EvaluateGroup(gs[j], known, cfg).error))
  {
    EvaluateGroupsOk(gs[..j], known, cfg);
    assert AllButLast(gs[..j + 1]) == gs[..j];
    EvaluateGroupsPrefix(gs[..j + 1], gs, known, cfg);
  }

  /** A failure of the flushes is the error of one of the groups. */
  lemma {:induction false} EvaluateGroupsFailure(gs: seq<Group>, known: Reference, cfg: Config)
    requires EvaluateGroups(gs, known, cfg).failure.Some?
    ensures exists j :: 0 <= j < |gs| && EvaluateGroup(gs[j], known, cfg) == Err(EvaluateGroups(gs, known, cfg).failure.value)
    decreases |gs|
  {
    var before := AllButLast(gs);
    if EvaluateGroups(before, known, cfg).failure.Some? {
      EvaluateGroupsFailure(before, known, cfg);
      var j :| 0 <= j < |before| && EvaluateGroup(before[j], known, cfg) == Err(EvaluateGroups(before, known, cfg).failure.value);
      assert before[j] == gs[j];
    } else {
      assert Last(gs) == gs[|gs| - 1];
    }
  }

  // ---------------------------------------------------------------------------
  // The evaluator over a record stream

  /** What `evaluate` yields for a record stream that produced `input.items`
      and then ended normally or raised `input.failure`. Every run a later
      record has closed is flushed while the stream is consumed; the open
      run is flushed only when the stream ends normally. */
  function Evaluation(known: Reference, cfg: Config, input: Generated<SensorRecord, ParseError>): Generated<Emission, EvalError> {
    var closed := EvaluateGroups(ClosedRuns(input.items), known, cfg);
    if closed.failure.Some? then closed
    else if input.failure.Some? then Generated(closed.items, Some(RecordStreamFailed(input.failure.value)))
    else EvaluateGroups(Runs(input.items), known, cfg)
  }

  /** A stream that ends normally is graded run by run. */
  lemma EvaluationOfCompleteStream(known: Reference, cfg: Config, rs: seq<SensorRecord>)
    ensures Evaluation(known, cfg, Generated(rs, None)) == EvaluateGroups(Runs(rs), known, cfg)
  {
  }

  /** One emission per maximal run, in run order, each the verdict of its
      family's rule on exactly that run's records. */
  lemma EvaluationRuns(known: Reference, cfg: Config, rs: seq<SensorRecord>)
    requires AllEvaluate(Runs(rs), known, cfg)
    ensures Evaluation(known, cfg, Generated(rs, None)) == Generated(Emissions(Runs(rs), known, cfg), None)
  {
    EvaluateGroupsOk(Runs(rs), known, cfg);
  }

  /** A run that raises (an unknown family, or a one-reading thermometer)
      stops the evaluation after the runs before it have been emitted. */
  lemma EvaluationStops(known: Reference, cfg: Config, rs: seq<SensorRecord>, j: nat)
    requires j < |Runs(rs)| && AllEvaluate(Runs(rs)[..j], known, cfg)
    requires EvaluateGroup(Runs(rs)[j], known, cfg).Err?
    ensures Evaluation(known, cfg, Generated(rs, None)) ==
      Generated(Emissions(Runs(rs)[..j], known, cfg), Some(EvaluateGroup(Runs(rs)[j], known, cfg).error))
  {
    EvaluateGroupsStop(Runs(rs), j, known, cfg);
  }

  /** Once the runs closed by a prefix of the records have raised, the rest of
      the stream is not looked at. */
  lemma EvaluationStopsEarly(known: Reference, cfg: Config, input: Generated<SensorRecord, ParseError>, i: nat)
    requires i <= |input.items| && EvaluateGroups(ClosedRuns(input.items[..i]), known, cfg).failure.Some?
    ensures Evaluation(known, cfg, input) == EvaluateGroups(ClosedRuns(input.items[..i]), known, cfg)
  {
    ClosedRunsPrefix(input.items, i);
    EvaluateGroupsPrefix(ClosedRuns(input.items[..i]), ClosedRuns(input.items), known, cfg);
  }

  /** The state of `evaluate` after consuming the first i records: the runs
      seen so far are the closed ones, all flushed into `emitted`, and the
      open one, held as the current key and its readings. */
  ghost predicate Consumed(known: Reference, cfg: Config, records: seq<SensorRecord>, i: nat, closed: seq<Group>,
                           currentSensor: Option<SensorKey>, currentReadings: seq<SensorRecord>, emitted: seq<Emission>)
  {
    && i <= |records|
    && (currentSensor.None? <==> i == 0)
    && (i == 0 ==> closed == [] && emitted == [] && currentReadings == [])
    && (i > 0 ==> Runs(records[..i]) == closed + [Group(currentSensor.value, currentReadings)])
    && EvaluateGroups(closed, known, cfg) == Generated(emitted, None)
  }

  /** Every emission of a sequence of flushes names one of the groups. */
  lemma {:induction false} EvaluateGroupsNames(gs: seq<Group>, known: Reference, cfg: Config, e: Emission)
    requires e in EvaluateGroups(gs, known, cfg).items
    ensures exists j :: 0 <= j < |gs| && gs[j].key.sensorName == e.sensorName
    decreases |gs|
  {
    var before := AllButLast(gs);
    if e in EvaluateGroups(before, known, cfg).items {
      EvaluateGroupsNames(before, known, cfg, e);
      var j :| 0 <= j < |before| && before[j].key.sensorName == e.sensorName;
      assert before[j] == gs[j];
    } else {
      assert Last(gs) == gs[|gs| - 1];
    }
  }

  /** Every emitted name is the name of a record of the stream: a sensor is
      graded only once one of its readings has been seen, and an empty stream
      emits nothing. */
  lemma EmittedSensorsHaveRecords(known: Reference, cfg: Config, input: Generated<SensorRecord, ParseError>, e: Emission)
    requires e in Evaluation(known, cfg, input).items
    ensures exists i :: 0 <= i < |input.items| && input.items[i].sensorName == e.sensorName
  {
    var rs := input.items;
    var runs := Runs(rs);
    var closed := EvaluateGroups(ClosedRuns(rs), known, cfg);
    var gs := if closed.failure.Some? || input.failure.Some? then ClosedRuns(rs) else runs;
    assert e in EvaluateGroups(gs, known, cfg).items;
    EvaluateGroupsNames(gs, known, cfg, e);
    var j :| 0 <= j < |gs| && gs[j].key.sensorName == e.sensorName;
    assert gs[j] == runs[j];
    RunsDecompose(rs);
    assert IsRun(runs[j]);
    FlattenHolds(runs, j, 0);
    var r := runs[j].readings[0];
    assert KeyOf(r) == runs[j].key;
    var i :| 0 <= i < |rs| && rs[i] == r;
  }

  /** A record of the current key, or the very first record, joins the open run. */
  lemma ConsumeJoining(known: Reference, cfg: Config, records: seq<SensorRecord>, i: nat, closed: seq<Group>,
                       currentSensor: Option<SensorKey>, currentReadings: seq<SensorRecord>, emitted: seq<Emission>,
                       next: nat, nextSensor: Option<SensorKey>, nextReadings: seq<SensorRecord>)
    requires Consumed(known, cfg, records, i, closed, currentSensor, currentReadings, emitted) && i < |records|
    requires currentSensor.None? || currentSensor.value == KeyOf(records[i])
    requires next == i + 1 && nextSensor == Some(KeyOf(records[i])) && nextReadings == currentReadings + [records[i]]
    ensures Consumed(known, cfg, records, next, closed, nextSensor, nextReadings, emitted)
  {
    RunsStep(records, i);
    if currentSensor.None? {
      assert records[..i] == [];
      assert currentReadings + [records[i]] == [records[i]];
    } else {
      assert AllButLast(closed + [Group(currentSensor.value, currentReadings)]) == closed;
    }
  }

  /** A record of another key closes the open run; when its flush succeeds
      the record opens a new run. */
  lemma ConsumeFlushing(known: Reference, cfg: Config, records: seq<SensorRecord>, i: nat, closed: seq<Group>,
                        currentSensor: Option<SensorKey>, currentReadings: seq<SensorRecord>, emitted: seq<Emission>,
                        next: nat, nextClosed: seq<Group>, nextSensor: Option<SensorKey>, nextReadings: seq<SensorRecord>,
                        nextEmitted: seq<Emission>)
    requires Consumed(known, cfg, records, i, closed, currentSensor, currentReadings, emitted) && i < |records|
    requires currentSensor.Some? && currentSensor.value != KeyOf(records[i])
    requires EvaluateGroup(Group(currentSensor.value, currentReadings), known, cfg).Ok?
    requires next == i + 1 && nextClosed == closed + [Group(currentSensor.value, currentReadings)]
    requires nextSensor == Some(KeyOf(records[i])) && nextReadings == [records[i]]
    requires nextEmitted == emitted + [EvaluateGroup(Group(currentSensor.value, currentReadings), known, cfg).value]
    ensures Consumed(known, cfg, records, next, nextClosed, nextSensor, nextReadings, nextEmitted)
  {
    RunsStep(records, i);
    var flushed := Group(currentSensor.value, currentReadings);
    assert AllButLast(closed + [flushed]) == closed;
  }

  /** When the flush of the closed run raises, evaluation ends there. */
  lemma ConsumeFailing(known: Reference, cfg: Config, input: Generated<SensorRecord, ParseError>, i: nat, closed: seq<Group>,
                       currentSensor: Option<SensorKey>, currentReadings: seq<SensorRecord>, emitted: seq<Emission>)
    requires Consumed(known, cfg, input.items, i, closed, currentSensor, currentReadings, emitted) && i < |input.items|
    requires currentSensor.Some? && currentSensor.value != KeyOf(input.items[i])
    requires EvaluateGroup(Group(currentSensor.value, currentReadings), known, cfg).Err?
    ensures Evaluation(known, cfg, input) ==
      Generated(emitted, Some(EvaluateGroup(Group(currentSensor.value, currentReadings), known, cfg).error))
  {
    var flushed := Group(currentSensor.value, currentReadings);
    ClosedByNewKey(input.items, i, closed, flushed);
    EvaluateGroupsSnoc(closed, flushed, known, cfg);
    EvaluationStopsEarly(known, cfg, input, i + 1);
  }

  /** A record of another key closes the open run. */
  lemma ClosedByNewKey(records: seq<SensorRecord>, i: nat, closed: seq<Group>, g: Group)
    requires 0 < i < |records| && Runs(records[..i]) == closed + [g] && g.key != KeyOf(records[i])
    ensures ClosedRuns(records[..i + 1]) == closed + [g]
  {
    RunsStep(records, i);
    assert AllButLast(closed + [g]) == closed;
    assert AllButLast(closed + [g] + [Group(KeyOf(records[i]), [records[i]])]) == closed + [g];
  }

  lemma EvaluateGroupsSnoc(gs: seq<Group>, g: Group, known: Reference, cfg: Config)
    ensures EvaluateGroups(gs + [g], known, cfg) == Flush(EvaluateGroups(gs, known, cfg), EvaluateGroup(g, known, cfg))
  {
    assert AllButLast(gs + [g]) == gs;
  }

  /** At the end of the records: a failed stream re-raises without flushing
      the open run; a stream that ended normally flushes it. */
  lemma ConsumedAll(known: Reference, cfg: Config, input: Generated<SensorRecord, ParseError>, closed: seq<Group>,
                    currentSensor: Option<SensorKey>, currentReadings: seq<SensorRecord>, emitted: seq<Emission>)
    requires Consumed(known, cfg, input.items, |input.items|, closed, currentSensor, currentReadings, emitted)
    ensures currentSensor.Some? ==> currentReadings != []
    ensures input.failure.Some? ==> Evaluation(known, cfg, input) == Generated(emitted, Some(RecordStreamFailed(input.failure.value)))
    ensures input.failure.None? && currentSensor.None? ==> Evaluation(known, cfg, input) == Generated(emitted, None)
    ensures input.failure.None? && currentSensor.Some? ==>
      Evaluation(known, cfg, input) == Flush(Generated(emitted, None), EvaluateGroup(Group(currentSensor.value, currentReadings), known, cfg))
  {
    var records := input.items;
    assert records[..|records|] == records;
    if currentSensor.Some? {
      var last := Group(currentSensor.value, currentReadings);
      RunsDecompose(records);
      assert Last(Runs(records)) == last;
      assert AllButLast(closed + [last]) == closed;
    }
  }

  /** `SensorEvaluator.evaluate`: a loop over the records holding the current
      key and the readings accumulated for it, flushing a verdict whenever the
      key changes and once more at the end of the stream. */
  method Evaluate(known: Reference, cfg: Config, input: Generated<SensorRecord, ParseError>) returns (out: Generated<Emission, EvalError>)
    ensures out == Evaluation(known, cfg, input)
  {
    var records := input.items;
    var currentSensor: Option<SensorKey> := None;
    var currentReadings: seq<SensorRecord> := [];
    var emitted: seq<Emission> := [];
    ghost var closed: seq<Group> := [];
    var i := 0;
    while i < |records|
      invariant Consumed(known, cfg, records, i, closed, currentSensor, currentReadings, emitted)
    {
      var record := records[i];
      var key := KeyOf(record);
      ghost var i0, closed0, sensor0, readings0, emitted0 := i, closed, currentSensor, currentReadings, emitted;
      ghost var joins := !(currentSensor.Some? && key != currentSensor.value);
      if currentSensor.Some? && key != currentSensor.value {
        var flushed := Group(currentSensor.value, currentReadings);
        match EvaluateGroup(flushed, known, cfg) {
          case Err(e) =>
            ConsumeFailing(known, cfg, input, i, closed, currentSensor, currentReadings, emitted);
            return Generated(emitted, Some(e));
          case Ok(emission) =>
            emitted := emitted + [emission];
        }
        closed := closed + [flushed];
        currentReadings := [];
        assert currentReadings + [record] == [record];
      }
      currentSensor := Some(key);
      currentReadings := currentReadings + [record];
      i := i + 1;
      if joins {
        ConsumeJoining(known, cfg, records, i0, closed0, sensor0, readings0, emitted0, i, currentSensor, currentReadings);
      } else {
        ConsumeFlushing(known, cfg, records, i0, closed0, sensor0, readings0, emitted0, i, closed, currentSensor, currentReadings, emitted);
      }
    }
    ConsumedAll(known, cfg, input, closed, currentSensor, currentReadings, emitted);
    if input.failure.Some? {
      // the exception raised by the stream leaves the open run unflushed
      return Generated(emitted, Some(RecordStreamFailed(input.failure.value)));
    }
    if currentSensor.Some? && currentReadings != [] {
      match EvaluateGroup(Group(currentSensor.value, currentReadings), known, cfg) {
        case Err(e) =>
          return Generated(emitted, Some(e));
        case Ok(emission) =>
          emitted := emitted + [emission];
      }
    }
    return Generated(emitted, None);
  }

  /** No records, no emissions. */
  lemma EmptyStream(known: Reference, cfg: Config)
    ensures Evaluation(known, cfg, Generated([], None)) == Generated([], None)
  {
  }

  // ---------------------------------------------------------------------------
  // The scenarios of the evaluator's unit tests

  const Temp1a := SensorRecord("thermometer", "temp-1", "2025-04-28T22:00", 70.2)
  const Temp1b := SensorRecord("thermometer", "temp-1", "2025-04-28T22:01", 69.8)
  const Hum1 := SensorRecord("humidity", "hum-1", "2025-04-28T22:00", 45.1)
  const Mon1 := SensorRecord("monoxide", "mon-1", "2025-04-28T22:00", 5.0)
  const TestReference := Reference(70.0, 45.0, 6.0)

  lemma ThreeSensorRuns()
    ensures Runs([Temp1a, Temp1b, Hum1, Mon1]) ==
      [Group(KeyOf(Temp1a), [Temp1a, Temp1b]), Group(KeyOf(Hum1), [Hum1]), Group(KeyOf(Mon1), [Mon1])]
  {
    var t, h, m := Group(KeyOf(Temp1a), [Temp1a, Temp1b]), Group(KeyOf(Hum1), [Hum1]), Group(KeyOf(Mon1), [Mon1]);
    assert AllButLast([Temp1a]) == [];
    assert Runs([Temp1a]) == [Group(KeyOf(Temp1a), [Temp1a])];
    assert AllButLast([Temp1a, Temp1b]) == [Temp1a];
    assert KeyOf(Temp1b) == KeyOf(Temp1a);
    assert AllButLast([Group(KeyOf(Temp1a), [Temp1a])]) == [];
    assert [Temp1a] + [Temp1b] == [Temp1a, Temp1b];
    assert Runs([Temp1a, Temp1b]) == [t];
    assert AllButLast([Temp1a, Temp1b, Hum1]) == [Temp1a, Temp1b];
    assert Runs([Temp1a, Temp1b, Hum1]) == [t, h];
    assert AllButLast([Temp1a, Temp1b, Hum1, Mon1]) == [Temp1a, Temp1b, Hum1];
    assert Runs([Temp1a, Temp1b, Hum1, Mon1]) == [t, h] + [m];
  }

  /** 70.2 and 69.8 have mean 70.0 and sample variance 0.08. */
  lemma Temp1Statistics()
    ensures Values([Temp1a, Temp1b]) == [70.2, 69.8]
    ensures Mean([70.2, 69.8]) == 70.0 && Variance([70.2, 69.8]) == 0.08
  {
    var vs := [70.2, 69.8];
    assert vs[1..] == [69.8] && vs[1..][1..] == [];
    assert Sum(vs) == 140.0;
    var sq := SquaredDistanceFrom(70.0);
    assert SumOf(vs, sq) == sq(70.2) + sq(69.8);
  }

  lemma Temp1Graded(cfg: Config)
    requires cfg.allowedMeanDiff >= 0.0
    requires cfg.ultraPrecisionStdDev > 0.0 && 0.08 < cfg.ultraPrecisionStdDev * cfg.ultraPrecisionStdDev
    ensures EvaluateGroup(Group(KeyOf(Temp1a), [Temp1a, Temp1b]), TestReference, cfg) == Ok(Emission("temp-1", UltraPrecise))
  {
    Temp1Statistics();
    var vs := [70.2, 69.8];
    assert |vs| == 2;
    assert Abs(Mean(vs) - 70.0) <= cfg.allowedMeanDiff;
    assert StdDevBelow(Variance(vs), cfg.ultraPrecisionStdDev);
    assert Thermometer(vs, 70.0, cfg) == Ok(UltraPrecise);
  }

  lemma Hum1Mon1Graded(cfg: Config)
    requires cfg.humidityAllowedDiff >= 0.1 && cfg.monoxideAllowedDiff >= 1.0
    ensures EvaluateGroup(Group(KeyOf(Hum1), [Hum1]), TestReference, cfg) == Ok(Emission("hum-1", Keep))
    ensures EvaluateGroup(Group(KeyOf(Mon1), [Mon1]), TestReference, cfg) == Ok(Emission("mon-1", Keep))
  {
    assert Values([Hum1]) == [45.1] && Values([Mon1]) == [5.0];
    assert !AnyOutside([45.1], 45.0, cfg.humidityAllowedDiff) by {
      assert [45.1][1..] == [];
    }
    assert !AnyOutside([5.0], 6.0, cfg.monoxideAllowedDiff) by {
      assert [5.0][1..] == [];
    }
  }

  /** `test_evaluate_all_sensors`: with a mean tolerance of at least 0, an
      ultra threshold above sqrt(0.08) and tolerances of at least 0.1 and 1.0
      for humidity and monoxide, the three sensors are "ultra precise",
      "keep" and "keep". */
  lemma AllSensorsScenario(cfg: Config)
    requires cfg.allowedMeanDiff >= 0.0
    requires cfg.ultraPrecisionStdDev > 0.0 && 0.08 < cfg.ultraPrecisionStdDev * cfg.ultraPrecisionStdDev
    requires cfg.humidityAllowedDiff >= 0.1 && cfg.monoxideAllowedDiff >= 1.0
    ensures Evaluation(TestReference, cfg, Generated([Temp1a, Temp1b, Hum1, Mon1], None)) ==
      Generated([Emission("temp-1", UltraPrecise), Emission("hum-1", Keep), Emission("mon-1", Keep)], None)
  {
    ThreeSensorRuns();
    Temp1Graded(cfg);
    Hum1Mon1Graded(cfg);
    var gs := Runs([Temp1a, Temp1b, Hum1, Mon1]);
    EvaluateGroupsOk(gs, TestReference, cfg);
    assert Emissions(gs, TestReference, cfg) == [Emission("temp-1", UltraPrecise), Emission("hum-1", Keep), Emission("mon-1", Keep)];
  }

  const Temp2a := SensorRecord("thermometer", "temp-2", "2025-04-28T22:00", 65.0)
  const Temp2b := SensorRecord("thermometer", "temp-2", "2025-04-28T22:01", 75.0)

  lemma TwoThermometerRuns()
    ensures Runs([Temp1a, Temp1b, Temp2a, Temp2b]) ==
      [Group(KeyOf(Temp1a), [Temp1a, Temp1b]), Group(KeyOf(Temp2a), [Temp2a, Temp2b])]
  {
    var t1, t2 := Group(KeyOf(Temp1a), [Temp1a, Temp1b]), Group(KeyOf(Temp2a), [Temp2a, Temp2b]);
    assert AllButLast([Temp1a]) == [];
    assert Runs([Temp1a]) == [Group(KeyOf(Temp1a), [Temp1a])];
    assert AllButLast([Temp1a, Temp1b]) == [Temp1a];
    assert KeyOf(Temp1b) == KeyOf(Temp1a);
    assert AllButLast([Group(KeyOf(Temp1a), [Temp1a])]) == [];
    assert [Temp1a] + [Temp1b] == [Temp1a, Temp1b];
    assert Runs([Temp1a, Temp1b]) == [t1];
    assert AllButLast([Temp1a, Temp1b, Temp2a]) == [Temp1a, Temp1b];
    assert Runs([Temp1a, Temp1b, Temp2a]) == [t1, Group(KeyOf(Temp2a), [Temp2a])];
    assert AllButLast([Temp1a, Temp1b, Temp2a, Temp2b]) == [Temp1a, Temp1b, Temp2a];
    assert KeyOf(Temp2b) == KeyOf(Temp2a);
    assert AllButLast([t1, Group(KeyOf(Temp2a), [Temp2a])]) == [t1];
    assert [Temp2a] + [Temp2b] == [Temp2a, Temp2b];
  }

  /** 65.0 and 75.0 have mean 70.0 and sample variance 50.0. */
  lemma Temp2Statistics()
    ensures Values([Temp2a, Temp2b]) == [65.0, 75.0]
    ensures Mean([65.0, 75.0]) == 70.0 && Variance([65.0, 75.0]) == 50.0
  {
    var vs := [65.0, 75.0];
    assert vs[1..] == [75.0] && vs[1..][1..] == [];
    assert Sum(vs) == 140.0;
    var sq := SquaredDistanceFrom(70.0);
    assert SumOf(vs, sq) == sq(65.0) + sq(75.0);
  }

  lemma NotBelow(variance: real, t: real)
    requires t * t <= variance
    ensures !StdDevBelow(variance, t)
  {
  }

  lemma Temp2Graded(cfg: Config)
    requires cfg.allowedMeanDiff >= 0.0
    requires cfg.ultraPrecisionStdDev * cfg.ultraPrecisionStdDev <= 50.0 && cfg.veryPrecisionStdDev * cfg.veryPrecisionStdDev <= 50.0
    ensures EvaluateGroup(Group(KeyOf(Temp2a), [Temp2a, Temp2b]), TestReference, cfg) == Ok(Emission("temp-2", Precise))
  {
    Temp2Statistics();
    var vs := [65.0, 75.0];
    assert |vs| == 2;
    assert Abs(Mean(vs) - 70.0) <= cfg.allowedMeanDiff;
    assert !StdDevBelow(Variance(vs), cfg.ultraPrecisionStdDev) by {
      NotBelow(Variance(vs), cfg.ultraPrecisionStdDev);
    }
    assert !StdDevBelow(Variance(vs), cfg.veryPrecisionStdDev) by {
      NotBelow(Variance(vs), cfg.veryPrecisionStdDev);
    }
    assert Thermometer(vs, 70.0, cfg) == Ok(Precise);
  }

  /** `test_multiple_sensors`: two thermometers with the same mean, one with
      spread sqrt(0.08) and one with spread sqrt(50); with thresholds between
      the two, the first is "ultra precise" and the second "precise". */
  lemma MultipleSensorsScenario(cfg: Config)
    requires cfg.allowedMeanDiff >= 0.0
    requires cfg.ultraPrecisionStdDev > 0.0 && 0.08 < cfg.ultraPrecisionStdDev * cfg.ultraPrecisionStdDev
    requires cfg.ultraPrecisionStdDev * cfg.ultraPrecisionStdDev <= 50.0 && cfg.veryPrecisionStdDev * cfg.veryPrecisionStdDev <= 50.0
    ensures Evaluation(TestReference, cfg, Generated([Temp1a, Temp1b, Temp2a, Temp2b], None)) ==
      Generated([Emission("temp-1", UltraPrecise), Emission("temp-2", Precise)], None)
  {
    TwoThermometerRuns();
    Temp1Graded(cfg);
    Temp2Graded(cfg);
    var gs := Runs([Temp1a, Temp1b, Temp2a, Temp2b]);
    EvaluateGroupsOk(gs, TestReference, cfg);
    assert Emissions(gs, TestReference, cfg) == [Emission("temp-1", UltraPrecise), Emission("temp-2", Precise)];
  }

  /** `test_invalid_sensor_type`: a run of an unknown family raises when it
      is flushed at the end of the stream. */
  lemma InvalidTypeScenario(cfg: Config)
    ensures Evaluation(TestReference, cfg, Generated([SensorRecord("invalid", "inv-1", "2025-04-28T22:00", 70.2)], None))
         == Generated([], Some(UnknownSensorType("invalid")))
  {
    var r := SensorRecord("invalid", "inv-1", "2025-04-28T22:00", 70.2);
    assert AllButLast([r]) == [];
    assert Runs([r]) == [Group(KeyOf(r), [r])];
    assert AllButLast([Group(KeyOf(r), [r])]) == [];
  }
}
