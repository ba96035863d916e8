/** The log parser: the reference line (`LogParser.parse_reference`) and the
    line-by-line record reader (`LogParser.parse_records`). The log file is the
    sequence of its lines; line i of the file (1-based) is lines[i - 1]. */
module Parser {
  import opened Wrappers
  import opened Lexical
  import Timestamps

  /** The three sensor families a header line may name. */
  predicate IsFamily(t: string) {
    t == "thermometer" || t == "humidity" || t == "monoxide"
  }

  /** One reading (`SensorRecord`). Python keeps a float for thermometers and
      humidity sensors and an int for monoxide sensors; both are reals here. */
  datatype SensorRecord = SensorRecord(sensorType: string, sensorName: string, timestamp: string, value: real)

  /** The identity of a sensor: its family and its name. */
  datatype SensorKey = SensorKey(sensorType: string, sensorName: string)

  function KeyOf(r: SensorRecord): SensorKey {
    SensorKey(r.sensorType, r.sensorName)
  }

  // ---------------------------------------------------------------------------
  // The reference line

  datatype Reference = Reference(temperature: real, humidity: real, monoxide: real)

  /** The three ways `parse_reference` rejects the first line, in the order it checks. */
  datatype ReferenceError =
    | MissingMarker    // "Log must start with reference line"
    | WrongFieldCount  // "Invalid reference line format at line 1"
    | InvalidValues    // "Invalid reference values at line 1"

  predicate StartsWith(s: string, prefix: string) {
    |prefix| <= |s| && s[..|prefix|] == prefix
  }

  /** What `readline()` gives for the first line: "" for an empty file. */
  function FirstLine(lines: seq<string>): string {
    if lines == [] then "" else lines[0]
  }

  function ParseReference(lines: seq<string>): Result<Reference, ReferenceError> {
    var first := Strip(FirstLine(lines));
    if !StartsWith(first, "reference") then Err(MissingMarker)
    else
      var parts := Split(first);
      if |parts| != 4 then Err(WrongFieldCount)
      else
        match (ParseDecimal(parts[1]), ParseDecimal(parts[2]), ParseDecimal(parts[3]))
        case (Some(temperature), Some(humidity), Some(monoxide)) =>
          Ok(Reference(temperature, humidity, monoxide))
        case _ => Err(InvalidValues)
  }

  /** A text that neither begins nor ends with whitespace is its own `strip()`. */
  lemma StripUnpadded(s: string)
    requires s != "" && !IsSpace(s[0]) && !IsSpace(s[|s| - 1])
    ensures Strip(s) == s
  {
  }

  /** The words of a reference line, joined by single spaces. */
  lemma JoinReference(marker: string, t: string, h: string, m: string)
    requires m != ""
    ensures Join([marker, t, h, m]) == marker + " " + (t + " " + (h + " " + m))
    ensures Join([marker, t, h, m])[|Join([marker, t, h, m])| - 1] == m[|m| - 1]
  {
    assert [marker, t, h, m][1..] == [t, h, m] && [t, h, m][1..] == [h, m] && [h, m][1..] == [m];
    assert Join([h, m]) == h + " " + m;
    assert Join([t, h, m]) == t + " " + (h + " " + m);
  }

  /** A line built from a marker word and three fields, all free of spaces,
      is already stripped, starts with the marker and splits back into its
      four words. */
  lemma ReferenceLineShape(marker: string, t: string, h: string, m: string)
    requires forall w :: w in [marker, t, h, m] ==> w != "" && NoSpace(w)
    ensures Strip(Join([marker, t, h, m])) == Join([marker, t, h, m])
    ensures StartsWith(Join([marker, t, h, m]), marker)
    ensures Split(Join([marker, t, h, m])) == [marker, t, h, m]
  {
    var words := [marker, t, h, m];
    assert marker in words && m in words;
    JoinReference(marker, t, h, m);
    var line := Join(words);
    assert line[0] == marker[0];
    StripUnpadded(line);
    assert line[..|marker|] == marker;
    SplitJoin(words);
  }

  /** A first line `M T H C` whose marker word M begins with "reference" and
      whose three fields are numbers is accepted, and the fields are the
      temperature, humidity and monoxide references in that order, whatever
      follows the line. The marker is a prefix test: "referenced" passes too. */
  lemma ReferenceLineRoundTrip(marker: string, t: string, h: string, m: string, rest: seq<string>)
    requires StartsWith(marker, "reference")
    requires forall w :: w in [marker, t, h, m] ==> w != "" && NoSpace(w)
    requires ParseDecimal(t).Some? && ParseDecimal(h).Some? && ParseDecimal(m).Some?
    ensures ParseReference([Join([marker, t, h, m])] + rest)
         == Ok(Reference(ParseDecimal(t).value, ParseDecimal(h).value, ParseDecimal(m).value))
  {
    ReferenceLineShape(marker, t, h, m);
    var line := Join([marker, t, h, m]);
    assert FirstLine([line] + rest) == line;
    assert line[..9] == marker[..9];
  }

  /** The numbers of the parser test's reference line. */
  lemma Temperature70()
    ensures ParseDecimal("70.0") == Some(70.0)
  {
    TenthsLiteral(70, 0);
    assert NatLiteral(70) + "." + [DigitChar(0)] == "70.0";
  }

  lemma Humidity45()
    ensures ParseDecimal("45.0") == Some(45.0)
  {
    TenthsLiteral(45, 0);
    assert NatLiteral(45) + "." + [DigitChar(0)] == "45.0";
  }

  lemma Monoxide6()
    ensures ParseDecimal("6") == Some(6.0)
  {
    ParseIntLiteral(6);
    assert IntLiteral(6) == "6";
    IntTokenIsDecimal("6");
  }

  /** A word of visible ASCII characters holds no whitespace. */
  lemma VisibleNoSpace(w: string)
    requires forall i :: 0 <= i < |w| ==> '!' <= w[i] <= '~'
    ensures NoSpace(w)
  {
  }

  /** Four non-empty words without whitespace, as a list. */
  lemma FourWords(a: string, b: string, c: string, d: string)
    requires a != "" && b != "" && c != "" && d != ""
    requires NoSpace(a) && NoSpace(b) && NoSpace(c) && NoSpace(d)
    ensures forall w :: w in [a, b, c, d] ==> w != "" && NoSpace(w)
  {
  }

  /** The words of the parser test's reference line hold no whitespace. */
  lemma MarkerWord()
    ensures NoSpace("reference")
  {
    VisibleNoSpace("reference");
  }

  lemma ReferenceFieldWords()
    ensures NoSpace("70.0") && NoSpace("45.0") && NoSpace("6")
  {
    VisibleNoSpace("70.0");
    VisibleNoSpace("45.0");
    VisibleNoSpace("6");
  }

  /** The words of the parser test's reference line, joined. */
  lemma ReferenceExampleLine()
    ensures Join(["reference", "70.0", "45.0", "6"]) == "reference 70.0 45.0 6"
  {
    JoinReference("reference", "70.0", "45.0", "6");
  }

  /** `reference 70.0 45.0 6` gives the references 70.0, 45.0 and 6. */
  lemma ReferenceExample()
    ensures ParseReference(["reference 70.0 45.0 6"]) == Ok(Reference(70.0, 45.0, 6.0))
  {
    var marker, t, h, m := "reference", "70.0", "45.0", "6";
    Temperature70();
    Humidity45();
    Monoxide6();
    MarkerWord();
    ReferenceFieldWords();
    FourWords(marker, t, h, m);
    ReferenceLineRoundTrip(marker, t, h, m, []);
    ReferenceExampleLine();
    assert [Join([marker, t, h, m])] + [] == ["reference 70.0 45.0 6"];
  }

  /** A first line that does not begin with "reference" (after stripping) is
      refused before anything else is looked at; so is an empty file. */
  lemma MissingMarkerRefused(lines: seq<string>)
    requires !StartsWith(Strip(FirstLine(lines)), "reference")
    ensures ParseReference(lines) == Err(MissingMarker)
  {
  }

  /** The three checks of `parse_reference`, in order: the stripped first line
      must begin with "reference", split into exactly four words, and have
      numbers as its last three; the first check that fails names the error,
      and a line passing all three gives its numbers in order. */
  lemma ReferenceChecks(lines: seq<string>)
    ensures var first := Strip(FirstLine(lines)); var parts := Split(first);
      && (ParseReference(lines) == Err(MissingMarker) <==> !StartsWith(first, "reference"))
      && (ParseReference(lines) == Err(WrongFieldCount) <==> StartsWith(first, "reference") && |parts| != 4)
      && (ParseReference(lines) == Err(InvalidValues) <==>
           StartsWith(first, "reference") && |parts| == 4
           && (ParseDecimal(parts[1]).None? || ParseDecimal(parts[2]).None? || ParseDecimal(parts[3]).None?))
      && (ParseReference(lines).Ok? <==>
           StartsWith(first, "reference") && |parts| == 4
           && ParseDecimal(parts[1]).Some? && ParseDecimal(parts[2]).Some? && ParseDecimal(parts[3]).Some?)
    ensures ParseReference(lines).Ok? ==>
      var parts := Split(Strip(FirstLine(lines)));
      ParseReference(lines).value == Reference(ParseDecimal(parts[1]).value, ParseDecimal(parts[2]).value, ParseDecimal(parts[3]).value)
  {
  }

  /** `invalid line` and the empty file are refused for the missing marker. */
  lemma MissingMarkerExamples()
    ensures ParseReference(["invalid line"]) == Err(MissingMarker)
    ensures ParseReference([]) == Err(MissingMarker)
  {
    var line := "invalid line";
    StripUnpadded(line);
    assert line[..9][0] == 'i' != "reference"[0];
    MissingMarkerRefused([line]);
    MissingMarkerRefused([]);
  }

  // ---------------------------------------------------------------------------
  // Record lines

  /** The two ways `parse_records` rejects a line; each carries the 1-based line number. */
  datatype ParseError =
    | InvalidRecord(line: nat)                       // "Invalid record at line N"
    | InvalidLineFormat(line: nat, content: string)  // "Invalid line format at line N: <line>"

  /** The sensor a line names when it is a header: two tokens, the first a family. */
  function HeaderOf(line: string): (key: Option<SensorKey>)
    ensures key.Some? ==> IsFamily(key.value.sensorType)
  {
    var parts := Split(Strip(line));
    if |parts| == 2 && IsFamily(parts[0]) then Some(SensorKey(parts[0], parts[1])) else None
  }

  /** The value of a reading for the given family: `float()` unless the family is
      monoxide, `int()` for monoxide. */
  function ReadingValue(sensorType: string, token: string): Option<real> {
    if sensorType != "monoxide" then ParseDecimal(token)
    else match ParseInt(token)
      case Some(n) => Some(n as real)
      case None => None
  }

  datatype LineOutcome =
    | Blank
    | Header(key: SensorKey)
    | Reading(record: SensorRecord)
    | Failure(error: ParseError)

  /** What one pass of the loop of `LogParser.parse_records` does with a line,
      given the sensor of the most recent header (None before the first
      header) and the line's 1-based number: skip it when blank, switch sensor
      on a header, build a record from a reading, or report the error. */
  function Classify(line: string, active: Option<SensorKey>, lineNumber: nat): LineOutcome {
    var stripped := Strip(line);
    var parts := Split(stripped);
    if stripped == "" then Blank
    else if HeaderOf(line).Some? then Header(HeaderOf(line).value)
    else if |parts| == 2 && active.Some? then
      var value := ReadingValue(active.value.sensorType, parts[1]);
      if Timestamps.IsTimestamp(parts[0]) && value.Some? then
        Reading(SensorRecord(active.value.sensorType, active.value.sensorName, parts[0], value.value))
      else Failure(InvalidRecord(lineNumber))
    else Failure(InvalidLineFormat(lineNumber, stripped))
  }

  /** The lines after the first one, which is never read as a record. */
  function Body(lines: seq<string>): seq<string> {
    if lines == [] then [] else lines[1..]
  }

  /** The sensor of the last header among body[..k]. */
  function LastHeader(body: seq<string>, k: nat): (key: Option<SensorKey>)
    requires k <= |body|
    ensures key.Some? ==> IsFamily(key.value.sensorType)
  {
    if k == 0 then None
    else match HeaderOf(body[k - 1])
      case Some(key) => Some(key)
      case None => LastHeader(body, k - 1)
  }

  /** What body[k], line k + 2 of the file, does: the sensor it sees is that
      of the last header above it. */
  function Outcome(body: seq<string>, k: nat): LineOutcome
    requires k < |body|
  {
    Classify(body[k], LastHeader(body, k), k + 2)
  }

  /** What each line of the body does. */
  function Outcomes(body: seq<string>): (outcomes: seq<LineOutcome>)
    ensures |outcomes| == |body|
  {
    seq(|body|, k requires 0 <= k < |body| => Outcome(body, k))
  }

  /** The index of the first failure in outcomes[from..], if any. */
  function FirstFailure(outcomes: seq<LineOutcome>, from: nat): (f: Option<nat>)
    requires from <= |outcomes|
    ensures f.Some? ==> from <= f.value < |outcomes| && outcomes[f.value].Failure?
    ensures f.Some? ==> forall k :: from <= k < f.value ==> !outcomes[k].Failure?
    ensures f.None? ==> forall k :: from <= k < |outcomes| ==> !outcomes[k].Failure?
    decreases |outcomes| - from
  {
    if from == |outcomes| then None
    else if outcomes[from].Failure? then Some(from)
    else FirstFailure(outcomes, from + 1)
  }

  /** The records yielded by outcomes[..k], one per reading line, in order. */
  function RecordsBefore(outcomes: seq<LineOutcome>, k: nat): (records: seq<SensorRecord>)
    requires k <= |outcomes|
    ensures |records| <= k
  {
    if k == 0 then []
    else
      var earlier := RecordsBefore(outcomes, k - 1);
      match outcomes[k - 1]
      case Reading(r) => earlier + [r]
      case _ => earlier
  }

  /** What `parse_records` yields: the records of every line before the first
      failing one, then that line's error (or no error). */
  function RecordStream(lines: seq<string>): Generated<SensorRecord, ParseError> {
    var outcomes := Outcomes(Body(lines));
    match FirstFailure(outcomes, 0)
    case None => Generated(RecordsBefore(outcomes, |outcomes|), None)
    case Some(k) => Generated(RecordsBefore(outcomes, k), Some(outcomes[k].error))
  }

  lemma OutcomesStep(body: seq<string>, k: nat)
    requires k < |body|
    ensures Outcomes(body)[k] == Outcome(body, k)
    ensures LastHeader(body, k + 1) == if Outcome(body, k).Header? then Some(Outcome(body, k).key) else LastHeader(body, k)
    ensures RecordsBefore(Outcomes(body), k + 1)
         == RecordsBefore(Outcomes(body), k) + (if Outcomes(body)[k].Reading? then [Outcomes(body)[k].record] else [])
  {
  }

  /** No outcome among outcomes[..k] is a failure. */
  predicate NoFailureBefore(outcomes: seq<LineOutcome>, k: nat)
    requires k <= |outcomes|
  {
    k == 0 || (NoFailureBefore(outcomes, k - 1) && !outcomes[k - 1].Failure?)
  }

  lemma {:induction false} NoFailureBeforeAll(outcomes: seq<LineOutcome>, k: nat)
    requires k <= |outcomes|
    ensures NoFailureBefore(outcomes, k) <==> forall j :: 0 <= j < k ==> !outcomes[j].Failure?
  {
    if k > 0 { NoFailureBeforeAll(outcomes, k - 1); }
  }

  /** The first failure is at k when line k fails and no line before it does. */
  lemma FirstFailureAt(outcomes: seq<LineOutcome>, k: nat)
    requires k < |outcomes| && outcomes[k].Failure?
    requires NoFailureBefore(outcomes, k)
    ensures FirstFailure(outcomes, 0) == Some(k)
  {
    NoFailureBeforeAll(outcomes, k);
  }

  /** No failure at all means FirstFailure finds none. */
  lemma NoFirstFailure(outcomes: seq<LineOutcome>)
    requires NoFailureBefore(outcomes, |outcomes|)
    ensures FirstFailure(outcomes, 0) == None
  {
    NoFailureBeforeAll(outcomes, |outcomes|);
  }

  /** The sensor named by the current type and name, when a header has been seen. */
  function Active(currentType: Option<string>, currentName: string): Option<SensorKey> {
    if currentType.Some? then Some(SensorKey(currentType.value, currentName)) else None
  }

  /** The state of `parse_records` after the first k lines of the body: the
      records yielded so far, no error yet, and the sensor of the last header. */
  predicate ParsedUpTo(lines: seq<string>, k: nat, records: seq<SensorRecord>, active: Option<SensorKey>)
    requires k <= |Body(lines)|
  {
    var outcomes := Outcomes(Body(lines));
    records == RecordsBefore(outcomes, k) && NoFailureBefore(outcomes, k) && LastHeader(Body(lines), k) == active
  }

  /** A line that does not fail extends the records by its reading, if any,
      and changes the sensor when it is a header. */
  lemma ParseNext(lines: seq<string>, body: seq<string>, k: nat, lineNumber: nat, records: seq<SensorRecord>, active: Option<SensorKey>,
                  o: LineOutcome, next: nat, nextRecords: seq<SensorRecord>, nextActive: Option<SensorKey>)
    requires body == Body(lines) && k < |body| && lineNumber == k + 2 && ParsedUpTo(lines, k, records, active)
    requires next == k + 1
    requires o == Classify(body[k], active, lineNumber) && !o.Failure?
    requires nextRecords == if o.Reading? then records + [o.record] else records
    requires nextActive == if o.Header? then Some(o.key) else active
    ensures next <= |body| && ParsedUpTo(lines, next, nextRecords, nextActive)
  {
    OutcomesStep(Body(lines), k);
  }

  /** A failing line ends the stream with its error. */
  lemma ParseStop(lines: seq<string>, body: seq<string>, k: nat, lineNumber: nat, records: seq<SensorRecord>, active: Option<SensorKey>, o: LineOutcome)
    requires body == Body(lines) && k < |body| && lineNumber == k + 2 && ParsedUpTo(lines, k, records, active)
    requires o == Classify(body[k], active, lineNumber) && o.Failure?
    ensures RecordStream(lines) == Generated(records, Some(o.error))
  {
    OutcomesStep(Body(lines), k);
    FirstFailureAt(Outcomes(Body(lines)), k);
  }

  /** Reaching the end without a failure ends the stream without an error. */
  lemma ParseEnd(lines: seq<string>, records: seq<SensorRecord>, active: Option<SensorKey>)
    requires ParsedUpTo(lines, |Body(lines)|, records, active)
    ensures RecordStream(lines) == Generated(records, None)
  {
    NoFirstFailure(Outcomes(Body(lines)));
  }

  /** `LogParser.parse_records`, with its three pieces of state: the current
      sensor type and name, and the line counter. */
  method ParseRecords(lines: seq<string>) returns (out: Generated<SensorRecord, ParseError>)
    ensures out == RecordStream(lines)
  {
    var currentType: Option<string> := None;
    var currentName: string := "";
    var lineNum: nat := 1;
    var records: seq<SensorRecord> := [];
    var body := Body(lines);  // the first line was read by readline() and is skipped
    lineNum := lineNum + 1;
    var k := 0;
    while k < |body|
      invariant k <= |body| && lineNum == k + 2
      invariant ParsedUpTo(lines, k, records, Active(currentType, currentName))
    {
      var o := Classify(body[k], Active(currentType, currentName), lineNum);
      if o.Failure? {
        ParseStop(lines, body, k, lineNum, records, Active(currentType, currentName), o);
        return Generated(records, Some(o.error));
      }
      ghost var k0, lineNum0, records0, active0 := k, lineNum, records, Active(currentType, currentName);
      match o {
        case Blank =>
        case Header(key) =>
          currentType := Some(key.sensorType);
          currentName := key.sensorName;
        case Reading(record) =>
          records := records + [record];
      }
      lineNum := lineNum + 1;
      k := k + 1;
      ParseNext(lines, body, k0, lineNum0, records0, active0, o, k, records, Active(currentType, currentName));
    }
    ParseEnd(lines, records, Active(currentType, currentName));
    return Generated(records, None);
  }

  // ---------------------------------------------------------------------------
  // Properties of the record stream

  /** Line 1 is never read by `parse_records`: the stream depends only on the
      lines after it, so a file holding only the reference line yields nothing. */
  lemma FirstLineIgnored(first: string, other: string, rest: seq<string>)
    ensures RecordStream([first] + rest) == RecordStream([other] + rest)
    ensures RecordStream([first]) == Generated([], None)
  {
    assert Body([first] + rest) == rest == Body([other] + rest);
    assert Body([first]) == [];
  }

  /** A line is a header exactly when it names a sensor, whatever came before. */
  lemma HeaderOutcome(line: string, active: Option<SensorKey>, lineNumber: nat)
    ensures Classify(line, active, lineNumber).Header? <==> HeaderOf(line).Some?
    ensures HeaderOf(line).Some? ==> Classify(line, active, lineNumber) == Header(HeaderOf(line).value)
  {
    if Strip(line) == "" {
      assert Split(Strip(line)) == [];
    }
  }

  /** Every error names the line it was raised for. */
  lemma ErrorNamesLine(line: string, active: Option<SensorKey>, lineNumber: nat)
    ensures Classify(line, active, lineNumber).Failure? ==> Classify(line, active, lineNumber).error.line == lineNumber
  {
  }

  /** When a line is skipped and when it raises which error: it is blank
      exactly when it is all whitespace; it has the wrong format exactly when
      it is neither blank nor a header and either does not have two words or
      comes before any header; it is an invalid record exactly when it is a
      two-word non-header line under a header whose timestamp or value is
      refused. A wrong-format error carries the stripped line. */
  lemma LineClassification(line: string, active: Option<SensorKey>, lineNumber: nat)
    ensures Classify(line, active, lineNumber) == Blank <==> AllSpace(line)
    ensures var o := Classify(line, active, lineNumber);
      o.Failure? && o.error.InvalidLineFormat? <==>
        !AllSpace(line) && HeaderOf(line).None? && (|Split(Strip(line))| != 2 || active.None?)
    ensures var o := Classify(line, active, lineNumber); var parts := Split(Strip(line));
      o.Failure? && o.error.InvalidRecord? <==>
        HeaderOf(line).None? && |parts| == 2 && active.Some?
        && (!Timestamps.IsTimestamp(parts[0]) || ReadingValue(active.value.sensorType, parts[1]).None?)
    ensures var o := Classify(line, active, lineNumber);
      o.Failure? && o.error.InvalidLineFormat? ==> o.error.content == Strip(line)
  {
    StripSpec(line);
    SplitSpec(Strip(line));
  }

  /** The sensor of the last header among body[..k] is that of the header on
      line j when no header follows it before k... */
  lemma {:induction false} LastHeaderAt(body: seq<string>, j: nat, k: nat)
    requires j < k <= |body| && HeaderOf(body[j]).Some?
    requires forall i :: j < i < k ==> HeaderOf(body[i]).None?
    ensures LastHeader(body, k) == HeaderOf(body[j])
  {
    if k - 1 > j {
      LastHeaderAt(body, j, k - 1);
    }
  }

  /** ...and there is none exactly when no line among body[..k] is a header. */
  lemma {:induction false} NoLastHeader(body: seq<string>, k: nat)
    requires k <= |body|
    ensures LastHeader(body, k).None? <==> forall i :: 0 <= i < k ==> HeaderOf(body[i]).None?
  {
    if k > 0 {
      NoLastHeader(body, k - 1);
      if HeaderOf(body[k - 1]).Some? {
        assert LastHeader(body, k).Some?;
      } else if LastHeader(body, k - 1).None? {
        forall i | 0 <= i < k
          ensures HeaderOf(body[i]).None?
        {
          if i < k - 1 { }
        }
      } else {
        var i :| 0 <= i < k - 1 && HeaderOf(body[i]).Some?;
      }
    }
  }

  /** What a reading line yields: a record of the sensor of the last header
      above it, with the line's first token as timestamp, verbatim, and the
      second token read as that family's value. */
  lemma ReadingOutcome(body: seq<string>, k: nat)
    requires k < |body| && Outcome(body, k).Reading?
    ensures var r := Outcome(body, k).record;
      && LastHeader(body, k) == Some(KeyOf(r))
      && IsFamily(r.sensorType)
      && |Split(Strip(body[k]))| == 2
      && Split(Strip(body[k]))[0] == r.timestamp
      && Timestamps.IsTimestamp(r.timestamp)
      && ReadingValue(r.sensorType, Split(Strip(body[k]))[1]) == Some(r.value)
  {
  }

  /** The records of outcomes[..k] are exactly its reading outcomes, in order. */
  lemma {:induction false} RecordsBeforeReadings(outcomes: seq<LineOutcome>, k: nat, r: SensorRecord)
    requires k <= |outcomes|
    ensures r in RecordsBefore(outcomes, k) <==> exists j :: 0 <= j < k && outcomes[j] == Reading(r)
  {
    if k > 0 {
      RecordsBeforeReadings(outcomes, k - 1, r);
      if outcomes[k - 1] == Reading(r) {
        assert r in RecordsBefore(outcomes, k);
      }
    }
  }

  /** Every yielded record comes from a reading line before the failing line
      (if any): its family is the one of the header above it, hence one of the
      three, and its timestamp is accepted by the format. */
  lemma StreamRecords(lines: seq<string>, r: SensorRecord)
    requires r in RecordStream(lines).items
    ensures exists k :: 0 <= k < |Body(lines)| && Outcome(Body(lines), k) == Reading(r)
    ensures IsFamily(r.sensorType) && Timestamps.IsTimestamp(r.timestamp)
  {
    var body := Body(lines);
    var outcomes := Outcomes(body);
    var cut := match FirstFailure(outcomes, 0) case None => |outcomes| case Some(f) => f;
    assert RecordStream(lines).items == RecordsBefore(outcomes, cut);
    RecordsBeforeReadings(outcomes, cut, r);
    var k :| 0 <= k < cut && outcomes[k] == Reading(r);
    OutcomesStep(body, k);
    ReadingOutcome(body, k);
  }

  /** When the stream fails, it fails at the first failing line, and the error
      carries that line's 1-based number in the file. */
  lemma StreamFailureLine(lines: seq<string>)
    requires RecordStream(lines).failure.Some?
    ensures var e := RecordStream(lines).failure.value;
      && 2 <= e.line <= |lines|
      && Outcome(Body(lines), e.line - 2) == Failure(e)
      && forall j :: 0 <= j < e.line - 2 ==> !Outcome(Body(lines), j).Failure?
  {
    var body := Body(lines);
    var outcomes := Outcomes(body);
    var f := FirstFailure(outcomes, 0).value;
    OutcomesStep(body, f);
    ErrorNamesLine(body[f], LastHeader(body, f), f + 2);
    forall j | 0 <= j < f
      ensures !Outcome(body, j).Failure?
    {
      OutcomesStep(body, j);
    }
  }

  /** When the stream does not fail, no line fails. */
  lemma StreamSuccess(lines: seq<string>)
    requires RecordStream(lines).failure.None?
    ensures forall j :: 0 <= j < |Body(lines)| ==> !Outcome(Body(lines), j).Failure?
  {
    var body := Body(lines);
    forall j | 0 <= j < |body|
      ensures !Outcome(body, j).Failure?
    {
      OutcomesStep(body, j);
    }
  }
}
