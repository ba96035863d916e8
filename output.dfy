/** The consolidation step of `OutputWriter.write_streaming_results`: the
    single-entry dictionaries yielded by the evaluator are merged, in order,
    into one dictionary, a later entry for a name replacing an earlier one. */
module Output {
  import opened Wrappers
  import opened Criteria
  import opened Evaluator

  /** The merged dictionary of sensor name to verdict string. */
  function Consolidated(es: seq<Emission>): map<string, string> {
    if es == [] then map[] else Consolidated(AllButLast(es))[Last(es).sensorName := Last(es).verdict.Text()]
  }

  /** The names that have an emission. */
  function Names(es: seq<Emission>): set<string> {
    set i | 0 <= i < |es| :: es[i].sensorName
  }

  /** The `final_results.update(result)` loop over the emissions. */
  method Consolidate(es: seq<Emission>) returns (finalResults: map<string, string>)
    ensures finalResults == Consolidated(es)
  {
    finalResults := map[];
    for i := 0 to |es|
      invariant finalResults == Consolidated(es[..i])
    {
      assert AllButLast(es[..i + 1]) == es[..i];
      finalResults := finalResults[es[i].sensorName := es[i].verdict.Text()];
    }
    assert es[..|es|] == es;
  }

  /** Every emitted name, and only those, is a key of the merged dictionary. */
  lemma {:induction false} ConsolidatedKeys(es: seq<Emission>)
    ensures Consolidated(es).Keys == Names(es)
    decreases |es|
  {
    if es != [] {
      var before := AllButLast(es);
      ConsolidatedKeys(before);
      assert forall i :: 0 <= i < |before| ==> before[i] == es[i];
      assert es[|es| - 1] == Last(es);
      assert Names(es) == Names(before) + {Last(es).sensorName};
    }
  }

  /** The last emission of a name decides its entry: a sensor that appears in
      several runs keeps the verdict of its final run. */
  lemma {:induction false} LastWins(es: seq<Emission>, j: nat)
    requires j < |es|
    requires forall k :: j < k < |es| ==> es[k].sensorName != es[j].sensorName
    ensures es[j].sensorName in Consolidated(es)
    ensures Consolidated(es)[es[j].sensorName] == es[j].verdict.Text()
    decreases |es|
  {
    if j < |es| - 1 {
      var before := AllButLast(es);
      assert before[j] == es[j];
      assert forall k :: j < k < |before| ==> before[k] == es[k];
      LastWins(before, j);
      assert Last(es) == es[|es| - 1];
    }
  }

  /** The three results of the output test merge into one dictionary. */
  lemma ThreeSensors()
    ensures Consolidated([Emission("temp-1", UltraPrecise), Emission("hum-1", Keep), Emission("mon-1", Discard)])
         == map["temp-1" := "ultra precise", "hum-1" := "keep", "mon-1" := "discard"]
  {
    var es := [Emission("temp-1", UltraPrecise), Emission("hum-1", Keep), Emission("mon-1", Discard)];
    assert AllButLast(es) == [Emission("temp-1", UltraPrecise), Emission("hum-1", Keep)];
    assert AllButLast(AllButLast(es)) == [Emission("temp-1", UltraPrecise)];
  }
}
