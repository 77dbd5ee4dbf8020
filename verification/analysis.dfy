/** The analysis script: four decorated stages (load, clean, report, save)
    run in sequence over an abstract file store, each stage's clock cost a
    parameter. */
module Analysis {
  import opened Results
  import opened Tables
  import opened FileFormats
  import opened Cleaning
  import opened Ranking
  import opened Decorators

  const LoadName: string := "cargarDatos"
  const CleanName: string := "limpiarDatos"
  const ReportName: string := "analizarDatos"
  const SaveName: string := "guardarDatosProcesados"

  /** How many clock ticks each stage spends. */
  datatype Costs = Costs(load: nat, clean: nat, report: nat, save: nat)

  /** `limpiarDatos` on a DataFrame, whose result is again a DataFrame. */
  function CleanFrame(t: Frame): (r: Result<Frame>)
    ensures r.Ok? <==> Clean(t).Ok?
    ensures r.Ok? ==> r.value == Clean(t).value
    ensures r.Err? ==> r.error == Clean(t).error
  {
    var c := Clean(t);
    if c.Ok? then
      CleanOnlyTouchesPrice(t);
      Ok(c.value)
    else
      Err(c.error)
  }

  /** `guardarDatosProcesados` as a function of the table and the output
      name; it yields the store after the write. */
  function SaveTo(store: Store, job: (Frame, string)): (r: Result<Store>)
    ensures r.Ok? <==> Classify(job.1).Ok?
    ensures r.Err? ==> r.error == UnsupportedFormat(job.1)
    ensures r.Ok? ==> r.value == store[job.1 := StoredFile(Classify(job.1).value, job.0)]
  {
    var o := Save(store, job.0, job.1);
    if o.result.Ok? then Ok(o.store) else Err(o.result.error)
  }

  function LoadStage(store: Store, cost: nat): Callable<string, Frame> {
    Decorate(Lift(LoadName, (path: string) => Load(store, path), cost))
  }

  function CleanStage(cost: nat): Callable<Frame, Frame> {
    Decorate(Lift(CleanName, CleanFrame, cost))
  }

  function ReportStage(cost: nat): Callable<Frame, seq<Row>> {
    Decorate(Lift(ReportName, (t: Frame) => Analyze(t), cost))
  }

  function SaveStage(store: Store, cost: nat): Callable<(Frame, string), Store> {
    Decorate(Lift(SaveName, (job: (Frame, string)) => SaveTo(store, job), cost))
  }

  /** The three lines one decorated stage writes when it succeeds. */
  function Lines(name: string, cost: nat): seq<Event> {
    [Starting(name), Timed(name, cost), Completed(name)]
  }

  /** The script: load the raw file, clean it, print the report, save the
      cleaned table; any stage that raises ends the run. Its result is the
      undecorated reference `Processed`; a successful run writes each
      stage's three lines in stage order and spends the four costs on the
      clock; an input name that is neither `.csv` nor `.xlsx` stops the run
      after the first start line. */
  function Pipeline(store: Store, input: string, output: string, costs: Costs, w: World): (r: Outcome<Store>)
    ensures r.result == Processed(store, input, output)
    ensures r.result.Ok? ==>
      && r.world.log == w.log + Lines(LoadName, costs.load) + Lines(CleanName, costs.clean)
                              + Lines(ReportName, costs.report) + Lines(SaveName, costs.save)
      && r.world.clock == w.clock + costs.load + costs.clean + costs.report + costs.save
    ensures Classify(input).Err? ==>
      && r.result == Err(UnsupportedFormat(input))
      && r.world.log == w.log + [Starting(LoadName)]
  {
    var loaded := LoadStage(store, costs.load).call(input, w);
    DecoratedRun(LoadName, (path: string) => Load(store, path), costs.load, input, w);
    if loaded.result.Err? then Outcome(Err(loaded.result.error), loaded.world)
    else
      var t := loaded.result.value;
      var cleaned := CleanStage(costs.clean).call(t, loaded.world);
      DecoratedRun(CleanName, CleanFrame, costs.clean, t, loaded.world);
      if cleaned.result.Err? then Outcome(Err(cleaned.result.error), cleaned.world)
      else
        var c := cleaned.result.value;
        var report := ReportStage(costs.report).call(c, cleaned.world);
        AnalyzeSucceeds(c);
        DecoratedRun(ReportName, (t: Frame) => Analyze(t), costs.report, c, cleaned.world);
        // The report cannot raise on a cleaned table (`AnalyzeSucceeds`).
        assert report.result.Ok?;
        DecoratedRun(SaveName, (job: (Frame, string)) => SaveTo(store, job), costs.save, (c, output), report.world);
        SaveStage(store, costs.save).call((c, output), report.world)
  }

  /** The run succeeds exactly when the input loads, its prices clean and
      the output name is supported (the report cannot fail on a cleaned
      table); the store then holds the cleaned table under the output name,
      and loading it back yields that table. */
  lemma PipelineSucceeds(store: Store, input: string, output: string, costs: Costs, w: World)
    ensures Pipeline(store, input, output, costs, w).result.Ok? <==>
      && Load(store, input).Ok?
      && Clean(Load(store, input).value).Ok?
      && Classify(output).Ok?
    ensures Pipeline(store, input, output, costs, w).result.Ok? ==>
      && Pipeline(store, input, output, costs, w).result.value
           == store[output := StoredFile(Classify(output).value, Clean(Load(store, input).value).value)]
      && Load(Pipeline(store, input, output, costs, w).result.value, output)
           == Ok(Clean(Load(store, input).value).value)
  {
    var r := Pipeline(store, input, output, costs, w);
    if r.result.Ok? {
      assert Processed(store, input, output).value
        == store[output := StoredFile(Classify(output).value, Clean(Load(store, input).value).value)];
    }
  }

  /** What the script computes, stated without stages, clocks or logs:
      the store with the cleaned input saved under the output name. */
  function Processed(store: Store, input: string, output: string): (r: Result<Store>)
    ensures r.Ok? <==>
      && Load(store, input).Ok?
      && Clean(Load(store, input).value).Ok?
      && Classify(output).Ok?
    ensures r.Ok? ==>
      && Load(store, input).Ok? && Clean(Load(store, input).value).Ok?
      && Load(r.value, output) == Ok(Clean(Load(store, input).value).value)
  {
    var t :- Load(store, input);
    var c :- CleanFrame(t);
    var format :- Classify(output);
    SaveThenLoad(store, c, output, output);
    Ok(store[output := StoredFile(format, c)])
  }

  /** Processing the output again, in place, leaves the store as it was:
      the saved table is already clean. */
  lemma ProcessedRerunStable(store: Store, input: string, output: string)
    requires Processed(store, input, output).Ok?
    ensures var saved := Processed(store, input, output).value;
      Processed(saved, output, output) == Ok(saved)
  {
    var t := Load(store, input).value;
    var c := Clean(t).value;
    var entry := StoredFile(Classify(output).value, c);
    var saved := Processed(store, input, output).value;
    assert saved == store[output := entry];
    assert Load(saved, output) == Ok(c);
    CleanIdempotent(t);
    assert CleanFrame(c) == Ok(c);
    assert saved[output := entry] == saved;
  }

  /** Running the script again on its own output (same name in and out)
      leaves the store as it was. */
  lemma PipelineRerunStable(store: Store, input: string, output: string, costs: Costs, w: World, w2: World)
    requires Pipeline(store, input, output, costs, w).result.Ok?
    ensures var saved := Pipeline(store, input, output, costs, w).result.value;
      Pipeline(saved, output, output, costs, w2).result == Ok(saved)
  {
    var saved := Processed(store, input, output).value;
    ProcessedRerunStable(store, input, output);
    assert Pipeline(saved, output, output, costs, w2).result == Processed(saved, output, output);
  }
}
