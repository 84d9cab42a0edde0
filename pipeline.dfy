/**
 * The whole run: load the selected dictionaries, then classify the input.
 * A dictionary error stops the run before the output is opened.
 */
module Pipeline {
  import opened Wrappers
  import opened Text
  import opened Lexicons
  import opened Aggregation
  import opened Classifier

  datatype RunError = LoadFailed(load: LoadError) | InputFailed(input: InputError)

  /** A finished run with its report, or the error that stopped it and the output lines written before. */
  datatype RunOutcome = Finished(report: Report) | Failed(error: RunError, written: seq<string>)

  /**
   * What a run produces: a load error with no output, or the classification of
   * the input against the loaded dictionary, whose scores balance when it completes.
   */
  function RunExpected(config: Config, sources: Sources, input: seq<string>): (r: RunOutcome)
    ensures (r.Failed? && r.error.LoadFailed?) <==> Loaded(config, sources).Err?
    ensures r.Failed? && r.error.LoadFailed? ==> r.error.load == Loaded(config, sources).error && r.written == []
    ensures r.Finished? ==>
      r.report.goldCorrect + r.report.cognateAsFalseFriend + r.report.falseFriendAsCognate == r.report.goldPairs
      && r.report.goldPairs <= r.report.pairs == |r.report.output|
  {
    match Loaded(config, sources)
    case Err(e) => Failed(LoadFailed(e), [])
    case Ok(lex) =>
      var done := ClassifyLines(lex, config.fallbackCognate, input).0;
      ScoreBalance(done);
      OutputsAt(done);
      match Expected(lex, config.fallbackCognate, input)
      case Completed(report) => Finished(report)
      case Aborted(e, written) => Failed(InputFailed(e), written)
  }

  method Run(config: Config, sources: Sources, input: seq<string>) returns (outcome: RunOutcome)
    ensures outcome == RunExpected(config, sources, input)
    ensures outcome.Failed? && outcome.error.LoadFailed? ==> outcome.written == []
  {
    var loaded := Load(config, sources);
    if loaded.Err? {
      return Failed(LoadFailed(loaded.error), []);
    }
    var aggregate := loaded.value;
    var classified := Classify(aggregate.Contents(), config.fallbackCognate, input);
    match classified
    case Completed(report) => outcome := Finished(report);
    case Aborted(e, written) => outcome := Failed(InputFailed(e), written);
  }

  /** A malformed Ding line aborts the run before any output line is written. */
  lemma BadDingLineWritesNothing(config: Config, sources: Sources, input: seq<string>, k: nat)
    requires config.ding && k < |sources.ding| && Ding.LinePairs(sources.ding[k]).Err?
    ensures RunExpected(config, sources, input).Failed?
    ensures RunExpected(config, sources, input).error.LoadFailed?
    ensures RunExpected(config, sources, input).written == []
  {
    LoadFailures(config, sources);
  }

  /** Without a selected source the run fails with the configuration error, whatever the files hold. */
  lemma NoSourceFails(config: Config, sources: Sources, input: seq<string>)
    requires !config.freedictEnDe && !config.freedictDeEn && !config.ding
    ensures RunExpected(config, sources, input) == Failed(LoadFailed(NoDictionarySelected), [])
  {
  }
}
