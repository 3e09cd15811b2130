/**
 * The standalone script's `main`: check the API key, extract the text of
 * `resume.pdf`, request the evaluation, read the score and, when it is above
 * 35, request the candidate details and show a quick view of them.
 *
 * Console output is not modelled; what a run prints is summarised by where
 * it stops (`Outcome`). `MainOutcome` states the outcome and the log of
 * external effects as a function of the inputs; `RunMain` is the step-by-step
 * body, proved to produce exactly that.
 */
module Standalone {
  import opened Wrappers
  import opened Ascii
  import opened ScoreParser
  import opened PdfText
  import opened Prompts
  import opened Effects
  import WebApp

  const ResumePath: string := "resume.pdf"

  /** Details are requested only for a score strictly above this. The
      script's messages speak of 55, but its comparison uses 35. */
  const DetailsThreshold: nat := 35

  /** The default the quick view shows for a field the reply lacks. */
  const NotFound: string := "Not Found"

  /** The fields of the quick view, in display order. */
  const QuickViewFields: seq<string> := ["name", "email", "phone", "main_skill"]

  /** Where a run ends. */
  datatype Outcome =
    | MissingApiKey
    | NoText
    | NoAnalysis
    | NoScore(analysis: string)
    | NotAboveThreshold(analysis: string, score: nat)
    | NoQuickView(analysis: string, score: nat)
    | QuickView(analysis: string, score: nat, card: seq<string>)

  datatype Run = Run(outcome: Outcome, calls: seq<Call>)

  /** `details.get(field, "Not Found")` for each quick-view field. */
  function QuickViewCard(details: Details): (card: seq<string>)
    ensures |card| == |QuickViewFields|
    ensures forall i :: 0 <= i < |card| ==>
      card[i] == if QuickViewFields[i] in details then details[QuickViewFields[i]] else NotFound
  {
    seq(|QuickViewFields|, i requires 0 <= i < |QuickViewFields| =>
      if QuickViewFields[i] in details then details[QuickViewFields[i]] else NotFound)
  }

  /** The outcome of one run; `apiKey` is the environment variable, absent
      as `None`, and `pdf` is what the extractor sees of `resume.pdf`. */
  function MainOutcome(apiKey: Option<string>, pdf: Pdf, analysisModel: AnalysisModel, detailsModel: DetailsModel): (r: Run)
    ensures r.outcome.MissingApiKey? <==> apiKey.None? || apiKey.value == ""
  {
    if apiKey.None? || apiKey.value == "" then Run(MissingApiKey, [])
    else
      var resumeText := ExtractedText(pdf);
      var started := [ConfigureKey(apiKey.value), ReadPdf(ResumePath)];
      // `not resume_text or not resume_text.strip()`: the empty text is blank too
      if IsBlank(resumeText) then Run(NoText, started)
      else
        var analysis := GenerateAnalysis(resumeText, analysisModel);
        var asked := started + [RequestAnalysis(AnalysisPrompt(resumeText))];
        if analysis == "" then Run(NoAnalysis, asked)
        else
          match ParseScore(analysis)
          case None => Run(NoScore(analysis), asked)
          case Some(score) =>
            if score > DetailsThreshold then
              var details := ExtractDetails(resumeText, detailsModel);
              var all := asked + [RequestDetails(DetailsPrompt(resumeText))];
              // `if candidate_details:` is false for None and for an empty dictionary
              if details.Some? && details.value != map[] then
                Run(QuickView(analysis, score, QuickViewCard(details.value)), all)
              else Run(NoQuickView(analysis, score), all)
            else Run(NotAboveThreshold(analysis, score), asked)
  }

  /** `not resume_text or not resume_text.strip()`: the text is empty or
      whitespace only. */
  method TextMissing(resumeText: string) returns (missing: bool)
    ensures missing <==> IsBlank(resumeText)
  {
    missing := resumeText == "" || Strip(resumeText) == "";
  }

  /** `main`. */
  method RunMain(apiKey: Option<string>, pdf: Pdf, analysisModel: AnalysisModel, detailsModel: DetailsModel)
    returns (outcome: Outcome, ghost calls: seq<Call>)
    ensures outcome == MainOutcome(apiKey, pdf, analysisModel, detailsModel).outcome
    ensures calls == MainOutcome(apiKey, pdf, analysisModel, detailsModel).calls
  {
    calls := [];
    if apiKey.None? || apiKey.value == "" {
      return MissingApiKey, calls;
    }
    calls := calls + [ConfigureKey(apiKey.value)];

    var resumeText := ExtractTextFromPdf(pdf);
    calls := calls + [ReadPdf(ResumePath)];
    var missing := TextMissing(resumeText);
    if missing {
      return NoText, calls;
    }

    var analysis := GenerateAnalysis(resumeText, analysisModel);
    calls := calls + [RequestAnalysis(AnalysisPrompt(resumeText))];
    if analysis == "" {
      return NoAnalysis, calls;
    }

    var score := 0;
    var found := ParseScore(analysis);
    if found.Some? {
      score := found.value;
    } else {
      return NoScore(analysis), calls;
    }

    if score > DetailsThreshold {
      var candidateDetails := ExtractDetails(resumeText, detailsModel);
      calls := calls + [RequestDetails(DetailsPrompt(resumeText))];
      if candidateDetails.Some? && candidateDetails.value != map[] {
        outcome := QuickView(analysis, score, QuickViewCard(candidateDetails.value));
      } else {
        outcome := NoQuickView(analysis, score);
      }
    } else {
      outcome := NotAboveThreshold(analysis, score);
    }
  }

  /** Without a usable API key the run ends before any other effect. */
  lemma MissingKeyStopsFirst(apiKey: Option<string>, pdf: Pdf, analysisModel: AnalysisModel, detailsModel: DetailsModel)
    requires apiKey.None? || apiKey == Some("")
    ensures MainOutcome(apiKey, pdf, analysisModel, detailsModel) == Run(MissingApiKey, [])
  {
  }

  /** With a key, the evaluation is requested exactly when the extracted
      text has a non-whitespace character, and then with that text. */
  lemma AnalysisRequestedIffNotBlank(key: string, pdf: Pdf, analysisModel: AnalysisModel, detailsModel: DetailsModel)
    requires key != ""
    ensures var r := MainOutcome(Some(key), pdf, analysisModel, detailsModel);
      && (RequestsAnalysis(r.calls) <==> !IsBlank(ExtractedText(pdf)))
      && (IsBlank(ExtractedText(pdf)) ==> r.outcome == NoText)
      && (!IsBlank(ExtractedText(pdf)) ==> r.calls[2] == RequestAnalysis(AnalysisPrompt(ExtractedText(pdf))))
  {
    var r := MainOutcome(Some(key), pdf, analysisModel, detailsModel);
    var text := ExtractedText(pdf);
    if IsBlank(text) {
      assert r.calls == [ConfigureKey(key), ReadPdf(ResumePath)];
    } else {
      assert text != [];
      assert r.calls[2].RequestAnalysis?;
    }
  }

  /** An empty evaluation ends the run before the score is read. */
  lemma EmptyAnalysisStops(key: string, pdf: Pdf, analysisModel: AnalysisModel, detailsModel: DetailsModel)
    requires key != "" && !IsBlank(ExtractedText(pdf))
    requires GenerateAnalysis(ExtractedText(pdf), analysisModel) == ""
    ensures var r := MainOutcome(Some(key), pdf, analysisModel, detailsModel);
      r.outcome == NoAnalysis && !RequestsDetails(r.calls)
  {
  }

  /** An evaluation without a score ends the run: unlike the web service,
      the script does not fall back to 0. */
  lemma MissingScoreStops(key: string, pdf: Pdf, analysisModel: AnalysisModel, detailsModel: DetailsModel)
    requires key != "" && !IsBlank(ExtractedText(pdf))
    requires GenerateAnalysis(ExtractedText(pdf), analysisModel) != ""
    requires ParseScore(GenerateAnalysis(ExtractedText(pdf), analysisModel)).None?
    ensures var r := MainOutcome(Some(key), pdf, analysisModel, detailsModel);
      r.outcome == NoScore(GenerateAnalysis(ExtractedText(pdf), analysisModel)) && !RequestsDetails(r.calls)
  {
  }

  /** The detail request is made exactly when the run reached a parsed
      score and that score is strictly above 35. */
  lemma DetailsRequestedIffAboveThreshold(key: string, pdf: Pdf, analysisModel: AnalysisModel, detailsModel: DetailsModel)
    requires key != ""
    ensures var r := MainOutcome(Some(key), pdf, analysisModel, detailsModel);
      var analysis := GenerateAnalysis(ExtractedText(pdf), analysisModel);
      RequestsDetails(r.calls) <==>
        !IsBlank(ExtractedText(pdf)) && analysis != ""
        && ParseScore(analysis).Some? && ParseScore(analysis).value > 35
  {
    var r := MainOutcome(Some(key), pdf, analysisModel, detailsModel);
    var text := ExtractedText(pdf);
    var analysis := GenerateAnalysis(text, analysisModel);
    if !IsBlank(text) && analysis != "" {
      assert text != [];
      if ParseScore(analysis).Some? && ParseScore(analysis).value > 35 {
        assert r.calls[3].RequestDetails?;
      } else {
        assert |r.calls| == 3 && !r.calls[0].RequestDetails? && !r.calls[1].RequestDetails? && !r.calls[2].RequestDetails?;
      }
    } else if !IsBlank(text) {
      assert text != [];
      assert |r.calls| == 3 && !r.calls[0].RequestDetails? && !r.calls[1].RequestDetails? && !r.calls[2].RequestDetails?;
    } else {
      assert r.calls == [ConfigureKey(key), ReadPdf(ResumePath)];
    }
  }

  /** After a detail request, the quick view is shown exactly when the reply
      is a non-empty dictionary, and each missing field reads "Not Found". */
  lemma QuickViewShownIffDetails(key: string, pdf: Pdf, analysisModel: AnalysisModel, detailsModel: DetailsModel)
    requires key != ""
    requires RequestsDetails(MainOutcome(Some(key), pdf, analysisModel, detailsModel).calls)
    ensures var r := MainOutcome(Some(key), pdf, analysisModel, detailsModel);
      var details := ExtractDetails(ExtractedText(pdf), detailsModel);
      (r.outcome.QuickView? <==> details.Some? && details.value != map[])
      && (r.outcome.QuickView? ==> r.outcome.card == QuickViewCard(details.value))
  {
    DetailsRequestedIffAboveThreshold(key, pdf, analysisModel, detailsModel);
  }

  /** A failed detail request (the call raises or the reply is not JSON)
      is requested all the same, and the run ends without a quick view. */
  lemma FailedDetailsShowNoQuickView(key: string, pdf: Pdf, analysisModel: AnalysisModel, detailsModel: DetailsModel)
    requires key != "" && !IsBlank(ExtractedText(pdf))
    requires GenerateAnalysis(ExtractedText(pdf), analysisModel) != ""
    requires ParseScore(GenerateAnalysis(ExtractedText(pdf), analysisModel)).Some?
    requires ParseScore(GenerateAnalysis(ExtractedText(pdf), analysisModel)).value > 35
    requires detailsModel(DetailsPrompt(ExtractedText(pdf))).None?
    ensures var r := MainOutcome(Some(key), pdf, analysisModel, detailsModel);
      var analysis := GenerateAnalysis(ExtractedText(pdf), analysisModel);
      r.outcome == NoQuickView(analysis, ParseScore(analysis).value) && RequestsDetails(r.calls)
  {
    DetailsRequestedIffAboveThreshold(key, pdf, analysisModel, detailsModel);
  }

  /** The script's text check is stricter than the web service's: whatever
      it sends to the model the web service sends too, but a whitespace-only
      resume goes to the model from the web service and not from the script. */
  lemma StricterThanWebService(key: string, pdf: Pdf, blank: Pdf, analysisModel: AnalysisModel, detailsModel: DetailsModel)
    requires key != ""
    requires blank == Pdf(true, [Some(" \n")])
    ensures RequestsAnalysis(MainOutcome(Some(key), pdf, analysisModel, detailsModel).calls)
      ==> (ExtractedText(pdf) != ""
           && RequestsAnalysis(WebApp.HandleAnalyze(Some(pdf), analysisModel, detailsModel).calls))
    ensures ExtractedText(blank) != "" && MainOutcome(Some(key), blank, analysisModel, detailsModel).outcome == NoText
    ensures RequestsAnalysis(WebApp.HandleAnalyze(Some(blank), analysisModel, detailsModel).calls)
  {
    AnalysisRequestedIffNotBlank(key, pdf, analysisModel, detailsModel);
    WebApp.AnalysisRequestedIffText(pdf, analysisModel, detailsModel);
    WebApp.AnalysisRequestedIffText(blank, analysisModel, detailsModel);
    assert blank.pages[1..] == [];
    assert ExtractedText(blank) == " \n";
    assert IsBlank(" \n");
  }
}
