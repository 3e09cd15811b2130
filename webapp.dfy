/**
 * The web service's `POST /analyze` handler: save the upload under a fixed
 * temporary name, extract its text, request the evaluation, read the score,
 * request the candidate details when the score is above 55, delete the
 * temporary file and answer with one JSON document.
 *
 * `HandleAnalyze` states the outcome of one request (the response and the
 * log of external effects) as a function of the upload and of the two model
 * calls; `Server.AnalyzeResume` is the handler's step-by-step body over the
 * server's working directory, proved to produce exactly that outcome.
 */
module WebApp {
  import opened Wrappers
  import opened ScoreParser
  import opened PdfText
  import opened Prompts
  import opened Effects

  const TempFileName: string := "temp_resume.pdf"

  /** Details are requested only for a score strictly above this. */
  const DetailsThreshold: nat := 55

  const NoFileMessage: string := "No resume file provided"
  const NoTextMessage: string := "Could not extract text from PDF"
  const NoAnalysisMessage: string := "Failed to generate analysis from AI"

  /** The JSON body: `{"error": ...}`, or `{"full_analysis": ..., "score":
      ..., "details": ...}` where absent details are `null`. */
  datatype Body =
    | ErrorBody(error: string)
    | AnalysisBody(fullAnalysis: string, score: nat, details: Option<Details>)

  datatype Response = Response(status: nat, body: Body)

  /** What one request produces: the response and the external effects. */
  datatype Exchange = Exchange(response: Response, calls: seq<Call>)

  /** The outcome of one request; `upload` is the `resume` form field. */
  function HandleAnalyze(upload: Option<Pdf>, analysisModel: AnalysisModel, detailsModel: DetailsModel): (x: Exchange)
    ensures x.response.status == 200 <==> x.response.body.AnalysisBody?
    ensures x.response.status == 400 <==> upload.None?
  {
    match upload
    case None =>
      Exchange(Response(400, ErrorBody(NoFileMessage)), [])
    case Some(pdf) =>
      var resumeText := ExtractedText(pdf);
      if resumeText == "" then
        Exchange(Response(500, ErrorBody(NoTextMessage)),
                 [SaveFile(TempFileName), ReadPdf(TempFileName), RemoveFile(TempFileName)])
      else
        var analysis := GenerateAnalysis(resumeText, analysisModel);
        var asked := RequestAnalysis(AnalysisPrompt(resumeText));
        if analysis == "" then
          Exchange(Response(500, ErrorBody(NoAnalysisMessage)),
                   [SaveFile(TempFileName), ReadPdf(TempFileName), asked, RemoveFile(TempFileName)])
        else
          var score := ScoreOrZero(analysis);
          if score > DetailsThreshold then
            Exchange(
              Response(200, AnalysisBody(analysis, score, ExtractDetails(resumeText, detailsModel))),
              [SaveFile(TempFileName), ReadPdf(TempFileName), asked,
               RequestDetails(DetailsPrompt(resumeText)), RemoveFile(TempFileName)])
          else
            Exchange(Response(200, AnalysisBody(analysis, score, None)),
                     [SaveFile(TempFileName), ReadPdf(TempFileName), asked, RemoveFile(TempFileName)])
  }

  /** The process state the handler touches: the files in the working
      directory, and a log of every external effect performed so far. */
  class Server {
    var files: map<string, Pdf>
    ghost var calls: seq<Call>

    constructor (files: map<string, Pdf>)
      ensures this.files == files && calls == []
    {
      this.files := files;
      calls := [];
    }

    /** `analyze_resume`. */
    method AnalyzeResume(upload: Option<Pdf>, analysisModel: AnalysisModel, detailsModel: DetailsModel)
      returns (response: Response)
      modifies this
      ensures response == HandleAnalyze(upload, analysisModel, detailsModel).response
      ensures calls == old(calls) + HandleAnalyze(upload, analysisModel, detailsModel).calls
      ensures files == if upload.Some? then old(files) - {TempFileName} else old(files)
      ensures upload.Some? ==> TempFileName !in files
    {
      if upload.None? {
        return Response(400, ErrorBody(NoFileMessage));
      }
      files := files[TempFileName := upload.value];
      calls := calls + [SaveFile(TempFileName)];

      var resumeText := ExtractedText(files[TempFileName]);
      calls := calls + [ReadPdf(TempFileName)];
      if resumeText == "" {
        files := files - {TempFileName};
        calls := calls + [RemoveFile(TempFileName)];
        return Response(500, ErrorBody(NoTextMessage));
      }

      var analysis := GenerateAnalysis(resumeText, analysisModel);
      calls := calls + [RequestAnalysis(AnalysisPrompt(resumeText))];
      if analysis == "" {
        files := files - {TempFileName};
        calls := calls + [RemoveFile(TempFileName)];
        return Response(500, ErrorBody(NoAnalysisMessage));
      }

      var score := 0;
      var found := ParseScore(analysis);
      if found.Some? {
        score := found.value;
      }

      var candidateDetails: Option<Details> := None;
      if score > DetailsThreshold {
        candidateDetails := ExtractDetails(resumeText, detailsModel);
        calls := calls + [RequestDetails(DetailsPrompt(resumeText))];
      }

      files := files - {TempFileName};
      calls := calls + [RemoveFile(TempFileName)];
      response := Response(200, AnalysisBody(analysis, score, candidateDetails));
    }
  }

  /** A request without the `resume` field is answered 400 before any file
      is written or any extraction or model call happens. */
  lemma MissingFileRejected(analysisModel: AnalysisModel, detailsModel: DetailsModel)
    ensures HandleAnalyze(None, analysisModel, detailsModel)
      == Exchange(Response(400, ErrorBody("No resume file provided")), [])
  {
  }

  /** Text extraction yielding "" is answered 500 without asking the model
      anything; any text at all, whitespace included, goes on to the model. */
  lemma AnalysisRequestedIffText(pdf: Pdf, analysisModel: AnalysisModel, detailsModel: DetailsModel)
    ensures var x := HandleAnalyze(Some(pdf), analysisModel, detailsModel);
      && (ExtractedText(pdf) == "" ==> x.response == Response(500, ErrorBody("Could not extract text from PDF")))
      && (RequestsAnalysis(x.calls) <==> ExtractedText(pdf) != "")
      && (ExtractedText(pdf) != "" ==> RequestAnalysis(AnalysisPrompt(ExtractedText(pdf))) in x.calls)
  {
    var x := HandleAnalyze(Some(pdf), analysisModel, detailsModel);
    if ExtractedText(pdf) != "" {
      assert x.calls[2] == RequestAnalysis(AnalysisPrompt(ExtractedText(pdf)));
    }
  }

  /** An empty evaluation is answered 500 and no details are requested. */
  lemma EmptyAnalysisRejected(pdf: Pdf, analysisModel: AnalysisModel, detailsModel: DetailsModel)
    requires ExtractedText(pdf) != ""
    requires GenerateAnalysis(ExtractedText(pdf), analysisModel) == ""
    ensures var x := HandleAnalyze(Some(pdf), analysisModel, detailsModel);
      x.response == Response(500, ErrorBody("Failed to generate analysis from AI"))
      && !RequestsDetails(x.calls)
  {
  }

  /** Once an evaluation is in hand the answer is 200 with the evaluation
      unchanged, the parsed score (0 without a match) and the details, which
      are `null` unless the score is above 55, and also `null` when the
      detail request fails. */
  lemma SuccessfulResponse(pdf: Pdf, analysisModel: AnalysisModel, detailsModel: DetailsModel)
    requires ExtractedText(pdf) != ""
    requires GenerateAnalysis(ExtractedText(pdf), analysisModel) != ""
    ensures var text := ExtractedText(pdf);
      var analysis := GenerateAnalysis(text, analysisModel);
      var score := ScoreOrZero(analysis);
      HandleAnalyze(Some(pdf), analysisModel, detailsModel).response
        == Response(200, AnalysisBody(analysis, score,
             if score > 55 then detailsModel(DetailsPrompt(text)) else None))
  {
  }

  /** A failed detail request (the call raises or the reply is not JSON)
      does not fail the request: the answer is still 200, with `null`
      details, after the request was made. */
  lemma FailedDetailsAnsweredWithNull(pdf: Pdf, analysisModel: AnalysisModel, detailsModel: DetailsModel)
    requires ExtractedText(pdf) != ""
    requires GenerateAnalysis(ExtractedText(pdf), analysisModel) != ""
    requires ScoreOrZero(GenerateAnalysis(ExtractedText(pdf), analysisModel)) > 55
    requires detailsModel(DetailsPrompt(ExtractedText(pdf))).None?
    ensures var analysis := GenerateAnalysis(ExtractedText(pdf), analysisModel);
      var x := HandleAnalyze(Some(pdf), analysisModel, detailsModel);
      x.response == Response(200, AnalysisBody(analysis, ScoreOrZero(analysis), None))
      && RequestsDetails(x.calls)
  {
    SuccessfulResponse(pdf, analysisModel, detailsModel);
    DetailsRequestedIffAboveThreshold(Some(pdf), analysisModel, detailsModel);
  }

  /** The detail request is made exactly when the request got as far as a
      score and the score is strictly above 55. */
  lemma DetailsRequestedIffAboveThreshold(upload: Option<Pdf>, analysisModel: AnalysisModel, detailsModel: DetailsModel)
    ensures var x := HandleAnalyze(upload, analysisModel, detailsModel);
      RequestsDetails(x.calls) <==>
        upload.Some? && ExtractedText(upload.value) != ""
        && GenerateAnalysis(ExtractedText(upload.value), analysisModel) != ""
        && ScoreOrZero(GenerateAnalysis(ExtractedText(upload.value), analysisModel)) > 55
  {
    var x := HandleAnalyze(upload, analysisModel, detailsModel);
    if upload.Some? {
      var text := ExtractedText(upload.value);
      var analysis := GenerateAnalysis(text, analysisModel);
      if text != "" && analysis != "" {
        if ScoreOrZero(analysis) > 55 {
          assert x.calls[3].RequestDetails?;
        } else {
          assert x.calls == [SaveFile(TempFileName), ReadPdf(TempFileName),
                             RequestAnalysis(AnalysisPrompt(text)), RemoveFile(TempFileName)];
        }
      }
    }
  }

  /** Whenever the temporary file is written, it is the first effect, and
      its removal is the last; nothing else writes or removes a file. */
  lemma TempFileAlwaysRemoved(upload: Option<Pdf>, analysisModel: AnalysisModel, detailsModel: DetailsModel)
    ensures var calls := HandleAnalyze(upload, analysisModel, detailsModel).calls;
      (upload.None? ==> calls == [])
      && (upload.Some? ==>
            |calls| >= 3
            && calls[0] == SaveFile(TempFileName)
            && calls[|calls| - 1] == RemoveFile(TempFileName)
            && forall i :: 0 < i < |calls| - 1 ==> !calls[i].SaveFile? && !calls[i].RemoveFile?)
  {
    if upload.Some? {
      var text := ExtractedText(upload.value);
      var analysis := GenerateAnalysis(text, analysisModel);
      var x := HandleAnalyze(upload, analysisModel, detailsModel);
      if text == "" {
        assert x.calls == [SaveFile(TempFileName), ReadPdf(TempFileName), RemoveFile(TempFileName)];
      } else if analysis == "" {
        assert x.calls == [SaveFile(TempFileName), ReadPdf(TempFileName),
                           RequestAnalysis(AnalysisPrompt(text)), RemoveFile(TempFileName)];
      } else if ScoreOrZero(analysis) > 55 {
        assert x.calls == [SaveFile(TempFileName), ReadPdf(TempFileName), RequestAnalysis(AnalysisPrompt(text)),
                           RequestDetails(DetailsPrompt(text)), RemoveFile(TempFileName)];
      } else {
        assert x.calls == [SaveFile(TempFileName), ReadPdf(TempFileName),
                           RequestAnalysis(AnalysisPrompt(text)), RemoveFile(TempFileName)];
      }
    }
  }

  /** The threshold is strict: a score of exactly 55 gets no details. */
  lemma ScoreAtThresholdGetsNoDetails(pdf: Pdf, analysisModel: AnalysisModel, detailsModel: DetailsModel, analysis: string)
    requires analysis == Marker + " " + "55" + "/100"
    requires ExtractedText(pdf) != "" && GenerateAnalysis(ExtractedText(pdf), analysisModel) == analysis
    ensures var x := HandleAnalyze(Some(pdf), analysisModel, detailsModel);
      x.response.body == AnalysisBody(analysis, 55, None) && !RequestsDetails(x.calls)
  {
    ParseScoreAfterMarker(analysis, " ", "55", "/100");
    SuccessfulResponse(pdf, analysisModel, detailsModel);
    DetailsRequestedIffAboveThreshold(Some(pdf), analysisModel, detailsModel);
  }

  /** One point more and the details are requested. */
  lemma ScoreAboveThresholdGetsDetails(pdf: Pdf, analysisModel: AnalysisModel, detailsModel: DetailsModel, analysis: string)
    requires analysis == Marker + " " + "56" + "/100"
    requires ExtractedText(pdf) != "" && GenerateAnalysis(ExtractedText(pdf), analysisModel) == analysis
    ensures var x := HandleAnalyze(Some(pdf), analysisModel, detailsModel);
      x.response.body == AnalysisBody(analysis, 56, detailsModel(DetailsPrompt(ExtractedText(pdf))))
      && RequestsDetails(x.calls)
  {
    ParseScoreAfterMarker(analysis, " ", "56", "/100");
    SuccessfulResponse(pdf, analysisModel, detailsModel);
    DetailsRequestedIffAboveThreshold(Some(pdf), analysisModel, detailsModel);
  }

  /** A whole request through the handler: a readable two-page resume, an
      evaluation scoring 80 and a well-formed detail reply. */
  lemma EndToEnd(pdf: Pdf, analysis: string, jane: Details)
    requires pdf == Pdf(true, [Some("Jane Doe\n"), Some("SQL, Python")])
    requires analysis == Marker + " " + "80" + "/100 Strong resume."
    requires jane == map["name" := "Jane Doe", "email" := "jane@x.com", "phone" := "555-1212", "main_skill" := "SQL"]
    ensures HandleAnalyze(Some(pdf), _ => Some(analysis), _ => Some(jane)).response
      == Response(200, AnalysisBody(analysis, 80, Some(jane)))
  {
    var analysisModel: AnalysisModel := _ => Some(analysis);
    var detailsModel: DetailsModel := _ => Some(jane);
    assert pdf.pages[1..] == [Some("SQL, Python")];
    assert ExtractedText(pdf) == "Jane Doe\nSQL, Python";
    ParseScoreAfterMarker(analysis, " ", "80", "/100 Strong resume.");
    assert DecimalValue("8") == 8 by { assert "8"[..0] == ""; }
    assert DecimalValue("80") == 80 by { assert "80"[..1] == "8"; }
    assert ScoreOrZero(analysis) == 80;
    assert GenerateAnalysis(ExtractedText(pdf), analysisModel) == analysis;
    assert detailsModel(DetailsPrompt(ExtractedText(pdf))) == Some(jane);
    SuccessfulResponse(pdf, analysisModel, detailsModel);
  }
}
