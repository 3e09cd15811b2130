/**
 * The two requests made to the generative model and what comes back.
 *
 * The model is a parameter: a function from the prompt to the reply, `None`
 * when the call raises (network, quota, missing key) or, for the detail
 * request, when the reply is not valid JSON. Only the shape of each prompt is
 * modelled; the rubric and instruction wording are data and stand here in a
 * condensed form.
 */
module Prompts {
  import opened Wrappers

  /** The candidate record the detail request asks for: a JSON object, read
      as a dictionary from field name to value. */
  type Details = map<string, string>

  type AnalysisModel = string -> Option<string>
  type DetailsModel = string -> Option<Details>

  /** The fixed evaluation rubric (condensed wording). */
  const AnalysisTemplate: string :=
    "You are an expert career coach. Score the resume in five "
    + "categories (20, 10, 30, 20 and 20 points) and start with **Overall Score: [Score]/100**. "
    + "**Resume text to analyze is provided below:**"

  /** The evaluation prompt: the fixed template, a blank line, then the
      resume text. */
  function AnalysisPrompt(resumeText: string): (prompt: string)
  {
    AnalysisTemplate + "\n\n" + resumeText
  }

  /** The resume text reaches the model unchanged, after the template and a
      blank line. */
  lemma AnalysisPromptShape(resumeText: string)
    ensures var prompt := AnalysisPrompt(resumeText);
      && |prompt| == |AnalysisTemplate| + 2 + |resumeText|
      && prompt[..|AnalysisTemplate|] == AnalysisTemplate
      && prompt[|AnalysisTemplate|..|AnalysisTemplate| + 2] == "\n\n"
      && prompt[|AnalysisTemplate| + 2..] == resumeText
  {
  }

  /** Different resume texts never produce the same evaluation prompt. */
  lemma AnalysisPromptInjective(a: string, b: string)
    requires AnalysisPrompt(a) == AnalysisPrompt(b)
    ensures a == b
  {
    AnalysisPromptShape(a);
    AnalysisPromptShape(b);
  }

  /** The extraction instructions before and after the embedded resume text
      (condensed wording). */
  const DetailsHead: string :=
    "You are a highly accurate data extraction tool. Extract the full name, the email address, "
    + "the phone number and the most impactful technical hard skill, and answer only with JSON "
    + "of the form {\"name\": ..., \"email\": ..., \"phone\": ..., \"main_skill\": ...}.\n"
    + "**Resume Text to Analyze:**\n---\n"
  const DetailsTail: string := "\n"

  /** The detail prompt: the resume text between the fixed instructions and
      the closing line. */
  function DetailsPrompt(resumeText: string): (prompt: string)
  {
    DetailsHead + resumeText + DetailsTail
  }

  /** The resume text is embedded unchanged between the instructions and the
      closing line. */
  lemma DetailsPromptShape(resumeText: string)
    ensures var prompt := DetailsPrompt(resumeText);
      && |prompt| == |DetailsHead| + |resumeText| + |DetailsTail|
      && prompt[..|DetailsHead|] == DetailsHead
      && prompt[|DetailsHead|..|DetailsHead| + |resumeText|] == resumeText
      && prompt[|DetailsHead| + |resumeText|..] == DetailsTail
  {
  }

  /** Different resume texts never produce the same detail prompt. */
  lemma DetailsPromptInjective(a: string, b: string)
    requires DetailsPrompt(a) == DetailsPrompt(b)
    ensures a == b
  {
    DetailsPromptShape(a);
    DetailsPromptShape(b);
  }

  /** `generate_analysis`: the model's reply to the evaluation prompt, or ""
      when the call fails. */
  function GenerateAnalysis(resumeText: string, model: AnalysisModel): (analysis: string)
    ensures model(AnalysisPrompt(resumeText)).None? ==> analysis == ""
    ensures model(AnalysisPrompt(resumeText)).Some? ==> analysis == model(AnalysisPrompt(resumeText)).value
  {
    model(AnalysisPrompt(resumeText)).GetOr("")
  }

  /** `extract_details`: the parsed reply to the detail prompt, or nothing
      when the call or the JSON parse fails. */
  function ExtractDetails(resumeText: string, model: DetailsModel): (details: Option<Details>)
  {
    model(DetailsPrompt(resumeText))
  }
}
