/** The external effects of one run, in the order they happen. */
module Effects {

  datatype Call =
    | SaveFile(path: string)
    | RemoveFile(path: string)
    | ConfigureKey(key: string)
    | ReadPdf(path: string)
    | RequestAnalysis(prompt: string)
    | RequestDetails(prompt: string)

  /** Whether a log contains a detail request. */
  predicate RequestsDetails(calls: seq<Call>) {
    exists c :: c in calls && c.RequestDetails?
  }

  /** Whether a log contains an evaluation request. */
  predicate RequestsAnalysis(calls: seq<Call>) {
    exists c :: c in calls && c.RequestAnalysis?
  }
}
