/**
 * The small pure helpers of the scanner's issues (BurpExtender.java): the
 * confidence of a Fuzzable issue, the severity of an InputTransformation
 * issue, and the duplicate test FastScan and ParamGrabber give the host.
 */
module Issues {

  /** The two things the duplicate test compares. */
  datatype Issue = Issue(name: string, detail: string)

  /** Fuzzable.calculateConfidence: firm for a reliable finding, tentative otherwise. */
  function CalculateConfidence(reliable: bool): (c: string)
    ensures c == "Firm" <==> reliable
    ensures c == "Tentative" <==> !reliable
  {
    if reliable then "Firm" else "Tentative"
  }

  /** The one transformation that is only informational: a backslash-zero turning into a NUL character. */
  const NulTransformation: string := "\\0 => \0"

  /** InputTransformation.generateSeverity. */
  function GenerateSeverity(interesting: seq<string>): (s: string)
    ensures s == "Information" <==> interesting == [NulTransformation]
    ensures s == "High" <==> interesting != [NulTransformation]
  {
    if |interesting| == 1 && NulTransformation in interesting then "Information" else "High"
  }

  /** consolidateDuplicateIssues: -1 keeps only the existing issue, 0 keeps both. */
  function ConsolidateDuplicateIssues(existing: Issue, newIssue: Issue): (r: int)
    ensures r == -1 || r == 0
    ensures r == -1 <==> existing == newIssue
  {
    if existing.name == newIssue.name && existing.detail == newIssue.detail then -1 else 0
  }

  /** The duplicate test does not depend on which issue came first. */
  lemma ConsolidateSymmetric(a: Issue, b: Issue)
    ensures ConsolidateDuplicateIssues(a, b) == ConsolidateDuplicateIssues(b, a)
  {
  }

  /** A single transformation other than the NUL one is high severity, as is any set of two or more. */
  lemma SeverityExamples(t: string, u: string)
    requires t != NulTransformation
    ensures GenerateSeverity([t]) == "High"
    ensures GenerateSeverity([NulTransformation, u]) == "High"
    ensures GenerateSeverity([]) == "High"
  {
  }
}
