/** What rules produce. */
module Diagnostics {
  datatype Severity = Error | Warn

  datatype Diagnostic = Diagnostic(
    id: string, filePath: string, line: int, column: int, rule: string, category: string,
    severity: Severity, message: string, tags: seq<string>)

  datatype SkippedCheck = SkippedCheck(check: string, reason: string)
}
