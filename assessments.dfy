/** The normalised finding schema shared by every tool adapter, and the server's assessment. */
module Assessments {

  /**
   * One reported issue: where it is (path relative to the scan directory unless
   * absolute, 1-based line or 0), what it is, the tool's own key/value metadata,
   * and the two fields the fingerprint collaborator fills in.
   */
  datatype Finding = Finding(
    filePath: string,
    line: int,
    description: string,
    tool: map<string, string>,
    repoPath: string,
    partialFingerprint: string)

  /** A finding as an adapter first builds it, before any fingerprinting. */
  function NewFinding(filePath: string, line: int, description: string, tool: map<string, string>): (f: Finding)
    ensures f.filePath == filePath && f.line == line && f.description == description && f.tool == tool
    ensures f.repoPath == "" && f.partialFingerprint == ""
  {
    Finding(filePath, line, description, tool, "", "")
  }

  /** The server's verdict on an upload; the one field the core reads is its findings list. */
  datatype Assessment = Assessment(findings: seq<Finding>)
}
