/** Records shared by several services: the file record the client keeps
    (`FileNode`), the project record returned by the server (`Project`),
    and the value a failed promise rejects with. */
module Models {
  import opened Wrappers

  /** The `type` of a file record: 'file' or 'directory'. */
  datatype FileKind = File | Directory

  /** A file record: its display name, its '/'-separated path inside the
      project, its kind, and its text content when loaded. */
  datatype FileNode = FileNode(name: string, path: string, kind: FileKind, content: Option<string>)

  /** A project as the client sees it. Timestamps are milliseconds. */
  datatype Project = Project(
    id: string,
    name: string,
    description: Option<string>,
    framework: string,
    createdAt: nat,
    updatedAt: nat)

  /** What an awaited call rejected with: an `Error` object, which carries a
      message, or any other thrown value. */
  datatype Thrown = ErrorObject(message: string) | OtherValue

  /** The outcome of an awaited call that yields no value. */
  datatype Completion = Resolved | Rejected(reason: Thrown)
}
