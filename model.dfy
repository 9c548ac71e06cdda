/**
 * The review data model: parsed diff files, hunks (chunks), line changes,
 * comments and reviews, with every optional field of the original types kept optional.
 */
module Model {
  import opened Js

  datatype ChangeType = Normal | Add | Del

  /**
   * One line of a hunk. The diff wrappers copy the parser's `ln1` into `oldLine`,
   * its `ln2` into `newLine` and keep its `ln`; any of the three may be absent.
   */
  datatype Change = Change(
    kind: ChangeType,
    content: string,
    oldLine: Option<int>,
    newLine: Option<int>,
    ln: Option<int>)

  /** A hunk: its header fields, raw header text and its changes in textual order. */
  datatype Chunk = Chunk(
    content: string,
    changes: seq<Change>,
    oldStart: int,
    oldLines: int,
    newStart: int,
    newLines: int)

  datatype ParsedFile = ParsedFile(
    fromPath: Option<string>,
    toPath: Option<string>,
    chunks: seq<Chunk>,
    deletions: int,
    additions: int)

  datatype Comment = Comment(
    commentId: string,
    filePath: string,
    hunkId: string,
    startLineNew: Option<int>,
    startLineOld: Option<int>,
    endLineNew: Option<int>,
    endLineOld: Option<int>,
    lineContent: Option<string>,
    comment: string,
    tags: Option<seq<string>>,
    resolved: bool,
    createdAt: string)

  /** What the diff viewer hands to `onAddComment`: a comment without id, creation time and status. */
  datatype CommentDraft = CommentDraft(
    filePath: string,
    hunkId: string,
    startLineNew: Option<int>,
    startLineOld: Option<int>,
    endLineNew: Option<int>,
    endLineOld: Option<int>,
    lineContent: Option<string>,
    comment: string)

  /** `{ ...draft, comment_id, created_at, resolved: false }`: a draft becomes an open, untagged comment. */
  function FromDraft(d: CommentDraft, commentId: string, createdAt: string): (c: Comment)
    ensures !c.resolved && c.tags.None?
    ensures c.commentId == commentId && c.createdAt == createdAt
    ensures c.filePath == d.filePath && c.hunkId == d.hunkId
    ensures c.startLineNew == d.startLineNew && c.startLineOld == d.startLineOld
    ensures c.endLineNew == d.endLineNew && c.endLineOld == d.endLineOld
    ensures c.lineContent == d.lineContent && c.comment == d.comment
  {
    Comment(commentId, d.filePath, d.hunkId, d.startLineNew, d.startLineOld, d.endLineNew, d.endLineOld,
      d.lineContent, d.comment, None, false, createdAt)
  }

  datatype Review = Review(
    reviewId: string,
    repo: Option<string>,
    baseRef: Option<string>,
    headRef: Option<string>,
    baseCommit: Option<string>,
    headCommit: Option<string>,
    hasUncommittedChanges: Option<bool>,
    createdAt: string,
    comments: seq<Comment>,
    diffText: Option<string>,
    files: Option<seq<ParsedFile>>)

  /** The contents of a run of changes, in order. */
  function Contents(changes: seq<Change>): (r: seq<string>)
    ensures |r| == |changes|
    ensures forall k :: 0 <= k < |r| ==> r[k] == changes[k].content
  {
    seq(|changes|, k requires 0 <= k < |changes| => changes[k].content)
  }

  /** The text of a run of changes: their contents joined by newlines. */
  function LinesText(changes: seq<Change>): string {
    Join(Contents(changes), "\n")
  }

  /** `file.to || file.from`, as the exports compare it with a comment's path. */
  function ExportPath(f: ParsedFile): Option<string> {
    OrStr(f.toPath, f.fromPath)
  }

  /** `file.to || file.from || 'unknown'`, the name the viewer shows and hashes. */
  function FileName(f: ParsedFile): string {
    OrElse(OrStr(f.toPath, f.fromPath), "unknown")
  }
}
