/**
 * The earlier, single-line diff viewer: a click on a line opens a comment form
 * for it, and a comment is listed under a line by its start line alone.
 */
module LegacyViewer {
  import opened Js
  import opened Model
  import opened Viewer

  /** The line test of this viewer's comment filter: start lines only, compared strictly. */
  predicate LegacyLineMatch(c: Comment, ch: Change)
    ensures ParserShape(ch) && ch.kind == Add ==> (LegacyLineMatch(c, ch) <==> c.startLineNew == ch.ln)
    ensures ParserShape(ch) && ch.kind == Del ==> (LegacyLineMatch(c, ch) <==> c.startLineOld == ch.ln)
    ensures ParserShape(ch) && LegacyLineMatch(c, ch) ==> c.startLineNew.Some? || c.startLineOld.Some?
  {
    match ch.kind
    case Add => c.startLineNew == NewSide(ch)
    case Del => c.startLineOld == OldSide(ch)
    case Normal => c.startLineNew == ch.newLine || c.startLineOld == ch.oldLine
  }

  predicate LegacyShows(c: Comment, ch: Change, hunkId: string) {
    c.hunkId == hunkId && LegacyLineMatch(c, ch)
  }

  /** The comments listed under a line, in their stored order. */
  function LegacyLineComments(comments: seq<Comment>, ch: Change, hunkId: string): (r: seq<Comment>)
    ensures |r| <= |comments|
    ensures forall c :: c in r <==> c in comments && LegacyShows(c, ch, hunkId)
  {
    FilterMembers((c: Comment) => LegacyShows(c, ch, hunkId), comments);
    Filter((c: Comment) => LegacyShows(c, ch, hunkId), comments)
  }

  /** What a click on change `idx` of hunk `hunkId` targets: its number, its side and its text. */
  function ClickTarget(hunkId: string, ch: Change, idx: nat): (t: LineTarget)
    ensures t.hunkId == hunkId && t.changeIdx == idx && t.lineContent == Some(ch.content)
    ensures t.isOld <==> ch.kind == Del
  {
    LineTarget(hunkId, LineNumber(ch), ch.kind == Del, Some(ch.content), idx)
  }

  /** The draft a submit hands on: none without a target or with a blank text. */
  function LegacySubmitDraft(file: ParsedFile, line: Option<LineTarget>, text: string): (r: Option<CommentDraft>)
    ensures r.None? <==> line.None? || AllWhite(text)
    ensures r.Some? ==>
      r.value.comment == Trim(text) != [] && r.value.endLineNew.None? && r.value.endLineOld.None?
      && r.value.hunkId == line.value.hunkId && r.value.lineContent == line.value.lineContent
  {
    if line.None? || Trim(text) == [] then None else Some(SingleDraft(file, line.value, text))
  }

  /**
   * On one-sided single-line comments, which both viewers write, the two filters
   * agree on every line of the parser's shape.
   */
  lemma FiltersAgree(c: Comment, ch: Change, hunkId: string)
    requires ParserShape(ch)
    requires c.endLineNew.None? && c.endLineOld.None?
    requires c.startLineNew.Some? != c.startLineOld.Some?
    ensures LegacyShows(c, ch, hunkId) <==> Shows(c, ch, hunkId)
  {
  }

  /** In a well-numbered hunk a comment written by a click is listed under the clicked line and no other. */
  lemma ClickShownOnlyAtLine(file: ParsedFile, changes: seq<Change>, hunkId: string, i: nat, j: nat, text: string, id: string, at: string)
    requires WellNumbered(changes)
    requires i < |changes| && j < |changes|
    ensures LegacyShows(FromDraft(SingleDraft(file, ClickTarget(hunkId, changes[i], i), text), id, at), changes[j], hunkId)
        <==> j == i
  {
    var sel := Selection(hunkId, i, i, changes[i].kind == Del);
    assert ClickTarget(hunkId, changes[i], i) == LineTargetAt(sel, changes[i]);
    var c := FromDraft(SingleDraft(file, LineTargetAt(sel, changes[i]), text), id, at);
    assert ParserShape(changes[i]) && ParserShape(changes[j]);
    SideNumbers(changes[i]);
    FiltersAgree(c, changes[j], hunkId);
    SingleShownOnlyAtLine(file, changes, sel, j, text, id, at);
  }

  class LegacyDiffViewer {
    var commentingLine: Option<LineTarget>
    var commentText: string

    constructor()
      ensures commentingLine.None? && commentText == ""
    {
      commentingLine := None;
      commentText := "";
    }

    /** A click on a line targets it and clears the text. */
    method HandleAddCommentClick(hunkId: string, lineNumber: Option<int>, isOld: bool, lineContent: string, changeIdx: nat)
      modifies this
      ensures commentingLine == Some(LineTarget(hunkId, lineNumber, isOld, Some(lineContent), changeIdx))
      ensures commentText == ""
    {
      commentingLine := Some(LineTarget(hunkId, lineNumber, isOld, Some(lineContent), changeIdx));
      commentText := "";
    }

    /** The row's click handler: the line's number is `newLine || oldLine || ln`, its side old for deleted lines. */
    method ClickLine(hunkId: string, change: Change, changeIdx: nat)
      modifies this
      ensures commentingLine == Some(ClickTarget(hunkId, change, changeIdx))
      ensures commentText == ""
    {
      HandleAddCommentClick(hunkId, LineNumber(change), change.kind == Del, change.content, changeIdx);
    }

    /** Submit: hands on the draft, if any, and then clears the target and the text. */
    method HandleSubmitComment(file: ParsedFile) returns (draft: Option<CommentDraft>)
      modifies this
      ensures draft == LegacySubmitDraft(file, old(commentingLine), old(commentText))
      ensures draft.None? ==> commentingLine == old(commentingLine) && commentText == old(commentText)
      ensures draft.Some? ==> commentingLine.None? && commentText == ""
    {
      if commentingLine.None? || Trim(commentText) == [] {
        return None;
      }
      draft := Some(SingleDraft(file, commentingLine.value, commentText));
      commentingLine := None;
      commentText := "";
    }

    /** The text box's `onChange`. */
    method SetCommentText(text: string)
      modifies this
      ensures commentText == text && commentingLine == old(commentingLine)
    {
      commentText := text;
    }

    /** Cancel on the form: the target is dropped, the text kept. */
    method Cancel()
      modifies this
      ensures commentingLine.None? && commentText == old(commentText)
    {
      commentingLine := None;
    }
  }
}
