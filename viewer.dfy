/**
 * The diff viewer's commenting logic: which stored comments are shown beside a
 * line and which lines they highlight, and the selection state behind the mouse,
 * text and submit handlers that turns a click or a drag over the changes of one
 * hunk into a comment draft.
 */
module Viewer {
  import opened Js
  import opened Model
  import opened HunkId

  /** A drag over the changes of one hunk, on one side (the old side for deleted lines). */
  datatype Selection = Selection(hunkId: string, startIdx: nat, endIdx: nat, isOld: bool)

  /** A single line waiting for its comment. */
  datatype LineTarget = LineTarget(
    hunkId: string,
    lineNumber: Option<int>,
    isOld: bool,
    lineContent: Option<string>,
    changeIdx: nat)

  /** `Math.min(startIdx, endIdx)`. */
  function Lo(sel: Selection): nat {
    if sel.startIdx <= sel.endIdx then sel.startIdx else sel.endIdx
  }

  /** `Math.max(startIdx, endIdx)`. */
  function Hi(sel: Selection): nat {
    if sel.startIdx <= sel.endIdx then sel.endIdx else sel.startIdx
  }

  /** Swapping the two ends of a selection leaves it spanning the same changes. */
  function Reversed(sel: Selection): Selection {
    sel.(startIdx := sel.endIdx, endIdx := sel.startIdx)
  }

  // ---------------------------------------------------------------------------
  // Line numbers as the viewer reads them
  // ---------------------------------------------------------------------------

  /** `change.newLine || change.ln`. */
  function NewSide(ch: Change): Option<int> {
    OrNum(ch.newLine, ch.ln)
  }

  /** `change.oldLine || change.ln`. */
  function OldSide(ch: Change): Option<int> {
    OrNum(ch.oldLine, ch.ln)
  }

  /** `change.newLine || change.oldLine || change.ln`: the number a clicked line is known by. */
  function LineNumber(ch: Change): (r: Option<int>)
    ensures TruthyNum(ch.newLine) ==> r == ch.newLine
    ensures !TruthyNum(ch.newLine) && TruthyNum(ch.oldLine) ==> r == ch.oldLine
    ensures !TruthyNum(ch.newLine) && !TruthyNum(ch.oldLine) ==> r == ch.ln
    ensures TruthyNum(r) <==> TruthyNum(ch.newLine) || TruthyNum(ch.oldLine) || TruthyNum(ch.ln)
  {
    OrNum(OrNum(ch.newLine, ch.oldLine), ch.ln)
  }

  /** A line number the parser writes: present and at least 1. */
  predicate Positive(n: Option<int>) {
    n.Some? && n.value > 0
  }

  /**
   * The shape the diff parser gives a change: added and deleted lines carry only
   * `ln`, context lines carry `oldLine` and `newLine` and no `ln`, and every line
   * number present is positive.
   */
  predicate ParserShape(ch: Change) {
    match ch.kind
    case Normal => Positive(ch.oldLine) && Positive(ch.newLine) && ch.ln.None?
    case _ => ch.oldLine.None? && ch.newLine.None? && Positive(ch.ln)
  }

  /** The side a line is selected on, as the rows pass it to the handlers. */
  predicate OnSide(ch: Change, isOld: bool) {
    (ch.kind == Del) == isOld
  }

  // ---------------------------------------------------------------------------
  // Which comments a line shows, and which lines a range highlights
  // ---------------------------------------------------------------------------

  /** A comment anchored by `start`/`end` sits on the line `line`: at its end line when it has one. */
  predicate AnchorMatches(start: Option<int>, end: Option<int>, line: Option<int>) {
    start.Some? && line.Some? && (if end.Some? then end == line else start == line)
  }

  /** The line test of the comment filter: added lines by the new side, deleted by the old. */
  predicate LineMatch(c: Comment, ch: Change)
    ensures ParserShape(ch) && ch.kind != Normal ==>
      (LineMatch(c, ch) <==> AnchorMatches(if ch.kind == Add then c.startLineNew else c.startLineOld,
                                          if ch.kind == Add then c.endLineNew else c.endLineOld, ch.ln))
    ensures ParserShape(ch) && ch.kind == Normal ==>
      (LineMatch(c, ch) <==> if c.startLineNew.Some? then AnchorMatches(c.startLineNew, c.endLineNew, ch.newLine)
                             else AnchorMatches(c.startLineOld, c.endLineOld, ch.oldLine))
    ensures LineMatch(c, ch) ==> c.startLineNew.Some? || c.startLineOld.Some?
  {
    match ch.kind
    case Add => AnchorMatches(c.startLineNew, c.endLineNew, NewSide(ch))
    case Del => AnchorMatches(c.startLineOld, c.endLineOld, OldSide(ch))
    case Normal =>
      if c.startLineNew.Some? && ch.newLine.Some? then AnchorMatches(c.startLineNew, c.endLineNew, ch.newLine)
      else AnchorMatches(c.startLineOld, c.endLineOld, ch.oldLine)
  }

  /** Comment `c` is listed under change `ch` of the hunk named `hunkId`. */
  predicate Shows(c: Comment, ch: Change, hunkId: string) {
    c.hunkId == hunkId && LineMatch(c, ch)
  }

  /** The comments listed under a line, in their stored order. */
  function LineComments(comments: seq<Comment>, ch: Change, hunkId: string): (r: seq<Comment>)
    ensures |r| <= |comments|
    ensures forall c :: c in r <==> c in comments && Shows(c, ch, hunkId)
  {
    FilterMembers((c: Comment) => Shows(c, ch, hunkId), comments);
    Filter((c: Comment) => Shows(c, ch, hunkId), comments)
  }

  /** The filter keeps the stored order: the comments of a concatenation are those of its parts. */
  lemma LineCommentsAppend(a: seq<Comment>, b: seq<Comment>, ch: Change, hunkId: string)
    ensures LineComments(a + b, ch, hunkId) == LineComments(a, ch, hunkId) + LineComments(b, ch, hunkId)
  {
    FilterAppend((c: Comment) => Shows(c, ch, hunkId), a, b);
  }

  /** `start <= line <= end`, all three present. */
  predicate Between(start: Option<int>, end: Option<int>, line: Option<int>) {
    start.Some? && end.Some? && line.Some? && start.value <= line.value <= end.value
  }

  /** Change `ch` of the hunk `hunkId` lies inside the line range of comment `c`. */
  predicate InRange(c: Comment, ch: Change, hunkId: string) {
    c.hunkId == hunkId &&
    match ch.kind
    case Add => Between(c.startLineNew, c.endLineNew, NewSide(ch))
    case Del => Between(c.startLineOld, c.endLineOld, OldSide(ch))
    case Normal =>
      if c.startLineNew.Some? && ch.newLine.Some? && c.endLineNew.Some? then Between(c.startLineNew, c.endLineNew, ch.newLine)
      else Between(c.startLineOld, c.endLineOld, ch.oldLine)
  }

  /** Comment `c` carries both a start and an end line on the side a line of kind `kind` is read from. */
  predicate SpansSide(c: Comment, kind: ChangeType) {
    var onNew := c.startLineNew.Some? && c.endLineNew.Some?;
    var onOld := c.startLineOld.Some? && c.endLineOld.Some?;
    match kind
    case Add => onNew
    case Del => onOld
    case Normal => onNew || onOld
  }

  /**
   * The line is highlighted as part of some comment's range. Only a comment of the same
   * hunk with a start and an end line on the line's side can highlight it.
   */
  predicate IsInCommentRange(comments: seq<Comment>, ch: Change, hunkId: string)
    ensures IsInCommentRange(comments, ch, hunkId) ==>
      exists k :: 0 <= k < |comments| && comments[k].hunkId == hunkId && SpansSide(comments[k], ch.kind)
  {
    exists k :: 0 <= k < |comments| && InRange(comments[k], ch, hunkId)
  }

  /** The label `Lines a-b` is shown for comments whose end differs from their start. */
  predicate IsMultiLine(c: Comment) {
    (c.endLineNew.Some? && c.endLineNew != c.startLineNew) || (c.endLineOld.Some? && c.endLineOld != c.startLineOld)
  }

  /** A comment with no end line is never part of a highlighted range. */
  lemma SingleLineNeverInRange(c: Comment, ch: Change, hunkId: string)
    requires c.endLineNew.None? && c.endLineOld.None?
    ensures !InRange(c, ch, hunkId)
    ensures !IsMultiLine(c)
  {
  }

  /** Anchored on one side only, with its start not after its end. */
  predicate OneSidedRange(c: Comment) {
    || (c.startLineNew.Some? && c.endLineNew.Some? && c.startLineNew.value <= c.endLineNew.value
        && c.startLineOld.None? && c.endLineOld.None?)
    || (c.startLineOld.Some? && c.endLineOld.Some? && c.startLineOld.value <= c.endLineOld.value
        && c.startLineNew.None? && c.endLineNew.None?)
  }

  /** The line that lists a one-sided range comment is also highlighted as inside it. */
  lemma ShownRangeIsHighlighted(c: Comment, ch: Change, hunkId: string)
    requires OneSidedRange(c)
    requires Shows(c, ch, hunkId)
    ensures InRange(c, ch, hunkId)
  {
  }

  /** A line is highlighted exactly when one of the comments has it inside its range. */
  lemma HighlightedByMember(comments: seq<Comment>, c: Comment, ch: Change, hunkId: string)
    requires c in comments && InRange(c, ch, hunkId)
    ensures IsInCommentRange(comments, ch, hunkId)
  {
    var k :| 0 <= k < |comments| && comments[k] == c;
  }

  // ---------------------------------------------------------------------------
  // Selection and drafts
  // ---------------------------------------------------------------------------

  /** `file.chunks.find(c => generateHunkId(fileName, c) === hunkId)`. */
  function FindChunkById(sha1: string -> string, file: ParsedFile, hunkId: string): Option<Chunk> {
    Find(file.chunks, (c: Chunk) => GenerateHunkId(sha1, FileName(file), c) == hunkId)
  }

  /** The lookup finds a hunk of the file with that id, and fails only when no hunk has it. */
  lemma FindChunkByIdFound(sha1: string -> string, file: ParsedFile, hunkId: string)
    ensures FindChunkById(sha1, file, hunkId).Some? ==>
      FindChunkById(sha1, file, hunkId).value in file.chunks
      && GenerateHunkId(sha1, FileName(file), FindChunkById(sha1, file, hunkId).value) == hunkId
    ensures FindChunkById(sha1, file, hunkId).None?
        <==> forall k :: 0 <= k < |file.chunks| ==> GenerateHunkId(sha1, FileName(file), file.chunks[k]) != hunkId
  {
  }

  /** Change `idx` of the hunk `hunkId` is drawn as selected. */
  predicate IsSelected(sel: Option<Selection>, hunkId: string, idx: nat)
    ensures IsSelected(sel, hunkId, idx) <==>
      sel.Some? && sel.value.hunkId == hunkId &&
      (sel.value.startIdx <= idx <= sel.value.endIdx || sel.value.endIdx <= idx <= sel.value.startIdx)
  {
    sel.Some? && sel.value.hunkId == hunkId && Lo(sel.value) <= idx <= Hi(sel.value)
  }

  /** A fresh press selects exactly the pressed change. */
  lemma PressSelectsOne(hunkId: string, idx: nat, isOld: bool, h: string, k: nat)
    ensures IsSelected(Some(Selection(hunkId, idx, idx, isOld)), h, k) <==> h == hunkId && k == idx
  {
  }

  /** Dragging to change `j` selects every change between the pressed one and `j`, in either direction. */
  lemma DragSelectsBetween(sel: Selection, j: nat, h: string, k: nat)
    ensures IsSelected(Some(sel.(endIdx := j)), h, k)
        <==> h == sel.hunkId && ((sel.startIdx <= k <= j) || (j <= k <= sel.startIdx))
  {
  }

  /** The single-line target that a press and release on one change produce. */
  function LineTargetAt(sel: Selection, ch: Change): (t: LineTarget)
    ensures t.hunkId == sel.hunkId && t.isOld == sel.isOld && t.changeIdx == sel.startIdx
    ensures t.lineContent == Some(ch.content)
  {
    LineTarget(sel.hunkId, LineNumber(ch), sel.isOld, Some(ch.content), sel.startIdx)
  }

  /** What the release turns a one-change selection into, when its hunk and change exist. */
  function SingleTarget(sha1: string -> string, file: ParsedFile, sel: Selection): (r: Option<LineTarget>)
    ensures r.Some? ==> sel.startIdx == sel.endIdx
    ensures r.Some? ==>
      exists chunk :: (chunk in file.chunks && GenerateHunkId(sha1, FileName(file), chunk) == sel.hunkId
        && sel.startIdx < |chunk.changes| && r.value == LineTargetAt(sel, chunk.changes[sel.startIdx]))
  {
    if sel.startIdx != sel.endIdx then None
    else match FindChunkById(sha1, file, sel.hunkId)
      case None => None
      case Some(chunk) =>
        if sel.startIdx < |chunk.changes| then Some(LineTargetAt(sel, chunk.changes[sel.startIdx])) else None
  }

  /** The draft for a selected range of changes of `chunk`. */
  function RangeDraft(file: ParsedFile, chunk: Chunk, sel: Selection, text: string): (d: CommentDraft)
    requires Hi(sel) < |chunk.changes|
    ensures d.filePath == FileName(file) && d.hunkId == sel.hunkId && d.comment == Trim(text)
    ensures sel.isOld ==> d.startLineNew.None? && d.endLineNew.None?
    ensures !sel.isOld ==> d.startLineOld.None? && d.endLineOld.None?
    ensures !sel.isOld ==> d.startLineNew == NewSide(chunk.changes[Lo(sel)]) && d.endLineNew == NewSide(chunk.changes[Hi(sel)])
    ensures sel.isOld ==> d.startLineOld == OldSide(chunk.changes[Lo(sel)]) && d.endLineOld == OldSide(chunk.changes[Hi(sel)])
    ensures d.lineContent == Some(LinesText(chunk.changes[Lo(sel)..Hi(sel) + 1]))
  {
    var first, last := chunk.changes[Lo(sel)], chunk.changes[Hi(sel)];
    CommentDraft(
      FileName(file),
      sel.hunkId,
      if sel.isOld then None else NewSide(first),
      if sel.isOld then OldSide(first) else None,
      if sel.isOld then None else NewSide(last),
      if sel.isOld then OldSide(last) else None,
      Some(LinesText(chunk.changes[Lo(sel)..Hi(sel) + 1])),
      Trim(text))
  }

  /** The draft for a single line. */
  function SingleDraft(file: ParsedFile, line: LineTarget, text: string): (d: CommentDraft)
    ensures d.filePath == FileName(file) && d.hunkId == line.hunkId && d.comment == Trim(text)
    ensures d.endLineNew.None? && d.endLineOld.None?
    ensures line.isOld ==> d.startLineNew.None? && d.startLineOld == line.lineNumber
    ensures !line.isOld ==> d.startLineOld.None? && d.startLineNew == line.lineNumber
    ensures d.lineContent == line.lineContent
  {
    CommentDraft(
      FileName(file),
      line.hunkId,
      if line.isOld then None else line.lineNumber,
      if line.isOld then line.lineNumber else None,
      None,
      None,
      line.lineContent,
      Trim(text))
  }

  /** The draft a submit hands on, if any: a selected range takes precedence over a single line. */
  function SubmitDraft(sha1: string -> string, file: ParsedFile, sel: Option<Selection>, line: Option<LineTarget>, text: string)
    : (r: Option<CommentDraft>)
    ensures r.Some? ==> !AllWhite(text) && r.value.comment == Trim(text) && r.value.filePath == FileName(file)
    ensures !AllWhite(text) && sel.None? && line.Some? ==> r == Some(SingleDraft(file, line.value, text))
    ensures sel.Some? ==>
      (r.Some? <==> !AllWhite(text) && FindChunkById(sha1, file, sel.value.hunkId).Some?
                    && Hi(sel.value) < |FindChunkById(sha1, file, sel.value.hunkId).value.changes|)
    ensures r.Some? && sel.Some? ==>
      r.value == RangeDraft(file, FindChunkById(sha1, file, sel.value.hunkId).value, sel.value, text)
  {
    if Trim(text) == [] then None
    else if sel.Some? then
      match FindChunkById(sha1, file, sel.value.hunkId)
      case None => None
      case Some(chunk) =>
        if Hi(sel.value) < |chunk.changes| then Some(RangeDraft(file, chunk, sel.value, text)) else None
    else if line.Some? then Some(SingleDraft(file, line.value, text))
    else None
  }

  /** Nothing is submitted for a blank text, for a range whose hunk is gone, or when nothing is targeted. */
  lemma SubmitRefuses(sha1: string -> string, file: ParsedFile, sel: Option<Selection>, line: Option<LineTarget>, text: string)
    ensures AllWhite(text) ==> SubmitDraft(sha1, file, sel, line, text).None?
    ensures sel.Some? && FindChunkById(sha1, file, sel.value.hunkId).None? ==> SubmitDraft(sha1, file, sel, line, text).None?
    ensures sel.None? && line.None? ==> SubmitDraft(sha1, file, sel, line, text).None?
  {
  }

  /**
   * What is submitted carries the trimmed, non-blank text and the file's name,
   * and takes its hunk from the range when there is one, else from the line.
   */
  lemma SubmitCarries(sha1: string -> string, file: ParsedFile, sel: Option<Selection>, line: Option<LineTarget>, text: string)
    requires SubmitDraft(sha1, file, sel, line, text).Some?
    ensures SubmitDraft(sha1, file, sel, line, text).value.comment == Trim(text) != []
    ensures SubmitDraft(sha1, file, sel, line, text).value.filePath == FileName(file)
    ensures SubmitDraft(sha1, file, sel, line, text).value.hunkId == (if sel.Some? then sel.value.hunkId else line.value.hunkId)
  {
  }

  // ---------------------------------------------------------------------------
  // What the drafts promise
  // ---------------------------------------------------------------------------

  /** Dragging upwards or downwards over the same changes gives the same draft. */
  lemma RangeDirectionIrrelevant(file: ParsedFile, chunk: Chunk, sel: Selection, text: string)
    requires Hi(sel) < |chunk.changes|
    ensures Hi(Reversed(sel)) == Hi(sel)
    ensures RangeDraft(file, chunk, Reversed(sel), text) == RangeDraft(file, chunk, sel, text)
  {
  }

  /** The range's line content has one line per selected change, in order, when no content holds a newline. */
  lemma RangeLinesReadBack(file: ParsedFile, chunk: Chunk, sel: Selection, text: string)
    requires Hi(sel) < |chunk.changes|
    requires forall k :: Lo(sel) <= k <= Hi(sel) ==> '\n' !in chunk.changes[k].content
    ensures RangeDraft(file, chunk, sel, text).lineContent.Some?
    ensures Split(RangeDraft(file, chunk, sel, text).lineContent.value, '\n') == Contents(chunk.changes[Lo(sel)..Hi(sel) + 1])
  {
    var run := chunk.changes[Lo(sel)..Hi(sel) + 1];
    var parts := Contents(run);
    forall k | 0 <= k < |parts|
      ensures '\n' !in parts[k]
    {
      assert parts[k] == chunk.changes[Lo(sel) + k].content;
    }
    SplitJoin(parts, '\n');
  }

  /**
   * A range comment is listed under the last change of its range: the number the
   * draft records as its end is the number the filter reads off that change.
   */
  lemma RangeShownAtEnd(file: ParsedFile, chunk: Chunk, sel: Selection, text: string, id: string, at: string)
    requires Hi(sel) < |chunk.changes|
    requires OnSide(chunk.changes[sel.startIdx], sel.isOld) && OnSide(chunk.changes[sel.endIdx], sel.isOld)
    requires ParserShape(chunk.changes[sel.startIdx]) && ParserShape(chunk.changes[sel.endIdx])
    ensures Shows(FromDraft(RangeDraft(file, chunk, sel, text), id, at), chunk.changes[Hi(sel)], sel.hunkId)
  {
    var first, last := chunk.changes[Lo(sel)], chunk.changes[Hi(sel)];
    assert OnSide(first, sel.isOld) && ParserShape(first);
    assert OnSide(last, sel.isOld) && ParserShape(last);
  }

  /** A single-line comment is listed under the line it was written on. */
  lemma SingleShownAtLine(file: ParsedFile, sel: Selection, ch: Change, text: string, id: string, at: string)
    requires OnSide(ch, sel.isOld) && ParserShape(ch)
    ensures Shows(FromDraft(SingleDraft(file, LineTargetAt(sel, ch), text), id, at), ch, sel.hunkId)
    ensures !IsMultiLine(FromDraft(SingleDraft(file, LineTargetAt(sel, ch), text), id, at))
  {
  }

  /** The number a line has in the new file: added lines by `ln`, context lines by `newLine`. */
  function NewNumber(ch: Change): Option<int> {
    match ch.kind
    case Add => ch.ln
    case Normal => ch.newLine
    case Del => None
  }

  /** The number a line has in the old file: deleted lines by `ln`, context lines by `oldLine`. */
  function OldNumber(ch: Change): Option<int> {
    match ch.kind
    case Del => ch.ln
    case Normal => ch.oldLine
    case Add => None
  }

  /**
   * A hunk as the parser produces it: every change has the parser's shape, and no
   * two changes share a new-file number or an old-file number.
   */
  predicate WellNumbered(changes: seq<Change>) {
    && (forall k :: 0 <= k < |changes| ==> ParserShape(changes[k]))
    && (forall i, j :: 0 <= i < |changes| && 0 <= j < |changes| && i != j && NewNumber(changes[i]).Some?
          ==> NewNumber(changes[i]) != NewNumber(changes[j]))
    && (forall i, j :: 0 <= i < |changes| && 0 <= j < |changes| && i != j && OldNumber(changes[i]).Some?
          ==> OldNumber(changes[i]) != OldNumber(changes[j]))
  }

  /** Under the parser's shape, the anchoring numbers are the lines' own numbers on their side. */
  lemma SideNumbers(ch: Change)
    requires ParserShape(ch)
    ensures ch.kind != Del ==> NewSide(ch) == NewNumber(ch) == LineNumber(ch) && NewNumber(ch).Some?
    ensures ch.kind == Del ==> OldSide(ch) == OldNumber(ch) == LineNumber(ch) && OldNumber(ch).Some?
  {
  }

  /**
   * A one-sided comment is listed under a line only if the line's number on that
   * side is the comment's anchor: its end when it has one, else its start.
   */
  lemma ShownAtAnchorNumber(c: Comment, ch: Change, hunkId: string, isOld: bool)
    requires ParserShape(ch)
    requires isOld ==> c.startLineNew.None? && c.endLineNew.None? && c.startLineOld.Some?
    requires !isOld ==> c.startLineOld.None? && c.endLineOld.None? && c.startLineNew.Some?
    requires Shows(c, ch, hunkId)
    ensures isOld ==> OldNumber(ch) == (if c.endLineOld.Some? then c.endLineOld else c.startLineOld)
    ensures !isOld ==> NewNumber(ch) == (if c.endLineNew.Some? then c.endLineNew else c.startLineNew)
  {
  }

  /** In a well-numbered hunk a single-line comment is listed under the line it was written on and no other. */
  lemma SingleShownOnlyAtLine(file: ParsedFile, changes: seq<Change>, sel: Selection, j: nat, text: string, id: string, at: string)
    requires WellNumbered(changes)
    requires sel.startIdx < |changes| && j < |changes| && OnSide(changes[sel.startIdx], sel.isOld)
    ensures Shows(FromDraft(SingleDraft(file, LineTargetAt(sel, changes[sel.startIdx]), text), id, at), changes[j], sel.hunkId)
        <==> j == sel.startIdx
  {
    var i := sel.startIdx;
    var c := FromDraft(SingleDraft(file, LineTargetAt(sel, changes[i]), text), id, at);
    assert ParserShape(changes[i]) && ParserShape(changes[j]);
    SideNumbers(changes[i]);
    if j == i {
      SingleShownAtLine(file, sel, changes[i], text, id, at);
    } else if Shows(c, changes[j], sel.hunkId) {
      ShownAtAnchorNumber(c, changes[j], sel.hunkId, sel.isOld);
      assert false;
    }
  }

  /** In a well-numbered hunk a range comment is listed under the last change of its range and no other. */
  lemma RangeShownOnlyAtEnd(file: ParsedFile, chunk: Chunk, sel: Selection, j: nat, text: string, id: string, at: string)
    requires Hi(sel) < |chunk.changes| && j < |chunk.changes|
    requires WellNumbered(chunk.changes)
    requires OnSide(chunk.changes[sel.startIdx], sel.isOld) && OnSide(chunk.changes[sel.endIdx], sel.isOld)
    ensures Shows(FromDraft(RangeDraft(file, chunk, sel, text), id, at), chunk.changes[j], sel.hunkId) <==> j == Hi(sel)
  {
    var first, last := chunk.changes[Lo(sel)], chunk.changes[Hi(sel)];
    var c := FromDraft(RangeDraft(file, chunk, sel, text), id, at);
    assert ParserShape(first) && ParserShape(last) && ParserShape(chunk.changes[j]);
    assert OnSide(first, sel.isOld) && OnSide(last, sel.isOld);
    SideNumbers(first);
    SideNumbers(last);
    if j == Hi(sel) {
      RangeShownAtEnd(file, chunk, sel, text, id, at);
    } else if Shows(c, chunk.changes[j], sel.hunkId) {
      ShownAtAnchorNumber(c, chunk.changes[j], sel.hunkId, sel.isOld);
      assert false;
    }
  }

  // ---------------------------------------------------------------------------
  // The viewer's state and its handlers
  // ---------------------------------------------------------------------------

  /** Whether entering change `idx` on side `isOld` of hunk `hunkId` extends the drag. */
  predicate Extends(selecting: bool, sel: Option<Selection>, hunkId: string, isOld: bool) {
    selecting && sel.Some? && sel.value.hunkId == hunkId && sel.value.isOld == isOld
  }

  /** The release's lookup of the one selected change, with the source's early returns. */
  method TargetFor(sha1: string -> string, file: ParsedFile, sel: Selection) returns (target: Option<LineTarget>)
    ensures target == SingleTarget(sha1, file, sel)
  {
    if sel.startIdx != sel.endIdx {
      return None;
    }
    var chunk := FindChunkById(sha1, file, sel.hunkId);
    if chunk.None? {
      return None;
    }
    // An index past the hunk's changes throws before any state is set.
    if sel.startIdx >= |chunk.value.changes| {
      return None;
    }
    var change := chunk.value.changes[sel.startIdx];
    return Some(LineTarget(sel.hunkId, LineNumber(change), sel.isOld, Some(change.content), sel.startIdx));
  }

  /**
   * The guards of the submit handler, one after the other: the text, then the range
   * and its hunk, then the single line.
   */
  method DraftFor(sha1: string -> string, file: ParsedFile, sel: Option<Selection>, line: Option<LineTarget>, text: string)
    returns (draft: Option<CommentDraft>)
    ensures draft == SubmitDraft(sha1, file, sel, line, text)
  {
    if Trim(text) == [] {
      return None;
    }
    if sel.Some? {
      var chunk := FindChunkById(sha1, file, sel.value.hunkId);
      if chunk.None? {
        return None;
      }
      // A range past the hunk's changes throws before anything is handed on.
      if Hi(sel.value) >= |chunk.value.changes| {
        return None;
      }
      return Some(RangeDraft(file, chunk.value, sel.value, text));
    }
    if line.Some? {
      return Some(SingleDraft(file, line.value, text));
    }
    return None;
  }

  class DiffViewer {
    var commentingLine: Option<LineTarget>
    var commentText: string
    var selectedLines: Option<Selection>
    var isSelecting: bool

    /** A selected range and a single line being commented on never coexist. */
    predicate Valid()
      reads this
    {
      selectedLines.None? || commentingLine.None?
    }

    constructor()
      ensures Valid()
      ensures commentingLine.None? && commentText == "" && selectedLines.None? && !isSelecting
    {
      commentingLine := None;
      commentText := "";
      selectedLines := None;
      isSelecting := false;
    }

    /** Pressing on a change starts a drag there and drops any single-line target. */
    method HandleLineMouseDown(hunkId: string, changeIdx: nat, isOld: bool)
      modifies this
      ensures Valid()
      ensures isSelecting && selectedLines == Some(Selection(hunkId, changeIdx, changeIdx, isOld))
      ensures commentingLine.None? && commentText == old(commentText)
    {
      isSelecting := true;
      selectedLines := Some(Selection(hunkId, changeIdx, changeIdx, isOld));
      commentingLine := None;
    }

    /** Entering a change moves the end of the drag there, if it is on the same hunk and side. */
    method HandleLineMouseEnter(hunkId: string, changeIdx: nat, isOld: bool)
      requires Valid()
      modifies this
      ensures Valid()
      ensures Extends(old(isSelecting), old(selectedLines), hunkId, isOld)
          ==> selectedLines == Some(old(selectedLines).value.(endIdx := changeIdx))
      ensures !Extends(old(isSelecting), old(selectedLines), hunkId, isOld) ==> selectedLines == old(selectedLines)
      ensures isSelecting == old(isSelecting) && commentingLine == old(commentingLine) && commentText == old(commentText)
    {
      if isSelecting && selectedLines.Some? && selectedLines.value.hunkId == hunkId && selectedLines.value.isOld == isOld {
        selectedLines := Some(selectedLines.value.(endIdx := changeIdx));
      }
    }

    /** The end of a drag: a single-line target, when there is one, replaces the selection. */
    method EndDrag(target: Option<LineTarget>)
      requires Valid()
      modifies this
      ensures Valid()
      ensures !isSelecting && commentText == old(commentText)
      ensures target.Some? ==> commentingLine == target && selectedLines.None?
      ensures target.None? ==> commentingLine == old(commentingLine) && selectedLines == old(selectedLines)
    {
      isSelecting := false;
      if target.Some? {
        commentingLine := target;
        selectedLines := None;
      }
    }

    /**
     * Releasing ends the drag; a drag over one change becomes a single-line target.
     * When the hunk is missing, or the index is past its changes (where the source
     * fails on reading the absent change), the selection stays as it was.
     */
    method HandleLineMouseUp(sha1: string -> string, file: ParsedFile)
      requires Valid()
      modifies this
      ensures Valid()
      ensures commentText == old(commentText)
      ensures !(old(isSelecting) && old(selectedLines).Some?)
          ==> isSelecting == old(isSelecting) && selectedLines == old(selectedLines) && commentingLine == old(commentingLine)
      ensures old(isSelecting) && old(selectedLines).Some? ==> !isSelecting
      ensures old(isSelecting) && old(selectedLines).Some? ==>
        var t := SingleTarget(sha1, file, old(selectedLines).value);
        if t.Some? then commentingLine == t && selectedLines.None?
        else commentingLine == old(commentingLine) && selectedLines == old(selectedLines)
    {
      if isSelecting && selectedLines.Some? {
        var target := TargetFor(sha1, file, selectedLines.value);
        EndDrag(target);
      }
    }

    /** The text box's `onChange`. */
    method SetCommentText(text: string)
      modifies this
      ensures commentText == text
      ensures commentingLine == old(commentingLine) && selectedLines == old(selectedLines) && isSelecting == old(isSelecting)
    {
      commentText := text;
    }

    /** Cancel on the single-line form. */
    method CancelLine()
      modifies this
      ensures Valid()
      ensures commentingLine.None?
      ensures commentText == old(commentText) && selectedLines == old(selectedLines) && isSelecting == old(isSelecting)
    {
      commentingLine := None;
    }

    /** Cancel on the range form: the selection and the text are dropped. */
    method CancelRange()
      modifies this
      ensures Valid()
      ensures selectedLines.None? && commentText == ""
      ensures commentingLine == old(commentingLine) && isSelecting == old(isSelecting)
    {
      selectedLines := None;
      commentText := "";
    }

    /** After a draft is handed on: the target it was taken from and the text are cleared. */
    method ClearUsedTarget()
      requires Valid()
      modifies this
      ensures Valid()
      ensures old(selectedLines).Some? ==> selectedLines.None? && commentingLine == old(commentingLine)
      ensures old(selectedLines).None? ==> commentingLine.None? && selectedLines == old(selectedLines)
      ensures commentText == "" && isSelecting == old(isSelecting)
    {
      if selectedLines.Some? {
        selectedLines := None;
      } else {
        commentingLine := None;
      }
      commentText := "";
    }

    /**
     * Submit: the draft handed to `onAddComment`, if any. A blank text, a hunk that
     * cannot be found or (where the source fails on reading an absent change) a range
     * past the hunk's changes leave everything as it was; otherwise the used target
     * and the text are cleared.
     */
    method HandleSubmitComment(sha1: string -> string, file: ParsedFile) returns (draft: Option<CommentDraft>)
      requires Valid()
      modifies this
      ensures Valid()
      ensures draft == SubmitDraft(sha1, file, old(selectedLines), old(commentingLine), old(commentText))
      ensures isSelecting == old(isSelecting)
      ensures draft.None?
          ==> selectedLines == old(selectedLines) && commentingLine == old(commentingLine) && commentText == old(commentText)
      ensures draft.Some? && old(selectedLines).Some?
          ==> selectedLines.None? && commentingLine == old(commentingLine) && commentText == ""
      ensures draft.Some? && old(selectedLines).None?
          ==> commentingLine.None? && selectedLines == old(selectedLines) && commentText == ""
    {
      draft := DraftFor(sha1, file, selectedLines, commentingLine, commentText);
      if draft.Some? {
        ClearUsedTarget();
      }
    }
  }
}
