/**
 * The Markdown export of the workspace front end (`exportMarkdown` under
 * `frontend/`): no header and no summary, one `## path` section per commented
 * file in first-comment order, and per comment an optional line label, an excerpt
 * found through the chunk named `hunk_<index>`, falling back to the comment's
 * stored line content and then to the placeholder.
 */
module FrontExport {
  import opened Js
  import opened Model
  import opened Context
  import opened Grouping
  import HunkId

  // ---------------------------------------------------------------------------
  // The line label
  // ---------------------------------------------------------------------------

  /** `Line N` for a truthy new start line, else `Line N (old)` for a truthy old one, else "". */
  function LineInfo(c: Comment): (r: string)
    ensures r != "" <==> TruthyNum(c.startLineNew) || TruthyNum(c.startLineOld)
    ensures r != "" ==> StartsWith(r, "Line ")
  {
    if TruthyNum(c.startLineNew) then "Line " + IntToString(c.startLineNew.value)
    else if TruthyNum(c.startLineOld) then "Line " + IntToString(c.startLineOld.value) + " (old)"
    else ""
  }

  /** The label determines which side is shown and the line number shown. */
  lemma LineInfoInjective(a: Comment, b: Comment)
    requires LineInfo(a) != "" && LineInfo(a) == LineInfo(b)
    ensures TruthyNum(a.startLineNew) == TruthyNum(b.startLineNew)
    ensures TruthyNum(a.startLineNew) ==> a.startLineNew == b.startLineNew
    ensures !TruthyNum(a.startLineNew) ==> a.startLineOld == b.startLineOld
  {
    if TruthyNum(a.startLineNew) && TruthyNum(b.startLineNew) {
      NumberAfterLabel(IntToString(a.startLineNew.value), IntToString(b.startLineNew.value), "");
      IntToStringInjective(a.startLineNew.value, b.startLineNew.value);
    } else if !TruthyNum(a.startLineNew) && !TruthyNum(b.startLineNew) {
      NumberAfterLabel(IntToString(a.startLineOld.value), IntToString(b.startLineOld.value), " (old)");
      IntToStringInjective(a.startLineOld.value, b.startLineOld.value);
    } else {
      MixedLabelsDiffer(a, b);
      assert false;
    }
  }

  /** A new-side label ends in a digit, an old-side label in `)`. */
  lemma MixedLabelsDiffer(a: Comment, b: Comment)
    requires TruthyNum(a.startLineNew) != TruthyNum(b.startLineNew)
    requires LineInfo(a) != "" && LineInfo(b) != ""
    ensures LineInfo(a) != LineInfo(b)
  {
    var la, lb := LineInfo(a), LineInfo(b);
    if TruthyNum(a.startLineNew) {
      assert IsDigit(la[|la| - 1]) && lb[|lb| - 1] == ')';
    } else {
      assert la[|la| - 1] == ')' && IsDigit(lb[|lb| - 1]);
    }
  }

  lemma NumberAfterLabel(x: string, y: string, suffix: string)
    requires "Line " + x + suffix == "Line " + y + suffix
    ensures x == y
  {
    var s := "Line " + x + suffix;
    assert |x| == |y|;
    assert x == s[5..5 + |x|];
    assert y == ("Line " + y + suffix)[5..5 + |y|];
  }

  // ---------------------------------------------------------------------------
  // Locating the chunk by `hunk_<index>`
  // ---------------------------------------------------------------------------

  /** The id the front end expects for the chunk at `idx`. */
  function IndexLabel(idx: nat): string {
    "hunk_" + IntToString(idx)
  }

  /** The first index in `[from, count)` whose label is `hunkId`. */
  function HunkIndexFrom(from: nat, count: nat, hunkId: string): (r: Option<nat>)
    ensures r.Some? ==> from <= r.value < count && IndexLabel(r.value) == hunkId
    ensures r.None? ==> forall k :: from <= k < count ==> IndexLabel(k) != hunkId
    decreases count - from
  {
    if from >= count then None
    else if IndexLabel(from) == hunkId then Some(from)
    else HunkIndexFrom(from + 1, count, hunkId)
  }

  /** `chunks.find((_c, idx) => \`hunk_${idx}\` === hunkId)`, as an index. */
  function HunkIndex(chunks: seq<Chunk>, hunkId: string): (r: Option<nat>)
    ensures r.Some? ==> r.value < |chunks| && IndexLabel(r.value) == hunkId
    ensures r.None? ==> forall k :: 0 <= k < |chunks| ==> IndexLabel(k) != hunkId
  {
    HunkIndexFrom(0, |chunks|, hunkId)
  }

  /** The chunk at `i` is chosen exactly when the id is `hunk_i`. */
  lemma HunkIndexExactly(chunks: seq<Chunk>, hunkId: string, i: nat)
    ensures HunkIndex(chunks, hunkId) == Some(i) <==> i < |chunks| && hunkId == IndexLabel(i)
  {
    if i < |chunks| && hunkId == IndexLabel(i) {
      var r := HunkIndex(chunks, hunkId);
      assert r.Some?;
      IndexLabelInjective(r.value, i);
    }
  }

  lemma IndexLabelInjective(a: nat, b: nat)
    requires IndexLabel(a) == IndexLabel(b)
    ensures a == b
  {
    NumberAfterPrefix(IntToString(a), IntToString(b));
    IntToStringInjective(a, b);
  }

  lemma NumberAfterPrefix(x: string, y: string)
    requires "hunk_" + x == "hunk_" + y
    ensures x == y
  {
    assert x == ("hunk_" + x)[5..];
    assert y == ("hunk_" + y)[5..];
  }

  predicate IsLowerHex(c: char) {
    '0' <= c <= '9' || 'a' <= c <= 'f'
  }

  /** An id made of hexadecimal digits, such as a SHA-1 digest, names no chunk. */
  lemma HexIdMatchesNoChunk(chunks: seq<Chunk>, hunkId: string)
    requires forall k :: 0 <= k < |hunkId| ==> IsLowerHex(hunkId[k])
    ensures HunkIndex(chunks, hunkId) == None
  {
    forall i: nat ensures IndexLabel(i)[0] == 'h' {
    }
  }

  // ---------------------------------------------------------------------------
  // The excerpt and its fallbacks
  // ---------------------------------------------------------------------------

  /** The excerpt found through the chunk named by the comment's hunk id, or "". */
  function ChunkContext(files: seq<ParsedFile>, c: Comment): (r: string)
    ensures MatchFile(files, c.filePath).None? || c.hunkId == "" ==> r == ""
  {
    match MatchFile(files, c.filePath)
    case None => ""
    case Some(f) =>
      if c.hunkId == "" then ""
      else match HunkIndex(f.chunks, c.hunkId)
        case None => ""
        case Some(i) => ContextIn(f.chunks[i].changes, OrNum(c.startLineNew, c.startLineOld))
  }

  /**
   * When the file is found and the hunk id is `hunk_<i>` for one of its chunks, the
   * excerpt is the window of chunk i around the first change with the comment's line.
   */
  lemma ChunkFound(files: seq<ParsedFile>, c: Comment, f: ParsedFile, i: nat)
    requires MatchFile(files, c.filePath) == Some(f) && i < |f.chunks| && c.hunkId == IndexLabel(i)
    ensures ChunkContext(files, c) == ContextIn(f.chunks[i].changes, OrNum(c.startLineNew, c.startLineOld))
  {
    HunkIndexExactly(f.chunks, c.hunkId, i);
  }

  /** `diffContext` after the fallback to the stored line content. */
  function FrontContext(files: seq<ParsedFile>, c: Comment): (r: string)
    ensures ChunkContext(files, c) != "" ==> r == ChunkContext(files, c)
    ensures ChunkContext(files, c) == "" ==> r == (if TruthyStr(c.lineContent) then c.lineContent.value else "")
  {
    var fromChunk := ChunkContext(files, c);
    if fromChunk == "" && TruthyStr(c.lineContent) then c.lineContent.value else fromChunk
  }

  /** `diffContext || '(context not available)'`. */
  function Excerpt(ctx: string): (r: string)
    ensures r != ""
    ensures ctx != "" ==> r == ctx
  {
    if ctx == "" then Placeholder else ctx
  }

  /**
   * The excerpt comes from the chunk when that gives any text, else from the stored line
   * content when that is non-empty, else it is the placeholder; it is never empty.
   */
  lemma FallbackOrder(files: seq<ParsedFile>, c: Comment)
    ensures ChunkContext(files, c) != "" ==> Excerpt(FrontContext(files, c)) == ChunkContext(files, c)
    ensures ChunkContext(files, c) == "" && TruthyStr(c.lineContent)
        ==> Excerpt(FrontContext(files, c)) == c.lineContent.value
    ensures ChunkContext(files, c) == "" && !TruthyStr(c.lineContent)
        ==> Excerpt(FrontContext(files, c)) == Placeholder
    ensures Excerpt(FrontContext(files, c)) != ""
  {
  }

  /**
   * A comment whose hunk id is a digest from `generateHunkId` with a hexadecimal digest
   * never gets a chunk excerpt: it shows its stored line content or the placeholder.
   */
  lemma DigestIdsFallBack(sha1: string -> string, path: string, chunk: Chunk,
                          files: seq<ParsedFile>, c: Comment)
    requires forall s, k :: 0 <= k < |sha1(s)| ==> IsLowerHex(sha1(s)[k])
    requires c.hunkId == HunkId.GenerateHunkId(sha1, path, chunk)
    ensures ChunkContext(files, c) == ""
  {
    match MatchFile(files, c.filePath)
    case None =>
    case Some(f) =>
      HexIdMatchesNoChunk(f.chunks, c.hunkId);
  }

  // ---------------------------------------------------------------------------
  // The text of one comment, a file section and the document
  // ---------------------------------------------------------------------------

  function LabelLine(lineInfo: string): string {
    if lineInfo != "" then "**" + lineInfo + "**\n\n" else ""
  }

  function StatusLine(resolved: bool): (r: string)
    ensures r != "" <==> resolved
  {
    if resolved then "Status: resolved\n" else ""
  }

  /** The block of comment `c` once its excerpt `ctx` is known. */
  function BlockText(ctx: string, c: Comment): (r: string)
    ensures r != ""
  {
    LabelLine(LineInfo(c)) + "```diff\n" + Excerpt(ctx) + "\n```\n\n" + c.comment + "\n\n"
    + StatusLine(c.resolved) + "\n"
  }

  function FrontBlock(files: seq<ParsedFile>, c: Comment): string {
    BlockText(FrontContext(files, c), c)
  }

  function FileHeading(path: string): string {
    "## " + path + "\n\n"
  }

  function Blocks(files: seq<ParsedFile>, cs: seq<Comment>): string {
    ConcatMap((c: Comment) => FrontBlock(files, c), cs)
  }

  function Sections(files: seq<ParsedFile>, gs: seq<Group>): string {
    ConcatMap((g: Group) => FileHeading(g.path) + Blocks(files, g.comments), gs)
  }

  /**
   * The whole export as one expression: the grouped sections and nothing else. An
   * empty review exports as the empty string, and a review with comments never does.
   */
  function FrontDocument(review: Review, files: seq<ParsedFile>): (r: string)
    ensures r == "" <==> review.comments == []
  {
    var cs := review.comments;
    if cs == [] then Sections(files, Groups(cs))
    else
      PathsMembers(cs);
      assert cs[0] in cs;
      assert Paths(cs) != [];
      GroupsNonEmpty(cs);
      SectionsNonEmpty(files, Groups(cs));
      Sections(files, Groups(cs))
  }

  lemma BlocksSnoc(files: seq<ParsedFile>, cs: seq<Comment>, c: Comment)
    ensures Blocks(files, cs + [c]) == Blocks(files, cs) + FrontBlock(files, c)
  {
    ConcatMapSnoc((c: Comment) => FrontBlock(files, c), cs, c);
  }

  lemma SectionsSnoc(files: seq<ParsedFile>, gs: seq<Group>, g: Group)
    ensures Sections(files, gs + [g]) == Sections(files, gs) + (FileHeading(g.path) + Blocks(files, g.comments))
  {
    ConcatMapSnoc((g: Group) => FileHeading(g.path) + Blocks(files, g.comments), gs, g);
  }

  // ---------------------------------------------------------------------------
  // The export as the source computes it
  // ---------------------------------------------------------------------------

  /** The lookup through `hunk_<index>`, then the fallback to the stored line content. */
  method FindContext(files: seq<ParsedFile>, filePath: string, comment: Comment) returns (diffContext: string)
    requires comment.filePath == filePath
    ensures diffContext == FrontContext(files, comment)
  {
    var file := MatchFile(files, filePath);
    diffContext := "";
    if file.Some? && comment.hunkId != "" {
      var idx := HunkIndex(file.value.chunks, comment.hunkId);
      if idx.Some? {
        var chunk := file.value.chunks[idx.value];
        var targetLine := OrNum(comment.startLineNew, comment.startLineOld);
        var changeIndex := FindChangeIndex(chunk.changes, targetLine);
        if changeIndex != -1 {
          diffContext := LinesText(Window(chunk.changes, changeIndex));
        }
      }
    }
    if diffContext == "" && TruthyStr(comment.lineContent) {
      diffContext := comment.lineContent.value;
    }
  }

  /** The text one comment adds, once its excerpt is known. */
  method CommentBlock(diffContext: string, comment: Comment) returns (block: string)
    ensures block == BlockText(diffContext, comment)
  {
    var lineInfo := LineInfo(comment);
    block := "";
    if lineInfo != "" {
      block := "**" + lineInfo + "**\n\n";
    }
    block := block + "```diff\n" + Excerpt(diffContext) + "\n```\n\n";
    block := block + comment.comment + "\n\n";
    if comment.resolved {
      block := block + "Status: resolved\n";
    }
    block := block + "\n";
  }

  /** The outer `forEach` callback: the heading of one file and the blocks of its comments. */
  method FileSection(files: seq<ParsedFile>, filePath: string, fileComments: seq<Comment>) returns (text: string)
    requires forall k :: 0 <= k < |fileComments| ==> fileComments[k].filePath == filePath
    ensures text == FileHeading(filePath) + Blocks(files, fileComments)
  {
    text := FileHeading(filePath);
    var j := 0;
    while j < |fileComments|
      invariant 0 <= j <= |fileComments|
      invariant text == FileHeading(filePath) + Blocks(files, fileComments[..j])
    {
      var comment := fileComments[j];
      var diffContext := FindContext(files, filePath, comment);
      var block := CommentBlock(diffContext, comment);
      TakeSnoc(fileComments, j);
      BlocksSnoc(files, fileComments[..j], comment);
      AppendAssoc(FileHeading(filePath), Blocks(files, fileComments[..j]), block);
      text := text + block;
      j := j + 1;
    }
    assert fileComments[..j] == fileComments;
  }

  /** `exportMarkdown(review, files)` of the front end. */
  method ExportMarkdown(review: Review, files: seq<ParsedFile>) returns (markdown: string)
    ensures markdown == FrontDocument(review, files)
  {
    var comments := review.comments;
    var commentsByFile := GroupByFile(comments);
    markdown := "";
    var g := 0;
    while g < |commentsByFile|
      invariant 0 <= g <= |commentsByFile|
      invariant markdown == Sections(files, commentsByFile[..g])
    {
      var group := commentsByFile[g];
      OfPathOnPath(comments, group.path);
      var section := FileSection(files, group.path, group.comments);
      TakeSnoc(commentsByFile, g);
      SectionsSnoc(files, commentsByFile[..g], group);
      markdown := markdown + section;
      g := g + 1;
    }
    assert commentsByFile[..g] == commentsByFile;
  }

  // ---------------------------------------------------------------------------
  // What the export promises
  // ---------------------------------------------------------------------------

  lemma BlocksNonEmpty(files: seq<ParsedFile>, cs: seq<Comment>)
    requires cs != []
    ensures Blocks(files, cs) != ""
  {
    var init, c := cs[..|cs| - 1], cs[|cs| - 1];
    assert init + [c] == cs;
    BlocksSnoc(files, init, c);
    assert |FrontBlock(files, c)| > 0;
  }

  lemma SectionsNonEmpty(files: seq<ParsedFile>, gs: seq<Group>)
    requires gs != [] && gs[|gs| - 1].comments != []
    ensures Sections(files, gs) != ""
  {
    var init, g := gs[..|gs| - 1], gs[|gs| - 1];
    assert init + [g] == gs;
    SectionsSnoc(files, init, g);
    BlocksNonEmpty(files, g.comments);
  }
}
