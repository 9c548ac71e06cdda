/**
 * The Markdown export of the review page (`exportMarkdown` at the top level):
 * a header with the review's identity, one section per commented file in
 * first-comment order, one block per comment with up to five changes of
 * context, and a summary with the file, comment and resolved counts.
 */
module RootExport {
  import opened Js
  import opened Model
  import opened Context
  import opened Grouping

  // ---------------------------------------------------------------------------
  // Locating the context of one comment
  // ---------------------------------------------------------------------------

  /** `comment.start_line_new || comment.start_line_old`. */
  function Target(c: Comment): Option<int> {
    OrNum(c.startLineNew, c.startLineOld)
  }

  /**
   * The chunk test of the export: with a truthy new start line, some change has that
   * `newLine`; otherwise some change has the old start line as its `oldLine`; with
   * neither line truthy, no chunk qualifies.
   */
  predicate ChunkHasLine(chunk: Chunk, c: Comment) {
    var lineNum := Target(c);
    if !TruthyNum(lineNum) then false
    else if TruthyNum(c.startLineNew) then
      exists k :: 0 <= k < |chunk.changes| && chunk.changes[k].newLine == lineNum
    else
      exists k :: 0 <= k < |chunk.changes| && chunk.changes[k].oldLine == lineNum
  }

  /** `file.chunks.find(...)`: the first chunk of `file` that holds the comment's line. */
  function MatchChunk(file: ParsedFile, c: Comment): (r: Option<Chunk>)
    ensures r.Some? ==> r.value in file.chunks && ChunkHasLine(r.value, c)
    ensures r.None? <==> forall ch :: ch in file.chunks ==> !ChunkHasLine(ch, c)
    ensures !TruthyNum(Target(c)) ==> r.None?
  {
    Find(file.chunks, (ch: Chunk) => ChunkHasLine(ch, c))
  }

  /** The chunk found is the first chunk of the file that holds the line. */
  lemma MatchChunkIsFirst(file: ParsedFile, c: Comment, i: nat)
    requires i < |file.chunks| && ChunkHasLine(file.chunks[i], c)
    requires forall k :: 0 <= k < i ==> !ChunkHasLine(file.chunks[k], c)
    ensures MatchChunk(file, c) == Some(file.chunks[i])
  {
    var r := FindIndex(file.chunks, (ch: Chunk) => ChunkHasLine(ch, c));
    assert r.Some?;
    assert !(r.value < i);
  }

  /** `diffContext` before the placeholder is applied: "" whenever the file, chunk or line is missing. */
  function RootContext(files: seq<ParsedFile>, c: Comment): (r: string)
    ensures MatchFile(files, c.filePath).None? ==> r == ""
    ensures !TruthyNum(Target(c)) ==> r == ""
    ensures MatchFile(files, c.filePath).Some? && MatchChunk(MatchFile(files, c.filePath).value, c).None? ==> r == ""
  {
    match MatchFile(files, c.filePath)
    case None => ""
    case Some(f) =>
      match MatchChunk(f, c)
      case None => ""
      case Some(chunk) => ContextIn(chunk.changes, Target(c))
  }

  /**
   * Once a chunk holds the comment's line, some change of it carries the target, so
   * the context is the window around the first such change: at most five
   * consecutive changes of that chunk, one of which carries the target line.
   */
  lemma ChunkFoundContext(files: seq<ParsedFile>, c: Comment)
    requires MatchFile(files, c.filePath).Some?
    requires MatchChunk(MatchFile(files, c.filePath).value, c).Some?
    ensures var chunk := MatchChunk(MatchFile(files, c.filePath).value, c).value;
            var i := FindChangeIndex(chunk.changes, Target(c));
            && 0 <= i < |chunk.changes|
            && Hits(chunk.changes[i], Target(c))
            && RootContext(files, c) == LinesText(Window(chunk.changes, i))
  {
    var chunk := MatchChunk(MatchFile(files, c.filePath).value, c).value;
    var k :| 0 <= k < |chunk.changes|
          && (chunk.changes[k].newLine == Target(c) || chunk.changes[k].oldLine == Target(c));
    HitFound(chunk.changes, Target(c), k);
  }

  // ---------------------------------------------------------------------------
  // The text of one comment block
  // ---------------------------------------------------------------------------

  /** The fenced diff excerpt, with the placeholder for an empty context. */
  function ContextBlock(ctx: string): string {
    "### \U{1F522} Diff Context\n```diff\n" + (if ctx == "" then Placeholder else ctx) + "\n```\n\n"
  }

  function CommentBody(c: Comment): string {
    "### \U{1F4AC} Comment\n\n" + c.comment + "\n\n"
  }

  /** The tags line, present only for a non-empty tag list. */
  function TagsLine(tags: Option<seq<string>>): (r: string)
    ensures r != "" <==> tags.Some? && |tags.value| > 0
  {
    if tags.Some? && |tags.value| > 0 then "**Tags:** " + Join(tags.value, ", ") + "\n" else ""
  }

  function StatusLine(resolved: bool): string {
    "**Status:** " + (if resolved then "\U{2705} resolved" else "\U{2B1C}\U{FE0F} unresolved") + "\n\n"
  }

  const Rule: string := "---\n\n"

  /** The block of comment `c` once its excerpt `ctx` is known. */
  function BlockText(ctx: string, c: Comment): string {
    ContextBlock(ctx) + CommentBody(c) + TagsLine(c.tags) + StatusLine(c.resolved) + Rule
  }

  function RootBlock(files: seq<ParsedFile>, c: Comment): string {
    BlockText(RootContext(files, c), c)
  }

  /** When the file, a chunk holding the line, or the line itself is missing, the excerpt is exactly the placeholder. */
  lemma PlaceholderWhenMissing(files: seq<ParsedFile>, c: Comment)
    requires !TruthyNum(Target(c)) || (MatchFile(files, c.filePath).Some? ==> MatchChunk(MatchFile(files, c.filePath).value, c).None?)
    ensures ContextBlock(RootContext(files, c)) == ContextBlock(Placeholder)
  {
  }

  /** The two status lines differ, so the block shows the comment's status. */
  lemma StatusShown(a: bool, b: bool)
    requires StatusLine(a) == StatusLine(b)
    ensures a == b
  {
  }

  // ---------------------------------------------------------------------------
  // Header, sections and summary
  // ---------------------------------------------------------------------------

  function RootHeader(review: Review): string {
    "# \U{1F9E9} Review Export \U{2014} vibecheck\n\n"
    + "**Repository:** `" + Default(review.repo, "N/A") + "`\n"
    + "**Base:** `" + Default(review.baseRef, "N/A") + "`\n"
    + "**Head:** `" + Default(review.headRef, "N/A") + "`\n"
    + "**Review ID:** `" + review.reviewId + "`\n"
    + "**Created:** " + review.createdAt + "\n"
    + "**Total Comments:** " + IntToString(|review.comments|) + "\n\n---\n"
  }

  /** A missing repository, base or head is printed as `N/A`. */
  lemma MissingRefsPrintNA(review: Review)
    requires review.repo.None? && review.baseRef.None? && review.headRef.None?
    ensures RootHeader(review)
         == RootHeader(review.(repo := Some("N/A"), baseRef := Some("N/A"), headRef := Some("N/A")))
  {
  }

  function FileHeading(path: string): string {
    "\n## \U{1F4C4} File: `" + path + "`\n\n"
  }

  /** The blocks of `cs`, in order. */
  function Blocks(files: seq<ParsedFile>, cs: seq<Comment>): string {
    ConcatMap((c: Comment) => RootBlock(files, c), cs)
  }

  /** A heading and the blocks for each group, in order. */
  function Sections(files: seq<ParsedFile>, gs: seq<Group>): string {
    ConcatMap((g: Group) => FileHeading(g.path) + Blocks(files, g.comments), gs)
  }

  /** `comments.filter(c => c.resolved).length`. */
  function ResolvedCount(cs: seq<Comment>): (n: nat)
    ensures n <= |cs|
    ensures n == |cs| <==> forall k :: 0 <= k < |cs| ==> cs[k].resolved
    ensures n == 0 <==> forall k :: 0 <= k < |cs| ==> !cs[k].resolved
  {
    if cs == [] then 0
    else ResolvedCount(cs[..|cs| - 1]) + (if cs[|cs| - 1].resolved then 1 else 0)
  }

  function RootSummary(fileCount: nat, total: nat, resolved: nat): string {
    "## \U{1F9E0} Summary\n\n"
    + "- \U{1F9FE} **Files reviewed:** " + IntToString(fileCount) + "\n"
    + "- \U{1F4AC} **Total comments:** " + IntToString(total) + "\n"
    + "- \U{2699}\U{FE0F} **Resolved:** " + IntToString(resolved) + " / " + IntToString(total) + "\n"
  }

  /**
   * The whole export as one expression: header, grouped sections, summary. The summary
   * reports the number of distinct file paths, the number of comments and the number
   * of resolved comments.
   */
  function RootDocument(review: Review, files: seq<ParsedFile>): (r: string)
    ensures r == RootHeader(review) + Sections(files, Groups(review.comments))
                 + RootSummary(|set c | c in review.comments :: c.filePath|,
                               |review.comments|,
                               |set k | 0 <= k < |review.comments| && review.comments[k].resolved|)
  {
    var groups := Groups(review.comments);
    GroupsCount(review.comments);
    ResolvedCountIsFilter(review.comments);
    RootHeader(review) + Sections(files, groups)
    + RootSummary(|groups|, |review.comments|, ResolvedCount(review.comments))
  }

  /** The lookup of the file, the chunk and the change, leaving "" when any is missing. */
  method FindContext(files: seq<ParsedFile>, filePath: string, comment: Comment) returns (diffContext: string)
    requires comment.filePath == filePath
    ensures diffContext == RootContext(files, comment)
  {
    diffContext := "";
    var file := MatchFile(files, filePath);
    if file.Some? {
      var chunk := MatchChunk(file.value, comment);
      if chunk.Some? {
        var targetLine := Target(comment);
        var changeIndex := FindChangeIndex(chunk.value.changes, targetLine);
        if changeIndex != -1 {
          diffContext := LinesText(Window(chunk.value.changes, changeIndex));
        }
      }
    }
  }

  /** The body of the inner `forEach`: the text one comment adds. */
  method CommentBlock(diffContext: string, comment: Comment) returns (block: string)
    ensures block == BlockText(diffContext, comment)
  {
    block := ContextBlock(diffContext) + CommentBody(comment);
    if comment.tags.Some? && |comment.tags.value| > 0 {
      block := block + "**Tags:** " + Join(comment.tags.value, ", ") + "\n";
    }
    block := block + StatusLine(comment.resolved) + Rule;
  }

  lemma BlocksSnoc(files: seq<ParsedFile>, cs: seq<Comment>, c: Comment)
    ensures Blocks(files, cs + [c]) == Blocks(files, cs) + RootBlock(files, c)
  {
    ConcatMapSnoc((c: Comment) => RootBlock(files, c), cs, c);
  }

  lemma SectionsSnoc(files: seq<ParsedFile>, gs: seq<Group>, g: Group)
    ensures Sections(files, gs + [g]) == Sections(files, gs) + (FileHeading(g.path) + Blocks(files, g.comments))
  {
    ConcatMapSnoc((g: Group) => FileHeading(g.path) + Blocks(files, g.comments), gs, g);
  }

  /** The outer `forEach` callback: the heading of one file and the blocks of its comments. */
  method FileSection(files: seq<ParsedFile>, filePath: string, fileComments: seq<Comment>) returns (text: string)
    requires forall k :: 0 <= k < |fileComments| ==> fileComments[k].filePath == filePath
    ensures text == FileHeading(filePath) + Blocks(files, fileComments)
  {
    text := FileHeading(filePath);
    var j := 0;
    while j < |fileComments|
      invariant 0 <= j <= |fileComments|
      invariant text == FileHeading(filePath) + Blocks(files, fileComments[..j])
    {
      var comment := fileComments[j];
      var diffContext := FindContext(files, filePath, comment);
      var block := CommentBlock(diffContext, comment);
      TakeSnoc(fileComments, j);
      BlocksSnoc(files, fileComments[..j], comment);
      AppendAssoc(FileHeading(filePath), Blocks(files, fileComments[..j]), block);
      text := text + block;
      j := j + 1;
    }
    assert fileComments[..j] == fileComments;
  }

  /** `exportMarkdown(review, files)`: grouping, then `markdown +=` in nested loops. */
  method ExportMarkdown(review: Review, files: seq<ParsedFile>) returns (markdown: string)
    ensures markdown == RootDocument(review, files)
  {
    var comments := review.comments;
    var commentsByFile := GroupByFile(comments);
    markdown := RootHeader(review);
    var g := 0;
    while g < |commentsByFile|
      invariant 0 <= g <= |commentsByFile|
      invariant markdown == RootHeader(review) + Sections(files, commentsByFile[..g])
    {
      var group := commentsByFile[g];
      OfPathOnPath(comments, group.path);
      var section := FileSection(files, group.path, group.comments);
      TakeSnoc(commentsByFile, g);
      SectionsSnoc(files, commentsByFile[..g], group);
      AppendAssoc(RootHeader(review), Sections(files, commentsByFile[..g]), section);
      markdown := markdown + section;
      g := g + 1;
    }
    assert commentsByFile[..g] == commentsByFile;
    var fileCount := |commentsByFile|;
    var resolvedCount := ResolvedCount(comments);
    markdown := markdown + RootSummary(fileCount, |comments|, resolvedCount);
  }

  // ---------------------------------------------------------------------------
  // What the export promises
  // ---------------------------------------------------------------------------

  lemma {:induction false} ResolvedCountIsFilter(cs: seq<Comment>)
    ensures ResolvedCount(cs) == |set k | 0 <= k < |cs| && cs[k].resolved|
  {
    if cs != [] {
      var n := |cs| - 1;
      ResolvedCountIsFilter(cs[..n]);
      var before := set k | 0 <= k < n && cs[..n][k].resolved;
      var after := set k | 0 <= k < |cs| && cs[k].resolved;
      if cs[n].resolved {
        assert after == before + {n};
      } else {
        assert after == before;
      }
    }
  }

  /** A review without comments exports its header and a zero summary, with no sections. */
  lemma EmptyReviewDocument(review: Review, files: seq<ParsedFile>)
    requires review.comments == []
    ensures RootDocument(review, files) == RootHeader(review) + RootSummary(0, 0, 0)
  {
  }

  /** Every comment of a file's section gets its own block, in input order. */
  lemma BlocksAppend(files: seq<ParsedFile>, a: seq<Comment>, b: seq<Comment>)
    ensures Blocks(files, a + b) == Blocks(files, a) + Blocks(files, b)
  {
    ConcatMapAppend((c: Comment) => RootBlock(files, c), a, b);
  }
}
