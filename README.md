# vibechecker comment anchoring, in Dafny

vibechecker is a local diff-review tool. It shows the diff of a branch, hunk by hunk. A
reviewer attaches comments to a line or to a range of lines. Each comment is anchored by
a hunk id and by line numbers on the old or the new side. The comments are exported as
Markdown.

This project models the parts of the tool that decide where a comment belongs:
- the hunk id, a SHA-1 digest of the path, the hunk header and the first three lines;
- the single-line viewer and the range-selecting viewer: which comments a line lists,
  which lines a range highlights, and the comment a selection becomes;
- both Markdown exports: grouping by file, chunk lookup, the five-line context window,
  the fallbacks and the summary;
- the add, toggle and delete updates of a review's comments, and how a review is
  rebuilt when a diff is loaded;
- the workspace list kept in browser storage, and the Base64-derived workspace id;
- the server's pure string logic: the default-branch rule, the branch list, the
  `git worktree list --porcelain` parser, the choice of the active worktree and the
  diff concatenation.

Modules follow the source files:

| module | file | source |
|---|---|---|
| `Js` | js.dfy | JavaScript semantics: `\|\|` on optionals, `trim`, `split`, `join`, `filter`, `find`, `findIndex`, `includes`, `replace`, number-to-string |
| `Model` | model.dfy | the records of `frontend/src/types/model.ts` |
| `HunkId` | hunk_id.dfy | `src/lib/hunkId.ts` |
| `Context`, `Grouping` | context.dfy, grouping.dfy | the pieces shared by both `export.ts` files |
| `RootExport` | root_export.dfy | `src/lib/export.ts` |
| `FrontExport` | front_export.dfy | `frontend/src/lib/export.ts` |
| `Viewer` | viewer.dfy | `frontend/src/components/DiffViewer.tsx` |
| `LegacyViewer` | legacy_viewer.dfy | `src/components/DiffViewer.tsx` |
| `ReviewState` | review_state.dfy | `src/App.tsx` |
| `Workspaces` | workspaces.dfy | `frontend/src/lib/workspace.ts` |
| `GitServer` | git_server.dfy | `server/src/index.ts` |

Conventions:
- SHA-1 is a parameter `sha1: string -> string`. Lemmas that need more than
  determinism state their assumption about it as a `requires`: injective, or lowercase
  hexadecimal output.
- JavaScript `a || b` on an optional number or string falls through on `undefined` and
  on `0` or `""` (`Js.OrNum`, `Js.OrStr`). `===` on optionals is equality of `Option`
  values, so two missing numbers are equal.
- The diff parser's output is an input. `Viewer.ParserShape` states its shape:
  - added and deleted lines carry `ln`;
  - context lines carry `oldLine` and `newLine`;
  - every number present is at least 1 (`Viewer.Positive`).
  `Viewer.WellNumbered` adds that no two lines of a hunk share a number on the same side.
- State that React keeps in hooks is a class:
  - `Viewer.DiffViewer`, `LegacyViewer.LegacyDiffViewer` and `ReviewState.AppState`;
  - `Workspaces.WorkspaceStore` for browser storage.
  Each handler is a method with a `modifies` clause, and its `ensures` give the whole
  new state.
- The two Markdown exports fill a map and append to a string in loops. They are methods
  with loops, proved equal to the document functions (`RootDocument`, `FrontDocument`),
  and the lemmas are about those functions.
- The worktree parser has a `for` loop. It is a method whose invariant ties the loop
  state to a step function over the prefix of lines read so far.
- Where the source does something its authors evidently did not intend (see
  "## Findings"), the endpoints and handlers model the code as written. The corrected
  rule is defined beside the as-written one, and the example that shows the difference
  is proved about both.

## Model

| member | source | states |
|---|---|---|
| Model.FromDraft | src/App.tsx:167-172 | a draft becomes an open comment with no tags and the given id and time, its path, hunk id, the four line fields, line content and text copied unchanged |
| Model.Contents | src/lib/hunkId.ts:23 | the contents of the changes, one per change, in order |
| HunkId.Leading | src/lib/hunkId.ts:23 | `slice(0, 3)`: the first min(3, n) changes |
| HunkId.Header | src/lib/hunkId.ts:22 | the header starts with `@@ -`, ends with ` @@` and contains no `:` |
| HunkId.LeadingContext | src/lib/hunkId.ts:23 | for at most three changes, all their contents joined by newlines (empty for none); for three or more, the joined contents of the first three |
| HunkId.HashInput | src/lib/hunkId.ts:24 | for a path without `:`, the digest input reads back to exactly the path, the four header numbers and the leading context |
| HunkId.GenerateHunkId | src/lib/hunkId.ts:21-26 | for a path without `:`, the id is the digest of a text that reads back to the path, the four header numbers and the leading context |
| HunkId.SameFingerprintSameId | src/lib/hunkId.ts:21-26 | the id reads only the path, the four header numbers and the contents of the first three changes: chunks agreeing on those get equal ids, whatever their raw header text, change kinds, line numbers and later changes |
| HunkId.LaterChangesIgnored | src/lib/hunkId.ts:23-25 | changes appended after the third leave the id unchanged |
| HunkId.EmptyChunkContext | src/lib/hunkId.ts:23-24 | for every path, a hunk without changes has an empty context and the digest input ends right after the second `:` |
| HunkId.ColonPathsCollide | src/lib/hunkId.ts:24 | with `:` in the path the input is ambiguous: an empty hunk under `a:` + header of `b` + `:` + `c` and the hunk `b` under `a`, with one change `c:` + header + `:`, give the same input and id for every digest, though path and header differ |
| HunkId.DistinctFingerprintsDistinctIds | src/lib/hunkId.ts:22-25 | with an injective digest, chunks differing in path, header numbers or leading context get different ids |
| Context.FindChangeIndex | src/lib/export.ts:62-64 | `findIndex`: the first change whose new or old number equals the target, or -1 exactly when there is none |
| Context.Window | src/lib/export.ts:67-69 | the slice `[max(0,i-2), min(len,i+3))`: 1 to 5 contiguous changes that contain change i, at least min(3, len) of them, and 5 when i has two changes before it and two after |
| Context.ContextIn | src/lib/export.ts:62-71 | no context when no change has the target; otherwise the joined contents of the window around the first hit |
| Context.HitFound | src/lib/export.ts:62-64 | a change with the target at k means the found index is at most k |
| Context.MatchFile | src/lib/export.ts:43 | `files.find` by `to \|\| from`: a file with that path, or none exactly when no file has it |
| Context.MatchFileIsFirst | frontend/src/lib/export.ts:44 | the file found is the first one with the path |
| Grouping.Groups | src/lib/export.ts:18-23 | one group per distinct path, in first-seen order, each holding that path's comments in input order |
| Grouping.GroupByFile | frontend/src/lib/export.ts:18-23 | the `Map`-and-`push` loop computes exactly `Groups` |
| Grouping.PathsDistinct | src/lib/export.ts:18-23 | no path heads two groups |
| Grouping.PathsMembers | src/lib/export.ts:18-23 | the group paths are exactly the comments' paths |
| Grouping.GroupsSnoc | src/lib/export.ts:19-22 | pushing a comment onto the map of a prefix gives the groups of the longer list |
| Grouping.OfPathMembers | src/lib/export.ts:20-22 | a group holds exactly the comments on its path |
| Grouping.OfPathOnPath | src/lib/export.ts:20-22 | every comment of a group is on the group's path |
| Grouping.OfPathAppend | src/lib/export.ts:19-22 | grouping keeps input order within a path |
| Grouping.GroupsNonEmpty | src/lib/export.ts:38-41 | no group is empty |
| Grouping.GroupsCount | src/lib/export.ts:88 | `commentsByFile.size` is the number of distinct paths |
| Grouping.GroupsOrder | src/lib/export.ts:38 | groups are ordered by the first occurrence of their path |
| Grouping.GroupsPartition | src/lib/export.ts:18-23 | the groups together hold every comment exactly once (as multisets) |
| Grouping.PushMultiset | src/lib/export.ts:20-22 | one push adds exactly the pushed comment to the map's contents |
| RootExport.MatchChunk | src/lib/export.ts:47-57 | the chunk found holds a change with the target on the target's side; none exactly when no chunk does; none when neither start line is truthy |
| RootExport.MatchChunkIsFirst | src/lib/export.ts:47 | the chunk found is the first that qualifies |
| RootExport.RootContext | src/lib/export.ts:43-73 | empty without a matching file, without a truthy start line, or when no chunk of the file holds the line |
| RootExport.ChunkFoundContext | src/lib/export.ts:59-71 | a matched chunk holds the target, and the context is the joined window around its first hit |
| RootExport.PlaceholderWhenMissing | src/lib/export.ts:44-75 | a missing file, a falsy line number, or a file none of whose chunks holds the line gives the block `(context not available)` |
| RootExport.TagsLine | src/lib/export.ts:78-80 | a Tags line is written exactly when the tags are present and non-empty |
| RootExport.StatusShown | src/lib/export.ts:82 | the status line tells resolved from unresolved |
| RootExport.MissingRefsPrintNA | src/lib/export.ts:15 | missing repository, base and head print as `N/A` |
| RootExport.ResolvedCount | src/lib/export.ts:89 | at most the total; the total exactly when all are resolved; 0 exactly when none is |
| RootExport.ResolvedCountIsFilter | src/lib/export.ts:89 | the resolved count is the number of positions holding a resolved comment |
| RootExport.FindContext | src/lib/export.ts:43-73 | the lookup with its early exits computes `RootContext` |
| RootExport.CommentBlock | src/lib/export.ts:75-83 | the appended block is the context block, the body, the tags line, the status line and the rule |
| RootExport.BlocksSnoc | src/lib/export.ts:41 | one more comment appends exactly its block |
| RootExport.SectionsSnoc | src/lib/export.ts:38-39 | one more group appends exactly its heading and blocks |
| RootExport.BlocksAppend | src/lib/export.ts:41-84 | the blocks of a concatenation are the blocks of the parts |
| RootExport.FileSection | src/lib/export.ts:39-84 | a file's section is its heading followed by its comments' blocks |
| RootExport.ExportMarkdown | src/lib/export.ts:14-99 | the loops over the grouped comments compute `RootDocument` |
| RootExport.RootDocument | src/lib/export.ts:14-99 | the document is header, sections by group, and a summary of the distinct paths, the total and the resolved comments |
| RootExport.EmptyReviewDocument | src/lib/export.ts:25-96 | a review without comments exports the header and a zero summary only |
| FrontExport.LineInfo | frontend/src/lib/export.ts:33-37 | a `Line ...` label exactly when a start line is truthy, and none otherwise |
| FrontExport.LineInfoInjective | frontend/src/lib/export.ts:33-37 | equal labels come from the same side and the same number |
| FrontExport.MixedLabelsDiffer | frontend/src/lib/export.ts:34-36 | a new-side label never equals an `(old)` label |
| FrontExport.HunkIndexFrom | frontend/src/lib/export.ts:49 | the index found is in range and its label is the id; none means no index in range has it |
| FrontExport.HunkIndex | frontend/src/lib/export.ts:49 | the index found is a chunk whose label `hunk_<i>` is the id; none means no chunk index has it |
| FrontExport.HunkIndexExactly | frontend/src/lib/export.ts:49 | the chunk found is number i exactly when i is in range and the id is `hunk_<i>` |
| FrontExport.IndexLabelInjective | frontend/src/lib/export.ts:49 | different indexes have different labels |
| FrontExport.HexIdMatchesNoChunk | frontend/src/lib/export.ts:49 | an id of lowercase hex digits matches no chunk |
| FrontExport.DigestIdsFallBack | frontend/src/lib/export.ts:47-49 | with a hex digest, a comment anchored by `generateHunkId` never gets chunk context (src/lib/hunkId.ts:25 makes the ids) |
| FrontExport.ChunkContext | frontend/src/lib/export.ts:44-65 | empty without a matching file or with an empty hunk id |
| FrontExport.ChunkFound | frontend/src/lib/export.ts:47-63 | when the file is found and the id is `hunk_<i>` for one of its chunks, the excerpt is the joined window around the first change of chunk i with the comment's new, else old, line number |
| FrontExport.FrontContext | frontend/src/lib/export.ts:67-70 | the chunk context when non-empty, else the stored line content when truthy, else empty |
| FrontExport.Excerpt | frontend/src/lib/export.ts:72 | never empty, and the context itself when that is non-empty |
| FrontExport.FallbackOrder | frontend/src/lib/export.ts:67-72 | the excerpt is the chunk context, else the stored line content, else `(context not available)`, and never empty |
| FrontExport.StatusLine | frontend/src/lib/export.ts:75-77 | `Status: resolved` is written exactly for resolved comments |
| FrontExport.BlockText | frontend/src/lib/export.ts:39-79 | a comment's block is never empty |
| FrontExport.BlocksSnoc | frontend/src/lib/export.ts:31 | one more comment appends exactly its block |
| FrontExport.SectionsSnoc | frontend/src/lib/export.ts:28-29 | one more group appends exactly its heading and blocks |
| FrontExport.FindContext | frontend/src/lib/export.ts:44-70 | the lookup with its reassignments computes `FrontContext` |
| FrontExport.CommentBlock | frontend/src/lib/export.ts:33-79 | the appended text is the label, the excerpt, the body, the status and the blank line |
| FrontExport.FileSection | frontend/src/lib/export.ts:28-80 | a file's section is its heading followed by its comments' blocks |
| FrontExport.ExportMarkdown | frontend/src/lib/export.ts:14-84 | the loops compute `FrontDocument` |
| FrontExport.FrontDocument | frontend/src/lib/export.ts:14-84 | the export is empty exactly when the review has no comments |
| FrontExport.BlocksNonEmpty | frontend/src/lib/export.ts:31-80 | a non-empty group writes something |
| FrontExport.SectionsNonEmpty | frontend/src/lib/export.ts:28-29 | a non-empty list of groups writes something |
| Viewer.LineComments | frontend/src/components/DiffViewer.tsx:170-215 | exactly the comments whose hunk id matches and whose anchor, the end line when set and otherwise the start line, equals the line's number on its side; on context lines the new side is tried first |
| Viewer.LineNumber | frontend/src/components/DiffViewer.tsx:58 | the new number when truthy, else the old when truthy, else `ln`; truthy exactly when one of the three is |
| Viewer.LineMatch | frontend/src/components/DiffViewer.tsx:173-212 | on lines of the parser's shape, an added or deleted line matches exactly the comments whose anchor on that side is `ln`, and a context line tries the new side whenever the comment has a new start |
| Viewer.IsInCommentRange | frontend/src/components/DiffViewer.tsx:218-239 | a line is highlighted only if some comment of the same hunk has both a start and an end line on the side the line is read from: new for an added line, old for a deleted one, either for a context line |
| Viewer.LineCommentsAppend | frontend/src/components/DiffViewer.tsx:170 | the filter keeps the stored order |
| Viewer.SingleLineNeverInRange | frontend/src/components/DiffViewer.tsx:218-239 | a comment without end lines highlights nothing and is not multi-line |
| Viewer.ShownRangeIsHighlighted | frontend/src/components/DiffViewer.tsx:170-239 | a one-sided range is highlighted on the line where it is listed |
| Viewer.HighlightedByMember | frontend/src/components/DiffViewer.tsx:218 | `some`: one comment covering the line highlights it |
| Viewer.FindChunkByIdFound | frontend/src/components/DiffViewer.tsx:76 | the chunk found is one of the file's chunks whose generated id is the selection's; none exactly when no chunk has it |
| Viewer.IsSelected | frontend/src/components/DiffViewer.tsx:153-155 | a change is selected exactly when it is in the selection's hunk and lies between its two ends, in either order |
| Viewer.PressSelectsOne | frontend/src/components/DiffViewer.tsx:153-155 | after a press exactly the pressed line of its hunk is selected |
| Viewer.DragSelectsBetween | frontend/src/components/DiffViewer.tsx:153-155 | after a drag exactly the lines between start and end, in either direction, are selected |
| Viewer.LineTargetAt | frontend/src/components/DiffViewer.tsx:57-65 | the single-line target keeps the selection's hunk, side and index and carries the change's content |
| Viewer.SingleTarget | frontend/src/components/DiffViewer.tsx:50-70 | a release becomes a single-line target only for a one-line selection on a change of a chunk with that id |
| Viewer.RangeDraft | frontend/src/components/DiffViewer.tsx:79-101 | the range comment carries the file name, the hunk id and the trimmed text; the start and end lines are `newLine \|\| ln` of the first and last selected change on the new side, or `oldLine \|\| ln` on the old side, the other side left empty; the line content is the selected changes' contents joined |
| Viewer.SingleDraft | frontend/src/components/DiffViewer.tsx:106-113 | a single-line comment has no end lines, its start line on the target's side only, and the target's content |
| Viewer.SubmitDraft | frontend/src/components/DiffViewer.tsx:72-118 | nothing for blank text; with a selection, a draft exactly when its hunk exists and holds the range, and then the range draft; without one, the single-line draft of the target |
| Viewer.SubmitRefuses | frontend/src/components/DiffViewer.tsx:72-77 | blank text, a hunk id that matches no chunk, or no target at all gives no comment |
| Viewer.SubmitCarries | frontend/src/components/DiffViewer.tsx:79-113 | a submitted comment has the trimmed, non-empty text, the file name, and the range's or the line's hunk id |
| Viewer.RangeDirectionIrrelevant | frontend/src/components/DiffViewer.tsx:79-80 | selections (s, e) and (e, s) give identical comments |
| Viewer.RangeLinesReadBack | frontend/src/components/DiffViewer.tsx:90 | the stored line content splits back into the contents of changes start..end inclusive |
| Viewer.RangeShownAtEnd | frontend/src/components/DiffViewer.tsx:79-215 | a range comment is listed under its last line |
| Viewer.SingleShownAtLine | frontend/src/components/DiffViewer.tsx:170-215 | a single-line comment is listed under its line and is not multi-line |
| Viewer.SideNumbers | frontend/src/components/DiffViewer.tsx:176-187 | for the parser's shape, the filter's line number and the target's line number agree and are present |
| Viewer.ShownAtAnchorNumber | frontend/src/components/DiffViewer.tsx:170-215 | a one-sided comment is listed only where the line's number on its side is its anchor |
| Viewer.SingleShownOnlyAtLine | frontend/src/components/DiffViewer.tsx:170-215 | in a well-numbered hunk a single-line comment is listed under its line and no other |
| Viewer.RangeShownOnlyAtEnd | frontend/src/components/DiffViewer.tsx:79-215 | in a well-numbered hunk a range comment is listed under its last line and no other |
| Viewer.DiffViewer.constructor | frontend/src/components/DiffViewer.tsx:12-26 | no target, empty text, no selection, not selecting |
| Viewer.DiffViewer.HandleLineMouseDown | frontend/src/components/DiffViewer.tsx:37-42 | selecting starts with a one-line selection at the pressed line and the single-line target is dropped |
| Viewer.DiffViewer.HandleLineMouseEnter | frontend/src/components/DiffViewer.tsx:44-48 | the end moves only while selecting, in the same hunk and on the same side; otherwise nothing changes |
| Viewer.TargetFor | frontend/src/components/DiffViewer.tsx:53-66 | the release's guards in order (one-line selection, hunk found, change present) return exactly `SingleTarget` |
| Viewer.DraftFor | frontend/src/components/DiffViewer.tsx:72-118 | the submit's guards in order (blank text, range and its hunk, single line) return exactly `SubmitDraft` |
| Viewer.DiffViewer.EndDrag | frontend/src/components/DiffViewer.tsx:51-66 | selecting ends and the text stays; a target replaces the selection, and without one target and selection stay |
| Viewer.DiffViewer.HandleLineMouseUp | frontend/src/components/DiffViewer.tsx:50-70 | selecting ends; a one-line selection on an existing change becomes the single-line target and the selection is dropped |
| Viewer.DiffViewer.ClearUsedTarget | frontend/src/components/DiffViewer.tsx:103-116 | after a hand-on, the selection is dropped when there is one, else the single-line target, and the text is emptied; nothing else changes |
| Viewer.DiffViewer.HandleSubmitComment | frontend/src/components/DiffViewer.tsx:72-118 | the comment handed on is `SubmitDraft`; without one nothing changes; with one the used target and the text are cleared |
| Viewer.DiffViewer.SetCommentText | frontend/src/components/DiffViewer.tsx:313 | only the text changes |
| Viewer.DiffViewer.CancelLine | frontend/src/components/DiffViewer.tsx:325 | only the single-line target is dropped |
| Viewer.DiffViewer.CancelRange | frontend/src/components/DiffViewer.tsx:362-365 | the selection and the text are dropped |
| LegacyViewer.LegacyLineComments | src/components/DiffViewer.tsx:95-118 | exactly the comments of the hunk whose start line equals `newLine \|\| ln` on added lines, `oldLine \|\| ln` on deleted lines, and either number on context lines |
| LegacyViewer.LegacyLineMatch | src/components/DiffViewer.tsx:95-118 | on lines of the parser's shape, an added line matches the comments whose new start is `ln`, a deleted line those whose old start is `ln`, and a match needs a start line |
| LegacyViewer.ClickTarget | src/components/DiffViewer.tsx:124-132 | a click targets the line's hunk, index and content, on the old side exactly for deleted lines |
| LegacyViewer.LegacySubmitDraft | src/components/DiffViewer.tsx:34-44 | no comment exactly without a target or with blank text; otherwise the trimmed text, no end lines, and the target's hunk and content |
| LegacyViewer.FiltersAgree | src/components/DiffViewer.tsx:95-118 | on one-sided single-line comments the old and the new filter agree |
| LegacyViewer.ClickShownOnlyAtLine | src/components/DiffViewer.tsx:95-132 | in a well-numbered hunk a clicked comment is listed under the clicked line and no other |
| LegacyViewer.LegacyDiffViewer.constructor | src/components/DiffViewer.tsx:12-19 | no target and empty text |
| LegacyViewer.LegacyDiffViewer.HandleAddCommentClick | src/components/DiffViewer.tsx:29-32 | the target is recorded and the text cleared |
| LegacyViewer.LegacyDiffViewer.ClickLine | src/components/DiffViewer.tsx:124-133 | a click records `newLine \|\| oldLine \|\| ln`, old side for deleted lines, and clears the text |
| LegacyViewer.LegacyDiffViewer.HandleSubmitComment | src/components/DiffViewer.tsx:34-48 | the comment handed on is the guarded draft; afterwards the target and the text are cleared, or nothing changes |
| LegacyViewer.LegacyDiffViewer.SetCommentText | src/components/DiffViewer.tsx:189 | only the text changes |
| LegacyViewer.LegacyDiffViewer.Cancel | src/components/DiffViewer.tsx:201 | the target is dropped and the text kept |
| ReviewState.AppendComment | src/App.tsx:164-178 | exactly one comment is appended, open, untagged, carrying the draft; earlier comments and all other review fields are unchanged |
| ReviewState.NewComment | src/App.tsx:167-172 | the new comment is open and untagged, has an id starting `comment_` and the given time, and carries the draft's text, hunk and path |
| ReviewState.NewCommentIdsDistinct | src/App.tsx:169 | comments added at different clock readings get different ids |
| ReviewState.Toggle | src/App.tsx:185-187 | same length, each comment flipped by id |
| ReviewState.Flip | src/App.tsx:186 | the status flips exactly when the id matches, and nothing else changes |
| ReviewState.ToggleFlipsExactly | src/App.tsx:180-189 | a comment's status changes exactly when its id matches, and nothing else about it changes |
| ReviewState.ToggleTwice | src/App.tsx:180-189 | toggling the same id twice restores the list |
| ReviewState.Delete | src/App.tsx:196 | exactly the comments without the id remain |
| ReviewState.DeleteAppend | src/App.tsx:196 | the order of what remains is kept |
| ReviewState.DeleteAbsent | src/App.tsx:196 | deleting an absent id changes nothing |
| ReviewState.DeleteCount | src/App.tsx:191-198 | the list shrinks by the number of comments with the id |
| ReviewState.DeleteIdempotent | src/App.tsx:191-198 | deleting twice is deleting once |
| ReviewState.RebuildReview | src/App.tsx:110-121 | the refs and commits come from git info, the base is the custom base or git's, and the stored diff is dropped |
| ReviewState.RebuildKeepsIdentity | src/App.tsx:112-120 | reloading into a review keeps its id, creation time and comments |
| ReviewState.RebuildFresh | src/App.tsx:112-120 | without a review the rebuilt one has id `review_<now>` and no comments |
| ReviewState.RestoredCommentsLost | src/App.tsx:112-120 | a rebuild from no review drops the comments a restored review holds; a rebuild from that review keeps them |
| ReviewState.FreshReview | src/App.tsx:148-152 | a pasted diff's new review has no comments and no refs |
| ReviewState.CleanBranch | src/App.tsx:201 | the first `origin/`, wherever it is, is removed (so a leading one leaves the rest); a name without `origin/` is kept |
| ReviewState.AppState.constructor | src/App.tsx:15-18 | no review, no files, first file selected, paste box closed |
| ReviewState.AppState.HandleAddComment | src/App.tsx:164-178 | no-op without a review; otherwise the review becomes `AppendComment` |
| ReviewState.AppState.HandleToggleResolved | src/App.tsx:180-189 | no-op without a review; otherwise the comments are toggled |
| ReviewState.AppState.HandleDeleteComment | src/App.tsx:191-198 | no-op without a review; otherwise the comments with the id are removed |
| ReviewState.AppState.HandleLoadDiff | src/App.tsx:135-162 | zero files change nothing; otherwise the files are replaced, the first selected, a fresh review made only if none exists, the paste box closed |
| ReviewState.AppState.LoadCurrentBranchDiff | src/App.tsx:94-124 | without files nothing changes; with files they are replaced, and with git info the review is rebuilt from the review the starting render saw |
| ReviewState.AppState.RestoreReview | src/App.tsx:56-58 | a saved review replaces the current one; nothing else changes |
| ReviewState.AppState.InitializeAsWritten | src/App.tsx:34-66 | as written: after restoring a saved review, a load with files and git info leaves a review with no comments |
| ReviewState.AppState.InitializeKeepingReview | src/App.tsx:34-66 | corrected: the load rebuilds from the restored review, so its id and comments survive |
| ReviewState.AppState.HandleSelectBaseBranch | src/App.tsx:200-203 | reloads against the branch without its first `origin/`, rebuilding from the review of the moment |
| Workspaces.Sym | frontend/src/lib/workspace.ts:15 | a Base64 symbol is an ASCII letter or digit exactly for values below 62 (RFC 4648 section 4) |
| Workspaces.SymValueOf | frontend/src/lib/workspace.ts:15 | each Base64 symbol reads back to its value |
| Workspaces.Encode | frontend/src/lib/workspace.ts:15 | `btoa` output has length 4 * ceil(n / 3) |
| Workspaces.QuadRoundTrip | frontend/src/lib/workspace.ts:15 | one group of 1 to 3 bytes decodes back from its four symbols |
| Workspaces.EncodeRoundTrip | frontend/src/lib/workspace.ts:15 | decoding the Base64 of any bytes gives the bytes back |
| Workspaces.EncodeInjective | frontend/src/lib/workspace.ts:15 | different bytes give different Base64 |
| Workspaces.EncodeSymbols | frontend/src/lib/workspace.ts:15 | the Base64 consists of ASCII letters, digits, `+`, `/` and `=` |
| Workspaces.Latin1 | frontend/src/lib/workspace.ts:15 | `btoa` accepts the string exactly when every character is below 256, and takes each as one byte |
| Workspaces.GetWorkspaceId | frontend/src/lib/workspace.ts:14-16 | the id has only ASCII letters and digits; there is none, as `btoa` throws, exactly when a character is above U+00FF |
| Workspaces.IdOfEncoding | frontend/src/lib/workspace.ts:15 | the id is the Base64 of the path with exactly `+`, `/` and `=` removed |
| Workspaces.IdsCanCollide | frontend/src/lib/workspace.ts:15 | `ab>` and `ab?` share the id `YWI` |
| Workspaces.LoadAll | frontend/src/lib/workspace.ts:18-27 | a missing item or text `JSON.parse` rejects gives the empty list, a stored list is returned as it is, and a parsed value that is not a list (and only that) gives no list |
| Workspaces.LoadWorkspace | frontend/src/lib/workspace.ts:29-32 | a workspace with that path, or none exactly when no workspace has it |
| Workspaces.LoadStoredWorkspace | frontend/src/lib/workspace.ts:29-32 | the call throws exactly when the stored value is not a list; a missing or unparseable item gives no workspace; a stored list gives its lookup |
| Workspaces.LoadWorkspaceFirst | frontend/src/lib/workspace.ts:31 | the workspace found is the first with the path |
| Workspaces.Upsert | frontend/src/lib/workspace.ts:37-45 | an existing id has its first entry replaced at the same length; otherwise the workspace is appended; all other entries are unchanged |
| Workspaces.SavedFoundById | frontend/src/lib/workspace.ts:37-45 | after a save, the first entry with the id is the saved workspace |
| Workspaces.UpsertIdempotent | frontend/src/lib/workspace.ts:37-45 | saving the same workspace twice is saving it once |
| Workspaces.DeleteWorkspace | frontend/src/lib/workspace.ts:64 | exactly the entries without the id remain |
| Workspaces.DeleteWorkspaceAppend | frontend/src/lib/workspace.ts:64 | the order of what remains is kept |
| Workspaces.DeleteThenSaveAppends | frontend/src/lib/workspace.ts:37-64 | after a delete no entry has the id, so the next save appends |
| Workspaces.CleanupOldWorkspaces | frontend/src/lib/workspace.ts:78-81 | exactly the entries accessed after the cutoff remain |
| Workspaces.CleanupOrderAndIdempotent | frontend/src/lib/workspace.ts:78-81 | the order is kept, and a second cleanup changes nothing |
| Workspaces.WorkspaceStore.constructor | frontend/src/lib/workspace.ts:11-12 | the store holds the given storage and no current id |
| Workspaces.WorkspaceStore.SaveWorkspace | frontend/src/lib/workspace.ts:34-51 | storage becomes the upsert of the loaded list with the workspace stamped with the current time; a stored value that is not a list is kept |
| Workspaces.WorkspaceStore.DeleteWorkspaceById | frontend/src/lib/workspace.ts:61-69 | storage becomes the loaded list without the id; a stored value that is not a list is kept |
| Workspaces.WorkspaceStore.CleanupOld | frontend/src/lib/workspace.ts:72-87 | storage becomes the loaded list without the entries at or before the cutoff; a stored value that is not a list is kept |
| Workspaces.WorkspaceStore.SetCurrentWorkspaceId | frontend/src/lib/workspace.ts:57-59 | the current id is set and the list is untouched |
| GitServer.DefaultBranchSubstringMatch | server/src/index.ts:58-63 | as written: a local listing `* feature/domain`, `master` with no `main` branch still yields `main` |
| GitServer.DefaultBranchAsWritten | server/src/index.ts:39-66 | as written: the remote HEAD minus `refs/remotes/origin/` when present; otherwise `main` exactly when the remote listing contains `origin/main`, or it lacks `origin/master` and the local listing contains `main`, and `master` otherwise |
| GitServer.DefaultBranch | server/src/index.ts:39-66 | corrected: without a usable remote HEAD the result is `main` or `master` |
| GitServer.DefaultBranchRule | server/src/index.ts:39-66 | corrected: the remote HEAD minus `refs/remotes/origin/` when present; otherwise `main` exactly when `origin/main` is a remote branch, or `origin/master` is not and `main` is a local branch |
| GitServer.DefaultBranchExact | server/src/index.ts:58-65 | corrected: the listing above yields `master` |
| GitServer.BranchList | server/src/index.ts:104-105 | the non-empty lines of the trimmed output, none of them containing a newline; empty for missing output |
| GitServer.Insert | server/src/index.ts:110 | inserting keeps the list strictly sorted and adds exactly the element |
| GitServer.SortedSet | server/src/index.ts:110 | `[...new Set(xs)].sort()` is strictly sorted and has exactly the elements of xs |
| GitServer.SortedDistinct | server/src/index.ts:110 | a strictly sorted list has no duplicates |
| GitServer.SortedUnique | server/src/index.ts:110 | two strictly sorted lists with the same elements are equal, so `all` is determined by its elements |
| GitServer.ListBranches | server/src/index.ts:96-112 | an error exactly when both outputs are falsy; otherwise local, remote, and all sorted, duplicate-free and equal to their union |
| GitServer.Flush | server/src/index.ts:134-153 | the pending record is pushed exactly when its path is truthy |
| GitServer.MarkMain | server/src/index.ts:157-159 | marking the first record keeps the length |
| GitServer.Step | server/src/index.ts:133-149 | a `worktree ` line pushes the pending record when its path is truthy and starts one with the rest of the line as path; any other line leaves the records and the path alone and sets only the commit, the branch minus `refs/heads/`, or clears main for `bare` |
| GitServer.Worktrees | server/src/index.ts:129-159 | one record per declared non-empty path, in the order of the output, and exactly the first marked main |
| GitServer.ReadLine | server/src/index.ts:133-149 | the loop body's branches on one line take the parse state exactly one `Step` forward |
| GitServer.ParseWorktrees | server/src/index.ts:129-159 | the loop over the trimmed lines computes `Worktrees` |
| GitServer.RunSnoc | server/src/index.ts:132 | one more line is one more step |
| GitServer.RunAppend | server/src/index.ts:132 | reading two parts of the lines is reading the first and then the second |
| GitServer.RunInvariant | server/src/index.ts:132-150 | the paths pushed, plus the pending one, are the non-empty `worktree ` paths declared so far, and no record is marked main |
| GitServer.LeadingLinesDiscarded | server/src/index.ts:143-150 | lines before the first `worktree ` line change nothing |
| GitServer.BlockRecord | server/src/index.ts:133-149 | a `worktree ` line flushes the previous record and starts one with that path whose commit is the last `HEAD ` value and whose branch is the last `branch ` value minus `refs/heads/` |
| GitServer.WorktreeStep | server/src/index.ts:133-142 | a `worktree ` line pushes the pending record if its path is truthy and starts an empty one |
| GitServer.ActiveWorktreeAsWritten | server/src/index.ts:161-166 | as written: one of the listed worktrees exactly when the list is non-empty: the first whose path is a string prefix of the directory, else the first listed |
| GitServer.NestedWorktreeMissed | server/src/index.ts:162 | as written: running in `/r/w` picks the main worktree `/r`, not the worktree `/r/w` |
| GitServer.Deepest | server/src/index.ts:162 | corrected: the longest worktree path that is the directory or one of its ancestors, or none when no path is |
| GitServer.ActiveWorktree | server/src/index.ts:161-166 | corrected: some worktree of the list exactly when the list is non-empty |
| GitServer.ActiveIsCurrentDirectory | server/src/index.ts:161-166 | corrected: a worktree whose path is the directory itself is the active one |
| GitServer.NestedWorktreeFound | server/src/index.ts:161-166 | corrected: running in `/r/w` picks `/r/w` |
| GitServer.SiblingWorktree | server/src/index.ts:162 | in `/r-feature`, the prefix test picks the main worktree `/r`; the corrected choice picks `/r-feature` |
| GitServer.ListWorktrees | server/src/index.ts:115-168 | an error exactly when the output is falsy; otherwise the parsed records and the as-written active one |
| GitServer.CombineDiffs | server/src/index.ts:210 | the truthy diffs joined by a newline; empty exactly when both are falsy |
| GitServer.GetDiff | server/src/index.ts:196-226 | an error exactly without a current branch; otherwise the trimmed head, the query base or the as-written default branch, the combined diff, and the no-changes message exactly when both diffs are falsy |
| GitServer.GetDiffOnDomainListing | server/src/index.ts:196-226 | with no query and the local listing `* feature/domain`, `master`, the diff is taken against `main` |

## Left out

- SHA-1 (`CryptoJS.SHA1` in src/lib/hunkId.ts): a foreign library. The digest is a
  parameter. Only its input is modelled, and only determinism is used, plus
  injectivity or hex output where a lemma says so.
- The diff parser (parseDiff.ts and the `parse-diff` library): the `ParsedFile`,
  `Chunk` and `Change` values are inputs. `Viewer.ParserShape` and
  `Viewer.WellNumbered` state the shape the lemmas that need it rely on. `ln1` and `ln2`
  are not fields: the wrappers copy them into `oldLine` and `newLine`.
- React rendering, JSX, CSS classes and DOM events. The keyboard shortcut calls the same
  submit. The other components are pure UI. The fuzzy branch search belongs to Fuse.js.
- Network and storage I/O: the fetch helpers, clipboard, Blob download (`exportJSON`,
  `copyToClipboard`), toasts, timers, the loading flag and the async effects of App.tsx,
  including the save-on-change effect. Of the workspace bootstrap only the review
  restore and the first branch load are modelled.
- Browser storage is the `Stored` value. It is missing (or empty), text `JSON.parse`
  rejects, text that parses to something other than a list, or a list that has already
  been parsed. `JSON.stringify` and `JSON.parse` are not modelled, so storage holds a
  list after every write. A parsed list whose elements are not workspaces is not modelled.
- Workspaces.WorkspaceStore: `setItem` cannot fail here. The `catch` branches that log
  and keep the old storage are modelled only for a stored value that is not a list.
- Workspaces.WorkspaceStore.SaveWorkspace: the source also overwrites `lastAccessed` on
  the caller's object. The model stores a stamped copy and does not model that aliasing.
- Clock values are parameters:
  - `Date.now()` is an integer;
  - ISO timestamps are strings;
  - a workspace's `lastAccessed` is an integer.
  `CleanupOld` takes the 30-day cutoff as an integer. An unparseable date, which
  compares false in the source and so is dropped, is not modelled.
- `btoa` and the sort: characters are Unicode scalar values, not UTF-16 code units.
  Strings with characters outside the Basic Multilingual Plane therefore sort, and fail
  `btoa`, per character rather than per code unit.
- The server's `execSync` calls and `process.chdir`: each command's output is a parameter
  (`None` when the command failed). `process.cwd()` is a parameter. The `/api/git/info`
  and `/api/git/worktree/switch` endpoints, server.js and bin/vibechecker.js are not part
  of this model; they are process plumbing.
- Exceptions inside handlers. Reading a change past the end of a hunk throws a
  TypeError in the source. `Viewer.DiffViewer.HandleLineMouseUp` and
  `Viewer.DiffViewer.HandleSubmitComment` model this as the handler stopping at that
  point: the first keeps `isSelecting` cleared and the selection; the second changes
  nothing.
- GitServer.ParseWorktrees: `tempWorktree` starts as `{}`, whose missing branch and
  commit are modelled as empty strings. They only matter for a record that is never
  pushed.
- Viewer.DiffViewer.HandleLineMouseUp: the handler is bound as `onMouseUp` on each
  row only (frontend/src/components/DiffViewer.tsx:247). A release outside every row
  calls nothing, so `isSelecting` stays set and the next row entered extends the
  selection. The model has no event for a release outside the rows.
- ReviewState.AppState.HandleSelectBaseBranch: the load reads the review of the render
  that started it, which the model takes to be the state when the handler runs. A
  comment added while the diff is loading is therefore lost in the source; the model
  does not interleave a load with other handlers.
- src/App.tsx's `handleSelectWorktree` and the per-worktree workspace switch: not
  part of this model. They only sequence the modelled save, load and reload operations
  around a network call.

## Findings

| source | as written | input that shows it | evidently intended | confidence | as-written member | corrected member |
|---|---|---|---|---|---|---|
| server/src/index.ts:49-61 | the fallback tests `includes('origin/main')`, `includes('origin/master')` and `includes('main')` on the whole listing text | no remote HEAD, empty `git branch -r`, `git branch` listing `* feature/domain` and `  master`: `domain` contains `main`, so the rule answers `main`, a branch that does not exist | compare whole branch names, line by line, so the answer is `master` | medium, not executed | GitServer.DefaultBranchSubstringMatch | GitServer.DefaultBranchExact |
| src/App.tsx:34-66 | start-up restores the saved review with `setReview`, then calls `loadCurrentBranchDiff` from the same closure, whose `review` is still the first render's `null`; the rebuild starts from no comments and the save effect stores that | a saved workspace whose review has comments, and a branch diff with files and git info: the review shown and saved afterwards has no comments | rebuild from the restored review, keeping its id, creation time and comments | medium, not executed | ReviewState.AppState.InitializeAsWritten | ReviewState.AppState.InitializeKeepingReview |
| server/src/index.ts:161-166 | the active worktree is the first whose path is a string prefix of the current directory | worktrees `/r` (main) and `/r/w`, current directory `/r/w`: the main worktree comes first and is chosen | the worktree that contains the directory most closely | medium, not executed | GitServer.NestedWorktreeMissed | GitServer.NestedWorktreeFound |
