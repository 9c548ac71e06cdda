/**
 * The application's review state: the comment collection updates behind the
 * add, toggle and delete handlers, the review rebuilt when a branch diff is
 * loaded, and the handlers that replace the review and the file list.
 * Clock readings (`Date.now()` and the ISO creation time) are parameters.
 */
module ReviewState {
  import opened Js
  import opened Model

  // ---------------------------------------------------------------------------
  // Comment collection updates
  // ---------------------------------------------------------------------------

  /** The comment a draft becomes: id `comment_<now>`, open, untagged. */
  function NewComment(d: CommentDraft, now: int, createdAt: string): (c: Comment)
    ensures StartsWith(c.commentId, "comment_")
    ensures !c.resolved && c.tags.None? && c.createdAt == createdAt
    ensures c.comment == d.comment && c.hunkId == d.hunkId && c.filePath == d.filePath
  {
    FromDraft(d, "comment_" + IntToString(now), createdAt)
  }

  /** Comments added at different clock readings get different ids. */
  lemma NewCommentIdsDistinct(d: CommentDraft, e: CommentDraft, now: int, later: int, createdAt: string, at: string)
    requires now != later
    ensures NewComment(d, now, createdAt).commentId != NewComment(e, later, at).commentId
  {
    var x, y := "comment_" + IntToString(now), "comment_" + IntToString(later);
    if x == y {
      assert x[8..] == IntToString(now) && y[8..] == IntToString(later);
      IntRoundTrip(now);
      IntRoundTrip(later);
    }
  }

  /** `{ ...review, comments: [...review.comments, newComment] }`. */
  function AppendComment(review: Review, d: CommentDraft, now: int, createdAt: string): (r: Review)
    ensures |r.comments| == |review.comments| + 1
    ensures r.comments[..|review.comments|] == review.comments
    ensures r == review.(comments := r.comments)
    ensures var c := r.comments[|review.comments|];
      && !c.resolved && c.tags.None? && c.createdAt == createdAt
      && c.filePath == d.filePath && c.hunkId == d.hunkId && c.comment == d.comment
      && c.startLineNew == d.startLineNew && c.startLineOld == d.startLineOld
      && c.endLineNew == d.endLineNew && c.endLineOld == d.endLineOld && c.lineContent == d.lineContent
  {
    review.(comments := review.comments + [NewComment(d, now, createdAt)])
  }

  /** One comment after a toggle: `resolved` flipped when the id matches. */
  function Flip(c: Comment, id: string): (r: Comment)
    ensures r.resolved != c.resolved <==> c.commentId == id
    ensures r == c.(resolved := r.resolved)
  {
    if c.commentId == id then c.(resolved := !c.resolved) else c
  }

  /** `comments.map(c => c.comment_id === id ? { ...c, resolved: !c.resolved } : c)`. */
  function Toggle(comments: seq<Comment>, id: string): (r: seq<Comment>)
    ensures |r| == |comments|
    ensures forall k :: 0 <= k < |r| ==> r[k] == Flip(comments[k], id)
  {
    seq(|comments|, k requires 0 <= k < |comments| => Flip(comments[k], id))
  }

  /**
   * Toggling changes the status of exactly the comments with that id and nothing
   * else about any comment.
   */
  lemma ToggleFlipsExactly(comments: seq<Comment>, id: string, k: nat)
    requires k < |comments|
    ensures Toggle(comments, id)[k].resolved != comments[k].resolved <==> comments[k].commentId == id
    ensures Toggle(comments, id)[k] == comments[k].(resolved := Toggle(comments, id)[k].resolved)
  {
  }

  /** Toggling the same id twice restores the list. */
  lemma ToggleTwice(comments: seq<Comment>, id: string)
    ensures Toggle(Toggle(comments, id), id) == comments
  {
    var once := Toggle(comments, id);
    var twice := Toggle(once, id);
    forall k | 0 <= k < |comments|
      ensures twice[k] == comments[k]
    {
      assert once[k] == Flip(comments[k], id);
    }
  }

  /** `comments.filter(c => c.comment_id !== id)`. */
  function Delete(comments: seq<Comment>, id: string): (r: seq<Comment>)
    ensures |r| <= |comments|
    ensures forall c :: c in r <==> c in comments && c.commentId != id
  {
    FilterMembers((c: Comment) => c.commentId != id, comments);
    Filter((c: Comment) => c.commentId != id, comments)
  }

  /** The filter keeps the order of what stays: deleting from a concatenation deletes from each part. */
  lemma DeleteAppend(a: seq<Comment>, b: seq<Comment>, id: string)
    ensures Delete(a + b, id) == Delete(a, id) + Delete(b, id)
  {
    FilterAppend((c: Comment) => c.commentId != id, a, b);
  }

  /** Deleting an id no comment has changes nothing. */
  lemma DeleteAbsent(comments: seq<Comment>, id: string)
    requires forall k :: 0 <= k < |comments| ==> comments[k].commentId != id
    ensures Delete(comments, id) == comments
  {
    FilterAll((c: Comment) => c.commentId != id, comments);
  }

  /** How many comments carry the id. */
  function CountId(comments: seq<Comment>, id: string): (n: nat)
    ensures n <= |comments|
  {
    if comments == [] then 0 else (if comments[0].commentId == id then 1 else 0) + CountId(comments[1..], id)
  }

  /** Exactly the comments with the id go: the list shrinks by their number. */
  lemma {:induction false} DeleteCount(comments: seq<Comment>, id: string)
    ensures |Delete(comments, id)| == |comments| - CountId(comments, id)
  {
    if comments != [] {
      DeleteCount(comments[1..], id);
    }
  }

  /** A second delete with the same id changes nothing. */
  lemma DeleteIdempotent(comments: seq<Comment>, id: string)
    ensures Delete(Delete(comments, id), id) == Delete(comments, id)
  {
    FilterPasses((c: Comment) => c.commentId != id, comments);
    DeleteAbsent(Delete(comments, id), id);
  }

  // ---------------------------------------------------------------------------
  // Rebuilding the review around a loaded diff
  // ---------------------------------------------------------------------------

  /** What the server reports about the repository; any field may be missing. */
  datatype GitInfo = GitInfo(
    repo: Option<string>,
    baseBranch: Option<string>,
    currentBranch: Option<string>,
    baseCommit: Option<string>,
    headCommit: Option<string>,
    hasUncommittedChanges: Option<bool>)

  /** The review after a branch diff is loaded: identity and comments from the current review, refs from git. */
  function RebuildReview(current: Option<Review>, info: GitInfo, customBase: Option<string>, now: int, createdAt: string)
    : (r: Review)
    ensures r.repo == info.repo && r.headRef == info.currentBranch
    ensures r.baseCommit == info.baseCommit && r.headCommit == info.headCommit
    ensures r.hasUncommittedChanges == info.hasUncommittedChanges
    ensures r.baseRef == OrStr(customBase, info.baseBranch)
    ensures r.diffText.None? && r.files.None?
  {
    Review(
      OrElse(if current.Some? then Some(current.value.reviewId) else None, "review_" + IntToString(now)),
      info.repo,
      OrStr(customBase, info.baseBranch),
      info.currentBranch,
      info.baseCommit,
      info.headCommit,
      info.hasUncommittedChanges,
      OrElse(if current.Some? then Some(current.value.createdAt) else None, createdAt),
      if current.Some? then current.value.comments else [],
      None,
      None)
  }

  /** Reloading into an existing review keeps its id, its creation time and its comments. */
  lemma RebuildKeepsIdentity(current: Review, info: GitInfo, customBase: Option<string>, now: int, createdAt: string)
    requires current.reviewId != "" && current.createdAt != ""
    ensures var r := RebuildReview(Some(current), info, customBase, now, createdAt);
      r.reviewId == current.reviewId && r.createdAt == current.createdAt && r.comments == current.comments
  {
  }

  /** Without a review, the rebuilt one is fresh: id `review_<now>`, the given time, no comments. */
  lemma RebuildFresh(info: GitInfo, customBase: Option<string>, now: int, createdAt: string)
    ensures var r := RebuildReview(None, info, customBase, now, createdAt);
      r.reviewId == "review_" + IntToString(now) && r.comments == []
      && (createdAt != "" ==> r.createdAt == createdAt)
  {
  }
  /**
   * A rebuild that reads no review drops every comment, so the comments of a review
   * restored in the meantime are not carried over.
   */
  lemma RestoredCommentsLost(saved: Review, info: GitInfo, now: int, createdAt: string)
    requires saved.comments != []
    ensures RebuildReview(None, info, None, now, createdAt).comments != saved.comments
    ensures RebuildReview(Some(saved), info, None, now, createdAt).comments == saved.comments
  {
  }


  /** The empty review a pasted diff starts when there is none. */
  function FreshReview(now: int, createdAt: string): (r: Review)
    ensures r.comments == [] && r.createdAt == createdAt
    ensures r.repo.None? && r.baseRef.None? && r.headRef.None?
  {
    Review("review_" + IntToString(now), None, None, None, None, None, None, createdAt, [], None, None)
  }

  /** `branch.replace('origin/', '')`: the first occurrence goes, wherever it is. */
  function CleanBranch(branch: string): (r: string)
    ensures StartsWith(branch, "origin/") ==> r == branch[7..]
    ensures !Includes(branch, "origin/") ==> r == branch
    ensures IndexOf(branch, "origin/").Some? ==>
      var i := IndexOf(branch, "origin/").value; r == branch[..i] + branch[i + 7..]
  {
    if StartsWith(branch, "origin/") then
      ReplacePrefix(branch, "origin/");
      ReplaceFirst(branch, "origin/", "")
    else if !Includes(branch, "origin/") then
      ReplaceAbsent(branch, "origin/", "");
      ReplaceFirst(branch, "origin/", "")
    else ReplaceFirst(branch, "origin/", "")
  }

  // ---------------------------------------------------------------------------
  // The application's handlers
  // ---------------------------------------------------------------------------

  class AppState {
    var review: Option<Review>
    var files: seq<ParsedFile>
    var selectedFileIndex: nat
    var showDiffInput: bool

    constructor()
      ensures review.None? && files == [] && selectedFileIndex == 0 && !showDiffInput
    {
      review := None;
      files := [];
      selectedFileIndex := 0;
      showDiffInput := false;
    }

    /** Adds the draft as a new comment at the end; nothing happens without a review. */
    method HandleAddComment(d: CommentDraft, now: int, createdAt: string)
      modifies this
      ensures old(review).None? ==> review.None?
      ensures old(review).Some? ==> review == Some(AppendComment(old(review).value, d, now, createdAt))
      ensures files == old(files) && selectedFileIndex == old(selectedFileIndex) && showDiffInput == old(showDiffInput)
    {
      if review.None? {
        return;
      }
      var r := review.value;
      review := Some(r.(comments := r.comments + [NewComment(d, now, createdAt)]));
    }

    /** Flips the status of the comments with the id. */
    method HandleToggleResolved(id: string)
      modifies this
      ensures old(review).None? ==> review.None?
      ensures old(review).Some? ==> review == Some(old(review).value.(comments := Toggle(old(review).value.comments, id)))
      ensures files == old(files) && selectedFileIndex == old(selectedFileIndex) && showDiffInput == old(showDiffInput)
    {
      if review.None? {
        return;
      }
      var r := review.value;
      review := Some(r.(comments := Toggle(r.comments, id)));
    }

    /** Removes the comments with the id. */
    method HandleDeleteComment(id: string)
      modifies this
      ensures old(review).None? ==> review.None?
      ensures old(review).Some? ==> review == Some(old(review).value.(comments := Delete(old(review).value.comments, id)))
      ensures files == old(files) && selectedFileIndex == old(selectedFileIndex) && showDiffInput == old(showDiffInput)
    {
      if review.None? {
        return;
      }
      var r := review.value;
      review := Some(r.(comments := Delete(r.comments, id)));
    }

    /**
     * A pasted diff, as the parser returned it. No files: nothing changes. Otherwise the
     * files replace the old ones, the first is selected, a fresh review is started if
     * there is none, and the paste box closes.
     */
    method HandleLoadDiff(parsedFiles: seq<ParsedFile>, now: int, createdAt: string)
      modifies this
      ensures parsedFiles == [] ==>
        review == old(review) && files == old(files) && selectedFileIndex == old(selectedFileIndex)
        && showDiffInput == old(showDiffInput)
      ensures parsedFiles != [] ==>
        files == parsedFiles && selectedFileIndex == 0 && !showDiffInput
        && review == (if old(review).Some? then old(review) else Some(FreshReview(now, createdAt)))
    {
      if |parsedFiles| == 0 {
        return;
      }
      files := parsedFiles;
      selectedFileIndex := 0;
      if review.None? {
        review := Some(FreshReview(now, createdAt));
      }
      showDiffInput := false;
    }

    /**
     * The branch diff arrived (`parsedFiles` is absent when the server sent none).
     * With files, they replace the old ones; with git info as well, the review is
     * rebuilt around them. The rebuild reads `captured`, the review of the render
     * whose closure started the load, not the state at the time the diff arrives.
     */
    method LoadCurrentBranchDiff(customBase: Option<string>, captured: Option<Review>, info: Option<GitInfo>,
                                 parsedFiles: Option<seq<ParsedFile>>, now: int, createdAt: string)
      modifies this
      ensures showDiffInput == old(showDiffInput)
      ensures parsedFiles.None? || parsedFiles.value == [] ==>
        review == old(review) && files == old(files) && selectedFileIndex == old(selectedFileIndex)
      ensures parsedFiles.Some? && parsedFiles.value != [] ==>
        files == parsedFiles.value && selectedFileIndex == 0
        && review == (if info.Some? then Some(RebuildReview(captured, info.value, customBase, now, createdAt)) else old(review))
    {
      if parsedFiles.Some? && |parsedFiles.value| > 0 {
        files := parsedFiles.value;
        selectedFileIndex := 0;
        if info.Some? {
          review := Some(RebuildReview(captured, info.value, customBase, now, createdAt));
        }
      }
    }

    /** `if (workspace.review) setReview(workspace.review)`: a saved review replaces the current one. */
    method RestoreReview(saved: Option<Review>)
      modifies this
      ensures review == (if saved.Some? then saved else old(review))
      ensures files == old(files) && selectedFileIndex == old(selectedFileIndex) && showDiffInput == old(showDiffInput)
    {
      if saved.Some? {
        review := saved;
      }
    }

    /**
     * Start-up as written: the saved review is restored, then the branch diff is loaded
     * by the closure of the first render, whose review is still `null`. Once files and
     * git info arrive, the restored comments are gone.
     */
    method InitializeAsWritten(saved: Option<Review>, info: Option<GitInfo>, parsedFiles: Option<seq<ParsedFile>>,
                               now: int, createdAt: string)
      modifies this
      ensures parsedFiles.None? || parsedFiles.value == [] || info.None? ==>
        review == (if saved.Some? then saved else old(review))
      ensures parsedFiles.Some? && parsedFiles.value != [] && info.Some? ==>
        review == Some(RebuildReview(None, info.value, None, now, createdAt)) && review.value.comments == []
    {
      RestoreReview(saved);
      LoadCurrentBranchDiff(None, None, info, parsedFiles, now, createdAt);
    }

    /** Start-up rebuilding from the restored review: its id, creation time and comments survive. */
    method InitializeKeepingReview(saved: Option<Review>, info: Option<GitInfo>, parsedFiles: Option<seq<ParsedFile>>,
                                   now: int, createdAt: string)
      modifies this
      ensures parsedFiles.None? || parsedFiles.value == [] || info.None? ==>
        review == (if saved.Some? then saved else old(review))
      ensures parsedFiles.Some? && parsedFiles.value != [] && info.Some? && saved.Some? ==>
        review.Some? && review.value.comments == saved.value.comments
        && review.value.reviewId == OrElse(Some(saved.value.reviewId), "review_" + IntToString(now))
    {
      RestoreReview(saved);
      LoadCurrentBranchDiff(None, review, info, parsedFiles, now, createdAt);
    }

    /** Choosing a base branch reloads the diff against it, without its first `origin/`. */
    method HandleSelectBaseBranch(branch: string, info: Option<GitInfo>, parsedFiles: Option<seq<ParsedFile>>,
                                  now: int, createdAt: string)
      modifies this
      ensures showDiffInput == old(showDiffInput)
      ensures parsedFiles.None? || parsedFiles.value == [] ==>
        review == old(review) && files == old(files) && selectedFileIndex == old(selectedFileIndex)
      ensures parsedFiles.Some? && parsedFiles.value != [] ==>
        files == parsedFiles.value && selectedFileIndex == 0
        && review == (if info.Some? then Some(RebuildReview(old(review), info.value, Some(CleanBranch(branch)), now, createdAt))
                      else old(review))
    {
      LoadCurrentBranchDiff(Some(CleanBranch(branch)), review, info, parsedFiles, now, createdAt);
    }
  }
}
