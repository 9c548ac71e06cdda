/**
 * The server's reading of git's text output: the default-branch rule, the
 * branch lists, the `git worktree list --porcelain` parser, the choice of the
 * active worktree and the combined diff. Every command's output is a parameter,
 * `None` standing for a failed command.
 */
module GitServer {
  import opened Js

  // ---------------------------------------------------------------------------
  // Default branch
  // ---------------------------------------------------------------------------

  /** The symbolic ref of `origin/HEAD`, when it names something. */
  predicate UsableRemoteHead(remoteHead: Option<string>) {
    TruthyStr(remoteHead) && Trim(remoteHead.value) != []
  }

  /**
   * `getDefaultBranch` as written: the remote HEAD without `refs/remotes/origin/`;
   * else `main` or `master` when the remote branch list mentions `origin/main` or
   * `origin/master`; else `main` when the local list mentions `main`; else `master`.
   * The list tests are substring tests.
   */
  function DefaultBranchAsWritten(remoteHead: Option<string>, remoteBranches: Option<string>, localBranches: Option<string>)
    : (r: string)
    ensures UsableRemoteHead(remoteHead) && StartsWith(Trim(remoteHead.value), "refs/remotes/origin/") ==>
      r == Trim(remoteHead.value)[|"refs/remotes/origin/"|..]
    ensures !UsableRemoteHead(remoteHead) ==> r == "main" || r == "master"
    ensures !UsableRemoteHead(remoteHead) ==>
      var remote := TruthyStr(remoteBranches) && Includes(remoteBranches.value, "origin/main");
      var remoteMaster := TruthyStr(remoteBranches) && Includes(remoteBranches.value, "origin/master");
      var local := TruthyStr(localBranches) && Includes(localBranches.value, "main");
      (r == "main" <==> remote || (!remoteMaster && local))
  {
    if UsableRemoteHead(remoteHead) then
      var head := Trim(remoteHead.value);
      if StartsWith(head, "refs/remotes/origin/") then
        ReplacePrefix(head, "refs/remotes/origin/");
        ReplaceFirst(head, "refs/remotes/origin/", "")
      else ReplaceFirst(head, "refs/remotes/origin/", "")
    else if TruthyStr(remoteBranches) && Includes(remoteBranches.value, "origin/main") then "main"
    else if TruthyStr(remoteBranches) && Includes(remoteBranches.value, "origin/master") then "master"
    else if TruthyStr(localBranches) && Includes(localBranches.value, "main") then "main"
    else "master"
  }

  /** A `git branch` listing whose branches are `feature/domain`, the current one, and `master`. */
  const DomainListing: string := Join(["* feature/domain", "  master", ""], "\n")

  lemma DomainListingLines()
    ensures Split(DomainListing, '\n') == ["* feature/domain", "  master", ""]
  {
    var parts := ["* feature/domain", "  master", ""];
    assert forall k :: 0 <= k < |parts| ==> '\n' !in parts[k];
    SplitJoin(parts, '\n');
  }

  lemma DomainListingMentionsMain()
    ensures Includes(DomainListing, "main")
  {
    var first := "* feature/domain";
    var rest := "\n" + Join(["  master", ""], "\n");
    assert DomainListing == first + rest;
    assert (first + rest)[12..16] == first[12..16] == "main";
    IncludesAt(DomainListing, "main", 12);
  }

  /**
   * A local list holding only `master` and `feature/domain` yields `main`, since
   * `domain` contains `main`.
   */
  lemma DefaultBranchSubstringMatch()
    ensures !HasBranch(DomainListing, "main")
    ensures DefaultBranchAsWritten(None, Some(""), Some(DomainListing)) == "main"
  {
    DomainListingLines();
    DomainListingMentionsMain();
    var lines := Split(DomainListing, '\n');
    assert forall k :: 0 <= k < |lines| ==> |BranchName(lines[k])| != 4;
  }

  /** The name on one line of `git branch` output: the two-column marker (`* `, `+ ` or blanks) removed. */
  function BranchName(line: string): string {
    if |line| >= 2 then line[2..] else []
  }

  /** Whether some line of a `git branch` listing names exactly `name`. */
  predicate HasBranch(listing: string, name: string) {
    var lines := Split(listing, '\n');
    exists k :: 0 <= k < |lines| && BranchName(lines[k]) == name
  }

  /** The default-branch rule with the list tests made exact: a branch is present when a line names it. */
  function DefaultBranch(remoteHead: Option<string>, remoteBranches: Option<string>, localBranches: Option<string>): (r: string)
    ensures !UsableRemoteHead(remoteHead) ==> r == "main" || r == "master"
  {
    if UsableRemoteHead(remoteHead) then ReplaceFirst(Trim(remoteHead.value), "refs/remotes/origin/", "")
    else if TruthyStr(remoteBranches) && HasBranch(remoteBranches.value, "origin/main") then "main"
    else if TruthyStr(remoteBranches) && HasBranch(remoteBranches.value, "origin/master") then "master"
    else if TruthyStr(localBranches) && HasBranch(localBranches.value, "main") then "main"
    else "master"
  }

  /**
   * The remote HEAD wins when it is usable, reduced to the name after `refs/remotes/origin/`;
   * otherwise the answer is `main` exactly when a remote `origin/main` exists, or no remote
   * `origin/master` exists and a local `main` does.
   */
  lemma DefaultBranchRule(remoteHead: Option<string>, remoteBranches: Option<string>, localBranches: Option<string>)
    ensures UsableRemoteHead(remoteHead) && StartsWith(Trim(remoteHead.value), "refs/remotes/origin/") ==>
      DefaultBranch(remoteHead, remoteBranches, localBranches) == Trim(remoteHead.value)[|"refs/remotes/origin/"|..]
    ensures !UsableRemoteHead(remoteHead) ==>
      var remote := remoteBranches.Some? && HasBranch(remoteBranches.value, "origin/main");
      var remoteMaster := remoteBranches.Some? && HasBranch(remoteBranches.value, "origin/master");
      var local := localBranches.Some? && HasBranch(localBranches.value, "main");
      (DefaultBranch(remoteHead, remoteBranches, localBranches) == "main" <==> remote || (!remoteMaster && local))
  {
    if UsableRemoteHead(remoteHead) && StartsWith(Trim(remoteHead.value), "refs/remotes/origin/") {
      ReplacePrefix(Trim(remoteHead.value), "refs/remotes/origin/");
    }
    if remoteBranches == Some("") {
      assert BranchName(Split("", '\n')[0]) == [];
    }
    if localBranches == Some("") {
      assert BranchName(Split("", '\n')[0]) == [];
    }
  }

  /** With the exact test, the listing that misleads the substring test gives `master`. */
  lemma DefaultBranchExact()
    ensures DefaultBranch(None, Some(""), Some(DomainListing)) == "master"
  {
    DefaultBranchSubstringMatch();
    assert BranchName(Split("", '\n')[0]) == [];
  }

  // ---------------------------------------------------------------------------
  // Branch lists
  // ---------------------------------------------------------------------------

  /** `out ? out.trim().split('\n').filter(Boolean) : []`. */
  function BranchList(out: Option<string>): (r: seq<string>)
    ensures forall k :: 0 <= k < |r| ==> r[k] != [] && '\n' !in r[k]
    ensures TruthyStr(out) ==> forall b :: b in r <==> b in Split(Trim(out.value), '\n') && b != []
    ensures !TruthyStr(out) ==> r == []
  {
    if TruthyStr(out) then
      var p := (b: string) => b != [];
      FilterMembers(p, Split(Trim(out.value), '\n'));
      FilterPasses(p, Split(Trim(out.value), '\n'));
      Filter(p, Split(Trim(out.value), '\n'))
    else []
  }

  /** The default order of `Array.prototype.sort` on strings: lexicographic by character. */
  predicate StrLess(a: string, b: string)
    decreases |a|
  {
    if |a| == 0 then |b| > 0
    else if |b| == 0 then false
    else if a[0] == b[0] then StrLess(a[1..], b[1..])
    else a[0] < b[0]
  }

  lemma {:induction false} StrLessIrreflexive(a: string)
    ensures !StrLess(a, a)
    decreases |a|
  {
    if |a| > 0 {
      StrLessIrreflexive(a[1..]);
    }
  }

  lemma {:induction false} StrLessTransitive(a: string, b: string, c: string)
    requires StrLess(a, b) && StrLess(b, c)
    ensures StrLess(a, c)
    decreases |a|
  {
    if |a| > 0 && |b| > 0 && |c| > 0 && a[0] == b[0] && b[0] == c[0] {
      StrLessTransitive(a[1..], b[1..], c[1..]);
    }
  }

  lemma {:induction false} StrLessTotal(a: string, b: string)
    requires a != b
    ensures StrLess(a, b) || StrLess(b, a)
    decreases |a|
  {
    if |a| > 0 && |b| > 0 && a[0] == b[0] {
      assert a == [a[0]] + a[1..] && b == [b[0]] + b[1..];
      StrLessTotal(a[1..], b[1..]);
    }
  }

  predicate StrictlySorted(s: seq<string>) {
    forall i, j :: 0 <= i < j < |s| ==> StrLess(s[i], s[j])
  }

  /** A sorted list stays sorted with a smaller element in front. */
  lemma SortedCons(x: string, s: seq<string>)
    requires StrictlySorted(s)
    requires forall y :: y in s ==> StrLess(x, y)
    ensures StrictlySorted([x] + s)
  {
    var r := [x] + s;
    forall i, j | 0 <= i < j < |r|
      ensures StrLess(r[i], r[j])
    {
      if i == 0 {
        assert r[j] == s[j - 1];
      } else {
        assert r[i] == s[i - 1] && r[j] == s[j - 1];
      }
    }
  }

  /** The head of a sorted list is below every later element. */
  lemma SortedHead(s: seq<string>)
    requires StrictlySorted(s) && |s| > 0
    ensures forall y :: y in s[1..] ==> StrLess(s[0], y)
  {
    forall y | y in s[1..]
      ensures StrLess(s[0], y)
    {
      var k :| 0 <= k < |s[1..]| && s[1..][k] == y;
      assert s[k + 1] == y;
    }
  }

  /** Adds `x` to a sorted duplicate-free list at its place, unless it is already there. */
  function Insert(s: seq<string>, x: string): (r: seq<string>)
    requires StrictlySorted(s)
    ensures StrictlySorted(r)
    ensures forall y :: y in r <==> y in s || y == x
  {
    if s == [] then [x]
    else if x == s[0] then s
    else if StrLess(x, s[0]) then
      InsertFront(s, x);
      [x] + s
    else
      StrLessTotal(x, s[0]);
      SortedHead(s);
      var rest := Insert(s[1..], x);
      SortedCons(s[0], rest);
      [s[0]] + rest
  }

  lemma InsertFront(s: seq<string>, x: string)
    requires StrictlySorted(s) && |s| > 0 && StrLess(x, s[0])
    ensures StrictlySorted([x] + s)
  {
    SortedHead(s);
    forall y | y in s
      ensures StrLess(x, y)
    {
      if y != s[0] {
        assert y in s[1..];
        StrLessTransitive(x, s[0], y);
      }
    }
    SortedCons(x, s);
  }

  /** `[...new Set(xs)].sort()`: the distinct elements of `xs`, in order. */
  function SortedSet(xs: seq<string>): (r: seq<string>)
    ensures StrictlySorted(r)
    ensures forall y :: y in r <==> y in xs
  {
    if xs == [] then [] else Insert(SortedSet(xs[1..]), xs[0])
  }

  /** A sorted list has no element twice. */
  lemma SortedDistinct(s: seq<string>)
    requires StrictlySorted(s)
    ensures forall i, j :: 0 <= i < j < |s| ==> s[i] != s[j]
  {
    forall i, j | 0 <= i < j < |s|
      ensures s[i] != s[j]
    {
      StrLessIrreflexive(s[i]);
    }
  }

  /** Two sorted lists with the same elements are equal, so the sorted set does not depend on how it is built. */
  lemma {:induction false} SortedUnique(a: seq<string>, b: seq<string>)
    requires StrictlySorted(a) && StrictlySorted(b)
    requires forall y :: y in a <==> y in b
    ensures a == b
    decreases |a|
  {
    SameMembersEmpty(a, b);
    if a != [] && b != [] {
      SortedHead(a);
      SortedHead(b);
      if a[0] != b[0] {
        assert a[0] in b[1..] by {
          assert a[0] in b;
        }
        assert b[0] in a[1..] by {
          assert b[0] in a;
        }
        StrLessTransitive(a[0], b[0], a[0]);
        StrLessIrreflexive(a[0]);
        assert false;
      }
      forall y
        ensures y in a[1..] <==> y in b[1..]
      {
        if y in a[1..] {
          StrLessIrreflexive(y);
          assert y in b;
        }
        if y in b[1..] {
          StrLessIrreflexive(y);
          assert y in a;
        }
      }
      SortedUnique(a[1..], b[1..]);
      assert a == [a[0]] + a[1..] && b == [b[0]] + b[1..];
    }
  }

  lemma SameMembersEmpty(a: seq<string>, b: seq<string>)
    requires forall y :: y in a <==> y in b
    ensures a == [] <==> b == []
  {
    if a != [] {
      assert a[0] in b;
    }
    if b != [] {
      assert b[0] in a;
    }
  }

  datatype Branches = Branches(local: seq<string>, remote: seq<string>, all: seq<string>)

  /** The branches endpoint: an error when both listings failed, otherwise the three lists. */
  function ListBranches(localOut: Option<string>, remoteOut: Option<string>): (r: Option<Branches>)
    ensures r.None? <==> !TruthyStr(localOut) && !TruthyStr(remoteOut)
    ensures r.Some? ==> r.value.local == BranchList(localOut) && r.value.remote == BranchList(remoteOut)
    ensures r.Some? ==> StrictlySorted(r.value.all)
    ensures r.Some? ==> forall b :: b in r.value.all <==> b in r.value.local || b in r.value.remote
  {
    if !TruthyStr(localOut) && !TruthyStr(remoteOut) then None
    else
      var local, remote := BranchList(localOut), BranchList(remoteOut);
      Some(Branches(local, remote, SortedSet(local + remote)))
  }

  // ---------------------------------------------------------------------------
  // Worktrees
  // ---------------------------------------------------------------------------

  datatype Worktree = Worktree(path: string, branch: string, commit: string, isMain: bool)

  /**
   * The record being filled in. Its path is `None` until a `worktree ` line has
   * been read; the fields of the initial empty object are never read.
   */
  datatype Pending = Pending(path: Option<string>, branch: string, commit: string, isMain: bool)

  const NoPending := Pending(None, "", "", false)

  /** What `if (tempWorktree.path) worktrees.push(tempWorktree)` adds. */
  function Flush(t: Pending): (r: seq<Worktree>)
    ensures |r| <= 1
    ensures r != [] <==> TruthyStr(t.path)
  {
    if TruthyStr(t.path) then [Worktree(t.path.value, t.branch, t.commit, t.isMain)] else []
  }

  datatype ParseState = ParseState(pending: Pending, worktrees: seq<Worktree>)

  /**
   * The effect of one line of porcelain output: a `worktree ` line pushes the pending
   * record and starts a new one; any other line changes at most the pending record's
   * commit, branch or main flag.
   */
  function Step(s: ParseState, line: string): (r: ParseState)
    ensures IsWorktreeLine(line) ==>
      r == ParseState(Pending(Some(line[|"worktree "|..]), "", "", false), s.worktrees + Flush(s.pending))
    ensures !IsWorktreeLine(line) ==>
      r.worktrees == s.worktrees && r.pending.path == s.pending.path && r.pending.isMain == (s.pending.isMain && line != "bare")
      && r.pending.commit == (if StartsWith(line, "HEAD ") then line[|"HEAD "|..] else s.pending.commit)
      && r.pending.branch == (if StartsWith(line, "branch ") then ReplaceFirst(line[|"branch "|..], "refs/heads/", "") else s.pending.branch)
  {
    if StartsWith(line, "worktree ") then
      ReplacePrefix(line, "worktree ");
      ParseState(Pending(Some(ReplaceFirst(line, "worktree ", "")), "", "", false), s.worktrees + Flush(s.pending))
    else if StartsWith(line, "HEAD ") then
      ReplacePrefix(line, "HEAD ");
      assert !StartsWith(line, "branch ") by {
        assert line[0] == 'H';
      }
      s.(pending := s.pending.(commit := ReplaceFirst(line, "HEAD ", "")))
    else if StartsWith(line, "branch ") then
      ReplacePrefix(line, "branch ");
      s.(pending := s.pending.(branch := ReplaceFirst(ReplaceFirst(line, "branch ", ""), "refs/heads/", "")))
    else if line == "bare" then
      s.(pending := s.pending.(isMain := false))
    else s
  }

  /** The state after reading `lines` from `s`, one line after the other. */
  function Run(s: ParseState, lines: seq<string>): ParseState
    decreases |lines|
  {
    if lines == [] then s else Step(Run(s, lines[..|lines| - 1]), lines[|lines| - 1])
  }

  /** `worktrees[0].isMain = true` when there is a first one. */
  function MarkMain(ws: seq<Worktree>): (r: seq<Worktree>)
    ensures |r| == |ws|
  {
    if ws == [] then [] else ws[0 := ws[0].(isMain := true)]
  }

  /**
   * The worktree list the porcelain lines describe: one record per declared non-empty
   * path, in the order of the output, and exactly the first one marked main.
   */
  function Worktrees(lines: seq<string>): (r: seq<Worktree>)
    ensures Paths(r) == DeclaredPaths(lines)
    ensures forall k :: 0 <= k < |r| ==> (r[k].isMain <==> k == 0)
  {
    var s := Run(ParseState(NoPending, []), lines);
    RunInvariant(lines);
    var done := s.worktrees + Flush(s.pending);
    assert Paths(done) == Paths(s.worktrees) + PendingPath(s.pending);
    assert forall k :: 0 <= k < |done| ==> !done[k].isMain;
    assert Paths(MarkMain(done)) == Paths(done);
    MarkMain(done)
  }

  /** The worktree endpoint's loop over the lines of the trimmed output. */
  method ParseWorktrees(output: string) returns (worktrees: seq<Worktree>)
    ensures worktrees == Worktrees(Split(Trim(output), '\n'))
  {
    var lines := Split(Trim(output), '\n');
    var pending := NoPending;
    worktrees := [];
    for i := 0 to |lines|
      invariant ParseState(pending, worktrees) == Run(ParseState(NoPending, []), lines[..i])
    {
      pending, worktrees := ReadLine(pending, worktrees, lines[i]);
      RunPrefix(ParseState(NoPending, []), lines, i);
    }
    assert lines[..|lines|] == lines;
    ghost var done := worktrees + Flush(pending);
    if TruthyStr(pending.path) {
      worktrees := worktrees + [Worktree(pending.path.value, pending.branch, pending.commit, pending.isMain)];
    }
    assert worktrees == done;
    if |worktrees| > 0 {
      worktrees := worktrees[0 := worktrees[0].(isMain := true)];
    }
    assert worktrees == MarkMain(done);
  }

  /** The body of the parsing loop: one line of the listing read into the pending worktree. */
  method ReadLine(pending: Pending, worktrees: seq<Worktree>, line: string) returns (pending': Pending, worktrees': seq<Worktree>)
    ensures ParseState(pending', worktrees') == Step(ParseState(pending, worktrees), line)
  {
    pending', worktrees' := pending, worktrees;
    if StartsWith(line, "worktree ") {
      if TruthyStr(pending.path) {
        worktrees' := worktrees + [Worktree(pending.path.value, pending.branch, pending.commit, pending.isMain)];
      }
      pending' := Pending(Some(ReplaceFirst(line, "worktree ", "")), "", "", false);
    } else if StartsWith(line, "HEAD ") {
      pending' := pending.(commit := ReplaceFirst(line, "HEAD ", ""));
    } else if StartsWith(line, "branch ") {
      pending' := pending.(branch := ReplaceFirst(ReplaceFirst(line, "branch ", ""), "refs/heads/", ""));
    } else if line == "bare" {
      pending' := pending.(isMain := false);
    }
  }

  /** Reading the first `i + 1` lines is reading the first `i` and then line `i`. */
  lemma RunPrefix(s: ParseState, lines: seq<string>, i: nat)
    requires i < |lines|
    ensures Run(s, lines[..i + 1]) == Step(Run(s, lines[..i]), lines[i])
  {
    assert lines[..i + 1][..i] == lines[..i];
  }

  /** Reading one more line is one more step. */
  lemma RunSnoc(s: ParseState, lines: seq<string>, line: string)
    ensures Run(s, lines + [line]) == Step(Run(s, lines), line)
  {
    assert (lines + [line])[..|lines|] == lines;
  }

  /** Reading `a` and then `b` is reading `a + b`. */
  lemma {:induction false} RunAppend(s: ParseState, a: seq<string>, b: seq<string>)
    ensures Run(s, a + b) == Run(Run(s, a), b)
    decreases |b|
  {
    if b == [] {
      assert a + b == a;
    } else {
      var init, x := b[..|b| - 1], b[|b| - 1];
      assert b == init + [x];
      assert a + b == (a + init) + [x];
      RunAppend(s, a, init);
      RunSnoc(s, a + init, x);
      RunSnoc(Run(s, a), init, x);
    }
  }

  predicate IsWorktreeLine(line: string) {
    StartsWith(line, "worktree ")
  }

  /** The paths the `worktree ` lines declare, the empty ones left out, in order. */
  function DeclaredPaths(lines: seq<string>): seq<string>
    decreases |lines|
  {
    if lines == [] then []
    else
      var last := lines[|lines| - 1];
      DeclaredPaths(lines[..|lines| - 1])
        + if IsWorktreeLine(last) && |last| > |"worktree "| then [last[|"worktree "|..]] else []
  }

  function Paths(ws: seq<Worktree>): (r: seq<string>)
    ensures |r| == |ws| && forall k :: 0 <= k < |ws| ==> r[k] == ws[k].path
  {
    seq(|ws|, k requires 0 <= k < |ws| => ws[k].path)
  }

  function PendingPath(t: Pending): seq<string> {
    if TruthyStr(t.path) then [t.path.value] else []
  }

  /** While reading, the records done and the one pending carry the declared paths, and none is marked main. */
  lemma {:induction false} RunInvariant(lines: seq<string>)
    ensures var s := Run(ParseState(NoPending, []), lines);
      Paths(s.worktrees) + PendingPath(s.pending) == DeclaredPaths(lines)
      && !s.pending.isMain && forall k :: 0 <= k < |s.worktrees| ==> !s.worktrees[k].isMain
    decreases |lines|
  {
    if lines != [] {
      var init, last := lines[..|lines| - 1], lines[|lines| - 1];
      RunInvariant(init);
      var s := Run(ParseState(NoPending, []), init);
      if IsWorktreeLine(last) {
        ReplacePrefix(last, "worktree ");
        var done := s.worktrees + Flush(s.pending);
        assert Paths(done) == Paths(s.worktrees) + PendingPath(s.pending);
      }
    }
  }

  /** Lines before the first `worktree ` line leave nothing behind. */
  lemma {:induction false} LeadingLinesIgnored(pre: seq<string>)
    requires forall k :: 0 <= k < |pre| ==> !IsWorktreeLine(pre[k])
    ensures Run(ParseState(NoPending, []), pre).worktrees == []
    ensures Run(ParseState(NoPending, []), pre).pending.path.None?
    decreases |pre|
  {
    if pre != [] {
      LeadingLinesIgnored(pre[..|pre| - 1]);
    }
  }

  /** Reading a line and then `t` is reading `[x] + t`. */
  lemma RunCons(s: ParseState, x: string, t: seq<string>)
    ensures Run(s, [x] + t) == Run(Step(s, x), t)
  {
    RunAppend(s, [x], t);
    assert [x][..0] == [];
  }

  /** Lines before the first `worktree ` line do not change the list. */
  lemma LeadingLinesDiscarded(pre: seq<string>, rest: seq<string>)
    requires forall k :: 0 <= k < |pre| ==> !IsWorktreeLine(pre[k])
    requires rest == [] || IsWorktreeLine(rest[0])
    ensures Worktrees(pre + rest) == Worktrees(rest)
  {
    var start := ParseState(NoPending, []);
    LeadingLinesIgnored(pre);
    var s := Run(start, pre);
    RunAppend(start, pre, rest);
    if rest == [] {
      assert pre + rest == pre;
    } else {
      assert rest == [rest[0]] + rest[1..];
      RunCons(s, rest[0], rest[1..]);
      RunCons(start, rest[0], rest[1..]);
      assert Step(s, rest[0]) == Step(start, rest[0]);
    }
  }

  /** The value of the last line of `attrs` starting with `prefix`, or the empty string. */
  function LastValue(attrs: seq<string>, prefix: string): string
    decreases |attrs|
  {
    if attrs == [] then []
    else if StartsWith(attrs[|attrs| - 1], prefix) then attrs[|attrs| - 1][|prefix|..]
    else LastValue(attrs[..|attrs| - 1], prefix)
  }

  /** The value of the last `branch ` line of `attrs` without `refs/heads/`, or the empty string. */
  function LastBranch(attrs: seq<string>): string
    decreases |attrs|
  {
    if attrs == [] then []
    else if StartsWith(attrs[|attrs| - 1], "branch ") then ReplaceFirst(attrs[|attrs| - 1][|"branch "|..], "refs/heads/", "")
    else LastBranch(attrs[..|attrs| - 1])
  }

  /**
   * One block of the output, a `worktree ` line and the attribute lines under it:
   * it pushes the record pending before it, and leaves pending a record with the
   * block's path, the last `HEAD ` value as commit and the last `branch ` value,
   * without `refs/heads/`, as branch.
   */
  lemma {:induction false} BlockRecord(s: ParseState, path: string, attrs: seq<string>)
    requires forall k :: 0 <= k < |attrs| ==> !IsWorktreeLine(attrs[k])
    ensures var r := Run(s, ["worktree " + path] + attrs);
      r.worktrees == s.worktrees + Flush(s.pending)
      && r.pending.path == Some(path) && !r.pending.isMain
      && r.pending.commit == LastValue(attrs, "HEAD ")
      && r.pending.branch == LastBranch(attrs)
    decreases |attrs|
  {
    var line := "worktree " + path;
    if attrs == [] {
      RunSnoc(s, [], line);
      assert [] + [line] == [line] + attrs;
      WorktreeStep(s, path);
    } else {
      var init, last := attrs[..|attrs| - 1], attrs[|attrs| - 1];
      BlockRecord(s, path, init);
      assert [line] + attrs == ([line] + init) + [last];
      RunSnoc(s, [line] + init, last);
    }
  }

  lemma WorktreeStep(s: ParseState, path: string)
    ensures Step(s, "worktree " + path) == ParseState(Pending(Some(path), "", "", false), s.worktrees + Flush(s.pending))
  {
    ReplacePrefix("worktree " + path, "worktree ");
    assert ("worktree " + path)[|"worktree "|..] == path;
  }

  // ---------------------------------------------------------------------------
  // The active worktree
  // ---------------------------------------------------------------------------

  /** `worktrees.find(w => cwd.startsWith(w.path)) || worktrees[0]`, with `None` for `undefined`. */
  function ActiveWorktreeAsWritten(ws: seq<Worktree>, cwd: string): (r: Option<Worktree>)
    ensures r.Some? <==> |ws| > 0
    ensures r.Some? ==> r.value in ws
    ensures forall i :: (0 <= i < |ws| && StartsWith(cwd, ws[i].path) &&
                         (forall k :: 0 <= k < i ==> !StartsWith(cwd, ws[k].path))) ==> r == Some(ws[i])
    ensures |ws| > 0 && (forall k :: 0 <= k < |ws| ==> !StartsWith(cwd, ws[k].path)) ==> r == Some(ws[0])
  {
    match FindIndex(ws, (w: Worktree) => StartsWith(cwd, w.path))
    case Some(i) => Some(ws[i])
    case None => if |ws| > 0 then Some(ws[0]) else None
  }

  /**
   * With a worktree nested inside the main one, the main one is reported even when
   * the server runs in the nested one.
   */
  lemma NestedWorktreeMissed()
    ensures var ws := [Worktree("/r", "main", "c1", true), Worktree("/r/w", "feature", "c2", false)];
      ActiveWorktreeAsWritten(ws, "/r/w") == Some(ws[0]) && ws[1].path == "/r/w" && ws[0].path != "/r/w"
  {
    var ws := [Worktree("/r", "main", "c1", true), Worktree("/r/w", "feature", "c2", false)];
    assert StartsWith("/r/w", ws[0].path);
  }

  /** `cwd` is the directory `path` or lies below it. */
  predicate Within(cwd: string, path: string) {
    cwd == path || StartsWith(cwd, path + "/")
  }

  /** The worktree with the longest path that `cwd` lies within; the first among equals. */
  function Deepest(ws: seq<Worktree>, cwd: string): (r: Option<Worktree>)
    ensures r.Some? ==> r.value in ws && Within(cwd, r.value.path)
    ensures r.Some? ==> forall w :: w in ws && Within(cwd, w.path) ==> |w.path| <= |r.value.path|
    ensures r.None? ==> forall w :: w in ws ==> !Within(cwd, w.path)
  {
    if ws == [] then None
    else
      var rest := Deepest(ws[1..], cwd);
      if !Within(cwd, ws[0].path) then rest
      else if rest.Some? && |rest.value.path| > |ws[0].path| then rest
      else Some(ws[0])
  }

  /** The active worktree: the one the server runs in, else the first listed. */
  function ActiveWorktree(ws: seq<Worktree>, cwd: string): (r: Option<Worktree>)
    ensures r.Some? <==> |ws| > 0
    ensures r.Some? ==> r.value in ws
  {
    match Deepest(ws, cwd)
    case Some(w) => Some(w)
    case None => if |ws| > 0 then Some(ws[0]) else None
  }

  /** A worktree whose path is the working directory itself is the one reported. */
  lemma ActiveIsCurrentDirectory(ws: seq<Worktree>, cwd: string, i: nat)
    requires i < |ws| && ws[i].path == cwd
    ensures ActiveWorktree(ws, cwd).Some? && ActiveWorktree(ws, cwd).value.path == cwd
  {
    assert ws[i] in ws;
    var r := Deepest(ws, cwd).value;
    assert |r.path| >= |cwd|;
  }

  /** The nested example, read with the corrected choice. */
  lemma NestedWorktreeFound()
    ensures var ws := [Worktree("/r", "main", "c1", true), Worktree("/r/w", "feature", "c2", false)];
      ActiveWorktree(ws, "/r/w") == Some(ws[1])
  {
    var ws := [Worktree("/r", "main", "c1", true), Worktree("/r/w", "feature", "c2", false)];
    assert ws[1..][1..] == [];
    assert Within("/r/w", "/r/w");
  }

  /**
   * A sibling worktree whose path extends the main one's, read both ways: the
   * prefix test picks the main worktree `/r`, the corrected choice `/r-feature`.
   */
  lemma SiblingWorktree()
    ensures var ws := [Worktree("/r", "main", "c1", true), Worktree("/r-feature", "feature", "c2", false)];
      ActiveWorktreeAsWritten(ws, "/r-feature") == Some(ws[0]) && ActiveWorktree(ws, "/r-feature") == Some(ws[1])
  {
    var ws := [Worktree("/r", "main", "c1", true), Worktree("/r-feature", "feature", "c2", false)];
    assert StartsWith("/r-feature", ws[0].path);
    ActiveIsCurrentDirectory(ws, "/r-feature", 1);
    assert ws[0].path != "/r-feature";
  }

  datatype WorktreeList = WorktreeList(worktrees: seq<Worktree>, current: Option<Worktree>)

  /** The worktree endpoint: an error without output, otherwise the list and the active worktree. */
  method ListWorktrees(output: Option<string>, cwd: string) returns (r: Option<WorktreeList>)
    ensures r.None? <==> !TruthyStr(output)
    ensures r.Some? ==> r.value.worktrees == Worktrees(Split(Trim(output.value), '\n'))
    ensures r.Some? ==> r.value.current == ActiveWorktreeAsWritten(r.value.worktrees, cwd)
  {
    if !TruthyStr(output) {
      return None;
    }
    var worktrees := ParseWorktrees(output.value);
    r := Some(WorktreeList(worktrees, ActiveWorktreeAsWritten(worktrees, cwd)));
  }

  // ---------------------------------------------------------------------------
  // The diff
  // ---------------------------------------------------------------------------

  /** `[committed, uncommitted].filter(Boolean).join('\n')`. */
  function CombineDiffs(committed: Option<string>, uncommitted: Option<string>): (r: string)
    ensures TruthyStr(committed) && TruthyStr(uncommitted) ==> r == committed.value + "\n" + uncommitted.value
    ensures TruthyStr(committed) && !TruthyStr(uncommitted) ==> r == committed.value
    ensures !TruthyStr(committed) && TruthyStr(uncommitted) ==> r == uncommitted.value
    ensures r == [] <==> !TruthyStr(committed) && !TruthyStr(uncommitted)
  {
    var parts := (if TruthyStr(committed) then [committed.value] else [])
      + (if TruthyStr(uncommitted) then [uncommitted.value] else []);
    if |parts| == 2 then JoinCons(committed.value, [uncommitted.value], "\n"); Join(parts, "\n") else
    Join(parts, "\n")
  }

  datatype DiffResult = DiffResult(diff: string, base: string, head: string, noChanges: bool)

  /**
   * The diff endpoint: an error when the current branch is unknown; otherwise the
   * combined diff against the requested base, or the default branch without one.
   */
  function GetDiff(query: Option<string>, remoteHead: Option<string>, remoteBranches: Option<string>, localBranches: Option<string>,
                   currentBranch: Option<string>, committed: Option<string>, uncommitted: Option<string>): (r: Option<DiffResult>)
    ensures r.None? <==> !TruthyStr(currentBranch)
    ensures r.Some? ==> r.value.head == Trim(currentBranch.value)
    ensures r.Some? ==> r.value.base == (if TruthyStr(query) then query.value else DefaultBranchAsWritten(remoteHead, remoteBranches, localBranches))
    ensures r.Some? ==> r.value.diff == CombineDiffs(committed, uncommitted)
    ensures r.Some? ==> (r.value.noChanges <==> !TruthyStr(committed) && !TruthyStr(uncommitted))
  {
    var base := OrElse(query, DefaultBranchAsWritten(remoteHead, remoteBranches, localBranches));
    if !TruthyStr(currentBranch) then None
    else
      var diff := CombineDiffs(committed, uncommitted);
      Some(DiffResult(diff, base, Trim(currentBranch.value), diff == []))
  }

  /** The diff endpoint inherits the substring test: on the listing above it diffs against `main`. */
  lemma GetDiffOnDomainListing()
    ensures var r := GetDiff(None, None, Some(""), Some(DomainListing), Some("feature/domain"), None, None);
      r.Some? && r.value.base == "main" && r.value.noChanges
  {
    DefaultBranchSubstringMatch();
  }
}
