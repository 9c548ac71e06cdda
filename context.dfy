/**
 * Context extraction shared by both Markdown exports: the first change that
 * carries a target line number and the window of at most five changes around it.
 */
module Context {
  import opened Js
  import opened Model

  /** The fixed text printed when no excerpt can be recovered. */
  const Placeholder: string := "(context not available)"

  /** `ch.newLine === target || ch.oldLine === target`, with strict equality on optionals. */
  predicate Hits(ch: Change, target: Option<int>) {
    ch.newLine == target || ch.oldLine == target
  }

  /** `changes.findIndex(ch => Hits(ch, target))`, -1 when nothing hits. */
  function FindChangeIndex(changes: seq<Change>, target: Option<int>): (i: int)
    ensures -1 <= i < |changes|
    ensures i >= 0 ==> Hits(changes[i], target) && forall k :: 0 <= k < i ==> !Hits(changes[k], target)
    ensures i == -1 <==> forall k :: 0 <= k < |changes| ==> !Hits(changes[k], target)
  {
    match FindIndex(changes, ch => Hits(ch, target))
    case None => -1
    case Some(i) => i
  }

  /** `Math.max(0, i - 2)`. */
  function WindowStart(i: nat): nat {
    if i >= 2 then i - 2 else 0
  }

  /** `Math.min(len, i + 3)`. */
  function WindowEnd(len: nat, i: nat): nat {
    if i + 3 <= len then i + 3 else len
  }

  function Min(a: int, b: int): int {
    if a <= b then a else b
  }

  /**
   * `changes.slice(max(0, i-2), min(len, i+3))`: a run of consecutive changes,
   * at most five long, that holds change `i`, is as long as it can be up to
   * five, and is never shorter than three unless the hunk is.
   */
  function Window(changes: seq<Change>, i: nat): (w: seq<Change>)
    requires i < |changes|
    ensures 1 <= |w| <= 5
    ensures WindowStart(i) + |w| <= |changes| && w == changes[WindowStart(i)..WindowStart(i) + |w|]
    ensures i - WindowStart(i) < |w| && w[i - WindowStart(i)] == changes[i]
    ensures |w| >= Min(3, |changes|)
    ensures 2 <= i && i + 3 <= |changes| ==> |w| == 5
  {
    changes[WindowStart(i)..WindowEnd(|changes|, i)]
  }

  /** The excerpt around the first change that hits `target`, or "" when none does. */
  function ContextIn(changes: seq<Change>, target: Option<int>): (r: string)
    ensures FindChangeIndex(changes, target) == -1 ==> r == ""
    ensures FindChangeIndex(changes, target) >= 0
        ==> r == LinesText(Window(changes, FindChangeIndex(changes, target)))
  {
    var i := FindChangeIndex(changes, target);
    if i == -1 then "" else LinesText(Window(changes, i))
  }

  /** A change whose new line is the target is always found, at or after the first such index. */
  lemma HitFound(changes: seq<Change>, target: Option<int>, k: nat)
    requires k < |changes| && Hits(changes[k], target)
    ensures 0 <= FindChangeIndex(changes, target) <= k
  {
  }

  /** `files.find(f => (f.to || f.from) === path)`: the first parsed file shown under `path`. */
  function MatchFile(files: seq<ParsedFile>, path: string): (r: Option<ParsedFile>)
    ensures r.Some? ==> r.value in files && ExportPath(r.value) == Some(path)
    ensures r.None? <==> forall f :: f in files ==> ExportPath(f) != Some(path)
  {
    Find(files, (f: ParsedFile) => ExportPath(f) == Some(path))
  }

  /** The file found is the first one shown under `path`. */
  lemma MatchFileIsFirst(files: seq<ParsedFile>, path: string, i: nat)
    requires i < |files| && ExportPath(files[i]) == Some(path)
    requires forall k :: 0 <= k < i ==> ExportPath(files[k]) != Some(path)
    ensures MatchFile(files, path) == Some(files[i])
  {
    var r := FindIndex(files, (f: ParsedFile) => ExportPath(f) == Some(path));
    assert r.Some?;
    assert !(r.value < i);
  }
}
