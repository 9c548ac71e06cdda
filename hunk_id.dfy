/**
 * Hunk identity: a hunk is named by a digest of its file path, its header
 * `@@ -oldStart,oldLines +newStart,newLines @@` and the contents of its first
 * three changes. The digest (SHA-1 in the source) is a parameter, so every
 * statement here holds for whatever digest function is supplied.
 */
module HunkId {
  import opened Js
  import opened Model

  /** How many leading changes take part in the fingerprint. */
  const LeadingCount: nat := 3

  /** The header text `@@ -a,b +c,d @@` built from the chunk's four numbers. */
  function Header(chunk: Chunk): (r: string)
    ensures StartsWith(r, "@@ -") && |r| >= 14 && r[|r| - 3..] == " @@"
    ensures ':' !in r
  {
    var a, b := IntToString(chunk.oldStart), IntToString(chunk.oldLines);
    var c, d := IntToString(chunk.newStart), IntToString(chunk.newLines);
    NumeralOf(chunk.oldStart);
    NumeralOf(chunk.oldLines);
    NumeralOf(chunk.newStart);
    NumeralOf(chunk.newLines);
    var numbers := a + "," + b + " +" + c + "," + d;
    assert ':' !in numbers;
    "@@ -" + numbers + " @@"
  }

  /** `changes.slice(0, 3)`. */
  function Leading(changes: seq<Change>): (r: seq<Change>)
    ensures |r| <= LeadingCount && |r| <= |changes|
    ensures |changes| >= LeadingCount ==> |r| == LeadingCount
    ensures r == changes[..|r|]
  {
    if |changes| <= LeadingCount then changes else changes[..LeadingCount]
  }

  /** The contents of at most the first three changes, joined by newlines. */
  function LeadingContext(chunk: Chunk): (r: string)
    ensures |chunk.changes| <= LeadingCount ==> r == LinesText(chunk.changes)
    ensures |chunk.changes| >= LeadingCount ==> r == LinesText(chunk.changes[..LeadingCount])
  {
    LinesText(Leading(chunk.changes))
  }

  /** The text that is digested: `filePath:header:context`. */
  function HashInput(filePath: string, chunk: Chunk): (r: string)
    ensures ':' !in filePath ==> ReadFingerprint(r) == Some(FingerprintOf(filePath, chunk))
  {
    var input := filePath + ":" + Header(chunk) + ":" + LeadingContext(chunk);
    if ':' in filePath then input
    else
      ReadFingerprintOf(filePath, chunk);
      input
  }

  /** `generateHunkId(filePath, chunk)` with the digest supplied by the caller. */
  function GenerateHunkId(sha1: string -> string, filePath: string, chunk: Chunk): (r: string)
    ensures ':' !in filePath ==>
      exists s :: r == sha1(s) && ReadFingerprint(s) == Some(FingerprintOf(filePath, chunk))
  {
    sha1(HashInput(filePath, chunk))
  }

  // ---------------------------------------------------------------------------
  // What the id depends on
  // ---------------------------------------------------------------------------

  /** Two chunks agree on everything the id reads. */
  predicate SameFingerprint(a: Chunk, b: Chunk) {
    && a.oldStart == b.oldStart && a.oldLines == b.oldLines
    && a.newStart == b.newStart && a.newLines == b.newLines
    && |Leading(a.changes)| == |Leading(b.changes)|
    && forall k :: 0 <= k < |Leading(a.changes)| ==> a.changes[k].content == b.changes[k].content
  }

  /**
   * Chunks with the same header numbers and the same first three contents get the same
   * id; the raw header text, change kinds, line numbers and every change from index 3
   * on play no part.
   */
  lemma SameFingerprintSameId(sha1: string -> string, filePath: string, a: Chunk, b: Chunk)
    requires SameFingerprint(a, b)
    ensures GenerateHunkId(sha1, filePath, a) == GenerateHunkId(sha1, filePath, b)
  {
    assert Contents(Leading(a.changes)) == Contents(Leading(b.changes));
  }

  /** Appending changes to a hunk that already has three leaves its id as it was. */
  lemma LaterChangesIgnored(sha1: string -> string, filePath: string, chunk: Chunk, more: seq<Change>)
    requires |chunk.changes| >= LeadingCount
    ensures GenerateHunkId(sha1, filePath, chunk.(changes := chunk.changes + more))
         == GenerateHunkId(sha1, filePath, chunk)
  {
    var longer := chunk.(changes := chunk.changes + more);
    assert Leading(longer.changes) == Leading(chunk.changes);
  }

  /** A hunk without changes contributes an empty context, whatever its path. */
  lemma EmptyChunkContext(filePath: string, chunk: Chunk)
    requires chunk.changes == []
    ensures LeadingContext(chunk) == ""
    ensures HashInput(filePath, chunk) == filePath + ":" + Header(chunk) + ":"
  {
  }

  /** The digest input written out, for paths with or without `:`. */
  lemma HashInputText(filePath: string, chunk: Chunk)
    ensures HashInput(filePath, chunk) == filePath + ":" + Header(chunk) + ":" + LeadingContext(chunk)
  {
  }

  lemma RegroupColons(x: string, hb: string, c: string, ha: string)
    ensures (x + ":" + hb + ":" + c) + ":" + ha + ":" == x + ":" + hb + ":" + (c + ":" + ha + ":")
  {
  }

  /**
   * Why the read-back needs a path without `:`. An empty hunk under the path
   * `"a" + ":" + Header(b) + ":" + c` digests the same text as the hunk `b` under `"a"`,
   * when `b`'s one change holds `c + ":" + Header(a) + ":"`; the two ids are equal
   * for every digest although path and header differ.
   */
  lemma ColonPathsCollide(sha1: string -> string, a: Chunk, b: Chunk, c: string)
    requires a.changes == [] && |b.changes| == 1
    requires b.changes[0].content == c + ":" + Header(a) + ":"
    ensures HashInput("a" + ":" + Header(b) + ":" + c, a) == HashInput("a", b)
    ensures GenerateHunkId(sha1, "a" + ":" + Header(b) + ":" + c, a) == GenerateHunkId(sha1, "a", b)
    ensures FingerprintOf("a" + ":" + Header(b) + ":" + c, a) != FingerprintOf("a", b)
  {
    var ha, hb := Header(a), Header(b);
    var p := "a" + ":" + hb + ":" + c;
    EmptyChunkContext(p, a);
    HashInputText("a", b);
    assert LeadingContext(b) == c + ":" + ha + ":" by {
      assert Contents(b.changes) == [b.changes[0].content];
    }
    RegroupColons("a", hb, c, ha);
    assert p != "a" by { assert |p| > 1; }
  }

  // ---------------------------------------------------------------------------
  // The digest input can be read back: it determines path, header and context
  // ---------------------------------------------------------------------------

  datatype Fingerprint = Fingerprint(
    filePath: string,
    oldStart: int,
    oldLines: int,
    newStart: int,
    newLines: int,
    context: string)

  function FingerprintOf(filePath: string, chunk: Chunk): Fingerprint {
    Fingerprint(filePath, chunk.oldStart, chunk.oldLines, chunk.newStart, chunk.newLines, LeadingContext(chunk))
  }

  /** Cuts `s` at the first `c`. */
  function SplitFirst(s: string, c: char): (r: Option<(string, string)>)
    ensures r.Some? ==> c !in r.value.0 && s == r.value.0 + [c] + r.value.1
    ensures r.None? ==> c !in s
  {
    if s == [] then None
    else if s[0] == c then Some(([], s[1..]))
    else match SplitFirst(s[1..], c)
      case None => None
      case Some(p) => Some(([s[0]] + p.0, p.1))
  }

  lemma {:induction false} SplitFirstOf(x: string, c: char, y: string)
    requires c !in x
    ensures SplitFirst(x + [c] + y, c) == Some((x, y))
  {
    if x != [] {
      SplitFirstOf(x[1..], c, y);
      assert x[0] != c;
      assert (x + [c] + y)[1..] == x[1..] + [c] + y;
      assert x == [x[0]] + x[1..];
    }
  }

  predicate IsNumeral(s: string) {
    |s| >= 1 && forall k :: 0 <= k < |s| ==> IsDigit(s[k]) || (k == 0 && s[k] == '-')
  }

  /** Reads `m,n ` at the front of `s`, giving the two numbers and what follows. */
  function ReadPair(s: string): Option<(int, int, string)> {
    match SplitFirst(s, ',')
    case None => None
    case Some(p) =>
      match SplitFirst(p.1, ' ')
      case None => None
      case Some(q) =>
        if IsNumeral(p.0) && IsNumeral(q.0) then Some((ParseInt(p.0), ParseInt(q.0), q.1)) else None
  }

  /** Reads `@@ -a,b +c,d @@:` at the front of `s`, giving the four numbers and the rest. */
  function ReadHeader(s: string): Option<(int, int, int, int, string)> {
    if !StartsWith(s, "@@ -") then None
    else match ReadPair(s[4..])
      case None => None
      case Some(o) =>
        if !StartsWith(o.2, "+") then None
        else match ReadPair(o.2[1..])
          case None => None
          case Some(n) =>
            if !StartsWith(n.2, "@@:") then None
            else Some((o.0, o.1, n.0, n.1, n.2[3..]))
  }

  /** Reads `path:@@ -a,b +c,d @@:context` back into its parts. */
  function ReadFingerprint(s: string): Option<Fingerprint> {
    match SplitFirst(s, ':')
    case None => None
    case Some(p) =>
      match ReadHeader(p.1)
      case None => None
      case Some(h) => Some(Fingerprint(p.0, h.0, h.1, h.2, h.3, h.4))
  }

  lemma NumeralOf(n: int)
    ensures IsNumeral(IntToString(n))
    ensures ',' !in IntToString(n) && ' ' !in IntToString(n) && ':' !in IntToString(n)
  {
  }

  lemma ReadPairOf(m: int, n: int, rest: string)
    ensures ReadPair(IntToString(m) + "," + IntToString(n) + " " + rest) == Some((m, n, rest))
  {
    var a, b := IntToString(m), IntToString(n);
    NumeralOf(m);
    NumeralOf(n);
    IntRoundTrip(m);
    IntRoundTrip(n);
    assert a + "," + b + " " + rest == a + [','] + (b + [' '] + rest);
    SplitFirstOf(a, ',', b + [' '] + rest);
    SplitFirstOf(b, ' ', rest);
  }

  /** `@@ -` followed by the two pairs, `+` between them and `@@:` after them. */
  function HeaderLayout(m: int, n: int, p: int, q: int, rest: string): string {
    "@@ -" + (IntToString(m) + "," + IntToString(n) + " " + ("+" + (IntToString(p) + "," + IntToString(q) + " " + ("@@:" + rest))))
  }

  lemma ReadLayout(m: int, n: int, p: int, q: int, rest: string)
    ensures ReadHeader(HeaderLayout(m, n, p, q, rest)) == Some((m, n, p, q, rest))
  {
    var tail := "@@:" + rest;
    var second := IntToString(p) + "," + IntToString(q) + " " + tail;
    var first := IntToString(m) + "," + IntToString(n) + " " + ("+" + second);
    var s := HeaderLayout(m, n, p, q, rest);
    assert s[4..] == first;
    ReadPairOf(m, n, "+" + second);
    assert ("+" + second)[1..] == second;
    ReadPairOf(p, q, tail);
    assert tail[3..] == rest;
  }

  lemma Regroup(a: string, b: string, c: string, d: string, rest: string)
    ensures "@@ -" + (a + "," + b + " +" + c + "," + d) + " @@" + ":" + rest
         == "@@ -" + (a + "," + b + " " + ("+" + (c + "," + d + " " + ("@@:" + rest))))
  {
  }

  lemma HeaderIsLayout(chunk: Chunk, rest: string)
    ensures Header(chunk) + ":" + rest == HeaderLayout(chunk.oldStart, chunk.oldLines, chunk.newStart, chunk.newLines, rest)
  {
    Regroup(IntToString(chunk.oldStart), IntToString(chunk.oldLines), IntToString(chunk.newStart), IntToString(chunk.newLines), rest);
  }

  lemma ReadHeaderOf(chunk: Chunk, rest: string)
    ensures ReadHeader(Header(chunk) + ":" + rest)
         == Some((chunk.oldStart, chunk.oldLines, chunk.newStart, chunk.newLines, rest))
  {
    HeaderIsLayout(chunk, rest);
    ReadLayout(chunk.oldStart, chunk.oldLines, chunk.newStart, chunk.newLines, rest);
  }

  lemma ReadFingerprintOf(filePath: string, chunk: Chunk)
    requires ':' !in filePath
    ensures ReadFingerprint(filePath + ":" + Header(chunk) + ":" + LeadingContext(chunk))
         == Some(FingerprintOf(filePath, chunk))
  {
    var rest := Header(chunk) + ":" + LeadingContext(chunk);
    assert filePath + ":" + Header(chunk) + ":" + LeadingContext(chunk) == filePath + [':'] + rest;
    SplitFirstOf(filePath, ':', rest);
    ReadHeaderOf(chunk, LeadingContext(chunk));
  }

  /**
   * Different paths (without `:`), different header numbers or different leading
   * contents give different digest inputs; with a collision-free digest they give
   * different ids.
   */
  lemma DistinctFingerprintsDistinctIds(sha1: string -> string, p: string, a: Chunk, q: string, b: Chunk)
    requires ':' !in p && ':' !in q
    requires forall x, y :: sha1(x) == sha1(y) ==> x == y
    requires FingerprintOf(p, a) != FingerprintOf(q, b)
    ensures GenerateHunkId(sha1, p, a) != GenerateHunkId(sha1, q, b)
  {
    assert ReadFingerprint(HashInput(p, a)) != ReadFingerprint(HashInput(q, b));
  }
}
