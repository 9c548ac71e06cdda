/**
 * Grouping of comments by file, as both Markdown exports do it: a JavaScript `Map`
 * from path to comments, filled with `get(path) || []`, `push` and `set`. A `Map`
 * iterates its keys in insertion order, so it is modelled as a sequence of
 * groups with distinct paths.
 */
module Grouping {
  import opened Js
  import opened Model

  /** One entry of the path-to-comments map. */
  datatype Group = Group(path: string, comments: seq<Comment>)

  // ---------------------------------------------------------------------------
  // Reference definition of the grouping
  // ---------------------------------------------------------------------------

  /** The distinct file paths of `cs`, in the order they first occur. */
  function Paths(cs: seq<Comment>): seq<string> {
    if cs == [] then []
    else
      var ps := Paths(cs[..|cs| - 1]);
      var p := cs[|cs| - 1].filePath;
      if p in ps then ps else ps + [p]
  }

  /** The comments of `cs` on `path`, in input order. */
  function OfPath(cs: seq<Comment>, path: string): seq<Comment> {
    if cs == [] then []
    else
      var c := cs[|cs| - 1];
      OfPath(cs[..|cs| - 1], path) + (if c.filePath == path then [c] else [])
  }

  /** One group per distinct path, in first-occurrence order, each holding that path's comments. */
  function Groups(cs: seq<Comment>): (gs: seq<Group>)
    ensures |gs| == |Paths(cs)|
    ensures forall k :: 0 <= k < |gs| ==> gs[k] == Group(Paths(cs)[k], OfPath(cs, Paths(cs)[k]))
  {
    var ps := Paths(cs);
    seq(|ps|, k requires 0 <= k < |ps| => Group(ps[k], OfPath(cs, ps[k])))
  }

  /** All comments of all groups, group after group. */
  function Flatten(gs: seq<Group>): seq<Comment> {
    if gs == [] then [] else gs[0].comments + Flatten(gs[1..])
  }

  // ---------------------------------------------------------------------------
  // The Map operations
  // ---------------------------------------------------------------------------

  function KeyIndex(m: seq<Group>, key: string): Option<nat> {
    FindIndex(m, (g: Group) => g.path == key)
  }

  /** `m.get(key)`. */
  function MapGet(m: seq<Group>, key: string): Option<seq<Comment>> {
    match KeyIndex(m, key)
    case None => None
    case Some(j) => Some(m[j].comments)
  }

  /** `m.set(key, v)`: an existing key keeps its place, a new key goes last. */
  function MapSet(m: seq<Group>, key: string, v: seq<Comment>): seq<Group> {
    match KeyIndex(m, key)
    case None => m + [Group(key, v)]
    case Some(j) => m[j := Group(key, v)]
  }

  /** The grouping loop of `exportMarkdown`: `get(path) || []`, `push`, `set` for each comment. */
  method GroupByFile(comments: seq<Comment>) returns (groups: seq<Group>)
    ensures groups == Groups(comments)
  {
    groups := [];
    var i := 0;
    while i < |comments|
      invariant 0 <= i <= |comments|
      invariant groups == Groups(comments[..i])
    {
      var comment := comments[i];
      var fileComments := match MapGet(groups, comment.filePath)
        case Some(v) => v
        case None => [];
      fileComments := fileComments + [comment];
      GroupsSnoc(comments[..i], comment);
      TakeSnoc(comments, i);
      groups := MapSet(groups, comment.filePath, fileComments);
      i := i + 1;
    }
    assert comments[..i] == comments;
  }

  // ---------------------------------------------------------------------------
  // Facts about paths
  // ---------------------------------------------------------------------------

  predicate Distinct<T(==)>(s: seq<T>) {
    forall a, b :: 0 <= a < b < |s| ==> s[a] != s[b]
  }

  lemma {:induction false} PathsDistinct(cs: seq<Comment>)
    ensures Distinct(Paths(cs))
  {
    if cs != [] {
      PathsDistinct(cs[..|cs| - 1]);
    }
  }

  /** A path is listed exactly when some comment is on it. */
  lemma {:induction false} PathsMembers(cs: seq<Comment>)
    ensures forall p :: p in Paths(cs) <==> exists c :: c in cs && c.filePath == p
  {
    if cs != [] {
      var init := cs[..|cs| - 1];
      PathsMembers(init);
      assert cs == init + [cs[|cs| - 1]];
    }
  }

  lemma {:induction false} OfPathAbsent(cs: seq<Comment>, p: string)
    requires p !in Paths(cs)
    ensures OfPath(cs, p) == []
  {
    if cs != [] {
      OfPathAbsent(cs[..|cs| - 1], p);
    }
  }

  lemma SnocInit<T>(s: seq<T>, x: T)
    ensures (s + [x])[..|s + [x]| - 1] == s
  {
  }

  /** Adding one comment to the input is one Map update on the grouping. */
  lemma GroupsSnoc(cs: seq<Comment>, c: Comment)
    ensures Groups(cs + [c])
         == MapSet(Groups(cs), c.filePath,
                   (match MapGet(Groups(cs), c.filePath) case Some(v) => v case None => []) + [c])
  {
    SnocInit(cs, c);
    PathsDistinct(cs);
    if c.filePath in Paths(cs) {
      var j :| 0 <= j < |Paths(cs)| && Paths(cs)[j] == c.filePath;
      SnocPresent(cs, c, j);
    } else {
      SnocAbsent(cs, c);
    }
  }

  lemma SnocPresent(cs: seq<Comment>, c: Comment, j: nat)
    requires (cs + [c])[..|cs + [c]| - 1] == cs
    requires Distinct(Paths(cs))
    requires j < |Paths(cs)| && Paths(cs)[j] == c.filePath
    ensures Groups(cs + [c]) == MapSet(Groups(cs), c.filePath, OfPath(cs, c.filePath) + [c])
    ensures MapGet(Groups(cs), c.filePath) == Some(OfPath(cs, c.filePath))
  {
    var m, ps, p := Groups(cs), Paths(cs), c.filePath;
    var cs' := cs + [c];
    assert Paths(cs') == ps;
    assert m[j].path == p;
    assert KeyIndex(m, p) == Some(j);
    var lhs, rhs := Groups(cs'), m[j := Group(p, OfPath(cs, p) + [c])];
    assert |lhs| == |rhs|;
    forall k | 0 <= k < |lhs| ensures lhs[k] == rhs[k] {
      assert OfPath(cs', ps[k]) == OfPath(cs, ps[k]) + (if ps[k] == p then [c] else []);
      if k != j {
        assert ps[k] != p;
      }
    }
  }

  lemma SnocAbsent(cs: seq<Comment>, c: Comment)
    requires (cs + [c])[..|cs + [c]| - 1] == cs
    requires c.filePath !in Paths(cs)
    ensures Groups(cs + [c]) == MapSet(Groups(cs), c.filePath, [c])
    ensures MapGet(Groups(cs), c.filePath) == None
  {
    var m, ps, p := Groups(cs), Paths(cs), c.filePath;
    var cs' := cs + [c];
    assert Paths(cs') == ps + [p];
    assert KeyIndex(m, p) == None;
    OfPathAbsent(cs, p);
    var lhs, rhs := Groups(cs'), m + [Group(p, [c])];
    assert |lhs| == |rhs|;
    forall k | 0 <= k < |lhs| ensures lhs[k] == rhs[k] {
      if k < |ps| {
        assert ps[k] != p;
        assert OfPath(cs', ps[k]) == OfPath(cs, ps[k]);
      } else {
        assert OfPath(cs', p) == OfPath(cs, p) + [c];
      }
    }
  }

  // ---------------------------------------------------------------------------
  // What the grouping promises
  // ---------------------------------------------------------------------------

  /** A comment is in its path's group exactly when it is a comment on that path. */
  lemma {:induction false} OfPathMembers(cs: seq<Comment>, p: string)
    ensures forall c :: c in OfPath(cs, p) <==> c in cs && c.filePath == p
  {
    if cs != [] {
      var init := cs[..|cs| - 1];
      OfPathMembers(init, p);
      assert cs == init + [cs[|cs| - 1]];
    }
  }

  /** Every comment of a path's group is on that path. */
  lemma OfPathOnPath(cs: seq<Comment>, p: string)
    ensures forall k :: 0 <= k < |OfPath(cs, p)| ==> OfPath(cs, p)[k].filePath == p
  {
    OfPathMembers(cs, p);
    forall k | 0 <= k < |OfPath(cs, p)| ensures OfPath(cs, p)[k].filePath == p {
      assert OfPath(cs, p)[k] in OfPath(cs, p);
    }
  }

  /** Filtering keeps input order: the group of `a + b` is the group of `a` followed by that of `b`. */
  lemma {:induction false} OfPathAppend(a: seq<Comment>, b: seq<Comment>, p: string)
    ensures OfPath(a + b, p) == OfPath(a, p) + OfPath(b, p)
  {
    if b == [] {
      assert a + b == a;
    } else {
      var init := b[..|b| - 1];
      OfPathAppend(a, init, p);
      assert (a + b)[..|a + b| - 1] == a + init;
    }
  }

  /** No group is empty. */
  lemma GroupsNonEmpty(cs: seq<Comment>)
    ensures forall k :: 0 <= k < |Groups(cs)| ==> Groups(cs)[k].comments != []
  {
    PathsMembers(cs);
    forall k | 0 <= k < |Groups(cs)| ensures Groups(cs)[k].comments != [] {
      var p := Paths(cs)[k];
      assert p in Paths(cs);
      var c :| c in cs && c.filePath == p;
      OfPathMembers(cs, p);
      assert c in Groups(cs)[k].comments;
    }
  }

  /** There is one group per distinct file path. */
  lemma GroupsCount(cs: seq<Comment>)
    ensures |Groups(cs)| == |set c | c in cs :: c.filePath|
  {
    PathsMembers(cs);
    PathsDistinct(cs);
    var ps := Paths(cs);
    assert (set c | c in cs :: c.filePath) == (set p | p in ps);
    DistinctCard(ps);
  }

  lemma {:induction false} DistinctCard<T>(s: seq<T>)
    requires Distinct(s)
    ensures |set x | x in s| == |s|
  {
    if s != [] {
      var init, last := s[..|s| - 1], s[|s| - 1];
      DistinctCard(init);
      assert (set x | x in s) == (set x | x in init) + {last};
      assert last !in (set x | x in init);
    }
  }

  /** The index of the first comment on `p`. */
  function FirstOn(cs: seq<Comment>, p: string): Option<nat> {
    FindIndex(cs, (c: Comment) => c.filePath == p)
  }

  lemma FirstOnAt(cs: seq<Comment>, p: string, i: nat)
    requires i < |cs| && cs[i].filePath == p
    requires forall k :: 0 <= k < i ==> cs[k].filePath != p
    ensures FirstOn(cs, p) == Some(i)
  {
    var r := FirstOn(cs, p);
    assert r.Some?;
    assert !(r.value < i);
  }

  lemma FirstOnExtend(cs: seq<Comment>, c: Comment, p: string)
    requires exists d :: d in cs && d.filePath == p
    ensures FirstOn(cs + [c], p) == FirstOn(cs, p)
  {
    var d :| d in cs && d.filePath == p;
    var r := FirstOn(cs, p);
    assert r.Some?;
    FirstOnAt(cs + [c], p, r.value);
  }

  /** Groups come in the order of the first comment on each path. */
  lemma {:induction false} GroupsOrder(cs: seq<Comment>, a: nat, b: nat)
    requires a < b < |Groups(cs)|
    ensures FirstOn(cs, Groups(cs)[a].path).Some? && FirstOn(cs, Groups(cs)[b].path).Some?
    ensures FirstOn(cs, Groups(cs)[a].path).value < FirstOn(cs, Groups(cs)[b].path).value
  {
    var init, c := cs[..|cs| - 1], cs[|cs| - 1];
    assert cs == init + [c];
    var ps, ps' := Paths(cs), Paths(init);
    PathsMembers(init);
    assert ps'[a] in ps';
    if b < |ps'| {
      assert ps'[b] in ps';
      GroupsOrder(init, a, b);
      FirstOnExtend(init, c, ps'[a]);
      FirstOnExtend(init, c, ps'[b]);
    } else {
      assert ps == ps' + [c.filePath] && b == |ps'|;
      FirstOnExtend(init, c, ps'[a]);
      assert FirstOn(cs, c.filePath) == Some(|init|) by {
        FirstOnAt(cs, c.filePath, |init|);
      }
    }
  }

  lemma {:induction false} FlattenSnoc(gs: seq<Group>, g: Group)
    ensures Flatten(gs + [g]) == Flatten(gs) + g.comments
  {
    if gs != [] {
      FlattenSnoc(gs[1..], g);
      assert (gs + [g])[1..] == gs[1..] + [g];
    }
  }

  lemma {:induction false} FlattenSplit(gs: seq<Group>, j: nat)
    requires j < |gs|
    ensures Flatten(gs) == Flatten(gs[..j]) + gs[j].comments + Flatten(gs[j + 1..])
  {
    if j == 0 {
      assert gs[..0] == [];
    } else {
      FlattenSplit(gs[1..], j - 1);
      assert gs[..j][1..] == gs[1..][..j - 1];
      assert gs[1..][j - 1 + 1..] == gs[j + 1..];
      assert gs[..j][0] == gs[0];
    }
  }

  /** Every comment lands in exactly one group, and nothing else does: the groups partition the input. */
  lemma {:induction false} GroupsPartition(cs: seq<Comment>)
    ensures multiset(Flatten(Groups(cs))) == multiset(cs)
  {
    if cs != [] {
      var init, c := cs[..|cs| - 1], cs[|cs| - 1];
      assert cs == init + [c];
      GroupsPartition(init);
      GroupsSnoc(init, c);
      PushMultiset(Groups(init), c);
    }
  }

  /** One `get`, `push`, `set` round adds exactly the pushed comment to the map's contents. */
  lemma PushMultiset(m: seq<Group>, c: Comment)
    ensures multiset(Flatten(MapSet(m, c.filePath,
              (match MapGet(m, c.filePath) case Some(v) => v case None => []) + [c])))
         == multiset(Flatten(m)) + multiset{c}
  {
    match KeyIndex(m, c.filePath)
    case None =>
      assert MapGet(m, c.filePath) == None;
      var e: seq<Comment> := [];
      assert e + [c] == [c];
      assert MapSet(m, c.filePath, [c]) == m + [Group(c.filePath, [c])];
      FlattenSnoc(m, Group(c.filePath, [c]));
    case Some(j) =>
      assert MapGet(m, c.filePath) == Some(m[j].comments);
      PushExisting(m, j, c);
  }

  lemma PushExisting(m: seq<Group>, j: nat, c: Comment)
    requires j < |m|
    ensures multiset(Flatten(m[j := Group(c.filePath, m[j].comments + [c])])) == multiset(Flatten(m)) + multiset{c}
  {
    var g := Group(c.filePath, m[j].comments + [c]);
    var m' := m[j := g];
    FlattenSplit(m, j);
    FlattenSplit(m', j);
    assert m'[..j] == m[..j];
    assert m'[j + 1..] == m[j + 1..];
  }
}
