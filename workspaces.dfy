/**
 * Saved workspaces: one entry per worktree, kept in browser storage as a list.
 * The storage item is modelled as an already-parsed value; the timestamps are
 * integers and the current time and the 30-day cutoff are parameters.
 */
module Workspaces {
  import opened Js
  import opened Model

  datatype Workspace = Workspace(
    id: string,
    worktreePath: string,
    branch: string,
    review: Option<Review>,
    lastAccessed: int)

  /**
   * The storage item: absent (or empty), text `JSON.parse` rejects, text that parses
   * to a value that is not a list (`{}`, `null`, `5`), or the list of saved workspaces.
   */
  datatype Stored = Missing | Malformed | NotAList | Entries(entries: seq<Workspace>)

  /** A call that either throws or returns a value. */
  datatype Outcome<T> = Throws | Returns(value: T)

  // ---------------------------------------------------------------------------
  // Base64 (section 4 of RFC 4648), as `btoa` applies it to a string's code units
  // ---------------------------------------------------------------------------

  predicate IsByte(b: int) {
    0 <= b < 256
  }

  predicate AllBytes(bs: seq<int>) {
    forall k :: 0 <= k < |bs| ==> IsByte(bs[k])
  }

  /** The Base64 alphabet: `A`-`Z`, `a`-`z`, `0`-`9`, `+`, `/`. */
  function Sym(v: nat): (c: char)
    requires v < 64
    ensures IsAsciiAlnum(c) <==> v < 62
  {
    if v < 26 then ('A' as int + v) as char
    else if v < 52 then ('a' as int + v - 26) as char
    else if v < 62 then ('0' as int + v - 52) as char
    else if v == 62 then '+'
    else '/'
  }

  /** The value of an alphabet symbol; `=` and everything else have none. */
  function SymValue(c: char): Option<nat> {
    if 'A' <= c <= 'Z' then Some(c as int - 'A' as int)
    else if 'a' <= c <= 'z' then Some(c as int - 'a' as int + 26)
    else if '0' <= c <= '9' then Some(c as int - '0' as int + 52)
    else if c == '+' then Some(62)
    else if c == '/' then Some(63)
    else None
  }

  lemma SymValueOf(v: nat)
    requires v < 64
    ensures SymValue(Sym(v)) == Some(v)
  {
  }

  /** One group of four symbols for `n` (1 to 3) bytes; missing bytes are zero and missing symbols are `=`. */
  function Quad(b0: int, b1: int, b2: int, n: nat): (q: string)
    requires IsByte(b0) && IsByte(b1) && IsByte(b2) && 1 <= n <= 3
    ensures |q| == 4
  {
    [ Sym(b0 / 4),
      Sym((b0 % 4) * 16 + b1 / 16),
      if n >= 2 then Sym((b1 % 16) * 4 + b2 / 64) else '=',
      if n == 3 then Sym(b2 % 64) else '=' ]
  }

  /** `btoa` on bytes: three bytes to four symbols, the last group padded with `=`. */
  function Encode(bs: seq<int>): (s: string)
    requires AllBytes(bs)
    ensures |s| == 4 * ((|bs| + 2) / 3)
    decreases |bs|
  {
    if |bs| == 0 then []
    else if |bs| == 1 then Quad(bs[0], 0, 0, 1)
    else if |bs| == 2 then Quad(bs[0], bs[1], 0, 2)
    else
      assert AllBytes(bs[3..]) by {
        forall k | 0 <= k < |bs[3..]| ensures IsByte(bs[3..][k]) {
          assert bs[3..][k] == bs[k + 3];
        }
      }
      assert (|bs| + 2) / 3 == (|bs[3..]| + 2) / 3 + 1;
      Quad(bs[0], bs[1], bs[2], 3) + Encode(bs[3..])
  }

  /** Reads one group of four symbols back into one to three bytes. */
  function DecodeQuad(q: string): Option<seq<int>>
    requires |q| == 4
  {
    var v0, v1, v2, v3 := SymValue(q[0]), SymValue(q[1]), SymValue(q[2]), SymValue(q[3]);
    if v0.None? || v1.None? then None
    else
      var b0 := v0.value * 4 + v1.value / 16;
      if q[2] == '=' && q[3] == '=' then Some([b0])
      else if v2.None? then None
      else
        var b1 := (v1.value % 16) * 16 + v2.value / 4;
        if q[3] == '=' then Some([b0, b1])
        else if v3.None? then None
        else Some([b0, b1, (v2.value % 4) * 64 + v3.value])
  }

  /** Base64 decoding, group by group; only the last group may be padded. */
  function Decode(s: string): Option<seq<int>>
    decreases |s|
  {
    if |s| == 0 then Some([])
    else if |s| < 4 then None
    else
      var head := DecodeQuad(s[..4]);
      if head.None? then None
      else if |head.value| < 3 then (if |s| == 4 then head else None)
      else
        var tail := Decode(s[4..]);
        if tail.None? then None else Some(head.value + tail.value)
  }

  lemma Split4(a: int, x: int)
    requires 0 <= x < 4
    ensures (a * 4 + x) / 4 == a && (a * 4 + x) % 4 == x
  {
  }

  lemma Split16(a: int, x: int)
    requires 0 <= x < 16
    ensures (a * 16 + x) / 16 == a && (a * 16 + x) % 16 == x
  {
  }

  lemma Split64(a: int, x: int)
    requires 0 <= x < 64
    ensures (a * 64 + x) / 64 == a && (a * 64 + x) % 64 == x
  {
  }

  /** The symbol values of a group give its bytes back. */
  lemma QuadArithmetic(b0: int, b1: int, b2: int)
    requires IsByte(b0) && IsByte(b1) && IsByte(b2)
    ensures (b0 / 4) * 4 + ((b0 % 4) * 16 + b1 / 16) / 16 == b0
    ensures (((b0 % 4) * 16 + b1 / 16) % 16) * 16 + ((b1 % 16) * 4 + b2 / 64) / 4 == b1
    ensures (((b1 % 16) * 4 + b2 / 64) % 4) * 64 + b2 % 64 == b2
  {
    Split16(b0 % 4, b1 / 16);
    Split4(b1 % 16, b2 / 64);
  }

  lemma QuadRoundTrip(b0: int, b1: int, b2: int, n: nat)
    requires IsByte(b0) && IsByte(b1) && IsByte(b2) && 1 <= n <= 3
    requires n < 2 ==> b1 == 0
    requires n < 3 ==> b2 == 0
    ensures DecodeQuad(Quad(b0, b1, b2, n)) == Some(if n == 1 then [b0] else if n == 2 then [b0, b1] else [b0, b1, b2])
  {
    var c0, c1 := b0 / 4, (b0 % 4) * 16 + b1 / 16;
    var c2, c3 := (b1 % 16) * 4 + b2 / 64, b2 % 64;
    QuadArithmetic(b0, b1, b2);
    SymValueOf(c0);
    SymValueOf(c1);
    var q := Quad(b0, b1, b2, n);
    assert q[0] == Sym(c0) && q[1] == Sym(c1);
    if n == 1 {
      assert q[2] == '=' && q[3] == '=';
    } else if n == 2 {
      SymValueOf(c2);
      assert q[2] == Sym(c2) && q[3] == '=';
    } else {
      SymValueOf(c2);
      SymValueOf(c3);
      assert q[2] == Sym(c2) && q[3] == Sym(c3);
      assert q[2] != '=' && q[3] != '=';
      assert DecodeQuad(q) == Some([c0 * 4 + c1 / 16, (c1 % 16) * 16 + c2 / 4, (c2 % 4) * 64 + c3]);
    }
  }

  lemma DecodeLast(q: string)
    requires |q| == 4
    requires DecodeQuad(q).Some?
    ensures Decode(q) == DecodeQuad(q)
  {
    assert q[..4] == q;
    assert q[4..] == [];
    assert DecodeQuad(q).value + [] == DecodeQuad(q).value;
  }

  lemma DecodeCons(q: string, rest: string, bs: seq<int>, more: seq<int>)
    requires |q| == 4
    requires DecodeQuad(q) == Some(bs) && |bs| == 3
    requires Decode(rest) == Some(more)
    ensures Decode(q + rest) == Some(bs + more)
  {
    var s := q + rest;
    assert s[..4] == q;
    assert s[4..] == rest;
  }

  /** The last, padded group of an encoding. */
  lemma ShortRoundTrip(bs: seq<int>)
    requires AllBytes(bs) && 1 <= |bs| <= 2
    ensures Decode(Encode(bs)) == Some(bs)
  {
    if |bs| == 1 {
      QuadRoundTrip(bs[0], 0, 0, 1);
      DecodeLast(Quad(bs[0], 0, 0, 1));
      assert [bs[0]] == bs;
    } else {
      QuadRoundTrip(bs[0], bs[1], 0, 2);
      DecodeLast(Quad(bs[0], bs[1], 0, 2));
      assert [bs[0], bs[1]] == bs;
    }
  }

  /** Decoding an encoding gives the bytes back. */
  lemma {:induction false} EncodeRoundTrip(bs: seq<int>)
    requires AllBytes(bs)
    ensures Decode(Encode(bs)) == Some(bs)
    decreases |bs|
  {
    if 1 <= |bs| <= 2 {
      ShortRoundTrip(bs);
    } else if |bs| >= 3 {
      var q, rest := Quad(bs[0], bs[1], bs[2], 3), Encode(bs[3..]);
      QuadRoundTrip(bs[0], bs[1], bs[2], 3);
      EncodeRoundTrip(bs[3..]);
      DecodeCons(q, rest, [bs[0], bs[1], bs[2]], bs[3..]);
      assert [bs[0], bs[1], bs[2]] + bs[3..] == bs;
    }
  }

  /** Distinct byte strings have distinct encodings. */
  lemma EncodeInjective(a: seq<int>, b: seq<int>)
    requires AllBytes(a) && AllBytes(b)
    requires Encode(a) == Encode(b)
    ensures a == b
  {
    EncodeRoundTrip(a);
    EncodeRoundTrip(b);
  }

  /** An encoding holds alphabet symbols and `=` only. */
  lemma {:induction false} EncodeSymbols(bs: seq<int>)
    requires AllBytes(bs)
    ensures forall k :: 0 <= k < |Encode(bs)| ==> IsAsciiAlnum(Encode(bs)[k]) || Encode(bs)[k] in "+/="
    decreases |bs|
  {
    if |bs| >= 3 {
      EncodeSymbols(bs[3..]);
      var q, rest := Quad(bs[0], bs[1], bs[2], 3), Encode(bs[3..]);
      forall k | 0 <= k < |q + rest|
        ensures IsAsciiAlnum((q + rest)[k]) || (q + rest)[k] in "+/="
      {
        if k >= 4 {
          assert (q + rest)[k] == rest[k - 4];
        }
      }
    }
  }

  /** `btoa` reads a string as bytes, one per code unit, and fails on a code unit above 255. */
  function Latin1(s: string): (r: Option<seq<int>>)
    ensures r.Some? ==> |r.value| == |s| && AllBytes(r.value)
    ensures r.Some? ==> forall k :: 0 <= k < |s| ==> r.value[k] == s[k] as int
    ensures r.None? <==> exists k :: 0 <= k < |s| && s[k] as int >= 256
  {
    if forall k :: 0 <= k < |s| ==> s[k] as int < 256
    then Some(seq(|s|, k requires 0 <= k < |s| => s[k] as int))
    else None
  }

  /**
   * `btoa(path).replace(/[^a-zA-Z0-9]/g, '')`: the Base64 text of the path with `+`,
   * `/` and `=` removed. A path with a code unit above 255 makes `btoa` fail.
   */
  function GetWorkspaceId(worktreePath: string): (r: Option<string>)
    ensures r.Some? ==> forall k :: 0 <= k < |r.value| ==> IsAsciiAlnum(r.value[k])
    ensures r.None? <==> exists k :: 0 <= k < |worktreePath| && worktreePath[k] as int >= 256
  {
    match Latin1(worktreePath)
    case None => None
    case Some(bs) => Some(KeepAlnum(Encode(bs)))
  }

  /**
   * The id keeps every letter and digit of the Base64 text, in order, and drops only
   * `+`, `/` and `=`.
   */
  lemma IdOfEncoding(worktreePath: string)
    requires Latin1(worktreePath).Some?
    ensures GetWorkspaceId(worktreePath) == Some(KeepAlnum(Encode(Latin1(worktreePath).value)))
    ensures forall c :: c in Encode(Latin1(worktreePath).value) && c !in GetWorkspaceId(worktreePath).value ==> c in "+/="
  {
    EncodeSymbols(Latin1(worktreePath).value);
  }

  /**
   * Dropping `+` and `/` loses information: two different paths can share an id,
   * since `ab>` encodes to `YWI+` and `ab?` to `YWI/`.
   */
  lemma IdsCanCollide()
    ensures "ab>" != "ab?"
    ensures GetWorkspaceId("ab>") == GetWorkspaceId("ab?") == Some("YWI")
  {
    IdOfThree('>', 62, '+');
    IdOfThree('?', 63, '/');
  }

  /** The id of `ab` followed by `c`, whose code `v` encodes to the non-alphanumeric symbol `s`. */
  lemma IdOfThree(c: char, v: int, s: char)
    requires 62 <= v < 64 && c as int == v && s == Sym(v)
    ensures GetWorkspaceId(['a', 'b', c]) == Some("YWI")
  {
    var path := ['a', 'b', c];
    assert Latin1(path).value == [97, 98, v];
    EncodeThree(v, s);
    KeepAlnumThree(s);
  }

  lemma EncodeThree(v: int, s: char)
    requires 62 <= v < 64 && s == Sym(v)
    ensures Encode([97, 98, v]) == ['Y', 'W', 'I', s]
  {
    assert [97, 98, v][3..] == [];
  }

  lemma KeepAlnumThree(s: char)
    requires s == '+' || s == '/'
    ensures KeepAlnum(['Y', 'W', 'I', s]) == "YWI"
  {
    assert KeepAlnum([s]) == [];
    assert KeepAlnum(['I', s]) == ['I'];
    assert KeepAlnum(['W', 'I', s]) == ['W', 'I'];
  }

  // ---------------------------------------------------------------------------
  // The saved list
  // ---------------------------------------------------------------------------

  /**
   * `loadAllWorkspaces`: the stored list, or an empty one when the item is missing or
   * `JSON.parse` rejects it. A parsed value that is not a list is handed back as it is;
   * it is `None` here, since every caller then throws at its first list method.
   */
  function LoadAll(stored: Stored): (r: Option<seq<Workspace>>)
    ensures r.None? <==> stored.NotAList?
    ensures stored.Entries? ==> r == Some(stored.entries)
    ensures stored.Missing? || stored.Malformed? ==> r == Some([])
  {
    match stored
    case Missing => Some([])
    case Malformed => Some([])
    case NotAList => None
    case Entries(entries) => Some(entries)
  }

  /** `workspaces.find(w => w.worktreePath === path) || null`. */
  function LoadWorkspace(ws: seq<Workspace>, worktreePath: string): (r: Option<Workspace>)
    ensures r.Some? ==> r.value in ws && r.value.worktreePath == worktreePath
    ensures r.None? <==> forall k :: 0 <= k < |ws| ==> ws[k].worktreePath != worktreePath
  {
    Find(ws, (w: Workspace) => w.worktreePath == worktreePath)
  }

  /**
   * `loadWorkspace`: the lookup in the loaded list; it throws (nothing catches it)
   * when the stored value is not a list.
   */
  function LoadStoredWorkspace(stored: Stored, worktreePath: string): (r: Outcome<Option<Workspace>>)
    ensures r.Throws? <==> stored.NotAList?
    ensures stored.Entries? ==> r == Returns(LoadWorkspace(stored.entries, worktreePath))
    ensures stored.Missing? || stored.Malformed? ==> r == Returns(None)
  {
    match LoadAll(stored)
    case None => Throws
    case Some(ws) => Returns(LoadWorkspace(ws, worktreePath))
  }

  /** The workspace found for a path is the first one saved for it. */
  lemma LoadWorkspaceFirst(ws: seq<Workspace>, worktreePath: string, i: nat)
    requires i < |ws| && ws[i].worktreePath == worktreePath
    requires forall k :: 0 <= k < i ==> ws[k].worktreePath != worktreePath
    ensures LoadWorkspace(ws, worktreePath) == Some(ws[i])
  {
    var r := FindIndex(ws, (w: Workspace) => w.worktreePath == worktreePath);
    assert r.Some?;
    assert !(r.value < i);
  }

  /** `workspaces.findIndex(w => w.id === id)`. */
  function IndexOfId(ws: seq<Workspace>, id: string): Option<nat> {
    FindIndex(ws, (w: Workspace) => w.id == id)
  }

  /**
   * The list after saving `saved`: the first entry with its id is replaced and the
   * length kept, or, when no entry has that id, it is appended; nothing else changes.
   */
  function Upsert(ws: seq<Workspace>, saved: Workspace): (r: seq<Workspace>)
    ensures IndexOfId(ws, saved.id).Some? ==>
      var i := IndexOfId(ws, saved.id).value;
      |r| == |ws| && r[i] == saved && forall k :: 0 <= k < |ws| && k != i ==> r[k] == ws[k]
    ensures IndexOfId(ws, saved.id).None? ==> |r| == |ws| + 1 && r[..|ws|] == ws && r[|ws|] == saved
  {
    match IndexOfId(ws, saved.id)
    case Some(i) => ws[i := saved]
    case None => ws + [saved]
  }

  /** After a save, looking the id up finds the saved workspace. */
  lemma SavedFoundById(ws: seq<Workspace>, saved: Workspace)
    ensures IndexOfId(Upsert(ws, saved), saved.id).Some?
    ensures Upsert(ws, saved)[IndexOfId(Upsert(ws, saved), saved.id).value] == saved
  {
    var r := Upsert(ws, saved);
    var i := if IndexOfId(ws, saved.id).Some? then IndexOfId(ws, saved.id).value else |ws|;
    assert r[i] == saved;
    forall k | 0 <= k < i
      ensures r[k].id != saved.id
    {
      assert r[k] == ws[k];
    }
    var j := IndexOfId(r, saved.id);
    assert j.Some?;
    assert !(j.value < i);
  }

  /** Saving the same workspace twice leaves the list as one save does. */
  lemma UpsertIdempotent(ws: seq<Workspace>, saved: Workspace)
    ensures Upsert(Upsert(ws, saved), saved) == Upsert(ws, saved)
  {
    SavedFoundById(ws, saved);
    var r := Upsert(ws, saved);
    var j := IndexOfId(r, saved.id).value;
    assert r[j := saved] == r;
  }

  /** `workspaces.filter(w => w.id !== id)`. */
  function DeleteWorkspace(ws: seq<Workspace>, id: string): (r: seq<Workspace>)
    ensures |r| <= |ws|
    ensures forall w :: w in r <==> w in ws && w.id != id
  {
    FilterMembers((w: Workspace) => w.id != id, ws);
    Filter((w: Workspace) => w.id != id, ws)
  }

  /** Deleting keeps the order of what stays. */
  lemma DeleteWorkspaceAppend(a: seq<Workspace>, b: seq<Workspace>, id: string)
    ensures DeleteWorkspace(a + b, id) == DeleteWorkspace(a, id) + DeleteWorkspace(b, id)
  {
    FilterAppend((w: Workspace) => w.id != id, a, b);
  }

  /** After a delete no entry has the id, so a save of that id appends. */
  lemma DeleteThenSaveAppends(ws: seq<Workspace>, saved: Workspace)
    ensures IndexOfId(DeleteWorkspace(ws, saved.id), saved.id).None?
  {
    var r := DeleteWorkspace(ws, saved.id);
    forall k | 0 <= k < |r|
      ensures r[k].id != saved.id
    {
      assert r[k] in r;
    }
  }

  /** `workspaces.filter(w => lastAccessed > cutoff)`: strictly newer than the cutoff. */
  function CleanupOldWorkspaces(ws: seq<Workspace>, cutoff: int): (r: seq<Workspace>)
    ensures |r| <= |ws|
    ensures forall w :: w in r <==> w in ws && w.lastAccessed > cutoff
  {
    FilterMembers((w: Workspace) => w.lastAccessed > cutoff, ws);
    Filter((w: Workspace) => w.lastAccessed > cutoff, ws)
  }

  /** The cleanup keeps the order of what stays, and a second cleanup with the same cutoff changes nothing. */
  lemma CleanupOrderAndIdempotent(a: seq<Workspace>, b: seq<Workspace>, cutoff: int)
    ensures CleanupOldWorkspaces(a + b, cutoff) == CleanupOldWorkspaces(a, cutoff) + CleanupOldWorkspaces(b, cutoff)
    ensures CleanupOldWorkspaces(CleanupOldWorkspaces(a, cutoff), cutoff) == CleanupOldWorkspaces(a, cutoff)
  {
    var p := (w: Workspace) => w.lastAccessed > cutoff;
    FilterAppend(p, a, b);
    FilterPasses(p, a);
    FilterAll(p, Filter(p, a));
  }

  // ---------------------------------------------------------------------------
  // The storage
  // ---------------------------------------------------------------------------

  class WorkspaceStore {
    var stored: Stored
    var currentWorkspaceId: Option<string>

    constructor(stored: Stored)
      ensures this.stored == stored && currentWorkspaceId.None?
    {
      this.stored := stored;
      currentWorkspaceId := None;
    }

    /**
     * `saveWorkspace`: stamps the workspace with the current time, then replaces the
     * first saved entry with its id or appends it, and writes the list back. When the
     * stored value is not a list, `findIndex` throws, the error is only logged, and the
     * storage keeps its old value.
     */
    method SaveWorkspace(w: Workspace, now: int)
      modifies this
      ensures old(stored).NotAList? ==> stored == old(stored)
      ensures !old(stored).NotAList? ==>
        stored == Entries(Upsert(LoadAll(old(stored)).value, w.(lastAccessed := now)))
      ensures currentWorkspaceId == old(currentWorkspaceId)
    {
      var loaded := LoadAll(stored);
      if loaded.None? {
        return;
      }
      var workspaces := loaded.value;
      var index := IndexOfId(workspaces, w.id);
      var saved := w.(lastAccessed := now);
      if index.Some? {
        workspaces := workspaces[index.value := saved];
      } else {
        workspaces := workspaces + [saved];
      }
      stored := Entries(workspaces);
    }

    /**
     * `deleteWorkspace`: writes back the list without the entries with the id; a stored
     * value that is not a list makes `filter` throw, and the storage is kept.
     */
    method DeleteWorkspaceById(id: string)
      modifies this
      ensures old(stored).NotAList? ==> stored == old(stored)
      ensures !old(stored).NotAList? ==> stored == Entries(DeleteWorkspace(LoadAll(old(stored)).value, id))
      ensures currentWorkspaceId == old(currentWorkspaceId)
    {
      var loaded := LoadAll(stored);
      if loaded.Some? {
        stored := Entries(DeleteWorkspace(loaded.value, id));
      }
    }

    /**
     * `cleanupOldWorkspaces`: writes back the entries accessed after the cutoff; a stored
     * value that is not a list makes `filter` throw, and the storage is kept.
     */
    method CleanupOld(cutoff: int)
      modifies this
      ensures old(stored).NotAList? ==> stored == old(stored)
      ensures !old(stored).NotAList? ==>
        stored == Entries(CleanupOldWorkspaces(LoadAll(old(stored)).value, cutoff))
      ensures currentWorkspaceId == old(currentWorkspaceId)
    {
      var loaded := LoadAll(stored);
      if loaded.Some? {
        stored := Entries(CleanupOldWorkspaces(loaded.value, cutoff));
      }
    }

    method SetCurrentWorkspaceId(id: string)
      modifies this
      ensures currentWorkspaceId == Some(id) && stored == old(stored)
    {
      currentWorkspaceId := Some(id);
    }
  }
}
