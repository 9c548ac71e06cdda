/**
 * JavaScript values and string operations, with the meaning the language gives them.
 * Every other module reads optional fields, `||`, `trim`, `split`, `join`,
 * `replace`, `includes`, `startsWith` and number-to-text conversion through here,
 * so that one resolution rule is used everywhere.
 */
module Js {

  datatype Option<+T> = None | Some(value: T)

  // ---------------------------------------------------------------------------
  // Truthiness and `||`
  // ---------------------------------------------------------------------------

  /** Truthiness of an optional number: `undefined` and `0` are falsy. */
  predicate TruthyNum(x: Option<int>) {
    x.Some? && x.value != 0
  }

  /** Truthiness of an optional string: `undefined` and `""` are falsy. */
  predicate TruthyStr(x: Option<string>) {
    x.Some? && x.value != ""
  }

  /** `a || b` on optional numbers: `b` whenever `a` is `undefined` or `0`. */
  function OrNum(a: Option<int>, b: Option<int>): Option<int> {
    if TruthyNum(a) then a else b
  }

  /** `a || b` on optional strings: `b` whenever `a` is `undefined` or `""`. */
  function OrStr(a: Option<string>, b: Option<string>): Option<string> {
    if TruthyStr(a) then a else b
  }

  /** `a || "literal"`: the result is always a string. */
  function OrElse(a: Option<string>, b: string): string {
    if TruthyStr(a) then a.value else b
  }

  /** A destructuring default `{ x = d }`: only `undefined` is replaced. */
  function Default(a: Option<string>, d: string): string {
    if a.Some? then a.value else d
  }

  // ---------------------------------------------------------------------------
  // Array.prototype.findIndex / find
  // ---------------------------------------------------------------------------

  /** `s.findIndex(p)`, with `None` for -1: the first index whose element satisfies `p`. */
  function FindIndex<T>(s: seq<T>, p: T -> bool): (r: Option<nat>)
    ensures r.Some? ==> r.value < |s| && p(s[r.value]) && forall k :: 0 <= k < r.value ==> !p(s[k])
    ensures r.None? ==> forall k :: 0 <= k < |s| ==> !p(s[k])
  {
    if s == [] then None
    else if p(s[0]) then Some(0)
    else match FindIndex(s[1..], p)
      case None => None
      case Some(i) => Some(i + 1)
  }

  /** `s.find(p)`: the first element satisfying `p`. */
  function Find<T>(s: seq<T>, p: T -> bool): (r: Option<T>)
    ensures r.Some? ==> r.value in s && p(r.value)
    ensures r.Some? ==> exists i :: 0 <= i < |s| && s[i] == r.value && forall k :: 0 <= k < i ==> !p(s[k])
    ensures r.None? ==> forall k :: 0 <= k < |s| ==> !p(s[k])
  {
    match FindIndex(s, p)
    case None => None
    case Some(i) => Some(s[i])
  }

  lemma OrNumTruthy(a: Option<int>, b: Option<int>)
    ensures TruthyNum(OrNum(a, b)) <==> TruthyNum(a) || TruthyNum(b)
  {
  }

  // ---------------------------------------------------------------------------
  // String.prototype.trim
  // ---------------------------------------------------------------------------

  /** The WhiteSpace and LineTerminator code points that `trim` removes. */
  predicate IsWhite(c: char) {
    || c == ' ' || c == '\t' || c == '\n' || c == '\r'
    || c == '\U{000B}' || c == '\U{000C}' || c == '\U{00A0}' || c == '\U{1680}'
    || ('\U{2000}' <= c <= '\U{200A}')
    || c == '\U{2028}' || c == '\U{2029}' || c == '\U{202F}' || c == '\U{205F}'
    || c == '\U{3000}' || c == '\U{FEFF}'
  }

  predicate AllWhite(s: string) {
    forall k :: 0 <= k < |s| ==> IsWhite(s[k])
  }

  /** The number of white-space characters at the front of `s`. */
  function LeadingWhite(s: string): (n: nat)
    ensures n <= |s|
    ensures forall k :: 0 <= k < n ==> IsWhite(s[k])
    ensures n < |s| ==> !IsWhite(s[n])
  {
    if s != [] && IsWhite(s[0]) then 1 + LeadingWhite(s[1..]) else 0
  }

  /** The number of white-space characters at the end of `s`. */
  function TrailingWhite(s: string): (n: nat)
    ensures n <= |s|
    ensures forall k :: |s| - n <= k < |s| ==> IsWhite(s[k])
    ensures n < |s| ==> !IsWhite(s[|s| - n - 1])
  {
    if s != [] && IsWhite(s[|s| - 1]) then 1 + TrailingWhite(s[..|s| - 1]) else 0
  }

  function TrimStart(s: string): (r: string)
    ensures |r| <= |s| && r == s[|s| - |r|..]
    ensures AllWhite(s[..|s| - |r|])
    ensures r != [] ==> !IsWhite(r[0])
  {
    s[LeadingWhite(s)..]
  }

  function TrimEnd(s: string): (r: string)
    ensures |r| <= |s| && r == s[..|r|]
    ensures AllWhite(s[|r|..])
    ensures r != [] ==> !IsWhite(r[|r| - 1])
  {
    s[..|s| - TrailingWhite(s)]
  }

  /**
   * `s.trim()`: the longest infix of `s` that neither starts nor ends with
   * white space. It is empty exactly when `s` is blank.
   */
  function Trim(s: string): (r: string)
    ensures r == [] <==> AllWhite(s)
    ensures r != [] ==> !IsWhite(r[0]) && !IsWhite(r[|r| - 1])
  {
    var t := TrimStart(s);
    TrimBlank(s, t);
    TrimEnd(t)
  }

  lemma TrimBlank(s: string, t: string)
    requires t == TrimStart(s)
    ensures TrimEnd(t) == [] <==> AllWhite(s)
  {
    var n := |s| - |t|;
    assert s == s[..n] + t;
    assert t[0..] == t;
    assert t != [] ==> t[0] == s[n];
  }

  // ---------------------------------------------------------------------------
  // split / join
  // ---------------------------------------------------------------------------

  /** `s.split(sep)` for a one-character separator: always at least one piece. */
  function Split(s: string, sep: char): (parts: seq<string>)
    ensures |parts| >= 1
    ensures forall k :: 0 <= k < |parts| ==> sep !in parts[k]
  {
    if s == [] then [[]]
    else
      var rest := Split(s[1..], sep);
      if s[0] == sep then [[]] + rest
      else [[s[0]] + rest[0]] + rest[1..]
  }

  /** One more element of a prefix. */
  lemma TakeSnoc<T>(s: seq<T>, i: nat)
    requires i < |s|
    ensures s[..i + 1] == s[..i] + [s[i]]
  {
  }

  lemma AppendAssoc(a: string, b: string, c: string)
    ensures (a + b) + c == a + (b + c)
  {
  }

  /** `xs.filter(p)`. */
  function Filter<T(!new)>(p: T -> bool, xs: seq<T>): (r: seq<T>)
    ensures |r| <= |xs|
  {
    if xs == [] then [] else (if p(xs[0]) then [xs[0]] else []) + Filter(p, xs[1..])
  }

  /** What a filter keeps: exactly the elements that pass it. */
  lemma {:induction false} FilterMembers<T(!new)>(p: T -> bool, xs: seq<T>)
    ensures forall x :: x in Filter(p, xs) <==> x in xs && p(x)
  {
    if xs != [] {
      FilterMembers(p, xs[1..]);
      assert xs == [xs[0]] + xs[1..];
    }
  }

  lemma FilterCons<T(!new)>(p: T -> bool, x: T, rest: seq<T>)
    ensures Filter(p, [x] + rest) == (if p(x) then [x] else []) + Filter(p, rest)
  {
    assert ([x] + rest)[0] == x;
    assert ([x] + rest)[1..] == rest;
  }

  /** A filter keeps the order of what stays: filtering a concatenation filters each part. */
  lemma {:induction false} FilterAppend<T(!new)>(p: T -> bool, xs: seq<T>, ys: seq<T>)
    ensures Filter(p, xs + ys) == Filter(p, xs) + Filter(p, ys)
  {
    if xs == [] {
      assert xs + ys == ys;
    } else {
      var x, rest := xs[0], xs[1..];
      var head := if p(x) then [x] else [];
      assert xs == [x] + rest;
      assert xs + ys == [x] + (rest + ys);
      FilterCons(p, x, rest + ys);
      FilterCons(p, x, rest);
      FilterAppend(p, rest, ys);
      assert head + (Filter(p, rest) + Filter(p, ys)) == (head + Filter(p, rest)) + Filter(p, ys);
    }
  }

  /** A filter that every element passes keeps the whole sequence. */
  lemma {:induction false} FilterAll<T(!new)>(p: T -> bool, xs: seq<T>)
    requires forall k :: 0 <= k < |xs| ==> p(xs[k])
    ensures Filter(p, xs) == xs
  {
    if xs != [] {
      FilterAll(p, xs[1..]);
      assert [xs[0]] + xs[1..] == xs;
    }
  }

  /** Every element of a filter's result passes it. */
  lemma FilterPasses<T(!new)>(p: T -> bool, xs: seq<T>)
    ensures forall k :: 0 <= k < |Filter(p, xs)| ==> p(Filter(p, xs)[k])
  {
    var r := Filter(p, xs);
    FilterMembers(p, xs);
    forall k | 0 <= k < |r|
      ensures p(r[k])
    {
      assert r[k] in r;
    }
  }

  /** The text a `forEach` loop builds with `markdown += f(x)`, element after element. */
  function ConcatMap<T>(f: T -> string, xs: seq<T>): string {
    if xs == [] then "" else ConcatMap(f, xs[..|xs| - 1]) + f(xs[|xs| - 1])
  }

  lemma ConcatMapSnoc<T>(f: T -> string, xs: seq<T>, x: T)
    ensures ConcatMap(f, xs + [x]) == ConcatMap(f, xs) + f(x)
  {
    assert (xs + [x])[..|xs + [x]| - 1] == xs;
  }

  /** The text of a concatenation is the text of its parts, one after the other. */
  lemma {:induction false} ConcatMapAppend<T>(f: T -> string, xs: seq<T>, ys: seq<T>)
    ensures ConcatMap(f, xs + ys) == ConcatMap(f, xs) + ConcatMap(f, ys)
  {
    if ys == [] {
      assert xs + ys == xs;
    } else {
      var init, last := ys[..|ys| - 1], ys[|ys| - 1];
      ConcatMapAppend(f, xs, init);
      var zs := xs + ys;
      assert zs[..|zs| - 1] == xs + init;
      assert zs[|zs| - 1] == last;
      AppendAssoc(ConcatMap(f, xs), ConcatMap(f, init), f(last));
    }
  }

  /** `parts.join(sep)`. */
  function Join(parts: seq<string>, sep: string): string {
    if |parts| == 0 then []
    else if |parts| == 1 then parts[0]
    else parts[0] + sep + Join(parts[1..], sep)
  }

  lemma JoinCons(p: string, parts: seq<string>, sep: string)
    requires |parts| >= 1
    ensures Join([p] + parts, sep) == p + sep + Join(parts, sep)
  {
    assert ([p] + parts)[1..] == parts;
  }

  /** Joining the pieces of a split with the same separator gives the text back. */
  lemma {:induction false} JoinSplit(s: string, sep: char)
    ensures Join(Split(s, sep), [sep]) == s
  {
    if s != [] {
      var rest := Split(s[1..], sep);
      JoinSplit(s[1..], sep);
      if s[0] == sep {
        JoinCons([], rest, [sep]);
        assert s == [sep] + s[1..];
      } else if |rest| == 1 {
        assert s == [s[0]] + s[1..];
      } else {
        JoinCons([s[0]] + rest[0], rest[1..], [sep]);
        JoinCons(rest[0], rest[1..], [sep]);
        assert [rest[0]] + rest[1..] == rest;
        assert s == [s[0]] + s[1..];
      }
    }
  }

  /** A text without the separator is one piece. */
  lemma {:induction false} SplitNoSep(x: string, sep: char)
    requires sep !in x
    ensures Split(x, sep) == [x]
  {
    if x != [] {
      SplitNoSep(x[1..], sep);
      assert x == [x[0]] + x[1..];
    }
  }

  /** Splitting at the first separator gives the text before it, then the pieces after it. */
  lemma {:induction false} SplitPrefix(x: string, sep: char, y: string)
    requires sep !in x
    ensures Split(x + [sep] + y, sep) == [x] + Split(y, sep)
  {
    var s := x + [sep] + y;
    if x == [] {
      assert s[1..] == y;
    } else {
      SplitPrefix(x[1..], sep, y);
      assert s[1..] == x[1..] + [sep] + y;
      assert x == [x[0]] + x[1..];
    }
  }

  /** Splitting a join of separator-free pieces gives the pieces back. */
  lemma {:induction false} SplitJoin(parts: seq<string>, sep: char)
    requires |parts| >= 1
    requires forall k :: 0 <= k < |parts| ==> sep !in parts[k]
    ensures Split(Join(parts, [sep]), sep) == parts
  {
    if |parts| == 1 {
      SplitNoSep(parts[0], sep);
    } else {
      SplitJoin(parts[1..], sep);
      SplitPrefix(parts[0], sep, Join(parts[1..], [sep]));
      assert [parts[0]] + parts[1..] == parts;
    }
  }

  /** Every piece of a split is separator-free, so the pieces are determined by the text. */
  lemma SplitPiecesCount(s: string, sep: char)
    ensures |Split(s, sep)| == multiset(s)[sep] + 1
  {
    if s != [] {
      SplitPiecesCount(s[1..], sep);
      assert s == [s[0]] + s[1..];
    }
  }

  // ---------------------------------------------------------------------------
  // indexOf / includes / startsWith / replace
  // ---------------------------------------------------------------------------

  predicate OccursAt(s: string, pat: string, i: nat) {
    i + |pat| <= |s| && s[i..i + |pat|] == pat
  }

  function IndexFrom(s: string, pat: string, i: nat): (r: Option<nat>)
    requires i <= |s|
    requires forall k :: 0 <= k < i ==> !OccursAt(s, pat, k)
    ensures r.Some? ==> OccursAt(s, pat, r.value) && forall k :: 0 <= k < r.value ==> !OccursAt(s, pat, k)
    ensures r.None? ==> forall k :: 0 <= k <= |s| ==> !OccursAt(s, pat, k)
    decreases |s| - i
  {
    if OccursAt(s, pat, i) then Some(i)
    else if i == |s| then None
    else IndexFrom(s, pat, i + 1)
  }

  /** `s.indexOf(pat)`, with `None` for -1: the first position where `pat` occurs. */
  function IndexOf(s: string, pat: string): (r: Option<nat>)
    ensures r.Some? ==> OccursAt(s, pat, r.value) && forall k :: 0 <= k < r.value ==> !OccursAt(s, pat, k)
    ensures r.None? ==> forall k :: 0 <= k <= |s| ==> !OccursAt(s, pat, k)
  {
    IndexFrom(s, pat, 0)
  }

  /** `s.includes(pat)`. */
  predicate Includes(s: string, pat: string) {
    IndexOf(s, pat).Some?
  }

  /** `s.startsWith(p)`. */
  predicate StartsWith(s: string, p: string) {
    |p| <= |s| && s[..|p|] == p
  }

  /** `s.replace(pat, rep)` with a string pattern: only the first occurrence is replaced. */
  function ReplaceFirst(s: string, pat: string, rep: string): string {
    match IndexOf(s, pat)
    case None => s
    case Some(i) => s[..i] + rep + s[i + |pat|..]
  }

  lemma IncludesAt(s: string, pat: string, i: nat)
    requires OccursAt(s, pat, i)
    ensures Includes(s, pat)
  {
  }

  /** Removing a pattern that the text starts with takes off exactly that prefix. */
  lemma ReplacePrefix(s: string, p: string)
    requires StartsWith(s, p)
    ensures ReplaceFirst(s, p, "") == s[|p|..]
  {
    assert OccursAt(s, p, 0);
  }

  /** A pattern that does not occur leaves the text unchanged. */
  lemma ReplaceAbsent(s: string, pat: string, rep: string)
    requires !Includes(s, pat)
    ensures ReplaceFirst(s, pat, rep) == s
  {
  }

  // ---------------------------------------------------------------------------
  // Number to text (template literals, `${n}`) and back
  // ---------------------------------------------------------------------------

  predicate IsDigit(c: char) {
    '0' <= c <= '9'
  }

  function DigitChar(d: nat): (c: char)
    requires d < 10
    ensures IsDigit(c) && c as int - '0' as int == d
  {
    (d + '0' as int) as char
  }

  /** Decimal digits of a natural number, without leading zeros. */
  function NatToString(n: nat): (r: string)
    ensures |r| >= 1
    ensures forall k :: 0 <= k < |r| ==> IsDigit(r[k])
  {
    if n < 10 then [DigitChar(n)] else NatToString(n / 10) + [DigitChar(n % 10)]
  }

  /** `${n}` for an integer-valued number. */
  function IntToString(n: int): (r: string)
    ensures |r| >= 1
    ensures forall k :: 0 <= k < |r| ==> IsDigit(r[k]) || (k == 0 && r[k] == '-')
  {
    if n < 0 then "-" + NatToString(-n) else NatToString(n)
  }

  /** Reads a string of decimal digits. */
  function ParseNat(s: string): nat
    requires forall k :: 0 <= k < |s| ==> IsDigit(s[k])
  {
    if s == [] then 0
    else
      assert IsDigit(s[|s| - 1]);
      ParseNat(s[..|s| - 1]) * 10 + (s[|s| - 1] as int - '0' as int)
  }

  /** Reads an optionally negative decimal integer. */
  function ParseInt(s: string): int
    requires |s| >= 1
    requires forall k :: 0 <= k < |s| ==> IsDigit(s[k]) || (k == 0 && s[k] == '-')
  {
    if s[0] == '-' then 0 - ParseNat(s[1..]) else ParseNat(s)
  }

  lemma {:induction false} NatRoundTrip(n: nat)
    ensures ParseNat(NatToString(n)) == n
  {
    if n >= 10 {
      NatRoundTrip(n / 10);
      var r := NatToString(n);
      assert r[..|r| - 1] == NatToString(n / 10);
    }
  }

  /** Reading back the text of an integer gives the integer. */
  lemma IntRoundTrip(n: int)
    ensures ParseInt(IntToString(n)) == n
  {
    var r := IntToString(n);
    if n < 0 {
      NatRoundTrip(-n);
      assert r[1..] == NatToString(-n);
    } else {
      NatRoundTrip(n);
    }
  }

  /** Distinct integers print differently. */
  lemma IntToStringInjective(a: int, b: int)
    requires IntToString(a) == IntToString(b)
    ensures a == b
  {
    IntRoundTrip(a);
    IntRoundTrip(b);
  }

  // ---------------------------------------------------------------------------
  // replace(/[^a-zA-Z0-9]/g, '')
  // ---------------------------------------------------------------------------

  predicate IsAsciiAlnum(c: char) {
    ('a' <= c <= 'z') || ('A' <= c <= 'Z') || ('0' <= c <= '9')
  }

  /** Deletes every character outside `[a-zA-Z0-9]`, keeping the rest in order. */
  function KeepAlnum(s: string): (r: string)
    ensures |r| <= |s|
    ensures forall k :: 0 <= k < |r| ==> IsAsciiAlnum(r[k])
    ensures forall c :: c in r <==> c in s && IsAsciiAlnum(c)
  {
    if s == [] then []
    else if IsAsciiAlnum(s[0]) then [s[0]] + KeepAlnum(s[1..])
    else KeepAlnum(s[1..])
  }
}
