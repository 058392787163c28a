/** The JavaScript string operations the pipeline relies on, with ECMAScript
    semantics. A `string` is a sequence of UTF-16 code units; `|s|` is
    JavaScript's `s.length`. */
module JsString {
  import opened Wrappers

  // ---------------------------------------------------------------------
  // Whitespace and trim
  // ---------------------------------------------------------------------

  /** The WhiteSpace and LineTerminator code points of ECMA-262 (sections
      12.2 and 12.3): exactly what `String.prototype.trim` removes and what
      `parseFloat` skips. */
  predicate IsJsWhitespace(c: char) {
    || ('\t' <= c <= '\r') || c == ' ' || c == '\U{A0}' || c == '\U{1680}'
    || ('\U{2000}' <= c <= '\U{200A}') || c == '\U{2028}' || c == '\U{2029}'
    || c == '\U{202F}' || c == '\U{205F}' || c == '\U{3000}' || c == '\U{FEFF}'
  }

  predicate AllWhitespace(s: string) {
    forall i :: 0 <= i < |s| ==> IsJsWhitespace(s[i])
  }

  /** Neither end of `s` is whitespace. */
  predicate IsTrimmed(s: string) {
    s == [] || (!IsJsWhitespace(s[0]) && !IsJsWhitespace(s[|s| - 1]))
  }

  /** `p` occurs in `s` starting at index `i`. */
  predicate OccursAt(s: string, p: string, i: int) {
    0 <= i && i + |p| <= |s| && s[i..i + |p|] == p
  }

  /** `s` occurs contiguously inside `t`. */
  ghost predicate IsInfix(s: string, t: string) {
    exists i :: 0 <= i <= |t| && OccursAt(t, s, i)
  }

  /** Drops the leading whitespace of `s`. */
  function TrimStart(s: string): (r: string)
    ensures |r| <= |s|
  {
    if |s| > 0 && IsJsWhitespace(s[0]) then TrimStart(s[1..]) else s
  }

  /** Drops the trailing whitespace of `s`. */
  function TrimEnd(s: string): (r: string)
    ensures |r| <= |s|
  {
    if |s| > 0 && IsJsWhitespace(s[|s| - 1]) then TrimEnd(s[..|s| - 1]) else s
  }

  /** JavaScript `s.trim()`. */
  function Trim(s: string): string {
    TrimEnd(TrimStart(s))
  }

  /** `TrimStart` removes exactly the leading whitespace: what it drops is
      whitespace and what it keeps is a suffix that does not start with
      whitespace. */
  lemma {:induction false} TrimStartShape(s: string)
    ensures TrimStart(s) == s[|s| - |TrimStart(s)|..]
    ensures TrimStart(s) == [] || !IsJsWhitespace(TrimStart(s)[0])
    ensures AllWhitespace(s[..|s| - |TrimStart(s)|])
    decreases |s|
  {
    if |s| > 0 && IsJsWhitespace(s[0]) {
      TrimStartShape(s[1..]);
      assert s[1..][..|s| - 1 - |TrimStart(s)|] == s[1..|s| - |TrimStart(s)|];
    }
  }

  /** `TrimEnd` removes exactly the trailing whitespace. */
  lemma {:induction false} TrimEndShape(s: string)
    ensures TrimEnd(s) == s[..|TrimEnd(s)|]
    ensures TrimEnd(s) == [] || !IsJsWhitespace(TrimEnd(s)[|TrimEnd(s)| - 1])
    ensures AllWhitespace(s[|TrimEnd(s)|..])
    decreases |s|
  {
    if |s| > 0 && IsJsWhitespace(s[|s| - 1]) {
      TrimEndShape(s[..|s| - 1]);
      assert s[..|s| - 1][|TrimEnd(s)|..] + [s[|s| - 1]] == s[|TrimEnd(s)|..];
    }
  }

  /** What remains of `s` once the whitespace at both ends is removed: it
      starts and ends with a non-whitespace character, and it is found in
      `s` right after the leading whitespace. */
  lemma TrimShape(s: string)
    ensures IsTrimmed(Trim(s))
    ensures OccursAt(s, Trim(s), |s| - |TrimStart(s)|)
  {
    var a := TrimStart(s);
    var r := Trim(s);
    var i := |s| - |a|;
    TrimStartShape(s);
    TrimEndShape(a);
    if r != [] {
      assert r[0] == a[0];
    }
    assert s[i..i + |r|] == r by {
      assert a == s[i..];
      assert a[..|r|] == s[i..i + |r|];
    }
  }

  /** The trim is empty exactly for all-whitespace text. */
  lemma TrimEmpty(s: string)
    ensures Trim(s) == [] <==> AllWhitespace(s)
  {
    var a := TrimStart(s);
    var r := Trim(s);
    var i := |s| - |a|;
    TrimStartShape(s);
    TrimEndShape(a);
    if r == [] {
      assert a[0..] == a;
      AllWhitespaceConcat(s[..i], a);
      assert s == s[..i] + a;
    } else {
      assert s[i] == r[0];
    }
  }

  lemma AllWhitespaceConcat(a: string, b: string)
    ensures AllWhitespace(a + b) <==> AllWhitespace(a) && AllWhitespace(b)
  {
    if AllWhitespace(a) && AllWhitespace(b) {
      forall k | 0 <= k < |a + b| ensures IsJsWhitespace((a + b)[k]) {
        if k >= |a| {
          assert (a + b)[k] == b[k - |a|];
        }
      }
    }
    if AllWhitespace(a + b) {
      forall k | 0 <= k < |a| ensures IsJsWhitespace(a[k]) {
        assert (a + b)[k] == a[k];
      }
      forall k | 0 <= k < |b| ensures IsJsWhitespace(b[k]) {
        assert (a + b)[|a| + k] == b[k];
      }
    }
  }

  lemma TrimIsInfix(s: string)
    ensures IsInfix(Trim(s), s)
  {
    TrimShape(s);
    assert OccursAt(s, Trim(s), |s| - |TrimStart(s)|);
  }

  lemma TrimOfTrimmed(s: string)
    requires IsTrimmed(s)
    ensures Trim(s) == s
  {
  }

  lemma TrimIdempotent(s: string)
    ensures Trim(Trim(s)) == Trim(s)
  {
    TrimShape(s);
    TrimOfTrimmed(Trim(s));
  }

  /** Being an infix is transitive. */
  lemma InfixTrans(a: string, b: string, c: string)
    requires IsInfix(a, b) && IsInfix(b, c)
    ensures IsInfix(a, c)
  {
    var i :| 0 <= i <= |b| && OccursAt(b, a, i);
    var j :| 0 <= j <= |c| && OccursAt(c, b, j);
    forall t | 0 <= t < |a| ensures c[j + i + t] == a[t] {
      assert a[t] == b[i + t] == c[j + i + t];
    }
    assert c[j + i..j + i + |a|] == a;
    assert OccursAt(c, a, j + i);
  }

  lemma EndsWithInfix(s: string, t: string)
    requires EndsWith(s, t)
    ensures IsInfix(t, s)
  {
    EndsWithOccurs(s, t);
  }

  lemma StartsWithInfix(s: string, t: string)
    requires StartsWith(s, t)
    ensures IsInfix(t, s)
  {
    assert OccursAt(s, t, 0);
  }

  /** Text that lies inside all-whitespace text is all whitespace. */
  lemma InfixAllWhitespace(a: string, b: string)
    requires IsInfix(a, b) && AllWhitespace(b)
    ensures AllWhitespace(a)
  {
    var i :| 0 <= i <= |b| && OccursAt(b, a, i);
    forall t | 0 <= t < |a| ensures IsJsWhitespace(a[t]) {
      assert a[t] == b[i + t];
    }
  }

  /** The only trimmed all-whitespace text is the empty one. */
  lemma TrimmedWhitespaceEmpty(s: string)
    requires IsTrimmed(s) && AllWhitespace(s)
    ensures s == []
  {
  }

  // ---------------------------------------------------------------------
  // Searching
  // ---------------------------------------------------------------------

  /** The first index at or after `from` at which `p` occurs. */
  function IndexFrom(s: string, p: string, from: nat): (r: Option<nat>)
    ensures r.Some? ==> from <= r.value && OccursAt(s, p, r.value)
    ensures r.Some? ==> forall j :: from <= j < r.value ==> !OccursAt(s, p, j)
    ensures r.None? ==> forall j :: from <= j ==> !OccursAt(s, p, j)
    decreases |s| - from
  {
    if from + |p| > |s| then None
    else if s[from..from + |p|] == p then Some(from)
    else IndexFrom(s, p, from + 1)
  }

  /** JavaScript `s.indexOf(p)`: the first index at which `p` occurs. */
  function IndexOf(s: string, p: string): (r: Option<nat>)
    ensures r.Some? ==> OccursAt(s, p, r.value)
    ensures r.Some? ==> forall j :: 0 <= j < r.value ==> !OccursAt(s, p, j)
    ensures r.None? ==> forall j :: !OccursAt(s, p, j)
  {
    IndexFrom(s, p, 0)
  }

  /** The first occurrence, stated from the outside. */
  lemma IndexOfIs(s: string, p: string, i: nat)
    requires OccursAt(s, p, i)
    requires forall j :: 0 <= j < i ==> !OccursAt(s, p, j)
    ensures IndexOf(s, p) == Some(i)
  {
  }

  lemma IndexOfNoneIs(s: string, p: string)
    requires forall j :: 0 <= j ==> !OccursAt(s, p, j)
    ensures IndexOf(s, p) == None
  {
  }

  /** A pattern whose first character does not occur in `s` is not found. */
  lemma IndexOfNoFirstChar(s: string, p: string)
    requires p != [] && forall k :: 0 <= k < |s| ==> s[k] != p[0]
    ensures IndexOf(s, p) == None
  {
    forall j | 0 <= j ensures !OccursAt(s, p, j) {
      if j + |p| <= |s| {
        assert s[j..j + |p|][0] == s[j];
      }
    }
  }

  // ---------------------------------------------------------------------
  // Split and join
  // ---------------------------------------------------------------------

  /** JavaScript `parts.join(sep)`. */
  function Join(parts: seq<string>, sep: string): string
    decreases |parts|
  {
    if |parts| == 0 then []
    else if |parts| == 1 then parts[0]
    else parts[0] + sep + Join(parts[1..], sep)
  }

  /** Joining one more part at the end appends the separator and the part. */
  lemma {:induction false} JoinSnoc(parts: seq<string>, p: string, sep: string)
    requires |parts| > 0
    ensures Join(parts + [p], sep) == Join(parts, sep) + sep + p
    decreases |parts|
  {
    if |parts| > 1 {
      assert (parts + [p])[1..] == parts[1..] + [p];
      JoinSnoc(parts[1..], p, sep);
    } else {
      assert parts + [p] == [parts[0], p];
    }
  }

  /** Joining a leading run of the parts gives a prefix of the whole join. */
  lemma {:induction false} JoinPrefix(parts: seq<string>, k: nat, sep: string)
    requires 0 < k <= |parts|
    ensures StartsWith(Join(parts, sep), Join(parts[..k], sep))
    decreases |parts| - k
  {
    if k == |parts| {
      assert parts[..k] == parts;
    } else {
      JoinPrefix(parts, k + 1, sep);
      assert parts[..k + 1] == parts[..k] + [parts[k]];
      JoinSnoc(parts[..k], parts[k], sep);
      var whole, longer, shorter := Join(parts, sep), Join(parts[..k + 1], sep), Join(parts[..k], sep);
      assert longer[..|shorter|] == shorter;
      assert whole[..|shorter|] == longer[..|shorter|];
    }
  }

  /** JavaScript `s.split(sep)` for a non-empty separator: the pieces between
      successive non-overlapping occurrences of `sep`, scanning left to
      right. `Split("", sep) == [""]`. */
  function Split(s: string, sep: string): (parts: seq<string>)
    requires sep != []
    ensures |parts| >= 1
    decreases |s|
  {
    match IndexOf(s, sep)
    case None => [s]
    case Some(i) => [s[..i]] + Split(s[i + |sep|..], sep)
  }

  /** The pieces of a split join back into the text, and no piece contains
      the separator. */
  lemma {:induction false} SplitJoin(s: string, sep: string)
    requires sep != []
    ensures Join(Split(s, sep), sep) == s
    ensures forall k, j :: 0 <= k < |Split(s, sep)| ==> !OccursAt(Split(s, sep)[k], sep, j)
    decreases |s|
  {
    match IndexOf(s, sep)
    case None =>
    case Some(i) =>
      var rest := Split(s[i + |sep|..], sep);
      SplitJoin(s[i + |sep|..], sep);
      var parts := [s[..i]] + rest;
      assert parts[1..] == rest;
      assert s == s[..i] + sep + s[i + |sep|..] by {
        assert s[i..i + |sep|] == sep;
      }
      forall j ensures !OccursAt(s[..i], sep, j) {
        OccursInPrefix(s, i, sep, j);
      }
  }

  /** An occurrence inside a prefix is an occurrence that starts before the
      prefix ends. */
  lemma OccursInPrefix(s: string, n: nat, p: string, j: int)
    requires n <= |s| && p != []
    ensures OccursAt(s[..n], p, j) ==> j < n && OccursAt(s, p, j)
  {
    if OccursAt(s[..n], p, j) {
      assert s[..n][j..j + |p|] == s[j..j + |p|];
    }
  }

  /** JavaScript `s.split(sep)` for any separator: the empty separator splits
      into single code units, and `"".split("")` is `[]`. */
  function SplitAny(s: string, sep: string): (parts: seq<string>)
    ensures sep != [] ==> parts == Split(s, sep)
    ensures sep == [] ==> |parts| == |s| && forall k :: 0 <= k < |s| ==> parts[k] == [s[k]]
  {
    if sep == [] then seq(|s|, k requires 0 <= k < |s| => [s[k]]) else Split(s, sep)
  }

  /** Number of occurrences of `c` in `s`. */
  function CountChar(s: string, c: char): nat
    decreases |s|
  {
    if s == [] then 0 else (if s[0] == c then 1 else 0) + CountChar(s[1..], c)
  }

  lemma {:induction false} CountCharConcat(a: string, b: string, c: char)
    ensures CountChar(a + b, c) == CountChar(a, c) + CountChar(b, c)
    decreases |a|
  {
    if a != [] {
      assert (a + b)[1..] == a[1..] + b;
      CountCharConcat(a[1..], b, c);
    } else {
      assert a + b == b;
    }
  }

  lemma {:induction false} CountCharAbsent(s: string, c: char)
    requires forall k :: 0 <= k < |s| ==> s[k] != c
    ensures CountChar(s, c) == 0
    decreases |s|
  {
    if s != [] {
      CountCharAbsent(s[1..], c);
    }
  }

  /** A one-character pattern occurs exactly where that character is. */
  lemma OccursAtChar(s: string, c: char, k: nat)
    requires k < |s|
    ensures OccursAt(s, [c], k) <==> s[k] == c
  {
    assert s[k..k + 1] == [s[k]];
  }

  /** Splitting on a one-character separator yields one piece more than the
      separator has occurrences. */
  lemma {:induction false} SplitCharCount(s: string, c: char)
    ensures |Split(s, [c])| == CountChar(s, c) + 1
    decreases |s|
  {
    var sep := [c];
    match IndexOf(s, sep)
    case None =>
      forall k | 0 <= k < |s| ensures s[k] != c {
        OccursAtChar(s, c, k);
      }
      CountCharAbsent(s, c);
    case Some(i) =>
      SplitCharCount(s[i + 1..], c);
      forall k | 0 <= k < i ensures s[..i][k] != c {
        OccursAtChar(s, c, k);
      }
      CountCharAbsent(s[..i], c);
      assert s == s[..i] + [c] + s[i + 1..] by {
        assert s[i..i + 1] == sep;
      }
      CountCharConcat(s[..i] + [c], s[i + 1..], c);
      CountCharConcat(s[..i], [c], c);
  }

  /** Splitting a join on a one-character separator that no part contains
      gives the parts back, provided there is at least one part. */
  lemma {:induction false} SplitJoinChar(parts: seq<string>, c: char)
    requires |parts| >= 1
    requires forall k, j :: 0 <= k < |parts| && 0 <= j < |parts[k]| ==> parts[k][j] != c
    ensures Split(Join(parts, [c]), [c]) == parts
    decreases |parts|
  {
    var sep := [c];
    var s := Join(parts, sep);
    var p := parts[0];
    if |parts| == 1 {
      IndexOfNoFirstChar(s, sep);
    } else {
      var tail := Join(parts[1..], sep);
      assert s == p + sep + tail;
      assert OccursAt(s, sep, |p|) by {
        assert s[|p|..|p| + 1] == sep;
      }
      IndexOfNoFirstChar(p, sep);
      forall j | 0 <= j < |p| ensures !OccursAt(s, sep, j) {
        assert s[j..j + 1] == p[j..j + 1];
        assert !OccursAt(p, sep, j);
      }
      IndexOfIs(s, sep, |p|);
      assert s[..|p|] == p;
      assert s[|p| + 1..] == tail;
      SplitJoinChar(parts[1..], c);
    }
  }

  // ---------------------------------------------------------------------
  // Slicing
  // ---------------------------------------------------------------------

  /** ECMAScript's relative index: a negative `k` counts from the end, and
      the result is clamped to `[0, len]`. Note that `-0 == 0`. */
  function RelativeIndex(k: int, len: nat): (r: nat)
    ensures r <= len
    ensures k < 0 && len + k >= 0 ==> r == len + k
    ensures 0 <= k <= len ==> r == k
  {
    if k < 0 then (if len + k < 0 then 0 else len + k)
    else if k < len then k else len
  }

  /** JavaScript `s.slice(start)`. */
  function SliceFrom(s: string, start: int): (r: string)
    ensures r == s[RelativeIndex(start, |s|)..]
  {
    s[RelativeIndex(start, |s|)..]
  }

  /** JavaScript `s.slice(start, end)`. */
  function Slice(s: string, start: int, end: int): (r: string)
    ensures |r| <= |s|
  {
    var from := RelativeIndex(start, |s|);
    var to := RelativeIndex(end, |s|);
    if from >= to then [] else s[from..to]
  }

  /** `s.slice(-n)`: the last `n` code units for `n > 0`, but the WHOLE
      string for `n == 0` (because `-0` is `0`), and for `n < 0` the string
      without its first `-n` code units. */
  lemma SliceFromNegated(s: string, n: int)
    ensures n > 0 ==> SliceFrom(s, -n) == s[|s| - (if n < |s| then n else |s|)..]
    ensures n == 0 ==> SliceFrom(s, -n) == s
    ensures n < 0 ==> SliceFrom(s, -n) == s[(if -n < |s| then -n else |s|)..]
  {
  }

  /** `s.slice(0, n)` for `n >= 0` is the first `min(n, |s|)` code units. */
  lemma SlicePrefix(s: string, n: nat)
    ensures Slice(s, 0, n) == s[..if n < |s| then n else |s|]
  {
  }

  // ---------------------------------------------------------------------
  // Replace
  // ---------------------------------------------------------------------

  /** ECMAScript GetSubstitution (section 22.1.3.19.1) for a pattern without
      capture groups: in the replacement text, `$$` becomes `$`, `$&` the
      matched text, `` $` `` the text before the match and `$'` the text
      after it; any other `$` stays literal. */
  function Expand(rep: string, matched: string, before: string, after: string): string
    decreases |rep|
  {
    if |rep| >= 2 && rep[0] == '$' && rep[1] == '$' then "$" + Expand(rep[2..], matched, before, after)
    else if |rep| >= 2 && rep[0] == '$' && rep[1] == '&' then matched + Expand(rep[2..], matched, before, after)
    else if |rep| >= 2 && rep[0] == '$' && rep[1] == '`' then before + Expand(rep[2..], matched, before, after)
    else if |rep| >= 2 && rep[0] == '$' && rep[1] == '\'' then after + Expand(rep[2..], matched, before, after)
    else if rep == [] then []
    else [rep[0]] + Expand(rep[1..], matched, before, after)
  }

  /** A replacement text without `$` is inserted verbatim. */
  lemma {:induction false} ExpandLiteral(rep: string, matched: string, before: string, after: string)
    requires forall k :: 0 <= k < |rep| ==> rep[k] != '$'
    ensures Expand(rep, matched, before, after) == rep
    decreases |rep|
  {
    if rep != [] {
      ExpandLiteral(rep[1..], matched, before, after);
    }
  }

  /** JavaScript `s.replace(pattern, rep)` with a string pattern: only the
      FIRST occurrence is replaced; without an occurrence `s` is returned. */
  function ReplaceFirst(s: string, pattern: string, rep: string): (r: string)
    ensures IndexOf(s, pattern).None? ==> r == s
  {
    match IndexOf(s, pattern)
    case None => s
    case Some(i) =>
      s[..i] + Expand(rep, pattern, s[..i], s[i + |pattern|..]) + s[i + |pattern|..]
  }

  /** Occurrences in `b` are occurrences in `a + b`, shifted by `|a|`. */
  lemma OccursAtShift(a: string, b: string, p: string, j: int)
    requires 0 <= j
    ensures OccursAt(a + b, p, |a| + j) <==> OccursAt(b, p, j)
  {
    if j + |p| <= |b| {
      assert (a + b)[|a| + j..|a| + j + |p|] == b[j..j + |p|];
    }
  }

  /** Occurrences that end inside `a` are occurrences in `a`. */
  lemma OccursAtPrefix(a: string, b: string, p: string, j: int)
    requires 0 <= j && j + |p| <= |a|
    ensures OccursAt(a + b, p, j) <==> OccursAt(a, p, j)
  {
    assert (a + b)[j..j + |p|] == a[j..j + |p|];
  }

  /** Moves a first occurrence found in `b` out to `a + b`, given that no
      occurrence starts inside `a`. */
  lemma IndexOfShift(a: string, b: string, p: string)
    requires forall j :: 0 <= j < |a| ==> !OccursAt(a + b, p, j)
    ensures IndexOf(b, p).None? ==> IndexOf(a + b, p).None?
    ensures IndexOf(b, p).Some? ==> IndexOf(a + b, p) == Some(|a| + IndexOf(b, p).value)
  {
    var s := a + b;
    forall j | |a| <= j ensures OccursAt(s, p, j) <==> OccursAt(b, p, j - |a|) {
      OccursAtShift(a, b, p, j - |a|);
    }
    match IndexOf(b, p)
    case None =>
      IndexOfNoneIs(s, p);
    case Some(i) =>
      IndexOfIs(s, p, |a| + i);
  }

  /** The first occurrence of a pattern whose first character does not
      occur in `a` lies in `b`. */
  lemma IndexOfAfterPrefix(a: string, b: string, p: string)
    requires p != [] && forall k :: 0 <= k < |a| ==> a[k] != p[0]
    ensures IndexOf(b, p).None? ==> IndexOf(a + b, p).None?
    ensures IndexOf(b, p).Some? ==> IndexOf(a + b, p) == Some(|a| + IndexOf(b, p).value)
  {
    var s := a + b;
    forall j | 0 <= j < |a| ensures !OccursAt(s, p, j) {
      assert s[j] == a[j];
      if j + |p| <= |s| {
        assert s[j..j + |p|][0] == s[j];
      }
    }
    IndexOfShift(a, b, p);
  }

  /** An occurrence in `a` stays the first one in `a + b`. */
  lemma IndexOfInPrefix(a: string, b: string, p: string)
    requires IndexOf(a, p).Some?
    ensures IndexOf(a + b, p) == IndexOf(a, p)
  {
    var i := IndexOf(a, p).value;
    OccursAtPrefix(a, b, p, i);
    forall j | 0 <= j < i ensures !OccursAt(a + b, p, j) {
      OccursAtPrefix(a, b, p, j);
    }
    IndexOfIs(a + b, p, i);
  }

  /** When `p` does not occur in `a` and cannot straddle into `b` (the first
      character of `b` is not in `p`), the first occurrence lies in `b`. */
  lemma IndexOfAcross(a: string, b: string, p: string)
    requires IndexOf(a, p).None?
    requires b != [] && forall k :: 0 <= k < |p| ==> p[k] != b[0]
    ensures IndexOf(b, p).None? ==> IndexOf(a + b, p).None?
    ensures IndexOf(b, p).Some? ==> IndexOf(a + b, p) == Some(|a| + IndexOf(b, p).value)
  {
    var s := a + b;
    forall j | 0 <= j < |a| ensures !OccursAt(s, p, j) {
      if j + |p| <= |a| {
        OccursAtPrefix(a, b, p, j);
      } else if j + |p| <= |s| {
        assert s[j..j + |p|][|a| - j] == s[|a|] == b[0];
      }
    }
    IndexOfShift(a, b, p);
  }

  /** A pattern found at the very start is found at index 0. */
  lemma IndexOfAtStart(p: string, b: string)
    ensures IndexOf(p + b, p) == Some(0)
  {
    assert (p + b)[..|p|] == p;
  }

  /** `s` has no occurrence of the character `c`. */
  predicate Lacks(s: string, c: char) {
    forall k :: 0 <= k < |s| ==> s[k] != c
  }

  lemma LacksConcat(a: string, b: string, c: char)
    requires Lacks(a, c) && Lacks(b, c)
    ensures Lacks(a + b, c)
  {
    forall k | 0 <= k < |a + b| ensures (a + b)[k] != c {
      if k >= |a| {
        assert (a + b)[k] == b[k - |a|];
      }
    }
  }

  /** With a replacement free of `$`, `replace` splices it in verbatim. */
  lemma ReplaceFirstAt(s: string, p: string, rep: string, i: nat)
    requires IndexOf(s, p) == Some(i) && Lacks(rep, '$')
    ensures ReplaceFirst(s, p, rep) == s[..i] + rep + s[i + |p|..]
  {
    assert OccursAt(s, p, i);
    var before, after := s[..i], s[i + |p|..];
    assert ReplaceFirst(s, p, rep) == before + Expand(rep, p, before, after) + after;
    ExpandLiteral(rep, p, before, after);
  }

  /** A pattern at the very start is replaced there. */
  lemma ReplaceFirstAtStart(p: string, b: string, rep: string)
    requires Lacks(rep, '$')
    ensures ReplaceFirst(p + b, p, rep) == rep + b
  {
    IndexOfAtStart(p, b);
    ReplaceFirstAt(p + b, p, rep, 0);
    assert (p + b)[|p|..] == b;
    assert (p + b)[..0] == [];
  }

  lemma SpliceInSuffix(a: string, b: string, n: nat, rep: string, j: nat)
    requires j + n <= |b|
    ensures (a + b)[..|a| + j] + rep + (a + b)[|a| + j + n..] == a + (b[..j] + rep + b[j + n..])
  {
    assert (a + b)[..|a| + j] == a + b[..j];
    assert (a + b)[|a| + j + n..] == b[j + n..];
  }

  lemma SpliceInPrefix(a: string, b: string, n: nat, rep: string, i: nat)
    requires i + n <= |a|
    ensures (a + b)[..i] + rep + (a + b)[i + n..] == a[..i] + rep + a[i + n..] + b
  {
    assert (a + b)[..i] == a[..i];
    assert (a + b)[i + n..] == a[i + n..] + b;
  }

  /** When the first match lies in `b`, replacing in `a + b` only changes `b`. */
  lemma ReplaceFirstInSuffix(a: string, b: string, p: string, rep: string, j: nat)
    requires Lacks(rep, '$') && IndexOf(b, p) == Some(j) && IndexOf(a + b, p) == Some(|a| + j)
    ensures ReplaceFirst(a + b, p, rep) == a + ReplaceFirst(b, p, rep)
  {
    ReplaceFirstAt(b, p, rep, j);
    ReplaceFirstAt(a + b, p, rep, |a| + j);
    SpliceInSuffix(a, b, |p|, rep, j);
  }

  /** When the first match lies in `a`, replacing in `a + b` leaves `b` alone. */
  lemma ReplaceFirstInPrefix(a: string, b: string, p: string, rep: string, i: nat)
    requires Lacks(rep, '$') && IndexOf(a, p) == Some(i)
    ensures ReplaceFirst(a + b, p, rep) == ReplaceFirst(a, p, rep) + b
  {
    IndexOfInPrefix(a, b, p);
    ReplaceFirstAt(a, p, rep, i);
    ReplaceFirstAt(a + b, p, rep, i);
    SpliceInPrefix(a, b, |p|, rep, i);
  }

  /** Text in front that cannot start a match leaves the replacement to `b`. */
  lemma ReplaceFirstAfterLacking(a: string, b: string, p: string, rep: string)
    requires p != [] && Lacks(a, p[0]) && Lacks(rep, '$') && IndexOf(b, p).Some?
    ensures IndexOf(a + b, p).Some?
    ensures ReplaceFirst(a + b, p, rep) == a + ReplaceFirst(b, p, rep)
  {
    IndexOfAfterPrefix(a, b, p);
    ReplaceFirstInSuffix(a, b, p, rep, IndexOf(b, p).value);
  }

  /** Text in front without a match, followed by a character the pattern
      lacks, leaves the replacement to `b`. */
  lemma ReplaceFirstSkipping(a: string, b: string, p: string, rep: string)
    requires IndexOf(a, p).None? && b != [] && Lacks(p, b[0]) && Lacks(rep, '$') && IndexOf(b, p).Some?
    ensures IndexOf(a + b, p).Some?
    ensures ReplaceFirst(a + b, p, rep) == a + ReplaceFirst(b, p, rep)
  {
    IndexOfAcross(a, b, p);
    ReplaceFirstInSuffix(a, b, p, rep, IndexOf(b, p).value);
  }

  /** JavaScript `s.startsWith(prefix)`. */
  predicate StartsWith(s: string, prefix: string) {
    |prefix| <= |s| && s[..|prefix|] == prefix
  }

  lemma StartsWithAppend(s: string, prefix: string, t: string)
    requires StartsWith(s, prefix)
    ensures StartsWith(s + t, prefix)
  {
    assert (s + t)[..|prefix|] == s[..|prefix|];
  }

  /** JavaScript `s.endsWith(suffix)`. */
  predicate EndsWith(s: string, suffix: string) {
    |suffix| <= |s| && s[|s| - |suffix|..] == suffix
  }

  lemma EndsWithTrans(s: string, t: string, u: string)
    requires EndsWith(s, t) && EndsWith(t, u)
    ensures EndsWith(s, u)
  {
    assert s[|s| - |u|..] == s[|s| - |t|..][|t| - |u|..];
  }

  lemma EndsWithAppend(s: string, t: string, u: string)
    requires EndsWith(s, t)
    ensures EndsWith(s + u, t + u)
  {
    assert (s + u)[|s + u| - |t + u|..] == s[|s| - |t|..] + u;
  }

  /** A suffix ends the text, at the offset its length determines. */
  lemma EndsWithOccurs(s: string, t: string)
    requires EndsWith(s, t)
    ensures OccursAt(s, t, |s| - |t|)
  {
    assert s[|s| - |t|..|s|] == s[|s| - |t|..];
  }

  /** `s.slice(start)` is a suffix of `s`. */
  lemma SliceFromIsSuffix(s: string, start: int)
    ensures EndsWith(s, SliceFrom(s, start))
  {
  }

  // ---------------------------------------------------------------------
  // Numbers
  // ---------------------------------------------------------------------

  predicate IsDigit(c: char) {
    '0' <= c <= '9'
  }

  function DigitChar(d: nat): (c: char)
    requires d < 10
    ensures IsDigit(c)
  {
    ['0', '1', '2', '3', '4', '5', '6', '7', '8', '9'][d]
  }

  function DigitValue(c: char): (d: nat)
    requires IsDigit(c)
    ensures d < 10 && DigitChar(d) == c
  {
    (c as int - '0' as int)
  }

  /** Decimal digits of `n`, most significant first, without leading zeros. */
  function NatToString(n: nat): (r: string)
    ensures |r| >= 1 && forall k :: 0 <= k < |r| ==> IsDigit(r[k])
    decreases n
  {
    if n < 10 then [DigitChar(n)] else NatToString(n / 10) + [DigitChar(n % 10)]
  }

  /** JavaScript `String(n)` for an integer-valued number of magnitude below
      10^21 (the range in which JavaScript prints plain decimal digits). */
  function IntToString(n: int): (r: string)
    ensures |r| >= 1
    ensures forall k :: 0 <= k < |r| ==> IsDigit(r[k]) || (k == 0 && r[k] == '-')
  {
    if n < 0 then "-" + NatToString(-n) else NatToString(n)
  }

  /** Value of a string of decimal digits. */
  function DigitsValue(s: string): nat
    requires forall k :: 0 <= k < |s| ==> IsDigit(s[k])
    decreases |s|
  {
    if s == [] then 0 else DigitsValue(s[..|s| - 1]) * 10 + DigitValue(s[|s| - 1])
  }

  lemma {:induction false} NatToStringValue(n: nat)
    ensures DigitsValue(NatToString(n)) == n
    decreases n
  {
    if n >= 10 {
      var r := NatToString(n);
      assert r[..|r| - 1] == NatToString(n / 10);
      NatToStringValue(n / 10);
    }
  }

  /** Length of the longest prefix of `s` made of decimal digits. */
  function DigitRun(s: string): (n: nat)
    ensures n <= |s| && forall k :: 0 <= k < n ==> IsDigit(s[k])
    ensures n < |s| ==> !IsDigit(s[n])
    decreases |s|
  {
    if s != [] && IsDigit(s[0]) then 1 + DigitRun(s[1..]) else 0
  }

  lemma {:induction false} DigitRunAll(s: string)
    requires forall k :: 0 <= k < |s| ==> IsDigit(s[k])
    ensures DigitRun(s) == |s|
    decreases |s|
  {
    if s != [] {
      DigitRunAll(s[1..]);
    }
  }
}
