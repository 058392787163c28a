/** lib/text-extraction.ts `cleanText`: the normalisation every extracted
    document goes through before chunking. Four passes, each a global
    regular-expression replace scanning left to right, then a trim. */
module TextExtraction {
  import opened JsString

  // ---------------------------------------------------------------------
  // The passes
  // ---------------------------------------------------------------------

  /** `.replace(/\r\n/g, '\n')`. */
  function NormalizeLineEndings(s: string): (r: string)
    ensures |r| <= |s|
    decreases |s|
  {
    if s == [] then []
    else if |s| >= 2 && s[0] == '\r' && s[1] == '\n' then "\n" + NormalizeLineEndings(s[2..])
    else [s[0]] + NormalizeLineEndings(s[1..])
  }

  /** Length of the run of `c` that `s` starts with. */
  function RunOf(s: string, c: char): (n: nat)
    ensures n <= |s|
    ensures forall i :: 0 <= i < n ==> s[i] == c
    ensures n < |s| ==> s[n] != c
    decreases |s|
  {
    if s != [] && s[0] == c then 1 + RunOf(s[1..], c) else 0
  }

  /** `.replace(/\n{3,}/g, '\n\n')`: a maximal run of three or more line
      feeds becomes two; shorter runs do not match and stay. */
  function CollapseNewlines(s: string): (r: string)
    ensures |r| <= |s|
    decreases |s|
  {
    if s == [] then []
    else if s[0] == '\n' then
      var n := RunOf(s, '\n');
      (if n >= 3 then "\n\n" else s[..n]) + CollapseNewlines(s[n..])
    else [s[0]] + CollapseNewlines(s[1..])
  }

  predicate IsSpaceOrTab(c: char) {
    c == ' ' || c == '\t'
  }

  /** Length of the run of spaces and tabs that `s` starts with. */
  function BlankRun(s: string): (n: nat)
    ensures n <= |s|
    ensures forall i :: 0 <= i < n ==> IsSpaceOrTab(s[i])
    ensures n < |s| ==> !IsSpaceOrTab(s[n])
    decreases |s|
  {
    if s != [] && IsSpaceOrTab(s[0]) then 1 + BlankRun(s[1..]) else 0
  }

  /** `.replace(/[ \t]+/g, ' ')`: every maximal run of spaces and tabs
      becomes one space. */
  function CollapseSpaces(s: string): (r: string)
    ensures |r| <= |s|
    decreases |s|
  {
    if s == [] then []
    else if IsSpaceOrTab(s[0]) then " " + CollapseSpaces(s[BlankRun(s)..])
    else [s[0]] + CollapseSpaces(s[1..])
  }

  /** lib/text-extraction.ts `cleanText`. */
  function CleanText(text: string): (r: string)
    ensures |r| <= |text|
  {
    Trim(CollapseSpaces(CollapseNewlines(NormalizeLineEndings(text))))
  }

  // ---------------------------------------------------------------------
  // What the output looks like
  // ---------------------------------------------------------------------

  /** No three line feeds in a row. */
  predicate NoTripleNewline(s: string) {
    forall i :: 0 <= i && i + 2 < |s| ==> !(s[i] == '\n' && s[i + 1] == '\n' && s[i + 2] == '\n')
  }

  /** No tab, and no two spaces in a row. */
  predicate SingleSpaced(s: string) {
    && (forall i :: 0 <= i < |s| ==> s[i] != '\t')
    && (forall i :: 0 <= i && i + 1 < |s| ==> !(s[i] == ' ' && s[i + 1] == ' '))
  }

  /** The non-whitespace characters of `s`, in order. */
  function Visible(s: string): string
    decreases |s|
  {
    if s == [] then []
    else if IsJsWhitespace(s[0]) then Visible(s[1..])
    else [s[0]] + Visible(s[1..])
  }

  lemma {:induction false} VisibleConcat(a: string, b: string)
    ensures Visible(a + b) == Visible(a) + Visible(b)
    decreases |a|
  {
    if a != [] {
      assert (a + b)[1..] == a[1..] + b;
      VisibleConcat(a[1..], b);
    } else {
      assert a + b == b;
    }
  }

  lemma {:induction false} VisibleOfWhitespace(s: string)
    requires AllWhitespace(s)
    ensures Visible(s) == []
    decreases |s|
  {
    if s != [] {
      VisibleOfWhitespace(s[1..]);
    }
  }

  lemma {:induction false} VisibleEmpty(s: string)
    requires Visible(s) == []
    ensures AllWhitespace(s)
    decreases |s|
  {
    if s != [] {
      VisibleEmpty(s[1..]);
      assert IsJsWhitespace(s[0]);
      forall i | 0 <= i < |s| ensures IsJsWhitespace(s[i]) {
        if i > 0 {
          assert s[i] == s[1..][i - 1];
        }
      }
    }
  }

  /** A text made of one repeated whitespace character has nothing visible. */
  lemma VisibleOfRun(s: string, n: nat, c: char)
    requires n <= |s| && IsJsWhitespace(c)
    requires forall i :: 0 <= i < n ==> s[i] == c
    ensures Visible(s[..n]) == []
  {
    VisibleOfWhitespace(s[..n]);
  }

  // ---------------------------------------------------------------------
  // Each pass only rewrites whitespace
  // ---------------------------------------------------------------------

  lemma {:induction false} NormalizeLineEndingsVisible(s: string)
    ensures Visible(NormalizeLineEndings(s)) == Visible(s)
    decreases |s|
  {
    if s == [] {
    } else if |s| >= 2 && s[0] == '\r' && s[1] == '\n' {
      NormalizeLineEndingsVisible(s[2..]);
      VisibleConcat("\n", NormalizeLineEndings(s[2..]));
      assert s[1..][1..] == s[2..];
    } else {
      NormalizeLineEndingsVisible(s[1..]);
      VisibleConcat([s[0]], NormalizeLineEndings(s[1..]));
    }
  }

  lemma {:induction false} CollapseNewlinesVisible(s: string)
    ensures Visible(CollapseNewlines(s)) == Visible(s)
    decreases |s|
  {
    if s == [] {
    } else if s[0] == '\n' {
      var n := RunOf(s, '\n');
      var head := if n >= 3 then "\n\n" else s[..n];
      CollapseNewlinesVisible(s[n..]);
      VisibleConcat(head, CollapseNewlines(s[n..]));
      VisibleOfRun(s, n, '\n');
      assert Visible(head) == [] by {
        if n >= 3 {
          VisibleOfWhitespace("\n\n");
        }
      }
      assert s == s[..n] + s[n..];
      VisibleConcat(s[..n], s[n..]);
    } else {
      CollapseNewlinesVisible(s[1..]);
      VisibleConcat([s[0]], CollapseNewlines(s[1..]));
    }
  }

  lemma {:induction false} CollapseSpacesVisible(s: string)
    ensures Visible(CollapseSpaces(s)) == Visible(s)
    decreases |s|
  {
    if s == [] {
    } else if IsSpaceOrTab(s[0]) {
      var n := BlankRun(s);
      CollapseSpacesVisible(s[n..]);
      VisibleConcat(" ", CollapseSpaces(s[n..]));
      VisibleOfWhitespace(s[..n]);
      assert s == s[..n] + s[n..];
      VisibleConcat(s[..n], s[n..]);
    } else {
      CollapseSpacesVisible(s[1..]);
      VisibleConcat([s[0]], CollapseSpaces(s[1..]));
    }
  }

  lemma TrimVisible(s: string)
    ensures Visible(Trim(s)) == Visible(s)
  {
    var a := TrimStart(s);
    var r := Trim(s);
    TrimStartShape(s);
    TrimEndShape(a);
    assert s == s[..|s| - |a|] + a;
    VisibleConcat(s[..|s| - |a|], a);
    VisibleOfWhitespace(s[..|s| - |a|]);
    assert a == r + a[|r|..];
    VisibleConcat(r, a[|r|..]);
    VisibleOfWhitespace(a[|r|..]);
  }

  /** A trimmed, non-empty text has something visible. */
  lemma TrimmedVisible(r: string)
    requires IsTrimmed(r)
    ensures r != [] ==> Visible(r) != []
  {
    if r != [] {
      assert Visible(r) == [r[0]] + Visible(r[1..]);
    }
  }

  /** `cleanText` changes whitespace only: the visible characters of the
      output are exactly those of the input, in order. Hence the output is
      empty exactly when the input is all whitespace, and otherwise neither
      starts nor ends with whitespace. */
  lemma CleanTextVisible(text: string)
    ensures Visible(CleanText(text)) == Visible(text)
    ensures IsTrimmed(CleanText(text))
    ensures CleanText(text) == [] <==> AllWhitespace(text)
  {
    var p1 := NormalizeLineEndings(text);
    var p2 := CollapseNewlines(p1);
    var p3 := CollapseSpaces(p2);
    NormalizeLineEndingsVisible(text);
    CollapseNewlinesVisible(p1);
    CollapseSpacesVisible(p2);
    TrimVisible(p3);
    TrimShape(p3);
    var r := CleanText(text);
    if AllWhitespace(text) {
      VisibleOfWhitespace(text);
      TrimmedVisible(r);
    }
    if r == [] {
      VisibleEmpty(text);
    }
  }

  // ---------------------------------------------------------------------
  // Line feeds, tabs and spaces in the output
  // ---------------------------------------------------------------------

  /** The first character survives `CollapseNewlines` unless it is a line
      feed, in which case the output starts with one too. */
  lemma CollapseNewlinesHead(s: string)
    requires s != []
    ensures CollapseNewlines(s) != []
    ensures s[0] != '\n' ==> CollapseNewlines(s)[0] == s[0]
    ensures s[0] == '\n' ==> CollapseNewlines(s)[0] == '\n'
  {
    if s[0] == '\n' {
      var n := RunOf(s, '\n');
      assert n >= 1;
    }
  }

  lemma NoTripleCons(c: char, t: string)
    requires NoTripleNewline(t)
    requires c == '\n' && |t| >= 2 ==> !(t[0] == '\n' && t[1] == '\n')
    ensures NoTripleNewline([c] + t)
  {
    var s := [c] + t;
    forall i | 0 <= i && i + 2 < |s|
      ensures !(s[i] == '\n' && s[i + 1] == '\n' && s[i + 2] == '\n')
    {
      if i > 0 {
        assert s[i] == t[i - 1] && s[i + 1] == t[i] && s[i + 2] == t[i + 1];
      }
    }
  }

  lemma {:induction false} CollapseNewlinesNoTriple(s: string)
    ensures NoTripleNewline(CollapseNewlines(s))
    decreases |s|
  {
    if s == [] {
    } else if s[0] == '\n' {
      var n := RunOf(s, '\n');
      var rest := CollapseNewlines(s[n..]);
      CollapseNewlinesNoTriple(s[n..]);
      if s[n..] != [] {
        assert s[n..][0] == s[n];
        CollapseNewlinesHead(s[n..]);
      }
      if n >= 3 {
        NoTripleCons('\n', rest);
        NoTripleCons('\n', "\n" + rest);
        assert "\n\n" + rest == [ '\n'] + ("\n" + rest);
      } else if n == 2 {
        assert s[..n] == "\n\n";
        NoTripleCons('\n', rest);
        NoTripleCons('\n', "\n" + rest);
        assert s[..n] + rest == ['\n'] + ("\n" + rest);
      } else {
        assert s[..n] == "\n";
        NoTripleCons('\n', rest);
      }
    } else {
      CollapseNewlinesNoTriple(s[1..]);
      NoTripleCons(s[0], CollapseNewlines(s[1..]));
    }
  }

  /** The first character survives `CollapseSpaces` unless it is a space or
      tab, in which case the output starts with a space. */
  lemma CollapseSpacesHead(s: string)
    requires s != []
    ensures CollapseSpaces(s) != []
    ensures !IsSpaceOrTab(s[0]) ==> CollapseSpaces(s)[0] == s[0]
    ensures IsSpaceOrTab(s[0]) ==> CollapseSpaces(s)[0] == ' '
  {
  }

  lemma {:induction false} CollapseSpacesKeepsNoTriple(s: string)
    requires NoTripleNewline(s)
    ensures NoTripleNewline(CollapseSpaces(s))
    decreases |s|
  {
    if s == [] {
    } else if IsSpaceOrTab(s[0]) {
      var n := BlankRun(s);
      NoTripleSuffix(s, n);
      CollapseSpacesKeepsNoTriple(s[n..]);
      NoTripleCons(' ', CollapseSpaces(s[n..]));
    } else {
      var t := s[1..];
      NoTripleSuffix(s, 1);
      CollapseSpacesKeepsNoTriple(t);
      if s[0] == '\n' && |CollapseSpaces(t)| >= 2 {
        CollapseSpacesHead(t);
        var u := t[1..];
        if CollapseSpaces(t)[0] == '\n' {
          assert t[0] == '\n';
          assert CollapseSpaces(t) == [t[0]] + CollapseSpaces(u);
          assert u != [];
          CollapseSpacesHead(u);
          assert u[0] != '\n' by {
            assert s[0] == '\n' && s[1] == '\n' && s[2] == u[0];
          }
          assert CollapseSpaces(t)[1] == CollapseSpaces(u)[0];
        }
      }
      NoTripleCons(s[0], CollapseSpaces(t));
    }
  }

  lemma NoTripleSuffix(s: string, n: nat)
    requires n <= |s| && NoTripleNewline(s)
    ensures NoTripleNewline(s[n..])
  {
    var t := s[n..];
    forall i | 0 <= i && i + 2 < |t|
      ensures !(t[i] == '\n' && t[i + 1] == '\n' && t[i + 2] == '\n')
    {
      assert t[i] == s[n + i] && t[i + 1] == s[n + i + 1] && t[i + 2] == s[n + i + 2];
    }
  }

  lemma SingleSpacedCons(c: char, t: string)
    requires SingleSpaced(t) && c != '\t'
    requires c == ' ' && t != [] ==> t[0] != ' '
    ensures SingleSpaced([c] + t)
  {
    var s := [c] + t;
    forall i | 0 <= i < |s| ensures s[i] != '\t' {
      if i > 0 {
        assert s[i] == t[i - 1];
      }
    }
    forall i | 0 <= i && i + 1 < |s| ensures !(s[i] == ' ' && s[i + 1] == ' ') {
      if i > 0 {
        assert s[i] == t[i - 1] && s[i + 1] == t[i];
      }
    }
  }

  lemma {:induction false} CollapseSpacesSingleSpaced(s: string)
    ensures SingleSpaced(CollapseSpaces(s))
    decreases |s|
  {
    if s == [] {
    } else if IsSpaceOrTab(s[0]) {
      var n := BlankRun(s);
      CollapseSpacesSingleSpaced(s[n..]);
      if s[n..] != [] {
        assert s[n..][0] == s[n];
        CollapseSpacesHead(s[n..]);
      }
      SingleSpacedCons(' ', CollapseSpaces(s[n..]));
    } else {
      CollapseSpacesSingleSpaced(s[1..]);
      SingleSpacedCons(s[0], CollapseSpaces(s[1..]));
    }
  }

  /** Both properties hold of every infix, in particular of a trim. */
  lemma InfixKeeps(t: string, s: string)
    requires IsInfix(t, s)
    ensures NoTripleNewline(s) ==> NoTripleNewline(t)
    ensures SingleSpaced(s) ==> SingleSpaced(t)
  {
    var k :| 0 <= k <= |s| && OccursAt(s, t, k);
    forall i | 0 <= i < |t| ensures t[i] == s[k + i] {
      assert t[i] == s[k..k + |t|][i];
    }
  }

  /** `cleanText` leaves no run of three line feeds, no tab and no two
      spaces in a row. */
  lemma CleanTextShape(text: string)
    ensures NoTripleNewline(CleanText(text))
    ensures SingleSpaced(CleanText(text))
  {
    var p2 := CollapseNewlines(NormalizeLineEndings(text));
    var p3 := CollapseSpaces(p2);
    CollapseNewlinesNoTriple(NormalizeLineEndings(text));
    CollapseSpacesKeepsNoTriple(p2);
    CollapseSpacesSingleSpaced(p2);
    TrimIsInfix(p3);
    InfixKeeps(Trim(p3), p3);
  }

  // ---------------------------------------------------------------------
  // Idempotence
  // ---------------------------------------------------------------------

  predicate NoCarriageReturn(s: string) {
    forall i :: 0 <= i < |s| ==> s[i] != '\r'
  }

  lemma NoCarriageReturnCons(c: char, t: string)
    requires c != '\r' && NoCarriageReturn(t)
    ensures NoCarriageReturn([c] + t)
  {
    var s := [c] + t;
    forall i | 0 <= i < |s| ensures s[i] != '\r' {
      if i > 0 {
        assert s[i] == t[i - 1];
      }
    }
  }

  lemma {:induction false} NormalizeLineEndingsNoCR(s: string)
    requires NoCarriageReturn(s)
    ensures NormalizeLineEndings(s) == s
    decreases |s|
  {
    if s != [] {
      NormalizeLineEndingsNoCR(s[1..]);
      assert s == [s[0]] + s[1..];
    }
  }

  lemma {:induction false} CollapseNewlinesKeepsNoCR(s: string)
    requires NoCarriageReturn(s)
    ensures NoCarriageReturn(CollapseNewlines(s))
    decreases |s|
  {
    if s == [] {
    } else if s[0] == '\n' {
      var n := RunOf(s, '\n');
      CollapseNewlinesKeepsNoCR(s[n..]);
      var head := if n >= 3 then "\n\n" else s[..n];
      var r := head + CollapseNewlines(s[n..]);
      forall i | 0 <= i < |r| ensures r[i] != '\r' {
        if i >= |head| {
          assert r[i] == CollapseNewlines(s[n..])[i - |head|];
        }
      }
    } else {
      CollapseNewlinesKeepsNoCR(s[1..]);
      NoCarriageReturnCons(s[0], CollapseNewlines(s[1..]));
    }
  }

  lemma {:induction false} CollapseSpacesKeepsNoCR(s: string)
    requires NoCarriageReturn(s)
    ensures NoCarriageReturn(CollapseSpaces(s))
    decreases |s|
  {
    if s == [] {
    } else if IsSpaceOrTab(s[0]) {
      CollapseSpacesKeepsNoCR(s[BlankRun(s)..]);
      NoCarriageReturnCons(' ', CollapseSpaces(s[BlankRun(s)..]));
    } else {
      CollapseSpacesKeepsNoCR(s[1..]);
      NoCarriageReturnCons(s[0], CollapseSpaces(s[1..]));
    }
  }

  /** A text without three line feeds in a row is left alone by the
      line-feed pass. */
  lemma {:induction false} CollapseNewlinesIdentity(s: string)
    requires NoTripleNewline(s)
    ensures CollapseNewlines(s) == s
    decreases |s|
  {
    if s == [] {
    } else if s[0] == '\n' {
      var n := RunOf(s, '\n');
      if |s| >= 3 {
        assert !(s[0] == '\n' && s[1] == '\n' && s[2] == '\n');
      }
      assert n < 3;
      NoTripleSuffix(s, n);
      CollapseNewlinesIdentity(s[n..]);
      assert s == s[..n] + s[n..];
    } else {
      NoTripleSuffix(s, 1);
      CollapseNewlinesIdentity(s[1..]);
      assert s == [s[0]] + s[1..];
    }
  }

  lemma SingleSpacedSuffix(s: string, n: nat)
    requires n <= |s| && SingleSpaced(s)
    ensures SingleSpaced(s[n..])
  {
    var t := s[n..];
    forall i | 0 <= i < |t| ensures t[i] != '\t' {
      assert t[i] == s[n + i];
    }
    forall i | 0 <= i && i + 1 < |t| ensures !(t[i] == ' ' && t[i + 1] == ' ') {
      assert t[i] == s[n + i] && t[i + 1] == s[n + i + 1];
    }
  }

  /** A single-spaced text is left alone by the space pass. */
  lemma {:induction false} CollapseSpacesIdentity(s: string)
    requires SingleSpaced(s)
    ensures CollapseSpaces(s) == s
    decreases |s|
  {
    if s != [] {
      SingleSpacedSuffix(s, 1);
      CollapseSpacesIdentity(s[1..]);
      if IsSpaceOrTab(s[0]) {
        assert s[0] == ' ';
        assert BlankRun(s) == 1 by {
          if |s| > 1 {
            assert !(s[0] == ' ' && s[1] == ' ');
            assert s[1] != '\t';
          }
        }
      }
      assert s == [s[0]] + s[1..];
    }
  }

  /** Cleaning a cleaned text changes nothing, as long as the original held
      no carriage return: a lone `\r` that the first pass leaves in front of a
      `\r\n` pair forms a new pair in the output. */
  lemma CleanTextIdempotent(text: string)
    requires NoCarriageReturn(text)
    ensures CleanText(CleanText(text)) == CleanText(text)
  {
    var p1 := NormalizeLineEndings(text);
    var p2 := CollapseNewlines(p1);
    var p3 := CollapseSpaces(p2);
    var r := Trim(p3);
    NormalizeLineEndingsNoCR(text);
    CollapseNewlinesKeepsNoCR(p1);
    CollapseSpacesKeepsNoCR(p2);
    TrimIsInfix(p3);
    forall i | 0 <= i < |r| ensures r[i] != '\r' {
      var k :| 0 <= k <= |p3| && OccursAt(p3, r, k);
      assert r[i] == p3[k..k + |r|][i];
    }
    CleanTextShape(text);
    CleanTextVisible(text);
    NormalizeLineEndingsNoCR(r);
    CollapseNewlinesIdentity(r);
    CollapseSpacesIdentity(r);
    TrimOfTrimmed(r);
  }

  /** Without the precondition idempotence fails: one cleaning of
      `a\r\r\n\nb` still holds a `\r\n` pair, which a second cleaning
      turns into a line feed. */
  lemma CleanTextCarriageReturnNotIdempotent()
    ensures CleanText("a\r\r\n\nb") == "a\r\n\nb"
    ensures CleanText("a\r\n\nb") == "a\n\nb"
  {
    assert NormalizeLineEndings("\r\n\nb") == "\n" + NormalizeLineEndings("\nb");
    assert NormalizeLineEndings("\nb") == "\nb";
    assert NormalizeLineEndings("a\r\r\n\nb") == "a\r\n\nb";
    assert NormalizeLineEndings("a\r\n\nb") == "a\n\nb";
    ParagraphBreakClean("a\r\n\nb", '\r');
    ParagraphBreakClean("a\n\nb", '\n');
  }

  /** `a`, a carriage return or line feed, a line feed, a line feed, `b`
      is already clean after the first pass. */
  lemma ParagraphBreakClean(s: string, c: char)
    requires c == '\r' || c == '\n'
    requires s == if c == '\r' then "a\r\n\nb" else "a\n\nb"
    ensures Trim(CollapseSpaces(CollapseNewlines(s))) == s
  {
    assert NoTripleNewline(s) by {
      forall i | 0 <= i && i + 2 < |s|
        ensures !(s[i] == '\n' && s[i + 1] == '\n' && s[i + 2] == '\n')
      {
        assert s[i] == '\n' ==> s[i + 2] != '\n';
      }
    }
    assert SingleSpaced(s);
    assert IsTrimmed(s);
    Cleaned(s);
  }

  /** The three passes after the first leave `s` alone. */
  lemma Cleaned(s: string)
    requires NoTripleNewline(s) && SingleSpaced(s) && IsTrimmed(s)
    ensures Trim(CollapseSpaces(CollapseNewlines(s))) == s
  {
    CollapseNewlinesIdentity(s);
    CollapseSpacesIdentity(s);
    TrimOfTrimmed(s);
  }
}
