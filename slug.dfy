/**
 * `generateSlug` of `src/mdx.ts`: a provided slug is used as it is;
 * otherwise the title is lower-cased, every run of characters outside
 * `[a-z0-9]` becomes one `-`, and the dashes at the ends are dropped.
 * The result is the title's alphanumeric words joined by single dashes.
 */
module Slug {
  import opened Strings
  import opened Sequences

  predicate IsSlugChar(c: char) {
    'a' <= c <= 'z' || '0' <= c <= '9'
  }

  /** The length of the leading run of `s`: characters that are all in
      `[a-z0-9]` or all outside it. */
  function Span(s: string): (k: nat)
    requires s != []
    ensures 1 <= k <= |s|
  {
    if |s| == 1 || IsSlugChar(s[1]) != IsSlugChar(s[0]) then 1
    else 1 + Span(s[1..])
  }

  /** The run is as long as it can be. */
  lemma {:induction false} SpanRun(s: string)
    requires s != []
    ensures forall i :: 0 <= i < Span(s) ==> IsSlugChar(s[i]) == IsSlugChar(s[0])
    ensures Span(s) < |s| ==> IsSlugChar(s[Span(s)]) != IsSlugChar(s[0])
  {
    if !(|s| == 1 || IsSlugChar(s[1]) != IsSlugChar(s[0])) {
      SpanRun(s[1..]);
    }
  }

  /** `s.replace(/[^a-z0-9]+/g, "-")`: every maximal run of other
      characters becomes one `-`. */
  function Collapse(s: string): string
    decreases |s|
  {
    if s == [] then []
    else
      var k := Span(s);
      (if IsSlugChar(s[0]) then s[..k] else "-") + Collapse(s[k..])
  }

  /** The maximal runs of `[a-z0-9]` in `s`, in order. */
  function Words(s: string): seq<string>
    decreases |s|
  {
    if s == [] then []
    else
      var k := Span(s);
      (if IsSlugChar(s[0]) then [s[..k]] else []) + Words(s[k..])
  }

  predicate IsWord(w: string) {
    w != [] && forall i :: 0 <= i < |w| ==> IsSlugChar(w[i])
  }

  /** `generateSlug(title, providedSlug)`; an absent slug is the empty
      one. */
  function GenerateSlug(title: string, provided: string): (r: string)
    ensures provided != [] ==> r == provided
    ensures provided == [] ==> r == Join(Words(ToLower(title)), '-')
  {
    if provided != [] then provided
    else
      CollapseTrimmed(ToLower(title));
      TrimChar(Collapse(ToLower(title)), '-')
  }

  lemma {:induction false} WordsAreWords(s: string)
    ensures forall i :: 0 <= i < |Words(s)| ==> IsWord(Words(s)[i])
    decreases |s|
  {
    if s != [] {
      var k := Span(s);
      SpanRun(s);
      WordsAreWords(s[k..]);
      var h: seq<string> := if IsSlugChar(s[0]) then [s[..k]] else [];
      assert Words(s) == h + Words(s[k..]);
    }
  }

  // ---------------------------------------------------------------------
  // The collapsed form is the words joined by dashes

  lemma {:induction false} CollapseNoWords(s: string)
    requires Words(s) == []
    ensures Collapse(s) == if s == [] then [] else "-"
  {
    if s != [] {
      var k := Span(s);
      SpanRun(s);
    }
  }

  /** One word at the front of `s`, and what follows it. */
  lemma WordStep(s: string)
    requires s != [] && IsSlugChar(s[0])
    ensures var k := Span(s);
            var rest := s[k..];
            && Collapse(s) == s[..k] + Collapse(rest)
            && Words(s) == [s[..k]] + Words(rest)
            && (rest == [] || !IsSlugChar(rest[0]))
            && (rest == [] ==> IsSlugChar(s[|s| - 1]))
            && (rest != [] ==> s[|s| - 1] == rest[|rest| - 1])
  {
    RunEnds(s);
  }

  /** One gap at the front of `s`, and what follows it. */
  lemma GapStep(s: string)
    requires s != [] && !IsSlugChar(s[0])
    ensures var k := Span(s);
            var rest := s[k..];
            && Collapse(s) == "-" + Collapse(rest)
            && Words(s) == Words(rest)
            && (rest == [] || IsSlugChar(rest[0]))
            && (rest == [] ==> !IsSlugChar(s[|s| - 1]))
            && (rest != [] ==> s[|s| - 1] == rest[|rest| - 1])
  {
    RunEnds(s);
    EmptyAppend(Words(s[Span(s)..]));
  }

  /** What follows the leading run starts a run of the other kind, and
      the last character of `s` is that of the run or of what follows. */
  lemma RunEnds(s: string)
    requires s != []
    ensures var rest := s[Span(s)..];
            && (rest == [] || IsSlugChar(rest[0]) != IsSlugChar(s[0]))
            && (rest == [] ==> IsSlugChar(s[|s| - 1]) == IsSlugChar(s[0]))
            && (rest != [] ==> s[|s| - 1] == rest[|rest| - 1])
  {
    SpanRun(s);
  }

  /** Starting with a word, the collapsed form is the words joined by
      dashes, with one more dash when `s` ends outside a word. */
  lemma {:induction false} CollapseFromWord(s: string)
    requires s != [] && IsSlugChar(s[0])
    ensures Words(s) != []
    ensures Collapse(s) == Join(Words(s), '-') + (if IsSlugChar(s[|s| - 1]) then [] else "-")
    decreases |s|
  {
    var w := s[..Span(s)];
    var g := s[Span(s)..];
    WordStep(s);
    if g != [] {
      var t := g[Span(g)..];
      GapStep(g);
      if t != [] {
        CollapseFromWord(t);
        Assemble(w, Collapse(t), Words(t), IsSlugChar(t[|t| - 1]));
      }
    }
  }

  /** A word, a dash and the collapsed rest, put together. */
  lemma Assemble(w: string, ct: string, ws: seq<string>, last: bool)
    requires ws != []
    requires ct == Join(ws, '-') + (if last then [] else "-")
    ensures w + ("-" + ct) == Join([w] + ws, '-') + (if last then [] else "-")
  {
    JoinCons(w, ws, '-');
  }

  lemma CollapseTrimmed(s: string)
    ensures TrimChar(Collapse(s), '-') == Join(Words(s), '-')
  {
    if Words(s) == [] {
      CollapseNoWords(s);
    } else if IsSlugChar(s[0]) {
      TrimmedFromWord(s);
    } else {
      var t := s[Span(s)..];
      GapStep(s);
      TrimmedFromWord(t);
      TrimDashBefore(Collapse(t));
    }
  }

  lemma TrimmedFromWord(s: string)
    requires s != [] && IsSlugChar(s[0])
    ensures Words(s) != []
    ensures TrimChar(Collapse(s), '-') == Join(Words(s), '-')
    ensures Collapse(s) != [] && Collapse(s)[0] != '-'
  {
    var y := Join(Words(s), '-');
    CollapseFromWord(s);
    WordsAreWords(s);
    JoinedEnds(Words(s));
    TrimDashAfter(y);
    if IsSlugChar(s[|s| - 1]) {
      AppendEmpty(y);
    } else {
      assert Collapse(s) == y + "-";
      assert Collapse(s)[0] == y[0];
    }
  }

  lemma TrimDashBefore(y: string)
    requires y != [] && y[0] != '-'
    ensures TrimChar("-" + y, '-') == TrimChar(y, '-')
  {
    assert ("-" + y)[1..] == y;
  }

  lemma TrimDashAfter(y: string)
    requires y != [] && y[0] != '-' && y[|y| - 1] != '-'
    ensures TrimChar(y + "-", '-') == y && TrimChar(y, '-') == y
  {
    var z := y + "-";
    assert z[..|z| - 1] == y;
    TrimCharNoEnds(y, '-');
  }

  // ---------------------------------------------------------------------
  // Words joined by dashes

  /** A dash-joined list of words starts and ends with a word character
      and holds no dash next to another. */
  predicate SlugShape(s: string) {
    && (s == [] || (IsSlugChar(s[0]) && IsSlugChar(s[|s| - 1])))
    && (forall i :: 0 <= i < |s| ==> IsSlugChar(s[i]) || s[i] == '-')
    && (forall i :: 0 <= i < |s| - 1 ==> s[i] != '-' || s[i + 1] != '-')
  }

  lemma {:induction false} JoinedEnds(ws: seq<string>)
    requires ws != [] && forall i :: 0 <= i < |ws| ==> IsWord(ws[i])
    ensures var y := Join(ws, '-'); y != [] && y[0] != '-' && y[|y| - 1] != '-'
  {
    SlugShapeJoin(ws);
  }

  lemma {:induction false} SlugShapeJoin(ws: seq<string>)
    requires forall i :: 0 <= i < |ws| ==> IsWord(ws[i])
    ensures SlugShape(Join(ws, '-'))
    ensures ws != [] ==> Join(ws, '-') != [] && Join(ws, '-')[0] == ws[0][0]
  {
    if |ws| > 1 {
      var w, rest := ws[0], ws[1..];
      SlugShapeJoin(rest);
      var y := Join(rest, '-');
      var s := w + ['-'] + y;
      assert Join(ws, '-') == s;
      assert rest[0] == ws[1];
      forall i | 0 <= i < |s| ensures IsSlugChar(s[i]) || s[i] == '-' {
        if i > |w| {
          assert s[i] == y[i - |w| - 1];
        }
      }
      forall i | 0 <= i < |s| - 1 ensures s[i] != '-' || s[i + 1] != '-' {
        if i > |w| {
          assert s[i] == y[i - |w| - 1] && s[i + 1] == y[i - |w|];
        }
      }
    }
  }

  /** A word followed by nothing or by a gap is one run. */
  lemma WordThenGap(w: string, x: string)
    requires IsWord(w) && (x == [] || !IsSlugChar(x[0]))
    ensures Words(w + x) == [w] + Words(x)
    ensures Collapse(w + x) == w + Collapse(x)
  {
    var s := w + x;
    SpanRun(s);
    assert x != [] ==> s[|w|] == x[0];
    assert forall i :: 0 <= i < |w| ==> s[i] == w[i];
    assert Span(s) == |w|;
    assert s[..|w|] == w && s[|w|..] == x;
  }

  /** The words of a dash-joined list of words are those words. */
  lemma {:induction false} WordsOfJoin(ws: seq<string>)
    requires forall i :: 0 <= i < |ws| ==> IsWord(ws[i])
    ensures Words(Join(ws, '-')) == ws
  {
    if |ws| == 1 {
      WordThenGap(ws[0], []);
      assert ws[0] + [] == ws[0];
      AppendEmpty([ws[0]]);
      Singleton(ws);
    } else if |ws| > 1 {
      var w, rest := ws[0], ws[1..];
      var y := Join(rest, '-');
      SlugShapeJoin(rest);
      assert rest[0] == ws[1];
      var g := ['-'] + y;
      HeadTail(ws);
      JoinCons(w, rest, '-');
      assert Join(ws, '-') == w + g;
      WordThenGap(w, g);
      WordsAfterDash(y);
      WordsOfJoin(rest);
    }
  }

  /** A dash before a word adds no word. */
  lemma WordsAfterDash(y: string)
    requires y != [] && IsSlugChar(y[0])
    ensures Words(['-'] + y) == Words(y)
  {
    var g := ['-'] + y;
    assert g[1] == y[0];
    assert Span(g) == 1;
    assert g[1..] == y;
    EmptyAppend(Words(y));
  }

  // ---------------------------------------------------------------------
  // What a generated slug looks like

  /** A generated slug holds only `[a-z0-9-]`, never two dashes in a row,
      and no dash at either end. */
  lemma GeneratedShape(title: string)
    ensures SlugShape(GenerateSlug(title, ""))
  {
    WordsAreWords(ToLower(title));
    SlugShapeJoin(Words(ToLower(title)));
  }

  /** Generating a slug from a generated slug changes nothing. */
  lemma GenerateSlugIdempotent(title: string)
    ensures GenerateSlug(GenerateSlug(title, ""), "") == GenerateSlug(title, "")
  {
    var ws := Words(ToLower(title));
    var y := Join(ws, '-');
    WordsAreWords(ToLower(title));
    SlugShapeJoin(ws);
    ToLowerNoUpper(y);
    WordsOfJoin(ws);
  }
}
