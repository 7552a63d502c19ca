/**
  Why a renamed synonym is never elided (DocCommentSortUtilty.cs:40-61, 69-86): the empty-element
  test compares the line with the empty form of the name AS MATCHED, but by then the rename has
  rewritten every `<remark>` and `</remark>` of the line, so that form can no longer appear.
 */
module Renaming {
  import opened Wrappers
  import opened DotNetText
  import opened Options
  import opened Patterns
  import opened Routing

  /** `q` occurs nowhere in `s`. */
  ghost predicate Absent(s: string, q: string) {
    forall j :: !OccursAt(s, q, j)
  }

  /** What is absent from a text is absent from each of its suffixes. */
  lemma AbsentFromSuffix(s: string, q: string, k: nat)
    requires Absent(s, q) && k <= |s|
    ensures Absent(s[k..], q)
  {
    forall j ensures !OccursAt(s[k..], q, j) {
      if 0 <= j && j + |q| <= |s| - k {
        assert s[k..][j..j + |q|] == s[k + j..k + j + |q|];
        assert !OccursAt(s, q, k + j);
      }
    }
  }

  /** A replacement that starts with `<` cannot produce a prefix without `<` that was not there. */
  lemma {:induction false} PrefixWithoutBracket(t: string, p: string, rep: string, w: string)
    requires |p| > 0 && |rep| > 0 && rep[0] == '<' && '<' !in w
    ensures StartsWith(ReplaceAll(t, p, rep), w) ==> StartsWith(t, w)
    decreases |t|
  {
    if w == [] || |t| < |p| {
    } else if t[..|p|] == p {
      assert ReplaceAll(t, p, rep)[0] == '<';
      assert w[0] != '<';
    } else {
      var rest := ReplaceAll(t[1..], p, rep);
      assert ReplaceAll(t, p, rep) == [t[0]] + rest;
      assert '<' !in w[1..] by {
        forall i | 0 <= i < |w| - 1 ensures w[1..][i] != '<' {
          assert w[1..][i] == w[i + 1];
        }
      }
      PrefixWithoutBracket(t[1..], p, rep, w[1..]);
      if StartsWith(rest, w[1..]) && t[0] == w[0] {
        assert t[..|w|] == [t[0]] + t[1..][..|w| - 1];
      }
      if |w| <= |rest| + 1 {
        assert ([t[0]] + rest)[..|w|] == [t[0]] + rest[..|w| - 1];
      }
    }
  }

  /** Renaming `<x>` to `<xs>` everywhere leaves no `<x>` behind. */
  lemma {:induction false} OpeningTagGone(s: string, x: string)
    requires '<' !in x
    ensures Absent(ReplaceAll(s, "<" + x + ">", "<" + x + "s>"), "<" + x + ">")
    decreases |s|
  {
    var p := "<" + x + ">";
    var rep := "<" + x + "s>";
    if |s| < |p| {
    } else if s[..|p|] == p {
      OpeningTagGone(s[|p|..], x);
      assert ReplaceAll(s, p, rep) == rep + ReplaceAll(s[|p|..], p, rep);
      NoTagAfterRenamedOpening(x, ReplaceAll(s[|p|..], p, rep));
    } else {
      OpeningTagGone(s[1..], x);
      assert ReplaceAll(s, p, rep) == [s[0]] + ReplaceAll(s[1..], p, rep);
      NoTagAfterKeptChar(s, x, p, rep);
    }
  }

  /** `<xs>` followed by a text without `<x>` holds no `<x>`. */
  lemma NoTagAfterRenamedOpening(x: string, rest: string)
    requires '<' !in x
    requires Absent(rest, "<" + x + ">")
    ensures Absent("<" + x + "s>" + rest, "<" + x + ">")
  {
    var p := "<" + x + ">";
    var rep := "<" + x + "s>";
    var r := rep + rest;
    assert |p| == |x| + 2 && |rep| == |x| + 3;
    forall j ensures !OccursAt(r, p, j) {
      if j == 0 {
        assert r[|x| + 1] == rep[|x| + 1] == 's';
        assert p[|x| + 1] == '>';
        if |p| <= |r| {
          assert r[..|p|][|x| + 1] == 's';
        }
      } else if 0 < j < |rep| {
        assert r[j] == rep[j];
        if j <= |x| {
          assert rep[j] == x[j - 1];
        }
        assert r[j] != '<';
        if j + |p| <= |r| {
          assert r[j..j + |p|][0] == r[j];
        }
      } else if j >= |rep| && j + |p| <= |r| {
        assert r[j..j + |p|] == rest[j - |rep|..j - |rep| + |p|];
        assert !OccursAt(rest, p, j - |rep|);
      }
    }
  }

  /** A character kept by ReplaceAll, followed by a text without `<x>`, makes no `<x>`
      unless the text before the replacement already held one there. */
  lemma NoTagAfterKeptChar(s: string, x: string, p: string, rep: string)
    requires '<' !in x
    requires (p == "<" + x + ">" && rep == "<" + x + "s>") || (p == "</" + x + ">" && rep == "</" + x + "s>")
    requires |p| <= |s| && s[..|p|] != p
    requires !OccursAt(s, "<" + x + ">", 0)
    requires Absent(ReplaceAll(s[1..], p, rep), "<" + x + ">")
    ensures Absent([s[0]] + ReplaceAll(s[1..], p, rep), "<" + x + ">")
  {
    var q := "<" + x + ">";
    var rest := ReplaceAll(s[1..], p, rep);
    var r := [s[0]] + rest;
    var w := x + ">";
    assert |q| == |x| + 2 && q[0] == '<' && q[1..] == w;
    if |q| <= |r| {
      if s[0] == '<' {
        if |q| <= |s| {
          assert s[..|q|] == [s[0]] + s[1..][..|w|];
        }
        assert !StartsWith(s[1..], w);
        PrefixWithoutBracket(s[1..], p, rep, w);
        assert r[..|q|] == [s[0]] + rest[..|w|];
      } else {
        assert r[..|q|][0] != q[0];
      }
    }
    AbsentBeyondHead(s[0], rest, q);
  }

  /** A text without `q`, after one more character, holds `q` at most at its start. */
  lemma AbsentBeyondHead(c: char, rest: string, q: string)
    requires Absent(rest, q)
    ensures !OccursAt([c] + rest, q, 0) ==> Absent([c] + rest, q)
  {
    var r := [c] + rest;
    forall j | 0 < j && j + |q| <= |r| ensures !OccursAt(r, q, j) {
      assert r[j..j + |q|] == rest[j - 1..j - 1 + |q|];
      assert !OccursAt(rest, q, j - 1);
    }
  }

  /** Renaming `</x>` to `</xs>` does not create a `<x>`. */
  lemma {:induction false} ClosingRenameKeepsAbsent(s: string, x: string)
    requires '<' !in x && '/' !in x
    requires Absent(s, "<" + x + ">")
    ensures Absent(ReplaceAll(s, "</" + x + ">", "</" + x + "s>"), "<" + x + ">")
    decreases |s|
  {
    var q := "<" + x + ">";
    var p := "</" + x + ">";
    var rep := "</" + x + "s>";
    if |s| < |p| {
      assert ReplaceAll(s, p, rep) == s;
    } else if s[..|p|] == p {
      AbsentFromSuffix(s, q, |p|);
      ClosingRenameKeepsAbsent(s[|p|..], x);
      assert ReplaceAll(s, p, rep) == rep + ReplaceAll(s[|p|..], p, rep);
      NoTagAfterRenamedClosing(x, ReplaceAll(s[|p|..], p, rep));
    } else {
      AbsentFromSuffix(s, q, 1);
      ClosingRenameKeepsAbsent(s[1..], x);
      assert ReplaceAll(s, p, rep) == [s[0]] + ReplaceAll(s[1..], p, rep);
      assert !OccursAt(s, q, 0);
      NoTagAfterKeptChar(s, x, p, rep);
    }
  }

  /** `</xs>` followed by a text without `<x>` holds no `<x>`. */
  lemma NoTagAfterRenamedClosing(x: string, rest: string)
    requires '<' !in x && '/' !in x
    requires Absent(rest, "<" + x + ">")
    ensures Absent("</" + x + "s>" + rest, "<" + x + ">")
  {
    var q := "<" + x + ">";
    var rep := "</" + x + "s>";
    var r := rep + rest;
    assert |q| == |x| + 2 && |rep| == |x| + 4;
    assert q[1] != '/';
    forall j ensures !OccursAt(r, q, j) {
      if j == 0 {
        assert r[1] == rep[1] == '/';
        if |q| <= |r| {
          assert r[..|q|][1] == '/';
        }
      } else if 0 < j < |rep| {
        assert r[j] == rep[j];
        if 2 <= j < |x| + 2 {
          assert rep[j] == x[j - 2];
        }
        assert r[j] != '<';
        if j + |q| <= |r| {
          assert r[j..j + |q|][0] == r[j];
        }
      } else if j >= |rep| && j + |q| <= |r| {
        assert r[j..j + |q|] == rest[j - |rep|..j - |rep| + |q|];
        assert !OccursAt(rest, q, j - |rep|);
      }
    }
  }

  /** A line whose trimmed text is the empty form of `x` holds the opening tag of `x`. */
  lemma EmptyFormHasOpeningTag(s: string, x: string)
    ensures Trim(s) == EmptyElement(x) ==> exists a :: OccursAt(s, "<" + x + ">", a)
  {
    var e := EmptyElement(x);
    if Trim(s) == e {
      var t := TrimStart(s);
      var a := |s| - |t|;
      assert t[..|e|] == e;
      OpeningTagInEmptyForm(x);
      OccursInside(s, a, e, "<" + x + ">", 4);
    }
  }

  /** The empty form of `x` holds the opening tag of `x` after its first four characters. */
  lemma OpeningTagInEmptyForm(x: string)
    ensures OccursAt(EmptyElement(x), "<" + x + ">", 4)
  {
    assert EmptyElement(x) == "/// " + ("<" + x + ">") + ("</" + x + ">");
  }

  /** What occurs in a text found at index `a` of `s` occurs in `s`. */
  lemma OccursInside(s: string, a: nat, e: string, q: string, b: nat)
    requires a <= |s| && |e| <= |s| - a && s[a..][..|e|] == e && OccursAt(e, q, b)
    ensures OccursAt(s, q, a + b)
  {
    assert s[a + b..a + b + |q|] == s[a..][..|e|][b..b + |q|];
  }

  /** After both tags of a synonym are renamed, the line is not the empty form of the synonym. */
  lemma RenamedIsNotEmptyForm(line: string, x: string, expected: string)
    requires '<' !in x && '/' !in x && expected == x + "s"
    ensures Trim(RenameTags(line, x, expected)) != EmptyElement(x)
  {
    var once := ReplaceAll(line, "<" + x + ">", "<" + x + "s>");
    assert "<" + expected + ">" == "<" + x + "s>";
    assert "</" + expected + ">" == "</" + x + "s>";
    var text := ReplaceAll(once, "</" + x + ">", "</" + x + "s>");
    assert RenameTags(line, x, expected) == text;
    OpeningTagGone(line, x);
    ClosingRenameKeepsAbsent(once, x);
    EmptyFormHasOpeningTag(text, x);
  }

  /** `HandleElement` with renaming on, for a synonym `x` of `x + "s"` (the switch passes
      `remark` for `remarks` and `return` for `returns`): the line is renamed, reported, and
      routed to its bucket; it is never elided, even when it is the empty form of `x`. */
  lemma RenamedSectionElement(opts: SortUtilityOptions, x: string, expected: string, target: Section,
                              line: string, lineNumber: int)
    requires '<' !in x && '/' !in x && x != [] && !IsWhiteSpace(x[0]) && expected == x + "s"
    requires opts.renameInvalidElements
    ensures RouteSectionElement(opts, x, expected, x, target, line, lineNumber).text == RenameTags(line, x, expected)
    ensures RouteSectionElement(opts, x, expected, x, target, line, lineNumber).action == Open(target)
    ensures RouteSectionElement(opts, x, expected, x, target, line, lineNumber).diags ==
              [InvalidElementName(lineNumber, x, expected, false, true)]
  {
    RenamedIsNotEmptyForm(line, x, expected);
  }

  /** With renaming off, a synonym is still reported but left as it is, and its empty form is
      elided when its removal switch is on, as the empty-element test compares against the
      name as matched. */
  lemma UnrenamedSynonymElision(opts: SortUtilityOptions, synonym: string, line: string, lineNumber: int)
    requires synonym == "remark" || synonym == "return"
    requires !opts.renameInvalidElements
    ensures RouteElement(opts, synonym, line, lineNumber).text == line
    ensures RouteElement(opts, synonym, line, lineNumber).diags ==
              [InvalidElementName(lineNumber, synonym, synonym + "s", false, false)]
    ensures RouteElement(opts, synonym, line, lineNumber).action == Elide <==>
              Trim(line) == EmptyElement(synonym) && RemovedWhenEmpty(opts, synonym)
  {
    if synonym == "remark" {
      RemarkRoute(opts, line, lineNumber);
      RemarkIsReported(opts, line, lineNumber);
      assert synonym + "s" == "remarks";
    } else {
      ReturnRoute(opts, line, lineNumber);
      ReturnIsReported(opts, line, lineNumber);
      assert synonym + "s" == "returns";
    }
  }
}
