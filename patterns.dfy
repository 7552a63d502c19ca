/**
  The four line patterns of the block sorter (DocCommentSortUtilty.cs:15-21), written as
  string predicates instead of regular expressions. Each regex is anchored at the start of
  the line and begins with `[ \t]*`, a run of spaces and tabs only; the `.` of a regex stops
  at a line feed.
 */
module Patterns {
  import opened Wrappers
  import opened DotNetText

  const Marker := "///"

  /** A character of the `[ \t]` class. */
  predicate IsBlank(c: char) {
    c == ' ' || c == '\t'
  }

  /** A character of the `[^ />]` class that element names are made of. */
  predicate IsNameChar(c: char) {
    c != ' ' && c != '/' && c != '>'
  }

  /** The length of the `[ \t]*` run at the front of `s`. */
  function BlankRun(s: string): (n: nat)
    ensures n <= |s|
    ensures forall i :: 0 <= i < n ==> IsBlank(s[i])
    ensures n == |s| || !IsBlank(s[n])
    decreases |s|
  {
    if s != [] && IsBlank(s[0]) then 1 + BlankRun(s[1..]) else 0
  }

  /** The length of the `[^ />]+` run at the front of `s` (zero when there is none). */
  function NameRun(s: string): (n: nat)
    ensures n <= |s|
    ensures forall i :: 0 <= i < n ==> IsNameChar(s[i])
    ensures n == |s| || !IsNameChar(s[n])
    decreases |s|
  {
    if s != [] && IsNameChar(s[0]) then 1 + NameRun(s[1..]) else 0
  }

  // `^[ \t]*///`, the prefix shared by the element and invalid-closing patterns.
  predicate OpensWithMarker(line: string) {
    var k := BlankRun(line);
    k + 3 <= |line| && line[k..k + 3] == Marker
  }

  // mCommentMatcher, `^[ \t]*//[^/]`: a plain comment, not a documentation line.
  predicate IsPlainComment(line: string) {
    var k := BlankRun(line);
    k + 3 <= |line| && line[k] == '/' && line[k + 1] == '/' && line[k + 2] != '/'
  }

  /** `s` starts with the keyword `kw` followed by a space or a tab. */
  predicate KeywordThenBlank(s: string, kw: string) {
    |kw| < |s| && s[..|kw|] == kw && IsBlank(s[|kw|])
  }

  // mCommentedScopeMatcher, `^[ \t]*//[ \t]*(public|protected|private|internal)[ \t]`:
  // a commented-out member declaration. Taking fewer blanks after `//` never helps the
  // regex, since no keyword starts with a blank.
  predicate IsCommentedScope(line: string) {
    var k := BlankRun(line);
    && k + 2 <= |line|
    && line[k] == '/' && line[k + 1] == '/'
    && var rest := line[k + 2..];
       var word := rest[BlankRun(rest)..];
       || KeywordThenBlank(word, "public")
       || KeywordThenBlank(word, "protected")
       || KeywordThenBlank(word, "private")
       || KeywordThenBlank(word, "internal")
  }

  // mElementMatcher, `^[ \t]*///[ \t]*<(?<ElementName>[^ />]+)`: the element name of an
  // element line; the greedy name group takes the longest run of name characters.
  function ElementName(line: string): (r: Option<string>)
    ensures r.Some? ==> OpensWithMarker(line)
    ensures r.Some? ==> |r.value| > 0 && forall i :: 0 <= i < |r.value| ==> IsNameChar(r.value[i])
  {
    if !OpensWithMarker(line) then None
    else
      var rest := line[BlankRun(line) + 3..];
      var m := BlankRun(rest);
      if m < |rest| && rest[m] == '<' then
        var tail := rest[m + 1..];
        var n := NameRun(tail);
        if n > 0 then Some(tail[..n]) else None
      else None
  }

  /** The index of the first line feed at or after `i`, or the length: how far `.` can reach. */
  function LineFeedFrom(s: string, i: nat): (e: nat)
    requires i <= |s|
    ensures i <= e <= |s|
    ensures forall j :: i <= j < e ==> s[j] != '\n'
    ensures e == |s| || s[e] == '\n'
    decreases |s| - i
  {
    if i == |s| || s[i] == '\n' then i else LineFeedFrom(s, i + 1)
  }

  /** A `</remark>` or a `</return>` begins at index `i`. */
  predicate ClosingAt(s: string, i: int) {
    OccursAt(s, "</remark>", i) || OccursAt(s, "</return>", i)
  }

  /** No `</remark>` and no `</return>` begins at an index in `(a, b]`. */
  predicate NoClosingIn(s: string, a: int, b: int) {
    forall j :: a < j <= b ==> !ClosingAt(s, j)
  }

  /** Where the last `</remark>` or `</return>` that begins at an index in `(from, p]` begins. */
  function LastClosingIndex(s: string, from: nat, p: nat): (r: Option<nat>)
    requires from <= p <= |s|
    ensures r.Some? ==> from < r.value <= p && ClosingAt(s, r.value) && NoClosingIn(s, r.value, p)
    ensures r.None? ==> NoClosingIn(s, from, p)
    decreases p
  {
    if p <= from then None
    else if ClosingAt(s, p) then Some(p)
    else LastClosingIndex(s, from, p - 1)
  }

  /** The name in the last `</remark>` or `</return>` that begins at an index in `(from, p]`. */
  function LastClosing(s: string, from: nat, p: nat): (r: Option<string>)
    requires from <= p <= |s|
    ensures r.None? <==> LastClosingIndex(s, from, p).None?
    ensures r.Some? ==> r.value == "remark" || r.value == "return"
    ensures r.Some? ==> OccursAt(s, "</" + r.value + ">", LastClosingIndex(s, from, p).value)
  {
    match LastClosingIndex(s, from, p)
    case None => None
    case Some(i) => if OccursAt(s, "</remark>", i) then Some("remark") else Some("return")
  }

  // mInvalidClosingElementMatcher, `^[ \t]*///.+</(?<ElementName>remark|return)>`: the
  // greedy `.+` (at least one character, no line feed) selects the LAST such closing tag.
  function InvalidClosingName(line: string): (r: Option<string>)
    ensures r.Some? ==> OpensWithMarker(line)
    ensures r.Some? ==> r.value == "remark" || r.value == "return"
  {
    if !OpensWithMarker(line) then None
    else
      var from := BlankRun(line) + 3;
      LastClosing(line, from, LineFeedFrom(line, from))
  }

  /** Leading white space that ends before a non-white-space character is what `TrimStart`
      removes. */
  lemma TrimStartAt(line: string, k: nat)
    requires k < |line| && !IsWhiteSpace(line[k])
    requires forall i :: 0 <= i < k ==> IsWhiteSpace(line[i])
    ensures TrimStart(line) == line[k..]
  {
    assert line == line[..k] + line[k..];
    TrimStartSkipsWhiteSpace(line[..k], line[k..]);
  }

  // A line that opens with `[ \t]*///` also starts with `///` once trimmed.
  lemma MarkerSurvivesTrim(line: string)
    requires OpensWithMarker(line)
    ensures StartsWith(TrimStart(line), Marker)
  {
    var k := BlankRun(line);
    forall i | 0 <= i < k ensures IsWhiteSpace(line[i]) {
      assert IsBlank(line[i]);
    }
    assert line[k] == line[k..k + 3][0] == '/';
    TrimStartAt(line, k);
    assert line[k..][..3] == line[k..k + 3];
  }

  /** A line whose trimmed text starts with `///` is never a plain comment. */
  lemma TripleSlashIsNotComment(line: string)
    requires StartsWith(TrimStart(line), Marker)
    ensures !IsPlainComment(line)
  {
    var r := TrimStart(line);
    var t := |line| - |r|;
    var k := BlankRun(line);
    assert r[..3] == Marker;
    assert line[t] == r[0] && line[t + 2] == r[2];
    if k < t {
      assert IsWhiteSpace(line[k]);
    }
  }

  /** A commented-out declaration is a plain comment as well. */
  lemma ScopeIsComment(line: string)
    requires IsCommentedScope(line)
    ensures IsPlainComment(line)
  {
    var k := BlankRun(line);
    var rest := line[k + 2..];
    var b := BlankRun(rest);
    var word := rest[b..];
    if KeywordThenBlank(word, "public") {
      KeywordLeads(word, "public");
      assert "public"[0] == 'p';
    } else if KeywordThenBlank(word, "protected") {
      KeywordLeads(word, "protected");
      assert "protected"[0] == 'p';
    } else if KeywordThenBlank(word, "private") {
      KeywordLeads(word, "private");
      assert "private"[0] == 'p';
    } else {
      KeywordLeads(word, "internal");
      assert "internal"[0] == 'i';
    }
    assert word[0] == rest[b];
    assert line[k + 2] == rest[0];
  }

  /** A text that starts with a keyword starts with the keyword's first letter. */
  lemma KeywordLeads(s: string, kw: string)
    requires KeywordThenBlank(s, kw) && kw != []
    ensures |s| > 0 && s[0] == kw[0]
  {
    assert s[..|kw|][0] == s[0];
  }
}
